/** The control-plane store: its atomic steps as functions on a store value.
    `RecoverAll` is the one step taken from the MySQL store. */
module JobStore {
  import opened GoInt
  import opened JobModel
  import opened Prelude

  const FIVE_MINUTES: Time := 300_000_000_000

  /** `pending` stands for "payload present / published_at IS NULL". */
  datatype Outbox = Outbox(jobId: Id, event: Event, pending: bool, attempts: nat, availableAt: Time)

  /** `ids` is the counter behind `newID`. */
  datatype Store = Store(jobs: map<Id, Job>, byDelivery: map<string, Id>, outbox: map<Id, Outbox>, ids: nat)

  const EMPTY: Store := Store(map[], map[], map[], 0)

  datatype ReceiveResult = InvalidInput | DeliveryConflict | Accepted(job: Job, duplicate: bool)
  datatype ClaimResult = NoSuchJob | NotClaimed(job: Job) | Claimed(job: Job)
  datatype UpdateResult = NotFound | Refused | Updated

  function EventFor(eventId: Id, job: Job, attempt: int): Event {
    Event(1, Some(eventId), Some(job.id), job.deliveryId, attempt)
  }

  function Enqueue(st: Store, prefix: string, job: Job, attempt: int, availableAt: Time): Store {
    var eventId := Id(prefix, st.ids);
    st.(outbox := st.outbox[eventId := Outbox(job.id, EventFor(eventId, job, attempt), true, 0, availableAt)],
        ids := st.ids + 1)
  }

  function NewJob(id: Id, input: ReceiveInput, now: Time): Job {
    Job(id, input.deliveryId, input.prNumber, input.options.Normalized(), input.sql, input.candidate,
        Sha(input.sql), Sha(input.candidate), Queued, 0, now, None, ZERO_TIME, "", now, now, None)
  }

  function Receive(st: Store, input: ReceiveInput, now: Time): (Store, ReceiveResult) {
    if !input.Acceptable() then
      (st, InvalidInput)
    else if input.deliveryId in st.byDelivery && st.byDelivery[input.deliveryId] in st.jobs then
      var prior := st.jobs[st.byDelivery[input.deliveryId]];
      (st, if SameDelivery(prior, input) then Accepted(prior, true) else DeliveryConflict)
    else
      var job := NewJob(Id("job", st.ids), input, now);
      var st1 := Enqueue(st.(ids := st.ids + 1), "event", job, 1, now);
      (st1.(jobs := st.jobs[job.id := job], byDelivery := st.byDelivery[input.deliveryId := job.id]),
       Accepted(job, false))
  }

  predicate Claimable(job: Job, now: Time) {
    && !job.status.Terminal()
    && !(job.status.Running? && job.leaseUntil > now)
    && !((job.status.Queued? || job.status.Retrying?) && job.nextAttemptAt > now)
  }

  function Claim(st: Store, id: Id, owner: Id, now: Time, lease: int): (Store, ClaimResult) {
    if id !in st.jobs then
      (st, NoSuchJob)
    else if !Claimable(st.jobs[id], now) then
      (st, NotClaimed(st.jobs[id]))
    else
      var job := st.jobs[id].(status := Running, leaseOwner := Some(owner), leaseUntil := now + lease,
                              attempts := st.jobs[id].attempts + 1, updatedAt := now);
      (st.(jobs := st.jobs[id := job]), Claimed(job))
  }

  /** The fence every owner-conditional update shares. */
  predicate HoldsLease(job: Job, owner: Id, now: Time) {
    job.status.Running? && job.leaseOwner == Some(owner) && job.leaseUntil > now
  }

  function Finish(st: Store, id: Id, owner: Id, now: Time, status: Status, reason: string): (Store, UpdateResult) {
    if id !in st.jobs then
      (st, NotFound)
    else if !HoldsLease(st.jobs[id], owner, now) then
      (st, Refused)
    else
      var job := st.jobs[id];
      (st.(jobs := st.jobs[id := job.(status := status, lastError := reason, leaseOwner := None,
                                      leaseUntil := ZERO_TIME, updatedAt := now,
                                      completedAt := if status.Completed? || status.Rejected? then Some(now) else job.completedAt)]),
       Updated)
  }

  function Retry(st: Store, id: Id, owner: Id, now: Time, next: Time, reason: string): (Store, UpdateResult) {
    if id !in st.jobs then
      (st, NotFound)
    else if !HoldsLease(st.jobs[id], owner, now) then
      (st, Refused)
    else
      var job := st.jobs[id].(status := Retrying, lastError := reason, nextAttemptAt := next,
                              leaseOwner := None, leaseUntil := ZERO_TIME, updatedAt := now);
      (Enqueue(st.(jobs := st.jobs[id := job]), "retry", job, job.attempts + 1, next), Updated)
  }

  function Renew(st: Store, id: Id, owner: Id, now: Time, lease: int): (Store, UpdateResult) {
    if id !in st.jobs then
      (st, NotFound)
    else if !HoldsLease(st.jobs[id], owner, now) then
      (st, Refused)
    else
      (st.(jobs := st.jobs[id := st.jobs[id].(leaseUntil := now + lease)]), Updated)
  }

  function MarkPublished(st: Store, eventId: Id, now: Time, published: bool): (Store, bool) {
    if eventId !in st.outbox then
      (st, false)
    else
      var row := st.outbox[eventId];
      var row' := if published then row.(pending := false)
                  else row.(attempts := row.attempts + 1,
                            availableAt := now + Backoff(SECOND, MINUTE, row.attempts + 1));
      (st.(outbox := st.outbox[eventId := row']), true)
  }

  /* ---- Recovery scan ---- */

  predicate HasPending(st: Store, id: Id) {
    exists e :: e in st.outbox && st.outbox[e].pending && st.outbox[e].jobId == id
  }

  predicate Stale(st: Store, job: Job, now: Time) {
    || (job.status.Running? && job.leaseUntil <= now)
    || ((job.status.Queued? || job.status.Retrying?) && job.nextAttemptAt <= now
        && job.updatedAt <= now - FIVE_MINUTES && !HasPending(st, job.id))
  }

  function StaleJobs(st: Store, now: Time): set<Id> {
    set id | id in st.jobs && Stale(st, st.jobs[id], now)
  }

  /** What `SELECT ... ORDER BY updated_at LIMIT n` may return: `limit` of the
      stale jobs, or all of them if fewer, least recently updated first. */
  ghost predicate IsSelection(st: Store, now: Time, limit: nat, sel: seq<Id>) {
    && (forall i, k :: 0 <= i < k < |sel| ==> sel[i] != sel[k])
    && (forall i :: 0 <= i < |sel| ==> sel[i] in StaleJobs(st, now))
    && |sel| <= limit
    && (|sel| < limit ==> forall id :: id in StaleJobs(st, now) ==> id in sel)
    && (forall i, k :: 0 <= i < k < |sel| ==> st.jobs[sel[i]].updatedAt <= st.jobs[sel[k]].updatedAt)
    && (forall id, i :: id in StaleJobs(st, now) && id !in sel && 0 <= i < |sel|
          ==> st.jobs[sel[i]].updatedAt <= st.jobs[id].updatedAt)
  }

  function RecoverOne(st: Store, id: Id, now: Time): Store
    requires id in st.jobs
  {
    var job := st.jobs[id].(status := Retrying, leaseOwner := None, leaseUntil := ZERO_TIME,
                            nextAttemptAt := now, updatedAt := now, lastError := "delivery_recovered");
    Enqueue(st.(jobs := st.jobs[id := job]), "recovery", job, job.attempts + 1, now)
  }

  function RecoverAll(st: Store, sel: seq<Id>, now: Time): (r: Store)
    requires forall i :: 0 <= i < |sel| ==> sel[i] in st.jobs
    ensures r.jobs.Keys == st.jobs.Keys
  {
    if sel == [] then st else RecoverOne(RecoverAll(st, sel[..|sel| - 1], now), sel[|sel| - 1], now)
  }
}
