/** The durable workflow as a step system: one store, any number of relays, an
    at-least-once broker, its one consumer, any number of other workers
    (including ones that are dead to the rest of the world), the runners'
    fenced report writes, and the recovery scan.

    Every list of steps is a run.  A step whose guard fails leaves the state
    alone, and an actor that never steps again has crashed, so runs cover
    crashes between any two steps. */
module WorkflowSystem {
  import opened GoInt
  import opened JobModel
  import opened Prelude
  import opened JobStore
  import opened Worker

  /** A worker configuration after `WithDefaults`. */
  type Settings = c: Config | c.maxAttempts >= 1 && c.lease > 0 && c.retryBase > 0 && c.retryMax > 0
    witness Config(3, 300_000_000_000, 1_000_000_000, 60_000_000_000)

  datatype Phase = Ready | InRunner | Returned(run: RunResult) | Over(updated: bool)

  /** One `Handle` call that obtained a claim.  `job` is the row as claimed, for
      this event, [start, end) the lease it holds, `wrote` the report it stored. */
  datatype Exec = Exec(job: Job, event: Event, verdict: Verdict, start: Time, end: Time, phase: Phase, ran: bool, wrote: Option<Bytes>)

  datatype Report = Report(content: Bytes, writer: Id)

  /** Log entry: `owner` moved `job` into a terminal status, after a run with
      this outcome if its runner was invoked. */
  datatype Final = Final(job: Id, owner: Id, status: Status, run: Option<RunResult>)

  datatype Consumer = Idle | Holding(message: Message) | Handling(message: Message, owner: Id) | Handled(message: Message)

  /** `sent` collects the outbox events some relay has published successfully:
      from then on that relay may mark the row, at any time or never. */
  datatype State = State(store: Store, execs: map<Id, Exec>, reports: map<Id, Report>, finals: seq<Final>,
                         messages: seq<Message>, next: nat, sent: set<Id>, consumer: Consumer)

  const INITIAL: State := State(EMPTY, map[], map[], [], [], 0, {}, Idle)

  datatype Step =
    | Submit(input: ReceiveInput, now: Time)
    | Inject(message: Message)                          // anybody may put anything on the topic
    | Publish(eventId: Id)
    | MarkDone(eventId: Id, now: Time)
    | MarkFailed(eventId: Id, now: Time)
    | Fetch
    | ClaimHeld(now: Time)                              // the consumer's Handle
    | SettleHeld                                        // ... has returned
    | Quarantine
    | Commit
    | Crash
    | ClaimElsewhere(event: Event, now: Time)           // any other worker's Handle
    | Begin(owner: Id)
    | WriteReport(owner: Id, content: Bytes, now: Time)
    | Return(owner: Id, run: RunResult)
    | Finish(owner: Id, now: Time)
    | Renew(owner: Id, now: Time, lease: int)
    | Recover(sel: seq<Id>, now: Time)

  /* ---- Worker steps ---- */

  function ClaimStep(cfg: Settings, s: State, event: Event, now: Time): (State, ClaimResult)
    requires event.Wellformed()
  {
    var owner := Id("claim", s.store.ids);
    var (st, r) := Claim(s.store.(ids := s.store.ids + 1), event.jobId.value, owner, now, cfg.lease);
    var execs := if r.Claimed?
                 then s.execs[owner := Exec(r.job, event, Decide(r.job, event, cfg.maxAttempts), now, now + cfg.lease, Ready, false, None)]
                 else s.execs;
    (s.(store := st, execs := execs), r)
  }

  function SetPhase(s: State, owner: Id, phase: Phase): State
    requires owner in s.execs
  {
    s.(execs := s.execs[owner := s.execs[owner].(phase := phase)])
  }

  function BeginStep(s: State, owner: Id): State {
    if owner in s.execs && s.execs[owner].phase.Ready? && s.execs[owner].verdict.Runnable? then
      s.(execs := s.execs[owner := s.execs[owner].(phase := InRunner, ran := true)])
    else s
  }

  /** INSERT ... SELECT ... WHERE status='RUNNING' AND lease_owner=? AND
      lease_until>now ON DUPLICATE KEY UPDATE; no row means the lease is lost. */
  function WriteStep(s: State, owner: Id, content: Bytes, now: Time): State {
    if owner in s.execs && s.execs[owner].phase.InRunner? && s.execs[owner].wrote.None? then
      var id := s.execs[owner].job.id;
      if id in s.store.jobs && HoldsLease(s.store.jobs[id], owner, now) then
        s.(reports := s.reports[id := Report(content, owner)],
           execs := s.execs[owner := s.execs[owner].(wrote := Some(content))])
      else
        SetPhase(s, owner, Returned(RunLeaseLost))
    else s
  }

  /** A runner reports success only after its report was stored. */
  function ReturnStep(s: State, owner: Id, run: RunResult): State {
    if owner in s.execs && s.execs[owner].phase.InRunner? && (run.RunOk? ==> s.execs[owner].wrote.Some?) then
      SetPhase(s, owner, Returned(run))
    else s
  }

  predicate MayFinish(ex: Exec) {
    ex.phase.Returned? || (ex.phase.Ready? && !ex.verdict.Runnable?)
  }

  function EndingOf(cfg: Settings, ex: Exec, now: Time): Ending {
    Choose(ex.job, ex.verdict, if ex.phase.Returned? then ex.phase.run else RunRejected, cfg, now)
  }

  function OutcomeOf(ex: Exec): Option<RunResult> {
    if ex.phase.Returned? then Some(ex.phase.run) else None
  }

  function FinishStep(cfg: Settings, s: State, owner: Id, now: Time): State {
    if owner in s.execs && MayFinish(s.execs[owner]) then
      var ex := s.execs[owner];
      var ending := EndingOf(cfg, ex, now);
      var (st, u) := Settle(s.store, ex.job.id, owner, ending, now);
      var done := u.Updated?;
      s.(store := st,
         execs := s.execs[owner := ex.(phase := Over(done), end := if done then now else ex.end)],
         finals := if done && ending.Close? then s.finals + [Final(ex.job.id, owner, ending.status, OutcomeOf(ex))] else s.finals)
    else s
  }

  function RenewStep(s: State, owner: Id, now: Time, lease: int): State {
    if owner in s.execs then
      var (st, u) := JobStore.Renew(s.store, s.execs[owner].job.id, owner, now, lease);
      if u.Updated? then s.(store := st, execs := s.execs[owner := s.execs[owner].(end := now + lease)]) else s
    else s
  }

  /* ---- Relay, broker and consumer steps ---- */

  function PublishStep(s: State, eventId: Id): State {
    if eventId in s.store.outbox then
      s.(messages := s.messages + [Message(Some(eventId), Some(s.store.outbox[eventId].event))], sent := s.sent + {eventId})
    else s
  }

  function ClaimHeldStep(cfg: Settings, s: State, now: Time): State {
    if s.consumer.Holding? && s.consumer.message.Decoded().Some? then
      var m := s.consumer.message;
      var (s1, r) := ClaimStep(cfg, s, m.Decoded().value, now);
      match r
      case Claimed(_) => s1.(consumer := Handling(m, Id("claim", s.store.ids)))
      case NotClaimed(job) => if job.status.Terminal() then s1.(consumer := Handled(m)) else s1
      case NoSuchJob => s1
    else s
  }

  /** Handle returned: nil when the update was accepted, an error otherwise,
      after which the loop handles the same message again. */
  function SettleHeldStep(s: State): State {
    if s.consumer.Handling? && s.consumer.owner in s.execs && s.execs[s.consumer.owner].phase.Over? then
      var m := s.consumer.message;
      s.(consumer := if s.execs[s.consumer.owner].phase.updated then Handled(m) else Holding(m))
    else s
  }

  /** Messages that do not decode or name no job are set aside. */
  predicate Poison(s: State, m: Message) {
    m.Decoded().None? || m.Decoded().value.jobId.value !in s.store.jobs
  }

  /** Any list of distinct stale jobs: every possible limit and row order. */
  predicate MayRecover(st: Store, sel: seq<Id>, now: Time) {
    && (forall i :: 0 <= i < |sel| ==> sel[i] in StaleJobs(st, now))
    && (forall i, k :: 0 <= i < k < |sel| ==> sel[i] != sel[k])
  }

  function Next(cfg: Settings, s: State, e: Step): State {
    match e
    case Submit(input, now) => s.(store := Receive(s.store, input, now).0)
    case Inject(m) => s.(messages := s.messages + [m])
    case Publish(eventId) => PublishStep(s, eventId)
    case MarkDone(eventId, now) =>
      if eventId in s.sent then s.(store := MarkPublished(s.store, eventId, now, true).0) else s
    case MarkFailed(eventId, now) => s.(store := MarkPublished(s.store, eventId, now, false).0)
    case Fetch =>
      if s.consumer.Idle? && s.next < |s.messages| then s.(consumer := Holding(s.messages[s.next])) else s
    case ClaimHeld(now) => ClaimHeldStep(cfg, s, now)
    case SettleHeld => SettleHeldStep(s)
    case Quarantine =>
      if s.consumer.Holding? && Poison(s, s.consumer.message) then s.(consumer := Handled(s.consumer.message)) else s
    case Commit =>
      if s.consumer.Handled? then s.(next := if s.next < |s.messages| then s.next + 1 else s.next, consumer := Idle) else s
    case Crash => s.(consumer := Idle)
    case ClaimElsewhere(event, now) => if event.Wellformed() then ClaimStep(cfg, s, event, now).0 else s
    case Begin(owner) => BeginStep(s, owner)
    case WriteReport(owner, content, now) => WriteStep(s, owner, content, now)
    case Return(owner, run) => ReturnStep(s, owner, run)
    case Finish(owner, now) => FinishStep(cfg, s, owner, now)
    case Renew(owner, now, lease) => RenewStep(s, owner, now, lease)
    case Recover(sel, now) =>
      if MayRecover(s.store, sel, now) then s.(store := RecoverAll(s.store, sel, now)) else s
  }

  function Run(cfg: Settings, s: State, steps: seq<Step>): State {
    if steps == [] then s else Next(cfg, Run(cfg, s, steps[..|steps| - 1]), steps[|steps| - 1])
  }
}
