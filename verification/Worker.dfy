/** One delivery attempt: `Worker.Handle`. */
module Worker {
  import opened GoInt
  import opened JobModel
  import opened Prelude
  import opened JobStore
  import opened MemoryStores

  /** How the verification run ended; RunLeaseLost also covers a run whose
      renewal failed. */
  datatype RunResult = RunOk | RunRejected | RunFailed | RunLeaseLost

  datatype HandleResult = Done | DecodeFailed | UnknownJob | LeaseBusy | LeaseLost

  /** What a claimed job is due for before anything is run. */
  datatype Verdict = Exhausted | Mismatch | Runnable

  function Decide(job: Job, event: Event, maxAttempts: int): Verdict {
    if job.attempts > maxAttempts then Exhausted
    else if job.deliveryId != event.deliveryId || Sha(job.sql) != job.sqlSHA || Sha(job.candidate) != job.candidateSHA
    then Mismatch
    else Runnable
  }

  function Reason(run: RunResult): string {
    match run
    case RunRejected => "input_rejected"
    case RunLeaseLost => "lease_lost"
    case _ => "runner_failed"
  }

  /** The update that ends an attempt. */
  datatype Ending = Close(status: Status, reason: string) | TryAgain(next: Time, reason: string)

  function Choose(job: Job, verdict: Verdict, run: RunResult, cfg: Config, now: Time): (e: Ending)
    requires cfg.retryBase >= 0
    ensures e.Close? ==> e.status.Terminal()
  {
    if verdict.Exhausted? then Close(DeadLetter, "attempts_exhausted")
    else if verdict.Mismatch? || run.RunRejected? then Close(Rejected, "input_rejected")
    else if run.RunOk? then Close(Completed, "")
    else if job.attempts >= cfg.maxAttempts then Close(DeadLetter, Reason(run))
    else TryAgain(now + Backoff(cfg.retryBase, cfg.retryMax, job.attempts), Reason(run))
  }

  function Settle(st: Store, id: Id, owner: Id, ending: Ending, now: Time): (Store, UpdateResult) {
    match ending
    case Close(status, reason) => Finish(st, id, owner, now, status, reason)
    case TryAgain(next, reason) => Retry(st, id, owner, now, next, reason)
  }

  /** The renewals of a running attempt, up to the first that is refused, and
      whether none was. */
  function KeepAlive(st: Store, id: Id, owner: Id, renewals: seq<Time>, lease: int): (Store, bool) {
    if renewals == [] then (st, true)
    else
      var (st1, alive) := KeepAlive(st, id, owner, renewals[..|renewals| - 1], lease);
      if !alive then (st1, false)
      else
        var (st2, updated) := Renew(st1, id, owner, renewals[|renewals| - 1], lease);
        (st2, updated.Updated?)
  }

  /** The run of an attempt: a refused renewal cancels it. */
  function RunOf(st: Store, job: Job, owner: Id, verdict: Verdict, run: RunResult, renewals: seq<Time>, lease: int): (Store, RunResult) {
    if !verdict.Runnable? then (st, RunRejected)
    else
      var (st1, alive) := KeepAlive(st, job.id, owner, renewals, lease);
      (st1, if alive then run else RunLeaseLost)
  }

  /** The whole attempt when nobody else touches the store in between. */
  function HandleOf(st: Store, message: Message, config: Config, now: Time, run: RunResult, renewals: seq<Time>, later: Time)
    : (Store, HandleResult)
  {
    if message.Decoded().None? then
      (st, DecodeFailed)
    else
      var event, cfg := message.Decoded().value, config.WithDefaults();
      var owner := Id("claim", st.ids);
      var (st1, claim) := Claim(st.(ids := st.ids + 1), event.jobId.value, owner, now, cfg.lease);
      match claim
      case NoSuchJob => (st1, UnknownJob)
      case NotClaimed(job) => (st1, if job.status.Terminal() then Done else LeaseBusy)
      case Claimed(job) =>
        var verdict := Decide(job, event, cfg.maxAttempts);
        var (st2, outcome) := RunOf(st1, job, owner, verdict, run, renewals, cfg.lease);
        var (st3, updated) := Settle(st2, job.id, owner, Choose(job, verdict, outcome, cfg, later), later);
        (st3, if updated.Updated? then Done else if updated.Refused? then LeaseLost else UnknownJob)
  }

  /** The renewal loop beside a run. */
  method RenewAll(store: MemoryStore, id: Id, owner: Id, renewals: seq<Time>, lease: int) returns (alive: bool)
    modifies store`jobs
    ensures (store.State(), alive) == KeepAlive(old(store.State()), id, owner, renewals, lease)
  {
    var i := 0;
    ghost var before := store.State();
    while i < |renewals|
      invariant 0 <= i <= |renewals|
      invariant (store.State(), true) == KeepAlive(before, id, owner, renewals[..i], lease)
      invariant store.byDeliv == before.byDelivery && store.outbox == before.outbox && store.ids == before.ids
    {
      assert renewals[..i + 1][..i] == renewals[..i];
      var updated := store.Renew(id, owner, renewals[i], lease);
      if !updated.Updated? {
        LostForGood(before, id, owner, renewals, i + 1, lease);
        return false;
      }
      i := i + 1;
    }
    assert renewals[..i] == renewals;
    alive := true;
  }

  lemma {:induction false} LostForGood(st: Store, id: Id, owner: Id, renewals: seq<Time>, i: nat, lease: int)
    requires i <= |renewals| && !KeepAlive(st, id, owner, renewals[..i], lease).1
    ensures KeepAlive(st, id, owner, renewals, lease) == KeepAlive(st, id, owner, renewals[..i], lease)
    decreases |renewals|
  {
    if i == |renewals| {
      assert renewals[..i] == renewals;
    } else {
      assert renewals[..|renewals| - 1][..i] == renewals[..i];
      LostForGood(st, id, owner, renewals[..|renewals| - 1], i, lease);
    }
  }

  lemma NoRun(st: Store, job: Job, owner: Id, verdict: Verdict, run: RunResult, renewals: seq<Time>, lease: int)
    requires !verdict.Runnable?
    ensures RunOf(st, job, owner, verdict, run, renewals, lease) == (st, RunRejected)
  {
  }

  /** The input check and the run of an attempt that is not exhausted. */
  method RunAttempt(store: MemoryStore, job: Job, event: Event, owner: Id, run: RunResult, renewals: seq<Time>, cfg: Config)
    returns (err: RunResult)
    requires job.attempts <= cfg.maxAttempts
    modifies store`jobs
    ensures (store.State(), err)
         == RunOf(old(store.State()), job, owner, Decide(job, event, cfg.maxAttempts), run, renewals, cfg.lease)
    ensures Decide(job, event, cfg.maxAttempts).Mismatch? ==> err.RunRejected?
  {
    hide KeepAlive;
    if job.deliveryId != event.deliveryId || Sha(job.sql) != job.sqlSHA || Sha(job.candidate) != job.candidateSHA {
      return RunRejected;
    }
    var alive := RenewAll(store, job.id, owner, renewals, cfg.lease);
    return if alive then run else RunLeaseLost;
  }

  /** The update that ends an attempt, by the outcome of its run. */
  method SettleAttempt(store: MemoryStore, job: Job, event: Event, owner: Id, err: RunResult, cfg: Config, later: Time)
    returns (updated: UpdateResult)
    requires job.attempts <= cfg.maxAttempts && cfg.retryBase >= 0
    requires Decide(job, event, cfg.maxAttempts).Mismatch? ==> err.RunRejected?
    modifies store
    ensures (store.State(), updated)
         == Settle(old(store.State()), job.id, owner, Choose(job, Decide(job, event, cfg.maxAttempts), err, cfg, later), later)
  {
    hide JobStore.Finish, Retry, Backoff;
    if err.RunOk? {
      updated := store.Finish(job.id, owner, later, Completed, "");
    } else if err.RunRejected? {
      updated := store.Finish(job.id, owner, later, Rejected, "input_rejected");
    } else if job.attempts >= cfg.maxAttempts {
      updated := store.Finish(job.id, owner, later, DeadLetter, Reason(err));
    } else {
      var delay := RetryDelay(cfg.retryBase, cfg.retryMax, job.attempts);
      updated := store.Retry(job.id, owner, later, later + delay, Reason(err));
    }
  }

  /** `run` is what the runner returns if it is invoked, `renewals` the clock
      readings of the renewals meanwhile, `later` that of the settlement. */
  method Handle(store: MemoryStore, message: Message, config: Config, now: Time, run: RunResult, renewals: seq<Time>, later: Time)
    returns (r: HandleResult)
    modifies store
    ensures (store.State(), r) == HandleOf(old(store.State()), message, config, now, run, renewals, later)
  {
    hide RunOf;
    var decoded := message.Decoded();
    if decoded.None? {
      return DecodeFailed;
    }
    var event, cfg := decoded.value, config.WithDefaults();
    var owner := store.NewID("claim");
    var claim := store.Claim(event.jobId.value, owner, now, cfg.lease);
    if claim.NoSuchJob? {
      return UnknownJob;
    }
    if claim.NotClaimed? {
      return if claim.job.status.Terminal() then Done else LeaseBusy;
    }
    var job := claim.job;
    var updated: UpdateResult;
    if job.attempts > cfg.maxAttempts {
      NoRun(store.State(), job, owner, Exhausted, run, renewals, cfg.lease);
      updated := store.Finish(job.id, owner, later, DeadLetter, "attempts_exhausted");
    } else {
      var err := RunAttempt(store, job, event, owner, run, renewals, cfg);
      updated := SettleAttempt(store, job, event, owner, err, cfg, later);
    }
    if updated.Updated? {
      return Done;
    }
    return if updated.Refused? then LeaseLost else UnknownJob;
  }
}
