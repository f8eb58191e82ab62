/** `Handle` on its own: every claiming call brings the job closer to its end,
    retries are spaced as promised, and a call is a run of the step system,
    renewals included. */
module WorkerProgress {
  import opened GoInt
  import opened JobModel
  import opened Prelude
  import opened JobStore
  import opened Worker
  import opened WorkflowSystem
  import opened WorkflowSafety
  import opened WorkflowTheorems

  datatype Call = Call(message: Message, now: Time, run: RunResult, renewals: seq<Time>, later: Time)

  /** When a lease taken at `now` and renewed at these times ends. */
  function LeaseEnd(now: Time, renewals: seq<Time>, lease: int): Time {
    (if renewals == [] then now else renewals[|renewals| - 1]) + lease
  }

  /** Every renewal comes before the lease it extends has ended. */
  ghost predicate InTime(now: Time, renewals: seq<Time>, lease: int) {
    forall i :: 0 <= i < |renewals| ==> renewals[i] < LeaseEnd(now, renewals[..i], lease)
  }

  /** What the claimed job will be due for. */
  function Due(cfg: Settings, st: Store, id: Id, c: Call): Verdict
    requires id in st.jobs && c.message.Decoded().Some?
  {
    Decide(st.jobs[id].(attempts := st.jobs[id].attempts + 1), c.message.Decoded().value, cfg.maxAttempts)
  }

  /** The call obtains the job and settles it while it holds the lease, which
      it has renewed in time as long as the job was running. */
  ghost predicate Prompt(cfg: Settings, st: Store, id: Id, c: Call) {
    && id in st.jobs && st.jobs[id].id == id
    && Names(c.message, id) && Claimable(st.jobs[id], c.now)
    && InTime(c.now, c.renewals, cfg.lease) && c.later < LeaseEnd(c.now, c.renewals, cfg.lease)
    && (c.renewals != [] ==> Due(cfg, st, id, c).Runnable?)
  }

  lemma DefaultsKeepSettings(cfg: Settings)
    ensures cfg.WithDefaults() == cfg
  {
  }

  lemma OneMoreRenewal(st: Store, id: Id, owner: Id, at: Time, until: Time, lease: int)
    requires id in st.jobs && st.jobs[id].status.Running? && st.jobs[id].leaseOwner == Some(owner) && at < until
    ensures JobStore.Renew(st.(jobs := st.jobs[id := st.jobs[id].(leaseUntil := until)]), id, owner, at, lease)
         == (st.(jobs := st.jobs[id := st.jobs[id].(leaseUntil := at + lease)]), Updated)
  {
    var held := st.jobs[id].(leaseUntil := until);
    assert st.jobs[id := held][id := held.(leaseUntil := at + lease)] == st.jobs[id := held.(leaseUntil := at + lease)];
  }

  /** Renewals in time move the end of the lease and nothing else. */
  lemma {:induction false} RenewalsExtend(st: Store, id: Id, owner: Id, now: Time, renewals: seq<Time>, lease: int)
    requires id in st.jobs && st.jobs[id].status.Running? && st.jobs[id].leaseOwner == Some(owner)
    requires st.jobs[id].leaseUntil == now + lease && InTime(now, renewals, lease)
    ensures KeepAlive(st, id, owner, renewals, lease)
         == (st.(jobs := st.jobs[id := st.jobs[id].(leaseUntil := LeaseEnd(now, renewals, lease))]), true)
  {
    hide JobStore.Renew;
    if renewals != [] {
      var front, last := renewals[..|renewals| - 1], renewals[|renewals| - 1];
      assert forall i :: 0 <= i < |front| ==> front[..i] == renewals[..i];
      RenewalsExtend(st, id, owner, now, front, lease);
      assert last < LeaseEnd(now, renewals[..|front|], lease);
      OneMoreRenewal(st, id, owner, last, LeaseEnd(now, front, lease), lease);
    } else {
      assert st.jobs[id := st.jobs[id].(leaseUntil := now + lease)] == st.jobs;
    }
  }

  /** The job as the call claims it, and as it holds it in the end. */
  function ClaimedRow(cfg: Settings, st: Store, id: Id, c: Call): Job
    requires id in st.jobs
  {
    st.jobs[id].(status := Running, leaseOwner := Some(Id("claim", st.ids)), leaseUntil := c.now + cfg.lease,
                 attempts := st.jobs[id].attempts + 1, updatedAt := c.now)
  }

  function HeldStore(cfg: Settings, st: Store, id: Id, c: Call): Store
    requires id in st.jobs
  {
    st.(ids := st.ids + 1,
        jobs := st.jobs[id := ClaimedRow(cfg, st, id, c).(leaseUntil := LeaseEnd(c.now, c.renewals, cfg.lease))])
  }

  /** A prompt call settles the job under the lease of its claim. */
  lemma PromptCallIsSettled(cfg: Settings, st: Store, id: Id, c: Call)
    requires Prompt(cfg, st, id, c)
    ensures var verdict, owner := Due(cfg, st, id, c), Id("claim", st.ids);
      var outcome := if verdict.Runnable? then c.run else RunRejected;
      var (r, updated) := Settle(HeldStore(cfg, st, id, c), id, owner,
                                 Choose(ClaimedRow(cfg, st, id, c), verdict, outcome, cfg, c.later), c.later);
      updated.Updated? && HandleOf(st, c.message, cfg, c.now, c.run, c.renewals, c.later) == (r, Done)
  {
    hide Choose;
    DefaultsKeepSettings(cfg);
    var owner, row := Id("claim", st.ids), ClaimedRow(cfg, st, id, c);
    var st1 := st.(ids := st.ids + 1, jobs := st.jobs[id := row]);
    assert Claim(st.(ids := st.ids + 1), id, owner, c.now, cfg.lease) == (st1, Claimed(row));
    RenewalsExtend(st1, id, owner, c.now, c.renewals, cfg.lease);
    assert st1.jobs[id := st1.jobs[id].(leaseUntil := LeaseEnd(c.now, c.renewals, cfg.lease))] == HeldStore(cfg, st, id, c).jobs;
    assert KeepAlive(st1, id, owner, c.renewals, cfg.lease) == (HeldStore(cfg, st, id, c), true);
  }

  /** One prompt call ends the job or schedules the next attempt exactly
      min(RetryMax, RetryBase * 2^(attempts-1)) after the failure, with a new
      deliverable record, and fewer than MaxAttempts attempts used. */
  lemma PromptCallProgresses(cfg: Settings, st: Store, id: Id, c: Call)
    requires Prompt(cfg, st, id, c)
    ensures var (r, result) := HandleOf(st, c.message, cfg, c.now, c.run, c.renewals, c.later);
      && result == Done && id in r.jobs && r.jobs[id].id == id
      && r.jobs[id].attempts == st.jobs[id].attempts + 1
      && (|| r.jobs[id].status.Terminal()
          || (&& r.jobs[id].status.Retrying? && r.jobs[id].attempts < cfg.maxAttempts
              && r.jobs[id].nextAttemptAt == c.later + Min(cfg.retryMax, cfg.retryBase * Pow2(r.jobs[id].attempts - 1))
              && HasPending(r, id)))
  {
    PromptCallIsSettled(cfg, st, id, c);
    hide HandleOf, KeepAlive, Settle, Choose, HasPending, Min, Pow2;
    var verdict := Due(cfg, st, id, c);
    SettledJob(cfg, HeldStore(cfg, st, id, c), ClaimedRow(cfg, st, id, c), Id("claim", st.ids), verdict,
               if verdict.Runnable? then c.run else RunRejected, c.later);
  }

  /** What settling does to a job whose lease is held. */
  lemma SettledJob(cfg: Settings, st: Store, job: Job, owner: Id, verdict: Verdict, run: RunResult, later: Time)
    requires job.id in st.jobs && HoldsLease(st.jobs[job.id], owner, later) && st.jobs[job.id].id == job.id
    requires st.jobs[job.id].attempts == job.attempts >= 1
    ensures var r := Settle(st, job.id, owner, Choose(job, verdict, run, cfg, later), later).0;
      && job.id in r.jobs && r.jobs[job.id].id == job.id && r.jobs[job.id].attempts == job.attempts
      && (|| r.jobs[job.id].status.Terminal()
          || (&& r.jobs[job.id].status.Retrying? && job.attempts < cfg.maxAttempts
              && r.jobs[job.id].nextAttemptAt == later + Min(cfg.retryMax, cfg.retryBase * Pow2(job.attempts - 1))
              && HasPending(r, job.id)))
  {
    var ending := Choose(job, verdict, run, cfg, later);
    var r := Settle(st, job.id, owner, ending, later).0;
    if ending.TryAgain? {
      var e := Id("retry", st.ids);
      assert e in r.outbox && r.outbox[e].pending && r.outbox[e].jobId == job.id;
    }
  }

  ghost function AfterCalls(cfg: Settings, st: Store, calls: seq<Call>): Store {
    if calls == [] then st
    else
      var c := calls[|calls| - 1];
      HandleOf(AfterCalls(cfg, st, calls[..|calls| - 1]), c.message, cfg, c.now, c.run, c.renewals, c.later).0
  }

  ghost predicate AllPrompt(cfg: Settings, st: Store, id: Id, calls: seq<Call>) {
    forall i :: 0 <= i < |calls| ==> Prompt(cfg, AfterCalls(cfg, st, calls[..i]), id, calls[i])
  }

  /** Undisturbed prompt calls finish the job within MaxAttempts attempts. */
  lemma {:induction false} PromptCallsTerminate(cfg: Settings, st: Store, id: Id, calls: seq<Call>)
    requires id in st.jobs && st.jobs[id].id == id && calls != [] && AllPrompt(cfg, st, id, calls)
    ensures var r := AfterCalls(cfg, st, calls);
      && id in r.jobs
      && (r.jobs[id].status.Terminal() || r.jobs[id].attempts == st.jobs[id].attempts + |calls| < cfg.maxAttempts)
    ensures st.jobs[id].attempts + |calls| >= cfg.maxAttempts ==> AfterCalls(cfg, st, calls).jobs[id].status.Terminal()
  {
    hide HandleOf, Min, Pow2, HasPending;
    var front, c := calls[..|calls| - 1], calls[|calls| - 1];
    var mid := AfterCalls(cfg, st, front);
    assert Prompt(cfg, mid, id, c);
    PromptCallProgresses(cfg, mid, id, c);
    if front != [] {
      assert forall i :: 0 <= i < |front| ==> front[..i] == calls[..i];
      PromptCallsTerminate(cfg, st, id, front);
    }
  }
}
