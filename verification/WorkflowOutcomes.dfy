/** How attempts end, said on the rows they leave: which runs complete a job,
    which reject it, which are tried again and when the tries are up. */
module WorkflowOutcomes {
  import opened GoInt
  import opened JobModel
  import opened Prelude
  import opened JobStore
  import opened Worker
  import opened WorkflowSystem
  import opened WorkflowSafety
  import opened WorkflowTheorems
  import opened WorkerProgress
  import JobRecords

  /* ---- What an attempt is due for ---- */

  /** The message was not written for this row, or the row was tampered with. */
  predicate Mismatched(job: Job, event: Event) {
    job.deliveryId != event.deliveryId || Sha(job.sql) != job.sqlSHA || Sha(job.candidate) != job.candidateSHA
  }

  /** An attempt is run exactly if its number is at most MaxAttempts and its
      message matches the row. */
  ghost predicate RightlyJudged(cfg: Settings, ex: Exec) {
    && (ex.verdict.Exhausted? <==> ex.job.attempts > cfg.maxAttempts)
    && (ex.verdict.Mismatch? <==> ex.job.attempts <= cfg.maxAttempts && Mismatched(ex.job, ex.event))
    && (ex.verdict.Runnable? <==> ex.job.attempts <= cfg.maxAttempts && !Mismatched(ex.job, ex.event))
  }

  ghost predicate AllRightlyJudged(cfg: Settings, s: State) {
    forall o :: o in s.execs ==> RightlyJudged(cfg, s.execs[o])
  }

  lemma ClaimJudges(cfg: Settings, s: State, event: Event, now: Time, o: Id)
    requires event.Wellformed() && o in ClaimStep(cfg, s, event, now).0.execs && o !in s.execs
    ensures RightlyJudged(cfg, ClaimStep(cfg, s, event, now).0.execs[o])
  {
  }

  lemma NewExecsAreJudged(cfg: Settings, s: State, e: Step, o: Id)
    requires o in Next(cfg, s, e).execs && o !in s.execs
    ensures RightlyJudged(cfg, Next(cfg, s, e).execs[o])
  {
    hide RightlyJudged, ClaimStep, ClaimHeldStep;
    if e.ClaimElsewhere? {
      ClaimJudges(cfg, s, e.event, e.now, o);
    } else if e.ClaimHeld? {
      HeldClaimIsAClaim(cfg, s, e.now);
      ClaimJudges(cfg, s, s.consumer.message.Decoded().value, e.now, o);
    } else {
      OnlyClaimsOpen(cfg, s, e, o);
    }
  }

  lemma {:induction false} JudgedAlways(cfg: Settings, steps: seq<Step>)
    ensures AllRightlyJudged(cfg, Run(cfg, INITIAL, steps))
  {
    if steps != [] {
      var front, e := steps[..|steps| - 1], steps[|steps| - 1];
      JudgedAlways(cfg, front);
      ReachableInv(cfg, front);
      hide Next;
      var s := Run(cfg, INITIAL, front);
      forall o | o in Next(cfg, s, e).execs
        ensures RightlyJudged(cfg, Next(cfg, s, e).execs[o])
      {
        if o in s.execs {
          assert AttemptOk(cfg, s, o);
          StepAdvancesExec(cfg, s, e, o);
        } else {
          NewExecsAreJudged(cfg, s, e, o);
        }
      }
    }
  }

  /* ---- What it leaves ---- */

  /** The row after attempt n of MaxAttempts whose run ended like this (None if
      the runner was not invoked) was settled at `now`. */
  ghost predicate LeftBy(cfg: Settings, job: Job, n: int, mismatched: bool, run: Option<RunResult>, now: Time) {
    && job.leaseOwner == None && job.updatedAt == now && job.attempts == n
    && (n > cfg.maxAttempts ==> run.None? && job.status == DeadLetter && job.lastError == "attempts_exhausted")
    && (n <= cfg.maxAttempts && mismatched ==> run.None? && job.status == Rejected && job.lastError == "input_rejected")
    && (n <= cfg.maxAttempts && !mismatched ==>
          match run
          case None => false
          case Some(RunOk) => job.status == Completed && job.lastError == ""
          case Some(RunRejected) => job.status == Rejected && job.lastError == "input_rejected"
          case Some(failure) =>
            && job.lastError == (if failure == RunLeaseLost then "lease_lost" else "runner_failed")
            && (1 <= n < cfg.maxAttempts ==>
                  job.status == Retrying && job.nextAttemptAt == now + Min(cfg.retryMax, cfg.retryBase * Pow2(n - 1)))
            && (n == cfg.maxAttempts ==> job.status == DeadLetter))
  }

  /** Owner o settles its attempt with this step. */
  ghost predicate Settles(cfg: Settings, s: State, o: Id, now: Time) {
    var t := Next(cfg, s, Finish(o, now));
    o in s.execs && o in t.execs && t.execs[o].phase == Over(true) && s.execs[o].phase != Over(true)
  }

  lemma SettlingIsAccepted(cfg: Settings, s: State, o: Id, now: Time)
    requires Settles(cfg, s, o, now)
    ensures var ex := s.execs[o];
      && MayFinish(ex) && ex.job.id in s.store.jobs && HoldsLease(s.store.jobs[ex.job.id], o, now)
  {
  }

  lemma AcceptedLeaves(cfg: Settings, s: State, o: Id, now: Time)
    requires o in s.execs && MayFinish(s.execs[o]) && RightlyJudged(cfg, s.execs[o]) && RanIfBack(s.execs[o])
    requires s.execs[o].ran ==> s.execs[o].verdict.Runnable?
    requires var ex := s.execs[o];
      && ex.job.id in s.store.jobs && HoldsLease(s.store.jobs[ex.job.id], o, now)
      && s.store.jobs[ex.job.id].attempts == ex.job.attempts >= 1
    ensures var ex, t := s.execs[o], FinishStep(cfg, s, o, now);
      && ex.job.id in t.store.jobs
      && LeftBy(cfg, t.store.jobs[ex.job.id], ex.job.attempts, Mismatched(ex.job, ex.event), OutcomeOf(ex), now)
  {
    hide Pow2, Min, Mismatched;
  }

  /** In every run, a settlement that is accepted leaves the job as the outcome
      of the attempt demands: completed after a nil return, rejected after a
      rejection or for a message that does not match, and after a failure or a
      lost lease scheduled again until the last attempt, then dead. */
  lemma SettlementsFollowOutcomes(cfg: Settings, steps: seq<Step>, o: Id, now: Time)
    requires Settles(cfg, Run(cfg, INITIAL, steps), o, now)
    ensures var s, t := Run(cfg, INITIAL, steps), Next(cfg, Run(cfg, INITIAL, steps), Finish(o, now)); var ex := s.execs[o];
      && s.store.jobs[ex.job.id].status.Running? && now < s.store.jobs[ex.job.id].leaseUntil && ex.job.attempts >= 1
      && ex.job.id in t.store.jobs
      && LeftBy(cfg, t.store.jobs[ex.job.id], ex.job.attempts, Mismatched(ex.job, ex.event), OutcomeOf(ex), now)
  {
    hide LeftBy;
    var s := Run(cfg, INITIAL, steps);
    ReachableInv(cfg, steps);
    JudgedAlways(cfg, steps);
    SettlingIsAccepted(cfg, s, o, now);
    assert AttemptOk(cfg, s, o) && OwnerOk(s, s.execs[o].job.id);
    AcceptedLeaves(cfg, s, o, now);
    FinishIsStep(cfg, s, o, now);
  }

  lemma FinishIsStep(cfg: Settings, s: State, o: Id, now: Time)
    ensures Next(cfg, s, Finish(o, now)) == FinishStep(cfg, s, o, now)
  {
    hide FinishStep;
  }

  /* ---- What the log says ---- */

  /** A log entry fits the attempt that made it, both ways round. */
  ghost predicate FinalFits(cfg: Settings, s: State, f: Final) {
    && f.owner in s.execs
    && var ex := s.execs[f.owner]; var n, bad := ex.job.attempts, Mismatched(ex.job, ex.event);
    && (f.status == Completed <==> f.run == Some(RunOk))
    && (f.status == Rejected <==> f.run == Some(RunRejected) || (f.run == None && bad && n <= cfg.maxAttempts))
    && (f.status == DeadLetter <==>
          || (f.run == None && n > cfg.maxAttempts)
          || (n == cfg.maxAttempts && (f.run == Some(RunFailed) || f.run == Some(RunLeaseLost))))
    && (f.run.Some? <==> ex.ran) && (ex.ran <==> n <= cfg.maxAttempts && !bad)
  }

  lemma NewFinalFits(cfg: Settings, s: State, o: Id, now: Time)
    requires o in s.execs && MayFinish(s.execs[o]) && RightlyJudged(cfg, s.execs[o]) && RanIfBack(s.execs[o])
    requires s.execs[o].ran ==> s.execs[o].verdict.Runnable?
    requires s.execs[o].phase.Ready? ==> !s.execs[o].ran
    requires FinishStep(cfg, s, o, now).finals != s.finals
    ensures var t := FinishStep(cfg, s, o, now);
      |t.finals| == |s.finals| + 1 && t.finals[..|s.finals|] == s.finals && FinalFits(cfg, t, t.finals[|s.finals|])
  {
    hide Backoff, Mismatched;
  }

  /** Ready attempts have not run. */
  ghost predicate ReadyIsUnrun(ex: Exec) { ex.phase.Ready? ==> !ex.ran }

  lemma ReadyStaysUnrun(cfg: Settings, s: State, e: Step, o: Id)
    requires o in Next(cfg, s, e).execs && (o in s.execs ==> ReadyIsUnrun(s.execs[o]))
    ensures ReadyIsUnrun(Next(cfg, s, e).execs[o])
  {
    hide Settle, EndingOf, Receive, RecoverAll, HoldsLease, Decide, Claimable, JobStore.Renew;
  }

  lemma {:induction false} ReadyAlwaysUnrun(cfg: Settings, steps: seq<Step>)
    ensures forall o :: o in Run(cfg, INITIAL, steps).execs ==> ReadyIsUnrun(Run(cfg, INITIAL, steps).execs[o])
  {
    if steps != [] {
      hide Next;
      var front, e := steps[..|steps| - 1], steps[|steps| - 1];
      ReadyAlwaysUnrun(cfg, front);
      forall o | o in Run(cfg, INITIAL, steps).execs
        ensures ReadyIsUnrun(Run(cfg, INITIAL, steps).execs[o])
      {
        ReadyStaysUnrun(cfg, Run(cfg, INITIAL, front), e, o);
      }
    }
  }

  ghost predicate AllFit(cfg: Settings, s: State) {
    forall k :: 0 <= k < |s.finals| ==> FinalFits(cfg, s, s.finals[k])
  }

  lemma OverAttemptsKeepRun(cfg: Settings, s: State, e: Step, o: Id)
    requires o in s.execs && s.execs[o].phase.Over?
    requires o.n < s.store.ids
    ensures o in Next(cfg, s, e).execs && Next(cfg, s, e).execs[o].ran == s.execs[o].ran
  {
    hide Settle, EndingOf, Receive, RecoverAll, HoldsLease, Decide, Claimable, JobStore.Renew;
  }

  lemma OldFinalFits(cfg: Settings, s: State, e: Step, f: Final)
    requires Inv(cfg, s) && LogInv(s) && FinalFits(cfg, s, f) && FinalOk(s, f)
    ensures FinalFits(cfg, Next(cfg, s, e), f)
  {
    hide Next, Mismatched;
    assert AttemptOk(cfg, s, f.owner);
    StepAdvancesExec(cfg, s, e, f.owner);
    OverAttemptsKeepRun(cfg, s, e, f.owner);
  }

  lemma FitStep(cfg: Settings, s: State, e: Step)
    requires Inv(cfg, s) && LogInv(s) && AllRightlyJudged(cfg, s) && (forall o :: o in s.execs ==> ReadyIsUnrun(s.execs[o]))
    requires AllFit(cfg, s)
    ensures AllFit(cfg, Next(cfg, s, e))
  {
    hide Next, FinalFits, RightlyJudged;
    var t := Next(cfg, s, e);
    FinalsMove(cfg, s, e);
    forall k | 0 <= k < |t.finals|
      ensures FinalFits(cfg, t, t.finals[k])
    {
      if k < |s.finals| {
        assert FinalOk(s, s.finals[k]) && FinalFits(cfg, s, s.finals[k]);
        OldFinalFits(cfg, s, e, s.finals[k]);
      } else {
        FinishIsStep(cfg, s, e.owner, e.now);
        assert AttemptOk(cfg, s, e.owner);
        OnlyMayFinish(cfg, s, e.owner, e.now);
        NewFinalFits(cfg, s, e.owner, e.now);
      }
    }
  }

  lemma OnlyMayFinish(cfg: Settings, s: State, o: Id, now: Time)
    requires FinishStep(cfg, s, o, now).finals != s.finals
    ensures o in s.execs && MayFinish(s.execs[o])
  {
    hide Settle, EndingOf;
  }

  /** In every run the log of final statuses says what happened: COMPLETED for
      a nil return and for nothing else, REJECTED for a rejection or a message
      that does not match, DEAD_LETTER when the attempts are used up and never
      while there are some left. */
  lemma {:induction false} FinalsFitOutcomes(cfg: Settings, steps: seq<Step>)
    ensures AllFit(cfg, Run(cfg, INITIAL, steps))
  {
    if steps != [] {
      hide Next, AllFit;
      var front := steps[..|steps| - 1];
      FinalsFitOutcomes(cfg, front);
      ReachableInv(cfg, front);
      LogInvAlways(cfg, front);
      JudgedAlways(cfg, front);
      ReadyAlwaysUnrun(cfg, front);
      FitStep(cfg, Run(cfg, INITIAL, front), steps[|steps| - 1]);
    } else {
      assert Run(cfg, INITIAL, steps).finals == [];
    }
  }

  /** A job in DEAD_LETTER has had MaxAttempts attempts, whatever happened. */
  lemma DeadMeansTried(cfg: Settings, steps: seq<Step>, j: Id)
    requires var s := Run(cfg, INITIAL, steps); j in s.store.jobs && s.store.jobs[j].status == DeadLetter
    ensures Run(cfg, INITIAL, steps).store.jobs[j].attempts >= cfg.maxAttempts
  {
    hide Next, FinalFits;
    var s := Run(cfg, INITIAL, steps);
    FinalsFitOutcomes(cfg, steps);
    ReachableInv(cfg, steps);
    LogInvAlways(cfg, steps);
    var k :| 0 <= k < |s.finals| && s.finals[k].job == j;
    assert FinalOk(s, s.finals[k]) && FinalFits(cfg, s, s.finals[k]);
    assert AttemptOk(cfg, s, s.finals[k].owner);
    DeadEntry(cfg, s, s.finals[k]);
  }

  lemma DeadEntry(cfg: Settings, s: State, f: Final)
    requires FinalFits(cfg, s, f) && f.status == DeadLetter
    ensures s.execs[f.owner].job.attempts >= cfg.maxAttempts
  {
  }

  /* ---- The method ---- */

  /** The first k renewals come in time and the next one, if any, too late. */
  ghost predicate InTimeUpTo(now: Time, renewals: seq<Time>, lease: int, k: nat) {
    k <= |renewals| && InTime(now, renewals[..k], lease) && (k < |renewals| ==> renewals[k] >= LeaseEnd(now, renewals[..k], lease))
  }

  /** Renewing goes on up to the first that comes too late. */
  lemma {:induction false} KeepAliveMeans(st: Store, id: Id, owner: Id, now: Time, renewals: seq<Time>, lease: int) returns (k: nat)
    requires id in st.jobs && st.jobs[id].status.Running? && st.jobs[id].leaseOwner == Some(owner)
    requires st.jobs[id].leaseUntil == now + lease
    ensures InTimeUpTo(now, renewals, lease, k)
    ensures KeepAlive(st, id, owner, renewals, lease)
         == (st.(jobs := st.jobs[id := st.jobs[id].(leaseUntil := LeaseEnd(now, renewals[..k], lease))]), k == |renewals|)
  {
    if renewals == [] {
      k := 0;
      assert st.jobs[id := st.jobs[id].(leaseUntil := now + lease)] == st.jobs;
    } else {
      var front, last := renewals[..|renewals| - 1], renewals[|renewals| - 1];
      k := KeepAliveMeans(st, id, owner, now, front, lease);
      assert front[..k] == renewals[..k];
      if k == |front| && last < LeaseEnd(now, front, lease) {
        assert front[..k] == front;
        assert forall i :: 0 <= i < |front| ==> front[..i] == renewals[..i];
        k := |renewals|;
        assert renewals[..k] == renewals;
        RenewalsExtend(st, id, owner, now, renewals, lease);
      }
    }
  }

  /** A call that obtains the job, renews its lease up to the k-th renewal and
      settles the job under what it then holds, if it still does. */
  lemma CallIsSettled(cfg: Settings, st: Store, id: Id, c: Call) returns (k: nat)
    requires id in st.jobs && st.jobs[id].id == id && Names(c.message, id) && Claimable(st.jobs[id], c.now)
    ensures InTimeUpTo(c.now, c.renewals, cfg.lease, k)
    ensures var verdict, owner, row := Due(cfg, st, id, c), Id("claim", st.ids), ClaimedRow(cfg, st, id, c);
      var end := if verdict.Runnable? then LeaseEnd(c.now, c.renewals[..k], cfg.lease) else c.now + cfg.lease;
      var outcome := if !verdict.Runnable? then RunRejected else if k == |c.renewals| then c.run else RunLeaseLost;
      var held := st.(ids := st.ids + 1, jobs := st.jobs[id := row.(leaseUntil := end)]);
      var (r, updated) := Settle(held, id, owner, Choose(row, verdict, outcome, cfg, c.later), c.later);
      HandleOf(st, c.message, cfg, c.now, c.run, c.renewals, c.later)
      == (r, if updated.Updated? then Done else if updated.Refused? then LeaseLost else UnknownJob)
  {
    hide Choose, InTimeUpTo, Settle;
    DefaultsKeepSettings(cfg);
    var owner, row := Id("claim", st.ids), ClaimedRow(cfg, st, id, c);
    var st1 := st.(ids := st.ids + 1, jobs := st.jobs[id := row]);
    assert Claim(st.(ids := st.ids + 1), id, owner, c.now, cfg.lease) == (st1, Claimed(row));
    k := KeepAliveMeans(st1, id, owner, c.now, c.renewals, cfg.lease);
    UpToIsIn(c.now, c.renewals, cfg.lease, k);
    var end := LeaseEnd(c.now, c.renewals[..k], cfg.lease);
    assert st1.jobs[id := row.(leaseUntil := end)] == st.jobs[id := row.(leaseUntil := end)];
  }

  lemma UpToIsIn(now: Time, renewals: seq<Time>, lease: int, k: nat)
    requires InTimeUpTo(now, renewals, lease, k)
    ensures k <= |renewals|
  {
  }

  /** What a call of `Handle` that obtains the job leaves of it, in terms of what
      the row was and of what the runner returned.  A run counts as returned only
      if all its renewals came in time; while the lease is held the row is left
      as that outcome demands, and otherwise the call fails and the row stays as
      claimed. */
  lemma CallsFollowOutcomes(cfg: Settings, st: Store, id: Id, c: Call) returns (k: nat)
    requires id in st.jobs && st.jobs[id].id == id && Names(c.message, id) && JobRecords.Free(st.jobs[id], c.now)
    ensures InTimeUpTo(c.now, c.renewals, cfg.lease, k)
    ensures var event, n := c.message.Decoded().value, st.jobs[id].attempts + 1; var bad := Mismatched(st.jobs[id], event);
      var runs := n <= cfg.maxAttempts && !bad;
      var end := if runs then LeaseEnd(c.now, c.renewals[..k], cfg.lease) else c.now + cfg.lease;
      var outcome := if !runs then None else Some(if k == |c.renewals| then c.run else RunLeaseLost);
      var (r, answer) := HandleOf(st, c.message, cfg, c.now, c.run, c.renewals, c.later);
      && id in r.jobs && (answer == if c.later < end then Done else LeaseLost)
      && (c.later < end ==> LeftBy(cfg, r.jobs[id], n, bad, outcome, c.later))
      && (c.later >= end ==>
            r.jobs[id] == st.jobs[id].(status := Running, leaseOwner := Some(Id("claim", st.ids)), leaseUntil := end,
                                       attempts := n, updatedAt := c.now))
  {
    k := CallIsSettled(cfg, st, id, c);
    hide HandleOf, KeepAlive, Pow2, Min, InTime;
  }
}
