/** The workflow's promises, for every run from the empty store. */
module WorkflowTheorems {
  import opened GoInt
  import opened JobModel
  import opened Prelude
  import opened JobStore
  import opened Worker
  import opened WorkflowSystem
  import opened WorkflowSafety

  lemma {:induction false} RunAppends(cfg: Settings, s: State, a: seq<Step>, b: seq<Step>)
    ensures Run(cfg, s, a + b) == Run(cfg, Run(cfg, s, a), b)
  {
    if b == [] {
      assert a + b == a;
    } else {
      assert (a + b)[..|a + b| - 1] == a + b[..|b| - 1];
      RunAppends(cfg, s, a, b[..|b| - 1]);
    }
  }

  lemma ReachableInv(cfg: Settings, steps: seq<Step>)
    ensures Inv(cfg, Run(cfg, INITIAL, steps))
  {
    InvAlways(cfg, INITIAL, steps);
  }

  /* ---- Fencing ---- */

  /** The claim of `o` is no longer the one the job is running under. */
  ghost predicate Superseded(s: State, o: Id) {
    o in s.execs && s.execs[o].job.id in s.store.jobs && s.store.jobs[s.execs[o].job.id].leaseOwner != Some(o)
  }

  lemma SupersededStep(cfg: Settings, s: State, e: Step, o: Id)
    requires Inv(cfg, s) && Superseded(s, o)
    ensures Superseded(Next(cfg, s, e), o)
  {
    assert AttemptOk(cfg, s, o);
    StepAdvancesExec(cfg, s, e, o);
    StepMovesJob(cfg, s, e, s.execs[o].job.id);
  }

  lemma {:induction false} SupersededForever(cfg: Settings, s: State, steps: seq<Step>, o: Id)
    requires Inv(cfg, s) && Superseded(s, o)
    ensures Superseded(Run(cfg, s, steps), o)
    ensures Run(cfg, s, steps).execs[o].job == s.execs[o].job
  {
    if steps != [] {
      var front := steps[..|steps| - 1];
      SupersededForever(cfg, s, front, o);
      InvAlways(cfg, s, front);
      var m := Run(cfg, s, front);
      assert AttemptOk(cfg, m, o);
      SupersededStep(cfg, m, steps[|steps| - 1], o);
      StepAdvancesExec(cfg, m, steps[|steps| - 1], o);
    }
  }

  /** Every owner-conditional update by `o` is refused and changes nothing,
      whatever time its caller believes it is. */
  ghost predicate Fenced(st: Store, id: Id, o: Id) {
    && (forall now, status, reason :: JobStore.Finish(st, id, o, now, status, reason) == (st, Refused))
    && (forall now, next, reason :: Retry(st, id, o, now, next, reason) == (st, Refused))
    && (forall now, lease :: JobStore.Renew(st, id, o, now, lease) == (st, Refused))
  }

  /** Fencing: after any run `before` that ends with o's claim superseded, and
      any further run `after` (with clock readings in any order), o is fenced
      and can store no report. */
  lemma Fencing(cfg: Settings, before: seq<Step>, after: seq<Step>, o: Id)
    requires Superseded(Run(cfg, INITIAL, before), o)
    ensures var t := Run(cfg, INITIAL, before + after);
      && Superseded(t, o) && Fenced(t.store, t.execs[o].job.id, o)
      && (forall content, now :: WriteStep(t, o, content, now).reports == t.reports)
  {
    ReachableInv(cfg, before);
    RunAppends(cfg, INITIAL, before, after);
    SupersededForever(cfg, Run(cfg, INITIAL, before), after, o);
  }

  /** A later claim on the same job supersedes every earlier one. */
  lemma LaterClaimSupersedes(cfg: Settings, steps: seq<Step>, o1: Id, o2: Id)
    requires var s := Run(cfg, INITIAL, steps);
      && o1 in s.execs && o2 in s.execs && s.execs[o1].job.id == s.execs[o2].job.id
      && s.execs[o1].job.attempts < s.execs[o2].job.attempts
    ensures Superseded(Run(cfg, INITIAL, steps), o1)
  {
    ReachableInv(cfg, steps);
    var s := Run(cfg, INITIAL, steps);
    assert AttemptOk(cfg, s, o1) && AttemptOk(cfg, s, o2);
    assert OwnerOk(s, s.execs[o1].job.id);
  }

  /** So does a recovery scan that picks the job. */
  lemma RecoverySupersedes(cfg: Settings, steps: seq<Step>, sel: seq<Id>, now: Time, o: Id)
    requires var s := Run(cfg, INITIAL, steps);
      MayRecover(s.store, sel, now) && o in s.execs && s.execs[o].job.id in sel
    ensures Superseded(Next(cfg, Run(cfg, INITIAL, steps), Recover(sel, now)), o)
  {
    ReachableInv(cfg, steps);
    var s := Run(cfg, INITIAL, steps);
    assert AttemptOk(cfg, s, o);
    RecoverReleases(s.store, sel, now, s.execs[o].job.id);
  }

  lemma RecoverReleases(st: Store, sel: seq<Id>, now: Time, j: Id)
    requires MayRecover(st, sel, now) && j in sel
    ensures var r := RecoverAll(st, sel, now);
      j in r.jobs && r.jobs[j].status.Retrying? && r.jobs[j].leaseOwner == None
  {
    Recovery.RecoverRewritesSelection(st, sel, now);
  }

  /** The claim guard of the MySQL store. */
  predicate SqlClaimable(job: Job, now: Time) {
    || ((job.status.Queued? || job.status.Retrying?) && job.nextAttemptAt <= now)
    || (job.status.Running? && job.leaseUntil <= now)
  }

  /** Both stores claim the same jobs: their guards differ on RECEIVED only,
      and no run leaves a job there. */
  lemma StoresClaimAlike(cfg: Settings, steps: seq<Step>, j: Id, now: Time)
    requires j in Run(cfg, INITIAL, steps).store.jobs
    ensures var job := Run(cfg, INITIAL, steps).store.jobs[j];
      !job.status.Received? && (Claimable(job, now) <==> SqlClaimable(job, now))
  {
    ReachableInv(cfg, steps);
    assert OwnerOk(Run(cfg, INITIAL, steps), j);
  }

  /* ---- Terminal states ---- */

  /** Terminal rows never change again in any column. */
  lemma {:induction false} TerminalForever(cfg: Settings, s: State, steps: seq<Step>, j: Id)
    requires Inv(cfg, s) && j in s.store.jobs && s.store.jobs[j].status.Terminal()
    ensures j in Run(cfg, s, steps).store.jobs && Run(cfg, s, steps).store.jobs[j] == s.store.jobs[j]
  {
    if steps != [] {
      var front := steps[..|steps| - 1];
      TerminalForever(cfg, s, front, j);
      InvAlways(cfg, s, front);
      StepMovesJob(cfg, Run(cfg, s, front), steps[|steps| - 1], j);
    }
  }

  lemma FinalsMove(cfg: Settings, s: State, e: Step)
    ensures var t := Next(cfg, s, e);
      || t.finals == s.finals
      || (&& e.Finish? && e.owner in s.execs && t.execs == s.execs[e.owner := t.execs[e.owner]]
          && var id := s.execs[e.owner].job.id;
          && id in s.store.jobs && HoldsLease(s.store.jobs[id], e.owner, e.now)
          && id in t.store.jobs && t.store.jobs[id].status.Terminal()
          && t.finals == s.finals + [Final(id, e.owner, t.store.jobs[id].status, OutcomeOf(s.execs[e.owner]))]
          && t.execs[e.owner].phase == Over(true)
          && (t.store.jobs[id].status.Completed? ==> s.execs[e.owner].phase == Returned(RunOk)))
  {
  }

  lemma RecoverEndsNoJob(st: Store, sel: seq<Id>, now: Time, j: Id)
    requires MayRecover(st, sel, now) && j in st.jobs && !st.jobs[j].status.Terminal()
    ensures !RecoverAll(st, sel, now).jobs[j].status.Terminal()
  {
    if j in sel {
      RecoverReleases(st, sel, now, j);
    } else {
      Recovery.RecoverRewritesSelection(st, sel, now);
    }
  }

  lemma FinishEndsItsJob(cfg: Settings, s: State, owner: Id, now: Time, j: Id)
    requires var t := FinishStep(cfg, s, owner, now);
      j in s.store.jobs && j in t.store.jobs && t.store.jobs[j].status.Terminal() && !s.store.jobs[j].status.Terminal()
    ensures var t := FinishStep(cfg, s, owner, now);
      |t.finals| == |s.finals| + 1 && t.finals[|s.finals|].job == j
  {
  }

  lemma ClaimEndsNoJob(cfg: Settings, s: State, event: Event, now: Time, j: Id)
    requires event.Wellformed() && j in s.store.jobs && !s.store.jobs[j].status.Terminal()
    ensures !ClaimStep(cfg, s, event, now).0.store.jobs[j].status.Terminal()
  {
    hide Decide;
  }

  lemma RenewEndsNoJob(s: State, owner: Id, now: Time, lease: int, j: Id)
    requires j in s.store.jobs && !s.store.jobs[j].status.Terminal()
    ensures !RenewStep(s, owner, now, lease).store.jobs[j].status.Terminal()
  {
  }

  lemma SubmitEndsNoJob(s: State, input: ReceiveInput, now: Time, j: Id)
    requires Filed(s) && j in s.store.jobs
    ensures Receive(s.store, input, now).0.jobs[j] == s.store.jobs[j]
  {
  }

  lemma OnlyFinishEndsJobs(cfg: Settings, s: State, e: Step, j: Id)
    requires Filed(s)
    requires var t := Next(cfg, s, e);
      j in t.store.jobs && t.store.jobs[j].status.Terminal() && !(j in s.store.jobs && s.store.jobs[j].status.Terminal())
    ensures e.Finish? && |Next(cfg, s, e).finals| == |s.finals| + 1 && Next(cfg, s, e).finals[|s.finals|].job == j
  {
    hide Next, FinishStep, ClaimStep, RenewStep, Receive, RecoverAll, MayRecover, Filed;
    if j !in s.store.jobs {
      NewJobsAreQueued(cfg, s, e, j);
    } else if !TouchesJobs(e) {
      JobsUntouched(cfg, s, e);
    } else {
      JobStepsUnfold(cfg, s, e);
      match e
      case Finish(owner, now) => FinishEndsItsJob(cfg, s, owner, now, j);
      case Recover(sel, now) =>
        if MayRecover(s.store, sel, now) {
          RecoverEndsNoJob(s.store, sel, now, j);
        }
      case ClaimHeld(now) =>
        if s.consumer.Holding? && s.consumer.message.Decoded().Some? {
          ClaimEndsNoJob(cfg, s, s.consumer.message.Decoded().value, now, j);
        }
      case ClaimElsewhere(event, now) =>
        if event.Wellformed() {
          ClaimEndsNoJob(cfg, s, event, now, j);
        }
      case Renew(owner, now, lease) => RenewEndsNoJob(s, owner, now, lease, j);
      case Submit(input, now) => SubmitEndsNoJob(s, input, now, j);
    }
  }

  /** What the steps that rewrite job rows do to the store. */
  lemma JobStepsUnfold(cfg: Settings, s: State, e: Step)
    ensures e.Finish? ==> Next(cfg, s, e) == FinishStep(cfg, s, e.owner, e.now)
    ensures e.Renew? ==> Next(cfg, s, e) == RenewStep(s, e.owner, e.now, e.lease)
    ensures e.Submit? ==> Next(cfg, s, e).store == Receive(s.store, e.input, e.now).0
    ensures e.Recover? ==>
      Next(cfg, s, e).store == if MayRecover(s.store, e.sel, e.now) then RecoverAll(s.store, e.sel, e.now) else s.store
    ensures e.ClaimElsewhere? ==>
      Next(cfg, s, e).store == if e.event.Wellformed() then ClaimStep(cfg, s, e.event, e.now).0.store else s.store
    ensures e.ClaimHeld? ==>
      Next(cfg, s, e).store == if s.consumer.Holding? && s.consumer.message.Decoded().Some?
                               then ClaimStep(cfg, s, s.consumer.message.Decoded().value, e.now).0.store else s.store
  {
    hide ClaimStep, RenewStep, FinishStep, Receive, RecoverAll, MayRecover;
  }

  /* ---- Reports ---- */

  lemma ReportsMove(cfg: Settings, s: State, e: Step)
    ensures var t := Next(cfg, s, e);
      || t.reports == s.reports
      || (&& e.WriteReport? && e.owner in s.execs && s.execs[e.owner].wrote.None?
          && var id := s.execs[e.owner].job.id;
          && id in s.store.jobs && HoldsLease(s.store.jobs[id], e.owner, e.now)
          && t.store == s.store && t.reports == s.reports[id := Report(e.content, e.owner)]
          && t.execs == s.execs[e.owner := s.execs[e.owner].(wrote := Some(e.content))])
  {
  }

  lemma FreshReportIsFiled(cfg: Settings, s: State, e: Step, o: Id)
    requires o in s.execs && o.n < s.store.ids && s.execs[o].wrote.None?
    ensures var t := Next(cfg, s, e);
      o in t.execs && (t.execs[o].wrote.Some? ==>
        s.execs[o].job.id in t.reports && t.reports[s.execs[o].job.id] == Report(t.execs[o].wrote.value, o))
  {
  }

  /** The owner's own report is the one on file. */
  ghost predicate ReportOk(s: State, o: Id)
    requires o in s.execs
  {
    var ex := s.execs[o];
    ex.wrote.Some? && ex.job.id in s.store.jobs && s.store.jobs[ex.job.id].leaseOwner == Some(o) ==>
      ex.job.id in s.reports && s.reports[ex.job.id] == Report(ex.wrote.value, o)
  }

  /** A log entry matches the row, the attempt and, for a completion, the report. */
  ghost predicate FinalOk(s: State, f: Final) {
    && f.job in s.store.jobs && s.store.jobs[f.job].status == f.status && f.status.Terminal()
    && f.owner in s.execs && s.execs[f.owner].job.id == f.job && s.execs[f.owner].phase == Over(true)
    && (f.status.Completed? ==>
          && f.run == Some(RunOk) && s.execs[f.owner].ran && s.execs[f.owner].verdict.Runnable?
          && s.execs[f.owner].wrote.Some?
          && f.job in s.reports && s.reports[f.job] == Report(s.execs[f.owner].wrote.value, f.owner))
  }

  ghost predicate LogInv(s: State) {
    && (forall o :: o in s.execs ==> ReportOk(s, o))
    && (forall k :: 0 <= k < |s.finals| ==> FinalOk(s, s.finals[k]))
    && (forall i, k :: 0 <= i < k < |s.finals| ==> s.finals[i].job != s.finals[k].job)
    && (forall j :: j in s.store.jobs && s.store.jobs[j].status.Terminal() ==>
          exists k :: 0 <= k < |s.finals| && s.finals[k].job == j)
  }

  lemma ReportStaysOk(cfg: Settings, s: State, e: Step, o: Id)
    requires Inv(cfg, s) && LogInv(s) && o in Next(cfg, s, e).execs
    ensures ReportOk(Next(cfg, s, e), o)
  {
    hide Next;
    var t := Next(cfg, s, e);
    if o in s.execs {
      var j := s.execs[o].job.id;
      assert AttemptOk(cfg, s, o) && ReportOk(s, o);
      StepAdvancesExec(cfg, s, e, o);
      StepMovesJob(cfg, s, e, j);
      ReportsMove(cfg, s, e);
      if s.execs[o].wrote.None? {
        FreshReportIsFiled(cfg, s, e, o);
      }
    } else {
      NewExecsAreClaims(cfg, s, e, o);
    }
  }

  lemma OldFinalStaysOk(cfg: Settings, s: State, e: Step, f: Final)
    requires Inv(cfg, s) && FinalOk(s, f)
    ensures FinalOk(Next(cfg, s, e), f)
  {
    hide Next;
    assert AttemptOk(cfg, s, f.owner) && OwnerOk(s, f.job);
    StepAdvancesExec(cfg, s, e, f.owner);
    StepMovesJob(cfg, s, e, f.job);
    ReportsMove(cfg, s, e);
  }

  lemma NewFinalIsOk(cfg: Settings, s: State, e: Step)
    requires Inv(cfg, s) && LogInv(s) && Next(cfg, s, e).finals != s.finals
    ensures var t := Next(cfg, s, e);
      && |t.finals| == |s.finals| + 1 && t.finals[..|s.finals|] == s.finals
      && FinalOk(t, t.finals[|s.finals|])
      && t.finals[|s.finals|].job in s.store.jobs && !s.store.jobs[t.finals[|s.finals|].job].status.Terminal()
  {
    hide Next;
    FinalsMove(cfg, s, e);
    ReportsMove(cfg, s, e);
    var o := e.owner;
    assert AttemptOk(cfg, s, o) && ReportOk(s, o);
    StepAdvancesExec(cfg, s, e, o);
  }

  lemma EndedJobsAreLogged(cfg: Settings, s: State, e: Step, j: Id)
    requires Inv(cfg, s) && LogInv(s)
    requires var t := Next(cfg, s, e); j in t.store.jobs && t.store.jobs[j].status.Terminal()
    ensures var t := Next(cfg, s, e); exists k :: 0 <= k < |t.finals| && t.finals[k].job == j
  {
    hide Next;
    var t := Next(cfg, s, e);
    if j in s.store.jobs && s.store.jobs[j].status.Terminal() {
      var k :| 0 <= k < |s.finals| && s.finals[k].job == j;
      FinalsMove(cfg, s, e);
      assert t.finals[k].job == j;
    } else {
      OnlyFinishEndsJobs(cfg, s, e, j);
      assert t.finals[|s.finals|].job == j;
    }
  }

  lemma FinalsStayOk(cfg: Settings, s: State, e: Step, k: nat)
    requires Inv(cfg, s) && LogInv(s) && k < |Next(cfg, s, e).finals|
    ensures FinalOk(Next(cfg, s, e), Next(cfg, s, e).finals[k])
  {
    hide Next;
    FinalsMove(cfg, s, e);
    if k < |s.finals| {
      assert FinalOk(s, s.finals[k]);
      OldFinalStaysOk(cfg, s, e, s.finals[k]);
    } else {
      NewFinalIsOk(cfg, s, e);
    }
  }

  lemma FinalsStayDistinct(cfg: Settings, s: State, e: Step, i: nat, k: nat)
    requires Inv(cfg, s) && LogInv(s) && i < k < |Next(cfg, s, e).finals|
    ensures Next(cfg, s, e).finals[i].job != Next(cfg, s, e).finals[k].job
  {
    hide Next;
    FinalsMove(cfg, s, e);
    assert FinalOk(s, s.finals[i]);
    if k == |s.finals| {
      NewFinalIsOk(cfg, s, e);
    }
  }

  lemma LogInvStep(cfg: Settings, s: State, e: Step)
    requires Inv(cfg, s) && LogInv(s)
    ensures LogInv(Next(cfg, s, e))
  {
    hide Next;
    var t := Next(cfg, s, e);
    forall o | o in t.execs
      ensures ReportOk(t, o)
    {
      ReportStaysOk(cfg, s, e, o);
    }
    forall k | 0 <= k < |t.finals|
      ensures FinalOk(t, t.finals[k])
    {
      FinalsStayOk(cfg, s, e, k);
    }
    forall i, k | 0 <= i < k < |t.finals|
      ensures t.finals[i].job != t.finals[k].job
    {
      FinalsStayDistinct(cfg, s, e, i, k);
    }
    forall j | j in t.store.jobs && t.store.jobs[j].status.Terminal()
      ensures exists k :: 0 <= k < |t.finals| && t.finals[k].job == j
    {
      EndedJobsAreLogged(cfg, s, e, j);
    }
  }

  lemma {:induction false} LogInvAlways(cfg: Settings, steps: seq<Step>)
    ensures LogInv(Run(cfg, INITIAL, steps))
  {
    if steps != [] {
      LogInvAlways(cfg, steps[..|steps| - 1]);
      ReachableInv(cfg, steps[..|steps| - 1]);
      LogInvStep(cfg, Run(cfg, INITIAL, steps[..|steps| - 1]), steps[|steps| - 1]);
    }
  }

  /** The log only grows. */
  lemma {:induction false} FinalsGrow(cfg: Settings, s: State, steps: seq<Step>, k: nat)
    requires k < |s.finals|
    ensures k < |Run(cfg, s, steps).finals| && Run(cfg, s, steps).finals[k] == s.finals[k]
  {
    if steps != [] {
      FinalsGrow(cfg, s, steps[..|steps| - 1], k);
      FinalsMove(cfg, Run(cfg, s, steps[..|steps| - 1]), steps[|steps| - 1]);
    }
  }

  /** In any run at most one terminal update per job succeeds, and a job is in
      a terminal status exactly when one has. */
  lemma OneTerminalTransition(cfg: Settings, steps: seq<Step>)
    ensures var s := Run(cfg, INITIAL, steps);
      && (forall i, k :: 0 <= i < k < |s.finals| ==> s.finals[i].job != s.finals[k].job)
      && (forall j :: j in s.store.jobs ==>
            (s.store.jobs[j].status.Terminal() <==> exists k :: 0 <= k < |s.finals| && s.finals[k].job == j))
  {
    LogInvAlways(cfg, steps);
    var s := Run(cfg, INITIAL, steps);
    forall k | 0 <= k < |s.finals|
      ensures s.finals[k].job in s.store.jobs && s.store.jobs[s.finals[k].job].status.Terminal()
    {
      assert FinalOk(s, s.finals[k]);
    }
  }

  /** In s, job j is not completed; or its report is the one stored by the
      attempt whose Complete succeeded, after the runner was invoked and
      returned nil, and is the same, like the job, in t. */
  ghost predicate ReportIsFinal(s: State, t: State, j: Id) {
    j in s.store.jobs && s.store.jobs[j].status.Completed? ==>
      && j in s.reports && j in t.reports && t.reports[j] == s.reports[j]
      && j in t.store.jobs && t.store.jobs[j] == s.store.jobs[j]
      && Final(j, s.reports[j].writer, Completed, Some(RunOk)) in s.finals
      && s.reports[j].writer in s.execs
      && s.execs[s.reports[j].writer].job.id == j && s.execs[s.reports[j].writer].phase == Over(true)
      && s.execs[s.reports[j].writer].ran && s.execs[s.reports[j].writer].verdict.Runnable?
      && s.execs[s.reports[j].writer].wrote == Some(s.reports[j].content)
  }

  /** A completed job has exactly the report stored by the attempt whose
      Complete succeeded, and nothing that happens later touches it. */
  lemma CompletedReportIsFinal(cfg: Settings, before: seq<Step>, after: seq<Step>, j: Id)
    ensures ReportIsFinal(Run(cfg, INITIAL, before), Run(cfg, INITIAL, before + after), j)
  {
    hide Next;
    var s, t := Run(cfg, INITIAL, before), Run(cfg, INITIAL, before + after);
    if j in s.store.jobs && s.store.jobs[j].status.Completed? {
      ReachableInv(cfg, before);
      LogInvAlways(cfg, before);
      LogInvAlways(cfg, before + after);
      RunAppends(cfg, INITIAL, before, after);
      TerminalForever(cfg, s, after, j);
      var k :| 0 <= k < |s.finals| && s.finals[k].job == j;
      assert FinalOk(s, s.finals[k]);
      FinalsGrow(cfg, s, after, k);
      assert FinalOk(t, t.finals[k]);
      WroteStays(cfg, s, after, s.finals[k].owner);
    }
  }

  lemma {:induction false} WroteStays(cfg: Settings, s: State, steps: seq<Step>, o: Id)
    requires Inv(cfg, s) && o in s.execs && s.execs[o].wrote.Some?
    ensures o in Run(cfg, s, steps).execs && Run(cfg, s, steps).execs[o].wrote == s.execs[o].wrote
  {
    if steps != [] {
      var front := steps[..|steps| - 1];
      WroteStays(cfg, s, front, o);
      InvAlways(cfg, s, front);
      assert AttemptOk(cfg, Run(cfg, s, front), o);
      StepAdvancesExec(cfg, Run(cfg, s, front), steps[|steps| - 1], o);
    }
  }

  /* ---- Bounded execution ---- */

  /** The attempts on job j whose runner was invoked. */
  ghost function RunnersOf(s: State, j: Id): set<Id> {
    set o | o in s.execs && s.execs[o].job.id == j && s.execs[o].ran
  }

  lemma {:induction false} DistinctNumbersAreFew(attempts: map<Id, int>, max: nat)
    requires forall o :: o in attempts ==> 1 <= attempts[o] <= max
    requires forall o1, o2 :: o1 in attempts && o2 in attempts && o1 != o2 ==> attempts[o1] != attempts[o2]
    ensures |attempts| <= max
  {
    if max == 0 {
      assert attempts == map[];
    } else if o :| o in attempts && attempts[o] == max {
      DistinctNumbersAreFew(attempts - {o}, max - 1);
      assert |attempts| == |attempts - {o}| + 1 by {
        assert (attempts - {o}).Keys == attempts.Keys - {o};
      }
    } else {
      DistinctNumbersAreFew(attempts, max - 1);
    }
  }

  ghost predicate FewRunners(cfg: Settings, s: State, j: Id) {
    && |RunnersOf(s, j)| <= cfg.maxAttempts
    && (forall o :: o in RunnersOf(s, j) ==> 1 <= s.execs[o].job.attempts <= cfg.maxAttempts)
    && (forall o1, o2 :: o1 in RunnersOf(s, j) && o2 in RunnersOf(s, j) && o1 != o2 ==>
          s.execs[o1].job.attempts != s.execs[o2].job.attempts)
  }

  lemma InvBoundsRunners(cfg: Settings, s: State, j: Id)
    requires Inv(cfg, s)
    ensures FewRunners(cfg, s, j)
  {
    var runners := RunnersOf(s, j);
    forall o | o in runners
      ensures 1 <= s.execs[o].job.attempts <= cfg.maxAttempts
    {
      assert AttemptOk(cfg, s, o);
    }
    var numbers := map o | o in runners :: s.execs[o].job.attempts;
    DistinctNumbersAreFew(numbers, cfg.maxAttempts);
    assert numbers.Keys == runners;
    assert |numbers| == |numbers.Keys|;
  }

  /** With MaxAttempts = M everywhere the runner is invoked at most M times per
      job in any run, each time with a different attempt number in 1..M. */
  lemma BoundedExecution(cfg: Settings, steps: seq<Step>, j: Id)
    ensures FewRunners(cfg, Run(cfg, INITIAL, steps), j)
  {
    ReachableInv(cfg, steps);
    InvBoundsRunners(cfg, Run(cfg, INITIAL, steps), j);
  }
}
