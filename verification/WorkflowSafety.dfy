/** Safety of the durable workflow over every run: fencing, terminal states,
    bounded execution, lease disjointness and immutable reports. */
module WorkflowSafety {
  import opened GoInt
  import opened JobModel
  import opened Prelude
  import opened JobStore
  import opened Worker
  import opened WorkflowSystem
  import Recovery

  /* ---- How one step may change one job ---- */

  ghost predicate SameIdentity(a: Job, b: Job) {
    && a.id == b.id && a.deliveryId == b.deliveryId && a.prNumber == b.prNumber && a.options == b.options
    && a.sql == b.sql && a.candidate == b.candidate && a.sqlSHA == b.sqlSHA && a.candidateSHA == b.candidateSHA
  }

  /** Unchanged, claimed under a brand-new owner, released, or lease moved. */
  ghost predicate Moves(before: Job, after: Job, newOwner: Id) {
    && SameIdentity(before, after)
    && (|| after == before
        || (&& !before.status.Terminal() && after.status.Running? && after.leaseOwner == Some(newOwner)
            && after.attempts == before.attempts + 1)
        || (&& !before.status.Terminal() && !after.status.Running? && !after.status.Received?
            && after.leaseOwner == None && after.attempts == before.attempts)
        || (before.status.Running? && after == before.(leaseUntil := after.leaseUntil)))
  }

  /** Jobs are filed under their own id, and ids come from the counter. */
  ghost predicate Filed(s: State) {
    forall j :: j in s.store.jobs ==> s.store.jobs[j].id == j && j.n < s.store.ids
  }

  ghost predicate Kept(st: Store, r: Store, j: Id, newOwner: Id)
    requires j in st.jobs
  {
    r.ids >= st.ids && j in r.jobs && Moves(st.jobs[j], r.jobs[j], newOwner)
  }

  lemma SameJobsKept(st: Store, r: Store, j: Id, newOwner: Id)
    requires j in st.jobs && r.jobs == st.jobs && r.ids == st.ids
    ensures Kept(st, r, j, newOwner)
  {
  }

  lemma SettleKeeps(st: Store, id: Id, owner: Id, ending: Ending, now: Time, j: Id, newOwner: Id)
    requires j in st.jobs && (ending.Close? ==> ending.status.Terminal())
    ensures Kept(st, Settle(st, id, owner, ending, now).0, j, newOwner)
  {
  }

  lemma RecoverKeeps(st: Store, sel: seq<Id>, now: Time, j: Id, newOwner: Id)
    requires MayRecover(st, sel, now) && j in st.jobs
    ensures Kept(st, RecoverAll(st, sel, now), j, newOwner)
  {
    Recovery.RecoverRewritesSelection(st, sel, now);
    if j in sel {
      assert j in StaleJobs(st, now);
    }
  }

  /** The steps that may rewrite job rows. */
  predicate TouchesJobs(e: Step) {
    e.Submit? || e.ClaimHeld? || e.ClaimElsewhere? || e.Finish? || e.Renew? || e.Recover?
  }

  lemma JobsUntouched(cfg: Settings, s: State, e: Step)
    requires !TouchesJobs(e)
    ensures Next(cfg, s, e).store.jobs == s.store.jobs && Next(cfg, s, e).store.ids == s.store.ids
  {
  }

  lemma ClaimKeeps(cfg: Settings, s: State, event: Event, now: Time, j: Id)
    requires event.Wellformed() && j in s.store.jobs
    ensures Kept(s.store, ClaimStep(cfg, s, event, now).0.store, j, Id("claim", s.store.ids))
  {
  }

  lemma FinishKeeps(cfg: Settings, s: State, owner: Id, now: Time, j: Id)
    requires j in s.store.jobs
    ensures Kept(s.store, FinishStep(cfg, s, owner, now).store, j, Id("claim", s.store.ids))
  {
    if owner in s.execs && MayFinish(s.execs[owner]) {
      var ex := s.execs[owner];
      SettleKeeps(s.store, ex.job.id, owner, EndingOf(cfg, ex, now), now, j, Id("claim", s.store.ids));
    }
  }

  lemma RenewKeeps(s: State, owner: Id, now: Time, lease: int, j: Id)
    requires j in s.store.jobs
    ensures Kept(s.store, RenewStep(s, owner, now, lease).store, j, Id("claim", s.store.ids))
  {
  }

  lemma SubmitKeeps(s: State, input: ReceiveInput, now: Time, j: Id)
    requires Filed(s) && j in s.store.jobs
    ensures Kept(s.store, Receive(s.store, input, now).0, j, Id("claim", s.store.ids))
  {
  }

  lemma RecoverStepKeeps(cfg: Settings, s: State, sel: seq<Id>, now: Time, j: Id)
    requires j in s.store.jobs
    ensures Kept(s.store, Next(cfg, s, Recover(sel, now)).store, j, Id("claim", s.store.ids))
  {
    if MayRecover(s.store, sel, now) {
      RecoverKeeps(s.store, sel, now, j, Id("claim", s.store.ids));
    }
  }

  lemma ClaimStepKeeps(cfg: Settings, s: State, e: Step, j: Id)
    requires j in s.store.jobs && (e.ClaimHeld? || e.ClaimElsewhere?)
    ensures Kept(s.store, Next(cfg, s, e).store, j, Id("claim", s.store.ids))
  {
    SameJobsKept(s.store, s.store, j, Id("claim", s.store.ids));
    if e.ClaimElsewhere? {
      if e.event.Wellformed() {
        ClaimKeeps(cfg, s, e.event, e.now, j);
      }
    } else if s.consumer.Holding? && s.consumer.message.Decoded().Some? {
      ClaimKeeps(cfg, s, s.consumer.message.Decoded().value, e.now, j);
    }
  }

  /** The one lemma about every step's effect on an existing job. */
  lemma StepMovesJob(cfg: Settings, s: State, e: Step, j: Id)
    requires Filed(s) && j in s.store.jobs
    ensures Kept(s.store, Next(cfg, s, e).store, j, Id("claim", s.store.ids))
  {
    hide Kept, ClaimStep, FinishStep, RenewStep, Receive, RecoverAll;
    if !TouchesJobs(e) {
      JobsUntouched(cfg, s, e);
      SameJobsKept(s.store, Next(cfg, s, e).store, j, Id("claim", s.store.ids));
    } else if e.ClaimHeld? || e.ClaimElsewhere? {
      ClaimStepKeeps(cfg, s, e, j);
    } else if e.Submit? {
      SubmitKeeps(s, e.input, e.now, j);
    } else if e.Recover? {
      RecoverStepKeeps(cfg, s, e.sel, e.now, j);
    } else if e.Finish? {
      FinishKeeps(cfg, s, e.owner, e.now, j);
    } else {
      RenewKeeps(s, e.owner, e.now, e.lease, j);
    }
  }

  /* ---- How one step may change one attempt ---- */

  /** Only an attempt that has run can be running or back from its run. */
  ghost predicate RanIfBack(ex: Exec) { ex.phase.InRunner? || ex.phase.Returned? ==> ex.ran }

  ghost predicate Advances(a: Exec, b: Exec) {
    && b.job == a.job && b.event == a.event && b.verdict == a.verdict && b.start == a.start
    && (a.ran ==> b.ran) && (b.ran && !a.ran ==> a.verdict.Runnable?)
    && (a.wrote.Some? ==> b.wrote == a.wrote)
    && (a.phase.Over? ==> b.phase == a.phase)
    && (b.phase == Returned(RunOk) && a.phase != b.phase ==> a.wrote.Some?)
    && (RanIfBack(a) ==> RanIfBack(b))
  }

  lemma StepAdvancesExec(cfg: Settings, s: State, e: Step, o: Id)
    requires o in s.execs && o.n < s.store.ids
    ensures o in Next(cfg, s, e).execs && Advances(s.execs[o], Next(cfg, s, e).execs[o])
  {
    hide Advances, ClaimStep, FinishStep, RenewStep, BeginStep, WriteStep, ReturnStep, Receive, RecoverAll, MarkPublished;
    StillAdvances(s.execs[o]);
    match e
    case ClaimHeld(now) =>
      if s.consumer.Holding? && s.consumer.message.Decoded().Some? {
        ClaimAdvances(cfg, s, s.consumer.message.Decoded().value, now, o);
      }
    case ClaimElsewhere(event, now) =>
      if event.Wellformed() {
        ClaimAdvances(cfg, s, event, now, o);
      }
    case Begin(owner) => RunnerStepAdvances(s, owner, [], RunOk, 0, o);
    case WriteReport(owner, content, now) => RunnerStepAdvances(s, owner, content, RunOk, now, o);
    case Return(owner, run) => RunnerStepAdvances(s, owner, [], run, 0, o);
    case Finish(owner, now) => FinishAdvances(cfg, s, owner, now, o);
    case Renew(owner, now, lease) => RenewAdvances(s, owner, now, lease, o);
    case _ =>
  }

  lemma StillAdvances(ex: Exec)
    ensures Advances(ex, ex)
  {
  }

  lemma ClaimAdvances(cfg: Settings, s: State, event: Event, now: Time, o: Id)
    requires event.Wellformed() && o in s.execs && o.n < s.store.ids
    ensures var t := ClaimStep(cfg, s, event, now).0; o in t.execs && Advances(s.execs[o], t.execs[o])
  {
  }

  lemma RunnerStepAdvances(s: State, owner: Id, content: Bytes, run: RunResult, now: Time, o: Id)
    requires o in s.execs
    ensures var t := BeginStep(s, owner); o in t.execs && Advances(s.execs[o], t.execs[o])
    ensures var t := ReturnStep(s, owner, run); o in t.execs && Advances(s.execs[o], t.execs[o])
    ensures var t := WriteStep(s, owner, content, now); o in t.execs && Advances(s.execs[o], t.execs[o])
  {
    hide WriteStep;
    WriteAdvances(s, owner, content, now, o);
  }

  lemma WriteAdvances(s: State, owner: Id, content: Bytes, now: Time, o: Id)
    requires o in s.execs
    ensures var t := WriteStep(s, owner, content, now); o in t.execs && Advances(s.execs[o], t.execs[o])
  {
    hide HoldsLease;
  }

  lemma FinishAdvances(cfg: Settings, s: State, owner: Id, now: Time, o: Id)
    requires o in s.execs
    ensures var t := FinishStep(cfg, s, owner, now); o in t.execs && Advances(s.execs[o], t.execs[o])
  {
    hide Settle;
  }

  lemma RenewAdvances(s: State, owner: Id, now: Time, lease: int, o: Id)
    requires o in s.execs
    ensures var t := RenewStep(s, owner, now, lease); o in t.execs && Advances(s.execs[o], t.execs[o])
  {
  }

  /** A claim opens the attempt of a brand-new owner on the row it took. */
  ghost predicate Opened(cfg: Settings, s: State, t: State, o: Id)
    requires o in t.execs
  {
    var ex := t.execs[o];
    && o == Id("claim", s.store.ids) && o.n < t.store.ids
    && ex.phase.Ready? && !ex.ran && ex.wrote.None? && ex.end == ex.job.leaseUntil
    && (ex.verdict.Runnable? ==> ex.job.attempts <= cfg.maxAttempts)
    && ex.job.id in s.store.jobs && t.store.jobs == s.store.jobs[ex.job.id := ex.job]
    && ex.job.attempts == s.store.jobs[ex.job.id].attempts + 1
    && Claimable(s.store.jobs[ex.job.id], ex.start)
    && ex.job.status.Running? && ex.job.leaseOwner == Some(o)
  }

  lemma ClaimOpens(cfg: Settings, s: State, event: Event, now: Time, o: Id)
    requires Filed(s) && event.Wellformed() && o in ClaimStep(cfg, s, event, now).0.execs && o !in s.execs
    ensures Opened(cfg, s, ClaimStep(cfg, s, event, now).0, o)
  {
  }

  lemma OnlyClaimsOpen(cfg: Settings, s: State, e: Step, o: Id)
    requires !e.ClaimHeld? && !e.ClaimElsewhere? && o in Next(cfg, s, e).execs
    ensures o in s.execs
  {
    hide Settle, EndingOf, Receive, RecoverAll, HoldsLease;
  }

  lemma SameOpened(cfg: Settings, s: State, t: State, u: State, o: Id)
    requires o in t.execs && Opened(cfg, s, t, o) && u.execs == t.execs && u.store == t.store
    ensures Opened(cfg, s, u, o)
  {
  }

  lemma HeldClaimIsAClaim(cfg: Settings, s: State, now: Time)
    ensures var t := ClaimHeldStep(cfg, s, now);
      if s.consumer.Holding? && s.consumer.message.Decoded().Some? then
        var u := ClaimStep(cfg, s, s.consumer.message.Decoded().value, now).0; t.execs == u.execs && t.store == u.store
      else t == s
  {
    hide ClaimStep;
  }

  lemma NewExecsAreClaims(cfg: Settings, s: State, e: Step, o: Id)
    requires Filed(s)
    requires o in Next(cfg, s, e).execs && o !in s.execs
    ensures Opened(cfg, s, Next(cfg, s, e), o)
  {
    hide Opened, ClaimStep, ClaimHeldStep, Filed;
    if e.ClaimElsewhere? {
      ClaimOpens(cfg, s, e.event, e.now, o);
    } else if e.ClaimHeld? {
      HeldClaimIsAClaim(cfg, s, e.now);
      var event := s.consumer.message.Decoded().value;
      ClaimOpens(cfg, s, event, e.now, o);
      SameOpened(cfg, s, ClaimStep(cfg, s, event, e.now).0, ClaimHeldStep(cfg, s, e.now), o);
    } else {
      OnlyClaimsOpen(cfg, s, e, o);
    }
  }

  /** Only a submission adds a job. */
  lemma OnlySubmitAddsJobs(cfg: Settings, s: State, e: Step, j: Id)
    requires !e.Submit? && j in Next(cfg, s, e).store.jobs
    ensures j in s.store.jobs
  {
    hide Claimable, HoldsLease, Decide, Choose;
    if !TouchesJobs(e) {
      JobsUntouched(cfg, s, e);
    } else if e.Finish? {
      FinishAddsNoJobs(cfg, s, e.owner, e.now, j);
    }
  }

  lemma FinishAddsNoJobs(cfg: Settings, s: State, owner: Id, now: Time, j: Id)
    requires j in FinishStep(cfg, s, owner, now).store.jobs
    ensures j in s.store.jobs
  {
    hide Claimable, Choose;
  }

  lemma NewJobsAreQueued(cfg: Settings, s: State, e: Step, j: Id)
    requires Filed(s)
    requires j in Next(cfg, s, e).store.jobs && j !in s.store.jobs
    ensures e.Submit? && Next(cfg, s, e).store.jobs[j] == NewJob(j, e.input, e.now)
    ensures j == Id("job", s.store.ids) && j.n < Next(cfg, s, e).store.ids
  {
    if !e.Submit? {
      OnlySubmitAddsJobs(cfg, s, e, j);
    } else {
      SubmitQueuesItsJob(s, e.input, e.now, j);
    }
  }

  lemma SubmitQueuesItsJob(s: State, input: ReceiveInput, now: Time, j: Id)
    requires j in Receive(s.store, input, now).0.jobs && j !in s.store.jobs
    ensures Receive(s.store, input, now).0.jobs[j] == NewJob(j, input, now)
    ensures j == Id("job", s.store.ids) && j.n < Receive(s.store, input, now).0.ids
  {
  }

  /* ---- The inductive invariant ---- */

  ghost predicate AttemptOk(cfg: Settings, s: State, o: Id)
    requires o in s.execs
  {
    var ex := s.execs[o];
    && o.n < s.store.ids && ex.job.id in s.store.jobs
    && SameIdentity(ex.job, s.store.jobs[ex.job.id])
    && 1 <= ex.job.attempts <= s.store.jobs[ex.job.id].attempts
    && (ex.ran ==> ex.verdict.Runnable?) && (ex.verdict.Runnable? ==> ex.job.attempts <= cfg.maxAttempts)
    && (ex.phase == Returned(RunOk) ==> ex.wrote.Some?) && RanIfBack(ex)
  }

  /** RUNNING means owned, and the owner is the latest attempt on the job. */
  ghost predicate OwnerOk(s: State, j: Id)
    requires j in s.store.jobs
  {
    var job := s.store.jobs[j];
    && !job.status.Received? && (job.status.Running? <==> job.leaseOwner.Some?)
    && (job.leaseOwner.Some? ==>
          && job.leaseOwner.value in s.execs
          && s.execs[job.leaseOwner.value].job.id == j
          && s.execs[job.leaseOwner.value].job.attempts == job.attempts
          && s.execs[job.leaseOwner.value].end == job.leaseUntil)
  }

  ghost predicate DistinctAttempts(s: State) {
    forall o1, o2 :: o1 in s.execs && o2 in s.execs && o1 != o2 && s.execs[o1].job.id == s.execs[o2].job.id
      ==> s.execs[o1].job.attempts != s.execs[o2].job.attempts
  }

  ghost predicate Inv(cfg: Settings, s: State) {
    && Filed(s)
    && (forall o :: o in s.execs ==> AttemptOk(cfg, s, o))
    && (forall j :: j in s.store.jobs ==> OwnerOk(s, j))
    && DistinctAttempts(s)
  }

  lemma AttemptStaysOk(cfg: Settings, s: State, e: Step, o: Id)
    requires Inv(cfg, s) && o in Next(cfg, s, e).execs
    ensures AttemptOk(cfg, Next(cfg, s, e), o)
  {
    hide Next;
    var t := Next(cfg, s, e);
    if o in s.execs {
      StepAdvancesExec(cfg, s, e, o);
      StepMovesJob(cfg, s, e, s.execs[o].job.id);
    } else {
      NewExecsAreClaims(cfg, s, e, o);
    }
  }

  /** The lease column of a job is the lease its owner's attempt holds. */
  ghost predicate Tracked(s: State, j: Id) {
    j in s.store.jobs && s.store.jobs[j].leaseOwner.Some? ==>
      && s.store.jobs[j].leaseOwner.value in s.execs
      && s.execs[s.store.jobs[j].leaseOwner.value].job.id == j
      && s.execs[s.store.jobs[j].leaseOwner.value].end == s.store.jobs[j].leaseUntil
  }

  lemma ClaimTracks(cfg: Settings, s: State, event: Event, now: Time, j: Id)
    requires event.Wellformed() && Filed(s) && Tracked(s, j)
    requires j in s.store.jobs && s.store.jobs[j].leaseOwner.Some? ==> s.store.jobs[j].leaseOwner.value.n < s.store.ids
    ensures Tracked(ClaimStep(cfg, s, event, now).0, j)
  {
  }

  lemma FinishTracks(cfg: Settings, s: State, owner: Id, now: Time, j: Id)
    requires Filed(s) && Tracked(s, j)
    ensures Tracked(FinishStep(cfg, s, owner, now), j)
  {
  }

  lemma RenewTracks(s: State, owner: Id, now: Time, lease: int, j: Id)
    requires Filed(s) && Tracked(s, j)
    ensures Tracked(RenewStep(s, owner, now, lease), j)
  {
  }

  lemma RunnerStepTracks(s: State, owner: Id, content: Bytes, run: RunResult, now: Time, j: Id)
    requires Tracked(s, j)
    ensures Tracked(BeginStep(s, owner), j) && Tracked(WriteStep(s, owner, content, now), j) && Tracked(ReturnStep(s, owner, run), j)
  {
  }

  lemma StoreStepTracks(cfg: Settings, s: State, e: Step, j: Id)
    requires e.Recover? || e.Submit? || e.MarkDone? || e.MarkFailed?
    requires Filed(s) && Tracked(s, j)
    ensures Tracked(Next(cfg, s, e), j)
  {
    if e.Recover? && MayRecover(s.store, e.sel, e.now) {
      Recovery.RecoverRewritesSelection(s.store, e.sel, e.now);
    }
  }

  lemma StepTracks(cfg: Settings, s: State, e: Step, j: Id)
    requires Filed(s) && Tracked(s, j)
    requires j in s.store.jobs && s.store.jobs[j].leaseOwner.Some? ==> s.store.jobs[j].leaseOwner.value.n < s.store.ids
    ensures Tracked(Next(cfg, s, e), j)
  {
    hide Filed, ClaimStep, FinishStep, RenewStep, BeginStep, WriteStep, ReturnStep, Receive, RecoverAll;
    match e
    case Recover(_, _) => StoreStepTracks(cfg, s, e, j);
    case Submit(_, _) => StoreStepTracks(cfg, s, e, j);
    case MarkDone(_, _) => StoreStepTracks(cfg, s, e, j);
    case MarkFailed(_, _) => StoreStepTracks(cfg, s, e, j);
    case Finish(owner, now) => FinishTracks(cfg, s, owner, now, j);
    case Begin(owner) => RunnerStepTracks(s, owner, [], RunOk, 0, j);
    case WriteReport(owner, content, now) => RunnerStepTracks(s, owner, content, RunOk, now, j);
    case Return(owner, run) => RunnerStepTracks(s, owner, [], run, 0, j);
    case Renew(owner, now, lease) => RenewTracks(s, owner, now, lease, j);
    case ClaimElsewhere(event, now) =>
      if event.Wellformed() {
        ClaimTracks(cfg, s, event, now, j);
      }
    case ClaimHeld(now) =>
      if s.consumer.Holding? && s.consumer.message.Decoded().Some? {
        ClaimTracks(cfg, s, s.consumer.message.Decoded().value, now, j);
      }
    case _ =>
  }

  lemma OwnerStaysOk(cfg: Settings, s: State, e: Step, j: Id)
    requires Inv(cfg, s) && j in Next(cfg, s, e).store.jobs
    ensures OwnerOk(Next(cfg, s, e), j)
  {
    hide Next;
    var t := Next(cfg, s, e);
    if j !in s.store.jobs {
      NewJobsAreQueued(cfg, s, e, j);
    } else {
      assert OwnerOk(s, j);
      StepTracks(cfg, s, e, j);
      StepMovesJob(cfg, s, e, j);
      var owner := t.store.jobs[j].leaseOwner;
      if owner.Some? {
        if owner.value in s.execs {
          StepAdvancesExec(cfg, s, e, owner.value);
        } else {
          NewExecsAreClaims(cfg, s, e, owner.value);
        }
      }
    }
  }

  lemma AttemptsStayDistinct(cfg: Settings, s: State, e: Step)
    requires Inv(cfg, s)
    ensures DistinctAttempts(Next(cfg, s, e))
  {
    hide Next;
    var t := Next(cfg, s, e);
    forall o1, o2 | o1 in t.execs && o2 in t.execs && o1 != o2 && t.execs[o1].job.id == t.execs[o2].job.id
      ensures t.execs[o1].job.attempts != t.execs[o2].job.attempts
    {
      if o1 in s.execs {
        StepAdvancesExec(cfg, s, e, o1);
      } else {
        NewExecsAreClaims(cfg, s, e, o1);
      }
      if o2 in s.execs {
        StepAdvancesExec(cfg, s, e, o2);
      } else {
        NewExecsAreClaims(cfg, s, e, o2);
      }
    }
  }

  lemma InvStep(cfg: Settings, s: State, e: Step)
    requires Inv(cfg, s)
    ensures Inv(cfg, Next(cfg, s, e))
  {
    hide Next;
    var t := Next(cfg, s, e);
    forall o | o in t.execs
      ensures AttemptOk(cfg, t, o)
    {
      AttemptStaysOk(cfg, s, e, o);
    }
    forall j | j in t.store.jobs
      ensures OwnerOk(t, j) && t.store.jobs[j].id == j && j.n < t.store.ids
    {
      OwnerStaysOk(cfg, s, e, j);
      if j in s.store.jobs {
        StepMovesJob(cfg, s, e, j);
      } else {
        NewJobsAreQueued(cfg, s, e, j);
      }
    }
    AttemptsStayDistinct(cfg, s, e);
  }

  lemma {:induction false} InvAlways(cfg: Settings, s: State, steps: seq<Step>)
    requires Inv(cfg, s)
    ensures Inv(cfg, Run(cfg, s, steps))
  {
    if steps != [] {
      InvAlways(cfg, s, steps[..|steps| - 1]);
      InvStep(cfg, Run(cfg, s, steps[..|steps| - 1]), steps[|steps| - 1]);
    }
  }
}
