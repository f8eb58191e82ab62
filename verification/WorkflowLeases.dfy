/** With clocks that never run backwards, no two claims on a job are ever live
    at the same time, renewals included. */
module WorkflowLeases {
  import opened JobModel
  import opened Prelude
  import opened JobStore
  import opened Worker
  import opened WorkflowSystem
  import opened WorkflowSafety
  import opened WorkflowTheorems

  /** The clock reading a step uses, if any. */
  function TimeOf(e: Step): Option<Time> {
    match e
    case Submit(_, now) => Some(now)
    case MarkDone(_, now) => Some(now)
    case MarkFailed(_, now) => Some(now)
    case ClaimHeld(now) => Some(now)
    case ClaimElsewhere(_, now) => Some(now)
    case WriteReport(_, _, now) => Some(now)
    case Finish(_, now) => Some(now)
    case Renew(_, now, _) => Some(now)
    case Recover(_, now) => Some(now)
    case _ => None
  }

  ghost predicate Monotone(steps: seq<Step>) {
    forall i, k :: 0 <= i < k < |steps| && TimeOf(steps[i]).Some? && TimeOf(steps[k]).Some? ==>
      TimeOf(steps[i]).value <= TimeOf(steps[k]).value
  }

  ghost predicate AllBy(steps: seq<Step>, clock: Time) {
    forall i :: 0 <= i < |steps| && TimeOf(steps[i]).Some? ==> TimeOf(steps[i]).value <= clock
  }

  ghost predicate Owns(s: State, o: Id)
    requires o in s.execs
  {
    s.execs[o].job.id in s.store.jobs && s.store.jobs[s.execs[o].job.id].leaseOwner == Some(o)
  }

  /** Attempts have begun, and those not in charge have ended. */
  ghost predicate LeaseOk(s: State, clock: Time, o: Id)
    requires o in s.execs
  {
    s.execs[o].start <= clock && (!Owns(s, o) ==> s.execs[o].end <= clock)
  }

  ghost predicate InOrder(s: State, o1: Id, o2: Id)
    requires o1 in s.execs && o2 in s.execs
  {
    s.execs[o1].job.id == s.execs[o2].job.id && s.execs[o1].job.attempts < s.execs[o2].job.attempts ==>
      s.execs[o1].end <= s.execs[o2].start
  }

  ghost predicate LeaseInv(s: State, clock: Time) {
    && (forall o :: o in s.execs ==> LeaseOk(s, clock, o))
    && (forall o1, o2 :: o1 in s.execs && o2 in s.execs ==> InOrder(s, o1, o2))
  }

  lemma EndMoves(cfg: Settings, s: State, e: Step, o: Id)
    requires Filed(s) && o in s.execs && o.n < s.store.ids
    ensures var t := Next(cfg, s, e);
      o in t.execs && (t.execs[o].end != s.execs[o].end ==>
        && Owns(s, o)
        && ((e.Finish? && t.execs[o].end == e.now) || (e.Renew? && Owns(t, o))))
  {
  }

  /** How job j can stop being held by o: its lease had run out, or o ended
      its own attempt. */
  ghost predicate LostFairly(s: State, t: State, now: Time, j: Id, o: Id)
    requires j in s.store.jobs && o in s.execs
  {
    j in t.store.jobs && t.store.jobs[j].leaseOwner != Some(o) ==>
      s.store.jobs[j].leaseUntil <= now || (o in t.execs && t.execs[o].end == now)
  }

  lemma ClaimIsFair(cfg: Settings, s: State, event: Event, now: Time, j: Id, o: Id)
    requires event.Wellformed() && j in s.store.jobs && o in s.execs && s.store.jobs[j].leaseOwner == Some(o)
    requires s.store.jobs[j].status.Running?
    ensures LostFairly(s, ClaimStep(cfg, s, event, now).0, now, j, o)
  {
  }

  lemma FinishIsFair(cfg: Settings, s: State, owner: Id, now: Time, j: Id, o: Id)
    requires Filed(s) && j in s.store.jobs && o in s.execs && s.store.jobs[j].leaseOwner == Some(o)
    ensures LostFairly(s, FinishStep(cfg, s, owner, now), now, j, o)
  {
  }

  lemma RecoverIsFair(cfg: Settings, s: State, sel: seq<Id>, now: Time, j: Id, o: Id)
    requires j in s.store.jobs && o in s.execs && s.store.jobs[j].leaseOwner == Some(o)
    requires s.store.jobs[j].status.Running?
    ensures LostFairly(s, Next(cfg, s, Recover(sel, now)), now, j, o)
  {
    if MayRecover(s.store, sel, now) {
      RecoverTouchesStaleOnly(s.store, sel, now, j);
    }
  }

  lemma RenewIsFair(s: State, owner: Id, now: Time, lease: int, j: Id, o: Id)
    requires Filed(s) && j in s.store.jobs && o in s.execs && s.store.jobs[j].leaseOwner == Some(o)
    ensures LostFairly(s, RenewStep(s, owner, now, lease), now, j, o)
  {
  }

  lemma SubmitIsFair(cfg: Settings, s: State, input: ReceiveInput, now: Time, j: Id, o: Id)
    requires Filed(s) && j in s.store.jobs && o in s.execs && s.store.jobs[j].leaseOwner == Some(o)
    ensures LostFairly(s, Next(cfg, s, Submit(input, now)), now, j, o)
  {
  }

  lemma ClaimStepIsFair(cfg: Settings, s: State, e: Step, j: Id, o: Id)
    requires e.ClaimHeld? || e.ClaimElsewhere?
    requires Filed(s) && j in s.store.jobs && o in s.execs && s.store.jobs[j].leaseOwner == Some(o)
    requires s.store.jobs[j].status.Running?
    ensures LostFairly(s, Next(cfg, s, e), e.now, j, o)
  {
    if e.ClaimElsewhere? {
      if e.event.Wellformed() {
        ClaimIsFair(cfg, s, e.event, e.now, j, o);
      }
    } else if s.consumer.Holding? && s.consumer.message.Decoded().Some? {
      ClaimIsFair(cfg, s, s.consumer.message.Decoded().value, e.now, j, o);
    }
  }

  lemma UntouchedIsFair(s: State, t: State, now: Time, j: Id, o: Id)
    requires j in s.store.jobs && o in s.execs && s.store.jobs[j].leaseOwner == Some(o)
    requires t.store.jobs == s.store.jobs
    ensures LostFairly(s, t, now, j, o)
  {
  }

  lemma LossIsFair(cfg: Settings, s: State, e: Step, j: Id, o: Id)
    requires Filed(s) && j in s.store.jobs && o in s.execs && s.store.jobs[j].leaseOwner == Some(o)
    requires s.store.jobs[j].status.Running?
    ensures if TimeOf(e).Some? then LostFairly(s, Next(cfg, s, e), TimeOf(e).value, j, o)
            else Next(cfg, s, e).store.jobs == s.store.jobs
  {
    hide LostFairly, ClaimStep, FinishStep, RenewStep, Receive, RecoverAll;
    if !TouchesJobs(e) {
      JobsUntouched(cfg, s, e);
      if TimeOf(e).Some? {
        UntouchedIsFair(s, Next(cfg, s, e), TimeOf(e).value, j, o);
      }
    } else if e.ClaimHeld? || e.ClaimElsewhere? {
      ClaimStepIsFair(cfg, s, e, j, o);
    } else if e.Finish? {
      FinishIsFair(cfg, s, e.owner, e.now, j, o);
    } else if e.Recover? {
      RecoverIsFair(cfg, s, e.sel, e.now, j, o);
    } else if e.Renew? {
      RenewIsFair(s, e.owner, e.now, e.lease, j, o);
    } else {
      SubmitIsFair(cfg, s, e.input, e.now, j, o);
    }
  }

  lemma RecoverTouchesStaleOnly(st: Store, sel: seq<Id>, now: Time, j: Id)
    requires MayRecover(st, sel, now) && j in st.jobs
    ensures RecoverAll(st, sel, now).jobs[j] == st.jobs[j] || Stale(st, st.jobs[j], now)
  {
    Recovery.RecoverRewritesSelection(st, sel, now);
    if j in sel {
      assert j in StaleJobs(st, now);
    }
  }

  lemma LeaseStaysOk(cfg: Settings, s: State, e: Step, clock: Time, o: Id)
    requires Inv(cfg, s) && LeaseInv(s, clock) && (TimeOf(e).Some? ==> TimeOf(e).value == clock)
    requires o in Next(cfg, s, e).execs
    ensures LeaseOk(Next(cfg, s, e), clock, o)
  {
    var t := Next(cfg, s, e);
    if o in s.execs {
      assert AttemptOk(cfg, s, o) && LeaseOk(s, clock, o);
      StepAdvancesExec(cfg, s, e, o);
      EndMoves(cfg, s, e, o);
      if Owns(s, o) {
        assert OwnerOk(s, s.execs[o].job.id);
        StepMovesJob(cfg, s, e, s.execs[o].job.id);
        LossIsFair(cfg, s, e, s.execs[o].job.id, o);
      }
    } else {
      NewExecsAreClaims(cfg, s, e, o);
      ClaimsStartNow(cfg, s, e, o);
    }
  }

  lemma ClaimsStartNow(cfg: Settings, s: State, e: Step, o: Id)
    requires o in Next(cfg, s, e).execs && o !in s.execs
    ensures TimeOf(e) == Some(Next(cfg, s, e).execs[o].start)
  {
  }

  lemma OrderIsKept(cfg: Settings, s: State, e: Step, clock: Time, o1: Id, o2: Id)
    requires Inv(cfg, s) && LeaseInv(s, clock) && (TimeOf(e).Some? ==> TimeOf(e).value == clock)
    requires o1 in Next(cfg, s, e).execs && o2 in Next(cfg, s, e).execs
    ensures InOrder(Next(cfg, s, e), o1, o2)
  {
    var t := Next(cfg, s, e);
    if o1 in s.execs {
      assert AttemptOk(cfg, s, o1) && LeaseOk(s, clock, o1) && OwnerOk(s, s.execs[o1].job.id);
      StepAdvancesExec(cfg, s, e, o1);
      EndMoves(cfg, s, e, o1);
      if o2 in s.execs {
        assert AttemptOk(cfg, s, o2) && InOrder(s, o1, o2);
        StepAdvancesExec(cfg, s, e, o2);
      } else {
        NewExecsAreClaims(cfg, s, e, o2);
        ClaimsStartNow(cfg, s, e, o2);
      }
    } else {
      NewExecsAreClaims(cfg, s, e, o1);
      if o2 in s.execs {
        assert AttemptOk(cfg, s, o2);
        StepAdvancesExec(cfg, s, e, o2);
      } else {
        NewExecsAreClaims(cfg, s, e, o2);
      }
    }
  }

  lemma {:induction false} LeasesStayOrdered(cfg: Settings, steps: seq<Step>, clock: Time)
    requires Monotone(steps) && AllBy(steps, clock)
    ensures LeaseInv(Run(cfg, INITIAL, steps), clock)
  {
    if steps != [] {
      var front, e := steps[..|steps| - 1], steps[|steps| - 1];
      var at := if TimeOf(e).Some? then TimeOf(e).value else clock;
      assert Monotone(front) && AllBy(front, at);
      LeasesStayOrdered(cfg, front, at);
      ReachableInv(cfg, front);
      var s, t := Run(cfg, INITIAL, front), Run(cfg, INITIAL, steps);
      forall o | o in t.execs
        ensures LeaseOk(t, clock, o)
      {
        LeaseStaysOk(cfg, s, e, at, o);
      }
      forall o1, o2 | o1 in t.execs && o2 in t.execs
        ensures InOrder(t, o1, o2)
      {
        OrderIsKept(cfg, s, e, at, o1, o2);
      }
    }
  }

  /** Lease exclusion: at no instant are two distinct claims on one job live. */
  lemma LeasesAreDisjoint(cfg: Settings, steps: seq<Step>, clock: Time, o1: Id, o2: Id, at: Time)
    requires Monotone(steps) && AllBy(steps, clock)
    requires var s := Run(cfg, INITIAL, steps);
      o1 in s.execs && o2 in s.execs && o1 != o2 && s.execs[o1].job.id == s.execs[o2].job.id
    ensures var s := Run(cfg, INITIAL, steps);
      !(s.execs[o1].start <= at < s.execs[o1].end && s.execs[o2].start <= at < s.execs[o2].end)
  {
    ReachableInv(cfg, steps);
    LeasesStayOrdered(cfg, steps, clock);
    var s := Run(cfg, INITIAL, steps);
    assert InOrder(s, o1, o2) && InOrder(s, o2, o1);
  }
}
