/** A delivery identifier stands for one job for ever: sending the same input
    again finds that job, sending another input under it is refused. */
module Deliveries {
  import opened JobModel
  import opened Prelude
  import opened JobStore
  import opened Worker
  import opened WorkflowSystem
  import opened WorkflowSafety
  import opened WorkflowTheorems
  import Recovery

  /** The index names exactly the jobs on file, each under its own delivery. */
  ghost predicate Indexed(s: State) {
    && (forall j :: j in s.store.jobs ==>
          s.store.jobs[j].deliveryId in s.store.byDelivery && s.store.byDelivery[s.store.jobs[j].deliveryId] == j)
    && (forall d :: d in s.store.byDelivery ==>
          s.store.byDelivery[d] in s.store.jobs && s.store.jobs[s.store.byDelivery[d]].deliveryId == d)
  }

  lemma RecoverKeepsIndex(st: Store, sel: seq<Id>, now: Time)
    requires MayRecover(st, sel, now)
    ensures RecoverAll(st, sel, now).byDelivery == st.byDelivery
  {
    Recovery.RecoverRewritesSelection(st, sel, now);
  }

  lemma FinishKeepsIndex(cfg: Settings, s: State, owner: Id, now: Time)
    ensures FinishStep(cfg, s, owner, now).store.byDelivery == s.store.byDelivery
  {
    hide Choose, HoldsLease;
  }

  lemma OnlySubmitIndexes(cfg: Settings, s: State, e: Step)
    requires !e.Submit?
    ensures Next(cfg, s, e).store.byDelivery == s.store.byDelivery
  {
    hide FinishStep, RecoverAll, Claimable, HoldsLease, Decide, Receive;
    if e.Finish? {
      FinishKeepsIndex(cfg, s, e.owner, e.now);
    } else if e.Recover? && MayRecover(s.store, e.sel, e.now) {
      RecoverKeepsIndex(s.store, e.sel, e.now);
    }
  }

  lemma SubmitKeepsIndex(cfg: Settings, s: State, input: ReceiveInput, now: Time)
    requires Filed(s) && Indexed(s)
    ensures Indexed(Next(cfg, s, Submit(input, now)))
  {
  }

  lemma JobsKeepDeliveries(cfg: Settings, s: State, e: Step)
    requires Filed(s) && !e.Submit?
    ensures var t := Next(cfg, s, e);
      && t.store.jobs.Keys == s.store.jobs.Keys
      && forall j :: j in s.store.jobs ==> t.store.jobs[j].deliveryId == s.store.jobs[j].deliveryId
  {
    hide Next, Filed;
    var t := Next(cfg, s, e);
    forall j
      ensures j in t.store.jobs <==> j in s.store.jobs
      ensures j in s.store.jobs ==> t.store.jobs[j].deliveryId == s.store.jobs[j].deliveryId
    {
      if j in t.store.jobs {
        OnlySubmitAddsJobs(cfg, s, e, j);
      }
      if j in s.store.jobs {
        StepMovesJob(cfg, s, e, j);
      }
    }
  }

  lemma IndexStep(cfg: Settings, s: State, e: Step)
    requires Filed(s) && Indexed(s)
    ensures Indexed(Next(cfg, s, e))
  {
    hide Next, Filed;
    if e.Submit? {
      SubmitKeepsIndex(cfg, s, e.input, e.now);
    } else {
      OnlySubmitIndexes(cfg, s, e);
      JobsKeepDeliveries(cfg, s, e);
    }
  }

  lemma {:induction false} IndexAlways(cfg: Settings, steps: seq<Step>)
    ensures Indexed(Run(cfg, INITIAL, steps))
  {
    if steps != [] {
      var front := steps[..|steps| - 1];
      IndexAlways(cfg, front);
      ReachableInv(cfg, front);
      IndexStep(cfg, Run(cfg, INITIAL, front), steps[|steps| - 1]);
    }
  }

  /** In every run a delivery identifier belongs to at most one job. */
  lemma OneJobPerDelivery(cfg: Settings, steps: seq<Step>, j1: Id, j2: Id)
    requires var jobs := Run(cfg, INITIAL, steps).store.jobs;
      j1 in jobs && j2 in jobs && jobs[j1].deliveryId == jobs[j2].deliveryId
    ensures j1 == j2
  {
    IndexAlways(cfg, steps);
  }

  lemma {:induction false} IdentityStays(cfg: Settings, s: State, steps: seq<Step>, j: Id)
    requires Inv(cfg, s) && j in s.store.jobs
    ensures j in Run(cfg, s, steps).store.jobs && SameIdentity(s.store.jobs[j], Run(cfg, s, steps).store.jobs[j])
  {
    if steps != [] {
      var front := steps[..|steps| - 1];
      IdentityStays(cfg, s, front, j);
      InvAlways(cfg, s, front);
      StepMovesJob(cfg, Run(cfg, s, front), steps[|steps| - 1], j);
    }
  }

  /** The input says the same as the one the job was made from. */
  predicate SameInput(a: ReceiveInput, b: ReceiveInput) {
    && a.prNumber == b.prNumber && a.sql == b.sql && a.candidate == b.candidate
    && a.options.Normalized().Untraced() == b.options.Normalized().Untraced()
  }

  lemma SubmitFilesItsJob(s: State, input: ReceiveInput, now: Time)
    requires Indexed(s) && input.Acceptable() && input.deliveryId !in s.store.byDelivery
    ensures var (st, r) := Receive(s.store, input, now);
      && r.Accepted? && r.job == NewJob(r.job.id, input, now) && r.job.id in st.jobs && st.jobs[r.job.id] == r.job
  {
  }

  /** After the first delivery of an input and anything that happens since,
      the same delivery identifier is answered with that very job if the input
      says the same, trace headers aside, and refused otherwise; either way
      nothing changes. */
  lemma RedeliveryIsIdempotent(cfg: Settings, before: seq<Step>, input: ReceiveInput, now: Time, after: seq<Step>,
                               again: ReceiveInput, later: Time)
    requires input.Acceptable() && input.deliveryId !in Run(cfg, INITIAL, before).store.byDelivery
    requires again.Acceptable() && again.deliveryId == input.deliveryId
    ensures var first := Receive(Run(cfg, INITIAL, before).store, input, now).1;
      var st := Run(cfg, Next(cfg, Run(cfg, INITIAL, before), Submit(input, now)), after).store;
      && first.Accepted? && first.job.id in st.jobs
      && Receive(st, again, later)
      == (st, if SameInput(again, input) then Accepted(st.jobs[first.job.id], true) else DeliveryConflict)
  {
    var s := Run(cfg, INITIAL, before);
    var first := Receive(s.store, input, now).1;
    var mid := Next(cfg, s, Submit(input, now));
    IndexAlways(cfg, before);
    ReachableInv(cfg, before);
    SubmitFilesItsJob(s, input, now);
    InvStep(cfg, s, Submit(input, now));
    assert mid.store.jobs[first.job.id] == first.job;
    IdentityStays(cfg, mid, after, first.job.id);
    RunExtends(cfg, before, Submit(input, now), after);
    IndexAlways(cfg, before + [Submit(input, now)] + after);
    var t := Run(cfg, mid, after);
    FoundAgain(t, first.job, input, now, again, later);
  }

  lemma RunExtends(cfg: Settings, before: seq<Step>, e: Step, after: seq<Step>)
    ensures Run(cfg, INITIAL, before + [e] + after) == Run(cfg, Next(cfg, Run(cfg, INITIAL, before), e), after)
  {
    hide Next;
    RunAppends(cfg, INITIAL, before + [e], after);
    assert (before + [e])[..|before + [e]| - 1] == before;
  }

  lemma FoundAgain(t: State, job: Job, input: ReceiveInput, now: Time, again: ReceiveInput, later: Time)
    requires Indexed(t) && again.Acceptable() && again.deliveryId == input.deliveryId
    requires job == NewJob(job.id, input, now) && job.id in t.store.jobs && SameIdentity(job, t.store.jobs[job.id])
    ensures Receive(t.store, again, later)
      == (t.store, if SameInput(again, input) then Accepted(t.store.jobs[job.id], true) else DeliveryConflict)
  {
  }
}
