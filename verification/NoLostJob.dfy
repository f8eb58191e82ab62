/** No job is ever lost: at every moment of every run, each unfinished job has
    a deliverable outbox record or an uncommitted message.  Relays may crash
    between publishing and marking, publish twice or fail; the consumer may
    crash between handling and committing. */
module NoLostJob {
  import opened JobModel
  import opened Prelude
  import opened JobStore
  import opened Worker
  import opened WorkflowSystem
  import opened WorkflowSafety
  import opened WorkflowTheorems
  import Recovery

  /** The consumer is through with the message at the cursor: it will commit
      it, now or after handling it again. */
  ghost predicate Settled(s: State) {
    || s.consumer.Handled?
    || (s.consumer.Handling? && s.consumer.owner in s.execs && s.execs[s.consumer.owner].phase == Over(true))
  }

  /** The first message that still guarantees another look at its job. */
  ghost function Floor(s: State): nat {
    if Settled(s) then s.next + 1 else s.next
  }

  ghost predicate Queuing(s: State, e: Id, j: Id) {
    e in s.store.outbox && s.store.outbox[e].pending && s.store.outbox[e].jobId == j && e !in s.sent
  }

  ghost predicate Enroute(s: State, k: nat, j: Id) {
    Floor(s) <= k < |s.messages| && Names(s.messages[k], j)
  }

  /** The strengthening: records some relay has already sent, and the message
      the consumer is through with, do not count. */
  ghost predicate Covered(s: State, j: Id) {
    (exists e :: Queuing(s, e, j)) || (exists k: nat :: Enroute(s, k, j))
  }

  ghost predicate RecordOk(s: State, e: Id)
    requires e in s.store.outbox
  {
    var row := s.store.outbox[e];
    && e.n < s.store.ids && row.jobId in s.store.jobs
    && row.event.Wellformed() && row.event.jobId == Some(row.jobId)
  }

  ghost predicate ConsumerOk(s: State) {
    && s.next <= |s.messages|
    && (!s.consumer.Idle? ==> s.next < |s.messages| && s.messages[s.next] == s.consumer.message)
    && (s.consumer.Handling? ==> s.consumer.owner in s.execs && Names(s.consumer.message, s.execs[s.consumer.owner].job.id))
  }

  ghost predicate DeliveryInv(s: State) {
    && (forall j :: j in s.store.jobs ==> s.store.jobs[j].deliveryId != "")
    && (forall e :: e in s.store.outbox ==> RecordOk(s, e))
    && (forall e :: e in s.sent ==> e in s.store.outbox)
    && ConsumerOk(s)
    && (forall j :: j in s.store.jobs && !s.store.jobs[j].status.Terminal() ==> Covered(s, j))
  }

  /* ---- Outbox records ---- */

  /** Records are never deleted or redirected; only a relay that has sent one
      stops it from being deliverable. */
  ghost predicate RecordKept(s: State, t: State, e: Id)
    requires e in s.store.outbox
  {
    && e in t.store.outbox
    && t.store.outbox[e].jobId == s.store.outbox[e].jobId && t.store.outbox[e].event == s.store.outbox[e].event
    && (s.store.outbox[e].pending && e !in s.sent ==> t.store.outbox[e].pending)
  }

  /** The steps that may rewrite outbox rows. */
  predicate TouchesOutbox(step: Step) {
    step.Submit? || step.MarkDone? || step.MarkFailed? || step.Finish? || step.Recover?
  }

  lemma OutboxUntouched(cfg: Settings, s: State, step: Step)
    requires !TouchesOutbox(step)
    ensures Next(cfg, s, step).store.outbox == s.store.outbox
  {
  }

  ghost predicate OutboxFiled(s: State) {
    && (forall e :: e in s.store.outbox ==> e.n < s.store.ids)
    && (forall j :: j in s.store.jobs ==> !s.store.jobs[j].status.Received?)
  }

  lemma RecoverKeepsRecord(cfg: Settings, s: State, sel: seq<Id>, now: Time, e: Id)
    requires Filed(s) && OutboxFiled(s) && e in s.store.outbox
    ensures RecordKept(s, Next(cfg, s, Recover(sel, now)), e)
  {
    if MayRecover(s.store, sel, now) {
      Recovery.RecoverEnqueuesSelection(s.store, sel, now);
    }
  }

  lemma FinishKeepsRecord(cfg: Settings, s: State, owner: Id, now: Time, e: Id)
    requires OutboxFiled(s) && e in s.store.outbox
    ensures RecordKept(s, FinishStep(cfg, s, owner, now), e)
  {
  }

  lemma StepKeepsRecord(cfg: Settings, s: State, step: Step, e: Id)
    requires Filed(s) && OutboxFiled(s) && e in s.store.outbox
    ensures RecordKept(s, Next(cfg, s, step), e)
  {
    hide FinishStep, RecoverAll, ClaimStep, RenewStep;
    if !TouchesOutbox(step) {
      OutboxUntouched(cfg, s, step);
    } else if step.Recover? {
      RecoverKeepsRecord(cfg, s, step.sel, step.now, e);
    } else if step.Finish? {
      FinishKeepsRecord(cfg, s, step.owner, step.now, e);
    }
  }

  /** New records name a job on file and are filed under an unused id. */
  ghost predicate RecordNew(s: State, t: State, e: Id)
    requires e in t.store.outbox
  {
    && s.store.ids <= e.n < t.store.ids
    && t.store.outbox[e].jobId in t.store.jobs
    && t.store.outbox[e].event == EventFor(e, t.store.jobs[t.store.outbox[e].jobId], t.store.outbox[e].event.attempt)
    && t.store.outbox[e].event.attempt >= 1
  }

  lemma {:induction false} RecoverRecordsAreNew(st: Store, sel: seq<Id>, now: Time, e: Id)
    requires forall j :: j in st.jobs ==> st.jobs[j].id == j
    requires forall i :: 0 <= i < |sel| ==> sel[i] in st.jobs
    requires forall i, k :: 0 <= i < k < |sel| ==> sel[i] != sel[k]
    requires e in RecoverAll(st, sel, now).outbox && e !in st.outbox
    ensures var r := RecoverAll(st, sel, now);
      && st.ids <= e.n < r.ids && r.outbox[e].jobId in r.jobs
      && r.outbox[e].event == EventFor(e, r.jobs[r.outbox[e].jobId], r.outbox[e].event.attempt)
      && r.outbox[e].event.attempt >= 1
  {
    if sel != [] {
      var front, id := sel[..|sel| - 1], sel[|sel| - 1];
      var mid := RecoverAll(st, front, now);
      Recovery.RecoverRewritesSelection(st, front, now);
      Recovery.RecoverAllUnfolds(st, sel, now);
      if e in mid.outbox {
        RecoverRecordsAreNew(st, front, now, e);
      }
    }
  }

  lemma FinishRecordIsNew(cfg: Settings, s: State, owner: Id, now: Time, e: Id)
    requires Filed(s) && e in FinishStep(cfg, s, owner, now).store.outbox && e !in s.store.outbox
    ensures RecordNew(s, FinishStep(cfg, s, owner, now), e)
  {
    hide Choose, HoldsLease;
  }

  lemma SubmitRecordIsNew(cfg: Settings, s: State, input: ReceiveInput, now: Time, e: Id)
    requires Filed(s)
    requires e in Next(cfg, s, Submit(input, now)).store.outbox && e !in s.store.outbox
    ensures RecordNew(s, Next(cfg, s, Submit(input, now)), e)
  {
  }

  lemma NewRecordsNameJobs(cfg: Settings, s: State, step: Step, e: Id)
    requires Filed(s) && OutboxFiled(s)
    requires e in Next(cfg, s, step).store.outbox && e !in s.store.outbox
    ensures RecordNew(s, Next(cfg, s, step), e)
  {
    hide FinishStep, Receive;
    if !TouchesOutbox(step) {
      OutboxUntouched(cfg, s, step);
    } else if step.Recover? && MayRecover(s.store, step.sel, step.now) {
      RecoverRecordsAreNew(s.store, step.sel, step.now, e);
    } else if step.Finish? {
      FinishRecordIsNew(cfg, s, step.owner, step.now, e);
    } else if step.Submit? {
      SubmitRecordIsNew(cfg, s, step.input, step.now, e);
    }
  }

  lemma RecordStaysOk(cfg: Settings, s: State, step: Step, e: Id)
    requires Inv(cfg, s) && DeliveryInv(s) && OutboxFiled(s)
    requires e in Next(cfg, s, step).store.outbox
    ensures RecordOk(Next(cfg, s, step), e)
  {
    hide FinishStep, RecoverAll, ClaimStep, RenewStep, Receive;
    var t := Next(cfg, s, step);
    if e in s.store.outbox {
      assert RecordOk(s, e);
      StepKeepsRecord(cfg, s, step, e);
      StepMovesJob(cfg, s, step, s.store.outbox[e].jobId);
    } else {
      NewRecordsNameJobs(cfg, s, step, e);
      JobsStayFiled(cfg, s, step, t.store.outbox[e].jobId);
    }
  }

  lemma JobsStayFiled(cfg: Settings, s: State, step: Step, j: Id)
    requires Filed(s) && (forall i :: i in s.store.jobs ==> s.store.jobs[i].deliveryId != "")
    requires j in Next(cfg, s, step).store.jobs
    ensures Next(cfg, s, step).store.jobs[j].id == j && Next(cfg, s, step).store.jobs[j].deliveryId != ""
  {
    if j in s.store.jobs {
      StepMovesJob(cfg, s, step, j);
    } else {
      NewJobsAreQueued(cfg, s, step, j);
      SubmittedIdsAreNonempty(cfg, s, step, j);
    }
  }

  lemma SubmittedIdsAreNonempty(cfg: Settings, s: State, step: Step, j: Id)
    requires step.Submit? && j in Next(cfg, s, step).store.jobs && j !in s.store.jobs
    ensures Next(cfg, s, step).store.jobs[j].deliveryId != ""
  {
  }

  /* ---- The consumer ---- */

  predicate TouchesConsumer(step: Step) {
    step.Fetch? || step.ClaimHeld? || step.SettleHeld? || step.Quarantine? || step.Commit? || step.Crash?
  }

  lemma ConsumerUntouched(cfg: Settings, s: State, step: Step)
    requires !TouchesConsumer(step)
    ensures var t := Next(cfg, s, step); t.consumer == s.consumer && t.next == s.next
  {
  }

  /** Messages stay where they are. */
  lemma MessagesGrow(cfg: Settings, s: State, step: Step)
    ensures |s.messages| <= |Next(cfg, s, step).messages|
    ensures forall k :: 0 <= k < |s.messages| ==> Next(cfg, s, step).messages[k] == s.messages[k]
  {
  }

  lemma ClaimHeldStaysOk(cfg: Settings, s: State, now: Time)
    requires Filed(s) && ConsumerOk(s)
    ensures ConsumerOk(ClaimHeldStep(cfg, s, now))
  {
  }

  lemma ConsumerStepsStayOk(cfg: Settings, s: State, step: Step)
    requires ConsumerOk(s) && TouchesConsumer(step) && !step.ClaimHeld?
    ensures ConsumerOk(Next(cfg, s, step))
  {
    hide Poison;
  }

  lemma ConsumerStaysOk(cfg: Settings, s: State, step: Step)
    requires Inv(cfg, s) && ConsumerOk(s)
    ensures ConsumerOk(Next(cfg, s, step))
  {
    if step.ClaimHeld? {
      ClaimHeldStaysOk(cfg, s, step.now);
    } else if TouchesConsumer(step) {
      ConsumerStepsStayOk(cfg, s, step);
    } else {
      UntouchedConsumerStaysOk(cfg, s, step);
    }
  }

  lemma UntouchedConsumerStaysOk(cfg: Settings, s: State, step: Step)
    requires Inv(cfg, s) && ConsumerOk(s) && !TouchesConsumer(step)
    ensures ConsumerOk(Next(cfg, s, step))
  {
    hide Next;
    MessagesGrow(cfg, s, step);
    ConsumerUntouched(cfg, s, step);
    if s.consumer.Handling? {
      assert AttemptOk(cfg, s, s.consumer.owner);
      StepAdvancesExec(cfg, s, step, s.consumer.owner);
    }
  }

  /** A successful publish leaves the event on the topic. */
  lemma SentMeansOnTopic(cfg: Settings, s: State, step: Step, e: Id)
    requires e in Next(cfg, s, step).sent && e !in s.sent
    ensures step.Publish? && step.eventId == e && e in s.store.outbox
    ensures var t := Next(cfg, s, step);
      |t.messages| == |s.messages| + 1 && t.messages[|s.messages|].body == Some(s.store.outbox[e].event)
      && t.consumer == s.consumer && t.next == s.next && t.execs == s.execs
  {
  }

  /* ---- Every unfinished job stays covered ---- */

  lemma QueuingStaysCovered(cfg: Settings, s: State, step: Step, j: Id, e: Id)
    requires Inv(cfg, s) && OutboxFiled(s) && DeliveryInv(s) && Queuing(s, e, j)
    ensures Covered(Next(cfg, s, step), j)
  {
    hide Next;
    var t := Next(cfg, s, step);
    StepKeepsRecord(cfg, s, step, e);
    if e in t.sent {
      SentMeansOnTopic(cfg, s, step, e);
      assert RecordOk(s, e);
      assert Enroute(t, |s.messages|, j);
    } else {
      assert Queuing(t, e, j);
    }
  }

  /** When the consumer's own attempt is accepted, its job is over or has a
      new record that no relay has seen. */
  lemma AcceptedMeansCovered(cfg: Settings, s: State, o: Id, now: Time)
    requires Filed(s) && OutboxFiled(s) && (forall e :: e in s.sent ==> e in s.store.outbox)
    requires o in s.execs && s.execs[o].phase != Over(true)
    requires var t := FinishStep(cfg, s, o, now); o in t.execs && t.execs[o].phase == Over(true)
    ensures var t := FinishStep(cfg, s, o, now); var j := s.execs[o].job.id;
      j in t.store.jobs && (t.store.jobs[j].status.Terminal() || Queuing(t, Id("retry", s.store.ids), j))
  {
    assert Id("retry", s.store.ids) !in s.sent;
  }

  lemma OnlyOwnFinishCloses(cfg: Settings, s: State, step: Step, o: Id)
    requires o in s.execs && s.execs[o].phase != Over(true) && o.n < s.store.ids
    requires o in Next(cfg, s, step).execs && Next(cfg, s, step).execs[o].phase == Over(true)
    ensures step.Finish? && step.owner == o
  {
  }

  /** How the floor can rise: the message at the cursor is for a job that is
      covered otherwise, or for nobody. */
  lemma FloorRisesSafely(cfg: Settings, s: State, step: Step, j: Id)
    requires Inv(cfg, s) && OutboxFiled(s) && DeliveryInv(s) && j in s.store.jobs
    requires s.next < |s.messages| && Names(s.messages[s.next], j) && Floor(s) == s.next
    requires Floor(Next(cfg, s, step)) > s.next
    ensures var t := Next(cfg, s, step);
      j in t.store.jobs && (t.store.jobs[j].status.Terminal() || Covered(t, j))
  {
    hide Next, FinishStep, OutboxFiled;
    StepMovesJob(cfg, s, step, j);
    if step.Finish? && s.consumer.Handling? {
      FinishIsNext(cfg, s, step.owner, step.now);
      OwnFinishIsSafe(cfg, s, step.owner, step.now, j);
    } else {
      CursorMoves(cfg, s, step, j);
    }
  }

  lemma FinishIsNext(cfg: Settings, s: State, owner: Id, now: Time)
    ensures Next(cfg, s, Finish(owner, now)) == FinishStep(cfg, s, owner, now)
  {
    hide FinishStep;
  }

  lemma OwnFinishIsSafe(cfg: Settings, s: State, owner: Id, now: Time, j: Id)
    requires Inv(cfg, s) && OutboxFiled(s) && DeliveryInv(s) && s.consumer.Handling?
    requires s.next < |s.messages| && Names(s.messages[s.next], j) && Floor(s) == s.next
    requires Floor(FinishStep(cfg, s, owner, now)) > s.next
    ensures var t := FinishStep(cfg, s, owner, now);
      j in t.store.jobs && (t.store.jobs[j].status.Terminal() || Covered(t, j))
  {
    hide FinishStep;
    var t, o := FinishStep(cfg, s, owner, now), s.consumer.owner;
    FinishLeavesConsumer(cfg, s, owner, now);
    AttemptClosesOnlyByFinish(cfg, s, Finish(owner, now), o);
    assert Next(cfg, s, Finish(owner, now)) == t;
    AcceptedMeansCovered(cfg, s, o, now);
    if !t.store.jobs[j].status.Terminal() {
      assert Queuing(t, Id("retry", s.store.ids), j);
    }
  }

  lemma FinishLeavesConsumer(cfg: Settings, s: State, owner: Id, now: Time)
    ensures var t := FinishStep(cfg, s, owner, now); t.consumer == s.consumer && t.next == s.next && t.messages == s.messages
  {
  }

  /** Where the consumer's state after a step comes from. */
  lemma ConsumerMoves(cfg: Settings, s: State, step: Step)
    ensures var t := Next(cfg, s, step);
      && (t.next == s.next || (s.consumer.Handled? && t.next == s.next + 1 && t.consumer.Idle?))
      && (t.consumer == s.consumer || t.consumer.Idle? || t.consumer.Holding? || step.ClaimHeld?
          || (step.Quarantine? && s.consumer.Holding? && Poison(s, s.consumer.message))
          || (step.SettleHeld? && s.consumer.Handling? && s.consumer.owner in s.execs
              && s.execs[s.consumer.owner].phase == Over(true)))
  {
    hide ClaimStep, FinishStep, RecoverAll, Receive, RenewStep, ClaimHeldStep;
    if !TouchesConsumer(step) {
      ConsumerUntouched(cfg, s, step);
    } else if step.ClaimHeld? {
      HeldClaimKeepsCursor(cfg, s, step.now);
    }
  }

  lemma HeldClaimKeepsCursor(cfg: Settings, s: State, now: Time)
    ensures ClaimHeldStep(cfg, s, now).next == s.next
    ensures !s.consumer.Holding? ==> ClaimHeldStep(cfg, s, now) == s
  {
  }

  lemma AttemptClosesOnlyByFinish(cfg: Settings, s: State, step: Step, o: Id)
    requires Inv(cfg, s) && o in s.execs
    ensures var t := Next(cfg, s, step);
      && o in t.execs && (s.execs[o].phase == Over(true) ==> t.execs[o].phase == Over(true))
      && (t.execs[o].phase == Over(true) && s.execs[o].phase != Over(true) ==> step.Finish? && step.owner == o)
  {
    hide Next;
    assert AttemptOk(cfg, s, o);
    StepAdvancesExec(cfg, s, step, o);
    if Next(cfg, s, step).execs[o].phase == Over(true) && s.execs[o].phase != Over(true) {
      OnlyOwnFinishCloses(cfg, s, step, o);
    }
  }

  lemma CursorMoves(cfg: Settings, s: State, step: Step, j: Id)
    requires Inv(cfg, s) && ConsumerOk(s) && j in s.store.jobs
    requires s.next < |s.messages| && Names(s.messages[s.next], j) && Floor(s) == s.next
    requires !(step.Finish? && s.consumer.Handling?)
    requires Floor(Next(cfg, s, step)) > s.next
    ensures s.store.jobs[j].status.Terminal()
  {
    if step.ClaimHeld? {
      HeldClaimRaisesFloorOnTerminal(cfg, s, step.now, j);
    } else {
      hide Next;
      ConsumerMoves(cfg, s, step);
      if s.consumer.Handling? {
        AttemptClosesOnlyByFinish(cfg, s, step, s.consumer.owner);
      }
    }
  }

  lemma HeldClaimRaisesFloorOnTerminal(cfg: Settings, s: State, now: Time, j: Id)
    requires ConsumerOk(s) && j in s.store.jobs && Filed(s)
    requires s.next < |s.messages| && Names(s.messages[s.next], j) && Floor(s) == s.next
    requires Floor(ClaimHeldStep(cfg, s, now)) > s.next
    ensures s.store.jobs[j].status.Terminal()
  {
  }

  lemma EnrouteStaysCovered(cfg: Settings, s: State, step: Step, j: Id, k: nat)
    requires Inv(cfg, s) && OutboxFiled(s) && DeliveryInv(s) && j in s.store.jobs && Enroute(s, k, j)
    ensures var t := Next(cfg, s, step);
      j in t.store.jobs && (t.store.jobs[j].status.Terminal() || Covered(t, j))
  {
    hide Next, RecordOk, ConsumerOk, Filed, OwnerOk, AttemptOk, DistinctAttempts;
    var t := Next(cfg, s, step);
    StepMovesJob(cfg, s, step, j);
    MessagesGrow(cfg, s, step);
    FloorMovesByOne(cfg, s, step);
    if Floor(t) <= k {
      assert Enroute(t, k, j);
    } else {
      FloorRisesSafely(cfg, s, step, j);
    }
  }

  /** One step raises the floor by at most one, and never past a message the
      consumer has not been handed. */
  lemma FloorMovesByOne(cfg: Settings, s: State, step: Step)
    requires Inv(cfg, s) && ConsumerOk(s)
    ensures Floor(Next(cfg, s, step)) <= s.next + 1
    ensures Floor(s) == s.next + 1 ==> Floor(Next(cfg, s, step)) <= Floor(s)
  {
    hide Next;
    ConsumerMoves(cfg, s, step);
  }

  lemma NewJobIsQueued(cfg: Settings, s: State, step: Step, j: Id)
    requires Filed(s) && (forall e :: e in s.sent ==> e in s.store.outbox) && OutboxFiled(s)
    requires j in Next(cfg, s, step).store.jobs && j !in s.store.jobs
    ensures Covered(Next(cfg, s, step), j)
  {
    NewJobsAreQueued(cfg, s, step, j);
    SubmitQueues(cfg, s, step.input, step.now, j);
  }

  lemma SubmitQueues(cfg: Settings, s: State, input: ReceiveInput, now: Time, j: Id)
    requires Filed(s) && (forall e :: e in s.sent ==> e in s.store.outbox) && OutboxFiled(s)
    requires j in Next(cfg, s, Submit(input, now)).store.jobs && j !in s.store.jobs
    ensures Covered(Next(cfg, s, Submit(input, now)), j)
  {
    var e := Id("event", s.store.ids + 1);
    assert e !in s.sent;
    assert Queuing(Next(cfg, s, Submit(input, now)), e, j);
  }

  lemma JobStaysCovered(cfg: Settings, s: State, step: Step, j: Id)
    requires Inv(cfg, s) && OutboxFiled(s) && DeliveryInv(s)
    requires j in Next(cfg, s, step).store.jobs && !Next(cfg, s, step).store.jobs[j].status.Terminal()
    ensures Covered(Next(cfg, s, step), j)
  {
    hide Next;
    if j !in s.store.jobs {
      NewJobIsQueued(cfg, s, step, j);
    } else {
      StepMovesJob(cfg, s, step, j);
      assert Covered(s, j);
      if e :| Queuing(s, e, j) {
        QueuingStaysCovered(cfg, s, step, j, e);
      } else {
        var k: nat :| Enroute(s, k, j);
        EnrouteStaysCovered(cfg, s, step, j, k);
      }
    }
  }

  lemma SentStaysFiled(cfg: Settings, s: State, step: Step, e: Id)
    requires Filed(s) && OutboxFiled(s) && (forall x :: x in s.sent ==> x in s.store.outbox)
    requires e in Next(cfg, s, step).sent
    ensures e in Next(cfg, s, step).store.outbox
  {
    hide Next;
    if e !in s.sent {
      SentMeansOnTopic(cfg, s, step, e);
    }
    StepKeepsRecord(cfg, s, step, e);
  }

  lemma InvFilesOutbox(cfg: Settings, s: State)
    requires Inv(cfg, s) && DeliveryInv(s)
    ensures OutboxFiled(s)
  {
    assert forall e :: e in s.store.outbox ==> RecordOk(s, e);
    assert forall j :: j in s.store.jobs ==> OwnerOk(s, j);
  }

  lemma DeliveryInvStep(cfg: Settings, s: State, step: Step)
    requires Inv(cfg, s) && DeliveryInv(s)
    ensures DeliveryInv(Next(cfg, s, step))
  {
    hide Next, Covered, RecordOk, ConsumerOk, Filed, OutboxFiled, OwnerOk, AttemptOk, DistinctAttempts;
    var t := Next(cfg, s, step);
    InvFilesOutbox(cfg, s);
    ConsumerStaysOk(cfg, s, step);
    forall j | j in t.store.jobs
      ensures t.store.jobs[j].deliveryId != ""
      ensures !t.store.jobs[j].status.Terminal() ==> Covered(t, j)
    {
      JobsStayFiled(cfg, s, step, j);
      if !t.store.jobs[j].status.Terminal() {
        JobStaysCovered(cfg, s, step, j);
      }
    }
    forall e | e in t.store.outbox
      ensures RecordOk(t, e)
    {
      RecordStaysOk(cfg, s, step, e);
    }
    forall e | e in t.sent
      ensures e in t.store.outbox
    {
      SentStaysFiled(cfg, s, step, e);
    }
  }

  lemma {:induction false} DeliveryInvAlways(cfg: Settings, steps: seq<Step>)
    ensures DeliveryInv(Run(cfg, INITIAL, steps))
  {
    if steps != [] {
      var front := steps[..|steps| - 1];
      DeliveryInvAlways(cfg, front);
      ReachableInv(cfg, front);
      DeliveryInvStep(cfg, Run(cfg, INITIAL, front), steps[|steps| - 1]);
    }
  }

  /** Somebody will still hear of the job: it has a deliverable outbox record,
      or a message names it that the consumer has not committed. */
  ghost predicate StillDue(s: State, j: Id) {
    HasPending(s.store, j) || exists k :: s.next <= k < |s.messages| && Names(s.messages[k], j)
  }

  ghost predicate NothingLost(s: State) {
    forall j :: j in s.store.jobs && !s.store.jobs[j].status.Terminal() ==> StillDue(s, j)
  }

  lemma CoveredIsDue(s: State, j: Id)
    requires Covered(s, j)
    ensures StillDue(s, j)
  {
    if e :| Queuing(s, e, j) {
      assert HasPending(s.store, j);
    } else {
      var k: nat :| Enroute(s, k, j);
      assert Names(s.messages[k], j);
    }
  }

  /** No lost job.  After any run every unfinished job is still due. */
  lemma NoJobIsLost(cfg: Settings, steps: seq<Step>)
    ensures NothingLost(Run(cfg, INITIAL, steps))
  {
    DeliveryInvAlways(cfg, steps);
    var s := Run(cfg, INITIAL, steps);
    forall j | j in s.store.jobs && !s.store.jobs[j].status.Terminal()
      ensures StillDue(s, j)
    {
      CoveredIsDue(s, j);
    }
  }

  /** The recovery theorem applies to every reachable store, so the scan makes
      up for a broker that has lost everything. */
  lemma ReachableStoresRecover(cfg: Settings, steps: seq<Step>, now: Time, limit: nat, sel: seq<Id>)
    requires var st := Run(cfg, INITIAL, steps).store;
      Recovery.Overdue(st, now) && IsSelection(st, now, limit, sel) && limit >= |StaleJobs(st, now)|
    ensures var st := Run(cfg, INITIAL, steps).store; Recovery.AllRecovered(st, RecoverAll(st, sel, now), now)
  {
    ReachableInv(cfg, steps);
    DeliveryInvAlways(cfg, steps);
    var s := Run(cfg, INITIAL, steps);
    InvFilesOutbox(cfg, s);
    Recovery.RecoveryIsComplete(s.store, now, limit, sel);
  }
}
