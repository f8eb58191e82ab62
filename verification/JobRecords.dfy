/** What the rows of the store say, in every run: where a job came from, when
    it was last touched and finished, which records announce it, which updates
    were let through, and what a recovery scan looks at. */
module JobRecords {
  import opened GoInt
  import opened JobModel
  import opened Prelude
  import opened JobStore
  import opened Worker
  import opened WorkflowSystem
  import opened WorkflowSafety
  import opened WorkflowTheorems
  import NoLostJob
  import Recovery

  /* ---- Fences ---- */

  /** An owner's update is let through exactly while it holds a live lease on a
      running job. */
  lemma UpdatesNeedALiveLease(st: Store, id: Id, owner: Id, now: Time, status: Status, reason: string, next: Time, lease: int)
    ensures var live := id in st.jobs && st.jobs[id].status == Running && st.jobs[id].leaseOwner == Some(owner)
                        && now < st.jobs[id].leaseUntil;
      && (JobStore.Finish(st, id, owner, now, status, reason).1 == Updated <==> live)
      && (Retry(st, id, owner, now, next, reason).1 == Updated <==> live)
      && (JobStore.Renew(st, id, owner, now, lease).1 == Updated <==> live)
      && (!live ==> JobStore.Finish(st, id, owner, now, status, reason).0 == st && Retry(st, id, owner, now, next, reason).0 == st
                    && JobStore.Renew(st, id, owner, now, lease).0 == st)
      && (id !in st.jobs <==> JobStore.Renew(st, id, owner, now, lease).1 == NotFound)
  {
  }

  /** A report is stored only by the running job's owner under a live lease. */
  lemma ReportsNeedALiveLease(cfg: Settings, s: State, e: Step, j: Id)
    requires j in Next(cfg, s, e).reports && (j in s.reports ==> Next(cfg, s, e).reports[j] != s.reports[j])
    ensures e.WriteReport? && j in s.store.jobs && s.store.jobs[j].status == Running
      && s.store.jobs[j].leaseOwner == Some(e.owner) && e.now < s.store.jobs[j].leaseUntil
      && Next(cfg, s, e).reports[j] == Report(e.content, e.owner)
  {
    ReportsMove(cfg, s, e);
    hide Next;
  }

  /** ... and it is stored whenever its runner, which has stored none yet, holds
      one: a runner that does not is told that it has lost its lease. */
  lemma LiveOwnersStoreReports(cfg: Settings, s: State, o: Id, content: Bytes, now: Time)
    requires o in s.execs && s.execs[o].phase == InRunner && s.execs[o].wrote.None?
    ensures var j, t := s.execs[o].job.id, Next(cfg, s, WriteReport(o, content, now));
      var live := j in s.store.jobs && s.store.jobs[j].status == Running && s.store.jobs[j].leaseOwner == Some(o)
                  && now < s.store.jobs[j].leaseUntil;
      && o in t.execs && t.store == s.store
      && (live ==> j in t.reports && t.reports[j] == Report(content, o) && t.execs[o].wrote == Some(content)
                   && t.execs[o].phase == InRunner)
      && (!live ==> t.reports == s.reports && t.execs[o].phase == Returned(RunLeaseLost))
  {
  }

  /* ---- Answers ---- */

  /** How a delivery is answered. */
  lemma ReceiveAnswers(st: Store, input: ReceiveInput, now: Time)
    ensures var (t, r) := Receive(st, input, now);
      var known := input.deliveryId in st.byDelivery && st.byDelivery[input.deliveryId] in st.jobs;
      && (r.InvalidInput? <==> input.deliveryId == "" || input.prNumber < 1 || input.sql == [] || input.candidate == [])
      && (r.InvalidInput? || known ==> t == st)
      && (!r.InvalidInput? ==> (known <==> r.DeliveryConflict? || r.duplicate))
      && (r.Accepted? && r.duplicate ==> r.job == st.jobs[st.byDelivery[input.deliveryId]])
  {
  }

  /** A message is one of ours if it carries a complete event. */
  predicate Complete(m: Message) {
    && m.body.Some? && m.body.value.schemaVersion == 1 && m.body.value.eventId.Some? && m.body.value.jobId.Some?
    && m.body.value.deliveryId != "" && m.body.value.attempt >= 1
  }

  /** May be claimed at this instant: not finished, not leased, and not
      scheduled for later. */
  predicate Free(job: Job, now: Time) {
    match job.status
    case Received => true
    case Queued => job.nextAttemptAt <= now
    case Retrying => job.nextAttemptAt <= now
    case Running => job.leaseUntil <= now
    case _ => false
  }

  /** How a call of `Handle` is answered: a message that is not one of ours, a
      job not on file, a finished job and one that is not free change no row,
      and any other job is claimed. */
  lemma HandleAnswers(st: Store, m: Message, config: Config, now: Time, run: RunResult, renewals: seq<Time>, later: Time)
    requires forall j :: j in st.jobs ==> st.jobs[j].id == j
    ensures var (t, r) := HandleOf(st, m, config, now, run, renewals, later);
      && (r == DecodeFailed <==> !Complete(m))
      && (!Complete(m) ==> t == st)
      && (Complete(m) ==>
            var id := m.body.value.jobId.value;
            && (id !in st.jobs <==> r == UnknownJob)
            && (id !in st.jobs ==> t.jobs == st.jobs && t.outbox == st.outbox)
            && (id in st.jobs && !Free(st.jobs[id], now) ==>
                  && r == (if st.jobs[id].status in {Completed, Rejected, DeadLetter} then Done else LeaseBusy)
                  && t.jobs == st.jobs && t.outbox == st.outbox)
            && (id in st.jobs && Free(st.jobs[id], now) ==> r == Done || r == LeaseLost))
  {
    hide RunOf, Settle, Choose, Decide;
    if Complete(m) {
      var cfg, id, owner := config.WithDefaults(), m.body.value.jobId.value, Id("claim", st.ids);
      var (st1, claim) := Claim(st.(ids := st.ids + 1), id, owner, now, cfg.lease);
      if claim.Claimed? {
        ClaimFiles(st.(ids := st.ids + 1), id, owner, now, cfg.lease);
        var verdict := Decide(claim.job, m.body.value, cfg.maxAttempts);
        RunKeepsJobs(st1, claim.job, owner, verdict, run, renewals, cfg.lease);
        var (st2, outcome) := RunOf(st1, claim.job, owner, verdict, run, renewals, cfg.lease);
        SettleFinds(st2, claim.job.id, owner, Choose(claim.job, verdict, outcome, cfg, later), later);
      }
    }
  }

  lemma ClaimFiles(st: Store, id: Id, owner: Id, now: Time, lease: int)
    requires Claim(st, id, owner, now, lease).1.Claimed?
    ensures var (t, r) := Claim(st, id, owner, now, lease); id in t.jobs && t.jobs[id] == r.job && t.jobs.Keys == st.jobs.Keys
  {
  }

  lemma SettleFinds(st: Store, id: Id, owner: Id, ending: Ending, now: Time)
    ensures Settle(st, id, owner, ending, now).1 == NotFound <==> id !in st.jobs
  {
  }

  lemma {:induction false} RenewalsKeepJobs(st: Store, id: Id, owner: Id, renewals: seq<Time>, lease: int)
    ensures KeepAlive(st, id, owner, renewals, lease).0.jobs.Keys == st.jobs.Keys
  {
    if renewals != [] {
      RenewalsKeepJobs(st, id, owner, renewals[..|renewals| - 1], lease);
    }
  }

  lemma RunKeepsJobs(st: Store, job: Job, owner: Id, verdict: Verdict, run: RunResult, renewals: seq<Time>, lease: int)
    ensures RunOf(st, job, owner, verdict, run, renewals, lease).0.jobs.Keys == st.jobs.Keys
  {
    RenewalsKeepJobs(st, job.id, owner, renewals, lease);
  }

  /* ---- Where jobs come from ---- */

  /** The job is what this input asked for when it was received. */
  ghost predicate MadeFrom(job: Job, input: ReceiveInput, now: Time) {
    && job.deliveryId == input.deliveryId && job.prNumber == input.prNumber
    && job.sql == input.sql && job.candidate == input.candidate
    && job.sqlSHA == Sha(input.sql) && job.candidateSHA == Sha(input.candidate)
    && job.options.tenant == (if input.options.tenant == "" then "operator" else input.options.tenant)
    && job.options.project == (if input.options.project == "" then "default" else input.options.project)
    && job.options.actor == (if input.options.actor == "" then "operator" else input.options.actor)
    && job.options.benchmark == input.options.benchmark && job.options.approvedJob == input.options.approvedJob
    && job.options.approvalReportSHA == input.options.approvalReportSHA
    && job.options.traceParent == input.options.traceParent && job.options.traceState == input.options.traceState
    && job.createdAt == now
  }

  ghost predicate SubmittedAt(steps: seq<Step>, k: nat, job: Job) {
    k < |steps| && steps[k].Submit? && MadeFrom(job, steps[k].input, steps[k].now)
  }

  ghost predicate WasSubmitted(steps: seq<Step>, job: Job) { exists k: nat :: SubmittedAt(steps, k, job) }

  lemma StillSubmitted(front: seq<Step>, e: Step, before: Job, after: Job)
    requires WasSubmitted(front, before) && SameIdentity(before, after) && after.createdAt == before.createdAt
    ensures WasSubmitted(front + [e], after)
  {
    var k: nat :| SubmittedAt(front, k, before);
    assert SubmittedAt(front + [e], k, after);
  }

  lemma SubmittedNow(front: seq<Step>, input: ReceiveInput, now: Time, job: Job)
    requires MadeFrom(job, input, now)
    ensures WasSubmitted(front + [Submit(input, now)], job)
  {
    assert SubmittedAt(front + [Submit(input, now)], |front|, job);
  }

  /** A job that is new is queued at once and says what was submitted. */
  ghost predicate Fresh(job: Job, input: ReceiveInput, now: Time) {
    && MadeFrom(job, input, now) && job.status == Queued && job.attempts == 0 && job.nextAttemptAt == now
    && job.leaseOwner == None && job.updatedAt == now && job.completedAt == None && job.lastError == ""
  }

  lemma NewJobsAreFresh(cfg: Settings, s: State, e: Step, j: Id)
    requires Filed(s) && j in Next(cfg, s, e).store.jobs && j !in s.store.jobs
    ensures e.Submit? && Fresh(Next(cfg, s, e).store.jobs[j], e.input, e.now)
  {
    NewJobsAreQueued(cfg, s, e, j);
    hide Next;
  }

  /* ---- Time stamps ---- */

  /** The clock reading of a step that may rewrite job rows. */
  function ClockOf(e: Step): Time {
    match e
    case Submit(_, now) => now
    case ClaimHeld(now) => now
    case ClaimElsewhere(_, now) => now
    case Finish(_, now) => now
    case Renew(_, now, _) => now
    case Recover(_, now) => now
    case _ => 0
  }

  /** A row that a step changes carries that step's time, except that renewing
      moves the end of the lease alone; it is finished with it when it becomes
      completed or rejected, and nothing else sets or clears that time. */
  ghost predicate Stamped(a: Job, b: Job, now: Time) {
    && b.createdAt == a.createdAt
    && (|| b == a
        || (a.status == Running && b == a.(leaseUntil := b.leaseUntil))
        || (&& b.updatedAt == now
            && b.completedAt == if b.status == Completed || b.status == Rejected then Some(now) else a.completedAt))
  }

  lemma FinishStamps(cfg: Settings, s: State, o: Id, now: Time, j: Id)
    requires j in s.store.jobs
    ensures j in FinishStep(cfg, s, o, now).store.jobs && Stamped(s.store.jobs[j], FinishStep(cfg, s, o, now).store.jobs[j], now)
  {
    hide Choose, Backoff;
  }

  lemma ClaimStamps(cfg: Settings, s: State, event: Event, now: Time, j: Id)
    requires event.Wellformed() && j in s.store.jobs
    ensures var t := ClaimStep(cfg, s, event, now).0; j in t.store.jobs && Stamped(s.store.jobs[j], t.store.jobs[j], now)
  {
    hide Decide;
  }

  lemma RenewStamps(s: State, o: Id, now: Time, lease: int, j: Id)
    requires j in s.store.jobs
    ensures j in RenewStep(s, o, now, lease).store.jobs && Stamped(s.store.jobs[j], RenewStep(s, o, now, lease).store.jobs[j], now)
  {
  }

  lemma RecoverStamps(st: Store, sel: seq<Id>, now: Time, j: Id)
    requires MayRecover(st, sel, now) && j in st.jobs
    ensures j in RecoverAll(st, sel, now).jobs && Stamped(st.jobs[j], RecoverAll(st, sel, now).jobs[j], now)
  {
    Recovery.RecoverRewritesSelection(st, sel, now);
  }

  lemma SubmitStamps(s: State, input: ReceiveInput, now: Time, j: Id)
    requires Filed(s) && j in s.store.jobs
    ensures j in Receive(s.store, input, now).0.jobs && Stamped(s.store.jobs[j], Receive(s.store, input, now).0.jobs[j], now)
  {
    SubmitEndsNoJob(s, input, now, j);
  }

  /** Every step that changes a job's row stamps it with its own time. */
  lemma StepsStamp(cfg: Settings, s: State, e: Step, j: Id)
    requires Filed(s) && j in s.store.jobs
    ensures j in Next(cfg, s, e).store.jobs && Stamped(s.store.jobs[j], Next(cfg, s, e).store.jobs[j], ClockOf(e))
  {
    hide Next, Stamped, FinishStep, ClaimStep, RenewStep, Receive, RecoverAll, MayRecover, Filed;
    SameRowIsStamped(s.store.jobs[j], ClockOf(e));
    if !TouchesJobs(e) {
      JobsUntouched(cfg, s, e);
    } else {
      JobStepsUnfold(cfg, s, e);
      match e
      case Finish(owner, now) => FinishStamps(cfg, s, owner, now, j);
      case Recover(sel, now) =>
        if MayRecover(s.store, sel, now) {
          RecoverStamps(s.store, sel, now, j);
        }
      case ClaimHeld(now) =>
        if s.consumer.Holding? && s.consumer.message.Decoded().Some? {
          ClaimStamps(cfg, s, s.consumer.message.Decoded().value, now, j);
        }
      case ClaimElsewhere(event, now) =>
        if event.Wellformed() {
          ClaimStamps(cfg, s, event, now, j);
        }
      case Renew(owner, now, lease) => RenewStamps(s, owner, now, lease, j);
      case Submit(input, now) => SubmitStamps(s, input, now, j);
    }
  }

  lemma SameRowIsStamped(job: Job, now: Time)
    ensures Stamped(job, job, now)
  {
  }

  /** Completion times belong to completed and rejected jobs alone. */
  ghost predicate DoneWhenTimed(job: Job) { job.completedAt.Some? <==> job.status == Completed || job.status == Rejected }

  lemma StampedStaysTimed(a: Job, b: Job, now: Time, newOwner: Id)
    requires Stamped(a, b, now) && Moves(a, b, newOwner) && DoneWhenTimed(a)
    ensures DoneWhenTimed(b)
  {
  }

  /** Every job in every run was submitted by somebody, with just this pull
      request, SQL, candidate and options, and has a completion time exactly if
      it is completed or rejected. */
  lemma {:induction false} JobsSayWhatWasSubmitted(cfg: Settings, steps: seq<Step>, j: Id)
    requires j in Run(cfg, INITIAL, steps).store.jobs
    ensures var job := Run(cfg, INITIAL, steps).store.jobs[j]; WasSubmitted(steps, job) && DoneWhenTimed(job)
  {
    if steps != [] {
      hide Next, WasSubmitted, MadeFrom, Stamped, Moves;
      var front, e := steps[..|steps| - 1], steps[|steps| - 1];
      assert steps == front + [e];
      var s := Run(cfg, INITIAL, front);
      ReachableInv(cfg, front);
      var job := Run(cfg, INITIAL, steps).store.jobs[j];
      if j in s.store.jobs {
        JobsSayWhatWasSubmitted(cfg, front, j);
        StepMovesJob(cfg, s, e, j);
        StepsStamp(cfg, s, e, j);
        StampedStaysTimed(s.store.jobs[j], job, ClockOf(e), Id("claim", s.store.ids));
        MovesKeepIdentity(s.store.jobs[j], job, Id("claim", s.store.ids), ClockOf(e));
        StillSubmitted(front, e, s.store.jobs[j], job);
      } else {
        NewJobsAreFresh(cfg, s, e, j);
        SubmittedNow(front, e.input, e.now, job);
      }
    }
  }

  lemma MovesKeepIdentity(a: Job, b: Job, newOwner: Id, now: Time)
    requires Moves(a, b, newOwner) && Stamped(a, b, now)
    ensures SameIdentity(a, b) && b.createdAt == a.createdAt
  {
  }

  /* ---- Records ---- */

  /** The record announces its job: its event carries its own identifier, the
      job's and the job's delivery. */
  ghost predicate Announces(s: State, e: Id)
    requires e in s.store.outbox
  {
    var row := s.store.outbox[e];
    && row.jobId in s.store.jobs
    && row.event.schemaVersion == 1 && row.event.eventId == Some(e) && row.event.jobId == Some(row.jobId)
    && row.event.deliveryId == s.store.jobs[row.jobId].deliveryId && row.event.attempt >= 1
  }

  /** A new record: waiting, never tried, for the job's next attempt, and due
      when the job may be claimed. */
  ghost predicate Waiting(t: State, e: Id)
    requires e in t.store.outbox
  {
    var row := t.store.outbox[e];
    && row.pending && row.attempts == 0 && row.jobId in t.store.jobs
    && row.event.attempt == t.store.jobs[row.jobId].attempts + 1 && row.availableAt == t.store.jobs[row.jobId].nextAttemptAt
  }

  lemma FinishedRecordWaits(cfg: Settings, s: State, o: Id, now: Time, e: Id)
    requires Filed(s) && e in FinishStep(cfg, s, o, now).store.outbox && e !in s.store.outbox
    ensures Announces(FinishStep(cfg, s, o, now), e) && Waiting(FinishStep(cfg, s, o, now), e)
  {
    hide Choose, HoldsLease;
  }

  lemma SubmittedRecordWaits(cfg: Settings, s: State, input: ReceiveInput, now: Time, e: Id)
    requires Filed(s)
    requires e in Next(cfg, s, Submit(input, now)).store.outbox && e !in s.store.outbox
    ensures Announces(Next(cfg, s, Submit(input, now)), e) && Waiting(Next(cfg, s, Submit(input, now)), e)
  {
  }

  lemma {:induction false} RecoveredRecordWaits(st: Store, sel: seq<Id>, now: Time, e: Id)
    requires forall j :: j in st.jobs ==> st.jobs[j].id == j
    requires forall i :: 0 <= i < |sel| ==> sel[i] in st.jobs
    requires forall i, k :: 0 <= i < k < |sel| ==> sel[i] != sel[k]
    requires e in RecoverAll(st, sel, now).outbox && e !in st.outbox
    ensures var r := RecoverAll(st, sel, now); var row := r.outbox[e];
      && row.jobId in sel && row.jobId in r.jobs && row.event == EventFor(e, r.jobs[row.jobId], r.jobs[row.jobId].attempts + 1)
      && row.pending && row.attempts == 0 && row.availableAt == r.jobs[row.jobId].nextAttemptAt
  {
    if sel != [] {
      var front, id := sel[..|sel| - 1], sel[|sel| - 1];
      var mid := RecoverAll(st, front, now);
      Recovery.RecoverRewritesSelection(st, front, now);
      Recovery.RecoverAllUnfolds(st, sel, now);
      if e in mid.outbox {
        RecoveredRecordWaits(st, front, now, e);
        assert mid.outbox[e].jobId in front;
      }
    }
  }

  lemma RecoverStepRecordWaits(cfg: Settings, s: State, sel: seq<Id>, now: Time, e: Id)
    requires Filed(s) && e in Next(cfg, s, Recover(sel, now)).store.outbox && e !in s.store.outbox
    ensures Announces(Next(cfg, s, Recover(sel, now)), e) && Waiting(Next(cfg, s, Recover(sel, now)), e)
  {
    hide RecoverAll;
    if MayRecover(s.store, sel, now) {
      RecoveredRecordWaits(s.store, sel, now, e);
      Recovery.RecoverRewritesSelection(s.store, sel, now);
    }
  }

  /** Whoever adds a record, it waits for the job's next attempt. */
  lemma NewRecordsWait(cfg: Settings, s: State, step: Step, e: Id)
    requires Filed(s) && e in Next(cfg, s, step).store.outbox && e !in s.store.outbox
    ensures Announces(Next(cfg, s, step), e) && Waiting(Next(cfg, s, step), e)
  {
    hide Next, FinishStep, Announces, Waiting, Filed;
    if !NoLostJob.TouchesOutbox(step) {
      NoLostJob.OutboxUntouched(cfg, s, step);
    } else {
      OutboxStepsUnfold(cfg, s, step);
      match step
      case Submit(input, now) => SubmittedRecordWaits(cfg, s, input, now, e);
      case Recover(sel, now) => RecoverStepRecordWaits(cfg, s, sel, now, e);
      case Finish(owner, now) => FinishedRecordWaits(cfg, s, owner, now, e);
      case _ =>
    }
  }

  lemma OutboxStepsUnfold(cfg: Settings, s: State, step: Step)
    ensures step.Finish? ==> Next(cfg, s, step) == FinishStep(cfg, s, step.owner, step.now)
    ensures step.MarkDone? || step.MarkFailed? ==> Next(cfg, s, step).store.outbox.Keys == s.store.outbox.Keys
  {
    hide FinishStep;
  }

  ghost predicate AllAnnounce(s: State) { forall e :: e in s.store.outbox ==> Announces(s, e) }

  lemma OneAnnounces(s: State, e: Id)
    requires AllAnnounce(s) && e in s.store.outbox
    ensures Announces(s, e)
  {
  }

  /** In every run every record announces its job. */
  lemma {:induction false} RecordsAnnounceTheirJobs(cfg: Settings, steps: seq<Step>)
    ensures AllAnnounce(Run(cfg, INITIAL, steps))
  {
    if steps != [] {
      hide Next, Announces, Waiting;
      var front, step := steps[..|steps| - 1], steps[|steps| - 1];
      var s := Run(cfg, INITIAL, front);
      RecordsAnnounceTheirJobs(cfg, front);
      ReachableInv(cfg, front);
      NoLostJob.DeliveryInvAlways(cfg, front);
      NoLostJob.InvFilesOutbox(cfg, s);
      var t := Next(cfg, s, step);
      forall e | e in t.store.outbox
        ensures Announces(t, e)
      {
        if e in s.store.outbox {
          OneAnnounces(s, e);
          AnnouncementStays(cfg, s, step, e);
        } else {
          NewRecordsWait(cfg, s, step, e);
        }
      }
    }
  }

  lemma AnnouncementStays(cfg: Settings, s: State, step: Step, e: Id)
    requires Filed(s) && NoLostJob.OutboxFiled(s) && e in s.store.outbox && Announces(s, e)
    ensures e in Next(cfg, s, step).store.outbox && Announces(Next(cfg, s, step), e)
  {
    hide Next;
    NoLostJob.StepKeepsRecord(cfg, s, step, e);
    StepMovesJob(cfg, s, step, s.store.outbox[e].jobId);
  }

  /** A message the relay publishes always decodes, and the attempt it leads to
      is never refused for not matching its job. */
  lemma PublishedMessagesMatch(cfg: Settings, steps: seq<Step>, e: Id, later: seq<Step>)
    requires e in Run(cfg, INITIAL, steps).store.outbox
    ensures var row, t := Run(cfg, INITIAL, steps).store.outbox[e], Run(cfg, INITIAL, steps + later);
      var m := Message(Some(e), Some(row.event));
      && m.Decoded() == Some(row.event) && row.jobId in t.store.jobs
      && forall max, n :: Decide(t.store.jobs[row.jobId].(attempts := n), row.event, max) != Mismatch
  {
    hide Next;
    var s := Run(cfg, INITIAL, steps);
    RecordsAnnounceTheirJobs(cfg, steps);
    ReachableInv(cfg, steps);
    RunAppends(cfg, INITIAL, steps, later);
    OneAnnounces(s, e);
    var j := s.store.outbox[e].jobId;
    NoLostJob.DeliveryInvAlways(cfg, steps);
    JobStays(cfg, s, later, j);
    JobsSayWhatWasSubmitted(cfg, steps + later, j);
    HashesFit(steps + later, Run(cfg, INITIAL, steps + later).store.jobs[j]);
  }

  lemma HashesFit(steps: seq<Step>, job: Job)
    requires WasSubmitted(steps, job)
    ensures job.sqlSHA == Sha(job.sql) && job.candidateSHA == Sha(job.candidate)
  {
    var k: nat :| SubmittedAt(steps, k, job);
  }

  lemma {:induction false} JobStays(cfg: Settings, s: State, steps: seq<Step>, j: Id)
    requires Inv(cfg, s) && j in s.store.jobs
    ensures j in Run(cfg, s, steps).store.jobs && SameIdentity(s.store.jobs[j], Run(cfg, s, steps).store.jobs[j])
  {
    if steps != [] {
      hide Next;
      var front := steps[..|steps| - 1];
      JobStays(cfg, s, front, j);
      InvAlways(cfg, s, front);
      StepMovesJob(cfg, Run(cfg, s, front), steps[|steps| - 1], j);
    }
  }

  /* ---- What a recovery scan looks at ---- */

  /** The job's owner is gone, or the job has been due for a while, untouched for
      five minutes, and no record announces it. */
  ghost predicate Forgotten(st: Store, id: Id, now: Time)
    requires id in st.jobs
  {
    var job := st.jobs[id];
    || (job.status == Running && job.leaseUntil <= now)
    || (&& (job.status == Queued || job.status == Retrying) && job.nextAttemptAt <= now && job.updatedAt + 300_000_000_000 <= now
        && forall e :: e in st.outbox && st.outbox[e].jobId == id ==> !st.outbox[e].pending)
  }

  lemma StaleMeansForgotten(st: Store, id: Id, now: Time)
    requires id in st.jobs && st.jobs[id].id == id
    ensures id in StaleJobs(st, now) <==> Forgotten(st, id, now)
  {
  }

  /** A scan leaves alone every job that is not forgotten: one whose lease is
      live, that is scheduled for later, was touched within five minutes or is
      announced by a pending record, and every finished one. */
  lemma ScanLeavesTheRestAlone(st: Store, now: Time, limit: nat, sel: seq<Id>, id: Id)
    requires Recovery.Consistent(st) && IsSelection(st, now, limit, sel) && id in st.jobs && !Forgotten(st, id, now)
    ensures var r := RecoverAll(st, sel, now);
      && r.jobs[id] == st.jobs[id]
      && forall e :: e in r.outbox && r.outbox[e].jobId == id ==> e in st.outbox && r.outbox[e] == st.outbox[e]
  {
    hide Forgotten, Stale, RecoverAll;
    StaleMeansForgotten(st, id, now);
    Recovery.RecoverRewritesSelection(st, sel, now);
    Recovery.RecoverEnqueuesSelection(st, sel, now);
  }

  /** With room for all, it takes exactly the forgotten ones, and each may be
      claimed at once and is announced at once. */
  lemma ScanTakesTheForgotten(st: Store, now: Time, limit: nat, sel: seq<Id>, id: Id)
    requires Recovery.Consistent(st) && IsSelection(st, now, limit, sel) && limit >= |StaleJobs(st, now)|
    requires id in st.jobs && Forgotten(st, id, now)
    ensures var r := RecoverAll(st, sel, now);
      && id in r.jobs && r.jobs[id].status == Retrying && r.jobs[id].nextAttemptAt == now && r.jobs[id].leaseOwner == None
      && r.jobs[id].attempts == st.jobs[id].attempts && Claimable(r.jobs[id], now)
      && exists e :: e in r.outbox && e !in st.outbox && r.outbox[e].jobId == id && r.outbox[e].pending && r.outbox[e].availableAt == now
  {
    hide Forgotten, Stale, RecoverAll;
    StaleMeansForgotten(st, id, now);
    Recovery.WideScanSelectsEveryStaleJob(st, now, limit, sel);
    Recovery.RecoverRewritesSelection(st, sel, now);
    var e := AnnouncedAtOnce(st, sel, now, id);
  }

  lemma {:induction false} AnnouncedAtOnce(st: Store, sel: seq<Id>, now: Time, id: Id) returns (e: Id)
    requires Recovery.Consistent(st) && id in sel && forall i :: 0 <= i < |sel| ==> sel[i] in st.jobs
    ensures var r := RecoverAll(st, sel, now);
      e in r.outbox && e !in st.outbox && r.outbox[e].jobId == id && r.outbox[e].pending && r.outbox[e].availableAt == now
  {
    var front, last := sel[..|sel| - 1], sel[|sel| - 1];
    Recovery.RecoverEnqueuesSelection(st, front, now);
    Recovery.RecoverAllUnfolds(st, sel, now);
    var mid := RecoverAll(st, front, now);
    if last == id {
      e := Id("recovery", mid.ids);
    } else {
      e := AnnouncedAtOnce(st, front, now, id);
    }
  }
}
