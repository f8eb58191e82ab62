/** Where approvals and benchmark jobs come from: over whole histories every row
    of the approvals table is the decision somebody made, and every benchmark
    job is one somebody asked for. */
module ApprovalHistory {
  import opened JobModel
  import opened Prelude
  import opened JobStore
  import opened WorkflowSystem
  import opened WorkflowSafety
  import opened WorkflowTheorems
  import opened Approvals
  import Deliveries

  ghost function DeskAt(cfg: Settings, validate: Validator, acts: seq<Act>, k: nat): Desk
    requires k <= |acts|
  {
    History(cfg, validate, OPEN, acts[..k])
  }

  lemma DeskBefore(cfg: Settings, validate: Validator, acts: seq<Act>, k: nat)
    requires acts != [] && k < |acts|
    ensures DeskAt(cfg, validate, acts, k) == DeskAt(cfg, validate, acts[..|acts| - 1], k)
    ensures acts[..|acts| - 1] + [acts[|acts| - 1]] == acts
    ensures DeskAt(cfg, validate, acts, |acts| - 1) == History(cfg, validate, OPEN, acts[..|acts| - 1])
  {
    assert acts[..|acts| - 1][..k] == acts[..k];
  }

  /* ---- What a request has been shown ---- */

  /** With its m-th act the client presented the digest of this report. */
  ghost predicate Presented(acts: seq<Act>, m: nat, rid: nat, raw: Bytes) {
    m < |acts| && acts[m] == ReadReport(rid, Sha(raw))
  }

  ghost predicate WasPresented(acts: seq<Act>, rid: nat, raw: Bytes) {
    exists m: nat :: Presented(acts, m, rid, raw)
  }

  lemma StillPresented(acts: seq<Act>, last: Act, rid: nat, raw: Bytes)
    requires WasPresented(acts, rid, raw)
    ensures WasPresented(acts + [last], rid, raw)
  {
    var m: nat :| Presented(acts, m, rid, raw);
    assert Presented(acts + [last], m, rid, raw);
  }

  /** What one act can do to a request. */
  lemma RequestMoves(cfg: Settings, validate: Validator, d: Desk, a: Act, rid: nat)
    requires var t := Apply(cfg, validate, d, a); rid in t.requests && !t.requests[rid].GotJob?
    ensures var r := Apply(cfg, validate, d, a).requests[rid];
      || (rid in d.requests && !d.requests[rid].GotJob? && d.requests[rid].raw == r.raw)
      || a == ReadReport(rid, Sha(r.raw))
  {
    hide Next, Receive;
  }

  /** A checked request is about a report whose digest its client knows. */
  lemma {:induction false} CheckedRequestsPresented(cfg: Settings, validate: Validator, acts: seq<Act>, rid: nat)
    requires rid in History(cfg, validate, OPEN, acts).requests
    ensures var r := History(cfg, validate, OPEN, acts).requests[rid]; !r.GotJob? ==> WasPresented(acts, rid, r.raw)
  {
    if acts != [] {
      var front, last := acts[..|acts| - 1], acts[|acts| - 1];
      assert acts == front + [last];
      var d, r := History(cfg, validate, OPEN, front), History(cfg, validate, OPEN, acts).requests[rid];
      hide Apply, WasPresented;
      if !r.GotJob? {
        RequestMoves(cfg, validate, d, last, rid);
        if last == ReadReport(rid, Sha(r.raw)) {
          PresentedNow(front, rid, r.raw);
        } else {
          CheckedRequestsPresented(cfg, validate, front, rid);
          StillPresented(front, last, rid, r.raw);
        }
      }
    }
  }

  lemma PresentedNow(front: seq<Act>, rid: nat, raw: Bytes)
    ensures WasPresented(front + [ReadReport(rid, Sha(raw))], rid, raw)
  {
    assert Presented(front + [ReadReport(rid, Sha(raw))], |front|, rid, raw);
  }

  /* ---- Decisions ---- */

  /** With its k-th act somebody decided on job j, whose report the request had
      checked, and row a says what they decided, who they were and why. */
  ghost predicate DecidedBy(cfg: Settings, validate: Validator, acts: seq<Act>, k: nat, j: Id, a: Approval) {
    && k < |acts| && acts[k].Decide?
    && var d, act := DeskAt(cfg, validate, acts, k), acts[k];
    && act.rid in d.requests && d.requests[act.rid].Checked? && d.requests[act.rid].job.id == j
    && j !in d.approvals && WasPresented(acts[..k], act.rid, d.requests[act.rid].raw)
    && j in d.core.reports && d.requests[act.rid].raw == d.core.reports[j].content
    && a.reportSHA == Sha(d.core.reports[j].content) && a.candidateSHA == Sha(d.requests[act.rid].candidate)
    && a.approved == act.approve && a.actor == act.who.subject && a.reason == act.reason && a.byAdmin == act.who.admin
    && (exists i :: 0 <= i < |act.reason| && !IsSpace(act.reason[i] as int))
    && (act.who.subject == d.requests[act.rid].job.options.actor ==> act.who.admin)
  }

  ghost predicate WasDecided(cfg: Settings, validate: Validator, acts: seq<Act>, j: Id, a: Approval) {
    exists k: nat :: DecidedBy(cfg, validate, acts, k, j, a)
  }

  lemma StillDecided(cfg: Settings, validate: Validator, acts: seq<Act>, j: Id, a: Approval)
    requires acts != [] && WasDecided(cfg, validate, acts[..|acts| - 1], j, a)
    ensures WasDecided(cfg, validate, acts, j, a)
  {
    var front := acts[..|acts| - 1];
    var k: nat :| DecidedBy(cfg, validate, front, k, j, a);
    DeskBefore(cfg, validate, acts, k);
    assert front[..k] == acts[..k];
    assert DecidedBy(cfg, validate, acts, k, j, a);
  }

  lemma DecideRecords(d: Desk, rid: nat, approve: bool, who: Principal, reason: string, j: Id)
    requires var t := DecideAct(d, rid, approve, who, reason); j in t.approvals && j !in d.approvals
    ensures rid in d.requests && d.requests[rid].Checked? && d.requests[rid].job.id == j
    ensures var r, a := d.requests[rid], DecideAct(d, rid, approve, who, reason).approvals[j];
      && a.reportSHA == Sha(r.raw) && a.candidateSHA == Sha(r.candidate)
      && a.approved == approve && a.actor == who.subject && a.reason == reason && a.byAdmin == who.admin
      && (exists i :: 0 <= i < |reason| && !IsSpace(reason[i] as int))
      && (who.subject == r.job.options.actor ==> who.admin)
  {
  }

  lemma OnlyDecisionsAddRows(cfg: Settings, validate: Validator, d: Desk, a: Act, j: Id)
    requires j in Apply(cfg, validate, d, a).approvals
    ensures j in d.approvals && !a.Decide? ==> Apply(cfg, validate, d, a).approvals[j] == d.approvals[j]
    ensures j !in d.approvals ==> a.Decide?
  {
    hide Next, Receive;
  }

  lemma NewRowIsADecision(cfg: Settings, validate: Validator, acts: seq<Act>, j: Id)
    requires acts != [] && j in History(cfg, validate, OPEN, acts).approvals
    requires j !in History(cfg, validate, OPEN, acts[..|acts| - 1]).approvals
    ensures WasDecided(cfg, validate, acts, j, History(cfg, validate, OPEN, acts).approvals[j])
  {
    hide Apply, DecideAct, Inv, LogInv;
    var front, last := acts[..|acts| - 1], acts[|acts| - 1];
    var d := History(cfg, validate, OPEN, front);
    OnlyDecisionsAddRows(cfg, validate, d, last, j);
    DecideIsApplied(cfg, validate, d, last);
    DecideRecords(d, last.rid, last.approve, last.who, last.reason, j);
    CheckedRequestsPresented(cfg, validate, front, last.rid);
    DeskInvAlways(cfg, validate, front);
    assert RequestOk(validate, d, d.requests[last.rid]);
    DeskBefore(cfg, validate, acts, |acts| - 1);
    assert DecidedBy(cfg, validate, acts, |acts| - 1, j, History(cfg, validate, OPEN, acts).approvals[j]);
  }

  lemma DecideIsApplied(cfg: Settings, validate: Validator, d: Desk, a: Act)
    requires a.Decide?
    ensures Apply(cfg, validate, d, a) == DecideAct(d, a.rid, a.approve, a.who, a.reason)
  {
    hide DecideAct;
  }

  /** Every row of the approvals table is the decision that somebody made on the
      job's current report: approved if they approved it, rejected if not, with
      their name and their reason, which is not blank. */
  lemma {:induction false} RowsAreDecisions(cfg: Settings, validate: Validator, acts: seq<Act>, j: Id)
    requires j in History(cfg, validate, OPEN, acts).approvals
    ensures WasDecided(cfg, validate, acts, j, History(cfg, validate, OPEN, acts).approvals[j])
  {
    hide Apply, WasDecided;
    if acts != [] {
      var front := acts[..|acts| - 1];
      if j in History(cfg, validate, OPEN, front).approvals {
        RowsAreDecisions(cfg, validate, front, j);
        StillDecided(cfg, validate, acts, j, History(cfg, validate, OPEN, front).approvals[j]);
        assert acts == front + [acts[|acts| - 1]];
        ApprovalsOnlyGrow(cfg, validate, front, [acts[|acts| - 1]], j);
      } else {
        NewRowIsADecision(cfg, validate, acts, j);
      }
    }
  }

  /** The other way round: the first proper decision on a checked report is the
      one on record. */
  lemma ProperDecisionsAreRecorded(d: Desk, rid: nat, approve: bool, who: Principal, reason: string)
    requires rid in d.requests && d.requests[rid].Checked?
    ensures var j := d.requests[rid].job.id; var t := DecideAct(d, rid, approve, who, reason);
      var proper := (exists i :: 0 <= i < |reason| && !IsSpace(reason[i] as int))
        && (who.admin || who.subject != d.requests[rid].job.options.actor);
      && (proper && j !in d.approvals ==> j in t.approvals && t.approvals[j].approved == approve)
      && (!proper || j in d.approvals ==> t.approvals == d.approvals)
  {
  }

  /** A request about a completed job goes through when it presents the digest
      of the report on file and the report's proposal is valid, and is cleared
      when the approval on record is of that report and candidate. */
  lemma ProperRequestsGoThrough(validate: Validator, d: Desk, rid: nat, sha: Sha)
    requires rid in d.requests
    ensures d.requests[rid].GotJob? ==>
      var job := d.requests[rid].job; var t := ReadReportAct(validate, d, rid, sha);
      var proper := job.id in d.core.reports && job.status == Completed && sha == Sha(d.core.reports[job.id].content)
                    && validate(d.core.reports[job.id].content, job.sql).Some?;
      && (proper ==> rid in t.requests && t.requests[rid] == Checked(job, d.core.reports[job.id].content,
                                                                     validate(d.core.reports[job.id].content, job.sql).value))
      && (!proper ==> rid !in t.requests)
    ensures d.requests[rid].Checked? ==>
      var r := d.requests[rid]; var t := ReadApprovalAct(d, rid);
      var approved := r.job.id in d.approvals && d.approvals[r.job.id].approved
                      && d.approvals[r.job.id].reportSHA == Sha(r.raw) && d.approvals[r.job.id].candidateSHA == Sha(r.candidate);
      && (approved ==> rid in t.requests && t.requests[rid] == Cleared(r.job, r.raw, r.candidate))
      && (!approved ==> rid !in t.requests)
  {
  }

  /** Somebody approved job a, and said so. */
  ghost predicate ApprovedBySomebody(cfg: Settings, validate: Validator, acts: seq<Act>, a: Id) {
    exists k: nat :: k < |acts| && acts[k].Decide? && acts[k].approve && ApprovedWith(cfg, validate, acts, k, a)
  }

  ghost predicate ApprovedWith(cfg: Settings, validate: Validator, acts: seq<Act>, k: nat, a: Id) {
    a in History(cfg, validate, OPEN, acts).approvals && DecidedBy(cfg, validate, acts, k, a, History(cfg, validate, OPEN, acts).approvals[a])
  }

  /** A job that passes the worker's gate, however it was submitted, names a job
      whose report somebody has approved: not rejected, not left open. */
  lemma PassingNeedsAnApproval(cfg: Settings, validate: Validator, acts: seq<Act>, b: Id)
    requires var d := History(cfg, validate, OPEN, acts); b in d.core.store.jobs && PassesGate(d.approvals, d.core.store.jobs[b])
    ensures ApprovedBySomebody(cfg, validate, acts, History(cfg, validate, OPEN, acts).core.store.jobs[b].options.approvedJob.value)
  {
    var d := History(cfg, validate, OPEN, acts);
    var a := d.core.store.jobs[b].options.approvedJob.value;
    RowsAreDecisions(cfg, validate, acts, a);
    var k: nat :| DecidedBy(cfg, validate, acts, k, a, d.approvals[a]);
    assert ApprovedWith(cfg, validate, acts, k, a);
  }

  /* ---- Benchmark jobs ---- */

  /** The job is the benchmark of what the request was cleared for, under the
      delivery and in the name of whoever asked. */
  ghost predicate AskedFor(d: Desk, a: Act, job: Job) {
    && a.Create? && a.rid in d.requests && d.requests[a.rid].Cleared?
    && var r := d.requests[a.rid];
    && job.options.benchmark && job.options.approvedJob == Some(r.job.id) && job.options.approvalReportSHA == Some(Sha(r.raw))
    && job.sql == r.job.sql && job.candidate == r.candidate && job.prNumber == r.job.prNumber
    && job.deliveryId == a.deliveryId
    && job.options.tenant == (if a.who.tenant == "" then "operator" else a.who.tenant)
    && job.options.project == (if a.who.project == "" then "default" else a.who.project)
    && job.options.actor == (if a.who.subject == "" then "operator" else a.who.subject)
  }

  ghost predicate AskedAt(cfg: Settings, validate: Validator, acts: seq<Act>, k: nat, job: Job) {
    k < |acts| && AskedFor(DeskAt(cfg, validate, acts, k), acts[k], job)
  }

  ghost predicate WasAskedFor(cfg: Settings, validate: Validator, acts: seq<Act>, job: Job) {
    exists k: nat :: AskedAt(cfg, validate, acts, k, job)
  }

  lemma StillAskedFor(cfg: Settings, validate: Validator, acts: seq<Act>, before: Job, after: Job)
    requires acts != [] && WasAskedFor(cfg, validate, acts[..|acts| - 1], before) && SameIdentity(before, after)
    ensures WasAskedFor(cfg, validate, acts, after)
  {
    var front := acts[..|acts| - 1];
    var k: nat :| AskedAt(cfg, validate, front, k, before);
    DeskBefore(cfg, validate, acts, k);
    assert AskedAt(cfg, validate, acts, k, after);
  }

  /** The core moves by steps of the workflow only. */
  lemma CoreMoves(cfg: Settings, validate: Validator, d: Desk, a: Act) returns (e: Option<Step>)
    ensures Apply(cfg, validate, d, a).core == if e.Some? then Next(cfg, d.core, e.value) else d.core
  {
    hide Next, Receive;
    e := None;
    if a.Work? {
      e := Some(a.step);
    } else if a.Create? && a.rid in d.requests && d.requests[a.rid].Cleared? {
      var r := d.requests[a.rid];
      e := Some(Submit(BenchmarkInput(r.job, r.raw, r.candidate, a.deliveryId, a.who), a.now));
    }
  }

  lemma {:induction false} CoreIsIndexed(cfg: Settings, validate: Validator, acts: seq<Act>)
    ensures Deliveries.Indexed(History(cfg, validate, OPEN, acts).core)
  {
    if acts != [] {
      hide Apply, Next, Inv, LogInv;
      var front, last := acts[..|acts| - 1], acts[|acts| - 1];
      CoreIsIndexed(cfg, validate, front);
      DeskInvAlways(cfg, validate, front);
      var d := History(cfg, validate, OPEN, front);
      var e := CoreMoves(cfg, validate, d, last);
      if e.Some? {
        InvFiles(cfg, d.core);
        Deliveries.IndexStep(cfg, d.core, e.value);
      }
    }
  }

  lemma InvFiles(cfg: Settings, s: State)
    requires Inv(cfg, s)
    ensures Filed(s)
  {
  }

  /** What `Receive` answers a benchmark request with, whether it files a new
      job or finds one. */
  lemma ReceivedBenchmark(s: State, job: Job, raw: Bytes, candidate: Bytes, deliveryId: string, who: Principal, now: Time)
    requires Deliveries.Indexed(s) && (forall j :: j in s.store.jobs ==> Hashed(s.store.jobs[j]) && s.store.jobs[j].id == j)
    requires Receive(s.store, BenchmarkInput(job, raw, candidate, deliveryId, who), now).1.Accepted?
    ensures var (st, r) := Receive(s.store, BenchmarkInput(job, raw, candidate, deliveryId, who), now); var made := r.job;
      && made.id in st.jobs && st.jobs[made.id] == made
      && made.options.benchmark && made.options.approvedJob == Some(job.id) && made.options.approvalReportSHA == Some(Sha(raw))
      && made.sql == job.sql && made.candidate == candidate && made.prNumber == job.prNumber && made.deliveryId == deliveryId
      && made.options.tenant == (if who.tenant == "" then "operator" else who.tenant)
      && made.options.project == (if who.project == "" then "default" else who.project)
      && made.options.actor == (if who.subject == "" then "operator" else who.subject)
  {
  }

  lemma CreateRecords(cfg: Settings, validate: Validator, d: Desk, a: Act, c: Id)
    requires DeskInv(cfg, validate, d) && Deliveries.Indexed(d.core)
    requires c in Apply(cfg, validate, d, a).created && c !in d.created
    ensures c in Apply(cfg, validate, d, a).core.store.jobs && AskedFor(d, a, Apply(cfg, validate, d, a).core.store.jobs[c])
  {
    hide Inv, LogInv, Receive, Deliveries.Indexed, Hashed;
    OnlyCreateCreates(cfg, validate, d, a, c);
    var r := d.requests[a.rid];
    InvFilesJobs(cfg, d.core);
    ReceivedBenchmark(d.core, r.job, r.raw, r.candidate, a.deliveryId, a.who, a.now);
  }

  lemma OnlyCreateCreates(cfg: Settings, validate: Validator, d: Desk, a: Act, c: Id)
    requires c in Apply(cfg, validate, d, a).created && c !in d.created
    ensures a.Create? && a.rid in d.requests && d.requests[a.rid].Cleared?
    ensures var r := d.requests[a.rid];
      var (st, answer) := Receive(d.core.store, BenchmarkInput(r.job, r.raw, r.candidate, a.deliveryId, a.who), a.now);
      answer.Accepted? && answer.job.id == c && Apply(cfg, validate, d, a).core.store == st
  {
    hide Receive;
  }

  /** Every benchmark job the server has answered with is marked as one and is,
      in every field, what a cleared request asked for. */
  lemma {:induction false} CreatedJobsWereAskedFor(cfg: Settings, validate: Validator, acts: seq<Act>, c: Id)
    requires c in History(cfg, validate, OPEN, acts).created
    ensures var d := History(cfg, validate, OPEN, acts);
      c in d.core.store.jobs && WasAskedFor(cfg, validate, acts, d.core.store.jobs[c])
  {
    hide Apply, WasAskedFor, AskedFor, Inv, LogInv, Next;
    if acts != [] {
      var front, last := acts[..|acts| - 1], acts[|acts| - 1];
      var d := History(cfg, validate, OPEN, front);
      DeskInvAlways(cfg, validate, front);
      if c in d.created {
        CreatedJobsWereAskedFor(cfg, validate, front, c);
        var e := CoreMoves(cfg, validate, d, last);
        if e.Some? {
          InvFiles(cfg, d.core);
          StepMovesJob(cfg, d.core, e.value, c);
        }
        StillAskedFor(cfg, validate, acts, d.core.store.jobs[c], History(cfg, validate, OPEN, acts).core.store.jobs[c]);
      } else {
        CoreIsIndexed(cfg, validate, front);
        CreateRecords(cfg, validate, d, last, c);
        DeskBefore(cfg, validate, acts, |acts| - 1);
        AskedNow(cfg, validate, acts, History(cfg, validate, OPEN, acts).core.store.jobs[c]);
      }
    }
  }

  lemma AskedNow(cfg: Settings, validate: Validator, acts: seq<Act>, job: Job)
    requires acts != [] && AskedFor(DeskAt(cfg, validate, acts, |acts| - 1), acts[|acts| - 1], job)
    ensures WasAskedFor(cfg, validate, acts, job)
  {
    assert AskedAt(cfg, validate, acts, |acts| - 1, job);
  }
}
