/** Approval of candidate reports and the benchmark jobs they admit, on top of
    the workflow.  A request reads the job, then the report, then the approval
    in separate statements, with anything happening in between. */
module Approvals {
  import opened JobModel
  import opened Prelude
  import opened JobStore
  import opened Worker
  import opened WorkflowSystem
  import opened WorkflowSafety
  import opened WorkflowTheorems

  /** Decoding of a stored report and validation of its proposal against the
      job's SQL: the canonical candidate, or None where the server answers
      "candidate not ready". */
  type Validator = (Bytes, Bytes) -> Option<Bytes>

  datatype Principal = Principal(tenant: string, project: string, subject: string, admin: bool)

  /** A row of the approvals table; `byAdmin` is what the audit row records. */
  datatype Approval = Approval(approved: bool, reportSHA: Sha, candidateSHA: Sha, sqlSHA: Sha,
                               actor: string, reason: string, byAdmin: bool)

  datatype Request =
    | GotJob(job: Job)
    | Checked(job: Job, raw: Bytes, candidate: Bytes)
    | Cleared(job: Job, raw: Bytes, candidate: Bytes)

  /** `created` collects the benchmark jobs the server has answered with. */
  datatype Desk = Desk(core: State, approvals: map<Id, Approval>, requests: map<nat, Request>, created: set<Id>)

  const OPEN: Desk := Desk(INITIAL, map[], map[], {})

  datatype Act =
    | Work(step: Step)
    | ReadJob(rid: nat, job: Id)
    | ReadReport(rid: nat, sha: Sha)
    | Decide(rid: nat, approve: bool, who: Principal, reason: string)
    | ReadApproval(rid: nat)
    | Create(rid: nat, deliveryId: string, who: Principal, now: Time)

  /** `strings.TrimSpace(text) == ""`. */
  predicate Blank(text: string) {
    forall i :: 0 <= i < |text| ==> IsSpace(text[i] as int)
  }

  function Drop(d: Desk, rid: nat): Desk {
    d.(requests := d.requests - {rid})
  }

  function ReadReportAct(validate: Validator, d: Desk, rid: nat, sha: Sha): Desk {
    if rid in d.requests && d.requests[rid].GotJob? then
      var job := d.requests[rid].job;
      if job.id !in d.core.reports || !job.status.Completed? then Drop(d, rid)
      else
        var raw := d.core.reports[job.id].content;
        if sha != Sha(raw) then Drop(d, rid)
        else
          match validate(raw, job.sql)
          case None => Drop(d, rid)
          case Some(candidate) => d.(requests := d.requests[rid := Checked(job, raw, candidate)])
    else d
  }

  /** The insert succeeds only for the first decision on a job. */
  function DecideAct(d: Desk, rid: nat, approve: bool, who: Principal, reason: string): Desk {
    if rid in d.requests && d.requests[rid].Checked? then
      var Checked(job, raw, candidate) := d.requests[rid];
      if Blank(reason) || (!who.admin && who.subject == job.options.actor) || job.id in d.approvals then Drop(d, rid)
      else
        Drop(d.(approvals := d.approvals[job.id :=
          Approval(approve, Sha(raw), Sha(candidate), job.sqlSHA, who.subject, reason, who.admin)]), rid)
    else d
  }

  function ReadApprovalAct(d: Desk, rid: nat): Desk {
    if rid in d.requests && d.requests[rid].Checked? then
      var Checked(job, raw, candidate) := d.requests[rid];
      if job.id in d.approvals && d.approvals[job.id].approved
         && d.approvals[job.id].reportSHA == Sha(raw) && d.approvals[job.id].candidateSHA == Sha(candidate)
      then d.(requests := d.requests[rid := Cleared(job, raw, candidate)])
      else Drop(d, rid)
    else d
  }

  function BenchmarkInput(job: Job, raw: Bytes, candidate: Bytes, deliveryId: string, who: Principal): ReceiveInput {
    ReceiveInput(Options("", "", who.tenant, who.project, who.subject, true, Some(job.id), Some(Sha(raw))),
                 deliveryId, job.prNumber, job.sql, candidate)
  }

  function CreateAct(cfg: Settings, d: Desk, rid: nat, deliveryId: string, who: Principal, now: Time): Desk {
    if rid in d.requests && d.requests[rid].Cleared? then
      var Cleared(job, raw, candidate) := d.requests[rid];
      var input := BenchmarkInput(job, raw, candidate, deliveryId, who);
      var r := Receive(d.core.store, input, now).1;
      Drop(d.(core := Next(cfg, d.core, Submit(input, now)),
              created := if r.Accepted? then d.created + {r.job.id} else d.created), rid)
    else d
  }

  function Apply(cfg: Settings, validate: Validator, d: Desk, a: Act): Desk {
    match a
    case Work(step) => d.(core := Next(cfg, d.core, step))
    case ReadJob(rid, id) =>
      if id in d.core.store.jobs then d.(requests := d.requests[rid := GotJob(d.core.store.jobs[id])]) else d
    case ReadReport(rid, sha) => ReadReportAct(validate, d, rid, sha)
    case Decide(rid, approve, who, reason) => DecideAct(d, rid, approve, who, reason)
    case ReadApproval(rid) => ReadApprovalAct(d, rid)
    case Create(rid, deliveryId, who, now) => CreateAct(cfg, d, rid, deliveryId, who, now)
  }

  function History(cfg: Settings, validate: Validator, d: Desk, acts: seq<Act>): Desk {
    if acts == [] then d
    else Apply(cfg, validate, History(cfg, validate, d, acts[..|acts| - 1]), acts[|acts| - 1])
  }

  /** The worker's gate for benchmark jobs. */
  predicate PassesGate(approvals: map<Id, Approval>, job: Job) {
    && job.options.approvedJob.Some? && job.options.approvedJob.value in approvals
    && var a := approvals[job.options.approvedJob.value];
    && a.approved && job.options.approvalReportSHA == Some(a.reportSHA)
    && a.candidateSHA == job.candidateSHA && a.sqlSHA == job.sqlSHA
  }

  /* ---- Invariants ---- */

  ghost predicate Hashed(job: Job) {
    job.sqlSHA == Sha(job.sql) && job.candidateSHA == Sha(job.candidate)
  }

  /** A completed job with this report on file, whose valid proposal is `candidate`. */
  ghost predicate Settled(validate: Validator, s: State, job: Job, raw: Bytes, candidate: Bytes) {
    && job.id in s.store.jobs && SameIdentity(job, s.store.jobs[job.id]) && s.store.jobs[job.id].status.Completed?
    && job.id in s.reports && s.reports[job.id].content == raw
    && validate(raw, job.sql) == Some(candidate)
  }

  ghost predicate RequestOk(validate: Validator, d: Desk, r: Request) {
    match r
    case GotJob(job) =>
      && job.id in d.core.store.jobs && SameIdentity(job, d.core.store.jobs[job.id])
      && (job.status.Completed? ==> d.core.store.jobs[job.id].status.Completed?)
    case Checked(job, raw, candidate) => Settled(validate, d.core, job, raw, candidate)
    case Cleared(job, raw, candidate) =>
      && Settled(validate, d.core, job, raw, candidate)
      && job.id in d.approvals && d.approvals[job.id].approved
      && d.approvals[job.id].reportSHA == Sha(raw) && d.approvals[job.id].candidateSHA == Sha(candidate)
  }

  /** An approval is bound to the job's report as it stands. */
  ghost predicate ApprovalOk(validate: Validator, s: State, j: Id, a: Approval) {
    && j in s.store.jobs && s.store.jobs[j].status.Completed? && j in s.reports
    && a.reportSHA == Sha(s.reports[j].content)
    && validate(s.reports[j].content, s.store.jobs[j].sql) == Some(a.candidateSHA.input)
    && a.sqlSHA == Sha(s.store.jobs[j].sql)
    && (a.actor == s.store.jobs[j].options.actor ==> a.byAdmin)
  }

  ghost predicate DeskInv(cfg: Settings, validate: Validator, d: Desk) {
    && Inv(cfg, d.core) && LogInv(d.core)
    && (forall j :: j in d.core.store.jobs ==> Hashed(d.core.store.jobs[j]))
    && (forall rid :: rid in d.requests ==> RequestOk(validate, d, d.requests[rid]))
    && (forall j :: j in d.approvals ==> ApprovalOk(validate, d.core, j, d.approvals[j]))
    && (forall c :: c in d.created ==> c in d.core.store.jobs && PassesGate(d.approvals, d.core.store.jobs[c]))
  }

  lemma CompletedStays(cfg: Settings, s: State, e: Step, j: Id)
    requires Inv(cfg, s) && j in s.store.jobs && s.store.jobs[j].status.Completed? && j in s.reports
    ensures var t := Next(cfg, s, e);
      j in t.store.jobs && t.store.jobs[j] == s.store.jobs[j] && j in t.reports && t.reports[j] == s.reports[j]
  {
    hide Next;
    StepMovesJob(cfg, s, e, j);
    ReportsMove(cfg, s, e);
  }

  lemma RequestStaysOk(cfg: Settings, validate: Validator, d: Desk, e: Step, rid: nat)
    requires DeskInv(cfg, validate, d) && rid in d.requests
    ensures RequestOk(validate, d.(core := Next(cfg, d.core, e)), d.requests[rid])
  {
    hide Next;
    var r := d.requests[rid];
    assert RequestOk(validate, d, r);
    StepMovesJob(cfg, d.core, e, r.job.id);
    if !r.GotJob? {
      CompletedStays(cfg, d.core, e, r.job.id);
    }
  }

  lemma HashesStay(cfg: Settings, s: State, e: Step, j: Id)
    requires Inv(cfg, s) && (forall i :: i in s.store.jobs ==> Hashed(s.store.jobs[i]))
    requires j in Next(cfg, s, e).store.jobs
    ensures Hashed(Next(cfg, s, e).store.jobs[j])
  {
    hide Next;
    if j in s.store.jobs {
      StepMovesJob(cfg, s, e, j);
    } else {
      NewJobsAreQueued(cfg, s, e, j);
    }
  }

  /** Workflow steps, whichever they are, keep every request and approval bound. */
  lemma WorkKeepsInv(cfg: Settings, validate: Validator, d: Desk, e: Step)
    requires DeskInv(cfg, validate, d)
    ensures DeskInv(cfg, validate, d.(core := Next(cfg, d.core, e)))
  {
    hide Next, Inv, LogInv, RequestOk, Hashed, Moves;
    var t := d.(core := Next(cfg, d.core, e));
    InvStep(cfg, d.core, e);
    LogInvStep(cfg, d.core, e);
    forall j | j in t.core.store.jobs
      ensures Hashed(t.core.store.jobs[j])
    {
      HashesStay(cfg, d.core, e, j);
    }
    forall rid | rid in d.requests
      ensures RequestOk(validate, t, d.requests[rid])
    {
      RequestStaysOk(cfg, validate, d, e, rid);
    }
    forall j | j in d.approvals
      ensures ApprovalOk(validate, t.core, j, d.approvals[j])
    {
      CompletedStays(cfg, d.core, e, j);
    }
    forall c | c in d.created
      ensures c in t.core.store.jobs && PassesGate(d.approvals, t.core.store.jobs[c])
    {
      GateStays(cfg, d.core, e, c, d.approvals);
    }
  }

  lemma GateStays(cfg: Settings, s: State, e: Step, c: Id, approvals: map<Id, Approval>)
    requires Inv(cfg, s) && c in s.store.jobs && PassesGate(approvals, s.store.jobs[c])
    ensures c in Next(cfg, s, e).store.jobs && PassesGate(approvals, Next(cfg, s, e).store.jobs[c])
  {
    hide Next;
    StepMovesJob(cfg, s, e, c);
  }

  lemma ReadJobKeepsInv(cfg: Settings, validate: Validator, d: Desk, rid: nat, id: Id)
    requires DeskInv(cfg, validate, d)
    ensures DeskInv(cfg, validate, Apply(cfg, validate, d, ReadJob(rid, id)))
  {
    hide Inv, LogInv;
    assert id in d.core.store.jobs ==> d.core.store.jobs[id].id == id by {
      InvFilesJobs(cfg, d.core);
    }
  }

  lemma InvFilesJobs(cfg: Settings, s: State)
    requires Inv(cfg, s)
    ensures forall j :: j in s.store.jobs ==> s.store.jobs[j].id == j
  {
  }

  lemma ReadReportKeepsInv(cfg: Settings, validate: Validator, d: Desk, rid: nat, sha: Sha)
    requires DeskInv(cfg, validate, d)
    ensures DeskInv(cfg, validate, ReadReportAct(validate, d, rid, sha))
  {
    hide Inv, LogInv, Hashed, PassesGate, ApprovalOk;
    if rid in d.requests {
      assert RequestOk(validate, d, d.requests[rid]);
    }
  }

  /** What a decision may do to the desk: add rows, close requests. */
  ghost predicate Grown(d: Desk, t: Desk) {
    && t.core == d.core && t.created == d.created
    && (forall rid :: rid in t.requests ==> rid in d.requests && t.requests[rid] == d.requests[rid])
    && (forall j :: j in d.approvals ==> j in t.approvals && t.approvals[j] == d.approvals[j])
  }

  lemma DecideGrows(d: Desk, rid: nat, approve: bool, who: Principal, reason: string)
    ensures Grown(d, DecideAct(d, rid, approve, who, reason))
  {
  }

  lemma NewApprovalOk(cfg: Settings, validate: Validator, d: Desk, rid: nat, approve: bool, who: Principal, reason: string, j: Id)
    requires DeskInv(cfg, validate, d)
    requires var t := DecideAct(d, rid, approve, who, reason); j in t.approvals && j !in d.approvals
    ensures ApprovalOk(validate, d.core, j, DecideAct(d, rid, approve, who, reason).approvals[j])
  {
    hide Inv, LogInv, PassesGate;
    assert RequestOk(validate, d, d.requests[rid]);
    assert Hashed(d.core.store.jobs[j]);
  }

  lemma GrownKeepsRequest(validate: Validator, d: Desk, t: Desk, r: Request)
    requires Grown(d, t) && RequestOk(validate, d, r)
    ensures RequestOk(validate, t, r)
  {
  }

  lemma GrownKeepsGate(d: Desk, t: Desk, job: Job)
    requires Grown(d, t) && PassesGate(d.approvals, job)
    ensures PassesGate(t.approvals, job)
  {
  }

  /** A second decision never reaches the table, so rows are only ever added. */
  lemma DecideKeepsInv(cfg: Settings, validate: Validator, d: Desk, rid: nat, approve: bool, who: Principal, reason: string)
    requires DeskInv(cfg, validate, d)
    ensures var t := DecideAct(d, rid, approve, who, reason);
      && DeskInv(cfg, validate, t)
      && (forall j :: j in d.approvals ==> j in t.approvals && t.approvals[j] == d.approvals[j])
  {
    hide Inv, LogInv, DecideAct, Hashed, RequestOk, ApprovalOk, PassesGate;
    var t := DecideAct(d, rid, approve, who, reason);
    DecideGrows(d, rid, approve, who, reason);
    forall other | other in t.requests
      ensures RequestOk(validate, t, t.requests[other])
    {
      GrownKeepsRequest(validate, d, t, d.requests[other]);
    }
    forall c | c in t.created
      ensures c in t.core.store.jobs && PassesGate(t.approvals, t.core.store.jobs[c])
    {
      GrownKeepsGate(d, t, d.core.store.jobs[c]);
    }
    forall j | j in t.approvals
      ensures ApprovalOk(validate, t.core, j, t.approvals[j])
    {
      if j !in d.approvals {
        NewApprovalOk(cfg, validate, d, rid, approve, who, reason, j);
      }
    }
  }

  lemma ReadApprovalKeepsInv(cfg: Settings, validate: Validator, d: Desk, rid: nat)
    requires DeskInv(cfg, validate, d)
    ensures DeskInv(cfg, validate, ReadApprovalAct(d, rid))
  {
    hide Inv, LogInv, Hashed, PassesGate, ApprovalOk;
    if rid in d.requests {
      assert RequestOk(validate, d, d.requests[rid]);
    }
  }

  /** The job a cleared request is answered with, new or a duplicate of an
      earlier identical delivery, passes the worker's gate. */
  lemma AnsweredJobPasses(cfg: Settings, validate: Validator, d: Desk, rid: nat, deliveryId: string, who: Principal, now: Time)
    requires DeskInv(cfg, validate, d) && rid in d.requests && d.requests[rid].Cleared?
    requires var r := d.requests[rid];
      Receive(d.core.store, BenchmarkInput(r.job, r.raw, r.candidate, deliveryId, who), now).1.Accepted?
    ensures var r := d.requests[rid]; var input := BenchmarkInput(r.job, r.raw, r.candidate, deliveryId, who);
      var (st, result) := Receive(d.core.store, input, now);
      result.job.id in st.jobs && st.jobs[result.job.id] == result.job && PassesGate(d.approvals, result.job)
  {
    hide LogInv;
    var r := d.requests[rid];
    assert RequestOk(validate, d, r);
    assert ApprovalOk(validate, d.core, r.job.id, d.approvals[r.job.id]);
    assert Hashed(d.core.store.jobs[r.job.id]);
    InvFilesJobs(cfg, d.core);
  }

  lemma CreateKeepsInv(cfg: Settings, validate: Validator, d: Desk, rid: nat, deliveryId: string, who: Principal, now: Time)
    requires DeskInv(cfg, validate, d)
    ensures DeskInv(cfg, validate, CreateAct(cfg, d, rid, deliveryId, who, now))
  {
    hide Inv, LogInv, RequestOk, Hashed, ApprovalOk, PassesGate, Receive;
    if rid in d.requests && d.requests[rid].Cleared? {
      var r := d.requests[rid];
      var input := BenchmarkInput(r.job, r.raw, r.candidate, deliveryId, who);
      WorkKeepsInv(cfg, validate, d, Submit(input, now));
      var w, t := d.(core := Next(cfg, d.core, Submit(input, now))), CreateAct(cfg, d, rid, deliveryId, who, now);
      if Receive(d.core.store, input, now).1.Accepted? {
        AnsweredJobPasses(cfg, validate, d, rid, deliveryId, who, now);
      }
      forall other | other in t.requests
        ensures RequestOk(validate, t, t.requests[other])
      {
        assert RequestOk(validate, w, w.requests[other]);
        SameDeskSameRequest(validate, w, t, t.requests[other]);
      }
    }
  }

  lemma SameDeskSameRequest(validate: Validator, d: Desk, t: Desk, r: Request)
    requires RequestOk(validate, d, r) && t.core == d.core && t.approvals == d.approvals
    ensures RequestOk(validate, t, r)
  {
  }

  lemma ApplyKeepsInv(cfg: Settings, validate: Validator, d: Desk, a: Act)
    requires DeskInv(cfg, validate, d)
    ensures DeskInv(cfg, validate, Apply(cfg, validate, d, a))
    ensures forall j :: j in d.approvals ==>
      j in Apply(cfg, validate, d, a).approvals && Apply(cfg, validate, d, a).approvals[j] == d.approvals[j]
  {
    hide DeskInv;
    match a
    case Work(step) => WorkKeepsInv(cfg, validate, d, step);
    case ReadJob(rid, id) => ReadJobKeepsInv(cfg, validate, d, rid, id);
    case ReadReport(rid, sha) => ReadReportKeepsInv(cfg, validate, d, rid, sha);
    case Decide(rid, approve, who, reason) => DecideKeepsInv(cfg, validate, d, rid, approve, who, reason);
    case ReadApproval(rid) => ReadApprovalKeepsInv(cfg, validate, d, rid);
    case Create(rid, deliveryId, who, now) => CreateKeepsInv(cfg, validate, d, rid, deliveryId, who, now);
  }

  lemma {:induction false} DeskInvAlways(cfg: Settings, validate: Validator, acts: seq<Act>)
    ensures DeskInv(cfg, validate, History(cfg, validate, OPEN, acts))
  {
    hide Apply;
    if acts != [] {
      DeskInvAlways(cfg, validate, acts[..|acts| - 1]);
      ApplyKeepsInv(cfg, validate, History(cfg, validate, OPEN, acts[..|acts| - 1]), acts[|acts| - 1]);
    }
  }

  lemma {:induction false} ApprovalsOnlyGrow(cfg: Settings, validate: Validator, before: seq<Act>, after: seq<Act>, j: Id)
    requires j in History(cfg, validate, OPEN, before).approvals
    ensures j in History(cfg, validate, OPEN, before + after).approvals
    ensures History(cfg, validate, OPEN, before + after).approvals[j] == History(cfg, validate, OPEN, before).approvals[j]
  {
    hide Apply;
    if after == [] {
      assert before + after == before;
    } else {
      var front := after[..|after| - 1];
      assert (before + after)[..|before + after| - 1] == before + front;
      ApprovalsOnlyGrow(cfg, validate, before, front, j);
      DeskInvAlways(cfg, validate, before + front);
      ApplyKeepsInv(cfg, validate, History(cfg, validate, OPEN, before + front), after[|after| - 1]);
    }
  }

  /* ---- Main results ---- */

  /** Every approval, ever after, carries the digest of its job's current
      report and of that report's candidate and SQL; the row never changes; and
      nobody but an administrator has approved their own job. */
  lemma ApprovalsStayBound(cfg: Settings, validate: Validator, before: seq<Act>, after: seq<Act>, j: Id)
    requires j in History(cfg, validate, OPEN, before).approvals
    ensures var d := History(cfg, validate, OPEN, before + after); var a := History(cfg, validate, OPEN, before).approvals[j];
      && j in d.approvals && d.approvals[j] == a && ApprovalOk(validate, d.core, j, a)
  {
    ApprovalsOnlyGrow(cfg, validate, before, after, j);
    DeskInvAlways(cfg, validate, before + after);
  }

  /** Every benchmark job the server has handed out passes the worker's gate,
      whenever the worker looks. */
  lemma CreatedBenchmarksPass(cfg: Settings, validate: Validator, acts: seq<Act>, c: Id)
    requires c in History(cfg, validate, OPEN, acts).created
    ensures var d := History(cfg, validate, OPEN, acts);
      c in d.core.store.jobs && PassesGate(d.approvals, d.core.store.jobs[c])
  {
    DeskInvAlways(cfg, validate, acts);
  }

  /** Job b has the SQL of the completed job it names as approved, and the very
      candidate of that job's report, under that report's digest. */
  ghost predicate CarriesApproval(validate: Validator, s: State, b: Job) {
    && b.options.approvedJob.Some?
    && var a := b.options.approvedJob.value;
    && a in s.store.jobs && s.store.jobs[a].status.Completed? && a in s.reports
    && b.options.approvalReportSHA == Some(Sha(s.reports[a].content))
    && b.sql == s.store.jobs[a].sql
    && validate(s.reports[a].content, b.sql) == Some(b.candidate)
  }

  ghost predicate GateIsSound(validate: Validator, d: Desk) {
    forall b :: b in d.core.store.jobs && PassesGate(d.approvals, d.core.store.jobs[b]) ==>
      CarriesApproval(validate, d.core, d.core.store.jobs[b])
  }

  /** Any job that passes the gate, however it was submitted, has the SQL of
      the approved job and the very candidate of the approved report. */
  lemma PassingTheGateMeansApproved(cfg: Settings, validate: Validator, acts: seq<Act>)
    ensures GateIsSound(validate, History(cfg, validate, OPEN, acts))
  {
    DeskInvAlways(cfg, validate, acts);
    InvSoundsGate(cfg, validate, History(cfg, validate, OPEN, acts));
  }

  lemma InvSoundsGate(cfg: Settings, validate: Validator, d: Desk)
    requires DeskInv(cfg, validate, d)
    ensures GateIsSound(validate, d)
  {
    hide Inv, LogInv, RequestOk;
    forall b | b in d.core.store.jobs && PassesGate(d.approvals, d.core.store.jobs[b])
      ensures CarriesApproval(validate, d.core, d.core.store.jobs[b])
    {
      var job := d.core.store.jobs[b];
      var a := job.options.approvedJob.value;
      assert Hashed(job) && ApprovalOk(validate, d.core, a, d.approvals[a]);
    }
  }
}
