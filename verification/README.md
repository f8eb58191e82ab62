# SQL Sentinel: verified models of the core

SQL Sentinel reviews SQL changes: a pull request's statements become durable
jobs, workers run them against shadow databases under leases, reports are
approved, and approved candidates are benchmarked. This project models the
parts of it that carry the promises, and proves those promises in Dafny.
`dafny verify dfyconfig.toml` checks everything.

Where the program changes state, the model does: the job store, the broker, the
AST visitor, the running hashes and the vector stores are classes or loops, and
each method is proved against a function of its inputs or of the old state. The
promises are then lemmas about those functions.

## What is modelled

**The durable workflow** (`JobModel`, `JobStore`, `MemoryStore`, `Worker`,
`Delivery`, `Recovery`, `WorkflowSystem`, `WorkflowSafety`, `WorkflowTheorems`,
`WorkflowLeases`, `WorkflowOutcomes`, `NoLostJob`, `Deliveries`, `JobRecords`,
`WorkerProgress`, `Processes`). One store of jobs and outbox records, relays,
an at-least-once broker with one consumer, any number of other workers, the
runners' fenced report writes, and the expiry recovery scan.
`WorkflowSystem.Next` is one step of any of them; a run is any list of steps
with any clock readings. A step whose guard fails does nothing, and an actor
that never steps again has crashed, so crashes are possible between any two
steps. The theorems quantify over all runs from the empty store. The relay's
scan, `Handle` with its renewals and the consumer's loop are also methods of
their own, and `Processes` shows that whatever they do is such a run.
`WorkflowOutcomes` says on the rows which outcome of an attempt leaves what,
and `JobRecords` where jobs and records come from and which of them a scan
takes. `newID` is a prefix with a number from one counter; `digest` is a
constructor (`Sha`), so distinct inputs have distinct digests.

**Approvals** (`Approvals`, `ApprovalHistory`). The server's requests read the
job, the report and the approval in separate statements while the workflow goes
on underneath. The validation of a proposal is an arbitrary function.
`ApprovalHistory` traces every approval to the decision somebody made, and
every benchmark job to the request somebody sent.

**SQL scope analysis** (`SqlScope`, `SqlVisitor`, `SqlAdmission`). Query trees
with nested and shadowing CTEs; the stateful visitor with its scope stack; a
declarative reading of which tables are free; and a semantics in which every
operator is arbitrary, used to show that the listed tables are exactly what a
query can depend on.

**SQL files, patches and review** (`SqlLexer`, `SqlFile`, `SqlFileTheorems`,
`SqlLexicon`, `Patch`, `PatchMarks`, `Review`, `ReviewTheorems`). The byte
automata behind the splitter and the placeholder search, and laws that say
without them where a file has code, comments and quoted text; unified diffs as
text, in the format of POSIX.1-2017 (IEEE Std 1003.1-2017), Shell and
Utilities, diff, "Diff -u or -U Output Format"; and the selection of statements
by marked lines.

**Fingerprints** (`Frames`, `ShadowSnapshot`, `ShadowCatalog`,
`OrdersSnapshot`, `ResultFingerprint`). The three byte encodings, their
decoders or separators, keyset pagination, and what equal fingerprints mean.
The hash is a parameter; collision-freedom is asked only of the texts being
compared.

**The knowledge store** (`RagModel`, `Chunker`, `VectorSearch`, `VectorStores`,
`VectorTheorems`). The overlapping chunker, document replacement in both
stores, and batch against streaming top-k search. Similarity is a parameter
with real values.

**Robust statistics** (`RobustStats`). Median and MAD on wrapping 64-bit
integers.

## Results worth knowing

- *A statement can be passed over.* The patch reader skips an empty line of
  patch text without counting it. The diff format lets an unaffected empty line
  be written that way, and then every later line of the hunk is marked one too
  low: `ReviewTheorems.BareLinesHideChanges` is a patch whose added statement is
  not reviewed. `Review.AttributionIsRightIff` gives the exact condition under
  which every change is attributed to its line, namely that no such line comes
  before a change of its hunk, and review soundness is proved for all patches
  that meet it.
- *The median can wrap around.* Two samples of 2^62 ns have median -2^62
  (`RobustStats.MedianCanWrap`); `MedianBetweenMiddlesIff` gives the exact
  condition. So can the MAD (`MADCanWrap`), with its condition in
  `MADBreakdown`.
- *Row 0 is never compared.* Pagination starts behind key 0, so the orders
  fingerprint says nothing about a row with that key
  (`OrdersSnapshot.MatchDecidesTables`, `KeyZeroIsNotSeen`).
- *Separators in data.* The orders encoding and the column list of result
  fingerprints rely on text without their separators.
  `OrdersSnapshot.RowTextIsUniqueIff` and `ResultFingerprint.ColumnsAreToldIff`
  say which rows and which lists of names are told apart;
  `OrdersSnapshot.SeparatorsInTextCollide`, `RowSeparatorsInTextCollide` and
  `ResultFingerprint.NulsInNamesCollide` show what happens otherwise.
- *A cancelled delete may be half done.* The in-memory vector store notices a
  cancellation between two entries and keeps what it has deleted by then.
  `VectorStores.CancelledDeleteIsPartialIff` says exactly when that can leave
  part of a document, and `HalfADocumentIsLeft` is an instance.

## Model

| member | source | states |
|---|---|---|
| JobModel.RetryDelay | internal/kafka/model.go:224-239 | the doubling loop returns min(max, base * 2^(attempt-1)) from any non-negative base, with no 64-bit overflow |
| JobModel.Config.WithDefaults | internal/kafka/model.go:189-209 | every positive setting is kept and every other replaced: 3 attempts, a lease of five minutes, delays of a second and a minute |
| MemoryStores.MemoryStore.constructor | internal/kafka/memory.go:30-32 | a new store is empty |
| MemoryStores.MemoryStore.NewID | internal/kafka/model.go:211-217 | mints an identifier from the counter and advances it |
| MemoryStores.MemoryStore.Receive | internal/kafka/memory.go:34-63 | the whole new state: refusal, conflict, duplicate, or job, delivery index and first outbox record together |
| MemoryStores.MemoryStore.Claim | internal/kafka/memory.go:65-86 | the whole new state: refused while terminal, leased or scheduled later, else owned with one more attempt |
| MemoryStores.MemoryStore.Finish | internal/kafka/memory.go:96-112 | the whole new state: fenced by owner and lease; completion time only for completed and rejected |
| MemoryStores.MemoryStore.Retry | internal/kafka/memory.go:114-130 | the whole new state: fenced; releases the job and enqueues the next attempt in the same step |
| MemoryStores.MemoryStore.Renew | internal/kafka/recovery.go:64-77 | the whole new state: fenced; moves the lease end only |
| MemoryStores.MemoryStore.MarkPublished | internal/kafka/memory.go:165-180 | a published record is never deliverable again, a refused one backs off by its attempts |
| MemoryStores.MemoryStore.PendingOutbox | internal/kafka/memory.go:146-163 | distinct deliverable records only, and all of them if fewer than the limit |
| MemoryStores.MemoryStore.SelectStale | internal/kafka/recovery.go:25-38 | up to `limit` stale jobs, least recently updated first, all of them if there is room |
| MemoryStores.MemoryStore.RecoverExpired | internal/kafka/recovery.go:19-57 | the scan releases and enqueues exactly the selected jobs |
| Worker.Handle | internal/kafka/runtime.go:62-171 | one delivery attempt: the new store and the result, for every outcome of the run and any renewals meanwhile; on the row in `WorkflowOutcomes.CallsFollowOutcomes` |
| Worker.RunAttempt | internal/kafka/runtime.go:96-130 | a run is refused for input that does not match, kept alive by renewals, and counts as lost once one of them is refused |
| Worker.RenewAll | internal/kafka/runtime.go:101-123 | renews until a renewal is refused, and then no more |
| Delivery.MemoryBroker.Publish | internal/kafka/runtime.go:297-302 | appends the message |
| Delivery.MemoryBroker.Receive | internal/kafka/runtime.go:303-318 | the message at the cursor, without moving it |
| Delivery.MemoryBroker.Commit | internal/kafka/runtime.go:319-326 | moves the cursor by one, never past the end |
| Delivery.RunOnce | internal/kafka/runtime.go:25-51 | takes due records up to the batch size, all of them if there is room; publishes each before it marks it, marks exactly what was published, stops at the first refusal and leaves that record deliverable after a back-off |
| WorkflowSafety.StepMovesJob | internal/kafka/memory.go:65-130 | every step leaves a job alone, claims it for a new owner, releases it, or moves its lease; identity and input never change and terminal rows do not move |
| WorkflowSafety.StepAdvancesExec | internal/kafka/runtime.go:86-140 | an attempt only goes forward: it runs only if runnable, keeps the report it wrote, ends once, and returns success only after its report is stored |
| WorkflowSafety.NewExecsAreClaims | internal/kafka/runtime.go:71-76 | every attempt begins with a claim of a free job under an identifier never used before |
| WorkflowSafety.InvAlways | internal/kafka/memory.go:65-130 | in every run RUNNING means owned, the owner is the latest attempt and holds the recorded lease, and attempt numbers on a job are distinct |
| WorkflowTheorems.Fencing | internal/kafka/memory.go:96-130 | once a claim is superseded, in every continuation of the run and at every clock reading its owner can neither finish, retry, renew nor store a report |
| WorkflowTheorems.LaterClaimSupersedes | internal/kafka/memory.go:81-85 | a claim with a later attempt number on the job supersedes every earlier one |
| WorkflowTheorems.RecoverySupersedes | internal/kafka/recovery.go:44-48 | a recovery scan supersedes the claim on every job it picks |
| WorkflowTheorems.StoresClaimAlike | internal/kafka/mysql.go:234-239 | in every reachable state the SQL claim guard and the in-memory one admit the same jobs, and no job rests in RECEIVED |
| WorkflowTheorems.TerminalForever | internal/kafka/memory.go:72-74 | a terminal row keeps every column in every continuation |
| WorkflowTheorems.OneTerminalTransition | internal/kafka/memory.go:96-112 | in any run at most one terminal update per job succeeds, and a job is terminal exactly when one has |
| WorkflowTheorems.CompletedReportIsFinal | internal/service/runner.go:172-187 | a completed job's report is the one stored by the attempt whose completion succeeded, whose runner was invoked and returned nil, and no later step changes report or job |
| WorkflowTheorems.FreshReportIsFiled | internal/service/rewrite.go:133-147 | a report an attempt has just written is the one on file, under its own name |
| WorkflowTheorems.BoundedExecution | internal/kafka/runtime.go:86-95 | with MaxAttempts = M the runner is invoked at most M times per job in any run, each time with a different number in 1..M |
| WorkflowOutcomes.JudgedAlways | internal/kafka/runtime.go:86-98 | in every run an attempt is due to be run exactly if its number is at most MaxAttempts and its message and both digests match the row |
| WorkflowOutcomes.SettlementsFollowOutcomes | internal/kafka/runtime.go:131-170 | in every run an accepted settlement leaves COMPLETED after a nil return, REJECTED after a rejection or a mismatch, RETRYING after the capped exponential delay when a run failed or lost its lease with attempts left, and DEAD_LETTER at the last one or, unrun, beyond it |
| WorkflowOutcomes.FinalsFitOutcomes | internal/kafka/runtime.go:86-163 | in every run the log of terminal updates has COMPLETED, REJECTED and DEAD_LETTER each exactly for the outcomes that call for it |
| WorkflowOutcomes.DeadMeansTried | internal/kafka/runtime.go:152-160 | no job is in DEAD_LETTER with fewer than MaxAttempts attempts |
| WorkflowOutcomes.CallsFollowOutcomes | internal/kafka/runtime.go:62-171 | what any claiming call of Handle leaves of the row and answers, from the row before, the runner's result and the renewals: a run counts as returned only if every renewal came in time, and a call that settles too late changes nothing it claimed |
| WorkflowLeases.LeasesAreDisjoint | internal/kafka/recovery.go:8-15 | with clocks that never run backwards no two claims on a job are live at the same instant, renewals included |
| NoLostJob.NoJobIsLost | internal/kafka/runtime.go:25-51 | after any run every unfinished job has an unpublished outbox record or an uncommitted message |
| NoLostJob.DeliveryInvStep | internal/kafka/runtime.go:173-221 | the inductive step: publish-then-mark and retry-then-commit windows keep every unfinished job covered |
| NoLostJob.AcceptedMeansCovered | internal/kafka/memory.go:114-130 | when the consumer's update is accepted its job is over or has a record no relay has sent |
| NoLostJob.ReachableStoresRecover | internal/kafka/recovery.go:19-57 | in every reachable store, all leases and schedules past, one wide enough scan gives every unfinished job a deliverable record and leaves nothing to recover |
| Deliveries.OneJobPerDelivery | internal/kafka/memory.go:40-45 | in every run a delivery identifier belongs to at most one job |
| Deliveries.RedeliveryIsIdempotent | internal/kafka/memory.go:34-63 | after a first delivery and anything since, the same identifier is answered with that job if the input says the same and refused otherwise, and nothing changes |
| Deliveries.FoundAgain | internal/kafka/model.go:38-42 | the digest comparison holds exactly for equal pull request, SQL, candidate and options, trace headers aside |
| JobRecords.ReceiveAnswers | internal/kafka/memory.go:34-63 | which deliveries are refused, answered with the job on file, in conflict or new |
| JobRecords.HandleAnswers | internal/kafka/runtime.go:66-85 | which messages do not decode, name no job, find it finished or not free, and that those change no row |
| JobRecords.UpdatesNeedALiveLease | internal/kafka/memory.go:96-130 | finishing, retrying and renewing are each let through exactly for the owner of a running job under a live lease |
| JobRecords.ReportsNeedALiveLease | internal/service/rewrite.go:133-147 | a report on file changes only by its job's owner under a live lease |
| JobRecords.LiveOwnersStoreReports | internal/service/rewrite.go:133-147 | and an owner with one always gets its report stored, while any other runner is told its lease is lost |
| JobRecords.NewJobsAreFresh | internal/kafka/memory.go:46-62 | only a submission makes a job, queued at once, with its fields and their digests |
| JobRecords.StepsStamp | internal/kafka/memory.go:65-130 | whatever changes a row stamps it with its own time, except that renewing moves the lease alone |
| JobRecords.JobsSayWhatWasSubmitted | internal/kafka/memory.go:34-63 | in every run each job is what some delivery asked for, and has a completion time exactly if completed or rejected |
| JobRecords.NewRecordsWait | internal/kafka/memory.go:57-58 | whoever adds a record, it waits for the job's next attempt and is due when the job may be claimed |
| JobRecords.PublishedMessagesMatch | internal/kafka/runtime.go:40-49 | a message the relay publishes decodes, and at no later time is its attempt refused for not matching the job |
| Recovery.RecoveryIsComplete | internal/kafka/recovery.go:17-57 | whatever the broker lost, one scan leaves every unfinished job with an unpublished record, every expired owner fenced, terminal jobs untouched, and a second scan with nothing to do |
| Recovery.ScanRemovesItsSelection | internal/kafka/recovery.go:25-48 | after a scan of any limit the stale jobs are exactly those it had no room for |
| Recovery.RecoverEnqueuesSelection | internal/kafka/recovery.go:44-51 | a scan keeps all records and adds deliverable ones for the selected jobs only |
| JobRecords.ScanLeavesTheRestAlone | internal/kafka/recovery.go:25-51 | no scan touches a job under a live lease, scheduled for later, changed within five minutes, announced by a pending record, or finished |
| JobRecords.ScanTakesTheForgotten | internal/kafka/recovery.go:25-51 | a scan with room takes every other one, which may then be claimed at once and has a record due at once |
| WorkerProgress.RenewalsExtend | internal/kafka/runtime.go:108-121 | renewals that each come before the lease has ended are all accepted and move its end alone |
| WorkerProgress.PromptCallIsSettled | internal/kafka/runtime.go:131-170 | a claiming call that settles before its lease ends, renewals included, is never refused |
| WorkerProgress.PromptCallProgresses | internal/kafka/runtime.go:131-170 | such a call either ends the job or schedules the next attempt exactly min(RetryMax, RetryBase * 2^(attempts-1)) later with a deliverable record |
| WorkerProgress.PromptCallsTerminate | internal/kafka/runtime.go:152-170 | undisturbed, such calls end the job within MaxAttempts attempts |
| Processes.HandleIsARun | internal/kafka/runtime.go:62-171 | uninterrupted, the method does to the store what its claim, run, report, renewal and settlement steps do in the interleaved system |
| Processes.HeldHandleIsARun | internal/kafka/runtime.go:195-210 | so it does when the consumer calls it, which then is through with the message exactly when the call returns nil |
| Processes.Consume | internal/kafka/runtime.go:173-221 | the consumer loop: each message is handled until a call succeeds or it is set aside, and only then committed |
| Processes.ConsumeIsARun | internal/kafka/runtime.go:173-221 | whatever its calls return and wherever it is cancelled, the loop is a run of the system |
| Processes.ConsumerGetsPast | internal/kafka/runtime.go:195-215 | a message that does not decode or names no job holds the consumer up until it is set aside, and one whose job is over never does |
| Processes.ScanIsARun | internal/kafka/runtime.go:40-49 | so is publishing and marking records one after the other |
| Processes.OperationsLoseNothing | internal/kafka/runtime.go:25-221 | after any calls of the relay, the consumer loop, other workers, submissions and recovery scans every unfinished job has an unpublished record or an uncommitted message |
| Approvals.ApprovalsStayBound | internal/service/extension.go:480-504 | every approval row is immutable and ever after carries the digests of its job's current report, of that report's candidate and of the job's SQL; only an administrator approves their own job |
| Approvals.CreatedBenchmarksPass | internal/service/extension.go:454-478 | every benchmark job the server answers with passes the worker's check, whenever it looks |
| Approvals.PassingTheGateMeansApproved | internal/service/runner.go:67-72 | any job that passes the check, however submitted, has the SQL of the approved job and the very candidate of the approved report |
| Approvals.AnsweredJobPasses | internal/service/extension.go:459-464 | new or duplicate, the job a cleared request is answered with passes the check |
| Approvals.DecideKeepsInv | internal/service/extension.go:484-504 | a decision adds at most one row, bound to the report, and never changes one |
| Approvals.ApplyKeepsInv | internal/service/extension.go:385-513 | every request step and every workflow step keeps all requests, approvals and created jobs bound |
| ApprovalHistory.RowsAreDecisions | internal/service/extension.go:484-499 | in every history an approval row says what somebody decided, who and why, on the report on file whose digest they had presented; rejections stay rejections |
| ApprovalHistory.ProperDecisionsAreRecorded | internal/service/extension.go:484-499 | a decision is recorded exactly if it is the job's first, gives a reason, and is not a submitter's own without being an administrator |
| ApprovalHistory.CheckedRequestsPresented | internal/service/extension.go:430-437 | a checked request is about a report whose digest its client presented |
| ApprovalHistory.ProperRequestsGoThrough | internal/service/extension.go:430-463 | which requests are checked and which cleared, both ways |
| ApprovalHistory.PassingNeedsAnApproval | internal/service/runner.go:67-72 | whatever passes the worker's check names a job whose report somebody approved |
| ApprovalHistory.CreatedJobsWereAskedFor | internal/service/extension.go:454-478 | every benchmark job is, field by field, what a cleared request asked for |
| SqlScope.FirstErrorMeaning | internal/sqladmit/ast.go:70-81 | the error is the first fault in visiting order within the 4096-node budget, the budget error if it runs out first, and none exactly when neither happens |
| SqlScope.ValueDependsOnFreeTables | internal/sqladmit/ast.go:107-120 | for every semantics of the operators a tree has the same value on databases that agree on its free tables |
| SqlScope.FreeTablesAreNeeded | internal/sqladmit/cte_visibility_test.go:13-18 | and for each free table some semantics and two databases differing there alone give different values |
| SqlVisitor.SafetyVisitor.Resolve | internal/sqladmit/ast.go:111-120 | a name is recorded exactly when no scope of the stack binds it |
| SqlVisitor.SafetyVisitor.Enter | internal/sqladmit/ast.go:70-129 | counts the node, reports its fault or the spent budget, and pushes a scope for queries only; which nodes are faulty is `SqlAdmission.AdmissibleIff` |
| SqlVisitor.SafetyVisitor.Leave | internal/sqladmit/ast.go:130-142 | pops what the visit pushed and then makes a CTE's name visible in the top scope |
| SqlVisitor.SafetyVisitor.Accept | internal/sqladmit/ast.go:70-145 | from any scope stack a visit adds exactly the declaratively free tables, finds the first error, and without one restores the stack |
| SqlVisitor.SafetyVisitor.AcceptCtes | internal/sqladmit/ast.go:134-141 | each CTE sees the earlier ones and not itself, and all their names are in the top scope afterwards |
| SqlVisitor.Analyze | internal/sqladmit/ast.go:24-55 | succeeds exactly on queries of at most 4096 nodes with no forbidden node; then lists the free tables sorted and once each, and tells of a LIMIT without ORDER BY at any depth |
| SqlAdmission.AdmissibleIff | internal/sqladmit/ast.go:70-129 | said on the nodes in the tree, definitions of CTEs included: admitted exactly are queries of at most 4096 nodes without a locking, INTO or hinted SELECT, a schema, a variable, an unlisted or qualified call, or a recursive WITH |
| SqlAdmission.RefusalsAreFounded | internal/sqladmit/ast.go:70-129 | every refusal names something that is in the tree |
| SqlAdmission.UnorderedLimitIff | internal/sqladmit/ast.go:83-104 | the flag is set exactly when some query in the tree has a LIMIT and no ORDER BY |
| SqlAdmission.LowerMeans | internal/sqladmit/ast.go:107-120 | table and CTE names are told apart without regard to the case of letters, and only so |
| SqlAdmission.DangerousCallsAreUnlisted | internal/sqladmit/ast_test.go:6-11 | functions with effects are refused in any spelling |
| SqlAdmission.CteVisibility | internal/sqladmit/cte_visibility_test.go:13-18 | the queries of the visibility test read the tables it expects |
| SqlVisitor.OrderSensitive | internal/sqladmit/ast.go:56-59 | holds exactly for inadmissible or ordered queries |
| SqlVisitor.AdmitRewrite | internal/rewrite/rewrite.go:34-46 | admits exactly the pairs that are both admissible, read the same non-empty set of tables, are alike in order, and have no LIMIT without ORDER BY |
| SqlAdmission.RewriteIsAdmittedIff | internal/rewrite/rewrite.go:34-46 | the same on the nodes and tables of the two trees |
| SqlVisitor.ListedTablesDecideTheValue | internal/sqladmit/ast.go:46-55 | semantic footprint: databases that agree on the listed tables give the query the same value |
| SqlVisitor.NoListedTableIsSpare | internal/sqladmit/ast.go:46-55 | no list without one of them would do |
| SqlVisitor.RewritesSeeTheSameTables | internal/rewrite/rewrite.go:34-46 | an admitted rewrite depends on no table the original does not |
| Lexicographic.Listing | internal/sqladmit/ast.go:42-46 | collecting a set in any order and sorting lists it in order, each element once |
| Lexicographic.ListingsAgree | internal/rewrite/rewrite.go:38-41 | two listings are equal exactly when the sets are |
| Lexicographic.LexMeans | internal/rag/vectorstore.go:91-99 | the order of texts is by their first difference, a prefix first |
| SqlFile.Statements | internal/service/statements.go:17-89 | the one-pass loop returns the pieces between semicolons in code, trimmed, with their line ranges, or reports an unterminated file |
| SqlFile.HasBindPlaceholder | internal/shadowgate/gate.go:296-365 | true exactly when some question mark is in code |
| SqlLexicon.LineCommentHides | internal/service/statements.go:55-74 | a # or two dashes before white space hide the rest of the line, and behind it is code |
| SqlLexicon.PlainByte | internal/service/statements.go:67-82 | no other byte but quotes and a slash before a star hides anything: not two dashes alone |
| SqlLexicon.BlockCommentHides | internal/service/statements.go:60-79 | a bracketed comment hides its inside up to the first closing bracket |
| SqlLexicon.OpenBlockCommentIsRefused | internal/service/statements.go:84-86 | one that is not closed hides the rest, and the file is refused |
| SqlLexicon.QuotesHide | internal/service/statements.go:41-54 | a quote hides everything up to its closing quote, doubled quotes and, except between backticks, backslash pairs included |
| SqlLexicon.OpenQuoteIsRefused | internal/service/statements.go:84-86 | one that is not closed hides the rest, and the file is refused |
| SqlLexicon.QuotedTextEnds | internal/service/statements.go:41-54 | one of these two laws applies to any text behind a quote |
| SqlLexicon.CommentLineIsSkipped | internal/shadowgate/gate.go:337-345 | a dashed comment line, whatever it says, changes neither where the text behind it is cut nor its placeholders |
| SqlFileTheorems.CutsAreCodeSemicolons | internal/service/statements.go:80-82 | pieces end exactly after the semicolons in code, and at the end of the file |
| SqlFileTheorems.PiecesTile | internal/service/statements.go:21-30 | the raw pieces, put together, are the file |
| SqlFileTheorems.LinesNeverGoBack | internal/service/statements.go:24-29 | line ranges are non-empty, in order and never go backwards |
| SqlFileTheorems.StatementRangeIsExact | internal/service/statements.go:21-30 | a statement's range runs from the line of the first byte of its piece that is no space, tab, CR or LF to the line its piece ends on |
| SqlFileTheorems.LineCounts | internal/service/statements.go:24-29 | line numbers count the newlines before |
| SqlFileTheorems.SpaceDecodes | internal/service/statements.go:22-23 | what is trimmed as white space is the UTF-8 encoding (section 3 of RFC 3629) of a white-space character |
| SqlFileTheorems.SpaceIsFound | internal/service/statements.go:22-23 | and every such encoding is trimmed |
| SqlFileTheorems.StatementsAreLocated | internal/service/statements.go:22-27 | every statement is a slice of the file inside its line range |
| SqlFileTheorems.TextIsCovered | internal/service/statements.go:22-30 | every byte that belongs to no white-space character is in some statement whose range covers its line |
| SqlFileTheorems.StatementsSplitToThemselves | internal/service/statements.go:15-89 | splitting a returned statement returns that one statement, from line 1 |
| SqlFileTheorems.PlaceholdersAgree | internal/shadowgate/gate.go:294-365 | the second lexer finds a placeholder in a file exactly when it finds one in some statement of the first |
| Patch.ChangedLines | internal/service/statements.go:93-117 | the reader's loop marks what its lines mark one by one, on the text of any patch |
| Patch.HeaderIsRead | internal/service/statements.go:91-98 | every well-formed hunk header yields its new start line |
| PatchMarks.HeadersAreHeaders | internal/service/statements.go:91-98 | whatever is taken for a hunk header has the form of one, and yields the number in its new range |
| PatchMarks.HeadersAreRead | internal/service/statements.go:91-98 | and every line that begins with one is taken for it |
| Review.CounterFallsBehind | internal/service/statements.go:100-113 | after any part of a hunk the counter is the true line number less the bare empty lines so far: right exactly when there are none |
| Review.AttributionIsRightIff | internal/service/statements.go:93-117 | on the text of a well-formed patch the reader attributes every change to its line exactly when in no hunk a bare empty line comes before a change |
| Review.ChangedCoversScript | internal/service/statements.go:93-117 | from the text of a well-formed patch every inserted line, and the line before every deletion, is marked |
| PatchMarks.MarksAreExact | internal/service/statements.go:93-117 | without bare lines before changes exactly the inserted lines and the lines on both sides of each deletion are marked |
| PatchMarks.SelectedIffNearAChange | internal/service/github.go:148-158 | and a statement is selected exactly if one of those is in its range |
| Review.UnmarkedLinesAreOld | internal/service/statements.go:104-113 | a range of lines none of which needs marking is one block of the old file |
| ReviewTheorems.Relevant | internal/service/github.go:153-156 | selects a statement exactly when the file is new or a line of its range is marked |
| ReviewTheorems.UnselectedStatementsAreOld | internal/service/github.go:148-158 | review soundness: an unselected statement stands verbatim in consecutive lines of the old file |
| ReviewTheorems.TouchedStatementsAreSelected | internal/service/github.go:148-158 | every statement that stands on an added line is selected |
| ReviewTheorems.BareLinesHideChanges | internal/service/statements.go:101-103 | with a bare context line an added statement is passed over |
| Frames.DecodeOfEncode | internal/shadowdata/snapshot.go:164-174 | tagged streams of NULL-marked, length-prefixed fields decode to what was encoded |
| Frames.RowBytesDiffer | internal/resultset/read.go:93-111 | two rows have the same bytes exactly when they are the same row, NULL and empty apart |
| ShadowSnapshot.Compute | internal/shadowdata/snapshot.go:37-163 | hashes exactly the stream of the described tables, without candidate indexes, and counts their rows, or fails with the first problem in order |
| ShadowSnapshot.CandidateIndexesLeaveNoTrace | internal/shadowdata/snapshot.go:105-105 | an index part more leaves the description of its table, and every snapshot, as it was exactly when it belongs to a candidate index |
| ShadowSnapshot.WriteTable | internal/shadowdata/snapshot.go:46-161 | one table appends its tag, columns, key, indexes and rows, or stops at its problem |
| ShadowSnapshot.WriteRows | internal/shadowdata/snapshot.go:138-153 | the row loop stops exactly when the row or byte limit is passed |
| ShadowSnapshot.StreamDecodes | internal/shadowdata/snapshot.go:53-161 | the stream of any number of tables has a decoder that inverts it |
| ShadowSnapshot.DigestsDecideTables | internal/shadowdata/snapshot.go:35-36 | digests agree exactly when names, schema, keys, indexes and rows do |
| ShadowCatalog.DigestsDecideDatabases | internal/shadowdata/snapshot.go:37-163 | two databases have the same digest exactly when the same tables were named and agree in columns, primary key, rows and all indexes but candidates' |
| ShadowCatalog.IdenticalSnapshots | internal/shadowgate/gate.go:183-200 | the gate passes exactly when both snapshots can be taken and the databases agree in every named table |
| ShadowCatalog.SnapshotIsTakenIff | internal/shadowdata/snapshot.go:37-160 | a snapshot is taken exactly of 1 to 16 base tables with safe names and safe, non-empty primary keys, of at most 2000000 rows and 256 MiB together |
| ShadowCatalog.ProblemsAreFounded | internal/shadowdata/snapshot.go:37-160 | every refusal is for what it says, at the first table that gives cause |
| ShadowCatalog.OtherPartsCount | internal/shadowdata/snapshot.go:105-105 | the index parts described are those whose index name is given and does not begin with idx_cand_ |
| ShadowCatalog.QuotedNamesAreClosed | internal/shadowdata/snapshot.go:28-33 | a safe name cannot leave the quotes it is put in |
| OrdersSnapshot.Normalize | internal/snapshot/digest.go:39-61 | appends the seven fields of a row between separators |
| OrdersSnapshot.RowLayout | internal/snapshot/digest.go:26-61 | the fields stand in column order behind each other, separated by 0x1F and ended by 0x1E, notes marked apart from none |
| OrdersSnapshot.StampLayout | internal/snapshot/digest.go:22-24 | every time stamp takes 27 bytes at fixed places, microseconds included |
| OrdersSnapshot.RowTextsDiffer | internal/snapshot/digest.go:37-61 | a row without the field separator in note and payload, or without a note, has a normal form different from that of every other row the table can hold |
| OrdersSnapshot.RowTextIsUniqueIff | internal/snapshot/digest.go:12-18 | exactly those rows have, statuses being free of the separator or of at most 16 characters |
| OrdersSnapshot.StreamsDiffer | internal/snapshot/digest.go:12-18 | tables of such rows, free of the row separator, have the same stream exactly when they are equal |
| OrdersSnapshot.Hasher.Feed | internal/snapshot/digest.go:75-79 | extends the hashed stream by one row and counts it |
| OrdersSnapshot.ScanChunk | internal/snapshot/compare.go:59-81 | feeds one page and moves the cursor to its last key |
| OrdersSnapshot.Compute | internal/snapshot/compare.go:33-54 | for every chunk size pagination ends and hashes each row with a key of at least 1 once, in key order |
| OrdersSnapshot.MatchDecidesTables | internal/snapshot/compare.go:84-87 | a comparison matches exactly when both tables hold the same rows with keys of at least 1, and then the same rows if all keys are |
| OrdersSnapshot.KeyZeroIsNotSeen | internal/snapshot/compare.go:40-42 | a row with key 0 never takes part |
| OrdersSnapshot.SeparatorsInTextCollide | internal/snapshot/digest.go:12-18 | a separator inside a note or payload can move between the two without changing the row's normal form |
| OrdersSnapshot.RowSeparatorsInTextCollide | internal/snapshot/compare.go:84-87 | with the row separator in payloads two different tables of the same size are taken for a match, whatever the hash |
| ResultFingerprint.HashRow | internal/resultset/read.go:93-112 | hashes the canonical values of a row in order, or fails on a bad one |
| ResultFingerprint.Read | internal/resultset/read.go:65-122 | the fingerprint of the canonical rows, sorted unless ordered, or the first problem in row order |
| ResultFingerprint.CanonicalRowsMean | internal/resultset/read.go:93-111 | the rows that are hashed are the canonical rows, one for each |
| ResultFingerprint.CanonicalRowMeans | internal/resultset/read.go:98-108 | in which every value stands at its place in canonical form, NULL as NULL |
| ResultFingerprint.FingerprintedIff | internal/resultset/read.go:65-115 | a result has a fingerprint exactly if it has at most 128 columns, 10000 rows and 8 MiB, and only values with a canonical form |
| ResultFingerprint.FailuresAreFounded | internal/resultset/read.go:93-115 | every refusal is for what it says, at the first row that gives cause |
| ResultFingerprint.OrderedFingerprintsDecide | internal/resultset/read.go:117-122 | ordered fingerprints agree exactly when columns and row sequences do |
| ResultFingerprint.UnorderedFingerprintsDecide | internal/resultset/read.go:118-122 | unordered ones exactly when columns and row multisets do |
| ResultFingerprint.ColumnsAreToldIff | internal/resultset/read.go:121-122 | in front of the same rows a list of column names is told from every other of its length exactly when it has one name or none holds a NUL |
| ResultFingerprint.NulsInNamesCollide | internal/resultset/read.go:121-122 | and a column name with a NUL passes for two columns |
| Chunker.Config.Normalized | internal/rag/types.go:87-98 | zero stands for 800 runes and an overlap of 100; what is then out of range is refused, so a window of at most 100 runes needs an overlap of its own |
| Chunker.ChunkDocument | internal/rag/ingest.go:71-115 | the loop ends on every document and returns the chunks of its windows |
| Chunker.FindEnd | internal/rag/ingest.go:77-91 | the backward search finds the last line break of the window's second half, if any |
| Chunker.WindowsAdvance | internal/rag/ingest.go:105-112 | starts strictly increase, each window has 1..MaxRunes runes, successive windows leave no gap and overlap by the configured number or by none, and the last one ends with the document |
| Chunker.NextEndsNoEarlier | internal/rag/ingest.go:84-91 | even with an overlap of more than half a window no window ends before its predecessor |
| Chunker.WindowsPreferLines | internal/rag/ingest.go:81-91 | where each window ends |
| Chunker.WindowsReassemble | internal/rag/ingest.go:76-113 | what each window adds to those before it makes up the document |
| Chunker.ChunkAt | internal/rag/ingest.go:92-104 | ordinals are consecutive, and each chunk is the trimmed, non-empty text of its own rune range |
| Chunker.ChunkSaysWhereItIsFrom | internal/rag/ingest.go:92-104 | each carries its document's identity, scope, version, digest and expiry, is marked untrusted, and neither begins nor ends with white space |
| Chunker.NoTextIsLost | internal/rag/ingest.go:71-115 | every rune that is not white space is in some chunk, at its place |
| VectorSearch.TakeOfInsert | internal/rag/mysql.go:129-138 | inserting below the first k does not change the first k |
| VectorSearch.StreamStep | internal/rag/mysql.go:129-138 | append, sort and cut per row gives what sorting and cutting everything read so far gives |
| VectorSearch.TopMeans | internal/rag/vectorstore.go:91-99 | the top k are matches, ranked, as many as there can be, and none is passed over for a lesser |
| VectorSearch.TopIsUnique | internal/rag/vectorstore.go:91-99 | score descending and id ascending leave one answer |
| VectorStores.MemoryVectorStore.Upsert | internal/rag/vectorstore.go:37-64 | a refused batch changes nothing; an accepted one replaces its documents |
| VectorStores.MemoryVectorStore.Search | internal/rag/vectorstore.go:66-101 | the top k of the live chunks of the scope that score enough |
| VectorStores.MemoryVectorStore.DeleteDocument | internal/rag/vectorstore.go:103-126 | deletes exactly the document or finds nothing to delete; is cancelled exactly when there are more entries than it got to, and has then deleted the document's among those |
| VectorStores.CancelledDeleteIsPartialIff | internal/rag/vectorstore.go:113-121 | a delete cancelled after p entries can leave part of the document exactly when 0 < p < the number of entries and the document has two or more |
| VectorStores.CancelledDeleteRemoves | internal/rag/vectorstore.go:113-121 | it has removed at most p of them, and at least p less the entries of other documents |
| VectorStores.HalfADocumentIsLeft | internal/rag/vectorstore.go:113-121 | with two chunks of a document in the store, cancelled after one entry it leaves the other |
| VectorStores.MySqlVectorStore.Upsert | internal/rag/mysql.go:32-84 | accepts batches of one document, version and digest only; a failed transaction changes nothing; a committed one replaces the document and records its digest and version |
| VectorStores.MySqlVectorStore.Search | internal/rag/mysql.go:85-141 | reading row by row returns the same top k as sorting everything; fails exactly when the question is invalid, a bad vector is among the first 10000 rows, or there are more |
| VectorStores.ReadInOrder | internal/rag/mysql.go:106-121 | the rows read before the limit are the first by id |
| VectorStores.MySqlVectorStore.DeleteDocument | internal/rag/mysql.go:142-172 | deletes exactly the document's chunks and its record, or changes nothing |
| VectorStores.ReplacedEntries | internal/rag/vectorstore.go:53-62 | after a batch the store holds the batch and every other entry of no document and no id of the batch |
| VectorTheorems.OnlyTheNewVersionIsFound | internal/rag/vectorstore.go:53-62 | after a batch a search finds of its documents only chunks of the batch |
| VectorTheorems.OtherScopesAreUntouched | internal/rag/ingest.go:94-97 | a batch with no document and no chunk id of a scope leaves its searches as they were |
| VectorTheorems.ReplacingIsIdempotent | internal/rag/vectorstore.go:53-62 | ingesting the same batch again changes nothing |
| VectorTheorems.DeletedDocumentsAreNotFound | internal/rag/vectorstore.go:113-121 | a deleted document is found no more |
| VectorTheorems.StoresAnswerAlike | internal/rag/mysql.go:106-139 | on the same untrusted chunks both stores return the same hits |
| VectorTheorems.SearchReturns | internal/rag/vectorstore.go:66-101 | said on the fields: only chunks of the scope that are not expired and similar enough, by falling score and rising identifier, as many as asked for, and none left out for a lesser one |
| VectorTheorems.MatchesMayBeShown | internal/rag/vectorstore.go:78-89 | which chunks those are |
| VectorTheorems.BatchIsAcceptedIff | internal/rag/vectorstore.go:37-52 | which batches the store in memory accepts |
| VectorTheorems.UpsertIsAcceptedIff | internal/rag/mysql.go:32-75 | which ones the store over MySQL accepts |
| VectorTheorems.MySqlSearchAnswersIff | internal/rag/mysql.go:85-139 | which of its searches are answered: proper questions for at most 20 about at most 10000 chunks, all with proper vectors |
| VectorTheorems.UpsertKeepsSearchable | internal/rag/mysql.go:57-63 | accepted batches keep every scope within 10000 chunks and every stored vector valid |
| RobustStats.Median | internal/measure/stats.go:16-28 | sorting a copy and taking the middle, with wrapping addition and truncating division |
| RobustStats.MAD | internal/measure/stats.go:31-46 | the median of the absolute deviations from the median |
| RobustStats.MiddlesResistReplacement | internal/measure/stats.go:13-15 | the middle order statistics stay within any interval that holds all but floor((n-1)/2) samples |
| RobustStats.MedianBetweenMiddlesIff | internal/measure/stats.go:23-27 | the median lies between the two middle samples exactly when their sum does not wrap around |
| RobustStats.MiddlesHalveTheSamples | internal/measure/stats.go:22-27 | half of the samples are no larger and half no smaller than either middle one |
| RobustStats.MedianIsTheMean | internal/measure/stats.go:23-27 | the median of an even number is their mean, rounded toward zero, if they can be added |
| RobustStats.DeviationIsDistanceIff | internal/measure/stats.go:37-43 | a deviation is the distance to the median exactly if that is below 2^63 |
| RobustStats.MedianCanWrap | internal/measure/stats.go:27-27 | two samples of 2^62 ns have median -2^62 |
| RobustStats.MedianBreakdown | internal/measure/stats.go:13-28 | with at most floor((n-1)/2) samples replaced the median stays within any interval holding the others, unless the middle samples wrap around |
| RobustStats.MADBreakdown | internal/measure/stats.go:30-46 | breakdown bound of the MAD: with a sound median and untouched samples less than 2^63 ns apart it is at most their range exactly when the two middle deviations can be added, which they can for odd counts and ranges below 2^62 ns |
| RobustStats.MADCanWrap | internal/measure/stats.go:37-45 | four of six samples within 2^62 ns of each other, and a MAD of -2^62 |
| RobustStats.MedianOrderIrrelevant | internal/measure/stats.go:20-21 | the median depends on the multiset of samples only |
| RobustStats.MADOrderIrrelevant | internal/measure/stats.go:35-45 | and so does the MAD |
| Sorting.SortArray | internal/measure/stats.go:20-21 | in-place sorting gives the reference sort |
| Sorting.SortedPermutationUnique | internal/rag/vectorstore.go:91-96 | a list has one sorted rearrangement, so any correct sort returns it |

## Left out

- HTTP and JSON: request decoding, status codes, the GET branch of the approval handler, path patterns and size checks on request fields.
- The SQL parser and the 64 KiB query limit: analysis starts from a tree; CTEs are recursive only as a flag, which is refused.
- Lower: folds ASCII letters only, and so does `Upper`; other alphabets keep their case here.
- MySQL-only effects of the job store: the backlog limit of 1000, history, audit and source rows, trace headers, the ordering of pending records by creation time, and the columns that its `finish` and `Renew` write beyond the in-memory ones (completion time of dead letters, update time of renewals).
- MySQLStore.Claim updates and reads back in two statements; it is one step here.
- The renewal goroutine of a running attempt is scheduled freely: renewals are steps of the system at any time, and `Handle` is given their clock readings; an error of the store counts as a refused renewal.
- The consumer loop's one-second pauses and its semaphore: in the system the loop is the steps Fetch, ClaimHeld, SettleHeld, Quarantine and Commit, and `Consume` is given one turn for each call.
- MemoryBroker.Commit ignores which message is committed, so one consumer per broker is assumed (for Kafka, one per partition).
- Identifiers are unique because they come from one counter; the hashing and truncation of `newID` is not modelled.
- The validation of proposals and the decoding of reports are one arbitrary function in `Approvals`; a second identical decision answers 200 in the source and changes nothing here or there.
- Canonical: rewriting of decimals, JSON and times in result sets is an arbitrary partial function.
- Similarity of vectors is an arbitrary real-valued function: cosine and floating-point rounding are not modelled, nor are the HTTP vector store, JSON sizes of stored rows.
- Chunk identifiers are minted by an arbitrary function of scope, document, version, ordinal and text; that different documents get different identifiers is a premise where it matters.
- IngestDocument: content-type and size checks and newline normalisation before chunking.
- Scaled MAD and noise ratio: floating point.
- Line numbers of patches from 2^63 on, and hunks whose header is not in the format, are read as the code reads them, but review soundness speaks of well-formed patches only.
- Names of candidate indexes are compared byte by byte; a case-insensitive collation of the database would exclude other spellings too.
- Policies, model prompts, the creation of candidate indexes, benchmarks, series and evidence decisions are not modelled.
