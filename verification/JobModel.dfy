/** Values of the durable workflow: jobs, events, worker configuration. */
module JobModel {
  import opened GoInt
  import opened Prelude

  /** A point on the clock, in nanoseconds. */
  type Time = int

  const ZERO_TIME: Time := 0
  const SECOND: int64 := 1_000_000_000
  const MINUTE: int64 := 60_000_000_000

  /** An identifier minted by `newID`: the process-wide counter makes every
      one different from all earlier ones. */
  datatype Id = Id(prefix: string, n: nat)

  datatype Status = Received | Queued | Running | Completed | Rejected | Retrying | DeadLetter {
    predicate Terminal() { Completed? || Rejected? || DeadLetter? }
  }

  datatype Options = Options(traceParent: string, traceState: string, tenant: string, project: string,
                             actor: string, benchmark: bool, approvedJob: Option<Id>, approvalReportSHA: Option<Sha>)
  {
    function Normalized(): Options {
      this.(tenant := if tenant == "" then "operator" else tenant,
            project := if project == "" then "default" else project,
            actor := if actor == "" then "operator" else actor)
    }

    /** Trace headers do not take part in delivery comparison. */
    function Untraced(): Options { this.(traceParent := "", traceState := "") }
  }

  datatype Job = Job(id: Id, deliveryId: string, prNumber: int, options: Options,
                     sql: Bytes, candidate: Bytes, sqlSHA: Sha, candidateSHA: Sha,
                     status: Status, attempts: nat, nextAttemptAt: Time,
                     leaseOwner: Option<Id>, leaseUntil: Time, lastError: string,
                     createdAt: Time, updatedAt: Time, completedAt: Option<Time>)

  datatype ReceiveInput = ReceiveInput(options: Options, deliveryId: string, prNumber: int, sql: Bytes, candidate: Bytes)
  {
    predicate Acceptable() { deliveryId != "" && prNumber >= 1 && sql != [] && candidate != [] }
  }

  predicate SameDelivery(job: Job, input: ReceiveInput) {
    && job.prNumber == input.prNumber
    && job.sqlSHA == Sha(input.sql)
    && job.candidateSHA == Sha(input.candidate)
    && job.options.Untraced() == input.options.Normalized().Untraced()
  }

  /** The opaque reference carried by the broker. */
  datatype Event = Event(schemaVersion: int, eventId: Option<Id>, jobId: Option<Id>, deliveryId: string, attempt: int) {
    predicate Wellformed() {
      schemaVersion == 1 && eventId.Some? && jobId.Some? && deliveryId != "" && attempt >= 1
    }
  }

  /** A broker message; `body` is None when the value is not one JSON event. */
  datatype Message = Message(key: Option<Id>, body: Option<Event>) {
    /** DecodeEvent: the event, provided it decodes and validates. */
    function Decoded(): Option<Event> {
      if body.Some? && body.value.Wellformed() then body else None
    }
  }

  /** The message decodes to an event for this job. */
  predicate Names(m: Message, job: Id) {
    m.Decoded().Some? && m.Decoded().value.jobId == Some(job)
  }

  datatype Config = Config(maxAttempts: int, lease: int64, retryBase: int64, retryMax: int64) {
    function WithDefaults(): (c: Config)
      ensures c.maxAttempts >= 1 && c.lease > 0 && c.retryBase > 0 && c.retryMax > 0
      ensures (maxAttempts >= 1 ==> c.maxAttempts == maxAttempts) && (lease > 0 ==> c.lease == lease)
      ensures (retryBase > 0 ==> c.retryBase == retryBase) && (retryMax > 0 ==> c.retryMax == retryMax)
      ensures (maxAttempts < 1 ==> c.maxAttempts == 3) && (lease <= 0 ==> c.lease == 300_000_000_000)
      ensures (retryBase <= 0 ==> c.retryBase == 1_000_000_000) && (retryMax <= 0 ==> c.retryMax == 60_000_000_000)
    {
      Config(if maxAttempts < 1 then 3 else maxAttempts,
             if lease <= 0 then 5 * 60_000_000_000 else lease,
             if retryBase <= 0 then SECOND else retryBase,
             if retryMax <= 0 then MINUTE else retryMax)
    }
  }

  /** Capped exponential backoff before the retry that follows attempt n. */
  function Backoff(base: int64, max: int64, attempt: int): (d: int64)
    requires base >= 0
    ensures d <= max
  {
    Min(max, Scaled(base, if attempt < 1 then 0 else attempt - 1))
  }

  function Scaled(base: int, n: nat): int { base * Pow2(n) }

  lemma ScaledDoubles(base: int, n: nat)
    ensures Scaled(base, n + 1) == 2 * Scaled(base, n)
  {
  }

  lemma {:induction false} ScaledGrows(base: int, m: nat, n: nat)
    requires base >= 0 && m <= n
    ensures 0 <= Scaled(base, m) <= Scaled(base, n)
  {
    if m < n {
      ScaledGrows(base, m, n - 1);
      ScaledDoubles(base, n - 1);
    }
  }

  /** The doubling loop.  From a non-negative base it returns the mathematical
      min(max, base * 2^(attempt-1)): the guard on max/2 stops every doubling
      that would wrap around. */
  method RetryDelay(base: int64, max: int64, attempt: int) returns (d: int64)
    ensures base >= 0 ==> d == Backoff(base, max, attempt)
  {
    var last := if attempt < 1 then 1 else attempt;
    d := base;
    var i := 1;
    while i < last && d < max
      invariant 1 <= i <= last
      invariant base >= 0 ==> d == Scaled(base, i - 1)
    {
      if base >= 0 {
        ScaledDoubles(base, i - 1);
        ScaledGrows(base, i - 1, last - 1);
        ScaledGrows(base, i, last - 1);
      }
      if d > Half(max) {
        return max;
      }
      d := Wrap(2 * (d as int));
      i := i + 1;
    }
    if base >= 0 {
      ScaledGrows(base, i - 1, last - 1);
    }
    if d > max {
      return max;
    }
  }
}
