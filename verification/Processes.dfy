/** The program's loops as runs of the step system: whatever the relay, the
    consumer, a submission or the recovery scan does to the store and the
    topic, the steps of the system do, so its theorems hold of these methods. */
module Processes {
  import opened GoInt
  import opened JobModel
  import opened Prelude
  import opened JobStore
  import opened Sequences
  import opened Worker
  import opened WorkflowSystem
  import opened WorkflowSafety
  import opened WorkflowTheorems
  import opened WorkerProgress
  import opened MemoryStores
  import opened Delivery
  import NoLostJob

  lemma RunOne(cfg: Settings, s: State, e: Step)
    ensures Run(cfg, s, [e]) == Next(cfg, s, e)
  {
    assert [e][..0] == [];
    assert Run(cfg, s, []) == s;
  }

  lemma RunOneMore(cfg: Settings, s: State, steps: seq<Step>, e: Step)
    ensures Run(cfg, s, steps + [e]) == Next(cfg, Run(cfg, s, steps), e)
  {
    hide Next;
    RunOne(cfg, Run(cfg, s, steps), e);
    RunAppends(cfg, s, steps, [e]);
  }

  lemma RunNone(cfg: Settings, s: State)
    ensures Run(cfg, s, []) == s
  {
  }

  /* ---- One attempt ---- */

  /** The renewals that are made, as steps: up to the first refused one. */
  function RenewSteps(st: Store, id: Id, owner: Id, renewals: seq<Time>, lease: int): seq<Step> {
    if renewals == [] then []
    else
      var front := renewals[..|renewals| - 1];
      RenewSteps(st, id, owner, front, lease)
      + if KeepAlive(st, id, owner, front, lease).1 then [Step.Renew(owner, renewals[|front|], lease)] else []
  }

  /** t is s but for the store and the end of this attempt's lease. */
  ghost predicate OnlyRenewed(s: State, t: State, owner: Id, st: Store)
    requires owner in s.execs
  {
    owner in t.execs && t == s.(store := st, execs := s.execs[owner := s.execs[owner].(end := t.execs[owner].end)])
  }

  lemma {:induction false} RenewalsRun(cfg: Settings, s: State, owner: Id, renewals: seq<Time>, lease: int)
    requires owner in s.execs
    ensures var id := s.execs[owner].job.id;
      OnlyRenewed(s, Run(cfg, s, RenewSteps(s.store, id, owner, renewals, lease)), owner,
                  KeepAlive(s.store, id, owner, renewals, lease).0)
  {
    var id := s.execs[owner].job.id;
    if renewals == [] {
      RunNone(cfg, s);
      assert s.execs[owner := s.execs[owner]] == s.execs;
    } else {
      var front, last := renewals[..|renewals| - 1], renewals[|renewals| - 1];
      var steps := RenewSteps(s.store, id, owner, front, lease);
      RenewalsRun(cfg, s, owner, front, lease);
      var mid := Run(cfg, s, steps);
      hide Run, Next;
      if KeepAlive(s.store, id, owner, front, lease).1 {
        RunOneMore(cfg, s, steps, Step.Renew(owner, last, lease));
        RenewIsNext(cfg, mid, owner, last, lease);
        OneRenewalRuns(s, mid, owner, last, lease);
      } else {
        assert steps + [] == steps;
      }
    }
  }

  lemma RenewIsNext(cfg: Settings, s: State, owner: Id, now: Time, lease: int)
    ensures Next(cfg, s, Step.Renew(owner, now, lease)) == RenewStep(s, owner, now, lease)
  {
    hide RenewStep;
  }

  lemma OneRenewalRuns(s: State, mid: State, owner: Id, now: Time, lease: int)
    requires owner in s.execs && OnlyRenewed(s, mid, owner, mid.store)
    ensures OnlyRenewed(s, RenewStep(mid, owner, now, lease), owner,
                        JobStore.Renew(mid.store, s.execs[owner].job.id, owner, now, lease).0)
  {
  }

  datatype Turn = Turn(now: Time, content: Bytes, run: RunResult, renewals: seq<Time>, later: Time, setAside: bool)

  /** The steps of an attempt after its claim. */
  function AttemptSteps(cfg: Settings, st: Store, ex: Exec, owner: Id, t: Turn): seq<Step> {
    [Begin(owner), WriteReport(owner, t.content, t.now)]
    + (if ex.verdict.Runnable? then RenewSteps(st, ex.job.id, owner, t.renewals, cfg.lease) else [])
    + [Return(owner, RunOf(st, ex.job, owner, ex.verdict, t.run, t.renewals, cfg.lease).1), Step.Finish(owner, t.later)]
  }

  /** The store after the attempt, and whether its settlement was accepted. */
  function Settled(cfg: Settings, st: Store, ex: Exec, owner: Id, t: Turn): (Store, UpdateResult) {
    var (st1, outcome) := RunOf(st, ex.job, owner, ex.verdict, t.run, t.renewals, cfg.lease);
    Settle(st1, ex.job.id, owner, Choose(ex.job, ex.verdict, outcome, cfg, t.later), t.later)
  }

  lemma OpeningSteps(cfg: Settings, s: State, owner: Id, t: Turn)
    requires owner in s.execs && s.execs[owner].phase.Ready? && s.execs[owner].wrote.None?
    requires s.execs[owner].job.id in s.store.jobs && HoldsLease(s.store.jobs[s.execs[owner].job.id], owner, t.now)
    ensures var ex := s.execs[owner]; var u := Run(cfg, s, [Begin(owner), WriteReport(owner, t.content, t.now)]);
      && u.store == s.store && u.messages == s.messages && u.next == s.next && u.consumer == s.consumer && owner in u.execs
      && u.execs[owner] == if ex.verdict.Runnable? then ex.(phase := InRunner, ran := true, wrote := Some(t.content)) else ex
  {
    RunOne(cfg, s, Begin(owner));
    var s1 := Next(cfg, s, Begin(owner));
    RunOneMore(cfg, s, [Begin(owner)], WriteReport(owner, t.content, t.now));
    hide Run;
    assert [Begin(owner)] + [WriteReport(owner, t.content, t.now)] == [Begin(owner), WriteReport(owner, t.content, t.now)];
  }

  lemma ClosingSteps(cfg: Settings, s: State, owner: Id, outcome: RunResult, later: Time)
    requires owner in s.execs
    requires var ex := s.execs[owner];
      || (ex.verdict.Runnable? && ex.phase.InRunner? && ex.wrote.Some?)
      || (!ex.verdict.Runnable? && ex.phase.Ready? && outcome == RunRejected)
    ensures var ex := s.execs[owner]; var u := Run(cfg, s, [Return(owner, outcome), Step.Finish(owner, later)]);
      var (st, updated) := Settle(s.store, ex.job.id, owner, Choose(ex.job, ex.verdict, outcome, cfg, later), later);
      && u.store == st && u.messages == s.messages && u.next == s.next && u.consumer == s.consumer
      && owner in u.execs && u.execs[owner].phase == Over(updated.Updated?)
  {
    RunOne(cfg, s, Return(owner, outcome));
    RunOneMore(cfg, s, [Return(owner, outcome)], Step.Finish(owner, later));
    hide Run, Settle, Choose;
    assert [Return(owner, outcome)] + [Step.Finish(owner, later)] == [Return(owner, outcome), Step.Finish(owner, later)];
  }

  /** Uninterrupted, the steps of an attempt do what the call computes. */
  lemma AttemptIsARun(cfg: Settings, s: State, owner: Id, t: Turn)
    requires owner in s.execs && s.execs[owner].phase.Ready? && s.execs[owner].wrote.None?
    requires s.execs[owner].job.id in s.store.jobs && HoldsLease(s.store.jobs[s.execs[owner].job.id], owner, t.now)
    ensures var u := Run(cfg, s, AttemptSteps(cfg, s.store, s.execs[owner], owner, t));
      var (st, updated) := Settled(cfg, s.store, s.execs[owner], owner, t);
      && u.store == st && u.messages == s.messages && u.next == s.next && u.consumer == s.consumer
      && owner in u.execs && u.execs[owner].phase == Over(updated.Updated?)
  {
    hide Run, Settle, Choose, RenewSteps, KeepAlive;
    var ex := s.execs[owner];
    var opening := [Begin(owner), WriteReport(owner, t.content, t.now)];
    var middle := if ex.verdict.Runnable? then RenewSteps(s.store, ex.job.id, owner, t.renewals, cfg.lease) else [];
    var outcome := RunOf(s.store, ex.job, owner, ex.verdict, t.run, t.renewals, cfg.lease).1;
    OpeningSteps(cfg, s, owner, t);
    var s1 := Run(cfg, s, opening);
    RunAppends(cfg, s, opening, middle);
    if ex.verdict.Runnable? {
      RenewalsRun(cfg, s1, owner, t.renewals, cfg.lease);
    } else {
      RunNone(cfg, s1);
    }
    ClosingSteps(cfg, Run(cfg, s1, middle), owner, outcome, t.later);
    RunAppends(cfg, s, opening + middle, [Return(owner, outcome), Step.Finish(owner, t.later)]);
  }

  /* ---- One call ---- */

  /** The attempt a claim opens. */
  function OpenedBy(cfg: Settings, s: State, event: Event, now: Time): (ex: Exec)
    requires event.Wellformed() && ClaimStep(cfg, s, event, now).1.Claimed?
  {
    var job := ClaimStep(cfg, s, event, now).1.job;
    Exec(job, event, Decide(job, event, cfg.maxAttempts), now, now + cfg.lease, Ready, false, None)
  }

  lemma ClaimOpensAttempt(cfg: Settings, s: State, event: Event, now: Time)
    requires Filed(s) && event.Wellformed()
    ensures var owner := Id("claim", s.store.ids); var (s1, r) := ClaimStep(cfg, s, event, now);
      && s1.messages == s.messages && s1.next == s.next && s1.consumer == s.consumer
      && (r.Claimed? ==>
            && owner in s1.execs && s1.execs[owner] == OpenedBy(cfg, s, event, now)
            && r.job.id in s1.store.jobs && HoldsLease(s1.store.jobs[r.job.id], owner, now))
      && (!r.Claimed? ==> s1.execs == s.execs)
  {
  }

  /** What `Handle` computes, in terms of its claim. */
  lemma HandleByClaim(cfg: Settings, s: State, message: Message, t: Turn)
    requires Filed(s) && message.Decoded().Some?
    ensures var event, owner := message.Decoded().value, Id("claim", s.store.ids);
      var (s1, claim) := ClaimStep(cfg, s, event, t.now);
      var (st, r) := HandleOf(s.store, message, cfg, t.now, t.run, t.renewals, t.later);
      match claim
      case NoSuchJob => st == s1.store && r == UnknownJob && event.jobId.value !in s.store.jobs
      case NotClaimed(job) => st == s1.store && r == if job.status.Terminal() then Done else LeaseBusy
      case Claimed(job) =>
        var (st2, updated) := Settled(cfg, s1.store, OpenedBy(cfg, s, event, t.now), owner, t);
        st == st2 && r == if updated.Updated? then Done else if updated.Refused? then LeaseLost else UnknownJob
  {
    hide RunOf, Settle, Choose, Decide;
    DefaultsKeepSettings(cfg);
  }

  function CallSteps(cfg: Settings, s: State, claim: Step, event: Event, t: Turn): seq<Step>
    requires event.Wellformed()
  {
    var (s1, r) := ClaimStep(cfg, s, event, t.now);
    [claim] + if r.Claimed?
              then AttemptSteps(cfg, s1.store, OpenedBy(cfg, s, event, t.now), Id("claim", s.store.ids), t)
              else []
  }

  /** Uninterrupted, `Handle` does to the store what its steps do in the
      interleaved system, for every outcome of the runner and all renewals. */
  lemma HandleIsARun(cfg: Settings, s: State, message: Message, t: Turn)
    requires Inv(cfg, s) && message.Decoded().Some?
    ensures var event := message.Decoded().value; var u := Run(cfg, s, CallSteps(cfg, s, ClaimElsewhere(event, t.now), event, t));
      && u.store == HandleOf(s.store, message, cfg, t.now, t.run, t.renewals, t.later).0
      && u.messages == s.messages && u.next == s.next && u.consumer == s.consumer
  {
    var event, owner := message.Decoded().value, Id("claim", s.store.ids);
    var first := ClaimElsewhere(event, t.now);
    var (s1, r) := ClaimStep(cfg, s, event, t.now);
    assert Next(cfg, s, first) == s1 by {
      hide ClaimStep;
    }
    hide Next, ClaimStep, AttemptSteps, HandleOf, Settled;
    RunOne(cfg, s, first);
    ClaimOpensAttempt(cfg, s, event, t.now);
    HandleByClaim(cfg, s, message, t);
    if r.Claimed? {
      AttemptIsARun(cfg, s1, owner, t);
      RunAppends(cfg, s, [first], AttemptSteps(cfg, s1.store, s1.execs[owner], owner, t));
    } else {
      assert [first] + [] == [first];
    }
  }

  /* ---- The consumer ---- */

  function HeldSteps(cfg: Settings, s: State, m: Message, t: Turn): seq<Step> {
    if m.Decoded().None? then []
    else CallSteps(cfg, s, ClaimHeld(t.now), m.Decoded().value, t) + [SettleHeld]
  }

  lemma HeldClaim(cfg: Settings, s: State, m: Message, now: Time)
    requires Filed(s) && s.consumer == Holding(m) && m.Decoded().Some?
    ensures var (s1, r) := ClaimStep(cfg, s, m.Decoded().value, now);
      Next(cfg, s, ClaimHeld(now)) == s1.(consumer :=
        if r.Claimed? then Handling(m, Id("claim", s.store.ids))
        else if r.NotClaimed? && r.job.status.Terminal() then Handled(m) else Holding(m))
  {
    ClaimOpensAttempt(cfg, s, m.Decoded().value, now);
    hide ClaimStep;
  }

  lemma SettleHeldIsNext(cfg: Settings, s: State)
    ensures Next(cfg, s, SettleHeld) == SettleHeldStep(s)
  {
    hide SettleHeldStep;
  }

  /** The same for the consumer's own call, which leaves it with the message
      in hand or through with it as `Handle` says. */
  lemma HeldHandleIsARun(cfg: Settings, s: State, m: Message, t: Turn)
    requires Inv(cfg, s) && s.consumer == Holding(m)
    ensures var (st, r) := HandleOf(s.store, m, cfg, t.now, t.run, t.renewals, t.later);
      var u := Run(cfg, s, HeldSteps(cfg, s, m, t));
      && u.store == st && u.messages == s.messages && u.next == s.next
      && u.consumer == if r.Done? then Handled(m) else Holding(m)
  {
    if m.Decoded().None? {
      RunNone(cfg, s);
    } else {
      var event, owner, first := m.Decoded().value, Id("claim", s.store.ids), ClaimHeld(t.now);
      var (s1, r) := ClaimStep(cfg, s, event, t.now);
      hide Next, ClaimStep, AttemptSteps, HandleOf, Settled, Run;
      HeldClaim(cfg, s, m, t.now);
      RunOne(cfg, s, first);
      ClaimOpensAttempt(cfg, s, event, t.now);
      HandleByClaim(cfg, s, m, t);
      var s2 := Next(cfg, s, first);
      var steps := CallSteps(cfg, s, first, event, t);
      if r.Claimed? {
        AttemptIsARun(cfg, s2, owner, t);
        RunAppends(cfg, s, [first], AttemptSteps(cfg, s2.store, s2.execs[owner], owner, t));
      } else {
        assert [first] + [] == [first];
      }
      RunOneMore(cfg, s, steps, SettleHeld);
      SettleHeldIsNext(cfg, Run(cfg, s, steps));
    }
  }

  lemma UnknownJobIsPoison(cfg: Settings, s: State, m: Message, t: Turn)
    requires Filed(s) && HandleOf(s.store, m, cfg, t.now, t.run, t.renewals, t.later).1.UnknownJob?
    ensures var r := HandleOf(s.store, m, cfg, t.now, t.run, t.renewals, t.later).0; m.Decoded().value.jobId.value !in r.jobs
  {
    DefaultsKeepSettings(cfg);
  }

  lemma FiledByInv(cfg: Settings, s: State)
    requires Inv(cfg, s)
    ensures Filed(s)
  {
  }

  /** The message at the cursor needs no further call: it was handled, or it
      cannot be and was set aside. */
  predicate Through(m: Message, r: HandleResult, t: Turn) {
    r.Done? || ((m.Decoded().None? || r.UnknownJob?) && t.setAside)
  }

  /** What the consumer's loop does in these turns, one call of `Handle` each. */
  function ConsumeOf(st: Store, messages: seq<Message>, next: nat, config: Config, turns: seq<Turn>): (Store, nat)
    decreases |turns|
  {
    if turns == [] || next >= |messages| then (st, next)
    else
      var t := turns[0];
      var (st1, r) := HandleOf(st, messages[next], config, t.now, t.run, t.renewals, t.later);
      ConsumeOf(st1, messages, if Through(messages[next], r, t) then next + 1 else next, config, turns[1..])
  }

  /** The consumer's loop: receive, handle the message until the call succeeds
      or the message is set aside, commit.  It waits when the topic is empty,
      and is cancelled when the turns run out, perhaps with a message in hand. */
  method Consume(store: MemoryStore, broker: MemoryBroker, config: Config, turns: seq<Turn>)
    requires broker.Valid()
    modifies store, broker`next
    ensures broker.Valid()
    ensures (store.State(), broker.next) == ConsumeOf(old(store.State()), broker.messages, old(broker.next), config.WithDefaults(), turns)
  {
    hide HandleOf;
    var cfg := config.WithDefaults();
    ghost var messages := broker.messages;
    ghost var goal := ConsumeOf(store.State(), messages, broker.next, cfg, turns);
    var turn := 0;
    assert turns[0..] == turns;
    while turn < |turns|
      invariant 0 <= turn <= |turns| && broker.Valid() && broker.messages == messages
      invariant ConsumeOf(store.State(), messages, broker.next, cfg, turns[turn..]) == goal
      decreases |turns| - turn
    {
      var received := broker.Receive();
      if received.None? {
        break;
      }
      var message := received.value;
      var through := false;
      ghost var first := turn;
      while !through && turn < |turns|
        invariant first <= turn <= |turns| && broker.Valid() && broker.messages == messages
        invariant broker.next < |messages| && messages[broker.next] == message && (through ==> first < turn)
        invariant goal == ConsumeOf(store.State(), messages, if through then broker.next + 1 else broker.next, cfg, turns[turn..])
        decreases |turns| - turn
      {
        var t := turns[turn];
        assert turns[turn..][0] == t && turns[turn..][1..] == turns[turn + 1..];
        var r := Handle(store, message, cfg, t.now, t.run, t.renewals, t.later);
        if r.Done? {
          through := true;
        } else if (message.Decoded().None? || r.UnknownJob?) && t.setAside {
          through := true;
        }
        turn := turn + 1;
      }
      if through {
        broker.Commit();
      }
    }
  }

  /** The consumer has the message at the cursor in hand, or none. */
  ghost predicate AtCursor(s: State) {
    s.consumer.Idle? || (s.next < |s.messages| && s.consumer == Holding(s.messages[s.next]))
  }

  lemma CursorSteps(cfg: Settings, s: State)
    ensures s.consumer.Idle? && s.next < |s.messages| ==> Next(cfg, s, Fetch) == s.(consumer := Holding(s.messages[s.next]))
    ensures s.consumer.Handled? && s.next < |s.messages| ==> Next(cfg, s, Step.Commit) == s.(next := s.next + 1, consumer := Idle)
    ensures s.consumer.Holding? && Poison(s, s.consumer.message) ==>
      Next(cfg, s, Quarantine) == s.(consumer := Handled(s.consumer.message))
    ensures Next(cfg, s, Crash) == s.(consumer := Idle)
  {
  }

  /** With a message in hand, one turn of the loop is a run. */
  lemma TurnIsARun(cfg: Settings, s: State, t: Turn) returns (steps: seq<Step>)
    requires Inv(cfg, s) && s.next < |s.messages| && s.consumer == Holding(s.messages[s.next])
    ensures var m := s.messages[s.next]; var u := Run(cfg, s, steps);
      var (st, r) := HandleOf(s.store, m, cfg, t.now, t.run, t.renewals, t.later);
      && u.store == st && u.messages == s.messages
      && (if Through(m, r, t) then u.next == s.next + 1 && u.consumer.Idle? else u.next == s.next && u.consumer == Holding(m))
  {
    hide Run, Next, HandleOf, HeldSteps, Inv;
    var m := s.messages[s.next];
    var r := HandleOf(s.store, m, cfg, t.now, t.run, t.renewals, t.later).1;
    steps := HeldSteps(cfg, s, m, t);
    HeldHandleIsARun(cfg, s, m, t);
    if Through(m, r, t) {
      if !r.Done? {
        FiledByInv(cfg, s);
        if m.Decoded().Some? {
          UnknownJobIsPoison(cfg, s, m, t);
        }
        CursorSteps(cfg, Run(cfg, s, steps));
        RunOneMore(cfg, s, steps, Quarantine);
        steps := steps + [Quarantine];
      }
      CursorSteps(cfg, Run(cfg, s, steps));
      RunOneMore(cfg, s, steps, Step.Commit);
      steps := steps + [Step.Commit];
    }
  }

  /** The consumer's loop is a run, whatever its turns. */
  lemma {:induction false} ConsumeIsARun(cfg: Settings, s: State, turns: seq<Turn>) returns (steps: seq<Step>)
    requires Inv(cfg, s) && AtCursor(s)
    ensures var u := Run(cfg, s, steps);
      && (u.store, u.next) == ConsumeOf(s.store, s.messages, s.next, cfg, turns)
      && u.messages == s.messages && u.consumer.Idle?
    decreases |turns|
  {
    hide Run, Next, HandleOf, Inv;
    if turns == [] || s.next >= |s.messages| {
      RunOne(cfg, s, Crash);
      CursorSteps(cfg, s);
      steps := [Crash];
    } else {
      var held, fetch := s, [];
      RunNone(cfg, s);
      if s.consumer.Idle? {
        fetch := [Fetch];
        RunOne(cfg, s, Fetch);
        CursorSteps(cfg, s);
        held := Next(cfg, s, Fetch);
      }
      InvAlways(cfg, s, fetch);
      var call := TurnIsARun(cfg, held, turns[0]);
      InvAlways(cfg, held, call);
      var rest := ConsumeIsARun(cfg, Run(cfg, held, call), turns[1..]);
      RunAppends(cfg, held, call, rest);
      RunAppends(cfg, s, fetch, call + rest);
      steps := fetch + (call + rest);
    }
  }

  /* ---- The relay ---- */

  function ScanSteps(rows: seq<Id>, now: Time): seq<Step> {
    if rows == [] then []
    else ScanSteps(rows[..|rows| - 1], now) + [Step.Publish(rows[|rows| - 1]), MarkDone(rows[|rows| - 1], now)]
  }

  lemma PublishAndMark(cfg: Settings, s: State, e: Id, now: Time)
    requires e in s.store.outbox
    ensures Run(cfg, s, [Step.Publish(e), MarkDone(e, now)])
         == s.(store := JobStore.MarkPublished(s.store, e, now, true).0,
               messages := s.messages + [EventMessage(e, s.store.outbox[e])], sent := s.sent + {e})
  {
    RunOne(cfg, s, Step.Publish(e));
    RunOneMore(cfg, s, [Step.Publish(e)], MarkDone(e, now));
    hide Run, JobStore.MarkPublished;
    assert [Step.Publish(e)] + [MarkDone(e, now)] == [Step.Publish(e), MarkDone(e, now)];
  }

  /** Publishing and marking rows one after the other is a run. */
  lemma {:induction false} ScanIsARun(cfg: Settings, s: State, rows: seq<Id>, now: Time)
    requires forall i :: 0 <= i < |rows| ==> rows[i] in s.store.outbox
    ensures var (st, topic) := Relayed(s.store, s.messages, rows, now);
      Run(cfg, s, ScanSteps(rows, now)) == s.(store := st, messages := topic, sent := s.sent + Elements(rows))
  {
    if rows == [] {
      RunNone(cfg, s);
      assert s.sent + Elements(rows) == s.sent;
    } else {
      var front, e := rows[..|rows| - 1], rows[|rows| - 1];
      LastScanned(s, rows, now);
      hide *;
      ScanIsARun(cfg, s, front, now);
      RunAppends(cfg, s, ScanSteps(front, now), [Step.Publish(e), MarkDone(e, now)]);
      PublishAndMark(cfg, Run(cfg, s, ScanSteps(front, now)), e, now);
    }
  }

  lemma LastScanned(s: State, rows: seq<Id>, now: Time)
    requires rows != [] && forall i :: 0 <= i < |rows| ==> rows[i] in s.store.outbox
    ensures var front, e := rows[..|rows| - 1], rows[|rows| - 1]; var (before, topic) := Relayed(s.store, s.messages, front, now);
      && ScanSteps(rows, now) == ScanSteps(front, now) + [Step.Publish(e), MarkDone(e, now)]
      && e in before.outbox && s.sent + Elements(rows) == s.sent + Elements(front) + {e}
      && Relayed(s.store, s.messages, rows, now)
         == (JobStore.MarkPublished(before, e, now, true).0, topic + [EventMessage(e, before.outbox[e])])
  {
    hide JobStore.MarkPublished, EventMessage;
    assert rows == rows[..|rows| - 1] + [rows[|rows| - 1]];
  }

  /* ---- All processes ---- */

  /** The store, the topic and the consumer's cursor. */
  datatype Site = Site(store: Store, messages: seq<Message>, next: nat)

  /** A call of one of the methods, by what it was given and what it found. */
  datatype Operation =
    | Received(input: ReceiveInput, now: Time)              // MemoryStore.Receive
    | Scanned(rows: seq<Id>, refused: Option<Id>, now: Time) // RunOnce
    | Consumed(turns: seq<Turn>)                             // Consume
    | CalledElsewhere(message: Message, turn: Turn)          // Handle, by another worker
    | Recovered(sel: seq<Id>, now: Time)                     // MemoryStore.RecoverExpired

  ghost predicate Possible(site: Site, op: Operation) {
    match op
    case Scanned(rows, refused, _) => forall i :: 0 <= i < |rows| ==> rows[i] in site.store.outbox
    case Recovered(sel, now) => MayRecover(site.store, sel, now)
    case _ => true
  }

  /** What the methods' contracts say of the site. */
  ghost function Apply(cfg: Settings, site: Site, op: Operation): Site
    requires Possible(site, op)
  {
    match op
    case Received(input, now) => site.(store := JobStore.Receive(site.store, input, now).0)
    case Scanned(rows, refused, now) =>
      var (st, topic) := Relayed(site.store, site.messages, rows, now);
      Site(if refused.Some? then JobStore.MarkPublished(st, refused.value, now, false).0 else st, topic, site.next)
    case Consumed(turns) =>
      var (st, next) := ConsumeOf(site.store, site.messages, site.next, cfg, turns);
      site.(store := st, next := next)
    case CalledElsewhere(m, t) => site.(store := HandleOf(site.store, m, cfg, t.now, t.run, t.renewals, t.later).0)
    case Recovered(sel, now) => site.(store := RecoverAll(site.store, sel, now))
  }

  const EMPTY_SITE: Site := Site(EMPTY, [], 0)

  /** Calls of the methods, one after the other, and the sites between them. */
  ghost predicate History(cfg: Settings, sites: seq<Site>, ops: seq<Operation>) {
    && |sites| == |ops| + 1 && sites[0] == EMPTY_SITE
    && forall i :: 0 <= i < |ops| ==> Leads(cfg, sites[i], ops[i], sites[i + 1])
  }

  ghost predicate Leads(cfg: Settings, before: Site, op: Operation, after: Site) {
    Possible(before, op) && after == Apply(cfg, before, op)
  }

  /** s is the site as the system sees it between two calls. */
  ghost predicate Shows(s: State, site: Site) {
    s.store == site.store && s.messages == site.messages && s.next == site.next && s.consumer.Idle?
  }

  lemma OperationIsARun(cfg: Settings, s: State, site: Site, op: Operation) returns (steps: seq<Step>)
    requires Inv(cfg, s) && Shows(s, site) && Possible(site, op)
    ensures Shows(Run(cfg, s, steps), Apply(cfg, site, op))
  {
    hide Run, HandleOf, ConsumeOf, Relayed, RecoverAll, JobStore.Receive, JobStore.MarkPublished, MayRecover, CallSteps, ScanSteps, Inv;
    match op {
      case Received(input, now) =>
        steps := [Submit(input, now)];
        RunOne(cfg, s, steps[0]);
      case Recovered(sel, now) =>
        steps := [Recover(sel, now)];
        RunOne(cfg, s, steps[0]);
      case Consumed(turns) =>
        steps := ConsumeIsARun(cfg, s, turns);
      case CalledElsewhere(m, t) =>
        if m.Decoded().None? {
          steps := [];
          RunNone(cfg, s);
          UndecodableChangesNothing(s.store, m, cfg, t);
        } else {
          steps := CallSteps(cfg, s, ClaimElsewhere(m.Decoded().value, t.now), m.Decoded().value, t);
          HandleIsARun(cfg, s, m, t);
        }
      case Scanned(rows, refused, now) =>
        steps := ScanSteps(rows, now);
        ScanIsARun(cfg, s, rows, now);
        if refused.Some? {
          RunOneMore(cfg, s, steps, MarkFailed(refused.value, now));
          steps := steps + [MarkFailed(refused.value, now)];
        }
    }
  }

  lemma UndecodableChangesNothing(st: Store, m: Message, cfg: Settings, t: Turn)
    requires m.Decoded().None?
    ensures HandleOf(st, m, cfg, t.now, t.run, t.renewals, t.later).0 == st
  {
  }

  lemma {:induction false} OperationsAreARun(cfg: Settings, sites: seq<Site>, ops: seq<Operation>) returns (steps: seq<Step>)
    requires History(cfg, sites, ops)
    ensures Shows(Run(cfg, INITIAL, steps), sites[|ops|])
    decreases |ops|
  {
    hide Run, Apply, Possible;
    if ops == [] {
      steps := [];
      RunNone(cfg, INITIAL);
    } else {
      var k := |ops| - 1;
      var first := OperationsAreARun(cfg, sites[..k + 1], ops[..k]);
      ReachableInv(cfg, first);
      assert Leads(cfg, sites[k], ops[k], sites[k + 1]);
      var more := OperationIsARun(cfg, Run(cfg, INITIAL, first), sites[k], ops[k]);
      RunAppends(cfg, INITIAL, first, more);
      steps := first + more;
    }
  }

  /** Whatever the relay, the consumer, other workers, submissions and recovery
      scans have done to an empty store and topic, each unfinished job has an
      unpublished record or an uncommitted message. */
  lemma OperationsLoseNothing(cfg: Settings, sites: seq<Site>, ops: seq<Operation>, j: Id)
    requires History(cfg, sites, ops)
    ensures var site := sites[|ops|];
      j in site.store.jobs && !site.store.jobs[j].status.Terminal() ==>
        HasPending(site.store, j) || exists k :: site.next <= k < |site.messages| && Names(site.messages[k], j)
  {
    hide Run, History;
    var steps := OperationsAreARun(cfg, sites, ops);
    NoLostJob.NoJobIsLost(cfg, steps);
    var s := Run(cfg, INITIAL, steps);
    if j in s.store.jobs && !s.store.jobs[j].status.Terminal() {
      assert NoLostJob.StillDue(s, j);
    }
  }

  /** A message that cannot be handled holds the consumer up until it is set
      aside; one whose job is over does not hold it up at all. */
  lemma ConsumerGetsPast(st: Store, messages: seq<Message>, next: nat, config: Config, t: Turn)
    requires next < |messages|
    ensures var m := messages[next]; var (r, n) := ConsumeOf(st, messages, next, config, [t]);
      && (m.Decoded().None? ==> n == if t.setAside then next + 1 else next)
      && (m.Decoded().Some? ==>
            var id := m.Decoded().value.jobId.value;
            && (id !in st.jobs ==> n == if t.setAside then next + 1 else next)
            && (id in st.jobs && st.jobs[id].status.Terminal() ==> n == next + 1 && r.jobs == st.jobs))
  {
    var (st1, r) := HandleOf(st, messages[next], config, t.now, t.run, t.renewals, t.later);
    assert [t][1..] == [];
    assert ConsumeOf(st1, messages, if Through(messages[next], r, t) then next + 1 else next, config, [])
        == (st1, if Through(messages[next], r, t) then next + 1 else next);
    hide RunOf, Settle, Choose, Decide;
  }
}
