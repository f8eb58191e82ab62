/** The relay's publish-then-mark loop and the in-memory broker. */
module Delivery {
  import opened GoInt
  import opened JobModel
  import opened Prelude
  import opened JobStore
  import opened MemoryStores

  class MemoryBroker {
    var messages: seq<Message>
    var next: nat

    ghost predicate Valid()
      reads this
    {
      next <= |messages|
    }

    constructor ()
      ensures Valid() && messages == [] && next == 0
    {
      messages, next := [], 0;
    }

    method Publish(m: Message)
      modifies this`messages
      ensures messages == old(messages) + [m]
    {
      messages := messages + [m];
    }

    /** The message at the cursor, if any; receiving does not move the cursor. */
    method Receive() returns (m: Option<Message>)
      ensures m == if next < |messages| then Some(messages[next]) else None
    {
      if next < |messages| {
        return Some(messages[next]);
      }
      return None;
    }

    /** Moves the cursor, whichever message the caller has in mind. */
    method Commit()
      requires Valid()
      modifies this`next
      ensures Valid() && next == if old(next) < |messages| then old(next) + 1 else old(next)
    {
      if next < |messages| {
        next := next + 1;
      }
    }
  }

  function EventMessage(e: Id, row: Outbox): Message {
    Message(Some(e), Some(row.event))
  }

  /** The store and the topic after these rows were published and marked, one
      after the other. */
  function Relayed(st: Store, messages: seq<Message>, rows: seq<Id>, now: Time): (r: (Store, seq<Message>))
    requires forall i :: 0 <= i < |rows| ==> rows[i] in st.outbox
    ensures r.0.outbox.Keys == st.outbox.Keys
  {
    if rows == [] then (st, messages)
    else
      var e := rows[|rows| - 1];
      var (before, topic) := Relayed(st, messages, rows[..|rows| - 1], now);
      (JobStore.MarkPublished(before, e, now, true).0, topic + [EventMessage(e, before.outbox[e])])
  }

  /** The outbox after the first n of `rows` were published and marked. */
  ghost predicate MarkedFirst(before: map<Id, Outbox>, after: map<Id, Outbox>, rows: seq<Id>, n: nat)
    requires n <= |rows|
  {
    && after.Keys == before.Keys
    && (forall e :: e in before ==>
          after[e] == if e in rows[..n] then before[e].(pending := false) else before[e])
  }

  lemma NothingRelayed(st: Store, messages: seq<Message>, rows: seq<Id>, now: Time)
    ensures Relayed(st, messages, rows[..0], now) == (st, messages)
  {
  }

  lemma OneMoreRelayed(st: Store, messages: seq<Message>, rows: seq<Id>, n: nat, now: Time)
    requires n < |rows| && forall i :: 0 <= i < |rows| ==> rows[i] in st.outbox
    ensures var (before, topic) := Relayed(st, messages, rows[..n], now);
      Relayed(st, messages, rows[..n + 1], now)
      == (JobStore.MarkPublished(before, rows[n], now, true).0, topic + [EventMessage(rows[n], before.outbox[rows[n]])])
  {
    assert rows[..n + 1][..n] == rows[..n];
  }

  ghost predicate Distinct(rows: seq<Id>) { forall i, k :: 0 <= i < k < |rows| ==> rows[i] != rows[k] }

  lemma NextRow(rows: seq<Id>, n: nat)
    requires Distinct(rows) && n < |rows|
    ensures rows[n] !in rows[..n] && rows[..n + 1] == rows[..n] + [rows[n]]
  {
  }

  lemma MarkOneMore(before: map<Id, Outbox>, st: Store, rows: seq<Id>, n: nat, now: Time)
    requires Distinct(rows) && n < |rows| && rows[n] in before && MarkedFirst(before, st.outbox, rows, n)
    ensures rows[n] in st.outbox && st.outbox[rows[n]] == before[rows[n]]
    ensures var after := JobStore.MarkPublished(st, rows[n], now, true).0;
      after == st.(outbox := after.outbox) && MarkedFirst(before, after.outbox, rows, n + 1)
  {
    NextRow(rows, n);
    hide Distinct;
  }

  /** The topic is what it was, with the events of the first n rows behind it. */
  ghost predicate Appended(messages: seq<Message>, topic: seq<Message>, outbox: map<Id, Outbox>, rows: seq<Id>, n: nat)
    requires n <= |rows| && forall i :: 0 <= i < |rows| ==> rows[i] in outbox
  {
    && |topic| == |messages| + n && messages <= topic
    && forall i :: 0 <= i < n ==> topic[|messages| + i] == EventMessage(rows[i], outbox[rows[i]])
  }

  lemma AppendOneMore(messages: seq<Message>, topic: seq<Message>, outbox: map<Id, Outbox>, rows: seq<Id>, n: nat)
    requires n < |rows| && (forall i :: 0 <= i < |rows| ==> rows[i] in outbox) && Appended(messages, topic, outbox, rows, n)
    ensures Appended(messages, topic + [EventMessage(rows[n], outbox[rows[n]])], outbox, rows, n + 1)
  {
  }

  /** Relaying marks the relayed rows and nothing else, and puts their events on
      the topic in order. */
  lemma {:induction false} RelayedRows(st: Store, messages: seq<Message>, rows: seq<Id>, n: nat, now: Time)
    requires Distinct(rows) && n <= |rows| && forall i :: 0 <= i < |rows| ==> rows[i] in st.outbox
    ensures var (after, topic) := Relayed(st, messages, rows[..n], now);
      && after == st.(outbox := after.outbox) && MarkedFirst(st.outbox, after.outbox, rows, n)
      && Appended(messages, topic, st.outbox, rows, n)
  {
    if n == 0 {
      NothingRelayed(st, messages, rows, now);
    } else {
      hide Relayed, MarkedFirst, Appended, EventMessage, JobStore.MarkPublished, Distinct;
      RelayedRows(st, messages, rows, n - 1, now);
      var before, topic := Relayed(st, messages, rows[..n - 1], now).0, Relayed(st, messages, rows[..n - 1], now).1;
      OneMoreRelayed(st, messages, rows, n - 1, now);
      MarkOneMore(st.outbox, before, rows, n - 1, now);
      AppendOneMore(messages, topic, st.outbox, rows, n - 1);
    }
  }

  /** A row that could not be published stays deliverable, after a back-off. */
  lemma RefusedRow(st: Store, messages: seq<Message>, rows: seq<Id>, n: nat, now: Time)
    requires Distinct(rows) && n < |rows| && forall i :: 0 <= i < |rows| ==> rows[i] in st.outbox && st.outbox[rows[i]].pending
    ensures var e := rows[n]; var (after, _) := Relayed(st, messages, rows[..n], now);
      var marked := JobStore.MarkPublished(after, e, now, false).0.outbox;
      && e in marked && marked[e].pending && marked[e].attempts == st.outbox[e].attempts + 1
      && marked[e].availableAt == now + Min(60_000_000_000, 1_000_000_000 * Pow2(marked[e].attempts - 1))
      && MarkedFirst(st.outbox, marked[e := st.outbox[e]], rows, n)
  {
    hide Relayed;
    RelayedRows(st, messages, rows, n, now);
    NextRow(rows, n);
    var e, after := rows[n], Relayed(st, messages, rows[..n], now).0;
    assert JobStore.MarkPublished(after, e, now, false).0.outbox[e := st.outbox[e]] == after.outbox;
  }

  /** One scan.  `accepts` says which publishes the broker takes; the scan stops
      at the first refusal.  Exactly the published rows are marked, the refused
      row stays deliverable after a back-off, and all others are untouched. */
  method RunOnce(store: MemoryStore, broker: MemoryBroker, batchSize: int, now: Time, accepts: Id -> bool)
    returns (count: nat, refused: Option<Id>, ghost rows: seq<Id>)
    modifies store`outbox, broker`messages
    ensures count <= |rows| && (forall i :: 0 <= i < |rows| ==> rows[i] in old(store.outbox) && old(store.outbox)[rows[i]].pending)
    ensures var limit := if batchSize < 1 then 16 else batchSize;
      && |rows| <= limit && (forall i :: 0 <= i < |rows| ==> old(store.outbox)[rows[i]].availableAt <= now)
      && Distinct(rows)
      && (|rows| < limit ==>
            forall e :: e in old(store.outbox) && old(store.outbox)[e].pending && old(store.outbox)[e].availableAt <= now ==> e in rows)
    ensures forall i :: 0 <= i < count ==> accepts(rows[i])
    ensures refused.None? ==> count == |rows|
    ensures refused.Some? ==> count < |rows| && refused.value == rows[count] && !accepts(refused.value)
    ensures Appended(old(broker.messages), broker.messages, old(store.outbox), rows, count)
    ensures refused.None? ==> MarkedFirst(old(store.outbox), store.outbox, rows, count)
    ensures refused.Some? ==>
      && refused.value in store.outbox && store.outbox[refused.value].pending
      && store.outbox[refused.value].attempts == old(store.outbox)[refused.value].attempts + 1
      && store.outbox[refused.value].availableAt
         == now + Min(60_000_000_000, 1_000_000_000 * Pow2(store.outbox[refused.value].attempts - 1))
      && MarkedFirst(old(store.outbox), store.outbox[refused.value := old(store.outbox)[refused.value]], rows, count)
    ensures var (st, topic) := Relayed(old(store.State()), old(broker.messages), rows[..count], now);
      && broker.messages == topic
      && store.State() == if refused.Some? then JobStore.MarkPublished(st, refused.value, now, false).0 else st
  {
    hide Relayed, MarkedFirst, Distinct, Appended, EventMessage, JobStore.MarkPublished, Min, Pow2;
    var limit := if batchSize < 1 then 16 else batchSize;
    var pending := store.PendingOutbox(limit, now);
    var batch := pending.value;
    rows := batch;
    count := 0;
    ghost var first, topic := store.State(), broker.messages;
    RowsDiffer(batch);
    NothingRelayed(first, topic, batch, now);
    while count < |batch|
      invariant count <= |batch|
      invariant forall i :: 0 <= i < count ==> accepts(batch[i])
      invariant (store.State(), broker.messages) == Relayed(first, topic, batch[..count], now)
      invariant store.jobs == first.jobs && store.byDeliv == first.byDelivery && store.ids == first.ids
    {
      var e := batch[count];
      RelayedRows(first, topic, batch, count, now);
      if !accepts(e) {
        RefusedRow(first, topic, batch, count, now);
        var _ := store.MarkPublished(e, now, false);
        return count, Some(e), batch;
      }
      OneMoreRelayed(first, topic, batch, count, now);
      broker.Publish(EventMessage(e, store.outbox[e]));
      var _ := store.MarkPublished(e, now, true);
      count := count + 1;
    }
    RelayedRows(first, topic, batch, count, now);
    return count, None, batch;
  }

  lemma RowsDiffer(rows: seq<Id>)
    requires forall i, k :: 0 <= i < k < |rows| ==> rows[i] != rows[k]
    ensures Distinct(rows)
  {
  }
}
