/** What one `RecoverExpired` scan achieves, whatever the broker has lost. */
module Recovery {
  import opened JobModel
  import opened JobStore
  import opened Prelude

  /** Facts every reachable store satisfies (NoLostJob.ReachableStoresRecover
      shows it): no job is left in RECEIVED, jobs are filed under their own id,
      and event ids come from the counter. */
  ghost predicate Consistent(st: Store) {
    && (forall id :: id in st.jobs ==> st.jobs[id].id == id && !st.jobs[id].status.Received?)
    && (forall e :: e in st.outbox ==> e.n < st.ids)
  }

  ghost predicate Distinct(sel: seq<Id>) {
    forall i, k :: 0 <= i < k < |sel| ==> sel[i] != sel[k]
  }

  ghost predicate Recovered(before: Job, after: Job, now: Time) {
    after == before.(status := Retrying, leaseOwner := None, leaseUntil := ZERO_TIME,
                     nextAttemptAt := now, updatedAt := now, lastError := "delivery_recovered")
  }

  ghost predicate OutboxGrows(before: Store, after: Store) {
    forall e :: e in before.outbox ==> e in after.outbox && after.outbox[e] == before.outbox[e]
  }

  /** The scan rewrites exactly the selected jobs. */
  lemma {:induction false} RecoverRewritesSelection(st: Store, sel: seq<Id>, now: Time)
    requires Distinct(sel)
    requires forall i :: 0 <= i < |sel| ==> sel[i] in st.jobs
    ensures var r := RecoverAll(st, sel, now);
      && r.byDelivery == st.byDelivery && r.ids == st.ids + |sel|
      && (forall id :: id in st.jobs && id !in sel ==> r.jobs[id] == st.jobs[id])
      && (forall id :: id in sel ==> id in st.jobs && Recovered(st.jobs[id], r.jobs[id], now))
  {
    if sel != [] {
      RecoverRewritesSelection(st, sel[..|sel| - 1], now);
    }
  }

  lemma RecoverOneEnqueues(st: Store, id: Id, now: Time)
    requires Consistent(st) && id in st.jobs
    ensures var r := RecoverOne(st, id, now);
      && Consistent(r) && OutboxGrows(st, r) && HasPending(r, id)
      && (forall e :: e in r.outbox && e !in st.outbox ==> r.outbox[e].jobId == id)
  {
    var r, added := RecoverOne(st, id, now), Id("recovery", st.ids);
    assert added !in st.outbox;
    assert r.outbox[added].pending && r.outbox[added].jobId == id;
  }

  ghost predicate Enqueued(before: Store, after: Store, sel: seq<Id>) {
    && Consistent(after) && OutboxGrows(before, after)
    && (forall i :: 0 <= i < |sel| ==> HasPending(after, sel[i]))
    && (forall e :: e in after.outbox && e !in before.outbox ==> after.outbox[e].jobId in sel)
  }

  lemma EnqueuedStep(st: Store, mid: Store, front: seq<Id>, id: Id, now: Time)
    requires Enqueued(st, mid, front) && id in mid.jobs
    ensures Enqueued(st, RecoverOne(mid, id, now), front + [id])
  {
    var r, sel := RecoverOne(mid, id, now), front + [id];
    RecoverOneEnqueues(mid, id, now);
    forall i | 0 <= i < |sel|
      ensures HasPending(r, sel[i])
    {
      if i < |front| {
        assert HasPending(mid, front[i]);
        PendingSurvives(mid, r, front[i]);
      }
    }
    forall e | e in r.outbox && e !in st.outbox
      ensures r.outbox[e].jobId in sel
    {
      if e in mid.outbox {
        assert mid.outbox[e].jobId in front && r.outbox[e] == mid.outbox[e];
      }
    }
  }

  lemma RecoverAllUnfolds(st: Store, sel: seq<Id>, now: Time)
    requires sel != []
    requires forall i :: 0 <= i < |sel| ==> sel[i] in st.jobs
    ensures RecoverAll(st, sel, now) == RecoverOne(RecoverAll(st, sel[..|sel| - 1], now), sel[|sel| - 1], now)
  {
  }

  lemma NothingEnqueued(st: Store, now: Time)
    requires Consistent(st)
    ensures RecoverAll(st, [], now) == st && Enqueued(st, st, [])
  {
  }

  /** It keeps every outbox record and files new ones under unused ids, for
      selected jobs only, each of which ends up with a deliverable record. */
  lemma {:induction false} RecoverEnqueuesSelection(st: Store, sel: seq<Id>, now: Time)
    requires Consistent(st)
    requires forall i :: 0 <= i < |sel| ==> sel[i] in st.jobs
    ensures Enqueued(st, RecoverAll(st, sel, now), sel)
  {
    hide RecoverAll, RecoverOne, Enqueued, Consistent;
    if sel == [] {
      NothingEnqueued(st, now);
    } else {
      var front, id := sel[..|sel| - 1], sel[|sel| - 1];
      RecoverEnqueuesSelection(st, front, now);
      RecoverAllUnfolds(st, sel, now);
      EnqueuedStep(st, RecoverAll(st, front, now), front, id, now);
      assert front + [id] == sel;
    }
  }

  lemma PendingSurvives(before: Store, after: Store, id: Id)
    requires OutboxGrows(before, after) && HasPending(before, id)
    ensures HasPending(after, id)
  {
    var e :| e in before.outbox && before.outbox[e].pending && before.outbox[e].jobId == id;
    assert after.outbox[e] == before.outbox[e];
  }

  /** Whether one job still needs recovery after the scan. */
  lemma StaleAfterScan(st: Store, now: Time, limit: nat, sel: seq<Id>, id: Id)
    requires Consistent(st) && IsSelection(st, now, limit, sel)
    requires id in st.jobs
    ensures var r := RecoverAll(st, sel, now);
      && (id in sel ==> !Stale(r, r.jobs[id], now) && HasPending(r, id))
      && (id !in sel ==> r.jobs[id] == st.jobs[id] && (HasPending(r, id) <==> HasPending(st, id)))
  {
    RecoverRewritesSelection(st, sel, now);
    RecoverEnqueuesSelection(st, sel, now);
    var r := RecoverAll(st, sel, now);
    if id in sel {
      var i :| 0 <= i < |sel| && sel[i] == id;
      assert HasPending(r, sel[i]);
    } else {
      if HasPending(st, id) {
        PendingSurvives(st, r, id);
      }
      if HasPending(r, id) {
        var e :| e in r.outbox && r.outbox[e].pending && r.outbox[e].jobId == id;
        assert e in st.outbox;
      }
    }
  }

  /** A scan settles exactly the jobs it selected: afterwards, at the same
      instant, the stale jobs are the ones it had no room for. */
  lemma ScanRemovesItsSelection(st: Store, now: Time, limit: nat, sel: seq<Id>)
    requires Consistent(st) && IsSelection(st, now, limit, sel)
    ensures StaleJobs(RecoverAll(st, sel, now), now) == set id | id in StaleJobs(st, now) && id !in sel
  {
    forall id | id in st.jobs
      ensures id in StaleJobs(RecoverAll(st, sel, now), now) <==> id in StaleJobs(st, now) && id !in sel
    {
      StaleAfterScan(st, now, limit, sel, id);
    }
  }

  lemma {:induction false} EnoughRoomSelectsAll(sel: seq<Id>, stale: set<Id>)
    requires Distinct(sel) && |sel| >= |stale|
    requires forall i :: 0 <= i < |sel| ==> sel[i] in stale
    ensures forall id :: id in stale ==> id in sel
  {
    if sel != [] {
      var front, last := sel[..|sel| - 1], sel[|sel| - 1];
      assert |stale - {last}| == |stale| - 1;
      EnoughRoomSelectsAll(front, stale - {last});
      assert forall id :: id in front ==> id in sel;
      assert last in sel;
    }
  }

  /** Every lease has run out and every schedule and five-minute grace is past. */
  ghost predicate Overdue(st: Store, now: Time) {
    forall id :: id in st.jobs && !st.jobs[id].status.Terminal() ==>
      if st.jobs[id].status.Running? then st.jobs[id].leaseUntil <= now
      else st.jobs[id].nextAttemptAt <= now && st.jobs[id].updatedAt <= now - FIVE_MINUTES
  }

  lemma WideScanSelectsEveryStaleJob(st: Store, now: Time, limit: nat, sel: seq<Id>)
    requires IsSelection(st, now, limit, sel) && limit >= |StaleJobs(st, now)|
    ensures forall id :: id in StaleJobs(st, now) ==> id in sel
  {
    if |sel| >= limit {
      EnoughRoomSelectsAll(sel, StaleJobs(st, now));
    }
  }

  lemma RecoveredJob(st: Store, now: Time, limit: nat, sel: seq<Id>, id: Id)
    requires Consistent(st) && Overdue(st, now) && id in st.jobs
    requires IsSelection(st, now, limit, sel) && limit >= |StaleJobs(st, now)|
    ensures var r := RecoverAll(st, sel, now);
      && (!r.jobs[id].status.Terminal() ==> HasPending(r, id))
      && (st.jobs[id].status.Running? ==> r.jobs[id].status.Retrying? && r.jobs[id].leaseOwner == None)
      && (st.jobs[id].status.Terminal() ==> r.jobs[id] == st.jobs[id])
      && !Stale(r, r.jobs[id], now)
  {
    WideScanSelectsEveryStaleJob(st, now, limit, sel);
    hide RecoverAll, HasPending, Consistent;
    RecoverRewritesSelection(st, sel, now);
    StaleAfterScan(st, now, limit, sel, id);
  }

  lemma SelectionIsOnFile(st: Store, now: Time, limit: nat, sel: seq<Id>)
    requires IsSelection(st, now, limit, sel)
    ensures forall i :: 0 <= i < |sel| ==> sel[i] in st.jobs
  {
  }

  /** What a scan should achieve: every unfinished job has a deliverable record,
      every expired owner is out, terminal jobs are as they were, and there is
      nothing left to recover. */
  ghost predicate AllRecovered(st: Store, r: Store, now: Time) {
    && (forall id :: id in r.jobs && !r.jobs[id].status.Terminal() ==> HasPending(r, id))
    && (forall id :: id in st.jobs && st.jobs[id].status.Running? ==>
          id in r.jobs && r.jobs[id].status.Retrying? && r.jobs[id].leaseOwner == None)
    && (forall id :: id in st.jobs && st.jobs[id].status.Terminal() ==> id in r.jobs && r.jobs[id] == st.jobs[id])
    && StaleJobs(r, now) == {}
  }

  /** Recovery completeness.  No premise speaks of the broker: every message
      may have been lost. */
  lemma RecoveryIsComplete(st: Store, now: Time, limit: nat, sel: seq<Id>)
    requires Consistent(st) && Overdue(st, now)
    requires IsSelection(st, now, limit, sel) && limit >= |StaleJobs(st, now)|
    ensures AllRecovered(st, RecoverAll(st, sel, now), now)
  {
    hide RecoverAll, HasPending, Stale, Consistent, Overdue, IsSelection;
    SelectionIsOnFile(st, now, limit, sel);
    var r := RecoverAll(st, sel, now);
    forall id | id in st.jobs
      ensures !r.jobs[id].status.Terminal() ==> HasPending(r, id)
      ensures st.jobs[id].status.Running? ==> r.jobs[id].status.Retrying? && r.jobs[id].leaseOwner == None
      ensures st.jobs[id].status.Terminal() ==> r.jobs[id] == st.jobs[id]
      ensures !Stale(r, r.jobs[id], now)
    {
      RecoveredJob(st, now, limit, sel, id);
    }
  }
}
