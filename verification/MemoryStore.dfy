/** The mutable store.  Every method performs exactly the step of the same name
    in module JobStore on the value `State()`. */
module MemoryStores {
  import opened GoInt
  import opened JobModel
  import opened Prelude
  import opened JobStore
  import Spec = JobStore

  class MemoryStore {
    var jobs: map<Id, Job>
    var byDeliv: map<string, Id>
    var outbox: map<Id, Outbox>
    var ids: nat

    function State(): Store
      reads this
    {
      Store(jobs, byDeliv, outbox, ids)
    }

    constructor ()
      ensures State() == EMPTY
    {
      jobs, byDeliv, outbox, ids := map[], map[], map[], 0;
    }

    method NewID(prefix: string) returns (id: Id)
      modifies this`ids
      ensures id == Id(prefix, old(ids)) && ids == old(ids) + 1
    {
      id := Id(prefix, ids);
      ids := ids + 1;
    }

    method Receive(input: ReceiveInput, now: Time) returns (r: ReceiveResult)
      modifies this
      ensures (State(), r) == Spec.Receive(old(State()), input, now)
    {
      if !input.Acceptable() {
        return InvalidInput;
      }
      if input.deliveryId in byDeliv && byDeliv[input.deliveryId] in jobs {
        var prior := jobs[byDeliv[input.deliveryId]];
        if !SameDelivery(prior, input) {
          return DeliveryConflict;
        }
        return Accepted(prior, true);
      }
      var jobID := NewID("job");
      var eventID := NewID("event");
      var job := NewJob(jobID, input, now).(status := Received);
      jobs := jobs[jobID := job];
      byDeliv := byDeliv[input.deliveryId := jobID];
      outbox := outbox[eventID := Outbox(jobID, EventFor(eventID, job, 1), true, 0, now)];
      job := job.(status := Queued, updatedAt := now);
      jobs := jobs[jobID := job];
      assert jobs == old(jobs)[jobID := job];
      return Accepted(job, false);
    }

    method Claim(id: Id, owner: Id, now: Time, lease: int) returns (r: ClaimResult)
      modifies this`jobs
      ensures (State(), r) == Spec.Claim(old(State()), id, owner, now, lease)
    {
      if id !in jobs {
        return NoSuchJob;
      }
      var job := jobs[id];
      if job.status.Terminal() {
        return NotClaimed(job);
      }
      if job.status.Running? && job.leaseUntil > now {
        return NotClaimed(job);
      }
      if (job.status.Queued? || job.status.Retrying?) && job.nextAttemptAt > now {
        return NotClaimed(job);
      }
      job := job.(status := Running, leaseOwner := Some(owner), leaseUntil := now + lease,
                  attempts := job.attempts + 1, updatedAt := now);
      jobs := jobs[id := job];
      return Claimed(job);
    }

    method Finish(id: Id, owner: Id, now: Time, status: Status, reason: string) returns (r: UpdateResult)
      modifies this`jobs
      ensures (State(), r) == Spec.Finish(old(State()), id, owner, now, status, reason)
    {
      if id !in jobs {
        return NotFound;
      }
      var job := jobs[id];
      if !job.status.Running? || job.leaseOwner != Some(owner) || job.leaseUntil <= now {
        return Refused;
      }
      job := job.(status := status, lastError := reason, leaseOwner := None, leaseUntil := ZERO_TIME, updatedAt := now);
      if status.Completed? || status.Rejected? {
        job := job.(completedAt := Some(now));
      }
      jobs := jobs[id := job];
      return Updated;
    }

    method Retry(id: Id, owner: Id, now: Time, next: Time, reason: string) returns (r: UpdateResult)
      modifies this
      ensures (State(), r) == Spec.Retry(old(State()), id, owner, now, next, reason)
    {
      if id !in jobs {
        return NotFound;
      }
      var job := jobs[id];
      if !job.status.Running? || job.leaseOwner != Some(owner) || job.leaseUntil <= now {
        return Refused;
      }
      job := job.(status := Retrying, lastError := reason, nextAttemptAt := next,
                  leaseOwner := None, leaseUntil := ZERO_TIME, updatedAt := now);
      jobs := jobs[id := job];
      var eventID := NewID("retry");
      outbox := outbox[eventID := Outbox(job.id, EventFor(eventID, job, job.attempts + 1), true, 0, next)];
      return Updated;
    }

    method Renew(id: Id, owner: Id, now: Time, lease: int) returns (r: UpdateResult)
      modifies this`jobs
      ensures (State(), r) == Spec.Renew(old(State()), id, owner, now, lease)
    {
      if id !in jobs {
        return NotFound;
      }
      var job := jobs[id];
      if !job.status.Running? || job.leaseOwner != Some(owner) || job.leaseUntil <= now {
        return Refused;
      }
      jobs := jobs[id := job.(leaseUntil := now + lease)];
      return Updated;
    }

    method MarkPublished(eventId: Id, now: Time, published: bool) returns (found: bool)
      modifies this`outbox
      ensures (State(), found) == Spec.MarkPublished(old(State()), eventId, now, published)
    {
      if eventId !in outbox {
        return false;
      }
      var row := outbox[eventId];
      if published {
        row := row.(pending := false);
      } else {
        row := row.(attempts := row.attempts + 1);
        var delay := RetryDelay(SECOND, MINUTE, row.attempts);
        row := row.(availableAt := now + delay);
      }
      outbox := outbox[eventId := row];
      return true;
    }

    /** Up to `limit` deliverable rows; the map is walked in no fixed order. */
    method PendingOutbox(limit: int, now: Time) returns (rows: Option<seq<Id>>)
      ensures rows.None? <==> limit < 1
      ensures rows.Some? ==>
        && |rows.value| <= limit
        && (forall i, k :: 0 <= i < k < |rows.value| ==> rows.value[i] != rows.value[k])
        && (forall e :: e in rows.value ==> e in outbox && outbox[e].pending && outbox[e].availableAt <= now)
        && (|rows.value| < limit ==>
              forall e :: e in outbox && outbox[e].pending && outbox[e].availableAt <= now ==> e in rows.value)
    {
      if limit < 1 {
        return None;
      }
      var result: seq<Id> := [];
      var unseen := outbox.Keys;
      while unseen != {} && |result| < limit
        invariant unseen <= outbox.Keys && |result| <= limit
        invariant forall e :: e in result ==> e in outbox && e !in unseen && outbox[e].pending && outbox[e].availableAt <= now
        invariant forall i, k :: 0 <= i < k < |result| ==> result[i] != result[k]
        invariant forall e :: e in outbox && e !in unseen && outbox[e].pending && outbox[e].availableAt <= now ==> e in result
        decreases unseen
      {
        var e :| e in unseen;
        unseen := unseen - {e};
        if outbox[e].pending && outbox[e].availableAt <= now {
          result := result + [e];
        }
      }
      return Some(result);
    }

    /** The member of `from` updated longest ago. */
    method Oldest(from: set<Id>) returns (oldest: Id)
      requires from != {} && from <= jobs.Keys
      ensures oldest in from
      ensures forall id :: id in from ==> jobs[oldest].updatedAt <= jobs[id].updatedAt
    {
      oldest :| oldest in from;
      var rest := from - {oldest};
      while rest != {}
        invariant rest <= from && oldest in from
        invariant forall id :: id in from && id !in rest ==> jobs[oldest].updatedAt <= jobs[id].updatedAt
        decreases rest
      {
        var id :| id in rest;
        if jobs[id].updatedAt < jobs[oldest].updatedAt {
          oldest := id;
        }
        rest := rest - {id};
      }
    }

    method SelectStale(now: Time, limit: nat) returns (sel: seq<Id>)
      ensures IsSelection(State(), now, limit, sel)
    {
      var rest := StaleJobs(State(), now);
      sel := [];
      while |sel| < limit && rest != {}
        invariant |sel| <= limit
        invariant rest <= StaleJobs(State(), now)
        invariant forall id :: id in StaleJobs(State(), now) <==> id in rest || id in sel
        invariant forall id :: id in sel ==> id !in rest
        invariant forall i :: 0 <= i < |sel| ==> sel[i] in StaleJobs(State(), now)
        invariant forall i, k :: 0 <= i < k < |sel| ==> sel[i] != sel[k]
        invariant forall i, k :: 0 <= i < k < |sel| ==> jobs[sel[i]].updatedAt <= jobs[sel[k]].updatedAt
        invariant forall id, i :: id in rest && 0 <= i < |sel| ==> jobs[sel[i]].updatedAt <= jobs[id].updatedAt
        decreases rest
      {
        var id := Oldest(rest);
        rest := rest - {id};
        sel := sel + [id];
      }
    }

    method RecoverRow(id: Id, now: Time)
      requires id in jobs
      modifies this
      ensures State() == RecoverOne(old(State()), id, now)
    {
      var job := jobs[id].(status := Retrying, leaseOwner := None, leaseUntil := ZERO_TIME,
                           nextAttemptAt := now, updatedAt := now, lastError := "delivery_recovered");
      jobs := jobs[id := job];
      var eventID := NewID("recovery");
      outbox := outbox[eventID := Outbox(job.id, EventFor(eventID, job, job.attempts + 1), true, 0, now)];
    }

    method RecoverExpired(now: Time, limit: nat) returns (count: nat, ghost sel: seq<Id>)
      modifies this
      ensures IsSelection(old(State()), now, limit, sel)
      ensures State() == RecoverAll(old(State()), sel, now) && count == |sel|
    {
      var picked := SelectStale(now, limit);
      sel := picked;
      ghost var before := State();
      count := 0;
      while count < |picked|
        invariant count <= |picked|
        invariant State() == RecoverAll(before, picked[..count], now)
      {
        assert picked[..count + 1][..count] == picked[..count];
        RecoverRow(picked[count], now);
        count := count + 1;
      }
      assert picked[..count] == picked;
    }
  }
}
