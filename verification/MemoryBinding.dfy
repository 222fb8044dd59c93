/**
 The in-memory binding (go/memory.go): the same protocol written again over a map, its sorted listing,
 and where the two local bindings agree.
 */
module MemoryBinding {
  import opened Options
  import opened JobRecord
  import opened LeaseProtocol
  import opened Sorting
  import FileBinding

  /** What this binding does to one record. A claim also stamps the record, and only Update validates. */
  function PerformMemory(op: Op, r: Record): Result<Record> {
    var done := Perform(op, r);
    if done.Err? then done
    else if op.OpClaim? then Ok(done.value.(updatedAt := At(op.now)))
    else if (op.OpUpdate? || op.OpRelease?) && !done.value.Valid() then Err(Invalid)
    else done
  }

  /** An operation whose words both bindings check before they read the record. */
  predicate Spoken(op: Op) {
    match op
    case OpClaim(owner, _, _) => !Blank(owner)
    case OpRecall(_, reason, _, grace, now) => !Blank(reason) && At(now + grace) != 0
    case OpIntent(want, _, _) => want.Valid()
    case _ => true
  }

  /** One application, two bindings: on a valid record they refuse the same calls for the same reason, and leave
      the same record, except that only this binding's claim stamps updated_at. */
  lemma BindingsAgree(op: Op, r: Record)
    requires r.Valid() && Spoken(op)
    ensures FileBinding.PerformFile(op, r).Ok? <==> PerformMemory(op, r).Ok?
    ensures FileBinding.PerformFile(op, r).Err? ==> FileBinding.PerformFile(op, r) == PerformMemory(op, r)
    ensures PerformMemory(op, r).Ok? ==>
              FileBinding.PerformFile(op, r).value
              == PerformMemory(op, r).value.(updatedAt := if op.OpClaim? then r.updatedAt else PerformMemory(op, r).value.updatedAt)
  {
  }

  // ----- The store -----

  function IdsOf(rs: seq<Record>): seq<string> {
    seq(|rs|, i requires 0 <= i < |rs| => rs[i].id)
  }

  /** No id twice, and oldest first. */
  ghost predicate OnceInOrder(rs: seq<Record>) {
    Sorted(StringLess, IdsOf(rs)) && forall i, j | 0 <= i < j < |rs| :: rs[i].id != rs[j].id
  }

  lemma RepeatIsSmaller(ids: seq<string>, i: nat, j: nat)
    requires i < j < |ids| && ids[i] == ids[j]
    ensures |set id | id in ids| < |ids|
  {
    var rest := ids[..i] + ids[i + 1..];
    assert ids == ids[..i] + [ids[i]] + ids[i + 1..];
    assert rest[j - 1] == ids[i];
    assert (set id | id in ids) == (set id | id in rest);
    SetIsNoLarger(rest);
  }

  /** Listing as many ids as there are lists none twice. */
  lemma NoneTwice(ids: seq<string>, records: map<string, Record>)
    requires |ids| == |records| && forall id :: id in ids <==> id in records
    ensures forall i, j | 0 <= i < j < |ids| :: ids[i] != ids[j]
  {
    assert (set id | id in ids) == records.Keys && |records.Keys| == |records|;
    forall i, j | 0 <= i < j < |ids| ensures ids[i] != ids[j] {
      if ids[i] == ids[j] {
        RepeatIsSmaller(ids, i, j);
      }
    }
  }

  lemma {:induction false} SetIsNoLarger(ids: seq<string>)
    ensures |set id | id in ids| <= |ids|
  {
    if ids != [] {
      SetIsNoLarger(ids[1..]);
      assert (set id | id in ids) == (set id | id in ids[1..]) + {ids[0]};
    }
  }

  lemma ListedAll(out: seq<Record>, ids: seq<string>, records: map<string, Record>)
    requires forall id | id in records :: records[id].id == id
    requires |ids| == |records| && (forall id :: id in ids <==> id in records) && Sorted(StringLess, ids)
    requires |out| == |ids| && forall k | 0 <= k < |ids| :: out[k] == records[ids[k]]
    ensures OnceInOrder(out) && forall r :: r in out <==> r.id in records && records[r.id] == r
  {
    assert IdsOf(out) == ids;
    NoneTwice(ids, records);
    forall r ensures r in out <==> r.id in records && records[r.id] == r {
      if r.id in records && records[r.id] == r {
        var k :| 0 <= k < |ids| && ids[k] == r.id;
        assert out[k] == r;
      }
    }
  }

  lemma PickedInOrder(all: seq<Record>, out: seq<Record>, from: seq<nat>)
    requires OnceInOrder(all) && |from| == |out| && forall k | 0 <= k < |from| :: from[k] < |all| && out[k] == all[from[k]]
    requires forall j, k | 0 <= j < k < |from| :: from[j] < from[k]
    ensures OnceInOrder(out)
  {
    forall i, j | 0 <= i < j < |out| ensures out[i].id != out[j].id && !StringLess(IdsOf(out)[j], IdsOf(out)[i]) {
      assert IdsOf(all)[from[i]] == out[i].id && IdsOf(all)[from[j]] == out[j].id;
    }
  }

  class MemoryStore {
    var records: map<string, Record>

    ghost predicate Valid()
      reads this
    {
      forall id | id in records :: records[id].id == id
    }

    constructor ()
      ensures Valid() && records == map[]
    {
      records := map[];
    }

    method Submit(proposal: Record, newId: string, now: Time) returns (out: Result<string>)
      requires Valid()
      modifies this
      ensures Valid()
      ensures out.Ok? ==>
                && out.value == (if proposal.id == "" then newId else proposal.id)
                && out.value !in old(records)
                && records == old(records)[out.value := FileBinding.Proposed(proposal, out.value, now)]
                && records[out.value].Valid()
      ensures out.Err? ==> records == old(records) && out.error == Invalid
      ensures out.Ok? <==> var id := if proposal.id == "" then newId else proposal.id;
                           id !in old(records) && FileBinding.Proposed(proposal, id, now).Valid()
    {
      var r := proposal;
      if r.id == "" {
        r := r.(id := newId);
      }
      if r.id in records {
        return Err(Invalid);
      }
      if r.state == OtherState("") {
        r := r.(state := Pending);
      }
      r := r.(createdAt := At(now), updatedAt := At(now), progress := r.progress.(updatedAt := At(now)));
      if !r.Valid() {
        return Err(Invalid);
      }
      records := records[r.id := r];
      out := Ok(r.id);
    }

    method Load(id: string) returns (out: Result<Record>)
      ensures out == if id in records then Ok(records[id]) else Err(NotFound)
    {
      if id !in records {
        return Err(NotFound);
      }
      out := Ok(records[id]);
    }

    /** The ids of the map, in the order the map gives them. */
    method Ids() returns (ids: array<string>)
      ensures fresh(ids) && ids.Length == |records|
      ensures forall i | 0 <= i < ids.Length :: ids[i] in records
      ensures forall id | id in records :: id in ids[..]
    {
      ids := new string[|records|](i => "");
      var left := records.Keys;
      var n := 0;
      while left != {}
        invariant n + |left| == |records| == ids.Length
        invariant left <= records.Keys
        invariant forall i | 0 <= i < n :: ids[i] in records
        invariant forall id | id in records && id !in left :: id in ids[..n]
        decreases left
      {
        var id :| id in left;
        ids[n] := id;
        left := left - {id};
        n := n + 1;
        assert ids[..n] == ids[..n - 1] + [id];
      }
      assert ids[..n] == ids[..];
    }

    method OrderedIds() returns (ids: array<string>)
      ensures fresh(ids) && ids.Length == |records| && Sorted(StringLess, ids[..])
      ensures forall id :: id in ids[..] <==> id in records
    {
      ids := Ids();
      SortedIds(ids[..]);
      assert forall id :: id in ids[..] <==> id in records;
      SortStrings(ids);
    }

    /** Every record once, oldest id first. */
    method List() returns (out: seq<Record>)
      requires Valid()
      ensures |out| == |records| && OnceInOrder(out)
      ensures forall r :: r in out <==> r.id in records && records[r.id] == r
    {
      var ids := OrderedIds();
      out := [];
      for i := 0 to ids.Length
        invariant |out| == i && forall k | 0 <= k < i :: out[k] == records[ids[..][k]]
      {
        assert ids[..][i] == ids[i] && ids[i] in ids[..];
        out := out + [records[ids[i]]];
      }
      ListedAll(out, ids[..], records);
    }

    /** The work nobody is doing: exactly the claimable, stranded records, each once, oldest id first. */
    method Orphans(now: Time) returns (out: seq<Record>)
      requires Valid()
      ensures OnceInOrder(out)
      ensures forall r :: r in out <==>
                && r.id in records && records[r.id] == r && r.Claimable(now)
                && !r.state.Transferred? && (r.Wants() == WantPause ==> r.state.Running?)
    {
      var all := List();
      out := [];
      ghost var from: seq<nat> := [];
      for i := 0 to |all|
        invariant forall r :: r in out <==> r in all[..i] && r.Claimable(now) && r.Stranded()
        invariant |from| == |out| && forall k | 0 <= k < |from| :: from[k] < i && out[k] == all[from[k]]
        invariant forall j, k | 0 <= j < k < |from| :: from[j] < from[k]
      {
        assert all[..i + 1] == all[..i] + [all[i]];
        if all[i].Claimable(now) && all[i].Stranded() {
          out := out + [all[i]];
          from := from + [i];
        }
      }
      PickedInOrder(all, out, from);
      assert all[..|all|] == all;
    }

    method Claim(id: string, owner: string, ttl: int, now: Time) returns (out: Result<Record>)
      requires Valid()
      modifies this
      ensures Valid()
      ensures out == if id in old(records) then PerformMemory(OpClaim(owner, ttl, now), old(records)[id]) else Err(NotFound)
      ensures records == if out.Ok? then old(records)[id := out.value] else old(records)
    {
      if id !in records {
        return Err(NotFound);
      }
      var r := records[id];
      if r.state.Terminal() {
        return Err(TerminalJob);
      }
      if r.lease.Held(now) && (r.lease.owner != owner || r.lease.Recalled()) {
        return Err(LeaseHeld);
      }
      r := r.(lease := Lease(owner, NextEpoch(r.lease.epoch), At(now + ttl), None));
      if r.state.Pending? || r.state.Running? {
        r := r.(state := Running);
      }
      r := r.(updatedAt := At(now));
      records := records[id := r];
      out := Ok(r);
    }

    method Renew(id: string, epoch: int64, ttl: int, checked: Time, stamp: Time) returns (out: Result<Record>)
      requires Valid()
      modifies this
      ensures Valid()
      ensures out == if id in old(records) then PerformMemory(OpRenew(epoch, ttl, checked, stamp), old(records)[id]) else Err(NotFound)
      ensures records == if out.Ok? then old(records)[id := out.value] else old(records)
    {
      if id !in records {
        return Err(NotFound);
      }
      var r := records[id];
      if r.lease.epoch != epoch {
        return Err(StaleEpoch);
      }
      if !r.lease.Held(checked) {
        return Err(LeaseExpiry);
      }
      r := r.(lease := r.lease.(expiresAt := RenewedUntil(r.lease, stamp + ttl)));
      records := records[id := r];
      out := Ok(r);
    }

    method Recall(id: string, epoch: int64, reason: string, asker: string, grace: int, now: Time) returns (out: Result<Record>)
      requires Valid()
      modifies this
      ensures Valid()
      ensures out == if Blank(reason) then Err(Invalid)
                     else if id !in old(records) then Err(NotFound)
                     else PerformMemory(OpRecall(epoch, reason, asker, grace, now), old(records)[id])
      ensures records == if out.Ok? then old(records)[id := out.value] else old(records)
    {
      if Blank(reason) {
        return Err(Invalid);
      }
      if id !in records {
        return Err(NotFound);
      }
      out := Recalled(records[id], epoch, reason, asker, grace, now);
      if out.Ok? {
        records := records[id := out.value];
      }
    }

    method Update(id: string, epoch: int64, mutate: Mutation, checked: Time, stamp: Time) returns (out: Result<Record>)
      requires Valid()
      modifies this
      ensures Valid()
      ensures out == if id in old(records) then PerformMemory(OpUpdate(epoch, mutate, checked, stamp), old(records)[id]) else Err(NotFound)
      ensures records == if out.Ok? then old(records)[id := out.value] else old(records)
    {
      if id !in records {
        return Err(NotFound);
      }
      var stored := records[id];
      if stored.state.Terminal() {
        return Err(TerminalJob);
      }
      if stored.lease.epoch != epoch {
        return Err(StaleEpoch);
      }
      if !stored.lease.Held(checked) {
        return Err(LeaseExpiry);
      }
      var edited := mutate(stored);
      if edited.Err? {
        return edited;
      }
      var working := edited.value;
      if !Unmoved(stored, working) {
        return Err(Invalid);
      }
      working := working.(updatedAt := At(stamp));
      if !working.Valid() {
        return Err(Invalid);
      }
      records := records[id := working];
      out := Ok(working);
    }

    method Release(id: string, epoch: int64, checked: Time, gone: Time, stamp: Time) returns (out: Result<Record>)
      requires Valid()
      modifies this
      ensures Valid()
      ensures out == if id in old(records) then PerformMemory(OpRelease(epoch, checked, gone, stamp), old(records)[id]) else Err(NotFound)
      ensures records == if out.Ok? then old(records)[id := out.value] else old(records)
    {
      out := Update(id, epoch, LetGo(gone), checked, stamp);
    }

    method SetIntent(id: string, want: Want, asker: string, now: Time) returns (out: Result<Record>)
      requires Valid()
      modifies this
      ensures Valid()
      ensures out == if !want.Valid() then Err(Invalid)
                     else if id !in old(records) then Err(NotFound)
                     else PerformMemory(OpIntent(want, asker, now), old(records)[id])
      ensures records == if out.Ok? then old(records)[id := out.value] else old(records)
    {
      if !want.Valid() {
        return Err(Invalid);
      }
      if id !in records {
        return Err(NotFound);
      }
      var r := records[id];
      if r.state.Terminal() {
        return Err(TerminalJob);
      }
      r := r.(intent := Some(Intent(want, asker, At(now))), updatedAt := At(now));
      records := records[id := r];
      out := Ok(r);
    }
  }
}
