/**
 The file binding (go/store.go): one record per file, every write a compare-and-swap of one file.
 `files` is what the directory holds; other processes write it between this store's calls.
 */
module FileBinding {
  import opened Options
  import opened JobRecord
  import opened LeaseProtocol

  /** cas.Change around one record: the edit runs on the record on disk and its result is validated. */
  function Changed(r: Record, edit: Mutation): Result<Record> {
    var edited := edit(r);
    if edited.Err? then edited
    else if !edited.value.Valid() then Err(Invalid)
    else edited
  }

  /** What the operations of this binding do to one record: the protocol, then validation. */
  function PerformFile(op: Op, r: Record): Result<Record> {
    Changed(r, (x: Record) => LeaseProtocol.Perform(op, x))
  }

  /** A file that others may have written: the same record after some run of operations. */
  ghost predicate Evolved(was: Record, now: Record) {
    exists ops: seq<Op> :: AllKeepEpoch(ops) && now == After(ops, was)
  }

  ghost predicate Interfered(was: map<string, Record>, now: map<string, Record>) {
    forall id | id in was :: id in now && Evolved(was[id], now[id])
  }

  lemma EvolvedRefl(r: Record)
    ensures Evolved(r, r)
  {
    assert AllKeepEpoch([]) && r == After([], r);
  }

  /** What a claim decided against `seen` needs of the record it finds. */
  function ClaimedFrom(r: Record, seen: int64, owner: string, ttl: int, now: Time): Result<Record> {
    if r.lease.epoch != seen then Err(LeaseHeld) else Claimed(r, owner, ttl, now)
  }

  /** A granted claim decided against `seen` is a claim on the record found, which nobody else claimed since. */
  lemma ClaimedFromIs(r: Record, seen: int64, owner: string, ttl: int, now: Time)
    ensures var out := Changed(r, (x: Record) => ClaimedFrom(x, seen, owner, ttl, now));
            && out == (if r.lease.epoch != seen then Err(LeaseHeld) else PerformFile(OpClaim(owner, ttl, now), r))
            && (out.Ok? ==> out.value.lease.epoch == NextEpoch(seen) && out.value.intent == r.intent)
  {
  }

  /** A proposal without a state is pending. */
  function Submitted(s: State): State {
    if s == OtherState("") then Pending else s
  }

  /** The record a proposal becomes under the id it is stored under. */
  function Proposed(r: Record, id: string, now: Time): Record {
    r.(id := id, state := Submitted(r.state), createdAt := At(now), updatedAt := At(now),
       progress := r.progress.(updatedAt := At(now)))
  }

  /** A submitted record is pending unless its proposal says otherwise, carries the id and one stamp throughout, and keeps
      everything else of the proposal. */
  lemma ProposedIs(r: Record, id: string, now: Time)
    ensures var c := Proposed(r, id, now);
            && c.id == id && c.createdAt == At(now) && c.updatedAt == At(now) && c.progress.updatedAt == At(now)
            && (r.state == OtherState("") ==> c.state.Pending?) && (r.state != OtherState("") ==> c.state == r.state)
            && c.(id := r.id, state := r.state, createdAt := r.createdAt, updatedAt := r.updatedAt, progress := r.progress) == r
            && c.progress.(updatedAt := r.progress.updatedAt) == r.progress
  {
  }

  class FileStore {
    var files: map<string, Record>

    /** Every file holds the valid record its name says. */
    ghost predicate Valid()
      reads this
    {
      forall id | id in files :: files[id].Valid() && files[id].id == id
    }

    constructor ()
      ensures Valid() && files == map[]
    {
      files := map[];
    }

    /** Other processes run any number of operations on any record. */
    method Interference()
      requires Valid()
      modifies this
      ensures Valid() && Interfered(old(files), files)
    {
      forall id | id in files ensures Evolved(files[id], files[id]) {
        EvolvedRefl(files[id]);
      }
    }

    method Submit(proposal: Record, newId: string, now: Time) returns (out: Result<string>)
      requires Valid()
      modifies this
      ensures Valid()
      ensures out.Ok? ==>
                && out.value == (if proposal.id == "" then newId else proposal.id)
                && out.value !in old(files)
                && files == old(files)[out.value := Proposed(proposal, out.value, now)]
      ensures out.Err? ==> files == old(files) && out.error == Invalid
      ensures out.Ok? <==> var id := if proposal.id == "" then newId else proposal.id;
                           id !in old(files) && Proposed(proposal, id, now).Valid()
    {
      var r := proposal;
      if r.id == "" {
        r := r.(id := newId);
      }
      if r.state == OtherState("") {
        r := r.(state := Pending);
      }
      r := r.(createdAt := At(now), updatedAt := At(now), progress := r.progress.(updatedAt := At(now)));
      if !r.Valid() || r.id in files {
        return Err(Invalid);
      }
      files := files[r.id := r];
      out := Ok(r.id);
    }

    method Load(id: string) returns (out: Result<Record>)
      ensures out == if id in files then Ok(files[id]) else Err(NotFound)
    {
      out := if id in files then Ok(files[id]) else Err(NotFound);
    }

    method Change(id: string, edit: Mutation) returns (out: Result<Record>)
      modifies this
      ensures out == if id in old(files) then Changed(old(files)[id], edit) else Err(NotFound)
      ensures files == if out.Ok? then old(files)[id := out.value] else old(files)
    {
      if id !in files {
        return Err(NotFound);
      }
      out := edit(files[id]);
      if out.Ok? {
        if !out.value.Valid() {
          return Err(Invalid);
        }
        files := files[id := out.value];
      }
    }

    method SetIntent(id: string, want: Want, asker: string, now: Time) returns (out: Result<Record>)
      requires Valid()
      modifies this
      ensures Valid()
      ensures out == if !want.Valid() then Err(Invalid)
                     else if id !in old(files) then Err(NotFound)
                     else PerformFile(OpIntent(want, asker, now), old(files)[id])
      ensures files == if out.Ok? then old(files)[id := out.value] else old(files)
    {
      if !want.Valid() {
        return Err(Invalid);
      }
      out := Change(id, (r: Record) =>
        if r.state.Terminal() then Err(TerminalJob)
        else Ok(r.(intent := Some(Intent(want, asker, At(now))), updatedAt := At(now))));
    }

    /** Takes the job as the caller last read it. */
    method ClaimFrom(seen: Record, owner: string, ttl: int, now: Time) returns (out: Result<Record>)
      requires Valid()
      modifies this
      ensures Valid()
      ensures out == if Blank(owner) then Err(Refused("claim requires an owner"))
                     else if seen.id !in old(files) then Err(NotFound)
                     else Changed(old(files)[seen.id], (r: Record) => ClaimedFrom(r, seen.lease.epoch, owner, ttl, now))
      ensures files == if out.Ok? then old(files)[seen.id := out.value] else old(files)
    {
      if Blank(owner) {
        return Err(Refused("claim requires an owner"));
      }
      out := Change(seen.id, (r: Record) =>
        if r.lease.epoch != seen.lease.epoch then Err(LeaseHeld)
        else if r.state.Terminal() then Err(TerminalJob)
        else if r.lease.Held(now) && (r.lease.owner != owner || r.lease.Recalled()) then Err(LeaseHeld)
        else
          var state := if r.state.Pending? || r.state.Running? then Running else r.state;
          Ok(r.(lease := Lease(owner, NextEpoch(r.lease.epoch), At(now + ttl), None), state := state)));
    }

    /** Load, then ClaimFrom, with anything in between: the claim is granted only if no other claim was since
        the load, and it keeps whatever else was written since. */
    method Claim(id: string, owner: string, ttl: int, now: Time) returns (out: Result<Record>, ghost found: Option<Record>)
      requires Valid()
      modifies this
      ensures Valid()
      ensures id !in old(files) ==> out == Err(NotFound) && files == old(files)
      ensures id in old(files) && !Blank(owner) ==>
                && found.Some? && Evolved(old(files)[id], found.value)
                && out == (if found.value.lease.epoch != old(files)[id].lease.epoch then Err(LeaseHeld)
                           else PerformFile(OpClaim(owner, ttl, now), found.value))
      ensures out.Ok? ==> id in files && files[id] == out.value
      ensures out.Ok? ==> found.Some? && out.value.lease.epoch == NextEpoch(old(files)[id].lease.epoch)
                          && out.value.intent == found.value.intent
    {
      found := None;
      var seen := Load(id);
      if seen.Err? {
        return seen, None;
      }
      Interference();
      found := Some(files[id]);
      assert files[id].id == id && seen.value.id == id;
      ClaimedFromIs(files[id], seen.value.lease.epoch, owner, ttl, now);
      out := ClaimFrom(seen.value, owner, ttl, now);
    }

    method Renew(id: string, epoch: int64, ttl: int, checked: Time, stamp: Time) returns (out: Result<Record>)
      requires Valid()
      modifies this
      ensures Valid()
      ensures out == if id in old(files) then PerformFile(OpRenew(epoch, ttl, checked, stamp), old(files)[id]) else Err(NotFound)
      ensures files == if out.Ok? then old(files)[id := out.value] else old(files)
    {
      out := Change(id, (r: Record) =>
        if r.lease.epoch != epoch then Err(StaleEpoch)
        else if !r.lease.Held(checked) then Err(LeaseExpiry)
        else Ok(r.(lease := r.lease.(expiresAt := RenewedUntil(r.lease, stamp + ttl)))));
    }

    method Recall(id: string, epoch: int64, reason: string, asker: string, grace: int, now: Time) returns (out: Result<Record>)
      requires Valid()
      modifies this
      ensures Valid()
      ensures out == if Blank(reason) then Err(Invalid)
                     else if id !in old(files) then Err(NotFound)
                     else PerformFile(OpRecall(epoch, reason, asker, grace, now), old(files)[id])
      ensures files == if out.Ok? then old(files)[id := out.value] else old(files)
    {
      if Blank(reason) {
        return Err(Invalid);
      }
      out := Change(id, (r: Record) => Recalled(r, epoch, reason, asker, grace, now));
    }

    /** The single gate for a holder's writes. */
    method Update(id: string, epoch: int64, mutate: Mutation, checked: Time, stamp: Time) returns (out: Result<Record>)
      requires Valid()
      modifies this
      ensures Valid()
      ensures out == if id in old(files) then PerformFile(OpUpdate(epoch, mutate, checked, stamp), old(files)[id]) else Err(NotFound)
      ensures files == if out.Ok? then old(files)[id := out.value] else old(files)
    {
      out := Change(id, (r: Record) =>
        if r.state.Terminal() then Err(TerminalJob)
        else if r.lease.epoch != epoch then Err(StaleEpoch)
        else if !r.lease.Held(checked) then Err(LeaseExpiry)
        else
          var edited := mutate(r);
          if edited.Err? then edited
          else if !Unmoved(r, edited.value) then Err(Invalid)
          else Ok(edited.value.(updatedAt := At(stamp))));
    }

    method Release(id: string, epoch: int64, checked: Time, gone: Time, stamp: Time) returns (out: Result<Record>)
      requires Valid()
      modifies this
      ensures Valid()
      ensures out == if id in old(files) then PerformFile(OpRelease(epoch, checked, gone, stamp), old(files)[id]) else Err(NotFound)
      ensures files == if out.Ok? then old(files)[id := out.value] else old(files)
    {
      out := Update(id, epoch, LetGo(gone), checked, stamp);
    }
  }
}
