/**
 The service binding (go/remote.go, go/serve.go). A closure cannot cross the wire, so Update reads, edits its
 copy, and sends the result conditional on the record still being what it read; it must behave like the
 in-process Update all the same.
 */
module RemoteBinding {
  import opened Options
  import opened JobRecord
  import opened LeaseProtocol
  import opened FileBinding

  /** What a lease holder may change through a socket: the six fields the server copies. */
  function SixFields(rec: Record, want: Record): Record {
    rec.(state := want.state, progress := want.progress, checkpoint := want.checkpoint,
         delegation := want.delegation, error := want.error, extensions := want.extensions)
  }

  /** The closure the server runs for a write computed from `base`. */
  function WriteEdit(base: Record, want: Record): Mutation {
    (rec: Record) =>
      if rec != base then Err(Conflict)
      else if !Unmoved(rec, want) then Err(Invalid)
      else Ok(SixFields(rec, want))
  }

  /** The caller's closure as the wire carries it: its result must be a record, and six fields of it count. */
  function OverTheWire(mutate: Mutation): Mutation {
    (rec: Record) =>
      var edited := mutate(rec);
      if edited.Err? then edited
      else if !edited.value.Valid() || !Unmoved(rec, edited.value) then Err(Invalid)
      else Ok(SixFields(rec, edited.value))
  }

  /** The server's answer to "write", and what it leaves. */
  function Written(held: Record, epoch: int64, base: Record, want: Record, checked: Time, stamp: Time): Result<Record> {
    if !want.Valid() then Err(Invalid)
    else PerformFile(OpUpdate(epoch, WriteEdit(base, want), checked, stamp), held)
  }

  /** A write lands exactly when the record has not moved and the in-process Update of the same closure would be
      accepted on it, and then both leave the same record. */
  lemma WriteIsUpdate(held: Record, base: Record, epoch: int64, mutate: Mutation, checked: Time, stamp: Time)
    requires mutate(base).Ok?
    ensures var remote := Written(held, epoch, base, mutate(base).value, checked, stamp);
            var local := PerformFile(OpUpdate(epoch, OverTheWire(mutate), checked, stamp), held);
            && (remote.Ok? <==> held == base && local.Ok?)
            && (remote.Ok? ==> remote == local)
            && (remote == Err(Conflict) ==> held != base)
  {
  }

  /** So a write that lands leaves what the closure gives on the record it met, and one that conflicts met another. */
  lemma WriteLands(held: Record, base: Record, next: Record, epoch: int64, mutate: Mutation, checked: Time, stamp: Time)
    requires mutate(base) == Ok(next)
    ensures var remote := Written(held, epoch, base, next, checked, stamp);
            && (remote.Ok? ==> remote == PerformFile(OpUpdate(epoch, OverTheWire(mutate), checked, stamp), held))
            && (remote == Err(Conflict) ==> held != base)
  {
    WriteIsUpdate(held, base, epoch, mutate, checked, stamp);
  }

  /** What the closure leaves alone if the server copies everything it changed. */
  predicate ChangesOnlySix(was: Record, now: Record) {
    now.lease == was.lease && now.intent == was.intent && now.requires_ == was.requires_
  }

  /** Where the service binding and the in-process binding differ: an accepted closure that also changed the
      lease, the intent or the requirements. In process that change lands; over the wire it is dropped. */
  lemma SameOnBothBindings(r: Record, epoch: int64, mutate: Mutation, checked: Time, stamp: Time)
    requires r.Valid()
    ensures var wire := PerformFile(OpUpdate(epoch, OverTheWire(mutate), checked, stamp), r);
            var local := PerformFile(OpUpdate(epoch, mutate, checked, stamp), r);
            && (wire.Ok? <==> local.Ok?)
            && (wire == local <==> (local.Ok? ==> ChangesOnlySix(r, mutate(r).value)))
  {
  }

  /** An update that releases through its closure keeps the lease over the wire and loses it in process. */
  lemma BindingsDiffer(r: Record, checked: Time, stamp: Time)
    requires r.Valid() && !r.state.Terminal() && r.lease.Held(checked)
    ensures var mutate := LetGo(stamp);
            PerformFile(OpUpdate(r.lease.epoch, OverTheWire(mutate), checked, stamp), r)
            != PerformFile(OpUpdate(r.lease.epoch, mutate, checked, stamp), r)
  {
    var gone := LetGo(stamp)(r).value;
    assert gone.Valid() && Unmoved(r, gone);
    assert !ChangesOnlySix(r, gone);
    assert gone.(updatedAt := At(stamp)).Valid();
    SameOnBothBindings(r, r.lease.epoch, LetGo(stamp), checked, stamp);
  }

  const UPDATE_ATTEMPTS: nat := 4

  class RemoteStore {
    const server: FileStore

    /** Every write of this client the server accepted: the record it replaced and the record it left. */
    ghost var landed: seq<(Record, Record)>

    constructor (server: FileStore)
      ensures this.server == server && landed == []
    {
      this.server := server;
      landed := [];
    }

    /** One "write" exchange, the only request of this client that changes a record. */
    method Write(id: string, epoch: int64, base: Record, next: Record, checked: Time, stamp: Time)
      returns (out: Result<Record>)
      requires server.Valid()
      modifies this, server
      ensures server.Valid()
      ensures out == if !next.Valid() then Err(Invalid)
                     else if id !in old(server.files) then Err(NotFound)
                     else Written(old(server.files)[id], epoch, base, next, checked, stamp)
      ensures server.files == if out.Ok? then old(server.files)[id := out.value] else old(server.files)
      ensures landed == if out.Ok? then old(landed) + [(old(server.files)[id], out.value)] else old(landed)
    {
      if !next.Valid() {
        return Err(Invalid);
      }
      ghost var held := server.files;
      out := server.Update(id, epoch, WriteEdit(base, next), checked, stamp);
      if out.Ok? {
        landed := landed + [(held[id], out.value)];
      }
    }

    /** reconcile: one read, one edit, one conditional write, with anyone writing in between. `answered` says
        whether the reply to the write arrives; `seen` is the record read, `found` the one the write met. */
    method Reconcile(id: string, epoch: int64, mutate: Mutation, checked: Time, stamp: Time, answered: bool)
      returns (out: Result<Record>, ghost seen: Option<Record>, ghost found: Option<Record>)
      requires server.Valid()
      modifies this, server
      ensures server.Valid()
      ensures seen.Some? && found.Some? ==> Evolved(seen.value, found.value)
      ensures landed == old(landed) || Landed(old(landed), id, epoch, mutate, checked, stamp, found)
      ensures out.Ok? ==> landed != old(landed) && id in server.files && out.value == server.files[id]
      ensures out.Err? && (answered || out == Err(Conflict)) ==> landed == old(landed)
      ensures out == Err(Conflict) ==> Contended(mutate, seen, found)
    {
      server.Interference();
      seen, found := None, None;
      out := server.Load(id);
      if out.Err? {
        return;
      }
      var current := out.value;
      seen := Some(current);
      out := mutate(current);
      if out.Err? {
        return;
      }
      var next := out.value;
      if !next.Valid() {
        return Err(Invalid), seen, None;
      }
      out, found := WriteBack(id, epoch, mutate, current, next, checked, stamp, answered);
    }

    /** The conditional write, some time after `current` was read. */
    method WriteBack(id: string, epoch: int64, ghost mutate: Mutation, current: Record, next: Record, checked: Time, stamp: Time,
                     answered: bool)
      returns (out: Result<Record>, ghost found: Option<Record>)
      requires server.Valid() && id in server.files && server.files[id] == current && mutate(current) == Ok(next) && next.Valid()
      modifies this, server
      ensures server.Valid() && found.Some? && Evolved(current, found.value)
      ensures landed == old(landed) || Landed(old(landed), id, epoch, mutate, checked, stamp, found)
      ensures out.Ok? ==> landed != old(landed) && id in server.files && out.value == server.files[id]
      ensures out.Err? && (answered || out == Err(Conflict)) ==> landed == old(landed)
      ensures out == Err(Conflict) ==> found.value != current
    {
      server.Interference();
      found := Some(server.files[id]);
      WriteLands(server.files[id], current, next, epoch, mutate, checked, stamp);
      out := Write(id, epoch, current, next, checked, stamp);
      assert out.Ok? ==> Landed(old(landed), id, epoch, mutate, checked, stamp, found);
      if !answered {
        out := Err(Refused("no reply"));
      }
    }

    /** Exactly one more write landed, on `was`, and it left what the closure gives on that record. */
    ghost predicate Landed(before: seq<(Record, Record)>, id: string, epoch: int64, mutate: Mutation, checked: Time, stamp: Time,
                           was: Option<Record>)
      reads this, server
    {
      && was.Some? && id in server.files
      && landed == before + [(was.value, server.files[id])]
      && Ok(server.files[id]) == PerformFile(OpUpdate(epoch, OverTheWire(mutate), checked, stamp), was.value)
    }

    /**
     Update, up to four times, on a record that may not exist. If it succeeds, exactly one write landed, and it left what
     the closure gives on the record as it stood at the moment of that write. If it ends in a conflict, this client
     changed nothing, and every one of the four attempts was contended: the record had moved, or the closure itself
     answered a conflict. Only a lost reply leaves the outcome open, and then too at most one write landed, and it left
     what the closure gives.
     */
    method Update(id: string, epoch: int64, mutate: Mutation, checked: nat -> Time, stamp: nat -> Time, answered: nat -> bool)
      returns (out: Result<Record>, ghost attempt: nat, ghost was: Option<Record>, ghost tried: seq<(Option<Record>, Option<Record>)>)
      requires server.Valid()
      modifies this, server
      ensures server.Valid()
      ensures landed == old(landed) || Landed(old(landed), id, epoch, mutate, checked(attempt), stamp(attempt), was)
      ensures out.Ok? ==> landed != old(landed) && id in server.files && out.value == server.files[id]
      ensures out.Err? && (forall n :: answered(n)) ==> landed == old(landed)
      ensures out == Err(Conflict) ==> landed == old(landed) && |tried| == UPDATE_ATTEMPTS
      ensures out == Err(Conflict) ==> forall n | 0 <= n < |tried| :: Contended(mutate, tried[n].0, tried[n].1)
    {
      attempt, was, tried := 0, None, [];
      out := Err(Conflict);
      var n := 0;
      while n < UPDATE_ATTEMPTS
        invariant 0 <= n <= UPDATE_ATTEMPTS
        invariant server.Valid()
        invariant out == Err(Conflict) && landed == old(landed) && |tried| == n
        invariant forall i | 0 <= i < n :: Contended(mutate, tried[i].0, tried[i].1)
      {
        ghost var seen;
        attempt := n;
        out, seen, was := Reconcile(id, epoch, mutate, checked(n), stamp(n), answered(n));
        if out != Err(Conflict) {
          return;
        }
        tried := tried + [(seen, was)];
        n := n + 1;
      }
    }
  }

  /** Why one attempt ended in a conflict: the closure answered one, or the record read was not the one the write met. */
  ghost predicate Contended(mutate: Mutation, seen: Option<Record>, found: Option<Record>) {
    seen.Some? && (mutate(seen.value) == Err(Conflict) || (found.Some? && found != seen))
  }
}
