/** Range sets inside a checkpoint (go/ranges.go, from RangesFromCheckpoint on), over the checkpoint's members. */
module RangeCheckpoints {
  import opened Options
  import opened JobRecord
  import opened Ranges

  /** One member of a JSON object, read as a value of one shape. */
  datatype Member<T> = Missing | Null | WrongShape | Present(value: T)

  /** A checkpoint as JSON: absent or null, something other than an object, or its members. */
  datatype Checkpoint =
    | NoCheckpoint
    | NotAnObject
    | Members(prefix: Member<int64>, verified: Member<seq<seq<int64>>>, others: map<string, Opaque>)

  predicate AllPairs(pairs: seq<seq<int64>>) {
    forall i | 0 <= i < |pairs| :: |pairs[i]| == 2
  }

  function FromPairs(pairs: seq<seq<int64>>): seq<Range>
    requires AllPairs(pairs)
  {
    seq(|pairs|, i requires 0 <= i < |pairs| => Range(pairs[i][0], pairs[i][1]))
  }

  function ToPairs(rs: seq<Range>): (pairs: seq<seq<int64>>)
    ensures AllPairs(pairs) && FromPairs(pairs) == rs
  {
    seq(|rs|, i requires 0 <= i < |rs| => [rs[i].start, rs[i].end])
  }

  /** A prefix is the one range starting at zero. */
  function PrefixRange(prefix: Member<int64>): seq<Range> {
    if prefix.Present? && prefix.value > 0 then [Range(0, prefix.value)] else []
  }

  /** Every range a readable checkpoint claims, by either of its members. */
  function Claims(cp: Checkpoint): Option<seq<Range>> {
    match cp
    case NoCheckpoint => Some([])
    case NotAnObject => None
    case Members(prefix, verified, _) =>
      var pairs := if verified.Present? then verified.value else [];
      if !prefix.WrongShape? && !verified.WrongShape? && AllPairs(pairs) then Some(FromPairs(pairs) + PrefixRange(prefix)) else None
  }

  predicate Readable(cp: Checkpoint) {
    Claims(cp).Some? && forall r | r in Claims(cp).value :: WellFormed(r)
  }

  /** RangesFromCheckpoint: the canonical union of what both members claim. */
  method RangesFromCheckpoint(cp: Checkpoint) returns (out: Result<seq<Range>>)
    ensures out.Ok? <==> Readable(cp)
    ensures out.Ok? ==> out.value == Canon(Claims(cp).value) && Canonical(out.value) && SameBytes(out.value, Claims(cp).value)
  {
    if cp.NoCheckpoint? {
      CanonOfCanonical([]);
      return Ok([]);
    }
    if cp.NotAnObject? || cp.prefix.WrongShape? || cp.verified.WrongShape? {
      return Err(Invalid);
    }
    var input: seq<Range> := [];
    if cp.verified.Present? {
      var pairs := cp.verified.value;
      for i := 0 to |pairs|
        invariant AllPairs(pairs[..i]) && input == FromPairs(pairs[..i])
      {
        if |pairs[i]| != 2 {
          return Err(Invalid);
        }
        input := input + [Range(pairs[i][0], pairs[i][1])];
      }
      assert pairs[..|pairs|] == pairs;
    }
    assert input == FromPairs(if cp.verified.Present? then cp.verified.value else []);
    if cp.prefix.Present? && cp.prefix.value > 0 {
      input := input + [Range(0, cp.prefix.value)];
    }
    assert input == FromPairs(if cp.verified.Present? then cp.verified.value else []) + PrefixRange(cp.prefix);
    out := CanonicalRanges(input);
  }

  /** The checkpoint that spells a canonical set, keeping every other member. */
  function Spelled(cp: Checkpoint, canon: seq<Range>): Checkpoint
    requires !cp.NotAnObject? && Canonical(canon)
  {
    Members(Present(VerifiedPrefix(canon)), Present(ToPairs(canon)), if cp.Members? then cp.others else map[])
  }

  /** CheckpointWithRanges */
  method CheckpointWithRanges(cp: Checkpoint, rs: seq<Range>) returns (out: Result<Checkpoint>)
    ensures out.Ok? <==> !cp.NotAnObject? && forall r | r in rs :: WellFormed(r)
    ensures out.Ok? ==> Canonical(Canon(rs)) && out.value == Spelled(cp, Canon(rs))
  {
    var canon := CanonicalRanges(rs);
    if canon.Err? {
      return Err(canon.error);
    }
    if cp.NotAnObject? {
      return Err(Invalid);
    }
    out := Ok(Spelled(cp, canon.value));
  }

  /** Reading back what was written gives the set written: the derived prefix adds nothing. */
  lemma WrittenReadsBack(cp: Checkpoint, canon: seq<Range>)
    requires !cp.NotAnObject? && Canonical(canon)
    ensures Readable(Spelled(cp, canon))
    ensures Canon(Claims(Spelled(cp, canon)).value) == canon
  {
    var extra := PrefixRange(Present(VerifiedPrefix(canon)));
    var claims := canon + extra;
    assert Claims(Spelled(cp, canon)) == Some(claims);
    CanonicalWellFormed(canon);
    assert forall r | r in claims :: WellFormed(r);
    CanonIsCanonical(claims);
    forall x: int ensures Holds(Canon(claims), x) <==> Holds(canon, x) {
      HoldsConcat(canon, extra, x);
      assert Holds(Canon(claims), x) <==> Holds(claims, x);
    }
    CanonicalIsUnique(Canon(claims), canon);
  }

  /** canonicalCheckpoint: a checkpoint without `verified` stays as it is. */
  function Canonicalized(cp: Checkpoint): Checkpoint
    requires Readable(cp)
  {
    CanonIsCanonical(Claims(cp).value);
    if cp.Members? && !cp.verified.Missing? then Spelled(cp, Canon(Claims(cp).value)) else cp
  }

  /** One state, one spelling: two checkpoints carrying ranges are written alike exactly when their other members agree
      and they prove the same bytes. */
  lemma OneSpelling(a: Checkpoint, b: Checkpoint)
    requires Readable(a) && Readable(b)
    requires a.Members? && b.Members? && !a.verified.Missing? && !b.verified.Missing?
    ensures Canonicalized(a) == Canonicalized(b)
            <==> a.others == b.others && SameBytes(Claims(a).value, Claims(b).value)
  {
    var x, y := Claims(a).value, Claims(b).value;
    CanonIsCanonical(x);
    CanonIsCanonical(y);
    forall r | r in x + y ensures WellFormed(r) {
    }
    SameCanonIffSameBytes(x, y);
    if Canonicalized(a) == Canonicalized(b) {
      assert FromPairs(ToPairs(Canon(x))) == FromPairs(ToPairs(Canon(y)));
    }
  }

  /** Writing a record again changes nothing. */
  lemma CanonicalizedIsStable(cp: Checkpoint)
    requires Readable(cp)
    ensures Readable(Canonicalized(cp)) && Canonicalized(Canonicalized(cp)) == Canonicalized(cp)
  {
    CanonIsCanonical(Claims(cp).value);
    if cp.Members? && !cp.verified.Missing? {
      WrittenReadsBack(cp, Canon(Claims(cp).value));
    }
  }

  const FEATURE_RANGES: string := "abstraction.download/ranges@1"

  function Without(names: seq<string>, name: string): (rest: seq<string>)
    ensures name !in rest && forall n :: n in rest <==> n in names && n != name
  {
    if names == [] then []
    else Without(names[..|names| - 1], name) + if names[|names| - 1] == name then [] else [names[|names| - 1]]
  }

  function PrefixOf(cp: Checkpoint): seq<Range> {
    if cp.Members? then PrefixRange(cp.prefix) else []
  }

  predicate PrefixReadable(cp: Checkpoint) {
    cp.Members? ==> !cp.prefix.WrongShape?
  }

  lemma SameBytesTrans(a: seq<Range>, b: seq<Range>, c: seq<Range>)
    requires SameBytes(b, a) && SameBytes(b, c)
    ensures SameBytes(a, c)
  {
    forall x: int ensures Holds(a, x) <==> Holds(c, x) {
      assert Holds(b, x) <==> Holds(a, x);
    }
  }

  /** The bytes of `now` are those of `before` and one range more. */
  ghost predicate Grown(before: seq<Range>, now: seq<Range>, r: Range) {
    forall x: int :: Holds(now, x) <==> Holds(before, x) || r.start <= x < r.end
  }

  lemma GrownByUnion(claims: seq<Range>, have: seq<Range>, next: seq<Range>, now: seq<Range>, r: Range)
    requires SameBytes(have, claims) && SameBytes(now, next)
    requires forall x: int :: Holds(next, x) <==> Holds(have, x) || Holds([r], x)
    ensures Grown(claims, now, r)
  {
    forall x: int ensures Holds(now, x) <==> Holds(claims, x) || r.start <= x < r.end {
      assert [] + [r] == [r];
      HoldsAppend([], r, x);
      assert Holds(have, x) <==> Holds(claims, x);
      assert Holds(now, x) <==> Holds(next, x);
    }
  }

  /** The two record fields these helpers update. */
  class Carrier {
    var checkpoint: Checkpoint
    var content: seq<string>

    method SetCheckpointRanges(rs: seq<Range>) returns (ok: bool)
      modifies this
      ensures ok <==> !old(checkpoint).NotAnObject? && forall r | r in rs :: WellFormed(r)
      ensures if ok then Canonical(Canon(rs)) && checkpoint == Spelled(old(checkpoint), Canon(rs)) else checkpoint == old(checkpoint)
      ensures content == if ok && FEATURE_RANGES !in old(content) then old(content) + [FEATURE_RANGES] else old(content)
      ensures ok ==> Readable(checkpoint) && SameBytes(Claims(checkpoint).value, rs)
    {
      var next := CheckpointWithRanges(checkpoint, rs);
      if next.Err? {
        return false;
      }
      CanonIsCanonical(rs);
      WrittenReadsBack(checkpoint, Canon(rs));
      checkpoint := next.value;
      CanonIsCanonical(Claims(checkpoint).value);
      SameBytesTrans(Claims(checkpoint).value, Canon(rs), rs);
      if FEATURE_RANGES !in content {
        content := content + [FEATURE_RANGES];
      }
      ok := true;
    }

    /** The ranges proven so far and one more. */
    method WithRange(have: seq<Range>, r: Range) returns (next: Result<seq<Range>>)
      requires Canonical(have)
      ensures next.Ok? <==> WellFormed(r)
      ensures next.Ok? ==> forall s | s in next.value :: WellFormed(s)
      ensures next.Ok? ==> forall x: int :: Holds(next.value, x) <==> Holds(have, x) || Holds([r], x)
    {
      CanonicalWellFormed(have);
      next := Union(have, [r]);
      assert r in have + [r];
      if next.Ok? {
        CanonicalWellFormed(next.value);
      }
    }

    /** One part lands: its bytes are proven, and every byte proven before stays so. */
    method AddCheckpointRange(start: int64, end: int64) returns (ok: bool)
      modifies this
      ensures ok <==> Readable(old(checkpoint)) && WellFormed(Range(start, end))
      ensures !ok ==> checkpoint == old(checkpoint) && content == old(content)
      ensures ok ==> Readable(checkpoint) && FEATURE_RANGES in content
      ensures ok ==> Grown(Claims(old(checkpoint)).value, Claims(checkpoint).value, Range(start, end))
    {
      var have := RangesFromCheckpoint(checkpoint);
      if have.Err? {
        return false;
      }
      var next := WithRange(have.value, Range(start, end));
      if next.Err? {
        return false;
      }
      ok := SetCheckpointRanges(next.value);
      GrownByUnion(Claims(old(checkpoint)).value, have.value, next.value, Claims(checkpoint).value, Range(start, end));
    }

    /** Withdrawing the ranges leaves the prefix: exactly the bytes a reader without ranges would resume from. */
    method ClearCheckpointRanges() returns (ok: bool)
      modifies this
      ensures ok <==> !old(checkpoint).NotAnObject?
      ensures !ok ==> checkpoint == old(checkpoint) && content == old(content)
      ensures ok ==> content == Without(old(content), FEATURE_RANGES)
      ensures ok ==> (Readable(checkpoint) <==> PrefixReadable(old(checkpoint)))
      ensures ok && PrefixReadable(old(checkpoint)) ==> Claims(checkpoint) == Some(PrefixOf(old(checkpoint)))
      ensures ok && old(checkpoint).Members? && old(checkpoint).others != map[] ==>
                checkpoint.Members? && checkpoint.others == old(checkpoint).others
    {
      if checkpoint.NotAnObject? {
        return false;
      }
      if checkpoint.Members? {
        checkpoint := checkpoint.(verified := Missing);
        if checkpoint.prefix.Missing? && checkpoint.others == map[] {
          checkpoint := NoCheckpoint;
        }
      }
      var kept: seq<string> := [];
      for i := 0 to |content|
        invariant kept == Without(content[..i], FEATURE_RANGES)
        invariant content == old(content)
      {
        assert content[..i + 1][..i] == content[..i];
        if content[i] != FEATURE_RANGES {
          kept := kept + [content[i]];
        }
      }
      assert content[..|content|] == content;
      content := kept;
      assert FromPairs([]) + PrefixOf(old(checkpoint)) == PrefixOf(old(checkpoint));
      ok := true;
    }
  }
}
