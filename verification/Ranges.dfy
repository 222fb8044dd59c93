/** Checkpoints of byte ranges (go/ranges.go): the canonical form, and the set of bytes it stands for. */
module Ranges {
  import opened JobRecord
  import opened Sorting

  /** A half-open interval of byte offsets. */
  datatype Range = Range(start: int64, end: int64)

  predicate Holds(rs: seq<Range>, b: int) {
    exists i | 0 <= i < |rs| :: rs[i].start <= b < rs[i].end
  }

  /** Two lists prove the same bytes. */
  ghost predicate SameBytes(a: seq<Range>, b: seq<Range>) {
    forall x: int :: Holds(a, x) <==> Holds(b, x)
  }

  /** Sorted, without an empty range, and with a gap between any two. */
  predicate Apart(rs: seq<Range>) {
    && (forall i | 0 <= i < |rs| :: rs[i].start < rs[i].end)
    && (forall i, j | 0 <= i < j < |rs| :: rs[i].end < rs[j].start)
  }

  predicate Canonical(rs: seq<Range>) {
    Apart(rs) && (rs != [] ==> 0 <= rs[0].start)
  }

  predicate WellFormed(r: Range) {
    0 <= r.start <= r.end
  }

  // ----- The canonical form -----

  function NonEmpty(rs: seq<Range>): seq<Range> {
    if rs == [] then []
    else
      var last := rs[|rs| - 1];
      NonEmpty(rs[..|rs| - 1]) + if last.end == last.start then [] else [last]
  }

  predicate RangeLess(a: Range, b: Range) {
    if a.start != b.start then a.start < b.start else a.end < b.end
  }

  /** One more range, starting no earlier than those already merged. */
  function Folded(out: seq<Range>, r: Range): seq<Range> {
    if out != [] && r.start <= out[|out| - 1].end then
      var last := out[|out| - 1];
      out[..|out| - 1] + [if r.end > last.end then last.(end := r.end) else last]
    else out + [r]
  }

  function Merged(rs: seq<Range>): seq<Range> {
    if rs == [] then [] else Folded(Merged(rs[..|rs| - 1]), rs[|rs| - 1])
  }

  function Canon(rs: seq<Range>): seq<Range> {
    Merged(SortedCopy(RangeLess, NonEmpty(rs)))
  }

  /** CanonicalRanges: refuses a negative or reversed range; otherwise sorts and merges. */
  method CanonicalRanges(input: seq<Range>) returns (out: Result<seq<Range>>)
    ensures out.Ok? <==> forall r | r in input :: WellFormed(r)
    ensures out.Ok? ==> out.value == Canon(input)
    ensures out.Ok? ==> Canonical(out.value) && SameBytes(out.value, input)
    ensures out.Err? ==> out.error == Invalid
  {
    var kept: seq<Range> := [];
    for i := 0 to |input|
      invariant kept == NonEmpty(input[..i])
      invariant forall k | 0 <= k < i :: WellFormed(input[k])
    {
      var r := input[i];
      if r.start < 0 || r.end < 0 || r.end < r.start {
        assert r in input && !WellFormed(r);
        return Err(Invalid);
      }
      assert input[..i + 1][..i] == input[..i];
      if r.end != r.start {
        kept := kept + [r];
      }
    }
    assert input[..|input|] == input;
    var sorted := SortedCopy(RangeLess, kept);
    var merged: seq<Range> := [];
    for i := 0 to |sorted|
      invariant merged == Merged(sorted[..i])
    {
      var r := sorted[i];
      assert sorted[..i + 1][..i] == sorted[..i];
      var n := |merged|;
      if n > 0 && r.start <= merged[n - 1].end {
        if r.end > merged[n - 1].end {
          merged := merged[n - 1 := merged[n - 1].(end := r.end)];
        }
      } else {
        merged := merged + [r];
      }
    }
    assert sorted[..|sorted|] == sorted;
    CanonIsCanonical(input);
    out := Ok(merged);
  }

  lemma {:induction false} NonEmptyKeeps(rs: seq<Range>)
    requires forall r | r in rs :: WellFormed(r)
    ensures forall r :: r in NonEmpty(rs) <==> r in rs && r.start < r.end
  {
    if rs != [] {
      NonEmptyKeeps(rs[..|rs| - 1]);
      assert rs == rs[..|rs| - 1] + [rs[|rs| - 1]];
    }
  }

  /** Membership decides the bytes a list proves. */
  lemma MembersDecide(a: seq<Range>, b: seq<Range>)
    requires forall r: Range | r.start < r.end :: r in a <==> r in b
    ensures SameBytes(a, b)
  {
    forall x: int ensures Holds(a, x) <==> Holds(b, x) {
      if Holds(a, x) {
        var i :| 0 <= i < |a| && a[i].start <= x < a[i].end;
        assert a[i] in b;
      }
      if Holds(b, x) {
        var i :| 0 <= i < |b| && b[i].start <= x < b[i].end;
        assert b[i] in a;
      }
    }
  }

  lemma HoldsAppend(a: seq<Range>, r: Range, x: int)
    ensures Holds(a + [r], x) <==> Holds(a, x) || r.start <= x < r.end
  {
    var s := a + [r];
    if Holds(a, x) {
      var i :| 0 <= i < |a| && a[i].start <= x < a[i].end;
      assert s[i] == a[i];
    }
    assert s[|a|] == r;
  }

  /** Merging one more range keeps the form, and proves its bytes too. */
  lemma FoldedForm(out: seq<Range>, r: Range)
    requires Canonical(out) && 0 <= r.start < r.end
    requires out != [] ==> out[|out| - 1].start <= r.start
    ensures Canonical(Folded(out, r))
    ensures Folded(out, r)[|Folded(out, r)| - 1].start <= r.start
  {
    var f, n := Folded(out, r), |out|;
    if n > 0 && r.start <= out[n - 1].end {
      assert |f| == n && f[n - 1].start == out[n - 1].start;
      assert forall i | 0 <= i < n - 1 :: f[i] == out[i];
    } else {
      assert |f| == n + 1 && f[n] == r;
      assert forall i | 0 <= i < n :: f[i] == out[i];
    }
  }

  lemma FoldedBytes(out: seq<Range>, r: Range, x: int)
    requires out != [] ==> out[|out| - 1].start <= r.start
    ensures Holds(Folded(out, r), x) <==> Holds(out, x) || r.start <= x < r.end
  {
    if out != [] && r.start <= out[|out| - 1].end {
      var front, last := out[..|out| - 1], out[|out| - 1];
      assert out == front + [last];
      HoldsAppend(front, last, x);
      HoldsAppend(front, if r.end > last.end then last.(end := r.end) else last, x);
    } else {
      HoldsAppend(out, r, x);
    }
  }

  /** What merging needs of a list: no empty range, and starts in order. */
  predicate InOrder(rs: seq<Range>) {
    && (forall i | 0 <= i < |rs| :: 0 <= rs[i].start < rs[i].end)
    && (forall i, j | 0 <= i < j < |rs| :: rs[i].start <= rs[j].start)
  }

  lemma {:induction false} MergedForm(rs: seq<Range>)
    requires InOrder(rs)
    ensures Canonical(Merged(rs))
    ensures if rs == [] then Merged(rs) == [] else Merged(rs) != [] && Merged(rs)[|Merged(rs)| - 1].start <= rs[|rs| - 1].start
  {
    if rs != [] {
      MergedForm(rs[..|rs| - 1]);
      FoldedForm(Merged(rs[..|rs| - 1]), rs[|rs| - 1]);
    }
  }

  lemma {:induction false} MergedBytes(rs: seq<Range>, x: int)
    requires InOrder(rs)
    ensures Holds(Merged(rs), x) <==> Holds(rs, x)
  {
    if rs != [] {
      var front, last := rs[..|rs| - 1], rs[|rs| - 1];
      assert rs == front + [last];
      assert Merged(front) != [] ==> Merged(front)[|Merged(front)| - 1].start <= last.start by {
        MergedForm(front);
      }
      MergedBytes(front, x);
      FoldedBytes(Merged(front), last, x);
      HoldsAppend(front, last, x);
    }
  }

  lemma RangeLessOrders()
    ensures Orders(RangeLess)
  {
  }

  /** The canonical form is canonical, and proves the same bytes. */
  lemma CanonIsCanonical(rs: seq<Range>)
    requires forall r | r in rs :: WellFormed(r)
    ensures Canonical(Canon(rs)) && SameBytes(Canon(rs), rs)
  {
    var kept := NonEmpty(rs);
    var sorted := SortedCopy(RangeLess, kept);
    NonEmptyKeeps(rs);
    RangeLessOrders();
    SortedCopySorts(RangeLess, kept);
    forall r: Range ensures r in sorted <==> r in kept {
      assert r in multiset(sorted) <==> r in multiset(kept);
    }
    forall i | 0 <= i < |sorted| ensures 0 <= sorted[i].start < sorted[i].end {
      assert sorted[i] in sorted && sorted[i] in rs;
    }
    forall i, j | 0 <= i < j < |sorted| ensures sorted[i].start <= sorted[j].start {
      assert !RangeLess(sorted[j], sorted[i]);
    }
    MergedForm(sorted);
    MembersDecide(sorted, kept);
    MembersDecide(kept, rs);
    forall x: int ensures Holds(Canon(rs), x) <==> Holds(rs, x) {
      MergedBytes(sorted, x);
      assert Holds(sorted, x) <==> Holds(kept, x);
      assert Holds(kept, x) <==> Holds(rs, x);
    }
  }

  /** The first range of a canonical list is where its bytes start, up to the first gap. */
  lemma FirstRange(a: seq<Range>)
    requires Apart(a) && a != []
    ensures forall x | a[0].start <= x < a[0].end :: Holds(a, x)
    ensures !Holds(a, a[0].end) && !Holds(a, a[0].start - 1)
    ensures forall x | Holds(a, x) :: a[0].start <= x
    ensures forall x: int :: Holds(a[1..], x) <==> Holds(a, x) && a[0].end <= x
  {
    forall x: int ensures Holds(a[1..], x) <==> Holds(a, x) && a[0].end <= x {
      if Holds(a[1..], x) {
        var i :| 0 <= i < |a[1..]| && a[1..][i].start <= x < a[1..][i].end;
        assert a[i + 1] == a[1..][i];
      }
      if Holds(a, x) && a[0].end <= x {
        var i :| 0 <= i < |a| && a[i].start <= x < a[i].end;
        assert a[1..][i - 1] == a[i];
      }
    }
  }

  lemma Witness(a: seq<Range>)
    requires Apart(a)
    ensures a != [] ==> Holds(a, a[0].start)
  {
  }

  lemma EmptyTogether(a: seq<Range>, b: seq<Range>)
    requires Apart(a) && Apart(b) && SameBytes(a, b)
    ensures a == [] <==> b == []
  {
    Witness(a);
    Witness(b);
  }

  lemma FirstAgrees(a: seq<Range>, b: seq<Range>)
    requires Apart(a) && Apart(b) && SameBytes(a, b) && a != [] && b != []
    ensures a[0] == b[0] && SameBytes(a[1..], b[1..])
  {
    FirstRange(a);
    FirstRange(b);
    assert Holds(b, a[0].start) && Holds(a, b[0].start);
    assert !Holds(b, a[0].end) && !Holds(a, b[0].end);
  }

  /** One set of bytes has one canonical list. */
  lemma {:induction false} CanonicalIsUnique(a: seq<Range>, b: seq<Range>)
    requires Apart(a) && Apart(b) && SameBytes(a, b)
    ensures a == b
  {
    EmptyTogether(a, b);
    if a != [] {
      FirstAgrees(a, b);
      CanonicalIsUnique(a[1..], b[1..]);
      assert a == [a[0]] + a[1..] && b == [b[0]] + b[1..];
    }
  }

  /** Two valid lists get the same spelling exactly when they prove the same bytes. */
  lemma SameCanonIffSameBytes(a: seq<Range>, b: seq<Range>)
    requires forall r | r in a + b :: WellFormed(r)
    ensures Canon(a) == Canon(b) <==> SameBytes(a, b)
  {
    forall r | r in a ensures WellFormed(r) { assert r in a + b; }
    forall r | r in b ensures WellFormed(r) { assert r in a + b; }
    CanonIsCanonical(a);
    CanonIsCanonical(b);
    if SameBytes(a, b) {
      forall x: int ensures Holds(Canon(a), x) <==> Holds(Canon(b), x) {
        assert Holds(a, x) <==> Holds(b, x);
      }
      CanonicalIsUnique(Canon(a), Canon(b));
    }
    if Canon(a) == Canon(b) {
      forall x: int ensures Holds(a, x) <==> Holds(b, x) {
        assert Holds(Canon(a), x) <==> Holds(a, x);
        assert Holds(Canon(b), x) <==> Holds(b, x);
      }
    }
  }

  lemma CanonicalWellFormed(rs: seq<Range>)
    requires Canonical(rs)
    ensures forall r | r in rs :: WellFormed(r)
  {
    forall r | r in rs ensures WellFormed(r) {
      var i :| 0 <= i < |rs| && rs[i] == r;
      assert i == 0 || rs[0].end < rs[i].start;
    }
  }

  /** A canonical list is its own canonical form. */
  lemma CanonOfCanonical(rs: seq<Range>)
    requires Canonical(rs)
    ensures Canon(rs) == rs
  {
    CanonicalWellFormed(rs);
    CanonIsCanonical(rs);
    CanonicalIsUnique(Canon(rs), rs);
  }

  lemma HoldsConcat(a: seq<Range>, b: seq<Range>, x: int)
    ensures Holds(a + b, x) <==> Holds(a, x) || Holds(b, x)
  {
    var s := a + b;
    if Holds(a, x) {
      var i :| 0 <= i < |a| && a[i].start <= x < a[i].end;
      assert s[i] == a[i];
    }
    if Holds(b, x) {
      var i :| 0 <= i < |b| && b[i].start <= x < b[i].end;
      assert s[|a| + i] == b[i];
    }
  }

  /** Union proves exactly what either set proves. Add is the union with one range. */
  method Union(rs: seq<Range>, other: seq<Range>) returns (out: Result<seq<Range>>)
    ensures out.Ok? <==> forall r | r in rs + other :: WellFormed(r)
    ensures out.Ok? ==> Canonical(out.value) && forall x: int :: Holds(out.value, x) <==> Holds(rs, x) || Holds(other, x)
    ensures out.Ok? ==> out.value == Canon(rs + other)
  {
    out := CanonicalRanges(rs + other);
    if out.Ok? {
      forall x: int ensures Holds(out.value, x) <==> Holds(rs, x) || Holds(other, x) {
        HoldsConcat(rs, other, x);
        assert Holds(out.value, x) <==> Holds(rs + other, x);
      }
    }
  }

  // ----- Queries over a canonical set -----

  lemma PrefixFacts(rs: seq<Range>)
    requires Canonical(rs)
    ensures rs != [] && rs[0].start == 0 ==> 0 < rs[0].end && !Holds(rs, rs[0].end) && forall x | 0 <= x < rs[0].end :: Holds(rs, x)
    ensures rs == [] || rs[0].start != 0 ==> !Holds(rs, 0)
  {
    if rs != [] {
      FirstRange(rs);
    }
  }

  /** VerifiedPrefix: the longest run of proven bytes from zero. */
  function VerifiedPrefix(rs: seq<Range>): (n: int64)
    requires Canonical(rs)
    ensures 0 <= n && !Holds(rs, n)
    ensures forall x | 0 <= x < n :: Holds(rs, x)
  {
    PrefixFacts(rs);
    if |rs| > 0 && rs[0].start == 0 then rs[0].end else 0
  }

  /** Covers: every byte of the interval is proven. */
  method Covers(rs: seq<Range>, start: int64, end: int64) returns (yes: bool)
    requires Apart(rs)
    ensures yes <==> forall x | start <= x < end :: Holds(rs, x)
  {
    if end <= start {
      return true;
    }
    for i := 0 to |rs|
      invariant forall k | 0 <= k < i :: !(rs[k].start <= start && end <= rs[k].end)
    {
      if rs[i].start <= start && end <= rs[i].end {
        assert forall x | start <= x < end :: Holds(rs, x);
        return true;
      }
    }
    yes := false;
    if Holds(rs, start) {
      var k :| 0 <= k < |rs| && rs[k].start <= start < rs[k].end;
      assert rs[k].end < end && !Holds(rs, rs[k].end);
    }
  }

  /** `out` holds what rs leaves unproven between start and end, as far as `at`. */
  ghost predicate MissedTo(rs: seq<Range>, out: seq<Range>, start: int, at: int, end: int) {
    forall x: int :: Holds(out, x) <==> start <= x < at && x < end && !Holds(rs, x)
  }

  /** Past the next range: the bytes before it are unproven, and its own are not. */
  lemma MissedPast(rs: seq<Range>, i: nat, out: seq<Range>, start: int64, at: int64, end: int64)
    requires Apart(rs) && i < |rs| && start <= at && MissedTo(rs, out, start, at, end)
    requires (forall k | 0 <= k < i :: rs[k].end <= at) && at < rs[i].end && rs[i].start < end
    ensures MissedTo(rs, if rs[i].start > at then out + [Range(at, rs[i].start)] else out, start, rs[i].end, end)
  {
    var r := rs[i];
    var next := if r.start > at then out + [Range(at, r.start)] else out;
    forall x: int ensures Holds(next, x) <==> start <= x < r.end && x < end && !Holds(rs, x) {
      if r.start > at {
        HoldsAppend(out, Range(at, r.start), x);
      }
      if at <= x < r.start {
        Unproven(rs, i, at, r.start, x);
      }
      assert r.start <= x < r.end ==> Holds(rs, x);
    }
  }

  /** No range reaches between one that ends by `at` and the next, which starts at or after `end`. */
  lemma Unproven(rs: seq<Range>, i: nat, at: int, end: int, x: int)
    requires Apart(rs) && i <= |rs| && (forall k | 0 <= k < i :: rs[k].end <= at) && (i < |rs| ==> end <= rs[i].start)
    requires at <= x < end
    ensures !Holds(rs, x)
  {
    forall k | 0 <= k < |rs| ensures !(rs[k].start <= x < rs[k].end) {
      if k > i {
        assert rs[i].end < rs[k].start;
      }
    }
  }

  lemma MissedRest(rs: seq<Range>, i: nat, out: seq<Range>, start: int64, at: int64, end: int64)
    requires Apart(rs) && i <= |rs| && start <= at < end && MissedTo(rs, out, start, at, end)
    requires (forall k | 0 <= k < i :: rs[k].end <= at) && (i < |rs| ==> end <= rs[i].start)
    ensures MissedTo(rs, out + [Range(at, end)], start, end, end)
  {
    forall x: int ensures Holds(out + [Range(at, end)], x) <==> start <= x < end && !Holds(rs, x) {
      HoldsAppend(out, Range(at, end), x);
      if at <= x < end {
        Unproven(rs, i, at, end, x);
      }
    }
  }

  lemma ApartWith(rs: seq<Range>, r: Range)
    requires Apart(rs) && r.start < r.end && (rs != [] ==> rs[|rs| - 1].end < r.start)
    ensures Apart(rs + [r])
  {
    var all := rs + [r];
    forall i, j | 0 <= i < j < |all| ensures all[i].end < all[j].start {
      if j == |rs| && i < |rs| - 1 {
        assert rs[i].end < rs[|rs| - 1].start;
      }
    }
  }

  /** Missing: exactly the unproven bytes of the interval, canonically. */
  method Missing(rs: seq<Range>, start: int64, end: int64) returns (out: seq<Range>)
    requires Apart(rs)
    ensures Apart(out) && (0 <= start ==> Canonical(out))
    ensures forall x: int :: Holds(out, x) <==> start <= x < end && !Holds(rs, x)
  {
    out := [];
    var at: int64 := start;
    var i := 0;
    while i < |rs|
      invariant 0 <= i <= |rs|
      invariant start <= at && Apart(out)
      invariant out != [] ==> start <= out[0].start && out[|out| - 1].end < at
      invariant MissedTo(rs, out, start, at, end)
      invariant forall k | 0 <= k < i :: rs[k].end <= at
    {
      var r := rs[i];
      if r.end <= at {
        i := i + 1;
        continue;
      }
      if r.start >= end {
        break;
      }
      MissedPast(rs, i, out, start, at, end);
      if r.start > at {
        ApartWith(out, Range(at, r.start));
        out := out + [Range(at, r.start)];
      }
      at := r.end;
      i := i + 1;
      if at >= end {
        break;
      }
    }
    if at < end {
      MissedRest(rs, i, out, start, at, end);
      ApartWith(out, Range(at, end));
      out := out + [Range(at, end)];
    }
  }

  ghost function Bytes(lo: int, hi: int): (s: set<int>)
    ensures forall x :: x in s <==> lo <= x < hi
    ensures lo <= hi ==> |s| == hi - lo
    decreases hi - lo
  {
    if hi <= lo then {} else Bytes(lo, hi - 1) + {hi - 1}
  }

  /** The bytes a canonical list proves. */
  ghost function Proven(rs: seq<Range>): (s: set<int>)
    ensures Canonical(rs) ==> forall x: int :: x in s <==> Holds(rs, x)
  {
    set x: int | 0 <= x <= INT64_MAX && Holds(rs, x)
  }

  /** Total: the size of the set. The running sum stays below the last end, so int64 holds it. */
  method Total(rs: seq<Range>) returns (n: int64)
    requires Canonical(rs)
    ensures n == |Proven(rs)|
  {
    n := 0;
    for i := 0 to |rs|
      invariant n == |Proven(rs[..i])| && 0 <= n
      invariant i > 0 ==> n <= rs[i - 1].end
    {
      var r := rs[i];
      assert 0 <= r.start by { assert i == 0 || rs[i - 1].end < r.start; }
      assert rs[..i + 1] == rs[..i] + [r];
      ProvenNext(rs[..i], r);
      n := n + (r.end - r.start);
    }
    assert rs[..|rs|] == rs;
  }

  lemma ProvenAppend(rs: seq<Range>, r: Range)
    requires 0 <= r.start
    ensures Proven(rs + [r]) == Proven(rs) + Bytes(r.start, r.end)
  {
    forall x: int ensures x in Proven(rs + [r]) <==> x in Proven(rs) + Bytes(r.start, r.end) {
      HoldsAppend(rs, r, x);
    }
  }

  lemma ProvenBefore(before: seq<Range>, r: Range)
    requires Canonical(before + [r])
    ensures Canonical(before) && Proven(before) !! Bytes(r.start, r.end) && 0 <= r.start
  {
    var rs := before + [r];
    assert forall i | 0 <= i < |before| :: before[i] == rs[i];
    assert rs[|before|] == r;
  }

  lemma ProvenNext(before: seq<Range>, r: Range)
    requires Canonical(before + [r])
    ensures |Proven(before + [r])| == |Proven(before)| + (r.end - r.start)
  {
    ProvenBefore(before, r);
    ProvenAppend(before, r);
    DisjointSize(Proven(before), Bytes(r.start, r.end));
    assert (before + [r])[|before|] == r;
  }

  lemma DisjointSize(a: set<int>, b: set<int>)
    requires a !! b
    ensures |a + b| == |a| + |b|
  {
  }
}
