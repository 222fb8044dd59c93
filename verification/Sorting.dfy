/** The stores' insertion sort (sortStrings, go/memory.go), over any order, and what a sorted copy is. */
module Sorting {

  /** A strict order under which no two different values are level. */
  ghost predicate Orders<T(!new)>(less: (T, T) -> bool) {
    && (forall a, b :: less(a, b) ==> !less(b, a))
    && (forall a, b :: !less(a, b) && !less(b, a) ==> a == b)
    && (forall a, b, c :: less(a, b) && less(b, c) ==> less(a, c))
  }

  ghost predicate Sorted<T(!new)>(less: (T, T) -> bool, s: seq<T>) {
    forall i, j | 0 <= i < j < |s| :: !less(s[j], s[i])
  }

  /** The list with x put in by scanning from the right. */
  function Inserted<T>(less: (T, T) -> bool, s: seq<T>, x: T): seq<T> {
    if s == [] then [x]
    else if less(x, s[|s| - 1]) then Inserted(less, s[..|s| - 1], x) + [s[|s| - 1]]
    else s + [x]
  }

  function SortedCopy<T>(less: (T, T) -> bool, s: seq<T>): seq<T> {
    if s == [] then [] else Inserted(less, SortedCopy(less, s[..|s| - 1]), s[|s| - 1])
  }

  lemma {:induction false} InsertedKeeps<T(!new)>(less: (T, T) -> bool, s: seq<T>, x: T)
    requires Orders(less) && Sorted(less, s)
    ensures Sorted(less, Inserted(less, s, x))
    ensures multiset(Inserted(less, s, x)) == multiset(s) + multiset{x}
  {
    if s != [] {
      var last := s[|s| - 1];
      assert s == s[..|s| - 1] + [last];
      if less(x, last) {
        InsertedKeeps(less, s[..|s| - 1], x);
        var t := Inserted(less, s[..|s| - 1], x);
        forall i | 0 <= i < |t| ensures !less(last, t[i]) {
          assert t[i] in multiset(t);
        }
      }
    }
  }

  /** The sorted copy is in order and holds exactly what it was given. */
  lemma {:induction false} SortedCopySorts<T(!new)>(less: (T, T) -> bool, s: seq<T>)
    requires Orders(less)
    ensures Sorted(less, SortedCopy(less, s))
    ensures multiset(SortedCopy(less, s)) == multiset(s)
    ensures |SortedCopy(less, s)| == |s|
  {
    if s != [] {
      SortedCopySorts(less, s[..|s| - 1]);
      InsertedKeeps(less, SortedCopy(less, s[..|s| - 1]), s[|s| - 1]);
      assert s == s[..|s| - 1] + [s[|s| - 1]];
      assert |multiset(SortedCopy(less, s))| == |multiset(s)|;
    }
  }

  lemma LastIsGreatest<T(!new)>(less: (T, T) -> bool, s: seq<T>, x: T)
    requires Orders(less) && Sorted(less, s) && x in s
    ensures !less(s[|s| - 1], x)
  {
    var i :| 0 <= i < |s| && s[i] == x;
  }

  lemma LastsAgree<T(!new)>(less: (T, T) -> bool, a: seq<T>, b: seq<T>)
    requires Orders(less) && Sorted(less, a) && Sorted(less, b)
    requires multiset(a) == multiset(b) && a != [] && b != []
    ensures a[|a| - 1] == b[|b| - 1]
  {
    assert a[|a| - 1] in multiset(b) && b[|b| - 1] in multiset(a);
    LastIsGreatest(less, a, b[|b| - 1]);
    LastIsGreatest(less, b, a[|a| - 1]);
  }

  lemma WithoutLast<T>(a: seq<T>)
    requires a != []
    ensures multiset(a[..|a| - 1]) == multiset(a) - multiset{a[|a| - 1]}
  {
    assert a == a[..|a| - 1] + [a[|a| - 1]];
  }

  lemma DropLast<T>(a: seq<T>, b: seq<T>)
    requires multiset(a) == multiset(b) && a != [] && b != [] && a[|a| - 1] == b[|b| - 1]
    ensures multiset(a[..|a| - 1]) == multiset(b[..|b| - 1])
  {
    WithoutLast(a);
    WithoutLast(b);
  }

  /** There is one sorted list for each multiset of values. */
  lemma {:induction false} SortedIsUnique<T(!new)>(less: (T, T) -> bool, a: seq<T>, b: seq<T>)
    requires Orders(less) && Sorted(less, a) && Sorted(less, b)
    requires multiset(a) == multiset(b)
    ensures a == b
  {
    assert |multiset(a)| == |a| && |multiset(b)| == |b|;
    if a != [] {
      LastsAgree(less, a, b);
      DropLast(a, b);
      SortedIsUnique(less, a[..|a| - 1], b[..|b| - 1]);
      assert a == a[..|a| - 1] + [a[|a| - 1]] && b == b[..|b| - 1] + [b[|b| - 1]];
    }
  }

  /** The list after the front with x sunk to place j of it. */
  function Sunk<T>(front: seq<T>, x: T, j: nat, rest: seq<T>): seq<T>
    requires j <= |front|
  {
    front[..j] + [x] + front[j..] + rest
  }

  lemma SunkStep<T>(front: seq<T>, x: T, j: nat, rest: seq<T>)
    requires 0 < j <= |front|
    ensures var s := Sunk(front, x, j, rest);
            && s[j] == x && s[j - 1] == front[j - 1]
            && s[j := front[j - 1]][j - 1 := x] == Sunk(front, x, j - 1, rest)
  {
  }

  lemma InsertedStep<T>(less: (T, T) -> bool, front: seq<T>, x: T, j: nat)
    requires j <= |front|
    ensures j > 0 && less(x, front[j - 1])
            ==> Inserted(less, front[..j], x) + front[j..] == Inserted(less, front[..j - 1], x) + front[j - 1..]
    ensures j == 0 || !less(x, front[j - 1]) ==> Inserted(less, front[..j], x) == front[..j] + [x]
  {
    if j > 0 {
      assert front[..j][j - 1] == front[j - 1] && front[..j][..j - 1] == front[..j - 1];
      assert [front[j - 1]] + front[j..] == front[j - 1..];
    }
  }

  /** One pass of the source's inner loop: the value at i sinks to its place in the sorted front. */
  method Sink<T>(s: array<T>, i: nat, less: (T, T) -> bool)
    requires i < s.Length
    modifies s
    ensures s[..] == Inserted(less, old(s[..i]), old(s[i])) + old(s[i + 1..])
  {
    ghost var front, x, rest := s[..i], s[i], s[i + 1..];
    assert front[..i] == front;
    var j := i;
    while j > 0 && less(s[j], s[j - 1])
      invariant 0 <= j <= i
      invariant s[..] == Sunk(front, x, j, rest)
      invariant Inserted(less, front, x) == Inserted(less, front[..j], x) + front[j..]
    {
      SunkStep(front, x, j, rest);
      InsertedStep(less, front, x, j);
      ghost var was := s[..];
      assert s[j] == was[j] && s[j - 1] == was[j - 1];
      s[j], s[j - 1] := s[j - 1], s[j];
      assert s[..] == was[j := front[j - 1]][j - 1 := x];
      j := j - 1;
    }
    if j > 0 {
      SunkStep(front, x, j, rest);
      ghost var was := s[..];
      assert s[j] == was[j] && s[j - 1] == was[j - 1];
    }
    InsertedStep(less, front, x, j);
  }

  /** Insertion by swapping neighbours, in place. */
  method InsertionSort<T>(s: array<T>, less: (T, T) -> bool)
    modifies s
    ensures s[..] == SortedCopy(less, old(s[..]))
  {
    ghost var was := s[..];
    if s.Length == 0 {
      return;
    }
    assert was[..1] == [was[0]] && was[..1][..0] == [];
    assert was == was[..1] + was[1..];
    var i := 1;
    while i < s.Length
      invariant 1 <= i <= s.Length
      invariant |SortedCopy(less, was[..i])| == i
      invariant s[..] == SortedCopy(less, was[..i]) + was[i..]
    {
      ghost var now := s[..];
      assert was[..i + 1][..i] == was[..i];
      assert s[..i] == now[..i] == SortedCopy(less, was[..i]);
      assert s[i] == now[i] == was[i] && s[i + 1..] == now[i + 1..] == was[i + 1..];
      Sink(s, i, less);
      assert |s[..]| == |Inserted(less, SortedCopy(less, was[..i]), was[i])| + |was[i + 1..]|;
      i := i + 1;
    }
    assert was[..i] == was;
  }

  // ----- Strings -----

  /** Go compares strings byte by byte; over valid UTF-8 that is code point order. */
  predicate StringLess(a: string, b: string) {
    if b == "" then false
    else if a == "" then true
    else a[0] < b[0] || (a[0] == b[0] && StringLess(a[1..], b[1..]))
  }

  /** a and b first differ at n, where a has ended or is smaller. */
  predicate FirstSmaller(a: string, b: string, n: nat) {
    n <= |a| && n < |b| && a[..n] == b[..n] && (n == |a| || a[n] < b[n])
  }

  /** One string comes before another exactly when it is a proper prefix of it, or smaller where they first differ. */
  lemma {:induction false} StringLessIff(a: string, b: string)
    ensures StringLess(a, b) <==> exists n: nat :: FirstSmaller(a, b, n)
  {
    if a != "" && b != "" && a[0] == b[0] {
      StringLessIff(a[1..], b[1..]);
      if n: nat :| FirstSmaller(a[1..], b[1..], n) {
        assert a[..n + 1] == [a[0]] + a[1..][..n] && b[..n + 1] == [b[0]] + b[1..][..n];
        assert FirstSmaller(a, b, n + 1);
      }
      if n: nat :| FirstSmaller(a, b, n) {
        assert n > 0 && a[1..][..n - 1] == a[..n][1..] && b[1..][..n - 1] == b[..n][1..];
        assert FirstSmaller(a[1..], b[1..], n - 1);
      }
    } else {
      assert FirstSmaller(a, b, 0) <==> b != "" && (a == "" || a[0] < b[0]);
      forall n: nat | n > 0 ensures !FirstSmaller(a, b, n) {
        if n <= |a| && n < |b| {
          assert a[..n][0] == a[0] && b[..n][0] == b[0];
        }
      }
    }
  }

  lemma {:induction false} StringLessFacts(a: string, b: string, c: string)
    ensures StringLess(a, b) ==> !StringLess(b, a)
    ensures !StringLess(a, b) && !StringLess(b, a) ==> a == b
    ensures StringLess(a, b) && StringLess(b, c) ==> StringLess(a, c)
  {
    if a != "" && b != "" {
      StringLessFacts(a[1..], b[1..], if c == "" then "" else c[1..]);
      assert a == [a[0]] + a[1..] && b == [b[0]] + b[1..];
    }
  }

  lemma StringLessOrders()
    ensures Orders(StringLess)
  {
    forall a, b, c
      ensures StringLess(a, b) ==> !StringLess(b, a)
      ensures !StringLess(a, b) && !StringLess(b, a) ==> a == b
      ensures StringLess(a, b) && StringLess(b, c) ==> StringLess(a, c)
    {
      StringLessFacts(a, b, c);
    }
  }

  method SortStrings(s: array<string>)
    modifies s
    ensures s[..] == SortedCopy(StringLess, old(s[..]))
  {
    InsertionSort(s, StringLess);
  }

  /** A sorted list of ids: in order, and the same ids. */
  lemma SortedIds(s: seq<string>)
    ensures Sorted(StringLess, SortedCopy(StringLess, s))
    ensures forall id :: id in SortedCopy(StringLess, s) <==> id in s
    ensures |SortedCopy(StringLess, s)| == |s|
  {
    StringLessOrders();
    SortedCopySorts(StringLess, s);
    forall id ensures id in SortedCopy(StringLess, s) <==> id in s {
      assert id in SortedCopy(StringLess, s) <==> id in multiset(SortedCopy(StringLess, s));
    }
  }
}
