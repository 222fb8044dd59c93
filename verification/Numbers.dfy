/** Integers on the wire (go/rec/rec.go: num, integer): one spelling each, and no overflow on the way. */
module Numbers {
  import opened Decimals
  import opened Bytes

  const TWO63: int := 0x8000_0000_0000_0000
  const TWO64: int := 0x1_0000_0000_0000_0000

  type int64 = n: int | -TWO63 <= n < TWO63 witness 0
  type uint64 = n: int | 0 <= n < TWO64 witness 0

  // ----- Writing -----

  function Decimal(u: nat): bytes {
    (if u < 10 then [] else Decimal(u / 10)) + [ZERO + u % 10]
  }

  function Magnitude(n: int): nat {
    if n < 0 then 0 - n else n
  }

  function Num(n: int64): bytes {
    (if n < 0 then [MINUS] else []) + Decimal(Magnitude(n))
  }

  lemma {:induction false} DecimalShape(u: nat)
    ensures Decimal(u) != [] && (forall i | 0 <= i < |Decimal(u)| :: IsDigit(Decimal(u)[i]))
    ensures Decimal(u)[0] == ZERO <==> u == 0
  {
    if u >= 10 {
      DecimalShape(u / 10);
    }
  }

  /** num: the digits go into the end of a 24-byte buffer, which they never overflow. */
  method NumInto(n: int64) returns (out: bytes)
    ensures out == Num(n)
  {
    if n == 0 {
      return [ZERO];
    }
    var u: uint64 := if n < 0 then (TWO64 - (n + TWO64) % TWO64) % TWO64 else n;
    assert u == Magnitude(n);
    var digits := PutDigits(u);
    out := (if n < 0 then [MINUS] else []) + digits;
  }

  method PutDigits(start: uint64) returns (digits: bytes)
    requires 0 < start <= TWO63
    ensures digits == Decimal(start)
  {
    var d := new byte[24](i => 0);
    var p := 24;
    var u: uint64 := start;
    while u > 0
      invariant 0 <= p <= 24 && 0 <= u && Fits(u, 24 - p, start)
      invariant Decimal(start) == Unwritten(u) + d[p..]
    {
      PutLast(d, p, u, start);
      p := p - 1;
      u := u / 10;
    }
    digits := d[p..];
  }

  method PutLast(d: array<byte>, p: nat, u: nat, ghost start: nat)
    requires d.Length == 24 && p <= 24 && u > 0 && Fits(u, 24 - p, start) && Decimal(start) == Unwritten(u) + d[p..]
    modifies d
    ensures p > 0 && Fits(u / 10, 24 - (p - 1), start) && Decimal(start) == Unwritten(u / 10) + d[p - 1..]
  {
    FitsLess(u, 24 - p, start);
    Assoc3(Unwritten(u / 10), [ZERO + u % 10], d[p..]);
    PutDigit(d, p - 1, ZERO + u % 10);
  }

  method PutDigit(d: array<byte>, p: nat, digit: byte)
    requires p < d.Length
    modifies d
    ensures d[p..] == [digit] + old(d[p + 1..])
  {
    d[p] := digit;
  }

  function Unwritten(u: nat): bytes {
    if u == 0 then [] else Decimal(u)
  }

  /** u, with `written` digits below it, is no more than the value being printed. */
  predicate Fits(u: nat, written: nat, start: nat) {
    u * Pow10(written) <= start <= TWO63
  }

  lemma FitsLess(u: nat, written: nat, start: nat)
    requires u > 0 && Fits(u, written, start)
    ensures written < 19 && Fits(u / 10, written + 1, start)
    ensures Unwritten(u) == Unwritten(u / 10) + [ZERO + u % 10]
  {
    RoomLeft(u, written);
    SmallerByTen(u, Pow10(written));
  }

  lemma SmallerByTen(u: nat, p: nat)
    ensures u / 10 * (10 * p) <= u * p
  {
    assert u / 10 * 10 <= u;
    assert u / 10 * 10 * p <= u * p;
  }

  lemma BigPower()
    ensures Pow10(19) == 10000000000000000000
  {
    assert Pow10(5) == 100000;
    assert Pow10(10) == 10000000000;
    assert Pow10(15) == 1000000000000000;
  }

  lemma AtLeast(u: nat, p: nat, q: nat)
    requires u > 0 && p <= q
    ensures p <= u * q
  {
    assert q <= u * q;
  }

  lemma BigProduct(u: nat, n: nat)
    requires u > 0 && n >= 19
    ensures u * Pow10(n) > TWO63
  {
    Pow10Grows(19, n);
    BigPower();
    AtLeast(u, Pow10(19), Pow10(n));
  }

  /** A value up to 2^63 has at most nineteen digits. */
  lemma RoomLeft(u: nat, written: nat)
    requires u > 0 && u * Pow10(written) <= TWO63
    ensures written < 19
  {
    if written >= 19 {
      BigProduct(u, written);
    }
  }

  lemma {:induction false} Pow10Grows(a: nat, b: nat)
    requires a <= b
    ensures Pow10(a) <= Pow10(b)
  {
    if a < b {
      Pow10Grows(a, b - 1);
    }
  }

  // ----- Reading -----

  /** The digits from here on, added to u; refused before the accumulator could leave int64 by more than its sign. */
  function Scan(s: bytes, u: nat): (p: Parse<nat>)
    requires u <= 9223372036854775809
    ensures p.Done? ==> p.value <= 9223372036854775809 && |p.rest| <= |s|
    ensures p.Refused? ==> p.left <= |s|
    decreases |s|
  {
    if !IsDigit(Front(s)) then Done(u, s)
    else if u > 922337203685477580 then Refused("number_spelling", |s|)
    else Scan(s[1..], 10 * u + (s[0] - ZERO))
  }

  /** The sign and magnitude as an int64, when they are one's only spelling and lie within the bounds. */
  function Signed(neg: bool, u: nat, min: int, max: int, rest: bytes): (p: Parse<int>)
    ensures p.Done? ==> p.rest == rest
    ensures p.Refused? ==> p.left == |rest|
  {
    var refused := Refused("number_spelling", |rest|);
    var c := Front(rest);
    if c == DOT || c == 101 || c == 69 || IsDigit(c) then refused
    else if neg && u == 0 then refused
    else if !(neg && u == TWO63) && u > TWO63 - 1 then refused
    else
      var n: int := if neg then 0 - u else u;
      if n < min || n > max then refused else Done(n, rest)
  }

  /** integer */
  function Integer(s: bytes, min: int, max: int): (p: Parse<int>)
    ensures p.Done? ==> |p.rest| < |s| && min <= p.value <= max
    ensures p.Refused? ==> p.left <= |s|
  {
    var c := Front(s);
    if c != MINUS && !IsDigit(c) then Refused("wrong_type", |s|)
    else
      var neg := c == MINUS;
      var body := if neg then s[1..] else s;
      if !IsDigit(Front(body)) then Refused("malformed", |body|)
      else if Front(body) == ZERO then Signed(neg, 0, min, max, body[1..])
      else
        var u := Scan(body, 0);
        if u.Refused? then Refused(u.word, u.left) else Signed(neg, u.value, min, max, u.rest)
  }

  /** u followed by more digits. */
  function ValueFrom(u: nat, ds: bytes): (v: nat)
    requires AllDigits(ds)
    ensures ds != [] ==> v >= 10 * u
    ensures ds == [] ==> v == u
    decreases |ds|
  {
    if ds == [] then u else ValueFrom(10 * u + (ds[0] - ZERO), ds[1..])
  }

  lemma {:induction false} ValueAppend(u: nat, ds: bytes, c: byte)
    requires AllDigits(ds) && IsDigit(c)
    ensures AllDigits(ds + [c]) && ValueFrom(u, ds + [c]) == 10 * ValueFrom(u, ds) + (c - ZERO)
    decreases |ds|
  {
    if ds == [] {
      assert [c][1..] == [];
    } else {
      ValueAppend(10 * u + (ds[0] - ZERO), ds[1..], c);
      assert (ds + [c])[1..] == ds[1..] + [c];
    }
  }

  lemma {:induction false} ValueOfDecimal(u: nat)
    ensures AllDigits(Decimal(u)) && ValueFrom(0, Decimal(u)) == u
  {
    var c: byte := ZERO + u % 10;
    if u < 10 {
      ValueAppend(0, [], c);
    } else {
      ValueOfDecimal(u / 10);
      ValueAppend(0, Decimal(u / 10), c);
    }
  }

  lemma DecimalAppend(u: nat, c: byte)
    requires u > 0 && IsDigit(c)
    ensures Decimal(10 * u + (c - ZERO)) == Decimal(u) + [c]
  {
    var v := 10 * u + (c - ZERO);
    assert v / 10 == u && v % 10 == c - ZERO;
  }

  /** Digits without a leading zero are the decimal spelling of their value. */
  lemma {:induction false} DecimalOfValue(ds: bytes)
    requires AllDigits(ds) && ds != [] && ds[0] != ZERO
    ensures ValueFrom(0, ds) > 0 && Decimal(ValueFrom(0, ds)) == ds
    decreases |ds|
  {
    var front, c := ds[..|ds| - 1], ds[|ds| - 1];
    assert ds == front + [c];
    ValueAppend(0, front, c);
    if front == [] {
      assert Decimal(c - ZERO) == [c];
    } else {
      DecimalOfValue(front);
      DecimalAppend(ValueFrom(0, front), c);
    }
  }

  lemma {:induction false} ScanReads(ds: bytes, u: nat, t: bytes)
    requires AllDigits(ds) && ValueFrom(u, ds) <= TWO63
    ensures u <= TWO63 && Scan(ds + t, u) == Scan(t, ValueFrom(u, ds))
    decreases |ds|
  {
    if ds == [] {
      assert ds + t == t;
    } else {
      ScanReads(ds[1..], 10 * u + (ds[0] - ZERO), t);
      assert (ds + t)[1..] == ds[1..] + t;
    }
  }

  lemma TakenNext(s: bytes, rest: bytes)
    requires |rest| < |s|
    ensures Taken(s, rest) == [s[0]] + Taken(s[1..], rest)
    ensures s[1..] == Taken(s[1..], rest) + rest ==> s == Taken(s, rest) + rest
  {
    assert s == [s[0]] + s[1..];
  }

  lemma ValueNext(u: nat, c: byte, ds: bytes)
    requires IsDigit(c) && AllDigits(ds)
    ensures AllDigits([c] + ds) && ValueFrom(u, [c] + ds) == ValueFrom(10 * u + (c - ZERO), ds)
  {
    assert ([c] + ds)[1..] == ds;
  }

  lemma {:induction false} ScanTakes(s: bytes, u: nat, v: nat, rest: bytes)
    requires u <= 9223372036854775809 && Scan(s, u) == Done(v, rest)
    ensures AllDigits(Taken(s, rest)) && v == ValueFrom(u, Taken(s, rest)) && s == Taken(s, rest) + rest
    decreases |s|
  {
    if IsDigit(Front(s)) {
      ScanTakes(s[1..], 10 * u + (s[0] - ZERO), v, rest);
      TakenNext(s, rest);
      ValueNext(u, s[0], Taken(s[1..], rest));
    }
  }

  /** Every int64 within bounds is read back from its spelling. */
  lemma NumReadsBack(n: int64, t: bytes, min: int, max: int)
    requires min <= n <= max && Ends(t)
    ensures Integer(Num(n) + t, min, max) == Done(n, t)
  {
    var u := Magnitude(n);
    DecimalShape(u);
    var s := Decimal(u) + t;
    assert Front(s) == Decimal(u)[0] && IsDigit(Front(s));
    assert Num(n) + t == if n < 0 then [MINUS] + s else s;
    if n < 0 {
      assert ([MINUS] + s)[1..] == s;
    }
    if u == 0 {
      assert Decimal(0) == [ZERO];
      assert s[1..] == t;
    } else {
      ValueOfDecimal(u);
      ScanReads(Decimal(u), 0, t);
    }
  }

  lemma UnsignedSpells(body: bytes, v: nat, rest: bytes)
    requires IsDigit(Front(body)) && Front(body) != ZERO && Scan(body, 0) == Done(v, rest)
    ensures body == Decimal(v) + rest
  {
    ScanTakes(body, 0, v, rest);
    var ds := Taken(body, rest);
    assert ds == [] ==> body == rest;
    assert ds[0] == body[0];
    DecimalOfValue(ds);
  }

  lemma ZeroSpells(body: bytes)
    requires Front(body) == ZERO
    ensures body == Decimal(0) + body[1..]
  {
    assert Decimal(0) == [ZERO];
  }

  lemma SignedSpells(neg: bool, u: nat, min: int, max: int, n: int, rest: bytes)
    requires Signed(neg, u, min, max, rest) == Done(n, rest)
    ensures -TWO63 <= n < TWO63 && Ends(rest) && Num(n) == (if neg then [MINUS] else []) + Decimal(u)
  {
  }

  lemma Glue(sign: bytes, digits: bytes, rest: bytes)
    ensures sign + (digits + rest) == (sign + digits) + rest
  {
  }

  /** The digits of an accepted integer spell its magnitude. */
  lemma BodySpells(body: bytes, neg: bool, n: int, rest: bytes, min: int, max: int)
    requires IsDigit(Front(body))
    requires if Front(body) == ZERO then Signed(neg, 0, min, max, body[1..]) == Done(n, rest)
             else Scan(body, 0).Done? && Signed(neg, Scan(body, 0).value, min, max, Scan(body, 0).rest) == Done(n, rest)
    ensures -TWO63 <= n < TWO63 && Ends(rest) && (if neg then [MINUS] else []) + body == Num(n) + rest
  {
    var sign := if neg then [MINUS] else [];
    var u := if Front(body) == ZERO then 0 else Scan(body, 0).value;
    if Front(body) == ZERO {
      ZeroSpells(body);
    } else {
      UnsignedSpells(body, u, rest);
    }
    SignedSpells(neg, u, min, max, n, rest);
    Glue(sign, Decimal(u), rest);
  }

  /** What reads as an integer is exactly that integer's spelling. */
  lemma IntegerIsSpelled(s: bytes, n: int, rest: bytes, min: int, max: int)
    requires Integer(s, min, max) == Done(n, rest)
    ensures -TWO63 <= n < TWO63 && s == Num(n) + rest && Ends(rest)
  {
    var neg := Front(s) == MINUS;
    var body := if neg then s[1..] else s;
    BodySpells(body, neg, n, rest, min, max);
    assert s == (if neg then [MINUS] else []) + body;
  }

  /** integer accepts exactly the spellings num prints, bounded and ended as the caller asks. */
  lemma IntegerIff(s: bytes, n: int, rest: bytes, min: int, max: int)
    ensures Integer(s, min, max) == Done(n, rest)
            <==> min <= n <= max && -TWO63 <= n < TWO63 && Ends(rest) && s == Num(n) + rest
  {
    if Integer(s, min, max) == Done(n, rest) {
      IntegerIsSpelled(s, n, rest, min, max);
    }
    if min <= n <= max && -TWO63 <= n < TWO63 && Ends(rest) && s == Num(n) + rest {
      NumReadsBack(n, rest, min, max);
    }
  }
}
