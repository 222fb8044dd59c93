/**
 The grammar behind the reader (go/rec/rec.go: str, escape, skipNumber): which strings and numbers it accepts, and what
 strings they are, by the productions of sections 6 and 7 of RFC 8259 alone.
 */
module Grammar {
  import opened Bytes
  import opened Text
  import opened OpaqueJson

  // ----- Numbers -----

  /** number = [ minus ] int [ frac ] [ exp ], each part as it is written. */
  datatype Numeral = Numeral(sign: bytes, whole: bytes, point: bytes, digits: bytes, mark: bytes, direction: bytes, power: bytes)
  {
    predicate Ok() {
      && (sign == [] || sign == [MINUS])
      && whole != [] && AllDigits(whole) && (|whole| > 1 ==> whole[0] != ZERO)
      && (if point == [] then digits == [] else point == [DOT] && digits != [] && AllDigits(digits))
      && (if mark == [] then direction == [] && power == []
          else (mark == [101] || mark == [69]) && (direction == [] || direction == [PLUS] || direction == [MINUS])
               && power != [] && AllDigits(power))
    }

    function Source(): bytes {
      sign + (whole + (point + digits + (mark + (direction + power))))
    }
  }

  lemma {:induction false} DropAll(ds: bytes, t: bytes)
    requires AllDigits(ds) && !IsDigit(Front(t))
    ensures DropDigits(ds + t) == t
  {
    if ds == [] {
      assert ds + t == t;
    } else {
      assert (ds + t)[1..] == ds[1..] + t;
      DropAll(ds[1..], t);
    }
  }

  lemma {:induction false} DropTakes(s: bytes) returns (ds: bytes)
    ensures AllDigits(ds) && s == ds + DropDigits(s) && (ds != [] <==> IsDigit(Front(s)))
  {
    ds := [];
    if IsDigit(Front(s)) {
      ds := DropTakes(s[1..]);
      ds := s[..1] + ds;
      assert s == s[..1] + s[1..];
    }
  }

  lemma WholeReads(ds: bytes, t: bytes)
    requires ds != [] && AllDigits(ds) && (|ds| > 1 ==> ds[0] != ZERO) && !IsDigit(Front(t))
    ensures Whole(ds + t) == Done((), t)
  {
    DropAll(ds, t);
    if ds[0] == ZERO {
      assert (ds + t)[1..] == t;
    }
  }

  lemma WholeIs(s: bytes, rest: bytes) returns (ds: bytes)
    requires Whole(s) == Done((), rest)
    ensures ds != [] && AllDigits(ds) && (|ds| > 1 ==> ds[0] != ZERO) && s == ds + rest
  {
    if s[0] == ZERO {
      ds := s[..1];
    } else {
      ds := DropTakes(s);
    }
  }

  lemma FractionReads(point: bytes, ds: bytes, t: bytes)
    requires if point == [] then ds == [] else point == [DOT] && ds != [] && AllDigits(ds)
    requires !IsDigit(Front(t)) && Front(t) != DOT
    ensures Fraction(point + ds + t) == Done((), t)
  {
    if point == [] {
      assert point + ds + t == t;
    } else {
      assert (point + ds + t)[1..] == ds + t;
      DropAll(ds, t);
    }
  }

  lemma FractionIs(s: bytes, rest: bytes) returns (point: bytes, ds: bytes)
    requires Fraction(s) == Done((), rest)
    ensures if point == [] then ds == [] else point == [DOT] && ds != [] && AllDigits(ds)
    ensures s == point + ds + rest
  {
    point, ds := [], [];
    if Front(s) == DOT {
      point := [DOT];
      ds := DropTakes(s[1..]);
      assert s == point + s[1..];
    }
  }

  lemma ExponentReads(mark: bytes, direction: bytes, power: bytes)
    requires if mark == [] then direction == [] && power == []
             else (mark == [101] || mark == [69]) && (direction == [] || direction == [PLUS] || direction == [MINUS])
                  && power != [] && AllDigits(power)
    ensures Exponent(mark + (direction + power)) == Done((), [])
  {
    var s := mark + (direction + power);
    if mark != [] {
      assert s[1..] == direction + power && power + [] == power;
      DropAll(power, []);
      assert direction != [] ==> (direction + power)[1..] == power;
      assert direction == [] ==> direction + power == power;
    }
  }

  lemma ExponentIs(s: bytes) returns (mark: bytes, direction: bytes, power: bytes)
    requires Exponent(s) == Done((), [])
    ensures if mark == [] then direction == [] && power == []
            else (mark == [101] || mark == [69]) && (direction == [] || direction == [PLUS] || direction == [MINUS])
                 && power != [] && AllDigits(power)
    ensures s == mark + (direction + power)
  {
    mark, direction, power := [], [], [];
    if Front(s) == 101 || Front(s) == 69 {
      mark := s[..1];
      var t := s[1..];
      direction := if Front(t) == PLUS || Front(t) == MINUS then t[..1] else [];
      power := DropTakes(t[|direction|..]);
      assert t == direction + t[|direction|..] && power + [] == power;
    }
  }

  lemma NumeralReads(n: Numeral)
    requires n.Ok()
    ensures Number(n.Source()) == Done((), [])
  {
    var e := n.mark + (n.direction + n.power);
    var f := n.point + n.digits + e;
    ExponentReads(n.mark, n.direction, n.power);
    FractionReads(n.point, n.digits, e);
    WholeReads(n.whole, f);
    assert Front(n.whole + f) == n.whole[0];
    assert n.sign == [] ==> n.Source() == n.whole + f;
    assert n.sign != [] ==> n.Source()[1..] == n.whole + f;
  }

  lemma NumeralOf(token: bytes) returns (n: Numeral)
    requires Number(token) == Done((), [])
    ensures n.Ok() && token == n.Source()
  {
    var sign: bytes := if Front(token) == MINUS then [MINUS] else [];
    var u := token[|sign|..];
    var w := Whole(u).rest;
    var f := Fraction(w).rest;
    var whole := WholeIs(u, w);
    var point, digits := FractionIs(w, f);
    var mark, direction, power := ExponentIs(f);
    n := Numeral(sign, whole, point, digits, mark, direction, power);
    assert token == sign + u;
  }

  /** A number is accepted exactly when it is written as the grammar says. */
  lemma NumberIff(token: bytes)
    ensures Number(token) == Done((), []) <==> exists n: Numeral :: n.Ok() && token == n.Source()
  {
    if Number(token) == Done((), []) {
      var n := NumeralOf(token);
    }
    forall n: Numeral | n.Ok() && token == n.Source() ensures Number(token) == Done((), []) {
      NumeralReads(n);
    }
  }

  // ----- Strings -----

  predicate HexWord(h: bytes) {
    |h| == 4 && Hex4(h).Done?
  }

  function Unit(h: bytes): (n: int)
    requires HexWord(h)
    ensures 0 <= n < 0x10000
  {
    Hex4(h).value
  }

  /** What a string is written with: a byte that needs no escape, a two-letter escape, a UTF-16 code unit, or two. */
  datatype Piece = Plain(b: byte) | Letter(c: byte) | One(unit: bytes) | Two(high: bytes, low: bytes)
  {
    predicate Ok() {
      match this
      case Plain(b) => b >= 0x20 && b != QUOTE && b != BACKSLASH
      case Letter(c) => c == QUOTE || c == BACKSLASH || c == SLASH || c == 98 || c == 102 || c == 110 || c == 114 || c == 116
      case One(unit) => HexWord(unit) && !(0xD800 <= Unit(unit) <= 0xDFFF)
      case Two(high, low) => HexWord(high) && HexWord(low) && 0xD800 <= Unit(high) <= 0xDBFF && 0xDC00 <= Unit(low) <= 0xDFFF
    }

    function Source(): bytes {
      match this
      case Plain(b) => [b]
      case Letter(c) => [BACKSLASH, c]
      case One(unit) => [BACKSLASH, 117] + unit
      case Two(high, low) => [BACKSLASH, 117] + high + ([BACKSLASH, 117] + low)
    }

    /** The bytes it stands for. */
    function Meaning(): bytes
      requires Ok()
    {
      match this
      case Plain(b) => [b]
      case Letter(c) => [if c == 98 then 8 else if c == 102 then 12 else if c == 110 then 10 else if c == 114 then 13
                         else if c == 116 then 9 else c]
      case One(unit) => RuneBytes(Unit(unit))
      case Two(high, low) => RuneBytes(0x10000 + (Unit(high) - 0xD800) * 1024 + (Unit(low) - 0xDC00))
    }
  }

  predicate AllOk(ps: seq<Piece>) {
    forall i | 0 <= i < |ps| :: ps[i].Ok()
  }

  function Sources(ps: seq<Piece>): bytes {
    if ps == [] then [] else ps[0].Source() + Sources(ps[1..])
  }

  function Meanings(ps: seq<Piece>): bytes
    requires AllOk(ps)
  {
    if ps == [] then [] else ps[0].Meaning() + Meanings(ps[1..])
  }

  lemma HexReads(h: bytes, t: bytes)
    requires HexWord(h)
    ensures Hex4(h + t) == Done(Unit(h), t)
  {
    assert (h + t)[4..] == t;
    Hex4Local(h, t);
    assert h[..4] == h;
  }

  lemma HexIs(s: bytes) returns (h: bytes)
    requires Hex4(s).Done?
    ensures HexWord(h) && Unit(h) == Hex4(s).value && s == h + Hex4(s).rest
  {
    h := s[..4];
  }

  lemma EscapeReads(p: Piece, t: bytes)
    requires p.Ok() && !p.Plain?
    ensures var s := p.Source() + t; s[0] == BACKSLASH && Escape(s) == Done(p.Meaning(), t)
  {
    var s := p.Source() + t;
    match p
    case Letter(c) =>
      assert s[2..] == t;
    case One(unit) =>
      assert s[2..] == unit + t;
      HexReads(unit, t);
    case Two(high, low) =>
      PairReads(high, low, t);
      assert s == [BACKSLASH, 117] + high + ([BACKSLASH, 117] + low + t);
  }

  lemma PairReads(high: bytes, low: bytes, t: bytes)
    requires Two(high, low).Ok()
    ensures Escape([BACKSLASH, 117] + high + ([BACKSLASH, 117] + low + t)) == Done(Two(high, low).Meaning(), t)
  {
    var u := [BACKSLASH, 117] + low + t;
    var s := [BACKSLASH, 117] + high + u;
    assert s[2..] == high + u;
    HexReads(high, u);
    LowReads(Unit(high), low, t);
  }

  lemma LowReads(high: int, low: bytes, t: bytes)
    requires 0xD800 <= high <= 0xDBFF && HexWord(low) && 0xDC00 <= Unit(low) <= 0xDFFF
    ensures LowHalf(high, [BACKSLASH, 117] + low + t)
            == Done(RuneBytes(0x10000 + (high - 0xD800) * 1024 + (Unit(low) - 0xDC00)), t)
  {
    assert ([BACKSLASH, 117] + low + t)[2..] == low + t;
    HexReads(low, t);
  }

  lemma EscapeIs(s: bytes) returns (p: Piece)
    requires s != [] && s[0] == BACKSLASH && Escape(s).Done?
    ensures p.Ok() && !p.Plain? && s == p.Source() + Escape(s).rest && p.Meaning() == Escape(s).value
  {
    if s[1] == 117 {
      p := UnitIs(s);
    } else {
      p := Letter(s[1]);
    }
  }

  lemma UnitIs(s: bytes) returns (p: Piece)
    requires |s| > 1 && s[0] == BACKSLASH && s[1] == 117 && Escape(s).Done?
    ensures p.Ok() && !p.Plain? && s == p.Source() + Escape(s).rest && p.Meaning() == Escape(s).value
  {
    var h := HexIs(s[2..]);
    var r := Hex4(s[2..]).rest;
    assert s == [BACKSLASH, 117] + h + r;
    if 0xD800 <= Unit(h) <= 0xDBFF {
      p := PairIs(h, r);
      Assoc3([BACKSLASH, 117] + h, [BACKSLASH, 117] + p.low, LowHalf(Unit(h), r).rest);
    } else {
      p := One(h);
    }
  }

  lemma PairIs(high: bytes, s: bytes) returns (p: Piece)
    requires HexWord(high) && 0xD800 <= Unit(high) <= 0xDBFF && LowHalf(Unit(high), s).Done?
    ensures p.Two? && p.high == high && p.Ok() && p.Meaning() == LowHalf(Unit(high), s).value
    ensures s == [BACKSLASH, 117] + p.low + LowHalf(Unit(high), s).rest
  {
    var low := HexIs(s[2..]);
    p := Two(high, low);
    assert s == [BACKSLASH, 117] + s[2..];
  }

  /** What reading ends in at the closing quote. */
  function Closed(v: bytes, t: bytes): Parse<bytes> {
    if ValidUtf8(v) then Done(v, t) else Refused("bad_string", |t|)
  }

  lemma {:induction false} PiecesRead(ps: seq<Piece>, out: bytes, t: bytes)
    requires AllOk(ps)
    ensures StrBody(Sources(ps) + ([QUOTE] + t), out) == Closed(out + Meanings(ps), t)
    decreases |ps|
  {
    var end := [QUOTE] + t;
    if ps == [] {
      assert Sources(ps) + end == end && end[1..] == t && out + Meanings(ps) == out;
    } else {
      var p := ps[0];
      PiecesRead(ps[1..], out + p.Meaning(), t);
      Assoc3(p.Source(), Sources(ps[1..]), end);
      Assoc3(out, p.Meaning(), Meanings(ps[1..]));
      PieceReads(p, out, Sources(ps[1..]) + end);
    }
  }

  lemma PieceReads(p: Piece, out: bytes, t: bytes)
    requires p.Ok()
    ensures StrBody(p.Source() + t, out) == StrBody(t, out + p.Meaning())
  {
    if p.Plain? {
      assert ([p.b] + t)[1..] == t;
    } else {
      EscapeReads(p, t);
    }
  }

  lemma OneMorePiece(p: Piece, more: seq<Piece>)
    requires p.Ok() && AllOk(more)
    ensures AllOk([p] + more)
    ensures Sources([p] + more) == p.Source() + Sources(more) && Meanings([p] + more) == p.Meaning() + Meanings(more)
  {
    assert ([p] + more)[1..] == more;
  }

  lemma {:induction false} PiecesOf(s: bytes, out: bytes, v: bytes, rest: bytes) returns (ps: seq<Piece>)
    requires StrBody(s, out) == Done(v, rest)
    ensures AllOk(ps) && s == Sources(ps) + ([QUOTE] + rest) && v == out + Meanings(ps) && ValidUtf8(v)
    decreases |s|
  {
    if s[0] == QUOTE {
      ps := [];
    } else {
      var p: Piece, t: bytes;
      if s[0] == BACKSLASH {
        p := EscapeIs(s);
        t := Escape(s).rest;
      } else {
        p, t := Plain(s[0]), s[1..];
      }
      var more := PiecesOf(t, out + p.Meaning(), v, rest);
      ps := [p] + more;
      OneMorePiece(p, more);
      Assoc3(p.Source(), Sources(more), [QUOTE] + rest);
      Assoc3(out, p.Meaning(), Meanings(more));
    }
  }

  /** A string written with these pieces. */
  predicate Written(s: bytes, ps: seq<Piece>, v: bytes, rest: bytes) {
    AllOk(ps) && s == [QUOTE] + (Sources(ps) + ([QUOTE] + rest)) && v == Meanings(ps) && ValidUtf8(v)
  }

  lemma WrittenReads(s: bytes, ps: seq<Piece>, v: bytes, rest: bytes)
    requires Written(s, ps, v, rest)
    ensures Str(s) == Done(v, rest)
  {
    PiecesRead(ps, [], rest);
    assert s[1..] == Sources(ps) + ([QUOTE] + rest) && [] + v == v;
  }

  lemma ReadIsWritten(s: bytes, v: bytes, rest: bytes) returns (ps: seq<Piece>)
    requires Str(s) == Done(v, rest)
    ensures Written(s, ps, v, rest)
  {
    ps := PiecesOf(s[1..], [], v, rest);
    assert s == [QUOTE] + s[1..] && [] + Meanings(ps) == Meanings(ps);
  }

  /** A string is accepted, with what it means and what follows it, exactly when it is written as the grammar says and means
      valid UTF-8. */
  lemma StringIff(s: bytes, v: bytes, rest: bytes)
    ensures Str(s) == Done(v, rest) <==> exists ps :: Written(s, ps, v, rest)
  {
    if Str(s) == Done(v, rest) {
      var ps := ReadIsWritten(s, v, rest);
    }
    forall ps | Written(s, ps, v, rest) ensures Str(s) == Done(v, rest) {
      WrittenReads(s, ps, v, rest);
    }
  }
}
