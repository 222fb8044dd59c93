/** JSON strings (go/rec/rec.go: escByte, esc, str, escape, hex4, appendRune, validUTF8), section 7 of RFC 8259. */
module Text {
  import opened Options
  import opened Bytes

  // ----- UTF-8 -----

  predicate IsContinuation(c: byte) {
    c / 64 == 2
  }

  predicate Scalar(cp: int) {
    0 <= cp <= 0x10FFFF && !(0xD800 <= cp <= 0xDFFF)
  }

  type rune = x: int | Scalar(x)

  /** The length a leading byte announces; zero when it announces none. */
  function RuneLength(c: byte): nat {
    if c < 0x80 then 1 else if c / 32 == 6 then 2 else if c / 16 == 14 then 3 else if c / 8 == 30 then 4 else 0
  }

  /** The code point of the rune at the front, and its length; None when the bytes there are no rune. */
  function Rune(b: bytes): (r: Option<(int, nat)>)
    requires b != []
    ensures r.Some? ==> 1 <= r.value.1 <= 4 && r.value.1 <= |b| && Scalar(r.value.0)
  {
    var c: int := b[0];
    var n := RuneLength(c);
    if n == 0 || n > |b| then None
    else if n == 1 then Some((c, 1))
    else if n == 2 then
      var cp := c % 32 * 64 + b[1] % 64;
      if IsContinuation(b[1]) && cp >= 0x80 then Some((cp, 2)) else None
    else if n == 3 then
      var cp := c % 16 * 4096 + (b[1] as int) % 64 * 64 + b[2] % 64;
      if IsContinuation(b[1]) && IsContinuation(b[2]) && cp >= 0x800 && Scalar(cp) then Some((cp, 3)) else None
    else
      var cp := c % 8 * 262144 + (b[1] as int) % 64 * 4096 + (b[2] as int) % 64 * 64 + b[3] % 64;
      if IsContinuation(b[1]) && IsContinuation(b[2]) && IsContinuation(b[3]) && cp >= 0x10000 && Scalar(cp) then Some((cp, 4)) else None
  }

  predicate ValidUtf8(b: bytes) {
    b == [] || (Rune(b).Some? && ValidUtf8(b[Rune(b).value.1..]))
  }

  /** appendRune */
  function RuneBytes(cp: int): (b: bytes)
    requires 0 <= cp <= 0x10FFFF
    ensures 1 <= |b| <= 4
  {
    if cp < 0x80 then [cp]
    else if cp < 0x800 then [0xC0 + cp / 64, 0x80 + cp % 64]
    else if cp < 0x10000 then [0xE0 + cp / 4096, 0x80 + cp / 64 % 64, 0x80 + cp % 64]
    else [0xF0 + cp / 262144, 0x80 + cp / 4096 % 64, 0x80 + cp / 64 % 64, 0x80 + cp % 64]
  }

  lemma TwoBytes(cp: int)
    requires 0x80 <= cp < 0x800
    ensures var b, c := 0xC0 + cp / 64, 0x80 + cp % 64;
            RuneLength(b) == 2 && IsContinuation(c) && b % 32 * 64 + c % 64 == cp
  {
    assert (0xC0 + cp / 64) % 32 == cp / 64;
  }

  lemma ThreeBytes(cp: int)
    requires 0x800 <= cp < 0x10000
    ensures var b, c, d := 0xE0 + cp / 4096, 0x80 + cp / 64 % 64, 0x80 + cp % 64;
            RuneLength(b) == 3 && IsContinuation(c) && IsContinuation(d) && b % 16 * 4096 + c % 64 * 64 + d % 64 == cp
  {
    assert (0xE0 + cp / 4096) % 16 == cp / 4096;
    assert cp / 4096 == cp / 64 / 64;
  }

  lemma FourBytes(cp: int)
    requires 0x10000 <= cp <= 0x10FFFF
    ensures var b, c, d, e := 0xF0 + cp / 262144, 0x80 + cp / 4096 % 64, 0x80 + cp / 64 % 64, 0x80 + cp % 64;
            RuneLength(b) == 4 && IsContinuation(c) && IsContinuation(d) && IsContinuation(e)
            && b % 8 * 262144 + c % 64 * 4096 + d % 64 * 64 + e % 64 == cp
  {
    assert (0xF0 + cp / 262144) % 8 == cp / 262144;
    assert cp / 4096 == cp / 64 / 64 && cp / 262144 == cp / 64 / 64 / 64;
  }

  /** The writer's bytes for a code point are its one shortest rune. */
  lemma RuneOfBytes(cp: int, t: bytes)
    requires Scalar(cp)
    ensures Rune(RuneBytes(cp) + t) == Some((cp, |RuneBytes(cp)|))
  {
    var b := RuneBytes(cp) + t;
    assert b[0] == RuneBytes(cp)[0] && (|RuneBytes(cp)| > 1 ==> b[1] == RuneBytes(cp)[1]);
    assert (|RuneBytes(cp)| > 2 ==> b[2] == RuneBytes(cp)[2]) && (|RuneBytes(cp)| > 3 ==> b[3] == RuneBytes(cp)[3]);
    if cp < 0x80 {
    } else if cp < 0x800 {
      TwoBytes(cp);
    } else if cp < 0x10000 {
      ThreeBytes(cp);
    } else {
      FourBytes(cp);
    }
  }

  lemma RuneBytesTwo(b: byte, c: byte)
    requires RuneLength(b) == 2 && IsContinuation(c) && b % 32 * 64 + c % 64 >= 0x80
    ensures RuneBytes(b % 32 * 64 + c % 64) == [b, c]
  {
  }

  lemma RuneBytesThree(b: byte, c: byte, d: byte)
    requires RuneLength(b) == 3 && IsContinuation(c) && IsContinuation(d) && b % 16 * 4096 + c % 64 * 64 + d % 64 >= 0x800
    ensures RuneBytes(b % 16 * 4096 + c % 64 * 64 + d % 64) == [b, c, d]
  {
    var low: int := c % 64 * 64 + d % 64;
    assert (b % 16 * 4096 + low) / 4096 == b % 16;
    assert (b % 16 * 4096 + low) / 64 == b % 16 * 64 + c % 64;
  }

  lemma RuneBytesFour(b: byte, c: byte, d: byte, e: byte)
    requires RuneLength(b) == 4 && IsContinuation(c) && IsContinuation(d) && IsContinuation(e)
    requires 0x10000 <= b % 8 * 262144 + c % 64 * 4096 + d % 64 * 64 + e % 64 <= 0x10FFFF
    ensures RuneBytes(b % 8 * 262144 + c % 64 * 4096 + d % 64 * 64 + e % 64) == [b, c, d, e]
  {
    var cp: int := b % 8 * 262144 + c % 64 * 4096 + d % 64 * 64 + e % 64;
    assert cp / 262144 == b % 8;
    assert cp / 4096 == b % 8 * 64 + c % 64;
    assert cp / 64 == b % 8 * 4096 + c % 64 * 64 + d % 64;
  }

  lemma BytesOfRune(b: bytes)
    requires b != [] && Rune(b).Some?
    ensures RuneBytes(Rune(b).value.0) == b[..Rune(b).value.1]
  {
    var n := Rune(b).value.1;
    if n == 2 {
      RuneBytesTwo(b[0], b[1]);
    } else if n == 3 {
      RuneBytesThree(b[0], b[1], b[2]);
    } else if n == 4 {
      RuneBytesFour(b[0], b[1], b[2], b[3]);
    }
  }

  /** UTF-8 is a string of runes: valid bytes are exactly the encodings of lists of code points. */
  function RunesEncoded(runes: seq<rune>): bytes {
    if runes == [] then [] else RuneBytes(runes[0]) + RunesEncoded(runes[1..])
  }

  function RunesDecoded(b: bytes): seq<rune>
    requires ValidUtf8(b)
  {
    if b == [] then [] else [Rune(b).value.0] + RunesDecoded(b[Rune(b).value.1..])
  }

  lemma {:induction false} EncodedDecodes(runes: seq<rune>)
    ensures ValidUtf8(RunesEncoded(runes)) && RunesDecoded(RunesEncoded(runes)) == runes
  {
    if runes != [] {
      RuneOfBytes(runes[0], RunesEncoded(runes[1..]));
      assert RunesEncoded(runes)[|RuneBytes(runes[0])|..] == RunesEncoded(runes[1..]);
      EncodedDecodes(runes[1..]);
    }
  }

  lemma {:induction false} DecodedEncodes(b: bytes)
    requires ValidUtf8(b)
    ensures RunesEncoded(RunesDecoded(b)) == b
  {
    if b != [] {
      BytesOfRune(b);
      DecodedEncodes(b[Rune(b).value.1..]);
      assert RunesDecoded(b)[1..] == RunesDecoded(b[Rune(b).value.1..]);
    }
  }

  // ----- Writing -----

  function HexDigit(n: int): byte
    requires 0 <= n < 16
  {
    if n < 10 then ZERO + n else 97 + (n - 10)
  }

  function EscByte(c: byte): bytes {
    if c == QUOTE then [BACKSLASH, QUOTE]
    else if c == BACKSLASH then [BACKSLASH, BACKSLASH]
    else if c == 8 then [BACKSLASH, 98]
    else if c == 12 then [BACKSLASH, 102]
    else if c == 10 then [BACKSLASH, 110]
    else if c == 13 then [BACKSLASH, 114]
    else if c == 9 then [BACKSLASH, 116]
    else if c < 0x20 then [BACKSLASH, 117, ZERO, ZERO, HexDigit(c / 16), HexDigit(c % 16)]
    else [c]
  }

  function EscBody(s: bytes): bytes {
    if s == [] then [] else EscBody(s[..|s| - 1]) + EscByte(s[|s| - 1])
  }

  function Esc(s: bytes): bytes {
    [QUOTE] + EscBody(s) + [QUOTE]
  }

  /** esc's loop over the bytes. */
  method WriteString(s: bytes) returns (out: bytes)
    ensures out == Esc(s)
  {
    out := [QUOTE];
    for i := 0 to |s|
      invariant out == [QUOTE] + EscBody(s[..i])
    {
      assert s[..i + 1][..i] == s[..i];
      out := out + EscByte(s[i]);
    }
    assert s[..|s|] == s;
    out := out + [QUOTE];
  }

  // ----- Reading -----

  function HexValue(c: byte): Option<int> {
    if IsDigit(c) then Some(c - ZERO)
    else if 97 <= c <= 102 then Some(c - 97 + 10)
    else if 65 <= c <= 70 then Some(c - 65 + 10)
    else None
  }

  function Hex4(s: bytes): (p: Parse<int>)
    ensures p.Done? ==> 0 <= p.value < 0x10000 && |p.rest| == |s| - 4 && p.rest == s[4..]
    ensures p.Refused? ==> p.left <= |s|
  {
    if |s| < 4 then Refused("bad_string", |s|)
    else
      var a, b, c, d := HexValue(s[0]), HexValue(s[1]), HexValue(s[2]), HexValue(s[3]);
      if a.None? || b.None? || c.None? || d.None? then Refused("bad_string", |s|)
      else Done(a.value * 4096 + b.value * 256 + c.value * 16 + d.value, s[4..])
  }

  /** A surrogate pair's second half, after its first. */
  function LowHalf(high: int, s: bytes): (p: Parse<bytes>)
    requires 0xD800 <= high <= 0xDBFF
    ensures p.Done? ==> |p.rest| < |s| && p.rest == s[|s| - |p.rest|..]
    ensures p.Refused? ==> p.left <= |s|
  {
    if |s| < 2 || s[0] != BACKSLASH || s[1] != 117 then Refused("bad_string", |s|)
    else
      var lo := Hex4(s[2..]);
      if lo.Refused? then Refused(lo.word, lo.left)
      else if lo.value < 0xDC00 || lo.value > 0xDFFF then Refused("bad_string", |lo.rest|)
      else Done(RuneBytes(0x10000 + (high - 0xD800) * 1024 + (lo.value - 0xDC00)), lo.rest)
  }

  /** escape: at a backslash. */
  function Escape(s: bytes): (p: Parse<bytes>)
    requires s != []
    ensures p.Done? ==> |p.rest| < |s| && p.rest == s[|s| - |p.rest|..]
    ensures p.Refused? ==> p.left <= |s|
  {
    if |s| == 1 then Refused("malformed", 0)
    else
      var c, rest := s[1], s[2..];
      if c == QUOTE || c == BACKSLASH || c == SLASH then Done([c], rest)
      else if c == 98 then Done([8], rest)
      else if c == 102 then Done([12], rest)
      else if c == 110 then Done([10], rest)
      else if c == 114 then Done([13], rest)
      else if c == 116 then Done([9], rest)
      else if c == 117 then
        var u := Hex4(rest);
        if u.Refused? then Refused(u.word, u.left)
        else if 0xDC00 <= u.value <= 0xDFFF then Refused("bad_string", |u.rest|)
        else if 0xD800 <= u.value <= 0xDBFF then LowHalf(u.value, u.rest)
        else Done(RuneBytes(u.value), u.rest)
      else Refused("bad_string", |rest|)
  }

  function StrBody(s: bytes, out: bytes): (p: Parse<bytes>)
    ensures p.Done? ==> |p.rest| < |s| && p.rest == s[|s| - |p.rest|..] && ValidUtf8(p.value)
    ensures p.Refused? ==> p.left <= |s|
    decreases |s|
  {
    if s == [] then Refused("malformed", 0)
    else if s[0] == QUOTE then
      if ValidUtf8(out) then Done(out, s[1..]) else Refused("bad_string", |s| - 1)
    else if s[0] < 0x20 then Refused("bad_string", |s|)
    else if s[0] == BACKSLASH then
      var e := Escape(s);
      if e.Refused? then Refused(e.word, e.left) else StrBody(e.rest, out + e.value)
    else StrBody(s[1..], out + [s[0]])
  }

  /** str */
  function Str(s: bytes): (p: Parse<bytes>)
    ensures p.Done? ==> |p.rest| < |s| && p.rest == s[|s| - |p.rest|..] && ValidUtf8(p.value)
    ensures p.Refused? ==> p.left <= |s|
  {
    if Front(s) != QUOTE then Refused("wrong_type", |s|) else StrBody(s[1..], [])
  }

  // ----- Round trip -----

  lemma HexDigitValue(n: int)
    requires 0 <= n < 16
    ensures HexValue(HexDigit(n)) == Some(n)
  {
  }

  lemma ControlReads(c: byte, s: bytes, t: bytes)
    requires c < 0x20 && s == [BACKSLASH, 117, ZERO, ZERO, HexDigit(c / 16), HexDigit(c % 16)] + t
    ensures Escape(s) == Done([c], t)
  {
    HexDigitValue(c / 16);
    HexDigitValue(c % 16);
    var r := s[2..];
    assert r[0] == ZERO && r[1] == ZERO && r[2] == HexDigit(c / 16) && r[3] == HexDigit(c % 16);
    assert r[4..] == t;
    assert Hex4(r) == Done(c, t);
  }

  /** One written byte reads as itself. */
  lemma EscByteReads(c: byte, t: bytes, out: bytes)
    ensures StrBody(EscByte(c) + t, out) == StrBody(t, out + [c])
  {
    var s := EscByte(c) + t;
    assert s[..|EscByte(c)|] == EscByte(c) && s[|EscByte(c)|..] == t;
    if c < 0x20 && |EscByte(c)| == 6 {
      ControlReads(c, s, t);
    } else if |EscByte(c)| == 2 {
      assert s[2..] == t;
      assert Escape(s) == Done([c], t);
    } else {
      assert s[1..] == t;
    }
  }

  lemma {:induction false} EscBodyReads(s: bytes, t: bytes, out: bytes)
    ensures StrBody(EscBody(s) + t, out) == StrBody(t, out + s)
  {
    if s == [] {
      assert EscBody(s) + t == t && out + s == out;
    } else {
      var front, last := s[..|s| - 1], s[|s| - 1];
      assert EscBody(s) + t == EscBody(front) + (EscByte(last) + t);
      EscBodyReads(front, EscByte(last) + t, out);
      EscByteReads(last, t, out + front);
      assert out + front + [last] == out + s;
    }
  }

  /** What the writer spells, the reader reads back, followed by whatever follows: exactly for valid UTF-8. */
  lemma EscReadsBack(s: bytes, t: bytes)
    ensures Str(Esc(s) + t) == if ValidUtf8(s) then Done(s, t) else Refused("bad_string", |t|)
  {
    var u := [QUOTE] + t;
    assert (Esc(s) + t)[1..] == EscBody(s) + u;
    EscBodyReads(s, u, []);
    assert [] + s == s;
    assert u[1..] == t;
  }

  /** The writer's spelling holds no control byte, so no newline. */
  lemma {:induction false} EscIsPrintable(s: bytes)
    ensures forall b | b in EscBody(s) :: b >= 0x20
    ensures forall b | b in Esc(s) :: b >= 0x20
  {
    if s != [] {
      EscIsPrintable(s[..|s| - 1]);
      var e := EscByte(s[|s| - 1]);
      assert forall i | 0 <= i < |e| :: e[i] >= 0x20;
    }
  }

  /** The writer spells byte by byte, and leaves alone everything but quotes, backslashes and control bytes; those take a
      backslash, and the control bytes without a letter of their own six bytes. */
  lemma EscLast(s: bytes, c: byte)
    ensures EscBody(s + [c]) == EscBody(s) + EscByte(c)
  {
    assert (s + [c])[..|s + [c]| - 1] == s;
  }

  lemma {:induction false} EscKeeps(s: bytes)
    requires forall i | 0 <= i < |s| :: s[i] >= 0x20 && s[i] != QUOTE && s[i] != BACKSLASH
    ensures EscBody(s) == s
  {
    if s != [] {
      var front, last := s[..|s| - 1], s[|s| - 1];
      EscKeeps(front);
      assert s == front + [last];
      EscLast(front, last);
    }
  }

  lemma EscShortens(c: byte)
    requires c < 0x20 || c == QUOTE || c == BACKSLASH
    ensures EscByte(c)[0] == BACKSLASH
    ensures |EscByte(c)| == if c in {QUOTE, BACKSLASH, 8, 9, 10, 12, 13} then 2 else 6
  {
  }

  // ----- Reading the other spellings -----

  function Digits4(n: int): (digits: bytes)
    requires 0 <= n < 0x10000
    ensures |digits| == 4
  {
    [HexDigit(n / 4096), HexDigit(n / 256 % 16), HexDigit(n / 16 % 16), HexDigit(n % 16)]
  }

  /** The halves of the surrogate pair of a code point beyond the first plane. */
  function HighHalf(cp: int): (unit: int)
    requires 0x10000 <= cp <= 0x10FFFF
    ensures 0xD800 <= unit <= 0xDBFF
  {
    0xD800 + (cp - 0x10000) / 1024
  }

  function LastHalf(cp: int): (unit: int)
    requires 0x10000 <= cp <= 0x10FFFF
    ensures 0xDC00 <= unit <= 0xDFFF
    ensures 0x10000 + (HighHalf(cp) - 0xD800) * 1024 + (unit - 0xDC00) == cp
  {
    0xDC00 + (cp - 0x10000) % 1024
  }

  lemma Digits4Read(n: int, t: bytes)
    requires 0 <= n < 0x10000
    ensures Hex4(Digits4(n) + t) == Done(n, t)
  {
    HexDigitValue(n / 4096);
    HexDigitValue(n / 256 % 16);
    HexDigitValue(n / 16 % 16);
    HexDigitValue(n % 16);
    assert (Digits4(n) + t)[4..] == t;
    assert n / 16 / 16 == n / 256 && n / 256 / 16 == n / 4096;
  }

  /** A UTF-16 code unit as an escape. */
  function UnitEscape(unit: int): bytes
    requires 0 <= unit < 0x10000
  {
    [BACKSLASH, 117] + Digits4(unit)
  }

  /** A code point as JSON may escape it: one UTF-16 code unit, or the two of a surrogate pair. */
  function RuneEscape(cp: int): bytes
    requires Scalar(cp)
  {
    if cp < 0x10000 then UnitEscape(cp)
    else UnitEscape(HighHalf(cp)) + UnitEscape(LastHalf(cp))
  }

  /** An escaped code point reads as its UTF-8 bytes (section 7 of RFC 8259). */
  lemma RuneEscapeReads(cp: int, t: bytes)
    requires Scalar(cp)
    ensures Escape(RuneEscape(cp) + t) == Done(RuneBytes(cp), t)
  {
    if cp < 0x10000 {
      UnitReads(cp, t);
    } else {
      PairReads(HighHalf(cp), LastHalf(cp), t);
      assert RuneEscape(cp) + t == UnitEscape(HighHalf(cp)) + (UnitEscape(LastHalf(cp)) + t);
    }
  }

  lemma PairReads(high: int, low: int, t: bytes)
    requires 0xD800 <= high <= 0xDBFF && 0xDC00 <= low <= 0xDFFF
    ensures Escape(UnitEscape(high) + (UnitEscape(low) + t))
            == Done(RuneBytes(0x10000 + (high - 0xD800) * 1024 + (low - 0xDC00)), t)
  {
    UnitReads(high, UnitEscape(low) + t);
    UnitReads(low, t);
  }

  lemma UnitReads(unit: int, t: bytes)
    requires 0 <= unit < 0x10000
    ensures var s := UnitEscape(unit) + t;
            s[0] == BACKSLASH && s[1] == 117 && Hex4(s[2..]) == Done(unit, t)
  {
    Digits4Read(unit, t);
    assert (UnitEscape(unit) + t)[2..] == Digits4(unit) + t;
  }

  // ----- Reading looks no further than the closing quote -----

  lemma Hex4Local(s: bytes, t: bytes)
    requires Hex4(s).Done?
    ensures Hex4(s[..4] + t) == Done(Hex4(s).value, t)
  {
    var u := s[..4] + t;
    assert u[0] == s[0] && u[1] == s[1] && u[2] == s[2] && u[3] == s[3] && u[4..] == t;
  }

  lemma LowHalfLocal(high: int, s: bytes, t: bytes)
    requires 0xD800 <= high <= 0xDBFF && LowHalf(high, s).Done?
    ensures LowHalf(high, Taken(s, LowHalf(high, s).rest) + t) == Done(LowHalf(high, s).value, t)
  {
    var c := Taken(s, LowHalf(high, s).rest);
    Hex4Local(s[2..], t);
    assert (c + t)[2..] == s[2..][..4] + t;
    assert (c + t)[0] == s[0] && (c + t)[1] == s[1];
  }

  lemma UnicodeLocal(s: bytes, t: bytes)
    requires |s| >= 2 && s[1] == 117 && Escape(s).Done?
    ensures Escape(Taken(s, Escape(s).rest) + t) == Done(Escape(s).value, t)
  {
    var p := Escape(s);
    var v := Taken(s, p.rest) + t;
    var u := Hex4(s[2..]);
    assert v[1] == 117;
    if 0xD800 <= u.value <= 0xDBFF {
      var c2 := Taken(u.rest, p.rest);
      LowHalfLocal(u.value, u.rest, t);
      Hex4Local(s[2..], c2 + t);
      assert v[2..] == s[2..][..4] + (c2 + t);
    } else {
      Hex4Local(s[2..], t);
      assert v[2..] == s[2..][..4] + t;
    }
  }

  lemma EscapeLocal(s: bytes, t: bytes)
    requires s != [] && Escape(s).Done?
    ensures Escape(Taken(s, Escape(s).rest) + t) == Done(Escape(s).value, t)
    ensures Taken(s, Escape(s).rest) != [] && Taken(s, Escape(s).rest)[0] == s[0]
  {
    var p := Escape(s);
    var c := Taken(s, p.rest);
    assert (c + t)[0] == s[0] && (c + t)[1] == s[1];
    if s[1] != 117 {
      assert (c + t)[2..] == t;
    } else {
      UnicodeLocal(s, t);
    }
  }

  lemma EscapedLocal(s: bytes, out: bytes, rest: bytes, t: bytes)
    requires s != [] && s[0] == BACKSLASH && Escape(s).Done? && |rest| <= |Escape(s).rest|
    requires rest == s[|s| - |rest|..]
    ensures StrBody(Taken(s, rest) + t, out) == StrBody(Taken(Escape(s).rest, rest) + t, out + Escape(s).value)
  {
    var e := Escape(s);
    var c := Taken(e.rest, rest);
    EscapeLocal(s, c + t);
    TakenThrough(s, e.rest, rest, t);
    EscapeGoesOn(Taken(s, e.rest) + (c + t), out, e.value, c + t);
  }

  lemma TakenThrough(s: bytes, mid: bytes, rest: bytes, t: bytes)
    requires |rest| <= |mid| <= |s| && mid == s[|s| - |mid|..] && rest == s[|s| - |rest|..]
    ensures Taken(s, rest) + t == Taken(s, mid) + (Taken(mid, rest) + t)
  {
  }

  lemma EscapeGoesOn(s: bytes, out: bytes, value: bytes, rest: bytes)
    requires s != [] && s[0] == BACKSLASH && Escape(s) == Done(value, rest)
    ensures StrBody(s, out) == StrBody(rest, out + value)
  {
  }

  lemma PlainLocal(s: bytes, out: bytes, rest: bytes, t: bytes)
    requires s != [] && s[0] != BACKSLASH && s[0] != QUOTE && s[0] >= 0x20 && |rest| < |s| && rest == s[|s| - |rest|..]
    ensures StrBody(Taken(s, rest) + t, out) == StrBody(Taken(s[1..], rest) + t, out + [s[0]])
  {
    var u := Taken(s, rest) + t;
    assert u[0] == s[0] && u[1..] == Taken(s[1..], rest) + t;
  }

  lemma ClosedLocal(s: bytes, out: bytes, t: bytes)
    requires s != [] && s[0] == QUOTE && ValidUtf8(out)
    ensures StrBody(Taken(s, s[1..]) + t, out) == Done(out, t)
  {
    var u := Taken(s, s[1..]) + t;
    assert u[0] == s[0] && u[1..] == t;
  }

  lemma {:induction false} StrBodyLocal(s: bytes, out: bytes, v: bytes, rest: bytes, t: bytes)
    requires StrBody(s, out) == Done(v, rest)
    ensures StrBody(Taken(s, rest) + t, out) == Done(v, t)
    decreases |s|
  {
    if s[0] == QUOTE {
      ClosedLocal(s, out, t);
    } else if s[0] == BACKSLASH {
      var e := Escape(s);
      StrBodyLocal(e.rest, out + e.value, v, rest, t);
      EscapedLocal(s, out, rest, t);
    } else {
      StrBodyLocal(s[1..], out + [s[0]], v, rest, t);
      PlainLocal(s, out, rest, t);
    }
  }

  /** What follows a string does not change how it reads. */
  lemma StrLocal(s: bytes, v: bytes, rest: bytes, t: bytes)
    requires Str(s) == Done(v, rest)
    ensures Str(Taken(s, rest) + t) == Done(v, t)
    ensures s == Taken(s, rest) + rest
  {
    StrBodyLocal(s[1..], [], v, rest, t);
    TakenFirst(s, rest, t);
  }

  lemma TakenFirst(s: bytes, rest: bytes, t: bytes)
    requires s != [] && |rest| < |s| && rest == s[|s| - |rest|..]
    ensures var u := Taken(s, rest) + t;
            u != [] && u[0] == s[0] && u[1..] == Taken(s[1..], rest) + t && s == Taken(s, rest) + rest
  {
  }
}
