/** Bytes as text (go/abstraction/job/acceptance/rec.go: encodeBinary, binary): canonical base64, sections 3.5 and 4 of
    RFC 4648. */
module Base64 {
  import opened Options
  import opened Bytes

  const PADDING: byte := 61

  function Letter(d: int): byte
    requires 0 <= d < 64
  {
    if d < 26 then 65 + d
    else if d < 52 then 97 + (d - 26)
    else if d < 62 then 48 + (d - 52)
    else if d == 62 then 43
    else 47
  }

  const ALPHABET: bytes := seq(64, i requires 0 <= i < 64 => Letter(i))

  function LetterValue(c: byte): (v: Option<int>)
    ensures v.Some? ==> 0 <= v.value < 64
  {
    if 65 <= c <= 90 then Some(c - 65)
    else if 97 <= c <= 122 then Some(c - 97 + 26)
    else if 48 <= c <= 57 then Some(c - 48 + 52)
    else if c == 43 then Some(62)
    else if c == 47 then Some(63)
    else None
  }

  /** The alphabet and its values are inverse. */
  lemma LetterIff(c: byte, d: int)
    requires 0 <= d < 64
    ensures LetterValue(c) == Some(d) <==> c == Letter(d)
  {
  }

  // ----- Writing -----

  /** A group as 24 bits, absent bytes zero. */
  function Bits(g: bytes): (v: int)
    requires 1 <= |g| <= 3
    ensures 0 <= v < 16777216
  {
    (g[0] as int) * 65536 + (if |g| > 1 then (g[1] as int) * 256 else 0) + (if |g| > 2 then g[2] as int else 0)
  }

  /** The four letters of a group of one, two or three bytes. */
  function EncodeGroup(g: bytes): (t: bytes)
    requires 1 <= |g| <= 3
    ensures |t| == 4
  {
    var v := Bits(g);
    [Letter(v / 262144), Letter(v / 4096 % 64), if |g| > 1 then Letter(v / 64 % 64) else PADDING,
     if |g| > 2 then Letter(v % 64) else PADDING]
  }

  /** encodeBinary */
  function Encode(value: bytes): (t: bytes)
    ensures |t| % 4 == 0
  {
    if value == [] then []
    else if |value| <= 3 then EncodeGroup(value)
    else
      var rest := Encode(value[3..]);
      assert (4 + |rest|) % 4 == |rest| % 4;
      EncodeGroup(value[..3]) + rest
  }

  /** One turn of the loop, at i. */
  method EncodeAt(value: bytes, i: nat) returns (letters: bytes)
    requires i < |value|
    ensures letters == EncodeGroup(Group(value, i))
  {
    var n := |value| - i;
    var v: int := (value[i] as int) * 65536;
    if n > 1 {
      v := v + (value[i + 1] as int) * 256;
    }
    if n > 2 {
      v := v + value[i + 2];
    }
    assert v == Bits(Group(value, i));
    letters := [Letter(v / 262144), Letter(v / 4096 % 64)];
    letters := letters + (if n > 1 then [Letter(v / 64 % 64)] else [PADDING]);
    letters := letters + (if n > 2 then [Letter(v % 64)] else [PADDING]);
  }

  function Group(value: bytes, i: nat): (g: bytes)
    requires i < |value|
    ensures 1 <= |g| <= 3
  {
    value[i..Until(value, i + 3)]
  }

  function Until(value: bytes, i: nat): (n: nat)
    ensures n <= |value| && n <= i
  {
    if i <= |value| then i else |value|
  }

  method EncodeBinary(value: bytes) returns (out: bytes)
    ensures out == Encode(value)
  {
    out := [];
    var i := 0;
    assert value[0..] == value;
    while i < |value|
      invariant Encode(value) == out + Encode(value[Until(value, i)..])
    {
      var letters := EncodeAt(value, i);
      GroupFirst(value, i);
      Assoc3(out, letters, Encode(value[Until(value, i + 3)..]));
      out := out + letters;
      i := i + 3;
    }
  }

  lemma GroupFirst(value: bytes, i: nat)
    requires i < |value|
    ensures Encode(value[i..]) == EncodeGroup(Group(value, i)) + Encode(value[Until(value, i + 3)..])
  {
    var rest := value[i..];
    if |rest| <= 3 {
      assert Group(value, i) == rest;
    } else {
      assert rest[..3] == value[i..i + 3] && rest[3..] == value[i + 3..];
    }
  }

  // ----- Reading -----

  /** The bytes of four letters; padding stands only at the end, and only in the last group. */
  function DecodeGroup(t: bytes, last: bool): Option<bytes>
    requires |t| == 4
  {
    var a, b := LetterValue(t[0]), LetterValue(t[1]);
    if a.None? || b.None? then None
    else if t[2] == PADDING then
      if last && t[3] == PADDING then Some(FirstBytes(a.value * 262144 + b.value * 4096, 1)) else None
    else
      var c := LetterValue(t[2]);
      if c.None? then None
      else if t[3] == PADDING then
        if last then Some(FirstBytes(a.value * 262144 + b.value * 4096 + c.value * 64, 2)) else None
      else
        var d := LetterValue(t[3]);
        if d.None? then None else Some(FirstBytes(a.value * 262144 + b.value * 4096 + c.value * 64 + d.value, 3))
  }

  /** The first n bytes of a 24-bit group. */
  function FirstBytes(v: int, n: nat): bytes
    requires 0 <= v < 16777216 && 1 <= n <= 3
  {
    [v / 65536] + (if n > 1 then [v / 256 % 256] else []) + (if n > 2 then [v % 256] else [])
  }

  /** The groups, without the check that the text is canonical. */
  function Groups(t: bytes): Option<bytes> {
    if t == [] then Some([])
    else if |t| < 4 then None
    else
      var first := DecodeGroup(t[..4], |t| == 4);
      if first.None? then None
      else
        var rest := Groups(t[4..]);
        if rest.None? then None else Some(first.value + rest.value)
  }

  /** binary, on the text str read: the groups, and then the whole encoded again must be the text. */
  function Decode(t: bytes): Option<bytes> {
    if |t| % 4 != 0 then None
    else
      var out := Groups(t);
      if out.Some? && Encode(out.value) == t then out else None
  }

  lemma GroupLetters(g: bytes) returns (a: int, b: int, c: int, d: int)
    requires 1 <= |g| <= 3
    ensures 0 <= a < 64 && 0 <= b < 64 && 0 <= c < 64 && 0 <= d < 64
    ensures EncodeGroup(g) == [Letter(a), Letter(b), if |g| > 1 then Letter(c) else PADDING, if |g| > 2 then Letter(d) else PADDING]
    ensures |g| == 1 ==> c == 0 && d == 0
    ensures |g| == 2 ==> d == 0
    ensures FirstBytes(a * 262144 + b * 4096 + c * 64 + d, |g|) == g
  {
    var v := Bits(g);
    a, b, c, d := v / 262144, v / 4096 % 64, v / 64 % 64, v % 64;
    Sixes(v);
    BytesOfBits(g);
  }

  /** 24 bits are four groups of six. */
  lemma Sixes(v: int)
    requires 0 <= v < 16777216
    ensures v == v / 262144 * 262144 + v / 4096 % 64 * 4096 + v / 64 % 64 * 64 + v % 64
  {
    assert v / 64 / 64 == v / 4096 && v / 4096 / 64 == v / 262144;
  }

  lemma BytesOfBits(g: bytes)
    requires 1 <= |g| <= 3
    ensures FirstBytes(Bits(g), |g|) == g
    ensures |g| == 1 ==> Bits(g) / 64 % 64 == 0 && Bits(g) % 64 == 0
    ensures |g| == 2 ==> Bits(g) % 64 == 0
  {
    if |g| == 1 {
      OneByte(g[0]);
    } else if |g| == 2 {
      TwoBytes(g[0], g[1]);
    } else {
      ThreeBytes(g[0], g[1], g[2]);
    }
  }

  lemma OneByte(x: byte)
    ensures var v: int := (x as int) * 65536; v / 65536 == x && v / 64 % 64 == 0 && v % 64 == 0
  {
    var v: int := (x as int) * 65536;
    assert v == (x as int) * 1024 * 64 && v / 64 == (x as int) * 1024 && (x as int) * 1024 == (x as int) * 16 * 64;
  }

  lemma TwoBytes(x: byte, y: byte)
    ensures var v: int := (x as int) * 65536 + (y as int) * 256; v / 65536 == x && v / 256 % 256 == y && v % 64 == 0
  {
    var v: int := (x as int) * 65536 + (y as int) * 256;
    assert v / 256 == (x as int) * 256 + y;
    assert v == ((x as int) * 1024 + (y as int) * 4) * 64;
  }

  lemma ThreeBytes(x: byte, y: byte, z: byte)
    ensures var v: int := (x as int) * 65536 + (y as int) * 256 + z; v / 65536 == x && v / 256 % 256 == y && v % 256 == z
  {
    var v: int := (x as int) * 65536 + (y as int) * 256 + z;
    assert v / 256 == (x as int) * 256 + y;
  }

  /** A written group reads back. */
  lemma GroupReadsBack(g: bytes, last: bool)
    requires 1 <= |g| <= 3 && (|g| == 3 || last)
    ensures DecodeGroup(EncodeGroup(g), last) == Some(g)
  {
    var a, b, c, d := GroupLetters(g);
    LetterIff(Letter(a), a);
    LetterIff(Letter(b), b);
    LetterIff(Letter(c), c);
    LetterIff(Letter(d), d);
  }

  lemma {:induction false} GroupsReadBack(value: bytes)
    ensures Groups(Encode(value)) == Some(value)
  {
    if value == [] {
    } else if |value| <= 3 {
      var t := Encode(value);
      GroupReadsBack(value, true);
      assert t[..4] == t && t[4..] == [] && value + [] == value;
    } else {
      var t := Encode(value);
      GroupReadsBack(value[..3], |t| == 4);
      GroupsReadBack(value[3..]);
      assert t[..4] == EncodeGroup(value[..3]) && t[4..] == Encode(value[3..]);
      assert value[..3] + value[3..] == value;
    }
  }

  /** The reader inverts the writer, and accepts nothing else: each value has one text. */
  lemma DecodeIff(t: bytes, value: bytes)
    ensures Decode(t) == Some(value) <==> t == Encode(value)
  {
    GroupsReadBack(value);
  }

  /** A group that decodes need not be canonical: bits beyond the last byte may be set, which is why the whole is
      encoded again. "QQ==" and "QR==" both carry the byte 65, and only the first is accepted. */
  lemma TwoSpellings()
    ensures Groups([81, 81, 61, 61]) == Some([65]) && Groups([81, 82, 61, 61]) == Some([65])
    ensures Decode([81, 81, 61, 61]) == Some([65]) && Decode([81, 82, 61, 61]) == None
  {
    assert Groups([]) == Some([]);
    assert [81, 81, 61, 61][..4] == [81, 81, 61, 61] && [81, 82, 61, 61][..4] == [81, 82, 61, 61];
    assert [65] + [] == [65];
    assert Encode([65]) == EncodeGroup([65]) == [81, 81, 61, 61];
  }

  // ----- The source's own loops -----

  /** The search through the alphabet. */
  method FindLetter(c: byte) returns (digit: int)
    ensures digit == if LetterValue(c).Some? then LetterValue(c).value else -1
  {
    digit := -1;
    for k := 0 to 64
      invariant digit == -1 && forall j | 0 <= j < k :: Letter(j) != c
    {
      if ALPHABET[k] == c {
        LetterIff(c, k);
        return k;
      }
    }
    if LetterValue(c).Some? {
      LetterIff(c, LetterValue(c).value);
    }
  }

  /** The inner loop over four letters: their 24 bits and how many are padding, unless one is out of place. */
  method ReadGroup(t: bytes, i: nat) returns (out: Option<bytes>)
    requires i + 4 <= |t|
    ensures out == DecodeGroup(t[i..i + 4], i + 4 == |t|)
  {
    var v, pad := 0, 0;
    ghost var g, last := t[i..i + 4], i + 4 == |t|;
    for j := 0 to 4
      invariant pad == Padded(g, j) && v == Accumulated(g, j)
      invariant forall k | 0 <= k < j :: InPlace(g, k, last)
    {
      var c := t[i + j];
      assert c == g[j];
      var digit := 0;
      if c == PADDING {
        if j < 2 || i + 4 != |t| {
          MisplacedRefuses(g, j, last);
          return None;
        }
        pad := pad + 1;
      } else {
        if pad != 0 {
          MisplacedRefuses(g, j, last);
          return None;
        }
        digit := FindLetter(c);
        if digit < 0 {
          MisplacedRefuses(g, j, last);
          return None;
        }
      }
      v := v * 64 + digit;
    }
    InPlaceDecodes(g, last);
    out := Some([v / 65536] + (if pad < 2 then [v / 256 % 256] else []) + (if pad == 0 then [v % 256] else []));
  }

  /** The padding among the first j letters. */
  function Padded(g: bytes, j: nat): nat
    requires j <= |g|
  {
    if j == 0 then 0 else Padded(g, j - 1) + if g[j - 1] == PADDING then 1 else 0
  }

  function Accumulated(g: bytes, j: nat): int
    requires j <= |g|
  {
    if j == 0 then 0
    else Accumulated(g, j - 1) * 64 + if LetterValue(g[j - 1]).Some? then LetterValue(g[j - 1]).value else 0
  }

  predicate InPlace(g: bytes, j: nat, last: bool)
    requires j < |g|
  {
    if g[j] == PADDING then j >= 2 && last else Padded(g, j) == 0 && LetterValue(g[j]).Some?
  }

  lemma MisplacedRefuses(g: bytes, j: nat, last: bool)
    requires |g| == 4 && j < 4 && !InPlace(g, j, last) && forall k | 0 <= k < j :: InPlace(g, k, last)
    ensures DecodeGroup(g, last) == None
  {
    assert Padded(g, 1) == if g[0] == PADDING then 1 else 0;
    assert Padded(g, 2) == Padded(g, 1) + if g[1] == PADDING then 1 else 0;
    assert Padded(g, 3) == Padded(g, 2) + if g[2] == PADDING then 1 else 0;
    assert j > 0 ==> InPlace(g, 0, last);
    assert j > 1 ==> InPlace(g, 1, last);
    assert j > 2 ==> InPlace(g, 2, last);
  }

  function ValueOr0(c: byte): (d: int)
    ensures 0 <= d < 64
  {
    if LetterValue(c).Some? then LetterValue(c).value else 0
  }

  lemma AccumulatedBits(g: bytes)
    requires |g| == 4
    ensures Accumulated(g, 4) == ValueOr0(g[0]) * 262144 + ValueOr0(g[1]) * 4096 + ValueOr0(g[2]) * 64 + ValueOr0(g[3])
  {
    assert Accumulated(g, 1) == ValueOr0(g[0]);
    assert Accumulated(g, 2) == ValueOr0(g[0]) * 64 + ValueOr0(g[1]);
    assert Accumulated(g, 3) == (ValueOr0(g[0]) * 64 + ValueOr0(g[1])) * 64 + ValueOr0(g[2]);
  }

  lemma PaddedCount(g: bytes, last: bool)
    requires |g| == 4 && InPlace(g, 0, last) && InPlace(g, 1, last) && InPlace(g, 2, last) && InPlace(g, 3, last)
    ensures g[0] != PADDING && g[1] != PADDING && (g[2] == PADDING ==> g[3] == PADDING)
    ensures Padded(g, 4) == (if g[2] == PADDING then 1 else 0) + (if g[3] == PADDING then 1 else 0)
  {
    assert Padded(g, 1) == 0;
    assert Padded(g, 2) == 0;
    assert Padded(g, 3) == if g[2] == PADDING then 1 else 0;
  }

  lemma InPlaceDecodes(g: bytes, last: bool)
    requires |g| == 4 && forall k | 0 <= k < 4 :: InPlace(g, k, last)
    ensures 0 <= Accumulated(g, 4) < 16777216 && 0 <= Padded(g, 4) <= 2
    ensures DecodeGroup(g, last) == Some(FirstBytes(Accumulated(g, 4), 3 - Padded(g, 4)))
  {
    assert InPlace(g, 0, last) && InPlace(g, 1, last) && InPlace(g, 2, last) && InPlace(g, 3, last);
    PaddedCount(g, last);
    AccumulatedBits(g);
  }

  function Prefixed(value: bytes, rest: Option<bytes>): Option<bytes> {
    if rest.Some? then Some(value + rest.value) else None
  }

  lemma PrefixedTwice(a: bytes, b: bytes, rest: Option<bytes>)
    ensures Prefixed(a, Prefixed(b, rest)) == Prefixed(a + b, rest)
    ensures Prefixed([], rest) == rest
  {
    if rest.Some? {
      Assoc3(a, b, rest.value);
      assert [] + rest.value == rest.value;
    }
  }

  lemma GroupsAt(t: bytes, i: nat)
    requires i + 4 <= |t|
    ensures var first := DecodeGroup(t[i..i + 4], i + 4 == |t|);
            Groups(t[i..]) == if first.None? then None else Prefixed(first.value, Groups(t[i + 4..]))
  {
    assert t[i..][..4] == t[i..i + 4] && t[i..][4..] == t[i + 4..];
  }

  /** binary, after its string is read. */
  method Binary(t: bytes) returns (out: Option<bytes>)
    ensures out == Decode(t)
  {
    if |t| % 4 != 0 {
      return None;
    }
    var value: bytes := [];
    var i := 0;
    ghost var k, groups := 0, |t| / 4;
    assert t[0..] == t;
    PrefixedTwice([], [], Groups(t));
    while i < |t|
      invariant i == 4 * k && 0 <= k <= groups && |t| == 4 * groups
      invariant Groups(t) == Prefixed(value, Groups(t[i..]))
    {
      GroupsAt(t, i);
      var g := ReadGroup(t, i);
      if g.None? {
        return None;
      }
      PrefixedTwice(value, g.value, Groups(t[i + 4..]));
      value := value + g.value;
      i := i + 4;
      k := k + 1;
    }
    assert t[i..] == [] && value + [] == value;
    var again := EncodeBinary(value);
    out := if again == t then Some(value) else None;
  }

  /** The examples of section 10 of RFC 4648: one, two and three bytes after a whole group; and the two
      letters of section 4 that are no letters. */
  lemma StandardExamples()
    ensures Encode([]) == []
    ensures Encode([251, 240]) == [43, 47, 65, 61]
    ensures Encode([102]) == [90, 103, 61, 61]
    ensures Encode([102, 111, 111, 98, 97]) == [90, 109, 57, 118, 89, 109, 69, 61]
    ensures Encode([102, 111, 111, 98, 97, 114]) == [90, 109, 57, 118, 89, 109, 70, 121]
  {
    var foo: bytes, ba: bytes, bar: bytes := [102, 111, 111], [98, 97], [98, 97, 114];
    assert Encode(foo) == [90, 109, 57, 118];
    assert Encode(ba) == [89, 109, 69, 61];
    assert Encode(bar) == [89, 109, 70, 121];
    assert (foo + ba)[..3] == foo && (foo + ba)[3..] == ba && foo + ba == [102, 111, 111, 98, 97];
    assert (foo + bar)[..3] == foo && (foo + bar)[3..] == bar && foo + bar == [102, 111, 111, 98, 97, 114];
  }
}
