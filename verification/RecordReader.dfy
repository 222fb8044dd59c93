/** The record reader (go/rec/rec.go, type reader): a buffer, a position and a depth, moved step by step. */
module RecordReader {
  import opened Options
  import opened Bytes
  import opened Text
  import opened Numbers
  import opened OpaqueJson

  /** A value, or a refusal: its word and the byte it stands at. */
  datatype Outcome<+T> = Got(value: T) | Refusal(word: string, offset: int)

  /** What a parse says, without the value it made. */
  function Gist<T>(p: Parse<T>): Parse<()> {
    match p
    case Done(_, rest) => Done((), rest)
    case Refused(word, left) => Refused(word, left)
  }

  class Reader {
    const buf: bytes
    var pos: nat
    var depth: nat

    ghost predicate Valid()
      reads this
    {
      pos <= |buf|
    }

    function Left(): bytes
      reads this
      requires Valid()
    {
      buf[pos..]
    }

    constructor (input: bytes)
      ensures buf == input && pos == 0 && depth == 0 && Valid() && Left() == input
    {
      buf := input;
      pos, depth := 0, 0;
    }

    /** The reader did what the parse p of its bytes says. */
    ghost predicate Did<T>(p: Parse<T>, r: Outcome<T>)
      reads this
    {
      Valid() &&
      match p
      case Done(v, rest) => r == Got(v) && Left() == rest
      case Refused(word, left) => r == Refusal(word, |buf| - left)
    }

    ghost predicate DidTurn(t: Turn, r: Outcome<Option<bytes>>)
      reads this
      requires Valid()
    {
      match t
      case Stop(word, left) => r == Refusal(word, |buf| - left)
      case Closed(rest) => r == Got(None) && Left() == rest
      case Next(key, rest) => r == Got(Some(key)) && Left() == rest
    }

    function Refuse<T>(word: string): Outcome<T>
      reads this
    {
      Refusal(word, pos)
    }

    function AtByte(): (c: byte)
      reads this
      requires Valid()
      ensures c == Front(Left())
    {
      if pos < |buf| then buf[pos] else 0
    }

    method Advance(n: nat)
      requires Valid() && pos + n <= |buf|
      modifies this`pos
      ensures Valid() && Left() == old(Left())[n..] && pos == old(pos) + n
    {
      pos := pos + n;
    }

    method SkipWs()
      requires Valid()
      modifies this`pos
      ensures Valid() && Left() == Ws(old(Left())) && pos >= old(pos)
    {
      while pos < |buf| && IsWs(buf[pos])
        invariant Valid() && Ws(Left()) == Ws(old(Left())) && pos >= old(pos)
      {
        assert Left()[1..] == buf[pos + 1..];
        pos := pos + 1;
      }
      WsStays(Left());
    }

    // ----- Strings -----

    method ReadHex4() returns (r: Outcome<int>)
      requires Valid()
      modifies this`pos
      ensures Did(Hex4(old(Left())), r) && pos >= old(pos)
    {
      if pos + 4 > |buf| {
        return Refuse("bad_string");
      }
      ghost var s := Left();
      var u := 0;
      for i := 0 to 4
        invariant Valid() && Left() == s && pos == old(pos)
        invariant forall k | 0 <= k < i :: HexValue(s[k]).Some?
        invariant i >= 1 ==> 0 <= HexValue(s[0]).value < 16
        invariant u == HexPrefix(s, i)
      {
        var digit := HexValue(buf[pos + i]);
        if digit.None? {
          assert HexValue(s[i]).None?;
          return Refuse("bad_string");
        }
        u := u * 16 + digit.value;
      }
      assert HexPrefix(s, 2) == HexValue(s[0]).value * 16 + HexValue(s[1]).value by { assert HexPrefix(s, 1) == HexValue(s[0]).value; }
      assert HexPrefix(s, 4) == HexPrefix(s, 3) * 16 + HexValue(s[3]).value;
      pos := pos + 4;
      r := Got(u);
    }

    method ReadEscape() returns (r: Outcome<bytes>)
      requires Valid() && pos < |buf|
      modifies this`pos
      ensures Did(Escape(old(Left())), r) && pos > old(pos)
    {
      ghost var s := Left();
      Advance(1);
      if pos >= |buf| {
        return Refuse("malformed");
      }
      var c := buf[pos];
      assert c == s[1];
      Advance(1);
      assert Left() == s[2..];
      if c == QUOTE || c == BACKSLASH || c == SLASH {
        return Got([c]);
      } else if c == 98 {
        return Got([8]);
      } else if c == 102 {
        return Got([12]);
      } else if c == 110 {
        return Got([10]);
      } else if c == 114 {
        return Got([13]);
      } else if c == 116 {
        return Got([9]);
      } else if c != 117 {
        return Refuse("bad_string");
      }
      var u := ReadHex4();
      if u.Refusal? {
        return Refusal(u.word, u.offset);
      }
      if 0xDC00 <= u.value <= 0xDFFF {
        return Refuse("bad_string");
      }
      if 0xD800 <= u.value <= 0xDBFF {
        r := ReadLowHalf(u.value);
        return;
      }
      r := Got(RuneBytes(u.value));
    }

    method ReadLowHalf(high: int) returns (r: Outcome<bytes>)
      requires Valid() && 0xD800 <= high <= 0xDBFF
      modifies this`pos
      ensures Did(LowHalf(high, old(Left())), r) && pos >= old(pos)
    {
      if pos + 1 >= |buf| || buf[pos] != BACKSLASH || buf[pos + 1] != 117 {
        return Refuse("bad_string");
      }
      Advance(2);
      var lo := ReadHex4();
      if lo.Refusal? {
        return Refusal(lo.word, lo.offset);
      }
      if lo.value < 0xDC00 || lo.value > 0xDFFF {
        return Refuse("bad_string");
      }
      r := Got(RuneBytes(0x10000 + (high - 0xD800) * 1024 + (lo.value - 0xDC00)));
    }

    /** str */
    method ReadStr() returns (r: Outcome<bytes>)
      requires Valid()
      modifies this`pos
      ensures Did(Str(old(Left())), r) && pos >= old(pos) && (r.Got? ==> pos > old(pos))
    {
      if AtByte() != QUOTE {
        return Refuse("wrong_type");
      }
      Advance(1);
      r := ReadBody();
    }

    method ReadBody() returns (r: Outcome<bytes>)
      requires Valid()
      modifies this`pos
      ensures Did(StrBody(old(Left()), []), r) && pos >= old(pos)
    {
      var out: bytes := [];
      while true
        invariant Valid() && pos >= old(pos) && StrBody(Left(), out) == StrBody(old(Left()), [])
        decreases |buf| - pos
      {
        if pos >= |buf| {
          return Refuse("malformed");
        }
        var c := buf[pos];
        if c == QUOTE {
          Advance(1);
          var valid := IsUtf8(out);
          if !valid {
            return Refuse("bad_string");
          }
          return Got(out);
        } else if c < 0x20 {
          return Refuse("bad_string");
        } else if c == BACKSLASH {
          var e := ReadEscape();
          if e.Refusal? {
            return Refusal(e.word, e.offset);
          }
          out := out + e.value;
        } else {
          out := out + [c];
          Advance(1);
        }
      }
    }

    // ----- Numbers -----

    /** The accumulator is a uint64, which the guard before each digit keeps from wrapping. */
    method ReadDigits() returns (r: Outcome<uint64>)
      requires Valid()
      modifies this`pos
      ensures Did(Scan(old(Left()), 0), r) && pos >= old(pos)
    {
      var u: uint64 := 0;
      while IsDigit(AtByte())
        invariant Valid() && pos >= old(pos) && u <= 9223372036854775809 && Scan(Left(), u) == Scan(old(Left()), 0)
        decreases |buf| - pos
      {
        if u > 922337203685477580 {
          return Refuse("number_spelling");
        }
        u := u * 10 + (AtByte() - ZERO);
        Advance(1);
      }
      r := Got(u);
    }

    method Sign(neg: bool, u: uint64, min: int, max: int) returns (r: Outcome<int>)
      requires Valid()
      ensures Did(Signed(neg, u, min, max, Left()), r)
    {
      var c := AtByte();
      if c == DOT || c == 101 || c == 69 || IsDigit(c) {
        return Refuse("number_spelling");
      }
      if neg && u == 0 {
        return Refuse("number_spelling");
      }
      if !(neg && u == TWO63) && u > TWO63 - 1 {
        return Refuse("number_spelling");
      }
      var n: int := if neg then 0 - u else u;
      if n < min || n > max {
        return Refuse("number_spelling");
      }
      r := Got(n);
    }

    /** integer */
    method ReadInteger(min: int, max: int) returns (r: Outcome<int>)
      requires Valid()
      modifies this`pos
      ensures Did(Integer(old(Left()), min, max), r) && pos >= old(pos)
    {
      var c := AtByte();
      if c != MINUS && !IsDigit(c) {
        return Refuse("wrong_type");
      }
      var neg := c == MINUS;
      if neg {
        Advance(1);
      }
      if !IsDigit(AtByte()) {
        return Refuse("malformed");
      }
      var u := 0;
      if AtByte() == ZERO {
        Advance(1);
      } else {
        var scanned := ReadDigits();
        if scanned.Refusal? {
          return Refusal(scanned.word, scanned.offset);
        }
        u := scanned.value;
      }
      r := Sign(neg, u, min, max);
    }

    method ReadLiteral(word: bytes) returns (r: Outcome<()>)
      requires Valid()
      modifies this`pos
      ensures Did(Literal(old(Left()), word), r) && pos >= old(pos)
    {
      if pos + |word| > |buf| || buf[pos..pos + |word|] != word {
        assert pos + |word| <= |buf| ==> Left()[..|word|] == buf[pos..pos + |word|];
        return Refuse("malformed");
      }
      assert Left()[..|word|] == buf[pos..pos + |word|];
      Advance(|word|);
      r := Got(());
    }

    /** boolean */
    method ReadBoolean() returns (r: Outcome<bool>)
      requires Valid()
      modifies this`pos
      ensures Did(Boolean(old(Left())), r) && pos >= old(pos)
    {
      var c := AtByte();
      if c != 116 && c != 102 {
        return Refuse("wrong_type");
      }
      var word := ReadLiteral(if c == 116 then TRUE else FALSE);
      r := if word.Got? then Got(c == 116) else Refusal(word.word, word.offset);
    }

    method SkipDigits() returns (n: nat)
      requires Valid()
      modifies this`pos
      ensures Valid() && Left() == DropDigits(old(Left())) && n == pos - old(pos)
    {
      n := 0;
      while IsDigit(AtByte())
        invariant Valid() && DropDigits(Left()) == DropDigits(old(Left())) && n == pos - old(pos)
        decreases |buf| - pos
      {
        Advance(1);
        n := n + 1;
      }
    }

    method SkipSomeDigits() returns (r: Outcome<()>)
      requires Valid()
      modifies this`pos
      ensures Did(SomeDigits(old(Left())), r) && pos >= old(pos)
    {
      ghost var s := Left();
      var n := SkipDigits();
      if n == 0 {
        assert Left() == s;
        return Refuse("number_spelling");
      }
      DropsIff(s);
      r := Got(());
    }

    method SkipWhole() returns (r: Outcome<()>)
      requires Valid()
      modifies this`pos
      ensures Did(Whole(old(Left())), r) && pos >= old(pos) && (r.Got? ==> pos > old(pos))
    {
      ghost var s := Left();
      var c := AtByte();
      if c == ZERO {
        Advance(1);
      } else if IsDigit(c) {
        var n := SkipDigits();
        assert |DropDigits(s)| < |s|;
      } else {
        return Refuse("number_spelling");
      }
      r := Got(());
    }

    method SkipFraction() returns (r: Outcome<()>)
      requires Valid()
      modifies this`pos
      ensures Did(Fraction(old(Left())), r) && pos >= old(pos)
    {
      if AtByte() != DOT {
        return Got(());
      }
      Advance(1);
      r := SkipSomeDigits();
    }

    method SkipExponent() returns (r: Outcome<()>)
      requires Valid()
      modifies this`pos
      ensures Did(Exponent(old(Left())), r) && pos >= old(pos)
    {
      if AtByte() != 101 && AtByte() != 69 {
        return Got(());
      }
      Advance(1);
      if AtByte() == PLUS || AtByte() == MINUS {
        Advance(1);
      }
      r := SkipSomeDigits();
    }

    /** skipNumber */
    method SkipNumber() returns (r: Outcome<()>)
      requires Valid()
      modifies this`pos
      ensures Did(Number(old(Left())), r) && pos >= old(pos) && (r.Got? ==> pos > old(pos))
    {
      if AtByte() == MINUS {
        Advance(1);
      }
      r := SkipWhole();
      if r.Refusal? {
        return;
      }
      r := SkipFraction();
      if r.Refusal? {
        return;
      }
      r := SkipExponent();
    }

    // ----- Opaque values -----

    /** skipValue: past one value, without a tree. */
    method SkipValue() returns (r: Outcome<()>)
      requires Valid()
      modifies this`pos, this`depth
      ensures Did(Gist(Value(old(Left()), old(depth))), r) && (r.Got? ==> depth == old(depth) && pos > old(pos))
      decreases |buf| - pos, 2
    {
      var c := AtByte();
      if IsOpen(c) {
        ContainerGist(Left(), depth);
        r := SkipContainer();
      } else if c == QUOTE {
        var k := ReadStr();
        r := if k.Got? then Got(()) else Refusal(k.word, k.offset);
      } else if c == 116 {
        r := ReadLiteral(TRUE);
      } else if c == 102 {
        r := ReadLiteral(FALSE);
      } else if c == 110 {
        r := ReadLiteral(NULL);
      } else if c == MINUS || IsDigit(c) {
        r := SkipNumber();
      } else {
        r := Refuse("malformed");
      }
    }

    /** The colon after a name, and the whitespace around it. */
    method ReadColon() returns (r: Outcome<()>)
      requires Valid()
      modifies this`pos
      ensures Did(Colon(old(Left())), r) && pos >= old(pos)
    {
      SkipWs();
      if AtByte() != COLON {
        return Refuse("malformed");
      }
      Advance(1);
      SkipWs();
      r := Got(());
    }

    /** A member's name, unless it came before. */
    method ReadFresh(seen: set<bytes>) returns (r: Outcome<bytes>)
      requires Valid()
      modifies this`pos
      ensures Did(Fresh(old(Left()), seen), r) && pos >= old(pos)
    {
      if AtByte() != QUOTE {
        return Refuse("malformed");
      }
      r := ReadStr();
      if r.Got? && r.value in seen {
        r := Refuse("duplicate_key");
      }
    }

    /** A member's name and colon, or nothing in an array. */
    method SkipHead(open: byte, seen: set<bytes>) returns (r: Outcome<bytes>)
      requires Valid()
      modifies this`pos
      ensures Did(Keyed(Head(old(Left()), open, seen)), r) && pos >= old(pos)
    {
      if open != OPEN_BRACE {
        return Got([]);
      }
      HeadByParts(Left(), seen);
      r := ReadFresh(seen);
      if r.Refusal? {
        return;
      }
      var colon := ReadColon();
      if colon.Refusal? {
        r := Refusal(colon.word, colon.offset);
      }
    }

    /** skipContainer */
    method SkipContainer() returns (r: Outcome<()>)
      requires Valid() && IsOpen(AtByte())
      modifies this`pos, this`depth
      ensures Did(Contained(old(Left()), old(depth)), r) && (r.Got? ==> depth == old(depth) && pos > old(pos))
      decreases |buf| - pos, 1
    {
      var open := buf[pos];
      depth := depth + 1;
      if depth > DEPTH_LIMIT {
        return Refuse("depth_exceeded");
      }
      r := SkipOpened(open);
      if r.Got? {
        depth := depth - 1;
      }
    }

    method SkipOpened(open: byte) returns (r: Outcome<()>)
      requires Valid() && pos < |buf|
      modifies this`pos, this`depth
      ensures Did(Inside(Ws(old(Left())[1..]), open, old(depth)), r) && (r.Got? ==> depth == old(depth) && pos > old(pos))
      decreases |buf| - pos, 0
    {
      Advance(1);
      SkipWs();
      r := SkipInside(open);
    }

    method SkipInside(open: byte) returns (r: Outcome<()>)
      requires Valid()
      modifies this`pos, this`depth
      ensures Did(Inside(old(Left()), open, old(depth)), r) && (r.Got? ==> depth == old(depth) && pos >= old(pos))
      decreases |buf| - pos, 6
    {
      if AtByte() == Shut(open) {
        Advance(1);
        return Got(());
      }
      r := SkipElements(open);
    }

    /** The loop of skipContainer keeps only the names seen: what is left to read answers for the whole. */
    method SkipElements(open: byte) returns (r: Outcome<()>)
      requires Valid()
      modifies this`pos, this`depth
      ensures Did(Gist(Elements(old(Left()), open, old(depth), {})), r) && (r.Got? ==> depth == old(depth) && pos >= old(pos))
      decreases |buf| - pos, 5
    {
      var seen: set<bytes> := {};
      while true
        invariant Valid() && pos >= old(pos) && depth == old(depth)
        invariant Gist(Elements(old(Left()), open, depth, {})) == Gist(Elements(Left(), open, depth, seen))
        decreases |buf| - pos
      {
        ElementsTurn(Left(), open, depth, seen);
        var turn := SkipItem(open, seen);
        if turn.Refusal? {
          return Refusal(turn.word, turn.offset);
        }
        if turn.value.None? {
          return Got(());
        }
        seen := With(seen, open, turn.value.value);
      }
    }

    /** One turn of that loop: the name of an item with more after it, or nothing when the container closed. */
    method SkipItem(open: byte, seen: set<bytes>) returns (r: Outcome<Option<bytes>>)
      requires Valid()
      modifies this`pos, this`depth
      ensures Valid() && (r.Got? ==> depth == old(depth) && pos > old(pos))
      ensures DidTurn(Turned(Ws(old(Left())), open, old(depth), seen), r)
      decreases |buf| - pos, 4
    {
      SkipWs();
      var key := SkipNamed(open, seen);
      if key.Refusal? {
        return Refusal(key.word, key.offset);
      }
      var more := ReadSeparator(Shut(open));
      r := if more.Refusal? then Refusal(more.word, more.offset) else Got(if more.value then Some(key.value) else None);
    }

    /** An item's name, if it has one, and its value. */
    method SkipNamed(open: byte, seen: set<bytes>) returns (r: Outcome<bytes>)
      requires Valid()
      modifies this`pos, this`depth
      ensures Did(Named(old(Left()), open, old(depth), seen), r) && (r.Got? ==> depth == old(depth) && pos > old(pos))
      decreases |buf| - pos, 3
    {
      r := SkipHead(open, seen);
      if r.Refusal? {
        return;
      }
      var value := SkipValue();
      if value.Refusal? {
        r := Refusal(value.word, value.offset);
      }
    }

    /** A comma with more after it, or the closing byte. */
    method ReadSeparator(shut: byte) returns (more: Outcome<bool>)
      requires Valid() && shut != 0 && shut != COMMA
      modifies this`pos
      ensures Did(Separator(old(Left()), shut), more) && pos >= old(pos) && (more.Got? ==> pos > old(pos))
    {
      SkipWs();
      var c := AtByte();
      if c != COMMA && c != shut {
        return Refuse("malformed");
      }
      Advance(1);
      more := Got(c == COMMA);
    }
  }

  function HexPrefix(s: bytes, i: nat): int
    requires i <= |s| && forall k | 0 <= k < i :: HexValue(s[k]).Some?
  {
    if i == 0 then 0 else HexPrefix(s, i - 1) * 16 + HexValue(s[i - 1]).value
  }

  /** validUTF8's loop. */
  method IsUtf8(b: bytes) returns (yes: bool)
    ensures yes <==> ValidUtf8(b)
  {
    var i := 0;
    assert b[0..] == b;
    while i < |b|
      invariant 0 <= i <= |b| && (ValidUtf8(b) <==> ValidUtf8(b[i..]))
    {
      var n := RuneLength(b[i]);
      if n == 0 || i + n > |b| {
        return false;
      }
      var cp: int := LeadBits(b[i], n);
      ghost var t := b[i..];
      for k := 1 to n
        invariant forall j | 1 <= j < k :: IsContinuation(t[j])
        invariant cp == RunePrefix(t, n, k)
      {
        if !IsContinuation(b[i + k]) {
          assert !IsContinuation(t[k]);
          return false;
        }
        cp := cp * 64 + b[i + k] % 64;
      }
      RuneByPrefix(t, n, cp);
      if cp < Lowest(n) || !Scalar(cp) {
        return false;
      }
      assert b[i..][n..] == b[i + n..];
      i := i + n;
    }
    yes := true;
  }

  function LeadBits(c: byte, n: nat): int {
    if n <= 1 then c else if n == 2 then c % 32 else if n == 3 then c % 16 else c % 8
  }

  function Lowest(n: nat): int {
    if n == 2 then 0x80 else if n == 3 then 0x800 else if n == 4 then 0x10000 else 0
  }

  /** The accumulator after k bytes of a rune of n. */
  function RunePrefix(b: bytes, n: nat, k: nat): int
    requires 1 <= k <= |b|
  {
    if k == 1 then LeadBits(b[0], n) else RunePrefix(b, n, k - 1) * 64 + b[k - 1] % 64
  }

  lemma RuneByPrefix(b: bytes, n: nat, cp: int)
    requires b != [] && n == RuneLength(b[0]) && 1 <= n <= |b|
    requires forall j | 1 <= j < n :: IsContinuation(b[j])
    requires cp == RunePrefix(b, n, n)
    ensures Rune(b) == if cp >= Lowest(n) && Scalar(cp) then Some((cp, n)) else None
  {
    if n == 2 {
      assert RunePrefix(b, n, 1) == b[0] % 32;
    } else if n == 3 {
      assert RunePrefix(b, n, 2) == (b[0] as int) % 16 * 64 + b[1] % 64;
    } else if n == 4 {
      assert RunePrefix(b, n, 2) == (b[0] as int) % 8 * 64 + b[1] % 64;
      assert RunePrefix(b, n, 3) == (b[0] as int) % 8 * 4096 + (b[1] as int) % 64 * 64 + b[2] % 64;
    }
  }

  function Boolean(s: bytes): (p: Parse<bool>)
    ensures p.Done? ==> |p.rest| < |s|
    ensures p.Refused? ==> p.left <= |s|
  {
    if Front(s) != 116 && Front(s) != 102 then Refused("wrong_type", |s|)
    else
      var p := Literal(s, if Front(s) == 116 then TRUE else FALSE);
      if p.Refused? then Refused(p.word, p.left) else Done(Front(s) == 116, p.rest)
  }

  function Keyed(p: Parse<Name>): Parse<bytes> {
    match p
    case Done(n, rest) => Done(n.key, rest)
    case Refused(word, left) => Refused(word, left)
  }

  /** What one turn of skipContainer's loop comes to. */
  datatype Turn = Stop(word: string, left: nat) | Closed(rest: bytes) | Next(key: bytes, rest: bytes)

  function Named(s: bytes, open: byte, depth: nat, seen: set<bytes>): (p: Parse<bytes>)
    ensures p.Refused? ==> p.left <= |s|
  {
    var head := Head(s, open, seen);
    if head.Refused? then Refused(head.word, head.left)
    else
      var value := Value(head.rest, depth);
      if value.Refused? then Refused(value.word, value.left) else Done(head.value.key, value.rest)
  }

  function Turned(s: bytes, open: byte, depth: nat, seen: set<bytes>): Turn {
    var named := Named(s, open, depth, seen);
    if named.Refused? then Stop(named.word, named.left)
    else
      var more := Separator(named.rest, Shut(open));
      if more.Refused? then Stop(more.word, more.left)
      else if more.value then Next(named.value, more.rest)
      else Closed(more.rest)
  }

  function Separator(s: bytes, shut: byte): (p: Parse<bool>)
    requires shut != 0
    ensures p.Refused? ==> p.left <= |s|
    ensures p.Done? ==> |p.rest| < |s|
  {
    var r := Ws(s);
    if Front(r) == COMMA then Done(true, r[1..])
    else if Front(r) == shut then Done(false, r[1..])
    else Refused("malformed", |r|)
  }

  /** What the whole loop comes to after that turn. */
  function Resolved(t: Turn, open: byte, depth: nat, seen: set<bytes>): Parse<()> {
    match t
    case Stop(word, left) => Refused(word, left)
    case Closed(rest) => Done((), rest)
    case Next(key, rest) => Gist(Elements(rest, open, depth, With(seen, open, key)))
  }

  lemma ElementsTurn(s: bytes, open: byte, depth: nat, seen: set<bytes>)
    ensures Gist(Elements(s, open, depth, seen)) == Resolved(Turned(Ws(s), open, depth, seen), open, depth, seen)
  {
  }

  lemma ElementsPastWs(s: bytes, open: byte, depth: nat, seen: set<bytes>)
    ensures Gist(Elements(Ws(s), open, depth, seen)) == Gist(Elements(s, open, depth, seen))
  {
    WsTwice(s);
    ElementsTurn(s, open, depth, seen);
    ElementsTurn(Ws(s), open, depth, seen);
  }

  /** What walking a container comes to. */
  function Contained(s: bytes, depth: nat): Parse<()>
    requires IsOpen(Front(s))
  {
    if depth + 1 > DEPTH_LIMIT then Refused("depth_exceeded", |s|) else Inside(Ws(s[1..]), s[0], depth + 1)
  }

  function Inside(s: bytes, open: byte, depth: nat): Parse<()> {
    if Front(s) == Shut(open) then Done((), s[1..]) else Gist(Elements(s, open, depth, {}))
  }

  lemma ContainerGist(s: bytes, depth: nat)
    requires IsOpen(Front(s))
    ensures Gist(Value(s, depth)) == Contained(s, depth)
  {
    ElementsPastWs(s[1..], s[0], depth + 1, {});
  }

  function Colon(s: bytes): (p: Parse<()>)
    ensures p.Refused? ==> p.left <= |s|
    ensures p.Done? ==> |p.rest| < |s|
  {
    var r := Ws(s);
    if Front(r) != COLON then Refused("malformed", |r|) else Done((), Ws(r[1..]))
  }

  function Fresh(s: bytes, seen: set<bytes>): Parse<bytes> {
    if Front(s) != QUOTE then Refused("malformed", |s|)
    else
      var k := Str(s);
      if k.Done? && k.value in seen then Refused("duplicate_key", |k.rest|) else k
  }

  lemma HeadByParts(s: bytes, seen: set<bytes>)
    ensures Keyed(Head(s, OPEN_BRACE, seen)) ==
            var k := Fresh(s, seen);
            if k.Refused? then Refused(k.word, k.left)
            else
              var c := Colon(k.rest);
              if c.Refused? then Refused(c.word, c.left) else Done(k.value, c.rest)
  {
  }

  lemma DropsIff(s: bytes)
    ensures IsDigit(Front(s)) <==> |DropDigits(s)| < |s|
  {
  }
}
