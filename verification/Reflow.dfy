/**
 Re-emitting opaque values (go/rec/rec.go: raw, rawFlat). The printers walk bytes and never parse; over the texts the
 reader accepts they change whitespace and nothing else.
 */
module Reflow {
  import opened Bytes
  import opened Text
  import opened OpaqueJson

  // ----- The printers -----

  /** How far the string that has just opened runs, for a scan that only knows quotes and backslashes. A text that
      stops inside an escape, which the source's slice would not survive, ends there. */
  function QuoteLength(s: bytes): (n: nat)
    ensures n <= |s|
    decreases |s|
  {
    if s == [] then 0
    else if s[0] == BACKSLASH then if |s| >= 2 then 2 + QuoteLength(s[2..]) else 1
    else if s[0] == QUOTE then 1
    else 1 + QuoteLength(s[1..])
  }

  function Pad(depth: int): bytes {
    if depth <= 0 then [] else Pad(depth - 1) + [SPACE, SPACE]
  }

  function NewLine(depth: int): bytes {
    [NEWLINE] + Pad(depth)
  }

  predicate IsShut(c: byte) {
    c == SHUT_BRACE || c == SHUT_BRACKET
  }

  /** One turn of raw at the front of s: what it writes, how many bytes it takes, and the depth it leaves. */
  function Step(s: bytes, depth: int): (r: (bytes, nat, int))
    requires s != []
    ensures 0 < r.1 <= |s|
  {
    var c := s[0];
    if IsWs(c) then ([], 1, depth)
    else if c == QUOTE then
      var n := 1 + QuoteLength(s[1..]);
      (s[..n], n, depth)
    else if IsOpen(c) then
      var n := 1 + WsLength(s[1..]);
      if n < |s| && IsShut(s[n]) then ([c, s[n]], n + 1, depth) else ([c] + NewLine(depth + 1), 1, depth + 1)
    else if IsShut(c) then (NewLine(depth - 1) + [c], 1, depth - 1)
    else (if c == COMMA then [COMMA] + NewLine(depth) else if c == COLON then [COLON, SPACE] else [c], 1, depth)
  }

  /** raw */
  function Indented(s: bytes, depth: int): bytes
    decreases |s|
  {
    if s == [] then []
    else
      var (written, n, d) := Step(s, depth);
      written + Indented(s[n..], d)
  }

  /** One turn of rawFlat at the front of s: what it writes, and how many bytes it takes. */
  function FlatStep(s: bytes): (r: (bytes, nat))
    requires s != []
    ensures 0 < r.1 <= |s|
  {
    if IsWs(s[0]) then ([], 1)
    else if s[0] == QUOTE then
      var n := 1 + QuoteLength(s[1..]);
      (s[..n], n)
    else ([s[0]], 1)
  }

  /** rawFlat */
  function Flat(s: bytes): bytes
    decreases |s|
  {
    if s == [] then []
    else
      var (written, n) := FlatStep(s);
      written + Flat(s[n..])
  }

  // ----- The same tree, set in other whitespace -----

  function Compact(t: Tree): Tree {
    match t
    case Leaf(token) => t
    case Node(open, _, items) => Node(open, [], CompactItems(items))
  }

  function CompactItems(items: Items): Items {
    match items
    case End => End
    case Item(_, name, _, _, value, _, more) => Item([], name, [], [], Compact(value), [], CompactItems(more))
  }

  function Pretty(t: Tree, depth: nat): Tree {
    match t
    case Leaf(token) => t
    case Node(open, _, items) => Node(open, [], PrettyItems(items, open, depth))
  }

  /** The items of a container whose own line is at `depth`. */
  function PrettyItems(items: Items, open: byte, depth: nat): Items {
    match items
    case End => End
    case Item(_, name, _, _, value, _, more) =>
      Item(NewLine(depth + 1), name, [], if open == OPEN_BRACE then [SPACE] else [], Pretty(value, depth + 1),
           if more.End? then NewLine(depth) else [], PrettyItems(more, open, depth))
  }

  /** Equal but for whitespace: the same brackets, names and tokens in the same order. */
  predicate SameTokens(a: Tree, b: Tree) {
    match (a, b)
    case (Leaf(x), Leaf(y)) => x == y
    case (Node(x, _, xs), Node(y, _, ys)) => x == y && SameItems(xs, ys)
    case _ => false
  }

  predicate SameItems(a: Items, b: Items) {
    match (a, b)
    case (End, End) => true
    case (Item(_, x, _, _, v, _, xs), Item(_, y, _, _, w, _, ys)) => x == y && SameTokens(v, w) && SameItems(xs, ys)
    case _ => false
  }

  /** A line at a depth starts with a newline and two spaces for each level. */
  lemma {:induction false} NewLineIs(depth: nat)
    ensures |NewLine(depth)| == 1 + 2 * depth && NewLine(depth)[0] == NEWLINE
    ensures forall i | 1 <= i < |NewLine(depth)| :: NewLine(depth)[i] == SPACE
  {
    if depth > 0 {
      NewLineIs(depth - 1);
      assert NewLine(depth) == NewLine(depth - 1) + [SPACE, SPACE];
    }
  }

  lemma {:induction false} PadIsWs(depth: int)
    ensures AllWs(Pad(depth)) && AllWs(NewLine(depth))
    decreases depth
  {
    if depth > 0 {
      PadIsWs(depth - 1);
    }
  }

  lemma {:induction false} CompactOk(t: Tree, depth: nat)
    requires Ok(t, depth)
    ensures Ok(Compact(t), depth) && SameTokens(t, Compact(t))
    decreases t
  {
    if t.Node? {
      CompactItemsOk(t.items, t.open, depth + 1, {});
    }
  }

  lemma {:induction false} CompactItemsOk(items: Items, open: byte, depth: nat, seen: set<bytes>)
    requires ItemsOk(items, open, depth, seen)
    ensures ItemsOk(CompactItems(items), open, depth, seen) && SameItems(items, CompactItems(items))
    decreases items
  {
    if items.Item? {
      CompactOk(items.value, depth);
      CompactItemsOk(items.more, open, depth, With(seen, open, KeyOf(items.name)));
    }
  }

  lemma {:induction false} PrettyOk(t: Tree, depth: nat, level: nat)
    requires Ok(t, depth)
    ensures Ok(Pretty(t, level), depth) && SameTokens(t, Pretty(t, level))
    decreases t
  {
    if t.Node? {
      PrettyItemsOk(t.items, t.open, depth + 1, {}, level);
    }
  }

  lemma {:induction false} PrettyItemsOk(items: Items, open: byte, depth: nat, seen: set<bytes>, level: nat)
    requires ItemsOk(items, open, depth, seen)
    ensures ItemsOk(PrettyItems(items, open, level), open, depth, seen) && SameItems(items, PrettyItems(items, open, level))
    decreases items
  {
    if items.Item? {
      PadIsWs(level + 1);
      PadIsWs(level);
      PrettyOk(items.value, depth, level + 1);
      PrettyItemsOk(items.more, open, depth, With(seen, open, KeyOf(items.name)), level);
    }
  }

  lemma {:induction false} SameCompact(a: Tree, b: Tree)
    requires SameTokens(a, b)
    ensures Compact(a) == Compact(b)
    decreases a
  {
    if a.Node? {
      SameCompactItems(a.items, b.items);
    }
  }

  lemma {:induction false} SameCompactItems(a: Items, b: Items)
    requires SameItems(a, b)
    ensures CompactItems(a) == CompactItems(b)
    decreases a
  {
    if a.Item? {
      SameCompact(a.value, b.value);
      SameCompactItems(a.more, b.more);
    }
  }

  lemma {:induction false} SamePretty(a: Tree, b: Tree, depth: nat)
    requires SameTokens(a, b)
    ensures Pretty(a, depth) == Pretty(b, depth)
    decreases a
  {
    if a.Node? {
      SamePrettyItems(a.items, b.items, a.open, depth);
    }
  }

  lemma {:induction false} SamePrettyItems(a: Items, b: Items, open: byte, depth: nat)
    requires SameItems(a, b)
    ensures PrettyItems(a, open, depth) == PrettyItems(b, open, depth)
    decreases a
  {
    if a.Item? {
      SamePretty(a.value, b.value, depth + 1);
      SamePrettyItems(a.more, b.more, open, depth);
    }
  }

  // ----- What the byte scan makes of a token -----

  predicate IsPlain(c: byte) {
    c > 0x20 && c != QUOTE && !IsOpen(c) && !IsShut(c) && c != COMMA && c != COLON
  }

  predicate AllPlain(s: bytes) {
    forall i | 0 <= i < |s| :: IsPlain(s[i])
  }

  lemma {:induction false} DigitsArePlain(s: bytes)
    ensures AllPlain(Taken(s, DropDigits(s)))
  {
    if IsDigit(Front(s)) {
      DigitsArePlain(s[1..]);
      assert Taken(s, DropDigits(s)) == [s[0]] + Taken(s[1..], DropDigits(s[1..]));
    }
  }

  lemma PlainStep(s: bytes, mid: bytes, rest: bytes)
    requires |rest| <= |mid| <= |s| && s == Taken(s, mid) + mid && AllPlain(Taken(s, mid)) && AllPlain(Taken(mid, rest))
    ensures AllPlain(Taken(s, rest))
  {
    assert Taken(s, rest) == Taken(s, mid) + Taken(mid, rest);
  }

  lemma PlainFirst(s: bytes, rest: bytes)
    requires s != [] && |rest| < |s| && IsPlain(s[0]) && AllPlain(Taken(s[1..], rest))
    ensures AllPlain(Taken(s, rest))
  {
    assert Taken(s, rest) == [s[0]] + Taken(s[1..], rest);
  }

  lemma FractionIsPlain(s: bytes)
    requires Fraction(s).Done?
    ensures AllPlain(Taken(s, Fraction(s).rest))
  {
    if Front(s) == DOT {
      DigitsArePlain(s[1..]);
      PlainFirst(s, Fraction(s).rest);
    }
  }

  lemma ExponentIsPlain(s: bytes)
    requires Exponent(s).Done?
    ensures AllPlain(Taken(s, Exponent(s).rest))
  {
    var rest := Exponent(s).rest;
    if Front(s) == 101 || Front(s) == 69 {
      var t := s[1..];
      if Front(t) == PLUS || Front(t) == MINUS {
        DigitsArePlain(t[1..]);
        PlainFirst(t, rest);
      } else {
        DigitsArePlain(t);
      }
      PlainFirst(s, rest);
    }
  }

  lemma TailIsPlain(whole: bytes, fraction: bytes, rest: bytes)
    requires Fraction(whole) == Done((), fraction) && Exponent(fraction) == Done((), rest)
    ensures AllPlain(Taken(whole, rest))
  {
    ExponentIsPlain(fraction);
    FractionIsPlain(whole);
    FractionLocal(whole, fraction, []);
    PlainStep(whole, fraction, rest);
  }

  lemma WholeIsPlain(s: bytes, whole: bytes)
    requires Whole(s) == Done((), whole)
    ensures AllPlain(Taken(s, whole)) && s == Taken(s, whole) + whole
  {
    DigitsArePlain(s);
    WholeLocal(s, whole, []);
  }

  lemma UnsignedIsPlain(s: bytes, whole: bytes, fraction: bytes, rest: bytes)
    requires Whole(s) == Done((), whole) && Fraction(whole) == Done((), fraction) && Exponent(fraction) == Done((), rest)
    ensures AllPlain(Taken(s, rest))
  {
    TailIsPlain(whole, fraction, rest);
    WholeIsPlain(s, whole);
    PlainStep(s, whole, rest);
  }

  lemma LeafIsPlain(token: bytes)
    requires LeafOk(token) && Front(token) != QUOTE
    ensures AllPlain(token)
  {
    var c := Front(token);
    if c == 116 {
      assert token == TRUE;
    } else if c == 102 {
      assert token == FALSE;
    } else if c == 110 {
      assert token == NULL;
    } else {
      var body := if c == MINUS then token[1..] else token;
      var whole := Whole(body).rest;
      UnsignedIsPlain(body, whole, Fraction(whole).rest, []);
      assert Taken(body, []) == body;
      if c == MINUS {
        PlainFirst(token, []);
        assert Taken(token, []) == token;
      }
    }
  }

  lemma QuotePlain(c: byte, s: bytes)
    requires c != QUOTE && c != BACKSLASH
    ensures QuoteLength([c] + s) == 1 + QuoteLength(s)
  {
    assert ([c] + s)[1..] == s;
  }

  lemma Hex4Length(s: bytes)
    requires Hex4(s).Done?
    ensures QuoteLength(s) == 4 + QuoteLength(s[4..])
  {
    QuotePlain(s[3], s[4..]);
    assert s[3..] == [s[3]] + s[4..];
    QuotePlain(s[2], s[3..]);
    assert s[2..] == [s[2]] + s[3..];
    QuotePlain(s[1], s[2..]);
    assert s[1..] == [s[1]] + s[2..];
    QuotePlain(s[0], s[1..]);
    assert s == [s[0]] + s[1..];
  }

  lemma LowHalfLength(high: int, s: bytes)
    requires 0xD800 <= high <= 0xDBFF && LowHalf(high, s).Done?
    ensures QuoteLength(s) == |s| - |LowHalf(high, s).rest| + QuoteLength(LowHalf(high, s).rest)
  {
    Hex4Length(s[2..]);
  }

  lemma UnicodeLength(r: bytes)
    requires Hex4(r).Done? && !(0xDC00 <= Hex4(r).value <= 0xDFFF)
    requires 0xD800 <= Hex4(r).value <= 0xDBFF ==> LowHalf(Hex4(r).value, Hex4(r).rest).Done?
    ensures var rest := if 0xD800 <= Hex4(r).value <= 0xDBFF then LowHalf(Hex4(r).value, Hex4(r).rest).rest else Hex4(r).rest;
            QuoteLength(r) == |r| - |rest| + QuoteLength(rest)
  {
    Hex4Length(r);
    if 0xD800 <= Hex4(r).value <= 0xDBFF {
      LowHalfLength(Hex4(r).value, Hex4(r).rest);
    }
  }

  lemma EscapeLength(s: bytes)
    requires s != [] && s[0] == BACKSLASH && Escape(s).Done?
    ensures QuoteLength(s) == |s| - |Escape(s).rest| + QuoteLength(Escape(s).rest)
  {
    if s[1] == 117 {
      UnicodeLength(s[2..]);
    }
  }

  /** The scan and the reader agree where a string that reads well ends. */
  lemma {:induction false} QuoteAgrees(s: bytes, out: bytes, v: bytes, rest: bytes)
    requires StrBody(s, out) == Done(v, rest)
    ensures QuoteLength(s) == |s| - |rest|
    decreases |s|
  {
    if s[0] == QUOTE {
    } else if s[0] == BACKSLASH {
      EscapeLength(s);
      QuoteAgrees(Escape(s).rest, out + Escape(s).value, v, rest);
    } else {
      QuoteAgrees(s[1..], out + [s[0]], v, rest);
    }
  }

  lemma StringLength(token: bytes, x: bytes)
    requires Str(token).Done? && Str(token).rest == []
    ensures token != [] && Front(token + x) == QUOTE && 1 + QuoteLength((token + x)[1..]) == |token|
  {
    NameReads(token, x);
    QuoteAgrees((token + x)[1..], [], Str(token).value, x);
  }

  // ----- The flat form -----

  lemma {:induction false} FlatPlain(token: bytes, x: bytes)
    requires AllPlain(token)
    ensures Flat(token + x) == token + Flat(x)
  {
    if token == [] {
      assert token + x == x;
    } else {
      FlatPlain(token[1..], x);
      assert (token + x)[1..] == token[1..] + x;
    }
  }

  lemma FlatString(token: bytes, x: bytes)
    requires Str(token).Done? && Str(token).rest == []
    ensures Flat(token + x) == token + Flat(x)
  {
    StringLength(token, x);
    assert (token + x)[..|token|] == token && (token + x)[|token|..] == x;
  }

  lemma FlatToken(token: bytes, x: bytes)
    requires LeafOk(token)
    ensures Flat(token + x) == token + Flat(x)
  {
    if Front(token) == QUOTE {
      FlatString(token, x);
    } else {
      LeafIsPlain(token);
      FlatPlain(token, x);
    }
  }

  lemma {:induction false} FlatWs(w: bytes, x: bytes)
    requires AllWs(w)
    ensures Flat(w + x) == Flat(x)
  {
    if w == [] {
      assert w + x == x;
    } else {
      FlatWs(w[1..], x);
      assert (w + x)[1..] == w[1..] + x;
    }
  }

  lemma FlatByte(c: byte, x: bytes)
    requires !IsWs(c) && c != QUOTE
    ensures Flat([c] + x) == [c] + Flat(x)
  {
    assert ([c] + x)[1..] == x;
  }

  lemma FlatName(name: bytes, gap: bytes, after: bytes, open: byte, seen: set<bytes>, y: bytes)
    requires NameOk(name, gap, after, open, seen)
    ensures Flat(SourceName(name, gap, after, open) + y) == SourceName(name, [], [], open) + Flat(y)
  {
    if open == OPEN_BRACE {
      NameText(name, gap, after, y);
      FlatString(name, gap + ([COLON] + (after + y)));
      FlatWs(gap, [COLON] + (after + y));
      FlatByte(COLON, after + y);
      FlatWs(after, y);
      NameText(name, [], [], Flat(y));
      assert [] + Flat(y) == Flat(y) && [] + ([COLON] + Flat(y)) == [COLON] + Flat(y);
    } else {
      assert SourceName(name, gap, after, open) + y == y && SourceName(name, [], [], open) + Flat(y) == Flat(y);
    }
  }

  /** rawFlat of an accepted text is the text of the same tree without whitespace. */
  lemma {:induction false} FlatTree(t: Tree, depth: nat, rest: bytes)
    requires Ok(t, depth)
    ensures Flat(Source(t) + rest) == Source(Compact(t)) + Flat(rest)
    decreases t
  {
    match t
    case Leaf(token) => FlatToken(token, rest);
    case Node(open, inner, items) =>
      var tail := [Shut(open)] + rest;
      FlatByte(open, inner + (SourceItems(items, open) + tail));
      FlatWs(inner, SourceItems(items, open) + tail);
      FlatByte(Shut(open), rest);
      if items.End? {
        assert SourceItems(items, open) + tail == tail;
      } else {
        FlatItems(items, open, depth + 1, {}, rest);
        Assoc3(SourceItems(items, open), [Shut(open)], rest);
        Assoc3(SourceItems(CompactItems(items), open), [Shut(open)], Flat(rest));
      }
      NodeFlat(open, inner, items, rest, tail);
  }

  lemma NodeFlat(open: byte, inner: bytes, items: Items, rest: bytes, tail: bytes)
    requires tail == [Shut(open)] + rest
    requires Flat([open] + (inner + (SourceItems(items, open) + tail))) == [open] + Flat(SourceItems(items, open) + tail)
    requires Flat(SourceItems(items, open) + tail) == SourceItems(CompactItems(items), open) + ([Shut(open)] + Flat(rest))
    ensures Flat(Source(Node(open, inner, items)) + rest) == Source(Node(open, [], CompactItems(items))) + Flat(rest)
  {
    Assoc5([open], inner, SourceItems(items, open), [Shut(open)], rest);
    Assoc5([open], [], SourceItems(CompactItems(items), open), [Shut(open)], Flat(rest));
    var u := SourceItems(CompactItems(items), open) + ([Shut(open)] + Flat(rest));
    assert [] + u == u;
  }

  lemma FlatFollowing(more: Items, open: byte, rest: bytes)
    requires IsOpen(open)
    requires more.Item? ==> Flat(SourceItems(more, open) + [Shut(open)] + rest)
                            == SourceItems(CompactItems(more), open) + [Shut(open)] + Flat(rest)
    ensures Flat(Following(more, open, rest)) == Following(CompactItems(more), open, Flat(rest))
  {
    var w := Following(more, open, rest);
    FollowingFront(more, open, rest);
    assert w == [w[0]] + w[1..];
    FlatByte(w[0], w[1..]);
    FollowingSplits([w[0]] + Flat(w[1..]), CompactItems(more), open, Flat(rest));
  }

  lemma FlatItem(items: Items, open: byte, seen: set<bytes>, rest: bytes, w: bytes)
    requires IsOpen(open) && items.Item? && AllWs(items.lead) && AllWs(items.trail)
    requires NameOk(items.name, items.gap, items.after, open, seen)
    requires w == Following(items.more, open, rest)
    requires Flat(w) == Following(CompactItems(items.more), open, Flat(rest))
    requires Flat(Source(items.value) + (items.trail + w)) == Source(Compact(items.value)) + Flat(items.trail + w)
    ensures Flat(SourceItems(items, open) + [Shut(open)] + rest)
            == SourceItems(CompactItems(items), open) + [Shut(open)] + Flat(rest)
  {
    var y := Source(items.value) + (items.trail + w);
    ItemText(items, open, rest);
    FlatWs(items.lead, SourceName(items.name, items.gap, items.after, open) + y);
    FlatName(items.name, items.gap, items.after, open, seen, y);
    FlatWs(items.trail, w);
    var c := CompactItems(items);
    ItemText(c, open, Flat(rest));
    Nothing(Flat(w));
    Nothing(SourceName(c.name, [], [], open) + (Source(c.value) + Flat(w)));
  }

  lemma Nothing(u: bytes)
    ensures [] + u == u
  {
  }

  lemma {:induction false} FlatItems(items: Items, open: byte, depth: nat, seen: set<bytes>, rest: bytes)
    requires IsOpen(open) && items.Item? && ItemsOk(items, open, depth, seen)
    ensures Flat(SourceItems(items, open) + [Shut(open)] + rest)
            == SourceItems(CompactItems(items), open) + [Shut(open)] + Flat(rest)
    decreases items
  {
    var w := Following(items.more, open, rest);
    FlatTree(items.value, depth, items.trail + w);
    if items.more.Item? {
      FlatItems(items.more, open, depth, With(seen, open, KeyOf(items.name)), rest);
    }
    FlatFollowing(items.more, open, rest);
    FlatItem(items, open, seen, rest, w);
  }

  // ----- The indented form -----

  lemma PlainByte(c: byte, x: bytes, k: int)
    requires IsPlain(c)
    ensures Indented([c] + x, k) == [c] + Indented(x, k)
  {
    assert Step([c] + x, k) == ([c], 1, k);
    IndentedStep([c] + x, k, [c], 1, k);
    assert ([c] + x)[1..] == x;
  }

  lemma {:induction false} IndentedPlain(token: bytes, x: bytes, k: int)
    requires AllPlain(token)
    ensures Indented(token + x, k) == token + Indented(x, k)
  {
    if token == [] {
      assert token + x == x;
    } else {
      IndentedPlain(token[1..], x, k);
      PlainByte(token[0], token[1..] + x, k);
      Assoc3([token[0]], token[1..], x);
      Assoc3([token[0]], token[1..], Indented(x, k));
      assert token == [token[0]] + token[1..];
    }
  }

  lemma IndentedString(token: bytes, x: bytes, k: int)
    requires Str(token).Done? && Str(token).rest == []
    ensures Indented(token + x, k) == token + Indented(x, k)
  {
    StringLength(token, x);
    assert (token + x)[..|token|] == token && (token + x)[|token|..] == x;
  }

  lemma IndentedToken(token: bytes, x: bytes, k: int)
    requires LeafOk(token)
    ensures Indented(token + x, k) == token + Indented(x, k)
  {
    if Front(token) == QUOTE {
      IndentedString(token, x, k);
    } else {
      LeafIsPlain(token);
      IndentedPlain(token, x, k);
    }
  }

  lemma {:induction false} IndentedWs(w: bytes, x: bytes, k: int)
    requires AllWs(w)
    ensures Indented(w + x, k) == Indented(x, k)
  {
    if w == [] {
      assert w + x == x;
    } else {
      IndentedWs(w[1..], x, k);
      assert (w + x)[1..] == w[1..] + x;
    }
  }

  lemma IndentedComma(x: bytes, k: int)
    ensures Indented([COMMA] + x, k) == [COMMA] + NewLine(k) + Indented(x, k)
  {
    IndentedStep([COMMA] + x, k, [COMMA] + NewLine(k), 1, k);
    assert ([COMMA] + x)[1..] == x;
  }

  lemma IndentedColon(x: bytes, k: int)
    ensures Indented([COLON] + x, k) == [COLON, SPACE] + Indented(x, k)
  {
    IndentedStep([COLON] + x, k, [COLON, SPACE], 1, k);
    assert ([COLON] + x)[1..] == x;
  }

  lemma IndentedShut(c: byte, x: bytes, k: int)
    requires IsShut(c)
    ensures Indented([c] + x, k) == NewLine(k - 1) + [c] + Indented(x, k - 1)
  {
    assert ([c] + x)[1..] == x;
  }

  lemma IndentedOpen(c: byte, x: bytes, k: int)
    requires IsOpen(c) && !IsShut(Front(Ws(x)))
    ensures Indented([c] + x, k) == [c] + NewLine(k + 1) + Indented(x, k + 1)
  {
    assert ([c] + x)[1..] == x;
  }

  lemma IndentedEmpty(c: byte, inner: bytes, x: bytes, k: int)
    requires IsOpen(c) && AllWs(inner)
    ensures Indented([c] + (inner + ([Shut(c)] + x)), k) == [c, Shut(c)] + Indented(x, k)
  {
    var s := [c] + (inner + ([Shut(c)] + x));
    assert s[1..] == inner + ([Shut(c)] + x);
    WsTaken(inner, [Shut(c)] + x);
    assert ([Shut(c)] + x)[1..] == x;
  }

  lemma IndentedGap(gap: bytes, after: bytes, y: bytes, k: int)
    requires AllWs(gap) && AllWs(after)
    ensures Indented(gap + ([COLON] + (after + y)), k) == [COLON] + ([SPACE] + Indented(y, k))
  {
    IndentedWs(gap, [COLON] + (after + y), k);
    IndentedColon(after + y, k);
    IndentedWs(after, y, k);
    Assoc3([COLON], [SPACE], Indented(y, k));
  }

  lemma IndentedName(name: bytes, gap: bytes, after: bytes, open: byte, seen: set<bytes>, y: bytes, k: int)
    requires NameOk(name, gap, after, open, seen)
    ensures Indented(SourceName(name, gap, after, open) + y, k)
            == SourceName(name, [], if open == OPEN_BRACE then [SPACE] else [], open) + Indented(y, k)
  {
    if open == OPEN_BRACE {
      NameText(name, gap, after, y);
      IndentedString(name, gap + ([COLON] + (after + y)), k);
      IndentedGap(gap, after, y, k);
      NameText(name, [], [SPACE], Indented(y, k));
      Nothing([COLON] + ([SPACE] + Indented(y, k)));
    } else {
      assert SourceName(name, gap, after, open) + y == y && SourceName(name, [], [], open) + Indented(y, k) == Indented(y, k);
    }
  }

  lemma IndentedFollowing(more: Items, open: byte, rest: bytes, k: nat)
    requires IsOpen(open)
    requires more.Item? ==> NewLine(k + 1) + Indented(SourceItems(more, open) + [Shut(open)] + rest, k + 1)
                            == SourceItems(PrettyItems(more, open, k), open) + [Shut(open)] + Indented(rest, k)
    ensures Indented(Following(more, open, rest), k + 1)
            == (if more.End? then NewLine(k) else []) + Following(PrettyItems(more, open, k), open, Indented(rest, k))
  {
    var w := Following(more, open, rest);
    FollowingFront(more, open, rest);
    assert w == [w[0]] + w[1..];
    var v := Following(PrettyItems(more, open, k), open, Indented(rest, k));
    if more.End? {
      IndentedShut(w[0], w[1..], k + 1);
      FollowingSplits([w[0]] + Indented(rest, k), End, open, Indented(rest, k));
      Assoc3(NewLine(k), [w[0]], Indented(rest, k));
    } else {
      IndentedComma(w[1..], k + 1);
      Assoc3([COMMA], NewLine(k + 1), Indented(w[1..], k + 1));
      FollowingSplits([COMMA] + (NewLine(k + 1) + Indented(w[1..], k + 1)), PrettyItems(more, open, k), open, Indented(rest, k));
      Nothing(v);
    }
  }

  lemma IndentedItem(items: Items, open: byte, seen: set<bytes>, rest: bytes, w: bytes, k: nat)
    requires IsOpen(open) && items.Item? && AllWs(items.lead) && AllWs(items.trail)
    requires NameOk(items.name, items.gap, items.after, open, seen)
    requires w == Following(items.more, open, rest)
    requires Indented(w, k + 1)
             == (if items.more.End? then NewLine(k) else []) + Following(PrettyItems(items.more, open, k), open, Indented(rest, k))
    requires Indented(Source(items.value) + (items.trail + w), k + 1)
             == Source(Pretty(items.value, k + 1)) + Indented(items.trail + w, k + 1)
    ensures NewLine(k + 1) + Indented(SourceItems(items, open) + [Shut(open)] + rest, k + 1)
            == SourceItems(PrettyItems(items, open, k), open) + [Shut(open)] + Indented(rest, k)
  {
    var y := Source(items.value) + (items.trail + w);
    ItemText(items, open, rest);
    IndentedWs(items.lead, SourceName(items.name, items.gap, items.after, open) + y, k + 1);
    IndentedName(items.name, items.gap, items.after, open, seen, y, k + 1);
    IndentedWs(items.trail, w, k + 1);
    ItemText(PrettyItems(items, open, k), open, Indented(rest, k));
  }

  /** raw of an accepted text is the text of the same tree set on indented lines. */
  lemma {:induction false} IndentedTree(t: Tree, depth: nat, rest: bytes, k: nat)
    requires Ok(t, depth)
    ensures Indented(Source(t) + rest, k) == Source(Pretty(t, k)) + Indented(rest, k)
    decreases t
  {
    match t
    case Leaf(token) => IndentedToken(token, rest, k);
    case Node(open, inner, items) =>
      if items.End? {
        EmptyText(open, inner, rest);
        IndentedEmpty(open, inner, rest, k);
        EmptyText(open, [], Indented(rest, k));
        Nothing([Shut(open)] + Indented(rest, k));
        assert [open] + ([Shut(open)] + Indented(rest, k)) == [open, Shut(open)] + Indented(rest, k);
      } else {
        IndentedItems(items, open, depth + 1, {}, rest, k);
        IndentedNode(open, items, rest, k);
      }
  }

  lemma IndentedNode(open: byte, items: Items, rest: bytes, k: nat)
    requires IsOpen(open) && !IsShut(Front(Ws(SourceItems(items, open) + [Shut(open)] + rest)))
    requires NewLine(k + 1) + Indented(SourceItems(items, open) + [Shut(open)] + rest, k + 1)
             == SourceItems(PrettyItems(items, open, k), open) + [Shut(open)] + Indented(rest, k)
    ensures Indented(Source(Node(open, [], items)) + rest, k)
            == Source(Node(open, [], PrettyItems(items, open, k))) + Indented(rest, k)
  {
    var body := SourceItems(items, open) + [Shut(open)] + rest;
    NodeText(open, items, rest);
    IndentedOpen(open, body, k);
    Assoc3([open], NewLine(k + 1), Indented(body, k + 1));
    NodeText(open, PrettyItems(items, open, k), Indented(rest, k));
  }

  lemma {:induction false} IndentedItems(items: Items, open: byte, depth: nat, seen: set<bytes>, rest: bytes, k: nat)
    requires IsOpen(open) && items.Item? && ItemsOk(items, open, depth, seen)
    ensures NewLine(k + 1) + Indented(SourceItems(items, open) + [Shut(open)] + rest, k + 1)
            == SourceItems(PrettyItems(items, open, k), open) + [Shut(open)] + Indented(rest, k)
    ensures !IsShut(Front(Ws(SourceItems(items, open) + [Shut(open)] + rest)))
    decreases items
  {
    var w := Following(items.more, open, rest);
    IndentedTree(items.value, depth, items.trail + w, k + 1);
    if items.more.Item? {
      IndentedItems(items.more, open, depth, With(seen, open, KeyOf(items.name)), rest, k);
    }
    IndentedFollowing(items.more, open, rest, k);
    IndentedItem(items, open, seen, rest, w, k);
    BodyFront(items, open, depth, seen, rest);
  }

  lemma BodyFront(items: Items, open: byte, depth: nat, seen: set<bytes>, rest: bytes)
    requires IsOpen(open) && items.Item? && ItemsOk(items, open, depth, seen)
    ensures !IsShut(Front(Ws(SourceItems(items, open) + [Shut(open)] + rest)))
  {
    var z := items.trail + Following(items.more, open, rest);
    ItemText(items, open, rest);
    SourceFront(items.value, depth, z);
    NameFront(items.name, items.gap, items.after, open, seen, Source(items.value) + z);
    WsTaken(items.lead, SourceName(items.name, items.gap, items.after, open) + (Source(items.value) + z));
  }

  // ----- What the printers keep -----

  /** The text is one whole value the reader accepts inside `depth` containers. */
  predicate Accepted(s: bytes, depth: nat) {
    Value(s, depth).Done? && Value(s, depth).rest == []
  }

  function TreeOf(s: bytes, depth: nat): Tree
    requires Accepted(s, depth)
  {
    Value(s, depth).value
  }

  lemma AcceptedText(s: bytes, depth: nat, k: nat)
    requires Accepted(s, depth)
    ensures var t := TreeOf(s, depth);
            Ok(t, depth) && s == Source(t) && Flat(s) == Source(Compact(t)) && Indented(s, k) == Source(Pretty(t, k))
  {
    var t := TreeOf(s, depth);
    ValueSplits(s, depth, t, []);
    FlatTree(t, depth, []);
    IndentedTree(t, depth, [], k);
    assert Source(t) + [] == Source(t) && Source(Compact(t)) + [] == Source(Compact(t)) && Source(Pretty(t, k)) + [] == Source(Pretty(t, k));
  }

  lemma TextIsAccepted(t: Tree, depth: nat)
    requires Ok(t, depth)
    ensures Accepted(Source(t), depth) && TreeOf(Source(t), depth) == t
  {
    ValueReads(t, depth, []);
    assert Source(t) + [] == Source(t);
  }

  /** Both printers' outputs are accepted again, as the same tree but for whitespace: no string and no number token
      changes. */
  lemma ReflowIsAccepted(s: bytes, depth: nat, k: nat)
    requires Accepted(s, depth)
    ensures Accepted(Flat(s), depth) && SameTokens(TreeOf(s, depth), TreeOf(Flat(s), depth))
    ensures Accepted(Indented(s, k), depth) && SameTokens(TreeOf(s, depth), TreeOf(Indented(s, k), depth))
  {
    var t := TreeOf(s, depth);
    AcceptedText(s, depth, k);
    CompactOk(t, depth);
    PrettyOk(t, depth, k);
    TextIsAccepted(Compact(t), depth);
    TextIsAccepted(Pretty(t, k), depth);
  }

  /** Texts of the same tokens are re-emitted alike. */
  lemma SameReflow(a: bytes, b: bytes, depth: nat, k: nat)
    requires Accepted(a, depth) && Accepted(b, depth) && SameTokens(TreeOf(a, depth), TreeOf(b, depth))
    ensures Flat(a) == Flat(b) && Indented(a, k) == Indented(b, k)
  {
    AcceptedText(a, depth, k);
    AcceptedText(b, depth, k);
    SameCompact(TreeOf(a, depth), TreeOf(b, depth));
    SamePretty(TreeOf(a, depth), TreeOf(b, depth), k);
  }

  /** The flat form undoes indentation, indentation undoes flattening, and each is idempotent, from any indent to any
      other. */
  lemma ReflowLaws(s: bytes, depth: nat, k: nat, j: nat)
    requires Accepted(s, depth)
    ensures Flat(Indented(s, k)) == Flat(s) && Flat(Flat(s)) == Flat(s)
    ensures Indented(Flat(s), k) == Indented(s, k) && Indented(Indented(s, j), k) == Indented(s, k)
  {
    ReflowIsAccepted(s, depth, k);
    ReflowIsAccepted(s, depth, j);
    SameReflow(s, Flat(s), depth, k);
    SameReflow(s, Indented(s, j), depth, k);
    SameReflow(s, Indented(s, k), depth, k);
  }

  // ----- One line -----

  predicate Printable(s: bytes) {
    forall i | 0 <= i < |s| :: s[i] >= 0x20
  }

  lemma Hex4Printable(s: bytes)
    requires Hex4(s).Done?
    ensures Printable(s[..4])
  {
  }

  lemma EscapePrintable(s: bytes)
    requires s != [] && s[0] == BACKSLASH && Escape(s).Done?
    ensures Printable(Taken(s, Escape(s).rest))
  {
    var rest := Escape(s).rest;
    if s[1] == 117 {
      var r := s[2..];
      Hex4Printable(r);
      var u := Hex4(r);
      if 0xD800 <= u.value <= 0xDBFF {
        Hex4Printable(u.rest[2..]);
        assert Taken(s, rest) == s[..2] + r[..4] + u.rest[..2] + u.rest[2..][..4];
      } else {
        assert Taken(s, rest) == s[..2] + r[..4];
      }
    }
  }

  lemma PrintableStep(s: bytes, mid: bytes, rest: bytes)
    requires |rest| <= |mid| <= |s| && mid == s[|s| - |mid|..] && Printable(Taken(s, mid)) && Printable(Taken(mid, rest))
    ensures Printable(Taken(s, rest))
  {
    forall i | 0 <= i < |s| - |rest| ensures s[i] >= 0x20 {
      if i < |s| - |mid| {
        assert Taken(s, mid)[i] == s[i];
      } else {
        assert Taken(mid, rest)[i - (|s| - |mid|)] == s[i];
      }
    }
  }

  lemma PrintableFirst(s: bytes, rest: bytes)
    requires s != [] && |rest| < |s| && s[0] >= 0x20 && Printable(Taken(s[1..], rest))
    ensures Printable(Taken(s, rest))
  {
    forall i | 0 < i < |s| - |rest| ensures s[i] >= 0x20 {
      assert Taken(s[1..], rest)[i - 1] == s[i];
    }
  }

  lemma EscapedPrintable(s: bytes, rest: bytes)
    requires s != [] && s[0] == BACKSLASH && Escape(s).Done? && |rest| <= |Escape(s).rest|
    requires Printable(Taken(Escape(s).rest, rest))
    ensures Printable(Taken(s, rest))
  {
    EscapePrintable(s);
    PrintableStep(s, Escape(s).rest, rest);
  }

  lemma {:induction false} StringPrintable(s: bytes, out: bytes, v: bytes, rest: bytes)
    requires StrBody(s, out) == Done(v, rest)
    ensures Printable(Taken(s, rest))
    decreases |s|
  {
    if s[0] == QUOTE {
      assert Taken(s, rest) == [QUOTE];
    } else if s[0] == BACKSLASH {
      StringPrintable(Escape(s).rest, out + Escape(s).value, v, rest);
      EscapedPrintable(s, rest);
    } else {
      StringPrintable(s[1..], out + [s[0]], v, rest);
      PrintableFirst(s, rest);
    }
  }

  lemma TokenPrintable(token: bytes)
    requires LeafOk(token) || (Str(token).Done? && Str(token).rest == [])
    ensures Printable(token)
  {
    if Front(token) == QUOTE {
      StringPrintable(token[1..], [], Str(token).value, []);
      assert token == [token[0]] + Taken(token[1..], []);
    } else {
      LeafIsPlain(token);
    }
  }

  lemma {:induction false} CompactPrintable(t: Tree, depth: nat)
    requires Ok(t, depth)
    ensures Printable(Source(Compact(t)))
    decreases t
  {
    match t
    case Leaf(token) => TokenPrintable(token);
    case Node(open, _, items) => CompactItemsPrintable(items, open, depth + 1, {});
  }

  lemma NamePrintable(name: bytes, gap: bytes, after: bytes, open: byte, seen: set<bytes>)
    requires NameOk(name, gap, after, open, seen)
    ensures Printable(SourceName(name, [], [], open))
  {
    if open == OPEN_BRACE {
      TokenPrintable(name);
    }
  }

  lemma PrintableItem(name: bytes, value: Tree, more: Items, open: byte)
    requires Printable(SourceName(name, [], [], open)) && Printable(Source(value)) && Printable(SourceItems(more, open))
    ensures Printable(SourceItems(Item([], name, [], [], value, [], more), open))
  {
    var m := SourceMore(more, open);
    assert Printable(m);
    Nothing(SourceName(name, [], [], open));
    assert SourceItems(Item([], name, [], [], value, [], more), open) == SourceName(name, [], [], open) + Source(value) + [] + m;
  }

  lemma {:induction false} CompactItemsPrintable(items: Items, open: byte, depth: nat, seen: set<bytes>)
    requires ItemsOk(items, open, depth, seen)
    ensures Printable(SourceItems(CompactItems(items), open))
    decreases items
  {
    if items.Item? {
      CompactPrintable(items.value, depth);
      CompactItemsPrintable(items.more, open, depth, With(seen, open, KeyOf(items.name)));
      NamePrintable(items.name, items.gap, items.after, open, seen);
      PrintableItem(items.name, Compact(items.value), CompactItems(items.more), open);
    }
  }

  /** The flat form is one line: it holds no control byte. */
  lemma FlatIsOneLine(s: bytes, depth: nat)
    requires Accepted(s, depth)
    ensures Printable(Flat(s))
  {
    AcceptedText(s, depth, 0);
    CompactPrintable(TreeOf(s, depth), depth);
  }

  // ----- The source's own loops -----

  lemma FlatUnfolds(s: bytes, written: bytes, n: nat)
    requires s != [] && FlatStep(s) == (written, n)
    ensures Flat(s) == written + Flat(s[n..])
  {
  }

  /** rawFlat's loop over the bytes; raw differs in what it writes between tokens. */
  method RawFlat(s: bytes) returns (out: bytes)
    ensures out == Flat(s)
  {
    out := [];
    var i := 0;
    assert s[0..] == s && [] + Flat(s) == Flat(s);
    while i < |s|
      invariant 0 <= i <= |s| && Flat(s) == out + Flat(s[i..])
    {
      var written, n := RawFlatStep(s, i);
      FlatUnfolds(s[i..], written, n);
      Suffix(s, i, n);
      Assoc3(out, written, Flat(s[i + n..]));
      out, i := out + written, i + n;
    }
    assert out + Flat(s[i..]) == out;
  }

  /** The source's switch on the byte at i. */
  method RawFlatStep(s: bytes, i: nat) returns (written: bytes, n: nat)
    requires i < |s|
    ensures (written, n) == FlatStep(s[i..])
  {
    Suffix(s, i, 1);
    if IsWs(s[i]) {
      return [], 1;
    }
    if s[i] != QUOTE {
      return [s[i]], 1;
    }
    var j := StringEnd(s, i + 1);
    Suffix(s, i, j - i);
    written, n := s[i..j], j - i;
  }

  /** The inner loop of both printers: past the closing quote. */
  method StringEnd(s: bytes, i: nat) returns (j: nat)
    requires i <= |s|
    ensures j == i + QuoteLength(s[i..]) && j <= |s|
  {
    j := i;
    while j < |s|
      invariant i <= j <= |s| && QuoteLength(s[i..]) == j - i + QuoteLength(s[j..])
    {
      assert s[j..][1..] == s[j + 1..];
      if s[j] == BACKSLASH {
        if j + 2 > |s| {
          return |s|;
        }
        assert s[j..][2..] == s[j + 2..];
        j := j + 2;
      } else if s[j] == QUOTE {
        return j + 1;
      } else {
        j := j + 1;
      }
    }
  }

  lemma IndentedStep(s: bytes, depth: int, written: bytes, n: nat, d: int)
    requires s != [] && Step(s, depth) == (written, n, d)
    ensures Indented(s, depth) == written + Indented(s[n..], d)
  {
  }

  lemma Suffix(s: bytes, i: nat, n: nat)
    requires i + n <= |s|
    ensures s[i..][n..] == s[i + n..] && s[i..][..n] == s[i..i + n]
  {
  }

  /** raw */
  method Raw(s: bytes, depth: int) returns (out: bytes)
    ensures out == Indented(s, depth)
  {
    out := [];
    var i, d := 0, depth;
    assert s[0..] == s && [] + Indented(s, depth) == Indented(s, depth);
    while i < |s|
      invariant 0 <= i <= |s| && Indented(s, depth) == out + Indented(s[i..], d)
    {
      var written, n, after := RawStep(s, i, d);
      IndentedStep(s[i..], d, written, n, after);
      Suffix(s, i, n);
      Assoc3(out, written, Indented(s[i + n..], after));
      out, i, d := out + written, i + n, after;
    }
    assert out + Indented(s[i..], d) == out;
  }

  /** The source's switch on the byte at i. */
  method RawStep(s: bytes, i: nat, depth: int) returns (written: bytes, n: nat, after: int)
    requires i < |s|
    ensures (written, n, after) == Step(s[i..], depth)
  {
    var c := s[i];
    Suffix(s, i, 1);
    written, n, after := [], 1, depth;
    if IsWs(c) {
    } else if c == QUOTE {
      var j := StringEnd(s, i + 1);
      n := j - i;
      Suffix(s, i, n);
      written := s[i..j];
    } else if IsOpen(c) {
      var j := i + 1 + WsLength(s[i + 1..]);
      if j < |s| && IsShut(s[j]) {
        written := [c, s[j]];
        n := j + 1 - i;
      } else {
        after := depth + 1;
        written := [c] + NewLine(after);
      }
    } else if IsShut(c) {
      after := depth - 1;
      written := NewLine(after) + [c];
    } else if c == COMMA {
      written := [COMMA] + NewLine(depth);
    } else if c == COLON {
      written := [COLON, SPACE];
    } else {
      written := [c];
    }
  }
}
