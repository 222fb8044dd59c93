/**
 Opaque JSON values (go/rec/rec.go: skipValue and what it calls). The reader walks a value without interpreting it;
 here the walk answers the value's syntax tree, whitespace included, so that nothing of the text is lost.
 */
module OpaqueJson {
  import opened Bytes
  import opened Text

  const DEPTH_LIMIT: nat := 64

  // ----- Numbers and literals -----

  function DropDigits(s: bytes): (rest: bytes)
    ensures |rest| <= |s| && !IsDigit(Front(rest))
    ensures IsDigit(Front(s)) ==> |rest| < |s|
  {
    if IsDigit(Front(s)) then DropDigits(s[1..]) else s
  }

  /** someDigits */
  function SomeDigits(s: bytes): (p: Parse<()>)
    ensures p.Done? ==> |p.rest| < |s|
    ensures p.Refused? ==> p.left <= |s|
  {
    if IsDigit(Front(s)) then Done((), DropDigits(s)) else Refused("number_spelling", |s|)
  }

  function Whole(s: bytes): (p: Parse<()>)
    ensures p.Done? ==> |p.rest| < |s|
    ensures p.Refused? ==> p.left <= |s|
  {
    if Front(s) == ZERO then Done((), s[1..])
    else if IsDigit(Front(s)) then Done((), DropDigits(s))
    else Refused("number_spelling", |s|)
  }

  function Fraction(s: bytes): (p: Parse<()>)
    ensures p.Done? ==> |p.rest| <= |s|
    ensures p.Refused? ==> p.left <= |s|
  {
    if Front(s) == DOT then SomeDigits(s[1..]) else Done((), s)
  }

  function Exponent(s: bytes): (p: Parse<()>)
    ensures p.Done? ==> |p.rest| <= |s|
    ensures p.Refused? ==> p.left <= |s|
  {
    if Front(s) == 101 || Front(s) == 69 then
      var t := s[1..];
      SomeDigits(if Front(t) == PLUS || Front(t) == MINUS then t[1..] else t)
    else Done((), s)
  }

  /** skipNumber */
  function Number(s: bytes): (p: Parse<()>)
    ensures p.Done? ==> |p.rest| < |s|
    ensures p.Refused? ==> p.left <= |s|
  {
    var whole := Whole(if Front(s) == MINUS then s[1..] else s);
    if whole.Refused? then whole
    else
      var fraction := Fraction(whole.rest);
      if fraction.Refused? then fraction else Exponent(fraction.rest)
  }

  const TRUE: bytes := [116, 114, 117, 101]
  const FALSE: bytes := [102, 97, 108, 115, 101]
  const NULL: bytes := [110, 117, 108, 108]

  function Literal(s: bytes, word: bytes): (p: Parse<()>)
    ensures p.Done? ==> |p.rest| == |s| - |word|
    ensures p.Refused? ==> p.left <= |s|
  {
    if |word| > |s| || s[..|word|] != word then Refused("malformed", |s|) else Done((), s[|word|..])
  }

  /** The part of skipValue that walks no container. */
  function LeafEnd(s: bytes): (p: Parse<()>)
    ensures p.Done? ==> |p.rest| < |s|
    ensures p.Refused? ==> p.left <= |s|
  {
    var c := Front(s);
    if c == QUOTE then
      var k := Str(s);
      if k.Refused? then Refused(k.word, k.left) else Done((), k.rest)
    else if c == 116 then Literal(s, TRUE)
    else if c == 102 then Literal(s, FALSE)
    else if c == 110 then Literal(s, NULL)
    else if c == MINUS || IsDigit(c) then Number(s)
    else Refused("malformed", |s|)
  }

  // ----- Trees -----

  /** A value as it is written: `inner` is the whitespace of an empty container. */
  datatype Tree = Leaf(token: bytes) | Node(open: byte, inner: bytes, items: Items)

  /** The members or elements of a container, with the whitespace around each; an element has no name. */
  datatype Items =
    | End
    | Item(lead: bytes, name: bytes, gap: bytes, after: bytes, value: Tree, trail: bytes, more: Items)

  predicate IsOpen(c: byte) {
    c == OPEN_BRACE || c == OPEN_BRACKET
  }

  function Shut(open: byte): byte {
    if open == OPEN_BRACKET then SHUT_BRACKET else SHUT_BRACE
  }

  /** The text of a tree. */
  function Source(t: Tree): bytes
    decreases t, 0
  {
    match t
    case Leaf(token) => token
    case Node(open, inner, items) => [open] + inner + SourceItems(items, open) + [Shut(open)]
  }

  function SourceItems(items: Items, open: byte): bytes
    decreases items, 0
  {
    match items
    case End => []
    case Item(lead, name, gap, after, value, trail, more) =>
      lead + SourceName(name, gap, after, open) + Source(value) + trail + SourceMore(more, open)
  }

  function SourceName(name: bytes, gap: bytes, after: bytes, open: byte): bytes {
    if open == OPEN_BRACE then name + gap + [COLON] + after else []
  }

  function SourceMore(more: Items, open: byte): bytes
    decreases more, 1
  {
    if more.End? then [] else [COMMA] + SourceItems(more, open)
  }

  // ----- The walk -----

  datatype Name = Name(token: bytes, gap: bytes, after: bytes, key: bytes)

  const NO_NAME: Name := Name([], [], [], [])

  /** A member's name and colon; nothing in an array. */
  function Head(s: bytes, open: byte, seen: set<bytes>): (p: Parse<Name>)
    ensures p.Done? ==> |p.rest| <= |s|
    ensures p.Refused? ==> p.left <= |s|
  {
    if open != OPEN_BRACE then Done(NO_NAME, s)
    else if Front(s) != QUOTE then Refused("malformed", |s|)
    else
      var k := Str(s);
      if k.Refused? then Refused(k.word, k.left)
      else if k.value in seen then Refused("duplicate_key", |k.rest|)
      else
        var r := Ws(k.rest);
        if Front(r) != COLON then Refused("malformed", |r|)
        else
          var after := Ws(r[1..]);
          Done(Name(Taken(s, k.rest), Taken(k.rest, r), Taken(r[1..], after), k.value), after)
  }

  function With(seen: set<bytes>, open: byte, key: bytes): set<bytes> {
    if open == OPEN_BRACE then seen + {key} else seen
  }

  /** skipValue, inside `depth` containers. */
  function Value(s: bytes, depth: nat): (p: Parse<Tree>)
    ensures p.Done? ==> |p.rest| < |s|
    ensures p.Refused? ==> p.left <= |s|
    decreases |s|, 0
  {
    if !IsOpen(Front(s)) then
      var p := LeafEnd(s);
      if p.Refused? then Refused(p.word, p.left) else Done(Leaf(Taken(s, p.rest)), p.rest)
    else if depth + 1 > DEPTH_LIMIT then Refused("depth_exceeded", |s|)
    else
      var open, r := s[0], Ws(s[1..]);
      if Front(r) == Shut(open) then Done(Node(open, Taken(s[1..], r), End), r[1..])
      else
        var items := Elements(s[1..], open, depth + 1, {});
        if items.Refused? then Refused(items.word, items.left) else Done(Node(open, [], items.value), items.rest)
  }

  /** The loop of skipContainer: items up to and including the closing bracket. */
  function Elements(s: bytes, open: byte, depth: nat, seen: set<bytes>): (p: Parse<Items>)
    ensures p.Done? ==> |p.rest| < |s|
    ensures p.Refused? ==> p.left <= |s|
    decreases |s|, 1
  {
    var s0 := Ws(s);
    var head := Head(s0, open, seen);
    if head.Refused? then Refused(head.word, head.left)
    else
      var value := Value(head.rest, depth);
      if value.Refused? then Refused(value.word, value.left)
      else
        var r := Ws(value.rest);
        var n := head.value;
        var lead, trail := Taken(s, s0), Taken(value.rest, r);
        if Front(r) == COMMA then
          var more := Elements(r[1..], open, depth, With(seen, open, n.key));
          if more.Refused? then Refused(more.word, more.left)
          else Done(Item(lead, n.token, n.gap, n.after, value.value, trail, more.value), more.rest)
        else if Front(r) == Shut(open) then
          Done(Item(lead, n.token, n.gap, n.after, value.value, trail, End), r[1..])
        else Refused("malformed", |r|)
  }

  // ----- Well-formed trees: the grammar, the depth and the distinct names -----

  predicate LeafOk(token: bytes) {
    LeafEnd(token) == Done((), [])
  }

  predicate NameOk(name: bytes, gap: bytes, after: bytes, open: byte, seen: set<bytes>) {
    if open == OPEN_BRACE then
      AllWs(gap) && AllWs(after) && Str(name).Done? && Str(name).rest == [] && Str(name).value !in seen
    else name == [] && gap == [] && after == []
  }

  function KeyOf(name: bytes): bytes {
    if Str(name).Done? then Str(name).value else []
  }

  predicate Ok(t: Tree, depth: nat) {
    match t
    case Leaf(token) => LeafOk(token)
    case Node(open, inner, items) =>
      && IsOpen(open) && depth + 1 <= DEPTH_LIMIT && AllWs(inner) && (items.Item? ==> inner == [])
      && ItemsOk(items, open, depth + 1, {})
  }

  predicate ItemsOk(items: Items, open: byte, depth: nat, seen: set<bytes>) {
    match items
    case End => true
    case Item(lead, name, gap, after, value, trail, more) =>
      && AllWs(lead) && AllWs(trail) && NameOk(name, gap, after, open, seen) && Ok(value, depth)
      && ItemsOk(more, open, depth, With(seen, open, KeyOf(name)))
  }

  // ----- What a leaf reads does not depend on what follows -----

  lemma {:induction false} DropLocal(s: bytes, t: bytes)
    requires !IsDigit(Front(t))
    ensures DropDigits(Taken(s, DropDigits(s)) + t) == t && s == Taken(s, DropDigits(s)) + DropDigits(s)
  {
    var c := Taken(s, DropDigits(s));
    if IsDigit(Front(s)) {
      DropLocal(s[1..], t);
      assert c == [s[0]] + Taken(s[1..], DropDigits(s[1..]));
      assert (c + t)[1..] == Taken(s[1..], DropDigits(s[1..])) + t;
    } else {
      assert c + t == t;
    }
  }

  lemma SomeDigitsLocal(s: bytes, rest: bytes, t: bytes)
    requires SomeDigits(s) == Done((), rest) && !IsDigit(Front(t))
    ensures SomeDigits(Taken(s, rest) + t) == Done((), t) && s == Taken(s, rest) + rest
  {
    DropLocal(s, t);
    assert Front(Taken(s, rest) + t) == s[0];
  }

  lemma WholeLocal(s: bytes, rest: bytes, t: bytes)
    requires Whole(s) == Done((), rest) && !IsDigit(Front(t))
    ensures Whole(Taken(s, rest) + t) == Done((), t) && s == Taken(s, rest) + rest
  {
    var u := Taken(s, rest) + t;
    assert Front(u) == Front(s);
    if Front(s) == ZERO {
      assert u[1..] == t;
    } else {
      DropLocal(s, t);
    }
  }

  lemma FractionLocal(s: bytes, rest: bytes, t: bytes)
    requires Fraction(s) == Done((), rest) && !IsDigit(Front(t)) && Front(t) != DOT
    ensures Fraction(Taken(s, rest) + t) == Done((), t) && s == Taken(s, rest) + rest
  {
    var u := Taken(s, rest) + t;
    if Front(s) == DOT {
      SomeDigitsLocal(s[1..], rest, t);
      assert u[1..] == Taken(s[1..], rest) + t;
    } else {
      assert u == t;
    }
  }

  lemma TakenShift(s: bytes, rest: bytes, t: bytes)
    requires |rest| < |s|
    ensures (Taken(s, rest) + t)[0] == s[0] && (Taken(s, rest) + t)[1..] == Taken(s[1..], rest) + t
    ensures s[1..] == Taken(s[1..], rest) + rest ==> s == Taken(s, rest) + rest
  {
    assert s == [s[0]] + s[1..];
    assert Taken(s, rest) == [s[0]] + Taken(s[1..], rest);
  }

  lemma SignedDigitsLocal(v: bytes, rest: bytes, t: bytes)
    requires SomeDigits(if Front(v) == PLUS || Front(v) == MINUS then v[1..] else v) == Done((), rest) && !IsDigit(Front(t))
    ensures var u := Taken(v, rest) + t;
            SomeDigits(if Front(u) == PLUS || Front(u) == MINUS then u[1..] else u) == Done((), t) && v == Taken(v, rest) + rest
    ensures |rest| < |v|
  {
    if Front(v) == PLUS || Front(v) == MINUS {
      SomeDigitsLocal(v[1..], rest, t);
      TakenShift(v, rest, t);
    } else {
      SomeDigitsLocal(v, rest, t);
      TakenShift(v, rest, t);
    }
  }

  lemma ExponentLocal(s: bytes, rest: bytes, t: bytes)
    requires Exponent(s) == Done((), rest) && Ends(t)
    ensures Exponent(Taken(s, rest) + t) == Done((), t) && s == Taken(s, rest) + rest
  {
    if Front(s) == 101 || Front(s) == 69 {
      SignedDigitsLocal(s[1..], rest, t);
      TakenShift(s, rest, t);
    } else {
      assert Taken(s, rest) + t == t;
    }
  }

  /** After the digits of a part, the part that follows begins as it does in the source. */
  lemma FrontOfTaken(s: bytes, rest: bytes, t: bytes)
    requires |rest| <= |s|
    ensures Front(Taken(s, rest) + t) == if |rest| < |s| then Front(s) else Front(t)
  {
    if |rest| == |s| {
      assert Taken(s, rest) + t == t;
    }
  }

  lemma TakenTwice(s: bytes, mid: bytes, rest: bytes, t: bytes)
    requires |rest| <= |mid| <= |s| && s == Taken(s, mid) + mid && mid == Taken(mid, rest) + rest
    ensures Taken(s, rest) + t == Taken(s, mid) + (Taken(mid, rest) + t) && s == Taken(s, rest) + rest
  {
  }

  lemma UnsignedLocal(s: bytes, whole: bytes, fraction: bytes, rest: bytes, t: bytes)
    requires Whole(s) == Done((), whole) && Fraction(whole) == Done((), fraction) && Exponent(fraction) == Done((), rest)
    requires Ends(t)
    ensures s == Taken(s, rest) + rest
    ensures var u := Taken(s, rest) + t;
            && Whole(u).Done? && Fraction(Whole(u).rest).Done?
            && Exponent(Fraction(Whole(u).rest).rest) == Done((), t)
  {
    ExponentLocal(fraction, rest, t);
    var e := Taken(fraction, rest) + t;
    FrontOfTaken(fraction, rest, t);
    FractionLocal(whole, fraction, e);
    var f := Taken(whole, fraction) + e;
    FrontOfTaken(whole, fraction, e);
    WholeLocal(s, whole, f);
    TakenTwice(whole, fraction, rest, t);
    TakenTwice(s, whole, rest, t);
  }

  lemma NumberLocal(s: bytes, rest: bytes, t: bytes)
    requires Number(s) == Done((), rest) && Ends(t)
    ensures Number(Taken(s, rest) + t) == Done((), t) && s == Taken(s, rest) + rest
  {
    var body := if Front(s) == MINUS then s[1..] else s;
    var whole := Whole(body).rest;
    UnsignedLocal(body, whole, Fraction(whole).rest, rest, t);
    TakenShift(s, rest, t);
  }

  lemma LiteralLocal(s: bytes, word: bytes, t: bytes)
    requires Literal(s, word).Done? && word != []
    ensures Literal(Taken(s, Literal(s, word).rest) + t, word) == Done((), t)
    ensures s == Taken(s, Literal(s, word).rest) + Literal(s, word).rest
  {
    assert Taken(s, Literal(s, word).rest) == word;
  }

  /** A leaf reads the same whatever follows it, as long as a number could not go on. */
  lemma LeafLocal(s: bytes, rest: bytes, t: bytes)
    requires LeafEnd(s) == Done((), rest) && Ends(t)
    ensures LeafEnd(Taken(s, rest) + t) == Done((), t) && s == Taken(s, rest) + rest
  {
    var c := Front(s);
    FrontOfTaken(s, rest, t);
    if c == QUOTE {
      StrLocal(s, Str(s).value, rest, t);
    } else if c == 116 {
      LiteralLocal(s, TRUE, t);
    } else if c == 102 {
      LiteralLocal(s, FALSE, t);
    } else if c == 110 {
      LiteralLocal(s, NULL, t);
    } else {
      NumberLocal(s, rest, t);
    }
  }

  lemma TokenOk(s: bytes, rest: bytes)
    requires LeafEnd(s) == Done((), rest)
    ensures LeafOk(Taken(s, rest)) && s == Taken(s, rest) + rest
  {
    LeafLocal(s, rest, []);
    assert Taken(s, rest) + [] == Taken(s, rest);
  }

  lemma TokenReads(token: bytes, t: bytes)
    requires LeafOk(token) && Ends(t)
    ensures LeafEnd(token + t) == Done((), t) && token != [] && Front(token + t) == token[0]
    ensures !IsOpen(token[0]) && !IsWs(token[0]) && token[0] != SHUT_BRACE && token[0] != SHUT_BRACKET
  {
    LeafLocal(token, [], t);
    assert Taken(token, []) == token;
  }

  lemma NameReads(name: bytes, t: bytes)
    requires Str(name).Done? && Str(name).rest == []
    ensures Str(name + t) == Done(Str(name).value, t) && name != [] && Front(name + t) == QUOTE
  {
    StrLocal(name, Str(name).value, [], t);
    assert Taken(name, []) == name;
  }

  // ----- The walk reads exactly the well-formed trees -----

  /** Whitespace in front is skipped, and is what was taken. */
  lemma WsTaken(w: bytes, x: bytes)
    requires AllWs(w) && !IsWs(Front(x))
    ensures Ws(w + x) == x && Taken(w + x, x) == w
  {
    WsSkips(w, x);
    WsStays(x);
  }

  lemma SourceFront(t: Tree, depth: nat, x: bytes)
    requires Ok(t, depth)
    ensures Front(Source(t) + x) != 0 && !IsWs(Front(Source(t) + x))
    ensures Front(Source(t) + x) != SHUT_BRACE && Front(Source(t) + x) != SHUT_BRACKET
  {
    if t.Leaf? {
      TokenReads(t.token, []);
      assert t.token + [] == t.token;
      assert Front(Source(t) + x) == t.token[0];
    }
  }

  lemma HeadStep(x: bytes, open: byte, seen: set<bytes>, key: bytes, u: bytes, r: bytes, y: bytes)
    requires open == OPEN_BRACE && Front(x) == QUOTE && Str(x) == Done(key, u) && key !in seen
    requires Ws(u) == r && Front(r) == COLON && Ws(r[1..]) == y
    ensures Head(x, open, seen) == Done(Name(Taken(x, u), Taken(u, r), Taken(r[1..], y), key), y)
  {
  }

  lemma NameText(name: bytes, gap: bytes, after: bytes, y: bytes)
    ensures SourceName(name, gap, after, OPEN_BRACE) + y == name + (gap + ([COLON] + (after + y)))
    ensures Taken(name + (gap + ([COLON] + (after + y))), gap + ([COLON] + (after + y))) == name
    ensures ([COLON] + (after + y))[1..] == after + y
  {
  }

  /** An item's name and colon are read off, up to its value. */
  lemma HeadReads(name: bytes, gap: bytes, after: bytes, open: byte, seen: set<bytes>, y: bytes)
    requires IsOpen(open) && NameOk(name, gap, after, open, seen) && !IsWs(Front(y))
    ensures Head(SourceName(name, gap, after, open) + y, open, seen)
            == Done(Name(name, gap, after, if open == OPEN_BRACE then KeyOf(name) else []), y)
  {
    var x := SourceName(name, gap, after, open) + y;
    if open == OPEN_BRACE {
      var r := [COLON] + (after + y);
      NameText(name, gap, after, y);
      NameReads(name, gap + r);
      WsTaken(gap, r);
      WsTaken(after, y);
      HeadStep(x, open, seen, KeyOf(name), gap + r, r, y);
    } else {
      assert x == y;
    }
  }

  lemma NameFront(name: bytes, gap: bytes, after: bytes, open: byte, seen: set<bytes>, y: bytes)
    requires NameOk(name, gap, after, open, seen) && !IsWs(Front(y)) && Front(y) != SHUT_BRACE && Front(y) != SHUT_BRACKET
    ensures var x := SourceName(name, gap, after, open) + y;
            !IsWs(Front(x)) && Front(x) != SHUT_BRACE && Front(x) != SHUT_BRACKET
  {
    if open == OPEN_BRACE {
      NameReads(name, []);
      assert name + [] == name;
    } else {
      assert SourceName(name, gap, after, open) + y == y;
    }
  }

  /** What follows an item: a comma and more, or the closing bracket. */
  function Following(more: Items, open: byte, rest: bytes): bytes {
    SourceMore(more, open) + [Shut(open)] + rest
  }

  lemma FollowingFront(more: Items, open: byte, rest: bytes)
    requires IsOpen(open)
    ensures var w := Following(more, open, rest);
            && w != [] && w[0] == (if more.End? then Shut(open) else COMMA)
            && w[1..] == if more.End? then rest else SourceItems(more, open) + [Shut(open)] + rest
  {
    var w := Following(more, open, rest);
    if more.End? {
      assert w == [Shut(open)] + rest;
    } else {
      assert w == [COMMA] + (SourceItems(more, open) + [Shut(open)] + rest);
    }
  }

  lemma TrailEnds(trail: bytes, w: bytes)
    requires AllWs(trail) && w != [] && (w[0] == COMMA || w[0] == SHUT_BRACE || w[0] == SHUT_BRACKET)
    ensures Ends(trail + w) && Ws(trail + w) == w && Taken(trail + w, w) == trail
  {
    WsTaken(trail, w);
    if trail != [] {
      assert IsWs(trail[0]) && Front(trail + w) == trail[0];
    } else {
      assert trail + w == w;
    }
  }

  lemma ElementsStep(s: bytes, open: byte, depth: nat, seen: set<bytes>, x: bytes, n: Name, y: bytes, v: Tree, z: bytes, w: bytes,
                     more: Items, rest: bytes)
    requires Ws(s) == x && Head(x, open, seen) == Done(n, y) && Value(y, depth) == Done(v, z) && Ws(z) == w && w != []
    requires if more.Item? then w[0] == COMMA && Elements(w[1..], open, depth, With(seen, open, n.key)) == Done(more, rest)
             else w[0] == Shut(open) && w[0] != COMMA && w[1..] == rest
    ensures Elements(s, open, depth, seen) == Done(Item(Taken(s, x), n.token, n.gap, n.after, v, Taken(z, w), more), rest)
  {
  }

  lemma ItemText(items: Items, open: byte, rest: bytes)
    requires items.Item?
    ensures SourceItems(items, open) + [Shut(open)] + rest
            == items.lead + (SourceName(items.name, items.gap, items.after, open)
                             + (Source(items.value) + (items.trail + Following(items.more, open, rest))))
  {
  }

  /** One item, given how its value and the items after it read. */
  lemma ItemReads(items: Items, open: byte, depth: nat, seen: set<bytes>, rest: bytes, z: bytes, w: bytes)
    requires items.Item? && IsOpen(open) && ItemsOk(items, open, depth, seen)
    requires w == Following(items.more, open, rest) && z == items.trail + w
    requires Value(Source(items.value) + z, depth) == Done(items.value, z)
    requires items.more.Item? ==>
               Elements(w[1..], open, depth, With(seen, open, KeyOf(items.name))) == Done(items.more, rest)
    ensures Elements(SourceItems(items, open) + [Shut(open)] + rest, open, depth, seen) == Done(items, rest)
    ensures Front(Ws(SourceItems(items, open) + [Shut(open)] + rest)) != Shut(open)
  {
    var s := SourceItems(items, open) + [Shut(open)] + rest;
    var y := Source(items.value) + z;
    var x := SourceName(items.name, items.gap, items.after, open) + y;
    ItemText(items, open, rest);
    SourceFront(items.value, depth, z);
    NameFront(items.name, items.gap, items.after, open, seen, y);
    WsTaken(items.lead, x);
    HeadReads(items.name, items.gap, items.after, open, seen, y);
    FollowingFront(items.more, open, rest);
    TrailEnds(items.trail, w);
    ElementsStep(s, open, depth, seen, x, Name(items.name, items.gap, items.after, if open == OPEN_BRACE then KeyOf(items.name) else []),
                 y, items.value, z, w, items.more, rest);
  }

  lemma EmptyReads(open: byte, inner: bytes, depth: nat, rest: bytes)
    requires IsOpen(open) && AllWs(inner) && depth + 1 <= DEPTH_LIMIT
    ensures Value(Source(Node(open, inner, End)) + rest, depth) == Done(Node(open, inner, End), rest)
  {
    var s := Source(Node(open, inner, End)) + rest;
    var r := [Shut(open)] + rest;
    assert SourceItems(End, open) == [];
    assert s == [open] + (inner + r);
    assert s[1..] == inner + r;
    WsTaken(inner, r);
    assert r[1..] == rest;
  }

  lemma NodeText(open: byte, items: Items, rest: bytes)
    ensures Source(Node(open, [], items)) + rest == [open] + (SourceItems(items, open) + [Shut(open)] + rest)
  {
    assert [open] + [] == [open];
  }

  lemma NodeReads(open: byte, items: Items, depth: nat, rest: bytes, body: bytes)
    requires IsOpen(open) && depth + 1 <= DEPTH_LIMIT && Front(Ws(body)) != Shut(open)
    requires Elements(body, open, depth + 1, {}) == Done(items, rest)
    ensures Value([open] + body, depth) == Done(Node(open, [], items), rest)
  {
    assert ([open] + body)[1..] == body;
  }

  /** The text of a well-formed tree reads as that tree, whatever follows that could not continue a number. */
  lemma {:induction false} ValueReads(t: Tree, depth: nat, rest: bytes)
    requires Ok(t, depth) && Ends(rest)
    ensures Value(Source(t) + rest, depth) == Done(t, rest)
    decreases t
  {
    match t
    case Leaf(token) =>
      TokenReads(token, rest);
      assert Taken(token + rest, rest) == token;
    case Node(open, inner, items) =>
      if items.End? {
        EmptyReads(open, inner, depth, rest);
      } else {
        ElementsRead(items, open, depth + 1, {}, rest);
        NodeReads(open, items, depth, rest, SourceItems(items, open) + [Shut(open)] + rest);
        NodeText(open, items, rest);
      }
  }

  lemma {:induction false} ElementsRead(items: Items, open: byte, depth: nat, seen: set<bytes>, rest: bytes)
    requires items.Item? && IsOpen(open) && ItemsOk(items, open, depth, seen) && Ends(rest)
    ensures Elements(SourceItems(items, open) + [Shut(open)] + rest, open, depth, seen) == Done(items, rest)
    ensures Front(Ws(SourceItems(items, open) + [Shut(open)] + rest)) != Shut(open)
    decreases items
  {
    var w := Following(items.more, open, rest);
    var z := items.trail + w;
    FollowingFront(items.more, open, rest);
    TrailEnds(items.trail, w);
    ValueReads(items.value, depth, z);
    if items.more.Item? {
      ElementsRead(items.more, open, depth, With(seen, open, KeyOf(items.name)), rest);
    }
    ItemReads(items, open, depth, seen, rest, z, w);
  }

  lemma HeadParts(x: bytes, seen: set<bytes>, n: Name, y: bytes) returns (u: bytes, r: bytes)
    requires Head(x, OPEN_BRACE, seen) == Done(n, y)
    ensures Str(x) == Done(n.key, u) && n.key !in seen && |u| <= |x|
    ensures r == Ws(u) && Front(r) == COLON && y == Ws(r[1..])
    ensures n.token == Taken(x, u) && n.gap == Taken(u, r) && n.after == Taken(r[1..], y)
  {
    u := Str(x).rest;
    r := Ws(u);
  }

  lemma TokenReadsAlone(x: bytes, key: bytes, u: bytes)
    requires Str(x) == Done(key, u)
    ensures Str(Taken(x, u)) == Done(key, []) && x == Taken(x, u) + u
  {
    StrLocal(x, key, u, []);
    assert Taken(x, u) + [] == Taken(x, u);
  }

  lemma HeadSplits(x: bytes, open: byte, seen: set<bytes>, n: Name, y: bytes)
    requires Head(x, open, seen) == Done(n, y)
    ensures x == SourceName(n.token, n.gap, n.after, open) + y && NameOk(n.token, n.gap, n.after, open, seen)
    ensures open == OPEN_BRACE ==> n.key == KeyOf(n.token)
  {
    if open == OPEN_BRACE {
      var u, r := HeadParts(x, seen, n, y);
      TokenReadsAlone(x, n.key, u);
      WsSplits(u);
      WsSplits(r[1..]);
      NameSplits(x, u, r, n.token, n.gap, n.after, y);
    }
  }

  lemma NameSplits(x: bytes, u: bytes, r: bytes, name: bytes, gap: bytes, after: bytes, y: bytes)
    requires x == name + u && u == gap + r && r != [] && r[0] == COLON && r[1..] == after + y
    ensures x == SourceName(name, gap, after, OPEN_BRACE) + y
  {
    assert r == [COLON] + r[1..];
    NameText(name, gap, after, y);
  }

  lemma SplitText(items: Items, open: byte, rest: bytes, s: bytes, x: bytes, y: bytes, z: bytes, w: bytes)
    requires items.Item? && s == items.lead + x && x == SourceName(items.name, items.gap, items.after, open) + y
    requires y == Source(items.value) + z && z == items.trail + w && w == Following(items.more, open, rest)
    ensures s == SourceItems(items, open) + [Shut(open)] + rest
  {
    ItemText(items, open, rest);
  }

  lemma FollowingSplits(w: bytes, more: Items, open: byte, rest: bytes)
    requires w != []
    requires if more.Item? then w[0] == COMMA && w[1..] == SourceItems(more, open) + [Shut(open)] + rest
             else w[0] == Shut(open) && w[1..] == rest
    ensures w == Following(more, open, rest)
  {
    assert w == [w[0]] + w[1..];
    if more.Item? {
      assert Following(more, open, rest) == [COMMA] + (SourceItems(more, open) + [Shut(open)] + rest);
    } else {
      assert Following(more, open, rest) == [Shut(open)] + rest;
    }
  }

  lemma EmptyText(open: byte, inner: bytes, rest: bytes)
    ensures Source(Node(open, inner, End)) + rest == [open] + (inner + ([Shut(open)] + rest))
  {
    assert SourceItems(End, open) == [];
  }

  lemma EmptySplits(s: bytes, open: byte, r: bytes, rest: bytes)
    requires s != [] && s[0] == open && r == Ws(s[1..]) && Front(r) == Shut(open) && rest == r[1..] && r != []
    ensures s == Source(Node(open, Taken(s[1..], r), End)) + rest && AllWs(Taken(s[1..], r))
  {
    WsSplits(s[1..]);
    assert s == [open] + s[1..];
    assert r == [Shut(open)] + rest;
    EmptyText(open, Taken(s[1..], r), rest);
  }

  lemma NodeSplits(s: bytes, open: byte, items: Items, rest: bytes)
    requires s != [] && s[0] == open && s[1..] == SourceItems(items, open) + [Shut(open)] + rest
    ensures s == Source(Node(open, [], items)) + rest
  {
    assert s == [open] + s[1..];
    NodeText(open, items, rest);
  }

  /** What one turn of the loop read. */
  lemma ElementsParts(s: bytes, open: byte, depth: nat, seen: set<bytes>, items: Items, rest: bytes)
    returns (x: bytes, n: Name, y: bytes, z: bytes, w: bytes)
    requires IsOpen(open) && Elements(s, open, depth, seen) == Done(items, rest)
    ensures items.Item? && x == Ws(s) && Head(x, open, seen) == Done(n, y) && |y| <= |s|
    ensures Value(y, depth) == Done(items.value, z) && w == Ws(z) && w != [] && |w| < |s|
    ensures items.lead == Taken(s, x) && items.trail == Taken(z, w)
    ensures items.name == n.token && items.gap == n.gap && items.after == n.after
    ensures if items.more.Item? then w[0] == COMMA && Elements(w[1..], open, depth, With(seen, open, n.key)) == Done(items.more, rest)
            else w[0] == Shut(open) && w[1..] == rest
  {
    x := Ws(s);
    n, y := Head(x, open, seen).value, Head(x, open, seen).rest;
    z := Value(y, depth).rest;
    w := Ws(z);
    if Front(w) == COMMA {
      MoreThanNone(w[1..], open, depth, With(seen, open, n.key));
    }
  }

  lemma MoreThanNone(s: bytes, open: byte, depth: nat, seen: set<bytes>)
    requires Elements(s, open, depth, seen).Done?
    ensures Elements(s, open, depth, seen).value.Item?
  {
  }

  lemma ValueParts(s: bytes, depth: nat, t: Tree, rest: bytes) returns (r: bytes)
    requires IsOpen(Front(s)) && Value(s, depth) == Done(t, rest)
    ensures depth + 1 <= DEPTH_LIMIT && r == Ws(s[1..]) && t.Node? && t.open == s[0]
    ensures if Front(r) == Shut(s[0]) then r != [] && t.inner == Taken(s[1..], r) && t.items.End? && rest == r[1..]
            else t.inner == [] && Elements(s[1..], s[0], depth + 1, {}) == Done(t.items, rest)
  {
    r := Ws(s[1..]);
  }

  /** What the walk accepts is the text of the well-formed tree it answers, and nothing else is consumed. */
  lemma {:induction false} ValueSplits(s: bytes, depth: nat, t: Tree, rest: bytes)
    requires Value(s, depth) == Done(t, rest)
    ensures Ok(t, depth) && s == Source(t) + rest
    decreases |s|, 0
  {
    if !IsOpen(Front(s)) {
      TokenOk(s, rest);
    } else {
      var r := ValueParts(s, depth, t, rest);
      if Front(r) == Shut(s[0]) {
        EmptySplits(s, s[0], r, rest);
        assert t == Node(s[0], Taken(s[1..], r), End);
      } else {
        ElementsSplit(s[1..], s[0], depth + 1, {}, t.items, rest);
        NodeSplits(s, s[0], t.items, rest);
        assert t == Node(s[0], [], t.items);
      }
    }
  }

  lemma {:induction false} ElementsSplit(s: bytes, open: byte, depth: nat, seen: set<bytes>, items: Items, rest: bytes)
    requires IsOpen(open) && Elements(s, open, depth, seen) == Done(items, rest)
    ensures items.Item? && ItemsOk(items, open, depth, seen) && s == SourceItems(items, open) + [Shut(open)] + rest
    decreases |s|, 1
  {
    var x, n, y, z, w := ElementsParts(s, open, depth, seen, items, rest);
    WsSplits(s);
    WsSplits(z);
    HeadSplits(x, open, seen, n, y);
    ValueSplits(y, depth, items.value, z);
    if items.more.Item? {
      ElementsSplit(w[1..], open, depth, With(seen, open, n.key), items.more, rest);
    }
    FollowingSplits(w, items.more, open, rest);
    SplitText(items, open, rest, s, x, y, z, w);
  }

  /** skipValue accepts exactly the texts of well-formed trees, and a text is that of one tree only. */
  lemma ValueIff(s: bytes, depth: nat, t: Tree, rest: bytes)
    requires Ends(rest)
    ensures Value(s, depth) == Done(t, rest) <==> Ok(t, depth) && s == Source(t) + rest
  {
    if Value(s, depth) == Done(t, rest) {
      ValueSplits(s, depth, t, rest);
    }
    if Ok(t, depth) && s == Source(t) + rest {
      ValueReads(t, depth, rest);
    }
  }
}
