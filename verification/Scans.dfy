/**
 The record decoder's two streaming scans (go/record.go: refuseDuplicateNames, refuseDeepNesting), over the tokens of
 a document, against what they are for: a definition over the document's tree. The generated reader (module OpaqueJson)
 enforces the same two rules by recursion; AgreesWithReader says the two implementations refuse the same values.
 */
module Scans {
  import opened Options
  import opened Bytes
  import opened Text
  import opened OpaqueJson

  /** A document as a tree, names decoded. */
  datatype Json = Scalar(text: bytes) | Object(members: Members) | Array(elements: Elems)

  datatype Members = NoMember | Member(name: bytes, value: Json, more: Members)

  datatype Elems = NoElement | Element(value: Json, more: Elems)

  /** What a streaming decoder answers: a bracket, or a scalar, a name being a scalar too. */
  datatype Token = OpenObject | OpenArray | Close | Plain(text: bytes)

  function Tokens(j: Json): seq<Token>
    decreases j
  {
    match j
    case Scalar(text) => [Plain(text)]
    case Object(members) => [OpenObject] + MemberTokens(members) + [Close]
    case Array(elements) => [OpenArray] + ElementTokens(elements) + [Close]
  }

  function MemberTokens(ms: Members): seq<Token>
    decreases ms
  {
    match ms
    case NoMember => []
    case Member(name, value, more) => [Plain(name)] + Tokens(value) + MemberTokens(more)
  }

  function ElementTokens(es: Elems): seq<Token>
    decreases es
  {
    match es
    case NoElement => []
    case Element(value, more) => Tokens(value) + ElementTokens(more)
  }

  // ----- What the scans are for -----

  function Names(ms: Members): seq<bytes> {
    match ms
    case NoMember => []
    case Member(name, _, more) => [name] + Names(more)
  }

  predicate HasRepeat(names: seq<bytes>) {
    exists i, j | 0 <= i < j < |names| :: names[i] == names[j]
  }

  /** Some object, at some depth, repeats a name. */
  predicate Repeats(j: Json) {
    match j
    case Scalar(_) => false
    case Object(members) => HasRepeat(Names(members)) || RepeatsBelow(members)
    case Array(elements) => RepeatsAmong(elements)
  }

  predicate RepeatsBelow(ms: Members) {
    ms.Member? && (Repeats(ms.value) || RepeatsBelow(ms.more))
  }

  predicate RepeatsAmong(es: Elems) {
    es.Element? && (Repeats(es.value) || RepeatsAmong(es.more))
  }

  function Max(a: nat, b: nat): nat {
    if a < b then b else a
  }

  /** How many containers enclose the deepest container, itself included. */
  function Nesting(j: Json): nat {
    match j
    case Scalar(_) => 0
    case Object(members) => 1 + MemberNesting(members)
    case Array(elements) => 1 + ElementNesting(elements)
  }

  function MemberNesting(ms: Members): nat {
    if ms.NoMember? then 0 else Max(Nesting(ms.value), MemberNesting(ms.more))
  }

  function ElementNesting(es: Elems): nat {
    if es.NoElement? then 0 else Max(Nesting(es.value), ElementNesting(es.more))
  }

  // ----- The duplicate-name scan -----

  /** A container being read: the names seen, and whether the next scalar is one. */
  datatype Frame = Frame(isObject: bool, seen: set<bytes>, key: bool)

  type Stack = seq<Frame>

  function Top(stack: Stack): Frame
    requires stack != []
  {
    stack[|stack| - 1]
  }

  function WithTop(stack: Stack, f: Frame): Stack
    requires stack != []
  {
    stack[|stack| - 1 := f]
  }

  /** A value has ended: in an object, a name comes next. */
  function AfterValue(stack: Stack): (after: Stack)
    ensures |after| == |stack|
  {
    if stack != [] && Top(stack).isObject then WithTop(stack, Top(stack).(key := true)) else stack
  }

  /** One token; None is a refusal. */
  function Turn(stack: Stack, t: Token): Option<Stack> {
    match t
    case OpenObject => Some(stack + [Frame(true, {}, true)])
    case OpenArray => Some(stack + [Frame(false, {}, false)])
    case Close => if stack == [] then None else Some(AfterValue(stack[..|stack| - 1]))
    case Plain(text) =>
      if stack != [] && Top(stack).isObject && Top(stack).key then
        if text in Top(stack).seen then None
        else Some(WithTop(stack, Top(stack).(seen := Top(stack).seen + {text}, key := false)))
      else Some(AfterValue(stack))
  }

  function Scan(stack: Stack, tokens: seq<Token>): Option<Stack>
    decreases tokens
  {
    if tokens == [] then Some(stack)
    else
      var next := Turn(stack, tokens[0]);
      if next.None? then None else Scan(next.value, tokens[1..])
  }

  /** refuseDuplicateNames: the stack's frames are updated in place, and the document is what is left to read. */
  method RefuseDuplicateNames(tokens: seq<Token>) returns (refused: bool)
    ensures refused <==> Scan([], tokens).None?
  {
    var stack: Stack := [];
    for i := 0 to |tokens|
      invariant Scan([], tokens) == Scan(stack, tokens[i..])
    {
      assert tokens[i..][1..] == tokens[i + 1..];
      match tokens[i]
      case OpenObject => stack := stack + [Frame(true, {}, true)];
      case OpenArray => stack := stack + [Frame(false, {}, false)];
      case Close =>
        if stack == [] {
          return true;
        }
        stack := stack[..|stack| - 1];
        var n := |stack|;
        if n > 0 && stack[n - 1].isObject {
          stack := stack[n - 1 := stack[n - 1].(key := true)];
        }
      case Plain(text) =>
        var n := |stack|;
        if n > 0 && stack[n - 1].isObject && stack[n - 1].key {
          if text in stack[n - 1].seen {
            return true;
          }
          stack := stack[n - 1 := stack[n - 1].(seen := stack[n - 1].seen + {text}, key := false)];
        } else if n > 0 && stack[n - 1].isObject {
          stack := stack[n - 1 := stack[n - 1].(key := true)];
        }
    }
    refused := false;
  }

  /** The stack expects a value, not a name. */
  predicate AtValue(stack: Stack) {
    stack == [] || !Top(stack).isObject || !Top(stack).key
  }

  /** A name of the list is among those seen, or repeats, or a value below repeats one. */
  predicate RepeatsFrom(ms: Members, seen: set<bytes>) {
    ms.Member? && (ms.name in seen || Repeats(ms.value) || RepeatsFrom(ms.more, seen + {ms.name}))
  }

  function AllNames(ms: Members): set<bytes> {
    if ms.NoMember? then {} else {ms.name} + AllNames(ms.more)
  }

  lemma {:induction false} NamesOf(ms: Members, name: bytes)
    ensures name in AllNames(ms) <==> name in Names(ms)
  {
    if ms.Member? {
      NamesOf(ms.more, name);
    }
  }

  lemma HasRepeatNext(name: bytes, names: seq<bytes>)
    ensures HasRepeat([name] + names) <==> name in names || HasRepeat(names)
  {
    var all := [name] + names;
    if HasRepeat(all) {
      var i, j :| 0 <= i < j < |all| && all[i] == all[j];
      if i > 0 {
        assert names[i - 1] == names[j - 1];
      } else {
        assert names[j - 1] == name;
      }
    }
    if name in names {
      var j :| 0 <= j < |names| && names[j] == name;
      assert all[0] == all[j + 1];
    }
    if HasRepeat(names) {
      var i, j :| 0 <= i < j < |names| && names[i] == names[j];
      assert all[i + 1] == all[j + 1];
    }
  }

  /** Reading the members in order finds exactly a name seen before, a repeated name, or a repetition below. */
  lemma {:induction false} RepeatsFromIff(ms: Members, seen: set<bytes>)
    ensures RepeatsFrom(ms, seen) <==> !(AllNames(ms) !! seen) || HasRepeat(Names(ms)) || RepeatsBelow(ms)
  {
    if ms.Member? {
      RepeatsFromIff(ms.more, seen + {ms.name});
      HasRepeatNext(ms.name, Names(ms.more));
      NamesOf(ms.more, ms.name);
    }
  }

  function Pushed(stack: Stack, f: Frame): Stack {
    stack + [f]
  }

  lemma PushedTop(stack: Stack, f: Frame, g: Frame)
    ensures Top(Pushed(stack, f)) == f && WithTop(Pushed(stack, f), g) == Pushed(stack, g)
    ensures Pushed(stack, f)[..|stack|] == stack
  {
  }

  lemma ScanStep(stack: Stack, t: Token, rest: seq<Token>)
    ensures Scan(stack, [t] + rest) == var next := Turn(stack, t); if next.None? then None else Scan(next.value, rest)
  {
    assert ([t] + rest)[1..] == rest;
  }

  /** A value leaves the stack as it found it, but for the name now due, unless an object in it repeats a name. */
  lemma {:induction false} ScanValue(j: Json, stack: Stack, rest: seq<Token>)
    requires AtValue(stack)
    ensures Scan(stack, Tokens(j) + rest) == if Repeats(j) then None else Scan(AfterValue(stack), rest)
    decreases j
  {
    match j
    case Scalar(text) => ScanStep(stack, Plain(text), rest);
    case Object(members) =>
      var f := Frame(true, {}, true);
      var tail := [Close] + rest;
      assert Tokens(j) + rest == [OpenObject] + (MemberTokens(members) + tail);
      ScanStep(stack, OpenObject, MemberTokens(members) + tail);
      ScanMembers(members, stack, {}, tail);
      RepeatsFromIff(members, {});
      ScanStep(Pushed(stack, f.(seen := AllNames(members))), Close, rest);
      PushedTop(stack, f.(seen := AllNames(members)), f);
      assert {} + AllNames(members) == AllNames(members);
    case Array(elements) =>
      var f := Frame(false, {}, false);
      var tail := [Close] + rest;
      assert Tokens(j) + rest == [OpenArray] + (ElementTokens(elements) + tail);
      ScanStep(stack, OpenArray, ElementTokens(elements) + tail);
      ScanElements(elements, stack, tail);
      ScanStep(Pushed(stack, f), Close, rest);
      PushedTop(stack, f, f);
  }

  lemma {:induction false} ScanMembers(ms: Members, stack: Stack, seen: set<bytes>, rest: seq<Token>)
    ensures Scan(Pushed(stack, Frame(true, seen, true)), MemberTokens(ms) + rest)
            == if RepeatsFrom(ms, seen) then None else Scan(Pushed(stack, Frame(true, seen + AllNames(ms), true)), rest)
    decreases ms
  {
    if ms.NoMember? {
      assert MemberTokens(ms) + rest == rest && seen + {} == seen;
    } else {
      var f := Frame(true, seen, true);
      var g := Frame(true, seen + {ms.name}, false);
      var tail := MemberTokens(ms.more) + rest;
      assert MemberTokens(ms) + rest == [Plain(ms.name)] + (Tokens(ms.value) + tail);
      ScanStep(Pushed(stack, f), Plain(ms.name), Tokens(ms.value) + tail);
      PushedTop(stack, f, g);
      if ms.name !in seen {
        PushedTop(stack, g, g.(key := true));
        ScanValue(ms.value, Pushed(stack, g), tail);
        ScanMembers(ms.more, stack, seen + {ms.name}, rest);
        assert seen + {ms.name} + AllNames(ms.more) == seen + AllNames(ms);
      }
    }
  }

  lemma {:induction false} ScanElements(es: Elems, stack: Stack, rest: seq<Token>)
    ensures Scan(Pushed(stack, Frame(false, {}, false)), ElementTokens(es) + rest)
            == if RepeatsAmong(es) then None else Scan(Pushed(stack, Frame(false, {}, false)), rest)
    decreases es
  {
    var f := Frame(false, {}, false);
    if es.NoElement? {
      assert ElementTokens(es) + rest == rest;
    } else {
      var tail := ElementTokens(es.more) + rest;
      assert ElementTokens(es) + rest == Tokens(es.value) + tail;
      PushedTop(stack, f, f);
      ScanValue(es.value, Pushed(stack, f), tail);
      ScanElements(es.more, stack, rest);
    }
  }

  /** [JOB-J9] The explicit-stack scan refuses a document exactly when some object in it, at some depth, repeats a
      decoded name. */
  lemma DuplicateScanIff(j: Json)
    ensures Scan([], Tokens(j)).None? <==> Repeats(j)
  {
    ScanValue(j, [], []);
    assert Tokens(j) + [] == Tokens(j);
  }

  // ----- The nesting scan -----

  /** The depth after the tokens; None is a refusal. */
  function Count(depth: int, tokens: seq<Token>): Option<int>
    decreases tokens
  {
    if tokens == [] then Some(depth)
    else if tokens[0].OpenObject? || tokens[0].OpenArray? then
      if depth + 1 > DEPTH_LIMIT then None else Count(depth + 1, tokens[1..])
    else if tokens[0].Close? then Count(depth - 1, tokens[1..])
    else Count(depth, tokens[1..])
  }

  /** refuseDeepNesting */
  method RefuseDeepNesting(tokens: seq<Token>) returns (refused: bool)
    ensures refused <==> Count(0, tokens).None?
  {
    var depth := 0;
    for i := 0 to |tokens|
      invariant Count(0, tokens) == Count(depth, tokens[i..])
    {
      assert tokens[i..][1..] == tokens[i + 1..];
      if tokens[i].Plain? {
        continue;
      }
      if tokens[i].OpenObject? || tokens[i].OpenArray? {
        depth := depth + 1;
        if depth > DEPTH_LIMIT {
          return true;
        }
      } else {
        depth := depth - 1;
      }
    }
    refused := false;
  }

  lemma CountStep(depth: int, t: Token, rest: seq<Token>)
    ensures Count(depth, [t] + rest) ==
            if t.OpenObject? || t.OpenArray? then (if depth + 1 > DEPTH_LIMIT then None else Count(depth + 1, rest))
            else Count(if t.Close? then depth - 1 else depth, rest)
  {
    assert ([t] + rest)[1..] == rest;
  }

  lemma {:induction false} CountValue(j: Json, depth: int, rest: seq<Token>)
    requires depth <= DEPTH_LIMIT
    ensures Count(depth, Tokens(j) + rest) == if depth + Nesting(j) > DEPTH_LIMIT then None else Count(depth, rest)
    decreases j
  {
    match j
    case Scalar(text) => CountStep(depth, Plain(text), rest);
    case Object(members) =>
      var tail := [Close] + rest;
      assert Tokens(j) + rest == [OpenObject] + (MemberTokens(members) + tail);
      CountStep(depth, OpenObject, MemberTokens(members) + tail);
      if depth < DEPTH_LIMIT {
        CountMembers(members, depth + 1, tail);
        CountStep(depth + 1, Close, rest);
      }
    case Array(elements) =>
      var tail := [Close] + rest;
      assert Tokens(j) + rest == [OpenArray] + (ElementTokens(elements) + tail);
      CountStep(depth, OpenArray, ElementTokens(elements) + tail);
      if depth < DEPTH_LIMIT {
        CountElements(elements, depth + 1, tail);
        CountStep(depth + 1, Close, rest);
      }
  }

  lemma {:induction false} CountMembers(ms: Members, depth: int, rest: seq<Token>)
    requires depth <= DEPTH_LIMIT
    ensures Count(depth, MemberTokens(ms) + rest) == if depth + MemberNesting(ms) > DEPTH_LIMIT then None else Count(depth, rest)
    decreases ms
  {
    if ms.NoMember? {
      assert MemberTokens(ms) + rest == rest;
    } else {
      var tail := MemberTokens(ms.more) + rest;
      assert MemberTokens(ms) + rest == [Plain(ms.name)] + (Tokens(ms.value) + tail);
      CountStep(depth, Plain(ms.name), Tokens(ms.value) + tail);
      CountValue(ms.value, depth, tail);
      CountMembers(ms.more, depth, rest);
    }
  }

  lemma {:induction false} CountElements(es: Elems, depth: int, rest: seq<Token>)
    requires depth <= DEPTH_LIMIT
    ensures Count(depth, ElementTokens(es) + rest) == if depth + ElementNesting(es) > DEPTH_LIMIT then None else Count(depth, rest)
    decreases es
  {
    if es.NoElement? {
      assert ElementTokens(es) + rest == rest;
    } else {
      var tail := ElementTokens(es.more) + rest;
      assert ElementTokens(es) + rest == Tokens(es.value) + tail;
      CountValue(es.value, depth, tail);
      CountElements(es.more, depth, rest);
    }
  }

  /** [JOB-J8] The counter refuses a document exactly when its nesting exceeds 64. */
  lemma NestingScanIff(j: Json)
    ensures Count(0, Tokens(j)).None? <==> Nesting(j) > DEPTH_LIMIT
  {
    CountValue(j, 0, []);
    assert Tokens(j) + [] == Tokens(j);
  }

  // ----- Agreement with the generated reader -----

  /** The document a syntax tree writes. */
  function Meaning(t: Tree): Json
    decreases t
  {
    match t
    case Leaf(token) => Scalar(token)
    case Node(open, _, items) => if open == OPEN_BRACE then Object(MeaningMembers(items)) else Array(MeaningElements(items))
  }

  function MeaningMembers(items: Items): Members
    decreases items
  {
    if items.End? then NoMember else Member(KeyOf(items.name), Meaning(items.value), MeaningMembers(items.more))
  }

  function MeaningElements(items: Items): Elems
    decreases items
  {
    if items.End? then NoElement else Element(Meaning(items.value), MeaningElements(items.more))
  }

  /** The grammar alone: no depth limit, and names may repeat. */
  predicate Grammatical(t: Tree)
    decreases t
  {
    match t
    case Leaf(token) => LeafOk(token)
    case Node(open, inner, items) =>
      IsOpen(open) && AllWs(inner) && (items.Item? ==> inner == []) && GrammaticalItems(items, open)
  }

  predicate GrammaticalItems(items: Items, open: byte)
    decreases items
  {
    match items
    case End => true
    case Item(lead, name, gap, after, value, trail, more) =>
      && AllWs(lead) && AllWs(trail) && NameOk(name, gap, after, open, {}) && Grammatical(value) && GrammaticalItems(more, open)
  }

  lemma {:induction false} OkIff(t: Tree, depth: nat)
    requires Grammatical(t) && depth <= DEPTH_LIMIT
    ensures Ok(t, depth) <==> depth + Nesting(Meaning(t)) <= DEPTH_LIMIT && !Repeats(Meaning(t))
    decreases t
  {
    if t.Node? && depth < DEPTH_LIMIT {
      ItemsOkIff(t.items, t.open, depth + 1, {});
      if t.open == OPEN_BRACE {
        RepeatsFromIff(MeaningMembers(t.items), {});
      }
    }
  }

  lemma {:induction false} ItemsOkIff(items: Items, open: byte, depth: nat, seen: set<bytes>)
    requires GrammaticalItems(items, open) && depth <= DEPTH_LIMIT
    ensures ItemsOk(items, open, depth, seen) <==>
            if open == OPEN_BRACE
            then depth + MemberNesting(MeaningMembers(items)) <= DEPTH_LIMIT && !RepeatsFrom(MeaningMembers(items), seen)
            else depth + ElementNesting(MeaningElements(items)) <= DEPTH_LIMIT && !RepeatsAmong(MeaningElements(items))
    decreases items
  {
    if items.Item? {
      OkIff(items.value, depth);
      ItemsOkIff(items.more, open, depth, With(seen, open, KeyOf(items.name)));
    }
  }

  /** For every value the grammar allows, the generated reader's recursion accepts it exactly when both streaming scans
      let it through. */
  lemma AgreesWithReader(t: Tree)
    requires Grammatical(t)
    ensures Value(Source(t), 0) == Done(t, [])
            <==> Scan([], Tokens(Meaning(t))).Some? && Count(0, Tokens(Meaning(t))).Some?
  {
    DuplicateScanIff(Meaning(t));
    NestingScanIff(Meaning(t));
    OkIff(t, 0);
    ValueIff(Source(t), 0, t, []);
    assert Source(t) + [] == Source(t);
  }
}
