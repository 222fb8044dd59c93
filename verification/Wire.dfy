/**
 The one-line messages of the remote binding (go/rec/rec.go: encWireRequest, decodeRequest, encWireResponse,
 decodeResponse; framed by a newline, go/remote.go). A request and a response are members of one object; what is
 written for a message, the reader reads back, with opaque members in their flat form.
 */
module Wire {
  import opened Options
  import opened Bytes
  import opened Text
  import opened Numbers
  import opened OpaqueJson
  import opened Reflow
  import opened RecordReader

  const MIN_INT64: int := 0 - TWO63
  const MAX_INT64: int := TWO63 - 1

  // ----- Members -----

  datatype Kind = StringKind | NumberKind | RawKind | BoolKind | RawsKind | StringsKind

  datatype Field =
    | StringField(text: bytes)
    | NumberField(number: int)
    | RawField(raw: bytes)
    | BoolField(yes: bool)
    | RawsField(raws: seq<bytes>)
    | StringsField(texts: seq<bytes>)
  {
    function Kind(): Kind {
      match this
      case StringField(_) => StringKind
      case NumberField(_) => NumberKind
      case RawField(_) => RawKind
      case BoolField(_) => BoolKind
      case RawsField(_) => RawsKind
      case StringsField(_) => StringsKind
    }

    predicate Empty() {
      match this
      case StringField(text) => text == []
      case NumberField(number) => number == 0
      case RawField(raw) => raw == []
      case BoolField(yes) => !yes
      case RawsField(raws) => raws == []
      case StringsField(texts) => texts == []
    }

    /** The field as it arrives: an opaque value in its flat form. */
    function Flattened(): Field {
      match this
      case RawField(raw) => RawField(Flat(raw))
      case RawsField(raws) => RawsField(FlatAll(raws))
      case _ => this
    }

    /** What a sender may put in it: valid UTF-8, an int64, and opaque values the reader accepts at their depth. */
    predicate Sendable() {
      match this
      case StringField(text) => ValidUtf8(text)
      case NumberField(number) => -TWO63 <= number < TWO63
      case RawField(raw) => raw == [] || Accepted(raw, 1)
      case BoolField(yes) => true
      case RawsField(raws) => forall i | 0 <= i < |raws| :: Accepted(raws[i], 2)
      case StringsField(texts) => forall i | 0 <= i < |texts| :: ValidUtf8(texts[i])
    }
  }

  function FlatAll(raws: seq<bytes>): (r: seq<bytes>)
    ensures |r| == |raws|
  {
    if raws == [] then [] else [Flat(raws[0])] + FlatAll(raws[1..])
  }

  // ----- Writing -----

  /** The text of one list item. */
  function EntryText(item: bytes, raw: bool): bytes {
    if raw then Flat(item) else Esc(item)
  }

  function ListBody(items: seq<bytes>, raw: bool): bytes {
    if items == [] then []
    else if |items| == 1 then EntryText(items[0], raw)
    else EntryText(items[0], raw) + [COMMA] + ListBody(items[1..], raw)
  }

  function FieldText(f: Field): bytes
    requires f.Sendable()
  {
    match f
    case StringField(text) => Esc(text)
    case NumberField(number) => Num(number)
    case RawField(raw) => Flat(raw)
    case BoolField(yes) => if yes then TRUE else FALSE
    case RawsField(raws) => [OPEN_BRACKET] + ListBody(raws, true) + [SHUT_BRACKET]
    case StringsField(texts) => [OPEN_BRACKET] + ListBody(texts, false) + [SHUT_BRACKET]
  }

  /** A place in a message: written always, or when it is not empty. */
  datatype Slot = Slot(key: bytes, field: Field, always: bool) {
    predicate Written() {
      always || !field.Empty()
    }

    predicate Valid() {
      ValidUtf8(key) && field.Sendable() && (always ==> field.StringField?)
    }
  }

  function Member(s: Slot): bytes
    requires s.field.Sendable()
  {
    Esc(s.key) + [COLON] + FieldText(s.field)
  }

  predicate AllValid(slots: seq<Slot>) {
    forall i | 0 <= i < |slots| :: slots[i].Valid()
  }

  function Body(slots: seq<Slot>, first: bool): bytes
    requires AllValid(slots)
  {
    if slots == [] then []
    else if !slots[0].Written() then Body(slots[1..], first)
    else (if first then [] else [COMMA]) + Member(slots[0]) + Body(slots[1..], false)
  }

  function Encoded(slots: seq<Slot>): bytes
    requires AllValid(slots)
  {
    [OPEN_BRACE] + Body(slots, true) + [SHUT_BRACE]
  }

  // ----- Reading -----

  /** One list item: a string, or the bytes of an opaque value. */
  function ReadItem(s: bytes, raw: bool, depth: nat): (p: Parse<bytes>)
    ensures p.Done? ==> |p.rest| < |s|
    ensures p.Refused? ==> p.left <= |s|
  {
    if raw then
      var v := Value(s, depth);
      if v.Refused? then Refused(v.word, v.left) else Done(Taken(s, v.rest), v.rest)
    else Str(s)
  }

  function Prepended(items: seq<bytes>, p: Parse<seq<bytes>>): Parse<seq<bytes>> {
    match p
    case Done(more, rest) => Done(items + more, rest)
    case Refused(_, _) => p
  }

  function ItemEnd(item: bytes, s: bytes): (p: Parse<(bytes, bool)>)
    ensures p.Done? ==> |p.rest| < |s|
    ensures p.Refused? ==> p.left <= |s|
  {
    Map(Separator(s, SHUT_BRACKET), (more: bool) => (item, more))
  }

  /** One item, and whether more follow it. */
  function ItemTurn(s: bytes, raw: bool, depth: nat): (p: Parse<(bytes, bool)>)
    ensures p.Done? ==> |p.rest| < |s|
    ensures p.Refused? ==> p.left <= |s|
  {
    var item := ReadItem(Ws(s), raw, depth);
    if item.Refused? then Refused(item.word, item.left) else ItemEnd(item.value, item.rest)
  }

  /** The loop of strList and rawList: items up to the closing bracket. */
  function ReadItems(s: bytes, raw: bool, depth: nat): (p: Parse<seq<bytes>>)
    ensures p.Done? ==> |p.rest| < |s|
    ensures p.Refused? ==> p.left <= |s|
    decreases |s|
  {
    var t := ItemTurn(s, raw, depth);
    if t.Refused? then Refused(t.word, t.left)
    else if t.value.1 then Prepended([t.value.0], ReadItems(t.rest, raw, depth))
    else Done([t.value.0], t.rest)
  }

  /** strList and rawList */
  function ReadList(s: bytes, raw: bool, depth: nat): (p: Parse<seq<bytes>>)
    ensures p.Done? ==> |p.rest| < |s|
    ensures p.Refused? ==> p.left <= |s|
  {
    if Front(s) != OPEN_BRACKET then Refused("wrong_type", |s|)
    else if depth + 1 > DEPTH_LIMIT then Refused("depth_exceeded", |s|)
    else
      InsideList(Ws(s[1..]), raw, depth + 1)
  }

  function InsideList(s: bytes, raw: bool, depth: nat): (p: Parse<seq<bytes>>)
    ensures p.Done? ==> |p.rest| < |s|
    ensures p.Refused? ==> p.left <= |s|
  {
    if Front(s) == SHUT_BRACKET then Done([], s[1..]) else ReadItems(s, raw, depth)
  }

  function Map<T, U>(p: Parse<T>, f: T -> U): (q: Parse<U>) {
    match p
    case Done(v, rest) => Done(f(v), rest)
    case Refused(word, left) => Refused(word, left)
  }

  function ReadField(s: bytes, kind: Kind): (p: Parse<Field>)
    ensures p.Done? ==> |p.rest| <= |s|
    ensures p.Refused? ==> p.left <= |s|
  {
    match kind
    case StringKind => Map(Str(s), x => StringField(x))
    case NumberKind => Map(Integer(s, MIN_INT64, MAX_INT64), x => NumberField(x))
    case RawKind => Map(ReadItem(s, true, 1), x => RawField(x))
    case BoolKind => BoolAt(s)
    case RawsKind => Map(ReadList(s, true, 1), x => RawsField(x))
    case StringsKind => Map(ReadList(s, false, 1), x => StringsField(x))
  }

  function BoolAt(s: bytes): (p: Parse<Field>)
    ensures p.Done? ==> |p.rest| <= |s|
    ensures p.Refused? ==> p.left <= |s|
  {
    Map(Boolean(s), x => BoolField(x))
  }

  type Kinds = bytes -> Option<Kind>

  type Fields = map<bytes, Field>

  function NameAt(s: bytes): (p: Parse<bytes>)
    ensures p.Refused? ==> p.left <= |s|
    ensures p.Done? ==> |p.rest| <= |s|
  {
    var s0 := Ws(s);
    if Front(s0) != QUOTE then Refused("malformed", |s0|) else Str(s0)
  }

  function KeyAt(s: bytes): (p: Parse<bytes>)
    ensures p.Refused? ==> p.left <= |s|
    ensures p.Done? ==> |p.rest| < |s|
  {
    var key := NameAt(s);
    if key.Refused? then key
    else
      var colon := Colon(key.rest);
      if colon.Refused? then Refused(colon.word, colon.left) else Done(key.value, colon.rest)
  }

  /** The value of a member: kept under its key, refused if the key came before, or walked and dropped. */
  function ValueUnder(s: bytes, key: bytes, kinds: Kinds, fields: Fields): (p: Parse<Fields>)
    ensures p.Refused? ==> p.left <= |s|
    ensures p.Done? ==> |p.rest| <= |s|
  {
    if kinds(key).None? then
      var skipped := Value(s, 1);
      if skipped.Refused? then Refused(skipped.word, skipped.left) else Done(fields, skipped.rest)
    else if key in fields then Refused("duplicate_field", |s|)
    else
      var f := ReadField(s, kinds(key).value);
      if f.Refused? then Refused(f.word, f.left) else Done(fields[key := f.value], f.rest)
  }

  /** One member, added to the fields. */
  function OneMember(s: bytes, kinds: Kinds, fields: Fields): (p: Parse<Fields>)
    ensures p.Refused? ==> p.left <= |s|
    ensures p.Done? ==> |p.rest| < |s|
  {
    var key := KeyAt(s);
    if key.Refused? then Refused(key.word, key.left) else ValueUnder(key.rest, key.value, kinds, fields)
  }

  /** One member, and whether more follow it. */
  function MemberTurn(s: bytes, kinds: Kinds, fields: Fields): (p: Parse<(Fields, bool)>)
    ensures p.Refused? ==> p.left <= |s|
    ensures p.Done? ==> |p.rest| < |s|
  {
    var one := OneMember(s, kinds, fields);
    if one.Refused? then Refused(one.word, one.left)
    else Map(Separator(one.rest, SHUT_BRACE), (more: bool) => (one.value, more))
  }

  /** The loop of decodeRequest and decodeResponse: members from here on, added to those read. */
  function Members(s: bytes, kinds: Kinds, fields: Fields): (p: Parse<Fields>)
    ensures p.Refused? ==> p.left <= |s|
    ensures p.Done? ==> |p.rest| < |s|
    decreases |s|
  {
    var t := MemberTurn(s, kinds, fields);
    if t.Refused? then Refused(t.word, t.left)
    else if t.value.1 then Members(t.rest, kinds, t.value.0)
    else Done(t.value.0, t.rest)
  }

  function ObjectAt(s: bytes, kinds: Kinds): (p: Parse<Fields>)
    ensures p.Refused? ==> p.left <= |s|
    ensures p.Done? ==> |p.rest| < |s|
  {
    if Front(s) != OPEN_BRACE then Refused("wrong_type", |s|)
    else
      var r := Ws(s[1..]);
      if Front(r) == SHUT_BRACE then Done(map[], r[1..]) else Members(r, kinds, map[])
  }

  /** A whole message: the object, the member it cannot lack, and nothing after it. */
  function Decoded(s: bytes, kinds: Kinds, required: Option<bytes>): Parse<Fields> {
    var p := ObjectAt(Ws(s), kinds);
    if p.Refused? then p
    else Ended(p.value, p.rest, required)
  }

  function Ended(fields: Fields, s: bytes, required: Option<bytes>): Parse<Fields> {
    if required.Some? && required.value !in fields then Refused("missing_field", |s|)
    else if Ws(s) != [] then Refused("trailing_bytes", |Ws(s)|)
    else Done(fields, [])
  }

  // ----- Each field reads back -----

  lemma TakenWhole(a: bytes, t: bytes)
    ensures Taken(a + t, t) == a
  {
  }

  /** A flat value reads back as itself, and starts with no whitespace and no closing bracket. */
  lemma FlatReads(raw: bytes, depth: nat, t: bytes)
    requires Accepted(raw, depth) && Ends(t)
    ensures ReadItem(Flat(raw) + t, true, depth) == Done(Flat(raw), t)
    ensures !IsWs(Front(Flat(raw) + t)) && Front(Flat(raw) + t) != SHUT_BRACKET
  {
    var tree := TreeOf(raw, depth);
    AcceptedText(raw, depth, 0);
    CompactOk(tree, depth);
    ValueReads(Compact(tree), depth, t);
    SourceFront(Compact(tree), depth, t);
    TakenWhole(Flat(raw), t);
  }

  predicate ItemsSendable(items: seq<bytes>, raw: bool) {
    forall i | 0 <= i < |items| :: if raw then Accepted(items[i], 2) else ValidUtf8(items[i])
  }

  function FlatItems(items: seq<bytes>, raw: bool): (r: seq<bytes>)
    ensures |r| == |items|
  {
    if raw then FlatAll(items) else items
  }

  lemma EntryReads(item: bytes, raw: bool, t: bytes)
    requires if raw then Accepted(item, 2) else ValidUtf8(item)
    requires Ends(t)
    ensures ReadItem(EntryText(item, raw) + t, raw, 2) == Done(if raw then Flat(item) else item, t)
    ensures !IsWs(Front(EntryText(item, raw) + t)) && Front(EntryText(item, raw) + t) != SHUT_BRACKET
  {
    if raw {
      FlatReads(item, 2, t);
    } else {
      EscReadsBack(item, t);
    }
  }

  lemma ItemsEnd(s: bytes, raw: bool, item: bytes, t: bytes)
    requires !IsWs(Front(s)) && ReadItem(s, raw, 2) == Done(item, [SHUT_BRACKET] + t)
    ensures ReadItems(s, raw, 2) == Done([item], t)
  {
    WsStays(s);
    WsStays([SHUT_BRACKET] + t);
    assert ([SHUT_BRACKET] + t)[1..] == t;
  }

  lemma ItemsGoOn(s: bytes, raw: bool, item: bytes, x: bytes, more: seq<bytes>, t: bytes)
    requires !IsWs(Front(s)) && ReadItem(s, raw, 2) == Done(item, [COMMA] + x) && ReadItems(x, raw, 2) == Done(more, t)
    ensures ReadItems(s, raw, 2) == Done([item] + more, t)
  {
    WsStays(s);
    WsStays([COMMA] + x);
    assert ([COMMA] + x)[1..] == x;
  }

  lemma FlatItemsFirst(items: seq<bytes>, raw: bool)
    requires items != []
    ensures FlatItems(items, raw) == [if raw then Flat(items[0]) else items[0]] + FlatItems(items[1..], raw)
    ensures |items| == 1 ==> FlatItems(items, raw) == [if raw then Flat(items[0]) else items[0]]
  {
    assert items == [items[0]] + items[1..];
  }

  lemma {:induction false} ListReads(items: seq<bytes>, raw: bool, t: bytes)
    requires items != [] && ItemsSendable(items, raw)
    ensures ReadItems(ListBody(items, raw) + ([SHUT_BRACKET] + t), raw, 2) == Done(FlatItems(items, raw), t)
    ensures Front(ListBody(items, raw) + ([SHUT_BRACKET] + t)) != SHUT_BRACKET
    ensures !IsWs(Front(ListBody(items, raw) + ([SHUT_BRACKET] + t)))
    decreases |items|
  {
    var tail := [SHUT_BRACKET] + t;
    var text := EntryText(items[0], raw);
    var item := if raw then Flat(items[0]) else items[0];
    FlatItemsFirst(items, raw);
    if |items| == 1 {
      EntryReads(items[0], raw, tail);
      ItemsEnd(text + tail, raw, item, t);
    } else {
      var more := ListBody(items[1..], raw) + tail;
      ListReads(items[1..], raw, t);
      EntryReads(items[0], raw, [COMMA] + more);
      ItemsGoOn(text + ([COMMA] + more), raw, item, more, FlatItems(items[1..], raw), t);
      Assoc4(text, [COMMA], ListBody(items[1..], raw), tail);
    }
  }

  lemma ListReadsBack(items: seq<bytes>, raw: bool, t: bytes)
    requires items != [] && ItemsSendable(items, raw)
    ensures ReadList([OPEN_BRACKET] + ListBody(items, raw) + [SHUT_BRACKET] + t, raw, 1) == Done(FlatItems(items, raw), t)
  {
    var body := ListBody(items, raw) + ([SHUT_BRACKET] + t);
    ListReads(items, raw, t);
    Assoc4([OPEN_BRACKET], ListBody(items, raw), [SHUT_BRACKET], t);
    assert ([OPEN_BRACKET] + body)[1..] == body;
    WsStays(body);
  }

  lemma NumFront(n: int, t: bytes)
    requires -TWO63 <= n < TWO63
    ensures !IsWs(Front(Num(n) + t))
  {
    DecimalShape(Magnitude(n));
    assert Num(n) != [] && Front(Num(n) + t) == Num(n)[0];
  }

  lemma BoolReads(t: bytes)
    ensures BoolAt(TRUE + t) == Done(BoolField(true), t) && !IsWs(Front(TRUE + t))
  {
    assert (TRUE + t)[..4] == TRUE && (TRUE + t)[4..] == t;
  }

  lemma TextFieldReads(text: bytes, t: bytes)
    requires ValidUtf8(text)
    ensures ReadField(Esc(text) + t, StringKind) == Done(StringField(text), t) && !IsWs(Front(Esc(text) + t))
  {
    EscReadsBack(text, t);
  }

  lemma NumberFieldReads(number: int, t: bytes)
    requires -TWO63 <= number < TWO63 && Ends(t)
    ensures ReadField(Num(number) + t, NumberKind) == Done(NumberField(number), t) && !IsWs(Front(Num(number) + t))
  {
    NumReadsBack(number, t, MIN_INT64, MAX_INT64);
    NumFront(number, t);
  }

  lemma RawFieldReads(raw: bytes, t: bytes)
    requires Accepted(raw, 1) && Ends(t)
    ensures ReadField(Flat(raw) + t, RawKind) == Done(RawField(Flat(raw)), t) && !IsWs(Front(Flat(raw) + t))
  {
    FlatReads(raw, 1, t);
  }

  lemma BracketFront(body: bytes, t: bytes)
    ensures Front([OPEN_BRACKET] + body + [SHUT_BRACKET] + t) == OPEN_BRACKET
  {
    Assoc4([OPEN_BRACKET], body, [SHUT_BRACKET], t);
  }

  lemma ListKinds(s: bytes)
    ensures ReadField(s, RawsKind) == Map(ReadList(s, true, 1), x => RawsField(x))
    ensures ReadField(s, StringsKind) == Map(ReadList(s, false, 1), x => StringsField(x))
  {
  }

  lemma AnyListKindReads(items: seq<bytes>, raw: bool, s: bytes, t: bytes)
    requires ReadList(s, raw, 1) == Done(FlatItems(items, raw), t)
    ensures if raw then ReadField(s, RawsKind) == Done(RawsField(FlatAll(items)), t)
            else ReadField(s, StringsKind) == Done(StringsField(items), t)
  {
    ListKinds(s);
  }

  /** A written field reads back flattened. */
  lemma FieldReads(f: Field, always: bool, t: bytes)
    requires f.Sendable() && (always ==> f.StringField?) && (always || !f.Empty()) && Ends(t)
    ensures ReadField(FieldText(f) + t, f.Kind()) == Done(f.Flattened(), t) && !IsWs(Front(FieldText(f) + t))
  {
    match f
    case StringField(text) => TextFieldReads(text, t);
    case NumberField(number) => NumberFieldReads(number, t);
    case RawField(raw) => RawFieldReads(raw, t);
    case BoolField(yes) => BoolReads(t);
    case RawsField(raws) =>
      ListReadsBack(raws, true, t);
      AnyListKindReads(raws, true, FieldText(f) + t, t);
      BracketFront(ListBody(raws, true), t);
    case StringsField(texts) =>
      ListReadsBack(texts, false, t);
      AnyListKindReads(texts, false, FieldText(f) + t, t);
      BracketFront(ListBody(texts, false), t);
  }

  // ----- A whole message reads back -----

  lemma MemberText(s: Slot, x: bytes)
    requires s.field.Sendable()
    ensures Member(s) + x == Esc(s.key) + ([COLON] + (FieldText(s.field) + x))
    ensures ([COLON] + (FieldText(s.field) + x))[1..] == FieldText(s.field) + x
  {
    Assoc4(Esc(s.key), [COLON], FieldText(s.field), x);
  }

  lemma KeyReads(key: bytes, y: bytes)
    requires ValidUtf8(key) && !IsWs(Front(y))
    ensures KeyAt(Esc(key) + ([COLON] + y)) == Done(key, y)
  {
    var r := [COLON] + y;
    EscReadsBack(key, r);
    WsStays(Esc(key) + r);
    WsStays(r);
    assert r[1..] == y;
    WsStays(y);
  }

  /** One written member, followed by x, reads as its field, and the reading goes on after it. */
  lemma MemberReads(s: Slot, x: bytes, kinds: Kinds, fields: Fields, more: bool, rest: bytes)
    requires s.Valid() && s.Written() && Ends(x) && s.key !in fields && kinds(s.key) == Some(s.field.Kind())
    requires Separator(x, SHUT_BRACE) == Done(more, rest)
    ensures MemberTurn(Member(s) + x, kinds, fields) == Done((fields[s.key := s.field.Flattened()], more), rest)
  {
    OneMemberReads(s, x, kinds, fields);
  }

  lemma OneMemberReads(s: Slot, x: bytes, kinds: Kinds, fields: Fields)
    requires s.Valid() && s.Written() && Ends(x) && s.key !in fields && kinds(s.key) == Some(s.field.Kind())
    ensures OneMember(Member(s) + x, kinds, fields) == Done(fields[s.key := s.field.Flattened()], x)
  {
    var y := FieldText(s.field) + x;
    MemberText(s, x);
    FieldReads(s.field, s.always, x);
    KeyReads(s.key, y);
  }

  lemma MemberFront(s: Slot, x: bytes)
    requires s.field.Sendable()
    ensures Front(Member(s) + x) == QUOTE
  {
    MemberText(s, x);
  }

  predicate Distinct(slots: seq<Slot>) {
    forall i, j | 0 <= i < j < |slots| :: slots[i].key != slots[j].key
  }

  predicate KindsAgree(slots: seq<Slot>, kinds: Kinds) {
    forall i | 0 <= i < |slots| :: kinds(slots[i].key) == Some(slots[i].field.Kind())
  }

  /** The fields a message carries, added to those already read. */
  function Gathered(slots: seq<Slot>, fields: Fields): Fields {
    if slots == [] then fields
    else Gathered(slots[1..], if slots[0].Written() then fields[slots[0].key := slots[0].field.Flattened()] else fields)
  }

  predicate Unread(slots: seq<Slot>, fields: Fields) {
    forall i | 0 <= i < |slots| :: slots[i].key !in fields
  }

  lemma UnreadRest(slots: seq<Slot>, fields: Fields)
    requires slots != [] && Distinct(slots) && Unread(slots, fields)
    ensures Unread(slots[1..], fields) && Unread(slots[1..], fields[slots[0].key := slots[0].field.Flattened()])
    ensures Distinct(slots[1..])
  {
    forall i | 0 <= i < |slots[1..]| ensures slots[1..][i].key !in fields && slots[1..][i].key != slots[0].key {
      assert slots[1..][i] == slots[i + 1];
    }
    forall i, j | 0 <= i < j < |slots[1..]| ensures slots[1..][i].key != slots[1..][j].key {
      assert slots[1..][i] == slots[i + 1] && slots[1..][j] == slots[j + 1];
    }
  }

  lemma RestValid(slots: seq<Slot>, kinds: Kinds)
    requires slots != [] && AllValid(slots) && KindsAgree(slots, kinds)
    ensures AllValid(slots[1..]) && KindsAgree(slots[1..], kinds)
  {
  }

  predicate Readable(slots: seq<Slot>, kinds: Kinds, fields: Fields) {
    AllValid(slots) && Distinct(slots) && KindsAgree(slots, kinds) && Unread(slots, fields)
  }

  lemma ReadableRest(slots: seq<Slot>, kinds: Kinds, fields: Fields)
    requires slots != [] && Readable(slots, kinds, fields)
    ensures Readable(slots[1..], kinds, fields)
    ensures Readable(slots[1..], kinds, fields[slots[0].key := slots[0].field.Flattened()])
  {
    RestValid(slots, kinds);
    UnreadRest(slots, fields);
  }

  /** The slots from the first one written. */
  function Pending(slots: seq<Slot>): (rest: seq<Slot>)
    ensures |rest| <= |slots| && (rest != [] ==> rest[0].Written())
  {
    if slots == [] || slots[0].Written() then slots else Pending(slots[1..])
  }

  lemma {:induction false} PendingSame(slots: seq<Slot>, kinds: Kinds, fields: Fields, first: bool)
    requires Readable(slots, kinds, fields)
    ensures Readable(Pending(slots), kinds, fields)
    ensures Body(slots, first) == Body(Pending(slots), first) && Gathered(slots, fields) == Gathered(Pending(slots), fields)
    decreases |slots|
  {
    if slots != [] && !slots[0].Written() {
      ReadableRest(slots, kinds, fields);
      PendingSame(slots[1..], kinds, fields, first);
    }
  }

  /** After a member: the end of the object, or a comma and the next member written. */
  lemma NextSeparates(next: seq<Slot>, t: bytes)
    requires AllValid(next) && (next != [] ==> next[0].Written())
    ensures var x := Body(next, false) + ([SHUT_BRACE] + t);
            && Ends(x)
            && Separator(x, SHUT_BRACE) ==
               if next == [] then Done(false, t)
               else Done(true, Member(next[0]) + (Body(next[1..], false) + ([SHUT_BRACE] + t)))
  {
    var tail := [SHUT_BRACE] + t;
    if next == [] {
      assert Body(next, false) + tail == tail;
      WsStays(tail);
      assert tail[1..] == t;
    } else {
      var rest := Member(next[0]) + (Body(next[1..], false) + tail);
      Assoc4([COMMA], Member(next[0]), Body(next[1..], false), tail);
      WsStays([COMMA] + rest);
      assert ([COMMA] + rest)[1..] == rest;
    }
  }

  /** The members written, from one that is, read as the fields they carry. */
  lemma {:induction false} MembersRead(slots: seq<Slot>, kinds: Kinds, fields: Fields, t: bytes)
    requires Readable(slots, kinds, fields) && slots != [] && slots[0].Written()
    ensures Members(Member(slots[0]) + (Body(slots[1..], false) + ([SHUT_BRACE] + t)), kinds, fields)
            == Done(Gathered(slots, fields), t)
    decreases |slots|
  {
    var filled := fields[slots[0].key := slots[0].field.Flattened()];
    var next := Pending(slots[1..]);
    ReadableRest(slots, kinds, fields);
    PendingSame(slots[1..], kinds, filled, false);
    NextSeparates(next, t);
    var x := Body(next, false) + ([SHUT_BRACE] + t);
    if next == [] {
      MemberReads(slots[0], x, kinds, fields, false, t);
    } else {
      var rest := Member(next[0]) + (Body(next[1..], false) + ([SHUT_BRACE] + t));
      MemberReads(slots[0], x, kinds, fields, true, rest);
      MembersRead(next, kinds, filled, t);
    }
  }

  /** What the whole text of a message reads as. */
  lemma FirstReads(slots: seq<Slot>, kinds: Kinds, t: bytes)
    requires Readable(slots, kinds, map[])
    ensures var x := Body(slots, true) + ([SHUT_BRACE] + t);
            if Pending(slots) == [] then x == [SHUT_BRACE] + t && Gathered(slots, map[]) == map[]
            else Front(x) == QUOTE && Members(x, kinds, map[]) == Done(Gathered(slots, map[]), t)
  {
    var tail := [SHUT_BRACE] + t;
    var next := Pending(slots);
    PendingSame(slots, kinds, map[], true);
    if next == [] {
      assert Body(next, true) + tail == tail;
    } else {
      MembersRead(next, kinds, map[], t);
      MemberFront(next[0], Body(next[1..], false) + tail);
      Assoc4([], Member(next[0]), Body(next[1..], false), tail);
      Nothing(Member(next[0]) + (Body(next[1..], false) + tail));
    }
  }

  /** Decoding what was encoded gives every written field, flattened, whatever follows. */
  lemma EncodedReads(slots: seq<Slot>, kinds: Kinds, w: bytes)
    requires AllValid(slots) && Distinct(slots) && KindsAgree(slots, kinds)
    ensures ObjectAt(Ws(Encoded(slots) + w), kinds) == Done(Gathered(slots, map[]), w)
  {
    var x := Body(slots, true) + ([SHUT_BRACE] + w);
    Assoc4([OPEN_BRACE], Body(slots, true), [SHUT_BRACE], w);
    WsStays(Encoded(slots) + w);
    assert ([OPEN_BRACE] + x)[1..] == x;
    FirstReads(slots, kinds, w);
    WsStays(x);
    assert ([SHUT_BRACE] + w)[1..] == w;
  }

  /** The same for the whole message: refused if it lacks the member it cannot lack, or if more than whitespace follows. */
  lemma MessageIs(slots: seq<Slot>, kinds: Kinds, required: Option<bytes>, w: bytes)
    requires AllValid(slots) && Distinct(slots) && KindsAgree(slots, kinds)
    ensures var g := Gathered(slots, map[]);
            Decoded(Encoded(slots) + w, kinds, required) ==
              if required.Some? && required.value !in g then Refused("missing_field", |w|)
              else if Ws(w) == [] then Done(g, [])
              else Refused("trailing_bytes", |Ws(w)|)
  {
    EncodedReads(slots, kinds, w);
  }

  lemma MessageReads(slots: seq<Slot>, kinds: Kinds, required: Option<bytes>, w: bytes)
    requires AllValid(slots) && Distinct(slots) && KindsAgree(slots, kinds) && AllWs(w)
    requires required.Some? ==> required.value in Gathered(slots, map[])
    ensures Decoded(Encoded(slots) + w, kinds, required) == Done(Gathered(slots, map[]), [])
  {
    MessageIs(slots, kinds, required, w);
    WsSkips(w, []);
    assert w + [] == w;
  }

  /** A member nobody knows is walked and dropped, whatever accepted value it has. */
  lemma UnknownIsDropped(key: bytes, raw: bytes, x: bytes, kinds: Kinds, fields: Fields, more: bool, rest: bytes)
    requires ValidUtf8(key) && kinds(key).None? && Accepted(raw, 1) && Ends(x) && Separator(x, SHUT_BRACE) == Done(more, rest)
    ensures MemberTurn(Esc(key) + ([COLON] + (raw + x)), kinds, fields) == Done((fields, more), rest)
  {
    var tree := TreeOf(raw, 1);
    AcceptedText(raw, 1, 0);
    ValueReads(tree, 1, x);
    ValueFront(raw + x, 1);
    KeyReads(key, raw + x);
  }

  lemma ValueFront(s: bytes, depth: nat)
    requires Value(s, depth).Done?
    ensures !IsWs(Front(s))
  {
  }

  /** A known member that comes twice is refused. */
  lemma RepeatIsRefused(s: Slot, kinds: Kinds, required: Option<bytes>, t: bytes)
    requires s.Valid() && s.Written() && kinds(s.key) == Some(s.field.Kind())
    ensures var p := Decoded([OPEN_BRACE] + (Member(s) + ([COMMA] + (Member(s) + t))), kinds, required);
            p.Refused? && p.word == "duplicate_field"
  {
    var again := Member(s) + t;
    var first := Member(s) + ([COMMA] + again);
    SecondIsRefused(s, kinds, t);
    MemberFront(s, t);
    MemberFront(s, [COMMA] + again);
    WsStays([COMMA] + again);
    assert ([COMMA] + again)[1..] == again && ([OPEN_BRACE] + first)[1..] == first;
    MemberReads(s, [COMMA] + again, kinds, map[], true, again);
    WsStays(first);
    WsStays([OPEN_BRACE] + first);
  }

  lemma SecondIsRefused(s: Slot, kinds: Kinds, t: bytes)
    requires s.Valid() && s.Written() && kinds(s.key) == Some(s.field.Kind())
    ensures var p := Members(Member(s) + t, kinds, map[s.key := s.field.Flattened()]);
            p.Refused? && p.word == "duplicate_field"
  {
    FieldFront(s.field, s.always, t);
    MemberText(s, t);
    KeyReads(s.key, FieldText(s.field) + t);
  }

  lemma FieldFront(f: Field, always: bool, t: bytes)
    requires f.Sendable() && (always ==> f.StringField?) && (always || !f.Empty())
    ensures !IsWs(Front(FieldText(f) + t))
  {
    FieldReads(f, always, []);
    assert FieldText(f) + [] == FieldText(f);
  }

  // ----- One line -----

  lemma EscPrints(s: bytes)
    ensures Printable(Esc(s))
  {
    EscIsPrintable(s);
    forall i | 0 <= i < |Esc(s)| ensures Esc(s)[i] >= 0x20 {
      assert Esc(s)[i] in Esc(s);
    }
  }

  lemma {:induction false} ListIsOneLine(items: seq<bytes>, raw: bool)
    requires ItemsSendable(items, raw)
    ensures Printable(ListBody(items, raw))
    decreases |items|
  {
    if items != [] {
      if raw {
        FlatIsOneLine(items[0], 2);
      } else {
        EscPrints(items[0]);
      }
      ListIsOneLine(items[1..], raw);
    }
  }

  lemma FieldIsOneLine(f: Field)
    requires f.Sendable()
    ensures Printable(FieldText(f))
  {
    match f
    case StringField(text) => EscPrints(text);
    case NumberField(number) => DecimalShape(Magnitude(number));
    case RawField(raw) =>
      if raw != [] {
        FlatIsOneLine(raw, 1);
      }
    case BoolField(yes) =>
    case RawsField(raws) => ListIsOneLine(raws, true);
    case StringsField(texts) => ListIsOneLine(texts, false);
  }

  lemma {:induction false} BodyIsOneLine(slots: seq<Slot>, first: bool)
    requires AllValid(slots)
    ensures Printable(Body(slots, first))
    decreases |slots|
  {
    if slots != [] {
      BodyIsOneLine(slots[1..], first);
      BodyIsOneLine(slots[1..], false);
      EscPrints(slots[0].key);
      FieldIsOneLine(slots[0].field);
    }
  }

  /** A message is one line: it holds no control byte, so no newline. */
  lemma EncodedIsOneLine(slots: seq<Slot>)
    requires AllValid(slots)
    ensures Printable(Encoded(slots)) && NEWLINE !in Encoded(slots)
  {
    BodyIsOneLine(slots, true);
  }

  /** One-line framing is unambiguous: the line up to the first newline is the message that was sent. */
  lemma FramingIsUnambiguous(a: bytes, x: bytes, b: bytes, y: bytes)
    requires NEWLINE !in a && NEWLINE !in b && a + [NEWLINE] + x == b + [NEWLINE] + y
    ensures a == b && x == y
  {
    var s := a + [NEWLINE] + x;
    assert s[|a|] == NEWLINE && s[|b|] == NEWLINE;
    assert forall i | 0 <= i < |a| :: s[i] == a[i] && s[i] != NEWLINE;
    assert forall i | 0 <= i < |b| :: s[i] == b[i] && s[i] != NEWLINE;
    assert s[..|a|] == a && s[..|b|] == b;
    assert s[|a| + 1..] == x && s[|b| + 1..] == y;
  }

  // ----- Finding a field again -----

  lemma {:induction false} GatheredKeeps(slots: seq<Slot>, fields: Fields, key: bytes)
    requires forall i | 0 <= i < |slots| :: slots[i].key != key
    ensures (key in Gathered(slots, fields) <==> key in fields)
    ensures key in fields ==> Gathered(slots, fields)[key] == fields[key]
    decreases |slots|
  {
    if slots != [] {
      assert slots[0].key != key;
      forall i | 0 <= i < |slots[1..]| ensures slots[1..][i].key != key {
        assert slots[1..][i] == slots[i + 1];
      }
      GatheredKeeps(slots[1..], if slots[0].Written() then fields[slots[0].key := slots[0].field.Flattened()] else fields, key);
    }
  }

  /** A field a message carries is found under its key; one it omits is not found. */
  lemma {:induction false} GatheredFinds(slots: seq<Slot>, fields: Fields, i: nat)
    requires i < |slots| && Distinct(slots) && Unread(slots, fields)
    ensures var g := Gathered(slots, fields);
            if slots[i].Written() then slots[i].key in g && g[slots[i].key] == slots[i].field.Flattened()
            else slots[i].key !in g
    decreases |slots|
  {
    var next := if slots[0].Written() then fields[slots[0].key := slots[0].field.Flattened()] else fields;
    UnreadRest(slots, fields);
    if i == 0 {
      forall k | 0 <= k < |slots[1..]| ensures slots[1..][k].key != slots[0].key {
        assert slots[1..][k] == slots[k + 1];
      }
      GatheredKeeps(slots[1..], next, slots[0].key);
    } else {
      GatheredFinds(slots[1..], next, i - 1);
      assert slots[1..][i - 1] == slots[i];
    }
  }

  /** The field under a key, or its empty value. */
  function Get(fields: Fields, key: bytes, empty: Field): Field {
    if key in fields then fields[key] else empty
  }

  function EmptyOf(k: Kind): Field {
    match k
    case StringKind => StringField([])
    case NumberKind => NumberField(0)
    case RawKind => RawField([])
    case BoolKind => BoolField(false)
    case RawsKind => RawsField([])
    case StringsKind => StringsField([])
  }

  lemma EmptyFlattens(f: Field)
    requires f.Empty()
    ensures f.Flattened() == EmptyOf(f.Kind())
  {
  }

  lemma GetGathered(slots: seq<Slot>, i: nat)
    requires i < |slots| && Distinct(slots)
    ensures Get(Gathered(slots, map[]), slots[i].key, EmptyOf(slots[i].field.Kind())) == slots[i].field.Flattened()
  {
    GatheredFinds(slots, map[], i);
    if !slots[i].Written() {
      EmptyFlattens(slots[i].field);
    }
  }

  // ----- Keys -----

  predicate Ascii(s: string) {
    forall i | 0 <= i < |s| :: 0x20 <= s[i] as int < 0x80
  }

  /** A key as bytes. */
  function Key(s: string): (b: bytes)
    requires Ascii(s)
    ensures |b| == |s| && forall i | 0 <= i < |s| :: b[i] == s[i] as int
  {
    seq(|s|, i requires 0 <= i < |s| => s[i] as int)
  }

  lemma {:induction false} AsciiIsUtf8(b: bytes)
    requires forall i | 0 <= i < |b| :: b[i] < 0x80
    ensures ValidUtf8(b)
  {
    if b != [] {
      AsciiIsUtf8(b[1..]);
    }
  }

  lemma KeyIsInjective(a: string, b: string)
    requires Ascii(a) && Ascii(b) && Key(a) == Key(b)
    ensures a == b
  {
    forall i | 0 <= i < |a| ensures a[i] == b[i] {
      assert Key(a)[i] == Key(b)[i];
    }
  }

  lemma KeysDiffer(a: string, b: string)
    requires Ascii(a) && Ascii(b) && a != b
    ensures Key(a) != Key(b)
  {
    if Key(a) == Key(b) {
      KeyIsInjective(a, b);
    }
  }
}
