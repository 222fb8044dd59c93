/** The two messages of the wire, member by member, and the loops that write and read them. */
module Messages {
  import opened Options
  import opened Bytes
  import opened Text
  import opened Numbers
  import opened OpaqueJson
  import opened Reflow
  import opened RecordReader
  import opened Wire

  // ----- Tables of members -----

  predicate AllAscii(keys: seq<string>) {
    forall i | 0 <= i < |keys| :: Ascii(keys[i])
  }

  /** The kind a key has in a table, searched from the front. */
  function Lookup(keys: seq<string>, kinds: seq<Kind>, key: bytes): Option<Kind>
    requires AllAscii(keys) && |keys| == |kinds|
  {
    if keys == [] then None
    else if Key(keys[0]) == key then Some(kinds[0])
    else Lookup(keys[1..], kinds[1..], key)
  }

  predicate AllDifferent(keys: seq<string>) {
    forall i, j | 0 <= i < j < |keys| :: keys[i] != keys[j]
  }

  lemma {:induction false} LookupFinds(keys: seq<string>, kinds: seq<Kind>, i: nat)
    requires AllAscii(keys) && AllDifferent(keys) && |keys| == |kinds| && i < |keys|
    ensures Lookup(keys, kinds, Key(keys[i])) == Some(kinds[i])
    decreases |keys|
  {
    if i > 0 {
      KeysDiffer(keys[0], keys[i]);
      assert keys[1..][i - 1] == keys[i] && kinds[1..][i - 1] == kinds[i];
      LookupFinds(keys[1..], kinds[1..], i - 1);
    }
  }

  const REQUEST_KEYS: seq<string> := ["op", "id", "owner", "epoch", "ttl_ms", "want", "by", "reason", "record", "base"]
  const REQUEST_KINDS: seq<Kind> :=
    [StringKind, StringKind, StringKind, NumberKind, NumberKind, StringKind, StringKind, StringKind, RawKind, RawKind]

  const RESPONSE_KEYS: seq<string> := ["kind", "error", "id", "record", "records", "bool", "unreadable"]
  const RESPONSE_KINDS: seq<Kind> := [StringKind, StringKind, StringKind, RawKind, RawsKind, BoolKind, StringsKind]

  lemma RequestKeysDiffer()
    ensures AllAscii(REQUEST_KEYS) && AllDifferent(REQUEST_KEYS) && |REQUEST_KEYS| == |REQUEST_KINDS| == 10
  {
    var k := REQUEST_KEYS;
    assert k[0][0] == 'o' && k[0][1] == 'p';
    assert k[1][0] == 'i';
    assert k[2][0] == 'o' && k[2][1] == 'w';
    assert k[3][0] == 'e' && k[4][0] == 't' && k[5][0] == 'w';
    assert k[6][0] == 'b' && k[6][1] == 'y';
    assert k[7][0] == 'r' && k[7][2] == 'a' && k[8][0] == 'r' && k[8][2] == 'c';
    assert k[9][0] == 'b' && k[9][1] == 'a';
  }

  lemma ResponseKeysDiffer()
    ensures AllAscii(RESPONSE_KEYS) && AllDifferent(RESPONSE_KEYS) && |RESPONSE_KEYS| == |RESPONSE_KINDS| == 7
  {
    var k := RESPONSE_KEYS;
    assert k[0][0] == 'k' && k[1][0] == 'e' && k[2][0] == 'i' && k[3][0] == 'r' && k[4][0] == 'r' && k[5][0] == 'b' && k[6][0] == 'u';
    assert |k[3]| == 6 && |k[4]| == 7;
  }

  function RequestKind(key: bytes): Option<Kind> {
    RequestKeysDiffer();
    Lookup(REQUEST_KEYS, REQUEST_KINDS, key)
  }

  function ResponseKind(key: bytes): Option<Kind> {
    ResponseKeysDiffer();
    Lookup(RESPONSE_KEYS, RESPONSE_KINDS, key)
  }

  /** Fields in the order of a table, the first `always` of them written whether empty or not. */
  function InTable(keys: seq<string>, fields: seq<Field>, always: nat): (slots: seq<Slot>)
    requires AllAscii(keys) && |keys| == |fields|
    ensures |slots| == |keys|
    ensures forall i | 0 <= i < |slots| :: slots[i] == Slot(Key(keys[i]), fields[i], i < always)
  {
    seq(|keys|, i requires 0 <= i < |keys| => Slot(Key(keys[i]), fields[i], i < always))
  }

  lemma SlotsAreDistinct(keys: seq<string>, fields: seq<Field>, always: nat)
    requires AllAscii(keys) && AllDifferent(keys) && |keys| == |fields|
    ensures Distinct(InTable(keys, fields, always))
  {
    var slots := InTable(keys, fields, always);
    forall i, j | 0 <= i < j < |slots| ensures slots[i].key != slots[j].key {
      KeysDiffer(keys[i], keys[j]);
    }
  }

  lemma SlotsAreValid(keys: seq<string>, fields: seq<Field>, always: nat)
    requires AllAscii(keys) && |keys| == |fields|
    requires forall i | 0 <= i < |fields| :: fields[i].Sendable() && (i < always ==> fields[i].StringField?)
    ensures AllValid(InTable(keys, fields, always))
  {
    var slots := InTable(keys, fields, always);
    forall i | 0 <= i < |slots| ensures slots[i].Valid() {
      AsciiIsUtf8(Key(keys[i]));
    }
  }

  // ----- Requests -----

  datatype Request = Request(op: bytes, id: bytes, owner: bytes, epoch: int, ttlMs: int, want: bytes, asker: bytes, reason: bytes,
                             record: bytes, base: bytes)
  {
    function Fields(): (f: seq<Field>)
      ensures |f| == 10
    {
      [StringField(op), StringField(id), StringField(owner), NumberField(epoch), NumberField(ttlMs), StringField(want),
       StringField(asker), StringField(reason), RawField(record), RawField(base)]
    }

    /** Valid UTF-8, int64 numbers, and opaque members the reader accepts. */
    predicate Sendable() {
      forall i | 0 <= i < 10 :: Fields()[i].Sendable()
    }

    function Flattened(): Request {
      this.(record := Flat(record), base := Flat(base))
    }

    function Slots(): seq<Slot> {
      RequestKeysDiffer();
      InTable(REQUEST_KEYS, Fields(), 1)
    }
  }

  function TextOf(f: Field): bytes {
    match f
    case StringField(text) => text
    case RawField(raw) => raw
    case _ => []
  }

  function NumberOf(f: Field): int {
    if f.NumberField? then f.number else 0
  }

  function ListOf(f: Field): seq<bytes> {
    match f
    case RawsField(raws) => raws
    case StringsField(texts) => texts
    case _ => []
  }

  /** The i-th field of a table among those read, or its empty value. */
  function FieldAt(fields: Fields, keys: seq<string>, kinds: seq<Kind>, i: nat): Field
    requires AllAscii(keys) && i < |keys| == |kinds|
  {
    Get(fields, Key(keys[i]), EmptyOf(kinds[i]))
  }

  /** The fields of a table among those read, empty where none was. */
  function Table(g: Fields, keys: seq<string>, kinds: seq<Kind>): (t: seq<Field>)
    requires AllAscii(keys) && |keys| == |kinds|
    ensures |t| == |keys|
  {
    seq(|keys|, i requires 0 <= i < |keys| => FieldAt(g, keys, kinds, i))
  }

  function FromTable(t: seq<Field>): Request
    requires |t| == 10
  {
    Request(TextOf(t[0]), TextOf(t[1]), TextOf(t[2]), NumberOf(t[3]), NumberOf(t[4]), TextOf(t[5]), TextOf(t[6]), TextOf(t[7]),
            TextOf(t[8]), TextOf(t[9]))
  }

  function ToRequest(g: Fields): Request {
    RequestKeysDiffer();
    FromTable(Table(g, REQUEST_KEYS, REQUEST_KINDS))
  }

  lemma RequestFieldKinds(v: Request)
    ensures forall i | 0 <= i < 10 :: v.Fields()[i].Kind() == REQUEST_KINDS[i]
  {
    var f, k := v.Fields(), REQUEST_KINDS;
    assert f[0].Kind() == k[0] && f[1].Kind() == k[1] && f[2].Kind() == k[2] && f[3].Kind() == k[3] && f[4].Kind() == k[4];
    assert f[5].Kind() == k[5] && f[6].Kind() == k[6] && f[7].Kind() == k[7] && f[8].Kind() == k[8] && f[9].Kind() == k[9];
  }

  lemma RequestSlots(v: Request)
    requires v.Sendable()
    ensures AllValid(v.Slots()) && Distinct(v.Slots()) && KindsAgree(v.Slots(), RequestKind)
  {
    RequestKeysDiffer();
    SlotsAreDistinct(REQUEST_KEYS, v.Fields(), 1);
    SlotsAreValid(REQUEST_KEYS, v.Fields(), 1);
    RequestFieldKinds(v);
    forall i | 0 <= i < 10 ensures RequestKind(v.Slots()[i].key) == Some(v.Slots()[i].field.Kind()) {
      LookupFinds(REQUEST_KEYS, REQUEST_KINDS, i);
    }
  }

  function EncodeRequest(v: Request): bytes
    requires v.Sendable()
  {
    RequestSlots(v);
    Encoded(v.Slots())
  }

  function DecodeRequest(s: bytes): Parse<Request> {
    RequestKeysDiffer();
    Map(Decoded(s, RequestKind, Some(Key("op"))), ToRequest)
  }

  /** Every field of a table is found again, flattened. */
  lemma TableReads(keys: seq<string>, kinds: seq<Kind>, fields: seq<Field>, always: nat, i: nat)
    requires AllAscii(keys) && AllDifferent(keys) && i < |keys| == |kinds| == |fields| && fields[i].Kind() == kinds[i]
    ensures FieldAt(Gathered(InTable(keys, fields, always), map[]), keys, kinds, i) == fields[i].Flattened()
  {
    SlotsAreDistinct(keys, fields, always);
    GetGathered(InTable(keys, fields, always), i);
  }

  /** A request read back is the request sent, with its opaque members in flat form, for all valid UTF-8 strings, all
      int64 numbers and all opaque values the reader accepts; trailing whitespace does not matter. */
  lemma RequestRoundTrip(v: Request, w: bytes)
    requires v.Sendable() && AllWs(w)
    ensures DecodeRequest(EncodeRequest(v) + w) == Done(v.Flattened(), [])
  {
    RequestSlots(v);
    RequestKeysDiffer();
    GatheredFinds(v.Slots(), map[], 0);
    MessageReads(v.Slots(), RequestKind, Some(Key("op")), w);
    RequestOf(v, Gathered(v.Slots(), map[]));
  }

  /** A member is on the wire exactly when its field is not empty; a request's op always is. */
  lemma RequestMembers(v: Request, w: bytes) returns (g: Fields)
    requires v.Sendable() && AllWs(w)
    ensures Decoded(EncodeRequest(v) + w, RequestKind, Some(Key("op"))) == Done(g, [])
    ensures |v.Slots()| == 10
    ensures forall i | 0 <= i < 10 :: v.Slots()[i].key in g <==> i == 0 || v.Fields()[i] != EmptyOf(v.Fields()[i].Kind())
  {
    RequestSlots(v);
    GatheredFinds(v.Slots(), map[], 0);
    MessageReads(v.Slots(), RequestKind, Some(Key("op")), w);
    g := Gathered(v.Slots(), map[]);
    forall i | 0 <= i < 10 ensures v.Slots()[i].key in g <==> i == 0 || v.Fields()[i] != EmptyOf(v.Fields()[i].Kind()) {
      GatheredFinds(v.Slots(), map[], i);
      EmptyIs(v.Fields()[i]);
    }
  }

  lemma EmptyIs(f: Field)
    ensures f.Empty() <==> f == EmptyOf(f.Kind())
  {
  }

  lemma RequestOf(v: Request, g: Fields)
    requires g == Gathered(v.Slots(), map[])
    ensures ToRequest(g) == v.Flattened()
  {
    RequestKeysDiffer();
    var t := Table(g, REQUEST_KEYS, REQUEST_KINDS);
    forall i | 0 <= i < 10 ensures t[i] == v.Fields()[i].Flattened() {
      TableReads(REQUEST_KEYS, REQUEST_KINDS, v.Fields(), 1, i);
    }
    RequestFromTable(v, t);
  }

  lemma RequestFromTable(v: Request, t: seq<Field>)
    requires |t| == 10 && forall i | 0 <= i < 10 :: t[i] == v.Fields()[i].Flattened()
    ensures FromTable(t) == v.Flattened()
  {
    assert t[8] == v.Fields()[8].Flattened() && t[9] == v.Fields()[9].Flattened();
  }

  // ----- Responses -----

  datatype Response = Response(kind: bytes, error: bytes, id: bytes, record: bytes, records: seq<bytes>, yes: bool,
                               unreadable: seq<bytes>)
  {
    function Fields(): (f: seq<Field>)
      ensures |f| == 7
    {
      [StringField(kind), StringField(error), StringField(id), RawField(record), RawsField(records), BoolField(yes),
       StringsField(unreadable)]
    }

    predicate Sendable() {
      forall i | 0 <= i < 7 :: Fields()[i].Sendable()
    }

    function Flattened(): Response {
      this.(record := Flat(record), records := FlatAll(records))
    }

    function Slots(): seq<Slot> {
      ResponseKeysDiffer();
      InTable(RESPONSE_KEYS, Fields(), 0)
    }
  }

  function ResponseFromTable(t: seq<Field>): Response
    requires |t| == 7
  {
    Response(TextOf(t[0]), TextOf(t[1]), TextOf(t[2]), TextOf(t[3]), ListOf(t[4]), t[5] == BoolField(true), ListOf(t[6]))
  }

  function ToResponse(g: Fields): Response {
    ResponseKeysDiffer();
    ResponseFromTable(Table(g, RESPONSE_KEYS, RESPONSE_KINDS))
  }

  lemma ResponseFieldKinds(v: Response)
    ensures forall i | 0 <= i < 7 :: v.Fields()[i].Kind() == RESPONSE_KINDS[i]
  {
    var f, k := v.Fields(), RESPONSE_KINDS;
    assert f[0].Kind() == k[0] && f[1].Kind() == k[1] && f[2].Kind() == k[2] && f[3].Kind() == k[3];
    assert f[4].Kind() == k[4] && f[5].Kind() == k[5] && f[6].Kind() == k[6];
  }

  lemma ResponseSlots(v: Response)
    requires v.Sendable()
    ensures AllValid(v.Slots()) && Distinct(v.Slots()) && KindsAgree(v.Slots(), ResponseKind)
  {
    ResponseKeysDiffer();
    SlotsAreDistinct(RESPONSE_KEYS, v.Fields(), 0);
    SlotsAreValid(RESPONSE_KEYS, v.Fields(), 0);
    ResponseFieldKinds(v);
    forall i | 0 <= i < 7 ensures ResponseKind(v.Slots()[i].key) == Some(v.Slots()[i].field.Kind()) {
      LookupFinds(RESPONSE_KEYS, RESPONSE_KINDS, i);
    }
  }

  function EncodeResponse(v: Response): bytes
    requires v.Sendable()
  {
    ResponseSlots(v);
    Encoded(v.Slots())
  }

  function DecodeResponse(s: bytes): Parse<Response> {
    Map(Decoded(s, ResponseKind, None), ToResponse)
  }

  lemma ResponseMembers(v: Response, w: bytes) returns (g: Fields)
    requires v.Sendable() && AllWs(w)
    ensures Decoded(EncodeResponse(v) + w, ResponseKind, None) == Done(g, [])
    ensures |v.Slots()| == 7
    ensures forall i | 0 <= i < 7 :: v.Slots()[i].key in g <==> v.Fields()[i] != EmptyOf(v.Fields()[i].Kind())
  {
    ResponseSlots(v);
    MessageReads(v.Slots(), ResponseKind, None, w);
    g := Gathered(v.Slots(), map[]);
    forall i | 0 <= i < 7 ensures v.Slots()[i].key in g <==> v.Fields()[i] != EmptyOf(v.Fields()[i].Kind()) {
      GatheredFinds(v.Slots(), map[], i);
      EmptyIs(v.Fields()[i]);
    }
  }

  /** A response read back is the response sent, with its opaque members in flat form. */
  lemma ResponseRoundTrip(v: Response, w: bytes)
    requires v.Sendable() && AllWs(w)
    ensures DecodeResponse(EncodeResponse(v) + w) == Done(v.Flattened(), [])
  {
    ResponseSlots(v);
    MessageReads(v.Slots(), ResponseKind, None, w);
    ResponseOf(v, Gathered(v.Slots(), map[]));
  }

  lemma ResponseOf(v: Response, g: Fields)
    requires g == Gathered(v.Slots(), map[])
    ensures ToResponse(g) == v.Flattened()
  {
    ResponseKeysDiffer();
    var t := Table(g, RESPONSE_KEYS, RESPONSE_KINDS);
    forall i | 0 <= i < 7 ensures t[i] == v.Fields()[i].Flattened() {
      TableReads(RESPONSE_KEYS, RESPONSE_KINDS, v.Fields(), 0, i);
    }
  }

  /** Each message is one line, so the newline that ends it frames it. */
  lemma MessagesAreLines(v: Request, u: Response)
    requires v.Sendable() && u.Sendable()
    ensures NEWLINE !in EncodeRequest(v) && NEWLINE !in EncodeResponse(u)
  {
    RequestSlots(v);
    ResponseSlots(u);
    EncodedIsOneLine(v.Slots());
    EncodedIsOneLine(u.Slots());
  }

  // ----- The source's own loops -----

  /** What is still to be written of a list once i items are. */
  function Unwritten(items: seq<bytes>, i: nat, raw: bool): bytes
    requires i <= |items|
  {
    if i == |items| then [] else (if i > 0 then [COMMA] else []) + ListBody(items[i..], raw)
  }

  lemma UnwrittenNext(items: seq<bytes>, i: nat, raw: bool)
    requires i < |items|
    ensures Unwritten(items, i, raw) == (if i > 0 then [COMMA] else []) + (EntryText(items[i], raw) + Unwritten(items, i + 1, raw))
  {
    var rest := items[i..];
    assert rest[0] == items[i] && rest[1..] == items[i + 1..];
    if |rest| > 1 {
      Assoc3(EntryText(items[i], raw), [COMMA], ListBody(rest[1..], raw));
    }
  }

  method WriteList(items: seq<bytes>, raw: bool) returns (out: bytes)
    ensures out == [OPEN_BRACKET] + ListBody(items, raw) + [SHUT_BRACKET]
  {
    var body: bytes := [];
    assert items[0..] == items;
    for i := 0 to |items|
      invariant ListBody(items, raw) == body + Unwritten(items, i, raw)
    {
      UnwrittenNext(items, i, raw);
      var text: bytes;
      if raw {
        text := RawFlat(items[i]);
      } else {
        text := WriteString(items[i]);
      }
      Assoc4(body, if i > 0 then [COMMA] else [], text, Unwritten(items, i + 1, raw));
      body := body + (if i > 0 then [COMMA] else []) + text;
    }
    out := [OPEN_BRACKET] + body + [SHUT_BRACKET];
  }

  method WriteField(f: Field) returns (out: bytes)
    requires f.Sendable()
    ensures out == FieldText(f)
  {
    match f
    case StringField(text) => out := WriteString(text);
    case NumberField(number) => out := NumInto(number);
    case RawField(raw) => out := RawFlat(raw);
    case BoolField(yes) => out := if yes then TRUE else FALSE;
    case RawsField(raws) => out := WriteList(raws, true);
    case StringsField(texts) => out := WriteList(texts, false);
  }

  method WriteMember(s: Slot) returns (out: bytes)
    requires s.Valid()
    ensures out == Member(s)
  {
    var text := WriteField(s.field);
    var key := WriteString(s.key);
    out := key + [COLON] + text;
  }

  lemma BodyNext(out: bytes, slots: seq<Slot>, i: nat, first: bool)
    requires i < |slots| && AllValid(slots)
    ensures var comma: bytes := if first then [] else [COMMA];
            out + Body(slots[i..], first)
            == if slots[i].Written() then (out + comma + Member(slots[i])) + Body(slots[i + 1..], false)
               else out + Body(slots[i + 1..], first)
  {
    assert slots[i..][0] == slots[i] && slots[i..][1..] == slots[i + 1..];
    if slots[i].Written() {
      Assoc4(out, if first then [] else [COMMA], Member(slots[i]), Body(slots[i + 1..], false));
      Assoc3(if first then [] else [COMMA], Member(slots[i]), Body(slots[i + 1..], false));
    }
  }

  /** The members of a message, one after the other, with a comma before all but the first written. */
  method WriteMembers(slots: seq<Slot>) returns (out: bytes)
    requires AllValid(slots)
    ensures out == Encoded(slots)
  {
    out := [OPEN_BRACE];
    var first := true;
    for i := 0 to |slots|
      invariant [OPEN_BRACE] + Body(slots, true) == out + Body(slots[i..], first)
    {
      BodyNext(out, slots, i, first);
      if slots[i].Written() {
        var member := WriteMember(slots[i]);
        out := out + (if first then [] else [COMMA]) + member;
        first := false;
      }
    }
    assert slots[|slots|..] == [];
    out := out + [SHUT_BRACE];
  }

  /** encWireRequest */
  method EncWireRequest(v: Request) returns (out: bytes)
    requires v.Sendable()
    ensures out == EncodeRequest(v)
  {
    RequestSlots(v);
    out := WriteMembers(v.Slots());
  }

  /** encWireResponse */
  method EncWireResponse(v: Response) returns (out: bytes)
    requires v.Sendable()
    ensures out == EncodeResponse(v)
  {
    ResponseSlots(v);
    out := WriteMembers(v.Slots());
  }

  lemma TakenBetween(r: Reader, start: nat, s: bytes)
    requires r.Valid() && start <= r.pos && s == r.buf[start..]
    ensures Taken(s, r.Left()) == r.buf[start..r.pos]
  {
  }

  /** str or rawValue */
  method ReadOne(r: Reader, raw: bool) returns (out: Outcome<bytes>)
    requires r.Valid()
    modifies r`pos, r`depth
    ensures r.Did(ReadItem(old(r.Left()), raw, old(r.depth)), out)
    ensures out.Got? ==> r.depth == old(r.depth) && r.pos > old(r.pos)
  {
    if !raw {
      out := r.ReadStr();
      return;
    }
    var start := r.pos;
    ghost var s := r.Left();
    var skipped := r.SkipValue();
    if skipped.Refusal? {
      return Refusal(skipped.word, skipped.offset);
    }
    TakenBetween(r, start, s);
    out := Got(r.buf[start..r.pos]);
  }

  method ReadTurn(r: Reader, raw: bool) returns (out: Outcome<(bytes, bool)>)
    requires r.Valid()
    modifies r`pos, r`depth
    ensures r.Did(ItemTurn(old(r.Left()), raw, old(r.depth)), out)
    ensures out.Got? ==> r.depth == old(r.depth) && r.pos > old(r.pos)
  {
    r.SkipWs();
    var item := ReadOne(r, raw);
    if item.Refusal? {
      return Refusal(item.word, item.offset);
    }
    out := ReadItemEnd(r, item.value);
  }

  method ReadItemEnd(r: Reader, item: bytes) returns (out: Outcome<(bytes, bool)>)
    requires r.Valid()
    modifies r`pos
    ensures r.Did(ItemEnd(item, old(r.Left())), out)
    ensures out.Got? ==> r.pos > old(r.pos)
  {
    var more := r.ReadSeparator(SHUT_BRACKET);
    out := if more.Got? then Got((item, more.value)) else Refusal(more.word, more.offset);
  }

  /** The loop of strList and rawList. */
  method ReadAll(r: Reader, raw: bool) returns (out: Outcome<seq<bytes>>)
    requires r.Valid()
    modifies r`pos, r`depth
    ensures r.Did(ReadItems(old(r.Left()), raw, old(r.depth)), out)
    ensures out.Got? ==> r.depth == old(r.depth) && r.pos >= old(r.pos)
  {
    var items: seq<bytes> := [];
    PrependedNone(ReadItems(r.Left(), raw, r.depth));
    while true
      invariant r.Valid() && r.depth == old(r.depth) && r.pos >= old(r.pos)
      invariant ReadItems(old(r.Left()), raw, r.depth) == Prepended(items, ReadItems(r.Left(), raw, r.depth))
      decreases |r.buf| - r.pos
    {
      var turn := ReadTurn(r, raw);
      if turn.Refusal? {
        return Refusal(turn.word, turn.offset);
      }
      PrependedMore(items, turn.value.0, ReadItems(r.Left(), raw, r.depth));
      items := items + [turn.value.0];
      if !turn.value.1 {
        return Got(items);
      }
    }
  }

  lemma PrependedNone(p: Parse<seq<bytes>>)
    ensures Prepended([], p) == p
  {
    if p.Done? {
      assert [] + p.value == p.value;
    }
  }

  lemma PrependedMore(items: seq<bytes>, item: bytes, p: Parse<seq<bytes>>)
    ensures Prepended(items, Prepended([item], p)) == Prepended(items + [item], p)
  {
    if p.Done? {
      assert items + ([item] + p.value) == items + [item] + p.value;
    }
  }

  /** strList and rawList */
  method ReadWholeList(r: Reader, raw: bool) returns (out: Outcome<seq<bytes>>)
    requires r.Valid()
    modifies r`pos, r`depth
    ensures r.Did(ReadList(old(r.Left()), raw, old(r.depth)), out)
    ensures out.Got? ==> r.depth == old(r.depth) && r.pos >= old(r.pos)
  {
    if r.AtByte() != OPEN_BRACKET {
      out := r.Refuse("wrong_type");
      return;
    }
    r.depth := r.depth + 1;
    if r.depth > DEPTH_LIMIT {
      out := r.Refuse("depth_exceeded");
      return;
    }
    r.Advance(1);
    r.SkipWs();
    out := ReadInside(r, raw);
    if out.Got? {
      r.depth := r.depth - 1;
    }
  }

  method ReadInside(r: Reader, raw: bool) returns (out: Outcome<seq<bytes>>)
    requires r.Valid()
    modifies r`pos, r`depth
    ensures r.Did(InsideList(old(r.Left()), raw, old(r.depth)), out)
    ensures out.Got? ==> r.depth == old(r.depth) && r.pos >= old(r.pos)
  {
    if r.AtByte() == SHUT_BRACKET {
      r.Advance(1);
      return Got([]);
    }
    out := ReadAll(r, raw);
  }

  /** The switch on a known member's kind. */
  method ReadKind(r: Reader, kind: Kind) returns (out: Outcome<Field>)
    requires r.Valid() && r.depth == 1
    modifies r`pos, r`depth
    ensures r.Did(ReadField(old(r.Left()), kind), out)
    ensures out.Got? ==> r.depth == 1 && r.pos >= old(r.pos)
  {
    match kind
    case StringKind =>
      var x := ReadOne(r, false);
      out := if x.Got? then Got(StringField(x.value)) else Refusal(x.word, x.offset);
    case NumberKind =>
      var x := r.ReadInteger(MIN_INT64, MAX_INT64);
      out := if x.Got? then Got(NumberField(x.value)) else Refusal(x.word, x.offset);
    case RawKind =>
      var x := ReadOne(r, true);
      out := if x.Got? then Got(RawField(x.value)) else Refusal(x.word, x.offset);
    case BoolKind =>
      var x := r.ReadBoolean();
      out := if x.Got? then Got(BoolField(x.value)) else Refusal(x.word, x.offset);
    case RawsKind =>
      var x := ReadWholeList(r, true);
      out := if x.Got? then Got(RawsField(x.value)) else Refusal(x.word, x.offset);
    case StringsKind =>
      var x := ReadWholeList(r, false);
      out := if x.Got? then Got(StringsField(x.value)) else Refusal(x.word, x.offset);
  }

  /** The switch on a member's key. */
  method ReadValue(r: Reader, key: bytes, kinds: Kinds, fields: Fields) returns (out: Outcome<Fields>)
    requires r.Valid() && r.depth == 1
    modifies r`pos, r`depth
    ensures r.Did(ValueUnder(old(r.Left()), key, kinds, fields), out)
    ensures out.Got? ==> r.depth == 1 && r.pos >= old(r.pos)
  {
    if kinds(key).None? {
      var skipped := r.SkipValue();
      out := if skipped.Got? then Got(fields) else Refusal(skipped.word, skipped.offset);
    } else if key in fields {
      out := r.Refuse("duplicate_field");
    } else {
      var f := ReadKind(r, kinds(key).value);
      out := if f.Got? then Got(fields[key := f.value]) else Refusal(f.word, f.offset);
    }
  }

  method ReadName(r: Reader) returns (out: Outcome<bytes>)
    requires r.Valid()
    modifies r`pos
    ensures r.pos >= old(r.pos)
    ensures r.Did(NameAt(old(r.Left())), out)
  {
    r.SkipWs();
    if r.AtByte() != QUOTE {
      out := r.Refuse("malformed");
      return;
    }
    out := r.ReadStr();
  }

  /** The name and colon of one member. */
  method ReadKey(r: Reader) returns (out: Outcome<bytes>)
    requires r.Valid()
    modifies r`pos
    ensures r.pos >= old(r.pos)
    ensures r.Did(KeyAt(old(r.Left())), out)
  {
    out := ReadName(r);
    if out.Refusal? {
      return;
    }
    var colon := r.ReadColon();
    if colon.Refusal? {
      out := Refusal(colon.word, colon.offset);
    }
  }

  method ReadOneMember(r: Reader, kinds: Kinds, fields: Fields) returns (out: Outcome<Fields>)
    requires r.Valid() && r.depth == 1
    modifies r`pos, r`depth
    ensures r.Did(OneMember(old(r.Left()), kinds, fields), out)
    ensures out.Got? ==> r.depth == 1 && r.pos >= old(r.pos)
  {
    var key := ReadKey(r);
    if key.Refusal? {
      return Refusal(key.word, key.offset);
    }
    out := ReadValue(r, key.value, kinds, fields);
  }

  /** One member, and whether more follow it. */
  method ReadMember(r: Reader, kinds: Kinds, fields: Fields) returns (out: Outcome<(Fields, bool)>)
    requires r.Valid() && r.depth == 1
    modifies r`pos, r`depth
    ensures r.Did(MemberTurn(old(r.Left()), kinds, fields), out)
    ensures out.Got? ==> r.depth == 1 && r.pos > old(r.pos)
  {
    var value := ReadOneMember(r, kinds, fields);
    if value.Refusal? {
      return Refusal(value.word, value.offset);
    }
    var more := r.ReadSeparator(SHUT_BRACE);
    out := if more.Got? then Got((value.value, more.value)) else Refusal(more.word, more.offset);
  }

  /** The loop of decodeRequest and decodeResponse: what is left, with the fields so far, answers for the whole. */
  method ReadMembers(r: Reader, kinds: Kinds) returns (out: Outcome<Fields>)
    requires r.Valid() && r.depth == 1
    modifies r`pos, r`depth
    ensures r.Did(Members(old(r.Left()), kinds, map[]), out) && (out.Got? ==> r.depth == 1)
  {
    ghost var whole := Members(r.Left(), kinds, map[]);
    var fields: Fields := map[];
    while true
      invariant r.Valid() && r.depth == 1
      invariant whole == Members(r.Left(), kinds, fields)
      decreases |r.buf| - r.pos
    {
      var turn := ReadMember(r, kinds, fields);
      if turn.Refusal? {
        return Refusal(turn.word, turn.offset);
      }
      fields := turn.value.0;
      if !turn.value.1 {
        return Got(fields);
      }
    }
  }

  method ReadObject(r: Reader, kinds: Kinds) returns (out: Outcome<Fields>)
    requires r.Valid() && r.depth == 0
    modifies r`pos, r`depth
    ensures r.Did(ObjectAt(old(r.Left()), kinds), out)
  {
    if r.AtByte() != OPEN_BRACE {
      out := r.Refuse("wrong_type");
      return;
    }
    r.depth := r.depth + 1;
    r.Advance(1);
    r.SkipWs();
    if r.AtByte() == SHUT_BRACE {
      r.Advance(1);
      out := Got(map[]);
    } else {
      out := ReadMembers(r, kinds);
    }
    if out.Got? {
      r.depth := 0;
    }
  }

  /** DecodeRequest and DecodeResponse, up to the fields. */
  method ReadMessage(input: bytes, kinds: Kinds, required: Option<bytes>) returns (out: Outcome<Fields>)
    ensures match Decoded(input, kinds, required)
            case Done(fields, _) => out == Got(fields)
            case Refused(word, left) => out == Refusal(word, |input| - left)
  {
    var r := new Reader(input);
    r.SkipWs();
    ghost var p := ObjectAt(Ws(input), kinds);
    out := ReadObject(r, kinds);
    out := ReadAfter(r, out, required, p);
  }

  /** After the object, which was read as p. */
  method ReadAfter(r: Reader, read: Outcome<Fields>, required: Option<bytes>, ghost p: Parse<Fields>) returns (out: Outcome<Fields>)
    requires r.Did(p, read)
    modifies r`pos
    ensures match if p.Refused? then p else Ended(p.value, p.rest, required)
            case Done(fields, _) => out == Got(fields)
            case Refused(word, left) => out == Refusal(word, |r.buf| - left)
  {
    out := read;
    if out.Got? {
      out := ReadEnd(r, out.value, required);
    }
  }

  /** The member a message cannot lack, and nothing after the object. */
  method ReadEnd(r: Reader, fields: Fields, required: Option<bytes>) returns (out: Outcome<Fields>)
    requires r.Valid()
    modifies r`pos
    ensures match Ended(fields, old(r.Left()), required)
            case Done(f, _) => out == Got(f)
            case Refused(word, left) => out == Refusal(word, |r.buf| - left)
  {
    if required.Some? && required.value !in fields {
      out := r.Refuse("missing_field");
      return;
    }
    r.SkipWs();
    if r.pos < |r.buf| {
      out := r.Refuse("trailing_bytes");
      return;
    }
    out := Got(fields);
  }
}
