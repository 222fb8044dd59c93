/**
 Paging through a caller's work (go/acceptanceprovider/inventory.go): one session over an open directory, its cursors,
 and the page kept for a reply that was lost.
 */
module Inventory {
  import opened Options

  const SCAN_ENTRIES: nat := 256
  const MAX_SPEC_BYTES: nat := 1024 * 1024
  const FILE_BYTES: nat := 4 * MAX_SPEC_BYTES + 16384
  const READ_BYTES: nat := 16 * 1024 * 1024
  const PAGE_BYTES: nat := 512 * 1024
  const MAX_LIMIT: int := 64

  /** One operation as a page shows it, and the bytes it takes there. */
  datatype Snapshot = Snapshot(operation: string, encoded: nat)

  /** A directory entry: no journal; one that cannot be used; a journal this listing passes over, sealed or another
      scope's; or one it shows, with its record. */
  datatype Entry =
    | NotJournal
    | Broken
    | Passed(size: nat)
    | Shown(size: nat, recordSize: nat, snapshot: Snapshot)

  type Directory = seq<Entry>

  /** What the listing owes its caller: every matching journal, in directory order. */
  function Matching(dir: Directory): seq<Snapshot> {
    if dir == [] then []
    else (if dir[0].Shown? then [dir[0].snapshot] else []) + Matching(dir[1..])
  }

  /** An entry whose files keep to the provider's own limits. */
  predicate UsableEntry(e: Entry) {
    match e
    case NotJournal => true
    case Broken => false
    case Passed(size) => size <= FILE_BYTES
    case Shown(size, recordSize, snapshot) => size <= FILE_BYTES && recordSize <= FILE_BYTES && snapshot.encoded <= PAGE_BYTES
  }

  predicate Usable(dir: Directory) {
    forall i | 0 <= i < |dir| :: UsableEntry(dir[i])
  }

  /** What one entry's files take to read. */
  function Bytes(e: Entry): nat {
    match e
    case Passed(size) => size
    case Shown(size, recordSize, _) => size + recordSize
    case _ => 0
  }

  function Reading(entries: seq<Entry>): nat {
    if entries == [] then 0 else Reading(entries[..|entries| - 1]) + Bytes(entries[|entries| - 1])
  }

  /** What these snapshots take in a page. */
  function Encoded(snapshots: seq<Snapshot>): nat {
    if snapshots == [] then 0 else Encoded(snapshots[..|snapshots| - 1]) + snapshots[|snapshots| - 1].encoded
  }

  // ----- One page -----

  /** Where the scan of one page stands. */
  datatype Scan = Scan(at: nat, pending: Option<Snapshot>, scanned: nat, used: nat, remaining: int, out: seq<Snapshot>)

  datatype Stop = Full | EndOfDirectory | Failed

  /** One turn of the loop: the next standing, or why it stops. */
  function Turn(dir: Directory, s: Scan): (Scan, Option<Stop>)
    requires s.at <= |dir|
  {
    if s.pending.Some? then Emit(s.(pending := None), s.pending.value)
    else if s.remaining < 2 * (FILE_BYTES + 1) then (s, Some(Full))
    else if s.at == |dir| then (s, Some(EndOfDirectory))
    else
      var t := s.(at := s.at + 1, scanned := s.scanned + 1);
      match dir[s.at]
      case NotJournal => (t, None)
      case Broken => (t, Some(Failed))
      case Passed(size) => if size > Allowed(t.remaining) then (t, Some(Failed)) else (t.(remaining := t.remaining - size), None)
      case Shown(size, recordSize, snapshot) =>
        if size > Allowed(t.remaining) then (t, Some(Failed))
        else
          var u := t.(remaining := t.remaining - size);
          if recordSize > Allowed(u.remaining) then (u, Some(Failed)) else Emit(u.(remaining := u.remaining - recordSize), snapshot)
  }

  /** inventoryRead's bound on one file. */
  function Allowed(remaining: int): int {
    if remaining < FILE_BYTES then remaining else FILE_BYTES
  }

  function Emit(s: Scan, snapshot: Snapshot): (Scan, Option<Stop>) {
    if snapshot.encoded > PAGE_BYTES then (s, Some(Failed))
    else if s.used + snapshot.encoded > PAGE_BYTES then (s.(pending := Some(snapshot)), Some(Full))
    else (s.(used := s.used + snapshot.encoded, out := s.out + [snapshot]), None)
  }

  /** Entries and a held-back snapshot still to go; every turn takes from it. */
  function Work(dir: Directory, at: nat, pending: Option<Snapshot>): nat
    requires at <= |dir|
  {
    2 * (|dir| - at) + (if pending.Some? then 1 else 0)
  }

  function Page(dir: Directory, s: Scan, limit: int): (Scan, Stop)
    requires s.at <= |dir|
    decreases Work(dir, s.at, s.pending)
  {
    if s.scanned >= SCAN_ENTRIES || |s.out| >= limit then (s, Full)
    else
      var (t, stop) := Turn(dir, s);
      if stop.Some? then (t, stop.value) else Page(dir, t, limit)
  }

  /** What is owed from here on. */
  function Owed(dir: Directory, at: nat, pending: Option<Snapshot>): seq<Snapshot>
    requires at <= |dir|
  {
    (if pending.Some? then [pending.value] else []) + Matching(dir[at..])
  }

  predicate Sound(dir: Directory, s: Scan) {
    s.at <= |dir| && 0 <= s.remaining && (s.pending.Some? ==> s.pending.value.encoded <= PAGE_BYTES)
  }

  /** One turn neither loses nor repeats a snapshot, keeps the read budget from going negative, and takes from the
      work; over a usable directory it never fails. */
  lemma TurnKeeps(dir: Directory, s: Scan)
    requires Sound(dir, s)
    ensures var (t, stop) := Turn(dir, s);
            && stop != Some(Failed) ==>
                 && Sound(dir, t) && t.out + Owed(dir, t.at, t.pending) == s.out + Owed(dir, s.at, s.pending)
                 && (stop == None ==> Work(dir, t.at, t.pending) < Work(dir, s.at, s.pending))
                 && Work(dir, t.at, t.pending) <= Work(dir, s.at, s.pending)
                 && (stop == Some(EndOfDirectory) ==> Owed(dir, t.at, t.pending) == [])
                 && s.out <= t.out
    ensures Usable(dir) ==> Turn(dir, s).1 != Some(Failed)
  {
    if s.at < |dir| {
      assert dir[s.at..][0] == dir[s.at] && dir[s.at..][1..] == dir[s.at + 1..];
    }
    var (t, stop) := Turn(dir, s);
    if stop != Some(Failed) {
      assert t.out + Owed(dir, t.at, t.pending) == s.out + Owed(dir, s.at, s.pending);
    }
  }

  lemma {:induction false} PageKeeps(dir: Directory, s: Scan, limit: int)
    requires Sound(dir, s)
    ensures var (t, stop) := Page(dir, s, limit);
            && stop != Failed ==>
                 && Sound(dir, t) && t.out + Owed(dir, t.at, t.pending) == s.out + Owed(dir, s.at, s.pending)
                 && Work(dir, t.at, t.pending) <= Work(dir, s.at, s.pending)
                 && (stop == EndOfDirectory ==> Owed(dir, t.at, t.pending) == [])
    ensures Usable(dir) ==> Page(dir, s, limit).1 != Failed
    decreases Work(dir, s.at, s.pending)
  {
    if s.scanned < SCAN_ENTRIES && |s.out| < limit {
      TurnKeeps(dir, s);
      var (t, stop) := Turn(dir, s);
      if stop == None {
        PageKeeps(dir, t, limit);
      }
    }
  }

  function Opening(at: nat, pending: Option<Snapshot>): Scan {
    Scan(at, pending, 0, 0, READ_BYTES, [])
  }

  /** Every page either ends the directory or leaves less to do: a page may be empty, but never without progress. */
  lemma PageProgresses(dir: Directory, at: nat, pending: Option<Snapshot>, limit: int)
    requires Sound(dir, Opening(at, pending)) && limit >= 1
    ensures var (t, stop) := Page(dir, Opening(at, pending), limit);
            stop == Full ==> Sound(dir, t) && Work(dir, t.at, t.pending) < Work(dir, at, pending)
  {
    var s := Opening(at, pending);
    TurnKeeps(dir, s);
    var (t, stop) := Turn(dir, s);
    if stop == None {
      PageKeeps(dir, t, limit);
    }
  }

  // ----- What a page keeps to -----

  /** What an entry may need at most: its journal and its record. */
  const ENTRY_BYTES: nat := 2 * (FILE_BYTES + 1)

  /** The scan of a page opened at `at` is inside every limit, and its books are right: what it consumed, read and shows. */
  predicate Within(dir: Directory, at: nat, s: Scan, limit: int) {
    && at <= s.at <= |dir|
    && s.scanned == s.at - at && s.scanned <= SCAN_ENTRIES
    && s.remaining == READ_BYTES - Reading(dir[at..s.at]) && s.remaining >= 0
    && s.used == Encoded(s.out) && s.used <= PAGE_BYTES && |s.out| <= limit
    && (s.pending.Some? ==> s.pending.value.encoded <= PAGE_BYTES)
    && (forall i | at <= i < s.at :: UsableEntry(dir[i]))
  }

  /** Why a page stops short of the directory's end: the caller's limit, the entries or the bytes one call may take, or a
      snapshot that no longer fits the page and is kept for the next one. */
  predicate Exhausted(s: Scan, limit: int) {
    || |s.out| == limit
    || s.scanned == SCAN_ENTRIES
    || (s.pending.None? && s.remaining < ENTRY_BYTES)
    || (s.pending.Some? && Encoded(s.out) + s.pending.value.encoded > PAGE_BYTES)
  }

  /** The entry a failing page stopped at: the last one it consumed, and the only one that cannot be used. */
  predicate FailsAt(dir: Directory, at: nat, t: Scan) {
    at < t.at <= |dir| && !UsableEntry(dir[t.at - 1]) && forall i | at <= i < t.at - 1 :: UsableEntry(dir[i])
  }

  lemma ReadingMore(dir: Directory, at: nat, i: nat)
    requires at <= i < |dir|
    ensures Reading(dir[at..i + 1]) == Reading(dir[at..i]) + Bytes(dir[i])
  {
    assert dir[at..i + 1][..i - at] == dir[at..i];
  }

  lemma EncodedMore(out: seq<Snapshot>, one: Snapshot)
    ensures Encoded(out + [one]) == Encoded(out) + one.encoded
  {
    assert (out + [one])[..|out|] == out;
  }

  /** Showing one more snapshot, or keeping it for the next page. */
  lemma EmitWithin(dir: Directory, at: nat, s: Scan, one: Snapshot, limit: int)
    requires Within(dir, at, s, limit) && s.pending.None? && one.encoded <= PAGE_BYTES && |s.out| < limit
    ensures var (t, stop) := Emit(s, one);
            && Within(dir, at, t, limit) && stop in {None, Some(Full)}
            && (stop == Some(Full) ==> Exhausted(t, limit))
  {
    EncodedMore(s.out, one);
  }

  /** Consuming one more usable entry. */
  lemma ReadWithin(dir: Directory, at: nat, s: Scan, limit: int)
    requires Within(dir, at, s, limit) && s.at < |dir| && s.scanned < SCAN_ENTRIES && s.remaining >= ENTRY_BYTES && UsableEntry(dir[s.at])
    ensures Within(dir, at, s.(at := s.at + 1, scanned := s.scanned + 1, remaining := s.remaining - Bytes(dir[s.at])), limit)
  {
    ReadingMore(dir, at, s.at);
  }

  lemma TurnWithin(dir: Directory, at: nat, s: Scan, limit: int)
    requires Within(dir, at, s, limit) && s.scanned < SCAN_ENTRIES && |s.out| < limit
    ensures var (t, stop) := Turn(dir, s);
            && (stop != Some(Failed) ==> Within(dir, at, t, limit))
            && (stop == Some(Full) ==> Exhausted(t, limit))
            && (stop == Some(EndOfDirectory) ==> t.at == |dir| && t.pending.None? && !Exhausted(t, limit))
            && (stop == Some(Failed) ==> FailsAt(dir, at, t))
  {
    if s.pending.Some? {
      EmitWithin(dir, at, s.(pending := None), s.pending.value, limit);
    } else if s.remaining >= ENTRY_BYTES && s.at < |dir| {
      if UsableEntry(dir[s.at]) {
        ReadWithin(dir, at, s, limit);
        if dir[s.at].Shown? {
          EmitWithin(dir, at, s.(at := s.at + 1, scanned := s.scanned + 1, remaining := s.remaining - Bytes(dir[s.at])), dir[s.at].snapshot, limit);
        }
      } else {
        UnusableFails(dir, at, s);
      }
    }
  }

  lemma UnusableFails(dir: Directory, at: nat, s: Scan)
    requires s.pending.None? && s.remaining >= ENTRY_BYTES && at <= s.at < |dir| && !UsableEntry(dir[s.at])
    requires forall i | at <= i < s.at :: UsableEntry(dir[i])
    ensures Turn(dir, s).1 == Some(Failed) && FailsAt(dir, at, Turn(dir, s).0)
  {
  }

  lemma {:induction false} ScanWithin(dir: Directory, at: nat, s: Scan, limit: int)
    requires Within(dir, at, s, limit)
    ensures var (t, stop) := Page(dir, s, limit);
            && (stop != Failed ==> Within(dir, at, t, limit))
            && (stop == Full ==> Exhausted(t, limit))
            && (stop == EndOfDirectory ==> t.at == |dir| && t.pending.None? && !Exhausted(t, limit))
            && (stop == Failed ==> FailsAt(dir, at, t))
    decreases Work(dir, s.at, s.pending)
  {
    if s.scanned < SCAN_ENTRIES && |s.out| < limit {
      TurnWithin(dir, at, s, limit);
      TurnKeeps(dir, s);
      var (t, stop) := Turn(dir, s);
      if stop == None {
        ScanWithin(dir, at, t, limit);
      }
    }
  }

  /** A page shows at most `limit` snapshots, of at most PAGE_BYTES together, from at most SCAN_ENTRIES entries whose files took
      at most READ_BYTES. It is cut short only where one of these is reached, ends the directory only where none is, and fails
      only at an entry that cannot be used. */
  lemma PageWithinLimits(dir: Directory, at: nat, pending: Option<Snapshot>, limit: int)
    requires Sound(dir, Opening(at, pending)) && limit >= 1
    ensures var (t, stop) := Page(dir, Opening(at, pending), limit);
            && (stop != Failed ==> Within(dir, at, t, limit))
            && (stop == Full ==> Exhausted(t, limit))
            && (stop == EndOfDirectory ==> t.at == |dir| && t.pending.None? && !Exhausted(t, limit))
            && (stop == Failed ==> FailsAt(dir, at, t))
  {
    assert dir[at..at] == [];
    ScanWithin(dir, at, Opening(at, pending), limit);
  }

  // ----- Sessions -----

  /** The empty cursor, or a continuation of this session. */
  datatype Cursor = Start | Next(sequence: nat)

  datatype PageOut = PageOut(snapshots: seq<Snapshot>, complete: bool, next: Option<nat>)

  datatype Answer = Answered(page: PageOut) | Gap | InvalidCall | Unavailable

  /** live: the session is still known; open: its directory handle is. */
  datatype State = State(live: bool, open: bool, at: nat, sequence: nat, pending: Option<Snapshot>,
                         lastInput: Cursor, lastLimit: int, replay: Option<PageOut>)

  const FRESH: State := State(true, true, 0, 0, None, Start, 0, None)

  function Closed(s: State): State {
    s.(live := false, open := false)
  }

  /** listWork on one session; `expired` is what its clock says. */
  function Call(dir: Directory, s: State, cursor: Cursor, limit: int, expired: bool): (State, Answer)
    requires s.at <= |dir|
  {
    if limit < 1 || limit > MAX_LIMIT then (s, InvalidCall)
    else if cursor.Next? && !s.live then (s, Gap)
    else if cursor.Next? && expired then (Closed(s), Gap)
    else if cursor.Next? && cursor == s.lastInput && s.replay.Some? then
      (s, if limit != s.lastLimit then InvalidCall else Answered(s.replay.value))
    else if cursor.Next? && (cursor.sequence != s.sequence || !s.open) then (s, Gap)
    else Turned(dir, s, cursor, limit)
  }

  /** The page a call makes, and the session after it. */
  function Turned(dir: Directory, s: State, cursor: Cursor, limit: int): (State, Answer)
    requires s.at <= |dir|
  {
    var (t, stop) := Page(dir, Opening(s.at, s.pending), limit);
    if stop == Failed then (Closed(s), Unavailable)
    else
      var complete := stop == EndOfDirectory;
      var page := PageOut(t.out, complete, if complete then None else Some(s.sequence + 1));
      if complete && cursor.Start? then (Closed(s), Answered(page))
      else (State(true, !complete, t.at, s.sequence + 1, t.pending, cursor, limit, Some(page)), Answered(page))
  }

  /** The call repeats the last answered continuation. */
  predicate Repeats(s: State, cursor: Cursor) {
    cursor.Next? && cursor == s.lastInput && s.replay.Some?
  }

  /** Which calls are refused, and how, and which answer the kept page again; neither changes the session, but an expired one
      is closed. */
  lemma CallRefusedIff(dir: Directory, s: State, cursor: Cursor, limit: int, expired: bool)
    requires s.at <= |dir| && Sound(dir, Opening(s.at, s.pending))
    ensures var (t, a) := Call(dir, s, cursor, limit, expired);
            var gone := cursor.Next? && (!s.live || expired);
            && (a.InvalidCall? <==> limit < 1 || limit > MAX_LIMIT || (!gone && Repeats(s, cursor) && limit != s.lastLimit))
            && (a.Gap? <==> 1 <= limit <= MAX_LIMIT
                            && (gone || (cursor.Next? && !Repeats(s, cursor) && (cursor.sequence != s.sequence || !s.open))))
            && (1 <= limit <= MAX_LIMIT && !gone && Repeats(s, cursor) && limit == s.lastLimit ==> a == Answered(s.replay.value) && t == s)
            && (a.InvalidCall? ==> t == s)
            && (a.Gap? ==> t == if s.live && expired then s.(live := false, open := false) else s)
  {
  }

  /** Every other call makes a new page. It is complete exactly when it ends the directory; otherwise its cursor is the next in
      sequence. It is kept for a lost reply, except that a listing complete at its first call closes the session. */
  lemma NewPageIs(dir: Directory, s: State, cursor: Cursor, limit: int)
    requires s.at <= |dir| && Sound(dir, Opening(s.at, s.pending)) && limit >= 1
    ensures var (t, a) := Turned(dir, s, cursor, limit);
            && (a.Unavailable? || a.Answered?)
            && (a.Unavailable? ==> !t.live && !t.open && exists i | s.at <= i < |dir| :: !UsableEntry(dir[i]))
            && (a.Answered? ==>
                  && |a.page.snapshots| <= limit && Encoded(a.page.snapshots) <= PAGE_BYTES
                  && a.page.next == (if a.page.complete then None else Some(s.sequence + 1))
                  && (a.page.complete && cursor.Start? ==> !t.live && !t.open)
                  && (!(a.page.complete && cursor.Start?) ==>
                        && t.live && t.open == !a.page.complete && t.sequence == s.sequence + 1
                        && t.lastInput == cursor && t.lastLimit == limit && t.replay == Some(a.page)
                        && s.at <= t.at <= |dir| && t.at - s.at <= SCAN_ENTRIES))
  {
    PageWithinLimits(dir, s.at, s.pending, limit);
  }

  class Session {
    const dir: Directory
    var state: State

    ghost predicate Valid()
      reads this
    {
      && state.at <= |dir| && (state.pending.Some? ==> state.pending.value.encoded <= PAGE_BYTES)
      && (state.replay.Some? ==> |state.replay.value.snapshots| <= state.lastLimit && Encoded(state.replay.value.snapshots) <= PAGE_BYTES)
    }

    constructor (dir: Directory)
      ensures Valid() && this.dir == dir && state == FRESH
    {
      this.dir := dir;
      state := FRESH;
    }

    /** The scan loop of one page, in place. */
    method Fill(limit: int) returns (out: seq<Snapshot>, stop: Stop)
      requires Valid()
      modifies this`state
      ensures var (t, why) := Page(dir, Opening(old(state).at, old(state).pending), limit);
              stop == why && out == t.out && (stop != Failed ==> state == old(state).(at := t.at, pending := t.pending))
      ensures stop != Failed ==> Valid()
      ensures stop != Failed && limit >= 1 ==>
                |out| <= limit && Encoded(out) <= PAGE_BYTES && old(state).at <= state.at && state.at - old(state).at <= SCAN_ENTRIES
      ensures stop == Failed ==> state.(at := 0, pending := None) == old(state).(at := 0, pending := None)
    {
      var s := Opening(state.at, state.pending);
      ghost var start := s;
      if limit >= 1 {
        PageWithinLimits(dir, state.at, state.pending, limit);
      }
      stop := Full;
      while s.scanned < SCAN_ENTRIES && |s.out| < limit
        invariant Sound(dir, s) && Page(dir, start, limit) == Page(dir, s, limit) && state == old(state)
        decreases Work(dir, s.at, s.pending)
      {
        TurnKeeps(dir, s);
        var (t, why) := Turn(dir, s);
        s := t;
        if why.Some? {
          state := state.(at := t.at, pending := t.pending);
          return t.out, why.value;
        }
      }
      state := state.(at := s.at, pending := s.pending);
      out := s.out;
    }

    /** listWork */
    method ListWork(cursor: Cursor, limit: int, expired: bool) returns (a: Answer)
      requires Valid() && (cursor.Start? ==> state == FRESH)
      modifies this`state
      ensures a == Call(dir, old(state), cursor, limit, expired).1
      ensures !a.Unavailable? ==> Valid() && state == Call(dir, old(state), cursor, limit, expired).0
      ensures a.Unavailable? ==> !state.live && !state.open
      ensures a.Answered? ==> |a.page.snapshots| <= limit && Encoded(a.page.snapshots) <= PAGE_BYTES
    {
      if limit < 1 || limit > MAX_LIMIT {
        return InvalidCall;
      }
      if cursor.Next? {
        if !state.live {
          return Gap;
        }
        if expired {
          state := state.(live := false, open := false);
          return Gap;
        }
        if cursor == state.lastInput && state.replay.Some? {
          return if limit != state.lastLimit then InvalidCall else Answered(state.replay.value);
        }
        if cursor.sequence != state.sequence || !state.open {
          return Gap;
        }
      }
      ghost var before := state;
      var out, stop := Fill(limit);
      if stop == Failed {
        state := state.(live := false, open := false);
        return Unavailable;
      }
      var complete := stop == EndOfDirectory;
      var page := PageOut(out, complete, if complete then None else Some(state.sequence + 1));
      a := Answered(page);
      if complete && cursor.Start? {
        state := state.(live := false, open := false, at := 0, pending := None);
        return;
      }
      state := State(true, !complete, state.at, state.sequence + 1, state.pending, cursor, limit, Some(page));
    }
  }

  // ----- Whole listings -----

  /** A caller: the cursor it would follow next, its last call and what that was answered, and what it has collected. */
  datatype Client = Client(next: Cursor, last: Cursor, lastLimit: int, lastPage: PageOut, got: seq<Snapshot>, finished: bool)

  /** Follow the newest cursor, or repeat the last continuation call because its reply was lost. */
  datatype Event = Ahead(limit: int) | Again

  const NEWCOMER: Client := Client(Start, Start, 0, PageOut([], false, None), [], false)

  /** One event; the flag says that it was answered as it should be. */
  function Act(dir: Directory, s: State, k: Client, e: Event): (State, Client, bool)
    requires s.at <= |dir|
  {
    match e
    case Ahead(limit) =>
      if k.finished then (s, k, true)
      else
        var (t, a) := Call(dir, s, k.next, limit, false);
        if !a.Answered? then (t, k, false)
        else
          (t, Client(if a.page.next.Some? then Next(a.page.next.value) else k.next, k.next, limit, a.page,
                     k.got + a.page.snapshots, a.page.complete), true)
    case Again =>
      if k.last.Start? then (s, k, true)
      else
        var (t, a) := Call(dir, s, k.last, k.lastLimit, false);
        (t, k, a == Answered(k.lastPage))
  }

  /** What session and caller agree on. */
  predicate Together(dir: Directory, s: State, k: Client) {
    && s.at <= |dir| && (s.pending.Some? ==> s.pending.value.encoded <= PAGE_BYTES)
    && (k.finished ==> k.got == Matching(dir))
    && (!k.finished ==> s.live && s.open && k.got + Owed(dir, s.at, s.pending) == Matching(dir))
    && (!k.finished ==> if k.next.Start? then s == FRESH else k.next == Next(s.sequence) && s.lastInput != k.next)
    && (k.last.Next? ==> s.live && s.lastInput == k.last && s.lastLimit == k.lastLimit && s.replay == Some(k.lastPage)
                         && 1 <= k.lastLimit <= MAX_LIMIT)
    && (s.lastInput.Next? ==> s.lastInput.sequence < s.sequence)
  }

  function Effort(dir: Directory, s: State, k: Client): nat
    requires s.at <= |dir|
  {
    if k.finished then 0 else 1 + Work(dir, s.at, s.pending)
  }

  predicate Proper(e: Event) {
    e.Ahead? ==> 1 <= e.limit <= MAX_LIMIT
  }

  /** Every proper event is answered as it should be; a repeated call changes nothing and a call ahead takes effort. */
  lemma ActKeeps(dir: Directory, s: State, k: Client, e: Event)
    requires Usable(dir) && Together(dir, s, k) && Proper(e)
    ensures var (t, c, ok) := Act(dir, s, k, e);
            && ok && Together(dir, t, c)
            && (e.Again? ==> t == s && c == k)
            && (e.Ahead? ==> Effort(dir, t, c) < Effort(dir, s, k) || k.finished)
            && Effort(dir, t, c) <= Effort(dir, s, k)
  {
    if e.Ahead? && !k.finished {
      AheadKeeps(dir, s, k, e.limit);
    }
  }

  lemma AheadKeeps(dir: Directory, s: State, k: Client, limit: int)
    requires Usable(dir) && Together(dir, s, k) && !k.finished && 1 <= limit <= MAX_LIMIT
    ensures var (t, c, ok) := Act(dir, s, k, Ahead(limit));
            ok && Together(dir, t, c) && Effort(dir, t, c) < Effort(dir, s, k)
  {
    PageKeeps(dir, Opening(s.at, s.pending), limit);
    PageProgresses(dir, s.at, s.pending, limit);
    var (t, stop) := Page(dir, Opening(s.at, s.pending), limit);
    assert Call(dir, s, k.next, limit, false) == Turned(dir, s, k.next, limit);
    assert [] + Owed(dir, s.at, s.pending) == Owed(dir, s.at, s.pending);
    assert k.got + t.out + Owed(dir, t.at, t.pending) == k.got + (t.out + Owed(dir, t.at, t.pending));
  }

  function After(dir: Directory, s: State, k: Client, events: seq<Event>): (State, Client, bool)
    requires Usable(dir) && Together(dir, s, k) && forall i | 0 <= i < |events| :: Proper(events[i])
    decreases |events|
  {
    if events == [] then (s, k, true)
    else
      ActKeeps(dir, s, k, events[0]);
      var (t, c, ok) := Act(dir, s, k, events[0]);
      var (u, d, all) := After(dir, t, c, events[1..]);
      (u, d, ok && all)
  }

  function Calls(events: seq<Event>): nat {
    if events == [] then 0 else (if events[0].Ahead? then 1 else 0) + Calls(events[1..])
  }

  lemma {:induction false} RunKeeps(dir: Directory, s: State, k: Client, events: seq<Event>)
    requires Usable(dir) && Together(dir, s, k) && forall i | 0 <= i < |events| :: Proper(events[i])
    ensures var (u, d, ok) := After(dir, s, k, events);
            && ok && Together(dir, u, d)
            && (d.finished || Effort(dir, u, d) + Calls(events) <= Effort(dir, s, k))
    decreases |events|
  {
    if events != [] {
      ActKeeps(dir, s, k, events[0]);
      var (t, c, ok) := Act(dir, s, k, events[0]);
      RunKeeps(dir, t, c, events[1..]);
      if k.finished {
        FinishedStays(dir, t, c, events[1..]);
      }
    }
  }

  lemma {:induction false} FinishedStays(dir: Directory, s: State, k: Client, events: seq<Event>)
    requires Usable(dir) && Together(dir, s, k) && forall i | 0 <= i < |events| :: Proper(events[i])
    requires k.finished
    ensures After(dir, s, k, events).1 == k
    decreases |events|
  {
    if events != [] {
      ActKeeps(dir, s, k, events[0]);
      var (t, c, ok) := Act(dir, s, k, events[0]);
      FinishedStays(dir, t, c, events[1..]);
    }
  }

  /**
   Exactly once: over an unchanged, usable directory and a live session, a caller that follows cursors, repeating any
   continuation call whose reply it lost, has at every moment collected a prefix of the matching journals, in order and
   without a repetition; it has them all when the listing says it is complete, and it is complete after at most two
   calls ahead for each entry and one more.
   */
  lemma ExactlyOnce(dir: Directory, events: seq<Event>)
    requires Usable(dir) && forall i | 0 <= i < |events| :: Proper(events[i])
    ensures Together(dir, FRESH, NEWCOMER)
    ensures var (u, d, ok) := After(dir, FRESH, NEWCOMER, events);
            && ok && d.got <= Matching(dir)
            && (d.finished ==> d.got == Matching(dir))
            && (Calls(events) >= 2 * |dir| + 1 ==> d.finished)
  {
    assert dir[0..] == dir && [] + Matching(dir) == Matching(dir);
    RunKeeps(dir, FRESH, NEWCOMER, events);
  }
}
