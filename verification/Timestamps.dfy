/** RFC 3339 timestamps (go/rec/rec.go): what a reader accepts, and the one spelling a writer emits. */
module Timestamps {
  import opened Options
  import opened Decimals
  import opened Calendar

  predicate IsDigit(c: char) {
    '0' <= c <= '9'
  }

  predicate AllDigits(s: string) {
    forall i | 0 <= i < |s| :: IsDigit(s[i])
  }

  // ----- Decimal digits -----

  function Number(s: string): nat
    requires AllDigits(s)
  {
    if s == "" then 0 else 10 * Number(s[..|s| - 1]) + (s[|s| - 1] - '0') as nat
  }

  /** The last `width` decimal digits of v. */
  function Digits(v: nat, width: nat): (s: string)
    ensures |s| == width && AllDigits(s)
  {
    if width == 0 then "" else Digits(v / 10, width - 1) + [(v % 10) as char + '0']
  }

  lemma {:induction false} NumberOfDigits(v: nat, width: nat)
    requires v < Pow10(width)
    ensures Number(Digits(v, width)) == v
  {
    if width > 0 {
      NumberOfDigits(v / 10, width - 1);
      var s := Digits(v, width);
      assert s[..|s| - 1] == Digits(v / 10, width - 1);
    }
  }

  lemma {:induction false} DigitsOfNumber(s: string)
    requires AllDigits(s)
    ensures Number(s) < Pow10(|s|) && Digits(Number(s), |s|) == s
  {
    if s != "" {
      DigitsOfNumber(s[..|s| - 1]);
    }
  }

  lemma TimesTen(x: nat, p: nat)
    ensures x * (10 * p) == 10 * (x * p)
  {
  }

  lemma {:induction false} NumberConcat(a: string, b: string)
    requires AllDigits(a) && AllDigits(b)
    ensures AllDigits(a + b) && Number(a + b) == Number(a) * Pow10(|b|) + Number(b)
  {
    if b == "" {
      assert a + b == a;
    } else {
      var front := b[..|b| - 1];
      NumberConcat(a, front);
      assert (a + b)[..|a + b| - 1] == a + front;
      assert Number(a) * Pow10(|b|) == 10 * (Number(a) * Pow10(|front|)) by {
        TimesTen(Number(a), Pow10(|front|));
      }
    }
  }

  function Zeros(n: nat): (s: string)
    ensures |s| == n && AllDigits(s) && Number(s) == 0
  {
    if n == 0 then "" else Zeros(n - 1) + "0"
  }

  // ----- What a reader accepts -----

  predicate DatePart(s: string) {
    && |s| >= 19 && AllDigits(s[0..4]) && s[4] == '-' && AllDigits(s[5..7]) && s[7] == '-' && AllDigits(s[8..10])
    && AllDigits(s[11..13]) && s[13] == ':' && AllDigits(s[14..16]) && s[16] == ':' && AllDigits(s[17..19])
  }

  /** Where the run of digits that starts at i ends. */
  function DigitsEnd(s: string, i: nat): (j: nat)
    requires i <= |s|
    ensures i <= j <= |s| && AllDigits(s[i..j])
    ensures j < |s| ==> !IsDigit(s[j])
    decreases |s| - i
  {
    if i < |s| && IsDigit(s[i]) then
      var j := DigitsEnd(s, i + 1);
      assert s[i..j] == [s[i]] + s[i + 1..j];
      j
    else i
  }

  function FractionEnd(s: string): (j: nat)
    requires |s| >= 19
    ensures 19 <= j <= |s|
  {
    if |s| > 19 && s[19] == '.' then DigitsEnd(s, 20) else 19
  }

  function Fraction(s: string): (f: string)
    requires |s| >= 19
    ensures AllDigits(f)
  {
    if FractionEnd(s) > 19 then s[20..FractionEnd(s)] else ""
  }

  /** [DEF-G1] a fraction of one to nine digits or none, either case of the separators, and a numeric offset. */
  predicate Lexical(s: string) {
    && DatePart(s) && (s[10] == 'T' || s[10] == 't')
    && (|s| > 19 && s[19] == '.' ==> 1 <= |Fraction(s)| <= 9)
    && var i := FractionEnd(s);
    && i < |s|
    && if s[i] == 'Z' || s[i] == 'z' then i + 1 == |s|
       else (s[i] == '+' || s[i] == '-') && |s| == i + 6 && AllDigits(s[i + 1..i + 3]) && s[i + 3] == ':' && AllDigits(s[i + 4..i + 6])
  }

  /** The values a timestamp spells: the offset is in signed minutes east of UTC, and `offsetOnClock` says that its
      hours and minutes are a clock's. */
  datatype Reading = Reading(date: Date, hour: nat, minute: nat, second: nat, fraction: string, offset: int, offsetOnClock: bool)
  {
    predicate Valid() {
      AllDigits(fraction) && |fraction| <= 9
    }

    /** The values a calendar and a clock have; leap seconds are not among them. */
    predicate OnCalendar() {
      date.Valid() && hour <= 23 && minute <= 59 && second <= 59 && offsetOnClock
    }
  }

  function Read(s: string): (r: Option<Reading>)
    ensures r.Some? <==> Lexical(s)
    ensures r.Some? ==> r.value.Valid() && (r.value.offsetOnClock ==> -1440 < r.value.offset < 1440)
    ensures r.Some? ==> 0 <= r.value.date.year <= 9999
  {
    if !Lexical(s) then None
    else
      var i := FractionEnd(s);
      var zulu := s[i] == 'Z' || s[i] == 'z';
      var hours := if zulu then 0 else Number(s[i + 1..i + 3]);
      var minutes := if zulu then 0 else Number(s[i + 4..i + 6]);
      DigitsOfNumber(s[0..4]);
      FourDigits();
      Some(Reading(Date(Number(s[0..4]), Number(s[5..7]), Number(s[8..10])),
                   Number(s[11..13]), Number(s[14..16]), Number(s[17..19]), Fraction(s),
                   if s[i] == '-' then -(hours * 60 + minutes) else hours * 60 + minutes,
                   hours <= 23 && minutes <= 59))
  }

  // ----- The instant -----

  /** Minutes of the instant since the start of year zero in UTC. */
  function Minutes(r: Reading): int
    requires r.OnCalendar()
  {
    DayNumber(r.date) * 1440 + r.hour * 60 + r.minute - r.offset
  }

  /** Nanoseconds a fraction of up to nine digits adds. */
  function Nanos(f: string): nat
    requires AllDigits(f) && |f| <= 9
  {
    Number(f) * Pow10(9 - |f|)
  }

  /** Nanoseconds of the instant since the start of year zero in UTC. */
  function Instant(r: Reading): int
    requires r.Valid() && r.OnCalendar()
  {
    (Minutes(r) * 60 + r.second) * 1_000_000_000 + Nanos(r.fraction)
  }

  /** Years 0000 to 9999, in UTC. */
  predicate InYears(minutes: int) {
    YearStart(0) * 1440 <= minutes < YearStart(10000) * 1440
  }

  // ----- What a writer emits -----

  /** A date and the minutes of its day, after an offset moved them at most one day either way. */
  function Carried(d: Date, minutes: int): (Date, int) {
    if minutes < 0 then (DayBefore(d), minutes + 1440)
    else if minutes >= 1440 then (DayAfter(d), minutes - 1440)
    else (d, minutes)
  }

  /** Carrying keeps the instant. */
  lemma CarriedKeeps(d: Date, minutes: int)
    requires d.Valid() && -1440 <= minutes < 2880
    ensures var (c, m) := Carried(d, minutes);
            c.Valid() && 0 <= m < 1440 && DayNumber(c) * 1440 + m == DayNumber(d) * 1440 + minutes
  {
    DayBeforeIsOneLess(d);
    DayAfterIsOneMore(d);
  }

  /** The first six digits of a fraction, filled with zeros. */
  function Micros(fraction: string): (f: string)
    requires AllDigits(fraction)
    ensures |f| == 6 && AllDigits(f)
    ensures |fraction| == 6 ==> f == fraction
  {
    if |fraction| >= 6 then fraction[..6] else fraction + Zeros(6 - |fraction|)
  }

  /** What a writer spells: a date, minutes of the day, seconds, and six digits of fraction, in UTC. */
  datatype Stamp = Stamp(date: Date, minutes: nat, second: nat, micros: string) {
    predicate Valid() {
      && date.Valid() && 0 <= date.year <= 9999 && minutes < 1440 && second < 60 && |micros| == 6 && AllDigits(micros)
    }

    function Spelled(): string
      requires date.year >= 0 && date.month >= 0 && date.day >= 0
    {
      Digits(date.year, 4) + "-" + Digits(date.month, 2) + "-" + Digits(date.day, 2) + "T"
      + Digits(minutes / 60, 2) + ":" + Digits(minutes % 60, 2) + ":" + Digits(second, 2) + "." + micros + "Z"
    }
  }

  /** The stamp of a reading, unless carrying its offset leaves the years 0000 to 9999. */
  function Stamped(r: Reading): (t: Option<Stamp>)
    requires r.Valid() && r.OnCalendar() && -1440 < r.offset < 1440
    ensures t.Some? ==> t.value.Valid()
  {
    var minutes := r.hour * 60 + r.minute - r.offset;
    CarriedKeeps(r.date, minutes);
    var (d, m) := Carried(r.date, minutes);
    if d.year < 0 || d.year > 9999 then None else Some(Stamp(d, m, r.second, Micros(r.fraction)))
  }

  /** normalizedTimestamp; empty is a refusal. */
  function Normalized(s: string): string {
    var r := Read(s);
    if r.None? || !r.value.OnCalendar() then ""
    else
      var t := Stamped(r.value);
      if t.None? then "" else t.value.Spelled()
  }

  lemma FourDigits()
    ensures Pow10(2) == 100 && Pow10(4) == 10000
  {
    assert Pow10(3) == 1000;
  }

  lemma SpelledShape(t: Stamp)
    requires t.Valid()
    ensures var s := t.Spelled();
            && |s| == 27 && s[0..4] == Digits(t.date.year, 4) && s[5..7] == Digits(t.date.month, 2) && s[8..10] == Digits(t.date.day, 2)
            && s[11..13] == Digits(t.minutes / 60, 2) && s[14..16] == Digits(t.minutes % 60, 2) && s[17..19] == Digits(t.second, 2)
            && s[20..26] == t.micros && s[26] == 'Z'
            && s[4] == '-' && s[7] == '-' && s[10] == 'T' && s[13] == ':' && s[16] == ':' && s[19] == '.'
  {
  }

  lemma {:induction false} DigitsEndAt(s: string, i: nat, j: nat)
    requires i <= j < |s| && AllDigits(s[i..j]) && !IsDigit(s[j])
    ensures DigitsEnd(s, i) == j
    decreases j - i
  {
    if i < j {
      assert IsDigit(s[i..j][0]);
      assert s[i + 1..j] == s[i..j][1..];
      DigitsEndAt(s, i + 1, j);
    }
  }

  lemma StampNumbers(t: Stamp)
    requires t.Valid()
    ensures Number(Digits(t.date.year, 4)) == t.date.year
    ensures Number(Digits(t.date.month, 2)) == t.date.month && Number(Digits(t.date.day, 2)) == t.date.day
    ensures Number(Digits(t.minutes / 60, 2)) == t.minutes / 60 && Number(Digits(t.minutes % 60, 2)) == t.minutes % 60
    ensures Number(Digits(t.second, 2)) == t.second
  {
    FourDigits();
    NumberOfDigits(t.date.year, 4);
    NumberOfDigits(t.date.month, 2);
    NumberOfDigits(t.date.day, 2);
    NumberOfDigits(t.minutes / 60, 2);
    NumberOfDigits(t.minutes % 60, 2);
    NumberOfDigits(t.second, 2);
  }

  /** What the writer's spelling says, read back. */
  lemma SpelledReads(t: Stamp)
    requires t.Valid()
    ensures Read(t.Spelled()) == Some(Reading(t.date, t.minutes / 60, t.minutes % 60, t.second, t.micros, 0, true))
  {
    var s := t.Spelled();
    SpelledShape(t);
    DigitsEndAt(s, 20, 26);
    StampNumbers(t);
  }

  // ----- What normalization keeps -----

  lemma FloorExact(k: int, r: nat)
    requires r < 1000
    ensures 1000 * k + r - (1000 * k + r) % 1000 == 1000 * k
  {
  }

  lemma ThousandTimes(v: nat, p: nat)
    ensures v * (1000 * p) == 1000 * (v * p)
  {
  }

  lemma Pow10Three(n: nat)
    ensures Pow10(n + 3) == 1000 * Pow10(n)
  {
    assert Pow10(n + 3) == 10 * Pow10(n + 2) && Pow10(n + 2) == 10 * Pow10(n + 1) && Pow10(n + 1) == 10 * Pow10(n);
  }

  lemma ShortMicros(f: string)
    requires AllDigits(f) && |f| < 6
    ensures Nanos(f) == 1000 * Number(Micros(f))
  {
    var n: nat := 6 - |f|;
    NumberConcat(f, Zeros(n));
    Pow10Three(n);
    ThousandTimes(Number(f), Pow10(n));
  }

  /** Up to three digits beyond the sixth are less than a microsecond. */
  lemma LongFraction(six: nat, rest: string) returns (r: nat)
    requires AllDigits(rest) && |rest| <= 3
    ensures r < 1000 && (six * Pow10(|rest|) + Number(rest)) * Pow10(3 - |rest|) == six * 1000 + r
  {
    DigitsOfNumber(rest);
    assert Pow10(1) == 10 && Pow10(2) == 100 && Pow10(3) == 1000;
    r := Number(rest) * Pow10(3 - |rest|);
    if |rest| == 0 {
    } else if |rest| == 1 {
    } else if |rest| == 2 {
    }
  }

  lemma LongMicros(f: string) returns (r: nat)
    requires AllDigits(f) && 6 <= |f| <= 9
    ensures r < 1000 && Nanos(f) == 1000 * Number(Micros(f)) + r
  {
    var six, rest := f[..6], f[6..];
    assert f == six + rest;
    NumberConcat(six, rest);
    r := LongFraction(Number(six), rest);
    assert 9 - |f| == 3 - |rest|;
  }

  /** Six digits are the fraction, floored to microseconds. */
  lemma MicrosFloor(f: string)
    requires AllDigits(f) && |f| <= 9
    ensures 1000 * Number(Micros(f)) == Nanos(f) - Nanos(f) % 1000
  {
    if |f| < 6 {
      ShortMicros(f);
      FloorExact(Number(Micros(f)), 0);
    } else {
      var r := LongMicros(f);
      FloorExact(Number(Micros(f)), r);
    }
  }

  /** A timestamp is accepted exactly when it is spelled as one, names calendar and clock values, and its instant lies
      in the years 0000 to 9999 of UTC. */
  lemma AcceptedIff(s: string)
    ensures Normalized(s) != "" <==> Read(s).Some? && Read(s).value.OnCalendar() && InYears(Minutes(Read(s).value))
  {
    if Read(s).Some? && Read(s).value.OnCalendar() {
      var r := Read(s).value;
      var minutes := r.hour * 60 + r.minute - r.offset;
      CarriedKeeps(r.date, minutes);
      YearsOnScale(Carried(r.date, minutes).0);
    }
  }

  /** Nanoseconds, from whole minutes, seconds and microseconds. */
  function At(minutes: int, second: nat, micros: nat): int {
    (minutes * 60 + second) * 1_000_000_000 + 1000 * micros
  }

  lemma FloorOfSum(whole: int, v: nat, floored: int)
    requires floored == v - v % 1000
    ensures whole * 1_000_000_000 + floored == (whole * 1_000_000_000 + v) - (whole * 1_000_000_000 + v) % 1000
  {
  }

  lemma FlooredInstant(r: Reading)
    requires r.Valid() && r.OnCalendar()
    ensures At(Minutes(r), r.second, Number(Micros(r.fraction))) == Instant(r) - Instant(r) % 1000
  {
    MicrosFloor(r.fraction);
    FloorOfSum(Minutes(r) * 60 + r.second, Nanos(r.fraction), 1000 * Number(Micros(r.fraction)));
  }

  lemma StampedMinutes(r: Reading)
    requires r.Valid() && r.OnCalendar() && -1440 < r.offset < 1440 && Stamped(r).Some?
    ensures var t := Stamped(r).value;
            && DayNumber(t.date) * 1440 + t.minutes == Minutes(r) && t.second == r.second && t.micros == Micros(r.fraction)
  {
    CarriedKeeps(r.date, r.hour * 60 + r.minute - r.offset);
  }

  /** A stamp's spelling is its own normal form, at the stamp's own instant. */
  lemma SpelledIsNormal(t: Stamp)
    requires t.Valid()
    ensures Normalized(t.Spelled()) == t.Spelled() && t.Spelled() != ""
    ensures var r := Read(t.Spelled());
            && r.Some? && r.value.OnCalendar()
            && Instant(r.value) == At(DayNumber(t.date) * 1440 + t.minutes, t.second, Number(t.micros))
  {
    SpelledReads(t);
    var r := Reading(t.date, t.minutes / 60, t.minutes % 60, t.second, t.micros, 0, true);
    assert Stamped(r) == Some(t);
    SixDigits(t.micros);
  }

  lemma SixDigits(f: string)
    requires AllDigits(f) && |f| == 6
    ensures Nanos(f) == 1000 * Number(f)
  {
    assert Pow10(3) == 1000;
  }

  /** Normalization keeps the instant, floored to microseconds, and is idempotent. */
  lemma NormalizedKeepsInstant(s: string) returns (t: Stamp)
    requires Normalized(s) != ""
    ensures t.Valid() && Normalized(s) == t.Spelled() && Normalized(Normalized(s)) == Normalized(s)
    ensures var r, n := Read(s), Read(Normalized(s));
            && r.Some? && r.value.OnCalendar() && n.Some? && n.value.OnCalendar()
            && Instant(n.value) == Instant(r.value) - Instant(r.value) % 1000
            && Instant(n.value) == At(DayNumber(t.date) * 1440 + t.minutes, t.second, Number(t.micros))
  {
    var r := Read(s).value;
    t := Stamped(r).value;
    StampedMinutes(r);
    FlooredInstant(r);
    SpelledIsNormal(t);
  }

  lemma SameDay(x: int, m: nat, y: int, n: nat)
    requires m < 1440 && n < 1440 && x * 1440 + m == y * 1440 + n
    ensures x == y && m == n
  {
  }

  lemma AtIsInjective(x: int, a: nat, f: nat, y: int, b: nat, g: nat)
    requires a < 60 && b < 60 && f < 1_000_000 && g < 1_000_000 && At(x, a, f) == At(y, b, g)
    ensures x == y && a == b && f == g
  {
    assert x * 60 + a == y * 60 + b;
  }

  lemma SameInstantSameStamp(t: Stamp, u: Stamp)
    requires t.Valid() && u.Valid()
    requires At(DayNumber(t.date) * 1440 + t.minutes, t.second, Number(t.micros))
          == At(DayNumber(u.date) * 1440 + u.minutes, u.second, Number(u.micros))
    ensures t == u
  {
    DigitsOfNumber(t.micros);
    DigitsOfNumber(u.micros);
    assert Pow10(6) == 1000000 by { assert Pow10(3) == 1000; }
    AtIsInjective(DayNumber(t.date) * 1440 + t.minutes, t.second, Number(t.micros),
                  DayNumber(u.date) * 1440 + u.minutes, u.second, Number(u.micros));
    SameDay(DayNumber(t.date), t.minutes, DayNumber(u.date), u.minutes);
    DateIsUnique(t.date, u.date);
  }

  /** One instant, one spelling: two accepted timestamps are written alike exactly when they name the same
      microsecond. */
  lemma OneSpelling(s: string, t: string)
    requires Normalized(s) != "" && Normalized(t) != ""
    ensures var a, b := Instant(Read(s).value), Instant(Read(t).value);
            Normalized(s) == Normalized(t) <==> a - a % 1000 == b - b % 1000
  {
    var x := NormalizedKeepsInstant(s);
    var y := NormalizedKeepsInstant(t);
    var a, b := Instant(Read(s).value), Instant(Read(t).value);
    if a - a % 1000 == b - b % 1000 {
      SameInstantSameStamp(x, y);
    }
  }

  // ----- The source's own steps -----

  lemma {:induction false} NumberNext(s: string, k: nat)
    requires k < |s| && AllDigits(s)
    ensures AllDigits(s[..k]) && Number(s[..k + 1]) == 10 * Number(s[..k]) + (s[k] - '0') as nat
  {
    assert s[..k + 1][..k] == s[..k];
  }

  /** timestampNumber */
  method TimestampNumber(s: string, i: nat, n: nat) returns (v: nat)
    requires i + n <= |s| && AllDigits(s[i..i + n])
    ensures v == Number(s[i..i + n])
  {
    v := 0;
    ghost var t := s[i..i + n];
    for k := 0 to n
      invariant v == Number(t[..k])
    {
      NumberNext(t, k);
      v := v * 10 + (s[i + k] - '0') as nat;
    }
    assert t[..n] == t;
  }

  /** digits */
  method DigitsAt(s: string, i: nat, n: nat) returns (yes: bool)
    ensures yes <==> i + n <= |s| && AllDigits(s[i..i + n])
  {
    if i + n > |s| {
      return false;
    }
    for k := 0 to n
      invariant AllDigits(s[i..i + k])
    {
      if !IsDigit(s[i + k]) {
        assert s[i..i + n][k] == s[i + k];
        return false;
      }
      assert s[i..i + k + 1] == s[i..i + k] + [s[i + k]];
    }
    yes := true;
  }

  /** lexicalTimestamp */
  method LexicalTimestamp(s: string) returns (yes: bool)
    ensures yes <==> Lexical(s)
  {
    if !DatePart(s) || (s[10] != 'T' && s[10] != 't') {
      return false;
    }
    var i := 19;
    if i < |s| && s[i] == '.' {
      i := i + 1;
      var n := 0;
      while i < |s| && IsDigit(s[i])
        invariant i == 20 + n && i <= |s| && AllDigits(s[20..i])
      {
        assert s[20..i + 1] == s[20..i] + [s[i]];
        i := i + 1;
        n := n + 1;
      }
      EndOfDigits(s, 20, i);
      if n < 1 || n > 9 {
        return false;
      }
    }
    if i >= |s| {
      return false;
    }
    if s[i] == 'Z' || s[i] == 'z' {
      return i + 1 == |s|;
    }
    if s[i] != '+' && s[i] != '-' {
      return false;
    }
    var hours := DigitsAt(s, i + 1, 2);
    var minutes := DigitsAt(s, i + 4, 2);
    yes := |s| == i + 6 && hours && s[i + 3] == ':' && minutes;
  }

  lemma EndOfDigits(s: string, i: nat, j: nat)
    requires i <= j <= |s| && AllDigits(s[i..j]) && (j < |s| ==> !IsDigit(s[j]))
    ensures DigitsEnd(s, i) == j
    decreases j - i
  {
    if i < j {
      assert IsDigit(s[i..j][0]);
      assert s[i + 1..j] == s[i..j][1..];
      EndOfDigits(s, i + 1, j);
    }
  }

  /** Writes the last `width` digits of a value in place, from the right. */
  method Put(out: array<char>, at: nat, width: nat, value: nat)
    requires at + width <= out.Length
    modifies out
    ensures out[at..at + width] == Digits(value, width)
    ensures forall i | 0 <= i < out.Length && !(at <= i < at + width) :: out[i] == old(out[i])
  {
    var v := value;
    var k := width;
    while k > 0
      invariant 0 <= k <= width
      invariant Digits(value, width) == Digits(v, k) + out[at + k..at + width]
      invariant forall i | 0 <= i < out.Length && !(at + k <= i < at + width) :: out[i] == old(out[i])
    {
      k := k - 1;
      ghost var was := out[at + k + 1..at + width];
      out[at + k] := (v % 10) as char + '0';
      v := v / 10;
      assert out[at + k..at + width] == [out[at + k]] + was;
    }
  }

  lemma FromShape(s: string, t: Stamp)
    requires t.Valid()
    requires |s| == 27 && s[0..4] == Digits(t.date.year, 4) && s[5..7] == Digits(t.date.month, 2) && s[8..10] == Digits(t.date.day, 2)
    requires s[11..13] == Digits(t.minutes / 60, 2) && s[14..16] == Digits(t.minutes % 60, 2) && s[17..19] == Digits(t.second, 2)
    requires s[20..26] == t.micros && s[26] == 'Z'
    requires s[4] == '-' && s[7] == '-' && s[10] == 'T' && s[13] == ':' && s[16] == ':' && s[19] == '.'
    ensures s == t.Spelled()
  {
    var u := t.Spelled();
    SpelledShape(t);
    forall i | 0 <= i < 27 ensures s[i] == u[i] {
      if i < 4 { assert s[i] == s[0..4][i]; }
      else if 5 <= i < 7 { assert s[i] == s[5..7][i - 5]; }
      else if 8 <= i < 10 { assert s[i] == s[8..10][i - 8]; }
      else if 11 <= i < 13 { assert s[i] == s[11..13][i - 11]; }
      else if 14 <= i < 16 { assert s[i] == s[14..16][i - 14]; }
      else if 17 <= i < 19 { assert s[i] == s[17..19][i - 17]; }
      else if 20 <= i < 26 { assert s[i] == s[20..26][i - 20]; }
    }
  }

  lemma {:induction false} ZerosAt(n: nat, k: nat)
    requires k < n
    ensures Zeros(n)[k] == '0'
  {
    if k < n - 1 {
      ZerosAt(n - 1, k);
    }
  }

  lemma MicrosAt(fraction: string, k: nat)
    requires AllDigits(fraction) && k < 6
    ensures Micros(fraction)[k] == if k < |fraction| then fraction[k] else '0'
  {
    if |fraction| <= k {
      ZerosAt(6 - |fraction|, k - |fraction|);
    }
  }

  method PutDate(out: array<char>, d: Date)
    requires out.Length == 27 && d.year >= 0 && d.month >= 0 && d.day >= 0
    modifies out
    ensures out[0..4] == Digits(d.year, 4) && out[5..7] == Digits(d.month, 2) && out[8..10] == Digits(d.day, 2)
    ensures out[4] == old(out[4]) && out[7] == old(out[7])
    ensures forall i | 10 <= i < 27 :: out[i] == old(out[i])
  {
    Put(out, 0, 4, d.year);
    Put(out, 5, 2, d.month);
    Put(out, 8, 2, d.day);
  }

  method PutClock(out: array<char>, minutes: nat, second: nat)
    requires out.Length == 27
    modifies out
    ensures out[11..13] == Digits(minutes / 60, 2) && out[14..16] == Digits(minutes % 60, 2) && out[17..19] == Digits(second, 2)
    ensures forall i | 0 <= i < 11 || 19 <= i < 27 :: out[i] == old(out[i])
    ensures out[13] == old(out[13]) && out[16] == old(out[16])
  {
    Put(out, 11, 2, minutes / 60);
    Put(out, 14, 2, minutes % 60);
    Put(out, 17, 2, second);
  }

  method PutFraction(out: array<char>, fraction: string)
    requires out.Length == 27 && AllDigits(fraction) && forall i | 20 <= i < 26 :: out[i] == '0'
    modifies out
    ensures out[20..26] == Micros(fraction)
    ensures forall i | 0 <= i < 20 || i == 26 :: out[i] == old(out[i])
  {
    var k := 0;
    while k < 6 && k < |fraction|
      invariant 0 <= k <= 6 && k <= |fraction|
      invariant forall i | 0 <= i < k :: out[20 + i] == fraction[i]
      invariant forall i | 20 + k <= i < 26 :: out[i] == '0'
      invariant forall i | 0 <= i < 20 || i == 26 :: out[i] == old(out[i])
    {
      out[20 + k] := fraction[k];
      k := k + 1;
    }
    forall i | 0 <= i < 6 ensures out[20 + i] == Micros(fraction)[i] {
      MicrosAt(fraction, i);
    }
  }

  /** The template, filled in place. */
  method WriteStamp(t: Stamp, fraction: string) returns (s: string)
    requires t.Valid() && AllDigits(fraction) && t.micros == Micros(fraction)
    ensures s == t.Spelled()
  {
    var template := "0000-00-00T00:00:00.000000Z";
    var out := new char[27](i requires 0 <= i < 27 => template[i]);
    assert out[4] == '-' && out[7] == '-' && out[10] == 'T' && out[13] == ':' && out[16] == ':' && out[19] == '.';
    assert out[26] == 'Z' && forall i | 20 <= i < 26 :: out[i] == '0';
    PutDate(out, t.date);
    assert out[4] == '-' && out[7] == '-' && out[10] == 'T' && out[13] == ':' && out[16] == ':' && out[19] == '.' && out[26] == 'Z';
    ghost var dated := out[..];
    assert dated[0..4] == out[0..4] && dated[5..7] == out[5..7] && dated[8..10] == out[8..10];
    PutClock(out, t.minutes, t.second);
    assert out[..11] == dated[..11];
    ghost var clocked := out[..];
    assert clocked[11..13] == out[11..13] && clocked[14..16] == out[14..16] && clocked[17..19] == out[17..19];
    PutFraction(out, fraction);
    s := out[..];
    assert s[..20] == clocked[..20];
    assert s[20..26] == out[20..26];
    Sliced(s, clocked, dated);
    FromShape(s, t);
  }

  lemma Sliced(s: string, clocked: string, dated: string)
    requires |s| == 27 && |clocked| == 27 && |dated| == 27
    requires s[..20] == clocked[..20] && clocked[..11] == dated[..11]
    ensures s[0..4] == dated[0..4] && s[5..7] == dated[5..7] && s[8..10] == dated[8..10]
    ensures s[11..13] == clocked[11..13] && s[14..16] == clocked[14..16] && s[17..19] == clocked[17..19]
    ensures forall i | 0 <= i < 20 :: s[i] == clocked[i]
  {
    forall i | 0 <= i < 20 ensures s[i] == clocked[i] {
      assert s[i] == s[..20][i];
    }
    forall i | 0 <= i < 11 ensures clocked[i] == dated[i] {
      assert clocked[i] == clocked[..11][i];
    }
  }

  /** The values of a timestamp, digit by digit. */
  method ReadFields(s: string) returns (r: Reading)
    requires Lexical(s)
    ensures r == Read(s).value
  {
    var y := TimestampNumber(s, 0, 4);
    var m := TimestampNumber(s, 5, 2);
    var d := TimestampNumber(s, 8, 2);
    var h := TimestampNumber(s, 11, 2);
    var minute := TimestampNumber(s, 14, 2);
    var second := TimestampNumber(s, 17, 2);
    var i := FractionEnd(s);
    var oh, om := 0, 0;
    if s[i] == '+' || s[i] == '-' {
      oh := TimestampNumber(s, i + 1, 2);
      om := TimestampNumber(s, i + 4, 2);
    }
    var offset: int := oh * 60 + om;
    if s[i] == '-' {
      offset := -offset;
    }
    r := Reading(Date(y, m, d), h, minute, second, Fraction(s), offset, oh <= 23 && om <= 59);
  }

  /** normalizedTimestamp, with the source's own day, month and year carries. */
  method NormalizedTimestamp(s: string) returns (out: string)
    ensures out == Normalized(s)
  {
    var lexical := LexicalTimestamp(s);
    if !lexical {
      return "";
    }
    var r := ReadFields(s);
    if !r.OnCalendar() {
      return "";
    }
    var total := r.hour * 60 + r.minute - r.offset;
    CarriedKeeps(r.date, total);
    var year, month, day, minutes := Carry(r.date.year, r.date.month, r.date.day, total);
    if year < 0 || year > 9999 {
      return "";
    }
    out := WriteStamp(Stamp(Date(year, month, day), minutes, r.second, Micros(r.fraction)), r.fraction);
  }

  /** The carries of a day's minutes into day, month and year, each in place. */
  method Carry(y: int, m: int, d: int, minutes: int) returns (year: int, month: int, day: int, total: int)
    requires Date(y, m, d).Valid()
    ensures (Date(year, month, day), total) == Carried(Date(y, m, d), minutes)
  {
    year, month, day, total := y, m, d, minutes;
    if total < 0 {
      total := total + 1440;
      day := day - 1;
    } else if total >= 1440 {
      total := total - 1440;
      day := day + 1;
    }
    if day == 0 {
      month := month - 1;
      if month == 0 {
        year := year - 1;
        month := 12;
      }
      day := DaysIn(year, month);
    }
    if day > DaysIn(year, month) {
      day := 1;
      month := month + 1;
      if month == 13 {
        year := year + 1;
        month := 1;
      }
    }
  }
}
