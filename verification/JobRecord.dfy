/** The job record (go/record.go): its fields, the lease predicates and the checks every write passes. */
module JobRecord {
  import opened Options

  /** The sentinel errors of the store. */
  datatype Error = NotFound | LeaseHeld | StaleEpoch | LeaseExpiry | TerminalJob | Conflict | Invalid | Refused(word: string)

  datatype Result<+T> = Ok(value: T) | Err(error: Error)

  const INT64_MIN: int := -0x8000_0000_0000_0000
  const INT64_MAX: int := 0x7fff_ffff_ffff_ffff

  type int64 = n: int | INT64_MIN <= n <= INT64_MAX witness 0

  /** Instants and durations count nanoseconds; a record stores whole microseconds. */
  type Time = int

  /** At: the instant as a record keeps it, truncated to the microsecond. */
  function At(t: Time): (s: Time)
    ensures s <= t < s + 1000
    ensures s % 1000 == 0
  {
    t - t % 1000
  }

  /** Whitespace as strings.TrimSpace removes it. */
  predicate IsSpace(c: char) {
    || c in {' ', '\t', '\n', '\r', '\U{000B}', '\U{000C}', '\U{0085}', '\U{00A0}', '\U{1680}'}
    || '\U{2000}' <= c <= '\U{200A}'
    || c in {'\U{2028}', '\U{2029}', '\U{202F}', '\U{205F}', '\U{3000}'}
  }

  predicate Blank(s: string) {
    forall i | 0 <= i < |s| :: IsSpace(s[i])
  }

  /** A payload this layer carries and never reads, in its compact spelling. */
  datatype Opaque = Absent | Json(text: string) | Malformed

  /** A word outside the vocabulary is kept so that validation can refuse it. */
  datatype State = Pending | Running | Transferred | Complete | Failed | Cancelled | OtherState(word: string) {
    predicate Terminal() {
      Complete? || Failed? || Cancelled?
    }
    predicate Valid() {
      !OtherState?
    }
  }

  datatype Want = WantRun | WantPause | WantCancel | OtherWant(word: string) {
    predicate Valid() {
      !OtherWant?
    }
  }

  datatype Intent = Intent(want: Want, asker: string, at: Time)

  datatype Recall = Recall(reason: string, asker: string, at: Time, until: Time)

  datatype Lease = Lease(owner: string, epoch: int64, expiresAt: Time, recall: Option<Recall>) {
    predicate Held(now: Time) {
      owner != "" && now < expiresAt
    }
    predicate Recalled() {
      recall.Some?
    }
  }

  datatype Step = Step(name: string, ordinal: int, of: int, done: int, total: int) {
    predicate Valid() {
      !Blank(name) && ordinal >= 1 && (of > 0 ==> ordinal <= of) && done >= 0 && total >= 0
    }
  }

  datatype Progress = Progress(done: int, total: int, updatedAt: Time, step: Option<Step>)

  datatype Delegation = Delegation(system: string, externalId: string, delivered: bool)

  datatype Record = Record(
    id: string,
    kind: string,
    envelope: Option<string>,
    state: State,
    spec: Opaque,
    checkpoint: Opaque,
    progress: Progress,
    lease: Lease,
    delegation: Option<Delegation>,
    requires_: seq<string>,
    error: string,
    intent: Option<Intent>,
    extensions: map<string, Opaque>,
    createdAt: Time,
    updatedAt: Time)
  {
    /** Validate, over the fields modelled here: every record a store writes passes it. */
    predicate Valid() {
      && (intent.Some? ==> intent.value.want.Valid())
      && !Blank(id)
      && !Blank(kind)
      && state.Valid()
      && spec.Json? && spec.text != "null"
      && !checkpoint.Malformed?
      && progress.done >= 0 && progress.total >= 0
      && (forall name | name in extensions :: !Blank(name) && extensions[name].Json?)
      && (progress.step.Some? ==> progress.step.value.Valid())
      && (delegation.Some? ==> !Blank(delegation.value.system) && !Blank(delegation.value.externalId))
      && (lease.recall.Some? ==> !Blank(lease.recall.value.reason) && lease.recall.value.until != 0)
    }

    predicate Delegated() {
      delegation.Some?
    }

    function Wants(): Want {
      if intent.Some? then intent.value.want else WantRun
    }

    predicate Paused() {
      Wants() == WantPause && !state.Terminal()
    }

    /** Stranded: this record's own state and intent leave work for a sweep. */
    predicate Stranded() {
      !state.Transferred? && (!Paused() || state.Running?)
    }

    predicate Claimable(now: Time) {
      !state.Terminal() && !lease.Held(now)
    }
  }

  /** What a lease holder does not own: immutablesOf / unmoved (go/immutable.go). */
  predicate Unmoved(was: Record, now: Record) {
    && was.id == now.id
    && was.kind == now.kind
    && was.spec == now.spec
    && was.createdAt == now.createdAt
    && was.envelope == now.envelope
  }
}
