/** The acceptance decisions (go/abstraction/job/acceptance/decision.go): pure branches over owner evidence. */
module Decision {
  import opened Options
  import opened JobRecord
  import opened Sorting

  datatype RequestIdentity = RequestIdentity(key: string, historyEpoch: string, attempt: int)

  datatype Submission = Submission(identity: RequestIdentity, kind: string, spec: string,
                                   requiredGuarantees: seq<string>, displayLabel: string)

  datatype Receipt = Receipt(identity: RequestIdentity, logicalOwner: string, operationId: string,
                             acceptedGuarantees: seq<string>, historyRetentionMs: int)

  datatype Outcome = Accepted | DefinitelyNotAccepted | Unknown | KeyConflict | Forbidden | InvalidInput | Unavailable

  datatype AcceptanceResult = AcceptanceResult(outcome: Outcome, receipt: Option<Receipt>, reason: string)

  function Answer(outcome: Outcome, reason: string): AcceptanceResult {
    AcceptanceResult(outcome, None, reason)
  }

  datatype Evidence = Evidence(callerScope: string, identity: RequestIdentity, arguments: Option<Submission>,
                               receipt: Option<Receipt>, historyAvailable: bool, historyExpired: bool,
                               sealedNonAcceptance: bool, decisionUnavailable: bool)

  datatype Previous = AbsentBefore | SealedBefore | AcceptedBefore | Contradictory

  /** state is None when the accepted previous attempt's operation could not be read. */
  datatype AttemptEvidence = AttemptEvidence(previous: Previous, state: Option<State>, latestAccepted: Option<Submission>)

  predicate ValidIdentity(v: RequestIdentity) {
    v.key != "" && v.historyEpoch != "" && v.attempt >= 0
  }

  // ----- Guarantee sets -----

  predicate NoRepeats(s: seq<string>) {
    forall i, j | 0 <= i < j < |s| :: s[i] != s[j]
  }

  /** guaranteeSet: the sorted names, or a refusal of an empty or repeated one. */
  function GuaranteeSet(v: seq<string>): Option<seq<string>> {
    var out := SortedCopy(StringLess, v);
    if exists i | 0 <= i < |out| :: out[i] == "" || (i > 0 && out[i] == out[i - 1]) then None else Some(out)
  }

  lemma SortedNoRepeats(s: seq<string>)
    requires Sorted(StringLess, s)
    requires forall i | 0 < i < |s| :: s[i] != s[i - 1]
    ensures NoRepeats(s)
  {
    StringLessOrders();
    forall i, j | 0 <= i < j < |s| ensures s[i] != s[j] {
      assert !StringLess(s[i + 1], s[i]) && s[i + 1] != s[i];
      assert StringLess(s[i], s[i + 1]);
      if i + 1 < j {
        assert !StringLess(s[j], s[i + 1]);
      }
    }
  }

  lemma RepeatsCounted(s: seq<string>)
    ensures NoRepeats(s) <==> forall x :: multiset(s)[x] <= 1
  {
    if NoRepeats(s) {
      forall x ensures multiset(s)[x] <= 1 {
        NoRepeatsCount(s, x);
      }
    } else {
      var i, j :| 0 <= i < j < |s| && s[i] == s[j];
      assert s == s[..i] + [s[i]] + s[i + 1..j] + [s[j]] + s[j + 1..];
      assert multiset(s)[s[i]] >= 2;
    }
  }

  lemma {:induction false} NoRepeatsCount(s: seq<string>, x: string)
    requires NoRepeats(s)
    ensures multiset(s)[x] == if x in s then 1 else 0
  {
    if s != [] {
      NoRepeatsCount(s[1..], x);
      assert s == [s[0]] + s[1..];
    }
  }

  /** A list of guarantee names is accepted exactly when no name is empty and none is repeated. */
  lemma GuaranteeSetAccepts(v: seq<string>)
    ensures GuaranteeSet(v).Some? <==> "" !in v && NoRepeats(v)
    ensures GuaranteeSet(v).Some? ==> GuaranteeSet(v).value == SortedCopy(StringLess, v)
  {
    var out := SortedCopy(StringLess, v);
    SortedIds(v);
    StringLessOrders();
    SortedCopySorts(StringLess, v);
    RepeatsCounted(v);
    RepeatsCounted(out);
    if forall i | 0 < i < |out| :: out[i] != out[i - 1] {
      SortedNoRepeats(out);
    }
  }

  predicate ValidSubmission(v: Submission) {
    ValidIdentity(v.identity) && v.kind != "" && NormalizeLabel(v.displayLabel).Some? && GuaranteeSet(v.requiredGuarantees).Some?
  }

  predicate SameArguments(a: Submission, b: Submission) {
    var x := GuaranteeSet(a.requiredGuarantees);
    var y := GuaranteeSet(b.requiredGuarantees);
    x.Some? && y.Some? && a.kind == b.kind && a.spec == b.spec && x == y
  }

  lemma SameSetSameMultiset(a: seq<string>, b: seq<string>)
    requires NoRepeats(a) && NoRepeats(b)
    requires forall g :: g in a <==> g in b
    ensures multiset(a) == multiset(b)
  {
    forall g ensures multiset(a)[g] == multiset(b)[g] {
      NoRepeatsCount(a, g);
      NoRepeatsCount(b, g);
    }
  }

  /** The same work under the same set of promises. */
  ghost predicate SameAs(a: Submission, b: Submission) {
    && a.kind == b.kind && a.spec == b.spec
    && forall g :: g in a.requiredGuarantees <==> g in b.requiredGuarantees
  }

  /** [JOB-A2] Submission equality is kind, exact specification bytes and the set of guarantee names. */
  lemma SameArgumentsIsSetEquality(a: Submission, b: Submission)
    requires GuaranteeSet(a.requiredGuarantees).Some? && GuaranteeSet(b.requiredGuarantees).Some?
    ensures SameArguments(a, b) <==> SameAs(a, b)
  {
    var x, y := a.requiredGuarantees, b.requiredGuarantees;
    GuaranteeSetAccepts(x);
    GuaranteeSetAccepts(y);
    SortedIds(x);
    SortedIds(y);
    if forall g :: g in x <==> g in y {
      SameSetSameMultiset(x, y);
      StringLessOrders();
      SortedCopySorts(StringLess, x);
      SortedCopySorts(StringLess, y);
      SortedIsUnique(StringLess, SortedCopy(StringLess, x), SortedCopy(StringLess, y));
    } else {
      var g :| (g in x) != (g in y);
      assert (g in SortedCopy(StringLess, x)) != (g in SortedCopy(StringLess, y));
    }
  }

  // ----- Display labels -----

  const MAX_LABEL_BYTES: nat := 256

  /** Bytes a code point takes in UTF-8. */
  function Utf8Size(c: char): nat {
    if c < '\U{0080}' then 1 else if c < '\U{0800}' then 2 else if c < '\U{10000}' then 3 else 4
  }

  function Utf8Length(s: string): nat {
    if s == "" then 0 else Utf8Size(s[0]) + Utf8Length(s[1..])
  }

  function TrimLeft(s: string): string {
    if s != "" && IsSpace(s[0]) then TrimLeft(s[1..]) else s
  }

  function TrimRight(s: string): string {
    if s != "" && IsSpace(s[|s| - 1]) then TrimRight(s[..|s| - 1]) else s
  }

  function Trim(s: string): string {
    TrimRight(TrimLeft(s))
  }

  predicate OneLine(s: string) {
    forall i | 0 <= i < |s| :: s[i] >= ' ' && s[i] !in {'\U{007F}', '\U{2028}', '\U{2029}'}
  }

  /** NormalizeLabel, for labels that are valid UTF-8: trimmed, or refused. */
  function NormalizeLabel(displayLabel: string): Option<string> {
    var text := Trim(displayLabel);
    if Utf8Length(text) > MAX_LABEL_BYTES || !OneLine(text) then None else Some(text)
  }

  lemma {:induction false} TrimRightEnds(s: string)
    ensures TrimRight(s) != "" ==> !IsSpace(TrimRight(s)[|TrimRight(s)| - 1]) && TrimRight(s)[0] == s[0]
    ensures TrimRight(s) != "" ==> s != ""
  {
    if s != "" && IsSpace(s[|s| - 1]) {
      TrimRightEnds(s[..|s| - 1]);
    }
  }

  lemma {:induction false} TrimLeftStarts(s: string)
    ensures TrimLeft(s) != "" ==> !IsSpace(TrimLeft(s)[0])
  {
    if s != "" && IsSpace(s[0]) {
      TrimLeftStarts(s[1..]);
    }
  }

  /** [JOB-A12] A stored label is its own normal form, so the journal decoder accepts what admission stored. */
  lemma NormalizeLabelIdempotent(displayLabel: string)
    requires NormalizeLabel(displayLabel).Some?
    ensures NormalizeLabel(NormalizeLabel(displayLabel).value) == NormalizeLabel(displayLabel)
  {
    TrimLeftStarts(displayLabel);
    TrimRightEnds(TrimLeft(displayLabel));
    var t := Trim(displayLabel);
    if t != "" {
      assert TrimLeft(t) == t && TrimRight(t) == t;
    }
  }

  lemma {:induction false} TrimLeftDrops(s: string) returns (before: string)
    ensures s == before + TrimLeft(s) && Blank(before)
  {
    before := "";
    if s != "" && IsSpace(s[0]) {
      before := TrimLeftDrops(s[1..]);
      before := s[..1] + before;
    }
  }

  lemma {:induction false} TrimRightDrops(s: string) returns (after: string)
    ensures s == TrimRight(s) + after && Blank(after)
  {
    after := "";
    if s != "" && IsSpace(s[|s| - 1]) {
      after := TrimRightDrops(s[..|s| - 1]);
      after := after + [s[|s| - 1]];
    }
  }

  /** The text of a label between the whitespace around it. */
  ghost predicate InnerText(displayLabel: string, before: string, text: string, after: string) {
    && displayLabel == before + text + after && Blank(before) && Blank(after)
    && (text != "" ==> !IsSpace(text[0]) && !IsSpace(text[|text| - 1]))
  }

  /** [JOB-A12] A label has one inner text; the label is refused exactly when that text is over 256 bytes or not one
      line, and otherwise it is what is stored. */
  lemma NormalizeLabelIs(displayLabel: string) returns (before: string, text: string, after: string)
    ensures InnerText(displayLabel, before, text, after)
    ensures NormalizeLabel(displayLabel) == if Utf8Length(text) <= 256 && OneLine(text) then Some(text) else None
  {
    before := TrimLeftDrops(displayLabel);
    after := TrimRightDrops(TrimLeft(displayLabel));
    text := Trim(displayLabel);
    TrimLeftStarts(displayLabel);
    TrimRightEnds(TrimLeft(displayLabel));
  }

  // ----- Decisions -----

  /** ValidateResult: binds a receipt to the identity and the logical owner. */
  predicate ValidResult(v: AcceptanceResult, id: RequestIdentity, owner: string) {
    && ValidIdentity(id) && owner != ""
    && if v.outcome.Accepted? then
         && v.receipt.Some?
         && var r := v.receipt.value;
         && r.identity == id && r.logicalOwner == owner && r.operationId != "" && r.historyRetentionMs > 0
         && GuaranteeSet(r.acceptedGuarantees).Some?
       else v.receipt.None?
  }

  /** AttemptEligibility: None is eligible; a refusal must be answered without writing anything for id. */
  function AttemptEligibility(id: RequestIdentity, submitted: Option<Submission>, e: AttemptEvidence): Option<AcceptanceResult> {
    if id.attempt < 0 then Some(Answer(InvalidInput, "attempt must be nonnegative"))
    else if id.attempt == 0 then None
    else if e.previous.AbsentBefore? then Some(Answer(InvalidInput, "previous attempt absent"))
    else if e.previous.Contradictory? then Some(Answer(Unknown, "contradictory previous attempt evidence"))
    else if e.previous.AcceptedBefore? && e.state.None? then Some(Answer(Unknown, "previous attempt state unavailable"))
    else if e.previous.AcceptedBefore? && e.state.value.OtherState? then Some(Answer(Unknown, "contradictory previous attempt state"))
    else if e.previous.AcceptedBefore? && !e.state.value.Failed? then Some(Answer(InvalidInput, "previous attempt has not failed terminally"))
    else if submitted.None? then None
    else if e.latestAccepted.None? then
      if e.previous.AcceptedBefore? then Some(Answer(Unknown, "previous attempt arguments unavailable")) else None
    else if !SameArguments(submitted.value, e.latestAccepted.value) then
      Some(Answer(KeyConflict, "retry arguments differ from the accepted attempt"))
    else None
  }

  /** [JOB-A7] A retry is eligible exactly after a failed or sealed attempt, with the arguments of the latest
      accepted one. */
  lemma EligibleIff(id: RequestIdentity, submitted: Option<Submission>, e: AttemptEvidence)
    ensures AttemptEligibility(id, submitted, e).None?
            <==> || id.attempt == 0
                 || (&& id.attempt > 0
                     && (e.previous.SealedBefore? || (e.previous.AcceptedBefore? && e.state == Some(Failed)))
                     && (submitted.Some? ==>
                           if e.latestAccepted.Some? then SameArguments(submitted.value, e.latestAccepted.value)
                           else e.previous.SealedBefore?))
    ensures AttemptEligibility(id, submitted, e).Some? ==>
              var v := AttemptEligibility(id, submitted, e).value;
              v.receipt.None? && v.outcome in {InvalidInput, Unknown, KeyConflict}
  {
  }

  /** Which refusal an ineligible retry gets: a conflict for other arguments than the accepted ones, an invalid request
      when the attempt before it is absent or has not failed, and unknown for evidence that cannot be read. */
  lemma IneligibleIs(id: RequestIdentity, submitted: Option<Submission>, e: AttemptEvidence)
    requires id.attempt > 0 && AttemptEligibility(id, submitted, e).Some?
    ensures var outcome := AttemptEligibility(id, submitted, e).value.outcome;
            var unreadable := e.previous.Contradictory?
                              || (e.previous.AcceptedBefore? && (e.state.None? || e.state.value.OtherState?));
            var unfinished := e.previous.AcceptedBefore? && e.state.Some? && e.state.value in {Pending, Running, Transferred, Complete, Cancelled};
            && (outcome.InvalidInput? <==> e.previous.AbsentBefore? || unfinished)
            && (outcome.KeyConflict? <==>
                  && (e.previous.SealedBefore? || (e.previous.AcceptedBefore? && e.state == Some(Failed)))
                  && submitted.Some? && e.latestAccepted.Some? && !SameArguments(submitted.value, e.latestAccepted.value))
            && (outcome.Unknown? <==>
                  || unreadable
                  || (&& e.previous.AcceptedBefore? && e.state == Some(Failed)
                      && submitted.Some? && e.latestAccepted.None?))
  {
  }

  /** The answer from retained evidence that holds a receipt. */
  function Replayed(owner: string, id: RequestIdentity, submitted: Option<Submission>, e: Evidence): AcceptanceResult
    requires e.receipt.Some?
  {
    if e.sealedNonAcceptance then Answer(Unknown, "contradictory owner evidence")
    else
      var v := AcceptanceResult(Accepted, e.receipt, "original acceptance");
      if !ValidResult(v, id, owner) then Answer(Unknown, "invalid owner receipt")
      else if e.arguments.Some? && (e.arguments.value.identity != id || !ValidSubmission(e.arguments.value)) then
        Answer(Unknown, "invalid retained arguments")
      else if e.arguments.Some?
              && exists g | g in e.arguments.value.requiredGuarantees :: g !in e.receipt.value.acceptedGuarantees then
        Answer(Unknown, "receipt weakens required guarantees")
      else if submitted.Some? && e.arguments.None? then Answer(Unknown, "argument evidence unavailable")
      else if submitted.Some? && !SameArguments(submitted.value, e.arguments.value) then
        Answer(KeyConflict, "identity reused with different arguments")
      else v
  }

  /** What is answered before any evidence is weighed; None lets the evidence answer. */
  function Unanswerable(callerScope: string, owner: string, id: RequestIdentity, submitted: Option<Submission>, e: Evidence):
    (r: Option<AcceptanceResult>)
    ensures r.Some? ==> r.value.receipt.None? && r.value.outcome in {Forbidden, Unavailable, InvalidInput, Unknown}
    ensures r.None? ==> callerScope == e.callerScope && callerScope != "" && e.identity == id && !e.decisionUnavailable
  {
    if callerScope == "" || callerScope != e.callerScope then
      Some(Answer(Forbidden, "authenticated scope unavailable or not authorized"))
    else if e.decisionUnavailable then
      Some(Answer(Unavailable, "policy decision unavailable; the same identity may be presented again"))
    else if !ValidIdentity(id) || owner == "" then Some(Answer(InvalidInput, "identity and owner required"))
    else if submitted.Some? && (!ValidSubmission(submitted.value) || submitted.value.identity != id) then
      Some(Answer(InvalidInput, "invalid submission"))
    else if e.identity != id || !e.historyAvailable || e.historyExpired then
      Some(Answer(Unknown, "history unavailable or expired"))
    else None
  }

  /** An acceptance or a conflict comes from a retained receipt, a definite negative from a seal without one [JOB-A4],
      each in the caller's own scope. */
  function ReconcileEvidence(callerScope: string, owner: string, id: RequestIdentity, submitted: Option<Submission>,
                             e: Evidence): (v: AcceptanceResult)
    ensures v.outcome in {Accepted, KeyConflict} ==>
              callerScope == e.callerScope && e.receipt.Some? && v == Replayed(owner, id, submitted, e)
    ensures v.outcome.DefinitelyNotAccepted? ==>
              callerScope == e.callerScope && e.sealedNonAcceptance && e.receipt.None? && e.identity == id
  {
    var refused := Unanswerable(callerScope, owner, id, submitted, e);
    if refused.Some? then refused.value
    else if e.receipt.Some? then ReplayedProves(owner, id, submitted, e); Replayed(owner, id, submitted, e)
    else if e.sealedNonAcceptance then Answer(DefinitelyNotAccepted, "identity sealed against acceptance")
    else Answer(Unknown, "no authoritative sealed acceptance history")
  }

  /** [JOB-A2] A retained receipt is answered only unsealed, covering every guarantee the retained arguments require,
      and to a caller whose own arguments, if it sent any, are equal to them; a conflict means they differ. */
  lemma ReplayedProves(owner: string, id: RequestIdentity, submitted: Option<Submission>, e: Evidence)
    requires e.receipt.Some?
    ensures var v := Replayed(owner, id, submitted, e);
            && v.outcome in {Accepted, KeyConflict, Unknown}
            && (v.outcome.Accepted? ==>
                  && !e.sealedNonAcceptance && v.receipt == e.receipt
                  && (e.arguments.Some? ==> forall g | g in e.arguments.value.requiredGuarantees :: g in e.receipt.value.acceptedGuarantees)
                  && (submitted.Some? ==> e.arguments.Some? && SameArguments(submitted.value, e.arguments.value)))
            && (v.outcome.KeyConflict? ==> submitted.Some? && e.arguments.Some? && !SameArguments(submitted.value, e.arguments.value))
            && (ValidIdentity(id) && owner != "" ==> ValidResult(v, id, owner))
  {
  }

  /** A request that may be answered from evidence: an authenticated caller in its own scope, a well-formed identity and
      submission, a decision at hand, and history that covers the identity. */
  predicate Heard(callerScope: string, owner: string, id: RequestIdentity, submitted: Option<Submission>, e: Evidence) {
    && callerScope != "" && callerScope == e.callerScope && owner != "" && ValidIdentity(id)
    && (submitted.Some? ==> ValidSubmission(submitted.value) && submitted.value.identity == id)
    && e.identity == id && e.historyAvailable && !e.historyExpired && !e.decisionUnavailable
  }

  /** A receipt that may be replayed: nothing contradicts it, and it covers what the retained arguments require. */
  predicate SoundReceipt(owner: string, id: RequestIdentity, e: Evidence) {
    && e.receipt.Some? && !e.sealedNonAcceptance
    && ValidResult(AcceptanceResult(Accepted, e.receipt, "original acceptance"), id, owner)
    && (e.arguments.Some? ==>
          && e.arguments.value.identity == id && ValidSubmission(e.arguments.value)
          && forall g | g in e.arguments.value.requiredGuarantees :: g in e.receipt.value.acceptedGuarantees)
  }

  /** Which requests get no answer from evidence, and what they get instead. */
  lemma UnanswerableIff(callerScope: string, owner: string, id: RequestIdentity, submitted: Option<Submission>, e: Evidence)
    ensures var r := Unanswerable(callerScope, owner, id, submitted, e);
            var own := callerScope != "" && callerScope == e.callerScope;
            var formed := ValidIdentity(id) && owner != ""
                          && (submitted.Some? ==> ValidSubmission(submitted.value) && submitted.value.identity == id);
            && (r.None? <==> Heard(callerScope, owner, id, submitted, e))
            && (r.Some? ==>
                  && (r.value.outcome.Forbidden? <==> !own)
                  && (r.value.outcome.Unavailable? <==> own && e.decisionUnavailable)
                  && (r.value.outcome.InvalidInput? <==> own && !e.decisionUnavailable && !formed))
  {
  }

  lemma ReplayedIff(owner: string, id: RequestIdentity, submitted: Option<Submission>, e: Evidence)
    requires e.receipt.Some?
    ensures var v := Replayed(owner, id, submitted, e);
            var same := submitted.Some? ==> e.arguments.Some? && SameArguments(submitted.value, e.arguments.value);
            && (v.outcome.Accepted? <==> SoundReceipt(owner, id, e) && same)
            && (v.outcome.KeyConflict? <==> SoundReceipt(owner, id, e) && e.arguments.Some? && !same)
            && v.outcome in {Accepted, KeyConflict, Unknown}
            && (v.outcome.Accepted? ==> v.receipt == e.receipt)
  {
  }

  /** [JOB-A2] [JOB-A4] Exactly when evidence gives an informative answer: a sound receipt is replayed to equal arguments
      or to none and conflicts with any other, and a seal without one is a definite negative. */
  lemma ReconcileEvidenceIff(callerScope: string, owner: string, id: RequestIdentity, submitted: Option<Submission>,
                             e: Evidence)
    ensures var v := ReconcileEvidence(callerScope, owner, id, submitted, e);
            var heard := Heard(callerScope, owner, id, submitted, e);
            var sound := heard && SoundReceipt(owner, id, e);
            var same := submitted.Some? ==> e.arguments.Some? && SameArguments(submitted.value, e.arguments.value);
            && (v.outcome.Accepted? <==> sound && same)
            && (v.outcome.Accepted? ==> v.receipt == e.receipt)
            && (v.outcome.KeyConflict? <==> sound && e.arguments.Some? && !same)
            && (v.outcome.DefinitelyNotAccepted? <==> heard && e.receipt.None? && e.sealedNonAcceptance)
            && (v.outcome in {Forbidden, Unavailable, InvalidInput} ==> !heard)
  {
    UnanswerableIff(callerScope, owner, id, submitted, e);
    if e.receipt.Some? {
      ReplayedIff(owner, id, submitted, e);
    }
  }

  /** Every answer is one a receiver's ValidateResult accepts. */
  lemma AnswersAreValid(callerScope: string, owner: string, id: RequestIdentity, submitted: Option<Submission>, e: Evidence)
    requires ValidIdentity(id) && owner != ""
    ensures ValidResult(ReconcileEvidence(callerScope, owner, id, submitted, e), id, owner)
  {
    if e.receipt.Some? {
      ReplayedProves(owner, id, submitted, e);
    }
  }
}
