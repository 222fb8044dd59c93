/** What a provider call may conclude, at whatever later moment it writes, from what it read before. */
module ProviderFacts {
  import opened Options
  import opened JobRecord
  import opened Decision
  import opened LeaseProtocol
  import opened FileBinding
  import opened Spelling
  import opened Admission
  import opened AdmissionRuns

  datatype StandingAnswer = Permitted | RuleRefuses(word: string) | NoDecision

  /** What one call draws from outside: whether file operations succeed, where it is interrupted, the guarantees on
      offer now, what the executor's admission and the standing decision answer, the label it derives, the clock, and two
      fresh ids. */
  datatype Inputs = Inputs(
    io: (string, int) -> bool,
    crash: string -> bool,
    supported: seq<string>,
    admission: Option<(Outcome, string)>,
    standing: Option<StandingAnswer>,
    derived: string,
    now: Time,
    newId: string,
    rerunId: string)

  predicate InputsOk(cfg: Config, inputs: Inputs) {
    && (forall g | g in inputs.supported :: g in cfg.recoverable)
    && (forall g | g in GUARANTEES :: g in inputs.supported)
    && ValidOperationId(inputs.newId) && ValidOperationId(inputs.rerunId) && inputs.newId != inputs.rerunId
  }

  // ----- Between a call's reads and writes -----

  /** v comes after w while a call that has drawn the ids `mine` waits: nobody else draws them, and the process keeps
      what it remembered. */
  ghost predicate Since(cfg: Config, w: World, v: World, mine: set<string>) {
    Leads(cfg, w, v) && mine * v.ids.Keys <= w.ids.Keys && w.marked <= v.marked
  }

  lemma SinceRefl(cfg: Config, w: World, mine: set<string>)
    ensures Since(cfg, w, w, mine)
  {
    LeadsRefl(cfg, w);
  }

  lemma SinceTrans(cfg: Config, w: World, v: World, x: World, mine: set<string>)
    requires Since(cfg, w, v, mine) && Since(cfg, v, x, mine)
    ensures Since(cfg, w, x, mine)
  {
    LeadsTrans(cfg, w, v, x);
  }

  lemma SinceLess(cfg: Config, w: World, v: World, more: set<string>, mine: set<string>)
    requires Since(cfg, w, v, more) && mine <= more
    ensures Since(cfg, w, v, mine)
  {
  }

  /** The id an action hands out. */
  function Drawn(a: Action): set<string> {
    match a
    case Decide(_, j) => if j.Live? then {Operation(j)} else {}
    case Rerun(_, operation, _, _) => {operation}
    case _ => {}
  }

  lemma SinceStep(cfg: Config, w: World, a: Action, mine: set<string>)
    requires Reachable(cfg, w) && Enabled(cfg, w, a) && !a.Restart? && Drawn(a) !! mine
    ensures Since(cfg, w, Apply(cfg, w, a), mine) && Reachable(cfg, Apply(cfg, w, a))
  {
    LeadsStep(cfg, w, a);
    ReachableLeads(cfg, w, Apply(cfg, w, a));
  }

  /** The world after one change of this call, spelled out. */
  function Inserting(cfg: Config, w: World, p: Path, now: Time): World
    requires IsLive(w, p)
  {
    var j := w.journals[p];
    w.(jobs := w.jobs[Operation(j) := Stored(Proposed(Proposal(cfg, j), Operation(j), now))])
  }

  lemma InsertStep(cfg: Config, w: World, p: Path, now: Time, mine: set<string>)
    requires Reachable(cfg, w) && Enabled(cfg, w, Insert(p, now))
    ensures Since(cfg, w, Inserting(cfg, w, p, now), mine) && Reachable(cfg, Inserting(cfg, w, p, now))
    ensures OnlyRecord(w.jobs, Inserting(cfg, w, p, now).jobs, Operation(w.journals[p]))
  {
    SinceStep(cfg, w, Insert(p, now), mine);
  }

  function Publishing(w: World, p: Path): World
    requires IsLive(w, p)
  {
    w.(journals := w.journals[p := w.journals[p].(published := true)])
  }

  lemma PublishStep(cfg: Config, w: World, p: Path, mine: set<string>)
    requires Reachable(cfg, w) && Enabled(cfg, w, Publish(p))
    ensures Since(cfg, w, Publishing(w, p), mine) && Reachable(cfg, Publishing(w, p))
  {
    SinceStep(cfg, w, Publish(p), mine);
  }

  function Rerunning(cfg: Config, w: World, p: Path, operation: string, s: Submission, subject: Option<string>): World
    requires IsLive(w, p) && p in w.named
  {
    w.(journals := w.journals[p := RerunJournal(cfg, p, w.journals[p], operation, s, subject)],
       ids := w.ids[operation := Place(p, |w.named[p]|)], named := w.named[p := w.named[p] + [operation]], reran := w.reran + {p})
  }

  lemma RerunStep(cfg: Config, w: World, p: Path, operation: string, s: Submission, subject: Option<string>, mine: set<string>)
    requires Reachable(cfg, w) && Enabled(cfg, w, Rerun(p, operation, s, subject)) && operation !in mine
    ensures p in w.named
    ensures var v := Rerunning(cfg, w, p, operation, s, subject); Since(cfg, w, v, mine) && Reachable(cfg, v)
  {
    JournalNamed(cfg, w, p);
    SinceStep(cfg, w, Rerun(p, operation, s, subject), mine);
  }

  lemma JournalSince(cfg: Config, w: World, v: World, mine: set<string>, p: Path)
    requires Reachable(cfg, w) && Since(cfg, w, v, mine) && p in w.journals
    ensures JournalLater(cfg, w, v, p)
  {
    LeadsLater(cfg, w, v);
  }

  lemma JobSince(cfg: Config, w: World, v: World, mine: set<string>, id: string)
    requires Reachable(cfg, w) && Since(cfg, w, v, mine) && id in w.jobs
    ensures id in v.jobs && JobLater(w.jobs[id], v.jobs[id])
  {
    LeadsLater(cfg, w, v);
  }

  lemma HeaderSince(cfg: Config, w: World, v: World, mine: set<string>)
    requires Reachable(cfg, w) && Since(cfg, w, v, mine)
    ensures w.header <= v.header
  {
    LeadsLater(cfg, w, v);
  }

  // ----- Facts a caller keeps from what it read -----

  /** What gathered evidence about earlier attempts proves of any later world. */
  ghost predicate EvidenceHolds(w: World, p: Path, e: AttemptEvidence) {
    && (e.previous.SealedBefore? ==> IsSealed(w, p.Previous()))
    && (e.previous.AcceptedBefore? ==> IsLive(w, p.Previous()))
    && (e.previous.AcceptedBefore? && e.state == Some(Failed) ==> Ended(w, p.Previous()) || p.Previous() in w.reran)
    && (e.latestAccepted.Some? && (e.previous.SealedBefore? || e.previous.AcceptedBefore?) ==>
          exists q :: IsLive(w, q) && q.SameKey(p) && w.journals[q].arguments == e.latestAccepted.value)
    && (e.latestAccepted.None? && (e.previous.SealedBefore? || e.previous.AcceptedBefore?) ==>
          forall q | q in w.journals && q.SameKey(p) && q.identity.attempt < p.identity.attempt :: w.journals[q].Sealed?)
  }

  lemma EndedStays(cfg: Config, w: World, v: World, p: Path)
    requires Later(cfg, w, v)
    requires Ended(w, p) || p in w.reran
    ensures Ended(v, p) || p in v.reran
  {
    if Ended(w, p) {
      assert JournalLater(cfg, w, v, p);
      var j := w.journals[p];
      if j.Live? && Operation(j) in w.jobs && w.jobs[Operation(j)].state.Failed? {
        assert JobLater(w.jobs[Operation(j)], v.jobs[Operation(j)]);
        assert Settled(v.jobs[Operation(j)]).state == Settled(w.jobs[Operation(j)]).state;
      }
    }
  }

  lemma EvidenceStays(cfg: Config, w: World, v: World, p: Path, e: AttemptEvidence)
    requires NamesOk(w) && ChainOk(v) && Later(cfg, w, v) && EvidenceHolds(w, p, e)
    requires forall q | q in w.journals :: q.identity.attempt >= 0
    requires forall q | q in v.journals :: q.identity.attempt >= 0
    requires ChainOk(w)
    ensures EvidenceHolds(v, p, e)
  {
    if p.Previous() in w.journals {
      assert JournalLater(cfg, w, v, p.Previous());
      if Ended(w, p.Previous()) || p.Previous() in w.reran {
        EndedStays(cfg, w, v, p.Previous());
      }
    }
    if e.previous.SealedBefore? || e.previous.AcceptedBefore? {
      if e.latestAccepted.Some? {
        var q :| IsLive(w, q) && q.SameKey(p) && w.journals[q].arguments == e.latestAccepted.value;
        assert JournalLater(cfg, w, v, q);
        assert IsLive(v, q) && v.journals[q].arguments == e.latestAccepted.value;
      } else {
        forall q | q in v.journals && q.SameKey(p) && q.identity.attempt < p.identity.attempt
          ensures v.journals[q].Sealed?
        {
          Earlier(w, p.Previous(), q);
          assert JournalLater(cfg, w, v, q);
        }
      }
    }
  }

  lemma {:induction false} Earlier(w: World, p: Path, q: Path)
    requires ChainOk(w) && p in w.journals && q.SameKey(p) && 0 <= q.identity.attempt <= p.identity.attempt
    ensures q in w.journals
    decreases p.identity.attempt - q.identity.attempt
  {
    if q.identity.attempt < p.identity.attempt {
      Earlier(w, p.Previous(), q);
    } else {
      assert q == p;
    }
  }

  lemma AttemptsNonnegative(cfg: Config, w: World)
    requires JournalsOk(cfg, w)
    ensures forall q | q in w.journals :: q.identity.attempt >= 0
  {
  }

  /** Eligible evidence lets the journal in, at whatever later moment its lock is taken. */
  lemma EligibleAllows(w: World, p: Path, s: Option<Submission>, e: AttemptEvidence, j: Journal)
    requires ChainOk(w) && ArgumentsOk(w) && (forall q | q in w.journals :: q.identity.attempt >= 0)
    requires p !in w.journals && p.identity.attempt >= 0
    requires p.identity.attempt > 0 ==> EvidenceHolds(w, p, e) && AttemptEligibility(p.identity, s, e).None?
    requires j.Live? ==> s.Some? && SameAs(j.arguments, s.value)
    requires j.Live? && p.identity.attempt > 0 && e.latestAccepted.Some? ==> SameAs(s.value, e.latestAccepted.value)
    ensures EarlierAllow(w, p, j)
  {
    if j.Live? {
      forall q | IsLive(w, q) && q.SameKey(p) ensures SameAs(j.arguments, w.journals[q].arguments) {
        if q.identity.attempt >= p.identity.attempt {
          Earlier(w, q, p);
          assert false;
        }
        var r :| IsLive(w, r) && r.SameKey(p) && w.journals[r].arguments == e.latestAccepted.value;
        assert r.SameKey(q);
      }
    }
  }

  lemma EligibleSame(id: RequestIdentity, s: Option<Submission>, e: AttemptEvidence)
    requires AttemptEligibility(id, s, e).None? && id.attempt > 0 && s.Some? && e.latestAccepted.Some?
    ensures SameAs(s.value, e.latestAccepted.value)
  {
    SameArgumentsIsSetEquality(s.value, e.latestAccepted.value);
  }

  // ----- New journals -----

  function AdmitWork(cfg: Config, p: Path, subject: Option<string>, s: Submission, id: string): Option<Work>
    requires cfg.executor.Some?
  {
    var work := cfg.executor.value.prepare(Binding(p.scope, subject), id, TaskOf(s));
    if work.None? || |work.value.spec| > MAX_SPEC_BYTES || !cfg.validJson(work.value.spec) then None else work
  }

  function AcceptedJournal(cfg: Config, p: Path, binding: Binding, s: Submission, shown: StoredLabel,
                           accepted: seq<string>, work: Option<Work>, id: string): Journal {
    Live(false, s, Receipt(p.identity, cfg.owner, id, accepted, cfg.retentionMs), work, false, binding.subject, shown, false)
  }

  /** admission: the executor's refusal of a submission whose guarantees are on offer. */
  function AdmissionRefusal(cfg: Config, inputs: Inputs, s: Submission): (r: Option<AcceptanceResult>)
    ensures r.Some? ==> r.value.receipt.None? && r.value.outcome in {InvalidInput, Forbidden, Unavailable}
  {
    if cfg.executor.None? || inputs.admission.None? || AcceptedFrom(inputs.supported, s.requiredGuarantees).None? then None
    else
      var (word, reason) := inputs.admission.value;
      if word !in {InvalidInput, Forbidden, Unavailable} then None
      else Some(Answer(word, if reason == "" || |reason| > 1024 then "the executor refused this submission" else reason))
  }

  /** What keeps a submission from being admitted at all: its guarantees are on offer, and the executor's own admission
      answers one of three refusals. */
  lemma AdmissionRefusalIs(cfg: Config, inputs: Inputs, s: Submission)
    ensures var r := AdmissionRefusal(cfg, inputs, s);
            && (r.Some? <==>
                  && cfg.executor.Some? && inputs.admission.Some?
                  && inputs.admission.value.0 in {InvalidInput, Forbidden, Unavailable}
                  && forall g | g in s.requiredGuarantees :: g in inputs.supported)
            && (r.Some? ==>
                  && r.value.outcome == inputs.admission.value.0 && 0 < |r.value.reason| <= 1024
                  && (0 < |inputs.admission.value.1| <= 1024 ==> r.value.reason == inputs.admission.value.1))
  {
  }

  lemma SameLists(supported: seq<string>, recoverable: seq<string>, required: seq<string>)
    requires forall g | g in supported :: g in recoverable
    requires AcceptedFrom(supported, required).Some?
    ensures AcceptedFrom(recoverable, required) == AcceptedFrom(supported, required)
  {
  }

  lemma AcceptedReconciles(cfg: Config, p: Path, j: Journal)
    requires cfg.Valid() && PathOk(cfg, p) && j.Live?
    requires j.arguments.identity == p.identity && ValidSubmission(j.arguments)
    requires j.receipt.identity == p.identity && j.receipt.logicalOwner == cfg.owner
    requires Operation(j) != "" && j.receipt.historyRetentionMs == cfg.retentionMs
    requires GuaranteeSet(j.receipt.acceptedGuarantees).Some?
    requires forall g | g in j.arguments.requiredGuarantees :: g in j.receipt.acceptedGuarantees
    ensures ReconcileEvidence(p.scope, cfg.owner, p.identity, None, Retained(p, j)).outcome.Accepted?
  {
    assert ValidResult(AcceptanceResult(Accepted, Some(j.receipt), "original acceptance"), p.identity, cfg.owner);
  }

  /** What admission writes is what recovery's decoder accepts. */
  lemma AcceptedDecodes(cfg: Config, marked: set<Feature>, p: Path, binding: Binding, s: Submission, shown: StoredLabel,
                        supported: seq<string>, work: Option<Work>, id: string)
    requires cfg.Valid() && PathOk(cfg, p) && s.identity == p.identity && ValidSpec(cfg, s)
    requires forall g | g in supported :: g in cfg.recoverable
    requires AcceptedFrom(supported, s.requiredGuarantees).Some? && ValidOperationId(id)
    requires if cfg.executor.Some? then work.Some? && work == cfg.executor.value.prepare(Binding(p.scope, binding.subject), id, TaskOf(s))
             else work.None?
    requires NormalizeLabel(shown.text) == Some(shown.text) && (shown.derived ==> shown.text != "")
    requires binding.subject.Some? ==> SubjectsFeature in marked
    ensures Decodes(cfg, marked, p,
                    AcceptedJournal(cfg, p, binding, s, shown, AcceptedFrom(supported, s.requiredGuarantees).value, work, id))
  {
    var accepted := AcceptedFrom(supported, s.requiredGuarantees).value;
    SameLists(supported, cfg.recoverable, s.requiredGuarantees);
    AcceptedCovers(supported, s.requiredGuarantees);
    AcceptedReconciles(cfg, p, AcceptedJournal(cfg, p, binding, s, shown, accepted, work, id));
  }

  // ----- Recovery -----

  lemma ProposalSize(cfg: Config, j: Journal, now: Time)
    requires j.Live?
    ensures Timeless(Proposed(Proposal(cfg, j), Operation(j), now)) == Timeless(Proposed(Proposal(cfg, j), Operation(j), 0))
  {
  }

  /** The store takes this journal's fresh record and gives back one that loads and matches, exactly when the work is JSON,
      not null, holds no raw separator, nests within the limit, and its record within the reader's bound. */
  lemma ProposalStorable(cfg: Config, j: Journal, now: Time)
    requires j.Live? && !Blank(Operation(j)) && !Blank(j.arguments.kind)
    ensures var r := Proposed(Proposal(cfg, j), Operation(j), now);
            Storable(cfg, j) <==> r.Valid() && Readable(cfg, Stored(r)) && Matches(cfg, j, Stored(r))
  {
    var r, spec := Proposed(Proposal(cfg, j), Operation(j), now), cfg.readPayload(WorkSpec(j));
    ProposalSize(cfg, j, now);
    if spec.Json? {
      RespelledIff(spec.text);
      assert Stored(r).spec == r.spec ==> Stored(r) == r;
    }
  }

  lemma OperationIdHasWords(id: string)
    requires ValidOperationId(id)
    ensures !Blank(id)
  {
    assert !IsSpace(id[0]);
  }

  lemma DecodedNames(cfg: Config, marked: set<Feature>, p: Path, j: Journal)
    requires Recorded(cfg, marked, p, j) && j.Live?
    ensures !Blank(Operation(j)) && !Blank(j.arguments.kind)
  {
    OperationIdHasWords(Operation(j));
  }

  /** A record that loads and matches shows that its work can be held. */
  lemma LoadedIsHoldable(cfg: Config, j: Journal, r: Record)
    requires j.Live? && !j.legacy && Carries(cfg, j, r) && Readable(cfg, r) && Matches(cfg, j, r)
    ensures Holdable(cfg, j)
  {
    RespelledIff(r.spec.text);
  }

  /** What inserting this journal's record now leads to. */
  lemma ProposalNow(cfg: Config, w: World, p: Path, now: Time)
    requires Reachable(cfg, w) && IsLive(w, p)
    ensures var j := w.journals[p];
            var r := Proposed(Proposal(cfg, j), Operation(j), now);
            Storable(cfg, j) <==> r.Valid() && Readable(cfg, Stored(r)) && Matches(cfg, j, Stored(r))
  {
    JournalRecorded(cfg, w, p);
    DecodedNames(cfg, w.marked, p, w.journals[p]);
    ProposalStorable(cfg, w.journals[p], now);
  }

  /** A journal whose record cannot be inserted is stuck. */
  lemma UninsertableIsStuck(cfg: Config, w: World, p: Path, now: Time)
    requires Reachable(cfg, w) && IsLive(w, p) && Operation(w.journals[p]) !in w.jobs
    requires !Proposed(Proposal(cfg, w.journals[p]), Operation(w.journals[p]), now).Valid()
    ensures Stuck(cfg, w, p)
  {
    ProposalNow(cfg, w, p, now);
    assert Blocks(cfg, w, p, Unstorable);
  }

  /** A record just inserted loads and matches exactly when the journal was recoverable before. */
  lemma InsertedFares(cfg: Config, w: World, v: World, p: Path, now: Time)
    requires Reachable(cfg, w) && IsLive(w, p) && Operation(w.journals[p]) !in w.jobs
    requires IsLive(v, p) && v.journals[p] == w.journals[p] && v.jobs == Inserting(cfg, w, p, now).jobs
    requires Proposed(Proposal(cfg, w.journals[p]), Operation(w.journals[p]), now).Valid()
    ensures FaresAlike(cfg, w, v, p)
  {
    ProposalNow(cfg, w, p, now);
    assert Blocks(cfg, w, p, Undecodable) <==> Blocks(cfg, v, p, Undecodable);
    assert Blocks(cfg, w, p, Unstorable) <==> Blocks(cfg, v, p, Unloadable) || Blocks(cfg, v, p, Mismatched);
    assert !Blocks(cfg, w, p, Unloadable) && !Blocks(cfg, w, p, Mismatched) && !Blocks(cfg, v, p, Unstorable);
  }

  lemma InsertedSince(cfg: Config, w0: World, w1: World, w2: World, mine: set<string>, id: string)
    requires Reachable(cfg, w1) && Since(cfg, w0, w1, mine) && Since(cfg, w1, w2, mine) && id in w1.jobs
    ensures Since(cfg, w0, w2, mine) && id in w2.jobs
  {
    SinceTrans(cfg, w0, w1, w2, mine);
    JobSince(cfg, w1, w2, mine, id);
  }

  /** Where recovery finds no trouble over a record, the journal may be published. */
  lemma MatchedIsPublishable(cfg: Config, w: World, p: Path)
    requires Reachable(cfg, w) && IsLive(w, p) && !w.journals[p].published
    requires Operation(w.journals[p]) in w.jobs && !Stuck(cfg, w, p)
    ensures Enabled(cfg, w, Publish(p))
  {
    NoTrouble(cfg, w, p);
    assert Decodes(cfg, w.marked, p, w.journals[p]) by { JournalRecorded(cfg, w, p); }
  }

  lemma NoTrouble(cfg: Config, w: World, p: Path)
    requires IsLive(w, p) && Operation(w.journals[p]) in w.jobs && !Stuck(cfg, w, p)
    ensures WorkAgrees(cfg, p, w.journals[p])
    ensures Readable(cfg, w.jobs[Operation(w.journals[p])])
    ensures Matches(cfg, w.journals[p], w.jobs[Operation(w.journals[p])])
  {
    assert !Blocks(cfg, w, p, Undecodable) && !Blocks(cfg, w, p, Unloadable) && !Blocks(cfg, w, p, Mismatched);
  }

  // ----- What one read shows -----

  lemma MarkedIsListed(cfg: Config, w: World)
    requires Reachable(cfg, w)
    ensures w.marked <= w.header
  {
    ReachableHolds(cfg, w);
  }

  lemma JournalRecorded(cfg: Config, w: World, p: Path)
    requires Reachable(cfg, w) && p in w.journals
    ensures Recorded(cfg, w.marked, p, w.journals[p])
  {
    ReachableHolds(cfg, w);
  }

  /** A journal nobody ran again decodes at every moment. */
  lemma JournalDecodes(cfg: Config, w: World, p: Path)
    requires Reachable(cfg, w) && p in w.journals && p !in w.reran
    ensures Decodes(cfg, w.marked, p, w.journals[p])
  {
    ReachableHolds(cfg, w);
    assert w.journals[p].Live? ==> IsLive(w, p);
  }

  lemma JournalNamed(cfg: Config, w: World, p: Path)
    requires Reachable(cfg, w) && IsLive(w, p)
    ensures p in w.named && Operation(w.journals[p]) in w.named[p]
  {
    ReachableHolds(cfg, w);
    assert w.named[p][|w.named[p]| - 1] == Operation(w.journals[p]);
  }

  lemma RecordBehind(cfg: Config, w: World, p: Path)
    requires Reachable(cfg, w) && IsLive(w, p)
    ensures CurrentAt(cfg, w.jobs, w.journals[p])
    ensures Operation(w.journals[p]) in w.jobs ==> w.jobs[Operation(w.journals[p])].Valid()
  {
    ReachableHolds(cfg, w);
  }

  lemma {:induction false} NamedOnce(w: World, p: Path, id: string)
    requires NamesOk(w) && NamesDistinct(w) && p in w.named && id in w.named[p] && id in w.index
    ensures w.index[id] == p
  {
    var i :| 0 <= i < |w.named[p]| && w.named[p][i] == id;
    var q := w.index[id];
    var k :| 0 <= k < |w.named[q]| && w.named[q][k] == id;
  }

  lemma IndexedOnce(cfg: Config, w: World, p: Path, id: string)
    requires Reachable(cfg, w) && p in w.named && id in w.named[p] && id in w.index
    ensures w.index[id] == p
  {
    ReachableHolds(cfg, w);
    NamedOnce(w, p, id);
  }

  lemma KnownPath(cfg: Config, w: World, p: Path)
    requires Reachable(cfg, w)
    ensures p in w.journals ==> PathOk(cfg, p)
  {
    ReachableHolds(cfg, w);
  }

  lemma ChainBack(cfg: Config, w: World, p: Path)
    requires Reachable(cfg, w) && p in w.journals && p.identity.attempt > 0
    ensures p.Previous() in w.journals
  {
    ReachableHolds(cfg, w);
  }

  /** An accepted operation's id stays with the identity, and once published it is a job. */
  lemma MaterializedStays(cfg: Config, w: World, v: World, mine: set<string>, p: Path)
    requires Reachable(cfg, w) && Since(cfg, w, v, mine) && IsLive(w, p)
    requires IsLive(v, p) && v.journals[p].published
    ensures p in v.named && Operation(w.journals[p]) in v.named[p] && Operation(w.journals[p]) in v.jobs
    ensures v.journals[p].arguments == w.journals[p].arguments
  {
    JournalSince(cfg, w, v, mine, p);
    ReachableLeads(cfg, w, v);
    JournalNamed(cfg, w, p);
    RecordBehind(cfg, v, p);
  }

  // ----- Evidence about earlier attempts -----

  lemma EvidenceSince(cfg: Config, w: World, v: World, mine: set<string>, p: Path, e: AttemptEvidence)
    requires Reachable(cfg, w) && Since(cfg, w, v, mine) && EvidenceHolds(w, p, e)
    ensures EvidenceHolds(v, p, e)
  {
    ReachableLeads(cfg, w, v);
    LeadsLater(cfg, w, v);
    ReachableHolds(cfg, w);
    ReachableHolds(cfg, v);
    AttemptsNonnegative(cfg, w);
    AttemptsNonnegative(cfg, v);
    EvidenceStays(cfg, w, v, p, e);
  }

  /** A journal and its record, read one after the other, show that the attempt ended if the record failed. */
  lemma EndedSince(cfg: Config, w: World, v: World, mine: set<string>, p: Path)
    requires Reachable(cfg, w) && Since(cfg, w, v, mine) && IsLive(w, p)
    requires w.journals[p].lost
             || (Operation(w.journals[p]) in v.jobs && v.jobs[Operation(w.journals[p])].state.Failed?)
    ensures IsLive(v, p) && (Ended(v, p) || p in v.reran)
  {
    JournalSince(cfg, w, v, mine, p);
  }

  lemma EndedStill(cfg: Config, w: World, v: World, mine: set<string>, p: Path)
    requires Reachable(cfg, w) && Since(cfg, w, v, mine)
    requires Ended(w, p) || p in w.reran
    ensures Ended(v, p) || p in v.reran
  {
    LeadsLater(cfg, w, v);
    EndedStays(cfg, w, v, p);
  }

  /** A failed operation stays failed. */
  lemma FailureStays(cfg: Config, w: World, v: World, mine: set<string>, id: string)
    requires Reachable(cfg, w) && Since(cfg, w, v, mine) && id in w.jobs && w.jobs[id].state.Failed?
    ensures id in v.jobs && v.jobs[id].state.Failed?
  {
    JobSince(cfg, w, v, mine, id);
    assert Settled(v.jobs[id]).state == v.jobs[id].state && Settled(w.jobs[id]).state == w.jobs[id].state;
  }

  /** Why the state of an operation cannot be told: recovery of its identity fails, or its record does not load. */
  ghost predicate Unreadable(cfg: Config, w: World, p: Path, id: string) {
    Stuck(cfg, w, p) || (id in w.jobs && !Readable(cfg, w.jobs[id]))
  }

  /** Two readings of one journal agree on whether, and with which arguments, it accepted. */
  predicate SameDecision(j: Journal, k: Journal) {
    (j.Sealed? <==> k.Sealed?) && (j.Live? ==> j.arguments == k.arguments)
  }

  /** Every attempt of the key above n and below p's is sealed. */
  ghost predicate SealedAbove(w: World, p: Path, n: int) {
    forall q: Path | q.SameKey(p) && n < q.identity.attempt < p.identity.attempt :: IsSealed(w, q)
  }

  lemma SealedAboveSince(cfg: Config, w: World, v: World, mine: set<string>, p: Path, n: int)
    requires Reachable(cfg, w) && Since(cfg, w, v, mine) && SealedAbove(w, p, n)
    ensures SealedAbove(v, p, n)
  {
    LeadsLater(cfg, w, v);
    forall q: Path | q.SameKey(p) && n < q.identity.attempt < p.identity.attempt ensures IsSealed(v, q) {
      assert IsSealed(w, q) && JournalLater(cfg, w, v, q);
    }
  }

  lemma SealedBelow(cfg: Config, w: World, p: Path)
    requires Reachable(cfg, w) && SealedAbove(w, p, -1)
    ensures forall q | q in w.journals && q.SameKey(p) && q.identity.attempt < p.identity.attempt :: w.journals[q].Sealed?
  {
    ReachableHolds(cfg, w);
    AttemptsNonnegative(cfg, w);
    forall q | q in w.journals && q.SameKey(p) && q.identity.attempt < p.identity.attempt ensures w.journals[q].Sealed? {
      assert IsSealed(w, q);
    }
  }

  lemma EligibleNow(cfg: Config, w: World, p: Path, s: Option<Submission>, e: AttemptEvidence, j: Journal)
    requires Reachable(cfg, w)
    requires p !in w.journals && p.identity.attempt >= 0
    requires p.identity.attempt > 0 ==> EvidenceHolds(w, p, e) && AttemptEligibility(p.identity, s, e).None?
    requires j.Live? ==> s == Some(j.arguments)
    ensures EarlierAllow(w, p, j)
  {
    ReachableHolds(cfg, w);
    AttemptsNonnegative(cfg, w);
    if j.Live? && p.identity.attempt > 0 && e.latestAccepted.Some? {
      EligibleSame(p.identity, s, e);
    }
    EligibleAllows(w, p, s, e, j);
  }

  /** [JOB-A7] A retry that is due: the attempt before it ended, and its arguments, if it brings any, are those every
      attempt of the key was accepted with. */
  ghost predicate Entitled(w: World, p: Path, s: Option<Submission>) {
    && p.identity.attempt > 0 && Ended(w, p.Previous())
    && (s.Some? ==> forall q | IsLive(w, q) && q.SameKey(p) :: SameAs(s.value, w.journals[q].arguments))
  }

  /** Some earlier attempt of p's key was accepted with these arguments. */
  ghost predicate AcceptedEarlier(w: World, p: Path, arguments: Submission) {
    exists q :: IsLive(w, q) && q.SameKey(p) && q.identity.attempt < p.identity.attempt && w.journals[q].arguments == arguments
  }

  lemma AcceptedAlready(cfg: Config, w: World, v: World, mine: set<string>, p: Path, q: Path)
    requires Reachable(cfg, w) && Since(cfg, w, v, mine) && p.identity.attempt > 0 && p.Previous() in w.journals
    requires IsLive(v, q) && q.SameKey(p) && q.identity.attempt < p.identity.attempt
    ensures IsLive(w, q) && w.journals[q].arguments == v.journals[q].arguments && ValidSubmission(w.journals[q].arguments)
  {
    ReachableHolds(cfg, w);
    ReachableLeads(cfg, w, v);
    KnownPath(cfg, v, q);
    Earlier(w, p.Previous(), q);
    JournalSince(cfg, w, v, mine, q);
  }

  /** Evidence gathered since finds such a retry eligible, unless some of it could not be read. */
  lemma EntitledIsEligible(cfg: Config, w: World, v: World, mine: set<string>, p: Path, s: Option<Submission>, e: AttemptEvidence)
    requires Reachable(cfg, w) && Since(cfg, w, v, mine) && Entitled(w, p, s)
    requires s.Some? ==> ValidSubmission(s.value)
    requires !e.previous.AbsentBefore? && (e.previous.AcceptedBefore? ==> e.state in {None, Some(Failed)})
    requires e.latestAccepted.Some? ==> AcceptedEarlier(v, p, e.latestAccepted.value)
    ensures AttemptEligibility(p.identity, s, e).None? || AttemptEligibility(p.identity, s, e).value.outcome.Unknown?
  {
    if s.Some? && e.latestAccepted.Some? {
      var q :| IsLive(v, q) && q.SameKey(p) && q.identity.attempt < p.identity.attempt
               && v.journals[q].arguments == e.latestAccepted.value;
      AcceptedAlready(cfg, w, v, mine, p, q);
      SameArgumentsIsSetEquality(s.value, e.latestAccepted.value);
    }
  }

  // ----- A first journal -----

  /** The first journal of an identity nobody has decided yet: a seal, or an acceptance. */
  function FirstJournal(cfg: Config, p: Path, s: Option<Submission>, shown: StoredLabel, binding: Binding, inputs: Inputs): Journal {
    if s.None? then Sealed("identity sealed before acceptance")
    else
      var accepted := AcceptedFrom(inputs.supported, s.value.requiredGuarantees);
      if accepted.None? then Sealed("unsupported guarantee")
      else if cfg.executor.None? then AcceptedJournal(cfg, p, binding, s.value, shown, accepted.value, None, inputs.newId)
      else
        var work := AdmitWork(cfg, p, binding.subject, s.value, inputs.newId);
        if work.None? then Sealed("configured executor refused this work")
        else AcceptedJournal(cfg, p, binding, s.value, shown, accepted.value, work, inputs.newId)
  }

  /** What admission has established before it takes the journal's lock. */
  predicate Admissible(cfg: Config, p: Path, s: Option<Submission>, shown: StoredLabel, inputs: Inputs) {
    && PathOk(cfg, p) && InputsOk(cfg, inputs)
    && (s.Some? ==> s.value.identity == p.identity && ValidSpec(cfg, s.value))
    && NormalizeLabel(shown.text) == Some(shown.text) && (shown.derived ==> shown.text != "")
  }

  /** The storage features a new journal may need are already listed. */
  predicate Listed(w: World, p: Path, s: Option<Submission>, shown: StoredLabel, binding: Binding) {
    && (p.identity.attempt > 0 ==> AttemptsFeature in w.marked)
    && (s.Some? && shown.text != "" ==> LabelsFeature in w.marked)
    && (s.Some? && binding.subject.Some? ==> SubjectsFeature in w.marked)
  }

  lemma FirstJournalDecodes(cfg: Config, w: World, p: Path, s: Option<Submission>, shown: StoredLabel, binding: Binding,
                            inputs: Inputs)
    requires cfg.Valid() && Admissible(cfg, p, s, shown, inputs) && Listed(w, p, s, shown, binding)
    ensures Decodes(cfg, w.marked, p, FirstJournal(cfg, p, s, shown, binding, inputs))
  {
    var j := FirstJournal(cfg, p, s, shown, binding, inputs);
    if j.Live? {
      AcceptedDecodes(cfg, w.marked, p, binding, s.value, shown, inputs.supported, j.work, inputs.newId);
    }
  }

  /** What a first journal carries when it accepts. */
  predicate FirstShape(j: Journal, s: Option<Submission>, shown: StoredLabel, binding: Binding, inputs: Inputs) {
    j.Live? ==>
      && s == Some(j.arguments) && !j.published && !j.lost && !j.legacy
      && Operation(j) == inputs.newId && j.shown == shown && j.subject == binding.subject
  }

  lemma FirstJournalShape(cfg: Config, p: Path, s: Option<Submission>, shown: StoredLabel, binding: Binding, inputs: Inputs)
    ensures FirstShape(FirstJournal(cfg, p, s, shown, binding, inputs), s, shown, binding, inputs)
  {
  }

  lemma ShapeFeatures(w: World, p: Path, j: Journal, s: Option<Submission>, shown: StoredLabel, binding: Binding, inputs: Inputs)
    requires FirstShape(j, s, shown, binding, inputs) && Listed(w, p, s, shown, binding)
    ensures FeaturesFor(p, j) <= w.marked
  {
  }

  lemma FirstJournalEnabled(cfg: Config, w: World, p: Path, s: Option<Submission>, shown: StoredLabel, binding: Binding,
                            inputs: Inputs, e: AttemptEvidence, j: Journal)
    requires Reachable(cfg, w) && p !in w.journals && p.identity.attempt >= 0 && inputs.newId !in w.ids
    requires FirstShape(j, s, shown, binding, inputs) && Listed(w, p, s, shown, binding) && Decodes(cfg, w.marked, p, j)
    requires p.identity.attempt > 0 ==> EvidenceHolds(w, p, e) && AttemptEligibility(p.identity, s, e).None?
    ensures Enabled(cfg, w, Decide(p, j)) && Drawn(Decide(p, j)) <= {inputs.newId}
  {
    MarkedIsListed(cfg, w);
    EligibleNow(cfg, w, p, s, e, j);
    ShapeFeatures(w, p, j, s, shown, binding, inputs);
  }

  /** The world in which an identity has its first journal. */
  function Deciding(w: World, p: Path, j: Journal): World {
    if j.Sealed? then w.(journals := w.journals[p := j])
    else w.(journals := w.journals[p := j], named := w.named[p := [Operation(j)]], ids := w.ids[Operation(j) := Place(p, 0)])
  }

  lemma DecidingStep(cfg: Config, w: World, p: Path, j: Journal, mine: set<string>)
    requires Reachable(cfg, w) && Enabled(cfg, w, Decide(p, j)) && Drawn(Decide(p, j)) !! mine
    ensures Since(cfg, w, Deciding(w, p, j), mine) && Reachable(cfg, Deciding(w, p, j))
  {
    SinceStep(cfg, w, Decide(p, j), mine);
  }

  /** The first journal of an identity may be written at any moment after its evidence was read. */
  lemma FirstJournalStep(cfg: Config, w: World, p: Path, s: Option<Submission>, shown: StoredLabel, binding: Binding,
                         inputs: Inputs, e: AttemptEvidence, mine: set<string>)
    requires cfg.Valid() && Reachable(cfg, w) && p !in w.journals
    requires inputs.newId !in w.ids && inputs.newId !in mine
    requires Admissible(cfg, p, s, shown, inputs) && Listed(w, p, s, shown, binding)
    requires p.identity.attempt > 0 ==> EvidenceHolds(w, p, e) && AttemptEligibility(p.identity, s, e).None?
    ensures var v := Deciding(w, p, FirstJournal(cfg, p, s, shown, binding, inputs));
            Since(cfg, w, v, mine) && Reachable(cfg, v)
  {
    var j := FirstJournal(cfg, p, s, shown, binding, inputs);
    FirstJournalShape(cfg, p, s, shown, binding, inputs);
    FirstJournalDecodes(cfg, w, p, s, shown, binding, inputs);
    FirstJournalEnabled(cfg, w, p, s, shown, binding, inputs, e, j);
    DecidingStep(cfg, w, p, j, mine);
  }

  /** Why the configured executor's preparation admits nothing: it fails, its work is too long, or it is not JSON. */
  predicate Unprepared(cfg: Config, work: Option<Work>) {
    work.None? || |work.value.spec| > MAX_SPEC_BYTES || !cfg.validJson(work.value.spec)
  }

  /** When the first journal of an identity is a seal: no arguments, a required guarantee that is not on offer, or work
      the executor does not prepare. */
  predicate MustSeal(cfg: Config, p: Path, s: Option<Submission>, subject: Option<string>, inputs: Inputs) {
    || s.None?
    || (exists g | g in s.value.requiredGuarantees :: g !in inputs.supported)
    || (cfg.executor.Some?
        && Unprepared(cfg, cfg.executor.value.prepare(Binding(p.scope, subject), inputs.newId, TaskOf(s.value))))
  }

  /** What an acceptance keeps of its submission; the label is kept beside the arguments. */
  ghost predicate AcceptedAs(cfg: Config, p: Path, s: Submission, shown: StoredLabel, binding: Binding, j: Journal) {
    && j.Live? && !j.legacy && j.shown == shown && j.subject == binding.subject
    && j.arguments.(displayLabel := "") == s.(displayLabel := "")
    && j.receipt == Receipt(p.identity, cfg.owner, Operation(j), j.receipt.acceptedGuarantees, cfg.retentionMs)
    && (forall g :: g in j.receipt.acceptedGuarantees <==> g in GUARANTEES || g in s.requiredGuarantees)
  }

  /** The submission accepted under the fresh id, and not yet published. */
  ghost predicate Accepts(cfg: Config, p: Path, s: Submission, shown: StoredLabel, binding: Binding, inputs: Inputs, j: Journal) {
    && AcceptedAs(cfg, p, s, shown, binding, j)
    && !j.published && !j.lost && Operation(j) == inputs.newId
    && j.work == if cfg.executor.Some? then cfg.executor.value.prepare(Binding(p.scope, binding.subject), inputs.newId, TaskOf(s))
                 else None
  }

  /** A first journal is a seal exactly when it must be, and otherwise accepts what was submitted. */
  ghost predicate DecidedBy(cfg: Config, p: Path, s: Option<Submission>, shown: StoredLabel, binding: Binding, inputs: Inputs,
                           j: Journal) {
    if MustSeal(cfg, p, s, binding.subject, inputs) then j.Sealed? else Accepts(cfg, p, s.value, shown, binding, inputs, j)
  }

  lemma FirstJournalDecides(cfg: Config, p: Path, s: Option<Submission>, shown: StoredLabel, binding: Binding, inputs: Inputs)
    ensures DecidedBy(cfg, p, s, shown, binding, inputs, FirstJournal(cfg, p, s, shown, binding, inputs))
  {
    if s.Some? && !MustSeal(cfg, p, s, binding.subject, inputs) {
      assert AcceptedFrom(inputs.supported, s.value.requiredGuarantees).Some?;
    }
  }

  /** label: the caller's label, or else one the executor derives within the same limits. */
  function ShownLabel(s: Submission, inputs: Inputs): (shown: StoredLabel)
    ensures NormalizeLabel(shown.text) == Some(shown.text) && (shown.derived ==> shown.text != "")
  {
    var given := NormalizeLabel(s.displayLabel);
    var derived := NormalizeLabel(inputs.derived);
    if given.Some? && given.value != "" then NormalizeLabelIdempotent(s.displayLabel); StoredLabel(given.value, false)
    else if derived.Some? && derived.value != "" then NormalizeLabelIdempotent(inputs.derived); StoredLabel(derived.value, true)
    else NoLabel()
  }

  /** [JOB-A12] The caller's own label where it gives a usable one, else one the executor derives, else none. */
  lemma ShownLabelIs(s: Submission, inputs: Inputs)
    ensures var shown, given, derived := ShownLabel(s, inputs), NormalizeLabel(s.displayLabel), NormalizeLabel(inputs.derived);
            && (shown.derived <==> given in {None, Some("")} && derived !in {None, Some("")})
            && (shown.text == "" <==> given in {None, Some("")} && derived in {None, Some("")})
            && (shown.text != "" ==> Some(shown.text) == if shown.derived then derived else given)
  {
  }

  function NoLabel(): (shown: StoredLabel)
    ensures NormalizeLabel(shown.text) == Some(shown.text) && !shown.derived && shown.text == ""
  {
    StoredLabel("", false)
  }

  // ----- Running again -----

  /** The rule the submitter was accepted under, asked again; it needs a recorded submitter and a rule. */
  function StandingRefusal(inputs: Inputs, recorded: Option<string>): (r: Option<AcceptanceResult>)
    ensures r.Some? ==> r.value.receipt.None? && r.value.outcome in {Forbidden, Unavailable}
  {
    if recorded.None? || inputs.standing.None? then None
    else
      match inputs.standing.value
      case NoDecision => Some(Answer(Unavailable, "policy decision unavailable; the same identity may be presented again"))
      case RuleRefuses(word) => Some(Answer(Forbidden, word))
      case Permitted => None
  }

  /** What keeps a rights-refused operation as the answer: the submitter's rule asked again, then the executor's
      admission, then a preparation it refuses. */
  function RerunRefusal(cfg: Config, inputs: Inputs, p: Path, recorded: Option<string>, subject: Option<string>, s: Submission)
    : (r: Option<AcceptanceResult>)
    ensures r.Some? ==> r.value.receipt.None? && r.value.outcome in {InvalidInput, Forbidden, Unavailable}
    ensures r.None? && cfg.executor.Some? ==> AdmitWork(cfg, p, subject, s, inputs.rerunId).Some?
  {
    var refused := StandingRefusal(inputs, recorded);
    var unadmitted := AdmissionRefusal(cfg, inputs, s);
    if refused.Some? then refused
    else if unadmitted.Some? then unadmitted
    else if cfg.executor.Some? && AdmitWork(cfg, p, subject, s, inputs.rerunId).None? then
      Some(Answer(InvalidInput, "configured executor refused this work"))
    else None
  }

  /** The rule permits the recorded submitter, or there is none to ask about. */
  predicate Permits(inputs: Inputs, recorded: Option<string>) {
    recorded.Some? && inputs.standing.Some? ==> inputs.standing.value.Permitted?
  }

  /** [JOB-A18] A rule that refuses is a Forbidden with the rule's word, and one that cannot decide an Unavailable. */
  lemma StandingRefusalIs(inputs: Inputs, recorded: Option<string>)
    ensures var r := StandingRefusal(inputs, recorded);
            && (r.None? <==> Permits(inputs, recorded))
            && (r.Some? ==>
                  if inputs.standing.value.NoDecision? then r.value.outcome.Unavailable?
                  else r.value == Answer(Forbidden, inputs.standing.value.word))
  {
  }

  /** [JOB-A19] A refused operation is run again exactly when the standing rule permits its recorded submitter (or there
      is none to ask about), the executor's admission does not refuse, and its preparation succeeds; otherwise the first
      of these that refuses answers. */
  lemma RerunRefusalIs(cfg: Config, inputs: Inputs, p: Path, recorded: Option<string>, subject: Option<string>, s: Submission)
    ensures var r, unadmitted := RerunRefusal(cfg, inputs, p, recorded, subject, s), AdmissionRefusal(cfg, inputs, s);
            var prepared := cfg.executor.Some? ==>
                              !Unprepared(cfg, cfg.executor.value.prepare(Binding(p.scope, subject), inputs.rerunId, TaskOf(s)));
            && (r.None? <==> Permits(inputs, recorded) && unadmitted.None? && prepared)
            && (!Permits(inputs, recorded) ==> r == StandingRefusal(inputs, recorded))
            && (Permits(inputs, recorded) && unadmitted.Some? ==> r == unadmitted)
            && (Permits(inputs, recorded) && unadmitted.None? && !prepared ==> r.value.outcome.InvalidInput?)
  {
    StandingRefusalIs(inputs, recorded);
  }

  /** The record of this journal's operation can be read, a rights refusal failed it, and it is no migrated work. */
  predicate Rerunnable(cfg: Config, jobs: map<string, Record>, j: Journal)
    requires j.Live?
  {
    !j.legacy && Operation(j) in jobs && Readable(cfg, jobs[Operation(j)]) && FailedByRights(cfg, jobs[Operation(j)])
  }

  /** The identity names a published operation that a rights refusal failed, and that may be run again. */
  predicate RefusedByRights(cfg: Config, w: World, p: Path) {
    IsLive(w, p) && w.journals[p].published && Rerunnable(cfg, w.jobs, w.journals[p])
  }

  /** An operation that ended otherwise: complete, cancelled, or failed by the work itself. */
  predicate EndedOtherwise(cfg: Config, w: World, p: Path) {
    && IsLive(w, p) && w.journals[p].published && Operation(w.journals[p]) in w.jobs
    && var r := w.jobs[Operation(w.journals[p])];
    r.state.Terminal() && !FailedByRights(cfg, r)
  }

  /** A refusal read of a published operation stands, whatever its identity names meanwhile. */
  lemma RefusedRecordStays(cfg: Config, w: World, v: World, mine: set<string>, p: Path)
    requires Reachable(cfg, w) && Since(cfg, w, v, mine) && RefusedByRights(cfg, w, p)
    ensures var id := Operation(w.journals[p]);
            id in v.jobs && Readable(cfg, v.jobs[id]) && FailedByRights(cfg, v.jobs[id])
  {
    var id := Operation(w.journals[p]);
    JobSince(cfg, w, v, mine, id);
    ReachableLeads(cfg, w, v);
    RecordValid(cfg, v, id);
    RecordBehind(cfg, w, p);
    ReadableStays(cfg, w.jobs[id], v.jobs[id]);
    FailedStays(cfg, w.jobs[id], v.jobs[id]);
  }

  lemma RecordValid(cfg: Config, w: World, id: string)
    requires Reachable(cfg, w) && id in w.jobs
    ensures w.jobs[id].Valid()
  {
    ReachableHolds(cfg, w);
  }

  /** A published identity is published as long as it names the same operation. */
  lemma PublishedTurn(cfg: Config, w: World, v: World, mine: set<string>, p: Path)
    requires Reachable(cfg, w) && Since(cfg, w, v, mine) && IsLive(w, p) && w.journals[p].published
    ensures p in w.named && IsLive(v, p) && v.journals[p].subject == w.journals[p].subject
    ensures Operation(v.journals[p]) == Operation(w.journals[p]) ==> v.journals[p].published
    ensures Operation(v.journals[p]) != Operation(w.journals[p]) ==> Operation(v.journals[p]) !in w.named[p]
  {
    JournalSince(cfg, w, v, mine, p);
    ReachableLeads(cfg, w, v);
    SameTurn(cfg, w, v, p);
    if Operation(v.journals[p]) in w.named[p] {
      LastNamed(cfg, w, p);
      LastNamed(cfg, v, p);
      var i :| 0 <= i < |w.named[p]| && w.named[p][i] == Operation(v.journals[p]);
      NamedTwice(cfg, v, p, i, |v.named[p]| - 1);
    }
  }

  /** A refused operation stays so until the identity names another one. */
  lemma RefusedStays(cfg: Config, w: World, v: World, mine: set<string>, p: Path)
    requires Reachable(cfg, w) && Since(cfg, w, v, mine) && RefusedByRights(cfg, w, p)
    ensures IsLive(v, p)
    ensures RefusedByRights(cfg, v, p) || Operation(v.journals[p]) != Operation(w.journals[p])
  {
    PublishedTurn(cfg, w, v, mine, p);
    RefusedRecordStays(cfg, w, v, mine, p);
    JournalSince(cfg, w, v, mine, p);
  }

  /** Any other end is the identity's end. */
  lemma EndStays(cfg: Config, w: World, v: World, mine: set<string>, p: Path)
    requires Reachable(cfg, w) && Since(cfg, w, v, mine) && EndedOtherwise(cfg, w, p)
    ensures EndedOtherwise(cfg, v, p) && v.journals[p].receipt == w.journals[p].receipt
  {
    var id := Operation(w.journals[p]);
    JournalSince(cfg, w, v, mine, p);
    JobSince(cfg, w, v, mine, id);
    assert Settled(v.jobs[id]).state == v.jobs[id].state && Settled(w.jobs[id]).state == w.jobs[id].state;
    assert Settled(v.jobs[id]).error == v.jobs[id].error && Settled(w.jobs[id]).error == w.jobs[id].error;
  }

  lemma LastNamed(cfg: Config, w: World, p: Path)
    requires Reachable(cfg, w) && IsLive(w, p)
    ensures p in w.named && |w.named[p]| > 0 && w.named[p][|w.named[p]| - 1] == Operation(w.journals[p])
  {
    ReachableHolds(cfg, w);
  }

  lemma NamedIsDrawn(cfg: Config, w: World, p: Path)
    requires Reachable(cfg, w) && IsLive(w, p)
    ensures Operation(w.journals[p]) in w.ids
  {
    LastNamed(cfg, w, p);
    ReachableHolds(cfg, w);
    assert w.named[p][|w.named[p]| - 1] in w.ids;
  }

  lemma NamedTwice(cfg: Config, w: World, p: Path, i: nat, k: nat)
    requires Reachable(cfg, w) && p in w.named && i < |w.named[p]| && k < |w.named[p]| && w.named[p][i] == w.named[p][k]
    ensures i == k
  {
    ReachableHolds(cfg, w);
    assert w.ids[w.named[p][i]] == Place(p, i) && w.ids[w.named[p][k]] == Place(p, k);
  }

  /** An identity that names the operation it named has named no other in between. */
  lemma SameTurn(cfg: Config, w: World, v: World, p: Path)
    requires Reachable(cfg, w) && Reachable(cfg, v) && IsLive(w, p) && IsLive(v, p) && JournalLater(cfg, w, v, p)
    ensures Operation(v.journals[p]) == Operation(w.journals[p]) <==> w.named[p] == v.named[p]
  {
    LastNamed(cfg, w, p);
    LastNamed(cfg, v, p);
    if Operation(v.journals[p]) == Operation(w.journals[p]) {
      NamedTwice(cfg, v, p, |w.named[p]| - 1, |v.named[p]| - 1);
    }
  }

  /** A journal and one it became by a re-run or by publication retain the same acceptance. */
  predicate SameRetained(k: Journal, j: Journal)
    requires k.Live? && j.Live?
  {
    k.arguments == j.arguments && k.receipt == j.receipt.(operationId := Operation(k))
  }

  lemma RetainedSince(cfg: Config, w: World, v: World, mine: set<string>, p: Path)
    requires Reachable(cfg, w) && Since(cfg, w, v, mine) && IsLive(w, p)
    ensures IsLive(v, p) && SameRetained(v.journals[p], w.journals[p]) && v.journals[p].legacy == w.journals[p].legacy
    ensures p in v.named && Operation(w.journals[p]) in v.named[p] && Operation(v.journals[p]) in v.named[p]
  {
    JournalSince(cfg, w, v, mine, p);
    JournalNamed(cfg, w, p);
    ReachableLeads(cfg, w, v);
    JournalNamed(cfg, v, p);
  }

  /** A refusal read from the record an accepted journal names still stands when the journal still names it. */
  lemma RefusalStands(cfg: Config, w: World, v: World, mine: set<string>, p: Path, id: string)
    requires Reachable(cfg, w) && Since(cfg, w, v, mine)
    requires id in w.jobs && FailedByRights(cfg, w.jobs[id]) && Decodable(cfg, w.jobs[id])
    ensures id in v.jobs && FailedByRights(cfg, v.jobs[id]) && Decodable(cfg, v.jobs[id])
  {
    JobSince(cfg, w, v, mine, id);
    FailedStays(cfg, w.jobs[id], v.jobs[id]);
    DecodableStays(cfg, w.jobs[id], v.jobs[id]);
  }

  /** A completed operation is never moved on from. */
  lemma CompleteStays(cfg: Config, w: World, v: World, mine: set<string>, p: Path)
    requires Reachable(cfg, w) && Since(cfg, w, v, mine) && IsLive(w, p)
    requires w.journals[p].published
    requires Operation(w.journals[p]) in w.jobs && w.jobs[Operation(w.journals[p])].state.Complete?
    ensures IsLive(v, p) && v.journals[p].published && Operation(v.journals[p]) == Operation(w.journals[p])
    ensures Operation(v.journals[p]) in v.jobs && v.jobs[Operation(v.journals[p])].state.Complete?
    ensures WorkAgrees(cfg, p, v.journals[p]) <==> WorkAgrees(cfg, p, w.journals[p])
  {
    var id := Operation(w.journals[p]);
    JournalSince(cfg, w, v, mine, p);
    JobSince(cfg, w, v, mine, id);
    assert Settled(v.jobs[id]).state == Settled(w.jobs[id]).state;
    assert Settled(v.jobs[id]).state == v.jobs[id].state && Settled(w.jobs[id]).state == w.jobs[id].state;
  }

  lemma WalkBack(cfg: Config, w: World, p: Path, n: int)
    requires Reachable(cfg, w) && 0 < n < p.identity.attempt
    requires IsSealed(w, AttemptPath(p, n)) && SealedAbove(w, p, n)
    ensures AttemptPath(p, n - 1) in w.journals && SealedAbove(w, p, n - 1)
  {
    ChainBack(cfg, w, AttemptPath(p, n));
    assert AttemptPath(p, n).Previous() == AttemptPath(p, n - 1);
    forall q: Path | q.SameKey(p) && n - 1 < q.identity.attempt < p.identity.attempt ensures IsSealed(w, q) {
      assert q.identity.attempt == n ==> q == AttemptPath(p, n);
    }
  }

  // ----- Answers -----

  /** Nothing outside interrupts a materialization. */
  predicate Unhindered(inputs: Inputs) {
    inputs.io("materialize", 0) && !inputs.crash("after-job")
  }

  /** Nothing outside interrupts the call for this attempt. */
  predicate Clean(inputs: Inputs, attempt: int) {
    && Unhindered(inputs) && inputs.io("owner.json", 0) && inputs.io("journal", attempt) && inputs.io("journal again", attempt)
    && !inputs.crash("after-storage-feature") && !inputs.crash("after-journal") && !inputs.crash("before-reply")
  }

  function Said(p: Path, v: AcceptanceResult): Reply {
    Reply(p, v.outcome, if v.receipt.Some? then v.receipt.value.operationId else "")
  }

  /** An acceptance may answer these arguments with this operation: the identity accepted them, or equal ones, and named
      the operation, which is a job. */
  ghost predicate Answerable(w: World, p: Path, s: Option<Submission>, id: string) {
    && IsLive(w, p) && (s.Some? ==> SameAs(s.value, w.journals[p].arguments))
    && p in w.named && id in w.named[p] && id in w.jobs
  }

  /** Clearing the label of a submission leaves it well formed. */
  lemma ClearedSpec(cfg: Config, s: Submission)
    requires ValidSpec(cfg, s)
    ensures ValidSpec(cfg, s.(displayLabel := ""))
  {
  }

  /** [JOB-A2] What an accepted journal answers: its receipt to the same arguments, or to none, and a conflict to any
      other. */
  lemma AcceptedAnswers(cfg: Config, p: Path, j: Journal, s: Option<Submission>)
    requires j.Live? && p.scope != "" && cfg.owner != "" && ValidIdentity(p.identity)
    requires Replayed(cfg.owner, p.identity, None, Retained(p, j)).outcome.Accepted?
    requires s.Some? ==> s.value.identity == p.identity && ValidSubmission(s.value) && ValidSubmission(j.arguments)
    ensures var v := ReconcileEvidence(p.scope, cfg.owner, p.identity, s, Retained(p, j));
            if s.None? || SameAs(s.value, j.arguments) then v.outcome.Accepted? && v.receipt == Some(j.receipt)
            else v.outcome.KeyConflict?
  {
    if s.Some? {
      SameArgumentsIsSetEquality(s.value, j.arguments);
    }
  }

  lemma DecodedReplays(cfg: Config, marked: set<Feature>, p: Path, j: Journal)
    requires cfg.Valid() && Recorded(cfg, marked, p, j) && j.Live?
    ensures p.scope != "" && cfg.owner != "" && ValidIdentity(p.identity)
    ensures Replayed(cfg.owner, p.identity, None, Retained(p, j)).outcome.Accepted? && ValidSubmission(j.arguments)
  {
  }

  lemma SealAnswers(cfg: Config, p: Path, j: Journal, s: Option<Submission>)
    requires cfg.Valid() && PathOk(cfg, p) && j.Sealed?
    requires s.Some? ==> s.value.identity == p.identity && ValidSubmission(s.value)
    ensures ReconcileEvidence(p.scope, cfg.owner, p.identity, s, Retained(p, j)).outcome.DefinitelyNotAccepted?
  {
  }

  lemma RetainedAnswers(cfg: Config, marked: set<Feature>, p: Path, j: Journal, s: Option<Submission>)
    requires cfg.Valid() && Recorded(cfg, marked, p, j)
    requires s.Some? ==> s.value.identity == p.identity && ValidSubmission(s.value)
    ensures var v := ReconcileEvidence(p.scope, cfg.owner, p.identity, s, Retained(p, j));
            if j.Sealed? then v.outcome.DefinitelyNotAccepted?
            else if s.None? || SameAs(s.value, j.arguments) then v.outcome.Accepted? && v.receipt == Some(j.receipt)
            else v.outcome.KeyConflict?
  {
    if j.Live? {
      DecodedReplays(cfg, marked, p, j);
      AcceptedAnswers(cfg, p, j, s);
    } else {
      SealAnswers(cfg, p, j, s);
    }
  }

  /**
   What a live journal answers: a conflict to other arguments; a refused operation's repetition is decided again, and
   either what refuses it now is the answer or the identity names an operation it never named; and any other end, an
   identity not yet published, migrated work and a caller without arguments get the acceptance as it stands.
   */
  ghost predicate Repeats(cfg: Config, inputs: Inputs, w: World, p: Path, s: Option<Submission>, subject: Option<string>,
                          v: AcceptanceResult)
    requires IsLive(w, p) && p in w.named
  {
    var j := w.journals[p];
    var standing := v.outcome.Unknown? || (v.outcome.Accepted? && v.receipt == Some(j.receipt));
    var moved := v.outcome.Accepted? && v.receipt.Some? && v.receipt.value.operationId !in w.named[p];
    if s.None? then standing
    else if !SameAs(s.value, j.arguments) then v.outcome.KeyConflict?
    else
      var refusal := RerunRefusal(cfg, inputs, p, j.subject, subject, s.value);
      if RefusedByRights(cfg, w, p) then if refusal.Some? then v == refusal.value else v.outcome.Unknown? || moved
      else if !j.published || j.legacy || EndedOtherwise(cfg, w, p) then standing
      else standing || (if refusal.Some? then v == refusal.value else moved)
  }

  lemma RepeatsConflict(cfg: Config, inputs: Inputs, w: World, p: Path, s: Submission, subject: Option<string>, v: AcceptanceResult)
    requires IsLive(w, p) && p in w.named && !SameAs(s, w.journals[p].arguments) && v.outcome.KeyConflict?
    ensures Repeats(cfg, inputs, w, p, Some(s), subject, v)
  {
  }

  lemma RepeatsStanding(cfg: Config, inputs: Inputs, w: World, p: Path, s: Option<Submission>, subject: Option<string>,
                        v: AcceptanceResult)
    requires IsLive(w, p) && p in w.named && (s.Some? ==> SameAs(s.value, w.journals[p].arguments) && !RefusedByRights(cfg, w, p))
    requires v.outcome.Unknown? || (v.outcome.Accepted? && v.receipt == Some(w.journals[p].receipt))
    ensures Repeats(cfg, inputs, w, p, s, subject, v)
  {
  }

  /** A repetition decided again: refused now, moved on, or interrupted on the way. */
  lemma RepeatsRedecided(cfg: Config, inputs: Inputs, w: World, p: Path, s: Submission, subject: Option<string>, v: AcceptanceResult)
    requires IsLive(w, p) && p in w.named && SameAs(s, w.journals[p].arguments)
    requires w.journals[p].published && !w.journals[p].legacy && !EndedOtherwise(cfg, w, p)
    requires var refusal := RerunRefusal(cfg, inputs, p, w.journals[p].subject, subject, s);
             if refusal.Some? then v == refusal.value
             else v.outcome.Unknown? || (v.outcome.Accepted? && v.receipt.Some? && v.receipt.value.operationId !in w.named[p])
    ensures Repeats(cfg, inputs, w, p, Some(s), subject, v)
  {
  }

  /** What the record shows when the journal is asked about again was so when it was read, or came about since. */
  lemma RerunnableSince(cfg: Config, w: World, v: World, mine: set<string>, p: Path)
    requires Reachable(cfg, w) && Since(cfg, w, v, mine) && IsLive(w, p) && w.journals[p].published
    ensures RefusedByRights(cfg, w, p) ==> Rerunnable(cfg, v.jobs, w.journals[p])
    ensures EndedOtherwise(cfg, w, p) ==> !Rerunnable(cfg, v.jobs, w.journals[p])
  {
    if RefusedByRights(cfg, w, p) {
      RefusedRecordStays(cfg, w, v, mine, p);
    }
    if EndedOtherwise(cfg, w, p) {
      EndStays(cfg, w, v, mine, p);
    }
  }

  /** The journal of p in w, a seal or an acceptance, gives this answer. */
  ghost predicate AnsweredFrom(cfg: Config, inputs: Inputs, w: World, p: Path, s: Option<Submission>, subject: Option<string>,
                               v: AcceptanceResult) {
    && p in w.journals
    && if w.journals[p].Sealed? then v.outcome.DefinitelyNotAccepted?
       else p in w.named && Repeats(cfg, inputs, w, p, s, subject, v)
  }

  /** What an identity decided in w answers at any later moment: its seal; a conflict to other arguments; to the same
      arguments, once a rights refusal failed its operation, what refuses it now or a different operation; and after any
      other end the same receipt. */
  ghost predicate AnswersAsDecided(cfg: Config, inputs: Inputs, w: World, p: Path, s: Option<Submission>, subject: Option<string>,
                                   v: AcceptanceResult)
    requires p in w.journals
  {
    var j := w.journals[p];
    if j.Sealed? then v.outcome.DefinitelyNotAccepted?
    else if s.Some? && !SameAs(s.value, j.arguments) then v.outcome.KeyConflict?
    else
      var refused := s.Some? && Some(v) == RerunRefusal(cfg, inputs, p, j.subject, subject, s.value);
      && (v.outcome.Unknown? || v.outcome.Accepted? || refused)
      && (s.Some? && RefusedByRights(cfg, w, p) ==>
            || v.outcome.Unknown? || refused
            || (v.outcome.Accepted? && v.receipt.Some? && v.receipt.value.operationId != Operation(j)))
      && (EndedOtherwise(cfg, w, p) ==> v.outcome.Unknown? || (v.outcome.Accepted? && v.receipt == Some(j.receipt)))
  }

  lemma AnsweredLater(cfg: Config, inputs: Inputs, w: World, r: World, mine: set<string>, p: Path, s: Option<Submission>,
                      subject: Option<string>, v: AcceptanceResult)
    requires Reachable(cfg, w) && Since(cfg, w, r, mine) && p in w.journals
    requires AnsweredFrom(cfg, inputs, r, p, s, subject, v)
    ensures AnswersAsDecided(cfg, inputs, w, p, s, subject, v)
  {
    JournalSince(cfg, w, r, mine, p);
    if IsLive(w, p) {
      JournalNamed(cfg, w, p);
      if RefusedByRights(cfg, w, p) {
        RefusedStays(cfg, w, r, mine, p);
        StillNamed(cfg, w, r, mine, p);
      }
      if EndedOtherwise(cfg, w, p) {
        EndStays(cfg, w, r, mine, p);
        NotBoth(cfg, r, p);
      }
    }
  }

  /** The answer that goes with an identity's first journal. */
  predicate FirstAnswer(cfg: Config, p: Path, s: Option<Submission>, subject: Option<string>, inputs: Inputs, v: AcceptanceResult) {
    if MustSeal(cfg, p, s, subject, inputs) then v.outcome.DefinitelyNotAccepted?
    else v.outcome.Unknown? || (v.outcome.Accepted? && v.receipt.Some? && v.receipt.value.operationId == inputs.newId)
  }

  lemma FirstAnswers(cfg: Config, inputs: Inputs, r: World, p: Path, s: Option<Submission>, shown: StoredLabel, binding: Binding,
                     v: AcceptanceResult)
    requires AnsweredFrom(cfg, inputs, r, p, s, binding.subject, v)
    requires DecidedBy(cfg, p, s, shown, binding, inputs, r.journals[p])
    ensures FirstAnswer(cfg, p, s, binding.subject, inputs, v)
  {
  }

  /** What an acceptance keeps, it keeps. */
  lemma KeptSince(cfg: Config, w: World, v: World, mine: set<string>, p: Path, s: Submission, shown: StoredLabel, binding: Binding)
    requires Reachable(cfg, w) && Since(cfg, w, v, mine)
    requires p in w.journals && AcceptedAs(cfg, p, s, shown, binding, w.journals[p])
    ensures p in v.journals && AcceptedAs(cfg, p, s, shown, binding, v.journals[p])
  {
    JournalSince(cfg, w, v, mine, p);
  }

  lemma KeptJournal(cfg: Config, w: World, v: World, mine: set<string>, p: Path)
    requires Reachable(cfg, w) && Since(cfg, w, v, mine)
    ensures p in w.journals ==> p in v.journals
  {
    if p in w.journals {
      JournalSince(cfg, w, v, mine, p);
    }
  }

  /**
   What a call for identity p did and answered. When it wrote the identity's first journal, that is a seal exactly when it
   must be, and otherwise an acceptance under the call's fresh id that keeps what was submitted; uninterrupted, the
   executor's admission did not refuse it, and only work the store cannot hold leaves the answer unknown. When the identity
   was decided before, an uninterrupted call answers as it was decided. A first attempt or a retry that is due,
   uninterrupted, is decided unless the executor's admission refuses it; of a retry some evidence may stay unknown.
   */
  ghost predicate Concludes(cfg: Config, inputs: Inputs, was: World, now: World, p: Path, s: Option<Submission>,
                            shown: StoredLabel, binding: Binding, v: AcceptanceResult, first: bool) {
    var clean := Clean(inputs, p.identity.attempt);
    var unadmitted := if s.Some? then AdmissionRefusal(cfg, inputs, s.value) else None;
    && (first ==>
          && p !in was.journals && FirstAnswer(cfg, p, s, binding.subject, inputs, v)
          && (!MustSeal(cfg, p, s, binding.subject, inputs) ==>
                p in now.journals && AcceptedAs(cfg, p, s.value, shown, binding, now.journals[p]))
          && (clean ==> unadmitted.None? && (v.outcome.Unknown? ==> Stuck(cfg, now, p))))
    && (p in was.journals && clean ==>
          if v.outcome.Unknown? then Stuck(cfg, now, p)
          else AnswersAsDecided(cfg, inputs, was, p, s, binding.subject, v))
    && (PathOk(cfg, p) && (p.identity.attempt == 0 || Entitled(was, p, s)) && clean && !first ==>
          p in now.journals || Some(v) == unadmitted || (p.identity.attempt > 0 && v.outcome.Unknown?))
  }

  /** A call that read or wrote the identity's journal when the world was r. */
  lemma ReadConcludes(cfg: Config, inputs: Inputs, was: World, r: World, now: World, p: Path, s: Option<Submission>,
                      shown: StoredLabel, binding: Binding, v: AcceptanceResult, first: bool)
    requires Reachable(cfg, was) && Reachable(cfg, r) && Since(cfg, was, r, {}) && Since(cfg, r, now, {})
    requires AnsweredFrom(cfg, inputs, r, p, s, binding.subject, v)
    requires first ==> p !in was.journals && DecidedBy(cfg, p, s, shown, binding, inputs, r.journals[p])
    requires first && s.Some? && Clean(inputs, p.identity.attempt) ==> AdmissionRefusal(cfg, inputs, s.value).None?
    requires Clean(inputs, p.identity.attempt) && v.outcome.Unknown? ==> Stuck(cfg, now, p)
    ensures Concludes(cfg, inputs, was, now, p, s, shown, binding, v, first)
  {
    KeptJournal(cfg, r, now, {}, p);
    if first {
      FirstAnswers(cfg, inputs, r, p, s, shown, binding, v);
      if !MustSeal(cfg, p, s, binding.subject, inputs) {
        KeptSince(cfg, r, now, {}, p, s.value, shown, binding);
      }
    } else if p in was.journals {
      AnsweredLater(cfg, inputs, was, r, {}, p, s, binding.subject, v);
    }
  }

  /** A call that neither read nor wrote it. */
  lemma UnreadConcludes(cfg: Config, inputs: Inputs, was: World, now: World, p: Path, s: Option<Submission>,
                        shown: StoredLabel, binding: Binding, v: AcceptanceResult)
    requires Clean(inputs, p.identity.attempt) && PathOk(cfg, p) ==>
               || (v.outcome.Unknown? && Stuck(cfg, now, p))
               || (p !in was.journals && s.Some? && Some(v) == AdmissionRefusal(cfg, inputs, s.value))
               || (p !in was.journals && p.identity.attempt > 0 && (Entitled(was, p, s) ==> v.outcome.Unknown?))
    requires p in was.journals ==> PathOk(cfg, p)
    ensures Concludes(cfg, inputs, was, now, p, s, shown, binding, v, false)
  {
  }

  /** What a call established about the journal its answer comes from, or about why there is none. */
  ghost predicate Established(cfg: Config, inputs: Inputs, was: World, read: Option<World>, now: World, p: Path,
                              s: Option<Submission>, shown: StoredLabel, binding: Binding, v: AcceptanceResult, first: bool) {
    var clean := Clean(inputs, p.identity.attempt);
    && (read.Some? ==>
          && Reachable(cfg, read.value) && Since(cfg, was, read.value, {}) && Since(cfg, read.value, now, {})
          && AnsweredFrom(cfg, inputs, read.value, p, s, binding.subject, v)
          && (first ==> p !in was.journals && DecidedBy(cfg, p, s, shown, binding, inputs, read.value.journals[p]))
          && (first && s.Some? && clean ==> AdmissionRefusal(cfg, inputs, s.value).None?)
          && (clean && v.outcome.Unknown? ==> Stuck(cfg, now, p)))
    && (read.None? ==>
          && !first
          && (clean ==>
                || (v.outcome.Unknown? && Stuck(cfg, now, p))
                || (p !in was.journals && s.Some? && Some(v) == AdmissionRefusal(cfg, inputs, s.value))
                || (p !in was.journals && p.identity.attempt > 0 && (Entitled(was, p, s) ==> v.outcome.Unknown?))))
  }

  lemma EstablishedConcludes(cfg: Config, inputs: Inputs, was: World, read: Option<World>, now: World, p: Path,
                             s: Option<Submission>, shown: StoredLabel, binding: Binding, v: AcceptanceResult, first: bool)
    requires Reachable(cfg, was) && p.identity.attempt >= 0
    requires Established(cfg, inputs, was, read, now, p, s, shown, binding, v, first)
    ensures Concludes(cfg, inputs, was, now, p, s, shown, binding, v, first)
    ensures Clean(inputs, p.identity.attempt) && v.outcome.Unknown? ==> p.identity.attempt > 0 || Stuck(cfg, now, p)
  {
    if read.Some? {
      ReadConcludes(cfg, inputs, was, read.value, now, p, s, shown, binding, v, first);
    } else {
      KnownPath(cfg, was, p);
      UnreadConcludes(cfg, inputs, was, now, p, s, shown, binding, v);
    }
  }

  /** The label does not matter to a decision, and neither does the reply that leaves. */
  lemma ConcludesCleared(cfg: Config, inputs: Inputs, was: World, now: World, p: Path, s: Submission, shown: StoredLabel,
                         binding: Binding, v: AcceptanceResult, first: bool)
    requires Concludes(cfg, inputs, was, now, p, Some(s.(displayLabel := "")), shown, binding, v, first)
    ensures Concludes(cfg, inputs, was, now, p, Some(s), shown, binding, v, first)
  {
    var cleared := s.(displayLabel := "");
    assert TaskOf(cleared) == TaskOf(s);
    assert AdmissionRefusal(cfg, inputs, cleared) == AdmissionRefusal(cfg, inputs, s);
    forall recorded ensures RerunRefusal(cfg, inputs, p, recorded, binding.subject, cleared)
                            == RerunRefusal(cfg, inputs, p, recorded, binding.subject, s) {
    }
  }

  lemma ConcludesSaid(cfg: Config, inputs: Inputs, was: World, now: World, p: Path, s: Option<Submission>, shown: StoredLabel,
                      binding: Binding, v: AcceptanceResult, first: bool, replies: set<Reply>)
    requires Concludes(cfg, inputs, was, now, p, s, shown, binding, v, first)
    ensures Concludes(cfg, inputs, was, now.(replies := replies), p, s, shown, binding, v, first)
  {
    var later := now.(replies := replies);
    if Stuck(cfg, now, p) {
      var why :| Blocks(cfg, now, p, why);
      assert Blocks(cfg, later, p, why);
    }
  }

  /** Asked without arguments, an accepted identity answers with an acceptance, unless recovery fails as things stand. */
  lemma ReconcileAccepts(cfg: Config, inputs: Inputs, was: World, now: World, p: Path, v: AcceptanceResult, first: bool)
    requires Concludes(cfg, inputs, was, now, p, None, NoLabel(), Binding(p.scope, None), v, first)
    requires Reachable(cfg, was) && Since(cfg, was, now, {})
    ensures IsLive(was, p) && Clean(inputs, p.identity.attempt) && !v.outcome.Accepted? ==> Stuck(cfg, now, p)
  {
  }

  lemma NotBoth(cfg: Config, w: World, p: Path)
    requires EndedOtherwise(cfg, w, p)
    ensures !RefusedByRights(cfg, w, p)
  {
  }

  lemma StillNamed(cfg: Config, w: World, v: World, mine: set<string>, p: Path)
    requires Reachable(cfg, w) && Since(cfg, w, v, mine) && IsLive(w, p)
    ensures IsLive(v, p) && p in v.named && Operation(w.journals[p]) in v.named[p] && Operation(v.journals[p]) in v.named[p]
    ensures v.journals[p].subject == w.journals[p].subject
  {
    RetainedSince(cfg, w, v, mine, p);
    JournalSince(cfg, w, v, mine, p);
  }

  lemma LiveAnswers(cfg: Config, w: World, p: Path, s: Option<Submission>)
    requires cfg.Valid() && Reachable(cfg, w) && IsLive(w, p)
    requires s.Some? ==> s.value.identity == p.identity && ValidSubmission(s.value)
    ensures var j := w.journals[p];
            var v := ReconcileEvidence(p.scope, cfg.owner, p.identity, s, Retained(p, j));
            if s.None? || SameAs(s.value, j.arguments) then v.outcome.Accepted? && v.receipt == Some(j.receipt)
            else v.outcome.KeyConflict?
  {
    JournalRecorded(cfg, w, p);
    RetainedAnswers(cfg, w.marked, p, w.journals[p], s);
  }

  // ----- Control and observation -----

  datatype CancelOutcome = Requested | AlreadyTerminal | CancelForbidden | CancelUnknown

  datatype Observation = Observed | NotAccepted | ObserveForbidden | ObserveInvalid | ObserveUnknown

  lemma StillLive(cfg: Config, w: World, v: World, x: World, mine: set<string>, p: Path)
    requires Reachable(cfg, w) && Since(cfg, w, v, mine) && Since(cfg, v, x, mine) && IsLive(w, p)
    ensures Since(cfg, w, x, mine) && IsLive(x, p)
  {
    SinceTrans(cfg, w, v, x, mine);
    RetainedSince(cfg, w, x, mine, p);
  }

  /** Once a journal read at w is published, its operation may be answered. */
  lemma AnswerableNow(cfg: Config, w: World, v: World, x: World, mine: set<string>, p: Path, s: Option<Submission>)
    requires Reachable(cfg, w) && Since(cfg, w, v, mine) && Since(cfg, v, x, mine)
    requires IsLive(w, p) && IsLive(x, p) && x.journals[p].published
    requires s.Some? ==> SameAs(s.value, w.journals[p].arguments)
    ensures Answerable(x, p, s, Operation(w.journals[p]))
  {
    SinceTrans(cfg, w, v, x, mine);
    MaterializedStays(cfg, w, x, mine, p);
  }

  lemma AnswerableSince(cfg: Config, w: World, v: World, mine: set<string>, p: Path, s: Option<Submission>, id: string)
    requires Reachable(cfg, w) && Since(cfg, w, v, mine) && Answerable(w, p, s, id)
    ensures Answerable(v, p, s, id)
  {
    JournalSince(cfg, w, v, mine, p);
    JobSince(cfg, w, v, mine, id);
    ReachableLeads(cfg, w, v);
    RetainedSince(cfg, w, v, mine, p);
  }

  /** A record matches a journal as long as the identity names the same operation. */
  lemma StillMatches(cfg: Config, w: World, v: World, mine: set<string>, p: Path, r: Record)
    requires Reachable(cfg, w) && Since(cfg, w, v, mine) && IsLive(w, p)
    ensures IsLive(v, p)
    ensures Operation(v.journals[p]) == Operation(w.journals[p]) ==>
              (Matches(cfg, v.journals[p], r) <==> Matches(cfg, w.journals[p], r))
  {
    JournalSince(cfg, w, v, mine, p);
    ReachableLeads(cfg, w, v);
    SameTurn(cfg, w, v, p);
  }

  /** A record that does not load, or does not match the journal it was read for, leaves the identity stuck, unless it names
      another operation by now. */
  lemma UnobservedIsStuck(cfg: Config, w: World, v: World, mine: set<string>, p: Path)
    requires Reachable(cfg, w) && Since(cfg, w, v, mine) && IsLive(w, p) && Operation(w.journals[p]) in v.jobs
    requires var r := v.jobs[Operation(w.journals[p])]; !Readable(cfg, r) || !Matches(cfg, w.journals[p], r)
    ensures IsLive(v, p) && (Stuck(cfg, v, p) || Operation(v.journals[p]) != Operation(w.journals[p]))
  {
    var r := v.jobs[Operation(w.journals[p])];
    StillMatches(cfg, w, v, mine, p, r);
    if Operation(v.journals[p]) == Operation(w.journals[p]) {
      assert Blocks(cfg, v, p, if Readable(cfg, r) then Mismatched else Unloadable);
    }
  }

  /** An intent on a valid record is refused for nothing but a terminal one. */
  lemma IntentRefused(r: Record, asker: string, now: Time)
    requires r.Valid()
    ensures var done := Changed(r, (x: Record) => Intended(x, WantCancel, asker, now));
            done == Err(TerminalJob) || done.Ok?
  {
  }

  /** An intent leaves everything an admission relies on alone. */
  lemma IntentEnabled(cfg: Config, w: World, id: string, asker: string, now: Time)
    requires id in w.jobs && Decodable(cfg, w.jobs[id])
    ensures Enabled(cfg, w, JobOp(id, OpIntent(WantCancel, asker, now)))
    ensures PerformFile(OpIntent(WantCancel, asker, now), w.jobs[id]) == Changed(w.jobs[id], (r: Record) => Intended(r, WantCancel, asker, now))
  {
    assert PerformFile(OpIntent(WantCancel, asker, now), w.jobs[id]) == Changed(w.jobs[id], (r: Record) => Intended(r, WantCancel, asker, now));
  }

  /** A journal that decoded when its operation was seen complete decodes ever after, and names it still. */
  lemma CompleteDecodes(cfg: Config, w: World, v: World, mine: set<string>, p: Path)
    requires Reachable(cfg, w) && Since(cfg, w, v, mine) && IsLive(w, p)
    requires w.journals[p].published && !Blocks(cfg, w, p, Undecodable)
    requires Operation(w.journals[p]) in w.jobs && w.jobs[Operation(w.journals[p])].state.Complete?
    ensures IsLive(v, p) && v.journals[p].published && Operation(v.journals[p]) == Operation(w.journals[p])
    ensures Operation(v.journals[p]) in v.jobs && v.jobs[Operation(v.journals[p])].state.Complete?
    ensures !Blocks(cfg, v, p, Undecodable)
  {
    CompleteStays(cfg, w, v, mine, p);
  }

  /** Losing the result of a completed operation is a step, once the feature is listed. */
  lemma LostStep(cfg: Config, w: World, p: Path)
    requires Reachable(cfg, w) && IsLive(w, p) && w.journals[p].published && ResultLostFeature in w.marked
    requires Decodes(cfg, w.marked, p, w.journals[p])
    requires Operation(w.journals[p]) in w.jobs && w.jobs[Operation(w.journals[p])].state.Complete?
    ensures var v := w.(journals := w.journals[p := w.journals[p].(lost := true)]); Since(cfg, w, v, {}) && Reachable(cfg, v)
  {
    MarkedIsListed(cfg, w);
    SinceStep(cfg, w, MarkLost(p), {});
  }

  // ----- Opening -----

  /** Opening publishes, and changes nothing else about a journal. */
  predicate Recovered(j: Journal, k: Journal) {
    k == j || (j.Live? && k.Live? && k == j.(published := true))
  }

  /** Published over a record that carries its kind, work and requirements. */
  ghost predicate Published(cfg: Config, w: World, p: Path)
    requires IsLive(w, p)
  {
    && w.journals[p].published && Operation(w.journals[p]) in w.jobs
    && Carries(cfg, w.journals[p], w.jobs[Operation(w.journals[p])])
  }

  ghost predicate Opened(w: World, p: Path) {
    p in w.journals && (IsLive(w, p) ==> w.journals[p].published)
  }

  ghost predicate AllRecovered(w: World, v: World, locked: set<Path>) {
    forall p | p in locked && p in w.journals :: p in v.journals && Recovered(w.journals[p], v.journals[p])
  }

  ghost predicate AllOpened(w: World, done: seq<Path>) {
    forall k | 0 <= k < |done| :: Opened(w, done[k])
  }

  // ----- Opening undisturbed -----

  /** Recovery of this identity would fare in v as it would in w. */
  ghost predicate FaresAlike(cfg: Config, w: World, v: World, p: Path) {
    Stuck(cfg, w, p) <==> Stuck(cfg, v, p)
  }

  /** Nothing but the record of one operation may have changed. */
  ghost predicate OnlyRecord(was: map<string, Record>, now: map<string, Record>, id: string) {
    forall other | other != id ::
      && (other in was <==> other in now)
      && (other in was ==> now[other] == was[other])
  }

  /** Recovering one journal leaves how every other one fares. */
  lemma OthersFareAlike(cfg: Config, w: World, v: World, x: World, locked: set<Path>, p: Path)
    requires Reachable(cfg, v) && AllRecovered(v, x, locked) && p in locked && FaresAlike(cfg, v, x, p)
    requires if IsLive(v, p) then OnlyRecord(v.jobs, x.jobs, Operation(v.journals[p])) else x.jobs == v.jobs
    requires forall q | q in locked :: q in v.journals && FaresAlike(cfg, w, v, q)
    ensures forall q | q in locked :: FaresAlike(cfg, w, x, q)
  {
    forall q | q in locked ensures FaresAlike(cfg, w, x, q) {
      if q != p && IsLive(v, p) && IsLive(v, q) {
        DistinctOperations(cfg, v, p, q);
      }
      if q != p {
        SameFare(cfg, v, x, q);
      }
    }
  }

  lemma SameFare(cfg: Config, v: World, x: World, q: Path)
    requires q in v.journals && q in x.journals && Recovered(v.journals[q], x.journals[q])
    requires IsLive(v, q) ==>
               var id := Operation(v.journals[q]);
               (id in v.jobs <==> id in x.jobs) && (id in v.jobs ==> x.jobs[id] == v.jobs[id])
    ensures FaresAlike(cfg, v, x, q)
  {
    forall why ensures Blocks(cfg, v, q, why) <==> Blocks(cfg, x, q, why) {
      SameTrouble(cfg, v, x, q, why);
    }
  }

  /** Publication does not decide how an identity fares. */
  lemma SameTrouble(cfg: Config, v: World, x: World, q: Path, why: Trouble)
    requires q in v.journals && q in x.journals && Recovered(v.journals[q], x.journals[q])
    requires IsLive(v, q) ==>
               var id := Operation(v.journals[q]);
               (id in v.jobs <==> id in x.jobs) && (id in v.jobs ==> x.jobs[id] == v.jobs[id])
    ensures Blocks(cfg, v, q, why) <==> Blocks(cfg, x, q, why)
  {
    if IsLive(v, q) {
      assert Proposal(cfg, v.journals[q]) == Proposal(cfg, x.journals[q]);
    }
  }

  lemma DistinctOperations(cfg: Config, w: World, p: Path, q: Path)
    requires Reachable(cfg, w) && IsLive(w, p) && IsLive(w, q) && p != q
    ensures Operation(w.journals[p]) != Operation(w.journals[q])
  {
    ReachableHolds(cfg, w);
    assert w.named[p][|w.named[p]| - 1] == Operation(w.journals[p]);
    assert w.named[q][|w.named[q]| - 1] == Operation(w.journals[q]);
  }

  /** The entries `done` of the directory w have been opened by now. When nothing else happened, they were all free of
      trouble in w, and everything still fares as it did. */
  ghost predicate OpenedSoFar(cfg: Config, w: World, v: World, locked: set<Path>, done: seq<Path>, exact: bool) {
    && AllRecovered(w, v, locked) && AllOpened(v, done)
    && (exact ==> forall q | q in locked :: q in v.journals && FaresAlike(cfg, w, v, q))
    && (exact ==> forall k | 0 <= k < |done| :: !Stuck(cfg, w, done[k]))
  }

  lemma NothingOpened(cfg: Config, w: World, v: World, locked: set<Path>, exact: bool)
    requires locked == w.journals.Keys && v.journals == w.journals && v.jobs == w.jobs
    ensures OpenedSoFar(cfg, w, v, locked, [], exact)
  {
    forall q | q in locked ensures FaresAlike(cfg, w, v, q) {
      SameFare(cfg, w, v, q);
    }
  }

  /** One more entry opened leaves the ones before it open. */
  lemma OneMoreOpened(cfg: Config, w: World, v: World, x: World, locked: set<Path>, done: seq<Path>, p: Path, exact: bool)
    requires OpenedSoFar(cfg, w, v, locked, done, exact) && AllRecovered(v, x, locked) && locked == w.journals.Keys
    requires Reachable(cfg, v) && p in locked && forall q | q in done :: q in locked
    requires exact ==> FaresAlike(cfg, v, x, p)
    requires exact ==> if IsLive(v, p) then OnlyRecord(v.jobs, x.jobs, Operation(v.journals[p])) else x.jobs == v.jobs
    ensures AllRecovered(w, x, locked)
    ensures Opened(x, p) && (exact ==> !Stuck(cfg, x, p)) ==> OpenedSoFar(cfg, w, x, locked, done + [p], exact)
    ensures exact ==> FaresAlike(cfg, w, x, p)
  {
    if exact {
      OthersFareAlike(cfg, w, v, x, locked, p);
    }
    forall k | 0 <= k < |done| ensures Opened(x, done[k]) {
      assert Opened(v, done[k]) && done[k] in locked && done[k] in v.journals;
    }
  }

  /** What opening every entry of the directory w shows of it. */
  lemma WholeDirectory(cfg: Config, w: World, v: World, locked: set<Path>, entries: seq<Path>, exact: bool)
    requires Reachable(cfg, v) && locked == w.journals.Keys && OpenedSoFar(cfg, w, v, locked, entries, exact)
    requires forall p :: p in entries <==> p in w.journals
    ensures forall p | IsLive(w, p) :: IsLive(v, p) && Published(cfg, v, p)
    ensures exact ==> forall p | p in w.journals :: !Stuck(cfg, w, p)
  {
    forall p | IsLive(w, p) ensures IsLive(v, p) && Published(cfg, v, p) {
      var k :| 0 <= k < |entries| && entries[k] == p;
      assert Opened(v, entries[k]);
      RecordBehind(cfg, v, p);
    }
  }
}
