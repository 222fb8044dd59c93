/** Where admission falls short of what it promises: the inputs that show it, and exactly when it does not. */
module AdmissionLimits {
  import opened Options
  import opened JobRecord
  import opened Decision
  import opened LeaseProtocol
  import opened FileBinding
  import opened Spelling
  import opened Admission
  import opened AdmissionSteps
  import opened AdmissionRuns
  import opened ProviderFacts

  // ----- Work that is prepared differently the second time -----

  function With(cfg: Config, e: Executor): Config {
    cfg.(executor := Some(e))
  }

  /** An executor that tells one caller's task from every other. */
  function Picky(b: Binding, t: Task): Executor {
    Executor((c, operation, u) => Some(Work(if c == b && u == t then "1" else "0", [])), (operation, u) => None, r => false)
  }

  /** A re-run prepares the request presented again, and every later read prepares the retained one. The journal decodes
      under whatever deterministic executor exactly when both show preparation the same: the same subject, and the same
      guarantees beyond admission's own in the same order. Argument equality ignores the order, and the subject. */
  lemma RerunReadableIff(cfg: Config, marked: set<Feature>, p: Path, j: Journal, operation: string, s: Submission,
                         subject: Option<string>)
    requires Recorded(cfg, marked, p, j) && j.Live? && !j.legacy && ValidOperationId(operation) && SameAs(s, j.arguments)
    ensures (forall e: Executor | e.prepare(Binding(p.scope, subject), operation, TaskOf(s)).Some? ::
               Decodes(With(cfg, e), marked, p, RerunJournal(With(cfg, e), p, j, operation, s, subject)))
            <==> subject == j.subject && Extra(s.requiredGuarantees) == Extra(j.arguments.requiredGuarantees)
  {
    if subject == j.subject && Extra(s.requiredGuarantees) == Extra(j.arguments.requiredGuarantees) {
      assert TaskOf(s) == TaskOf(j.arguments);
      forall e: Executor | e.prepare(Binding(p.scope, subject), operation, TaskOf(s)).Some?
        ensures Decodes(With(cfg, e), marked, p, RerunJournal(With(cfg, e), p, j, operation, s, subject))
      {
        RerunDecodesBut(With(cfg, e), marked, p, j, RerunJournal(With(cfg, e), p, j, operation, s, subject));
      }
    } else {
      PickyNotices(cfg, p, j, operation, s, subject);
    }
  }

  lemma PickyNotices(cfg: Config, p: Path, j: Journal, operation: string, s: Submission, subject: Option<string>)
    requires j.Live? && !j.legacy
    requires subject != j.subject || Extra(s.requiredGuarantees) != Extra(j.arguments.requiredGuarantees)
    ensures var e := Picky(Binding(p.scope, subject), TaskOf(s));
            && e.prepare(Binding(p.scope, subject), operation, TaskOf(s)).Some?
            && !WorkAgrees(With(cfg, e), p, RerunJournal(With(cfg, e), p, j, operation, s, subject))
  {
    var e := Picky(Binding(p.scope, subject), TaskOf(s));
    var k := RerunJournal(With(cfg, e), p, j, operation, s, subject);
    assert k.work == Some(Work("1", []));
    assert Prepared(e, p, k) == Some(Work("0", []));
    assert "1"[0] != "0"[0];
  }

  // ----- Journals that can never be recovered -----

  /** The journal no longer decodes, or its record does not, or it was never published and holds work no record gives
      back. */
  ghost predicate Spoiled(cfg: Config, w: World, p: Path) {
    && IsLive(w, p)
    && var j := w.journals[p];
    || !WorkAgrees(cfg, p, j)
    || (Operation(j) in w.jobs && !Decodable(cfg, w.jobs[Operation(j)]))
    || (!j.published && !j.legacy && !Holdable(cfg, j))
  }

  lemma SpoiledIsStuck(cfg: Config, w: World, p: Path)
    requires CurrentOk(cfg, w) && Spoiled(cfg, w, p)
    ensures Stuck(cfg, w, p)
  {
    var j := w.journals[p];
    if !WorkAgrees(cfg, p, j) {
      assert Blocks(cfg, w, p, Undecodable);
    } else if Operation(j) !in w.jobs {
      assert Blocks(cfg, w, p, Unstorable);
    } else if !Decodable(cfg, w.jobs[Operation(j)]) {
      assert Blocks(cfg, w, p, Unloadable);
    } else {
      UnholdableIsNotLoaded(cfg, w, p);
      assert Blocks(cfg, w, p, Unloadable) || Blocks(cfg, w, p, Mismatched);
    }
  }

  lemma UnholdableIsNotLoaded(cfg: Config, w: World, p: Path)
    requires CurrentOk(cfg, w) && IsLive(w, p) && !w.journals[p].legacy && !Holdable(cfg, w.journals[p])
    requires Operation(w.journals[p]) in w.jobs
    ensures var r := w.jobs[Operation(w.journals[p])]; !Readable(cfg, r) || !Matches(cfg, w.journals[p], r)
  {
    var j, r := w.journals[p], w.jobs[Operation(w.journals[p])];
    assert CurrentAt(cfg, w.jobs, j);
    if Readable(cfg, r) && Matches(cfg, j, r) {
      LoadedIsHoldable(cfg, j, r);
    }
  }

  lemma SpoiledStep(cfg: Config, w: World, p: Path, a: Action)
    requires CurrentOk(cfg, w) && Spoiled(cfg, w, p) && Enabled(cfg, w, a)
    ensures Spoiled(cfg, Apply(cfg, w, a), p)
  {
    var j := w.journals[p];
    if !WorkAgrees(cfg, p, j) {
      assert Apply(cfg, w, a).journals[p] == j;
    } else if Operation(j) in w.jobs && !Decodable(cfg, w.jobs[Operation(j)]) {
      UndecodableStays(cfg, w, p, a);
    } else {
      UnholdableStays(cfg, w, p, a);
    }
  }

  lemma UndecodableStays(cfg: Config, w: World, p: Path, a: Action)
    requires IsLive(w, p) && Enabled(cfg, w, a)
    requires Operation(w.journals[p]) in w.jobs && !Decodable(cfg, w.jobs[Operation(w.journals[p])])
    ensures var v := Apply(cfg, w, a);
            && IsLive(v, p) && Operation(v.journals[p]) == Operation(w.journals[p])
            && Operation(w.journals[p]) in v.jobs && v.jobs[Operation(w.journals[p])] == w.jobs[Operation(w.journals[p])]
  {
    UndecodableRecordStays(cfg, w, Operation(w.journals[p]), a);
  }

  lemma UndecodableRecordStays(cfg: Config, w: World, id: string, a: Action)
    requires id in w.jobs && !Decodable(cfg, w.jobs[id]) && Enabled(cfg, w, a)
    ensures id in Apply(cfg, w, a).jobs && Apply(cfg, w, a).jobs[id] == w.jobs[id]
  {
  }

  lemma UnholdableStays(cfg: Config, w: World, p: Path, a: Action)
    requires CurrentOk(cfg, w) && IsLive(w, p) && Enabled(cfg, w, a)
    requires !w.journals[p].published && !w.journals[p].legacy && !Holdable(cfg, w.journals[p])
    ensures IsLive(Apply(cfg, w, a), p) && Apply(cfg, w, a).journals[p] == w.journals[p]
  {
    if a.Publish? && a.path == p {
      UnholdableIsNotLoaded(cfg, w, p);
    }
  }

  lemma {:induction false} SpoiledRun(cfg: Config, w: World, p: Path, run: seq<Action>)
    requires Inv(cfg, w) && Spoiled(cfg, w, p) && Run(cfg, w, run)
    ensures Spoiled(cfg, End(cfg, w, run), p)
    decreases |run|
  {
    if run != [] {
      SpoiledStep(cfg, w, p, run[0]);
      StepKeeps(cfg, w, run[0]);
      SpoiledRun(cfg, Apply(cfg, w, run[0]), p, run[1..]);
    }
  }

  /** A spoiled journal stays so in every run, whatever executors, callers and reopenings do: its recovery fails at every
      later moment, so no later opening succeeds. */
  lemma StuckForever(cfg: Config, w: World, v: World, p: Path)
    requires Reachable(cfg, w) && Spoiled(cfg, w, p) && Leads(cfg, w, v)
    ensures Spoiled(cfg, v, p) && Stuck(cfg, v, p)
  {
    var run :| Run(cfg, w, run) && End(cfg, w, run) == v;
    ReachableHolds(cfg, w);
    SpoiledRun(cfg, w, p, run);
    RunKeeps(cfg, w, run);
    SpoiledIsStuck(cfg, v, p);
  }

  // ----- The inputs -----

  const ALICE: Path := Path("alice", RequestIdentity("key", "epoch", 0))
  const AGAIN: Path := Path("alice", RequestIdentity("key", "epoch", 1))
  const OFFERED: seq<string> := GUARANTEES + ["x", "y"]

  function Request(p: Path, spec: string, required: seq<string>): Submission {
    Submission(p.identity, "kind", spec, required, "")
  }

  function Setting(executor: Option<Executor>): Config {
    Config("owner", "epoch", 1, executor, OFFERED, (bytes: string) => Json(bytes), bytes => true,
           payload => if payload == "deep" then 64 else 0, r => 0)
  }

  function Calm(id: string): Inputs {
    Inputs((what, n) => true, point => false, OFFERED, None, None, "", 0, id, "op-z")
  }

  lemma NoExtraInGuarantees()
    ensures NoRepeats(GUARANTEES) && "" !in GUARANTEES && "x" !in GUARANTEES && "y" !in GUARANTEES && "x" != "y"
    ensures Extra(["x", "y"]) == ["x", "y"] && Extra(["y", "x"]) == ["y", "x"]
  {
    AdmissionGuarantees();
    assert forall g | g in GUARANTEES :: |g| > 1;
    assert "x"[0] != "y"[0];
    assert ["x", "y"][1..] == ["y"] && ["y", "x"][1..] == ["x"];
  }

  predicate SomeOrder(required: seq<string>) {
    required == [] || required == ["x", "y"] || required == ["y", "x"]
  }

  lemma RequestIsValid(cfg: Config, p: Path, spec: string, required: seq<string>)
    requires (p == ALICE || p == AGAIN) && SomeOrder(required) && |spec| <= 64 && spec != "null"
    requires cfg == Setting(cfg.executor)
    ensures cfg.Valid() && PathOk(cfg, p) && ValidSpec(cfg, Request(p, spec, required)) && NormalizeLabel("") == Some("")
  {
    NoExtraInGuarantees();
    GuaranteeSetAccepts(required);
    assert !IsSpace("kind"[0]);
  }

  lemma EmptyIsReachable(cfg: Config)
    requires cfg.Valid()
    ensures Reachable(cfg, EMPTY)
  {
    assert Initial(cfg, EMPTY);
    LeadsRefl(cfg, EMPTY);
  }

  lemma Follows(cfg: Config, w: World, a: Action)
    requires Reachable(cfg, w) && Enabled(cfg, w, a)
    ensures Reachable(cfg, Apply(cfg, w, a))
  {
    LeadsStep(cfg, w, a);
    ReachableLeads(cfg, w, Apply(cfg, w, a));
  }

  function FirstFor(cfg: Config, s: Submission, p: Path, id: string): Journal {
    FirstJournal(cfg, p, Some(s), NoLabel(), Binding("alice", None), Calm(id))
  }

  lemma CalmIsOk(cfg: Config, id: string)
    requires cfg == Setting(cfg.executor) && ValidOperationId(id) && id != "op-z"
    ensures InputsOk(cfg, Calm(id))
  {
  }

  /** An uninterrupted submission by alice decides its identity. */
  lemma Decided(cfg: Config, w: World, s: Submission, p: Path, id: string, e: AttemptEvidence)
    requires cfg == Setting(cfg.executor) && Reachable(cfg, w) && p !in w.journals && id !in w.ids
    requires cfg.Valid() && PathOk(cfg, p) && ValidSpec(cfg, s) && NormalizeLabel("") == Some("") && s.identity == p.identity
    requires p == ALICE || (p == AGAIN && AttemptsFeature in w.marked)
    requires ValidOperationId(id) && id != "op-z"
    requires p == AGAIN ==> EvidenceHolds(w, p, e) && AttemptEligibility(p.identity, Some(s), e).None?
    ensures Enabled(cfg, w, Decide(p, FirstFor(cfg, s, p, id))) && Reachable(cfg, Apply(cfg, w, Decide(p, FirstFor(cfg, s, p, id))))
  {
    CalmIsOk(cfg, id);
    var binding, inputs := Binding("alice", None), Calm(id);
    FirstJournalShape(cfg, p, Some(s), NoLabel(), binding, inputs);
    FirstJournalDecodes(cfg, w, p, Some(s), NoLabel(), binding, inputs);
    FirstJournalEnabled(cfg, w, p, Some(s), NoLabel(), binding, inputs, e, FirstFor(cfg, s, p, id));
    Follows(cfg, w, Decide(p, FirstFor(cfg, s, p, id)));
  }

  const NO_EVIDENCE: AttemptEvidence := AttemptEvidence(Contradictory, None, None)

  /** The first submission to an empty root, whatever it asks for. */
  lemma FirstIsReachable(cfg: Config, spec: string, required: seq<string>)
    requires cfg == Setting(cfg.executor) && SomeOrder(required) && |spec| <= 64 && spec != "null"
    ensures var a := Decide(ALICE, FirstFor(cfg, Request(ALICE, spec, required), ALICE, "op-a"));
            cfg.Valid() && Enabled(cfg, EMPTY, a) && Reachable(cfg, Apply(cfg, EMPTY, a))
  {
    RequestIsValid(cfg, ALICE, spec, required);
    EmptyIsReachable(cfg);
    Decided(cfg, EMPTY, Request(ALICE, spec, required), ALICE, "op-a", NO_EVIDENCE);
  }

  // ----- Work no record gives back -----

  /** Preparation answers the JSON value null, which is valid JSON and no record's spec. */
  function NullWorker(): Executor {
    Executor((b, operation, t) => Some(Work("null", [])), (operation, t) => None, r => false)
  }

  /** Admission accepts work that is null, and with it the root can never be opened again. */
  lemma NullWorkIsAdmitted() returns (cfg: Config, w: World)
    ensures cfg.Valid() && Reachable(cfg, w) && Spoiled(cfg, w, ALICE)
  {
    cfg := Setting(Some(NullWorker()));
    FirstIsReachable(cfg, "{}", []);
    w := Apply(cfg, EMPTY, Decide(ALICE, FirstFor(cfg, Request(ALICE, "{}", []), ALICE, "op-a")));
  }

  /** A JSON string whose one character is U+2028, raw. */
  const SEPARATOR: string := "\"\U{2028}\""

  /** Without any executor, a caller's spec with a raw separator is accepted, and the root can never be opened again. */
  lemma SeparatorIsAdmitted() returns (cfg: Config, w: World)
    ensures cfg.Valid() && cfg.executor.None? && Reachable(cfg, w) && Spoiled(cfg, w, ALICE)
  {
    cfg := Setting(None);
    assert SEPARATOR[0] != "null"[0];
    FirstIsReachable(cfg, SEPARATOR, []);
    w := Apply(cfg, EMPTY, Decide(ALICE, FirstFor(cfg, Request(ALICE, SEPARATOR, []), ALICE, "op-a")));
    assert SEPARATOR[1] == '\U{2028}';
    assert !Plain(SEPARATOR);
  }

  // ----- A life of one operation -----

  /** Preparation keeps the caller's order of the guarantees. */
  function OrderedWorker(): Executor {
    Executor((b: Binding, operation: string, t: Task) => Some(Work("{}", t.extra)), (operation, t) => None, r => false)
  }

  const ORDERED: Config := Setting(Some(OrderedWorker()))
  const XY: seq<string> := ["x", "y"]

  function Entry(p: Path, id: string, published: bool): Journal {
    Live(published, Request(p, "{}", XY), Receipt(p.identity, "owner", id, OFFERED, 1), Some(Work("{}", XY)), false, None,
         NoLabel(), false)
  }

  function Job(state: State, error: string, lease: Lease, updated: Time): Record {
    Record("op-a", "kind", None, state, Json("{}"), Absent, Progress(0, 0, At(0), None), lease, None, XY, error, None, map[],
           At(0), updated)
  }

  function Admitted(): World {
    EMPTY.(journals := map[ALICE := Entry(ALICE, "op-a", false)], named := map[ALICE := ["op-a"]],
           ids := map["op-a" := Place(ALICE, 0)])
  }

  function Holding(r: Record, published: bool, features: set<Feature>): World {
    Admitted().(journals := map[ALICE := Entry(ALICE, "op-a", published)], jobs := map["op-a" := r],
                header := features, marked := features)
  }

  lemma AcceptsXY()
    ensures AcceptedFrom(OFFERED, XY) == Some(OFFERED)
  {
    NoExtraInGuarantees();
    assert XY[1..] == ["y"] && ["y"][1..] == [];
    assert AppendNew(GUARANTEES, XY) == AppendNew(GUARANTEES + ["x"], ["y"]);
    assert AppendNew(GUARANTEES + ["x"], ["y"]) == AppendNew(GUARANTEES + ["x"] + ["y"], []);
    assert GUARANTEES + ["x"] + ["y"] == OFFERED;
  }

  lemma EntryIsFirst(p: Path, id: string)
    ensures FirstFor(ORDERED, Request(p, "{}", XY), p, id) == Entry(p, id, false)
  {
    NoExtraInGuarantees();
    AcceptsXY();
  }

  lemma AdmittedIsReachable()
    ensures Reachable(ORDERED, Admitted())
  {
    EntryIsFirst(ALICE, "op-a");
    FirstIsReachable(ORDERED, "{}", XY);
  }

  const FRESH: Record := Job(Pending, "", Lease("", 0, 0, None), At(0))
  const CLAIMED: Record := Job(Running, "", Lease("worker", 1, At(5000), None), At(0))
  const REFUSED: Record := Job(Failed, "standing: refused", Lease("worker", 1, At(5000), None), At(1))

  lemma JobsAreValid()
    ensures FRESH.Valid() && CLAIMED.Valid() && REFUSED.Valid() && STANDING_PREFIX <= REFUSED.error
    ensures Stored(FRESH) == FRESH && Stored(CLAIMED) == CLAIMED && Stored(REFUSED) == REFUSED
    ensures Decodable(ORDERED, FRESH) && Decodable(ORDERED, CLAIMED) && Decodable(ORDERED, REFUSED)
    ensures Proposed(Proposal(ORDERED, Entry(ALICE, "op-a", false)), "op-a", 0) == FRESH
  {
    assert !IsSpace("op-a"[0]) && !IsSpace("kind"[0]);
    assert "standing: refused"[..|STANDING_PREFIX|] == STANDING_PREFIX;
    RespelledIff("{}");
    assert "{}"[0] != "deep"[0];
  }

  lemma EntryDecodes(marked: set<Feature>, published: bool)
    ensures Decodes(ORDERED, marked, ALICE, Entry(ALICE, "op-a", published))
  {
    var j, k := Entry(ALICE, "op-a", false), Entry(ALICE, "op-a", published);
    AdmittedIsReachable();
    JournalDecodes(ORDERED, Admitted(), ALICE);
    RefineRecorded(ORDERED, {}, ALICE, j, k);
    MarksDecode(ORDERED, {}, marked, ALICE, k);
  }

  lemma InsertIsEnabled()
    ensures Enabled(ORDERED, Admitted(), Insert(ALICE, 0))
  {
    EntryDecodes({}, false);
    JobsAreValid();
  }

  lemma InsertChanges()
    requires Enabled(ORDERED, Admitted(), Insert(ALICE, 0))
    ensures Apply(ORDERED, Admitted(), Insert(ALICE, 0)) == Holding(FRESH, false, {})
  {
    JobsAreValid();
  }

  lemma FreshMatches()
    ensures Readable(ORDERED, FRESH) && Matches(ORDERED, Entry(ALICE, "op-a", false), FRESH)
  {
    JobsAreValid();
  }

  lemma PublishIsEnabled()
    ensures Enabled(ORDERED, Holding(FRESH, false, {}), Publish(ALICE))
  {
    EntryDecodes({}, false);
    FreshMatches();
  }

  lemma PublishChanges(cfg: Config, w: World, p: Path)
    requires Enabled(cfg, w, Publish(p))
    ensures Apply(cfg, w, Publish(p)) == w.(journals := w.journals[p := w.journals[p].(published := true)])
  {
  }

  lemma HoldingPublished(r: Record)
    ensures var w := Holding(r, false, {});
            w.(journals := w.journals[ALICE := w.journals[ALICE].(published := true)]) == Holding(r, true, {})
  {
  }

  lemma PublishedIsReachable()
    ensures Reachable(ORDERED, Holding(FRESH, true, {}))
  {
    AdmittedIsReachable();
    InsertIsEnabled();
    InsertChanges();
    Follows(ORDERED, Admitted(), Insert(ALICE, 0));
    PublishIsEnabled();
    PublishChanges(ORDERED, Holding(FRESH, false, {}), ALICE);
    HoldingPublished(FRESH);
    Follows(ORDERED, Holding(FRESH, false, {}), Publish(ALICE));
  }

  function Refuse(r: Record): Result<Record> {
    Ok(r.(state := Failed, error := "standing: refused"))
  }

  const CLAIM: Op := OpClaim("worker", 5000, 0)
  const REFUSE: Op := OpUpdate(1, Refuse, 1, 1)

  lemma ExecutorSteps()
    ensures PerformFile(CLAIM, FRESH) == Ok(CLAIMED) && PerformFile(REFUSE, CLAIMED) == Ok(REFUSED)
  {
    JobsAreValid();
  }

  lemma JobChanges(r: Record, s: Record, op: Op)
    requires PerformFile(op, r) == Ok(s) && s.requires_ == r.requires_ && Decodable(ORDERED, r) && Stored(s) == s
    ensures Enabled(ORDERED, Holding(r, true, {}), JobOp("op-a", op))
    ensures Apply(ORDERED, Holding(r, true, {}), JobOp("op-a", op)) == Holding(s, true, {})
  {
  }

  lemma JobStep(r: Record, s: Record, op: Op)
    requires Reachable(ORDERED, Holding(r, true, {}))
    requires PerformFile(op, r) == Ok(s) && s.requires_ == r.requires_ && Decodable(ORDERED, r) && Stored(s) == s
    ensures Reachable(ORDERED, Holding(s, true, {}))
  {
    JobChanges(r, s, op);
    Follows(ORDERED, Holding(r, true, {}), JobOp("op-a", op));
  }

  lemma ClaimedIsReachable()
    ensures Reachable(ORDERED, Holding(CLAIMED, true, {}))
  {
    PublishedIsReachable();
    ExecutorSteps();
    JobsAreValid();
    JobStep(FRESH, CLAIMED, CLAIM);
  }

  /** The executor claims the work, and its rights are refused. */
  lemma RefusedIsReachable()
    ensures Reachable(ORDERED, Holding(REFUSED, true, {})) && Reachable(ORDERED, Holding(REFUSED, true, {AttemptsFeature}))
  {
    ClaimedIsReachable();
    ExecutorSteps();
    JobsAreValid();
    JobStep(CLAIMED, REFUSED, REFUSE);
    FeatureSteps(REFUSED);
  }

  lemma FeatureChanges(r: Record)
    ensures var w := Holding(r, true, {});
            var listed := w.(header := {AttemptsFeature});
            && Apply(ORDERED, w, AddFeature(AttemptsFeature)) == listed
            && Apply(ORDERED, listed, Remember(AttemptsFeature)) == Holding(r, true, {AttemptsFeature})
  {
  }

  lemma FeatureSteps(r: Record)
    requires Reachable(ORDERED, Holding(r, true, {}))
    ensures Reachable(ORDERED, Holding(r, true, {AttemptsFeature}))
  {
    var w := Holding(r, true, {});
    FeatureChanges(r);
    Follows(ORDERED, w, AddFeature(AttemptsFeature));
    Follows(ORDERED, w.(header := {AttemptsFeature}), Remember(AttemptsFeature));
  }

  lemma OrderIsImmaterial(required: seq<string>)
    requires required == XY || required == ["y", "x"]
    ensures SameAs(Request(ALICE, "{}", required), Request(ALICE, "{}", XY))
  {
    NoExtraInGuarantees();
    GuaranteeSetAccepts(XY);
    GuaranteeSetAccepts(required);
    SameArgumentsIsSetEquality(Request(ALICE, "{}", required), Request(ALICE, "{}", XY));
  }

  /** The identity's operation was refused its rights, and its journal reads. */
  ghost predicate Rerunnable(cfg: Config, w: World, p: Path) {
    && IsLive(w, p) && Decodes(cfg, w.marked, p, w.journals[p]) && w.journals[p].published && !w.journals[p].legacy
    && Operation(w.journals[p]) in w.jobs && FailedByRights(cfg, w.jobs[Operation(w.journals[p])])
    && Decodable(cfg, w.jobs[Operation(w.journals[p])])
  }

  lemma RerunEnabled(cfg: Config, w: World, p: Path, operation: string, s: Submission, subject: Option<string>)
    requires Rerunnable(cfg, w, p)
    requires operation !in w.ids && ValidOperationId(operation) && s.identity == p.identity && SameAs(s, w.journals[p].arguments)
    requires cfg.executor.Some? ==> cfg.executor.value.prepare(Binding(p.scope, subject), operation, TaskOf(s)).Some?
    ensures Enabled(cfg, w, Rerun(p, operation, s, subject))
  {
  }

  const FAILED_BEFORE: AttemptEvidence := AttemptEvidence(AcceptedBefore, Some(Failed), Some(Request(ALICE, "{}", XY)))

  lemma FailureIsEvidence()
    ensures EvidenceHolds(Holding(REFUSED, true, {AttemptsFeature}), AGAIN, FAILED_BEFORE)
  {
    var w := Holding(REFUSED, true, {AttemptsFeature});
    assert AGAIN.Previous() == ALICE;
    assert IsLive(w, ALICE) && ALICE.SameKey(AGAIN) && w.journals[ALICE].arguments == Request(ALICE, "{}", XY);
  }

  lemma RetryIsEligible()
    ensures AttemptEligibility(AGAIN.identity, Some(Request(AGAIN, "{}", XY)), FAILED_BEFORE).None?
  {
    NoExtraInGuarantees();
    GuaranteeSetAccepts(XY);
  }

  lemma RefusedIsRerunnable(features: set<Feature>)
    ensures Rerunnable(ORDERED, Holding(REFUSED, true, features), ALICE)
  {
    var w := Holding(REFUSED, true, features);
    assert Decodes(ORDERED, w.marked, ALICE, w.journals[ALICE]) by { EntryDecodes(features, true); }
    assert FailedByRights(ORDERED, w.jobs["op-a"]) && Decodable(ORDERED, w.jobs["op-a"]) by { JobsAreValid(); }
  }

  lemma IdsAreNew()
    ensures "op-z" != "op-a" && "op-b" != "op-a" && "op-z" != "op-b" && ValidOperationId("op-z") && ValidOperationId("op-b")
  {
    assert "op-z"[3] != "op-a"[3] && "op-b"[3] != "op-a"[3] && "op-z"[3] != "op-b"[3];
  }

  /** What both scenarios need of the world in which alice's first attempt was refused. */
  ghost predicate FirstRefused(w: World) {
    && Reachable(ORDERED, w) && Rerunnable(ORDERED, w, ALICE)
    && w.journals[ALICE].arguments == Request(ALICE, "{}", XY) && w.journals[ALICE].subject == None
    && AGAIN !in w.journals && AttemptsFeature in w.marked && "op-b" !in w.ids && "op-z" !in w.ids
    && EvidenceHolds(w, AGAIN, FAILED_BEFORE)
  }

  lemma FirstRefusedIsReachable() returns (w: World)
    ensures FirstRefused(w)
  {
    w := Holding(REFUSED, true, {AttemptsFeature});
    IdsAreNew();
    FailureIsEvidence();
    RefusedIsRerunnable({AttemptsFeature});
    assert Reachable(ORDERED, w) by { RefusedIsReachable(); }
  }

  /** An order-sensitive executor, the same request presented again with its guarantees in another order: the journal the
      re-run leaves no longer decodes, and the root can never be opened again. */
  lemma OrderSpoils() returns (w: World)
    ensures ORDERED.Valid() && Reachable(ORDERED, w) && Spoiled(ORDERED, w, ALICE)
  {
    var s := Request(ALICE, "{}", ["y", "x"]);
    assert ORDERED.Valid() by { RequestIsValid(ORDERED, ALICE, "{}", XY); }
    var v := FirstRefusedIsReachable();
    IdsAreNew();
    OrderIsImmaterial(["y", "x"]);
    NoExtraInGuarantees();
    assert ["y", "x"][0] != XY[0];
    w := RerunSpoils(ORDERED, v, ALICE, "op-z", s);
  }

  lemma RerunSpoils(cfg: Config, v: World, p: Path, operation: string, s: Submission) returns (w: World)
    requires Reachable(cfg, v) && Rerunnable(cfg, v, p) && cfg.executor.Some? && v.journals[p].subject == None
    requires operation !in v.ids && ValidOperationId(operation) && s.identity == p.identity && SameAs(s, v.journals[p].arguments)
    requires var prepare := cfg.executor.value.prepare;
             && prepare(Binding(p.scope, None), operation, TaskOf(s)).Some?
             && prepare(Binding(p.scope, None), operation, TaskOf(s))
                != prepare(Binding(p.scope, None), operation, TaskOf(v.journals[p].arguments))
    ensures Reachable(cfg, w) && Spoiled(cfg, w, p)
  {
    RerunEnabled(cfg, v, p, operation, s, None);
    Follows(cfg, v, Rerun(p, operation, s, None));
    w := Apply(cfg, v, Rerun(p, operation, s, None));
  }

  // ----- A record that no longer decodes -----

  function Deepen(r: Record): Result<Record> {
    Ok(r.(checkpoint := Json("deep")))
  }

  const DEEPENED: Record := CLAIMED.(checkpoint := Json("deep"), updatedAt := At(1))
  const DEEPEN: Op := OpUpdate(1, Deepen, 1, 1)

  lemma DeepIsPlain()
    ensures Respelled("deep") == "deep"
  {
    assert Plain("deep");
    RespelledIff("deep");
  }

  lemma DeepenSteps()
    ensures PerformFile(DEEPEN, CLAIMED) == Ok(DEEPENED)
  {
    assert CLAIMED.Valid() by { JobsAreValid(); }
  }

  lemma DeepenedIsWritten()
    ensures Stored(DEEPENED) == DEEPENED && !Decodable(ORDERED, DEEPENED)
  {
    assert Stored(CLAIMED) == CLAIMED by { JobsAreValid(); }
    DeepIsPlain();
  }

  lemma DeepenedIsSpoiled()
    ensures Spoiled(ORDERED, Holding(DEEPENED, true, {}), ALICE)
  {
    assert !Decodable(ORDERED, DEEPENED) by { DeepenedIsWritten(); }
  }

  /** An executor writes a checkpoint nested 64 deep, one too many inside its record: the store takes it, the published record
      no longer decodes, and the root can never be opened again. */
  lemma DeepCheckpointSpoils() returns (w: World)
    ensures ORDERED.Valid() && Reachable(ORDERED, w) && Spoiled(ORDERED, w, ALICE) && w.journals[ALICE].published
  {
    assert ORDERED.Valid() by { RequestIsValid(ORDERED, ALICE, "{}", XY); }
    w := Holding(DEEPENED, true, {});
    DeepenedIsSpoiled();
    assert Reachable(ORDERED, w) by { DeepenedIsReachable(); }
  }

  lemma DeepenedIsReachable()
    ensures Reachable(ORDERED, Holding(DEEPENED, true, {}))
  {
    assert Decodable(ORDERED, CLAIMED) by { JobsAreValid(); }
    ClaimedIsReachable();
    DeepenSteps();
    DeepenedIsWritten();
    JobStep(CLAIMED, DEEPENED, DEEPEN);
  }

  // ----- Two live attempts of one key -----

  /** The second attempt is admitted, as it may be after a failure. */
  lemma RetryDecides(w: World)
    requires FirstRefused(w)
    ensures Enabled(ORDERED, w, Decide(AGAIN, FirstFor(ORDERED, Request(AGAIN, "{}", XY), AGAIN, "op-b")))
  {
    IdsAreNew();
    RetryIsEligible();
    RequestIsValid(ORDERED, AGAIN, "{}", XY);
    Decided(ORDERED, w, Request(AGAIN, "{}", XY), AGAIN, "op-b", FAILED_BEFORE);
  }

  lemma StillRerunnable(cfg: Config, v: World, p: Path, q: Path, k: Journal)
    requires Rerunnable(cfg, v, p) && Enabled(cfg, v, Decide(q, k)) && k.Live? && q != p
    ensures var u := Apply(cfg, v, Decide(q, k));
            && Rerunnable(cfg, u, p) && u.journals[p] == v.journals[p] && IsLive(u, q) && u.journals[q] == k
            && u.jobs == v.jobs && u.ids == v.ids[Operation(k) := Place(q, 0)]
  {
  }

  lemma RerunLeavesTwo(cfg: Config, u: World, p: Path, q: Path, a: Action)
    requires Enabled(cfg, u, a) && a.Rerun? && a.path == p && q != p && q.SameKey(p)
    requires IsLive(u, q) && Operation(u.journals[q]) !in u.jobs && a.operation !in u.jobs
    ensures var w := Apply(cfg, u, a); Working(w, p) && Working(w, q)
  {
  }

  lemma TwoAreNotOne(w: World, p: Path, q: Path)
    requires Working(w, p) && Working(w, q) && q != p && q.SameKey(p)
    ensures !OneLive(w, p)
  {
    assert p.SameKey(p);
  }

  /** A later attempt admitted after a refusal, and then the refused one run again. */
  lemma RetryThenRerun(cfg: Config, v: World, p: Path, q: Path, k: Journal, operation: string, s: Submission) returns (w: World)
    requires Reachable(cfg, v) && Rerunnable(cfg, v, p) && Enabled(cfg, v, Decide(q, k)) && k.Live? && q != p && q.SameKey(p)
    requires operation !in v.ids && operation != Operation(k) && ValidOperationId(operation)
    requires s.identity == p.identity && SameAs(s, v.journals[p].arguments)
    requires cfg.executor.Some? ==> cfg.executor.value.prepare(Binding(p.scope, None), operation, TaskOf(s)).Some?
    ensures Reachable(cfg, w) && Working(w, p) && Working(w, q) && !OneLive(w, p)
  {
    assert Operation(k) !in v.jobs && operation !in v.jobs by { ReachableHolds(cfg, v); }
    var u, a := Apply(cfg, v, Decide(q, k)), Rerun(p, operation, s, None);
    StillRerunnable(cfg, v, p, q, k);
    RerunEnabled(cfg, u, p, operation, s, None);
    RerunLeavesTwo(cfg, u, p, q, a);
    Follows(cfg, v, Decide(q, k));
    Follows(cfg, u, a);
    w := Apply(cfg, u, a);
    TwoAreNotOne(w, p, q);
  }

  /** [JOB-A7] promises at most one live attempt of a key; a re-run of an earlier attempt breaks it: a run from an
      empty root ends with two unfinished operations of one key. OneLiveRunIff says exactly when that happens. */
  lemma TwoLiveAttempts() returns (w: World)
    ensures ORDERED.Valid() && Reachable(ORDERED, w) && ALICE.SameKey(AGAIN)
    ensures Working(w, ALICE) && Working(w, AGAIN) && !OneLive(w, ALICE)
  {
    assert ORDERED.Valid() by { RequestIsValid(ORDERED, ALICE, "{}", XY); }
    var v := FirstRefusedIsReachable();
    RetryDecides(v);
    EntryIsFirst(AGAIN, "op-b");
    IdsAreNew();
    OrderIsImmaterial(XY);
    w := RetryThenRerun(ORDERED, v, ALICE, AGAIN, FirstFor(ORDERED, Request(AGAIN, "{}", XY), AGAIN, "op-b"), "op-z",
                        Request(ALICE, "{}", XY));
  }
}
