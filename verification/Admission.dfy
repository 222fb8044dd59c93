/**
 Recoverable admission (go/acceptanceprovider): the durable state of a provider, every atomic change anybody makes
 to it, and what every run of those changes keeps. A run may interleave any number of callers, executors, crashes
 and reopenings: a crash loses only what the process remembered.
 */
module Admission {
  import opened Options
  import opened JobRecord
  import opened Decision
  import opened LeaseProtocol
  import opened FileBinding
  import opened Spelling

  // ----- Configuration -----

  /** Storage features the owner header lists before a journal may need them (compatibility.go). */
  datatype Feature = AttemptsFeature | ResultLostFeature | LabelsFeature | SubjectsFeature

  datatype Work = Work(spec: string, requires_: seq<string>)

  /** The caller of a submission, as its receiver authenticated it. */
  datatype Binding = Binding(scope: string, subject: Option<string>)

  /** What preparation is shown of a submission: of its guarantees those beyond admission's own, in the caller's order. */
  datatype Task = Task(kind: string, spec: string, extra: seq<string>)

  /** A service-owned worker. Preparation is any deterministic function; `refuses` reads a failed record. */
  datatype Executor = Executor(
    prepare: (Binding, string, Task) -> Option<Work>,
    prepareLegacy: (string, Task) -> Option<Work>,
    refuses: Record -> bool)

  /** `readPayload` is how the record's own checks read payload bytes, `nesting` how deep a payload nests (however spelled), and `size` how
      many bytes a record takes when written (every timestamp has one width, so times do not count). `recoverable` is the
      guarantee vocabulary the profile keeps across restarts. */
  datatype Config = Config(
    owner: string,
    epoch: string,
    retentionMs: int,
    executor: Option<Executor>,
    recoverable: seq<string>,
    readPayload: string -> Opaque,
    validJson: string -> bool,
    nesting: string -> nat,
    size: Record -> nat)
  {
    predicate Valid() {
      owner != "" && epoch != "" && retentionMs > 0 && (forall g | g in GUARANTEES :: g in recoverable)
    }
  }

  const GUARANTEES: seq<string> := ["abstraction.job/caller-exit@1", "abstraction.job/service-restart@1", "abstraction.job/reconciliation@1"]
  const MAX_SPEC_BYTES: nat := 1024 * 1024
  const MAX_SCOPE_BYTES: nat := 4096
  const MAX_RECORD_BYTES: nat := 4 * MAX_SPEC_BYTES + 16384
  const DEPTH_LIMIT: nat := 64

  // ----- Guarantees -----

  function AppendNew(values: seq<string>, more: seq<string>): (r: seq<string>)
    ensures forall g :: g in r <==> g in values || g in more
    ensures NoRepeats(values) ==> NoRepeats(r)
    decreases more
  {
    if more == [] then values
    else AppendNew(if more[0] in values then values else values + [more[0]], more[1..])
  }

  /** acceptedFrom: the admission promises and every required guarantee, or a refusal of an unsupported one. */
  function AcceptedFrom(supported: seq<string>, required: seq<string>): Option<seq<string>> {
    if forall g | g in required :: g in supported then Some(AppendNew(GUARANTEES, required)) else None
  }

  lemma AdmissionGuarantees()
    ensures NoRepeats(GUARANTEES) && "" !in GUARANTEES
  {
    var c, s, r := "abstraction.job/caller-exit@1", "abstraction.job/service-restart@1", "abstraction.job/reconciliation@1";
    assert GUARANTEES == [c, s, r];
    assert c[16] == 'c' && s[16] == 's' && r[16] == 'r';
  }

  /** [JOB-A2] The accepted set is a valid one and covers what was required, whatever is on offer meanwhile. */
  lemma AcceptedCovers(supported: seq<string>, required: seq<string>)
    requires AcceptedFrom(supported, required).Some? && GuaranteeSet(required).Some?
    ensures var accepted := AcceptedFrom(supported, required).value;
            && GuaranteeSet(accepted).Some?
            && (forall g | g in required :: g in accepted)
  {
    AdmissionGuarantees();
    GuaranteeSetAccepts(required);
    var accepted := AppendNew(GUARANTEES, required);
    assert "" !in accepted && NoRepeats(accepted);
    GuaranteeSetAccepts(accepted);
  }

  function Extra(required: seq<string>): seq<string> {
    if required == [] then []
    else (if required[0] in GUARANTEES then [] else required[..1]) + Extra(required[1..])
  }

  /** Preparation is shown the guarantees beyond admission's own, in the caller's order. */
  lemma {:induction false} ExtraInOrder(a: seq<string>, b: seq<string>)
    ensures Extra(a + b) == Extra(a) + Extra(b)
  {
    if a == [] {
      assert a + b == b;
    } else {
      ExtraInOrder(a[1..], b);
      assert (a + b)[1..] == a[1..] + b && (a + b)[..1] == a[..1];
    }
  }

  lemma {:induction false} ExtraIs(required: seq<string>, g: string)
    ensures g in Extra(required) <==> g in required && g !in GUARANTEES
  {
    if required != [] {
      ExtraIs(required[1..], g);
      assert required == required[..1] + required[1..];
      var own := required[0] in GUARANTEES;
      assert Extra(required) == (if own then [] else required[..1]) + Extra(required[1..]);
      assert g == required[0] ==> (g in GUARANTEES <==> own);
    }
  }

  function TaskOf(s: Submission): Task {
    Task(s.kind, s.spec, Extra(s.requiredGuarantees))
  }

  // ----- Journals -----

  datatype Path = Path(scope: string, identity: RequestIdentity) {
    function Previous(): Path {
      Path(scope, identity.(attempt := identity.attempt - 1))
    }
    predicate SameKey(other: Path) {
      scope == other.scope && identity.key == other.identity.key && identity.historyEpoch == other.identity.historyEpoch
    }
  }

  datatype StoredLabel = StoredLabel(text: string, derived: bool)

  datatype Journal =
    | Sealed(reason: string)
    | Live(published: bool, arguments: Submission, receipt: Receipt, work: Option<Work>, legacy: bool,
           subject: Option<string>, shown: StoredLabel, lost: bool)

  function Operation(j: Journal): string
    requires j.Live?
  {
    j.receipt.operationId
  }

  function WorkSpec(j: Journal): string
    requires j.Live?
  {
    if j.work.Some? then j.work.value.spec else j.arguments.spec
  }

  function WorkRequires(j: Journal): seq<string>
    requires j.Live?
  {
    if j.work.Some? then j.work.value.requires_ else []
  }

  /** The record materialize submits for a journal. */
  function Proposal(cfg: Config, j: Journal): Record
    requires j.Live?
  {
    Record(Operation(j), j.arguments.kind, None, OtherState(""), cfg.readPayload(WorkSpec(j)), Absent,
           Progress(0, 0, 0, None), Lease("", 0, 0, None), None, WorkRequires(j), "", None, map[], 0, 0)
  }

  predicate ValidOperationId(id: string) {
    && 0 < |id| <= 128
    && forall i | 0 <= i < |id| :: '0' <= id[i] <= '9' || 'a' <= id[i] <= 'z' || id[i] == '-'
  }

  /** validateSpec: the submission is well formed, within limits, and a record can carry it. */
  predicate ValidSpec(cfg: Config, s: Submission) {
    && ValidSubmission(s)
    && |s.identity.key| <= 1024 && |s.identity.historyEpoch| <= 1024
    && |s.kind| <= 256 && |s.requiredGuarantees| <= 64 && |s.spec| <= MAX_SPEC_BYTES
    && (forall g | g in s.requiredGuarantees :: |g| <= 256)
    && !Blank(s.kind)
    && cfg.readPayload(s.spec).Json? && cfg.readPayload(s.spec).text != "null"
  }

  /** Exactly which submissions are well formed: named, within every limit, with distinct guarantees, a label that has a normal
      form, and JSON work other than null. */
  lemma ValidSpecIff(cfg: Config, s: Submission)
    ensures ValidSpec(cfg, s)
            <==> && 0 < |s.identity.key| <= 1024 && 0 < |s.identity.historyEpoch| <= 1024 && s.identity.attempt >= 0
                 && |s.kind| <= 256 && !Blank(s.kind) && NormalizeLabel(s.displayLabel).Some?
                 && |s.requiredGuarantees| <= 64 && NoRepeats(s.requiredGuarantees)
                 && (forall g | g in s.requiredGuarantees :: 0 < |g| <= 256)
                 && |s.spec| <= 1048576 && cfg.readPayload(s.spec).Json? && cfg.readPayload(s.spec).text != "null"
  {
    GuaranteeSetAccepts(s.requiredGuarantees);
  }

  predicate PathOk(cfg: Config, p: Path) {
    && p.scope != "" && |p.scope| <= MAX_SCOPE_BYTES
    && p.identity.key != "" && |p.identity.key| <= 1024
    && p.identity.historyEpoch == cfg.epoch
    && p.identity.attempt >= 0
  }

  function Retained(p: Path, j: Journal): Evidence {
    match j
    case Sealed(_) => Evidence(p.scope, p.identity, None, None, true, false, true, false)
    case Live(_, arguments, receipt, _, _, _, _, _) =>
      Evidence(p.scope, p.identity, Some(arguments), Some(receipt), true, false, false, false)
  }

  function Prepared(e: Executor, p: Path, j: Journal): Option<Work>
    requires j.Live?
  {
    if j.legacy then e.prepareLegacy(Operation(j), TaskOf(j.arguments))
    else e.prepare(Binding(p.scope, j.subject), Operation(j), TaskOf(j.arguments))
  }

  predicate WorkAgrees(cfg: Config, p: Path, j: Journal)
    requires j.Live?
  {
    if cfg.executor.Some? then j.work.Some? && Prepared(cfg.executor.value, p, j) == j.work else j.work.None?
  }

  /** Everything decodeJournal asks of a live journal besides its work. */
  predicate DecodesBut(cfg: Config, marked: set<Feature>, p: Path, j: Journal)
    requires j.Live?
  {
    && (j.subject.Some? ==> SubjectsFeature in marked && !j.legacy)
    && NormalizeLabel(j.shown.text) == Some(j.shown.text) && (j.shown.derived ==> j.shown.text != "")
    && ValidOperationId(Operation(j))
    && ReconcileEvidence(p.scope, cfg.owner, p.identity, None, Retained(p, j)).outcome.Accepted?
    && j.receipt.historyRetentionMs == cfg.retentionMs
    && var expected := AcceptedFrom(cfg.recoverable, j.arguments.requiredGuarantees);
    && expected.Some? && |j.receipt.acceptedGuarantees| == |expected.value|
    && (forall g | g in j.receipt.acceptedGuarantees :: g in expected.value)
    && ValidSpec(cfg, j.arguments)
  }

  /** What every journal satisfies; only its work may fail to be what preparation gives again. */
  predicate Recorded(cfg: Config, marked: set<Feature>, p: Path, j: Journal) {
    && PathOk(cfg, p)
    && (j.Sealed? ==> |j.reason| <= 1024)
    && (j.Live? ==> DecodesBut(cfg, marked, p, j))
  }

  /** decodeJournal: what every read of a journal demands of it. */
  predicate Decodes(cfg: Config, marked: set<Feature>, p: Path, j: Journal) {
    Recorded(cfg, marked, p, j) && (j.Live? ==> WorkAgrees(cfg, p, j))
  }

  /** A repetition-free list inside another of its length holds all of it. */
  lemma FullyCovered(a: seq<string>, b: seq<string>)
    requires NoRepeats(a) && |a| == |b| && forall g | g in a :: g in b
    ensures forall g | g in b :: g in a
  {
    forall g ensures multiset(a)[g] <= multiset(b)[g] {
      NoRepeatsCount(a, g);
    }
    var rest := multiset(b) - multiset(a);
    assert multiset(b) == multiset(a) + rest && rest == multiset{};
    forall g | g in b ensures g in a {
      assert g in multiset(b) && g in multiset(a);
    }
  }

  /** What a decoded acceptance promises: this identity, this owner and its retention, and exactly admission's guarantees
      and the required ones, each of which the profile keeps. */
  lemma DecodedReceipt(cfg: Config, marked: set<Feature>, p: Path, j: Journal)
    requires Recorded(cfg, marked, p, j) && j.Live?
    ensures j.arguments.identity == p.identity && ValidOperationId(Operation(j))
    ensures j.receipt == Receipt(p.identity, cfg.owner, Operation(j), j.receipt.acceptedGuarantees, cfg.retentionMs)
    ensures forall g :: g in j.receipt.acceptedGuarantees <==> g in GUARANTEES || g in j.arguments.requiredGuarantees
    ensures NoRepeats(j.receipt.acceptedGuarantees)
    ensures forall g | g in j.arguments.requiredGuarantees :: g in cfg.recoverable
  {
    ReconcileEvidenceIff(p.scope, cfg.owner, p.identity, None, Retained(p, j));
    GuaranteeSetAccepts(j.receipt.acceptedGuarantees);
    FullyCovered(j.receipt.acceptedGuarantees, AcceptedFrom(cfg.recoverable, j.arguments.requiredGuarantees).value);
  }

  /** The storage features a journal needs. */
  function FeaturesFor(p: Path, j: Journal): set<Feature> {
    (if p.identity.attempt > 0 then {AttemptsFeature} else {})
    + (if j.Live? && j.shown.text != "" then {LabelsFeature} else {})
    + (if j.Live? && j.lost then {ResultLostFeature} else {})
    + (if j.Live? && j.subject.Some? then {SubjectsFeature} else {})
  }

  // ----- Records behind journals -----

  /** A payload as a written record spells it. */
  function Spelled(o: Opaque): Opaque {
    if o.Json? then Json(Respelled(o.text)) else o
  }

  /** What reading a written record gives back. */
  function Stored(r: Record): Record {
    r.(spec := Spelled(r.spec))
  }

  predicate Within(cfg: Config, o: Opaque, depth: nat) {
    o.Json? ==> depth + cfg.nesting(Respelled(o.text)) <= DEPTH_LIMIT
  }

  /** Decode's nesting limit, which Encode does not apply. It counts from the record's own object. */
  predicate Decodable(cfg: Config, r: Record) {
    && Within(cfg, r.spec, 1) && Within(cfg, r.checkpoint, 1)
    && forall name | name in r.extensions :: Within(cfg, r.extensions[name], 2)
  }

  function Timeless(r: Record): Record {
    r.(createdAt := 0, updatedAt := 0, progress := r.progress.(updatedAt := 0), lease := r.lease.(expiresAt := 0))
  }

  /** loadOperationRecord can read this record: it decodes, and it is within the bound that only this reader applies. */
  predicate Readable(cfg: Config, r: Record) {
    r.Valid() && Decodable(cfg, r) && cfg.size(Timeless(r)) <= MAX_RECORD_BYTES
  }

  /** validateOperationRecord */
  predicate Matches(cfg: Config, j: Journal, r: Record)
    requires j.Live?
  {
    && r.id == Operation(j) && r.kind == j.arguments.kind
    && r.spec.Json? && r.spec == cfg.readPayload(WorkSpec(j))
    && r.requires_ == WorkRequires(j)
  }

  /** The record is this operation's, its spec perhaps respelled by a write. */
  predicate Carries(cfg: Config, j: Journal, r: Record)
    requires j.Live?
  {
    && r.id == Operation(j) && r.kind == j.arguments.kind && r.requires_ == WorkRequires(j)
    && r.spec.Json? && Spelled(r.spec) == Spelled(cfg.readPayload(WorkSpec(j)))
    && (j.legacy || Spelled(r.spec) == r.spec)
  }

  /** A record can hold this journal's work and give it back: it is JSON, not null, without a raw separator, and one level
      inside the nesting limit. */
  predicate Holdable(cfg: Config, j: Journal)
    requires j.Live?
  {
    var spec := cfg.readPayload(WorkSpec(j));
    spec.Json? && spec.text != "null" && Plain(spec.text) && Within(cfg, spec, 1)
  }

  /** The store takes this journal's fresh record, and can load it back. */
  predicate Storable(cfg: Config, j: Journal)
    requires j.Live?
  {
    Holdable(cfg, j) && cfg.size(Timeless(Proposed(Proposal(cfg, j), Operation(j), 0))) <= MAX_RECORD_BYTES
  }

  /** A record without what a renewal may still move once it is terminal. */
  function Settled(r: Record): Record {
    r.(lease := r.lease.(expiresAt := 0), spec := Spelled(r.spec))
  }

  const STANDING_PREFIX: string := "standing: "

  /** refusedByRights: failed only for a refused rights decision, the provider's own or one its executor names. */
  predicate FailedByRights(cfg: Config, r: Record) {
    r.state.Failed? && (STANDING_PREFIX <= r.error || (cfg.executor.Some? && cfg.executor.value.refuses(Settled(r))))
  }

  // ----- The world -----

  datatype Reply = Reply(path: Path, outcome: Outcome, operation: string)

  /** Which identity an operation id was handed out to, and as which of its operations. */
  datatype Place = Place(path: Path, turn: nat)

  /**
   journals, jobs and header are durable; marked and index are what the process remembers. The rest is history:
   every operation an identity has named in order, the identities run again, all ids handed out, and every reply.
   */
  datatype World = World(
    journals: map<Path, Journal>,
    jobs: map<string, Record>,
    header: set<Feature>,
    marked: set<Feature>,
    index: map<string, Path>,
    named: map<Path, seq<string>>,
    ids: map<string, Place>,
    reran: set<Path>,
    replies: set<Reply>)

  predicate IsLive(w: World, p: Path) {
    p in w.journals && w.journals[p].Live?
  }

  predicate IsSealed(w: World, p: Path) {
    p in w.journals && w.journals[p].Sealed?
  }

  /** What lets the next attempt in: sealed, failed, or complete with its result lost. */
  predicate Ended(w: World, p: Path) {
    && p in w.journals
    && var j := w.journals[p];
    j.Sealed? || j.lost || (Operation(j) in w.jobs && w.jobs[Operation(j)].state.Failed?)
  }

  /** [JOB-A7] as the journal lock enforces it: the previous attempt ended, unless it was run again since the
      evidence was read, and accepted arguments repeat. */
  ghost predicate EarlierAllow(w: World, p: Path, j: Journal) {
    && (p.identity.attempt > 0 ==> p.Previous() in w.journals && (Ended(w, p.Previous()) || p.Previous() in w.reran))
    && (j.Live? ==> forall q | IsLive(w, q) && q.SameKey(p) :: SameAs(j.arguments, w.journals[q].arguments))
  }

  /** Why recovery of an accepted identity fails: its journal no longer decodes, its record does not load or does not match,
      or a record for it cannot be stored so that it loads back. */
  datatype Trouble = Undecodable | Unloadable | Mismatched | Unstorable

  ghost predicate Blocks(cfg: Config, w: World, p: Path, why: Trouble) {
    && IsLive(w, p)
    && var j := w.journals[p];
    match why
    case Undecodable => !WorkAgrees(cfg, p, j)
    case Unloadable => Operation(j) in w.jobs && !Readable(cfg, w.jobs[Operation(j)])
    case Mismatched => Operation(j) in w.jobs && !Matches(cfg, j, w.jobs[Operation(j)])
    case Unstorable => Operation(j) !in w.jobs && !Storable(cfg, j)
  }

  /** Recovery of this accepted identity fails as things stand. */
  ghost predicate Stuck(cfg: Config, w: World, p: Path) {
    exists why :: Blocks(cfg, w, p, why)
  }

  // ----- Atomic changes -----

  datatype Action =
    | Decide(path: Path, journal: Journal)
    | Insert(path: Path, now: Time)
    | Publish(path: Path)
    | Rerun(path: Path, operation: string, submitted: Submission, subject: Option<string>)
    | MarkLost(path: Path)
    | AddFeature(feature: Feature)
    | Remember(feature: Feature)
    | Index(path: Path, operation: string)
    | JobOp(id: string, op: Op)
    | Say(reply: Reply)
    | Restart

  /** The journal a re-run leaves: a new operation, prepared from the submission presented again by `subject`. */
  function RerunJournal(cfg: Config, p: Path, j: Journal, operation: string, s: Submission, subject: Option<string>): Journal
    requires j.Live?
  {
    j.(published := false, receipt := j.receipt.(operationId := operation), lost := false,
       work := if cfg.executor.Some? then cfg.executor.value.prepare(Binding(p.scope, subject), operation, TaskOf(s)) else j.work)
  }

  /** When each change can happen. */
  ghost predicate Enabled(cfg: Config, w: World, a: Action) {
    match a
    case Decide(p, j) =>
      && p !in w.journals && Decodes(cfg, w.marked, p, j) && FeaturesFor(p, j) <= w.header
      && EarlierAllow(w, p, j)
      && (j.Live? ==> !j.published && !j.lost && !j.legacy && Operation(j) !in w.ids)
    case Insert(p, now) =>
      && IsLive(w, p) && Decodes(cfg, w.marked, p, w.journals[p])
      && !w.journals[p].published && Operation(w.journals[p]) !in w.jobs
      && Proposed(Proposal(cfg, w.journals[p]), Operation(w.journals[p]), now).Valid()
    case Publish(p) =>
      && IsLive(w, p) && Decodes(cfg, w.marked, p, w.journals[p])
      && !w.journals[p].published && Operation(w.journals[p]) in w.jobs
      && Readable(cfg, w.jobs[Operation(w.journals[p])])
      && Matches(cfg, w.journals[p], w.jobs[Operation(w.journals[p])])
    case Rerun(p, operation, s, subject) =>
      && IsLive(w, p) && Decodes(cfg, w.marked, p, w.journals[p])
      && w.journals[p].published && !w.journals[p].legacy
      && Operation(w.journals[p]) in w.jobs && FailedByRights(cfg, w.jobs[Operation(w.journals[p])])
      && Decodable(cfg, w.jobs[Operation(w.journals[p])])
      && operation !in w.ids && ValidOperationId(operation)
      && s.identity == p.identity && SameAs(s, w.journals[p].arguments)
      && (cfg.executor.Some? ==> cfg.executor.value.prepare(Binding(p.scope, subject), operation, TaskOf(s)).Some?)
    case MarkLost(p) =>
      && IsLive(w, p) && Decodes(cfg, w.marked, p, w.journals[p])
      && w.journals[p].published && ResultLostFeature in w.header
      && Operation(w.journals[p]) in w.jobs && w.jobs[Operation(w.journals[p])].state.Complete?
    case AddFeature(f) => true
    case Remember(f) => f in w.header
    case Index(p, operation) => p in w.named && operation in w.named[p]
    case JobOp(id, op) =>
      && id in w.jobs && Decodable(cfg, w.jobs[id])
      && (PerformFile(op, w.jobs[id]).Ok? ==> PerformFile(op, w.jobs[id]).value.requires_ == w.jobs[id].requires_)
    case Say(reply) =>
      && (reply.outcome.Accepted? ==> reply.path in w.named && reply.operation in w.named[reply.path] && reply.operation in w.jobs)
      && (reply.outcome.DefinitelyNotAccepted? ==> IsSealed(w, reply.path))
    case Restart => true
  }

  ghost function Apply(cfg: Config, w: World, a: Action): World
    requires Enabled(cfg, w, a)
  {
    match a
    case Decide(p, j) =>
      w.(journals := w.journals[p := j],
         named := if j.Live? then w.named[p := [Operation(j)]] else w.named,
         ids := if j.Live? then w.ids[Operation(j) := Place(p, 0)] else w.ids)
    case Insert(p, now) =>
      var j := w.journals[p];
      w.(jobs := w.jobs[Operation(j) := Stored(Proposed(Proposal(cfg, j), Operation(j), now))])
    case Publish(p) => w.(journals := w.journals[p := w.journals[p].(published := true)])
    case Rerun(p, operation, s, subject) =>
      w.(journals := w.journals[p := RerunJournal(cfg, p, w.journals[p], operation, s, subject)],
         named := w.named[p := (if p in w.named then w.named[p] else []) + [operation]],
         ids := w.ids[operation := Place(p, if p in w.named then |w.named[p]| else 0)],
         reran := w.reran + {p})
    case MarkLost(p) => w.(journals := w.journals[p := w.journals[p].(lost := true)])
    case AddFeature(f) => w.(header := w.header + {f})
    case Remember(f) => w.(marked := w.marked + {f})
    case Index(p, operation) => w.(index := w.index[operation := p])
    case JobOp(id, op) =>
      var done := PerformFile(op, w.jobs[id]);
      if done.Ok? then w.(jobs := w.jobs[id := Stored(done.value)]) else w
    case Say(reply) => w.(replies := w.replies + {reply})
    case Restart => w.(marked := w.header, index := map[])
  }

  // ----- The invariant -----

  ghost predicate JournalsOk(cfg: Config, w: World) {
    && w.marked <= w.header
    && forall p | p in w.journals :: Recorded(cfg, w.marked, p, w.journals[p]) && FeaturesFor(p, w.journals[p]) <= w.header
  }

  /** A journal nobody ran again holds exactly the work its arguments prepare. */
  ghost predicate WorkOk(cfg: Config, w: World) {
    forall p | IsLive(w, p) && p !in w.reran :: WorkAgrees(cfg, p, w.journals[p])
  }

  ghost predicate NamesOk(w: World) {
    && (forall p :: p in w.named <==> IsLive(w, p))
    && (forall p | p in w.named :: |w.named[p]| > 0 && w.named[p][|w.named[p]| - 1] == Operation(w.journals[p]))
    && (forall id | id in w.index :: w.index[id] in w.named && id in w.named[w.index[id]])
    && (forall p | p in w.reran :: p in w.named)
    && (forall p | p in w.named && p !in w.reran :: |w.named[p]| == 1)
  }

  /** No operation is ever named twice, by one identity or by two. */
  ghost predicate NamesDistinct(w: World) {
    forall p, i | p in w.named && 0 <= i < |w.named[p]| ::
      w.named[p][i] in w.ids && w.ids[w.named[p][i]] == Place(p, i)
  }

  ghost predicate JobsOk(cfg: Config, w: World) {
    forall id | id in w.jobs :: id in w.ids && w.jobs[id].Valid() && w.jobs[id].id == id
  }

  /** Every operation an identity has moved on from failed by a rights refusal. */
  ghost predicate PastFailed(cfg: Config, w: World) {
    forall p, i | p in w.named && 0 <= i < |w.named[p]| - 1 ::
      w.named[p][i] in w.jobs && FailedByRights(cfg, w.jobs[w.named[p][i]])
  }

  /** What holds between one live journal and the record of the operation it names. */
  ghost predicate CurrentAt(cfg: Config, jobs: map<string, Record>, j: Journal)
    requires j.Live?
  {
    && (j.published ==> Operation(j) in jobs)
    && (Operation(j) in jobs ==> Carries(cfg, j, jobs[Operation(j)]))
    && (j.lost ==> j.published && jobs[Operation(j)].state.Complete?)
  }

  ghost predicate CurrentOk(cfg: Config, w: World) {
    forall p | IsLive(w, p) :: CurrentAt(cfg, w.jobs, w.journals[p])
  }

  ghost predicate ChainOk(w: World) {
    forall p | p in w.journals && p.identity.attempt > 0 ::
      p.Previous() in w.journals && (Ended(w, p.Previous()) || p.Previous() in w.reran)
  }

  ghost predicate ArgumentsOk(w: World) {
    forall p, q | IsLive(w, p) && IsLive(w, q) && p.SameKey(q) ::
      SameAs(w.journals[p].arguments, w.journals[q].arguments)
  }

  ghost predicate RepliesOk(w: World) {
    forall r | r in w.replies ::
      && (r.outcome.Accepted? ==> r.path in w.named && r.operation in w.named[r.path] && r.operation in w.jobs)
      && (r.outcome.DefinitelyNotAccepted? ==> IsSealed(w, r.path))
  }

  ghost predicate Inv(cfg: Config, w: World) {
    && JournalsOk(cfg, w)
    && WorkOk(cfg, w)
    && NamesOk(w)
    && NamesDistinct(w)
    && JobsOk(cfg, w)
    && PastFailed(cfg, w)
    && CurrentOk(cfg, w)
    && ChainOk(w)
    && ArgumentsOk(w)
    && RepliesOk(w)
  }

  // ----- What time leaves standing -----

  /** A job record after anything happened to it. */
  ghost predicate JobLater(r: Record, s: Record) {
    && s.id == r.id && s.kind == r.kind && s.requires_ == r.requires_
    && (s.spec == r.spec || s.spec == Spelled(r.spec))
    && (r.state.Terminal() ==> Settled(s) == Settled(r))
  }

  /** A journal of world w, in a later world v. */
  ghost predicate JournalLater(cfg: Config, w: World, v: World, p: Path)
    requires p in w.journals
  {
    && p in v.journals
    && var j, k := w.journals[p], v.journals[p];
    if j.Sealed? then k == j
    else
      && k.Live? && p in w.named && p in v.named && w.named[p] <= v.named[p]
      && k.arguments == j.arguments && k.legacy == j.legacy && k.subject == j.subject && k.shown == j.shown
      && k.receipt == j.receipt.(operationId := Operation(k))
      && (w.named[p] == v.named[p] ==> Operation(k) == Operation(j) && (j.published ==> k.published) && (j.lost ==> k.lost) && k.work == j.work)
      && (w.named[p] != v.named[p] ==>
            p in v.reran && !j.legacy && !j.lost && Operation(j) in v.jobs && FailedByRights(cfg, v.jobs[Operation(j)]))
  }

  /** Everything that stays true from one moment to any later one. */
  ghost predicate Later(cfg: Config, w: World, v: World) {
    && (forall p | p in w.journals :: JournalLater(cfg, w, v, p))
    && (forall id | id in w.jobs :: id in v.jobs && JobLater(w.jobs[id], v.jobs[id]))
    && w.header <= v.header && w.ids.Keys <= v.ids.Keys && w.reran <= v.reran && w.replies <= v.replies
  }

  lemma SpelledTwice(o: Opaque)
    ensures Spelled(Spelled(o)) == Spelled(o)
  {
    if o.Json? {
      RespelledIff(o.text);
    }
  }

  lemma LaterRefl(cfg: Config, w: World)
    requires NamesOk(w)
    ensures Later(cfg, w, w)
  {
  }

  lemma FailedStays(cfg: Config, r: Record, s: Record)
    requires JobLater(r, s) && FailedByRights(cfg, r)
    ensures FailedByRights(cfg, s)
  {
    assert Settled(s).state == s.state && Settled(s).error == s.error;
    assert Settled(r).state == r.state && Settled(r).error == r.error;
  }

  /** What a terminal record decodes to stays as deep as it is. */
  lemma DecodableStays(cfg: Config, r: Record, s: Record)
    requires JobLater(r, s) && r.state.Terminal() && Decodable(cfg, r)
    ensures Decodable(cfg, s)
  {
    assert Settled(s).checkpoint == s.checkpoint && Settled(s).extensions == s.extensions;
    assert Settled(r).checkpoint == r.checkpoint && Settled(r).extensions == r.extensions;
    SpelledTwice(r.spec);
  }

  /** A terminal record whose payload is spelled as a write spells it stays as readable as it is. */
  lemma ReadableStays(cfg: Config, r: Record, s: Record)
    requires JobLater(r, s) && r.state.Terminal() && Readable(cfg, r) && s.Valid() && Spelled(r.spec) == r.spec
    ensures Readable(cfg, s)
  {
    DecodableStays(cfg, r, s);
    var lapsed := s.(lease := s.lease.(expiresAt := r.lease.expiresAt));
    assert lapsed == r by {
      assert Settled(s).spec == s.spec && Settled(r).spec == r.spec;
      assert Settled(s).(lease := r.lease, spec := r.spec) == Settled(r).(lease := r.lease, spec := r.spec);
      assert Settled(r).(lease := r.lease, spec := r.spec) == r;
      assert lapsed.lease == r.lease by { assert Settled(s).lease == Settled(r).lease; }
      assert Settled(s).(lease := r.lease, spec := r.spec) == lapsed;
    }
    assert Timeless(s) == Timeless(lapsed);
  }

  lemma JobLaterTrans(r: Record, s: Record, t: Record)
    requires JobLater(r, s) && JobLater(s, t)
    ensures JobLater(r, t)
  {
    SpelledTwice(r.spec);
    assert Settled(r).state == r.state && Settled(s).state == s.state;
  }

  lemma JournalLaterTrans(cfg: Config, w: World, v: World, x: World, p: Path)
    requires p in w.journals && JournalLater(cfg, w, v, p) && Later(cfg, v, x)
    ensures JournalLater(cfg, w, x, p)
  {
    assert JournalLater(cfg, v, x, p);
    var j := w.journals[p];
    if j.Live? && w.named[p] != v.named[p] {
      assert w.named[p] != x.named[p];
      FailedStays(cfg, v.jobs[Operation(j)], x.jobs[Operation(j)]);
    }
  }

  lemma LaterTrans(cfg: Config, w: World, v: World, x: World)
    requires Later(cfg, w, v) && Later(cfg, v, x)
    ensures Later(cfg, w, x)
  {
    forall p | p in w.journals ensures JournalLater(cfg, w, x, p) {
      JournalLaterTrans(cfg, w, v, x, p);
    }
    forall id | id in w.jobs ensures id in x.jobs && JobLater(w.jobs[id], x.jobs[id]) {
      JobLaterTrans(w.jobs[id], v.jobs[id], x.jobs[id]);
    }
  }
}
