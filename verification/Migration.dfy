/**
 Converting an unowned jobs directory (go/acceptanceprovider/migration.go): the plan, then one journal per assignment,
 then the owner, each file written atomically. The process may stop between any two writes, legacy writers may change
 a record at any time, and a migration may be repeated or abandoned in between.
 */
module Migration {
  import opened Options
  import opened JobRecord
  import opened Decision
  import opened LeaseProtocol
  import opened FileBinding
  import opened Admission
  import opened AdmissionSteps
  import opened AdmissionRuns
  import opened ProviderFacts

  /** The operator's statement that one exact record belongs to one caller and request key. */
  datatype Assignment = Assignment(operation: string, digest: string, scope: string, key: string, kind: string, spec: string,
                                   guarantees: seq<string>)

  type Mapping = seq<Assignment>

  /** The recorded migration: the mapping, and the owner and epoch it pins. */
  datatype Plan = Plan(mapping: Mapping, owner: string, epoch: string)

  /** What normalizeMapping leaves: no operation and no caller identity assigned twice. */
  predicate Normal(m: Mapping) {
    && m != []
    && (forall i, j | 0 <= i < j < |m| :: m[i].operation != m[j].operation)
    && (forall i, j | 0 <= i < j < |m| :: m[i].scope != m[j].scope || m[i].key != m[j].key)
  }

  datatype Reason = Unmapped | ActiveDelegation | ActiveLease | NotTerminal | RecordChanged | IncompatibleWork | Unreadable
                  | MappedRecordMissing

  /** A file of the jobs directory. */
  datatype LegacyFile = BadFile | Legacy(record: Record)

  datatype Verdict = Migrated | AlreadyMigrated | Refusals(entries: seq<(string, Reason)>) | Conflicting | Moved | Interrupted

  function Owned(cfg: Config, plan: Plan): Config {
    cfg.(owner := plan.owner, epoch := plan.epoch)
  }

  function PathFor(a: Assignment, epoch: string): Path {
    Path(a.scope, RequestIdentity(a.key, epoch, 0))
  }

  /** Every guarantee the assignment names is on offer. */
  predicate OnOffer(offered: seq<string>, a: Assignment) {
    forall g | g in a.guarantees :: g in offered
  }

  /** What is on offer is among what the profile keeps across restarts. */
  predicate OfferOk(cfg: Config, offered: seq<string>) {
    forall g | g in offered :: g in cfg.recoverable
  }

  /** The submission an assignment stands for. */
  function SubmissionOf(cfg: Config, a: Assignment): Submission {
    Submission(PathFor(a, cfg.epoch).identity, a.kind, a.spec, a.guarantees, "")
  }

  /** legacyJournal: the published journal an assignment stands for, if its guarantees are on offer now and recovery's
      decoder would accept it. */
  function LegacyJournal(cfg: Config, offered: seq<string>, a: Assignment): (j: Option<Journal>)
    ensures j.Some? ==> j.value.Live? && Decodes(cfg, {}, PathFor(a, cfg.epoch), j.value)
    ensures j.Some? ==> j.value.published && j.value.legacy && !j.value.lost && j.value.subject.None? && j.value.shown.text == ""
    ensures j.Some? ==> Operation(j.value) == a.operation && j.value.receipt.logicalOwner == cfg.owner
    ensures j.Some? ==> j.value.arguments == SubmissionOf(cfg, a) && j.value.receipt.identity == PathFor(a, cfg.epoch).identity
  {
    var id := RequestIdentity(a.key, cfg.epoch, 0);
    var s := Submission(id, a.kind, a.spec, a.guarantees, "");
    var accepted := AcceptedFrom(offered, a.guarantees);
    var work := if cfg.executor.Some? then cfg.executor.value.prepareLegacy(a.operation, TaskOf(s)) else None;
    if accepted.None? || (cfg.executor.Some? && (work.None? || |work.value.spec| > MAX_SPEC_BYTES || !cfg.validJson(work.value.spec)))
    then None
    else
      var j := Live(true, s, Receipt(id, cfg.owner, a.operation, accepted.value, cfg.retentionMs), work, true, None,
                    StoredLabel("", false), false);
      if Decodes(cfg, {}, PathFor(a, cfg.epoch), j) then Some(j) else None
  }

  /** The journal an assignment stands for while everything the profile recovers is on offer. */
  function JournalOf(cfg: Config, a: Assignment): Option<Journal> {
    LegacyJournal(cfg, cfg.recoverable, a)
  }

  lemma OfferedIff(cfg: Config, offered: seq<string>, a: Assignment)
    requires OfferOk(cfg, offered)
    ensures LegacyJournal(cfg, offered, a) == if OnOffer(offered, a) then JournalOf(cfg, a) else None
  {
  }

  /** A checked assignment has a journal exactly when its guarantees are on offer and the executor, if there is one, prepares it
      within the limits. */
  lemma LegacyJournalIff(cfg: Config, offered: seq<string>, a: Assignment)
    requires cfg.Valid() && OfferOk(cfg, offered) && ValidOperationId(a.operation)
    requires PathOk(cfg, PathFor(a, cfg.epoch)) && ValidSpec(cfg, SubmissionOf(cfg, a))
    ensures LegacyJournal(cfg, offered, a).Some?
            <==> && OnOffer(offered, a)
                 && (cfg.executor.Some? ==>
                       var work := cfg.executor.value.prepareLegacy(a.operation, TaskOf(SubmissionOf(cfg, a)));
                       work.Some? && |work.value.spec| <= MAX_SPEC_BYTES && cfg.validJson(work.value.spec))
  {
    var s, p := SubmissionOf(cfg, a), PathFor(a, cfg.epoch);
    if OnOffer(offered, a) {
      var accepted := AcceptedFrom(offered, a.guarantees).value;
      var work := if cfg.executor.Some? then cfg.executor.value.prepareLegacy(a.operation, TaskOf(s)) else None;
      var j := Live(true, s, Receipt(p.identity, cfg.owner, a.operation, accepted, cfg.retentionMs), work, true, None, NoLabel(), false);
      SameLists(offered, cfg.recoverable, a.guarantees);
      AcceptedCovers(offered, a.guarantees);
      AcceptedReconciles(cfg, p, j);
    }
  }

  /** activity: only a terminal record is convertible. */
  function Activity(r: Record, now: Time): Option<Reason> {
    if r.state.Terminal() then None
    else if r.delegation.Some? then Some(ActiveDelegation)
    else if r.lease.Held(now) then Some(ActiveLease)
    else Some(NotTerminal)
  }

  function Find(m: Mapping, id: string): Option<Assignment> {
    if m == [] then None else if m[0].operation == id then Some(m[0]) else Find(m[1..], id)
  }

  lemma {:induction false} FindIs(m: Mapping, id: string)
    ensures Find(m, id).Some? <==> exists a :: a in m && a.operation == id
    ensures Find(m, id).Some? ==> Find(m, id).value in m && Find(m, id).value.operation == id
  {
    if m != [] {
      FindIs(m[1..], id);
      assert m == [m[0]] + m[1..];
    }
  }

  /** Why one entry of the jobs directory is not converted. */
  function Refusal(cfg: Config, offered: seq<string>, digest: Record -> string, m: Mapping, id: string, f: LegacyFile, now: Time)
    : Option<Reason>
  {
    if f.BadFile? then Some(Unreadable)
    else if Activity(f.record, now).Some? then Activity(f.record, now)
    else
      var a := Find(m, id);
      if a.None? then Some(Unmapped)
      else if digest(f.record) != a.value.digest then Some(RecordChanged)
      else
        var j := LegacyJournal(cfg, offered, a.value);
        if j.None? || !Matches(cfg, j.value, f.record) then Some(IncompatibleWork) else None
  }

  // ----- The files a migration writes -----

  datatype Files = Files(owner: Option<(string, string)>, plan: Option<Plan>, journals: map<Path, Journal>)

  predicate PlanOk(plan: Plan) {
    Normal(plan.mapping) && plan.owner != "" && plan.epoch != ""
  }

  /** The journal of one assignment is there, exactly as it would be written under this offer. */
  predicate Written(cfg: Config, offered: seq<string>, plan: Plan, journals: map<Path, Journal>, a: Assignment) {
    && PathFor(a, plan.epoch) in journals
    && LegacyJournal(Owned(cfg, plan), offered, a) == Some(journals[PathFor(a, plan.epoch)])
  }

  predicate AllWritten(cfg: Config, offered: seq<string>, plan: Plan, journals: map<Path, Journal>, done: Mapping) {
    forall i | 0 <= i < |done| :: Written(cfg, offered, plan, journals, done[i])
  }

  /** Every journal is one the plan's assignments would be written as under this offer. */
  predicate FromPlan(cfg: Config, offered: seq<string>, plan: Plan, journals: map<Path, Journal>) {
    forall p | p in journals :: exists i | 0 <= i < |plan.mapping| :: IsOf(cfg, offered, plan, p, journals[p], plan.mapping[i])
  }

  predicate IsOf(cfg: Config, offered: seq<string>, plan: Plan, p: Path, j: Journal, a: Assignment) {
    PathFor(a, plan.epoch) == p && LegacyJournal(Owned(cfg, plan), offered, a) == Some(j)
  }

  /** [all or nothing] A journal never exists without its plan; the owner exists only over the plan and every exact
      journal. */
  predicate Sound(cfg: Config, f: Files) {
    && (f.plan.None? ==> f.owner.None? && f.journals == map[])
    && (f.plan.Some? ==> PlanOk(f.plan.value) && FromPlan(cfg, cfg.recoverable, f.plan.value, f.journals))
    && (f.owner.Some? ==>
          && f.owner.value == (f.plan.value.owner, f.plan.value.epoch)
          && AllWritten(cfg, cfg.recoverable, f.plan.value, f.journals, f.plan.value.mapping))
  }

  /** A journal there already is the one its assignment asks for. */
  lemma SameJournal(cfg: Config, plan: Plan, journals: map<Path, Journal>, a: Assignment)
    requires PlanOk(plan) && FromPlan(cfg, cfg.recoverable, plan, journals) && a in plan.mapping && PathFor(a, plan.epoch) in journals
    ensures Written(cfg, cfg.recoverable, plan, journals, a)
  {
    var p := PathFor(a, plan.epoch);
    var i :| 0 <= i < |plan.mapping| && IsOf(cfg, cfg.recoverable, plan, p, journals[p], plan.mapping[i]);
    var k :| 0 <= k < |plan.mapping| && plan.mapping[k] == a;
    assert i == k;
  }

  lemma MoreFromPlan(cfg: Config, plan: Plan, journals: map<Path, Journal>, a: Assignment, j: Journal)
    requires FromPlan(cfg, cfg.recoverable, plan, journals) && a in plan.mapping && JournalOf(Owned(cfg, plan), a) == Some(j)
    ensures FromPlan(cfg, cfg.recoverable, plan, journals[PathFor(a, plan.epoch) := j])
  {
    var k :| 0 <= k < |plan.mapping| && plan.mapping[k] == a;
    assert IsOf(cfg, cfg.recoverable, plan, PathFor(a, plan.epoch), j, plan.mapping[k]);
  }

  lemma StillWritten(cfg: Config, plan: Plan, journals: map<Path, Journal>, a: Assignment, j: Journal, b: Assignment)
    requires PlanOk(plan) && FromPlan(cfg, cfg.recoverable, plan, journals) && a in plan.mapping
    requires JournalOf(Owned(cfg, plan), a) == Some(j) && Written(cfg, cfg.recoverable, plan, journals, b)
    ensures Written(cfg, cfg.recoverable, plan, journals[PathFor(a, plan.epoch) := j], b)
  {
    if PathFor(a, plan.epoch) in journals {
      SameJournal(cfg, plan, journals, a);
      SameMap(journals, PathFor(a, plan.epoch), j);
    }
  }

  lemma SameMap(journals: map<Path, Journal>, p: Path, j: Journal)
    requires p in journals && journals[p] == j
    ensures journals[p := j] == journals
  {
  }

  lemma OneMoreWritten(cfg: Config, plan: Plan, journals: map<Path, Journal>, done: Mapping, a: Assignment, j: Journal)
    requires PlanOk(plan) && FromPlan(cfg, cfg.recoverable, plan, journals) && a in plan.mapping
    requires JournalOf(Owned(cfg, plan), a) == Some(j) && AllWritten(cfg, cfg.recoverable, plan, journals, done)
    ensures AllWritten(cfg, cfg.recoverable, plan, journals[PathFor(a, plan.epoch) := j], done + [a])
  {
    var next := journals[PathFor(a, plan.epoch) := j];
    forall i | 0 <= i < |done + [a]| ensures Written(cfg, cfg.recoverable, plan, next, (done + [a])[i]) {
      if i < |done| {
        StillWritten(cfg, plan, journals, a, j, done[i]);
      }
    }
  }

  /** Before the owner is written, a journal of the plan may be added, and it replaces none. */
  lemma JournalAdded(cfg: Config, f: Files, a: Assignment, j: Journal, done: Mapping)
    requires Sound(cfg, f) && f.owner.None? && f.plan.Some? && a in f.plan.value.mapping
    requires JournalOf(Owned(cfg, f.plan.value), a) == Some(j)
    requires AllWritten(cfg, cfg.recoverable, f.plan.value, f.journals, done)
    ensures var next := f.journals[PathFor(a, f.plan.value.epoch) := j];
            && Sound(cfg, f.(journals := next)) && AllWritten(cfg, cfg.recoverable, f.plan.value, next, done + [a])
            && forall p | p in f.journals :: next[p] == f.journals[p]
  {
    MoreFromPlan(cfg, f.plan.value, f.journals, a, j);
    OneMoreWritten(cfg, f.plan.value, f.journals, done, a, j);
    if PathFor(a, f.plan.value.epoch) in f.journals {
      SameJournal(cfg, f.plan.value, f.journals, a);
    }
  }

  /** Before the owner is written, a journal may go again. */
  lemma FewerIsSound(cfg: Config, f: Files, p: Path)
    requires Sound(cfg, f) && f.owner.None? && f.plan.Some?
    ensures Sound(cfg, f.(journals := f.journals - {p}))
  {
  }

  /** What evaluateMigration refuses as a conflict, in its own terms: another plan, an owner without one, an owner whose
      journals are not all there as they would be written now, or journals that are not. */
  predicate Conflicts(cfg: Config, offered: seq<string>, f: Files, m: Mapping) {
    || (f.plan.Some? && f.plan.value.mapping != m)
    || (f.plan.None? && (f.owner.Some? || f.journals != map[]))
    || (f.plan.Some? && f.owner.Some?
        && (f.owner.value != (f.plan.value.owner, f.plan.value.epoch) || !AllWritten(cfg, offered, f.plan.value, f.journals, m)))
    || (f.plan.Some? && f.owner.None? && !FromPlan(cfg, offered, f.plan.value, f.journals))
  }

  /** Some journal already written names a guarantee that is no longer on offer. */
  predicate Withdrawn(offered: seq<string>, f: Files) {
    f.plan.Some? && exists i | 0 <= i < |f.plan.value.mapping| ::
      PathFor(f.plan.value.mapping[i], f.plan.value.epoch) in f.journals && !OnOffer(offered, f.plan.value.mapping[i])
  }

  lemma WholeIff(cfg: Config, offered: seq<string>, f: Files)
    requires Sound(cfg, f) && f.owner.Some? && OfferOk(cfg, offered)
    ensures AllWritten(cfg, offered, f.plan.value, f.journals, f.plan.value.mapping) <==> !Withdrawn(offered, f)
  {
    var plan := f.plan.value;
    forall i | 0 <= i < |plan.mapping|
      ensures Written(cfg, offered, plan, f.journals, plan.mapping[i]) <==> OnOffer(offered, plan.mapping[i])
    {
      OfferedIff(Owned(cfg, plan), offered, plan.mapping[i]);
      assert Written(cfg, cfg.recoverable, plan, f.journals, plan.mapping[i]);
    }
  }

  lemma IsOfIff(cfg: Config, offered: seq<string>, plan: Plan, p: Path, j: Journal, a: Assignment)
    requires OfferOk(cfg, offered)
    ensures IsOf(cfg, offered, plan, p, j, a) <==> IsOf(cfg, cfg.recoverable, plan, p, j, a) && OnOffer(offered, a)
  {
    OfferedIff(Owned(cfg, plan), offered, a);
  }

  lemma PartialIff(cfg: Config, offered: seq<string>, f: Files)
    requires Sound(cfg, f) && f.plan.Some? && OfferOk(cfg, offered)
    ensures FromPlan(cfg, offered, f.plan.value, f.journals) <==> !Withdrawn(offered, f)
  {
    if Withdrawn(offered, f) {
      WithdrawnIsPartial(cfg, offered, f);
    } else {
      forall p | p in f.journals
        ensures exists i | 0 <= i < |f.plan.value.mapping| :: IsOf(cfg, offered, f.plan.value, p, f.journals[p], f.plan.value.mapping[i])
      {
        var i := StillOf(cfg, offered, f, p);
      }
    }
  }

  lemma StillOf(cfg: Config, offered: seq<string>, f: Files, p: Path) returns (i: nat)
    requires f.plan.Some? && FromPlan(cfg, cfg.recoverable, f.plan.value, f.journals)
    requires OfferOk(cfg, offered) && !Withdrawn(offered, f) && p in f.journals
    ensures i < |f.plan.value.mapping| && IsOf(cfg, offered, f.plan.value, p, f.journals[p], f.plan.value.mapping[i])
  {
    var plan := f.plan.value;
    i :| 0 <= i < |plan.mapping| && IsOf(cfg, cfg.recoverable, plan, p, f.journals[p], plan.mapping[i]);
    NotWithdrawn(offered, f, p, i);
    IsOfIff(cfg, offered, plan, p, f.journals[p], plan.mapping[i]);
  }

  lemma NotWithdrawn(offered: seq<string>, f: Files, p: Path, i: nat)
    requires f.plan.Some? && !Withdrawn(offered, f) && i < |f.plan.value.mapping| && p in f.journals
    requires PathFor(f.plan.value.mapping[i], f.plan.value.epoch) == p
    ensures OnOffer(offered, f.plan.value.mapping[i])
  {
  }

  lemma WithdrawnIsPartial(cfg: Config, offered: seq<string>, f: Files)
    requires Sound(cfg, f) && f.plan.Some? && OfferOk(cfg, offered) && Withdrawn(offered, f)
    ensures !FromPlan(cfg, offered, f.plan.value, f.journals)
  {
    var plan := f.plan.value;
    var i :| 0 <= i < |plan.mapping| && PathFor(plan.mapping[i], plan.epoch) in f.journals && !OnOffer(offered, plan.mapping[i]);
    var p := PathFor(plan.mapping[i], plan.epoch);
    forall k | 0 <= k < |plan.mapping| ensures !IsOf(cfg, offered, plan, p, f.journals[p], plan.mapping[k]) {
      IsOfIff(cfg, offered, plan, p, f.journals[p], plan.mapping[k]);
      assert k != i ==> PathFor(plan.mapping[k], plan.epoch) != p;
    }
  }

  /** Over sound files there is a conflict exactly when another mapping was recorded, or a journal already written names a
      guarantee that is no longer on offer. The source then reports a changed journal, or an owner that does not match. */
  lemma ConflictIff(cfg: Config, offered: seq<string>, f: Files, m: Mapping)
    requires Sound(cfg, f) && OfferOk(cfg, offered)
    ensures Conflicts(cfg, offered, f, m) <==> f.plan.Some? && (f.plan.value.mapping != m || Withdrawn(offered, f))
  {
    if f.plan.Some? {
      PartialIff(cfg, offered, f);
      if f.owner.Some? {
        WholeIff(cfg, offered, f);
      }
    }
  }

  /** The entries of a listing that are refused, in its order. */
  function RefusedEntries(cfg: Config, offered: seq<string>, digest: Record -> string, m: Mapping, jobs: map<string, LegacyFile>,
                          entries: seq<string>, now: Time): seq<(string, Reason)>
    requires forall id | id in entries :: id in jobs
  {
    if entries == [] then []
    else
      var last := entries[|entries| - 1];
      var reason := Refusal(cfg, offered, digest, m, last, jobs[last], now);
      RefusedEntries(cfg, offered, digest, m, jobs, entries[..|entries| - 1], now) + if reason.Some? then [(last, reason.value)] else []
  }

  /** The assignments that name no record. */
  function MissingEntries(m: Mapping, jobs: map<string, LegacyFile>): seq<(string, Reason)> {
    if m == [] then []
    else
      var last := m[|m| - 1];
      MissingEntries(m[..|m| - 1], jobs) + if last.operation in jobs then [] else [(last.operation, MappedRecordMissing)]
  }

  lemma {:induction false} NothingRefusedIff(cfg: Config, offered: seq<string>, digest: Record -> string, m: Mapping,
                                             jobs: map<string, LegacyFile>, entries: seq<string>, now: Time)
    requires forall id | id in entries :: id in jobs
    ensures RefusedEntries(cfg, offered, digest, m, jobs, entries, now) == []
            <==> forall id | id in entries :: Refusal(cfg, offered, digest, m, id, jobs[id], now).None?
  {
    if entries != [] {
      var front, last := entries[..|entries| - 1], entries[|entries| - 1];
      assert entries == front + [last];
      assert forall id :: id in entries <==> id in front || id == last;
      NothingRefusedIff(cfg, offered, digest, m, jobs, front, now);
    }
  }

  lemma {:induction false} NothingMissingIff(m: Mapping, jobs: map<string, LegacyFile>)
    ensures MissingEntries(m, jobs) == [] <==> forall a | a in m :: a.operation in jobs
  {
    if m != [] {
      NothingMissingIff(m[..|m| - 1], jobs);
      assert m == m[..|m| - 1] + [m[|m| - 1]];
    }
  }

  /** The assignment is for this very record: it names it, and the bytes are those the operator reviewed. */
  predicate Reviewed(digest: Record -> string, a: Assignment, id: string, r: Record) {
    a.operation == id && digest(r) == a.digest
  }

  /** Its journal can be written now, and stands for the record. */
  predicate Reproduced(cfg: Config, offered: seq<string>, a: Assignment, r: Record) {
    LegacyJournal(cfg, offered, a).Some? && Matches(cfg, LegacyJournal(cfg, offered, a).value, r)
  }

  /** An entry is converted exactly when it can be read, is finished work, and some assignment both was made for this very record
      and reproduces it. */
  predicate Convertible(cfg: Config, offered: seq<string>, digest: Record -> string, m: Mapping, id: string, f: LegacyFile) {
    f.Legacy? && f.record.state.Terminal()
    && exists a | a in m :: Reviewed(digest, a, id, f.record) && Reproduced(cfg, offered, a, f.record)
  }

  /** The assignment's journal may be written now. */
  predicate Ready(cfg: Config, offered: seq<string>, digest: Record -> string, a: Assignment, jobs: map<string, LegacyFile>) {
    && a.operation in jobs && jobs[a.operation].Legacy?
    && var r := jobs[a.operation].record;
    r.state.Terminal() && Reviewed(digest, a, a.operation, r) && Reproduced(cfg, offered, a, r)
  }

  lemma OnlyAssignment(m: Mapping, id: string)
    requires Normal(m)
    ensures forall a, b | a in m && b in m && a.operation == id && b.operation == id :: a == b
  {
  }

  /** Which reason each kind of entry is refused for. */
  lemma RefusalReason(cfg: Config, offered: seq<string>, digest: Record -> string, m: Mapping, id: string, f: LegacyFile, now: Time)
    requires Normal(m)
    ensures var why := Refusal(cfg, offered, digest, m, id, f, now);
            && (why == Some(Unreadable) <==> f.BadFile?)
            && (why == Some(ActiveDelegation) <==> f.Legacy? && !f.record.state.Terminal() && f.record.delegation.Some?)
            && (why == Some(ActiveLease) <==> f.Legacy? && !f.record.state.Terminal() && f.record.delegation.None? && f.record.lease.Held(now))
            && (why == Some(NotTerminal) <==> f.Legacy? && !f.record.state.Terminal() && f.record.delegation.None? && !f.record.lease.Held(now))
            && (why == Some(Unmapped) <==> f.Legacy? && f.record.state.Terminal() && forall a | a in m :: a.operation != id)
            && (why == Some(RecordChanged) <==>
                  f.Legacy? && f.record.state.Terminal() && exists a | a in m :: a.operation == id && digest(f.record) != a.digest)
            && (why == Some(IncompatibleWork) <==>
                  f.Legacy? && f.record.state.Terminal()
                  && exists a | a in m :: Reviewed(digest, a, id, f.record) && !Reproduced(cfg, offered, a, f.record))
            && (why.None? <==> Convertible(cfg, offered, digest, m, id, f))
            && why != Some(MappedRecordMissing)
  {
    FindIs(m, id);
    OnlyAssignment(m, id);
    if f.Legacy? && f.record.state.Terminal() && Find(m, id).Some? {
      var a := Find(m, id).value;
      assert a in m && a.operation == id;
      assert Reviewed(digest, a, id, f.record) <==> digest(f.record) == a.digest;
    }
  }

  /** The refusals listed are exactly those of the directory's entries, each with its reason, and the assignments without one. */
  lemma {:induction false} RefusedEntriesAre(cfg: Config, offered: seq<string>, digest: Record -> string, m: Mapping,
                                             jobs: map<string, LegacyFile>, entries: seq<string>, now: Time)
    requires forall id | id in entries :: id in jobs
    ensures forall id, why :: (id, why) in RefusedEntries(cfg, offered, digest, m, jobs, entries, now)
                              <==> id in entries && Refusal(cfg, offered, digest, m, id, jobs[id], now) == Some(why)
  {
    if entries != [] {
      var front, last := entries[..|entries| - 1], entries[|entries| - 1];
      assert entries == front + [last];
      assert forall id :: id in entries <==> id in front || id == last;
      RefusedEntriesAre(cfg, offered, digest, m, jobs, front, now);
    }
  }

  lemma {:induction false} MissingEntriesAre(m: Mapping, jobs: map<string, LegacyFile>)
    ensures forall id, why :: (id, why) in MissingEntries(m, jobs)
                              <==> why == MappedRecordMissing && id !in jobs && exists a | a in m :: a.operation == id
  {
    if m != [] {
      var front, last := m[..|m| - 1], m[|m| - 1];
      assert m == front + [last];
      assert forall a :: a in m <==> a in front || a == last;
      MissingEntriesAre(front, jobs);
    }
  }

  /** Nothing at all is refused exactly when every file is readable, holds finished work, and was reviewed and is reproduced by an
      assignment, and every assignment has a record. */
  lemma ConvertibleIff(cfg: Config, offered: seq<string>, digest: Record -> string, m: Mapping, jobs: map<string, LegacyFile>,
                       entries: seq<string>, now: Time)
    requires Normal(m) && forall id :: id in entries <==> id in jobs
    ensures RefusedEntries(cfg, offered, digest, m, jobs, entries, now) + MissingEntries(m, jobs) == []
            <==> && (forall id | id in jobs :: Convertible(cfg, offered, digest, m, id, jobs[id]))
                 && (forall a | a in m :: a.operation in jobs)
  {
    NothingRefusedIff(cfg, offered, digest, m, jobs, entries, now);
    NothingMissingIff(m, jobs);
    forall id | id in jobs
      ensures Refusal(cfg, offered, digest, m, id, jobs[id], now).None? <==> Convertible(cfg, offered, digest, m, id, jobs[id])
    {
      RefusalReason(cfg, offered, digest, m, id, jobs[id], now);
    }
  }

  lemma OneMoreIsWritten(cfg: Config, offered: seq<string>, plan: Plan, journals: map<Path, Journal>, m: Mapping, i: nat)
    requires i < |m| && AllWritten(cfg, offered, plan, journals, m[..i]) && Written(cfg, offered, plan, journals, m[i])
    ensures AllWritten(cfg, offered, plan, journals, m[..i + 1])
  {
    forall k | 0 <= k < i + 1 ensures Written(cfg, offered, plan, journals, m[k]) {
      if k < i {
        assert m[..i][k] == m[k];
      }
    }
  }

  /** Every journal of a finished migration is there, exactly. */
  method IsWhole(cfg: Config, offered: seq<string>, plan: Plan, journals: map<Path, Journal>, m: Mapping) returns (yes: bool)
    ensures yes <==> AllWritten(cfg, offered, plan, journals, m)
  {
    for i := 0 to |m|
      invariant AllWritten(cfg, offered, plan, journals, m[..i])
    {
      if !Written(cfg, offered, plan, journals, m[i]) {
        return false;
      }
      OneMoreIsWritten(cfg, offered, plan, journals, m, i);
    }
    assert m[..|m|] == m;
    yes := true;
  }

  // ----- The records meanwhile -----

  /** One store operation on a file, as a legacy writer runs it. Requirements are left alone. */
  function WrittenOnce(op: Op, r: Record): Record {
    var done := PerformFile(op, r);
    if done.Ok? && done.value.requires_ == r.requires_ then Stored(done.value) else r
  }

  function WrittenBy(ops: seq<Op>, r: Record): Record {
    if ops == [] then r else WrittenBy(ops[1..], WrittenOnce(ops[0], r))
  }

  /** s is what some run of store operations made of r. */
  ghost predicate Aged(r: Record, s: Record) {
    exists ops :: s == WrittenBy(ops, r)
  }

  /** Terminal absorption, for the file as a whole: whatever legacy writers do to a record, it stays the later version. */
  lemma {:induction false} WrittenByIsLater(ops: seq<Op>, r: Record)
    requires r.Valid()
    ensures WrittenBy(ops, r).Valid() && JobLater(r, WrittenBy(ops, r))
  {
    if ops != [] {
      var s := WrittenOnce(ops[0], r);
      if PerformFile(ops[0], r).Ok? && PerformFile(ops[0], r).value.requires_ == r.requires_ {
        OperationLater(ops[0], r);
      }
      WrittenByIsLater(ops[1..], s);
      JobLaterTrans(r, s, WrittenBy(ops, r));
    }
  }

  lemma {:induction false} WrittenByBoth(first: seq<Op>, second: seq<Op>, r: Record)
    ensures WrittenBy(first + second, r) == WrittenBy(second, WrittenBy(first, r))
  {
    if first == [] {
      assert first + second == second;
    } else {
      assert (first + second)[1..] == first[1..] + second;
      WrittenByBoth(first[1..], second, WrittenOnce(first[0], r));
    }
  }

  lemma AgedTrans(r: Record, s: Record, u: Record)
    requires Aged(r, s) && Aged(s, u)
    ensures Aged(r, u)
  {
    var first :| s == WrittenBy(first, r);
    var second :| u == WrittenBy(second, s);
    WrittenByBoth(first, second, r);
  }

  lemma AgedRefl(r: Record)
    ensures Aged(r, r)
  {
    assert WrittenBy([], r) == r;
  }

  /** Each readable file holds the valid record its name says, as readLegacyRecord asks. */
  predicate Read(jobs: map<string, LegacyFile>) {
    forall id | id in jobs && jobs[id].Legacy? :: jobs[id].record.Valid() && jobs[id].record.id == id
  }

  /** The records some legacy writers left: those there were are later versions, and new ones may have come. */
  ghost predicate Older(was: map<string, LegacyFile>, now: map<string, LegacyFile>) {
    forall id | id in was && was[id].Legacy? :: id in now && now[id].Legacy? && Aged(was[id].record, now[id].record)
  }

  /** The record behind a journal: terminal, and its work. */
  ghost predicate Behind(cfg: Config, jobs: map<string, LegacyFile>, j: Journal) {
    && j.Live? && Operation(j) in jobs && jobs[Operation(j)].Legacy?
    && var r := jobs[Operation(j)].record;
    r.state.Terminal() && Carries(cfg, j, r)
  }

  ghost predicate Backed(cfg: Config, journals: map<Path, Journal>, jobs: map<string, LegacyFile>) {
    forall p | p in journals :: journals[p].Live? && journals[p].legacy && Behind(cfg, jobs, journals[p])
  }

  lemma MatchedIsBehind(cfg: Config, jobs: map<string, LegacyFile>, j: Journal)
    requires j.Live? && j.legacy && Operation(j) in jobs && jobs[Operation(j)].Legacy?
    requires jobs[Operation(j)].record.state.Terminal() && Matches(cfg, j, jobs[Operation(j)].record)
    ensures Behind(cfg, jobs, j)
  {
  }

  /** The assignment's record is what legacy writers made of finished work whose bytes were the reviewed ones. */
  ghost predicate Descends(digest: Record -> string, a: Assignment, jobs: map<string, LegacyFile>) {
    && a.operation in jobs && jobs[a.operation].Legacy?
    && exists was: Record :: digest(was) == a.digest && was.state.Terminal() && Aged(was, jobs[a.operation].record)
  }

  /** Every journal was written for a record that was then the reviewed one. */
  ghost predicate AllReviewed(digest: Record -> string, f: Files, jobs: map<string, LegacyFile>) {
    f.plan.Some? ==> forall i | 0 <= i < |f.plan.value.mapping| && PathFor(f.plan.value.mapping[i], f.plan.value.epoch) in f.journals ::
      Descends(digest, f.plan.value.mapping[i], jobs)
  }

  lemma FinishedIsReviewed(cfg: Config, digest: Record -> string, f: Files, jobs: map<string, LegacyFile>)
    requires Sound(cfg, f) && f.owner.Some? && AllReviewed(digest, f, jobs)
    ensures forall a | a in f.plan.value.mapping :: Descends(digest, a, jobs)
  {
    forall a | a in f.plan.value.mapping ensures Descends(digest, a, jobs) {
      var i :| 0 <= i < |f.plan.value.mapping| && f.plan.value.mapping[i] == a;
      WrittenIsThere(cfg, f, i);
    }
  }

  lemma StillReviewed(digest: Record -> string, f: Files, was: map<string, LegacyFile>, now: map<string, LegacyFile>)
    requires Older(was, now) && AllReviewed(digest, f, was)
    ensures AllReviewed(digest, f, now)
  {
    if f.plan.Some? {
      forall i | 0 <= i < |f.plan.value.mapping| && PathFor(f.plan.value.mapping[i], f.plan.value.epoch) in f.journals
        ensures Descends(digest, f.plan.value.mapping[i], now)
      {
        var a := f.plan.value.mapping[i];
        assert Descends(digest, a, was);
        var r: Record :| digest(r) == a.digest && r.state.Terminal() && Aged(r, was[a.operation].record);
        AgedTrans(r, was[a.operation].record, now[a.operation].record);
      }
    }
  }

  lemma ReviewedMore(digest: Record -> string, f: Files, a: Assignment, j: Journal, jobs: map<string, LegacyFile>)
    requires f.plan.Some? && PlanOk(f.plan.value) && a in f.plan.value.mapping && AllReviewed(digest, f, jobs)
    requires a.operation in jobs && jobs[a.operation].Legacy?
    requires digest(jobs[a.operation].record) == a.digest && jobs[a.operation].record.state.Terminal()
    ensures AllReviewed(digest, f.(journals := f.journals[PathFor(a, f.plan.value.epoch) := j]), jobs)
  {
    AgedRefl(jobs[a.operation].record);
    assert Descends(digest, a, jobs);
    var k :| 0 <= k < |f.plan.value.mapping| && f.plan.value.mapping[k] == a;
    forall i | 0 <= i < |f.plan.value.mapping| && PathFor(f.plan.value.mapping[i], f.plan.value.epoch) == PathFor(a, f.plan.value.epoch)
      ensures i == k
    {
    }
  }

  /** Everything a root keeps. */
  ghost predicate Rooted(cfg: Config, digest: Record -> string, f: Files, jobs: map<string, LegacyFile>) {
    Sound(cfg, f) && Read(jobs) && Backed(cfg, f.journals, jobs) && AllReviewed(digest, f, jobs)
  }

  /** It keeps it with one more journal. */
  lemma JournalRooted(cfg: Config, digest: Record -> string, f: Files, jobs: map<string, LegacyFile>, a: Assignment, j: Journal,
                      done: Mapping)
    requires Rooted(cfg, digest, f, jobs)
    requires f.owner.None? && f.plan.Some? && a in f.plan.value.mapping && JournalOf(Owned(cfg, f.plan.value), a) == Some(j)
    requires Behind(cfg, jobs, j) && digest(jobs[Operation(j)].record) == a.digest
    requires AllWritten(cfg, cfg.recoverable, f.plan.value, f.journals, done)
    ensures var g := f.(journals := f.journals[PathFor(a, f.plan.value.epoch) := j]);
            && Rooted(cfg, digest, g, jobs)
            && AllWritten(cfg, cfg.recoverable, f.plan.value, g.journals, done + [a])
            && forall p | p in f.journals :: g.journals[p] == f.journals[p]
  {
    JournalAdded(cfg, f, a, j, done);
    ReviewedMore(digest, f, a, j, jobs);
  }

  /** And with one fewer, until the service owns it. */
  lemma FewerRooted(cfg: Config, digest: Record -> string, f: Files, jobs: map<string, LegacyFile>, p: Path)
    requires Rooted(cfg, digest, f, jobs) && f.owner.None? && f.plan.Some?
    ensures Rooted(cfg, digest, f.(journals := f.journals - {p}), jobs)
  {
    FewerIsSound(cfg, f, p);
  }

  /** What was checked when a journal was written still holds, whatever legacy writers did since. */
  lemma StillBehind(cfg: Config, was: map<string, LegacyFile>, now: map<string, LegacyFile>, j: Journal)
    requires Read(was) && Older(was, now) && j.Live? && j.legacy && Behind(cfg, was, j)
    ensures Behind(cfg, now, j)
  {
    var r, s := was[Operation(j)].record, now[Operation(j)].record;
    var ops :| s == WrittenBy(ops, r);
    WrittenByIsLater(ops, r);
    SpelledTwice(r.spec);
    assert Settled(s).state == s.state && Settled(r).state == r.state;
  }

  lemma StillBacked(cfg: Config, journals: map<Path, Journal>, was: map<string, LegacyFile>, now: map<string, LegacyFile>)
    requires Read(was) && Older(was, now) && Backed(cfg, journals, was)
    ensures Backed(cfg, journals, now)
  {
    forall p | p in journals ensures Behind(cfg, now, journals[p]) {
      StillBehind(cfg, was, now, journals[p]);
    }
  }

  class LegacyRoot {
    /** The profile; its owner and epoch are the pending ones until a plan pins them. */
    const cfg: Config
    const digest: Record -> string

    var owner: Option<(string, string)>
    var plan: Option<Plan>
    var journals: map<Path, Journal>
    var jobs: map<string, LegacyFile>

    function View(): Files
      reads this
    {
      Files(owner, plan, journals)
    }

    /** Sound files, over records that were terminal and matched when their journal was written and so carry its work. */
    ghost predicate Valid()
      reads this
    {
      Rooted(cfg, digest, View(), jobs)
    }

    /** A root no service has owned. */
    constructor (cfg: Config, digest: Record -> string, jobs: map<string, LegacyFile>)
      requires Read(jobs)
      ensures Valid() && View() == Files(None, None, map[]) && this.jobs == jobs && this.cfg == cfg && this.digest == digest
    {
      this.cfg, this.digest, this.jobs := cfg, digest, jobs;
      owner, plan, journals := None, None, map[];
    }

    /** Legacy stores may run any operation on any record, and submit new ones, at any time. */
    method LegacyWriters()
      requires Read(jobs)
      modifies this`jobs
      ensures Read(jobs) && Older(old(jobs), jobs)
    {
      forall id | id in jobs && jobs[id].Legacy? ensures Aged(jobs[id].record, jobs[id].record) {
        AgedRefl(jobs[id].record);
      }
    }

    /** The profile a mapping is judged under: the recorded owner and epoch, or pending ones. */
    function Judged(): Config
      reads this
    {
      if plan.Some? then Owned(cfg, plan.value) else cfg
    }

    /** evaluateMigration: reads only. A recorded migration must be the same; journals before the owner must be its own;
        a finished one must be whole; and otherwise every entry is judged. */
    method Evaluate(m: Mapping, offered: seq<string>, entries: seq<string>, now: Time) returns (v: Verdict)
      requires Normal(m) && forall id :: id in entries <==> id in jobs
      ensures Conflicts(cfg, offered, View(), m) ==> v == Conflicting
      ensures !Conflicts(cfg, offered, View(), m) && owner.Some? ==> v == AlreadyMigrated
      ensures !Conflicts(cfg, offered, View(), m) && owner.None? ==>
                var refused := RefusedEntries(Judged(), offered, digest, m, jobs, entries, now) + MissingEntries(m, jobs);
                v == if refused != [] then Refusals(refused) else Migrated
    {
      if plan.Some? && plan.value.mapping != m {
        return Conflicting;
      }
      if owner.Some? && plan.None? {
        return Conflicting;
      }
      if owner.Some? {
        var whole := IsWhole(cfg, offered, plan.value, journals, m);
        return if owner.value == (plan.value.owner, plan.value.epoch) && whole then AlreadyMigrated else Conflicting;
      }
      if if plan.None? then journals != map[] else !FromPlan(cfg, offered, plan.value, journals) {
        return Conflicting;
      }
      var refused := Judge(m, offered, entries, now);
      v := if refused != [] then Refusals(refused) else Migrated;
    }

    /** Every entry of the directory, and every assignment without one. */
    method Judge(m: Mapping, offered: seq<string>, entries: seq<string>, now: Time) returns (refused: seq<(string, Reason)>)
      requires forall id :: id in entries <==> id in jobs
      ensures refused == RefusedEntries(Judged(), offered, digest, m, jobs, entries, now) + MissingEntries(m, jobs)
    {
      refused := [];
      for i := 0 to |entries|
        invariant refused == RefusedEntries(Judged(), offered, digest, m, jobs, entries[..i], now)
      {
        assert entries[i] in entries && entries[..i + 1][..i] == entries[..i];
        var reason := Refusal(Judged(), offered, digest, m, entries[i], jobs[entries[i]], now);
        if reason.Some? {
          refused := refused + [(entries[i], reason.value)];
        }
      }
      assert entries[..|entries|] == entries;
      ghost var judged := refused;
      for i := 0 to |m|
        invariant refused == judged + MissingEntries(m[..i], jobs)
      {
        assert m[..i + 1][..i] == m[..i];
        if m[i].operation !in jobs {
          refused := refused + [(m[i].operation, MappedRecordMissing)];
        }
      }
      assert m[..|m|] == m;
    }

    /** What a migration or its repetition leaves behind, whatever stopped it. */
    twostate predicate Kept()
      reads this
    {
      && (old(owner).Some? ==> View() == old(View()))
      && (old(plan).Some? ==> plan == old(plan))
      && (forall p | p in old(journals) :: p in journals && journals[p] == old(journals[p]))
    }

    /**
     MigrateLegacy under the host lease. Of the file writes still allowed before the process stops, each consumes one.
     Another mapping is refused, and so is a repetition while a journal's guarantee is not on offer; a finished migration
     is verified and nothing written; a refusal writes nothing. `later` is what is on offer while the journals are written.
     A finished migration leaves a root the admission protocol may start from.
     */
    method MigrateLegacy(m: Mapping, offered: seq<string>, later: seq<string>, entries: seq<string>, now: Time, newOwner: string,
                         newEpoch: string, budget: nat)
      returns (v: Verdict, ghost moved: Assignment)
      requires Valid() && Normal(m) && newOwner != "" && newEpoch != "" && OfferOk(cfg, offered) && OfferOk(cfg, later)
      requires forall id :: id in entries <==> id in jobs
      modifies this
      ensures Valid() && Kept()
      ensures v == Conflicting <==> old(plan).Some? && (old(plan).value.mapping != m || Withdrawn(offered, old(View())))
      ensures v == AlreadyMigrated <==> old(owner).Some? && old(plan).value.mapping == m && !Withdrawn(offered, old(View()))
      ensures v == Conflicting || v == AlreadyMigrated || v.Refusals? ==> View() == old(View())
      ensures v == Migrated ==> owner.Some? && plan.value.mapping == m && forall a | a in m :: Descends(digest, a, jobs)
      ensures v == Migrated || v == Moved || v == Interrupted ==>
                && (forall id | id in old(jobs) :: Convertible(old(Judged()), offered, digest, m, id, old(jobs)[id]))
                && (forall a | a in m :: a.operation in old(jobs))
      ensures v == Moved ==> plan.Some? && moved in m && !Ready(Owned(cfg, plan.value), later, digest, moved, jobs)
      ensures v == Interrupted ==> budget < |m| + 2
      ensures cfg.Valid() && (v == Migrated || v == AlreadyMigrated) ==> Initial(Owned(cfg, plan.value), Converted(View(), jobs))
    {
      ConflictIff(cfg, offered, View(), m);
      ConvertibleIff(Judged(), offered, digest, m, jobs, entries, now);
      moved := m[0];
      v := Evaluate(m, offered, entries, now);
      if v == Migrated {
        v, moved := Commit(m, later, newOwner, newEpoch, budget);
      }
      if owner.Some? {
        FinishedIsWhole(cfg, digest, View(), jobs);
      }
    }

    /** commitMigration: the plan first, then each journal under its record's lock, then the owner. */
    method Commit(m: Mapping, later: seq<string>, newOwner: string, newEpoch: string, budget: nat)
      returns (v: Verdict, ghost moved: Assignment)
      requires Valid() && Normal(m) && newOwner != "" && newEpoch != "" && OfferOk(cfg, later)
      requires owner.None? && (plan.Some? ==> plan.value.mapping == m)
      modifies this
      ensures Valid() && Kept()
      ensures v == Migrated || v == Moved || v == Interrupted
      ensures v == Migrated ==> owner.Some? && plan.value.mapping == m
      ensures v == Moved ==> plan.Some? && moved in m && !Ready(Owned(cfg, plan.value), later, digest, moved, jobs)
      ensures v == Interrupted ==> budget < |m| + 2
    {
      var left := budget;
      moved := m[0];
      if plan.None? {
        if left == 0 {
          return Interrupted, moved;
        }
        WritePlan(m, newOwner, newEpoch);
        left := left - 1;
      }
      v, left, moved := WriteJournals(later, left);
      if v != Migrated {
        return;
      }
      if left == 0 {
        return Interrupted, moved;
      }
      WriteOwner();
    }

    method WritePlan(m: Mapping, newOwner: string, newEpoch: string)
      requires Valid() && Normal(m) && newOwner != "" && newEpoch != "" && owner.None? && plan.None?
      modifies this`plan
      ensures Valid() && plan == Some(Plan(m, newOwner, newEpoch))
    {
      plan := Some(Plan(m, newOwner, newEpoch));
    }

    /** The owner, over the plan and every one of its journals. */
    method WriteOwner()
      requires Valid() && owner.None? && plan.Some?
      requires AllWritten(cfg, cfg.recoverable, plan.value, journals, plan.value.mapping)
      modifies this`owner
      ensures Valid() && owner == Some((plan.value.owner, plan.value.epoch))
    {
      owner := Some((plan.value.owner, plan.value.epoch));
    }

    /** The journals of the recorded plan, in its order. */
    method WriteJournals(later: seq<string>, budget: nat) returns (v: Verdict, left: nat, ghost moved: Assignment)
      requires Valid() && owner.None? && plan.Some? && OfferOk(cfg, later)
      modifies this`journals, this`jobs
      ensures Valid()
      ensures forall p | p in old(journals) :: p in journals && journals[p] == old(journals[p])
      ensures v == Migrated || v == Moved || v == Interrupted
      ensures v == Migrated ==> AllWritten(cfg, cfg.recoverable, plan.value, journals, plan.value.mapping)
      ensures v == Moved ==> moved in plan.value.mapping && !Ready(Owned(cfg, plan.value), later, digest, moved, jobs)
      ensures v == Interrupted ==> budget < |plan.value.mapping|
      ensures v == Migrated ==> left + |plan.value.mapping| == budget
    {
      var m := plan.value.mapping;
      moved := m[0];
      left := budget;
      for i := 0 to |m|
        invariant Valid() && AllWritten(cfg, cfg.recoverable, plan.value, journals, m[..i]) && left + i == budget
        invariant forall p | p in old(journals) :: p in journals && journals[p] == old(journals[p])
      {
        ghost var done := m[..i];
        assert m[..i + 1] == done + [m[i]];
        v, left := WriteOne(m[i], later, left, done);
        if v != Migrated {
          moved := m[i];
          return;
        }
      }
      assert m[..|m|] == m;
      v := Migrated;
    }

    /** One journal: prepared, its record checked again, and written if the process is still there. */
    method WriteOne(a: Assignment, later: seq<string>, budget: nat, ghost done: Mapping) returns (v: Verdict, left: nat)
      requires Valid() && owner.None? && plan.Some? && a in plan.value.mapping && OfferOk(cfg, later)
      requires AllWritten(cfg, cfg.recoverable, plan.value, journals, done)
      modifies this`journals, this`jobs
      ensures Valid()
      ensures forall p | p in old(journals) :: p in journals && journals[p] == old(journals[p])
      ensures v == Migrated || v == Moved || v == Interrupted
      ensures v == Migrated ==> AllWritten(cfg, cfg.recoverable, plan.value, journals, done + [a])
      ensures v == Migrated ==>
                && a.operation in jobs && jobs[a.operation].Legacy?
                && digest(jobs[a.operation].record) == a.digest && jobs[a.operation].record.state.Terminal()
                && PathFor(a, plan.value.epoch) in journals && Carries(cfg, journals[PathFor(a, plan.value.epoch)], jobs[a.operation].record)
      ensures v != Migrated ==> journals == old(journals)
      ensures v == Moved <==> !Ready(Owned(cfg, plan.value), later, digest, a, jobs)
      ensures v == Interrupted ==> budget == 0
      ensures v == Migrated ==> left + 1 == budget
    {
      left := budget;
      var want := LegacyJournal(Owned(cfg, plan.value), later, a);
      OfferedIff(Owned(cfg, plan.value), later, a);
      if want.None? {
        return Moved, left;
      }
      BeforeTheLock();
      v, left := WriteUnderLock(a, want.value, budget, done);
    }

    /** Whatever legacy writers do, what was checked for the journals already written still holds. */
    method BeforeTheLock()
      requires Valid()
      modifies this`jobs
      ensures Valid()
    {
      ghost var before := jobs;
      LegacyWriters();
      StillBacked(cfg, journals, before, jobs);
      StillReviewed(digest, View(), before, jobs);
    }

    method WriteUnderLock(a: Assignment, j: Journal, budget: nat, ghost done: Mapping) returns (v: Verdict, left: nat)
      requires Valid() && owner.None? && plan.Some? && a in plan.value.mapping
      requires JournalOf(Owned(cfg, plan.value), a) == Some(j) && AllWritten(cfg, cfg.recoverable, plan.value, journals, done)
      modifies this`journals
      ensures Valid()
      ensures forall p | p in old(journals) :: p in journals && journals[p] == old(journals[p])
      ensures v == if !StillTheRecord(a, j) then Moved else if budget == 0 then Interrupted else Migrated
      ensures journals == if v == Migrated then old(journals)[PathFor(a, plan.value.epoch) := j] else old(journals)
      ensures v == Migrated ==> AllWritten(cfg, cfg.recoverable, plan.value, journals, done + [a]) && left + 1 == budget
      ensures v == Migrated ==> Carries(cfg, j, jobs[a.operation].record)
    {
      left := budget;
      if !StillTheRecord(a, j) {
        return Moved, left;
      }
      if left == 0 {
        return Interrupted, left;
      }
      MatchedIsBehind(cfg, jobs, j);
      JournalRooted(cfg, digest, View(), jobs, a, j, done);
      WriteJournal(PathFor(a, plan.value.epoch), j);
      left := left - 1;
      v := Migrated;
    }

    /** The record, read under its lock, is the one the operator reviewed, terminal, and reproduced by its journal. */
    predicate StillTheRecord(a: Assignment, j: Journal)
      reads this
      requires j.Live?
    {
      && a.operation in jobs && jobs[a.operation].Legacy?
      && var r := jobs[a.operation].record;
      digest(r) == a.digest && r.state.Terminal() && Matches(cfg, j, r)
    }

    method WriteJournal(p: Path, j: Journal)
      requires Rooted(cfg, digest, View().(journals := journals[p := j]), jobs)
      modifies this`journals
      ensures Valid() && journals == old(journals)[p := j]
    {
      ghost var next := View().(journals := journals[p := j]);
      journals := journals[p := j];
      assert View() == next;
    }

    /**
     AbandonLegacyMigration, over a listing of the journals: withdraws a migration that never wrote its owner. Its
     journals go one by one, and only then the plan; a finished migration is refused.
     */
    method AbandonLegacyMigration(listing: seq<Path>, budget: nat) returns (v: Verdict)
      requires Valid() && forall p :: p in listing <==> p in journals
      modifies this`journals, this`plan
      ensures Valid()
      ensures v == Conflicting <==> owner.Some?
      ensures v == Conflicting ==> View() == old(View())
      ensures v == Migrated || v == Conflicting || v == Interrupted
      ensures v == Migrated ==> plan.None? && journals == map[]
      ensures |listing| + 1 <= budget ==> v != Interrupted
    {
      if owner.Some? {
        return Conflicting;
      }
      if plan.None? {
        return Migrated;
      }
      var gone := RemoveJournals(listing, budget);
      if !gone || budget == |listing| {
        return Interrupted;
      }
      plan := None;
      v := Migrated;
    }

    method RemoveJournals(listing: seq<Path>, budget: nat) returns (gone: bool)
      requires Valid() && owner.None? && plan.Some? && forall p :: p in listing <==> p in journals
      modifies this`journals
      ensures Valid()
      ensures gone <==> |listing| <= budget
      ensures gone ==> journals == map[]
    {
      UnremovedSteps(listing, 0);
      for i := 0 to |listing|
        invariant Valid() && plan.Some? && i <= budget && journals.Keys == Unremoved(listing, i)
      {
        if i == budget {
          return false;
        }
        UnremovedSteps(listing, i);
        FewerRooted(cfg, digest, View(), jobs, listing[i]);
        RemoveJournal(listing[i]);
      }
      UnremovedSteps(listing, |listing|);
      gone := true;
    }

    method RemoveJournal(p: Path)
      modifies this`journals
      ensures View() == old(View()).(journals := old(journals) - {p})
    {
      journals := journals - {p};
    }
  }

  lemma UnremovedSteps(listing: seq<Path>, n: nat)
    requires n <= |listing|
    ensures forall p :: p in Unremoved(listing, 0) <==> p in listing
    ensures n < |listing| ==> Unremoved(listing, n + 1) == Unremoved(listing, n) - {listing[n]}
    ensures Unremoved(listing, |listing|) == {}
  {
    assert listing[..|listing|] == listing;
    if n < |listing| {
      assert listing[..n + 1] == listing[..n] + [listing[n]];
    }
  }

  /** The paths of a listing not yet removed: those that do not occur among its first n. */
  ghost function Unremoved(listing: seq<Path>, n: nat): set<Path>
    requires n <= |listing|
  {
    (set p | p in listing) - (set p | p in listing[..n])
  }

  // ----- What a finished migration is the start of -----

  /** The operation is this journal's. */
  ghost predicate OwnsOperation(f: Files, p: Path, id: string) {
    p in f.journals && f.journals[p].Live? && Operation(f.journals[p]) == id
  }

  /** The identity an operation was converted for, or any for a record that came too late to be. */
  ghost function OwnerOf(f: Files, id: string): Path {
    if exists p :: OwnsOperation(f, p, id) then (var p :| OwnsOperation(f, p, id); p) else Path("", RequestIdentity("", "", 0))
  }

  /** The world of the service that opens a finished migration. */
  ghost function Converted(f: Files, jobs: map<string, LegacyFile>): World {
    World(f.journals, map id | id in jobs && jobs[id].Legacy? :: jobs[id].record, {}, {}, map[],
          map p | p in f.journals :: if f.journals[p].Live? then [Operation(f.journals[p])] else [],
          map id | id in jobs && jobs[id].Legacy? :: Place(OwnerOf(f, id), 0), {}, {})
  }

  /** A finished migration is a root the admission protocol may start from: every journal decodes, and the record it adopted
      carries its work, because it was terminal and matched when the journal was written. */
  lemma FinishedIsInitial(cfg: Config, f: Files, jobs: map<string, LegacyFile>)
    requires cfg.Valid() && Sound(cfg, f) && f.owner.Some? && Read(jobs) && Backed(cfg, f.journals, jobs)
    ensures Initial(Owned(cfg, f.plan.value), Converted(f, jobs))
  {
    var w := Converted(f, jobs);
    forall p | p in w.journals ensures MigratedJournal(w, p) && MigratedEvidence(Owned(cfg, f.plan.value), w, p) {
      ConvertedJournal(cfg, f, jobs, p);
      ConvertedEvidence(cfg, f, jobs, p);
    }
    ConvertedJobs(cfg, f, jobs);
  }

  lemma FinishedIsWhole(cfg: Config, digest: Record -> string, f: Files, jobs: map<string, LegacyFile>)
    requires Sound(cfg, f) && f.owner.Some? && Read(jobs) && Backed(cfg, f.journals, jobs) && AllReviewed(digest, f, jobs)
    ensures forall a | a in f.plan.value.mapping :: Descends(digest, a, jobs)
    ensures cfg.Valid() ==> Initial(Owned(cfg, f.plan.value), Converted(f, jobs))
  {
    FinishedIsReviewed(cfg, digest, f, jobs);
    if cfg.Valid() {
      FinishedIsInitial(cfg, f, jobs);
    }
  }

  lemma ConvertedJournal(cfg: Config, f: Files, jobs: map<string, LegacyFile>, p: Path)
    requires Sound(cfg, f) && f.owner.Some? && Backed(cfg, f.journals, jobs) && p in f.journals
    ensures MigratedJournal(Converted(f, jobs), p)
  {
    assert Behind(cfg, jobs, f.journals[p]);
    MigratedAt(cfg, f, p);
    OwnedByOne(cfg, f, p);
  }

  lemma ConvertedEvidence(cfg: Config, f: Files, jobs: map<string, LegacyFile>, p: Path)
    requires Sound(cfg, f) && f.owner.Some? && Backed(cfg, f.journals, jobs) && p in f.journals
    requires IsLive(Converted(f, jobs), p)
    ensures MigratedEvidence(Owned(cfg, f.plan.value), Converted(f, jobs), p)
  {
    assert Behind(cfg, jobs, f.journals[p]);
    assert Decodes(Owned(cfg, f.plan.value), {}, p, f.journals[p]) by { MigratedAt(cfg, f, p); }
  }

  lemma ConvertedJobs(cfg: Config, f: Files, jobs: map<string, LegacyFile>)
    requires Sound(cfg, f) && f.owner.Some? && Read(jobs)
    ensures JobsOk(Owned(cfg, f.plan.value), Converted(f, jobs)) && NothingYet(Converted(f, jobs))
    ensures cfg.Valid() ==> Owned(cfg, f.plan.value).Valid()
  {
  }

  lemma AssignmentOf(cfg: Config, f: Files, p: Path) returns (i: nat)
    requires Sound(cfg, f) && f.plan.Some? && p in f.journals && f.journals[p].Live?
    ensures i < |f.plan.value.mapping| && PathFor(f.plan.value.mapping[i], f.plan.value.epoch) == p
    ensures f.plan.value.mapping[i].operation == Operation(f.journals[p])
  {
    i :| 0 <= i < |f.plan.value.mapping| && IsOf(cfg, cfg.recoverable, f.plan.value, p, f.journals[p], f.plan.value.mapping[i]);
  }

  lemma OwnedByOne(cfg: Config, f: Files, p: Path)
    requires Sound(cfg, f) && f.plan.Some? && p in f.journals && f.journals[p].Live?
    ensures OwnerOf(f, Operation(f.journals[p])) == p
  {
    assert OwnsOperation(f, p, Operation(f.journals[p]));
    var i := AssignmentOf(cfg, f, p);
    var k := AssignmentOf(cfg, f, OwnerOf(f, Operation(f.journals[p])));
    assert PlanOk(f.plan.value);
    assert i == k;
  }

  /** A finished migration's journal is published, for attempt 0, and decodes. */
  lemma MigratedAt(cfg: Config, f: Files, p: Path)
    requires Sound(cfg, f) && f.owner.Some? && p in f.journals
    ensures var j := f.journals[p];
            && Decodes(Owned(cfg, f.plan.value), {}, p, j) && j.Live? && p.identity.attempt == 0
            && j.published && j.legacy && !j.lost && j.subject.None? && j.shown.text == ""
  {
    var m := f.plan.value.mapping;
    var i :| 0 <= i < |m| && IsOf(cfg, cfg.recoverable, f.plan.value, p, f.journals[p], m[i]);
  }

  // ----- A migration repeated after a service ran -----

  /** A service changes a migrated journal in one way: it may mark its result lost. */
  lemma ServedJournal(cfg: Config, w: World, v: World, p: Path)
    requires MigratedJournal(w, p) && JournalLater(cfg, w, v, p)
    ensures IsLive(v, p) && v.journals[p] == w.journals[p].(lost := v.journals[p].lost)
  {
  }

  /** Some migrated journal has since been marked lost. */
  predicate SomeLost(f: Files) {
    f.plan.Some? && exists i | 0 <= i < |f.plan.value.mapping| :: LostAt(f, PathFor(f.plan.value.mapping[i], f.plan.value.epoch))
  }

  predicate LostAt(f: Files, p: Path) {
    p in f.journals && f.journals[p].Live? && f.journals[p].lost
  }

  lemma ServedWrittenIff(cfg: Config, offered: seq<string>, f: Files, g: Files, i: nat)
    requires Sound(cfg, f) && f.owner.Some? && OfferOk(cfg, offered) && i < |f.plan.value.mapping|
    requires var p := PathFor(f.plan.value.mapping[i], f.plan.value.epoch);
             p in f.journals && p in g.journals && f.journals[p].Live? && g.journals[p].Live?
             && g.journals[p] == f.journals[p].(lost := g.journals[p].lost)
    ensures var a := f.plan.value.mapping[i];
            Written(cfg, offered, f.plan.value, g.journals, a) <==> OnOffer(offered, a) && !LostAt(g, PathFor(a, f.plan.value.epoch))
  {
    var plan := f.plan.value;
    OfferedIff(Owned(cfg, plan), offered, plan.mapping[i]);
    assert Written(cfg, cfg.recoverable, plan, f.journals, plan.mapping[i]);
  }

  /** After any run of the service that opened a finished migration, repeating it conflicts exactly when it is another mapping,
      or a migrated journal's guarantee is not on offer, or a migrated journal was marked lost. */
  lemma ConflictAfterServiceIff(cfg: Config, offered: seq<string>, f: Files, jobs: map<string, LegacyFile>, run: seq<Action>,
                                m: Mapping)
    requires cfg.Valid() && Sound(cfg, f) && f.owner.Some? && Read(jobs) && Backed(cfg, f.journals, jobs) && OfferOk(cfg, offered)
    requires Run(Owned(cfg, f.plan.value), Converted(f, jobs), run)
    ensures var g := f.(journals := End(Owned(cfg, f.plan.value), Converted(f, jobs), run).journals);
            Conflicts(cfg, offered, g, m) <==> f.plan.value.mapping != m || Withdrawn(offered, f) || SomeLost(g)
  {
    var plan := f.plan.value;
    var g := f.(journals := End(Owned(cfg, plan), Converted(f, jobs), run).journals);
    forall i | 0 <= i < |plan.mapping|
      ensures PathFor(plan.mapping[i], plan.epoch) in f.journals
      ensures Written(cfg, offered, plan, g.journals, plan.mapping[i])
              <==> OnOffer(offered, plan.mapping[i]) && !LostAt(g, PathFor(plan.mapping[i], plan.epoch))
    {
      WrittenIsThere(cfg, f, i);
      ServedAt(cfg, f, jobs, run, PathFor(plan.mapping[i], plan.epoch));
      ServedWrittenIff(cfg, offered, f, g, i);
    }
    ServedWholeIff(cfg, offered, f, g, m);
  }

  lemma WrittenIsThere(cfg: Config, f: Files, i: nat)
    requires Sound(cfg, f) && f.owner.Some? && i < |f.plan.value.mapping|
    ensures PathFor(f.plan.value.mapping[i], f.plan.value.epoch) in f.journals
  {
    assert Written(cfg, cfg.recoverable, f.plan.value, f.journals, f.plan.value.mapping[i]);
  }

  lemma ServedWholeIff(cfg: Config, offered: seq<string>, f: Files, g: Files, m: Mapping)
    requires f.plan.Some? && f.owner == Some((f.plan.value.owner, f.plan.value.epoch)) && g == f.(journals := g.journals)
    requires forall i | 0 <= i < |f.plan.value.mapping| ::
               var a := f.plan.value.mapping[i];
               && PathFor(a, f.plan.value.epoch) in f.journals
               && (Written(cfg, offered, f.plan.value, g.journals, a) <==> OnOffer(offered, a) && !LostAt(g, PathFor(a, f.plan.value.epoch)))
    ensures Conflicts(cfg, offered, g, m) <==> f.plan.value.mapping != m || Withdrawn(offered, f) || SomeLost(g)
  {
  }

  lemma ServedAt(cfg: Config, f: Files, jobs: map<string, LegacyFile>, run: seq<Action>, p: Path)
    requires cfg.Valid() && Sound(cfg, f) && f.owner.Some? && Read(jobs) && Backed(cfg, f.journals, jobs) && p in f.journals
    requires Run(Owned(cfg, f.plan.value), Converted(f, jobs), run)
    ensures var v := End(Owned(cfg, f.plan.value), Converted(f, jobs), run);
            && IsLive(v, p) && f.journals[p].Live? && v.journals[p] == f.journals[p].(lost := v.journals[p].lost)
  {
    var owned, w := Owned(cfg, f.plan.value), Converted(f, jobs);
    FinishedIsInitial(cfg, f, jobs);
    InitialHolds(owned, w);
    RunKeeps(owned, w, run);
    ConvertedJournal(cfg, f, jobs, p);
    ServedJournal(owned, w, End(owned, w, run), p);
  }
}
