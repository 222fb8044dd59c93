/**
 Whole runs of the admission protocol: any number of callers, executors, crashes and reopenings, interleaved at the
 level of single file writes.
 */
module AdmissionRuns {
  import opened Options
  import opened JobRecord
  import opened Decision
  import opened FileBinding
  import opened Admission
  import opened AdmissionSteps

  /** Each change of the run can happen when its turn comes. */
  ghost predicate Run(cfg: Config, w: World, run: seq<Action>)
    decreases |run|
  {
    run == [] || (Enabled(cfg, w, run[0]) && Run(cfg, Apply(cfg, w, run[0]), run[1..]))
  }

  ghost function End(cfg: Config, w: World, run: seq<Action>): World
    requires Run(cfg, w, run)
    decreases |run|
  {
    if run == [] then w else End(cfg, Apply(cfg, w, run[0]), run[1..])
  }

  /** A published journal a legacy migration wrote: the original attempt, without any of the later storage features. */
  ghost predicate MigratedJournal(w: World, p: Path) {
    && IsLive(w, p)
    && var j := w.journals[p];
    && j.published && j.legacy && !j.lost && p.identity.attempt == 0 && j.subject.None? && j.shown.text == ""
    && p in w.named && w.named[p] == [Operation(j)]
    && Operation(j) in w.ids && w.ids[Operation(j)] == Place(p, 0)
  }

  /** The evidence behind it: it decodes, and the record it adopted carries its work. */
  ghost predicate MigratedEvidence(cfg: Config, w: World, p: Path)
    requires IsLive(w, p)
  {
    && Decodes(cfg, {}, p, w.journals[p])
    && Operation(w.journals[p]) in w.jobs
    && Carries(cfg, w.journals[p], w.jobs[Operation(w.journals[p])])
  }

  ghost predicate NothingYet(w: World) {
    w.header == {} && w.marked == {} && w.index == map[] && w.reran == {} && w.replies == {}
    && w.named.Keys == w.journals.Keys
  }

  /** A root before its first call: fresh, or holding only what a legacy migration left. */
  ghost predicate Initial(cfg: Config, w: World) {
    && cfg.Valid() && NothingYet(w)
    && (forall p | p in w.journals :: MigratedJournal(w, p))
    && (forall p | p in w.journals :: MigratedEvidence(cfg, w, p))
    && JobsOk(cfg, w)
  }

  const EMPTY: World := World(map[], map[], {}, {}, map[], map[], map[], {}, {})

  lemma InitialNames(w: World)
    requires NothingYet(w) && (forall p | p in w.journals :: MigratedJournal(w, p))
    ensures NamesOk(w) && NamesDistinct(w) && RepliesOk(w)
  {
    forall p ensures p in w.named <==> IsLive(w, p) {
      assert p in w.journals ==> MigratedJournal(w, p);
    }
    forall p | p in w.named ensures |w.named[p]| == 1 {
      assert MigratedJournal(w, p);
    }
  }

  lemma InitialChain(w: World)
    requires NothingYet(w) && (forall p | p in w.journals :: MigratedJournal(w, p))
    ensures ChainOk(w) && ArgumentsOk(w)
  {
    forall p | p in w.journals ensures p.identity.attempt == 0 {
      assert MigratedJournal(w, p);
    }
    forall p, q | IsLive(w, p) && IsLive(w, q) && p.SameKey(q)
      ensures SameAs(w.journals[p].arguments, w.journals[q].arguments)
    {
      assert p == q;
    }
  }

  lemma InitialJournals(cfg: Config, w: World)
    requires Initial(cfg, w)
    ensures JournalsOk(cfg, w) && WorkOk(cfg, w) && CurrentOk(cfg, w)
  {
    forall p | p in w.journals
      ensures Decodes(cfg, w.marked, p, w.journals[p]) && FeaturesFor(p, w.journals[p]) <= w.header
      ensures CurrentAt(cfg, w.jobs, w.journals[p])
    {
      assert MigratedJournal(w, p) && MigratedEvidence(cfg, w, p);
    }
  }

  lemma InitialHolds(cfg: Config, w: World)
    requires Initial(cfg, w)
    ensures Inv(cfg, w)
  {
    InitialNames(w);
    InitialChain(w);
    InitialJournals(cfg, w);
    forall p | p in w.named ensures |w.named[p]| == 1 {
      assert MigratedJournal(w, p);
    }
  }

  /** Every run keeps the invariant, and nothing it settled is ever taken back. */
  lemma {:induction false} RunKeeps(cfg: Config, w: World, run: seq<Action>)
    requires Inv(cfg, w) && Run(cfg, w, run)
    ensures Inv(cfg, End(cfg, w, run)) && Later(cfg, w, End(cfg, w, run))
    decreases |run|
  {
    if run == [] {
      LaterRefl(cfg, w);
    } else {
      var v := Apply(cfg, w, run[0]);
      StepKeeps(cfg, w, run[0]);
      RunKeeps(cfg, v, run[1..]);
      LaterTrans(cfg, w, v, End(cfg, w, run));
    }
  }

  /** [JOB-A4] Seal and acceptance exclude each other over whole runs: an identity that was ever answered
      definitely_not_accepted is never answered accepted, before or after. */
  lemma SealedOrAccepted(cfg: Config, w: World, run: seq<Action>, no: Reply, yes: Reply)
    requires Initial(cfg, w) && Run(cfg, w, run)
    requires no in End(cfg, w, run).replies && yes in End(cfg, w, run).replies
    requires no.outcome.DefinitelyNotAccepted? && yes.outcome.Accepted?
    ensures no.path != yes.path
  {
    InitialHolds(cfg, w);
    RunKeeps(cfg, w, run);
    var v := End(cfg, w, run);
    assert IsSealed(v, no.path) && IsLive(v, yes.path);
  }

  /** [JOB-A3] Every accepted reply named an operation of that identity whose record exists. */
  lemma AcceptedIsMaterialized(cfg: Config, w: World, run: seq<Action>, yes: Reply)
    requires Initial(cfg, w) && Run(cfg, w, run)
    requires yes in End(cfg, w, run).replies && yes.outcome.Accepted?
    ensures var v := End(cfg, w, run);
            && yes.operation in v.jobs
            && yes.operation in v.ids && v.ids[yes.operation].path == yes.path
  {
    InitialHolds(cfg, w);
    RunKeeps(cfg, w, run);
    var v := End(cfg, w, run);
    var i :| 0 <= i < |v.named[yes.path]| && v.named[yes.path][i] == yes.operation;
  }

  /** [JOB-A3] Exactly-once materialization: between one insertion and any later one no operation id repeats, and
      an insertion always finds the durable journal that names it. */
  lemma InsertedOnce(cfg: Config, w: World, p: Path, now: Time, run: seq<Action>, q: Path, afterwards: Time)
    requires Inv(cfg, w) && Enabled(cfg, w, Insert(p, now))
    requires Run(cfg, Apply(cfg, w, Insert(p, now)), run)
    requires Enabled(cfg, End(cfg, Apply(cfg, w, Insert(p, now)), run), Insert(q, afterwards))
    ensures Operation(End(cfg, Apply(cfg, w, Insert(p, now)), run).journals[q]) != Operation(w.journals[p])
    ensures IsLive(w, p) && w.ids[Operation(w.journals[p])].path == p
  {
    StepKeeps(cfg, w, Insert(p, now));
    RunKeeps(cfg, Apply(cfg, w, Insert(p, now)), run);
    assert w.named[p][|w.named[p]| - 1] == Operation(w.journals[p]);
  }

  /** A job record nobody journaled does not exist: every record belongs to an operation some identity named. */
  lemma NoRecordWithoutJournal(cfg: Config, w: World, run: seq<Action>, id: string)
    requires w == EMPTY && cfg.Valid() && Run(cfg, w, run)
    requires id in End(cfg, w, run).jobs
    ensures var v := End(cfg, w, run);
            exists p, i :: p in v.named && 0 <= i < |v.named[p]| && v.named[p][i] == id && IsLive(v, p)
  {
    InitialHolds(cfg, w);
    RunKeeps(cfg, w, run);
    PlacesAreNamed(cfg, w, run);
    var v := End(cfg, w, run);
    var place := v.ids[id];
    assert v.named[place.path][place.turn] == id;
  }

  ghost predicate PlacesOk(w: World) {
    forall id | id in w.ids ::
      && w.ids[id].path in w.named && w.ids[id].turn < |w.named[w.ids[id].path]|
      && w.named[w.ids[id].path][w.ids[id].turn] == id
  }

  lemma {:induction false} PlacesAreNamed(cfg: Config, w: World, run: seq<Action>)
    requires Inv(cfg, w) && PlacesOk(w) && Run(cfg, w, run)
    ensures PlacesOk(End(cfg, w, run))
    decreases |run|
  {
    if run != [] {
      StepKeeps(cfg, w, run[0]);
      PlacesStep(cfg, w, run[0]);
      PlacesAreNamed(cfg, Apply(cfg, w, run[0]), run[1..]);
    }
  }

  /** One more operation is named by x, as its latest. */
  lemma PlacesAdd(w: World, v: World, x: Path, before: seq<string>, id: string)
    requires PlacesOk(w) && before == (if x in w.named then w.named[x] else [])
    requires v.named == w.named[x := before + [id]] && v.ids == w.ids[id := Place(x, |before|)]
    ensures PlacesOk(v)
  {
    forall o | o in v.ids
      ensures v.ids[o].path in v.named && v.ids[o].turn < |v.named[v.ids[o].path]|
      ensures v.named[v.ids[o].path][v.ids[o].turn] == o
    {
      if o != id {
        assert w.named[w.ids[o].path][w.ids[o].turn] == o;
      }
    }
  }

  lemma PlacesStep(cfg: Config, w: World, a: Action)
    requires NamesOk(w) && PlacesOk(w) && Enabled(cfg, w, a)
    ensures PlacesOk(Apply(cfg, w, a))
  {
    if a.Decide? && a.journal.Live? {
      PlacesDecide(cfg, w, a);
    } else if a.Rerun? {
      PlacesRerun(cfg, w, a);
    } else {
      PlacesSame(cfg, w, a);
    }
  }

  lemma PlacesDecide(cfg: Config, w: World, a: Action)
    requires NamesOk(w) && PlacesOk(w) && Enabled(cfg, w, a) && a.Decide? && a.journal.Live?
    ensures PlacesOk(Apply(cfg, w, a))
  {
    assert a.path !in w.named by { assert !IsLive(w, a.path); }
    assert [] + [Operation(a.journal)] == [Operation(a.journal)];
    PlacesAdd(w, Apply(cfg, w, a), a.path, [], Operation(a.journal));
  }

  lemma PlacesRerun(cfg: Config, w: World, a: Action)
    requires NamesOk(w) && PlacesOk(w) && Enabled(cfg, w, a) && a.Rerun?
    ensures PlacesOk(Apply(cfg, w, a))
  {
    assert a.path in w.named by { assert IsLive(w, a.path); }
    PlacesAdd(w, Apply(cfg, w, a), a.path, w.named[a.path], a.operation);
  }

  lemma PlacesSame(cfg: Config, w: World, a: Action)
    requires PlacesOk(w) && Enabled(cfg, w, a) && !a.Rerun? && !(a.Decide? && a.journal.Live?)
    ensures PlacesOk(Apply(cfg, w, a))
  {
  }

  // ----- Re-runs -----

  /** The operation may still do work: its record is missing or not terminal. */
  predicate Unfinished(w: World, id: string) {
    id in w.jobs ==> !w.jobs[id].state.Terminal()
  }

  /** [JOB-A19] At every moment of every run at most one operation of an identity is unfinished, and every one it
      moved on from failed by a rights refusal. */
  lemma OneUnfinishedPerIdentity(cfg: Config, w: World, run: seq<Action>, p: Path, i: nat, j: nat)
    requires Initial(cfg, w) && Run(cfg, w, run)
    requires var v := End(cfg, w, run); p in v.named && i < j < |v.named[p]|
    ensures var v := End(cfg, w, run);
            && !Unfinished(v, v.named[p][i])
            && FailedByRights(cfg, v.jobs[v.named[p][i]])
            && v.named[p][i] != v.named[p][j]
  {
    InitialHolds(cfg, w);
    RunKeeps(cfg, w, run);
    var v := End(cfg, w, run);
    assert v.named[p][i] in v.jobs && FailedByRights(cfg, v.jobs[v.named[p][i]]);
    assert v.ids[v.named[p][i]].turn == i && v.ids[v.named[p][j]].turn == j;
  }

  /** [JOB-A19] Between any two moments: arguments, label and subject never change, and the operation changes only
      if the one it named has failed by a rights refusal. */
  lemma OperationChangesOnlyAfterRefusal(cfg: Config, w: World, run: seq<Action>, p: Path)
    requires Inv(cfg, w) && Run(cfg, w, run) && IsLive(w, p)
    ensures var v := End(cfg, w, run);
            && IsLive(v, p)
            && v.journals[p].arguments == w.journals[p].arguments
            && v.journals[p].shown == w.journals[p].shown && v.journals[p].subject == w.journals[p].subject
            && (Operation(v.journals[p]) != Operation(w.journals[p]) ==>
                  p in v.reran && Operation(w.journals[p]) in v.jobs && FailedByRights(cfg, v.jobs[Operation(w.journals[p])]))
  {
    RunKeeps(cfg, w, run);
    assert JournalLater(cfg, w, End(cfg, w, run), p);
  }

  // ----- Attempts -----

  function AttemptPath(p: Path, n: int): Path {
    Path(p.scope, p.identity.(attempt := n))
  }

  /** [JOB-A7] The attempts of a key are downward closed. */
  lemma {:induction false} EarlierAttemptsExist(w: World, p: Path, n: nat)
    requires ChainOk(w) && p in w.journals && n <= p.identity.attempt
    ensures AttemptPath(p, n) in w.journals
    decreases p.identity.attempt - n
  {
    if n == p.identity.attempt {
      assert AttemptPath(p, n) == p;
    } else {
      EarlierAttemptsExist(w, p.Previous(), n);
      assert AttemptPath(p.Previous(), n) == AttemptPath(p, n);
    }
  }

  /** Nobody ran an attempt of this key again. */
  ghost predicate NeverReran(w: World, p: Path) {
    forall q | q in w.reran :: !q.SameKey(p)
  }

  /** [JOB-A7] Over every run: earlier attempts exist and, unless one of the key was run again, every one of them is
      sealed, failed or lost; accepted attempts of a key carry equal arguments. */
  lemma AttemptChain(cfg: Config, w: World, run: seq<Action>, p: Path, n: nat)
    requires Initial(cfg, w) && Run(cfg, w, run)
    requires p in End(cfg, w, run).journals && n < p.identity.attempt
    ensures var v := End(cfg, w, run);
            && AttemptPath(p, n) in v.journals
            && (NeverReran(v, p) ==> Ended(v, AttemptPath(p, n)))
            && (IsLive(v, p) && IsLive(v, AttemptPath(p, n)) ==>
                  SameAs(v.journals[p].arguments, v.journals[AttemptPath(p, n)].arguments))
  {
    InitialHolds(cfg, w);
    RunKeeps(cfg, w, run);
    var v := End(cfg, w, run);
    EarlierAttemptsExist(v, p, n);
    EarlierAttemptsExist(v, p, n + 1);
    assert AttemptPath(p, n + 1).Previous() == AttemptPath(p, n);
    assert AttemptPath(p, n).SameKey(p) && p.SameKey(AttemptPath(p, n));
  }

  // ----- One live job of a key -----

  /** This attempt's operation may still do work. */
  predicate Working(w: World, p: Path) {
    IsLive(w, p) && Unfinished(w, Operation(w.journals[p]))
  }

  /** [JOB-A7] The key of p has at most one live job. */
  ghost predicate OneLive(w: World, p: Path) {
    forall q, r | Working(w, q) && Working(w, r) && q.SameKey(p) && r.SameKey(p) :: q == r
  }

  /** Every other attempt of the key is sealed or names a finished operation: a caller can look that up. */
  ghost predicate OthersFinished(w: World, p: Path) {
    forall q | q in w.journals && q.SameKey(p) && q != p ::
      w.journals[q].Sealed? || !Unfinished(w, Operation(w.journals[q]))
  }

  /** [JOB-A7] At every moment of every run a key none of whose attempts was run again has at most one live job. */
  lemma OneLivePerKey(cfg: Config, w: World, run: seq<Action>, p: Path)
    requires Initial(cfg, w) && Run(cfg, w, run) && NeverReran(End(cfg, w, run), p)
    ensures OneLive(End(cfg, w, run), p)
  {
    InitialHolds(cfg, w);
    RunKeeps(cfg, w, run);
    var v := End(cfg, w, run);
    forall q, r | Working(v, q) && Working(v, r) && q.SameKey(p) && r.SameKey(p) ensures q == r {
      if q.identity.attempt < r.identity.attempt {
        EarlierIsFinished(cfg, v, q, r);
      } else if r.identity.attempt < q.identity.attempt {
        EarlierIsFinished(cfg, v, r, q);
      }
    }
  }

  lemma EarlierIsFinished(cfg: Config, w: World, q: Path, r: Path)
    requires Inv(cfg, w) && NeverReran(w, r) && IsLive(w, q) && r in w.journals
    requires q.SameKey(r) && q.identity.attempt < r.identity.attempt
    ensures !Working(w, q)
  {
    PathAt(cfg, w, q);
    var n := q.identity.attempt;
    EarlierAttemptsExist(w, r, n + 1);
    assert AttemptPath(r, n + 1).Previous() == q;
    assert CurrentAt(cfg, w.jobs, w.journals[q]);
  }

  /** The changes that name a new operation. */
  predicate NamesOperation(a: Action) {
    a.Rerun? || (a.Decide? && a.journal.Live?)
  }

  lemma NamingChanges(cfg: Config, w: World, a: Action)
    requires JobsOk(cfg, w) && CurrentOk(cfg, w) && Enabled(cfg, w, a) && NamesOperation(a)
    ensures NamedNew(w, Apply(cfg, w, a), a.path)
    ensures !Working(w, a.path)
  {
  }

  /** v is w with a journal for x that names an operation without a record. */
  ghost predicate NamedNew(w: World, v: World, x: Path) {
    && IsLive(v, x) && v.journals == w.journals[x := v.journals[x]] && v.jobs == w.jobs
    && Operation(v.journals[x]) !in w.jobs
  }

  lemma NamedKeepsOneLiveIff(w: World, v: World, x: Path, p: Path)
    requires NamedNew(w, v, x) && !Working(w, x) && OneLive(w, p)
    ensures OneLive(v, p) <==> (x.SameKey(p) ==> OthersFinished(w, x))
  {
    assert Working(v, x);
    assert forall q | q != x :: IsLive(v, q) <==> IsLive(w, q);
    assert forall q | q != x :: Working(v, q) <==> Working(w, q);
    if x.SameKey(p) && !OthersFinished(w, x) {
      var q :| q in w.journals && q.SameKey(x) && q != x && Working(w, q);
      assert Working(v, q);
    }
  }

  /** The other changes leave the operation each live journal names. */
  lemma OperationsStay(cfg: Config, w: World, a: Action, q: Path)
    requires Enabled(cfg, w, a) && !NamesOperation(a) && IsLive(Apply(cfg, w, a), q)
    ensures IsLive(w, q) && Operation(Apply(cfg, w, a).journals[q]) == Operation(w.journals[q])
  {
  }

  lemma FinishedStays(r: Record, s: Record)
    requires JobLater(r, s) && r.state.Terminal()
    ensures s.state.Terminal()
  {
    assert Settled(s).state == s.state && Settled(r).state == r.state;
  }

  lemma NobodyStartsAgain(cfg: Config, w: World, a: Action, q: Path)
    requires Enabled(cfg, w, a) && !NamesOperation(a) && Later(cfg, w, Apply(cfg, w, a))
    requires Working(Apply(cfg, w, a), q)
    ensures Working(w, q)
  {
    OperationsStay(cfg, w, a, q);
    var id := Operation(w.journals[q]);
    if id in w.jobs && w.jobs[id].state.Terminal() {
      FinishedStays(w.jobs[id], Apply(cfg, w, a).jobs[id]);
    }
  }

  /** The change names no operation of p's key, or every other attempt of it is finished. */
  ghost predicate Careful(w: World, a: Action, p: Path) {
    NamesOperation(a) && a.path.SameKey(p) ==> OthersFinished(w, a.path)
  }

  /** [JOB-A7] against [JOB-A19]: one change keeps a key at one live job exactly when, if it names an operation of that
      key, every other attempt is sealed or finished. The source looks at the attempt before a new one only, and a
      re-run looks at no other attempt. */
  lemma OneLiveStepIff(cfg: Config, w: World, a: Action, p: Path)
    requires Inv(cfg, w) && Enabled(cfg, w, a) && OneLive(w, p)
    ensures OneLive(Apply(cfg, w, a), p) <==> Careful(w, a, p)
  {
    if NamesOperation(a) {
      NamingChanges(cfg, w, a);
      NamedKeepsOneLiveIff(w, Apply(cfg, w, a), a.path, p);
    } else {
      OthersKeepOneLive(cfg, w, a, p);
    }
  }

  lemma OthersKeepOneLive(cfg: Config, w: World, a: Action, p: Path)
    requires Inv(cfg, w) && Enabled(cfg, w, a) && !NamesOperation(a) && OneLive(w, p)
    ensures OneLive(Apply(cfg, w, a), p)
  {
    var v := Apply(cfg, w, a);
    assert Later(cfg, w, v) by { StepKeeps(cfg, w, a); }
    forall q | Working(v, q) ensures Working(w, q) {
      NobodyStartsAgain(cfg, w, a, q);
    }
  }

  ghost predicate OneLiveThroughout(cfg: Config, w: World, run: seq<Action>, p: Path)
    requires Run(cfg, w, run)
    decreases |run|
  {
    OneLive(w, p) && (run == [] || OneLiveThroughout(cfg, Apply(cfg, w, run[0]), run[1..], p))
  }

  ghost predicate CarefulRun(cfg: Config, w: World, run: seq<Action>, p: Path)
    requires Run(cfg, w, run)
    decreases |run|
  {
    run == [] || (Careful(w, run[0], p) && CarefulRun(cfg, Apply(cfg, w, run[0]), run[1..], p))
  }

  /** Over whole runs: a key has at most one live job at every moment exactly when each change that named an operation of
      it was careful. What happens to other keys does not matter. */
  lemma {:induction false} OneLiveRunIff(cfg: Config, w: World, run: seq<Action>, p: Path)
    requires Inv(cfg, w) && Run(cfg, w, run) && OneLive(w, p)
    ensures OneLiveThroughout(cfg, w, run, p) <==> CarefulRun(cfg, w, run, p)
    decreases |run|
  {
    if run != [] {
      OneLiveStepIff(cfg, w, run[0], p);
      StepKeeps(cfg, w, run[0]);
      if OneLive(Apply(cfg, w, run[0]), p) {
        OneLiveRunIff(cfg, Apply(cfg, w, run[0]), run[1..], p);
      }
    }
  }

  lemma PathAt(cfg: Config, w: World, p: Path)
    requires JournalsOk(cfg, w) && p in w.journals
    ensures PathOk(cfg, p)
  {
  }

  // ----- Storage features -----

  /** Over every run a journal that needs a storage feature exists only while the owner header lists it. */
  lemma FeatureBeforeUse(cfg: Config, w: World, run: seq<Action>, p: Path)
    requires Initial(cfg, w) && Run(cfg, w, run)
    requires p in End(cfg, w, run).journals
    ensures var v := End(cfg, w, run);
            && (p.identity.attempt > 0 ==> AttemptsFeature in v.header)
            && (IsLive(v, p) && v.journals[p].shown.text != "" ==> LabelsFeature in v.header)
            && (IsLive(v, p) && v.journals[p].lost ==> ResultLostFeature in v.header)
            && (IsLive(v, p) && v.journals[p].subject.Some? ==> SubjectsFeature in v.header)
    ensures w.header <= End(cfg, w, run).header
  {
    InitialHolds(cfg, w);
    RunKeeps(cfg, w, run);
    FeaturesAt(cfg, End(cfg, w, run), p);
  }

  // ----- Reachability -----

  /** v can come after w, by some run. */
  ghost predicate Leads(cfg: Config, w: World, v: World) {
    exists run :: Run(cfg, w, run) && End(cfg, w, run) == v
  }

  ghost predicate Reachable(cfg: Config, w: World) {
    exists start :: Initial(cfg, start) && Leads(cfg, start, w)
  }

  lemma {:induction false} RunsJoin(cfg: Config, w: World, first: seq<Action>, second: seq<Action>)
    requires Run(cfg, w, first) && Run(cfg, End(cfg, w, first), second)
    ensures Run(cfg, w, first + second) && End(cfg, w, first + second) == End(cfg, End(cfg, w, first), second)
    decreases |first|
  {
    if first == [] {
      assert first + second == second;
    } else {
      RunsJoin(cfg, Apply(cfg, w, first[0]), first[1..], second);
      assert (first + second)[1..] == first[1..] + second;
    }
  }

  lemma LeadsRefl(cfg: Config, w: World)
    ensures Leads(cfg, w, w)
  {
    assert Run(cfg, w, []);
  }

  lemma LeadsTrans(cfg: Config, w: World, v: World, x: World)
    requires Leads(cfg, w, v) && Leads(cfg, v, x)
    ensures Leads(cfg, w, x)
  {
    var first :| Run(cfg, w, first) && End(cfg, w, first) == v;
    var second :| Run(cfg, v, second) && End(cfg, v, second) == x;
    RunsJoin(cfg, w, first, second);
  }

  lemma LeadsStep(cfg: Config, w: World, a: Action)
    requires Enabled(cfg, w, a)
    ensures Leads(cfg, w, Apply(cfg, w, a))
  {
    var v := Apply(cfg, w, a);
    assert Run(cfg, v, [a][1..]);
    assert Run(cfg, w, [a]) && End(cfg, w, [a]) == v;
  }

  lemma ReachableLeads(cfg: Config, w: World, v: World)
    requires Reachable(cfg, w) && Leads(cfg, w, v)
    ensures Reachable(cfg, v)
  {
    var start :| Initial(cfg, start) && Leads(cfg, start, w);
    LeadsTrans(cfg, start, w, v);
  }

  lemma ReachableHolds(cfg: Config, w: World)
    requires Reachable(cfg, w)
    ensures Inv(cfg, w)
  {
    var start :| Initial(cfg, start) && Leads(cfg, start, w);
    var run :| Run(cfg, start, run) && End(cfg, start, run) == w;
    InitialHolds(cfg, start);
    RunKeeps(cfg, start, run);
  }

  lemma LeadsLater(cfg: Config, w: World, v: World)
    requires Reachable(cfg, w) && Leads(cfg, w, v)
    ensures Later(cfg, w, v)
  {
    ReachableHolds(cfg, w);
    var run :| Run(cfg, w, run) && End(cfg, w, run) == v;
    RunKeeps(cfg, w, run);
  }
}
