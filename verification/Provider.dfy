/**
 The provider's calls (go/acceptanceprovider: provider.go, rerun.go, operations.go, compatibility.go), in the
 source's own order. Other callers, executors and the rest of the process run between any two of their reads and
 writes: that is Interference. Each write is one of the atomic changes of module Admission, so every call is a run.
 */
module Provider {
  import opened Options
  import opened JobRecord
  import opened Decision
  import opened LeaseProtocol
  import opened FileBinding
  import opened Admission
  import opened AdmissionRuns
  import opened ProviderFacts

  class Provider {
    const cfg: Config

    var journals: map<Path, Journal>
    var jobs: map<string, Record>
    var header: set<Feature>

    /** The feature cache, the features the header listed at open, and the operation index. */
    var features: set<Feature>
    var atOpen: set<Feature>
    var subjects: map<string, Path>

    ghost var named: map<Path, seq<string>>
    ghost var ids: map<string, Place>
    ghost var reran: set<Path>
    ghost var replies: set<Reply>

    /** The identities this object's own calls wrote a first journal for. */
    ghost var decided: set<Path>

    ghost function View(): World
      reads this
    {
      World(journals, jobs, header, features + atOpen, subjects, named, ids, reran, replies)
    }

    ghost predicate Valid()
      reads this
    {
      cfg.Valid() && Reachable(cfg, View())
    }

    constructor (cfg: Config)
      requires cfg.Valid()
      ensures Valid() && this.cfg == cfg && View() == EMPTY && decided == {}
    {
      this.cfg := cfg;
      journals, jobs, header := map[], map[], {};
      features, atOpen, subjects := {}, {}, map[];
      named, ids, reran, replies, decided := map[], map[], {}, {}, {};
      new;
      assert View() == EMPTY && Initial(cfg, EMPTY);
      LeadsRefl(cfg, EMPTY);
    }

    /** decodeJournal accepts the journal, as this process reads it. */
    predicate Legible(p: Path)
      reads this
      requires p in journals
    {
      Decodes(cfg, features + atOpen, p, journals[p])
    }

    /** Anything the rest of the process and its callers do in the meantime. */
    method Interference(ghost mine: set<string>)
      requires Valid()
      modifies this
      ensures Valid() && Since(cfg, old(View()), View(), mine) && decided == old(decided)
    {
      SinceRefl(cfg, View(), mine);
    }

    /** The same while this call holds the locks of some journals; when it is quiet, nobody writes a record either. */
    method LockedInterference(ghost locked: set<Path>, ghost quiet: bool, ghost mine: set<string>)
      requires Valid()
      modifies this
      ensures Valid() && Since(cfg, old(View()), View(), mine) && decided == old(decided)
      ensures forall p | p in locked && p in old(journals) :: p in journals && journals[p] == old(journals[p])
      ensures quiet ==> jobs == old(jobs)
    {
      SinceRefl(cfg, View(), mine);
    }

    // ----- Single writes -----

    method AddFeature(f: Feature, ghost mine: set<string>)
      requires Valid()
      modifies this`header
      ensures Valid() && Since(cfg, old(View()), View(), mine) && f in header
    {
      SinceStep(cfg, View(), Action.AddFeature(f), mine);
      if f !in header {
        header := header + {f};
      }
      assert header == old(header) + {f};
    }

    method RememberFeature(f: Feature, ghost mine: set<string>)
      requires Valid() && f in header
      modifies this`features
      ensures Valid() && Since(cfg, old(View()), View(), mine) && f in features
    {
      SinceStep(cfg, View(), Remember(f), mine);
      features := features + {f};
      assert features + atOpen == old(features + atOpen) + {f};
    }

    /** ensureFeature: the header lists the feature durably before the call goes on. */
    method EnsureFeature(f: Feature, inputs: Inputs, ghost mine: set<string>) returns (ok: bool)
      requires Valid()
      modifies this
      ensures Valid() && Since(cfg, old(View()), View(), mine) && decided == old(decided)
      ensures ok ==> f in View().marked
      ensures inputs.io("owner.json", 0) ==> ok
    {
      ghost var w0 := View();
      SinceRefl(cfg, w0, mine);
      if f in features {
        return true;
      }
      if !inputs.io("owner.json", 0) {
        return false;
      }
      AddFeature(f, mine);
      ghost var w1 := View();
      Interference(mine);
      ghost var w2 := View();
      HeaderSince(cfg, w1, w2, mine);
      RememberFeature(f, mine);
      SinceTrans(cfg, w0, w1, w2, mine);
      SinceTrans(cfg, w0, w2, View(), mine);
      ok := true;
    }

    /** indexJournal: an operation is never associated with two journals, so the source's refusal is never reached. */
    method IndexJournal(p: Path, j: Journal, ghost mine: set<string>) returns (ok: bool)
      requires Valid()
      requires j.Live? ==> p in named && Operation(j) in named[p]
      modifies this`subjects
      ensures Valid() && Since(cfg, old(View()), View(), mine)
      ensures ok
      ensures subjects == if j.Live? then old(subjects)[Operation(j) := p] else old(subjects)
    {
      SinceRefl(cfg, View(), mine);
      if j.Sealed? {
        return true;
      }
      if Operation(j) in subjects {
        IndexedOnce(cfg, View(), p, Operation(j));
      }
      ok := !(Operation(j) in subjects && subjects[Operation(j)] != p);
      SinceStep(cfg, View(), Index(p, Operation(j)), mine);
      subjects := subjects[Operation(j) := p];
    }

    method Insert(p: Path, now: Time, ghost mine: set<string>)
      requires Valid() && Enabled(cfg, View(), Action.Insert(p, now))
      modifies this`jobs
      ensures Valid() && Since(cfg, old(View()), View(), mine)
      ensures jobs == Inserting(cfg, old(View()), p, now).jobs
      ensures OnlyRecord(old(jobs), jobs, Operation(journals[p]))
    {
      ghost var next := Inserting(cfg, View(), p, now);
      InsertStep(cfg, View(), p, now, mine);
      jobs := jobs[Operation(journals[p]) := Stored(Proposed(Proposal(cfg, journals[p]), Operation(journals[p]), now))];
      assert View() == next;
    }

    method Publish(p: Path, ghost mine: set<string>)
      requires Valid() && Enabled(cfg, View(), Action.Publish(p))
      modifies this`journals
      ensures Valid() && Since(cfg, old(View()), View(), mine)
      ensures journals == old(journals)[p := old(journals[p]).(published := true)]
    {
      ghost var next := Publishing(View(), p);
      PublishStep(cfg, View(), p, mine);
      journals := journals[p := journals[p].(published := true)];
      assert View() == next;
    }

    // ----- Journals and records -----

    /** loadOperationRecord: the record, if it is there and can be read back. */
    method LoadOperationRecord(id: string) returns (out: Result<Record>)
      ensures out.Ok? <==> id in jobs && Readable(cfg, jobs[id])
      ensures out.Ok? ==> out.value == jobs[id]
      ensures out == Err(NotFound) <==> id !in jobs
    {
      if id !in jobs {
        return Err(NotFound);
      }
      if !Readable(cfg, jobs[id]) {
        return Err(Invalid);
      }
      out := Ok(jobs[id]);
    }

    /** The record of a live journal's operation, inserted first if the journal is only prepared and has none. */
    method LookUp(p: Path, inputs: Inputs, ghost locked: set<Path>, ghost quiet: bool, ghost mine: set<string>)
      returns (r: Result<Record>)
      requires Valid() && IsLive(View(), p) && Legible(p) && p in locked
      modifies this
      ensures Valid() && Since(cfg, old(View()), View(), mine) && decided == old(decided)
      ensures forall q | q in locked && q in old(journals) :: q in journals && journals[q] == old(journals[q])
      ensures r.Ok? ==> Operation(journals[p]) in jobs && r.value == jobs[Operation(journals[p])] && Readable(cfg, r.value)
      ensures Unhindered(inputs) && r.Err? ==> Stuck(cfg, View(), p)
      ensures quiet ==> OnlyRecord(old(jobs), jobs, Operation(journals[p]))
      ensures quiet && Unhindered(inputs) ==> FaresAlike(cfg, old(View()), View(), p)
    {
      ghost var w0 := View();
      var j := journals[p];
      SinceRefl(cfg, w0, mine);
      RecordBehind(cfg, w0, p);
      r := LoadOperationRecord(Operation(j));
      if r == Err(NotFound) && !j.published {
        r := InsertAndLoad(p, inputs, locked, quiet, mine);
      } else if r.Err? {
        assert Blocks(cfg, w0, p, Unloadable);
      }
    }

    /** The insertion, and the record read back. */
    method InsertAndLoad(p: Path, inputs: Inputs, ghost locked: set<Path>, ghost quiet: bool, ghost mine: set<string>)
      returns (r: Result<Record>)
      requires Valid() && IsLive(View(), p) && Legible(p) && p in locked
      requires !journals[p].published && Operation(journals[p]) !in jobs
      modifies this
      ensures Valid() && Since(cfg, old(View()), View(), mine) && decided == old(decided)
      ensures forall q | q in locked && q in old(journals) :: q in journals && journals[q] == old(journals[q])
      ensures r.Ok? ==> Operation(journals[p]) in jobs && r.value == jobs[Operation(journals[p])] && Readable(cfg, r.value)
      ensures Unhindered(inputs) && r.Err? ==> Stuck(cfg, View(), p)
      ensures quiet ==> OnlyRecord(old(jobs), jobs, Operation(journals[p]))
      ensures quiet && Unhindered(inputs) ==> FaresAlike(cfg, old(View()), View(), p)
    {
      ghost var w0 := View();
      SinceRefl(cfg, w0, mine);
      if !Proposed(Proposal(cfg, journals[p]), Operation(journals[p]), inputs.now).Valid() {
        UninsertableIsStuck(cfg, w0, p, inputs.now);
        return Err(Invalid);
      }
      InsertNow(p, inputs.now, locked, quiet, mine);
      r := LoadInserted(p, inputs);
    }

    method LoadInserted(p: Path, inputs: Inputs) returns (r: Result<Record>)
      requires IsLive(View(), p) && Operation(journals[p]) in jobs
      ensures r.Ok? ==> r.value == jobs[Operation(journals[p])] && Readable(cfg, r.value)
      ensures Unhindered(inputs) && r.Err? ==> Stuck(cfg, View(), p)
    {
      if inputs.crash("after-job") {
        return Err(Invalid);
      }
      r := LoadOperationRecord(Operation(journals[p]));
      if r.Err? {
        assert Blocks(cfg, View(), p, Unloadable);
      }
    }

    /** The insertion, and what happens before the record is read back. */
    method InsertNow(p: Path, now: Time, ghost locked: set<Path>, ghost quiet: bool, ghost mine: set<string>)
      requires Valid() && Enabled(cfg, View(), Action.Insert(p, now)) && p in locked
      modifies this
      ensures Valid() && Since(cfg, old(View()), View(), mine) && decided == old(decided)
      ensures forall q | q in locked && q in old(journals) :: q in journals && journals[q] == old(journals[q])
      ensures Operation(journals[p]) in jobs
      ensures quiet ==> OnlyRecord(old(jobs), jobs, Operation(journals[p])) && FaresAlike(cfg, old(View()), View(), p)
    {
      ghost var w0 := View();
      Insert(p, now, mine);
      ghost var w1 := View();
      LockedInterference(locked, quiet, mine);
      InsertedSince(cfg, w0, w1, View(), mine, Operation(old(journals[p])));
      if quiet {
        InsertedFares(cfg, w0, View(), p, now);
      }
    }

    /** The record, looked up and compared with the journal. */
    method Match(p: Path, inputs: Inputs, ghost locked: set<Path>, ghost quiet: bool, ghost mine: set<string>) returns (ok: bool)
      requires Valid() && IsLive(View(), p) && Legible(p) && p in locked
      modifies this
      ensures Valid() && Since(cfg, old(View()), View(), mine) && decided == old(decided)
      ensures forall q | q in locked && q in old(journals) :: q in journals && journals[q] == old(journals[q])
      ensures ok ==> Operation(journals[p]) in jobs && !Stuck(cfg, View(), p)
      ensures Unhindered(inputs) && !ok ==> Stuck(cfg, View(), p)
      ensures quiet ==> OnlyRecord(old(jobs), jobs, Operation(journals[p]))
      ensures quiet && Unhindered(inputs) ==> FaresAlike(cfg, old(View()), View(), p)
    {
      var j := journals[p];
      var r := LookUp(p, inputs, locked, quiet, mine);
      ok := r.Ok? && Matches(cfg, j, r.value);
      if r.Ok? && !ok {
        assert Blocks(cfg, View(), p, Mismatched);
      }
    }

    /**
     materialize, under the journal's lock: the record is there before the journal is published. Uninterrupted, it
     fails only where recovery fails as things stand; and undisturbed, exactly where it would have failed before.
     */
    method Materialize(p: Path, inputs: Inputs, ghost locked: set<Path>, ghost quiet: bool, ghost mine: set<string>)
      returns (ok: bool)
      requires Valid() && p in journals && p in locked
      modifies this
      ensures Valid() && Since(cfg, old(View()), View(), mine) && decided == old(decided)
      ensures forall q | q in locked && q != p && q in old(journals) :: q in journals && journals[q] == old(journals[q])
      ensures p in journals && if old(journals[p]).Sealed? then journals[p] == old(journals[p])
              else journals[p].Live? && journals[p] == old(journals[p]).(published := journals[p].published)
                   && (old(journals[p]).published || ok ==> journals[p].published)
                   && (if ok then Operation(journals[p]) in jobs else journals[p] == old(journals[p]))
      ensures ok ==> !Stuck(cfg, View(), p)
      ensures Unhindered(inputs) && !ok ==> Stuck(cfg, View(), p)
      ensures quiet ==> if journals[p].Live? then OnlyRecord(old(jobs), jobs, Operation(journals[p])) else jobs == old(jobs)
      ensures quiet && Unhindered(inputs) ==> FaresAlike(cfg, old(View()), View(), p)
    {
      SinceRefl(cfg, View(), mine);
      JournalRecorded(cfg, View(), p);
      if !Legible(p) {
        assert Blocks(cfg, View(), p, Undecodable);
        ok := false;
      } else if journals[p].Sealed? {
        ok := true;
      } else {
        ok := MaterializeLive(p, inputs, locked, quiet, mine);
      }
    }

    method MaterializeLive(p: Path, inputs: Inputs, ghost locked: set<Path>, ghost quiet: bool, ghost mine: set<string>)
      returns (ok: bool)
      requires Valid() && IsLive(View(), p) && Legible(p) && p in locked
      modifies this
      ensures Valid() && Since(cfg, old(View()), View(), mine) && decided == old(decided)
      ensures forall q | q in locked && q != p && q in old(journals) :: q in journals && journals[q] == old(journals[q])
      ensures IsLive(View(), p) && journals[p] == old(journals[p]).(published := journals[p].published)
      ensures old(journals[p]).published || ok ==> journals[p].published
      ensures if ok then Operation(journals[p]) in jobs && !Stuck(cfg, View(), p) else journals[p] == old(journals[p])
      ensures Unhindered(inputs) && !ok ==> Stuck(cfg, View(), p)
      ensures quiet ==> OnlyRecord(old(jobs), jobs, Operation(journals[p]))
      ensures quiet && Unhindered(inputs) ==> FaresAlike(cfg, old(View()), View(), p)
    {
      ghost var w0 := View();
      ok := Match(p, inputs, locked, quiet, mine);
      if ok && !journals[p].published {
        if inputs.io("materialize", 0) {
          PublishMatched(p, w0, mine);
        } else {
          ok := false;
        }
      }
    }

    /** The journal's phase moves on, over the record just matched. */
    method PublishMatched(p: Path, ghost w0: World, ghost mine: set<string>)
      requires Valid() && IsLive(View(), p) && !journals[p].published && Since(cfg, w0, View(), mine)
      requires Operation(journals[p]) in jobs && !Stuck(cfg, View(), p)
      modifies this`journals
      ensures Valid() && Since(cfg, w0, View(), mine)
      ensures journals == old(journals)[p := old(journals[p]).(published := true)]
      ensures !Stuck(cfg, View(), p)
    {
      ghost var w := View();
      MatchedIsPublishable(cfg, w, p);
      Publish(p, mine);
      SinceTrans(cfg, w0, w, View(), mine);
      SameFare(cfg, w, View(), p);
    }

    // ----- Earlier attempts -----

    /** The state of the previous attempt's operation, as far as it can be read. */
    method PreviousState(prev: Path, j: Journal, inputs: Inputs, ghost w0: World, ghost mine: set<string>)
      returns (state: Option<State>)
      requires Valid() && j.Live? && IsLive(w0, prev) && w0.journals[prev] == j
      requires Reachable(cfg, w0) && Since(cfg, w0, View(), mine)
      modifies this
      ensures Valid() && Since(cfg, w0, View(), mine) && decided == old(decided)
      ensures IsLive(View(), prev)
      ensures state == Some(Failed) ==> Ended(View(), prev) || prev in View().reran
      ensures Ended(w0, prev) ==> state in {None, Some(Failed)}
      ensures state.None? && Unhindered(inputs) ==> Unreadable(cfg, View(), prev, Operation(j))
    {
      state := None;
      ghost var w1 := View();
      JournalSince(cfg, w0, w1, mine, prev);
      var done := Materialize(prev, inputs, {prev}, false, mine);
      SinceTrans(cfg, w0, w1, View(), mine);
      if done {
        state := RecordState(prev, j, w0, mine);
      }
      if j.lost {
        state := Some(Failed);
      }
      JournalSince(cfg, w0, View(), mine, prev);
      if state == Some(Failed) {
        EndedSince(cfg, w0, View(), mine, prev);
      }
    }

    /** What the record of a published operation says, some time later. */
    method RecordState(prev: Path, j: Journal, ghost w0: World, ghost mine: set<string>) returns (state: Option<State>)
      requires Valid() && j.Live? && IsLive(w0, prev) && w0.journals[prev] == j
      requires Reachable(cfg, w0) && Since(cfg, w0, View(), mine) && IsLive(View(), prev) && journals[prev].published
      modifies this
      ensures Valid() && Since(cfg, w0, View(), mine) && decided == old(decided)
      ensures state == Some(Failed) ==> Operation(j) in jobs && jobs[Operation(j)].state.Failed?
      ensures Ended(w0, prev) && !j.lost ==> state in {None, Some(Failed)}
      ensures state.None? ==> Operation(j) in jobs && !Readable(cfg, jobs[Operation(j)])
    {
      ghost var w1 := View();
      MaterializedStays(cfg, w0, w1, mine, prev);
      Interference(mine);
      SinceTrans(cfg, w0, w1, View(), mine);
      JobSince(cfg, w1, View(), mine, Operation(j));
      if Ended(w0, prev) && !j.lost {
        FailureStays(cfg, w0, View(), mine, Operation(j));
      }
      var r := LoadOperationRecord(Operation(j));
      state := if r.Ok? then Some(r.value.state) else None;
    }

    /** One attempt further down, if its journal can be read. */
    method WalkDown(p: Path, n: int, inputs: Inputs, ghost mine: set<string>) returns (walk: Option<Journal>)
      requires Valid() && 0 < n < p.identity.attempt
      requires IsSealed(View(), AttemptPath(p, n)) && SealedAbove(View(), p, n)
      modifies this
      ensures Valid() && Since(cfg, old(View()), View(), mine) && decided == old(decided)
      ensures AttemptPath(p, n - 1) in journals && SealedAbove(View(), p, n - 1)
      ensures walk.Some? ==> walk.value == journals[AttemptPath(p, n - 1)]
      ensures walk.None? ==> !inputs.io("journal", n - 1) || Stuck(cfg, View(), AttemptPath(p, n - 1))
    {
      ghost var w1 := View();
      Interference(mine);
      JournalSince(cfg, w1, View(), mine, AttemptPath(p, n));
      SealedAboveSince(cfg, w1, View(), mine, p, n);
      WalkBack(cfg, View(), p, n);
      walk := None;
      if inputs.io("journal", n - 1) {
        JournalRecorded(cfg, View(), AttemptPath(p, n - 1));
        if Legible(AttemptPath(p, n - 1)) {
          walk := Some(journals[AttemptPath(p, n - 1)]);
        } else {
          assert Blocks(cfg, View(), AttemptPath(p, n - 1), Undecodable);
        }
      }
    }

    /** The latest accepted arguments among the earlier attempts, walked down from a journal already read, or the attempt
        whose journal could not be read. */
    method LatestAccepted(p: Path, first: Journal, inputs: Inputs, ghost mine: set<string>)
      returns (ok: bool, latest: Option<Submission>, ghost lost: int)
      requires Valid() && p.identity.attempt > 0 && p.Previous() in journals && SameDecision(first, journals[p.Previous()])
      modifies this
      ensures Valid() && Since(cfg, old(View()), View(), mine) && decided == old(decided)
      ensures ok && latest.Some? ==>
                AcceptedEarlier(View(), p, latest.value)
      ensures ok && latest.None? ==>
                forall q | q in journals && q.SameKey(p) && q.identity.attempt < p.identity.attempt :: journals[q].Sealed?
      ensures !ok ==> 0 <= lost < p.identity.attempt && (!inputs.io("journal", lost) || Stuck(cfg, View(), AttemptPath(p, lost)))
    {
      ghost var w0 := View();
      SinceRefl(cfg, w0, mine);
      latest, lost := None, 0;
      var n := p.identity.attempt - 1;
      assert AttemptPath(p, n) == p.Previous();
      var walk := first;
      while walk.Sealed? && n > 0
        invariant 0 <= n < p.identity.attempt
        invariant Valid() && Since(cfg, w0, View(), mine) && decided == old(decided)
        invariant AttemptPath(p, n) in journals && SameDecision(walk, journals[AttemptPath(p, n)])
        invariant SealedAbove(View(), p, n)
        decreases n
      {
        ghost var w1 := View();
        var next := WalkDown(p, n, inputs, mine);
        SinceTrans(cfg, w0, w1, View(), mine);
        n := n - 1;
        if next.None? {
          return false, None, n;
        }
        walk := next.value;
      }
      ok := true;
      if walk.Live? {
        latest := Some(walk.arguments);
        assert IsLive(View(), AttemptPath(p, n)) && AttemptPath(p, n).SameKey(p);
      } else {
        assert forall q: Path :: q.SameKey(p) && q.identity.attempt == n ==> q == AttemptPath(p, n);
        SealedBelow(cfg, View(), p);
      }
    }

    /**
     attemptEvidence: everything it reports is irreversible, so it still holds when the journal's lock is taken. It
     reports an absent, a sealed and an ended attempt whenever there was one to report, and contradictory evidence
     only for an attempt `lost` whose journal could not be read.
     */
    method AttemptEvidence(p: Path, inputs: Inputs, ghost mine: set<string>) returns (e: AttemptEvidence, ghost lost: int)
      requires Valid() && p.identity.attempt > 0
      modifies this
      ensures Valid() && Since(cfg, old(View()), View(), mine) && decided == old(decided)
      ensures EvidenceHolds(View(), p, e)
      ensures e.previous.AbsentBefore? <==> inputs.io("journal", p.identity.attempt - 1) && p.Previous() !in old(journals)
      ensures e.previous.SealedBefore? ==> IsSealed(old(View()), p.Previous())
      ensures e.previous.AcceptedBefore? ==> IsLive(old(View()), p.Previous())
      ensures e.previous.Contradictory? ==>
                0 <= lost < p.identity.attempt && (!inputs.io("journal", lost) || Stuck(cfg, View(), AttemptPath(p, lost)))
      ensures e.previous.AcceptedBefore? && Ended(old(View()), p.Previous()) ==> e.state in {None, Some(Failed)}
      ensures e.latestAccepted.Some? ==> AcceptedEarlier(View(), p, e.latestAccepted.value)
    {
      ghost var w0 := View();
      SinceRefl(cfg, w0, mine);
      var prev := p.Previous();
      lost := prev.identity.attempt;
      assert AttemptPath(p, lost) == prev;
      if !inputs.io("journal", prev.identity.attempt) {
        e := Decision.AttemptEvidence(Contradictory, None, None);
      } else if prev !in journals {
        e := Decision.AttemptEvidence(AbsentBefore, None, None);
      } else {
        JournalRecorded(cfg, w0, prev);
        if Legible(prev) {
          e, lost := EvidenceFrom(p, journals[prev], inputs, w0, mine);
        } else {
          assert Blocks(cfg, w0, prev, Undecodable);
          e := Decision.AttemptEvidence(Contradictory, None, None);
        }
      }
    }

    /** The evidence, once the previous attempt's journal has been read. */
    method EvidenceFrom(p: Path, j: Journal, inputs: Inputs, ghost w0: World, ghost mine: set<string>)
      returns (e: AttemptEvidence, ghost lost: int)
      requires Valid() && p.identity.attempt > 0 && w0 == View() && p.Previous() in journals && journals[p.Previous()] == j
      modifies this
      ensures Valid() && Since(cfg, w0, View(), mine) && decided == old(decided)
      ensures EvidenceHolds(View(), p, e)
      ensures !e.previous.AbsentBefore?
      ensures !e.previous.Contradictory? ==> (e.previous.SealedBefore? <==> j.Sealed?)
      ensures e.previous.Contradictory? ==>
                0 <= lost < p.identity.attempt && (!inputs.io("journal", lost) || Stuck(cfg, View(), AttemptPath(p, lost)))
      ensures e.previous.AcceptedBefore? && Ended(w0, p.Previous()) ==> e.state in {None, Some(Failed)}
      ensures e.latestAccepted.Some? ==> AcceptedEarlier(View(), p, e.latestAccepted.value)
    {
      var prev := p.Previous();
      SinceRefl(cfg, w0, mine);
      var state := None;
      if j.Live? {
        Interference(mine);
        state := PreviousState(prev, j, inputs, w0, mine);
      }
      ghost var w1 := View();
      JournalSince(cfg, w0, w1, mine, prev);
      var found, latest;
      found, latest, lost := LatestAccepted(p, j, inputs, mine);
      ghost var w2 := View();
      JournalSince(cfg, w1, w2, mine, prev);
      SinceTrans(cfg, w0, w1, w2, mine);
      if !found {
        return Decision.AttemptEvidence(Contradictory, None, None), lost;
      }
      if state == Some(Failed) {
        EndedStill(cfg, w1, w2, mine, prev);
      }
      e := Decision.AttemptEvidence(if j.Sealed? then SealedBefore else AcceptedBefore, state, latest);
    }

    // ----- Admission -----

    /** checkAdmission: a refusal is answered exactly while the identity has no journal. */
    method CheckAdmission(p: Path, s: Submission, inputs: Inputs, ghost mine: set<string>)
      returns (refused: Option<AcceptanceResult>)
      requires Valid()
      modifies this
      ensures Valid() && Since(cfg, old(View()), View(), mine) && decided == old(decided)
      ensures refused.Some? ==> refused == AdmissionRefusal(cfg, inputs, s) && p !in journals
      ensures refused.None? && inputs.io("journal", p.identity.attempt) && inputs.io("journal again", p.identity.attempt) ==>
                p in journals || AdmissionRefusal(cfg, inputs, s).None?
    {
      ghost var w0 := View();
      SinceRefl(cfg, w0, mine);
      if !inputs.io("journal", p.identity.attempt) || p in journals {
        return None;
      }
      refused := AdmissionRefusal(cfg, inputs, s);
      if refused.None? {
        return;
      }
      Interference(mine);
      if !inputs.io("journal again", p.identity.attempt) || p in journals {
        refused := None;
      }
    }

    method WriteFirst(p: Path, j: Journal, ghost mine: set<string>)
      requires Valid() && Since(cfg, View(), Deciding(View(), p, j), mine) && Reachable(cfg, Deciding(View(), p, j))
      modifies this`journals, this`named, this`ids, this`decided
      ensures Valid() && Since(cfg, old(View()), View(), mine)
      ensures journals == old(journals)[p := j] && decided == old(decided) + {p}
    {
      ghost var next := Deciding(View(), p, j);
      journals := journals[p := j];
      if j.Live? {
        named := named[p := [Operation(j)]];
        ids := ids[Operation(j) := Place(p, 0)];
      }
      decided := decided + {p};
      assert View() == next;
    }

    /** The admission transaction: an existing journal answers; otherwise an eligible identity gets its first one. */
    method Admit(p: Path, s: Option<Submission>, shown: StoredLabel, binding: Binding, inputs: Inputs,
                 eligibility: Option<AcceptanceResult>, ghost e: AttemptEvidence, ghost mine: set<string>)
      returns (out: Result<Option<Journal>>)
      requires Valid() && inputs.newId !in ids && inputs.newId !in mine
      requires Admissible(cfg, p, s, shown, inputs)
      requires eligibility.None? ==> Listed(View(), p, s, shown, binding)
      requires p.identity.attempt > 0 ==> EvidenceHolds(View(), p, e) && eligibility == AttemptEligibility(p.identity, s, e)
      requires p.identity.attempt == 0 ==> eligibility.None?
      modifies this`journals, this`named, this`ids, this`decided
      ensures Valid() && Since(cfg, old(View()), View(), mine)
      ensures out.Ok? && p in old(journals) ==> out.value == Some(old(journals[p])) && View() == old(View())
      ensures out.Ok? && p !in old(journals) ==> (out.value.Some? <==> eligibility.None?)
      ensures out.Ok? && p !in old(journals) && out.value.Some? ==>
                && DecidedBy(cfg, p, s, shown, binding, inputs, out.value.value)
                && journals == old(journals)[p := out.value.value]
      ensures out.Err? || (out.Ok? && out.value.None?) ==> View() == old(View())
      ensures decided == if p !in old(journals) && out.Ok? && out.value.Some? then old(decided) + {p} else old(decided)
      ensures out.Ok? <==> inputs.io("journal", p.identity.attempt) && (p in old(journals) ==> old(Legible(p)))
      ensures inputs.io("journal", p.identity.attempt) && out.Err? ==> Stuck(cfg, View(), p)
    {
      SinceRefl(cfg, View(), mine);
      if !inputs.io("journal", p.identity.attempt) {
        return Err(Invalid);
      }
      if p in journals {
        JournalRecorded(cfg, View(), p);
        if !Legible(p) {
          assert Blocks(cfg, View(), p, Undecodable);
          return Err(Invalid);
        }
        return Ok(Some(journals[p]));
      }
      if eligibility.Some? {
        return Ok(None);
      }
      var j := FirstJournal(cfg, p, s, shown, binding, inputs);
      FirstJournalStep(cfg, View(), p, s, shown, binding, inputs, e, mine);
      FirstJournalDecides(cfg, p, s, shown, binding, inputs);
      WriteFirst(p, j, mine);
      out := Ok(Some(j));
    }

    // ----- A rights-refused identity run again -----

    method WriteRerun(p: Path, k: Journal, ghost next: World, ghost mine: set<string>)
      requires Valid() && Since(cfg, View(), next, mine) && Reachable(cfg, next)
      requires next == View().(journals := journals[p := k], named := next.named, ids := next.ids, reran := next.reran)
      modifies this`journals, this`named, this`ids, this`reran
      ensures Valid() && Since(cfg, old(View()), View(), mine)
      ensures journals == old(journals)[p := k]
    {
      journals := journals[p := k];
      named, ids, reran := next.named, next.ids, next.reran;
      assert View() == next;
    }

    /** The re-run transaction: a journal another call already moved on answers as it stands, and one that no longer decodes
        is an error. */
    method MoveOn(p: Path, j: Journal, s: Submission, subject: Option<string>, inputs: Inputs, ghost w0: World, ghost mine: set<string>)
      returns (next: Option<Journal>)
      requires Valid() && Reachable(cfg, w0) && Since(cfg, w0, View(), mine) && IsLive(w0, p) && w0.journals[p] == j
      requires j.published && !j.legacy && s.identity == p.identity && SameAs(s, j.arguments)
      requires IsLive(View(), p) && Operation(j) in jobs && FailedByRights(cfg, jobs[Operation(j)]) && Decodable(cfg, jobs[Operation(j)])
      requires cfg.executor.Some? ==> AdmitWork(cfg, p, subject, s, inputs.rerunId).Some?
      requires InputsOk(cfg, inputs) && inputs.rerunId !in ids && inputs.rerunId !in mine
      modifies this`journals, this`named, this`ids, this`reran
      ensures Valid() && Since(cfg, old(View()), View(), mine)
      ensures next.Some? ==> IsLive(View(), p) && journals[p] == next.value && Operation(next.value) != Operation(j)
      ensures next.None? ==> !old(Legible(p)) && Stuck(cfg, View(), p)
      ensures if old(Legible(p)) && old(journals[p]).published && Operation(old(journals[p])) == Operation(j)
              then journals == old(journals)[p := RerunJournal(cfg, p, old(journals[p]), inputs.rerunId, s, subject)]
              else journals == old(journals)
    {
      RetainedSince(cfg, w0, View(), mine, p);
      PublishedTurn(cfg, w0, View(), mine, p);
      SinceRefl(cfg, View(), mine);
      if !Legible(p) {
        JournalRecorded(cfg, View(), p);
        assert Blocks(cfg, View(), p, Undecodable);
        return None;
      }
      if !journals[p].published || Operation(journals[p]) != Operation(j) {
        return Some(journals[p]);
      }
      NamedIsDrawn(cfg, View(), p);
      RerunStep(cfg, View(), p, inputs.rerunId, s, subject, mine);
      WriteRerun(p, RerunJournal(cfg, p, journals[p], inputs.rerunId, s, subject),
                 Rerunning(cfg, View(), p, inputs.rerunId, s, subject), mine);
      next := Some(journals[p]);
    }

    /** The writing half of rerunRefused: the identity names a new operation, unless another call moved it on. */
    method RunAgain(p: Path, j: Journal, s: Submission, subject: Option<string>, inputs: Inputs, ghost w0: World, ghost mine: set<string>)
      returns (out: Option<Journal>)
      requires Valid() && Reachable(cfg, w0) && Since(cfg, w0, View(), mine) && IsLive(w0, p) && w0.journals[p] == j
      requires j.published && !j.legacy && s.identity == p.identity && SameAs(s, j.arguments)
      requires Operation(j) in jobs && FailedByRights(cfg, jobs[Operation(j)]) && Decodable(cfg, jobs[Operation(j)])
      requires cfg.executor.Some? ==> AdmitWork(cfg, p, subject, s, inputs.rerunId).Some?
      requires InputsOk(cfg, inputs) && inputs.rerunId !in ids && inputs.rerunId !in mine
      modifies this
      ensures Valid() && Since(cfg, old(View()), View(), mine) && decided == old(decided)
      ensures out.None? ==> !inputs.io("journal", p.identity.attempt) || Stuck(cfg, View(), p)
      ensures out.Some? ==> IsLive(View(), p) && journals[p] == out.value && Operation(out.value) != Operation(j)
    {
      ghost var w1 := View();
      Interference(mine + {inputs.rerunId});
      ghost var w2 := View();
      RefusalStands(cfg, w1, w2, mine + {inputs.rerunId}, p, Operation(j));
      SinceLess(cfg, w1, w2, mine + {inputs.rerunId}, mine);
      if !inputs.io("journal", p.identity.attempt) {
        return None;
      }
      SinceTrans(cfg, w0, w1, w2, mine);
      out := MoveOnIndexed(p, j, s, subject, inputs, w0, mine);
      SinceTrans(cfg, w1, w2, View(), mine);
    }

    method MoveOnIndexed(p: Path, j: Journal, s: Submission, subject: Option<string>, inputs: Inputs, ghost w0: World,
                         ghost mine: set<string>)
      returns (next: Option<Journal>)
      requires Valid() && Reachable(cfg, w0) && Since(cfg, w0, View(), mine) && IsLive(w0, p) && w0.journals[p] == j
      requires j.published && !j.legacy && s.identity == p.identity && SameAs(s, j.arguments)
      requires Operation(j) in jobs && FailedByRights(cfg, jobs[Operation(j)]) && Decodable(cfg, jobs[Operation(j)])
      requires cfg.executor.Some? ==> AdmitWork(cfg, p, subject, s, inputs.rerunId).Some?
      requires InputsOk(cfg, inputs) && inputs.rerunId !in ids && inputs.rerunId !in mine
      modifies this`journals, this`named, this`ids, this`reran, this`subjects
      ensures Valid() && Since(cfg, old(View()), View(), mine)
      ensures next.Some? ==> IsLive(View(), p) && journals[p] == next.value && Operation(next.value) != Operation(j)
      ensures next.None? ==> Stuck(cfg, View(), p)
    {
      ghost var w2 := View();
      RetainedSince(cfg, w0, w2, mine, p);
      next := MoveOn(p, j, s, subject, inputs, w0, mine);
      if next.None? {
        return;
      }
      ghost var w3 := View();
      JournalNamed(cfg, w3, p);
      var indexed := IndexJournal(p, next.value, mine);
      SinceTrans(cfg, w2, w3, View(), mine);
    }

    /**
     rerunRefused, for a journal read when the world was w0: unless a rights refusal failed its operation, it answers
     as it was read; a standing rule, an admission or a preparation that refuses now is the answer; otherwise the
     identity names a new operation.
     */
    method RerunRefused(p: Path, j: Journal, s: Submission, subject: Option<string>, inputs: Inputs, ghost w0: World,
                        ghost mine: set<string>)
      returns (next: Journal, refused: Option<AcceptanceResult>)
      requires Valid() && Reachable(cfg, w0) && Since(cfg, w0, View(), mine)
      requires IsLive(w0, p) && w0.journals[p] == j && j.published && s.identity == p.identity && SameAs(s, j.arguments)
      requires InputsOk(cfg, inputs) && inputs.rerunId !in ids && inputs.rerunId !in mine
      modifies this
      ensures Valid() && Since(cfg, w0, View(), mine) && decided == old(decided)
      ensures refused.Some? ==> next == j && refused.value.receipt.None? && refused.value.outcome in {InvalidInput, Forbidden, Unavailable, Unknown}
      ensures refused.Some? && refused.value.outcome.Unknown? ==> !inputs.io("journal", p.identity.attempt) || Stuck(cfg, View(), p)
      ensures if Rerunnable(cfg, old(jobs), j) then
                var refusal := RerunRefusal(cfg, inputs, p, j.subject, subject, s);
                if refusal.Some? then refused == refusal
                else if refused.Some? then refused.value.outcome.Unknown?
                else IsLive(View(), p) && journals[p] == next && Operation(next) != Operation(j)
              else next == j && refused.None?
    {
      refused := None;
      next := j;
      var failed := FailedRecord(j);
      if failed && !j.legacy {
        refused := RerunRefusal(cfg, inputs, p, j.subject, subject, s);
        if refused.None? {
          next, refused := RerunPermitted(p, j, s, subject, inputs, w0, mine);
        }
      }
    }

    /** The journal's record can be read, and was failed by a rights refusal: by the standing rule, or by one the executor
        names. */
    method FailedRecord(j: Journal) returns (failed: bool)
      requires j.Live?
      ensures failed <==> Operation(j) in jobs && Readable(cfg, jobs[Operation(j)]) && FailedByRights(cfg, jobs[Operation(j)])
      ensures failed <==>
                && Operation(j) in jobs
                && var r := jobs[Operation(j)];
                   Readable(cfg, r) && r.state.Failed?
                   && ("standing: " <= r.error || (cfg.executor.Some? && cfg.executor.value.refuses(Settled(r))))
    {
      var r := LoadOperationRecord(Operation(j));
      failed := r.Ok? && FailedByRights(cfg, r.value);
    }

    method RerunPermitted(p: Path, j: Journal, s: Submission, subject: Option<string>, inputs: Inputs, ghost w0: World,
                          ghost mine: set<string>)
      returns (next: Journal, refused: Option<AcceptanceResult>)
      requires Valid() && Reachable(cfg, w0) && Since(cfg, w0, View(), mine) && IsLive(w0, p) && w0.journals[p] == j
      requires j.published && !j.legacy && s.identity == p.identity && SameAs(s, j.arguments)
      requires Operation(j) in jobs && FailedByRights(cfg, jobs[Operation(j)]) && Decodable(cfg, jobs[Operation(j)])
      requires cfg.executor.Some? ==> AdmitWork(cfg, p, subject, s, inputs.rerunId).Some?
      requires InputsOk(cfg, inputs) && inputs.rerunId !in ids && inputs.rerunId !in mine
      modifies this
      ensures Valid() && Since(cfg, w0, View(), mine) && decided == old(decided)
      ensures refused.Some? ==> next == j && refused.value == Answer(Unknown, "owner recovery evidence unavailable")
      ensures refused.Some? ==> !inputs.io("journal", p.identity.attempt) || Stuck(cfg, View(), p)
      ensures refused.None? ==> IsLive(View(), p) && journals[p] == next && Operation(next) != Operation(j)
    {
      ghost var w1 := View();
      var out := RunAgain(p, j, s, subject, inputs, w0, mine);
      SinceTrans(cfg, w0, w1, View(), mine);
      if out.None? {
        return j, Some(Answer(Unknown, "owner recovery evidence unavailable"));
      }
      next, refused := out.value, None;
    }

    // ----- Answers -----

    /**
     The part of resolve before the journal's lock: earlier attempts, the storage features a new journal needs, and the
     executor's admission. A refusal or a lost feature answers at once.
     */
    method Ready(p: Path, s: Option<Submission>, shown: StoredLabel, binding: Binding, inputs: Inputs, ghost mine: set<string>)
      returns (early: Option<AcceptanceResult>, eligibility: Option<AcceptanceResult>, ghost e: AttemptEvidence)
      requires Valid() && p.identity.attempt >= 0 && (s.Some? ==> ValidSubmission(s.value))
      modifies this
      ensures Valid() && Since(cfg, old(View()), View(), mine) && decided == old(decided)
      ensures early.Some? ==> early.value.receipt.None? && early.value.outcome in {Unknown, InvalidInput, Forbidden, Unavailable}
      ensures early.Some? && early.value.outcome.Unknown? ==> !Clean(inputs, p.identity.attempt)
      ensures AdmissionHeard(early, p, s, eligibility, inputs)
      ensures early.None? && eligibility.None? ==> Listed(View(), p, s, shown, binding)
      ensures p.identity.attempt > 0 ==> EvidenceHolds(View(), p, e) && eligibility == AttemptEligibility(p.identity, s, e)
      ensures p.identity.attempt == 0 ==> eligibility.None?
      ensures eligibility.Some? && Entitled(old(View()), p, s) ==> eligibility.value.outcome.Unknown?
    {
      ghost var w0 := View();
      SinceRefl(cfg, w0, mine);
      early, eligibility, e := None, None, Decision.AttemptEvidence(Contradictory, None, None);
      if p.identity.attempt > 0 {
        ghost var lost;
        var found;
        found, lost := AttemptEvidence(p, inputs, mine);
        e := found;
        eligibility := AttemptEligibility(p.identity, s, found);
        if Entitled(w0, p, s) {
          EntitledIsEligible(cfg, w0, View(), mine, p, s, e);
        }
      }
      ghost var w1 := View();
      early := Prerequisites(p, s, shown, binding, eligibility, inputs, mine);
      ghost var w2 := View();
      if p.identity.attempt > 0 {
        EvidenceSince(cfg, w1, w2, mine, p, e);
      }
      SinceTrans(cfg, w0, w1, w2, mine);
    }

    method EnsureWhen(needed: bool, f: Feature, inputs: Inputs, ghost mine: set<string>) returns (ok: bool)
      requires Valid()
      modifies this
      ensures Valid() && Since(cfg, old(View()), View(), mine) && decided == old(decided)
      ensures ok && needed ==> f in View().marked
      ensures inputs.io("owner.json", 0) ==> ok
    {
      if needed {
        ok := EnsureFeature(f, inputs, mine);
      } else {
        SinceRefl(cfg, View(), mine);
        ok := true;
      }
    }

    method Prerequisites(p: Path, s: Option<Submission>, shown: StoredLabel, binding: Binding,
                         eligibility: Option<AcceptanceResult>, inputs: Inputs, ghost mine: set<string>)
      returns (early: Option<AcceptanceResult>)
      requires Valid()
      modifies this
      ensures Valid() && Since(cfg, old(View()), View(), mine) && decided == old(decided)
      ensures early.Some? ==> early.value.receipt.None? && early.value.outcome in {Unknown, InvalidInput, Forbidden, Unavailable}
      ensures early.Some? && early.value.outcome.Unknown? ==> !Clean(inputs, p.identity.attempt)
      ensures AdmissionHeard(early, p, s, eligibility, inputs)
      ensures early.None? && eligibility.None? ==> Listed(View(), p, s, shown, binding)
    {
      ghost var w0 := View();
      var retry := p.identity.attempt > 0 && eligibility.None?;
      var ok := EnsureWhen(retry, AttemptsFeature, inputs, mine);
      if ok && retry && inputs.crash("after-storage-feature") {
        return Some(Answer(Unknown, "acceptance reply unavailable"));
      }
      ghost var w1 := View();
      if ok {
        ok := EnsureWhen(shown.text != "", LabelsFeature, inputs, mine);
        SinceTrans(cfg, w0, w1, View(), mine);
      }
      if !ok {
        return Some(Answer(Unknown, "owner storage feature unavailable"));
      }
      ghost var w2 := View();
      early := Permission(p, s, binding, eligibility, inputs, mine);
      SinceTrans(cfg, w0, w2, View(), mine);
    }

    /** The executor's admission, and the subject's storage feature. */
    method Permission(p: Path, s: Option<Submission>, binding: Binding, eligibility: Option<AcceptanceResult>, inputs: Inputs,
                      ghost mine: set<string>) returns (early: Option<AcceptanceResult>)
      requires Valid()
      modifies this
      ensures Valid() && Since(cfg, old(View()), View(), mine) && decided == old(decided)
      ensures early.Some? ==> early.value.receipt.None? && early.value.outcome in {Unknown, InvalidInput, Forbidden, Unavailable}
      ensures early.Some? && early.value.outcome.Unknown? ==> !Clean(inputs, p.identity.attempt)
      ensures AdmissionHeard(early, p, s, eligibility, inputs)
      ensures early.None? && s.Some? && binding.subject.Some? ==> SubjectsFeature in View().marked
    {
      ghost var w0 := View();
      SinceRefl(cfg, w0, mine);
      early := None;
      if s.Some? && eligibility.None? {
        early := CheckAdmission(p, s.value, inputs, mine);
        if early.Some? {
          return;
        }
      }
      ghost var w1 := View();
      var ok := EnsureWhen(s.Some? && binding.subject.Some?, SubjectsFeature, inputs, mine);
      SinceTrans(cfg, w0, w1, View(), mine);
      if p in w1.journals {
        JournalSince(cfg, w1, View(), mine, p);
      }
      if !ok {
        early := Some(Answer(Unknown, "owner storage feature unavailable"));
      }
    }

    /** Whether the executor's admission was heard: its refusal is the answer while the identity has no journal, and an
        uninterrupted call goes on only where it does not refuse. */
    ghost predicate AdmissionHeard(early: Option<AcceptanceResult>, p: Path, s: Option<Submission>, eligibility: Option<AcceptanceResult>,
                          inputs: Inputs)
      reads this
    {
      && (early.Some? && !early.value.outcome.Unknown? ==> p !in journals && s.Some? && early == AdmissionRefusal(cfg, inputs, s.value))
      && (early.None? && s.Some? && eligibility.None? && Clean(inputs, p.identity.attempt) ==>
            p in journals || AdmissionRefusal(cfg, inputs, s.value).None?)
    }

    /** The rest of resolve, once the identity has a journal j, read when the world was w0. */
    method Settle(p: Path, j: Journal, s: Option<Submission>, subject: Option<string>, inputs: Inputs, ghost w0: World,
                  ghost mine: set<string>)
      returns (v: AcceptanceResult)
      requires Valid() && w0 == View() && p in journals && journals[p] == j
      requires s.Some? ==> s.value.identity == p.identity && ValidSubmission(s.value)
      requires InputsOk(cfg, inputs) && inputs.rerunId !in ids && inputs.rerunId !in mine
      modifies this
      ensures Valid() && Since(cfg, w0, View(), mine) && decided == old(decided)
      ensures v.outcome.Accepted? ==> v.receipt.Some? && Answerable(View(), p, s, v.receipt.value.operationId)
      ensures v.outcome.DefinitelyNotAccepted? ==> IsSealed(View(), p)
      ensures AnsweredFrom(cfg, inputs, w0, p, s, subject, v)
      ensures Clean(inputs, p.identity.attempt) && v.outcome.Unknown? ==> Stuck(cfg, View(), p)
    {
      SinceRefl(cfg, w0, mine);
      JournalRecorded(cfg, w0, p);
      RetainedAnswers(cfg, w0.marked, p, j, s);
      if j.Live? {
        JournalNamed(cfg, w0, p);
      }
      var indexed := IndexJournal(p, j, mine);
      if j.Sealed? {
        v := ReconcileEvidence(p.scope, cfg.owner, p.identity, s, Retained(p, j)).(reason := j.reason);
        return;
      }
      ghost var w1 := View();
      Interference(mine + {inputs.rerunId});
      SinceLess(cfg, w1, View(), mine + {inputs.rerunId}, mine);
      SinceTrans(cfg, w0, w1, View(), mine);
      v := SettleLive(p, j, s, subject, inputs, w0, mine);
    }

    /** The answer a live journal gives. */
    method Replay(p: Path, j: Journal, s: Option<Submission>, ghost w: World) returns (v: AcceptanceResult)
      requires cfg.Valid() && Reachable(cfg, w) && IsLive(w, p) && w.journals[p] == j
      requires s.Some? ==> s.value.identity == p.identity && ValidSubmission(s.value)
      ensures if s.None? || SameAs(s.value, j.arguments) then v.outcome.Accepted? && v.receipt == Some(j.receipt)
              else v.outcome.KeyConflict?
    {
      LiveAnswers(cfg, w, p, s);
      v := ReconcileEvidence(p.scope, cfg.owner, p.identity, s, Retained(p, j));
    }

    method SettleLive(p: Path, j: Journal, s: Option<Submission>, subject: Option<string>, inputs: Inputs, ghost w0: World,
                      ghost mine: set<string>)
      returns (v: AcceptanceResult)
      requires Valid() && Reachable(cfg, w0) && Since(cfg, w0, View(), mine) && IsLive(w0, p) && w0.journals[p] == j && p in w0.named
      requires s.Some? ==> s.value.identity == p.identity && ValidSubmission(s.value)
      requires InputsOk(cfg, inputs) && inputs.rerunId !in ids && inputs.rerunId !in mine
      modifies this
      ensures Valid() && Since(cfg, w0, View(), mine) && decided == old(decided)
      ensures v.outcome.Accepted? ==> v.receipt.Some? && Answerable(View(), p, s, v.receipt.value.operationId)
      ensures !v.outcome.DefinitelyNotAccepted?
      ensures Repeats(cfg, inputs, w0, p, s, subject, v)
      ensures Clean(inputs, p.identity.attempt) && v.outcome.Unknown? ==> Stuck(cfg, View(), p)
    {
      v := Replay(p, j, s, w0);
      if !v.outcome.Accepted? {
        RepeatsConflict(cfg, inputs, w0, p, s.value, subject, v);
      } else if s.Some? && j.published {
        v := SettleRepeated(p, j, s.value, subject, inputs, w0, mine);
      } else {
        ghost var w1 := View();
        v := Deliver(p, j, v, inputs, s, w0, mine);
        SinceTrans(cfg, w0, w1, View(), mine);
        RepeatsStanding(cfg, inputs, w0, p, s, subject, v);
      }
    }

    /** A submission presented again to a published journal. */
    method SettleRepeated(p: Path, j: Journal, s: Submission, subject: Option<string>, inputs: Inputs, ghost w0: World,
                          ghost mine: set<string>)
      returns (v: AcceptanceResult)
      requires Valid() && Reachable(cfg, w0) && Since(cfg, w0, View(), mine) && IsLive(w0, p) && w0.journals[p] == j && p in w0.named
      requires s.identity == p.identity && ValidSubmission(s) && SameAs(s, j.arguments) && j.published
      requires InputsOk(cfg, inputs) && inputs.rerunId !in ids && inputs.rerunId !in mine
      modifies this
      ensures Valid() && Since(cfg, w0, View(), mine) && decided == old(decided)
      ensures v.outcome.Accepted? ==> v.receipt.Some? && Answerable(View(), p, Some(s), v.receipt.value.operationId)
      ensures !v.outcome.DefinitelyNotAccepted?
      ensures Repeats(cfg, inputs, w0, p, Some(s), subject, v)
      ensures Clean(inputs, p.identity.attempt) && v.outcome.Unknown? ==> Stuck(cfg, View(), p)
    {
      RerunnableSince(cfg, w0, View(), mine, p);
      var k, refused := RerunRefused(p, j, s, subject, inputs, w0, mine);
      ghost var w1 := View();
      if refused.Some? {
        RepeatsRedecided(cfg, inputs, w0, p, s, subject, refused.value);
        return refused.value;
      }
      ghost var read := if k == j then w0 else w1;
      SinceRefl(cfg, w1, mine);
      if k != j {
        RetainedSince(cfg, w0, w1, mine, p);
        PublishedTurn(cfg, w0, w1, mine, p);
      }
      v := Replay(p, k, Some(s), read);
      v := Deliver(p, k, v, inputs, Some(s), read, mine);
      SinceTrans(cfg, w0, w1, View(), mine);
      if k == j {
        RepeatsStanding(cfg, inputs, w0, p, Some(s), subject, v);
      } else {
        RepeatsRedecided(cfg, inputs, w0, p, s, subject, v);
      }
    }

    /** Materialize before the reply goes out, for a journal read when the world was `read`. */
    method Deliver(p: Path, k: Journal, answer: AcceptanceResult, inputs: Inputs, ghost s: Option<Submission>,
                   ghost read: World, ghost mine: set<string>)
      returns (v: AcceptanceResult)
      requires Valid() && Reachable(cfg, read) && Since(cfg, read, View(), mine) && IsLive(read, p) && read.journals[p] == k
      requires answer.outcome.Accepted? && answer.receipt == Some(k.receipt)
      requires s.Some? ==> SameAs(s.value, k.arguments)
      modifies this
      ensures Valid() && Since(cfg, old(View()), View(), mine) && decided == old(decided)
      ensures v == answer || v.outcome.Unknown?
      ensures v.outcome.Accepted? ==> Answerable(View(), p, s, k.receipt.operationId)
      ensures Clean(inputs, p.identity.attempt) && v.outcome.Unknown? ==> Stuck(cfg, View(), p)
    {
      SinceRefl(cfg, View(), mine);
      v := Answer(Unknown, "acceptance reply unavailable");
      if !inputs.crash("after-journal") {
        v := DeliverNow(p, k, answer, inputs, s, read, mine);
      }
    }

    method DeliverNow(p: Path, k: Journal, answer: AcceptanceResult, inputs: Inputs, ghost s: Option<Submission>,
                      ghost read: World, ghost mine: set<string>)
      returns (v: AcceptanceResult)
      requires Valid() && Reachable(cfg, read) && Since(cfg, read, View(), mine) && IsLive(read, p) && read.journals[p] == k
      requires answer.outcome.Accepted? && answer.receipt == Some(k.receipt)
      requires s.Some? ==> SameAs(s.value, k.arguments)
      modifies this
      ensures Valid() && Since(cfg, old(View()), View(), mine) && decided == old(decided)
      ensures v == answer || v.outcome.Unknown?
      ensures v.outcome.Accepted? ==> Answerable(View(), p, s, k.receipt.operationId)
      ensures Clean(inputs, p.identity.attempt) && v.outcome.Unknown? ==> Stuck(cfg, View(), p)
    {
      var ok := Materialized(p, k, inputs, s, read, mine);
      v := if !ok then Answer(Unknown, "accepted operation recovery unavailable")
           else if inputs.crash("before-reply") then Answer(Unknown, "acceptance reply unavailable")
           else answer;
    }

    /** Materialize, some time after the journal was read. */
    method Materialized(p: Path, k: Journal, inputs: Inputs, ghost s: Option<Submission>, ghost read: World, ghost mine: set<string>)
      returns (ok: bool)
      requires Valid() && Reachable(cfg, read) && Since(cfg, read, View(), mine) && IsLive(read, p) && read.journals[p] == k
      requires s.Some? ==> SameAs(s.value, k.arguments)
      modifies this
      ensures Valid() && Since(cfg, old(View()), View(), mine) && decided == old(decided)
      ensures ok ==> Answerable(View(), p, s, k.receipt.operationId)
      ensures Unhindered(inputs) && !ok ==> Stuck(cfg, View(), p)
    {
      ghost var w1 := View();
      Interference(mine);
      ghost var w2 := View();
      StillLive(cfg, read, w1, w2, mine, p);
      ok := Materialize(p, inputs, {p}, false, mine);
      SinceTrans(cfg, w1, w2, View(), mine);
      if ok {
        AnswerableNow(cfg, read, w2, View(), mine, p, s);
      }
    }

    // ----- Calls -----

    /** resolve for an identity of the current epoch. */
    method Answered(p: Path, s: Option<Submission>, shown: StoredLabel, binding: Binding, inputs: Inputs)
      returns (v: AcceptanceResult, ghost first: bool)
      requires Valid() && Admissible(cfg, p, s, shown, inputs) && inputs.newId !in ids && inputs.rerunId !in ids
      modifies this
      ensures Valid() && Since(cfg, old(View()), View(), {})
      ensures v.outcome.Accepted? ==> v.receipt.Some? && Answerable(View(), p, s, v.receipt.value.operationId)
      ensures v.outcome.DefinitelyNotAccepted? ==> IsSealed(View(), p)
      ensures decided == if first then old(decided) + {p} else old(decided)
      ensures Concludes(cfg, inputs, old(View()), View(), p, s, shown, binding, v, first)
      ensures Clean(inputs, p.identity.attempt) && v.outcome.Unknown? ==> p.identity.attempt > 0 || Stuck(cfg, View(), p)
    {
      ghost var w0 := View();
      ghost var read;
      v, read, first := AnsweredBy(p, s, shown, binding, inputs);
      EstablishedConcludes(cfg, inputs, w0, read, View(), p, s, shown, binding, v, first);
    }

    /** The answer, and the world in which the journal it comes from was read or first written. */
    method AnsweredBy(p: Path, s: Option<Submission>, shown: StoredLabel, binding: Binding, inputs: Inputs)
      returns (v: AcceptanceResult, ghost read: Option<World>, ghost first: bool)
      requires Valid() && Admissible(cfg, p, s, shown, inputs) && inputs.newId !in ids && inputs.rerunId !in ids
      modifies this
      ensures Valid() && Since(cfg, old(View()), View(), {})
      ensures v.outcome.Accepted? ==> v.receipt.Some? && Answerable(View(), p, s, v.receipt.value.operationId)
      ensures v.outcome.DefinitelyNotAccepted? ==> IsSealed(View(), p)
      ensures decided == if first then old(decided) + {p} else old(decided)
      ensures Established(cfg, inputs, old(View()), read, View(), p, s, shown, binding, v, first)
    {
      ghost var w0 := View();
      ghost var mine := {inputs.newId, inputs.rerunId};
      var early, eligibility;
      ghost var e;
      early, eligibility, e := Ready(p, s, shown, binding, inputs, mine);
      ghost var w1 := View();
      SinceLess(cfg, w0, w1, mine, {});
      KeptJournal(cfg, w0, w1, mine, p);
      if early.Some? {
        return early.value, None, false;
      }
      Interference(mine);
      ghost var w2 := View();
      KeptJournal(cfg, w1, w2, mine, p);
      if p.identity.attempt > 0 {
        EvidenceSince(cfg, w1, w2, mine, p, e);
      }
      SinceTrans(cfg, w0, w1, w2, mine);
      SinceLess(cfg, w0, w2, mine, {});
      v, read, first := Transact(p, s, shown, binding, inputs, eligibility, e);
      SinceTrans(cfg, w0, w2, View(), {});
      if read.Some? {
        SinceTrans(cfg, w0, w2, read.value, {});
      }
    }

    /** The journal's lock, and the answer of the journal found or written under it. */
    method Transact(p: Path, s: Option<Submission>, shown: StoredLabel, binding: Binding, inputs: Inputs,
                    eligibility: Option<AcceptanceResult>, ghost e: AttemptEvidence)
      returns (v: AcceptanceResult, ghost read: Option<World>, ghost first: bool)
      requires Valid() && Admissible(cfg, p, s, shown, inputs) && inputs.newId !in ids && inputs.rerunId !in ids
      requires eligibility.None? ==> Listed(View(), p, s, shown, binding)
      requires p.identity.attempt > 0 ==> EvidenceHolds(View(), p, e) && eligibility == AttemptEligibility(p.identity, s, e)
      requires p.identity.attempt == 0 ==> eligibility.None?
      modifies this
      ensures Valid() && Since(cfg, old(View()), View(), {})
      ensures v.outcome.Accepted? ==> v.receipt.Some? && Answerable(View(), p, s, v.receipt.value.operationId)
      ensures v.outcome.DefinitelyNotAccepted? ==> IsSealed(View(), p)
      ensures decided == if first then old(decided) + {p} else old(decided)
      ensures read.Some? ==>
                && Since(cfg, old(View()), read.value, {}) && Since(cfg, read.value, View(), {}) && Reachable(cfg, read.value)
                && AnsweredFrom(cfg, inputs, read.value, p, s, binding.subject, v)
      ensures first ==>
                read.Some? && p !in old(journals) && eligibility.None?
                && DecidedBy(cfg, p, s, shown, binding, inputs, read.value.journals[p])
      ensures inputs.io("journal", p.identity.attempt) && read.None? ==>
                (v.outcome.Unknown? && Stuck(cfg, View(), p)) || (p !in old(journals) && eligibility == Some(v))
      ensures Clean(inputs, p.identity.attempt) && v.outcome.Unknown? && read.Some? ==> Stuck(cfg, View(), p)
    {
      ghost var w1 := View();
      read, first := None, false;
      var out := Admit(p, s, shown, binding, inputs, eligibility, e, {inputs.rerunId});
      ghost var w2 := View();
      SinceLess(cfg, w1, w2, {inputs.rerunId}, {});
      if out.Err? {
        return Answer(Unknown, "owner recovery evidence unavailable"), None, false;
      }
      if out.value.None? {
        EligibleIff(p.identity, s, e);
        return eligibility.value, None, false;
      }
      read, first := Some(w2), p !in w1.journals;
      v := Settle(p, out.value.value, s, binding.subject, inputs, w2, {});
      SinceTrans(cfg, w1, w2, View(), {});
    }

    /**
     resolve: the answer for one identity, with the caller's arguments or none. A reply that accepts names a
     materialized operation, and a definite negative means a durable seal. The first journal this call may write, the
     answer of an identity decided before, and what an uninterrupted call owes are what Concludes says. Uninterrupted,
     only an epoch this owner does not know, evidence about an earlier attempt, or work the store cannot hold leaves the
     answer unknown.
     */
    method Resolve(scope: string, id: RequestIdentity, s: Option<Submission>, shown: StoredLabel, binding: Binding, inputs: Inputs)
      returns (v: AcceptanceResult, ghost first: bool)
      requires Valid() && InputsOk(cfg, inputs) && inputs.newId !in ids && inputs.rerunId !in ids
      requires scope != "" && |scope| <= MAX_SCOPE_BYTES
      requires s.Some? ==> s.value.identity == id && ValidSpec(cfg, s.value)
      requires NormalizeLabel(shown.text) == Some(shown.text) && (shown.derived ==> shown.text != "")
      modifies this
      ensures Valid() && Since(cfg, old(View()), View(), {})
      ensures v.outcome.Accepted? ==> v.receipt.Some? && Answerable(View(), Path(scope, id), s, v.receipt.value.operationId)
      ensures v.outcome.DefinitelyNotAccepted? ==> IsSealed(View(), Path(scope, id))
      ensures decided == if first then old(decided) + {Path(scope, id)} else old(decided)
      ensures Concludes(cfg, inputs, old(View()), View(), Path(scope, id), s, shown, binding, v, first)
      ensures Clean(inputs, id.attempt) && v.outcome.Unknown? ==>
                id.historyEpoch != cfg.epoch || id.attempt > 0 || Stuck(cfg, View(), Path(scope, id))
    {
      ghost var p := Path(scope, id);
      ghost var w0 := View();
      SinceRefl(cfg, w0, {});
      KnownPath(cfg, w0, p);
      first := false;
      if id.key == "" || |id.key| > 1024 || id.historyEpoch == "" || id.attempt < 0 {
        v := Answer(InvalidInput, "request identity required");
        UnreadConcludes(cfg, inputs, w0, w0, p, s, shown, binding, v);
      } else if id.historyEpoch != cfg.epoch {
        v := Answer(Unknown, "history epoch unavailable");
        UnreadConcludes(cfg, inputs, w0, w0, p, s, shown, binding, v);
      } else {
        v, first := Answered(Path(scope, id), s, shown, binding, inputs);
      }
    }

    /** The reply leaves. */
    method Say(p: Path, v: AcceptanceResult, ghost s: Option<Submission>)
      requires Valid()
      requires v.outcome.Accepted? ==> v.receipt.Some? && Answerable(View(), p, s, v.receipt.value.operationId)
      requires v.outcome.DefinitelyNotAccepted? ==> IsSealed(View(), p)
      modifies this`replies
      ensures Valid() && Since(cfg, old(View()), View(), {})
      ensures Said(p, v) in replies && View() == old(View()).(replies := replies)
    {
      SinceStep(cfg, View(), Action.Say(Said(p, v)), {});
      replies := replies + {Said(p, v)};
    }

    /** Submit: the label leaves the arguments, and the reply says what Concludes says of the submission. */
    method Submit(s: Submission, binding: Binding, inputs: Inputs) returns (v: AcceptanceResult, ghost first: bool)
      requires Valid() && InputsOk(cfg, inputs) && inputs.newId !in ids && inputs.rerunId !in ids
      requires |binding.scope| <= MAX_SCOPE_BYTES
      modifies this
      ensures Valid() && Since(cfg, old(View()), View(), {})
      ensures Said(Path(binding.scope, s.identity), v) in replies
      ensures v.outcome.Accepted? ==> v.receipt.Some? && Answerable(View(), Path(binding.scope, s.identity), Some(s), v.receipt.value.operationId)
      ensures v.outcome.DefinitelyNotAccepted? ==> IsSealed(View(), Path(binding.scope, s.identity))
      ensures decided == if first then old(decided) + {Path(binding.scope, s.identity)} else old(decided)
      ensures if binding.scope == "" then v.outcome.Forbidden? && !first
              else if !ValidSpec(cfg, s) then v.outcome.InvalidInput? && !first
              else Concludes(cfg, inputs, old(View()), View(), Path(binding.scope, s.identity), Some(s), ShownLabel(s, inputs),
                             binding, v, first)
    {
      ghost var w0 := View();
      v, first := Heed(s, binding, inputs);
      ghost var w1 := View();
      Say(Path(binding.scope, s.identity), v, Some(s));
      if binding.scope != "" && ValidSpec(cfg, s) {
        ConcludesSaid(cfg, inputs, w0, w1, Path(binding.scope, s.identity), Some(s), ShownLabel(s, inputs), binding, v, first, replies);
      }
      SinceTrans(cfg, w0, w1, View(), {});
    }

    /** The answer to a submission, before it leaves. */
    method Heed(s: Submission, binding: Binding, inputs: Inputs) returns (v: AcceptanceResult, ghost first: bool)
      requires Valid() && InputsOk(cfg, inputs) && inputs.newId !in ids && inputs.rerunId !in ids
      requires |binding.scope| <= MAX_SCOPE_BYTES
      modifies this
      ensures Valid() && Since(cfg, old(View()), View(), {})
      ensures v.outcome.Accepted? ==> v.receipt.Some? && Answerable(View(), Path(binding.scope, s.identity), Some(s), v.receipt.value.operationId)
      ensures v.outcome.DefinitelyNotAccepted? ==> IsSealed(View(), Path(binding.scope, s.identity))
      ensures decided == if first then old(decided) + {Path(binding.scope, s.identity)} else old(decided)
      ensures if binding.scope == "" then v.outcome.Forbidden? && !first
              else if !ValidSpec(cfg, s) then v.outcome.InvalidInput? && !first
              else Concludes(cfg, inputs, old(View()), View(), Path(binding.scope, s.identity), Some(s), ShownLabel(s, inputs),
                             binding, v, first)
    {
      var p := Path(binding.scope, s.identity);
      ghost var w0 := View();
      SinceRefl(cfg, w0, {});
      first := false;
      if binding.scope == "" {
        v := Answer(Forbidden, "caller not authorized");
      } else if !ValidSpec(cfg, s) {
        v := Answer(InvalidInput, "invalid or oversized job submission");
      } else {
        ClearedSpec(cfg, s);
        v, first := Resolve(binding.scope, s.identity, Some(s.(displayLabel := "")), ShownLabel(s, inputs), binding, inputs);
        ConcludesCleared(cfg, inputs, w0, View(), p, s, ShownLabel(s, inputs), binding, v, first);
      }
    }

    /** Reconcile: with no arguments to accept, it seals an identity nobody decided. */
    method Reconcile(scope: string, id: RequestIdentity, inputs: Inputs) returns (v: AcceptanceResult, ghost first: bool)
      requires Valid() && InputsOk(cfg, inputs) && inputs.newId !in ids && inputs.rerunId !in ids
      requires |scope| <= MAX_SCOPE_BYTES
      modifies this
      ensures Valid() && Since(cfg, old(View()), View(), {})
      ensures Said(Path(scope, id), v) in replies
      ensures v.outcome.Accepted? ==> v.receipt.Some? && Answerable(View(), Path(scope, id), None, v.receipt.value.operationId)
      ensures v.outcome.DefinitelyNotAccepted? ==> IsSealed(View(), Path(scope, id))
      ensures decided == if first then old(decided) + {Path(scope, id)} else old(decided)
      ensures if scope == "" then v.outcome.Forbidden? && !first
              else Concludes(cfg, inputs, old(View()), View(), Path(scope, id), None, NoLabel(), Binding(scope, None), v, first)
    {
      ghost var w0 := View();
      SinceRefl(cfg, w0, {});
      first := false;
      if scope == "" {
        v := Answer(Forbidden, "caller not authorized");
      } else {
        v, first := Resolve(scope, id, None, NoLabel(), Binding(scope, None), inputs);
      }
      ghost var w1 := View();
      Say(Path(scope, id), v, None);
      if scope != "" {
        ConcludesSaid(cfg, inputs, w0, w1, Path(scope, id), None, NoLabel(), Binding(scope, None), v, first, replies);
      }
      SinceTrans(cfg, w0, w1, View(), {});
    }

    // ----- Control and observation -----

    method SetCancel(id: string, asker: string, now: Time) returns (done: Result<Record>)
      requires Valid() && id in jobs
      modifies this`jobs
      ensures Valid() && Since(cfg, old(View()), View(), {})
      ensures done == if Decodable(cfg, old(jobs[id])) then Changed(old(jobs[id]), (r: Record) => Intended(r, WantCancel, asker, now))
                      else Err(Invalid)
      ensures done.Ok? || done == Err(TerminalJob) || (!Decodable(cfg, old(jobs[id])) && jobs == old(jobs))
      ensures jobs == if done.Ok? then old(jobs)[id := Stored(done.value)] else old(jobs)
    {
      SinceRefl(cfg, View(), {});
      if !Decodable(cfg, jobs[id]) {
        return Err(Invalid);
      }
      RecordValid(cfg, View(), id);
      IntentRefused(jobs[id], asker, now);
      IntentEnabled(cfg, View(), id, asker, now);
      SinceStep(cfg, View(), JobOp(id, OpIntent(WantCancel, asker, now)), {});
      done := PerformFile(OpIntent(WantCancel, asker, now), jobs[id]);
      if done.Ok? {
        jobs := jobs[id := Stored(done.value)];
      }
    }

    /**
     CancelWork: an answer other than unknown is about an operation this identity was accepted with. Uninterrupted, an
     accepted identity's cancellation is unknown only if recovery failed when the call asked for its acceptance, or its
     record does not decode.
     */
    method CancelWork(scope: string, id: RequestIdentity, inputs: Inputs)
      returns (out: CancelOutcome, ghost operation: string, ghost asked: World)
      requires Valid() && InputsOk(cfg, inputs) && inputs.newId !in ids && inputs.rerunId !in ids
      requires |scope| <= MAX_SCOPE_BYTES
      modifies this
      ensures Valid() && Since(cfg, old(View()), asked, {}) && Since(cfg, asked, View(), {})
      ensures scope == "" <==> out.CancelForbidden?
      ensures out.Requested? || out.AlreadyTerminal? ==> Answerable(View(), Path(scope, id), None, operation)
      ensures out.Requested? ==>
                jobs[operation].intent == Some(Intent(WantCancel, scope, At(inputs.now))) && !jobs[operation].state.Terminal()
      ensures out.AlreadyTerminal? ==> jobs[operation].state.Terminal()
      ensures scope != "" && IsLive(old(View()), Path(scope, id)) && Clean(inputs, id.attempt) && out.CancelUnknown? ==>
                Stuck(cfg, asked, Path(scope, id)) || (operation in jobs && !Decodable(cfg, jobs[operation]))
    {
      ghost var w0 := View();
      SinceRefl(cfg, w0, {});
      operation, asked := "", w0;
      if scope == "" {
        return CancelForbidden, operation, asked;
      }
      var v;
      ghost var first;
      v, first := Reconcile(scope, id, inputs);
      asked := View();
      SinceRefl(cfg, asked, {});
      ReconcileAccepts(cfg, inputs, w0, asked, Path(scope, id), v, first);
      if !v.outcome.Accepted? {
        return CancelUnknown, operation, asked;
      }
      operation := v.receipt.value.operationId;
      out := CancelOperation(Path(scope, id), v.receipt.value.operationId, inputs.now);
    }

    /** The intent to cancel, set on an accepted operation some time later. */
    method CancelOperation(p: Path, operation: string, now: Time) returns (out: CancelOutcome)
      requires Valid() && Answerable(View(), p, None, operation)
      modifies this
      ensures Valid() && Since(cfg, old(View()), View(), {}) && Answerable(View(), p, None, operation)
      ensures out in {Requested, AlreadyTerminal, CancelUnknown}
      ensures out.Requested? ==>
                jobs[operation].intent == Some(Intent(WantCancel, p.scope, At(now))) && !jobs[operation].state.Terminal()
      ensures out.AlreadyTerminal? ==> jobs[operation].state.Terminal()
      ensures out.CancelUnknown? ==> !Decodable(cfg, jobs[operation])
    {
      ghost var w1 := View();
      Interference({});
      ghost var w2 := View();
      AnswerableSince(cfg, w1, w2, {}, p, None, operation);
      var done := SetCancel(operation, p.scope, now);
      SinceTrans(cfg, w1, w2, View(), {});
      out := if done == Err(TerminalJob) then AlreadyTerminal else if done.Err? then CancelUnknown else Requested;
    }

    /**
     operation: observes existing evidence. It may finish a prepared admission, and it never decides an identity.
     Uninterrupted, a sealed identity is answered as not accepted, and an accepted one is observed unless recovery fails
     as things stand or it names another operation by now.
     */
    method Observe(scope: string, id: RequestIdentity, inputs: Inputs)
      returns (out: Observation, seen: Option<(Journal, Record)>)
      requires Valid()
      modifies this
      ensures Valid() && Since(cfg, old(View()), View(), {}) && decided == old(decided)
      ensures scope == "" <==> out.ObserveForbidden?
      ensures out.NotAccepted? ==> IsSealed(View(), Path(scope, id))
      ensures out.Observed? <==> seen.Some?
      ensures seen.Some? ==> seen.value.0.Live? && Matches(cfg, seen.value.0, seen.value.1)
                             && Answerable(View(), Path(scope, id), None, seen.value.1.id) && jobs[seen.value.1.id] == seen.value.1
      ensures IsSealed(old(View()), Path(scope, id)) && |id.historyEpoch| <= 1024 && inputs.io("journal", id.attempt) ==> out.NotAccepted?
      ensures IsLive(old(View()), Path(scope, id)) && |id.historyEpoch| <= 1024 && inputs.io("journal", id.attempt)
              && Unhindered(inputs) && !out.Observed? ==>
                || Stuck(cfg, View(), Path(scope, id))
                || (IsLive(View(), Path(scope, id))
                    && Operation(journals[Path(scope, id)]) != Operation(old(journals[Path(scope, id)])))
    {
      ghost var w0 := View();
      SinceRefl(cfg, w0, {});
      KnownPath(cfg, w0, Path(scope, id));
      seen := None;
      if scope == "" {
        return ObserveForbidden, None;
      }
      if id.key == "" || id.historyEpoch == "" || |id.key| > 1024 || |id.historyEpoch| > 1024 {
        return ObserveInvalid, None;
      }
      if id.historyEpoch != cfg.epoch || !inputs.io("journal", id.attempt) || Path(scope, id) !in journals {
        return ObserveUnknown, None;
      }
      out, seen := ObserveJournal(Path(scope, id), inputs);
    }

    /** The observation of an identity that has a journal. */
    method ObserveJournal(p: Path, inputs: Inputs) returns (out: Observation, seen: Option<(Journal, Record)>)
      requires Valid() && p in journals
      modifies this
      ensures Valid() && Since(cfg, old(View()), View(), {}) && decided == old(decided)
      ensures out in {Observed, NotAccepted, ObserveUnknown}
      ensures out.NotAccepted? <==> IsSealed(old(View()), p)
      ensures out.NotAccepted? ==> IsSealed(View(), p)
      ensures out.Observed? <==> seen.Some?
      ensures seen.Some? ==> seen.value.0.Live? && Matches(cfg, seen.value.0, seen.value.1)
                             && Answerable(View(), p, None, seen.value.1.id) && jobs[seen.value.1.id] == seen.value.1
      ensures out.ObserveUnknown? && Unhindered(inputs) ==>
                Stuck(cfg, View(), p) || (IsLive(View(), p) && Operation(journals[p]) != Operation(old(journals[p])))
    {
      ghost var w0 := View();
      SinceRefl(cfg, w0, {});
      JournalRecorded(cfg, w0, p);
      if !Legible(p) {
        assert Blocks(cfg, w0, p, Undecodable);
        return ObserveUnknown, None;
      }
      var j := journals[p];
      if j.Sealed? {
        return NotAccepted, None;
      }
      var ok := true;
      if !j.published {
        Interference({});
        ghost var w2 := View();
        RetainedSince(cfg, w0, w2, {}, p);
        ok := Materialize(p, inputs, {p}, false, {});
        SinceTrans(cfg, w0, w2, View(), {});
      }
      out, seen := ObserveUnknown, None;
      if ok {
        out, seen := Look(p, j, inputs, w0, View());
      }
    }

    /** The record behind a journal read at w0 and published by w1, if it is still the one the journal names. */
    method Look(p: Path, j: Journal, inputs: Inputs, ghost w0: World, ghost w1: World)
      returns (out: Observation, seen: Option<(Journal, Record)>)
      requires Valid() && Reachable(cfg, w0) && Since(cfg, w0, w1, {}) && w1 == View()
      requires IsLive(w0, p) && w0.journals[p] == j && IsLive(w1, p) && w1.journals[p].published
      modifies this
      ensures Valid() && Since(cfg, w0, View(), {}) && decided == old(decided)
      ensures out.Observed? || out.ObserveUnknown?
      ensures out.Observed? <==> seen.Some?
      ensures seen.Some? ==> seen.value.0 == j && Matches(cfg, j, seen.value.1)
                             && Answerable(View(), p, None, seen.value.1.id) && jobs[seen.value.1.id] == seen.value.1
      ensures out.ObserveUnknown? ==>
                Stuck(cfg, View(), p) || (IsLive(View(), p) && Operation(journals[p]) != Operation(j))
    {
      MaterializedStays(cfg, w0, w1, {}, p);
      Interference({});
      ghost var w2 := View();
      SinceTrans(cfg, w0, w1, w2, {});
      AnswerableSince(cfg, w1, w2, {}, p, None, Operation(j));
      var r := LoadOperationRecord(Operation(j));
      if r.Err? || !Matches(cfg, j, r.value) {
        UnobservedIsStuck(cfg, w0, w2, {}, p);
        return ObserveUnknown, None;
      }
      out, seen := Observed, Some((j, r.value));
    }

    /** recordResultLost, for a published journal whose operation was seen complete when the world was w0. */
    method RecordResultLost(p: Path, inputs: Inputs, ghost w0: World) returns (ok: bool)
      requires Valid() && Reachable(cfg, w0) && Since(cfg, w0, View(), {})
      requires IsLive(w0, p) && w0.journals[p].published && Operation(w0.journals[p]) in w0.jobs
      requires w0.jobs[Operation(w0.journals[p])].state.Complete? && !Blocks(cfg, w0, p, Undecodable)
      modifies this
      ensures Valid() && Since(cfg, old(View()), View(), {}) && decided == old(decided)
      ensures ok ==> IsLive(View(), p) && journals[p].lost && Operation(journals[p]) == Operation(w0.journals[p])
      ensures inputs.io("owner.json", 0) && inputs.io("journal", p.identity.attempt) ==> ok
    {
      ghost var w1 := View();
      ok := ListLost(p, inputs, w0);
      if ok {
        ghost var w2 := View();
        ok := MarkLost(p, inputs);
        SinceTrans(cfg, w1, w2, View(), {});
      }
    }

    /** The flag, set under the journal's lock unless it is set already. */
    method MarkLost(p: Path, inputs: Inputs) returns (ok: bool)
      requires Valid() && IsLive(View(), p) && !Blocks(cfg, View(), p, Undecodable)
      requires journals[p].published && ResultLostFeature in View().marked
      requires Operation(journals[p]) in jobs && jobs[Operation(journals[p])].state.Complete?
      modifies this`journals
      ensures Valid() && Since(cfg, old(View()), View(), {})
      ensures IsLive(View(), p) && Operation(journals[p]) == old(Operation(journals[p]))
      ensures ok <==> inputs.io("journal", p.identity.attempt)
      ensures ok ==> journals[p].lost
    {
      SinceRefl(cfg, View(), {});
      JournalRecorded(cfg, View(), p);
      ok := inputs.io("journal", p.identity.attempt) && Legible(p);
      if ok && !journals[p].lost {
        WriteLost(p);
      }
    }

    /** The storage feature; the journal meanwhile stays as it was seen. */
    method ListLost(p: Path, inputs: Inputs, ghost w0: World) returns (ok: bool)
      requires Valid() && Reachable(cfg, w0) && Since(cfg, w0, View(), {})
      requires IsLive(w0, p) && w0.journals[p].published && Operation(w0.journals[p]) in w0.jobs
      requires w0.jobs[Operation(w0.journals[p])].state.Complete? && !Blocks(cfg, w0, p, Undecodable)
      modifies this
      ensures Valid() && Since(cfg, old(View()), View(), {}) && decided == old(decided)
      ensures ok ==> ResultLostFeature in View().marked
      ensures inputs.io("owner.json", 0) ==> ok
      ensures IsLive(View(), p) && journals[p].published && Operation(journals[p]) == Operation(w0.journals[p])
      ensures !Blocks(cfg, View(), p, Undecodable)
      ensures Operation(journals[p]) in jobs && jobs[Operation(journals[p])].state.Complete?
    {
      ghost var w1 := View();
      ok := EnsureFeature(ResultLostFeature, inputs, {});
      SinceTrans(cfg, w0, w1, View(), {});
      CompleteDecodes(cfg, w0, View(), {}, p);
    }

    method WriteLost(p: Path)
      requires Valid() && IsLive(View(), p) && Legible(p) && journals[p].published && ResultLostFeature in View().marked
      requires Operation(journals[p]) in jobs && jobs[Operation(journals[p])].state.Complete?
      modifies this`journals
      ensures Valid() && Since(cfg, old(View()), View(), {})
      ensures journals == old(journals)[p := old(journals[p]).(lost := true)]
    {
      LostStep(cfg, View(), p);
      journals := journals[p := journals[p].(lost := true)];
    }

    // ----- Opening -----

    /** A new process over the same root: what it remembered is gone. */
    method Restart()
      requires Valid()
      modifies this`features, this`atOpen, this`subjects
      ensures Valid() && Since(cfg, old(View()), View(), {})
      ensures features == {} && atOpen == header && subjects == map[]
    {
      ghost var w := View();
      MarkedIsListed(cfg, w);
      LeadsStep(cfg, w, Action.Restart);
      ReachableLeads(cfg, w, Apply(cfg, w, Action.Restart));
      features, atOpen, subjects := {}, header, map[];
      assert features + atOpen == header;
    }

    method OpenOne(p: Path, inputs: Inputs, ghost locked: set<Path>, ghost quiet: bool) returns (ok: bool)
      requires Valid() && p in journals && p in locked
      modifies this
      ensures Valid() && Since(cfg, old(View()), View(), {}) && decided == old(decided)
      ensures AllRecovered(old(View()), View(), locked)
      ensures ok ==> Opened(View(), p) && !Stuck(cfg, View(), p)
      ensures Unhindered(inputs) && !ok ==> Stuck(cfg, View(), p)
      ensures quiet ==> if p in journals && journals[p].Live? then OnlyRecord(old(jobs), jobs, Operation(journals[p]))
                        else jobs == old(jobs)
      ensures quiet && Unhindered(inputs) ==> FaresAlike(cfg, old(View()), View(), p)
    {
      ghost var w0 := View();
      SinceRefl(cfg, w0, {});
      JournalRecorded(cfg, w0, p);
      if Legible(p) {
        IndexOne(p);
        ghost var w1 := View();
        SameFare(cfg, w0, w1, p);
        ok := Materialize(p, inputs, locked, quiet, {});
        SinceTrans(cfg, w0, w1, View(), {});
      } else {
        ok := false;
        assert Blocks(cfg, w0, p, Undecodable);
      }
    }

    method IndexOne(p: Path)
      requires Valid() && p in journals
      modifies this`subjects
      ensures Valid() && Since(cfg, old(View()), View(), {})
    {
      if journals[p].Live? {
        JournalNamed(cfg, View(), p);
      }
      var indexed := IndexJournal(p, journals[p], {});
    }

    /**
     open's recovery loop over the directory `entries`. On success every accepted identity is published over a record that
     carries its work. Uninterrupted, a failure names an identity whose recovery fails as things stand; and if nobody else
     writes a record meanwhile, opening succeeds exactly when every accepted journal of the directory is recoverable.
     */
    method Open(entries: seq<Path>, inputs: Inputs, ghost quiet: bool) returns (ok: bool, ghost failed: Path)
      requires Valid() && forall p :: p in entries <==> p in journals
      modifies this
      ensures Valid() && Since(cfg, old(View()), View(), {}) && decided == old(decided)
      ensures AllRecovered(old(View()), View(), old(journals).Keys)
      ensures ok ==> forall p | IsLive(old(View()), p) :: IsLive(View(), p) && Published(cfg, View(), p)
      ensures Unhindered(inputs) && !ok ==> failed in old(journals) && Stuck(cfg, View(), failed)
      ensures Unhindered(inputs) && quiet ==>
                (ok <==> forall p | p in old(journals) :: !Stuck(cfg, old(View()), p))
    {
      ghost var w0 := View();
      ghost var locked := journals.Keys;
      ghost var exact := Unhindered(inputs) && quiet;
      Restart();
      NothingOpened(cfg, w0, View(), locked, exact);
      ghost var w1 := View();
      ok, failed := OpenAll(entries, inputs, w0, locked, quiet);
      SinceTrans(cfg, w0, w1, View(), {});
      if ok {
        WholeDirectory(cfg, w0, View(), locked, entries, exact);
      }
    }

    /** The loop over the directory w0. */
    method OpenAll(entries: seq<Path>, inputs: Inputs, ghost w0: World, ghost locked: set<Path>, ghost quiet: bool)
      returns (ok: bool, ghost failed: Path)
      requires Valid() && locked == w0.journals.Keys && forall p :: p in entries <==> p in locked
      requires OpenedSoFar(cfg, w0, View(), locked, [], Unhindered(inputs) && quiet)
      modifies this
      ensures Valid() && Since(cfg, old(View()), View(), {}) && decided == old(decided)
      ensures AllRecovered(w0, View(), locked)
      ensures ok ==> OpenedSoFar(cfg, w0, View(), locked, entries, Unhindered(inputs) && quiet)
      ensures Unhindered(inputs) && !ok ==> failed in locked && Stuck(cfg, View(), failed)
      ensures Unhindered(inputs) && quiet && !ok ==> Stuck(cfg, w0, failed)
    {
      ghost var start := View();
      ghost var exact := Unhindered(inputs) && quiet;
      SinceRefl(cfg, start, {});
      failed := Path("", RequestIdentity("", "", 0));
      for i := 0 to |entries|
        invariant Valid() && Since(cfg, start, View(), {}) && decided == old(decided)
        invariant OpenedSoFar(cfg, w0, View(), locked, entries[..i], exact)
      {
        ghost var w1 := View();
        ok := OpenNext(entries, i, inputs, w0, locked, quiet);
        SinceTrans(cfg, start, w1, View(), {});
        if !ok {
          failed := entries[i];
          return;
        }
      }
      ok := true;
      assert entries[..|entries|] == entries;
    }

    method OpenNext(entries: seq<Path>, i: nat, inputs: Inputs, ghost w0: World, ghost locked: set<Path>, ghost quiet: bool)
      returns (ok: bool)
      requires Valid() && locked == w0.journals.Keys && (forall p | p in entries :: p in locked) && i < |entries|
      requires OpenedSoFar(cfg, w0, View(), locked, entries[..i], Unhindered(inputs) && quiet)
      modifies this
      ensures Valid() && Since(cfg, old(View()), View(), {}) && decided == old(decided)
      ensures AllRecovered(w0, View(), locked)
      ensures ok ==> OpenedSoFar(cfg, w0, View(), locked, entries[..i + 1], Unhindered(inputs) && quiet)
      ensures Unhindered(inputs) && !ok ==> Stuck(cfg, View(), entries[i])
      ensures Unhindered(inputs) && quiet && !ok ==> Stuck(cfg, w0, entries[i])
    {
      ghost var w1 := View();
      assert entries[i] in entries;
      ok := OpenOne(entries[i], inputs, locked, quiet);
      OneMoreOpened(cfg, w0, w1, View(), locked, entries[..i], entries[i], Unhindered(inputs) && quiet);
      assert entries[..i + 1] == entries[..i] + [entries[i]];
    }
  }
}
