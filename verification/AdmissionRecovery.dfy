/** Recovery over whole runs: exactly which changes leave an identity whose recovery fails. */
module AdmissionRecovery {
  import opened Options
  import opened JobRecord
  import opened Decision
  import opened LeaseProtocol
  import opened FileBinding
  import opened Admission
  import opened AdmissionSteps
  import opened AdmissionRuns
  import opened ProviderFacts

  /** Opening would succeed: no identity's recovery fails as things stand. */
  ghost predicate NoneStuck(cfg: Config, w: World) {
    forall p :: !Stuck(cfg, w, p)
  }

  /** Some identity names this operation now. */
  ghost predicate NamedNow(w: World, id: string) {
    exists p :: IsLive(w, p) && Operation(w.journals[p]) == id
  }

  /** What the change must respect, all of it there to be looked up before: an accepted journal's record can be stored; a
      re-run is prepared as the retained request would be; and a write to a job that an identity names leaves a record that
      loads, its spec spelled as before. */
  ghost predicate Heedful(cfg: Config, w: World, a: Action)
    requires Enabled(cfg, w, a)
  {
    match a
    case Decide(p, j) => j.Live? ==> Storable(cfg, j)
    case Rerun(p, operation, s, subject) =>
      Storable(cfg, RerunJournal(cfg, p, w.journals[p], operation, s, subject)) && PreparedAlike(cfg, p, w.journals[p], operation, s, subject)
    case JobOp(id, op) =>
      PerformFile(op, w.jobs[id]).Ok? && NamedNow(w, id) ==> WellWritten(cfg, w.jobs[id], Stored(PerformFile(op, w.jobs[id]).value))
    case _ => true
  }

  predicate PreparedAlike(cfg: Config, p: Path, j: Journal, operation: string, s: Submission, subject: Option<string>)
    requires j.Live?
  {
    cfg.executor.Some? ==>
      var prepare := cfg.executor.value.prepare;
      prepare(Binding(p.scope, subject), operation, TaskOf(s)) == prepare(Binding(p.scope, j.subject), operation, TaskOf(j.arguments))
  }

  predicate WellWritten(cfg: Config, r: Record, s: Record) {
    Readable(cfg, s) && s.spec == r.spec
  }

  /** The same subject presenting the same extra guarantees in the same order is prepared alike by every executor. */
  lemma SameRequestIsPreparedAlike(cfg: Config, p: Path, j: Journal, operation: string, s: Submission, subject: Option<string>)
    requires j.Live? && SameAs(s, j.arguments)
    requires subject == j.subject && Extra(s.requiredGuarantees) == Extra(j.arguments.requiredGuarantees)
    ensures PreparedAlike(cfg, p, j, operation, s, subject)
  {
    assert TaskOf(s) == TaskOf(j.arguments);
  }

  // ----- How one change leaves everybody -----

  lemma SameForAll(cfg: Config, w: World, v: World)
    requires v.journals == w.journals && v.jobs == w.jobs
    ensures NoneStuck(cfg, v) <==> NoneStuck(cfg, w)
  {
    forall q ensures Stuck(cfg, v, q) <==> Stuck(cfg, w, q) {
      if q in w.journals {
        SameFare(cfg, w, v, q);
      }
    }
  }

  /** A journal for x that names a new operation: everybody else fares as before. */
  lemma NewNameFares(cfg: Config, w: World, v: World, x: Path)
    requires NamedNew(w, v, x) && NoneStuck(cfg, w)
    ensures NoneStuck(cfg, v) <==> WorkAgrees(cfg, x, v.journals[x]) && Storable(cfg, v.journals[x])
  {
    forall q | q != x ensures !Stuck(cfg, v, q) {
      if q in w.journals {
        SameFare(cfg, w, v, q);
      }
    }
    NewNameTrouble(cfg, v, x);
  }

  lemma NewNameTrouble(cfg: Config, v: World, x: Path)
    requires IsLive(v, x) && Operation(v.journals[x]) !in v.jobs
    ensures Stuck(cfg, v, x) <==> !WorkAgrees(cfg, x, v.journals[x]) || !Storable(cfg, v.journals[x])
  {
    assert Blocks(cfg, v, x, Undecodable) <==> !WorkAgrees(cfg, x, v.journals[x]);
    assert Blocks(cfg, v, x, Unstorable) <==> !Storable(cfg, v.journals[x]);
    assert !Blocks(cfg, v, x, Unloadable) && !Blocks(cfg, v, x, Mismatched);
  }

  /** A seal is never stuck. */
  lemma SealFares(cfg: Config, w: World, v: World, x: Path)
    requires x !in w.journals && x in v.journals && v.journals[x].Sealed?
    requires v.journals == w.journals[x := v.journals[x]] && v.jobs == w.jobs && NoneStuck(cfg, w)
    ensures NoneStuck(cfg, v)
  {
    forall q ensures !Stuck(cfg, v, q) {
      if q in w.journals {
        SameFare(cfg, w, v, q);
      }
    }
  }

  /** Publishing a journal, or marking its result lost, does not decide how it fares. */
  lemma RefinedFares(cfg: Config, w: World, v: World, x: Path)
    requires IsLive(w, x) && IsLive(v, x) && Refined(w.journals[x], v.journals[x])
    requires v.journals == w.journals[x := v.journals[x]] && v.jobs == w.jobs && NoneStuck(cfg, w)
    ensures NoneStuck(cfg, v)
  {
    forall q ensures !Stuck(cfg, v, q) {
      if q == x {
        RefinedTrouble(cfg, w, v, x);
      } else if q in w.journals {
        SameFare(cfg, w, v, q);
      }
    }
  }

  lemma RefinedTrouble(cfg: Config, w: World, v: World, x: Path)
    requires IsLive(w, x) && IsLive(v, x) && Refined(w.journals[x], v.journals[x]) && v.jobs == w.jobs && !Stuck(cfg, w, x)
    ensures !Stuck(cfg, v, x)
  {
    forall why ensures !Blocks(cfg, v, x, why) {
      assert !Blocks(cfg, w, x, why);
      assert Proposal(cfg, v.journals[x]) == Proposal(cfg, w.journals[x]);
    }
  }

  lemma InsertFares(cfg: Config, w: World, p: Path, now: Time)
    requires Reachable(cfg, w) && NoneStuck(cfg, w) && IsLive(w, p) && Operation(w.journals[p]) !in w.jobs
    requires Proposed(Proposal(cfg, w.journals[p]), Operation(w.journals[p]), now).Valid()
    ensures NoneStuck(cfg, Inserting(cfg, w, p, now))
  {
    var v := Inserting(cfg, w, p, now);
    InsertedFares(cfg, w, v, p, now);
    forall q ensures !Stuck(cfg, v, q) {
      if IsLive(w, q) && q != p {
        DistinctOperations(cfg, w, p, q);
      }
      if q in w.journals && q != p {
        SameFare(cfg, w, v, q);
      }
    }
  }

  /** A record overwritten: its identity, if one names it, fares well exactly when what was written loads and matches. */
  lemma WriteFares(cfg: Config, w: World, v: World, id: string)
    requires id in w.jobs && id in v.jobs && v.journals == w.journals && v.jobs == w.jobs[id := v.jobs[id]]
    requires JobLater(w.jobs[id], v.jobs[id]) && NoneStuck(cfg, w)
    ensures NoneStuck(cfg, v) <==> (NamedNow(w, id) ==> WellWritten(cfg, w.jobs[id], v.jobs[id]))
  {
    forall q ensures Stuck(cfg, v, q) <==>
                     IsLive(w, q) && Operation(w.journals[q]) == id && !WellWritten(cfg, w.jobs[id], v.jobs[id])
    {
      if IsLive(w, q) && Operation(w.journals[q]) == id {
        OverwrittenFares(cfg, w, v, id, q);
      } else if q in w.journals {
        SameFare(cfg, w, v, q);
      }
    }
  }

  lemma OverwrittenFares(cfg: Config, w: World, v: World, id: string, q: Path)
    requires id in w.jobs && id in v.jobs && v.journals == w.journals && JobLater(w.jobs[id], v.jobs[id])
    requires IsLive(w, q) && Operation(w.journals[q]) == id && !Stuck(cfg, w, q)
    ensures Stuck(cfg, v, q) <==> !WellWritten(cfg, w.jobs[id], v.jobs[id])
  {
    NoTrouble(cfg, w, q);
    assert Blocks(cfg, v, q, Unloadable) <==> !Readable(cfg, v.jobs[id]);
    assert Blocks(cfg, v, q, Mismatched) <==> v.jobs[id].spec != w.jobs[id].spec;
    assert !Blocks(cfg, v, q, Undecodable) && !Blocks(cfg, v, q, Unstorable);
  }

  // ----- Steps and runs -----

  lemma DecideFares(cfg: Config, w: World, p: Path, j: Journal)
    requires Reachable(cfg, w) && Enabled(cfg, w, Decide(p, j)) && NoneStuck(cfg, w)
    ensures NoneStuck(cfg, Apply(cfg, w, Decide(p, j))) <==> (j.Live? ==> Storable(cfg, j))
  {
    var v := Apply(cfg, w, Decide(p, j));
    if j.Live? {
      ReachableHolds(cfg, w);
      NamingChanges(cfg, w, Decide(p, j));
      NewNameFares(cfg, w, v, p);
    } else {
      SealFares(cfg, w, v, p);
    }
  }

  lemma RerunFares(cfg: Config, w: World, p: Path, operation: string, s: Submission, subject: Option<string>)
    requires Reachable(cfg, w) && Enabled(cfg, w, Rerun(p, operation, s, subject)) && NoneStuck(cfg, w)
    ensures NoneStuck(cfg, Apply(cfg, w, Rerun(p, operation, s, subject)))
            <==> && Storable(cfg, RerunJournal(cfg, p, w.journals[p], operation, s, subject))
                 && PreparedAlike(cfg, p, w.journals[p], operation, s, subject)
  {
    var a := Rerun(p, operation, s, subject);
    ReachableHolds(cfg, w);
    NamingChanges(cfg, w, a);
    NewNameFares(cfg, w, Apply(cfg, w, a), p);
    RerunAgreesIff(cfg, p, w.journals[p], operation, s, subject);
  }

  lemma RerunAgreesIff(cfg: Config, p: Path, j: Journal, operation: string, s: Submission, subject: Option<string>)
    requires j.Live? && !j.legacy && WorkAgrees(cfg, p, j)
    requires cfg.executor.Some? ==> cfg.executor.value.prepare(Binding(p.scope, subject), operation, TaskOf(s)).Some?
    ensures WorkAgrees(cfg, p, RerunJournal(cfg, p, j, operation, s, subject)) <==> PreparedAlike(cfg, p, j, operation, s, subject)
  {
  }

  lemma JobOpFares(cfg: Config, w: World, id: string, op: Op)
    requires Enabled(cfg, w, JobOp(id, op)) && NoneStuck(cfg, w)
    ensures NoneStuck(cfg, Apply(cfg, w, JobOp(id, op))) <==> Heedful(cfg, w, JobOp(id, op))
  {
    var v := Apply(cfg, w, JobOp(id, op));
    if PerformFile(op, w.jobs[id]).Ok? {
      OperationLater(op, w.jobs[id]);
      WriteFares(cfg, w, v, id);
    }
  }

  lemma OtherFares(cfg: Config, w: World, a: Action)
    requires Reachable(cfg, w) && Enabled(cfg, w, a) && NoneStuck(cfg, w)
    requires !a.Decide? && !a.Rerun? && !a.JobOp?
    ensures NoneStuck(cfg, Apply(cfg, w, a))
  {
    if a.Insert? {
      InsertFares(cfg, w, a.path, a.now);
    } else if a.Publish? || a.MarkLost? {
      RefinedFares(cfg, w, Apply(cfg, w, a), a.path);
    } else {
      SameForAll(cfg, w, Apply(cfg, w, a));
    }
  }

  /** One change leaves nobody stuck exactly when it is heedful. */
  lemma NoneStuckStepIff(cfg: Config, w: World, a: Action)
    requires Reachable(cfg, w) && Enabled(cfg, w, a) && NoneStuck(cfg, w)
    ensures NoneStuck(cfg, Apply(cfg, w, a)) <==> Heedful(cfg, w, a)
  {
    if a.Decide? {
      DecideFares(cfg, w, a.path, a.journal);
    } else if a.Rerun? {
      RerunFares(cfg, w, a.path, a.operation, a.submitted, a.subject);
    } else if a.JobOp? {
      JobOpFares(cfg, w, a.id, a.op);
    } else {
      OtherFares(cfg, w, a);
    }
  }

  ghost predicate NoneStuckThroughout(cfg: Config, w: World, run: seq<Action>)
    requires Run(cfg, w, run)
    decreases |run|
  {
    NoneStuck(cfg, w) && (run == [] || NoneStuckThroughout(cfg, Apply(cfg, w, run[0]), run[1..]))
  }

  ghost predicate HeedfulRun(cfg: Config, w: World, run: seq<Action>)
    requires Run(cfg, w, run)
    decreases |run|
  {
    run == [] || (Heedful(cfg, w, run[0]) && HeedfulRun(cfg, Apply(cfg, w, run[0]), run[1..]))
  }

  /** Over whole runs: at every moment an opening would succeed exactly when every change was heedful. Crashes, reopenings,
      materializations, lost results and refused operations never matter. */
  lemma {:induction false} NoneStuckRunIff(cfg: Config, w: World, run: seq<Action>)
    requires Reachable(cfg, w) && Run(cfg, w, run) && NoneStuck(cfg, w)
    ensures NoneStuckThroughout(cfg, w, run) <==> HeedfulRun(cfg, w, run)
    decreases |run|
  {
    if run != [] {
      NoneStuckStepIff(cfg, w, run[0]);
      LeadsStep(cfg, w, run[0]);
      ReachableLeads(cfg, w, Apply(cfg, w, run[0]));
      if NoneStuck(cfg, Apply(cfg, w, run[0])) {
        NoneStuckRunIff(cfg, Apply(cfg, w, run[0]), run[1..]);
      }
    }
  }

  /** From an empty root nobody is stuck to begin with. */
  lemma FreshRootIsClear(cfg: Config, run: seq<Action>)
    requires cfg.Valid() && Run(cfg, EMPTY, run)
    ensures NoneStuckThroughout(cfg, EMPTY, run) <==> HeedfulRun(cfg, EMPTY, run)
  {
    assert Initial(cfg, EMPTY);
    LeadsRefl(cfg, EMPTY);
    NoneStuckRunIff(cfg, EMPTY, run);
  }
}
