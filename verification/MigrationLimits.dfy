/** Two migrations that were finished and, repeated with the same mapping, are refused as conflicts. */
module MigrationLimits {
  import opened Options
  import opened JobRecord
  import opened Decision
  import opened Admission
  import opened AdmissionRuns
  import opened ProviderFacts
  import opened AdmissionLimits
  import opened Migration

  const CFG: Config := Setting(None)
  const ONLY: Assignment := Assignment("op-a", "digest", "alice", "key", "kind", "{}", XY)
  const PLAN: Plan := Plan([ONLY], "owner", "epoch")

  function Converted1(): Journal {
    Live(true, Request(ALICE, "{}", XY), Receipt(ALICE.identity, "owner", "op-a", OFFERED, 1), None, true, None, StoredLabel("", false),
         false)
  }

  lemma OnlyDecodes()
    ensures Decodes(CFG, {}, ALICE, Converted1())
  {
    var j := AcceptedJournal(CFG, ALICE, Binding("alice", None), Request(ALICE, "{}", XY), NoLabel(), OFFERED, None, "op-a");
    assert Decodes(CFG, {}, ALICE, j) by {
      RequestIsValid(CFG, ALICE, "{}", XY);
      AcceptsXY();
      AcceptedDecodes(CFG, {}, ALICE, Binding("alice", None), Request(ALICE, "{}", XY), NoLabel(), OFFERED, None, "op-a");
    }
    LegacyDecodes(CFG, ALICE, j);
  }

  /** Without an executor, a journal decodes alike whether an operator's mapping or a caller wrote it. */
  lemma LegacyDecodes(cfg: Config, p: Path, j: Journal)
    requires cfg.executor.None? && j.Live? && j.subject.None? && Decodes(cfg, {}, p, j)
    ensures Decodes(cfg, {}, p, j.(published := true, legacy := true))
  {
    assert Retained(p, j) == Retained(p, j.(published := true, legacy := true));
  }

  lemma OnlyIsWritten()
    ensures JournalOf(CFG, ONLY) == Some(Converted1())
  {
    OnlyDecodes();
    AcceptsXY();
  }

  function Finished(): Files {
    Files(Some(("owner", "epoch")), Some(PLAN), map[ALICE := Converted1()])
  }

  lemma FinishedIsSound()
    ensures Sound(CFG, Finished())
  {
    OnlyIsWritten();
    assert Owned(CFG, PLAN) == CFG && PathFor(ONLY, "epoch") == ALICE;
    assert IsOf(CFG, CFG.recoverable, PLAN, ALICE, Converted1(), PLAN.mapping[0]);
  }

  /** A finished migration, repeated while one of its guarantees is not on offer. */
  lemma WithdrawnConflicts() returns (f: Files, offered: seq<string>)
    ensures CFG.Valid() && Sound(CFG, f) && f.owner.Some? && OfferOk(CFG, offered)
    ensures Conflicts(CFG, offered, f, f.plan.value.mapping)
  {
    f, offered := Finished(), GUARANTEES;
    assert CFG.Valid() by { RequestIsValid(CFG, ALICE, "{}", XY); }
    FinishedIsSound();
    NoExtraInGuarantees();
    assert "x" in ONLY.guarantees && !OnOffer(offered, PLAN.mapping[0]);
    assert PathFor(PLAN.mapping[0], "epoch") == ALICE;
    ConflictIff(CFG, offered, f, PLAN.mapping);
  }

  // ----- After a service ran -----

  const DONE: Record := FRESH.(state := Complete, requires_ := [])

  function Records(): map<string, LegacyFile> {
    map["op-a" := Legacy(DONE)]
  }

  lemma RecordsAreBehind()
    ensures Read(Records()) && Backed(CFG, Finished().journals, Records())
  {
    JobsAreValid();
    assert Behind(CFG, Records(), Converted1());
  }

  function Losing(p: Path): seq<Action> {
    [AddFeature(ResultLostFeature), MarkLost(p)]
  }

  /** The two changes of a recorded loss, from a world that has not listed the feature yet. */
  lemma LosingRuns(cfg: Config, w: World, p: Path)
    requires IsLive(w, p) && Decodes(cfg, w.marked, p, w.journals[p]) && w.journals[p].published
    requires Operation(w.journals[p]) in w.jobs && w.jobs[Operation(w.journals[p])].state.Complete?
    ensures Run(cfg, w, Losing(p))
    ensures var v := End(cfg, w, Losing(p)); IsLive(v, p) && v.journals[p].lost
  {
    var v := Apply(cfg, w, AddFeature(ResultLostFeature));
    assert Losing(p)[1..] == [MarkLost(p)] && [MarkLost(p)][1..] == [];
    assert Run(cfg, Apply(cfg, v, MarkLost(p)), []);
    assert Run(cfg, v, [MarkLost(p)]) && End(cfg, v, [MarkLost(p)]) == Apply(cfg, v, MarkLost(p));
  }

  lemma LosingOnly()
    requires CFG.Valid()
    ensures Run(CFG, Converted(Finished(), Records()), Losing(ALICE))
    ensures var v := End(CFG, Converted(Finished(), Records()), Losing(ALICE)); IsLive(v, ALICE) && v.journals[ALICE].lost
  {
    var w := Converted(Finished(), Records());
    assert Decodes(CFG, w.marked, ALICE, w.journals[ALICE]) by { OnlyDecodes(); }
    LosingRuns(CFG, w, ALICE);
  }

  /** A finished migration whose service then marked one result lost, repeated with everything on offer. */
  lemma LostConflicts() returns (f: Files, jobs: map<string, LegacyFile>, run: seq<Action>)
    ensures CFG.Valid() && Sound(CFG, f) && f.owner.Some? && Owned(CFG, f.plan.value) == CFG
    ensures Read(jobs) && Backed(CFG, f.journals, jobs) && Run(CFG, Converted(f, jobs), run)
    ensures Conflicts(CFG, CFG.recoverable, f.(journals := End(CFG, Converted(f, jobs), run).journals), f.plan.value.mapping)
  {
    f, jobs, run := Finished(), Records(), Losing(ALICE);
    assert CFG.Valid() by { RequestIsValid(CFG, ALICE, "{}", XY); }
    FinishedIsSound();
    RecordsAreBehind();
    LosingOnly();
    assert PathFor(PLAN.mapping[0], "epoch") == ALICE;
    ConflictAfterServiceIff(CFG, CFG.recoverable, f, jobs, run, PLAN.mapping);
  }
}
