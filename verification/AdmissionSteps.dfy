/** Every atomic change keeps the admission invariant, and takes nothing back. */
module AdmissionSteps {
  import opened Options
  import opened JobRecord
  import opened Decision
  import opened LeaseProtocol
  import opened FileBinding
  import opened Spelling
  import opened Admission

  /** What one change leaves: the invariant, and everything that was to stay. */
  ghost predicate Kept(cfg: Config, w: World, v: World) {
    Inv(cfg, v) && Later(cfg, w, v)
  }

  // ----- A new journal -----

  lemma DecideNames(w: World, v: World, p: Path, j: Journal)
    requires NamesOk(w) && p !in w.journals
    requires v.journals == w.journals[p := j] && v.index == w.index && v.reran == w.reran
    requires v.named == (if j.Live? then w.named[p := [Operation(j)]] else w.named)
    ensures NamesOk(v)
  {
    assert p !in w.named by { assert !IsLive(w, p); }
    forall q ensures q in v.named <==> IsLive(v, q) {
      assert q != p ==> (IsLive(v, q) <==> IsLive(w, q));
    }
  }

  lemma DecideDistinct(w: World, v: World, p: Path, j: Journal)
    requires NamesDistinct(w) && p !in w.named
    requires j.Live? ==> Operation(j) !in w.ids
    requires v.named == (if j.Live? then w.named[p := [Operation(j)]] else w.named)
    requires v.ids == (if j.Live? then w.ids[Operation(j) := Place(p, 0)] else w.ids)
    ensures NamesDistinct(v)
  {
  }

  lemma DecideChain(w: World, v: World, p: Path, j: Journal)
    requires ChainOk(w) && p !in w.journals && EarlierAllow(w, p, j)
    requires v.journals == w.journals[p := j] && v.jobs == w.jobs && v.reran == w.reran
    ensures ChainOk(v)
  {
    forall q | q in v.journals && q.identity.attempt > 0
      ensures q.Previous() in v.journals && (Ended(v, q.Previous()) || q.Previous() in v.reran)
    {
      assert q.Previous() in w.journals;
      assert Ended(w, q.Previous()) ==> Ended(v, q.Previous());
    }
  }

  lemma DecideArguments(w: World, v: World, p: Path, j: Journal)
    requires ArgumentsOk(w) && p !in w.journals && EarlierAllow(w, p, j)
    requires v.journals == w.journals[p := j]
    ensures ArgumentsOk(v)
  {
    forall q, r | IsLive(v, q) && IsLive(v, r) && q.SameKey(r)
      ensures SameAs(v.journals[q].arguments, v.journals[r].arguments)
    {
      if q != p && r != p {
        assert IsLive(w, q) && IsLive(w, r);
      } else if q == p && r != p {
        assert IsLive(w, r) && r.SameKey(p);
      } else if r == p && q != p {
        assert IsLive(w, q);
      }
    }
  }

  lemma DecideRest(cfg: Config, w: World, v: World, p: Path, j: Journal)
    requires PastFailed(cfg, w) && CurrentOk(cfg, w) && RepliesOk(w) && JobsOk(cfg, w)
    requires p !in w.journals && p !in w.named
    requires j.Live? ==> !j.published && !j.lost && Operation(j) !in w.ids
    requires v.journals == w.journals[p := j] && v.jobs == w.jobs && v.replies == w.replies
    requires v.named == (if j.Live? then w.named[p := [Operation(j)]] else w.named)
    requires w.ids.Keys <= v.ids.Keys
    ensures PastFailed(cfg, v) && CurrentOk(cfg, v) && RepliesOk(v) && JobsOk(cfg, v)
  {
    forall q | IsLive(v, q) ensures CurrentAt(cfg, v.jobs, v.journals[q]) {
      assert q != p ==> IsLive(w, q);
    }
  }

  lemma DecideLater(cfg: Config, w: World, v: World, p: Path, j: Journal)
    requires NamesOk(w) && p !in w.journals
    requires v == w.(journals := w.journals[p := j],
                     named := if j.Live? then w.named[p := [Operation(j)]] else w.named,
                     ids := if j.Live? then w.ids[Operation(j) := Place(p, 0)] else w.ids)
    ensures Later(cfg, w, v)
  {
    assert p !in w.named by { assert !IsLive(w, p); }
    forall q | q in w.journals ensures JournalLater(cfg, w, v, q) {
      assert w.journals[q].Live? ==> IsLive(w, q);
    }
  }

  lemma JournalsUpdate(cfg: Config, w: World, v: World, p: Path, j: Journal)
    requires JournalsOk(cfg, w) && Recorded(cfg, w.marked, p, j) && FeaturesFor(p, j) <= w.header
    requires v.journals == w.journals[p := j] && v.marked == w.marked && v.header == w.header
    ensures JournalsOk(cfg, v)
  {
  }

  lemma WorkUpdate(cfg: Config, w: World, v: World, p: Path, j: Journal)
    requires WorkOk(cfg, w) && v.journals == w.journals[p := j] && w.reran <= v.reran
    requires j.Live? && p !in v.reran ==> WorkAgrees(cfg, p, j)
    ensures WorkOk(cfg, v)
  {
    forall q | IsLive(v, q) && q !in v.reran ensures WorkAgrees(cfg, q, v.journals[q]) {
      assert q != p ==> IsLive(w, q) && q !in w.reran;
    }
  }

  lemma WorkFrame(cfg: Config, w: World, v: World)
    requires WorkOk(cfg, w) && v.journals == w.journals && v.reran == w.reran
    ensures WorkOk(cfg, v)
  {
    forall q | IsLive(v, q) && q !in v.reran ensures WorkAgrees(cfg, q, v.journals[q]) {
      assert IsLive(w, q);
    }
  }

  lemma DecideKeeps(cfg: Config, w: World, p: Path, j: Journal)
    requires Inv(cfg, w) && Enabled(cfg, w, Decide(p, j))
    ensures Kept(cfg, w, Apply(cfg, w, Decide(p, j)))
  {
    var v := Apply(cfg, w, Decide(p, j));
    assert p !in w.named by { assert !IsLive(w, p); }
    JournalsUpdate(cfg, w, v, p, j);
    WorkUpdate(cfg, w, v, p, j);
    DecideNames(w, v, p, j);
    DecideDistinct(w, v, p, j);
    DecideChain(w, v, p, j);
    DecideArguments(w, v, p, j);
    DecideRest(cfg, w, v, p, j);
    DecideLater(cfg, w, v, p, j);
  }

  // ----- A journal moved on in place -----

  /** The same admission, published or with its loss recorded. */
  ghost predicate Refined(j: Journal, k: Journal) {
    && j.Live? && k.Live? && k == j.(published := k.published, lost := k.lost)
    && (j.published ==> k.published) && (j.lost ==> k.lost)
  }

  lemma RefineRecorded(cfg: Config, marked: set<Feature>, p: Path, j: Journal, k: Journal)
    requires Recorded(cfg, marked, p, j) && Refined(j, k)
    ensures Recorded(cfg, marked, p, k)
  {
    assert Retained(p, j) == Retained(p, k);
  }

  lemma RefineWork(cfg: Config, w: World, v: World, p: Path, k: Journal)
    requires WorkOk(cfg, w) && IsLive(w, p) && Refined(w.journals[p], k)
    requires v == w.(journals := w.journals[p := k])
    ensures WorkOk(cfg, v)
  {
    assert WorkAgrees(cfg, p, w.journals[p]) ==> WorkAgrees(cfg, p, k);
    WorkUpdate(cfg, w, v, p, k);
  }

  lemma RefineNames(w: World, v: World, p: Path, k: Journal)
    requires NamesOk(w) && NamesDistinct(w) && RepliesOk(w)
    requires IsLive(w, p) && Refined(w.journals[p], k)
    requires v == w.(journals := w.journals[p := k])
    ensures NamesOk(v) && NamesDistinct(v) && RepliesOk(v)
  {
    assert forall q :: IsLive(v, q) <==> IsLive(w, q);
    forall r | r in v.replies && r.outcome.DefinitelyNotAccepted? ensures IsSealed(v, r.path) {
      assert IsSealed(w, r.path);
    }
  }

  lemma RefineChain(w: World, v: World, p: Path, k: Journal)
    requires ChainOk(w) && ArgumentsOk(w)
    requires IsLive(w, p) && Refined(w.journals[p], k)
    requires v == w.(journals := w.journals[p := k])
    ensures ChainOk(v) && ArgumentsOk(v)
  {
    forall q | q in v.journals && q.identity.attempt > 0
      ensures q.Previous() in v.journals && (Ended(v, q.Previous()) || q.Previous() in v.reran)
    {
      assert q in w.journals;
      assert Ended(w, q.Previous()) ==> Ended(v, q.Previous());
    }
    forall q, r | IsLive(v, q) && IsLive(v, r) && q.SameKey(r)
      ensures SameAs(v.journals[q].arguments, v.journals[r].arguments)
    {
      assert IsLive(w, q) && IsLive(w, r);
    }
  }

  lemma RefineRest(cfg: Config, w: World, v: World, p: Path, k: Journal)
    requires NamesOk(w) && PastFailed(cfg, w) && CurrentOk(cfg, w) && JobsOk(cfg, w)
    requires IsLive(w, p) && Refined(w.journals[p], k) && CurrentAt(cfg, w.jobs, k)
    requires v == w.(journals := w.journals[p := k])
    ensures PastFailed(cfg, v) && CurrentOk(cfg, v) && JobsOk(cfg, v)
  {
    forall q | IsLive(v, q) ensures CurrentAt(cfg, v.jobs, v.journals[q]) {
      assert q != p ==> IsLive(w, q);
    }
  }

  lemma RefineLater(cfg: Config, w: World, v: World, p: Path, k: Journal)
    requires NamesOk(w) && IsLive(w, p) && Refined(w.journals[p], k)
    requires v == w.(journals := w.journals[p := k])
    ensures Later(cfg, w, v)
  {
    forall q | q in w.journals ensures JournalLater(cfg, w, v, q) {
      assert w.journals[q].Live? ==> IsLive(w, q);
    }
  }

  lemma RefineKeeps(cfg: Config, w: World, v: World, p: Path, k: Journal)
    requires Inv(cfg, w)
    requires IsLive(w, p) && Refined(w.journals[p], k) && CurrentAt(cfg, w.jobs, k)
    requires FeaturesFor(p, k) <= w.header
    requires v == w.(journals := w.journals[p := k])
    ensures Inv(cfg, v) && Later(cfg, w, v)
  {
    RefineRecorded(cfg, w.marked, p, w.journals[p], k);
    RefineWork(cfg, w, v, p, k);
    JournalsUpdate(cfg, w, v, p, k);
    RefineNames(w, v, p, k);
    RefineChain(w, v, p, k);
    RefineRest(cfg, w, v, p, k);
    RefineLater(cfg, w, v, p, k);
  }

  lemma FeaturesAt(cfg: Config, w: World, p: Path)
    requires JournalsOk(cfg, w) && p in w.journals
    ensures FeaturesFor(p, w.journals[p]) <= w.header
  {
  }

  lemma PublishAllowed(cfg: Config, w: World, p: Path)
    requires JournalsOk(cfg, w) && CurrentOk(cfg, w) && Enabled(cfg, w, Publish(p))
    ensures var k := w.journals[p].(published := true); CurrentAt(cfg, w.jobs, k) && FeaturesFor(p, k) <= w.header
  {
    FeaturesAt(cfg, w, p);
    assert CurrentAt(cfg, w.jobs, w.journals[p]);
  }

  lemma PublishKeeps(cfg: Config, w: World, p: Path)
    requires Inv(cfg, w) && Enabled(cfg, w, Publish(p))
    ensures Kept(cfg, w, Apply(cfg, w, Publish(p)))
  {
    PublishAllowed(cfg, w, p);
    RefineKeeps(cfg, w, Apply(cfg, w, Publish(p)), p, w.journals[p].(published := true));
  }

  lemma MarkLostAllowed(cfg: Config, w: World, p: Path)
    requires JournalsOk(cfg, w) && CurrentOk(cfg, w) && Enabled(cfg, w, MarkLost(p))
    ensures var k := w.journals[p].(lost := true); CurrentAt(cfg, w.jobs, k) && FeaturesFor(p, k) <= w.header
  {
    FeaturesAt(cfg, w, p);
    assert CurrentAt(cfg, w.jobs, w.journals[p]);
  }

  lemma MarkLostKeeps(cfg: Config, w: World, p: Path)
    requires Inv(cfg, w) && Enabled(cfg, w, MarkLost(p))
    ensures Kept(cfg, w, Apply(cfg, w, MarkLost(p)))
  {
    MarkLostAllowed(cfg, w, p);
    RefineKeeps(cfg, w, Apply(cfg, w, MarkLost(p)), p, w.journals[p].(lost := true));
  }

  // ----- A rights-refused identity run again -----

  lemma RerunDecodesBut(cfg: Config, marked: set<Feature>, p: Path, j: Journal, k: Journal)
    requires j.Live? && k.Live? && DecodesBut(cfg, marked, p, j) && ValidOperationId(Operation(k))
    requires k == j.(published := false, lost := false, work := k.work, receipt := j.receipt.(operationId := Operation(k)))
    ensures DecodesBut(cfg, marked, p, k)
  {
    assert ValidResult(AcceptanceResult(Accepted, Some(j.receipt), "original acceptance"), p.identity, cfg.owner);
    assert ValidResult(AcceptanceResult(Accepted, Some(k.receipt), "original acceptance"), p.identity, cfg.owner);
  }

  lemma RerunNames(w: World, v: World, p: Path, k: Journal, operation: string)
    requires NamesOk(w) && IsLive(w, p) && operation !in w.ids
    requires k.Live? && Operation(k) == operation
    requires v.journals == w.journals[p := k] && v.index == w.index && v.reran == w.reran + {p}
    requires v.named == w.named[p := w.named[p] + [operation]] && v.ids == w.ids[operation := Place(p, |w.named[p]|)]
    ensures NamesOk(v)
  {
    forall q ensures q in v.named <==> IsLive(v, q) {
      assert q != p ==> (IsLive(v, q) <==> IsLive(w, q));
    }
  }

  lemma RerunDistinct(w: World, v: World, p: Path, operation: string)
    requires NamesDistinct(w) && p in w.named && operation !in w.ids
    requires v.named == w.named[p := w.named[p] + [operation]] && v.ids == w.ids[operation := Place(p, |w.named[p]|)]
    ensures NamesDistinct(v)
  {
    forall q, i | q in v.named && 0 <= i < |v.named[q]|
      ensures v.named[q][i] in v.ids && v.ids[v.named[q][i]] == Place(q, i)
    {
      if !(q == p && i == |w.named[p]|) {
        assert v.named[q][i] == w.named[q][i];
      }
    }
  }

  lemma RerunShape(w: World, v: World, p: Path, k: Journal)
    requires ChainOk(w) && ArgumentsOk(w) && RepliesOk(w) && IsLive(w, p)
    requires k.Live? && k.arguments == w.journals[p].arguments
    requires v.journals == w.journals[p := k] && v.jobs == w.jobs && v.reran == w.reran + {p} && v.replies == w.replies
    requires forall q | q in w.named :: q in v.named && w.named[q] <= v.named[q]
    ensures ChainOk(v) && ArgumentsOk(v) && RepliesOk(v)
  {
    forall q | q in v.journals && q.identity.attempt > 0
      ensures q.Previous() in v.journals && (Ended(v, q.Previous()) || q.Previous() in v.reran)
    {
      assert q in w.journals;
      assert q.Previous() != p && Ended(w, q.Previous()) ==> Ended(v, q.Previous());
    }
    forall q, r | IsLive(v, q) && IsLive(v, r) && q.SameKey(r)
      ensures SameAs(v.journals[q].arguments, v.journals[r].arguments)
    {
      assert IsLive(w, q) && IsLive(w, r);
    }
    forall r | r in v.replies
      ensures r.outcome.Accepted? ==> r.path in v.named && r.operation in v.named[r.path] && r.operation in v.jobs
      ensures r.outcome.DefinitelyNotAccepted? ==> IsSealed(v, r.path)
    {
      assert r in w.replies;
    }
  }

  lemma RerunPast(cfg: Config, w: World, v: World, p: Path, operation: string)
    requires NamesOk(w) && PastFailed(cfg, w) && IsLive(w, p)
    requires Operation(w.journals[p]) in w.jobs && FailedByRights(cfg, w.jobs[Operation(w.journals[p])])
    requires v.jobs == w.jobs && v.named == w.named[p := w.named[p] + [operation]]
    ensures PastFailed(cfg, v)
  {
    forall q, i | q in v.named && 0 <= i < |v.named[q]| - 1
      ensures v.named[q][i] in v.jobs && FailedByRights(cfg, v.jobs[v.named[q][i]])
    {
      assert v.named[q][i] == w.named[q][i];
    }
  }

  lemma RerunCurrent(cfg: Config, w: World, v: World, p: Path, k: Journal)
    requires CurrentOk(cfg, w) && JobsOk(cfg, w) && IsLive(w, p)
    requires k.Live? && !k.published && !k.lost && Operation(k) !in w.ids
    requires v.journals == w.journals[p := k] && v.jobs == w.jobs && w.ids.Keys <= v.ids.Keys
    ensures CurrentOk(cfg, v) && JobsOk(cfg, v)
  {
    forall q | IsLive(v, q) ensures CurrentAt(cfg, v.jobs, v.journals[q]) {
      assert q != p ==> IsLive(w, q);
    }
  }

  lemma RerunLater(cfg: Config, w: World, v: World, p: Path, k: Journal, operation: string)
    requires NamesOk(w) && IsLive(w, p) && !w.journals[p].legacy && !w.journals[p].lost
    requires Operation(w.journals[p]) in w.jobs && FailedByRights(cfg, w.jobs[Operation(w.journals[p])])
    requires k.Live? && k == w.journals[p].(published := false, lost := false, work := k.work,
                                 receipt := w.journals[p].receipt.(operationId := operation))
    requires v.journals == w.journals[p := k] && v.jobs == w.jobs && v.header == w.header && v.replies == w.replies
    requires v.named == w.named[p := w.named[p] + [operation]] && w.ids.Keys <= v.ids.Keys && v.reran == w.reran + {p}
    ensures Later(cfg, w, v)
  {
    forall q | q in w.journals ensures JournalLater(cfg, w, v, q) {
      assert w.journals[q].Live? ==> IsLive(w, q);
    }
  }

  lemma RerunFeatures(cfg: Config, p: Path, j: Journal, operation: string, s: Submission, subject: Option<string>)
    requires j.Live?
    ensures FeaturesFor(p, RerunJournal(cfg, p, j, operation, s, subject)) <= FeaturesFor(p, j)
  {
  }

  /** Whatever preparation gives, everything else about the journal a re-run leaves still decodes. */
  lemma RerunRecorded(cfg: Config, w: World, p: Path, operation: string, s: Submission, subject: Option<string>)
    requires JournalsOk(cfg, w) && Enabled(cfg, w, Rerun(p, operation, s, subject))
    ensures Recorded(cfg, w.marked, p, RerunJournal(cfg, p, w.journals[p], operation, s, subject))
    ensures FeaturesFor(p, RerunJournal(cfg, p, w.journals[p], operation, s, subject)) <= w.header
  {
    var j := w.journals[p];
    RerunDecodesBut(cfg, w.marked, p, j, RerunJournal(cfg, p, j, operation, s, subject));
    RerunFeatures(cfg, p, j, operation, s, subject);
  }

  lemma FailedIsNotLost(cfg: Config, w: World, p: Path)
    requires CurrentOk(cfg, w) && IsLive(w, p)
    requires Operation(w.journals[p]) in w.jobs && FailedByRights(cfg, w.jobs[Operation(w.journals[p])])
    ensures !w.journals[p].lost
  {
    assert CurrentAt(cfg, w.jobs, w.journals[p]);
  }

  lemma RerunWorld(cfg: Config, w: World, v: World, p: Path, k: Journal, operation: string)
    requires NamesOk(w) && NamesDistinct(w)
    requires IsLive(w, p) && p in w.named && operation !in w.ids
    requires k.Live? && Operation(k) == operation
    requires v == w.(journals := w.journals[p := k], named := w.named[p := w.named[p] + [operation]],
                     ids := w.ids[operation := Place(p, |w.named[p]|)], reran := w.reran + {p})
    ensures NamesOk(v) && NamesDistinct(v)
    ensures forall q | q in w.named :: q in v.named && w.named[q] <= v.named[q]
  {
    RerunNames(w, v, p, k, operation);
    RerunDistinct(w, v, p, operation);
  }

  lemma RerunJobs(cfg: Config, w: World, v: World, p: Path, k: Journal, operation: string)
    requires NamesOk(w) && JobsOk(cfg, w) && PastFailed(cfg, w) && CurrentOk(cfg, w)
    requires IsLive(w, p) && p in w.named && !w.journals[p].legacy && !w.journals[p].lost && operation !in w.ids
    requires Operation(w.journals[p]) in w.jobs && FailedByRights(cfg, w.jobs[Operation(w.journals[p])])
    requires k.Live? && k == w.journals[p].(published := false, lost := false, work := k.work,
                                            receipt := w.journals[p].receipt.(operationId := operation))
    requires v == w.(journals := w.journals[p := k], named := w.named[p := w.named[p] + [operation]],
                     ids := w.ids[operation := Place(p, |w.named[p]|)], reran := w.reran + {p})
    ensures JobsOk(cfg, v) && PastFailed(cfg, v) && CurrentOk(cfg, v) && Later(cfg, w, v)
  {
    RerunPast(cfg, w, v, p, operation);
    RerunCurrent(cfg, w, v, p, k);
    RerunLater(cfg, w, v, p, k, operation);
  }

  lemma RerunKeeps(cfg: Config, w: World, p: Path, operation: string, s: Submission, subject: Option<string>)
    requires Inv(cfg, w) && Enabled(cfg, w, Rerun(p, operation, s, subject))
    ensures Kept(cfg, w, Apply(cfg, w, Rerun(p, operation, s, subject)))
  {
    var v := Apply(cfg, w, Rerun(p, operation, s, subject));
    var k := RerunJournal(cfg, p, w.journals[p], operation, s, subject);
    assert p in w.named;
    RerunRecorded(cfg, w, p, operation, s, subject);
    FailedIsNotLost(cfg, w, p);
    JournalsUpdate(cfg, w, v, p, k);
    WorkUpdate(cfg, w, v, p, k);
    RerunWorld(cfg, w, v, p, k, operation);
    RerunShape(w, v, p, k);
    RerunJobs(cfg, w, v, p, k, operation);
  }

  // ----- Job records -----

  lemma StoredIsValid(r: Record)
    requires r.Valid()
    ensures Stored(r).Valid()
  {
    if Respelled(r.spec.text) == "null" {
      NullIsNull(r.spec.text);
    }
  }

  lemma InsertKeeps(cfg: Config, w: World, p: Path, now: Time)
    requires Inv(cfg, w) && Enabled(cfg, w, Insert(p, now))
    ensures Kept(cfg, w, Apply(cfg, w, Insert(p, now)))
  {
    var v := Apply(cfg, w, Insert(p, now));
    var j := w.journals[p];
    assert p in w.named && w.named[p][|w.named[p]| - 1] == Operation(j);
    StoredIsValid(Proposed(Proposal(cfg, j), Operation(j), now));
    JobsFrame(cfg, w, v, Operation(j));
    InsertCurrent(cfg, w, v, p, now);
  }

  lemma InsertCurrent(cfg: Config, w: World, v: World, p: Path, now: Time)
    requires NamesOk(w) && NamesDistinct(w) && CurrentOk(cfg, w) && IsLive(w, p)
    requires Operation(w.journals[p]) !in w.jobs
    requires Proposed(Proposal(cfg, w.journals[p]), Operation(w.journals[p]), now).Valid()
    requires v == w.(jobs := w.jobs[Operation(w.journals[p]) := Stored(Proposed(Proposal(cfg, w.journals[p]), Operation(w.journals[p]), now))])
    ensures CurrentOk(cfg, v)
  {
    var op := Operation(w.journals[p]);
    SpelledTwice(cfg.readPayload(WorkSpec(w.journals[p])));
    forall q | IsLive(v, q) ensures CurrentAt(cfg, v.jobs, v.journals[q]) {
      assert IsLive(w, q) && CurrentAt(cfg, w.jobs, w.journals[q]);
      if Operation(w.journals[q]) == op {
        assert w.named[q][|w.named[q]| - 1] == w.named[p][|w.named[p]| - 1];
      }
    }
  }

  /** A changed or new record under one id leaves everything that is not about that record's match alone. */
  lemma JobsFrame(cfg: Config, w: World, v: World, id: string)
    requires JournalsOk(cfg, w) && WorkOk(cfg, w) && NamesOk(w) && NamesDistinct(w) && JobsOk(cfg, w) && PastFailed(cfg, w)
    requires ChainOk(w) && ArgumentsOk(w) && RepliesOk(w)
    requires id in w.ids && id in v.jobs && v == w.(jobs := w.jobs[id := v.jobs[id]])
    requires v.jobs[id].Valid() && v.jobs[id].id == id
    requires id in w.jobs ==> JobLater(w.jobs[id], v.jobs[id])
    ensures JournalsOk(cfg, v) && WorkOk(cfg, v) && NamesOk(v) && NamesDistinct(v) && JobsOk(cfg, v) && PastFailed(cfg, v)
    ensures ChainOk(v) && ArgumentsOk(v) && RepliesOk(v) && Later(cfg, w, v)
  {
    MarksKeep(cfg, w, v);
    WorkFrame(cfg, w, v);
    JobsFrameNames(cfg, w, v, id);
    JobsFramePast(cfg, w, v, id);
    JobsFrameChain(w, v, id);
    JobsFrameLater(cfg, w, v, id);
  }

  lemma JobsFrameNames(cfg: Config, w: World, v: World, id: string)
    requires NamesOk(w) && NamesDistinct(w) && ArgumentsOk(w) && RepliesOk(w) && JobsOk(cfg, w)
    requires id in w.ids && id in v.jobs && v == w.(jobs := w.jobs[id := v.jobs[id]])
    requires v.jobs[id].Valid() && v.jobs[id].id == id
    ensures NamesOk(v) && NamesDistinct(v) && ArgumentsOk(v) && RepliesOk(v) && JobsOk(cfg, v)
  {
    assert forall q :: IsLive(v, q) <==> IsLive(w, q);
    forall q, r | IsLive(v, q) && IsLive(v, r) && q.SameKey(r)
      ensures SameAs(v.journals[q].arguments, v.journals[r].arguments)
    {
      assert IsLive(w, q) && IsLive(w, r);
    }
    forall r | r in v.replies && r.outcome.DefinitelyNotAccepted? ensures IsSealed(v, r.path) {
      assert IsSealed(w, r.path);
    }
  }

  lemma JobsFramePast(cfg: Config, w: World, v: World, id: string)
    requires PastFailed(cfg, w)
    requires id in v.jobs && v == w.(jobs := w.jobs[id := v.jobs[id]])
    requires id in w.jobs ==> JobLater(w.jobs[id], v.jobs[id])
    ensures PastFailed(cfg, v)
  {
    if id in w.jobs && FailedByRights(cfg, w.jobs[id]) {
      FailedStays(cfg, w.jobs[id], v.jobs[id]);
    }
  }

  lemma JobsFrameChain(w: World, v: World, id: string)
    requires ChainOk(w)
    requires id in v.jobs && v == w.(jobs := w.jobs[id := v.jobs[id]])
    requires id in w.jobs ==> JobLater(w.jobs[id], v.jobs[id])
    ensures ChainOk(v)
  {
    if id in w.jobs {
      assert Settled(v.jobs[id]).state == v.jobs[id].state && Settled(w.jobs[id]).state == w.jobs[id].state;
    }
    forall q | q in v.journals && q.identity.attempt > 0
      ensures q.Previous() in v.journals && (Ended(v, q.Previous()) || q.Previous() in v.reran)
    {
      assert q in w.journals;
      assert Ended(w, q.Previous()) ==> Ended(v, q.Previous());
    }
  }

  lemma JobsFrameLater(cfg: Config, w: World, v: World, id: string)
    requires NamesOk(w)
    requires id in v.jobs && v == w.(jobs := w.jobs[id := v.jobs[id]])
    requires id in w.jobs ==> JobLater(w.jobs[id], v.jobs[id])
    ensures Later(cfg, w, v)
  {
    forall q | q in w.journals ensures JournalLater(cfg, w, v, q) {
      assert w.journals[q].Live? ==> IsLive(w, q);
    }
  }

  /** Any store operation on a record leaves a later version of it. */
  lemma OperationLater(op: Op, r: Record)
    requires PerformFile(op, r).Ok?
    requires PerformFile(op, r).value.requires_ == r.requires_
    ensures JobLater(r, Stored(PerformFile(op, r).value))
    ensures Stored(PerformFile(op, r).value).Valid()
  {
    if op.OpUpdate? {
      var edited := op.mutate(r);
    }
    SpelledTwice(r.spec);
    StoredIsValid(PerformFile(op, r).value);
  }

  lemma JobChangeCurrent(cfg: Config, w: World, v: World, id: string)
    requires CurrentOk(cfg, w)
    requires id in w.jobs && id in v.jobs && v == w.(jobs := w.jobs[id := v.jobs[id]])
    requires JobLater(w.jobs[id], v.jobs[id]) && v.jobs[id].Valid()
    ensures CurrentOk(cfg, v)
  {
    assert Settled(v.jobs[id]).state == v.jobs[id].state && Settled(w.jobs[id]).state == w.jobs[id].state;
    SpelledTwice(w.jobs[id].spec);
    forall q | IsLive(v, q) ensures CurrentAt(cfg, v.jobs, v.journals[q]) {
      assert IsLive(w, q) && CurrentAt(cfg, w.jobs, w.journals[q]);
    }
  }

  lemma JobChangeKeeps(cfg: Config, w: World, v: World, id: string)
    requires Inv(cfg, w) && id in w.jobs && id in v.jobs && v == w.(jobs := w.jobs[id := v.jobs[id]])
    requires JobLater(w.jobs[id], v.jobs[id]) && v.jobs[id].Valid()
    ensures Inv(cfg, v) && Later(cfg, w, v)
  {
    JobsFrame(cfg, w, v, id);
    JobChangeCurrent(cfg, w, v, id);
  }

  lemma JobOpKeeps(cfg: Config, w: World, id: string, op: Op)
    requires Inv(cfg, w) && Enabled(cfg, w, JobOp(id, op))
    ensures Kept(cfg, w, Apply(cfg, w, JobOp(id, op)))
  {
    var v := Apply(cfg, w, JobOp(id, op));
    if PerformFile(op, w.jobs[id]).Ok? {
      OperationLater(op, w.jobs[id]);
      JobChangeKeeps(cfg, w, v, id);
    } else {
      LaterRefl(cfg, w);
    }
  }

  // ----- Everything else -----

  lemma MarksKeep(cfg: Config, w: World, v: World)
    requires JournalsOk(cfg, w)
    requires v.journals == w.journals && w.header <= v.header && w.marked <= v.marked <= v.header
    ensures JournalsOk(cfg, v)
  {
    forall p | p in v.journals ensures Recorded(cfg, v.marked, p, v.journals[p]) && FeaturesFor(p, v.journals[p]) <= v.header {
      MarksDecode(cfg, w.marked, v.marked, p, w.journals[p]);
    }
  }

  lemma MarksDecode(cfg: Config, few: set<Feature>, more: set<Feature>, p: Path, j: Journal)
    requires Recorded(cfg, few, p, j) && few <= more
    ensures Recorded(cfg, more, p, j)
  {
  }

  /** The remaining changes touch no journal and no job. */
  lemma QuietShape(cfg: Config, w: World, v: World)
    requires NamesOk(w) && NamesDistinct(w) && JobsOk(cfg, w) && PastFailed(cfg, w) && CurrentOk(cfg, w) && ChainOk(w) && ArgumentsOk(w)
    requires v == w.(header := v.header, marked := v.marked, index := v.index, replies := v.replies)
    requires w.header <= v.header && w.replies <= v.replies
    requires forall id | id in v.index :: v.index[id] in v.named && id in v.named[v.index[id]]
    ensures NamesOk(v) && NamesDistinct(v) && JobsOk(cfg, v) && PastFailed(cfg, v) && CurrentOk(cfg, v) && ChainOk(v) && ArgumentsOk(v)
    ensures Later(cfg, w, v)
  {
    assert forall q :: IsLive(v, q) <==> IsLive(w, q);
    assert forall q :: Ended(v, q) <==> Ended(w, q);
    forall q | q in w.journals ensures JournalLater(cfg, w, v, q) {
      assert w.journals[q].Live? ==> IsLive(w, q);
    }
  }

  lemma SayKeeps(cfg: Config, w: World, v: World, reply: Reply)
    requires RepliesOk(w) && Enabled(cfg, w, Say(reply)) && v == w.(replies := w.replies + {reply})
    ensures RepliesOk(v)
  {
    forall r | r in v.replies
      ensures r.outcome.Accepted? ==> r.path in v.named && r.operation in v.named[r.path] && r.operation in v.jobs
      ensures r.outcome.DefinitelyNotAccepted? ==> IsSealed(v, r.path)
    {
      assert r in w.replies || r == reply;
    }
  }

  lemma RepliesFrame(w: World, v: World)
    requires RepliesOk(w) && v == w.(header := v.header, marked := v.marked, index := v.index)
    ensures RepliesOk(v)
  {
    forall r | r in v.replies && r.outcome.DefinitelyNotAccepted? ensures IsSealed(v, r.path) {
      assert IsSealed(w, r.path);
    }
  }

  lemma MemoryKeeps(cfg: Config, w: World, v: World)
    requires Inv(cfg, w)
    requires v == w.(header := v.header, marked := v.marked, index := v.index)
    requires w.header <= v.header && w.marked <= v.marked <= v.header
    requires forall id | id in v.index :: v.index[id] in v.named && id in v.named[v.index[id]]
    ensures Inv(cfg, v) && Later(cfg, w, v)
  {
    MarksKeep(cfg, w, v);
    WorkFrame(cfg, w, v);
    QuietShape(cfg, w, v);
    RepliesFrame(w, v);
  }

  lemma QuietChanges(cfg: Config, w: World, a: Action)
    requires a.AddFeature? || a.Remember? || a.Index? || a.Restart?
    requires w.marked <= w.header && (forall id | id in w.index :: w.index[id] in w.named && id in w.named[w.index[id]])
    requires Enabled(cfg, w, a)
    ensures var v := Apply(cfg, w, a);
            && v == w.(header := v.header, marked := v.marked, index := v.index)
            && w.header <= v.header && w.marked <= v.marked <= v.header
            && forall id | id in v.index :: v.index[id] in v.named && id in v.named[v.index[id]]
  {
  }

  lemma QuietKeeps(cfg: Config, w: World, a: Action)
    requires a.AddFeature? || a.Remember? || a.Index? || a.Restart?
    requires Inv(cfg, w) && Enabled(cfg, w, a)
    ensures Kept(cfg, w, Apply(cfg, w, a))
  {
    QuietChanges(cfg, w, a);
    MemoryKeeps(cfg, w, Apply(cfg, w, a));
  }

  lemma RepliesKeep(cfg: Config, w: World, v: World)
    requires Inv(cfg, w) && RepliesOk(v)
    requires v == w.(replies := v.replies) && w.replies <= v.replies
    ensures Kept(cfg, w, v)
  {
    MarksKeep(cfg, w, v);
    WorkFrame(cfg, w, v);
    QuietShape(cfg, w, v);
  }

  lemma ReplyKeeps(cfg: Config, w: World, reply: Reply)
    requires Inv(cfg, w) && Enabled(cfg, w, Say(reply))
    ensures Kept(cfg, w, Apply(cfg, w, Say(reply)))
  {
    SayKeeps(cfg, w, Apply(cfg, w, Say(reply)), reply);
    RepliesKeep(cfg, w, Apply(cfg, w, Say(reply)));
  }

  lemma OtherStepKeeps(cfg: Config, w: World, a: Action)
    requires Inv(cfg, w) && Enabled(cfg, w, a)
    requires a.Say? || a.AddFeature? || a.Remember? || a.Index? || a.Restart?
    ensures Kept(cfg, w, Apply(cfg, w, a))
  {
    if a.Say? {
      ReplyKeeps(cfg, w, a.reply);
    } else {
      QuietKeeps(cfg, w, a);
    }
  }

  lemma CarryOutKeeps(cfg: Config, w: World, a: Action)
    requires Inv(cfg, w) && Enabled(cfg, w, a)
    requires a.Insert? || a.Publish? || a.MarkLost?
    ensures Kept(cfg, w, Apply(cfg, w, a))
  {
    if a.Insert? {
      InsertKeeps(cfg, w, a.path, a.now);
    } else if a.Publish? {
      PublishKeeps(cfg, w, a.path);
    } else {
      MarkLostKeeps(cfg, w, a.path);
    }
  }

  lemma NamingKeeps(cfg: Config, w: World, a: Action)
    requires Inv(cfg, w) && Enabled(cfg, w, a)
    requires a.Decide? || a.Rerun?
    ensures Kept(cfg, w, Apply(cfg, w, a))
  {
    if a.Decide? {
      DecideKeeps(cfg, w, a.path, a.journal);
    } else {
      RerunKeeps(cfg, w, a.path, a.operation, a.submitted, a.subject);
    }
  }

  /** Every atomic change keeps the invariant and leaves a later world. */
  lemma StepKeeps(cfg: Config, w: World, a: Action)
    requires Inv(cfg, w) && Enabled(cfg, w, a)
    ensures Kept(cfg, w, Apply(cfg, w, a))
  {
    if a.Decide? || a.Rerun? {
      NamingKeeps(cfg, w, a);
    } else if a.Insert? || a.Publish? || a.MarkLost? {
      CarryOutKeeps(cfg, w, a);
    } else if a.JobOp? {
      JobOpKeeps(cfg, w, a.id, a.op);
    } else {
      OtherStepKeeps(cfg, w, a);
    }
  }
}
