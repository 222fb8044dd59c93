/**
 The lease protocol (go/store.go): what each store operation does to one record, and what every
 interleaving of operations keeps. Both local bindings are proved against these functions.
 */
module LeaseProtocol {
  import opened Options
  import opened JobRecord

  /** A caller's closure: it edits the record it is given or refuses. */
  type Mutation = Record -> Result<Record>

  /** Epochs are int64 and the source adds one without a check. */
  function NextEpoch(e: int64): int64 {
    if e == INT64_MAX then INT64_MIN else e + 1
  }

  function Claimed(r: Record, owner: string, ttl: int, now: Time): Result<Record> {
    if r.state.Terminal() then Err(TerminalJob)
    else if r.lease.Held(now) && (r.lease.owner != owner || r.lease.Recalled()) then Err(LeaseHeld)
    else Ok(r.(lease := Lease(owner, NextEpoch(r.lease.epoch), At(now + ttl), None),
               state := if r.state.Pending? || r.state.Running? then Running else r.state))
  }

  /** renewedUntil: a renewal never passes the recall's deadline. */
  function RenewedUntil(l: Lease, want: Time): Time {
    if l.recall.Some? && l.recall.value.until < want then l.recall.value.until else At(want)
  }

  /** `checked` and `stamp` are the operation's successive readings of the clock. */
  function Renewed(r: Record, epoch: int64, ttl: int, checked: Time, stamp: Time): Result<Record> {
    if r.lease.epoch != epoch then Err(StaleEpoch)
    else if !r.lease.Held(checked) then Err(LeaseExpiry)
    else Ok(r.(lease := r.lease.(expiresAt := RenewedUntil(r.lease, stamp + ttl))))
  }

  function Recalled(r: Record, epoch: int64, reason: string, asker: string, grace: int, now: Time): Result<Record> {
    if r.state.Terminal() then Err(TerminalJob)
    else if r.lease.epoch != epoch then Err(StaleEpoch)
    else if !r.lease.Held(now) then Err(LeaseExpiry)
    else
      var until := At(now + grace);
      Ok(r.(lease := r.lease.(recall := Some(Recall(reason, asker, At(now), until)),
                              expiresAt := if until < r.lease.expiresAt then until else r.lease.expiresAt),
            updatedAt := At(now)))
  }

  function Updated(r: Record, epoch: int64, mutate: Mutation, checked: Time, stamp: Time): Result<Record> {
    if r.state.Terminal() then Err(TerminalJob)
    else if r.lease.epoch != epoch then Err(StaleEpoch)
    else if !r.lease.Held(checked) then Err(LeaseExpiry)
    else
      var edited := mutate(r);
      if edited.Err? then edited
      else if !Unmoved(r, edited.value) then Err(Invalid)
      else Ok(edited.value.(updatedAt := At(stamp)))
  }

  /** The closure Release passes to Update: let go at `now`, and keep a delegated job running. */
  function LetGo(now: Time): Mutation {
    (r: Record) =>
      Ok(r.(lease := r.lease.(expiresAt := At(now), owner := ""),
            state := if r.state.Running? && !r.Delegated() then Pending else r.state))
  }

  function Intended(r: Record, want: Want, asker: string, now: Time): Result<Record> {
    if r.state.Terminal() then Err(TerminalJob)
    else Ok(r.(intent := Some(Intent(want, asker, At(now))), updatedAt := At(now)))
  }

  /** One call of the store by anyone, with the clock readings it made. */
  datatype Op =
    | OpClaim(owner: string, ttl: int, now: Time)
    | OpRenew(epoch: int64, ttl: int, checked: Time, stamp: Time)
    | OpRecall(epoch: int64, reason: string, asker: string, grace: int, now: Time)
    | OpRelease(epoch: int64, checked: Time, gone: Time, stamp: Time)
    | OpUpdate(epoch: int64, mutate: Mutation, checked: Time, stamp: Time)
    | OpIntent(want: Want, asker: string, now: Time)
  {
    predicate PresentsEpoch() {
      OpRenew? || OpRecall? || OpRelease? || OpUpdate?
    }

    /** The closure leaves the epoch it was granted alone. */
    ghost predicate KeepsEpoch() {
      OpUpdate? ==> forall r: Record ::
        mutate(r).Ok? ==> mutate(r).value.lease.epoch == r.lease.epoch
    }

    /** The closure leaves the whole lease alone. */
    ghost predicate KeepsLease() {
      OpUpdate? ==> forall r: Record ::
        mutate(r).Ok? ==> mutate(r).value.lease == r.lease
    }
  }

  function Perform(op: Op, r: Record): Result<Record> {
    match op
    case OpClaim(owner, ttl, now) => Claimed(r, owner, ttl, now)
    case OpRenew(epoch, ttl, checked, stamp) => Renewed(r, epoch, ttl, checked, stamp)
    case OpRecall(epoch, reason, asker, grace, now) => Recalled(r, epoch, reason, asker, grace, now)
    case OpRelease(epoch, checked, gone, stamp) => Updated(r, epoch, LetGo(gone), checked, stamp)
    case OpUpdate(epoch, mutate, checked, stamp) => Updated(r, epoch, mutate, checked, stamp)
    case OpIntent(want, asker, now) => Intended(r, want, asker, now)
  }

  /** A refused operation leaves the record as it was. */
  function After1(op: Op, r: Record): Record {
    var done := Perform(op, r);
    if done.Ok? then done.value else r
  }

  function After(ops: seq<Op>, r: Record): Record {
    if ops == [] then r else After(ops[1..], After1(ops[0], r))
  }

  /** How many claims of the run were granted. */
  function Claims(ops: seq<Op>, r: Record): nat {
    if ops == [] then 0
    else (if ops[0].OpClaim? && Perform(ops[0], r).Ok? then 1 else 0) + Claims(ops[1..], After1(ops[0], r))
  }

  ghost predicate AllKeepEpoch(ops: seq<Op>) {
    forall i | 0 <= i < |ops| :: ops[i].KeepsEpoch()
  }

  ghost predicate AllKeepLease(ops: seq<Op>) {
    forall i | 0 <= i < |ops| :: ops[i].KeepsLease()
  }

  /** [JOB-O1] The epoch moves exactly when a claim is granted, and then by one. */
  lemma EpochStep(op: Op, r: Record)
    requires op.KeepsEpoch()
    ensures After1(op, r).lease.epoch ==
            if op.OpClaim? && Perform(op, r).Ok? then NextEpoch(r.lease.epoch) else r.lease.epoch
  {
    if op.OpUpdate? {
      var edited := op.mutate(r);
    }
  }

  /** Over any run the epoch has risen by the number of granted claims: it never falls. */
  lemma {:induction false} EpochCountsClaims(ops: seq<Op>, r: Record)
    requires AllKeepEpoch(ops)
    requires r.lease.epoch + Claims(ops, r) <= INT64_MAX
    ensures After(ops, r).lease.epoch == r.lease.epoch + Claims(ops, r)
  {
    if ops != [] {
      EpochStep(ops[0], r);
      EpochCountsClaims(ops[1..], After1(ops[0], r));
    }
  }

  /** The one way the epoch can fall: a granted claim at the largest int64. */
  lemma EpochFallsOnlyByWrap(op: Op, r: Record)
    requires op.KeepsEpoch()
    ensures After1(op, r).lease.epoch < r.lease.epoch
            <==> op.OpClaim? && Perform(op, r).Ok? && r.lease.epoch == INT64_MAX
  {
    EpochStep(op, r);
  }

  /** Fencing: once a claim was granted, every operation that presents an earlier epoch is refused,
      whatever ran in between and whoever presents it. */
  lemma Fencing(claim: Op, ops: seq<Op>, late: Op, r: Record)
    requires claim.OpClaim? && Perform(claim, r).Ok?
    requires AllKeepEpoch(ops)
    requires late.PresentsEpoch() && late.epoch <= r.lease.epoch
    requires r.lease.epoch + 1 + Claims(ops, After1(claim, r)) <= INT64_MAX
    ensures var now := After(ops, After1(claim, r));
            Perform(late, now) == Err(if now.state.Terminal() && !late.OpRenew? then TerminalJob else StaleEpoch)
  {
    EpochStep(claim, r);
    EpochCountsClaims(ops, After1(claim, r));
  }

  /** Two granted claims of one run never hand out the same epoch. */
  lemma ClaimsAreExclusive(first: Op, ops: seq<Op>, second: Op, r: Record)
    requires first.OpClaim? && Perform(first, r).Ok?
    requires AllKeepEpoch(ops)
    requires second.OpClaim? && Perform(second, After(ops, After1(first, r))).Ok?
    requires r.lease.epoch + 2 + Claims(ops, After1(first, r)) <= INT64_MAX
    ensures After1(second, After(ops, After1(first, r))).lease.epoch > After1(first, r).lease.epoch
  {
    EpochStep(first, r);
    EpochCountsClaims(ops, After1(first, r));
    EpochStep(second, After(ops, After1(first, r)));
  }

  /** An update is accepted only while nobody has claimed since its epoch was granted, and before the expiry. */
  lemma AcceptedWriteIsTheHolders(claim: Op, ops: seq<Op>, write: Op, r: Record)
    requires claim.OpClaim? && Perform(claim, r).Ok?
    requires AllKeepEpoch(ops)
    requires r.lease.epoch + 1 + Claims(ops, After1(claim, r)) <= INT64_MAX
    requires write.OpUpdate? && write.epoch == After1(claim, r).lease.epoch
    requires Perform(write, After(ops, After1(claim, r))).Ok?
    ensures Claims(ops, After1(claim, r)) == 0
    ensures After(ops, After1(claim, r)).lease.Held(write.checked)
  {
    EpochStep(claim, r);
    EpochCountsClaims(ops, After1(claim, r));
  }

  /** [JOB-T1] [JOB-T6] A terminal record never changes again, except that a renewal may move its expiry. */
  lemma {:induction false} TerminalAbsorbs(ops: seq<Op>, r: Record)
    requires r.state.Terminal()
    ensures After(ops, r) == r.(lease := r.lease.(expiresAt := After(ops, r).lease.expiresAt))
  {
    if ops != [] {
      TerminalAbsorbs(ops[1..], After1(ops[0], r));
    }
  }

  // ----- What one operation gives its caller -----

  /** [JOB-O4] [JOB-O5] [JOB-R7] A granted claim gives its owner the lease until now + ttl under the next epoch,
      keeps nobody's recall, and leaves everything else as the predecessor left it. */
  lemma ClaimHandsOver(r: Record, owner: string, ttl: int, now: Time, t: Time)
    requires owner != "" && Claimed(r, owner, ttl, now).Ok?
    ensures var c := Claimed(r, owner, ttl, now).value;
            && (c.lease.Held(t) <==> t < At(now + ttl))
            && !c.lease.Recalled()
            && c.(lease := r.lease, state := r.state) == r
            && (c.state != r.state ==> r.state.Pending? && c.state.Running?)
            && (r.state.Pending? ==> c.state.Running?)
            && (forall other, ttl', s | other != owner && s < At(now + ttl) :: Claimed(c, other, ttl', s) == Err(LeaseHeld))
  {
  }

  /** [JOB-L6] [JOB-R6] A release lets anyone claim at once, keeps a recall and keeps delegated work running. */
  lemma ReleaseHandsOver(r: Record, epoch: int64, checked: Time, gone: Time, stamp: Time, t: Time)
    requires Updated(r, epoch, LetGo(gone), checked, stamp).Ok?
    ensures var c := Updated(r, epoch, LetGo(gone), checked, stamp).value;
            && c.Claimable(t) && c.lease.owner == "" && c.lease.expiresAt == At(gone) && c.updatedAt == At(stamp)
            && c.lease.epoch == r.lease.epoch && c.lease.recall == r.lease.recall
            && (c.state == r.state || (r.state.Running? && c.state.Pending? && !r.Delegated()))
            && (r.state.Running? && !r.Delegated() ==> c.state.Pending?)
            && c.(lease := r.lease, state := r.state, updatedAt := r.updatedAt) == r
  {
  }

  /** A claim is granted exactly on a record that is not terminal and that nobody holds, or that this owner holds and has
      not been asked to give back. */
  lemma ClaimGrantedIff(claim: Op, r: Record)
    requires claim.OpClaim?
    ensures Perform(claim, r).Ok?
            <==> !r.state.Terminal() && (r.lease.Held(claim.now) ==> r.lease.owner == claim.owner && !r.lease.Recalled())
    ensures Perform(claim, r).Err? ==> Perform(claim, r) == Err(if r.state.Terminal() then TerminalJob else LeaseHeld)
    ensures r.Claimable(claim.now) ==> Perform(claim, r).Ok?
    ensures Perform(claim, r).Ok? && r.lease.owner != claim.owner ==> r.Claimable(claim.now)
  {
  }

  /** A renewal is granted exactly to the epoch that holds the lease. It then lasts until the time asked for, or until
      a recall's deadline where that is earlier, and nothing else moves. */
  lemma RenewExtends(renew: Op, r: Record, t: Time)
    requires renew.OpRenew?
    ensures Perform(renew, r).Ok? <==> renew.epoch == r.lease.epoch && r.lease.Held(renew.checked)
    ensures Perform(renew, r).Err? ==> Perform(renew, r) == Err(if renew.epoch != r.lease.epoch then StaleEpoch else LeaseExpiry)
    ensures Perform(renew, r).Ok? ==>
              var c, want := After1(renew, r), renew.stamp + renew.ttl;
              && (c.lease.Held(t) <==> if r.lease.recall.Some? && r.lease.recall.value.until < want
                                       then t < r.lease.recall.value.until else t < At(want))
              && c.(lease := c.lease.(expiresAt := r.lease.expiresAt)) == r
  {
  }

  /** [JOB-R1] [JOB-R2] A recall is granted exactly against the epoch that holds the lease of unfinished work. It is recorded as
      asked, the holder keeps the lease no longer than the grace, and nothing else moves but the stamp. */
  lemma RecallGrants(recall: Op, r: Record, t: Time)
    requires recall.OpRecall?
    ensures Perform(recall, r).Ok? <==> !r.state.Terminal() && recall.epoch == r.lease.epoch && r.lease.Held(recall.now)
    ensures Perform(recall, r).Err? ==>
              Perform(recall, r) == Err(if r.state.Terminal() then TerminalJob
                                        else if recall.epoch != r.lease.epoch then StaleEpoch else LeaseExpiry)
    ensures Perform(recall, r).Ok? ==>
              var c, until := After1(recall, r), At(recall.now + recall.grace);
              && c.lease.recall == Some(Recall(recall.reason, recall.asker, At(recall.now), until))
              && (c.lease.Held(t) <==> r.lease.Held(t) && t < until)
              && c.updatedAt == At(recall.now)
              && c.(lease := c.lease.(recall := r.lease.recall, expiresAt := r.lease.expiresAt), updatedAt := r.updatedAt) == r
  {
  }

  /** [JOB-I3] An intent needs no lease: it is granted exactly on unfinished work, whoever holds it, and is what the record
      wants from then on. */
  lemma IntentIsRecorded(intend: Op, r: Record)
    requires intend.OpIntent?
    ensures Perform(intend, r) == Err(TerminalJob) <==> r.state.Terminal()
    ensures Perform(intend, r).Err? ==> Perform(intend, r) == Err(TerminalJob)
    ensures Perform(intend, r).Ok? ==>
              var c := After1(intend, r);
              && c.Wants() == intend.want && c.intent == Some(Intent(intend.want, intend.asker, At(intend.now)))
              && c.updatedAt == At(intend.now)
              && c.(intent := r.intent, updatedAt := r.updatedAt) == r
  {
  }

  /** [JOB-L1] [JOB-L5] A holder's write is accepted exactly on unfinished work, under the epoch that holds the lease, when the closure
      succeeds and leaves alone what no holder owns; what the closure gave is then the record, freshly stamped. */
  lemma WriteGrantedIff(write: Op, r: Record)
    requires write.OpUpdate?
    ensures Perform(write, r).Ok?
            <==> && !r.state.Terminal() && write.epoch == r.lease.epoch && r.lease.Held(write.checked)
                 && write.mutate(r).Ok?
                 && var c := write.mutate(r).value;
                    c.id == r.id && c.kind == r.kind && c.spec == r.spec && c.createdAt == r.createdAt && c.envelope == r.envelope
    ensures Perform(write, r).Ok? ==> After1(write, r) == write.mutate(r).value.(updatedAt := At(write.stamp))
  {
  }

  /** [JOB-M1] Over every run, whoever writes, what identifies the work never changes. */
  lemma {:induction false} IdentityStays(ops: seq<Op>, r: Record)
    ensures var c := After(ops, r);
            c.id == r.id && c.kind == r.kind && c.spec == r.spec && c.createdAt == r.createdAt && c.envelope == r.envelope
  {
    if ops != [] {
      if ops[0].OpUpdate? {
        WriteGrantedIff(ops[0], r);
      }
      IdentityStays(ops[1..], After1(ops[0], r));
    }
  }

  // ----- Recall -----

  /** A recalled lease is over by the recall's deadline: either nobody holds it or it expires by then. */
  predicate RecallBinds(r: Record) {
    r.lease.recall.Some? ==> r.lease.owner == "" || r.lease.expiresAt <= r.lease.recall.value.until
  }

  /** The same deadline read off expires_at alone. */
  predicate ExpiresByRecall(r: Record) {
    r.lease.recall.Some? ==> r.lease.expiresAt <= r.lease.recall.value.until
  }

  lemma RecallStep(op: Op, r: Record)
    requires op.KeepsLease()
    requires RecallBinds(r)
    ensures RecallBinds(After1(op, r))
    ensures r.lease.recall.Some? && After1(op, r).lease.epoch == r.lease.epoch
            && !(op.OpClaim? && Perform(op, r).Ok?)
            ==> After1(op, r).lease.recall.Some?
  {
    if op.OpUpdate? {
      var edited := op.mutate(r);
    }
  }

  /** [JOB-R3] [JOB-R5] [JOB-R6] No run escapes a recall: while no claim is granted the recall stays, and the
      lease is over by the deadline of the latest recall. */
  lemma {:induction false} RecallHolds(ops: seq<Op>, r: Record)
    requires AllKeepLease(ops)
    requires RecallBinds(r)
    ensures RecallBinds(After(ops, r))
    ensures r.lease.recall.Some? && Claims(ops, r) == 0 ==> After(ops, r).lease.recall.Some?
  {
    if ops != [] {
      RecallStep(ops[0], r);
      if ops[0].OpUpdate? {
        var edited := ops[0].mutate(r);
      }
      RecallHolds(ops[1..], After1(ops[0], r));
    }
  }

  /** When an operation that presents an epoch reads the clock to check the lease. */
  function CheckedAt(op: Op): Time
    requires op.PresentsEpoch()
  {
    if op.OpRecall? then op.now else op.checked
  }

  lemma RecallEnds(op: Op, r: Record)
    requires RecallBinds(r) && r.lease.recall.Some? && op.PresentsEpoch() && CheckedAt(op) >= r.lease.recall.value.until
    ensures Perform(op, r).Err?
  {
  }

  /** [JOB-R3] After a granted recall, whatever runs as long as nobody claims, the record stays recalled, and every operation
      that presents an epoch at or after the latest recall's deadline is refused: writing, renewing, releasing, recalling. */
  lemma NoWriteAfterRecall(recall: Op, ops: seq<Op>, late: Op, r: Record)
    requires recall.OpRecall? && Perform(recall, r).Ok?
    requires AllKeepLease(ops) && Claims(ops, After1(recall, r)) == 0 && late.PresentsEpoch()
    ensures var now := After(ops, After1(recall, r));
            && now.lease.recall.Some?
            && (CheckedAt(late) >= now.lease.recall.value.until ==> Perform(late, now).Err?)
  {
    var now := After(ops, After1(recall, r));
    RecallHolds(ops, After1(recall, r));
    if CheckedAt(late) >= now.lease.recall.value.until {
      RecallEnds(late, now);
    }
  }

  /** [JOB-R5] No claim sheds a recall while the lease is held, not even the holder's own: after a granted recall, whatever
      runs, the first granted claim comes when nobody holds the lease, and so after the latest deadline or a release. */
  lemma NoReclaimDuringRecall(recall: Op, ops: seq<Op>, claim: Op, r: Record)
    requires recall.OpRecall? && Perform(recall, r).Ok?
    requires AllKeepLease(ops) && Claims(ops, After1(recall, r)) == 0
    requires claim.OpClaim? && Perform(claim, After(ops, After1(recall, r))).Ok?
    ensures var now := After(ops, After1(recall, r));
            && now.lease.recall.Some?
            && !now.lease.Held(claim.now)
            && (forall t :: now.lease.Held(t) ==> t < now.lease.recall.value.until)
  {
    RecallHolds(ops, After1(recall, r));
  }

  /** Read off expires_at alone the deadline has one exception: a release whose second clock reading is already
      past it. That release leaves nobody holding the lease. */
  lemma RecallExpiryException(op: Op, r: Record)
    requires op.KeepsLease()
    requires ExpiresByRecall(r) && Perform(op, r).Ok?
    ensures !ExpiresByRecall(After1(op, r))
            <==> op.OpRelease? && r.lease.recall.Some? && At(op.gone) > r.lease.recall.value.until
  {
    if op.OpUpdate? {
      var edited := op.mutate(r);
    }
  }

  // ----- The two exceptions at an input -----

  function Leased(lease: Lease): Record {
    Record("id", "kind", None, Running, Json("{}"), Absent, Progress(0, 0, 0, None), lease, None, [], "", None, map[], 0, 0)
  }

  lemma LeasedIsValid(lease: Lease)
    requires lease.recall.Some? ==> lease.recall.value.reason == "why" && lease.recall.value.until != 0
    ensures Leased(lease).Valid()
  {
    assert !IsSpace("id"[0]) && !IsSpace("kind"[0]) && !IsSpace("why"[0]);
  }

  /** A valid record at the largest epoch is claimed, and stays valid at the smallest one. */
  lemma ClaimWraps() returns (r: Record, claim: Op)
    ensures r.Valid() && r.lease.epoch == INT64_MAX && claim.OpClaim?
    ensures Perform(claim, r).Ok? && After1(claim, r).Valid() && After1(claim, r).lease.epoch == INT64_MIN
  {
    r := Leased(Lease("", INT64_MAX, 0, None));
    claim := OpClaim("owner", 5000, 1000);
    LeasedIsValid(r.lease);
    LeasedIsValid(After1(claim, r).lease);
  }

  /** A held, recalled lease is released in time; the release reads the clock again after the deadline. */
  lemma ReleasePassesDeadline() returns (r: Record, release: Op)
    ensures r.Valid() && r.lease.recall.Some? && ExpiresByRecall(r) && release.OpRelease? && r.lease.Held(release.checked)
    ensures Perform(release, r).Ok? && !ExpiresByRecall(After1(release, r)) && RecallBinds(After1(release, r))
  {
    r := Leased(Lease("owner", 1, 2000, Some(Recall("why", "asker", 1000, 2000))));
    release := OpRelease(1, 1500, 3000, 3000);
    LeasedIsValid(r.lease);
  }
}
