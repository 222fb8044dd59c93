# job, verified

A Dafny model of the job library's stores, its recoverable admission provider, its self-contained JSON codec and its
range checkpoints, with proofs of what they promise. `dafny verify dfyconfig.toml` checks the whole project.

The project has four parts.

- **Lease protocol and its bindings.** `LeaseProtocol` says what each store operation does to one record, and proves
  fencing, terminal absorption and the recall deadline over every run. `FileBinding` and `MemoryBinding` are the two
  local stores as classes, each operation proved against the protocol. `RemoteBinding` is the socket client: it cannot
  ship a closure, so it reads, edits and writes conditionally, and is proved to lose no update.
- **Recoverable admission.** `Admission` is the durable state of a provider and every atomic change to it, and
  `Spelling` the one way a store changes a payload; `AdmissionSteps` proves the invariant, `AdmissionRuns` the
  properties of whole runs with crashes and reopenings anywhere, `AdmissionRecovery` which of them keep recovery
  possible, and `AdmissionLimits` and `MigrationLimits` where the source falls short of its contract, with the inputs
  that show it. `Provider` is the provider's calls as a class whose writes are those atomic changes, with anything the
  rest of the system may do between any two of its reads and writes (`Interference`); each call is thereby a run, and
  `ProviderFacts.Concludes` says what each call for an identity must have done and answered.
  `Migration` and `Inventory` are the legacy conversion and the paging machine. `Decision` holds the pure decisions.
- **The JSON codec.** `Bytes`, `Text`, `Numbers`, `OpaqueJson`, `Grammar`, `Reflow`, `RecordReader`, `Wire`, `Messages`, `Base64`,
  `Calendar` and `Timestamps`: specifications over byte sequences, the source's reader as a class with a position and a
  depth, and the round trips. `Scans` relates the record decoder's streaming scans to the same trees.
- **Range checkpoints.** `Ranges` and `RangeCheckpoints`.

Methods follow the source's loops and in-place updates and are proved against functions; the properties are lemmas
about those functions. Line numbers below are those of the modelled revision.

## What the proofs found

- A granted claim at epoch 2^63 - 1 wraps to the smallest int64 (`LeaseProtocol.EpochFallsOnlyByWrap`, at an input
  `LeaseProtocol.ClaimWraps`).
- A release reads the clock again after its lease check, so `expires_at` alone can pass a recall's deadline; nobody
  holds the lease then (`LeaseProtocol.RecallExpiryException`, at an input `LeaseProtocol.ReleasePassesDeadline`).
- `MemoryStore.Claim` moves `updated_at`, as the protocol document says a claim does; `FileStore.ClaimFrom` does not
  (`MemoryBinding.BindingsAgree`). The model follows the code.
- An accepted remote update silently drops a closure's changes to the lease, the intent and the requirements
  (`RemoteBinding.SameOnBothBindings`).
- JOB-A7 says that one key has at most one live job. Re-running an earlier, rights-refused attempt does not consult
  later attempts, and leaves two (`AdmissionLimits.TwoLiveAttempts`; without a re-run it holds: `AdmissionRuns.OneLivePerKey`;
  exactly when it holds over a run: `AdmissionRuns.OneLiveRunIff`).
- Reopening does not always succeed. Admission checks less than recovery needs. Prepared work may be the JSON value `null`
  (`AdmissionLimits.NullWorkIsAdmitted`). A spec may hold a raw U+2028 or U+2029, which the store writes as an escape, so that
  the record never matches its journal again (`AdmissionLimits.SeparatorIsAdmitted`). It may nest 64 deep, or take more than
  4 MiB once its record is written: the store writes what the provider's reader then refuses. A checkpoint or an extension
  nested too deep makes a published record undecodable too (`AdmissionLimits.DeepCheckpointSpoils`).
  `ProviderFacts.ProposalStorable` and `Provider.Provider.Open` say exactly when recovery succeeds,
  `AdmissionRecovery.NoneStuckRunIff` exactly which runs keep it so, and `AdmissionLimits.StuckForever` that a journal or a
  record that no longer decodes, and work no record gives back, are final.
- A re-run prepares the submission presented again, for whoever presents it, and every later read prepares the retained one.
  Argument equality ignores the order of guarantees, and the subject; preparation may not
  (`AdmissionLimits.RerunReadableIff`). An order-sensitive executor leaves a journal that never decodes again
  (`AdmissionLimits.OrderSpoils`). Every safety property of runs holds all the same, for any executor.
- Repeating a finished migration is reported as a conflict of owners while one of its guarantees is not on offer
  (`MigrationLimits.WithdrawnConflicts`), and for ever once its service marked one of its results lost
  (`MigrationLimits.LostConflicts`; exactly when: `Migration.ConflictIff`, `Migration.ConflictAfterServiceIff`).
- `ClearCheckpointRanges` leaves `verified_prefix`, so the record still claims the prefix
  (`RangeCheckpoints.Carrier.ClearCheckpointRanges`).

## Model

| member | source | states |
|---|---|---|
| `LeaseProtocol.EpochStep` | go/store.go:239-277 | the epoch moves exactly when a claim is granted, and then by one |
| `LeaseProtocol.EpochCountsClaims` | go/store.go:239-374 | over any run of operations the epoch has risen by the number of granted claims, so it never falls |
| `LeaseProtocol.EpochFallsOnlyByWrap` | go/store.go:271 | the epoch falls if and only if a claim is granted at the largest int64, which the source increments unchecked |
| `LeaseProtocol.ClaimWraps` | go/store.go:271 | a valid record at the largest epoch is claimed, and stays valid at the smallest one |
| `LeaseProtocol.Fencing` | go/store.go:282-374 | after a granted claim every later operation presenting an earlier epoch is refused, with the exact error, whatever ran in between |
| `LeaseProtocol.ClaimsAreExclusive` | go/store.go:253-277 | two granted claims of one run never hand out the same epoch |
| `LeaseProtocol.AcceptedWriteIsTheHolders` | go/store.go:353-374 | an update accepted at a claim's epoch means nobody claimed since and the lease had not expired |
| `LeaseProtocol.TerminalAbsorbs` | go/store.go:225-374 | over every run a terminal record changes in nothing but its lease's expiry |
| `LeaseProtocol.ClaimHandsOver` | go/store.go:263-275 | a granted claim's owner holds the lease until now + ttl, nobody else can claim until then, a recall is gone, and nothing else changed |
| `LeaseProtocol.ReleaseHandsOver` | go/store.go:337-347 | a release lets anyone claim at once, keeps epoch and recall, and demotes running work only when it is not delegated |
| `LeaseProtocol.ClaimGrantedIff` | go/store.go:253-277 | a claim is granted exactly on unfinished work that nobody else holds, or that its own unrecalled holder renews so; a claimable record is one anybody may claim |
| `LeaseProtocol.RenewExtends` | go/store.go:282-302 | a renewal is granted exactly to the epoch that holds the lease, which is then held until stamp + ttl or an earlier recall deadline; nothing else moves |
| `LeaseProtocol.RecallGrants` | go/store.go:306-332 | a recall is granted exactly against the epoch holding unfinished work, recorded as asked, and leaves the holder the lease until the grace ends; nothing else moves |
| `LeaseProtocol.WriteGrantedIff` | go/store.go:353-374 | a holder's write is accepted exactly under the holding epoch on unfinished work, when the closure succeeds and leaves what no holder owns alone; the result is the closure's, stamped |
| `LeaseProtocol.IntentIsRecorded` | go/store.go:225-237 | an intent is refused only on terminal work, needs no lease, and is what the record wants from then on |
| `LeaseProtocol.IdentityStays` | go/immutable.go:42-56 | over every run id, kind, spec, creation time and envelope never change |
| `LeaseProtocol.RecallStep` | go/store.go:297-332 | one operation keeps a recalled lease bound by its recall, and only a granted claim drops the recall |
| `LeaseProtocol.RecallHolds` | go/store.go:297-347 | no run escapes a recall: without a granted claim it stays, and the lease is over by the latest deadline |
| `LeaseProtocol.NoWriteAfterRecall` | go/store.go:268-374 | after a granted recall, over any run without a granted claim, the record stays recalled and every operation presenting an epoch at or after the latest deadline is refused |
| `LeaseProtocol.NoReclaimDuringRecall` | go/store.go:263-275 | after a granted recall, whatever runs, the first granted claim comes when nobody holds the lease, so no claim escapes the recall, not even the holder's own |
| `LeaseProtocol.RecallExpiryException` | go/store.go:337-347 | read off expires_at alone the deadline is exceeded if and only if a release's later clock reading is already past it |
| `LeaseProtocol.ReleasePassesDeadline` | go/store.go:337-347 | a held, recalled lease released in time whose expiry then lies past the deadline |
| `FileBinding.FileStore.Submit` | go/store.go:111-135 | creates exactly one new record if it is valid and its id is new; otherwise changes nothing and answers the error |
| `FileBinding.ProposedIs` | go/store.go:111-135 | a submitted record is pending unless proposed otherwise, carries its id and one stamp throughout, and keeps the rest of the proposal |
| `FileBinding.FileStore.Change` | go/store.go:150-170 | one compare-and-swap: the edit of the record on disk, validated, or nothing |
| `FileBinding.FileStore.SetIntent` | go/store.go:225-237 | the protocol's intent operation on the record on disk, exact result and exact new files |
| `FileBinding.FileStore.ClaimFrom` | go/store.go:253-277 | refused if the record changed hands since it was read; otherwise the protocol's claim on the record on disk |
| `FileBinding.FileStore.Claim` | go/store.go:239-245 | with anything happening between load and claim: granted only if nobody claimed meanwhile, keeping what else was written |
| `FileBinding.FileStore.Renew` | go/store.go:282-302 | the protocol's renewal, exact result and exact new files |
| `FileBinding.FileStore.Recall` | go/store.go:306-332 | the protocol's recall, exact result and exact new files |
| `FileBinding.FileStore.Update` | go/store.go:353-374 | the single gate for a holder's writes: exact result and exact new files |
| `FileBinding.FileStore.Release` | go/store.go:337-347 | a release is the update by the closure that lets go, with its three clock readings |
| `MemoryBinding.BindingsAgree` | go/memory.go:183-303 | the two local bindings refuse the same calls for the same reason and leave the same record, except that only this one's claim stamps updated_at |
| `MemoryBinding.MemoryStore.Submit` | go/memory.go:111-132 | creates exactly one new record, or changes nothing |
| `MemoryBinding.MemoryStore.List` | go/memory.go:144-159 | every record exactly once, in strictly ascending order of id |
| `MemoryBinding.MemoryStore.Orphans` | go/memory.go:165-181 | exactly the claimable records that are neither transferred nor paused before they ran, once each, in order of id |
| `MemoryBinding.MemoryStore.Claim` | go/memory.go:183-204 | the same protocol's claim over the map, exact new records |
| `MemoryBinding.MemoryStore.Renew` | go/memory.go:206-221 | the same protocol's renewal over the map |
| `MemoryBinding.MemoryStore.Recall` | go/memory.go:223-238 | the same protocol's recall over the map |
| `MemoryBinding.MemoryStore.Release` | go/memory.go:240-250 | the same protocol's release over the map |
| `MemoryBinding.MemoryStore.Update` | go/memory.go:252-283 | the same protocol's update over a copy, installed only if it is accepted |
| `MemoryBinding.MemoryStore.SetIntent` | go/memory.go:285-303 | the same protocol's intent over the map |
| `Sorting.SortStrings` | go/memory.go:305-311 | sorts in place: the array becomes the sorted copy of what it held |
| `Sorting.SortedCopySorts` | go/memory.go:305-311 | a sorted copy is in order and holds exactly what it was given |
| `Sorting.SortedIsUnique` | go/memory.go:305-311 | one multiset of values has one sorted list, so any sort gives this one |
| `Sorting.StringLessIff` | go/memory.go:305-311 | the order of ids is by the first character that differs, a proper prefix first |
| `RemoteBinding.WriteIsUpdate` | go/serve.go:106-186 | a conditional write lands exactly when the record has not moved and the in-process update would be accepted, and leaves the same record |
| `RemoteBinding.SameOnBothBindings` | go/serve.go:126-150 | the wire and the in-process update agree if and only if the accepted closure leaves lease, intent and requirements alone |
| `RemoteBinding.BindingsDiffer` | go/serve.go:126-150 | a closure that lets the lease go is a concrete case where they differ |
| `RemoteBinding.RemoteStore.Write` | go/remote.go:223-225 | one write exchange: exact answer, exact new files |
| `RemoteBinding.RemoteStore.Reconcile` | go/remote.go:200-221 | one read, edit and conditional write with writers in between: at most one write lands, and it is the closure's effect on the record at that moment |
| `RemoteBinding.RemoteStore.Update` | go/remote.go:183-198 | no lost update: success means one write landed with the closure's effect at that moment; a conflict means nothing changed and each of the four attempts met a moved record or a closure that answered a conflict itself |
| `Decision.GuaranteeSetAccepts` | go/abstraction/job/acceptance/decision.go:90-100 | a guarantee list is accepted exactly when no name is empty or repeated |
| `Decision.SameArgumentsIsSetEquality` | go/abstraction/job/acceptance/decision.go:136-142 | arguments are equal exactly when kind, specification and the set of guarantees are |
| `Decision.NormalizeLabelIdempotent` | go/abstraction/job/acceptance/decision.go:120-134 | a normalized label is its own normal form |
| `Decision.NormalizeLabelIs` | go/abstraction/job/acceptance/decision.go:120-134 | a label is refused exactly when its text between surrounding whitespace is over 256 bytes of UTF-8 or not one line; otherwise that text is stored |
| `Labels.LabelSize` | go/abstraction/job/acceptance/decision.go:124-127 | the size that is limited is the length of the label's UTF-8 |
| `Decision.EligibleIff` | go/abstraction/job/acceptance/decision.go:48-88 | a retry is eligible exactly after a sealed or failed attempt, with the arguments of the latest accepted one |
| `Decision.IneligibleIs` | go/abstraction/job/acceptance/decision.go:48-88 | which refusal each ineligible retry gets: a conflict, an invalid request, or unknown |
| `Decision.ReconcileEvidenceIff` | go/abstraction/job/acceptance/decision.go:170-223 | exactly when evidence gives an acceptance, a conflict and a definite negative |
| `Decision.UnanswerableIff` | go/abstraction/job/acceptance/decision.go:170-191 | exactly which requests are answered before any evidence is weighed, and how |
| `Decision.ReconcileEvidence` | go/abstraction/job/acceptance/decision.go:170-223 | acceptance or conflict only from a retained receipt, a definite negative only from a seal without one, each in the caller's own scope |
| `Decision.ReplayedProves` | go/abstraction/job/acceptance/decision.go:192-216 | a replayed acceptance covers every required guarantee and was asked with equal arguments; a conflict means they differ |
| `Decision.AnswersAreValid` | go/abstraction/job/acceptance/decision.go:144-168 | every answer passes the receiver's own result validation |
| `Admission.AppendNew` | go/acceptanceprovider/provider.go:315-322 | the accepted guarantees hold exactly the promised and the required ones, without repetition |
| `Admission.AcceptedCovers` | go/acceptanceprovider/provider.go:328-340 | what is accepted is a valid guarantee set and covers what was required |
| `Admission.ValidSpecIff` | go/acceptanceprovider/provider.go:819-835 | exactly which submissions are well formed: named, within every limit, with distinct guarantees, a usable label and JSON work other than null |
| `Admission.DecodedReceipt` | go/acceptanceprovider/provider.go:750-817 | a decoded acceptance is for its identity, owner and retention, and promises exactly admission's guarantees and the required ones, all kept by the profile |
| `Admission.ExtraIs` | go/acceptanceprovider/provider.go:1047-1052 | preparation and admission are shown exactly the guarantees beyond admission's own |
| `Admission.ExtraInOrder` | go/acceptanceprovider/provider.go:1047-1052 | and in the caller's order |
| `Admission.LaterTrans` | go/acceptanceprovider/provider.go:888-1125 | what never changes once true composes over time |
| `Spelling.RespelledIff` | go/record.go:792-819 | writing a payload and reading it back changes it if and only if it holds a raw U+2028 or U+2029, and writing it again changes nothing |
| `Spelling.SeparatorsEscaped` | go/record.go:792-819 | the two separators are written as their escapes |
| `Spelling.RespelledInOrder` | go/record.go:792-819 | a payload is respelled character by character |
| `AdmissionSteps.DecideKeeps` | go/acceptanceprovider/provider.go:937-982 | writing an identity's first journal keeps the whole invariant |
| `AdmissionSteps.InsertKeeps` | go/acceptanceprovider/provider.go:1090-1095 | inserting the record of a prepared journal, spelled as the store writes it, keeps the whole invariant |
| `AdmissionSteps.PublishKeeps` | go/acceptanceprovider/provider.go:1108-1113 | publishing over a matching record keeps the whole invariant |
| `AdmissionSteps.RerunKeeps` | go/acceptanceprovider/rerun.go:88-107 | naming a new operation after a rights refusal keeps the whole invariant, whatever preparation gives |
| `AdmissionSteps.MarkLostKeeps` | go/acceptanceprovider/operations.go:136-155 | marking a completed operation's result lost keeps the whole invariant |
| `AdmissionSteps.JobOpKeeps` | go/store.go:150-170 | any store operation an executor or caller runs on a job that decodes keeps the whole invariant, whether or not what it writes still loads |
| `AdmissionSteps.StepKeeps` | go/acceptanceprovider/provider.go:525-1143 | every atomic change anybody makes, a crash included, keeps the invariant and takes nothing back |
| `AdmissionRuns.InitialHolds` | go/acceptanceprovider/provider.go:549-575 | a fresh root, and one a finished legacy migration left, satisfy the invariant |
| `AdmissionRuns.RunKeeps` | go/acceptanceprovider/provider.go:525-1143 | every interleaving of calls, executors, crashes and reopenings keeps the invariant |
| `AdmissionRuns.SealedOrAccepted` | go/acceptanceprovider/provider.go:895-1015 | an identity ever answered definitely_not_accepted is never answered accepted, before or after |
| `AdmissionRuns.AcceptedIsMaterialized` | go/acceptanceprovider/provider.go:1005-1014 | every accepted reply names an operation of that identity whose record exists |
| `AdmissionRuns.InsertedOnce` | go/acceptanceprovider/provider.go:1078-1115 | no operation id is inserted twice in any run, and an insertion finds the durable journal that names it |
| `AdmissionRuns.NoRecordWithoutJournal` | go/acceptanceprovider/provider.go:1078-1115 | in every run from an empty root each record belongs to an operation some live journal's identity named |
| `AdmissionRuns.OneUnfinishedPerIdentity` | go/acceptanceprovider/rerun.go:51-117 | at every moment at most one operation of an identity is unfinished; each one it moved on from failed by a rights refusal |
| `AdmissionRuns.OperationChangesOnlyAfterRefusal` | go/acceptanceprovider/rerun.go:51-117 | between any two moments arguments, label and subject stay, and the operation changes only if the old one failed by a rights refusal |
| `AdmissionRuns.AttemptChain` | go/acceptanceprovider/provider.go:678-720 | attempts of a key are downward closed and carry equal arguments; without a re-run every earlier one is sealed, failed or lost |
| `AdmissionRuns.OneLivePerKey` | go/acceptanceprovider/provider.go:678-720 | at every moment of every run a key none of whose attempts was run again has at most one live job |
| `AdmissionRuns.OneLiveStepIff` | go/acceptanceprovider/rerun.go:51-117 | one change keeps a key at one live job if and only if, when it names an operation of the key, every other attempt is sealed or names a finished operation |
| `AdmissionRuns.OneLiveRunIff` | go/acceptanceprovider/rerun.go:51-117 | over whole runs a key has one live job at every moment if and only if each change that named an operation of it did so; other keys do not matter |
| `AdmissionRuns.FeatureBeforeUse` | go/acceptanceprovider/compatibility.go:135-169 | a journal with an attempt, label, lost result or subject exists only while the owner header lists its feature, and features stay listed |
| `AdmissionLimits.TwoLiveAttempts` | go/acceptanceprovider/rerun.go:51-117 | a run from an empty root that ends with two unfinished operations of one key, against JOB-A7 |
| `AdmissionLimits.NullWorkIsAdmitted` | go/acceptanceprovider/provider.go:955-963 | admission accepts prepared work that no record can hold: the JSON value null |
| `AdmissionLimits.SeparatorIsAdmitted` | go/acceptanceprovider/provider.go:819-835 | without an executor, a caller's spec with a raw U+2028 is accepted, and the root can never be opened again |
| `AdmissionLimits.DeepCheckpointSpoils` | go/record.go:835-869 | a run from an empty root in which an executor's checkpoint, nested one level too deep, makes a published record undecodable for good |
| `AdmissionLimits.OrderSpoils` | go/acceptanceprovider/rerun.go:80-107 | an order-sensitive executor and the same request with its guarantees in another order: a run from an empty root after which the journal never decodes again |
| `AdmissionLimits.StuckForever` | go/acceptanceprovider/provider.go:578-609 | a journal that no longer decodes, a record that no longer decodes, or unpublished work no record gives back, stays that way in every run, so opening never succeeds again |
| `AdmissionLimits.RerunReadableIff` | go/acceptanceprovider/rerun.go:80-107 | a re-run journal decodes under every deterministic executor if and only if the request came from the same subject with the same extra guarantees in the same order |
| `ProviderFacts.EvidenceSince` | go/acceptanceprovider/provider.go:678-690 | evidence read before the journal's lock still holds when the lock is taken |
| `ProviderFacts.EligibleNow` | go/acceptanceprovider/provider.go:908-975 | eligible evidence lets the journal in at whatever later moment it is written |
| `ProviderFacts.AcceptedDecodes` | go/acceptanceprovider/provider.go:750-817 | what admission writes is what recovery's decoder accepts |
| `ProviderFacts.JournalDecodes` | go/acceptanceprovider/provider.go:750-817 | a journal nobody ran again decodes at every moment of every run |
| `ProviderFacts.ProposalStorable` | go/acceptanceprovider/provider.go:1088-1104 | a journal's fresh record is stored, loads and matches, at any time, exactly when its work is JSON, not null, without a raw separator, within the nesting limit and within the reader's size |
| `ProviderFacts.RetainedAnswers` | go/acceptanceprovider/provider.go:989-1004 | a seal answers a definite negative; an acceptance replays its receipt to equal arguments and conflicts with any other |
| `ProviderFacts.FirstJournalDecides` | go/acceptanceprovider/provider.go:937-982 | an identity's first journal is a seal exactly when there are no arguments, a required guarantee is not on offer, or the executor prepares nothing, too much or no JSON; otherwise it accepts what was submitted under the fresh id |
| `ProviderFacts.EstablishedConcludes` | go/acceptanceprovider/provider.go:895-1015 | what a call established about the journal it read or wrote is all that Concludes says of its answer |
| `ProviderFacts.AnsweredLater` | go/acceptanceprovider/provider.go:984-1004 | the answer of a journal read later is what its identity was decided to answer before: a refused operation's repetition is decided again, any other end replays |
| `ProviderFacts.RefusedStays` | go/acceptanceprovider/rerun.go:58-65 | a rights refusal stays readable and stays the operation's end until the identity names another |
| `ProviderFacts.EntitledIsEligible` | go/acceptanceprovider/provider.go:678-720 | a retry whose previous attempt had ended and whose arguments repeat is found eligible, unless some evidence could not be read |
| `ProviderFacts.CompleteStays` | go/acceptanceprovider/rerun.go:62-65 | a completed operation is never moved on from |
| `ProviderFacts.IndexedOnce` | go/acceptanceprovider/provider.go:181-205 | an operation is never associated with two journals |
| `ProviderFacts.ShownLabel` | go/acceptanceprovider/provider.go:879-893 | the stored label is normalized, and a derived one is not empty |
| `ProviderFacts.ShownLabelIs` | go/acceptanceprovider/provider.go:879-893 | the caller's usable label, else the executor's usable one, marked derived, else none |
| `ProviderFacts.AdmissionRefusal` | go/acceptanceprovider/provider.go:1038-1070 | an admission refusal carries no receipt and is invalid, forbidden or unavailable |
| `ProviderFacts.AdmissionRefusalIs` | go/acceptanceprovider/provider.go:1038-1070 | admission refuses exactly when the guarantees are on offer and the executor answers invalid, forbidden or unavailable, with that outcome and a bounded reason |
| `ProviderFacts.RerunRefusal` | go/acceptanceprovider/rerun.go:66-85 | what keeps a refused operation as the answer carries no receipt; otherwise there is prepared work |
| `ProviderFacts.StandingRefusalIs` | go/acceptanceprovider/rerun.go:66-78 | a rule that refuses its recorded submitter is a forbidden with its word, one that cannot decide an unavailable |
| `ProviderFacts.RerunRefusalIs` | go/acceptanceprovider/rerun.go:66-87 | a refused operation is run again exactly when the rule permits, admission does not refuse and preparation succeeds; otherwise the first that refuses answers |
| `Provider.Provider.EnsureFeature` | go/acceptanceprovider/compatibility.go:135-169 | the header durably lists the feature before the call goes on |
| `Provider.Provider.IndexJournal` | go/acceptanceprovider/provider.go:181-205 | indexes the operation; the refusal of a second journal is never reached |
| `Provider.Provider.LookUp` | go/acceptanceprovider/provider.go:1088-1100 | the operation's record as it loads, inserted if only prepared; uninterrupted, an error means recovery of that identity fails as things stand |
| `Provider.Provider.Materialize` | go/acceptanceprovider/provider.go:1078-1115 | under the journal's lock: publishes over a record that loads and matches and changes nothing else; uninterrupted it fails only where the journal does not decode, its record does not load or match, or cannot be stored |
| `Provider.Provider.AttemptEvidence` | go/acceptanceprovider/provider.go:681-720 | everything it reports holds of the world at its return; it reports an absent attempt exactly when there was none, an ended one as ended, and contradictory evidence only for an attempt whose journal could not be read |
| `Provider.Provider.LatestAccepted` | go/acceptanceprovider/provider.go:703-718 | the walk finds some accepted attempt's arguments, or every earlier attempt is sealed, or names an attempt whose journal could not be read |
| `Provider.Provider.CheckAdmission` | go/acceptanceprovider/provider.go:1017-1034 | a refusal is answered only while the identity has no journal; uninterrupted, silence means it has one or admission does not refuse |
| `Provider.Provider.Admit` | go/acceptanceprovider/provider.go:937-982 | an existing journal that decodes answers unchanged; otherwise an eligible identity gets its first journal, a seal exactly when it must be and otherwise the submission accepted under the fresh id |
| `Provider.Provider.MoveOn` | go/acceptanceprovider/rerun.go:88-107 | the journal names a new operation if it decodes and still names the refused one; otherwise nothing changes; whatever it answers names another operation |
| `Provider.Provider.FailedRecord` | go/acceptanceprovider/rerun.go:35-65 | true if and only if the record can be read and a rights refusal failed it |
| `Provider.Provider.RerunRefused` | go/acceptanceprovider/rerun.go:51-117 | a journal whose operation was not failed by a rights refusal answers as read; otherwise the rule's, the admission's or the preparation's refusal is the answer, or the journal answered names a different operation |
| `Provider.Provider.Resolve` | go/acceptanceprovider/provider.go:895-1015 | accepted means a materialized operation of equal arguments, a definite negative a durable seal; a first journal this call writes is a seal exactly when it must be, else accepted under the fresh id; a decided identity answers as decided, a refused operation's repetition with a refusal now or a different operation; uninterrupted, a first attempt or a due retry is decided unless admission refuses it |
| `Provider.Provider.Submit` | go/acceptanceprovider/provider.go:848-863 | all of this for a submission, whose label leaves the arguments; an empty scope is forbidden and a malformed submission invalid, neither writing a first journal |
| `Provider.Provider.Reconcile` | go/acceptanceprovider/provider.go:864-869 | all of this without arguments, so that an undecided identity is sealed |
| `Provider.Provider.CancelWork` | go/acceptanceprovider/provider.go:1127-1143 | requested means the intent is on an operation this identity was accepted with, already terminal that it is; uninterrupted, an accepted identity's cancellation is unknown only where recovery fails or its record does not decode |
| `Provider.Provider.Observe` | go/acceptanceprovider/operations.go:76-114 | observes a matching record of the identity's own operation and never decides one; uninterrupted, a seal is not accepted, and an acceptance is observed unless recovery fails or it names another operation by now |
| `Provider.Provider.RecordResultLost` | go/acceptanceprovider/operations.go:136-155 | a completed operation's journal is marked lost, still naming that operation; it succeeds whenever its two file accesses do |
| `Provider.Provider.Open` | go/acceptanceprovider/provider.go:525-611 | on success every accepted journal is published over a record carrying its work; uninterrupted and with no other record writer, success if and only if no accepted journal is undecodable, unloadable, mismatched or unstorable; with other writers a failure names one that is |
| `AdmissionRecovery.NoneStuckStepIff` | go/acceptanceprovider/provider.go:578-609 | one change leaves every identity recoverable if and only if an accepted journal's record can be stored, a re-run is prepared as the retained request would be, and a write to a job an identity names leaves a record that loads, its spec spelled as before |
| `AdmissionRecovery.NoneStuckRunIff` | go/acceptanceprovider/provider.go:578-609 | over whole runs an opening would succeed at every moment if and only if every change did so; crashes, reopenings, materializations and lost results never matter |
| `AdmissionRecovery.FreshRootIsClear` | go/acceptanceprovider/provider.go:549-575 | the same for every run from an empty root, where nobody is stuck to begin with |
| `AdmissionRecovery.SameRequestIsPreparedAlike` | go/acceptanceprovider/rerun.go:80-87 | the same subject presenting the same extra guarantees in the same order is prepared alike by every executor |
| `Ranges.CanonicalRanges` | go/ranges.go:117-157 | refuses exactly negative or reversed ranges; otherwise a canonical list of the same bytes |
| `Ranges.CanonIsCanonical` | go/ranges.go:117-157 | the canonical form is sorted, gapped, non-empty and proves the same bytes |
| `Ranges.SameCanonIffSameBytes` | go/ranges.go:107-121 | two valid lists get the same spelling if and only if they prove the same bytes |
| `Ranges.CanonicalIsUnique` | go/ranges.go:107-121 | one set of bytes has one canonical list |
| `Ranges.CanonOfCanonical` | go/ranges.go:117-157 | a canonical list is its own canonical form |
| `Ranges.Union` | go/ranges.go:170-177 | proves exactly what either set proves; adding is the union with one range |
| `Ranges.VerifiedPrefix` | go/ranges.go:159-167 | the longest run of proven bytes from zero |
| `Ranges.Covers` | go/ranges.go:179-191 | true exactly when every byte of the interval is proven |
| `Ranges.Missing` | go/ranges.go:193-219 | exactly the unproven bytes of the interval, canonically |
| `Ranges.Total` | go/ranges.go:221-228 | the size of the set of proven bytes, within int64 |
| `RangeCheckpoints.RangesFromCheckpoint` | go/ranges.go:248-290 | the canonical union of what both members claim, refused exactly for unreadable claims |
| `RangeCheckpoints.CheckpointWithRanges` | go/ranges.go:292-354 | the canonical spelling beside every other member |
| `RangeCheckpoints.WrittenReadsBack` | go/ranges.go:265-354 | reading back what was written gives the set written |
| `RangeCheckpoints.OneSpelling` | go/ranges.go:356-382 | two checkpoints with ranges are written alike if and only if they prove the same bytes beside the same members |
| `RangeCheckpoints.CanonicalizedIsStable` | go/ranges.go:356-382 | writing a record again changes nothing |
| `RangeCheckpoints.Carrier.SetCheckpointRanges` | go/ranges.go:393-410 | the record proves exactly the given bytes and declares the feature |
| `RangeCheckpoints.Carrier.AddCheckpointRange` | go/ranges.go:414-424 | the record proves what it proved and the new range |
| `RangeCheckpoints.Carrier.ClearCheckpointRanges` | go/ranges.go:426-475 | what stays claimed is exactly the prefix member; other members and declarations stay |
| `Calendar.YearStartSteps` | go/rec/rec.go:1217-1228 | the closed day count gives every year its length |
| `Calendar.DateIsUnique` | go/rec/rec.go:1217-1228 | a day number has one date |
| `Calendar.DayBeforeIsOneLess` | go/rec/rec.go:1257-1269 | carrying one day back crosses months, leap years and years exactly |
| `Calendar.DayAfterIsOneMore` | go/rec/rec.go:1270-1277 | carrying one day on crosses months, leap years and years exactly |
| `Timestamps.AcceptedIff` | go/rec/rec.go:1229-1281 | accepted exactly when spelled as section 5.6 of RFC 3339 says without leap seconds, on the calendar and clock, and within years 0000 to 9999 of UTC |
| `Timestamps.NormalizedKeepsInstant` | go/rec/rec.go:1229-1303 | the instant is kept, floored to microseconds, and normalization is idempotent |
| `Timestamps.OneSpelling` | go/rec/rec.go:1229-1303 | two accepted timestamps are written alike if and only if they name the same microsecond |
| `Timestamps.SpelledReads` | go/rec/rec.go:1282-1303 | the writer's spelling reads back as its own fields |
| `Timestamps.LexicalTimestamp` | go/rec/rec.go:1161-1189 | the scan accepts exactly the lexical form |
| `Timestamps.Put` | go/rec/rec.go:1283-1288 | writes the last digits of a value in place and touches nothing else |
| `Timestamps.Carry` | go/rec/rec.go:1253-1278 | the in-place day, month and year carries give the calendar's day before or after |
| `Timestamps.NormalizedTimestamp` | go/rec/rec.go:1229-1303 | the source's own steps compute the specified normal form |
| `Text.EscReadsBack` | go/rec/rec.go:182-188 | what the writer spells reads back, exactly for valid UTF-8, whatever follows (section 7 of RFC 8259) |
| `Text.EscIsPrintable` | go/rec/rec.go:7-29 | the writer's spelling holds no control byte |
| `Text.EscKeeps` | go/rec/rec.go:7-29 | text without quotes, backslashes and control bytes is written as it is |
| `Text.EscLast` | go/rec/rec.go:182-188 | the writer spells byte by byte |
| `Text.EscShortens` | go/rec/rec.go:7-29 | quotes, backslashes and five control bytes take one byte more, the other control bytes six |
| `Text.RuneEscapeReads` | go/rec/rec.go:744-789 | an escaped code point, a surrogate pair included, reads as its UTF-8 bytes |
| `Text.RuneOfBytes` | go/rec/rec.go:813-823 | the bytes written for a code point are its one valid shortest rune |
| `Text.EncodedDecodes` | go/rec/rec.go:825-859 | valid UTF-8 decodes to the code points it encodes |
| `Text.DecodedEncodes` | go/rec/rec.go:825-859 | valid UTF-8 is exactly the encoding of its code points |
| `Text.WriteString` | go/rec/rec.go:182-188 | the loop writes the specified spelling |
| `Text.StrLocal` | go/rec/rec.go:712-742 | how a string reads does not depend on what follows it |
| `Grammar.StringIff` | go/rec/rec.go:712-789 | a string is accepted, with its meaning, exactly when it is a sequence of plain bytes, two-letter escapes, code units that are no surrogates, and surrogate pairs, and means valid UTF-8 |
| `RecordReader.IsUtf8` | go/rec/rec.go:825-859 | the loop accepts exactly valid UTF-8 |
| `RecordReader.Reader.ReadEscape` | go/rec/rec.go:744-789 | value, position and refusal of every escape, surrogate pairs included |
| `RecordReader.Reader.ReadStr` | go/rec/rec.go:712-742 | value, position and refusal of a string |
| `Numbers.IntegerIff` | go/rec/rec.go:861-908 | integer accepts exactly the spellings num prints, within the caller's bounds |
| `Numbers.NumReadsBack` | go/rec/rec.go:31-50 | every int64 within bounds is read back from its spelling |
| `Numbers.NumInto` | go/rec/rec.go:31-50 | the digits written backwards into a 24-byte buffer, which never overflows, are the spelling |
| `RecordReader.Reader.ReadInteger` | go/rec/rec.go:861-908 | value, position and refusal of an integer; the uint64 accumulator never wraps |
| `OpaqueJson.ValueIff` | go/rec/rec.go:1018-1142 | skipValue accepts exactly the texts of well-formed trees: the JSON grammar with distinct decoded names within the depth limit |
| `OpaqueJson.ValueSplits` | go/rec/rec.go:1018-1142 | what is accepted is the text of the tree answered, and nothing else is consumed |
| `OpaqueJson.ValueReads` | go/rec/rec.go:1018-1142 | every well-formed tree's text is accepted as that tree, whatever follows |
| `Grammar.NumberIff` | go/rec/rec.go:1048-1090 | a number is walked exactly when it is written as section 6 of RFC 8259 says |
| `RecordReader.Reader.SkipNumber` | go/rec/rec.go:1048-1090 | position and refusal of a walked number |
| `RecordReader.Reader.SkipValue` | go/rec/rec.go:1018-1041 | position, refusal and restored depth of a walked value |
| `RecordReader.Reader.SkipContainer` | go/rec/rec.go:1092-1142 | the loop that keeps only the names seen refuses and stops where the tree's walk does |
| `Reflow.FlatTree` | go/rec/rec.go:2515-2542 | the flat printer writes the same tree without whitespace |
| `Reflow.IndentedTree` | go/rec/rec.go:76-134 | the indenting printer writes the same tree set on indented lines |
| `Reflow.NewLineIs` | go/rec/rec.go:52-57 | a line at a depth starts with a newline and two spaces for each level |
| `Reflow.ReflowIsAccepted` | go/rec/rec.go:76-134 | both outputs are accepted again with every name, string and number token unchanged |
| `Reflow.SameReflow` | go/rec/rec.go:76-134 | texts of the same tokens are re-emitted alike |
| `Reflow.ReflowLaws` | go/rec/rec.go:2515-2542 | flattening undoes indenting and the reverse, and each is idempotent, at any depths |
| `Reflow.FlatIsOneLine` | go/rec/rec.go:2515-2542 | the flat form of an accepted value holds no control byte |
| `Reflow.RawFlat` | go/rec/rec.go:2515-2542 | the loop writes the flat form |
| `Reflow.Raw` | go/rec/rec.go:76-134 | the loop writes the indented form |
| `Messages.RequestRoundTrip` | go/rec/rec.go:2623-2701 | decoding an encoded request gives it back with opaque members flat, for all sendable values and any trailing whitespace |
| `Messages.ResponseRoundTrip` | go/rec/rec.go:2703-2789 | decoding an encoded response gives it back with opaque members flat |
| `Messages.MessagesAreLines` | go/rec/rec.go:2623-2775 | an encoded message holds no newline |
| `Messages.RequestMembers` | go/rec/rec.go:2623-2687 | a request's member is on the wire exactly when its field is not empty; op always is |
| `Messages.ResponseMembers` | go/rec/rec.go:2703-2775 | a response's member is on the wire exactly when its field is not empty |
| `Wire.FramingIsUnambiguous` | go/remote.go:58-65 | two framed messages that begin alike are the same message |
| `Wire.FieldReads` | go/rec/rec.go:910-1016 | every kind of written field reads back flattened, whatever follows |
| `Wire.EncodedReads` | go/rec/rec.go:2125-2392 | the member loop reads every written field of any table of distinct keys |
| `Wire.MessageIs` | go/rec/rec.go:2125-2392 | an encoded message is refused if it lacks its required member or if anything but whitespace follows it, and otherwise gives its fields |
| `Wire.UnknownIsDropped` | go/rec/rec.go:2125-2392 | a member nobody knows is walked and dropped, whatever accepted value it has |
| `Wire.RepeatIsRefused` | go/rec/rec.go:2125-2392 | a known member that comes twice is refused |
| `Messages.EncWireRequest` | go/rec/rec.go:2623-2687 | the writer's steps give the specified encoding |
| `Messages.EncWireResponse` | go/rec/rec.go:2703-2775 | the writer's steps give the specified encoding |
| `Messages.ReadMessage` | go/rec/rec.go:2125-2392 | the reader's steps give exactly the specified fields or refusal, with its word and offset |
| `Messages.ReadWholeList` | go/rec/rec.go:928-959 | string and opaque lists: items, position, depth and refusals |
| `Base64.DecodeIff` | go/abstraction/job/acceptance/rec.go:5771-5847 | binary inverts encodeBinary and accepts nothing else (sections 3.5 and 4 of RFC 4648) |
| `Base64.TwoSpellings` | go/abstraction/job/acceptance/rec.go:5844-5846 | a text whose groups decode but whose spare bits are set is refused by the final comparison |
| `Base64.StandardExamples` | go/abstraction/job/acceptance/rec.go:5771-5796 | the examples of section 10 of RFC 4648 and the two letters that are no letters |
| `Base64.EncodeBinary` | go/abstraction/job/acceptance/rec.go:5771-5796 | the loop writes the specified text |
| `Base64.Binary` | go/abstraction/job/acceptance/rec.go:5797-5847 | the loop over groups and letters computes the specified value or refusal |
| `Scans.DuplicateScanIff` | go/record.go:871-932 | the explicit-stack scan refuses exactly when some object at some depth repeats a decoded name |
| `Scans.NestingScanIff` | go/record.go:839-869 | the counter refuses exactly when nesting exceeds 64 |
| `Scans.AgreesWithReader` | go/record.go:839-932 | the generated reader's recursion accepts a grammatical value exactly when both scans let it through |
| `Scans.RefuseDuplicateNames` | go/record.go:884-932 | the loop over the token stream computes the scan |
| `Scans.RefuseDeepNesting` | go/record.go:844-869 | the loop over the token stream computes the count |
| `Migration.LegacyJournal` | go/acceptanceprovider/migration.go:337-362 | the journal of an assignment under what is on offer is published, names its operation and owner, and decodes |
| `Migration.LegacyJournalIff` | go/acceptanceprovider/migration.go:337-362 | a checked assignment has a journal exactly when its guarantees are on offer and the executor prepares it within the limits |
| `Migration.OfferedIff` | go/acceptanceprovider/migration.go:337-362 | what is on offer decides only whether there is a journal, never what it holds |
| `Migration.ConflictIff` | go/acceptanceprovider/migration.go:382-501 | over files any sequence of migrations, crashes and abandons left, a conflict means another mapping, or a written journal whose guarantee is not on offer now |
| `Migration.ConflictAfterServiceIff` | go/acceptanceprovider/migration.go:412-431 | after any run of the service that opened a finished migration, repeating it conflicts if and only if it is another mapping, a migrated journal's guarantee is not on offer, or a migrated journal was marked lost |
| `MigrationLimits.WithdrawnConflicts` | go/acceptanceprovider/migration.go:412-431 | a finished migration whose repetition conflicts because a guarantee is not on offer |
| `MigrationLimits.LostConflicts` | go/acceptanceprovider/migration.go:412-431 | a finished migration and a run of its service that marks a result lost, whose repetition conflicts with everything on offer |
| `Migration.ConvertibleIff` | go/acceptanceprovider/migration.go:446-499 | nothing is refused if and only if every file is readable and its record terminal, some assignment names it with the digest it has now and is reproduced by its journal, and every assignment has a record |
| `Migration.RefusalReason` | go/acceptanceprovider/migration.go:446-499 | exactly which entries are refused for each of the seven reasons |
| `Migration.RefusedEntriesAre` | go/acceptanceprovider/migration.go:382-501 | the refusals listed are exactly those of the directory's entries, each with its reason |
| `Migration.MissingEntriesAre` | go/acceptanceprovider/migration.go:382-501 | the missing ones listed are exactly the assignments without a record |
| `Migration.WrittenByIsLater` | go/store.go:150-170 | whatever run of store operations legacy writers make, a terminal record keeps everything but its lease's expiry |
| `Migration.LegacyRoot.Evaluate` | go/acceptanceprovider/migration.go:382-501 | exact verdict: conflict, finished, or exactly the refused and missing entries |
| `Migration.LegacyRoot.MigrateLegacy` | go/acceptanceprovider/migration.go:294-328 | stopped after any file write the files stay sound over terminal records that carry their work; conflicts exactly as above, a finished migration verified, and neither writes; anything is written only over entirely reviewed records, success means every record still descends from the reviewed one, moved that one no longer does, interrupted that the process stopped; and success is a root admission may start from |
| `Migration.LegacyRoot.Commit` | go/acceptanceprovider/migration.go:563-635 | plan, then journals, then owner, stopped anywhere: the owner exists only over the plan and every exact journal; moved names an assignment that is not ready |
| `Migration.LegacyRoot.WriteOne` | go/acceptanceprovider/migration.go:592-617 | a journal is written exactly while its record has the reviewed digest, is terminal and reproduced, unless the process stops |
| `Migration.LegacyRoot.AbandonLegacyMigration` | go/acceptanceprovider/migration.go:511-561 | a finished migration is refused; otherwise journals go before their plan, and uninterrupted nothing is left |
| `Migration.FinishedIsInitial` | go/acceptanceprovider/migration.go:382-440 | a finished migration is a root the admission protocol may start from, derived from what was checked when each journal was written |
| `Inventory.TurnKeeps` | go/acceptanceprovider/inventory.go:170-228 | one turn neither loses nor repeats a snapshot, keeps the read budget non-negative and takes from the work |
| `Inventory.PageProgresses` | go/acceptanceprovider/inventory.go:167-229 | every page ends the directory or leaves less to do, even an empty one |
| `Inventory.PageWithinLimits` | go/acceptanceprovider/inventory.go:167-229 | a page holds at most the caller's limit of snapshots, 512 KiB and 256 scanned entries, and is cut short only where one of these or the read budget is reached |
| `Inventory.CallRefusedIff` | go/acceptanceprovider/inventory.go:99-165 | exactly which calls are invalid or a gap, and which answer the kept page again |
| `Inventory.NewPageIs` | go/acceptanceprovider/inventory.go:230-256 | any other call answers a page, complete exactly when it ends the directory, with the next cursor in sequence otherwise, kept for a lost reply |
| `Inventory.ActKeeps` | go/acceptanceprovider/inventory.go:99-256 | every proper call is answered; a repeated continuation call changes nothing and answers the same page |
| `Inventory.ExactlyOnce` | go/acceptanceprovider/inventory.go:99-256 | following cursors with any repeats collects a prefix of the matching journals, all of them at completion, within a bounded number of calls |
| `Inventory.Session.Fill` | go/acceptanceprovider/inventory.go:167-229 | the scan loop computes the specified page and position, within the limit, the page's bytes and the scanned entries |
| `Inventory.Session.ListWork` | go/acceptanceprovider/inventory.go:99-256 | the call computes the specified answer and session, within the limits |

## Left out

- Compare-and-swap of one file is one atomic step; its lock files, retries and platform behaviour are not modelled.
- New identifiers are fresh, request paths are injective and record digests are a function of the record.
- A payload is absent, malformed or JSON with its compact text. A raw separator is respelled in a written spec, which recovery compares; in a checkpoint or an extension, whose JSON value it keeps, it is not. Lengths count characters.
- How deep a payload nests and how long a written record is are functions the configuration gives; a journal file always fits its own bound.
- The operation index serves the lookup of an operation's subject, which is not modelled; that an accepted operation is entered when its journal is read is stated of `IndexJournal` alone.
- Content and critical features, legacy upgrades and the checkpoint rewrite inside `Encode` are not part of the record model.
- The executor's several preparation interfaces are one arbitrary deterministic function of the caller, the operation, and the submission's kind, spec and extra guarantees; a subject's origin and evidence are not modelled.
- Executors and legacy writers leave a record's requirements alone, which the store does not check.
- The standing clock and recheck are store operations like any other; only the decision at a re-run is an input.
- Opening has the journals to itself while it recovers: other calls wait, executors do not. The exact condition of `Open` is for a call during which nobody else writes a record; the two other promises are for any.
- A storage version, profile and owner header that do not match, and the checks of the header's text, are not modelled.
- Reading result bytes, waiting words, failure reports and operation snapshots are not modelled.
- FileBinding.FileStore.Change: a record nested too deep to decode is refused by the source before the edit; the admission model has that refusal (`Decodable`), this class does not.
- Listing files by age, `WorkPath`, `Watch`, the awake lease and links are not modelled; the memory store's list and orphans are.
- `copyOf` and aliasing of caller memory are not modelled: records are values.
- Sockets, deadlines, TLS, peer identity and dispatch of the other service operations are not modelled.
- The record's own member-by-member encoding (`encRecord`, `decodeRecord`), its derived content and the generated C++ and Python copies are not modelled.
- Reflow.Raw: a text that ends inside an escape is cut there; the source's slice would panic, and no accepted text does.
- `encoding/json` under `record.go`, `ranges.go` and the journals: the model starts from tokens, trees or members.
- RangeCheckpoints.RangesFromCheckpoint: on members already decoded; a key that is a case variant of another is not considered.
- Migration: grammar checks of an operator's mapping and its sorting are taken as done (`Normal`); unrecognized directory entries are unreadable ones.
- Migration.LegacyRoot.MigrateLegacy: the read-only pass before the host lease is the same evaluation and writes nothing, so it is not repeated in the model; no service runs on the root meanwhile.
- Migration.LegacyRoot.Evaluate: refusals are listed in directory order, then the missing records; the source sorts the list.
- Inventory: one session; the table of 32 sessions, tokens, scopes and the expiry timer are inputs, and the page sequence number is unbounded.
- Inventory.ExactlyOnce: over a directory whose journals are published, readable and within the provider's own size limits, as the source requires.
