# Verified model of the single-controller engineer's crash-safe protocols

The repository is a set of protocols that write an intent, act, read back and record the result, so that a
process may be lost between any two steps. This project models them as small state machines and imperative
classes, together with the pure codecs and commitments they rest on, and proves their promises with Dafny 4.11.

`dafny verify dfyconfig.toml` checks every file. The modules, one per file:

| module | what it models |
|---|---|
| `Installer` | the journaled install and uninstall of the packaged skill set, and its recovery |
| `Recovery` | the command coordinator: reconcile, persist an intent, act once, persist the observation |
| `Fencing` | root and child projections, the mutation batch and its validator, the readback check |
| `RowStore`, `RowReads`, `RowDiff` | the SQL rows of one aggregate: counted UPDATE, load, discovery, delta audit |
| `Canonical`, `JsonReader` | the canonical JSON printer, and a reader of JSON written from the grammar |
| `ProjectionCodec`, `ProjectionSize` | the compact provenance encoding and what it saves |
| `Provenance` | keyed provenance commits over an abstract Git history |
| `Outbox` | the feedback outbox and the creation of provider issues |
| `Carry` | claims on a predecessor's deferred provenance, by runs that race |
| `OperationLock` | the socket lock, as interleaved file-system calls |
| `Text`, `Collections`, `Wrappers` | UTF-16 texts under code-unit order, sorting by a key, small set facts, `Option` |

Conventions. A SHA-256 commitment over domain-separated canonical JSON is a datatype constructor of the
committed value, so two commitments are equal exactly when domain and value are; `Canonical` proves the
property of the printer this rests on. Canonical equality of typed records is equality of values. Process loss
is the fault model: in `Installer` every change of the file system spends one unit of a budget, so a statement
about every budget covers a loss at every point; elsewhere a method may return `Lost` between steps. What
the environment does is a parameter (a `World`, a `Provider`, an `Attempt`): a theorem holds for every value of it,
and a contract can say what each answer leads to. In `OperationLock`, where processes interleave, every
file-system call is one step of a function over the shared files, and a theorem ranges over all schedules.

Assumptions about the environment, stated where they are used: renames are atomic; one command at a time runs
under the operation lock and one flush of a packet under its submission lock; the adapter's `absent` and
`observed`, and the provider's complete listing, are truthful; what the adapter observes or acknowledges is never
itself an ambiguity event (only src/commands/recovery.ts:585 builds one, and
src/commands/production-recovery.ts:399-522 builds an observation of the effect's own kind); a subprocess does not
outlive its process; a local merge that ends ordinarily with a nonzero exit has not moved the branch; other actors
fast-forward the integration branch but bring no commit with the attempt's key; a captured inode is re-checked and
unlinked in one step and inode identities are not reused; a run's identifier is used once.

Results that say where a plausible promise fails. Recovery of an installation does not always converge:
`Installer.Stuck` is exactly the set of states from which it throws, both windows are reached by calls lost at a
given step, and nothing is lost in them. A holder's release of the operation lock does not always succeed, and a
crash can leave files no later acquire clears: `OperationLock.ReleaseAlone` and
`OperationLock.AcquireAfterCrashes` give the exact conditions, with executions that reach the failing side. A
fully compact projection does not always re-compact to itself: `ProjectionCodec.Recompaction` says when. A
provenance refusal is not always true of a remote: `Provenance.Repository.LandRemote` proves that an observed
refusal hides a landed commit if and only if the attempt was `Provenance.Overtaken`, a condition on the two pushes
of other actors and on what is served, and `RemoteRefusalHidesALanding` reaches that state. Successive submit
intents carry different nonces only because a flush compares them: `markSubmitIntent` itself records any nonce.

## Model

| member | source | states |
|---|---|---|
| Installer.ValidInstalledIsExact | src/install/index.ts:424-432 | a destination validates against a manifest exactly when it is that manifest's four entries and nothing else |
| Installer.Host.RenameOut | src/install/index.ts:459-481 | a rename out of the destination is only ever made onto a free name of the backup (a precondition every caller proves), and moves exactly one entry or nothing |
| Installer.Host.RenameIn | src/install/index.ts:459-481 | a rename into the destination is only ever made onto a free name (a precondition every caller proves), moves one entry, and fails without effect when the source is missing |
| Installer.Host.RemoveDirectory | src/install/index.ts:505-506 | `rm -r` of a directory can be lost with any part of it removed, and touches no other directory |
| Installer.Host.CleanCommitted | src/install/index.ts:488-509 | cleaning a commit throws, changing nothing, exactly when the installed set is not the committed one; done, it has removed stage, backup and journal only |
| Installer.Host.CleanRollback | src/install/index.ts:589-605 | cleaning a rollback throws, changing nothing, exactly when the destination is not the prior set |
| Installer.Host.RestoreBackup | src/install/index.ts:525-575 | whatever stops it, the journal survives and nothing of the destination is deleted but kept installed, in the backup or moved aside; done, the prior set is installed; from a ready state it throws exactly when the backup directory is gone, and then changes nothing |
| Installer.RestoreSettles | src/install/index.ts:525-575 | wherever restoring stops, the disk is recoverable and settles on the prior set or on what it settled on before |
| Installer.Host.RollBack | src/install/index.ts:607-638 | a rollback ends with the prior set and no journal, or is lost in a state that still settles on the prior or the unchanged set, or throws exactly when the backup of a prior set is gone |
| Installer.Host.Recover | src/install/index.ts:607-638 | from every recoverable disk, lost anywhere, recovery keeps the settled set; it throws exactly in the two rollback windows and then changes no byte; uninterrupted and not stuck it ends with no journal |
| Installer.Host.ReadOwned | src/install/index.ts:353-457 | a destination is accepted exactly when it is empty or exactly one recorded set, and the recorded manifest is that set's |
| Installer.Host.InstallSkills | src/install/index.ts:715-809 | with any loss point and any throwing hooks the settled set is the old or the new one; a normal return has the new set and no journal, a throw the old one; not lost, it succeeds exactly on an owned destination whose hooks are quiet |
| Installer.Host.UninstallSkills | src/install/index.ts:811-861 | the settled set stays the installed one until the commit is durable, then is empty; a throw leaves the installed set; not lost, it succeeds exactly on a non-empty owned destination whose hooks are quiet |
| Installer.Host.BackUpPresent | src/install/index.ts:768-777 | backing up moves present entries one by one and leaves, at every loss or fault, a state that recovers to the prior set |
| Installer.Host.SwapIn | src/install/index.ts:778-786 | swapping in lands every staged entry on a free name and leaves, at every loss or fault, a recoverable state that settles on the prior or the new set |
| Installer.Host.CommitInstall | src/install/index.ts:787-806 | the commit point: the validated new set becomes final, or the prior set is restored |
| Installer.StuckLosesNothing | src/install/index.ts:525-605 | in both windows the whole old set is installed and nothing else is |
| Installer.PriorSetInExactlyOnePlace | src/install/index.ts:488-638 | in every recoverable state with a prior set, each of its four entries is intact in exactly one of backup and destination, until the new set or an uninstall is committed |
| Installer.Host.History | src/install/index.ts:715-861 | over any history of lost and failing calls the disk stays recoverable and settles on the start set or on a set some call asked for |
| Installer.InstallRollbackWindow | src/install/index.ts:599-604 | the install window is reached: an upgrade whose last hook throws, lost after its 28th step, leaves it, and recovery throws in it |
| Installer.UninstallRollbackWindow | src/install/index.ts:561-575 | the uninstall window is reached: an uninstall lost after its second step and a recovery lost after its ninth leave it, and recovery throws in it |
| Recovery.ReductionSettlesExactly | src/protocol/reducer.ts:9158-9173 | under the reducer contract a transition settles exactly the effect its observation names and opens exactly the one it emits, compaction included |
| Recovery.ReductionKeepsRunOk | src/protocol/reducer.ts:9081-9120 | journal ids stay distinct and issued through compaction and emission |
| Recovery.RecoverableExactly | src/commands/recovery.ts:377-398 | the recoverable effects are the six plain kinds, and the two controller transitions only with their slot evidence |
| Recovery.Coordinator.Discover | src/commands/recovery.ts:734-768 | the adapter's discovery: absence and observation are truthful, an observation is not an ambiguity, everything else may be answered |
| Recovery.Coordinator.Execute | src/commands/recovery.ts:782-795 | the act: callable only for an effect the store already journals as outstanding, that is admitted and not yet applied |
| Recovery.Coordinator.PersistEvent | src/commands/recovery.ts:660-715 | the store moves to the reduced state exactly when the batch is built and the write lands, whatever is answered; a run is returned exactly when a load then reads back that state |
| Recovery.Coordinator.PersistEntryEvent | src/commands/recovery.ts:574-618 | an observation or ambiguity moves its own entry to that status and no other entry |
| Recovery.Coordinator.Retry | src/commands/recovery.ts:779-795 | positive absence is the only authority to act again; the act is made once or lost, and a thrown or delivered act is only unclear |
| Recovery.Coordinator.ReconcileEntry | src/commands/recovery.ts:724-812 | one entry, answer by answer: the loop goes on only with the entry settled, or untouched by a state query; a tool request is delivered with the entry as it was, or, when it asks for the mark, with the entry ambiguous one revision on; nothing is acted on but positive absence |
| Recovery.Coordinator.Reconcile | src/commands/recovery.ts:717-814 | a run returned to a command has settled every effect outstanding at the start; a state query makes an intended entry ambiguous only after acting on it in that call; when every outstanding effect can be observed and every write goes through, the run does come back, and a quiet run comes back as it is |
| Recovery.Coordinator.ActOnce | src/commands/recovery.ts:1128-1185 | after a durable intent the act is made once; success is reported exactly when it is applied, observed, and its observation reduced and stored; a tool request is delivered over the unchanged intent, or, when it asks for the mark, only with the entry stored as ambiguous |
| Recovery.Coordinator.Apply | src/commands/recovery.ts:1108-1185 | an admitted event's effect is acted on only after its intent was stored and read back, and comes back applied once and settled, or delivered with the intent standing |
| Recovery.Coordinator.Submit | src/commands/recovery.ts:1080-1185 | a command whose effect is not admitted leaves the store, the acts and the calls as they were; success means the effect was applied once and its observation stored, and nothing in the way it succeeds; a delivery leaves the intent, or the intent marked ambiguous one revision on |
| Recovery.Coordinator.Acknowledge | src/commands/recovery.ts:1035-1079 | an accepted acknowledgement settles exactly one outstanding effect, and no acknowledgement acts on anything; a tool request is passed on over an unchanged store |
| Recovery.Coordinator.Bootstrap | src/commands/recovery.ts:848-947 | absent rows are only ever replaced, whatever is answered, by a first revision whose journal is one intended controller_acquire |
| Recovery.Coordinator.RecoverAndRun | src/commands/recovery.ts:816-1196 | one command keeps the invariant, never unsettles an effect, keeps the two reconciliation promises end to end, and delivers only a tool request of an outstanding effect, marked ambiguous in the store if it asked for it; a barred command changes nothing, and a quiet run takes an ordinary command that nothing is in the way of |
| Recovery.Coordinator.History | src/commands/recovery.ts:816-1196 | over any history of commands lost anywhere, no act is applied twice, every applied act is journaled as outstanding or settled, and an issued effect is outstanding until its own observation lands |
| Fencing.ChildRowFound | src/fencing/projections.ts:89-97 | a run's child rows hold exactly one row per unit, with its commitment and revision |
| Fencing.BatchExists | src/commands/recovery.ts:450-471 | a batch can be built exactly when every changed unit has a row to move from |
| Fencing.BatchRows | src/commands/recovery.ts:460-508 | row by row, the batch moves each changed unit from its stored to its next commitment and revision |
| Fencing.BatchRowsInOrder | src/commands/recovery.ts:455-472 | changed rows are strictly ascending by unit and are exactly the changed units |
| Fencing.OnlyDifferingUnitsHaveRows | src/commands/recovery.ts:455-508 | the units with a changed row are exactly the stored ones that differ in the next run |
| Fencing.RetiredAreGone | src/commands/recovery.ts:473-482 | retired rows are disjoint from the changed rows and from the next root |
| Fencing.BatchAcceptedExactlyForLegalSteps | src/fencing/projections.ts:237-349 | for every valid root and every next run the built batch validates exactly when the step meets the reducer contract |
| Fencing.ValidBatchIsTheBuiltOne | src/fencing/projections.ts:237-349 | a batch that validates and speaks of a loaded root is, field by field, the one the coordinator builds from that root |
| Fencing.ReadbackIsExact | src/commands/recovery.ts:415-442 | a readback is accepted exactly when its root is valid in scope and its children are, in any order, the ones the root determines |
| RowStore.CountBounds | src/adapters/beads-embedded/dolt-projections.ts:877-902 | the count equals the number of terms exactly when every term is met and no two name the same bead |
| RowStore.CountedUpdateIsAllOrNothing | src/adapters/beads-embedded/dolt-projections.ts:877-929 | the counted UPDATE writes everything or nothing, and writes exactly when all terms are met by distinct beads |
| RowStore.StatementIsBuilt | src/adapters/beads-embedded/dolt-projections.ts:877-929 | a statement is built exactly when every changed unit has a bead and a next child, every retired unit a bead, and with a retirement all beads differ |
| RowStore.StatementIsCompareAndSwap | src/adapters/beads-embedded/dolt-projections.ts:877-929 | for any table and batch the UPDATE writes the next projections, and nothing else, exactly when the root's row, every changed row and every retired row still hold what the batch expects of them and all those beads differ; otherwise it changes nothing |
| RowStore.RowIsRootOrMove | src/adapters/beads-embedded/dolt-projections.ts:1022-1057 | the rows of a batch are the root's row and one move per changed unit, and no others |
| RowStore.TermsApart | src/adapters/beads-embedded/dolt-projections.ts:904-929 | for an encoded run no two changed or retired rows share a bead |
| RowStore.UpdateIsCompareAndSwap | src/adapters/beads-embedded/dolt-projections.ts:877-929 | over a table that encodes a run, a legal step's UPDATE makes it encode the next run when the stored run is the batch's, and changes nothing when it is any other |
| RowStore.OnlyTheStepIsWritten | src/adapters/beads-embedded/dolt-projections.ts:904-911 | retired rows and foreign beads stay as they were |
| RowReads.Load | src/adapters/beads-embedded/dolt-projections.ts:305-403 | the two queries and the loop over child records answer exactly the aggregate the rows encode, positive absence, or ambiguity |
| RowReads.StepThenLoad | src/adapters/beads-embedded/dolt-projections.ts:305-403 | after any UPDATE for a legal step, load and the readback check return exactly the run before it or the run after it |
| RowReads.ProjectionRows | src/adapters/beads-embedded/dolt-projections.ts:1218-1284 | the pass over the records yields a readback exactly when every bead of the batch is distinct, present and well sealed, and then it is the sealed root and the sealed children of those beads, one each, in unit order |
| RowReads.ActualIsExact | src/adapters/beads-embedded/dolt-projections.ts:1218-1284 | the same of the function the pass computes, for every table and batch |
| RowReads.ExactReadbackIsUnique | src/adapters/beads-embedded/dolt-projections.ts:1275-1284 | at most one readback is exactly those rows |
| RowReads.ActualOfAnEncodedRoot | src/adapters/beads-embedded/dolt-projections.ts:998-1284 | over an encoded root, a batch's rows read back as that root and its children for the changed units |
| RowReads.DiscoveryIsExact | src/adapters/beads-embedded/dolt-projections.ts:700-722 | discovery says applied exactly for the step's own root, not applied exactly for the run before it, and is unclear only about a third run |
| RowReads.DiscoveryFollowsTheStep | src/adapters/beads-embedded/dolt-projections.ts:700-722 | before a legal step discovery answers absent, after it observed, never ambiguous |
| RowReads.Store.Mutate | src/adapters/beads-embedded/dolt-projections.ts:184-201 | a mutation is quarantined before any SQL exactly when it is invalid or cannot be written; its rows move exactly when all are as they were loaded; it is reported applied only then, and only when counted and read back |
| RowReads.Store.Step | src/adapters/beads-embedded/dolt-projections.ts:184-201 | whatever is lost, the table ends encoding the stored run or the next one; applied is answered only for a step that took effect, and for every undisturbed one |
| RowReads.StepAffects | src/adapters/beads-embedded/dolt-projections.ts:191-200 | a step that lands changes exactly one row more than its changed units |
| RowDiff.MatchesRowDelta | src/adapters/beads-embedded/dolt-projections.ts:755-808 | the matcher's loop accepts exactly a one-table diff that changes each expected row once, as that row's check demands |
| RowDiff.AcceptedExactlyWhenOnlyTheseMoved | src/adapters/beads-embedded/dolt-projections.ts:755-1194 | for the real diff of two tables, it accepts exactly when the expected rows moved from a self-proving expected commitment to the next value, only `sce` and `updated_at` moved in them, and nothing else moved |
| RowDiff.AcceptedDeltaIsTheUpdate | src/adapters/beads-embedded/dolt-projections.ts:1124-1194 | an accepted delta turns the committed table into the one the counted UPDATE writes, up to `updated_at` |
| RowDiff.LandedStepIsAccepted | src/adapters/beads-embedded/dolt-projections.ts:730-735 | the delta a landed legal step leaves behind is accepted |
| RowDiff.IndexChildren | src/adapters/beads-embedded/dolt-projections.ts:1080-1085 | committed children are indexed by unit exactly when all are valid and none repeats |
| RowDiff.StepRows | src/adapters/beads-embedded/dolt-projections.ts:1066-1122 | the two loops rebuild the root's row and the row of every child whose commitment moved, or refuse |
| RowDiff.StepRowsAreTheLostBatch | src/adapters/beads-embedded/dolt-projections.ts:737-753 | for every legal step the rows rebuilt from the two readbacks equal the rows of the lost batch |
| Canonical.ValidString | src/protocol/canonical.ts:134-151 | the scan accepts exactly the strings in which every surrogate is half of a pair |
| Canonical.WellFormedIffUnicode | src/protocol/canonical.ts:134-151 | those strings are exactly the UTF-16 encodings of Unicode scalar values |
| Canonical.QuotedIsPrefixFree | src/protocol/canonical.ts:72-73 | a quoted string can be read off the front of a text in only one way |
| Canonical.NeighboursDecideDistinct | src/protocol/canonical.ts:97-103 | on sorted entries the neighbour check finds every duplicate key |
| Canonical.PrintsExactlyAdmissible | src/protocol/canonical.ts:58-114 | the printer throws exactly on values outside the protocol domain |
| Canonical.Unambiguous | src/protocol/canonical.ts:58-114 | equal texts followed by a delimiter come from equal values, and what follows is equal |
| Canonical.EquivalentPrintAlike | src/protocol/canonical.ts:86-113 | values equal up to member order, and negative zero and zero, print alike |
| Canonical.CanonicalTextDecidesEquality | src/protocol/canonical.ts:51-114 | two values have the same canonical text exactly when they are equal up to object member order |
| JsonReader.CanonicalTextIsReadBack | src/protocol/canonical.ts:51-114 | a JSON reader consumes the whole canonical text of every printable value and gets an equal value, with member keys ascending as they stand in the text |
| JsonReader.ValueIsRead | src/protocol/canonical.ts:58-114 | the same of a value's text followed by any delimiter |
| JsonReader.QuotedIsRead | src/protocol/canonical.ts:72-73 | a quoted string is decoded, escape by escape, to that string |
| JsonReader.EscapeIsShortest | src/protocol/canonical.ts:72-73 | each code unit gets a shortest JSON spelling, and the only one of that length with lower-case digits |
| JsonReader.QuotedIsShortest | src/protocol/canonical.ts:72-73 | no JSON spelling of a string is shorter than the printed one |
| JsonReader.NumberIsSpelt | src/protocol/canonical.ts:65-73 | the numbers printed and read are exactly a sign, whole digits without a spare zero, a fraction and a signed exponent |
| ProjectionCodec.CompactProvenanceInput | src/protocol/projection.ts:176-189 | the loop compacts every live entry, keeps compact ones, and refuses when one could not be rebuilt |
| ProjectionCodec.HydrateTargetEvidence | src/protocol/projection.ts:223-254 | the loop rebuilds every stored output or refuses |
| ProjectionCodec.HydrateProvenanceInput | src/protocol/projection.ts:264-275 | hydration rebuilds every entry and admits the result only when it is a legal view |
| ProjectionCodec.RoundTrip | src/protocol/projection.ts:176-275 | hydrating the compact form of a compactable live projection gives it back unchanged |
| ProjectionCodec.Recompaction | src/protocol/projection.ts:176-275 | a fully compact projection that hydrates re-compacts to itself exactly when no entry is a version-2 resolution without capacities |
| ProjectionCodec.AtMostTwoEncodings | src/protocol/projection.ts:282-293 | the accepted stored forms of a view are exactly the view and, when it compacts, its compact form |
| ProjectionCodec.CompactionIsIdempotent | src/protocol/projection.ts:172-189 | compacting twice is compacting once |
| ProjectionCodec.FreezingIsStable | src/protocol/projection.ts:77-82 | freezing drops only the live budget, keeps compactability, and its compact form hydrates to the frozen target |
| ProjectionSize.SizeIsTextLength | src/protocol/projection.ts:296-299 | the structural size of a value is the UTF-8 length of its canonical text |
| ProjectionSize.BytesAreUtf8 | src/protocol/projection.ts:296-299 | counting code units one by one gives the length of the text's UTF-8 encoding, byte by byte as RFC 3629 defines it |
| ProjectionSize.TargetDifference | src/protocol/projection.ts:45-126 | compaction makes a live target's text at least 3 bytes shorter with a resolution and exactly 12 longer without |
| ProjectionSize.ProjectionDifference | src/protocol/projection.ts:176-189 | over a projection the differences add up and nothing else changes size |
| ProjectionSize.StorageIsBounded | src/protocol/projection.ts:296-299 | the stored length is at most the live length plus 12 per unresolved and minus 3 per resolved target |
| Provenance.DiscoveryIsSound | src/adapters/git/index.ts:2259-2321 | the bounded walk claims absence only of a key that is not in the history, and finds only a commit that is |
| Provenance.ExhaustedWindowClaimsNothing | src/adapters/git/index.ts:2305-2320 | the walk is unreadable exactly when 64 commits hold neither the base nor the key |
| Provenance.NewestFirstIsTopological | src/adapters/git/index.ts:2259-2308 | the assumed listing order exists for every history |
| Provenance.BaseIsFound | src/adapters/git/index.ts:2259-2321 | while the branch is at the journaled base the bounded walk meets the base first and answers absent |
| Provenance.AdvanceKeepsKeyed | src/adapters/git/provenance.ts:311-351 | a fast-forward by another actor keeps the set of landed keyed commits |
| Provenance.LandingKeepsAttemptOk | src/adapters/git/index.ts:1807-1846 | moving the branch from the base to a commit built on it lands exactly that one |
| Provenance.Repository.DiscoverLanded | src/adapters/git/provenance.ts:311-351 | found only a landed commit with the attempt's base and records, absent only when none landed; unreadable, when served, exactly when the window holds neither base nor key or a landed commit holds other records |
| Provenance.Repository.Reconcile | src/adapters/git/provenance.ts:379-397 | observed only with a landed commit, absent only when there is none |
| Provenance.Repository.Build | src/adapters/git/provenance.ts:421-512 | the attempt's commit has the base as its only parent and the key; one left by an earlier attempt is resumed only clean and with the effect's records; a refusal lands nothing |
| Provenance.Repository.Check | src/adapters/git/provenance.ts:527-552 | whatever the reproducibility command leaves, the attempt goes on only with a built commit that holds the effect's records; records rewritten in its tree are a reproducibility failure |
| Provenance.Repository.PushRemote | src/adapters/git/index.ts:1924-1957 | a guarded push moves the branch to the built commit exactly when it lands and meets the base, and leaves it to the other actor otherwise |
| Provenance.Repository.ReadRemote | src/adapters/git/index.ts:1957-1975 | the readback after a push, answer by answer: committed exactly for the built commit, a moved base for a third head, a refusal only for the base itself after an ordinary failure |
| Provenance.Repository.Land | src/adapters/git/index.ts:1807-1846 | the branch moves to the built commit exactly when the merge meets the base and is clean; committed only with the commit in the history, every observed refusal only with none |
| Provenance.Repository.LandRemote | src/adapters/git/index.ts:1924-1975 | over a remote, the commit lands exactly when the push met the base and landed, and committed is answered exactly when it did and is read back; an observed refusal hides a landed commit if and only if the push found the base and landed, and an answered readback found it built upon |
| Provenance.RemoteRefusalHidesALanding | src/adapters/git/index.ts:1958-1970 | that happens: an advanced base is reported while the attempt's own commit is in the history |
| Provenance.Repository.Execute | src/adapters/git/provenance.ts:399-601 | lost anywhere and with others landing at every step: committed means exactly this commit is in the history and holds the effect's records, a refusal that none is, except that a remote may report an advanced base when the attempt was pushed and overtaken; a landed commit stays and, within reach of the walk, is found again; undisturbed from the base, the attempt does commit |
| Provenance.Repository.History | src/adapters/git/provenance.ts:399-601 | over all schedules of attempts and resumes, in either profile, at most one keyed commit lands, on the journaled base and with the effect's records, and it stays |
| Outbox.HasCapacity | src/feedback/outbox.ts:537-553 | the counting loop admits exactly fewer than 100 packets within the byte quota |
| Outbox.ContainsIsBetween | src/feedback/submit.ts:73 | an issue is taken for a packet's exactly when its body is some text, the marker, and some text |
| Outbox.FeedbackOutbox.Enqueue | src/feedback/outbox.ts:128-155 | a packet already there is never replaced; a new one is admitted pending exactly within both quotas and once its file is renamed into place, and every other answer says why |
| Outbox.FeedbackOutbox.Write | src/feedback/outbox.ts:555-589 | a file is replaced as a whole exactly when it is within its size and the temporary file is written and renamed; done is answered only when it is also synced |
| Outbox.FeedbackOutbox.Transition | src/feedback/outbox.ts:361-378 | a transition leaves an allowed status atomically, or leaves the file alone |
| Outbox.FeedbackOutbox.MarkSubmitIntent | src/feedback/outbox.ts:205-217 | whatever the nonce, an intent is recorded with it atomically or nothing changes, and only from pending or submit_intent |
| Outbox.FeedbackOutbox.RecoverSubmitIntent | src/feedback/outbox.ts:257-284 | an intent whose issue is found is submitted; one is left as it was, and reported not created, only when no open issue carries the marker |
| Outbox.FeedbackOutbox.MarkSubmitted | src/feedback/outbox.ts:219-241 | a packet is submitted only with an issue whose body is its own |
| Outbox.FeedbackOutbox.DiscoverExisting | src/feedback/submit.ts:103-123 | absent exactly when a complete listing holds no open issue with the marker, existing exactly when it holds one, and then the one with the lowest number |
| Outbox.FeedbackOutbox.CreateIssue | src/feedback/submit.ts:140-160 | a create requires a durable submit_intent and a complete empty discovery; it opens exactly one issue with the packet's body, exactly when it lands, and keeps at most one issue per packet |
| Outbox.FeedbackOutbox.ExecuteDurableIntent | src/feedback/submit.ts:126-170 | discovery comes again before the create; done only with the packet's own body |
| Outbox.FeedbackOutbox.Flush | src/feedback/outbox.ts:286-359 | a flush ends submitted or existing only with the status stored, never touches a submitted or quarantined packet, creates only under an authority for that packet with a nonce other than the last, and keeps nonces alternating; nothing in the way, the issue is opened and the packet submitted |
| Outbox.FeedbackOutbox.History | src/feedback/outbox.ts:128-378 | over all enqueues, flushes, recoveries and quarantines, lost anywhere, at most one issue is created per packet, successive intents record different nonces, no packet is lost or replaced, and there are at most 100 |
| Carry.PlannedLineageIsSound | src/commands/production-recovery.ts:155-308 | a planned lineage is duplicate-free, at most 128 long, ends in the predecessor and never contains the claimant |
| Carry.PlannedExactly | src/commands/production-recovery.ts:194-266 | a carry is planned exactly when every requirement on the two runs is met, and refused with the reason of the first that is not |
| Carry.ClaimedOnce | src/adapters/beads-embedded/dolt-projections.ts:615-682 | a predecessor root is claimed by at most one run |
| Carry.NoCycle | src/commands/production-recovery.ts:155-308 | the claim relation has no cycle of any length |
| Carry.Store.Proceed | src/protocol/reducer.ts:1433-1508 | a run's step is taken exactly when it is legal: the first wave's gate takes over the pending lineage and clears it, a later gate keeps a deferred lineage or starts empty, a software wave drops the gate only with nothing carried, a release has no carry or claim outstanding and is final |
| Carry.LegalNextFits | src/protocol/reducer.ts:1433-1508 | through every such step a pending lineage is the imported one and a gate's is the imported one or empty |
| Carry.CarryIsNotDropped | src/protocol/reducer.ts:1433-1508 | on every legal step a deferred lineage stays, a pending one stays or becomes the gate's, a gate starts empty only with nothing carried, and a release leaves nothing open |
| Carry.Store.Plan | src/protocol/reducer.ts:5088-5133 | a claim is journaled exactly for a run before its first wave with no claim or carry, of a predecessor that can be planned |
| Carry.Classify | src/adapters/beads-embedded/index.ts:2917-3003 | no claim, imported, already claimed or refused: each exactly for nobody's, this run's own, another run's well-formed, and any other claims |
| Carry.Store.Look | src/adapters/beads-embedded/index.ts:902-1002 | what a look reports is true of the table, and when it is served it tells exactly whose claim there is |
| Carry.Store.ClaimCarry | src/adapters/beads-embedded/dolt-projections.ts:615-682 | the claim is written exactly while the predecessor is the planned aggregate and holds no claim; stale is answered exactly when it is not |
| Carry.Store.Inspect | src/adapters/beads-embedded/index.ts:902-933 | an execution goes on to claim only after a look that saw no claim |
| Carry.Store.Call | src/adapters/beads-embedded/index.ts:944-957 | the call takes a predecessor that is still free and changes nothing when another run's claim came in between |
| Carry.Store.ReadBack | src/adapters/beads-embedded/index.ts:957-1001 | after an applied or a stale call only what is read back is believed |
| Carry.Store.Settle | src/protocol/reducer.ts:5134-5191 | the reducer takes an outcome exactly before the first wave; an imported carry becomes pending once and with its claim in the table, any other ends the claim |
| Carry.Store.Race | src/adapters/beads-embedded/index.ts:944-972 | of two runs that both saw no claim the first to call imports, and the second is told it is the first's |
| Carry.SecondCallerIsTold | src/adapters/beads-embedded/index.ts:944-972 | such a race happens from an empty store |
| Carry.Store.History | src/adapters/beads-embedded/index.ts:902-1002 | over every interleaving of the moves of any runs, each lost anywhere, a predecessor has one claimant for good, every import is of a settled, deferred run of the same scope, pending and gate lineages are duplicate-free within 128, imports stay, and no run reaches itself |
| OperationLock.CallKeepsOthers | src/fencing/operation-lock.ts:276-312 | no call of one process spoils what another knows about its own, a condemned or a captured socket |
| OperationLock.StepKeepsInv | src/fencing/operation-lock.ts:340-460 | every call of acquire and release, and every crash, keeps the invariant |
| OperationLock.RemovalsAreExact | src/fencing/operation-lock.ts:276-312 | a removal takes exactly the expected, finished file off its path; quarantined is answered exactly for an unfinished one and unavailable exactly for another |
| OperationLock.MutualExclusion | src/fencing/operation-lock.ts:340-460 | in every schedule at most one process holds the lock, and its own socket is live at the path |
| OperationLock.NoForeignSocketIsUnlinked | src/fencing/operation-lock.ts:276-312 | in every reachable state no call takes a live socket off the path unless its process owns it |
| OperationLock.AcquireAfterCrashes | src/fencing/operation-lock.ts:340-436 | with no live socket left, an undisturbed acquire gets the lock exactly when no crash left a socket without its mode or a state file unfilled; otherwise it answers quarantined |
| OperationLock.HeldByALiveSocket | src/fencing/operation-lock.ts:372-383 | an undisturbed acquire that meets a live socket answers held and touches nothing |
| OperationLock.HeldIsTruthful | src/fencing/operation-lock.ts:372-383 | in every reachable state held is answered exactly by a probe that finds the one live socket at the path |
| OperationLock.ReleaseAlone | src/fencing/operation-lock.ts:439-460 | an undisturbed release, whether its close unlinks the path or not, reports released and clears both files exactly when the captured state file is still there and the close succeeds; else nothing changes and it reports unavailable, quarantined or a mismatch, each exactly when the close failed, the state file is unfinished, or neither |
| OperationLock.ContenderTakesTheState | src/fencing/operation-lock.ts:363-371 | a contender that reads the socket before the bind and the state after it makes the holder's release report a mismatch |
| OperationLock.CrashBeforeChmod | src/fencing/operation-lock.ts:400-408 | a crash between bind and chmod leaves a path at which every process's undisturbed acquire answers quarantined |

## Left out

- Power loss and fsync ordering: process loss is the fault model.
- The installer's lock and its reaper, dry runs and I/O errors other than the injected hooks: exclusivity is assumed.
- The NFC string policy and number-to-text of the canonical printer: strings are exact, a number is its token.
- The regular expressions and schema conjunctions: records are typed, and a schema's refusal is an arbitrary choice of the environment.
- The reducer itself: the coordinator is proved for every reducer meeting `Recovery.LegalReduction`; freshness of an effect id is expressed against all ids the run has issued.
- External acts a host makes by hand after a tool request: only acts of the adapter are counted.
- An act that lands after its process was lost: an in-flight request is taken to have landed or not when the process is lost.
- The continuation, closure and release evidence a mutation batch may carry, and its pre-ownership form.
- Fencing.BatchAcceptedExactlyForLegalSteps: does not ask for a constant scope, because the validator does not; the row-store theorems add it, as the reducer contract does.
- `initialize` and the first-delta matcher of the row store: the same counted UPDATE over absent rows.
- The Dolt checkpoint, push and pull around a mutation, and the server adapter.
- The aggregate verification and candidate refresh worktrees: no shared history is at stake in them.
- Exact duplicate triage of provider issues: a pure filter.
- Outbox.FeedbackOutbox.Flush: does not promise that a nonce is never reused, because only the last recorded one is compared.
- Outbox.FeedbackOutbox.Write: does not keep the byte quota, because a transition checks only its own file; only the packet count is invariant.
- Outbox lock files: one flush of a packet at a time is assumed.
- The merge slot and its transition intents: decisions over one record, settled by reading a branch; the claim CAS also asks for the held slot, so the model admits more races than it does.
- The durability of a claim's checkpoint and of a competitor's (`competitorCarryIsDurable`): whether either is durable is an arbitrary answer.
- Provenance.Repository.Land: does not model a local merge that ends ordinarily with a nonzero exit after moving the branch, because git reports such an exit only when it has not.
- The bad-input refusals of the git operations: identifiers and references are typed.
- RowDiff.MatchesRow: does not check that the diffed row is a pinned issue row (`isPinnedBdIssueRow`), because a row is a typed record whose further columns are a map of texts.
- The class form of the operation lock: `OperationLock.Step` is a function over values rather than a class, because its processes interleave call by call.
- Aliasing of table rows: the table is a map value, held in the field of `RowReads.Store`.
- The hash functions themselves, secret redaction, subprocess limits, executable digests and the command line.
