# Verified model of hippius-mem

A Dafny model of the team-memory store and its command line: the op-log and what is read out of it, the
audits over it, the local-vault locks, the founder's key protocol, the importer, and the codecs that
name and pack things. `dafny verify dfyconfig.toml` checks the whole project. Nothing here runs the
original program.

- OpLog, Converge, Sync: ops, their total order, convergence, and the incremental index restore against full replay.
- Chain, Quarantine: one author's hash chain under forks and gaps, what a read keeps, what may be deleted.
- Inspection, Rails: the report on a broken author, and a deletion in a bucket that is in use.
- Watermarks, MarksFile, Doctor, LiveBucket: head marks, their file shared by several processes, the integrity checks, and both run against a live bucket of honest writers.
- Merkle: batch roots and inclusion proofs.
- VaultLocks: the two advisory locks of a local vault under every interleaving of old and new processes.
- Removal: publish, join, provision, rotate and remove with failures between any two puts.
- ImportLedger, Like, Calendar: the import ledger over many runs, literal search through LIKE, day counts and the date gate.
- AtomicFile: exclusive temp, sync and rename with crashes, power loss and concurrent writers.
- Base64, SerdeCompact, Ulid, ObjKey, Framing: codecs, object keys, length framing and signed bytes.
- Brief, Report, ConfigText: the session brief, the team report, scrubbed errors and the organisation hint.
- Options, Texts, Sorting: shared by the others.

How a file is built: the specification is stated over sets or plain recursion, the loops of the source
are methods proved against it, and protocols are step relations whose invariant is proved step by step
and then read off for every run.

## Assumptions

- Hashes are values. Where an argument needs them collision-free it says so: `DigestsIdentify` on a set
  of ops, `Acyclic` (no op names a descendant) with a depth witness, `CollisionFree` for the Merkle hash.
- `Faithful` (Sync) is needed for equality with full replay only: a checkpoint body that opens, and agrees
  with the log where the cross-check looks, is a decode of the op it was written from. `SyncIncremental`
  is proved without it and says exactly when the two indexes agree.
- LiveBucket: a bucket with read-after-write for single objects. A listing returns at least what was
  there throughout and at most what was there at some moment. An honest author appends under its lock,
  one machine per identity, and reclaims a failed append before the next one. `NoHonestAuthorAccused`
  takes every listed op as fetched; reads that skip some are `AccusedIffMissed`.
- Rails: objects of the author in question are added and not altered, each op under one key, up to the
  delete; `SwapRefuses`, `MovedListingRefuses` and `DeletionIsHarmlessIff` do without this.
- Removal: key generation gives a key nobody holds. That `rotate_key` floors on `max_epoch` is `FloorIsMaxEpoch`.
- ImportLedger: runs are sequential and have one ledger file, or none they can find. A run killed before
  its ledger save is one whose save was not opened, and one killed during it one whose save was torn.
- AtomicFile: temps live in the target's directory, no target has a temp's name, and unlinking works.
- Byte strings are strings with one character for each byte. Slices are shorter than 2^64.

## What the proofs found

- `Brief`: the doc comment says a tight budget always keeps the rules. It does if and only if header,
  title and all rule lines fit (`BriefKeepsRulesIff`); the loop breaks per section, so otherwise a later,
  shorter gotcha may be listed instead (`LowerTierOutlivesRuleIff`, and `RulesMayBeDropped` for a live set).
- `LiveBucket.SharedMarksAccuse` and `LiveBucket.FirstHeadAccuses`: `reconcile` inside a server compares
  heads with marks that the same process may advance between its head read and the comparison, and then
  reports its own honest identity as moved back or as vanished. `SharedMarksReportIff` is exact over all
  runs. `doctor` loads its own marks first and cannot.
- `MarksFile.TwoAdvancesLost`: the comment on the last-writer race says it loses at most the other's
  single advance. There is a run from an empty machine that loses two. `LosesIff` is exact; two
  writers that read the same state lose what that one other write advanced (`SameReadLosesIff`).
- `Removal.RemovalClearsWraps` and `Removal.RotationClears`: with `max_epoch` behind the bucket a rotation
  re-mints an old epoch; the key stays secret (`RemovalSeals`), but the removed member stays in the
  newest wraps. Both lemmas are exact, and `LaggingTeamIsReached` with `LaggingRemovalLeavesWrap` is a run.
- `IncrementalSync.ForgedRecordIsIndexed`: a checkpoint body forged only in its content passes the valve
  and the cross-check and is indexed, as the repository's own tests concede. `SyncIncremental` says exactly
  when the two indexes agree, in terms of the checkpoint and the log.
- `ObjectKeys.ParseThenMint`: parsing accepts underscore repositories that minting refuses
  (`UnderscoreKeysParse`), and only those. Its module comment also speaks of I, L and O aliases;
  `Ulids.AliasesAre` has the only aliases there are: letter case and the leading digit modulo 8.
- `ConfigText.HintNotIdempotent`: the loop is said to make the hint idempotent. It is not where a URL's
  path is again a URL, and `HintIdempotentIff` says only there.
- `ImportLedger.RememberedOnceIff`: the ledger is there so that a re-run never resurrects a forgotten note.
  It does when the ledger cannot be read (`UnreadableLedgerResurrects`), when a save was torn
  (`TornLedgerResurrects`) or lost (`UnsavedLedgerResurrects`), and only in such cases. A run that cannot
  read the ledger and saves over it also drops every earlier entry (`LedgerIsSavedWrites`).
  `RepeatedRowIsWrittenTwice` needs a foreign database without its primary key.

## Model

| member | source | states |
|---|---|---|
| Convergence.Converge | hippius-mem-core/src/oplog/converge.rs:156-165 | The streaming fold yields, for each note, exactly what the SET of ops says: the pointer of the leading content op, tombstoned iff the leading lifecycle op is a forget, last-writer typed links, all link targets and reinforcers, and a redaction that erases everything |
| Convergence.ConvergenceIsDetermined | hippius-mem-core/src/oplog/converge.rs:112-156 | Any two converged states of one op set are equal, so the result depends on neither delivery order nor duplication |
| Convergence.LeaderAfter | hippius-mem-core/src/oplog/converge.rs:199-208 | Comparing a new op with the current winner finds the winner of the enlarged set, given the digest tie-break |
| Convergence.OutranksIsTransitive | hippius-mem-core/src/oplog/converge.rs:199-208 | The winner order (lamport, op id, author key, hash) is transitive |
| Convergence.OutranksIsTotal | hippius-mem-core/src/oplog/converge.rs:199-208 | It orders any two ops with different hashes one way |
| Convergence.ObserveContent | hippius-mem-core/src/oplog/converge.rs:250-293 | Remember, edit and forget ops keep the accumulator equal to the reduction of the ops seen |
| Convergence.ObserveOther | hippius-mem-core/src/oplog/converge.rs:250-293 | So do redact, link, relate and reinforce ops |
| Convergence.IntoStateIsState | hippius-mem-core/src/oplog/converge.rs:311-358 | The final accumulator becomes the state the op set determines, redaction overriding every other field |
| Convergence.NewestContentPoints | hippius-mem-core/src/oplog/converge.rs:199-208 | A content op that exceeds every other content op of its note in lamport, then op id, then author key, then hash gives the note its pointer, field by field, unless the note is redacted |
| Convergence.NewestLifecycleDecides | hippius-mem-core/src/oplog/converge.rs:199-208 | In the same written-out order the greatest remember, edit or forget alone says whether the note is tombstoned |
| Convergence.NewestRelationHolds | hippius-mem-core/src/oplog/converge.rs:199-208 | And for each link target the greatest typed link gives its only relation |
| Convergence.RedactionErases | hippius-mem-core/src/oplog/converge.rs:311-358 | One redaction, whenever it was, leaves a note without pointer, links, relations, reinforcers and reinforcement time |
| Convergence.NoteIsUnionOfOps | hippius-mem-core/src/oplog/converge.rs:250-358 | Otherwise link targets and reinforcers are exactly those the ops of the note name, no field is set without an op of its kind, and the reinforcement time is the latest one in their ids |
| IncrementalSync.OverlayIsFullReplay | hippius-mem-core/src/store/mod.rs:5332-5514 | For every op set and every baseline, converging base and tail apart and overlaying them (redactions from the whole view) gives exactly the live pointers of converging everything |
| IncrementalSync.SyncIncremental | hippius-mem-core/src/store/mod.rs:5332-5514 | For every op set and checkpoint: the live set is that of a full replay; the index is the replayed one where the checkpoint is outdated and the restored, omitted and tail-touched records otherwise; and it equals the replayed one if and only if the checkpoint is outdated or every restored body is what a fresh decode gives |
| IncrementalSync.CheckpointOutdated | hippius-mem-core/src/store/mod.rs:5372-5411 | The valve opens if and only if the last entry of some note is no longer live in the base at its lamport and object key |
| IncrementalSync.IncrementalIsFullIff | hippius-mem-core/src/store/mod.rs:5412-5514 | Without a rebuild the index is the replayed one if and only if every restored body is what a fresh decode gives |
| IncrementalSync.SyncIsDetermined | hippius-mem-core/src/store/mod.rs:5332-5514 | What a sync leaves depends only on the op set, the checkpoint and the blobs |
| IncrementalSync.TailDecides | hippius-mem-core/src/store/mod.rs:5332-5514 | Where the tail has a lifecycle op, its converged state alone decides liveness and pointer |
| IncrementalSync.BaseDecides | hippius-mem-core/src/store/mod.rs:5332-5514 | Where it has none, the base state alone does |
| IncrementalSync.RecordsAreFullIndexIff | hippius-mem-core/src/store/mod.rs:5176-5217 | Restored, omitted and tail-touched records, stamped, are the full index if and only if every restored body is what a fresh decode gives |
| IncrementalSync.FaithfulSyncIsFullReplay | hippius-mem-core/src/store/mod.rs:5332-5514 | With a checkpoint whose bodies decode their own ops, the incremental path gives the live set and index of a full replay |
| IncrementalSync.ForgedContentIsIndexed | hippius-mem-core/src/store/mod.rs:6575-6631 | In any checkpoint that passes the valve, the last body of an untouched live note that agrees with the log on every attested field is what the sync indexes, whatever its content; the index is then the replayed one only if that content is the decoded one |
| IncrementalSync.ForgedRecordIsIndexed | hippius-mem-core/src/store/mod.rs:6575-6631 | Over any log of one op, a checkpoint with such a body that is not the decoded one passes the valve, and every sync from it has the forged content and differs from the full replay |
| IncrementalSync.ForgedCheckpointExists | hippius-mem-core/src/store/mod.rs:6575-6631 | There is such a log, body, decoder and scope reader |
| IncrementalSync.CollectLive | hippius-mem-core/src/store/mod.rs:5571-5638 | The loop restores the last accepted body of each note |
| IncrementalSync.CollectedAre | hippius-mem-core/src/store/mod.rs:5571-5638 | Only bodies of notes that are live, untouched by the tail and not contradicted by the log are restored, each under its own note |
| IncrementalSync.DropRedacted | hippius-mem-core/src/store/mod.rs:6677-6688 | Exactly the redacted notes leave the live set and the tail pointers |
| IncrementalSync.ClassifyTail | hippius-mem-core/src/store/mod.rs:5332-5514 | The tail splits into live pointers and tombstones |
| IncrementalSync.SyncedSignals | hippius-mem-core/src/store/mod.rs:6653-6661 | After any sync an indexed note is live and has the relations, reinforcers and last reinforcement of the converged log, and every live note whose blob decodes is indexed |
| IncrementalSync.ReplayedRecord | hippius-mem-core/src/store/mod.rs:6653-6661 | A replayed record has these ranking signals of the log, and every other field of its decoded blob |
| IncrementalSync.IndexedIsDecodedOrAttested | hippius-mem-core/src/store/mod.rs:5571-5638 | Every field of an indexed record is that of a decoded blob, or the checkpoint's body agrees with the log on key, cid, author, lamport and epoch and with the blob key on scope, and only its content is the checkpoint's |
| IncrementalSync.OutdatedMeans | hippius-mem-core/src/store/mod.rs:5372-5411 | The valve on the raw fields: the last entry of some note names a lamport or object key that is not the live base pointer's |
| AuthorChain.LongestRootedChain | hippius-mem-core/src/oplog/store.rs:1772-1840 | The kept digests are those of exactly the branch the op set selects: at every fork the taller subtree, then the earlier op |
| AuthorChain.SelectionIsUnique | hippius-mem-core/src/oplog/store.rs:1751-1772 | There is one such branch, so fetch order cannot matter |
| AuthorChain.SelectionIsLongest | hippius-mem-core/src/oplog/store.rs:1751-1772 | It is a genesis-linked path and none is longer |
| AuthorChain.Heights | hippius-mem-core/src/oplog/store.rs:1772-1840 | The explicit-stack walk measures the tallest path below every op it meets, and meets every root and every child of an op it meets |
| AuthorChain.HeightStep | hippius-mem-core/src/oplog/store.rs:1772-1840 | The height recurrence over children |
| AuthorChain.IndexChildren | hippius-mem-core/src/oplog/store.rs:1772-1840 | The child index lists, for every parent hash, exactly the ops naming it, in order |
| AuthorChain.ForkTakesLowest | hippius-mem-core/src/oplog/store.rs:1751-1840 | Where the selected branch takes an op at a fork, no sibling has a taller subtree, and one as tall has a greater lamport, or then op id, or then hash |
| AuthorChain.BranchLinks | hippius-mem-core/src/oplog/store.rs:1772-1840 | Each op of the branch names the one before it, and the branch ends only where no op goes on |
| Quarantine.ReadChains | hippius-mem-core/src/oplog/store.rs:1463-1511 | Author by author exactly the selected branch survives, and an author is reported iff ops were lost, with their number |
| Quarantine.DedupByHash | hippius-mem-core/src/oplog/store.rs:1385-1388 | Each op is kept once and none is lost |
| Quarantine.SurvivorsAreDetermined | hippius-mem-core/src/oplog/store.rs:1463-1511 | Two machines that read the same ops keep the same ops |
| Quarantine.KeptAtForks | hippius-mem-core/src/oplog/store.rs:1463-1511 | Of two ops of one author at a fork at most one is kept, the taller, and on a tie the lower lamport, op id or hash |
| Quarantine.KeptHangs | hippius-mem-core/src/oplog/store.rs:1463-1511 | A kept op begins the author's chain or names a kept op of that author |
| Quarantine.KeptGoesOn | hippius-mem-core/src/oplog/store.rs:1463-1511 | Where an op follows what is kept, one that follows it is kept: nothing reachable is cut short |
| Inspection.Inspect | hippius-mem-core/src/oplog/store.rs:1623-1716 | No report exactly when nothing is dropped; otherwise every dropped op, ordered, classed a fork loser iff its whole ancestor path is listed, with whether another listed op names it, the surviving tip and the overall class |
| Inspection.FindTip | hippius-mem-core/src/oplog/store.rs:1623-1716 | The tip found among the kept ops is the end of the surviving chain, or none if nothing survives |
| Inspection.DropsAscend | hippius-mem-core/src/oplog/store.rs:1623-1716 | The drops are listed in ascending lamport, then op id, then hash |
| Inspection.DropMeans | hippius-mem-core/src/oplog/store.rs:1623-1716 | A drop is a fork loser exactly when a sequence of listed ops links it to genesis, and is marked with children exactly when a listed op names it |
| Quarantine.RootedDigests | hippius-mem-core/src/oplog/store.rs:1639-1648 | The reachability walk collects exactly the ops with a listed path from genesis |
| Quarantine.RemovalStrands | hippius-mem-core/src/oplog/store.rs:905-981 | Deleting a rooted op leaves every other op as rooted as before if and only if no listed op names it |
| Quarantine.RemovableIsSafe | hippius-mem-core/src/oplog/store.rs:905-981 | Deleting a fork loser that no listed op names leaves the kept branch and every other op's class unchanged |
| RemovalRails.RemovalIsSafeIff | hippius-mem-core/src/oplog/store.rs:819-884 | Over every history in which the author only appends, others do anything, listings may lag, and objects are fetched one by one or kept from an earlier read: after the rails pass, the delete keeps the kept branch and every class if and only if no op then names the deleted one, and such an op can only have landed after the span of the fresh listing began |
| RemovalRails.DeletionIsHarmlessIff | hippius-mem-core/src/oplog/store.rs:905-981 | In any bucket, the author's own deletions included: deleting an object keeps the kept branch and every class if and only if its op is off that branch and, if rooted, named by none |
| RemovalRails.AllowedIff | hippius-mem-core/src/oplog/store.rs:819-981 | In such a history with listings that do not lag, the rails pass if and only if the object was removable at both and none of the author landed between the second and the fresh one |
| RemovalRails.SwapRefuses | hippius-mem-core/src/oplog/store.rs:829-843 | Over any history, bytes swapped after the first read and before the second are refused |
| RemovalRails.MovedListingRefuses | hippius-mem-core/src/oplog/store.rs:844-872 | And so is a key of the author that came or went between the second read and the fresh listing |
| RemovalRails.LoserStaysOut | hippius-mem-core/src/oplog/store.rs:1751-1772 | A dropped op that nothing names is never selected again, whatever is appended elsewhere |
| RemovalRails.WindowExists | hippius-mem-core/src/oplog/store.rs:802-813 | The conceded window: the rails can pass and a successor land before the delete |
| Quarantine.LossKeepsSelection | hippius-mem-core/src/oplog/store.rs:1751-1772 | Losing any ops off the selected branch leaves the selection as it was |
| Inspection.RailsAreExact | hippius-mem-core/src/oplog/store.rs:905-981 | For a listed fork loser, the rail on listed children passes if and only if deleting it keeps the selected branch and every other op's class |
| Inspection.ForkReportIsRemediable | hippius-mem-core/src/oplog/store.rs:819-981 | An author reported as a fork can be cleaned up by allowed deletions, ending with exactly the surviving chain |
| Quarantine.ForkHasRemovable | hippius-mem-core/src/oplog/store.rs:905-981 | A break that is only a fork always has an op the rails allow to delete |
| Quarantine.ForkIsRemediable | hippius-mem-core/src/oplog/store.rs:819-981 | Deleting leaf by leaf, each step allowed, ends with exactly the surviving chain |
| Watermarks.HeadWatermarks.Observe | hippius-mem-core/src/oplog/watermark.rs:334-343 | Reports, in author order, exactly the remembered authors served nothing or something lower, and then advances; no mark is lowered |
| Watermarks.HeadWatermarks.RecordPublishedHead | hippius-mem-core/src/oplog/watermark.rs:373-379 | Advances the own mark and lowers none |
| Watermarks.NeverLowered | hippius-mem-core/src/oplog/watermark.rs:576-599 | Whatever heads a read serves, every mark stays or rises strictly, and ends at or above each served lamport |
| Watermarks.MarkAfter | hippius-mem-core/src/oplog/watermark.rs:606-661 | After a read a mark is the served head where that is at or above, else what it was |
| Watermarks.RepeatedReadReportsTheSame | hippius-mem-core/src/oplog/watermark.rs:606-661 | Serving the same heads again reports the same authors: a rollback is not believed the second time |
| Watermarks.Compare | hippius-mem-core/src/oplog/watermark.rs:606-646 | The comparison phase reports exactly the regressed authors, ascending, once each |
| Watermarks.WriteMarks | hippius-mem-core/src/oplog/watermark.rs:502-545 | The fold of a write: per author the higher mark, the one read back on a tie |
| Watermarks.ReportsMean | hippius-mem-core/src/oplog/watermark.rs:606-646 | A regression is exactly a remembered author whose last served head is missing, lower, or at the same lamport with another tip |
| Watermarks.MarkMoves | hippius-mem-core/src/oplog/watermark.rs:576-599 | One advance sets a mark that is missing or lower, and nothing else |
| Watermarks.MergedMark | hippius-mem-core/src/oplog/watermark.rs:502-545 | The mark of each author after a write, case by case: on a tie what was read back stays |
| MarksFile.LosesIff | hippius-mem-core/src/oplog/watermark.rs:446-545 | In every run of any processes sharing the file, a write loses the mark of an author if and only if that mark, when the rename happens, is above both what was read back and what the writing process holds |
| MarksFile.LossComesFromARace | hippius-mem-core/src/oplog/watermark.rs:458-464 | A write that could read the file loses only marks that another process renamed into place between its read and its rename |
| MarksFile.SameReadLosesIff | hippius-mem-core/src/oplog/watermark.rs:458-464 | Two writers that read one state: the later rename loses exactly the other's advances beyond the file and beyond its own memory |
| MarksFile.TwoAdvancesLost | hippius-mem-core/src/oplog/watermark.rs:458-464 | Against the comment: from an empty machine there is a run whose last rename, of a process with an advance of its own, undoes two complete writes of another |
| MarksFile.FileRises | hippius-mem-core/src/oplog/watermark.rs:458-464 | Over every run whose renames each replace the very contents they read back, no mark in the file falls |
| MarksFile.RenameRestores | hippius-mem-core/src/oplog/watermark.rs:458-464 | A process's rename puts back at least every mark it has held since it was loaded, whatever was lost meanwhile |
| MarksFile.MarksStandStill | hippius-mem-core/src/oplog/watermark.rs:334-343 | Over every run, from an advance to the end of its write a process's marks, and what it read back, stand still |
| MarksFile.MarksWereVerified | hippius-mem-core/src/oplog/watermark.rs:466-470 | Over every run, each mark in the file or in a process was there at the start or served by a verified read |
| Doctor.FindSuppressedTails | hippius-mem-core/src/audit/reconcile.rs:759-799 | A head is reported iff no visible op has its tip, with the highest visible lamport of that author |
| Doctor.OpLogIntegrityLines | hippius-mem/src/doctor.rs:589-639 | The lines are the quarantine losses, the suppressed tails and the regressed heads and nothing else; a failed op read gives no lines, a failed head read only quarantine lines and no mark moves |
| LiveBucket.NoHonestAuthorAccused | hippius-mem/src/doctor.rs:589-639 | In every run of any honest authors, other keys and reads, heads read first: no tail or regression line names an honest author |
| LiveBucket.AccusedIffMissed | hippius-mem/src/doctor.rs:589-639 | In every such run, with any listed ops failing to be fetched: some line accuses an honest author if and only if the op its served head names, or an ancestor of it, was not fetched |
| LiveBucket.HonestTipSurvives | hippius-mem/src/doctor.rs:594-618 | The tip an honest head names survives quarantine of the later op listing, even one that saw a partial or failed append |
| LiveBucket.LossyReadReportsExactly | hippius-mem-core/src/audit/reconcile.rs:759-799 | Over every run, with any listed ops failing to be fetched: the tip of an honest head is visible if and only if that op and all its ancestors were fetched |
| LiveBucket.HonestHeadHolds | hippius-mem-core/src/store/mod.rs:2085-2128 | No served head of an honest author is below the mark loaded before the heads were read |
| LiveBucket.StepKeeps | hippius-mem-core/src/store/mod.rs:2221-2313 | Every step of writers and reader keeps the invariant tying chains, heads, marks and listings |
| LiveBucket.SwappedReadsAccuse | hippius-mem/src/doctor.rs:606-616 | With ops read first there is a run of one honest author whose head names a tip no selection contains |
| LiveBucket.HiddenOpIsReported | hippius-mem-core/src/audit/reconcile.rs:759-799 | For an honest author, failed appends in the read included, the head naming an op is reported if and only if the read missed that op or an ancestor of it |
| LiveBucket.SharedMarksAccuse | hippius-mem-core/src/audit/reconcile.rs:609-614 | Heads first, but compared with marks a writer of the same process advances meanwhile: a run reports an honest author's own head as moved back |
| LiveBucket.FirstHeadAccuses | hippius-mem-core/src/audit/reconcile.rs:609-614 | A second such run: an author whose first head lands after the listing is reported as vanished |
| LiveBucket.SharedMarkReported | hippius-mem-core/src/audit/reconcile.rs:609-614 | In every reachable state marks shared with writers report an honest author if and only if it has no served head or its mark is above the served one |
| LiveBucket.SharedMarksReportIff | hippius-mem-core/src/audit/reconcile.rs:609-614 | Over every heads-first run: if and only if the mark was filed of a head published after the author's head was fetched, or, for an author not listed, after the listing |
| LiveBucket.ListingSpans | hippius-mem/src/doctor.rs:594-618 | Over every run: an op listing under way must return exactly the objects that were there at every moment since it began, and may return exactly those that were there at some moment |
| Merkle.AcceptedIffIncluded | hippius-mem-core/src/audit/merkle.rs:195-207 | With a collision-free hash, a leaf and sibling list verify against a batch root if and only if the leaf is in the batch and the list is the full path of one of its places |
| Merkle.InclusionProof | hippius-mem-core/src/audit/merkle.rs:153-188 | Out of range iff no proof; otherwise the proof is the leaf's path and climbs to the root, for every hash |
| Merkle.MerkleRoot | hippius-mem-core/src/audit/merkle.rs:137-145 | Zero for no leaves, else the single node of the top layer |
| Merkle.SmallRoots | hippius-mem-core/src/audit/merkle.rs:106-145 | The roots of no, one, two and three leaves written out: zero for none, and an odd node is paired with itself |
| Merkle.BuildLevels | hippius-mem-core/src/audit/merkle.rs:114-129 | The loop builds each layer from the one below, to the layer of one node |
| Merkle.VerifyProof | hippius-mem-core/src/audit/merkle.rs:195-207 | Accepts exactly when climbing from the leaf hash gives the root |
| Merkle.ClimbersArePaths | hippius-mem-core/src/audit/merkle.rs:195-207 | What climbs to a node is a leaf below it: step count, siblings and leaf are forced |
| Merkle.RootCommits | hippius-mem-core/src/audit/merkle.rs:137-145 | For batches of one size the root determines contents and order |
| Merkle.RootCommitsToDistinct | hippius-mem-core/src/audit/merkle.rs:137-145 | For non-empty batches of distinct leaves of any two sizes, the roots are equal if and only if the batches are |
| Merkle.CollisionFreeExists | hippius-mem-core/src/audit/merkle.rs:137-145 | What these results ask of the hash can be met |
| Merkle.RepeatedTailSameRoot | hippius-mem-core/src/audit/merkle.rs:106-129 | Repeating the last leaf of any odd batch of more than one leaves the root unchanged, so the size must be known |
| VaultLocks.OneWriter | hippius-mem/src/config.rs:1164-1194 | In every interleaving of serve, dashboard, upgrade, older serve and older upgrade, exits and crashes, at most one process has a vault's write role |
| VaultLocks.MigrationIsAlone | hippius-mem/src/config.rs:1580-1609 | While a current upgrade migrates, no session of any age serves the vault |
| VaultLocks.ContestWinsIffFree | hippius-mem/src/main.rs:747-770 | A read-only session's write takes the role if and only if no process has it, and otherwise changes nothing |
| VaultLocks.ServeBoots | hippius-mem/src/main.rs:786-806 | A boot is refused if and only if a current upgrade is at work on the vault |
| VaultLocks.ServeDegrades | hippius-mem/src/main.rs:808-845 | And then starts read-write if and only if nobody has the role |
| VaultLocks.DeathReleases | hippius-mem/src/config.rs:1225-1240 | Every lock belongs to a live process; a death leaves none of its own and frees its role |
| VaultLocks.VaultsAreIndependent | hippius-mem/src/config.rs:1614-1645 | What a run leaves of one vault is what the actions on that vault alone leave |
| VaultLocks.OldUpgradeMigratesUnderReader | hippius-mem/src/config.rs:1207-1222 | The conceded gap: an upgrade older than the liveness file migrates under a reader |
| VaultLocks.OldUpgradeWinsIffFree | hippius-mem/src/config.rs:1207-1222 | An older upgrade's attempt succeeds if and only if no process has the write role, readers notwithstanding, and otherwise ends it |
| VaultLocks.OldServeWinsIffFree | hippius-mem/src/config.rs:1164-1263 | A serve older than the liveness file starts if and only if no process has the write role |
| VaultLocks.DashboardBoots | hippius-mem/src/config.rs:1164-1263 | A dashboard boots, read-only, if and only if no current upgrade is at work on its vault |
| VaultLocks.UpgradeBoots | hippius-mem/src/config.rs:1507-1645 | A current upgrade gets past its probe if and only if no current process of its vault is past its own |
| VaultLocks.UpgradeMigrates | hippius-mem/src/config.rs:1507-1645 | And then migrates if and only if no process, older ones included, has the write role |
| VaultLocks.RefusedMeans | hippius-mem/src/config.rs:1164-1263 | A lock is refused exactly when another hold on the same file of the same vault is exclusive or the wanted one is |
| VaultLocks.LockTable.TryLockVaultFile | hippius-mem/src/config.rs:1614-1645 | Not local, acquired or held, held exactly when a hold conflicts |
| VaultLocks.LockTable.AcquireServe | hippius-mem/src/main.rs:786-845 | Refused exactly under an exclusive liveness hold; read-only exactly when the writer file is held; what is held afterwards |
| VaultLocks.LockTable.AcquireUpgrade | hippius-mem/src/upgrade.rs:317-348 | Both locks or none, and both exactly when both are free |
| VaultLocks.LockTable.Contest | hippius-mem/src/main.rs:747-770 | Wins exactly when the writer file is free |
| VaultLocks.Machine.Perform | hippius-mem/src/config.rs:1614-1645 | The lock calls performed on the shared table take the machine exactly through the step relation |
| VaultLocks.Machine.Boot | hippius-mem/src/main.rs:786-845 | A serve or an upgrade that boots in one call takes the machine where the two attempts of the step relation take it |
| Removal.RemovalSeals | hippius-mem/src/admin.rs:395-479 | After a removal that rotates, over every later run that does not list the member again, the member never holds the new key or any minted later |
| Removal.RemovalRotates | hippius-mem/src/admin.rs:693-785 | Such a removal mints a key unknown to the member and wraps it to every remaining member who has joined |
| Removal.RemovalClearsWraps | hippius-mem-core/src/store/mod.rs:6289-6365 | The member is outside the wraps of the new and all later epochs if and only if no epoch above the configured maximum had been wrapped to it |
| Removal.LaggingTeamIsReached | hippius-mem/src/admin.rs:693-785 | From founding, two joins, a publish and a rotation reach a team whose configured maximum is behind the bucket |
| Removal.LaggingRemovalLeavesWrap | hippius-mem-core/src/store/mod.rs:6289-6365 | A removal there reports success, re-mints an epoch, and leaves the removed member in the newest wraps |
| Removal.RemovedStaysOut | hippius-mem-core/src/identity/teamkey.rs:485-549 | Off the roster, no command gives a member another key or wrap until a publish lists it |
| Removal.RelistsIff | hippius-mem/src/admin.rs:664-747 | The commands those runs leave out are exactly the ones that put an unlisted member on the roster, their puts landing |
| Removal.RemovalIsIdempotent | hippius-mem/src/admin.rs:605-625 | A removal leaves the member off the roster exactly when there is a roster, it is not the founder, and the publish landed or was not needed; re-running it then changes nothing and says so, however its rotation had ended |
| Removal.FounderStays | hippius-mem/src/admin.rs:605-625 | Over every run of a new team the founder is on the roster and keys in use are accounted for |
| Removal.EpochsNeverDecrease | hippius-mem-core/src/store/mod.rs:6289-6365 | Over every run no wrap is removed and the newest published epoch never falls |
| Removal.EpochsStayInRange | hippius-mem/src/config.rs:769-775 | Over every run whose configured maxima the configuration accepts, a rotation never reaches the epoch where the addition saturates |
| Removal.HalfDoneArises | hippius-mem/src/admin.rs:664-785 | A member becomes wrapped at the newest epoch but off the roster only if it was listed before, or nobody was, and by a publish that landed and whose rotation did not complete, or completed below the published epochs |
| Removal.RotationClears | hippius-mem/src/doctor.rs:409-441 | A successful rotation leaves no such member if and only if the configured maximum was current or there was none |
| Removal.ModesReachTheSame | hippius-mem/src/admin.rs:664-670 | Over every run, whichever of the two modes each command is in, the same state is reached: the modes differ only in what they report |
| Removal.BootstrapEpochs | hippius-mem/src/admin.rs:1060-1099 | The ring is the configured keys and every epoch up to the maximum that the member can unwrap, the unwrapped key winning; writes go under the newest of them unless a newer epoch is configured |
| Removal.FloorIsMaxEpoch | hippius-mem-core/src/store/mod.rs:1373-1411 | A ring bootstrapped from the founding key never exceeds the configured maximum, which is therefore a rotation's floor |
| Removal.WritersFollowRotation | hippius-mem-core/src/store/mod.rs:1373-1411 | Once the maximum is raised, every joined member on the roster writes under the rotated epoch and key, and a member that was taken off and not wrapped there does not |
| Removal.PutWraps | hippius-mem-core/src/identity/teamkey.rs:485-549 | The put loop wraps to the authorized joined members in order and stops at a failing put |
| Removal.TeamStore.ProvisionTeamKey | hippius-mem-core/src/identity/teamkey.rs:485-549 | One wrap per authorized joined member, in order, up to a failing put |
| Removal.TeamStore.RotateKey | hippius-mem-core/src/store/mod.rs:6289-6365 | The new state and outcome of a rotation, refusals and partial failures included |
| Removal.TeamStore.RemoveMember | hippius-mem/src/admin.rs:395-479 | The new state and outcome of a removal with failures at any point |
| Removal.RosterAfterRemoval | hippius-mem/src/admin.rs:605-625 | From every sound team: the roster after a removal is the one before without the target if the target was on it, is not the founder and the publish landed; otherwise it is the one before |
| Removal.RosterAfterCommand | hippius-mem/src/admin.rs:664-747 | Every other command leaves the roster alone unless it publishes, and then the roster is the named members and the founder |
| Removal.RemovalEnds | hippius-mem/src/admin.rs:605-747 | Which of its outcomes a removal has, and that each but the published ones changes nothing: pending exactly when no remaining member has joined |
| Removal.RotationWraps | hippius-mem/src/admin.rs:664-747 | A rotation adds wraps at the epoch after the maximum only, for joined members the roster lets through, all of them to one fresh key if no put fails, and alters no other wrap |
| Removal.ProvisionGives | hippius-mem/src/admin.rs:83-110 | Provisioning an epoch gives each authorized joined member the founder's key of it, the first key at epoch zero without a wrap, and nothing at a later epoch the founder has no wrap of |
| ImportLedger.RememberedAtMostOnce | hippius-mem/src/import.rs:207-305 | Over any history of full, dry and aborted runs and forgets in which writing runs could read and save the ledger and rows are distinct, no observation is remembered twice, and the ledger is exactly the tags whose remember succeeded |
| ImportLedger.IngestObservations | hippius-mem/src/import.rs:207-255 | Stops at the first failing answer; writes exactly the new tags answered with success before it; imported plus skipped is the batch size |
| ImportLedger.Importer.ImportObservations | hippius-mem/src/import.rs:133-305 | An unreadable ledger counts as empty; the ledger is saved after a finished or aborted pass, and never by a dry run |
| ImportLedger.Importer.SaveLedger | hippius-mem/src/import.rs:389-397 | The whole list, the old file if it could not be opened, or nothing that parses if the write stopped half-way |
| ImportLedger.RememberedOnceIff | hippius-mem/src/import.rs:207-399 | Over any sequence of runs and forgets, with stale scans, unreadable or cut ledgers, failed and torn saves: no observation is remembered twice if and only if no run takes one row twice and none takes a row that was remembered before, is not in the index it scanned, and is not in a ledger it could read |
| ImportLedger.LedgerIsSavedWrites | hippius-mem/src/import.rs:282-399 | After any such history the ledger holds a tag if and only if some run that wrote it saved, and since then no save was torn, none overwrote a ledger it could not read, and no cut took the tag |
| ImportLedger.WrittenOnceIff | hippius-mem/src/import.rs:207-255 | A pass writes a tag twice if and only if the part of the batch it reaches lists a new tag twice and the store takes both |
| ImportLedger.WrittenIff | hippius-mem/src/import.rs:207-255 | A pass writes exactly the tags that are new to it and that the store takes |
| ImportLedger.TagInjective | hippius-mem/src/import.rs:738-740 | A provenance tag names one observation, whatever characters the session holds |
| ImportLedger.UnsavedLedgerResurrects | hippius-mem/src/import.rs:282-305 | Without the save, import, forget and import again remembers a note twice |
| ImportLedger.UnreadableLedgerResurrects | hippius-mem/src/import.rs:351-379 | So it does with both ledgers saved, if the second run cannot read the file |
| ImportLedger.TornLedgerResurrects | hippius-mem/src/import.rs:389-397 | And with every ledger readable, if the save of another import was torn in between |
| ImportLedger.RepeatedRowIsWrittenTwice | hippius-mem/src/import.rs:207-255 | A batch listing one observation twice, which takes a database without its primary key, writes it twice |
| ImportLedger.RunWritesIff | hippius-mem/src/import.rs:207-255 | A run writes exactly the tags of the rows it takes |
| ImportLedger.EventLeaves | hippius-mem/src/import.rs:282-399 | What each event leaves of the log, the index and the ledger, for each ending of a save |
| ImportLedger.TagText | hippius-mem/src/import.rs:738-740 | The tag's text: prefix, session, and the id in decimal without leading zeros, which reads back as the id |
| AtomicFiles.TargetsAreNeverTorn | hippius-mem-core/src/atomic_file.rs:110-165 | For every interleaving of writers, process crashes and power loss, a target holds its old contents or one writer's complete bytes, and one that existed never goes missing |
| AtomicFiles.NothingElseIsAltered | hippius-mem-core/src/atomic_file.rs:58-86 | A name that existed and is no target, a planted temp name included, is never altered |
| AtomicFiles.ErrorsLeaveNoTemp | hippius-mem-core/src/atomic_file.rs:127-137 | Without a crash no temp outlives its writer, and no writer tries more than sixteen names |
| AtomicFiles.FileSystem.CreateIn | hippius-mem-core/src/atomic_file.rs:58-86 | The first of at most sixteen names nothing holds; none exactly when all are taken or the open failed |
| AtomicFiles.FileSystem.WriteAtomically | hippius-mem-core/src/atomic_file.rs:153-165 | The whole replacement or nothing, and no temp either way |
| AtomicFiles.StepKeeps | hippius-mem-core/src/atomic_file.rs:58-165 | Every step, power loss included, keeps the invariant on links, files and stages |
| AtomicFiles.WriteCompletes | hippius-mem-core/src/atomic_file.rs:110-165 | From every start there is a run in which a writer with a free temp name completes: the target leads to its bytes, on disk, and every other name to what it led to |
| AtomicFiles.PowerLossMayUndo | hippius-mem-core/src/atomic_file.rs:110-165 | At any moment of any run power loss may bring back the file a name led to at the start: a replacement is atomic and not durable |
| AtomicFiles.PowerLossMayDrop | hippius-mem-core/src/atomic_file.rs:110-165 | Or leave a name that was not there at the start missing again |
| AtomicFiles.PowerLossMayTear | hippius-mem-core/src/atomic_file.rs:110-165 | And may turn what was written to a temp and not synced into any bytes, so the sync before the rename is needed |
| Calendar.ClosedFormCounts | hippius-mem/src/calendar.rs:14-24 | The closed form is day-by-day counting with leap-aware months, for every valid date of every year |
| Calendar.NextDayIsOneMore | hippius-mem/src/calendar.rs:14-24 | The next valid date is one more |
| Calendar.CountsOrder | hippius-mem/src/calendar.rs:14-24 | The count orders dates as the calendar does and is one to one |
| Calendar.CivilThenDays | hippius-mem/src/calendar.rs:28-44 | Every non-negative count gives a valid date that counts back to it |
| Calendar.DaysThenCivil | hippius-mem/src/calendar.rs:14-44 | And every valid date on or after the epoch comes back from its count |
| Calendar.YearOfEra | hippius-mem/src/calendar.rs:32-33 | The leap corrections of the era find the year whose days hold the given day |
| Calendar.SinceIsMidnight | hippius-mem/src/import.rs:529-569 | The date gate accepts exactly the real dates from 1970 to 9999, as the counted midnight of the day named, within range |
| Calendar.RenderParses | hippius-mem/src/import.rs:529-552 | Every date in range is accepted in its YYYY-MM-DD form |
| Base64.DecodeIsExact | hippius-mem-core/src/base64.rs:75-104 | A text decodes to given bytes if and only if it is their encoding |
| Base64.EncodeThenDecode | hippius-mem-core/src/base64.rs:20-104 | Decoding undoes encoding |
| Base64.DecodeThenEncode | hippius-mem-core/src/base64.rs:20-104 | An accepted text is what its bytes encode to |
| Base64.EncodedLength | hippius-mem-core/src/base64.rs:20-39 | Four characters for every three bytes begun |
| Base64.EncodeLoop | hippius-mem-core/src/base64.rs:20-39 | The chunk loop computes the encoding |
| Base64.DecodeLoop | hippius-mem-core/src/base64.rs:75-104 | The quad loop computes the decoding, errors included |
| Base64.QuadThenChunk | hippius-mem-core/src/base64.rs:84-102 | An accepted group is the encoding of its bytes: padding bits are forced to zero |
| Base64.AlphabetIsTable | hippius-mem-core/src/base64.rs:16-16 | The runs used by the proofs are the 64-character table |
| SerdeCompact.SerializeThenDeserialize | hippius-mem-core/src/serde_compact.rs:56-73 | Any list of 32-bit patterns, or none, survives |
| SerdeCompact.TextIsCanonical | hippius-mem-core/src/serde_compact.rs:119-131 | A text is read as a list if and only if it is what that list is written as |
| Ulids.PrintThenParse | hippius-mem-core/src/ulid.rs:126-171 | Parsing undoes printing for every 128-bit value |
| Ulids.TextOrderIsNumeric | hippius-mem-core/src/ulid.rs:126-136 | Ids sort as text exactly as they sort as numbers |
| Ulids.ParseThenPrint | hippius-mem-core/src/ulid.rs:156-171 | Printing an accepted text's value gives it in upper case with the leading digit modulo 8 |
| Ulids.AliasesAre | hippius-mem-core/src/ulid.rs:156-171 | Two accepted texts share a value if and only if those forms agree |
| Ulids.EarlierSortsFirst | hippius-mem-core/src/ulid.rs:97-120 | An id of an earlier millisecond sorts first |
| Ulids.PartsRoundTrip | hippius-mem-core/src/ulid.rs:97-124 | The parts of an id and the id of its parts, overflow bits dropped |
| Ulids.BuildLookup | hippius-mem-core/src/ulid.rs:47-57 | The table holds the digit of each alphabet byte in either case and no value elsewhere |
| Ulids.EncodeLoop | hippius-mem-core/src/ulid.rs:127-136 | The array filled from the end is the base-32 form |
| Ulids.FromStr | hippius-mem-core/src/ulid.rs:156-171 | The loop over the lookup table answers length, character error or the 128-bit fold |
| Ulids.FoldWraps | hippius-mem-core/src/ulid.rs:163-169 | The shifting accumulator is the value modulo 2^128 |
| ObjectKeys.MintThenParse | hippius-mem-core/src/objkey.rs:99-187 | Parsing is a left inverse of minting |
| ObjectKeys.KeysAreInjective | hippius-mem-core/src/objkey.rs:99-133 | Two notes share a key only if they are the same version of the same note |
| ObjectKeys.KeysAreSafe | hippius-mem-core/src/objkey.rs:52-133 | A key is under 1024 bytes, its segments are valid, and it stays out of the underscore namespaces |
| ObjectKeys.PrefixNamesTheNote | hippius-mem-core/src/objkey.rs:216-219 | A key starts with another's note prefix if and only if both name one scope and note |
| ObjectKeys.ParseThenMint | hippius-mem-core/src/objkey.rs:143-187 | Minting a parsed key gives it with canonical ids, and is refused exactly for underscore repositories |
| ObjectKeys.UnderscoreKeysParse | hippius-mem-core/src/objkey.rs:143-187 | Every key with a valid repository that starts with an underscore is parsed and cannot be minted |
| ObjectKeys.UnderscoreRepoExists | hippius-mem-core/src/objkey.rs:143-187 | Such a repository exists |
| ObjectKeys.ConfigAgrees | hippius-mem/src/config.rs:2015-2046 | The configuration accepts exactly the teams keys can be minted under |
| ObjectKeys.AllowedAlphabet | hippius-mem-core/src/objkey.rs:52-98 | The characters of a segment are exactly the 64 of the literal alphabet |
| ObjectKeys.MintedIff | hippius-mem-core/src/objkey.rs:99-133 | A key is minted exactly for a valid team and a valid repository that is neither named as the shared segment nor begins with an underscore |
| ObjectKeys.MintedKey | hippius-mem-core/src/objkey.rs:99-133 | The minted text, piece by piece |
| ObjectKeys.ParsedIff | hippius-mem-core/src/objkey.rs:143-187 | A key is parsed exactly when it is four such pieces, valid or the shared segment, with the two id prefixes and 26 readable characters each |
| ObjectKeys.KeyParses | hippius-mem-core/src/objkey.rs:143-187 | And parses to the scope, id and version its pieces say |
| Framing.FramingIsPrefixFaithful | hippius-mem-core/src/framing.rs:25-29 | One field list's bytes begin another's if and only if the list begins the other; so framing is one to one |
| Framing.FramingRoundTrips | hippius-mem-core/src/framing.rs:25-56 | Reading the frames gives the fields back |
| Framing.ParseFramed | hippius-mem-core/src/framing.rs:42-56 | The loop reads whole fields until one is cut short |
| Framing.Buffer.PushFramed | hippius-mem-core/src/framing.rs:25-29 | Appends eight length bytes and the field |
| Framing.FrameIs | hippius-mem-core/src/framing.rs:25-29 | A frame is eight bytes that read as the field's length, and the field |
| Framing.LittleEndian | hippius-mem-core/src/framing.rs:25-56 | Eight bytes are read least first |
| Framing.OpBytesInjective | hippius-mem-core/src/oplog/op.rs:379-396 | No two ops have the same signed bytes |
| Framing.HeadBytesInjective | hippius-mem-core/src/oplog/head.rs:125-136 | No two heads have the same signed bytes |
| Framing.OpLayout | hippius-mem-core/src/oplog/op.rs:379-396 | Where each field stands in an op's signed bytes, with the literal domain tag and their length in bytes |
| Framing.HeadLayout | hippius-mem-core/src/oplog/head.rs:125-136 | And in a head's |
| Framing.KindsOnTheWire | hippius-mem-core/src/oplog/op.rs:475-501 | The tag byte of each kind and relation, and the target between them |
| Framing.PeelKind | hippius-mem-core/src/oplog/op.rs:475-501 | The kind's bytes determine the kind and where they end |
| Framing.SignedTypesApart | hippius-mem-core/src/oplog/head.rs:60-67 | The domain tags keep messages of different signed types apart, whatever follows them |
| Framing.OpIsNoHead | hippius-mem-core/src/oplog/head.rs:60-67 | In particular no signed head is a signed op |
| LikeEscape.QueryIsSubstring | hippius-mem/src/import.rs:676-690 | The pattern matches a text if and only if the text holds the query as a literal substring, up to ASCII case |
| LikeEscape.QueryIsFound | hippius-mem/src/import.rs:676-690 | The escaped query between wildcards matches exactly where the query stands in the text at some place, character by character |
| LikeEscape.SameCharMeans | hippius-mem/src/import.rs:676-690 | Two characters are taken as one exactly when they are equal or the two cases of one ASCII letter |
| LikeEscape.EscapeLike | hippius-mem/src/import.rs:575-584 | The loop computes the escaped text |
| LikeEscape.EscapedMatches | hippius-mem/src/import.rs:575-584 | An escaped text matches itself and nothing else |
| Brief.BriefIsDetermined | hippius-mem-core/src/brief.rs:56-101 | Live sets with the same notes render the same brief in whatever order they are held |
| Brief.BriefFitsBudget | hippius-mem-core/src/brief.rs:56-144 | The whole text, estimated as one text, is within the budget |
| Brief.SectionListsPrefix | hippius-mem-core/src/brief.rs:108-144 | A section lists a prefix of its lines and stops only at the end or at a line that does not fit |
| Brief.RulesUnaffected | hippius-mem-core/src/brief.rs:56-101 | Live sets with the same rules begin their briefs with the same header and rules section |
| Brief.BriefKeepsRulesIff | hippius-mem-core/src/brief.rs:46-101 | The brief begins with the header and every rule line if and only if together they fit the budget |
| Brief.RulesKeptIff | hippius-mem-core/src/brief.rs:108-144 | The rules section lists every rule under the same condition |
| Brief.LowerTierOutlivesRuleIff | hippius-mem-core/src/brief.rs:46-144 | A lower-tier line is listed although a rule was dropped if and only if the rules do not all fit and the first line of a lower tier does fit what is left |
| Brief.GotchaMayOutliveRule | hippius-mem-core/src/brief.rs:46-55 | Against the documentation: the brief of a rule and a gotcha lists only the gotcha, at every budget that holds the gotcha and not the rule |
| Brief.RulesMayBeDropped | hippius-mem-core/src/brief.rs:46-55 | Such notes and such a budget exist under every header |
| Brief.RenderBrief | hippius-mem-core/src/brief.rs:56-101 | The code renders the specified brief |
| Brief.BriefText | hippius-mem-core/src/brief.rs:37-144 | For every live set and budget that holds the header, the whole text: the header, then for each tier its literal title and the lines of the notes listed, which are notes of that tier's types, newest update first and lower id on a tie, every one of them preceded by every newer one of its tier |
| Brief.BriefOfOne | hippius-mem-core/src/brief.rs:56-144 | The literal text for a single note of each type at every budget, estimates rounded up to quarters |
| Brief.PushLinesLoop | hippius-mem-core/src/brief.rs:125-144 | The loop with its break takes lines while they fit |
| Sorting.SortIsDetermined | hippius-mem-core/src/brief.rs:37-44 | Sorting by a total order forgets the order it was given |
| Report.RankingIsDetermined | hippius-mem-core/src/report.rs:198-218 | The ranking depends only on the set of notes |
| Report.OmittedRankBelow | hippius-mem-core/src/report.rs:198-218 | Every kept note ranks ahead of every omitted one |
| Report.TotalIsBeforeCap | hippius-mem-core/src/report.rs:198-218 | The total counts every reinforced note, and exactly those are ranked |
| Report.RankReuse | hippius-mem-core/src/report.rs:198-218 | The top of the ranking, capped, and the uncapped total |
| Report.RankedByReinforcers | hippius-mem-core/src/report.rs:198-218 | Of two ranked notes the earlier has more distinct reinforcers, or as many and the lower id |
| Report.RankedAreReinforced | hippius-mem-core/src/report.rs:198-218 | Ranked are exactly the notes with a reinforcer, each with the number of its distinct ones |
| Report.AdjacentWindowsAdd | hippius-mem-core/src/report.rs:54-59 | Tallies of adjacent windows add up to that of the joined one |
| Report.EveryOpCountedOnce | hippius-mem-core/src/report.rs:170-188 | Counts plus reinforcements are the ops in the window |
| Report.TallyActivity | hippius-mem-core/src/report.rs:170-188 | The loop computes the five counts |
| Report.CountMeans | hippius-mem-core/src/report.rs:170-188 | Each counter is the number of ops of its kind from the start of the window to before its end |
| ConfigText.ScrubIgnoresValue | hippius-mem/src/config.rs:2391-2411 | The scrubbed type error is the same for every embedded value, even one imitating the message |
| ConfigText.ScrubIsIdempotent | hippius-mem/src/config.rs:2391-2411 | Scrubbing twice is scrubbing once |
| ConfigText.ScrubShows | hippius-mem/src/config.rs:2391-2411 | What is shown of a type or value error: the literal plain words and the expectation |
| ConfigText.ScrubKeeps | hippius-mem/src/config.rs:2391-2411 | Without an expectation the plain words alone are shown, and any other message is left as it is |
| ConfigText.HintIdempotentIff | hippius-mem/src/config.rs:2132-2181 | The hint of a hint is that hint if and only if the pattern is not a URL whose shown path is itself a URL |
| ConfigText.HintIsUrlIff | hippius-mem/src/config.rs:2132-2181 | Under the same condition the hint itself holds no scheme mark |
| ConfigText.HintNotIdempotent | hippius-mem/src/config.rs:2132-2181 | A pattern whose hint has another hint |
| ConfigText.HintOfUrl | hippius-mem/src/config.rs:2132-2181 | The host and path come back from a URL with or without user and port and with any endings |
| ConfigText.HintOfScp | hippius-mem/src/config.rs:2132-2181 | And from the scp form |
| ConfigText.HintOfBare | hippius-mem/src/config.rs:2132-2181 | And from the bare form |
| ConfigText.CanonicalOrgHint | hippius-mem/src/config.rs:2132-2181 | The loop to a fixed point computes the hint |

## Left out

- Cryptography: sealing, BLAKE3, sr25519 and key wrapping are values and assumptions, not code.
- Transport and presentation: S3, HTTP, MCP, SQLite access, prompts, banners, log wording and error texts.
- Index ranking, recall, redaction of blobs, garbage collection and snapshot pruning are not modelled.
- Anchor records, on-chain readback and the reconcile report beyond its head and tail checks are not modelled.
- Refusals of non-founders, recovery keys, manifest elections and anti-rollback markers are not modelled.
- RemovalRails.RemovalIsSafeIff: an author that deletes or alters its own objects between the second read and the delete is left to DeletionIsHarmlessIff.
- IncrementalSync.SyncIncremental: takes the member view and the checkpoint as given, and holds for each; a blob that cannot be fetched is one that does not decode, in both paths alike.
- LiveBucket.NoHonestAuthorAccused: covers one machine per identity and reclaimed failed appends, as the source's own documentation restricts it, and reads that fetch all they list; AccusedIffMissed has the others.
- Removal.TeamStore.RotateKey: refusals of non-founders and the anti-rollback markers are not modelled.
- Brief.RenderBrief: the library's stable sort is the sort function of Sorting, on values.
- Report.RankReuse: likewise, and ids compare as numbers, which is their text order by Ulids.TextOrderIsNumeric.
- Base64.DecodeLoop: takes text as bytes; the array readers for older files only push and are not modelled.
- Calendar.SinceIsMidnight: the argument parser around the date gate is not modelled.
- Summary building, character truncation, hex, constant-time comparison, environment overlays and argument parsers would only add easy members.
- Floating-point meaning of embeddings: a float is its 32-bit pattern.
