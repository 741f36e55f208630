# Nerve kernel and filesystem host: a verified model

This project models the stateful and algorithmic parts of the deterministic kernel (`nerve-core`) and its
filesystem host (`nerve-fs`) in Dafny and proves what they promise. `dafny verify dfyconfig.toml` checks all of it.

| files | component |
|---|---|
| `AtomicBatch.dfy`, `AtomicChanges.dfy`, `AtomicLog.dfy`, `AtomicSteps.dfy`, `AtomicDryRun.dfy` | the atomic file batch: what changes leave at each path; an undo log over a file system whose every primitive may fail, some of them half-way, and whose existence probe may wrongly answer no, wherever there is trouble; without trouble the batch is a function of its input, and it is said which batches that function undoes |
| `Provider.dfy`, `ProviderCodemap.dfy`, `ProviderCalls.dfy`, `ProviderSnapshot.dfy`, `ProviderScans.dfy`, `ProviderWarmer.dfy`, `ProviderGenerations.dfy`, `ProviderStaleWarmer.dfy`, `ProviderStaleSymbols.dfy` | the snapshot slot, codemap cache, generation counter and warming slot as a transition system over interleaved callers, mutations, warmers and outside edits of any kind, with one invariant per cache; what each call returns, told by the steps of the run alone; exactly when an insertion, and when a result, is stale |
| `LineRanges.dfy`, `Rebase.dfy` | line-range normal forms, and rebasing of selected ranges across an edit |
| `HashChain.dfy`, `Ledger.dfy`, `Replay.dfy` | linear hash chains, the transparency ledger, the run spine and its replay verification |
| `Pinning.dfy`, `HostCatalog.dfy`, `HostReadings.dfy`, `Toolchain.dfy`, `Receipt.dfy`, `ContentHash.dfy` | the byte strings that are digested or signed, which catalogs and toolchains share theirs with another, and the two-lane rolling hash |
| `Paths.dfy`, `Tree.dfy`, `TreeRender.dfy`, `TreeLaws.dfy`, `TreeFull.dfy`, `TreeBuild.dfy` | the file tree: splitting and scoping paths, the builder filled in place, rendering under limits, its laws, and the response |
| `Scan.dfy` | collecting the parallel walkers' outputs and fixing a snapshot |
| `Outcome.dfy` | calibration over outcome records |
| `Common.dfy`, `Orders.dfy`, `Utf8.dfy` | shared datatypes, decimal digits, total orders and the stable sort, well-formed UTF-8 |

How to read it:

- Code that changes things step by step is a method proved against a function or a predicate; what the code is for
  is then proved about that function by lemmas. `FsProvider` and `NodeBuilder` are classes because their originals are
  updated in place.
- Which primitive fails, what a half-finished write leaves behind, what a scan finds and how threads interleave are
  left open, so each statement holds for every choice. For the file batch, `Trouble` says at which paths a primitive may
  fail or a probe may be wrong; no contract lets the code blame a path without trouble.
- SHA-256 (FIPS 180-4, section 6.2) is any function to 32 bytes. No result supposes it injective: a result says
  "equal, or these two distinct inputs have the same digest". JSON serialisation is a function to bytes, injective
  where a statement says so.
- What is digested, signed or reported is fixed by predicates that lay it out with the source's own constants and do
  not mention the functions that compute it, down to the hex digits; so are the states of the hash lanes, the outcome of
  a rebased range and what a batch leaves at a path.
- Machine integers are written out where they matter: saturation and `isize` differences in rebasing, `u64`
  little-endian bytes and wrap-around in hashing, saturating multiplication in rates. The `usize::MAX` sentinels of the
  tree ("no limit") are `None`.

Where the code does less than its documentation says, the code is modelled, the gap is shown, and it is said exactly
when the code does keep its word:

- `crates/nerve-fs/src/provider.rs:153-156` and `219-222` say that a stale warmer cannot insert. It can
  (`ProviderStaleWarmer.StaleWarmerInserts`): an insertion is stale exactly when some step bumped the generation between
  the check under the codemap lock and the insertion (`ProviderGenerations.WarmerInsertionStaleIff`).
- `crates/nerve-fs/src/provider.rs:148-154` says that signature validation guards stale reads. It does unless a signature
  comes back over other content, and an edit history lets some call return stale symbols exactly when it does that
  (`ProviderStaleSymbols.CanBeStaleIff`). The provider's own renames can, since a rename keeps modification time and size:
  rename a file away, write it anew, and rename it back (`ProviderStaleSymbols.RenameBackIsStale`). Snapshots, scans and
  warmers need no such condition.
- `crates/nerve-core/src/runpin.rs:13-14` says that crafted path contents can never forge a boundary, so that the digest is
  unambiguous. For a file system's catalog that is so: with sizes below 2^56 it shares its pre-image with no other catalog
  that either provider can list, whatever separators its paths hold (`HostCatalog.DiskCatalogAlone`). It is not so for an
  in-memory catalog, whose paths are any strings without backslashes: two rows can be read as one when the eight bytes of
  the size between them are UTF-8 without a backslash. Files "a" and "b" can be read as one file exactly when the size of
  "a" is such, as 0 is and 200 is not (`HostCatalog.TwoFilesAloneIff`, `ZeroFits`, `TwoHundredDoesNotFit`). A catalog of
  distinct and printable paths is alone with its pre-image exactly when no size but that of the last file, in order, is
  such (`HostCatalog.PrintableAloneIff`); one whose paths hold no separator, exactly when no run of its rows can be read
  as one row that keeps the order (`HostCatalog.PlainAloneIff`); one of a single file, exactly when its path holds no
  boundary (`HostCatalog.OneAloneIff`); and any, exactly when a reader that lists every way to read the pre-image as rows
  finds no other that is in order (`HostReadings.AloneIff`).
- Nor is it so for toolchains, whose values are arbitrary strings, such as the whole text of a lockfile
  (`crates/nerve-workstation/src/toolchain_pin.rs:83-95`): any two entries can be read as one, and a toolchain is alone
  with its pre-image exactly when it has at most one entry, free of unit separators (`Toolchain.ToolchainAloneIff`). Among
  toolchains whose keys hold no unit separator and whose values hold no record separator, the pre-image determines the
  toolchain (`Toolchain.ToolchainDecodes`).
- A failed batch does not restore every file, even when rollback and removal meet no failure. It loses a file whose name it
  gave to a backup, which takes a batch that deletes, or renames away, a file with the name of a backup and then backs up
  another under that name. Rollback restores the start exactly when no backup is given the name of a file of the start
  (`AtomicDryRun.RestoredIff`, `AtomicDryRun.FailedRestoredIff`), in every run if no change removes such a file.
  It also loses, unreported, an existing file that the existence probe took to be absent, as the probe does on any metadata
  error, when the file was first backed up; if the probe is misled only at a later backup, the file is restored. And it
  leaves behind, unreported, a file of the batch's making that the probe takes to be absent during rollback. Unless a
  backup file is itself reported or missed, it is said of each path, if neither reported nor a backup file, exactly whether
  it is restored; only of a file misjudged both times it is said just that it is there
  (`AtomicBatch.FsProvider.ApplyAtomicBatch`, `AtomicLog.PathTold`).

## Model

| member | source | states |
|---|---|---|
| AtomicBatch.FsProvider.ApplyAtomicBatch | crates/nerve-fs/src/atomic.rs:18-43 | Always: only paths the changes name and backup files change, only a target with a misleading probe is lost (misjudged when first backed up) or missed by rollback, and only a target is reported, if there is trouble with it or with a backup file. Applied, if no change names a backup: every change found what it needs (nothing where it creates, a file where it updates, deletes or renames), and every path but backups that could not be removed holds what the last change naming it wrote there, nothing if that change deleted it or renamed it away, and what it held before if none names it; the caches are invalidated once. Failed at any point: the applied paths are those of a proper prefix of the changes, in order, of a rename the source and then the destination; and, unless a backup file is itself reported or missed, every path neither reported nor a backup file holds what it held before exactly when it was not lost, but for those rollback's probe missed last, which are there, and were before exactly when lost; with nothing reported or missed all files are restored exactly when no file of the start was lost or gave its name to a backup, and none gives its name if no change deletes or renames away a file of the start with a backup's name. Without trouble the result, the files and the backups' names are a function of the input |
| AtomicBatch.FsProvider.ApplyEach | crates/nerve-fs/src/atomic.rs:22-39 | the loop stops at the first change that fails, with the log leading back to the start, wrong only where a probe was, and the applied paths those of the changes before it; without trouble as the dry run |
| AtomicBatch.FsProvider.ApplyNext | crates/nerve-fs/src/atomic.rs:22-39 | one round keeps all that, or stops with it |
| AtomicBatch.FsProvider.FailBatch | crates/nerve-fs/src/atomic.rs:45-57 | a failed batch is rolled back and reported as ApplyAtomicBatch says |
| AtomicBatch.FsProvider.FailAtomic | crates/nerve-fs/src/atomic.rs:45-57 | replaying and removing the backups from any point of the batch gives the rolled-back outcome, told for every path that is neither reported nor a backup file; what is reported or missed has trouble to blame; without trouble nothing is, and the files are those of the replay without the backups |
| AtomicBatch.FsProvider.Exists | crates/nerve-fs/src/atomic.rs:127 | a yes is right; a no may be wrong, where the probe may be fooled |
| AtomicBatch.FsProvider.RestoreOne | crates/nerve-fs/src/atomic.rs:179-183 | a success puts the target back, from a copy that is there, unless a fooled probe took it to be absent when it was to be removed, and then it is still there; a failure has trouble, or a copy that is gone, to blame |
| AtomicBatch.FsProvider.ChangeTargets | crates/nerve-fs/src/atomic.rs:59-75 | the targets are the resolved paths, and those resolved as existing are there; without trouble it fails only if one is not |
| AtomicBatch.FsProvider.ApplyChange | crates/nerve-fs/src/atomic.rs:77-104 | success leaves at every path what the change writes there, or nothing if it removes it, and nothing else changed; a creation found no file, a deletion or renaming found one; failure may leave anything in the change's own targets and nothing elsewhere; without trouble it fails only if the change does not find what it needs, and then disturbs nothing |
| AtomicBatch.FsProvider.BackUpAndApply | crates/nerve-fs/src/atomic.rs:24-39 | one round keeps the log able to lead back to the start, and keeps step with sequential application |
| AtomicBatch.FsProvider.BackupTargets | crates/nerve-fs/src/atomic.rs:29-34 | the log covers every target of the change, existing files are untouched, and only fresh backup files appear; without trouble as the dry run |
| AtomicBatch.FsProvider.BackupNext | crates/nerve-fs/src/atomic.rs:29-34 | one target more: a fresh copy and its entry, or at most a stray file |
| AtomicBatch.FsProvider.BackupTarget | crates/nerve-fs/src/atomic.rs:126-138 | a target found present is copied to a fresh file; one that is there is recorded as absent only if the probe may be fooled, and the log remembers what it held; a failure leaves at most one stray file; without trouble the backup is determined |
| AtomicBatch.FsProvider.CopyToUniqueBackup | crates/nerve-fs/src/atomic.rs:140-168 | a returned copy is new and holds the target's content, within 32 names; without trouble it has the first free name, or there is none |
| AtomicBatch.FsProvider.RollbackBackups | crates/nerve-fs/src/atomic.rs:176-189 | replaying last to first, every path not tainted ends with what the log says it held, also after an earlier step failed on it; what is tainted is reported, or was missed last, or is gone because it was misjudged when first backed up, and there is trouble with it or with a copy; without failures the result is the full replay |
| AtomicBatch.FsProvider.CleanupBackups | crates/nerve-fs/src/atomic.rs:191-197 | removal touches the saved copies only and creates nothing; without trouble all are gone |
| AtomicBatch.FsProvider.CommitAtomic | crates/nerve-fs/src/atomic.rs:40-42 | the backups are removed and the caches invalidated; but for backups that could not be removed the files are as the last changes to name them left them |
| AtomicChanges.OneLeaves | crates/nerve-fs/src/atomic.rs:77-123 | what one change that applies leaves at each path |
| AtomicChanges.AppliedSettles | crates/nerve-fs/src/atomic.rs:22-39 | changes applied in sequence leave at every path what the last change that names it wrote there, nothing if that change removed it, and what it held before if none names it |
| AtomicChanges.FindsIff | crates/nerve-fs/src/atomic.rs:59-104 | a change that updates only files that are there applies exactly when, after those before it, there is no file where it creates one and a file where it updates, deletes or renames |
| AtomicChanges.TouchedIsNamed | crates/nerve-fs/src/atomic.rs:59-75 | every target of a batch is a path that some change writes or removes |
| AtomicChanges.DisplayPathsDisplay | crates/nerve-fs/src/atomic.rs:199-209 | the display paths are those of the changes in order, of a rename the source and then the destination |
| AtomicLog.BackupPathExample | crates/nerve-fs/src/atomic.rs:170-174 | a backup's name spelled out |
| AtomicLog.UnwoundDepends | crates/nerve-fs/src/atomic.rs:176-189 | what a replay restores depends on the present files only at paths the log does not target |
| AtomicLog.UnwoundAppend | crates/nerve-fs/src/atomic.rs:126-138 | recording a target's present content changes no replay result but that of the fresh copy |
| AtomicLog.JournalAppend | crates/nerve-fs/src/atomic.rs:29-34 | taking a backup keeps every saved copy intact for its turn in the replay, and the log leading back |
| AtomicLog.JournalStray | crates/nerve-fs/src/atomic.rs:147-158 | an untracked partial backup file disturbs nothing the log relies on |
| AtomicLog.JournalTouched | crates/nerve-fs/src/atomic.rs:35-37 | whatever a change does to targets it has backed up, half-applied or not, the log still leads back |
| AtomicLog.CoveredByOwnEntries | crates/nerve-fs/src/atomic.rs:25-34 | backing up a change's targets in order covers them, also when its copies sit beside them |
| AtomicLog.ReplayStep | crates/nerve-fs/src/atomic.rs:178-187 | one replay step, successful or not, keeps untainted paths in step with the log |
| AtomicLog.InStepChange | crates/nerve-fs/src/atomic.rs:77-104 | a change applied beside backup files acts as on the sequential file system |
| AtomicLog.LostAreRemoved | crates/nerve-fs/src/atomic.rs:176-189 | the replay removes every file that was taken to be absent when first backed up |
| AtomicLog.StayExplained | crates/nerve-fs/src/atomic.rs:178-187 | a target that the replay's probe took to be absent is there after the step, unreported; one recorded as absent and honestly probed is gone |
| AtomicLog.TaintExplained | crates/nerve-fs/src/atomic.rs:178-187 | a step that copies from a path in doubt fails and is reported, unless that path is itself reported or missed |
| AtomicLog.PathTold | crates/nerve-fs/src/atomic.rs:176-189 | what a replayed path holds: what it held at the start, exactly if it was not lost, unless it stayed |
| AtomicLog.StepIsBlamed | crates/nerve-fs/src/atomic.rs:178-187 | a replay step that fails, is misled, or copies what is in doubt, has trouble with its target or with a saved copy to blame |
| AtomicLog.UntroubledIsRestored | crates/nerve-fs/src/atomic.rs:170-189 | if there is no trouble with the backup files, every path without trouble that is no backup file is unreported and restored |
| AtomicLog.UnfooledIsRestored | crates/nerve-fs/src/atomic.rs:170-189 | if no probe is misled and no change names a backup file, every unreported path that was there before, or is not named like a backup, is restored |
| AtomicSteps.TakenNext | crates/nerve-fs/src/atomic.rs:29-34 | backing up one more target keeps the log leading back, and in step with the dry run |
| AtomicSteps.AppliedNext | crates/nerve-fs/src/atomic.rs:22-39 | so does applying one more change, which without trouble stops where the dry run stops |
| AtomicLog.LostWereThere | crates/nerve-fs/src/atomic.rs:126-132 | what is so lost was there at the start, or is a backup file |
| AtomicLog.StillThereChange | crates/nerve-fs/src/atomic.rs:77-104 | a change that does not remove a backup-named file of the start leaves them all there |
| AtomicDryRun.DryBatchLeads | crates/nerve-fs/src/atomic.rs:22-39 | with nothing going wrong, the log of any batch leads back to its start |
| AtomicDryRun.RestoredIff | crates/nerve-fs/src/atomic.rs:170-197 | for every batch, an unhindered rollback and removal restore the start exactly when no backup was given the name of a file of the start |
| AtomicDryRun.ReusedNameIsLost | crates/nerve-fs/src/atomic.rs:170-197 | each file whose name was so reused is brought back and then removed with the backups |
| AtomicDryRun.KeepingReusesNone | crates/nerve-fs/src/atomic.rs:140-174 | a batch that removes no file of the start with a backup's name reuses none |
| AtomicDryRun.RemovedThenReused | crates/nerve-fs/src/atomic.rs:140-197 | for every batch that frees such a name and every change whose backup is given it next, the guard is broken and the file is lost |
| AtomicDryRun.FailedRestoredIff | crates/nerve-fs/src/atomic.rs:22-57 | a batch that cannot be applied is undone, with nothing else going wrong, exactly when none of its backups was given the name of a file of the start, and so when no change removes such a file |
| AtomicDryRun.AppliedIsSequential | crates/nerve-fs/src/atomic.rs:22-43 | without trouble, and if no change names a backup file, in an applied batch every change found what it needs, and every path holds what the last change that names it left there |
| AtomicDryRun.FailsForCause | crates/nerve-fs/src/atomic.rs:22-57 | and a batch that is not applied comes to a change, all before it having found what they need, that does not find what it needs, or a target of which is there with all 32 names for its backup taken; the paths reported are those of the changes before it |
| AtomicDryRun.OneChangeIsUndone | crates/nerve-fs/src/atomic.rs:24-39 | a batch of one change is always undone, whatever it removes |
| AtomicDryRun.ReusedBackupNameLosesAFile | crates/nerve-fs/src/atomic.rs:170-174 | a batch that loses a file exists: delete what will be called a backup of another, and update that other |
| ProviderCodemap.CodeSymbolsLinearizable | crates/nerve-fs/src/provider.rs:282-317 | in every interleaving, a call, hit or miss, returns the parse of content its file held at an instant within the call, if in the run's past no signature of that file came back over other content |
| ProviderCodemap.AlwaysCodemapInv | crates/nerve-fs/src/provider.rs:282-317 | in every run each cached entry pairs a signature with content the file held then or later, and every call in progress has read from its own time, for edits of any kind |
| ProviderCodemap.HitHeldDuring | crates/nerve-fs/src/provider.rs:288-294 | an entry whose signature matches one read within the call holds content held within the call |
| ProviderCodemap.SymbolsStep | crates/nerve-fs/src/provider.rs:282-317 | each step of a lookup keeps the codemap invariant, insertions by stale callers included |
| ProviderCalls.CallsAreLinearizable | crates/nerve-fs/src/provider.rs:282-317 | in every run, a call for a path made at one step that has returned by another has returned the parse, for that path, of what the path held after some step between, if no signature of the path came back over other content |
| ProviderCalls.InsertedIsServed | crates/nerve-fs/src/provider.rs:288-315 | what a call inserts is served to every call that reads the same signature, whatever is invalidated meanwhile, until another parse of the path is inserted |
| ProviderCalls.CallersInsert | crates/nerve-fs/src/provider.rs:288-317 | a caller's lookup returns what is cached under the signature it read, or else inserts what it parsed and returns that |
| ProviderSnapshot.SnapshotsFollowMutations | crates/nerve-fs/src/provider.rs:112-161 | read your writes: a snapshot call begun after a mutation returned gets a scan begun no earlier than the mutation's last edit |
| ProviderSnapshot.SnapshotsWithinTtl | crates/nerve-fs/src/provider.rs:325-328 | a returned snapshot's scan began at most the time to live before the call's clock reading |
| ProviderSnapshot.OneScanAtATime | crates/nerve-fs/src/provider.rs:127-140 | scans never overlap |
| ProviderSnapshot.AlwaysSnapshotInv | crates/nerve-fs/src/provider.rs:112-161 | in every run a stored, in-progress or returned snapshot's scan is no older than the last clearing its reader may rely on |
| ProviderScans.SnapshotsAreScanned | crates/nerve-fs/src/provider.rs:112-161 | in every run, what a call returns, from the cache or not, has exactly the entries with which some successful scan of that run ended; the scan began after every edit of every mutation that had returned when the call was made, and when the clock stood at most the time to live before the call's reading |
| ProviderScans.EverySnapshotIsScanned | crates/nerve-fs/src/provider.rs:112-161 | so it is with what a thread is about to return or register, with its scan's beginning and clock, and with the slot, which bears the clock reading of the call that scanned |
| ProviderScans.ServedIff | crates/nerve-fs/src/provider.rs:168-174 | a call is served from the slot, before the write lock or with it, exactly when the slot's clock reading is not after its own and at most the time to live before it |
| ProviderScans.StoredIsServed | crates/nerve-fs/src/provider.rs:120-142 | a stored scan is served to every such call until a mutation drops it or another scan replaces it |
| ProviderWarmer.RunningWarmerIsRegistered | crates/nerve-fs/src/provider.rs:217-252 | in every run a running, uncancelled warmer is the registered one and the only one |
| ProviderWarmer.AlwaysWarmerInv | crates/nerve-fs/src/provider.rs:208-253 | in every run generations of warmers are unique and each warmer is registered or cancelled |
| ProviderWarmer.DeregisterStep | crates/nerve-fs/src/provider.rs:243-251 | a finishing warmer clears only its own registration |
| ProviderGenerations.GenerationMoves | crates/nerve-fs/src/provider.rs:135-147 | the generation never falls, and has moved since an instant exactly when an invalidation or a finished scan has bumped it since |
| ProviderGenerations.InsertionStaleIff | crates/nerve-fs/src/provider.rs:299-315 | in every run a caller about to insert had its generation current at its check under the lock, and inserts stale exactly when the generation was bumped since |
| ProviderGenerations.WarmerInsertionStaleIff | crates/nerve-fs/src/provider.rs:255-315 | so it is with every warmer and its own generation |
| ProviderStaleSymbols.CanBeStaleIff | crates/nerve-fs/src/provider.rs:282-317 | for every edit history, some interleaving of calls returns stale symbols of a path exactly when a signature of the path comes back over content other than it held since |
| ProviderStaleSymbols.StaleRun | crates/nerve-fs/src/provider.rs:282-317 | if one does, a run of the provider's own successful calls with just these edits returns stale symbols |
| ProviderStaleSymbols.RenameBackIsStale | crates/nerve-fs/src/provider.rs:366-399 | renaming a file away, writing it anew and renaming it back, in three calls, is such a history |
| ProviderStaleWarmer.StaleWarmerInserts | crates/nerve-fs/src/provider.rs:299-315 | some run lets a warmer of an older generation insert after an invalidation bumped the generation |
| LineRanges.MergeRanges | crates/nerve-core/src/selection_rebase.rs:99-112 | the loop computes the merge |
| LineRanges.NormalizeRanges | crates/nerve-core/src/selection_rebase.rs:79-97 | clamp, stable sort by start and end, merge |
| LineRanges.ClampRange | crates/nerve-core/src/selection_rebase.rs:147-155 | a clamped range is in bounds, keeps its label, and is unchanged if it was in bounds |
| LineRanges.ClampsToNearest | crates/nerve-core/src/selection_rebase.rs:147-155 | its start is the nearest line that is there, its end the nearest from that line on |
| LineRanges.MergedIsCanonical | crates/nerve-core/src/selection_rebase.rs:99-112 | merging sorted ranges leaves them in bounds, sorted, and with no two neighbours of one label mergeable |
| LineRanges.MergedCovers | crates/nerve-core/src/selection_rebase.rs:99-112 | merging keeps the covered lines of every label |
| LineRanges.NormalizedIsCanonical | crates/nerve-core/src/selection_rebase.rs:79-97 | the normal form is canonical and covers per label what the clamped ranges cover |
| LineRanges.NormalizedIsSpreadOut | crates/nerve-core/src/selection_rebase.rs:79-112 | its ranges ascend by start and then end, and neighbours of one label neither overlap nor touch |
| Orders.SortStable | crates/nerve-core/src/selection_rebase.rs:95 | sorting is stable: elements that tie keep their order |
| LineRanges.NormalizedIdempotent | crates/nerve-core/src/selection_rebase.rs:79-97 | normalizing again changes nothing |
| LineRanges.CanonicalUnique | crates/nerve-core/src/selection_rebase.rs:79-112 | with one label the normal form is the only canonical list with its cover |
| Rebase.NormalizedLines | crates/nerve-core/src/selection_rebase.rs:67-77 | the lines number no more than the characters of the text |
| Rebase.LinesRoundTrip | crates/nerve-core/src/selection_rebase.rs:67-77 | joined, the lines give back the text with unified line ends, less a final one |
| Rebase.LineEndingsDoNotShow | crates/nerve-core/src/selection_rebase.rs:67-77 | line feeds and carriage-return line-feed pairs give the same lines |
| Rebase.CommonPrefixLen | crates/nerve-core/src/selection_rebase.rs:114-120 | the longest common prefix |
| Rebase.CommonSuffixLen | crates/nerve-core/src/selection_rebase.rs:122-129 | the longest common suffix |
| Rebase.PrefixExact | crates/nerve-core/src/selection_rebase.rs:46-48 | a range up to whose end the texts have the same lines covers identical lines of the new text |
| Rebase.SuffixExact | crates/nerve-core/src/selection_rebase.rs:49-50 | a range from whose start on every old line is as far from the end in the new text, the texts differing no later than at that start or where it is then, moves by exactly the length difference; saturation, the lower bound and the clamp are inactive; its lines are identical |
| Rebase.WithinPrefixIff | crates/nerve-core/src/selection_rebase.rs:46 | the code takes a range for one of the common prefix exactly when the texts have the same lines up to its end |
| Rebase.WithinSuffixIff | crates/nerve-core/src/selection_rebase.rs:49 | and for one of the common suffix exactly when it is as SuffixExact says |
| Rebase.WindowStarts | crates/nerve-core/src/selection_rebase.rs:204-211 | exactly the starts of the windows of that length that contain the boundary |
| Rebase.FindWindow | crates/nerve-core/src/selection_rebase.rs:213-225 | exactly the positions of the window, the tag comparison excluding none |
| Rebase.BoundaryCandidates | crates/nerve-core/src/selection_rebase.rs:189-202 | exactly the sorted positions of the boundary line, three window sizes and tag check included; nothing for a boundary out of range |
| Rebase.ClosestPair | crates/nerve-core/src/selection_rebase.rs:164-176 | the least (distance, start, end) over ordered pairs, and nothing when there is none |
| Rebase.AnchorRebase | crates/nerve-core/src/selection_rebase.rs:157-187 | the closest range with the old boundary lines; nothing exactly when they do not occur in order |
| Rebase.AnchoredUnique | crates/nerve-core/src/selection_rebase.rs:157-187 | that description determines the result |
| Rebase.OutcomeFaithful | crates/nerve-core/src/selection_rebase.rs:46-56 | a kept range is in bounds, keeps its label and boundary lines, and where nothing up to its end or from its start on has changed all its lines |
| Rebase.RebaseEach | crates/nerve-core/src/selection_rebase.rs:43-56 | a range stays where nothing up to its end has changed, moves by exactly the length difference where nothing from its start on has, and elsewhere goes to the closest place with its boundary lines, or is dropped when there is none |
| Rebase.RebaseRanges | crates/nerve-core/src/selection_rebase.rs:20-65 | the result is the normal form of those outcomes in order, the ranges whose outcome is none in order, and whether anything changed |
| Rebase.KeptIsListed | crates/nerve-core/src/selection_rebase.rs:43-56 | what is kept are the outcomes that are ranges, each in the place its rank gives it |
| Rebase.DroppedIsListed | crates/nerve-core/src/selection_rebase.rs:54-55 | what is reported dropped are, likewise, the ranges whose outcome is none |
| Rebase.RebasedCovers | crates/nerve-core/src/selection_rebase.rs:58 | the final normalization keeps exactly the lines the outcomes cover, per label |
| Rebase.SameLinesNoChange | crates/nerve-core/src/selection_rebase.rs:46-59 | between equal lines every range survives normalization as it is and none is dropped |
| Rebase.RebaseTexts | crates/nerve-core/src/selection_rebase.rs:20-65 | between texts with the same normalized lines nothing is dropped and nothing changed |
| HashChain.WriteHex | crates/nerve-core/src/ledger.rs:169-176 | the loop writes two lowercase digits a byte, the high one first |
| HashChain.HexIff | crates/nerve-core/src/ledger.rs:169-176 | such digits are the one spelling of the bytes |
| HashChain.HexInjective | crates/nerve-core/src/ledger.rs:169-176 | hex is injective |
| HashChain.SameHexDigest | crates/nerve-core/src/ledger.rs:161-176 | equal hex digests: equal inputs or a collision |
| HashChain.ChainCommits | crates/nerve-core/src/ledger.rs:161-166 | chains with the same head have the same identities, or a collision can be extracted |
| HashChain.HeadsCommit | crates/nerve-core/src/ledger.rs:161-166 | so it is for any heads of which each is the hex of the digest of the one before followed by the next identity |
| HashChain.U64BytesIff | crates/nerve-core/src/ledger.rs:36 | the eight bytes of a number are those of which the k-th weighs 256 to the k |
| Ledger.RecordIdentityCommits | crates/nerve-core/src/ledger.rs:33-39 | equal identities: equal position and payload, or a collision |
| Ledger.RecordSpelledIff | crates/nerve-core/src/ledger.rs:33-59 | a record hash is right exactly when it is the hex of the digest of the previous hash followed by the hex of the digest of the eight little-endian bytes of the position and the fact's JSON |
| Ledger.AppendRecordSpelled | crates/nerve-core/src/ledger.rs:48-71 | what is appended has the next position, points back to the head, has that hash, and becomes the head |
| Ledger.VerifyChain | crates/nerve-core/src/ledger.rs:80-105 | accepts exactly the slices in which every record has its position for number, the hash of the one before for previous hash, and the digest so spelled for its own, with the last one's hash for head; otherwise names the first record out of line and its first failing check |
| Ledger.AppendedIsChain | crates/nerve-core/src/ledger.rs:48-71 | whatever is appended from the empty head is a chain with the reached head |
| Ledger.AppendedIsAccepted | crates/nerve-core/src/ledger.rs:48-105 | so it is accepted, and with that head |
| Ledger.ChainIsAppended | crates/nerve-core/src/ledger.rs:48-105 | a chain is what appending its own facts produces |
| Ledger.ChainIffAppended | crates/nerve-core/src/ledger.rs:48-116 | the accepted slices are exactly those produced by appends, schema versions aside |
| Ledger.HeadCommits | crates/nerve-core/src/ledger.rs:80-105 | two accepted slices with one head hash have the same length and kinds, or a collision is extracted |
| Replay.BuildLedger | crates/nerve-core/src/provenance.rs:56-73 | every entry holds the hex of the digest of its event's JSON, and the hex of the digest of the chained digest before it, if any, followed by that; the root is the last chained digest |
| Replay.BuildRunAttested | crates/nerve-core/src/provenance.rs:86-107 | a run is sealed so over its events, and its identity is their root, whatever the host metadata |
| Replay.FirstDivergence | crates/nerve-core/src/runpin.rs:98-102 | the first position where chained digests differ, none if they agree throughout |
| Replay.VerifyReplay | crates/nerve-core/src/runpin.rs:92-113 | over the spine so spelled of the run's events: matched means equal roots; otherwise it points at the first event whose chained digest differs, or failing that the first event |
| Replay.ChainedCommits | crates/nerve-core/src/provenance.rs:59-71 | equal chained digests of tapes that differ give a collision |
| Replay.AlteredDiffers | crates/nerve-core/src/runpin.rs:92-113 | the first altered event is the first position that differs, or a collision |
| Replay.TamperingDetected | crates/nerve-core/src/runpin.rs:92-113 | events altered in place: unmatched, and pointing at the first altered event, or a collision |
| Replay.UnalteredMatches | crates/nerve-core/src/runpin.rs:92-113 | an unaltered run matches and points at nothing |
| Pinning.HashRepoSnapshot | crates/nerve-core/src/runpin.rs:24-41 | the digest, in hex, is taken of the entries laid out in order: id, 1F, path, 1F, the eight little-endian bytes of the size, 1E |
| Pinning.PreimageIs | crates/nerve-core/src/runpin.rs:25-39 | the order is by id, then path, then size, and the layout is the pre-image |
| Pinning.SnapshotForgetsOrder | crates/nerve-core/src/runpin.rs:30 | the pre-image does not depend on the order of the entries |
| Pinning.SnapshotDecodes | crates/nerve-core/src/runpin.rs:32-39 | without unit separators in ids and paths, the multiset of entries is read back, for ids and sizes of any kind |
| Pinning.PolicyIdIsPlain | crates/nerve-core/src/security.rs:26 | the root ids of a policy hold six bytes or more, no unit separator and no NUL |
| Pinning.CatalogRowsDetermined | crates/nerve-core/src/runpin.rs:32-39 | rows with such ids, sizes below 2^56 and paths free of NUL, or else of unit separators, are determined by their encoding, whatever other separators the paths hold |
| Pinning.SnapshotDetermined | crates/nerve-core/src/runpin.rs:13-41 | so is the multiset of a catalog's entries by the pre-image |
| Pinning.SnapshotDigestCommits | crates/nerve-core/src/runpin.rs:24-41 | equal digests of catalogs, or of entries free of unit separators: the same entries, or a collision |
| Pinning.RowDetermined | crates/nerve-core/src/runpin.rs:33-38 | one row with a separator-free id is determined by its encoding, for every path and size |
| Pinning.RowsForged | crates/nerve-core/src/runpin.rs:13-39 | one entry whose path holds the boundary of two others has their pre-image |
| HostCatalog.DiskCatalogAlone | crates/nerve-core/src/runpin.rs:13-41 | a file system's catalog (ids "root-N", string paths free of NUL, sizes below 2^56) shares its pre-image with no other catalog of either provider |
| HostCatalog.FirstBoundaryKept | crates/nerve-core/src/runpin.rs:32-39 | every other in-memory catalog with the same bytes ends a row where the first row ends, if that row is the last or its size cannot stand in a path |
| HostCatalog.FirmIsAlone | crates/nerve-core/src/runpin.rs:13-41 | an in-memory catalog of any string paths shares its pre-image with no other if no size but the last, in order, can stand in a path and no path holds a boundary |
| HostCatalog.FusableIsNotAlone | crates/nerve-core/src/runpin.rs:13-41 | it shares it with another if the sizes inside some run of its rows can stand in a path and the one row so read keeps the order |
| HostCatalog.LastTwoForged | crates/nerve-core/src/runpin.rs:13-41 | so it does if the last size but one can |
| HostCatalog.OneAloneIff | crates/nerve-core/src/runpin.rs:13-41 | an in-memory catalog of one file shares its pre-image with no other exactly when its path holds no boundary of two rows in order |
| HostCatalog.PlainAloneIff | crates/nerve-core/src/runpin.rs:13-41 | one whose paths hold no separator, exactly when no run of its rows can be read as one row that keeps the order |
| HostCatalog.PrintableAloneIff | crates/nerve-core/src/runpin.rs:13-41 | one of distinct and printable paths, exactly when no size but the last, in order, can stand in a path |
| HostReadings.ReadingsEncode | crates/nerve-core/src/runpin.rs:32-39 | what a reader of rows lists for some bytes are in-memory rows with that encoding |
| HostReadings.EncodedIsRead | crates/nerve-core/src/runpin.rs:32-39 | and it misses none |
| HostReadings.AloneIff | crates/nerve-core/src/runpin.rs:13-41 | an in-memory catalog of any paths shares its pre-image with no other exactly when the reader finds no other rows in order in it |
| HostCatalog.TwoFilesAloneIff | crates/nerve-core/src/runpin.rs:13-41 | files "a" and "b" can be read as one file exactly when the size of "a" can stand in a path |
| HostCatalog.ZeroFits | crates/nerve-core/src/runpin.rs:37 | the size 0 can |
| HostCatalog.TwoHundredDoesNotFit | crates/nerve-core/src/runpin.rs:37 | the size 200 cannot: its bytes are not UTF-8 |
| Toolchain.FeedMap | crates/nerve-core/src/runpin.rs:49-64 | a feeding loop writes the map's entries under their tag in key order |
| Toolchain.HashToolchain | crates/nerve-core/src/runpin.rs:47-66 | the digest, in hex, is taken of the tools and then the lockfiles, by strictly ascending key: the tag, 1F, the key, 1F, the value, 1E |
| Toolchain.PreimageIsLaid | crates/nerve-core/src/runpin.rs:49-64 | that layout is the pre-image |
| Toolchain.ToolchainDecodes | crates/nerve-core/src/runpin.rs:47-66 | with keys free of the unit and values free of the record separator, both maps are determined by the pre-image |
| Toolchain.ToolchainDigestCommits | crates/nerve-core/src/runpin.rs:47-66 | equal digests: equal toolchains, or a collision |
| Toolchain.ToolForged | crates/nerve-core/src/runpin.rs:49-64 | a tool whose value holds the boundary has the pre-image of that tool and a lockfile |
| Toolchain.TwoEntriesForged | crates/nerve-core/src/runpin.rs:47-66 | every toolchain of two entries or more shares its pre-image with another, of strings if it is |
| Toolchain.ToolchainAloneIff | crates/nerve-core/src/runpin.rs:47-66 | a toolchain of strings shares its pre-image with no other exactly when it has no entry, or one without unit separators |
| Receipt.DssePae | crates/nerve-core/src/receipt.rs:196-207 | the buffer ends up holding PAE of the "Signature Definition" section of the DSSE v1 protocol: DSSEv1, then type and payload each after its length in decimal, set apart by spaces |
| Receipt.VerificationIs | crates/nerve-core/src/receipt.rs:239-258 | a receipt is intact exactly when its id is the hex of the digest of its statement's JSON, and its signature valid exactly when the key in it, or none, verifies it over that encoding |
| Receipt.ParsePae | crates/nerve-core/src/receipt.rs:196-207 | a decoder: what it accepts is an encoding of what it returns |
| Receipt.PaeRoundTrip | crates/nerve-core/src/receipt.rs:196-207 | it recovers every type and payload, spaces and digits included |
| Receipt.PaeInjective | crates/nerve-core/src/receipt.rs:190-207 | distinct pairs have distinct encodings |
| Receipt.SealedReceiptIntact | crates/nerve-core/src/receipt.rs:209-228 | a sealed receipt bears its statement and signature, and is intact; with another statement under its id it is not, or there is a collision |
| Receipt.SignatureBindsTypeAndStatement | crates/nerve-core/src/receipt.rs:190-207 | under a key that verifies only what was signed with it, a verified receipt has a type and a statement that were signed together |
| ContentHash.ContentHash | crates/nerve-core/src/workspace_context.rs:292-303 | the digest is 32 lowercase hex digits of high * 2^64 + low; low is the last state of FNV-1a with the 64-bit offset basis and prime of draft-eastlake-fnv (exclusive or bit by bit, then multiplication modulo 2^64), high that of the second basis and prime over the bytes turned left by a bit |
| ContentHash.LowLaneOfNothing | crates/nerve-core/src/workspace_context.rs:293 | the low lane of no text is cbf29ce484222325, as draft-eastlake-fnv publishes |
| ContentHash.LowLaneOfA | crates/nerve-core/src/workspace_context.rs:293-297 | of "a" it is af63dc4c8601ec8c |
| ContentHash.LowLaneOfFoobar | crates/nerve-core/src/workspace_context.rs:293-297 | of "foobar" it is 85944171f73967e8 |
| ContentHash.XorCancels | crates/nerve-core/src/workspace_context.rs:296 | exclusive or undoes itself |
| ContentHash.LowPrimeInvertible | crates/nerve-core/src/workspace_context.rs:297 | multiplication by the 64-bit FNV prime (draft-eastlake-fnv, section 2) is injective modulo 2^64 |
| ContentHash.HighPrimeInvertible | crates/nerve-core/src/workspace_context.rs:299 | so is multiplication by the high lane's constant |
| ContentHash.OneByteShows | crates/nerve-core/src/workspace_context.rs:292-301 | texts of one length that differ in one byte differ in both lanes |
| ContentHash.OneByteShowsInDigest | crates/nerve-core/src/workspace_context.rs:301-302 | and in the printed digest |
| ContentHash.FormatInjective | crates/nerve-core/src/workspace_context.rs:301-302 | equal digests have equal lanes |
| Paths.JoinSplits | crates/nerve-core/src/tree.rs:446-458 | joining components and splitting again gives them back |
| Paths.ComponentsSplit | crates/nerve-core/src/tree.rs:447 | splitting distributes over a separator |
| Paths.ScopedIff | crates/nerve-core/src/tree.rs:387-403 | a path is in scope exactly when it is the prefix, a separator and something more; without a prefix every path is, whole |
| Paths.ScopedComponents | crates/nerve-core/src/tree.rs:387-403 | an in-scope path's components are the prefix's followed by the remainder's |
| Tree.NodeBuilder.Insert | crates/nerve-core/src/tree.rs:446-460 | inserting in place, level by level, places the file at the path's components and changes nothing else the builder owns |
| Tree.NodeBuilder.ChildOrDefault | crates/nerve-core/src/tree.rs:453-455 | the subdirectory, made empty if absent |
| Tree.LookupPut | crates/nerve-core/src/tree.rs:446-460 | placing a file changes the lookup of its own path and of no other |
| Tree.LookupPutAll | crates/nerve-core/src/tree.rs:358-367 | the built tree holds at every path the last file placed there |
| Tree.PutCommutes | crates/nerve-core/src/tree.rs:446-460 | files at different paths may be placed in either order |
| Tree.TreeForgetsOrder | crates/nerve-core/src/tree.rs:358-367 | the tree does not depend on the order of files with distinct paths |
| TreeRender.CountBuilder | crates/nerve-core/src/tree.rs:510-514 | the recursive count |
| TreeRender.Materialize | crates/nerve-core/src/tree.rs:462-508 | the loops and the running counter compute the rendering and the omitted count |
| TreeRender.MaterializeDirs | crates/nerve-core/src/tree.rs:472-488 | the directory loop: pruned, counted as omitted, or rendered one level down |
| TreeRender.MaterializeFiles | crates/nerve-core/src/tree.rs:493-506 | the file loop: shown up to the cap, then counted |
| TreeLaws.RenderConserves | crates/nerve-core/src/tree.rs:462-514 | nodes shown plus omitted plus hidden by policy at visited levels equals the count, for every depth limit, cap, pruning policy and switch |
| TreeLaws.RenderShows | crates/nerve-core/src/tree.rs:468-507 | a level shows, up to the cap, its unpruned directories in order (none beyond the depth limit) and then its files in order; a directory's node has its bare name for path and its rendering one level down, a file's node its path, the selected marker if its key is selected and then the codemap marker if its path supports one |
| TreeLaws.NothingHidden | crates/nerve-core/src/tree.rs:121-129 | without pruning and with files shown, nothing is hidden |
| TreeFull.RenderLeaves | crates/nerve-core/src/tree.rs:462-508 | without limits the leaves are exactly the directory's files, each once, at the path its ancestors' names spell |
| TreeFull.FullTreeShowsLast | crates/nerve-core/src/tree.rs:446-508 | a leaf of the full tree is the last file placed at its path |
| TreeFull.FullTreeIsCatalog | crates/nerve-core/src/tree.rs:343-403 | the full tree lists the catalog exactly when paths are distinct and none lacks a component |
| TreeBuild.Fill | crates/nerve-core/src/tree.rs:357-367 | the builder holds the root's entries in scope |
| TreeBuild.Build | crates/nerve-core/src/tree.rs:344-384 | one node per root with something in scope, and the omitted counts added up |
| TreeBuild.RootsShow | crates/nerve-core/src/tree.rs:344-384 | each bears the root's name, with the prefix after it if there is one that is not empty, and the prefix for path, unmarked, with the root's rendering below it |
| TreeBuild.AnyMarkedIff | crates/nerve-core/src/tree.rs:531-533 | the legend is used exactly when some node at any depth carries a marker |
| TreeBuild.ResponseIs | crates/nerve-core/src/tree.rs:324-341 | the response has the roots and their number, the omitted count, whether that is not 0, and so the legend |
| TreeBuild.GetFileTree | crates/nerve-core/src/tree.rs:119-143 | the response of the full and folders modes |
| TreeBuild.BuildConserves | crates/nerve-core/src/tree.rs:344-384 | over all roots, shown, omitted and hidden make up everything in scope |
| TreeBuild.TruncatedIff | crates/nerve-core/src/tree.rs:324-341 | in full mode, truncated is reported exactly when some entry in scope is not shown |
| TreeBuild.PlacedFrom | crates/nerve-core/src/tree.rs:358-366 | what is placed comes from an entry of the root; prefix and parts spell the entry's path |
| TreeBuild.EntryIsPlaced | crates/nerve-core/src/tree.rs:358-366 | and every entry of the root in scope is placed |
| TreeBuild.RootsForgetOrder | crates/nerve-core/src/tree.rs:344-384 | the rendering of all roots does not depend on the order of the catalog, for entries with distinct components |
| TreeBuild.FullTreeListsScope | crates/nerve-core/src/tree.rs:343-403 | in full mode the files below a root are exactly its entries in scope, each once, for clean and distinct paths |
| TreeBuild.FullTreeShows | crates/nerve-core/src/tree.rs:343-403 | so a file is shown exactly if some entry of the root is in scope with that path below the prefix |
| Scan.Collect | crates/nerve-fs/src/scan.rs:37-42 | draining the channel concatenates the outputs |
| Scan.CollectedForgetsOrder | crates/nerve-fs/src/scan.rs:32-42 | any order of arrival collects the same entries and diagnostics |
| Scan.FinalizeSnapshot | crates/nerve-fs/src/scan.rs:159-194 | cancelled, or the finalized snapshot |
| Scan.SnapshotForgetsArrival | crates/nerve-fs/src/scan.rs:159-194 | permuting entries with distinct keys, and diagnostics, changes nothing |
| Scan.SnapshotForgetsScheduling | crates/nerve-fs/src/scan.rs:32-42 | nor does the order in which workers deliver |
| Scan.ArrivalShowsIff | crates/nerve-fs/src/scan.rs:167-175 | for any entries, some order of arrival changes the snapshot exactly when different entries tie at a place within the entry limit |
| Scan.KeepsTheLeast | crates/nerve-fs/src/scan.rs:167-175 | kept, in order, are the max_entries least entries; kept and dropped make up all |
| Scan.EntriesAscend | crates/nerve-fs/src/scan.rs:167-172 | they ascend by relative path, under one path by root id, and under one root id by absolute path |
| Scan.DiagnosticsAscend | crates/nerve-fs/src/scan.rs:183-187 | the diagnostics ascend by path, none first, and under one path by message |
| Scan.ReportsTheDropped | crates/nerve-fs/src/scan.rs:173-187 | when entries were dropped, the diagnostics are those found plus one report that reads the limit and then the exact number |
| Scan.ReportsNothingElse | crates/nerve-fs/src/scan.rs:173-187 | otherwise they are those found; the roots are passed on |
| Scan.ReportTells | crates/nerve-fs/src/scan.rs:178-180 | the report's text determines the limit and the number dropped |
| Outcome.Classify | crates/nerve-core/src/outcome.rs:206-215 | positive and negative say whether some label is |
| Outcome.TallyRuns | crates/nerve-core/src/outcome.rs:313-326 | the fold counts, overall and per agent, the runs of each class |
| Outcome.EmitRows | crates/nerve-core/src/outcome.rs:333-342 | one slice per agent with that agent's counts |
| Outcome.Calibrate | crates/nerve-core/src/outcome.rs:312-344 | the calibration is that of the counts, over agents in order |
| Outcome.TallySnoc | crates/nerve-core/src/outcome.rs:190-201 | one run more moves the four counts by its classification |
| Outcome.PermilleOfShare | crates/nerve-core/src/outcome.rs:219-221 | a share is at most 1000 per mille even where the product saturates, and is 1000 only for the whole where it does not |
| Outcome.PermilleIs | crates/nerve-core/src/outcome.rs:219-221 | a rate is a thousand times the count, cut at 64 bits, divided by the population and rounded down; 0 of none |
| Outcome.CalibrationIs | crates/nerve-core/src/outcome.rs:312-344 | the four overall counts are the numbers of runs with a label, with a good and no bad one, with a bad one, and with both; each slice counts the runs of its agent, those without an agent being "unattributed" |
| Outcome.CountsAreConsistent | crates/nerve-core/src/outcome.rs:188-202 | labeled = shipped + regressed and passed-and-regressed <= regressed, overall; the first also per agent; every rate at most 1000 |
| Outcome.SlicesAddUp | crates/nerve-core/src/outcome.rs:327-343 | per-agent columns add up to the overall counts, over strictly increasing names |
| Outcome.SlicesAreAgents | crates/nerve-core/src/outcome.rs:321-325 | a slice exists exactly for the agents with a labelled run |
| Outcome.CalibrationForgetsOrder | crates/nerve-core/src/outcome.rs:312-344 | reordering records changes nothing |

## Left out

- SHA-256, JSON serialisation, parsing, globbing, canonicalisation of paths: foreign code, kept as functions.
- Directories, permissions and symbolic links: only a map from resolved paths to contents is modelled, so directories
  created by a batch and not removed by rollback do not appear.
- Partial backup files left by a failing copy are in the model but, as in the code, not tracked; the theorems set them apart
  as backup files.
- Snapshot freshness after a failed batch or a failed step of a non-atomic one: the code does not invalidate there.
- Provider fields in place: the caches are a transition system over values whose steps are atomic operations and critical
  sections, because interleaving is the point; relaxed memory effects and lock poisoning are not captured.
- What a scan finds: any entries; scanning and finalizing are joined only through the entries.
- The codemap is keyed by the resolved path alone, and the parse is fixed by path and content; a second relative path for
  the same file is not modelled.
- Clocks: readings never go backwards.
- Reading a file's content is one instant: a read torn by a concurrent edit is not captured.
- In-memory paths are those of a host whose only path separator is the slash.
- A rename is two edits of a mutating call, one path after the other; that both paths change at once is not captured.
- The ignore-aware walk and its workers' bodies: only what workers deliver is modelled.
- Selection updates that use the rebase (`crates/nerve-core/src/selection_rebase.rs:227-462`), and reading files for them.
- OTel projection of foreign traces, `seal_labels` (the same chain as the ledger), `summarize` and `flaky_rates` (plain counts).
- The budgeted tree mode, its notes, ASCII rendering and the selected-only tree; the pruned directory names are any
  predicate on names. Counters are unbounded, where the code's `usize` counts entries held in memory.
- Normalization of the prefix (trimming) before scoping, and the note for a path that is not found.
- Render caching, token accounting and the rest of `crates/nerve-core/src/workspace_context.rs` besides the content hash.
- Ranking (floating point and logarithms), policy, recipes, registry, receipts' gate, verdict aggregation: short case analysis
  or single clamps.
- The `nerve-gui` user interface, the wire vocabulary, benches and fuzz targets.
- Outcome.Calibrate: counts do not wrap, because a slice has fewer than 2^64 records.
