/**
 The atomic file batch of `nerve-fs`, over a file system whose every primitive may
 fail, and may fail half-way.

 A failing primitive leaves arbitrary content in the path it works on and nowhere
 else, and the probe for existence may wrongly answer no.  `trouble` says at which
 paths this may happen; whether it does is left open each time, so each contract
 holds for every pattern of failures.
 */
module AtomicBatch {
  import opened Common
  import opened AtomicChanges
  import opened AtomicLog
  import opened AtomicDryRun
  import opened AtomicSteps

  // ----- the provider -----

  datatype OpenNew = Opened | AlreadyExists | OpenFailed

  class FsProvider {
    const pid: nat
    const resolve: Resolver
    const trouble: Trouble
    var files: Files
    var invalidations: nat

    constructor (pid: nat, resolve: Resolver, trouble: Trouble, files: Files)
      ensures this.pid == pid && this.resolve == resolve && this.trouble == trouble
      ensures this.files == files && invalidations == 0
    {
      this.pid := pid;
      this.resolve := resolve;
      this.trouble := trouble;
      this.files := files;
      invalidations := 0;
    }

    method Invalidate()
      modifies `invalidations
      ensures invalidations == old(invalidations) + 1
    {
      invalidations := invalidations + 1;
    }

    // ----- primitives: each may fail where there is trouble, and then leave anything in its own path -----

    method Write(p: Path, content: Content) returns (ok: bool)
      modifies `files
      ensures ok ==> files == old(files)[p := content]
      ensures SameExcept(old(files), files, {p})
      ensures !trouble.faulty(p) ==> ok
    {
      if trouble.faulty(p) {
        if * {
          return false;
        }
        if * {
          var partial: Content := *;
          files := files[p := partial];
          return false;
        }
      }
      files := files[p := content];
      return true;
    }

    method CreateNew(p: Path) returns (r: OpenNew)
      modifies `files
      ensures r.AlreadyExists? ==> p in files
      ensures r.Opened? ==> p !in old(files) && files == old(files)[p := []]
      ensures !r.Opened? ==> files == old(files)
      ensures !trouble.faulty(p) ==> !r.OpenFailed?
    {
      if trouble.faulty(p) {
        if * {
          return OpenFailed;
        }
      }
      if p in files {
        return AlreadyExists;
      }
      files := files[p := []];
      return Opened;
    }

    /** Asks whether a path exists; on any error the answer is no. */
    method Exists(p: Path) returns (b: bool)
      ensures b ==> p in files
      ensures !trouble.fooled(p) ==> (b <==> p in files)
    {
      if trouble.fooled(p) {
        if * {
          return false;
        }
      }
      b := p in files;
    }

    method Read(p: Path) returns (r: Option<Content>)
      ensures r.Some? ==> p in files && r.value == files[p]
      ensures !trouble.faulty(p) ==> r == Get(files, p)
    {
      if trouble.faulty(p) {
        if * {
          return None;
        }
      }
      return Get(files, p);
    }

    method Remove(p: Path) returns (ok: bool)
      modifies `files
      ensures ok ==> p in old(files) && files == old(files) - {p}
      ensures !ok ==> files == old(files)
      ensures !trouble.faulty(p) ==> (ok <==> p in old(files))
    {
      if trouble.faulty(p) {
        if * {
          return false;
        }
      }
      ok := p in files;
      files := files - {p};
    }

    method MoveFile(source: Path, destination: Path) returns (ok: bool)
      modifies `files
      ensures ok ==> source in old(files)
                     && files == (old(files) - {source})[destination := old(files)[source]]
      ensures !ok ==> files == old(files)
      ensures !trouble.faulty(source) && !trouble.faulty(destination) ==> (ok <==> source in old(files))
    {
      if trouble.faulty(source) || trouble.faulty(destination) {
        if * {
          return false;
        }
      }
      ok := source in files;
      if ok {
        files := (files - {source})[destination := files[source]];
      }
    }

    method Copy(source: Path, destination: Path) returns (ok: bool)
      modifies `files
      ensures ok ==> source in old(files) && files == old(files)[destination := old(files)[source]]
      ensures SameExcept(old(files), files, {destination})
      ensures !ok ==> trouble.faulty(source) || trouble.faulty(destination) || source !in old(files)
    {
      var bytes := Read(source);
      if bytes.None? {
        return false;
      }
      ok := Write(destination, bytes.value);
    }

    /** The directory a file is to be written in, created if need be. */
    method CreateParent(p: Path) returns (ok: bool)
      ensures !trouble.faulty(p) ==> ok
    {
      if trouble.faulty(p) {
        if * {
          return false;
        }
      }
      return true;
    }

    // ----- path resolution -----

    /** Resolution of a path that must already exist in an allowed root. */
    method ResolveAllowed(path: string) returns (r: Option<Path>)
      ensures r.Some? ==> r == resolve(path) && r.value in files
      ensures resolve(path).Some? && !trouble.faulty(resolve(path).value) ==>
                (r.Some? <==> resolve(path).value in files)
    {
      r := ResolveForWrite(path);
      if r.Some? && r.value !in files {
        r := None;
      }
    }

    /** Resolution of a write target, which need not exist. */
    method ResolveForWrite(path: string) returns (r: Option<Path>)
      ensures r.Some? ==> r == resolve(path)
      ensures resolve(path).Some? && !trouble.faulty(resolve(path).value) ==> r.Some?
    {
      r := resolve(path);
      if r.Some? && trouble.faulty(r.value) {
        if * {
          return None;
        }
      }
    }

    method ChangeTargets(change: FileChange) returns (r: Option<seq<Path>>)
      ensures r.Some? ==> r == Targets(resolve, change) && MustExist(resolve, change) <= files.Keys
      ensures Untroubled(change) && Targets(resolve, change).Some? ==>
                (r.Some? <==> MustExist(resolve, change) <= files.Keys)
    {
      if Targets(resolve, change).Some? {
        TargetsAreTargets(resolve, change);
      }
      match change {
        case Create(path, _) =>
          var target := ResolveForWrite(path);
          return if target.Some? then Some([target.value]) else None;
        case Update(path, _) =>
          var target := ResolveAllowed(path);
          return if target.Some? then Some([target.value]) else None;
        case Delete(path) =>
          var target := ResolveAllowed(path);
          return if target.Some? then Some([target.value]) else None;
        case Rename(from, to, _) =>
          var source := ResolveAllowed(from);
          if source.None? {
            return None;
          }
          var destination := ResolveForWrite(to);
          return if destination.Some? then Some([source.value, destination.value]) else None;
      }
    }

    /** There is no trouble with the targets of a change. */
    ghost predicate Untroubled(change: FileChange) {
      forall t :: t in TargetSet(resolve, change) ==> !trouble.At(t)
    }

    // ----- one change -----

    /** A change that succeeds has its sequential effect: it leaves at every path what it says it writes there, and
        nothing else changes.  It has found no file where it creates one, and one where it deletes or renames one.
        A change that fails, at whatever point, has disturbed nothing but its own targets.  Without trouble it fails
        only if it cannot be applied. */
    method ApplyChange(change: FileChange) returns (ok: bool)
      modifies `files
      ensures ok ==> ApplyOne(resolve, old(files), change) == Some(files)
      ensures ok ==> FindsHere(resolve, old(files), change)
                     && forall p :: Leaves(resolve, change, old(files), files, p)
      ensures SameExcept(old(files), files, TargetSet(resolve, change))
      ensures Untroubled(change) && !ok ==> !FindsHere(resolve, old(files), change) && files == old(files)
    {
      if Targets(resolve, change).Some? {
        TargetsAreTargets(resolve, change);
      }
      match change {
        case Create(path, content) =>
          var target := ResolveForWrite(path);
          if target.None? {
            return false;
          }
          ok := WriteNewText(target.value, content);
        case Update(path, content) =>
          var target := ResolveForWrite(path);
          if target.None? {
            return false;
          }
          ok := WriteText(target.value, content);
        case Delete(path) =>
          var target := ResolveAllowed(path);
          if target.None? {
            return false;
          }
          ok := Remove(target.value);
        case Rename(from, to, content) =>
          var source := ResolveAllowed(from);
          if source.None? {
            return false;
          }
          var destination := ResolveForWrite(to);
          if destination.None? {
            return false;
          }
          ok := RenameText(source.value, destination.value, content);
      }
    }

    method RenameText(source: Path, destination: Path, content: Content) returns (ok: bool)
      modifies `files
      ensures ok ==> source in old(files) && files == (old(files) - {source})[destination := content]
      ensures SameExcept(old(files), files, {source, destination})
      ensures !trouble.faulty(source) && !trouble.faulty(destination) && !ok ==>
                source !in old(files) && files == old(files)
    {
      ok := CreateParent(destination);
      if !ok {
        return;
      }
      ok := MoveFile(source, destination);
      if ok {
        ok := WriteText(destination, content);
        assert ok ==> files == (old(files) - {source})[destination := content];
      }
    }

    method WriteText(target: Path, content: Content) returns (ok: bool)
      modifies `files
      ensures ok ==> files == old(files)[target := content]
      ensures SameExcept(old(files), files, {target})
      ensures !trouble.faulty(target) ==> ok
    {
      ok := CreateParent(target);
      if ok {
        ok := Write(target, content);
      }
    }

    method WriteNewText(target: Path, content: Content) returns (ok: bool)
      modifies `files
      ensures ok ==> target !in old(files) && files == old(files)[target := content]
      ensures SameExcept(old(files), files, {target})
      ensures !trouble.faulty(target) && !ok ==> target in old(files) && files == old(files)
    {
      ok := CreateParent(target);
      if !ok {
        return;
      }
      var handle := CreateNew(target);
      if !handle.Opened? {
        return false;
      }
      ok := Write(target, content);
    }

    // ----- backups -----

    /** Back up one target.  Success: the copy is a fresh file (or the target is taken to be absent and nothing
        is copied).  Failure: at most one fresh, incomplete backup file is left behind. */
    method BackupTarget(target: Path, seed: nat) returns (r: Option<Backup>, ghost scratch: set<Path>)
      modifies `files
      ensures r.Some? ==> r.value.target == target
                          && BackedUp(Entry(r.value, Get(old(files), target)), old(files), files)
                          && scratch == SavedPaths([r.value])
      ensures r.Some? && r.value.saved.None? && target in old(files) ==> trouble.fooled(target)
      ensures scratch !! old(files).Keys && SameExcept(old(files), files, scratch)
      ensures forall p :: p in scratch ==> IsBackupName(pid, p)
      ensures scratch == {} ==> files == old(files)
      ensures Sound(trouble, pid, {target}) ==>
                r == DryBackup(pid, old(files), target, seed) && (r.None? ==> scratch == {})
    {
      var present := Exists(target);
      if !present {
        return Some(Backup(target, None)), {};
      }
      var saved;
      saved, scratch := CopyToUniqueBackup(target, seed);
      if saved.None? {
        return None, scratch;
      }
      r := Some(Backup(target, saved));
      assert SavedPaths([r.value]) == scratch by {
        assert r.value in [r.value];
      }
    }

    method CopyToUniqueBackup(target: Path, seed: nat) returns (r: Option<Path>, ghost scratch: set<Path>)
      requires target in files
      modifies `files
      ensures r.Some? ==> scratch == {r.value} && files == old(files)[r.value := old(files)[target]]
      ensures scratch !! old(files).Keys && SameExcept(old(files), files, scratch)
      ensures forall p :: p in scratch ==> IsBackupName(pid, p)
      ensures scratch == {} ==> files == old(files)
      ensures Sound(trouble, pid, {target}) ==>
                r == FreeName(pid, old(files), target, seed, 0) && (r.None? ==> scratch == {})
    {
      for attempt := 0 to 32
        invariant files == old(files)
        invariant FreeName(pid, files, target, seed, 0) == FreeName(pid, files, target, seed, attempt)
      {
        var backup := BackupPath(pid, target, seed, attempt);
        assert IsBackupName(pid, backup);
        var handle := CreateNew(backup);
        match handle {
          case Opened =>
            scratch := {backup};
            var bytes := Read(target);
            if bytes.None? {
              return None, scratch;
            }
            var written := Write(backup, bytes.value);
            return if written then Some(backup) else None, scratch;
          case AlreadyExists =>
          case OpenFailed =>
            return None, {};
        }
      }
      return None, {};
    }

    // ----- rollback -----

    /** Replay the backups, last first.  Every path not tainted by a failing or misled step ends up with
        what the log says it held; the marks explain what is tainted, and what the report does not say. */
    method RollbackBackups(backups: seq<Backup>, ghost log: seq<Entry>) returns (failed: seq<Path>, ghost m: Marks)
      requires backups == BackupsOf(log) && CopiesIntact(log, files) && LogBlamed(trouble, log)
      modifies `files
      ensures failed == m.failed && Agrees(log, old(files), files, m.tainted)
      ensures Explained(backups, log, old(files), files, m) && Blamed(trouble, SavedPaths(backups), m)
      ensures failed == [] && m.missed == {} ==> files == Replayed(old(files), backups)
      ensures SameExcept(old(files), files, TargetPaths(backups))
    {
      failed, m := [], Marks([], {}, {}, {});
      var i := |backups|;
      assert backups[..i] == backups;
      while i > 0
        invariant RolledTo(backups, log, old(files), files, i, m) && failed == m.failed
        invariant Blamed(trouble, SavedPaths(backups), m)
      {
        i := i - 1;
        ghost var before := files;
        var ok, mistaken := RestoreOne(backups[i]);
        RolledBackStep(backups, log, i, old(files), before, files, ok, mistaken, m);
        StepIsBlamed(trouble, backups, log, i, old(files), before, ok, mistaken, m);
        m := NextMarks(log[i], ok, mistaken, m);
        if !ok {
          failed := failed + [backups[i].target];
        }
      }
      assert log[0..] == log;
    }

    /** Put one backup back.  `mistaken`: the target was to be removed, and was taken to be absent. */
    method RestoreOne(backup: Backup) returns (ok: bool, ghost mistaken: bool)
      modifies `files
      ensures OneStep(backup, old(files), files, ok, mistaken)
      ensures StepBlamed(trouble, backup, old(files), ok, mistaken)
    {
      mistaken := false;
      match backup.saved {
        case Some(saved) =>
          ok := Copy(saved, backup.target);
        case None =>
          ok := true;
          var present := Exists(backup.target);
          if present {
            ok := Remove(backup.target);
          } else {
            mistaken := backup.target in files;
            assert backup.target !in files ==> files - {backup.target} == files;
          }
      }
    }

    method CleanupBackups(backups: seq<Backup>)
      modifies `files
      ensures SameExcept(old(files), files, SavedPaths(backups))
      ensures forall p :: p in files ==> p in old(files)
      ensures (forall p :: p in SavedPaths(backups) ==> !trouble.faulty(p)) ==>
                files == old(files) - SavedPaths(backups)
    {
      ghost var sound := forall p :: p in SavedPaths(backups) ==> !trouble.faulty(p);
      for i := 0 to |backups|
        invariant SameExcept(old(files), files, SavedPaths(backups))
        invariant forall p :: p in files ==> p in old(files)
        invariant sound ==> files == old(files) - SavedPaths(backups[..i])
      {
        SavedPathsSnoc(backups, i);
        if backups[i].saved.Some? {
          assert backups[i] in backups;
          var _ := Remove(backups[i].saved.value);
        }
      }
      assert backups[..|backups|] == backups;
    }

    // ----- the batch -----

    /** Back up one more target, extending the log by its entry. */
    method BackupNext(target: Path, index: nat, backups: seq<Backup>, ghost log: seq<Entry>)
      returns (ok: bool, backups': seq<Backup>, ghost log': seq<Entry>, ghost stray: set<Path>)
      requires backups == BackupsOf(log)
      modifies `files
      ensures backups' == BackupsOf(log')
      ensures Extended(trouble, pid, target, index, DryRun(old(files), log), ok, DryRun(files, log'), stray)
    {
      var seed := |backups| + index;
      var backup;
      backup, stray := BackupTarget(target, seed);
      if Sound(trouble, pid, {target}) {
        DryTargetIs(pid, DryRun(old(files), log), target, index, seed, backup, files);
      }
      if backup.None? {
        return false, backups, log, stray;
      }
      ghost var e := Entry(backup.value, Get(old(files), target));
      return true, backups + [backup.value], log + [e], stray;
    }

    /** Back up every target of one change, extending the log.  On success the log covers whatever
        the change may then do to its targets. */
    method BackupTargets(change: FileChange, targets: seq<Path>, index: nat, backups: seq<Backup>,
                         ghost log: seq<Entry>, ghost start: Files, ghost scratch: set<Path>,
                         ghost touched: set<Path>)
      returns (ok: bool, backups': seq<Backup>, ghost log': seq<Entry>, ghost scratch': set<Path>)
      requires Targets(resolve, change) == Some(targets) && MustExist(resolve, change) <= files.Keys
      requires InProgress(trouble, pid, backups, log, files, start, scratch, touched)
      requires TargetSet(resolve, change) <= touched
      modifies `files
      ensures backups' == BackupsOf(log')
      ensures Taking(trouble, pid, resolve, change, DryRun(old(files), log), scratch, start, touched,
                     DryRun(files, log'), scratch')
      ensures ok ==> Covered(log', |log|, TargetSet(resolve, change))
      ensures Sound(trouble, pid, TargetSet(resolve, change)) && scratch == SavedPaths(backups) ==>
                BackedUpDry(pid, DryRun(old(files), log), targets, index, ok, DryRun(files, log'), scratch')
    {
      ghost var run := DryRun(files, log);
      backups', log', scratch' := backups, log, scratch;
      for j := 0 to |targets|
        invariant backups' == BackupsOf(log')
        invariant Taken(trouble, pid, resolve, change, targets, index, run, scratch, start, touched, j,
                        DryRun(files, log'), scratch')
      {
        ghost var mid, known, stray := DryRun(files, log'), scratch', {};
        ok, backups', log', stray := BackupNext(targets[j], index, backups', log');
        scratch' := known + stray;
        TakenNext(trouble, pid, resolve, change, targets, index, run, scratch, start, touched, j, mid, known, ok,
                  DryRun(files, log'), stray);
        if !ok {
          return;
        }
      }
      CoveredByOwnEntries(log', |log|, targets);
      WholePrefix(targets);
      return true, backups', log', scratch';
    }

    /**
     The atomic batch.

     `account` tells what the batch did that its caller does not see: `scratch`, the names it gave to its
     backup files; `lost`, the targets that it took to be absent, though they were there, when it first backed
     them up; `missed`, the targets that rollback once took to be absent though they were there, and `stayed`,
     those among them that rollback did not come back to.

     - Always: nothing changes but paths the changes name and backup files.  Only a target whose probe may be
       wrong is lost or missed, and only a target is reported as not rolled back, if there is trouble with it or
       with a backup file.
     - Applied: if no change names a backup file, the files are those of left-to-right sequential
       application, up to backups that could not be removed.
     - Failed, anywhere: the reported applied paths are those of a proper prefix of the changes.  Unless a
       backup file is itself reported or missed, this holds of every path that is neither reported nor a backup
       file: if it stayed, it is there, reported or not, and was there before exactly when it was lost; otherwise
       it holds exactly what it held before if and only if it was not lost.  If no change names a backup file
       this reaches every file that existed before.
     - A lost file is gone after a rollback in which nothing else goes wrong, and is not reported.
     - When rollback and removal all succeed and no probe misleads rollback, the files are back to what they
       were exactly when no file that existed before was lost or had its name taken by a backup.  No backup
       takes such a name if no change deletes, or renames away, a file that existed before and has the name of
       a backup.
     - Without trouble at the targets and the backup files, the result, the files and the names of the backups
       are those of the dry run: the batch fails only if some change cannot be applied or backed up.
     */
    method ApplyAtomicBatch(changes: seq<FileChange>) returns (r: BatchResult, ghost account: Account)
      modifies `files, `invalidations
      ensures invalidations == old(invalidations) + if r.Applied? then 1 else 0
      ensures r.Applied? ==> AppliedAs(pid, resolve, old(files), changes, files, account)
      ensures r.AtomicBatchFailed? ==> FailedAs(pid, resolve, old(files), changes, files, r, account)
      ensures AccountedFor(trouble, pid, resolve, old(files), changes, files, r, account)
      ensures Sound(trouble, pid, Touched(resolve, changes)) ==>
                DryOutcome(pid, resolve, old(files), changes) == (r, files, account.scratch)
    {
      var ok, appliedPaths, backups;
      ghost var start, log, scratch := files, [], {};
      ok, appliedPaths, backups, log, scratch := ApplyEach(changes);
      if ok {
        account := CommitAtomic(changes, backups, log, start, scratch, appliedPaths);
        r := Applied;
      } else {
        r, account := FailBatch(changes, appliedPaths, backups, log, start, scratch);
      }
    }

    /** Every change has been applied: the backups are removed, and the caches invalidated. */
    method CommitAtomic(changes: seq<FileChange>, backups: seq<Backup>, ghost log: seq<Entry>, ghost start: Files,
                        ghost scratch: set<Path>, ghost appliedPaths: seq<string>) returns (ghost account: Account)
      requires InProgress(trouble, pid, backups, log, files, start, scratch, Touched(resolve, changes))
      requires KeepsBackupNamed(pid, resolve, start, changes) ==> scratch !! start.Keys
      requires AvoidsBackupNames(pid, resolve, changes) ==> InStep(resolve, start, changes, files, scratch)
      requires Sound(trouble, pid, Touched(resolve, changes)) ==>
                 AppliedDry(pid, resolve, start, changes, true, DryRun(files, log), scratch, appliedPaths)
      modifies `files, `invalidations
      ensures invalidations == old(invalidations) + 1
      ensures AppliedAs(pid, resolve, start, changes, files, account)
      ensures AccountedFor(trouble, pid, resolve, start, changes, files, Applied, account)
      ensures Sound(trouble, pid, Touched(resolve, changes)) ==>
                DryOutcome(pid, resolve, start, changes) == (Applied, files, account.scratch)
    {
      ghost var applied := files;
      LostWereThere(log, files, start, scratch);
      LostAreBlamed(trouble, log);
      account := Account(scratch, LostPaths(log), {}, {});
      CleanupBackups(backups);
      OnlyNamedIs(resolve, changes, start, files, scratch);
      if AvoidsBackupNames(pid, resolve, changes) {
        InStepWithout(resolve, start, changes, applied, files, scratch);
        CommittedIs(resolve, start, changes, files, scratch);
      }
      Invalidate();
    }

    /** Some change has failed: what was done is undone. */
    method FailBatch(changes: seq<FileChange>, appliedPaths: seq<string>, backups: seq<Backup>, ghost log: seq<Entry>,
                     ghost start: Files, ghost scratch: set<Path>) returns (r: BatchResult, ghost account: Account)
      requires InProgress(trouble, pid, backups, log, files, start, scratch, Touched(resolve, changes))
      requires StoppedShort(pid, resolve, start, changes, appliedPaths)
      requires KeepsBackupNamed(pid, resolve, start, changes) ==> scratch !! start.Keys
      requires AvoidsBackupNames(pid, resolve, changes) ==>
                 scratch !! start.Keys && forall p :: p in TargetPaths(backups) ==> !IsBackupName(pid, p)
      requires Sound(trouble, pid, Touched(resolve, changes)) ==>
                 AppliedDry(pid, resolve, start, changes, false, DryRun(files, log), scratch, appliedPaths)
      modifies `files
      ensures r.AtomicBatchFailed? && FailedAs(pid, resolve, start, changes, files, r, account)
      ensures AccountedFor(trouble, pid, resolve, start, changes, files, r, account)
      ensures Sound(trouble, pid, Touched(resolve, changes)) ==>
                DryOutcome(pid, resolve, start, changes) == (r, files, account.scratch)
    {
      LostWereThere(log, files, start, scratch);
      LostAreBlamed(trouble, log);
      account := Account(scratch, LostPaths(log), {}, {});
      r, account := FailAtomic(appliedPaths, backups, log, start, account, Touched(resolve, changes),
                               AvoidsBackupNames(pid, resolve, changes));
      OnlyNamedIs(resolve, changes, start, files, scratch);
    }

    /** The loop over the changes; it stops at the first that fails. */
    method ApplyEach(changes: seq<FileChange>)
      returns (ok: bool, appliedPaths: seq<string>, backups: seq<Backup>, ghost log: seq<Entry>,
               ghost scratch: set<Path>)
      modifies `files
      ensures InProgress(trouble, pid, backups, log, files, old(files), scratch, Touched(resolve, changes))
      ensures ok ==> FullyApplied(pid, resolve, old(files), changes, |changes|, appliedPaths)
      ensures !ok ==> StoppedShort(pid, resolve, old(files), changes, appliedPaths)
      ensures KeepsBackupNamed(pid, resolve, old(files), changes) ==> scratch !! old(files).Keys
      ensures AvoidsBackupNames(pid, resolve, changes) ==>
                scratch !! old(files).Keys && forall p :: p in TargetPaths(backups) ==> !IsBackupName(pid, p)
      ensures AvoidsBackupNames(pid, resolve, changes) && ok ==> InStep(resolve, old(files), changes, files, scratch)
      ensures Sound(trouble, pid, Touched(resolve, changes)) ==>
                AppliedDry(pid, resolve, old(files), changes, ok, DryRun(files, log), scratch, appliedPaths)
    {
      backups, appliedPaths, log, scratch := [], [], [], {};
      ghost var start := files;
      AvoidingKeeps(pid, resolve, start, changes);
      for index := 0 to |changes|
        invariant Round(trouble, pid, resolve, start, changes, index, files, backups, log, scratch)
        invariant appliedPaths == DisplayPaths(changes[..index])
      {
        FullyAppliedIs(pid, resolve, start, changes, index, files, backups, log, scratch, trouble, appliedPaths);
        ok, backups, log, scratch := ApplyNext(changes, index, backups, log, start, scratch, appliedPaths);
        if !ok {
          return;
        }
        PrefixSnoc(changes, index);
        appliedPaths := appliedPaths + ChangeDisplayPaths(changes[index]);
      }
      WholePrefix(changes);
      FullyAppliedIs(pid, resolve, start, changes, |changes|, files, backups, log, scratch, trouble, appliedPaths);
      ok := true;
    }

    /** One round of the loop. */
    method ApplyNext(changes: seq<FileChange>, index: nat, backups: seq<Backup>, ghost log: seq<Entry>,
                     ghost start: Files, ghost scratch: set<Path>, ghost appliedPaths: seq<string>)
      returns (ok: bool, backups': seq<Backup>, ghost log': seq<Entry>, ghost scratch': set<Path>)
      requires index < |changes| && appliedPaths == DisplayPaths(changes[..index])
      requires Round(trouble, pid, resolve, start, changes, index, files, backups, log, scratch)
      modifies `files
      ensures ok ==> Round(trouble, pid, resolve, start, changes, index + 1, files, backups', log', scratch')
      ensures !ok ==> Stopped(trouble, pid, resolve, start, changes, files, backups', log', scratch', appliedPaths)
    {
      ghost var avoids, keeps :=
        AvoidsBackupNames(pid, resolve, changes), KeepsBackupNamed(pid, resolve, start, changes);
      ghost var mid := DryRun(files, log);
      TouchedAt(resolve, changes, index);
      PrefixSnoc(changes, index);
      ok, backups', log', scratch' :=
        BackUpAndApply(changes[index], index, backups, log, start, changes[..index], scratch,
                       Touched(resolve, changes), avoids, keeps);
      if Sound(trouble, pid, Touched(resolve, changes)) {
        AppliedNext(pid, resolve, start, changes, index, mid, ok, DryRun(files, log'), scratch', appliedPaths);
      }
    }

    /** One round of the batch: resolve the change, back up its targets, apply it. */
    method BackUpAndApply(change: FileChange, index: nat, backups: seq<Backup>,
                          ghost log: seq<Entry>, ghost start: Files, ghost done: seq<FileChange>,
                          ghost scratch: set<Path>, ghost touched: set<Path>, ghost avoids: bool, ghost keeps: bool)
      returns (ok: bool, backups': seq<Backup>, ghost log': seq<Entry>, ghost scratch': set<Path>)
      requires InProgress(trouble, pid, backups, log, files, start, scratch, touched)
      requires TargetSet(resolve, change) <= touched
      requires keeps ==> StillThere(pid, start, files, scratch)
      requires keeps ==> forall p :: p in Removed(resolve, change) && p in start ==> !IsBackupName(pid, p)
      requires avoids ==> InStep(resolve, start, done, files, scratch)
      requires avoids ==> forall p :: p in TargetSet(resolve, change) || p in TargetPaths(backups) ==>
                            !IsBackupName(pid, p)
      modifies `files
      ensures InProgress(trouble, pid, backups', log', files, start, scratch', touched)
      ensures keeps ==> scratch' !! start.Keys
      ensures keeps && ok ==> StillThere(pid, start, files, scratch')
      ensures avoids ==> forall p :: p in TargetPaths(backups') ==> !IsBackupName(pid, p)
      ensures avoids && ok ==> InStep(resolve, start, done + [change], files, scratch')
      ensures Sound(trouble, pid, touched) && scratch == SavedPaths(backups) ==>
                ChangedDry(pid, resolve, DryRun(old(files), log), change, index, ok, DryRun(files, log'), scratch')
    {
      backups', log', scratch' := backups, log, scratch;
      var targets := ChangeTargets(change);
      if targets.None? {
        return false, backups', log', scratch';
      }
      ghost var before := files;
      ok, backups', log', scratch' :=
        BackupTargets(change, targets.value, index, backups, log, start, scratch, touched);
      if keeps {
        StillThereBackup(pid, start, before, files, scratch, scratch');
      }
      if avoids {
        InStepBackup(resolve, start, done, before, files, scratch, scratch');
      }
      if !ok {
        return;
      }
      before := files;
      ok := ApplyChange(change);
      JournalTouched(log', |log|, TargetSet(resolve, change), before, files, start, scratch');
      if keeps && ok {
        StillThereChange(pid, resolve, start, change, before, files, scratch');
      }
      if avoids && ok {
        InStepChange(pid, resolve, start, done, change, before, files, scratch');
      }
    }

    method FailAtomic(appliedPaths: seq<string>, backups: seq<Backup>, ghost log: seq<Entry>, ghost start: Files,
                      ghost account: Account, ghost touched: set<Path>, ghost avoids: bool)
      returns (r: BatchResult, ghost account': Account)
      requires InProgress(trouble, pid, backups, log, files, start, account.scratch, touched)
      requires account == Account(account.scratch, LostPaths(log), {}, {})
      requires avoids ==> account.scratch !! start.Keys
      requires avoids ==> forall p :: p in TargetPaths(backups) ==> !IsBackupName(pid, p)
      modifies `files
      ensures r.AtomicBatchFailed? && r.appliedPaths == appliedPaths
      ensures account' == account.(missed := account'.missed, stayed := account'.stayed)
      ensures Undone(start, files, r.rollbackFailedPaths, account')
      ensures avoids ==> RolledBackEverywhere(pid, start, files, r.rollbackFailedPaths, account')
      ensures Accounted(trouble, pid, touched, r.rollbackFailedPaths, account')
      ensures SameExcept(start, files, touched + account.scratch)
      ensures Sound(trouble, pid, touched) ==>
                r.rollbackFailedPaths == [] && files == UndoneRun(DryRun(old(files), log))
    {
      var failed, m := RollbackBackups(backups, log);
      account' := account.(missed := m.missed, stayed := m.stayed);
      LostWereThere(log, old(files), start, account.scratch);
      LostAreBlamed(trouble, log);
      BlamedIsAccounted(trouble, pid, backups, log, old(files), files, m, touched, account');
      ghost var before := files;
      CleanupBackups(backups);
      r := AtomicBatchFailed(appliedPaths, failed);
      CleanedUp(backups, log, start, old(files), before, files, m, account');
    }
  }
}
