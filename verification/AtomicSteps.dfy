/**
 The steps of the atomic batch, one target and one change at a time: what is so between them,
 whatever goes wrong, and that without trouble they are the steps of the dry run.
 */
module AtomicSteps {
  import opened Common
  import opened AtomicChanges
  import opened AtomicLog
  import opened AtomicDryRun

  lemma {:induction false} StopsAtTarget(pid: nat, run: DryRun, targets: seq<Path>, j: nat, index: nat)
    requires j <= |targets| && DryTargets(pid, run, targets[..j], index).None?
    ensures DryTargets(pid, run, targets, index).None?
    ensures DryPartial(pid, run, targets, index) == DryPartial(pid, run, targets[..j], index)
    decreases |targets|
  {
    if j == |targets| {
      assert targets[..j] == targets;
    } else {
      var front := targets[..|targets| - 1];
      assert front[..j] == targets[..j];
      StopsAtTarget(pid, run, front, j, index);
    }
  }

  lemma PartialIsWhole(pid: nat, run: DryRun, targets: seq<Path>, index: nat)
    ensures DryTargets(pid, run, targets, index).Some? ==>
              DryPartial(pid, run, targets, index) == DryTargets(pid, run, targets, index).value
  {
  }

  lemma {:induction false} StopsAtChange(pid: nat, resolve: Resolver, start: Files, changes: seq<FileChange>, i: nat)
    requires i <= |changes| && DryBatch(pid, resolve, start, changes[..i]).None?
    ensures DryBatch(pid, resolve, start, changes).None?
    ensures DryStop(pid, resolve, start, changes) == DryStop(pid, resolve, start, changes[..i])
    ensures DryApplied(pid, resolve, start, changes) == DryApplied(pid, resolve, start, changes[..i])
    decreases |changes|
  {
    if i == |changes| {
      assert changes[..i] == changes;
    } else {
      var front := changes[..|changes| - 1];
      assert front[..i] == changes[..i];
      StopsAtChange(pid, resolve, start, front, i);
    }
  }

  lemma DryTargetIs(pid: nat, run: DryRun, target: Path, index: nat, seed: nat, backup: Option<Backup>, files: Files)
    requires seed == |run.log| + index && backup == DryBackup(pid, run.files, target, seed)
    requires backup.Some? ==> BackedUp(Entry(backup.value, Get(run.files, target)), run.files, files)
    ensures DryTarget(pid, run, target, index)
         == if backup.Some? then Some(DryRun(files, run.log + [Entry(backup.value, Get(run.files, target))])) else None
  {
  }

  /** Backing up the targets went as the dry run does: all the way, or as far as it gets. */
  ghost predicate BackedUpDry(pid: nat, run: DryRun, targets: seq<Path>, index: nat, ok: bool, run': DryRun,
                              scratch: set<Path>)
  {
    && scratch == Names(run') && DryPartial(pid, run, targets, index) == run'
    && DryTargets(pid, run, targets, index) == if ok then Some(run') else None
  }

  lemma BackedUpNext(pid: nat, run: DryRun, targets: seq<Path>, j: nat, index: nat, mid: DryRun, ok: bool, run': DryRun,
                     scratch: set<Path>)
    requires j < |targets| && DryTargets(pid, run, targets[..j], index) == Some(mid)
    requires DryTarget(pid, mid, targets[j], index) == if ok then Some(run') else None
    requires scratch == Names(run') && (!ok ==> run' == mid)
    ensures BackedUpDry(pid, run, targets[..j + 1], index, ok, run', scratch)
    ensures !ok ==> BackedUpDry(pid, run, targets, index, ok, run', scratch)
  {
    var upTo := targets[..j + 1];
    assert upTo[..|upTo| - 1] == targets[..j] && upTo[|upTo| - 1] == targets[j];
    if !ok {
      StopsAtTarget(pid, run, targets, j + 1, index);
    }
  }

  /** So went a change. */
  ghost predicate ChangedDry(pid: nat, resolve: Resolver, run: DryRun, change: FileChange, index: nat, ok: bool,
                             run': DryRun, scratch: set<Path>)
  {
    && scratch == Names(run')
    && DryChange(pid, resolve, run, change, index) == (if ok then Some(run') else None)
    && (!ok ==> DryStopChange(pid, resolve, run, change, index) == run')
  }

  /** So went the batch. */
  ghost predicate AppliedDry(pid: nat, resolve: Resolver, start: Files, changes: seq<FileChange>, ok: bool, run: DryRun,
                             scratch: set<Path>, paths: seq<string>)
  {
    && scratch == Names(run)
    && DryBatch(pid, resolve, start, changes) == (if ok then Some(run) else None)
    && (!ok ==> DryStop(pid, resolve, start, changes) == run && DryApplied(pid, resolve, start, changes) == paths)
  }

  lemma AppliedNext(pid: nat, resolve: Resolver, start: Files, changes: seq<FileChange>, i: nat, mid: DryRun, ok: bool,
                    run: DryRun, scratch: set<Path>, paths: seq<string>)
    requires i < |changes| && DryBatch(pid, resolve, start, changes[..i]) == Some(mid)
    requires ChangedDry(pid, resolve, mid, changes[i], i, ok, run, scratch) && paths == DisplayPaths(changes[..i])
    ensures ok ==> AppliedDry(pid, resolve, start, changes[..i + 1], ok, run, scratch, [])
    ensures !ok ==> AppliedDry(pid, resolve, start, changes, ok, run, scratch, paths)
  {
    var upTo := changes[..i + 1];
    assert upTo[..|upTo| - 1] == changes[..i] && upTo[|upTo| - 1] == changes[i];
    if !ok {
      StopsAtChange(pid, resolve, start, changes, i + 1);
    }
  }

  /** One more target was backed up, or was not. */
  ghost predicate Extended(trouble: Trouble, pid: nat, target: Path, index: nat, run: DryRun, ok: bool, run': DryRun,
                           stray: set<Path>)
  {
    && stray !! run.files.Keys && SameExcept(run.files, run'.files, stray)
    && (forall p :: p in stray ==> IsBackupName(pid, p))
    && (!ok ==> run'.log == run.log)
    && (ok ==>
          && |run'.log| == |run.log| + 1 && run'.log == run.log + [run'.log[|run.log|]]
          && run'.log[|run.log|].backup.target == target
          && BackedUp(run'.log[|run.log|], run.files, run'.files)
          && stray == SavedPaths([run'.log[|run.log|].backup])
          && (Misjudged(run'.log[|run.log|]) ==> trouble.fooled(target)))
    && (Sound(trouble, pid, {target}) ==>
          && DryTarget(pid, run, target, index) == (if ok then Some(run') else None)
          && (!ok ==> stray == {} && run' == run))
  }

  lemma ProgressNext(trouble: Trouble, pid: nat, target: Path, index: nat, run: DryRun, ok: bool, run': DryRun,
                     stray: set<Path>, start: Files, scratch: set<Path>, touched: set<Path>)
    requires Extended(trouble, pid, target, index, run, ok, run', stray) && target in touched
    requires InProgress(trouble, pid, BackupsOf(run.log), run.log, run.files, start, scratch, touched)
    ensures InProgress(trouble, pid, BackupsOf(run'.log), run'.log, run'.files, start, scratch + stray, touched)
    ensures TargetPaths(BackupsOf(run'.log)) <= TargetPaths(BackupsOf(run.log)) + {target}
    ensures ok ==> Names(run') == Names(run) + stray
  {
    if ok {
      var e := run'.log[|run.log|];
      ProgressAppend(trouble, pid, BackupsOf(run.log), run.log, e, run.files, run'.files, start, scratch, touched);
      assert BackupsOf(run'.log) == BackupsOf(run.log) + [e.backup];
    } else {
      ProgressStray(trouble, pid, BackupsOf(run.log), run.log, stray, run.files, run'.files, start, scratch, touched);
    }
  }

  /** What is so while the targets of a change are backed up, from `run` on. */
  ghost predicate Taking(trouble: Trouble, pid: nat, resolve: Resolver, change: FileChange, run: DryRun,
                         scratch: set<Path>, start: Files, touched: set<Path>, run': DryRun, scratch': set<Path>)
  {
    && InProgress(trouble, pid, BackupsOf(run'.log), run'.log, run'.files, start, scratch', touched)
    && Grew(pid, run.files, run'.files, scratch, scratch')
    && TargetPaths(BackupsOf(run'.log)) <= TargetPaths(BackupsOf(run.log)) + TargetSet(resolve, change)
  }

  /** The first j targets have been backed up. */
  ghost predicate Taken(trouble: Trouble, pid: nat, resolve: Resolver, change: FileChange, targets: seq<Path>,
                        index: nat,
                        run: DryRun, scratch: set<Path>, start: Files, touched: set<Path>, j: nat, run': DryRun,
                        scratch': set<Path>)
    requires j <= |targets|
  {
    && Taking(trouble, pid, resolve, change, run, scratch, start, touched, run', scratch')
    && |run'.log| == |run.log| + j && OwnEntries(run'.log, |run.log|, targets)
    && (Sound(trouble, pid, TargetSet(resolve, change)) && scratch == Names(run) ==>
          BackedUpDry(pid, run, targets[..j], index, true, run', scratch'))
  }

  lemma TakingNext(trouble: Trouble, pid: nat, resolve: Resolver, change: FileChange, target: Path, index: nat,
                   run: DryRun, scratch: set<Path>, start: Files, touched: set<Path>, mid: DryRun, known: set<Path>,
                   ok: bool, run': DryRun, stray: set<Path>)
    requires target in TargetSet(resolve, change) && target in touched
    requires Taking(trouble, pid, resolve, change, run, scratch, start, touched, mid, known)
    requires Extended(trouble, pid, target, index, mid, ok, run', stray)
    ensures Taking(trouble, pid, resolve, change, run, scratch, start, touched, run', known + stray)
    ensures ok ==> Names(run') == Names(mid) + stray
  {
    ProgressNext(trouble, pid, target, index, mid, ok, run', stray, start, known, touched);
    GrewStep(pid, run.files, mid.files, run'.files, scratch, known, stray);
  }

  lemma TakenDry(trouble: Trouble, pid: nat, resolve: Resolver, change: FileChange, targets: seq<Path>, index: nat,
                 run: DryRun, j: nat, mid: DryRun, known: set<Path>, ok: bool, run': DryRun, stray: set<Path>)
    requires j < |targets| && Targets(resolve, change) == Some(targets)
    requires Sound(trouble, pid, TargetSet(resolve, change))
    requires BackedUpDry(pid, run, targets[..j], index, true, mid, known)
    requires Extended(trouble, pid, targets[j], index, mid, ok, run', stray)
    requires ok ==> Names(run') == Names(mid) + stray
    ensures ok ==> BackedUpDry(pid, run, targets[..j + 1], index, true, run', known + stray)
    ensures !ok ==> BackedUpDry(pid, run, targets, index, false, run', known + stray)
  {
    assert targets[j] in targets;
    BackedUpNext(pid, run, targets, j, index, mid, ok, run', known + stray);
  }

  lemma TakenNext(trouble: Trouble, pid: nat, resolve: Resolver, change: FileChange, targets: seq<Path>, index: nat,
                  run: DryRun, scratch: set<Path>, start: Files, touched: set<Path>, j: nat, mid: DryRun,
                  known: set<Path>, ok: bool, run': DryRun, stray: set<Path>)
    requires j < |targets| && Targets(resolve, change) == Some(targets) && TargetSet(resolve, change) <= touched
    requires MustExist(resolve, change) <= run.files.Keys
    requires Taken(trouble, pid, resolve, change, targets, index, run, scratch, start, touched, j, mid, known)
    requires Extended(trouble, pid, targets[j], index, mid, ok, run', stray)
    ensures ok ==>
              Taken(trouble, pid, resolve, change, targets, index, run, scratch, start, touched,
                    j + 1, run', known + stray)
    ensures Taking(trouble, pid, resolve, change, run, scratch, start, touched, run', known + stray)
    ensures !ok && Sound(trouble, pid, TargetSet(resolve, change)) && scratch == Names(run) ==>
              BackedUpDry(pid, run, targets, index, false, run', known + stray)
  {
    assert targets[j] in targets;
    TakingNext(trouble, pid, resolve, change, targets[j], index, run, scratch, start, touched, mid, known,
               ok, run', stray);
    if ok {
      OwnNext(resolve, change, targets, mid.log, |run.log|, j, run'.log[|mid.log|], mid.files);
    }
    if Sound(trouble, pid, TargetSet(resolve, change)) && scratch == Names(run) {
      TakenDry(trouble, pid, resolve, change, targets, index, run, j, mid, known, ok, run', stray);
    }
  }

  /** The batch has gone as far as its i-th change. */
  ghost predicate Round(trouble: Trouble, pid: nat, resolve: Resolver, start: Files, changes: seq<FileChange>, i: nat,
                        cur: Files, backups: seq<Backup>, log: seq<Entry>, scratch: set<Path>)
    requires i <= |changes|
  {
    && InProgress(trouble, pid, backups, log, cur, start, scratch, Touched(resolve, changes))
    && (KeepsBackupNamed(pid, resolve, start, changes) ==> StillThere(pid, start, cur, scratch))
    && (AvoidsBackupNames(pid, resolve, changes) ==> InStep(resolve, start, changes[..i], cur, scratch))
    && (AvoidsBackupNames(pid, resolve, changes) ==> forall p :: p in TargetPaths(backups) ==> !IsBackupName(pid, p))
    && (Sound(trouble, pid, Touched(resolve, changes)) ==>
          AppliedDry(pid, resolve, start, changes[..i], true, DryRun(cur, log), scratch, []))
  }

  /** The batch has stopped at a change that failed, with these paths applied. */
  ghost predicate Stopped(trouble: Trouble, pid: nat, resolve: Resolver, start: Files, changes: seq<FileChange>,
                          cur: Files, backups: seq<Backup>, log: seq<Entry>, scratch: set<Path>, paths: seq<string>)
  {
    && InProgress(trouble, pid, backups, log, cur, start, scratch, Touched(resolve, changes))
    && (KeepsBackupNamed(pid, resolve, start, changes) ==> scratch !! start.Keys)
    && (AvoidsBackupNames(pid, resolve, changes) ==> forall p :: p in TargetPaths(backups) ==> !IsBackupName(pid, p))
    && (Sound(trouble, pid, Touched(resolve, changes)) ==>
          AppliedDry(pid, resolve, start, changes, false, DryRun(cur, log), scratch, paths))
  }

  lemma FullyAppliedIs(pid: nat, resolve: Resolver, start: Files, changes: seq<FileChange>, i: nat, cur: Files,
                       backups: seq<Backup>, log: seq<Entry>, scratch: set<Path>, trouble: Trouble, paths: seq<string>)
    requires i <= |changes| && Round(trouble, pid, resolve, start, changes, i, cur, backups, log, scratch)
    requires paths == DisplayPaths(changes[..i])
    ensures FullyApplied(pid, resolve, start, changes, i, paths)
    ensures i < |changes| ==> StoppedShort(pid, resolve, start, changes, paths)
  {
    DisplayPathsDisplay(changes[..i]);
    assert FullyApplied(pid, resolve, start, changes, i, paths);
  }
}
