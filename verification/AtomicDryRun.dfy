/**
 The batch with nothing going wrong, as a function: what it applies, where it stops if a change cannot be applied,
 which backups it takes, and for which batches rollback and removal bring back the start.
 */
module AtomicDryRun {
  import opened Common
  import opened AtomicChanges
  import opened AtomicLog

  /** The files so far, and the log. */
  datatype DryRun = DryRun(files: Files, log: seq<Entry>)

  /** The first of the names for this backup that is free. */
  function FreeName(pid: nat, files: Files, target: Path, seed: nat, attempt: nat): (r: Option<Path>)
    ensures r.Some? ==> r.value !in files
    decreases 32 - attempt
  {
    if attempt >= 32 then None
    else if BackupPath(pid, target, seed, attempt) !in files then Some(BackupPath(pid, target, seed, attempt))
    else FreeName(pid, files, target, seed, attempt + 1)
  }

  /** The backup of one target. */
  function DryBackup(pid: nat, files: Files, target: Path, seed: nat): Option<Backup> {
    if target !in files then Some(Backup(target, None))
    else
      match FreeName(pid, files, target, seed, 0)
      case None => None
      case Some(s) => Some(Backup(target, Some(s)))
  }

  function DryTarget(pid: nat, run: DryRun, target: Path, index: nat): Option<DryRun> {
    if target !in run.files then Some(run.(log := run.log + [Entry(Backup(target, None), None)]))
    else
      match FreeName(pid, run.files, target, |run.log| + index, 0)
      case None => None
      case Some(s) =>
        var content := run.files[target];
        Some(DryRun(run.files[s := content], run.log + [Entry(Backup(target, Some(s)), Some(content))]))
  }

  function DryTargets(pid: nat, run: DryRun, targets: seq<Path>, index: nat): Option<DryRun> {
    if targets == [] then Some(run)
    else
      match DryTargets(pid, run, targets[..|targets| - 1], index)
      case None => None
      case Some(mid) => DryTarget(pid, mid, targets[|targets| - 1], index)
  }

  function DryChange(pid: nat, resolve: Resolver, run: DryRun, change: FileChange, index: nat): Option<DryRun> {
    match Targets(resolve, change)
    case None => None
    case Some(targets) =>
      if !(MustExist(resolve, change) <= run.files.Keys) then None
      else
        match DryTargets(pid, run, targets, index)
        case None => None
        case Some(mid) =>
          match ApplyOne(resolve, mid.files, change)
          case None => None
          case Some(files) => Some(mid.(files := files))
  }

  function DryBatch(pid: nat, resolve: Resolver, start: Files, changes: seq<FileChange>): Option<DryRun> {
    if changes == [] then Some(DryRun(start, []))
    else
      var index := |changes| - 1;
      match DryBatch(pid, resolve, start, changes[..index])
      case None => None
      case Some(run) => DryChange(pid, resolve, run, changes[index], index)
  }

  // ----- where a batch that cannot be applied stops -----

  /** The backups that are taken, up to the first that cannot. */
  function DryPartial(pid: nat, run: DryRun, targets: seq<Path>, index: nat): DryRun {
    if targets == [] then run
    else
      var front, last := targets[..|targets| - 1], targets[|targets| - 1];
      match DryTargets(pid, run, front, index)
      case None => DryPartial(pid, run, front, index)
      case Some(mid) =>
        match DryTarget(pid, mid, last, index)
        case None => mid
        case Some(run') => run'
  }

  /** A change that cannot be applied leaves its backups. */
  function DryStopChange(pid: nat, resolve: Resolver, run: DryRun, change: FileChange, index: nat): DryRun {
    match Targets(resolve, change)
    case None => run
    case Some(targets) =>
      if MustExist(resolve, change) <= run.files.Keys then DryPartial(pid, run, targets, index) else run
  }

  /** The files and the log when the first change fails that cannot be applied. */
  function DryStop(pid: nat, resolve: Resolver, start: Files, changes: seq<FileChange>): DryRun {
    if changes == [] then DryRun(start, [])
    else
      var index := |changes| - 1;
      match DryBatch(pid, resolve, start, changes[..index])
      case None => DryStop(pid, resolve, start, changes[..index])
      case Some(run) => DryStopChange(pid, resolve, run, changes[index], index)
  }

  /** The display paths of the changes before it. */
  function DryApplied(pid: nat, resolve: Resolver, start: Files, changes: seq<FileChange>): seq<string> {
    if changes == [] then []
    else
      var front := changes[..|changes| - 1];
      if DryBatch(pid, resolve, start, front).None? then DryApplied(pid, resolve, start, front) else DisplayPaths(front)
  }

  /** The names its backups were given. */
  function Names(run: DryRun): set<Path> { SavedPaths(BackupsOf(run.log)) }

  /** After the replay, and then the removal of the backups. */
  function ReplayedRun(run: DryRun): Files { Replayed(run.files, BackupsOf(run.log)) }

  function UndoneRun(run: DryRun): Files { ReplayedRun(run) - Names(run) }

  /** The outcome of a batch in which nothing goes wrong, as a function of what it is given: the result, the files,
      and the names of the backups. */
  function DryOutcome(pid: nat, resolve: Resolver, start: Files, changes: seq<FileChange>): (BatchResult, Files,
                      set<Path>) {
    match DryBatch(pid, resolve, start, changes)
    case Some(run) => (Applied, run.files - Names(run), Names(run))
    case None =>
      var run := DryStop(pid, resolve, start, changes);
      (AtomicBatchFailed(DryApplied(pid, resolve, start, changes), []), UndoneRun(run), Names(run))
  }

  // ----- the log of a dry run leads back -----

  ghost predicate Honest(log: seq<Entry>) {
    forall k :: 0 <= k < |log| ==> !Misjudged(log[k])
  }

  ghost predicate Leads(run: DryRun, start: Files) {
    Honest(run.log) && Journal(run.log, run.files, start, Names(run))
  }

  lemma NamesSnoc(log: seq<Entry>, e: Entry)
    ensures SavedPaths(BackupsOf(log + [e])) == SavedPaths(BackupsOf(log)) + SavedPaths([e.backup])
  {
    assert BackupsOf(log + [e]) == BackupsOf(log) + [e.backup];
    assert e.backup in [e.backup];
  }

  /** What one backup adds to the run. */
  ghost predicate TargetAdded(run: DryRun, run': DryRun, target: Path) {
    && |run'.log| == |run.log| + 1 && run'.log[..|run.log|] == run.log
    && run'.log[|run.log|].backup.target == target
    && BackedUp(run'.log[|run.log|], run.files, run'.files) && !Misjudged(run'.log[|run.log|])
    && (run'.log[|run.log|].backup.saved.Some? ==> target in run.files)
  }

  lemma DryTargetAdds(pid: nat, run: DryRun, target: Path, index: nat, run': DryRun)
    requires DryTarget(pid, run, target, index) == Some(run')
    ensures TargetAdded(run, run', target)
  {
  }

  lemma TargetLeads(run: DryRun, run': DryRun, target: Path, start: Files)
    requires Leads(run, start) && TargetAdded(run, run', target)
    ensures Leads(run', start)
  {
    var e := run'.log[|run.log|];
    assert run'.log == run.log + [e];
    JournalAppend(run.log, e, run.files, run'.files, start, Names(run));
    NamesSnoc(run.log, e);
  }

  /** What the backups of a change's targets add. */
  ghost predicate TargetsAdded(run: DryRun, run': DryRun, targets: seq<Path>) {
    && |run'.log| == |run.log| + |targets| && run'.log[..|run.log|] == run.log
    && run.files.Keys <= run'.files.Keys
    && OwnEntries(run'.log, |run.log|, targets)
  }

  lemma TargetsSnoc(run: DryRun, mid: DryRun, run': DryRun, front: seq<Path>, target: Path, targets: seq<Path>)
    requires TargetsAdded(run, mid, front) && TargetAdded(mid, run', target) && targets == front + [target]
    requires forall t :: t in front ==> t in mid.files
    ensures TargetsAdded(run, run', targets)
  {
    var n := |mid.log|;
    assert run'.log[..|run.log|] == mid.log[..|run.log|];
    forall k {:trigger run'.log[k]} | |run.log| <= k < |run'.log| && k - |run.log| < |targets|
      ensures run'.log[k].backup.target == targets[k - |run.log|]
      ensures run'.log[k].backup.saved.Some? ==> run'.log[k].backup.saved.value !in targets[..k - |run.log| + 1]
    {
      if k < n {
        assert run'.log[k] == run'.log[..n][k] == mid.log[k];
        assert targets[..k - |run.log| + 1] == front[..k - |run.log| + 1];
      } else {
        assert targets[..k - |run.log| + 1] == targets;
      }
    }
  }

  lemma {:induction false} DryTargetsLead(pid: nat, run: DryRun, targets: seq<Path>, index: nat, run': DryRun,
                                          start: Files)
    requires Leads(run, start) && DryTargets(pid, run, targets, index) == Some(run')
    requires forall i :: 0 <= i < |targets| - 1 ==> targets[i] in run.files
    ensures Leads(run', start) && TargetsAdded(run, run', targets)
    decreases |targets|
  {
    if targets == [] {
      assert run.log[..|run.log|] == run.log;
    } else {
      var front, target := targets[..|targets| - 1], targets[|targets| - 1];
      assert targets == front + [target];
      var mid := DryTargets(pid, run, front, index).value;
      DryTargetsLead(pid, run, front, index, mid, start);
      DryTargetAdds(pid, mid, target, index, run');
      TargetLeads(mid, run', target, start);
      TargetsSnoc(run, mid, run', front, target, targets);
    }
  }

  lemma DryChangeLeads(pid: nat, resolve: Resolver, run: DryRun, change: FileChange, index: nat, run': DryRun,
                       start: Files)
    requires Leads(run, start) && DryChange(pid, resolve, run, change, index) == Some(run')
    ensures Leads(run', start)
  {
    var targets := Targets(resolve, change).value;
    var mid := DryTargets(pid, run, targets, index).value;
    DryTargetsLead(pid, run, targets, index, mid, start);
    CoveredByOwnEntries(mid.log, |run.log|, targets);
    assert TargetSet(resolve, change) == set t | t in targets;
    ApplyTouches(resolve, mid.files, change, run'.files);
    JournalTouched(mid.log, |run.log|, TargetSet(resolve, change), mid.files, run'.files, start, Names(mid));
  }

  lemma ApplyTouches(resolve: Resolver, files: Files, change: FileChange, files': Files)
    requires ApplyOne(resolve, files, change) == Some(files')
    ensures SameExcept(files, files', TargetSet(resolve, change))
  {
    var ts := Targets(resolve, change).value;
    assert forall i :: 0 <= i < |ts| ==> ts[i] in ts;
  }

  lemma {:induction false} DryBatchLeads(pid: nat, resolve: Resolver, start: Files, changes: seq<FileChange>,
                                         run: DryRun)
    requires DryBatch(pid, resolve, start, changes) == Some(run)
    ensures Leads(run, start)
    decreases |changes|
  {
    if changes != [] {
      var index := |changes| - 1;
      var before := DryBatch(pid, resolve, start, changes[..index]).value;
      DryBatchLeads(pid, resolve, start, changes[..index], before);
      DryChangeLeads(pid, resolve, before, changes[index], index, run, start);
    }
  }

  // ----- the replay of an honest log -----

  lemma {:induction false} ReplayedIsUnwound(log: seq<Entry>, cur: Files, before: Files, i: nat)
    requires Honest(log) && CopiesIntact(log, cur) && i <= |log|
    requires forall p :: Get(before, p) == Unwound(log[i..], cur, p)
    ensures forall p :: Get(Replayed(before, BackupsOf(log)[..i]), p) == Unwound(log, cur, p)
    decreases i
  {
    if i == 0 {
      assert log[0..] == log;
    } else {
      var backups := BackupsOf(log)[..i];
      assert backups[|backups| - 1] == log[i - 1].backup && backups[..i - 1] == BackupsOf(log)[..i - 1];
      var after := RestoredOne(before, log[i - 1].backup);
      assert SameExcept(before, after, {log[i - 1].backup.target});
      ReplayStep(log, i - 1, cur, before, after, true, {});
      assert NextTainted(log[i - 1], true, {}) == {};
      ReplayedIsUnwound(log, cur, after, i - 1);
    }
  }

  lemma ReplayedRunIs(run: DryRun, start: Files)
    requires Leads(run, start)
    ensures forall p :: Get(ReplayedRun(run), p) == Unwound(run.log, run.files, p)
  {
    assert run.log[|run.log|..] == [];
    ReplayedIsUnwound(run.log, run.files, run.files, |run.log|);
    assert BackupsOf(run.log)[..|run.log|] == BackupsOf(run.log);
  }

  // ----- what is restored, and what is lost -----

  /** A batch gives some backup the name of a file of the start. */
  ghost predicate ReusesAName(run: DryRun, start: Files) { exists s :: s in Names(run) && s in start }

  /** For every batch, and with nothing else going wrong: rollback and removal bring back the start exactly when
      no backup was given the name of a file of the start. */
  lemma RestoredIff(pid: nat, resolve: Resolver, start: Files, changes: seq<FileChange>, run: DryRun)
    requires DryBatch(pid, resolve, start, changes) == Some(run)
    ensures UndoneRun(run) == start <==> !ReusesAName(run, start)
  {
    DryBatchLeads(pid, resolve, start, changes, run);
    LeadingRestoredIff(run, start);
  }

  lemma LeadingRestoredIff(run: DryRun, start: Files)
    requires Leads(run, start)
    ensures UndoneRun(run) == start <==> !ReusesAName(run, start)
  {
    ReplayedRunIs(run, start);
    if ReusesAName(run, start) {
      var s :| s in Names(run) && s in start;
      assert s !in UndoneRun(run);
    } else {
      forall p ensures Get(UndoneRun(run), p) == Get(start, p) {
        assert Get(ReplayedRun(run), p) == Unwound(run.log, run.files, p);
      }
      SameMaps(UndoneRun(run), start);
    }
  }

  /** Every file whose name was reused is brought back by the replay and then removed with the backups. */
  lemma ReusedNameIsLost(pid: nat, resolve: Resolver, start: Files, changes: seq<FileChange>, run: DryRun, s: Path)
    requires DryBatch(pid, resolve, start, changes) == Some(run)
    requires s in Names(run) && s in start
    ensures Get(ReplayedRun(run), s) == Some(start[s]) && s !in UndoneRun(run)
  {
    DryBatchLeads(pid, resolve, start, changes, run);
    ReplayedRunIs(run, start);
  }

  // ----- only a removed file's name can be reused -----

  lemma {:induction false} DryTargetsKeep(pid: nat, run: DryRun, targets: seq<Path>, index: nat, run': DryRun,
                                          start: Files)
    requires DryTargets(pid, run, targets, index) == Some(run')
    requires StillThere(pid, start, run.files, Names(run))
    ensures StillThere(pid, start, run'.files, Names(run'))
    decreases |targets|
  {
    if targets != [] {
      var mid := DryTargets(pid, run, targets[..|targets| - 1], index).value;
      DryTargetsKeep(pid, run, targets[..|targets| - 1], index, mid, start);
      DryTargetKeeps(pid, mid, targets[|targets| - 1], index, run', start);
    }
  }

  lemma {:induction false} FreeNameIsBackupName(pid: nat, files: Files, target: Path, seed: nat, attempt: nat)
    ensures FreeName(pid, files, target, seed, attempt).Some? ==>
              IsBackupName(pid, FreeName(pid, files, target, seed, attempt).value)
    decreases 32 - attempt
  {
    if attempt < 32 && BackupPath(pid, target, seed, attempt) in files {
      FreeNameIsBackupName(pid, files, target, seed, attempt + 1);
    }
  }

  lemma DryTargetKeeps(pid: nat, run: DryRun, target: Path, index: nat, run': DryRun, start: Files)
    requires DryTarget(pid, run, target, index) == Some(run')
    requires StillThere(pid, start, run.files, Names(run))
    ensures StillThere(pid, start, run'.files, Names(run'))
  {
    var e := run'.log[|run.log|];
    assert run'.log == run.log + [e];
    NamesSnoc(run.log, e);
    if e.backup.saved.Some? {
      FreeNameIsBackupName(pid, run.files, target, |run.log| + index, 0);
      var s := e.backup.saved.value;
      assert s !in run.files && IsBackupName(pid, s) && s !in start;
    }
  }

  /** So the caller can tell beforehand: a batch that removes no file of the start with a backup's name reuses none. */
  lemma {:induction false} KeepingReusesNone(pid: nat, resolve: Resolver, start: Files, changes: seq<FileChange>,
                                             run: DryRun)
    requires DryBatch(pid, resolve, start, changes) == Some(run)
    requires KeepsBackupNamed(pid, resolve, start, changes)
    ensures StillThere(pid, start, run.files, Names(run)) && !ReusesAName(run, start)
    decreases |changes|
  {
    if changes != [] {
      var index := |changes| - 1;
      var before := DryBatch(pid, resolve, start, changes[..index]).value;
      assert forall i :: 0 <= i < index ==> changes[..index][i] == changes[i];
      KeepingReusesNone(pid, resolve, start, changes[..index], before);
      DryChangeKeeps(pid, resolve, before, changes[index], index, run, start);
    }
  }

  lemma DryChangeKeeps(pid: nat, resolve: Resolver, run: DryRun, change: FileChange, index: nat, run': DryRun,
                       start: Files)
    requires DryChange(pid, resolve, run, change, index) == Some(run')
    requires StillThere(pid, start, run.files, Names(run))
    requires forall p :: p in Removed(resolve, change) && p in start ==> !IsBackupName(pid, p)
    ensures StillThere(pid, start, run'.files, Names(run'))
  {
    var mid := DryTargets(pid, run, Targets(resolve, change).value, index).value;
    DryTargetsKeep(pid, run, Targets(resolve, change).value, index, mid, start);
    StillThereChange(pid, resolve, start, change, mid.files, run'.files, Names(mid));
  }

  // ----- which removals do harm -----

  lemma {:induction false} DryTargetsGrow(pid: nat, run: DryRun, targets: seq<Path>, index: nat, run': DryRun,
                                          start: Files)
    requires DryTargets(pid, run, targets, index) == Some(run')
    requires start.Keys <= run.files.Keys && Names(run) !! start.Keys
    ensures start.Keys <= run'.files.Keys && Names(run') !! start.Keys
    decreases |targets|
  {
    if targets != [] {
      var mid := DryTargets(pid, run, targets[..|targets| - 1], index).value;
      DryTargetsGrow(pid, run, targets[..|targets| - 1], index, mid, start);
      var e := run'.log[|mid.log|];
      assert run'.log == mid.log + [e];
      NamesSnoc(mid.log, e);
    }
  }

  /** Removing such a file does no harm by itself: a batch of one change is always undone, whatever it removes. */
  lemma OneChangeIsUndone(pid: nat, resolve: Resolver, start: Files, change: FileChange, run: DryRun)
    requires DryBatch(pid, resolve, start, [change]) == Some(run)
    ensures UndoneRun(run) == start
  {
    var first := DryRun(start, []);
    assert [change][..0] == [] && DryBatch(pid, resolve, start, []) == Some(first);
    var mid := DryTargets(pid, first, Targets(resolve, change).value, 0).value;
    DryTargetsGrow(pid, first, Targets(resolve, change).value, 0, mid, start);
    RestoredIff(pid, resolve, start, [change], run);
  }

  lemma {:induction false} DryTargetsKeepNames(pid: nat, run: DryRun, targets: seq<Path>, index: nat, run': DryRun)
    requires DryTargets(pid, run, targets, index) == Some(run')
    ensures Names(run) <= Names(run')
    decreases |targets|
  {
    if targets != [] {
      var mid := DryTargets(pid, run, targets[..|targets| - 1], index).value;
      DryTargetsKeepNames(pid, run, targets[..|targets| - 1], index, mid);
      var e := run'.log[|mid.log|];
      assert run'.log == mid.log + [e];
      NamesSnoc(mid.log, e);
    }
  }

  lemma FirstName(pid: nat, run: DryRun, targets: seq<Path>, index: nat, run': DryRun, s: Path)
    requires targets != [] && DryTargets(pid, run, targets, index) == Some(run')
    requires targets[0] in run.files && FreeName(pid, run.files, targets[0], |run.log| + index, 0) == Some(s)
    ensures s in Names(run')
    decreases |targets|
  {
    var front := targets[..|targets| - 1];
    var mid := DryTargets(pid, run, front, index).value;
    if front == [] {
      assert mid == run;
      var e := run'.log[|run.log|];
      assert run'.log == run.log + [e];
      NamesSnoc(run.log, e);
      assert e.backup in [e.backup];
    } else {
      FirstName(pid, run, front, index, mid, s);
      var e := run'.log[|mid.log|];
      assert run'.log == mid.log + [e];
      NamesSnoc(mid.log, e);
    }
  }

  lemma DryBatchSnoc(pid: nat, resolve: Resolver, start: Files, front: seq<FileChange>, change: FileChange,
                     before: DryRun)
    requires DryBatch(pid, resolve, start, front) == Some(before)
    ensures DryBatch(pid, resolve, start, front + [change]) == DryChange(pid, resolve, before, change, |front|)
  {
    assert (front + [change])[..|front|] == front;
  }

  lemma ChangeReuses(pid: nat, resolve: Resolver, before: DryRun, change: FileChange, index: nat, run: DryRun,
                     target: Path, s: Path)
    requires DryChange(pid, resolve, before, change, index) == Some(run)
    requires Targets(resolve, change).value[0] == target && target in before.files
    requires FreeName(pid, before.files, target, |before.log| + index, 0) == Some(s)
    ensures s in Names(run)
  {
    var targets := Targets(resolve, change).value;
    var mid := DryTargets(pid, before, targets, index).value;
    FirstName(pid, before, targets, index, mid, s);
  }

  lemma FreedNameBreaksGuard(pid: nat, resolve: Resolver, start: Files, front: seq<FileChange>, before: DryRun,
                             target: Path, seed: nat, s: Path)
    requires DryBatch(pid, resolve, start, front) == Some(before)
    requires FreeName(pid, before.files, target, seed, 0) == Some(s) && s in start
    ensures !KeepsBackupNamed(pid, resolve, start, front)
  {
    FreeNameIsBackupName(pid, before.files, target, seed, 0);
    if KeepsBackupNamed(pid, resolve, start, front) {
      KeepingReusesNone(pid, resolve, start, front, before);
    }
  }

  /** It does harm with any later change whose backup would be given that name: for every batch `front` after
      which the next free name is that of a file of the start, and every change to that target. */
  lemma RemovedThenReused(pid: nat, resolve: Resolver, start: Files, front: seq<FileChange>, change: FileChange,
                          before: DryRun, run: DryRun, target: Path, s: Path)
    requires DryBatch(pid, resolve, start, front) == Some(before)
    requires DryBatch(pid, resolve, start, front + [change]) == Some(run)
    requires Targets(resolve, change).Some? && Targets(resolve, change).value[0] == target && target in before.files
    requires FreeName(pid, before.files, target, |before.log| + |front|, 0) == Some(s) && s in start
    ensures !KeepsBackupNamed(pid, resolve, start, front)
    ensures Get(ReplayedRun(run), s) == Some(start[s]) && s !in UndoneRun(run)
  {
    FreedNameBreaksGuard(pid, resolve, start, front, before, target, |before.log| + |front|, s);
    DryBatchSnoc(pid, resolve, start, front, change, before);
    ChangeReuses(pid, resolve, before, change, |front|, run, target, s);
    ReusedNameIsLost(pid, resolve, start, front + [change], run, s);
  }

  // ----- such batches exist -----

  lemma OneTarget(pid: nat, run: DryRun, target: Path, index: nat, s: Path, content: Content)
    requires target in run.files && run.files[target] == content
    requires FreeName(pid, run.files, target, |run.log| + index, 0) == Some(s)
    ensures DryTargets(pid, run, [target], index)
         == Some(DryRun(run.files[s := content], run.log + [Entry(Backup(target, Some(s)), Some(content))]))
  {
    assert [target][..0] == [];
    assert DryTargets(pid, run, [], index) == Some(run);
  }

  /** Delete t, which is called as a backup of `target` will be, and update `target`: t is lost. */
  lemma ReusedBackupNameLosesAFile(pid: nat, resolve: Resolver, target: Path, x: Content, y: Content, z: Content,
                                   t: Path, start: Files)
    returns (run: DryRun)
    requires t == BackupPath(pid, target, 2, 0) && start == map[target := x, t := y]
    requires resolve("t") == Some(t) && resolve("target") == Some(target)
    ensures DryBatch(pid, resolve, start, [Delete("t")] + [Update("target", z)]) == Some(run)
    ensures t in start && t !in UndoneRun(run)
  {
    var s := BackupPath(pid, t, 0, 0);
    assert |s.name| > |t.name| > |target.name|;
    var first := DryRun(start, []);
    OneTarget(pid, first, t, 0, s, y);
    assert [] + [Entry(Backup(t, Some(s)), Some(y))] == [Entry(Backup(t, Some(s)), Some(y))];
    var before := DryRun(start[s := y] - {t}, [Entry(Backup(t, Some(s)), Some(y))]);
    DryBatchSnoc(pid, resolve, start, [], Delete("t"), first);
    assert [] + [Delete("t")] == [Delete("t")];
    assert DryChange(pid, resolve, first, Delete("t"), 0) == Some(before);
    run := SecondUpdates(pid, resolve, start, t, target, x, z, before);
  }

  lemma SecondUpdates(pid: nat, resolve: Resolver, start: Files, t: Path, target: Path, x: Content, z: Content,
                      before: DryRun) returns (run: DryRun)
    requires resolve("target") == Some(target) && t == BackupPath(pid, target, 2, 0) && t in start
    requires DryBatch(pid, resolve, start, [Delete("t")]) == Some(before) && |before.log| == 1
    requires target in before.files && before.files[target] == x && t !in before.files
    ensures DryBatch(pid, resolve, start, [Delete("t")] + [Update("target", z)]) == Some(run)
    ensures t !in UndoneRun(run)
  {
    OneTarget(pid, before, target, 1, t, x);
    run := DryRun(before.files[t := x][target := z], before.log + [Entry(Backup(target, Some(t)), Some(x))]);
    DryBatchSnoc(pid, resolve, start, [Delete("t")], Update("target", z), before);
    RemovedThenReused(pid, resolve, start, [Delete("t")], Update("target", z), before, run, target, t);
  }

  // ----- the batch that cannot be applied -----

  lemma {:induction false} PartialTargets(pid: nat, run: DryRun, targets: seq<Path>, index: nat) returns (j: nat)
    ensures j <= |targets|
    ensures DryTargets(pid, run, targets[..j], index) == Some(DryPartial(pid, run, targets, index))
    decreases |targets|
  {
    if targets == [] {
      j := 0;
    } else {
      var n := |targets| - 1;
      var front := targets[..n];
      match DryTargets(pid, run, front, index) {
        case None =>
          j := PartialTargets(pid, run, front, index);
          assert front[..j] == targets[..j];
        case Some(mid) =>
          j := if DryTarget(pid, mid, targets[n], index).None? then n else n + 1;
          WholePrefix(targets);
      }
    }
  }

  lemma StopChangeLeads(pid: nat, resolve: Resolver, run: DryRun, change: FileChange, index: nat, start: Files)
    requires Leads(run, start)
    ensures Leads(DryStopChange(pid, resolve, run, change, index), start)
    ensures StillThere(pid, start, run.files, Names(run)) ==>
              Names(DryStopChange(pid, resolve, run, change, index)) !! start.Keys
  {
    var stop := DryStopChange(pid, resolve, run, change, index);
    if Targets(resolve, change).Some? && MustExist(resolve, change) <= run.files.Keys {
      var targets := Targets(resolve, change).value;
      var j := PartialTargets(pid, run, targets, index);
      DryTargetsLead(pid, run, targets[..j], index, stop, start);
      if StillThere(pid, start, run.files, Names(run)) {
        DryTargetsKeep(pid, run, targets[..j], index, stop, start);
      }
    }
  }

  lemma {:induction false} StopLeads(pid: nat, resolve: Resolver, start: Files, changes: seq<FileChange>)
    requires DryBatch(pid, resolve, start, changes).None?
    ensures Leads(DryStop(pid, resolve, start, changes), start)
    ensures KeepsBackupNamed(pid, resolve, start, changes) ==>
              Names(DryStop(pid, resolve, start, changes)) !! start.Keys
    decreases |changes|
  {
    var index := |changes| - 1;
    var front := changes[..index];
    assert forall i :: 0 <= i < index ==> front[i] == changes[i];
    match DryBatch(pid, resolve, start, front) {
      case None => StopLeads(pid, resolve, start, front);
      case Some(run) =>
        DryBatchLeads(pid, resolve, start, front, run);
        if KeepsBackupNamed(pid, resolve, start, changes) {
          KeepingReusesNone(pid, resolve, start, front, run);
        }
        StopChangeLeads(pid, resolve, run, changes[index], index, start);
    }
  }

  /** A batch that cannot be applied is undone, with nothing else going wrong, exactly when none of the backups it
      has taken was given the name of a file of the start; and so it is when no change removes such a file. */
  lemma FailedRestoredIff(pid: nat, resolve: Resolver, start: Files, changes: seq<FileChange>)
    requires DryBatch(pid, resolve, start, changes).None?
    ensures DryOutcome(pid, resolve, start, changes).1 == start <==>
            !ReusesAName(DryStop(pid, resolve, start, changes), start)
    ensures KeepsBackupNamed(pid, resolve, start, changes) ==> DryOutcome(pid, resolve, start, changes).1 == start
  {
    StopLeads(pid, resolve, start, changes);
    LeadingRestoredIff(DryStop(pid, resolve, start, changes), start);
  }

  // ----- the batch that is applied -----

  lemma DryTargetGrew(pid: nat, run: DryRun, target: Path, index: nat, run': DryRun)
    requires DryTarget(pid, run, target, index) == Some(run')
    ensures Grew(pid, run.files, run'.files, Names(run), Names(run'))
  {
    var e := run'.log[|run.log|];
    assert run'.log == run.log + [e];
    NamesSnoc(run.log, e);
    if target in run.files {
      FreeNameIsBackupName(pid, run.files, target, |run.log| + index, 0);
      assert e.backup in [e.backup];
    }
  }

  lemma {:induction false} DryTargetsGrew(pid: nat, run: DryRun, targets: seq<Path>, index: nat, run': DryRun)
    requires DryTargets(pid, run, targets, index) == Some(run')
    ensures Grew(pid, run.files, run'.files, Names(run), Names(run'))
    decreases |targets|
  {
    if targets != [] {
      var front, target := targets[..|targets| - 1], targets[|targets| - 1];
      var mid := DryTargets(pid, run, front, index).value;
      DryTargetsGrew(pid, run, front, index, mid);
      DryTargetGrew(pid, mid, target, index, run');
      GrewOn(pid, run.files, mid.files, run'.files, Names(run), Names(mid), Names(run'));
    }
  }

  /** No change names a backup file: then what is applied, with the backups removed, is what applying the changes in
      sequence gives. */
  lemma {:induction false} DryIsSequential(pid: nat, resolve: Resolver, start: Files, changes: seq<FileChange>,
                                           run: DryRun)
    requires DryBatch(pid, resolve, start, changes) == Some(run) && AvoidsBackupNames(pid, resolve, changes)
    ensures InStep(resolve, start, changes, run.files, Names(run))
    ensures forall p :: p in Names(run) ==> IsBackupName(pid, p)
    decreases |changes|
  {
    if changes != [] {
      var index := |changes| - 1;
      var front, change := changes[..index], changes[index];
      assert forall i :: 0 <= i < index ==> front[i] == changes[i];
      assert changes == front + [change];
      var before := DryBatch(pid, resolve, start, front).value;
      DryIsSequential(pid, resolve, start, front, before);
      var targets := Targets(resolve, change).value;
      var mid := DryTargets(pid, before, targets, index).value;
      DryTargetsGrew(pid, before, targets, index, mid);
      InStepBackup(resolve, start, front, before.files, mid.files, Names(before), Names(mid));
      InStepChange(pid, resolve, start, front, change, mid.files, run.files, Names(mid));
    }
  }

  /** So every change finds what it needs, and every path ends up with what the last change that names it leaves. */
  lemma AppliedIsSequential(pid: nat, resolve: Resolver, start: Files, changes: seq<FileChange>)
    requires DryBatch(pid, resolve, start, changes).Some? && AvoidsBackupNames(pid, resolve, changes)
    ensures ApplyAll(resolve, start, changes) == Some(DryOutcome(pid, resolve, start, changes).1)
    ensures AllFind(resolve, start, changes)
    ensures forall p :: Settled(resolve, changes, start, DryOutcome(pid, resolve, start, changes).1, p)
  {
    var run := DryBatch(pid, resolve, start, changes).value;
    DryIsSequential(pid, resolve, start, changes, run);
    var end := run.files - Names(run);
    SameMaps(ApplyAll(resolve, start, changes).value, end);
    forall p ensures Settled(resolve, changes, start, end, p) {
      AppliedSettles(resolve, start, changes, end, p);
    }
  }

  // ----- why a batch cannot be applied -----

  /** The target is there, and all the names for its backup are taken. */
  ghost predicate NoNameLeft(pid: nat, files: Files, target: Path, seed: nat) {
    target in files && forall attempt :: 0 <= attempt < 32 ==> BackupPath(pid, target, seed, attempt) in files
  }

  lemma {:induction false} NoFreeName(pid: nat, files: Files, target: Path, seed: nat, attempt: nat)
    requires FreeName(pid, files, target, seed, attempt).None?
    ensures forall a :: attempt <= a < 32 ==> BackupPath(pid, target, seed, a) in files
    decreases 32 - attempt
  {
    if attempt < 32 {
      NoFreeName(pid, files, target, seed, attempt + 1);
    }
  }

  lemma {:induction false} TargetsStop(pid: nat, run: DryRun, targets: seq<Path>, index: nat)
    returns (mid: DryRun, j: nat)
    requires DryTargets(pid, run, targets, index).None?
    ensures j < |targets| && DryTargets(pid, run, targets[..j], index) == Some(mid)
    ensures NoNameLeft(pid, mid.files, targets[j], |mid.log| + index)
    decreases |targets|
  {
    var n := |targets| - 1;
    match DryTargets(pid, run, targets[..n], index) {
      case None =>
        mid, j := TargetsStop(pid, run, targets[..n], index);
        assert targets[..n][..j] == targets[..j];
      case Some(before) =>
        mid, j := before, n;
        NoFreeName(pid, mid.files, targets[n], |mid.log| + index, 0);
    }
  }

  /** The batch has come to change k, all before it applied; and this one does not find what it needs, or all the names
      for a backup of one of its targets are taken. */
  ghost predicate StopsAt(pid: nat, resolve: Resolver, start: Files, changes: seq<FileChange>, k: nat)
    requires k < |changes|
  {
    && AllFind(resolve, start, changes[..k])
    && (FindsAt(resolve, start, changes, k) ==>
          exists before, mid, j :: StopsForNames(pid, resolve, start, changes, k, before, mid, j))
  }

  ghost predicate StopsForNames(pid: nat, resolve: Resolver, start: Files, changes: seq<FileChange>, k: nat,
                                before: DryRun, mid: DryRun, j: nat)
    requires k < |changes|
  {
    && Targets(resolve, changes[k]).Some? && j < |Targets(resolve, changes[k]).value|
    && DryBatch(pid, resolve, start, changes[..k]) == Some(before)
    && DryTargets(pid, before, Targets(resolve, changes[k]).value[..j], k) == Some(mid)
    && NoNameLeft(pid, mid.files, Targets(resolve, changes[k]).value[j], |mid.log| + k)
  }

  /** No change names a backup file: then a batch that cannot be applied has a change that cannot, and reports the
      paths of those before it. */
  lemma {:induction false} FailsForCause(pid: nat, resolve: Resolver, start: Files, changes: seq<FileChange>)
    returns (k: nat)
    requires DryBatch(pid, resolve, start, changes).None? && AvoidsBackupNames(pid, resolve, changes)
    ensures k < |changes| && StopsAt(pid, resolve, start, changes, k)
    ensures Displays(changes[..k], DryOutcome(pid, resolve, start, changes).0.appliedPaths)
    decreases |changes|
  {
    var n := |changes| - 1;
    var front := changes[..n];
    assert forall i :: 0 <= i < n ==> front[i] == changes[i];
    match DryBatch(pid, resolve, start, front) {
      case None =>
        k := FailsForCause(pid, resolve, start, front);
        StopsInFront(pid, resolve, start, changes, front, k);
      case Some(run) =>
        k := n;
        DryIsSequential(pid, resolve, start, front, run);
        assert changes == front + [changes[n]];
        LastStops(pid, resolve, start, changes, run);
        DisplayPathsDisplay(front);
    }
  }

  lemma StopsInFront(pid: nat, resolve: Resolver, start: Files, changes: seq<FileChange>, front: seq<FileChange>,
                     k: nat)
    requires k < |front| <= |changes| && front == changes[..|front|] && StopsAt(pid, resolve, start, front, k)
    ensures front[..k] == changes[..k] && StopsAt(pid, resolve, start, changes, k)
  {
    assert front[..k] == changes[..k] && front[k] == changes[k];
    forall p ensures PresentAfter(resolve, start, changes, k, p) == PresentAfter(resolve, start, front, k, p) {
      PresentOfFront(resolve, start, changes, front, k, p);
    }
    if FindsAt(resolve, start, changes, k) {
      var before, mid, j :| StopsForNames(pid, resolve, start, front, k, before, mid, j);
      assert StopsForNames(pid, resolve, start, changes, k, before, mid, j);
    }
  }

  /** A change that finds what it needs is applied, if its targets can be backed up. */
  lemma FoundIsApplied(pid: nat, resolve: Resolver, start: Files, front: seq<FileChange>, change: FileChange,
                       run: DryRun, index: nat)
    requires InStep(resolve, start, front, run.files, Names(run))
    requires forall p :: p in Names(run) ==> IsBackupName(pid, p)
    requires forall p :: p in TargetSet(resolve, change) ==> !IsBackupName(pid, p)
    requires FindsAt(resolve, start, front + [change], |front|)
    ensures Targets(resolve, change).Some?
    ensures DryTargets(pid, run, Targets(resolve, change).value, index).Some? ==>
              DryChange(pid, resolve, run, change, index).Some?
  {
    var files := ApplyAll(resolve, start, front).value;
    FindsIff(resolve, start, front, files, change);
    var targets := Targets(resolve, change).value;
    forall t | t in targets ensures t in files <==> t in run.files {
      assert t in TargetSet(resolve, change);
      assert Get(files, t) == Get(run.files, t);
    }
    if DryTargets(pid, run, targets, index).Some? {
      var mid := DryTargets(pid, run, targets, index).value;
      DryTargetsGrew(pid, run, targets, index, mid);
      assert targets[0] in targets && targets[0] in TargetSet(resolve, change);
      assert targets[0] in mid.files <==> targets[0] in files;
    }
  }

  lemma LastStops(pid: nat, resolve: Resolver, start: Files, changes: seq<FileChange>, run: DryRun)
    requires changes != [] && AvoidsBackupNames(pid, resolve, changes)
    requires DryBatch(pid, resolve, start, changes[..|changes| - 1]) == Some(run)
    requires DryChange(pid, resolve, run, changes[|changes| - 1], |changes| - 1).None?
    requires InStep(resolve, start, changes[..|changes| - 1], run.files, Names(run))
    requires forall p :: p in Names(run) ==> IsBackupName(pid, p)
    ensures StopsAt(pid, resolve, start, changes, |changes| - 1)
  {
    var n := |changes| - 1;
    var front, change := changes[..n], changes[n];
    assert changes == front + [change];
    if FindsAt(resolve, start, changes, n) {
      FoundIsApplied(pid, resolve, start, front, change, run, n);
      var mid, j := TargetsStop(pid, run, Targets(resolve, change).value, n);
      assert StopsForNames(pid, resolve, start, changes, n, run, mid, j);
    }
  }
}
