/**
 The undo log of `nerve-fs`'s atomic file batch, over a file system that is a map from
 resolved paths to contents: what a log says, what a replay of it restores although steps
 of it fail, and what has become of the files after a batch.
 */
module AtomicLog {
  import opened Common
  import opened AtomicChanges

  datatype Backup = Backup(target: Path, saved: Option<Path>)

  /** What may go wrong: at which paths an operation may fail, and at which the probe for existence may wrongly
      answer no. */
  datatype Trouble = Trouble(faulty: Path -> bool, fooled: Path -> bool) {
    predicate At(p: Path) { faulty(p) || fooled(p) }
  }

  datatype BatchResult =
    | Applied
    | AtomicBatchFailed(appliedPaths: seq<string>, rollbackFailedPaths: seq<Path>)

  function Reported(r: BatchResult): seq<Path> { if r.Applied? then [] else r.rollbackFailedPaths }

  // ----- backup names -----

  function BackupPath(pid: nat, target: Path, seed: nat, attempt: nat): Path {
    Path(target.dir,
         "." + target.name + ".ctx-bak-" + Decimal(pid) + "-" + Decimal(seed) + "-" + Decimal(attempt))
  }

  lemma BackupPathExample()
    ensures BackupPath(47, Path("src", "lib"), 30, 1) == Path("src", ".lib.ctx-bak-47-30-1")
  {
    OneDigit();
    TwoDigits();
    assert "." + "lib" + ".ctx-bak-" == ".lib.ctx-bak-";
    assert ".lib.ctx-bak-" + "47" + "-" + "30" + "-" + "1" == ".lib.ctx-bak-47-30-1";
  }

  lemma OneDigit()
    ensures Decimal(1) == "1"
  {
  }

  lemma TwoDigits()
    ensures Decimal(47) == "47" && Decimal(30) == "30"
  {
    assert Digits(47) == [4, 7] && Digits(30) == [3, 0];
  }

  ghost predicate IsBackupName(pid: nat, p: Path) {
    exists target, seed, attempt :: p == BackupPath(pid, target, seed, attempt)
  }

  /** Nothing goes wrong at these paths, or at any name for a backup. */
  ghost predicate Sound(trouble: Trouble, pid: nat, ps: set<Path>) {
    forall p :: p in ps || IsBackupName(pid, p) ==> !trouble.At(p)
  }

  /** No change of the batch resolves to a name the batch could use for a backup. */
  ghost predicate AvoidsBackupNames(pid: nat, resolve: Resolver, changes: seq<FileChange>) {
    forall i, p :: 0 <= i < |changes| && p in TargetSet(resolve, changes[i]) ==> !IsBackupName(pid, p)
  }

  // ----- the undo log -----

  /** Both files hold the same thing, or nothing, at every path outside ps. */
  ghost predicate SameExcept(before: Files, after: Files, ps: set<Path>) {
    forall p :: p !in ps ==> Get(before, p) == Get(after, p)
  }

  /** A journal entry: the backup the code pushes, and what its target held at that moment. */
  datatype Entry = Entry(backup: Backup, before: Option<Content>)

  /** The target was recorded as absent though it was there: the probe answered wrongly. */
  predicate Misjudged(e: Entry) { e.backup.saved.None? && e.before.Some? }

  /** p was misjudged when first backed up: nothing else in the log knows what it held. */
  ghost predicate FirstMisjudged(log: seq<Entry>, p: Path) {
    log != [] && if log[0].backup.target == p then Misjudged(log[0]) else FirstMisjudged(log[1..], p)
  }

  /** The targets misjudged when first backed up. */
  ghost function LostPaths(log: seq<Entry>): set<Path> {
    set p | p in TargetPaths(BackupsOf(log)) && FirstMisjudged(log, p)
  }

  function BackupsOf(log: seq<Entry>): (r: seq<Backup>)
    ensures |r| == |log|
    ensures forall i :: 0 <= i < |log| ==> r[i] == log[i].backup
  {
    seq(|log|, i requires 0 <= i < |log| => log[i].backup)
  }

  function SavedPaths(backups: seq<Backup>): set<Path> {
    set b | b in backups && b.saved.Some? :: b.saved.value
  }

  function TargetPaths(backups: seq<Backup>): set<Path> {
    set b | b in backups :: b.target
  }

  /** What p holds once the log has been replayed backwards from cur. */
  ghost function Unwound(log: seq<Entry>, cur: Files, p: Path): Option<Content> {
    if log == [] then Get(cur, p)
    else if log[0].backup.target == p then log[0].before
    else Unwound(log[1..], cur, p)
  }

  /** Each saved copy, by the time the replay reaches its entry, holds what its target held. */
  ghost predicate CopiesIntact(log: seq<Entry>, cur: Files) {
    forall k {:trigger log[k]} :: 0 <= k < |log| ==>
      match log[k].backup.saved
      case None => true
      case Some(s) => log[k].before.Some? && Unwound(log[k + 1..], cur, s) == log[k].before
  }

  /** A full replay leads back to `start`, but for backup files (`scratch`) that were not there. */
  ghost predicate LeadsBack(log: seq<Entry>, cur: Files, start: Files, scratch: set<Path>) {
    forall p ::
      if p in start then Unwound(log, cur, p) == Some(start[p])
      else Unwound(log, cur, p) == None || p in scratch
  }

  ghost predicate Journal(log: seq<Entry>, cur: Files, start: Files, scratch: set<Path>) {
    CopiesIntact(log, cur) && LeadsBack(log, cur, start, scratch) && SavedPaths(BackupsOf(log)) <= scratch
  }

  /** Replaying is a matter of the current files only at paths the log does not target. */
  lemma {:induction false} UnwoundDepends(log: seq<Entry>, cur: Files, cur': Files, p: Path)
    requires || Get(cur, p) == Get(cur', p)
             || p in TargetPaths(BackupsOf(log))
             || Unwound(log, cur, p) != Get(cur, p)
    ensures Unwound(log, cur, p) == Unwound(log, cur', p)
  {
    if log != [] && log[0].backup.target != p {
      assert BackupsOf(log) == [log[0].backup] + BackupsOf(log[1..]);
      UnwoundDepends(log[1..], cur, cur', p);
    }
  }

  /** Recording a target's present content, and copying it elsewhere, changes no replay result
      but that of the fresh name the copy went to. */
  lemma {:induction false} UnwoundAppend(log: seq<Entry>, e: Entry, cur: Files, cur': Files, p: Path)
    requires e.before == Get(cur', e.backup.target)
    requires Get(cur, p) == Get(cur', p) || Unwound(log, cur, p) != Get(cur, p)
    ensures Unwound(log + [e], cur', p) == Unwound(log, cur, p)
  {
    if log == [] {
      assert (log + [e])[1..] == [];
    } else if log[0].backup.target != p {
      assert (log + [e])[1..] == log[1..] + [e];
      UnwoundAppend(log[1..], e, cur, cur', p);
    }
  }

  /** The file system after `e`'s backup was taken from `cur`. */
  ghost predicate BackedUp(e: Entry, cur: Files, cur': Files) {
    && e.before == Get(cur, e.backup.target)
    && match e.backup.saved
       case None => cur' == cur
       case Some(s) => e.before.Some? && s !in cur && cur' == cur[s := e.before.value]
  }

  lemma JournalAppend(log: seq<Entry>, e: Entry, cur: Files, cur': Files, start: Files, scratch: set<Path>)
    requires Journal(log, cur, start, scratch) && BackedUp(e, cur, cur')
    ensures Journal(log + [e], cur', start, scratch + SavedPaths([e.backup]))
  {
    var log' := log + [e];
    forall k {:trigger log'[k]} | 0 <= k < |log'| && log'[k].backup.saved.Some?
      ensures log'[k].before.Some? && Unwound(log'[k + 1..], cur', log'[k].backup.saved.value) == log'[k].before
    {
      if k < |log| {
        assert log[k] == log'[k];
        assert log'[k + 1..] == log[k + 1..] + [e];
        UnwoundAppend(log[k + 1..], e, cur, cur', log[k].backup.saved.value);
      } else {
        assert log'[k + 1..] == [];
      }
    }
    assert BackupsOf(log') == BackupsOf(log) + [e.backup];
    assert e.backup in [e.backup];
    forall p | Get(cur, p) == Get(cur', p) || Unwound(log, cur, p) != Get(cur, p)
      ensures Unwound(log', cur', p) == Unwound(log, cur, p)
    {
      UnwoundAppend(log, e, cur, cur', p);
    }
  }

  /** An incomplete backup file at a fresh path disturbs nothing the log relies on. */
  lemma JournalStray(log: seq<Entry>, stray: set<Path>, cur: Files, cur': Files, start: Files, scratch: set<Path>)
    requires Journal(log, cur, start, scratch) && SameExcept(cur, cur', stray) && stray !! cur.Keys
    ensures Journal(log, cur', start, scratch + stray)
  {
    forall k {:trigger log[k]} | 0 <= k < |log| && log[k].backup.saved.Some?
      ensures Unwound(log[k + 1..], cur', log[k].backup.saved.value) == log[k].before
    {
      UnwoundDepends(log[k + 1..], cur, cur', log[k].backup.saved.value);
    }
    forall p | p in start || p !in stray
      ensures Unwound(log, cur', p) == Unwound(log, cur, p)
    {
      UnwoundDepends(log, cur, cur', p);
    }
  }

  /** The files changed by nothing but new backup files, which scratch' adds to scratch. */
  ghost predicate Grew(pid: nat, before: Files, after: Files, scratch: set<Path>, scratch': set<Path>) {
    && scratch <= scratch' && SameExcept(before, after, scratch')
    && (forall p :: p in before ==> p in after && after[p] == before[p])
    && (forall p :: p in scratch' - scratch ==> IsBackupName(pid, p) && p !in before)
  }

  lemma GrewStep(
    pid: nat, before: Files, mid: Files, after: Files, scratch: set<Path>, scratch': set<Path>, stray: set<Path>)
    requires Grew(pid, before, mid, scratch, scratch')
    requires stray !! mid.Keys && SameExcept(mid, after, stray) && forall p :: p in stray ==> IsBackupName(pid, p)
    ensures Grew(pid, before, after, scratch, scratch' + stray)
  {
    forall p | p in before ensures p in after && after[p] == before[p] {
      assert Get(mid, p) == Get(after, p);
    }
  }

  lemma GrewOn(
    pid: nat, before: Files, mid: Files, after: Files, scratch: set<Path>, known: set<Path>, scratch': set<Path>)
    requires Grew(pid, before, mid, scratch, known) && Grew(pid, mid, after, known, scratch')
    ensures Grew(pid, before, after, scratch, scratch')
  {
    forall p | p !in scratch' ensures Get(before, p) == Get(after, p) {
      assert Get(before, p) == Get(mid, p);
    }
  }

  lemma TargetPathsSnoc(backups: seq<Backup>, b: Backup)
    ensures TargetPaths(backups + [b]) == TargetPaths(backups) + {b.target}
  {
    assert b in backups + [b];
    assert forall x :: x in backups ==> x in backups + [x];
  }

  lemma SavedPathsAppend(backups: seq<Backup>, b: Backup)
    ensures SavedPaths(backups + [b]) == SavedPaths(backups) + SavedPaths([b])
  {
    assert b in backups + [b] && b in [b];
    assert forall x :: x in backups ==> x in backups + [b];
  }

  lemma SavedPathsSnoc(backups: seq<Backup>, i: nat)
    requires i < |backups|
    ensures SavedPaths(backups[..i + 1]) == SavedPaths(backups[..i]) + SavedPaths([backups[i]])
    ensures SavedPaths([backups[i]]) == if backups[i].saved.Some? then {backups[i].saved.value} else {}
    ensures SavedPaths([backups[i]]) <= SavedPaths(backups)
  {
    assert backups[..i + 1] == backups[..i] + [backups[i]];
    SavedPathsAppend(backups[..i], backups[i]);
    assert backups[i] in [backups[i]] && backups[i] in backups;
  }

  /** The change whose entries start at `base` may do anything to the paths ps it targets. */
  ghost predicate Covered(log: seq<Entry>, base: nat, ps: set<Path>) {
    && base <= |log|
    && (forall p :: p in ps ==> p in TargetPaths(BackupsOf(log[base..])))
    && (forall k {:trigger log[k]} ::
          base <= k < |log| && log[k].backup.saved.Some? && log[k].backup.saved.value in ps ==>
            log[k].backup.saved.value in TargetPaths(BackupsOf(log[k + 1..])))
  }

  lemma TargetsOfSuffix(log: seq<Entry>, i: nat, j: nat)
    requires i <= j <= |log|
    ensures TargetPaths(BackupsOf(log[j..])) <= TargetPaths(BackupsOf(log[i..]))
  {
    var a, b := BackupsOf(log[i..]), BackupsOf(log[j..]);
    forall x | x in b ensures x in a {
      var m :| 0 <= m < |b| && b[m] == x;
      assert a[m + j - i] == x;
    }
  }

  lemma JournalTouched(log: seq<Entry>, base: nat, ps: set<Path>, cur: Files, cur': Files, start: Files,
      scratch: set<Path>)
    requires Journal(log, cur, start, scratch) && Covered(log, base, ps) && SameExcept(cur, cur', ps)
    ensures Journal(log, cur', start, scratch)
  {
    forall k {:trigger log[k]} | 0 <= k < |log| && log[k].backup.saved.Some?
      ensures Unwound(log[k + 1..], cur', log[k].backup.saved.value) == log[k].before
    {
      if k < base {
        TargetsOfSuffix(log, k + 1, base);
      }
      UnwoundDepends(log[k + 1..], cur, cur', log[k].backup.saved.value);
    }
    assert log[0..] == log;
    TargetsOfSuffix(log, 0, base);
    forall p ensures Unwound(log, cur', p) == Unwound(log, cur, p) {
      UnwoundDepends(log, cur, cur', p);
    }
  }

  // ----- what a replay without failures computes -----

  /** Putting one backup back, when nothing fails. */
  function RestoredOne(files: Files, backup: Backup): Files {
    match backup.saved
    case None => files - {backup.target}
    case Some(s) => if s in files then files[backup.target := files[s]] else files
  }

  /** The replay of the backups, last first, when no step of it fails. */
  function Replayed(files: Files, backups: seq<Backup>): Files
    decreases |backups|
  {
    if backups == [] then files
    else Replayed(RestoredOne(files, backups[|backups| - 1]), backups[..|backups| - 1])
  }

  /** One step of the replay, whatever it did to its own target: outside the tainted paths the
      files stay in step with the log. */
  lemma ReplayStep(log: seq<Entry>, i: nat, start: Files, before: Files, after: Files, ok: bool, tainted: set<Path>)
    requires i < |log| && CopiesIntact(log, start)
    requires forall p :: p !in tainted ==> Get(before, p) == Unwound(log[i + 1..], start, p)
    requires SameExcept(before, after, {log[i].backup.target})
    requires ok ==> after == RestoredOne(before, log[i].backup)
    ensures forall p :: p !in NextTainted(log[i], ok, tainted) ==> Get(after, p) == Unwound(log[i..], start, p)
  {
    assert log[i..][1..] == log[i + 1..] && log[i..][0] == log[i];
    var e := log[i];
    forall p | p !in NextTainted(e, ok, tainted)
      ensures Get(after, p) == Unwound(log[i..], start, p)
    {
      if p != e.backup.target {
        assert Get(before, p) == Get(after, p);
      } else if e.backup.saved.Some? {
        assert Get(before, e.backup.saved.value) == e.before;
      }
    }
  }

  /** Outside the tainted paths the files are those the log says. */
  ghost predicate Agrees(log: seq<Entry>, start: Files, cur: Files, tainted: set<Path>) {
    forall p :: p !in tainted ==> Get(cur, p) == Unwound(log, start, p)
  }

  /** What a replay has marked: the targets it reports; those it once took to be absent though they were there, and
      among them those it did not come back to; and those no longer known to be right. */
  datatype Marks = Marks(failed: seq<Path>, missed: set<Path>, stayed: set<Path>, tainted: set<Path>)

  function NextMarks(e: Entry, ok: bool, mistaken: bool, m: Marks): Marks {
    var t := e.backup.target;
    Marks(if ok then m.failed else m.failed + [t],
          if mistaken then m.missed + {t} else m.missed,
          if mistaken then m.stayed + {t} else m.stayed - {t},
          NextTainted(e, ok && !mistaken, m.tainted))
  }

  /** The target of a step that failed or was misled, the target of a misjudged entry, and the target of a step that
      copied from a path no longer known to be right.  A step that copies from a path known to be right puts its
      target right. */
  function NextTainted(e: Entry, ok: bool, tainted: set<Path>): set<Path> {
    if !ok || Misjudged(e) || (e.backup.saved.Some? && e.backup.saved.value in tainted) then tainted + {e.backup.target}
    else tainted - {e.backup.target}
  }

  /** The marks account for what became of the log's targets.  What stayed is there, and was there when first backed
      up exactly if it was misjudged then; what was misjudged then, and is neither reported nor stayed, is gone; and
      unless a saved copy is itself reported or missed, nothing else is in doubt. */
  ghost predicate Explained(backups: seq<Backup>, log: seq<Entry>, start: Files, cur: Files, m: Marks) {
    && (forall p :: p in m.failed ==> p in TargetPaths(backups)) && m.stayed <= m.missed <= TargetPaths(backups)
    && (forall p :: p in m.stayed ==> p in cur && (Unwound(log, start, p).Some? <==> FirstMisjudged(log, p)))
    && (forall p :: FirstMisjudged(log, p) && p !in m.failed && p !in m.stayed ==> p !in cur)
    && ((forall p :: p in m.failed || p in m.missed ==> p !in SavedPaths(backups)) ==>
          forall p :: p in m.tainted ==> p in m.failed || p in m.stayed || FirstMisjudged(log, p))
  }

  /** The replay has come down to the i-th backup. */
  ghost predicate RolledTo(backups: seq<Backup>, log: seq<Entry>, start: Files, cur: Files, i: nat, m: Marks) {
    && i <= |backups| == |log|
    && Agrees(log[i..], start, cur, m.tainted)
    && Explained(backups, log[i..], start, cur, m)
    && (m.failed == [] && m.missed == {} ==> Replayed(cur, backups[..i]) == Replayed(start, backups))
    && SameExcept(start, cur, TargetPaths(backups))
  }

  lemma ReplayedStep(backups: seq<Backup>, i: nat, cur: Files, start: Files)
    requires i < |backups| && Replayed(cur, backups[..i + 1]) == Replayed(start, backups)
    ensures Replayed(RestoredOne(cur, backups[i]), backups[..i]) == Replayed(start, backups)
  {
    assert backups[..i + 1][..i] == backups[..i] && backups[..i + 1][i] == backups[i];
  }

  /** What putting one backup back may do: nothing outside its target; all it should, if it succeeds and no probe
      misleads it; and a target that it misses is there. */
  ghost predicate OneStep(b: Backup, before: Files, after: Files, ok: bool, mistaken: bool) {
    && SameExcept(before, after, {b.target})
    && (ok && !mistaken ==> after == RestoredOne(before, b) && (b.saved.Some? ==> b.saved.value in before))
    && (mistaken ==> ok && b.saved.None? && b.target in after)
  }

  lemma RolledBackStep(backups: seq<Backup>, log: seq<Entry>, i: nat, start: Files, before: Files, after: Files,
                       ok: bool, mistaken: bool, m: Marks)
    requires backups == BackupsOf(log) && i < |log| && CopiesIntact(log, start)
    requires RolledTo(backups, log, start, before, i + 1, m) && OneStep(backups[i], before, after, ok, mistaken)
    ensures RolledTo(backups, log, start, after, i, NextMarks(log[i], ok, mistaken, m))
  {
    ReplayStep(log, i, start, before, after, ok && !mistaken, m.tainted);
    assert backups[i] in backups && backups[i].target in TargetPaths(backups);
    assert log[i..][0] == log[i] && log[i..][1..] == log[i + 1..];
    ExplainedStep(backups, log[i..], start, before, after, ok, mistaken, m);
    if m.failed == [] && m.missed == {} && ok && !mistaken {
      ReplayedStep(backups, i, before, start);
    }
  }

  /** A step that copied from a path in doubt has failed, for that path is gone; unless it is reported or missed. */
  lemma TaintExplained(backups: seq<Backup>, log: seq<Entry>, start: Files, before: Files, after: Files, ok: bool,
                       mistaken: bool, m: Marks, p: Path)
    requires log != [] && log[0].backup in backups && Explained(backups, log[1..], start, before, m)
    requires OneStep(log[0].backup, before, after, ok, mistaken)
    requires forall p :: p in m.failed || p in m.missed ==> p !in SavedPaths(backups)
    requires p in NextTainted(log[0], ok && !mistaken, m.tainted)
    ensures if p == log[0].backup.target then !ok || mistaken || FirstMisjudged(log, p)
            else p in m.failed || p in m.stayed || FirstMisjudged(log, p)
  {
    var b := log[0].backup;
    assert b.saved.Some? ==> b.saved.value in SavedPaths(backups);
  }

  /** The targets that stay, and those that are gone. */
  lemma StayExplained(backups: seq<Backup>, log: seq<Entry>, start: Files, before: Files, after: Files, ok: bool,
                      mistaken: bool, m: Marks, p: Path)
    requires log != [] && Explained(backups, log[1..], start, before, m)
    requires OneStep(log[0].backup, before, after, ok, mistaken)
    ensures p in NextMarks(log[0], ok, mistaken, m).stayed ==>
              p in after && (Unwound(log, start, p).Some? <==> FirstMisjudged(log, p))
    ensures FirstMisjudged(log, p) && (if p == log[0].backup.target then ok && !mistaken
                                       else p !in m.failed && p !in m.stayed) ==>
              p !in after
  {
    if p != log[0].backup.target {
      assert Get(before, p) == Get(after, p);
    }
  }

  lemma ExplainedStep(backups: seq<Backup>, log: seq<Entry>, start: Files, before: Files, after: Files, ok: bool,
                      mistaken: bool, m: Marks)
    requires log != [] && log[0].backup in backups && Explained(backups, log[1..], start, before, m)
    requires OneStep(log[0].backup, before, after, ok, mistaken)
    ensures Explained(backups, log, start, after, NextMarks(log[0], ok, mistaken, m))
  {
    var t := log[0].backup.target;
    var m' := NextMarks(log[0], ok, mistaken, m);
    assert t in TargetPaths(backups) && forall p :: p in m.failed ==> p in m'.failed;
    forall p {
      StayExplained(backups, log, start, before, after, ok, mistaken, m, p);
    }
    if forall p :: p in m'.failed || p in m'.missed ==> p !in SavedPaths(backups) {
      forall p | p in m'.tainted ensures p in m'.failed || p in m'.stayed || FirstMisjudged(log, p) {
        TaintExplained(backups, log, start, before, after, ok, mistaken, m, p);
      }
    }
  }

  // ----- what is to blame -----

  /** Only a misled probe makes an entry misjudged. */
  ghost predicate LogBlamed(trouble: Trouble, log: seq<Entry>) {
    forall e :: e in log && Misjudged(e) ==> trouble.fooled(e.backup.target)
  }

  /** There is trouble at p, or at a backup file. */
  ghost predicate Excused(trouble: Trouble, backups: set<Path>, p: Path) {
    trouble.At(p) || exists s :: s in backups && trouble.At(s)
  }

  ghost predicate Blamed(trouble: Trouble, backups: set<Path>, m: Marks) {
    && (forall p :: p in m.failed || p in m.tainted ==> Excused(trouble, backups, p))
    && (forall p :: p in m.missed ==> trouble.fooled(p))
  }

  /** What makes a step fail, or be misled. */
  ghost predicate StepBlamed(trouble: Trouble, b: Backup, before: Files, ok: bool, mistaken: bool) {
    && (mistaken ==> trouble.fooled(b.target))
    && (!ok ==> || trouble.faulty(b.target)
                || (b.saved.Some? && (trouble.faulty(b.saved.value) || b.saved.value !in before)))
  }

  /** A copy that is gone was in doubt. */
  lemma GoneIsTainted(log: seq<Entry>, i: nat, start: Files, before: Files, tainted: set<Path>)
    requires i < |log| && CopiesIntact(log, start) && Agrees(log[i + 1..], start, before, tainted)
    requires log[i].backup.saved.Some? && log[i].backup.saved.value !in before
    ensures log[i].backup.saved.value in tainted
  {
    assert Unwound(log[i + 1..], start, log[i].backup.saved.value) == log[i].before;
  }

  lemma BlamedStep(trouble: Trouble, backups: set<Path>, e: Entry, before: Files, ok: bool, mistaken: bool, m: Marks)
    requires Blamed(trouble, backups, m) && StepBlamed(trouble, e.backup, before, ok, mistaken)
    requires Misjudged(e) ==> trouble.fooled(e.backup.target)
    requires e.backup.saved.Some? ==>
               e.backup.saved.value in backups && (e.backup.saved.value in before || e.backup.saved.value in m.tainted)
    ensures Blamed(trouble, backups, NextMarks(e, ok, mistaken, m))
  {
  }

  lemma StepIsBlamed(trouble: Trouble, backups: seq<Backup>, log: seq<Entry>, i: nat, start: Files, before: Files,
                     ok: bool, mistaken: bool, m: Marks)
    requires backups == BackupsOf(log) && i < |log| && CopiesIntact(log, start) && LogBlamed(trouble, log)
    requires Agrees(log[i + 1..], start, before, m.tainted) && Blamed(trouble, SavedPaths(backups), m)
    requires StepBlamed(trouble, backups[i], before, ok, mistaken)
    ensures Blamed(trouble, SavedPaths(backups), NextMarks(log[i], ok, mistaken, m))
  {
    var e := log[i];
    assert e in log && backups[i] in backups;
    if e.backup.saved.Some? && e.backup.saved.value !in before {
      GoneIsTainted(log, i, start, before, m.tainted);
    }
    BlamedStep(trouble, SavedPaths(backups), e, before, ok, mistaken, m);
  }

  lemma {:induction false} LostAreBlamed(trouble: Trouble, log: seq<Entry>)
    requires LogBlamed(trouble, log)
    ensures forall p :: p in LostPaths(log) ==> trouble.fooled(p) && p in TargetPaths(BackupsOf(log))
  {
    forall p | p in LostPaths(log) ensures trouble.fooled(p) {
      var k := FirstMisjudgedAt(log, p);
      assert log[k] in log;
    }
  }

  /** The log leads back to the start, for good reason where it is wrong; nothing is disturbed but targets and
      backup files. */
  ghost predicate InProgress(trouble: Trouble, pid: nat, backups: seq<Backup>, log: seq<Entry>, cur: Files,
                             start: Files,
                             scratch: set<Path>, touched: set<Path>)
  {
    && backups == BackupsOf(log)
    && Journal(log, cur, start, scratch)
    && (forall p :: p in scratch ==> IsBackupName(pid, p))
    && LogBlamed(trouble, log)
    && TargetPaths(backups) <= touched
    && SameExcept(start, cur, touched + scratch)
  }

  lemma ProgressStray(trouble: Trouble, pid: nat, backups: seq<Backup>, log: seq<Entry>, stray: set<Path>, cur: Files,
                      cur': Files, start: Files, scratch: set<Path>, touched: set<Path>)
    requires InProgress(trouble, pid, backups, log, cur, start, scratch, touched)
    requires SameExcept(cur, cur', stray) && stray !! cur.Keys && forall p :: p in stray ==> IsBackupName(pid, p)
    ensures InProgress(trouble, pid, backups, log, cur', start, scratch + stray, touched)
  {
    JournalStray(log, stray, cur, cur', start, scratch);
    SameOn(start, cur, cur', touched + scratch, stray, touched + (scratch + stray));
  }

  lemma ProgressAppend(trouble: Trouble, pid: nat, backups: seq<Backup>, log: seq<Entry>, e: Entry, cur: Files,
                       cur': Files, start: Files, scratch: set<Path>, touched: set<Path>)
    requires InProgress(trouble, pid, backups, log, cur, start, scratch, touched) && BackedUp(e, cur, cur')
    requires e.backup.target in touched && (Misjudged(e) ==> trouble.fooled(e.backup.target))
    requires SameExcept(cur, cur', SavedPaths([e.backup]))
    && forall p :: p in SavedPaths([e.backup]) ==> IsBackupName(pid, p)
    ensures InProgress(trouble, pid, backups + [e.backup], log + [e], cur', start,
                       scratch + SavedPaths([e.backup]), touched)
    ensures TargetPaths(backups + [e.backup]) == TargetPaths(backups) + {e.backup.target}
    ensures SavedPaths(backups + [e.backup]) == SavedPaths(backups) + SavedPaths([e.backup])
  {
    var names := SavedPaths([e.backup]);
    JournalAppend(log, e, cur, cur', start, scratch);
    TargetPathsSnoc(backups, e.backup);
    SavedPathsAppend(backups, e.backup);
    assert BackupsOf(log + [e]) == backups + [e.backup];
    SameOn(start, cur, cur', touched + scratch, names, touched + (scratch + names));
  }

  lemma SameOn(a: Files, b: Files, c: Files, ps: set<Path>, qs: set<Path>, rs: set<Path>)
    requires SameExcept(a, b, ps) && SameExcept(b, c, qs) && ps <= rs && qs <= rs
    ensures SameExcept(a, c, rs)
  {
    forall p | p !in rs ensures Get(a, p) == Get(c, p) {
      assert Get(a, p) == Get(b, p);
    }
  }

  // ----- outcomes of a batch -----

  /** Every change found what it needs, and every path but a backup file holds what the last change that names it
      left there.  The backups that are left are all that is besides the files of sequential application. */
  ghost predicate Committed(resolve: Resolver, start: Files, changes: seq<FileChange>, end: Files, scratch: set<Path>) {
    var sequential := ApplyAll(resolve, start, changes);
    && sequential.Some?
    && AllFind(resolve, start, changes)
    && (forall p :: p !in scratch ==> Settled(resolve, changes, start, end, p))
    && SameExcept(sequential.value, end, scratch)
    && scratch !! sequential.value.Keys
    && (scratch !! end.Keys ==> end == sequential.value)
  }

  lemma CommittedIs(resolve: Resolver, start: Files, changes: seq<FileChange>, end: Files, scratch: set<Path>)
    requires InStep(resolve, start, changes, end, scratch)
    ensures Committed(resolve, start, changes, end, scratch)
  {
    var sequential := ApplyAll(resolve, start, changes).value;
    forall p | p !in scratch ensures Settled(resolve, changes, start, end, p) {
      AppliedSettles(resolve, start, changes, sequential, p);
      assert Get(sequential, p) == Get(end, p);
    }
    if scratch !! end.Keys {
      SameMaps(sequential, end);
    }
  }

  lemma InStepWithout(resolve: Resolver, start: Files, changes: seq<FileChange>, cur: Files, cur': Files,
                      scratch: set<Path>)
    requires InStep(resolve, start, changes, cur, scratch) && SameExcept(cur, cur', scratch)
    ensures InStep(resolve, start, changes, cur', scratch)
  {
  }

  /** The paths are those of the first k changes, and these changes do apply in sequence. */
  ghost predicate FullyApplied(pid: nat, resolve: Resolver, start: Files, changes: seq<FileChange>, k: nat,
      paths: seq<string>)
    requires k <= |changes|
  {
    && paths == DisplayPaths(changes[..k]) && Displays(changes[..k], paths)
    && (AvoidsBackupNames(pid, resolve, changes) ==>
          ApplyAll(resolve, start, changes[..k]).Some? && AllFind(resolve, start, changes[..k]))
  }

  /** So it is for some proper prefix of the changes. */
  ghost predicate StoppedShort(pid: nat, resolve: Resolver, start: Files, changes: seq<FileChange>, paths: seq<string>)
  {
    exists k :: 0 <= k < |changes| && FullyApplied(pid, resolve, start, changes, k, paths)
  }

  /** What a batch did that its caller does not see. */
  datatype Account = Account(scratch: set<Path>, lost: set<Path>, missed: set<Path>, stayed: set<Path>)

  /** What has become of a path that is neither reported nor a backup file. */
  ghost predicate Told(start: Files, end: Files, account: Account, p: Path) {
    if p in account.stayed then p in end && (p in start <==> p in account.lost)
    else Get(start, p) == Get(end, p) <==> p !in account.lost
  }

  /** Unless a backup file itself is reported or missed, the account tells what has become of everything but the
      reported paths and the backup files. */
  ghost predicate RolledBack(start: Files, end: Files, failed: seq<Path>, account: Account) {
    (forall p :: p in failed || p in account.missed ==> p !in account.scratch) ==>
      forall p :: p !in failed && p !in account.scratch ==> Told(start, end, account, p)
  }

  /** The state after a rollback and the removal of the backups. */
  ghost predicate Undone(start: Files, end: Files, failed: seq<Path>, account: Account) {
    && RolledBack(start, end, failed, account)
    && (failed == [] && account.missed == {} ==> account.lost !! end.Keys)
    && (failed == [] && account.missed == {} && account.scratch !! end.Keys ==>
          (end == start <==> account.scratch + account.lost !! start.Keys))
  }

  /** The account tells what has become of everything that existed, and of everything not named like a backup. */
  ghost predicate RolledBackEverywhere(pid: nat, start: Files, end: Files, failed: seq<Path>, account: Account) {
    && (forall p :: p in failed || p in account.missed || p in account.lost ==> !IsBackupName(pid, p))
    && (forall p :: p !in failed && (p in start || !IsBackupName(pid, p)) ==> Told(start, end, account, p))
  }

  /** What the account, and the report, may say: the names of backup files are backup names; only a target of the
      batch that a probe was misled about is lost or missed; and only a target is reported, if there is trouble with
      it or with a backup file. */
  ghost predicate Accounted(trouble: Trouble, pid: nat, targets: set<Path>, failed: seq<Path>, account: Account) {
    && (forall p :: p in account.scratch ==> IsBackupName(pid, p))
    && account.stayed <= account.missed
    && (forall p :: p in account.lost || p in account.missed ==> p in targets && trouble.fooled(p))
    && (forall p :: p in failed ==> p in targets && Excused(trouble, account.scratch, p))
  }

  /** The batch was applied. */
  ghost predicate AppliedAs(pid: nat, resolve: Resolver, start: Files, changes: seq<FileChange>, end: Files,
                            account: Account)
  {
    AvoidsBackupNames(pid, resolve, changes) ==> Committed(resolve, start, changes, end, account.scratch)
  }

  /** The batch failed, and was rolled back. */
  ghost predicate FailedAs(pid: nat, resolve: Resolver, start: Files, changes: seq<FileChange>, end: Files,
                           r: BatchResult, account: Account)
    requires r.AtomicBatchFailed?
  {
    && StoppedShort(pid, resolve, start, changes, r.appliedPaths)
    && Undone(start, end, r.rollbackFailedPaths, account)
    && (AvoidsBackupNames(pid, resolve, changes) ==>
          RolledBackEverywhere(pid, start, end, r.rollbackFailedPaths, account))
  }

  /** What holds of either: what has changed, and what the account may say. */
  ghost predicate AccountedFor(trouble: Trouble, pid: nat, resolve: Resolver, start: Files, changes: seq<FileChange>,
                               end: Files, r: BatchResult, account: Account)
  {
    && Accounted(trouble, pid, Touched(resolve, changes), Reported(r), account)
    && OnlyNamed(resolve, changes, start, end, account.scratch)
    && account.lost <= start.Keys + account.scratch
    && (KeepsBackupNamed(pid, resolve, start, changes) ==> account.scratch !! start.Keys)
  }

  lemma BlamedIsAccounted(trouble: Trouble, pid: nat, backups: seq<Backup>, log: seq<Entry>, start: Files, cur: Files,
                          m: Marks, touched: set<Path>, account: Account)
    requires backups == BackupsOf(log) && Explained(backups, log, start, cur, m)
    requires Blamed(trouble, SavedPaths(backups), m) && TargetPaths(backups) <= touched
    requires SavedPaths(backups) <= account.scratch && forall p :: p in account.scratch ==> IsBackupName(pid, p)
    requires account.missed == m.missed && account.stayed == m.stayed
    requires forall p :: p in account.lost ==> trouble.fooled(p) && p in TargetPaths(backups)
    ensures Accounted(trouble, pid, touched, m.failed, account)
    ensures Sound(trouble, pid, touched) ==> m.failed == [] && m.missed == {}
  {
    assert m.failed != [] ==> m.failed[0] in m.failed;
  }

  /** If there is no trouble with the backup files, then a path without trouble that is no backup file is not
      reported, and holds what it held before. */
  lemma UntroubledIsRestored(trouble: Trouble, pid: nat, targets: set<Path>, start: Files, end: Files,
                             failed: seq<Path>, account: Account, p: Path)
    requires RolledBack(start, end, failed, account) && Accounted(trouble, pid, targets, failed, account)
    requires forall s :: s in account.scratch ==> !trouble.At(s)
    requires !trouble.At(p) && p !in account.scratch
    ensures p !in failed && Get(end, p) == Get(start, p)
  {
    assert forall q :: q in failed ==> trouble.At(q);
    assert forall q :: q in account.missed ==> trouble.At(q);
  }

  /** If no probe is misled and no change names a backup file, then every path that is not reported and was there
      before, or is not named like a backup, holds what it held before. */
  lemma UnfooledIsRestored(trouble: Trouble, pid: nat, targets: set<Path>, start: Files, end: Files,
                           failed: seq<Path>, account: Account)
    requires RolledBackEverywhere(pid, start, end, failed, account) && Accounted(trouble, pid, targets, failed, account)
    requires forall p :: p in targets ==> !trouble.fooled(p)
    ensures forall p :: p !in failed && (p in start || !IsBackupName(pid, p)) ==> Get(end, p) == Get(start, p)
  {
    assert account.lost == {} && account.missed == {};
  }

  /** The current files are those of sequential application plus backup files, and every change found what it needs. */
  ghost predicate InStep(resolve: Resolver, start: Files, done: seq<FileChange>, cur: Files, scratch: set<Path>) {
    var sequential := ApplyAll(resolve, start, done);
    && sequential.Some?
    && AllFind(resolve, start, done)
    && SameExcept(sequential.value, cur, scratch)
    && scratch !! sequential.value.Keys
  }

  // ----- the guard for backup names -----

  /** The path a change leaves without a file. */
  function Removed(resolve: Resolver, change: FileChange): set<Path> {
    match Targets(resolve, change)
    case None => {}
    case Some(ts) =>
      match change
      case Delete(_) => {ts[0]}
      case Rename(_, _, _) => {ts[0]} - {ts[1]}
      case _ => {}
  }

  /** No change deletes, or renames away, a file of the start that has the name of a backup. */
  ghost predicate KeepsBackupNamed(pid: nat, resolve: Resolver, start: Files, changes: seq<FileChange>) {
    forall i, p :: 0 <= i < |changes| && p in Removed(resolve, changes[i]) && p in start ==> !IsBackupName(pid, p)
  }

  /** The files of the start named like backups are there, and no backup has their names. */
  ghost predicate StillThere(pid: nat, start: Files, cur: Files, scratch: set<Path>) {
    && scratch !! start.Keys
    && forall p :: p in start && IsBackupName(pid, p) ==> p in cur
  }

  lemma AvoidingKeeps(pid: nat, resolve: Resolver, start: Files, changes: seq<FileChange>)
    ensures AvoidsBackupNames(pid, resolve, changes) ==> KeepsBackupNamed(pid, resolve, start, changes)
  {
    forall i | 0 <= i < |changes| ensures Removed(resolve, changes[i]) <= TargetSet(resolve, changes[i]) {
      RemovedAreTargets(resolve, changes[i]);
    }
  }

  lemma RemovedAreTargets(resolve: Resolver, change: FileChange)
    ensures Removed(resolve, change) <= TargetSet(resolve, change)
  {
    match Targets(resolve, change)
    case None =>
    case Some(ts) => assert ts[0] in ts;
  }

  lemma StillThereBackup(pid: nat, start: Files, cur: Files, cur': Files, scratch: set<Path>, scratch': set<Path>)
    requires StillThere(pid, start, cur, scratch) && Grew(pid, cur, cur', scratch, scratch')
    ensures StillThere(pid, start, cur', scratch')
  {
  }

  lemma StillThereChange(pid: nat, resolve: Resolver, start: Files, change: FileChange, cur: Files, cur': Files,
                         scratch: set<Path>)
    requires StillThere(pid, start, cur, scratch) && ApplyOne(resolve, cur, change) == Some(cur')
    requires forall p :: p in Removed(resolve, change) && p in start ==> !IsBackupName(pid, p)
    ensures StillThere(pid, start, cur', scratch)
  {
    forall p | p in start && IsBackupName(pid, p) ensures p in cur' {
      assert p !in Removed(resolve, change) && p in cur;
    }
  }

  // ----- rollback, start to end -----

  /** What the log and the explanation together say of a path. */
  lemma PathTold(log: seq<Entry>, backups: seq<Backup>, start: Files, cur: Files, end: Files, m: Marks,
                 account: Account, p: Path)
    requires LeadsBack(log, cur, start, account.scratch) && Agrees(log, cur, end, m.tainted)
    requires Explained(backups, log, cur, end, m) && account.stayed == m.stayed
    requires forall p :: p in m.failed || p in m.missed ==> p !in SavedPaths(backups)
    requires p !in m.failed && p !in account.scratch && (p in account.lost <==> FirstMisjudged(log, p))
    ensures Told(start, end, account, p)
  {
    if p in account.lost {
      FirstMisjudgedHeld(log, cur, p);
    }
  }

  /** Before the removal of the backups, and after. */
  lemma CleanedUp(backups: seq<Backup>, log: seq<Entry>, start: Files, cur: Files, before: Files, end: Files,
                  m: Marks, account: Account)
    requires backups == BackupsOf(log) && Journal(log, cur, start, account.scratch)
    requires account.lost == LostPaths(log) && account.lost <= start.Keys + account.scratch
    requires account.missed == m.missed && account.stayed == m.stayed
    requires Agrees(log, cur, before, m.tainted) && Explained(backups, log, cur, before, m)
    requires SameExcept(before, end, SavedPaths(backups)) && forall p :: p in end ==> p in before
    ensures Undone(start, end, m.failed, account)
  {
    forall p ensures p in account.lost <==> FirstMisjudged(log, p) {
      LostIff(log, p);
    }
    if forall p :: p in m.failed || p in account.missed ==> p !in account.scratch {
      forall p | p !in m.failed && p !in account.scratch ensures Told(start, end, account, p) {
        PathTold(log, backups, start, cur, before, m, account, p);
        assert Get(before, p) == Get(end, p);
      }
    }
    if m.failed == [] && account.missed == {} && account.scratch !! end.Keys
       && account.scratch + account.lost !! start.Keys {
      SameMaps(start, end);
    }
  }

  lemma {:induction false} LostIff(log: seq<Entry>, p: Path)
    ensures p in LostPaths(log) <==> FirstMisjudged(log, p)
  {
    if log != [] {
      var backups := BackupsOf(log);
      assert backups == [log[0].backup] + BackupsOf(log[1..]);
      assert backups[0] in backups && forall b :: b in BackupsOf(log[1..]) ==> b in backups;
      if log[0].backup.target != p {
        LostIff(log[1..], p);
      }
    }
  }

  lemma {:induction false} FirstMisjudgedHeld(log: seq<Entry>, cur: Files, p: Path)
    requires FirstMisjudged(log, p)
    ensures Unwound(log, cur, p).Some?
  {
    if log[0].backup.target != p {
      FirstMisjudgedHeld(log[1..], cur, p);
    }
  }

  /** What was lost was there at the start, or is a backup file. */
  lemma LostWereThere(log: seq<Entry>, cur: Files, start: Files, scratch: set<Path>)
    requires Journal(log, cur, start, scratch)
    ensures LostPaths(log) <= start.Keys + scratch
  {
    forall p | p in LostPaths(log) ensures p in start.Keys + scratch {
      FirstMisjudgedHeld(log, cur, p);
    }
  }

  lemma {:induction false} NotTargeted(backups: seq<Backup>, cur: Files, p: Path)
    requires p !in TargetPaths(backups)
    ensures p in Replayed(cur, backups) <==> p in cur
    decreases |backups|
  {
    if backups != [] {
      var last := backups[|backups| - 1];
      assert last in backups && last.target != p;
      NotTargeted(backups[..|backups| - 1], RestoredOne(cur, last), p);
    }
  }

  /** A path whose first backup says it was absent is absent after a replay. */
  lemma {:induction false} FirstAbsentIsRemoved(backups: seq<Backup>, k: nat, cur: Files)
    requires k < |backups| && backups[k].saved.None? && backups[k].target !in TargetPaths(backups[..k])
    ensures backups[k].target !in Replayed(cur, backups)
    decreases |backups|
  {
    var n := |backups| - 1;
    if k == n {
      NotTargeted(backups[..n], RestoredOne(cur, backups[n]), backups[k].target);
    } else {
      assert backups[..n][..k] == backups[..k];
      FirstAbsentIsRemoved(backups[..n], k, RestoredOne(cur, backups[n]));
    }
  }

  lemma {:induction false} FirstMisjudgedAt(log: seq<Entry>, p: Path) returns (k: nat)
    requires FirstMisjudged(log, p)
    ensures k < |log| && Misjudged(log[k]) && log[k].backup.target == p && p !in TargetPaths(BackupsOf(log)[..k])
  {
    k := 0;
    if log[0].backup.target != p {
      var j := FirstMisjudgedAt(log[1..], p);
      k := j + 1;
      assert BackupsOf(log)[..k] == [log[0].backup] + BackupsOf(log[1..])[..j];
    }
  }

  /** The loss at a misjudged path: in a rollback where nothing goes wrong, the replay removes every file that
      was taken to be absent when first backed up. */
  lemma LostAreRemoved(log: seq<Entry>, cur: Files)
    ensures LostPaths(log) !! Replayed(cur, BackupsOf(log)).Keys
  {
    forall p | p in LostPaths(log) ensures p !in Replayed(cur, BackupsOf(log)) {
      var k := FirstMisjudgedAt(log, p);
      FirstAbsentIsRemoved(BackupsOf(log), k, cur);
    }
  }

  lemma SameMaps(a: Files, b: Files)
    requires SameExcept(a, b, {})
    ensures a == b
  {
    forall p ensures p in a <==> p in b {
      assert Get(a, p) == Get(b, p);
    }
    forall p | p in a ensures a[p] == b[p] {
      assert Get(a, p) == Get(b, p);
    }
  }

  lemma InStepBackup(resolve: Resolver, start: Files, done: seq<FileChange>,
                     cur: Files, cur': Files, scratch: set<Path>, scratch': set<Path>)
    requires InStep(resolve, start, done, cur, scratch) && scratch <= scratch'
    requires SameExcept(cur, cur', scratch') && cur.Keys <= cur'.Keys
    requires forall p :: p in scratch' - scratch ==> p !in cur
    ensures InStep(resolve, start, done, cur', scratch')
  {
    var f := ApplyAll(resolve, start, done).value;
    forall p | p in scratch' ensures p !in f {
      if p !in scratch {
        assert Get(f, p) == Get(cur, p);
      }
    }
  }

  lemma InStepChange(pid: nat, resolve: Resolver, start: Files, done: seq<FileChange>, change: FileChange,
                     cur: Files, cur': Files, scratch: set<Path>)
    requires InStep(resolve, start, done, cur, scratch)
    requires ApplyOne(resolve, cur, change) == Some(cur') && MustExist(resolve, change) <= cur.Keys
    requires forall p :: p in TargetSet(resolve, change) ==> !IsBackupName(pid, p)
    requires forall p :: p in scratch ==> IsBackupName(pid, p)
    ensures InStep(resolve, start, done + [change], cur', scratch)
  {
    var f := ApplyAll(resolve, start, done).value;
    FindsIff(resolve, start, done, f, change);
    AllFindSnoc(resolve, start, done, change);
    assert (done + [change])[..|done|] == done;
    assert ApplyAll(resolve, start, done + [change]) == ApplyOne(resolve, f, change);
    var ts := Targets(resolve, change).value;
    forall t | t in ts ensures t !in scratch && Get(f, t) == Get(cur, t) {
      assert t in TargetSet(resolve, change);
    }
    assert ts[0] in ts;
    if change.Rename? {
      assert ts[1] in ts;
    }
    var f' := ApplyOne(resolve, f, change).value;
    forall p | p !in scratch ensures Get(f', p) == Get(cur', p) {
      assert Get(f, p) == Get(cur, p);
    }
  }

  /** From `base` on, the log has the entries of the first of the targets, in order, and each copy
      went to a path that none of the targets so far names. */
  ghost predicate OwnEntries(log: seq<Entry>, base: nat, targets: seq<Path>) {
    forall k {:trigger log[k]} :: base <= k < |log| && k - base < |targets| ==>
      && log[k].backup.target == targets[k - base]
      && (log[k].backup.saved.Some? ==> log[k].backup.saved.value !in targets[..k - base + 1])
  }

  lemma OwnNext(resolve: Resolver, change: FileChange, targets: seq<Path>, log: seq<Entry>, base: nat, j: nat, e: Entry,
                cur: Files)
    requires Targets(resolve, change) == Some(targets) && MustExist(resolve, change) <= cur.Keys && j < |targets|
    requires |log| == base + j && OwnEntries(log, base, targets) && e.backup.target == targets[j]
    requires e.backup.saved.Some? ==> targets[j] in cur && e.backup.saved.value !in cur
    ensures OwnEntries(log + [e], base, targets)
  {
    var log' := log + [e];
    assert forall t :: t in targets[..j + 1] ==> t == targets[j] || t in MustExist(resolve, change);
    forall k {:trigger log'[k]} | base <= k < |log'| && k - base < |targets|
      ensures log'[k].backup.target == targets[k - base]
      ensures log'[k].backup.saved.Some? ==> log'[k].backup.saved.value !in targets[..k - base + 1]
    {
      assert k < |log| ==> log'[k] == log[k];
    }
  }

  lemma CoveredByOwnEntries(log: seq<Entry>, base: nat, targets: seq<Path>)
    requires |log| == base + |targets| && OwnEntries(log, base, targets)
    ensures Covered(log, base, set t | t in targets)
  {
    forall k, t | base <= k <= |log| && t in targets && t !in targets[..k - base]
      ensures t in TargetPaths(BackupsOf(log[k..]))
    {
      var m :| 0 <= m < |targets| && targets[m] == t;
      assert m >= k - base;
      assert log[base + m].backup.target == t;
      assert BackupsOf(log[k..])[base + m - k].target == t;
    }
  }
}
