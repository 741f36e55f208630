/**
 The changes of a file batch: what each does to the files of a file system, one by one and in
 sequence, and what they leave at each path.
 */
module AtomicChanges {
  import opened Common

  type Content = seq<byte>

  datatype Path = Path(dir: string, name: string)

  type Files = map<Path, Content>

  type Resolver = string -> Option<Path>

  datatype FileChange =
    | Create(path: string, content: Content)
    | Update(path: string, content: Content)
    | Delete(path: string)
    | Rename(from: string, to: string, content: Content)

  // ----- what a change means -----

  /** The resolved paths a change touches; None if one of them does not resolve. */
  function Targets(resolve: Resolver, change: FileChange): Option<seq<Path>> {
    match change
    case Rename(from, to, _) =>
      if resolve(from).Some? && resolve(to).Some? then Some([resolve(from).value, resolve(to).value]) else None
    case _ =>
      if resolve(change.path).Some? then Some([resolve(change.path).value]) else None
  }

  /** The paths whose file must already be there for the change to resolve. */
  function MustExist(resolve: Resolver, change: FileChange): set<Path> {
    match change
    case Create(_, _) => {}
    case Rename(from, _, _) => if resolve(from).Some? then {resolve(from).value} else {}
    case _ => if resolve(change.path).Some? then {resolve(change.path).value} else {}
  }

  function TargetSet(resolve: Resolver, change: FileChange): set<Path> {
    match Targets(resolve, change)
    case None => {}
    case Some(ts) => set t | t in ts
  }

  lemma TargetsAreTargets(resolve: Resolver, change: FileChange)
    requires Targets(resolve, change).Some?
    ensures Targets(resolve, change).value[0] in TargetSet(resolve, change)
    ensures change.Rename? ==> Targets(resolve, change).value[1] in TargetSet(resolve, change)
  {
    var ts := Targets(resolve, change).value;
    assert ts[0] in ts && (change.Rename? ==> ts[1] in ts);
  }

  /** The effect of one change that succeeds, on an undisturbed file system. */
  function ApplyOne(resolve: Resolver, files: Files, change: FileChange): Option<Files> {
    match Targets(resolve, change)
    case None => None
    case Some(ts) =>
      match change
      case Create(_, content) => if ts[0] in files then None else Some(files[ts[0] := content])
      case Update(_, content) => Some(files[ts[0] := content])
      case Delete(_) => if ts[0] in files then Some(files - {ts[0]}) else None
      case Rename(_, _, content) => if ts[0] in files then Some((files - {ts[0]})[ts[1] := content]) else None
  }

  /** Left-to-right sequential application. */
  function ApplyAll(resolve: Resolver, files: Files, changes: seq<FileChange>): Option<Files> {
    if changes == [] then Some(files)
    else
      match ApplyAll(resolve, files, changes[..|changes| - 1])
      case None => None
      case Some(mid) => ApplyOne(resolve, mid, changes[|changes| - 1])
  }

  /** The paths some change of the batch targets. */
  function Touched(resolve: Resolver, changes: seq<FileChange>): set<Path> {
    if changes == [] then {}
    else Touched(resolve, changes[..|changes| - 1]) + TargetSet(resolve, changes[|changes| - 1])
  }

  lemma TouchedSnoc(resolve: Resolver, done: seq<FileChange>, change: FileChange)
    ensures Touched(resolve, done + [change]) == Touched(resolve, done) + TargetSet(resolve, change)
  {
    assert (done + [change])[..|done|] == done;
  }

  lemma {:induction false} TouchedGrows(resolve: Resolver, changes: seq<FileChange>, i: nat)
    requires i <= |changes|
    ensures Touched(resolve, changes[..i]) <= Touched(resolve, changes)
    decreases |changes|
  {
    if i == |changes| {
      assert changes[..i] == changes;
    } else {
      var front := changes[..|changes| - 1];
      assert front[..i] == changes[..i];
      TouchedGrows(resolve, front, i);
    }
  }

  lemma TouchedAt(resolve: Resolver, changes: seq<FileChange>, i: nat)
    requires i < |changes|
    ensures TargetSet(resolve, changes[i]) <= Touched(resolve, changes)
  {
    assert changes[..i + 1] == changes[..i] + [changes[i]];
    TouchedSnoc(resolve, changes[..i], changes[i]);
    TouchedGrows(resolve, changes, i + 1);
  }

  function DisplayPaths(changes: seq<FileChange>): seq<string> {
    if changes == [] then []
    else DisplayPaths(changes[..|changes| - 1]) + ChangeDisplayPaths(changes[|changes| - 1])
  }

  function ChangeDisplayPaths(change: FileChange): seq<string> {
    match change
    case Rename(from, to, _) => [from, to]
    case _ => [change.path]
  }

  // ----- what an applied change leaves, path by path -----

  /** What the change writes at p, if it does: it creates or updates p, or renames something to it. */
  function Written(resolve: Resolver, change: FileChange, p: Path): Option<Content> {
    match change
    case Create(path, content) => if resolve(path) == Some(p) then Some(content) else None
    case Update(path, content) => if resolve(path) == Some(p) then Some(content) else None
    case Delete(_) => None
    case Rename(_, to, content) => if resolve(to) == Some(p) then Some(content) else None
  }

  /** The change leaves nothing at p: it deletes p, or renames it to something else. */
  predicate RemovesAt(resolve: Resolver, change: FileChange, p: Path) {
    match change
    case Delete(path) => resolve(path) == Some(p)
    case Rename(from, to, _) => resolve(from) == Some(p) && resolve(to) != Some(p)
    case _ => false
  }

  predicate NamesPath(resolve: Resolver, change: FileChange, p: Path) {
    RemovesAt(resolve, change, p) || Written(resolve, change, p).Some?
  }

  /** What p holds after the change, given the files before. */
  ghost predicate Leaves(resolve: Resolver, change: FileChange, before: Files, after: Files, p: Path) {
    if NamesPath(resolve, change, p) then Get(after, p) == Written(resolve, change, p)
    else Get(after, p) == Get(before, p)
  }

  /** Among these files the change finds what it needs to apply: nothing where it creates, a file where it deletes or
      renames. */
  predicate FindsHere(resolve: Resolver, files: Files, change: FileChange) {
    match change
    case Create(path, _) => resolve(path).Some? && resolve(path).value !in files
    case Update(path, _) => resolve(path).Some?
    case Delete(path) => resolve(path).Some? && resolve(path).value in files
    case Rename(from, to, _) => resolve(from).Some? && resolve(from).value in files && resolve(to).Some?
  }

  /** Whether p holds a file after the first n changes, each having found what it needs. */
  predicate PresentAfter(resolve: Resolver, start: Files, changes: seq<FileChange>, n: nat, p: Path)
    requires n <= |changes|
  {
    if n == 0 then p in start
    else if NamesPath(resolve, changes[n - 1], p) then Written(resolve, changes[n - 1], p).Some?
    else PresentAfter(resolve, start, changes, n - 1, p)
  }

  /** The i-th change finds what it needs: nothing where it creates, a file where it updates, deletes or renames. */
  predicate FindsAt(resolve: Resolver, start: Files, changes: seq<FileChange>, i: nat)
    requires i < |changes|
  {
    match changes[i]
    case Create(path, _) =>
      resolve(path).Some? && !PresentAfter(resolve, start, changes, i, resolve(path).value)
    case Update(path, _) =>
      resolve(path).Some? && PresentAfter(resolve, start, changes, i, resolve(path).value)
    case Delete(path) =>
      resolve(path).Some? && PresentAfter(resolve, start, changes, i, resolve(path).value)
    case Rename(from, to, _) =>
      resolve(from).Some? && PresentAfter(resolve, start, changes, i, resolve(from).value) && resolve(to).Some?
  }

  /** Every change finds what it needs. */
  predicate AllFind(resolve: Resolver, start: Files, changes: seq<FileChange>) {
    forall i :: 0 <= i < |changes| ==> FindsAt(resolve, start, changes, i)
  }

  ghost predicate LastToName(resolve: Resolver, changes: seq<FileChange>, p: Path, i: nat)
    requires i < |changes|
  {
    NamesPath(resolve, changes[i], p) && forall j :: i < j < |changes| ==> !NamesPath(resolve, changes[j], p)
  }

  /** The last change that names p settles what it holds: the content it wrote there, or nothing if it wrote none.
      If no change names p, it holds what it held at the start. */
  ghost predicate Settled(resolve: Resolver, changes: seq<FileChange>, start: Files, end: Files, p: Path) {
    || (Get(end, p) == Get(start, p) && forall i :: 0 <= i < |changes| ==> !NamesPath(resolve, changes[i], p))
    || (exists i :: 0 <= i < |changes| && LastToName(resolve, changes, p, i)
                    && Get(end, p) == Written(resolve, changes[i], p))
  }

  lemma OneLeaves(resolve: Resolver, files: Files, change: FileChange, files': Files, p: Path)
    requires ApplyOne(resolve, files, change) == Some(files')
    ensures Leaves(resolve, change, files, files', p)
  {
  }

  /** Sequential application settles every path. */
  lemma {:induction false} AppliedSettles(resolve: Resolver, start: Files, changes: seq<FileChange>, end: Files,
                                          p: Path)
    requires ApplyAll(resolve, start, changes) == Some(end)
    ensures Settled(resolve, changes, start, end, p)
    decreases |changes|
  {
    if changes != [] {
      var n := |changes| - 1;
      var front := changes[..n];
      var mid := ApplyAll(resolve, start, front).value;
      AppliedSettles(resolve, start, front, mid, p);
      OneLeaves(resolve, mid, changes[n], end, p);
      SettledSnoc(resolve, start, front, mid, changes[n], end, changes, p);
    }
  }

  lemma SettledSnoc(resolve: Resolver, start: Files, front: seq<FileChange>, mid: Files, last: FileChange, end: Files,
                    changes: seq<FileChange>, p: Path)
    requires changes == front + [last] && Settled(resolve, front, start, mid, p) && Leaves(resolve, last, mid, end, p)
    ensures Settled(resolve, changes, start, end, p)
  {
    var n := |front|;
    assert changes[n] == last && forall i :: 0 <= i < n ==> changes[i] == front[i];
    if NamesPath(resolve, last, p) {
      assert LastToName(resolve, changes, p, n);
    } else if i :| 0 <= i < n && LastToName(resolve, front, p, i) && Get(mid, p) == Written(resolve, front[i], p) {
      assert LastToName(resolve, changes, p, i);
    }
  }

  lemma {:induction false} PresentIs(resolve: Resolver, start: Files, changes: seq<FileChange>, end: Files, p: Path)
    requires ApplyAll(resolve, start, changes) == Some(end)
    ensures PresentAfter(resolve, start, changes, |changes|, p) <==> p in end
    decreases |changes|
  {
    if changes != [] {
      var n := |changes| - 1;
      var mid := ApplyAll(resolve, start, changes[..n]).value;
      PresentIs(resolve, start, changes[..n], mid, p);
      PresentOfFront(resolve, start, changes, changes[..n], n, p);
      OneLeaves(resolve, mid, changes[n], end, p);
    }
  }

  lemma {:induction false} PresentOfFront(resolve: Resolver, start: Files, changes: seq<FileChange>,
                                          front: seq<FileChange>, n: nat, p: Path)
    requires n <= |front| <= |changes| && front == changes[..|front|]
    ensures PresentAfter(resolve, start, changes, n, p) == PresentAfter(resolve, start, front, n, p)
  {
    if n > 0 {
      PresentOfFront(resolve, start, changes, front, n - 1, p);
      assert changes[n - 1] == front[n - 1];
    }
  }

  /** A change that applies found what it needs, if where it updates a file was there; and if it found what it needs
      it applies. */
  lemma FindsIff(resolve: Resolver, start: Files, done: seq<FileChange>, files: Files, change: FileChange)
    requires ApplyAll(resolve, start, done) == Some(files)
    ensures FindsAt(resolve, start, done + [change], |done|) <==>
            ApplyOne(resolve, files, change).Some? && MustExist(resolve, change) <= files.Keys
  {
    var changes := done + [change];
    assert changes[|done|] == change;
    forall p ensures PresentAfter(resolve, start, changes, |done|, p) <==> p in files {
      PresentOfFront(resolve, start, changes, done, |done|, p);
      PresentIs(resolve, start, done, files, p);
    }
  }

  lemma AllFindSnoc(resolve: Resolver, start: Files, done: seq<FileChange>, change: FileChange)
    ensures AllFind(resolve, start, done + [change]) <==>
            AllFind(resolve, start, done) && FindsAt(resolve, start, done + [change], |done|)
  {
    var changes := done + [change];
    forall i | 0 <= i < |done| ensures FindsAt(resolve, start, changes, i) <==> FindsAt(resolve, start, done, i) {
      assert changes[i] == done[i];
      forall p ensures PresentAfter(resolve, start, changes, i, p) == PresentAfter(resolve, start, done, i, p) {
        PresentOfFront(resolve, start, changes, done, i, p);
      }
    }
  }

  // ----- what no change names -----

  /** Nothing has changed but paths that some change names, and these. */
  ghost predicate OnlyNamed(resolve: Resolver, changes: seq<FileChange>, before: Files, after: Files, others: set<Path>)
  {
    forall p :: Get(before, p) == Get(after, p) || p in others || Named(resolve, changes, p)
  }

  ghost predicate Named(resolve: Resolver, changes: seq<FileChange>, p: Path) {
    exists i :: 0 <= i < |changes| && NamesPath(resolve, changes[i], p)
  }

  lemma {:induction false} TouchedIsNamed(resolve: Resolver, changes: seq<FileChange>, p: Path)
    requires p in Touched(resolve, changes)
    ensures Named(resolve, changes, p)
    decreases |changes|
  {
    var n := |changes| - 1;
    if p in Touched(resolve, changes[..n]) {
      TouchedIsNamed(resolve, changes[..n], p);
      var i :| 0 <= i < n && NamesPath(resolve, changes[..n][i], p);
      assert NamesPath(resolve, changes[i], p);
    } else {
      assert p in TargetSet(resolve, changes[n]);
      assert NamesPath(resolve, changes[n], p);
    }
  }

  lemma OnlyNamedIs(resolve: Resolver, changes: seq<FileChange>, before: Files, after: Files, others: set<Path>)
    requires forall p :: p !in Touched(resolve, changes) + others ==> Get(before, p) == Get(after, p)
    ensures OnlyNamed(resolve, changes, before, after, others)
  {
    forall p | p in Touched(resolve, changes) ensures Named(resolve, changes, p) {
      TouchedIsNamed(resolve, changes, p);
    }
  }

  // ----- what is displayed -----

  /** The paths are those of the changes in order: of a rename the source and then the destination. */
  ghost predicate Displays(changes: seq<FileChange>, paths: seq<string>) {
    exists at: seq<nat> :: DisplaysAt(changes, paths, at)
  }

  ghost predicate DisplaysAt(changes: seq<FileChange>, paths: seq<string>, at: seq<nat>) {
    && |at| == |changes| + 1 && at[0] == 0 && at[|changes|] == |paths|
    && forall i :: 0 <= i < |changes| ==> DisplayedAt(changes[i], paths, at[i], at[i + 1])
  }

  predicate DisplayedAt(change: FileChange, paths: seq<string>, from: nat, to: nat) {
    from < to <= |paths| &&
    match change
    case Create(path, _) => to == from + 1 && paths[from] == path
    case Update(path, _) => to == from + 1 && paths[from] == path
    case Delete(path) => to == from + 1 && paths[from] == path
    case Rename(source, destination, _) => to == from + 2 && paths[from] == source && paths[from + 1] == destination
  }

  lemma DisplayedOn(change: FileChange, front: seq<string>, more: seq<string>, paths: seq<string>, from: nat, to: nat)
    requires DisplayedAt(change, front, from, to) && paths == front + more
    ensures DisplayedAt(change, paths, from, to)
  {
  }

  lemma LastDisplayed(change: FileChange, front: seq<string>, paths: seq<string>)
    requires paths == front + ChangeDisplayPaths(change)
    ensures DisplayedAt(change, paths, |front|, |paths|)
  {
  }

  lemma {:induction false} DisplayPathsDisplay(changes: seq<FileChange>)
    ensures Displays(changes, DisplayPaths(changes))
  {
    if changes == [] {
      assert DisplaysAt(changes, [], [0]);
    } else {
      var n := |changes| - 1;
      var front, paths := DisplayPaths(changes[..n]), DisplayPaths(changes);
      DisplayPathsDisplay(changes[..n]);
      var at: seq<nat> :| DisplaysAt(changes[..n], front, at);
      forall i | 0 <= i < n ensures DisplayedAt(changes[i], paths, at[i], at[i + 1]) {
        assert changes[..n][i] == changes[i];
        DisplayedOn(changes[i], front, ChangeDisplayPaths(changes[n]), paths, at[i], at[i + 1]);
      }
      LastDisplayed(changes[n], front, paths);
      assert DisplaysAt(changes, paths, at + [|paths|]);
    }
  }
}
