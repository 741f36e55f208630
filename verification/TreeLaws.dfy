/** What rendering a directory shows, what it counts as omitted, and what it hides by policy. */
module TreeLaws {
  import opened Common
  import opened Orders
  import opened Tree
  import opened TreeRender

  // ----- conservation -----

  /** The nodes of a forest. */
  function Size(nodes: seq<Node>): nat {
    if nodes == [] then 0 else Size(nodes[..|nodes| - 1]) + 1 + Size(nodes[|nodes| - 1].children)
  }

  /** The directory node of a name. */
  function DirNamed(nodes: seq<Node>, name: string): Option<Node> {
    if nodes == [] then None
    else if nodes[|nodes| - 1].kind == Directory && nodes[|nodes| - 1].name == name then Some(nodes[|nodes| - 1])
    else DirNamed(nodes[..|nodes| - 1], name)
  }

  /** The entries that policy hides in the directories the shown nodes visit: pruned directories with all
      they contain, and files where only directories are asked for. */
  ghost function Hidden(d: Dir, shown: seq<Node>, ctx: Context): nat
    decreases d, 2
  {
    HiddenDirs(d, InOrder(d.dirs.Keys), shown, ctx) + if ctx.foldersOnly then |d.files| else 0
  }

  ghost function HiddenDirs(d: Dir, names: seq<string>, shown: seq<Node>, ctx: Context): nat
    decreases d, 1, |names|
  {
    if names == [] then 0
    else
      var name := names[|names| - 1];
      HiddenDirs(d, names[..|names| - 1], shown, ctx) + HiddenAt(d, name, DirNamed(shown, name), ctx)
  }

  ghost function HiddenAt(d: Dir, name: string, shown: Option<Node>, ctx: Context): nat
    decreases d, 0
  {
    if name !in d.dirs then 0
    else if ctx.pruned(name) then 1 + Count(d.dirs[name])
    else if shown.None? then 0
    else Hidden(d.dirs[name], shown.value.children, ctx)
  }

  lemma NodesSnoc(front: seq<Node>, last: Node, name: string)
    ensures Size(front + [last]) == Size(front) + 1 + Size(last.children)
    ensures DirNamed(front + [last], name)
         == if last.kind == Directory && last.name == name then Some(last) else DirNamed(front, name)
  {
    assert (front + [last])[..|front|] == front;
  }

  lemma HiddenSnoc(d: Dir, front: seq<string>, name: string, names: seq<string>, shown: seq<Node>, ctx: Context)
    requires names == front + [name]
    ensures HiddenDirs(d, names, shown, ctx)
         == HiddenDirs(d, front, shown, ctx) + HiddenAt(d, name, DirNamed(shown, name), ctx)
  {
    assert names[..|front|] == front;
  }

  lemma {:induction false} HiddenSame(d: Dir, names: seq<string>, a: seq<Node>, b: seq<Node>, ctx: Context)
    requires forall n :: n in names ==> DirNamed(a, n) == DirNamed(b, n)
    ensures HiddenDirs(d, names, a, ctx) == HiddenDirs(d, names, b, ctx)
    decreases |names|
  {
    if names != [] {
      var front, name := names[..|names| - 1], names[|names| - 1];
      assert names == front + [name] && name in names;
      HiddenSame(d, front, a, b, ctx);
      HiddenSnoc(d, front, name, names, a, ctx);
      HiddenSnoc(d, front, name, names, b, ctx);
    }
  }

  lemma DistinctSnoc<T>(names: seq<T>, front: seq<T>, name: T)
    requires names == front + [name] && Distinct(names)
    ensures Distinct(front) && name !in front && name in names && forall n :: n in front ==> n in names
  {
    assert forall i :: 0 <= i < |front| ==> names[i] == front[i];
    assert names[|front|] == name;
  }

  /** Only the directories dealt with have a node. */
  lemma {:induction false} DirsAbsent(d: Dir, names: seq<string>, depth: nat, ctx: Context, n: string)
    requires (forall x :: x in names ==> x in d.dirs) && n !in names
    ensures DirNamed(DirsPart(d, names, depth, ctx).nodes, n) == None
    decreases |names|
  {
    if names != [] {
      var front, name := names[..|names| - 1], names[|names| - 1];
      assert names == front + [name] && name in names;
      DirsAbsent(d, front, depth, ctx, n);
      var r := DirsPart(d, front, depth, ctx);
      DirsSnoc(d, front, name, names, depth, ctx, r);
      NodesSnoc(r.nodes, DirNode(name, Render(d.dirs[name], depth + 1, ctx).nodes), n);
    }
  }

  lemma HiddenAppended(d: Dir, names: seq<string>, nodes: seq<Node>, last: Node, ctx: Context)
    requires last.kind == File || last.name !in names
    ensures HiddenDirs(d, names, nodes + [last], ctx) == HiddenDirs(d, names, nodes, ctx)
  {
    forall n | n in names ensures DirNamed(nodes, n) == DirNamed(nodes + [last], n) {
      NodesSnoc(nodes, last, n);
    }
    HiddenSame(d, names, nodes, nodes + [last], ctx);
  }

  ghost predicate DirsBalance(d: Dir, names: seq<string>, r: Rendered, ctx: Context) {
    Size(r.nodes) + r.omitted + HiddenDirs(d, names, r.nodes, ctx) == |names| + CountBelow(d, names)
  }

  lemma {:induction false} DirsConserve(d: Dir, names: seq<string>, depth: nat, ctx: Context)
    requires Distinct(names) && forall n :: n in names ==> n in d.dirs
    ensures DirsBalance(d, names, DirsPart(d, names, depth, ctx), ctx)
    decreases d, 0, |names|
  {
    if names != [] {
      var front, name := names[..|names| - 1], names[|names| - 1];
      assert names == front + [name];
      DistinctSnoc(names, front, name);
      DirsConserve(d, front, depth, ctx);
      DirsAbsent(d, front, depth, ctx, name);
      DirsConserveStep(d, front, name, names, depth, ctx, DirsPart(d, front, depth, ctx));
    }
  }

  lemma {:induction false} DirsConserveStep(
    d: Dir, front: seq<string>, name: string, names: seq<string>, depth: nat, ctx: Context, r: Rendered)
    requires names == front + [name] && name !in front && name in d.dirs
    requires r == DirsPart(d, front, depth, ctx) && DirsBalance(d, front, r, ctx) && DirNamed(r.nodes, name) == None
    ensures DirsBalance(d, names, DirsPart(d, names, depth, ctx), ctx)
    decreases d, 0, |names|, 0
  {
    DirsSnoc(d, front, name, names, depth, ctx, r);
    CountSnoc(d, front, name, names);
    if ctx.pruned(name) || ctx.TooDeep(depth) || ctx.IsFull(|r.nodes|) {
      HiddenSnoc(d, front, name, names, r.nodes, ctx);
    } else {
      RenderConserves(d.dirs[name], depth + 1, ctx);
      var node := DirNode(name, Render(d.dirs[name], depth + 1, ctx).nodes);
      NodesSnoc(r.nodes, node, name);
      HiddenAppended(d, front, r.nodes, node, ctx);
      HiddenSnoc(d, front, name, names, r.nodes + [node], ctx);
    }
  }

  lemma {:induction false} FilesConserve(
    d: Dir, dirNames: seq<string>, names: seq<string>, ctx: Context, dirs: Rendered, r: Rendered)
    requires (forall n :: n in names ==> n in d.files) && r == FilesPart(d.files, names, ctx, dirs)
    ensures Size(r.nodes) + r.omitted == Size(dirs.nodes) + dirs.omitted + |names|
    ensures HiddenDirs(d, dirNames, r.nodes, ctx) == HiddenDirs(d, dirNames, dirs.nodes, ctx)
    decreases |names|
  {
    if names != [] {
      var front, name := names[..|names| - 1], names[|names| - 1];
      assert names == front + [name] && name in names;
      var q := FilesPart(d.files, front, ctx, dirs);
      FilesConserve(d, dirNames, front, ctx, dirs, q);
      FilesSnoc(d.files, front, name, names, ctx, dirs, q);
      var node := FileNode(name, d.files[name], ctx);
      NodesSnoc(q.nodes, node, name);
      HiddenAppended(d, dirNames, q.nodes, node, ctx);
    }
  }

  /** Every entry below a directory is shown, counted as omitted, or hidden by policy: for every depth limit,
      cap, pruning policy and switch. */
  lemma {:induction false} RenderConserves(d: Dir, depth: nat, ctx: Context)
    ensures Size(Render(d, depth, ctx).nodes) + Render(d, depth, ctx).omitted
            + Hidden(d, Render(d, depth, ctx).nodes, ctx) == Count(d)
    decreases d, 1
  {
    InOrderElements(d.dirs.Keys);
    DirsConserve(d, InOrder(d.dirs.Keys), depth, ctx);
    assert |d.dirs| == |d.dirs.Keys| && |d.files| == |d.files.Keys|;
    if !ctx.foldersOnly {
      InOrderElements(d.files.Keys);
      FilesConserve(
        d, InOrder(d.dirs.Keys), InOrder(d.files.Keys), ctx, DirsPart(d, InOrder(d.dirs.Keys), depth, ctx),
        Render(d, depth, ctx));
    }
  }

  // ----- without a policy nothing is hidden -----

  ghost predicate NoPolicy(ctx: Context) {
    !ctx.foldersOnly && forall n :: !ctx.pruned(n)
  }

  lemma {:induction false} NothingHiddenBelow(d: Dir, names: seq<string>, shown: seq<Node>, ctx: Context)
    requires NoPolicy(ctx)
    ensures HiddenDirs(d, names, shown, ctx) == 0
    decreases d, 0, |names|
  {
    if names != [] {
      var name := names[|names| - 1];
      NothingHiddenBelow(d, names[..|names| - 1], shown, ctx);
      if name in d.dirs && DirNamed(shown, name).Some? {
        NothingHidden(d.dirs[name], DirNamed(shown, name).value.children, ctx);
      }
    }
  }

  lemma {:induction false} NothingHidden(d: Dir, shown: seq<Node>, ctx: Context)
    requires NoPolicy(ctx)
    ensures Hidden(d, shown, ctx) == 0
    decreases d, 1
  {
    NothingHiddenBelow(d, InOrder(d.dirs.Keys), shown, ctx);
  }

  // ----- which entries a level shows -----

  datatype Tag = Tag(name: string, kind: Kind)

  function Tags(nodes: seq<Node>): seq<Tag> {
    seq(|nodes|, i requires 0 <= i < |nodes| => Tag(nodes[i].name, nodes[i].kind))
  }

  /** The directories not pruned. */
  function Unpruned(names: seq<string>, ctx: Context): seq<Tag> {
    if names == [] then []
    else
      var kept := Unpruned(names[..|names| - 1], ctx);
      if ctx.pruned(names[|names| - 1]) then kept else kept + [Tag(names[|names| - 1], Directory)]
  }

  function FileTags(names: seq<string>): seq<Tag> {
    seq(|names|, i requires 0 <= i < |names| => Tag(names[i], File))
  }

  function Capped<T>(s: seq<T>, cap: Option<nat>): seq<T> {
    if cap.Some? && cap.value < |s| then s[..cap.value] else s
  }

  /** The markers of a file: selected if its key is in the selection, and then codemap if its path supports one. */
  predicate MarkedAs(markers: seq<Marker>, file: FileData, ctx: Context) {
    && (Selected in markers <==> SelectionKey(file.rootId, file.relPath) in ctx.selection)
    && (Codemap in markers <==> ctx.supportsCodemap(file.relPath))
    && (forall i, j :: 0 <= i < j < |markers| ==> markers[i] == Selected && markers[j] == Codemap)
  }

  /** A node stands for the entry of its name: a directory, under its bare name and unmarked, with the rendering of its
      subdirectory one level down; or a file with its path and markers. */
  ghost predicate Stands(d: Dir, depth: nat, ctx: Context, node: Node) {
    if node.kind == Directory
    then
      && node.name in d.dirs && node.path == node.name && node.markers == []
      && node.children == Render(d.dirs[node.name], depth + 1, ctx).nodes
    else
      && node.name in d.files && node.path == d.files[node.name].path && node.children == []
      && MarkedAs(node.markers, d.files[node.name], ctx)
  }

  lemma FileStands(d: Dir, depth: nat, ctx: Context, name: string)
    requires name in d.files
    ensures Stands(d, depth, ctx, FileNode(name, d.files[name], ctx))
  {
  }

  lemma TagsSnoc(front: seq<Node>, last: Node)
    ensures Tags(front + [last]) == Tags(front) + [Tag(last.name, last.kind)]
  {
  }

  lemma CappedSnoc<T>(s: seq<T>, x: T, cap: Option<nat>)
    ensures Capped(s + [x], cap)
         == if cap.Some? && |Capped(s, cap)| >= cap.value then Capped(s, cap) else Capped(s, cap) + [x]
  {
  }

  lemma UnprunedSnoc(front: seq<string>, name: string, names: seq<string>, ctx: Context)
    requires names == front + [name]
    ensures Unpruned(names, ctx)
         == if ctx.pruned(name) then Unpruned(front, ctx) else Unpruned(front, ctx) + [Tag(name, Directory)]
  {
    assert names[..|front|] == front;
  }

  lemma {:induction false} DirsShown(d: Dir, names: seq<string>, depth: nat, ctx: Context, r: Rendered)
    requires (forall n :: n in names ==> n in d.dirs) && r == DirsPart(d, names, depth, ctx)
    ensures Tags(r.nodes) == if ctx.TooDeep(depth) then [] else Capped(Unpruned(names, ctx), ctx.siblingCap)
    decreases |names|
  {
    if names != [] {
      var front, name := names[..|names| - 1], names[|names| - 1];
      assert names == front + [name] && name in names;
      var q := DirsPart(d, front, depth, ctx);
      DirsShown(d, front, depth, ctx, q);
      DirsSnoc(d, front, name, names, depth, ctx, q);
      UnprunedSnoc(front, name, names, ctx);
      if !ctx.pruned(name) && !ctx.TooDeep(depth) {
        assert |Tags(q.nodes)| == |q.nodes|;
        CappedSnoc(Unpruned(front, ctx), Tag(name, Directory), ctx.siblingCap);
        if !ctx.IsFull(|q.nodes|) {
          TagsSnoc(q.nodes, DirNode(name, Render(d.dirs[name], depth + 1, ctx).nodes));
        }
      }
    }
  }

  lemma {:induction false} DirsStand(d: Dir, names: seq<string>, depth: nat, ctx: Context, r: Rendered)
    requires (forall n :: n in names ==> n in d.dirs) && r == DirsPart(d, names, depth, ctx)
    ensures forall node :: node in r.nodes ==> Stands(d, depth, ctx, node)
    decreases |names|
  {
    if names != [] {
      var front, name := names[..|names| - 1], names[|names| - 1];
      assert names == front + [name] && name in names;
      var q := DirsPart(d, front, depth, ctx);
      DirsStand(d, front, depth, ctx, q);
      DirsSnoc(d, front, name, names, depth, ctx, q);
    }
  }

  lemma FileTagsSnoc(front: seq<string>, name: string, before: seq<Tag>)
    ensures before + FileTags(front + [name]) == (before + FileTags(front)) + [Tag(name, File)]
  {
  }

  lemma {:induction false} FilesShown(
    d: Dir, names: seq<string>, depth: nat, ctx: Context, dirs: Rendered, before: seq<Tag>, r: Rendered)
    requires (forall n :: n in names ==> n in d.files) && r == FilesPart(d.files, names, ctx, dirs)
    requires Tags(dirs.nodes) == Capped(before, ctx.siblingCap)
    requires forall node :: node in dirs.nodes ==> Stands(d, depth, ctx, node)
    ensures Tags(r.nodes) == Capped(before + FileTags(names), ctx.siblingCap)
    ensures forall node :: node in r.nodes ==> Stands(d, depth, ctx, node)
    decreases |names|
  {
    if names == [] {
      assert before + FileTags(names) == before;
    } else {
      var front, name := names[..|names| - 1], names[|names| - 1];
      assert names == front + [name] && name in names;
      var q := FilesPart(d.files, front, ctx, dirs);
      FilesShown(d, front, depth, ctx, dirs, before, q);
      FilesSnoc(d.files, front, name, names, ctx, dirs, q);
      FileStands(d, depth, ctx, name);
      FileTagsSnoc(front, name, before);
      TagsSnoc(q.nodes, FileNode(name, d.files[name], ctx));
      CappedSnoc(before + FileTags(front), Tag(name, File), ctx.siblingCap);
      assert |Tags(q.nodes)| == |q.nodes|;
    }
  }

  /** A level shows, up to the cap, first its unpruned directories in order (none of them beyond the depth limit)
      and then its files in order, and each node stands for its entry. */
  lemma RenderShows(d: Dir, depth: nat, ctx: Context, r: Rendered)
    requires r == Render(d, depth, ctx)
    ensures Tags(r.nodes)
         == Capped(
              (if ctx.TooDeep(depth) then [] else Unpruned(InOrder(d.dirs.Keys), ctx))
              + (if ctx.foldersOnly then [] else FileTags(InOrder(d.files.Keys))),
              ctx.siblingCap)
    ensures forall node :: node in r.nodes ==> Stands(d, depth, ctx, node)
  {
    InOrderElements(d.dirs.Keys);
    InOrderElements(d.files.Keys);
    var dirs := DirsPart(d, InOrder(d.dirs.Keys), depth, ctx);
    DirsShown(d, InOrder(d.dirs.Keys), depth, ctx, dirs);
    DirsStand(d, InOrder(d.dirs.Keys), depth, ctx, dirs);
    var before := if ctx.TooDeep(depth) then [] else Unpruned(InOrder(d.dirs.Keys), ctx);
    assert Tags(dirs.nodes) == Capped(before, ctx.siblingCap);
    if ctx.foldersOnly {
      assert before + [] == before;
    } else {
      FilesShown(d, InOrder(d.files.Keys), depth, ctx, dirs, before, r);
    }
  }
}
