/**
 Turning a directory into the nodes of a file tree under a depth limit, a cap on the entries shown per
 directory, a pruning policy and a directories-only switch, counting what the limits leave out.
 */
module TreeRender {
  import opened Common
  import opened Orders
  import opened Tree

  datatype Kind = Directory | File

  datatype Marker = Selected | Codemap

  datatype Node = Node(name: string, path: string, kind: Kind, markers: seq<Marker>, children: seq<Node>)

  datatype SelectionKey = SelectionKey(rootId: string, path: string)

  /** None stands for no limit. */
  datatype Context = Context(
    maxDepth: Option<nat>, siblingCap: Option<nat>, pruned: string -> bool, foldersOnly: bool,
    selection: set<SelectionKey>, supportsCodemap: string -> bool)
  {
    predicate TooDeep(depth: nat) { maxDepth.Some? && depth >= maxDepth.value }

    predicate IsFull(emitted: nat) { siblingCap.Some? && emitted >= siblingCap.value }
  }

  function Markers(file: FileData, ctx: Context): seq<Marker> {
    (if SelectionKey(file.rootId, file.relPath) in ctx.selection then [Selected] else [])
    + (if ctx.supportsCodemap(file.relPath) then [Codemap] else [])
  }

  function FileNode(name: string, file: FileData, ctx: Context): Node {
    Node(name, file.path, File, Markers(file, ctx), [])
  }

  function DirNode(name: string, children: seq<Node>): Node {
    Node(name, name, Directory, [], children)
  }

  // ----- counting -----

  /** All entries below a directory, files and directories. */
  ghost function Count(d: Dir): nat
    decreases d, 1
  {
    |d.files| + |d.dirs| + CountBelow(d, InOrder(d.dirs.Keys))
  }

  ghost function CountBelow(d: Dir, names: seq<string>): nat
    decreases d, 0, |names|
  {
    if names == [] then 0
    else
      var name := names[|names| - 1];
      CountBelow(d, names[..|names| - 1]) + (if name in d.dirs then Count(d.dirs[name]) else 0)
  }

  // ----- rendering -----

  datatype Rendered = Rendered(nodes: seq<Node>, omitted: nat)

  /** The first name that is a directory has been dealt with; then the next. */
  ghost function DirsPart(d: Dir, names: seq<string>, depth: nat, ctx: Context): Rendered
    decreases d, 0, |names|
  {
    if names == [] then Rendered([], 0)
    else
      var r := DirsPart(d, names[..|names| - 1], depth, ctx);
      var name := names[|names| - 1];
      if name !in d.dirs || ctx.pruned(name) then r
      else if ctx.TooDeep(depth) || ctx.IsFull(|r.nodes|) then r.(omitted := r.omitted + 1 + Count(d.dirs[name]))
      else
        var below := Render(d.dirs[name], depth + 1, ctx);
        Rendered(r.nodes + [DirNode(name, below.nodes)], r.omitted + below.omitted)
  }

  ghost function FilesPart(files: map<string, FileData>, names: seq<string>, ctx: Context, dirs: Rendered): Rendered
    decreases |names|
  {
    if names == [] then dirs
    else
      var r := FilesPart(files, names[..|names| - 1], ctx, dirs);
      var name := names[|names| - 1];
      if name !in files then r
      else if ctx.IsFull(|r.nodes|) then r.(omitted := r.omitted + 1)
      else r.(nodes := r.nodes + [FileNode(name, files[name], ctx)])
  }

  ghost function Render(d: Dir, depth: nat, ctx: Context): Rendered
    decreases d, 1
  {
    var dirs := DirsPart(d, InOrder(d.dirs.Keys), depth, ctx);
    if ctx.foldersOnly then dirs else FilesPart(d.files, InOrder(d.files.Keys), ctx, dirs)
  }

  // ----- the methods -----

  lemma DirsSnoc(d: Dir, front: seq<string>, name: string, names: seq<string>, depth: nat, ctx: Context, r: Rendered)
    requires names == front + [name] && name in d.dirs && r == DirsPart(d, front, depth, ctx)
    ensures DirsPart(d, names, depth, ctx)
         == if ctx.pruned(name) then r
            else if ctx.TooDeep(depth) || ctx.IsFull(|r.nodes|) then r.(omitted := r.omitted + 1 + Count(d.dirs[name]))
            else Rendered(r.nodes + [DirNode(name, Render(d.dirs[name], depth + 1, ctx).nodes)],
                          r.omitted + Render(d.dirs[name], depth + 1, ctx).omitted)
  {
    assert names[..|front|] == front;
  }

  lemma FilesSnoc(
    files: map<string, FileData>, front: seq<string>, name: string, names: seq<string>, ctx: Context,
    dirs: Rendered, r: Rendered)
    requires names == front + [name] && name in files && r == FilesPart(files, front, ctx, dirs)
    ensures FilesPart(files, names, ctx, dirs)
         == if ctx.IsFull(|r.nodes|) then r.(omitted := r.omitted + 1)
            else r.(nodes := r.nodes + [FileNode(name, files[name], ctx)])
  {
    assert names[..|front|] == front;
  }

  lemma CountSnoc(d: Dir, front: seq<string>, name: string, names: seq<string>)
    requires names == front + [name] && name in d.dirs
    ensures CountBelow(d, names) == CountBelow(d, front) + Count(d.dirs[name])
  {
    assert names[..|front|] == front;
  }

  /** The files and subdirectories of a builder, with theirs. */
  method CountBuilder(builder: NodeBuilder) returns (n: nat)
    requires builder.Valid()
    ensures n == Count(builder.Contents)
    decreases builder.Contents, 1
  {
    var names := NamesInOrder(builder.dirs.Keys);
    var below := CountChildren(builder, names);
    SameSize(builder.Contents.dirs, builder.dirs);
    n := |builder.files| + |builder.dirs| + below;
  }

  lemma SameSize<K, U, V>(a: map<K, U>, b: map<K, V>)
    requires a.Keys == b.Keys
    ensures |a| == |b|
  {
    assert |a| == |a.Keys| && |b| == |b.Keys|;
  }

  /** What a builder's subdirectory holds. */
  lemma ChildHolds(builder: NodeBuilder, names: seq<string>, i: nat, name: string)
    requires builder.Valid() && i < |names| && name == names[i] && forall n :: n in names ==> n in builder.dirs
    ensures name in builder.dirs && builder.dirs[name].Valid() && name in builder.Contents.dirs
    ensures builder.dirs[name].Contents == builder.Contents.dirs[name]
  {
    assert names[i] in names && builder.Owns(name);
  }

  method CountChildren(builder: NodeBuilder, names: seq<string>) returns (n: nat)
    requires builder.Valid() && forall name :: name in names ==> name in builder.dirs
    ensures n == CountBelow(builder.Contents, names)
    decreases builder.Contents, 0
  {
    ghost var d := builder.Contents;
    n := 0;
    for i := 0 to |names|
      invariant n == CountBelow(d, names[..i])
    {
      var name := names[i];
      ChildHolds(builder, names, i, name);
      PrefixSnoc(names, i);
      CountSnoc(d, names[..i], name, names[..i + 1]);
      var c := CountBuilder(builder.dirs[name]);
      n := n + c;
    }
    assert names[..|names|] == names;
  }

  /** Renders a directory, adding what it leaves out to the running count. */
  method Materialize(builder: NodeBuilder, depth: nat, ctx: Context, omitted: nat)
    returns (nodes: seq<Node>, omitted': nat)
    requires builder.Valid()
    ensures omitted' >= omitted && Rendered(nodes, omitted' - omitted) == Render(builder.Contents, depth, ctx)
    decreases builder.Contents, 1
  {
    var names := NamesInOrder(builder.dirs.Keys);
    nodes, omitted' := MaterializeDirs(builder, names, depth, ctx, omitted);
    if !ctx.foldersOnly {
      names := NamesInOrder(builder.files.Keys);
      nodes, omitted' := MaterializeFiles(builder.files, names, ctx, nodes, omitted, omitted');
    }
  }

  method MaterializeDirs(builder: NodeBuilder, names: seq<string>, depth: nat, ctx: Context, omitted: nat)
    returns (nodes: seq<Node>, omitted': nat)
    requires builder.Valid() && forall name :: name in names ==> name in builder.dirs
    ensures omitted' >= omitted && Rendered(nodes, omitted' - omitted) == DirsPart(builder.Contents, names, depth, ctx)
    decreases builder.Contents, 0
  {
    ghost var d := builder.Contents;
    nodes, omitted' := [], omitted;
    var emitted := 0;
    for i := 0 to |names|
      invariant emitted == |nodes|
      invariant omitted' >= omitted && Rendered(nodes, omitted' - omitted) == DirsPart(d, names[..i], depth, ctx)
    {
      var name := names[i];
      ChildHolds(builder, names, i, name);
      PrefixSnoc(names, i);
      DirsSnoc(d, names[..i], name, names[..i + 1], depth, ctx, Rendered(nodes, omitted' - omitted));
      var child := builder.dirs[name];
      if ctx.pruned(name) {
        continue;
      }
      if ctx.TooDeep(depth) || ctx.IsFull(emitted) {
        var c := CountBuilder(child);
        omitted' := omitted' + 1 + c;
        continue;
      }
      emitted := emitted + 1;
      var children;
      children, omitted' := Materialize(child, depth + 1, ctx, omitted');
      nodes := nodes + [DirNode(name, children)];
    }
    assert names[..|names|] == names;
  }

  method MaterializeFiles(
    files: map<string, FileData>, names: seq<string>, ctx: Context, dirs: seq<Node>, ghost start: nat, omitted: nat)
    returns (nodes: seq<Node>, omitted': nat)
    requires start <= omitted && forall name :: name in names ==> name in files
    ensures omitted' >= start
    ensures Rendered(nodes, omitted' - start) == FilesPart(files, names, ctx, Rendered(dirs, omitted - start))
  {
    nodes, omitted' := dirs, omitted;
    var emitted := |dirs|;
    for i := 0 to |names|
      invariant emitted == |nodes|
      invariant omitted' >= start
      invariant Rendered(nodes, omitted' - start) == FilesPart(files, names[..i], ctx, Rendered(dirs, omitted - start))
    {
      var name := names[i];
      assert name in names;
      FilesSnoc(
        files, names[..i], name, names[..i + 1], ctx, Rendered(dirs, omitted - start),
        Rendered(nodes, omitted' - start));
      if ctx.IsFull(emitted) {
        omitted' := omitted' + 1;
        continue;
      }
      emitted := emitted + 1;
      nodes := nodes + [FileNode(name, files[name], ctx)];
    }
    assert names[..|names|] == names;
  }
}
