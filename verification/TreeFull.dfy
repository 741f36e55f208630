/** The full tree: with no limits and no policy, the leaves are the catalog. */
module TreeFull {
  import opened Common
  import opened Orders
  import opened Tree
  import opened TreeRender
  import opened TreeLaws

  /** A file of the tree: the names of its ancestors and its own, and the path it carries. */
  datatype Leaf = Leaf(parts: seq<string>, path: string)

  function Beneath(name: string, leaves: seq<Leaf>): seq<Leaf> {
    if leaves == [] then []
    else
      var last := leaves[|leaves| - 1];
      Beneath(name, leaves[..|leaves| - 1]) + [Leaf([name] + last.parts, last.path)]
  }

  function LeavesAt(node: Node): seq<Leaf>
    decreases node
  {
    if node.kind == File then [Leaf([node.name], node.path)]
    else Beneath(node.name, Leaves(node.children))
  }

  /** The files of a forest, in the order shown. */
  function Leaves(nodes: seq<Node>): seq<Leaf>
    decreases nodes
  {
    if nodes == [] then [] else Leaves(nodes[..|nodes| - 1]) + LeavesAt(nodes[|nodes| - 1])
  }

  lemma LeavesSnoc(front: seq<Node>, last: Node)
    ensures multiset(Leaves(front + [last])) == multiset(Leaves(front)) + multiset(LeavesAt(last))
  {
    assert (front + [last])[..|front|] == front;
  }

  /** The file d holds at the leaf's parts, if any, carries the leaf's path. */
  predicate Holds(d: Dir, l: Leaf) {
    match Lookup(d, l.parts)
    case None => false
    case Some(file) => file.path == l.path
  }

  ghost predicate NoLimits(ctx: Context) {
    ctx.maxDepth.None? && ctx.siblingCap.None? && NoPolicy(ctx)
  }

  lemma PartsStep(name: string, parts: seq<string>, q: seq<string>)
    requires q != []
    ensures q == [name] + parts <==> q[0] == name && q[1..] == parts
  {
    assert q == [q[0]] + q[1..];
  }

  lemma {:induction false} BeneathCounts(name: string, leaves: seq<Leaf>, l: Leaf)
    ensures multiset(Beneath(name, leaves))[l]
         == if l.parts != [] && l.parts[0] == name then multiset(leaves)[Leaf(l.parts[1..], l.path)] else 0
  {
    if leaves != [] {
      var front, last := leaves[..|leaves| - 1], leaves[|leaves| - 1];
      assert leaves == front + [last];
      BeneathCounts(name, front, l);
      assert multiset(leaves) == multiset(front) + multiset{last};
      if l.parts != [] {
        PartsStep(name, last.parts, l.parts);
      }
    }
  }

  /** The leaf below the named subdirectories. */
  predicate HeldBelow(d: Dir, names: seq<string>, l: Leaf) {
    l.parts != [] && l.parts[0] in names && l.parts[0] in d.dirs
    && Holds(d.dirs[l.parts[0]], Leaf(l.parts[1..], l.path))
  }

  lemma {:induction false} DirsLeaves(d: Dir, names: seq<string>, depth: nat, ctx: Context, l: Leaf)
    requires NoLimits(ctx) && Distinct(names) && forall n :: n in names ==> n in d.dirs
    ensures multiset(Leaves(DirsPart(d, names, depth, ctx).nodes))[l] == if HeldBelow(d, names, l) then 1 else 0
    decreases d, 1, |names|
  {
    if names != [] {
      var front, name := names[..|names| - 1], names[|names| - 1];
      assert names == front + [name];
      DistinctSnoc(names, front, name);
      DirsLeaves(d, front, depth, ctx, l);
      DirsSnoc(d, front, name, names, depth, ctx, DirsPart(d, front, depth, ctx));
      DirLeaves(d, name, depth, ctx, l, DirsPart(d, front, depth, ctx).nodes);
    }
  }

  lemma {:induction false} DirLeaves(d: Dir, name: string, depth: nat, ctx: Context, l: Leaf, nodes: seq<Node>)
    requires NoLimits(ctx) && name in d.dirs
    ensures multiset(Leaves(nodes + [DirNode(name, Render(d.dirs[name], depth + 1, ctx).nodes)]))[l]
         == multiset(Leaves(nodes))[l] + if HeldBelow(d, [name], l) then 1 else 0
    decreases d, 0
  {
    var below := Render(d.dirs[name], depth + 1, ctx);
    LeavesSnoc(nodes, DirNode(name, below.nodes));
    BeneathCounts(name, Leaves(below.nodes), l);
    if l.parts != [] && l.parts[0] == name {
      RenderLeaves(d.dirs[name], depth + 1, ctx, Leaf(l.parts[1..], l.path));
    }
  }

  predicate HeldHere(files: map<string, FileData>, names: seq<string>, l: Leaf) {
    |l.parts| == 1 && l.parts[0] in names && l.parts[0] in files && files[l.parts[0]].path == l.path
  }

  lemma {:induction false} FilesLeaves(
    files: map<string, FileData>, names: seq<string>, ctx: Context, dirs: Rendered, r: Rendered, l: Leaf)
    requires NoLimits(ctx) && Distinct(names) && forall n :: n in names ==> n in files
    requires r == FilesPart(files, names, ctx, dirs)
    ensures multiset(Leaves(r.nodes))[l]
         == multiset(Leaves(dirs.nodes))[l] + if HeldHere(files, names, l) then 1 else 0
    decreases |names|
  {
    if names != [] {
      var front, name := names[..|names| - 1], names[|names| - 1];
      assert names == front + [name];
      DistinctSnoc(names, front, name);
      var q := FilesPart(files, front, ctx, dirs);
      FilesLeaves(files, front, ctx, dirs, q, l);
      FilesSnoc(files, front, name, names, ctx, dirs, q);
      LeavesSnoc(q.nodes, FileNode(name, files[name], ctx));
      FileLeaf(name, files[name], ctx, l);
    }
  }

  lemma FileLeaf(name: string, file: FileData, ctx: Context, l: Leaf)
    ensures multiset(LeavesAt(FileNode(name, file, ctx)))[l]
         == if |l.parts| == 1 && l.parts[0] == name && file.path == l.path then 1 else 0
  {
    if |l.parts| == 1 {
      assert l.parts == [l.parts[0]];
    }
  }

  lemma HeldEither(d: Dir, l: Leaf, dirNames: seq<string>, fileNames: seq<string>)
    requires forall n :: n in dirNames <==> n in d.dirs
    requires forall n :: n in fileNames <==> n in d.files
    ensures Holds(d, l) <==> HeldBelow(d, dirNames, l) || HeldHere(d.files, fileNames, l)
    ensures !(HeldBelow(d, dirNames, l) && HeldHere(d.files, fileNames, l))
  {
  }

  /** The leaves of a full rendering are exactly the files of the directory, each once, at the path its
      ancestors' names spell. */
  lemma {:induction false} RenderLeaves(d: Dir, depth: nat, ctx: Context, l: Leaf)
    requires NoLimits(ctx)
    ensures multiset(Leaves(Render(d, depth, ctx).nodes))[l] == if Holds(d, l) then 1 else 0
    decreases d, 2
  {
    var dirNames, fileNames := InOrder(d.dirs.Keys), InOrder(d.files.Keys);
    InOrderElements(d.dirs.Keys);
    InOrderElements(d.files.Keys);
    DirsLeaves(d, dirNames, depth, ctx, l);
    FilesLeaves(d.files, fileNames, ctx, DirsPart(d, dirNames, depth, ctx), Render(d, depth, ctx), l);
    HeldEither(d, l, dirNames, fileNames);
  }

  // ----- the catalog -----

  function Catalog(items: seq<Placed>): seq<Leaf> {
    seq(|items|, i requires 0 <= i < |items| => Leaf(items[i].parts, items[i].file.path))
  }

  ghost predicate NoneEmpty(items: seq<Placed>) {
    forall i :: 0 <= i < |items| ==> items[i].parts != []
  }

  lemma CatalogSnoc(front: seq<Placed>, last: Placed)
    ensures Catalog(front + [last]) == Catalog(front) + [Leaf(last.parts, last.file.path)]
  {
  }

  lemma {:induction false} NotPlaced(items: seq<Placed>, l: Leaf)
    requires forall i :: 0 <= i < |items| ==> items[i].parts != l.parts
    ensures multiset(Catalog(items))[l] == 0 && LastAt(items, l.parts) == None
  {
    if items != [] {
      var front, last := items[..|items| - 1], items[|items| - 1];
      assert items == front + [last];
      NotPlaced(front, l);
      CatalogSnoc(front, last);
    }
  }

  /** Distinct catalog paths appear once each. */
  lemma {:induction false} CatalogCounts(items: seq<Placed>, l: Leaf)
    requires DistinctParts(items) && NoneEmpty(items)
    ensures multiset(Catalog(items))[l]
         == if LastAt(items, l.parts).Some? && LastAt(items, l.parts).value.path == l.path then 1 else 0
  {
    if items != [] {
      var front, last := items[..|items| - 1], items[|items| - 1];
      assert items == front + [last];
      CatalogSnoc(front, last);
      if last.parts == l.parts {
        NotPlaced(front, l);
      } else {
        CatalogCounts(front, l);
      }
    }
  }

  lemma CatalogHas(items: seq<Placed>, i: nat)
    requires i < |items|
    ensures multiset(Catalog(items))[Leaf(items[i].parts, items[i].file.path)] >= 1
  {
    assert Catalog(items)[i] in multiset(Catalog(items));
  }

  lemma CatalogHasTwo(items: seq<Placed>, i: nat, j: nat, l: Leaf)
    requires i < j < |items|
    requires l == Leaf(items[i].parts, items[i].file.path) == Leaf(items[j].parts, items[j].file.path)
    ensures multiset(Catalog(items))[l] >= 2
  {
    var c := Catalog(items);
    assert c == c[..j] + c[j..];
    assert c[..j][i] in multiset(c[..j]) && c[j..][0] in multiset(c[j..]);
  }

  /** Paths that repeat, or have no component, do not survive into the tree. */
  lemma RepeatsShow(items: seq<Placed>, ctx: Context, leaves: seq<Leaf>)
    requires NoLimits(ctx) && leaves == Leaves(Render(PutAll(items), 0, ctx).nodes)
    requires multiset(leaves) == multiset(Catalog(items))
    ensures DistinctParts(items) && NoneEmpty(items)
  {
    forall i | 0 <= i < |items| ensures items[i].parts != [] {
      CatalogHas(items, i);
      RenderLeaves(PutAll(items), 0, ctx, Leaf(items[i].parts, items[i].file.path));
    }
    forall i, j | 0 <= i < j < |items| ensures items[i].parts != items[j].parts {
      var a, b := Leaf(items[i].parts, items[i].file.path), Leaf(items[j].parts, items[j].file.path);
      CatalogHas(items, i);
      CatalogHas(items, j);
      RenderLeaves(PutAll(items), 0, ctx, a);
      RenderLeaves(PutAll(items), 0, ctx, b);
      if a == b {
        CatalogHasTwo(items, i, j, a);
      }
    }
  }

  /** The full tree lists the catalog, each path once, exactly when the paths are distinct and none is
      empty. */
  lemma FullTreeIsCatalog(items: seq<Placed>, ctx: Context, leaves: seq<Leaf>)
    requires NoLimits(ctx) && leaves == Leaves(Render(PutAll(items), 0, ctx).nodes)
    ensures multiset(leaves) == multiset(Catalog(items)) <==> DistinctParts(items) && NoneEmpty(items)
  {
    if multiset(leaves) == multiset(Catalog(items)) {
      RepeatsShow(items, ctx, leaves);
    }
    if DistinctParts(items) && NoneEmpty(items) {
      forall l: Leaf ensures multiset(leaves)[l] == multiset(Catalog(items))[l] {
        RenderLeaves(PutAll(items), 0, ctx, l);
        LookupPutAll(items, l.parts);
        CatalogCounts(items, l);
      }
    }
  }

  /** In every case a leaf of the full tree is the last file placed at its path, and appears once. */
  lemma FullTreeShowsLast(items: seq<Placed>, ctx: Context, leaves: seq<Leaf>, l: Leaf)
    requires NoLimits(ctx) && leaves == Leaves(Render(PutAll(items), 0, ctx).nodes)
    ensures multiset(leaves)[l]
         == if LastAt(items, l.parts).Some? && LastAt(items, l.parts).value.path == l.path then 1 else 0
  {
    RenderLeaves(PutAll(items), 0, ctx, l);
    LookupPutAll(items, l.parts);
  }
}
