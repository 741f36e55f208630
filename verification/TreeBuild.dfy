/** The file tree of a catalog: one builder per root, filled with the entries in scope, then rendered. */
module TreeBuild {
  import opened Common
  import opened Orders
  import opened Paths
  import opened Tree
  import opened TreeRender
  import opened TreeLaws
  import opened TreeFull

  datatype Root = Root(id: string, name: string)

  datatype Entry = Entry(rootId: string, relPath: string)

  datatype Response = Response(
    rootsCount: nat, wasTruncated: bool, usesLegend: bool, roots: seq<Node>, omitted: nat)

  // ----- filling a builder -----

  function PlacedEntry(entry: Entry, rootId: string, prefix: Option<string>): seq<Placed> {
    if entry.rootId != rootId then []
    else
      match ScopedRel(entry.relPath, prefix)
      case None => []
      case Some(rel) => [Placed(Components(rel), FileData(rel, entry.relPath, entry.rootId))]
  }

  /** The entries of a root that are in scope, each with the components of its path below the prefix. */
  function InScope(entries: seq<Entry>, rootId: string, prefix: Option<string>): seq<Placed> {
    if entries == [] then []
    else
      InScope(entries[..|entries| - 1], rootId, prefix)
      + PlacedEntry(entries[|entries| - 1], rootId, prefix)
  }

  function RootTree(entries: seq<Entry>, rootId: string, prefix: Option<string>): Dir {
    PutAll(InScope(entries, rootId, prefix))
  }

  lemma InScopeSnoc(front: seq<Entry>, last: Entry, rootId: string, prefix: Option<string>)
    ensures InScope(front + [last], rootId, prefix)
         == InScope(front, rootId, prefix) + PlacedEntry(last, rootId, prefix)
  {
    assert (front + [last])[..|front|] == front;
  }

  lemma RootTreeSnoc(front: seq<Entry>, last: Entry, entries: seq<Entry>, rootId: string, prefix: Option<string>)
    requires entries == front + [last]
    ensures RootTree(entries, rootId, prefix)
         == if last.rootId != rootId || ScopedRel(last.relPath, prefix).None? then RootTree(front, rootId, prefix)
            else Put(RootTree(front, rootId, prefix), Components(ScopedRel(last.relPath, prefix).value),
                     FileData(ScopedRel(last.relPath, prefix).value, last.relPath, last.rootId))
  {
    InScopeSnoc(front, last, rootId, prefix);
    var items, placed := InScope(front, rootId, prefix), PlacedEntry(last, rootId, prefix);
    if placed == [] {
      assert items + placed == items;
    } else {
      PutAllSnoc(items, placed[0], items + placed);
    }
  }

  method Fill(entries: seq<Entry>, rootId: string, prefix: Option<string>) returns (builder: NodeBuilder)
    ensures builder.Valid() && fresh(builder.Repr)
    ensures builder.Contents == RootTree(entries, rootId, prefix)
  {
    builder := new NodeBuilder();
    for i := 0 to |entries|
      invariant builder.Valid() && fresh(builder.Repr)
      invariant builder.Contents == RootTree(entries[..i], rootId, prefix)
    {
      var entry := entries[i];
      RootTreeSnoc(entries[..i], entry, entries[..i + 1], rootId, prefix);
      if entry.rootId == rootId {
        match ScopedRel(entry.relPath, prefix)
        case None =>
        case Some(rel) =>
          builder.Insert(rel, FileData(rel, entry.relPath, entry.rootId));
      }
    }
    assert entries[..|entries|] == entries;
  }

  // ----- all roots -----

  function RootNode(base: string, prefix: Option<string>, children: seq<Node>): Node {
    match prefix
    case None => Node(base, "", Directory, [], children)
    case Some(p) => Node(if p == "" then base else base + [SLASH] + p, p, Directory, [], children)
  }

  ghost function RenderRoots(roots: seq<Root>, entries: seq<Entry>, prefix: Option<string>, ctx: Context): Rendered {
    if roots == [] then Rendered([], 0)
    else
      var before := RenderRoots(roots[..|roots| - 1], entries, prefix, ctx);
      var root := roots[|roots| - 1];
      var d := RootTree(entries, root.id, prefix);
      if d == EMPTY then before
      else
        var r := Render(d, 0, ctx);
        Rendered(before.nodes + [RootNode(root.name, prefix, r.nodes)], before.omitted + r.omitted)
  }

  lemma RootsSnoc(
    front: seq<Root>, root: Root, roots: seq<Root>, entries: seq<Entry>, prefix: Option<string>, ctx: Context,
    before: Rendered, d: Dir)
    requires roots == front + [root] && before == RenderRoots(front, entries, prefix, ctx)
    requires d == RootTree(entries, root.id, prefix)
    ensures RenderRoots(roots, entries, prefix, ctx)
         == if d == EMPTY then before
            else Rendered(before.nodes + [RootNode(root.name, prefix, Render(d, 0, ctx).nodes)],
                          before.omitted + Render(d, 0, ctx).omitted)
  {
    assert roots[..|front|] == front;
  }

  method Build(roots: seq<Root>, entries: seq<Entry>, prefix: Option<string>, ctx: Context)
    returns (nodes: seq<Node>, omitted: nat)
    ensures Rendered(nodes, omitted) == RenderRoots(roots, entries, prefix, ctx)
  {
    nodes, omitted := [], 0;
    for i := 0 to |roots|
      invariant Rendered(nodes, omitted) == RenderRoots(roots[..i], entries, prefix, ctx)
    {
      RootsSnoc(
        roots[..i], roots[i], roots[..i + 1], entries, prefix, ctx, Rendered(nodes, omitted),
        RootTree(entries, roots[i].id, prefix));
      nodes, omitted := AddRoot(roots[i], entries, prefix, ctx, nodes, omitted);
    }
    assert roots[..|roots|] == roots;
  }

  /** One round of the loop: a root with nothing in scope is skipped. */
  method AddRoot(root: Root, entries: seq<Entry>, prefix: Option<string>, ctx: Context, nodes: seq<Node>, omitted: nat)
    returns (nodes': seq<Node>, omitted': nat)
    ensures
      var d := RootTree(entries, root.id, prefix);
      Rendered(nodes', omitted')
      == if d == EMPTY then Rendered(nodes, omitted)
         else Rendered(nodes + [RootNode(root.name, prefix, Render(d, 0, ctx).nodes)],
                       omitted + Render(d, 0, ctx).omitted)
  {
    var builder := Fill(entries, root.id, prefix);
    var empty := builder.IsEmpty();
    if empty {
      return nodes, omitted;
    }
    var children;
    children, omitted' := Materialize(builder, 0, ctx, omitted);
    nodes' := nodes + [RootNode(root.name, prefix, children)];
  }

  /** Some node of a forest carries a marker. */
  function AnyMarked(nodes: seq<Node>): bool {
    if nodes == [] then false
    else
      AnyMarked(nodes[..|nodes| - 1]) || nodes[|nodes| - 1].markers != [] || AnyMarked(nodes[|nodes| - 1].children)
  }

  function Finalize(roots: seq<Node>, omitted: nat, forcedTruncated: bool): Response {
    Response(|roots|, forcedTruncated || omitted > 0, AnyMarked(roots), roots, omitted)
  }

  /** The unbudgeted modes: the full tree, and directories only. */
  datatype Mode = Full | Folders

  function ModeContext(
    mode: Mode, maxDepth: Option<nat>, selection: set<SelectionKey>, supportsCodemap: string -> bool): (ctx: Context)
    ensures mode == Full ==> NoPolicy(ctx)
    ensures mode == Full && maxDepth.None? ==> NoLimits(ctx)
    ensures ctx.siblingCap.None? && ctx.maxDepth == maxDepth && (ctx.foldersOnly <==> mode == Folders)
    ensures ctx.selection == selection && ctx.supportsCodemap == supportsCodemap
  {
    Context(maxDepth, None, name => false, mode == Folders, selection, supportsCodemap)
  }

  method GetFileTree(
    roots: seq<Root>, entries: seq<Entry>, prefix: Option<string>, mode: Mode, maxDepth: Option<nat>,
    selection: set<SelectionKey>, supportsCodemap: string -> bool)
    returns (response: Response)
    ensures var r := RenderRoots(roots, entries, prefix, ModeContext(mode, maxDepth, selection, supportsCodemap));
            response == Finalize(r.nodes, r.omitted, false)
  {
    var nodes, omitted := Build(roots, entries, prefix, ModeContext(mode, maxDepth, selection, supportsCodemap));
    response := Finalize(nodes, omitted, false);
  }

  // ----- what the response says -----

  /** The roots that have something in scope. */
  ghost function Peopled(roots: seq<Root>, entries: seq<Entry>, prefix: Option<string>): seq<Root> {
    if roots == [] then []
    else
      Peopled(roots[..|roots| - 1], entries, prefix)
      + if RootTree(entries, roots[|roots| - 1].id, prefix) == EMPTY then [] else [roots[|roots| - 1]]
  }

  /** A root's node bears the root's name, and the prefix after it if there is one that is not empty; its path is the
      prefix; and it is unmarked and has the root's rendering below it. */
  ghost predicate RootStands(
    root: Root, entries: seq<Entry>, prefix: Option<string>, ctx: Context, node: Node)
  {
    && node.kind == Directory && node.markers == []
    && node.children == Render(RootTree(entries, root.id, prefix), 0, ctx).nodes
    && (prefix == None || prefix == Some("") ==> node.name == root.name && node.path == "")
    && (prefix.Some? && prefix != Some("") ==> node.name == root.name + "/" + prefix.value && node.path == prefix.value)
  }

  lemma RootNodeStands(root: Root, entries: seq<Entry>, prefix: Option<string>, ctx: Context)
    ensures RootStands(root, entries, prefix, ctx,
                       RootNode(root.name, prefix, Render(RootTree(entries, root.id, prefix), 0, ctx).nodes))
  {
  }

  ghost predicate AllStand(
    peopled: seq<Root>, entries: seq<Entry>, prefix: Option<string>, ctx: Context, nodes: seq<Node>)
  {
    && |nodes| == |peopled|
    && forall i :: 0 <= i < |nodes| ==> RootStands(peopled[i], entries, prefix, ctx, nodes[i])
  }

  lemma AllStandSnoc(
    peopled: seq<Root>, entries: seq<Entry>, prefix: Option<string>, ctx: Context, nodes: seq<Node>, root: Root,
    node: Node)
    requires AllStand(peopled, entries, prefix, ctx, nodes) && RootStands(root, entries, prefix, ctx, node)
    ensures AllStand(peopled + [root], entries, prefix, ctx, nodes + [node])
  {
  }

  /** There is one node for each root that has something in scope, in order. */
  lemma {:induction false} RootsShow(
    roots: seq<Root>, entries: seq<Entry>, prefix: Option<string>, ctx: Context, nodes: seq<Node>)
    requires nodes == RenderRoots(roots, entries, prefix, ctx).nodes
    ensures AllStand(Peopled(roots, entries, prefix), entries, prefix, ctx, nodes)
    decreases |roots|
  {
    if roots != [] {
      var front, root := roots[..|roots| - 1], roots[|roots| - 1];
      var before, d := RenderRoots(front, entries, prefix, ctx), RootTree(entries, root.id, prefix);
      RootsShow(front, entries, prefix, ctx, before.nodes);
      if d == EMPTY {
        assert Peopled(roots, entries, prefix) == Peopled(front, entries, prefix);
      } else {
        RootNodeStands(root, entries, prefix, ctx);
        AllStandSnoc(Peopled(front, entries, prefix), entries, prefix, ctx, before.nodes, root,
                     RootNode(root.name, prefix, Render(d, 0, ctx).nodes));
      }
    }
  }

  /** The node at a path of positions, from the roots down. */
  function NodeAt(nodes: seq<Node>, at: seq<nat>): Option<Node> {
    if at == [] || at[0] >= |nodes| then None
    else if |at| == 1 then Some(nodes[at[0]])
    else NodeAt(nodes[at[0]].children, at[1..])
  }

  ghost predicate MarkedSomewhere(nodes: seq<Node>) {
    exists at: seq<nat> :: NodeAt(nodes, at).Some? && NodeAt(nodes, at).value.markers != []
  }

  lemma {:induction false} NodeAtFront(nodes: seq<Node>, front: seq<Node>, last: Node, at: seq<nat>)
    requires nodes == front + [last] && at != []
    ensures NodeAt(nodes, at)
         == if at[0] == |front| then (if |at| == 1 then Some(last) else NodeAt(last.children, at[1..]))
            else NodeAt(front, at)
  {
    if at[0] < |front| {
      assert nodes[at[0]] == front[at[0]];
    }
  }

  /** The legend is used exactly when some node, at whatever depth, is marked. */
  lemma {:induction false} AnyMarkedIff(nodes: seq<Node>)
    ensures AnyMarked(nodes) <==> MarkedSomewhere(nodes)
    decreases nodes
  {
    if nodes != [] {
      var front, last := nodes[..|nodes| - 1], nodes[|nodes| - 1];
      assert nodes == front + [last];
      AnyMarkedIff(front);
      AnyMarkedIff(last.children);
      if AnyMarked(nodes) {
        var at: seq<nat> :=
          if AnyMarked(front) then
            var at: seq<nat> :| NodeAt(front, at).Some? && NodeAt(front, at).value.markers != [];
            at
          else if last.markers != [] then [|front|]
          else
            var at: seq<nat> :|
              NodeAt(last.children, at).Some? && NodeAt(last.children, at).value.markers != [];
            [|front|] + at;
        NodeAtFront(nodes, front, last, at);
      }
      if at: seq<nat> :| NodeAt(nodes, at).Some? && NodeAt(nodes, at).value.markers != [] {
        NodeAtFront(nodes, front, last, at);
      }
    }
  }

  /** The response of the unbudgeted modes. */
  lemma ResponseIs(roots: seq<Node>, omitted: nat, response: Response)
    requires response == Finalize(roots, omitted, false)
    ensures response.roots == roots && response.rootsCount == |roots| && response.omitted == omitted
    ensures response.wasTruncated <==> omitted > 0
    ensures response.usesLegend <==> MarkedSomewhere(response.roots)
  {
    AnyMarkedIff(roots);
  }

  // ----- conservation over all roots -----

  ghost function TotalCount(roots: seq<Root>, entries: seq<Entry>, prefix: Option<string>): nat {
    if roots == [] then 0
    else TotalCount(roots[..|roots| - 1], entries, prefix) + Count(RootTree(entries, roots[|roots| - 1].id, prefix))
  }

  ghost function TotalHidden(roots: seq<Root>, entries: seq<Entry>, prefix: Option<string>, ctx: Context): nat {
    if roots == [] then 0
    else
      var d := RootTree(entries, roots[|roots| - 1].id, prefix);
      TotalHidden(roots[..|roots| - 1], entries, prefix, ctx) + Hidden(d, Render(d, 0, ctx).nodes, ctx)
  }

  lemma EmptyRenders(ctx: Context)
    ensures Count(EMPTY) == 0 && Hidden(EMPTY, Render(EMPTY, 0, ctx).nodes, ctx) == 0
  {
    InOrderElements({});
    assert EMPTY.dirs.Keys == {} && EMPTY.files.Keys == {};
    assert InOrder({}) == [];
    assert |EMPTY.files| == 0 && |EMPTY.dirs| == 0;
  }

  lemma TotalsSnoc(
    front: seq<Root>, root: Root, roots: seq<Root>, entries: seq<Entry>, prefix: Option<string>, ctx: Context, d: Dir)
    requires roots == front + [root] && d == RootTree(entries, root.id, prefix)
    ensures TotalCount(roots, entries, prefix) == TotalCount(front, entries, prefix) + Count(d)
    ensures TotalHidden(roots, entries, prefix, ctx)
         == TotalHidden(front, entries, prefix, ctx) + Hidden(d, Render(d, 0, ctx).nodes, ctx)
  {
    assert roots[..|front|] == front;
  }

  lemma RootConserves(d: Dir, root: Root, prefix: Option<string>, ctx: Context, before: Rendered, r: Rendered)
    requires r == if d == EMPTY then before
                  else Rendered(before.nodes + [RootNode(root.name, prefix, Render(d, 0, ctx).nodes)],
                                before.omitted + Render(d, 0, ctx).omitted)
    ensures Size(r.nodes) - |r.nodes| + r.omitted + Hidden(d, Render(d, 0, ctx).nodes, ctx)
         == Size(before.nodes) - |before.nodes| + before.omitted + Count(d)
  {
    if d == EMPTY {
      EmptyRenders(ctx);
    } else {
      RenderConserves(d, 0, ctx);
      NodesSnoc(before.nodes, RootNode(root.name, prefix, Render(d, 0, ctx).nodes), root.name);
    }
  }

  /** Shown below the root nodes, omitted and hidden, less everything in scope. */
  ghost function Balance(roots: seq<Root>, entries: seq<Entry>, prefix: Option<string>, ctx: Context): int {
    var r := RenderRoots(roots, entries, prefix, ctx);
    Size(r.nodes) - |r.nodes| + r.omitted + TotalHidden(roots, entries, prefix, ctx)
    - TotalCount(roots, entries, prefix)
  }

  lemma BalanceEmpty(entries: seq<Entry>, prefix: Option<string>, ctx: Context)
    ensures Balance([], entries, prefix, ctx) == 0
  {
  }

  lemma BalanceStep(
    front: seq<Root>, root: Root, roots: seq<Root>, entries: seq<Entry>, prefix: Option<string>, ctx: Context)
    requires roots == front + [root]
    ensures Balance(roots, entries, prefix, ctx) == Balance(front, entries, prefix, ctx)
  {
    var before, d := RenderRoots(front, entries, prefix, ctx), RootTree(entries, root.id, prefix);
    RootsSnoc(front, root, roots, entries, prefix, ctx, before, d);
    TotalsSnoc(front, root, roots, entries, prefix, ctx, d);
    RootConserves(d, root, prefix, ctx, before, RenderRoots(roots, entries, prefix, ctx));
  }

  lemma {:induction false} BalanceIsZero(
    roots: seq<Root>, entries: seq<Entry>, prefix: Option<string>, ctx: Context)
    ensures Balance(roots, entries, prefix, ctx) == 0
    decreases |roots|
  {
    if roots == [] {
      BalanceEmpty(entries, prefix, ctx);
    } else {
      var front, root := roots[..|roots| - 1], roots[|roots| - 1];
      BalanceIsZero(front, entries, prefix, ctx);
      BalanceStep(front, root, roots, entries, prefix, ctx);
    }
  }

  /** Over all roots: shown below the root nodes, omitted and hidden make up everything in scope. */
  lemma BuildConserves(roots: seq<Root>, entries: seq<Entry>, prefix: Option<string>, ctx: Context, r: Rendered)
    requires r == RenderRoots(roots, entries, prefix, ctx)
    ensures Size(r.nodes) - |r.nodes| + r.omitted + TotalHidden(roots, entries, prefix, ctx)
         == TotalCount(roots, entries, prefix)
  {
    BalanceIsZero(roots, entries, prefix, ctx);
  }

  lemma {:induction false} NothingHiddenInRoots(
    roots: seq<Root>, entries: seq<Entry>, prefix: Option<string>, ctx: Context)
    requires NoPolicy(ctx)
    ensures TotalHidden(roots, entries, prefix, ctx) == 0
    decreases |roots|
  {
    if roots != [] {
      var d := RootTree(entries, roots[|roots| - 1].id, prefix);
      NothingHiddenInRoots(roots[..|roots| - 1], entries, prefix, ctx);
      NothingHidden(d, Render(d, 0, ctx).nodes, ctx);
    }
  }

  /** Without a policy, a tree says it was truncated exactly when some entry in scope is not shown. */
  lemma TruncatedIff(
    roots: seq<Root>, entries: seq<Entry>, prefix: Option<string>, ctx: Context, r: Rendered, response: Response)
    requires NoPolicy(ctx) && r == RenderRoots(roots, entries, prefix, ctx)
    requires response == Finalize(r.nodes, r.omitted, false)
    ensures response.wasTruncated
       <==> Size(response.roots) - response.rootsCount < TotalCount(roots, entries, prefix)
  {
    BuildConserves(roots, entries, prefix, ctx, r);
    NothingHiddenInRoots(roots, entries, prefix, ctx);
  }

  // ----- the order of the catalog does not matter -----

  lemma {:induction false} InScopeSplits(a: seq<Entry>, b: seq<Entry>, rootId: string, prefix: Option<string>)
    ensures InScope(a + b, rootId, prefix) == InScope(a, rootId, prefix) + InScope(b, rootId, prefix)
    decreases |b|
  {
    if b == [] {
      assert a + b == a;
    } else {
      var front, last := b[..|b| - 1], b[|b| - 1];
      assert b == front + [last] && a + b == (a + front) + [last];
      InScopeSplits(a, front, rootId, prefix);
      InScopeSnoc(front, last, rootId, prefix);
      InScopeSnoc(a + front, last, rootId, prefix);
      Associates(
        InScope(a, rootId, prefix), InScope(front, rootId, prefix), PlacedEntry(last, rootId, prefix));
    }
  }

  lemma {:induction false} InScopePermutes(a: seq<Entry>, b: seq<Entry>, rootId: string, prefix: Option<string>)
    requires multiset(a) == multiset(b)
    ensures multiset(InScope(a, rootId, prefix)) == multiset(InScope(b, rootId, prefix))
    decreases |a|
  {
    if a == [] {
      assert |b| == |multiset(b)| == 0;
    } else {
      var front, last := a[..|a| - 1], a[|a| - 1];
      assert a == front + [last];
      assert last in multiset(b);
      var left, right := SplitAt(b, last);
      FrontOut(a, front, last);
      MiddleOut(b, left, last, right);
      InScopePermutes(front, left + right, rootId, prefix);
      InScopeMiddle(front, left, last, right, rootId, prefix);
    }
  }

  lemma InScopeMiddle(
    front: seq<Entry>, left: seq<Entry>, last: Entry, right: seq<Entry>, rootId: string, prefix: Option<string>)
    requires multiset(InScope(front, rootId, prefix)) == multiset(InScope(left + right, rootId, prefix))
    ensures multiset(InScope(front + [last], rootId, prefix))
         == multiset(InScope(left + [last] + right, rootId, prefix))
  {
    InScopeSnoc(front, last, rootId, prefix);
    InScopeSplits(left, right, rootId, prefix);
    InScopeSplits(left + [last], right, rootId, prefix);
    InScopeSnoc(left, last, rootId, prefix);
  }

  /** No two entries of a root have the same components. */
  ghost predicate DistinctEntries(entries: seq<Entry>) {
    forall i, j :: 0 <= i < j < |entries| && entries[i].rootId == entries[j].rootId ==>
      Components(entries[i].relPath) != Components(entries[j].relPath)
  }

  function PrefixComponents(prefix: Option<string>): seq<string> {
    match prefix
    case None => []
    case Some(p) => Components(p)
  }

  lemma PlacedEntryFrom(entry: Entry, rootId: string, prefix: Option<string>, item: Placed)
    requires item in PlacedEntry(entry, rootId, prefix)
    ensures entry.rootId == rootId && ScopedRel(entry.relPath, prefix) == Some(item.file.path)
    ensures item == Placed(Components(item.file.path), FileData(item.file.path, entry.relPath, rootId))
    ensures Components(entry.relPath) == PrefixComponents(prefix) + item.parts
  {
    if prefix.Some? {
      ScopedComponents(entry.relPath, prefix.value, item.file.path);
    }
  }

  lemma {:induction false} PlacedAt(entries: seq<Entry>, rootId: string, prefix: Option<string>, item: Placed)
    returns (i: nat)
    requires item in InScope(entries, rootId, prefix)
    ensures i < |entries| && item in PlacedEntry(entries[i], rootId, prefix)
    decreases |entries|
  {
    var front, last := entries[..|entries| - 1], entries[|entries| - 1];
    assert entries == front + [last];
    InScopeSnoc(front, last, rootId, prefix);
    if item in PlacedEntry(last, rootId, prefix) {
      i := |entries| - 1;
    } else {
      i := PlacedAt(front, rootId, prefix, item);
    }
  }

  /** What is placed comes from an entry: the prefix's components and its parts spell the entry's path. */
  lemma PlacedFrom(entries: seq<Entry>, rootId: string, prefix: Option<string>, item: Placed) returns (i: nat)
    requires item in InScope(entries, rootId, prefix)
    ensures i < |entries| && entries[i].rootId == rootId
    ensures ScopedRel(entries[i].relPath, prefix) == Some(item.file.path)
    ensures item == Placed(Components(item.file.path), FileData(item.file.path, entries[i].relPath, rootId))
    ensures Components(entries[i].relPath) == PrefixComponents(prefix) + item.parts
  {
    i := PlacedAt(entries, rootId, prefix, item);
    PlacedEntryFrom(entries[i], rootId, prefix, item);
  }

  /** And every entry of the root in scope is placed. */
  lemma {:induction false} EntryIsPlaced(
    entries: seq<Entry>, rootId: string, prefix: Option<string>, i: nat, rel: string)
    requires i < |entries| && entries[i].rootId == rootId && ScopedRel(entries[i].relPath, prefix) == Some(rel)
    ensures Placed(Components(rel), FileData(rel, entries[i].relPath, rootId)) in InScope(entries, rootId, prefix)
    decreases |entries|
  {
    var front, last := entries[..|entries| - 1], entries[|entries| - 1];
    assert entries == front + [last];
    InScopeSnoc(front, last, rootId, prefix);
    if i < |front| {
      EntryIsPlaced(front, rootId, prefix, i, rel);
    }
  }

  lemma DistinctFront(entries: seq<Entry>, front: seq<Entry>, last: Entry)
    requires entries == front + [last] && DistinctEntries(entries)
    ensures DistinctEntries(front)
    ensures forall i :: 0 <= i < |front| && front[i].rootId == last.rootId ==>
              Components(front[i].relPath) != Components(last.relPath)
  {
    assert entries[|front|] == last;
    assert forall i :: 0 <= i < |front| ==> entries[i] == front[i];
  }

  lemma DistinctOneMore(items: seq<Placed>, item: Placed)
    requires DistinctParts(items) && forall x :: x in items ==> x.parts != item.parts
    ensures DistinctParts(items + [item])
  {
  }

  /** Distinct entries are placed at distinct parts. */
  lemma {:induction false} PlacedDistinct(entries: seq<Entry>, rootId: string, prefix: Option<string>)
    requires DistinctEntries(entries)
    ensures DistinctParts(InScope(entries, rootId, prefix))
    decreases |entries|
  {
    if entries != [] {
      var front, last := entries[..|entries| - 1], entries[|entries| - 1];
      assert entries == front + [last];
      DistinctFront(entries, front, last);
      PlacedDistinct(front, rootId, prefix);
      InScopeSnoc(front, last, rootId, prefix);
      var items, placed := InScope(front, rootId, prefix), PlacedEntry(last, rootId, prefix);
      if placed == [] {
        assert items + placed == items;
      } else {
        NewParts(front, last, rootId, prefix, placed[0]);
        DistinctOneMore(items, placed[0]);
      }
    }
  }

  lemma NewParts(front: seq<Entry>, last: Entry, rootId: string, prefix: Option<string>, item: Placed)
    requires PlacedEntry(last, rootId, prefix) == [item]
    requires forall i :: 0 <= i < |front| && front[i].rootId == last.rootId ==>
               Components(front[i].relPath) != Components(last.relPath)
    ensures forall x :: x in InScope(front, rootId, prefix) ==> x.parts != item.parts
  {
    assert InScope([last], rootId, prefix) == [item] by {
      InScopeSnoc([], last, rootId, prefix);
      assert [] + [last] == [last];
    }
    var k := PlacedFrom([last], rootId, prefix, item);
    forall x | x in InScope(front, rootId, prefix) ensures x.parts != item.parts {
      var i := PlacedFrom(front, rootId, prefix, x);
    }
  }

  /** The tree of a root does not depend on the order of the catalog, for distinct entries. */
  lemma RootTreeForgetsOrder(a: seq<Entry>, b: seq<Entry>, rootId: string, prefix: Option<string>)
    requires multiset(a) == multiset(b) && DistinctEntries(b)
    ensures RootTree(a, rootId, prefix) == RootTree(b, rootId, prefix)
  {
    InScopePermutes(a, b, rootId, prefix);
    PlacedDistinct(b, rootId, prefix);
    TreeForgetsOrder(InScope(a, rootId, prefix), InScope(b, rootId, prefix));
  }

  /** Nor does the whole response, in any mode. */
  lemma {:induction false} RootsForgetOrder(
    roots: seq<Root>, a: seq<Entry>, b: seq<Entry>, prefix: Option<string>, ctx: Context)
    requires multiset(a) == multiset(b) && DistinctEntries(b)
    ensures RenderRoots(roots, a, prefix, ctx) == RenderRoots(roots, b, prefix, ctx)
    decreases |roots|
  {
    if roots != [] {
      var front, root := roots[..|roots| - 1], roots[|roots| - 1];
      assert roots == front + [root];
      RootsForgetOrder(front, a, b, prefix, ctx);
      RootTreeForgetsOrder(a, b, root.id, prefix);
      RootsSnoc(
        front, root, roots, a, prefix, ctx, RenderRoots(front, a, prefix, ctx), RootTree(a, root.id, prefix));
      RootsSnoc(
        front, root, roots, b, prefix, ctx, RenderRoots(front, b, prefix, ctx), RootTree(b, root.id, prefix));
    }
  }

  // ----- the full tree of a root -----

  lemma CleanInScope(entries: seq<Entry>, rootId: string, prefix: Option<string>, item: Placed)
    requires item in InScope(entries, rootId, prefix)
    requires forall e :: e in entries ==> IsClean(e.relPath)
    ensures item.parts != []
  {
    var i := PlacedFrom(entries, rootId, prefix, item);
    var rel := entries[i].relPath;
    assert entries[i] in entries;
    match prefix
    case None =>
      assert rel == [] + rel;
      CleanHasComponents(rel, rel, []);
    case Some(p) =>
      ScopedIff(rel, p, item.file.path);
      if p == "" {
        assert rel == [] + rel;
        CleanHasComponents(rel, rel, []);
      } else {
        CleanHasComponents(rel, item.file.path, p + [SLASH]);
      }
  }

  /** In full mode the files shown below a root's node are exactly that root's entries in scope, each once,
      at the path its ancestors' names spell, for clean and distinct catalog paths. */
  lemma FullTreeListsScope(
    entries: seq<Entry>, rootId: string, prefix: Option<string>, ctx: Context, leaves: seq<Leaf>)
    requires NoLimits(ctx) && DistinctEntries(entries) && forall e :: e in entries ==> IsClean(e.relPath)
    requires leaves == Leaves(Render(RootTree(entries, rootId, prefix), 0, ctx).nodes)
    ensures multiset(leaves) == multiset(Catalog(InScope(entries, rootId, prefix)))
  {
    var items := InScope(entries, rootId, prefix);
    PlacedDistinct(entries, rootId, prefix);
    forall i | 0 <= i < |items| ensures items[i].parts != [] {
      CleanInScope(entries, rootId, prefix, items[i]);
    }
    FullTreeIsCatalog(items, ctx, leaves);
  }

  lemma {:induction false} CatalogLists(items: seq<Placed>, l: Leaf)
    ensures l in Catalog(items) <==> exists item :: item in items && l == Leaf(item.parts, item.file.path)
  {
    if items != [] {
      var front, last := items[..|items| - 1], items[|items| - 1];
      assert items == front + [last];
      CatalogLists(front, l);
      CatalogSnoc(front, last);
    }
  }

  /** So a file is shown exactly if some entry of the root is in scope with that path below the prefix. */
  lemma FullTreeShows(
    entries: seq<Entry>, rootId: string, prefix: Option<string>, ctx: Context, leaves: seq<Leaf>, l: Leaf)
    requires NoLimits(ctx) && DistinctEntries(entries) && forall e :: e in entries ==> IsClean(e.relPath)
    requires leaves == Leaves(Render(RootTree(entries, rootId, prefix), 0, ctx).nodes)
    ensures l in leaves <==>
            l.parts == Components(l.path)
            && exists i :: 0 <= i < |entries| && entries[i].rootId == rootId
                           && ScopedRel(entries[i].relPath, prefix) == Some(l.path)
  {
    var items := InScope(entries, rootId, prefix);
    FullTreeListsScope(entries, rootId, prefix, ctx, leaves);
    CatalogLists(items, l);
    assert l in leaves <==> l in multiset(leaves);
    assert l in Catalog(items) <==> l in multiset(Catalog(items));
    if l in leaves {
      var item :| item in items && l == Leaf(item.parts, item.file.path);
      var i := PlacedFrom(entries, rootId, prefix, item);
    }
    if i :| 0 <= i < |entries| && entries[i].rootId == rootId && ScopedRel(entries[i].relPath, prefix) == Some(l.path) {
      EntryIsPlaced(entries, rootId, prefix, i, l.path);
    }
  }
}
