/**
 The directory tree built from catalog paths.  A NodeBuilder is filled in place, one path at a time;
 what it holds is a Dir, and a Dir is a map from component lists to files.
 */
module Tree {
  import opened Common
  import opened Orders
  import opened Paths

  datatype FileData = FileData(path: string, relPath: string, rootId: string)

  /** The value of a builder: its files and its subdirectories, by name. */
  datatype Dir = Dir(files: map<string, FileData>, dirs: map<string, Dir>)

  const EMPTY: Dir := Dir(map[], map[])

  /** The file at a list of components. */
  function Lookup(d: Dir, parts: seq<string>): Option<FileData> {
    if parts == [] then None
    else if |parts| == 1 then Get(d.files, parts[0])
    else if parts[0] in d.dirs then Lookup(d.dirs[parts[0]], parts[1..])
    else None
  }

  function Child(d: Dir, name: string): Dir {
    if name in d.dirs then d.dirs[name] else EMPTY
  }

  /** The directory with a file placed at a list of components; with no components, nothing is placed. */
  function Put(d: Dir, parts: seq<string>, file: FileData): Dir
    decreases |parts|
  {
    if parts == [] then d
    else if |parts| == 1 then d.(files := d.files[parts[0] := file])
    else d.(dirs := d.dirs[parts[0] := Put(Child(d, parts[0]), parts[1..], file)])
  }

  lemma LookupEmpty(parts: seq<string>)
    ensures Lookup(EMPTY, parts) == None
  {
  }

  lemma SameParts(p: seq<string>, q: seq<string>)
    requires p != [] && q != [] && p[0] == q[0]
    ensures p == q <==> p[1..] == q[1..]
  {
    assert p == [p[0]] + p[1..] && q == [q[0]] + q[1..];
  }

  /** Placing a file changes the lookup of its own path and of no other. */
  lemma {:induction false} LookupPut(d: Dir, p: seq<string>, file: FileData, q: seq<string>)
    requires p != []
    ensures Lookup(Put(d, p, file), q) == if q == p then Some(file) else Lookup(d, q)
    decreases |p|
  {
    if q != [] && p[0] == q[0] {
      SameParts(p, q);
      if |p| > 1 && |q| > 1 {
        LookupPut(Child(d, p[0]), p[1..], file, q[1..]);
        LookupEmpty(q[1..]);
      }
    }
  }

  /** Files placed at different paths may be placed in either order. */
  lemma {:induction false} PutCommutes(d: Dir, p: seq<string>, f: FileData, q: seq<string>, g: FileData)
    requires p != q
    ensures Put(Put(d, p, f), q, g) == Put(Put(d, q, g), p, f)
    decreases |p|
  {
    if p != [] && q != [] {
      if p[0] == q[0] && |p| > 1 && |q| > 1 {
        SameParts(p, q);
        PutCommutes(Child(d, p[0]), p[1..], f, q[1..], g);
        PutTwice(d, p[0], p[1..], f, p, q[1..], g, q);
        PutTwice(d, p[0], q[1..], g, q, p[1..], f, p);
      } else {
        PutApart(d, p, f, q, g);
      }
    }
  }

  lemma PutTwice(
    d: Dir, name: string, p': seq<string>, f: FileData, p: seq<string>, q': seq<string>, g: FileData, q: seq<string>)
    requires p == [name] + p' && q == [name] + q' && p' != [] && q' != []
    ensures Put(Put(d, p, f), q, g) == d.(dirs := d.dirs[name := Put(Put(Child(d, name), p', f), q', g)])
  {
    assert p[1..] == p' && q[1..] == q';
    var d' := Put(d, p, f);
    assert d'.dirs[name := Put(Child(d', name), q', g)] == d.dirs[name := Put(Child(d', name), q', g)];
  }

  /** Two placements that meet in no subdirectory. */
  lemma PutApart(d: Dir, p: seq<string>, f: FileData, q: seq<string>, g: FileData)
    requires p != [] && q != [] && p != q
    requires p[0] != q[0] || |p| == 1 || |q| == 1
    ensures Put(Put(d, p, f), q, g) == Put(Put(d, q, g), p, f)
  {
    if p[0] == q[0] {
      SameParts(p, q);
    }
    SameMaps(Put(Put(d, p, f), q, g), Put(Put(d, q, g), p, f));
  }

  lemma SameMaps(a: Dir, b: Dir)
    requires a.files.Keys == b.files.Keys && forall n :: n in a.files ==> a.files[n] == b.files[n]
    requires a.dirs.Keys == b.dirs.Keys && forall n :: n in a.dirs ==> a.dirs[n] == b.dirs[n]
    ensures a == b
  {
    assert a.files == b.files && a.dirs == b.dirs;
  }

  // ----- placing a whole catalog -----

  datatype Placed = Placed(parts: seq<string>, file: FileData)

  function PutAll(items: seq<Placed>): Dir {
    if items == [] then EMPTY
    else Put(PutAll(items[..|items| - 1]), items[|items| - 1].parts, items[|items| - 1].file)
  }

  /** The last file placed at a list of components. */
  function LastAt(items: seq<Placed>, q: seq<string>): Option<FileData> {
    if items == [] || q == [] then None
    else if items[|items| - 1].parts == q then Some(items[|items| - 1].file)
    else LastAt(items[..|items| - 1], q)
  }

  /** A built tree is a map: at every list of components it holds the last file placed there. */
  lemma {:induction false} LookupPutAll(items: seq<Placed>, q: seq<string>)
    ensures Lookup(PutAll(items), q) == LastAt(items, q)
  {
    if items != [] {
      var front, last := items[..|items| - 1], items[|items| - 1];
      LookupPutAll(front, q);
      if last.parts != [] {
        LookupPut(PutAll(front), last.parts, last.file, q);
      }
    }
  }

  lemma PutAllSnoc(front: seq<Placed>, last: Placed, items: seq<Placed>)
    requires items == front + [last]
    ensures PutAll(items) == Put(PutAll(front), last.parts, last.file)
  {
    assert items[..|front|] == front;
  }

  ghost predicate DistinctParts(items: seq<Placed>) {
    forall i, j :: 0 <= i < j < |items| ==> items[i].parts != items[j].parts
  }

  /** An item placed in the middle may as well be placed last. */
  lemma {:induction false} PutLast(left: seq<Placed>, x: Placed, right: seq<Placed>)
    requires forall y :: y in right ==> y.parts != x.parts
    ensures PutAll(left + [x] + right) == Put(PutAll(left + right), x.parts, x.file)
    decreases |right|
  {
    if right == [] {
      assert left + [x] + right == left + [x] && left + right == left;
      PutAllSnoc(left, x, left + [x]);
    } else {
      var front, last := right[..|right| - 1], right[|right| - 1];
      assert right == front + [last] && last in right;
      assert left + [x] + right == (left + [x] + front) + [last] && left + right == (left + front) + [last];
      PutLast(left, x, front);
      PutAllSnoc(left + [x] + front, last, left + [x] + right);
      PutAllSnoc(left + front, last, left + right);
      PutCommutes(PutAll(left + front), x.parts, x.file, last.parts, last.file);
    }
  }

  lemma DistinctSplit(b: seq<Placed>, left: seq<Placed>, x: Placed, right: seq<Placed>)
    requires b == left + [x] + right && DistinctParts(b)
    ensures forall y :: y in right ==> y.parts != x.parts
    ensures DistinctParts(left + right)
  {
    forall y | y in right ensures y.parts != x.parts {
      var j :| 0 <= j < |right| && right[j] == y;
      assert b[|left|] == x && b[|left| + 1 + j] == y;
    }
    var s := left + right;
    forall i, j | 0 <= i < j < |s| ensures s[i].parts != s[j].parts {
      var i', j' := if i < |left| then i else i + 1, if j < |left| then j else j + 1;
      assert b[i'] == s[i] && b[j'] == s[j];
    }
  }

  /** The tree does not depend on the order in which files with distinct paths were placed. */
  lemma {:induction false} TreeForgetsOrder(a: seq<Placed>, b: seq<Placed>)
    requires multiset(a) == multiset(b) && DistinctParts(b)
    ensures PutAll(a) == PutAll(b)
    decreases |a|
  {
    if a == [] {
      assert |b| == |multiset(b)| == 0;
    } else {
      var front, last := a[..|a| - 1], a[|a| - 1];
      assert a == front + [last];
      assert last in multiset(b);
      var left, right := SplitAt(b, last);
      FrontOut(a, front, last);
      MiddleOut(b, left, last, right);
      DistinctSplit(b, left, last, right);
      TreeForgetsOrder(front, left + right);
      PutLast(left, last, right);
      PutAllSnoc(front, last, a);
    }
  }

  // ----- the builder -----

  lemma UpdateTwice<K, V>(m: map<K, V>, k: K, v: V, w: V)
    ensures m[k := v][k := w] == m[k := w]
  {
  }

  lemma UpdateSame<K, V>(m: map<K, V>, k: K)
    requires k in m
    ensures m[k := m[k]] == m
  {
  }

  class NodeBuilder {
    var files: map<string, FileData>
    var dirs: map<string, NodeBuilder>
    ghost var Contents: Dir
    ghost var Repr: set<object>

    /** The builder owns its subdirectories, and Contents is the value of what it owns. */
    ghost predicate Valid()
      reads this, Repr
      decreases Repr
    {
      && this in Repr
      && Contents.files == files
      && Contents.dirs.Keys == dirs.Keys
      && (forall n :: n in dirs ==> Owns(n))
      && (forall m, n :: m in dirs && n in dirs && m != n ==> dirs[m].Repr !! dirs[n].Repr)
    }

    ghost predicate Owns(n: string)
      requires n in dirs && this in Repr && Contents.dirs.Keys == dirs.Keys
      reads this, Repr
      decreases Repr, 0
    {
      && dirs[n] in Repr && dirs[n].Repr <= Repr && this !in dirs[n].Repr
      && dirs[n].Valid() && dirs[n].Contents == Contents.dirs[n]
    }

    /** Valid, except that what the subdirectory called first holds has changed. */
    ghost predicate ValidBut(first: string)
      requires first in dirs
      reads this, Repr, dirs[first], dirs[first].Repr
    {
      && this in Repr
      && Contents.files == files
      && Contents.dirs.Keys == dirs.Keys
      && dirs[first].Valid() && this !in dirs[first].Repr
      && (forall n :: n in dirs && n != first ==> Owns(n) && dirs[n].Repr !! dirs[first].Repr)
      && (forall m, n :: m in dirs && n in dirs && m != n && m != first && n != first ==> dirs[m].Repr !! dirs[n].Repr)
    }

    constructor ()
      ensures Valid() && fresh(Repr) && Contents == EMPTY
    {
      files, dirs := map[], map[];
      Contents, Repr := EMPTY, {this};
    }

    predicate IsEmpty()
      requires Valid()
      reads this, Repr
      ensures IsEmpty() <==> Contents == EMPTY
    {
      |files| == 0 && |dirs| == 0
    }

    /** The subdirectory of that name, made if absent. */
    method ChildOrDefault(name: string) returns (child: NodeBuilder)
      requires Valid()
      modifies this
      ensures Valid() && fresh(Repr - old(Repr))
      ensures name in dirs && dirs[name] == child
      ensures child.Contents == Child(old(Contents), name)
      ensures Contents == old(Contents).(dirs := old(Contents).dirs[name := child.Contents])
    {
      if name !in dirs {
        child := new NodeBuilder();
        dirs := dirs[name := child];
        Contents := Contents.(dirs := Contents.dirs[name := child.Contents]);
        Repr := Repr + child.Repr;
      } else {
        child := dirs[name];
        assert Owns(name);
        UpdateSame(Contents.dirs, name);
      }
    }

    /** Places a file at a path, splitting off one component and rejoining the rest at each level. */
    method Insert(relPath: string, file: FileData)
      requires Valid()
      modifies Repr
      ensures Valid() && fresh(Repr - old(Repr))
      ensures Contents == Put(old(Contents), Components(relPath), file)
      decreases |Components(relPath)|, 0
    {
      var parts := Components(relPath);
      if |parts| > 0 {
        var first, rest := parts[0], parts[1..];
        if |rest| == 0 {
          files := files[first := file];
          Contents := Contents.(files := files);
        } else {
          ComponentsAreComponents(relPath);
          JoinSplits(rest);
          InsertBelow(first, Join(rest), file);
        }
      }
    }

    method InsertBelow(first: string, rest: string, file: FileData)
      requires Valid()
      modifies Repr
      ensures Valid() && fresh(Repr - old(Repr))
      ensures var was := old(Contents);
              Contents == was.(dirs := was.dirs[first := Put(Child(was, first), Components(rest), file)])
      decreases |Components(rest)|, 2
    {
      var child := ChildOrDefault(first);
      ghost var filled := Put(child.Contents, Components(rest), file);
      UpdateTwice(old(Contents).dirs, first, child.Contents, filled);
      InsertInto(first, child, rest, file);
      Adopt(first, child);
    }

    /** Fills one subdirectory, leaving its siblings as they are. */
    method InsertInto(first: string, child: NodeBuilder, rest: string, file: FileData)
      requires Valid() && first in dirs && dirs[first] == child
      modifies child.Repr
      ensures files == old(files) && dirs == old(dirs) && Contents == old(Contents) && Repr == old(Repr)
      ensures ValidBut(first) && fresh(child.Repr - old(child.Repr))
      ensures child.Contents == Put(old(child.Contents), Components(rest), file)
      decreases |Components(rest)|, 1
    {
      assert Owns(first);
      child.Insert(rest, file);
      forall n | n in dirs && n != first
        ensures dirs[n].Repr == old(dirs[n].Repr) && dirs[n].Repr !! child.Repr && Owns(n)
      {
        assert old(Owns(n));
        Untouched(dirs[n]);
      }
    }

    /** Records what a changed subdirectory now holds. */
    ghost method Adopt(first: string, child: NodeBuilder)
      requires first in dirs && dirs[first] == child && ValidBut(first)
      modifies this`Repr, this`Contents
      ensures Valid() && Repr == old(Repr) + child.Repr
      ensures Contents == old(Contents).(dirs := old(Contents).dirs[first := child.Contents])
    {
      Repr := Repr + child.Repr;
      Contents := Contents.(dirs := Contents.dirs[first := child.Contents]);
    }

    /** A builder none of whose objects changed is the same builder. */
    static twostate lemma Untouched(other: NodeBuilder)
      requires old(other.Valid()) && unchanged(old(other.Repr))
      ensures other.Repr == old(other.Repr) && other.Contents == old(other.Contents) && other.Valid()
    {
    }
  }
}
