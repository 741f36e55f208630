/**
 Which catalogs share their snapshot pre-image with another, among all the catalogs that the two providers can
 list.  Those of a file system never do.  Those of an in-memory catalog may, since a path there is any string: a
 path can spell the boundary between two rows, and the bytes of a size can stand in a path.
 */
module HostCatalog {
  import opened Common
  import opened Orders
  import opened HashChain
  import opened Pinning
  import opened Utf8

  // ----- the catalogs -----

  /** "memory-root" in ASCII: the root id of every in-memory catalog. */
  const MEMORY: bytes := [109, 101, 109, 111, 114, 121, 45, 114, 111, 111, 116]

  const BACKSLASH: byte := 0x5c

  /** "", ".", ".." and "host": in an in-memory catalog no file has such a path. */
  predicate NamesNoFile(path: bytes) {
    path == [] || path == [46] || path == [46, 46] || path == [104, 111, 115, 116]
  }

  predicate HostPath(path: bytes) { Text(path) && BACKSLASH !in path && !NamesNoFile(path) }

  /** A row of an in-memory catalog.  Its path may be any string but for backslashes, which are listed as slashes. */
  predicate HostRow(r: Row) {
    r.rootId == MEMORY && HostPath(r.relPath) && r.size < 0x100_0000_0000_0000
  }

  /** A row of a file system's catalog: no path of a file system holds NUL. */
  ghost predicate DiskRow(r: Row) {
    && (exists index: nat :: r.rootId == ROOT + DecimalBytes(index))
    && Text(r.relPath) && 0 !in r.relPath && r.size < 0x100_0000_0000_0000
  }

  ghost predicate HostRows(rows: seq<Row>) { forall r :: r in rows ==> HostRow(r) }

  ghost predicate DiskRows(rows: seq<Row>) { forall r :: r in rows ==> DiskRow(r) }

  /** The entries of a catalog, in any order, are all of the one kind or all of the other. */
  ghost predicate Catalog(entries: seq<Row>) { HostRows(entries) || DiskRows(entries) }

  /** No catalog with other entries has the same pre-image. */
  ghost predicate Alone(entries: seq<Row>) {
    forall other :: Catalog(other) && SnapshotPreimage(other) == SnapshotPreimage(entries) ==>
      multiset(other) == multiset(entries)
  }

  // ----- the first row tells the kind -----

  lemma FirstId(rows: seq<Row>) returns (rest: bytes)
    requires rows != [] && US !in rows[0].rootId
    ensures Until(EncodeRows(rows), US) == Some((rows[0].rootId, rest))
  {
    var r, after := rows[0], EncodeRows(rows[1..]);
    rest := r.relPath + [US] + (U64Bytes(r.size) + [RS]) + after;
    SplitRow(r, after, rest);
  }

  lemma DiskId(r: Row)
    requires DiskRow(r)
    ensures US !in r.rootId && r.rootId[..1] == [114] && CatalogRow(r)
  {
    var index: nat :| r.rootId == ROOT + DecimalBytes(index);
    PolicyIdIsPlain(index);
    assert (ROOT + DecimalBytes(index))[0] == ROOT[0];
  }

  lemma NothingSortedIsNothing(entries: seq<Row>)
    ensures SnapshotPreimage(entries) == [] <==> entries == []
  {
    assert Sort(RowLe, entries) != [] ==> |EncodeRow(Sort(RowLe, entries)[0])| > 0;
  }

  /** Catalogs with the same pre-image are of one kind. */
  lemma SameKind(a: seq<Row>, b: seq<Row>)
    requires Catalog(a) && Catalog(b) && SnapshotPreimage(a) == SnapshotPreimage(b)
    ensures HostRows(a) <==> HostRows(b)
    ensures DiskRows(a) <==> DiskRows(b)
  {
    NothingSortedIsNothing(a);
    NothingSortedIsNothing(b);
    if a != [] {
      SameFirstId(a, b);
    }
  }

  lemma SortedFirst(entries: seq<Row>) returns (r: Row)
    requires Catalog(entries) && entries != []
    ensures r in entries && US !in r.rootId
    ensures exists rest :: Until(SnapshotPreimage(entries), US) == Some((r.rootId, rest))
  {
    SortedRows(entries);
    var rows := Sort(RowLe, entries);
    r := rows[0];
    assert r in rows;
    if DiskRow(r) {
      DiskId(r);
    }
    var rest := FirstId(rows);
  }

  lemma SameFirstId(a: seq<Row>, b: seq<Row>)
    requires Catalog(a) && Catalog(b) && SnapshotPreimage(a) == SnapshotPreimage(b) && a != [] && b != []
    ensures HostRows(a) <==> HostRows(b)
    ensures DiskRows(a) <==> DiskRows(b)
  {
    var r := SortedFirst(a);
    var q := SortedFirst(b);
    assert r.rootId == q.rootId;
    if DiskRow(r) {
      DiskId(r);
    }
    if DiskRow(q) {
      DiskId(q);
    }
    assert MEMORY[..1] == [109];
  }

  /** A file system's catalog shares its pre-image with no other catalog. */
  lemma DiskCatalogAlone(entries: seq<Row>)
    requires DiskRows(entries)
    ensures Alone(entries)
  {
    forall other | Catalog(other) && SnapshotPreimage(other) == SnapshotPreimage(entries)
      ensures multiset(other) == multiset(entries)
    {
      SameKind(other, entries);
      forall r | r in entries || r in other ensures CatalogRow(r) {
        DiskId(r);
      }
      SnapshotDetermined(other, entries);
    }
  }

  // ----- several rows read as one -----

  /** Whether the bytes of a size can stand in a path. */
  predicate FitsPath(size: u64) { Text(U64Bytes(size)) && BACKSLASH !in U64Bytes(size) }

  function FusedRun(rows: seq<Row>): Row
    requires rows != []
  {
    if |rows| == 1 then rows[0] else Fused(rows[0], FusedRun(rows[1..]))
  }

  lemma FusedText(x: Row, y: Row)
    requires y.rootId == MEMORY
    ensures Text(Fused(x, y).relPath) <==> Text(x.relPath) && Text(U64Bytes(x.size)) && Text(y.relPath)
  {
    var tail := MEMORY + [US] + y.relPath;
    TextCut(MEMORY, US, y.relPath);
    AsciiIsText(MEMORY);
    TextCut(U64Bytes(x.size), RS, tail);
    TextCut(x.relPath, US, U64Bytes(x.size) + [RS] + tail);
    SameBytes(x.relPath + [US], U64Bytes(x.size) + [RS], tail);
  }

  lemma NotJoined(a: bytes, b: bytes, c: bytes, d: bytes, x: byte)
    requires x != US && x != RS
    ensures x !in a + [US] + (b + [RS]) + (c + [US] + d) <==> x !in a && x !in b && x !in c && x !in d
  {
  }

  lemma SeparatorNamesAFile(path: bytes, k: nat)
    requires k < |path| && path[k] == US
    ensures !NamesNoFile(path)
  {
  }

  lemma FusedNames(x: Row, y: Row)
    ensures !NamesNoFile(Fused(x, y).relPath)
    ensures BACKSLASH !in Fused(x, y).relPath <==>
            BACKSLASH !in x.relPath && BACKSLASH !in U64Bytes(x.size) && BACKSLASH !in y.rootId
            && BACKSLASH !in y.relPath
  {
    NotJoined(x.relPath, U64Bytes(x.size), y.rootId, y.relPath, BACKSLASH);
    SeparatorNamesAFile(Fused(x, y).relPath, |x.relPath|);
  }

  /** Two rows fused are a row of a catalog when the size between them fits. */
  lemma FusedFits(x: Row, y: Row)
    requires HostRow(x) && y.rootId == MEMORY && !NamesNoFile(y.relPath) && y.size < 0x100_0000_0000_0000
    ensures HostRow(Fused(x, y)) <==> FitsPath(x.size) && HostRow(y)
    ensures !NamesNoFile(Fused(x, y).relPath)
  {
    FusedText(x, y);
    FusedNames(x, y);
  }

  lemma {:induction false} RunFits(rows: seq<Row>)
    requires rows != [] && HostRows(rows)
    ensures var z := FusedRun(rows);
            && z.rootId == MEMORY && !NamesNoFile(z.relPath) && z.size < 0x100_0000_0000_0000
            && (HostRow(z) <==> forall k :: 0 <= k < |rows| - 1 ==> FitsPath(rows[k].size))
  {
    assert rows[0] in rows;
    if |rows| > 1 {
      RunFits(rows[1..]);
      FusedFits(rows[0], FusedRun(rows[1..]));
      assert forall k :: 1 <= k < |rows| - 1 ==> rows[1..][k - 1] == rows[k];
    }
  }

  lemma {:induction false} RunEncoding(rows: seq<Row>)
    requires rows != []
    ensures EncodeRow(FusedRun(rows)) == EncodeRows(rows)
  {
    if |rows| == 1 {
      assert rows[1..] == [];
      assert EncodeRow(rows[0]) + [] == EncodeRow(rows[0]);
    } else {
      RunEncoding(rows[1..]);
      FusedEncoding(rows[0], FusedRun(rows[1..]));
    }
  }

  lemma {:induction false} RunIsLater(rows: seq<Row>)
    requires |rows| > 1
    ensures RowLe(rows[0], FusedRun(rows)) && FusedRun(rows).rootId == rows[0].rootId
    ensures var p := FusedRun(rows).relPath;
            |p| > |rows[0].relPath| && p[..|rows[0].relPath|] == rows[0].relPath && p[|rows[0].relPath|] == US
  {
    FusedIsLater(rows[0], FusedRun(rows[1..]));
  }

  // ----- where the rows of an encoding lie -----

  /** Where the path of a row that begins at `at` ends. */
  function PathEnd(at: nat, r: Row): nat { at + 12 + |r.relPath| }

  /** The row's bytes stand in w from `at` on. */
  predicate Spells(w: bytes, at: nat, r: Row) {
    var n := PathEnd(at, r);
    && n + 10 <= |w|
    && (forall i :: 0 <= i < 11 ==> w[at + i] == MEMORY[i]) && w[at + 11] == US
    && (forall i :: 0 <= i < |r.relPath| ==> w[at + 12 + i] == r.relPath[i])
    && w[n] == US && w[n + 1..n + 9] == U64Bytes(r.size) && w[n + 8] == 0 && w[n + 9] == RS
  }

  /** The bytes before `at` end a row, if there are any. */
  predicate EndsRow(w: bytes, at: nat) {
    at == 0 || (10 <= at <= |w| && w[at - 1] == RS)
  }

  lemma RowSpells(w: bytes, front: bytes, r: Row, after: bytes)
    requires HostRow(r) && w == front + EncodeRow(r) + after
    ensures Spells(w, |front|, r)
  {
    SizeTopByte(r.size);
    var row := EncodeRow(r);
    var n := 12 + |r.relPath|;
    assert row[..11] == MEMORY && row[12..n] == r.relPath && row[n + 1..n + 9] == U64Bytes(r.size);
    forall i | 0 <= i < |row| ensures w[|front| + i] == row[i] {
    }
    forall i | 0 <= i < 11 ensures w[|front| + i] == MEMORY[i] {
      assert row[i] == row[..11][i];
    }
    forall i | 0 <= i < |r.relPath| ensures w[|front| + 12 + i] == r.relPath[i] {
      assert row[12 + i] == row[12..n][i];
    }
    assert w[|front| + n + 1..|front| + n + 9] == row[n + 1..n + 9];
    assert w[|front| + n + 8] == U64Bytes(r.size)[7];
  }

  lemma {:induction false} EncodeRowsAppend(a: seq<Row>, b: seq<Row>)
    ensures EncodeRows(a + b) == EncodeRows(a) + EncodeRows(b)
  {
    if a == [] {
      assert a + b == b;
    } else {
      assert (a + b)[1..] == a[1..] + b;
      EncodeRowsAppend(a[1..], b);
    }
  }

  /** Where the k-th row begins. */
  function Begin(rows: seq<Row>, k: nat): nat
    requires k <= |rows|
  {
    |EncodeRows(rows[..k])|
  }

  lemma BeginNext(rows: seq<Row>, k: nat)
    requires k < |rows|
    ensures Begin(rows, k + 1) == Begin(rows, k) + |EncodeRow(rows[k])|
  {
    assert rows[..k + 1] == rows[..k] + [rows[k]];
    EncodeRowsSnoc(rows[..k], rows[k]);
  }

  lemma RowApart(rows: seq<Row>, k: nat)
    requires k < |rows|
    ensures EncodeRows(rows) == EncodeRows(rows[..k]) + EncodeRow(rows[k]) + EncodeRows(rows[k + 1..])
  {
    Around(rows, k);
    EncodeRowsAppend(rows[..k] + [rows[k]], rows[k + 1..]);
    EncodeRowsSnoc(rows[..k], rows[k]);
  }

  lemma RowLength(r: Row)
    requires |r.rootId| == 11
    ensures |EncodeRow(r)| == |r.relPath| + 22
  {
  }

  lemma RowLies(rows: seq<Row>, k: nat)
    requires HostRows(rows) && k < |rows|
    ensures Spells(EncodeRows(rows), Begin(rows, k), rows[k])
    ensures Begin(rows, k + 1) == PathEnd(Begin(rows, k), rows[k]) + 10
  {
    var r := rows[k];
    assert r in rows;
    RowApart(rows, k);
    RowSpells(EncodeRows(rows), EncodeRows(rows[..k]), r, EncodeRows(rows[k + 1..]));
    BeginNext(rows, k);
    RowLength(r);
  }

  /** The row that the n-th byte belongs to. */
  lemma {:induction false} Locate(rows: seq<Row>, n: nat, k: nat) returns (j: nat)
    requires k <= |rows| && 0 < n <= Begin(rows, k)
    ensures j < k && Begin(rows, j) < n <= Begin(rows, j + 1)
  {
    if k > 0 && n <= Begin(rows, k - 1) {
      j := Locate(rows, n, k - 1);
    } else {
      assert rows[..0] == [];
      j := k - 1;
    }
  }

  // ----- which boundaries another reading keeps -----

  lemma InId(w: bytes, at: nat, r: Row, k: nat)
    requires Spells(w, at, r) && at <= k < at + 11
    ensures w[k] != 0 && w[k] != US
  {
    assert w[at + (k - at)] == MEMORY[k - at];
  }

  /** A row that runs over the end of another begins no later than that one's path ends, and its path runs into
      the path of the next. */
  lemma RunsOver(w: bytes, r: Row, next: Row, at: nat, q: Row)
    requires Spells(w, 0, r) && Spells(w, PathEnd(0, r) + 10, next) && Spells(w, at, q)
    requires at < PathEnd(0, r) + 10 < PathEnd(at, q) + 10 && EndsRow(w, at)
    ensures at + 11 <= PathEnd(0, r) && PathEnd(0, r) + 10 < PathEnd(at, q)
  {
    var n, m := PathEnd(0, r), PathEnd(at, q);
    if m <= n + 12 {
      if m + 8 > n + 9 {
        InId(w, n + 10, next, m + 8);
      }
      assert false;
    }
    if at + 11 > n {
      if at <= n {
        InId(w, at, q, n);
      } else if at <= n + 8 {
        InId(w, at, q, n + 8);
      }
      assert false;
    }
  }

  /** Its path holds the size of the row it runs over, from just behind an ASCII character on. */
  lemma SizeInPath(w: bytes, r: Row, next: Row, at: nat, q: Row) returns (u: nat)
    requires Spells(w, 0, r) && Spells(w, PathEnd(0, r) + 10, next) && Spells(w, at, q)
    requires at < PathEnd(0, r) + 10 < PathEnd(at, q) + 10 && EndsRow(w, at)
    ensures u + 8 < |q.relPath| && q.relPath[u..u + 8] == U64Bytes(r.size)
    ensures q.relPath[u + 8] == RS && (u > 0 ==> q.relPath[u - 1] == US)
  {
    RunsOver(w, r, next, at, q);
    var n := PathEnd(0, r);
    u := n + 1 - (at + 12);
    assert w[at + 12 + (u + 8)] == q.relPath[u + 8];
    assert u > 0 ==> w[at + 12 + (u - 1)] == q.relPath[u - 1];
    SameSlice(w, q.relPath, at + 12, u);
  }

  lemma SameSlice(w: bytes, path: bytes, from: nat, u: nat)
    requires u + 8 <= |path| && from + |path| <= |w| && forall i :: 0 <= i < |path| ==> w[from + i] == path[i]
    ensures path[u..u + 8] == w[from + u..from + u + 8]
  {
    assert path == w[from..from + |path|];
  }

  lemma RunOverFits(w: bytes, r: Row, next: Row, at: nat, q: Row)
    requires Spells(w, 0, r) && Spells(w, PathEnd(0, r) + 10, next) && Spells(w, at, q) && HostRow(q)
    requires at < PathEnd(0, r) + 10 < PathEnd(at, q) + 10 && EndsRow(w, at)
    ensures FitsPath(r.size)
  {
    var u := SizeInPath(w, r, next, at, q);
    TextBetween(q.relPath, u, u + 8);
    assert forall c :: c in q.relPath[u..u + 8] ==> c in q.relPath;
  }

  lemma BeginWithin(rows: seq<Row>, k: nat)
    requires k <= |rows|
    ensures Begin(rows, k) <= |EncodeRows(rows)|
  {
    assert rows == rows[..k] + rows[k..];
    EncodeRowsAppend(rows[..k], rows[k..]);
  }

  /** Where the n-th byte of another reading's row lies. */
  lemma RowOver(rows: seq<Row>, w: bytes, n: nat) returns (j: nat)
    requires HostRows(rows) && w == EncodeRows(rows) && 0 < n <= |w|
    ensures j < |rows| && Begin(rows, j) < n <= Begin(rows, j + 1) == PathEnd(Begin(rows, j), rows[j]) + 10 <= |w|
    ensures Spells(w, Begin(rows, j), rows[j]) && rows[j] in rows && EndsRow(w, Begin(rows, j))
  {
    WholePrefix(rows);
    j := Locate(rows, n, |rows|);
    RowLies(rows, j);
    BeginWithin(rows, j + 1);
    if j > 0 {
      RowLies(rows, j - 1);
    } else {
      assert rows[..0] == [];
    }
  }

  lemma FirstBegins(rows: seq<Row>)
    requires rows != []
    ensures Begin(rows, 0) == 0 && Begin(rows, 1) == |EncodeRow(rows[0])|
  {
    assert rows[..0] == [];
    BeginNext(rows, 0);
  }

  lemma SplitAtRow(rows: seq<Row>, k: nat, head: bytes, tail: bytes)
    requires k <= |rows| && EncodeRows(rows) == head + tail && Begin(rows, k) == |head|
    ensures EncodeRows(rows[..k]) == head && EncodeRows(rows[k..]) == tail
  {
    assert rows == rows[..k] + rows[k..];
    EncodeRowsAppend(rows[..k], rows[k..]);
    var w := EncodeRows(rows);
    assert w[..|head|] == head && w[|head|..] == tail;
  }

  /** Any reading of the same bytes ends a row where the first row ends, if it is the last or its size does not fit. */
  lemma FirstBoundaryKept(a: seq<Row>, b: seq<Row>) returns (k: nat)
    requires HostRows(a) && HostRows(b) && EncodeRows(a) == EncodeRows(b) && a != []
    requires |a| > 1 ==> !FitsPath(a[0].size)
    ensures 1 <= k <= |b|
    ensures EncodeRows(b[..k]) == EncodeRow(a[0]) && EncodeRows(b[k..]) == EncodeRows(a[1..])
  {
    var w, n := EncodeRows(a), Begin(a, 1);
    FirstBegins(a);
    RowLies(a, 0);
    var j := RowOver(b, w, n);
    k := j + 1;
    if n < Begin(b, k) {
      if |a| > 1 {
        RowLies(a, 1);
        RunOverFits(w, a[0], a[1], Begin(b, j), b[j]);
      }
      assert false;
    }
    SplitAtRow(b, k, EncodeRow(a[0]), EncodeRows(a[1..]));
  }

  // ----- a catalog of any paths -----

  /** The path spells a whole row boundary: it reads as two rows in order. */
  ghost predicate HoldsBoundary(r: Row) {
    exists x: Row, y: Row :: HostRow(x) && HostRow(y) && RowLe(x, y) && r == Fused(x, y)
  }

  lemma SameRow(r: Row, rows: seq<Row>)
    requires HostRow(r) && rows != [] && HostRows(rows) && EncodeRows(rows) == EncodeRow(r)
    ensures r == FusedRun(rows)
  {
    assert rows[0] in rows;
    RunFits(rows);
    RunEncoding(rows);
    RowDetermined(r, FusedRun(rows));
  }

  lemma ManyRead(r: Row, rows: seq<Row>)
    requires HostRow(r) && |rows| > 1 && HostRows(rows) && Sorted(RowLe, rows) && EncodeRows(rows) == EncodeRow(r)
    ensures HoldsBoundary(r)
  {
    SameRow(r, rows);
    var rest := rows[1..];
    RunFits(rest);
    assert rows[0] in rows;
    FusedFits(rows[0], FusedRun(rest));
    RowLeTotalOrder();
    assert RowLe(rows[0], rest[0]);
    if |rest| > 1 {
      RunIsLater(rest);
    }
    assert HostRow(FusedRun(rest));
  }

  /** Nothing but the last size fits, and no path holds a boundary. */
  ghost predicate Firm(rows: seq<Row>) {
    && (forall k :: 0 <= k < |rows| - 1 ==> !FitsPath(rows[k].size))
    && (forall r :: r in rows ==> !HoldsBoundary(r))
  }

  lemma {:induction false} FirmDetermined(a: seq<Row>, b: seq<Row>)
    requires HostRows(a) && HostRows(b) && EncodeRows(a) == EncodeRows(b) && Sorted(RowLe, b) && Firm(a)
    ensures a == b
  {
    if a != [] {
      var k := FirstBoundaryKept(a, b);
      assert a[0] in a;
      if k > 1 {
        ManyRead(a[0], b[..k]);
      }
      SameRow(a[0], b[..k]);
      assert b[..1] == [b[0]];
      FirmTail(a);
      FirmDetermined(a[1..], b[1..]);
      Rejoin(a, b);
    }
  }

  lemma FirmTail(rows: seq<Row>)
    requires Firm(rows) && rows != []
    ensures Firm(rows[1..])
  {
    var rest := rows[1..];
    assert forall k :: 0 <= k < |rest| ==> rest[k] == rows[k + 1];
  }

  /** For paths of any kind: if no size but the last, in order, fits a path, and no path holds a boundary, then
      the catalog shares its pre-image with no other. */
  lemma FirmIsAlone(entries: seq<Row>, rows: seq<Row>)
    requires HostRows(entries) && rows == Sort(RowLe, entries) && Firm(rows)
    ensures Alone(entries)
  {
    forall other | Catalog(other) && SnapshotPreimage(other) == SnapshotPreimage(entries)
      ensures multiset(other) == multiset(entries)
    {
      SameKind(other, entries);
      SortedRows(other);
      SortedRows(entries);
      FirmDetermined(rows, Sort(RowLe, other));
    }
  }

  lemma SortedReplaced<T(!new)>(le: (T, T) -> bool, s: seq<T>, i: nat, j: nat, z: T)
    requires Preorder(le) && Sorted(le, s) && i <= j < |s|
    requires le(s[i], z) && (j + 1 < |s| ==> le(z, s[j + 1]))
    ensures Sorted(le, s[..i] + [z] + s[j + 1..])
  {
    var front, back := s[..i], s[j + 1..];
    assert forall m, n :: 0 <= m < i && 0 <= n < |back| ==> le(front[m], back[n]);
    forall m | 0 <= m < i ensures le(front[m], z) {
      assert le(s[m], s[i]);
    }
    forall n | 0 <= n < |back| ensures le(z, back[n]) {
      assert n > 0 ==> le(back[0], back[n]);
    }
    SortedJoined(le, front, z, back);
  }

  lemma SortedJoined<T(!new)>(le: (T, T) -> bool, front: seq<T>, z: T, back: seq<T>)
    requires Sorted(le, front) && Sorted(le, back)
    requires forall m, n :: 0 <= m < |front| && 0 <= n < |back| ==> le(front[m], back[n])
    requires (forall m :: 0 <= m < |front| ==> le(front[m], z)) && (forall n :: 0 <= n < |back| ==> le(z, back[n]))
    ensures Sorted(le, front + [z] + back)
  {
  }

  /** Rows i to j read as one: the sizes between them fit, and the row so read keeps the order. */
  ghost predicate CanFuse(rows: seq<Row>, i: nat, j: nat) {
    && i < j < |rows|
    && (forall k :: i <= k < j ==> FitsPath(rows[k].size))
    && (j + 1 < |rows| ==> RowLe(FusedRun(rows[i..j + 1]), rows[j + 1]))
  }

  ghost predicate SomeRunFuses(rows: seq<Row>) { exists i: nat, j: nat :: CanFuse(rows, i, j) }

  lemma InThree<T>(s: seq<T>, i: nat, j: nat)
    requires i <= j <= |s|
    ensures s == s[..i] + s[i..j] + s[j..]
  {
  }

  lemma FuseEncoding(front: seq<Row>, run: seq<Row>, back: seq<Row>)
    requires run != []
    ensures EncodeRows(front + [FusedRun(run)] + back) == EncodeRows(front + run + back)
  {
    EncodeRowsAppend(front + run, back);
    EncodeRowsAppend(front, run);
    EncodeRowsAppend(front + [FusedRun(run)], back);
    EncodeRowsSnoc(front, FusedRun(run));
    RunEncoding(run);
  }

  lemma FusedIsHost(rows: seq<Row>, i: nat, j: nat)
    requires HostRows(rows) && CanFuse(rows, i, j)
    ensures HostRow(FusedRun(rows[i..j + 1]))
  {
    var run := rows[i..j + 1];
    assert forall r :: r in run ==> r in rows;
    assert forall k :: 0 <= k < |run| - 1 ==> run[k] == rows[i + k];
    RunFits(run);
  }

  lemma {:induction false} FuseForges(rows: seq<Row>, i: nat, j: nat) returns (other: seq<Row>)
    requires HostRows(rows) && Sorted(RowLe, rows) && CanFuse(rows, i, j)
    ensures HostRows(other) && SnapshotPreimage(other) == EncodeRows(rows) && |other| < |rows|
  {
    var z := FusedRun(rows[i..j + 1]);
    other := rows[..i] + [z] + rows[j + 1..];
    FusedIsHost(rows, i, j);
    forall r | r in other ensures HostRow(r) {
      assert r == z || r in rows;
    }
    RunIsLater(rows[i..j + 1]);
    RowLeTotalOrder();
    SortedReplaced(RowLe, rows, i, j, z);
    SortedPreimage(other);
    InThree(rows, i, j + 1);
    FuseEncoding(rows[..i], rows[i..j + 1], rows[j + 1..]);
  }

  /** For paths of any kind: a run that can be read as one gives another catalog with the same pre-image. */
  lemma FusableIsNotAlone(entries: seq<Row>, rows: seq<Row>, i: nat, j: nat)
    requires HostRows(entries) && rows == Sort(RowLe, entries) && CanFuse(rows, i, j)
    ensures !Alone(entries)
  {
    SortedRows(entries);
    var other := FuseForges(rows, i, j);
    assert |multiset(other)| != |multiset(entries)|;
    assert Catalog(other);
  }

  lemma LastTwoFuse(rows: seq<Row>)
    requires |rows| >= 2 && FitsPath(rows[|rows| - 2].size)
    ensures CanFuse(rows, |rows| - 2, |rows| - 1)
  {
  }

  /** So it is if the last size but one fits: the last two rows can be read as one. */
  lemma LastTwoForged(entries: seq<Row>, rows: seq<Row>)
    requires HostRows(entries) && rows == Sort(RowLe, entries)
    requires |rows| >= 2 && FitsPath(rows[|rows| - 2].size)
    ensures !Alone(entries)
  {
    LastTwoFuse(rows);
    FusableIsNotAlone(entries, rows, |rows| - 2, |rows| - 1);
  }

  /** A catalog of one entry shares its pre-image with no other exactly when its path holds no boundary. */
  lemma OneAloneIff(r: Row)
    requires HostRow(r)
    ensures Alone([r]) <==> !HoldsBoundary(r)
  {
    if HoldsBoundary(r) {
      var x: Row, y: Row :| HostRow(x) && HostRow(y) && RowLe(x, y) && r == Fused(x, y);
      RowsForged(r, x, y);
      assert Catalog([x, y]) && |multiset([x, y])| == 2;
    } else {
      RowLeTotalOrder();
      SortKeepsSorted(RowLe, [r]);
      FirmIsAlone([r], [r]);
    }
  }

  // ----- a catalog whose paths hold no separator -----

  predicate PlainRow(r: Row) { HostRow(r) && US !in r.relPath && RS !in r.relPath }

  ghost predicate PlainRows(rows: seq<Row>) { forall r :: r in rows ==> PlainRow(r) }

  lemma NotInPath(w: bytes, at: nat, r: Row, k: nat)
    requires Spells(w, at, r) && PlainRow(r) && at + 12 <= k < PathEnd(at, r)
    ensures w[k] != US && w[k] != RS
  {
    assert w[at + 12 + (k - (at + 12))] == r.relPath[k - (at + 12)];
  }

  /** Another reading's first row that ends within a row of separator-free path ends where that row ends. */
  lemma EndsWithin(w: bytes, at: nat, r: Row, q: Row, next: Row)
    requires Spells(w, at, r) && PlainRow(r) && EndsRow(w, at) && Spells(w, 0, q)
    requires at < PathEnd(0, q) + 10 <= PathEnd(at, r) + 10
    requires PathEnd(0, q) < PathEnd(at, r) ==> Spells(w, PathEnd(0, q) + 10, next)
    ensures PathEnd(0, q) == PathEnd(at, r)
  {
    var m, n := PathEnd(0, q), PathEnd(at, r);
    if m < n {
      if at + 12 <= m {
        NotInPath(w, at, r, m);
      } else if at <= m < at + 11 {
        InId(w, at, r, m);
      } else if m == at + 11 {
        SeparatorIsNoEnd(w, at, r, next);
      } else {
        assert m < at;
        if at < m + 9 {
          InId(w, at, r, m + 8);
        }
      }
      assert false;
    }
  }

  /** The separator behind the id does not end a path. */
  lemma SeparatorIsNoEnd(w: bytes, at: nat, r: Row, next: Row)
    requires Spells(w, at, r) && PlainRow(r) && Spells(w, at + 21, next)
    ensures w[at + 20] != RS
  {
    var n := PathEnd(at, r);
    if at + 20 < n {
      NotInPath(w, at, r, at + 20);
    } else if at + 20 > n && n > at + 12 {
      InId(w, at + 21, next, n + 8);
      assert false;
    }
  }

  lemma FirstLies(rows: seq<Row>, w: bytes)
    requires HostRows(rows) && rows != [] && w == EncodeRows(rows)
    ensures Spells(w, 0, rows[0])
    ensures |EncodeRow(rows[0])| == PathEnd(0, rows[0]) + 10 <= |w|
  {
    var r, after := rows[0], EncodeRows(rows[1..]);
    assert r in rows && [] + EncodeRow(r) + after == w;
    RowSpells(w, [], r, after);
    RowLength(r);
  }

  /** The row after the first, if there is one. */
  lemma NextRow(rows: seq<Row>, w: bytes) returns (next: Row)
    requires HostRows(rows) && rows != [] && w == EncodeRows(rows)
    ensures |EncodeRow(rows[0])| < |w| ==> Spells(w, |EncodeRow(rows[0])|, next)
  {
    FirstBegins(rows);
    if |rows| > 1 {
      next := rows[1];
      RowLies(rows, 1);
    } else {
      WholePrefix(rows);
      next := rows[0];
    }
  }

  lemma FirstRowEnds(a: seq<Row>, b: seq<Row>, w: bytes) returns (k: nat)
    requires PlainRows(a) && HostRows(b) && w == EncodeRows(a) == EncodeRows(b) && b != []
    ensures k < |a| && Begin(a, k + 1) == |EncodeRow(b[0])|
  {
    FirstLies(b, w);
    var next := NextRow(b, w);
    k := RowOver(a, w, |EncodeRow(b[0])|);
    EndsWithin(w, Begin(a, k), a[k], b[0], next);
  }

  lemma RunIs(r: Row, rows: seq<Row>, n: nat)
    requires HostRow(r) && HostRows(rows) && 0 < n <= |rows| && EncodeRows(rows[..n]) == EncodeRow(r)
    ensures r == FusedRun(rows[..n]) && forall i :: 0 <= i < n - 1 ==> FitsPath(rows[i].size)
  {
    var run := rows[..n];
    assert forall q :: q in run ==> q in rows;
    SameRow(r, run);
    RunFits(run);
    assert forall i :: 0 <= i < n ==> run[i] == rows[i];
  }

  lemma RowsBehind(a: seq<Row>, b: seq<Row>, d: nat)
    requires PlainRows(a) && d <= |a| && HostRows(b) && b != []
    ensures PlainRows(a[d..]) && HostRows(b[1..])
  {
    assert forall r :: r in a[d..] ==> r in a;
    assert forall r :: r in b[1..] ==> r in b;
  }

  /** The first row of another reading is a run of rows read as one. */
  lemma FirstRun(a: seq<Row>, b: seq<Row>) returns (k: nat)
    requires PlainRows(a) && HostRows(b) && EncodeRows(a) == EncodeRows(b) && b != []
    ensures k < |a| && b[0] == FusedRun(a[..k + 1]) && EncodeRows(b[1..]) == EncodeRows(a[k + 1..])
    ensures (forall i :: 0 <= i < k ==> FitsPath(a[i].size)) && PlainRows(a[k + 1..]) && HostRows(b[1..])
  {
    k := FirstRowEnds(a, b, EncodeRows(a));
    SplitAtRow(a, k + 1, EncodeRow(b[0]), EncodeRows(b[1..]));
    assert b[0] in b;
    RunIs(b[0], a, k + 1);
    RowsBehind(a, b, k + 1);
  }

  lemma CanFuseLater(rows: seq<Row>, d: nat, i: nat, j: nat)
    requires d <= |rows| && CanFuse(rows[d..], i, j)
    ensures CanFuse(rows, d + i, d + j)
  {
    assert rows[d..][i..j + 1] == rows[d + i..d + j + 1];
    forall k | d + i <= k < d + j ensures FitsPath(rows[k].size) {
      assert rows[d..][k - d] == rows[k];
    }
  }

  lemma SomeLater(rows: seq<Row>, d: nat)
    requires d <= |rows| && SomeRunFuses(rows[d..])
    ensures SomeRunFuses(rows)
  {
    var i: nat, j: nat :| CanFuse(rows[d..], i, j);
    CanFuseLater(rows, d, i, j);
  }

  lemma FirstFuses(a: seq<Row>, b: seq<Row>, k: nat)
    requires 0 < k < |a| && b != [] && b[0] == FusedRun(a[..k + 1]) && b[1..] == a[k + 1..]
    requires Sorted(RowLe, b) && forall i :: 0 <= i < k ==> FitsPath(a[i].size)
    ensures CanFuse(a, 0, k)
  {
    assert a[0..k + 1] == a[..k + 1];
    if k + 1 < |a| {
      assert b[1..][0] == a[k + 1..][0];
      assert RowLe(b[0], b[1]);
    }
  }

  lemma OneIsSame(a: seq<Row>, b: seq<Row>)
    requires a != [] && b != [] && b[0] == FusedRun(a[..1]) && b[1..] == a[1..]
    ensures a == b
  {
    assert a[..1] == [a[0]];
    Rejoin(a, b);
  }

  lemma NotNothing(a: seq<Row>, b: seq<Row>)
    requires EncodeRows(a) == EncodeRows(b) && a != b
    ensures a != [] && b != []
  {
    assert a != [] ==> |EncodeRow(a[0])| > 0;
    assert b != [] ==> |EncodeRow(b[0])| > 0;
  }

  /** Another catalog's reading fuses some run in order. */
  lemma {:induction false} OtherFuses(a: seq<Row>, b: seq<Row>)
    requires PlainRows(a) && HostRows(b) && EncodeRows(a) == EncodeRows(b) && a != b && Sorted(RowLe, b)
    ensures SomeRunFuses(a)
    decreases |a|
  {
    NotNothing(a, b);
    var k := FirstRun(a, b);
    if b[1..] != a[k + 1..] {
      SortedTail(RowLe, b);
      OtherFuses(a[k + 1..], b[1..]);
      SomeLater(a, k + 1);
    } else if k == 0 {
      OneIsSame(a, b);
    } else {
      FirstFuses(a, b, k);
    }
  }

  lemma NothingFuses(entries: seq<Row>, rows: seq<Row>)
    requires PlainRows(entries) && rows == Sort(RowLe, entries) && !SomeRunFuses(rows)
    ensures Alone(entries)
  {
    SortedRows(entries);
    forall other | Catalog(other) && SnapshotPreimage(other) == SnapshotPreimage(entries)
      ensures multiset(other) == multiset(entries)
    {
      SameKind(other, entries);
      SortedRows(other);
      if rows != Sort(RowLe, other) {
        OtherFuses(rows, Sort(RowLe, other));
      }
    }
  }

  /** If no path holds a separator: the catalog shares its pre-image with no other exactly when no run of its rows,
      in order, can be read as one. */
  lemma PlainAloneIff(entries: seq<Row>, rows: seq<Row>)
    requires PlainRows(entries) && rows == Sort(RowLe, entries)
    ensures Alone(entries) <==> !SomeRunFuses(rows)
  {
    if i: nat, j: nat :| CanFuse(rows, i, j) {
      FusableIsNotAlone(entries, rows, i, j);
    } else {
      NothingFuses(entries, rows);
    }
  }

  // ----- printable and distinct paths -----

  predicate Printable(path: bytes) { forall c :: c in path ==> c >= 0x20 }

  /** A path that goes on with a separator still comes before the later printable paths. */
  lemma {:induction false} SeparatorComesFirst(p: bytes, q: bytes, z: bytes)
    requires BytesLe(p, q) && p != q && Printable(q)
    requires |z| > |p| && z[..|p|] == p && z[|p|] == US
    ensures BytesLe(z, q) && z != q
  {
    if p == [] {
      assert q[0] in q;
    } else {
      assert forall c :: c in q[1..] ==> c in q;
      assert z[1..][..|p| - 1] == p[1..];
      if p[0] == q[0] {
        assert p == [p[0]] + p[1..] && q == [q[0]] + q[1..];
        SeparatorComesFirst(p[1..], q[1..], z[1..]);
      }
    }
  }

  predicate DistinctPaths(rows: seq<Row>) {
    forall i, j :: 0 <= i < j < |rows| ==> rows[i].relPath != rows[j].relPath
  }

  lemma FitsCanFuse(rows: seq<Row>, k: nat)
    requires HostRows(rows) && Sorted(RowLe, rows) && DistinctPaths(rows)
    requires forall r :: r in rows ==> Printable(r.relPath)
    requires k + 1 < |rows| && FitsPath(rows[k].size)
    ensures CanFuse(rows, k, k + 1)
  {
    var run := rows[k..k + 2];
    RunIsLater(run);
    if k + 2 < |rows| {
      var q := rows[k + 2];
      assert RowLe(rows[k], q) && q in rows && rows[k] in rows;
      SeparatorComesFirst(rows[k].relPath, q.relPath, FusedRun(run).relPath);
    }
  }

  lemma PrintableIsPlain(rows: seq<Row>)
    requires HostRows(rows) && forall r :: r in rows ==> Printable(r.relPath)
    ensures PlainRows(rows)
  {
  }

  lemma SomeFits(rows: seq<Row>)
    requires HostRows(rows) && Sorted(RowLe, rows) && DistinctPaths(rows)
    requires forall r :: r in rows ==> Printable(r.relPath)
    ensures SomeRunFuses(rows) <==> exists k :: 0 <= k < |rows| - 1 && FitsPath(rows[k].size)
  {
    if k :| 0 <= k < |rows| - 1 && FitsPath(rows[k].size) {
      FitsCanFuse(rows, k);
    }
    if i: nat, j: nat :| CanFuse(rows, i, j) {
      assert FitsPath(rows[i].size);
    }
  }

  /** A catalog of distinct and printable paths shares its pre-image with no other exactly when no size but that of
      the last file, in order, fits a path. */
  lemma PrintableAloneIff(entries: seq<Row>, rows: seq<Row>)
    requires HostRows(entries) && rows == Sort(RowLe, entries) && DistinctPaths(rows)
    requires forall r :: r in entries ==> Printable(r.relPath)
    ensures Alone(entries) <==> forall k :: 0 <= k < |rows| - 1 ==> !FitsPath(rows[k].size)
  {
    SortedRows(entries);
    PrintableIsPlain(entries);
    PlainAloneIff(entries, rows);
    SomeFits(rows);
  }

  // ----- the smallest such catalogs -----

  lemma {:induction false} ZeroBytes(n: nat)
    ensures LittleEndian(0, n) == seq(n, i => 0)
  {
    if n > 0 {
      ZeroBytes(n - 1);
    }
  }

  lemma ZeroFits()
    ensures FitsPath(0)
  {
    ZeroBytes(8);
    AsciiIsText(U64Bytes(0));
  }

  /** 200 is c8 00 and so on, where c8 begins a character of two bytes. */
  lemma TwoHundredDoesNotFit()
    ensures !FitsPath(200)
  {
    ZeroBytes(7);
    assert U64Bytes(200)[0] == 0xc8 && U64Bytes(200)[1] == 0;
  }

  function FileA(size: u64): Row { Row(MEMORY, [97], size) }

  function FileB(size: u64): Row { Row(MEMORY, [98], size) }

  /** Files "a" and "b" can be read as one exactly when the size of "a" fits a path. */
  lemma TwoFilesAloneIff(s: u64, t: u64)
    requires s < 0x100_0000_0000_0000 && t < 0x100_0000_0000_0000
    ensures Alone([FileA(s), FileB(t)]) <==> !FitsPath(s)
  {
    var rows := [FileA(s), FileB(t)];
    AsciiIsText([97]);
    AsciiIsText([98]);
    RowLeTotalOrder();
    assert Sorted(RowLe, rows);
    SortKeepsSorted(RowLe, rows);
    PrintableAloneIff(rows, rows);
  }
}
