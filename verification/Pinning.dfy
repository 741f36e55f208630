/**
 The byte strings behind a pinned run's digests: what is fed to the hasher for a repository snapshot
 and for a toolchain, and whether it can be read back.
 */
module Pinning {
  import opened Common
  import opened Orders
  import opened HashChain

  const US: byte := 0x1f
  const RS: byte := 0x1e

  // ----- the repository snapshot -----

  datatype Row = Row(rootId: bytes, relPath: bytes, size: u64)

  /** Tuple order: root, then path, then size. */
  predicate RowLe(a: Row, b: Row) {
    if a.rootId != b.rootId then BytesLe(a.rootId, b.rootId)
    else if a.relPath != b.relPath then BytesLe(a.relPath, b.relPath)
    else a.size <= b.size
  }

  lemma RowLeTotalOrder()
    ensures TotalOrder(RowLe)
  {
    BytesLeTotalOrder();
  }

  function EncodeRow(r: Row): bytes {
    r.rootId + [US] + (r.relPath + [US] + (U64Bytes(r.size) + [RS]))
  }

  function EncodeRows(rows: seq<Row>): bytes {
    if rows == [] then [] else EncodeRow(rows[0]) + EncodeRows(rows[1..])
  }

  /** What the snapshot digest is taken of. */
  function SnapshotPreimage(entries: seq<Row>): bytes {
    EncodeRows(Sort(RowLe, entries))
  }

  lemma {:induction false} EncodeRowsSnoc(rows: seq<Row>, r: Row)
    ensures EncodeRows(rows + [r]) == EncodeRows(rows) + EncodeRow(r)
  {
    if rows == [] {
      assert ([] + [r])[1..] == [];
    } else {
      assert (rows + [r])[1..] == rows[1..] + [r];
      EncodeRowsSnoc(rows[1..], r);
    }
  }

  /** The rows laid out one after another: id, unit separator, path, unit separator, the eight bytes of the size with
      the least significant first, record separator. */
  ghost predicate RowsLaid(rows: seq<Row>, b: bytes) {
    if rows == [] then b == []
    else exists size: bytes, rest: bytes :: RowLaid(rows[0], b, size, rest) && RowsLaid(rows[1..], rest)
  }

  predicate RowLaid(row: Row, b: bytes, size: bytes, rest: bytes) {
    b == row.rootId + [0x1f] + row.relPath + [0x1f] + size + [0x1e] + rest && ReadsU64(size, row.size)
  }

  /** The rows ascend by root id, then path, then size. */
  ghost predicate RowsAscend(rows: seq<Row>) {
    forall i, j :: 0 <= i < j < |rows| ==>
      && BytesLe(rows[i].rootId, rows[j].rootId)
      && (rows[i].rootId == rows[j].rootId ==> BytesLe(rows[i].relPath, rows[j].relPath))
      && (rows[i].rootId == rows[j].rootId && rows[i].relPath == rows[j].relPath ==> rows[i].size <= rows[j].size)
  }

  /** The pre-image laid out: the entries in order. */
  ghost predicate IsSnapshotPreimage(b: bytes, entries: seq<Row>) {
    exists rows: seq<Row> :: multiset(rows) == multiset(entries) && RowsAscend(rows) && RowsLaid(rows, b)
  }

  lemma RowLayout(id: bytes, path: bytes, size: bytes, rest: bytes)
    ensures id + [0x1f] + path + [0x1f] + size + [0x1e] + rest == (id + [US] + (path + [US] + (size + [RS]))) + rest
  {
  }

  lemma {:induction false} EncodedIsLaid(rows: seq<Row>)
    ensures RowsLaid(rows, EncodeRows(rows))
  {
    if rows != [] {
      var row, rest := rows[0], EncodeRows(rows[1..]);
      EncodedIsLaid(rows[1..]);
      U64BytesIff(U64Bytes(row.size), row.size);
      RowLayout(row.rootId, row.relPath, U64Bytes(row.size), rest);
      assert RowLaid(row, EncodeRows(rows), U64Bytes(row.size), rest);
    }
  }

  lemma PreimageIs(entries: seq<Row>)
    ensures IsSnapshotPreimage(SnapshotPreimage(entries), entries)
  {
    var rows := Sort(RowLe, entries);
    RowLeTotalOrder();
    BytesLeTotalOrder();
    SortSorts(RowLe, entries);
    EncodedIsLaid(rows);
  }

  method HashRepoSnapshot(hash: Hash, entries: seq<Row>) returns (digest: bytes)
    ensures exists b :: IsSnapshotPreimage(b, entries) && IsHexOf(digest, hash(b))
    ensures digest == Hex(hash(SnapshotPreimage(entries)))
  {
    PreimageIs(entries);
    HexSpells(hash(SnapshotPreimage(entries)));
    var rows := Sort(RowLe, entries);
    var fed: bytes := [];
    for i := 0 to |rows|
      invariant fed == EncodeRows(rows[..i])
    {
      var row := rows[i];
      fed := fed + (row.rootId + [US] + (row.relPath + [US] + (U64Bytes(row.size) + [RS])));
      EncodeRowsSnoc(rows[..i], row);
      assert rows[..i + 1] == rows[..i] + [row];
    }
    assert rows[..|rows|] == rows;
    digest := Hex(hash(fed));
  }

  /** The order in which entries are listed does not matter. */
  lemma SnapshotForgetsOrder(entries: seq<Row>, entries': seq<Row>)
    requires multiset(entries) == multiset(entries')
    ensures SnapshotPreimage(entries) == SnapshotPreimage(entries')
  {
    RowLeTotalOrder();
    SortForgetsOrder(RowLe, entries, entries');
  }

  /** Reads one row off the front. */
  function DecodeRow(b: bytes): (r: Option<(Row, bytes)>)
    ensures r.Some? ==> |r.value.1| < |b|
  {
    match Until(b, US)
    case None => None
    case Some((rootId, b1)) =>
      match Until(b1, US)
      case None => None
      case Some((relPath, b2)) =>
        if |b2| < 9 || b2[8] != RS || FromLittleEndian(b2[..8]) >= 0x1_0000_0000_0000_0000 then None
        else Some((Row(rootId, relPath, FromLittleEndian(b2[..8])), b2[9..]))
  }

  function DecodeRows(b: bytes): Option<seq<Row>>
    decreases |b|
  {
    if b == [] then Some([])
    else
      match DecodeRow(b)
      case None => None
      case Some((row, rest)) =>
        match DecodeRows(rest)
        case None => None
        case Some(rows) => Some([row] + rows)
  }

  /** The guard: neither the root id nor the path contains the unit separator. */
  predicate SeparatorFree(r: Row) { US !in r.rootId && US !in r.relPath }

  lemma DecodeRowOf(r: Row, rest: bytes)
    requires SeparatorFree(r)
    ensures DecodeRow(EncodeRow(r) + rest) == Some((r, rest))
  {
    var b2 := U64Bytes(r.size) + [RS] + rest;
    var b1 := r.relPath + [US] + b2;
    assert EncodeRow(r) + rest == r.rootId + [US] + b1;
    UntilSplits(r.rootId, US, b1);
    UntilSplits(r.relPath, US, b2);
    assert b2[..8] == U64Bytes(r.size) && b2[9..] == rest;
    U64BytesRoundTrip(r.size);
  }

  lemma {:induction false} DecodeRowsOf(rows: seq<Row>)
    requires forall r :: r in rows ==> SeparatorFree(r)
    ensures DecodeRows(EncodeRows(rows)) == Some(rows)
  {
    if rows != [] {
      DecodeRowOf(rows[0], EncodeRows(rows[1..]));
      DecodeRowsOf(rows[1..]);
      assert rows == [rows[0]] + rows[1..];
    }
  }

  /** From the pre-image of separator-free entries the entries can be read back, with multiplicity. */
  lemma SnapshotDecodes(entries: seq<Row>)
    requires forall r :: r in entries ==> SeparatorFree(r)
    ensures DecodeRows(SnapshotPreimage(entries)).Some?
    ensures multiset(DecodeRows(SnapshotPreimage(entries)).value) == multiset(entries)
  {
    var rows := Sort(RowLe, entries);
    RowLeTotalOrder();
    SortSorts(RowLe, entries);
    forall r | r in rows ensures SeparatorFree(r) {
      assert r in multiset(rows);
    }
    DecodeRowsOf(rows);
  }

  // ----- rows a catalog can list -----

  /** "root-" in ASCII: the ids of the roots of a policy are this and a number. */
  const ROOT: bytes := [114, 111, 111, 116, 45]

  /** An id such as "root-0" or "memory-root": six bytes or more, neither a unit separator nor NUL among them. */
  predicate PlainId(id: bytes) { |id| >= 6 && US !in id && 0 !in id }

  lemma PolicyIdIsPlain(index: nat)
    ensures PlainId(ROOT + DecimalBytes(index))
  {
    var id := ROOT + DecimalBytes(index);
    forall c | c in id ensures c != US && c != 0 {
      assert c in ROOT || c in DecimalBytes(index);
    }
  }

  /** A row of a catalog: a plain root id, a path without NUL or without unit separators, and a size below 2^56.
      Every path of a file system is free of NUL. */
  predicate CatalogRow(r: Row) {
    PlainId(r.rootId) && (0 !in r.relPath || US !in r.relPath) && r.size < 0x100_0000_0000_0000
  }

  lemma {:induction false} TopByte(x: nat, n: nat)
    requires x < Pow256(n)
    ensures LittleEndian(x, n + 1)[n] == 0
  {
    if n > 0 {
      assert x / 256 < Pow256(n - 1);
      TopByte(x / 256, n - 1);
    }
  }

  lemma SizeTopByte(size: u64)
    requires size < 0x100_0000_0000_0000
    ensures U64Bytes(size)[7] == 0
  {
    assert Pow256(2) == 0x1_0000 && Pow256(4) == 0x1_0000_0000 && Pow256(6) == 0x1_0000_0000_0000;
    assert Pow256(7) == 0x100_0000_0000_0000;
    TopByte(size, 7);
  }

  /** A path, what ends its row, and what follows. */
  predicate EndsAt(whole: bytes, n: nat, after: bytes) {
    && |whole| == n + 10 + |after|
    && whole[n] == US && whole[n + 8] == 0 && whole[n + 9] == RS
    && forall i :: 0 <= i < |after| ==> whole[n + 10 + i] == after[i]
  }

  /** The first m bytes hold no NUL, or no unit separator. */
  predicate PathBytes(whole: bytes, m: nat)
    requires m <= |whole|
  {
    (forall i :: 0 <= i < m ==> whole[i] != 0) || (forall i :: 0 <= i < m ==> whole[i] != US)
  }

  lemma RowEnds(path: bytes, size: u64, after: bytes, whole: bytes)
    requires size < 0x100_0000_0000_0000 && whole == path + [US] + (U64Bytes(size) + [RS]) + after
    requires 0 !in path || US !in path
    ensures EndsAt(whole, |path|, after) && PathBytes(whole, |path|)
  {
    SizeTopByte(size);
    assert whole[|path| + 8] == U64Bytes(size)[7];
    assert forall i :: 0 <= i < |path| ==> whole[i] == path[i];
  }

  /** What follows a row is nothing or begins with a plain id and a separator. */
  predicate Follows(after: bytes) {
    after == [] || (|after| >= 6 && forall i :: 0 <= i < 6 ==> after[i] != 0)
  }

  lemma NoNulAfter(whole: bytes, n: nat, after: bytes)
    requires EndsAt(whole, n, after) && Follows(after)
    ensures forall k :: n + 9 <= k < n + 16 && k < |whole| ==> whole[k] != 0
  {
    forall k | n + 9 <= k < n + 16 && k < |whole| ensures whole[k] != 0 {
      if k > n + 9 {
        assert whole[n + 10 + (k - n - 10)] == after[k - n - 10];
      }
    }
  }

  /** No second reading can end a longer path: it would need a NUL where there is none. */
  lemma NoLongerEnd(whole: bytes, n: nat, m: nat, after: bytes, after': bytes)
    requires EndsAt(whole, n, after) && EndsAt(whole, m, after') && Follows(after)
    requires PathBytes(whole, m)
    ensures m <= n
  {
    NoNulAfter(whole, n, after);
    // if n < m, then m < n + 8, for byte n + 8 is NUL, and byte m + 8 is NUL and falls on the
    // record separator or in an id
  }

  lemma RowsFollow(rows: seq<Row>)
    requires forall r :: r in rows ==> CatalogRow(r)
    ensures Follows(EncodeRows(rows))
  {
    if rows != [] {
      var id := rows[0].rootId;
      assert rows[0] in rows;
      forall i | 0 <= i < 6 ensures EncodeRows(rows)[i] != 0 {
        assert EncodeRows(rows)[i] == id[i] && id[i] in id;
      }
    }
  }

  lemma SplitRow(r: Row, after: bytes, rest: bytes)
    requires US !in r.rootId && rest == r.relPath + [US] + (U64Bytes(r.size) + [RS]) + after
    ensures Until(EncodeRow(r) + after, US) == Some((r.rootId, rest))
  {
    assert EncodeRow(r) + after == r.rootId + [US] + rest;
    UntilSplits(r.rootId, US, rest);
  }

  lemma SameSize(s: u64, t: u64, rest: bytes, rest': bytes)
    requires [US] + (U64Bytes(s) + [RS]) + rest == [US] + (U64Bytes(t) + [RS]) + rest'
    ensures s == t && rest == rest'
  {
    var w, w' := [US] + (U64Bytes(s) + [RS]) + rest, [US] + (U64Bytes(t) + [RS]) + rest';
    assert w[1..9] == U64Bytes(s) && w'[1..9] == U64Bytes(t);
    assert w[10..] == rest && w'[10..] == rest';
    U64BytesRoundTrip(s);
    U64BytesRoundTrip(t);
  }

  lemma SameEnding(p: bytes, s: u64, rest: bytes, q: bytes, t: u64, rest': bytes)
    requires |p| == |q| && p + [US] + (U64Bytes(s) + [RS]) + rest == q + [US] + (U64Bytes(t) + [RS]) + rest'
    ensures p == q && s == t && rest == rest'
  {
    var w := p + [US] + (U64Bytes(s) + [RS]) + rest;
    assert p == w[..|p|] == q;
    assert w[|p|..] == [US] + (U64Bytes(s) + [RS]) + rest == [US] + (U64Bytes(t) + [RS]) + rest';
    SameSize(s, t, rest, rest');
  }

  /** The first row is read in one way only. */
  lemma FirstRowDetermined(r: Row, after: bytes, r': Row, after': bytes)
    requires CatalogRow(r) && CatalogRow(r') && Follows(after) && Follows(after')
    requires EncodeRow(r) + after == EncodeRow(r') + after'
    ensures r == r' && after == after'
  {
    var rest := r.relPath + [US] + (U64Bytes(r.size) + [RS]) + after;
    var rest' := r'.relPath + [US] + (U64Bytes(r'.size) + [RS]) + after';
    SplitRow(r, after, rest);
    SplitRow(r', after', rest');
    RowEnds(r.relPath, r.size, after, rest);
    RowEnds(r'.relPath, r'.size, after', rest);
    NoLongerEnd(rest, |r.relPath|, |r'.relPath|, after, after');
    NoLongerEnd(rest, |r'.relPath|, |r.relPath|, after', after);
    SameEnding(r.relPath, r.size, after, r'.relPath, r'.size, after');
  }

  /** Whatever separators the paths hold, the rows of a catalog are determined by their encoding. */
  lemma {:induction false} CatalogRowsDetermined(a: seq<Row>, b: seq<Row>)
    requires (forall r :: r in a ==> CatalogRow(r)) && (forall r :: r in b ==> CatalogRow(r))
    requires EncodeRows(a) == EncodeRows(b)
    ensures a == b
    decreases |a|
  {
    if a != [] && b != [] {
      RowsFollow(a[1..]);
      RowsFollow(b[1..]);
      FirstRowDetermined(a[0], EncodeRows(a[1..]), b[0], EncodeRows(b[1..]));
      CatalogRowsDetermined(a[1..], b[1..]);
      assert a == [a[0]] + a[1..] && b == [b[0]] + b[1..];
    }
  }

  lemma SortedRows(entries: seq<Row>)
    ensures multiset(Sort(RowLe, entries)) == multiset(entries) && Sorted(RowLe, Sort(RowLe, entries))
    ensures forall r :: r in Sort(RowLe, entries) <==> r in entries
  {
    RowLeTotalOrder();
    SortSorts(RowLe, entries);
    forall r ensures r in Sort(RowLe, entries) <==> r in entries {
      assert r in entries <==> r in multiset(entries);
    }
  }

  /** So is a catalog by its pre-image. */
  lemma SnapshotDetermined(a: seq<Row>, b: seq<Row>)
    requires forall r :: r in a || r in b ==> CatalogRow(r)
    requires SnapshotPreimage(a) == SnapshotPreimage(b)
    ensures multiset(a) == multiset(b)
  {
    SortedRows(a);
    SortedRows(b);
    CatalogRowsDetermined(Sort(RowLe, a), Sort(RowLe, b));
  }

  /** Catalogs with the same digest have the same entries, or a collision is at hand; entries free of unit
      separators likewise, whatever their ids and sizes. */
  lemma SnapshotDigestCommits(hash: Hash, a: seq<Row>, b: seq<Row>)
    requires || (forall r :: r in a || r in b ==> CatalogRow(r))
             || (forall r :: r in a || r in b ==> SeparatorFree(r))
    requires Hex(hash(SnapshotPreimage(a))) == Hex(hash(SnapshotPreimage(b)))
    ensures multiset(a) == multiset(b) || Collision(hash, SnapshotPreimage(a), SnapshotPreimage(b))
  {
    SameHexDigest(hash, SnapshotPreimage(a), SnapshotPreimage(b));
    if SnapshotPreimage(a) == SnapshotPreimage(b) {
      if forall r :: r in a || r in b ==> CatalogRow(r) {
        SnapshotDetermined(a, b);
      } else {
        SnapshotDecodes(a);
        SnapshotDecodes(b);
      }
    }
  }

  // ----- two rows read as one -----

  /** Two rows read as one: the boundary between them goes into the path. */
  function Fused(x: Row, y: Row): Row {
    Row(x.rootId, x.relPath + [US] + (U64Bytes(x.size) + [RS]) + (y.rootId + [US] + y.relPath), y.size)
  }

  /** One row, or two: the encoding is the same. */
  lemma FusedEncoding(x: Row, y: Row)
    ensures EncodeRow(Fused(x, y)) == EncodeRow(x) + EncodeRow(y)
  {
  }

  lemma {:induction false} LongerIsLater(a: bytes, b: bytes)
    requires |a| < |b| && b[..|a|] == a
    ensures BytesLe(a, b)
  {
    if a != [] {
      assert b[1..][..|a| - 1] == a[1..];
      LongerIsLater(a[1..], b[1..]);
    }
  }

  lemma FusedIsLater(x: Row, y: Row)
    ensures RowLe(x, Fused(x, y)) && Fused(x, y) != x
  {
    LongerIsLater(x.relPath, Fused(x, y).relPath);
  }

  /** Rows with separator-free ids, one by one, are determined by their encodings: for every path and size. */
  lemma RowDetermined(r: Row, r': Row)
    requires US !in r.rootId && US !in r'.rootId && EncodeRow(r) == EncodeRow(r')
    ensures r == r'
  {
    var rest, rest' := r.relPath + [US] + (U64Bytes(r.size) + [RS]), r'.relPath + [US] + (U64Bytes(r'.size) + [RS]);
    UntilSplits(r.rootId, US, rest);
    UntilSplits(r'.rootId, US, rest');
    assert |rest| == |r.relPath| + 10 && |rest'| == |r'.relPath| + 10;
    assert rest + [] == rest && rest' + [] == rest';
    SameEnding(r.relPath, r.size, [], r'.relPath, r'.size, []);
  }

  lemma SortedPreimage(rows: seq<Row>)
    requires Sorted(RowLe, rows)
    ensures SnapshotPreimage(rows) == EncodeRows(rows)
  {
    RowLeTotalOrder();
    SortKeepsSorted(RowLe, rows);
  }

  lemma SameBytes(a: bytes, b: bytes, c: bytes)
    ensures a + (b + c) == (a + b) + c
  {
  }

  lemma SortedFront<T>(le: (T, T) -> bool, front: seq<T>, x: T)
    requires Sorted(le, front + [x])
    ensures Sorted(le, front)
  {
    assert forall i :: 0 <= i < |front| ==> (front + [x])[i] == front[i];
  }

  lemma OneRow(r: Row)
    ensures SnapshotPreimage([r]) == EncodeRow(r)
  {
    assert [r][1..] == [];
    SortedPreimage([r]);
    assert EncodeRow(r) + [] == EncodeRow(r);
  }

  lemma RowsForged(r: Row, x: Row, y: Row)
    requires RowLe(x, y) && r == Fused(x, y)
    ensures SnapshotPreimage([x, y]) == SnapshotPreimage([r])
  {
    RowLeTotalOrder();
    FusedEncoding(x, y);
    OneRow(r);
    SortedPreimage([x, y]);
    assert [x, y][1..] == [y] && [y][1..] == [];
    assert EncodeRow(y) + [] == EncodeRow(y);
  }
}
