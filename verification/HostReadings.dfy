/**
 The exact condition under which an in-memory catalog of any paths is alone with its snapshot pre-image: a reader
 that lists every way to read the pre-image as rows finds no other that is in order.
 */
module HostReadings {
  import opened Common
  import opened Orders
  import opened HashChain
  import opened Pinning
  import opened HostCatalog

  /** The bytes begin with a row whose path ends at m. */
  predicate RowAt(b: bytes, m: nat) {
    && 12 <= m && m + 10 <= |b|
    && b[..11] == MEMORY && b[11] == US && HostPath(b[12..m])
    && b[m] == US && b[m + 9] == RS && FromLittleEndian(b[m + 1..m + 9]) < 0x100_0000_0000_0000
  }

  function RowOf(b: bytes, m: nat): Row
    requires RowAt(b, m)
  {
    Row(MEMORY, b[12..m], FromLittleEndian(b[m + 1..m + 9]))
  }

  /** Every way to read the bytes as rows of an in-memory catalog. */
  function Readings(b: bytes): set<seq<Row>>
    decreases |b|
  {
    if b == [] then {[]}
    else set m: nat, rest | 12 <= m <= |b| - 10 && RowAt(b, m) && rest in Readings(b[m + 10..]) :: [RowOf(b, m)] + rest
  }

  lemma RowOfEncoding(b: bytes, m: nat)
    requires RowAt(b, m)
    ensures HostRow(RowOf(b, m)) && EncodeRow(RowOf(b, m)) == b[..m + 10]
  {
    var size := b[m + 1..m + 9];
    LittleEndianOf(size);
    assert b[..m + 10] == b[..11] + [b[11]] + (b[12..m] + [b[m]] + (size + [b[m + 9]]));
  }

  lemma RowIsAt(r: Row, rest: bytes)
    requires HostRow(r)
    ensures RowAt(EncodeRow(r) + rest, 12 + |r.relPath|) && RowOf(EncodeRow(r) + rest, 12 + |r.relPath|) == r
    ensures (EncodeRow(r) + rest)[12 + |r.relPath| + 10..] == rest
  {
    var b, m := EncodeRow(r) + rest, 12 + |r.relPath|;
    assert [] + EncodeRow(r) + rest == b;
    RowSpells(b, [], r, rest);
    RowLength(r);
    U64BytesRoundTrip(r.size);
    assert b[..11] == MEMORY && b[12..m] == r.relPath;
  }

  lemma ReadOneMore(b: bytes, m: nat, rest: seq<Row>)
    requires RowAt(b, m) && HostRows(rest) && EncodeRows(rest) == b[m + 10..]
    ensures HostRows([RowOf(b, m)] + rest) && EncodeRows([RowOf(b, m)] + rest) == b
  {
    RowOfEncoding(b, m);
    assert ([RowOf(b, m)] + rest)[1..] == rest;
  }

  /** What the reader lists has that encoding. */
  lemma {:induction false} ReadingsEncode(b: bytes, rows: seq<Row>)
    requires rows in Readings(b)
    ensures HostRows(rows) && EncodeRows(rows) == b
    decreases |b|
  {
    if b != [] {
      var m: nat, rest :| 12 <= m <= |b| - 10 && RowAt(b, m) && rest in Readings(b[m + 10..])
                          && rows == [RowOf(b, m)] + rest;
      ReadingsEncode(b[m + 10..], rest);
      ReadOneMore(b, m, rest);
    }
  }

  lemma Headed<T>(s: seq<T>)
    requires s != []
    ensures s == [s[0]] + s[1..]
  {
  }

  /** The reader misses no rows with that encoding. */
  lemma {:induction false} EncodedIsRead(rows: seq<Row>)
    requires HostRows(rows)
    ensures rows in Readings(EncodeRows(rows))
  {
    if rows != [] {
      var r, rest := rows[0], rows[1..];
      assert r in rows;
      RowIsAt(r, EncodeRows(rest));
      EncodedIsRead(rest);
      Headed(rows);
    }
  }

  /** A catalog of any paths shares its pre-image with no other exactly when no other reading of it is in order. */
  lemma AloneIff(entries: seq<Row>, rows: seq<Row>)
    requires HostRows(entries) && rows == Sort(RowLe, entries)
    ensures Alone(entries) <==>
            forall other :: other in Readings(EncodeRows(rows)) && Sorted(RowLe, other) ==> other == rows
  {
    SortedRows(entries);
    if Alone(entries) {
      forall other | other in Readings(EncodeRows(rows)) && Sorted(RowLe, other) ensures other == rows {
        ReadingsEncode(EncodeRows(rows), other);
        SortedPreimage(other);
        assert Catalog(other);
        RowLeTotalOrder();
        SortedUnique(RowLe, other, rows);
      }
    }
    if forall other :: other in Readings(EncodeRows(rows)) && Sorted(RowLe, other) ==> other == rows {
      forall other | Catalog(other) && SnapshotPreimage(other) == SnapshotPreimage(entries)
        ensures multiset(other) == multiset(entries)
      {
        SameKind(other, entries);
        SortedRows(other);
        EncodedIsRead(Sort(RowLe, other));
      }
    }
  }
}
