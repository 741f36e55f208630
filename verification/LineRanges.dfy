/**
 Line ranges and their normal form: clamp into the text, sort, merge what overlaps or touches
 under the same label.
 */
module LineRanges {
  import opened Common
  import opened Orders

  const USIZE_MAX: int := 0xFFFF_FFFF_FFFF_FFFF
  const ISIZE_MAX: int := 0x7FFF_FFFF_FFFF_FFFF

  type usize = x: int | 0 <= x <= USIZE_MAX

  /** The length of a vector; the allocator bounds it by isize::MAX. */
  type length = x: int | 0 <= x <= ISIZE_MAX

  function SaturatingAdd(a: usize, b: usize): usize {
    if a + b > USIZE_MAX then USIZE_MAX else a + b
  }

  function SaturatingSub(a: usize, b: usize): usize {
    if a < b then 0 else a - b
  }

  function Max(a: int, b: int): int { if a < b then b else a }

  function Min(a: int, b: int): int { if a < b then a else b }

  /** An inclusive range of 1-based lines, under an optional label (`tag`). */
  datatype LineRange = LineRange(start: usize, end: usize, tag: Option<string>)

  predicate InBounds(r: LineRange, count: length) {
    1 <= r.start <= r.end <= count
  }

  // ----- clamp, sort, merge -----

  function ClampRange(r: LineRange, count: length): (c: LineRange)
    requires count > 0
    ensures InBounds(c, count) && (InBounds(r, count) ==> c == r) && c.tag == r.tag
  {
    var start := Min(Max(r.start, 1), count);
    LineRange(start, Min(Max(r.end, start), count), r.tag)
  }

  function AbsDiff(a: int, b: int): nat { if a < b then b - a else a - b }

  /** The start moves to the nearest line that is there, and the end to the nearest from that line on. */
  lemma ClampsToNearest(r: LineRange, count: length, l: int)
    requires count > 0
    ensures 1 <= l <= count ==> AbsDiff(ClampRange(r, count).start, r.start) <= AbsDiff(l, r.start)
    ensures ClampRange(r, count).start <= l <= count ==> AbsDiff(ClampRange(r, count).end, r.end) <= AbsDiff(l, r.end)
  {
  }

  function ClampAll(rs: seq<LineRange>, count: length): (cs: seq<LineRange>)
    requires count > 0
    ensures |cs| == |rs| && forall i :: 0 <= i < |rs| ==> cs[i] == ClampRange(rs[i], count)
  {
    seq(|rs|, i requires 0 <= i < |rs| => ClampRange(rs[i], count))
  }

  predicate KeyLe(a: LineRange, b: LineRange) {
    a.start < b.start || (a.start == b.start && a.end <= b.end)
  }

  predicate Mergeable(last: LineRange, r: LineRange) {
    r.start <= SaturatingAdd(last.end, 1) && r.tag == last.tag
  }

  /** One step of the merge: extend the last range, or start a new one. */
  function MergeInto(merged: seq<LineRange>, r: LineRange): seq<LineRange> {
    if merged != [] && Mergeable(merged[|merged| - 1], r) then
      var last := merged[|merged| - 1];
      merged[..|merged| - 1] + [last.(end := Max(last.end, r.end))]
    else merged + [r]
  }

  function Merged(rs: seq<LineRange>): seq<LineRange> {
    if rs == [] then [] else MergeInto(Merged(rs[..|rs| - 1]), rs[|rs| - 1])
  }

  function Normalized(rs: seq<LineRange>, count: length): seq<LineRange> {
    if count == 0 then [] else Merged(Sort(KeyLe, ClampAll(rs, count)))
  }

  method MergeRanges(ranges: seq<LineRange>) returns (merged: seq<LineRange>)
    ensures merged == Merged(ranges)
  {
    merged := [];
    for i := 0 to |ranges|
      invariant merged == Merged(ranges[..i])
    {
      assert ranges[..i + 1][..i] == ranges[..i];
      var range := ranges[i];
      if merged != [] {
        var last := merged[|merged| - 1];
        if range.start <= SaturatingAdd(last.end, 1) && range.tag == last.tag {
          merged := merged[|merged| - 1 := last.(end := Max(last.end, range.end))];
          continue;
        }
      }
      merged := merged + [range];
    }
    assert ranges[..|ranges|] == ranges;
  }

  method NormalizeRanges(ranges: seq<LineRange>, count: length) returns (r: seq<LineRange>)
    ensures r == Normalized(ranges, count)
  {
    if count == 0 {
      return [];
    }
    r := MergeRanges(Sort(KeyLe, ClampAll(ranges, count)));
  }

  // ----- the normal form -----

  predicate Holds(r: LineRange, line: int, tag: Option<string>) {
    r.tag == tag && r.start <= line <= r.end
  }

  predicate Covers(rs: seq<LineRange>, line: int, tag: Option<string>) {
    exists r | r in rs :: Holds(r, line, tag)
  }

  /** Sorted, and no two neighbours could be merged. */
  ghost predicate Separated(rs: seq<LineRange>) {
    && Sorted(KeyLe, rs)
    && forall i :: 0 < i < |rs| ==> !Mergeable(rs[i - 1], rs[i])
  }

  ghost predicate Canonical(rs: seq<LineRange>, count: length) {
    Separated(rs) && forall r :: r in rs ==> InBounds(r, count)
  }

  lemma KeyLePreorder()
    ensures Preorder(KeyLe)
  {
  }

  lemma SortedSnoc<T>(le: (T, T) -> bool, s: seq<T>, x: T)
    requires Sorted(le, s) && forall y :: y in s ==> le(y, x)
    ensures Sorted(le, s + [x])
  {
  }

  /** Merging one more range into a separated list, when it sorts after all of it. */
  lemma MergeIntoSeparated(merged: seq<LineRange>, r: LineRange, count: length)
    requires Canonical(merged, count) && InBounds(r, count)
    requires merged != [] ==> merged[|merged| - 1].start <= r.start
    requires merged != [] && merged[|merged| - 1].start == r.start ==> merged[|merged| - 1].end <= r.end
    ensures Canonical(MergeInto(merged, r), count)
    ensures var m := MergeInto(merged, r);
            m[|m| - 1].start < r.start || (m[|m| - 1].start == r.start && m[|m| - 1].end == r.end)
  {
    if merged != [] {
      var front, last := merged[..|merged| - 1], merged[|merged| - 1];
      assert merged == front + [last];
      assert last in merged;
      forall y | y in merged ensures KeyLe(y, last) {
        var i :| 0 <= i < |merged| && merged[i] == y;
        assert i == |merged| - 1 || KeyLe(merged[i], merged[|merged| - 1]);
      }
      if Mergeable(last, r) {
        var last' := last.(end := Max(last.end, r.end));
        forall y | y in front ensures KeyLe(y, last') {
          assert y in merged;
        }
        SortedSnoc(KeyLe, front, last');
      } else {
        SortedSnoc(KeyLe, merged, r);
      }
    }
  }

  lemma CoversSnoc(rs: seq<LineRange>, r: LineRange, line: int, tag: Option<string>)
    ensures Covers(rs + [r], line, tag) <==> Covers(rs, line, tag) || Holds(r, line, tag)
  {
    assert forall x :: x in rs + [r] <==> x in rs || x == r;
  }

  lemma MergeIntoCovers(merged: seq<LineRange>, r: LineRange, count: length, line: int, tag: Option<string>)
    requires InBounds(r, count)
    requires merged != [] ==> InBounds(merged[|merged| - 1], count) && merged[|merged| - 1].start <= r.start
    ensures Covers(MergeInto(merged, r), line, tag) <==> Covers(merged, line, tag) || Holds(r, line, tag)
  {
    if merged != [] && Mergeable(merged[|merged| - 1], r) {
      var front, last := merged[..|merged| - 1], merged[|merged| - 1];
      var last' := last.(end := Max(last.end, r.end));
      assert merged == front + [last];
      CoversSnoc(front, last, line, tag);
      CoversSnoc(front, last', line, tag);
    } else {
      CoversSnoc(merged, r, line, tag);
    }
  }

  /** In bounds, each range sorting no earlier than the one before. */
  ghost predicate Ascends(rs: seq<LineRange>, count: length) {
    && (forall i :: 0 <= i < |rs| ==> InBounds(rs[i], count))
    && (forall i :: 0 < i < |rs| ==> KeyLe(rs[i - 1], rs[i]))
  }

  lemma AscendsFront(rs: seq<LineRange>, count: length)
    requires Ascends(rs, count) && rs != []
    ensures Ascends(rs[..|rs| - 1], count)
    ensures |rs| > 1 ==> KeyLe(rs[|rs| - 2], rs[|rs| - 1])
  {
  }

  /** Merging an ascending list: canonical, and never sorting past its input's last range. */
  lemma {:induction false} MergedIsCanonical(rs: seq<LineRange>, count: length)
    requires Ascends(rs, count)
    ensures Canonical(Merged(rs), count)
    ensures rs != [] ==> Merged(rs) != []
    ensures rs != [] ==> var m, r := Merged(rs)[|Merged(rs)| - 1], rs[|rs| - 1];
                         m.start < r.start || (m.start == r.start && m.end == r.end)
  {
    if rs != [] {
      AscendsFront(rs, count);
      MergedIsCanonical(rs[..|rs| - 1], count);
      MergeIntoSeparated(Merged(rs[..|rs| - 1]), rs[|rs| - 1], count);
    }
  }

  lemma {:induction false} MergedCovers(rs: seq<LineRange>, count: length, line: int, tag: Option<string>)
    requires Ascends(rs, count)
    ensures Covers(Merged(rs), line, tag) <==> Covers(rs, line, tag)
  {
    if rs != [] {
      var front, r := rs[..|rs| - 1], rs[|rs| - 1];
      assert rs == front + [r];
      AscendsFront(rs, count);
      MergedCovers(front, count, line, tag);
      MergedBefore(front, count);
      MergeIntoCovers(Merged(front), r, count, line, tag);
      CoversSnoc(front, r, line, tag);
    }
  }

  lemma MergedBefore(rs: seq<LineRange>, count: length)
    requires Ascends(rs, count)
    ensures Merged(rs) != [] ==> rs != [] && InBounds(Merged(rs)[|Merged(rs)| - 1], count)
                                 && Merged(rs)[|Merged(rs)| - 1].start <= rs[|rs| - 1].start
  {
    MergedIsCanonical(rs, count);
    if Merged(rs) != [] {
      assert Merged(rs)[|Merged(rs)| - 1] in Merged(rs);
    }
  }

  /** The normal form is canonical, and covers, per label, exactly the clamped ranges' lines. */
  lemma NormalizedIsCanonical(rs: seq<LineRange>, count: length)
    ensures Canonical(Normalized(rs, count), count)
    ensures count > 0 ==> forall line, tag ::
                            Covers(Normalized(rs, count), line, tag) <==> Covers(ClampAll(rs, count), line, tag)
  {
    if count > 0 {
      var cs := ClampAll(rs, count);
      KeyLePreorder();
      SortSorts(KeyLe, cs);
      var sorted := Sort(KeyLe, cs);
      forall r ensures r in sorted <==> r in cs {
        assert r in multiset(sorted) <==> r in multiset(cs);
      }
      assert forall i :: 0 <= i < |sorted| ==> sorted[i] in cs;
      MergedIsCanonical(sorted, count);
      forall line, tag {
        MergedCovers(sorted, count, line, tag);
      }
    }
  }

  /** The ranges ascend by start and then end, and neighbours under one label neither overlap nor touch. */
  ghost predicate SpreadOut(rs: seq<LineRange>) {
    && (forall i, j :: 0 <= i < j < |rs| ==>
          rs[i].start < rs[j].start || (rs[i].start == rs[j].start && rs[i].end <= rs[j].end))
    && forall i :: 0 < i < |rs| && rs[i - 1].tag == rs[i].tag ==> rs[i - 1].end + 1 < rs[i].start
  }

  lemma NormalizedIsSpreadOut(rs: seq<LineRange>, count: length)
    ensures SpreadOut(Normalized(rs, count))
  {
    NormalizedIsCanonical(rs, count);
    CanonicalIsSpreadOut(Normalized(rs, count), count);
  }

  lemma CanonicalIsSpreadOut(rs: seq<LineRange>, count: length)
    requires Canonical(rs, count)
    ensures SpreadOut(rs)
  {
    forall i | 0 < i < |rs| && rs[i - 1].tag == rs[i].tag ensures rs[i - 1].end + 1 < rs[i].start {
      assert !Mergeable(rs[i - 1], rs[i]) && rs[i - 1] in rs;
    }
  }

  lemma {:induction false} MergedKeepsSeparated(rs: seq<LineRange>)
    requires Separated(rs)
    ensures Merged(rs) == rs
  {
    if rs != [] {
      var front := rs[..|rs| - 1];
      assert rs == front + [rs[|rs| - 1]];
      MergedKeepsSeparated(front);
    }
  }

  /** Normalizing again changes nothing. */
  lemma NormalizedIdempotent(rs: seq<LineRange>, count: length)
    ensures Normalized(Normalized(rs, count), count) == Normalized(rs, count)
  {
    NormalizedIsCanonical(rs, count);
    CanonicalIsNormal(Normalized(rs, count), count);
  }

  lemma CanonicalIsNormal(rs: seq<LineRange>, count: length)
    requires Canonical(rs, count)
    ensures Normalized(rs, count) == rs
  {
    if count > 0 {
      assert forall i :: 0 <= i < |rs| ==> rs[i] in rs;
      assert ClampAll(rs, count) == rs;
      KeyLePreorder();
      SortKeepsSorted(KeyLe, rs);
      MergedKeepsSeparated(rs);
    } else if rs != [] {
      NonemptyCovers(rs, count);
    }
  }

  lemma NonemptyCovers(rs: seq<LineRange>, count: length)
    requires Canonical(rs, count) && rs != []
    ensures count > 0 && Covers(rs, rs[0].start, rs[0].tag)
  {
    assert rs[0] in rs;
  }

  // ----- uniqueness -----

  ghost predicate OneLabel(rs: seq<LineRange>, tag: Option<string>) {
    forall i :: 0 <= i < |rs| ==> rs[i].tag == tag
  }

  /** With one label, later ranges of a canonical list lie beyond the end of the first, with a gap. */
  lemma FirstIsApart(rs: seq<LineRange>, count: length, tag: Option<string>, j: nat)
    requires Canonical(rs, count) && OneLabel(rs, tag) && 0 < j < |rs|
    ensures rs[0].end + 1 < rs[j].start
    decreases j
  {
    assert rs[j] in rs && rs[j - 1] in rs;
    assert !Mergeable(rs[j - 1], rs[j]);
    if j > 1 {
      FirstIsApart(rs, count, tag, j - 1);
    }
  }

  /** The first range of a canonical list is the leftmost maximal run of covered lines. */
  lemma FirstIsLeftmost(rs: seq<LineRange>, count: length, tag: Option<string>)
    requires Canonical(rs, count) && OneLabel(rs, tag) && rs != []
    ensures forall line :: rs[0].start <= line <= rs[0].end ==> Covers(rs, line, tag)
    ensures forall line :: line < rs[0].start || line == rs[0].end + 1 ==> !Covers(rs, line, tag)
  {
    assert rs[0] in rs;
    forall line | rs[0].start <= line <= rs[0].end ensures Covers(rs, line, tag) {
      assert Holds(rs[0], line, tag);
    }
    forall line, r | (line < rs[0].start || line == rs[0].end + 1) && r in rs
      ensures !Holds(r, line, tag)
    {
      var j :| 0 <= j < |rs| && rs[j] == r;
      if j > 0 {
        FirstIsApart(rs, count, tag, j);
      }
    }
  }

  lemma TailCovers(rs: seq<LineRange>, count: length, tag: Option<string>, line: int)
    requires Canonical(rs, count) && OneLabel(rs, tag) && rs != []
    ensures Covers(rs[1..], line, tag) <==> Covers(rs, line, tag) && line > rs[0].end
  {
    assert rs == [rs[0]] + rs[1..];
    if Covers(rs, line, tag) && line > rs[0].end {
      var r :| r in rs && Holds(r, line, tag);
      assert r in rs[1..];
    }
    if Covers(rs[1..], line, tag) {
      var r :| r in rs[1..] && Holds(r, line, tag);
      var j :| 0 < j < |rs| && rs[j] == r;
      FirstIsApart(rs, count, tag, j);
      assert r in rs;
    }
  }

  lemma SameFirst(a: seq<LineRange>, b: seq<LineRange>, count: length, tag: Option<string>)
    requires Canonical(a, count) && Canonical(b, count) && OneLabel(a, tag) && OneLabel(b, tag)
    requires forall line :: Covers(a, line, tag) <==> Covers(b, line, tag)
    requires a != [] && b != []
    ensures a[0] == b[0]
  {
    FirstIsLeftmost(a, count, tag);
    FirstIsLeftmost(b, count, tag);
    assert a[0] in a && b[0] in b;
    assert Covers(a, a[0].start, tag) && Covers(b, b[0].start, tag);
    assert !Covers(a, a[0].end + 1, tag) && !Covers(b, b[0].end + 1, tag);
  }

  /** With one label the normal form is the only canonical list with its cover: the maximal runs of
      covered lines, in order. */
  lemma {:induction false} CanonicalUnique(a: seq<LineRange>, b: seq<LineRange>, count: length, tag: Option<string>)
    requires Canonical(a, count) && Canonical(b, count) && OneLabel(a, tag) && OneLabel(b, tag)
    requires forall line :: Covers(a, line, tag) <==> Covers(b, line, tag)
    ensures a == b
    decreases |a|
  {
    if a == [] || b == [] {
      if a != [] {
        NonemptyCovers(a, count);
      } else if b != [] {
        NonemptyCovers(b, count);
      }
    } else {
      SameFirst(a, b, count, tag);
      forall line ensures Covers(a[1..], line, tag) <==> Covers(b[1..], line, tag) {
        TailCovers(a, count, tag, line);
        TailCovers(b, count, tag, line);
      }
      CanonicalUnique(a[1..], b[1..], count, tag);
      assert a == [a[0]] + a[1..] && b == [b[0]] + b[1..];
    }
  }
}
