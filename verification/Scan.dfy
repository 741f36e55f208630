/**
 Collecting what the parallel walkers of a scan deliver, in whatever order it arrives, and fixing the
 snapshot: sort, truncate to the entry limit, report the truncation, sort the diagnostics.
 */
module Scan {
  import opened Common
  import opened Orders

  type path = seq<string>

  datatype CatalogEntry = CatalogEntry(rootId: string, relPath: string, absPath: path, size: nat)

  datatype Diagnostic = Diagnostic(path: Option<path>, message: string)

  datatype RootRef = RootRef(id: string, path: path)

  datatype Snapshot = Snapshot(
    generation: nat, roots: seq<RootRef>, entries: seq<CatalogEntry>, diagnostics: seq<Diagnostic>)

  datatype Result<T> = Ok(value: T) | Cancelled

  /** What one walker thread sends when it is dropped. */
  datatype WorkerOutput = WorkerOutput(entries: seq<CatalogEntry>, diagnostics: seq<Diagnostic>)

  // ----- the two orders -----

  /** By relative path, then root id, then absolute path.  The size is not compared. */
  predicate EntryLe(a: CatalogEntry, b: CatalogEntry) {
    if a.relPath != b.relPath then StringLe(a.relPath, b.relPath)
    else if a.rootId != b.rootId then StringLe(a.rootId, b.rootId)
    else PathLe(a.absPath, b.absPath)
  }

  /** By path, no path first, then by message. */
  predicate DiagnosticLe(a: Diagnostic, b: Diagnostic) {
    if a.path == b.path then StringLe(a.message, b.message)
    else a.path.None? || (b.path.Some? && PathLe(a.path.value, b.path.value))
  }

  lemma EntryLePreorder()
    ensures Preorder(EntryLe)
    ensures forall a, b :: EntryLe(a, b) && EntryLe(b, a) ==>
              a.relPath == b.relPath && a.rootId == b.rootId && a.absPath == b.absPath
  {
    StringLeTotalOrder();
    PathLeTotalOrder();
  }

  lemma DiagnosticLeTotalOrder()
    ensures TotalOrder(DiagnosticLe)
  {
    StringLeTotalOrder();
    PathLeTotalOrder();
  }

  // ----- collecting the walkers' outputs -----

  function AllEntries(outputs: seq<WorkerOutput>): seq<CatalogEntry> {
    if outputs == [] then []
    else AllEntries(outputs[..|outputs| - 1]) + outputs[|outputs| - 1].entries
  }

  function AllDiagnostics(outputs: seq<WorkerOutput>): seq<Diagnostic> {
    if outputs == [] then []
    else AllDiagnostics(outputs[..|outputs| - 1]) + outputs[|outputs| - 1].diagnostics
  }

  /** Drains the channel. */
  method Collect(received: seq<WorkerOutput>) returns (output: WorkerOutput)
    ensures output == WorkerOutput(AllEntries(received), AllDiagnostics(received))
  {
    var entries: seq<CatalogEntry>, diagnostics: seq<Diagnostic> := [], [];
    for i := 0 to |received|
      invariant entries == AllEntries(received[..i])
      invariant diagnostics == AllDiagnostics(received[..i])
    {
      assert received[..i + 1][..i] == received[..i];
      entries := entries + received[i].entries;
      diagnostics := diagnostics + received[i].diagnostics;
    }
    assert received[..|received|] == received;
    output := WorkerOutput(entries, diagnostics);
  }

  lemma CollectedSnoc(front: seq<WorkerOutput>, last: WorkerOutput)
    ensures AllEntries(front + [last]) == AllEntries(front) + last.entries
    ensures AllDiagnostics(front + [last]) == AllDiagnostics(front) + last.diagnostics
  {
    assert (front + [last])[..|front|] == front;
  }

  lemma {:induction false} CollectedSplits(a: seq<WorkerOutput>, b: seq<WorkerOutput>)
    ensures AllEntries(a + b) == AllEntries(a) + AllEntries(b)
    ensures AllDiagnostics(a + b) == AllDiagnostics(a) + AllDiagnostics(b)
    decreases |b|
  {
    if b == [] {
      assert a + b == a;
    } else {
      var front, last := b[..|b| - 1], b[|b| - 1];
      assert b == front + [last] && a + b == (a + front) + [last];
      CollectedSplits(a, front);
      CollectedSnoc(front, last);
      CollectedSnoc(a + front, last);
    }
  }

  /** Whatever order the walkers' outputs arrive in, the same entries and diagnostics are collected. */
  lemma {:induction false} CollectedForgetsOrder(a: seq<WorkerOutput>, b: seq<WorkerOutput>)
    requires multiset(a) == multiset(b)
    ensures multiset(AllEntries(a)) == multiset(AllEntries(b))
    ensures multiset(AllDiagnostics(a)) == multiset(AllDiagnostics(b))
    decreases |a|
  {
    if a == [] {
      assert |b| == |multiset(b)| == 0;
    } else {
      var front, last := a[..|a| - 1], a[|a| - 1];
      assert a == front + [last];
      assert last in multiset(b);
      var left, right := SplitAt(b, last);
      FrontOut(a, front, last);
      MiddleOut(b, left, last, right);
      CollectedForgetsOrder(front, left + right);
      CollectedSnoc(front, last);
      CollectedSplits(left, right);
      CollectedSplits(left + [last], right);
      CollectedSnoc(left, last);
    }
  }

  // ----- fixing the snapshot -----

  const REPORT_HEAD := "catalog scan truncated to "
  const REPORT_MIDDLE := " entries; dropped "
  const REPORT_TAIL := " entries due to max_entries limit"

  function Report(maxEntries: nat, dropped: nat): string {
    REPORT_HEAD + (Decimal(maxEntries) + (REPORT_MIDDLE + (Decimal(dropped) + REPORT_TAIL)))
  }

  /** The entries a snapshot keeps. */
  function Kept(entries: seq<CatalogEntry>, maxEntries: nat): seq<CatalogEntry> {
    var sorted := Sort(EntryLe, entries);
    if |entries| > maxEntries then sorted[..maxEntries] else sorted
  }

  /** The diagnostics of a snapshot before they are sorted. */
  function Reported(entries: seq<CatalogEntry>, diagnostics: seq<Diagnostic>, maxEntries: nat): seq<Diagnostic> {
    if |entries| > maxEntries
    then diagnostics + [Diagnostic(None, Report(maxEntries, |entries| - maxEntries))]
    else diagnostics
  }

  function Finalized(
    entries: seq<CatalogEntry>, diagnostics: seq<Diagnostic>, roots: seq<RootRef>, maxEntries: nat): Snapshot
  {
    Snapshot(
      1, roots, Kept(entries, maxEntries), Sort(DiagnosticLe, Reported(entries, diagnostics, maxEntries)))
  }

  method FinalizeSnapshot(
    entries: seq<CatalogEntry>, diagnostics: seq<Diagnostic>, roots: seq<RootRef>, maxEntries: nat, cancelled: bool)
    returns (r: Result<Snapshot>)
    ensures r == if cancelled then Cancelled else Ok(Finalized(entries, diagnostics, roots, maxEntries))
  {
    if cancelled {
      return Cancelled;
    }
    var entries := Sort(EntryLe, entries);
    var diagnostics := diagnostics;
    if |entries| > maxEntries {
      var dropped := |entries| - maxEntries;
      entries := entries[..maxEntries];
      var message := "catalog scan truncated to ";
      message := message + Decimal(maxEntries);
      message := message + " entries; dropped ";
      message := message + Decimal(dropped);
      message := message + " entries due to max_entries limit";
      ReportPieces(Decimal(maxEntries), Decimal(dropped));
      diagnostics := diagnostics + [Diagnostic(None, message)];
    }
    diagnostics := Sort(DiagnosticLe, diagnostics);
    r := Ok(Snapshot(1, roots, entries, diagnostics));
  }

  lemma ReportPieces(m: string, d: string)
    ensures REPORT_HEAD + m + REPORT_MIDDLE + d + REPORT_TAIL
         == REPORT_HEAD + (m + (REPORT_MIDDLE + (d + REPORT_TAIL)))
  {
  }

  // ----- what a snapshot is, whatever the order of arrival -----

  /** No two entries agree on both paths and the root and yet differ. */
  ghost predicate DistinctKeys(entries: seq<CatalogEntry>) {
    forall a, b :: (a in entries && b in entries && a.relPath == b.relPath && a.rootId == b.rootId
                    && a.absPath == b.absPath) ==> a == b
  }

  lemma KeptForgetsOrder(a: seq<CatalogEntry>, b: seq<CatalogEntry>, maxEntries: nat)
    requires multiset(a) == multiset(b) && DistinctKeys(a)
    ensures Kept(a, maxEntries) == Kept(b, maxEntries)
    ensures |a| == |b|
  {
    EntryLePreorder();
    SortForgetsOrder(EntryLe, a, b);
    assert |a| == |multiset(a)| == |multiset(b)| == |b|;
  }

  /** The snapshot depends on which entries and diagnostics were found, not on how they were dealt to the
      walkers or the order they arrived in. */
  lemma SnapshotForgetsArrival(
    a: seq<CatalogEntry>, b: seq<CatalogEntry>, da: seq<Diagnostic>, db: seq<Diagnostic>, roots: seq<RootRef>,
    maxEntries: nat)
    requires multiset(a) == multiset(b) && DistinctKeys(a)
    requires multiset(da) == multiset(db)
    ensures Finalized(a, da, roots, maxEntries) == Finalized(b, db, roots, maxEntries)
  {
    KeptForgetsOrder(a, b, maxEntries);
    DiagnosticLeTotalOrder();
    SortForgetsOrder(DiagnosticLe, Reported(a, da, maxEntries), Reported(b, db, maxEntries));
  }

  /** The same for the channel: any permutation of the walkers' outputs gives the same snapshot. */
  lemma SnapshotForgetsScheduling(a: seq<WorkerOutput>, b: seq<WorkerOutput>, roots: seq<RootRef>, maxEntries: nat)
    requires multiset(a) == multiset(b) && DistinctKeys(AllEntries(a))
    ensures Finalized(AllEntries(a), AllDiagnostics(a), roots, maxEntries)
         == Finalized(AllEntries(b), AllDiagnostics(b), roots, maxEntries)
  {
    CollectedForgetsOrder(a, b);
    SnapshotForgetsArrival(
      AllEntries(a), AllEntries(b), AllDiagnostics(a), AllDiagnostics(b), roots, maxEntries);
  }

  // ----- exactly when the order of arrival shows -----

  /** How many elements of s come strictly before x. */
  ghost function LessCount<T>(le: (T, T) -> bool, x: T, s: seq<T>): (n: nat)
    ensures n <= |s|
  {
    if s == [] then 0 else (if le(x, s[0]) then 0 else 1) + LessCount(le, x, s[1..])
  }

  lemma {:induction false} LessCountSplits<T>(le: (T, T) -> bool, x: T, a: seq<T>, b: seq<T>)
    ensures LessCount(le, x, a + b) == LessCount(le, x, a) + LessCount(le, x, b)
  {
    if a == [] {
      assert a + b == b;
    } else {
      assert (a + b)[1..] == a[1..] + b;
      LessCountSplits(le, x, a[1..], b);
    }
  }

  lemma {:induction false} LessCountForgetsOrder<T>(le: (T, T) -> bool, x: T, a: seq<T>, b: seq<T>)
    requires multiset(a) == multiset(b)
    ensures LessCount(le, x, a) == LessCount(le, x, b)
  {
    if a == [] {
      assert |b| == |multiset(b)| == 0;
    } else {
      assert a[0] in multiset(b);
      var left, right := SplitAt(b, a[0]);
      MiddleOut(b, left, a[0], right);
      MultisetTail(a);
      LessCountForgetsOrder(le, x, a[1..], left + right);
      LessCountSplits(le, x, left, right);
      LessCountSplits(le, x, left + [a[0]], right);
      LessCountSplits(le, x, left, [a[0]]);
      assert LessCount(le, x, [a[0]]) == if le(x, a[0]) then 0 else 1;
    }
  }

  /** A stable sort puts the first to arrive right after the elements before it. */
  lemma {:induction false} InsertedAt<T(!new)>(le: (T, T) -> bool, x: T, s: seq<T>)
    requires Preorder(le) && Sorted(le, s)
    ensures InsertSorted(le, x, s)[LessCount(le, x, s)] == x
  {
    if s != [] {
      SortedTail(le, s);
      if le(x, s[0]) {
        NoneLess(le, x, s);
      } else {
        InsertedAt(le, x, s[1..]);
      }
    }
  }

  lemma {:induction false} NoneLess<T(!new)>(le: (T, T) -> bool, x: T, s: seq<T>)
    requires Preorder(le) && Sorted(le, s) && (s != [] ==> le(x, s[0]))
    ensures LessCount(le, x, s) == 0
  {
    if |s| > 1 {
      assert le(s[0], s[1]);
      NoneLess(le, x, s[1..]);
    }
  }

  lemma FirstArrivalAt<T(!new)>(le: (T, T) -> bool, x: T, rest: seq<T>)
    requires Preorder(le)
    ensures LessCount(le, x, [x] + rest) < |rest| + 1
    ensures Sort(le, [x] + rest)[LessCount(le, x, [x] + rest)] == x
  {
    assert ([x] + rest)[1..] == rest && le(x, x);
    SortSorts(le, rest);
    LessCountForgetsOrder(le, x, rest, Sort(le, rest));
    InsertedAt(le, x, Sort(le, rest));
  }

  lemma TiesCountAlike<T(!new)>(le: (T, T) -> bool, x: T, y: T, s: seq<T>)
    requires Preorder(le) && le(x, y) && le(y, x)
    ensures LessCount(le, x, s) == LessCount(le, y, s)
    decreases |s|
  {
    if s != [] {
      assert le(x, s[0]) <==> le(y, s[0]);
      TiesCountAlike(le, x, y, s[1..]);
    }
  }

  /** Different elements that tie have at least n elements before them. */
  ghost predicate TiesBeyond<T(!new)>(le: (T, T) -> bool, s: seq<T>, n: nat) {
    forall x, y :: x in s && y in s && le(x, y) && le(y, x) && x != y ==> LessCount(le, x, s) >= n
  }

  lemma SameLeast<T(!new)>(le: (T, T) -> bool, a: seq<T>, b: seq<T>, n: nat)
    requires Preorder(le) && Sorted(le, a) && Sorted(le, b) && multiset(a) == multiset(b)
    requires a != [] && b != [] && n > 0 && TiesBeyond(le, a, n)
    ensures a[0] == b[0]
  {
    assert b[0] in multiset(a) && a[0] in multiset(b);
    HeadIsLeast(le, a, b[0]);
    HeadIsLeast(le, b, a[0]);
    assert le(a[0], a[0]);
    NoneLess(le, a[0], a);
  }

  lemma TailTiesBeyond<T(!new)>(le: (T, T) -> bool, a: seq<T>, n: nat)
    requires a != [] && n > 0 && TiesBeyond(le, a, n)
    ensures TiesBeyond(le, a[1..], n - 1)
  {
    forall x, y | x in a[1..] && y in a[1..] && le(x, y) && le(y, x) && x != y
      ensures LessCount(le, x, a[1..]) >= n - 1
    {
      assert x in a && y in a;
    }
  }

  lemma RejoinFronts<T>(a: seq<T>, b: seq<T>, n: nat)
    requires 0 < n <= |a| && n <= |b| && a[0] == b[0] && a[1..][..n - 1] == b[1..][..n - 1]
    ensures a[..n] == b[..n]
  {
    assert a[..n] == [a[0]] + a[1..][..n - 1] && b[..n] == [b[0]] + b[1..][..n - 1];
  }

  lemma SortedTails<T(!new)>(le: (T, T) -> bool, a: seq<T>, b: seq<T>)
    requires Sorted(le, a) && Sorted(le, b) && multiset(a) == multiset(b) && a != [] && b != [] && a[0] == b[0]
    ensures Sorted(le, a[1..]) && Sorted(le, b[1..]) && multiset(a[1..]) == multiset(b[1..])
  {
    MultisetTail(a);
    MultisetTail(b);
  }

  /** Where no two different elements tie before position n, the first n of a sorted list are determined. */
  lemma {:induction false} SameFront<T(!new)>(le: (T, T) -> bool, a: seq<T>, b: seq<T>, n: nat)
    requires Preorder(le) && Sorted(le, a) && Sorted(le, b) && multiset(a) == multiset(b) && n <= |a| && n <= |b|
    requires TiesBeyond(le, a, n)
    ensures a[..n] == b[..n]
  {
    if n > 0 {
      SameLeast(le, a, b, n);
      SortedTails(le, a, b);
      TailTiesBeyond(le, a, n);
      SameFront(le, a[1..], b[1..], n - 1);
      RejoinFronts(a, b, n);
    }
  }

  /** x and y are different entries that agree on both paths and the root. */
  predicate Tied(x: CatalogEntry, y: CatalogEntry) {
    x != y && x.relPath == y.relPath && x.rootId == y.rootId && x.absPath == y.absPath
  }

  /** Some different entries tie, and their place is not wholly beyond the entry limit. */
  ghost predicate TieKept(entries: seq<CatalogEntry>, maxEntries: nat) {
    exists x, y :: x in entries && y in entries && Tied(x, y) && LessCount(EntryLe, x, entries) < maxEntries
  }

  lemma TiedBothWays(x: CatalogEntry, y: CatalogEntry)
    ensures EntryLe(x, y) && EntryLe(y, x) && x != y <==> Tied(x, y)
  {
    EntryLePreorder();
    assert EntryLe(x, x) && EntryLe(y, y);
  }

  /** Arriving first among its ties, an entry is the one kept at their place. */
  lemma FirstArrivalKept(entries: seq<CatalogEntry>, x: CatalogEntry, maxEntries: nat)
    returns (other: seq<CatalogEntry>)
    requires x in entries && LessCount(EntryLe, x, entries) < maxEntries
    ensures multiset(other) == multiset(entries) && |other| == |entries|
    ensures LessCount(EntryLe, x, entries) < |Kept(other, maxEntries)|
    ensures Kept(other, maxEntries)[LessCount(EntryLe, x, entries)] == x
  {
    EntryLePreorder();
    var left, right := SplitAt(entries, x);
    other := [x] + (left + right);
    assert multiset(other) == multiset(entries);
    assert |other| == |left| + |right| + 1 == |entries|;
    LessCountForgetsOrder(EntryLe, x, other, entries);
    FirstArrivalAt(EntryLe, x, left + right);
  }

  lemma TieShows(entries: seq<CatalogEntry>, roots: seq<RootRef>, diagnostics: seq<Diagnostic>, maxEntries: nat)
    returns (other: seq<CatalogEntry>)
    requires TieKept(entries, maxEntries)
    ensures multiset(other) == multiset(entries)
    ensures Finalized(other, diagnostics, roots, maxEntries) != Finalized(entries, diagnostics, roots, maxEntries)
  {
    var x, y :| x in entries && y in entries && Tied(x, y) && LessCount(EntryLe, x, entries) < maxEntries;
    EntryLePreorder();
    TiedBothWays(x, y);
    TiesCountAlike(EntryLe, x, y, entries);
    var a := FirstArrivalKept(entries, x, maxEntries);
    var b := FirstArrivalKept(entries, y, maxEntries);
    other := if Kept(a, maxEntries) == Kept(entries, maxEntries) then b else a;
  }

  lemma NoTieBefore(a: seq<CatalogEntry>, sorted: seq<CatalogEntry>, maxEntries: nat, n: nat)
    requires multiset(sorted) == multiset(a) && !TieKept(a, maxEntries) && n <= maxEntries
    ensures TiesBeyond(EntryLe, sorted, n)
  {
    forall x, y | x in sorted && y in sorted && EntryLe(x, y) && EntryLe(y, x) && x != y
      ensures LessCount(EntryLe, x, sorted) >= n
    {
      TiedBothWays(x, y);
      assert x in multiset(sorted) && y in multiset(sorted);
      assert x in a && y in a;
      LessCountForgetsOrder(EntryLe, x, sorted, a);
    }
  }

  lemma NoTieHides(a: seq<CatalogEntry>, b: seq<CatalogEntry>, maxEntries: nat)
    requires multiset(a) == multiset(b) && !TieKept(a, maxEntries)
    ensures Kept(a, maxEntries) == Kept(b, maxEntries) && |a| == |b|
  {
    EntryLePreorder();
    SortSorts(EntryLe, a);
    SortSorts(EntryLe, b);
    assert |a| == |multiset(a)| == |multiset(b)| == |b|;
    var n := if |a| > maxEntries then maxEntries else |a|;
    NoTieBefore(a, Sort(EntryLe, a), maxEntries, n);
    SameFront(EntryLe, Sort(EntryLe, a), Sort(EntryLe, b), n);
    assert Sort(EntryLe, a)[..|a|] == Sort(EntryLe, a) && Sort(EntryLe, b)[..|a|] == Sort(EntryLe, b);
  }

  /** For any entries: the order of arrival shows in the snapshot exactly when different entries tie at a
      place within the entry limit. */
  lemma ArrivalShowsIff(
    entries: seq<CatalogEntry>, diagnostics: seq<Diagnostic>, roots: seq<RootRef>, maxEntries: nat)
    ensures (exists other :: multiset(other) == multiset(entries)
                             && Finalized(other, diagnostics, roots, maxEntries)
                                != Finalized(entries, diagnostics, roots, maxEntries))
       <==> TieKept(entries, maxEntries)
  {
    if TieKept(entries, maxEntries) {
      var other := TieShows(entries, roots, diagnostics, maxEntries);
    } else {
      forall other | multiset(other) == multiset(entries)
        ensures Finalized(other, diagnostics, roots, maxEntries) == Finalized(entries, diagnostics, roots, maxEntries)
      {
        NoTieHides(entries, other, maxEntries);
      }
    }
  }

  // ----- truncation -----

  lemma SplitSorted<T(!new)>(le: (T, T) -> bool, s: seq<T>, n: nat)
    requires Sorted(le, s) && n <= |s|
    ensures multiset(s) == multiset(s[..n]) + multiset(s[n..])
    ensures forall x, y :: x in s[..n] && y in s[n..] ==> le(x, y)
    ensures Sorted(le, s[..n])
  {
    assert s == s[..n] + s[n..];
  }

  /** A snapshot keeps, in order, the maxEntries least of the entries: what it drops is no less. */
  lemma KeepsTheLeast(entries: seq<CatalogEntry>, maxEntries: nat, kept: seq<CatalogEntry>)
    returns (dropped: seq<CatalogEntry>)
    requires kept == Kept(entries, maxEntries)
    ensures Sorted(EntryLe, kept)
    ensures multiset(kept) + multiset(dropped) == multiset(entries)
    ensures |kept| == if |entries| > maxEntries then maxEntries else |entries|
    ensures forall x, y :: x in kept && y in dropped ==> EntryLe(x, y)
  {
    EntryLePreorder();
    SortSorts(EntryLe, entries);
    var sorted := Sort(EntryLe, entries);
    if |entries| > maxEntries {
      SplitSorted(EntryLe, sorted, maxEntries);
      dropped := sorted[maxEntries..];
    } else {
      dropped := [];
    }
  }

  lemma SortsOneMore<T(!new)>(le: (T, T) -> bool, front: seq<T>, x: T, all: seq<T>)
    requires TotalOrder(le) && all == front + [x]
    ensures Sorted(le, Sort(le, all)) && multiset(Sort(le, all)) == multiset(front) + multiset{x}
  {
    SortSorts(le, all);
  }

  /** When entries were dropped, the diagnostics are those found plus one report of how many. */
  lemma ReportsTheDropped(
    entries: seq<CatalogEntry>, diagnostics: seq<Diagnostic>, roots: seq<RootRef>, maxEntries: nat, s: Snapshot,
    dropped: nat, report: Diagnostic)
    requires s == Finalized(entries, diagnostics, roots, maxEntries)
    requires dropped == |entries| - |s.entries| && dropped > 0
    requires report == Diagnostic(None, Report(maxEntries, dropped))
    ensures Sorted(DiagnosticLe, s.diagnostics)
    ensures multiset(s.diagnostics) == multiset(diagnostics) + multiset{report}
    ensures ReadsReport(report.message, maxEntries, dropped) && s.roots == roots && s.generation == 1
  {
    ReportReads(maxEntries, dropped);
    DiagnosticLeTotalOrder();
    SortsOneMore(DiagnosticLe, diagnostics, report, Reported(entries, diagnostics, maxEntries));
  }

  /** When nothing was dropped, they are those found. */
  lemma ReportsNothingElse(
    entries: seq<CatalogEntry>, diagnostics: seq<Diagnostic>, roots: seq<RootRef>, maxEntries: nat, s: Snapshot)
    requires s == Finalized(entries, diagnostics, roots, maxEntries)
    requires |s.entries| == |entries|
    ensures s.roots == roots && s.generation == 1 && Sorted(DiagnosticLe, s.diagnostics)
    ensures multiset(s.diagnostics) == multiset(diagnostics)
  {
    DiagnosticLeTotalOrder();
    SortSorts(DiagnosticLe, diagnostics);
  }

  // ----- the orders, field by field -----

  /** The entries of a snapshot ascend by relative path; under one path by root id; and under one root id by absolute
      path. */
  lemma EntriesAscend(entries: seq<CatalogEntry>, maxEntries: nat, kept: seq<CatalogEntry>, i: nat, j: nat)
    requires kept == Kept(entries, maxEntries) && i < j < |kept|
    ensures StringLe(kept[i].relPath, kept[j].relPath)
    ensures kept[i].relPath == kept[j].relPath ==> StringLe(kept[i].rootId, kept[j].rootId)
    ensures kept[i].relPath == kept[j].relPath && kept[i].rootId == kept[j].rootId ==>
              PathLe(kept[i].absPath, kept[j].absPath)
  {
    var dropped := KeepsTheLeast(entries, maxEntries, kept);
    StringLeTotalOrder();
  }

  /** Its diagnostics ascend by path, those without one first; and under one path by message. */
  lemma DiagnosticsAscend(
    entries: seq<CatalogEntry>, diagnostics: seq<Diagnostic>, roots: seq<RootRef>, maxEntries: nat, s: Snapshot,
    i: nat, j: nat)
    requires s == Finalized(entries, diagnostics, roots, maxEntries) && i < j < |s.diagnostics|
    ensures s.diagnostics[j].path.None? ==> s.diagnostics[i].path.None?
    ensures s.diagnostics[i].path.Some? && s.diagnostics[j].path.Some? ==>
              PathLe(s.diagnostics[i].path.value, s.diagnostics[j].path.value)
    ensures s.diagnostics[i].path == s.diagnostics[j].path ==>
              StringLe(s.diagnostics[i].message, s.diagnostics[j].message)
  {
    DiagnosticLeTotalOrder();
    SortSorts(DiagnosticLe, Reported(entries, diagnostics, maxEntries));
    PathLeTotalOrder();
  }

  // ----- the report can be read back -----

  /** The text reports the limit m, and d entries dropped. */
  ghost predicate ReadsReport(text: string, m: nat, d: nat) {
    exists a: string, b: string :: ReadsReportAs(text, a, b) && DecimalValue(a) == m && DecimalValue(b) == d
  }

  predicate ReadsReportAs(text: string, a: string, b: string) {
    && text == "catalog scan truncated to " + a + " entries; dropped " + b + " entries due to max_entries limit"
    && (forall i :: 0 <= i < |a| ==> '0' <= a[i] <= '9') && forall i :: 0 <= i < |b| ==> '0' <= b[i] <= '9'
  }

  lemma ReportReads(m: nat, d: nat)
    ensures ReadsReport(Report(m, d), m, d)
  {
    DecimalReads(m);
    DecimalReads(d);
    ReportPieces(Decimal(m), Decimal(d));
    assert ReadsReportAs(Report(m, d), Decimal(m), Decimal(d));
  }

  predicate IsDigit(c: char) { '0' <= c <= '9' }

  lemma RunEnds(a: string, s: string, whole: string)
    requires whole == a + s && s != [] && !IsDigit(s[0])
    requires forall i :: 0 <= i < |a| ==> IsDigit(a[i])
    ensures |a| < |whole| && !IsDigit(whole[|a|])
    ensures forall i :: 0 <= i < |a| ==> IsDigit(whole[i])
  {
  }

  /** A run of digits before something that starts with none is determined. */
  lemma DigitRun(a: string, b: string, s: string, t: string)
    requires forall i :: 0 <= i < |a| ==> IsDigit(a[i])
    requires forall i :: 0 <= i < |b| ==> IsDigit(b[i])
    requires s != [] && t != [] && !IsDigit(s[0]) && !IsDigit(t[0])
    requires a + s == b + t
    ensures a == b && s == t
  {
    RunEnds(a, s, a + s);
    RunEnds(b, t, a + s);
    assert a == (a + s)[..|a|] && b == (b + t)[..|b|];
    assert s == (a + s)[|a|..] && t == (b + t)[|b|..];
  }

  lemma DigitCharsInjective(a: seq<nat>, b: seq<nat>)
    requires forall i :: 0 <= i < |a| ==> a[i] < 10
    requires forall i :: 0 <= i < |b| ==> b[i] < 10
    requires |a| == |b| && forall i :: 0 <= i < |a| ==> '0' + a[i] as char == '0' + b[i] as char
    ensures a == b
  {
    forall i | 0 <= i < |a| ensures a[i] == b[i] {
      assert ('0' + a[i] as char) as int == '0' as int + a[i];
      assert ('0' + b[i] as char) as int == '0' as int + b[i];
    }
  }

  lemma DecimalInjective(m: nat, n: nat)
    requires Decimal(m) == Decimal(n)
    ensures m == n
  {
    var a, b := Digits(m), Digits(n);
    assert |a| == |Decimal(m)| == |Decimal(n)| == |b|;
    forall i | 0 <= i < |a| ensures '0' + a[i] as char == '0' + b[i] as char {
      assert Decimal(m)[i] == Decimal(n)[i];
    }
    DigitCharsInjective(a, b);
    DigitsRoundTrip(m);
    DigitsRoundTrip(n);
  }

  lemma SameTail(head: string, s: string, t: string)
    requires head + s == head + t
    ensures s == t
  {
    assert s == (head + s)[|head|..] && t == (head + t)[|head|..];
  }

  /** The report's text tells the limit and the number dropped. */
  lemma ReportTells(m: nat, d: nat, m': nat, d': nat)
    requires Report(m, d) == Report(m', d')
    ensures m == m' && d == d'
  {
    var rest, rest' := Decimal(d) + REPORT_TAIL, Decimal(d') + REPORT_TAIL;
    SameTail(REPORT_HEAD, Decimal(m) + (REPORT_MIDDLE + rest), Decimal(m') + (REPORT_MIDDLE + rest'));
    DigitRun(Decimal(m), Decimal(m'), REPORT_MIDDLE + rest, REPORT_MIDDLE + rest');
    SameTail(REPORT_MIDDLE, rest, rest');
    DigitRun(Decimal(d), Decimal(d'), REPORT_TAIL, REPORT_TAIL);
    DecimalInjective(m, m');
    DecimalInjective(d, d');
  }
}
