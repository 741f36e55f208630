/** Rebasing line ranges from an old text to a new one. */
module Rebase {
  import opened Common
  import opened Orders
  import opened LineRanges

  type Lines = s: seq<string> | |s| <= ISIZE_MAX

  datatype RebaseResult = RebaseResult(rebased: seq<LineRange>, dropped: seq<LineRange>, didChange: bool)

  // ----- lines of a text -----

  function ReplaceCrLf(t: string): (r: string)
    ensures |r| <= |t|
  {
    if t == [] then []
    else if |t| >= 2 && t[0] == '\r' && t[1] == '\n' then ['\n'] + ReplaceCrLf(t[2..])
    else [t[0]] + ReplaceCrLf(t[1..])
  }

  function ReplaceCr(t: string): (r: string)
    ensures |r| == |t| && forall i :: 0 <= i < |t| ==> r[i] == if t[i] == '\r' then '\n' else t[i]
  {
    seq(|t|, i requires 0 <= i < |t| => if t[i] == '\r' then '\n' else t[i])
  }

  /** The pieces between line feeds: one more than there are line feeds. */
  function Split(t: string): (r: seq<string>)
    ensures 1 <= |r| <= |t| + 1
  {
    if t == [] then [[]]
    else
      var rest := Split(t[1..]);
      if t[0] == '\n' then [[]] + rest else [[t[0]] + rest[0]] + rest[1..]
  }

  function NormalizedText(text: string): string { ReplaceCr(ReplaceCrLf(text)) }

  /** The lines of a text: line endings unified, and no last empty line after a final line end. */
  function NormalizedLines(text: string): (lines: seq<string>)
    ensures |lines| <= |text|
  {
    LinesOf(NormalizedText(text))
  }

  function LinesOf(t: string): (lines: seq<string>)
    ensures |lines| <= |t|
  {
    if t == [] then []
    else if t[|t| - 1] == '\n' then Split(t)[..|Split(t)| - 1]
    else
      SplitEndsOpen(t);
      Split(t)
  }

  function Join(lines: seq<string>): string {
    if lines == [] then []
    else if |lines| == 1 then lines[0]
    else lines[0] + "\n" + Join(lines[1..])
  }

  /** A text that does not end in a line feed has at most as many lines as characters. */
  lemma {:induction false} SplitEndsOpen(t: string)
    requires t != [] && t[|t| - 1] != '\n'
    ensures |Split(t)| <= |t|
  {
    if |t| > 1 {
      SplitEndsOpen(t[1..]);
    }
  }

  lemma {:induction false} JoinSplit(t: string)
    ensures Join(Split(t)) == t
    ensures forall i :: 0 <= i < |Split(t)| ==> '\n' !in Split(t)[i]
  {
    if t != [] {
      JoinSplit(t[1..]);
      var rest := Split(t[1..]);
      assert t == [t[0]] + t[1..];
      if t[0] == '\n' {
        assert Split(t)[1..] == rest;
      } else {
        assert Split(t)[1..] == rest[1..];
      }
    }
  }

  lemma {:induction false} LastPieceEmpty(t: string)
    requires t != [] && t[|t| - 1] == '\n'
    ensures |Split(t)| >= 2 && Split(t)[|Split(t)| - 1] == []
  {
    if |t| > 1 {
      LastPieceEmpty(t[1..]);
    } else {
      assert t[1..] == [];
    }
  }

  lemma {:induction false} JoinSnoc(lines: seq<string>, last: string)
    requires lines != []
    ensures Join(lines + [last]) == Join(lines) + "\n" + last
  {
    assert (lines + [last])[1..] == lines[1..] + [last];
    if |lines| > 1 {
      JoinSnoc(lines[1..], last);
    }
  }

  /** The lines lose nothing but the kind of line ending and a final one: joined, they give the
      unified text back, and no line holds a line end. */
  lemma LinesRoundTrip(text: string)
    ensures
      var t := NormalizedText(text);
      Join(NormalizedLines(text)) == if t != [] && t[|t| - 1] == '\n' then t[..|t| - 1] else t
    ensures forall i :: 0 <= i < |NormalizedLines(text)| ==> '\n' !in NormalizedLines(text)[i]
  {
    var t := NormalizedText(text);
    JoinSplit(t);
    if t != [] && t[|t| - 1] == '\n' {
      LastPieceEmpty(t);
      var n := |Split(t)| - 1;
      JoinSnoc(Split(t)[..n], []);
      assert Split(t) == Split(t)[..n] + [[]];
    }
  }

  function WithCrLf(t: string): string {
    if t == [] then [] else (if t[0] == '\n' then "\r\n" else [t[0]]) + WithCrLf(t[1..])
  }

  lemma {:induction false} CrLfUndone(t: string)
    requires '\r' !in t
    ensures ReplaceCrLf(WithCrLf(t)) == t && ReplaceCrLf(t) == t
  {
    if t != [] {
      CrLfUndone(t[1..]);
      assert t == [t[0]] + t[1..];
      var w := WithCrLf(t[1..]);
      if t[0] == '\n' {
        assert WithCrLf(t)[2..] == w;
      } else {
        assert WithCrLf(t)[1..] == w;
      }
    }
  }

  /** Whether a text uses line feeds or carriage-return line-feed pairs does not show in its lines. */
  lemma LineEndingsDoNotShow(t: string)
    requires '\r' !in t
    ensures NormalizedLines(WithCrLf(t)) == NormalizedLines(t)
  {
    CrLfUndone(t);
  }

  // ----- common prefix and suffix -----

  function CommonPrefixLen<T(==)>(before: seq<T>, after: seq<T>): (p: nat)
    ensures p <= |before| && p <= |after| && forall i :: 0 <= i < p ==> before[i] == after[i]
    ensures p < |before| && p < |after| ==> before[p] != after[p]
  {
    if before == [] || after == [] || before[0] != after[0] then 0
    else
      var p := CommonPrefixLen(before[1..], after[1..]);
      assert forall i :: 0 < i < p + 1 ==> before[i] == before[1..][i - 1] && after[i] == after[1..][i - 1];
      p + 1
  }

  function CommonSuffixLen<T(==)>(before: seq<T>, after: seq<T>): (s: nat)
    ensures s <= |before| && s <= |after|
    ensures SameEnd(before, after, s)
    ensures s < |before| && s < |after| ==> before[|before| - s - 1] != after[|after| - s - 1]
  {
    if before == [] || after == [] || before[|before| - 1] != after[|after| - 1] then 0
    else CommonSuffixLen(before[..|before| - 1], after[..|after| - 1]) + 1
  }

  /** The last s elements agree. */
  ghost predicate SameEnd<T>(before: seq<T>, after: seq<T>, s: nat)
    requires s <= |before| && s <= |after|
  {
    forall j :: |before| - s <= j < |before| ==> before[j] == after[j + |after| - |before|]
  }

  lemma SameEndOfTails<T>(before: seq<T>, after: seq<T>, p: nat, s: nat)
    requires p + s <= |before| && p + s <= |after| && SameEnd(before[p..], after[p..], s)
    ensures SameEnd(before, after, s)
  {
    forall j | |before| - s <= j < |before| ensures before[j] == after[j + |after| - |before|] {
      assert before[p..][j - p] == after[p..][j - p + |after| - |before|];
    }
  }

  lemma MovedSlice<T>(before: seq<T>, after: seq<T>, d: int, i: nat, j: nat)
    requires i <= j <= |before| && 0 <= i + d && |after| == |before| + d
    requires forall k :: i <= k < |before| ==> before[k] == after[k + d]
    ensures after[i + d..j + d] == before[i..j]
  {
  }

  function ShiftLine(line: usize, delta: int): usize
    requires -ISIZE_MAX <= delta <= ISIZE_MAX
  {
    if delta < 0 then Max(SaturatingSub(line, -delta), 1) else SaturatingAdd(line, delta)
  }

  function ShiftRange(r: LineRange, delta: int): LineRange
    requires -ISIZE_MAX <= delta <= ISIZE_MAX
  {
    LineRange(ShiftLine(r.start, delta), ShiftLine(r.end, delta), r.tag)
  }

  /** The lines a range covers. */
  function Slice(lines: seq<string>, r: LineRange): seq<string>
    requires 1 <= r.start <= r.end <= |lines|
  {
    lines[r.start - 1..r.end]
  }

  // ----- the outcome of one range -----

  function Prefix(before: Lines, after: Lines): (p: length)
    ensures p <= |before| && p <= |after| && forall i :: 0 <= i < p ==> before[i] == after[i]
    ensures p < |before| && p < |after| ==> before[p] != after[p]
  {
    CommonPrefixLen(before, after)
  }

  /** The common suffix of what follows the first p elements: it cannot be longer. */
  function SuffixAfter<T(==)>(before: seq<T>, after: seq<T>, p: nat): (s: nat)
    requires p <= |before| && p <= |after|
    ensures p + s <= |before| && p + s <= |after| && SameEnd(before, after, s)
    ensures p + s < |before| && p + s < |after| ==> before[|before| - s - 1] != after[|after| - s - 1]
  {
    var s := CommonSuffixLen(before[p..], after[p..]);
    SameEndOfTails(before, after, p, s);
    s
  }

  /** The common suffix of what follows the common prefix. */
  function Suffix(before: Lines, after: Lines): (s: length)
    ensures Prefix(before, after) + s <= |before| && Prefix(before, after) + s <= |after|
    ensures SameEnd(before, after, s)
    ensures
      var p := Prefix(before, after);
      p + s < |before| && p + s < |after| ==> before[|before| - s - 1] != after[|after| - s - 1]
  {
    SuffixAfter(before, after, Prefix(before, after))
  }

  predicate WithinPrefix(before: Lines, after: Lines, r: LineRange) { r.end <= Prefix(before, after) }

  predicate WithinSuffix(before: Lines, after: Lines, r: LineRange) { r.start > |before| - Suffix(before, after) }

  /** Where the code puts a range of the suffix. */
  function SuffixRebased(before: Lines, after: Lines, r: LineRange): LineRange
    requires |after| > 0
  {
    ClampRange(ShiftRange(r, |after| - |before|), |after|)
  }

  /** The old and the new text have the same lines up to the end of the range. */
  ghost predicate SameFront(before: Lines, after: Lines, r: LineRange)
    requires InBounds(r, |before|)
  {
    r.end <= |after| && forall k :: 0 <= k < r.end ==> before[k] == after[k]
  }

  /** Every old line from the start of the range on is, as far from the end, in the new text; and the texts differ in
      some line no later than that start, nor than where it is then. */
  ghost predicate SameBack(before: Lines, after: Lines, r: LineRange)
    requires InBounds(r, |before|)
  {
    var d := |after| - |before|;
    && r.start + d >= 1
    && (forall k :: r.start - 1 <= k < |before| ==> before[k] == after[k + d])
    && (exists k :: 0 <= k < r.start && k < r.start + d && before[k] != after[k])
  }

  lemma WithinPrefixIff(before: Lines, after: Lines, r: LineRange)
    requires InBounds(r, |before|)
    ensures WithinPrefix(before, after, r) <==> SameFront(before, after, r)
  {
    var p := Prefix(before, after);
    assert p < r.end && r.end <= |after| ==> before[p] != after[p];
  }

  lemma WithinSuffixIff(before: Lines, after: Lines, r: LineRange)
    requires InBounds(r, |before|)
    ensures WithinSuffix(before, after, r) <==> SameBack(before, after, r)
  {
    var p, s, d := Prefix(before, after), Suffix(before, after), |after| - |before|;
    if WithinSuffix(before, after, r) {
      assert forall k :: r.start - 1 <= k < |before| ==> before[k] == after[k + d];
      assert p < |before| && p < |after|;
      assert before[p] != after[p];
    }
  }

  /** A range in the common prefix stays where it is, and its lines are the same. */
  lemma PrefixExact(before: Lines, after: Lines, r: LineRange)
    requires InBounds(r, |before|) && SameFront(before, after, r)
    ensures InBounds(r, |after|) && Slice(after, r) == Slice(before, r)
  {
    forall i | 0 <= i <= r.end - r.start ensures Slice(after, r)[i] == Slice(before, r)[i] {
      assert Slice(before, r)[i] == before[r.start - 1 + i];
    }
  }

  /** Neither saturation, nor the lower bound 1, nor the clamp is active for a range that stays in bounds. */
  lemma ShiftClamps(r: LineRange, d: int, count: length, count': length)
    requires InBounds(r, count) && count' == count + d && r.start + d >= 1
    ensures
      var r' := ClampRange(ShiftRange(r, d), count');
      IsMoved(r, d, r') && r' == ShiftRange(r, d) && InBounds(r', count')
  {
    ShiftExact(r.start, d);
    ShiftExact(r.end, d);
  }

  /** A range in the common suffix moves by exactly the difference in length, neither saturation,
      nor the lower bound 1, nor the clamp being active, and its lines are the same. */
  lemma SuffixExact(before: Lines, after: Lines, r: LineRange)
    requires InBounds(r, |before|) && SameBack(before, after, r)
    ensures |after| > 0
    ensures
      var d, r' := |after| - |before|, SuffixRebased(before, after, r);
      IsMoved(r, d, r') && ShiftRange(r, d) == r' && InBounds(r', |after|) && Slice(after, r') == Slice(before, r)
  {
    var d := |after| - |before|;
    ShiftClamps(r, d, |before|, |after|);
    MovedSlice(before, after, d, r.start - 1, r.end);
  }

  predicate IsMoved(r: LineRange, d: int, o: LineRange) {
    o.start == r.start + d && o.end == r.end + d && o.tag == r.tag
  }

  lemma ShiftExact(line: usize, delta: int)
    requires -ISIZE_MAX <= delta <= ISIZE_MAX && 1 <= line + delta <= ISIZE_MAX
    ensures ShiftLine(line, delta) == line + delta
  {
  }

  // ----- anchoring by boundary lines -----

  /** The range start..end of the new text has the boundary lines of r. */
  predicate Anchors(before: seq<string>, after: seq<string>, r: LineRange, start: int, end: int)
    requires 1 <= r.start <= |before| && 1 <= r.end <= |before|
  {
    1 <= start <= end <= |after| && after[start - 1] == before[r.start - 1] && after[end - 1] == before[r.end - 1]
  }

  function Distance(r: LineRange, start: int, end: int): nat {
    AbsDiff(start, r.start) + AbsDiff(end, r.end)
  }

  /** (distance, start, end) compared lexicographically. */
  predicate Closer(r: LineRange, start: int, end: int, start': int, end': int) {
    var d, d' := Distance(r, start, end), Distance(r, start', end');
    d < d' || (d == d' && (start < start' || (start == start' && end < end')))
  }

  /** `o` is the anchored range closest to r, the lowest of equally close ones; None if there is none. */
  ghost predicate IsAnchored(before: seq<string>, after: seq<string>, r: LineRange, o: Option<LineRange>)
    requires 1 <= r.start <= |before| && 1 <= r.end <= |before|
  {
    match o
    case None => forall start, end :: !Anchors(before, after, r, start, end)
    case Some(a) =>
      && a.tag == r.tag && Anchors(before, after, r, a.start, a.end)
      && forall start, end :: Anchors(before, after, r, start, end) ==> !Closer(r, start, end, a.start, a.end)
  }

  lemma AnchoredUnique(before: seq<string>, after: seq<string>, r: LineRange, o: Option<LineRange>,
      o': Option<LineRange>)
    requires 1 <= r.start <= |before| && 1 <= r.end <= |before|
    requires IsAnchored(before, after, r, o) && IsAnchored(before, after, r, o')
    ensures o == o'
  {
    if o.Some? {
      assert Anchors(before, after, r, o.value.start, o.value.end);
    }
    if o'.Some? {
      assert Anchors(before, after, r, o'.value.start, o'.value.end);
    }
  }

  /** The positions up to n whose line is `line`, in order. */
  function Positions(lines: seq<string>, line: string, n: nat): (r: seq<nat>)
    requires n <= |lines|
    ensures forall p :: p in r <==> 1 <= p <= n && lines[p - 1] == line
    ensures forall i, j :: 0 <= i < j < |r| ==> r[i] < r[j]
  {
    if n == 0 then []
    else
      var rest := Positions(lines, line, n - 1);
      assert forall i :: 0 <= i < |rest| ==> rest[i] in rest;
      rest + if lines[n - 1] == line then [n] else []
  }

  /** The starts of the windows of the given length that contain the boundary line. */
  function WindowStarts(boundary: nat, len: nat, count: nat): (r: seq<nat>)
    requires len > 0
    ensures forall s :: s in r <==> 1 <= s <= boundary < s + len && s + len - 1 <= count
  {
    if boundary == 0 || boundary > count || len > count then []
    else
      var low, high := Max(if boundary < len - 1 then 0 else boundary - (len - 1), 1), Min(boundary, count - len + 1);
      Upto(low, high)
  }

  function Upto(low: nat, high: nat): (r: seq<nat>)
    ensures forall s :: s in r <==> low <= s <= high
    decreases high + 1 - low
  {
    if low > high then [] else [low] + Upto(low + 1, high)
  }

  /** The 1-based places where the window occurs.  The tag of a window is some function of its lines,
      so comparing tags after comparing lines filters nothing out. */
  function FindWindow<L(==), Tag(==)>(tagOf: seq<L> -> Tag, lines: seq<L>, window: seq<L>): (r: seq<nat>)
    ensures forall p :: p in r <==>
              window != [] && 1 <= p && p - 1 + |window| <= |lines| && lines[p - 1..p - 1 + |window|] == window
  {
    if window == [] || |window| > |lines| then []
    else WindowMatches(tagOf, tagOf(window), lines, window, |lines| - |window| + 1)
  }

  function WindowMatches<L(==), Tag(==)>(tagOf: seq<L> -> Tag, tag: Tag, lines: seq<L>, window: seq<L>,
      n: nat): (r: seq<nat>)
    requires window != [] && n <= |lines| - |window| + 1 && tag == tagOf(window)
    ensures forall p :: p in r <==> 1 <= p <= n && lines[p - 1..p - 1 + |window|] == window
  {
    if n == 0 then []
    else
      var candidate := lines[n - 1..n - 1 + |window|];
      WindowMatches(tagOf, tag, lines, window, n - 1)
      + if candidate == window && tagOf(candidate) == tag then [n] else []
  }

  /** The line at position p of the new text is the old boundary line. */
  predicate IsMatch(before: seq<string>, after: seq<string>, boundary: nat, p: int)
    requires 1 <= boundary <= |before|
  {
    1 <= p <= |after| && after[p - 1] == before[boundary - 1]
  }

  /** A window matched somewhere puts the boundary line where the boundary falls in the window. */
  lemma WindowMatchIsMatch(before: seq<string>, after: seq<string>, boundary: nat, start: nat, len: nat, at: nat)
    requires 1 <= start <= boundary < start + len && start + len - 1 <= |before|
    requires 1 <= at && at - 1 + len <= |after| && after[at - 1..at - 1 + len] == before[start - 1..start - 1 + len]
    ensures IsMatch(before, after, boundary, at + (boundary - start))
  {
    assert after[at - 1..at - 1 + len][boundary - start] == before[start - 1..start - 1 + len][boundary - start];
  }

  lemma SingletonSlice<T>(s: seq<T>, i: nat)
    requires i < |s|
    ensures s[i..i + 1] == [s[i]]
  {
  }

  method AddWindow<Tag(==)>(tagOf: seq<string> -> Tag, before: seq<string>, after: seq<string>, boundary: nat,
                            start: nat, len: nat, candidates: set<nat>) returns (candidates': set<nat>)
    requires 1 <= start <= boundary < start + len && start + len - 1 <= |before|
    requires forall p :: p in candidates ==> IsMatch(before, after, boundary, p)
    ensures forall p :: p in candidates' ==> IsMatch(before, after, boundary, p)
    ensures candidates <= candidates'
    ensures len == 1 ==> forall p :: IsMatch(before, after, boundary, p) ==> p in candidates'
  {
    var window := before[start - 1..start - 1 + len];
    var matches := FindWindow(tagOf, after, window);
    candidates' := candidates;
    for k := 0 to |matches|
      invariant candidates <= candidates'
      invariant forall p :: p in candidates' ==> IsMatch(before, after, boundary, p)
      invariant forall i :: 0 <= i < k ==> matches[i] + (boundary - start) in candidates'
    {
      assert matches[k] in matches;
      WindowMatchIsMatch(before, after, boundary, start, len, matches[k]);
      candidates' := candidates' + {matches[k] + (boundary - start)};
    }
    if len == 1 {
      SingletonSlice(before, start - 1);
      forall p | IsMatch(before, after, boundary, p) ensures p in candidates' {
        SingletonSlice(after, p - 1);
        assert p in matches;
      }
    }
  }

  /** The elements of a set up to n, in order. */
  function Enumerated(s: set<nat>, n: nat): seq<nat> {
    if n == 0 then [] else Enumerated(s, n - 1) + if n in s then [n] else []
  }

  lemma {:induction false} EnumeratedIsPositions(s: set<nat>, lines: seq<string>, line: string, n: nat)
    requires n <= |lines| && forall p :: 1 <= p <= n ==> (p in s <==> lines[p - 1] == line)
    ensures Enumerated(s, n) == Positions(lines, line, n)
  {
    if n > 0 {
      EnumeratedIsPositions(s, lines, line, n - 1);
    }
  }

  /** The windows of three and two lines find nothing that the boundary line alone does not: the
      candidates are the positions of the boundary line, in order. */
  method BoundaryCandidates<Tag(==)>(tagOf: seq<string> -> Tag, before: seq<string>, after: seq<string>, boundary: nat)
    returns (r: seq<nat>)
    ensures 1 <= boundary <= |before| ==> r == Positions(after, before[boundary - 1], |after|)
    ensures !(1 <= boundary <= |before|) ==> r == []
  {
    var candidates: set<nat> := {};
    var len := 3;
    while len >= 1
      invariant 0 <= len <= 3
      invariant !(1 <= boundary <= |before|) ==> candidates == {}
      invariant 1 <= boundary <= |before| ==> forall p :: p in candidates ==> IsMatch(before, after, boundary, p)
      invariant 1 <= boundary <= |before| && len == 0 ==>
                  forall p :: IsMatch(before, after, boundary, p) ==> p in candidates
    {
      var starts := WindowStarts(boundary, len, |before|);
      assert 1 <= boundary <= |before| && len == 1 ==> boundary in starts;
      for i := 0 to |starts|
        invariant !(1 <= boundary <= |before|) ==> candidates == {}
        invariant 1 <= boundary <= |before| ==> forall p :: p in candidates ==> IsMatch(before, after, boundary, p)
        invariant 1 <= boundary <= |before| && len == 1 && i > 0 ==>
                    forall p :: IsMatch(before, after, boundary, p) ==> p in candidates
      {
        assert starts[i] in starts;
        candidates := AddWindow(tagOf, before, after, boundary, starts[i], len, candidates);
      }
      len := len - 1;
    }
    r := Enumerated(candidates, |after|);
    if 1 <= boundary <= |before| {
      EnumeratedIsPositions(candidates, after, before[boundary - 1], |after|);
    } else {
      EnumeratedEmpty(|after|);
    }
  }

  lemma {:induction false} EnumeratedEmpty(n: nat)
    ensures Enumerated({}, n) == []
  {
    if n > 0 {
      EnumeratedEmpty(n - 1);
    }
  }

  /** No pair among the starts before i, nor at start i among the ends before j, beats `best`. */
  ghost predicate NoneCloser(r: LineRange, starts: seq<nat>, ends: seq<nat>, i: nat, j: nat, best: Option<(nat, nat)>)
    requires i <= |starts| && j <= |ends|
  {
    forall a, b :: 0 <= a <= i && a < |starts| && 0 <= b < |ends| && (a < i || b < j) && starts[a] <= ends[b] ==>
      best.Some? && !Closer(r, starts[a], ends[b], best.value.0, best.value.1)
  }

  /** The pair of a start and an end in order that is closest to r, the lowest of equally close ones. */
  method ClosestPair(r: LineRange, starts: seq<nat>, ends: seq<nat>) returns (best: Option<(nat, nat)>)
    ensures best.Some? ==> best.value.0 in starts && best.value.1 in ends && best.value.0 <= best.value.1
    ensures forall s, e :: s in starts && e in ends && s <= e ==>
              best.Some? && !Closer(r, s, e, best.value.0, best.value.1)
  {
    best := None;
    for i := 0 to |starts|
      invariant best.Some? ==> best.value.0 in starts && best.value.1 in ends && best.value.0 <= best.value.1
      invariant NoneCloser(r, starts, ends, i, 0, best)
    {
      for j := 0 to |ends|
        invariant best.Some? ==> best.value.0 in starts && best.value.1 in ends && best.value.0 <= best.value.1
        invariant NoneCloser(r, starts, ends, i, j, best)
      {
        if starts[i] <= ends[j] && (best.None? || Closer(r, starts[i], ends[j], best.value.0, best.value.1)) {
          best := Some((starts[i], ends[j]));
        }
      }
    }
  }

  lemma CandidatesMatch(before: seq<string>, after: seq<string>, boundary: nat, candidates: seq<nat>)
    requires 1 <= boundary <= |before| && candidates == Positions(after, before[boundary - 1], |after|)
    ensures forall p :: p in candidates <==> IsMatch(before, after, boundary, p)
  {
  }

  /** The anchored range nearest to r; nothing exactly when the boundary lines do not occur in order. */
  method AnchorRebase<Tag(==)>(tagOf: seq<string> -> Tag, r: LineRange, before: Lines,
      after: Lines) returns (o: Option<LineRange>)
    requires InBounds(r, |before|)
    ensures IsAnchored(before, after, r, o)
  {
    var starts := BoundaryCandidates(tagOf, before, after, r.start);
    var ends := BoundaryCandidates(tagOf, before, after, r.end);
    var best := ClosestPair(r, starts, ends);
    CandidatesMatch(before, after, r.start, starts);
    CandidatesMatch(before, after, r.end, ends);
    ClosestPairIsAnchored(before, after, r, starts, ends, best);
    if best.None? {
      return None;
    }
    return Some(ClampRange(LineRange(best.value.0, best.value.1, r.tag), |after|));
  }

  lemma ClosestPairIsAnchored(before: Lines, after: Lines, r: LineRange, starts: seq<nat>, ends: seq<nat>,
                              best: Option<(nat, nat)>)
    requires InBounds(r, |before|)
    requires forall p :: p in starts <==> IsMatch(before, after, r.start, p)
    requires forall p :: p in ends <==> IsMatch(before, after, r.end, p)
    requires best.Some? ==> best.value.0 in starts && best.value.1 in ends && best.value.0 <= best.value.1
    requires forall s, e :: s in starts && e in ends && s <= e ==>
              best.Some? && !Closer(r, s, e, best.value.0, best.value.1)
    ensures best.Some? ==> 1 <= best.value.0 <= best.value.1 <= |after|
    ensures IsAnchored(before, after, r,
                       if best.None? then None else Some(LineRange(best.value.0, best.value.1, r.tag)))
  {
    forall s, e | Anchors(before, after, r, s, e)
      ensures best.Some? && !Closer(r, s, e, best.value.0, best.value.1)
    {
      assert IsMatch(before, after, r.start, s) && IsMatch(before, after, r.end, e);
    }
  }

  // ----- the whole rebase -----

  /** What becomes of one normalized range: it stays where nothing up to its end has changed; it moves with the end of
      the text where nothing from its start on has changed; and elsewhere it goes to the closest anchored place, if
      there is one. */
  ghost predicate IsOutcome(before: Lines, after: Lines, r: LineRange, o: Option<LineRange>)
    requires InBounds(r, |before|) && |after| > 0
  {
    if SameFront(before, after, r) then o == Some(r)
    else if SameBack(before, after, r) then o.Some? && IsMoved(r, |after| - |before|, o.value)
    else IsAnchored(before, after, r, o)
  }

  /** Ranges over the same lines have the same boundary lines. */
  lemma SameSliceAnchors(before: seq<string>, after: seq<string>, r: LineRange, o: LineRange)
    requires 1 <= r.start <= r.end <= |before| && 1 <= o.start <= o.end <= |after|
    requires Slice(after, o) == Slice(before, r)
    ensures Anchors(before, after, r, o.start, o.end)
  {
    assert |Slice(after, o)| == o.end - o.start + 1 == r.end - r.start + 1;
    assert Slice(after, o)[0] == Slice(before, r)[0];
    assert Slice(after, o)[o.end - o.start] == Slice(before, r)[r.end - r.start];
  }

  /** An outcome that is a range stays in the new text, keeps its label, and has the old boundary
      lines; in the common prefix or suffix it has all the old lines. */
  lemma OutcomeFaithful(before: Lines, after: Lines, r: LineRange, o: LineRange)
    requires InBounds(r, |before|) && |after| > 0 && IsOutcome(before, after, r, Some(o))
    ensures InBounds(o, |after|) && o.tag == r.tag && Anchors(before, after, r, o.start, o.end)
    ensures SameFront(before, after, r) || SameBack(before, after, r) ==> Slice(after, o) == Slice(before, r)
  {
    if SameFront(before, after, r) {
      PrefixExact(before, after, r);
      SameSliceAnchors(before, after, r, o);
    } else if SameBack(before, after, r) {
      SuffixExact(before, after, r);
      SameSliceAnchors(before, after, r, o);
    }
  }

  /** The ranges that were rebased, and those that were dropped, in order. */
  function Kept(outcomes: seq<Option<LineRange>>): seq<LineRange> {
    if outcomes == [] then []
    else Kept(outcomes[..|outcomes| - 1])
         + match outcomes[|outcomes| - 1] case Some(o) => [o] case None => []
  }

  function Dropped(ranges: seq<LineRange>, outcomes: seq<Option<LineRange>>): seq<LineRange>
    requires |ranges| == |outcomes|
  {
    if outcomes == [] then []
    else Dropped(ranges[..|ranges| - 1], outcomes[..|outcomes| - 1])
         + if outcomes[|outcomes| - 1].None? then [ranges[|ranges| - 1]] else []
  }

  /** How many ranges, and how many that are none, there are among the outcomes. */
  function Somes<T>(outcomes: seq<Option<T>>): nat {
    if outcomes == [] then 0
    else Somes(outcomes[..|outcomes| - 1]) + if outcomes[|outcomes| - 1].Some? then 1 else 0
  }

  function Nones<T>(outcomes: seq<Option<T>>): nat {
    if outcomes == [] then 0
    else Nones(outcomes[..|outcomes| - 1]) + if outcomes[|outcomes| - 1].None? then 1 else 0
  }

  /** What is kept are the outcomes that are ranges, each in the place that its rank among them gives it. */
  ghost predicate ListsKept<T>(outcomes: seq<Option<T>>, kept: seq<T>) {
    && |kept| == Somes(outcomes)
    && forall k :: 0 <= k < |outcomes| && outcomes[k].Some? ==>
         Somes(outcomes[..k]) < |kept| && kept[Somes(outcomes[..k])] == outcomes[k].value
  }

  /** What is reported dropped are, likewise, the ranges whose outcome is none. */
  ghost predicate ListsDropped<T>(ranges: seq<T>, outcomes: seq<Option<T>>, dropped: seq<T>)
    requires |ranges| == |outcomes|
  {
    && |dropped| == Nones(outcomes)
    && forall k :: 0 <= k < |outcomes| && outcomes[k].None? ==>
         Nones(outcomes[..k]) < |dropped| && dropped[Nones(outcomes[..k])] == ranges[k]
  }

  lemma KeptSnoc<T>(outcomes: seq<Option<T>>, front: seq<Option<T>>, kept: seq<T>, o: Option<T>)
    requires ListsKept(front, kept) && outcomes == front + [o]
    ensures ListsKept(outcomes, if o.Some? then kept + [o.value] else kept)
  {
    var n := |front|;
    assert outcomes[..n] == front && outcomes[n] == o;
    forall k | 0 <= k < n ensures outcomes[..k] == front[..k] && outcomes[k] == front[k] {
    }
  }

  lemma DroppedSnoc<T>(ranges: seq<T>, outcomes: seq<Option<T>>, front: seq<Option<T>>, dropped: seq<T>, o: Option<T>)
    requires |ranges| == |outcomes| && outcomes == front + [o]
    requires ListsDropped(ranges[..|front|], front, dropped)
    ensures ListsDropped(ranges, outcomes, if o.None? then dropped + [ranges[|front|]] else dropped)
  {
    var n := |front|;
    assert outcomes[..n] == front && outcomes[n] == o;
    forall k | 0 <= k < n
      ensures outcomes[..k] == front[..k] && outcomes[k] == front[k] && ranges[..n][k] == ranges[k]
    {
    }
  }

  lemma {:induction false} KeptIsListed(outcomes: seq<Option<LineRange>>)
    ensures ListsKept(outcomes, Kept(outcomes))
  {
    if outcomes != [] {
      var n := |outcomes| - 1;
      KeptIsListed(outcomes[..n]);
      KeptSnoc(outcomes, outcomes[..n], Kept(outcomes[..n]), outcomes[n]);
    }
  }

  lemma {:induction false} DroppedIsListed(ranges: seq<LineRange>, outcomes: seq<Option<LineRange>>)
    requires |ranges| == |outcomes|
    ensures ListsDropped(ranges, outcomes, Dropped(ranges, outcomes))
  {
    if outcomes != [] {
      var n := |outcomes| - 1;
      DroppedIsListed(ranges[..n], outcomes[..n]);
      DroppedSnoc(ranges, outcomes, outcomes[..n], Dropped(ranges[..n], outcomes[..n]), outcomes[n]);
    }
  }

  lemma {:induction false} KeptElements(outcomes: seq<Option<LineRange>>, o: LineRange)
    ensures o in Kept(outcomes) <==> Some(o) in outcomes
  {
    if outcomes != [] {
      var front := outcomes[..|outcomes| - 1];
      KeptElements(front, o);
      assert outcomes == front + [outcomes[|outcomes| - 1]];
    }
  }

  ghost predicate AreOutcomes(before: Lines, after: Lines, ranges: seq<LineRange>, outcomes: seq<Option<LineRange>>)
    requires |after| > 0 && |outcomes| <= |ranges| && forall i :: 0 <= i < |ranges| ==> InBounds(ranges[i], |before|)
  {
    forall i :: 0 <= i < |outcomes| ==> IsOutcome(before, after, ranges[i], outcomes[i])
  }

  /**
     Rebase the ranges.  Each normalized range has an outcome: kept in the common prefix, shifted in
     the common suffix, anchored elsewhere, or dropped; the result is the normal form of what is
     kept, which covers per label exactly what the outcomes cover.
   */
  method RebaseRanges<Tag(==)>(tagOf: seq<string> -> Tag, before: Lines, after: Lines, ranges: seq<LineRange>)
    returns (r: RebaseResult, ghost outcomes: seq<Option<LineRange>>)
    ensures IsRebase(before, after, Normalized(ranges, |before|), r, outcomes)
  {
    outcomes := [];
    var normalized := NormalizeRanges(ranges, |before|);
    if normalized == [] {
      return RebaseResult([], [], false), outcomes;
    }
    if |after| == 0 {
      return RebaseResult([], normalized, true), outcomes;
    }
    NormalizedIsCanonical(ranges, |before|);
    assert forall i :: 0 <= i < |normalized| ==> normalized[i] in normalized;
    var rebased, dropped;
    rebased, dropped, outcomes := RebaseEach(tagOf, before, after, normalized);
    rebased := NormalizeRanges(rebased, |after|);
    KeptIsListed(outcomes);
    DroppedIsListed(normalized, outcomes);
    return RebaseResult(rebased, dropped, rebased != normalized || dropped != []), outcomes;
  }

  ghost predicate IsRebase(before: Lines, after: Lines, normalized: seq<LineRange>, r: RebaseResult,
                           outcomes: seq<Option<LineRange>>)
  {
    if normalized == [] then r == RebaseResult([], [], false)
    else if |after| == 0 then r == RebaseResult([], normalized, true)
    else
      && (forall i :: 0 <= i < |normalized| ==> InBounds(normalized[i], |before|))
      && |outcomes| == |normalized| && AreOutcomes(before, after, normalized, outcomes)
      && r.rebased == Normalized(Kept(outcomes), |after|) && ListsKept(outcomes, Kept(outcomes))
      && r.dropped == Dropped(normalized, outcomes) && ListsDropped(normalized, outcomes, r.dropped)
      && (r.didChange <==> r.rebased != normalized || r.dropped != [])
  }

  method RebaseEach<Tag(==)>(tagOf: seq<string> -> Tag, before: Lines, after: Lines, normalized: seq<LineRange>)
    returns (rebased: seq<LineRange>, dropped: seq<LineRange>, ghost outcomes: seq<Option<LineRange>>)
    requires |after| > 0 && forall i :: 0 <= i < |normalized| ==> InBounds(normalized[i], |before|)
    ensures |outcomes| == |normalized| && AreOutcomes(before, after, normalized, outcomes)
    ensures rebased == Kept(outcomes) && dropped == Dropped(normalized, outcomes)
  {
    var prefix := Prefix(before, after);
    var suffix := Suffix(before, after);
    rebased, dropped, outcomes := [], [], [];
    for i := 0 to |normalized|
      invariant |outcomes| == i && AreOutcomes(before, after, normalized, outcomes)
      invariant rebased == Kept(outcomes) && dropped == Dropped(normalized[..i], outcomes)
    {
      var outcome := RebaseOne(tagOf, before, after, normalized[i], prefix, suffix);
      if outcome.Some? {
        rebased := rebased + [outcome.value];
      } else {
        dropped := dropped + [normalized[i]];
      }
      ghost var outcomes' := outcomes + [outcome];
      assert outcomes'[..i] == outcomes && normalized[..i + 1][..i] == normalized[..i];
      outcomes := outcomes';
    }
    assert normalized[..|normalized|] == normalized;
  }

  method RebaseOne<Tag(==)>(tagOf: seq<string> -> Tag, before: Lines, after: Lines, range: LineRange, prefix: nat,
      suffix: nat)
    returns (outcome: Option<LineRange>)
    requires InBounds(range, |before|) && |after| > 0
    requires prefix == Prefix(before, after) && suffix == Suffix(before, after)
    ensures IsOutcome(before, after, range, outcome)
  {
    var changedEnd := |before| - suffix;
    var delta := |after| - |before|;
    WithinPrefixIff(before, after, range);
    WithinSuffixIff(before, after, range);
    if SameBack(before, after, range) {
      SuffixExact(before, after, range);
    }
    if range.end <= prefix {
      outcome := Some(range);
    } else if range.start > changedEnd {
      outcome := Some(ClampRange(ShiftRange(range, delta), |after|));
    } else {
      outcome := AnchorRebase(tagOf, range, before, after);
    }
  }

  /** The final normal form covers, per label, exactly the lines the outcomes cover. */
  lemma RebasedCovers(before: Lines, after: Lines, normalized: seq<LineRange>, outcomes: seq<Option<LineRange>>,
                      line: int, tag: Option<string>)
    requires |after| > 0 && |outcomes| == |normalized|
    requires forall i :: 0 <= i < |normalized| ==> InBounds(normalized[i], |before|)
    requires AreOutcomes(before, after, normalized, outcomes)
    ensures Covers(Normalized(Kept(outcomes), |after|), line, tag) <==>
            exists i :: 0 <= i < |outcomes| && outcomes[i].Some? && Holds(outcomes[i].value, line, tag)
  {
    var kept := Kept(outcomes);
    forall k | 0 <= k < |kept| ensures InBounds(kept[k], |after|) {
      KeptElements(outcomes, kept[k]);
      var i :| 0 <= i < |outcomes| && outcomes[i] == Some(kept[k]);
      OutcomeFaithful(before, after, normalized[i], kept[k]);
    }
    NormalizedIsCanonical(kept, |after|);
    assert ClampAll(kept, |after|) == kept;
    forall o ensures o in kept <==> Some(o) in outcomes {
      KeptElements(outcomes, o);
    }
    if Covers(kept, line, tag) {
      var o :| o in kept && Holds(o, line, tag);
      var i :| 0 <= i < |outcomes| && outcomes[i] == Some(o);
    }
    if i :| 0 <= i < |outcomes| && outcomes[i].Some? && Holds(outcomes[i].value, line, tag) {
      assert Some(outcomes[i].value) in outcomes;
      assert outcomes[i].value in kept;
    }
  }

  /** Between texts with the same lines a rebase changes and drops nothing. */
  lemma SameLinesNoChange(lines: Lines, ranges: seq<LineRange>, outcomes: seq<Option<LineRange>>)
    requires |lines| > 0 && |outcomes| == |Normalized(ranges, |lines|)|
    requires forall i :: 0 <= i < |Normalized(ranges, |lines|)| ==> InBounds(Normalized(ranges, |lines|)[i], |lines|)
    requires AreOutcomes(lines, lines, Normalized(ranges, |lines|), outcomes)
    ensures Normalized(Kept(outcomes), |lines|) == Normalized(ranges, |lines|)
    ensures Dropped(Normalized(ranges, |lines|), outcomes) == []
  {
    var normalized := Normalized(ranges, |lines|);
    assert Prefix(lines, lines) == |lines|;
    assert forall i :: 0 <= i < |normalized| ==> outcomes[i] == Some(normalized[i]);
    AllKept(normalized, outcomes);
    NormalizedIdempotent(ranges, |lines|);
  }

  lemma {:induction false} AllKept(ranges: seq<LineRange>, outcomes: seq<Option<LineRange>>)
    requires |outcomes| == |ranges| && forall i :: 0 <= i < |ranges| ==> outcomes[i] == Some(ranges[i])
    ensures Kept(outcomes) == ranges && Dropped(ranges, outcomes) == []
  {
    if ranges != [] {
      AllKept(ranges[..|ranges| - 1], outcomes[..|outcomes| - 1]);
      assert ranges == ranges[..|ranges| - 1] + [ranges[|ranges| - 1]];
    }
  }

  /** The entry point on texts.  A rebase between texts with the same lines changes and drops nothing. */
  method RebaseTexts<Tag(==)>(tagOf: seq<string> -> Tag, oldText: string, newText: string, ranges: seq<LineRange>)
    returns (r: RebaseResult)
    requires |oldText| <= ISIZE_MAX && |newText| <= ISIZE_MAX
    ensures exists outcomes ::
              IsRebase(NormalizedLines(oldText), NormalizedLines(newText),
                       Normalized(ranges, |NormalizedLines(oldText)|), r, outcomes)
    ensures NormalizedLines(oldText) == NormalizedLines(newText) ==>
              r == RebaseResult(Normalized(ranges, |NormalizedLines(oldText)|), [], false)
  {
    var before: Lines, after: Lines := NormalizedLines(oldText), NormalizedLines(newText);
    ghost var outcomes;
    r, outcomes := RebaseRanges(tagOf, before, after, ranges);
    if before == after && Normalized(ranges, |before|) != [] {
      SameLinesNoChange(before, ranges, outcomes);
    }
  }
}
