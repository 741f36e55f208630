/** Orders and the stable sort the components rely on. */
module Orders {
  import opened Common

  ghost predicate Preorder<T(!new)>(le: (T, T) -> bool) {
    && (forall x, y :: le(x, y) || le(y, x))
    && (forall x, y, z :: le(x, y) && le(y, z) ==> le(x, z))
  }

  ghost predicate TotalOrder<T(!new)>(le: (T, T) -> bool) {
    && Preorder(le)
    && (forall x, y :: le(x, y) && le(y, x) ==> x == y)
  }

  ghost predicate Sorted<T>(le: (T, T) -> bool, s: seq<T>) {
    forall i, j :: 0 <= i < j < |s| ==> le(s[i], s[j])
  }

  /** No two elements of s tie without being equal. */
  ghost predicate NoTies<T>(le: (T, T) -> bool, s: seq<T>) {
    forall x, y :: x in s && y in s && le(x, y) && le(y, x) ==> x == y
  }

  /** Insertion sort, as the standard library's stable sort. */
  function Sort<T>(le: (T, T) -> bool, s: seq<T>): (r: seq<T>)
    ensures |r| == |s|
  {
    if s == [] then [] else InsertSorted(le, s[0], Sort(le, s[1..]))
  }

  function InsertSorted<T>(le: (T, T) -> bool, x: T, s: seq<T>): (r: seq<T>)
    ensures |r| == |s| + 1
  {
    if s == [] || le(x, s[0]) then [x] + s else [s[0]] + InsertSorted(le, x, s[1..])
  }

  lemma SortedCons<T>(le: (T, T) -> bool, x: T, s: seq<T>)
    requires Sorted(le, s) && forall y :: y in s ==> le(x, y)
    ensures Sorted(le, [x] + s)
  {
  }

  lemma SortedTail<T>(le: (T, T) -> bool, s: seq<T>)
    requires Sorted(le, s) && s != []
    ensures Sorted(le, s[1..]) && forall y :: y in s[1..] ==> le(s[0], y)
  {
  }

  lemma {:induction false} InsertSortedElements<T>(le: (T, T) -> bool, x: T, s: seq<T>)
    ensures multiset(InsertSorted(le, x, s)) == multiset{x} + multiset(s)
    ensures forall y :: y in InsertSorted(le, x, s) <==> y == x || y in s
  {
    var r := InsertSorted(le, x, s);
    if s != [] && !le(x, s[0]) {
      assert s == [s[0]] + s[1..];
      InsertSortedElements(le, x, s[1..]);
    }
    forall y ensures y in r <==> y == x || y in s {
      assert y in r <==> y in multiset(r);
    }
  }

  lemma {:induction false} InsertSortedSorts<T(!new)>(le: (T, T) -> bool, x: T, s: seq<T>)
    requires Preorder(le) && Sorted(le, s)
    ensures Sorted(le, InsertSorted(le, x, s))
  {
    if s != [] {
      SortedTail(le, s);
      if le(x, s[0]) {
        forall y | y in s ensures le(x, y) {
          assert y == s[0] || y in s[1..];
        }
        SortedCons(le, x, s);
      } else {
        InsertSortedSorts(le, x, s[1..]);
        InsertSortedElements(le, x, s[1..]);
        assert le(s[0], x);
        SortedCons(le, s[0], InsertSorted(le, x, s[1..]));
      }
    }
  }

  /** Sorting sorts, and permutes. */
  lemma {:induction false} SortSorts<T(!new)>(le: (T, T) -> bool, s: seq<T>)
    requires Preorder(le)
    ensures Sorted(le, Sort(le, s))
    ensures multiset(Sort(le, s)) == multiset(s)
  {
    if s != [] {
      assert s == [s[0]] + s[1..];
      SortSorts(le, s[1..]);
      InsertSortedSorts(le, s[0], Sort(le, s[1..]));
      InsertSortedElements(le, s[0], Sort(le, s[1..]));
    }
  }

  /** The elements of s that tie with x, in the order in which they stand. */
  function TiedWith<T>(le: (T, T) -> bool, s: seq<T>, x: T): seq<T> {
    if s == [] then []
    else (if le(x, s[0]) && le(s[0], x) then [s[0]] else []) + TiedWith(le, s[1..], x)
  }

  lemma {:induction false} InsertSortedStable<T(!new)>(le: (T, T) -> bool, y: T, s: seq<T>, x: T)
    requires Preorder(le) && Sorted(le, s)
    ensures TiedWith(le, InsertSorted(le, y, s), x) == TiedWith(le, [y] + s, x)
  {
    assert ([y] + s)[1..] == s;
    if s != [] && !le(y, s[0]) {
      SortedTail(le, s);
      InsertSortedStable(le, y, s[1..], x);
      assert ([y] + s[1..])[1..] == s[1..];
    } else {
      assert InsertSorted(le, y, s) == [y] + s;
    }
  }

  /** Sorting is stable: elements that tie keep their order. */
  lemma {:induction false} SortStable<T(!new)>(le: (T, T) -> bool, s: seq<T>, x: T)
    requires Preorder(le)
    ensures TiedWith(le, Sort(le, s), x) == TiedWith(le, s, x)
  {
    if s != [] {
      SortStable(le, s[1..], x);
      SortSorts(le, s[1..]);
      InsertSortedStable(le, s[0], Sort(le, s[1..]), x);
      assert ([s[0]] + Sort(le, s[1..]))[1..] == Sort(le, s[1..]);
    }
  }

  lemma {:induction false} SortKeepsSorted<T(!new)>(le: (T, T) -> bool, s: seq<T>)
    requires Preorder(le) && Sorted(le, s)
    ensures Sort(le, s) == s
  {
    if s != [] {
      SortKeepsSorted(le, s[1..]);
      assert |s| > 1 ==> le(s[0], s[1]);
      assert s == [s[0]] + s[1..];
    }
  }

  lemma HeadIsLeast<T(!new)>(le: (T, T) -> bool, s: seq<T>, x: T)
    requires Preorder(le) && Sorted(le, s) && x in s
    ensures le(s[0], x)
  {
    var i :| 0 <= i < |s| && s[i] == x;
    assert le(s[0], s[0]);
  }

  lemma SameHead<T(!new)>(le: (T, T) -> bool, a: seq<T>, b: seq<T>)
    requires Preorder(le) && Sorted(le, a) && Sorted(le, b) && multiset(a) == multiset(b) && NoTies(le, a)
    requires a != [] && b != []
    ensures a[0] == b[0]
  {
    assert a[0] in multiset(b) && b[0] in multiset(a);
    HeadIsLeast(le, a, b[0]);
    HeadIsLeast(le, b, a[0]);
  }

  lemma MultisetTail<T>(s: seq<T>)
    requires s != []
    ensures multiset(s[1..]) == multiset(s) - multiset{s[0]}
  {
    assert s == [s[0]] + s[1..];
  }

  lemma TailsAgree<T(!new)>(le: (T, T) -> bool, a: seq<T>, b: seq<T>)
    requires Preorder(le) && Sorted(le, a) && Sorted(le, b) && multiset(a) == multiset(b) && NoTies(le, a)
    requires a != [] && b != []
    ensures Sorted(le, a[1..]) && Sorted(le, b[1..]) && NoTies(le, a[1..])
    ensures a[0] == b[0] && multiset(a[1..]) == multiset(b[1..])
  {
    SameHead(le, a, b);
    MultisetTail(a);
    MultisetTail(b);
    SortedTail(le, a);
    SortedTail(le, b);
  }

  lemma Rejoin<T>(a: seq<T>, b: seq<T>)
    requires a != [] && b != [] && a[0] == b[0] && a[1..] == b[1..]
    ensures a == b
  {
    assert a == [a[0]] + a[1..] && b == [b[0]] + b[1..];
  }

  /** Without ties, a sorted arrangement is determined by the elements. */
  lemma {:induction false} SortedUnique<T(!new)>(le: (T, T) -> bool, a: seq<T>, b: seq<T>)
    requires Preorder(le) && Sorted(le, a) && Sorted(le, b) && multiset(a) == multiset(b) && NoTies(le, a)
    ensures a == b
  {
    assert |a| == |multiset(a)| == |multiset(b)| == |b|;
    if a != [] {
      TailsAgree(le, a, b);
      SortedUnique(le, a[1..], b[1..]);
      Rejoin(a, b);
    }
  }

  /** Sorting forgets the order of arrival. */
  lemma SortForgetsOrder<T(!new)>(le: (T, T) -> bool, s: seq<T>, t: seq<T>)
    requires Preorder(le) && multiset(s) == multiset(t) && NoTies(le, s)
    ensures Sort(le, s) == Sort(le, t)
  {
    SortSorts(le, s);
    SortSorts(le, t);
    forall x | x in Sort(le, s) ensures x in s {
      assert x in multiset(Sort(le, s));
    }
    SortedUnique(le, Sort(le, s), Sort(le, t));
  }

  // ----- one element out of a sequence -----

  lemma Around<T>(s: seq<T>, k: nat)
    requires k < |s|
    ensures s == (s[..k] + [s[k]]) + s[k + 1..]
  {
  }

  /** Taking an element out of the middle leaves the other elements. */
  lemma MiddleOut<T>(s: seq<T>, left: seq<T>, x: T, right: seq<T>)
    requires s == left + [x] + right
    ensures multiset(left + right) == multiset(s) - multiset{x}
  {
  }

  lemma FrontOut<T>(s: seq<T>, front: seq<T>, x: T)
    requires s == front + [x]
    ensures multiset(front) == multiset(s) - multiset{x}
  {
  }

  lemma SplitAt<T>(s: seq<T>, x: T) returns (left: seq<T>, right: seq<T>)
    requires x in s
    ensures s == left + [x] + right
  {
    var i :| 0 <= i < |s| && s[i] == x;
    left, right := s[..i], s[i + 1..];
  }

  // ----- lexicographic order -----

  function LexLe<T(==)>(le: (T, T) -> bool, a: seq<T>, b: seq<T>): bool {
    if a == [] then true
    else if b == [] then false
    else if a[0] == b[0] then LexLe(le, a[1..], b[1..])
    else le(a[0], b[0])
  }

  /** The first place where a and b differ. */
  ghost predicate DifferAt<T>(a: seq<T>, b: seq<T>, k: nat) {
    k < |a| && k < |b| && a[..k] == b[..k] && a[k] != b[k]
  }

  lemma DifferAtTails<T>(a: seq<T>, b: seq<T>, k: nat)
    requires a != [] && b != [] && a[0] == b[0]
    ensures DifferAt(a[1..], b[1..], k) <==> DifferAt(a, b, k + 1)
  {
    if k < |a| - 1 && k < |b| - 1 {
      assert a[..k + 1] == [a[0]] + a[1..][..k] && b[..k + 1] == [b[0]] + b[1..][..k];
      assert a[..k + 1][1..] == a[1..][..k] && b[..k + 1][1..] == b[1..][..k];
    }
  }

  /** What comes first is a prefix of the other, or has the lesser element where the two first differ. */
  lemma {:induction false} LexIff<T>(le: (T, T) -> bool, a: seq<T>, b: seq<T>)
    ensures LexLe(le, a, b) <==> a <= b || exists k: nat :: DifferAt(a, b, k) && le(a[k], b[k])
  {
    if a != [] && b != [] && a[0] == b[0] {
      LexIff(le, a[1..], b[1..]);
      assert a == [a[0]] + a[1..] && b == [b[0]] + b[1..];
      if k: nat :| DifferAt(a, b, k) && le(a[k], b[k]) {
        DifferAtTails(a, b, k - 1);
      }
      if k: nat :| DifferAt(a[1..], b[1..], k) && le(a[1..][k], b[1..][k]) {
        DifferAtTails(a, b, k);
        assert le(a[k + 1], b[k + 1]);
      }
    } else if a != [] && b != [] {
      assert a[..0] == b[..0] && DifferAt(a, b, 0);
      assert forall k: nat :: k > 0 && k < |a| && k < |b| ==> a[..k][0] != b[..k][0];
    }
  }

  lemma {:induction false} LexConnected<T(!new)>(le: (T, T) -> bool, a: seq<T>, b: seq<T>)
    requires TotalOrder(le)
    ensures LexLe(le, a, b) || LexLe(le, b, a)
    ensures LexLe(le, a, b) && LexLe(le, b, a) ==> a == b
  {
    if a != [] && b != [] && a[0] == b[0] {
      LexConnected(le, a[1..], b[1..]);
      assert a == [a[0]] + a[1..] && b == [b[0]] + b[1..];
    }
  }

  lemma {:induction false} LexTransitive<T(!new)>(le: (T, T) -> bool, a: seq<T>, b: seq<T>, c: seq<T>)
    requires TotalOrder(le) && LexLe(le, a, b) && LexLe(le, b, c)
    ensures LexLe(le, a, c)
  {
    if a != [] && a[0] == b[0] == c[0] {
      LexTransitive(le, a[1..], b[1..], c[1..]);
    }
  }

  predicate CharLe(c: char, d: char) { c <= d }

  /** The order of strings, character by character. */
  predicate StringLe(a: string, b: string) { LexLe(CharLe, a, b) }

  lemma StringLeTotalOrder()
    ensures TotalOrder(StringLe)
  {
    forall a, b ensures StringLe(a, b) || StringLe(b, a)
            ensures StringLe(a, b) && StringLe(b, a) ==> a == b
    {
      LexConnected(CharLe, a, b);
    }
    forall a, b, c | StringLe(a, b) && StringLe(b, c) ensures StringLe(a, c) {
      LexTransitive(CharLe, a, b, c);
    }
  }

  lemma StringLeIff(a: string, b: string)
    ensures StringLe(a, b) <==> a <= b || exists k: nat :: DifferAt(a, b, k) && a[k] < b[k]
  {
    LexIff(CharLe, a, b);
  }

  predicate ByteLe(c: byte, d: byte) { c <= d }

  /** The order of byte strings. */
  predicate BytesLe(a: seq<byte>, b: seq<byte>) { LexLe(ByteLe, a, b) }

  lemma BytesLeTotalOrder()
    ensures TotalOrder(BytesLe)
  {
    forall a, b ensures BytesLe(a, b) || BytesLe(b, a)
            ensures BytesLe(a, b) && BytesLe(b, a) ==> a == b
    {
      LexConnected(ByteLe, a, b);
    }
    forall a, b, c | BytesLe(a, b) && BytesLe(b, c) ensures BytesLe(a, c) {
      LexTransitive(ByteLe, a, b, c);
    }
  }

  lemma BytesLeIff(a: seq<byte>, b: seq<byte>)
    ensures BytesLe(a, b) <==> a <= b || exists k: nat :: DifferAt(a, b, k) && a[k] < b[k]
  {
    LexIff(ByteLe, a, b);
  }

  /** The order of paths, component by component. */
  predicate PathLe(a: seq<string>, b: seq<string>) { LexLe(StringLe, a, b) }

  lemma PathLeTotalOrder()
    ensures TotalOrder(PathLe)
  {
    StringLeTotalOrder();
    forall a, b ensures PathLe(a, b) || PathLe(b, a)
            ensures PathLe(a, b) && PathLe(b, a) ==> a == b
    {
      LexConnected(StringLe, a, b);
    }
    forall a, b, c | PathLe(a, b) && PathLe(b, c) ensures PathLe(a, c) {
      LexTransitive(StringLe, a, b, c);
    }
  }

  // ----- the ascending list of a finite set -----

  /** The elements of a set in ascending order, as an ordered map or set iterates. */
  ghost function Ascending<T(!new)>(le: (T, T) -> bool, s: set<T>): (r: seq<T>)
    requires TotalOrder(le)
    ensures |r| == |s| && multiset(r) == multiset(s) && Sorted(le, r)
  {
    if s == {} then []
    else
      var x :| x in s;
      InsertSortedSorts(le, x, Ascending(le, s - {x}));
      InsertSortedElements(le, x, Ascending(le, s - {x}));
      assert s == {x} + (s - {x});
      InsertSorted(le, x, Ascending(le, s - {x}))
  }

  lemma AscendingElements<T(!new)>(le: (T, T) -> bool, s: set<T>)
    requires TotalOrder(le)
    ensures forall x :: x in Ascending(le, s) <==> x in s
    ensures forall i, j :: 0 <= i < j < |Ascending(le, s)| ==> Ascending(le, s)[i] != Ascending(le, s)[j]
  {
    var r := Ascending(le, s);
    forall x ensures x in r <==> x in s {
      assert x in r <==> x in multiset(r);
    }
    forall i, j | 0 <= i < j < |r| ensures r[i] != r[j] {
      assert r == r[..j] + r[j..];
      assert r[i] in multiset(r[..j]) && r[j] in multiset(r[j..]);
      assert multiset(s)[r[i]] == 1;
    }
  }

  /** A set of names in order. */
  ghost function InOrder(names: set<string>): (r: seq<string>) {
    StringLeTotalOrder();
    Ascending(StringLe, names)
  }

  ghost predicate Distinct<T>(s: seq<T>) {
    forall i, j :: 0 <= i < j < |s| ==> s[i] != s[j]
  }

  lemma InOrderElements(names: set<string>)
    ensures forall n :: n in InOrder(names) <==> n in names
    ensures Distinct(InOrder(names)) && Sorted(StringLe, InOrder(names))
    ensures |InOrder(names)| == |names|
  {
    StringLeTotalOrder();
    AscendingElements(StringLe, names);
  }

  method NamesInOrder(names: set<string>) returns (r: seq<string>)
    ensures r == InOrder(names)
    ensures forall n :: n in r <==> n in names
  {
    StringLeTotalOrder();
    r := AscendingList(StringLe, names);
    AscendingElements(StringLe, names);
  }

  /** The ascending list of a set, its last element apart. */
  lemma LastOf<T(!new)>(le: (T, T) -> bool, s: set<T>) returns (front: seq<T>, x: T)
    requires TotalOrder(le) && |s| >= 1
    ensures Sorted(le, front + [x]) && multiset(front + [x]) == multiset(s)
    ensures x in s && x !in front && forall y :: y in front ==> y in s
  {
    var r := Ascending(le, s);
    AscendingElements(le, s);
    front, x := r[..|r| - 1], r[|r| - 1];
    assert r == front + [x] && x in r;
    forall y | y in front ensures y in s && y != x {
      var i :| 0 <= i < |front| && front[i] == y;
      assert r[i] == y && y in r;
    }
  }

  lemma SetMinus<T>(s: set<T>, rest: set<T>, x: T, list: seq<T>)
    requires rest <= s && x in rest && multiset(list) == multiset(s - rest)
    ensures multiset{x} + multiset(list) == multiset(s - (rest - {x}))
  {
    assert s - (rest - {x}) == (s - rest) + {x};
  }

  /** The ascending list, built by inserting the elements one by one. */
  method AscendingList<T(==, !new)>(le: (T, T) -> bool, s: set<T>) returns (r: seq<T>)
    requires TotalOrder(le)
    ensures r == Ascending(le, s)
  {
    r := [];
    var rest := s;
    while rest != {}
      invariant rest <= s
      invariant Sorted(le, r) && multiset(r) == multiset(s - rest)
      decreases rest
    {
      var x :| x in rest;
      InsertSortedSorts(le, x, r);
      InsertSortedElements(le, x, r);
      SetMinus(s, rest, x, r);
      r := InsertSorted(le, x, r);
      rest := rest - {x};
    }
    assert s - rest == s;
    SortedUnique(le, r, Ascending(le, s));
  }
}
