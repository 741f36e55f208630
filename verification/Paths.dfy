/** Catalog paths as strings with '/' separators, their components, and scoping to a subdirectory. */
module Paths {
  import opened Common

  const SLASH: char := '/'

  /** The position of the first separator, or the length. */
  function SlashAt(s: string): (i: nat)
    ensures i <= |s| && SLASH !in s[..i] && (i < |s| ==> s[i] == SLASH)
  {
    if s == "" || s[0] == SLASH then 0
    else
      assert s[..1 + SlashAt(s[1..])] == [s[0]] + s[1..][..SlashAt(s[1..])];
      1 + SlashAt(s[1..])
  }

  /** The pieces between separators, empty pieces dropped. */
  function Components(s: string): (cs: seq<string>)
    decreases |s|
  {
    if s == "" then []
    else
      var i := SlashAt(s);
      Piece(s[..i]) + (if i < |s| then Components(s[i + 1..]) else [])
  }

  function Piece(c: string): seq<string> { if c == "" then [] else [c] }

  function Join(cs: seq<string>): string {
    if cs == [] then ""
    else if |cs| == 1 then cs[0]
    else cs[0] + [SLASH] + Join(cs[1..])
  }

  /** A name that can stand between separators. */
  predicate IsComponent(c: string) { c != "" && SLASH !in c }

  lemma {:induction false} ComponentsAreComponents(s: string)
    ensures forall c :: c in Components(s) ==> IsComponent(c)
    decreases |s|
  {
    if s != "" {
      var i := SlashAt(s);
      if i < |s| {
        ComponentsAreComponents(s[i + 1..]);
      }
    }
  }

  lemma SlashAfter(a: string, b: string, s: string)
    requires SLASH !in a && s == a + [SLASH] + b
    ensures SlashAt(s) == |a|
  {
    assert s[|a|] == SLASH && forall k :: 0 <= k < |a| ==> s[k] == a[k];
  }

  lemma Slices(a: string, b: string, s: string)
    requires s == a + [SLASH] + b
    ensures s[..|a|] == a && s[|a| + 1..] == b
  {
  }

  /** The components of a piece, a separator and a rest. */
  lemma AfterPiece(a: string, b: string, s: string)
    requires SLASH !in a && s == a + [SLASH] + b
    ensures Components(s) == Piece(a) + Components(b)
  {
    SlashAfter(a, b, s);
    Slices(a, b, s);
  }

  lemma LastPiece(a: string)
    requires SLASH !in a
    ensures Components(a) == Piece(a)
  {
    if a != "" {
      assert a[..|a|] == a;
    }
  }

  lemma HeadAndTail<T>(cs: seq<T>, c: T, rest: seq<T>)
    requires cs != [] && c == cs[0] && rest == cs[1..]
    ensures [c] + rest == cs && c in cs && forall x :: x in rest ==> x in cs
  {
  }

  lemma JoinStep(cs: seq<string>, c: string, rest: seq<string>)
    requires IsComponent(c) && Components(Join(rest)) == rest
    requires Join(cs) == c + [SLASH] + Join(rest)
    ensures Components(Join(cs)) == [c] + rest
  {
    AfterPiece(c, Join(rest), Join(cs));
  }

  /** Joining components and splitting again gives them back. */
  lemma {:induction false} JoinSplits(cs: seq<string>)
    requires forall c :: c in cs ==> IsComponent(c)
    ensures Components(Join(cs)) == cs
  {
    if cs != [] {
      HeadAndTail(cs, cs[0], cs[1..]);
      if |cs| == 1 {
        LastPiece(cs[0]);
      } else {
        JoinSplits(cs[1..]);
        JoinStep(cs, cs[0], cs[1..]);
      }
    }
  }

  lemma Associates<T>(a: seq<T>, b: seq<T>, c: seq<T>)
    ensures (a + b) + c == a + (b + c)
  {
  }

  lemma Regroup(head: string, rest: string, b: string, a: string)
    requires a == head + [SLASH] + rest
    ensures a + [SLASH] + b == head + [SLASH] + (rest + [SLASH] + b)
  {
  }

  lemma Cut(a: string, i: nat)
    requires i < |a| && a[i] == SLASH
    ensures a == a[..i] + [SLASH] + a[i + 1..]
  {
  }

  /** Splitting distributes over a separator. */
  lemma {:induction false} ComponentsSplit(a: string, b: string)
    ensures Components(a + [SLASH] + b) == Components(a) + Components(b)
    decreases |a|
  {
    var i := SlashAt(a);
    if i == |a| {
      assert a[..i] == a;
      LastPiece(a);
      AfterPiece(a, b, a + [SLASH] + b);
    } else {
      SplitFurther(a, b, i, a[..i], a[i + 1..]);
    }
  }

  lemma {:induction false} SplitFurther(a: string, b: string, i: nat, head: string, rest: string)
    requires i == SlashAt(a) < |a| && head == a[..i] && rest == a[i + 1..]
    ensures Components(a + [SLASH] + b) == Components(a) + Components(b)
    decreases |a|, 0
  {
    Cut(a, i);
    Regroup(head, rest, b, a);
    AfterPiece(head, rest, a);
    AfterPiece(head, rest + [SLASH] + b, a + [SLASH] + b);
    ComponentsSplit(rest, b);
    Associates(Piece(head), Components(rest), Components(b));
  }

  // ----- paths without empty components -----

  /** The path is its components joined: no leading, trailing or doubled separator. */
  predicate IsClean(s: string) { s != "" && s == Join(Components(s)) }

  lemma {:induction false} JoinEnds(cs: seq<string>)
    requires cs != [] && forall c :: c in cs ==> IsComponent(c)
    ensures Join(cs) != "" && Join(cs)[|Join(cs)| - 1] != SLASH
  {
    HeadAndTail(cs, cs[0], cs[1..]);
    if |cs| > 1 {
      JoinEnds(cs[1..]);
    }
  }

  lemma {:induction false} NoComponents(s: string)
    requires Components(s) == [] && s != ""
    ensures s[|s| - 1] == SLASH
    decreases |s|
  {
    var i := SlashAt(s);
    assert i == 0;
    if |s| > 1 {
      NoComponents(s[1..]);
    }
  }

  /** A clean path and what is in scope of it both have components. */
  lemma CleanHasComponents(rel: string, suffix: string, front: string)
    requires IsClean(rel) && suffix != "" && rel == front + suffix
    ensures Components(suffix) != []
  {
    ComponentsAreComponents(rel);
    assert Components(rel) != [];
    JoinEnds(Components(rel));
    assert rel[|rel| - 1] == suffix[|suffix| - 1];
    if Components(suffix) == [] {
      NoComponents(suffix);
    }
  }

  // ----- scoping -----

  predicate StartsWith(s: string, p: string) { |p| <= |s| && s[..|p|] == p }

  /** What follows the directory prefix, "" for the directory itself, None outside it. */
  function StripUnder(rel: string, prefix: string): Option<string> {
    if prefix == "" then Some(rel)
    else if !StartsWith(rel, prefix) then None
    else
      var rest := rel[|prefix|..];
      if rest == "" then Some("")
      else if rest[0] == SLASH then Some(rest[1..])
      else None
  }

  function ScopedRel(rel: string, prefix: Option<string>): Option<string> {
    match prefix
    case None => Some(rel)
    case Some(p) =>
      var stripped := StripUnder(rel, p);
      if stripped == Some("") then None else stripped
  }

  /** A path is in scope exactly when it is the prefix, a separator, and something more; a sibling that
      merely starts with the same characters is not. */
  lemma ScopedIff(rel: string, p: string, suffix: string)
    ensures ScopedRel(rel, Some(p)) == Some(suffix)
       <==> suffix != "" && rel == if p == "" then suffix else p + [SLASH] + suffix
    ensures ScopedRel(rel, None) == Some(rel)
  {
    if p != "" {
      if ScopedRel(rel, Some(p)) == Some(suffix) {
        assert rel == rel[..|p|] + rel[|p|..];
      }
      if suffix != "" && rel == p + [SLASH] + suffix {
        assert rel[..|p|] == p && rel[|p|..] == [SLASH] + suffix;
      }
    }
  }

  /** What is in scope is the prefix's components followed by the suffix's. */
  lemma ScopedComponents(rel: string, prefix: string, suffix: string)
    requires ScopedRel(rel, Some(prefix)) == Some(suffix)
    ensures Components(rel) == Components(prefix) + Components(suffix)
  {
    ScopedIff(rel, prefix, suffix);
    if prefix != "" {
      ComponentsSplit(prefix, suffix);
    }
  }
}
