/** Small datatypes and byte-level vocabulary shared by every component. */
module Common {
  type byte = x: int | 0 <= x < 256

  type bytes = seq<byte>

  datatype Option<+T> = None | Some(value: T)

  /** A map lookup that answers None for an absent key. */
  function Get<K, V>(m: map<K, V>, k: K): (r: Option<V>) {
    if k in m then Some(m[k]) else None
  }

  lemma PrefixSnoc<T>(s: seq<T>, i: nat)
    requires i < |s|
    ensures s[..i + 1] == s[..i] + [s[i]]
  {
  }

  lemma WholePrefix<T>(s: seq<T>)
    ensures s[..|s|] == s
  {
  }

  /** The decimal digits of n, most significant first. */
  function Digits(n: nat): (ds: seq<nat>)
    ensures |ds| >= 1 && forall i :: 0 <= i < |ds| ==> ds[i] < 10
  {
    if n < 10 then [n] else Digits(n / 10) + [n % 10]
  }

  /** n as Rust's integer `to_string` prints it. */
  function Decimal(n: nat): (s: string)
    ensures |s| >= 1 && forall i :: 0 <= i < |s| ==> '0' <= s[i] <= '9'
  {
    var ds := Digits(n);
    seq(|ds|, i requires 0 <= i < |ds| => '0' + ds[i] as char)
  }

  /** The same in ASCII bytes. */
  function DecimalBytes(n: nat): (b: bytes)
    ensures |b| >= 1 && forall c :: c in b ==> 48 <= c <= 57
  {
    var ds := Digits(n);
    seq(|ds|, i requires 0 <= i < |ds| => 48 + ds[i])
  }

  /** The number a string of decimal digits spells. */
  function DecimalValue(s: string): nat
    requires forall i :: 0 <= i < |s| ==> '0' <= s[i] <= '9'
  {
    if s == "" then 0 else 10 * DecimalValue(s[..|s| - 1]) + (s[|s| - 1] as int - '0' as int)
  }

  lemma {:induction false} DecimalReads(n: nat)
    ensures DecimalValue(Decimal(n)) == n
    ensures Decimal(n)[0] == '0' ==> n == 0
  {
    if n >= 10 {
      DecimalReads(n / 10);
      assert Decimal(n)[..|Decimal(n)| - 1] == Decimal(n / 10);
    }
  }

  /** The number a list of digits stands for. */
  function DigitsValue(ds: seq<nat>): nat {
    if ds == [] then 0 else 10 * DigitsValue(ds[..|ds| - 1]) + ds[|ds| - 1]
  }

  lemma {:induction false} DigitsRoundTrip(n: nat)
    ensures DigitsValue(Digits(n)) == n
  {
    if n >= 10 {
      DigitsRoundTrip(n / 10);
      assert Digits(n)[..|Digits(n)| - 1] == Digits(n / 10);
    }
  }

  /** Splits b at the first c. */
  function Until(b: bytes, c: byte): (r: Option<(bytes, bytes)>)
    ensures r.Some? ==> b == r.value.0 + [c] + r.value.1 && c !in r.value.0
    ensures r.None? ==> c !in b
  {
    if b == [] then None
    else if b[0] == c then Some(([], b[1..]))
    else
      match Until(b[1..], c)
      case None => None
      case Some((before, after)) => Some(([b[0]] + before, after))
  }

  lemma {:induction false} UntilSplits(a: bytes, c: byte, rest: bytes)
    requires c !in a
    ensures Until(a + [c] + rest, c) == Some((a, rest))
  {
    if a == [] {
      assert (a + [c] + rest)[1..] == rest;
    } else {
      assert (a + [c] + rest)[1..] == a[1..] + [c] + rest;
      UntilSplits(a[1..], c, rest);
      assert a == [a[0]] + a[1..];
    }
  }
}
