/**
 Linear hash chains over an opaque 32-byte digest.

 Nothing is assumed of the digest function but its length.  In particular it is not injective;
 instead each result says: equal, or here are two distinct inputs with the same digest.
 */
module HashChain {
  import opened Common

  type Digest = d: bytes | |d| == 32 witness seq(32, i => 0)

  /** SHA-256, or any other function to 32 bytes. */
  type Hash = bytes -> Digest

  /** A canonical JSON serialisation, which is left open but for being a function to bytes. */
  type Json<!T> = T -> bytes

  /** Distinct values have distinct JSON. */
  ghost predicate Injective<T(!new)>(json: Json<T>) {
    forall x, y :: json(x) == json(y) ==> x == y
  }

  // ----- lowercase hex -----

  function HexDigit(n: byte): (c: byte)
    requires n < 16
  {
    if n < 10 then 48 + n else 87 + n
  }

  function Hex(b: bytes): (r: bytes)
    ensures |r| == 2 * |b|
  {
    if b == [] then [] else Hex(b[..|b| - 1]) + [HexDigit(b[|b| - 1] / 16), HexDigit(b[|b| - 1] % 16)]
  }

  /** The value of a lowercase hexadecimal digit; -1 of anything else. */
  function HexValue(c: byte): int {
    if '0' as int <= c <= '9' as int then c - '0' as int
    else if 'a' as int <= c <= 'f' as int then 10 + (c - 'a' as int)
    else -1
  }

  /** The two digits stand for the byte, the high one first. */
  predicate SpellsByte(high: byte, low: byte, b: byte) {
    HexValue(high) >= 0 && HexValue(low) >= 0 && b == 16 * HexValue(high) + HexValue(low)
  }

  /** s spells b in lowercase hex, two digits a byte. */
  predicate IsHexOf(s: bytes, b: bytes) {
    |s| == 2 * |b| && forall k :: 0 <= k < |b| ==> SpellsByte(s[2 * k], s[2 * k + 1], b[k])
  }

  lemma HexDigitsSpell(b: byte)
    ensures SpellsByte(HexDigit(b / 16), HexDigit(b % 16), b)
  {
  }

  lemma {:induction false} HexSpells(b: bytes)
    ensures IsHexOf(Hex(b), b)
  {
    if b != [] {
      var n := |b| - 1;
      HexSpells(b[..n]);
      HexDigitsSpell(b[n]);
      forall k | 0 <= k < n ensures SpellsByte(Hex(b)[2 * k], Hex(b)[2 * k + 1], b[k]) {
        assert Hex(b)[2 * k] == Hex(b[..n])[2 * k] && Hex(b)[2 * k + 1] == Hex(b[..n])[2 * k + 1];
        assert b[..n][k] == b[k];
      }
    }
  }

  lemma SpellingsAgree(high: byte, low: byte, high': byte, low': byte, b: byte)
    requires SpellsByte(high, low, b) && SpellsByte(high', low', b)
    ensures high == high' && low == low'
  {
    assert HexValue(high) == b / 16 == HexValue(high') && HexValue(low) == b % 16 == HexValue(low');
  }

  /** There is one spelling. */
  lemma HexIff(s: bytes, b: bytes)
    ensures IsHexOf(s, b) <==> s == Hex(b)
  {
    HexSpells(b);
    if IsHexOf(s, b) {
      var h := Hex(b);
      forall i | 0 <= i < |s| ensures s[i] == h[i] {
        var k := i / 2;
        SpellingsAgree(s[2 * k], s[2 * k + 1], h[2 * k], h[2 * k + 1], b[k]);
      }
    }
  }

  method WriteHex(b: bytes) returns (out: bytes)
    ensures out == Hex(b) && IsHexOf(out, b)
  {
    HexSpells(b);
    out := [];
    for i := 0 to |b|
      invariant out == Hex(b[..i])
    {
      assert b[..i + 1][..i] == b[..i];
      out := out + [HexDigit(b[i] / 16), HexDigit(b[i] % 16)];
    }
    assert b[..|b|] == b;
  }

  lemma HexDigitsDetermine(x: byte, y: byte)
    requires HexDigit(x / 16) == HexDigit(y / 16) && HexDigit(x % 16) == HexDigit(y % 16)
    ensures x == y
  {
  }

  /** Hex is injective. */
  lemma {:induction false} HexInjective(a: bytes, b: bytes)
    requires Hex(a) == Hex(b)
    ensures a == b
  {
    assert |Hex(a)| == |Hex(b)|;
    if a != [] {
      var n := |a| - 1;
      var ha, hb := Hex(a[..n]), Hex(b[..n]);
      assert Hex(a)[..2 * n] == ha && Hex(b)[..2 * n] == hb;
      assert Hex(a)[2 * n] == HexDigit(a[n] / 16) && Hex(a)[2 * n + 1] == HexDigit(a[n] % 16);
      assert Hex(b)[2 * n] == HexDigit(b[n] / 16) && Hex(b)[2 * n + 1] == HexDigit(b[n] % 16);
      HexDigitsDetermine(a[n], b[n]);
      HexInjective(a[..n], b[..n]);
      assert a == a[..n] + [a[n]] && b == b[..n] + [b[n]];
    }
  }

  // ----- collisions -----

  ghost predicate Collision(hash: Hash, x: bytes, y: bytes) {
    x != y && hash(x) == hash(y)
  }

  /** Distinct inputs with the same hex digest are a collision. */
  lemma SameHexDigest(hash: Hash, x: bytes, y: bytes)
    requires Hex(hash(x)) == Hex(hash(y))
    ensures x == y || Collision(hash, x, y)
  {
    HexInjective(hash(x), hash(y));
  }

  // ----- the chain -----

  /** An identity digest: 64 hex characters. */
  type Identity = id: bytes | |id| == 64 witness seq(64, i => 0)

  /** sha256(prev || identity), in hex. */
  function Link(hash: Hash, prev: bytes, identity: Identity): Identity {
    Hex(hash(prev + identity))
  }

  /** The head of the chain over the identities; "" for none. */
  function ChainHead(hash: Hash, ids: seq<Identity>): (head: bytes)
    ensures |head| == if ids == [] then 0 else 64
  {
    if ids == [] then [] else Link(hash, ChainHead(hash, ids[..|ids| - 1]), ids[|ids| - 1])
  }

  /** A chain head commits to the whole sequence of identities, up to an explicit collision. */
  lemma {:induction false} ChainCommits(hash: Hash, ids: seq<Identity>, ids': seq<Identity>)
    returns (x: bytes, y: bytes)
    requires ChainHead(hash, ids) == ChainHead(hash, ids')
    ensures ids == ids' || Collision(hash, x, y)
    decreases |ids|
  {
    x, y := [], [];
    if ids != [] && ids' != [] {
      var front, front' := ids[..|ids| - 1], ids'[..|ids'| - 1];
      var last, last' := ids[|ids| - 1], ids'[|ids'| - 1];
      x, y := ChainHead(hash, front) + last, ChainHead(hash, front') + last';
      SameHexDigest(hash, x, y);
      if x == y {
        assert |ChainHead(hash, front)| == |x| - 64 == |ChainHead(hash, front')|;
        assert ChainHead(hash, front) == x[..|x| - 64] == ChainHead(hash, front');
        assert last == x[|x| - 64..] == last';
        x, y := ChainCommits(hash, front, front');
        assert ids == front + [last] && ids' == front' + [last'];
      }
    }
  }

  /** The heads of a chain, one after another: none at first, and then the hex of the digest of the head so far
      followed by the next identity. */
  ghost predicate AreHeads(hash: Hash, ids: seq<Identity>, heads: seq<bytes>) {
    && |heads| == |ids| + 1 && heads[0] == []
    && forall k :: 0 <= k < |ids| ==> IsHexOf(heads[k + 1], hash(heads[k] + ids[k]))
  }

  lemma {:induction false} HeadsAre(hash: Hash, ids: seq<Identity>, heads: seq<bytes>)
    requires AreHeads(hash, ids, heads)
    ensures heads[|ids|] == ChainHead(hash, ids)
  {
    if ids != [] {
      var n := |ids| - 1;
      HeadsAre(hash, ids[..n], heads[..n + 1]);
      HexIff(heads[n + 1], hash(heads[n] + ids[n]));
    }
  }

  /** The last head of a chain commits to the whole sequence of identities, up to an explicit collision. */
  lemma HeadsCommit(hash: Hash, ids: seq<Identity>, heads: seq<bytes>, ids': seq<Identity>, heads': seq<bytes>)
    returns (x: bytes, y: bytes)
    requires AreHeads(hash, ids, heads) && AreHeads(hash, ids', heads') && heads[|ids|] == heads'[|ids'|]
    ensures ids == ids' || Collision(hash, x, y)
  {
    HeadsAre(hash, ids, heads);
    HeadsAre(hash, ids', heads');
    x, y := ChainCommits(hash, ids, ids');
  }

  // ----- fixed-width integers -----

  type u64 = x: int | 0 <= x < 0x1_0000_0000_0000_0000

  /** n little-endian bytes of x. */
  function LittleEndian(x: nat, n: nat): (r: bytes)
    ensures |r| == n
  {
    if n == 0 then [] else [x % 256] + LittleEndian(x / 256, n - 1)
  }

  function FromLittleEndian(b: bytes): nat {
    if b == [] then 0 else b[0] + 256 * FromLittleEndian(b[1..])
  }

  function Pow256(n: nat): nat {
    if n == 0 then 1 else 256 * Pow256(n - 1)
  }

  lemma {:induction false} LittleEndianRoundTrip(x: nat, n: nat)
    requires x < Pow256(n)
    ensures FromLittleEndian(LittleEndian(x, n)) == x
  {
    if n > 0 {
      assert x / 256 < Pow256(n - 1);
      LittleEndianRoundTrip(x / 256, n - 1);
      assert LittleEndian(x, n)[1..] == LittleEndian(x / 256, n - 1);
    }
  }

  /** Every string of bytes is what its value is written as. */
  lemma {:induction false} LittleEndianOf(b: bytes)
    ensures LittleEndian(FromLittleEndian(b), |b|) == b && FromLittleEndian(b) < Pow256(|b|)
  {
    if b != [] {
      LittleEndianOf(b[1..]);
      var x := FromLittleEndian(b);
      assert x % 256 == b[0] && x / 256 == FromLittleEndian(b[1..]);
      assert b == [b[0]] + b[1..];
    }
  }

  function U64Bytes(x: u64): (r: bytes)
    ensures |r| == 8
  {
    LittleEndian(x, 8)
  }

  lemma U64BytesRoundTrip(x: u64)
    ensures FromLittleEndian(U64Bytes(x)) == x
  {
    assert Pow256(8) == 0x1_0000_0000_0000_0000 by {
      assert Pow256(2) == 0x1_0000 && Pow256(4) == 0x1_0000_0000;
      assert Pow256(6) == 0x1_0000_0000_0000;
    }
    LittleEndianRoundTrip(x, 8);
  }

  /** The eight bytes stand for n, the least significant first. */
  predicate ReadsU64(b: bytes, n: int) {
    && |b| == 8
    && var at: int -> int := k => if 0 <= k < |b| then b[k] else 0;
       n == at(0) + 0x100 * at(1) + 0x1_0000 * at(2) + 0x100_0000 * at(3) + 0x1_0000_0000 * at(4)
            + 0x100_0000_0000 * at(5) + 0x1_0000_0000_0000 * at(6) + 0x100_0000_0000_0000 * at(7)
  }

  lemma FromFour(b: bytes)
    requires |b| >= 4
    ensures FromLittleEndian(b) == b[0] + 0x100 * b[1] + 0x1_0000 * b[2] + 0x100_0000 * b[3]
                                   + 0x1_0000_0000 * FromLittleEndian(b[4..])
  {
    assert b[1..][1..] == b[2..] && b[2..][1..] == b[3..] && b[3..][1..] == b[4..];
    assert FromLittleEndian(b[2..]) == b[2] + 256 * FromLittleEndian(b[3..]);
    assert FromLittleEndian(b[3..]) == b[3] + 256 * FromLittleEndian(b[4..]);
  }

  lemma U64BytesIff(b: bytes, n: u64)
    ensures ReadsU64(b, n) <==> b == U64Bytes(n)
  {
    U64BytesRoundTrip(n);
    if |b| == 8 {
      FromFour(b);
      FromFour(b[4..]);
      assert b[4..][4..] == [];
      LittleEndianOf(b);
    }
  }
}
