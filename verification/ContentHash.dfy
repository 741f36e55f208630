/**
 The two-lane rolling hash that keys rendered file contents: on the low lane FNV-1a with the 64-bit
 offset basis and prime of draft-eastlake-fnv section 2, on the high lane a variant with another basis
 and prime and each byte rotated.  Words are integers modulo 2^64.
 */
module ContentHash {
  import opened Common
  import opened HashChain

  const TWO_64: int := 0x1_0000_0000_0000_0000

  type word = x: int | 0 <= x < TWO_64

  // ----- word arithmetic -----

  function Pow2(n: nat): nat { if n == 0 then 1 else 2 * Pow2(n - 1) }

  /** Exclusive or of the n low bits. */
  function Xor(a: nat, b: nat, n: nat): nat {
    if n == 0 then 0 else 2 * Xor(a / 2, b / 2, n - 1) + (a % 2 + b % 2) % 2
  }

  lemma {:induction false} XorBounded(a: nat, b: nat, n: nat)
    ensures Xor(a, b, n) < Pow2(n)
  {
    if n > 0 {
      XorBounded(a / 2, b / 2, n - 1);
    }
  }

  lemma BitsOf(h: nat, l: nat, x: nat)
    requires l < 2 && x == 2 * h + l
    ensures x / 2 == h && x % 2 == l
  {
  }

  lemma XorBits(a: nat, b: nat, n: nat)
    requires n > 0
    ensures Xor(a, b, n) / 2 == Xor(a / 2, b / 2, n - 1)
    ensures Xor(a, b, n) % 2 == (a % 2 + b % 2) % 2
  {
    BitsOf(Xor(a / 2, b / 2, n - 1), (a % 2 + b % 2) % 2, Xor(a, b, n));
  }

  lemma ParityCancels(x: nat, y: nat)
    requires x < 2 && y < 2
    ensures ((x + y) % 2 + y) % 2 == x
  {
  }

  /** Exclusive or undoes itself. */
  lemma {:induction false} XorCancels(a: nat, b: nat, n: nat)
    requires a < Pow2(n)
    ensures Xor(Xor(a, b, n), b, n) == a
  {
    if n > 0 {
      XorCancels(a / 2, b / 2, n - 1);
      XorBits(a, b, n);
      ParityCancels(a % 2, b % 2);
    }
  }

  lemma {:induction false} XorCommutes(a: nat, b: nat, n: nat)
    ensures Xor(a, b, n) == Xor(b, a, n)
  {
    if n > 0 {
      XorCommutes(a / 2, b / 2, n - 1);
    }
  }

  lemma Pow2Of64()
    ensures Pow2(64) == TWO_64
  {
    assert Pow2(8) == 0x100;
    assert Pow2(16) == 0x1_0000 && Pow2(24) == 0x100_0000 && Pow2(32) == 0x1_0000_0000;
    assert Pow2(40) == 0x100_0000_0000 && Pow2(48) == 0x1_0000_0000_0000 && Pow2(56) == 0x100_0000_0000_0000;
  }

  function XorWord(a: word, b: byte): word {
    XorBounded(a, b, 64);
    Pow2Of64();
    Xor(a, b, 64)
  }

  /** The byte rotated left by one: the top bit comes back at the bottom. */
  function RotateLeft(b: byte): byte { if b < 128 then 2 * b else 2 * b - 255 }

  // ----- the hash -----

  const LOW_BASIS: word := 0xcbf2_9ce4_8422_2325
  const LOW_PRIME: word := 0x0000_0100_0000_01b3
  const HIGH_BASIS: word := 0x9e37_79b9_7f4a_7c15
  const HIGH_PRIME: word := 0x0000_0001_0000_01b3

  function LowStep(low: word, b: byte): word {
    XorWord(low, b) * LOW_PRIME % TWO_64
  }

  function HighStep(high: word, b: byte): word {
    XorWord(high, RotateLeft(b)) * HIGH_PRIME % TWO_64
  }

  function Fold(step: (word, byte) -> word, start: word, text: bytes): word
    decreases |text|
  {
    if text == [] then start else step(Fold(step, start, text[..|text| - 1]), text[|text| - 1])
  }

  function LowLane(text: bytes): word { Fold(LowStep, LOW_BASIS, text) }

  function HighLane(text: bytes): word { Fold(HighStep, HIGH_BASIS, text) }

  /** The n low bytes of x, most significant first. */
  function BigEndian(x: nat, n: nat): (b: bytes)
    ensures |b| == n
  {
    if n == 0 then [] else BigEndian(x / 256, n - 1) + [x % 256]
  }

  /** Both lanes as one 128-bit number in 32 lowercase hex digits. */
  function Format(low: word, high: word): bytes {
    Hex(BigEndian(high, 8) + BigEndian(low, 8))
  }

  // ----- the digest tells both lanes -----

  function FromBigEndian(b: bytes): nat {
    if b == [] then 0 else 256 * FromBigEndian(b[..|b| - 1]) + b[|b| - 1]
  }

  lemma {:induction false} BigEndianRoundTrip(x: nat, n: nat)
    requires x < Pow256(n)
    ensures FromBigEndian(BigEndian(x, n)) == x
  {
    if n > 0 {
      BigEndianRoundTrip(x / 256, n - 1);
      assert (BigEndian(x / 256, n - 1) + [x % 256])[..n - 1] == BigEndian(x / 256, n - 1);
    }
  }

  lemma Pow256Of8()
    ensures Pow256(8) == TWO_64
  {
    assert Pow256(2) == 0x1_0000 && Pow256(4) == 0x1_0000_0000 && Pow256(6) == 0x1_0000_0000_0000;
  }

  /** Equal digests have equal lanes. */
  lemma FormatInjective(low: word, high: word, low': word, high': word)
    requires Format(low, high) == Format(low', high')
    ensures low == low' && high == high'
  {
    var a, b := BigEndian(high, 8) + BigEndian(low, 8), BigEndian(high', 8) + BigEndian(low', 8);
    HexInjective(a, b);
    assert a[..8] == BigEndian(high, 8) && a[8..] == BigEndian(low, 8);
    assert b[..8] == BigEndian(high', 8) && b[8..] == BigEndian(low', 8);
    Pow256Of8();
    BigEndianRoundTrip(low, 8);
    BigEndianRoundTrip(low', 8);
    BigEndianRoundTrip(high, 8);
    BigEndianRoundTrip(high', 8);
  }

  // ----- each step is injective in the state and in the byte -----

  ghost predicate StepInjective(step: (word, byte) -> word) {
    && (forall s, s', b :: step(s, b) == step(s', b) ==> s == s')
    && (forall s, b, b' :: step(s, b) == step(s, b') ==> b == b')
  }

  lemma XorWordInjective(s: word, s': word, b: byte, b': byte)
    ensures XorWord(s, b) == XorWord(s', b) ==> s == s'
    ensures XorWord(s, b) == XorWord(s, b') ==> b == b'
  {
    Pow2Of64();
    XorCancels(s, b, 64);
    XorCancels(s', b, 64);
    XorCommutes(s, b, 64);
    XorCommutes(s, b', 64);
    XorCancels(b, s, 64);
    XorCancels(b', s, 64);
  }

  /** The primes are odd, so multiplication by them is invertible modulo 2^64:
      0x100000001b3 * 0xce965057aff6957b == 1 + 0xce9650590f * 2^64. */
  lemma LowPrimeInvertible(x: word, y: word)
    requires x * LOW_PRIME % TWO_64 == y * LOW_PRIME % TWO_64
    ensures x == y
  {
    var q := x * LOW_PRIME / TWO_64 - y * LOW_PRIME / TWO_64;
    assert (x - y) * LOW_PRIME == q * TWO_64;
    var t := q * 0xce965057aff6957b - (x - y) * 0xce9650590f;
    assert x - y == t * TWO_64;
  }

  /** 0x1000001b3 * 0xb153003eaff6957b == 1 + 0xb153016c * 2^64. */
  lemma HighPrimeInvertible(x: word, y: word)
    requires x * HIGH_PRIME % TWO_64 == y * HIGH_PRIME % TWO_64
    ensures x == y
  {
    var q := x * HIGH_PRIME / TWO_64 - y * HIGH_PRIME / TWO_64;
    assert (x - y) * HIGH_PRIME == q * TWO_64;
    var t := q * 0xb153003eaff6957b - (x - y) * 0xb153016c;
    assert x - y == t * TWO_64;
  }

  lemma LowStepInjective()
    ensures StepInjective(LowStep)
  {
    forall s, s', b | LowStep(s, b) == LowStep(s', b) ensures s == s' {
      LowPrimeInvertible(XorWord(s, b), XorWord(s', b));
      XorWordInjective(s, s', b, b);
    }
    forall s, b, b' | LowStep(s, b) == LowStep(s, b') ensures b == b' {
      LowPrimeInvertible(XorWord(s, b), XorWord(s, b'));
      XorWordInjective(s, s, b, b');
    }
  }

  lemma HighStepInjective()
    ensures StepInjective(HighStep)
  {
    forall s, s', b | HighStep(s, b) == HighStep(s', b) ensures s == s' {
      HighPrimeInvertible(XorWord(s, RotateLeft(b)), XorWord(s', RotateLeft(b)));
      XorWordInjective(s, s', RotateLeft(b), RotateLeft(b));
    }
    forall s, b, b' | HighStep(s, b) == HighStep(s, b') ensures b == b' {
      HighPrimeInvertible(XorWord(s, RotateLeft(b)), XorWord(s, RotateLeft(b')));
      XorWordInjective(s, s, RotateLeft(b), RotateLeft(b'));
    }
  }

  // ----- one changed byte shows -----

  /** The same bytes keep different states different. */
  lemma {:induction false} FoldKeepsApart(step: (word, byte) -> word, s: word, s': word, text: bytes)
    requires StepInjective(step) && s != s'
    ensures Fold(step, s, text) != Fold(step, s', text)
    decreases |text|
  {
    if text != [] {
      FoldKeepsApart(step, s, s', text[..|text| - 1]);
    }
  }

  lemma {:induction false} FoldAppend(step: (word, byte) -> word, s: word, a: bytes, b: bytes)
    ensures Fold(step, s, a + b) == Fold(step, Fold(step, s, a), b)
    decreases |b|
  {
    if b == [] {
      assert a + b == a;
    } else {
      assert (a + b)[..|a + b| - 1] == a + b[..|b| - 1];
      FoldAppend(step, s, a, b[..|b| - 1]);
    }
  }

  lemma FoldShows(step: (word, byte) -> word, start: word, front: bytes, b: byte, c: byte, back: bytes)
    requires StepInjective(step) && b != c
    ensures Fold(step, start, front + [b] + back) != Fold(step, start, front + [c] + back)
  {
    FoldAppend(step, start, front + [b], back);
    FoldAppend(step, start, front + [c], back);
    assert (front + [b])[..|front|] == front && (front + [c])[..|front|] == front;
    FoldKeepsApart(step, Fold(step, start, front + [b]), Fold(step, start, front + [c]), back);
  }

  /** Texts of the same length that differ in exactly one byte have different hashes in both lanes. */
  lemma OneByteShows(text: bytes, i: nat, c: byte)
    requires i < |text| && text[i] != c
    ensures LowLane(text) != LowLane(text[i := c])
    ensures HighLane(text) != HighLane(text[i := c])
  {
    var front, back := text[..i], text[i + 1..];
    assert text == front + [text[i]] + back && text[i := c] == front + [c] + back;
    LowStepInjective();
    HighStepInjective();
    FoldShows(LowStep, LOW_BASIS, front, text[i], c, back);
    FoldShows(HighStep, HIGH_BASIS, front, text[i], c, back);
  }

  /** So the digests differ too. */
  lemma OneByteShowsInDigest(text: bytes, i: nat, c: byte)
    requires i < |text| && text[i] != c
    ensures Format(LowLane(text), HighLane(text)) != Format(LowLane(text[i := c]), HighLane(text[i := c]))
  {
    OneByteShows(text, i, c);
    if Format(LowLane(text), HighLane(text)) == Format(LowLane(text[i := c]), HighLane(text[i := c])) {
      FormatInjective(LowLane(text), HighLane(text), LowLane(text[i := c]), HighLane(text[i := c]));
    }
  }

  // ----- what the lanes and the digest are -----

  /** The bit of x of weight 2^k. */
  function Bit(x: nat, k: nat): nat { if k == 0 then x % 2 else Bit(x / 2, k - 1) }

  /** z has exactly the bits that one of a and b has. */
  ghost predicate IsXor(z: int, a: nat, b: nat) {
    0 <= z < 0x1_0000_0000_0000_0000 && forall k: nat :: k < 64 ==> (Bit(z, k) == 1 <==> Bit(a, k) != Bit(b, k))
  }

  lemma {:induction false} BitIsBit(x: nat, k: nat)
    ensures Bit(x, k) < 2
  {
    if k > 0 {
      BitIsBit(x / 2, k - 1);
    }
  }

  lemma {:induction false} XorHasBits(a: nat, b: nat, n: nat, k: nat)
    requires k < n
    ensures Bit(Xor(a, b, n), k) == 1 <==> Bit(a, k) != Bit(b, k)
  {
    XorBits(a, b, n);
    if k > 0 {
      XorHasBits(a / 2, b / 2, n - 1, k - 1);
    }
  }

  lemma XorWordIsXor(a: word, b: byte)
    ensures IsXor(XorWord(a, b), a, b)
  {
    forall k: nat | k < 64 ensures Bit(XorWord(a, b), k) == 1 <==> Bit(a, k) != Bit(b, k) {
      XorHasBits(a, b, 64, k);
    }
  }

  /** The states of a lane: from the basis on, exclusive or with the byte and then multiplication, modulo 2^64. */
  ghost predicate IsLane(basis: int, prime: int, fed: bytes, states: seq<int>) {
    && |states| == |fed| + 1 && states[0] == basis
    && forall k :: 0 <= k < |fed| ==> states[k] >= 0 && IsRound(prime, states[k], fed[k], states[k + 1])
  }

  ghost predicate IsRound(prime: int, before: nat, b: byte, after: int) {
    exists z :: IsXor(z, before, b) && after == z * prime % 0x1_0000_0000_0000_0000
  }

  /** The bytes, each turned left by one bit. */
  ghost predicate AreTurned(text: bytes, turned: bytes) {
    |turned| == |text| && forall k :: 0 <= k < |text| ==> IsTurned(text[k], turned[k])
  }

  predicate IsTurned(b: byte, t: byte) {
    Bit(t, 0) == Bit(b, 7) && forall k: nat :: k < 7 ==> Bit(t, k + 1) == Bit(b, k)
  }

  lemma {:induction false} LowBitsKept(x: nat, n: nat, k: nat)
    requires k < n
    ensures Bit(x + Pow2(n), k) == Bit(x, k)
  {
    assert (x + Pow2(n)) / 2 == x / 2 + Pow2(n - 1) && (x + Pow2(n)) % 2 == x % 2;
    if k > 0 {
      LowBitsKept(x / 2, n - 1, k - 1);
    }
  }

  lemma {:induction false} TopBit(x: nat, n: nat)
    requires x < 2 * Pow2(n)
    ensures Bit(x, n) == if x < Pow2(n) then 0 else 1
  {
    if n > 0 {
      TopBit(x / 2, n - 1);
    }
  }

  lemma RotateTurns(b: byte)
    ensures IsTurned(b, RotateLeft(b))
  {
    var t := RotateLeft(b);
    assert Pow2(7) == 128;
    TopBit(b, 7);
    forall k: nat | k < 7 ensures Bit(t, k + 1) == Bit(b, k) {
      if b >= 128 {
        assert t == 2 * (b - 128) + 1;
        LowBitsKept(b - 128, 7, k);
      }
    }
  }

  /** The digest is 32 lowercase hexadecimal digits, the most significant first, of high * 2^64 + low. */
  ghost predicate IsDigest(digest: bytes, low: int, high: int) {
    && |digest| == 32 && (forall c :: c in digest ==> HexValue(c) >= 0)
    && HexNumber(digest) == high * 0x1_0000_0000_0000_0000 + low
  }

  function HexNumber(digits: bytes): int {
    if digits == [] then 0 else 16 * HexNumber(digits[..|digits| - 1]) + HexValue(digits[|digits| - 1])
  }

  // ----- the lanes and the digest are those -----

  /** The states a fold goes through. */
  function States(step: (word, byte) -> word, start: word, text: bytes): (states: seq<int>)
    ensures |states| == |text| + 1
    ensures forall k :: 0 <= k <= |text| ==> states[k] == Fold(step, start, text[..k])
  {
    seq(|text| + 1, k requires 0 <= k <= |text| => Fold(step, start, text[..k]))
  }

  lemma LowIsLane(text: bytes)
    ensures IsLane(14695981039346656037, 1099511628211, text, States(LowStep, LOW_BASIS, text))
  {
    var states := States(LowStep, LOW_BASIS, text);
    assert text[..0] == [];
    forall k | 0 <= k < |text| ensures states[k] >= 0 && IsRound(1099511628211, states[k], text[k], states[k + 1]) {
      assert text[..k + 1][..k] == text[..k];
      XorWordIsXor(states[k], text[k]);
    }
  }

  function Turned(text: bytes): (r: bytes)
    ensures |r| == |text| && forall k :: 0 <= k < |text| ==> r[k] == RotateLeft(text[k])
  {
    seq(|text|, k requires 0 <= k < |text| => RotateLeft(text[k]))
  }

  lemma TurnedAreTurned(text: bytes)
    ensures AreTurned(text, Turned(text))
  {
    forall k | 0 <= k < |text| ensures IsTurned(text[k], Turned(text)[k]) {
      RotateTurns(text[k]);
    }
  }

  lemma HighIsLane(text: bytes)
    ensures IsLane(0x9e37_79b9_7f4a_7c15, 0x1_0000_01b3, Turned(text), States(HighStep, HIGH_BASIS, text))
  {
    var states, turned := States(HighStep, HIGH_BASIS, text), Turned(text);
    assert text[..0] == [];
    forall k | 0 <= k < |text| ensures states[k] >= 0 && IsRound(0x1_0000_01b3, states[k], turned[k], states[k + 1]) {
      assert text[..k + 1][..k] == text[..k];
      XorWordIsXor(states[k], turned[k]);
    }
  }

  lemma {:induction false} HexNumberOf(b: bytes)
    ensures HexNumber(Hex(b)) == FromBigEndian(b)
    ensures forall c :: c in Hex(b) ==> HexValue(c) >= 0
  {
    if b != [] {
      var n := |b| - 1;
      HexNumberOf(b[..n]);
      HexDigitsSpell(b[n]);
      var h := Hex(b);
      assert h[..|h| - 1] == Hex(b[..n]) + [HexDigit(b[n] / 16)];
      assert h[..|h| - 1][..|h| - 2] == Hex(b[..n]);
    }
  }

  lemma {:induction false} BigEndianAppend(a: bytes, b: bytes)
    ensures FromBigEndian(a + b) == FromBigEndian(a) * Pow256(|b|) + FromBigEndian(b)
    decreases |b|
  {
    if b == [] {
      assert a + b == a;
    } else {
      var n := |b| - 1;
      assert (a + b)[..|a + b| - 1] == a + b[..n];
      BigEndianAppend(a, b[..n]);
    }
  }

  lemma FormatIsDigest(low: word, high: word)
    ensures IsDigest(Format(low, high), low, high)
  {
    HexNumberOf(BigEndian(high, 8) + BigEndian(low, 8));
    BigEndianAppend(BigEndian(high, 8), BigEndian(low, 8));
    Pow256Of8();
    BigEndianRoundTrip(low, 8);
    BigEndianRoundTrip(high, 8);
  }

  ghost predicate IsContentHash(text: bytes, digest: bytes) {
    exists turned: bytes, lows: seq<int>, highs: seq<int> :: IsContentHashBy(text, digest, turned, lows, highs)
  }

  /** The low lane is FNV-1a with the 64-bit offset basis and prime; the high lane has a basis and a prime of its own,
      and the bytes turned. */
  ghost predicate IsContentHashBy(text: bytes, digest: bytes, turned: bytes, lows: seq<int>, highs: seq<int>) {
    && IsLane(14695981039346656037, 1099511628211, text, lows)
    && AreTurned(text, turned) && IsLane(0x9e37_79b9_7f4a_7c15, 0x1_0000_01b3, turned, highs)
    && IsDigest(digest, lows[|text|], highs[|text|])
  }

  lemma HashIsContentHash(text: bytes)
    ensures IsContentHash(text, Format(LowLane(text), HighLane(text)))
  {
    LowIsLane(text);
    HighIsLane(text);
    TurnedAreTurned(text);
    FormatIsDigest(LowLane(text), HighLane(text));
    assert text[..|text|] == text;
    assert IsContentHashBy(text, Format(LowLane(text), HighLane(text)), Turned(text), States(LowStep, LOW_BASIS, text),
                           States(HighStep, HIGH_BASIS, text));
  }

  method ContentHash(text: bytes) returns (digest: bytes)
    ensures IsContentHash(text, digest)
    ensures digest == Format(LowLane(text), HighLane(text))
  {
    var low, high := LOW_BASIS, HIGH_BASIS;
    for i := 0 to |text|
      invariant low == LowLane(text[..i])
      invariant high == HighLane(text[..i])
    {
      assert text[..i + 1][..i] == text[..i];
      low := XorWord(low, text[i]);
      low := low * LOW_PRIME % TWO_64;
      high := XorWord(high, RotateLeft(text[i]));
      high := high * HIGH_PRIME % TWO_64;
    }
    assert text[..|text|] == text;
    digest := Format(low, high);
    HashIsContentHash(text);
  }

  // ----- the vectors that draft-eastlake-fnv publishes -----

  lemma {:induction false} XorZero(a: nat, n: nat)
    requires a < Pow2(n)
    ensures Xor(a, 0, n) == a
  {
    if n > 0 {
      XorZero(a / 2, n - 1);
    }
  }

  lemma Halved(x: nat, l: nat)
    ensures (2 * x + l) / 2 == x + l / 2 && (2 * x + l) % 2 == l % 2
  {
  }

  lemma TwiceProduct(h: nat, p: nat)
    ensures h * (2 * p) == 2 * (h * p)
  {
  }

  /** Exclusive or with m bits leaves the bits above them. */
  lemma {:induction false} XorLow(h: nat, l: nat, b: nat, n: nat, m: nat)
    requires m <= n && l < Pow2(m) && b < Pow2(m) && h * Pow2(m) + l < Pow2(n)
    ensures Xor(h * Pow2(m) + l, b, n) == h * Pow2(m) + Xor(l, b, m)
  {
    if m == 0 {
      XorZero(h, n);
    } else {
      var high := h * Pow2(m - 1);
      TwiceProduct(h, Pow2(m - 1));
      Halved(high, l);
      XorLow(h, l / 2, b / 2, n - 1, m - 1);
      XorUp(high, l, b, n, m);
    }
  }

  lemma XorUp(high: nat, l: nat, b: nat, n: nat, m: nat)
    requires 0 < m <= n && Xor(high + l / 2, b / 2, n - 1) == high + Xor(l / 2, b / 2, m - 1)
    ensures Xor(2 * high + l, b, n) == 2 * high + Xor(l, b, m)
  {
    Halved(high, l);
    XorLast(2 * high + l, b, n);
    XorLast(l, b, m);
  }

  lemma XorLast(a: nat, b: nat, n: nat)
    requires n > 0
    ensures Xor(a, b, n) == 2 * Xor(a / 2, b / 2, n - 1) + (a % 2 + b % 2) % 2
  {
  }

  lemma XorStep(h: nat, l: nat, k: nat, m: nat, n: nat)
    requires l < 2 && m < 2
    ensures Xor(2 * h + l, 2 * k + m, n + 1) == 2 * Xor(h, k, n) + Differ(l, m)
  {
    BitsOf(h, l, 2 * h + l);
    BitsOf(k, m, 2 * k + m);
  }

  function Differ(a: nat, b: nat): nat { if a == b then 0 else 1 }

  lemma XorPair(a: nat, b: nat, n: nat, h: nat, k: nat, a1: nat, a0: nat, b1: nat, b0: nat)
    requires a1 < 2 && a0 < 2 && b1 < 2 && b0 < 2 && a == 4 * h + 2 * a1 + a0 && b == 4 * k + 2 * b1 + b0
    ensures Xor(a, b, n + 2) == 4 * Xor(h, k, n) + 2 * Differ(a1, b1) + Differ(a0, b0)
  {
    XorStep(2 * h + a1, a0, 2 * k + b1, b0, n + 1);
    XorStep(h, a1, k, b1, n);
  }

  /** Four more bits, one by one. */
  lemma XorNibble(a: nat, b: nat, n: nat, h: nat, k: nat, a3: nat, a2: nat, a1: nat, a0: nat,
                  b3: nat, b2: nat, b1: nat, b0: nat)
    requires a3 < 2 && a2 < 2 && a1 < 2 && a0 < 2 && b3 < 2 && b2 < 2 && b1 < 2 && b0 < 2
    requires a == 16 * h + 8 * a3 + 4 * a2 + 2 * a1 + a0 && b == 16 * k + 8 * b3 + 4 * b2 + 2 * b1 + b0
    ensures Xor(a, b, n + 4)
         == 16 * Xor(h, k, n) + 8 * Differ(a3, b3) + 4 * Differ(a2, b2) + 2 * Differ(a1, b1) + Differ(a0, b0)
  {
    var x, y := 4 * h + 2 * a3 + a2, 4 * k + 2 * b3 + b2;
    XorPair(x, y, n, h, k, a3, a2, b3, b2);
    XorPair(a, b, n + 2, x, y, a1, a0, b1, b0);
  }

  lemma XorLowByte(h: nat, l: byte, b: byte)
    requires h < 0x100_0000_0000_0000
    ensures XorWord(256 * h + l, b) == 256 * h + Xor(l, b, 8)
  {
    assert Pow2(8) == 256;
    Pow2Of64();
    XorLow(h, l, b, 64, 8);
  }

  /** Exclusive or of two bytes, bit by bit. */
  lemma XorOfBits(l: byte, b: byte, a7: nat, a6: nat, a5: nat, a4: nat, a3: nat, a2: nat, a1: nat, a0: nat,
                  b7: nat, b6: nat, b5: nat, b4: nat, b3: nat, b2: nat, b1: nat, b0: nat)
    requires a7 < 2 && a6 < 2 && a5 < 2 && a4 < 2 && a3 < 2 && a2 < 2 && a1 < 2 && a0 < 2
    requires b7 < 2 && b6 < 2 && b5 < 2 && b4 < 2 && b3 < 2 && b2 < 2 && b1 < 2 && b0 < 2
    requires l == 128 * a7 + 64 * a6 + 32 * a5 + 16 * a4 + 8 * a3 + 4 * a2 + 2 * a1 + a0
    requires b == 128 * b7 + 64 * b6 + 32 * b5 + 16 * b4 + 8 * b3 + 4 * b2 + 2 * b1 + b0
    ensures Xor(l, b, 8) == 128 * Differ(a7, b7) + 64 * Differ(a6, b6) + 32 * Differ(a5, b5) + 16 * Differ(a4, b4)
                            + 8 * Differ(a3, b3) + 4 * Differ(a2, b2) + 2 * Differ(a1, b1) + Differ(a0, b0)
  {
    var h, k, o: nat := 8 * a7 + 4 * a6 + 2 * a5 + a4, 8 * b7 + 4 * b6 + 2 * b5 + b4, 0;
    XorNibble(h, k, o, o, o, a7, a6, a5, a4, b7, b6, b5, b4);
    XorNibble(l, b, o + 4, h, k, a3, a2, a1, a0, b3, b2, b1, b0);
  }

  /** One round of the low lane, in numbers. */
  lemma LowRound(low: word, b: byte, h: nat, l: byte, x: nat, next: word,
                 a7: nat, a6: nat, a5: nat, a4: nat, a3: nat, a2: nat, a1: nat, a0: nat,
                 b7: nat, b6: nat, b5: nat, b4: nat, b3: nat, b2: nat, b1: nat, b0: nat)
    requires a7 < 2 && a6 < 2 && a5 < 2 && a4 < 2 && a3 < 2 && a2 < 2 && a1 < 2 && a0 < 2
    requires b7 < 2 && b6 < 2 && b5 < 2 && b4 < 2 && b3 < 2 && b2 < 2 && b1 < 2 && b0 < 2
    requires l == 128 * a7 + 64 * a6 + 32 * a5 + 16 * a4 + 8 * a3 + 4 * a2 + 2 * a1 + a0
    requires b == 128 * b7 + 64 * b6 + 32 * b5 + 16 * b4 + 8 * b3 + 4 * b2 + 2 * b1 + b0
    requires x == 128 * Differ(a7, b7) + 64 * Differ(a6, b6) + 32 * Differ(a5, b5) + 16 * Differ(a4, b4)
                  + 8 * Differ(a3, b3) + 4 * Differ(a2, b2) + 2 * Differ(a1, b1) + Differ(a0, b0)
    requires low == 256 * h + l && next == (256 * h + x) * 0x100_0000_01b3 % 0x1_0000_0000_0000_0000
    ensures LowStep(low, b) == next
  {
    XorOfBits(l, b, a7, a6, a5, a4, a3, a2, a1, a0, b7, b6, b5, b4, b3, b2, b1, b0);
    XorLowByte(h, l, b);
  }

  lemma {:induction false} LowLaneOf(text: bytes, states: seq<word>)
    requires |states| == |text| + 1 && states[0] == LOW_BASIS
    requires forall k :: 0 <= k < |text| ==> LowStep(states[k], text[k]) == states[k + 1]
    ensures LowLane(text) == states[|text|]
  {
    if text != [] {
      LowLaneOf(text[..|text| - 1], states[..|text|]);
    }
  }

  lemma RoundOfA(low: word, b: byte)
    requires low == 0xcbf2_9ce4_8422_2325 && b == 0x61
    ensures LowStep(low, b) == 0xaf63_dc4c_8601_ec8c
  {
    LowRound(low, b, 0xcb_f29c_e484_2223, 0x25, 0x44, 0xaf63_dc4c_8601_ec8c,
             0, 0, 1, 0, 0, 1, 0, 1, 0, 1, 1, 0, 0, 0, 0, 1);
  }

  lemma LowLaneOfA(text: bytes)
    requires |text| == 1 && text[0] == 'a' as int
    ensures LowLane(text) == 0xaf63_dc4c_8601_ec8c
  {
    var states: seq<word> := [LOW_BASIS, 0xaf63_dc4c_8601_ec8c];
    RoundOfA(states[0], text[0]);
    LowLaneOf(text, states);
  }

  lemma RoundF(low: word, b: byte)
    requires low == 0xcbf2_9ce4_8422_2325 && b == 0x66
    ensures LowStep(low, b) == 0xaf63_db4c_8601_ead9
  {
    LowRound(low, b, 0xcb_f29c_e484_2223, 0x25, 0x43, 0xaf63_db4c_8601_ead9,
             0, 0, 1, 0, 0, 1, 0, 1, 0, 1, 1, 0, 0, 1, 1, 0);
  }

  lemma RoundO(low: word, b: byte)
    requires low == 0xaf63_db4c_8601_ead9 && b == 0x6f
    ensures LowStep(low, b) == 0x898_5907_b541_d342
  {
    LowRound(low, b, 0xaf_63db_4c86_01ea, 0xd9, 0xb6, 0x898_5907_b541_d342,
             1, 1, 0, 1, 1, 0, 0, 1, 0, 1, 1, 0, 1, 1, 1, 1);
  }

  lemma RoundOO(low: word, b: byte)
    requires low == 0x898_5907_b541_d342 && b == 0x6f
    ensures LowStep(low, b) == 0xdcb2_7518_fed9_d577
  {
    LowRound(low, b, 0x8_9859_07b5_41d3, 0x42, 0x2d, 0xdcb2_7518_fed9_d577,
             0, 1, 0, 0, 0, 0, 1, 0, 0, 1, 1, 0, 1, 1, 1, 1);
  }

  lemma RoundB(low: word, b: byte)
    requires low == 0xdcb2_7518_fed9_d577 && b == 0x62
    ensures LowStep(low, b) == 0xdd12_0e79_0c25_12af
  {
    LowRound(low, b, 0xdc_b275_18fe_d9d5, 0x77, 0x15, 0xdd12_0e79_0c25_12af,
             0, 1, 1, 1, 0, 1, 1, 1, 0, 1, 1, 0, 0, 0, 1, 0);
  }

  lemma RoundA(low: word, b: byte)
    requires low == 0xdd12_0e79_0c25_12af && b == 0x61
    ensures LowStep(low, b) == 0xcac1_65af_a2fe_f40a
  {
    LowRound(low, b, 0xdd_120e_790c_2512, 0xaf, 0xce, 0xcac1_65af_a2fe_f40a,
             1, 0, 1, 0, 1, 1, 1, 1, 0, 1, 1, 0, 0, 0, 0, 1);
  }

  lemma RoundR(low: word, b: byte)
    requires low == 0xcac1_65af_a2fe_f40a && b == 0x72
    ensures LowStep(low, b) == 0x8594_4171_f739_67e8
  {
    LowRound(low, b, 0xca_c165_afa2_fef4, 0x0a, 0x78, 0x8594_4171_f739_67e8,
             0, 0, 0, 0, 1, 0, 1, 0, 0, 1, 1, 1, 0, 0, 1, 0);
  }

  lemma SixSteps(text: bytes, states: seq<word>)
    requires |text| == 6 && |states| == 7 && states[0] == LOW_BASIS
    requires LowStep(states[0], text[0]) == states[1] && LowStep(states[1], text[1]) == states[2]
    requires LowStep(states[2], text[2]) == states[3] && LowStep(states[3], text[3]) == states[4]
    requires LowStep(states[4], text[4]) == states[5] && LowStep(states[5], text[5]) == states[6]
    ensures LowLane(text) == states[6]
  {
    LowLaneOf(text, states);
  }

  lemma LowLaneOfFoobar(text: bytes)
    requires |text| == 6 && text[0] == 'f' as int && text[1] == text[2] == 'o' as int
    requires text[3] == 'b' as int && text[4] == 'a' as int && text[5] == 'r' as int
    ensures LowLane(text) == 0x8594_4171_f739_67e8
  {
    var states: seq<word> :=
      [LOW_BASIS, 0xaf63_db4c_8601_ead9, 0x898_5907_b541_d342, 0xdcb2_7518_fed9_d577,
       0xdd12_0e79_0c25_12af, 0xcac1_65af_a2fe_f40a, 0x8594_4171_f739_67e8];
    RoundF(states[0], text[0]);
    RoundO(states[1], text[1]);
    RoundOO(states[2], text[2]);
    RoundB(states[3], text[3]);
    RoundA(states[4], text[4]);
    RoundR(states[5], text[5]);
    SixSteps(text, states);
  }
}
