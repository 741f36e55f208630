/** What is fed to the hasher for a toolchain, and which toolchains it tells apart. */
module Toolchain {
  import opened Common
  import opened Orders
  import opened HashChain
  import opened Pinning
  import opened Utf8

  datatype ToolchainPin = ToolchainPin(tools: map<bytes, bytes>, lockfiles: map<bytes, bytes>)

  /** "tool" and "lock" in ASCII. */
  const TOOL: bytes := [116, 111, 111, 108]
  const LOCK: bytes := [108, 111, 99, 107]

  datatype Pin = Pin(tag: bytes, key: bytes, value: bytes)

  function EncodePin(p: Pin): bytes {
    p.tag + [US] + (p.key + [US] + (p.value + [RS]))
  }

  function EncodePins(pins: seq<Pin>): bytes {
    if pins == [] then [] else EncodePin(pins[0]) + EncodePins(pins[1..])
  }

  function PinList(tag: bytes, keys: seq<bytes>, m: map<bytes, bytes>): seq<Pin>
    requires forall k :: k in keys ==> k in m
  {
    seq(|keys|, i requires 0 <= i < |keys| => assert keys[i] in keys; Pin(tag, keys[i], m[keys[i]]))
  }

  /** The entries of a map under one tag, by ascending key. */
  ghost function PinsOf(tag: bytes, m: map<bytes, bytes>): seq<Pin> {
    BytesLeTotalOrder();
    AscendingElements(BytesLe, m.Keys);
    PinList(tag, Ascending(BytesLe, m.Keys), m)
  }

  lemma PinListElements(tag: bytes, keys: seq<bytes>, m: map<bytes, bytes>, p: Pin)
    requires forall k :: k in keys <==> k in m
    ensures p in PinList(tag, keys, m) <==> p.tag == tag && p.key in m && m[p.key] == p.value
  {
    var pins := PinList(tag, keys, m);
    if p in pins {
      var i :| 0 <= i < |pins| && pins[i] == p;
      assert keys[i] in keys;
    }
    if p.tag == tag && p.key in m && m[p.key] == p.value {
      assert p.key in keys;
      var i :| 0 <= i < |keys| && keys[i] == p.key;
      assert pins[i] == p;
    }
  }

  lemma PinsOfElements(tag: bytes, m: map<bytes, bytes>, p: Pin)
    ensures p in PinsOf(tag, m) <==> p.tag == tag && p.key in m && m[p.key] == p.value
  {
    BytesLeTotalOrder();
    AscendingElements(BytesLe, m.Keys);
    PinListElements(tag, Ascending(BytesLe, m.Keys), m, p);
  }

  /** What the toolchain digest is taken of. */
  ghost function ToolchainPreimage(pin: ToolchainPin): bytes {
    EncodePins(PinsOf(TOOL, pin.tools) + PinsOf(LOCK, pin.lockfiles))
  }

  function DecodePin(b: bytes): (r: Option<(Pin, bytes)>)
    ensures r.Some? ==> |r.value.1| < |b|
  {
    match Until(b, US)
    case None => None
    case Some((tag, b1)) =>
      match Until(b1, US)
      case None => None
      case Some((key, b2)) =>
        match Until(b2, RS)
        case None => None
        case Some((value, rest)) => Some((Pin(tag, key, value), rest))
  }

  function DecodePins(b: bytes): Option<seq<Pin>>
    decreases |b|
  {
    if b == [] then Some([])
    else
      match DecodePin(b)
      case None => None
      case Some((p, rest)) =>
        match DecodePins(rest)
        case None => None
        case Some(pins) => Some([p] + pins)
  }

  predicate PinSeparatorFree(p: Pin) { US !in p.tag && US !in p.key && RS !in p.value }

  lemma DecodePinOf(p: Pin, rest: bytes)
    requires PinSeparatorFree(p)
    ensures DecodePin(EncodePin(p) + rest) == Some((p, rest))
  {
    var b2 := p.value + [RS] + rest;
    var b1 := p.key + [US] + b2;
    assert EncodePin(p) + rest == p.tag + [US] + b1;
    UntilSplits(p.tag, US, b1);
    UntilSplits(p.key, US, b2);
    UntilSplits(p.value, RS, rest);
  }

  lemma {:induction false} DecodePinsOf(pins: seq<Pin>)
    requires forall p :: p in pins ==> PinSeparatorFree(p)
    ensures DecodePins(EncodePins(pins)) == Some(pins)
  {
    if pins != [] {
      DecodePinOf(pins[0], EncodePins(pins[1..]));
      DecodePinsOf(pins[1..]);
      assert pins == [pins[0]] + pins[1..];
    }
  }

  /** The map of the decoded entries under a tag. */
  ghost predicate Holds(pins: seq<Pin>, tag: bytes, m: map<bytes, bytes>) {
    forall key, value :: Pin(tag, key, value) in pins <==> key in m && m[key] == value
  }

  lemma PinsHold(pin: ToolchainPin)
    ensures var pins := PinsOf(TOOL, pin.tools) + PinsOf(LOCK, pin.lockfiles);
            Holds(pins, TOOL, pin.tools) && Holds(pins, LOCK, pin.lockfiles)
  {
    var pins := PinsOf(TOOL, pin.tools) + PinsOf(LOCK, pin.lockfiles);
    assert TOOL[0] != LOCK[0];
    forall tag, key, value
      ensures Pin(tag, key, value) in pins <==>
              (tag == TOOL && key in pin.tools && pin.tools[key] == value)
              || (tag == LOCK && key in pin.lockfiles && pin.lockfiles[key] == value)
    {
      PinsOfElements(TOOL, pin.tools, Pin(tag, key, value));
      PinsOfElements(LOCK, pin.lockfiles, Pin(tag, key, value));
    }
  }

  /** The guard: no key holds a unit separator, no value a record separator. */
  predicate MapSeparatorFree(m: map<bytes, bytes>) {
    forall k | k in m :: US !in k && RS !in m[k]
  }

  lemma PinsSeparatorFree(tag: bytes, m: map<bytes, bytes>)
    requires MapSeparatorFree(m) && US !in tag
    ensures forall p :: p in PinsOf(tag, m) ==> PinSeparatorFree(p)
  {
    forall p | p in PinsOf(tag, m) ensures PinSeparatorFree(p) {
      PinsOfElements(tag, m, p);
    }
  }

  /** Both maps can be read back from the pre-image, if they meet the guard: each is the only map with
      the decoded entries under its tag. */
  lemma ToolchainDecodes(pin: ToolchainPin)
    requires MapSeparatorFree(pin.tools) && MapSeparatorFree(pin.lockfiles)
    ensures DecodePins(ToolchainPreimage(pin)).Some?
    ensures var pins := DecodePins(ToolchainPreimage(pin)).value;
            && Holds(pins, TOOL, pin.tools) && Holds(pins, LOCK, pin.lockfiles)
            && (forall m :: Holds(pins, TOOL, m) ==> m == pin.tools)
            && (forall m :: Holds(pins, LOCK, m) ==> m == pin.lockfiles)
  {
    var pins := PinsOf(TOOL, pin.tools) + PinsOf(LOCK, pin.lockfiles);
    PinsSeparatorFree(TOOL, pin.tools);
    PinsSeparatorFree(LOCK, pin.lockfiles);
    DecodePinsOf(pins);
    PinsHold(pin);
    forall m | Holds(pins, TOOL, m) ensures m == pin.tools {
      HoldsUnique(pins, TOOL, m, pin.tools);
    }
    forall m | Holds(pins, LOCK, m) ensures m == pin.lockfiles {
      HoldsUnique(pins, LOCK, m, pin.lockfiles);
    }
  }

  lemma HoldsUnique(pins: seq<Pin>, tag: bytes, m: map<bytes, bytes>, m': map<bytes, bytes>)
    requires Holds(pins, tag, m) && Holds(pins, tag, m')
    ensures m == m'
  {
    forall k | k in m ensures k in m' && m'[k] == m[k] {
      assert Pin(tag, k, m[k]) in pins;
    }
    forall k | k in m' ensures k in m {
      assert Pin(tag, k, m'[k]) in pins;
    }
  }

  /** Toolchains with the same digest are the same, or a collision is at hand. */
  lemma ToolchainDigestCommits(hash: Hash, a: ToolchainPin, b: ToolchainPin)
    requires MapSeparatorFree(a.tools) && MapSeparatorFree(a.lockfiles)
    requires MapSeparatorFree(b.tools) && MapSeparatorFree(b.lockfiles)
    requires Hex(hash(ToolchainPreimage(a))) == Hex(hash(ToolchainPreimage(b)))
    ensures a == b || Collision(hash, ToolchainPreimage(a), ToolchainPreimage(b))
  {
    ToolchainDecodes(a);
    ToolchainDecodes(b);
    SameHexDigest(hash, ToolchainPreimage(a), ToolchainPreimage(b));
  }

  lemma {:induction false} EncodePinsAppend(a: seq<Pin>, b: seq<Pin>)
    ensures EncodePins(a + b) == EncodePins(a) + EncodePins(b)
  {
    if a == [] {
      assert a + b == b;
    } else {
      assert (a + b)[1..] == a[1..] + b;
      EncodePinsAppend(a[1..], b);
    }
  }

  lemma EncodePinsSnoc(pins: seq<Pin>, p: Pin)
    ensures EncodePins(pins + [p]) == EncodePins(pins) + EncodePin(p)
  {
    EncodePinsAppend(pins, [p]);
    assert [p][1..] == [];
  }

  lemma PinListSnoc(tag: bytes, front: seq<bytes>, key: bytes, m: map<bytes, bytes>)
    requires (forall k :: k in front ==> k in m) && key in m
    ensures PinList(tag, front + [key], m) == PinList(tag, front, m) + [Pin(tag, key, m[key])]
  {
  }

  /** One of the two feeding loops. */
  method FeedKeys(tag: bytes, keys: seq<bytes>, m: map<bytes, bytes>, fed: bytes) returns (fed': bytes)
    requires forall k :: k in keys ==> k in m
    ensures fed' == fed + EncodePins(PinList(tag, keys, m))
  {
    fed' := fed;
    for i := 0 to |keys|
      invariant fed' == fed + EncodePins(PinList(tag, keys[..i], m))
    {
      var key := keys[i];
      assert key in keys;
      ghost var pins := PinList(tag, keys[..i], m);
      var row := EncodePin(Pin(tag, key, m[key]));
      PinListSnoc(tag, keys[..i], key, m);
      EncodePinsSnoc(pins, Pin(tag, key, m[key]));
      assert keys[..i + 1] == keys[..i] + [key];
      assert fed + (EncodePins(pins) + row) == fed + EncodePins(pins) + row;
      fed' := fed' + row;
    }
    assert keys[..|keys|] == keys;
  }

  /** Feeds the entries of a map in the order of its keys. */
  method FeedMap(tag: bytes, m: map<bytes, bytes>, fed: bytes) returns (fed': bytes)
    ensures fed' == fed + EncodePins(PinsOf(tag, m))
  {
    BytesLeTotalOrder();
    var keys := AscendingList(BytesLe, m.Keys);
    AscendingElements(BytesLe, m.Keys);
    fed' := FeedKeys(tag, keys, m, fed);
  }

  lemma ConcatEncoding(pin: ToolchainPin)
    ensures ToolchainPreimage(pin)
         == EncodePins(PinsOf(TOOL, pin.tools)) + EncodePins(PinsOf(LOCK, pin.lockfiles))
  {
    EncodePinsAppend(PinsOf(TOOL, pin.tools), PinsOf(LOCK, pin.lockfiles));
  }

  lemma NothingBefore(b: bytes)
    ensures [] + b == b
  {
  }

  // ----- the pre-image laid out -----

  /** Pairs one after another: the tag, unit separator, the key, unit separator, the value, record separator. */
  ghost predicate PairsLaid(tag: bytes, pairs: seq<(bytes, bytes)>, b: bytes) {
    if pairs == [] then b == []
    else exists rest :: PairLaid(tag, pairs[0].0, pairs[0].1, b, rest) && PairsLaid(tag, pairs[1..], rest)
  }

  predicate PairLaid(tag: bytes, key: bytes, value: bytes, b: bytes, rest: bytes) {
    b == tag + [0x1f] + key + [0x1f] + value + [0x1e] + rest
  }

  /** The pairs are those of the map, by strictly ascending key. */
  ghost predicate ListsMap(pairs: seq<(bytes, bytes)>, m: map<bytes, bytes>) {
    && (forall k, v :: (k, v) in pairs <==> k in m && m[k] == v)
    && forall i, j :: 0 <= i < j < |pairs| ==> BytesLe(pairs[i].0, pairs[j].0) && pairs[i].0 != pairs[j].0
  }

  /** The tools under "tool", and then the lockfiles under "lock". */
  ghost predicate IsToolchainPreimage(b: bytes, pin: ToolchainPin) {
    exists tools: seq<(bytes, bytes)>, locks: seq<(bytes, bytes)>, front: bytes, back: bytes ::
      && ListsMap(tools, pin.tools) && PairsLaid(['t' as int, 'o' as int, 'o' as int, 'l' as int], tools, front)
      && ListsMap(locks, pin.lockfiles) && PairsLaid(['l' as int, 'o' as int, 'c' as int, 'k' as int], locks, back)
      && b == front + back
  }

  function PairsOf(keys: seq<bytes>, m: map<bytes, bytes>): (r: seq<(bytes, bytes)>)
    requires forall k :: k in keys ==> k in m
    ensures |r| == |keys| && forall i :: 0 <= i < |keys| ==> keys[i] in m && r[i] == (keys[i], m[keys[i]])
  {
    seq(|keys|, i requires 0 <= i < |keys| => assert keys[i] in keys; (keys[i], m[keys[i]]))
  }

  lemma PinLayout(tag: bytes, key: bytes, value: bytes, rest: bytes)
    ensures tag + [0x1f] + key + [0x1f] + value + [0x1e] + rest == (tag + [US] + (key + [US] + (value + [RS]))) + rest
  {
  }

  lemma {:induction false} PinsAreLaid(tag: bytes, keys: seq<bytes>, m: map<bytes, bytes>)
    requires forall k :: k in keys ==> k in m
    ensures PairsLaid(tag, PairsOf(keys, m), EncodePins(PinList(tag, keys, m)))
  {
    if keys != [] {
      var pairs, pins := PairsOf(keys, m), PinList(tag, keys, m);
      assert keys[0] in keys && forall k :: k in keys[1..] ==> k in keys;
      PinsAreLaid(tag, keys[1..], m);
      assert pairs[1..] == PairsOf(keys[1..], m) && pins[1..] == PinList(tag, keys[1..], m);
      PinLayout(tag, keys[0], m[keys[0]], EncodePins(pins[1..]));
      assert PairLaid(tag, pairs[0].0, pairs[0].1, EncodePins(pins), EncodePins(pins[1..]));
    }
  }

  lemma {:induction false} AscendingPairsList(keys: seq<bytes>, m: map<bytes, bytes>)
    requires (forall k :: k in keys <==> k in m) && Sorted(BytesLe, keys) && Distinct(keys)
    ensures ListsMap(PairsOf(keys, m), m)
  {
    var pairs := PairsOf(keys, m);
    forall k, v | k in m && m[k] == v ensures (k, v) in pairs {
      assert k in keys;
      var i :| 0 <= i < |keys| && keys[i] == k;
      assert pairs[i] == (k, v);
    }
    forall i, j | 0 <= i < j < |pairs| ensures BytesLe(pairs[i].0, pairs[j].0) && pairs[i].0 != pairs[j].0 {
      assert BytesLe(keys[i], keys[j]) && keys[i] != keys[j];
    }
  }

  lemma MapIsLaid(tag: bytes, m: map<bytes, bytes>) returns (pairs: seq<(bytes, bytes)>)
    ensures ListsMap(pairs, m) && PairsLaid(tag, pairs, EncodePins(PinsOf(tag, m)))
  {
    BytesLeTotalOrder();
    AscendingElements(BytesLe, m.Keys);
    var keys := Ascending(BytesLe, m.Keys);
    pairs := PairsOf(keys, m);
    PinsAreLaid(tag, keys, m);
    AscendingPairsList(keys, m);
  }

  lemma PreimageIsLaid(pin: ToolchainPin)
    ensures IsToolchainPreimage(ToolchainPreimage(pin), pin)
  {
    var tools := MapIsLaid(TOOL, pin.tools);
    var locks := MapIsLaid(LOCK, pin.lockfiles);
    ConcatEncoding(pin);
  }

  method HashToolchain(hash: Hash, pin: ToolchainPin) returns (digest: bytes)
    ensures exists b :: IsToolchainPreimage(b, pin) && IsHexOf(digest, hash(b))
    ensures digest == Hex(hash(ToolchainPreimage(pin)))
  {
    PreimageIsLaid(pin);
    HexSpells(hash(ToolchainPreimage(pin)));
    ConcatEncoding(pin);
    NothingBefore(EncodePins(PinsOf(TOOL, pin.tools)));
    var fed := FeedMap(TOOL, pin.tools, []);
    fed := FeedMap(LOCK, pin.lockfiles, fed);
    digest := Hex(hash(fed));
  }

  // ----- exactly which pre-images are shared -----

  /** Two entries read as one: the boundary between them goes into the value. */
  function Fused(p: Pin, q: Pin): Pin {
    Pin(p.tag, p.key, p.value + [RS] + (q.tag + [US] + (q.key + [US] + q.value)))
  }

  /** Keys and values are strings. */
  predicate Strings(m: map<bytes, bytes>) {
    forall k | k in m :: Text(k) && Text(m[k])
  }

  predicate StringPin(pin: ToolchainPin) { Strings(pin.tools) && Strings(pin.lockfiles) }

  lemma FusedIsString(p: Pin, q: Pin)
    requires Text(p.value) && (q.tag == TOOL || q.tag == LOCK) && Text(q.key) && Text(q.value)
    ensures Text(Fused(p, q).value)
  {
    assert q.tag == [q.tag[0]] + [q.tag[1]] + [q.tag[2]] + [q.tag[3]];
    AsciiIsText(q.tag);
    TextCut(q.key, US, q.value);
    TextCut(q.tag, US, q.key + [US] + q.value);
    var rest := q.tag + [US] + (q.key + [US] + q.value);
    TextCut(p.value, RS, rest);
  }

  lemma LastIsString(m: map<bytes, bytes>, k: bytes, p: Pin, q: Pin)
    requires Strings(m) && k in m && p.value == m[k] && (q.tag == TOOL || q.tag == LOCK) && Text(q.key) && Text(q.value)
    ensures Strings(m[k := Fused(p, q).value])
  {
    FusedIsString(p, q);
  }

  lemma FusedEncoding(p: Pin, q: Pin)
    ensures EncodePin(Fused(p, q)) == EncodePin(p) + EncodePin(q)
  {
  }

  lemma FusedAtEnd(front: seq<Pin>, p: Pin, q: Pin)
    ensures EncodePins(front + [Fused(p, q)]) == EncodePins(front + [p] + [q])
  {
    FusedEncoding(p, q);
    EncodePinsSnoc(front, Fused(p, q));
    EncodePinsSnoc(front, p);
    EncodePinsSnoc(front + [p], q);
    SameBytes(EncodePins(front), EncodePin(p), EncodePin(q));
  }

  /** A list in order and without repetition is the iteration order of its elements. */
  lemma AscendingIs(keys: seq<bytes>, s: set<bytes>)
    requires TotalOrder(BytesLe) && Sorted(BytesLe, keys) && multiset(keys) == multiset(s)
    ensures Ascending(BytesLe, s) == keys
  {
    SortedUnique(BytesLe, Ascending(BytesLe, s), keys);
  }

  lemma PinsOfList(tag: bytes, keys: seq<bytes>, m: map<bytes, bytes>)
    requires TotalOrder(BytesLe) && Sorted(BytesLe, keys) && multiset(keys) == multiset(m.Keys)
    ensures (forall k :: k in keys ==> k in m) && PinsOf(tag, m) == PinList(tag, keys, m)
  {
    AscendingIs(keys, m.Keys);
    forall k | k in keys ensures k in m {
      assert k in multiset(keys);
    }
  }

  lemma PinsOfNone(tag: bytes)
    ensures PinsOf(tag, map[]) == []
  {
    BytesLeTotalOrder();
    var none: map<bytes, bytes> := map[];
    assert none.Keys == {};
    PinsOfList(tag, [], none);
  }

  lemma PinsOfOne(tag: bytes, key: bytes, value: bytes)
    ensures PinsOf(tag, map[key := value]) == [Pin(tag, key, value)]
  {
    BytesLeTotalOrder();
    assert map[key := value].Keys == {key} && multiset([key]) == multiset({key});
    PinsOfList(tag, [key], map[key := value]);
  }

  lemma SameElsewhere(tag: bytes, keys: seq<bytes>, m: map<bytes, bytes>, m': map<bytes, bytes>)
    requires forall k :: k in keys ==> k in m && k in m' && m'[k] == m[k]
    ensures PinList(tag, keys, m') == PinList(tag, keys, m)
  {
    forall i | 0 <= i < |keys| ensures PinList(tag, keys, m')[i] == PinList(tag, keys, m)[i] {
      assert keys[i] in keys;
    }
  }

  /** The ascending keys of a map, the last one apart. */
  lemma LastKey(m: map<bytes, bytes>) returns (front: seq<bytes>, k: bytes)
    requires TotalOrder(BytesLe) && |m| >= 1
    ensures Sorted(BytesLe, front + [k]) && multiset(front + [k]) == multiset(m.Keys)
    ensures k in m && k !in front && forall x :: x in front ==> x in m
  {
    assert |m.Keys| == |m|;
    front, k := LastOf(BytesLe, m.Keys);
  }

  lemma KeysSnoc(tag: bytes, m: map<bytes, bytes>, front: seq<bytes>, k: bytes)
    requires TotalOrder(BytesLe) && Sorted(BytesLe, front + [k]) && multiset(front + [k]) == multiset(m.Keys)
    requires k in m && forall x :: x in front ==> x in m
    ensures PinsOf(tag, m) == PinList(tag, front, m) + [Pin(tag, k, m[k])]
  {
    PinsOfList(tag, front + [k], m);
    PinListSnoc(tag, front, k, m);
  }

  /** Giving the last entry of a map another value changes just that entry. */
  lemma LastRevalued(tag: bytes, m: map<bytes, bytes>, front: seq<bytes>, k: bytes, value: bytes)
    requires TotalOrder(BytesLe) && Sorted(BytesLe, front + [k]) && multiset(front + [k]) == multiset(m.Keys)
    requires k in m && k !in front && forall x :: x in front ==> x in m
    ensures PinsOf(tag, m[k := value]) == PinList(tag, front, m) + [Pin(tag, k, value)]
  {
    var m' := m[k := value];
    assert m'.Keys == m.Keys;
    KeysSnoc(tag, m', front, k);
    SameElsewhere(tag, front, m, m');
  }

  /** What is left of a map without its last key. */
  lemma LastRemoved(tag: bytes, m: map<bytes, bytes>, front: seq<bytes>, k: bytes)
    requires TotalOrder(BytesLe) && Sorted(BytesLe, front + [k]) && multiset(front + [k]) == multiset(m.Keys)
    requires k in m && k !in front && forall x :: x in front ==> x in m
    ensures PinsOf(tag, m - {k}) == PinList(tag, front, m)
  {
    var m' := m - {k};
    assert m'.Keys == m.Keys - {k};
    FrontOut(front + [k], front, k);
    assert multiset(m.Keys) - multiset{k} == multiset(m'.Keys);
    SortedFront(BytesLe, front, k);
    PinsOfList(tag, front, m');
    SameElsewhere(tag, front, m, m');
  }

  /** The last two entries of a map can be read as one. */
  lemma LastTwoForged(tag: bytes, m: map<bytes, bytes>) returns (m': map<bytes, bytes>)
    requires |m| >= 2
    ensures EncodePins(PinsOf(tag, m')) == EncodePins(PinsOf(tag, m)) && m' != m
    ensures Strings(m) && (tag == TOOL || tag == LOCK) ==> Strings(m')
  {
    BytesLeTotalOrder();
    var front, k2 := LastKey(m);
    var less := m - {k2};
    assert m.Keys == less.Keys + {k2} && |less.Keys| == |m| - 1;
    var front1, k1 := LastKey(less);
    KeysSnoc(tag, m, front, k2);
    LastRemoved(tag, m, front, k2);
    KeysSnoc(tag, less, front1, k1);
    var p, q := Pin(tag, k1, m[k1]), Pin(tag, k2, m[k2]);
    m' := less[k1 := Fused(p, q).value];
    LastRevalued(tag, less, front1, k1, Fused(p, q).value);
    FusedAtEnd(PinList(tag, front1, less), p, q);
    assert k2 !in m';
    if Strings(m) && (tag == TOOL || tag == LOCK) {
      LastIsString(less, k1, p, q);
    }
  }

  /** A tool whose value holds the boundary reads like that tool and a lockfile. */
  lemma ToolForged(tools: map<bytes, bytes>, key: bytes, value: bytes) returns (other: ToolchainPin)
    requires |tools| >= 1
    ensures ToolchainPreimage(other) == ToolchainPreimage(ToolchainPin(tools, map[key := value]))
    ensures other.lockfiles == map[]
    ensures Strings(tools) && Text(key) && Text(value) ==> StringPin(other)
  {
    BytesLeTotalOrder();
    var front, k := LastKey(tools);
    var p, q := Pin(TOOL, k, tools[k]), Pin(LOCK, key, value);
    if Strings(tools) && Text(key) && Text(value) {
      LastIsString(tools, k, p, q);
    }
    other := ToolchainPin(tools[k := Fused(p, q).value], map[]);
    KeysSnoc(TOOL, tools, front, k);
    LastRevalued(TOOL, tools, front, k, Fused(p, q).value);
    PinsOfNone(LOCK);
    PinsOfOne(LOCK, key, value);
    var pins := PinList(TOOL, front, tools);
    assert pins + [p] + [q] == (pins + [p]) + [q];
    FusedAtEnd(pins, p, q);
    assert pins + [Fused(p, q)] + [] == pins + [Fused(p, q)];
  }

  function Entries(pin: ToolchainPin): nat { |pin.tools| + |pin.lockfiles| }

  /** Two entries or more: some other toolchain has the same pre-image. */
  lemma TwoEntriesForged(pin: ToolchainPin) returns (other: ToolchainPin)
    requires Entries(pin) >= 2
    ensures other != pin && ToolchainPreimage(other) == ToolchainPreimage(pin)
    ensures StringPin(pin) ==> StringPin(other)
  {
    if |pin.lockfiles| >= 2 {
      var m := LastTwoForged(LOCK, pin.lockfiles);
      other := pin.(lockfiles := m);
      ConcatEncoding(other);
      ConcatEncoding(pin);
    } else if |pin.tools| >= 2 && pin.lockfiles == map[] {
      var m := LastTwoForged(TOOL, pin.tools);
      other := pin.(tools := m);
      ConcatEncoding(other);
      ConcatEncoding(pin);
    } else {
      var key :| key in pin.lockfiles;
      OneEntry(pin.lockfiles, key);
      other := ToolForged(pin.tools, key, pin.lockfiles[key]);
    }
  }

  lemma OneEntry(m: map<bytes, bytes>, key: bytes)
    requires |m| == 1 && key in m
    ensures m == map[key := m[key]]
  {
    assert |m.Keys| == 1 && {key} <= m.Keys;
    assert |m.Keys - {key}| == 0;
    assert m.Keys == {key};
  }

  // ----- one entry -----

  function Single(p: Pin): ToolchainPin {
    if p.tag == TOOL then ToolchainPin(map[p.key := p.value], map[])
    else ToolchainPin(map[], map[p.key := p.value])
  }

  lemma EncodeOne(p: Pin)
    ensures EncodePins([p]) == EncodePin(p)
  {
    assert [p][1..] == [];
    assert EncodePin(p) + [] == EncodePin(p);
  }

  lemma SinglePreimage(p: Pin)
    requires p.tag == TOOL || p.tag == LOCK
    ensures ToolchainPreimage(Single(p)) == EncodePin(p)
  {
    assert TOOL[0] != LOCK[0];
    PinsOfOne(p.tag, p.key, p.value);
    EncodeOne(p);
    if p.tag == TOOL {
      PinsOfNone(LOCK);
      assert [p] + [] == [p];
    } else {
      PinsOfNone(TOOL);
      assert [] + [p] == [p];
    }
  }

  lemma KeySeparatorForged(p: Pin) returns (p': Pin)
    requires US in p.key
    ensures p' != p && p'.tag == p.tag && EncodePin(p') == EncodePin(p)
    ensures Text(p.key) && Text(p.value) ==> Text(p'.key) && Text(p'.value)
  {
    var (a, b) := Until(p.key, US).value;
    p' := Pin(p.tag, a, b + [US] + p.value);
    assert p.key == a + [US] + b && |p'.key| < |p.key|;
    TextCut(a, US, b);
    TextCut(b, US, p.value);
  }

  lemma ValueSeparatorForged(p: Pin) returns (p': Pin)
    requires US in p.value
    ensures p' != p && p'.tag == p.tag && EncodePin(p') == EncodePin(p)
    ensures Text(p.key) && Text(p.value) ==> Text(p'.key) && Text(p'.value)
  {
    var (a, b) := Until(p.value, US).value;
    p' := Pin(p.tag, p.key + [US] + a, b);
    assert p.value == a + [US] + b && |p'.value| < |p.value|;
    TextCut(a, US, b);
    TextCut(p.key, US, a);
  }

  /** A separator in the key or the value can be read as the one between them. */
  lemma SeparatorForged(p: Pin) returns (p': Pin)
    requires US in p.key || US in p.value
    ensures p' != p && p'.tag == p.tag && EncodePin(p') == EncodePin(p)
    ensures Text(p.key) && Text(p.value) ==> Text(p'.key) && Text(p'.value)
  {
    if US in p.key {
      p' := KeySeparatorForged(p);
    } else {
      p' := ValueSeparatorForged(p);
    }
  }

  function Count(b: bytes): nat { multiset(b)[US] }

  lemma CountPin(p: Pin)
    ensures Count(EncodePin(p)) == Count(p.tag) + Count(p.key) + Count(p.value) + 2
  {
  }

  lemma {:induction false} CountPins(pins: seq<Pin>)
    ensures Count(EncodePins(pins)) >= 2 * |pins|
  {
    if pins != [] {
      CountPin(pins[0]);
      CountPins(pins[1..]);
    }
  }

  lemma NoneCounted(b: bytes)
    ensures Count(b) == 0 <==> US !in b
  {
    assert US in b <==> US in multiset(b);
  }

  lemma SamePin(p: Pin, q: Pin)
    requires US !in p.tag && US !in p.key && US !in q.tag && US !in q.key && EncodePin(p) == EncodePin(q)
    ensures p == q
  {
    UntilSplits(p.tag, US, p.key + [US] + (p.value + [RS]));
    UntilSplits(q.tag, US, q.key + [US] + (q.value + [RS]));
    assert EncodePin(p) == p.tag + [US] + (p.key + [US] + (p.value + [RS]));
    assert EncodePin(q) == q.tag + [US] + (q.key + [US] + (q.value + [RS]));
    UntilSplits(p.key, US, p.value + [RS]);
    UntilSplits(q.key, US, q.value + [RS]);
    assert (p.value + [RS])[..|p.value|] == p.value && (q.value + [RS])[..|q.value|] == q.value;
  }

  lemma TwoCounted(p: Pin)
    requires Count(EncodePin(p)) == 2
    ensures US !in p.tag && US !in p.key
  {
    CountPin(p);
    NoneCounted(p.tag);
    NoneCounted(p.key);
  }

  /** One entry free of separators is the only list of entries with its encoding. */
  lemma OnlyPin(p: Pin, pins: seq<Pin>)
    requires US !in p.tag && US !in p.key && US !in p.value && EncodePins(pins) == EncodePin(p)
    ensures pins == [p]
  {
    CountPin(p);
    NoneCounted(p.tag);
    NoneCounted(p.key);
    NoneCounted(p.value);
    CountPins(pins);
    assert |EncodePin(p)| > 0;
    OnlyOne(p, pins, pins[0]);
  }

  lemma OnlyOne(p: Pin, pins: seq<Pin>, q: Pin)
    requires US !in p.tag && US !in p.key && Count(EncodePin(p)) == 2
    requires |pins| == 1 && q == pins[0] && EncodePins(pins) == EncodePin(p)
    ensures pins == [p]
  {
    assert pins == [q];
    EncodeOne(q);
    TwoCounted(q);
    SamePin(p, q);
  }

  lemma SamePinsSameToolchain(a: ToolchainPin, b: ToolchainPin)
    requires PinsOf(TOOL, a.tools) + PinsOf(LOCK, a.lockfiles) == PinsOf(TOOL, b.tools) + PinsOf(LOCK, b.lockfiles)
    ensures a == b
  {
    var pins := PinsOf(TOOL, a.tools) + PinsOf(LOCK, a.lockfiles);
    PinsHold(a);
    PinsHold(b);
    HoldsUnique(pins, TOOL, a.tools, b.tools);
    HoldsUnique(pins, LOCK, a.lockfiles, b.lockfiles);
  }

  /** No other toolchain, of strings, has the same pre-image. */
  ghost predicate Alone(pin: ToolchainPin) {
    forall other :: StringPin(other) && ToolchainPreimage(other) == ToolchainPreimage(pin) ==> other == pin
  }

  lemma NoneIsAlone()
    ensures Alone(ToolchainPin(map[], map[]))
  {
    var pin := ToolchainPin(map[], map[]);
    PinsOfNone(TOOL);
    PinsOfNone(LOCK);
    forall other | StringPin(other) && ToolchainPreimage(other) == ToolchainPreimage(pin) ensures other == pin {
      var pins := PinsOf(TOOL, other.tools) + PinsOf(LOCK, other.lockfiles);
      assert EncodePins(pins) == [];
      assert pins == [];
      SamePinsSameToolchain(other, pin);
    }
  }

  lemma OneIsNotAlone(p: Pin)
    requires (p.tag == TOOL || p.tag == LOCK) && Text(p.key) && Text(p.value) && (US in p.key || US in p.value)
    ensures !Alone(Single(p))
  {
    var p' := SeparatorForged(p);
    SinglePreimage(p);
    SinglePreimage(p');
    SingleInjective(p, p');
    SingleStrings(p');
  }

  lemma SingleStrings(p: Pin)
    requires Text(p.key) && Text(p.value)
    ensures StringPin(Single(p))
  {
  }

  lemma OneIsAlone(p: Pin)
    requires (p.tag == TOOL || p.tag == LOCK) && US !in p.key && US !in p.value
    ensures Alone(Single(p))
  {
    assert US !in TOOL && US !in LOCK;
    SinglePreimage(p);
    forall other | StringPin(other) && ToolchainPreimage(other) == ToolchainPreimage(Single(p))
      ensures other == Single(p)
    {
      OnlyPin(p, PinsOf(TOOL, other.tools) + PinsOf(LOCK, other.lockfiles));
      OnlyPin(p, PinsOf(TOOL, Single(p).tools) + PinsOf(LOCK, Single(p).lockfiles));
      SamePinsSameToolchain(other, Single(p));
    }
  }

  lemma SingleInjective(p: Pin, q: Pin)
    requires p.tag == q.tag && p != q
    ensures Single(p) != Single(q)
  {
    var m, n := map[p.key := p.value], map[q.key := q.value];
    assert m.Keys == {p.key} && n.Keys == {q.key};
    assert p.key == q.key ==> m[p.key] == p.value && n[p.key] == q.value;
  }

  /** The entries of a toolchain with just one. */
  lemma TheEntry(pin: ToolchainPin) returns (p: Pin)
    requires Entries(pin) == 1
    ensures (p.tag == TOOL || p.tag == LOCK) && pin == Single(p)
  {
    assert TOOL[0] != LOCK[0];
    if |pin.tools| == 1 {
      var key :| key in pin.tools;
      OneEntry(pin.tools, key);
      p := Pin(TOOL, key, pin.tools[key]);
    } else {
      var key :| key in pin.lockfiles;
      OneEntry(pin.lockfiles, key);
      p := Pin(LOCK, key, pin.lockfiles[key]);
    }
  }

  /** No key and no value holds a unit separator. */
  predicate PlainEntries(m: map<bytes, bytes>) {
    forall k | k in m :: US !in k && US !in m[k]
  }

  lemma SingleHolds(p: Pin)
    requires p.tag == TOOL || p.tag == LOCK
    ensures PlainEntries(Single(p).tools) && PlainEntries(Single(p).lockfiles) <==> US !in p.key && US !in p.value
    ensures StringPin(Single(p)) <==> Text(p.key) && Text(p.value)
  {
    assert p.key in map[p.key := p.value];
  }

  /** With any strings for names and values, a toolchain is told by its pre-image exactly when it has no entry, or a
      single one free of unit separators: any two entries can be read as one. */
  lemma ToolchainAloneIff(pin: ToolchainPin)
    requires StringPin(pin)
    ensures Alone(pin) <==> Entries(pin) == 0
                            || (Entries(pin) == 1 && PlainEntries(pin.tools) && PlainEntries(pin.lockfiles))
  {
    if Entries(pin) == 0 {
      assert pin == ToolchainPin(map[], map[]);
      NoneIsAlone();
    } else if Entries(pin) == 1 {
      var p := TheEntry(pin);
      SingleHolds(p);
      if US in p.key || US in p.value {
        OneIsNotAlone(p);
      } else {
        OneIsAlone(p);
      }
    } else {
      var other := TwoEntriesForged(pin);
    }
  }
}
