/** DSSE pre-authentication encoding, and the receipts whose signatures cover it. */
module Receipt {
  import opened Common
  import opened HashChain

  const SPACE: byte := 32

  /** "DSSEv1 " in ASCII. */
  const DSSE_V1: bytes := [68, 83, 83, 69, 118, 49, 32]

  /** The length of x in decimal, a space, and x. */
  function Framed(x: bytes): bytes {
    DecimalBytes(|x|) + [SPACE] + x
  }

  /** PAE(type, payload) of the "Signature Definition" section of the DSSE v1 protocol. */
  function Pae(payloadType: bytes, payload: bytes): bytes {
    DSSE_V1 + (Framed(payloadType) + ([SPACE] + Framed(payload)))
  }

  /** The number that a string of ASCII digits spells. */
  function AsciiValue(b: bytes): int {
    if b == [] then 0 else 10 * AsciiValue(b[..|b| - 1]) + (b[|b| - 1] - '0' as int)
  }

  /** b is n in decimal, in ASCII, without leading zeros. */
  predicate SpellsNumber(b: bytes, n: nat) {
    && b != [] && (forall i :: 0 <= i < |b| ==> '0' as int <= b[i] <= '9' as int)
    && AsciiValue(b) == n && (b[0] == '0' as int ==> |b| == 1)
  }

  lemma {:induction false} DecimalBytesSpell(n: nat)
    ensures SpellsNumber(DecimalBytes(n), n) && (DecimalBytes(n)[0] == '0' as int ==> n == 0)
  {
    if n >= 10 {
      DecimalBytesSpell(n / 10);
      assert DecimalBytes(n)[..|DecimalBytes(n)| - 1] == DecimalBytes(n / 10);
    }
  }

  /** The encoding laid out: the version, and then type and payload, each after its length in bytes; all set apart by
      spaces. */
  ghost predicate IsPae(out: bytes, payloadType: bytes, payload: bytes) {
    exists n: bytes, m: bytes ::
      && SpellsNumber(n, |payloadType|) && SpellsNumber(m, |payload|)
      && out == DsseVersion() + [32] + n + [32] + payloadType + [32] + m + [32] + payload
  }

  function DsseVersion(): bytes {
    ['D' as int, 'S' as int, 'S' as int, 'E' as int, 'v' as int, '1' as int]
  }

  lemma PaeIs(payloadType: bytes, payload: bytes)
    ensures IsPae(Pae(payloadType, payload), payloadType, payload)
  {
    var n, m := DecimalBytes(|payloadType|), DecimalBytes(|payload|);
    DecimalBytesSpell(|payloadType|);
    DecimalBytesSpell(|payload|);
    assert DsseVersion() + [32] == DSSE_V1;
    PaeLayout(DSSE_V1, n, payloadType, m, payload);
  }

  lemma PaeLayout(header: bytes, n: bytes, t: bytes, m: bytes, p: bytes)
    ensures header + n + [32] + t + [32] + m + [32] + p
         == header + ((n + [SPACE] + t) + ([SPACE] + (m + [SPACE] + p)))
  {
  }

  method DssePae(payloadType: bytes, payload: bytes) returns (out: bytes)
    ensures IsPae(out, payloadType, payload) && out == Pae(payloadType, payload)
  {
    PaeIs(payloadType, payload);
    out := [];
    out := out + DSSE_V1;
    out := out + DecimalBytes(|payloadType|);
    out := out + [SPACE];
    out := out + payloadType;
    out := out + [SPACE];
    out := out + DecimalBytes(|payload|);
    out := out + [SPACE];
    out := out + payload;
    PaePieces(DSSE_V1, DecimalBytes(|payloadType|), payloadType, DecimalBytes(|payload|), payload);
  }

  lemma PaePieces(header: bytes, n: bytes, t: bytes, m: bytes, p: bytes)
    ensures [] + header + n + [SPACE] + t + [SPACE] + m + [SPACE] + p
         == header + ((n + [SPACE] + t) + ([SPACE] + (m + [SPACE] + p)))
  {
  }

  // ----- a decoder -----

  /** The number of which b is the decimal, if b is one. */
  function ParseDecimal(b: bytes): (r: Option<nat>)
    ensures r.Some? ==> b == DecimalBytes(r.value)
  {
    if exists i :: 0 <= i < |b| && !(48 <= b[i] <= 57) then None
    else
      var n := DigitsValue(DigitsOf(b));
      if DecimalBytes(n) == b then Some(n) else None
  }

  function DigitsOf(b: bytes): (ds: seq<nat>)
    requires forall i :: 0 <= i < |b| ==> 48 <= b[i] <= 57
  {
    seq(|b|, i requires 0 <= i < |b| => b[i] - 48)
  }

  lemma DecimalRoundTrip(n: nat)
    ensures ParseDecimal(DecimalBytes(n)) == Some(n)
  {
    assert DigitsOf(DecimalBytes(n)) == Digits(n);
    DigitsRoundTrip(n);
  }

  /** A framed byte string and what follows it. */
  function ParseFramed(b: bytes): (r: Option<(bytes, bytes)>)
    ensures r.Some? ==> b == Framed(r.value.0) + r.value.1
  {
    match Until(b, SPACE)
    case None => None
    case Some((digits, rest)) =>
      match ParseDecimal(digits)
      case None => None
      case Some(n) =>
        if |rest| < n then None
        else
          assert rest == rest[..n] + rest[n..];
          Some((rest[..n], rest[n..]))
  }

  lemma ParseFramedOf(x: bytes, rest: bytes)
    ensures ParseFramed(Framed(x) + rest) == Some((x, rest))
  {
    assert Framed(x) + rest == DecimalBytes(|x|) + [SPACE] + (x + rest);
    UntilSplits(DecimalBytes(|x|), SPACE, x + rest);
    DecimalRoundTrip(|x|);
    assert (x + rest)[..|x|] == x && (x + rest)[|x|..] == rest;
  }

  /** Type and payload of an encoding; None for anything that is not one. */
  function ParsePae(b: bytes): (r: Option<(bytes, bytes)>)
    ensures r.Some? ==> b == Pae(r.value.0, r.value.1)
  {
    if !(DSSE_V1 <= b) then None
    else
      assert b == DSSE_V1 + b[|DSSE_V1|..];
      ParseBody(b[|DSSE_V1|..])
  }

  function ParseBody(b: bytes): (r: Option<(bytes, bytes)>)
    ensures r.Some? ==> b == Framed(r.value.0) + ([SPACE] + Framed(r.value.1))
  {
    match ParseFramed(b)
    case None => None
    case Some((t, rest)) =>
      if rest == [] || rest[0] != SPACE then None
      else
        match ParseFramed(rest[1..])
        case None => None
        case Some((p, end)) =>
          if end != [] then None
          else
            assert rest == [SPACE] + rest[1..] && rest[1..] == Framed(p);
            Some((t, p))
  }

  /** The decoder is a left inverse, whatever bytes type and payload are made of; with ParsePae's own
      contract the encodings are exactly the byte strings it accepts. */
  lemma PaeRoundTrip(payloadType: bytes, payload: bytes)
    ensures ParsePae(Pae(payloadType, payload)) == Some((payloadType, payload))
  {
    var rest := [SPACE] + Framed(payload);
    ParseFramedOf(payloadType, rest);
    ParseFramedOf(payload, []);
    assert Framed(payload) + [] == Framed(payload) && rest[1..] == Framed(payload);
    var body := Framed(payloadType) + rest;
    assert (DSSE_V1 + body)[|DSSE_V1|..] == body;
  }

  /** Distinct (type, payload) pairs never share an encoding. */
  lemma PaeInjective(t: bytes, p: bytes, t': bytes, p': bytes)
    requires Pae(t, p) == Pae(t', p')
    ensures t == t' && p == p'
  {
    PaeRoundTrip(t, p);
    PaeRoundTrip(t', p');
  }

  // ----- receipts -----

  datatype Signature = Signature(payloadType: bytes, sig: bytes, publicKey: Option<bytes>)

  datatype Receipt<S> = Receipt(receiptId: bytes, statement: S, signature: Signature)

  datatype Verification = Verification(statementIntact: bool, signatureValid: bool)

  function StatementId<S>(hash: Hash, json: Json<S>, statement: S): bytes { Hex(hash(json(statement))) }

  function SealReceipt<S>(hash: Hash, json: Json<S>, statement: S, signature: Signature): Receipt<S> {
    Receipt(StatementId(hash, json, statement), statement, signature)
  }

  function VerifyReceipt<S>(hash: Hash, json: Json<S>, receipt: Receipt<S>, verifySig: (bytes, bytes, bytes) -> bool)
    : Verification
  {
    var pae := Pae(receipt.signature.payloadType, json(receipt.statement));
    var publicKey := match receipt.signature.publicKey case Some(k) => k case None => [];
    Verification(StatementId(hash, json, receipt.statement) == receipt.receiptId,
                 verifySig(publicKey, pae, receipt.signature.sig))
  }

  /** A receipt is intact when its id is the hex of the digest of its statement's JSON; and its signature is valid when
      the key in it, or none, verifies it over the encoding of the type and that JSON. */
  lemma VerificationIs<S>(hash: Hash, json: Json<S>, receipt: Receipt<S>, verifySig: (bytes, bytes, bytes) -> bool)
    returns (pae: bytes)
    ensures VerifyReceipt(hash, json, receipt, verifySig).statementIntact <==>
            IsHexOf(receipt.receiptId, hash(json(receipt.statement)))
    ensures IsPae(pae, receipt.signature.payloadType, json(receipt.statement))
    ensures
      var key := if receipt.signature.publicKey.Some? then receipt.signature.publicKey.value else [];
      VerifyReceipt(hash, json, receipt, verifySig).signatureValid <==> verifySig(key, pae, receipt.signature.sig)
  {
    HexIff(receipt.receiptId, hash(json(receipt.statement)));
    pae := Pae(receipt.signature.payloadType, json(receipt.statement));
    PaeIs(receipt.signature.payloadType, json(receipt.statement));
  }

  /** A sealed receipt is intact; with another statement under the same id it is not, unless a
      collision is at hand. */
  lemma SealedReceiptIntact<S(!new)>(hash: Hash, json: Json<S>, statement: S, statement': S, signature: Signature,
                                     verifySig: (bytes, bytes, bytes) -> bool)
    requires Injective(json)
    ensures var receipt := SealReceipt(hash, json, statement, signature);
            && receipt.statement == statement && receipt.signature == signature
            && VerifyReceipt(hash, json, receipt, verifySig).statementIntact
            && (VerifyReceipt(hash, json, receipt.(statement := statement'), verifySig).statementIntact ==>
                  statement' == statement || Collision(hash, json(statement), json(statement')))
  {
    if StatementId(hash, json, statement) == StatementId(hash, json, statement') {
      SameHexDigest(hash, json(statement), json(statement'));
    }
  }

  /** A receipt that verifies under a key has a type and a statement that the key has signed together, if
      the signatures the key verifies are those made over the encodings of the pairs signed. */
  lemma SignatureBindsTypeAndStatement<S(!new)>(
    hash: Hash, json: Json<S>, receipt: Receipt<S>, verifySig: (bytes, bytes, bytes) -> bool, key: bytes,
    signed: iset<(bytes, S)>)
    requires Injective(json) && receipt.signature.publicKey == Some(key)
    requires forall message, sig ::
               verifySig(key, message, sig) ==> exists p :: p in signed && message == Pae(p.0, json(p.1))
    requires VerifyReceipt(hash, json, receipt, verifySig).signatureValid
    ensures (receipt.signature.payloadType, receipt.statement) in signed
  {
    var message := Pae(receipt.signature.payloadType, json(receipt.statement));
    assert verifySig(key, message, receipt.signature.sig);
    var p :| p in signed && message == Pae(p.0, json(p.1));
    PaeInjective(receipt.signature.payloadType, json(receipt.statement), p.0, json(p.1));
    assert p == (receipt.signature.payloadType, receipt.statement);
  }
}
