/** The cross-run transparency log: append records, and verify that a slice of them is a chain. */
module Ledger {
  import opened Common
  import opened HashChain

  const SCHEMA_VERSION: nat := 1

  datatype LedgerHead = LedgerHead(schemaVersion: nat, count: nat, headHash: bytes)

  /** `kind` is the recorded fact; what it may be is left open. */
  datatype LedgerRecord<K> =
    LedgerRecord(schemaVersion: nat, seqNo: u64, kind: K, recordHash: bytes, prevHash: bytes, appendedAtMs: nat)

  datatype VerifyError =
    | HashMismatch(seqNo: u64)
    | SeqGap(expected: u64, found: u64)
    | PrevMismatch(seqNo: u64)

  datatype VerifyResult = Verified(head: LedgerHead) | Rejected(error: VerifyError)

  function RecordIdentity<K>(hash: Hash, json: Json<K>, seqNo: u64, kind: K): Identity {
    Hex(hash(U64Bytes(seqNo) + json(kind)))
  }

  /** An identity commits to position and fact, up to an explicit collision. */
  lemma RecordIdentityCommits<K(!new)>(hash: Hash, json: Json<K>, n: u64, k: K, n': u64, k': K)
    returns (x: bytes, y: bytes)
    requires Injective(json) && RecordIdentity(hash, json, n, k) == RecordIdentity(hash, json, n', k')
    ensures (n == n' && k == k') || Collision(hash, x, y)
  {
    x, y := U64Bytes(n) + json(k), U64Bytes(n') + json(k');
    SameHexDigest(hash, x, y);
    if x == y {
      assert x[..8] == U64Bytes(n) && y[..8] == U64Bytes(n');
      assert x[8..] == json(k) && y[8..] == json(k');
      U64BytesRoundTrip(n);
      U64BytesRoundTrip(n');
    }
  }

  /** The digest of the record is the hex of that of what came before, followed by the hex of the digest of the eight
      bytes of its position, the least significant first, and its fact. */
  ghost predicate RecordSpelled<K>(hash: Hash, json: Json<K>, i: int, kind: K, prevHash: bytes, recordHash: bytes) {
    exists le: bytes, id: bytes :: RecordSpelledWith(hash, json, i, kind, prevHash, recordHash, le, id)
  }

  predicate RecordSpelledWith<K>(hash: Hash, json: Json<K>, i: int, kind: K, prevHash: bytes, recordHash: bytes,
                                 le: bytes, id: bytes)
  {
    ReadsU64(le, i) && IsHexOf(id, hash(le + json(kind))) && IsHexOf(recordHash, hash(prevHash + id))
  }

  lemma RecordSpelledIff<K>(hash: Hash, json: Json<K>, i: u64, kind: K, prevHash: bytes, recordHash: bytes)
    ensures RecordSpelled(hash, json, i, kind, prevHash, recordHash) <==>
            recordHash == Link(hash, prevHash, RecordIdentity(hash, json, i, kind))
  {
    var le := U64Bytes(i);
    var id := RecordIdentity(hash, json, i, kind);
    U64BytesIff(le, i);
    HexIff(id, hash(le + json(kind)));
    HexIff(recordHash, hash(prevHash + id));
    if recordHash == Link(hash, prevHash, id) {
      assert RecordSpelledWith(hash, json, i, kind, prevHash, recordHash, le, id);
    }
    if le', id' :| RecordSpelledWith(hash, json, i, kind, prevHash, recordHash, le', id') {
      U64BytesIff(le', i);
      HexIff(id', hash(le + json(kind)));
    }
  }

  // ----- append -----

  function EmptyHead(): LedgerHead { LedgerHead(SCHEMA_VERSION, 0, []) }

  function AppendRecord<K>(hash: Hash, json: Json<K>, head: LedgerHead, kind: K, appendedAtMs: nat)
    : (r: (LedgerRecord<K>, LedgerHead))
    requires head.count < 0x1_0000_0000_0000_0000
  {
    var recordHash := Link(hash, head.headHash, RecordIdentity(hash, json, head.count, kind));
    (LedgerRecord(SCHEMA_VERSION, head.count, kind, recordHash, head.headHash, appendedAtMs),
     LedgerHead(SCHEMA_VERSION, head.count + 1, recordHash))
  }

  /** The records and the head a run of appends leaves, from the empty head. */
  function Appended<K>(hash: Hash, json: Json<K>, facts: seq<(K, nat)>): (r: (seq<LedgerRecord<K>>, LedgerHead))
    requires |facts| <= 0x1_0000_0000_0000_0000
    ensures |r.0| == |facts| && r.1.count == |facts|
  {
    if facts == [] then ([], EmptyHead())
    else
      var (records, head) := Appended(hash, json, facts[..|facts| - 1]);
      var (kind, appendedAtMs) := facts[|facts| - 1];
      var (record, head') := AppendRecord(hash, json, head, kind, appendedAtMs);
      (records + [record], head')
  }

  /** What is appended has the next position, points back to the head, and becomes the head. */
  lemma AppendRecordSpelled<K>(hash: Hash, json: Json<K>, head: LedgerHead, kind: K, appendedAtMs: nat)
    requires head.count < 0x1_0000_0000_0000_0000
    ensures
      var (record, head') := AppendRecord(hash, json, head, kind, appendedAtMs);
      && record.seqNo == head.count && record.kind == kind && record.appendedAtMs == appendedAtMs
      && record.prevHash == head.headHash && record.schemaVersion == 1
      && RecordSpelled(hash, json, head.count, kind, head.headHash, record.recordHash)
      && head'.count == head.count + 1 && head'.headHash == record.recordHash && head'.schemaVersion == 1
  {
    var record := AppendRecord(hash, json, head, kind, appendedAtMs).0;
    RecordSpelledIff(hash, json, head.count, kind, head.headHash, record.recordHash);
  }

  // ----- verify -----

  function PrevHash<K>(records: seq<LedgerRecord<K>>, i: nat): bytes
    requires i <= |records|
  {
    if i == 0 then [] else records[i - 1].recordHash
  }

  /** The record at i has its position for sequence number, points back to its predecessor, and has
      the hash its content demands. */
  predicate Linked<K>(hash: Hash, json: Json<K>, records: seq<LedgerRecord<K>>, i: nat)
    requires i < |records|
  {
    && records[i].seqNo == i
    && records[i].prevHash == PrevHash(records, i)
    && records[i].recordHash ==
       Link(hash, PrevHash(records, i), RecordIdentity(hash, json, records[i].seqNo, records[i].kind))
  }

  ghost predicate IsChain<K>(hash: Hash, json: Json<K>, records: seq<LedgerRecord<K>>) {
    forall i :: 0 <= i < |records| ==> Linked(hash, json, records, i)
  }

  /** The record at i stands where it says, points back to the record before it, if there is one, and has the digest
      that its content demands. */
  ghost predicate SpelledAt<K>(hash: Hash, json: Json<K>, records: seq<LedgerRecord<K>>, i: nat)
    requires i < |records|
  {
    && records[i].seqNo == i && PointsBack(records, i)
    && RecordSpelled(hash, json, i, records[i].kind, records[i].prevHash, records[i].recordHash)
  }

  predicate PointsBack<K>(records: seq<LedgerRecord<K>>, i: nat)
    requires i < |records|
  {
    records[i].prevHash == if i == 0 then [] else records[i - 1].recordHash
  }

  ghost predicate ChainSpelled<K>(hash: Hash, json: Json<K>, records: seq<LedgerRecord<K>>) {
    forall i :: 0 <= i < |records| ==> SpelledAt(hash, json, records, i)
  }

  lemma LinkedIff<K>(hash: Hash, json: Json<K>, records: seq<LedgerRecord<K>>, i: nat)
    requires i < |records|
    ensures Linked(hash, json, records, i) <==> SpelledAt(hash, json, records, i)
  {
    RecordSpelledIff(hash, json, records[i].seqNo, records[i].kind, records[i].prevHash, records[i].recordHash);
  }

  lemma ChainIff<K>(hash: Hash, json: Json<K>, records: seq<LedgerRecord<K>>)
    ensures IsChain(hash, json, records) <==> ChainSpelled(hash, json, records)
  {
    forall i | 0 <= i < |records| ensures Linked(hash, json, records, i) <==> SpelledAt(hash, json, records, i) {
      LinkedIff(hash, json, records, i);
    }
  }

  /** The record at i is the first out of line, and this is the first of its checks that fails. */
  ghost predicate Offends<K>(hash: Hash, json: Json<K>, records: seq<LedgerRecord<K>>, i: nat, error: VerifyError)
    requires i < |records|
  {
    && (forall j :: 0 <= j < i ==> SpelledAt(hash, json, records, j))
    && match error
       case SeqGap(expected, found) => expected == i && found == records[i].seqNo && found != i
       case PrevMismatch(seqNo) => seqNo == records[i].seqNo == i && !PointsBack(records, i)
       case HashMismatch(seqNo) =>
         && seqNo == records[i].seqNo == i && PointsBack(records, i)
         && !RecordSpelled(hash, json, i, records[i].kind, records[i].prevHash, records[i].recordHash)
  }

  lemma OffendingIsNoChain<K>(hash: Hash, json: Json<K>, records: seq<LedgerRecord<K>>, i: nat, error: VerifyError)
    requires i < |records| && Offends(hash, json, records, i, error)
    ensures !ChainSpelled(hash, json, records) && IsRejection(hash, json, records, error)
  {
    assert !SpelledAt(hash, json, records, i);
  }

  ghost predicate IsRejection<K>(hash: Hash, json: Json<K>, records: seq<LedgerRecord<K>>, error: VerifyError) {
    exists i :: 0 <= i < |records| && Offends(hash, json, records, i, error)
  }

  /** Accepts exactly the chains, with the head that commits to them; otherwise names the first
      record out of line and its first failing check. */
  method VerifyChain<K>(hash: Hash, json: Json<K>, records: seq<LedgerRecord<K>>) returns (r: VerifyResult)
    requires |records| <= 0x1_0000_0000_0000_0000
    ensures r.Verified? <==> ChainSpelled(hash, json, records)
    ensures r.Verified? ==>
              r.head == LedgerHead(1, |records|, if records == [] then [] else records[|records| - 1].recordHash)
    ensures r.Rejected? ==> IsRejection(hash, json, records, r.error)
  {
    var prevHash: bytes := [];
    for index := 0 to |records|
      invariant prevHash == PrevHash(records, index)
      invariant forall j :: 0 <= j < index ==> SpelledAt(hash, json, records, j)
    {
      var record := records[index];
      if record.seqNo != index {
        OffendingIsNoChain(hash, json, records, index, SeqGap(index, record.seqNo));
        return Rejected(SeqGap(index, record.seqNo));
      }
      if record.prevHash != prevHash {
        OffendingIsNoChain(hash, json, records, index, PrevMismatch(record.seqNo));
        return Rejected(PrevMismatch(record.seqNo));
      }
      var identity := RecordIdentity(hash, json, record.seqNo, record.kind);
      var recomputed := Link(hash, prevHash, identity);
      RecordSpelledIff(hash, json, index, record.kind, prevHash, record.recordHash);
      if recomputed != record.recordHash {
        OffendingIsNoChain(hash, json, records, index, HashMismatch(record.seqNo));
        return Rejected(HashMismatch(record.seqNo));
      }
      prevHash := record.recordHash;
    }
    return Verified(LedgerHead(SCHEMA_VERSION, |records|, prevHash));
  }

  // ----- verification accepts exactly what appending produces -----

  function Facts<K>(records: seq<LedgerRecord<K>>): (facts: seq<(K, nat)>)
    ensures |facts| == |records|
    ensures forall i :: 0 <= i < |records| ==> facts[i] == (records[i].kind, records[i].appendedAtMs)
  {
    seq(|records|, i requires 0 <= i < |records| => (records[i].kind, records[i].appendedAtMs))
  }

  /** The same record, whatever schema version it carries. */
  ghost predicate SameButVersion<K>(a: LedgerRecord<K>, b: LedgerRecord<K>) {
    && a.seqNo == b.seqNo && a.kind == b.kind && a.recordHash == b.recordHash
    && a.prevHash == b.prevHash && a.appendedAtMs == b.appendedAtMs
  }

  ghost predicate SameButSchema<K>(a: seq<LedgerRecord<K>>, b: seq<LedgerRecord<K>>) {
    |a| == |b| && forall i :: 0 <= i < |a| ==> SameButVersion(a[i], b[i])
  }

  lemma {:induction false} AppendedIsChain<K>(hash: Hash, json: Json<K>, facts: seq<(K, nat)>)
    requires |facts| <= 0x1_0000_0000_0000_0000
    ensures IsChain(hash, json, Appended(hash, json, facts).0)
    ensures Appended(hash, json, facts).1 ==
            LedgerHead(SCHEMA_VERSION, |facts|, PrevHash(Appended(hash, json, facts).0, |facts|))
  {
    if facts != [] {
      AppendedIsChain(hash, json, facts[..|facts| - 1]);
      var records, front := Appended(hash, json, facts).0, Appended(hash, json, facts[..|facts| - 1]).0;
      forall i | 0 <= i < |records| ensures Linked(hash, json, records, i) {
        if i < |front| {
          assert Linked(hash, json, front, i);
        }
      }
    }
  }

  /** Whatever is appended from the empty head is accepted, with the head that was reached. */
  lemma AppendedIsAccepted<K>(hash: Hash, json: Json<K>, facts: seq<(K, nat)>)
    requires |facts| <= 0x1_0000_0000_0000_0000
    ensures ChainSpelled(hash, json, Appended(hash, json, facts).0)
    ensures
      var (records, head) := Appended(hash, json, facts);
      head == LedgerHead(1, |facts|, if records == [] then [] else records[|records| - 1].recordHash)
  {
    AppendedIsChain(hash, json, facts);
    ChainIff(hash, json, Appended(hash, json, facts).0);
  }

  lemma ChainFront<K>(hash: Hash, json: Json<K>, records: seq<LedgerRecord<K>>)
    requires records != [] && IsChain(hash, json, records)
    ensures IsChain(hash, json, records[..|records| - 1])
    ensures PrevHash(records, |records| - 1) == PrevHash(records[..|records| - 1], |records| - 1)
  {
    var front := records[..|records| - 1];
    forall i | 0 <= i < |front| ensures Linked(hash, json, front, i) {
      assert Linked(hash, json, records, i);
    }
  }

  /** The last record of a chain is what appending its fact to the head of the rest produces. */
  lemma ChainLast<K>(hash: Hash, json: Json<K>, records: seq<LedgerRecord<K>>, head: LedgerHead)
    requires records != [] && |records| <= 0x1_0000_0000_0000_0000 && IsChain(hash, json, records)
    requires head == LedgerHead(SCHEMA_VERSION, |records| - 1, PrevHash(records, |records| - 1))
    ensures var last := records[|records| - 1];
            SameButVersion(last, AppendRecord(hash, json, head, last.kind, last.appendedAtMs).0)
  {
    assert Linked(hash, json, records, |records| - 1);
  }

  lemma AppendedSnoc<K>(hash: Hash, json: Json<K>, facts: seq<(K, nat)>, kind: K, appendedAtMs: nat)
    requires |facts| < 0x1_0000_0000_0000_0000
    ensures var r, last := Appended(hash, json, facts),
                AppendRecord(hash, json, Appended(hash, json, facts).1, kind, appendedAtMs);
            Appended(hash, json, facts + [(kind, appendedAtMs)]) == (r.0 + [last.0], last.1)
  {
    assert (facts + [(kind, appendedAtMs)])[..|facts|] == facts;
  }

  lemma {:induction false} ChainIsAppended<K>(hash: Hash, json: Json<K>, records: seq<LedgerRecord<K>>)
    requires |records| <= 0x1_0000_0000_0000_0000 && IsChain(hash, json, records)
    ensures SameButSchema(records, Appended(hash, json, Facts(records)).0)
  {
    if records != [] {
      var front, last := records[..|records| - 1], records[|records| - 1];
      assert records == front + [last];
      ChainFront(hash, json, records);
      ChainIsAppended(hash, json, front);
      ChainIsAppendedStep(hash, json, front, last);
    }
  }

  lemma FactsSnoc<K>(front: seq<LedgerRecord<K>>, last: LedgerRecord<K>)
    ensures Facts(front + [last]) == Facts(front) + [(last.kind, last.appendedAtMs)]
  {
  }

  lemma ChainIsAppendedStep<K>(hash: Hash, json: Json<K>, front: seq<LedgerRecord<K>>, last: LedgerRecord<K>)
    requires |front| < 0x1_0000_0000_0000_0000 && IsChain(hash, json, front + [last])
    requires SameButSchema(front, Appended(hash, json, Facts(front)).0)
    ensures SameButSchema(front + [last], Appended(hash, json, Facts(front + [last])).0)
  {
    var produced, head := Appended(hash, json, Facts(front)).0, Appended(hash, json, Facts(front)).1;
    AppendedHead(hash, json, front, last);
    ChainLast(hash, json, front + [last], head);
    FactsSnoc(front, last);
    AppendedSnoc(hash, json, Facts(front), last.kind, last.appendedAtMs);
    SameButSchemaSnoc(front, produced, last, AppendRecord(hash, json, head, last.kind, last.appendedAtMs).0);
  }

  /** The head the appends reach is the one the chain's last record points back to. */
  lemma AppendedHead<K>(hash: Hash, json: Json<K>, front: seq<LedgerRecord<K>>, last: LedgerRecord<K>)
    requires |front| < 0x1_0000_0000_0000_0000
    requires SameButSchema(front, Appended(hash, json, Facts(front)).0)
    ensures Appended(hash, json, Facts(front)).1
         == LedgerHead(SCHEMA_VERSION, |front|, PrevHash(front + [last], |front|))
  {
    AppendedIsChain(hash, json, Facts(front));
    var produced := Appended(hash, json, Facts(front)).0;
    if front != [] {
      assert SameButVersion(front[|front| - 1], produced[|front| - 1]);
    }
  }

  lemma SameButSchemaSnoc<K>(a: seq<LedgerRecord<K>>, b: seq<LedgerRecord<K>>, x: LedgerRecord<K>, y: LedgerRecord<K>)
    requires SameButSchema(a, b) && SameButVersion(x, y)
    ensures SameButSchema(a + [x], b + [y])
  {
  }

  /** A slice is a chain exactly when it is, schema versions aside, what some run of appends from the
      empty head produced; the facts of that run are the slice's own. */
  lemma ChainIffAppended<K>(hash: Hash, json: Json<K>, records: seq<LedgerRecord<K>>)
    requires |records| <= 0x1_0000_0000_0000_0000
    ensures ChainSpelled(hash, json, records) <==>
            exists facts: seq<(K, nat)> :: |facts| == |records| && SameButSchema(records, Appended(hash, json, facts).0)
  {
    ChainIff(hash, json, records);
    if IsChain(hash, json, records) {
      ChainIsAppended(hash, json, records);
      assert |Facts(records)| == |records|;
    }
    if facts: seq<(K, nat)> :| |facts| == |records| && SameButSchema(records, Appended(hash, json, facts).0) {
      AppendedIsChain(hash, json, facts);
      var produced := Appended(hash, json, facts).0;
      forall i | 0 <= i < |records| ensures Linked(hash, json, records, i) {
        assert Linked(hash, json, produced, i);
        assert SameButVersion(records[i], produced[i]);
        assert i > 0 ==> SameButVersion(records[i - 1], produced[i - 1]);
      }
    }
  }

  // ----- the head commits to the log -----

  function Identities<K>(hash: Hash, json: Json<K>, records: seq<LedgerRecord<K>>): (ids: seq<Identity>)
    ensures |ids| == |records|
    ensures forall i :: 0 <= i < |records| ==> ids[i] == RecordIdentity(hash, json, records[i].seqNo, records[i].kind)
  {
    seq(|records|, i requires 0 <= i < |records| => RecordIdentity(hash, json, records[i].seqNo, records[i].kind))
  }

  lemma {:induction false} HeadIsChainHead<K>(hash: Hash, json: Json<K>, records: seq<LedgerRecord<K>>)
    requires IsChain(hash, json, records)
    ensures PrevHash(records, |records|) == ChainHead(hash, Identities(hash, json, records))
  {
    if records != [] {
      var n := |records| - 1;
      var front := records[..n];
      ChainFront(hash, json, records);
      HeadIsChainHead(hash, json, front);
      assert Identities(hash, json, records)[..n] == Identities(hash, json, front);
      assert Linked(hash, json, records, n);
    }
  }

  /** Two accepted slices with the same head hash have the same length and the same facts in the same
      order, or two distinct inputs with the same digest are at hand. */
  lemma HeadCommits<K(!new)>(hash: Hash, json: Json<K>, a: seq<LedgerRecord<K>>, b: seq<LedgerRecord<K>>)
    returns (x: bytes, y: bytes)
    requires Injective(json) && ChainSpelled(hash, json, a) && ChainSpelled(hash, json, b)
    requires PrevHash(a, |a|) == PrevHash(b, |b|)
    ensures (|a| == |b| && forall i :: 0 <= i < |a| ==> a[i].kind == b[i].kind) || Collision(hash, x, y)
  {
    ChainIff(hash, json, a);
    ChainIff(hash, json, b);
    HeadIsChainHead(hash, json, a);
    HeadIsChainHead(hash, json, b);
    x, y := ChainCommits(hash, Identities(hash, json, a), Identities(hash, json, b));
    if !Collision(hash, x, y) {
      var i := 0;
      while i < |a|
        invariant 0 <= i <= |a| == |b|
        invariant forall j :: 0 <= j < i ==> a[j].kind == b[j].kind
        invariant Identities(hash, json, a) == Identities(hash, json, b)
      {
        assert Identities(hash, json, a)[i] == Identities(hash, json, b)[i];
        x, y := RecordIdentityCommits(hash, json, a[i].seqNo, a[i].kind, b[i].seqNo, b[i].kind);
        if Collision(hash, x, y) {
          return;
        }
        i := i + 1;
      }
    }
  }
}
