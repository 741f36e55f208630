/** Sealing a run's event tape into a hash-chained ledger, and verifying a replay against it. */
module Replay {
  import opened Common
  import opened HashChain

  const RUN_SCHEMA_VERSION: nat := 1

  /** What happened is left open. */
  datatype Event<K> = Event(seqNo: u64, kind: K)

  datatype LedgerEntry = LedgerEntry(seqNo: u64, eventHash: Identity, chainedHash: Identity)

  datatype RunInputs = RunInputs(repoSnapshotHash: string, toolchainDigest: string, imageDigest: Option<string>)

  datatype Attestation = Full | Partial

  datatype Run<K> = Run(
    schemaVersion: nat, runId: bytes, sessionId: string, agent: string, root: Option<string>,
    startedAtMs: nat, finishedAtMs: Option<nat>,
    events: seq<Event<K>>, ledger: seq<LedgerEntry>, rootHash: bytes,
    finished: bool, inputs: RunInputs, attestation: Attestation)

  datatype ReplayManifest = ReplayManifest(
    runId: bytes, recordedRootHash: bytes, replayedRootHash: bytes,
    matched: bool, eventCount: nat, divergedAtSeq: Option<u64>)

  function HashEvent<K>(hash: Hash, json: Json<Event<K>>, event: Event<K>): Identity {
    Hex(hash(json(event)))
  }

  function EventIds<K>(hash: Hash, json: Json<Event<K>>, events: seq<Event<K>>): (ids: seq<Identity>)
    ensures |ids| == |events| && forall i :: 0 <= i < |events| ==> ids[i] == HashEvent(hash, json, events[i])
  {
    seq(|events|, i requires 0 <= i < |events| => HashEvent(hash, json, events[i]))
  }

  /** The chained digest after the first n events. */
  function Chained<K>(hash: Hash, json: Json<Event<K>>, events: seq<Event<K>>, n: nat): (h: bytes)
    requires n <= |events|
    ensures |h| == if n == 0 then 0 else 64
  {
    ChainHead(hash, EventIds(hash, json, events)[..n])
  }

  /** The spine of a tape: per event its own digest and the chained one. */
  ghost predicate IsSpine<K>(hash: Hash, json: Json<Event<K>>, events: seq<Event<K>>, ledger: seq<LedgerEntry>) {
    && |ledger| <= |events|
    && forall i :: 0 <= i < |ledger| ==>
         ledger[i] == LedgerEntry(events[i].seqNo, HashEvent(hash, json, events[i]), Chained(hash, json, events, i + 1))
  }

  /** Each entry of the spine spelled out: the hex of the digest of the event's JSON, and the hex of the digest of the
      chained digest of the entry before, if there is one, followed by that.  The root is the last chained digest. */
  ghost predicate SpineSpelled<K>(hash: Hash, json: Json<Event<K>>, events: seq<Event<K>>, ledger: seq<LedgerEntry>,
                                  root: bytes)
  {
    && |ledger| == |events| && root == PrevChained(ledger, |ledger|)
    && forall i :: 0 <= i < |ledger| ==> EntrySpelled(hash, json, events[i], PrevChained(ledger, i), ledger[i])
  }

  function PrevChained(ledger: seq<LedgerEntry>, i: nat): bytes
    requires i <= |ledger|
  {
    if i == 0 then [] else ledger[i - 1].chainedHash
  }

  predicate EntrySpelled<K>(hash: Hash, json: Json<Event<K>>, event: Event<K>, prev: bytes, entry: LedgerEntry) {
    && entry.seqNo == event.seqNo && IsHexOf(entry.eventHash, hash(json(event)))
    && IsHexOf(entry.chainedHash, hash(prev + entry.eventHash))
  }

  lemma EntrySpelledIff<K>(hash: Hash, json: Json<Event<K>>, event: Event<K>, prev: bytes, entry: LedgerEntry)
    ensures EntrySpelled(hash, json, event, prev, entry) <==>
            entry == LedgerEntry(event.seqNo, HashEvent(hash, json, event),
                                 Link(hash, prev, HashEvent(hash, json, event)))
  {
    HexIff(entry.eventHash, hash(json(event)));
    HexIff(entry.chainedHash, hash(prev + entry.eventHash));
  }

  lemma ChainedStep<K>(hash: Hash, json: Json<Event<K>>, events: seq<Event<K>>, n: nat)
    requires n < |events|
    ensures Chained(hash, json, events, n + 1)
         == Link(hash, Chained(hash, json, events, n), HashEvent(hash, json, events[n]))
  {
    var ids := EventIds(hash, json, events);
    assert ids[..n + 1][..n] == ids[..n];
  }

  lemma {:induction false} PrevIsChained<K>(hash: Hash, json: Json<Event<K>>, events: seq<Event<K>>,
                                            ledger: seq<LedgerEntry>, i: nat)
    requires i <= |ledger| <= |events|
    requires forall k :: 0 <= k < i ==> EntrySpelled(hash, json, events[k], PrevChained(ledger, k), ledger[k])
    ensures PrevChained(ledger, i) == Chained(hash, json, events, i)
  {
    if i > 0 {
      PrevIsChained(hash, json, events, ledger, i - 1);
      EntrySpelledIff(hash, json, events[i - 1], PrevChained(ledger, i - 1), ledger[i - 1]);
      ChainedStep(hash, json, events, i - 1);
    }
  }

  lemma SpelledIsSpine<K>(hash: Hash, json: Json<Event<K>>, events: seq<Event<K>>, ledger: seq<LedgerEntry>,
                          root: bytes)
    requires SpineSpelled(hash, json, events, ledger, root)
    ensures IsSpine(hash, json, events, ledger) && root == Chained(hash, json, events, |events|)
  {
    forall i | 0 <= i < |ledger|
      ensures ledger[i]
           == LedgerEntry(events[i].seqNo, HashEvent(hash, json, events[i]), Chained(hash, json, events, i + 1))
    {
      EntrySpelledIff(hash, json, events[i], PrevChained(ledger, i), ledger[i]);
      PrevIsChained(hash, json, events, ledger, i + 1);
    }
    PrevIsChained(hash, json, events, ledger, |events|);
  }

  lemma ChainedHashIs<K>(hash: Hash, json: Json<Event<K>>, events: seq<Event<K>>, ledger: seq<LedgerEntry>, root: bytes,
                         i: nat)
    requires SpineSpelled(hash, json, events, ledger, root) && i < |events|
    ensures ledger[i].chainedHash == Chained(hash, json, events, i + 1)
  {
    SpelledIsSpine(hash, json, events, ledger, root);
  }

  lemma SpineIsSpelled<K>(hash: Hash, json: Json<Event<K>>, events: seq<Event<K>>, ledger: seq<LedgerEntry>)
    requires |ledger| == |events| && IsSpine(hash, json, events, ledger)
    ensures SpineSpelled(hash, json, events, ledger, Chained(hash, json, events, |events|))
  {
    forall i | 0 <= i < |ledger| ensures EntrySpelled(hash, json, events[i], PrevChained(ledger, i), ledger[i]) {
      ChainedStep(hash, json, events, i);
      EntrySpelledIff(hash, json, events[i], PrevChained(ledger, i), ledger[i]);
    }
  }

  method BuildLedger<K>(hash: Hash, json: Json<Event<K>>, events: seq<Event<K>>)
    returns (ledger: seq<LedgerEntry>, rootHash: bytes)
    ensures SpineSpelled(hash, json, events, ledger, rootHash)
    ensures |ledger| == |events| && IsSpine(hash, json, events, ledger)
    ensures rootHash == Chained(hash, json, events, |events|)
  {
    ledger := [];
    var prev: bytes := [];
    for i := 0 to |events|
      invariant |ledger| == i && IsSpine(hash, json, events, ledger)
      invariant prev == Chained(hash, json, events, i)
    {
      var eventHash := HashEvent(hash, json, events[i]);
      var chainedHash := Link(hash, prev, eventHash);
      ChainedStep(hash, json, events, i);
      ledger := ledger + [LedgerEntry(events[i].seqNo, eventHash, chainedHash)];
      prev := chainedHash;
    }
    SpineIsSpelled(hash, json, events, ledger);
    return ledger, prev;
  }

  /** A run whose ledger and root are those of the given tape, whatever its own events are now. */
  ghost predicate SealedOver<K>(hash: Hash, json: Json<Event<K>>, run: Run<K>, events: seq<Event<K>>) {
    SpineSpelled(hash, json, events, run.ledger, run.rootHash)
  }

  /** The seal and the identity of a run depend on its events alone. */
  method BuildRunAttested<K>(hash: Hash, json: Json<Event<K>>, sessionId: string, agent: string, root: Option<string>,
                             startedAtMs: nat, finishedAtMs: Option<nat>, finished: bool,
                             events: seq<Event<K>>, inputs: RunInputs, attestation: Attestation) returns (run: Run<K>)
    ensures run.events == events && SealedOver(hash, json, run, events) && run.runId == run.rootHash
    ensures run == Run(RUN_SCHEMA_VERSION, run.rootHash, sessionId, agent, root, startedAtMs, finishedAtMs,
                       events, run.ledger, run.rootHash, finished, inputs, attestation)
  {
    var ledger, rootHash := BuildLedger(hash, json, events);
    return Run(RUN_SCHEMA_VERSION, rootHash, sessionId, agent, root, startedAtMs, finishedAtMs,
               events, ledger, rootHash, finished, inputs, attestation);
  }

  /** Where two ledgers first have different chained digests, from i on. */
  function FirstDivergence(replayed: seq<LedgerEntry>, recorded: seq<LedgerEntry>, i: nat): (r: Option<nat>)
    ensures r.Some? ==> i <= r.value < |replayed| && r.value < |recorded|
                        && replayed[r.value].chainedHash != recorded[r.value].chainedHash
    ensures forall j :: i <= j < |replayed| && j < |recorded| && (r.None? || j < r.value) ==>
              replayed[j].chainedHash == recorded[j].chainedHash
    decreases |replayed| - i
  {
    if i >= |replayed| || i >= |recorded| then None
    else if replayed[i].chainedHash != recorded[i].chainedHash then Some(i)
    else FirstDivergence(replayed, recorded, i + 1)
  }

  /** The re-derived chained digest after event j is not the recorded one. */
  predicate DiffersAt<K>(run: Run<K>, spine: seq<LedgerEntry>, j: nat) {
    j < |spine| && j < |run.ledger| && spine[j].chainedHash != run.ledger[j].chainedHash
  }

  ghost predicate FirstDiffers<K>(run: Run<K>, spine: seq<LedgerEntry>, i: nat) {
    DiffersAt(run, spine, i) && forall j: nat :: j < i ==> !DiffersAt(run, spine, j)
  }

  /** The verdict: matched means equal roots; otherwise the event pointed at is the first whose chained
      digest differs from the recorded one, or failing that the first. */
  ghost predicate IsVerdict<K>(run: Run<K>, spine: seq<LedgerEntry>, m: ReplayManifest)
    requires |spine| == |run.events|
  {
    && m.runId == run.runId && m.recordedRootHash == run.rootHash && m.eventCount == |run.events|
    && (m.matched <==> m.replayedRootHash == run.rootHash)
    && (m.matched || run.events == [] ==> m.divergedAtSeq == None)
    && (!m.matched && run.events != [] ==>
          || (exists i: nat :: FirstDiffers(run, spine, i) && m.divergedAtSeq == Some(run.events[i].seqNo))
          || ((forall j: nat :: !DiffersAt(run, spine, j)) && m.divergedAtSeq == Some(run.events[0].seqNo)))
  }

  /** The manifest is the verdict over the spine of the run's events. */
  ghost predicate IsManifest<K>(hash: Hash, json: Json<Event<K>>, run: Run<K>, m: ReplayManifest) {
    exists spine :: SpineSpelled(hash, json, run.events, spine, m.replayedRootHash) && IsVerdict(run, spine, m)
  }

  lemma DivergenceIsFirst<K>(run: Run<K>, spine: seq<LedgerEntry>)
    ensures match FirstDivergence(spine, run.ledger, 0)
            case Some(i) => FirstDiffers(run, spine, i)
            case None => forall j: nat :: !DiffersAt(run, spine, j)
  {
  }

  lemma SpellsVerdict<K>(hash: Hash, json: Json<Event<K>>, run: Run<K>, spine: seq<LedgerEntry>, m: ReplayManifest)
    requires SpineSpelled(hash, json, run.events, spine, m.replayedRootHash)
    requires
      var i := FirstDivergence(spine, run.ledger, 0);
      m == ReplayManifest(run.runId, run.rootHash, m.replayedRootHash, m.replayedRootHash == run.rootHash, |run.events|,
                          if m.matched then None
                          else if i.Some? then Some(spine[i.value].seqNo)
                          else if run.events != [] then Some(run.events[0].seqNo)
                          else None)
    ensures IsManifest(hash, json, run, m)
  {
    var i := FirstDivergence(spine, run.ledger, 0);
    DivergenceIsFirst(run, spine);
    if i.Some? {
      assert EntrySpelled(hash, json, run.events[i.value], PrevChained(spine, i.value), spine[i.value]);
    }
    assert IsVerdict(run, spine, m);
  }

  method VerifyReplay<K>(hash: Hash, json: Json<Event<K>>, run: Run<K>) returns (m: ReplayManifest)
    ensures IsManifest(hash, json, run, m)
  {
    var ledger, replayedRootHash := BuildLedger(hash, json, run.events);
    var matched := replayedRootHash == run.rootHash;
    var divergedAtSeq: Option<u64> := None;
    if !matched {
      var i := FirstDivergence(ledger, run.ledger, 0);
      if i.Some? {
        divergedAtSeq := Some(ledger[i.value].seqNo);
      } else if run.events != [] {
        divergedAtSeq := Some(run.events[0].seqNo);
      }
    }
    m := ReplayManifest(run.runId, run.rootHash, replayedRootHash, matched, |run.events|, divergedAtSeq);
    SpellsVerdict(hash, json, run, ledger, m);
  }

  // ----- tampering -----

  ghost predicate FirstAltered<K>(events: seq<Event<K>>, altered: seq<Event<K>>, k: nat) {
    k < |events| == |altered| && events[..k] == altered[..k] && events[k] != altered[k]
  }

  /** The chained digest commits to the events before it, up to an explicit collision. */
  lemma ChainedCommits<K(!new)>(hash: Hash, json: Json<Event<K>>, events: seq<Event<K>>, altered: seq<Event<K>>, n: nat,
      k: nat)
    returns (x: bytes, y: bytes)
    requires Injective(json) && FirstAltered(events, altered, k) && k < n <= |events|
    requires Chained(hash, json, events, n) == Chained(hash, json, altered, n)
    ensures Collision(hash, x, y)
  {
    var ids, ids' := EventIds(hash, json, events)[..n], EventIds(hash, json, altered)[..n];
    x, y := ChainCommits(hash, ids, ids');
    if !Collision(hash, x, y) {
      assert ids[k] == ids'[k];
      x, y := json(events[k]), json(altered[k]);
      SameHexDigest(hash, x, y);
    }
  }

  lemma ChainedSamePrefix<K>(hash: Hash, json: Json<Event<K>>, events: seq<Event<K>>, altered: seq<Event<K>>, n: nat)
    requires n <= |events| && n <= |altered| && events[..n] == altered[..n]
    ensures Chained(hash, json, events, n) == Chained(hash, json, altered, n)
  {
    var ids, ids' := EventIds(hash, json, events)[..n], EventIds(hash, json, altered)[..n];
    forall i | 0 <= i < n ensures ids[i] == ids'[i] {
      assert events[..n][i] == altered[..n][i];
    }
    assert ids == ids';
  }

  lemma SameBefore<K>(hash: Hash, json: Json<Event<K>>, events: seq<Event<K>>, altered: seq<Event<K>>, k: nat, i: nat)
    requires FirstAltered(events, altered, k) && i < k
    ensures Chained(hash, json, events, i + 1) == Chained(hash, json, altered, i + 1)
  {
    assert events[..i + 1] == events[..k][..i + 1];
    assert altered[..i + 1] == altered[..k][..i + 1];
    ChainedSamePrefix(hash, json, events, altered, i + 1);
  }

  /** Up to the first altered event the re-derived digests are the recorded ones; there they differ,
      or a collision is at hand. */
  lemma AlteredDiffers<K(!new)>(hash: Hash, json: Json<Event<K>>, events: seq<Event<K>>, run: Run<K>,
                                spine: seq<LedgerEntry>, root: bytes, k: nat)
    returns (x: bytes, y: bytes)
    requires Injective(json) && SealedOver(hash, json, run, events)
    requires SpineSpelled(hash, json, run.events, spine, root)
    requires FirstAltered(events, run.events, k)
    ensures FirstDiffers(run, spine, k) || Collision(hash, x, y)
  {
    forall i: nat | i < k ensures !DiffersAt(run, spine, i) {
      ChainedHashIs(hash, json, events, run.ledger, run.rootHash, i);
      ChainedHashIs(hash, json, run.events, spine, root, i);
      SameBefore(hash, json, events, run.events, k, i);
    }
    x, y := AlteredShows(hash, json, events, run, spine, root, k);
  }

  lemma AlteredShows<K(!new)>(hash: Hash, json: Json<Event<K>>, events: seq<Event<K>>, run: Run<K>,
                              spine: seq<LedgerEntry>, root: bytes, k: nat)
    returns (x: bytes, y: bytes)
    requires Injective(json) && SealedOver(hash, json, run, events)
    requires SpineSpelled(hash, json, run.events, spine, root)
    requires FirstAltered(events, run.events, k)
    ensures DiffersAt(run, spine, k) || Collision(hash, x, y)
  {
    x, y := [], [];
    ChainedHashIs(hash, json, events, run.ledger, run.rootHash, k);
    ChainedHashIs(hash, json, run.events, spine, root, k);
    if Chained(hash, json, events, k + 1) == Chained(hash, json, run.events, k + 1) {
      x, y := ChainedCommits(hash, json, events, run.events, k + 1, k);
    }
  }

  lemma FirstDiffersUnique<K>(run: Run<K>, spine: seq<LedgerEntry>, i: nat, k: nat)
    requires FirstDiffers(run, spine, i) && FirstDiffers(run, spine, k)
    ensures i == k
  {
  }

  /** A run sealed over one tape and then given another of the same length: the replay fails and
      points at the first altered event, or a collision is at hand. */
  lemma TamperingDetected<K(!new)>(hash: Hash, json: Json<Event<K>>, events: seq<Event<K>>, run: Run<K>,
                                   m: ReplayManifest, k: nat)
    returns (x: bytes, y: bytes)
    requires Injective(json) && SealedOver(hash, json, run, events) && IsManifest(hash, json, run, m)
    requires FirstAltered(events, run.events, k)
    ensures (!m.matched && m.divergedAtSeq == Some(run.events[k].seqNo)) || Collision(hash, x, y)
  {
    var spine :| SpineSpelled(hash, json, run.events, spine, m.replayedRootHash) && IsVerdict(run, spine, m);
    if m.matched {
      SpelledIsSpine(hash, json, events, run.ledger, run.rootHash);
      SpelledIsSpine(hash, json, run.events, spine, m.replayedRootHash);
      x, y := ChainedCommits(hash, json, events, run.events, |events|, k);
    } else {
      x, y := AlteredDiffers(hash, json, events, run, spine, m.replayedRootHash, k);
      if !Collision(hash, x, y) {
        assert DiffersAt(run, spine, k);
        var i: nat :| FirstDiffers(run, spine, i) && m.divergedAtSeq == Some(run.events[i].seqNo);
        FirstDiffersUnique(run, spine, i, k);
      }
    }
  }

  /** An unaltered run always matches, and points at nothing. */
  lemma UnalteredMatches<K>(hash: Hash, json: Json<Event<K>>, run: Run<K>, m: ReplayManifest)
    requires SealedOver(hash, json, run, run.events) && IsManifest(hash, json, run, m)
    ensures m.matched && m.divergedAtSeq == None && m.replayedRootHash == m.recordedRootHash
  {
    var spine :| SpineSpelled(hash, json, run.events, spine, m.replayedRootHash) && IsVerdict(run, spine, m);
    SpelledIsSpine(hash, json, run.events, run.ledger, run.rootHash);
    SpelledIsSpine(hash, json, run.events, spine, m.replayedRootHash);
  }
}
