/** Snapshots: no stale snapshot after a mutation returns, and none older than the time to live. */
module ProviderSnapshot {
  import opened Common
  import opened Provider

  predicate HoldsWriteLock(pc: Pc) {
    pc.InSnapshot? && (pc.snap.Locked? || pc.snap.Scanning? || pc.snap.Scanned? || pc.snap.Bumped?)
  }

  predicate HasResult(pc: Pc) {
    pc.Registering? || pc.Spawning? || pc.SnapshotReturned?
  }

  /** The scan began no earlier than the last time an invalidation dropped the cached snapshot. */
  predicate ScannedSinceCleared(s: State, snapshot: Snapshot) {
    s.lastCleared <= snapshot.scanBegan < |s.past| && snapshot.scanClock <= s.clock
  }

  predicate SnapshotPcOk(s: State, pc: SnapshotPc) {
    match pc
    case Entered => true
    case Timed(now) => now <= s.clock
    case Missed(now) => now <= s.clock
    case Locked(now) => now <= s.clock
    case Scanning(now, scanBegan, scanClock) =>
      now <= scanClock && ScannedSinceCleared(s, Snapshot(scanBegan, scanClock, []))
    case _ => pc.now <= pc.snapshot.scanClock && ScannedSinceCleared(s, pc.snapshot)
  }

  predicate PcOk(ttl: nat, s: State, pc: Pc) {
    && (pc.InSnapshot? ==> SnapshotPcOk(s, pc.snap))
    && (HasResult(pc) ==> pc.now <= pc.snapshot.scanClock + ttl && pc.snapshot.scanBegan < |s.past|)
    && (pc.InMutation? ==>
          && pc.lastEdit < |s.past|
          && (pc.mutation.Bumping? || pc.mutation.Cancelling? ==> pc.lastEdit <= s.lastCleared))
    && (pc.MutationReturned? ==> pc.lastEdit <= s.lastCleared && pc.returnedAt < |s.past|)
  }

  /** The mutation returned before the snapshot call began, yet the snapshot's scan began before the last edit. */
  predicate ReadsBehind(mutation: Thread, reader: Thread) {
    && mutation.pc.MutationReturned? && HasResult(reader.pc)
    && mutation.pc.returnedAt < reader.began
    && reader.pc.snapshot.scanBegan < mutation.pc.lastEdit
  }

  predicate SlotOk(s: State) {
    && s.lastCleared < |s.past|
    && (s.snapshot.Some? ==>
          ScannedSinceCleared(s, s.snapshot.value.snapshot)
          && s.snapshot.value.createdAt <= s.snapshot.value.snapshot.scanClock)
  }

  predicate ThreadOk(ttl: nat, s: State, t: Tid)
    requires t in s.threads
  {
    && PcOk(ttl, s, s.threads[t].pc)
    && s.threads[t].began < |s.past|
    && (HoldsWriteLock(s.threads[t].pc) ==> s.snapshotWriter == Some(t))
  }

  ghost predicate SnapshotInv(ttl: nat, s: State) {
    && SlotOk(s)
    && (forall t :: t in s.threads ==> ThreadOk(ttl, s, t))
    && (forall m, r :: m in s.threads && r in s.threads ==> !ReadsBehind(s.threads[m], s.threads[r]))
  }

  /** What a step establishes about the one thread t it moves. */
  predicate Moved(ttl: nat, s: State, s': State, t: Tid) {
    && t in s'.threads && ThreadOk(ttl, s', t)
    && var pc := s'.threads[t].pc;
       // a thread that has just got its snapshot got one scanned since the last clearing
       && (HasResult(pc) && !(t in s.threads && HasResult(s.threads[t].pc)) ==>
             s'.lastCleared == s.lastCleared && s.lastCleared <= pc.snapshot.scanBegan)
       && (HasResult(pc) && t in s.threads && HasResult(s.threads[t].pc) ==>
             pc.snapshot == s.threads[t].pc.snapshot && s'.threads[t].began == s.threads[t].began)
       // a mutation that has just returned returned only now
       && (pc.MutationReturned? ==> pc.returnedAt == |s.past|)
  }

  /** The frame of a step of t: the other threads are as before, or are warmers just spawned. */
  ghost predicate OthersKept(s: State, s': State, t: Tid) {
    && (forall u :: u in s'.threads && u != t ==>
         if u in s.threads then s'.threads[u] == s.threads[u]
         else s'.threads[u].pc.InWarmer? && s'.threads[u].began <= |s.past|)
    && |s'.past| == |s.past| + 1 && s.clock <= s'.clock
    && (s'.lastCleared == s.lastCleared || (s'.lastCleared == |s.past| && s.snapshotWriter.None?))
    && (s'.snapshotWriter == s.snapshotWriter
        || (s.snapshotWriter.None? && s'.snapshotWriter == Some(t))
        || (s.snapshotWriter == Some(t) && s'.snapshotWriter == None))
  }

  lemma InvKept(ttl: nat, s: State, s': State, t: Tid)
    requires SnapshotInv(ttl, s) && OthersKept(s, s', t) && Moved(ttl, s, s', t) && SlotOk(s')
    ensures SnapshotInv(ttl, s')
  {
    forall u | u in s'.threads ensures ThreadOk(ttl, s', u) {
      if u in s.threads {
        assert ThreadOk(ttl, s, u);
      }
    }
    forall m, r | m in s'.threads && r in s'.threads
      ensures !ReadsBehind(s'.threads[m], s'.threads[r])
    {
      if m in s.threads && r in s.threads {
        assert !ReadsBehind(s.threads[m], s.threads[r]);
        assert ThreadOk(ttl, s, m);
      }
    }
  }

  lemma SnapshotStepFrame(ttl: nat, s: State, t: Tid, pc: SnapshotPc, choice: Choice, s': State)
    requires t in s.threads && ThreadOk(ttl, s, t) && s.threads[t].pc == InSnapshot(pc)
    requires StepSnapshot(ttl, s, t, pc, choice) == Some(s')
    ensures OthersKept(s, s', t)
  {
  }

  lemma EnteredMoves(ttl: nat, s: State, t: Tid, pc: SnapshotPc, choice: Choice, s': State)
    requires t in s.threads && ThreadOk(ttl, s, t) && SlotOk(s) && s.threads[t].pc == InSnapshot(pc)
    requires pc.Entered? || pc.Missed?
    requires StepSnapshot(ttl, s, t, pc, choice) == Some(s')
    ensures Moved(ttl, s, s', t) && SlotOk(s')
  {
  }

  lemma LookupMoves(ttl: nat, s: State, t: Tid, pc: SnapshotPc, choice: Choice, s': State)
    requires t in s.threads && ThreadOk(ttl, s, t) && SlotOk(s) && s.threads[t].pc == InSnapshot(pc)
    requires pc.Timed?
    requires StepSnapshot(ttl, s, t, pc, choice) == Some(s')
    ensures Moved(ttl, s, s', t) && SlotOk(s')
  {
  }

  lemma LockedMoves(ttl: nat, s: State, t: Tid, pc: SnapshotPc, choice: Choice, s': State)
    requires t in s.threads && ThreadOk(ttl, s, t) && SlotOk(s) && s.threads[t].pc == InSnapshot(pc)
    requires pc.Locked?
    requires StepSnapshot(ttl, s, t, pc, choice) == Some(s')
    ensures Moved(ttl, s, s', t) && SlotOk(s')
  {
  }

  lemma ScanMoves(ttl: nat, s: State, t: Tid, pc: SnapshotPc, choice: Choice, s': State)
    requires t in s.threads && ThreadOk(ttl, s, t) && SlotOk(s) && s.threads[t].pc == InSnapshot(pc)
    requires pc.Scanning?
    requires StepSnapshot(ttl, s, t, pc, choice) == Some(s')
    ensures Moved(ttl, s, s', t) && SlotOk(s')
  {
  }

  lemma ScannedMoves(ttl: nat, s: State, t: Tid, pc: SnapshotPc, choice: Choice, s': State)
    requires t in s.threads && ThreadOk(ttl, s, t) && SlotOk(s) && s.threads[t].pc == InSnapshot(pc)
    requires pc.Scanned? || pc.Bumped?
    requires StepSnapshot(ttl, s, t, pc, choice) == Some(s')
    ensures Moved(ttl, s, s', t) && SlotOk(s')
  {
  }

  lemma SnapshotStepMoves(ttl: nat, s: State, t: Tid, pc: SnapshotPc, choice: Choice, s': State)
    requires t in s.threads && ThreadOk(ttl, s, t) && SlotOk(s) && s.threads[t].pc == InSnapshot(pc)
    requires StepSnapshot(ttl, s, t, pc, choice) == Some(s')
    ensures Moved(ttl, s, s', t) && SlotOk(s')
  {
    match pc
    case Timed(_) => LookupMoves(ttl, s, t, pc, choice, s');
    case Locked(_) => LockedMoves(ttl, s, t, pc, choice, s');
    case Scanning(_, _, _) => ScanMoves(ttl, s, t, pc, choice, s');
    case Scanned(_, _) => ScannedMoves(ttl, s, t, pc, choice, s');
    case Bumped(_, _, _) => ScannedMoves(ttl, s, t, pc, choice, s');
    case _ => EnteredMoves(ttl, s, t, pc, choice, s');
  }

  lemma RegisterStep(ttl: nat, s: State, t: Tid, now: nat, snapshot: Snapshot, generation: nat, s': State)
    requires t in s.threads && ThreadOk(ttl, s, t) && SlotOk(s)
    requires s.threads[t].pc == Registering(now, snapshot, generation)
    requires StepRegister(s, t, now, snapshot, generation) == s'
    ensures OthersKept(s, s', t) && Moved(ttl, s, s', t) && SlotOk(s')
  {
  }

  lemma SpawnStep(ttl: nat, s: State, t: Tid, now: nat, snapshot: Snapshot, generation: nat, token: Token,
      choice: Choice, s': State)
    requires t in s.threads && ThreadOk(ttl, s, t) && SlotOk(s)
    requires s.threads[t].pc == Spawning(now, snapshot, generation, token)
    requires StepSpawn(s, t, now, snapshot, generation, token, choice) == Some(s')
    ensures OthersKept(s, s', t) && Moved(ttl, s, s', t) && SlotOk(s')
  {
  }

  lemma MutationStep(ttl: nat, s: State, t: Tid, lastEdit: nat, pc: MutationPc, choice: Choice, s': State)
    requires t in s.threads && ThreadOk(ttl, s, t) && SlotOk(s) && s.threads[t].pc == InMutation(lastEdit, pc)
    requires StepMutation(s, t, lastEdit, pc, choice) == Some(s')
    ensures OthersKept(s, s', t) && Moved(ttl, s, s', t) && SlotOk(s')
  {
  }

  lemma SymbolsStepFrame(ttl: nat, s: State, t: Tid, call: Lookup, pc: SymbolsPc, choice: Choice, s': State)
    requires t in s.threads && ThreadOk(ttl, s, t) && s.threads[t].pc == InSymbols(call, pc)
    requires StepSymbols(s, t, call, pc, choice) == Some(s')
    ensures OthersKept(s, s', t)
  {
  }

  lemma SymbolsStepMoves(ttl: nat, s: State, t: Tid, call: Lookup, pc: SymbolsPc, choice: Choice, s': State)
    requires t in s.threads && ThreadOk(ttl, s, t) && SlotOk(s) && s.threads[t].pc == InSymbols(call, pc)
    requires StepSymbols(s, t, call, pc, choice) == Some(s')
    ensures Moved(ttl, s, s', t) && SlotOk(s')
  {
  }

  lemma WarmerStep(ttl: nat, s: State, t: Tid, choice: Choice, s': State)
    requires t in s.threads && ThreadOk(ttl, s, t) && SlotOk(s)
    requires StepWarmer(s, t, choice) == Some(s')
    ensures OthersKept(s, s', t) && Moved(ttl, s, s', t) && SlotOk(s')
  {
  }

  /** Edits from outside and the clock. */
  lemma WorldStep(ttl: nat, s: State, s': State)
    requires SnapshotInv(ttl, s)
    requires s' == s.(past := s'.past, clock := s'.clock) && |s'.past| == |s.past| + 1 && s.clock <= s'.clock
    ensures SnapshotInv(ttl, s')
  {
    forall t | t in s'.threads ensures ThreadOk(ttl, s', t) {
      assert ThreadOk(ttl, s, t);
    }
    forall m, r | m in s'.threads && r in s'.threads
      ensures !ReadsBehind(s'.threads[m], s'.threads[r])
    {
      assert !ReadsBehind(s.threads[m], s.threads[r]);
    }
  }

  lemma AnyStep(ttl: nat, s: State, a: Action)
    requires SnapshotInv(ttl, s) && Step(ttl, s, a).Some?
    ensures SnapshotInv(ttl, Step(ttl, s, a).value)
  {
    var s' := Step(ttl, s, a).value;
    match a
    case Invoke(t, op) => InvKept(ttl, s, s', t);
    case Advance(t, choice) =>
      assert ThreadOk(ttl, s, t);
      match s.threads[t].pc {
        case InSnapshot(pc) =>
          SnapshotStepFrame(ttl, s, t, pc, choice, s');
          SnapshotStepMoves(ttl, s, t, pc, choice, s');
        case Registering(now, snapshot, generation) => RegisterStep(ttl, s, t, now, snapshot, generation, s');
        case Spawning(now, snapshot, generation, token) =>
          SpawnStep(ttl, s, t, now, snapshot, generation, token, choice, s');
        case InMutation(lastEdit, pc) => MutationStep(ttl, s, t, lastEdit, pc, choice, s');
        case InSymbols(call, pc) =>
          SymbolsStepFrame(ttl, s, t, call, pc, choice, s');
          SymbolsStepMoves(ttl, s, t, call, pc, choice, s');
        case _ => WarmerStep(ttl, s, t, choice, s');
      }
      InvKept(ttl, s, s', t);
    case _ => WorldStep(ttl, s, s');
  }

  lemma {:induction false} AlwaysSnapshotInv(ttl: nat, files: Files, actions: seq<Action>)
    ensures Run(ttl, files, actions).Some? ==> SnapshotInv(ttl, Run(ttl, files, actions).value)
    decreases |actions|
  {
    if actions != [] {
      var n := |actions| - 1;
      AlwaysSnapshotInv(ttl, files, actions[..n]);
      if Run(ttl, files, actions).Some? {
        AnyStep(ttl, Run(ttl, files, actions[..n]).value, actions[n]);
      }
    }
  }

  /** Read your writes: in every run, a snapshot call that began after a mutation returned gets a
      snapshot whose scan began no earlier than the mutation's last edit. */
  lemma SnapshotsFollowMutations(ttl: nat, files: Files, actions: seq<Action>, mutation: Tid, reader: Tid)
    requires Run(ttl, files, actions).Some?
    requires
      var threads := Run(ttl, files, actions).value.threads;
      mutation in threads && threads[mutation].pc.MutationReturned?
      && reader in threads && threads[reader].pc.SnapshotReturned?
    ensures
      var threads := Run(ttl, files, actions).value.threads;
      threads[mutation].pc.returnedAt < threads[reader].began ==>
        threads[mutation].pc.lastEdit <= threads[reader].pc.snapshot.scanBegan
  {
    AlwaysSnapshotInv(ttl, files, actions);
    var threads := Run(ttl, files, actions).value.threads;
    assert !ReadsBehind(threads[mutation], threads[reader]);
  }

  /** Bounded staleness: the scan behind a returned snapshot began at most the time to live before
      the clock reading of the call that returned it. */
  lemma SnapshotsWithinTtl(ttl: nat, files: Files, actions: seq<Action>, reader: Tid)
    requires Run(ttl, files, actions).Some?
    requires
      var threads := Run(ttl, files, actions).value.threads;
      reader in threads && threads[reader].pc.SnapshotReturned?
    ensures
      var SnapshotReturned(now, snapshot) := Run(ttl, files, actions).value.threads[reader].pc;
      now <= snapshot.scanClock + ttl
  {
    AlwaysSnapshotInv(ttl, files, actions);
    var s := Run(ttl, files, actions).value;
    assert ThreadOk(ttl, s, reader);
  }

  /** Scans never overlap: at most one thread is between taking the write lock and storing its scan. */
  lemma OneScanAtATime(ttl: nat, files: Files, actions: seq<Action>, t: Tid, u: Tid)
    requires Run(ttl, files, actions).Some?
    requires
      var threads := Run(ttl, files, actions).value.threads;
      t in threads && u in threads && HoldsWriteLock(threads[t].pc) && HoldsWriteLock(threads[u].pc)
    ensures t == u
  {
    AlwaysSnapshotInv(ttl, files, actions);
    var s := Run(ttl, files, actions).value;
    assert ThreadOk(ttl, s, t) && ThreadOk(ttl, s, u);
  }
}
