/** A run in which a background warmer inserts after its generation has been invalidated. */
module ProviderStaleWarmer {
  import opened Common
  import opened Provider

  lemma AdvanceSnapshot(ttl: nat, files: Files, p: Path, s: State, t: Tid, pc: SnapshotPc, s': State)
    requires Reachable(ttl, files, s) && t in s.threads && s.threads[t].pc == InSnapshot(pc)
    requires StepSnapshot(ttl, s, t, pc, Go(p)) == Some(s')
    ensures Reachable(ttl, files, s')
  {
    ReachableStep(ttl, files, s, Advance(t, Go(p)), s');
  }

  lemma AdvanceMutation(ttl: nat, files: Files, p: Path, s: State, t: Tid, pc: MutationPc, s': State)
    requires Reachable(ttl, files, s) && t in s.threads && s.threads[t].pc == InMutation(0, pc)
    requires StepMutation(s, t, 0, pc, Go(p)) == Some(s')
    ensures Reachable(ttl, files, s')
  {
    ReachableStep(ttl, files, s, Advance(t, Go(p)), s');
  }

  lemma AdvanceSymbols(ttl: nat, files: Files, p: Path, s: State, t: Tid, call: Lookup, pc: SymbolsPc, s': State)
    requires Reachable(ttl, files, s) && t in s.threads && s.threads[t].pc == InSymbols(call, pc)
    requires StepSymbols(s, t, call, pc, Go(p)) == Some(s')
    ensures Reachable(ttl, files, s')
  {
    ReachableStep(ttl, files, s, Advance(t, Go(p)), s');
  }

  lemma AdvanceWarmer(ttl: nat, files: Files, p: Path, s: State, t: Tid, s': State)
    requires Reachable(ttl, files, s) && t in s.threads && s.threads[t].pc.InWarmer?
    requires StepWarmer(s, t, Go(p)) == Some(s')
    ensures Reachable(ttl, files, s')
  {
    ReachableStep(ttl, files, s, Advance(t, Go(p)), s');
  }

  /** The one source file of the scenario. */
  function Source(p: Path): Entry { Entry(p, true) }

  function Go(p: Path): Choice { Choice(false, None, [Source(p)], 2) }

  /** Nothing is cached, locked or cancelled. */
  ghost predicate Quiet(s: State, files: Files, generation: nat) {
    && Current(s.past) == Moment(files, generation)
    && s.codemap == map[] && s.codemapWriter == None && s.cancelled == {} && s.clock == 0
  }

  /** Thread 1 asks for a snapshot, misses, and takes the write lock. */
  lemma SnapshotMissed(ttl: nat, files: Files, p: Path) returns (s: State)
    ensures Reachable(ttl, files, s) && Quiet(s, files, 0) && s.warming == None && s.nextToken == 0
    ensures s.snapshot == None && s.snapshotWriter == Some(1)
    ensures s.threads.Keys == {1} && s.threads[1].role == Caller && s.threads[1].pc == InSnapshot(Locked(0))
  {
    var s0 := Initial(files);
    assert Run(ttl, files, []) == Some(s0);
    var s1 := StepInvoke(s0, 1, CallSnapshot);
    ReachableStep(ttl, files, s0, Invoke(1, CallSnapshot), s1);
    var s2 := Goto(s1, 1, InSnapshot(Timed(0)));
    AdvanceSnapshot(ttl, files, p, s1, 1, Entered, s2);
    var s3 := Goto(s2, 1, InSnapshot(Missed(0)));
    AdvanceSnapshot(ttl, files, p, s2, 1, Timed(0), s3);
    s := Goto(s3, 1, InSnapshot(Locked(0))).(snapshotWriter := Some(1));
    AdvanceSnapshot(ttl, files, p, s3, 1, Missed(0), s);
  }

  /** It scans, finding the one source file p. */
  lemma SnapshotScanned(ttl: nat, files: Files, p: Path) returns (s: State, snapshot: Snapshot)
    ensures Reachable(ttl, files, s) && Quiet(s, files, 0) && s.warming == None && s.nextToken == 0
    ensures s.threads.Keys == {1} && s.threads[1].role == Caller && s.threads[1].pc == InSnapshot(Scanned(0, snapshot))
    ensures snapshot.entries == [Source(p)]
  {
    var s4 := SnapshotMissed(ttl, files, p);
    var began := Now(s4);
    var s5 := Goto(s4, 1, InSnapshot(Scanning(0, began, 0)));
    AdvanceSnapshot(ttl, files, p, s4, 1, Locked(0), s5);
    snapshot := Snapshot(began, 0, [Source(p)]);
    s := Goto(s5, 1, InSnapshot(Scanned(0, snapshot)));
    AdvanceSnapshot(ttl, files, p, s5, 1, Scanning(0, began, 0), s);
  }

  /** It stores what it found. */
  lemma SnapshotStored(ttl: nat, files: Files, p: Path) returns (s: State, snapshot: Snapshot)
    ensures Reachable(ttl, files, s) && Quiet(s, files, 1)
    ensures s.warming == None && s.nextToken == 0 && s.snapshotWriter == None
    ensures s.threads.Keys == {1} && s.threads[1].role == Caller && s.threads[1].pc == Registering(0, snapshot, 1)
    ensures snapshot.entries == [Source(p)]
  {
    var s6;
    s6, snapshot := SnapshotScanned(ttl, files, p);
    var s7 := BumpAndGoto(s6, 1, InSnapshot(Bumped(0, snapshot, 1)));
    AdvanceSnapshot(ttl, files, p, s6, 1, Scanned(0, snapshot), s7);
    s := Goto(s7, 1, Registering(0, snapshot, 1)).(
         snapshot := Some(CachedSnapshot(0, snapshot)), snapshotWriter := None);
    AdvanceSnapshot(ttl, files, p, s7, 1, Bumped(0, snapshot, 1), s);
  }

  /** It registers a warmer and spawns it as thread 2. */
  lemma WarmerSpawned(ttl: nat, files: Files, p: Path) returns (s: State)
    ensures Reachable(ttl, files, s) && Quiet(s, files, 1) && s.snapshotWriter == None
    ensures s.threads.Keys == {1, 2} && s.threads[2].role == Warmer(1, 0, [Source(p)])
    ensures s.threads[2].pc == InWarmer(Looping)
  {
    var s8, snapshot := SnapshotStored(ttl, files, p);
    assert Source(p) in snapshot.entries;
    var s9 := StepRegister(s8, 1, 0, snapshot, 1);
    ReachableStep(ttl, files, s8, Advance(1, Go(p)), s9);
    s := StepSpawn(s9, 1, 0, snapshot, 1, 0, Go(p)).value;
    ReachableStep(ttl, files, s9, Advance(1, Go(p)), s);
  }

  /** The warmer begins to look p up. */
  lemma WarmerLooksUp(ttl: nat, files: Files, p: Path) returns (s: State)
    ensures Reachable(ttl, files, s) && Quiet(s, files, 1) && s.snapshotWriter == None
    ensures s.threads.Keys == {1, 2} && s.threads[2].role.Warmer? && s.threads[2].role.generation == 1
    ensures s.threads[2].pc.InSymbols? && s.threads[2].pc.sym == Called
    ensures s.threads[2].pc.call.path == p && s.threads[2].pc.call.expected == Some(1)
  {
    var s10 := WarmerSpawned(ttl, files, p);
    var s11 := Goto(s10, 2, InWarmer(NotCancelled));
    AdvanceWarmer(ttl, files, p, s10, 2, s11);
    s := StepWarmer(s11, 2, Go(p)).value;
    AdvanceWarmer(ttl, files, p, s11, 2, s);
  }

  /** The warmer is in its lookup of p, at pc, and nothing else goes on. */
  ghost predicate LookingUp(s: State, files: Files, call: Lookup, pc: SymbolsPc) {
    && Quiet(s, files, 1) && s.snapshotWriter == None
    && s.threads.Keys == {1, 2} && s.threads[2].role.Warmer? && s.threads[2].role.generation == 1
    && s.threads[2].pc == InSymbols(call, pc) && call.expected == Some(1)
  }

  /** One step of that lookup, if it only moves the warmer. */
  lemma LookupStep(ttl: nat, files: Files, p: Path, s: State, call: Lookup, pc: SymbolsPc,
      pc': SymbolsPc) returns (s': State)
    requires Reachable(ttl, files, s) && LookingUp(s, files, call, pc)
    requires StepSymbols(s, 2, call, pc, Go(p)) == Some(Goto(s, 2, InSymbols(call, pc')))
    ensures Reachable(ttl, files, s') && LookingUp(s', files, call, pc')
  {
    s' := Goto(s, 2, InSymbols(call, pc'));
    AdvanceSymbols(ttl, files, p, s, 2, call, pc, s');
  }

  /** It takes the signature, misses, and reads and parses the file. */
  lemma WarmerParsed(ttl: nat, files: Files, p: Path) returns (s: State, call: Lookup, pc: SymbolsPc)
    requires p in files
    ensures Reachable(ttl, files, s) && LookingUp(s, files, call, pc) && pc.Checking? && call.path == p
  {
    var s12 := WarmerLooksUp(ttl, files, p);
    call := s12.threads[2].pc.call;
    var signature := ReadAt(files[p].signature, Now(s12));
    SignStep(files, p, s12, call);
    var s13 := LookupStep(ttl, files, p, s12, call, Called, Signed(signature));
    MissStep(files, p, s13, call, signature);
    var s14 := LookupStep(ttl, files, p, s13, call, Signed(signature), NotCached(signature));
    ParseStep(files, p, s14, call, signature);
    pc := Checking(signature, ReadAt(files[p].bytes, Now(s14)));
    s := LookupStep(ttl, files, p, s14, call, NotCached(signature), pc);
  }

  lemma SignStep(files: Files, p: Path, s: State, call: Lookup)
    requires p in files && call.path == p && LookingUp(s, files, call, Called)
    ensures StepSymbols(s, 2, call, Called, Go(p))
         == Some(Goto(s, 2, InSymbols(call, Signed(ReadAt(files[p].signature, Now(s))))))
  {
  }

  lemma MissStep(files: Files, p: Path, s: State, call: Lookup, signature: ReadAt<Signature>)
    requires LookingUp(s, files, call, Signed(signature))
    ensures StepSymbols(s, 2, call, Signed(signature), Go(p)) == Some(Goto(s, 2, InSymbols(call, NotCached(signature))))
  {
  }

  lemma ParseStep(files: Files, p: Path, s: State, call: Lookup, signature: ReadAt<Signature>)
    requires p in files && call.path == p && LookingUp(s, files, call, NotCached(signature))
    ensures StepSymbols(s, 2, call, NotCached(signature), Go(p))
         == Some(Goto(s, 2, InSymbols(call, Checking(signature, ReadAt(files[p].bytes, Now(s))))))
  {
  }

  /** It passes the second generation check, under the codemap lock. */
  lemma WarmerPassedBothChecks(ttl: nat, files: Files, p: Path) returns (s: State)
    requires p in files
    ensures Reachable(ttl, files, s)
    ensures Generation(s) == 1 && s.codemap == map[] && s.snapshotWriter == None && s.threads.Keys == {1, 2}
    ensures s.threads[2].role.Warmer? && s.threads[2].role.generation == 1
    ensures s.threads[2].pc.InSymbols? && s.threads[2].pc.sym.Inserting? && s.threads[2].pc.call.path == p
  {
    var s15, call, pc := WarmerParsed(ttl, files, p);
    var s16 := LookupStep(ttl, files, p, s15, call, pc, Waiting(pc.signature, pc.bytes));
    var s17 := Goto(s16, 2, InSymbols(call, Rechecking(pc.signature, pc.bytes))).(codemapWriter := Some(2));
    AdvanceSymbols(ttl, files, p, s16, 2, call, Waiting(pc.signature, pc.bytes), s17);
    s := Goto(s17, 2, InSymbols(call, Inserting(pc.signature, pc.bytes, Now(s17))));
    AdvanceSymbols(ttl, files, p, s17, 2, call, Rechecking(pc.signature, pc.bytes), s);
  }

  /** Thread 3 invalidates, as far as the generation. */
  lemma ThenInvalidated(ttl: nat, files: Files, p: Path, s: State) returns (s': State)
    requires Reachable(ttl, files, s) && s.snapshotWriter == None && s.threads.Keys == {1, 2}
    ensures Reachable(ttl, files, s') && Generation(s') == Generation(s) + 1
    ensures s'.codemap == s.codemap && 2 in s'.threads && s'.threads[2] == s.threads[2]
  {
    var s1 := StepInvoke(s, 3, CallMutation);
    ReachableStep(ttl, files, s, Invoke(3, CallMutation), s1);
    var s2 := Goto(s1, 3, InMutation(0, Clearing));
    AdvanceMutation(ttl, files, p, s1, 3, Mutating, s2);
    var s3 := Goto(s2, 3, InMutation(0, Bumping)).(snapshot := None, lastCleared := Next(s2));
    AdvanceMutation(ttl, files, p, s2, 3, Clearing, s3);
    s' := BumpAndGoto(s3, 3, InMutation(0, Cancelling));
    AdvanceMutation(ttl, files, p, s3, 3, Bumping, s');
  }

  /** An invalidation may bump the generation between the warmer's check and its insertion: the
      check under the lock does not keep a stale warmer from inserting. */
  lemma StaleWarmerInserts(ttl: nat, files: Files, p: Path)
    requires p in files
    ensures exists s, choice ::
              && Reachable(ttl, files, s)
              && 2 in s.threads && s.threads[2].role.Warmer? && s.threads[2].role.generation < Generation(s)
              && p !in s.codemap
              && Step(ttl, s, Advance(2, choice)).Some?
              && p in Step(ttl, s, Advance(2, choice)).value.codemap
  {
    var s := WarmerPassedBothChecks(ttl, files, p);
    var s' := ThenInvalidated(ttl, files, p, s);
    assert StepSymbols(s', 2, s'.threads[2].pc.call, s'.threads[2].pc.sym, Go(p)).Some?;
    assert p in Step(ttl, s', Advance(2, Go(p))).value.codemap;
  }
}
