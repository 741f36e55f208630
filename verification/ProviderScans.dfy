/**
 Where a returned snapshot comes from, in terms of the steps of a run alone: which scan found it, when that scan
 began, which edits it follows, and when the cache serves it.
 */
module ProviderScans {
  import opened Common
  import opened Provider
  import opened ProviderSnapshot

  // ----- what happens at a step of a run -----

  predicate Advances(actions: seq<Action>, i: nat, t: Tid) {
    i < |actions| && actions[i].Advance? && actions[i].t == t
  }

  predicate InSnapshotAt(states: seq<State>, i: nat, t: Tid) {
    i < |states| && t in states[i].threads && states[i].threads[t].pc.InSnapshot?
  }

  predicate IsScanning(pc: Pc) { pc.InSnapshot? && pc.snap.Scanning? }

  predicate ScansAt(states: seq<State>, i: nat, u: Tid) {
    InSnapshotAt(states, i, u) && states[i].threads[u].pc.snap.Scanning?
  }

  /** At step j a call of u reads the clock. */
  predicate ReadsClock(actions: seq<Action>, states: seq<State>, j: nat, u: Tid) {
    && Advances(actions, j, u) && InSnapshotAt(states, j, u) && states[j].threads[u].pc.snap.Entered?
    && InSnapshotAt(states, j + 1, u) && states[j + 1].threads[u].pc.snap.Timed?
  }

  /** At step b thread u, which holds the write lock, begins a scan. */
  predicate BeginsScan(actions: seq<Action>, states: seq<State>, b: nat, u: Tid) {
    && Advances(actions, b, u) && InSnapshotAt(states, b, u) && states[b].threads[u].pc.snap.Locked?
    && ScansAt(states, b + 1, u)
  }

  /** At step i the scan of u ends, successfully, with these entries. */
  predicate EndsScan(actions: seq<Action>, states: seq<State>, i: nat, u: Tid, entries: seq<Entry>) {
    Advances(actions, i, u) && ScansAt(states, i, u) && !actions[i].choice.fails && actions[i].choice.entries == entries
  }

  /** The entries are those of the scan of u that began at step b and ended at step i. */
  ghost predicate FoundBy(actions: seq<Action>, states: seq<State>, b: nat, i: nat, u: Tid, entries: seq<Entry>) {
    && BeginsScan(actions, states, b, u) && b < i && EndsScan(actions, states, i, u, entries)
    && forall k :: b < k <= i ==> ScansAt(states, k, u)
  }

  /** At step e the mutation of m edits a path. */
  predicate EditsAt(actions: seq<Action>, states: seq<State>, e: nat, m: Tid) {
    && Advances(actions, e, m) && !actions[e].choice.fails && actions[e].choice.edit.Some?
    && e < |states| && m in states[e].threads
    && states[e].threads[m].pc.InMutation? && states[e].threads[m].pc.mutation.Mutating?
  }

  /** A mutation of m edited at step e and had returned by step k, and the call of the reader began after that. */
  predicate EditedBefore(actions: seq<Action>, states: seq<State>, e: nat, m: Tid, k: nat, i: nat, reader: Tid) {
    && EditsAt(actions, states, e, m) && e < k < |states|
    && m in states[k].threads && states[k].threads[m].pc.MutationReturned?
    && k <= i < |actions| && actions[i] == Invoke(reader, CallSnapshot)
  }

  /** At step k thread t drops the cached snapshot. */
  predicate ClearsAt(actions: seq<Action>, states: seq<State>, k: nat, t: Tid) {
    && Advances(actions, k, t) && k < |states| && t in states[k].threads
    && states[k].threads[t].pc.InMutation? && states[k].threads[t].pc.mutation.Clearing?
  }

  /** At step k thread t stores what its scan has found. */
  predicate StoresAt(actions: seq<Action>, states: seq<State>, k: nat, t: Tid) {
    Advances(actions, k, t) && InSnapshotAt(states, k, t) && states[k].threads[t].pc.snap.Bumped?
  }

  // ----- one step -----

  /** The snapshot a thread has in hand. */
  function Held(pc: Pc): Option<Snapshot> {
    match pc
    case InSnapshot(Scanned(_, snapshot)) => Some(snapshot)
    case InSnapshot(Bumped(_, snapshot, _)) => Some(snapshot)
    case Registering(_, snapshot, _) => Some(snapshot)
    case Spawning(_, snapshot, _, _) => Some(snapshot)
    case SnapshotReturned(_, snapshot) => Some(snapshot)
    case _ => None
  }

  /** It is that of its own scan. */
  predicate HoldsOwn(pc: Pc) { pc.InSnapshot? && Held(pc).Some? }

  /** The clock reading of its call. */
  function NowOf(pc: Pc): Option<nat> {
    match pc
    case InSnapshot(Entered) => None
    case InSnapshot(snap) => Some(snap.now)
    case Registering(now, _, _) => Some(now)
    case Spawning(now, _, _, _) => Some(now)
    case SnapshotReturned(now, _) => Some(now)
    case _ => None
  }

  function LastEditOf(pc: Pc): Option<nat> {
    match pc
    case InMutation(lastEdit, _) => Some(lastEdit)
    case MutationReturned(lastEdit, _) => Some(lastEdit)
    case _ => None
  }

  function Slot(s: State): Option<Snapshot> {
    if s.snapshot.Some? then Some(s.snapshot.value.snapshot) else None
  }

  /** Where the snapshot of the thread that moves comes from: it had it in hand, it found it in the slot, or its scan
      has just ended. */
  predicate Sourced(s: State, pc: Pc, choice: Choice, pc': Pc) {
    || Held(pc') == None || (Held(pc') == Held(pc) && (HoldsOwn(pc') ==> HoldsOwn(pc)))
    || (Held(pc') == Slot(s) && !HoldsOwn(pc'))
    || (IsScanning(pc) && !choice.fails
        && Held(pc') == Some(Snapshot(pc.snap.scanBegan, pc.snap.scanClock, choice.entries)))
  }

  predicate Begins(s: State, pc: Pc, pc': Pc) {
    IsScanning(pc') ==>
      && pc.InSnapshot? && pc.snap.Locked?
      && pc'.snap.scanBegan == Now(s) && pc'.snap.scanClock == s.clock
  }

  predicate Clocked(s: State, pc: Pc, pc': Pc) {
    || NowOf(pc') == None || NowOf(pc') == NowOf(pc)
    || (pc.InSnapshot? && pc.snap.Entered? && pc' == InSnapshot(Timed(s.clock)))
  }

  predicate EditsRemembered(s: State, pc: Pc, choice: Choice, pc': Pc) {
    && !pc.MutationReturned?
    && (pc'.MutationReturned? ==> pc'.returnedAt == |s.past|)
    && (LastEditOf(pc').Some? ==> LastEditOf(pc).Some? && LastEditOf(pc').value in {LastEditOf(pc).value, |s.past|})
    && (pc.InMutation? && pc.mutation.Mutating? && !choice.fails && choice.edit.Some? ==>
          LastEditOf(pc') == Some(|s.past|))
  }

  predicate SlotMoves(s: State, pc: Pc, s': State) {
    if pc.InSnapshot? && pc.snap.Bumped? then s'.snapshot == Some(CachedSnapshot(pc.snap.now, pc.snap.snapshot))
    else if pc.InMutation? && pc.mutation.Clearing? then s'.snapshot == None
    else s'.snapshot == s.snapshot
  }

  predicate Traced(s: State, t: Tid, choice: Choice, s': State)
    requires t in s.threads && t in s'.threads
  {
    var pc, pc' := s.threads[t].pc, s'.threads[t].pc;
    && Sourced(s, pc, choice, pc') && Begins(s, pc, pc') && Clocked(s, pc, pc') && EditsRemembered(s, pc, choice, pc')
    && SlotMoves(s, pc, s') && s'.threads[t].began == s.threads[t].began
  }

  /** Only the thread that moves changes, but for a warmer that it spawns. */
  ghost predicate Alone(s: State, t: Tid, s': State) {
    && |s'.past| == |s.past| + 1 && t in s'.threads
    && (forall u :: u in s.threads ==> u in s'.threads)
    && forall u :: u in s'.threads && u != t ==>
         if u in s.threads then s'.threads[u] == s.threads[u] else s'.threads[u].pc == InWarmer(Looping)
  }

  lemma SnapshotAlone(ttl: nat, s: State, t: Tid, pc: SnapshotPc, choice: Choice, s': State)
    requires t in s.threads && s.threads[t].pc == InSnapshot(pc)
    requires StepSnapshot(ttl, s, t, pc, choice) == Some(s')
    ensures Alone(s, t, s')
  {
  }

  lemma SnapshotTraced(ttl: nat, s: State, t: Tid, pc: SnapshotPc, choice: Choice, s': State)
    requires t in s.threads && s.threads[t].pc == InSnapshot(pc)
    requires StepSnapshot(ttl, s, t, pc, choice) == Some(s')
    ensures t in s'.threads && Traced(s, t, choice, s')
  {
  }

  lemma RegisterTraced(s: State, t: Tid, now: nat, snapshot: Snapshot, generation: nat, choice: Choice, s': State)
    requires t in s.threads && s.threads[t].pc == Registering(now, snapshot, generation)
    requires StepRegister(s, t, now, snapshot, generation) == s'
    ensures Alone(s, t, s') && Traced(s, t, choice, s')
  {
  }

  lemma SpawnTraced(s: State, t: Tid, now: nat, snapshot: Snapshot, generation: nat, token: Token, choice: Choice,
                    s': State)
    requires t in s.threads && s.threads[t].pc == Spawning(now, snapshot, generation, token)
    requires StepSpawn(s, t, now, snapshot, generation, token, choice) == Some(s')
    ensures Alone(s, t, s') && Traced(s, t, choice, s')
  {
  }

  lemma MutationTraced(s: State, t: Tid, lastEdit: nat, pc: MutationPc, choice: Choice, s': State)
    requires t in s.threads && s.threads[t].pc == InMutation(lastEdit, pc)
    requires StepMutation(s, t, lastEdit, pc, choice) == Some(s')
    ensures Alone(s, t, s') && Traced(s, t, choice, s')
  {
  }

  lemma SymbolsAlone(s: State, t: Tid, call: Lookup, pc: SymbolsPc, choice: Choice, s': State)
    requires t in s.threads && s.threads[t].pc == InSymbols(call, pc)
    requires StepSymbols(s, t, call, pc, choice) == Some(s')
    ensures Alone(s, t, s')
  {
  }

  lemma SymbolsTraced(s: State, t: Tid, call: Lookup, pc: SymbolsPc, choice: Choice, s': State)
    requires t in s.threads && s.threads[t].pc == InSymbols(call, pc)
    requires StepSymbols(s, t, call, pc, choice) == Some(s')
    ensures t in s'.threads && Traced(s, t, choice, s')
  {
  }

  lemma WarmerTraced(s: State, t: Tid, choice: Choice, s': State)
    requires t in s.threads && StepWarmer(s, t, choice) == Some(s')
    ensures Alone(s, t, s')
    ensures !s.threads[t].pc.InSnapshot? && !s.threads[t].pc.InMutation? ==> Traced(s, t, choice, s')
  {
  }

  lemma AdvanceTraced(ttl: nat, s: State, t: Tid, choice: Choice, s': State)
    requires Step(ttl, s, Advance(t, choice)) == Some(s')
    ensures t in s.threads && Alone(s, t, s') && Traced(s, t, choice, s')
  {
    match s.threads[t].pc
    case InSnapshot(pc) =>
      SnapshotAlone(ttl, s, t, pc, choice, s');
      SnapshotTraced(ttl, s, t, pc, choice, s');
    case Registering(now, snapshot, generation) => RegisterTraced(s, t, now, snapshot, generation, choice, s');
    case Spawning(now, snapshot, generation, token) =>
      SpawnTraced(s, t, now, snapshot, generation, token, choice, s');
    case InMutation(lastEdit, pc) => MutationTraced(s, t, lastEdit, pc, choice, s');
    case InSymbols(call, pc) =>
      SymbolsAlone(s, t, call, pc, choice, s');
      SymbolsTraced(s, t, call, pc, choice, s');
    case _ => WarmerTraced(s, t, choice, s');
  }

  /** What a step does to the threads and the slot. */
  ghost predicate Moves(s: State, a: Action, s': State) {
    match a
    case Advance(t, choice) => t in s.threads && Alone(s, t, s') && Traced(s, t, choice, s')
    case Invoke(t, op) =>
      && |s'.past| == |s.past| + 1 && s'.snapshot == s.snapshot && t !in s.threads
      && exists pc :: s'.threads == s.threads[t := Thread(Caller, |s.past|, pc)] && Fresh(pc)
    case _ => |s'.past| == |s.past| + 1 && s'.snapshot == s.snapshot && s'.threads == s.threads
  }

  predicate Fresh(pc: Pc) {
    pc == InSnapshot(Entered) || (pc.InMutation? && pc.mutation.Mutating?) || pc.InSymbols?
  }

  lemma InvokeMoves(ttl: nat, s: State, t: Tid, op: Operation, s': State)
    requires Step(ttl, s, Invoke(t, op)) == Some(s')
    ensures Moves(s, Invoke(t, op), s')
  {
    assert Fresh(s'.threads[t].pc);
  }

  lemma StepMoves(ttl: nat, s: State, a: Action, s': State)
    requires StepsTo(ttl, s, a, s')
    ensures Moves(s, a, s')
  {
    match a
    case Advance(t, choice) => AdvanceTraced(ttl, s, t, choice, s');
    case Invoke(t, op) => InvokeMoves(ttl, s, t, op, s');
    case _ =>
  }

  // ----- runs -----

  /** A run, as far as the threads and the slot go. */
  ghost predicate Motion(actions: seq<Action>, states: seq<State>) {
    && |states| == |actions| + 1
    && states[0].snapshot == None && states[0].threads == map[] && |states[0].past| == 1
    && forall i {:trigger actions[i]} :: 0 <= i < |actions| ==> Moves(states[i], actions[i], states[i + 1])
  }

  lemma RunMoves(ttl: nat, files: Files, actions: seq<Action>, states: seq<State>)
    requires IsRun(ttl, files, actions, states)
    ensures Motion(actions, states)
  {
    forall i {:trigger actions[i]} | 0 <= i < |actions| ensures Moves(states[i], actions[i], states[i + 1]) {
      StepMoves(ttl, states[i], actions[i], states[i + 1]);
    }
  }

  ghost predicate ScanGoes(actions: seq<Action>, states: seq<State>, n: nat, t: Tid, b: nat, clock: nat) {
    && b < n < |states| && BeginsScan(actions, states, b, t) && clock == states[b].clock
    && forall k :: b < k <= n ==> ScansAt(states, k, t)
  }

  /** The snapshot is that of a scan of u which ended before step n: it has its entries, and tells when it began. */
  ghost predicate ScannedBy(actions: seq<Action>, states: seq<State>, n: nat, u: Tid, snapshot: Snapshot) {
    && snapshot.scanBegan < |states| && snapshot.scanClock == states[snapshot.scanBegan].clock
    && exists i: nat :: i < n && FoundBy(actions, states, snapshot.scanBegan, i, u, snapshot.entries)
  }

  ghost predicate Scanned(actions: seq<Action>, states: seq<State>, n: nat, snapshot: Snapshot) {
    exists u :: ScannedBy(actions, states, n, u, snapshot)
  }

  /** The call of t read this clock. */
  ghost predicate ReadBy(actions: seq<Action>, states: seq<State>, n: nat, t: Tid, now: nat) {
    exists j: nat :: j < n && j < |states| && ReadsClock(actions, states, j, t) && states[j].clock == now
  }

  ghost predicate ThreadTraced(actions: seq<Action>, states: seq<State>, n: nat, t: Tid, pc: Pc) {
    && (Held(pc).Some? ==> Scanned(actions, states, n, Held(pc).value))
    && (HoldsOwn(pc) ==> ScannedBy(actions, states, n, t, Held(pc).value))
    && (IsScanning(pc) ==> ScanGoes(actions, states, n, t, pc.snap.scanBegan, pc.snap.scanClock))
    && (NowOf(pc).Some? ==> ReadBy(actions, states, n, t, NowOf(pc).value))
    && (pc.MutationReturned? ==> pc.returnedAt <= n)
  }

  /** The slot holds what a scan of u has found, with the clock reading of that call. */
  ghost predicate SlotTraced(actions: seq<Action>, states: seq<State>, n: nat, cached: CachedSnapshot) {
    exists u :: ScannedBy(actions, states, n, u, cached.snapshot) && ReadBy(actions, states, n, u, cached.createdAt)
  }

  ghost predicate AllTraced(actions: seq<Action>, states: seq<State>, n: nat, s: State) {
    forall t :: t in s.threads ==> ThreadTraced(actions, states, n, t, s.threads[t].pc)
  }

  ghost predicate RunTraced(actions: seq<Action>, states: seq<State>, n: nat)
    requires n < |states|
  {
    && |states[n].past| == n + 1
    && (states[n].snapshot.Some? ==> SlotTraced(actions, states, n, states[n].snapshot.value))
    && AllTraced(actions, states, n, states[n])
  }

  lemma ScannedLater(actions: seq<Action>, states: seq<State>, n: nat, snapshot: Snapshot)
    requires Scanned(actions, states, n, snapshot)
    ensures Scanned(actions, states, n + 1, snapshot)
  {
    var u :| ScannedBy(actions, states, n, u, snapshot);
    assert ScannedBy(actions, states, n + 1, u, snapshot);
  }

  /** A thread that does not move. */
  lemma StillTraced(actions: seq<Action>, states: seq<State>, n: nat, u: Tid, pc: Pc)
    requires n + 1 < |states| && ThreadTraced(actions, states, n, u, pc)
    requires u in states[n + 1].threads && states[n + 1].threads[u].pc == pc
    ensures ThreadTraced(actions, states, n + 1, u, pc)
  {
    if Held(pc).Some? {
      ScannedLater(actions, states, n, Held(pc).value);
    }
  }

  lemma OthersTraced(actions: seq<Action>, states: seq<State>, n: nat, t: Tid, s: State, s': State)
    requires n + 1 < |states| && s == states[n] && s' == states[n + 1] && AllTraced(actions, states, n, s)
    requires forall u :: u in s'.threads && u != t ==>
               if u in s.threads then s'.threads[u] == s.threads[u] else s'.threads[u].pc == InWarmer(Looping)
    ensures forall u :: u in s'.threads && u != t ==> ThreadTraced(actions, states, n + 1, u, s'.threads[u].pc)
  {
    forall u | u in s'.threads && u != t ensures ThreadTraced(actions, states, n + 1, u, s'.threads[u].pc) {
      if u in s.threads {
        StillTraced(actions, states, n, u, s.threads[u].pc);
      }
    }
  }

  /** The thread that moves. */
  lemma MovedTraced(actions: seq<Action>, states: seq<State>, n: nat, t: Tid, choice: Choice, s: State, s': State)
    requires |states| == |actions| + 1 && n < |actions| && actions[n] == Advance(t, choice)
    requires s == states[n] && s' == states[n + 1] && RunTraced(actions, states, n)
    requires t in s.threads && t in s'.threads && Traced(s, t, choice, s')
    ensures ThreadTraced(actions, states, n + 1, t, s'.threads[t].pc)
  {
    var pc, pc' := s.threads[t].pc, s'.threads[t].pc;
    assert ThreadTraced(actions, states, n, t, pc);
    if Held(pc').Some? {
      MovedHolds(actions, states, n, t, choice, s, pc, pc');
    }
    if IsScanning(pc') {
      assert BeginsScan(actions, states, n, t);
    }
    if NowOf(pc').Some? && NowOf(pc') != NowOf(pc) {
      assert ReadsClock(actions, states, n, t);
    }
  }

  lemma MovedHolds(actions: seq<Action>, states: seq<State>, n: nat, t: Tid, choice: Choice, s: State, pc: Pc, pc': Pc)
    requires |states| == |actions| + 1 && n < |actions| && actions[n] == Advance(t, choice)
    requires s == states[n] && RunTraced(actions, states, n) && t in s.threads && s.threads[t].pc == pc
    requires Sourced(s, pc, choice, pc') && ThreadTraced(actions, states, n, t, pc) && Held(pc').Some?
    ensures Scanned(actions, states, n + 1, Held(pc').value)
    ensures HoldsOwn(pc') ==> ScannedBy(actions, states, n + 1, t, Held(pc').value)
  {
    var snapshot := Held(pc').value;
    if Held(pc') == Held(pc) && (HoldsOwn(pc') ==> HoldsOwn(pc)) {
      ScannedLater(actions, states, n, snapshot);
    } else if Held(pc') == Slot(s) && !HoldsOwn(pc') {
      var u :| ScannedBy(actions, states, n, u, snapshot);
      ScannedLater(actions, states, n, snapshot);
    } else {
      assert EndsScan(actions, states, n, t, choice.entries);
      assert FoundBy(actions, states, snapshot.scanBegan, n, t, snapshot.entries);
      assert ScannedBy(actions, states, n + 1, t, snapshot);
    }
  }

  lemma SlotLater(actions: seq<Action>, states: seq<State>, n: nat, cached: CachedSnapshot)
    requires SlotTraced(actions, states, n, cached)
    ensures SlotTraced(actions, states, n + 1, cached)
  {
    var u :| ScannedBy(actions, states, n, u, cached.snapshot) && ReadBy(actions, states, n, u, cached.createdAt);
    assert ScannedBy(actions, states, n + 1, u, cached.snapshot);
    assert ReadBy(actions, states, n + 1, u, cached.createdAt);
  }

  lemma MovedSlot(actions: seq<Action>, states: seq<State>, n: nat, t: Tid, choice: Choice, s: State, s': State)
    requires |states| == |actions| + 1 && n < |actions| && actions[n] == Advance(t, choice)
    requires s == states[n] && s' == states[n + 1] && RunTraced(actions, states, n)
    requires t in s.threads && t in s'.threads && Traced(s, t, choice, s') && s'.snapshot.Some?
    ensures SlotTraced(actions, states, n + 1, s'.snapshot.value)
  {
    var pc := s.threads[t].pc;
    if pc.InSnapshot? && pc.snap.Bumped? {
      assert ThreadTraced(actions, states, n, t, pc);
      assert SlotTraced(actions, states, n, s'.snapshot.value);
    }
    SlotLater(actions, states, n, s'.snapshot.value);
  }

  lemma AdvanceRunTraced(actions: seq<Action>, states: seq<State>, n: nat, t: Tid, choice: Choice, s: State, s': State)
    requires |states| == |actions| + 1 && n < |actions| && actions[n] == Advance(t, choice)
    requires s == states[n] && s' == states[n + 1] && RunTraced(actions, states, n)
    requires t in s.threads && Alone(s, t, s') && Traced(s, t, choice, s')
    ensures RunTraced(actions, states, n + 1)
  {
    MovedTraced(actions, states, n, t, choice, s, s');
    if s'.snapshot.Some? {
      MovedSlot(actions, states, n, t, choice, s, s');
    }
    OthersTraced(actions, states, n, t, s, s');
  }

  lemma InvokeRunTraced(actions: seq<Action>, states: seq<State>, n: nat, t: Tid, op: Operation, s: State, s': State)
    requires n + 1 < |states| && s == states[n] && s' == states[n + 1] && RunTraced(actions, states, n)
    requires Moves(s, Invoke(t, op), s')
    ensures RunTraced(actions, states, n + 1)
  {
    OthersTraced(actions, states, n, t, s, s');
    if s.snapshot.Some? {
      SlotLater(actions, states, n, s.snapshot.value);
    }
  }

  lemma StepRunTraced(actions: seq<Action>, states: seq<State>, n: nat, s: State, a: Action, s': State)
    requires |states| == |actions| + 1 && n < |actions| && actions[n] == a
    requires s == states[n] && s' == states[n + 1] && RunTraced(actions, states, n) && Moves(s, a, s')
    ensures RunTraced(actions, states, n + 1)
  {
    match a
    case Advance(t, choice) => AdvanceRunTraced(actions, states, n, t, choice, s, s');
    case Invoke(t, op) => InvokeRunTraced(actions, states, n, t, op, s, s');
    case _ => WorldTraced(actions, states, n, s, s');
  }

  lemma {:induction false} RunIsTraced(actions: seq<Action>, states: seq<State>, n: nat)
    requires Motion(actions, states) && n <= |actions|
    ensures RunTraced(actions, states, n)
  {
    if n > 0 {
      RunIsTraced(actions, states, n - 1);
      StepRunTraced(actions, states, n - 1, states[n - 1], actions[n - 1], states[n]);
    }
  }

  lemma WorldTraced(actions: seq<Action>, states: seq<State>, n: nat, s: State, s': State)
    requires n + 1 < |states| && s == states[n] && s' == states[n + 1] && RunTraced(actions, states, n)
    requires s'.threads == s.threads && s'.snapshot == s.snapshot && |s'.past| == |s.past| + 1
    ensures RunTraced(actions, states, n + 1)
  {
    forall t | t in s.threads ensures ThreadTraced(actions, states, n + 1, t, s.threads[t].pc) {
      StillTraced(actions, states, n, t, s.threads[t].pc);
    }
    if s.snapshot.Some? {
      SlotLater(actions, states, n, s.snapshot.value);
    }
  }

  // ----- calls and edits -----

  lemma {:induction false} BeganWhenInvoked(actions: seq<Action>, states: seq<State>, i: nat, n: nat, t: Tid,
                                            op: Operation)
    requires Motion(actions, states) && i < n <= |actions| && actions[i] == Invoke(t, op)
    ensures t in states[n].threads && states[n].threads[t].began == i + 1
    decreases n
  {
    RunIsTraced(actions, states, n - 1);
    assert Moves(states[n - 1], actions[n - 1], states[n]);
    if i < n - 1 {
      BeganWhenInvoked(actions, states, i, n - 1, t, op);
    }
  }

  lemma {:induction false} EditIsRemembered(actions: seq<Action>, states: seq<State>, e: nat, n: nat, m: Tid)
    requires Motion(actions, states) && e < n <= |actions| && EditsAt(actions, states, e, m)
    ensures m in states[n].threads
    ensures LastEditOf(states[n].threads[m].pc).Some? ==> LastEditOf(states[n].threads[m].pc).value > e
    decreases n
  {
    RunIsTraced(actions, states, n - 1);
    assert Moves(states[n - 1], actions[n - 1], states[n]);
    if e < n - 1 {
      EditIsRemembered(actions, states, e, n - 1, m);
    }
  }

  lemma {:induction false} ReturnedStays(actions: seq<Action>, states: seq<State>, k: nat, n: nat, m: Tid)
    requires Motion(actions, states) && k <= n <= |actions|
    requires m in states[k].threads && states[k].threads[m].pc.MutationReturned?
    ensures m in states[n].threads && states[n].threads[m].pc == states[k].threads[m].pc
    decreases n
  {
    if k < n {
      ReturnedStays(actions, states, k, n - 1, m);
      assert Moves(states[n - 1], actions[n - 1], states[n]);
    }
  }

  lemma RunUpTo(ttl: nat, files: Files, actions: seq<Action>, states: seq<State>, n: nat)
    requires IsRun(ttl, files, actions, states) && n <= |actions|
    ensures IsRun(ttl, files, actions[..n], states[..n + 1])
  {
    forall i {:trigger actions[..n][i]} | 0 <= i < n
      ensures StepsTo(ttl, states[..n + 1][i], actions[..n][i], states[..n + 1][i + 1])
    {
      assert actions[..n][i] == actions[i];
    }
  }

  lemma InvOfRun(ttl: nat, files: Files, actions: seq<Action>, states: seq<State>, n: nat)
    requires IsRun(ttl, files, actions, states) && n <= |actions|
    ensures SnapshotInv(ttl, states[n])
  {
    RunUpTo(ttl, files, actions, states, n);
    RunOfStates(ttl, files, actions[..n], states[..n + 1]);
    AlwaysSnapshotInv(ttl, files, actions[..n]);
  }

  lemma BehindNone(ttl: nat, actions: seq<Action>, states: seq<State>, n: nat, reader: Tid, e: nat, m: Tid, k: nat,
                   i: nat)
    requires Motion(actions, states) && n <= |actions| && SnapshotInv(ttl, states[n])
    requires reader in states[n].threads && states[n].threads[reader].pc.SnapshotReturned?
    requires i < n && EditedBefore(actions, states, e, m, k, i, reader)
    ensures e < states[n].threads[reader].pc.snapshot.scanBegan
  {
    ReturnedStays(actions, states, k, n, m);
    EditIsRemembered(actions, states, e, n, m);
    BeganWhenInvoked(actions, states, i, n, reader, CallSnapshot);
    RunIsTraced(actions, states, k);
    assert ThreadTraced(actions, states, k, m, states[k].threads[m].pc);
    assert !ReadsBehind(states[n].threads[m], states[n].threads[reader]);
  }

  // ----- what a call returns -----

  /** The snapshot that the reader has got before step n is that of the scan of u that began at step b, and its call
      read the clock at step j. */
  ghost predicate ReturnsScan(actions: seq<Action>, states: seq<State>, n: nat, reader: Tid, b: nat, u: Tid, j: nat)
    requires n < |states| && reader in states[n].threads && states[n].threads[reader].pc.SnapshotReturned?
  {
    && (exists end: nat :: end < n
                           && FoundBy(actions, states, b, end, u, states[n].threads[reader].pc.snapshot.entries))
    && b < |states| && j < n && ReadsClock(actions, states, j, reader)
  }

  lemma ReturnedIsScanned(ttl: nat, actions: seq<Action>, states: seq<State>, n: nat, reader: Tid)
    returns (u: Tid, j: nat)
    requires Motion(actions, states) && n <= |actions| && SnapshotInv(ttl, states[n])
    requires reader in states[n].threads && states[n].threads[reader].pc.SnapshotReturned?
    ensures
      var b := states[n].threads[reader].pc.snapshot.scanBegan;
      ReturnsScan(actions, states, n, reader, b, u, j) && states[j].clock <= states[b].clock + ttl
  {
    var pc := states[n].threads[reader].pc;
    RunIsTraced(actions, states, n);
    assert ThreadTraced(actions, states, n, reader, pc) && ThreadOk(ttl, states[n], reader);
    u :| ScannedBy(actions, states, n, u, pc.snapshot);
    j :| j < n && j < |states| && ReadsClock(actions, states, j, reader) && states[j].clock == pc.now;
  }

  /**
   In every run, what a call of `snapshot_arc_cancellable` returns, from the cache or not, has exactly the entries with
   which some successful scan of the run ended.  That scan began after every edit of a mutation that had returned when
   the call was made, and at most the time to live before the call read the clock.
   */
  lemma SnapshotsAreScanned(ttl: nat, files: Files, actions: seq<Action>, states: seq<State>, n: nat, reader: Tid)
    returns (b: nat, u: Tid, j: nat)
    requires IsRun(ttl, files, actions, states) && n <= |actions|
    requires reader in states[n].threads && states[n].threads[reader].pc.SnapshotReturned?
    ensures ReturnsScan(actions, states, n, reader, b, u, j)
    ensures states[j].clock <= states[b].clock + ttl
    ensures forall e: nat, m, k: nat, i: nat :: i < n && EditedBefore(actions, states, e, m, k, i, reader) ==> e < b
  {
    RunMoves(ttl, files, actions, states);
    InvOfRun(ttl, files, actions, states, n);
    b := states[n].threads[reader].pc.snapshot.scanBegan;
    u, j := ReturnedIsScanned(ttl, actions, states, n, reader);
    forall e: nat, m, k: nat, i: nat | i < n && EditedBefore(actions, states, e, m, k, i, reader) ensures e < b {
      BehindNone(ttl, actions, states, n, reader, e, m, k, i);
    }
  }

  /** So has what a thread still holds, and what the cache holds, with the clock reading of the call that found it. */
  lemma EverySnapshotIsScanned(ttl: nat, files: Files, actions: seq<Action>, states: seq<State>, n: nat)
    requires IsRun(ttl, files, actions, states) && n <= |actions|
    ensures states[n].snapshot.Some? ==> SlotTraced(actions, states, n, states[n].snapshot.value)
    ensures forall t :: t in states[n].threads && Held(states[n].threads[t].pc).Some? ==>
              Scanned(actions, states, n, Held(states[n].threads[t].pc).value)
  {
    RunMoves(ttl, files, actions, states);
    RunIsTraced(actions, states, n);
    forall t | t in states[n].threads && Held(states[n].threads[t].pc).Some?
      ensures Scanned(actions, states, n, Held(states[n].threads[t].pc).value)
    {
      assert ThreadTraced(actions, states, n, t, states[n].threads[t].pc);
    }
  }

  // ----- when the cache serves it -----

  /** A call is served from the cache, before the write lock or with it, exactly when what is cached was found for a
      call that read the clock no later, and at most the time to live earlier. */
  lemma ServedIff(ttl: nat, s: State, t: Tid, choice: Choice, s': State)
    requires Step(ttl, s, Advance(t, choice)) == Some(s') && s.threads[t].pc.InSnapshot?
    requires s.threads[t].pc.snap.Timed? || s.threads[t].pc.snap.Locked?
    ensures
      var now := s.threads[t].pc.snap.now;
      if s.snapshot.Some? && s.snapshot.value.createdAt <= now <= s.snapshot.value.createdAt + ttl
      then s'.threads[t].pc == SnapshotReturned(now, s.snapshot.value.snapshot)
      else s'.threads[t].pc.InSnapshot?
  {
    assert t in s.threads;
  }

  lemma {:induction false} StoredStays(actions: seq<Action>, states: seq<State>, k: nat, u: Tid, n: nat)
    requires Motion(actions, states) && k < n <= |actions| && StoresAt(actions, states, k, u)
    requires forall i: nat, t :: k < i < n ==> !ClearsAt(actions, states, i, t) && !StoresAt(actions, states, i, t)
    ensures states[n].snapshot == Some(CachedSnapshot(states[k].threads[u].pc.snap.now,
                                                      states[k].threads[u].pc.snap.snapshot))
    decreases n
  {
    assert Moves(states[n - 1], actions[n - 1], states[n]);
    if k < n - 1 {
      StoredStays(actions, states, k, u, n - 1);
      if actions[n - 1].Advance? {
        var t := actions[n - 1].t;
        assert !ClearsAt(actions, states, n - 1, t) && !StoresAt(actions, states, n - 1, t);
      }
    }
  }

  /** What is stored is served: to every call that read the clock at most the time to live after the call that stored
      it, until a mutation drops it or another scan replaces it. */
  lemma StoredIsServed(ttl: nat, files: Files, actions: seq<Action>, states: seq<State>, k: nat, u: Tid, n: nat,
                       reader: Tid)
    requires IsRun(ttl, files, actions, states) && k < n < |actions| && StoresAt(actions, states, k, u)
    requires forall i: nat, t :: k < i < n ==> !ClearsAt(actions, states, i, t) && !StoresAt(actions, states, i, t)
    requires Advances(actions, n, reader) && InSnapshotAt(states, n, reader)
    requires states[n].threads[reader].pc.snap.Timed? || states[n].threads[reader].pc.snap.Locked?
    requires
      var stored, now := states[k].threads[u].pc.snap, states[n].threads[reader].pc.snap.now;
      stored.now <= now <= stored.now + ttl
    ensures reader in states[n + 1].threads
    ensures states[n + 1].threads[reader].pc
         == SnapshotReturned(states[n].threads[reader].pc.snap.now, states[k].threads[u].pc.snap.snapshot)
  {
    RunMoves(ttl, files, actions, states);
    StoredStays(actions, states, k, u, n);
    assert StepsTo(ttl, states[n], actions[n], states[n + 1]);
    ServedIff(ttl, states[n], reader, actions[n].choice, states[n + 1]);
  }
}
