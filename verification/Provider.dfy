/**
 The shared caches of `nerve-fs`'s catalog provider as a transition system.

 Callers of `snapshot_arc_cancellable`, of the mutating methods and of
 `code_symbols_for_path`, background codemap warmers, and programs outside the
 provider that edit files take steps in any order.  A step is what the code does
 between two points at which another thread could be noticed: one atomic
 operation, or one critical section under a lock.

 `past` records the file system and the generation counter at every instant of
 the run; every step adds one.
 */
module Provider {
  import opened Common

  type Path = string
  type Content = seq<byte>
  type Signature = nat
  type Tid = nat
  type Token = nat

  // ----- the world -----

  datatype File = File(signature: Signature, bytes: Content)

  type Files = map<Path, File>

  datatype Moment = Moment(files: Files, generation: nat)

  type Past = p: seq<Moment> | |p| > 0 witness [Moment(map[], 0)]

  function Current(past: Past): Moment { past[|past| - 1] }

  function SignatureAt(past: Past, i: nat, p: Path): Option<Signature>
    requires i < |past|
  {
    if p in past[i].files then Some(past[i].files[p].signature) else None
  }

  function BytesAt(past: Past, i: nat, p: Path): Option<Content>
    requires i < |past|
  {
    if p in past[i].files then Some(past[i].files[p].bytes) else None
  }

  // ----- the caches -----

  /** The parse of a file is fixed by its path and content. */
  datatype Symbols = Parsed(path: Path, bytes: Content)

  datatype CachedSymbols = CachedSymbols(signature: Signature, symbols: Symbols)

  datatype Entry = Entry(path: Path, hasLanguage: bool)

  /** A scan result: the instant and the clock reading at which its scan began, and what it found. */
  datatype Snapshot = Snapshot(scanBegan: nat, scanClock: nat, entries: seq<Entry>)

  datatype CachedSnapshot = CachedSnapshot(createdAt: nat, snapshot: Snapshot)

  datatype Warming = Warming(generation: nat, token: Token)

  // ----- threads -----

  datatype Role = Caller | Warmer(generation: nat, token: Token, todo: seq<Entry>)

  /** A call of `code_symbols_for_allowed`: the instant it began, and the generation it insists on. */
  datatype Lookup = Lookup(path: Path, began: nat, expected: Option<nat>)

  /** Something read from the file, and the instant at which it was read. */
  datatype ReadAt<T> = ReadAt(value: T, at: nat)

  /** snapshot_arc_cancellable, up to dropping the write lock. */
  datatype SnapshotPc =
    | Entered
    | Timed(now: nat)
    | Missed(now: nat)
    | Locked(now: nat)
    | Scanning(now: nat, scanBegan: nat, scanClock: nat)
    | Scanned(now: nat, snapshot: Snapshot)
    | Bumped(now: nat, snapshot: Snapshot, generation: nat)

  /** write_text, delete_file, rename_file, apply_file_batch, then invalidate. */
  datatype MutationPc = Mutating | Clearing | Bumping | Cancelling

  /** code_symbols_for_allowed.  `checkedAt` is the instant of the generation check under the lock. */
  datatype SymbolsPc =
    | Called
    | Signed(signature: ReadAt<Signature>)
    | NotCached(signature: ReadAt<Signature>)
    | Checking(signature: ReadAt<Signature>, bytes: ReadAt<Content>)
    | Waiting(signature: ReadAt<Signature>, bytes: ReadAt<Content>)
    | Rechecking(signature: ReadAt<Signature>, bytes: ReadAt<Content>)
    | Inserting(signature: ReadAt<Signature>, bytes: ReadAt<Content>, checkedAt: nat)

  /** warm_codemap_for_snapshot between two entries, and the deregistration after it. */
  datatype WarmerPc = Looping | NotCancelled | Finishing

  datatype Pc =
    | InSnapshot(snap: SnapshotPc)
    | Registering(now: nat, snapshot: Snapshot, generation: nat)
    | Spawning(now: nat, snapshot: Snapshot, generation: nat, token: Token)
    | SnapshotReturned(now: nat, snapshot: Snapshot)
    | InMutation(lastEdit: nat, mutation: MutationPc)
    | MutationReturned(lastEdit: nat, returnedAt: nat)
    | InSymbols(call: Lookup, sym: SymbolsPc)
    | SymbolsReturned(call: Lookup, returnedAt: nat, symbols: Symbols)
    | InWarmer(warmer: WarmerPc)
    | WarmerExited
    | Failed

  datatype Thread = Thread(role: Role, began: nat, pc: Pc)

  datatype State = State(
    past: Past,
    clock: nat,
    snapshot: Option<CachedSnapshot>,
    snapshotWriter: Option<Tid>,
    lastCleared: nat,
    codemap: map<Path, CachedSymbols>,
    codemapWriter: Option<Tid>,
    warming: Option<Warming>,
    cancelled: set<Token>,
    nextToken: Token,
    threads: map<Tid, Thread>)

  function Initial(files: Files): State {
    State([Moment(files, 0)], 0, None, None, 0, map[], None, None, {}, 0, map[])
  }

  // ----- steps -----

  datatype Operation = CallSnapshot | CallMutation | CallSymbols(path: Path)

  /** What a step leaves to the environment: whether an I/O operation or a cancellation check fails,
      what an edit writes, what a scan finds, the identity of a spawned thread. */
  datatype Choice = Choice(fails: bool, edit: Option<FileEdit>, entries: seq<Entry>, child: Tid)

  /** What a path holds from now on: a file, or nothing. */
  datatype FileEdit = FileEdit(path: Path, file: Option<File>)

  datatype Action =
    | ExternalEdit(edit: FileEdit)
    | ClockTick
    | Invoke(t: Tid, op: Operation)
    | Advance(t: Tid, choice: Choice)

  /** The index of the present instant. */
  function Now(s: State): nat { |s.past| - 1 }

  /** The instant a step leads to. */
  function Next(s: State): nat { |s.past| }

  function Generation(s: State): nat { Current(s.past).generation }

  function Stay(s: State): State {
    s.(past := s.past + [Current(s.past)])
  }

  function Goto(s: State, t: Tid, pc: Pc): State
    requires t in s.threads
  {
    Stay(s).(threads := s.threads[t := s.threads[t].(pc := pc)])
  }

  /** Like Goto, with the generation counter bumped in the same step. */
  function BumpAndGoto(s: State, t: Tid, pc: Pc): State
    requires t in s.threads
  {
    Goto(s, t, pc).(past := s.past + [Current(s.past).(generation := Generation(s) + 1)])
  }

  function Edited(files: Files, edit: FileEdit): Files {
    match edit.file
    case None => files - {edit.path}
    case Some(f) => files[edit.path := f]
  }

  function ApplyEdit(s: State, edit: FileEdit): State {
    s.(past := s.past + [Moment(Edited(Current(s.past).files, edit), Generation(s))])
  }

  function CacheEntryFresh(now: nat, createdAt: nat, ttl: nat): bool {
    createdAt <= now && now - createdAt <= ttl
  }

  function Step(ttl: nat, s: State, a: Action): Option<State> {
    match a
    case ExternalEdit(edit) => Some(ApplyEdit(s, edit))
    case ClockTick => Some(Stay(s).(clock := s.clock + 1))
    case Invoke(t, op) => if t in s.threads then None else Some(StepInvoke(s, t, op))
    case Advance(t, choice) =>
      if t !in s.threads then None
      else
        match s.threads[t].pc
        case InSnapshot(pc) => StepSnapshot(ttl, s, t, pc, choice)
        case Registering(now, snapshot, generation) => Some(StepRegister(s, t, now, snapshot, generation))
        case Spawning(now, snapshot, generation, token) => StepSpawn(s, t, now, snapshot, generation, token, choice)
        case InMutation(lastEdit, pc) => StepMutation(s, t, lastEdit, pc, choice)
        case InSymbols(call, pc) => StepSymbols(s, t, call, pc, choice)
        case _ => StepWarmer(s, t, choice)
  }

  function StepInvoke(s: State, t: Tid, op: Operation): State {
    var pc := match op
              case CallSnapshot => InSnapshot(Entered)
              case CallMutation => InMutation(0, Mutating)
              case CallSymbols(p) => InSymbols(Lookup(p, Next(s), None), Called);
    Stay(s).(threads := s.threads[t := Thread(Caller, Next(s), pc)])
  }

  function StepSnapshot(ttl: nat, s: State, t: Tid, pc: SnapshotPc, choice: Choice): Option<State>
    requires t in s.threads
  {
    match pc
    case Entered => // the cancellation check, the check for roots, and the clock
      Some(Goto(s, t, if choice.fails then Failed else InSnapshot(Timed(s.clock))))
    case Timed(now) => // cached_snapshot, under the read lock
      if s.snapshotWriter.Some? then None
      else if s.snapshot.Some? && CacheEntryFresh(now, s.snapshot.value.createdAt, ttl)
      then Some(Goto(s, t, SnapshotReturned(now, s.snapshot.value.snapshot)))
      else Some(Goto(s, t, InSnapshot(Missed(now))))
    case Missed(now) => // take the write lock
      if s.snapshotWriter.Some? then None
      else Some(Goto(s, t, InSnapshot(Locked(now))).(snapshotWriter := Some(t)))
    case Locked(now) => // look again; otherwise the scan begins
      if s.snapshot.Some? && CacheEntryFresh(now, s.snapshot.value.createdAt, ttl)
      then Some(Goto(s, t, SnapshotReturned(now, s.snapshot.value.snapshot)).(snapshotWriter := None))
      else Some(Goto(s, t, InSnapshot(Scanning(now, Now(s), s.clock))))
    case Scanning(now, scanBegan, scanClock) => // the scan ends, or is cancelled and drops the lock
      if choice.fails then Some(Goto(s, t, Failed).(snapshotWriter := None))
      else Some(Goto(s, t, InSnapshot(Scanned(now, Snapshot(scanBegan, scanClock, choice.entries)))))
    case Scanned(now, snapshot) =>
      Some(BumpAndGoto(s, t, InSnapshot(Bumped(now, snapshot, Generation(s) + 1))))
    case Bumped(now, snapshot, generation) => // store, and drop the lock
      Some(Goto(s, t, Registering(now, snapshot, generation)).(
           snapshot := Some(CachedSnapshot(now, snapshot)), snapshotWriter := None))
  }

  /** start_codemap_warming, under the warming lock: register a warmer unless there is nothing to warm. */
  function StepRegister(s: State, t: Tid, now: nat, snapshot: Snapshot, generation: nat): State
    requires t in s.threads
  {
    if (forall e | e in snapshot.entries :: !e.hasLanguage)
       || (s.warming.Some? && s.warming.value.generation == generation)
    then Goto(s, t, SnapshotReturned(now, snapshot))
    else
      Goto(s, t, Spawning(now, snapshot, generation, s.nextToken)).(
      cancelled := if s.warming.Some? then s.cancelled + {s.warming.value.token} else s.cancelled,
      warming := Some(Warming(generation, s.nextToken)),
      nextToken := s.nextToken + 1)
  }

  /** start_codemap_warming, after it: spawn the registered warmer. */
  function StepSpawn(s: State, t: Tid, now: nat, snapshot: Snapshot, generation: nat, token: Token,
      choice: Choice): Option<State>
    requires t in s.threads
  {
    if choice.child in s.threads then None
    else
      var s' := Goto(s, t, SnapshotReturned(now, snapshot));
      var child := Thread(Warmer(generation, token, snapshot.entries), Next(s), InWarmer(Looping));
      Some(s'.(threads := s'.threads[choice.child := child]))
  }

  function StepMutation(s: State, t: Tid, lastEdit: nat, pc: MutationPc, choice: Choice): Option<State>
    requires t in s.threads
  {
    match pc
    case Mutating => // fail, be done and go on to invalidate, or edit one more path
      if choice.fails then Some(Goto(s, t, Failed))
      else if choice.edit.None? then Some(Goto(s, t, InMutation(lastEdit, Clearing)))
      else
        Some(ApplyEdit(s, choice.edit.value).(
             threads := s.threads[t := s.threads[t].(pc := InMutation(Next(s), Mutating))]))
    case Clearing => // drop the snapshot, under the write lock
      if s.snapshotWriter.Some? then None
      else Some(Goto(s, t, InMutation(lastEdit, Bumping)).(snapshot := None, lastCleared := Next(s)))
    case Bumping =>
      Some(BumpAndGoto(s, t, InMutation(lastEdit, Cancelling)))
    case Cancelling => // take and cancel the registered warmer, under its lock
      Some(Goto(s, t, MutationReturned(lastEdit, Next(s))).(
           cancelled := if s.warming.Some? then s.cancelled + {s.warming.value.token} else s.cancelled,
           warming := None))
  }

  function StepSymbols(s: State, t: Tid, call: Lookup, pc: SymbolsPc, choice: Choice): Option<State>
    requires t in s.threads
  {
    match pc
    case Called => // file_signature
      var read := SignatureAt(s.past, Now(s), call.path);
      if choice.fails || read.None? then Some(Goto(s, t, Failed))
      else Some(Goto(s, t, InSymbols(call, Signed(ReadAt(read.value, Now(s))))))
    case Signed(signature) => // look the path up, under the read lock
      if s.codemapWriter.Some? then None
      else if call.path in s.codemap && s.codemap[call.path].signature == signature.value
      then Some(Goto(s, t, SymbolsReturned(call, Next(s), s.codemap[call.path].symbols)))
      else Some(Goto(s, t, InSymbols(call, NotCached(signature))))
    case NotCached(signature) => // read and parse
      var read := BytesAt(s.past, Now(s), call.path);
      if choice.fails || read.None? then Some(Goto(s, t, Failed))
      else Some(Goto(s, t, InSymbols(call, Checking(signature, ReadAt(read.value, Now(s))))))
    case Checking(signature, bytes) => // first generation check, without the lock
      if GenerationCurrent(s, call.expected) then Some(Goto(s, t, InSymbols(call, Waiting(signature, bytes))))
      else Some(Goto(s, t, SymbolsReturned(call, Next(s), Parsed(call.path, bytes.value))))
    case Waiting(signature, bytes) =>
      if s.codemapWriter.Some? then None
      else Some(Goto(s, t, InSymbols(call, Rechecking(signature, bytes))).(codemapWriter := Some(t)))
    case Rechecking(signature, bytes) => // second generation check, with the lock
      if GenerationCurrent(s, call.expected) then Some(Goto(s, t, InSymbols(call, Inserting(signature, bytes, Now(s)))))
      else
        Some(Goto(s, t, SymbolsReturned(call, Next(s), Parsed(call.path, bytes.value))).(codemapWriter := None))
    case Inserting(signature, bytes, _) =>
      var symbols := Parsed(call.path, bytes.value);
      Some(Goto(s, t, SymbolsReturned(call, Next(s), symbols)).(
           codemap := s.codemap[call.path := CachedSymbols(signature.value, symbols)], codemapWriter := None))
  }

  predicate GenerationCurrent(s: State, expected: Option<nat>) {
    expected.None? || expected.value == Generation(s)
  }

  function StepWarmer(s: State, t: Tid, choice: Choice): Option<State>
    requires t in s.threads
  {
    var thread := s.threads[t];
    if thread.role.Caller? then None
    else
      var Warmer(generation, token, todo) := thread.role;
      if thread.pc == InWarmer(Looping) then
        Some(Goto(s, t, InWarmer(if todo == [] || token in s.cancelled then Finishing else NotCancelled)))
      else if thread.pc == InWarmer(NotCancelled) then
        // the generation check; then skip the entry or look its symbols up
        if todo == [] || Generation(s) != generation then Some(Goto(s, t, InWarmer(Finishing)))
        else
          var thread' := thread.(
                         role := Warmer(generation, token, todo[1..]),
                         pc := if !todo[0].hasLanguage || choice.fails then InWarmer(Looping)
                               else InSymbols(Lookup(todo[0].path, Next(s), Some(generation)), Called));
          Some(Stay(s).(threads := s.threads[t := thread']))
      else if thread.pc == InWarmer(Finishing) then // deregister, under the warming lock
        Some(Goto(s, t, WarmerExited).(
             warming := if s.warming.Some? && s.warming.value.generation == generation then None else s.warming))
      else if thread.pc.SymbolsReturned? || thread.pc.Failed? then // parsed, or unreadable: on to the next entry
        Some(Goto(s, t, InWarmer(Looping)))
      else None
  }

  // ----- runs -----

  /** The state after the actions, if every one of them was possible. */
  function Run(ttl: nat, files: Files, actions: seq<Action>): Option<State> {
    if actions == [] then Some(Initial(files))
    else
      match Run(ttl, files, actions[..|actions| - 1])
      case None => None
      case Some(s) => Step(ttl, s, actions[|actions| - 1])
  }

  ghost predicate Reachable(ttl: nat, files: Files, s: State) {
    exists actions :: Run(ttl, files, actions) == Some(s)
  }

  lemma ReachableStep(ttl: nat, files: Files, s: State, a: Action, s': State)
    requires Reachable(ttl, files, s) && Step(ttl, s, a) == Some(s')
    ensures Reachable(ttl, files, s')
  {
    var actions :| Run(ttl, files, actions) == Some(s);
    assert (actions + [a])[..|actions|] == actions;
    assert Run(ttl, files, actions + [a]) == Some(s');
  }

  predicate StepsTo(ttl: nat, s: State, a: Action, s': State) { Step(ttl, s, a) == Some(s') }

  /** The states a run goes through. */
  ghost predicate IsRun(ttl: nat, files: Files, actions: seq<Action>, states: seq<State>) {
    && |states| == |actions| + 1 && states[0] == Initial(files)
    && forall i {:trigger actions[i]} :: 0 <= i < |actions| ==> StepsTo(ttl, states[i], actions[i], states[i + 1])
  }

  lemma {:induction false} RunOfStates(ttl: nat, files: Files, actions: seq<Action>, states: seq<State>)
    requires IsRun(ttl, files, actions, states)
    ensures Run(ttl, files, actions) == Some(states[|actions|])
    decreases |actions|
  {
    if actions != [] {
      var n := |actions| - 1;
      assert forall i :: 0 <= i < n ==> actions[..n][i] == actions[i];
      RunOfStates(ttl, files, actions[..n], states[..n + 1]);
      assert StepsTo(ttl, states[n], actions[n], states[n + 1]);
    }
  }

  lemma IsRunSnoc(ttl: nat, files: Files, actions: seq<Action>, states: seq<State>, a: Action, s': State)
    requires IsRun(ttl, files, actions, states) && StepsTo(ttl, states[|actions|], a, s')
    ensures IsRun(ttl, files, actions + [a], states + [s'])
  {
    var actions' := actions + [a];
    forall i {:trigger actions'[i]} | 0 <= i < |actions'|
      ensures StepsTo(ttl, (states + [s'])[i], actions'[i], (states + [s'])[i + 1])
    {
      assert i < |actions| ==> actions'[i] == actions[i];
    }
  }
}
