/** When an insertion into the codemap is stale: exactly when the generation moved after the check under the lock. */
module ProviderGenerations {
  import opened Common
  import opened Provider

  /** The steps that bump the generation: an invalidation's, and that of a scan about to be stored. */
  predicate Bumps(s: State, a: Action) {
    && a.Advance? && a.t in s.threads
    && var pc := s.threads[a.t].pc;
       || (pc.InMutation? && pc.mutation.Bumping?)
       || (pc.InSnapshot? && pc.snap.Scanned?)
  }

  lemma SnapshotStepGeneration(ttl: nat, s: State, t: Tid, pc: SnapshotPc, choice: Choice, s': State)
    requires t in s.threads && StepSnapshot(ttl, s, t, pc, choice) == Some(s')
    ensures |s'.past| == |s.past| + 1 && s'.past[..|s.past|] == s.past
    ensures Generation(s') == Generation(s) + if pc.Scanned? then 1 else 0
  {
  }

  lemma MutationStepGeneration(s: State, t: Tid, lastEdit: nat, pc: MutationPc, choice: Choice, s': State)
    requires t in s.threads && StepMutation(s, t, lastEdit, pc, choice) == Some(s')
    ensures |s'.past| == |s.past| + 1 && s'.past[..|s.past|] == s.past
    ensures Generation(s') == Generation(s) + if pc.Bumping? then 1 else 0
  {
  }

  lemma SymbolsStepGeneration(s: State, t: Tid, call: Lookup, pc: SymbolsPc, choice: Choice, s': State)
    requires t in s.threads && StepSymbols(s, t, call, pc, choice) == Some(s')
    ensures |s'.past| == |s.past| + 1 && s'.past[..|s.past|] == s.past && Generation(s') == Generation(s)
  {
  }

  lemma WarmerStepGeneration(s: State, t: Tid, choice: Choice, s': State)
    requires t in s.threads && StepWarmer(s, t, choice) == Some(s')
    ensures |s'.past| == |s.past| + 1 && s'.past[..|s.past|] == s.past && Generation(s') == Generation(s)
  {
  }

  /** Every step adds one instant, and one to the generation if it is one of those. */
  lemma StepGeneration(ttl: nat, s: State, a: Action, s': State)
    requires Step(ttl, s, a) == Some(s')
    ensures |s'.past| == |s.past| + 1 && s'.past[..|s.past|] == s.past
    ensures Generation(s') == Generation(s) + if Bumps(s, a) then 1 else 0
  {
    if a.Advance? {
      match s.threads[a.t].pc
      case InSnapshot(pc) => SnapshotStepGeneration(ttl, s, a.t, pc, a.choice, s');
      case InMutation(lastEdit, pc) => MutationStepGeneration(s, a.t, lastEdit, pc, a.choice, s');
      case InSymbols(call, pc) => SymbolsStepGeneration(s, a.t, call, pc, a.choice, s');
      case Registering(_, _, _) =>
      case Spawning(_, _, _, _) =>
      case _ => WarmerStepGeneration(s, a.t, a.choice, s');
    }
  }

  // ----- the generation over a run -----

  /** A run has an instant for each action and one before them, and its past only grows. */
  lemma {:induction false} PastLength(ttl: nat, files: Files, actions: seq<Action>, states: seq<State>, n: nat)
    requires IsRun(ttl, files, actions, states) && n <= |actions|
    ensures |states[n].past| == n + 1
  {
    if n > 0 {
      PastLength(ttl, files, actions, states, n - 1);
      assert StepsTo(ttl, states[n - 1], actions[n - 1], states[n]);
      StepGeneration(ttl, states[n - 1], actions[n - 1], states[n]);
    }
  }

  /** From instant c on, some action of the run up to the n-th has bumped the generation. */
  ghost predicate Bumped(actions: seq<Action>, states: seq<State>, c: nat, n: nat)
    requires n <= |actions| < |states|
  {
    exists i {:trigger actions[i]} :: c <= i < n && Bumps(states[i], actions[i])
  }

  /** The generation is what it was at an instant exactly when no action since bumped it; it never falls. */
  lemma {:induction false} GenerationMoves(
    ttl: nat, files: Files, actions: seq<Action>, states: seq<State>, c: nat, n: nat)
    requires IsRun(ttl, files, actions, states) && c <= n <= |actions|
    ensures c < |states[n].past| && states[n].past[c].generation <= Generation(states[n])
    ensures states[n].past[c].generation != Generation(states[n]) <==> Bumped(actions, states, c, n)
  {
    PastLength(ttl, files, actions, states, n);
    if c < n {
      var s, a, s' := states[n - 1], actions[n - 1], states[n];
      assert StepsTo(ttl, s, a, s');
      GenerationMoves(ttl, files, actions, states, c, n - 1);
      StepGeneration(ttl, s, a, s');
      assert s'.past[c] == s'.past[..|s.past|][c];
    }
  }

  // ----- what a thread about to insert has checked -----

  /** A thread about to insert found its generation current at the instant of its check; a warmer insists on
      its own generation. */
  ghost predicate Checked(past: Past, thread: Thread) {
    && (thread.role.Warmer? && thread.pc.InSymbols? ==> thread.pc.call.expected == Some(thread.role.generation))
    && (thread.pc.InSymbols? && thread.pc.sym.Inserting? ==>
          && thread.pc.sym.checkedAt < |past|
          && (thread.pc.call.expected.Some? ==>
                past[thread.pc.sym.checkedAt].generation == thread.pc.call.expected.value))
    && (thread.role.Warmer? ==>
          !thread.pc.InSnapshot? && !thread.pc.Registering? && !thread.pc.Spawning? && !thread.pc.InMutation?)
  }

  ghost predicate CheckedInv(s: State) {
    forall t :: t in s.threads ==> Checked(s.past, s.threads[t])
  }

  lemma CheckedKept(past: Past, past': Past, thread: Thread)
    requires Checked(past, thread) && |past| <= |past'| && past'[..|past|] == past
    ensures Checked(past', thread)
  {
    if thread.pc.InSymbols? && thread.pc.sym.Inserting? {
      assert past'[..|past|][thread.pc.sym.checkedAt] == past[thread.pc.sym.checkedAt];
    }
  }

  /** What a step makes of the threads: others stay, and the one that moves, or is new, has checked. */
  ghost predicate MovesChecked(s: State, s': State) {
    forall u :: u in s'.threads ==>
      (u in s.threads && s'.threads[u] == s.threads[u]) || Checked(s'.past, s'.threads[u])
  }

  lemma LookupChecked(s: State, t: Tid, call: Lookup, pc: SymbolsPc, choice: Choice, s': State)
    requires t in s.threads && s.threads[t].pc == InSymbols(call, pc) && Checked(s.past, s.threads[t])
    requires pc.Called? || pc.Signed? || pc.NotCached?
    requires StepSymbols(s, t, call, pc, choice) == Some(s')
    ensures MovesChecked(s, s')
  {
  }

  lemma RecheckChecked(s: State, t: Tid, call: Lookup, pc: SymbolsPc, choice: Choice, s': State)
    requires t in s.threads && s.threads[t].pc == InSymbols(call, pc) && Checked(s.past, s.threads[t])
    requires !pc.Called? && !pc.Signed? && !pc.NotCached?
    requires StepSymbols(s, t, call, pc, choice) == Some(s')
    ensures MovesChecked(s, s')
  {
  }

  lemma SymbolsStepChecked(s: State, t: Tid, call: Lookup, pc: SymbolsPc, choice: Choice, s': State)
    requires t in s.threads && s.threads[t].pc == InSymbols(call, pc) && Checked(s.past, s.threads[t])
    requires StepSymbols(s, t, call, pc, choice) == Some(s')
    ensures MovesChecked(s, s')
  {
    if pc.Called? || pc.Signed? || pc.NotCached? {
      LookupChecked(s, t, call, pc, choice, s');
    } else {
      RecheckChecked(s, t, call, pc, choice, s');
    }
  }

  lemma SnapshotStepChecked(ttl: nat, s: State, t: Tid, pc: SnapshotPc, choice: Choice, s': State)
    requires t in s.threads && s.threads[t].pc == InSnapshot(pc) && Checked(s.past, s.threads[t])
    requires StepSnapshot(ttl, s, t, pc, choice) == Some(s')
    ensures MovesChecked(s, s')
  {
  }

  lemma MutationStepChecked(s: State, t: Tid, lastEdit: nat, pc: MutationPc, choice: Choice, s': State)
    requires t in s.threads && s.threads[t].pc == InMutation(lastEdit, pc) && Checked(s.past, s.threads[t])
    requires StepMutation(s, t, lastEdit, pc, choice) == Some(s')
    ensures MovesChecked(s, s')
  {
  }

  lemma WarmerStepChecked(s: State, t: Tid, choice: Choice, s': State)
    requires t in s.threads && Checked(s.past, s.threads[t])
    requires StepWarmer(s, t, choice) == Some(s')
    ensures MovesChecked(s, s')
  {
  }

  lemma StepChecked(ttl: nat, s: State, a: Action, s': State)
    requires CheckedInv(s) && Step(ttl, s, a) == Some(s')
    ensures MovesChecked(s, s')
  {
    if a.Advance? {
      assert Checked(s.past, s.threads[a.t]);
      match s.threads[a.t].pc
      case InSnapshot(pc) => SnapshotStepChecked(ttl, s, a.t, pc, a.choice, s');
      case InMutation(lastEdit, pc) => MutationStepChecked(s, a.t, lastEdit, pc, a.choice, s');
      case InSymbols(call, pc) => SymbolsStepChecked(s, a.t, call, pc, a.choice, s');
      case Registering(_, _, _) =>
      case Spawning(_, _, _, _) =>
      case _ => WarmerStepChecked(s, a.t, a.choice, s');
    }
  }

  lemma {:induction false} AlwaysChecked(ttl: nat, files: Files, actions: seq<Action>, states: seq<State>, n: nat)
    requires IsRun(ttl, files, actions, states) && n <= |actions|
    ensures CheckedInv(states[n])
  {
    if n > 0 {
      assert StepsTo(ttl, states[n - 1], actions[n - 1], states[n]);
      AlwaysChecked(ttl, files, actions, states, n - 1);
      StepKeepsChecked(ttl, states[n - 1], actions[n - 1], states[n]);
    }
  }

  lemma StepKeepsChecked(ttl: nat, s: State, a: Action, s': State)
    requires CheckedInv(s) && Step(ttl, s, a) == Some(s')
    ensures CheckedInv(s')
  {
    StepGeneration(ttl, s, a, s');
    StepChecked(ttl, s, a, s');
    forall t | t in s'.threads ensures Checked(s'.past, s'.threads[t]) {
      if t in s.threads && s'.threads[t] == s.threads[t] {
        CheckedKept(s.past, s'.past, s.threads[t]);
      }
    }
  }

  /** In every run a thread about to insert, and insisting on a generation, had it current at the instant of
      its check under the lock; its insertion now is stale exactly when an action since then bumped the
      generation. */
  lemma InsertionStaleIff(
    ttl: nat, files: Files, actions: seq<Action>, states: seq<State>, s: State, t: Tid, generation: nat, c: nat)
    requires IsRun(ttl, files, actions, states) && s == states[|actions|] && t in s.threads
    requires s.threads[t].pc.InSymbols? && s.threads[t].pc.sym.Inserting? && s.threads[t].pc.sym.checkedAt == c
    requires s.threads[t].pc.call.expected == Some(generation)
    ensures c < |s.past| == |actions| + 1 && s.past[c].generation == generation <= Generation(s)
    ensures generation < Generation(s) <==> Bumped(actions, states, c, |actions|)
  {
    AlwaysChecked(ttl, files, actions, states, |actions|);
    assert Checked(s.past, s.threads[t]);
    PastLength(ttl, files, actions, states, |actions|);
    GenerationMoves(ttl, files, actions, states, c, |actions|);
  }

  /** So it is with every warmer and its own generation. */
  lemma WarmerInsertionStaleIff(
    ttl: nat, files: Files, actions: seq<Action>, states: seq<State>, s: State, t: Tid, c: nat)
    requires IsRun(ttl, files, actions, states) && s == states[|actions|] && t in s.threads && s.threads[t].role.Warmer?
    requires s.threads[t].pc.InSymbols? && s.threads[t].pc.sym.Inserting? && s.threads[t].pc.sym.checkedAt == c
    ensures c < |s.past| == |actions| + 1 && s.past[c].generation == s.threads[t].role.generation
    ensures s.threads[t].role.generation < Generation(s) <==> Bumped(actions, states, c, |actions|)
  {
    AlwaysChecked(ttl, files, actions, states, |actions|);
    assert Checked(s.past, s.threads[t]);
    InsertionStaleIff(ttl, files, actions, states, s, t, s.threads[t].role.generation, c);
  }
}
