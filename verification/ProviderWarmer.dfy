/** Background warmers: a warmer that runs uncancelled is the registered one, so there is at most one. */
module ProviderWarmer {
  import opened Common
  import opened Provider

  /** The generation a thread's snapshot or warmer was given; no two threads have the same. */
  function GenerationOf(thread: Thread): Option<nat> {
    match thread.pc
    case InSnapshot(Bumped(_, _, generation)) => Some(generation)
    case Registering(_, _, generation) => Some(generation)
    case Spawning(_, _, generation, _) => Some(generation)
    case _ => if thread.role.Warmer? then Some(thread.role.generation) else None
  }

  /** The registration of a warmer that is about to be spawned, or has been and has not deregistered. */
  function Registration(thread: Thread): Option<Warming> {
    if thread.pc.Spawning? then Some(Warming(thread.pc.generation, thread.pc.token))
    else if thread.role.Warmer? && !thread.pc.WarmerExited?
    then Some(Warming(thread.role.generation, thread.role.token))
    else None
  }

  predicate WarmerPcOk(thread: Thread) {
    thread.role.Warmer? ==>
      !thread.pc.InSnapshot? && !thread.pc.Registering? && !thread.pc.Spawning? && !thread.pc.InMutation?
  }

  /** Tokens and generations in use were handed out; an uncancelled registration is the current one. */
  predicate ThreadOk(s: State, t: Tid)
    requires t in s.threads
  {
    var thread := s.threads[t];
    && WarmerPcOk(thread)
    && (GenerationOf(thread).Some? ==> GenerationOf(thread).value <= Generation(s))
    && (Registration(thread).Some? ==>
          && Registration(thread).value.token < s.nextToken
          && (Registration(thread).value.token in s.cancelled || s.warming == Registration(thread)))
  }

  ghost predicate SlotOk(s: State) {
    && (forall token :: token in s.cancelled ==> token < s.nextToken)
    && (s.warming.Some? ==>
          && s.warming.value.token !in s.cancelled
          && s.warming.value.token < s.nextToken
          && exists t :: t in s.threads && Registration(s.threads[t]) == s.warming)
  }

  ghost predicate GenerationsUnique(s: State) {
    forall t, u | t in s.threads && u in s.threads && GenerationOf(s.threads[t]).Some? ::
      GenerationOf(s.threads[t]) == GenerationOf(s.threads[u]) ==> t == u
  }

  ghost predicate WarmerInv(s: State) {
    && SlotOk(s)
    && GenerationsUnique(s)
    && (forall t :: t in s.threads ==> ThreadOk(s, t))
  }

  // ----- steps that leave registrations alone -----

  /** The step of t changes neither the slot, nor cancellations, nor t's generation and registration. */
  ghost predicate LeavesWarmersAlone(s: State, s': State, t: Tid) {
    && s'.warming == s.warming && s'.cancelled == s.cancelled && s'.nextToken == s.nextToken
    && Generation(s) <= Generation(s')
    && t in s'.threads && s'.threads == s.threads[t := s'.threads[t]]
    && WarmerPcOk(s'.threads[t])
    && (if t in s.threads
        then GenerationOf(s'.threads[t]) in {GenerationOf(s.threads[t]), None}
             && Registration(s'.threads[t]) == Registration(s.threads[t])
        else GenerationOf(s'.threads[t]) == None && Registration(s'.threads[t]) == None)
  }

  lemma AloneKeeps(s: State, s': State, t: Tid)
    requires WarmerInv(s) && LeavesWarmersAlone(s, s', t)
    ensures WarmerInv(s')
  {
    forall u | u in s'.threads ensures ThreadOk(s', u) {
      if u in s.threads {
        assert ThreadOk(s, u);
      }
    }
    if s'.warming.Some? {
      var u :| u in s.threads && Registration(s.threads[u]) == s.warming;
      assert u in s'.threads && Registration(s'.threads[u]) == s'.warming;
    }
    forall u, v | u in s'.threads && v in s'.threads && GenerationOf(s'.threads[u]).Some?
                  && GenerationOf(s'.threads[u]) == GenerationOf(s'.threads[v])
      ensures u == v
    {
      assert u in s.threads && v in s.threads;
    }
  }

  lemma SymbolsStep(s: State, t: Tid, call: Lookup, pc: SymbolsPc, choice: Choice, s': State)
    requires t in s.threads && s.threads[t].pc == InSymbols(call, pc)
    requires StepSymbols(s, t, call, pc, choice) == Some(s')
    ensures LeavesWarmersAlone(s, s', t)
  {
  }

  lemma SnapshotStep(ttl: nat, s: State, t: Tid, pc: SnapshotPc, choice: Choice, s': State)
    requires t in s.threads && s.threads[t].pc == InSnapshot(pc) && !pc.Scanned? && WarmerPcOk(s.threads[t])
    requires StepSnapshot(ttl, s, t, pc, choice) == Some(s')
    ensures LeavesWarmersAlone(s, s', t)
  {
  }

  lemma MutationStep(s: State, t: Tid, lastEdit: nat, pc: MutationPc, choice: Choice, s': State)
    requires t in s.threads && s.threads[t].pc == InMutation(lastEdit, pc)
    requires !pc.Cancelling? && WarmerPcOk(s.threads[t])
    requires StepMutation(s, t, lastEdit, pc, choice) == Some(s')
    ensures LeavesWarmersAlone(s, s', t)
  {
  }

  lemma WarmerStep(s: State, t: Tid, choice: Choice, s': State)
    requires t in s.threads && s.threads[t].pc != InWarmer(Finishing) && WarmerPcOk(s.threads[t])
    requires StepWarmer(s, t, choice) == Some(s')
    ensures LeavesWarmersAlone(s, s', t)
  {
  }

  // ----- steps that do not -----

  /** The scan is done: the snapshot gets a generation nothing else has. */
  lemma BumpStep(ttl: nat, s: State, t: Tid, pc: SnapshotPc, choice: Choice, s': State)
    requires WarmerInv(s) && t in s.threads && s.threads[t].pc == InSnapshot(pc) && pc.Scanned?
    requires StepSnapshot(ttl, s, t, pc, choice) == Some(s')
    ensures WarmerInv(s')
  {
    assert ThreadOk(s, t);
    assert Generation(s') == Generation(s) + 1;
    forall u | u in s'.threads ensures ThreadOk(s', u) {
      assert ThreadOk(s, u);
    }
    if s'.warming.Some? {
      var u :| u in s.threads && Registration(s.threads[u]) == s.warming;
      assert Registration(s'.threads[u]) == s'.warming;
    }
  }

  /** Registration: the previous warmer, if any, is cancelled, and the new one is registered. */
  lemma RegisterStep(s: State, t: Tid, now: nat, snapshot: Snapshot, generation: nat, s': State)
    requires WarmerInv(s) && t in s.threads && s.threads[t].pc == Registering(now, snapshot, generation)
    requires StepRegister(s, t, now, snapshot, generation) == s'
    ensures WarmerInv(s')
  {
    assert ThreadOk(s, t);
    if s'.threads[t].pc.Spawning? {
      NewRegistration(s, t, now, snapshot, generation, s');
    } else {
      AloneKeeps(s, s', t);
    }
  }

  lemma NewRegistration(s: State, t: Tid, now: nat, snapshot: Snapshot, generation: nat, s': State)
    requires WarmerInv(s) && t in s.threads && s.threads[t].pc == Registering(now, snapshot, generation)
    requires StepRegister(s, t, now, snapshot, generation) == s' && s'.threads[t].pc.Spawning?
    ensures WarmerInv(s')
  {
    var token := s.nextToken;
    assert Registration(s'.threads[t]) == Some(Warming(generation, token)) == s'.warming;
    assert s'.threads == s.threads[t := s'.threads[t]] && Generation(s') == Generation(s);
    assert GenerationOf(s'.threads[t]) == GenerationOf(s.threads[t]) == Some(generation);
    forall u | u in s'.threads ensures ThreadOk(s', u) {
      assert ThreadOk(s, u);
    }
  }

  /** t's generation and registration are now those of a new thread. */
  ghost predicate HandedOver(s: State, s': State, t: Tid, child: Tid) {
    && s'.warming == s.warming && s'.cancelled == s.cancelled && s'.nextToken == s.nextToken
    && Generation(s') == Generation(s)
    && t in s.threads && child !in s.threads && t in s'.threads && child in s'.threads
    && s'.threads.Keys == s.threads.Keys + {child}
    && (forall u :: u in s.threads && u != t ==> s'.threads[u] == s.threads[u])
    && GenerationOf(s'.threads[child]) == GenerationOf(s.threads[t])
    && Registration(s'.threads[child]) == Registration(s.threads[t])
    && GenerationOf(s'.threads[t]) == None && Registration(s'.threads[t]) == None
    && WarmerPcOk(s'.threads[t]) && WarmerPcOk(s'.threads[child])
  }

  lemma HandOverUnique(s: State, s': State, t: Tid, child: Tid)
    requires GenerationsUnique(s) && HandedOver(s, s', t, child)
    ensures GenerationsUnique(s')
  {
    forall u, v | u in s'.threads && v in s'.threads && GenerationOf(s'.threads[u]).Some?
                  && GenerationOf(s'.threads[u]) == GenerationOf(s'.threads[v])
      ensures u == v
    {
      var u', v' := if u == child then t else u, if v == child then t else v;
      assert GenerationOf(s.threads[u']) == GenerationOf(s.threads[v']);
    }
  }

  lemma HandOverKeeps(s: State, s': State, t: Tid, child: Tid)
    requires WarmerInv(s) && HandedOver(s, s', t, child)
    ensures WarmerInv(s')
  {
    HandOverUnique(s, s', t, child);
    assert ThreadOk(s, t);
    forall u | u in s'.threads ensures ThreadOk(s', u) {
      if u in s.threads {
        assert ThreadOk(s, u);
      }
    }
    if s'.warming.Some? {
      var u :| u in s.threads && Registration(s.threads[u]) == s.warming;
      assert Registration(s'.threads[if u == t then child else u]) == s'.warming;
    }
  }

  /** Spawning hands generation and registration over to the new thread. */
  lemma SpawnStep(s: State, t: Tid, now: nat, snapshot: Snapshot, generation: nat, token: Token, choice: Choice,
                  s': State)
    requires WarmerInv(s) && t in s.threads && s.threads[t].pc == Spawning(now, snapshot, generation, token)
    requires StepSpawn(s, t, now, snapshot, generation, token, choice) == Some(s')
    ensures WarmerInv(s')
  {
    assert ThreadOk(s, t);
    assert HandedOver(s, s', t, choice.child);
    HandOverKeeps(s, s', t, choice.child);
  }

  lemma CancelStep(s: State, t: Tid, lastEdit: nat, choice: Choice, s': State)
    requires WarmerInv(s) && t in s.threads && s.threads[t].pc == InMutation(lastEdit, Cancelling)
    requires StepMutation(s, t, lastEdit, Cancelling, choice) == Some(s')
    ensures WarmerInv(s')
  {
    forall u | u in s'.threads ensures ThreadOk(s', u) {
      assert ThreadOk(s, u);
    }
  }

  /** The slot is t's if it has t's generation. */
  lemma SlotIsOwn(s: State, t: Tid)
    requires WarmerInv(s) && t in s.threads && GenerationOf(s.threads[t]).Some? && s.warming.Some?
    requires GenerationOf(s.threads[t]) == Some(s.warming.value.generation)
    ensures s.warming == Registration(s.threads[t])
    ensures forall u :: u in s.threads && u != t ==> s.warming != Registration(s.threads[u])
  {
    var u :| u in s.threads && Registration(s.threads[u]) == s.warming;
    assert GenerationOf(s.threads[u]) == Some(s.warming.value.generation);
    assert u == t;
    forall v | v in s.threads && s.warming == Registration(s.threads[v]) ensures v == t {
      assert GenerationOf(s.threads[v]) == Some(s.warming.value.generation);
    }
  }

  /** Deregistration never removes another warmer: the slot's generation is the warmer's own only if
      the slot is the warmer's own. */
  lemma DeregisterStep(s: State, t: Tid, choice: Choice, s': State)
    requires WarmerInv(s) && t in s.threads && s.threads[t].pc == InWarmer(Finishing)
    requires StepWarmer(s, t, choice) == Some(s')
    ensures WarmerInv(s')
  {
    assert ThreadOk(s, t);
    var own := s.threads[t].role.generation;
    assert GenerationOf(s.threads[t]) == Some(own);
    if s.warming.Some? && s.warming.value.generation == own {
      SlotIsOwn(s, t);
    } else if s.warming.Some? {
      var u :| u in s.threads && Registration(s.threads[u]) == s.warming;
      assert Registration(s'.threads[u]) == s'.warming;
    }
    forall u | u in s'.threads ensures ThreadOk(s', u) {
      assert ThreadOk(s, u);
    }
  }

  // ----- every run -----

  lemma AnyStep(ttl: nat, s: State, a: Action)
    requires WarmerInv(s) && Step(ttl, s, a).Some?
    ensures WarmerInv(Step(ttl, s, a).value)
  {
    var s' := Step(ttl, s, a).value;
    match a
    case Invoke(t, op) => AloneKeeps(s, s', t);
    case Advance(t, choice) =>
      assert ThreadOk(s, t);
      AdvanceStep(ttl, s, t, choice, s');
    case _ => WorldStep(s, s');
  }

  lemma AdvanceStep(ttl: nat, s: State, t: Tid, choice: Choice, s': State)
    requires WarmerInv(s) && t in s.threads && ThreadOk(s, t) && Step(ttl, s, Advance(t, choice)) == Some(s')
    ensures WarmerInv(s')
  {
    match s.threads[t].pc {
      case InSnapshot(pc) =>
        if pc.Scanned? {
          BumpStep(ttl, s, t, pc, choice, s');
        } else {
          SnapshotStep(ttl, s, t, pc, choice, s');
          AloneKeeps(s, s', t);
        }
      case Registering(now, snapshot, generation) =>
        RegisterStep(s, t, now, snapshot, generation, s');
      case Spawning(now, snapshot, generation, token) =>
        SpawnStep(s, t, now, snapshot, generation, token, choice, s');
      case InMutation(lastEdit, pc) =>
        if pc.Cancelling? {
          CancelStep(s, t, lastEdit, choice, s');
        } else {
          MutationStep(s, t, lastEdit, pc, choice, s');
          AloneKeeps(s, s', t);
        }
      case InSymbols(call, pc) =>
        SymbolsStep(s, t, call, pc, choice, s');
        AloneKeeps(s, s', t);
      case InWarmer(Finishing) =>
        DeregisterStep(s, t, choice, s');
      case _ =>
        WarmerStep(s, t, choice, s');
        AloneKeeps(s, s', t);
    }
  }

  lemma WorldStep(s: State, s': State)
    requires WarmerInv(s)
    requires s' == s.(past := s'.past, clock := s'.clock) && Generation(s') == Generation(s)
    ensures WarmerInv(s')
  {
    forall t | t in s'.threads ensures ThreadOk(s', t) {
      assert ThreadOk(s, t);
    }
  }

  lemma {:induction false} AlwaysWarmerInv(ttl: nat, files: Files, actions: seq<Action>)
    ensures Run(ttl, files, actions).Some? ==> WarmerInv(Run(ttl, files, actions).value)
    decreases |actions|
  {
    if actions != [] {
      var n := |actions| - 1;
      AlwaysWarmerInv(ttl, files, actions[..n]);
      if Run(ttl, files, actions).Some? {
        AnyStep(ttl, Run(ttl, files, actions[..n]).value, actions[n]);
      }
    }
  }

  predicate RunningUncancelled(s: State, t: Tid) {
    t in s.threads && s.threads[t].role.Warmer? && !s.threads[t].pc.WarmerExited?
    && s.threads[t].role.token !in s.cancelled
  }

  /** In every run, a warmer that runs and is not cancelled is the registered one, and the only one. */
  lemma RunningWarmerIsRegistered(ttl: nat, files: Files, actions: seq<Action>, t: Tid)
    requires Run(ttl, files, actions).Some? && RunningUncancelled(Run(ttl, files, actions).value, t)
    ensures
      var s := Run(ttl, files, actions).value;
      && s.warming == Some(Warming(s.threads[t].role.generation, s.threads[t].role.token))
      && forall u :: RunningUncancelled(s, u) ==> u == t
  {
    AlwaysWarmerInv(ttl, files, actions);
    var s := Run(ttl, files, actions).value;
    assert ThreadOk(s, t);
    forall u | RunningUncancelled(s, u) ensures u == t {
      assert ThreadOk(s, u);
      assert GenerationOf(s.threads[u]) == GenerationOf(s.threads[t]);
    }
  }
}
