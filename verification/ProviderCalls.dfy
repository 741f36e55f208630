/**
 Calls of `code_symbols_for_path`, in terms of the steps of a run alone: what a call returns, and when the parse cache
 serves it.
 */
module ProviderCalls {
  import opened Common
  import opened Provider
  import opened ProviderCodemap
  import opened ProviderScans

  function FilesAt(states: seq<State>, k: nat): Files
    requires k < |states|
  {
    Current(states[k].past).files
  }

  // ----- one step -----

  predicate InSymbolsAt(states: seq<State>, i: nat, t: Tid) {
    i < |states| && t in states[i].threads && states[i].threads[t].pc.InSymbols?
  }

  /** At step k thread u inserts what it has parsed of p. */
  predicate InsertsAt(actions: seq<Action>, states: seq<State>, k: nat, u: Tid, p: Path) {
    && Advances(actions, k, u) && InSymbolsAt(states, k, u)
    && states[k].threads[u].pc.call.path == p && states[k].threads[u].pc.sym.Inserting?
  }

  predicate IsInserting(pc: Pc, p: Path) { pc.InSymbols? && pc.call.path == p && pc.sym.Inserting? }

  /** The thread has this lookup under way, or has returned from it, or has failed. */
  predicate OnCall(thread: Thread, call: Lookup) {
    && thread.role.Caller?
    && match thread.pc
       case InSymbols(c, _) => c == call
       case SymbolsReturned(c, _, _) => c == call
       case Failed => true
       case _ => false
  }

  lemma SymbolsKeepCall(ttl: nat, s: State, t: Tid, call: Lookup, choice: Choice, s': State)
    requires t in s.threads && OnCall(s.threads[t], call) && Step(ttl, s, Advance(t, choice)) == Some(s')
    ensures t in s'.threads && OnCall(s'.threads[t], call)
  {
  }

  /** The cache of a path changes only when a parse of it is inserted. */
  lemma CodemapMoves(ttl: nat, s: State, t: Tid, choice: Choice, s': State, p: Path)
    requires Step(ttl, s, Advance(t, choice)) == Some(s')
    ensures
      var pc := s.threads[t].pc;
      if IsInserting(pc, p)
      then Get(s'.codemap, p) == Some(CachedSymbols(pc.sym.signature.value, Parsed(p, pc.sym.bytes.value)))
      else Get(s'.codemap, p) == Get(s.codemap, p)
  {
    assert t in s.threads;
    match s.threads[t].pc
    case InSymbols(call, pc) =>
    case _ =>
      if !s.threads[t].pc.InSymbols? {
        OtherStepsShape(ttl, s, Advance(t, choice), s');
      }
  }

  lemma SymbolsTakeTime(s: State, t: Tid, call: Lookup, pc: SymbolsPc, choice: Choice, s': State)
    requires t in s.threads && StepSymbols(s, t, call, pc, choice) == Some(s')
    ensures s'.past == s.past + [Current(s'.past)]
  {
  }

  lemma PastGrowsByOne(ttl: nat, s: State, a: Action, s': State)
    requires StepsTo(ttl, s, a, s')
    ensures s'.past == s.past + [Current(s'.past)]
  {
    if a.Advance? && s.threads[a.t].pc.InSymbols? {
      SymbolsTakeTime(s, a.t, s.threads[a.t].pc.call, s.threads[a.t].pc.sym, a.choice, s');
    } else {
      OtherStepsShape(ttl, s, a, s');
    }
  }

  // ----- runs -----

  lemma {:induction false} PastIsStates(ttl: nat, files: Files, actions: seq<Action>, states: seq<State>, n: nat)
    requires IsRun(ttl, files, actions, states) && n <= |actions|
    ensures |states[n].past| == n + 1
    ensures forall k: nat :: k <= n ==> states[n].past[k].files == FilesAt(states, k)
  {
    if n > 0 {
      PastIsStates(ttl, files, actions, states, n - 1);
      PastGrowsByOne(ttl, states[n - 1], actions[n - 1], states[n]);
    }
  }

  lemma CodemapOfRun(ttl: nat, files: Files, actions: seq<Action>, states: seq<State>, n: nat)
    requires IsRun(ttl, files, actions, states) && n <= |actions|
    ensures CodemapInv(states[n])
  {
    RunUpTo(ttl, files, actions, states, n);
    RunOfStates(ttl, files, actions[..n], states[..n + 1]);
    AlwaysCodemapInv(ttl, files, actions[..n]);
  }

  lemma {:induction false} CallIsInvoked(ttl: nat, files: Files, actions: seq<Action>, states: seq<State>, i: nat,
                                         n: nat, t: Tid, p: Path)
    requires IsRun(ttl, files, actions, states) && i < n <= |actions| && actions[i] == Invoke(t, CallSymbols(p))
    ensures t in states[n].threads && OnCall(states[n].threads[t], Lookup(p, i + 1, None))
    decreases n
  {
    PastIsStates(ttl, files, actions, states, n - 1);
    assert StepsTo(ttl, states[n - 1], actions[n - 1], states[n]);
    if i < n - 1 {
      CallIsInvoked(ttl, files, actions, states, i, n - 1, t, p);
      StepMoves(ttl, states[n - 1], actions[n - 1], states[n]);
      if actions[n - 1].Advance? && actions[n - 1].t == t {
        SymbolsKeepCall(ttl, states[n - 1], t, Lookup(p, i + 1, None), actions[n - 1].choice, states[n]);
      }
    }
  }

  /** Up to step n, when the path's signature is again what it was, the content is what it was at any time since. */
  ghost predicate SignaturesTell(states: seq<State>, n: nat, p: Path)
    requires n < |states|
  {
    forall i: nat, j: nat, k: nat :: i <= j <= k <= n ==> TellsAt(states, i, j, k, p)
  }

  predicate TellsAt(states: seq<State>, i: nat, j: nat, k: nat, p: Path)
    requires i < |states| && j < |states| && k < |states|
  {
    var first, mid, last := FilesAt(states, i), FilesAt(states, j), FilesAt(states, k);
    p in first && p in mid && p in last && first[p].signature == last[p].signature ==> mid[p].bytes == last[p].bytes
  }

  /**
   In every run, a call for p that was made at step i and has returned by step n has returned the parse, for p, of what
   p held after some step from i on, if no signature of p came back over other content.
   */
  lemma CallsAreLinearizable(ttl: nat, files: Files, actions: seq<Action>, states: seq<State>, i: nat, n: nat, t: Tid,
                             p: Path) returns (k: nat)
    requires IsRun(ttl, files, actions, states) && i < n <= |actions| && actions[i] == Invoke(t, CallSymbols(p))
    requires t in states[n].threads && states[n].threads[t].pc.SymbolsReturned?
    requires SignaturesTell(states, n, p)
    ensures i < k <= n && p in FilesAt(states, k)
    ensures states[n].threads[t].pc.symbols == Parsed(p, FilesAt(states, k)[p].bytes)
  {
    CodemapOfRun(ttl, files, actions, states, n);
    PastIsStates(ttl, files, actions, states, n);
    CallIsInvoked(ttl, files, actions, states, i, n, t, p);
    var past, pc := states[n].past, states[n].threads[t].pc;
    assert SignatureTells(past, p) by {
      forall a, b, c | 0 <= a <= b <= c < |past| && SignatureAt(past, a, p).Some?
                       && SignatureAt(past, a, p) == SignatureAt(past, c, p) && BytesAt(past, b, p).Some?
        ensures BytesAt(past, c, p) == BytesAt(past, b, p)
      {
        assert TellsAt(states, a, b, c, p);
      }
    }
    assert PcOk(past, pc);
    k :| pc.call.began <= k <= pc.returnedAt && BytesAt(past, k, p) == Some(pc.symbols.bytes);
  }

  // ----- when the cache serves it -----

  lemma {:induction false} InsertedStays(ttl: nat, files: Files, actions: seq<Action>, states: seq<State>, k: nat,
                                         u: Tid, n: nat, p: Path)
    requires IsRun(ttl, files, actions, states) && k < n <= |actions| && InsertsAt(actions, states, k, u, p)
    requires forall i: nat, t :: k < i < n ==> !InsertsAt(actions, states, i, t, p)
    ensures Get(states[n].codemap, p)
         == Some(CachedSymbols(states[k].threads[u].pc.sym.signature.value,
                               Parsed(p, states[k].threads[u].pc.sym.bytes.value)))
    decreases n
  {
    var a := actions[n - 1];
    assert StepsTo(ttl, states[n - 1], a, states[n]);
    if a.Advance? {
      CodemapMoves(ttl, states[n - 1], a.t, a.choice, states[n], p);
    }
    if k < n - 1 {
      InsertedStays(ttl, files, actions, states, k, u, n - 1, p);
      if a.Advance? {
        assert !InsertsAt(actions, states, n - 1, a.t, p);
      }
    }
  }

  /** What is inserted is served, whatever else is invalidated: to every call that reads the signature with which it was
      inserted, until another parse of the path is inserted. */
  lemma InsertedIsServed(ttl: nat, files: Files, actions: seq<Action>, states: seq<State>, k: nat, u: Tid, n: nat,
                         reader: Tid, p: Path)
    requires IsRun(ttl, files, actions, states) && k < n < |actions| && InsertsAt(actions, states, k, u, p)
    requires forall i: nat, t :: k < i < n ==> !InsertsAt(actions, states, i, t, p)
    requires Advances(actions, n, reader) && InSymbolsAt(states, n, reader)
    requires states[n].threads[reader].pc.call.path == p && states[n].threads[reader].pc.sym.Signed?
    requires states[n].threads[reader].pc.sym.signature.value == states[k].threads[u].pc.sym.signature.value
    ensures reader in states[n + 1].threads && states[n + 1].threads[reader].pc.SymbolsReturned?
    ensures states[n + 1].threads[reader].pc.symbols == Parsed(p, states[k].threads[u].pc.sym.bytes.value)
  {
    InsertedStays(ttl, files, actions, states, k, u, n, p);
    assert StepsTo(ttl, states[n], actions[n], states[n + 1]);
    assert Get(states[n].codemap, p).Some?;
  }

  /** A caller's lookup returns what it found cached under the signature it read, or inserts what it has parsed. */
  lemma CallersInsert(ttl: nat, s: State, t: Tid, choice: Choice, s': State)
    requires Step(ttl, s, Advance(t, choice)) == Some(s') && s.threads[t].pc.InSymbols?
    requires s.threads[t].pc.call.expected.None? && s'.threads[t].pc.SymbolsReturned?
    ensures
      var pc := s.threads[t].pc;
      || (pc.sym.Signed? && Get(s.codemap, pc.call.path)
                         == Some(CachedSymbols(pc.sym.signature.value, s'.threads[t].pc.symbols)))
      || (pc.sym.Inserting? && s'.threads[t].pc.symbols == Parsed(pc.call.path, pc.sym.bytes.value))
  {
    assert t in s.threads;
  }
}
