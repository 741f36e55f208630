/**
 Exactly which edit histories can make a code-symbol call return content its file did not hold during the
 call: those in which a signature comes back over other content.
 */
module ProviderStaleSymbols {
  import opened Common
  import opened Provider
  import opened ProviderCodemap

  // ----- edit histories -----

  function Applied(files: Files, es: seq<FileEdit>): Files {
    if es == [] then files else Edited(Applied(files, es[..|es| - 1]), es[|es| - 1])
  }

  lemma AppliedSnoc(files: Files, es: seq<FileEdit>, e: FileEdit)
    ensures Applied(files, es + [e]) == Edited(Applied(files, es), e)
  {
    assert (es + [e])[..|es|] == es;
  }

  /** The file systems an edit history goes through. */
  function History(files: Files, es: seq<FileEdit>): (past: Past)
    ensures |past| == |es| + 1
    ensures forall i :: 0 <= i <= |es| ==> past[i].files == Applied(files, es[..i])
  {
    seq(|es| + 1, i requires 0 <= i <= |es| => Moment(Applied(files, es[..i]), 0))
  }

  /** The edit a step makes, if it makes one. */
  function EditOf(s: State, a: Action): seq<FileEdit> {
    if a.ExternalEdit? then [a.edit]
    else if a.Advance? && a.t in s.threads && s.threads[a.t].pc.InMutation? && s.threads[a.t].pc.mutation.Mutating?
            && !a.choice.fails && a.choice.edit.Some?
    then [a.choice.edit.value]
    else []
  }

  /** The states a run goes through, and the edits made before each. */
  ghost predicate IsTrace(
    ttl: nat, files: Files, actions: seq<Action>, states: seq<State>, edits: seq<seq<FileEdit>>)
  {
    && IsRun(ttl, files, actions, states)
    && |edits| == |actions| + 1 && edits[0] == []
    && (forall i {:trigger actions[i]} :: 0 <= i < |actions| ==>
          edits[i + 1] == edits[i] + EditOf(states[i], actions[i]))
  }

  // ----- a run's past is its edit history, with repetitions -----

  lemma SnapshotStepFiles(ttl: nat, s: State, t: Tid, pc: SnapshotPc, choice: Choice, s': State)
    requires t in s.threads && StepSnapshot(ttl, s, t, pc, choice) == Some(s')
    ensures |s'.past| == |s.past| + 1 && s.past <= s'.past && Current(s'.past).files == Current(s.past).files
  {
  }

  lemma MutationStepFiles(s: State, t: Tid, lastEdit: nat, pc: MutationPc, choice: Choice, s': State)
    requires t in s.threads && StepMutation(s, t, lastEdit, pc, choice) == Some(s')
    ensures |s'.past| == |s.past| + 1 && s.past <= s'.past
    ensures Current(s'.past).files
         == if pc.Mutating? && !choice.fails && choice.edit.Some? then Edited(Current(s.past).files, choice.edit.value)
            else Current(s.past).files
  {
  }

  lemma SymbolsStepFiles(s: State, t: Tid, call: Lookup, pc: SymbolsPc, choice: Choice, s': State)
    requires t in s.threads && StepSymbols(s, t, call, pc, choice) == Some(s')
    ensures s'.past == s.past + [Current(s.past)]
  {
  }

  lemma WarmerStepFiles(s: State, t: Tid, choice: Choice, s': State)
    requires t in s.threads && StepWarmer(s, t, choice) == Some(s')
    ensures |s'.past| == |s.past| + 1 && s.past <= s'.past && Current(s'.past).files == Current(s.past).files
  {
  }

  lemma StepFiles(ttl: nat, s: State, a: Action, s': State)
    requires Step(ttl, s, a) == Some(s')
    ensures |s'.past| == |s.past| + 1 && s.past <= s'.past
    ensures EditOf(s, a) == [] ==> Current(s'.past).files == Current(s.past).files
    ensures EditOf(s, a) != [] ==> |EditOf(s, a)| == 1
                                   && Current(s'.past).files == Edited(Current(s.past).files, EditOf(s, a)[0])
  {
    if a.Advance? {
      match s.threads[a.t].pc
      case InSnapshot(pc) => SnapshotStepFiles(ttl, s, a.t, pc, a.choice, s');
      case InMutation(lastEdit, pc) => MutationStepFiles(s, a.t, lastEdit, pc, a.choice, s');
      case InSymbols(call, pc) => SymbolsStepFiles(s, a.t, call, pc, a.choice, s');
      case Registering(_, _, _) =>
      case Spawning(_, _, _, _) =>
      case _ => WarmerStepFiles(s, a.t, a.choice, s');
    }
  }

  /** `at` says how many edits had been made at each instant of the past. */
  ghost predicate Follows(past: Past, files: Files, es: seq<FileEdit>, at: seq<nat>) {
    && |at| == |past| && at[|at| - 1] == |es|
    && (forall m :: 0 <= m < |at| ==> at[m] <= |es| && past[m].files == Applied(files, es[..at[m]]))
    && (forall m, n :: 0 <= m <= n < |at| ==> at[m] <= at[n])
  }

  lemma FollowsStep(past: Past, past': Past, files: Files, es: seq<FileEdit>, more: seq<FileEdit>, at: seq<nat>)
    requires Follows(past, files, es, at) && |past'| == |past| + 1 && past <= past' && |more| <= 1
    requires Current(past').files == if more == [] then Current(past).files else Edited(Current(past).files, more[0])
    ensures Follows(past', files, es + more, at + [|es + more|])
  {
    assert es[..|es|] == es;
    if more == [] {
      assert es + more == es;
    } else {
      assert es + more == es + [more[0]];
      AppliedSnoc(files, es, more[0]);
    }
    FollowsOn(past, past', files, es, es + more, at);
  }

  lemma FollowsOn(past: Past, past': Past, files: Files, es: seq<FileEdit>, es': seq<FileEdit>, at: seq<nat>)
    requires Follows(past, files, es, at) && |past'| == |past| + 1 && past <= past' && es <= es'
    requires Current(past').files == Applied(files, es')
    ensures Follows(past', files, es', at + [|es'|])
  {
    assert es'[..|es'|] == es';
    forall m | 0 <= m < |at| ensures past'[m].files == Applied(files, es'[..at[m]]) {
      assert past'[m] == past[m] && es'[..at[m]] == es[..at[m]];
    }
  }

  lemma {:induction false} RunFollows(
    ttl: nat, files: Files, actions: seq<Action>, states: seq<State>, edits: seq<seq<FileEdit>>, n: nat)
    returns (at: seq<nat>)
    requires IsTrace(ttl, files, actions, states, edits) && n <= |actions|
    ensures Follows(states[n].past, files, edits[n], at)
  {
    if n == 0 {
      at := [0];
    } else {
      var s, a, s' := states[n - 1], actions[n - 1], states[n];
      assert StepsTo(ttl, s, a, s') && edits[n] == edits[n - 1] + EditOf(s, a);
      at := RunFollows(ttl, files, actions, states, edits, n - 1);
      StepFiles(ttl, s, a, s');
      FollowsStep(s.past, s'.past, files, edits[n - 1], EditOf(s, a), at);
      at := at + [|edits[n]|];
    }
  }

  /** If the history's signatures tell, so do those of any run with it. */
  lemma HistoryTells(past: Past, files: Files, es: seq<FileEdit>, at: seq<nat>, p: Path)
    requires Follows(past, files, es, at) && SignatureTells(History(files, es), p)
    ensures SignatureTells(past, p)
  {
    var h := History(files, es);
    forall i, j, k | 0 <= i <= j <= k < |past| && SignatureAt(past, i, p).Some?
                     && SignatureAt(past, i, p) == SignatureAt(past, k, p) && BytesAt(past, j, p).Some?
      ensures BytesAt(past, k, p) == BytesAt(past, j, p)
    {
      assert SignatureAt(h, at[i], p) == SignatureAt(past, i, p);
      assert SignatureAt(h, at[k], p) == SignatureAt(past, k, p);
      assert BytesAt(h, at[j], p) == BytesAt(past, j, p);
      assert BytesAt(h, at[k], p) == BytesAt(past, k, p);
    }
  }

  // ----- building a run of successful calls -----

  ghost predicate OwnCalls(actions: seq<Action>) {
    forall a :: a in actions ==> !a.ExternalEdit?
  }

  /** Some run of the provider's own calls, with these edits, leads to s. */
  ghost predicate Built(ttl: nat, files: Files, es: seq<FileEdit>, s: State) {
    exists actions, states, edits ::
      OwnCalls(actions) && IsTrace(ttl, files, actions, states, edits)
      && states[|actions|] == s && edits[|actions|] == es
  }

  lemma {:induction false} TraceStep(
    ttl: nat, files: Files, actions: seq<Action>, states: seq<State>, edits: seq<seq<FileEdit>>, a: Action, s': State)
    requires IsTrace(ttl, files, actions, states, edits) && StepsTo(ttl, states[|actions|], a, s')
    ensures IsTrace(ttl, files, actions + [a], states + [s'],
                    edits + [edits[|actions|] + EditOf(states[|actions|], a)])
  {
    IsRunSnoc(ttl, files, actions, states, a, s');
    var actions' := actions + [a];
    forall i {:trigger actions'[i]} | 0 <= i < |actions|
      ensures edits[i + 1] == edits[i] + EditOf(states[i], actions'[i])
    {
      assert actions'[i] == actions[i];
    }
  }

  lemma {:induction false} BuiltStep(ttl: nat, files: Files, es: seq<FileEdit>, s: State, a: Action, s': State)
    requires Built(ttl, files, es, s) && Step(ttl, s, a) == Some(s') && !a.ExternalEdit?
    ensures Built(ttl, files, es + EditOf(s, a), s')
  {
    var actions, states, edits :|
      OwnCalls(actions) && IsTrace(ttl, files, actions, states, edits)
      && states[|actions|] == s && edits[|actions|] == es;
    assert StepsTo(ttl, s, a, s');
    TraceStep(ttl, files, actions, states, edits, a, s');
    assert OwnCalls(actions + [a]);
  }

  lemma BuiltInitially(ttl: nat, files: Files)
    ensures Built(ttl, files, [], Initial(files))
  {
    assert OwnCalls([]) && IsTrace(ttl, files, [], [Initial(files)], [[]]);
  }

  predicate Idle(s: State) { s.snapshotWriter.None? && s.codemapWriter.None? }

  /** Thread t alone has moved, and the cache is as it was. */
  ghost predicate Moved(s: State, s': State, t: Tid) {
    && Idle(s') && s'.codemap == s.codemap && s.past <= s'.past
    && s'.threads.Keys == s.threads.Keys + {t}
    && (forall u :: u in s.threads && u != t ==> s'.threads[u] == s.threads[u])
  }

  lemma MovedOn(s: State, s1: State, s2: State, t: Tid)
    requires Moved(s, s1, t) && Moved(s1, s2, t)
    ensures Moved(s, s2, t)
  {
  }

  const GO: Choice := Choice(false, None, [], 0)

  lemma InvokeMutation(ttl: nat, files: Files, es: seq<FileEdit>, s: State, t: Tid) returns (s': State)
    requires Built(ttl, files, es, s) && Idle(s) && t !in s.threads
    ensures Built(ttl, files, es, s') && Moved(s, s', t) && Current(s'.past) == Current(s.past)
    ensures s'.threads[t].pc == InMutation(0, Mutating)
  {
    s' := StepInvoke(s, t, CallMutation);
    BuiltStep(ttl, files, es, s, Invoke(t, CallMutation), s');
    assert es + [] == es;
  }

  lemma EditOnce(ttl: nat, files: Files, es: seq<FileEdit>, s: State, t: Tid, e: FileEdit) returns (s': State)
    requires Built(ttl, files, es, s) && Idle(s) && t in s.threads
    requires s.threads[t].pc.InMutation? && s.threads[t].pc.mutation.Mutating?
    ensures Built(ttl, files, es + [e], s') && Moved(s, s', t)
    ensures s'.threads[t].pc.InMutation? && s'.threads[t].pc.mutation.Mutating?
  {
    var choice := Choice(false, Some(e), [], 0);
    s' := StepMutation(s, t, s.threads[t].pc.lastEdit, Mutating, choice).value;
    BuiltStep(ttl, files, es, s, Advance(t, choice), s');
  }

  lemma {:induction false} EditAll(ttl: nat, files: Files, es: seq<FileEdit>, s: State, t: Tid, more: seq<FileEdit>)
    returns (s': State)
    requires Built(ttl, files, es, s) && Idle(s) && t in s.threads
    requires s.threads[t].pc.InMutation? && s.threads[t].pc.mutation.Mutating?
    ensures Built(ttl, files, es + more, s') && Moved(s, s', t)
    ensures s'.threads[t].pc.InMutation? && s'.threads[t].pc.mutation.Mutating?
    decreases |more|
  {
    s' := s;
    if more == [] {
      assert es + more == es;
    } else {
      var s1 := EditOnce(ttl, files, es, s, t, more[0]);
      s' := EditAll(ttl, files, es + [more[0]], s1, t, more[1..]);
      assert es + [more[0]] + more[1..] == es + more;
      MovedOn(s, s1, s', t);
    }
  }

  lemma MutationStep(
    ttl: nat, files: Files, es: seq<FileEdit>, s: State, t: Tid, lastEdit: nat, pc: MutationPc, s': State)
    requires Built(ttl, files, es, s) && Idle(s) && t in s.threads && s.threads[t].pc == InMutation(lastEdit, pc)
    requires StepMutation(s, t, lastEdit, pc, GO) == Some(s')
    ensures Built(ttl, files, es, s') && Moved(s, s', t)
  {
    BuiltStep(ttl, files, es, s, Advance(t, GO), s');
    assert es + [] == es;
  }

  /** The edits done, the mutation invalidates and returns. */
  lemma Invalidates(ttl: nat, files: Files, es: seq<FileEdit>, s: State, t: Tid) returns (s': State)
    requires Built(ttl, files, es, s) && Idle(s) && t in s.threads
    requires s.threads[t].pc.InMutation? && s.threads[t].pc.mutation.Mutating?
    ensures Built(ttl, files, es, s') && Moved(s, s', t) && s'.threads[t].pc.MutationReturned?
  {
    var n := s.threads[t].pc.lastEdit;
    var s1 := StepMutation(s, t, n, Mutating, GO).value;
    MutationStep(ttl, files, es, s, t, n, Mutating, s1);
    var s2 := StepMutation(s1, t, n, Clearing, GO).value;
    MutationStep(ttl, files, es, s1, t, n, Clearing, s2);
    MovedOn(s, s1, s2, t);
    var s3 := StepMutation(s2, t, n, Bumping, GO).value;
    MutationStep(ttl, files, es, s2, t, n, Bumping, s3);
    MovedOn(s, s2, s3, t);
    s' := StepMutation(s3, t, n, Cancelling, GO).value;
    MutationStep(ttl, files, es, s3, t, n, Cancelling, s');
    MovedOn(s, s3, s', t);
  }

  /** A whole mutating call: it makes its edits, invalidates, and returns. */
  lemma MutationCall(ttl: nat, files: Files, es: seq<FileEdit>, s: State, t: Tid, more: seq<FileEdit>)
    returns (s': State)
    requires Built(ttl, files, es, s) && Idle(s) && t !in s.threads
    ensures Built(ttl, files, es + more, s') && Moved(s, s', t) && s'.threads[t].pc.MutationReturned?
  {
    var s1 := InvokeMutation(ttl, files, es, s, t);
    var s2 := EditAll(ttl, files, es, s1, t, more);
    MovedOn(s, s1, s2, t);
    s' := Invalidates(ttl, files, es + more, s2, t);
    MovedOn(s, s2, s', t);
  }

  lemma BuiltFiles(ttl: nat, files: Files, es: seq<FileEdit>, s: State)
    requires Built(ttl, files, es, s)
    ensures Current(s.past).files == Applied(files, es)
  {
    var actions, states, edits :|
      OwnCalls(actions) && IsTrace(ttl, files, actions, states, edits)
      && states[|actions|] == s && edits[|actions|] == es;
    var at := RunFollows(ttl, files, actions, states, edits, |actions|);
    assert es[..|es|] == es;
  }

  // ----- the calls of the scenario -----

  /** One more instant with the files as they are. */
  predicate Ticked(s: State, s': State) { s'.past == s.past + [Current(s.past)] }

  lemma InvokeSymbols(ttl: nat, files: Files, es: seq<FileEdit>, s: State, t: Tid, p: Path) returns (s': State)
    requires Built(ttl, files, es, s) && Idle(s) && t !in s.threads
    ensures Built(ttl, files, es, s') && Moved(s, s', t) && Ticked(s, s')
    ensures s'.threads[t].pc == InSymbols(Lookup(p, |s.past|, None), Called)
  {
    s' := StepInvoke(s, t, CallSymbols(p));
    BuiltStep(ttl, files, es, s, Invoke(t, CallSymbols(p)), s');
    assert es + [] == es;
  }

  lemma SymbolsMove(
    ttl: nat, files: Files, es: seq<FileEdit>, s: State, t: Tid, call: Lookup, pc: SymbolsPc, s': State)
    requires Built(ttl, files, es, s) && t in s.threads && s.threads[t].pc == InSymbols(call, pc)
    requires StepSymbols(s, t, call, pc, GO) == Some(s')
    ensures Built(ttl, files, es, s') && Ticked(s, s')
    ensures s'.threads.Keys == s.threads.Keys
    ensures forall u :: u in s.threads && u != t ==> s'.threads[u] == s.threads[u]
  {
    SymbolsStepFiles(s, t, call, pc, GO, s');
    BuiltStep(ttl, files, es, s, Advance(t, GO), s');
    assert es + [] == es;
  }

  /** The call takes the file's signature. */
  lemma Signs(ttl: nat, files: Files, es: seq<FileEdit>, s: State, t: Tid, call: Lookup) returns (s': State)
    requires Built(ttl, files, es, s) && Idle(s) && t in s.threads && s.threads[t].pc == InSymbols(call, Called)
    requires call.path in Current(s.past).files
    ensures Built(ttl, files, es, s') && Moved(s, s', t) && Ticked(s, s') && s'.threads[t].pc.InSymbols?
    ensures s'.threads[t].pc.call == call && s'.threads[t].pc.sym.Signed?
    ensures s'.threads[t].pc.sym.signature.value == Current(s.past).files[call.path].signature
  {
    s' := StepSymbols(s, t, call, Called, GO).value;
    SymbolsMove(ttl, files, es, s, t, call, Called, s');
  }

  /** It finds nothing cached. */
  lemma Misses(ttl: nat, files: Files, es: seq<FileEdit>, s: State, t: Tid, call: Lookup, signature: ReadAt<Signature>)
    returns (s': State)
    requires Built(ttl, files, es, s) && Idle(s) && s.codemap == map[]
    requires t in s.threads && s.threads[t].pc == InSymbols(call, Signed(signature))
    ensures Built(ttl, files, es, s') && Moved(s, s', t) && s'.threads[t].pc == InSymbols(call, NotCached(signature))
  {
    s' := StepSymbols(s, t, call, Signed(signature), GO).value;
    SymbolsMove(ttl, files, es, s, t, call, Signed(signature), s');
  }

  /** It reads the file. */
  lemma Reads(ttl: nat, files: Files, es: seq<FileEdit>, s: State, t: Tid, call: Lookup, signature: ReadAt<Signature>)
    returns (s': State, bytes: ReadAt<Content>)
    requires Built(ttl, files, es, s) && Idle(s) && call.path in Current(s.past).files
    requires t in s.threads && s.threads[t].pc == InSymbols(call, NotCached(signature))
    ensures Built(ttl, files, es, s') && Moved(s, s', t)
    ensures s'.threads[t].pc == InSymbols(call, Checking(signature, bytes))
    ensures bytes.value == Current(s.past).files[call.path].bytes
  {
    bytes := ReadAt(Current(s.past).files[call.path].bytes, Now(s));
    s' := StepSymbols(s, t, call, NotCached(signature), GO).value;
    SymbolsMove(ttl, files, es, s, t, call, NotCached(signature), s');
  }

  /** It waits for the lock, and takes it. */
  lemma Locks(
    ttl: nat, files: Files, es: seq<FileEdit>, s: State, t: Tid, call: Lookup, signature: ReadAt<Signature>,
    bytes: ReadAt<Content>) returns (s': State)
    requires Built(ttl, files, es, s) && Idle(s) && call.expected == None
    requires t in s.threads && s.threads[t].pc == InSymbols(call, Checking(signature, bytes))
    ensures Built(ttl, files, es, s') && s'.codemap == s.codemap && s.past <= s'.past && s'.snapshotWriter.None?
    ensures s'.threads.Keys == s.threads.Keys && s'.threads[t].pc == InSymbols(call, Rechecking(signature, bytes))
    ensures forall u :: u in s.threads && u != t ==> s'.threads[u] == s.threads[u]
  {
    var s1 := StepSymbols(s, t, call, Checking(signature, bytes), GO).value;
    SymbolsMove(ttl, files, es, s, t, call, Checking(signature, bytes), s1);
    s' := StepSymbols(s1, t, call, Waiting(signature, bytes), GO).value;
    SymbolsMove(ttl, files, es, s1, t, call, Waiting(signature, bytes), s');
  }

  /** It inserts what it read under the signature it took, and returns. */
  lemma Inserts(
    ttl: nat, files: Files, es: seq<FileEdit>, s: State, t: Tid, call: Lookup, signature: ReadAt<Signature>,
    bytes: ReadAt<Content>) returns (s': State)
    requires Built(ttl, files, es, s) && s.snapshotWriter.None? && call.expected == None
    requires t in s.threads && s.threads[t].pc == InSymbols(call, Rechecking(signature, bytes))
    ensures Built(ttl, files, es, s') && Idle(s') && s.past <= s'.past
    ensures s'.threads.Keys == s.threads.Keys && s'.threads[t].pc.SymbolsReturned?
    ensures forall u :: u in s.threads && u != t ==> s'.threads[u] == s.threads[u]
    ensures s'.codemap == s.codemap[call.path := CachedSymbols(signature.value, Parsed(call.path, bytes.value))]
  {
    var s1 := StepSymbols(s, t, call, Rechecking(signature, bytes), GO).value;
    SymbolsMove(ttl, files, es, s, t, call, Rechecking(signature, bytes), s1);
    var pc := Inserting(signature, bytes, Now(s));
    s' := StepSymbols(s1, t, call, pc, GO).value;
    SymbolsMove(ttl, files, es, s1, t, call, pc, s');
  }

  /** A later call takes the same signature and gets what is cached under it. */
  lemma Hits(ttl: nat, files: Files, es: seq<FileEdit>, s: State, t: Tid, p: Path)
    returns (s': State, call: Lookup, returnedAt: nat)
    requires Built(ttl, files, es, s) && Idle(s) && t !in s.threads && p in Current(s.past).files
    requires p in s.codemap && s.codemap[p].signature == Current(s.past).files[p].signature
    ensures Built(ttl, files, es, s') && Moved(s, s', t) && call.path == p
    ensures s'.threads[t].pc == SymbolsReturned(call, returnedAt, s.codemap[p].symbols)
    ensures call.began <= returnedAt < |s'.past|
    ensures forall m :: call.began <= m <= returnedAt ==> BytesAt(s'.past, m, p) == Some(Current(s.past).files[p].bytes)
  {
    var s1 := InvokeSymbols(ttl, files, es, s, t, p);
    call := s1.threads[t].pc.call;
    var s2 := Signs(ttl, files, es, s1, t, call);
    MovedOn(s, s1, s2, t);
    var pc := s2.threads[t].pc.sym;
    s' := StepSymbols(s2, t, call, pc, GO).value;
    SymbolsMove(ttl, files, es, s2, t, call, pc, s');
    MovedOn(s, s2, s', t);
    returnedAt := |s2.past|;
    var c := Current(s.past);
    assert s'.past == s.past + [c] + [c] + [c];
  }

  /** Thread t has returned symbols that its file did not hold during the call. */
  ghost predicate ReturnedStale(s: State, t: Tid, p: Path) {
    && t in s.threads && s.threads[t].pc.SymbolsReturned? && s.threads[t].pc.call.path == p
    && !ResultHeldDuring(s.past, s.threads[t].pc.call, s.threads[t].pc.returnedAt, s.threads[t].pc.symbols)
  }

  lemma StaleStays(s: State, s': State, t: Tid, p: Path)
    requires ReturnedStale(s, t, p) && s.past <= s'.past && t in s'.threads && s'.threads[t] == s.threads[t]
    requires s.threads[t].pc.returnedAt < |s.past|
    ensures ReturnedStale(s', t, p)
  {
    var pc := s.threads[t].pc;
    forall k | pc.call.began <= k <= pc.returnedAt
      ensures BytesAt(s'.past, k, p) == BytesAt(s.past, k, p)
    {
    }
  }

  /** One mutating call after another. */
  lemma TwoCalls(ttl: nat, files: Files, es: seq<FileEdit>, s: State, e2: seq<FileEdit>, e3: seq<FileEdit>)
    returns (s': State)
    requires Built(ttl, files, es, s) && Idle(s) && 11 !in s.threads && 14 !in s.threads
    ensures Built(ttl, files, es + e2 + e3, s') && Idle(s') && s'.codemap == s.codemap && s.past <= s'.past
    ensures s'.threads.Keys == s.threads.Keys + {11, 14}
    ensures forall u :: u in s.threads ==> s'.threads[u] == s.threads[u]
    ensures s'.threads[11].pc.MutationReturned? && s'.threads[14].pc.MutationReturned?
  {
    var s1 := MutationCall(ttl, files, es, s, 11, e2);
    s' := MutationCall(ttl, files, es + e2, s1, 14, e3);
  }

  /** The first call of the scenario: it takes a signature, and two mutating calls later reads and caches. */
  lemma CachesLate(
    ttl: nat, files: Files, es: seq<FileEdit>, e2: seq<FileEdit>, e3: seq<FileEdit>, es': seq<FileEdit>,
    s: State, p: Path)
    returns (s': State)
    requires Built(ttl, files, es, s) && Idle(s) && s.codemap == map[] && s.threads.Keys == {10}
    requires es' == es + e2 + e3 && p in Applied(files, es) && p in Applied(files, es')
    ensures Built(ttl, files, es', s') && Idle(s') && s.past <= s'.past
    ensures s'.threads.Keys == {10, 1, 11, 14} && s'.threads[10] == s.threads[10]
    ensures s'.threads[1].pc.SymbolsReturned?
    ensures s'.threads[11].pc.MutationReturned? && s'.threads[14].pc.MutationReturned?
    ensures s'.codemap
             == map[p := CachedSymbols(Applied(files, es)[p].signature, Parsed(p, Applied(files, es')[p].bytes))]
  {
    BuiltFiles(ttl, files, es, s);
    var s1 := InvokeSymbols(ttl, files, es, s, 1, p);
    var call := s1.threads[1].pc.call;
    var s2 := Signs(ttl, files, es, s1, 1, call);
    MovedOn(s, s1, s2, 1);
    var signature := s2.threads[1].pc.sym.signature;
    var s3 := Misses(ttl, files, es, s2, 1, call, signature);
    MovedOn(s, s2, s3, 1);
    var s4 := TwoCalls(ttl, files, es, s3, e2, e3);
    BuiltFiles(ttl, files, es', s4);
    s' := ReadsAndCaches(ttl, files, es', s4, p, call, signature);
  }

  lemma ReadsAndCaches(
    ttl: nat, files: Files, es: seq<FileEdit>, s: State, p: Path, call: Lookup, signature: ReadAt<Signature>)
    returns (s': State)
    requires Built(ttl, files, es, s) && Idle(s) && s.codemap == map[] && p in Current(s.past).files
    requires 1 in s.threads && s.threads[1].pc == InSymbols(call, NotCached(signature))
    requires call.path == p && call.expected == None
    ensures Built(ttl, files, es, s') && Idle(s') && s.past <= s'.past
    ensures s'.threads.Keys == s.threads.Keys && s'.threads[1].pc.SymbolsReturned?
    ensures forall u :: u in s.threads && u != 1 ==> s'.threads[u] == s.threads[u]
    ensures s'.codemap == map[p := CachedSymbols(signature.value, Parsed(p, Current(s.past).files[p].bytes))]
  {
    var s1, bytes := Reads(ttl, files, es, s, 1, call, signature);
    var s2 := Locks(ttl, files, es, s1, 1, call, signature, bytes);
    s' := Inserts(ttl, files, es, s2, 1, call, signature, bytes);
  }

  /** Every call of the state has returned. */
  ghost predicate AllReturned(s: State) {
    forall t :: t in s.threads ==> s.threads[t].pc.SymbolsReturned? || s.threads[t].pc.MutationReturned?
  }

  lemma EditsFirst(ttl: nat, files: Files, h1: seq<FileEdit>) returns (s: State)
    ensures Built(ttl, files, h1, s) && Idle(s) && s.codemap == map[] && s.threads.Keys == {10}
    ensures s.threads[10].pc.MutationReturned?
  {
    BuiltInitially(ttl, files);
    s := MutationCall(ttl, files, [], Initial(files), 10, h1);
    assert [] + h1 == h1;
  }

  /** The cache is filled late, and then the signature comes back. */
  lemma SignatureReturns(
    ttl: nat, files: Files, p: Path, h1: seq<FileEdit>, e2: seq<FileEdit>, e3: seq<FileEdit>, h2: seq<FileEdit>,
    e4: seq<FileEdit>) returns (s: State)
    requires h2 == h1 + e2 + e3 && p in Applied(files, h1) && p in Applied(files, h2)
    ensures Built(ttl, files, h2 + e4, s) && Idle(s) && AllReturned(s) && s.threads.Keys == {10, 1, 11, 14, 12}
    ensures s.codemap
             == map[p := CachedSymbols(Applied(files, h1)[p].signature, Parsed(p, Applied(files, h2)[p].bytes))]
  {
    var s1 := EditsFirst(ttl, files, h1);
    var s2 := CachesLate(ttl, files, h1, e2, e3, h2, s1, p);
    s := MutationCall(ttl, files, h2, s2, 12, e4);
  }

  /** A call then gets what is cached; the rest of the edits do not change that. */
  lemma HitsStale(
    ttl: nat, files: Files, h3: seq<FileEdit>, e5: seq<FileEdit>, s: State, p: Path) returns (s': State)
    requires Built(ttl, files, h3, s) && Idle(s) && AllReturned(s) && s.threads.Keys == {10, 1, 11, 14, 12}
    requires p in Applied(files, h3) && p in s.codemap && s.codemap[p].signature == Applied(files, h3)[p].signature
    requires s.codemap[p].symbols.bytes != Applied(files, h3)[p].bytes
    ensures Built(ttl, files, h3 + e5, s') && AllReturned(s') && ReturnedStale(s', 2, p)
  {
    BuiltFiles(ttl, files, h3, s);
    var s4, call, returnedAt := Hits(ttl, files, h3, s, 2, p);
    assert ReturnedStale(s4, 2, p);
    s' := MutationCall(ttl, files, h3, s4, 13, e5);
    StaleStays(s4, s', 2, p);
  }

  /** A signature that comes back over other content: some run of successful calls of the provider, with
      just these edits, has a call return what its file did not hold during it.  The mutating calls make h1, e2, e3,
      e4 and e5, one each. */
  lemma StaleRun(
    ttl: nat, files: Files, p: Path, h1: seq<FileEdit>, e2: seq<FileEdit>, e3: seq<FileEdit>, h2: seq<FileEdit>,
    e4: seq<FileEdit>, h3: seq<FileEdit>, e5: seq<FileEdit>) returns (s: State)
    requires h2 == h1 + e2 + e3 && h3 == h2 + e4
    requires p in Applied(files, h1) && p in Applied(files, h2) && p in Applied(files, h3)
    requires Applied(files, h1)[p].signature == Applied(files, h3)[p].signature
    requires Applied(files, h2)[p].bytes != Applied(files, h3)[p].bytes
    ensures Built(ttl, files, h3 + e5, s) && AllReturned(s) && ReturnedStale(s, 2, p)
  {
    var s3 := SignatureReturns(ttl, files, p, h1, e2, e3, h2, e4);
    s := HitsStale(ttl, files, h3, e5, s3, p);
  }

  /** Some run with these edits has a call about p return what p did not hold during the call. */
  ghost predicate CanBeStale(ttl: nat, files: Files, es: seq<FileEdit>, p: Path) {
    exists actions, states, edits, t ::
      IsTrace(ttl, files, actions, states, edits) && edits[|actions|] == es && ReturnedStale(states[|actions|], t, p)
  }

  lemma {:induction false} RunNotStale(
    ttl: nat, files: Files, actions: seq<Action>, states: seq<State>, edits: seq<seq<FileEdit>>, p: Path, t: Tid)
    requires IsTrace(ttl, files, actions, states, edits)
    requires SignatureTells(History(files, edits[|actions|]), p)
    ensures !ReturnedStale(states[|actions|], t, p)
  {
    var s := states[|actions|];
    var at := RunFollows(ttl, files, actions, states, edits, |actions|);
    HistoryTells(s.past, files, edits[|actions|], at, p);
    RunOfStates(ttl, files, actions, states);
    AlwaysCodemapInv(ttl, files, actions);
    if t in s.threads && s.threads[t].pc.SymbolsReturned? {
      assert PcOk(s.past, s.threads[t].pc);
    }
  }

  lemma NeverStale(ttl: nat, files: Files, es: seq<FileEdit>, p: Path)
    requires SignatureTells(History(files, es), p)
    ensures !CanBeStale(ttl, files, es, p)
  {
    forall actions, states, edits, t | IsTrace(ttl, files, actions, states, edits) && edits[|actions|] == es
      ensures !ReturnedStale(states[|actions|], t, p)
    {
      RunNotStale(ttl, files, actions, states, edits, p, t);
    }
  }

  lemma StaleFrom(
    ttl: nat, files: Files, es: seq<FileEdit>, p: Path, h1: seq<FileEdit>, e2: seq<FileEdit>, h2: seq<FileEdit>,
    e3: seq<FileEdit>, h3: seq<FileEdit>, e4: seq<FileEdit>)
    requires h2 == h1 + e2 && h3 == h2 + e3 && es == h3 + e4
    requires p in Applied(files, h1) && p in Applied(files, h2) && p in Applied(files, h3)
    requires Applied(files, h1)[p].signature == Applied(files, h3)[p].signature
    requires Applied(files, h2)[p].bytes != Applied(files, h3)[p].bytes
    ensures CanBeStale(ttl, files, es, p)
  {
    assert h1 + e2 + [] == h2;
    var s := StaleRun(ttl, files, p, h1, e2, [], h2, e3, h3, e4);
    var actions, states, edits :|
      OwnCalls(actions) && IsTrace(ttl, files, actions, states, edits)
      && states[|actions|] == s && edits[|actions|] == es;
    assert ReturnedStale(states[|actions|], 2, p);
  }

  lemma SomeStale(ttl: nat, files: Files, es: seq<FileEdit>, p: Path)
    requires !SignatureTells(History(files, es), p)
    ensures CanBeStale(ttl, files, es, p)
  {
    var h := History(files, es);
    var i, j, k :| 0 <= i <= j <= k < |h| && SignatureAt(h, i, p).Some? && SignatureAt(h, i, p) == SignatureAt(h, k, p)
                   && BytesAt(h, j, p).Some? && BytesAt(h, k, p) != BytesAt(h, j, p);
    assert es[..i] + es[i..j] == es[..j] && es[..j] + es[j..k] == es[..k] && es[..k] + es[k..] == es;
    StaleFrom(ttl, files, es, p, es[..i], es[i..j], es[..j], es[j..k], es[..k], es[k..]);
  }

  /** For every edit history: some interleaving of calls with it returns stale symbols for p exactly when a
      signature of p comes back over content other than p held since. */
  lemma CanBeStaleIff(ttl: nat, files: Files, es: seq<FileEdit>, p: Path)
    ensures CanBeStale(ttl, files, es, p) <==> !SignatureTells(History(files, es), p)
  {
    if SignatureTells(History(files, es), p) {
      NeverStale(ttl, files, es, p);
    } else {
      SomeStale(ttl, files, es, p);
    }
  }

  /** A rename keeps modification time and size: the file at `from` goes to `to` as it is. */
  function Renamed(from: Path, to: Path, file: File): seq<FileEdit> {
    [FileEdit(to, Some(file)), FileEdit(from, None)]
  }

  lemma RenamedLeaves(files: Files, es: seq<FileEdit>, from: Path, to: Path, file: File)
    requires from != to
    ensures Get(Applied(files, es + Renamed(from, to, file)), to) == Some(file)
  {
    var renamed := Renamed(from, to, file);
    AppliedSnoc(files, es, renamed[0]);
    AppliedSnoc(files, es + [renamed[0]], renamed[1]);
    assert es + renamed == es + [renamed[0]] + [renamed[1]];
  }

  lemma Padded<T>(a: seq<T>)
    ensures [] + a == a && a + [] == a
  {
  }

  /** The provider's own calls can do that, in three: rename p away, write p anew, and rename the old file back
      over it. */
  lemma RenameBackIsStale(ttl: nat, files: Files, p: Path, q: Path, first: File, second: File) returns (s: State)
    requires p in files && files[p] == first && p != q && first.bytes != second.bytes
    ensures Built(ttl, files, Renamed(p, q, first) + [FileEdit(p, Some(second))] + Renamed(q, p, first), s)
    ensures AllReturned(s) && ReturnedStale(s, 2, p)
  {
    var away, anew := Renamed(p, q, first), [FileEdit(p, Some(second))];
    AppliedSnoc(files, away, anew[0]);
    RenamedLeaves(files, away + anew, q, p, first);
    Padded(away);
    Padded(away + anew + Renamed(q, p, first));
    s := StaleRun(ttl, files, p, [], away, anew, away + anew, Renamed(q, p, first),
                  away + anew + Renamed(q, p, first), []);
  }
}
