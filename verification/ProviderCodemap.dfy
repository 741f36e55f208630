/** Code symbols: whatever the interleaving, a call returns the parse of content the file held during the call. */
module ProviderCodemap {
  import opened Common
  import opened Provider

  /** When the path's signature is again what it was, the content is what it was at any time since. */
  ghost predicate SignatureTells(past: Past, p: Path) {
    forall i, j, k {:trigger SignatureAt(past, i, p), BytesAt(past, j, p), SignatureAt(past, k, p)} ::
      (0 <= i <= j <= k < |past| && SignatureAt(past, i, p).Some? && SignatureAt(past, i, p) == SignatureAt(past, k, p)
       && BytesAt(past, j, p).Some?) ==> BytesAt(past, k, p) == BytesAt(past, j, p)
  }

  /** A cache entry pairs a signature the file had with content it held then or later. */
  ghost predicate EntryOk(past: Past, p: Path, entry: CachedSymbols) {
    && entry.symbols.path == p
    && exists i, j :: 0 <= i <= j < |past| && SignatureAt(past, i, p) == Some(entry.signature)
                      && BytesAt(past, j, p) == Some(entry.symbols.bytes)
  }

  ghost predicate SignatureOk(past: Past, call: Lookup, signature: ReadAt<Signature>) {
    call.began <= signature.at < |past| && SignatureAt(past, signature.at, call.path) == Some(signature.value)
  }

  ghost predicate ParseOk(past: Past, call: Lookup, signature: ReadAt<Signature>, bytes: ReadAt<Content>) {
    && SignatureOk(past, call, signature)
    && signature.at <= bytes.at < |past|
    && BytesAt(past, bytes.at, call.path) == Some(bytes.value)
  }

  /** The result of the call is the parse of what the file held at some instant within it. */
  ghost predicate ResultHeldDuring(past: Past, call: Lookup, returnedAt: nat, symbols: Symbols) {
    && call.began <= returnedAt < |past|
    && symbols.path == call.path
    && exists k :: call.began <= k <= returnedAt && BytesAt(past, k, call.path) == Some(symbols.bytes)
  }

  ghost predicate SymbolsPcOk(past: Past, call: Lookup, pc: SymbolsPc) {
    match pc
    case Called => call.began < |past|
    case Signed(signature) => SignatureOk(past, call, signature)
    case NotCached(signature) => SignatureOk(past, call, signature)
    case _ => ParseOk(past, call, pc.signature, pc.bytes)
  }

  ghost predicate ReturnOk(past: Past, call: Lookup, returnedAt: nat, symbols: Symbols) {
    SignatureTells(past, call.path) ==> ResultHeldDuring(past, call, returnedAt, symbols)
  }

  ghost predicate PcOk(past: Past, pc: Pc) {
    && (pc.InSymbols? ==> SymbolsPcOk(past, pc.call, pc.sym))
    && (pc.SymbolsReturned? ==> ReturnOk(past, pc.call, pc.returnedAt, pc.symbols))
  }

  ghost predicate CodemapInv(s: State) {
    && (forall p :: p in s.codemap ==> EntryOk(s.past, p, s.codemap[p]))
    && (forall t :: t in s.threads ==> PcOk(s.past, s.threads[t].pc))
  }

  // ----- a longer past keeps every fact about the shorter one -----

  lemma PastGrows(past: Past, m: Moment, p: Path)
    ensures forall i :: 0 <= i < |past| ==>
              SignatureAt(past + [m], i, p) == SignatureAt(past, i, p)
              && BytesAt(past + [m], i, p) == BytesAt(past, i, p)
  {
  }

  lemma EntryKept(past: Past, m: Moment, p: Path, entry: CachedSymbols)
    requires EntryOk(past, p, entry)
    ensures EntryOk(past + [m], p, entry)
  {
    var i, j :| 0 <= i <= j < |past| && SignatureAt(past, i, p) == Some(entry.signature)
                && BytesAt(past, j, p) == Some(entry.symbols.bytes);
    PastGrows(past, m, p);
    assert SignatureAt(past + [m], i, p) == Some(entry.signature);
    assert BytesAt(past + [m], j, p) == Some(entry.symbols.bytes);
  }

  lemma ToldBefore(past: Past, m: Moment, p: Path)
    requires SignatureTells(past + [m], p)
    ensures SignatureTells(past, p)
  {
    PastGrows(past, m, p);
    forall i, j, k | 0 <= i <= j <= k < |past| && SignatureAt(past, i, p).Some?
                     && SignatureAt(past, i, p) == SignatureAt(past, k, p) && BytesAt(past, j, p).Some?
      ensures BytesAt(past, k, p) == BytesAt(past, j, p)
    {
      assert SignatureAt(past + [m], i, p) == SignatureAt(past + [m], k, p);
      assert BytesAt(past + [m], j, p) == BytesAt(past, j, p);
    }
  }

  lemma PcKept(past: Past, m: Moment, pc: Pc)
    requires PcOk(past, pc)
    ensures PcOk(past + [m], pc)
  {
    if pc.SymbolsReturned? && SignatureTells(past + [m], pc.call.path) {
      ToldBefore(past, m, pc.call.path);
      var k :| pc.call.began <= k <= pc.returnedAt && BytesAt(past, k, pc.call.path) == Some(pc.symbols.bytes);
      PastGrows(past, m, pc.call.path);
      assert BytesAt(past + [m], k, pc.call.path) == Some(pc.symbols.bytes);
    }
  }

  /** The shape of every step: one more instant, and new facts only about what the step itself did. */
  lemma InvKept(s: State, s': State, m: Moment)
    requires CodemapInv(s) && s'.past == s.past + [m]
    requires forall p :: p in s'.codemap ==>
                 (p in s.codemap && s'.codemap[p] == s.codemap[p]) || EntryOk(s'.past, p, s'.codemap[p])
    requires forall t :: t in s'.threads ==>
               (t in s.threads && s'.threads[t].pc == s.threads[t].pc) || PcOk(s'.past, s'.threads[t].pc)
    ensures CodemapInv(s')
  {
    forall p | p in s'.codemap ensures EntryOk(s'.past, p, s'.codemap[p]) {
      if p in s.codemap && s'.codemap[p] == s.codemap[p] {
        EntryKept(s.past, m, p, s.codemap[p]);
      }
    }
    forall t | t in s'.threads ensures PcOk(s'.past, s'.threads[t].pc) {
      if t in s.threads && s'.threads[t].pc == s.threads[t].pc {
        PcKept(s.past, m, s.threads[t].pc);
      }
    }
  }

  // ----- the steps -----

  /** The crux: a hit.  The entry's content may be newer than its signature, but then it was the
      file's content after this call had read that same signature. */
  lemma HitHeldDuring(past: Past, call: Lookup, signature: ReadAt<Signature>, entry: CachedSymbols)
    requires SignatureTells(past, call.path) && SignatureOk(past, call, signature)
    requires EntryOk(past, call.path, entry) && entry.signature == signature.value
    ensures ResultHeldDuring(past, call, |past| - 1, entry.symbols)
  {
    var p := call.path;
    var i, j :| 0 <= i <= j < |past| && SignatureAt(past, i, p) == Some(entry.signature)
                && BytesAt(past, j, p) == Some(entry.symbols.bytes);
    if j < signature.at {
      assert SignatureAt(past, i, p) == SignatureAt(past, signature.at, p);
      assert BytesAt(past, signature.at, p) == BytesAt(past, j, p);
    }
  }

  predicate IsHit(s: State, call: Lookup, pc: SymbolsPc) {
    pc.Signed? && call.path in s.codemap && s.codemap[call.path].signature == pc.signature.value
  }

  lemma LookupStepPc(s: State, t: Tid, call: Lookup, pc: SymbolsPc, choice: Choice, s': State)
    requires t in s.threads && SymbolsPcOk(s.past, call, pc)
    requires pc.Called? || pc.Signed? || pc.NotCached?
    requires StepSymbols(s, t, call, pc, choice) == Some(s')
    ensures s'.past == s.past + [Current(s.past)]
    ensures t in s'.threads && s'.threads == s.threads[t := s'.threads[t]]
    ensures PcOk(s'.past, s'.threads[t].pc)
            || (IsHit(s, call, pc) && s'.codemap == s.codemap
                && s'.threads[t].pc == SymbolsReturned(call, Now(s'), s.codemap[call.path].symbols))
  {
    PastGrows(s.past, Current(s.past), call.path);
  }

  lemma ParsedStepPc(s: State, t: Tid, call: Lookup, pc: SymbolsPc, choice: Choice, s': State)
    requires t in s.threads && SymbolsPcOk(s.past, call, pc)
    requires !pc.Called? && !pc.Signed? && !pc.NotCached?
    requires StepSymbols(s, t, call, pc, choice) == Some(s')
    ensures s'.past == s.past + [Current(s.past)]
    ensures t in s'.threads && s'.threads == s.threads[t := s'.threads[t]]
    ensures PcOk(s'.past, s'.threads[t].pc)
  {
    PastGrows(s.past, Current(s.past), call.path);
    assert BytesAt(s'.past, pc.bytes.at, call.path) == Some(pc.bytes.value);
    assert ResultHeldDuring(s'.past, call, |s.past|, Parsed(call.path, pc.bytes.value));
  }

  /** What a step inside the call makes of the calling thread, a cache hit aside. */
  lemma SymbolsStepPc(s: State, t: Tid, call: Lookup, pc: SymbolsPc, choice: Choice, s': State)
    requires t in s.threads && SymbolsPcOk(s.past, call, pc)
    requires StepSymbols(s, t, call, pc, choice) == Some(s')
    ensures s'.past == s.past + [Current(s.past)]
    ensures t in s'.threads && s'.threads == s.threads[t := s'.threads[t]]
    ensures PcOk(s'.past, s'.threads[t].pc)
            || (IsHit(s, call, pc) && s'.codemap == s.codemap
                && s'.threads[t].pc == SymbolsReturned(call, Now(s'), s.codemap[call.path].symbols))
  {
    if pc.Called? || pc.Signed? || pc.NotCached? {
      LookupStepPc(s, t, call, pc, choice, s');
    } else {
      ParsedStepPc(s, t, call, pc, choice, s');
    }
  }

  /** What a step inside the call makes of the cache: nothing, or an insertion of what the thread read. */
  lemma SymbolsStepCache(s: State, t: Tid, call: Lookup, pc: SymbolsPc, choice: Choice, s': State)
    requires t in s.threads && SymbolsPcOk(s.past, call, pc)
    requires StepSymbols(s, t, call, pc, choice) == Some(s')
    ensures forall p :: p in s'.codemap ==>
                (p in s.codemap && s'.codemap[p] == s.codemap[p]) || EntryOk(s'.past, p, s'.codemap[p])
  {
    if pc.Inserting? {
      PastGrows(s.past, Current(s.past), call.path);
      assert BytesAt(s'.past, pc.bytes.at, call.path) == Some(pc.bytes.value);
      assert SignatureAt(s'.past, pc.signature.at, call.path) == Some(pc.signature.value);
      assert EntryOk(s'.past, call.path, s'.codemap[call.path]);
    }
  }

  lemma SymbolsStep(s: State, t: Tid, call: Lookup, pc: SymbolsPc, choice: Choice, s': State)
    requires CodemapInv(s) && t in s.threads && s.threads[t].pc == InSymbols(call, pc)
    requires StepSymbols(s, t, call, pc, choice) == Some(s')
    ensures CodemapInv(s')
  {
    assert PcOk(s.past, s.threads[t].pc);
    SymbolsStepPc(s, t, call, pc, choice, s');
    SymbolsStepCache(s, t, call, pc, choice, s');
    if !PcOk(s'.past, s'.threads[t].pc) {
      EntryKept(s.past, Current(s.past), call.path, s.codemap[call.path]);
      PcKept(s.past, Current(s.past), InSymbols(call, pc));
      HitHeldDuring(s'.past, call, pc.signature, s.codemap[call.path]);
    }
    InvKept(s, s', Current(s.past));
  }

  /** A step outside the call adds an instant and leaves the cache and the running calls alone. */
  ghost predicate LeavesSymbolsAlone(s: State, s': State) {
    && |s'.past| == |s.past| + 1 && s'.past == s.past + [s'.past[|s.past|]]
    && s'.codemap == s.codemap
    && (forall t :: t in s'.threads ==>
          (t in s.threads && s'.threads[t].pc == s.threads[t].pc) || PcOk(s'.past, s'.threads[t].pc))
  }

  lemma SnapshotStepShape(ttl: nat, s: State, t: Tid, pc: SnapshotPc, choice: Choice, s': State)
    requires t in s.threads && StepSnapshot(ttl, s, t, pc, choice) == Some(s')
    ensures LeavesSymbolsAlone(s, s')
  {
  }

  lemma MutationStepShape(s: State, t: Tid, lastEdit: nat, pc: MutationPc, choice: Choice, s': State)
    requires t in s.threads && StepMutation(s, t, lastEdit, pc, choice) == Some(s')
    ensures LeavesSymbolsAlone(s, s')
  {
  }

  lemma WarmerNextShape(s: State, t: Tid, choice: Choice, s': State)
    requires t in s.threads && s.threads[t].pc == InWarmer(NotCancelled)
    requires StepWarmer(s, t, choice) == Some(s')
    ensures LeavesSymbolsAlone(s, s')
  {
    assert PcOk(s'.past, s'.threads[t].pc);
  }

  lemma WarmerStepShape(s: State, t: Tid, choice: Choice, s': State)
    requires t in s.threads && StepWarmer(s, t, choice) == Some(s')
    ensures LeavesSymbolsAlone(s, s')
  {
    if s.threads[t].pc == InWarmer(NotCancelled) {
      WarmerNextShape(s, t, choice, s');
    } else {
      assert PcOk(s'.past, s'.threads[t].pc);
    }
  }

  lemma OtherStepsShape(ttl: nat, s: State, a: Action, s': State)
    requires Step(ttl, s, a) == Some(s') && (a.Advance? ==> !s.threads[a.t].pc.InSymbols?)
    ensures LeavesSymbolsAlone(s, s')
  {
    match a
    case Advance(t, choice) =>
      var pc := s.threads[t].pc;
      if pc.InSnapshot? {
        SnapshotStepShape(ttl, s, t, pc.snap, choice, s');
      } else if pc.InMutation? {
        MutationStepShape(s, t, pc.lastEdit, pc.mutation, choice, s');
      } else if !pc.Registering? && !pc.Spawning? {
        WarmerStepShape(s, t, choice, s');
      }
    case _ =>
  }

  lemma AloneKeeps(s: State, s': State)
    requires CodemapInv(s) && LeavesSymbolsAlone(s, s')
    ensures CodemapInv(s')
  {
    InvKept(s, s', Current(s'.past));
  }

  lemma {:induction false} AlwaysCodemapInv(ttl: nat, files: Files, actions: seq<Action>)
    ensures Run(ttl, files, actions).Some? ==> CodemapInv(Run(ttl, files, actions).value)
    decreases |actions|
  {
    if actions != [] {
      var n := |actions| - 1;
      AlwaysCodemapInv(ttl, files, actions[..n]);
      if Run(ttl, files, actions).Some? {
        var s := Run(ttl, files, actions[..n]).value;
        var s' := Step(ttl, s, actions[n]).value;
        if actions[n].Advance? && s.threads[actions[n].t].pc.InSymbols? {
          var t := actions[n].t;
          SymbolsStep(s, t, s.threads[t].pc.call, s.threads[t].pc.sym, actions[n].choice, s');
        } else {
          OtherStepsShape(ttl, s, actions[n], s');
          AloneKeeps(s, s');
        }
      }
    }
  }

  /** In every run, every call that returned symbols, hit or miss, returned the parse of content its
      file held at some instant between the call's beginning and its return, if no signature of that file
      came back over other content. */
  lemma CodeSymbolsLinearizable(ttl: nat, files: Files, actions: seq<Action>, t: Tid, s: State, call: Lookup,
                                returnedAt: nat, symbols: Symbols)
    requires Run(ttl, files, actions) == Some(s)
    requires t in s.threads && s.threads[t].pc == SymbolsReturned(call, returnedAt, symbols)
    requires SignatureTells(s.past, call.path)
    ensures symbols.path == call.path
    ensures exists k :: call.began <= k <= returnedAt < |s.past|
                        && BytesAt(s.past, k, call.path) == Some(symbols.bytes)
  {
    AlwaysCodemapInv(ttl, files, actions);
    assert PcOk(s.past, s.threads[t].pc);
  }
}
