/** Where names come from, and why inline records never touch scores or fingerprints. */
module ResultLaws {
  import opened Basics
  import opened Text
  import opened Evidence
  import opened Frames
  import opened FrameLaws
  import opened Assembler
  import opened AssemblerLaws
  import opened Independence

  // ----- every shown name comes from an accepted packet -----

  /** The symbol, or a record inlined into it, has this name. */
  predicate Says(symbol: Symbol, name: string) {
    symbol.functionName == Some(name) || exists i | 0 <= i < |symbol.inlines| :: symbol.inlines[i].functionName == Some(name)
  }

  predicate NamedBy(s: Stack, v: FrameV11) {
    match v.frame.functionRaw
    case None => true
    case Some(name) =>
      var symbol := SymbolAt(s.table, s.thread, v.physicalIndex);
      symbol.Some? && Says(symbol.value, name)
  }

  lemma BlockNamed(s: Stack, f: nat, index: nat)
    requires f < |s.raw| && FrameOk(s.raw[f]) && |s.infos| == |s.report.modules|
    ensures forall k | 0 <= k < |ZippedBlock(s, f, index)| :: NamedBy(s, ZippedBlock(s, f, index)[k])
  {
    hide FrameOf, FrameOk;
    var symbol := SymbolAt(s.table, s.thread, f);
    FrameFields(s.report, s.infos, s.raw[f], index, symbol, false);
    if symbol.Some? {
      var inlines := symbol.value.inlines;
      forall i | 0 <= i < |inlines|
        ensures InlineFrames(s.report, s.infos, s.raw[f], index + 1, inlines)[i].functionRaw == inlines[i].functionName
      {
        FrameFields(s.report, s.infos, s.raw[f], index + 1 + i, Some(inlines[i]), true);
      }
    }
  }

  lemma {:induction false} StackNamed(s: Stack, n: nat)
    requires StackOk(s, n)
    ensures forall k | 0 <= k < |Zipped(s, n)| :: NamedBy(s, Zipped(s, n)[k])
  {
    hide FrameOk, Block, ProvenanceOf, NamedBy, Zip;
    if n > 0 {
      StackNamed(s, n - 1);
      Aligned(s, n - 1);
      var init, index := Zipped(s, n - 1), |FramesOf(s, n - 1)|;
      BlockNamed(s, n - 1, index);
      ZipAppend(FramesOf(s, n - 1), Block(s.report, s.infos, s.raw[n - 1], index, SymbolAt(s.table, s.thread, n - 1)),
                ProvenancesOf(s, n - 1), Repeat(ProvenanceOf(s.report, s.raw[n - 1], n - 1), BlockSize(s, n - 1)));
      assert Zipped(s, n) == init + ZippedBlock(s, n - 1, index);
    } else {
      ZipLength([], []);
    }
  }

  /** Every function name in the result was spoken by a packet that passed all checks, about that very frame. */
  lemma NamesComeFromPackets(
    report: InspectReport, unwind: UnwindReport, symbols: seq<FrameSymbol>, inputs: FrozenInputs, t: nat,
    k: nat, name: string)
    requires |inputs.modules| == |report.modules| && Assemblable(report, unwind, symbols, inputs)
    requires t < |unwind.threads| && k < |Assembled(report, unwind, symbols, inputs).threads[t].frames|
    requires Assembled(report, unwind, symbols, inputs).threads[t].frames[k].frame.functionRaw == Some(name)
    ensures exists i | 0 <= i < |symbols| ::
              && PacketOk(report, unwind, inputs, symbols[i])
              && SlotOf(symbols[i]) == (t, Assembled(report, unwind, symbols, inputs).threads[t].frames[k].physicalIndex)
              && Says(symbols[i].symbol, name)
  {
    hide PacketChecks, FrameOk, Infos, FramesOf, ProvenancesOf, Says, PacketTable;
    AssemblableFrames(report, unwind, symbols, inputs);
    var s := StackAt(report, unwind, symbols, inputs, t);
    StackNamed(s, |s.raw|);
    var frames := Assembled(report, unwind, symbols, inputs).threads[t].frames;
    assert frames == Zipped(s, |s.raw|);
    assert NamedBy(s, frames[k]);
    TableEntry(symbols, |symbols|);
    var slot := (t, frames[k].physicalIndex);
    assert slot in s.table;
    var i :| 0 <= i < |symbols| && SlotOf(symbols[i]) == slot;
    assert PacketOk(report, unwind, inputs, symbols[i]);
  }

  // ----- inline records do not touch scores or fingerprints -----

  predicate SameButIndex(a: FrameInfo, b: FrameInfo) {
    a == b.(index := a.index)
  }

  ghost predicate SameButIndexes(a: seq<FrameInfo>, b: seq<FrameInfo>) {
    |a| == |b| && forall i | 0 <= i < |a| :: SameButIndex(a[i], b[i])
  }

  /** Symbols that differ at most in the records inlined into them. */
  predicate SameOuter(a: Option<Symbol>, b: Option<Symbol>) {
    match (a, b)
    case (Some(x), Some(y)) => x == y.(inlines := x.inlines)
    case (None, None) => true
    case _ => false
  }

  lemma OuterFrame(
    report: InspectReport, infos: seq<ModuleInfo>, raw: UnwindFrame, i: nat, j: nat, a: Option<Symbol>,
    b: Option<Symbol>)
    requires FrameOk(raw) && |infos| == |report.modules| && SameOuter(a, b)
    ensures SameButIndex(FrameOf(report, infos, raw, i, a, false), FrameOf(report, infos, raw, j, b, false))
  {
    hide FoldOf, ModuleOfPc, FormatHex, NormalizeFunction, FallbackName;
  }

  lemma PhysicalBlock(
    report: InspectReport, infos: seq<ModuleInfo>, raw: UnwindFrame, index: nat, symbol: Option<Symbol>)
    requires FrameOk(raw) && |infos| == |report.modules|
    ensures Physical(Block(report, infos, raw, index, symbol)) == [FrameOf(report, infos, raw, index, symbol, false)]
  {
    hide FrameOf, FrameOk;
    var outer := [FrameOf(report, infos, raw, index, symbol, false)];
    FrameFields(report, infos, raw, index, symbol, false);
    if symbol.Some? {
      var inlines := InlineFrames(report, infos, raw, index + 1, symbol.value.inlines);
      forall i | 0 <= i < |inlines|
        ensures inlines[i].isInline
      {
        FrameFields(report, infos, raw, index + 1 + i, Some(symbol.value.inlines[i]), true);
      }
      PhysicalOfInlines(inlines);
      PhysicalAppend(outer, inlines);
    }
    assert Physical(outer) == outer;
  }

  predicate SameOuterStack(s: Stack, s': Stack) {
    && s.report == s'.report && s.infos == s'.infos && s.raw == s'.raw && s.thread == s'.thread
    && forall f | 0 <= f < |s.raw| :: SameOuter(SymbolAt(s.table, s.thread, f), SymbolAt(s'.table, s'.thread, f))
  }

  /** The outer frame of a block. */
  ghost function OuterAt(s: Stack, f: nat): FrameInfo
    requires StackOk(s, f) && f < |s.raw| && FrameOk(s.raw[f])
  {
    FrameOf(s.report, s.infos, s.raw[f], |FramesOf(s, f)|, SymbolAt(s.table, s.thread, f), false)
  }

  lemma OneMoreOuter(s: Stack, n: nat)
    requires StackOk(s, n) && n > 0
    ensures StackOk(s, n - 1) && Physical(FramesOf(s, n)) == Physical(FramesOf(s, n - 1)) + [OuterAt(s, n - 1)]
  {
    hide FrameOk, FrameOf, Block;
    var index, symbol := |FramesOf(s, n - 1)|, SymbolAt(s.table, s.thread, n - 1);
    PhysicalAppend(FramesOf(s, n - 1), Block(s.report, s.infos, s.raw[n - 1], index, symbol));
    PhysicalBlock(s.report, s.infos, s.raw[n - 1], index, symbol);
  }

  /** The physical frames of a stack: the outer frame of every block. */
  lemma {:induction false} PhysicalFrames(s: Stack, n: nat)
    requires StackOk(s, n)
    ensures |Physical(FramesOf(s, n))| == n
    ensures forall f | 0 <= f < n :: Physical(FramesOf(s, n))[f] == OuterAt(s, f)
  {
    hide FrameOk, FramesOf, OuterAt;
    if n > 0 {
      PhysicalFrames(s, n - 1);
      OneMoreOuter(s, n);
    } else {
      NoFrames(s);
    }
  }

  lemma NoFrames(s: Stack)
    requires StackOk(s, 0)
    ensures Physical(FramesOf(s, 0)) == []
  {
  }

  lemma PhysicalPairs(s: Stack, s': Stack, n: nat)
    requires StackOk(s, n) && SameOuterStack(s, s')
    ensures SameButIndexes(Physical(FramesOf(s, n)), Physical(FramesOf(s', n)))
  {
    hide FrameOk, FrameOf, FramesOf, SameButIndex, SameOuter;
    PhysicalFrames(s, n);
    PhysicalFrames(s', n);
    forall f | 0 <= f < n
      ensures SameButIndex(Physical(FramesOf(s, n))[f], Physical(FramesOf(s', n))[f])
    {
      OuterFrame(s.report, s.infos, s.raw[f], |FramesOf(s, f)|, |FramesOf(s', f)|,
                 SymbolAt(s.table, s.thread, f), SymbolAt(s'.table, s'.thread, f));
    }
  }

  // ----- congruence of scores and payloads -----

  ghost predicate Alike(a: ThreadInfo, b: ThreadInfo) {
    a.id == b.id && a.isCrashing == b.isCrashing && SameButIndexes(Physical(a.frames), Physical(b.frames))
  }

  ghost predicate AllAlike(a: seq<ThreadInfo>, b: seq<ThreadInfo>) {
    |a| == |b| && forall i | 0 <= i < |a| :: Alike(a[i], b[i])
  }

  lemma {:induction false} FindAlike(a: seq<ThreadInfo>, b: seq<ThreadInfo>, p: ThreadInfo -> bool)
    requires AllAlike(a, b) && forall x, y | Alike(x, y) :: p(x) == p(y)
    ensures FindThread(a, p).Some? <==> FindThread(b, p).Some?
    ensures FindThread(a, p).Some? ==> Alike(FindThread(a, p).value, FindThread(b, p).value)
  {
    hide Alike;
    if a != [] {
      assert Alike(a[0], b[0]);
      FindAlike(a[1..], b[1..], p);
    }
  }

  lemma {:induction false} CountAlike(a: seq<FrameInfo>, b: seq<FrameInfo>, p: FrameInfo -> bool)
    requires SameButIndexes(a, b) && forall x, y | SameButIndex(x, y) :: p(x) == p(y)
    ensures Count(a, p) == Count(b, p)
  {
    if a != [] {
      CountAlike(a[..|a| - 1], b[..|b| - 1], p);
      assert SameButIndex(a[|a| - 1], b[|b| - 1]);
    }
  }

  lemma {:induction false} WeightAlike(a: seq<FrameInfo>, b: seq<FrameInfo>)
    requires SameButIndexes(a, b)
    ensures TotalWeight(a) == TotalWeight(b)
  {
    if a != [] {
      WeightAlike(a[..|a| - 1], b[..|b| - 1]);
      assert SameButIndex(a[|a| - 1], b[|b| - 1]);
    }
  }

  lemma ScannedAlike(a: seq<FrameInfo>, b: seq<FrameInfo>)
    requires SameButIndexes(a, b)
    ensures AnyScanned(a) == AnyScanned(b)
  {
    if AnyScanned(a) {
      var i :| 0 <= i < |a| && a[i].trust == "scan";
      assert SameButIndex(a[i], b[i]);
    }
    if AnyScanned(b) {
      var i :| 0 <= i < |b| && b[i].trust == "scan";
      assert SameButIndex(a[i], b[i]);
    }
  }

  lemma QualityAlike(a: seq<ThreadInfo>, b: seq<ThreadInfo>, modules: seq<ModuleInfo>)
    requires AllAlike(a, b)
    ensures QualityOf(a, modules) == QualityOf(b, modules)
  {
    hide Count, TotalWeight, Physical, Ratio, FindThread;
    FindAlike(a, b, (t: ThreadInfo) => t.isCrashing);
    var x, y := ScoredThread(a), ScoredThread(b);
    assert a != [] ==> Alike(a[0], b[0]);
    assert x.Some? <==> y.Some?;
    var fa := if x.Some? then Physical(x.value.frames) else [];
    var fb := if y.Some? then Physical(y.value.frames) else [];
    assert SameButIndexes(fa, fb);
    CountAlike(fa, fb, Identifiable);
    CountAlike(fa, fb, (f: FrameInfo) => Identifiable(f) && Symbolized(f));
    WeightAlike(fa, fb);
    ScannedAlike(fa, fb);
  }

  lemma {:induction false} FreshAlike(a: seq<FrameInfo>, b: seq<FrameInfo>, n: nat)
    requires SameButIndexes(a, b) && n <= |a|
    ensures FreshIndexes(a, n) == FreshIndexes(b, n)
  {
    hide Denied;
    if n > 0 {
      FreshAlike(a, b, n - 1);
      forall i | 0 <= i < n
        ensures Eligible(a, i) == Eligible(b, i) && a[i].instructionAddr == b[i].instructionAddr
      {
        EligibleAlike(a, b, i);
      }
    }
  }

  lemma EligibleAlike(a: seq<FrameInfo>, b: seq<FrameInfo>, i: nat)
    requires SameButIndexes(a, b) && i < |a|
    ensures Eligible(a, i) == Eligible(b, i) && a[i].instructionAddr == b[i].instructionAddr
  {
    assert SameButIndex(a[i], b[i]);
    assert i > 0 ==> SameButIndex(a[i - 1], b[i - 1]);
    assert i + 1 < |a| ==> SameButIndex(a[i + 1], b[i + 1]);
    assert Denied(a[i]) == Denied(b[i]);
  }

  lemma SelectedAlike(a: seq<FrameInfo>, b: seq<FrameInfo>)
    requires SameButIndexes(a, b)
    ensures SameButIndexes(Selected(a), Selected(b))
  {
    hide FreshIndexes;
    FreshAlike(a, b, |a|);
  }

  lemma {:induction false} TokensAlike(a: seq<FrameInfo>, b: seq<FrameInfo>)
    requires SameButIndexes(a, b)
    ensures TokensOf(a) == TokensOf(b)
  {
    if a != [] {
      TokensAlike(a[..|a| - 1], b[..|b| - 1]);
      assert SameButIndex(a[|a| - 1], b[|b| - 1]);
    }
  }

  lemma ExactAlike(workspace: string, exception: Option<InspectException>, crashThreadId: Option<u32>,
                   modules: seq<ModuleInfo>, a: seq<ThreadInfo>, b: seq<ThreadInfo>)
    requires AllAlike(a, b)
    ensures ExactPayload(workspace, exception, crashThreadId, modules, a) == ExactPayload(workspace, exception, crashThreadId, modules, b)
  {
    hide Physical, Selected, TokensOf, ModuleAtAddress, ParseHex, Payload, FindThread;
    if crashThreadId.Some? {
      var p := (t: ThreadInfo) => t.id == crashThreadId.value;
      FindAlike(a, b, p);
      if FindThread(a, p).Some? {
        var x, y := Physical(FindThread(a, p).value.frames), Physical(FindThread(b, p).value.frames);
        SelectedAlike(x, y);
        TokensAlike(Selected(x), Selected(y));
        assert forall i | 0 <= i < |Selected(x)| :: SameButIndex(Selected(x)[i], Selected(y)[i]);
      }
    }
  }

  /** Packets that differ at most in their inline records. */
  predicate SameOuterPacket(a: FrameSymbol, b: FrameSymbol) {
    a == b.(symbol := b.symbol.(inlines := a.symbol.inlines))
  }

  ghost predicate SameOuterPackets(a: seq<FrameSymbol>, b: seq<FrameSymbol>) {
    |a| == |b| && forall i | 0 <= i < |a| :: SameOuterPacket(a[i], b[i])
  }

  lemma {:induction false} OuterTables(a: seq<FrameSymbol>, b: seq<FrameSymbol>, n: nat, t: nat, f: nat)
    requires SameOuterPackets(a, b) && n <= |a|
    ensures SameOuter(SymbolAt(PacketTable(a, n), t, f), SymbolAt(PacketTable(b, n), t, f))
  {
    if n > 0 {
      OuterTables(a, b, n - 1, t, f);
      assert SameOuterPacket(a[n - 1], b[n - 1]);
    }
  }

  lemma ThreadsAlike(
    report: InspectReport, unwind: UnwindReport, a: seq<FrameSymbol>, b: seq<FrameSymbol>, inputs: FrozenInputs,
    t: nat)
    requires |inputs.modules| == |report.modules| && FramesOk(unwind) && SameOuterPackets(a, b) && t < |unwind.threads|
    ensures Alike(PreparedThread(report, unwind, a, inputs, t), PreparedThread(report, unwind, b, inputs, t))
  {
    hide FrameOk, FramesOf, Infos, PacketTable, Physical, SameOuter;
    var s, s' := StackAt(report, unwind, a, inputs, t), StackAt(report, unwind, b, inputs, t);
    forall f | 0 <= f < |s.raw|
      ensures SameOuter(SymbolAt(s.table, s.thread, f), SymbolAt(s'.table, s'.thread, f))
    {
      OuterTables(a, b, |a|, t, f);
    }
    PhysicalPairs(s, s', |s.raw|);
  }

  /** Packet lists that differ only in inline records give the same scores, warnings and fingerprint. */
  lemma InlinesDoNotCount(
    report: InspectReport, unwind: UnwindReport, a: seq<FrameSymbol>, b: seq<FrameSymbol>, inputs: FrozenInputs)
    requires |inputs.modules| == |report.modules| && FramesOk(unwind) && SameOuterPackets(a, b)
    ensures var x, y := Assembled(report, unwind, a, inputs), Assembled(report, unwind, b, inputs);
            x.quality == y.quality && x.warnings == y.warnings && x.exactPayload == y.exactPayload && x.modules == y.modules
  {
    hide FramesOk, PreparedThread, FinalThreads, QualityOf, ExactPayload, AllWarnings, Alike, SameOuterPackets;
    var x, y := PreparedThreads(report, unwind, a, inputs), PreparedThreads(report, unwind, b, inputs);
    forall t | 0 <= t < |x|
      ensures Alike(x[t], y[t])
    {
      ThreadsAlike(report, unwind, a, b, inputs, t);
    }
    QualityAlike(x, y, Infos(report, inputs));
    ExactAlike(inputs.workspaceId, report.exception, report.crashThreadId, Infos(report, inputs), x, y);
  }

  // ----- exact fingerprints rest on reliable frames -----

  /** Methods that are more than scanning. */
  predicate Reliable(unwindMethod: Option<string>) {
    unwindMethod == Some("context") || unwindMethod == Some("call_frame_info") || unwindMethod == Some("frame_pointer")
  }

  lemma ReliableMethod(raw: UnwindFrame)
    requires FrameOk(raw)
    ensures var effective := FoldOf(raw.unwindMethod.value).value.effective;
            effective != "scan" && effective != "unknown" <==> Reliable(raw.unwindMethod)
  {
    assert |"scan"| == 4 && |"unknown"| == 7 && |"context"| == 7 && "unknown"[0] != "context"[0];
  }

  lemma {:induction false} FoundThread(threads: seq<ThreadInfo>, p: ThreadInfo -> bool)
    requires FindThread(threads, p).Some?
    ensures exists i | 0 <= i < |threads| ::
              threads[i] == FindThread(threads, p).value && p(threads[i]) && forall j | 0 <= j < i :: !p(threads[j])
  {
    if !p(threads[0]) {
      FoundThread(threads[1..], p);
      var i :| 0 <= i < |threads[1..]| && threads[1..][i] == FindThread(threads, p).value && p(threads[1..][i])
               && forall j | 0 <= j < i :: !p(threads[1..][j]);
      assert threads[i + 1] == threads[1..][i];
      assert forall j | 0 < j < i + 1 :: threads[j] == threads[1..][j - 1];
    }
  }

  /** The debug id of the module that holds the faulting address. */
  function FaultModuleId(e: InspectException, modules: seq<ModuleInfo>): Option<string> {
    var address :- ParseHex(e.address);
    var fault :- ModuleAtAddress(modules, address);
    fault.debugId
  }

  /** The payload spells the frames selected from the first thread with the crashing id, and `frames` are its physical ones. */
  ghost predicate SpelledFrom(
    payload: string, workspace: string, exception: Option<InspectException>, crashThreadId: Option<u32>,
    modules: seq<ModuleInfo>, threads: seq<ThreadInfo>, t: nat)
    requires t < |threads|
  {
    var selected := Selected(Physical(threads[t].frames));
    && crashThreadId == Some(threads[t].id) && (forall u | 0 <= u < t :: threads[u].id != threads[t].id)
    && exception.Some? && TokensOf(selected).Some? && FaultModuleId(exception.value, modules).Some?
    && payload == Payload(workspace, exception.value.code,
                          if exception.value.accessType.Some? then exception.value.accessType.value else "-",
                          FaultModuleId(exception.value, modules).value, TokensOf(selected).value)
  }

  /** Among the frames whose tokens enter the payload, the `k`-th is physical frame `f`, and it is not merely scanned. */
  ghost predicate Anchor(frames: seq<FrameInfo>, k: nat, f: nat) {
    && k < |Selected(frames)| && f < |frames|
    && Selected(frames)[k] == frames[f] && frames[f].trust != "scan" && frames[f].trust != "unknown"
  }

  lemma ExactNeedsTrust(workspace: string, exception: Option<InspectException>, crashThreadId: Option<u32>,
                        modules: seq<ModuleInfo>, threads: seq<ThreadInfo>)
    requires ExactPayload(workspace, exception, crashThreadId, modules, threads).Some?
    ensures exists t: nat, k: nat, f: nat | t < |threads| ::
              && SpelledFrom(ExactPayload(workspace, exception, crashThreadId, modules, threads).value,
                             workspace, exception, crashThreadId, modules, threads, t)
              && Anchor(Physical(threads[t].frames), k, f)
  {
    hide Physical, Selected, TokensOf, ModuleAtAddress, ParseHex, Payload, FindThread;
    var p := (t: ThreadInfo) => t.id == crashThreadId.value;
    FoundThread(threads, p);
    var t :| 0 <= t < |threads| && threads[t] == FindThread(threads, p).value && p(threads[t])
             && forall j | 0 <= j < t :: !p(threads[j]);
    var frames := Physical(threads[t].frames);
    SelectedFrames(frames);
    var k :| 0 <= k < |Selected(frames)| && Selected(frames)[k].trust != "scan";
    assert Selected(frames)[k] in Selected(frames);
    var f :| 0 <= f < |frames| && frames[f] == Selected(frames)[k];
    assert SpelledFrom(ExactPayload(workspace, exception, crashThreadId, modules, threads).value,
                       workspace, exception, crashThreadId, modules, threads, t);
    assert Anchor(frames, k, f);
  }

  /** The `k`-th selected physical frame of thread `t` is the frame of raw frame `f`, which was not merely scanned. */
  ghost predicate ReliablySelected(
    report: InspectReport, unwind: UnwindReport, symbols: seq<FrameSymbol>, inputs: FrozenInputs, t: nat, k: nat, f: nat)
    requires |inputs.modules| == |report.modules| && FramesOk(unwind) && t < |unwind.threads|
  {
    var frames := Physical(PreparedThread(report, unwind, symbols, inputs, t).frames);
    && |frames| == |unwind.threads[t].frames|
    && k < |Selected(frames)| && f < |frames| && Selected(frames)[k] == frames[f]
    && Reliable(unwind.threads[t].frames[f].unwindMethod)
  }

  /**
   An exact fingerprint spells the frames selected from the crashing thread, and at least one of those very
   frames was found by context, call frame information or frame pointer, never only by scanning.
   */
  lemma ExactRestsOnReliableFrame(
    report: InspectReport, unwind: UnwindReport, symbols: seq<FrameSymbol>, inputs: FrozenInputs)
    requires |inputs.modules| == |report.modules| && Assemblable(report, unwind, symbols, inputs)
    requires Assembled(report, unwind, symbols, inputs).exactPayload.Some?
    ensures exists t: nat, k: nat, f: nat | t < |unwind.threads| ::
              && SpelledFrom(Assembled(report, unwind, symbols, inputs).exactPayload.value, inputs.workspaceId,
                             report.exception, report.crashThreadId, Infos(report, inputs),
                             PreparedThreads(report, unwind, symbols, inputs), t)
              && ReliablySelected(report, unwind, symbols, inputs, t, k, f)
  {
    hide FrameOk, FramesOf, Infos, PacketTable, Physical, ExactPayload, QualityOf, AllWarnings, FinalThreads, FoldOf,
         Selected, SpelledFrom;
    AssemblableFrames(report, unwind, symbols, inputs);
    var threads := PreparedThreads(report, unwind, symbols, inputs);
    ExactNeedsTrust(inputs.workspaceId, report.exception, report.crashThreadId, Infos(report, inputs), threads);
    var t: nat, k: nat, f: nat :| t < |threads|
                   && SpelledFrom(Assembled(report, unwind, symbols, inputs).exactPayload.value, inputs.workspaceId,
                                  report.exception, report.crashThreadId, Infos(report, inputs), threads, t)
                   && Anchor(Physical(threads[t].frames), k, f);
    var s := StackAt(report, unwind, symbols, inputs, t);
    PhysicalFrames(s, |s.raw|);
    FrameFields(s.report, s.infos, s.raw[f], |FramesOf(s, f)|, SymbolAt(s.table, s.thread, f), false);
    ReliableMethod(s.raw[f]);
    assert ReliablySelected(report, unwind, symbols, inputs, t, k, f);
  }
}
