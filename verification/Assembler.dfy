/** Assembling the canonical result from an unwound dump and symbol packets, re-checking every packet. */
module Assembler {
  import opened Basics
  import opened Text
  import opened Evidence
  import opened Layout
  import opened Frames

  datatype FrozenModule = FrozenModule(
    selection: FrozenSelection,
    role: string,
    inApp: bool,
    artifactIds: seq<string>,
    sourceOutcomes: seq<SourceOutcome>)

  datatype FrozenInputs = FrozenInputs(
    workspaceId: string,
    coreImageDigest: string,
    modules: seq<FrozenModule>,
    publicSourceIds: seq<string>)

  datatype FrameV11 = FrameV11(frame: FrameInfo, moduleIndex: Option<nat>, physicalIndex: nat, unwindMethod: string)

  datatype ThreadV11 = ThreadV11(id: u32, isCrashing: bool, frames: seq<FrameV11>)

  datatype ModuleV11 = ModuleV11(
    info: ModuleInfo, moduleIndex: nat, selection: FrozenSelection, sourceOutcomes: seq<SourceOutcome>)

  datatype CanonicalResult = CanonicalResult(
    threads: seq<ThreadV11>,
    modules: seq<ModuleV11>,
    quality: Quality,
    warnings: seq<Warning>,
    exactPayload: Option<string>)

  // ----- validation of the frozen modules -----

  predicate IsRole(role: string) {
    role == "entrypoint" || role == "owned" || role == "dependency" || role == "system" || role == "unknown"
  }

  predicate OwnRole(role: string) {
    role == "entrypoint" || role == "owned"
  }

  predicate BlockedState(s: SelectionState) {
    s.ConflictState? || s.UnavailableState? || s.IndeterminateState?
  }

  predicate NonEmptyEach(s: seq<string>) {
    forall i | 0 <= i < |s| :: s[i] != ""
  }

  predicate OutcomeAllowed(state: SelectionState, o: SourceOutcome) {
    ValidOutcome(o) && (BlockedState(state) ==> o.outcome.Blocked?)
  }

  /** The outcomes a module may carry into the result. */
  ghost predicate OutcomesOk(state: SelectionState, outcomes: seq<SourceOutcome>) {
    OneOutcomePerStage(outcomes) && forall o | o in outcomes :: OutcomeAllowed(state, o)
  }

  ghost predicate FrozenModuleOk(report: InspectReport, i: nat, frozen: FrozenModule)
    requires i < |report.modules|
  {
    && ValidSelection(frozen.selection, i, report.modules[i], report.process.architecture)
    && IsRole(frozen.role) && frozen.inApp == OwnRole(frozen.role)
    && NonEmptyEach(frozen.artifactIds) && SortedUnique(frozen.artifactIds)
    && OutcomesOk(frozen.selection.state, frozen.sourceOutcomes)
  }

  /** The part of `validate_inputs` that concerns modules and sources. */
  ghost predicate InputsOk(report: InspectReport, inputs: FrozenInputs) {
    && |inputs.modules| == |report.modules|
    && NonEmptyEach(inputs.publicSourceIds) && SortedUnique(inputs.publicSourceIds)
    && forall i | 0 <= i < |inputs.modules| :: FrozenModuleOk(report, i, inputs.modules[i])
  }

  method CheckOutcomes(state: SelectionState, outcomes: seq<SourceOutcome>) returns (ok: bool)
    ensures ok <==> OutcomesOk(state, outcomes)
  {
    hide ValidOutcome;
    var stages: set<(string, Stage)> := {};
    for i := 0 to |outcomes|
      invariant forall j | 0 <= j < i :: OutcomeAllowed(state, outcomes[j])
      invariant forall j, k | 0 <= j < k < i ::
                  outcomes[j].sourceId != outcomes[k].sourceId || outcomes[j].stage != outcomes[k].stage
      invariant forall source, stage ::
                  (source, stage) in stages <==> exists j | 0 <= j < i :: outcomes[j].sourceId == source && outcomes[j].stage == stage
    {
      var o := outcomes[i];
      if !OutcomeAllowed(state, o) || (o.sourceId, o.stage) in stages {
        assert o in outcomes;
        return false;
      }
      stages := stages + {(o.sourceId, o.stage)};
    }
    ok := true;
  }

  method ValidateInputs(report: InspectReport, inputs: FrozenInputs) returns (ok: bool)
    ensures ok <==> InputsOk(report, inputs)
  {
    hide ValidSelection, IsRole, SortedUnique;
    if |inputs.modules| != |report.modules|
       || !NonEmptyEach(inputs.publicSourceIds) || !SortedUnique(inputs.publicSourceIds) {
      return false;
    }
    for i := 0 to |inputs.modules|
      invariant forall j | 0 <= j < i :: FrozenModuleOk(report, j, inputs.modules[j])
    {
      hide OutcomesOk;
      var frozen := inputs.modules[i];
      ok := CheckOutcomes(frozen.selection.state, frozen.sourceOutcomes);
      if !ok
         || !ValidSelection(frozen.selection, i, report.modules[i], report.process.architecture)
         || !IsRole(frozen.role) || frozen.inApp != OwnRole(frozen.role)
         || !NonEmptyEach(frozen.artifactIds) || !SortedUnique(frozen.artifactIds) {
        assert !FrozenModuleOk(report, i, frozen);
        return false;
      }
    }
    ok := true;
  }

  // ----- where modules lie, by the assembler's reading -----

  function HexExtent(m: InspectModule): Option<Extent> {
    var base :- HexText(m.imageBase);
    if base + m.imageSize < U64_BOUND then Some(Extent(base, m.imageSize)) else None
  }

  predicate HexAddressesOk(modules: seq<InspectModule>) {
    forall i | 0 <= i < |modules| :: HexExtent(modules[i]).Some?
  }

  function HexExtentOf(m: InspectModule): Extent {
    match HexExtent(m)
    case Some(e) => e
    case None => Extent(0, 0)
  }

  function HexExtents(modules: seq<InspectModule>): seq<Extent> {
    seq(|modules|, i requires 0 <= i < |modules| => HexExtentOf(modules[i]))
  }

  function ModuleOfPc(report: InspectReport, pc: u64): (r: Option<nat>)
    ensures r.Some? ==> r.value < |report.modules|
  {
    FirstMatch(HexExtents(report.modules), pc)
  }

  // ----- packets -----

  predicate HasFrame(unwind: UnwindReport, t: nat, f: nat) {
    t < |unwind.threads| && f < |unwind.threads[t].frames|
  }

  /** The packet's source is the pair that the module selected, or a public source where none was selected. */
  predicate FromFrozenSource(frozen: FrozenModule, publicIds: seq<string>, packet: FrameSymbol) {
    match packet.pairId
    case Some(pair) => frozen.selection.state.UniqueState? && frozen.selection.selectedPairId == Some(pair)
    case None => frozen.selection.state.NoneState? && packet.sourceId in publicIds
  }

  predicate Correlated(frozen: FrozenModule, sourceId: string) {
    exists i | 0 <= i < |frozen.sourceOutcomes| ::
      var o := frozen.sourceOutcomes[i];
      o.sourceId == sourceId && o.stage.Symbolicate? && o.outcome.Found? && o.diagnosticRef.Some?
  }

  /** The checks on one packet, given the module in which its instruction lies. */
  predicate PacketChecks(unwind: UnwindReport, inputs: FrozenInputs, packet: FrameSymbol, found: Option<nat>)
    requires found.Some? ==> found.value < |inputs.modules|
  {
    && HasFrame(unwind, packet.threadIndex, packet.physicalIndex)
    && unwind.threads[packet.threadIndex].frames[packet.physicalIndex].instruction == packet.instruction
    && found == Some(packet.moduleIndex)
    && FromFrozenSource(inputs.modules[packet.moduleIndex], inputs.publicSourceIds, packet)
    && Correlated(inputs.modules[packet.moduleIndex], packet.sourceId)
    && forall i | 0 <= i < |packet.symbol.inlines| :: packet.symbol.inlines[i].inlines == []
  }

  predicate PacketOk(report: InspectReport, unwind: UnwindReport, inputs: FrozenInputs, packet: FrameSymbol)
    requires |inputs.modules| == |report.modules|
  {
    PacketChecks(unwind, inputs, packet, ModuleOfPc(report, packet.instruction))
  }

  type Slot = (nat, nat)

  function SlotOf(packet: FrameSymbol): Slot {
    (packet.threadIndex, packet.physicalIndex)
  }

  ghost predicate DistinctSlots(symbols: seq<FrameSymbol>) {
    forall i, j | 0 <= i < j < |symbols| :: SlotOf(symbols[i]) != SlotOf(symbols[j])
  }

  ghost predicate PacketsOk(
    report: InspectReport, unwind: UnwindReport, inputs: FrozenInputs, symbols: seq<FrameSymbol>)
    requires |inputs.modules| == |report.modules|
  {
    && (forall i | 0 <= i < |symbols| :: PacketOk(report, unwind, inputs, symbols[i]))
    && DistinctSlots(symbols)
  }

  /** The symbols by frame. */
  function PacketTable(symbols: seq<FrameSymbol>, n: nat): map<Slot, Symbol>
    requires n <= |symbols|
  {
    if n == 0 then map[] else PacketTable(symbols, n - 1)[SlotOf(symbols[n - 1]) := symbols[n - 1].symbol]
  }

  // ----- modules -----

  predicate AnyOutcome(outcomes: seq<SourceOutcome>, p: SourceOutcome -> bool) {
    exists i | 0 <= i < |outcomes| :: p(outcomes[i])
  }

  function NoneStatus(outcomes: seq<SourceOutcome>): string {
    if AnyOutcome(outcomes, (o: SourceOutcome) => o.stage.Symbolicate?
                              && (o.failureClass.Transient? || o.reason == "source_budget_exhausted_before_request")) then
      "system_symbol_pending"
    else if AnyOutcome(outcomes, (o: SourceOutcome) => o.stage.Unwinding? && o.outcome.Found?
                                   && o.reason == "identity_verified_for_unwind") then
      if AnyOutcome(outcomes, (o: SourceOutcome) => o.stage.DownloadPdb? && o.outcome.Found?) then "matched"
      else "missing_pdb"
    else "missing_pe"
  }

  function StatusOf(frozen: FrozenModule): string {
    match frozen.selection.state
    case UniqueState => "matched"
    case ConflictState => "symbol_conflict"
    case UnavailableState => "symbol_unavailable"
    case IndeterminateState => "symbol_indeterminate"
    case NoneState => NoneStatus(frozen.sourceOutcomes)
    case OtherState(_) => "missing_pe"
  }

  function InfoOf(frozen: FrozenModule, captured: InspectModule): ModuleInfo {
    ModuleInfo(captured.codeFile, captured.codeId, captured.debugFile, captured.debugId, captured.imageBase,
               captured.imageSize, frozen.role, frozen.inApp, frozen.artifactIds, StatusOf(frozen))
  }

  function Infos(report: InspectReport, inputs: FrozenInputs): (r: seq<ModuleInfo>)
    requires |inputs.modules| == |report.modules|
    ensures |r| == |report.modules|
  {
    seq(|report.modules|, i requires 0 <= i < |report.modules| => InfoOf(inputs.modules[i], report.modules[i]))
  }

  // ----- frames -----

  /** How an unwind method folds into the engine's trust, and the trust that counts for scores and grouping. */
  datatype Fold = Fold(folded: string, effective: string)

  function FoldOf(unwindMethod: string): Option<Fold> {
    if unwindMethod == "context" then Some(Fold("context", "context"))
    else if unwindMethod == "call_frame_info" then Some(Fold("cfi", "cfi"))
    else if unwindMethod == "cfi_scan" then Some(Fold("cfi", "scan"))
    else if unwindMethod == "frame_pointer" then Some(Fold("frame_pointer", "frame_pointer"))
    else if unwindMethod == "scan" then Some(Fold("scan", "scan"))
    else if unwindMethod == "prewalked" || unwindMethod == "unknown" then Some(Fold("unknown", "unknown"))
    else None
  }

  predicate FrameOk(raw: UnwindFrame) {
    && raw.unwindMethod.Some?
    && FoldOf(raw.unwindMethod.value).Some?
    && raw.trust == FoldOf(raw.unwindMethod.value).value.folded
  }

  predicate FramesOk(unwind: UnwindReport) {
    forall t, f | 0 <= t < |unwind.threads| && 0 <= f < |unwind.threads[t].frames| :: FrameOk(unwind.threads[t].frames[f])
  }

  /** The frame without anything that an untracked local file may have put into it. */
  function Clean(raw: UnwindFrame): UnwindFrame
    requires FrameOk(raw)
  {
    raw.(functionName := None, file := None, line := None, image := None,
         trust := FoldOf(raw.unwindMethod.value).value.effective)
  }

  function FrameOf(
    report: InspectReport, infos: seq<ModuleInfo>, raw: UnwindFrame, index: nat, symbol: Option<Symbol>,
    isInline: bool): FrameInfo
    requires FrameOk(raw) && |infos| == |report.modules|
  {
    match ModuleOfPc(report, raw.instruction)
    case None => MakeFrame(Clean(raw), index, None, None, None, None, symbol, isInline)
    case Some(m) =>
      MakeFrame(Clean(raw), index, Some(report.modules[m].codeFile), Some(report.modules[m]),
                Some(raw.instruction - HexExtentOf(report.modules[m]).base), Some(infos[m]), symbol, isInline)
  }

  function SymbolAt(table: map<Slot, Symbol>, t: nat, f: nat): Option<Symbol> {
    if (t, f) in table then Some(table[(t, f)]) else None
  }

  /** The inline records of a frame, in reply order, numbered from `index`. */
  function InlineFrames(
    report: InspectReport, infos: seq<ModuleInfo>, raw: UnwindFrame, index: nat, inlines: seq<Symbol>): (r: seq<FrameInfo>)
    requires FrameOk(raw) && |infos| == |report.modules|
    ensures |r| == |inlines|
  {
    seq(|inlines|, i requires 0 <= i < |inlines| => FrameOf(report, infos, raw, index + i, Some(inlines[i]), true))
  }

  /** A physical frame and what was inlined into it. */
  function Block(
    report: InspectReport, infos: seq<ModuleInfo>, raw: UnwindFrame, index: nat, symbol: Option<Symbol>): (r: seq<FrameInfo>)
    requires FrameOk(raw) && |infos| == |report.modules|
    ensures |r| == 1 + (if symbol.Some? then |symbol.value.inlines| else 0)
  {
    [FrameOf(report, infos, raw, index, symbol, false)]
    + (if symbol.Some? then InlineFrames(report, infos, raw, index + 1, symbol.value.inlines) else [])
  }

  datatype Provenance = Provenance(moduleIndex: Option<nat>, physicalIndex: nat, unwindMethod: string, folded: string)

  function ProvenanceOf(report: InspectReport, raw: UnwindFrame, f: nat): Provenance
    requires FrameOk(raw)
  {
    Provenance(ModuleOfPc(report, raw.instruction), f, raw.unwindMethod.value, raw.trust)
  }

  function Repeat<T>(x: T, n: nat): (r: seq<T>)
    ensures |r| == n && forall i | 0 <= i < n :: r[i] == x
  {
    seq(n, _ => x)
  }

  /** What a thread's frames are built from. */
  datatype Stack = Stack(report: InspectReport, infos: seq<ModuleInfo>, raw: seq<UnwindFrame>, table: map<Slot, Symbol>, thread: nat)

  /** The first `n` frames carry an unwind method that explains their trust. */
  ghost predicate StackOk(s: Stack, n: nat) {
    |s.infos| == |s.report.modules| && n <= |s.raw| && forall f | 0 <= f < n :: FrameOk(s.raw[f])
  }

  /** The canonical frames of the first `n` physical frames. */
  ghost function FramesOf(s: Stack, n: nat): seq<FrameInfo>
    requires StackOk(s, n)
  {
    if n == 0 then []
    else
      var init := FramesOf(s, n - 1);
      init + Block(s.report, s.infos, s.raw[n - 1], |init|, SymbolAt(s.table, s.thread, n - 1))
  }

  function BlockSize(s: Stack, f: nat): nat {
    var symbol := SymbolAt(s.table, s.thread, f);
    1 + (if symbol.Some? then |symbol.value.inlines| else 0)
  }

  ghost function ProvenancesOf(s: Stack, n: nat): seq<Provenance>
    requires StackOk(s, n)
  {
    if n == 0 then []
    else ProvenancesOf(s, n - 1) + Repeat(ProvenanceOf(s.report, s.raw[n - 1], n - 1), BlockSize(s, n - 1))
  }

  function Zip(frames: seq<FrameInfo>, provenances: seq<Provenance>): seq<FrameV11>
    requires |frames| == |provenances|
  {
    seq(|frames|, k requires 0 <= k < |frames| =>
      FrameV11(frames[k].(trust := provenances[k].folded), provenances[k].moduleIndex,
               provenances[k].physicalIndex, provenances[k].unwindMethod))
  }

  lemma {:induction false} Aligned(s: Stack, n: nat)
    requires StackOk(s, n)
    ensures |FramesOf(s, n)| == |ProvenancesOf(s, n)|
  {
    hide FrameOk, Block, ProvenanceOf;
    if n > 0 {
      Aligned(s, n - 1);
    }
  }

  // ----- warnings -----

  function ReportWarning(code: string): Warning {
    Warning(
      if code == "missing_thread_list" || code == "missing_module_list" then "other"
      else if code == "missing_exception_stream" then "unknown_crash_type"
      else code, None, None)
  }

  function ReportWarnings(warnings: seq<InspectWarning>): seq<Warning> {
    seq(|warnings|, i requires 0 <= i < |warnings| => ReportWarning(warnings[i].code))
  }

  predicate WarnedStatus(status: string) {
    || status == "missing_pe" || status == "missing_pdb" || status == "pdb_mismatch"
    || status == "pe_mismatch" || status == "system_symbol_pending"
  }

  function StatusWarnings(m: ModuleInfo): seq<Warning> {
    (if WarnedStatus(m.status) then [Warning(m.status, Some(m.codeFile), m.debugId)]
     else if m.status == "corrupted" then [Warning("other", Some(m.codeFile), m.debugId)]
     else [])
    + (if m.inApp && m.status == "missing_pe" then [Warning("missing_pe_unwind", Some(m.codeFile), m.debugId)] else [])
  }

  function AllStatusWarnings(infos: seq<ModuleInfo>): seq<Warning> {
    if infos == [] then [] else AllStatusWarnings(infos[..|infos| - 1]) + StatusWarnings(infos[|infos| - 1])
  }

  function OutcomeWarnings(outcomes: seq<SourceOutcome>, m: ModuleInfo): seq<Warning> {
    if outcomes == [] then []
    else
      var last := outcomes[|outcomes| - 1];
      OutcomeWarnings(outcomes[..|outcomes| - 1], m)
      + (if last.outcome.Found? || last.outcome.Blocked? then [] else [Warning("other", Some(m.codeFile), m.debugId)])
  }

  function FrozenWarnings(frozen: seq<FrozenModule>, infos: seq<ModuleInfo>): seq<Warning>
    requires |frozen| == |infos|
  {
    if frozen == [] then []
    else
      var last := |frozen| - 1;
      FrozenWarnings(frozen[..last], infos[..last])
      + (if BlockedState(frozen[last].selection.state) then [Warning("other", Some(infos[last].codeFile), infos[last].debugId)] else [])
      + OutcomeWarnings(frozen[last].sourceOutcomes, infos[last])
  }

  function StripHex(s: string): Option<u64> {
    if "0x" <= s then ParseUnsigned(s[2..], Hexadecimal, U64_BOUND) else None
  }

  /** The captured module that holds the faulting address. */
  function FaultModule(modules: seq<InspectModule>, address: u64): Option<InspectModule> {
    if modules == [] then None
    else
      var base := StripHex(modules[0].imageBase);
      if base.Some? && base.value <= address < SaturatingAdd(base.value, modules[0].imageSize) then Some(modules[0])
      else FaultModule(modules[1..], address)
  }

  function FaultDebugId(report: InspectReport): Option<string> {
    var e :- report.exception;
    var address :- StripHex(e.address);
    var m :- FaultModule(report.modules, address);
    m.debugId
  }

  const ZERO_DIGEST: string := "sha256:" + Zeros(64)

  /** All warnings, in the order in which they are recorded. */
  function AllWarnings(
    report: InspectReport, inputs: FrozenInputs, infos: seq<ModuleInfo>, quality: Quality, exact: Option<string>): seq<Warning>
    requires |inputs.modules| == |infos|
  {
    ReportWarnings(report.warnings)
    + AllStatusWarnings(infos)
    + WarnIf(report.exception.None?, "unknown_crash_type")
    + quality.warnings
    + (if report.exception.Some? && exact.None? then [Warning("unclassified_exact", None, FaultDebugId(report))] else [])
    + WarnIf(inputs.coreImageDigest == ZERO_DIGEST, "other")
    + FrozenWarnings(inputs.modules, infos)
  }

  // ----- the result -----

  ghost predicate DistinctThreads(unwind: UnwindReport) {
    forall i, j | 0 <= i < j < |unwind.threads| :: unwind.threads[i].id != unwind.threads[j].id
  }

  function StackAt(
    report: InspectReport, unwind: UnwindReport, symbols: seq<FrameSymbol>, inputs: FrozenInputs, t: nat): Stack
    requires |inputs.modules| == |report.modules| && t < |unwind.threads|
  {
    Stack(report, Infos(report, inputs), unwind.threads[t].frames, PacketTable(symbols, |symbols|), t)
  }

  /** How many records the first `n` packets inline into a frame. */
  function InlineCount(symbols: seq<FrameSymbol>, n: nat, t: nat, f: nat): nat
    requires n <= |symbols|
  {
    if n == 0 then 0
    else if SlotOf(symbols[n - 1]) == (t, f) then |symbols[n - 1].symbol.inlines|
    else InlineCount(symbols, n - 1, t, f)
  }

  /** The first `n` frames of a thread and what the packets inline into them. */
  function RecordCount(symbols: seq<FrameSymbol>, t: nat, n: nat): nat {
    if n == 0 then 0 else RecordCount(symbols, t, n - 1) + 1 + InlineCount(symbols, |symbols|, t, n - 1)
  }

  /** No thread has more frames and inline records than a 32-bit index can number. */
  predicate FramesFit(unwind: UnwindReport, symbols: seq<FrameSymbol>) {
    forall t | 0 <= t < |unwind.threads| :: RecordCount(symbols, t, |unwind.threads[t].frames|) <= U32_BOUND
  }

  lemma {:induction false} InlineCountIs(symbols: seq<FrameSymbol>, n: nat, t: nat, f: nat)
    requires n <= |symbols|
    ensures var symbol := SymbolAt(PacketTable(symbols, n), t, f);
            InlineCount(symbols, n, t, f) == if symbol.Some? then |symbol.value.inlines| else 0
  {
    if n > 0 {
      InlineCountIs(symbols, n - 1, t, f);
    }
  }

  /** The canonical frames of a thread are as many as its frames and inlined records. */
  lemma {:induction false} FramesCounted(s: Stack, symbols: seq<FrameSymbol>, n: nat)
    requires StackOk(s, n) && s.table == PacketTable(symbols, |symbols|)
    ensures |FramesOf(s, n)| == RecordCount(symbols, s.thread, n)
  {
    hide FrameOk, Block, PacketTable, InlineCount;
    if n > 0 {
      FramesCounted(s, symbols, n - 1);
      InlineCountIs(symbols, |symbols|, s.thread, n - 1);
    }
  }

  /** Everything that `assemble_checked` demands. */
  ghost predicate Assemblable(
    report: InspectReport, unwind: UnwindReport, symbols: seq<FrameSymbol>, inputs: FrozenInputs)
    requires |inputs.modules| == |report.modules|
  {
    && HexAddressesOk(report.modules)
    && PairwiseApart(HexExtents(report.modules))
    && ThreadsMatch(report, unwind) && DistinctThreads(unwind)
    && PacketsOk(report, unwind, inputs, symbols)
    && FramesOk(unwind)
    && FramesFit(unwind, symbols)
  }

  ghost function PreparedThread(
    report: InspectReport, unwind: UnwindReport, symbols: seq<FrameSymbol>, inputs: FrozenInputs, t: nat): ThreadInfo
    requires |inputs.modules| == |report.modules| && FramesOk(unwind) && t < |unwind.threads|
  {
    ThreadInfo(unwind.threads[t].id, report.crashThreadId == Some(unwind.threads[t].id),
               FramesOf(StackAt(report, unwind, symbols, inputs, t), |unwind.threads[t].frames|))
  }

  ghost function PreparedThreads(
    report: InspectReport, unwind: UnwindReport, symbols: seq<FrameSymbol>, inputs: FrozenInputs): seq<ThreadInfo>
    requires |inputs.modules| == |report.modules| && FramesOk(unwind)
  {
    seq(|unwind.threads|, t requires 0 <= t < |unwind.threads| => PreparedThread(report, unwind, symbols, inputs, t))
  }

  ghost function FinalThread(
    report: InspectReport, unwind: UnwindReport, symbols: seq<FrameSymbol>, inputs: FrozenInputs, t: nat): ThreadV11
    requires |inputs.modules| == |report.modules| && FramesOk(unwind) && t < |unwind.threads|
  {
    var s, n := StackAt(report, unwind, symbols, inputs, t), |unwind.threads[t].frames|;
    Aligned(s, n);
    ThreadV11(unwind.threads[t].id, report.crashThreadId == Some(unwind.threads[t].id),
              Zip(FramesOf(s, n), ProvenancesOf(s, n)))
  }

  ghost function FinalThreads(
    report: InspectReport, unwind: UnwindReport, symbols: seq<FrameSymbol>, inputs: FrozenInputs): seq<ThreadV11>
    requires |inputs.modules| == |report.modules| && FramesOk(unwind)
  {
    seq(|unwind.threads|, t requires 0 <= t < |unwind.threads| => FinalThread(report, unwind, symbols, inputs, t))
  }

  function FinalModules(inputs: FrozenInputs, infos: seq<ModuleInfo>): seq<ModuleV11>
    requires |inputs.modules| == |infos|
  {
    seq(|infos|, i requires 0 <= i < |infos| =>
      ModuleV11(infos[i], i, inputs.modules[i].selection, inputs.modules[i].sourceOutcomes))
  }

  /** The result of a successful assembly. */
  ghost function Assembled(
    report: InspectReport, unwind: UnwindReport, symbols: seq<FrameSymbol>, inputs: FrozenInputs): CanonicalResult
    requires |inputs.modules| == |report.modules| && FramesOk(unwind)
  {
    var infos := Infos(report, inputs);
    var threads := PreparedThreads(report, unwind, symbols, inputs);
    var quality := QualityOf(threads, infos);
    var exact := ExactPayload(inputs.workspaceId, report.exception, report.crashThreadId, infos, threads);
    CanonicalResult(
      FinalThreads(report, unwind, symbols, inputs), FinalModules(inputs, infos), quality,
      AllWarnings(report, inputs, infos, quality, exact), exact)
  }
}
