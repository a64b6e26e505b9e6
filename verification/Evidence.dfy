/** The frozen evidence that planner, collector and assembler exchange, with its validity rules. */
module Evidence {
  import opened Basics
  import opened Text

  // ----- the inspected dump -----

  datatype InspectDump = InspectDump(
    kind: string,
    size: nat,
    signature: string,
    numberOfStreams: u32,
    flags: string,
    timestamp: Option<string>)

  datatype InspectProcess = InspectProcess(
    pid: Option<u32>,
    architecture: string,
    os: string,
    osVersion: Option<string>,
    platformId: Option<u32>,
    buildNumber: Option<u32>,
    processorCount: Option<u8>)

  /** A captured CPU context: where it lies, and what its control flags and general registers hold. */
  datatype InspectContext = InspectContext(
    size: u32,
    rva: u32,
    flags: Option<string>,
    registers: map<string, string>)

  datatype InspectThread = InspectThread(
    id: u32,
    teb: string,
    stackStart: string,
    stackSize: u32,
    context: Option<InspectContext>)

  datatype InspectModule = InspectModule(
    codeFile: string,
    codeId: string,
    debugFile: Option<string>,
    debugId: Option<string>,
    imageBase: string,
    imageSize: u32,
    timeDateStamp: string,
    checksum: string)

  datatype InspectException = InspectException(
    threadId: u32,
    code: string,
    name: Option<string>,
    flags: string,
    address: string,
    faultAddress: Option<string>,
    accessType: Option<string>,
    parameters: seq<string>,
    context: Option<InspectContext>)

  datatype InspectWarning = InspectWarning(code: string, message: string)

  datatype InspectReport = InspectReport(
    schemaVersion: string,
    dump: InspectDump,
    process: InspectProcess,
    exception: Option<InspectException>,
    crashThreadId: Option<u32>,
    threads: seq<InspectThread>,
    modules: seq<InspectModule>,
    warnings: seq<InspectWarning>)

  // ----- the unwound stacks -----

  datatype UnwindModule = UnwindModule(
    codeFile: string,
    codeId: Option<string>,
    debugFile: Option<string>,
    debugId: Option<string>,
    imageBase: u64,
    imageSize: u64)

  datatype UnwindFrame = UnwindFrame(
    instruction: u64,
    resumeAddress: u64,
    image: Option<UnwindModule>,
    functionName: Option<string>,
    file: Option<string>,
    line: Option<u32>,
    trust: string,
    unwindMethod: Option<string>,
    hasInlines: bool)

  datatype UnwindThread = UnwindThread(id: u32, frames: seq<UnwindFrame>)

  datatype UnwindReport = UnwindReport(threads: seq<UnwindThread>)

  /** The unwound threads are the inspected ones, in the same order. */
  predicate ThreadsMatch(report: InspectReport, unwind: UnwindReport) {
    && |unwind.threads| == |report.threads|
    && forall i | 0 <= i < |unwind.threads| :: unwind.threads[i].id == report.threads[i].id
  }

  // ----- module identity -----

  datatype ModuleIdentity = ModuleIdentity(
    codeId: Option<string>,
    debugId: Option<string>,
    architecture: string)

  function WithoutDashes(s: string): string {
    if s == "" then ""
    else if s[0] == '-' then WithoutDashes(s[1..])
    else [s[0]] + WithoutDashes(s[1..])
  }

  function CapturedCodeId(codeId: string): Option<string> {
    var code := Lower(codeId);
    if 9 <= |code| <= 24 && IsHex(code) then Some(code) else None
  }

  /** Lower case, no dashes, and the age that follows the 32 GUID digits without leading zeros. */
  function CapturedDebugId(debugId: string): Option<string> {
    var id := Lower(WithoutDashes(debugId));
    if !(33 <= |id| <= 40 && IsHex(id)) then None
    else
      var age :- ParseUnsigned(id[32..], Hexadecimal, U32_BOUND);
      Some(id[..32] + Numeral(age, Hexadecimal))
  }

  predicate IsArchitecture(s: string) {
    s == "x86_64" || s == "x86" || s == "arm64" || s == "unknown"
  }

  /** The identity under which a captured module is matched, or a refusal. */
  function Captured(m: InspectModule, architecture: string): Option<ModuleIdentity> {
    var code :- CapturedCodeId(m.codeId);
    var debug :- (match m.debugId
                  case None => Some(None)
                  case Some(id) => var d :- CapturedDebugId(id); Some(Some(d)));
    if IsArchitecture(architecture) then Some(ModuleIdentity(Some(code), debug, architecture)) else None
  }

  // ----- object references, selections, source outcomes -----

  datatype ObjectRef = ObjectRef(objectKey: string, sha256: string)

  predicate ValidRef(r: ObjectRef) {
    r.objectKey != "" && IsHash(r.sha256)
  }

  datatype SelectionState =
    | UniqueState
    | ConflictState
    | NoneState
    | UnavailableState
    | IndeterminateState
    | OtherState(text: string)

  datatype FrozenSelection = FrozenSelection(
    moduleIndex: nat,
    identity: ModuleIdentity,
    state: SelectionState,
    candidatesComplete: bool,
    candidatePairIds: seq<string>,
    unavailablePairIds: seq<string>,
    selectedPairId: Option<string>,
    reason: string,
    candidateEvidence: ObjectRef,
    reviewRefs: seq<string>)

  predicate PairIds(ids: seq<string>) {
    (forall i | 0 <= i < |ids| :: IsHash(ids[i])) && SortedUnique(ids)
  }

  predicate CoherentState(s: FrozenSelection) {
    match s.state
    case UniqueState =>
      && s.candidatesComplete && s.reason == "unique"
      && (s.identity.codeId.Some? || s.identity.debugId.Some?)
      && |s.candidatePairIds| == 1 && s.selectedPairId == Some(s.candidatePairIds[0])
    case ConflictState =>
      && s.candidatesComplete && s.reason == "identity_conflict"
      && |s.candidatePairIds| >= 2 && s.selectedPairId.None?
    case NoneState =>
      && s.candidatesComplete && s.reason == "missing"
      && s.candidatePairIds == [] && s.unavailablePairIds == [] && s.selectedPairId.None?
    case UnavailableState =>
      && s.candidatesComplete && (s.reason == "withdrawn" || s.reason == "location_unavailable")
      && s.candidatePairIds == [] && s.unavailablePairIds != [] && s.selectedPairId.None?
    case IndeterminateState =>
      && !s.candidatesComplete
      && (s.reason == "incomplete_identity" || s.reason == "enumeration_failed" || s.reason == "validation_incomplete")
      && s.selectedPairId.None?
    case OtherState(_) => false
  }

  /** `FrozenSelection::validate` for the module at `index`. */
  predicate ValidSelection(s: FrozenSelection, index: nat, m: InspectModule, architecture: string) {
    && s.moduleIndex == index
    && Captured(m, architecture) == Some(s.identity)
    && PairIds(s.candidatePairIds) && PairIds(s.unavailablePairIds)
    && ValidRef(s.candidateEvidence)
    && (forall i | 0 <= i < |s.reviewRefs| :: s.reviewRefs[i] != "")
    && (s.state.IndeterminateState? || forall id | id in s.candidatePairIds :: id !in s.unavailablePairIds)
    && CoherentState(s)
  }

  datatype Stage = DownloadPe | DownloadPdb | Unwinding | Symbolicate | OtherStage(text: string)

  datatype Outcome = Found | Missing | Failed | Blocked | Unknown | OtherOutcome(text: string)

  datatype FailureClass = NoFailure | Transient | Permanent | UnknownFailure | OtherFailure(text: string)

  datatype SourceOutcome = SourceOutcome(
    sourceId: string,
    stage: Stage,
    outcome: Outcome,
    failureClass: FailureClass,
    reason: string,
    diagnosticRef: Option<ObjectRef>)

  /** `SourceOutcome::validate`. */
  predicate ValidOutcome(o: SourceOutcome) {
    && o.sourceId != "" && o.reason != ""
    && !o.stage.OtherStage? && !o.outcome.OtherOutcome? && !o.failureClass.OtherFailure?
    && (o.outcome.Found? <==> o.failureClass.NoFailure?)
    && (o.failureClass.Transient? ==> o.outcome.Failed? && o.diagnosticRef.Some?)
    && (o.diagnosticRef.Some? ==> ValidRef(o.diagnosticRef.value))
  }

  /** No two outcomes end the same stage of the same source. */
  ghost predicate OneOutcomePerStage(outcomes: seq<SourceOutcome>) {
    forall i, j | 0 <= i < j < |outcomes| ::
      outcomes[i].sourceId != outcomes[j].sourceId || outcomes[i].stage != outcomes[j].stage
  }

  // ----- symbols -----

  /** A symbol record; `inlines` holds the records inlined at the same physical frame. */
  datatype Symbol = Symbol(
    functionName: Option<string>,
    file: Option<string>,
    line: Option<u64>,
    inlines: seq<Symbol>)

  datatype FrameSymbol = FrameSymbol(
    threadIndex: nat,
    physicalIndex: nat,
    moduleIndex: nat,
    instruction: u64,
    pairId: Option<string>,
    sourceId: string,
    symbol: Symbol)

  // ----- facts about identities -----

  lemma {:induction false} DashesGone(s: string)
    requires AllLowerHex(s)
    ensures WithoutDashes(s) == s
  {
    if s != "" {
      DashesGone(s[1..]);
      assert s == [s[0]] + s[1..];
    }
  }

  lemma LowerHexFixed(s: string)
    requires AllLowerHex(s)
    ensures Lower(s) == s && AllNumerals(s, Hexadecimal)
  {
  }

  /** A captured debug identity is 32 GUID digits and an age that fits 32 bits, in shortest form. */
  lemma CapturedDebugIdShape(debugId: string)
    requires CapturedDebugId(debugId).Some?
    ensures var d := CapturedDebugId(debugId).value;
            33 <= |d| <= 40 && AllLowerHex(d)
            && exists age: u32 :: d[32..] == Numeral(age, Hexadecimal)
  {
    var id := Lower(WithoutDashes(debugId));
    var d := CapturedDebugId(debugId).value;
    var age := ParseUnsigned(id[32..], Hexadecimal, U32_BOUND).value;
    assert U32_BOUND == Power16(8) by {
      assert Power16(4) == 0x1_0000;
      assert Power16(8) == 16 * (16 * (16 * (16 * Power16(4))));
    }
    HexWidth(age, 8);
    assert d[32..] == Numeral(age, Hexadecimal);
  }

  lemma CapturedDebugIdFixpoint(debugId: string)
    requires CapturedDebugId(debugId).Some?
    ensures CapturedDebugId(CapturedDebugId(debugId).value) == CapturedDebugId(debugId)
  {
    var d := CapturedDebugId(debugId).value;
    CapturedDebugIdShape(debugId);
    DashesGone(d);
    LowerHexFixed(d);
    var age: u32 :| d[32..] == Numeral(age, Hexadecimal);
    NumeralRoundTrip(age, Hexadecimal);
    assert ParseUnsigned(d[32..], Hexadecimal, U32_BOUND) == Some(age) by {
      assert d[32] != '+';
    }
    assert d == d[..32] + d[32..];
  }

  /** Capturing is a normal form: captured identities capture to themselves. */
  lemma CapturedFixpoint(m: InspectModule, architecture: string)
    requires Captured(m, architecture).Some?
    ensures var identity := Captured(m, architecture).value;
            Captured(m.(codeId := identity.codeId.value, debugId := identity.debugId), architecture) == Some(identity)
  {
    hide CapturedDebugId;
    LowerHexFixed(Captured(m, architecture).value.codeId.value);
    if m.debugId.Some? {
      CapturedDebugIdFixpoint(m.debugId.value);
    }
  }
}
