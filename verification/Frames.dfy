/** Canonical frames, their quality scores, and the exact fingerprint of a crash. */
module Frames {
  import opened Basics
  import opened Text
  import opened Evidence

  datatype FrameInfo = FrameInfo(
    index: nat,
    instructionAddr: string,
    moduleName: Option<string>,
    moduleDebugId: Option<string>,
    relativeAddr: Option<string>,
    functionRaw: Option<string>,
    functionNormalized: Option<string>,
    functionOffset: Option<u64>,
    file: Option<string>,
    line: Option<u64>,
    trust: string,
    inApp: bool,
    isInline: bool)

  datatype ModuleInfo = ModuleInfo(
    codeFile: string,
    codeId: string,
    debugFile: Option<string>,
    debugId: Option<string>,
    imageBase: string,
    imageSize: u32,
    role: string,
    inApp: bool,
    artifactIds: seq<string>,
    status: string)

  datatype ThreadInfo = ThreadInfo(id: u32, isCrashing: bool, frames: seq<FrameInfo>)

  /** A quality warning; its message is not modelled. */
  datatype Warning = Warning(code: string, moduleName: Option<string>, debugId: Option<string>)

  // ----- text -----

  /** Unicode white space. */
  predicate IsWhite(c: char) {
    var n := c as int;
    || 0x09 <= n <= 0x0D || n == 0x20 || n == 0x85 || n == 0xA0 || n == 0x1680 || 0x2000 <= n <= 0x200A
    || n == 0x2028 || n == 0x2029 || n == 0x202F || n == 0x205F || n == 0x3000
  }

  function TrimStart(s: string): string {
    if s != "" && IsWhite(s[0]) then TrimStart(s[1..]) else s
  }

  function TrimEnd(s: string): string {
    if s != "" && IsWhite(s[|s| - 1]) then TrimEnd(s[..|s| - 1]) else s
  }

  function Trim(s: string): string {
    TrimEnd(TrimStart(s))
  }

  /** `s` up to the first occurrence of `mark`. */
  function CutBefore(s: string, mark: string): string {
    if s == "" || mark <= s then "" else [s[0]] + CutBefore(s[1..], mark)
  }

  function NormalizeFunction(name: string): string {
    CutBefore(CutBefore(Trim(name), "("), "::<lambda_")
  }

  function ParseHex(s: string): Option<u64> {
    ParseUnsigned(TrimStartMatches(TrimStartMatches(Trim(s), "0x"), "0X"), Hexadecimal, U64_BOUND)
  }

  function OrElse<T>(a: Option<T>, b: Option<T>): Option<T> {
    if a.Some? then a else b
  }

  // ----- building a frame -----

  function FallbackName(moduleName: Option<string>, relative: Option<u64>): Option<string> {
    match (moduleName, relative)
    case (Some(m), Some(offset)) => Some(Basename(m) + "+" + FormatHex(offset))
    case _ => None
  }

  /** `frame_info`: a symbol's fields win over those the unwinder found. */
  function MakeFrame(
    frame: UnwindFrame, index: nat, moduleName: Option<string>, dumpModule: Option<InspectModule>,
    relative: Option<u64>, moduleInfo: Option<ModuleInfo>, symbol: Option<Symbol>, isInline: bool): FrameInfo
  {
    var name := OrElse(if symbol.Some? then symbol.value.functionName else None, frame.functionName);
    FrameInfo(
      index,
      FormatHex(frame.instruction),
      moduleName,
      OrElse(if dumpModule.Some? then dumpModule.value.debugId else None,
             if frame.image.Some? then frame.image.value.debugId else None),
      if relative.Some? then Some(FormatHex(relative.value)) else None,
      name,
      if name.Some? then Some(NormalizeFunction(name.value)) else FallbackName(moduleName, relative),
      relative,
      OrElse(if symbol.Some? then symbol.value.file else None, frame.file),
      OrElse(if symbol.Some? then symbol.value.line else None, LineOf(frame)),
      frame.trust,
      moduleInfo.Some? && moduleInfo.value.inApp,
      isInline)
  }

  function LineOf(frame: UnwindFrame): Option<u64> {
    if frame.line.Some? then Some(frame.line.value) else None
  }

  // ----- quality -----

  function Physical(frames: seq<FrameInfo>): seq<FrameInfo> {
    if frames == [] then []
    else
      var last := frames[|frames| - 1];
      Physical(frames[..|frames| - 1]) + (if last.isInline then [] else [last])
  }

  function Count<T>(s: seq<T>, p: T -> bool): (n: nat)
    ensures n <= |s|
  {
    if s == [] then 0 else Count(s[..|s| - 1], p) + (if p(s[|s| - 1]) then 1 else 0)
  }

  predicate Identifiable(f: FrameInfo) {
    f.inApp && f.moduleName.Some?
  }

  predicate Symbolized(f: FrameInfo) {
    f.functionRaw.Some? || f.file.Some? || f.line.Some?
  }

  function TrustWeight(trust: string): (w: real)
    ensures 0.0 <= w <= 1.0
  {
    if trust == "context" || trust == "cfi" then 1.0
    else if trust == "frame_pointer" then 0.75
    else if trust == "scan" then 0.2
    else 0.0
  }

  function TotalWeight(frames: seq<FrameInfo>): (w: real)
    ensures 0.0 <= w <= |frames| as real
  {
    if frames == [] then 0.0
    else TotalWeight(frames[..|frames| - 1]) + TrustWeight(frames[|frames| - 1].trust)
  }

  datatype Quality = Quality(
    symbolCoverage: real, unwindReliability: real, artifactCompleteness: real, warnings: seq<Warning>)

  function Ratio(part: real, whole: nat): real {
    if whole == 0 then 0.0 else part / whole as real
  }

  function WarnIf(condition: bool, code: string): seq<Warning> {
    if condition then [Warning(code, None, None)] else []
  }

  predicate AnyScanned(frames: seq<FrameInfo>) {
    exists i | 0 <= i < |frames| :: frames[i].trust == "scan"
  }

  function FindThread(threads: seq<ThreadInfo>, p: ThreadInfo -> bool): Option<ThreadInfo> {
    if threads == [] then None
    else if p(threads[0]) then Some(threads[0])
    else FindThread(threads[1..], p)
  }

  function ScoredThread(threads: seq<ThreadInfo>): Option<ThreadInfo> {
    OrElse(FindThread(threads, (t: ThreadInfo) => t.isCrashing), if threads == [] then None else Some(threads[0]))
  }

  /** `quality`: scores over the physical frames of one thread, and over the application's modules. */
  function QualityOf(threads: seq<ThreadInfo>, modules: seq<ModuleInfo>): Quality {
    var scored := ScoredThread(threads);
    var frames := if scored.Some? then Physical(scored.value.frames) else [];
    var identifiable := Count(frames, Identifiable);
    var symbolized := Count(frames, (f: FrameInfo) => Identifiable(f) && Symbolized(f));
    var appModules := Count(modules, (m: ModuleInfo) => m.inApp);
    var matched := Count(modules, (m: ModuleInfo) => m.inApp && m.status == "matched");
    Quality(
      Ratio(symbolized as real, identifiable),
      Ratio(TotalWeight(frames), |frames|),
      Ratio(matched as real, appModules),
      WarnIf(identifiable == 0, "other")
      + WarnIf(frames == [], "other")
      + WarnIf(AnyScanned(frames), "scan_frames")
      + WarnIf(appModules == 0, "other"))
  }

  function Score(q: Quality): real {
    0.45 * q.symbolCoverage + 0.35 * q.unwindReliability + 0.2 * q.artifactCompleteness
  }

  // ----- the exact fingerprint -----

  const SYSTEM_LIBRARIES: seq<string> := [
    "ntdll.dll", "kernel32.dll", "kernelbase.dll", "user32.dll", "gdi32.dll", "ucrtbase.dll", "vcruntime140.dll",
    "vcruntime140_1.dll", "msvcp140.dll", "msvcrt.dll", "advapi32.dll", "sechost.dll", "rpcrt4.dll", "ole32.dll",
    "combase.dll", "ws2_32.dll", "bcryptprimitives.dll", "win32u.dll"
  ]

  predicate Denied(f: FrameInfo) {
    f.moduleName.Some? && Lower(Basename(f.moduleName.value)) in SYSTEM_LIBRARIES
  }

  predicate Anchors(trust: string) {
    trust == "context" || trust == "cfi"
  }

  /** A frame that may stand in the fingerprint: scanned frames need a reliable neighbour. */
  predicate Eligible(frames: seq<FrameInfo>, i: nat)
    requires i < |frames|
  {
    && frames[i].inApp && !Denied(frames[i]) && frames[i].trust != "unknown"
    && (frames[i].trust == "scan" ==>
          || (i > 0 && Anchors(frames[i - 1].trust))
          || (i + 1 < |frames| && Anchors(frames[i + 1].trust)))
  }

  /** The first eligible frame with its address. */
  predicate Fresh(frames: seq<FrameInfo>, i: nat)
    requires i < |frames|
  {
    Eligible(frames, i)
    && forall j | 0 <= j < i :: Eligible(frames, j) ==> frames[j].instructionAddr != frames[i].instructionAddr
  }

  /** The indexes below `n` of the fresh frames. */
  function FreshIndexes(frames: seq<FrameInfo>, n: nat): (r: seq<nat>)
    requires n <= |frames|
    ensures forall k | 0 <= k < |r| :: r[k] < n
  {
    if n == 0 then [] else FreshIndexes(frames, n - 1) + (if Fresh(frames, n - 1) then [n - 1] else [])
  }

  /** All fresh indexes, in ascending order, and no others. */
  lemma {:induction false} FreshIndexesAre(frames: seq<FrameInfo>, n: nat)
    requires n <= |frames|
    ensures var r := FreshIndexes(frames, n);
            && (forall i: nat :: i in r <==> i < n && Fresh(frames, i))
            && (forall j, k | 0 <= j < k < |r| :: r[j] < r[k])
  {
    hide Fresh;
    if n > 0 {
      FreshIndexesAre(frames, n - 1);
    }
  }

  const MAX_SELECTED: nat := 5

  function FirstFive<T>(s: seq<T>): seq<T> {
    if |s| <= MAX_SELECTED then s else s[..MAX_SELECTED]
  }

  function Pick(frames: seq<FrameInfo>, at: seq<nat>): seq<FrameInfo>
    requires forall k | 0 <= k < |at| :: at[k] < |frames|
  {
    seq(|at|, k requires 0 <= k < |at| => frames[at[k]])
  }

  /** The frames the fingerprint is made of: the first five eligible ones with distinct addresses. */
  function Selected(frames: seq<FrameInfo>): seq<FrameInfo> {
    Pick(frames, FirstFive(FreshIndexes(frames, |frames|)))
  }

  /** The addresses of the eligible frames before `i` decide whether frame `i` is fresh. */
  ghost predicate Seen(frames: seq<FrameInfo>, i: nat, seen: set<string>)
    requires i <= |frames|
  {
    forall a :: a in seen <==> exists j | 0 <= j < i :: Eligible(frames, j) && frames[j].instructionAddr == a
  }

  lemma SeenDecides(frames: seq<FrameInfo>, i: nat, seen: set<string>)
    requires i < |frames| && Seen(frames, i, seen)
    ensures Fresh(frames, i) <==> Eligible(frames, i) && frames[i].instructionAddr !in seen
    ensures Seen(frames, i + 1, if Eligible(frames, i) then seen + {frames[i].instructionAddr} else seen)
  {
    hide Eligible;
  }

  method SelectFrames(frames: seq<FrameInfo>) returns (selected: seq<FrameInfo>)
    ensures selected == Selected(frames)
  {
    hide Eligible, Fresh, Seen, FreshIndexes, Pick;
    var seen: set<string> := {};
    selected := [];
    var i := 0;
    NothingSeen(frames);
    while i < |frames| && |selected| < MAX_SELECTED
      invariant 0 <= i <= |frames| && Seen(frames, i, seen)
      invariant |selected| <= MAX_SELECTED && selected == Pick(frames, FreshIndexes(frames, i))
    {
      SeenDecides(frames, i, seen);
      PickMore(frames, i);
      var address := frames[i].instructionAddr;
      if Eligible(frames, i) && address !in seen {
        selected := selected + [frames[i]];
      }
      assert address in seen ==> seen + {address} == seen;
      seen := if Eligible(frames, i) then seen + {address} else seen;
      i := i + 1;
    }
    FirstFiveFound(frames, i);
  }

  lemma NothingSeen(frames: seq<FrameInfo>)
    ensures Seen(frames, 0, {}) && Pick(frames, FreshIndexes(frames, 0)) == []
  {
  }

  lemma PickMore(frames: seq<FrameInfo>, i: nat)
    requires i < |frames|
    ensures Pick(frames, FreshIndexes(frames, i + 1)) ==
            Pick(frames, FreshIndexes(frames, i)) + (if Fresh(frames, i) then [frames[i]] else [])
    ensures |Pick(frames, FreshIndexes(frames, i))| == |FreshIndexes(frames, i)|
  {
    hide Fresh;
  }

  lemma FirstFiveFound(frames: seq<FrameInfo>, i: nat)
    requires i <= |frames| && |Pick(frames, FreshIndexes(frames, i))| <= MAX_SELECTED
    requires i == |frames| || |Pick(frames, FreshIndexes(frames, i))| == MAX_SELECTED
    ensures Selected(frames) == Pick(frames, FreshIndexes(frames, i))
  {
    hide Fresh;
    FreshPrefix(frames, i, |frames|);
    assert FirstFive(FreshIndexes(frames, |frames|)) == FreshIndexes(frames, i);
  }

  lemma {:induction false} FreshPrefix(frames: seq<FrameInfo>, i: nat, n: nat)
    requires i <= n <= |frames|
    ensures FreshIndexes(frames, i) <= FreshIndexes(frames, n)
  {
    hide Eligible;
    if i < n {
      FreshPrefix(frames, i, n - 1);
    }
  }

  /** One selected frame in the payload. */
  datatype Token = Token(debugId: string, functionName: string, bucket: nat)

  function TokenOf(f: FrameInfo): Option<Token> {
    var debugId :- f.moduleDebugId;
    var text :- f.relativeAddr;
    if !("0x" <= text) then None
    else
      var relative :- ParseUnsigned(text[2..], Hexadecimal, U64_BOUND);
      var name :- f.functionNormalized;
      Some(Token(debugId, name, relative / 16 * 16))
  }

  function TokensOf(frames: seq<FrameInfo>): Option<seq<Token>> {
    if frames == [] then Some([])
    else
      var init :- TokensOf(frames[..|frames| - 1]);
      var last :- TokenOf(frames[|frames| - 1]);
      Some(init + [last])
  }

  function TokenText(t: Token): string {
    t.debugId + "\n" + t.functionName + "\n" + FormatHex(t.bucket)
  }

  /** Rust's `join("\n")`. */
  function JoinLines(lines: seq<string>): string {
    if lines == [] then ""
    else if |lines| == 1 then lines[0]
    else lines[0] + "\n" + JoinLines(lines[1..])
  }

  function TokenTexts(tokens: seq<Token>): seq<string> {
    seq(|tokens|, i requires 0 <= i < |tokens| => TokenText(tokens[i]))
  }

  /** The text whose digest is the exact fingerprint. */
  function Payload(workspace: string, code: string, access: string, faultDebugId: string, tokens: seq<Token>): string {
    workspace + "\n" + code + "\n" + access + "\n" + faultDebugId + "\n" + JoinLines(TokenTexts(tokens))
  }

  function SaturatingAdd(a: u64, b: u64): u64 {
    if a + b < U64_BOUND then a + b else U64_BOUND - 1
  }

  function ModuleAtAddress(modules: seq<ModuleInfo>, address: u64): Option<ModuleInfo> {
    if modules == [] then None
    else
      var base := ParseHex(modules[0].imageBase);
      if base.Some? && base.value <= address < SaturatingAdd(base.value, modules[0].imageSize) then Some(modules[0])
      else ModuleAtAddress(modules[1..], address)
  }

  /** `exact_fingerprint` up to the digest. */
  function ExactPayload(
    workspace: string, exception: Option<InspectException>, crashThreadId: Option<u32>,
    modules: seq<ModuleInfo>, threads: seq<ThreadInfo>): Option<string>
  {
    var e :- exception;
    var crashing :- crashThreadId;
    var address :- ParseHex(e.address);
    var fault :- ModuleAtAddress(modules, address);
    var faultDebugId :- fault.debugId;
    if fault.status != "matched" then None
    else
      var thread :- FindThread(threads, (t: ThreadInfo) => t.id == crashing);
      var selected := Selected(Physical(thread.frames));
      if forall i | 0 <= i < |selected| :: selected[i].trust == "scan" then None
      else
        var tokens :- TokensOf(selected);
        Some(Payload(workspace, e.code, if e.accessType.Some? then e.accessType.value else "-", faultDebugId, tokens))
  }
}
