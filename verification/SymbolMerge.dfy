/** The legacy reply parser: symbols keyed by module and requested address, merged and expanded again. */
module SymbolMerge {
  import opened Basics
  import opened Text
  import opened Json
  import opened Evidence
  import opened Frames
  import opened ReplyProvenance

  datatype Key = Key(moduleName: string, address: u64)

  // ----- merging records -----

  function Plain(s: Symbol): Symbol {
    s.(inlines := [])
  }

  predicate IsPlain(s: Symbol) {
    s.inlines == []
  }

  /** A second record of the same key keeps the first as an inline record and becomes the primary one. */
  function MergeInto(existing: Symbol, record: Symbol): Symbol {
    record.(inlines := existing.inlines + [Plain(existing)] + [Plain(record)])
  }

  function Merge(frames: map<Key, Symbol>, key: Key, record: Symbol): map<Key, Symbol> {
    if key in frames then frames[key := MergeInto(frames[key], record)] else frames[key := record]
  }

  /** `merge_symbol`: the fields of the existing record are taken out and written back one by one. */
  method MergeSymbol(frames: map<Key, Symbol>, key: Key, record: Symbol) returns (merged: map<Key, Symbol>)
    ensures merged == Merge(frames, key, record)
  {
    if key !in frames {
      return frames[key := record];
    }
    var existing := frames[key];
    var previous := Symbol(existing.functionName, existing.file, existing.line, []);
    var inlines := existing.inlines;
    inlines := inlines + [previous];
    inlines := inlines + [Symbol(record.functionName, record.file, record.line, [])];
    existing := existing.(functionName := record.functionName, file := record.file, line := record.line, inlines := inlines);
    merged := frames[key := existing];
  }

  /** All records of one key, merged in order. */
  function MergeAll(records: seq<Symbol>): Symbol
    requires records != []
  {
    if |records| == 1 then records[0]
    else MergeInto(MergeAll(records[..|records| - 1]), records[|records| - 1])
  }

  // ----- expanding a merged symbol -----

  predicate SameSymbol(a: Symbol, b: Symbol) {
    a.functionName == b.functionName && a.file == b.file && a.line == b.line
  }

  /** The list without records that repeat the one before them. */
  function Collapse(records: seq<Symbol>): seq<Symbol> {
    if records == [] then []
    else
      var init, last := Collapse(records[..|records| - 1]), records[|records| - 1];
      if init != [] && SameSymbol(init[|init| - 1], last) then init else init + [last]
  }

  /** The inline records that are shown next to a symbol. */
  function Expand(s: Symbol): seq<Symbol> {
    var shown := Collapse(s.inlines);
    if shown != [] && SameSymbol(shown[|shown| - 1], s) then shown[..|shown| - 1] else shown
  }

  /** The loop of `canonical_frames` over the inline records of a symbol. */
  method ExpandInlines(s: Symbol) returns (shown: seq<Symbol>)
    ensures shown == Expand(s)
  {
    shown := [];
    for i := 0 to |s.inlines|
      invariant shown == Collapse(s.inlines[..i])
    {
      assert s.inlines[..i + 1][..i] == s.inlines[..i];
      if !(shown != [] && SameSymbol(shown[|shown| - 1], s.inlines[i])) {
        shown := shown + [s.inlines[i]];
      }
    }
    assert s.inlines[..|s.inlines|] == s.inlines;
    if shown != [] && SameSymbol(shown[|shown| - 1], s) {
      shown := shown[..|shown| - 1];
    }
  }

  /** Where a symbol is shown: everything that `frame_info` takes besides the symbol. */
  datatype Place = Place(
    frame: UnwindFrame, index: nat, moduleName: Option<string>, dumpModule: Option<InspectModule>,
    relative: Option<u64>, moduleInfo: Option<ModuleInfo>)

  function FrameAt(at: Place, s: Symbol, isInline: bool): FrameInfo {
    MakeFrame(at.frame, at.index, at.moduleName, at.dumpModule, at.relative, at.moduleInfo, Some(s), isInline)
  }

  /** A primary frame and the inline frames next to it. */
  function ShownFrames(at: Place, primary: Symbol, isInline: bool, inlines: seq<Symbol>): seq<FrameInfo> {
    [FrameAt(at, primary, isInline)] + seq(|inlines|, i requires 0 <= i < |inlines| => FrameAt(at, inlines[i], true))
  }

  /** The frames of a symbol: the physical frame, and the inline frames next to it. */
  method ShowSymbol(at: Place, s: Symbol) returns (frames: seq<FrameInfo>)
    ensures frames == ShownFrames(at, s, s.inlines == [] && at.frame.hasInlines, Expand(s))
  {
    frames := [FrameAt(at, s, if s.inlines != [] then false else at.frame.hasInlines)];
    var shown := ExpandInlines(s);
    for i := 0 to |shown|
      invariant frames == ShownFrames(at, s, s.inlines == [] && at.frame.hasInlines, shown[..i])
    {
      frames := frames + [FrameAt(at, shown[i], true)];
    }
    assert shown[..|shown|] == shown;
  }

  // ----- looking a symbol up -----

  function ModuleForInstruction(modules: seq<InspectModule>, address: u64): Option<InspectModule> {
    if modules == [] then None
    else
      var base := ParseHex(modules[0].imageBase);
      if base.Some? && Contains(base.value, modules[0].imageSize, address) then Some(modules[0])
      else ModuleForInstruction(modules[1..], address)
  }

  function InfoWithCode(modules: seq<ModuleInfo>, codeId: string): Option<ModuleInfo> {
    if modules == [] then None
    else if modules[0].codeId == codeId then Some(modules[0])
    else InfoWithCode(modules[1..], codeId)
  }

  /** Where a physical frame is shown: by the dump's module, else under the name that the walker gave. */
  function PlaceOf(report: InspectReport, frame: UnwindFrame, index: nat, modules: seq<ModuleInfo>): Place {
    match ModuleForInstruction(report.modules, frame.instruction)
    case None =>
      Place(frame, index, if frame.image.Some? then Some(frame.image.value.codeFile) else None, None, None, None)
    case Some(m) =>
      var base := ParseHex(m.imageBase);
      Place(frame, index, Some(m.codeFile), Some(m),
            if base.Some? && base.value <= frame.instruction then Some(frame.instruction - base.value) else None,
            InfoWithCode(modules, m.codeId))
  }

  /** The module names below which this address has a symbol, when their file name is the wanted one. */
  function Alternatives(symbols: map<Key, Symbol>, name: string, address: u64): set<string> {
    set k | k in symbols && k.address == address && Basename(k.moduleName) == LowerBasename(name) :: k.moduleName
  }

  /** `find_symbol`: the module's own key, else the first key in order with the same address and file name. */
  ghost function FoundSymbol(symbols: map<Key, Symbol>, name: string, address: u64): Option<Symbol> {
    var own := Key(Lower(name), address);
    if own in symbols then Some(symbols[own])
    else
      var names := Ascending(Alternatives(symbols, name, address));
      if names == [] then None else assert names[0] in names; Some(symbols[Key(names[0], address)])
  }

  method FindSymbol(symbols: map<Key, Symbol>, name: string, address: u64) returns (found: Option<Symbol>)
    ensures found == FoundSymbol(symbols, name, address)
  {
    hide LowerBasename, Lower;
    var own := Key(Lower(name), address);
    if own in symbols {
      return Some(symbols[own]);
    }
    var names := SortStrings(Alternatives(symbols, name, address));
    if names == [] {
      return None;
    }
    assert names[0] in names;
    found := Some(symbols[Key(names[0], address)]);
  }

  /** A found symbol belongs to this very address, under a module with this file name. */
  lemma FoundThere(symbols: map<Key, Symbol>, name: string, address: u64)
    requires FoundSymbol(symbols, name, address).Some?
    ensures exists key | key in symbols ::
              && symbols[key] == FoundSymbol(symbols, name, address).value
              && key.address == address && Basename(key.moduleName) == LowerBasename(name)
  {
    LowerKeepsName(name);
    var own := Key(Lower(name), address);
    if own !in symbols {
      var names := Ascending(Alternatives(symbols, name, address));
      assert names[0] in names;
      assert Key(names[0], address) in symbols;
    }
  }

  /** Symbols are shown for matched modules, and for system modules whose symbols are still to come. */
  predicate MayShow(info: Option<ModuleInfo>) {
    && info.Some?
    && (info.value.status == "matched"
        || (info.value.status == "system_symbol_pending" && info.value.role == "system" && !info.value.inApp))
  }

  ghost function CandidateFor(symbols: Option<map<Key, Symbol>>, at: Place): Option<Symbol> {
    if symbols.None? then None else FoundSymbol(symbols.value, GetOr(at.moduleName, ""), at.frame.instruction)
  }

  /** The canonical frames of a physical frame without symbol, or with one. */
  function FramesFor(at: Place, symbol: Option<Symbol>): seq<FrameInfo> {
    match symbol
    case None =>
      [MakeFrame(at.frame, at.index, at.moduleName, at.dumpModule, at.relative, at.moduleInfo, None, at.frame.hasInlines)]
    case Some(s) => ShownFrames(at, s, s.inlines == [] && at.frame.hasInlines, Expand(s))
  }

  /** `canonical_frames`: a symbol that may not be shown is counted instead. */
  method CanonicalFrames(
    report: InspectReport, frame: UnwindFrame, index: nat, symbols: Option<map<Key, Symbol>>, modules: seq<ModuleInfo>,
    suppressed: nat)
    returns (frames: seq<FrameInfo>, suppressed': nat)
    ensures var at := PlaceOf(report, frame, index, modules);
            var candidate := CandidateFor(symbols, at);
            && frames == FramesFor(at, if MayShow(at.moduleInfo) then candidate else None)
            && suppressed' == suppressed + (if candidate.Some? && !MayShow(at.moduleInfo) then 1 else 0)
  {
    hide FoundSymbol, Expand, MakeFrame, ModuleForInstruction, InfoWithCode;
    var at := PlaceOf(report, frame, index, modules);
    suppressed' := suppressed;
    var candidate: Option<Symbol> := None;
    if symbols.Some? {
      candidate := FindSymbol(symbols.value, GetOr(at.moduleName, ""), at.frame.instruction);
    }
    if candidate.Some? && !MayShow(at.moduleInfo) {
      suppressed' := suppressed + 1;
      candidate := None;
    }
    match candidate {
      case None =>
        frames := [MakeFrame(at.frame, at.index, at.moduleName, at.dumpModule, at.relative, at.moduleInfo, None,
                             at.frame.hasInlines)];
      case Some(s) => frames := ShowSymbol(at, s);
    }
  }

  // ----- merge and expand undo each other -----

  lemma {:induction false} CollapseAppend(records: seq<Symbol>, last: Symbol)
    ensures Collapse(records + [last]) ==
            if Collapse(records) != [] && SameSymbol(Collapse(records)[|Collapse(records)| - 1], last) then Collapse(records)
            else Collapse(records) + [last]
  {
    assert (records + [last])[..|records|] == records;
  }

  /** A collapsed list ends like the list itself. */
  lemma CollapseEnds(records: seq<Symbol>)
    requires records != []
    ensures Collapse(records) != [] && SameSymbol(Collapse(records)[|Collapse(records)| - 1], records[|records| - 1])
  {
  }

  /** What merging leaves: the last record, and inline records that collapse to the collapsed list of all. */
  lemma {:induction false} Merged(records: seq<Symbol>)
    requires records != [] && forall r | r in records :: IsPlain(r)
    ensures var s := MergeAll(records);
            && Plain(s) == records[|records| - 1]
            && |s.inlines| == 2 * (|records| - 1)
            && (|records| > 1 ==> Collapse(s.inlines) == Collapse(records))
            && (|records| == 1 ==> s.inlines == [])
  {
    hide Collapse;
    if |records| > 1 {
      var init, last := records[..|records| - 1], records[|records| - 1];
      assert records == init + [last] && last in records;
      assert forall r | r in init :: r in records;
      Merged(init);
      var m := MergeAll(init);
      var s := MergeAll(records);
      assert s.inlines == m.inlines + [Plain(m)] + [Plain(last)];
      CollapseAppend(m.inlines, Plain(m));
      CollapseAppend(m.inlines + [Plain(m)], Plain(last));
      CollapseAppend(init, last);
      if |init| == 1 {
        assert m.inlines + [Plain(m)] == init;
      } else {
        CollapseEnds(init);
      }
    } else {
      assert records[0] in records;
    }
  }

  /**
   Merge, then expand: the physical frame shows the last record, followed by all records with consecutive
   repetitions collapsed and the last one dropped.
   */
  lemma ExpandMerged(records: seq<Symbol>)
    requires records != [] && forall r | r in records :: IsPlain(r)
    ensures Plain(MergeAll(records)) == records[|records| - 1]
    ensures var all := Collapse(records);
            all != [] && Expand(MergeAll(records)) == all[..|all| - 1]
  {
    hide MergeAll, Collapse;
    Merged(records);
    CollapseEnds(records);
    if |records| == 1 {
      CollapseShort(records[0]);
      assert records == [records[0]];
    }
  }

  lemma CollapseShort(record: Symbol)
    ensures Collapse([]) == [] && Collapse([record]) == [record]
  {
    CollapseAppend([], record);
    assert [] + [record] == [record];
  }

  /** So the canonical frames of merged records are the last record and the collapsed rest. */
  lemma MergedFrames(at: Place, records: seq<Symbol>)
    requires records != [] && forall r | r in records :: IsPlain(r)
    ensures Collapse(records) != []
    ensures var s, all := MergeAll(records), Collapse(records);
            ShownFrames(at, s, s.inlines == [] && at.frame.hasInlines, Expand(s)) ==
            ShownFrames(at, records[|records| - 1], |records| == 1 && at.frame.hasInlines, all[..|all| - 1])
  {
    Merged(records);
    ExpandMerged(records);
    hide MergeAll, Expand, Collapse;
    PlainFrame(at, MergeAll(records), |records| == 1 && at.frame.hasInlines);
  }

  lemma PlainFrame(at: Place, s: Symbol, isInline: bool)
    ensures FrameAt(at, s, isInline) == FrameAt(at, Plain(s), isInline)
  {
  }

  // ----- reading a reply -----

  datatype Query = Query(reply: Json, report: InspectReport, unwind: UnwindReport)

  function FirstString(v: Json, fields: seq<string>): Option<string> {
    if fields == [] then None
    else if GetStr(v, fields[0]).Some? then GetStr(v, fields[0])
    else FirstString(v, fields[1..])
  }

  function FirstNumber(v: Json, fields: seq<string>): Option<u64> {
    if fields == [] then None
    else if Get(v, fields[0]).Some? && HexAddress(Get(v, fields[0]).value).Some? then HexAddress(Get(v, fields[0]).value)
    else FirstNumber(v, fields[1..])
  }

  function ThreadId(v: Json): Option<u32> {
    if AsU64(v).Some? then
      if AsU64(v).value < U32_BOUND then Some(AsU64(v).value) else None
    else if v.Str? then
      var s := Trim(v.s);
      if "0x" <= s || "0X" <= s then ParseUnsigned(s[2..], Hexadecimal, U32_BOUND) else ParseUnsigned(s, Decimal, U32_BOUND)
    else
      var id :- Get(v, "id");
      ThreadId(id)
  }

  datatype TraceThread = Positional | Named(id: u32) | Unreadable

  function TraceThreadOf(trace: Json, fields: seq<string>): TraceThread {
    if fields == [] then Positional
    else
      match Get(trace, fields[0])
      case None => TraceThreadOf(trace, fields[1..])
      case Some(Null) => Positional
      case Some(v) =>
        match ThreadId(v)
        case Some(id) => Named(id)
        case None => Unreadable
  }

  function ThreadWithId(threads: seq<UnwindThread>, id: u32): Option<UnwindThread> {
    if threads == [] then None
    else if threads[0].id == id then Some(threads[0])
    else ThreadWithId(threads[1..], id)
  }

  /** The unwound thread that a trace speaks about. */
  function RequestedThread(q: Query, traceIndex: nat, trace: Json): Option<UnwindThread> {
    match TraceThreadOf(trace, ["thread_id", "threadId", "thread"])
    case Named(id) => ThreadWithId(q.unwind.threads, id)
    case Positional => if traceIndex < |q.unwind.threads| then Some(q.unwind.threads[traceIndex]) else None
    case Unreadable => None
  }

  function ReportModule(modules: seq<InspectModule>, address: u64): Option<InspectModule> {
    if modules == [] then None
    else if BaseOf(modules[0]) <= address < SaturatingAdd(BaseOf(modules[0]), modules[0].imageSize) then Some(modules[0])
    else ReportModule(modules[1..], address)
  }

  /** The module name under which a requested frame is keyed: the report's, else the unwinder's. */
  function OwnModuleName(q: Query, requested: UnwindFrame): Option<string> {
    match ReportModule(q.report.modules, requested.instruction)
    case Some(m) => Some(m.codeFile)
    case None => if requested.image.Some? then Some(requested.image.value.codeFile) else None
  }

  /** An accepted frame of the reply: its key and its record. */
  datatype Hit = Hit(key: Key, record: Symbol)

  predicate Near(a: u64, b: u64) {
    -1 <= a - b <= 1
  }

  function RecordOf(frame: Json): Symbol {
    Symbol(FirstString(frame, ["function", "function_name"]), FirstString(frame, ["filename", "file", "source_file"]),
           FirstNumber(frame, ["lineno", "line", "source_line"]), [])
  }

  /** One frame of the reply, accepted or not. */
  function JudgeFrame(q: Query, traceIndex: nat, trace: Json, frame: Json): Option<Hit> {
    var given :- Get(frame, "instruction_addr");
    var address :- HexAddress(given);
    var thread :- RequestedThread(q, traceIndex, trace);
    var index :- GetU64(frame, "original_index");
    if index >= |thread.frames| then None
    else
      var requested := thread.frames[index];
      var known := ReportModule(q.report.modules, requested.instruction);
      if !Near(address, requested.instruction)
         || !Accepted(Claim(q.reply, frame, address, requested.instruction, requested, known)) then None
      else
        var name :- OwnModuleName(q, requested);
        Some(Hit(Key(Lower(name), requested.instruction), RecordOf(frame)))
  }

  /** The checks on one frame, in the order in which they reject it. */
  method CheckFrame(q: Query, traceIndex: nat, trace: Json, frame: Json) returns (verdict: Option<Hit>)
    ensures verdict == JudgeFrame(q, traceIndex, trace, frame)
  {
    hide HexAddress, RequestedThread, ReportModule, Accepted, RecordOf, Lower;
    var given := Get(frame, "instruction_addr");
    if given.None? || HexAddress(given.value).None? {
      return None;
    }
    var address := HexAddress(given.value).value;
    var thread, index := RequestedThread(q, traceIndex, trace), GetU64(frame, "original_index");
    if thread.None? || index.None? || index.value >= |thread.value.frames| {
      return None;
    }
    var requested := thread.value.frames[index.value];
    if !Near(address, requested.instruction) {
      return None;
    }
    var known := ReportModule(q.report.modules, requested.instruction);
    var ok := MatchProvenance(Claim(q.reply, frame, address, requested.instruction, requested, known));
    var name := OwnModuleName(q, requested);
    if !ok || name.None? {
      return None;
    }
    verdict := Some(Hit(Key(Lower(name.value), requested.instruction), RecordOf(frame)));
  }

  /** The verdicts on the first `n` frames of a trace, and on all frames of the first `n` traces with a frame list. */
  function TraceVerdicts(q: Query, traceIndex: nat, trace: Json, frames: seq<Json>, n: nat): (r: seq<Option<Hit>>)
    requires n <= |frames|
    ensures |r| == n
  {
    if n == 0 then []
    else TraceVerdicts(q, traceIndex, trace, frames, n - 1) + [JudgeFrame(q, traceIndex, trace, frames[n - 1])]
  }

  function Verdicts(q: Query, traces: seq<Json>, n: nat): seq<Option<Hit>>
    requires n <= |traces|
  {
    if n == 0 then []
    else
      Verdicts(q, traces, n - 1)
      + (match GetArray(traces[n - 1], "frames")
         case None => []
         case Some(frames) => TraceVerdicts(q, n - 1, traces[n - 1], frames, |frames|))
  }

  /** The number of frames in all traces that have a frame list. */
  function FrameCount(traces: seq<Json>, n: nat): nat
    requires n <= |traces|
  {
    if n == 0 then 0
    else
      FrameCount(traces, n - 1)
      + (match GetArray(traces[n - 1], "frames")
         case None => 0
         case Some(frames) => |frames|)
  }

  function AllVerdicts(q: Query): seq<Option<Hit>> {
    match GetArray(q.reply, "stacktraces")
    case None => []
    case Some(traces) => Verdicts(q, traces, |traces|)
  }

  /** The symbols that the first `n` verdicts leave, and how many of them were rejections. */
  function Folded(verdicts: seq<Option<Hit>>, n: nat): map<Key, Symbol>
    requires n <= |verdicts|
  {
    if n == 0 then map[]
    else
      match verdicts[n - 1]
      case None => Folded(verdicts, n - 1)
      case Some(hit) => Merge(Folded(verdicts, n - 1), hit.key, hit.record)
  }

  function Rejections(verdicts: seq<Option<Hit>>, n: nat): nat
    requires n <= |verdicts|
  {
    if n == 0 then 0 else Rejections(verdicts, n - 1) + (if verdicts[n - 1].None? then 1 else 0)
  }

  lemma {:induction false} FoldedPrefix(a: seq<Option<Hit>>, b: seq<Option<Hit>>, n: nat)
    requires n <= |a| && n <= |b| && a[..n] == b[..n]
    ensures Folded(a, n) == Folded(b, n) && Rejections(a, n) == Rejections(b, n)
  {
    if n > 0 {
      assert a[n - 1] == a[..n][n - 1] == b[..n][n - 1] == b[n - 1];
      assert a[..n - 1] == a[..n][..n - 1] == b[..n][..n - 1] == b[..n - 1];
      FoldedPrefix(a, b, n - 1);
    }
  }

  lemma OneMoreVerdict(verdicts: seq<Option<Hit>>, last: Option<Hit>)
    ensures var more := verdicts + [last];
            && Folded(more, |more|) == (match last
                                        case None => Folded(verdicts, |verdicts|)
                                        case Some(hit) => Merge(Folded(verdicts, |verdicts|), hit.key, hit.record))
            && Rejections(more, |more|) == Rejections(verdicts, |verdicts|) + (if last.None? then 1 else 0)
  {
    var more := verdicts + [last];
    assert more[..|verdicts|] == verdicts == verdicts[..|verdicts|];
    FoldedPrefix(more, verdicts, |verdicts|);
  }

  /** The frames of one trace. */
  method ParseTrace(
    q: Query, traceIndex: nat, trace: Json, records: seq<Json>, ghost before: seq<Option<Hit>>,
    frames: map<Key, Symbol>, rejected: nat)
    returns (frames': map<Key, Symbol>, rejected': nat)
    requires frames == Folded(before, |before|) && rejected == Rejections(before, |before|)
    ensures var all := before + TraceVerdicts(q, traceIndex, trace, records, |records|);
            frames' == Folded(all, |all|) && rejected' == Rejections(all, |all|)
  {
    hide JudgeFrame, Merge, Folded, Rejections;
    frames', rejected' := frames, rejected;
    ghost var seen := before;
    assert before + TraceVerdicts(q, traceIndex, trace, records, 0) == before;
    for i := 0 to |records|
      invariant seen == before + TraceVerdicts(q, traceIndex, trace, records, i)
      invariant frames' == Folded(seen, |seen|) && rejected' == Rejections(seen, |seen|)
    {
      var verdict := CheckFrame(q, traceIndex, trace, records[i]);
      OneMoreVerdict(seen, verdict);
      seen := seen + [verdict];
      match verdict {
        case None => rejected' := rejected' + 1;
        case Some(hit) => frames' := MergeSymbol(frames', hit.key, hit.record);
      }
    }
  }

  /** The end of a module's own symbol lookup, as the reply lists it. */
  datatype ReplyModule = ReplyModule(
    codeFile: Option<string>, codeId: Option<string>, debugFile: Option<string>, debugId: Option<string>,
    debugStatus: string)

  /** The listed modules that have a status. */
  function ReplyModules(modules: seq<Json>, n: nat): seq<ReplyModule>
    requires n <= |modules|
  {
    if n == 0 then []
    else
      var m := modules[n - 1];
      ReplyModules(modules, n - 1)
      + (match GetStr(m, "debug_status")
         case None => []
         case Some(status) =>
           [ReplyModule(GetStr(m, "code_file"), GetStr(m, "code_id"), GetStr(m, "debug_file"), GetStr(m, "debug_id"), status)])
  }

  function ModulesOf(reply: Json): seq<ReplyModule> {
    match GetArray(reply, "modules")
    case None => []
    case Some(modules) => ReplyModules(modules, |modules|)
  }

  method ParseModules(reply: Json) returns (modules: seq<ReplyModule>)
    ensures modules == ModulesOf(reply)
  {
    modules := [];
    var listed := GetArray(reply, "modules");
    if listed.None? {
      return;
    }
    for i := 0 to |listed.value|
      invariant modules == ReplyModules(listed.value, i)
    {
      var m := listed.value[i];
      var status := GetStr(m, "debug_status");
      if status.Some? {
        modules := modules
        + [ReplyModule(GetStr(m, "code_file"), GetStr(m, "code_id"), GetStr(m, "debug_file"), GetStr(m, "debug_id"),
                       status.value)];
      }
    }
  }

  /** `parse_result`. */
  method ParseResult(q: Query)
    returns (version: Option<string>, modules: seq<ReplyModule>, frames: map<Key, Symbol>, rejected: nat)
    ensures version == GetStr(q.reply, "version") && modules == ModulesOf(q.reply)
    ensures frames == Folded(AllVerdicts(q), |AllVerdicts(q)|)
    ensures rejected == Rejections(AllVerdicts(q), |AllVerdicts(q)|)
  {
    hide TraceVerdicts;
    frames, rejected, version := map[], 0, GetStr(q.reply, "version");
    modules := ParseModules(q.reply);
    var traces := GetArray(q.reply, "stacktraces");
    if traces.None? {
      return;
    }
    for t := 0 to |traces.value|
      invariant var seen := Verdicts(q, traces.value, t);
                frames == Folded(seen, |seen|) && rejected == Rejections(seen, |seen|)
    {
      hide Folded, Rejections;
      var records := GetArray(traces.value[t], "frames");
      if records.None? {
        assert Verdicts(q, traces.value, t + 1) == Verdicts(q, traces.value, t);
        continue;
      }
      frames, rejected := ParseTrace(q, t, traces.value[t], records.value, Verdicts(q, traces.value, t), frames, rejected);
    }
  }

  // ----- conservation -----

  /** How many reply frames a merged symbol stands for. */
  function Worth(s: Symbol): nat {
    1 + |s.inlines| / 2
  }

  ghost function TotalWorth(frames: map<Key, Symbol>): nat
    decreases |frames|
  {
    if frames == map[] then 0
    else
      var k :| k in frames;
      Worth(frames[k]) + TotalWorth(frames - {k})
  }

  lemma {:induction false} WorthWithout(frames: map<Key, Symbol>, k: Key)
    requires k in frames
    ensures TotalWorth(frames) == Worth(frames[k]) + TotalWorth(frames - {k})
    decreases |frames|
  {
    hide Worth;
    var j :| j in frames && TotalWorth(frames) == Worth(frames[j]) + TotalWorth(frames - {j});
    if j != k {
      WorthWithout(frames - {j}, k);
      WorthWithout(frames - {k}, j);
      assert frames - {j} - {k} == frames - {k} - {j};
    }
  }

  lemma MergeWorth(frames: map<Key, Symbol>, key: Key, record: Symbol)
    requires IsPlain(record)
    ensures TotalWorth(Merge(frames, key, record)) == TotalWorth(frames) + 1
  {
    hide TotalWorth;
    var after := Merge(frames, key, record);
    WorthWithout(after, key);
    if key in frames {
      WorthWithout(frames, key);
      assert after - {key} == frames - {key};
    } else {
      assert after - {key} == frames;
    }
  }

  ghost predicate PlainHits(verdicts: seq<Option<Hit>>) {
    forall i | 0 <= i < |verdicts| :: verdicts[i].Some? ==> IsPlain(verdicts[i].value.record)
  }

  lemma {:induction false} FoldedWorth(verdicts: seq<Option<Hit>>, n: nat)
    requires n <= |verdicts| && PlainHits(verdicts)
    ensures TotalWorth(Folded(verdicts, n)) + Rejections(verdicts, n) == n
  {
    hide TotalWorth, Merge;
    if n > 0 {
      FoldedWorth(verdicts, n - 1);
      if verdicts[n - 1].Some? {
        MergeWorth(Folded(verdicts, n - 1), verdicts[n - 1].value.key, verdicts[n - 1].value.record);
      }
    } else {
      NothingIsWorthNothing();
    }
  }

  lemma NothingIsWorthNothing()
    ensures TotalWorth(map[]) == 0
  {
  }

  /** The claim that a frame of the reply makes about a requested one. */
  function ClaimOn(q: Query, record: Json, address: u64, requested: UnwindFrame): Claim {
    Claim(q.reply, record, address, requested.instruction, requested, ReportModule(q.report.modules, requested.instruction))
  }

  /** The frame of the reply names frame `f` of thread `t` as its own, at most one byte away, and was accepted for it. */
  ghost predicate Speaks(q: Query, traceIndex: nat, trace: Json, frame: Json, t: nat, f: nat) {
    && t < |q.unwind.threads| && f < |q.unwind.threads[t].frames|
    && RequestedThread(q, traceIndex, trace) == Some(q.unwind.threads[t]) && GetU64(frame, "original_index") == Some(f)
    && var requested, address := q.unwind.threads[t].frames[f], FieldAddress(frame, "instruction_addr");
       && address.Some? && Near(address.value, requested.instruction)
       && Accepted(ClaimOn(q, frame, address.value, requested))
  }

  /** The key of a requested frame: its own address, and the name by which report or walker know its module. */
  predicate IsKeyOf(q: Query, key: Key, requested: UnwindFrame) {
    requested.instruction == key.address
    && OwnModuleName(q, requested).Some? && Lower(OwnModuleName(q, requested).value) == key.moduleName
  }

  /** Frame `j` of trace `i` of the reply has this verdict. */
  ghost predicate JudgedAt(q: Query, traces: seq<Json>, i: nat, j: nat, verdict: Option<Hit>) {
    && i < |traces| && GetArray(traces[i], "frames").Some? && j < |GetArray(traces[i], "frames").value|
    && verdict == JudgeFrame(q, i, traces[i], GetArray(traces[i], "frames").value[j])
  }

  /** The verdict gives the key, and its frame of the reply speaks for a requested frame with that key. */
  ghost predicate GivesKey(q: Query, traces: seq<Json>, i: nat, j: nat, verdict: Option<Hit>, key: Key) {
    && JudgedAt(q, traces, i, j, verdict) && verdict.Some? && verdict.value.key == key
    && exists t: nat, f: nat ::
         && Speaks(q, i, traces[i], GetArray(traces[i], "frames").value[j], t, f)
         && IsKeyOf(q, key, q.unwind.threads[t].frames[f])
  }

  /** Some frame of the reply gave the key. */
  ghost predicate IsGiven(q: Query, traces: seq<Json>, key: Key) {
    exists i: nat, j: nat, verdict :: GivesKey(q, traces, i, j, verdict, key)
  }

  lemma {:induction false} ThreadFound(threads: seq<UnwindThread>, id: u32)
    ensures ThreadWithId(threads, id).Some? ==> ThreadWithId(threads, id).value in threads
  {
    if threads != [] {
      ThreadFound(threads[1..], id);
    }
  }

  lemma JudgedSpeaks(q: Query, traceIndex: nat, trace: Json, frame: Json)
    requires JudgeFrame(q, traceIndex, trace, frame).Some?
    ensures IsPlain(JudgeFrame(q, traceIndex, trace, frame).value.record)
    ensures exists t: nat, f: nat ::
              && Speaks(q, traceIndex, trace, frame, t, f)
              && IsKeyOf(q, JudgeFrame(q, traceIndex, trace, frame).value.key, q.unwind.threads[t].frames[f])
  {
    hide HexAddress, TraceThreadOf, ReportModule, OwnModuleName, FirstString, FirstNumber, ThreadWithId, Lower, Accepted, Near;
    var thread := RequestedThread(q, traceIndex, trace).value;
    match TraceThreadOf(trace, ["thread_id", "threadId", "thread"]) {
      case Named(id) => ThreadFound(q.unwind.threads, id);
      case Positional =>
      case Unreadable =>
    }
    assert thread in q.unwind.threads;
    var t :| 0 <= t < |q.unwind.threads| && q.unwind.threads[t] == thread;
    var f := GetU64(frame, "original_index").value;
    assert Speaks(q, traceIndex, trace, frame, t, f);
    assert IsKeyOf(q, JudgeFrame(q, traceIndex, trace, frame).value.key, q.unwind.threads[t].frames[f]);
  }

  lemma {:induction false} TraceVerdictsAre(q: Query, traceIndex: nat, trace: Json, frames: seq<Json>, n: nat)
    requires n <= |frames|
    ensures forall j | 0 <= j < n ::
              TraceVerdicts(q, traceIndex, trace, frames, n)[j] == JudgeFrame(q, traceIndex, trace, frames[j])
  {
    hide JudgeFrame;
    if n > 0 {
      TraceVerdictsAre(q, traceIndex, trace, frames, n - 1);
    }
  }

  /** There is one verdict for every frame of the reply, and no other. */
  lemma {:induction false} VerdictsAre(q: Query, traces: seq<Json>, n: nat)
    requires n <= |traces|
    ensures |Verdicts(q, traces, n)| == FrameCount(traces, n)
    ensures forall v :: v in Verdicts(q, traces, n) <==> exists i: nat, j: nat :: i < n && JudgedAt(q, traces, i, j, v)
  {
    hide TraceVerdicts, JudgeFrame;
    if n > 0 {
      VerdictsAre(q, traces, n - 1);
      var init := Verdicts(q, traces, n - 1);
      match GetArray(traces[n - 1], "frames") {
        case None =>
        case Some(frames) =>
          var i: nat := n - 1;
          TraceVerdictsAre(q, n - 1, traces[n - 1], frames, |frames|);
          var last := TraceVerdicts(q, n - 1, traces[n - 1], frames, |frames|);
          forall v
            ensures v in last <==> exists j: nat :: JudgedAt(q, traces, i, j, v)
          {
            if v in last {
              var j :| 0 <= j < |last| && last[j] == v;
              assert JudgedAt(q, traces, i, j, v);
            }
            if j: nat :| JudgedAt(q, traces, i, j, v) {
              assert last[j] == v;
            }
          }
      }
    }
  }

  /** The keys of the merged symbols are those of the verdicts. */
  lemma {:induction false} FoldedKeys(verdicts: seq<Option<Hit>>, n: nat, key: Key)
    requires n <= |verdicts|
    ensures key in Folded(verdicts, n) <==> exists i :: 0 <= i < n && verdicts[i].Some? && verdicts[i].value.key == key
  {
    if n > 0 {
      FoldedKeys(verdicts, n - 1, key);
    }
  }

  /**
   Conservation: over all traces with a frame list, every reply frame is either counted as rejected or
   present in the merged symbols. The keys are exactly those given by a frame of the reply that was accepted:
   for the very frame it names, under that frame's own address and module name.
   */
  lemma Conservation(q: Query, traces: seq<Json>)
    requires GetArray(q.reply, "stacktraces") == Some(traces)
    ensures var verdicts := AllVerdicts(q);
            && TotalWorth(Folded(verdicts, |verdicts|)) + Rejections(verdicts, |verdicts|) == FrameCount(traces, |traces|)
            && (forall key :: key in Folded(verdicts, |verdicts|) <==> IsGiven(q, traces, key))
  {
    hide Verdicts, TotalWorth, Folded, Rejections, GivesKey, JudgeFrame;
    var verdicts := AllVerdicts(q);
    VerdictsAre(q, traces, |traces|);
    forall i | 0 <= i < |verdicts| && verdicts[i].Some?
      ensures IsPlain(verdicts[i].value.record) && IsGiven(q, traces, verdicts[i].value.key)
    {
      assert verdicts[i] in verdicts;
      var k: nat, j: nat :| JudgedAt(q, traces, k, j, verdicts[i]);
      JudgedGives(q, traces, k, j, verdicts[i]);
    }
    FoldedWorth(verdicts, |verdicts|);
    forall key
      ensures key in Folded(verdicts, |verdicts|) <==> IsGiven(q, traces, key)
    {
      FoldedKeys(verdicts, |verdicts|, key);
      if IsGiven(q, traces, key) {
        var i: nat, j: nat, verdict :| GivesKey(q, traces, i, j, verdict, key);
        GivenIsJudged(q, traces, i, j, verdict, key);
        assert verdict in verdicts;
      }
    }
  }

  lemma JudgedGives(q: Query, traces: seq<Json>, i: nat, j: nat, verdict: Option<Hit>)
    requires JudgedAt(q, traces, i, j, verdict) && verdict.Some?
    ensures IsPlain(verdict.value.record) && IsGiven(q, traces, verdict.value.key)
  {
    hide JudgeFrame, Speaks, IsKeyOf;
    JudgedSpeaks(q, i, traces[i], GetArray(traces[i], "frames").value[j]);
    assert GivesKey(q, traces, i, j, verdict, verdict.value.key);
  }

  lemma GivenIsJudged(q: Query, traces: seq<Json>, i: nat, j: nat, verdict: Option<Hit>, key: Key)
    requires GivesKey(q, traces, i, j, verdict, key)
    ensures JudgedAt(q, traces, i, j, verdict) && verdict.Some? && verdict.value.key == key
  {
  }

  // ----- what a key shows -----

  /** The records accepted for a key, in reply order. */
  function RecordsOf(verdicts: seq<Option<Hit>>, n: nat, key: Key): seq<Symbol>
    requires n <= |verdicts|
  {
    if n == 0 then []
    else
      RecordsOf(verdicts, n - 1, key)
      + (if verdicts[n - 1].Some? && verdicts[n - 1].value.key == key then [verdicts[n - 1].value.record] else [])
  }

  lemma MergeOneMore(records: seq<Symbol>, last: Symbol)
    ensures MergeAll(records + [last]) == if records == [] then last else MergeInto(MergeAll(records), last)
  {
    assert (records + [last])[..|records|] == records;
  }

  /** Whatever comes between them, the records of a key are merged as if they came alone. */
  lemma {:induction false} KeysMergeApart(verdicts: seq<Option<Hit>>, n: nat, key: Key)
    requires n <= |verdicts|
    ensures key in Folded(verdicts, n) <==> RecordsOf(verdicts, n, key) != []
    ensures key in Folded(verdicts, n) ==> Folded(verdicts, n)[key] == MergeAll(RecordsOf(verdicts, n, key))
  {
    if n > 0 {
      KeysMergeApart(verdicts, n - 1, key);
      var init, all := RecordsOf(verdicts, n - 1, key), RecordsOf(verdicts, n, key);
      if verdicts[n - 1].Some? && verdicts[n - 1].value.key == key {
        MergeOneMore(init, verdicts[n - 1].value.record);
      } else {
        assert all == init;
      }
    }
  }
}
