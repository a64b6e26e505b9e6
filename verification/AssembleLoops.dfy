/** The loops of the assembler, proved to compute what `Assembler` specifies. */
module AssembleLoops {
  import opened Basics
  import opened Evidence
  import opened Layout
  import opened Frames
  import opened Assembler

  /** The range table, unless an address does not read or a range leaves the address space. */
  method BuildRanges(modules: seq<InspectModule>) returns (r: Result<seq<Range>>)
    ensures r.Success? <==> HexAddressesOk(modules)
    ensures r.Success? ==> r.value == Table(HexExtents(modules))
  {
    hide HexExtent, InsertRange;
    var ranges: seq<Range> := [];
    for i := 0 to |modules|
      invariant forall j | 0 <= j < i :: HexExtent(modules[j]).Some?
      invariant ranges == SortedRanges(HexExtents(modules), i)
    {
      var extent := HexExtent(modules[i]);
      if extent.None? {
        return Failure;
      }
      assert HexExtents(modules)[i] == extent.value;
      if extent.value.size > 0 {
        ranges := InsertRange(Range(extent.value.base, extent.value.base + extent.value.size, i), ranges);
      }
    }
    r := Success(ranges);
  }

  lemma {:induction false} TableHolds(symbols: seq<FrameSymbol>, n: nat)
    requires n <= |symbols|
    ensures forall slot :: slot in PacketTable(symbols, n) <==> exists i | 0 <= i < n :: SlotOf(symbols[i]) == slot
  {
    if n > 0 {
      TableHolds(symbols, n - 1);
    }
  }

  /** The loop over the packets. */
  method CheckPackets(
    report: InspectReport, unwind: UnwindReport, inputs: FrozenInputs, symbols: seq<FrameSymbol>,
    ranges: seq<Range>)
    returns (ok: bool, table: map<Slot, Symbol>)
    requires |inputs.modules| == |report.modules|
    requires PairwiseApart(HexExtents(report.modules)) && ranges == Table(HexExtents(report.modules))
    ensures ok <==> PacketsOk(report, unwind, inputs, symbols)
    ensures ok ==> table == PacketTable(symbols, |symbols|)
  {
    hide PacketChecks, PairwiseApart, FirstMatch, FindRange, SortedRanges;
    ok, table := true, map[];
    for i := 0 to |symbols|
      invariant ok && table == PacketTable(symbols, i)
      invariant forall j | 0 <= j < i :: PacketOk(report, unwind, inputs, symbols[j])
      invariant forall j, k | 0 <= j < k < i :: SlotOf(symbols[j]) != SlotOf(symbols[k])
    {
      var packet := symbols[i];
      LookupUnique(HexExtents(report.modules), packet.instruction);
      var found := FindRange(ranges, packet.instruction);
      assert found == ModuleOfPc(report, packet.instruction);
      TableHolds(symbols, i);
      if !PacketChecks(unwind, inputs, packet, found) || SlotOf(packet) in table {
        assert !PacketOk(report, unwind, inputs, symbols[i]) || !DistinctSlots(symbols);
        ok := false;
        return;
      }
      table := table[SlotOf(packet) := packet.symbol];
    }
  }

  // ----- frames -----

  lemma {:induction false} FramesGrow(s: Stack, n: nat, m: nat)
    requires n <= m && StackOk(s, m)
    ensures FramesOf(s, n) <= FramesOf(s, m)
  {
    hide FrameOk, Block;
    if n < m {
      FramesGrow(s, n, m - 1);
    }
  }

  /** A physical frame and its inline records, pushed one by one while a 32-bit index can number them. */
  method PushRecords(s: Stack, f: nat, frames: seq<FrameInfo>, provenances: seq<Provenance>)
    returns (ok: bool, frames': seq<FrameInfo>, provenances': seq<Provenance>)
    requires |s.infos| == |s.report.modules| && f < |s.raw| && FrameOk(s.raw[f])
    requires |frames| <= U32_BOUND
    ensures ok <==> |frames| + BlockSize(s, f) <= U32_BOUND
    ensures ok ==> frames' == frames + Block(s.report, s.infos, s.raw[f], |frames|, SymbolAt(s.table, s.thread, f))
    ensures ok ==> provenances' == provenances + Repeat(ProvenanceOf(s.report, s.raw[f], f), BlockSize(s, f))
  {
    hide FrameOf, FrameOk, ProvenanceOf;
    ok, frames', provenances' := true, frames, provenances;
    var symbol := SymbolAt(s.table, s.thread, f);
    if |frames'| >= U32_BOUND {
      ok := false;
      return;
    }
    frames' := frames' + [FrameOf(s.report, s.infos, s.raw[f], |frames'|, symbol, false)];
    provenances' := provenances' + [ProvenanceOf(s.report, s.raw[f], f)];
    if symbol.Some? {
      var inlines := symbol.value.inlines;
      for i := 0 to |inlines|
        invariant |frames'| == |frames| + 1 + i <= U32_BOUND
        invariant frames' == frames + [FrameOf(s.report, s.infos, s.raw[f], |frames|, symbol, false)]
                             + InlineFrames(s.report, s.infos, s.raw[f], |frames| + 1, inlines)[..i]
        invariant provenances' == provenances + Repeat(ProvenanceOf(s.report, s.raw[f], f), 1 + i)
        invariant ok
      {
        if |frames'| >= U32_BOUND {
          ok := false;
          return;
        }
        frames' := frames' + [FrameOf(s.report, s.infos, s.raw[f], |frames'|, Some(inlines[i]), true)];
        provenances' := provenances' + [ProvenanceOf(s.report, s.raw[f], f)];
      }
    }
  }

  /** One thread: its frames and, in a second list, where each of them comes from. */
  method BuildThread(s: Stack) returns (ok: bool, frames: seq<FrameInfo>, provenances: seq<Provenance>)
    requires |s.infos| == |s.report.modules|
    ensures ok <==> StackOk(s, |s.raw|) && |FramesOf(s, |s.raw|)| <= U32_BOUND
    ensures ok ==> frames == FramesOf(s, |s.raw|) && provenances == ProvenancesOf(s, |s.raw|)
  {
    hide FrameOk, Block, ProvenanceOf;
    ok, frames, provenances := true, [], [];
    for f := 0 to |s.raw|
      invariant ok && StackOk(s, f)
      invariant frames == FramesOf(s, f) && |frames| <= U32_BOUND
      invariant provenances == ProvenancesOf(s, f)
    {
      if !FrameOk(s.raw[f]) {
        ok := false;
        return;
      }
      assert StackOk(s, f + 1);
      ok, frames, provenances := PushRecords(s, f, frames, provenances);
      if !ok {
        if StackOk(s, |s.raw|) {
          FramesGrow(s, f + 1, |s.raw|);
        }
        return;
      }
    }
  }

  lemma StacksOk(report: InspectReport, unwind: UnwindReport, symbols: seq<FrameSymbol>, inputs: FrozenInputs)
    requires |inputs.modules| == |report.modules|
    ensures FramesOk(unwind) <==>
              forall t | 0 <= t < |unwind.threads| ::
                StackOk(StackAt(report, unwind, symbols, inputs, t), |unwind.threads[t].frames|)
  {
    hide FrameOk, Infos, PacketTable;
    if FramesOk(unwind) {
      forall t | 0 <= t < |unwind.threads|
        ensures StackOk(StackAt(report, unwind, symbols, inputs, t), |unwind.threads[t].frames|)
      {
      }
    }
    if forall t | 0 <= t < |unwind.threads| ::
         StackOk(StackAt(report, unwind, symbols, inputs, t), |unwind.threads[t].frames|) {
      forall t, f | 0 <= t < |unwind.threads| && 0 <= f < |unwind.threads[t].frames|
        ensures FrameOk(unwind.threads[t].frames[f])
      {
        assert StackOk(StackAt(report, unwind, symbols, inputs, t), |unwind.threads[t].frames|);
      }
    }
  }

  method DistinctThreadIds(unwind: UnwindReport) returns (ok: bool)
    ensures ok <==> DistinctThreads(unwind)
  {
    var ids: set<u32> := {};
    for i := 0 to |unwind.threads|
      invariant forall id :: id in ids <==> exists j | 0 <= j < i :: unwind.threads[j].id == id
      invariant forall j, k | 0 <= j < k < i :: unwind.threads[j].id != unwind.threads[k].id
    {
      if unwind.threads[i].id in ids {
        return false;
      }
      ids := ids + {unwind.threads[i].id};
    }
    ok := true;
  }

  /** What is known about the first `n` threads of a run of the assembler that has not failed yet. */
  ghost predicate ThreadsBuilt(
    report: InspectReport, unwind: UnwindReport, symbols: seq<FrameSymbol>, inputs: FrozenInputs, n: nat,
    threads: seq<ThreadInfo>, provenances: seq<seq<Provenance>>)
    requires |inputs.modules| == |report.modules| && n <= |unwind.threads|
  {
    && |threads| == |provenances| == n
    && forall t | 0 <= t < n ::
         var s, m := StackAt(report, unwind, symbols, inputs, t), |unwind.threads[t].frames|;
         && StackOk(s, m) && |FramesOf(s, m)| <= U32_BOUND
         && threads[t] == ThreadInfo(unwind.threads[t].id, report.crashThreadId == Some(unwind.threads[t].id), FramesOf(s, m))
         && provenances[t] == ProvenancesOf(s, m)
  }

  method BuildThreads(
    report: InspectReport, unwind: UnwindReport, symbols: seq<FrameSymbol>, inputs: FrozenInputs,
    infos: seq<ModuleInfo>, table: map<Slot, Symbol>)
    returns (ok: bool, threads: seq<ThreadInfo>, provenances: seq<seq<Provenance>>)
    requires |inputs.modules| == |report.modules|
    requires infos == Infos(report, inputs) && table == PacketTable(symbols, |symbols|)
    ensures ok <==> FramesOk(unwind) && FramesFit(unwind, symbols)
    ensures ok ==> ThreadsBuilt(report, unwind, symbols, inputs, |unwind.threads|, threads, provenances)
  {
    hide FrameOk, Infos, PacketTable, FramesOf, ProvenancesOf;
    hide RecordCount;
    StacksOk(report, unwind, symbols, inputs);
    ok, threads, provenances := true, [], [];
    for t := 0 to |unwind.threads|
      invariant ok && ThreadsBuilt(report, unwind, symbols, inputs, t, threads, provenances)
      invariant forall i | 0 <= i < t :: RecordCount(symbols, i, |unwind.threads[i].frames|) <= U32_BOUND
    {
      var s := Stack(report, infos, unwind.threads[t].frames, table, t);
      assert s == StackAt(report, unwind, symbols, inputs, t);
      var frames, threadProvenance;
      ok, frames, threadProvenance := BuildThread(s);
      if !ok {
        if StackOk(s, |s.raw|) {
          FramesCounted(s, symbols, |s.raw|);
        }
        return;
      }
      FramesCounted(s, symbols, |s.raw|);
      threads := threads + [ThreadInfo(unwind.threads[t].id, report.crashThreadId == Some(unwind.threads[t].id), frames)];
      provenances := provenances + [threadProvenance];
    }
  }

  /** The final zip of frames and provenance. */
  method ZipThreads(
    report: InspectReport, unwind: UnwindReport, symbols: seq<FrameSymbol>, inputs: FrozenInputs,
    threads: seq<ThreadInfo>, provenances: seq<seq<Provenance>>)
    returns (zipped: seq<ThreadV11>)
    requires |inputs.modules| == |report.modules| && FramesOk(unwind)
    requires ThreadsBuilt(report, unwind, symbols, inputs, |unwind.threads|, threads, provenances)
    ensures zipped == FinalThreads(report, unwind, symbols, inputs)
    ensures threads == PreparedThreads(report, unwind, symbols, inputs)
  {
    hide FrameOk, Infos, PacketTable, FramesOf, ProvenancesOf, Zip;
    zipped := [];
    for t := 0 to |threads|
      invariant |zipped| == t
      invariant forall i | 0 <= i < t :: zipped[i] == FinalThread(report, unwind, symbols, inputs, i)
    {
      var s := StackAt(report, unwind, symbols, inputs, t);
      Aligned(s, |unwind.threads[t].frames|);
      zipped := zipped + [ThreadV11(threads[t].id, threads[t].isCrashing, Zip(threads[t].frames, provenances[t]))];
    }
    forall t | 0 <= t < |threads|
      ensures threads[t] == PreparedThread(report, unwind, symbols, inputs, t)
    {
    }
  }

  /** `assemble_checked`: it succeeds exactly for assemblable evidence. */
  method AssembleChecked(report: InspectReport, unwind: UnwindReport, symbols: seq<FrameSymbol>, inputs: FrozenInputs)
    returns (r: Result<CanonicalResult>)
    requires |inputs.modules| == |report.modules|
    ensures r.Success? <==> Assemblable(report, unwind, symbols, inputs)
    ensures r.Success? ==> r.value == Assembled(report, unwind, symbols, inputs)
  {
    hide HexAddressesOk, PacketsOk, FramesOk, FramesFit, ThreadsBuilt, ThreadsMatch, Infos, PacketTable,
         FinalThreads, PreparedThreads, QualityOf, ExactPayload, AllWarnings, FinalModules, SortedRanges, HexExtents;
    var ranges := BuildRanges(report.modules);
    if ranges.Failure? {
      return Failure;
    }
    NeighboursDecide(HexExtents(report.modules));
    if !NoOverlap(ranges.value) {
      return Failure;
    }
    var distinct := DistinctThreadIds(unwind);
    if !ThreadsMatch(report, unwind) || !distinct {
      return Failure;
    }
    var ok, table := CheckPackets(report, unwind, inputs, symbols, ranges.value);
    if !ok {
      return Failure;
    }
    var infos := Infos(report, inputs);
    var built, threads, provenances := BuildThreads(report, unwind, symbols, inputs, infos, table);
    if !built {
      return Failure;
    }
    var zipped := ZipThreads(report, unwind, symbols, inputs, threads, provenances);
    var quality := QualityOf(threads, infos);
    var exact := ExactPayload(inputs.workspaceId, report.exception, report.crashThreadId, infos, threads);
    r := Success(CanonicalResult(
      zipped, FinalModules(inputs, infos), quality, AllWarnings(report, inputs, infos, quality, exact), exact));
  }
}
