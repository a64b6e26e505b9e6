/** What an assembled result does not depend on, and what it must rest on. */
module Independence {
  import opened Basics
  import opened Text
  import opened Evidence
  import opened Layout
  import opened Frames
  import opened Assembler

  // ----- raw names never show -----

  /** Frames that agree on everything the assembler may use: instruction, trust and method. */
  predicate SameWalkFrame(a: UnwindFrame, b: UnwindFrame) {
    a.instruction == b.instruction && a.trust == b.trust && a.unwindMethod == b.unwindMethod
  }

  predicate SameWalkThread(a: UnwindThread, b: UnwindThread) {
    a.id == b.id && |a.frames| == |b.frames| && forall f | 0 <= f < |a.frames| :: SameWalkFrame(a.frames[f], b.frames[f])
  }

  /** Reports that differ at most in raw functions, files, lines, modules, resume addresses and inline flags. */
  predicate SameWalk(a: UnwindReport, b: UnwindReport) {
    |a.threads| == |b.threads| && forall t | 0 <= t < |a.threads| :: SameWalkThread(a.threads[t], b.threads[t])
  }

  lemma FrameUnaffected(
    report: InspectReport, infos: seq<ModuleInfo>, a: UnwindFrame, b: UnwindFrame, index: nat,
    symbol: Option<Symbol>, isInline: bool)
    requires SameWalkFrame(a, b) && FrameOk(a) && |infos| == |report.modules|
    ensures FrameOk(b)
    ensures FrameOf(report, infos, a, index, symbol, isInline) == FrameOf(report, infos, b, index, symbol, isInline)
    ensures forall f: nat :: ProvenanceOf(report, a, f) == ProvenanceOf(report, b, f)
  {
    hide FoldOf, ModuleOfPc, FormatHex, NormalizeFunction, FallbackName;
  }

  lemma BlockUnaffected(
    report: InspectReport, infos: seq<ModuleInfo>, a: UnwindFrame, b: UnwindFrame, index: nat,
    symbol: Option<Symbol>)
    requires SameWalkFrame(a, b) && FrameOk(a) && |infos| == |report.modules|
    ensures FrameOk(b) && Block(report, infos, a, index, symbol) == Block(report, infos, b, index, symbol)
  {
    hide FrameOf, FrameOk;
    FrameUnaffected(report, infos, a, b, index, symbol, false);
    if symbol.Some? {
      var inlines := symbol.value.inlines;
      forall i | 0 <= i < |inlines|
        ensures FrameOf(report, infos, a, index + 1 + i, Some(inlines[i]), true) == FrameOf(report, infos, b, index + 1 + i, Some(inlines[i]), true)
      {
        FrameUnaffected(report, infos, a, b, index + 1 + i, Some(inlines[i]), true);
      }
      assert InlineFrames(report, infos, a, index + 1, inlines) == InlineFrames(report, infos, b, index + 1, inlines);
    }
  }

  predicate SameStack(s: Stack, s': Stack) {
    && s.report == s'.report && s.infos == s'.infos && s.table == s'.table && s.thread == s'.thread
    && |s.raw| == |s'.raw| && forall f | 0 <= f < |s.raw| :: SameWalkFrame(s.raw[f], s'.raw[f])
  }

  lemma {:induction false} StackUnaffected(s: Stack, s': Stack, n: nat)
    requires SameStack(s, s') && StackOk(s, n)
    ensures StackOk(s', n)
    ensures FramesOf(s, n) == FramesOf(s', n) && ProvenancesOf(s, n) == ProvenancesOf(s', n)
  {
    hide FrameOk, Block, ProvenanceOf;
    if n > 0 {
      StackUnaffected(s, s', n - 1);
      var a, b := s.raw[n - 1], s'.raw[n - 1];
      BlockUnaffected(s.report, s.infos, a, b, |FramesOf(s, n - 1)|, SymbolAt(s.table, s.thread, n - 1));
      FrameUnaffected(s.report, s.infos, a, b, 0, None, false);
    }
  }

  lemma FramesOkUnaffected(a: UnwindReport, b: UnwindReport)
    requires SameWalk(a, b) && FramesOk(a)
    ensures FramesOk(b)
  {
    hide FoldOf;
    forall t, f | 0 <= t < |b.threads| && 0 <= f < |b.threads[t].frames|
      ensures FrameOk(b.threads[t].frames[f])
    {
      assert SameWalkThread(a.threads[t], b.threads[t]) && SameWalkFrame(a.threads[t].frames[f], b.threads[t].frames[f]);
      assert FrameOk(a.threads[t].frames[f]);
    }
  }

  lemma PacketsUnaffected(
    report: InspectReport, a: UnwindReport, b: UnwindReport, symbols: seq<FrameSymbol>, inputs: FrozenInputs)
    requires |inputs.modules| == |report.modules| && SameWalk(a, b) && PacketsOk(report, a, inputs, symbols)
    ensures PacketsOk(report, b, inputs, symbols)
  {
    hide FromFrozenSource, Correlated, ModuleOfPc;
    forall i | 0 <= i < |symbols|
      ensures PacketOk(report, b, inputs, symbols[i])
    {
      var packet := symbols[i];
      assert PacketOk(report, a, inputs, packet);
      assert SameWalkThread(a.threads[packet.threadIndex], b.threads[packet.threadIndex]);
      assert SameWalkFrame(a.threads[packet.threadIndex].frames[packet.physicalIndex],
                           b.threads[packet.threadIndex].frames[packet.physicalIndex]);
    }
  }

  lemma ThreadUnaffected(
    report: InspectReport, a: UnwindReport, b: UnwindReport, symbols: seq<FrameSymbol>, inputs: FrozenInputs,
    t: nat)
    requires |inputs.modules| == |report.modules| && SameWalk(a, b) && FramesOk(a) && t < |a.threads|
    ensures FramesOk(b)
    ensures PreparedThread(report, a, symbols, inputs, t) == PreparedThread(report, b, symbols, inputs, t)
    ensures FinalThread(report, a, symbols, inputs, t) == FinalThread(report, b, symbols, inputs, t)
  {
    hide FrameOk, FramesOf, ProvenancesOf, PacketTable, Infos, Zip;
    FramesOkUnaffected(a, b);
    assert SameWalkThread(a.threads[t], b.threads[t]);
    StackUnaffected(StackAt(report, a, symbols, inputs, t), StackAt(report, b, symbols, inputs, t), |a.threads[t].frames|);
  }

  lemma AssemblableUnaffected(
    report: InspectReport, a: UnwindReport, b: UnwindReport, symbols: seq<FrameSymbol>, inputs: FrozenInputs)
    requires |inputs.modules| == |report.modules| && SameWalk(a, b) && Assemblable(report, a, symbols, inputs)
    ensures Assemblable(report, b, symbols, inputs)
  {
    hide HexAddressesOk, PairwiseApart, PacketsOk, FramesOk, PreparedThread;
    PacketsUnaffected(report, a, b, symbols, inputs);
    FramesOkUnaffected(a, b);
    assert forall t | 0 <= t < |a.threads| :: SameWalkThread(a.threads[t], b.threads[t]);
  }

  lemma AssembledSame(
    report: InspectReport, a: UnwindReport, b: UnwindReport, symbols: seq<FrameSymbol>, inputs: FrozenInputs)
    requires |inputs.modules| == |report.modules| && SameWalk(a, b) && FramesOk(a)
    ensures FramesOk(b) && Assembled(report, a, symbols, inputs) == Assembled(report, b, symbols, inputs)
  {
    hide FramesOk, PreparedThread, FinalThread;
    FramesOkUnaffected(a, b);
    forall t | 0 <= t < |a.threads|
      ensures PreparedThread(report, a, symbols, inputs, t) == PreparedThread(report, b, symbols, inputs, t)
      ensures FinalThread(report, a, symbols, inputs, t) == FinalThread(report, b, symbols, inputs, t)
    {
      ThreadUnaffected(report, a, b, symbols, inputs, t);
    }
    assert PreparedThreads(report, a, symbols, inputs) == PreparedThreads(report, b, symbols, inputs);
    assert FinalThreads(report, a, symbols, inputs) == FinalThreads(report, b, symbols, inputs);
  }

  /**
   Non-interference: nothing that the unwinder read from local files, names, lines, modules, resume
   addresses or inline flags, can change whether or what is assembled.
   */
  lemma NonInterference(
    report: InspectReport, a: UnwindReport, b: UnwindReport, symbols: seq<FrameSymbol>, inputs: FrozenInputs)
    requires |inputs.modules| == |report.modules| && SameWalk(a, b)
    ensures Assemblable(report, a, symbols, inputs) <==> Assemblable(report, b, symbols, inputs)
    ensures Assemblable(report, a, symbols, inputs) ==>
              Assembled(report, a, symbols, inputs) == Assembled(report, b, symbols, inputs)
  {
    hide Assemblable, FramesOk, PreparedThread, FinalThread;
    SameWalkSymmetric(a, b);
    if Assemblable(report, a, symbols, inputs) {
      AssemblableUnaffected(report, a, b, symbols, inputs);
      AssemblableFrames(report, a, symbols, inputs);
      AssembledSame(report, a, b, symbols, inputs);
    }
    if Assemblable(report, b, symbols, inputs) {
      AssemblableUnaffected(report, b, a, symbols, inputs);
    }
  }

  lemma SameWalkSymmetric(a: UnwindReport, b: UnwindReport)
    requires SameWalk(a, b)
    ensures SameWalk(b, a)
  {
    forall t | 0 <= t < |b.threads|
      ensures SameWalkThread(b.threads[t], a.threads[t])
    {
      assert SameWalkThread(a.threads[t], b.threads[t]);
      forall f | 0 <= f < |b.threads[t].frames|
        ensures SameWalkFrame(b.threads[t].frames[f], a.threads[t].frames[f])
      {
        assert SameWalkFrame(a.threads[t].frames[f], b.threads[t].frames[f]);
      }
    }
  }

  lemma AssemblableFrames(report: InspectReport, unwind: UnwindReport, symbols: seq<FrameSymbol>, inputs: FrozenInputs)
    requires |inputs.modules| == |report.modules| && Assemblable(report, unwind, symbols, inputs)
    ensures FramesOk(unwind) && DistinctSlots(symbols) && PacketsOk(report, unwind, inputs, symbols)
    ensures forall t, f | 0 <= t < |unwind.threads| && 0 <= f < |unwind.threads[t].frames| :: FrameOk(unwind.threads[t].frames[f])
  {
  }

  // ----- the order of packets never matters -----

  lemma TwoIndexes<T>(s: seq<T>, x: T) returns (a: nat, b: nat)
    requires multiset(s)[x] >= 2
    ensures a < b < |s| && s[a] == x && s[b] == x
  {
    assert x in multiset(s);
    var i :| 0 <= i < |s| && s[i] == x;
    assert s == s[..i] + [x] + s[i + 1..];
    if x in s[..i] {
      var j :| 0 <= j < i && s[..i][j] == x;
      a, b := j, i;
    } else {
      assert multiset(s)[x] == multiset(s[..i])[x] + 1 + multiset(s[i + 1..])[x];
      assert x in multiset(s[i + 1..]);
      var j :| 0 <= j < |s[i + 1..]| && s[i + 1..][j] == x;
      a, b := i, i + 1 + j;
    }
  }

  lemma OccursTwice<T>(s: seq<T>, i: nat, j: nat)
    requires i < j < |s| && s[i] == s[j]
    ensures multiset(s)[s[i]] >= 2
  {
    assert s == s[..j] + s[j..];
    assert s[..j][i] == s[i] && s[j..][0] == s[i];
    assert s[i] in s[..j] && s[i] in s[j..];
    assert multiset(s)[s[i]] == multiset(s[..j])[s[i]] + multiset(s[j..])[s[i]];
  }

  lemma SlotsStayDistinct(s: seq<FrameSymbol>, s': seq<FrameSymbol>)
    requires multiset(s) == multiset(s') && DistinctSlots(s)
    ensures DistinctSlots(s')
  {
    assert Distinct(s) by {
      forall a, b | 0 <= a < b < |s|
        ensures s[a] != s[b]
      {
        assert SlotOf(s[a]) != SlotOf(s[b]);
      }
    }
    forall i, j | 0 <= i < j < |s'|
      ensures SlotOf(s'[i]) != SlotOf(s'[j])
    {
      if s'[i] == s'[j] {
        OccursTwice(s', i, j);
        var _, _ := TwoIndexes(s, s'[i]);
      } else {
        assert s'[i] in multiset(s') && s'[j] in multiset(s');
        var a :| 0 <= a < |s| && s[a] == s'[i];
        var b :| 0 <= b < |s| && s[b] == s'[j];
        assert SlotOf(s[if a < b then a else b]) != SlotOf(s[if a < b then b else a]);
      }
    }
  }

  lemma {:induction false} TableEntry(symbols: seq<FrameSymbol>, n: nat)
    requires n <= |symbols| && DistinctSlots(symbols)
    ensures forall slot :: slot in PacketTable(symbols, n) <==> exists i | 0 <= i < n :: SlotOf(symbols[i]) == slot
    ensures forall i | 0 <= i < n :: PacketTable(symbols, n)[SlotOf(symbols[i])] == symbols[i].symbol
  {
    if n > 0 {
      TableEntry(symbols, n - 1);
    }
  }

  /** Where every packet of `s` also stands in `s'`, the table of `s'` extends that of `s`. */
  lemma TableExtends(s: seq<FrameSymbol>, s': seq<FrameSymbol>, slot: Slot)
    requires DistinctSlots(s) && DistinctSlots(s')
    requires forall packet | packet in s :: packet in s'
    requires slot in PacketTable(s, |s|)
    ensures slot in PacketTable(s', |s'|) && PacketTable(s', |s'|)[slot] == PacketTable(s, |s|)[slot]
  {
    hide PacketTable, DistinctSlots;
    TableEntry(s, |s|);
    TableEntry(s', |s'|);
    var i :| 0 <= i < |s| && SlotOf(s[i]) == slot;
    assert s[i] in s;
    var j :| 0 <= j < |s'| && s'[j] == s[i];
    assert SlotOf(s'[j]) == slot;
  }

  lemma SameTable(s: seq<FrameSymbol>, s': seq<FrameSymbol>)
    requires multiset(s) == multiset(s') && DistinctSlots(s)
    ensures PacketTable(s, |s|) == PacketTable(s', |s'|)
  {
    hide PacketTable, DistinctSlots, SlotOf;
    SlotsStayDistinct(s, s');
    SamePackets(s, s');
    forall slot | slot in PacketTable(s, |s|)
      ensures slot in PacketTable(s', |s'|) && PacketTable(s', |s'|)[slot] == PacketTable(s, |s|)[slot]
    {
      TableExtends(s, s', slot);
    }
    forall slot | slot in PacketTable(s', |s'|)
      ensures slot in PacketTable(s, |s|)
    {
      TableExtends(s', s, slot);
    }
  }

  lemma SamePackets(s: seq<FrameSymbol>, s': seq<FrameSymbol>)
    requires multiset(s) == multiset(s')
    ensures forall packet :: packet in s <==> packet in s'
  {
    forall packet
      ensures packet in s <==> packet in s'
    {
      assert packet in s <==> packet in multiset(s);
      assert packet in s' <==> packet in multiset(s');
    }
  }

  lemma PacketsReordered(
    report: InspectReport, unwind: UnwindReport, inputs: FrozenInputs, s: seq<FrameSymbol>, s': seq<FrameSymbol>)
    requires |inputs.modules| == |report.modules| && multiset(s) == multiset(s') && PacketsOk(report, unwind, inputs, s)
    ensures PacketsOk(report, unwind, inputs, s')
  {
    hide PacketOk, DistinctSlots;
    SlotsStayDistinct(s, s');
    SamePackets(s, s');
    forall i | 0 <= i < |s'|
      ensures PacketOk(report, unwind, inputs, s'[i])
    {
      assert s'[i] in s;
    }
  }

  lemma SameTableSameThread(
    report: InspectReport, unwind: UnwindReport, s: seq<FrameSymbol>, s': seq<FrameSymbol>,
    inputs: FrozenInputs, t: nat)
    requires |inputs.modules| == |report.modules| && FramesOk(unwind) && t < |unwind.threads|
    requires PacketTable(s, |s|) == PacketTable(s', |s'|)
    ensures PreparedThread(report, unwind, s, inputs, t) == PreparedThread(report, unwind, s', inputs, t)
    ensures FinalThread(report, unwind, s, inputs, t) == FinalThread(report, unwind, s', inputs, t)
  {
    hide PacketTable, FramesOf, ProvenancesOf, FrameOk, Infos;
    assert StackAt(report, unwind, s, inputs, t) == StackAt(report, unwind, s', inputs, t);
  }

  lemma {:induction false} SameTableSameCount(s: seq<FrameSymbol>, s': seq<FrameSymbol>, t: nat, n: nat)
    requires PacketTable(s, |s|) == PacketTable(s', |s'|)
    ensures RecordCount(s, t, n) == RecordCount(s', t, n)
  {
    hide PacketTable, InlineCount;
    if n > 0 {
      SameTableSameCount(s, s', t, n - 1);
      InlineCountIs(s, |s|, t, n - 1);
      InlineCountIs(s', |s'|, t, n - 1);
    }
  }

  /** With the same packet table, the same result. */
  lemma SameTableSameResult(
    report: InspectReport, unwind: UnwindReport, s: seq<FrameSymbol>, s': seq<FrameSymbol>, inputs: FrozenInputs)
    requires |inputs.modules| == |report.modules| && FramesOk(unwind)
    requires PacketTable(s, |s|) == PacketTable(s', |s'|)
    ensures Assembled(report, unwind, s, inputs) == Assembled(report, unwind, s', inputs)
    ensures FramesFit(unwind, s) <==> FramesFit(unwind, s')
  {
    hide PacketTable, FramesOk, Infos, PreparedThread, FinalThread, QualityOf, ExactPayload, AllWarnings;
    forall t | 0 <= t < |unwind.threads|
      ensures PreparedThread(report, unwind, s, inputs, t) == PreparedThread(report, unwind, s', inputs, t)
      ensures FinalThread(report, unwind, s, inputs, t) == FinalThread(report, unwind, s', inputs, t)
    {
      SameTableSameThread(report, unwind, s, s', inputs, t);
    }
    forall t, n
      ensures RecordCount(s, t, n) == RecordCount(s', t, n)
    {
      SameTableSameCount(s, s', t, n);
    }
    assert PreparedThreads(report, unwind, s, inputs) == PreparedThreads(report, unwind, s', inputs);
    assert FinalThreads(report, unwind, s, inputs) == FinalThreads(report, unwind, s', inputs);
  }

  /** Permuting the packets changes neither success nor result. */
  lemma PacketOrderIrrelevant(
    report: InspectReport, unwind: UnwindReport, s: seq<FrameSymbol>, s': seq<FrameSymbol>, inputs: FrozenInputs)
    requires |inputs.modules| == |report.modules| && multiset(s) == multiset(s')
    ensures Assemblable(report, unwind, s, inputs) <==> Assemblable(report, unwind, s', inputs)
    ensures Assemblable(report, unwind, s, inputs) ==>
              Assembled(report, unwind, s, inputs) == Assembled(report, unwind, s', inputs)
  {
    hide HexAddressesOk, PairwiseApart, ThreadsMatch, DistinctThreads, PacketsOk, FramesOk, FramesFit, Assembled, PacketTable;
    if Assemblable(report, unwind, s, inputs) {
      PacketsReordered(report, unwind, inputs, s, s');
      PacketsDistinct(report, unwind, inputs, s);
      SameTable(s, s');
      SameTableSameResult(report, unwind, s, s', inputs);
    }
    if Assemblable(report, unwind, s', inputs) {
      PacketsReordered(report, unwind, inputs, s', s);
      PacketsDistinct(report, unwind, inputs, s');
      SameTable(s', s);
      SameTableSameResult(report, unwind, s', s, inputs);
    }
  }

  lemma PacketsDistinct(report: InspectReport, unwind: UnwindReport, inputs: FrozenInputs, s: seq<FrameSymbol>)
    requires |inputs.modules| == |report.modules| && PacketsOk(report, unwind, inputs, s)
    ensures DistinctSlots(s)
  {
  }
}
