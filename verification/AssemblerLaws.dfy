/** Laws of every assembled result. */
module AssemblerLaws {
  import opened Basics
  import opened Text
  import opened Evidence
  import opened Frames
  import opened Assembler

  // ----- the engine's own trust values -----

  datatype FrameTrust = Context | CallFrameInfo | CfiScan | FramePointer | Scan | PreWalked | NoTrust

  function TrustName(t: FrameTrust): string {
    match t
    case Context => "context"
    case CallFrameInfo => "cfi"
    case CfiScan => "cfi"
    case FramePointer => "frame_pointer"
    case Scan => "scan"
    case PreWalked => "unknown"
    case NoTrust => "unknown"
  }

  function UnwindMethodName(t: FrameTrust): string {
    match t
    case Context => "context"
    case CallFrameInfo => "call_frame_info"
    case CfiScan => "cfi_scan"
    case FramePointer => "frame_pointer"
    case Scan => "scan"
    case PreWalked => "prewalked"
    case NoTrust => "unknown"
  }

  /** A report that the unwinder itself made: names come from one trust value per frame. */
  ghost predicate FromEngine(unwind: UnwindReport) {
    forall t, f | 0 <= t < |unwind.threads| && 0 <= f < |unwind.threads[t].frames| ::
      exists trust: FrameTrust ::
        && unwind.threads[t].frames[f].trust == TrustName(trust)
        && unwind.threads[t].frames[f].unwindMethod == Some(UnwindMethodName(trust))
  }

  /** The assembler never refuses the engine's own trust and method. */
  lemma EngineFramesOk(unwind: UnwindReport)
    requires FromEngine(unwind)
    ensures FramesOk(unwind)
  {
    forall t, f | 0 <= t < |unwind.threads| && 0 <= f < |unwind.threads[t].frames|
      ensures FrameOk(unwind.threads[t].frames[f])
    {
      var raw := unwind.threads[t].frames[f];
      var trust: FrameTrust :| raw.trust == TrustName(trust) && raw.unwindMethod == Some(UnwindMethodName(trust));
      match trust {
        case Context =>
        case CallFrameInfo =>
        case CfiScan =>
        case FramePointer =>
        case Scan =>
        case PreWalked =>
        case NoTrust =>
      }
    }
  }

  // ----- inline erasure -----

  function Outer(frames: seq<FrameV11>): seq<FrameV11> {
    if frames == [] then []
    else
      var last := frames[|frames| - 1];
      Outer(frames[..|frames| - 1]) + (if last.frame.isInline then [] else [last])
  }

  lemma {:induction false} OuterAppend(a: seq<FrameV11>, b: seq<FrameV11>)
    ensures Outer(a + b) == Outer(a) + Outer(b)
  {
    if b == [] {
      assert a + b == a;
    } else {
      OuterAppend(a, b[..|b| - 1]);
      assert (a + b)[..|a + b| - 1] == a + b[..|b| - 1];
    }
  }

  lemma {:induction false} OuterOfInlines(frames: seq<FrameV11>)
    requires forall i | 0 <= i < |frames| :: frames[i].frame.isInline
    ensures Outer(frames) == []
  {
    if frames != [] {
      OuterOfInlines(frames[..|frames| - 1]);
    }
  }

  lemma {:induction false} PhysicalAppend(a: seq<FrameInfo>, b: seq<FrameInfo>)
    ensures Physical(a + b) == Physical(a) + Physical(b)
  {
    if b == [] {
      assert a + b == a;
    } else {
      PhysicalAppend(a, b[..|b| - 1]);
      assert (a + b)[..|a + b| - 1] == a + b[..|b| - 1];
    }
  }

  lemma {:induction false} PhysicalOfInlines(frames: seq<FrameInfo>)
    requires forall i | 0 <= i < |frames| :: frames[i].isInline
    ensures Physical(frames) == []
  {
    if frames != [] {
      PhysicalOfInlines(frames[..|frames| - 1]);
    }
  }

  /** What every canonical frame of physical frame `f` carries of it. */
  ghost predicate Carries(s: Stack, f: nat, v: FrameV11)
    requires f < |s.raw|
  {
    && v.physicalIndex == f
    && v.frame.instructionAddr == FormatHex(s.raw[f].instruction)
    && v.moduleIndex == ModuleOfPc(s.report, s.raw[f].instruction)
    && s.raw[f].unwindMethod == Some(v.unwindMethod)
    && v.frame.trust == s.raw[f].trust
  }

  ghost function Zipped(s: Stack, n: nat): seq<FrameV11>
    requires StackOk(s, n)
  {
    Aligned(s, n);
    Zip(FramesOf(s, n), ProvenancesOf(s, n))
  }

  lemma ZipAppend(a: seq<FrameInfo>, b: seq<FrameInfo>, p: seq<Provenance>, q: seq<Provenance>)
    requires |a| == |p| && |b| == |q|
    ensures Zip(a + b, p + q) == Zip(a, p) + Zip(b, q)
  {
  }

  /** The zipped records of one physical frame. */
  ghost function ZippedBlock(s: Stack, f: nat, index: nat): seq<FrameV11>
    requires f < |s.raw| && FrameOk(s.raw[f]) && |s.infos| == |s.report.modules|
  {
    Zip(Block(s.report, s.infos, s.raw[f], index, SymbolAt(s.table, s.thread, f)),
        Repeat(ProvenanceOf(s.report, s.raw[f], f), BlockSize(s, f)))
  }

  lemma FrameFields(
    report: InspectReport, infos: seq<ModuleInfo>, raw: UnwindFrame, index: nat, symbol: Option<Symbol>,
    isInline: bool)
    requires FrameOk(raw) && |infos| == |report.modules|
    ensures var f := FrameOf(report, infos, raw, index, symbol, isInline);
            && f.index == index && f.isInline == isInline
            && f.instructionAddr == FormatHex(raw.instruction)
            && f.trust == FoldOf(raw.unwindMethod.value).value.effective
            && f.functionRaw == (if symbol.Some? then symbol.value.functionName else None)
  {
    hide FoldOf, ModuleOfPc, FormatHex, NormalizeFunction, FallbackName;
  }

  lemma BlockFrames(s: Stack, f: nat, index: nat)
    requires f < |s.raw| && FrameOk(s.raw[f]) && |s.infos| == |s.report.modules|
    ensures var block := Block(s.report, s.infos, s.raw[f], index, SymbolAt(s.table, s.thread, f));
            && |block| == BlockSize(s, f)
            && (forall k | 0 <= k < |block| ::
                  && block[k].index == index + k && (block[k].isInline <==> k > 0)
                  && block[k].instructionAddr == FormatHex(s.raw[f].instruction))
  {
    hide FrameOf, FrameOk, FormatHex;
    var symbol := SymbolAt(s.table, s.thread, f);
    FrameFields(s.report, s.infos, s.raw[f], index, symbol, false);
    if symbol.Some? {
      var inlines := InlineFrames(s.report, s.infos, s.raw[f], index + 1, symbol.value.inlines);
      forall i | 0 <= i < |inlines|
        ensures inlines[i].index == index + 1 + i && inlines[i].isInline
        ensures inlines[i].instructionAddr == FormatHex(s.raw[f].instruction)
      {
        FrameFields(s.report, s.infos, s.raw[f], index + 1 + i, Some(symbol.value.inlines[i]), true);
      }
    }
  }

  lemma OuterOfBlock(block: seq<FrameV11>)
    requires block != [] && forall k | 0 <= k < |block| :: block[k].frame.isInline <==> k > 0
    ensures Outer(block) == [block[0]]
  {
    OuterAppend([block[0]], block[1..]);
    assert block == [block[0]] + block[1..];
    OuterOfInlines(block[1..]);
  }

  lemma BlockFields(s: Stack, f: nat, index: nat)
    requires f < |s.raw| && FrameOk(s.raw[f]) && |s.infos| == |s.report.modules|
    ensures var block := ZippedBlock(s, f, index);
            && block != []
            && (forall k | 0 <= k < |block| :: Carries(s, f, block[k]) && block[k].frame.index == index + k)
            && Outer(block) == [block[0]]
  {
    hide Block, FoldOf, ModuleOfPc, FormatHex, Outer;
    BlockFrames(s, f, index);
    OuterOfBlock(ZippedBlock(s, f, index));
  }

  lemma ZippedStep(s: Stack, n: nat)
    requires 0 < n && StackOk(s, n)
    ensures Zipped(s, n) == Zipped(s, n - 1) + ZippedBlock(s, n - 1, |Zipped(s, n - 1)|)
  {
    hide FrameOk, Block, ProvenanceOf, Zip;
    Aligned(s, n - 1);
    ZipLength(FramesOf(s, n - 1), ProvenancesOf(s, n - 1));
    ZipAppend(FramesOf(s, n - 1), Block(s.report, s.infos, s.raw[n - 1], |FramesOf(s, n - 1)|, SymbolAt(s.table, s.thread, n - 1)),
              ProvenancesOf(s, n - 1), Repeat(ProvenanceOf(s.report, s.raw[n - 1], n - 1), BlockSize(s, n - 1)));
  }

  lemma NothingZipped(s: Stack)
    requires StackOk(s, 0)
    ensures Zipped(s, 0) == [] && Outer([]) == []
  {
  }

  /** Frame numbers run from zero, every record carries its own physical frame, and the outer records are the raw stack. */
  lemma {:induction false} StackShape(s: Stack, n: nat)
    requires StackOk(s, n)
    ensures var frames := Zipped(s, n);
            && (forall k | 0 <= k < |frames| ::
                  frames[k].frame.index == k && frames[k].physicalIndex < n && Carries(s, frames[k].physicalIndex, frames[k]))
            && |Outer(frames)| == n
            && (forall f | 0 <= f < n :: Outer(frames)[f].physicalIndex == f && Outer(frames)[f] in frames)
  {
    hide FrameOk, Zipped, ZippedBlock, Outer, Carries;
    if n > 0 {
      StackShape(s, n - 1);
      var init := Zipped(s, n - 1);
      var block := ZippedBlock(s, n - 1, |init|);
      ZippedStep(s, n);
      BlockFields(s, n - 1, |init|);
      OuterAppend(init, block);
      forall k | 0 <= k < |block|
        ensures block[k].physicalIndex == n - 1
      {
        CarriesPhysical(s, n - 1, block[k]);
      }
      assert block[0] in block;
    } else {
      NothingZipped(s);
    }
  }

  lemma ZipLength(frames: seq<FrameInfo>, provenances: seq<Provenance>)
    requires |frames| == |provenances|
    ensures |Zip(frames, provenances)| == |frames|
  {
  }

  lemma CarriesPhysical(s: Stack, f: nat, v: FrameV11)
    requires f < |s.raw| && Carries(s, f, v)
    ensures v.physicalIndex == f
  {
  }

  /**
   Inline erasure: in every assembled thread the frames are numbered from zero, each carries instruction,
   module, method and trust of the physical frame it names, and dropping the inline records gives back the
   raw stack, frame by frame.
   */
  lemma InlineErasure(
    report: InspectReport, unwind: UnwindReport, symbols: seq<FrameSymbol>, inputs: FrozenInputs, t: nat)
    requires |inputs.modules| == |report.modules| && Assemblable(report, unwind, symbols, inputs)
    requires t < |unwind.threads|
    ensures var raw := unwind.threads[t].frames;
            var frames := Assembled(report, unwind, symbols, inputs).threads[t].frames;
            && (forall k | 0 <= k < |frames| ::
                  && frames[k].frame.index == k && frames[k].physicalIndex < |raw|
                  && frames[k].frame.instructionAddr == FormatHex(raw[frames[k].physicalIndex].instruction)
                  && frames[k].moduleIndex == ModuleOfPc(report, raw[frames[k].physicalIndex].instruction)
                  && raw[frames[k].physicalIndex].unwindMethod == Some(frames[k].unwindMethod)
                  && frames[k].frame.trust == raw[frames[k].physicalIndex].trust)
            && |Outer(frames)| == |raw|
            && (forall f | 0 <= f < |raw| :: Outer(frames)[f].physicalIndex == f && Outer(frames)[f] in frames)
  {
    hide FrameOk, ModuleOfPc, FormatHex, Infos, PacketTable, FramesOf, ProvenancesOf;
    var s := StackAt(report, unwind, symbols, inputs, t);
    assert StackOk(s, |s.raw|);
    StackShape(s, |s.raw|);
    assert Assembled(report, unwind, symbols, inputs).threads[t] == FinalThread(report, unwind, symbols, inputs, t);
    assert FinalThread(report, unwind, symbols, inputs, t).frames == Zipped(s, |s.raw|);
  }
}
