/** Two crashes with different stacks and one exact fingerprint, and what the fingerprint of a plain crash spells. */
module Collision {
  import opened Basics
  import opened Text
  import opened Evidence
  import opened Layout
  import opened Frames
  import opened PayloadLaws
  import opened Assembler
  import opened ResultLaws

  // ----- a crash in the application's only module -----

  const BASE: u64 := 4096
  const SIZE: u32 := 4096
  const DEBUG_ID: string := Zeros(33)
  const CODE_ID := "123456781000"
  const PAIR: string := Zeros(64)
  const SAVED: ObjectRef := ObjectRef("symbolicate/evidence.json", Zeros(64))
  const SOURCE := "pair"

  function Image(): InspectModule {
    InspectModule("app.exe", CODE_ID, Some("app.pdb"), Some(DEBUG_ID), FormatHex(BASE), SIZE, "0x12345678", "0x00000000")
  }

  function CrashReport(): InspectReport {
    InspectReport(
      "0.1", InspectDump("user_minidump", 4096, "MDMP", 4, "0x0", None),
      InspectProcess(None, "x86_64", "windows", None, None, None, None),
      Some(InspectException(7, "0xC000001D", None, "0x00000000", FormatHex(BASE), None, None, [], None)), Some(7),
      [InspectThread(7, "0x0", "0x0", 0, None)], [Image()], [])
  }

  function Inputs(): FrozenInputs {
    var identity := ModuleIdentity(Some(CODE_ID), Some(DEBUG_ID), "x86_64");
    var selection := FrozenSelection(0, identity, UniqueState, true, [PAIR], [], Some(PAIR), "unique", SAVED, []);
    var resolved := SourceOutcome(SOURCE, Symbolicate, Found, NoFailure, "symbolicated", Some(SAVED));
    FrozenInputs("workspace", ZERO_DIGEST, [FrozenModule(selection, "owned", true, [], [resolved])], [])
  }

  function Walked(pc: u64): UnwindFrame {
    UnwindFrame(pc, pc, None, None, None, None, "context", Some("context"), false)
  }

  function Stacks(pcs: seq<u64>): UnwindReport {
    UnwindReport([UnwindThread(7, seq(|pcs|, i requires 0 <= i < |pcs| => Walked(pcs[i])))])
  }

  function Named(name: string): Symbol {
    Symbol(Some(name), None, None, [])
  }

  function Packets(pcs: seq<u64>, names: seq<string>): seq<FrameSymbol>
    requires |pcs| == |names|
  {
    seq(|pcs|, i requires 0 <= i < |pcs| => FrameSymbol(0, i, 0, pcs[i], Some(PAIR), SOURCE, Named(names[i])))
  }

  function Tokens(pcs: seq<u64>, names: seq<string>): seq<Token>
    requires |pcs| == |names| && InImage(pcs)
  {
    seq(|pcs|, i requires 0 <= i < |pcs| => Token(DEBUG_ID, names[i], (pcs[i] - BASE) / 16 * 16))
  }

  predicate InImage(pcs: seq<u64>) {
    forall i | 0 <= i < |pcs| :: BASE <= pcs[i] < BASE + SIZE
  }

  /** At most five instructions of the module, pairwise different, with names that normalization keeps. */
  ghost predicate PlainStack(pcs: seq<u64>, names: seq<string>) {
    && |pcs| == |names| && 0 < |pcs| <= MAX_SELECTED && InImage(pcs) && Distinct(pcs)
    && forall i | 0 <= i < |names| :: NormalizeFunction(names[i]) == names[i]
  }

  // ----- the frozen inputs are acceptable -----

  lemma ImageCaptured()
    ensures Captured(Image(), "x86_64") == Some(Inputs().modules[0].selection.identity)
  {
    hide FormatHex;
    assert AllLowerHex(DEBUG_ID) && AllLowerHex(CODE_ID);
    DashesGone(DEBUG_ID);
    LowerHexFixed(DEBUG_ID);
    LowerHexFixed(CODE_ID);
    assert DEBUG_ID[32..] == "0" == Numeral(0, Hexadecimal);
    NumeralRoundTrip(0, Hexadecimal);
    assert ParseUnsigned(DEBUG_ID[32..], Hexadecimal, U32_BOUND) == Some(0);
    assert DEBUG_ID == DEBUG_ID[..32] + DEBUG_ID[32..];
  }

  lemma InputsAcceptable()
    ensures InputsOk(CrashReport(), Inputs())
  {
    hide Captured, FormatHex;
    ImageCaptured();
    var frozen := Inputs().modules[0];
    assert IsHash(PAIR);
    assert ValidOutcome(frozen.sourceOutcomes[0]);
    assert frozen.selection.candidatePairIds[0] == PAIR;
    assert FrozenModuleOk(CrashReport(), 0, frozen);
  }

  lemma ImageExtent(pc: u64)
    ensures HexExtents(CrashReport().modules) == [Extent(BASE, SIZE)]
    ensures HexAddressesOk(CrashReport().modules) && HexExtentOf(Image()) == Extent(BASE, SIZE)
    ensures BASE <= pc < BASE + SIZE ==> ModuleOfPc(CrashReport(), pc) == Some(0)
  {
    hide FormatHex, HexText;
    PrintedAddress(BASE);
    assert HexExtents(CrashReport().modules)[0] == Extent(BASE, SIZE);
  }

  lemma {:induction false} TableIs(pcs: seq<u64>, names: seq<string>, n: nat)
    requires |pcs| == |names| && n <= |pcs|
    ensures forall f | 0 <= f < n :: SymbolAt(PacketTable(Packets(pcs, names), n), 0, f) == Some(Named(names[f]))
  {
    if n > 0 {
      TableIs(pcs, names, n - 1);
    }
  }

  lemma {:induction false} NothingInlined(pcs: seq<u64>, names: seq<string>, t: nat, n: nat)
    requires |pcs| == |names|
    ensures RecordCount(Packets(pcs, names), t, n) == n
  {
    if n > 0 {
      NothingInlined(pcs, names, t, n - 1);
      NoneInlined(pcs, names, |pcs|, t, n - 1);
    }
  }

  lemma {:induction false} NoneInlined(pcs: seq<u64>, names: seq<string>, n: nat, t: nat, f: nat)
    requires |pcs| == |names| && n <= |pcs|
    ensures InlineCount(Packets(pcs, names), n, t, f) == 0
  {
    if n > 0 {
      NoneInlined(pcs, names, n - 1, t, f);
    }
  }

  lemma PacketAcceptable(pcs: seq<u64>, names: seq<string>, i: nat)
    requires |pcs| == |names| && InImage(pcs) && i < |pcs|
    ensures PacketOk(CrashReport(), Stacks(pcs), Inputs(), Packets(pcs, names)[i])
  {
    hide ModuleOfPc, FormatHex;
    ImageExtent(pcs[i]);
    var frozen := Inputs().modules[0];
    assert frozen.sourceOutcomes[0].sourceId == SOURCE;
    assert Correlated(frozen, SOURCE);
  }

  lemma CrashAssemblable(pcs: seq<u64>, names: seq<string>)
    requires PlainStack(pcs, names)
    ensures Assemblable(CrashReport(), Stacks(pcs), Packets(pcs, names), Inputs())
  {
    hide FormatHex, NormalizeFunction, PacketOk, HexExtents, HexAddressesOk;
    var packets := Packets(pcs, names);
    ImageExtent(BASE);
    forall i | 0 <= i < |packets|
      ensures PacketOk(CrashReport(), Stacks(pcs), Inputs(), packets[i])
    {
      PacketAcceptable(pcs, names, i);
    }
    NothingInlined(pcs, names, 0, |pcs|);
    assert FramesOk(Stacks(pcs)) by {
      forall f | 0 <= f < |pcs|
        ensures FrameOk(Walked(pcs[f]))
      {
      }
    }
  }

  // ----- what its fingerprint spells -----

  lemma PrintedHex(n: u64)
    ensures ParseHex(FormatHex(n)) == Some(n)
  {
    var s, digits := FormatHex(n), Numeral(n, Hexadecimal);
    NumeralRoundTrip(n, Hexadecimal);
    assert !IsWhite(s[0]) && IsLowerHex(s[|s| - 1]) && !IsWhite(s[|s| - 1]);
    assert Trim(s) == s;
    assert s[2..] == digits;
    HexDigitsAreNoPrefix(digits);
    assert TrimStartMatches(s, "0x") == digits;
    assert |digits| > 1 ==> digits[1] != 'X';
    assert TrimStartMatches(digits, "0X") == digits;
    assert digits[0] != '+';
  }

  lemma PrintedBack(n: u64)
    ensures "0x" <= FormatHex(n) && ParseUnsigned(FormatHex(n)[2..], Hexadecimal, U64_BOUND) == Some(n)
  {
    PrintedAddress(n);
  }

  lemma {:induction false} PlainBasename(s: string)
    requires forall i | 0 <= i < |s| :: s[i] != '/' && s[i] != '\\'
    ensures Basename(s) == s
  {
    if s != "" {
      PlainBasename(s[..|s| - 1]);
      assert s == s[..|s| - 1] + [s[|s| - 1]];
    }
  }

  lemma NotDenied()
    ensures Lower(Basename("app.exe")) !in SYSTEM_LIBRARIES
  {
    PlainBasename("app.exe");
    assert |Lower("app.exe")| == 7;
    assert forall i | 0 <= i < |SYSTEM_LIBRARIES| :: |SYSTEM_LIBRARIES[i]| != 7;
  }

  /** What the `f`-th physical frame of the crash looks like to the fingerprint. */
  predicate Shows(frame: FrameInfo, pc: u64, name: string)
    requires BASE <= pc
  {
    && frame.instructionAddr == FormatHex(pc) && frame.moduleName == Some("app.exe") && frame.inApp
    && frame.trust == "context" && frame.moduleDebugId == Some(DEBUG_ID)
    && frame.relativeAddr == Some(FormatHex(pc - BASE)) && frame.functionNormalized == Some(name)
  }

  lemma CrashFrame(pcs: seq<u64>, names: seq<string>, f: nat)
    requires PlainStack(pcs, names) && f < |pcs|
    ensures FramesOk(Stacks(pcs))
    ensures var frames := Physical(PreparedThread(CrashReport(), Stacks(pcs), Packets(pcs, names), Inputs(), 0).frames);
            |frames| == |pcs| && Shows(frames[f], pcs[f], names[f])
  {
    hide FormatHex, NormalizeFunction, FramesOf, Physical, ModuleOfPc, HexExtents;
    var s := StackAt(CrashReport(), Stacks(pcs), Packets(pcs, names), Inputs(), 0);
    PhysicalFrames(s, |s.raw|);
    TableIs(pcs, names, |pcs|);
    ImageExtent(pcs[f]);
    assert OuterAt(s, f) == FrameOf(s.report, s.infos, Walked(pcs[f]), |FramesOf(s, f)|, Some(Named(names[f])), false);
  }

  lemma TokenShown(frame: FrameInfo, pc: u64, name: string)
    requires BASE <= pc && Shows(frame, pc, name)
    ensures TokenOf(frame) == Some(Token(DEBUG_ID, name, (pc - BASE) / 16 * 16))
  {
    hide FormatHex;
    PrintedBack(pc - BASE);
  }

  ghost predicate AllShow(frames: seq<FrameInfo>, pcs: seq<u64>, names: seq<string>) {
    && |frames| == |pcs| == |names| && InImage(pcs)
    && forall f | 0 <= f < |frames| :: Shows(frames[f], pcs[f], names[f])
  }

  lemma {:induction false} TokensShown(frames: seq<FrameInfo>, pcs: seq<u64>, names: seq<string>)
    requires AllShow(frames, pcs, names)
    ensures TokensOf(frames) == Some(Tokens(pcs, names))
  {
    hide Shows, TokenOf;
    if frames == [] {
      assert Tokens(pcs, names) == [];
    } else {
      var last := |frames| - 1;
      TokensShown(frames[..last], pcs[..last], names[..last]);
      TokenShown(frames[last], pcs[last], names[last]);
      assert Tokens(pcs, names) ==
             Tokens(pcs[..last], names[..last]) + [Token(DEBUG_ID, names[last], (pcs[last] - BASE) / 16 * 16)];
    }
  }

  lemma {:induction false} AllFresh(frames: seq<FrameInfo>, pcs: seq<u64>, names: seq<string>, n: nat)
    requires AllShow(frames, pcs, names) && Distinct(pcs) && n <= |frames|
    ensures FreshIndexes(frames, n) == seq(n, i => i)
  {
    hide FormatHex, Denied;
    if n > 0 {
      AllFresh(frames, pcs, names, n - 1);
      forall f | 0 <= f < n
        ensures Eligible(frames, f)
        ensures f < n - 1 ==> frames[f].instructionAddr != frames[n - 1].instructionAddr
      {
        assert Shows(frames[f], pcs[f], names[f]) && Shows(frames[n - 1], pcs[n - 1], names[n - 1]);
        PlainFrame(frames[f]);
        PrintedBack(pcs[f]);
        PrintedBack(pcs[n - 1]);
      }
    }
  }

  lemma PlainFrame(frame: FrameInfo)
    requires frame.moduleName == Some("app.exe")
    ensures !Denied(frame)
  {
    NotDenied();
  }

  lemma AllSelected(frames: seq<FrameInfo>, pcs: seq<u64>, names: seq<string>)
    requires AllShow(frames, pcs, names) && Distinct(pcs) && |frames| <= MAX_SELECTED
    ensures Selected(frames) == frames
  {
    hide Shows;
    AllFresh(frames, pcs, names, |frames|);
  }

  /** The exact fingerprint of a plain crash spells every frame of its stack. */
  lemma PlainFingerprint(pcs: seq<u64>, names: seq<string>)
    requires PlainStack(pcs, names)
    ensures Assemblable(CrashReport(), Stacks(pcs), Packets(pcs, names), Inputs())
    ensures Assembled(CrashReport(), Stacks(pcs), Packets(pcs, names), Inputs()).exactPayload ==
            Some(Spelled(Reading("workspace", "0xC000001D", "-", DEBUG_ID, Tokens(pcs, names))))
  {
    hide FormatHex, NormalizeFunction, FramesOf, Physical, ParseHex, Selected, TokensOf, Shows, PacketTable, Assemblable,
         QualityOf, AllWarnings, FinalThreads, Payload;
    CrashAssemblable(pcs, names);
    CrashFrame(pcs, names, 0);
    var report, unwind, packets := CrashReport(), Stacks(pcs), Packets(pcs, names);
    var threads, infos := PreparedThreads(report, unwind, packets, Inputs()), Infos(report, Inputs());
    var frames := Physical(threads[0].frames);
    forall f | 0 <= f < |pcs|
      ensures Shows(frames[f], pcs[f], names[f])
    {
      CrashFrame(pcs, names, f);
    }
    AllSelected(frames, pcs, names);
    TokensShown(frames, pcs, names);
    PrintedHex(BASE);
    assert infos[0] == InfoOf(Inputs().modules[0], Image());
    assert ModuleAtAddress(infos, BASE) == Some(infos[0]);
    var p := (t: ThreadInfo) => t.id == 7;
    assert FindThread(threads, p) == Some(threads[0]);
    assert frames[0].trust == "context" by { ShownTrust(frames[0], pcs[0], names[0]); }
    assert |"scan"| != |"context"|;
  }

  lemma ShownTrust(frame: FrameInfo, pc: u64, name: string)
    requires BASE <= pc && Shows(frame, pc, name)
    ensures frame.trust == "context"
  {
  }

  // ----- the collision -----

  const BROKEN_NAME: string := "f\n0x0\n" + DEBUG_ID + "\nf"

  lemma {:induction false} NothingToCut(s: string, mark: string)
    requires mark != "" && mark[0] !in s
    ensures CutBefore(s, mark) == s
  {
    if s != "" {
      NothingToCut(s[1..], mark);
      assert s == [s[0]] + s[1..];
    }
  }

  lemma NamesKept()
    ensures NormalizeFunction(BROKEN_NAME) == BROKEN_NAME && NormalizeFunction("f") == "f"
  {
    assert BROKEN_NAME[0] == 'f' && BROKEN_NAME[|BROKEN_NAME| - 1] == 'f';
    assert Trim(BROKEN_NAME) == BROKEN_NAME && Trim("f") == "f";
    NothingToCut(BROKEN_NAME, "(");
    NothingToCut(BROKEN_NAME, "::<lambda_");
    NothingToCut("f", "(");
    NothingToCut("f", "::<lambda_");
  }

  /**
   Two crashes of the same module at the same address share an exact fingerprint although one stack has a
   single frame and the other has two: the reply named the single frame with line breaks, which normalization
   keeps. Everything else about both runs is acceptable: captured ids, a unique selection, correlated packets.
   */
  lemma DifferentStacksCollide()
    ensures InputsOk(CrashReport(), Inputs())
    ensures Assemblable(CrashReport(), Stacks([BASE]), Packets([BASE], [BROKEN_NAME]), Inputs())
    ensures Assemblable(CrashReport(), Stacks([BASE, BASE + 1]), Packets([BASE, BASE + 1], ["f", "f"]), Inputs())
    ensures var one := Assembled(CrashReport(), Stacks([BASE]), Packets([BASE], [BROKEN_NAME]), Inputs()).exactPayload;
            var two := Assembled(CrashReport(), Stacks([BASE, BASE + 1]), Packets([BASE, BASE + 1], ["f", "f"]), Inputs())
                         .exactPayload;
            one.Some? && one == two
  {
    hide Assemblable, Assembled, InputsOk, Spelled;
    InputsAcceptable();
    NamesKept();
    PlainFingerprint([BASE], [BROKEN_NAME]);
    PlainFingerprint([BASE, BASE + 1], ["f", "f"]);
    SameSpelling();
  }

  lemma SameSpelling()
    ensures Spelled(Reading("workspace", "0xC000001D", "-", DEBUG_ID, Tokens([BASE], [BROKEN_NAME]))) ==
            Spelled(Reading("workspace", "0xC000001D", "-", DEBUG_ID, Tokens([BASE, BASE + 1], ["f", "f"])))
  {
    var f := Token(DEBUG_ID, "f", 0);
    var r := Reading("workspace", "0xC000001D", "-", DEBUG_ID, [f, f]);
    assert Tokens([BASE, BASE + 1], ["f", "f"]) == [f, f];
    assert FormatHex(0) == "0x0";
    assert BROKEN_NAME == "f" + "\n" + FormatHex(0) + "\n" + DEBUG_ID + "\n" + "f";
    assert Swallow(f, f) == Token(DEBUG_ID, BROKEN_NAME, 0);
    assert [Swallow(f, f)] + r.tokens[2..] == [Swallow(f, f)] == Tokens([BASE], [BROKEN_NAME]);
    ManyTokensReadAsFewer(r);
  }
}
