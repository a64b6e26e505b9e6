/** Each of the three ways in which a fully collected run can still be refused does occur, alone. */
module Refusals {
  import opened Basics
  import opened Evidence
  import opened Planner
  import opened Assembler
  import opened Composition

  /** A run over a dump without modules: no frame lies in a module, so there is nothing to ask for. */
  function BareRun(threads: seq<UnwindThread>): VerifiedRun {
    var captured := seq(|threads|, i requires 0 <= i < |threads| => InspectThread(threads[i].id, "0x0", "0x0", 0, None));
    var report := InspectReport(
      "0.1", InspectDump("user_minidump", 200, "MDMP", 2, "0x0", None),
      InspectProcess(None, "x86_64", "windows", None, None, None, None), None, None, captured, [], []);
    VerifiedRun(PlanInputs(report, UnwindReport(threads), [], "", [], _ => None), [], "workspace", ZERO_DIGEST)
  }

  /** Everything is planned, asked and collected: the plan is met by no exchange and no result. */
  ghost predicate FullyCollected(v: VerifiedRun) {
    var plan := Plan([], []);
    Verified(v) && IsPlan(v.inputs, plan) && Results(v, plan, [], [], 0)
  }

  lemma BareRunCollected(threads: seq<UnwindThread>)
    ensures FullyCollected(BareRun(threads))
  {
    var p := BareRun(threads).inputs;
    assert Plannable(p);
    assert IsPlan(p, Plan([], []));
  }

  /** The assembly of a bare run, which no packet reaches. */
  ghost predicate BareAssemblable(v: VerifiedRun) {
    && |v.roles| == |v.inputs.selections| == |v.inputs.report.modules|
    && Assemblable(v.inputs.report, v.inputs.unwind, [], InputsOf(v, [], map[]))
  }

  lemma BareRunDecided(threads: seq<UnwindThread>)
    ensures var v := BareRun(threads);
            BareAssemblable(v) <==>
              DistinctThreads(v.inputs.unwind) && FramesOk(v.inputs.unwind) && FramesFit(v.inputs.unwind, [])
  {
    hide DistinctThreads, FramesOk, FramesFit, Assemblable;
    var v := BareRun(threads);
    BareRunCollected(threads);
    Compose(v, Plan([], []), [], [], map[]);
  }

  function ContextFrame(): UnwindFrame {
    UnwindFrame(4096, 4096, None, None, None, None, "context", Some("context"), false)
  }

  /** A dump may list a thread twice. */
  lemma RepeatedThreadRefused()
    ensures var v := BareRun([UnwindThread(1, []), UnwindThread(1, [])]);
            && FullyCollected(v) && !BareAssemblable(v)
            && !DistinctThreads(v.inputs.unwind) && FramesOk(v.inputs.unwind) && FramesFit(v.inputs.unwind, [])
  {
    var threads := [UnwindThread(1, []), UnwindThread(1, [])];
    BareRunCollected(threads);
    BareRunDecided(threads);
    assert BareRun(threads).inputs.unwind.threads[0].id == BareRun(threads).inputs.unwind.threads[1].id;
  }

  /** A stack may say nothing about how a frame was found. */
  lemma UnexplainedFrameRefused()
    ensures var v := BareRun([UnwindThread(1, [ContextFrame().(unwindMethod := None)])]);
            && FullyCollected(v) && !BareAssemblable(v)
            && DistinctThreads(v.inputs.unwind) && !FramesOk(v.inputs.unwind) && FramesFit(v.inputs.unwind, [])
  {
    var threads := [UnwindThread(1, [ContextFrame().(unwindMethod := None)])];
    BareRunCollected(threads);
    BareRunDecided(threads);
    assert !FrameOk(BareRun(threads).inputs.unwind.threads[0].frames[0]);
    BareCount(0, 1);
  }

  /** A stack may be longer than its frame numbers are wide. */
  lemma LongStackRefused()
    ensures var v := BareRun([UnwindThread(1, Repeat(ContextFrame(), U32_BOUND + 1))]);
            && FullyCollected(v) && !BareAssemblable(v)
            && DistinctThreads(v.inputs.unwind) && FramesOk(v.inputs.unwind) && !FramesFit(v.inputs.unwind, [])
  {
    var threads := [UnwindThread(1, Repeat(ContextFrame(), U32_BOUND + 1))];
    BareRunCollected(threads);
    BareRunDecided(threads);
    BareCount(0, U32_BOUND + 1);
    assert FrameOk(ContextFrame());
  }

  /** Without packets a thread has as many records as frames. */
  lemma {:induction false} BareCount(t: nat, n: nat)
    ensures RecordCount([], t, n) == n
  {
    if n > 0 {
      BareCount(t, n - 1);
    }
  }
}
