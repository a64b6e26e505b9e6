/** What the stack walker reads from local files cannot change a run: not its requests, its course, or its result. */
module RunIndependence {
  import opened Basics
  import opened Text
  import opened Evidence
  import opened Layout
  import opened Planner
  import opened Assembler
  import opened Independence
  import opened Composition
  import opened FrozenRun
  import opened Pipeline
  import opened Collector
  import PublicPe

  // ----- the same plan -----

  function WithWalk(p: PlanInputs, unwind: UnwindReport): PlanInputs {
    p.(unwind := unwind)
  }

  lemma {:induction false} MembersSame(p: PlanInputs, b: UnwindReport, key: string, n: nat)
    requires n <= |p.selections|
    ensures Members(WithWalk(p, b), key, n) == Members(p, key, n)
  {
    if n > 0 {
      MembersSame(p, b, key, n - 1);
    }
  }

  lemma {:induction false} BlockedSame(p: PlanInputs, b: UnwindReport, n: nat)
    requires n <= |p.selections|
    ensures Planner.Blocked(WithWalk(p, b), n) == Planner.Blocked(p, n)
  {
    if n > 0 {
      BlockedSame(p, b, n - 1);
    }
  }

  lemma KeySame(p: PlanInputs, b: UnwindReport, i: nat)
    requires i < |p.selections|
    ensures KeyOf(WithWalk(p, b), i) == KeyOf(p, i)
  {
  }

  lemma ModuleSame(p: PlanInputs, b: UnwindReport, i: nat)
    requires i < |p.selections| == |p.report.modules|
    ensures ModuleOk(WithWalk(p, b), i) <==> ModuleOk(p, i)
  {
    hide KeyOf, ValidSelection, ModuleExtent, SafeUrl, SameContent;
    KeySame(p, b, i);
    if KeyOf(p, i).Some? {
      MembersSame(p, b, KeyOf(p, i).value, i);
    }
  }

  lemma PlannableSame(p: PlanInputs, b: UnwindReport)
    requires SameWalk(p.unwind, b)
    ensures Plannable(WithWalk(p, b)) <==> Plannable(p)
  {
    hide ModuleOk, PublicSourcesOk, AddressesOk, Extents;
    if |p.selections| == |p.report.modules| {
      forall i | 0 <= i < |p.selections|
        ensures ModuleOk(WithWalk(p, b), i) <==> ModuleOk(p, i)
      {
        ModuleSame(p, b, i);
      }
    }
    assert forall t | 0 <= t < |b.threads| :: SameWalkThread(p.unwind.threads[t], b.threads[t]);
  }

  lemma GroupSame(p: PlanInputs, b: UnwindReport, key: string, n: nat, refs: seq<FrameRef>)
    requires n <= |p.selections| == |p.report.modules|
    ensures GroupOf(WithWalk(p, b), key, n, refs) == GroupOf(p, key, n, refs)
  {
    MembersSame(p, b, key, n);
  }

  lemma {:induction false} RefsSame(p: PlanInputs, b: UnwindReport, key: string, t: nat, f: nat)
    requires |p.selections| == |p.report.modules| && SameWalk(p.unwind, b) && Position(p, t, f)
    ensures Position(WithWalk(p, b), t, f) && Refs(WithWalk(p, b), key, t, f) == Refs(p, key, t, f)
    decreases t, f
  {
    hide KeyOf, FirstMatch, Extents;
    if f > 0 {
      assert SameWalkThread(p.unwind.threads[t], b.threads[t]);
      assert SameWalkFrame(p.unwind.threads[t].frames[f - 1], b.threads[t].frames[f - 1]);
      RefsSame(p, b, key, t, f - 1);
      OneRefSame(p, b, key, t, f - 1);
    } else if t > 0 {
      assert SameWalkThread(p.unwind.threads[t - 1], b.threads[t - 1]);
      RefsSame(p, b, key, t - 1, |p.unwind.threads[t - 1].frames|);
    }
  }

  lemma OneRefSame(p: PlanInputs, b: UnwindReport, key: string, t: nat, f: nat)
    requires |p.selections| == |p.report.modules| && t < |p.unwind.threads| && f < |p.unwind.threads[t].frames|
    requires t < |b.threads| && f < |b.threads[t].frames|
    requires SameWalkFrame(p.unwind.threads[t].frames[f], b.threads[t].frames[f])
    ensures OneRef(WithWalk(p, b), key, t, f) == OneRef(p, key, t, f)
  {
    hide FirstMatch, Extents;
    var m := ModuleAt(p, FrameAt(p, t, f).instruction);
    if m.Some? {
      KeySame(p, b, m.value);
    }
  }

  lemma AllRefsSame(p: PlanInputs, b: UnwindReport, key: string)
    requires |p.selections| == |p.report.modules| && SameWalk(p.unwind, b)
    ensures AllRefs(WithWalk(p, b), key) == AllRefs(p, key)
  {
    hide Refs;
    RefsSame(p, b, key, |p.unwind.threads|, 0);
  }

  lemma KeysSame(p: PlanInputs, b: UnwindReport, key: string, n: nat)
    requires n <= |p.selections|
    ensures IsKey(WithWalk(p, b), key, n) <==> IsKey(p, key, n)
  {
    hide KeyOf;
    forall i: nat | i < n
      ensures KeyOf(WithWalk(p, b), i) == KeyOf(p, i)
    {
      KeySame(p, b, i);
    }
  }

  /** The same plan, and with it the same requests: a request holds no raw symbol. */
  lemma PlanSame(p: PlanInputs, b: UnwindReport, plan: Plan)
    requires SameWalk(p.unwind, b)
    ensures IsPlan(WithWalk(p, b), plan) <==> IsPlan(p, plan)
  {
    hide Plannable, SortedUnique, KeyOf, AllRefs, GroupOf, IsKey, Planner.Blocked;
    var q := WithWalk(p, b);
    PlannableSame(p, b);
    if Plannable(p) {
      PlannableCovers(p);
      PlannableCovers(q);
      var n := |p.selections|;
      BlockedSame(p, b, n);
      forall key
        ensures IsKey(q, key, n) <==> IsKey(p, key, n)
        ensures AllRefs(q, key) == AllRefs(p, key)
        ensures GroupOf(q, key, n, AllRefs(q, key)) == GroupOf(p, key, n, AllRefs(p, key))
      {
        KeysSame(p, b, key, n);
        AllRefsSame(p, b, key);
        GroupSame(p, b, key, n, AllRefs(p, key));
      }
    }
  }

  lemma PlannableCovers(p: PlanInputs)
    requires Plannable(p)
    ensures |p.selections| == |p.report.modules|
  {
  }

  // ----- the same course -----

  lemma VerifiedSame(v: VerifiedRun, b: UnwindReport)
    ensures Verified(WithStacks(v, b)) <==> Verified(v)
  {
    hide ValidSelection, IsRole, SortedUnique, Printed;
    if |v.inputs.selections| == |v.roles| == |v.inputs.report.modules| {
      forall i | 0 <= i < |v.roles|
        ensures SelectionOk(WithStacks(v, b).inputs, i) <==> SelectionOk(v.inputs, i)
      {
      }
    }
  }

  lemma ResultsSame(
    v: VerifiedRun, b: UnwindReport, plan: Plan, exchanges: seq<Exchange>, results: seq<Collected>, n: nat)
    requires Verified(v) && SameWalk(v.inputs.unwind, b) && IsPlan(v.inputs, plan)
    ensures Verified(WithStacks(v, b)) && IsPlan(WithStacks(v, b).inputs, plan)
    ensures Results(WithStacks(v, b), plan, exchanges, results, n) <==> Results(v, plan, exchanges, results, n)
  {
    hide Verified, IsPlan, PartitionResult, ValidRef;
    VerifiedSame(v, b);
    PlanSame(v.inputs, b, plan);
    assert WithStacks(v, b).inputs == WithWalk(v.inputs, b);
    if n == |results| <= |plan.partitions| && n <= |exchanges| {
      forall i | 0 <= i < n
        ensures ResultAt(WithStacks(v, b), plan, exchanges[i], results[i], i) <==>
                ResultAt(v, plan, exchanges[i], results[i], i)
      {
      }
    }
  }

  /** The record of a run is the record of the run with the other stacks. */
  lemma CourseSame(v: VerifiedRun, b: UnwindReport, legs: nat -> Leg, g: Progress)
    requires Verified(v) && SameWalk(v.inputs.unwind, b)
    ensures Verified(WithStacks(v, b))
    ensures Recounts(WithStacks(v, b), legs, g) <==> Recounts(v, legs, g)
  {
    hide Verified, IsPlan, Plannable, Results, Served, PartitionResult;
    VerifiedSame(v, b);
    PlannableSame(v.inputs, b);
    assert WithStacks(v, b).inputs == WithWalk(v.inputs, b);
    match g.plan {
      case None =>
      case Some(plan) =>
        PlanSame(v.inputs, b, plan);
        if IsPlan(v.inputs, plan) {
          ResultsSame(v, b, plan, g.exchanges, g.results, |g.results|);
        }
    }
  }

  // ----- the same end -----

  lemma FramesFitSame(a: UnwindReport, b: UnwindReport, symbols: seq<FrameSymbol>)
    requires SameWalk(a, b)
    ensures FramesFit(a, symbols) <==> FramesFit(b, symbols)
    ensures DistinctThreads(a) <==> DistinctThreads(b)
    ensures FramesOk(a) <==> FramesOk(b)
  {
    hide RecordCount, FrameOk;
    assert forall t | 0 <= t < |a.threads| :: SameWalkThread(a.threads[t], b.threads[t]);
    hide FramesOk;
    SameWalkSymmetric(a, b);
    if FramesOk(a) {
      FramesOkUnaffected(a, b);
    }
    if FramesOk(b) {
      FramesOkUnaffected(b, a);
    }
  }

  /** A run with these stacks ends as the run with the other stacks does. */
  lemma ConclusionSame(
    v: VerifiedRun, a: UnwindReport, b: UnwindReport, publicOutcomes: map<nat, seq<SourceOutcome>>, legs: nat -> Leg,
    r: Result<CanonicalResult>, g: Progress)
    requires SameWalk(a, b) && Concludes(v, a, publicOutcomes, legs, r, g)
    ensures Concludes(v, b, publicOutcomes, legs, r, g)
  {
    hide Verified, Recounts, Assembled, FramesOk, FramesFit, DistinctThreads, AllFrames, AllModules;
    var w := WithStacks(v, a);
    assert WithStacks(w, b) == WithStacks(v, b);
    CourseSame(w, b, legs, g);
    RolesCover(w);
    var symbols := AllFrames(g.results, |g.results|);
    FramesFitSame(a, b, symbols);
    var inputs := InputsOf(w, AllModules(g.results, |g.results|), publicOutcomes);
    SameInputs(v, a, b, AllModules(g.results, |g.results|), publicOutcomes);
    if FramesOk(a) {
      AssembledSame(v.inputs.report, a, b, symbols, inputs);
    }
  }

  lemma SameInputs(
    v: VerifiedRun, a: UnwindReport, b: UnwindReport, modules: seq<ModuleOutcomes>,
    publicOutcomes: map<nat, seq<SourceOutcome>>)
    requires |v.inputs.selections| == |v.roles|
    ensures InputsOf(WithStacks(v, a), modules, publicOutcomes) == InputsOf(WithStacks(v, b), modules, publicOutcomes)
  {
    hide OutcomesOf;
    var x, y := InputsOf(WithStacks(v, a), modules, publicOutcomes), InputsOf(WithStacks(v, b), modules, publicOutcomes);
    assert forall i | 0 <= i < |v.roles| :: x.modules[i] == y.modules[i];
    assert x.modules == y.modules;
  }

  // ----- the whole way -----

  /** Two walkers that find the same frames in the same way, whatever they name them. */
  ghost predicate SameWalks(o: PublicPe.Outside, o': PublicPe.Outside) {
    && o' == o.(walk := o'.walk)
    && forall paths :: match (o.walk(paths), o'.walk(paths))
                       case (Some(a), Some(b)) => SameWalk(a, b)
                       case (None, None) => true
                       case _ => false
  }

  lemma TouchedSame(a: UnwindReport, b: UnwindReport, e: Extent)
    requires SameWalk(a, b) && PublicPe.TouchedBy(a, e)
    ensures PublicPe.TouchedBy(b, e)
  {
    var t, f :| 0 <= t < |a.threads| && 0 <= f < |a.threads[t].frames| && Inside(e, a.threads[t].frames[f].instruction);
    assert SameWalkThread(a.threads[t], b.threads[t]);
    assert SameWalkFrame(a.threads[t].frames[f], b.threads[t].frames[f]);
    assert Inside(e, b.threads[t].frames[f].instruction);
  }

  lemma {:induction false} FirstWantedSame(
    q: PublicPe.PeRequest, paths: map<nat, PublicPe.Image>, tried: set<nat>, a: UnwindReport, b: UnwindReport, i: nat)
    requires i <= |q.report.modules| == |q.selections| && SameWalk(a, b)
    ensures PublicPe.FirstWanted(q, paths, tried, a, i) == PublicPe.FirstWanted(q, paths, tried, b, i)
    decreases |q.selections| - i
  {
    hide PublicPe.Fetchable, HexExtent, PublicPe.TouchedBy;
    if i < |q.selections| {
      SameWalkSymmetric(a, b);
      FirstWantedSame(q, paths, tried, a, b, i + 1);
      if HexExtent(q.report.modules[i]).Some? {
        var e := HexExtent(q.report.modules[i]).value;
        if PublicPe.TouchedBy(a, e) {
          TouchedSame(a, b, e);
        }
        if PublicPe.TouchedBy(b, e) {
          TouchedSame(b, a, e);
        }
      }
    }
  }

  lemma WantedSame(
    q: PublicPe.PeRequest, o: PublicPe.Outside, o': PublicPe.Outside, given: map<nat, PublicPe.Image>,
    log: seq<PublicPe.Try>, n: nat)
    requires |q.report.modules| == |q.selections| && n <= |log| && SameWalks(o, o')
    ensures PublicPe.WantedAfter(q, o, given, log, n) == PublicPe.WantedAfter(q, o', given, log, n)
    ensures PublicPe.BudgetLeft(q, o, log, n) <==> PublicPe.BudgetLeft(q, o', log, n)
  {
    hide PublicPe.FirstWanted, PublicPe.PathsAfter, PublicPe.TriedAfter, PublicPe.ReadAfter, SameWalk;
    var paths := PublicPe.PathsAfter(given, log, n);
    if o.walk(paths).Some? {
      assert SameWalk(o.walk(paths).value, o'.walk(paths).value);
      FirstWantedSame(q, paths, PublicPe.TriedAfter(log, n), o.walk(paths).value, o'.walk(paths).value, 0);
    }
  }

  lemma TrySame(
    q: PublicPe.PeRequest, o: PublicPe.Outside, o': PublicPe.Outside, given: map<nat, PublicPe.Image>,
    log: seq<PublicPe.Try>, n: nat)
    requires |q.report.modules| == |q.selections| && n < |log| && SameWalks(o, o')
    ensures PublicPe.TryMade(q, o, given, log, n) <==> PublicPe.TryMade(q, o', given, log, n)
  {
    hide PublicPe.WantedAfter, PublicPe.BudgetLeft, PublicPe.Fetchable, PublicPe.ProxyUrl;
    WantedSame(q, o, o', given, log, n);
  }

  lemma HistorySame(
    q: PublicPe.PeRequest, o: PublicPe.Outside, o': PublicPe.Outside, given: map<nat, PublicPe.Image>,
    log: seq<PublicPe.Try>)
    requires |q.report.modules| == |q.selections| && SameWalks(o, o')
    ensures PublicPe.History(q, o, given, log) <==> PublicPe.History(q, o', given, log)
    ensures PublicPe.Exhausted(q, o, given, log) <==> PublicPe.Exhausted(q, o', given, log)
  {
    hide PublicPe.TryMade, PublicPe.WantedAfter, PublicPe.BudgetLeft, PublicPe.MicrosoftEnabled, SameWalks;
    forall n | 0 <= n < |log|
      ensures PublicPe.TryMade(q, o, given, log, n) <==> PublicPe.TryMade(q, o', given, log, n)
    {
      TrySame(q, o, o', given, log, n);
    }
    WantedSame(q, o, o', given, log, |log|);
  }

  /**
   Whole-run non-interference: when two walkers find the same frames, with the same trust and method, whatever
   they read from local files, the same images are fetched, the same requests are posted, and the run ends
   with the same result.
   */
  lemma WholeRunIndependent(
    v: VerifiedRun, engine: string, deadline: nat, o: PublicPe.Outside, o': PublicPe.Outside,
    given: map<nat, PublicPe.Image>, legs: nat -> Leg, r: Result<CanonicalResult>, log: seq<PublicPe.Try>, g: Progress)
    requires SameWalks(o, o') && Finishes(v, engine, deadline, o, given, legs, r, log, g)
    ensures Finishes(v, engine, deadline, o', given, legs, r, log, g)
  {
    hide Concludes, PublicPe.History, PublicPe.Exhausted, PublicPe.PathsAfter, PublicPe.OutcomesAfter, SameWalk;
    var q := PeRequestOf(v, engine, deadline);
    HistorySame(q, o, o', given, log);
    var paths := PublicPe.PathsAfter(given, log, |log|);
    if o.walk(paths).Some? {
      assert SameWalk(o.walk(paths).value, o'.walk(paths).value);
      ConclusionSame(v, o.walk(paths).value, o'.walk(paths).value, PublicPe.OutcomesAfter(log, |log|), legs, r, g);
    }
  }
}
