/** A whole run: plan, ask for every partition in turn, merge what came back, assemble. */
module FrozenRun {
  import opened Basics
  import opened Evidence
  import opened Planner
  import opened PlanLaws
  import opened Transport
  import opened Collector
  import opened CollectReply
  import opened Assembler
  import opened AssembleLoops
  import opened Composition

  /** The outside world while one partition is served: the time left, the exchanges, and where the evidence is saved. */
  datatype Leg = Leg(remaining: nat, world: World, diagnostic: ObjectRef)

  /** Whole seconds, rounded up, at most a minute. */
  function BudgetOf(remaining: nat): nat {
    Least((remaining + NANOS_PER_SECOND - 1) / NANOS_PER_SECOND, 60)
  }

  /** The transport evidence of some run of `Execute`. */
  ghost predicate Ran(request: Request, leg: Leg, e: TransportEvidence) {
    var deadline := DeadlineOf(BudgetOf(leg.remaining));
    exists sent: seq<Sent> ::
      && Follows(request, leg.world, deadline, sent) && Posts(sent) <= MAX_POSTS
      && Recorded(leg.world, sent, e.attempts) && Ends(leg.world, deadline, sent, e)
  }

  /** The exchange is what the leg makes of the partition's own request. */
  ghost predicate Served(part: Partition, leg: Leg, x: Exchange) {
    if leg.remaining == 0 then x == Skipped(leg.diagnostic)
    else x.Asked? && x.diagnostic == leg.diagnostic && Ran(part.request, leg, x.transport)
  }

  /** One turn of the partition loop; `x` is the record of what became of the request. */
  method ServePartition(part: Partition, parse: UrlParser, leg: Leg) returns (r: Result<Collected>, x: Exchange)
    requires |part.moduleIndexes| == |part.capturedModules|
    ensures Served(part, leg, x)
    ensures r == PartitionResult(part, parse, x)
  {
    hide Follows, Posts, Recorded, Ends, Collect, UnavailableResult;
    if leg.remaining == 0 {
      x := Skipped(leg.diagnostic);
      if part.pairId.Some? {
        return Failure, x;
      }
      var c := MakeUnavailable(part, "source_budget_exhausted_before_request", leg.diagnostic, false);
      return Success(c), x;
    }
    var transport, sent := Execute(part.request, BudgetOf(leg.remaining), leg.world);
    x := Asked(transport, leg.diagnostic);
    assert Ran(part.request, leg, transport);
    if transport.failure.Some? {
      if part.pairId.Some? || !Retryable(transport.failure.value) {
        return Failure, x;
      }
      var c := MakeUnavailable(part, transport.failure.value, leg.diagnostic, true);
      return Success(c), x;
    }
    if transport.response.None? {
      return Failure, x;
    }
    r := CollectResponse(part, parse, transport.response.value, leg.diagnostic);
  }

  // ----- the merge -----

  ghost predicate Merged(modules: seq<ModuleOutcomes>, outcomes: map<nat, seq<SourceOutcome>>) {
    forall m :: FromPartitions(modules, m) == (if m in outcomes then outcomes[m] else [])
  }

  lemma {:induction false} FromPartitionsSnoc(modules: seq<ModuleOutcomes>, last: ModuleOutcomes, m: nat)
    requires forall o | o in modules :: o.moduleIndex != last.moduleIndex
    ensures FromPartitions(modules + [last], m) ==
            if m == last.moduleIndex then last.outcomes else FromPartitions(modules, m)
  {
    if modules != [] {
      assert (modules + [last])[1..] == modules[1..] + [last];
      FromPartitionsSnoc(modules[1..], last, m);
    }
  }

  ghost predicate MergedSoFar(modules: seq<ModuleOutcomes>, outcomes: map<nat, seq<SourceOutcome>>) {
    && OncePerModule(modules) && Merged(modules, outcomes)
    && forall m :: m in outcomes <==> exists o :: o in modules && o.moduleIndex == m
  }

  lemma MergeStep(modules: seq<ModuleOutcomes>, outcomes: map<nat, seq<SourceOutcome>>, next: ModuleOutcomes)
    requires MergedSoFar(modules, outcomes) && next.moduleIndex !in outcomes
    ensures MergedSoFar(modules + [next], outcomes[next.moduleIndex := next.outcomes])
  {
    hide FromPartitions;
    var after := outcomes[next.moduleIndex := next.outcomes];
    assert forall o | o in modules :: o.moduleIndex in outcomes;
    forall m: nat
      ensures FromPartitions(modules + [next], m) == if m in after then after[m] else []
      ensures m in after <==> exists o :: o in modules + [next] && o.moduleIndex == m
    {
      FromPartitionsSnoc(modules, next, m);
      assert next in modules + [next];
      if m in outcomes {
        var o :| o in modules && o.moduleIndex == m;
        assert o in modules + [next];
      }
    }
    assert forall i | 0 <= i < |modules| :: modules[i] in modules;
  }

  lemma SeenTwice(modules: seq<ModuleOutcomes>, outcomes: map<nat, seq<SourceOutcome>>, i: nat)
    requires i < |modules| && MergedSoFar(modules[..i], outcomes) && modules[i].moduleIndex in outcomes
    ensures !OncePerModule(modules)
  {
    var o :| o in modules[..i] && o.moduleIndex == modules[i].moduleIndex;
    var j :| 0 <= j < i && modules[..i][j] == o;
    assert modules[j].moduleIndex == modules[i].moduleIndex;
  }

  /** The first loop of the merge: it fails exactly when a module comes from two partitions. */
  method MergePartitions(modules: seq<ModuleOutcomes>) returns (ok: bool, outcomes: map<nat, seq<SourceOutcome>>)
    ensures ok <==> OncePerModule(modules)
    ensures ok ==> MergedSoFar(modules, outcomes)
  {
    hide OncePerModule, Merged;
    ok, outcomes := true, map[];
    NothingMerged();
    for i := 0 to |modules|
      invariant ok && MergedSoFar(modules[..i], outcomes)
    {
      hide MergedSoFar;
      if modules[i].moduleIndex in outcomes {
        SeenTwice(modules, outcomes, i);
        ok := false;
        return;
      }
      MergeStep(modules[..i], outcomes, modules[i]);
      assert modules[..i + 1] == modules[..i] + [modules[i]];
      outcomes := outcomes[modules[i].moduleIndex := modules[i].outcomes];
    }
    assert modules[..|modules|] == modules;
  }

  lemma NothingMerged()
    ensures MergedSoFar([], map[])
  {
  }

  /** The second loop: the outcomes of fetched public images follow those of the partitions. */
  method AddPublicOutcomes(outcomes: map<nat, seq<SourceOutcome>>, publicOutcomes: map<nat, seq<SourceOutcome>>)
    returns (merged: map<nat, seq<SourceOutcome>>)
    ensures merged.Keys == outcomes.Keys + publicOutcomes.Keys
    ensures forall m | m in merged ::
              merged[m] == (if m in outcomes then outcomes[m] else []) + (if m in publicOutcomes then publicOutcomes[m] else [])
  {
    merged := outcomes;
    var left := publicOutcomes.Keys;
    while left != {}
      invariant left <= publicOutcomes.Keys
      invariant merged.Keys == outcomes.Keys + (publicOutcomes.Keys - left)
      invariant forall m | m in merged ::
                  merged[m] == (if m in outcomes then outcomes[m] else [])
                               + (if m in publicOutcomes && m !in left then publicOutcomes[m] else [])
      decreases left
    {
      var m :| m in left;
      merged := merged[m := (if m in merged then merged[m] else []) + publicOutcomes[m]];
      left := left - {m};
    }
  }

  /** `canonical_inputs`: it refuses outcomes of modules that were not captured. */
  method CanonicalInputs(v: VerifiedRun, outcomes: map<nat, seq<SourceOutcome>>) returns (r: Result<FrozenInputs>)
    requires |v.inputs.selections| == |v.roles|
    ensures r.Success? <==> forall m | m in outcomes :: m < |v.roles|
    ensures r.Success? ==>
              && r.value.workspaceId == v.workspaceId && r.value.coreImageDigest == v.coreImageDigest
              && r.value.publicSourceIds == PublicIds(v.inputs.publicSources)
              && |r.value.modules| == |v.roles|
              && forall i | 0 <= i < |v.roles| ::
                   r.value.modules[i] == FrozenModule(v.inputs.selections[i], v.roles[i].role, v.roles[i].inApp, [],
                                                      if i in outcomes then outcomes[i] else [])
  {
    if m :| m in outcomes && m >= |v.roles| {
      return Failure;
    }
    r := Success(FrozenInputs(
      v.workspaceId, v.coreImageDigest,
      seq(|v.roles|, i requires 0 <= i < |v.roles| =>
        FrozenModule(v.inputs.selections[i], v.roles[i].role, v.roles[i].inApp, [], if i in outcomes then outcomes[i] else [])),
      PublicIds(v.inputs.publicSources)));
  }

  // ----- the run -----

  /** How far a run came: no plan, a partition whose request failed it, or everything collected. */
  datatype Progress = Progress(plan: Option<Plan>, exchanges: seq<Exchange>, results: seq<Collected>)

  /** The record of a run is what its world makes of it. */
  ghost predicate Recounts(v: VerifiedRun, legs: nat -> Leg, g: Progress)
    requires Verified(v)
  {
    match g.plan
    case None => !Plannable(v.inputs) && g.exchanges == [] && g.results == []
    case Some(plan) =>
      && IsPlan(v.inputs, plan)
      && |g.results| <= |g.exchanges| <= |plan.partitions|
      && (forall i | 0 <= i < |g.exchanges| :: Served(plan.partitions[i], legs(i), g.exchanges[i]))
      && Results(v, plan, g.exchanges, g.results, |g.results|)
      && (|g.results| == |plan.partitions| || StoppedAt(v, plan, g))
  }

  /** The first partition without a result is one whose exchange does not give one. */
  ghost predicate StoppedAt(v: VerifiedRun, plan: Plan, g: Progress)
    requires Verified(v) && IsPlan(v.inputs, plan)
  {
    && |g.results| < |plan.partitions| && |g.exchanges| == |g.results| + 1
    && (PartitionFields(v.inputs, plan, |g.results|);
        PartitionResult(plan.partitions[|g.results|], v.inputs.parse, g.exchanges[|g.results|]).Failure?)
  }

  ghost predicate Complete(g: Progress) {
    g.plan.Some? && |g.results| == |g.plan.value.partitions|
  }

  /** The partition loop. */
  method ServePartitions(v: VerifiedRun, plan: Plan, legs: nat -> Leg) returns (results: seq<Collected>, g: Progress)
    requires Verified(v) && IsPlan(v.inputs, plan)
    requires forall i :: ValidRef(legs(i).diagnostic)
    ensures g.plan == Some(plan) && g.results == results && Recounts(v, legs, g)
  {
    hide Verified, IsPlan, Served, PartitionResult, ValidRef;
    results := [];
    var exchanges: seq<Exchange> := [];
    for i := 0 to |plan.partitions|
      invariant |results| == |exchanges| == i
      invariant forall k | 0 <= k < i :: Served(plan.partitions[k], legs(k), exchanges[k])
      invariant Results(v, plan, exchanges, results, |results|)
    {
      PartitionFields(v.inputs, plan, i);
      var x;
      var r;
      r, x := ServePartition(plan.partitions[i], v.inputs.parse, legs(i));
      ServedRef(plan.partitions[i], legs(i), x);
      exchanges := exchanges + [x];
      if r.Failure? {
        g := Progress(Some(plan), exchanges, results);
        return;
      }
      results := results + [r.value];
    }
    g := Progress(Some(plan), exchanges, results);
  }

  lemma ServedRef(part: Partition, leg: Leg, x: Exchange)
    requires Served(part, leg, x)
    ensures x.diagnostic == leg.diagnostic
  {
    hide Ran;
  }

  /**
   The run. It succeeds exactly when there is a plan, every partition has a result, no thread id occurs
   twice, every unwind method explains its trust, and the frames can be numbered; it then returns the
   assembled result.
   */
  method Run(v: VerifiedRun, publicOutcomes: map<nat, seq<SourceOutcome>>, legs: nat -> Leg)
    returns (r: Result<CanonicalResult>, g: Progress)
    requires Verified(v) && PublicOutcomesOk(v.inputs, publicOutcomes)
    requires forall i :: ValidRef(legs(i).diagnostic)
    ensures Recounts(v, legs, g)
    ensures |v.inputs.selections| == |v.roles| == |v.inputs.report.modules|
    ensures var symbols := AllFrames(g.results, |g.results|);
            var inputs := InputsOf(v, AllModules(g.results, |g.results|), publicOutcomes);
            && (r.Success? <==>
                  && Complete(g) && DistinctThreads(v.inputs.unwind) && FramesOk(v.inputs.unwind)
                  && FramesFit(v.inputs.unwind, symbols))
            && (r.Success? ==> r.value == Assembled(v.inputs.report, v.inputs.unwind, symbols, inputs))
  {
    hide Verified, PublicOutcomesOk, IsPlan, Plannable, Results, StoppedAt, Served, Assembled, Assemblable, FramesOk, FramesFit,
         DistinctThreads, InputsOk, PacketsOk, ValidRef;
    RolesCover(v);
    var planned := MakePlan(v.inputs);
    if planned.Failure? {
      NothingDone(v, legs);
      return Failure, Progress(None, [], []);
    }
    var plan := planned.value;
    var results;
    results, g := ServePartitions(v, plan, legs);
    if |results| < |plan.partitions| {
      return Failure, g;
    }
    var frames, modules := JoinResults(results);
    Compose(v, plan, g.exchanges, results, publicOutcomes);
    var once, collected := MergePartitions(modules);
    var outcomes := AddPublicOutcomes(collected, publicOutcomes);
    PublicIndexes(v.inputs, publicOutcomes);
    var inputs := CanonicalInputs(v, outcomes);
    SameInputs(v, modules, collected, publicOutcomes, outcomes);
    assert inputs.Success? && inputs.value == InputsOf(v, modules, publicOutcomes);
    var valid := ValidateInputs(v.inputs.report, inputs.value);
    // Neither of these checks can end the run.
    assert once && valid;
    r := AssembleChecked(v.inputs.report, v.inputs.unwind, frames, inputs.value);
  }

  /** The loops of the merge build the inputs that the composition speaks of. */
  lemma SameInputs(
    v: VerifiedRun, modules: seq<ModuleOutcomes>, collected: map<nat, seq<SourceOutcome>>,
    publicOutcomes: map<nat, seq<SourceOutcome>>, outcomes: map<nat, seq<SourceOutcome>>)
    requires |v.inputs.selections| == |v.roles| && Merged(modules, collected)
    requires outcomes.Keys == collected.Keys + publicOutcomes.Keys
    requires forall m | m in outcomes ::
               outcomes[m] == (if m in collected then collected[m] else [])
                              + (if m in publicOutcomes then publicOutcomes[m] else [])
    ensures forall i | 0 <= i < |v.roles| ::
              FrozenModuleOf(v, modules, publicOutcomes, i) ==
              FrozenModule(v.inputs.selections[i], v.roles[i].role, v.roles[i].inApp, [],
                           if i in outcomes then outcomes[i] else [])
  {
    hide FromPartitions;
    forall i: nat
      ensures OutcomesOf(modules, publicOutcomes, i) == if i in outcomes then outcomes[i] else []
    {
      assert i in outcomes <==> i in collected || i in publicOutcomes;
    }
  }

  lemma NothingDone(v: VerifiedRun, legs: nat -> Leg)
    requires Verified(v) && !Plannable(v.inputs)
    ensures Recounts(v, legs, Progress(None, [], []))
  {
  }

  lemma PublicIndexes(p: PlanInputs, outcomes: map<nat, seq<SourceOutcome>>)
    requires PublicOutcomesOk(p, outcomes)
    ensures forall i | i in outcomes :: i < |p.selections|
  {
  }

  /** `extend` over all results. */
  method JoinResults(results: seq<Collected>) returns (frames: seq<FrameSymbol>, modules: seq<ModuleOutcomes>)
    ensures frames == AllFrames(results, |results|) && modules == AllModules(results, |results|)
  {
    frames, modules := [], [];
    for i := 0 to |results|
      invariant frames == AllFrames(results, i) && modules == AllModules(results, i)
    {
      frames := frames + results[i].frames;
      modules := modules + results[i].modules;
    }
  }
}
