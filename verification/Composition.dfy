/** Planner, collector and assembler agree: what the first two let through, the third never refuses. */
module Composition {
  import opened Basics
  import opened Text
  import opened Json
  import opened Evidence
  import opened Layout
  import opened Planner
  import opened PlanLaws
  import opened Transport
  import opened Collector
  import opened CollectorLaws
  import opened Assembler

  /** A module's frozen role, with the module that it was frozen for. */
  datatype Role = Role(moduleIndex: nat, identity: ModuleIdentity, role: string, inApp: bool)

  /** The frozen inputs of a run, the unwound stacks among them. */
  datatype VerifiedRun = VerifiedRun(inputs: PlanInputs, roles: seq<Role>, workspaceId: string, coreImageDigest: string)

  function PublicIds(sources: seq<Json>): seq<string> {
    seq(|sources|, i requires 0 <= i < |sources| => SourceId(sources[i]))
  }

  ghost predicate Printed(m: InspectModule) {
    exists base: u64 :: m.imageBase == FormatHex(base)
  }

  /** What the verification of the frozen files has established before anything is requested. */
  ghost predicate Verified(v: VerifiedRun) {
    && v.inputs.parse("").None?
    && |v.inputs.selections| == |v.roles| == |v.inputs.report.modules|
    && (forall i | 0 <= i < |v.roles| ::
          && SelectionOk(v.inputs, i)
          && IsRole(v.roles[i].role) && v.roles[i].inApp == OwnRole(v.roles[i].role)
          && Printed(v.inputs.report.modules[i]))
    && NonEmptyEach(PublicIds(v.inputs.publicSources)) && SortedUnique(PublicIds(v.inputs.publicSources))
  }

  /** What fetching public images reports: one outcome for some of the modules that selected nothing. */
  ghost predicate PublicOutcomesOk(p: PlanInputs, outcomes: map<nat, seq<SourceOutcome>>) {
    forall i | i in outcomes ::
      && i < |p.selections| && p.selections[i].state.NoneState?
      && |outcomes[i]| == 1 && ValidOutcome(outcomes[i][0]) && outcomes[i][0].stage.Unwinding?
  }

  // ----- one partition -----

  /** What became of the request of a partition: no time left to send it, or the evidence of its transport. */
  datatype Exchange =
    | Skipped(diagnostic: ObjectRef)
    | Asked(transport: TransportEvidence, diagnostic: ObjectRef)

  /** The result of a partition, or the end of the run. */
  ghost function PartitionResult(part: Partition, parse: UrlParser, x: Exchange): Result<Collected>
    requires |part.moduleIndexes| == |part.capturedModules|
  {
    match x
    case Skipped(diagnostic) =>
      if part.pairId.None? then Success(UnavailableResult(part, "source_budget_exhausted_before_request", diagnostic, false))
      else Failure
    case Asked(transport, diagnostic) =>
      match transport.failure
      case Some(reason) =>
        if part.pairId.None? && Retryable(reason) then Success(UnavailableResult(part, reason, diagnostic, true))
        else Failure
      case None =>
        match transport.response
        case Some(response) => Collect(part, parse, response, diagnostic)
        case None => Failure
  }

  /** The results of the first `n` partitions. */
  ghost predicate Results(v: VerifiedRun, plan: Plan, exchanges: seq<Exchange>, results: seq<Collected>, n: nat)
    requires Verified(v) && IsPlan(v.inputs, plan)
  {
    && n == |results| <= |plan.partitions| && n <= |exchanges|
    && forall i | 0 <= i < n :: ResultAt(v, plan, exchanges[i], results[i], i)
  }

  ghost predicate ResultAt(v: VerifiedRun, plan: Plan, x: Exchange, c: Collected, i: nat)
    requires Verified(v) && IsPlan(v.inputs, plan) && i < |plan.partitions|
  {
    PartitionFields(v.inputs, plan, i);
    ValidRef(x.diagnostic) && PartitionResult(plan.partitions[i], v.inputs.parse, x) == Success(c)
  }

  // ----- the merge -----

  function AllFrames(results: seq<Collected>, n: nat): seq<FrameSymbol>
    requires n <= |results|
  {
    if n == 0 then [] else AllFrames(results, n - 1) + results[n - 1].frames
  }

  function AllModules(results: seq<Collected>, n: nat): seq<ModuleOutcomes>
    requires n <= |results|
  {
    if n == 0 then [] else AllModules(results, n - 1) + results[n - 1].modules
  }

  /** No module was asked about in two partitions. */
  ghost predicate OncePerModule(modules: seq<ModuleOutcomes>) {
    forall i, j | 0 <= i < j < |modules| :: modules[i].moduleIndex != modules[j].moduleIndex
  }

  /** The outcomes that the merge holds for a module. */
  function OutcomesOf(modules: seq<ModuleOutcomes>, publicOutcomes: map<nat, seq<SourceOutcome>>, m: nat): seq<SourceOutcome> {
    FromPartitions(modules, m) + (if m in publicOutcomes then publicOutcomes[m] else [])
  }

  function FromPartitions(modules: seq<ModuleOutcomes>, m: nat): seq<SourceOutcome> {
    if modules == [] then []
    else if modules[0].moduleIndex == m then modules[0].outcomes
    else FromPartitions(modules[1..], m)
  }

  /** `canonical_inputs`: every captured module with its selection, role and outcomes. */
  function FrozenModuleOf(
    v: VerifiedRun, modules: seq<ModuleOutcomes>, publicOutcomes: map<nat, seq<SourceOutcome>>, i: nat): FrozenModule
    requires i < |v.inputs.selections| && i < |v.roles|
  {
    FrozenModule(v.inputs.selections[i], v.roles[i].role, v.roles[i].inApp, [], OutcomesOf(modules, publicOutcomes, i))
  }

  function InputsOf(
    v: VerifiedRun, modules: seq<ModuleOutcomes>, publicOutcomes: map<nat, seq<SourceOutcome>>): FrozenInputs
    requires |v.inputs.selections| == |v.roles|
  {
    FrozenInputs(
      v.workspaceId, v.coreImageDigest,
      seq(|v.roles|, i requires 0 <= i < |v.roles| => FrozenModuleOf(v, modules, publicOutcomes, i)),
      PublicIds(v.inputs.publicSources))
  }

  // ----- what one partition contributes -----

  /** A list entry that partition `i` contributed. */
  ghost predicate Contributed(part: Partition, diagnostic: ObjectRef, o: ModuleOutcomes) {
    o.moduleIndex in part.moduleIndexes && Reportable(part, diagnostic, o.outcomes)
  }

  lemma ResultSound(v: VerifiedRun, plan: Plan, x: Exchange, c: Collected, i: nat)
    requires Verified(v) && IsPlan(v.inputs, plan) && i < |plan.partitions|
    requires ResultAt(v, plan, x, c, i)
    ensures Sound(plan.partitions[i], x.diagnostic, c)
  {
    hide Verified, Collect, Sound, UnavailableResult, ValidRef, IsPlan;
    var part := plan.partitions[i];
    ParserRefusesEmpty(v);
    PartitionFields(v.inputs, plan, i);
    NamesItsSources(v, plan, i);
    match x {
      case Skipped(diagnostic) =>
        UnavailableSound(part, "source_budget_exhausted_before_request", diagnostic, false);
      case Asked(transport, diagnostic) =>
        match transport.failure {
          case Some(reason) => UnavailableSound(part, reason, diagnostic, true);
          case None => CollectedSound(part, v.inputs.parse, transport.response.value, diagnostic);
        }
    }
  }

  lemma ParserRefusesEmpty(v: VerifiedRun)
    requires Verified(v)
    ensures v.inputs.parse("").None?
  {
  }

  lemma NamesItsSources(v: VerifiedRun, plan: Plan, i: nat)
    requires Verified(v) && IsPlan(v.inputs, plan) && i < |plan.partitions|
    ensures NamedSources(plan.partitions[i])
  {
    hide IsPlan, Verified;
    ParserRefusesEmpty(v);
    PartitionWellFormed(v.inputs, plan, i);
  }

  lemma ResultModules(v: VerifiedRun, plan: Plan, x: Exchange, c: Collected, i: nat)
    requires Verified(v) && IsPlan(v.inputs, plan) && i < |plan.partitions|
    requires ResultAt(v, plan, x, c, i)
    ensures forall o | o in c.modules :: Contributed(plan.partitions[i], x.diagnostic, o)
    ensures OncePerModule(c.modules)
  {
    hide Verified, IsPlan, ResultAt, Reportable;
    ResultSound(v, plan, x, c, i);
    PartitionFields(v.inputs, plan, i);
    var part := plan.partitions[i];
    forall k | 0 <= k < |c.modules|
      ensures c.modules[k].moduleIndex == part.moduleIndexes[k] && Contributed(part, x.diagnostic, c.modules[k])
    {
    }
  }

  // ----- no module in two partitions -----

  /** The entry comes from one of the first `n` partitions. */
  ghost predicate TracedModule(plan: Plan, exchanges: seq<Exchange>, n: nat, o: ModuleOutcomes)
    requires n <= |plan.partitions| && n <= |exchanges|
  {
    exists i | 0 <= i < n :: Contributed(plan.partitions[i], exchanges[i].diagnostic, o)
  }

  lemma {:induction false} ModulesTraced(
    v: VerifiedRun, plan: Plan, exchanges: seq<Exchange>, results: seq<Collected>, n: nat)
    requires Verified(v) && IsPlan(v.inputs, plan) && n <= |results| && Results(v, plan, exchanges, results, |results|)
    ensures forall o | o in AllModules(results, n) :: TracedModule(plan, exchanges, n, o)
    ensures OncePerModule(AllModules(results, n))
  {
    hide Verified, IsPlan, ResultAt, Contributed;
    if n > 0 {
      ModulesTraced(v, plan, exchanges, results, n - 1);
      ResultModules(v, plan, exchanges[n - 1], results[n - 1], n - 1);
      var init, last, all := AllModules(results, n - 1), results[n - 1].modules, AllModules(results, n);
      forall o | o in all
        ensures TracedModule(plan, exchanges, n, o)
      {
        if o in init {
          assert TracedModule(plan, exchanges, n - 1, o);
        } else {
          assert Contributed(plan.partitions[n - 1], exchanges[n - 1].diagnostic, o);
        }
      }
      forall a, b | 0 <= a < |init| && 0 <= b < |last|
        ensures init[a].moduleIndex != last[b].moduleIndex
      {
        assert init[a] in init && last[b] in last;
        TracedApart(v, plan, exchanges, n - 1, init[a], last[b]);
      }
      forall a, b | 0 <= a < b < |all|
        ensures all[a].moduleIndex != all[b].moduleIndex
      {
        assert all[a] == if a < |init| then init[a] else last[a - |init|];
        assert all[b] == if b < |init| then init[b] else last[b - |init|];
      }
    }
  }

  lemma TracedApart(v: VerifiedRun, plan: Plan, exchanges: seq<Exchange>, n: nat, a: ModuleOutcomes, b: ModuleOutcomes)
    requires Verified(v) && IsPlan(v.inputs, plan) && n < |plan.partitions| && n < |exchanges|
    requires TracedModule(plan, exchanges, n, a) && Contributed(plan.partitions[n], exchanges[n].diagnostic, b)
    ensures a.moduleIndex != b.moduleIndex
  {
    hide Verified, IsPlan, Reportable;
    var i :| 0 <= i < n && Contributed(plan.partitions[i], exchanges[i].diagnostic, a);
    if a.moduleIndex == b.moduleIndex {
      ModulesApart(v.inputs, plan, i, n, a.moduleIndex);
    }
  }

  // ----- the outcomes of a module -----

  lemma {:induction false} FromPartitionsIs(modules: seq<ModuleOutcomes>, m: nat)
    ensures FromPartitions(modules, m) == [] || exists o :: o in modules && o.moduleIndex == m && o.outcomes == FromPartitions(modules, m)
    ensures OncePerModule(modules) ==> forall o | o in modules && o.moduleIndex == m :: FromPartitions(modules, m) == o.outcomes
  {
    if modules != [] {
      FromPartitionsIs(modules[1..], m);
      assert modules == [modules[0]] + modules[1..];
      if OncePerModule(modules) {
        assert OncePerModule(modules[1..]);
        forall o | o in modules && o.moduleIndex == m
          ensures FromPartitions(modules, m) == o.outcomes
        {
          if modules[0].moduleIndex == m {
            var k :| 0 <= k < |modules| && modules[k] == o;
            assert k == 0;
          }
        }
      }
    }
  }

  /** The merged outcomes of a module pass the checks of the assembler. */
  lemma MergedOutcomesOk(
    v: VerifiedRun, plan: Plan, exchanges: seq<Exchange>, results: seq<Collected>,
    publicOutcomes: map<nat, seq<SourceOutcome>>, m: nat)
    requires Verified(v) && IsPlan(v.inputs, plan) && Results(v, plan, exchanges, results, |results|)
    requires PublicOutcomesOk(v.inputs, publicOutcomes) && m < |v.inputs.selections|
    ensures OutcomesOk(v.inputs.selections[m].state, OutcomesOf(AllModules(results, |results|), publicOutcomes, m))
  {
    hide Verified, IsPlan, ResultAt, ValidOutcome, PublicOutcomesOk, OneOutcomePerStage, FromPartitions;
    var modules := AllModules(results, |results|);
    ModulesTraced(v, plan, exchanges, results, |results|);
    FromPartitionsIs(modules, m);
    var own := FromPartitions(modules, m);
    var extra := if m in publicOutcomes then publicOutcomes[m] else [];
    PublicOutcome(v.inputs, publicOutcomes, m);
    if own == [] {
      assert OneOutcomePerStage([]) by { AtMostOne([]); }
    } else {
      var o :| o in modules && o.moduleIndex == m && o.outcomes == own;
      var i :| 0 <= i < |results| && Contributed(plan.partitions[i], exchanges[i].diagnostic, o);
      NotBlocked(v, plan, i, m);
    }
    Append(own, extra);
  }

  lemma PublicOutcome(p: PlanInputs, outcomes: map<nat, seq<SourceOutcome>>, m: nat)
    requires PublicOutcomesOk(p, outcomes) && m < |p.selections|
    ensures m in outcomes ==>
              && OneOutcomePerStage(outcomes[m]) && !BlockedState(p.selections[m].state)
              && forall o | o in outcomes[m] :: ValidOutcome(o) && o.stage.Unwinding?
    ensures OneOutcomePerStage([])
  {
    hide ValidOutcome;
  }

  /** Partitions only ask about modules whose selection is not blocked. */
  lemma NotBlocked(v: VerifiedRun, plan: Plan, i: nat, m: nat)
    requires Verified(v) && IsPlan(v.inputs, plan) && i < |plan.partitions| && m in plan.partitions[i].moduleIndexes
    ensures m < |v.inputs.selections| && !BlockedState(v.inputs.selections[m].state)
  {
    hide Verified, IsPlan, KeyOf;
    MemberOf(v.inputs, plan, i, m);
    ModulesAllOk(v.inputs, plan);
    assert ModuleOk(v.inputs, m);
    KeyShape(v.inputs, m);
  }

  // ----- packets -----

  /** Partition `i` holds the packet's reference and a recorded success of the packet's source. */
  ghost predicate TracedPacket(plan: Plan, x: Exchange, c: Collected, i: nat, packet: FrameSymbol)
    requires i < |plan.partitions|
  {
    && packet in c.frames
    && Backed(c, x.diagnostic, packet)
    && exists r :: r in plan.partitions[i].frameRefs && Answers(plan.partitions[i], packet, r)
  }

  lemma ResultPackets(v: VerifiedRun, plan: Plan, x: Exchange, c: Collected, i: nat)
    requires Verified(v) && IsPlan(v.inputs, plan) && i < |plan.partitions|
    requires ResultAt(v, plan, x, c, i)
    ensures forall packet | packet in c.frames :: TracedPacket(plan, x, c, i, packet)
    ensures DistinctSlots(c.frames)
  {
    hide Verified, IsPlan, ResultAt, Answers, Backed;
    ResultSound(v, plan, x, c, i);
    var part := plan.partitions[i];
    var at: seq<nat> :| Anchored(part, c.frames, at);
    forall packet | packet in c.frames
      ensures TracedPacket(plan, x, c, i, packet)
    {
      var k :| 0 <= k < |c.frames| && c.frames[k] == packet;
      assert part.frameRefs[at[k]] in part.frameRefs;
    }
    forall j, k | 0 <= j < k < |c.frames|
      ensures SlotOf(c.frames[j]) != SlotOf(c.frames[k])
    {
      SameSlot(part, c.frames[j], part.frameRefs[at[j]]);
      SameSlot(part, c.frames[k], part.frameRefs[at[k]]);
      if SlotOf(c.frames[j]) == SlotOf(c.frames[k]) {
        RefsDistinct(v.inputs, plan, i, at[j], at[k]);
      }
    }
  }

  lemma SameSlot(part: Partition, packet: FrameSymbol, r: FrameRef)
    requires Answers(part, packet, r)
    ensures SlotOf(packet) == (r.threadIndex, r.physicalIndex)
    ensures packet.moduleIndex == r.moduleIndex && packet.instruction == r.instruction && packet.pairId == part.pairId
    ensures forall s | s in packet.symbol.inlines :: s.inlines == []
  {
  }

  /** Packets of different partitions lie in different frames. */
  lemma PacketsApart(
    v: VerifiedRun, plan: Plan, x: Exchange, y: Exchange, c: Collected, d: Collected, i: nat, j: nat,
    a: FrameSymbol, b: FrameSymbol)
    requires Verified(v) && IsPlan(v.inputs, plan) && i < |plan.partitions| && j < |plan.partitions| && i != j
    requires TracedPacket(plan, x, c, i, a) && TracedPacket(plan, y, d, j, b)
    ensures SlotOf(a) != SlotOf(b)
  {
    hide Verified, IsPlan, Answers, Backed, ModuleAt, KeyOf;
    var r :| r in plan.partitions[i].frameRefs && Answers(plan.partitions[i], a, r);
    var s :| s in plan.partitions[j].frameRefs && Answers(plan.partitions[j], b, s);
    SameSlot(plan.partitions[i], a, r);
    SameSlot(plan.partitions[j], b, s);
    PlanSize(v.inputs, plan);
    PartitionRefs(v.inputs, plan, i, r);
    PartitionRefs(v.inputs, plan, j, s);
    KeysDiffer(v.inputs, plan, i, j);
  }

  ghost predicate TracedFrame(
    plan: Plan, exchanges: seq<Exchange>, results: seq<Collected>, n: nat, packet: FrameSymbol)
    requires n <= |plan.partitions| && n <= |exchanges| && n <= |results|
  {
    exists i | 0 <= i < n :: TracedPacket(plan, exchanges[i], results[i], i, packet)
  }

  lemma {:induction false} FramesTraced(
    v: VerifiedRun, plan: Plan, exchanges: seq<Exchange>, results: seq<Collected>, n: nat)
    requires Verified(v) && IsPlan(v.inputs, plan) && n <= |results| && Results(v, plan, exchanges, results, |results|)
    ensures forall packet | packet in AllFrames(results, n) :: TracedFrame(plan, exchanges, results, n, packet)
    ensures DistinctSlots(AllFrames(results, n))
  {
    hide Verified, IsPlan, ResultAt, TracedPacket;
    if n > 0 {
      FramesTraced(v, plan, exchanges, results, n - 1);
      ResultPackets(v, plan, exchanges[n - 1], results[n - 1], n - 1);
      var init, last, all := AllFrames(results, n - 1), results[n - 1].frames, AllFrames(results, n);
      forall packet | packet in all
        ensures TracedFrame(plan, exchanges, results, n, packet)
      {
        if packet in init {
          assert TracedFrame(plan, exchanges, results, n - 1, packet);
        } else {
          assert TracedPacket(plan, exchanges[n - 1], results[n - 1], n - 1, packet);
        }
      }
      forall a, b | 0 <= a < |init| && 0 <= b < |last|
        ensures SlotOf(init[a]) != SlotOf(last[b])
      {
        assert init[a] in init && last[b] in last;
        var i :| 0 <= i < n - 1 && TracedPacket(plan, exchanges[i], results[i], i, init[a]);
        PacketsApart(v, plan, exchanges[i], exchanges[n - 1], results[i], results[n - 1], i, n - 1, init[a], last[b]);
      }
      forall a, b | 0 <= a < b < |all|
        ensures SlotOf(all[a]) != SlotOf(all[b])
      {
        assert all[a] == if a < |init| then init[a] else last[a - |init|];
        assert all[b] == if b < |init| then init[b] else last[b - |init|];
      }
    }
  }

  /** Both readings of the printed addresses give the same extents. */
  lemma SameExtents(v: VerifiedRun)
    requires Verified(v)
    ensures HexExtents(v.inputs.report.modules) == Extents(v.inputs.report.modules)
    ensures HexAddressesOk(v.inputs.report.modules) <==> AddressesOk(v.inputs.report.modules)
  {
    hide AddressText, HexText, FormatHex, SelectionOk;
    var modules := v.inputs.report.modules;
    forall i | 0 <= i < |modules|
      ensures HexExtent(modules[i]) == ModuleExtent(modules[i])
    {
      assert Printed(modules[i]);
      var base: u64 :| modules[i].imageBase == FormatHex(base);
      PrintedAddress(base);
    }
  }

  /** A packet that came through a partition passes every check of the assembler. */
  lemma PacketAccepted(
    v: VerifiedRun, plan: Plan, exchanges: seq<Exchange>, results: seq<Collected>,
    publicOutcomes: map<nat, seq<SourceOutcome>>, i: nat, packet: FrameSymbol)
    requires Verified(v) && IsPlan(v.inputs, plan) && Results(v, plan, exchanges, results, |results|)
    requires i < |results| && TracedPacket(plan, exchanges[i], results[i], i, packet)
    ensures |v.roles| == |v.inputs.selections| == |v.inputs.report.modules|
    ensures PacketOk(v.inputs.report, v.inputs.unwind, InputsOf(v, AllModules(results, |results|), publicOutcomes), packet)
  {
    hide Verified, IsPlan, ResultAt, Backed, Answers, ModuleAt, KeyOf, ModuleOfPc, FromFrozenSource, Correlated, OutcomesOf;
    var part := plan.partitions[i];
    var r :| r in part.frameRefs && Answers(part, packet, r);
    SameSlot(part, packet, r);
    PlanSize(v.inputs, plan);
    RolesCover(v);
    PartitionRefs(v.inputs, plan, i, r);
    SameLookup(v, packet.instruction);
    var inputs := InputsOf(v, AllModules(results, |results|), publicOutcomes);
    var m := packet.moduleIndex;
    PacketCorrelated(v, plan, exchanges, results, publicOutcomes, i, packet);
    MemberOf(v.inputs, plan, i, m);
    PacketSource(v, plan, exchanges[i], results[i], i, packet, inputs.modules[m], inputs.publicSourceIds);
    forall k | 0 <= k < |packet.symbol.inlines|
      ensures packet.symbol.inlines[k].inlines == []
    {
      assert packet.symbol.inlines[k] in packet.symbol.inlines;
    }
  }

  lemma RolesCover(v: VerifiedRun)
    requires Verified(v)
    ensures |v.inputs.selections| == |v.roles| == |v.inputs.report.modules|
  {
  }

  lemma SameLookup(v: VerifiedRun, pc: u64)
    requires Verified(v)
    ensures ModuleOfPc(v.inputs.report, pc) == ModuleAt(v.inputs, pc)
  {
    hide Verified, FirstMatch, HexExtents, Extents;
    SameExtents(v);
  }

  /** The source of a packet is the pair its module selected, or a public source. */
  lemma PacketSource(
    v: VerifiedRun, plan: Plan, x: Exchange, c: Collected, i: nat, packet: FrameSymbol, frozen: FrozenModule,
    publicIds: seq<string>)
    requires Verified(v) && IsPlan(v.inputs, plan) && i < |plan.partitions| && ResultAt(v, plan, x, c, i)
    requires TracedPacket(plan, x, c, i, packet) && packet.moduleIndex in plan.partitions[i].moduleIndexes
    requires packet.moduleIndex < |v.inputs.selections| && frozen.selection == v.inputs.selections[packet.moduleIndex]
    requires publicIds == PublicIds(v.inputs.publicSources)
    ensures FromFrozenSource(frozen, publicIds, packet)
  {
    hide Verified, IsPlan, ResultAt, Answers, Reportable, ResolvedOutcome;
    var part := plan.partitions[i];
    var r :| r in part.frameRefs && Answers(part, packet, r);
    SameSlot(part, packet, r);
    PartitionContent(v.inputs, plan, i);
    PartitionFields(v.inputs, plan, i);
    ResultSound(v, plan, x, c, i);
    var k :| 0 <= k < |c.modules| && c.modules[k].moduleIndex == packet.moduleIndex
             && ResolvedOutcome(packet.sourceId, x.diagnostic) in c.modules[k].outcomes;
    ReportedSource(part, x.diagnostic, c.modules[k].outcomes, packet.sourceId);
    if part.pairId.None? {
      var n :| 0 <= n < |part.request.sources| && SourceId(part.request.sources[n]) == packet.sourceId;
      assert publicIds[n] == packet.sourceId;
    }
  }

  lemma ReportedSource(part: Partition, diagnostic: ObjectRef, outcomes: seq<SourceOutcome>, source: string)
    requires Reportable(part, diagnostic, outcomes) && ResolvedOutcome(source, diagnostic) in outcomes
    ensures source in part.sourceIds
  {
    hide ValidOutcome, OneOutcomePerStage;
  }

  /** The merged outcomes of the packet's module still hold the success that backs it. */
  lemma PacketCorrelated(
    v: VerifiedRun, plan: Plan, exchanges: seq<Exchange>, results: seq<Collected>,
    publicOutcomes: map<nat, seq<SourceOutcome>>, i: nat, packet: FrameSymbol)
    requires Verified(v) && IsPlan(v.inputs, plan) && Results(v, plan, exchanges, results, |results|)
    requires i < |results| && TracedPacket(plan, exchanges[i], results[i], i, packet)
    requires |v.roles| == |v.inputs.selections| && packet.moduleIndex < |v.roles|
    ensures Correlated(FrozenModuleOf(v, AllModules(results, |results|), publicOutcomes, packet.moduleIndex), packet.sourceId)
  {
    hide Verified, IsPlan, ResultAt, Results, FromPartitions, OncePerModule, TracedModule;
    var modules, m := AllModules(results, |results|), packet.moduleIndex;
    ModulesTraced(v, plan, exchanges, results, |results|);
    ResultsLength(v, plan, exchanges, results);
    var k :| 0 <= k < |results[i].modules| && results[i].modules[k].moduleIndex == m
             && ResolvedOutcome(packet.sourceId, exchanges[i].diagnostic) in results[i].modules[k].outcomes;
    InAllModules(results, |results|, i, results[i].modules[k]);
    FromPartitionsIs(modules, m);
    var outcomes := OutcomesOf(modules, publicOutcomes, m);
    var o := ResolvedOutcome(packet.sourceId, exchanges[i].diagnostic);
    assert o in outcomes;
    var at :| 0 <= at < |outcomes| && outcomes[at] == o;
  }

  lemma {:induction false} InAllModules(results: seq<Collected>, n: nat, i: nat, o: ModuleOutcomes)
    requires i < n <= |results| && o in results[i].modules
    ensures o in AllModules(results, n)
  {
    if i + 1 < n {
      InAllModules(results, n - 1, i, o);
    }
  }

  // ----- the theorem -----

  /**
   Composition: whatever the selections, the stacks and the replies, results that the planner and the
   collector let through merge without a module in two partitions, pass the validation of the frozen
   inputs and every packet check, and are refused only for what no earlier step has looked at: a thread
   id that occurs twice, an unwind method that does not explain its trust, or more frames than a 32-bit
   index can number.
   */
  lemma Compose(
    v: VerifiedRun, plan: Plan, exchanges: seq<Exchange>, results: seq<Collected>,
    publicOutcomes: map<nat, seq<SourceOutcome>>)
    requires Verified(v) && IsPlan(v.inputs, plan) && Results(v, plan, exchanges, results, |results|)
    requires PublicOutcomesOk(v.inputs, publicOutcomes)
    ensures |v.roles| == |v.inputs.selections| == |v.inputs.report.modules|
    ensures OncePerModule(AllModules(results, |results|))
    ensures forall o | o in AllModules(results, |results|) :: o.moduleIndex < |v.inputs.selections|
    ensures var symbols, inputs := AllFrames(results, |results|), InputsOf(v, AllModules(results, |results|), publicOutcomes);
            && InputsOk(v.inputs.report, inputs)
            && PacketsOk(v.inputs.report, v.inputs.unwind, inputs, symbols)
            && (Assemblable(v.inputs.report, v.inputs.unwind, symbols, inputs) <==>
                  && DistinctThreads(v.inputs.unwind) && FramesOk(v.inputs.unwind)
                  && FramesFit(v.inputs.unwind, symbols))
  {
    hide Verified, IsPlan, ResultAt, Results, TracedModule, TracedPacket, PacketOk, DistinctThreads, FramesOk, FramesFit, InputsOk,
         HexExtents, PairwiseApart, HexAddressesOk, AddressesOk, DistinctSlots;
    RolesCover(v);
    var modules, symbols := AllModules(results, |results|), AllFrames(results, |results|);
    var inputs := InputsOf(v, modules, publicOutcomes);
    ResultsLength(v, plan, exchanges, results);
    ModulesTraced(v, plan, exchanges, results, |results|);
    forall o | o in modules
      ensures o.moduleIndex < |v.inputs.selections|
    {
      TracedInRange(v, plan, exchanges, |results|, o);
    }
    InputsAccepted(v, plan, exchanges, results, publicOutcomes);
    FramesTraced(v, plan, exchanges, results, |results|);
    forall k | 0 <= k < |symbols|
      ensures PacketOk(v.inputs.report, v.inputs.unwind, inputs, symbols[k])
    {
      assert symbols[k] in symbols;
      var i :| 0 <= i < |results| && TracedPacket(plan, exchanges[i], results[i], i, symbols[k]);
      PacketAccepted(v, plan, exchanges, results, publicOutcomes, i, symbols[k]);
    }
    SameExtents(v);
    PlanLayout(v.inputs, plan);
  }

  lemma ResultsLength(v: VerifiedRun, plan: Plan, exchanges: seq<Exchange>, results: seq<Collected>)
    requires Verified(v) && IsPlan(v.inputs, plan) && Results(v, plan, exchanges, results, |results|)
    ensures |results| <= |plan.partitions| && |results| <= |exchanges|
  {
  }

  lemma PlanLayout(p: PlanInputs, plan: Plan)
    requires IsPlan(p, plan)
    ensures AddressesOk(p.report.modules) && PairwiseApart(Extents(p.report.modules)) && ThreadsMatch(p.report, p.unwind)
  {
  }

  lemma TracedInRange(v: VerifiedRun, plan: Plan, exchanges: seq<Exchange>, n: nat, o: ModuleOutcomes)
    requires Verified(v) && IsPlan(v.inputs, plan) && n <= |plan.partitions| && n <= |exchanges|
    requires TracedModule(plan, exchanges, n, o)
    ensures o.moduleIndex < |v.inputs.selections|
  {
    hide Verified, IsPlan, Reportable;
    var i :| 0 <= i < n && Contributed(plan.partitions[i], exchanges[i].diagnostic, o);
    MemberOf(v.inputs, plan, i, o.moduleIndex);
  }

  lemma InputsAccepted(
    v: VerifiedRun, plan: Plan, exchanges: seq<Exchange>, results: seq<Collected>,
    publicOutcomes: map<nat, seq<SourceOutcome>>)
    requires Verified(v) && IsPlan(v.inputs, plan) && Results(v, plan, exchanges, results, |results|)
    requires PublicOutcomesOk(v.inputs, publicOutcomes)
    ensures |v.roles| == |v.inputs.selections|
    ensures InputsOk(v.inputs.report, InputsOf(v, AllModules(results, |results|), publicOutcomes))
  {
    hide IsPlan, Results, ValidSelection, OutcomesOk, OutcomesOf, Printed, IsRole, SortedUnique;
    var inputs := InputsOf(v, AllModules(results, |results|), publicOutcomes);
    forall i | 0 <= i < |inputs.modules|
      ensures FrozenModuleOk(v.inputs.report, i, inputs.modules[i])
    {
      assert SelectionOk(v.inputs, i);
      MergedOutcomesOk(v, plan, exchanges, results, publicOutcomes, i);
      NoArtifacts();
    }
  }

  lemma NoArtifacts()
    ensures SortedUnique([])
  {
  }
}
