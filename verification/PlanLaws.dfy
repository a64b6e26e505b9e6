/** What every plan guarantees: each frame is asked about exactly once, and partitions do not mix contents. */
module PlanLaws {
  import opened Basics
  import opened Text
  import opened Json
  import opened Evidence
  import opened Layout
  import opened Planner

  predicate SameFrame(r: FrameRef, t: nat, f: nat) {
    r.threadIndex == t && r.physicalIndex == f
  }

  predicate Earlier(t: nat, f: nat, u: nat, g: nat) {
    t < u || (t == u && f < g)
  }

  predicate InStackOrder(refs: seq<FrameRef>) {
    forall i, j | 0 <= i < j < |refs| :: RefEarlier(refs[i], refs[j])
  }

  predicate RefEarlier(a: FrameRef, b: FrameRef) {
    Earlier(a.threadIndex, a.physicalIndex, b.threadIndex, b.physicalIndex)
  }

  predicate IsFrame(p: PlanInputs, t: nat, f: nat) {
    t < |p.unwind.threads| && f < |p.unwind.threads[t].frames|
  }

  /** The references up to a position are exactly those the earlier frames give, and they follow stack order. */
  lemma {:induction false} RefsUpTo(p: PlanInputs, key: string, t: nat, f: nat)
    requires |p.selections| == |p.report.modules| && Position(p, t, f)
    ensures forall r :: r in Refs(p, key, t, f) <==>
              && IsFrame(p, r.threadIndex, r.physicalIndex)
              && Earlier(r.threadIndex, r.physicalIndex, t, f)
              && r in OneRef(p, key, r.threadIndex, r.physicalIndex)
    ensures InStackOrder(Refs(p, key, t, f))
    decreases t, f
  {
    hide ModuleAt, KeyOf;
    if f > 0 {
      RefsUpTo(p, key, t, f - 1);
      var refs, init, last := Refs(p, key, t, f), Refs(p, key, t, f - 1), OneRef(p, key, t, f - 1);
      assert |last| <= 1 && forall r | r in last :: SameFrame(r, t, f - 1);
      forall r
        ensures r in refs <==>
                  && IsFrame(p, r.threadIndex, r.physicalIndex)
                  && Earlier(r.threadIndex, r.physicalIndex, t, f)
                  && r in OneRef(p, key, r.threadIndex, r.physicalIndex)
      {
        assert r in refs <==> r in init || r in last;
      }
      forall i, j | 0 <= i < j < |refs|
        ensures RefEarlier(refs[i], refs[j])
      {
        assert refs[i] == init[i] && init[i] in init;
        assert j < |init| ==> refs[j] == init[j];
        assert j == |init| ==> refs[j] == last[0];
      }
    } else if t > 0 {
      RefsUpTo(p, key, t - 1, |p.unwind.threads[t - 1].frames|);
    }
  }

  /** What a partition holds, in terms of the frames and modules of the dump. */
  lemma PartitionRefs(p: PlanInputs, plan: Plan, i: nat, r: FrameRef)
    requires IsPlan(p, plan) && i < |plan.partitions|
    ensures r in plan.partitions[i].frameRefs <==>
              && IsFrame(p, r.threadIndex, r.physicalIndex)
              && r.instruction == FrameAt(p, r.threadIndex, r.physicalIndex).instruction
              && ModuleAt(p, r.instruction) == Some(r.moduleIndex)
              && KeyOf(p, r.moduleIndex) == Some(plan.partitions[i].key)
  {
    hide Plannable, ModuleAt, KeyOf, GroupOf;
    PartitionIs(p, plan, i);
    RefsUpTo(p, plan.partitions[i].key, |p.unwind.threads|, 0);
  }

  lemma PartitionIs(p: PlanInputs, plan: Plan, i: nat)
    requires IsPlan(p, plan) && i < |plan.partitions|
    ensures |p.selections| == |p.report.modules|
    ensures plan.partitions[i].frameRefs == AllRefs(p, plan.partitions[i].key) != []
    ensures plan.partitions[i] == GroupOf(p, plan.partitions[i].key, |p.selections|, AllRefs(p, plan.partitions[i].key))
    ensures IsKey(p, plan.partitions[i].key, |p.selections|)
  {
  }

  lemma KeysDiffer(p: PlanInputs, plan: Plan, i: nat, j: nat)
    requires IsPlan(p, plan) && i < |plan.partitions| && j < |plan.partitions| && i != j
    ensures plan.partitions[i].key != plan.partitions[j].key
  {
    var keys := PartitionKeys(plan.partitions);
    SortedUniqueDistinct(keys);
    assert keys[i] != keys[j];
  }

  lemma KeyOfPartition(p: PlanInputs, plan: Plan, key: string)
    requires IsPlan(p, plan)
    ensures |p.selections| == |p.report.modules|
    ensures key in PartitionKeys(plan.partitions) <==> IsKey(p, key, |p.selections|) && AllRefs(p, key) != []
  {
    hide Plannable, IsKey, GroupOf;
    PlanSize(p, plan);
    var keys := PartitionKeys(plan.partitions);
    if key in keys {
      var i :| 0 <= i < |keys| && keys[i] == key;
      PartitionIs(p, plan, i);
    }
    if IsKey(p, key, |p.selections|) && AllRefs(p, key) != [] {
      var i :| 0 <= i < |plan.partitions| && plan.partitions[i].key == key;
      assert keys[i] == key;
    }
  }

  /** The inputs determine the plan. */
  lemma PlanUnique(p: PlanInputs, a: Plan, b: Plan)
    requires IsPlan(p, a) && IsPlan(p, b)
    ensures a == b
  {
    var x, y := PartitionKeys(a.partitions), PartitionKeys(b.partitions);
    hide Plannable, GroupOf, IsKey;
    forall key
      ensures key in x <==> key in y
    {
      KeyOfPartition(p, a, key);
      KeyOfPartition(p, b, key);
    }
    AscendingUnique(x, y);
    assert |a.partitions| == |x| && |b.partitions| == |y|;
    forall i | 0 <= i < |x|
      ensures a.partitions[i] == b.partitions[i]
    {
      PartitionIs(p, a, i);
      PartitionIs(p, b, i);
      assert x[i] == a.partitions[i].key && y[i] == b.partitions[i].key;
    }
  }

  /** The module of a frame whose partition may ask for it. */
  function Asked(p: PlanInputs, t: nat, f: nat): Option<nat>
    requires |p.selections| == |p.report.modules| && IsFrame(p, t, f)
  {
    match ModuleAt(p, FrameAt(p, t, f).instruction)
    case None => None
    case Some(m) => if KeyOf(p, m).Some? then Some(m) else None
  }

  /**
   Exact cover: a frame in a selected or publicly servable module has exactly one reference in exactly
   one partition, with its own instruction and module; every other frame has none.
   */
  lemma ExactCover(p: PlanInputs, plan: Plan, t: nat, f: nat)
    requires IsPlan(p, plan) && IsFrame(p, t, f)
    ensures match Asked(p, t, f)
            case None =>
              forall i, j | 0 <= i < |plan.partitions| && 0 <= j < |plan.partitions[i].frameRefs| ::
                !SameFrame(plan.partitions[i].frameRefs[j], t, f)
            case Some(m) =>
              exists i, j | 0 <= i < |plan.partitions| && 0 <= j < |plan.partitions[i].frameRefs| ::
                && plan.partitions[i].frameRefs[j] == FrameRef(t, f, m, FrameAt(p, t, f).instruction)
                && (forall a, b | 0 <= a < |plan.partitions| && 0 <= b < |plan.partitions[a].frameRefs| ::
                      SameFrame(plan.partitions[a].frameRefs[b], t, f) ==> a == i && b == j)
  {
    hide ModuleAt, KeyOf, IsPlan;
    PlanSize(p, plan);
    match Asked(p, t, f) {
      case None =>
        forall i, j | 0 <= i < |plan.partitions| && 0 <= j < |plan.partitions[i].frameRefs|
          ensures !SameFrame(plan.partitions[i].frameRefs[j], t, f)
        {
          PartitionRefs(p, plan, i, plan.partitions[i].frameRefs[j]);
        }
      case Some(m) =>
        var r := FrameRef(t, f, m, FrameAt(p, t, f).instruction);
        var i := PartitionOf(p, plan, r);
        PartitionRefs(p, plan, i, r);
        var j :| 0 <= j < |plan.partitions[i].frameRefs| && plan.partitions[i].frameRefs[j] == r;
        forall a, b | 0 <= a < |plan.partitions| && 0 <= b < |plan.partitions[a].frameRefs|
                      && SameFrame(plan.partitions[a].frameRefs[b], t, f)
          ensures a == i && b == j
        {
          PartitionRefs(p, plan, a, plan.partitions[a].frameRefs[b]);
          if a != i {
            KeysDiffer(p, plan, a, i);
          }
          RefsDistinct(p, plan, i, b, j);
        }
    }
  }

  lemma PlanSize(p: PlanInputs, plan: Plan)
    requires IsPlan(p, plan)
    ensures |p.selections| == |p.report.modules|
  {
  }

  lemma RefsDistinct(p: PlanInputs, plan: Plan, i: nat, a: nat, b: nat)
    requires IsPlan(p, plan) && i < |plan.partitions|
    requires a < |plan.partitions[i].frameRefs| && b < |plan.partitions[i].frameRefs|
    requires var refs := plan.partitions[i].frameRefs; SameFrame(refs[a], refs[b].threadIndex, refs[b].physicalIndex)
    ensures a == b
  {
    PartitionIs(p, plan, i);
    RefsUpTo(p, plan.partitions[i].key, |p.unwind.threads|, 0);
    var refs := plan.partitions[i].frameRefs;
    assert a < b ==> RefEarlier(refs[a], refs[b]);
    assert b < a ==> RefEarlier(refs[b], refs[a]);
  }

  lemma PartitionOf(p: PlanInputs, plan: Plan, r: FrameRef) returns (i: nat)
    requires IsPlan(p, plan) && IsFrame(p, r.threadIndex, r.physicalIndex)
    requires r.instruction == FrameAt(p, r.threadIndex, r.physicalIndex).instruction
    requires ModuleAt(p, r.instruction) == Some(r.moduleIndex) && KeyOf(p, r.moduleIndex).Some?
    ensures i < |plan.partitions| && KeyOf(p, r.moduleIndex) == Some(plan.partitions[i].key)
  {
    var key := KeyOf(p, r.moduleIndex).value;
    RefsUpTo(p, key, |p.unwind.threads|, 0);
    assert r in AllRefs(p, key);
    assert IsKey(p, key, |p.selections|);
    i :| 0 <= i < |plan.partitions| && plan.partitions[i].key == key;
  }

  // ----- the shape that the collector relies on -----

  /** A partition as only the planner makes them. */
  ghost predicate WellFormed(part: Partition, parse: UrlParser) {
    && |part.moduleIndexes| == |part.capturedModules|
    && Distinct(part.moduleIndexes)
    && (forall k | 0 <= k < |part.capturedModules| ::
          && Captured(part.capturedModules[k], part.architecture).Some?
          && AddressText(part.capturedModules[k].imageBase).Some?)
    && (forall r | r in part.frameRefs :: r.moduleIndex in part.moduleIndexes)
    && part.request.stacktraces == AsStacks(part.frameRefs)
    && part.request.modules == AsRequests(part.capturedModules)
    && part.sourceIds == SourceIds(part.request.sources) != {}
    && (forall k | 0 <= k < |part.request.sources| ::
          GetStr(part.request.sources[k], "id").Some? && SourceId(part.request.sources[k]) != ""
          && GetStr(part.request.sources[k], "url").Some?)
  }

  /** A partition speaks for one content: all modules selected the same pair, or there is a single public module. */
  ghost predicate OneContent(p: PlanInputs, part: Partition)
    requires forall m | m in part.moduleIndexes :: m < |p.selections|
  {
    match part.pairId
    case Some(pair) =>
      && part.key == pair && part.sourceIds == {PairSourceId(pair)}
      && forall m | m in part.moduleIndexes ::
           p.selections[m].state.UniqueState? && p.selections[m].selectedPairId == Some(pair)
    case None =>
      && |part.moduleIndexes| == 1
      && part.request.sources == p.publicSources
      && (assert part.moduleIndexes[0] in part.moduleIndexes; p.selections[part.moduleIndexes[0]].state.NoneState?)
  }

  lemma MemberOf(p: PlanInputs, plan: Plan, i: nat, m: nat)
    requires IsPlan(p, plan) && i < |plan.partitions|
    ensures m in plan.partitions[i].moduleIndexes <==> m < |p.selections| && KeyOf(p, m) == Some(plan.partitions[i].key)
  {
    PartitionIs(p, plan, i);
  }

  /** No module is asked about in two partitions. */
  lemma ModulesApart(p: PlanInputs, plan: Plan, i: nat, j: nat, m: nat)
    requires IsPlan(p, plan) && i < |plan.partitions| && j < |plan.partitions|
    requires m in plan.partitions[i].moduleIndexes && m in plan.partitions[j].moduleIndexes
    ensures i == j
  {
    MemberOf(p, plan, i, m);
    MemberOf(p, plan, j, m);
    if i != j {
      KeysDiffer(p, plan, i, j);
    }
  }

  lemma PartitionContent(p: PlanInputs, plan: Plan, i: nat)
    requires IsPlan(p, plan) && i < |plan.partitions|
    ensures forall m | m in plan.partitions[i].moduleIndexes :: m < |p.selections|
    ensures OneContent(p, plan.partitions[i])
  {
    hide Plannable, GroupOf, KeyOf, ValidSelection;
    var part := plan.partitions[i];
    ModulesAllOk(p, plan);
    PartitionFields(p, plan, i);
    forall m | m in part.moduleIndexes
      ensures m < |p.selections| && KeyOf(p, m) == Some(part.key)
    {
      MemberOf(p, plan, i, m);
    }
    forall m | m in part.moduleIndexes
      ensures part.pairId.Some? ==> p.selections[m].state.UniqueState? && p.selections[m].selectedPairId == Some(part.key)
      ensures part.pairId.None? ==> p.selections[m].state.NoneState? && part.key == PublicKey(m)
    {
      assert ModuleOk(p, m);
      KeyShape(p, m);
      if p.selections[m].state.NoneState? {
        PublicShape(p, m);
      }
    }
    if part.pairId.None? {
      OnePublicModule(part);
    } else {
      var m := part.moduleIndexes[0];
      assert m in part.moduleIndexes && ModuleOk(p, m);
      KeyShape(p, m);
      PrivateSource(p, part.key);
    }
  }

  lemma PublicShape(p: PlanInputs, m: nat)
    requires m < |p.selections| && p.selections[m].state.NoneState? && KeyOf(p, m).Some?
    ensures IsPublicKey(KeyOf(p, m).value)
  {
  }

  lemma OnePublicModule(part: Partition)
    requires part.moduleIndexes != [] && Distinct(part.moduleIndexes)
    requires forall m | m in part.moduleIndexes :: part.key == PublicKey(m)
    ensures |part.moduleIndexes| == 1
  {
    if |part.moduleIndexes| > 1 {
      var a, b := part.moduleIndexes[0], part.moduleIndexes[1];
      assert a in part.moduleIndexes && b in part.moduleIndexes && a != b;
      assert PublicKey(a)[7..] == Numeral(a, Decimal) && PublicKey(b)[7..] == Numeral(b, Decimal);
      NumeralInjective(a, b, Decimal);
    }
  }

  lemma ModulesAllOk(p: PlanInputs, plan: Plan)
    requires IsPlan(p, plan)
    ensures |p.selections| == |p.report.modules| && forall m | 0 <= m < |p.selections| :: ModuleOk(p, m)
    ensures PublicSourcesOk(p.parse, p.publicSources)
  {
  }

  lemma PartitionFields(p: PlanInputs, plan: Plan, i: nat)
    requires IsPlan(p, plan) && i < |plan.partitions|
    ensures var part := plan.partitions[i];
            && part.pairId == (if IsPublicKey(part.key) then None else Some(part.key))
            && part.moduleIndexes != [] && Distinct(part.moduleIndexes)
            && part.request.sources == SourcesFor(p, part.key)
            && part.sourceIds == SourceIds(part.request.sources)
            && part.request.stacktraces == AsStacks(part.frameRefs)
            && part.request.modules == AsRequests(part.capturedModules)
            && part.architecture == p.report.process.architecture
            && |part.moduleIndexes| == |part.capturedModules|
            && (forall k | 0 <= k < |part.moduleIndexes| ::
                  part.moduleIndexes[k] < |p.report.modules|
                  && part.capturedModules[k] == p.report.modules[part.moduleIndexes[k]])
  {
    PartitionIs(p, plan, i);
    var part := plan.partitions[i];
    var m: nat :| m < |p.selections| && KeyOf(p, m) == Some(part.key);
    assert m in part.moduleIndexes;
    assert forall k | 0 <= k < |part.moduleIndexes| :: part.moduleIndexes[k] in part.moduleIndexes;
  }

  /** Every partition of a plan has the shape that the collector relies on. */
  lemma PartitionWellFormed(p: PlanInputs, plan: Plan, i: nat)
    requires IsPlan(p, plan) && i < |plan.partitions| && p.parse("").None?
    ensures WellFormed(plan.partitions[i], p.parse)
  {
    hide Plannable, GroupOf, KeyOf, AsStacks, AsRequests, Captured, AddressText, IsPlan;
    var part := plan.partitions[i];
    ModulesAllOk(p, plan);
    PartitionFields(p, plan, i);
    forall k | 0 <= k < |part.capturedModules|
      ensures Captured(part.capturedModules[k], part.architecture).Some?
      ensures AddressText(part.capturedModules[k].imageBase).Some?
    {
      assert ModuleOk(p, part.moduleIndexes[k]);
    }
    forall r | r in part.frameRefs
      ensures r.moduleIndex in part.moduleIndexes
    {
      PartitionRefs(p, plan, i, r);
      MemberOf(p, plan, i, r.moduleIndex);
    }
    SourcesNamed(p, plan, i);
  }

  lemma SourcesNamed(p: PlanInputs, plan: Plan, i: nat)
    requires IsPlan(p, plan) && i < |plan.partitions| && p.parse("").None?
    ensures var part := plan.partitions[i];
            && part.sourceIds != {}
            && forall k | 0 <= k < |part.request.sources| ::
                 GetStr(part.request.sources[k], "id").Some? && SourceId(part.request.sources[k]) != ""
                 && GetStr(part.request.sources[k], "url").Some?
  {
    hide Plannable, GroupOf, KeyOf, IsPlan;
    var part := plan.partitions[i];
    ModulesAllOk(p, plan);
    PartitionFields(p, plan, i);
    PartitionContent(p, plan, i);
    assert part.moduleIndexes[0] in part.moduleIndexes;
    var m := part.moduleIndexes[0];
    assert ModuleOk(p, m);
    MemberOf(p, plan, i, m);
    KeyShape(p, m);
    if part.pairId.Some? {
      PrivateSource(p, part.key);
    } else {
      assert part.request.sources == p.publicSources;
      forall k | 0 <= k < |p.publicSources|
        ensures GetStr(p.publicSources[k], "url").Some?
      {
        assert PublicSourceOk(p.parse, p.publicSources[k]);
      }
    }
    assert SourceId(part.request.sources[0]) in part.sourceIds;
  }

  lemma PrivateSource(p: PlanInputs, pair: string)
    requires IsHash(pair) && !IsPublicKey(pair) && SafeUrl(p.parse, p.root)
    ensures var sources := SourcesFor(p, pair);
            && |sources| == 1 && SourceId(sources[0]) == PairSourceId(pair) != ""
            && GetStr(sources[0], "id").Some? && GetStr(sources[0], "url") == Some(PairSourceUrl(pair, p.root))
            && SourceIds(sources) == {PairSourceId(pair)}
  {
  }
}
