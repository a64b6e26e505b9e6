/** Partitioning physical stack frames into source requests, one content pair or public module each. */
module Planner {
  import opened Basics
  import opened Text
  import opened Json
  import opened Evidence
  import opened Layout

  /** What the core reads off a parsed URL. */
  datatype Url = Url(
    scheme: string,
    host: Option<string>,
    port: Option<u16>,
    origin: string,
    path: string,
    username: string,
    password: Option<string>,
    query: Option<string>,
    fragment: Option<string>)

  /** The URL parser of the HTTP library: any function that refuses the empty text. */
  type UrlParser = string -> Option<Url>

  predicate SafeUrl(parse: UrlParser, text: string) {
    match parse(text)
    case None => false
    case Some(u) =>
      && (u.scheme == "http" || u.scheme == "https")
      && u.host.Some? && u.username == "" && u.password.None? && u.query.None? && u.fragment.None?
  }

  const PAIR_PREFIX := "crash-cap:pair:"

  function PairSourceId(pairId: string): string {
    PAIR_PREFIX + pairId + ":http-v3"
  }

  function PairSourceUrl(pairId: string, root: string): string {
    TrimEndSlashes(root) + "/" + pairId + "/"
  }

  /** The one content-addressed source of a private request. */
  function PairSource(parse: UrlParser, pairId: string, root: string): Result<Json> {
    if IsHash(pairId) && SafeUrl(parse, root) then
      Success(Obj(map[
        "id" := Str(PairSourceId(pairId)),
        "type" := Str("http"),
        "url" := Str(PairSourceUrl(pairId, root)),
        "layout" := Obj(map["type" := Str("unified"), "casing" := Str("lowercase")]),
        "filters" := Obj(map["filetypes" := Arr([Str("pe"), Str("pdb")])]),
        "is_public" := Bool(false)
      ]))
    else Failure
  }

  datatype FrameRef = FrameRef(threadIndex: nat, physicalIndex: nat, moduleIndex: nat, instruction: u64)

  datatype RequestModule = RequestModule(
    codeFile: string,
    codeId: string,
    debugFile: Option<string>,
    debugId: Option<string>,
    imageAddr: string,
    imageSize: u32)

  /** The request of a partition: one stacktrace of one frame per frame reference. */
  datatype Request = Request(modules: seq<RequestModule>, stacktraces: seq<string>, sources: seq<Json>)

  datatype Partition = Partition(
    key: string,
    pairId: Option<string>,
    moduleIndexes: seq<nat>,
    capturedModules: seq<InspectModule>,
    architecture: string,
    frameRefs: seq<FrameRef>,
    sourceIds: set<string>,
    request: Request)

  datatype Plan = Plan(partitions: seq<Partition>, blockedModules: seq<nat>)

  datatype PlanInputs = PlanInputs(
    report: InspectReport,
    unwind: UnwindReport,
    selections: seq<FrozenSelection>,
    root: string,
    publicSources: seq<Json>,
    parse: UrlParser)

  // ----- what the planner accepts -----

  function SourceId(source: Json): string {
    GetOr(GetStr(source, "id"), "")
  }

  function SourceUrl(source: Json): string {
    GetOr(GetStr(source, "url"), "")
  }

  predicate PublicSourceOk(parse: UrlParser, source: Json) {
    && SourceId(source) != "" && !(PAIR_PREFIX <= SourceId(source))
    && GetStr(source, "type") == Some("http")
    && SafeUrl(parse, SourceUrl(source))
  }

  ghost predicate PublicSourcesOk(parse: UrlParser, sources: seq<Json>) {
    && (forall i | 0 <= i < |sources| :: PublicSourceOk(parse, sources[i]))
    && (forall i, j | 0 <= i < j < |sources| :: SourceId(sources[i]) != SourceId(sources[j]))
  }

  function ModuleExtent(m: InspectModule): Option<Extent> {
    var base :- AddressText(m.imageBase);
    if base + m.imageSize < U64_BOUND then Some(Extent(base, m.imageSize)) else None
  }

  predicate AddressesOk(modules: seq<InspectModule>) {
    forall i | 0 <= i < |modules| :: ModuleExtent(modules[i]).Some?
  }

  /** The extent of a module; one without a readable address occupies nothing. */
  function ExtentOf(m: InspectModule): Extent {
    match ModuleExtent(m)
    case Some(e) => e
    case None => Extent(0, 0)
  }

  function Extents(modules: seq<InspectModule>): seq<Extent> {
    seq(|modules|, i requires 0 <= i < |modules| => ExtentOf(modules[i]))
  }

  predicate IsPublicKey(key: string) {
    "public:" <= key
  }

  function PublicKey(i: nat): string {
    "public:" + Numeral(i, Decimal)
  }

  /** The partition a module belongs to: its pair, itself when public sources may serve it, or none. */
  function KeyOf(p: PlanInputs, i: nat): Option<string>
    requires i < |p.selections|
  {
    match p.selections[i].state
    case UniqueState => p.selections[i].selectedPairId
    case NoneState => if p.publicSources != [] then Some(PublicKey(i)) else None
    case _ => None
  }

  function Members(p: PlanInputs, key: string, n: nat): (r: seq<nat>)
    requires n <= |p.selections|
    ensures forall i: nat :: i in r <==> i < n && KeyOf(p, i) == Some(key)
    ensures forall a, b | 0 <= a < b < |r| :: r[a] < r[b]
  {
    if n == 0 then []
    else if KeyOf(p, n - 1) == Some(key) then
      var init := Members(p, key, n - 1);
      assert forall a | 0 <= a < |init| :: init[a] in init;
      init + [n - 1]
    else Members(p, key, n - 1)
  }

  predicate SameContent(a: ModuleIdentity, b: ModuleIdentity) {
    a.codeId == b.codeId && (a.debugId.None? || b.debugId.None? || a.debugId == b.debugId)
  }

  /** Module `i` does not contradict the first module of its partition. */
  predicate AgreesWithFirst(p: PlanInputs, i: nat)
    requires i < |p.selections|
  {
    match KeyOf(p, i)
    case None => true
    case Some(key) =>
      var earlier := Members(p, key, i);
      earlier == [] || (assert earlier[0] in earlier; SameContent(p.selections[earlier[0]].identity, p.selections[i].identity))
  }

  predicate SelectionOk(p: PlanInputs, i: nat)
    requires i < |p.selections| == |p.report.modules|
  {
    ValidSelection(p.selections[i], i, p.report.modules[i], p.report.process.architecture)
  }

  predicate ModuleOk(p: PlanInputs, i: nat)
    requires i < |p.selections| == |p.report.modules|
  {
    && SelectionOk(p, i)
    && ModuleExtent(p.report.modules[i]).Some?
    && (p.selections[i].state.UniqueState? ==> SafeUrl(p.parse, p.root))
    && AgreesWithFirst(p, i)
  }

  /** The inputs for which there is a plan. */
  ghost predicate Plannable(p: PlanInputs) {
    && |p.selections| == |p.report.modules|
    && ThreadsMatch(p.report, p.unwind)
    && PublicSourcesOk(p.parse, p.publicSources)
    && (forall i | 0 <= i < |p.selections| :: ModuleOk(p, i))
    && AddressesOk(p.report.modules)
    && PairwiseApart(Extents(p.report.modules))
  }

  // ----- what the plan is -----

  function Pick<T>(s: seq<T>, indexes: seq<nat>): seq<T>
    requires forall i | i in indexes :: i < |s|
  {
    seq(|indexes|, k requires 0 <= k < |indexes| => assert indexes[k] in indexes; s[indexes[k]])
  }

  function AsRequest(m: InspectModule): RequestModule {
    RequestModule(m.codeFile, m.codeId, m.debugFile, m.debugId, FormatHex(GetBase(m)), m.imageSize)
  }

  function GetBase(m: InspectModule): u64 {
    match AddressText(m.imageBase)
    case Some(base) => base
    case None => 0
  }

  function AsRequests(modules: seq<InspectModule>): seq<RequestModule> {
    seq(|modules|, k requires 0 <= k < |modules| => AsRequest(modules[k]))
  }

  function AsStacks(refs: seq<FrameRef>): seq<string> {
    seq(|refs|, k requires 0 <= k < |refs| => FormatHex(refs[k].instruction))
  }

  /** The sources behind a key: the pair's own, or the deployment's public ones. */
  function SourcesFor(p: PlanInputs, key: string): seq<Json> {
    if IsPublicKey(key) then p.publicSources
    else
      match PairSource(p.parse, key, p.root)
      case Success(source) => [source]
      case Failure => []
  }

  function SourceIds(sources: seq<Json>): set<string> {
    set i | 0 <= i < |sources| :: SourceId(sources[i])
  }

  /** The partition of `key` over the first `n` modules, holding the references `refs`. */
  function GroupOf(p: PlanInputs, key: string, n: nat, refs: seq<FrameRef>): Partition
    requires n <= |p.selections| == |p.report.modules|
  {
    var indexes := Members(p, key, n);
    var captured := Pick(p.report.modules, indexes);
    var sources := SourcesFor(p, key);
    Partition(
      key, if IsPublicKey(key) then None else Some(key), indexes, captured, p.report.process.architecture, refs,
      SourceIds(sources), Request(AsRequests(captured), AsStacks(refs), sources))
  }

  function FrameAt(p: PlanInputs, t: nat, f: nat): UnwindFrame
    requires t < |p.unwind.threads| && f < |p.unwind.threads[t].frames|
  {
    p.unwind.threads[t].frames[f]
  }

  function ModuleAt(p: PlanInputs, pc: u64): (r: Option<nat>)
    ensures r.Some? ==> r.value < |p.report.modules|
  {
    FirstMatch(Extents(p.report.modules), pc)
  }

  /** The reference that a physical frame gives to the partition `key`, if it does. */
  function OneRef(p: PlanInputs, key: string, t: nat, f: nat): seq<FrameRef>
    requires |p.selections| == |p.report.modules|
    requires t < |p.unwind.threads| && f < |p.unwind.threads[t].frames|
  {
    var pc := FrameAt(p, t, f).instruction;
    match ModuleAt(p, pc)
    case None => []
    case Some(m) => if KeyOf(p, m) == Some(key) then [FrameRef(t, f, m, pc)] else []
  }

  predicate Position(p: PlanInputs, t: nat, f: nat) {
    (t == |p.unwind.threads| && f == 0) || (t < |p.unwind.threads| && f <= |p.unwind.threads[t].frames|)
  }

  /** The references to `key` from all frames before frame `f` of thread `t`, in stack order. */
  function Refs(p: PlanInputs, key: string, t: nat, f: nat): seq<FrameRef>
    requires |p.selections| == |p.report.modules|
    requires Position(p, t, f)
    decreases t, f
  {
    if f > 0 then Refs(p, key, t, f - 1) + OneRef(p, key, t, f - 1)
    else if t > 0 then Refs(p, key, t - 1, |p.unwind.threads[t - 1].frames|)
    else []
  }

  function AllRefs(p: PlanInputs, key: string): seq<FrameRef>
    requires |p.selections| == |p.report.modules|
  {
    Refs(p, key, |p.unwind.threads|, 0)
  }

  ghost predicate IsKey(p: PlanInputs, key: string, n: nat)
    requires n <= |p.selections|
  {
    exists i: nat | i < n :: KeyOf(p, i) == Some(key)
  }

  function Blocked(p: PlanInputs, n: nat): seq<nat>
    requires n <= |p.selections|
  {
    if n == 0 then []
    else if KeyOf(p, n - 1).None? then Blocked(p, n - 1) + [n - 1]
    else Blocked(p, n - 1)
  }

  function PartitionKeys(parts: seq<Partition>): seq<string> {
    seq(|parts|, i requires 0 <= i < |parts| => parts[i].key)
  }

  /** The plan: every key with references has one partition, in key order; the rest is fixed by the key. */
  ghost predicate IsPlan(p: PlanInputs, plan: Plan) {
    && Plannable(p)
    && plan.blockedModules == Blocked(p, |p.selections|)
    && SortedUnique(PartitionKeys(plan.partitions))
    && (forall i | 0 <= i < |plan.partitions| ::
          var part := plan.partitions[i];
          && IsKey(p, part.key, |p.selections|)
          && part == GroupOf(p, part.key, |p.selections|, AllRefs(p, part.key))
          && part.frameRefs != [])
    && (forall key | IsKey(p, key, |p.selections|) && AllRefs(p, key) != [] ::
          exists i | 0 <= i < |plan.partitions| :: plan.partitions[i].key == key)
  }

  // ----- the planner -----

  method CheckPublicSources(parse: UrlParser, sources: seq<Json>) returns (ok: bool)
    ensures ok <==> PublicSourcesOk(parse, sources)
  {
    hide PublicSourceOk, SourceId;
    var ids: set<string> := {};
    for i := 0 to |sources|
      invariant forall j | 0 <= j < i :: PublicSourceOk(parse, sources[j])
      invariant forall j, k | 0 <= j < k < i :: SourceId(sources[j]) != SourceId(sources[k])
      invariant forall id :: id in ids <==> exists j | 0 <= j < i :: SourceId(sources[j]) == id
    {
      var id := SourceId(sources[i]);
      if !PublicSourceOk(parse, sources[i]) || id in ids {
        return false;
      }
      ids := ids + {id};
    }
    ok := true;
  }

  /** The first `n` modules are acceptable. */
  predicate FirstOk(p: PlanInputs, n: nat)
    requires n <= |p.selections| == |p.report.modules|
  {
    n == 0 || (FirstOk(p, n - 1) && ModuleOk(p, n - 1))
  }

  lemma {:induction false} FirstOkIsAll(p: PlanInputs, n: nat)
    requires n <= |p.selections| == |p.report.modules|
    ensures FirstOk(p, n) <==> forall i | 0 <= i < n :: ModuleOk(p, i)
  {
    hide ModuleOk;
    if n > 0 {
      FirstOkIsAll(p, n - 1);
    }
  }

  lemma NotFirstOk(p: PlanInputs, i: nat)
    requires i < |p.selections| == |p.report.modules| && !ModuleOk(p, i)
    ensures !FirstOk(p, |p.selections|)
  {
    FirstOkIsAll(p, |p.selections|);
  }

  lemma HashIsNotPublic(key: string)
    requires IsHash(key)
    ensures !IsPublicKey(key)
  {
    assert IsLowerHex(key[0]) && "public:"[0] == 'p';
  }

  /** A key tells private from public, and which selections may hold it. */
  lemma KeyShape(p: PlanInputs, i: nat)
    requires i < |p.selections| == |p.report.modules| && SelectionOk(p, i)
    ensures p.selections[i].state.UniqueState? ==>
              var key := KeyOf(p, i);
              key.Some? && IsHash(key.value) && !IsPublicKey(key.value) && p.selections[i].selectedPairId == key
    ensures KeyOf(p, i).Some? && IsPublicKey(KeyOf(p, i).value) ==>
              p.selections[i].state.NoneState? && KeyOf(p, i).value == PublicKey(i) && p.publicSources != []
    ensures KeyOf(p, i).Some? ==> p.selections[i].state.UniqueState? || p.selections[i].state.NoneState?
    ensures KeyOf(p, i).None? ==> AgreesWithFirst(p, i) && !p.selections[i].state.UniqueState?
  {
    if p.selections[i].state.UniqueState? {
      assert IsHash(p.selections[i].candidatePairIds[0]);
      HashIsNotPublic(p.selections[i].candidatePairIds[0]);
    }
  }

  ghost predicate GroupedModules(p: PlanInputs, groups: map<string, Partition>, n: nat)
    requires n <= |p.selections| == |p.report.modules|
  {
    && (forall key :: key in groups <==> IsKey(p, key, n))
    && (forall key | key in groups :: groups[key] == GroupOf(p, key, n, []))
  }

  ghost predicate GroupedFrames(p: PlanInputs, groups: map<string, Partition>, t: nat, f: nat)
    requires |p.selections| == |p.report.modules|
    requires Position(p, t, f)
  {
    && (forall key :: key in groups <==> IsKey(p, key, |p.selections|))
    && (forall key | key in groups :: groups[key] == GroupOf(p, key, |p.selections|, Refs(p, key, t, f)))
  }

  lemma OneMoreMember(p: PlanInputs, key: string, i: nat)
    requires i < |p.selections| == |p.report.modules| && KeyOf(p, i) == Some(key)
    ensures var g, m := GroupOf(p, key, i, []), p.report.modules[i];
            GroupOf(p, key, i + 1, []) ==
            g.(moduleIndexes := g.moduleIndexes + [i],
               capturedModules := g.capturedModules + [m],
               request := g.request.(modules := g.request.modules + [AsRequest(m)]))
  {
    var g, h := GroupOf(p, key, i, []), GroupOf(p, key, i + 1, []);
    assert h.moduleIndexes == g.moduleIndexes + [i];
    assert h.capturedModules == g.capturedModules + [p.report.modules[i]];
    assert h.request.modules == g.request.modules + [AsRequest(p.report.modules[i])];
  }

  lemma NewGroup(p: PlanInputs, key: string, i: nat)
    requires i <= |p.selections| == |p.report.modules| && !IsKey(p, key, i)
    ensures Members(p, key, i) == []
  {
    forall m | m in Members(p, key, i)
      ensures false
    {
    }
  }

  /** Module `i` joins the group of its key, which it opens when it is the first. */
  method JoinGroup(p: PlanInputs, i: nat, key: string, groups: map<string, Partition>)
    returns (ok: bool, joined: map<string, Partition>)
    requires i < |p.selections| == |p.report.modules| && KeyOf(p, i) == Some(key)
    requires FirstOk(p, i) && SelectionOk(p, i)
    requires GroupedModules(p, groups, i)
    ensures ok <==> (p.selections[i].state.UniqueState? ==> SafeUrl(p.parse, p.root)) && AgreesWithFirst(p, i)
    ensures ok ==> GroupedModules(p, joined, i + 1)
  {
    ok, joined := true, groups;
    var m := p.report.modules[i];
    KeyShape(p, i);
    var sources := p.publicSources;
    if p.selections[i].state.UniqueState? {
      var source := PairSource(p.parse, key, p.root);
      if source.Failure? {
        ok := false;
        return;
      }
      sources := [source.value];
    } else {
      assert IsPublicKey(PublicKey(i));
    }
    if key !in groups {
      NewGroup(p, key, i);
    }
    var group := if key in groups then groups[key] else
      Partition(key, if p.selections[i].state.UniqueState? then Some(key) else None, [], [],
                p.report.process.architecture, [], SourceIds(sources), Request([], [], sources));
    assert group == GroupOf(p, key, i, []);
    if group.capturedModules != [] {
      assert group.moduleIndexes[0] in Members(p, key, i);
      var a := Captured(group.capturedModules[0], p.report.process.architecture);
      var b := Captured(m, p.report.process.architecture);
      FirstOkIsAll(p, i);
      assert ModuleOk(p, group.moduleIndexes[0]);
      if !SameContent(a.value, b.value) {
        ok := false;
        return;
      }
    }
    OneMoreMember(p, key, i);
    joined := groups[key := group.(
      moduleIndexes := group.moduleIndexes + [i],
      capturedModules := group.capturedModules + [m],
      request := group.request.(modules := group.request.modules + [AsRequest(m)]))];
    GroupStep(p, groups, joined, i);
  }

  /** The loop over the modules: groups without references, the range table and the blocked modules. */
  method GroupModules(p: PlanInputs)
    returns (ok: bool, groups: map<string, Partition>, ranges: seq<Range>, blocked: seq<nat>)
    requires |p.selections| == |p.report.modules|
    ensures ok <==> forall i | 0 <= i < |p.selections| :: ModuleOk(p, i)
    ensures ok ==> AddressesOk(p.report.modules) && ranges == Table(Extents(p.report.modules))
    ensures ok ==> GroupedModules(p, groups, |p.selections|) && blocked == Blocked(p, |p.selections|)
  {
    hide SelectionOk, AgreesWithFirst, GroupedModules, ModuleExtent, InsertRange;
    FirstOkIsAll(p, |p.selections|);
    ok, groups, ranges, blocked := true, map[], [], [];
    NothingGrouped(p);
    for i := 0 to |p.selections|
      invariant FirstOk(p, i)
      invariant ranges == SortedRanges(Extents(p.report.modules), i)
      invariant GroupedModules(p, groups, i) && blocked == Blocked(p, i)
      invariant ok
    {
      var m := p.report.modules[i];
      var extent := ModuleExtent(m);
      if !SelectionOk(p, i) || extent.None? {
        NotFirstOk(p, i);
        ok := false;
        return;
      }
      if extent.value.size > 0 {
        ranges := InsertRange(Range(extent.value.base, extent.value.base + extent.value.size, i), ranges);
      }
      assert Extents(p.report.modules)[i] == ExtentOf(m) == extent.value;
      KeyShape(p, i);
      match KeyOf(p, i) {
        case None =>
          blocked := blocked + [i];
          BlockedStep(p, groups, i);
        case Some(key) =>
          ok, groups := JoinGroup(p, i, key, groups);
          if !ok {
            NotFirstOk(p, i);
            return;
          }
      }
    }
    forall i | 0 <= i < |p.selections|
      ensures ModuleExtent(p.report.modules[i]).Some?
    {
      assert ModuleOk(p, i);
    }
  }

  lemma NothingGrouped(p: PlanInputs)
    requires |p.selections| == |p.report.modules|
    ensures GroupedModules(p, map[], 0)
  {
  }

  lemma OtherGroup(p: PlanInputs, key: string, i: nat)
    requires i < |p.selections| == |p.report.modules| && KeyOf(p, i) != Some(key)
    ensures GroupOf(p, key, i + 1, []) == GroupOf(p, key, i, [])
    ensures IsKey(p, key, i + 1) <==> IsKey(p, key, i)
  {
    assert Members(p, key, i + 1) == Members(p, key, i);
  }

  lemma BlockedStep(p: PlanInputs, groups: map<string, Partition>, i: nat)
    requires i < |p.selections| == |p.report.modules| && KeyOf(p, i).None?
    requires GroupedModules(p, groups, i)
    ensures GroupedModules(p, groups, i + 1)
  {
    forall key
      ensures IsKey(p, key, i) <==> IsKey(p, key, i + 1)
      ensures key in groups ==> groups[key] == GroupOf(p, key, i + 1, [])
    {
      OtherGroup(p, key, i);
    }
  }

  lemma GroupStep(p: PlanInputs, before: map<string, Partition>, after: map<string, Partition>, i: nat)
    requires i < |p.selections| == |p.report.modules| && KeyOf(p, i).Some?
    requires GroupedModules(p, before, i)
    requires after == before[KeyOf(p, i).value := GroupOf(p, KeyOf(p, i).value, i + 1, [])]
    ensures GroupedModules(p, after, i + 1)
  {
    forall key
      ensures key in after <==> IsKey(p, key, i + 1)
      ensures key in after ==> after[key] == GroupOf(p, key, i + 1, [])
    {
      if KeyOf(p, i) == Some(key) {
        assert IsKey(p, key, i + 1);
      } else {
        OtherGroup(p, key, i);
      }
    }
  }

  // ----- frames -----

  /** The frame refers to `key` only, or to nothing when `key` is none. */
  ghost predicate RefersTo(p: PlanInputs, t: nat, f: nat, key: Option<string>)
    requires |p.selections| == |p.report.modules|
    requires t < |p.unwind.threads| && f < |p.unwind.threads[t].frames|
  {
    forall k :: key != Some(k) ==> OneRef(p, k, t, f) == []
  }

  /** A frame outside every module, or in a blocked one, leaves all groups as they are. */
  lemma FrameSkipped(p: PlanInputs, groups: map<string, Partition>, t: nat, f: nat)
    requires |p.selections| == |p.report.modules|
    requires t < |p.unwind.threads| && f < |p.unwind.threads[t].frames|
    requires GroupedFrames(p, groups, t, f) && RefersTo(p, t, f, None)
    ensures GroupedFrames(p, groups, t, f + 1)
  {
    hide KeyOf, OneRef, GroupOf;
    forall key | key in groups
      ensures groups[key] == GroupOf(p, key, |p.selections|, Refs(p, key, t, f + 1))
    {
      assert Refs(p, key, t, f + 1) == Refs(p, key, t, f) + [] == Refs(p, key, t, f);
    }
  }

  lemma OneMoreRef(p: PlanInputs, key: string, refs: seq<FrameRef>, r: FrameRef)
    requires |p.selections| == |p.report.modules|
    ensures var g := GroupOf(p, key, |p.selections|, refs);
            GroupOf(p, key, |p.selections|, refs + [r]) ==
            g.(frameRefs := g.frameRefs + [r],
               request := g.request.(stacktraces := g.request.stacktraces + [FormatHex(r.instruction)]))
  {
    assert AsStacks(refs + [r]) == AsStacks(refs) + [FormatHex(r.instruction)];
  }

  lemma FrameAssigned(
    p: PlanInputs, before: map<string, Partition>, after: map<string, Partition>, t: nat, f: nat, key: string)
    requires |p.selections| == |p.report.modules|
    requires t < |p.unwind.threads| && f < |p.unwind.threads[t].frames|
    requires GroupedFrames(p, before, t, f) && key in before && RefersTo(p, t, f, Some(key))
    requires after == before[key := GroupOf(p, key, |p.selections|, Refs(p, key, t, f) + OneRef(p, key, t, f))]
    ensures GroupedFrames(p, after, t, f + 1)
  {
    hide KeyOf, OneRef, GroupOf;
    forall k | k in after
      ensures after[k] == GroupOf(p, k, |p.selections|, Refs(p, k, t, f + 1))
    {
      if k != key {
        assert Refs(p, k, t, f + 1) == Refs(p, k, t, f) + [] == Refs(p, k, t, f);
      }
    }
  }

  /** The group that holds a module is the group of the module's key. */
  lemma GroupOfModule(p: PlanInputs, groups: map<string, Partition>, t: nat, f: nat, m: nat, key: string)
    requires |p.selections| == |p.report.modules| && m < |p.selections|
    requires Position(p, t, f) && GroupedFrames(p, groups, t, f)
    ensures key in groups && m in groups[key].moduleIndexes <==> KeyOf(p, m) == Some(key)
  {
    hide KeyOf;
    if KeyOf(p, m) == Some(key) {
      assert IsKey(p, key, |p.selections|);
    }
  }

  /** After the last frame of a thread comes the first of the next. */
  lemma NextThread(p: PlanInputs, groups: map<string, Partition>, t: nat)
    requires |p.selections| == |p.report.modules|
    requires t < |p.unwind.threads| && GroupedFrames(p, groups, t, |p.unwind.threads[t].frames|)
    ensures GroupedFrames(p, groups, t + 1, 0)
  {
    forall key
      ensures Refs(p, key, t + 1, 0) == Refs(p, key, t, |p.unwind.threads[t].frames|)
    {
    }
  }

  /** One frame: a reference and a stacktrace for the group that holds its module, if there is one. */
  method AssignFrame(p: PlanInputs, grouped: map<string, Partition>, t: nat, f: nat, found: Option<nat>)
    returns (groups: map<string, Partition>)
    requires |p.selections| == |p.report.modules|
    requires t < |p.unwind.threads| && f < |p.unwind.threads[t].frames|
    requires GroupedFrames(p, grouped, t, f)
    requires found == ModuleAt(p, FrameAt(p, t, f).instruction)
    ensures GroupedFrames(p, groups, t, f + 1)
  {
    hide GroupedFrames, KeyOf, ModuleAt, GroupOf, Refs;
    groups := grouped;
    if found.None? {
      FrameSkipped(p, groups, t, f);
      return;
    }
    var m := found.value;
    forall key
      ensures key in groups && m in groups[key].moduleIndexes <==> KeyOf(p, m) == Some(key)
    {
      GroupOfModule(p, groups, t, f, m, key);
    }
    if key :| key in groups && m in groups[key].moduleIndexes {
      var g := groups[key];
      var pc := p.unwind.threads[t].frames[f].instruction;
      groups := groups[key := g.(
        frameRefs := g.frameRefs + [FrameRef(t, f, m, pc)],
        request := g.request.(stacktraces := g.request.stacktraces + [FormatHex(pc)]))];
      GroupedAt(p, grouped, t, f, key);
      OneMoreRef(p, key, Refs(p, key, t, f), FrameRef(t, f, m, pc));
      FrameAssigned(p, grouped, groups, t, f, key);
    } else {
      assert KeyOf(p, m).None?;
      FrameSkipped(p, groups, t, f);
    }
  }

  lemma GroupedAt(p: PlanInputs, groups: map<string, Partition>, t: nat, f: nat, key: string)
    requires |p.selections| == |p.report.modules|
    requires Position(p, t, f) && GroupedFrames(p, groups, t, f) && key in groups
    ensures groups[key] == GroupOf(p, key, |p.selections|, Refs(p, key, t, f))
  {
  }

  /** The loop over the stacks. */
  method AssignFrames(p: PlanInputs, grouped: map<string, Partition>, ranges: seq<Range>)
    returns (groups: map<string, Partition>)
    requires |p.selections| == |p.report.modules| && PairwiseApart(Extents(p.report.modules))
    requires GroupedFrames(p, grouped, 0, 0)
    requires ranges == Table(Extents(p.report.modules))
    ensures GroupedFrames(p, groups, |p.unwind.threads|, 0)
  {
    hide GroupedFrames;
    groups := grouped;
    for t := 0 to |p.unwind.threads|
      invariant GroupedFrames(p, groups, t, 0)
    {
      var frames := p.unwind.threads[t].frames;
      for f := 0 to |frames|
        invariant GroupedFrames(p, groups, t, f)
      {
        LookupUnique(Extents(p.report.modules), frames[f].instruction);
        groups := AssignFrame(p, groups, t, f, FindRange(ranges, frames[f].instruction));
      }
      NextThread(p, groups, t);
    }
  }

  /** The groups of the first `n` keys, without those that no frame refers to. */
  function Referenced(groups: map<string, Partition>, keys: seq<string>, n: nat): seq<Partition>
    requires n <= |keys| && forall i | 0 <= i < |keys| :: keys[i] in groups
  {
    if n == 0 then []
    else if groups[keys[n - 1]].frameRefs != [] then Referenced(groups, keys, n - 1) + [groups[keys[n - 1]]]
    else Referenced(groups, keys, n - 1)
  }

  lemma {:induction false} ReferencedInOrder(groups: map<string, Partition>, keys: seq<string>, n: nat)
    requires n <= |keys| && forall i | 0 <= i < |keys| :: keys[i] in groups
    requires forall key | key in groups :: groups[key].key == key
    requires SortedUnique(keys)
    ensures var parts := Referenced(groups, keys, n);
            && SortedUnique(PartitionKeys(parts))
            && (forall i | 0 <= i < |parts| ::
                  exists j | 0 <= j < n :: keys[j] == parts[i].key && groups[keys[j]] == parts[i] && parts[i].frameRefs != [])
            && (forall j | 0 <= j < n && groups[keys[j]].frameRefs != [] :: groups[keys[j]] in parts)
  {
    hide SortedUnique, LexLess;
    if n > 0 {
      ReferencedInOrder(groups, keys, n - 1);
      var init := Referenced(groups, keys, n - 1);
      if groups[keys[n - 1]].frameRefs != [] {
        if init != [] {
          var j :| 0 <= j < n - 1 && keys[j] == init[|init| - 1].key;
          SortedUniqueOrdered(keys, j, n - 1);
        }
        assert PartitionKeys(init + [groups[keys[n - 1]]]) == PartitionKeys(init) + [keys[n - 1]];
        SortedUniqueSnoc(PartitionKeys(init), keys[n - 1]);
      }
    } else {
      NothingToSort(groups, keys);
    }
  }

  lemma NothingToSort(groups: map<string, Partition>, keys: seq<string>)
    requires forall i | 0 <= i < |keys| :: keys[i] in groups
    ensures SortedUnique(PartitionKeys(Referenced(groups, keys, 0)))
  {
  }

  /** The groups in key order, without those that no frame refers to. */
  method CollectPartitions(groups: map<string, Partition>) returns (parts: seq<Partition>)
    requires forall key | key in groups :: groups[key].key == key
    ensures SortedUnique(PartitionKeys(parts))
    ensures forall part | part in parts :: part.key in groups && part == groups[part.key] && part.frameRefs != []
    ensures forall key | key in groups && groups[key].frameRefs != [] :: groups[key] in parts
  {
    hide SortedUnique, PartitionKeys;
    var keys := SortStrings(groups.Keys);
    assert forall i | 0 <= i < |keys| :: keys[i] in keys;
    parts := [];
    for n := 0 to |keys|
      invariant parts == Referenced(groups, keys, n)
    {
      if groups[keys[n]].frameRefs != [] {
        parts := parts + [groups[keys[n]]];
      }
    }
    ReferencedInOrder(groups, keys, |keys|);
    forall key | key in groups && groups[key].frameRefs != []
      ensures groups[key] in parts
    {
      var j :| 0 <= j < |keys| && keys[j] == key;
    }
  }

  /** `plan`: it succeeds exactly for plannable inputs, and then returns their plan. */
  method MakePlan(p: PlanInputs) returns (r: Result<Plan>)
    ensures r.Success? <==> Plannable(p)
    ensures r.Success? ==> IsPlan(p, r.value)
  {
    if |p.selections| != |p.report.modules| || !ThreadsMatch(p.report, p.unwind) {
      return Failure;
    }
    var sourcesOk := CheckPublicSources(p.parse, p.publicSources);
    if !sourcesOk {
      return Failure;
    }
    var ok, groups, ranges, blocked := GroupModules(p);
    if !ok {
      return Failure;
    }
    NeighboursDecide(Extents(p.report.modules));
    if !NoOverlap(ranges) {
      return Failure;
    }
    FirstFrame(p, groups);
    groups := AssignFrames(p, groups, ranges);
    KeysKept(p, groups);
    var parts := CollectPartitions(groups);
    r := Success(Plan(parts, blocked));
    PlanComplete(p, groups, r.value);
  }

  lemma FirstFrame(p: PlanInputs, groups: map<string, Partition>)
    requires |p.selections| == |p.report.modules| && GroupedModules(p, groups, |p.selections|)
    ensures GroupedFrames(p, groups, 0, 0)
  {
  }

  lemma KeysKept(p: PlanInputs, groups: map<string, Partition>)
    requires |p.selections| == |p.report.modules| && GroupedFrames(p, groups, |p.unwind.threads|, 0)
    ensures forall key | key in groups :: groups[key].key == key
  {
  }

  lemma PlanComplete(p: PlanInputs, groups: map<string, Partition>, plan: Plan)
    requires Plannable(p) && GroupedFrames(p, groups, |p.unwind.threads|, 0)
    requires plan.blockedModules == Blocked(p, |p.selections|) && SortedUnique(PartitionKeys(plan.partitions))
    requires forall part | part in plan.partitions ::
               part.key in groups && part == groups[part.key] && part.frameRefs != []
    requires forall key | key in groups && groups[key].frameRefs != [] :: groups[key] in plan.partitions
    ensures IsPlan(p, plan)
  {
    hide SortedUnique, Blocked, KeyOf, Members, SourcesFor;
    forall i | 0 <= i < |plan.partitions|
      ensures plan.partitions[i] in plan.partitions
    {
    }
    forall key | IsKey(p, key, |p.selections|) && AllRefs(p, key) != []
      ensures exists i | 0 <= i < |plan.partitions| :: plan.partitions[i].key == key
    {
      assert groups[key] in plan.partitions;
    }
  }
}
