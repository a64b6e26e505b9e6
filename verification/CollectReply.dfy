/** The loops that check a reply, proved to compute what `Collector` specifies. */
module CollectReply {
  import opened Basics
  import opened Text
  import opened Json
  import opened Evidence
  import opened Planner
  import opened Collector

  lemma StatusesGrow(cs: seq<Consulted>, c: Consulted, source: string, stage: Stage)
    ensures Statuses(cs + [c], source, stage) ==
            if c.source == source && c.stage == stage then Statuses(cs, source, stage) + [c.status]
            else Statuses(cs, source, stage)
  {
    var more := cs + [c];
    assert more[..|more| - 1] == cs && more[|more| - 1] == c;
  }

  /** The download table holds the statuses of every source and stage that was consulted. */
  ghost predicate Tabulates(table: map<(string, Stage), seq<string>>, cs: seq<Consulted>) {
    && (forall source, stage :: (source, stage) in table <==> Statuses(cs, source, stage) != [])
    && (forall source, stage | (source, stage) in table :: table[(source, stage)] == Statuses(cs, source, stage))
  }

  lemma TableGrows(table: map<(string, Stage), seq<string>>, cs: seq<Consulted>, c: Consulted)
    requires Tabulates(table, cs)
    ensures var key := (c.source, c.stage);
            var earlier := if key in table then table[key] else [];
            Tabulates(table[key := earlier + [c.status]], cs + [c])
  {
    forall source, stage
      ensures Statuses(cs + [c], source, stage) ==
              if c.source == source && c.stage == stage then Statuses(cs, source, stage) + [c.status]
              else Statuses(cs, source, stage)
    {
      StatusesGrow(cs, c, source, stage);
    }
  }

  /** The loop over the candidates of a module. */
  method ConsultCandidates(part: Partition, parse: UrlParser, candidates: seq<Json>)
    returns (r: Result<map<(string, Stage), seq<string>>>, owners: set<string>)
    ensures r.Success? <==> ConsultAll(part, parse, candidates, |candidates|).Success?
    ensures r.Success? ==>
              var cs := ConsultAll(part, parse, candidates, |candidates|).value;
              Tabulates(r.value, cs) && owners == PdbOwners(cs)
  {
    hide Consult, Statuses;
    var table: map<(string, Stage), seq<string>> := map[];
    owners := {};
    ghost var cs: seq<Consulted> := [];
    NothingTabulated();
    for i := 0 to |candidates|
      invariant ConsultAll(part, parse, candidates, i) == Success(cs)
      invariant Tabulates(table, cs) && owners == PdbOwners(cs)
    {
      hide Tabulates;
      var consulted := Consult(part, parse, candidates[i]);
      if consulted.Failure? {
        ConsultFails(part, parse, candidates, i + 1);
        return Failure, owners;
      }
      var c := consulted.value;
      TableGrows(table, cs, c);
      OwnersGrow(cs, c);
      var key := (c.source, c.stage);
      table := table[key := (if key in table then table[key] else []) + [c.status]];
      if c.ownsPdb {
        owners := owners + {c.source};
      }
      cs := cs + [c];
    }
    r := Success(table);
  }

  lemma NothingTabulated()
    ensures Tabulates(map[], [])
  {
  }

  lemma OwnersGrow(cs: seq<Consulted>, c: Consulted)
    ensures PdbOwners(cs + [c]) == PdbOwners(cs) + (if c.ownsPdb then {c.source} else {})
  {
    forall x
      ensures x in PdbOwners(cs + [c]) <==> x in PdbOwners(cs) || (c.ownsPdb && x == c.source)
    {
      if x in PdbOwners(cs) {
        var i :| 0 <= i < |cs| && cs[i].ownsPdb && cs[i].source == x;
        assert (cs + [c])[i] == cs[i];
      }
      if c.ownsPdb && x == c.source {
        assert (cs + [c])[|cs|] == c;
      }
    }
  }

  lemma {:induction false} ConsultFails(part: Partition, parse: UrlParser, candidates: seq<Json>, i: nat)
    requires i <= |candidates| && ConsultAll(part, parse, candidates, i).Failure?
    ensures ConsultAll(part, parse, candidates, |candidates|).Failure?
    decreases |candidates| - i
  {
    hide Consult;
    if i < |candidates| {
      ConsultFails(part, parse, candidates, i + 1);
    }
  }

  lemma {:induction false} StatusesFrom(cs: seq<Consulted>, source: string, stage: Stage)
    ensures Statuses(cs, source, stage) != [] ==> exists c :: c in cs && c.source == source && c.stage == stage
  {
    if cs != [] {
      StatusesFrom(cs[..|cs| - 1], source, stage);
      assert cs == cs[..|cs| - 1] + [cs[|cs| - 1]];
    }
  }

  /** Only download stages of the partition's own sources are tabulated. */
  lemma TabulatedKeys(table: map<(string, Stage), seq<string>>, cs: seq<Consulted>, ids: set<string>)
    requires Tabulates(table, cs) && forall c | c in cs :: IsDownloadStage(c.stage) && c.source in ids
    ensures forall source, stage | (source, stage) in table :: source in ids && IsDownloadStage(stage)
  {
    forall source, stage | (source, stage) in table
      ensures source in ids && IsDownloadStage(stage)
    {
      StatusesFrom(cs, source, stage);
    }
  }

  /** What the table says about a source and stage. */
  function KeyOutcome(table: map<(string, Stage), seq<string>>, key: (string, Stage), diagnostic: ObjectRef): SourceOutcome
    requires key in table
  {
    var v := Judge(table[key]);
    SourceOutcome(key.0, key.1, v.outcome, v.failureClass, v.reason, Some(diagnostic))
  }

  function TableOutcome(
    table: map<(string, Stage), seq<string>>, source: string, stage: Stage, diagnostic: ObjectRef): seq<SourceOutcome>
  {
    if (source, stage) in table then [KeyOutcome(table, (source, stage), diagnostic)] else []
  }

  /** The outcomes of the first `n` sources are what the table says about them, every key once per source. */
  ghost predicate Cover(
    table: map<(string, Stage), seq<string>>, ids: seq<string>, n: nat, diagnostic: ObjectRef, outcomes: seq<SourceOutcome>)
    requires n <= |ids|
  {
    && (forall source, stage | (source, stage) in table && source in ids[..n] ::
          KeyOutcome(table, (source, stage), diagnostic) in outcomes)
    && (forall o | o in outcomes ::
          (o.sourceId, o.stage) in table && o == KeyOutcome(table, (o.sourceId, o.stage), diagnostic))
  }

  lemma CoverMore(
    table: map<(string, Stage), seq<string>>, ids: seq<string>, n: nat, diagnostic: ObjectRef, outcomes: seq<SourceOutcome>)
    requires n < |ids| && Cover(table, ids, n, diagnostic, outcomes)
    requires forall source, stage | (source, stage) in table :: IsDownloadStage(stage)
    ensures Cover(table, ids, n + 1, diagnostic,
                  outcomes + TableOutcome(table, ids[n], DownloadPdb, diagnostic)
                  + TableOutcome(table, ids[n], DownloadPe, diagnostic))
  {
    hide Judge;
  }

  /** The loop over the download table, source by source and the PDB before the PE: every key has its turn. */
  method ClassifyDownloads(
    table: map<(string, Stage), seq<string>>, ids: seq<string>, diagnostic: ObjectRef, ghost cs: seq<Consulted>)
    returns (outcomes: seq<SourceOutcome>)
    requires Tabulates(table, cs)
    requires forall source, stage | (source, stage) in table :: source in ids && IsDownloadStage(stage)
    ensures outcomes == Downloads(cs, ids, |ids|, diagnostic)
    ensures forall source, stage | (source, stage) in table :: KeyOutcome(table, (source, stage), diagnostic) in outcomes
    ensures forall o | o in outcomes ::
              (o.sourceId, o.stage) in table && o == KeyOutcome(table, (o.sourceId, o.stage), diagnostic)
  {
    hide Judge, Statuses;
    outcomes := [];
    assert Cover(table, ids, 0, diagnostic, outcomes);
    for n := 0 to |ids|
      invariant outcomes == Downloads(cs, ids, n, diagnostic)
      invariant Cover(table, ids, n, diagnostic, outcomes)
    {
      hide Cover;
      CoverMore(table, ids, n, diagnostic, outcomes);
      outcomes := outcomes + TableOutcome(table, ids[n], DownloadPdb, diagnostic);
      outcomes := outcomes + TableOutcome(table, ids[n], DownloadPe, diagnostic);
    }
    assert ids[..|ids|] == ids;
  }

  lemma SoleOwner(owners: set<string>, owner: string, debugStatus: string)
    requires owner in owners && |owners| == 1 && debugStatus == "found"
    ensures OwnerOf(owners, debugStatus) == Some(owner)
  {
    assert |owners - {owner}| == 0;
  }

  method CollectModule(
    part: Partition, parse: UrlParser, expected: InspectModule, returned: Json, diagnostic: ObjectRef)
    returns (r: Result<Judged>)
    ensures r == JudgeModule(part, parse, expected, returned, diagnostic)
  {
    hide ModuleAccepted, Downloads, Unresolved, ConsultAll, PdbOwners;
    if !ModuleAccepted(part, expected, returned) {
      return Failure;
    }
    var candidates := GetArray(returned, "candidates");
    if candidates.None? {
      return Failure;
    }
    var table, owners := ConsultCandidates(part, parse, candidates.value);
    if table.Failure? {
      return Failure;
    }
    ghost var cs := ConsultAll(part, parse, candidates.value, |candidates.value|).value;
    var ids := SortStrings(part.sourceIds);
    TabulatedKeys(table.value, cs, part.sourceIds);
    var downloads := ClassifyDownloads(table.value, ids, diagnostic, cs);
    if DebugStatus(returned) == "found" && |owners| == 1 {
      var owner :| owner in owners;
      SoleOwner(owners, owner, DebugStatus(returned));
      return Success(Judged(downloads + [ResolvedOutcome(owner, diagnostic)], Some(owner)));
    }
    var unresolved := CollectUnresolved(downloads, ids, DebugStatus(returned), diagnostic);
    r := Success(Judged(downloads + unresolved, None));
  }

  method CollectUnresolved(downloads: seq<SourceOutcome>, ids: seq<string>, debugStatus: string, diagnostic: ObjectRef)
    returns (outcomes: seq<SourceOutcome>)
    ensures outcomes == Unresolved(downloads, ids, |ids|, debugStatus, diagnostic)
  {
    hide UnresolvedOutcome;
    outcomes := [];
    for n := 0 to |ids|
      invariant outcomes == Unresolved(downloads, ids, n, debugStatus, diagnostic)
    {
      outcomes := outcomes + [UnresolvedOutcome(downloads, ids[n], debugStatus, diagnostic)];
    }
  }

  method CollectTrace(
    part: Partition, r: FrameRef, owner: Option<string>, trace: Json) returns (packet: Result<Option<FrameSymbol>>)
    ensures packet == JudgeTrace(part, r, owner, trace)
  {
    hide RecordAccepted, SymbolOf, IsSymbolicated, Unmixed;
    var records := GetArray(trace, "frames");
    if records.None? || !Unmixed(records.value) {
      return Failure;
    }
    var symbols: seq<Symbol> := [];
    for i := 0 to |records.value|
      invariant Symbols(part, r, records.value, i) == Success(symbols)
    {
      if !RecordAccepted(part, r, records.value[i]) {
        SymbolsFail(part, r, records.value, i + 1);
        return Failure;
      }
      if !IsSymbolicated(records.value[i]) {
        continue;
      }
      symbols := symbols + [SymbolOf(records.value[i])];
    }
    if owner.None? || symbols == [] {
      return Success(None);
    }
    var last := |symbols| - 1;
    packet := Success(Some(FrameSymbol(
      r.threadIndex, r.physicalIndex, r.moduleIndex, r.instruction, part.pairId, owner.value,
      symbols[last].(inlines := symbols[..last]))));
  }

  lemma {:induction false} SymbolsFail(part: Partition, r: FrameRef, records: seq<Json>, i: nat)
    requires i <= |records| && Symbols(part, r, records, i).Failure?
    ensures Symbols(part, r, records, |records|).Failure?
    decreases |records| - i
  {
    hide RecordAccepted, SymbolOf, IsSymbolicated;
    if i < |records| {
      SymbolsFail(part, r, records, i + 1);
    }
  }

  lemma {:induction false} ModulesFail(
    part: Partition, parse: UrlParser, modules: seq<Json>, diagnostic: ObjectRef, i: nat)
    requires i <= |modules| == |part.moduleIndexes| == |part.capturedModules|
    requires JudgeModules(part, parse, modules, diagnostic, i).Failure?
    ensures JudgeModules(part, parse, modules, diagnostic, |modules|).Failure?
    decreases |modules| - i
  {
    hide JudgeModule;
    if i < |modules| {
      ModulesFail(part, parse, modules, diagnostic, i + 1);
    }
  }

  lemma {:induction false} TracesFail(part: Partition, owners: map<nat, string>, traces: seq<Json>, i: nat)
    requires i <= |traces| == |part.frameRefs| && JudgeTraces(part, owners, traces, i).Failure?
    ensures JudgeTraces(part, owners, traces, |traces|).Failure?
    decreases |traces| - i
  {
    hide JudgeTrace;
    if i < |traces| {
      TracesFail(part, owners, traces, i + 1);
    }
  }

  /** `collect`: modules first, then traces. */
  method CollectResponse(
    part: Partition, parse: UrlParser, response: Json, diagnostic: ObjectRef) returns (r: Result<Collected>)
    requires |part.moduleIndexes| == |part.capturedModules|
    ensures r == Collect(part, parse, response, diagnostic)
  {
    hide JudgeModule, JudgeTrace, ValidRef;
    var modules, traces := GetArray(response, "modules"), GetArray(response, "stacktraces");
    if GetStr(response, "status") != Some("completed") || !ValidRef(diagnostic) || modules.None? || traces.None? {
      return Failure;
    }
    if |modules.value| != |part.moduleIndexes| || |traces.value| != |part.frameRefs| {
      return Failure;
    }
    var owners: map<nat, string>, outcomes: seq<ModuleOutcomes> := map[], [];
    for i := 0 to |modules.value|
      invariant JudgeModules(part, parse, modules.value, diagnostic, i) == Success(Modules(outcomes, owners))
    {
      var judged := CollectModule(part, parse, part.capturedModules[i], modules.value[i], diagnostic);
      if judged.Failure? {
        ModulesFail(part, parse, modules.value, diagnostic, i + 1);
        return Failure;
      }
      var index := part.moduleIndexes[i];
      if judged.value.owner.Some? {
        owners := owners[index := judged.value.owner.value];
      }
      outcomes := outcomes + [ModuleOutcomes(index, judged.value.outcomes)];
    }
    var frames: seq<FrameSymbol> := [];
    for i := 0 to |traces.value|
      invariant JudgeTraces(part, owners, traces.value, i) == Success(frames)
    {
      var reference := part.frameRefs[i];
      var packet := CollectTrace(part, reference, OwnerAt(owners, reference.moduleIndex), traces.value[i]);
      if packet.Failure? {
        TracesFail(part, owners, traces.value, i + 1);
        return Failure;
      }
      if packet.value.Some? {
        frames := frames + [packet.value.value];
      }
    }
    r := Success(Collected(frames, outcomes));
  }
}
