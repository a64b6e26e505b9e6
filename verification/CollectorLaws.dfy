/** What every accepted reply guarantees, however the engine wrote it. */
module CollectorLaws {
  import opened Basics
  import opened Text
  import opened Json
  import opened Evidence
  import Layout
  import opened Planner
  import opened Collector

  // ----- outcomes -----

  /** Outcomes that a partition may report about a module. */
  ghost predicate Reportable(part: Partition, diagnostic: ObjectRef, outcomes: seq<SourceOutcome>) {
    && OneOutcomePerStage(outcomes)
    && forall o | o in outcomes ::
         ValidOutcome(o) && o.diagnosticRef == Some(diagnostic) && o.sourceId in part.sourceIds
         && (IsDownloadStage(o.stage) || o.stage.Symbolicate?)
  }

  ghost predicate NamedSources(part: Partition) {
    "" !in part.sourceIds
  }

  lemma Append(a: seq<SourceOutcome>, b: seq<SourceOutcome>)
    requires OneOutcomePerStage(a) && OneOutcomePerStage(b)
    requires forall x, y | x in a && y in b :: x.sourceId != y.sourceId || x.stage != y.stage
    ensures OneOutcomePerStage(a + b)
  {
    var c := a + b;
    forall i, j | 0 <= i < j < |c|
      ensures c[i].sourceId != c[j].sourceId || c[i].stage != c[j].stage
    {
      if i < |a| <= j {
        assert a[i] in a && b[j - |a|] in b;
      }
    }
  }

  lemma StageOutcomeValid(cs: seq<Consulted>, source: string, stage: Stage, diagnostic: ObjectRef)
    requires source != "" && ValidRef(diagnostic) && IsDownloadStage(stage)
    ensures var r := StageOutcome(cs, source, stage, diagnostic);
            |r| <= 1 && forall o | o in r ::
              ValidOutcome(o) && o.diagnosticRef == Some(diagnostic) && o.sourceId == source && o.stage == stage
  {
    hide Statuses, ValidRef;
  }

  lemma {:induction false} DownloadsValid(
    part: Partition, cs: seq<Consulted>, ids: seq<string>, n: nat, diagnostic: ObjectRef)
    requires n <= |ids| && Distinct(ids) && ValidRef(diagnostic)
    requires forall id | id in ids :: id in part.sourceIds && id != ""
    ensures Reportable(part, diagnostic, Downloads(cs, ids, n, diagnostic))
    ensures forall o | o in Downloads(cs, ids, n, diagnostic) :: IsDownloadStage(o.stage) && o.sourceId in ids[..n]
  {
    hide StageOutcome, ValidOutcome, ValidRef, OneOutcomePerStage;
    if n > 0 {
      var id := ids[n - 1];
      assert id in ids;
      DownloadsValid(part, cs, ids, n - 1, diagnostic);
      var init := Downloads(cs, ids, n - 1, diagnostic);
      var pdb := StageOutcome(cs, id, DownloadPdb, diagnostic);
      var pe := StageOutcome(cs, id, DownloadPe, diagnostic);
      StageOutcomeValid(cs, id, DownloadPdb, diagnostic);
      StageOutcomeValid(cs, id, DownloadPe, diagnostic);
      AtMostOne(pdb);
      AtMostOne(pe);
      assert id !in ids[..n - 1];
      Append(init, pdb);
      Append(init + pdb, pe);
      assert ids[..n] == ids[..n - 1] + [id];
    } else {
      AtMostOne([]);
    }
  }

  lemma AtMostOne(outcomes: seq<SourceOutcome>)
    requires |outcomes| <= 1
    ensures OneOutcomePerStage(outcomes)
  {
  }

  /** A failed download blames a class that a failed symbolication may carry too. */
  lemma {:induction false} PdbFailureClass(downloads: seq<SourceOutcome>, source: string)
    requires forall o | o in downloads :: ValidOutcome(o)
    ensures var f := PdbFailure(downloads, source); f.Transient? || f.Permanent? || f.UnknownFailure?
  {
    if downloads != [] {
      assert downloads[0] in downloads;
      PdbFailureClass(downloads[1..], source);
    }
  }

  lemma UnresolvedOutcomeValid(
    downloads: seq<SourceOutcome>, source: string, debugStatus: string, diagnostic: ObjectRef)
    requires source != "" && ValidRef(diagnostic) && forall o | o in downloads :: ValidOutcome(o)
    ensures var o := UnresolvedOutcome(downloads, source, debugStatus, diagnostic);
            ValidOutcome(o) && o.diagnosticRef == Some(diagnostic) && o.sourceId == source && o.stage.Symbolicate?
  {
    hide ValidRef;
    PdbFailureClass(downloads, source);
    assert ("module_" + debugStatus + "_or_source_ownership_incomplete")[0] == 'm';
  }

  lemma {:induction false} UnresolvedValid(
    part: Partition, downloads: seq<SourceOutcome>, ids: seq<string>, n: nat, debugStatus: string,
    diagnostic: ObjectRef)
    requires n <= |ids| && Distinct(ids) && ValidRef(diagnostic)
    requires forall o | o in downloads :: ValidOutcome(o)
    requires forall id | id in ids :: id in part.sourceIds && id != ""
    ensures Reportable(part, diagnostic, Unresolved(downloads, ids, n, debugStatus, diagnostic))
    ensures forall o | o in Unresolved(downloads, ids, n, debugStatus, diagnostic) :: o.stage.Symbolicate? && o.sourceId in ids[..n]
  {
    hide UnresolvedOutcome, ValidOutcome, ValidRef, OneOutcomePerStage;
    if n > 0 {
      var id := ids[n - 1];
      assert id in ids;
      UnresolvedValid(part, downloads, ids, n - 1, debugStatus, diagnostic);
      UnresolvedOutcomeValid(downloads, id, debugStatus, diagnostic);
      var last := [UnresolvedOutcome(downloads, id, debugStatus, diagnostic)];
      AtMostOne(last);
      assert id !in ids[..n - 1];
      Append(Unresolved(downloads, ids, n - 1, debugStatus, diagnostic), last);
      assert ids[..n] == ids[..n - 1] + [id];
    } else {
      AtMostOne([]);
    }
  }

  lemma ResolvedValid(owner: string, diagnostic: ObjectRef)
    requires owner != "" && ValidRef(diagnostic)
    ensures ValidOutcome(ResolvedOutcome(owner, diagnostic))
  {
    hide ValidRef;
  }

  lemma {:induction false} ConsultedOwners(part: Partition, parse: UrlParser, candidates: seq<Json>, n: nat)
    requires n <= |candidates| && ConsultAll(part, parse, candidates, n).Success?
    ensures PdbOwners(ConsultAll(part, parse, candidates, n).value) <= part.sourceIds
  {
    hide Consult;
    var cs := ConsultAll(part, parse, candidates, n).value;
    forall x | x in PdbOwners(cs)
      ensures x in part.sourceIds
    {
      var i :| 0 <= i < |cs| && cs[i].ownsPdb && cs[i].source == x;
      assert cs[i] in cs;
    }
  }

  /** Whatever an accepted module entry says, its outcomes are reportable, and an owner is backed by a success. */
  lemma JudgedModule(part: Partition, parse: UrlParser, expected: InspectModule, returned: Json, diagnostic: ObjectRef)
    requires NamedSources(part) && ValidRef(diagnostic)
    requires JudgeModule(part, parse, expected, returned, diagnostic).Success?
    ensures var j := JudgeModule(part, parse, expected, returned, diagnostic).value;
            && Reportable(part, diagnostic, j.outcomes)
            && (j.owner.Some? ==> ResolvedOutcome(j.owner.value, diagnostic) in j.outcomes)
  {
    hide ModuleAccepted, ConsultAll, ValidRef, ValidOutcome, OneOutcomePerStage, Downloads, Unresolved, OwnerOf, PdbOwners;
    var candidates := GetArray(returned, "candidates").value;
    var cs := ConsultAll(part, parse, candidates, |candidates|).value;
    var ids := Ascending(part.sourceIds);
    SortedUniqueDistinct(ids);
    DownloadsValid(part, cs, ids, |ids|, diagnostic);
    ConsultedOwners(part, parse, candidates, |candidates|);
    var downloads := Downloads(cs, ids, |ids|, diagnostic);
    match OwnerOf(PdbOwners(cs), DebugStatus(returned)) {
      case Some(owner) =>
        ResolvedValid(owner, diagnostic);
        AtMostOne([ResolvedOutcome(owner, diagnostic)]);
        Append(downloads, [ResolvedOutcome(owner, diagnostic)]);
      case None =>
        UnresolvedValid(part, downloads, ids, |ids|, DebugStatus(returned), diagnostic);
        Append(downloads, Unresolved(downloads, ids, |ids|, DebugStatus(returned), diagnostic));
    }
  }

  // ----- candidates -----

  lemma {:induction false} ConsultedMembers(part: Partition, parse: UrlParser, candidates: seq<Json>, n: nat)
    requires n <= |candidates|
    ensures ConsultAll(part, parse, candidates, n).Failure? <==>
              exists i | 0 <= i < n :: Consult(part, parse, candidates[i]).Failure?
    ensures ConsultAll(part, parse, candidates, n).Success? ==>
              forall c :: c in ConsultAll(part, parse, candidates, n).value <==>
                          exists i | 0 <= i < n :: Consult(part, parse, candidates[i]) == Success(c)
  {
    hide Consult;
    if n > 0 {
      ConsultedMembers(part, parse, candidates, n - 1);
    }
  }

  lemma {:induction false} StatusMembers(cs: seq<Consulted>, source: string, stage: Stage)
    ensures forall s :: s in Statuses(cs, source, stage) <==>
                        exists c :: c in cs && c.source == source && c.stage == stage && c.status == s
  {
    if cs != [] {
      var init, last := cs[..|cs| - 1], cs[|cs| - 1];
      StatusMembers(init, source, stage);
      assert cs == init + [last];
      forall s
        ensures s in Statuses(cs, source, stage) <==>
                exists c :: c in cs && c.source == source && c.stage == stage && c.status == s
      {
        assert s in Statuses(cs, source, stage) <==>
               s in Statuses(init, source, stage) || (last.source == source && last.stage == stage && last.status == s);
      }
    }
  }

  lemma SameVerdict(x: seq<string>, y: seq<string>)
    requires forall s :: s in x <==> s in y
    ensures Judge(x) == Judge(y)
    ensures x == [] <==> y == []
  {
    assert x != [] ==> x[0] in y;
    assert y != [] ==> y[0] in x;
  }

  lemma SameStageOutcome(cs: seq<Consulted>, ds: seq<Consulted>, source: string, stage: Stage, diagnostic: ObjectRef)
    requires forall c :: c in cs <==> c in ds
    ensures StageOutcome(cs, source, stage, diagnostic) == StageOutcome(ds, source, stage, diagnostic)
  {
    hide Statuses, Judge;
    StatusMembers(cs, source, stage);
    StatusMembers(ds, source, stage);
    SameVerdict(Statuses(cs, source, stage), Statuses(ds, source, stage));
  }

  lemma {:induction false} SameDownloads(
    cs: seq<Consulted>, ds: seq<Consulted>, ids: seq<string>, n: nat, diagnostic: ObjectRef)
    requires n <= |ids| && forall c :: c in cs <==> c in ds
    ensures Downloads(cs, ids, n, diagnostic) == Downloads(ds, ids, n, diagnostic)
  {
    hide StageOutcome;
    if n > 0 {
      SameDownloads(cs, ds, ids, n - 1, diagnostic);
      SameStageOutcome(cs, ds, ids[n - 1], DownloadPdb, diagnostic);
      SameStageOutcome(cs, ds, ids[n - 1], DownloadPe, diagnostic);
    }
  }

  lemma SameOwners(cs: seq<Consulted>, ds: seq<Consulted>)
    requires forall c :: c in cs <==> c in ds
    ensures PdbOwners(cs) == PdbOwners(ds)
  {
    forall x
      ensures x in PdbOwners(cs) <==> x in PdbOwners(ds)
    {
      if x in PdbOwners(cs) {
        var i :| 0 <= i < |cs| && cs[i].ownsPdb && cs[i].source == x;
        assert cs[i] in ds;
      }
      if x in PdbOwners(ds) {
        var i :| 0 <= i < |ds| && ds[i].ownsPdb && ds[i].source == x;
        assert ds[i] in cs;
      }
    }
  }

  lemma SameConsulted(part: Partition, parse: UrlParser, x: seq<Json>, y: seq<Json>)
    requires forall c :: c in x <==> c in y
    ensures ConsultAll(part, parse, x, |x|).Failure? <==> ConsultAll(part, parse, y, |y|).Failure?
    ensures ConsultAll(part, parse, x, |x|).Success? ==>
              forall c :: c in ConsultAll(part, parse, x, |x|).value <==> c in ConsultAll(part, parse, y, |y|).value
  {
    hide Consult, ConsultAll;
    ConsultedMembers(part, parse, x, |x|);
    ConsultedMembers(part, parse, y, |y|);
    assert forall i | 0 <= i < |x| :: x[i] in y;
    assert forall i | 0 <= i < |y| :: y[i] in x;
  }

  /** Neither the order of a module's candidates nor their repetition changes what is recorded about the module. */
  lemma CandidateOrderIrrelevant(
    part: Partition, parse: UrlParser, expected: InspectModule, returned: Json, x: seq<Json>, y: seq<Json>,
    diagnostic: ObjectRef)
    requires returned.Obj? && forall c :: c in x <==> c in y
    ensures JudgeModule(part, parse, expected, Obj(returned.members["candidates" := Arr(x)]), diagnostic) ==
            JudgeModule(part, parse, expected, Obj(returned.members["candidates" := Arr(y)]), diagnostic)
  {
    var a, b := Obj(returned.members["candidates" := Arr(x)]), Obj(returned.members["candidates" := Arr(y)]);
    SameModule(part, expected, returned, Arr(x), Arr(y));
    assert GetArray(a, "candidates") == Some(x) && GetArray(b, "candidates") == Some(y);
    hide ModuleAccepted, ConsultAll, Downloads, Unresolved, OwnerOf, PdbOwners;
    SameConsulted(part, parse, x, y);
    if ConsultAll(part, parse, x, |x|).Success? {
      var cs, ds := ConsultAll(part, parse, x, |x|).value, ConsultAll(part, parse, y, |y|).value;
      SameDownloads(cs, ds, Ascending(part.sourceIds), |Ascending(part.sourceIds)|, diagnostic);
      SameOwners(cs, ds);
    }
  }

  lemma SameModule(part: Partition, expected: InspectModule, returned: Json, x: Json, y: Json)
    requires returned.Obj?
    ensures var a, b := Obj(returned.members["candidates" := x]), Obj(returned.members["candidates" := y]);
            && ModuleAccepted(part, expected, a) == ModuleAccepted(part, expected, b)
            && DebugStatus(a) == DebugStatus(b)
  {
    hide Captured, Layout.Address, Layout.AddressText;
    var a, b := Obj(returned.members["candidates" := x]), Obj(returned.members["candidates" := y]);
    OtherField(returned, x, y, "type");
    OtherField(returned, x, y, "arch");
    OtherField(returned, x, y, "debug_status");
    OtherField(returned, x, y, "code_id");
    OtherField(returned, x, y, "debug_id");
    OtherField(returned, x, y, "image_addr");
    OtherField(returned, x, y, "image_size");
  }

  lemma OtherField(returned: Json, x: Json, y: Json, key: string)
    requires returned.Obj? && key != "candidates"
    ensures Get(Obj(returned.members["candidates" := x]), key) == Get(Obj(returned.members["candidates" := y]), key)
  {
  }

  // ----- packets -----

  /** A packet that answers one reference of the partition, on behalf of one of its sources. */
  ghost predicate Answers(part: Partition, packet: FrameSymbol, r: FrameRef) {
    && packet.threadIndex == r.threadIndex && packet.physicalIndex == r.physicalIndex
    && packet.moduleIndex == r.moduleIndex && packet.instruction == r.instruction
    && packet.pairId == part.pairId
    && (forall s | s in packet.symbol.inlines :: s.inlines == [])
  }

  /** The positions of the references that got a packet. */
  function Answered(part: Partition, owners: map<nat, string>, traces: seq<Json>, n: nat): (r: seq<nat>)
    requires n <= |traces| == |part.frameRefs|
    requires JudgeTraces(part, owners, traces, n).Success?
    ensures forall k | 0 <= k < |r| :: r[k] < n
  {
    if n == 0 then []
    else
      var init := Answered(part, owners, traces, n - 1);
      var r := part.frameRefs[n - 1];
      if JudgeTrace(part, r, OwnerAt(owners, r.moduleIndex), traces[n - 1]).value.Some? then init + [n - 1] else init
  }

  lemma {:induction false} PacketsAnswer(part: Partition, owners: map<nat, string>, traces: seq<Json>, n: nat)
    requires n <= |traces| == |part.frameRefs|
    requires JudgeTraces(part, owners, traces, n).Success?
    ensures var packets, at := JudgeTraces(part, owners, traces, n).value, Answered(part, owners, traces, n);
            && |packets| == |at|
            && (forall j, k | 0 <= j < k < |at| :: at[j] < at[k])
            && (forall k | 0 <= k < |packets| :: Answers(part, packets[k], part.frameRefs[at[k]]))
            && (forall k | 0 <= k < |packets| :: OwnerAt(owners, packets[k].moduleIndex) == Some(packets[k].sourceId))
  {
    hide Symbols, Unmixed;
    if n > 0 {
      PacketsAnswer(part, owners, traces, n - 1);
    }
  }

  // ----- the whole result -----

  /** What the merge and the assembler may rely on about the result of one partition. */
  ghost predicate Sound(part: Partition, diagnostic: ObjectRef, c: Collected) {
    && |c.modules| == |part.moduleIndexes|
    && (forall k | 0 <= k < |c.modules| ::
          c.modules[k].moduleIndex == part.moduleIndexes[k] && Reportable(part, diagnostic, c.modules[k].outcomes))
    && (exists at: seq<nat> :: Anchored(part, c.frames, at))
    && (forall packet | packet in c.frames :: Backed(c, diagnostic, packet))
  }

  /** The packets answer distinct references, in order. */
  ghost predicate Anchored(part: Partition, packets: seq<FrameSymbol>, at: seq<nat>) {
    && |packets| == |at|
    && (forall j, k | 0 <= j < k < |at| :: at[j] < at[k])
    && (forall k | 0 <= k < |packets| :: at[k] < |part.frameRefs| && Answers(part, packets[k], part.frameRefs[at[k]]))
  }

  /** The packet's module has a recorded success of the packet's own source. */
  ghost predicate Backed(c: Collected, diagnostic: ObjectRef, packet: FrameSymbol) {
    exists k | 0 <= k < |c.modules| ::
      c.modules[k].moduleIndex == packet.moduleIndex && ResolvedOutcome(packet.sourceId, diagnostic) in c.modules[k].outcomes
  }

  ghost predicate ModulesSound(part: Partition, diagnostic: ObjectRef, m: Modules, n: nat)
    requires n <= |part.moduleIndexes|
  {
    && |m.outcomes| == n
    && (forall k | 0 <= k < n ::
          m.outcomes[k].moduleIndex == part.moduleIndexes[k] && Reportable(part, diagnostic, m.outcomes[k].outcomes))
    && (forall i | i in m.owners ::
          exists k | 0 <= k < n ::
            part.moduleIndexes[k] == i && ResolvedOutcome(m.owners[i], diagnostic) in m.outcomes[k].outcomes)
  }

  lemma {:induction false} JudgedModules(
    part: Partition, parse: UrlParser, modules: seq<Json>, diagnostic: ObjectRef, n: nat)
    requires n <= |modules| == |part.moduleIndexes| == |part.capturedModules|
    requires Distinct(part.moduleIndexes) && NamedSources(part) && ValidRef(diagnostic)
    requires JudgeModules(part, parse, modules, diagnostic, n).Success?
    ensures ModulesSound(part, diagnostic, JudgeModules(part, parse, modules, diagnostic, n).value, n)
  {
    hide JudgeModule, Reportable, ResolvedOutcome, ValidRef;
    if n > 0 {
      JudgedModules(part, parse, modules, diagnostic, n - 1);
      JudgedModule(part, parse, part.capturedModules[n - 1], modules[n - 1], diagnostic);
      var init := JudgeModules(part, parse, modules, diagnostic, n - 1).value;
      var m := JudgeModules(part, parse, modules, diagnostic, n).value;
      assert forall k | 0 <= k < n - 1 :: m.outcomes[k] == init.outcomes[k];
      forall i | i in m.owners
        ensures exists k | 0 <= k < n ::
                  part.moduleIndexes[k] == i && ResolvedOutcome(m.owners[i], diagnostic) in m.outcomes[k].outcomes
      {
        if i == part.moduleIndexes[n - 1] {
          assert forall k | 0 <= k < n - 1 :: part.moduleIndexes[k] != i;
          assert m.outcomes[n - 1].moduleIndex == i;
        } else {
          var k :| 0 <= k < n - 1 && part.moduleIndexes[k] == i && ResolvedOutcome(init.owners[i], diagnostic) in init.outcomes[k].outcomes;
          assert m.outcomes[k] == init.outcomes[k];
        }
      }
    }
  }

  /** Every accepted reply yields a sound result. */
  lemma CollectedSound(part: Partition, parse: UrlParser, response: Json, diagnostic: ObjectRef)
    requires |part.moduleIndexes| == |part.capturedModules| && Distinct(part.moduleIndexes) && NamedSources(part)
    requires Collect(part, parse, response, diagnostic).Success?
    ensures Sound(part, diagnostic, Collect(part, parse, response, diagnostic).value)
  {
    hide JudgeModules, JudgeTraces, Reportable, ResolvedOutcome, ValidRef, Answers;
    var modules, traces := GetArray(response, "modules").value, GetArray(response, "stacktraces").value;
    var judged := JudgeModules(part, parse, modules, diagnostic, |modules|).value;
    var c := Collect(part, parse, response, diagnostic).value;
    JudgedModules(part, parse, modules, diagnostic, |modules|);
    PacketsAnswer(part, judged.owners, traces, |traces|);
    var at := Answered(part, judged.owners, traces, |traces|);
    assert Anchored(part, c.frames, at);
    forall packet | packet in c.frames
      ensures Backed(c, diagnostic, packet)
    {
      var j :| 0 <= j < |c.frames| && c.frames[j] == packet;
      assert OwnerAt(judged.owners, packet.moduleIndex) == Some(packet.sourceId);
    }
  }

  /** So does the absence of a reply, when the merge gives it a reason. */
  lemma UnavailableSound(part: Partition, reason: string, diagnostic: ObjectRef, attempted: bool)
    requires NamedSources(part) && ValidRef(diagnostic) && reason != ""
    ensures Sound(part, diagnostic, UnavailableResult(part, reason, diagnostic, attempted))
  {
    hide ValidRef;
    var outcomes := UnavailableOutcomes(part, reason, diagnostic, attempted);
    var ids := Ascending(part.sourceIds);
    SortedUniqueDistinct(ids);
    assert forall k | 0 <= k < |ids| :: outcomes[k].sourceId == ids[k] && ids[k] in ids;
    assert Reportable(part, diagnostic, outcomes);
    assert Anchored(part, [], []);
  }
}
