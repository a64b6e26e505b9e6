/** Checking an arbitrary reply against the partition that asked for it, and classifying what the sources did. */
module Collector {
  import opened Basics
  import opened Text
  import opened Json
  import opened Evidence
  import opened Layout
  import opened Planner

  datatype ModuleOutcomes = ModuleOutcomes(moduleIndex: nat, outcomes: seq<SourceOutcome>)

  datatype Collected = Collected(frames: seq<FrameSymbol>, modules: seq<ModuleOutcomes>)

  // ----- no reply -----

  function UnavailableOutcome(source: string, reason: string, diagnostic: ObjectRef, attempted: bool): SourceOutcome {
    SourceOutcome(source, Symbolicate, if attempted then Failed else Unknown,
                  if attempted then Transient else UnknownFailure, reason, Some(diagnostic))
  }

  ghost function UnavailableOutcomes(part: Partition, reason: string, diagnostic: ObjectRef, attempted: bool): seq<SourceOutcome> {
    var ids := Ascending(part.sourceIds);
    seq(|ids|, k requires 0 <= k < |ids| => UnavailableOutcome(ids[k], reason, diagnostic, attempted))
  }

  /** The result of a partition that got no reply: no symbols, and no claim that a PDB is missing. */
  ghost function UnavailableResult(part: Partition, reason: string, diagnostic: ObjectRef, attempted: bool): Collected {
    var outcomes := UnavailableOutcomes(part, reason, diagnostic, attempted);
    Collected([], seq(|part.moduleIndexes|, k requires 0 <= k < |part.moduleIndexes| =>
                       ModuleOutcomes(part.moduleIndexes[k], outcomes)))
  }

  method MakeUnavailable(part: Partition, reason: string, diagnostic: ObjectRef, attempted: bool) returns (r: Collected)
    ensures r == UnavailableResult(part, reason, diagnostic, attempted)
  {
    var ids := SortStrings(part.sourceIds);
    var outcomes := seq(|ids|, k requires 0 <= k < |ids| => UnavailableOutcome(ids[k], reason, diagnostic, attempted));
    r := Collected([], seq(|part.moduleIndexes|, k requires 0 <= k < |part.moduleIndexes| =>
                            ModuleOutcomes(part.moduleIndexes[k], outcomes)));
  }

  // ----- a returned module -----

  /** Statuses under which the engine had no debug file to read an architecture from. */
  predicate ExplainsUnknownArch(debugStatus: Option<string>) {
    debugStatus == Some("missing") || debugStatus == Some("fetching_failed")
    || debugStatus == Some("malformed") || debugStatus == Some("unsupported")
  }

  predicate ArchAccepted(part: Partition, returned: Json) {
    || part.architecture == "unknown"
    || (GetStr(returned, "arch") == Some("unknown") && ExplainsUnknownArch(GetStr(returned, "debug_status")))
    || GetStr(returned, "arch") == Some(part.architecture)
  }

  /** The identity that the reply claims for a module, read by the rules for captured ones. */
  function ClaimedIdentity(part: Partition, expected: InspectModule, returned: Json): Option<ModuleIdentity> {
    Captured(
      expected.(codeId := GetOr(GetStr(returned, "code_id"), ""), debugId := GetStr(returned, "debug_id")),
      part.architecture)
  }

  predicate ModuleAccepted(part: Partition, expected: InspectModule, returned: Json) {
    var own := Captured(expected, part.architecture);
    var claimed := ClaimedIdentity(part, expected, returned);
    && GetStr(returned, "type") == Some("pe")
    && ArchAccepted(part, returned)
    && own.Some? && claimed.Some?
    && own.value.codeId == claimed.value.codeId
    && (own.value.debugId.None? || own.value.debugId == claimed.value.debugId)
    && Address(Index(returned, "image_addr")).Some?
    && Address(Index(returned, "image_addr")) == AddressText(expected.imageBase)
    && GetU64(returned, "image_size") == Some(expected.imageSize)
  }

  // ----- the candidates of a module -----

  predicate IsDownloadStage(stage: Stage) {
    stage.DownloadPdb? || stage.DownloadPe?
  }

  /** What kind of file a candidate is, by the last part of its path. */
  function FileStage(leaf: string): Option<Stage> {
    if StartsWith(leaf, "debuginf") || EndsWith(leaf, ".pdb") || EndsWith(leaf, ".pd_") then Some(DownloadPdb)
    else if StartsWith(leaf, "executabl") || EndsWith(leaf, ".exe") || EndsWith(leaf, ".ex_")
            || EndsWith(leaf, ".dll") || EndsWith(leaf, ".dl_") then Some(DownloadPe)
    else None
  }

  function FindSource(sources: seq<Json>, id: string): Option<Json> {
    if sources == [] then None
    else if GetStr(sources[0], "id") == Some(id) then Some(sources[0])
    else FindSource(sources[1..], id)
  }

  function RawStatus(candidate: Json): string {
    GetOr(GetStr(Index(candidate, "download"), "status"), "unknown")
  }

  predicate IsTransientDetail(details: string) {
    || details == "download failed: 503 Service Unavailable"
    || details == "download failed: 429 Too Many Requests"
    || details == "download failed: 408 Request Timeout"
    || details == "download failed: 502 Bad Gateway"
    || details == "download failed: 504 Gateway Timeout"
  }

  /** The status of a download, refined by the exact error messages of the pinned engine. */
  function DownloadStatus(candidate: Json): string {
    var status := RawStatus(candidate);
    if status != "error" then status
    else
      match GetStr(Index(candidate, "download"), "details")
      case None => status
      case Some(details) =>
        if IsTransientDetail(details) then "transient_http"
        else if details == "download failed: 422 Unprocessable Entity" then "permanent_http"
        else status
  }

  /** One source consulted for one file of a module. */
  datatype Consulted = Consulted(source: string, stage: Stage, status: string, ownsPdb: bool)

  predicate UnderRoot(location: Url, root: Url) {
    location.origin == root.origin && StartsWith(location.path, TrimEndSlashes(root.path) + "/")
  }

  /** A candidate is admitted only from a source of the partition, below that source's own root. */
  function Consult(part: Partition, parse: UrlParser, candidate: Json): (r: Result<Consulted>)
    ensures r.Success? ==> IsDownloadStage(r.value.stage) && r.value.source in part.sourceIds
    ensures r.Success? && r.value.ownsPdb ==> r.value.stage.DownloadPdb?
  {
    var source := GetOr(GetStr(candidate, "source"), "");
    var location := parse(GetOr(GetStr(candidate, "location"), ""));
    var configured := FindSource(part.request.sources, source);
    if source !in part.sourceIds || location.None? || configured.None? then Failure
    else
      var rootText := SourceUrl(configured.value);
      var root := parse(rootText);
      if root.None? || !SafeUrl(parse, rootText) || !UnderRoot(location.value, root.value) then Failure
      else
        match FileStage(Lower(AfterLast(location.value.path, c => c == '/')))
        case None => Failure
        case Some(stage) =>
          Success(Consulted(
            source, stage, DownloadStatus(candidate),
            stage.DownloadPdb? && RawStatus(candidate) == "ok"
            && GetStr(Index(candidate, "debug"), "status") == Some("ok")))
  }

  function ConsultAll(part: Partition, parse: UrlParser, candidates: seq<Json>, n: nat): (r: Result<seq<Consulted>>)
    requires n <= |candidates|
    ensures r.Success? ==> forall c | c in r.value :: IsDownloadStage(c.stage) && c.source in part.sourceIds
  {
    if n == 0 then Success([])
    else
      var init :- ConsultAll(part, parse, candidates, n - 1);
      var last :- Consult(part, parse, candidates[n - 1]);
      Success(init + [last])
  }

  /** The statuses of all candidates of one source and stage, in reply order. */
  function Statuses(cs: seq<Consulted>, source: string, stage: Stage): seq<string> {
    if cs == [] then []
    else
      var init := Statuses(cs[..|cs| - 1], source, stage);
      var last := cs[|cs| - 1];
      if last.source == source && last.stage == stage then init + [last.status] else init
  }

  datatype Verdict = Verdict(outcome: Outcome, failureClass: FailureClass, reason: string)

  function Judge(statuses: seq<string>): Verdict {
    if "ok" in statuses then Verdict(Found, NoFailure, "downloaded")
    else if forall s | s in statuses :: s == "notfound" then Verdict(Missing, Permanent, "source_missing")
    else if "malformed" in statuses || "permanent_http" in statuses then Verdict(Failed, Permanent, "malformed")
    else if (forall s | s in statuses :: s == "notfound" || s == "transient_http") && "transient_http" in statuses then
      Verdict(Failed, Transient, "correlated_candidate_http_failure")
    else Verdict(Failed, UnknownFailure, "source_failure_without_correlated_cause")
  }

  function StageOutcome(cs: seq<Consulted>, source: string, stage: Stage, diagnostic: ObjectRef): seq<SourceOutcome> {
    var statuses := Statuses(cs, source, stage);
    if statuses == [] then []
    else
      var v := Judge(statuses);
      [SourceOutcome(source, stage, v.outcome, v.failureClass, v.reason, Some(diagnostic))]
  }

  /** The download outcomes of the first `n` sources: per source the PDB, then the PE. */
  function Downloads(cs: seq<Consulted>, ids: seq<string>, n: nat, diagnostic: ObjectRef): seq<SourceOutcome>
    requires n <= |ids|
  {
    if n == 0 then []
    else
      Downloads(cs, ids, n - 1, diagnostic)
      + StageOutcome(cs, ids[n - 1], DownloadPdb, diagnostic)
      + StageOutcome(cs, ids[n - 1], DownloadPe, diagnostic)
  }

  function PdbOwners(cs: seq<Consulted>): set<string> {
    set i | 0 <= i < |cs| && cs[i].ownsPdb :: cs[i].source
  }

  /** The one source that delivered the module's debug file, when the reply leaves no doubt about it. */
  ghost function OwnerOf(owners: set<string>, debugStatus: string): (r: Option<string>)
    ensures r.Some? ==> r.value in owners && |owners| == 1 && debugStatus == "found"
  {
    if debugStatus == "found" && |owners| == 1 then
      var owner :| owner in owners;
      Some(owner)
    else None
  }

  /** Why a source's PDB download failed, if it did. */
  function PdbFailure(downloads: seq<SourceOutcome>, source: string): FailureClass {
    if downloads == [] then UnknownFailure
    else if downloads[0].sourceId == source && downloads[0].stage.DownloadPdb? && downloads[0].outcome.Failed? then
      downloads[0].failureClass
    else PdbFailure(downloads[1..], source)
  }

  function UnresolvedOutcome(downloads: seq<SourceOutcome>, source: string, debugStatus: string, diagnostic: ObjectRef): SourceOutcome {
    var failure :=
      if debugStatus == "malformed" || debugStatus == "unsupported" then Permanent
      else if debugStatus == "fetching_failed" then PdbFailure(downloads, source)
      else UnknownFailure;
    SourceOutcome(source, Symbolicate, if failure.UnknownFailure? then Unknown else Failed, failure,
                  "module_" + debugStatus + "_or_source_ownership_incomplete", Some(diagnostic))
  }

  function Unresolved(
    downloads: seq<SourceOutcome>, ids: seq<string>, n: nat, debugStatus: string, diagnostic: ObjectRef): seq<SourceOutcome>
    requires n <= |ids|
  {
    if n == 0 then []
    else
      Unresolved(downloads, ids, n - 1, debugStatus, diagnostic)
      + [UnresolvedOutcome(downloads, ids[n - 1], debugStatus, diagnostic)]
  }

  function ResolvedOutcome(owner: string, diagnostic: ObjectRef): SourceOutcome {
    SourceOutcome(owner, Symbolicate, Found, NoFailure, "verified_partition_response", Some(diagnostic))
  }

  function DebugStatus(returned: Json): string {
    GetOr(GetStr(returned, "debug_status"), "unknown")
  }

  datatype Judged = Judged(outcomes: seq<SourceOutcome>, owner: Option<string>)

  /** Everything the reply establishes about one module. */
  ghost function JudgeModule(part: Partition, parse: UrlParser, expected: InspectModule, returned: Json, diagnostic: ObjectRef): Result<Judged> {
    if !ModuleAccepted(part, expected, returned) then Failure
    else
      match GetArray(returned, "candidates")
      case None => Failure
      case Some(candidates) =>
        var cs :- ConsultAll(part, parse, candidates, |candidates|);
        var ids := Ascending(part.sourceIds);
        var downloads := Downloads(cs, ids, |ids|, diagnostic);
        var owner := OwnerOf(PdbOwners(cs), DebugStatus(returned));
        Success(Judged(
          downloads + (match owner
                       case Some(source) => [ResolvedOutcome(source, diagnostic)]
                       case None => Unresolved(downloads, ids, |ids|, DebugStatus(returned), diagnostic)),
          owner))
  }

  // ----- a returned trace -----

  predicate IsSymbolicated(record: Json) {
    GetStr(record, "status") == Some("symbolicated")
  }

  predicate AnySymbolicated(records: seq<Json>) {
    exists i | 0 <= i < |records| :: IsSymbolicated(records[i])
  }

  predicate Unmixed(records: seq<Json>) {
    AnySymbolicated(records) ==> forall i | 0 <= i < |records| :: IsSymbolicated(records[i])
  }

  /** The captured module that a reference of the partition lies in. */
  function ModuleOf(part: Partition, moduleIndex: nat): Option<InspectModule> {
    CapturedAt(part.moduleIndexes, part.capturedModules, moduleIndex)
  }

  function CapturedAt(indexes: seq<nat>, modules: seq<InspectModule>, moduleIndex: nat): Option<InspectModule> {
    if indexes == [] || modules == [] then None
    else if indexes[0] == moduleIndex then Some(modules[0])
    else CapturedAt(indexes[1..], modules[1..], moduleIndex)
  }

  predicate PackageAccepted(part: Partition, r: FrameRef, record: Json) {
    match GetStr(record, "package")
    case None => true
    case Some(package) =>
      var m := ModuleOf(part, r.moduleIndex);
      m.Some? && LowerBasename(package) == LowerBasename(m.value.codeFile)
  }

  /** A record must belong to the single requested frame and to the captured module. */
  predicate RecordAccepted(part: Partition, r: FrameRef, record: Json) {
    && GetU64(record, "original_index") == Some(0)
    && Address(Index(record, "instruction_addr")) == Some(r.instruction)
    && PackageAccepted(part, r, record)
  }

  /** `get(first).or_else(get(second))`: the second field counts only when the first is absent. */
  function FirstField(record: Json, first: string, second: string): Option<string> {
    if Get(record, first).Some? then GetStr(record, first) else GetStr(record, second)
  }

  function SymbolOf(record: Json): Symbol {
    Symbol(FirstField(record, "function", "symbol"), FirstField(record, "abs_path", "filename"), GetU64(record, "lineno"), [])
  }

  /** The symbols of the records, unless one of the records is not acceptable. */
  function Symbols(part: Partition, r: FrameRef, records: seq<Json>, n: nat): (s: Result<seq<Symbol>>)
    requires n <= |records|
    ensures s.Success? ==> forall x | x in s.value :: x.inlines == []
    ensures s.Success? ==> |s.value| <= n
  {
    if n == 0 then Success([])
    else
      var init :- Symbols(part, r, records, n - 1);
      if !RecordAccepted(part, r, records[n - 1]) then Failure
      else if IsSymbolicated(records[n - 1]) then Success(init + [SymbolOf(records[n - 1])])
      else Success(init)
  }

  /** The symbol packet of a trace: the last record is the physical frame, those before it were inlined there. */
  function JudgeTrace(part: Partition, r: FrameRef, owner: Option<string>, trace: Json): Result<Option<FrameSymbol>> {
    match GetArray(trace, "frames")
    case None => Failure
    case Some(records) =>
      if !Unmixed(records) then Failure
      else
        var symbols :- Symbols(part, r, records, |records|);
        if owner.None? || symbols == [] then Success(None)
        else
          var last := |symbols| - 1;
          Success(Some(FrameSymbol(
            r.threadIndex, r.physicalIndex, r.moduleIndex, r.instruction, part.pairId, owner.value,
            symbols[last].(inlines := symbols[..last]))))
  }

  // ----- the whole reply -----

  datatype Modules = Modules(outcomes: seq<ModuleOutcomes>, owners: map<nat, string>)

  ghost function JudgeModules(
    part: Partition, parse: UrlParser, modules: seq<Json>, diagnostic: ObjectRef, n: nat): Result<Modules>
    requires n <= |modules| == |part.moduleIndexes| == |part.capturedModules|
  {
    if n == 0 then Success(Modules([], map[]))
    else
      var init :- JudgeModules(part, parse, modules, diagnostic, n - 1);
      var last :- JudgeModule(part, parse, part.capturedModules[n - 1], modules[n - 1], diagnostic);
      var index := part.moduleIndexes[n - 1];
      Success(Modules(
        init.outcomes + [ModuleOutcomes(index, last.outcomes)],
        if last.owner.Some? then init.owners[index := last.owner.value] else init.owners))
  }

  function OwnerAt(owners: map<nat, string>, moduleIndex: nat): Option<string> {
    if moduleIndex in owners then Some(owners[moduleIndex]) else None
  }

  function JudgeTraces(part: Partition, owners: map<nat, string>, traces: seq<Json>, n: nat): Result<seq<FrameSymbol>>
    requires n <= |traces| == |part.frameRefs|
  {
    if n == 0 then Success([])
    else
      var init :- JudgeTraces(part, owners, traces, n - 1);
      var r := part.frameRefs[n - 1];
      var last :- JudgeTrace(part, r, OwnerAt(owners, r.moduleIndex), traces[n - 1]);
      Success(if last.Some? then init + [last.value] else init)
  }

  /** What `collect` makes of a reply. */
  ghost function Collect(part: Partition, parse: UrlParser, response: Json, diagnostic: ObjectRef): Result<Collected>
    requires |part.moduleIndexes| == |part.capturedModules|
  {
    var modules, traces := GetArray(response, "modules"), GetArray(response, "stacktraces");
    if GetStr(response, "status") != Some("completed") || !ValidRef(diagnostic) || modules.None? || traces.None? then Failure
    else if |modules.value| != |part.moduleIndexes| || |traces.value| != |part.frameRefs| then Failure
    else
      var judged :- JudgeModules(part, parse, modules.value, diagnostic, |modules.value|);
      var frames :- JudgeTraces(part, judged.owners, traces.value, |traces.value|);
      Success(Collected(frames, judged.outcomes))
  }
}
