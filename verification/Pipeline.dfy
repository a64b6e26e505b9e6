/** The whole way from the bytes of a dump to its canonical result. */
module Pipeline {
  import opened Basics
  import opened Text
  import opened Json
  import opened Evidence
  import opened Layout
  import opened Planner
  import opened Assembler
  import opened AssemblerLaws
  import opened Composition
  import opened FrozenRun
  import Frames
  import Minidump
  import MinidumpLaws
  import PublicPe

  // ----- public sources -----

  function Texts(items: seq<Json>): seq<string>
    requires forall i | 0 <= i < |items| :: items[i].Str?
  {
    seq(|items|, i requires 0 <= i < |items| => items[i].s)
  }

  /** A filter list, if the source has one under this name, is ascending without repetition. */
  predicate FilterOk(source: Json, key: string) {
    match Get(Index(source, "filters"), key)
    case None => true
    case Some(v) => v.Arr? && (forall i | 0 <= i < |v.items| :: v.items[i].Str?) && SortedUnique(Texts(v.items))
  }

  predicate PlainText(text: string) {
    forall i | 0 <= i < |text| :: !Frames.IsWhite(text[i]) && text[i] != '\\'
  }

  /** The checks of `validate_sources` on one source. */
  predicate SourceFrozen(parse: UrlParser, source: Json) {
    && !(PAIR_PREFIX <= SourceId(source))
    && PlainText(SourceUrl(source)) && SafeUrl(parse, SourceUrl(source)) && parse(SourceUrl(source)).value.port != Some(0)
    && FilterOk(source, "filetypes") && FilterOk(source, "path_patterns")
  }

  predicate SourcesFrozen(parse: UrlParser, sources: seq<Json>) {
    SortedUnique(PublicIds(sources)) && forall i | 0 <= i < |sources| :: SourceFrozen(parse, sources[i])
  }

  method ValidateSources(parse: UrlParser, sources: seq<Json>) returns (ok: bool)
    ensures ok <==> SourcesFrozen(parse, sources)
  {
    hide SortedUnique, SourceFrozen;
    if !SortedUnique(PublicIds(sources)) {
      return false;
    }
    for i := 0 to |sources|
      invariant forall j | 0 <= j < i :: SourceFrozen(parse, sources[j])
    {
      if !SourceFrozen(parse, sources[i]) {
        return false;
      }
    }
    ok := true;
  }

  /** The planner never refuses a frozen source: its own checks of named HTTP sources follow from the verification. */
  lemma FrozenSourcesPlan(parse: UrlParser, sources: seq<Json>)
    requires SourcesFrozen(parse, sources) && NonEmptyEach(PublicIds(sources))
    requires forall i | 0 <= i < |sources| :: GetStr(sources[i], "type") == Some("http")
    ensures PublicSourcesOk(parse, sources)
  {
    hide SortedUnique, SafeUrl, PlainText, FilterOk, SourceId, SourceUrl;
    SortedUniqueDistinct(PublicIds(sources));
    forall i | 0 <= i < |sources|
      ensures PublicSourceOk(parse, sources[i])
    {
      assert SourceFrozen(parse, sources[i]);
      assert PublicIds(sources)[i] != "";
    }
    forall i, j | 0 <= i < j < |sources|
      ensures SourceId(sources[i]) != SourceId(sources[j])
    {
      assert PublicIds(sources)[i] != PublicIds(sources)[j];
    }
  }

  // ----- verification -----

  /** Selection and role of a captured module, as the frozen files give them: both speak of this very module. */
  predicate ModuleFrozen(v: VerifiedRun, i: nat)
    requires i < |v.inputs.selections| == |v.roles| == |v.inputs.report.modules|
  {
    && SelectionOk(v.inputs, i)
    && v.roles[i].moduleIndex == i && v.roles[i].identity == v.inputs.selections[i].identity
    && IsRole(v.roles[i].role) && v.roles[i].inApp == OwnRole(v.roles[i].role)
  }

  /** The frozen inspection is the native one, selections and roles cover it, and the public sources are acceptable. */
  ghost predicate Frozen(d: Minidump.Decoders, dump: Minidump.Bytes, v: VerifiedRun) {
    && Minidump.Inspected(d, dump) == Minidump.Ok(v.inputs.report)
    && |v.inputs.selections| == |v.roles| == |v.inputs.report.modules|
    && (forall i | 0 <= i < |v.roles| :: ModuleFrozen(v, i))
    && NonEmptyEach(PublicIds(v.inputs.publicSources)) && SourcesFrozen(v.inputs.parse, v.inputs.publicSources)
  }

  /** The part of `verify` that the rest of the run relies on. */
  method VerifyFrozen(d: Minidump.Decoders, dump: Minidump.Bytes, v: VerifiedRun) returns (ok: bool)
    ensures ok <==> Frozen(d, dump, v)
  {
    hide Minidump.Inspected, ModuleFrozen, SourcesFrozen, NonEmptyEach;
    var native := Minidump.InspectBytes(d, dump);
    if native != Minidump.Ok(v.inputs.report) {
      return false;
    }
    var sources := ValidateSources(v.inputs.parse, v.inputs.publicSources);
    if !sources || !NonEmptyEach(PublicIds(v.inputs.publicSources)) {
      return false;
    }
    if |v.inputs.selections| != |v.inputs.report.modules| || |v.roles| != |v.inputs.report.modules| {
      return false;
    }
    for i := 0 to |v.roles|
      invariant forall j | 0 <= j < i :: ModuleFrozen(v, j)
    {
      if !ModuleFrozen(v, i) {
        return false;
      }
    }
    ok := true;
  }

  /** Everything that the run relies on follows: native inspections print addresses that both readings understand. */
  lemma FrozenIsVerified(d: Minidump.Decoders, dump: Minidump.Bytes, v: VerifiedRun)
    requires Frozen(d, dump, v) && v.inputs.parse("").None?
    ensures Verified(v)
  {
    hide Minidump.Inspected, SelectionOk, IsRole, SortedUnique, SourceFrozen;
    MinidumpLaws.EveryReport(d, dump);
    forall i | 0 <= i < |v.roles|
      ensures SelectionOk(v.inputs, i) && IsRole(v.roles[i].role) && v.roles[i].inApp == OwnRole(v.roles[i].role)
      ensures Printed(v.inputs.report.modules[i])
    {
      assert v.inputs.report.modules[i] in v.inputs.report.modules;
      assert ModuleFrozen(v, i);
      assert MinidumpLaws.Wellspoken(v.inputs.report.modules[i]);
    }
  }

  /** A longer dump is a different one: bytes added at its end refuse the run that was frozen for it. */
  lemma LongerDumpRefused(d: Minidump.Decoders, dump: Minidump.Bytes, extra: Minidump.Bytes, v: VerifiedRun)
    requires Frozen(d, dump, v) && extra != []
    ensures !Frozen(d, dump + extra, v)
  {
    hide ModuleFrozen, SourcesFrozen, NonEmptyEach;
    var longer := Minidump.Inspected(d, dump + extra);
    hide Minidump.Inspected;
    if longer.Ok? {
      MinidumpLaws.EveryReport(d, dump);
      MinidumpLaws.EveryReport(d, dump + extra);
    }
  }

  /**
   What is left to refuse the plan of a run whose files verify and whose deployment is usable: stacks of other
   threads, a module beyond 64 bits, overlapping modules, or modules of one pair that contradict each other.
   */
  lemma PlanRefusals(d: Minidump.Decoders, dump: Minidump.Bytes, v: VerifiedRun, engine: string)
    requires Frozen(d, dump, v) && Deployed(v, engine)
    requires forall i | 0 <= i < |v.inputs.publicSources| :: GetStr(v.inputs.publicSources[i], "type") == Some("http")
    ensures |v.inputs.selections| == |v.inputs.report.modules|
    ensures Plannable(v.inputs) <==>
              && ThreadsMatch(v.inputs.report, v.inputs.unwind)
              && AddressesOk(v.inputs.report.modules) && PairwiseApart(Extents(v.inputs.report.modules))
              && forall i | 0 <= i < |v.inputs.selections| :: AgreesWithFirst(v.inputs, i)
  {
    hide Minidump.Inspected, ValidSelection, SourcesFrozen, SafeUrl, AgreesWithFirst, ModuleExtent, Extents, PublicSourcesOk;
    FrozenSourcesPlan(v.inputs.parse, v.inputs.publicSources);
    forall i | 0 <= i < |v.inputs.selections|
      ensures ModuleOk(v.inputs, i) <==> ModuleExtent(v.inputs.report.modules[i]).Some? && AgreesWithFirst(v.inputs, i)
    {
      assert ModuleFrozen(v, i);
    }
    hide ModuleOk;
    if Plannable(v.inputs) {
      assert forall i | 0 <= i < |v.inputs.selections| :: ModuleOk(v.inputs, i);
    }
  }

  function WithStacks(v: VerifiedRun, unwind: UnwindReport): VerifiedRun {
    v.(inputs := v.inputs.(unwind := unwind))
  }

  lemma StacksKeepVerified(v: VerifiedRun, unwind: UnwindReport)
    requires Verified(v)
    ensures Verified(WithStacks(v, unwind))
  {
    hide ValidSelection, IsRole, SortedUnique, Printed;
    forall i | 0 <= i < |v.roles|
      ensures SelectionOk(WithStacks(v, unwind).inputs, i)
    {
      assert SelectionOk(v.inputs, i);
    }
  }

  /** The request for public images that a run makes. */
  function PeRequestOf(v: VerifiedRun, engine: string, deadline: nat): PublicPe.PeRequest {
    PublicPe.PeRequest(v.inputs.report, v.inputs.selections, v.inputs.publicSources, engine, deadline)
  }

  /** Both addresses are tried as roots of a pair that does not exist. */
  method CheckDeployment(v: VerifiedRun, engine: string) returns (ok: bool)
    ensures ok <==> Deployed(v, engine)
  {
    hide SafeUrl;
    assert IsHash(Zeros(64));
    var content := PairSource(v.inputs.parse, Zeros(64), v.inputs.root);
    var service := PairSource(v.inputs.parse, Zeros(64), engine);
    ok := content.Success? && service.Success?;
  }

  /**
   `frozen_cli::run`: verify the frozen files, check the deployment, unwind with fetched public images, then
   plan, ask, merge and assemble.
   */
  method RunFrozen(
    d: Minidump.Decoders, dump: Minidump.Bytes, v: VerifiedRun, engine: string, deadline: nat,
    outside: PublicPe.Outside, given: map<nat, PublicPe.Image>, legs: nat -> Leg)
    returns (r: Result<CanonicalResult>, log: seq<PublicPe.Try>, g: Progress)
    requires v.inputs.parse("").None?
    requires (forall i :: ValidRef(outside.saved(i))) && forall i :: ValidRef(legs(i).diagnostic)
    ensures RunEnds(d, dump, v, engine, deadline, outside, given, legs, r, log, g)
  {
    hide Frozen, Verified, PublicPe.History, PublicPe.PathsAfter, PublicPe.OutcomesAfter, ValidRef, SafeUrl;
    log, g := [], Progress(None, [], []);
    var ok := VerifyFrozen(d, dump, v);
    if !ok {
      return Failure, log, g;
    }
    var roots := CheckDeployment(v, engine);
    if !roots {
      return Failure, log, g;
    }
    FrozenIsVerified(d, dump, v);
    RolesCover(v);
    var q := PeRequestOf(v, engine, deadline);
    var unwound;
    unwound, log := PublicPe.Unwind(q, outside, given);
    if unwound.Failure? {
      return Failure, log, g;
    }
    var unwind := unwound.value.report;
    StacksKeepVerified(v, unwind);
    PublicPe.OutcomesMerge(WithStacks(v, unwind).inputs, q, outside, given, log, |log|);
    r, g := Run(WithStacks(v, unwind), unwound.value.outcomes, legs);
  }

  /** The content root and the engine of the deployment are credential-free HTTP(S) addresses. */
  predicate Deployed(v: VerifiedRun, engine: string) {
    SafeUrl(v.inputs.parse, v.inputs.root) && SafeUrl(v.inputs.parse, engine)
  }

  /** Frozen files that do not verify, or an unusable deployment, end the run before anything is fetched or asked. */
  ghost predicate RunEnds(
    d: Minidump.Decoders, dump: Minidump.Bytes, v: VerifiedRun, engine: string, deadline: nat,
    outside: PublicPe.Outside, given: map<nat, PublicPe.Image>, legs: nat -> Leg,
    r: Result<CanonicalResult>, log: seq<PublicPe.Try>, g: Progress)
  {
    if Frozen(d, dump, v) && Deployed(v, engine) then Finishes(v, engine, deadline, outside, given, legs, r, log, g)
    else r.Failure? && log == [] && g == Progress(None, [], [])
  }

  /** The run fetched as the outside answered, and ended as the stacks unwound with the fetched images let it. */
  ghost predicate Finishes(
    v: VerifiedRun, engine: string, deadline: nat, outside: PublicPe.Outside, given: map<nat, PublicPe.Image>,
    legs: nat -> Leg, r: Result<CanonicalResult>, log: seq<PublicPe.Try>, g: Progress)
  {
    var q := PeRequestOf(v, engine, deadline);
    && |q.report.modules| == |q.selections|
    && PublicPe.History(q, outside, given, log)
    && match outside.walk(PublicPe.PathsAfter(given, log, |log|))
       case None => r.Failure? && g == Progress(None, [], [])
       case Some(unwind) =>
         && PublicPe.Exhausted(q, outside, given, log)
         && Concludes(v, unwind, PublicPe.OutcomesAfter(log, |log|), legs, r, g)
  }

  /**
   The end of a run with these stacks: it succeeds exactly when every partition has a result, no thread id
   occurs twice, every unwind method explains its trust, and the frames can be numbered.
   */
  ghost predicate Concludes(
    v: VerifiedRun, unwind: UnwindReport, publicOutcomes: map<nat, seq<SourceOutcome>>, legs: nat -> Leg,
    r: Result<CanonicalResult>, g: Progress)
  {
    var w := WithStacks(v, unwind);
    var symbols := AllFrames(g.results, |g.results|);
    && Verified(w) && Recounts(w, legs, g)
    && var inputs := InputsOf(w, AllModules(g.results, |g.results|), publicOutcomes);
       && |inputs.modules| == |w.inputs.report.modules|
       && (r.Success? <==>
             && Complete(g) && DistinctThreads(unwind) && FramesOk(unwind)
             && FramesFit(unwind, symbols))
       && (r.Success? ==> r.value == Assembled(w.inputs.report, unwind, symbols, inputs))
  }

  /** With the engine's own stacks only the thread ids and the number of frames are left to fail. */
  lemma EngineStacksConclude(
    v: VerifiedRun, unwind: UnwindReport, publicOutcomes: map<nat, seq<SourceOutcome>>, legs: nat -> Leg,
    r: Result<CanonicalResult>, g: Progress)
    requires Concludes(v, unwind, publicOutcomes, legs, r, g) && FromEngine(unwind) && Complete(g)
    ensures |v.roles| == |v.inputs.selections| == |v.inputs.report.modules| && FramesOk(unwind)
    ensures r.Success? <==>
              && DistinctThreads(unwind)
              && FramesFit(unwind, AllFrames(g.results, |g.results|))
  {
    hide Verified, Recounts, Assembled, FramesFit, FromEngine, FramesOk;
    EngineFramesOk(unwind);
    RolesCover(WithStacks(v, unwind));
  }
}
