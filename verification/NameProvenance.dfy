/** Where the names of a result come from: the words of a reply about the very frame that shows them. */
module NameProvenance {
  import opened Basics
  import opened Json
  import opened Evidence
  import opened Planner
  import opened PlanLaws
  import opened Transport
  import opened Collector
  import opened Assembler
  import opened ResultLaws
  import opened Composition
  import opened FrozenRun
  import opened Pipeline
  import PublicPe

  // ----- in a trace -----

  /** A record that is accepted for the reference and gives this name as its function, or as its symbol. */
  predicate Tells(part: Partition, r: FrameRef, record: Json, name: string) {
    RecordAccepted(part, r, record) && IsSymbolicated(record) && FirstField(record, "function", "symbol") == Some(name)
  }

  ghost predicate TellsSymbol(part: Partition, r: FrameRef, record: Json, symbol: Symbol) {
    RecordAccepted(part, r, record) && IsSymbolicated(record) && symbol == SymbolOf(record)
  }

  lemma {:induction false} SymbolsTold(part: Partition, r: FrameRef, records: seq<Json>, n: nat)
    requires n <= |records| && Symbols(part, r, records, n).Success?
    ensures forall s | s in Symbols(part, r, records, n).value :: exists i | 0 <= i < n :: TellsSymbol(part, r, records[i], s)
  {
    hide RecordAccepted, IsSymbolicated, SymbolOf;
    if n > 0 {
      SymbolsTold(part, r, records, n - 1);
      var init, all := Symbols(part, r, records, n - 1).value, Symbols(part, r, records, n).value;
      forall s | s in all
        ensures exists i | 0 <= i < n :: TellsSymbol(part, r, records[i], s)
      {
        if s in init {
          var i :| 0 <= i < n - 1 && TellsSymbol(part, r, records[i], s);
        } else {
          assert TellsSymbol(part, r, records[n - 1], s);
        }
      }
    }
  }

  /** Some record of the trace tells the name. */
  predicate ToldIn(part: Partition, r: FrameRef, trace: Json, name: string) {
    var records := GetArray(trace, "frames");
    records.Some? && exists i | 0 <= i < |records.value| :: Tells(part, r, records.value[i], name)
  }

  lemma TraceTold(part: Partition, r: FrameRef, owner: Option<string>, trace: Json, name: string)
    requires JudgeTrace(part, r, owner, trace).Success? && JudgeTrace(part, r, owner, trace).value.Some?
    requires Says(JudgeTrace(part, r, owner, trace).value.value.symbol, name)
    ensures ToldIn(part, r, trace, name)
  {
    hide RecordAccepted, IsSymbolicated, Unmixed, FirstField;
    var records := GetArray(trace, "frames").value;
    SymbolsTold(part, r, records, |records|);
    var symbols := Symbols(part, r, records, |records|).value;
    var packet := JudgeTrace(part, r, owner, trace).value.value;
    var at := if packet.symbol.functionName == Some(name) then |symbols| - 1 else
      var i :| 0 <= i < |packet.symbol.inlines| && packet.symbol.inlines[i].functionName == Some(name); i;
    var s := symbols[at];
    assert s.functionName == Some(name);
    assert s in symbols;
    var i :| 0 <= i < |records| && TellsSymbol(part, r, records[i], s);
    assert Tells(part, r, records[i], name);
  }

  // ----- in a reply -----

  /** A frame: its thread, its number there, and its instruction. */
  datatype Spot = Spot(thread: nat, frame: nat, instruction: u64)

  function PacketSpot(packet: FrameSymbol): Spot {
    Spot(packet.threadIndex, packet.physicalIndex, packet.instruction)
  }

  function RefSpot(r: FrameRef): Spot {
    Spot(r.threadIndex, r.physicalIndex, r.instruction)
  }

  /** The `k`-th reference is about this frame, and the reply's trace for it tells the name. */
  predicate ToldAt(part: Partition, traces: seq<Json>, k: nat, spot: Spot, name: string) {
    && k < |part.frameRefs| && k < |traces|
    && RefSpot(part.frameRefs[k]) == spot && ToldIn(part, part.frameRefs[k], traces[k], name)
  }

  lemma {:induction false} TracesTold(
    part: Partition, owners: map<nat, string>, traces: seq<Json>, n: nat, packet: FrameSymbol, name: string)
    requires n <= |traces| == |part.frameRefs| && JudgeTraces(part, owners, traces, n).Success?
    requires packet in JudgeTraces(part, owners, traces, n).value && Says(packet.symbol, name)
    ensures exists k: nat :: k < n && ToldAt(part, traces, k, PacketSpot(packet), name)
  {
    hide JudgeTrace, ToldIn, Says;
    var init := JudgeTraces(part, owners, traces, n - 1).value;
    if packet in init {
      TracesTold(part, owners, traces, n - 1, packet, name);
    } else {
      var r := part.frameRefs[n - 1];
      var owner := OwnerAt(owners, r.moduleIndex);
      assert JudgeTrace(part, r, owner, traces[n - 1]) == Success(Some(packet));
      TraceTold(part, r, owner, traces[n - 1], name);
      TraceAnswers(part, r, owner, traces[n - 1]);
      assert ToldAt(part, traces, n - 1, PacketSpot(packet), name);
    }
  }

  lemma TraceAnswers(part: Partition, r: FrameRef, owner: Option<string>, trace: Json)
    requires JudgeTrace(part, r, owner, trace).Success? && JudgeTrace(part, r, owner, trace).value.Some?
    ensures PacketSpot(JudgeTrace(part, r, owner, trace).value.value) == RefSpot(r)
  {
    hide Unmixed;
  }

  /** A completed reply tells the name about the frame. */
  ghost predicate ReplyTells(part: Partition, response: Json, spot: Spot, name: string) {
    var traces := GetArray(response, "stacktraces");
    && GetStr(response, "status") == Some("completed") && traces.Some?
    && exists k: nat :: ToldAt(part, traces.value, k, spot, name)
  }

  lemma CollectedTold(
    part: Partition, parse: UrlParser, response: Json, diagnostic: ObjectRef, packet: FrameSymbol, name: string)
    requires |part.moduleIndexes| == |part.capturedModules| && Collect(part, parse, response, diagnostic).Success?
    requires packet in Collect(part, parse, response, diagnostic).value.frames && Says(packet.symbol, name)
    ensures ReplyTells(part, response, PacketSpot(packet), name)
  {
    hide JudgeModules, JudgeTraces, ToldAt, Says, ValidRef;
    var modules, traces := GetArray(response, "modules").value, GetArray(response, "stacktraces").value;
    var judged := JudgeModules(part, parse, modules, diagnostic, |modules|).value;
    TracesTold(part, judged.owners, traces, |traces|, packet, name);
  }

  // ----- in a run -----

  /** The exchange of a partition ended with a reply that tells the name. */
  ghost predicate ExchangeTells(part: Partition, x: Exchange, spot: Spot, name: string) {
    && x.Asked? && x.transport.failure.None? && x.transport.response.Some?
    && ReplyTells(part, x.transport.response.value, spot, name)
  }

  lemma ResultTold(
    v: VerifiedRun, plan: Plan, x: Exchange, c: Collected, i: nat, packet: FrameSymbol, name: string)
    requires Verified(v) && IsPlan(v.inputs, plan) && i < |plan.partitions| && ResultAt(v, plan, x, c, i)
    requires packet in c.frames && Says(packet.symbol, name)
    ensures ExchangeTells(plan.partitions[i], x, PacketSpot(packet), name)
  {
    hide Verified, IsPlan, Collect, Says, ReplyTells, ValidRef;
    PartitionFields(v.inputs, plan, i);
    assert c.frames != [];
    if x.Asked? && x.transport.failure.None? && x.transport.response.Some? {
      CollectedTold(plan.partitions[i], v.inputs.parse, x.transport.response.value, x.diagnostic, packet, name);
    }
  }

  /** The reply to the last attempt that the transport records: a 2xx with the body that the transport returns. */
  predicate Heard(leg: Leg, transport: TransportEvidence) {
    && transport.attempts != [] && transport.response.Some?
    && HeardAt(leg.world, |transport.attempts| - 1, transport.response.value)
  }

  predicate HeardAt(w: World, n: nat, response: Json) {
    var reply := w.reply(n);
    reply.Response? && IsSuccess(reply.status) && reply.body.Value? && reply.body.v == response
  }

  lemma ServedHeard(part: Partition, leg: Leg, x: Exchange)
    requires Served(part, leg, x) && x.Asked? && x.transport.failure.None?
    ensures Heard(leg, x.transport)
  {
    hide Follows, Posts, Ends;
    var deadline := DeadlineOf(BudgetOf(leg.remaining));
    var sent: seq<Sent> :|
      && Follows(part.request, leg.world, deadline, sent) && Posts(sent) <= MAX_POSTS
      && Recorded(leg.world, sent, x.transport.attempts) && Ends(leg.world, deadline, sent, x.transport);
    SuccessIsCompletion(leg.world, deadline, sent, x.transport);
  }

  lemma {:induction false} FromResult(results: seq<Collected>, n: nat, packet: FrameSymbol) returns (i: nat)
    requires n <= |results| && packet in AllFrames(results, n)
    ensures i < n && packet in results[i].frames
  {
    if packet in results[n - 1].frames {
      i := n - 1;
    } else {
      i := FromResult(results, n - 1, packet);
    }
  }

  /**
   The reply to partition `i` told the name about the frame: it is the last reply to the partition's own
   request, one of the partition's references is the frame, and a record of the trace for it gives the name.
   */
  ghost predicate NameHeard(plan: Plan, legs: nat -> Leg, g: Progress, i: nat, spot: Spot, name: string) {
    && i < |g.exchanges| && i < |plan.partitions| && Served(plan.partitions[i], legs(i), g.exchanges[i])
    && ExchangeTells(plan.partitions[i], g.exchanges[i], spot, name)
    && Heard(legs(i), g.exchanges[i].transport)
  }

  lemma PacketHeard(v: VerifiedRun, plan: Plan, legs: nat -> Leg, g: Progress, packet: FrameSymbol, name: string)
    requires Verified(v) && Recounts(v, legs, g) && g.plan == Some(plan)
    requires packet in AllFrames(g.results, |g.results|) && Says(packet.symbol, name)
    ensures exists i: nat :: NameHeard(plan, legs, g, i, PacketSpot(packet), name)
  {
    hide Verified, IsPlan, ResultAt, Served, Says, Heard, ReplyTells, AllFrames;
    var i := FromResult(g.results, |g.results|, packet);
    assert ResultAt(v, plan, g.exchanges[i], g.results[i], i);
    assert Served(plan.partitions[i], legs(i), g.exchanges[i]);
    ResultTold(v, plan, g.exchanges[i], g.results[i], i, packet, name);
    ServedHeard(plan.partitions[i], legs(i), g.exchanges[i]);
    assert NameHeard(plan, legs, g, i, PacketSpot(packet), name);
  }

  /** Frame `k` of thread `t` stands for raw frame `f` and shows this name. */
  predicate Shows(result: CanonicalResult, t: nat, k: nat, f: nat, name: string) {
    && t < |result.threads| && k < |result.threads[t].frames|
    && result.threads[t].frames[k].frame.functionRaw == Some(name) && result.threads[t].frames[k].physicalIndex == f
  }

  /** Some partition of the plan heard the name about this raw frame. */
  ghost predicate FrameHeard(unwind: UnwindReport, legs: nat -> Leg, g: Progress, t: nat, f: nat, name: string) {
    && g.plan.Some? && t < |unwind.threads| && f < |unwind.threads[t].frames|
    && exists i: nat :: NameHeard(g.plan.value, legs, g, i, Spot(t, f, unwind.threads[t].frames[f].instruction), name)
  }

  /**
   Every function name in the result of a run was given by a record of a completed reply, to the request of
   a partition of the plan, about that very frame; nothing else can put a name there.
   */
  lemma NamesAreHeard(
    v: VerifiedRun, unwind: UnwindReport, publicOutcomes: map<nat, seq<SourceOutcome>>, legs: nat -> Leg,
    r: Result<CanonicalResult>, g: Progress, t: nat, k: nat, f: nat, name: string)
    requires Concludes(v, unwind, publicOutcomes, legs, r, g) && r.Success? && Shows(r.value, t, k, f, name)
    requires PublicOutcomesOk(WithStacks(v, unwind).inputs, publicOutcomes)
    ensures FrameHeard(unwind, legs, g, t, f, name)
  {
    hide Concludes, Verified, Recounts, Assemblable, Assembled, PublicOutcomesOk, AllFrames, AllModules, NameHeard, Says,
         ModuleOfPc, InputsOf;
    var w := WithStacks(v, unwind);
    Concluded(v, unwind, publicOutcomes, legs, r, g);
    var symbols := AllFrames(g.results, |g.results|);
    var inputs := InputsOf(w, AllModules(g.results, |g.results|), publicOutcomes);
    NameInPacket(w.inputs.report, unwind, symbols, inputs, t, k, f, name);
    var packet :| packet in symbols && Says(packet.symbol, name) && AboutFrame(unwind, packet, t, f);
    PacketHeard(w, g.plan.value, legs, g, packet, name);
  }

  /** The packet stands for this frame of the stacks. */
  predicate AboutFrame(unwind: UnwindReport, packet: FrameSymbol, t: nat, f: nat) {
    && t < |unwind.threads| && f < |unwind.threads[t].frames|
    && PacketSpot(packet) == Spot(t, f, unwind.threads[t].frames[f].instruction)
  }

  lemma NameInPacket(
    report: InspectReport, unwind: UnwindReport, symbols: seq<FrameSymbol>, inputs: FrozenInputs, t: nat, k: nat,
    f: nat, name: string)
    requires |inputs.modules| == |report.modules| && Assemblable(report, unwind, symbols, inputs)
    requires Shows(Assembled(report, unwind, symbols, inputs), t, k, f, name)
    ensures exists packet :: packet in symbols && Says(packet.symbol, name) && AboutFrame(unwind, packet, t, f)
  {
    hide Assemblable, Says, ModuleOfPc;
    NamesComeFromPackets(report, unwind, symbols, inputs, t, k, name);
    var j :| 0 <= j < |symbols| && PacketOk(report, unwind, inputs, symbols[j]) && SlotOf(symbols[j]) == (t, f)
             && Says(symbols[j].symbol, name);
    assert symbols[j] in symbols && AboutFrame(unwind, symbols[j], t, f);
  }

  lemma Concluded(
    v: VerifiedRun, unwind: UnwindReport, publicOutcomes: map<nat, seq<SourceOutcome>>, legs: nat -> Leg,
    r: Result<CanonicalResult>, g: Progress)
    requires Concludes(v, unwind, publicOutcomes, legs, r, g) && r.Success?
    requires PublicOutcomesOk(WithStacks(v, unwind).inputs, publicOutcomes)
    ensures var w := WithStacks(v, unwind);
            && Verified(w) && Recounts(w, legs, g) && g.plan.Some?
            && |w.roles| == |w.inputs.selections| == |w.inputs.report.modules|
            && var symbols := AllFrames(g.results, |g.results|);
               var inputs := InputsOf(w, AllModules(g.results, |g.results|), publicOutcomes);
               && |inputs.modules| == |w.inputs.report.modules| && Assemblable(w.inputs.report, unwind, symbols, inputs)
               && r.value == Assembled(w.inputs.report, unwind, symbols, inputs)
  {
    hide Verified, Recounts, Assemblable, Assembled, PublicOutcomesOk, FramesFit, FramesOk, DistinctThreads;
    CompleteComposes(WithStacks(v, unwind), publicOutcomes, legs, g);
  }

  lemma CompleteComposes(v: VerifiedRun, publicOutcomes: map<nat, seq<SourceOutcome>>, legs: nat -> Leg, g: Progress)
    requires Verified(v) && Recounts(v, legs, g) && Complete(g) && PublicOutcomesOk(v.inputs, publicOutcomes)
    ensures |v.roles| == |v.inputs.selections| == |v.inputs.report.modules|
    ensures var symbols := AllFrames(g.results, |g.results|);
            var inputs := InputsOf(v, AllModules(g.results, |g.results|), publicOutcomes);
            DistinctThreads(v.inputs.unwind) && FramesOk(v.inputs.unwind) && FramesFit(v.inputs.unwind, symbols) ==>
              Assemblable(v.inputs.report, v.inputs.unwind, symbols, inputs)
  {
    hide Verified, IsPlan, Results, Served, Assemblable, DistinctThreads, FramesOk, FramesFit, PublicOutcomesOk;
    Compose(v, g.plan.value, g.exchanges, g.results, publicOutcomes);
  }

  /** The same for the whole way from the bytes of the dump. */
  lemma RunNamesAreHeard(
    v: VerifiedRun, engine: string, deadline: nat, outside: PublicPe.Outside, given: map<nat, PublicPe.Image>,
    legs: nat -> Leg, r: Result<CanonicalResult>, log: seq<PublicPe.Try>, g: Progress, t: nat, k: nat, f: nat, name: string)
    requires forall i :: ValidRef(outside.saved(i))
    requires Finishes(v, engine, deadline, outside, given, legs, r, log, g)
    requires r.Success? && Shows(r.value, t, k, f, name)
    ensures var unwind := outside.walk(PublicPe.PathsAfter(given, log, |log|));
            unwind.Some? && FrameHeard(unwind.value, legs, g, t, f, name)
  {
    hide Concludes, PublicPe.History, PublicPe.PathsAfter, PublicPe.OutcomesAfter, PublicPe.Exhausted, FrameHeard, Shows,
         ValidRef, PublicOutcomesOk;
    var unwind := outside.walk(PublicPe.PathsAfter(given, log, |log|)).value;
    PublicPe.OutcomesMerge(WithStacks(v, unwind).inputs, PeRequestOf(v, engine, deadline), outside, given, log, |log|);
    NamesAreHeard(v, unwind, PublicPe.OutcomesAfter(log, |log|), legs, r, g, t, k, f, name);
  }
}
