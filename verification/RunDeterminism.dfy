/** The frozen files and the outside world leave a run no choice. */
module RunDeterminism {
  import opened Basics
  import opened Evidence
  import opened Planner
  import opened PlanLaws
  import opened Transport
  import opened Assembler
  import opened Composition
  import opened FrozenRun
  import opened Pipeline
  import opened RunIndependence
  import Minidump
  import PublicPe

  /** A leg admits one exchange. */
  lemma ExchangeDetermined(part: Partition, leg: Leg, x: Exchange, y: Exchange)
    requires Served(part, leg, x) && Served(part, leg, y)
    ensures x == y
  {
    hide Follows, Posts, Recorded, Ends;
    if leg.remaining != 0 {
      var deadline := DeadlineOf(BudgetOf(leg.remaining));
      var a: seq<Sent> :|
        && Follows(part.request, leg.world, deadline, a) && Posts(a) <= MAX_POSTS
        && Recorded(leg.world, a, x.transport.attempts) && Ends(leg.world, deadline, a, x.transport);
      var b: seq<Sent> :|
        && Follows(part.request, leg.world, deadline, b) && Posts(b) <= MAX_POSTS
        && Recorded(leg.world, b, y.transport.attempts) && Ends(leg.world, deadline, b, y.transport);
      RunDetermined(part.request, leg.world, deadline, a, x.transport, b, y.transport);
    }
  }

  /** Two records of one run agree as far as both of them go. */
  lemma ExchangesAgree(v: VerifiedRun, plan: Plan, legs: nat -> Leg, a: Progress, b: Progress, i: nat)
    requires Verified(v) && Recounts(v, legs, a) && Recounts(v, legs, b) && a.plan == b.plan == Some(plan)
    requires i < |a.exchanges| && i < |b.exchanges|
    ensures a.exchanges[i] == b.exchanges[i]
    ensures i < |a.results| && i < |b.results| ==> a.results[i] == b.results[i]
  {
    hide Verified, IsPlan, Served, PartitionResult, ValidRef;
    ExchangeDetermined(plan.partitions[i], legs(i), a.exchanges[i], b.exchanges[i]);
    if i < |a.results| && i < |b.results| {
      assert ResultAt(v, plan, a.exchanges[i], a.results[i], i) && ResultAt(v, plan, b.exchanges[i], b.results[i], i);
    }
  }

  /** A record that stops does not stop before another one. */
  lemma StopsNoSooner(v: VerifiedRun, plan: Plan, legs: nat -> Leg, a: Progress, b: Progress)
    requires Verified(v) && Recounts(v, legs, a) && Recounts(v, legs, b) && a.plan == b.plan == Some(plan)
    ensures |a.results| >= |b.results|
  {
    hide Verified, IsPlan, Served, PartitionResult, ValidRef;
    var n := |a.results|;
    if n < |b.results| {
      assert ResultAt(v, plan, b.exchanges[n], b.results[n], n);
      assert StoppedAt(v, plan, a);
      ExchangesAgree(v, plan, legs, a, b, n);
      assert false;
    }
  }

  /** The world determines how far a run comes and what it collects. */
  lemma ProgressDetermined(v: VerifiedRun, legs: nat -> Leg, a: Progress, b: Progress)
    requires Verified(v) && Recounts(v, legs, a) && Recounts(v, legs, b)
    ensures a == b
  {
    hide Verified, IsPlan, Plannable, Served, Results, PartitionResult;
    if a.plan.Some? && b.plan.Some? {
      PlanUnique(v.inputs, a.plan.value, b.plan.value);
      var plan := a.plan.value;
      StopsNoSooner(v, plan, legs, a, b);
      StopsNoSooner(v, plan, legs, b, a);
      forall i | 0 <= i < |a.exchanges|
        ensures a.exchanges[i] == b.exchanges[i]
        ensures i < |a.results| ==> a.results[i] == b.results[i]
      {
        ExchangesAgree(v, plan, legs, a, b, i);
      }
      assert a.exchanges == b.exchanges && a.results == b.results;
    } else {
      PlansNeedPlannable(v.inputs, if a.plan.Some? then a.plan else b.plan);
    }
  }

  lemma PlansNeedPlannable(p: PlanInputs, plan: Option<Plan>)
    ensures plan.Some? && IsPlan(p, plan.value) ==> Plannable(p)
  {
  }

  /** With given stacks a run has one end. */
  lemma ConclusionDetermined(
    v: VerifiedRun, unwind: UnwindReport, publicOutcomes: map<nat, seq<SourceOutcome>>, legs: nat -> Leg,
    r: Result<CanonicalResult>, g: Progress, r': Result<CanonicalResult>, g': Progress)
    requires Concludes(v, unwind, publicOutcomes, legs, r, g) && Concludes(v, unwind, publicOutcomes, legs, r', g')
    ensures r == r' && g == g'
  {
    hide Verified, Recounts, Assembled, FramesOk, FramesFit, DistinctThreads;
    ProgressDetermined(WithStacks(v, unwind), legs, g, g');
  }

  /** The fetches, the record and the result of a run whose frozen files verify. */
  lemma FinishDetermined(
    v: VerifiedRun, engine: string, deadline: nat, outside: PublicPe.Outside, given: map<nat, PublicPe.Image>,
    legs: nat -> Leg, r: Result<CanonicalResult>, log: seq<PublicPe.Try>, g: Progress,
    r': Result<CanonicalResult>, log': seq<PublicPe.Try>, g': Progress)
    requires Finishes(v, engine, deadline, outside, given, legs, r, log, g)
    requires Finishes(v, engine, deadline, outside, given, legs, r', log', g')
    ensures r == r' && log == log' && g == g'
  {
    hide Concludes, PublicPe.History, PublicPe.Exhausted, PublicPe.PathsAfter, PublicPe.OutcomesAfter;
    PublicPe.FetchesDetermined(PeRequestOf(v, engine, deadline), outside, given, log, log');
    var unwind := outside.walk(PublicPe.PathsAfter(given, log, |log|));
    if unwind.Some? {
      ConclusionDetermined(v, unwind.value, PublicPe.OutcomesAfter(log, |log|), legs, r, g, r', g');
    }
  }

  /**
   Determinism of the whole run: dump, frozen files, the walker, the answers of the outside and its clocks
   admit exactly one list of fetches, one record of exchanges and one result.
   */
  lemma WholeRunDetermined(
    d: Minidump.Decoders, dump: Minidump.Bytes, v: VerifiedRun, engine: string, deadline: nat,
    outside: PublicPe.Outside, given: map<nat, PublicPe.Image>, legs: nat -> Leg,
    r: Result<CanonicalResult>, log: seq<PublicPe.Try>, g: Progress,
    r': Result<CanonicalResult>, log': seq<PublicPe.Try>, g': Progress)
    requires RunEnds(d, dump, v, engine, deadline, outside, given, legs, r, log, g)
    requires RunEnds(d, dump, v, engine, deadline, outside, given, legs, r', log', g')
    ensures r == r' && log == log' && g == g'
  {
    hide Frozen, Finishes;
    if Frozen(d, dump, v) && Deployed(v, engine) {
      FinishDetermined(v, engine, deadline, outside, given, legs, r, log, g, r', log', g');
    }
  }

  /**
   So walkers that find the same frames with the same trust and method, whatever they name them, lead to the
   same fetches, the same exchanges and the same result.
   */
  lemma SameWalksSameRun(
    d: Minidump.Decoders, dump: Minidump.Bytes, v: VerifiedRun, engine: string, deadline: nat,
    o: PublicPe.Outside, o': PublicPe.Outside, given: map<nat, PublicPe.Image>, legs: nat -> Leg,
    r: Result<CanonicalResult>, log: seq<PublicPe.Try>, g: Progress,
    r': Result<CanonicalResult>, log': seq<PublicPe.Try>, g': Progress)
    requires SameWalks(o, o')
    requires RunEnds(d, dump, v, engine, deadline, o, given, legs, r, log, g)
    requires RunEnds(d, dump, v, engine, deadline, o', given, legs, r', log', g')
    ensures r == r' && log == log' && g == g'
  {
    hide Frozen, Finishes, SameWalks;
    if Frozen(d, dump, v) && Deployed(v, engine) {
      WholeRunIndependent(v, engine, deadline, o, o', given, legs, r, log, g);
      FinishDetermined(v, engine, deadline, o', given, legs, r, log, g, r', log', g');
    }
  }
}
