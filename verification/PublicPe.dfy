/** Fetching public images, within a budget, to unwind modules that selected nothing. */
module PublicPe {
  import opened Basics
  import opened Text
  import Utf8
  import opened Json
  import opened Evidence
  import opened Layout
  import opened Assembler
  import opened Planner
  import opened Composition

  const SOURCE := "crash-cap:microsoft"
  const MAX_PE_BYTES: nat := 32 * 1024 * 1024
  const MAX_TOTAL_BYTES: nat := 64 * 1024 * 1024
  const MAX_REQUESTS: nat := 16

  /** An image file to unwind with: one staged for a selected pair, or one fetched here. */
  datatype Image = Staged(path: string) | Fetched(content: seq<Utf8.byte>)

  datatype PeIdentity = PeIdentity(codeId: Option<string>, debugId: Option<string>)

  /** One fetch: no answer, or a status and a body that may break off after some bytes. */
  datatype Fetch =
    | FetchTimedOut
    | FetchBroken
    | Fetch(status: u16, body: seq<Utf8.byte>, breaksAfter: Option<nat>)

  /**
   The stack walker, the reader of image identities, the n-th reading of the clock, the answer to the
   n-th fetch, and where the record of a fetch is saved are outside of this model.
   */
  datatype Outside = Outside(
    walk: map<nat, Image> -> Option<UnwindReport>,
    identify: seq<Utf8.byte> -> Option<PeIdentity>,
    clock: nat -> nat,
    fetch: (nat, string) -> Fetch,
    saved: nat -> ObjectRef)

  datatype PeRequest = PeRequest(
    report: InspectReport,
    selections: seq<FrozenSelection>,
    sources: seq<Json>,
    engine: string,
    deadline: nat)

  function MicrosoftSource(): Json {
    Obj(map[
      "id" := Str(SOURCE), "type" := Str("http"), "url" := Str("https://msdl.microsoft.com/download/symbols/"),
      "layout" := Obj(map["type" := Str("symstore")]),
      "filters" := Obj(map["filetypes" := Arr([Str("pdb"), Str("pe"), Str("portablepdb")])]),
      "is_public" := Bool(true)])
  }

  predicate MicrosoftEnabled(sources: seq<Json>) {
    MicrosoftSource() in sources
  }

  predicate FileChar(c: char) {
    IsDigit(c) || 'a' <= c <= 'z' || c == '-' || c == '_' || c == '.'
  }

  /** The last part of a path, when it is a plain file name. */
  function FileName(path: string): Option<string> {
    var name := Lower(AfterLast(path, c => c == '/' || c == '\\'));
    if 0 < |name| <= 255 && name != "." && name != ".." && forall i | 0 <= i < |name| :: FileChar(name[i]) then Some(name)
    else None
  }

  predicate TouchedBy(report: UnwindReport, e: Extent) {
    exists t, f | 0 <= t < |report.threads| && 0 <= f < |report.threads[t].frames| ::
      Inside(e, report.threads[t].frames[f].instruction)
  }

  /** An image for the module may be fetched: nothing was selected for it although all candidates are known. */
  predicate Fetchable(q: PeRequest, i: nat)
    requires i < |q.report.modules| == |q.selections|
  {
    var s := q.selections[i];
    && s.state.NoneState? && s.candidatesComplete
    && s.identity.architecture == "x86_64" && s.identity.debugId.Some?
    && FileName(q.report.modules[i].codeFile).Some?
  }

  /** A fetchable module that has no image yet, was not tried, and that some frame lies in. */
  predicate Wanted(q: PeRequest, paths: map<nat, Image>, tried: set<nat>, report: UnwindReport, i: nat)
    requires i < |q.report.modules| == |q.selections|
  {
    && Fetchable(q, i) && i !in paths && i !in tried
    && HexExtent(q.report.modules[i]).Some?
    && TouchedBy(report, HexExtent(q.report.modules[i]).value)
  }

  /** The first wanted module from `i` on. */
  function FirstWanted(
    q: PeRequest, paths: map<nat, Image>, tried: set<nat>, report: UnwindReport, i: nat): (r: Option<nat>)
    requires i <= |q.report.modules| == |q.selections|
    ensures r.Some? ==> i <= r.value < |q.selections| && Wanted(q, paths, tried, report, r.value)
    ensures forall j | i <= j < (if r.Some? then r.value else |q.selections|) :: !Wanted(q, paths, tried, report, j)
    decreases |q.selections| - i
  {
    if i == |q.selections| then None
    else if Wanted(q, paths, tried, report, i) then Some(i)
    else FirstWanted(q, paths, tried, report, i + 1)
  }

  function ProxyUrl(q: PeRequest, i: nat): string
    requires i < |q.report.modules| == |q.selections| && Fetchable(q, i)
  {
    var name := FileName(q.report.modules[i].codeFile).value;
    TrimEndSlashes(q.engine) + "/proxy/" + name + "/" + Lower(q.report.modules[i].codeId) + "/" + name
  }

  // ----- one try -----

  /** How much of an answer is read when `limit` bytes are acceptable: at most one byte more. */
  function ReadOf(answer: Fetch, limit: nat): (r: seq<Utf8.byte>)
    ensures |r| <= limit + 1
  {
    if !answer.Fetch? || answer.status != 200 then []
    else
      var upTo := if answer.breaksAfter.Some? then Least(answer.breaksAfter.value, |answer.body|) else |answer.body|;
      answer.body[..Least(upTo, limit + 1)]
  }

  /** The read ends in an error: the body breaks off before the limit is exceeded. */
  predicate ReadBreaks(answer: Fetch, limit: nat) {
    answer.Fetch? && answer.status == 200 && answer.breaksAfter.Some?
    && Least(answer.breaksAfter.value, |answer.body|) <= limit
  }

  datatype PeVerdict = PeVerdict(outcome: Outcome, failureClass: FailureClass, reason: string, content: Option<seq<Utf8.byte>>)

  function Received(answer: Fetch, limit: nat): PeVerdict {
    match answer
    case FetchTimedOut => PeVerdict(Failed, Transient, "timeout", None)
    case FetchBroken => PeVerdict(Failed, Transient, "transport_error", None)
    case Fetch(status, _, _) =>
      if status == 200 then
        if ReadBreaks(answer, limit) then PeVerdict(Failed, Transient, "body_transport_error", None)
        else if |ReadOf(answer, limit)| <= limit then PeVerdict(Found, NoFailure, "downloaded", Some(ReadOf(answer, limit)))
        else PeVerdict(Failed, Permanent, "material_size_limit", None)
      else if status == 404 || status == 410 then PeVerdict(Missing, Permanent, "not_found", None)
      else PeVerdict(Failed, UnknownFailure, "proxy_failure", None)
  }

  function LowerId(id: Option<string>): Option<string> {
    match id
    case Some(s) => Some(Lower(s))
    case None => None
  }

  function PlainId(id: Option<string>): Option<string> {
    match id
    case Some(s) => Some(Lower(WithoutDashes(s)))
    case None => None
  }

  /** The content is an image with exactly the captured identity. */
  predicate IdentityVerified(o: Outside, captured: ModuleIdentity, content: seq<Utf8.byte>) {
    match o.identify(content)
    case None => false
    case Some(pe) => LowerId(pe.codeId) == captured.codeId && PlainId(pe.debugId) == captured.debugId
  }

  /** A try: the module, the bytes read for it, the image it gained, and the outcome. */
  datatype Try = Try(index: nat, read: seq<Utf8.byte>, gained: Option<seq<Utf8.byte>>, outcome: SourceOutcome)

  function TryOf(q: PeRequest, o: Outside, n: nat, i: nat, limit: nat): Try
    requires i < |q.report.modules| == |q.selections| && Fetchable(q, i)
  {
    var answer := o.fetch(n, ProxyUrl(q, i));
    var v := Received(answer, limit);
    var verified := v.content.Some? && IdentityVerified(o, q.selections[i].identity, v.content.value);
    Try(i, ReadOf(answer, limit), if verified then v.content else None,
        if v.content.None? then SourceOutcome(SOURCE, Unwinding, v.outcome, v.failureClass, v.reason, Some(o.saved(i)))
        else if verified then SourceOutcome(SOURCE, Unwinding, Found, NoFailure, "identity_verified_for_unwind", Some(o.saved(i)))
        else SourceOutcome(SOURCE, Unwinding, Failed, Permanent, "pe_identity_mismatch", Some(o.saved(i))))
  }

  // ----- the history of a run -----

  function PathsAfter(given: map<nat, Image>, log: seq<Try>, n: nat): map<nat, Image>
    requires n <= |log|
  {
    if n == 0 then given
    else
      var paths := PathsAfter(given, log, n - 1);
      match log[n - 1].gained
      case Some(content) => paths[log[n - 1].index := Fetched(content)]
      case None => paths
  }

  function TriedAfter(log: seq<Try>, n: nat): set<nat>
    requires n <= |log|
  {
    set k | 0 <= k < n :: log[k].index
  }

  function ReadAfter(log: seq<Try>, n: nat): nat
    requires n <= |log|
  {
    if n == 0 then 0 else ReadAfter(log, n - 1) + |log[n - 1].read|
  }

  function GainedAfter(log: seq<Try>, n: nat): nat
    requires n <= |log|
  {
    if n == 0 then 0
    else GainedAfter(log, n - 1) + (if log[n - 1].gained.Some? then |log[n - 1].gained.value| else 0)
  }

  function OutcomesAfter(log: seq<Try>, n: nat): map<nat, seq<SourceOutcome>>
    requires n <= |log|
  {
    if n == 0 then map[] else OutcomesAfter(log, n - 1)[log[n - 1].index := [log[n - 1].outcome]]
  }

  function LimitAt(read: nat): nat
    requires read < MAX_TOTAL_BYTES
  {
    Least(MAX_PE_BYTES, MAX_TOTAL_BYTES - read)
  }

  /** The budget of tries, bytes and time is not used up after `n` tries. */
  predicate BudgetLeft(q: PeRequest, o: Outside, log: seq<Try>, n: nat)
    requires n <= |log|
  {
    && n < MAX_REQUESTS && ReadAfter(log, n) < MAX_TOTAL_BYTES
    && o.clock(2 * n) < q.deadline && o.clock(2 * n + 1) < q.deadline
  }

  /** The module to try after `n` tries: the first wanted one, by the stacks as they are unwound by then. */
  function WantedAfter(q: PeRequest, o: Outside, given: map<nat, Image>, log: seq<Try>, n: nat): (r: Option<nat>)
    requires |q.report.modules| == |q.selections| && n <= |log|
    ensures r.Some? ==> r.value < |q.selections| && Fetchable(q, r.value) && r.value !in TriedAfter(log, n)
                        && r.value !in PathsAfter(given, log, n)
  {
    match o.walk(PathsAfter(given, log, n))
    case None => None
    case Some(report) => FirstWanted(q, PathsAfter(given, log, n), TriedAfter(log, n), report, 0)
  }

  /** The `n`-th try happened within the budget, for the wanted module, as the outside answered. */
  ghost predicate TryMade(q: PeRequest, o: Outside, given: map<nat, Image>, log: seq<Try>, n: nat)
    requires |q.report.modules| == |q.selections| && n < |log|
  {
    && BudgetLeft(q, o, log, n)
    && WantedAfter(q, o, given, log, n) == Some(log[n].index)
    && log[n] == TryOf(q, o, n, log[n].index, LimitAt(ReadAfter(log, n)))
  }

  ghost predicate History(q: PeRequest, o: Outside, given: map<nat, Image>, log: seq<Try>)
    requires |q.report.modules| == |q.selections|
  {
    && (log == [] || MicrosoftEnabled(q.sources))
    && forall n | 0 <= n < |log| :: TryMade(q, o, given, log, n)
  }

  /** Nothing more is to be tried. */
  ghost predicate Exhausted(q: PeRequest, o: Outside, given: map<nat, Image>, log: seq<Try>)
    requires |q.report.modules| == |q.selections|
  {
    || !MicrosoftEnabled(q.sources)
    || !BudgetLeft(q, o, log, |log|)
    || WantedAfter(q, o, given, log, |log|).None?
  }

  datatype PublicUnwind = PublicUnwind(report: UnwindReport, outcomes: map<nat, seq<SourceOutcome>>)

  // ----- histories grow at the end -----

  lemma {:induction false} PathsKept(given: map<nat, Image>, log: seq<Try>, last: Try, n: nat)
    requires n <= |log|
    ensures PathsAfter(given, log + [last], n) == PathsAfter(given, log, n)
    ensures ReadAfter(log + [last], n) == ReadAfter(log, n)
    ensures OutcomesAfter(log + [last], n) == OutcomesAfter(log, n)
    ensures TriedAfter(log + [last], n) == TriedAfter(log, n)
  {
    if n > 0 {
      PathsKept(given, log, last, n - 1);
    }
    assert forall k | 0 <= k < n :: (log + [last])[k] == log[k];
  }

  lemma TryKept(q: PeRequest, o: Outside, given: map<nat, Image>, log: seq<Try>, last: Try, n: nat)
    requires |q.report.modules| == |q.selections| && n <= |log|
    ensures BudgetLeft(q, o, log + [last], n) <==> BudgetLeft(q, o, log, n)
    ensures WantedAfter(q, o, given, log + [last], n) == WantedAfter(q, o, given, log, n)
    ensures n < |log| && TryMade(q, o, given, log, n) ==> TryMade(q, o, given, log + [last], n)
  {
    hide PathsAfter, ReadAfter, TriedAfter, OutcomesAfter, FirstWanted, TryOf, Fetchable;
    PathsKept(given, log, last, n);
    if n < |log| {
      assert (log + [last])[n] == log[n];
    }
  }

  lemma OneMoreTry(q: PeRequest, o: Outside, given: map<nat, Image>, log: seq<Try>, last: Try)
    requires |q.report.modules| == |q.selections|
    requires History(q, o, given, log) && MicrosoftEnabled(q.sources)
    requires BudgetLeft(q, o, log, |log|) && WantedAfter(q, o, given, log, |log|) == Some(last.index)
    requires last == TryOf(q, o, |log|, last.index, LimitAt(ReadAfter(log, |log|)))
    ensures History(q, o, given, log + [last])
  {
    hide PathsAfter, ReadAfter, OutcomesAfter, WantedAfter, TryOf, Fetchable, MicrosoftEnabled;
    PathsKept(given, log, last, |log|);
    TryKept(q, o, given, log, last, |log|);
    forall n | 0 <= n < |log + [last]|
      ensures TryMade(q, o, given, log + [last], n)
    {
      if n < |log| {
        assert TryMade(q, o, given, log, n);
        TryKept(q, o, given, log, last, n);
      }
    }
  }

  /** The state after one more try. */
  lemma StateAfter(given: map<nat, Image>, log: seq<Try>, last: Try)
    ensures PathsAfter(given, log + [last], |log| + 1) ==
            (match last.gained
             case Some(content) => PathsAfter(given, log, |log|)[last.index := Fetched(content)]
             case None => PathsAfter(given, log, |log|))
    ensures ReadAfter(log + [last], |log| + 1) == ReadAfter(log, |log|) + |last.read|
    ensures OutcomesAfter(log + [last], |log| + 1) == OutcomesAfter(log, |log|)[last.index := [last.outcome]]
    ensures TriedAfter(log + [last], |log| + 1) == TriedAfter(log, |log|) + {last.index}
  {
    PathsKept(given, log, last, |log|);
    var more := log + [last];
    forall x
      ensures x in TriedAfter(more, |log| + 1) <==> x in TriedAfter(log, |log|) + {last.index}
    {
      if x == last.index {
        assert more[|log|].index == x;
      } else if x in TriedAfter(log, |log|) {
        var k :| 0 <= k < |log| && log[k].index == x;
        assert more[k].index == x;
      }
    }
  }

  /** A try reads at most one byte beyond its limit, and an image it gains is what it read, within the limit. */
  lemma ReadAtMost(q: PeRequest, o: Outside, n: nat, i: nat, limit: nat)
    requires i < |q.report.modules| == |q.selections| && Fetchable(q, i)
    ensures var t := TryOf(q, o, n, i, limit);
            && |t.read| <= limit + 1
            && (t.gained.Some? ==> t.gained.value == t.read && |t.read| <= limit)
  {
    hide ProxyUrl, IdentityVerified;
  }

  // ----- the loop -----

  /** `unwind`: the fetch loop. A failing stack walk ends the run; `log` is the record of the tries made. */
  method Unwind(q: PeRequest, o: Outside, given: map<nat, Image>) returns (r: Result<PublicUnwind>, log: seq<Try>)
    requires |q.report.modules| == |q.selections|
    ensures History(q, o, given, log)
    ensures match o.walk(PathsAfter(given, log, |log|))
            case None => r.Failure?
            case Some(report) =>
              r == Success(PublicUnwind(report, OutcomesAfter(log, |log|))) && Exhausted(q, o, given, log)
  {
    hide MicrosoftEnabled, Fetchable, PathsAfter, ReadAfter, TriedAfter, OutcomesAfter, FirstWanted, WantedAfter, TryOf, History;
    log := [];
    NothingTried(q, o, given);
    var walked := o.walk(given);
    if walked.None? {
      return Failure, log;
    }
    var report, outcomes: map<nat, seq<SourceOutcome>> := walked.value, map[];
    if !MicrosoftEnabled(q.sources) {
      return Success(PublicUnwind(report, outcomes)), log;
    }
    var paths, tried: set<nat>, total: nat, count: nat := given, {}, 0, 0;
    while count < MAX_REQUESTS && total < MAX_TOTAL_BYTES && o.clock(2 * count) < q.deadline
      invariant count == |log| <= MAX_REQUESTS && History(q, o, given, log)
      invariant paths == PathsAfter(given, log, count) && tried == TriedAfter(log, count)
      invariant total == ReadAfter(log, count) && outcomes == OutcomesAfter(log, count)
      invariant walked == o.walk(paths) == Some(report)
      decreases MAX_REQUESTS - count
    {
      var next := FirstWanted(q, paths, tried, report, 0);
      WantedIs(q, o, given, log, report);
      if next.None? {
        break;
      }
      var i := next.value;
      tried := tried + {i};
      if o.clock(2 * count + 1) >= q.deadline {
        break;
      }
      var limit := LimitAt(total);
      var answer := o.fetch(count, ProxyUrl(q, i));
      var v := Received(answer, limit);
      total := total + |ReadOf(answer, limit)|;
      var outcome, gained := SourceOutcome(SOURCE, Unwinding, v.outcome, v.failureClass, v.reason, Some(o.saved(i))), None;
      if v.content.Some? {
        if IdentityVerified(o, q.selections[i].identity, v.content.value) {
          outcome, gained := outcome.(reason := "identity_verified_for_unwind"), v.content;
          paths := paths[i := Fetched(v.content.value)];
          walked := o.walk(paths);
        } else {
          outcome := outcome.(outcome := Failed, failureClass := Permanent, reason := "pe_identity_mismatch");
        }
      }
      var last := Try(i, ReadOf(answer, limit), gained, outcome);
      TryIs(q, o, count, i, limit);
      OneMoreTry(q, o, given, log, last);
      StateAfter(given, log, last);
      log := log + [last];
      if walked.None? {
        return Failure, log;
      }
      report := walked.value;
      outcomes := outcomes[i := [outcome]];
      count := count + 1;
    }
    r := Success(PublicUnwind(report, outcomes));
  }

  lemma NothingTried(q: PeRequest, o: Outside, given: map<nat, Image>)
    requires |q.report.modules| == |q.selections|
    ensures History(q, o, given, []) && PathsAfter(given, [], 0) == given && TriedAfter([], 0) == {}
    ensures ReadAfter([], 0) == 0 && OutcomesAfter([], 0) == map[]
  {
  }

  lemma WantedIs(q: PeRequest, o: Outside, given: map<nat, Image>, log: seq<Try>, report: UnwindReport)
    requires |q.report.modules| == |q.selections| && o.walk(PathsAfter(given, log, |log|)) == Some(report)
    ensures WantedAfter(q, o, given, log, |log|) == FirstWanted(q, PathsAfter(given, log, |log|), TriedAfter(log, |log|), report, 0)
  {
  }

  lemma TryIs(q: PeRequest, o: Outside, n: nat, i: nat, limit: nat)
    requires i < |q.report.modules| == |q.selections| && Fetchable(q, i)
    ensures var answer := o.fetch(n, ProxyUrl(q, i));
            var v := Received(answer, limit);
            var plain := SourceOutcome(SOURCE, Unwinding, v.outcome, v.failureClass, v.reason, Some(o.saved(i)));
            TryOf(q, o, n, i, limit) ==
            if v.content.None? then Try(i, ReadOf(answer, limit), None, plain)
            else if IdentityVerified(o, q.selections[i].identity, v.content.value) then
              Try(i, ReadOf(answer, limit), v.content, plain.(reason := "identity_verified_for_unwind"))
            else
              Try(i, ReadOf(answer, limit), None,
                  plain.(outcome := Failed, failureClass := Permanent, reason := "pe_identity_mismatch"))
  {
    hide ProxyUrl, IdentityVerified, ReadOf, ReadBreaks, Fetchable;
  }

  // ----- the laws -----

  /** Nothing about the first `n` tries depends on later ones. */
  lemma {:induction false} SamePrefix(given: map<nat, Image>, a: seq<Try>, b: seq<Try>, n: nat)
    requires n <= |a| && n <= |b| && a[..n] == b[..n]
    ensures PathsAfter(given, a, n) == PathsAfter(given, b, n) && ReadAfter(a, n) == ReadAfter(b, n)
    ensures TriedAfter(a, n) == TriedAfter(b, n)
  {
    assert forall k | 0 <= k < n :: a[k] == a[..n][k] && b[k] == b[..n][k];
    if n > 0 {
      assert a[..n - 1] == a[..n][..n - 1] && b[..n - 1] == b[..n][..n - 1];
      SamePrefix(given, a, b, n - 1);
    }
  }

  lemma {:induction false} SameTries(q: PeRequest, o: Outside, given: map<nat, Image>, a: seq<Try>, b: seq<Try>, n: nat)
    requires |q.report.modules| == |q.selections| && History(q, o, given, a) && History(q, o, given, b)
    requires n <= |a| && n <= |b|
    ensures a[..n] == b[..n]
  {
    hide MicrosoftEnabled, PathsAfter, ReadAfter, TriedAfter, TryOf, FirstWanted, Fetchable;
    if n > 0 {
      SameTries(q, o, given, a, b, n - 1);
      SamePrefix(given, a, b, n - 1);
      assert TryMade(q, o, given, a, n - 1) && TryMade(q, o, given, b, n - 1);
      assert a[..n] == a[..n - 1] + [a[n - 1]] && b[..n] == b[..n - 1] + [b[n - 1]];
    }
  }

  /** The run is over: the stack walk failed, or nothing more is to be tried. */
  ghost predicate Over(q: PeRequest, o: Outside, given: map<nat, Image>, log: seq<Try>)
    requires |q.report.modules| == |q.selections|
  {
    o.walk(PathsAfter(given, log, |log|)).None? || Exhausted(q, o, given, log)
  }

  lemma GoesOn(q: PeRequest, o: Outside, given: map<nat, Image>, log: seq<Try>, n: nat)
    requires |q.report.modules| == |q.selections| && History(q, o, given, log) && n < |log|
    ensures !Over(q, o, given, log[..n])
  {
    hide MicrosoftEnabled, PathsAfter, ReadAfter, TriedAfter, TryOf, FirstWanted, Fetchable;
    SamePrefix(given, log[..n], log, n);
    assert TryMade(q, o, given, log, n);
  }

  /** The outside world determines the fetches. */
  lemma FetchesDetermined(q: PeRequest, o: Outside, given: map<nat, Image>, a: seq<Try>, b: seq<Try>)
    requires |q.report.modules| == |q.selections| && History(q, o, given, a) && History(q, o, given, b)
    requires Over(q, o, given, a) && Over(q, o, given, b)
    ensures a == b
  {
    hide History, Over;
    var n := Least(|a|, |b|);
    SameTries(q, o, given, a, b, n);
    assert a[..|a|] == a && b[..|b|] == b;
    if |a| < |b| {
      GoesOn(q, o, given, b, n);
    } else if |b| < |a| {
      GoesOn(q, o, given, a, n);
    }
  }

  /** At most sixteen modules are tried, and none twice. */
  lemma TriedOnce(q: PeRequest, o: Outside, given: map<nat, Image>, log: seq<Try>)
    requires |q.report.modules| == |q.selections| && History(q, o, given, log)
    ensures |log| <= MAX_REQUESTS
    ensures forall j, k | 0 <= j < k < |log| :: log[j].index != log[k].index
  {
    hide MicrosoftEnabled, PathsAfter, ReadAfter, TryOf;
    if |log| > 0 {
      assert TryMade(q, o, given, log, |log| - 1);
    }
    forall j, k | 0 <= j < k < |log|
      ensures log[j].index != log[k].index
    {
      assert TryMade(q, o, given, log, k);
      assert log[j].index in TriedAfter(log, k);
    }
  }

  /** The images gained total at most 64 MiB; at most one byte more is ever read. */
  lemma {:induction false} BytesBounded(q: PeRequest, o: Outside, given: map<nat, Image>, log: seq<Try>, n: nat)
    requires |q.report.modules| == |q.selections| && History(q, o, given, log) && n <= |log|
    ensures GainedAfter(log, n) <= MAX_TOTAL_BYTES && GainedAfter(log, n) <= ReadAfter(log, n) <= MAX_TOTAL_BYTES + 1
  {
    hide WantedAfter, TryOf, MicrosoftEnabled;
    if n > 0 {
      BytesBounded(q, o, given, log, n - 1);
      assert TryMade(q, o, given, log, n - 1);
      ReadAtMost(q, o, n - 1, log[n - 1].index, LimitAt(ReadAfter(log, n - 1)));
    }
  }

  /** No given image is replaced; every added one is for a fetchable module and has its captured identity. */
  lemma {:induction false} OnlyVerifiedAdded(q: PeRequest, o: Outside, given: map<nat, Image>, log: seq<Try>, n: nat)
    requires |q.report.modules| == |q.selections| && History(q, o, given, log) && n <= |log|
    ensures var paths := PathsAfter(given, log, n);
            && (forall i | i in given :: i in paths && paths[i] == given[i])
            && (forall i | i in paths && i !in given ::
                  && i < |q.selections| && Fetchable(q, i) && paths[i].Fetched?
                  && IdentityVerified(o, q.selections[i].identity, paths[i].content))
  {
    hide MicrosoftEnabled, Fetchable, IdentityVerified, ReadAfter, TryOf, TryMade, WantedAfter;
    if n > 0 {
      OnlyVerifiedAdded(q, o, given, log, n - 1);
      TryVerified(q, o, given, log, n - 1);
    }
  }

  /** A try is for a fetchable module without an image, and gains only a verified one. */
  lemma TryVerified(q: PeRequest, o: Outside, given: map<nat, Image>, log: seq<Try>, n: nat)
    requires |q.report.modules| == |q.selections| && History(q, o, given, log) && n < |log|
    ensures var t := log[n];
            && t.index < |q.selections| && Fetchable(q, t.index) && t.index !in PathsAfter(given, log, n)
            && (t.gained.Some? ==> IdentityVerified(o, q.selections[t.index].identity, t.gained.value))
  {
    hide MicrosoftEnabled, Fetchable, IdentityVerified, ReadAfter, TryOf, WantedAfter, PathsAfter;
    assert TryMade(q, o, given, log, n);
    GainedVerified(q, o, n, log[n].index, LimitAt(ReadAfter(log, n)));
  }

  lemma GainedVerified(q: PeRequest, o: Outside, n: nat, i: nat, limit: nat)
    requires i < |q.report.modules| == |q.selections| && Fetchable(q, i)
    ensures var t := TryOf(q, o, n, i, limit);
            t.gained.Some? ==> IdentityVerified(o, q.selections[i].identity, t.gained.value)
  {
    hide IdentityVerified, ReadOf, ReadBreaks, ProxyUrl;
  }

  lemma TryOutcome(q: PeRequest, o: Outside, n: nat, i: nat, limit: nat)
    requires i < |q.report.modules| == |q.selections| && Fetchable(q, i) && ValidRef(o.saved(i))
    ensures var t := TryOf(q, o, n, i, limit);
            && ValidOutcome(t.outcome) && t.outcome.stage.Unwinding?
            && (t.outcome.outcome.Found? <==> t.gained.Some?)
  {
    hide IdentityVerified, ReadOf, ReadBreaks, ProxyUrl, Fetchable, ValidRef;
  }

  /** What the run reports about fetched images is what the merge of a whole run relies on. */
  lemma {:induction false} OutcomesMerge(
    p: PlanInputs, q: PeRequest, o: Outside, given: map<nat, Image>, log: seq<Try>, n: nat)
    requires p.selections == q.selections && |q.report.modules| == |q.selections|
    requires forall i :: ValidRef(o.saved(i))
    requires History(q, o, given, log) && n <= |log|
    ensures PublicOutcomesOk(p, OutcomesAfter(log, n))
  {
    hide MicrosoftEnabled, TryOf, ValidRef, ValidOutcome, PathsAfter, ReadAfter;
    if n > 0 {
      OutcomesMerge(p, q, o, given, log, n - 1);
      assert TryMade(q, o, given, log, n - 1);
      TryOutcome(q, o, n - 1, log[n - 1].index, LimitAt(ReadAfter(log, n - 1)));
    }
  }
}
