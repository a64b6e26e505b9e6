/** Asking the engine: posting, polling and reposting under one deadline. */
module Transport {
  import opened Basics
  import opened Text
  import opened Json
  import opened Planner

  /** What comes back of one HTTP exchange. */
  datatype Reply =
    | TimedOut
    | Broken
    | Response(status: u16, body: Body)

  datatype Body = ReadFailed | TooLarge | NotJson | Value(v: Json)

  /** What goes out: the body of the partition's request, or a poll of one pending request. */
  datatype Sent = Post(body: Request) | Poll(id: string)

  /**
   The outside world of one run: the reply to the n-th exchange, the time that passes before the first
   one and during each, and how much longer than asked each pause lasts. Times are in nanoseconds.
   */
  datatype World = World(reply: nat -> Reply, start: nat, spend: nat -> nat, linger: nat -> nat)

  const NANOS_PER_SECOND: nat := 1_000_000_000
  const PAUSE: nat := 50_000_000
  const MAX_POSTS: nat := 3

  datatype Attempt = Attempt(operation: string, status: Option<u16>, reason: Option<string>)

  datatype TransportEvidence = TransportEvidence(attempts: seq<Attempt>, response: Option<Json>, failure: Option<string>)

  function StripRequests(s: string): string {
    if "/requests/" <= s then s[|"/requests/"|..] else s
  }

  predicate IsRequestId(s: string) {
    s != "" && |s| <= 128 && forall i | 0 <= i < |s| :: IsHexDigit(s[i]) || s[i] == '-'
  }

  /** The id under which a pending reply may be polled. */
  function PendingId(v: Json): Option<string> {
    var field :- if Get(v, "request_id").Some? then Get(v, "request_id") else Get(v, "id");
    var text :- AsStr(field);
    if IsRequestId(StripRequests(text)) then Some(StripRequests(text)) else None
  }

  predicate IsSuccess(status: u16) {
    200 <= status < 300
  }

  /** Why a reply cannot be used, if it cannot. */
  function FaultOf(r: Reply): Option<string> {
    match r
    case TimedOut => Some("transport_timeout")
    case Broken => Some("transport_error")
    case Response(status, body) =>
      if body.ReadFailed? then Some("response_read_failed")
      else if body.TooLarge? then Some("response_too_large")
      else if !IsSuccess(status) then Some("http_" + Numeral(status, Decimal))
      else if body.NotJson? then Some("invalid_response_json")
      else None
  }

  /** What a reply means for the run. */
  datatype Meaning =
    | Completed(v: Json)
    | Pending(id: string)
    | Lost
    | Failing(reason: string, response: Option<Json>)

  function MeaningOf(r: Reply, polling: bool): Meaning {
    if r.Response? && r.status == 404 && polling then Lost
    else
      match FaultOf(r)
      case Some(reason) => Failing(reason, None)
      case None =>
        var v := r.body.v;
        if GetStr(v, "status") == Some("completed") then Completed(v)
        else if GetStr(v, "status") == Some("pending") then
          match PendingId(v)
          case Some(id) => Pending(id)
          case None => Failing("invalid_pending_request_id", None)
        else Failing("unexpected_response_state", Some(v))
  }

  function MeaningAt(w: World, sent: seq<Sent>, i: nat): Meaning
    requires i < |sent|
  {
    MeaningOf(w.reply(i), sent[i].Poll?)
  }

  function Clamp(n: nat, low: nat, high: nat): nat {
    if n < low then low else if n > high then high else n
  }

  function Remaining(deadline: nat, now: nat): nat {
    if now < deadline then deadline - now else 0
  }

  /** The deadline of a run, counted from its start. */
  function DeadlineOf(budgetSeconds: nat): (deadline: nat)
    ensures NANOS_PER_SECOND <= deadline <= 300 * NANOS_PER_SECOND
  {
    Clamp(budgetSeconds, 1, 300) * NANOS_PER_SECOND
  }

  /** The pause after a pending reply, as long as the deadline leaves. */
  function PauseAfter(w: World, sent: seq<Sent>, deadline: nat, i: nat, now: nat): nat
    requires i < |sent|
  {
    if MeaningAt(w, sent, i).Pending? then Least(PAUSE, Remaining(deadline, now)) + w.linger(i) else 0
  }

  /** The time when the run has made `n` exchanges and paused after the last one if it had to. */
  function Clock(w: World, sent: seq<Sent>, deadline: nat, n: nat): nat
    requires n <= |sent|
  {
    if n == 0 then w.start
    else
      var now := Clock(w, sent, deadline, n - 1) + w.spend(n - 1);
      now + PauseAfter(w, sent, deadline, n - 1, now)
  }

  /**
   Each exchange starts before the deadline and is what the reply before it asks for: a poll of exactly
   that pending id, or the same body again.
   */
  predicate Follows(request: Request, w: World, deadline: nat, sent: seq<Sent>) {
    forall i | 0 <= i < |sent| :: FollowsAt(request, w, deadline, sent, i)
  }

  predicate FollowsAt(request: Request, w: World, deadline: nat, sent: seq<Sent>, i: nat)
    requires i < |sent|
  {
    && Clock(w, sent, deadline, i) < deadline
    && if i == 0 then sent[i] == Post(request)
       else
         match MeaningAt(w, sent, i - 1)
         case Pending(id) => sent[i] == Poll(id)
         case Lost => sent[i] == Post(request)
         case Completed(_) => false
         case Failing(_, _) => false
  }

  function Posts(sent: seq<Sent>): (n: nat)
    ensures n <= |sent|
  {
    if sent == [] then 0 else Posts(sent[..|sent| - 1]) + (if sent[|sent| - 1].Post? then 1 else 0)
  }

  /** The label under which the i-th exchange is recorded. */
  function Operation(sent: seq<Sent>, i: nat): string
    requires i < |sent|
  {
    if sent[i].Poll? then "poll:" + Numeral(i, Decimal) else "post:" + Numeral(Posts(sent[..i + 1]), Decimal)
  }

  function AttemptOf(w: World, sent: seq<Sent>, i: nat): Attempt
    requires i < |sent|
  {
    var r := w.reply(i);
    var lost := r.Response? && r.status == 404 && sent[i].Poll?;
    Attempt(Operation(sent, i), if r.Response? then Some(r.status) else None, if lost then None else FaultOf(r))
  }

  /** One entry per exchange, in order. */
  predicate Recorded(w: World, sent: seq<Sent>, attempts: seq<Attempt>) {
    |attempts| == |sent| && forall i | 0 <= i < |sent| :: attempts[i] == AttemptOf(w, sent, i)
  }

  /** How a run ends after the exchanges `sent`. */
  predicate Ends(w: World, deadline: nat, sent: seq<Sent>, e: TransportEvidence) {
    var late := Clock(w, sent, deadline, |sent|) >= deadline;
    if sent == [] then late && e.failure == Some("partition_deadline_exceeded") && e.response.None?
    else
      match MeaningAt(w, sent, |sent| - 1)
      case Completed(v) => e.failure.None? && e.response == Some(v)
      case Failing(reason, response) => e.failure == Some(reason) && e.response == response
      case Pending(_) => late && e.failure == Some("partition_deadline_exceeded") && e.response.None?
      case Lost =>
        && e.response.None?
        && (if late then e.failure == Some("partition_deadline_exceeded")
            else e.failure == Some("repost_budget_exhausted") && Posts(sent) == MAX_POSTS)
  }

  lemma MeaningKept(w: World, sent: seq<Sent>, next: Sent, i: nat)
    requires i < |sent|
    ensures MeaningAt(w, sent + [next], i) == MeaningAt(w, sent, i)
    ensures AttemptOf(w, sent + [next], i) == AttemptOf(w, sent, i)
  {
    hide MeaningOf, FaultOf, Posts, Numeral;
    assert (sent + [next])[..i + 1] == sent[..i + 1];
  }

  predicate Next(request: Request, w: World, sent: seq<Sent>, next: Sent) {
    match next
    case Poll(id) => sent != [] && MeaningAt(w, sent, |sent| - 1) == Pending(id)
    case Post(body) => body == request && (sent == [] || MeaningAt(w, sent, |sent| - 1) == Lost)
  }

  lemma {:induction false} ClockKept(w: World, sent: seq<Sent>, next: Sent, deadline: nat, n: nat)
    requires n <= |sent|
    ensures Clock(w, sent + [next], deadline, n) == Clock(w, sent, deadline, n)
  {
    hide MeaningAt;
    if n > 0 {
      ClockKept(w, sent, next, deadline, n - 1);
      MeaningKept(w, sent, next, n - 1);
    }
  }

  lemma OneMoreFollows(request: Request, w: World, deadline: nat, sent: seq<Sent>, next: Sent)
    requires Follows(request, w, deadline, sent) && Next(request, w, sent, next)
    requires Clock(w, sent, deadline, |sent|) < deadline
    ensures Follows(request, w, deadline, sent + [next])
  {
    hide MeaningAt, Clock;
    var more := sent + [next];
    forall i | 0 <= i < |more|
      ensures FollowsAt(request, w, deadline, more, i)
    {
      ClockKept(w, sent, next, deadline, i);
      if i > 0 {
        MeaningKept(w, sent, next, i - 1);
      }
      if i < |sent| {
        assert more[i] == sent[i] && FollowsAt(request, w, deadline, sent, i);
      }
    }
  }

  /** The clock after one more exchange. */
  lemma OneMoreTick(w: World, sent: seq<Sent>, next: Sent, deadline: nat)
    ensures var now := Clock(w, sent, deadline, |sent|) + w.spend(|sent|);
            Clock(w, sent + [next], deadline, |sent| + 1) == now + PauseAfter(w, sent + [next], deadline, |sent|, now)
  {
    hide MeaningAt;
    ClockKept(w, sent, next, deadline, |sent|);
  }

  lemma OneMoreRecorded(w: World, sent: seq<Sent>, next: Sent, attempts: seq<Attempt>)
    requires Recorded(w, sent, attempts)
    ensures Recorded(w, sent + [next], attempts + [AttemptOf(w, sent + [next], |sent|)])
  {
    hide AttemptOf;
    forall i | 0 <= i < |sent|
      ensures AttemptOf(w, sent + [next], i) == AttemptOf(w, sent, i)
    {
      MeaningKept(w, sent, next, i);
    }
  }

  lemma OneMorePost(sent: seq<Sent>, next: Sent)
    ensures Posts(sent + [next]) == Posts(sent) + (if next.Post? then 1 else 0)
  {
    assert (sent + [next])[..|sent|] == sent;
  }

  /**
   `execute`: the loop that posts, polls and reposts. The deadline bounds it because every pause uses up
   remaining time, and a lost request turns polling into posting. `sent` is the record of what went out.
   */
  method Execute(request: Request, budgetSeconds: nat, w: World) returns (e: TransportEvidence, sent: seq<Sent>)
    ensures Follows(request, w, DeadlineOf(budgetSeconds), sent)
    ensures Posts(sent) <= MAX_POSTS
    ensures Recorded(w, sent, e.attempts)
    ensures Ends(w, DeadlineOf(budgetSeconds), sent, e)
  {
    hide MeaningOf, FaultOf, Posts, Recorded, AttemptOf, Follows, Clock;
    var deadline := DeadlineOf(budgetSeconds);
    var now: nat := w.start;
    var attempts: seq<Attempt>, pollId: Option<string>, posts: nat := [], None, 0;
    sent := [];
    NothingSent(request, w, deadline);
    while true
      invariant Follows(request, w, deadline, sent) && Recorded(w, sent, attempts) && |attempts| == |sent|
      invariant posts == Posts(sent) <= MAX_POSTS && now == Clock(w, sent, deadline, |sent|)
      invariant pollId.Some? ==> sent != [] && MeaningAt(w, sent, |sent| - 1) == Pending(pollId.value)
      invariant pollId.None? ==> sent == [] || MeaningAt(w, sent, |sent| - 1) == Lost
      decreases Remaining(deadline, now), pollId.Some?
    {
      var index := |attempts|;
      if Remaining(deadline, now) == 0 {
        return TransportEvidence(attempts, None, Some("partition_deadline_exceeded")), sent;
      }
      var next: Sent, operation: string;
      if pollId.Some? {
        next, operation := Poll(pollId.value), "poll:" + Numeral(index, Decimal);
      } else {
        if posts == MAX_POSTS {
          return TransportEvidence(attempts, None, Some("repost_budget_exhausted")), sent;
        }
        posts := posts + 1;
        next, operation := Post(request), "post:" + Numeral(posts, Decimal);
      }
      OneMoreFollows(request, w, deadline, sent, next);
      OneMoreTick(w, sent, next, deadline);
      OneMorePost(sent, next);
      OneMoreRecorded(w, sent, next, attempts);
      sent := sent + [next];
      var reply := w.reply(index);
      now := now + w.spend(index);
      OperationIs(w, sent, index);
      if reply.Response? && reply.status == 404 && pollId.Some? {
        LostMeaning(reply);
        attempts := attempts + [Attempt(operation, Some(reply.status), None)];
        pollId := None;
        continue;
      }
      attempts := attempts + [Attempt(operation, if reply.Response? then Some(reply.status) else None, FaultOf(reply))];
      match MeaningOf(reply, pollId.Some?) {
        case Completed(v) =>
          return TransportEvidence(attempts, Some(v), None), sent;
        case Failing(reason, response) =>
          return TransportEvidence(attempts, response, Some(reason)), sent;
        case Pending(id) =>
          pollId := Some(id);
          now := now + Least(PAUSE, Remaining(deadline, now)) + w.linger(index);
        case Lost =>
          NotLost(reply, next.Poll?);
          assert false;
      }
    }
  }

  lemma NothingSent(request: Request, w: World, deadline: nat)
    ensures Follows(request, w, deadline, []) && Posts([]) == 0 && Recorded(w, [], []) && Clock(w, [], deadline, 0) == w.start
  {
  }

  lemma OperationIs(w: World, sent: seq<Sent>, i: nat)
    requires i + 1 == |sent|
    ensures var r := w.reply(i);
            AttemptOf(w, sent, i) ==
            Attempt(if sent[i].Poll? then "poll:" + Numeral(i, Decimal) else "post:" + Numeral(Posts(sent), Decimal),
                    if r.Response? then Some(r.status) else None,
                    if r.Response? && r.status == 404 && sent[i].Poll? then None else FaultOf(r))
  {
    hide FaultOf;
    assert sent[..i + 1] == sent;
  }

  lemma LostMeaning(r: Reply)
    requires r.Response? && r.status == 404
    ensures MeaningOf(r, true) == Lost
  {
  }

  lemma NotLost(r: Reply, polling: bool)
    requires !(r.Response? && r.status == 404 && polling)
    ensures !MeaningOf(r, polling).Lost?
  {
    hide FaultOf, PendingId;
  }

  // ----- the laws of a run -----

  lemma PendingMeaning(r: Reply, polling: bool)
    ensures MeaningOf(r, polling).Pending? ==> IsRequestId(MeaningOf(r, polling).id)
    ensures MeaningOf(r, polling).Lost? ==> polling && r.Response? && r.status == 404
  {
    hide FaultOf, IsRequestId;
  }

  /** All posts carry the same body, and every poll names the id of the reply just before it. */
  lemma WhatIsSent(request: Request, w: World, deadline: nat, sent: seq<Sent>, i: nat)
    requires Follows(request, w, deadline, sent) && i < |sent|
    ensures sent[i].Post? ==> sent[i].body == request
    ensures sent[i].Poll? ==> i > 0 && MeaningAt(w, sent, i - 1) == Pending(sent[i].id) && IsRequestId(sent[i].id)
    ensures sent[i].Post? && i > 0 ==>
              sent[i - 1].Poll? && w.reply(i - 1).Response? && w.reply(i - 1).status == 404
  {
    hide MeaningOf, IsRequestId, Clock;
    assert FollowsAt(request, w, deadline, sent, i);
    if i > 0 {
      PendingMeaning(w.reply(i - 1), sent[i - 1].Poll?);
    }
  }

  /** A run succeeds exactly when its last reply is a 2xx with a completed JSON body, which it then returns. */
  lemma SuccessIsCompletion(w: World, deadline: nat, sent: seq<Sent>, e: TransportEvidence)
    requires Ends(w, deadline, sent, e)
    ensures e.failure.None? <==>
              && sent != []
              && var last := w.reply(|sent| - 1);
              && last.Response? && IsSuccess(last.status) && last.body.Value?
              && GetStr(last.body.v, "status") == Some("completed")
    ensures e.failure.None? ==> e.response == Some(w.reply(|sent| - 1).body.v)
  {
    hide PendingId, Posts, Clock;
  }

  lemma {:induction false} PostsGrow(sent: seq<Sent>, n: nat)
    requires n <= |sent|
    ensures Posts(sent[..n]) <= Posts(sent)
    decreases |sent|
  {
    if n == |sent| {
      assert sent[..n] == sent;
    } else {
      assert sent[..|sent| - 1][..n] == sent[..n];
      PostsGrow(sent[..|sent| - 1], n);
    }
  }

  lemma {:induction false} SameClock(w: World, deadline: nat, a: seq<Sent>, b: seq<Sent>, n: nat)
    requires n <= |a| && n <= |b| && a[..n] == b[..n]
    ensures Clock(w, a, deadline, n) == Clock(w, b, deadline, n)
  {
    hide MeaningOf;
    if n > 0 {
      assert a[n - 1] == a[..n][n - 1] && b[n - 1] == b[..n][n - 1];
      assert a[..n - 1] == a[..n][..n - 1] && b[..n - 1] == b[..n][..n - 1];
      SameClock(w, deadline, a, b, n - 1);
    }
  }

  /** Two runs of the same world send the same as long as both go on. */
  lemma {:induction false} SameSent(request: Request, w: World, deadline: nat, a: seq<Sent>, b: seq<Sent>, n: nat)
    requires Follows(request, w, deadline, a) && Follows(request, w, deadline, b) && n <= |a| && n <= |b|
    ensures a[..n] == b[..n]
  {
    hide MeaningOf, Clock;
    if n > 0 {
      SameSent(request, w, deadline, a, b, n - 1);
      assert FollowsAt(request, w, deadline, a, n - 1) && FollowsAt(request, w, deadline, b, n - 1);
      if n > 1 {
        assert a[n - 2] == a[..n - 1][n - 2] && b[n - 2] == b[..n - 1][n - 2];
      }
      assert a[..n] == a[..n - 1] + [a[n - 1]] && b[..n] == b[..n - 1] + [b[n - 1]];
    }
  }

  /** A run that goes on does not end. */
  lemma GoesOn(request: Request, w: World, deadline: nat, sent: seq<Sent>, n: nat, e: TransportEvidence)
    requires Follows(request, w, deadline, sent) && Posts(sent) <= MAX_POSTS && n < |sent|
    ensures !Ends(w, deadline, sent[..n], e)
  {
    hide MeaningOf, Clock;
    var a := sent[..n];
    SameClock(w, deadline, a, sent, n);
    assert FollowsAt(request, w, deadline, sent, n);
    if n > 0 {
      assert a[n - 1] == sent[n - 1];
      if MeaningAt(w, sent, n - 1).Lost? {
        assert sent[..n + 1] == a + [sent[n]];
        OneMorePost(a, sent[n]);
        PostsGrow(sent, n + 1);
      }
    }
  }

  /** The world determines the run: what is sent and how it ends. */
  lemma RunDetermined(
    request: Request, w: World, deadline: nat, a: seq<Sent>, x: TransportEvidence, b: seq<Sent>,
    y: TransportEvidence)
    requires Follows(request, w, deadline, a) && Posts(a) <= MAX_POSTS && Recorded(w, a, x.attempts) && Ends(w, deadline, a, x)
    requires Follows(request, w, deadline, b) && Posts(b) <= MAX_POSTS && Recorded(w, b, y.attempts) && Ends(w, deadline, b, y)
    ensures a == b && x == y
  {
    hide MeaningOf, Clock, Follows, AttemptOf, Posts;
    var n := Least(|a|, |b|);
    SameSent(request, w, deadline, a, b, n);
    assert a[..|a|] == a && b[..|b|] == b;
    if |a| < |b| {
      GoesOn(request, w, deadline, b, n, x);
    } else if |b| < |a| {
      GoesOn(request, w, deadline, a, n, y);
    }
    assert |a| == |b|;
    assert x.attempts == y.attempts;
  }

  /** Failures after which a public partition counts as unavailable instead of failing the run. */
  predicate Retryable(reason: string) {
    || reason == "partition_deadline_exceeded" || reason == "transport_timeout" || reason == "transport_error"
    || reason == "response_read_failed" || reason == "repost_budget_exhausted"
    || reason == "http_408" || reason == "http_429" || reason == "http_500"
    || reason == "http_502" || reason == "http_503" || reason == "http_504"
  }

  // ----- the legacy client -----

  datatype LegacyReply = NoReply | Replied(status: u16, body: Option<Json>)

  const MAX_REPOSTS: nat := 3
  const MAX_POLLS: nat := 8

  function State(v: Json): string {
    GetOr(GetStr(v, "status"), "completed")
  }

  function LegacyId(v: Json): Option<string> {
    var field :- if Get(v, "request_id").Some? then Get(v, "request_id") else Get(v, "id");
    var text :- AsStr(field);
    var id := StripRequests(text);
    if id != "" && forall i | 0 <= i < |id| :: IsHexDigit(id[i]) || id[i] == '-' then Some(id) else None
  }

  /** How the client ends, and after how many exchanges. */
  datatype LegacyEnd = LegacyEnd(result: Result<Json>, attempts: nat)

  /** How the polls of one request end: with a result, with a lost request, or by their number. */
  datatype PollEnd = PollEnd(found: Option<Json>, lost: bool, attempts: nat)

  function Polls(reply: nat -> LegacyReply, at: nat, left: nat): PollEnd
    decreases left
  {
    if left == 0 then PollEnd(None, false, at)
    else
      match reply(at)
      case Replied(404, _) => PollEnd(None, true, at + 1)
      case Replied(_, Some(v)) =>
        if State(v) != "pending" then PollEnd(Some(v), false, at + 1) else Polls(reply, at + 1, left - 1)
      case _ => Polls(reply, at + 1, left - 1)
  }

  /** The run from the given post on, after `at` exchanges. */
  function Posting(reply: nat -> LegacyReply, post: nat, at: nat): LegacyEnd
    requires post <= MAX_REPOSTS
    decreases MAX_REPOSTS - post
  {
    if post == MAX_REPOSTS then LegacyEnd(Failure, at)
    else
      match reply(at)
      case NoReply => Posting(reply, post + 1, at + 1)
      case Replied(status, body) =>
        if !IsSuccess(status) then
          if status == 404 then Posting(reply, post + 1, at + 1) else LegacyEnd(Failure, at + 1)
        else if body.None? then LegacyEnd(Failure, at + 1)
        else if State(body.value) != "pending" then LegacyEnd(Success(body.value), at + 1)
        else if LegacyId(body.value).None? then LegacyEnd(Failure, at + 1)
        else
          var polls := Polls(reply, at + 1, MAX_POLLS);
          if polls.found.Some? then LegacyEnd(Success(polls.found.value), polls.attempts)
          else Posting(reply, post + 1, polls.attempts)
  }

  method PollLegacy(reply: nat -> LegacyReply, at: nat) returns (found: Option<Json>, lost: bool, attempts: nat)
    ensures PollEnd(found, lost, attempts) == Polls(reply, at, MAX_POLLS)
  {
    attempts := at;
    for poll := 0 to MAX_POLLS
      invariant Polls(reply, at, MAX_POLLS) == Polls(reply, attempts, MAX_POLLS - poll)
    {
      var answer := reply(attempts);
      attempts := attempts + 1;
      if answer.Replied? && answer.status == 404 {
        return None, true, attempts;
      }
      if answer.NoReply? || answer.body.None? {
        continue;
      }
      if State(answer.body.value) != "pending" {
        return answer.body, false, attempts;
      }
    }
    return None, false, attempts;
  }

  /** The legacy post and poll loops. */
  method SymbolicateLegacy(reply: nat -> LegacyReply) returns (r: Result<Json>, attempts: nat)
    ensures LegacyEnd(r, attempts) == Posting(reply, 0, 0)
  {
    attempts := 0;
    for post := 0 to MAX_REPOSTS
      invariant Posting(reply, 0, 0) == Posting(reply, post, attempts)
    {
      var answer := reply(attempts);
      attempts := attempts + 1;
      if answer.NoReply? {
        if post + 1 == MAX_REPOSTS {
          return Failure, attempts;
        }
        continue;
      }
      if !IsSuccess(answer.status) {
        if answer.status == 404 && post + 1 < MAX_REPOSTS {
          continue;
        }
        return Failure, attempts;
      }
      if answer.body.None? {
        return Failure, attempts;
      }
      if State(answer.body.value) != "pending" {
        return Success(answer.body.value), attempts;
      }
      if LegacyId(answer.body.value).None? {
        return Failure, attempts;
      }
      var found, lost;
      found, lost, attempts := PollLegacy(reply, attempts);
      if found.Some? {
        return Success(found.value), attempts;
      }
      if !lost && post + 1 == MAX_REPOSTS {
        return Failure, attempts;
      }
    }
    r := Failure;
  }

  /** The reply just read is a JSON body that is not pending. */
  predicate EndsOn(reply: nat -> LegacyReply, attempts: nat, v: Json) {
    attempts > 0 && reply(attempts - 1).Replied? && reply(attempts - 1).body == Some(v) && State(v) != "pending"
  }

  lemma {:induction false} PollsBounded(reply: nat -> LegacyReply, at: nat, left: nat)
    ensures var e := Polls(reply, at, left);
            at <= e.attempts <= at + left && (e.found.Some? ==> EndsOn(reply, e.attempts, e.found.value))
    decreases left
  {
    if left > 0 {
      PollsBounded(reply, at + 1, left - 1);
    }
  }

  lemma {:induction false} PostingBounded(reply: nat -> LegacyReply, post: nat, at: nat)
    requires post <= MAX_REPOSTS
    ensures var e := Posting(reply, post, at);
            && at <= e.attempts <= at + (MAX_REPOSTS - post) * (1 + MAX_POLLS)
            && (e.result.Success? ==> EndsOn(reply, e.attempts, e.result.value))
    decreases MAX_REPOSTS - post
  {
    hide Polls;
    if post < MAX_REPOSTS {
      OneReply(reply, at);
      PollsBounded(reply, at + 1, MAX_POLLS);
      PostingBounded(reply, post + 1, at + 1);
      PostingBounded(reply, post + 1, Polls(reply, at + 1, MAX_POLLS).attempts);
    }
  }

  lemma OneReply(reply: nat -> LegacyReply, at: nat)
    ensures reply(at).Replied? && reply(at).body.Some? && State(reply(at).body.value) != "pending" ==>
              EndsOn(reply, at + 1, reply(at).body.value)
  {
  }

  /** The legacy client makes at most twenty-seven attempts, and a result is its last reply, never a pending one. */
  lemma LegacyRun(reply: nat -> LegacyReply)
    ensures var e := Posting(reply, 0, 0);
            e.attempts <= 27 && (e.result.Success? ==> EndsOn(reply, e.attempts, e.result.value))
  {
    PostingBounded(reply, 0, 0);
  }
}
