/**
 * The replaying analyzer worker. A worker run cannot start processes: it answers the adapter's calls from recorded
 * replies, and stops at the first request without one. Its driver executes that request, appends the reply and starts
 * over.
 *
 * An adapter is deterministic: what it does next is a function of the outcomes of its calls so far. It makes at most
 * `limit` calls, whatever their outcomes.
 */
module Replay {
  import opened Bytes

  const MAX_ARGUMENTS := 128
  const MAX_ARGUMENT := 65536
  const MAX_TIMEOUT := 240.0
  const MAX_OUTPUT := 4194304
  const STAGES := 8

  datatype Options = Options(
    text: bool, capture: bool, others: bool, cwd: Option<string>, env: set<string>, utf8: bool, timeout: real,
    check: bool)
  datatype Call = Call(args: seq<string>, options: Options)
  datatype Request = Request(tool: string, argv: seq<string>, cwd: string)
  datatype Response = Response(code: Option<int>, out: Option<seq<byte>>, err: Option<seq<byte>>, verified: bool)
  datatype Reply = Reply(request: Request, response: Response)

  /** What the adapter's call returns or raises. */
  datatype Outcome =
    | Returned(args: seq<string>, code: int, out: seq<byte>, err: seq<byte>)
    | CalledProcessError(args: seq<string>, code: int, out: seq<byte>, err: seq<byte>)
    | Unadapted(reason: string)

  datatype Action = Run(call: Call) | Finish(findings: seq<string>) | Fail
  datatype Adapter = Adapter(next: seq<Outcome> -> Action, limit: nat) {
    ghost predicate Valid() {
      forall history :: |history| >= limit ==> !next(history).Run?
    }
  }

  /** Where the worker runs: the bound tools, and its directory. */
  datatype Domain = Domain(tools: map<string, string>, cwd: string)

  // ---- One managed call ----

  const UNSAFE := {"DYLD_INSERT_LIBRARIES", "PYTHONSTARTUP", "LD_PRELOAD"}

  /** The checks before the transport is asked; Some where they raise. */
  function Refusal(d: Domain, c: Call): Option<string> {
    var o := c.options;
    if o.env * UNSAFE != {} then Some("unsafe adapter environment")
    else if c.args == [] || |c.args| > MAX_ARGUMENTS
            || exists i :: 0 <= i < |c.args| && (|c.args[i]| > MAX_ARGUMENT || 0 as char in c.args[i])
    then Some("invalid argv")
    else if c.args[0] !in d.tools then Some("unbound executable")
    else if o.others || !o.text || !o.capture then Some("unsupported options")
    else if o.cwd.Some? && o.cwd.value != d.cwd then Some("unbound cwd")
    else if !o.utf8 then Some("unsupported output decoding")
    else if !(0.0 < o.timeout <= MAX_TIMEOUT) then Some("invalid timeout")
    else None
  }

  function RequestOf(d: Domain, c: Call): Request
    requires Refusal(d, c).None?
  {
    Request(d.tools[c.args[0]], c.args, d.cwd)
  }

  /** The checks on the response, and what the call then returns or raises. */
  function OutcomeOf(c: Call, r: Response): Outcome {
    if !r.verified || r.code.None? then Unadapted("unverified broker result")
    else if r.out.None? || r.err.None? || |r.out.value| > MAX_OUTPUT || |r.err.value| > MAX_OUTPUT
    then Unadapted("invalid or oversized broker output")
    else if c.options.check && r.code.value != 0 then CalledProcessError(c.args, r.code.value, r.out.value, r.err.value)
    else Returned(c.args, r.code.value, r.out.value, r.err.value)
  }

  // ---- The direct run ----

  datatype Answer = Answered(response: Response) | Stopped

  datatype Ending =
    | Finished(findings: seq<string>, requests: seq<Request>)
    | Raised(requests: seq<Request>)
    | Halted(requests: seq<Request>)  // the last request could not be executed

  /** The adapter with every request executed where it is made; an answer may depend on all requests so far. */
  ghost function Direct(
    d: Domain, a: Adapter, answer: seq<Request> -> Answer, history: seq<Outcome>, requested: seq<Request>): (e: Ending)
    requires a.Valid()
    ensures requested <= e.requests
    decreases a.limit - |history|
  {
    match a.next(history)
    case Finish(findings) => Finished(findings, requested)
    case Fail => Raised(requested)
    case Run(c) =>
      if Refusal(d, c).Some? then Direct(d, a, answer, history + [Unadapted(Refusal(d, c).value)], requested)
      else
        var now := requested + [RequestOf(d, c)];
        match answer(now)
        case Stopped => Halted(now)
        case Answered(response) => Direct(d, a, answer, history + [OutcomeOf(c, response)], now)
  }

  // ---- The replaying worker ----

  const MISMATCH := "replayed request does not match immutable plan"

  datatype WorkerEnd =
    | Complete(findings: seq<string>, requests: seq<Request>)
    | Died(requests: seq<Request>)
    | Pending(request: Request, requests: seq<Request>)

  /** What the call sees for request number `index`, while there is a recorded reply for it. */
  function Replayed(c: Call, request: Request, reply: Reply): Outcome {
    if request != reply.request then Unadapted(MISMATCH) else OutcomeOf(c, reply.response)
  }

  ghost function Worker(
    d: Domain, a: Adapter, replies: seq<Reply>, history: seq<Outcome>, requested: seq<Request>): (e: WorkerEnd)
    requires a.Valid()
    ensures requested <= e.requests
    decreases a.limit - |history|
  {
    match a.next(history)
    case Finish(findings) => Complete(findings, requested)
    case Fail => Died(requested)
    case Run(c) =>
      if Refusal(d, c).Some? then Worker(d, a, replies, history + [Unadapted(Refusal(d, c).value)], requested)
      else
        var request, index := RequestOf(d, c), |requested|;
        if index < |replies| then
          Worker(d, a, replies, history + [Replayed(c, request, replies[index])], requested + [request])
        else Pending(request, requested + [request])
  }

  /** One worker process. `pending` is the request file it leaves behind, `record` its result file. */
  class WorkerProcess {
    const domain: Domain
    const replies: seq<Reply>
    var requested: seq<Request>
    var pending: Option<Request>
    var record: Option<(seq<string>, seq<Request>)>

    constructor (domain: Domain, replies: seq<Reply>)
      ensures this.domain == domain && this.replies == replies
      ensures requested == [] && pending.None? && record.None?
    {
      this.domain, this.replies := domain, replies;
      requested, pending, record := [], None, None;
    }

    /** `transport`, then the checks of the call; None where it raises `RequestPending`. */
    method Transport(c: Call) returns (r: Option<Outcome>)
      requires Refusal(domain, c).None?
      modifies `requested, `pending
      ensures requested == old(requested) + [RequestOf(domain, c)]
      ensures |old(requested)| < |replies| ==>
                r == Some(Replayed(c, RequestOf(domain, c), replies[|old(requested)|])) && pending == old(pending)
      ensures |old(requested)| >= |replies| ==> r.None? && pending == Some(RequestOf(domain, c))
    {
      var request, index := RequestOf(domain, c), |requested|;
      requested := requested + [request];
      if index < |replies| {
        var reply := replies[index];
        if request != reply.request { return Some(Unadapted(MISMATCH)); }
        return Some(OutcomeOf(c, reply.response));
      }
      pending := Some(request);
      r := None;
    }

    /** `main`: the exit status, with the file that goes with it. */
    method Work(a: Adapter) returns (status: int)
      requires a.Valid() && requested == [] && pending.None? && record.None?
      modifies this
      ensures var e := Worker(domain, a, replies, [], []);
              && requested == e.requests
              && (status == 0 <==> e.Complete?) && (status == 75 <==> e.Pending?)
              && record == (if e.Complete? then Some((e.findings, e.requests)) else None)
              && pending == (if e.Pending? then Some(e.request) else None)
    {
      var history: seq<Outcome> := [];
      while a.next(history).Run?
        invariant Worker(domain, a, replies, history, requested) == Worker(domain, a, replies, [], [])
        invariant pending.None? && record.None?
        decreases a.limit - |history|
      {
        var c := a.next(history).call;
        var refusal := Refusal(domain, c);
        if refusal.Some? {
          history := history + [Unadapted(refusal.value)];
        } else {
          var outcome := Transport(c);
          if outcome.None? { return 75; }
          history := history + [outcome.value];
        }
      }
      if a.next(history).Finish? {
        record := Some((a.next(history).findings, requested));
        status := 0;
      } else {
        status := 1;
      }
    }
  }

  // ---- Replay against the direct run ----

  function Requests(replies: seq<Reply>): (r: seq<Request>)
    ensures |r| == |replies|
  {
    seq(|replies|, i requires 0 <= i < |replies| => replies[i].request)
  }

  /** Every reply is what executing the requests up to its own answers. */
  ghost predicate Honest(replies: seq<Reply>, answer: seq<Request> -> Answer) {
    forall i :: 0 <= i < |replies| ==> answer(Requests(replies)[..i + 1]) == Answered(replies[i].response)
  }

  lemma {:induction false} PrefixSnoc<T>(p: seq<T>, x: T, whole: seq<T>)
    requires p + [x] <= whole
    ensures whole[|p|] == x && p + [x] == whole[..|p| + 1]
  {
    assert (p + [x])[|p|] == x;
  }

  /** Between a prefix and a longer list, the next element is that of the list. */
  lemma {:induction false} PrefixNext<T>(p: seq<T>, x: T, middle: seq<T>, whole: seq<T>)
    requires p <= middle <= whole && p + [x] <= whole && |p| < |middle|
    ensures middle[|p|] == x && p + [x] == middle[..|p| + 1] && p + [x] <= middle
  {
    PrefixSnoc(p, x, whole);
    assert middle[|p|] == whole[|p|];
  }

  lemma {:induction false} RequestsAt(replies: seq<Reply>, answer: seq<Request> -> Answer, i: nat)
    requires i < |replies|
    ensures Requests(replies)[i] == replies[i].request
    ensures Honest(replies, answer) ==> answer(Requests(replies)[..i + 1]) == Answered(replies[i].response)
  {}

  function Ended(e: Ending): WorkerEnd
    requires !e.Halted?
  {
    if e.Finished? then Complete(e.findings, e.requests) else Died(e.requests)
  }

  /**
   * A worker with honest replies to the first requests of the direct run stops at the next request of the direct run,
   * and ends as the direct run does once it has them all.
   */
  lemma {:induction false} ReplayFollows(
    d: Domain, a: Adapter, answer: seq<Request> -> Answer, replies: seq<Reply>, history: seq<Outcome>,
    requested: seq<Request>)
    requires a.Valid() && Honest(replies, answer)
    requires requested <= Requests(replies) <= Direct(d, a, answer, history, requested).requests
    ensures var e := Direct(d, a, answer, history, requested);
            var w := Worker(d, a, replies, history, requested);
            if |replies| < |e.requests|
            then w == Pending(e.requests[|replies|], e.requests[..|replies| + 1])
            else !e.Halted? && w == Ended(e)
    decreases a.limit - |history|
  {
    hide Refusal;
    hide RequestOf;
    hide OutcomeOf;
    hide Requests;
    hide Honest;
    var e := Direct(d, a, answer, history, requested);
    var action := a.next(history);
    if action.Run? {
      var c := action.call;
      if Refusal(d, c).Some? {
        RefusedStep(d, a, answer, replies, history, requested, c);
        ReplayFollows(d, a, answer, replies, history + [Unadapted(Refusal(d, c).value)], requested);
      } else {
        var now := requested + [RequestOf(d, c)];
        DirectMore(d, a, answer, history, requested, c);
        if |requested| < |replies| {
          AnsweredStep(d, a, answer, replies, history, requested, c);
          ReplayFollows(d, a, answer, replies, history + [OutcomeOf(c, replies[|requested|].response)], now);
        } else {
          PendingStep(d, a, replies, history, requested, c);
          PrefixSnoc(requested, RequestOf(d, c), e.requests);
        }
      }
    }
    hide Direct;
    hide Worker;
  }

  /** A call that is refused is refused in both runs alike. */
  lemma {:induction false} RefusedStep(
    d: Domain, a: Adapter, answer: seq<Request> -> Answer, replies: seq<Reply>, history: seq<Outcome>,
    requested: seq<Request>,
    c: Call)
    requires a.Valid() && a.next(history) == Run(c) && Refusal(d, c).Some?
    ensures var h := history + [Unadapted(Refusal(d, c).value)];
            && Direct(d, a, answer, history, requested) == Direct(d, a, answer, h, requested)
            && Worker(d, a, replies, history, requested) == Worker(d, a, replies, h, requested)
  {
    hide Refusal;
  }

  /** The direct run makes the request. */
  lemma {:induction false} DirectMore(
    d: Domain, a: Adapter, answer: seq<Request> -> Answer, history: seq<Outcome>, requested: seq<Request>, c: Call)
    requires a.Valid() && a.next(history) == Run(c) && Refusal(d, c).None?
    ensures requested + [RequestOf(d, c)] <= Direct(d, a, answer, history, requested).requests
  {
    hide Refusal;
    hide RequestOf;
    hide OutcomeOf;
  }

  /** A request with an honest reply has the same outcome in both runs. */
  lemma {:induction false} AnsweredStep(
    d: Domain, a: Adapter, answer: seq<Request> -> Answer, replies: seq<Reply>, history: seq<Outcome>,
    requested: seq<Request>,
    c: Call)
    requires a.Valid() && a.next(history) == Run(c) && Refusal(d, c).None? && Honest(replies, answer)
    requires |requested| < |replies| && requested <= Requests(replies)
    requires Requests(replies) <= Direct(d, a, answer, history, requested).requests
    ensures var now := requested + [RequestOf(d, c)];
            var h := history + [OutcomeOf(c, replies[|requested|].response)];
            && now <= Requests(replies)
            && Direct(d, a, answer, history, requested) == Direct(d, a, answer, h, now)
            && Worker(d, a, replies, history, requested) == Worker(d, a, replies, h, now)
  {
    hide Refusal;
    hide RequestOf;
    hide OutcomeOf;
    hide Requests;
    hide Honest;
    DirectMore(d, a, answer, history, requested, c);
    PrefixNext(requested, RequestOf(d, c), Requests(replies), Direct(d, a, answer, history, requested).requests);
    RequestsAt(replies, answer, |requested|);
  }

  lemma {:induction false} PendingStep(
    d: Domain, a: Adapter, replies: seq<Reply>, history: seq<Outcome>, requested: seq<Request>, c: Call)
    requires a.Valid() && a.next(history) == Run(c) && Refusal(d, c).None? && |requested| >= |replies|
    ensures Worker(d, a, replies, history, requested) == Pending(RequestOf(d, c), requested + [RequestOf(d, c)])
  {
    hide Refusal;
    hide RequestOf;
  }

  /** A worker that made exactly the recorded requests reports what the direct run reports. */
  lemma {:induction false} CompleteIsDirect(
    d: Domain, a: Adapter, answer: seq<Request> -> Answer, replies: seq<Reply>, history: seq<Outcome>,
    requested: seq<Request>)
    requires a.Valid() && Honest(replies, answer) && requested <= Requests(replies)
    requires var w := Worker(d, a, replies, history, requested); w.Complete? && w.requests == Requests(replies)
    ensures Direct(d, a, answer, history, requested)
         == Finished(Worker(d, a, replies, history, requested).findings, Requests(replies))
    decreases a.limit - |history|
  {
    hide Refusal;
    hide RequestOf;
    hide OutcomeOf;
    hide Requests;
    hide Honest;
    var w := Worker(d, a, replies, history, requested);
    var action := a.next(history);
    if action.Run? {
      var c := action.call;
      if Refusal(d, c).Some? {
        CompleteIsDirect(d, a, answer, replies, history + [Unadapted(Refusal(d, c).value)], requested);
      } else {
        var index := |requested|;
        var now := requested + [RequestOf(d, c)];
        PrefixNext(requested, RequestOf(d, c), Requests(replies), w.requests);
        RequestsAt(replies, answer, index);
        CompleteIsDirect(d, a, answer, replies, history + [OutcomeOf(c, replies[index].response)], now);
      }
    }
  }

  /** A reply recorded for another request is rejected: its response has no influence at all. */
  lemma {:induction false} DifferingReplyUnused(
    d: Domain, a: Adapter, replies: seq<Reply>, k: nat, other: Response, history: seq<Outcome>, requested: seq<Request>)
    requires a.Valid() && k < |replies|
    requires var w := Worker(d, a, replies, history, requested);
             k < |w.requests| ==> w.requests[k] != replies[k].request
    ensures Worker(d, a, replies[k := replies[k].(response := other)], history, requested)
         == Worker(d, a, replies, history, requested)
    decreases a.limit - |history|
  {
    var swapped := replies[k := replies[k].(response := other)];
    var w := Worker(d, a, replies, history, requested);
    var action := a.next(history);
    if action.Run? {
      var c := action.call;
      if Refusal(d, c).Some? {
        DifferingReplyUnused(d, a, replies, k, other, history + [Unadapted(Refusal(d, c).value)], requested);
      } else {
        var index := |requested|;
        var now := requested + [RequestOf(d, c)];
        assert now <= w.requests;
        if index < |replies| {
          assert index == k ==> w.requests[k] == now[k] == RequestOf(d, c);
          assert Replayed(c, now[index], swapped[index]) == Replayed(c, now[index], replies[index]);
          DifferingReplyUnused(d, a, replies, k, other, history + [Replayed(c, now[index], replies[index])], now);
        }
      }
    }
  }

  // ---- The driver ----

  datatype Row = Completed(findings: seq<string>, requests: seq<Request>) | Incomplete

  /**
   * `adapter_case`: at most eight worker runs. It completes exactly when the direct run finishes with fewer than eight
   * requests, with the same findings and requests, after one more run than there are requests.
   */
  method Drive(d: Domain, a: Adapter, answer: seq<Request> -> Answer) returns (row: Row, runs: nat, replies: seq<Reply>)
    requires a.Valid()
    ensures var e := Direct(d, a, answer, [], []);
            && (row.Completed? <==> e.Finished? && |e.requests| < STAGES)
            && (row.Completed? ==> row == Completed(e.findings, e.requests) && Requests(replies) == e.requests)
            && Requests(replies) <= e.requests && Honest(replies, answer)
            && runs == (if e.Halted? then Min(|e.requests|, STAGES) else Min(|e.requests| + 1, STAGES))
  {
    hide Direct;
    hide Worker;
    hide Requests;
    hide Honest;
    replies, runs := [], 0;
    ghost var e := Direct(d, a, answer, [], []);
    NoReplies(answer);
    HaltedNeeds(d, a, answer);
    while runs < STAGES
      invariant runs == |replies| <= STAGES && Honest(replies, answer)
      invariant Requests(replies) <= e.requests && (e.Halted? ==> |replies| < |e.requests|)
    {
      ReplayFollows(d, a, answer, replies, [], []);
      var process := new WorkerProcess(d, replies);
      var status := process.Work(a);
      runs := runs + 1;
      if status == 0 && process.record.Some? {
        return Completed(process.record.value.0, process.record.value.1), runs, replies;
      }
      if status != 75 || process.pending.None? { return Incomplete, runs, replies; }
      var request := process.pending.value;
      var given := answer(Requests(replies) + [request]);
      NextRequest(Requests(replies), request, e.requests);
      HaltedLast(d, a, answer, [], [], |replies|);
      if given.Stopped? { return Incomplete, runs, replies; }
      HonestSnoc(replies, Reply(request, given.response), answer);
      replies := replies + [Reply(request, given.response)];
    }
    row := Incomplete;
  }

  lemma {:induction false} NoReplies(answer: seq<Request> -> Answer)
    ensures Requests([]) == [] && Honest([], answer)
  {}

  lemma {:induction false} NextRequest<T>(p: seq<T>, x: T, whole: seq<T>)
    requires p <= whole && |p| < |whole| && whole[|p|] == x
    ensures p + [x] == whole[..|p| + 1]
  {}

  lemma {:induction false} HaltedNeeds(d: Domain, a: Adapter, answer: seq<Request> -> Answer)
    requires a.Valid()
    ensures var e := Direct(d, a, answer, [], []); e.Halted? ==> |e.requests| > 0
  {
    DirectBounds(d, a, answer, [], []);
  }

  lemma {:induction false} HonestSnoc(replies: seq<Reply>, reply: Reply, answer: seq<Request> -> Answer)
    requires Honest(replies, answer) && answer(Requests(replies) + [reply.request]) == Answered(reply.response)
    ensures Honest(replies + [reply], answer) && Requests(replies + [reply]) == Requests(replies) + [reply.request]
  {
    var more := replies + [reply];
    assert Requests(more) == Requests(replies) + [reply.request];
    forall i | 0 <= i < |more| ensures answer(Requests(more)[..i + 1]) == Answered(more[i].response) {
      if i < |replies| {
        assert Requests(more)[..i + 1] == Requests(replies)[..i + 1];
      } else {
        assert Requests(more)[..i + 1] == Requests(more);
      }
    }
  }

  /** The direct run halts at the one request that is not answered, and there only. */
  lemma {:induction false} HaltedLast(
    d: Domain, a: Adapter, answer: seq<Request> -> Answer, history: seq<Outcome>, requested: seq<Request>, k: nat)
    requires a.Valid() && |requested| <= k < |Direct(d, a, answer, history, requested).requests|
    ensures var e := Direct(d, a, answer, history, requested);
            answer(e.requests[..k + 1]).Stopped? <==> e.Halted? && k == |e.requests| - 1
    decreases a.limit - |history|
  {
    var e := Direct(d, a, answer, history, requested);
    var action := a.next(history);
    if action.Run? {
      var c := action.call;
      if Refusal(d, c).Some? {
        HaltedLast(d, a, answer, history + [Unadapted(Refusal(d, c).value)], requested, k);
      } else {
        var now := requested + [RequestOf(d, c)];
        assert now <= e.requests;
        if answer(now).Answered? {
          if k == |requested| {
            assert e.requests[..k + 1] == now;
            DirectBounds(d, a, answer, history + [OutcomeOf(c, answer(now).response)], now);
          } else {
            HaltedLast(d, a, answer, history + [OutcomeOf(c, answer(now).response)], now, k);
          }
        } else {
          assert e.requests[..k + 1] == now;
        }
      }
    }
  }

  /** A direct run only halts at a further request. */
  lemma {:induction false} DirectBounds(
    d: Domain, a: Adapter, answer: seq<Request> -> Answer, history: seq<Outcome>, requested: seq<Request>)
    requires a.Valid()
    ensures var e := Direct(d, a, answer, history, requested); e.Halted? ==> |e.requests| > |requested|
    decreases a.limit - |history|
  {
    var action := a.next(history);
    if action.Run? {
      var c := action.call;
      if Refusal(d, c).Some? {
        DirectBounds(d, a, answer, history + [Unadapted(Refusal(d, c).value)], requested);
      } else {
        var now := requested + [RequestOf(d, c)];
        if answer(now).Answered? {
          DirectBounds(d, a, answer, history + [OutcomeOf(c, answer(now).response)], now);
        }
      }
    }
  }

  // ---- An adapter that asks too often ----

  /** Makes the same call `n` times and then finishes. */
  function Asking(c: Call, n: nat): Adapter {
    Adapter((history: seq<Outcome>) => if |history| < n then Run(c) else Finish([]), n)
  }

  ghost predicate AlwaysAnswers(answer: seq<Request> -> Answer) {
    forall requests :: answer(requests).Answered?
  }

  /** Its direct run makes that many requests. */
  lemma {:induction false} AskingDirect(
    d: Domain, c: Call, n: nat, answer: seq<Request> -> Answer, history: seq<Outcome>, requested: seq<Request>)
    requires Refusal(d, c).None? && AlwaysAnswers(answer) && |history| <= n
    ensures Asking(c, n).Valid()
    ensures var e := Direct(d, Asking(c, n), answer, history, requested);
            e.Finished? && e.findings == [] && |e.requests| == |requested| + (n - |history|)
    decreases n - |history|
  {
    hide Refusal;
    hide RequestOf;
    hide OutcomeOf;
    if |history| < n {
      var now := requested + [RequestOf(d, c)];
      AskingDirect(d, c, n, answer, history + [OutcomeOf(c, answer(now).response)], now);
    }
  }

  /** With eight requests or more the driver gives up after eight runs, though each of its eight replies is right. */
  method DriveAsking(d: Domain, c: Call, n: nat, answer: seq<Request> -> Answer) returns (row: Row, runs: nat)
    requires Refusal(d, c).None? && AlwaysAnswers(answer)
    ensures Asking(c, n).Valid() && Direct(d, Asking(c, n), answer, [], []).Finished?
    ensures row.Completed? <==> n < STAGES
    ensures runs == Min(n + 1, STAGES)
  {
    hide *;
    AskingDirect(d, c, n, answer, [], []);
    var replies;
    row, runs, replies := Drive(d, Asking(c, n), answer);
  }

  const SAMPLE_CALL := Call(["git"], Options(true, true, false, None, {}, true, 1.0, false))
  const SAMPLE_DOMAIN := Domain(map["git" := "/usr/bin/git"], "/work")

  /** There is such an adapter. */
  lemma {:induction false} SampleAsks(answer: seq<Request> -> Answer)
    requires AlwaysAnswers(answer)
    ensures Refusal(SAMPLE_DOMAIN, SAMPLE_CALL).None? && Asking(SAMPLE_CALL, STAGES).Valid()
    ensures var e := Direct(SAMPLE_DOMAIN, Asking(SAMPLE_CALL, STAGES), answer, [], []);
            e.Finished? && |e.requests| == STAGES
  {
    AskingDirect(SAMPLE_DOMAIN, SAMPLE_CALL, STAGES, answer, [], []);
  }

  // ---- What a call and a run amount to ----

  /**
   * A response the call can be answered with: verified, with an exit code, and with both streams within their limit.
   */
  predicate Usable(r: Response) {
    r.verified && r.code.Some? && r.out.Some? && r.err.Some?
    && |r.out.value| <= 4 * 1024 * 1024 && |r.err.value| <= 4 * 1024 * 1024
  }

  /**
   * A usable response comes back with the call's own arguments, its code and each of its streams: raised as a
   * failure exactly when the caller asked for that and the code is not zero, returned otherwise. Any other response
   * is an error.
   */
  lemma {:induction false} OutcomeExactly(c: Call, r: Response)
    ensures var o := OutcomeOf(c, r);
            && (o.Unadapted? <==> !Usable(r))
            && (o.CalledProcessError? <==> Usable(r) && c.options.check && r.code != Some(0))
            && (!o.Unadapted? ==>
                o.args == c.args && Some(o.code) == r.code && Some(o.out) == r.out && Some(o.err) == r.err)
  {}

  predicate ArgumentFine(arg: string) {
    |arg| <= 64 * 1024 && forall i :: 0 <= i < |arg| ==> arg[i] != 0 as char
  }

  lemma {:induction false} NoNul(arg: string)
    ensures ArgumentFine(arg) <==> !(|arg| > MAX_ARGUMENT || 0 as char in arg)
  {}

  lemma {:induction false} Unsafe(env: set<string>)
    ensures env * UNSAFE == {} <==> "DYLD_INSERT_LIBRARIES" !in env && "PYTHONSTARTUP" !in env && "LD_PRELOAD" !in env
  {
    var both := env * UNSAFE;
    assert forall v :: v in both <==> v in env && v in UNSAFE;
    assert both != {} ==> exists v :: v in both;
  }

  /** What a call must be like for the transport to be asked; the request then is for its bound tool. */
  lemma {:induction false} AdmitsExactly(d: Domain, c: Call)
    ensures Refusal(d, c).None? <==>
            && 1 <= |c.args| <= 128 && (forall i :: 0 <= i < |c.args| ==> ArgumentFine(c.args[i]))
            && c.args[0] in d.tools
            && c.options.text && c.options.capture && !c.options.others && c.options.utf8
            && (c.options.cwd == None || c.options.cwd == Some(d.cwd))
            && "DYLD_INSERT_LIBRARIES" !in c.options.env && "PYTHONSTARTUP" !in c.options.env
            && "LD_PRELOAD" !in c.options.env
            && 0.0 < c.options.timeout <= 240.0
    ensures Refusal(d, c).None? ==>
              var r := RequestOf(d, c); r.argv == c.args && r.cwd == d.cwd && r.tool == d.tools[c.args[0]]
  {
    hide ArgumentFine;
    Unsafe(c.options.env);
    forall i | 0 <= i < |c.args|
      ensures ArgumentFine(c.args[i]) <==> !(|c.args[i]| > MAX_ARGUMENT || 0 as char in c.args[i]) {
      NoNul(c.args[i]);
    }
  }

  /** One call of a run: refused, or made as the next request and answered. `before` requests were made so far. */
  ghost predicate CallMade(
    d: Domain, answer: seq<Request> -> Answer, requests: seq<Request>, c: Call, before: nat, outcome: Outcome,
    after: nat) {
    if Refusal(d, c).Some? then outcome.Unadapted? && after == before
    else
      && after == before + 1 <= |requests| && requests[before] == RequestOf(d, c)
      && answer(requests[..after]).Answered? && outcome == OutcomeOf(c, answer(requests[..after]).response)
  }

  /** The adapter's calls one after the other: the outcomes it sees, and how many requests were made before each. */
  ghost predicate Calls(
    d: Domain, a: Adapter, answer: seq<Request> -> Answer, requests: seq<Request>, h: seq<Outcome>, n: seq<nat>,
    start: nat) {
    |n| == |h| + 1 &&
    forall i :: start <= i < |h| ==>
      a.next(h[..i]).Run? && CallMade(d, answer, requests, a.next(h[..i]).call, n[i], h[i], n[i + 1])
  }

  /** How the adapter ends after these outcomes. */
  ghost predicate EndsSo(
    d: Domain, a: Adapter, answer: seq<Request> -> Answer, e: Ending, h: seq<Outcome>, made: nat) {
    match e
    case Finished(findings, requests) => a.next(h) == Finish(findings) && |requests| == made
    case Raised(requests) => a.next(h) == Fail && |requests| == made
    case Halted(requests) =>
      a.next(h).Run? && Refusal(d, a.next(h).call).None? && |requests| == made + 1 &&
      requests[made] == RequestOf(d, a.next(h).call) && answer(requests).Stopped?
  }

  /** The direct run is such a sequence of calls up to the adapter's end, or up to a request that is not answered. */
  lemma {:induction false} DirectIsCalls(
    d: Domain, a: Adapter, answer: seq<Request> -> Answer, history: seq<Outcome>, requested: seq<Request>)
    returns (h: seq<Outcome>, n: seq<nat>)
    requires a.Valid()
    ensures var e := Direct(d, a, answer, history, requested);
            && history <= h && Calls(d, a, answer, e.requests, h, n, |history|)
            && n[|history|] == |requested| && EndsSo(d, a, answer, e, h, n[|h|])
    decreases a.limit - |history|
  {
    hide Refusal;
    hide RequestOf;
    hide OutcomeOf;
    var e := Direct(d, a, answer, history, requested);
    h, n := history, seq(|history| + 1, _ => |requested|);
    if a.next(history).Run? {
      var c := a.next(history).call;
      if Refusal(d, c).Some? {
        h, n := DirectIsCalls(d, a, answer, history + [Unadapted(Refusal(d, c).value)], requested);
        FirstCall(d, a, answer, e.requests, h, n, history, Unadapted(Refusal(d, c).value), |requested|);
        n := n[|history| := |requested|];
      } else {
        var now := requested + [RequestOf(d, c)];
        assert now <= e.requests && e.requests[..|now|] == now;
        if answer(now).Answered? {
          var outcome := OutcomeOf(c, answer(now).response);
          h, n := DirectIsCalls(d, a, answer, history + [outcome], now);
          FirstCall(d, a, answer, e.requests, h, n, history, outcome, |requested|);
          n := n[|history| := |requested|];
        }
      }
    }
  }

  /** One more call in front. */
  lemma {:induction false} FirstCall(
    d: Domain, a: Adapter, answer: seq<Request> -> Answer, requests: seq<Request>, h: seq<Outcome>, n: seq<nat>,
    history: seq<Outcome>, outcome: Outcome, before: nat)
    requires history + [outcome] <= h && Calls(d, a, answer, requests, h, n, |history| + 1)
    requires a.next(history).Run?
    requires CallMade(d, answer, requests, a.next(history).call, before, outcome, n[|history| + 1])
    ensures history <= h && Calls(d, a, answer, requests, h, n[|history| := before], |history|)
  {
    hide CallMade;
    assert h[..|history|] == history && h[|history|] == outcome by {
      assert (history + [outcome])[|history|] == outcome;
    }
  }
}
