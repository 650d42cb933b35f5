/**
 * Whole turns of the broker's loop, slot by slot, and over whole runs where a worker, its output and the end of its
 * output come from.
 */
module BrokerHistory {
  import opened Bytes
  import opened BrokerWire
  import opened BrokerText
  import opened BrokerSpec
  import opened BrokerRuns
  import opened BrokerTurns
  import opened BrokerJudgement
  import opened BrokerRequests

  // ---- Which turns the broker survives ----

  /** The worker of a slot before `select`: by its own wait answer, then by its own deadline. */
  function Prepared(s: State, t: Turn, a: nat): Worker
    requires a < |s.workers|
  {
    AfterClock(AfterWait(s.workers[a], t.waits(a)), t.current, s.sessionDeadline)
  }

  /** The pending wait is for a worker that is now finished. */
  predicate WaitOver(s: State, t: Turn)
    requires s.pending < |s.workers|
  {
    s.pending >= 0 && AfterWait(s.workers[s.pending], t.waits(s.pending)).Done()
  }

  /** The reply with which a turn answers the wait that is over. */
  function WaitReplies(s: State, t: Turn): seq<Reply>
    requires s.pending < |s.workers|
  {
    if WaitOver(s, t)
    then [Reply(s.waiting, About(s.pending, AfterWait(s.workers[s.pending], t.waits(s.pending)), Exited))]
    else []
  }

  predicate InTime(s: State, current: int) {
    && current < s.sessionDeadline && (s.client || current < s.acceptDeadline)
    && (s.partialDeadline == 0 || current < s.partialDeadline)
  }

  lemma {:induction false} FinishedKept(w: Worker, current: int, session: int)
    ensures AfterClock(w, current, session).Done() == w.Done()
    ensures w.Done() ==> AfterClock(w, current, session) == w
  {}

  /**
   * Before `select` the broker dies exactly when an answer of `waitpid` is not fine, a deadline of its own has
   * passed, a late worker cannot be killed, or the reply to the finished wait does not fit. That wait is then no
   * longer pending.
   */
  lemma {:induction false} PrepareLives(s: State, t: Turn)
    requires s.fate.Running? && |s.workers| == |s.timeouts| && s.pending < |s.workers|
    ensures var p := Prepare(s, t);
            && (p.fate.Running? <==>
                && (forall a :: 0 <= a < |s.workers| ==> WaitFine(s.workers[a], t.waits(a), t.traceable(a)))
                && InTime(s, t.current)
                && (forall a :: 0 <= a < |s.workers| ==>
                      Late(AfterWait(s.workers[a], t.waits(a)), t.current) ==> t.killable(a))
                && (WaitOver(s, t) ==>
                    Fits(s, About(s.pending, AfterWait(s.workers[s.pending], t.waits(s.pending)), Exited))))
            && (p.fate.Running? ==>
                p.pending == (if WaitOver(s, t) then -1 else s.pending) && p.replies == s.replies + WaitReplies(s, t))
  {
    hide ReapFrom;
    hide ExpireFrom;
    hide AfterWait;
    hide WaitFine;
    hide WaitCause;
    hide Result;
    hide WakeTime;
    hide Fits;
    hide AfterClock;
    hide Late;
    ReapSlots(s, 0, t);
    ReapFromKeeps(s, 0, t);
    var s1 := ReapFrom(s, 0, t);
    if s1.fate.Running? && InTime(s, t.current) {
      ExpireSlots(s1, 0, t);
      ExpireFromKeeps(s1, 0, t);
      var s2 := Schedule(s1, t);
      if s2.fate.Running? { PendingLives(s, s1, s2, t); }
    }
  }

  lemma {:induction false} PendingLives(s: State, s1: State, s2: State, t: Turn)
    requires s.fate.Running? && s2.fate.Running? && s.pending < |s.workers| == |s1.workers| == |s2.workers|
    requires s2 == s.(workers := s2.workers, timeouts := s2.timeouts, wake := s2.wake)
    requires forall a :: 0 <= a < |s.workers| ==> s1.workers[a] == AfterWait(s.workers[a], t.waits(a))
    requires forall a :: 0 <= a < |s.workers| ==>
               s2.workers[a] == AfterClock(s1.workers[a], t.current, s.sessionDeadline)
    ensures var p := AnswerPending(s2);
            && (p.fate.Running? <==>
                (WaitOver(s, t) ==>
                 Fits(s, About(s.pending, AfterWait(s.workers[s.pending], t.waits(s.pending)), Exited))))
            && (p.fate.Running? ==>
                p.pending == (if WaitOver(s, t) then -1 else s.pending) && p.replies == s.replies + WaitReplies(s, t))
  {
    hide AfterWait;
    hide AfterClock;
    hide Result;
    hide Fits;
    if s.pending >= 0 {
      var w := AfterWait(s.workers[s.pending], t.waits(s.pending));
      FinishedKept(w, t.current, s.sessionDeadline);
      ResultFits(s2, s2.waiting, s2.pending, Exited);
      ResultShape(s2, s2.waiting, s2.pending, Exited);
      SameRoom(s, s2, About(s.pending, w, Exited));
    }
  }

  // ---- Receiving ----

  /** The buffer with what one `recv` brought: at most the rest of the prefix, then at most the rest of the frame. */
  function Filled(s: State, recv: Recv): seq<byte>
    requires |s.input| < FRAME
  {
    s.input + if recv.RecvData? then Fragment(recv.offered, (if |s.input| < 4 then 4 else FRAME) - |s.input|) else []
  }

  /** The state in which a payload that is now complete is dispatched. */
  function Complete(s: State, recv: Recv, now: int): State
    requires |s.input| < FRAME
  {
    s.(partialDeadline := if s.input == [] then now + SECOND else s.partialDeadline,
       input := Filled(s, recv), received := s.received + Filled(s, recv)[|s.input|..])
  }

  /**
   * Receiving appends the bytes that came. The broker dies exactly when the peer has closed, `recv` fails, the
   * length is wrong, or the dispatch of the payload kills it; a complete frame is dispatched at once, and the buffer
   * is then empty.
   */
  lemma {:induction false} ReceiveLives(s: State, recv: Recv, now: int, env: RequestEnv)
    requires s.fate.Running? && |s.input| < FRAME && |s.capability| == 32
    ensures var s', x := Receive(s, recv, now, env), Filled(s, recv);
            && |x| <= FRAME
            && (s'.fate == Died(PeerClosed) || s'.fate == Died(ReceiveFailed) || s'.fate == Died(BadLength) ||
                (recv.RecvData? && x != s.input && |x| == FRAME) || s'.fate.Running?)
            && (recv.RecvEof? || (recv.RecvData? && recv.offered == []) ==> s'.fate == Died(PeerClosed))
            && (recv.RecvError? ==> s'.fate == Died(ReceiveFailed))
            && (recv.RecvAgain? ==> s' == s)
            && (recv.RecvData? && recv.offered != [] ==>
                if BadStart(x) then s'.fate == Died(BadLength)
                else if |x| < FRAME then s' == Complete(s, recv, now)
                else
                  var s1 := Request(Complete(s, recv, now), x[4..], env);
                  s' == if s1.fate.Running? then s1.(input := [], partialDeadline := 0) else s1)
  {
    hide Request;
    hide Integer;
  }

  /** The payload that became complete in a turn, if one did. */
  function Payload(s: State, s': State): Option<seq<byte>> {
    if |s'.log| > |s.log| then Some(s'.log[|s.log|]) else None
  }

  /** A slot after the dispatch of the turn's payload, if there is one. */
  function Dispatched(s: State, s': State, t: Turn, a: nat): Worker
    requires a < |s.workers| && s.pending < |s.workers|
    requires forall j :: 0 <= j < |s'.log| ==> |s'.log[j]| == PAYLOAD
  {
    match Payload(s, s')
    case None => Prepared(s, t, a)
    case Some(data) =>
      AfterRequest(Prepared(s, t, a), DecodeFields(data), Proper(s.capability, data, s.authenticated),
                   s.pending < 0 || WaitOver(s, t), s.sessionDeadline)
  }

  /** And after what was read from its pipe, if `select` came back at all. */
  function Drained(w: Worker, t: Turn, a: nat): Worker {
    if t.select.SelectReady? then AfterRead(w, t.ready(a), t.outputs(a)) else w
  }

  /** A worker added in a turn, before anything was read from its pipe. */
  ghost predicate Added(s: State, s': State, t: Turn, w: Worker)
    requires forall j :: 0 <= j < |s'.log| ==> |s'.log[j]| == PAYLOAD
  {
    && Payload(s, s').Some?
    && var data, env := Payload(s, s').value, t.request;
       var f := DecodeFields(data);
       && Proper(s.capability, data, s.authenticated) && f.opcode == 1
       && |s.workers| < WORKERS && env.signed && env.spawn == Spawned(w.pid)
       && w.handle in env.draws && Fresh(s.workers, w.handle)
       && w.mode == f.argument && w.deadline == env.now + f.timeout * MILLISECOND
       && w.open && !w.reaped && !w.traced && !w.waitAccepted && w.reason == Completed && w.output == []
  }

  /** What receiving does to log and table: nothing, or what the one payload that became complete asks for. */
  ghost predicate MidTurn(p: State, s1: State, env: RequestEnv) {
    || (s1.log == p.log && s1.workers == p.workers)
    || (|s1.log| == |p.log| + 1 && p.log <= s1.log && |s1.log[|p.log|]| == PAYLOAD &&
        var data := s1.log[|p.log|];
        TableAfter(p, s1, DecodeFields(data), Proper(p.capability, data, p.authenticated), env))
  }

  lemma {:induction false} ReceiveSlots(p: State, t: Turn)
    requires p.fate.Running? && |p.input| < FRAME && |p.capability| == 32 && Handles(p.workers)
    requires Receive(p, t.recv, t.recvNow, t.request).fate.Running?
    ensures MidTurn(p, Receive(p, t.recv, t.recvNow, t.request), t.request)
  {
    hide Receive;
    hide Request;
    hide TableAfter;
    hide DecodeFields;
    hide Proper;
    hide Handles;
    ReceiveLives(p, t.recv, t.recvNow, t.request);
    var x := Filled(p, t.recv);
    if t.recv.RecvData? && t.recv.offered != [] && |x| == FRAME {
      var c := Complete(p, t.recv, t.recvNow);
      RequestLogs(c, x[4..], t.request);
      RequestSlots(c, x[4..], t.request);
      SameTable(p, c, Request(c, x[4..], t.request), Receive(p, t.recv, t.recvNow, t.request),
                DecodeFields(x[4..]), Proper(p.capability, x[4..], p.authenticated), t.request);
    }
  }

  lemma {:induction false} SameTable(
    p: State, c: State, s1: State, s': State, f: Fields, admitted: bool, env: RequestEnv)
    requires TableAfter(c, s1, f, admitted, env) && s'.workers == s1.workers
    requires c.workers == p.workers && c.pending == p.pending && c.sessionDeadline == p.sessionDeadline
    ensures TableAfter(p, s', f, admitted, env)
  {
    hide AfterRequest;
  }

  lemma {:induction false} RequestLogs(s: State, data: seq<byte>, env: RequestEnv)
    requires |data| == PAYLOAD && |s.capability| == 32
    ensures Request(s, data, env).log == s.log + [data]
  {
    hide Formatted;
    hide Find;
    hide FirstFresh;
    hide DecodeFields;
    hide ArgumentsRight;
  }

  lemma {:induction false} InvHandles(s: State)
    requires Inv(s)
    ensures Handles(s.workers)
    ensures forall a :: 0 <= a < |s.workers| ==> |s.workers[a].output| <= OUTPUT
  {
    hide QueueOk;
    hide RepliesOk;
    hide FramesOk;
    hide AnswersOk;
  }

  lemma {:induction false} DeadDrains(s: State, i: nat, t: Turn)
    requires i <= |s.workers| && s.fate.Died?
    ensures DrainFrom(s, i, t) == s
  {}

  /** The state in which the slots are drained. */
  function Accepting(s1: State, pendingOutput: bool, t: Turn): State {
    var s2 := if s1.client && pendingOutput && t.writable then SendSome(s1, t.send) else s1;
    if s2.fate.Died? then s2 else if t.listening then AcceptOne(s2, t.accept, t.acceptNow) else s2
  }

  lemma {:induction false} ServeParts(p: State, t: Turn, s1: State)
    requires p.fate.Running? && |p.input| < FRAME && |p.capability| == 32 && t.select.SelectReady?
    requires s1 == if p.client && t.readable then Receive(p, t.recv, t.recvNow, t.request) else p
    ensures Serve(p, t) == if s1.fate.Died? then s1 else DrainFrom(Accepting(s1, p.unsent != [], t), 0, t)
  {
    hide Receive;
    hide SendSome;
    hide AcceptOne;
    hide DrainFrom;
    var s2 := if s1.client && p.unsent != [] && t.writable then SendSome(s1, t.send) else s1;
    if s2.fate.Died? { DeadDrains(s2, 0, t); }
  }

  lemma {:induction false} AcceptingShape(s1: State, pendingOutput: bool, t: Turn)
    ensures var s3 := Accepting(s1, pendingOutput, t);
            s3.workers == s1.workers && s3.log == s1.log && s3.input == s1.input
  {}

  /** The state once the turn's bytes have been received. */
  function AfterReceive(p: State, t: Turn): State
    requires |p.input| < FRAME && |p.capability| == 32
  {
    if t.select.SelectReady? && p.client && t.readable then Receive(p, t.recv, t.recvNow, t.request) else p
  }

  /** From `select` on: receiving, then draining every slot. */
  lemma {:induction false} ServeSlots(p: State, t: Turn)
    requires Inv(p) && p.fate.Running? && Shaped(p) && Legal(p, t) && Serve(p, t).fate.Running?
    ensures var s1 := AfterReceive(p, t);
            MidTurn(p, s1, t.request) && Serve(p, t).log == s1.log && |Serve(p, t).workers| == |s1.workers|
    ensures var s1 := AfterReceive(p, t);
            forall a :: 0 <= a < |s1.workers| ==> Serve(p, t).workers[a] == Drained(s1.workers[a], t, a)
  {
    hide Inv;
    hide Receive;
    hide DrainFrom;
    hide TableAfter;
    hide AfterRead;
    hide DrawsOk;
    hide Evolves;
    hide ReadFine;
    hide Accepting;
    var s1 := AfterReceive(p, t);
    InvHandles(p);
    if t.select.SelectReady? {
      ServeParts(p, t, s1);
      hide Serve;
      if p.client && t.readable {
        ReceiveSlots(p, t);
        ReceiveKeeps(p, t.recv, t.recvNow, t.request);
        InvHandles(s1);
      }
      hide MidTurn;
      var s3 := Accepting(s1, p.unsent != [], t);
      AcceptingShape(s1, p.unsent != [], t);
      if s3.fate.Died? { DeadDrains(s3, 0, t); }
      DrainSlots(s3, 0, t);
    }
  }

  lemma {:induction false} InvLogged(s: State)
    requires Inv(s)
    ensures forall j :: 0 <= j < |s.log| ==> |s.log[j]| == PAYLOAD
  {
    hide QueueOk;
    hide RepliesOk;
    hide FramesOk;
    hide AnswersOk;
  }

  /** Before `select` nothing happens to the log, the client and its rights. */
  lemma {:induction false} PrepareQuiet(s: State, t: Turn)
    requires s.fate.Running? && |s.workers| == |s.timeouts| && s.pending < |s.workers| && Prepare(s, t).fate.Running?
    ensures var p := Prepare(s, t);
            && p.log == s.log && p.requests == s.requests && p.capability == s.capability
            && p.authenticated == s.authenticated && p.client == s.client && p.sessionDeadline == s.sessionDeadline
            && p.input == s.input && p.received == s.received && p.sent == s.sent
            && p.partialDeadline == s.partialDeadline
            && p.pending == (if WaitOver(s, t) then -1 else s.pending)
            && |p.workers| == |s.workers|
  {
    hide ReapFrom;
    hide ExpireFrom;
    hide AnswerPending;
    hide WakeTime;
    hide Fits;
    hide WaitOver;
    PrepareLives(s, t);
    ReapFromKeeps(s, 0, t);
    var s1 := ReapFrom(s, 0, t);
    ExpireFromKeeps(s1, 0, t);
    AnswerShape(Schedule(s1, t));
  }

  /** A turn's request in the terms of the state before the turn. */
  ghost predicate Handed(s: State, p: State, t: Turn) {
    && p.log == s.log && p.capability == s.capability && p.authenticated == s.authenticated
    && p.sessionDeadline == s.sessionDeadline && |p.workers| == |s.workers| && s.pending < |s.workers|
    && p.pending == (if WaitOver(s, t) then -1 else s.pending)
    && (forall a :: 0 <= a < |s.workers| ==> p.workers[a] == Prepared(s, t, a))
    && (forall a :: 0 <= a < |s.workers| ==> p.workers[a].handle == s.workers[a].handle)
  }

  /** The turn's request is a launch that succeeds. */
  predicate LaunchMade(s: State, s': State, t: Turn)
    requires forall j :: 0 <= j < |s'.log| ==> |s'.log[j]| == PAYLOAD
  {
    && Payload(s, s').Some?
    && var data := Payload(s, s').value;
       Proper(s.capability, data, s.authenticated) && DecodeFields(data).opcode == 1 && |s.workers| < WORKERS &&
       t.request.signed && t.request.spawn.Spawned?
  }

  /** The same slots, and the same admission, in the terms of the state before the turn. */
  lemma {:induction false} HandedSlots(s: State, p: State, s1: State, t: Turn, s': State)
    requires MidTurn(p, s1, t.request) && s'.log == s1.log && Handed(s, p, t)
    requires forall j :: 0 <= j < |s'.log| ==> |s'.log[j]| == PAYLOAD
    ensures |s1.workers| == |s.workers| + if LaunchMade(s, s', t) then 1 else 0
    ensures forall a :: 0 <= a < |s.workers| ==> s1.workers[a] == Dispatched(s, s', t, a)
    ensures LaunchMade(s, s', t) ==>
              var f := DecodeFields(Payload(s, s').value);
              s1.workers[|s.workers|] == NewWorker(p.workers, f.argument, f.timeout, t.request)
  {
    hide Proper;
    hide DecodeFields;
    hide Prepared;
    hide WaitOver;
    hide AfterRequest;
    hide NewWorker;
    if |s1.log| > |p.log| {
      var data := s1.log[|p.log|];
      var tail := s1.workers[|p.workers|..];
      assert |s1.workers| == |p.workers| + |tail|;
      assert tail != [] ==> s1.workers[|p.workers|] == tail[0];
    }
  }

  lemma {:induction false} AddedRight(s: State, p: State, t: Turn, s': State)
    requires Handed(s, p, t) && DrawsOk(p.workers, t.request.draws)
    requires forall j :: 0 <= j < |s'.log| ==> |s'.log[j]| == PAYLOAD
    requires LaunchMade(s, s', t)
    ensures var f := DecodeFields(Payload(s, s').value);
            Added(s, s', t, NewWorker(p.workers, f.argument, f.timeout, t.request))
  {
    hide Proper;
    hide DecodeFields;
    hide Prepared;
    hide WaitOver;
    var f := DecodeFields(Payload(s, s').value);
    var w := NewWorker(p.workers, f.argument, f.timeout, t.request);
    assert Fresh(p.workers, w.handle);
    assert Fresh(s.workers, w.handle) by {
      forall a | 0 <= a < |s.workers| ensures s.workers[a].handle != w.handle {
        assert p.workers[a].handle == s.workers[a].handle;
      }
    }
  }

  /**
   * A turn that the broker survives changes each worker by itself: by the answer of `waitpid` about it, then by its
   * deadline, then by the turn's request if that is admitted and names it, then by what was read from its own pipe.
   * Workers do not influence each other. One is added exactly when the turn's request is a launch that succeeds.
   */
  lemma {:induction false} TurnSlots(s: State, t: Turn, s': State)
    requires Inv(s) && Next(s, t, s') && s.fate.Running? && s'.fate.Running?
    ensures s.pending < |s.workers| && forall j :: 0 <= j < |s'.log| ==> |s'.log[j]| == PAYLOAD
    ensures |s'.workers| == |s.workers| + if LaunchMade(s, s', t) then 1 else 0
    ensures forall a :: 0 <= a < |s.workers| ==> s'.workers[a] == Drained(Dispatched(s, s', t, a), t, a)
    ensures LaunchMade(s, s', t) ==>
              exists w :: Added(s, s', t, w) && s'.workers[|s.workers|] == Drained(w, t, |s.workers|)
  {
    hide Inv;
    hide Evolves;
    hide Prepare;
    hide Serve;
    hide DrawsOk;
    hide MidTurn;
    hide Handed;
    hide LaunchMade;
    hide Added;
    hide Drained;
    hide Dispatched;
    hide NewWorker;
    hide DecodeFields;
    var p := Prepare(s, t);
    StepInv(s, t, s');
    InvLogged(s');
    PrepareInv(s, t);
    LegalAfter(s, t);
    InvShapes(p);
    HandedOver(s, t);
    var s1 := AfterReceive(p, t);
    ServeSlots(p, t);
    hide AfterReceive;
    HandedSlots(s, p, s1, t, s');
    if LaunchMade(s, s', t) {
      AddedRight(s, p, t, s');
    }
  }

  lemma {:induction false} HandedOver(s: State, t: Turn)
    requires s.fate.Running? && |s.workers| == |s.timeouts| && s.pending < |s.workers| && Prepare(s, t).fate.Running?
    ensures Handed(s, Prepare(s, t), t)
  {
    hide Prepare;
    hide WaitOver;
    hide AfterWait;
    hide AfterClock;
    PrepareSlots(s, t);
    PrepareQuiet(s, t);
    PrepareHandles(s, t);
  }

  // ---- What else a turn does ----

  lemma {:induction false} QueueUnsent(s: State, r: Reply)
    ensures Queue(s, r).sent == s.sent && s.unsent <= Queue(s, r).unsent
  {
    hide Formatted;
  }

  lemma {:induction false} ResultUnsent(s: State, request: nat, index: nat, stage: Stage)
    requires index < |s.workers|
    ensures Result(s, request, index, stage).sent == s.sent && s.unsent <= Result(s, request, index, stage).unsent
  {
    hide Queue;
    QueueUnsent(s, Reply(request, About(index, s.workers[index], stage)));
  }

  /** Fields no request touches, and output that only grows. */
  ghost predicate Grows(s: State, s': State) {
    s'.sent == s.sent && s.unsent <= s'.unsent && s'.client == s.client && s'.capability == s.capability
  }

  lemma {:induction false} RejectGrows(s: State, request: nat)
    requires s.fate.Running?
    ensures forall error :: Grows(s, Queue(s, Reply(request, Rejected(error))))
  {
    hide Queue;
    forall error ensures Grows(s, Queue(s, Reply(request, Rejected(error)))) {
      QueueUnsent(s, Reply(request, Rejected(error)));
      QueueShape(s, Reply(request, Rejected(error)));
    }
  }

  lemma {:induction false} LaunchGrows(s: State, request: nat, mode: nat, timeout: nat, env: RequestEnv)
    requires s.fate.Running?
    ensures Grows(s, Launch(s, request, mode, timeout, env))
  {
    hide Queue;
    hide Result;
    hide FirstFresh;
    RejectGrows(s, request);
    if env.spawn.Spawned? {
      var s1 := s.(workers := s.workers + [NewWorker(s.workers, mode, timeout, env)], timeouts := s.timeouts + [0]);
      ResultUnsent(s1, request, |s.workers|, Launched);
      ResultShape(s1, request, |s.workers|, Launched);
    }
  }

  lemma {:induction false} AcceptWaitGrows(s: State, request: nat, index: nat)
    requires s.fate.Running? && index < |s.workers|
    ensures Grows(s, AcceptWait(s, request, index))
  {
    hide Queue;
    hide Result;
    QueueUnsent(s, Reply(request, Rejected(WaitLimit)));
    QueueShape(s, Reply(request, Rejected(WaitLimit)));
    var s1 := s.(workers := s.workers[index := s.workers[index].(waitAccepted := true)]);
    ResultUnsent(s1, request, index, Exited);
    ResultShape(s1, request, index, Exited);
  }

  lemma {:induction false} ControlGrows(s: State, request: nat, index: nat, f: Fields, env: RequestEnv)
    requires s.fate.Running? && index < |s.workers| && f.opcode in {3, 4}
    ensures Grows(s, Control(s, request, index, f, env))
  {
    hide Result;
    ResultUnsent(s, request, index, Exited);
    ResultShape(s, request, index, Exited);
    var s1 := s.(workers := s.workers[index := Signalling(s.workers[index], f, s.sessionDeadline)]);
    ResultUnsent(s1, request, index, Signalled);
    ResultShape(s1, request, index, Signalled);
  }

  lemma {:induction false} RequestGrows(s0: State, data: seq<byte>, env: RequestEnv)
    requires |data| == PAYLOAD && |s0.capability| == 32 && s0.fate.Running?
    ensures Grows(s0, Request(s0, data, env))
  {
    hide Queue;
    hide Launch;
    hide AcceptWait;
    hide Control;
    hide Find;
    hide DecodeFields;
    var s, request, f := Logged(s0, data), s0.requests, DecodeFields(data);
    RejectGrows(s, request);
    QueueUnsent(s.(authenticated := true), Reply(request, Authenticated));
    QueueShape(s.(authenticated := true), Reply(request, Authenticated));
    LaunchGrows(s, request, f.argument, f.timeout, env);
    var index := Find(s.workers, f.handle);
    if index < |s.workers| {
      AcceptWaitGrows(s, request, index);
      if f.opcode in {3, 4} { ControlGrows(s, request, index, f, env); }
    }
  }

  lemma {:induction false} ReceiveGrows(s: State, recv: Recv, now: int, env: RequestEnv)
    requires s.fate.Running? && |s.input| < FRAME && |s.capability| == 32
    ensures Grows(s, Receive(s, recv, now, env))
  {
    hide Request;
    hide Integer;
    if recv.RecvData? {
      var s1 := Complete(s, recv, now);
      if |s1.input| == FRAME { RequestGrows(s1, s1.input[4..], env); }
    }
  }

  /** A send works if the socket takes something, and an accept if it does not fail outright. */
  predicate SendFine(send: Send) {
    send.SendAgain? || (send.SendTaken? && send.room > 0)
  }

  /**
   * From `select` on the broker dies exactly when `select` fails, the received bytes kill it, a send or an accept
   * that is made fails, or a read from a worker is not fine.
   */
  lemma {:induction false} ServeLives(p: State, t: Turn)
    requires Inv(p) && p.fate.Running? && Shaped(p) && Legal(p, t)
    ensures var s1 := if p.client && t.readable then Receive(p, t.recv, t.recvNow, t.request) else p;
            Serve(p, t).fate.Running? <==>
              || t.select.SelectInterrupted?
              || (t.select.SelectReady? && s1.fate.Running? &&
                  (p.client && p.unsent != [] && t.writable ==> SendFine(t.send)) &&
                  (t.listening ==> !t.accept.AcceptError?) &&
                  forall a :: 0 <= a < |s1.workers| ==> ReadFine(s1.workers[a], t.ready(a), t.outputs(a)))
  {
    hide Inv;
    hide Receive;
    hide DrainFrom;
    hide DrawsOk;
    hide Evolves;
    hide ReadFine;
    var s1 := if p.client && t.readable then Receive(p, t.recv, t.recvNow, t.request) else p;
    InvHandles(p);
    ReceiveGrows(p, t.recv, t.recvNow, t.request);
    if t.select.SelectReady? {
      ServeParts(p, t, s1);
      hide Serve;
      if p.client && t.readable {
        ReceiveKeeps(p, t.recv, t.recvNow, t.request);
        InvHandles(s1);
      }
      var s3 := Accepting(s1, p.unsent != [], t);
      AcceptingShape(s1, p.unsent != [], t);
      if s1.fate.Running? {
        AcceptingLives(s1, p.unsent != [], t);
        if s3.fate.Died? { DeadDrains(s3, 0, t); } else { DrainSlots(s3, 0, t); }
      }
    }
  }

  lemma {:induction false} AcceptingLives(s1: State, pendingOutput: bool, t: Turn)
    requires s1.fate.Running? && (pendingOutput ==> s1.unsent != [])
    ensures Accepting(s1, pendingOutput, t).fate.Running? <==>
              (s1.client && pendingOutput && t.writable ==> SendFine(t.send)) &&
              (t.listening ==> !t.accept.AcceptError?)
  {}

  /** What a payload that became complete leaves behind, if the broker survives it. */
  ghost predicate Handled(p: State, s1: State, data: seq<byte>, env: RequestEnv)
    requires |data| == PAYLOAD
  {
    var f := DecodeFields(data);
    if Proper(p.capability, data, p.authenticated) then
      Answers(p, s1, p.requests, f, env) && s1.authenticated == (p.authenticated || f.opcode == 0)
    else
      && |s1.replies| == |p.replies| + 1 && s1.replies[|p.replies|].body.Rejected?
      && Adds(p, s1, Reply(p.requests, s1.replies[|p.replies|].body)) && s1.authenticated == p.authenticated
  }

  lemma {:induction false} SameAnswers(
    p: State, c: State, s1: State, s': State, request: nat, f: Fields, env: RequestEnv)
    requires Answers(c, s1, request, f, env)
    requires c.workers == p.workers && c.pending == p.pending && c.waiting == p.waiting && c.replies == p.replies
    requires s'.workers == s1.workers && s'.pending == s1.pending && s'.waiting == s1.waiting
    requires s'.replies == s1.replies
    ensures Answers(p, s', request, f, env)
  {
    assert forall a :: Defers(c, f, a) == Defers(p, f, a);
  }

  lemma {:induction false} ReceiveAnswers(p: State, t: Turn)
    requires p.fate.Running? && |p.input| < FRAME && |p.capability| == 32 && Handles(p.workers)
    requires Receive(p, t.recv, t.recvNow, t.request).fate.Running?
    ensures var s1 := Receive(p, t.recv, t.recvNow, t.request);
            if t.recv.RecvData? && |Filled(p, t.recv)| == FRAME then
              && s1.log == p.log + [Filled(p, t.recv)[4..]] && s1.input == [] && s1.partialDeadline == 0
              && Handled(p, s1, Filled(p, t.recv)[4..], t.request)
            else
              && s1.log == p.log && s1.replies == p.replies && s1.pending == p.pending && s1.waiting == p.waiting
              && s1.authenticated == p.authenticated
              && s1.partialDeadline ==
                 if t.recv.RecvData? && p.input == [] then t.recvNow + SECOND else p.partialDeadline
    ensures Receive(p, t.recv, t.recvNow, t.request).received == p.received + Filled(p, t.recv)[|p.input|..]
  {
    hide Request;
    hide Answers;
    hide DecodeFields;
    hide Proper;
    hide Handles;
    hide BadStart;
    ReceiveLives(p, t.recv, t.recvNow, t.request);
    hide Receive;
    var x := Filled(p, t.recv);
    assert t.recv.RecvAgain? ==> p.received + x[|p.input|..] == p.received;
    if t.recv.RecvData? && |x| == FRAME {
      var c, data := Complete(p, t.recv, t.recvNow), x[4..];
      var s1 := Request(c, data, t.request);
      RequestLogs(c, data, t.request);
      RequestReceived(c, data, t.request);
      if Proper(c.capability, data, c.authenticated) {
        RequestAnswers(c, data, t.request);
        SameAnswers(p, c, s1, Receive(p, t.recv, t.recvNow, t.request), p.requests, DecodeFields(data), t.request);
      } else {
        hide Fits;
        hide Lives;
        var body := RequestLives(c, data, t.request);
      }
    }
  }

  lemma {:induction false} RequestReceived(s: State, data: seq<byte>, env: RequestEnv)
    requires |data| == PAYLOAD && |s.capability| == 32
    ensures Request(s, data, env).received == s.received
  {
    hide Formatted;
    hide Find;
    hide FirstFresh;
    hide DecodeFields;
    hide ArgumentsRight;
  }

  /** `p` is the state before `select`, in the terms of the state before the turn. */
  ghost predicate BeforeSelect(s: State, t: Turn, p: State) {
    && Handed(s, p, t) && p.replies == s.replies + WaitReplies(s, t)
    && p.requests == s.requests && p.waiting == s.waiting && p.client == s.client && p.input == s.input
    && p.received == s.received && p.sent == s.sent && p.partialDeadline == s.partialDeadline
  }

  lemma {:induction false} PreparedBefore(s: State, t: Turn)
    requires s.fate.Running? && |s.workers| == |s.timeouts| && s.pending < |s.workers| && Prepare(s, t).fate.Running?
    ensures BeforeSelect(s, t, Prepare(s, t))
  {
    hide Handed;
    hide WaitOver;
    hide Fits;
    hide AfterWait;
    HandedOver(s, t);
    PrepareQuiet(s, t);
    PrepareLives(s, t);
    PrepareWaiting(s, t);
  }

  lemma {:induction false} PrepareWaiting(s: State, t: Turn)
    requires |s.workers| == |s.timeouts| && s.pending < |s.workers|
    ensures Prepare(s, t).waiting == s.waiting
  {
    hide ReapFrom;
    hide ExpireFrom;
    hide AnswerPending;
    hide WakeTime;
    ReapFromKeeps(s, 0, t);
    var s1 := ReapFrom(s, 0, t);
    ExpireFromKeeps(s1, 0, t);
    AnswerShape(Schedule(s1, t));
  }

  /** What the client gets done in a turn: bytes taken in, one payload handled, bytes sent, a connection accepted. */
  ghost predicate ClientTurn(p: State, t: Turn, s1: State, s': State)
    requires |p.input| < FRAME
  {
    var receives := t.select.SelectReady? && p.client && t.readable;
    var x := if receives then Filled(p, t.recv) else p.input;
    var complete := receives && t.recv.RecvData? && |x| == FRAME;
    var accepted := t.select.SelectReady? && t.listening && t.accept == Accepted(true) && !p.client;
    && |x| <= FRAME && s'.received == p.received + x[|p.input|..]
    && s'.log == p.log + (if complete then [x[4..]] else [])
    && s'.input == (if complete then [] else x)
    && (if complete then Handled(p, s1, x[4..], t.request)
        else s1.replies == p.replies && s1.pending == p.pending && s1.waiting == p.waiting &&
             s1.authenticated == p.authenticated)
    && s'.replies == s1.replies && s'.pending == s1.pending && s'.waiting == s1.waiting
    && s'.authenticated == s1.authenticated
    && s'.client == (p.client || accepted)
    && s'.partialDeadline == if accepted then t.acceptNow + SECOND else if complete then 0
                             else if receives && t.recv.RecvData? && p.input == [] then t.recvNow + SECOND
                             else p.partialDeadline
  }

  /** How many bytes the socket takes in a turn. */
  function Room(p: State, t: Turn): nat {
    if t.select.SelectReady? && p.client && p.unsent != [] && t.writable && t.send.SendTaken? then t.send.room else 0
  }

  /** As many queued bytes are sent as there is room for. */
  ghost predicate Sends(p: State, s': State, room: nat) {
    p.sent <= s'.sent && |s'.sent| <= |p.sent| + room && (|s'.sent| == |p.sent| + room || s'.unsent == [])
  }

  lemma {:induction false} AcceptingIo(s1: State, pendingOutput: bool, t: Turn)
    requires s1.fate.Running? && Accepting(s1, pendingOutput, t).fate.Running?
    ensures var s3 := Accepting(s1, pendingOutput, t);
            var accepted := t.listening && t.accept == Accepted(true) && !s1.client;
            && s3 == s1.(sent := s3.sent, unsent := s3.unsent, client := s3.client,
                         partialDeadline := s3.partialDeadline)
            && s3.client == (s1.client || accepted)
            && s3.partialDeadline == (if accepted then t.acceptNow + SECOND else s1.partialDeadline)
            && Sends(s1, s3, if s1.client && pendingOutput && t.writable && t.send.SendTaken? then t.send.room else 0)
  {}

  lemma {:induction false} ServeIo(p: State, t: Turn)
    requires Inv(p) && p.fate.Running? && Shaped(p) && Legal(p, t) && Serve(p, t).fate.Running?
    ensures ClientTurn(p, t, AfterReceive(p, t), Serve(p, t)) && Sends(p, Serve(p, t), Room(p, t))
  {
    hide Receive;
    hide DrainFrom;
    hide AfterRead;
    hide DrawsOk;
    hide ReadFine;
    hide Accepting;
    hide Handled;
    hide Inv;
    hide Handles;
    InvHandles(p);
    if t.select.SelectReady? {
      var s1 := AfterReceive(p, t);
      ServeParts(p, t, s1);
      hide Serve;
      if p.client && t.readable {
        ReceiveAnswers(p, t);
        ReceiveGrows(p, t.recv, t.recvNow, t.request);
        ReceiveInput(p, t);
        ReceiveKeeps(p, t.recv, t.recvNow, t.request);
        InvHandles(s1);
      }
      hide Evolves;
      var s3 := Accepting(s1, p.unsent != [], t);
      AcceptingShape(s1, p.unsent != [], t);
      if s3.fate.Died? { DeadDrains(s3, 0, t); }
      DrainSlots(s3, 0, t);
      AcceptingIo(s1, p.unsent != [], t);
      hide Filled;
    }
  }

  /** An unfinished frame stays in the buffer. */
  lemma {:induction false} ReceiveInput(p: State, t: Turn)
    requires p.fate.Running? && |p.input| < FRAME && |p.capability| == 32
    requires Receive(p, t.recv, t.recvNow, t.request).fate.Running?
    ensures |Filled(p, t.recv)| <= FRAME
    ensures !(t.recv.RecvData? && |Filled(p, t.recv)| == FRAME) ==>
              Receive(p, t.recv, t.recvNow, t.request).input == Filled(p, t.recv)
  {
    hide Request;
    hide Receive;
    hide BadStart;
    ReceiveLives(p, t.recv, t.recvNow, t.request);
  }

  /**
   * The client's side of a turn that the broker survives. The finished wait is answered first, for the worker as it
   * then is. Of what came, the one payload that is now complete is handled, with the table as it is before `select`;
   * an admitted one gets the reply the table and the environment decide, or becomes the pending wait. A reply about
   * a worker shows its slot as it stands, before the turn's reads. As many bytes are sent as there is room for, and
   * a trusted peer is accepted if there is no client yet.
   */
  lemma {:induction false} TurnClient(s: State, t: Turn, s': State) returns (p: State, s1: State)
    requires Inv(s) && Next(s, t, s') && s.fate.Running? && s'.fate.Running?
    ensures s.pending < |s.workers| && |p.input| < FRAME && BeforeSelect(s, t, p)
    ensures MidTurn(p, s1, t.request) && |s'.workers| == |s1.workers|
    ensures forall a :: 0 <= a < |s1.workers| ==> s'.workers[a] == Drained(s1.workers[a], t, a)
    ensures ClientTurn(p, t, s1, s') && Sends(p, s', Room(p, t))
    ensures p.unsent == [] <==> s.unsent == [] && !WaitOver(s, t)
  {
    hide Inv;
    hide Evolves;
    hide Prepare;
    hide Serve;
    hide DrawsOk;
    hide MidTurn;
    hide BeforeSelect;
    hide ClientTurn;
    hide Drained;
    hide WaitOver;
    p := Prepare(s, t);
    PrepareInv(s, t);
    LegalAfter(s, t);
    InvShapes(p);
    PreparedBefore(s, t);
    PrepareUnsent(s, t);
    s1 := AfterReceive(p, t);
    ServeSlots(p, t);
    ServeIo(p, t);
  }

  /** Something is to be sent before `select` exactly when something was, or the wait has just been answered. */
  lemma {:induction false} PrepareUnsent(s: State, t: Turn)
    requires s.fate.Running? && |s.workers| == |s.timeouts| && s.pending < |s.workers| && Prepare(s, t).fate.Running?
    ensures Prepare(s, t).unsent == [] <==> s.unsent == [] && !WaitOver(s, t)
  {
    hide ReapFrom;
    hide ExpireFrom;
    hide WakeTime;
    hide Result;
    hide AfterClock;
    hide AfterWait;
    hide WaitFine;
    hide WaitCause;
    hide Late;
    ReapSlots(s, 0, t);
    ReapFromKeeps(s, 0, t);
    var s1 := ReapFrom(s, 0, t);
    ExpireSlots(s1, 0, t);
    ExpireFromKeeps(s1, 0, t);
    var s2 := Schedule(s1, t);
    if s.pending >= 0 { FinishedKept(s1.workers[s.pending], t.current, s.sessionDeadline); }
    if WaitOver(s, t) {
      ResultSends(s2, s2.waiting, s2.pending, Exited);
    }
  }

  lemma {:induction false} ResultSends(s: State, request: nat, index: nat, stage: Stage)
    requires index < |s.workers| && s.fate.Running? && Result(s, request, index, stage).fate.Running?
    ensures Result(s, request, index, stage).unsent != []
  {
    hide Formatted;
  }

  // ---- Over runs ----

  /** What turn `t` reads from the pipe of slot `a`, as long as it is open, and whether it finds its end. */
  function ReadIn(t: Turn, a: nat): seq<byte> {
    if t.select.SelectReady? then Chunk(t.ready(a), t.outputs(a)) else []
  }

  predicate EndsIn(t: Turn, a: nat) {
    t.select.SelectReady? && Ends(t.ready(a), t.outputs(a))
  }

  /** No turn from `k` up to `j` finds the end of the pipe of slot `a`. */
  predicate StillOpen(turns: seq<Turn>, k: nat, j: nat, a: nat) {
    forall m :: k <= m < j && m < |turns| ==> !EndsIn(turns[m], a)
  }

  /** Everything read from the pipe of slot `a` in the turns from `k` up to `j`, until its end. */
  function Collected(turns: seq<Turn>, k: nat, j: nat, a: nat): seq<byte>
    requires j <= |turns|
  {
    if j <= k then []
    else Collected(turns, k, j - 1, a) + if StillOpen(turns, k, j - 1, a) then ReadIn(turns[j - 1], a) else []
  }

  /** The slot keeps everything a turn does not read. */
  lemma {:induction false} TurnOutput(s: State, t: Turn, s': State, a: nat)
    requires a < |s.workers| && s.pending < |s.workers| && forall j :: 0 <= j < |s'.log| ==> |s'.log[j]| == PAYLOAD
    ensures var w, w' := s.workers[a], Drained(Dispatched(s, s', t, a), t, a);
            && w'.output == w.output + (if w.open then ReadIn(t, a) else [])
            && w'.open == (w.open && !EndsIn(t, a))
            && w'.pid == w.pid && w'.mode == w.mode && w'.handle == w.handle
  {
    hide Proper;
    hide DecodeFields;
    hide WaitOver;
    hide Chunk;
    hide Ends;
    DispatchedOutput(s, t, s', a);
    hide Dispatched;
    var w := Dispatched(s, s', t, a);
    assert w.output + [] == w.output;
  }

  /** The same process, handle and mode, and nothing read. */
  predicate SamePipe(w: Worker, w': Worker) {
    w'.output == w.output && w'.open == w.open && w'.pid == w.pid && w'.mode == w.mode && w'.handle == w.handle
  }

  lemma {:induction false} PreparedPipe(w: Worker, wait: Wait, current: int, session: int)
    ensures SamePipe(w, AfterClock(AfterWait(w, wait), current, session))
  {}

  lemma {:induction false} RequestPipe(w: Worker, f: Fields, admitted: bool, free: bool, session: int)
    ensures SamePipe(w, AfterRequest(w, f, admitted, free, session))
  {}

  lemma {:induction false} DispatchedOutput(s: State, t: Turn, s': State, a: nat)
    requires a < |s.workers| && s.pending < |s.workers| && forall j :: 0 <= j < |s'.log| ==> |s'.log[j]| == PAYLOAD
    ensures SamePipe(s.workers[a], Dispatched(s, s', t, a))
  {
    hide Proper;
    hide DecodeFields;
    hide WaitOver;
    hide AfterWait;
    hide AfterClock;
    hide AfterRequest;
    PreparedPipe(s.workers[a], t.waits(a), t.current, s.sessionDeadline);
    if Payload(s, s').Some? {
      var data := Payload(s, s').value;
      RequestPipe(Prepared(s, t, a), DecodeFields(data), Proper(s.capability, data, s.authenticated),
                  s.pending < 0 || WaitOver(s, t), s.sessionDeadline);
    }
  }

  /** The worker in slot `a` was launched in turn `k`, by that turn's request, from that turn's spawn and draws. */
  ghost predicate LaunchedIn(states: seq<State>, turns: seq<Turn>, k: nat, a: nat, w: Worker) {
    && k < |turns| && k + 1 < |states|
    && var s, s', env := states[k], states[k + 1], turns[k].request;
       && |s.workers| == a && (forall j :: 0 <= j < |s'.log| ==> |s'.log[j]| == PAYLOAD)
       && LaunchMade(s, s', turns[k]) && env.spawn == Spawned(w.pid)
       && w.mode == DecodeFields(Payload(s, s').value).argument
       && w.handle in env.draws && Fresh(s.workers, w.handle)
  }

  /**
   * Every worker of a live state was launched in one earlier turn by an admitted request, from a signed file, as the
   * process spawned then; and its output is exactly what was read from its pipe since, in order, up to its end.
   */
  lemma {:induction false} OutputIsRead(states: seq<State>, turns: seq<Turn>, j: nat, a: nat) returns (k: nat)
    requires IsRun(states, turns) && j < |states| && states[j].fate.Running? && a < |states[j].workers|
    ensures k < j && LaunchedIn(states, turns, k, a, states[j].workers[a])
    ensures states[j].workers[a].output == Collected(turns, k, j, a)
    ensures states[j].workers[a].open <==> StillOpen(turns, k, j, a)
    decreases j
  {
    hide Next;
    hide Inv;
    hide Evolves;
    hide LaunchMade;
    hide Dispatched;
    hide Drained;
    hide DecodeFields;
    hide Added;
    hide EndsIn;
    hide ReadIn;
    var s, t := states[j - 1], turns[j - 1];
    assert Next(s, t, states[j]);
    RunSafety(states, turns, j - 1, j - 1);
    LivesBefore(s, t, states[j]);
    TurnSlots(s, t, states[j]);
    if a < |s.workers| {
      k := OutputIsRead(states, turns, j - 1, a);
      TurnOutput(s, t, states[j], a);
      StillOpenOn(turns, k, j, a);
    } else {
      k := j - 1;
      AddedOutput(s, t, states[j]);
      StillOpenOn(turns, k, j, a);
    }
  }

  lemma {:induction false} LivesBefore(s: State, t: Turn, s': State)
    requires Next(s, t, s') && s'.fate.Running?
    ensures s.fate.Running?
  {
    hide Step;
    hide Legal;
  }

  lemma {:induction false} StillOpenOn(turns: seq<Turn>, k: nat, j: nat, a: nat)
    requires k < j <= |turns|
    ensures StillOpen(turns, k, j, a) <==> StillOpen(turns, k, j - 1, a) && !EndsIn(turns[j - 1], a)
    ensures StillOpen(turns, k, k, a)
  {}

  lemma {:induction false} AddedOutput(s: State, t: Turn, s': State)
    requires forall j :: 0 <= j < |s'.log| ==> |s'.log[j]| == PAYLOAD
    requires LaunchMade(s, s', t) && |s'.workers| == |s.workers| + 1
    requires exists w :: Added(s, s', t, w) && s'.workers[|s.workers|] == Drained(w, t, |s.workers|)
    ensures var w', a, f := s'.workers[|s.workers|], |s.workers|, DecodeFields(Payload(s, s').value);
            && w'.output == ReadIn(t, a) && w'.open == !EndsIn(t, a)
            && t.request.spawn == Spawned(w'.pid) && w'.mode == f.argument && w'.handle in t.request.draws
            && Fresh(s.workers, w'.handle)
  {
    hide Proper;
    hide DecodeFields;
    hide Fresh;
    hide Chunk;
    hide Ends;
    var w :| Added(s, s', t, w) && s'.workers[|s.workers|] == Drained(w, t, |s.workers|);
    var chunk := Chunk(t.ready(|s.workers|), t.outputs(|s.workers|));
    assert [] + chunk == chunk;
  }
}
