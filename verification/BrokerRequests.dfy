/**
 * What a dispatched request does: to the worker it names, to the table, to the replies, and when it kills the broker.
 * With `BrokerTurns.dfy` this gives each slot after a whole turn, and over runs where a worker's output comes from.
 */
module BrokerRequests {
  import opened Bytes
  import opened BrokerWire
  import opened BrokerText
  import opened BrokerSpec
  import opened BrokerRuns
  import opened BrokerTurns
  import opened BrokerJudgement
  import BrokerTheorems

  /** The table holds a worker of this handle. */
  predicate Holds(workers: seq<Worker>, handle: nat) {
    exists a :: 0 <= a < |workers| && workers[a].handle == handle
  }

  /** The worker the request names, after it; `admitted` if the request passed every check, `free` if no wait pends. */
  function AfterRequest(w: Worker, f: Fields, admitted: bool, free: bool, session: int): Worker {
    if !admitted || f.opcode < 2 || f.handle != w.handle then w
    else if f.opcode == 2 then if free then w.(waitAccepted := true) else w
    else if w.reaped then w
    else Signalling(w, f, session)
  }

  /** A launch that gets its worker: a free slot, a signed worker file, and a spawned process. */
  predicate Launches(s: State, f: Fields, admitted: bool, env: RequestEnv) {
    admitted && f.opcode == 1 && |s.workers| < WORKERS && env.signed && env.spawn.Spawned?
  }

  lemma {:induction false} FindHolds(workers: seq<Worker>, handle: nat)
    ensures Find(workers, handle) < |workers| <==> Holds(workers, handle)
  {}

  /** An admitted request reaches the dispatch by opcode, and only an admitted one gets past the arguments. */
  lemma {:induction false} AdmittedDispatches(s: State, data: seq<byte>)
    requires |data| == PAYLOAD
    ensures var f := DecodeFields(data);
            Proper(s.capability, data, s.authenticated) <==>
            Refusal(f, data[20..] == s.capability, s.authenticated).None? && ArgumentsRight(f, s.authenticated)
  {
    hide DecodeFields;
  }

  ghost predicate Handles(workers: seq<Worker>) {
    forall i, j :: 0 <= i < j < |workers| ==> workers[i].handle != workers[j].handle
  }

  /** The table after a request: every worker by itself, and the one a launch adds. */
  ghost predicate TableAfter(s: State, s': State, f: Fields, admitted: bool, env: RequestEnv) {
    && |s.workers| <= |s'.workers|
    && (forall a :: 0 <= a < |s.workers| ==>
          s'.workers[a] == AfterRequest(s.workers[a], f, admitted, s.pending < 0, s.sessionDeadline))
    && s'.workers[|s.workers|..] == if Launches(s, f, admitted, env)
                                    then [NewWorker(s.workers, f.argument, f.timeout, env)] else []
  }

  lemma {:induction false} UntouchedTable(s: State, s': State, f: Fields, admitted: bool, env: RequestEnv)
    requires s'.workers == s.workers && !Launches(s, f, admitted, env)
    requires forall a :: 0 <= a < |s.workers| ==>
               AfterRequest(s.workers[a], f, admitted, s.pending < 0, s.sessionDeadline) == s.workers[a]
    ensures TableAfter(s, s', f, admitted, env)
  {}

  lemma {:induction false} LaunchTable(s: State, f: Fields, request: nat, env: RequestEnv)
    requires f.opcode == 1
    ensures TableAfter(s, Launch(s, request, f.argument, f.timeout, env), f, true, env)
  {
    hide Launch;
    hide FirstFresh;
    LaunchWorkers(s, request, f.argument, f.timeout, env);
  }

  lemma {:induction false} AcceptWaitTable(s: State, f: Fields, request: nat, index: nat, env: RequestEnv)
    requires f.opcode == 2 && Handles(s.workers) && index < |s.workers| && s.workers[index].handle == f.handle
    ensures TableAfter(s, AcceptWait(s, request, index), f, true, env)
  {
    hide AcceptWait;
    AcceptWaitWorkers(s, request, index);
  }

  lemma {:induction false} ControlTable(s: State, f: Fields, request: nat, index: nat, env: RequestEnv)
    requires f.opcode in {3, 4} && Handles(s.workers) && index < |s.workers| && s.workers[index].handle == f.handle
    requires Control(s, request, index, f, env).fate.Running?
    ensures TableAfter(s, Control(s, request, index, f, env), f, true, env)
  {
    hide Result;
    ControlWorkers(s, request, index, f, env);
  }

  /** Every worker after a dispatched request that the broker survives, and the table. */
  lemma {:induction false} RequestSlots(s0: State, data: seq<byte>, env: RequestEnv)
    requires |data| == PAYLOAD && |s0.capability| == 32 && s0.fate.Running? && Handles(s0.workers)
    requires Request(s0, data, env).fate.Running?
    ensures TableAfter(s0, Request(s0, data, env), DecodeFields(data),
                       Proper(s0.capability, data, s0.authenticated), env)
  {
    hide Queue;
    hide Launch;
    hide AcceptWait;
    hide Control;
    hide Find;
    hide DecodeFields;
    hide TableAfter;
    hide Handles;
    hide NewWorker;
    hide Signalling;
    hide ArgumentsRight;
    var s, request, f := Logged(s0, data), s0.requests, DecodeFields(data);
    var admitted := Proper(s0.capability, data, s0.authenticated);
    var s' := Request(s0, data, env);
    AdmittedDispatches(s0, data);
    hide Proper;
    if !admitted {
      match Refusal(f, data[20..] == s.capability, s.authenticated) {
        case Some(error) => QueueWorkers(s, Reply(request, Rejected(error)));
        case None => QueueWorkers(s, Reply(request, Rejected(ArgumentsError)));
      }
      UntouchedTable(s0, s', f, admitted, env);
    } else {
      AdmittedTable(s0, data, f, env);
    }
  }

  lemma {:induction false} AdmittedTable(s0: State, data: seq<byte>, f: Fields, env: RequestEnv)
    requires Handles(s0.workers) && f.opcode <= 4 && ArgumentsRight(f, s0.authenticated)
    requires Dispatch(Logged(s0, data), s0.requests, f, env).fate.Running?
    ensures TableAfter(s0, Dispatch(Logged(s0, data), s0.requests, f, env), f, true, env)
  {
    hide Queue;
    hide Launch;
    hide AcceptWait;
    hide Control;
    hide Handles;
    hide NewWorker;
    hide Signalling;
    hide Find;
    var s, request := Logged(s0, data), s0.requests;
    QueueWorkers(s, Reply(request, Rejected(HandleError)));
    QueueWorkers(s.(authenticated := true), Reply(request, Authenticated));
    var index := Find(s.workers, f.handle);
    if f.opcode == 1 { LaunchTable(s, f, request, env); }
    if index < |s.workers| {
      if f.opcode == 2 { AcceptWaitTable(s, f, request, index, env); }
      if f.opcode in {3, 4} { ControlTable(s, f, request, index, env); }
    }
  }

  // ---- Replies to requests ----

  /** The worker of that handle, if there is one. */
  predicate Found(workers: seq<Worker>, f: Fields, a: int) {
    0 <= a < |workers| && workers[a].handle == f.handle
  }

  /**
   * The reply an admitted request gets, as far as its fields alone do not decide it. A wait that is deferred gets none.
   */
  ghost predicate Replied(s: State, s': State, f: Fields, env: RequestEnv, body: Body) {
    && (body == Rejected(WorkerLimit) <==> f.opcode == 1 && |s.workers| >= WORKERS)
    && (body == Rejected(SignatureError) <==> f.opcode == 1 && |s.workers| < WORKERS && !env.signed)
    && (body == Rejected(SpawnError) <==>
        f.opcode == 1 && |s.workers| < WORKERS && env.signed && env.spawn.SpawnRefused?)
    && (body == Rejected(HandleError) <==> f.opcode >= 2 && !Holds(s.workers, f.handle))
    && (body == Rejected(WaitLimit) <==> f.opcode == 2 && Holds(s.workers, f.handle) && s.pending >= 0)
    && (body == Authenticated <==> f.opcode == 0)
    && (body.About? ==>
        && body.index < |s'.workers| && body.worker == s'.workers[body.index]
        && (f.opcode == 1 ==> body.index == |s.workers| && body.stage == Launched)
        && (f.opcode >= 2 ==> Found(s.workers, f, body.index))
        && (f.opcode == 2 ==> body.worker.Done() && body.stage == Exited)
        && (f.opcode >= 3 ==> body.stage == if body.worker.reaped then Exited else Signalled))
  }

  /** The request is a wait, and becomes the pending one. */
  predicate Defers(s: State, f: Fields, a: int) {
    f.opcode == 2 && s.pending < 0 && Found(s.workers, f, a) && !s.workers[a].Done()
  }

  lemma {:induction false} ResultShape(s: State, request: nat, index: nat, stage: Stage)
    requires index < |s.workers| && s.fate.Running?
    ensures var s' := Result(s, request, index, stage);
            && s' == s.(unsent := s'.unsent, replies := s'.replies, fate := s'.fate)
            && (s'.fate.Running? ==>
                s'.replies == s.replies + [Reply(request, About(index, s.workers[index], stage))])
  {
    hide Queue;
    QueueShape(s, Reply(request, About(index, s.workers[index], stage)));
  }

  /** What an admitted request leaves behind if the broker survives it: a reply, or a pending wait. */
  ghost predicate Answers(s: State, s': State, request: nat, f: Fields, env: RequestEnv) {
    if exists a :: Defers(s, f, a) then
      Defers(s, f, s'.pending) && s'.waiting == request && s'.replies == s.replies
    else
      && s'.pending == s.pending && s'.waiting == s.waiting && |s'.replies| == |s.replies| + 1
      && s'.replies == s.replies + [Reply(request, s'.replies[|s.replies|].body)]
      && Replied(s, s', f, env, s'.replies[|s.replies|].body)
  }

  /** One reply is appended, and no wait begins. */
  ghost predicate Adds(s: State, s': State, reply: Reply) {
    s'.pending == s.pending && s'.waiting == s.waiting && s'.replies == s.replies + [reply]
  }

  lemma {:induction false} AddsAnswers(s: State, s': State, f: Fields, env: RequestEnv, reply: Reply)
    requires Adds(s, s', reply) && Replied(s, s', f, env, reply.body) && forall a :: !Defers(s, f, a)
    ensures Answers(s, s', reply.request, f, env)
  {
    hide Defers;
    hide Replied;
  }

  lemma {:induction false} QueueAdds(s: State, reply: Reply)
    requires s.fate.Running? && Queue(s, reply).fate.Running?
    ensures Adds(s, Queue(s, reply), reply) && Queue(s, reply).workers == s.workers
  {
    hide Queue;
    QueueShape(s, reply);
  }

  lemma {:induction false} LaunchAnswers(s: State, f: Fields, request: nat, env: RequestEnv)
    requires f.opcode == 1 && s.fate.Running?
    requires Launch(s, request, f.argument, f.timeout, env).fate.Running?
    ensures Answers(s, Launch(s, request, f.argument, f.timeout, env), request, f, env)
  {
    hide Queue;
    hide Result;
    hide FirstFresh;
    var s' := Launch(s, request, f.argument, f.timeout, env);
    if |s.workers| >= WORKERS {
      QueueAdds(s, Reply(request, Rejected(WorkerLimit)));
      AddsAnswers(s, s', f, env, Reply(request, Rejected(WorkerLimit)));
    } else if !env.signed {
      QueueAdds(s, Reply(request, Rejected(SignatureError)));
      AddsAnswers(s, s', f, env, Reply(request, Rejected(SignatureError)));
    } else if env.spawn.SpawnRefused? {
      QueueAdds(s, Reply(request, Rejected(SpawnError)));
      AddsAnswers(s, s', f, env, Reply(request, Rejected(SpawnError)));
    } else {
      var w := NewWorker(s.workers, f.argument, f.timeout, env);
      var s1 := s.(workers := s.workers + [w], timeouts := s.timeouts + [0]);
      ResultShape(s1, request, |s.workers|, Launched);
      AddsAnswers(s, s', f, env, Reply(request, About(|s.workers|, w, Launched)));
    }
  }

  lemma {:induction false} AcceptWaitAnswers(s: State, f: Fields, request: nat, index: nat, env: RequestEnv)
    requires f.opcode == 2 && s.fate.Running? && Handles(s.workers) && Found(s.workers, f, index)
    requires AcceptWait(s, request, index).fate.Running?
    ensures Answers(s, AcceptWait(s, request, index), request, f, env)
  {
    hide Queue;
    hide Result;
    var s' := AcceptWait(s, request, index);
    assert Holds(s.workers, f.handle);
    if s.pending >= 0 {
      QueueAdds(s, Reply(request, Rejected(WaitLimit)));
      AddsAnswers(s, s', f, env, Reply(request, Rejected(WaitLimit)));
    } else {
      var w := s.workers[index].(waitAccepted := true);
      var s1 := s.(workers := s.workers[index := w]);
      if w.Done() {
        ResultShape(s1, request, index, Exited);
        AddsAnswers(s, s', f, env, Reply(request, About(index, w, Exited)));
      } else {
        assert Defers(s, f, index);
      }
    }
  }

  lemma {:induction false} ControlAnswers(s: State, f: Fields, request: nat, index: nat, env: RequestEnv)
    requires f.opcode in {3, 4} && s.fate.Running? && Found(s.workers, f, index)
    requires Control(s, request, index, f, env).fate.Running?
    ensures Answers(s, Control(s, request, index, f, env), request, f, env)
  {
    hide Result;
    var s' := Control(s, request, index, f, env);
    assert Holds(s.workers, f.handle);
    var w := s.workers[index];
    if w.reaped {
      ResultShape(s, request, index, Exited);
      AddsAnswers(s, s', f, env, Reply(request, About(index, w, Exited)));
    } else {
      var w1 := Signalling(w, f, s.sessionDeadline);
      ResultShape(s.(workers := s.workers[index := w1]), request, index, Signalled);
      AddsAnswers(s, s', f, env, Reply(request, About(index, w1, Signalled)));
    }
  }

  /**
   * An admitted request that the broker survives becomes the pending wait exactly when it waits for an unfinished
   * worker while no other wait pends; otherwise it gets the one reply that the table and the environment decide, and
   * a reply about a worker shows its slot as it then stands.
   */
  lemma {:induction false} RequestAnswers(s0: State, data: seq<byte>, env: RequestEnv)
    requires |data| == PAYLOAD && |s0.capability| == 32 && s0.fate.Running? && Handles(s0.workers)
    requires Proper(s0.capability, data, s0.authenticated) && Request(s0, data, env).fate.Running?
    ensures Answers(s0, Request(s0, data, env), s0.requests, DecodeFields(data), env)
    ensures Request(s0, data, env).authenticated == (s0.authenticated || DecodeFields(data).opcode == 0)
  {
    hide Queue;
    hide Launch;
    hide AcceptWait;
    hide Control;
    hide Find;
    hide DecodeFields;
    hide ArgumentsRight;
    hide Answers;
    hide Handles;
    AdmittedDispatches(s0, data);
    AdmittedAnswers(s0, data, DecodeFields(data), env);
  }

  lemma {:induction false} AdmittedAnswers(s0: State, data: seq<byte>, f: Fields, env: RequestEnv)
    requires s0.fate.Running? && Handles(s0.workers) && f.opcode <= 4 && ArgumentsRight(f, s0.authenticated)
    requires Dispatch(Logged(s0, data), s0.requests, f, env).fate.Running?
    ensures var s' := Dispatch(Logged(s0, data), s0.requests, f, env);
            Answers(s0, s', s0.requests, f, env) && s'.authenticated == (s0.authenticated || f.opcode == 0)
  {
    hide Queue;
    hide Launch;
    hide AcceptWait;
    hide Control;
    hide Find;
    hide Handles;
    hide Answers;
    var s, request := Logged(s0, data), s0.requests;
    var s' := Dispatch(s, request, f, env);
    var index := Find(s.workers, f.handle);
    FindHolds(s.workers, f.handle);
    if f.opcode == 0 {
      QueueAdds(s.(authenticated := true), Reply(request, Authenticated));
      AddsAnswers(s, s', f, env, Reply(request, Authenticated));
    } else if f.opcode == 1 {
      LaunchAnswers(s, f, request, env);
    } else if index == |s.workers| {
      QueueAdds(s, Reply(request, Rejected(HandleError)));
      NoneDefers(s, f);
      AddsAnswers(s, s', f, env, Reply(request, Rejected(HandleError)));
    } else if f.opcode == 2 {
      AcceptWaitAnswers(s, f, request, index, env);
    } else {
      ControlAnswers(s, f, request, index, env);
    }
    LoggedAnswers(s0, data, s', request, f, env);
    AuthenticatedAfter(s, request, f, env);
  }

  lemma {:induction false} NoneDefers(s: State, f: Fields)
    requires !Holds(s.workers, f.handle)
    ensures forall a :: !Defers(s, f, a)
  {}

  lemma {:induction false} LoggedAnswers(
    s0: State, data: seq<byte>, s': State, request: nat, f: Fields, env: RequestEnv)
    requires Answers(Logged(s0, data), s', request, f, env)
    ensures Answers(s0, s', request, f, env)
  {
    var s := Logged(s0, data);
    assert forall a :: Defers(s, f, a) == Defers(s0, f, a);
  }

  lemma {:induction false} AuthenticatedAfter(s: State, request: nat, f: Fields, env: RequestEnv)
    requires s.fate.Running? && ArgumentsRight(f, s.authenticated)
    ensures Dispatch(s, request, f, env).authenticated == (s.authenticated || f.opcode == 0)
  {
    hide Formatted;
    hide Find;
    hide FirstFresh;
  }

  // ---- What kills the broker ----

  /** A reply can be queued: printable, within the client's limit, and with room left for it and its prefix. */
  predicate Fits(s: State, body: Body) {
    && (body.About? ==> AllPrintable(body.worker.output))
    && |TextOf(body)| <= REPLY_LIMIT && |TextOf(body)| + 4 <= QUEUE - |s.unsent|
  }

  const OUTPUT_CAUSES := {Unprintable, Oversize, QueueFull}

  lemma {:induction false} QueueFits(s: State, reply: Reply)
    requires s.fate.Running? && (reply.body.About? ==> AllPrintable(reply.body.worker.output))
    ensures var s' := Queue(s, reply);
            && (s'.fate.Running? <==> Fits(s, reply.body))
            && (s'.fate.Died? ==> s'.fate.cause in OUTPUT_CAUSES)
            && s'.workers == s.workers
  {
    BrokerTheorems.FormattedOver(reply.body);
    if |Formatted(reply.body)| <= REPLY_LIMIT { QueuedWhole(reply.body); }
    hide Formatted;
    hide TextOf;
  }

  lemma {:induction false} ResultFits(s: State, request: nat, index: nat, stage: Stage)
    requires index < |s.workers| && s.fate.Running?
    ensures var s' := Result(s, request, index, stage);
            && (s'.fate.Running? <==> Fits(s, About(index, s.workers[index], stage)))
            && (s'.fate.Died? ==> s'.fate.cause in OUTPUT_CAUSES)
            && s'.workers == s.workers
  {
    hide Queue;
    hide TextOf;
    if AllPrintable(s.workers[index].output) {
      QueueFits(s, Reply(request, About(index, s.workers[index], stage)));
    }
  }

  /** The answers of the environment that kill the broker while it acts on an admitted request. */
  predicate SetupFails(s: State, f: Fields, env: RequestEnv) {
    f.opcode == 1 && |s.workers| < WORKERS && env.signed && env.spawn.SetupFailed?
  }

  ghost predicate KillFails(s: State, f: Fields, env: RequestEnv) {
    f.opcode >= 3 && !env.killed && exists a :: Found(s.workers, f, a) && !s.workers[a].reaped
  }

  /**
   * What becomes of the broker: it dies of such an answer, or exactly when the reply `body` that it owes does not
   * fit.
   */
  ghost predicate Lives(s: State, s': State, f: Fields, env: RequestEnv, body: Body) {
    && (s'.fate == Died(SpawnSetup) <==> SetupFails(s, f, env))
    && (s'.fate == Died(KillFailed) <==> KillFails(s, f, env))
    && (s'.fate.Running? <==>
        !SetupFails(s, f, env) && !KillFails(s, f, env) && ((exists a :: Defers(s, f, a)) || Fits(s, body)))
    && (s'.fate.Died? ==> s'.fate.cause in {SpawnSetup, KillFailed} + OUTPUT_CAUSES)
    && (!SetupFails(s, f, env) && !KillFails(s, f, env) && !(exists a :: Defers(s, f, a)) ==>
        Replied(s, s', f, env, body))
  }

  lemma {:induction false} LaunchLives(s: State, f: Fields, request: nat, env: RequestEnv) returns (body: Body)
    requires f.opcode == 1 && s.fate.Running?
    ensures Lives(s, Launch(s, request, f.argument, f.timeout, env), f, env, body)
  {
    hide Queue;
    hide Result;
    hide FirstFresh;
    hide Fits;
    body := Authenticated;
    if |s.workers| >= WORKERS {
      body := Rejected(WorkerLimit);
      QueueFits(s, Reply(request, body));
    } else if !env.signed {
      body := Rejected(SignatureError);
      QueueFits(s, Reply(request, body));
    } else if env.spawn.SpawnRefused? {
      body := Rejected(SpawnError);
      QueueFits(s, Reply(request, body));
    } else if env.spawn.Spawned? {
      var w := NewWorker(s.workers, f.argument, f.timeout, env);
      var s1 := s.(workers := s.workers + [w], timeouts := s.timeouts + [0]);
      body := About(|s.workers|, w, Launched);
      ResultFits(s1, request, |s.workers|, Launched);
      SameRoom(s, s1, body);
    }
  }

  lemma {:induction false} SameRoom(s: State, s1: State, body: Body)
    requires s1.unsent == s.unsent
    ensures Fits(s1, body) == Fits(s, body)
  {}

  lemma {:induction false} AcceptWaitLives(s: State, f: Fields, request: nat, index: nat, env: RequestEnv)
    returns (body: Body)
    requires f.opcode == 2 && s.fate.Running? && Handles(s.workers) && Found(s.workers, f, index)
    ensures Lives(s, AcceptWait(s, request, index), f, env, body)
  {
    hide Queue;
    hide Result;
    hide Fits;
    assert Holds(s.workers, f.handle);
    var w := s.workers[index].(waitAccepted := true);
    if s.pending >= 0 {
      body := Rejected(WaitLimit);
      QueueFits(s, Reply(request, body));
    } else {
      var s1 := s.(workers := s.workers[index := w]);
      body := About(index, w, Exited);
      if w.Done() {
        ResultFits(s1, request, index, Exited);
        SameRoom(s, s1, body);
      } else {
        assert Defers(s, f, index);
      }
    }
  }

  lemma {:induction false} ControlLives(s: State, f: Fields, request: nat, index: nat, env: RequestEnv)
    returns (body: Body)
    requires f.opcode in {3, 4} && s.fate.Running? && Handles(s.workers) && Found(s.workers, f, index)
    ensures Lives(s, Control(s, request, index, f, env), f, env, body)
  {
    hide Result;
    hide Fits;
    assert Holds(s.workers, f.handle);
    var w := s.workers[index];
    if w.reaped {
      body := About(index, w, Exited);
      ResultFits(s, request, index, Exited);
    } else {
      assert !env.killed ==> KillFails(s, f, env);
      var w1 := Signalling(w, f, s.sessionDeadline);
      var s1 := s.(workers := s.workers[index := w1]);
      body := About(index, w1, Signalled);
      ResultFits(s1, request, index, Signalled);
      SameRoom(s, s1, body);
    }
  }

  /**
   * Acting on an admitted request kills the broker exactly when a launch cannot be set up, a worker cannot be
   * signalled, or the reply it owes does not fit.
   */
  lemma {:induction false} DispatchLives(s: State, request: nat, f: Fields, env: RequestEnv) returns (body: Body)
    requires s.fate.Running? && Handles(s.workers) && f.opcode <= 4 && ArgumentsRight(f, s.authenticated)
    ensures Lives(s, Dispatch(s, request, f, env), f, env, body)
  {
    hide Queue;
    hide Launch;
    hide AcceptWait;
    hide Control;
    hide Find;
    hide Handles;
    hide Fits;
    var index := Find(s.workers, f.handle);
    FindHolds(s.workers, f.handle);
    if f.opcode == 0 {
      body := Authenticated;
      QueueFits(s.(authenticated := true), Reply(request, body));
      SameRoom(s, s.(authenticated := true), body);
    } else if f.opcode == 1 {
      body := LaunchLives(s, f, request, env);
    } else if index == |s.workers| {
      body := Rejected(HandleError);
      QueueFits(s, Reply(request, body));
      NoneDefers(s, f);
    } else if f.opcode == 2 {
      body := AcceptWaitLives(s, f, request, index, env);
    } else {
      body := ControlLives(s, f, request, index, env);
    }
  }

  /**
   * Every request: the broker dies of the sixty-fifth; a request that is not admitted gets its error if that fits; an
   * admitted one is as above.
   */
  lemma {:induction false} RequestLives(s0: State, data: seq<byte>, env: RequestEnv) returns (body: Body)
    requires |data| == PAYLOAD && |s0.capability| == 32 && s0.fate.Running? && Handles(s0.workers)
    ensures var s', f := Request(s0, data, env), DecodeFields(data);
            var admitted := Proper(s0.capability, data, s0.authenticated);
            && (s'.fate == Died(TooManyRequests) <==> s0.requests >= MAX_REQUESTS)
            && (s0.requests < MAX_REQUESTS && !admitted ==>
                && body.Rejected? && (s'.fate.Running? <==> Fits(s0, body))
                && (s'.fate.Running? ==> Adds(s0, s', Reply(s0.requests, body)))
                && s'.authenticated == s0.authenticated)
            && (s0.requests < MAX_REQUESTS && admitted ==> Lives(s0, s', f, env, body))
  {
    hide Queue;
    hide Dispatch;
    hide DecodeFields;
    hide ArgumentsRight;
    hide Fits;
    hide Lives;
    hide Handles;
    var s, request, f := Logged(s0, data), s0.requests, DecodeFields(data);
    AdmittedDispatches(s0, data);
    body := Authenticated;
    if s0.requests < MAX_REQUESTS {
      if Proper(s0.capability, data, s0.authenticated) {
        body := DispatchLives(s, request, f, env);
        LoggedLives(s0, data, Dispatch(s, request, f, env), f, env, body);
        LivesCauses(s, Dispatch(s, request, f, env), f, env, body);
      } else {
        hide Proper;
        body := Refused(s0, data, env);
      }
    }
  }

  lemma {:induction false} Refused(s0: State, data: seq<byte>, env: RequestEnv) returns (body: Body)
    requires |data| == PAYLOAD && |s0.capability| == 32 && s0.fate.Running? && s0.requests < MAX_REQUESTS
    requires !Proper(s0.capability, data, s0.authenticated)
    ensures var s' := Request(s0, data, env);
            && body.Rejected? && (s'.fate.Running? <==> Fits(s0, body))
            && (s'.fate.Running? ==> Adds(s0, s', Reply(s0.requests, body)))
            && s'.authenticated == s0.authenticated && s'.fate != Died(TooManyRequests)
  {
    hide Queue;
    hide DecodeFields;
    hide ArgumentsRight;
    hide Fits;
    hide Launch;
    hide AcceptWait;
    hide Control;
    hide Find;
    AdmittedDispatches(s0, data);
    hide Proper;
    var s := Logged(s0, data);
    var refusal := Refusal(DecodeFields(data), data[20..] == s.capability, s.authenticated);
    body := Rejected(if refusal.Some? then refusal.value else ArgumentsError);
    QueueFits(s, Reply(s0.requests, body));
    QueueShape(s, Reply(s0.requests, body));
    SameRoom(s0, s, body);
  }

  lemma {:induction false} LivesCauses(s: State, s': State, f: Fields, env: RequestEnv, body: Body)
    requires Lives(s, s', f, env, body)
    ensures s'.fate != Died(TooManyRequests)
  {
    hide Replied;
    hide Defers;
    hide Fits;
    hide KillFails;
  }

  lemma {:induction false} LoggedLives(
    s0: State, data: seq<byte>, s': State, f: Fields, env: RequestEnv, body: Body)
    requires Lives(Logged(s0, data), s', f, env, body)
    ensures Lives(s0, s', f, env, body)
  {
    hide TextOf;
    var s := Logged(s0, data);
    SameRoom(s0, s, body);
    assert forall a :: Defers(s, f, a) == Defers(s0, f, a);
  }
}
