/**
 * How the broker judges requests: which error a request gets, and what an unauthenticated client can bring about. One
 * more invariant of its runs, beside the one in `BrokerRuns.dfy`.
 */
module BrokerJudgement {
  import opened Bytes
  import opened BrokerWire
  import opened BrokerText
  import opened BrokerSpec
  import opened BrokerRuns

  /** An authentication was granted among the first `k` replies. */
  ghost predicate Granted(replies: seq<Reply>, k: nat) {
    exists j :: 0 <= j < k && j < |replies| && replies[j].body.Authenticated?
  }

  predicate WellFormed(capability: seq<byte>, data: seq<byte>)
    requires |data| == PAYLOAD
  {
    var f := DecodeFields(data);
    f.version == 1 && f.opcode <= 4 && f.reserved == 0 && data[20..] == capability
  }

  /** The payload is well formed, and its arguments are right for a client that is authenticated or not. */
  predicate Proper(capability: seq<byte>, data: seq<byte>, authenticated: bool)
    requires |data| == PAYLOAD
  {
    var f := DecodeFields(data);
    WellFormed(capability, data) && (f.opcode == 0 || authenticated) && ArgumentsRight(f, authenticated)
  }

  /** What a payload must be like to get this reply from a broker whose client is authenticated or not. */
  predicate Deserves(capability: seq<byte>, data: seq<byte>, authenticated: bool, body: Body)
    requires |data| == PAYLOAD
  {
    var f := DecodeFields(data);
    match body
    case Authenticated => Proper(capability, data, authenticated) && f.opcode == 0 && !authenticated
    case About(_, _, _) => Proper(capability, data, authenticated) && f.opcode >= 1
    case Rejected(error) =>
      match error
      case VersionError => f.version != 1
      case OpcodeError => f.version == 1 && f.opcode > 4
      case ReservedError => f.version == 1 && f.opcode <= 4 && f.reserved != 0
      case CapabilityError => f.version == 1 && f.opcode <= 4 && f.reserved == 0 && data[20..] != capability
      case AuthenticationError => WellFormed(capability, data) && f.opcode != 0 && !authenticated
      case ArgumentsError =>
        WellFormed(capability, data) && (f.opcode == 0 || authenticated) && !ArgumentsRight(f, authenticated)
      case WorkerLimit | SignatureError | SpawnError => Proper(capability, data, authenticated) && f.opcode == 1
      case HandleError => Proper(capability, data, authenticated) && f.opcode >= 2
      case WaitLimit => Proper(capability, data, authenticated) && f.opcode == 2
  }

  ghost predicate Judged(s: State, k: nat)
    requires k < |s.replies|
  {
    var r := s.replies[k];
    r.request < |s.log| && |s.log[r.request]| == PAYLOAD
    && Deserves(s.capability, s.log[r.request], Granted(s.replies, k), r.body)
  }

  ghost predicate WaitProper(s: State) {
    s.pending >= 0 ==>
      && s.authenticated && s.waiting < |s.log| && |s.log[s.waiting]| == PAYLOAD
      && Proper(s.capability, s.log[s.waiting], true) && DecodeFields(s.log[s.waiting]).opcode == 2
  }

  ghost predicate AllJudged(s: State) {
    forall k :: 0 <= k < |s.replies| ==> Judged(s, k)
  }

  ghost predicate JudgedInv(s: State) {
    && AllJudged(s) && WaitProper(s)
    && (s.fate.Running? ==> (s.authenticated <==> Granted(s.replies, |s.replies|)))
    && (Granted(s.replies, |s.replies|) ==> s.authenticated)
    && (!s.authenticated ==> s.workers == [])
  }

  // ---- What keeps it ----

  /** Phases that do not reply leave every judgement as it is. */
  ghost predicate Silent(s: State, s': State) {
    && s'.capability == s.capability && s'.log == s.log && s'.replies == s.replies && |s'.workers| == |s.workers|
    && s'.authenticated == s.authenticated && (s'.pending >= 0 ==> s'.pending == s.pending && s'.waiting == s.waiting)
    && (s'.fate.Running? ==> s.fate.Running?)
  }

  lemma {:induction false} SilentKeeps(s: State, s': State)
    requires JudgedInv(s) && Silent(s, s')
    ensures JudgedInv(s')
  {
    hide Deserves;
    hide Proper;
    hide Granted;
    forall k | 0 <= k < |s'.replies| ensures Judged(s', k) { assert Judged(s, k); }
  }

  lemma {:induction false} GrantedPrefix(replies: seq<Reply>, r: Reply, k: nat)
    requires k <= |replies|
    ensures Granted(replies + [r], k) == Granted(replies, k)
    ensures Granted(replies + [r], |replies| + 1) <==> Granted(replies, |replies|) || r.body.Authenticated?
  {
    var more := replies + [r];
    assert more[|replies|] == r;
    if j :| 0 <= j < k && replies[j].body.Authenticated? { assert more[j] == replies[j]; }
    if j :| 0 <= j < |replies| && replies[j].body.Authenticated? { assert more[j] == replies[j]; }
  }

  /** One more deserved reply. `granted` is whether the client was authenticated before it. */
  lemma {:induction false} AppendJudged(s: State, s': State, r: Reply)
    requires AllJudged(s) && r.request < |s.log| && |s.log[r.request]| == PAYLOAD
    requires s'.capability == s.capability && s'.log == s.log && s'.replies == s.replies + [r]
    requires Deserves(s.capability, s.log[r.request], Granted(s.replies, |s.replies|), r.body)
    ensures AllJudged(s')
    ensures Granted(s'.replies, |s'.replies|) <==> Granted(s.replies, |s.replies|) || r.body.Authenticated?
  {
    hide Deserves;
    hide Granted;
    forall k | 0 <= k < |s'.replies| ensures Judged(s', k) {
      GrantedPrefix(s.replies, r, k);
      if k < |s.replies| { assert Judged(s, k); }
    }
    GrantedPrefix(s.replies, r, |s.replies|);
  }

  /** Queueing a deserved reply, or dying of it. */
  lemma {:induction false} QueueJudged(s: State, r: Reply)
    requires JudgedInv(s) && s.fate.Running? && r.request < |s.log| && |s.log[r.request]| == PAYLOAD
    requires Deserves(s.capability, s.log[r.request], s.authenticated, r.body) && !r.body.Authenticated?
    ensures JudgedInv(Queue(s, r))
  {
    hide Deserves;
    hide Proper;
    hide Granted;
    hide Queue;
    hide AllJudged;
    var s' := Queue(s, r);
    QueueShape(s, r);
    if s'.fate.Running? {
      AppendJudged(s, s', r);
    } else {
      SilentKeeps(s, s');
    }
  }

  lemma {:induction false} ResultJudged(s: State, request: nat, index: nat, stage: Stage)
    requires JudgedInv(s) && s.fate.Running? && index < |s.workers| && request < |s.log| && |s.log[request]| == PAYLOAD
    requires Proper(s.capability, s.log[request], s.authenticated) && DecodeFields(s.log[request]).opcode >= 1
    ensures JudgedInv(Result(s, request, index, stage))
  {
    hide Proper;
    hide Granted;
    hide Queue;
    hide AllJudged;
    hide DecodeFields;
    if AllPrintable(s.workers[index].output) {
      QueueJudged(s, Reply(request, About(index, s.workers[index], stage)));
    } else {
      SilentKeeps(s, Die(s, Unprintable));
    }
  }

  lemma {:induction false} AuthenticateJudged(s: State, request: nat)
    requires JudgedInv(s) && s.fate.Running? && request < |s.log| && |s.log[request]| == PAYLOAD && !s.authenticated
    requires Proper(s.capability, s.log[request], false) && DecodeFields(s.log[request]).opcode == 0
    ensures JudgedInv(Queue(s.(authenticated := true), Reply(request, Authenticated)))
  {
    hide Proper;
    hide Granted;
    hide Queue;
    hide AllJudged;
    hide DecodeFields;
    var s1, r := s.(authenticated := true), Reply(request, Authenticated);
    var s' := Queue(s1, r);
    QueueShape(s1, r);
    if s'.fate.Running? {
      AppendJudged(s, s', r);
    } else {
      SilentKeeps(s, s'.(authenticated := false));
      AuthenticatedReplies(s'.(authenticated := false), s');
    }
  }

  lemma {:induction false} AuthenticatedReplies(s: State, s': State)
    requires AllJudged(s) && s' == s.(authenticated := true)
    ensures AllJudged(s')
  {
    hide Deserves;
    hide Granted;
    forall k | 0 <= k < |s'.replies| ensures Judged(s', k) { assert Judged(s, k); }
  }

  lemma {:induction false} LaunchJudged(s: State, request: nat, mode: nat, timeout: nat, env: RequestEnv)
    requires JudgedInv(s) && s.fate.Running? && request < |s.log| && |s.log[request]| == PAYLOAD
    requires Proper(s.capability, s.log[request], s.authenticated) && DecodeFields(s.log[request]).opcode == 1
    ensures JudgedInv(Launch(s, request, mode, timeout, env))
  {
    hide Proper;
    hide Granted;
    hide Queue;
    hide Result;
    hide AllJudged;
    hide DecodeFields;
    if |s.workers| >= WORKERS {
      QueueJudged(s, Reply(request, Rejected(WorkerLimit)));
    } else if !env.signed {
      QueueJudged(s, Reply(request, Rejected(SignatureError)));
    } else if env.spawn.SetupFailed? {
      SilentKeeps(s, Die(s, SpawnSetup));
    } else if env.spawn.SpawnRefused? {
      QueueJudged(s, Reply(request, Rejected(SpawnError)));
    } else {
      ProperAct(s.capability, s.log[request], s.authenticated);
      var w := Worker(env.spawn.pid, FirstFresh(s.workers, env.draws), env.now + timeout * MILLISECOND, mode, true,
                      false, ExitStatus(0), false, false, Completed, []);
      var s1 := s.(workers := s.workers + [w], timeouts := s.timeouts + [0]);
      JoinedKeeps(s, s1);
      ResultJudged(s1, request, |s.workers|, Launched);
    }
  }

  /** Only an authenticated client gets past the checks with anything but an authentication. */
  lemma {:induction false} ProperAct(capability: seq<byte>, data: seq<byte>, authenticated: bool)
    requires |data| == PAYLOAD && Proper(capability, data, authenticated) && DecodeFields(data).opcode >= 1
    ensures authenticated
  {
    hide DecodeFields;
  }

  lemma {:induction false} JoinedKeeps(s: State, s': State)
    requires JudgedInv(s) && s.authenticated
    requires s' == s.(workers := s'.workers, timeouts := s'.timeouts)
    ensures JudgedInv(s')
  {
    hide Deserves;
    hide Proper;
    hide Granted;
    forall k | 0 <= k < |s'.replies| ensures Judged(s', k) { assert Judged(s, k); }
  }

  lemma {:induction false} AcceptWaitJudged(s: State, request: nat, index: nat)
    requires JudgedInv(s) && s.fate.Running? && index < |s.workers| && request < |s.log| && |s.log[request]| == PAYLOAD
    requires Proper(s.capability, s.log[request], s.authenticated) && DecodeFields(s.log[request]).opcode == 2
    ensures JudgedInv(AcceptWait(s, request, index))
  {
    hide Granted;
    hide Queue;
    hide Result;
    hide AllJudged;
    hide DecodeFields;
    ProperAct(s.capability, s.log[request], s.authenticated);
    hide Proper;
    if s.pending >= 0 {
      QueueJudged(s, Reply(request, Rejected(WaitLimit)));
    } else {
      var s1 := s.(workers := s.workers[index := s.workers[index].(waitAccepted := true)]);
      SilentKeeps(s, s1);
      if s1.workers[index].Done() { ResultJudged(s1, request, index, Exited); }
      else { PendingJudged(s1, s1.(pending := index, waiting := request)); }
    }
  }

  lemma {:induction false} PendingJudged(s: State, s': State)
    requires JudgedInv(s) && s' == s.(pending := s'.pending, waiting := s'.waiting) && WaitProper(s')
    ensures JudgedInv(s')
  {
    hide Deserves;
    hide Proper;
    hide Granted;
    hide WaitProper;
    forall k | 0 <= k < |s'.replies| ensures Judged(s', k) { assert Judged(s, k); }
  }

  lemma {:induction false} ControlJudged(s: State, request: nat, index: nat, f: Fields, env: RequestEnv)
    requires JudgedInv(s) && s.fate.Running? && index < |s.workers| && request < |s.log| && |s.log[request]| == PAYLOAD
    requires Proper(s.capability, s.log[request], s.authenticated) && DecodeFields(s.log[request]).opcode >= 1
    ensures JudgedInv(Control(s, request, index, f, env))
  {
    hide Proper;
    hide Granted;
    hide Result;
    hide AllJudged;
    hide DecodeFields;
    var w := s.workers[index];
    if w.reaped {
      ResultJudged(s, request, index, Exited);
    } else if !env.killed {
      SilentKeeps(s, Die(s, KillFailed));
    } else {
      var w1 := w.(reason := if f.opcode == 4 then Cancel else Signal,
                   deadline := if f.opcode == 4 || f.argument == SIGKILL then s.sessionDeadline else w.deadline);
      var s1 := s.(workers := s.workers[index := w1]);
      SilentKeeps(s, s1);
      ResultJudged(s1, request, index, Signalled);
    }
  }

  lemma {:induction false} LoggedJudged(s: State, data: seq<byte>)
    requires JudgedInv(s) && s.fate.Running?
    ensures JudgedInv(Logged(s, data))
  {
    hide Deserves;
    hide Proper;
    hide Granted;
    var s' := Logged(s, data);
    forall k | 0 <= k < |s'.replies| ensures Judged(s', k) {
      assert Judged(s, k);
      assert s'.log[s.replies[k].request] == s.log[s.replies[k].request];
    }
  }

  lemma {:induction false} RequestJudged(s0: State, data: seq<byte>, env: RequestEnv)
    requires JudgedInv(s0) && s0.fate.Running? && |data| == PAYLOAD && |s0.capability| == 32 && s0.requests == |s0.log|
    ensures JudgedInv(Request(s0, data, env))
  {
    hide Granted;
    hide Queue;
    hide Dispatch;
    hide AllJudged;
    hide DecodeFields;
    hide WaitProper;
    var s, request := Logged(s0, data), s0.requests;
    LoggedJudged(s0, data);
    assert s.log[request] == data;
    var f := DecodeFields(data);
    if s.requests > MAX_REQUESTS {
      SilentKeeps(s, Die(s, TooManyRequests));
    } else {
      match Refusal(f, data[20..] == s.capability, s.authenticated) {
        case Some(error) => QueueJudged(s, Reply(request, Rejected(error)));
        case None => DispatchJudged(s, request, f, env);
      }
    }
  }

  lemma {:induction false} DispatchJudged(s: State, request: nat, f: Fields, env: RequestEnv)
    requires JudgedInv(s) && s.fate.Running? && request < |s.log| && |s.log[request]| == PAYLOAD
    requires f == DecodeFields(s.log[request])
    requires Refusal(f, s.log[request][20..] == s.capability, s.authenticated).None?
    ensures JudgedInv(Dispatch(s, request, f, env))
  {
    hide Granted;
    hide Queue;
    hide Launch;
    hide AcceptWait;
    hide Control;
    hide AllJudged;
    hide DecodeFields;
    hide Find;
    hide WaitProper;
    if !ArgumentsRight(f, s.authenticated) {
      QueueJudged(s, Reply(request, Rejected(ArgumentsError)));
    } else {
      assert Proper(s.capability, s.log[request], s.authenticated);
      if f.opcode == 0 { AuthenticateJudged(s, request); }
      else if f.opcode == 1 { LaunchJudged(s, request, f.argument, f.timeout, env); }
      else {
        var index := Find(s.workers, f.handle);
        if index == |s.workers| { QueueJudged(s, Reply(request, Rejected(HandleError))); }
        else if f.opcode == 2 { AcceptWaitJudged(s, request, index); }
        else { ControlJudged(s, request, index, f, env); }
      }
    }
  }

  lemma {:induction false} ReceiveJudged(s: State, recv: Recv, now: int, env: RequestEnv)
    requires JudgedInv(s) && s.fate.Running? && |s.input| < FRAME && |s.capability| == 32 && s.requests == |s.log|
    ensures JudgedInv(Receive(s, recv, now, env))
  {
    hide JudgedInv;
    hide Request;
    hide Integer;
    var s' := Receive(s, recv, now, env);
    if recv.RecvData? && Fragment(recv.offered, (if |s.input| < 4 then 4 else FRAME) - |s.input|) != [] {
      var s1 := Arrived(s, Fragment(recv.offered, (if |s.input| < 4 then 4 else FRAME) - |s.input|), now);
      SilentKeeps(s, s1);
      if |s1.input| == FRAME && Integer(s1.input[..4]) == PAYLOAD {
        RequestJudged(s1, s1.input[4..], env);
        SilentKeeps(Request(s1, s1.input[4..], env), s');
      } else {
        SilentKeeps(s1, s');
      }
    } else {
      SilentKeeps(s, s');
    }
  }

  lemma {:induction false} DrainSilent(s: State, i: nat, t: Turn)
    requires i <= |s.workers|
    ensures Silent(s, DrainFrom(s, i, t))
    decreases |s.workers| - i
  {
    hide DrainOne;
    if i < |s.workers| && s.fate.Running? {
      DrainOneSilent(s, i, t.outputs(i));
      DrainSilent(if s.workers[i].open && t.ready(i) then DrainOne(s, i, t.outputs(i)) else s, i + 1, t);
    }
  }

  lemma {:induction false} DrainOneSilent(s: State, i: nat, read: Recv)
    requires i < |s.workers| && s.fate.Running?
    ensures Silent(s, DrainOne(s, i, read))
  {}

  lemma {:induction false} PrepareJudged(s: State, t: Turn)
    requires JudgedInv(s) && s.fate.Running? && |s.workers| == |s.timeouts| && s.pending < |s.workers|
    ensures JudgedInv(Prepare(s, t)) && Prepare(s, t).requests == s.requests && Prepare(s, t).log == s.log
  {
    hide JudgedInv;
    hide ReapFrom;
    hide ExpireFrom;
    hide AnswerPending;
    hide WakeTime;
    ReapFromKeeps(s, 0, t);
    var s1 := ReapFrom(s, 0, t);
    SilentKeeps(s, s1);
    if s1.fate.Running? {
      if Overdue(s1, t.current) {
        SilentKeeps(s1, Die(s1, DeadlinePassed));
      } else {
        ExpireFromKeeps(s1, 0, t);
        var s2 := Schedule(s1, t);
        SilentKeeps(s1, s2);
        if s2.fate.Running? { AnswerJudged(s2); }
      }
    }
  }

  lemma {:induction false} AnswerJudged(s: State)
    requires JudgedInv(s) && s.fate.Running? && s.pending < |s.workers|
    ensures JudgedInv(AnswerPending(s)) && AnswerPending(s).requests == s.requests && AnswerPending(s).log == s.log
  {
    hide Granted;
    hide Result;
    hide AllJudged;
    hide DecodeFields;
    hide Proper;
    if s.pending >= 0 && s.workers[s.pending].Done() {
      var s1 := Result(s, s.waiting, s.pending, Exited);
      BrokerSpec.ResultKeeps(s, s.waiting, s.pending, Exited);
      ResultJudged(s, s.waiting, s.pending, Exited);
      if s1.fate.Running? { SilentKeeps(s1, s1.(pending := -1)); }
    }
  }

  lemma {:induction false} ServeJudged(s: State, t: Turn)
    requires JudgedInv(s) && s.fate.Running? && Shaped(s) && s.requests == |s.log|
    ensures JudgedInv(Serve(s, t))
  {
    hide JudgedInv;
    hide Receive;
    hide DrainFrom;
    match t.select {
      case SelectError => SilentKeeps(s, Die(s, SelectFailed));
      case SelectInterrupted =>
      case SelectReady =>
        var s1 := if s.client && t.readable then Receive(s, t.recv, t.recvNow, t.request) else s;
        if s.client && t.readable { ReceiveJudged(s, t.recv, t.recvNow, t.request); }
        if s1.fate.Running? {
          var s2 := if s1.client && s.unsent != [] && t.writable then SendSome(s1, t.send) else s1;
          SilentKeeps(s1, s2);
          if s2.fate.Running? {
            var s3 := if t.listening then AcceptOne(s2, t.accept, t.acceptNow) else s2;
            SilentKeeps(s2, s3);
            DrainSilent(s3, 0, t);
            SilentKeeps(s3, DrainFrom(s3, 0, t));
          }
        }
    }
  }

  // ---- Over runs ----

  lemma {:induction false} RunJudged(states: seq<State>, turns: seq<Turn>, i: nat)
    requires IsRun(states, turns) && i < |states|
    ensures JudgedInv(states[i])
    decreases i
  {
    hide Inv;
    hide Evolves;
    hide Prepare;
    hide Serve;
    hide JudgedInv;
    if i == 0 {
      InitialJudged(states[0]);
    } else {
      var s, t := states[i - 1], turns[i - 1];
      RunJudged(states, turns, i - 1);
      assert Next(s, t, states[i]);
      if s.fate.Running? {
        RunSafety(states, turns, i - 1, i - 1);
        PrepareJudged(s, t);
        if Prepare(s, t).fate.Running? {
          PrepareInv(s, t);
          InvShapes(Prepare(s, t));
          LogCounted(Prepare(s, t));
          ServeJudged(Prepare(s, t), t);
        }
      }
    }
  }

  lemma {:induction false} LogCounted(s: State)
    requires Inv(s)
    ensures s.requests == |s.log|
  {
    hide QueueOk;
    hide RepliesOk;
    hide FramesOk;
    hide AnswersOk;
  }

  lemma {:induction false} InitialJudged(s: State)
    requires Initial(s)
    ensures JudgedInv(s)
  {}

  /**
   * Every reply of every run is the one its request deserves, by its fields and by whether the client was authenticated
   * when the reply was queued: the first check that fails names the error, and only a request that passes them all is
   * acted on.
   */
  lemma {:induction false} EveryReplyDeserved(states: seq<State>, turns: seq<Turn>, i: nat, k: nat)
    requires IsRun(states, turns) && i < |states| && k < |states[i].replies|
    ensures var s := states[i]; var r := s.replies[k];
            && r.request < |s.log| && |s.log[r.request]| == PAYLOAD
            && var data, f, granted := s.log[r.request], DecodeFields(s.log[r.request]), Granted(s.replies, k);
               && (r.body == Rejected(VersionError) <==> f.version != 1)
               && (r.body == Rejected(OpcodeError) <==> f.version == 1 && f.opcode > 4)
               && (r.body == Rejected(ReservedError) <==> f.version == 1 && f.opcode <= 4 && f.reserved != 0)
               && (r.body == Rejected(CapabilityError) <==>
                     f.version == 1 && f.opcode <= 4 && f.reserved == 0 && data[20..] != s.capability)
               && (r.body == Rejected(AuthenticationError) <==>
                     WellFormed(s.capability, data) && f.opcode != 0 && !granted)
               && (r.body == Rejected(ArgumentsError) <==>
                     WellFormed(s.capability, data) && (f.opcode == 0 || granted) && !ArgumentsRight(f, granted))
               && (r.body == Authenticated <==> Proper(s.capability, data, granted) && f.opcode == 0)
  {
    hide IsRun;
    hide DecodeFields;
    hide Granted;
    RunJudged(states, turns, i);
    assert Judged(states[i], k);
  }

  /**
   * Nothing is launched, and nothing but errors is answered, before an authentication with the capability is granted.
   */
  lemma {:induction false} AuthenticationFirst(states: seq<State>, turns: seq<Turn>, i: nat)
    requires IsRun(states, turns) && i < |states|
    ensures var s := states[i];
            && (s.workers != [] ==> s.authenticated)
            && (forall k :: 0 <= k < |s.replies| && s.replies[k].body.About? ==> Granted(s.replies, k))
            && (forall j, k :: 0 <= j < k < |s.replies| && s.replies[j].body.Authenticated? ==>
                  !s.replies[k].body.Authenticated?)
  {
    hide IsRun;
    hide DecodeFields;
    hide WellFormed;
    RunJudged(states, turns, i);
    var s := states[i];
    forall k | 0 <= k < |s.replies| && s.replies[k].body.About? ensures Granted(s.replies, k) {
      assert Judged(s, k);
    }
    forall j, k | 0 <= j < k < |s.replies| && s.replies[j].body.Authenticated?
      ensures !s.replies[k].body.Authenticated? {
      assert Judged(s, k);
      assert Granted(s.replies, k);
    }
  }
}
