/** What every run of the control broker keeps. */
module BrokerRuns {
  import Seqs
  import opened Bytes
  import opened BrokerWire
  import opened BrokerText
  import opened BrokerSpec

  // ---- The invariant ----

  ghost predicate SlotsOk(s: State) {
    && |s.workers| <= WORKERS && |s.timeouts| == |s.workers| && |s.capability| == 32
    && -1 <= s.pending < |s.workers|
    && s.requests == |s.log|
    && (forall j :: 0 <= j < |s.log| ==> |s.log[j]| == PAYLOAD)
    && (forall i :: 0 <= i < |s.workers| ==> 0 < s.workers[i].handle < HANDLES && |s.workers[i].output| <= OUTPUT)
    && (forall i, j :: 0 <= i < j < |s.workers| ==> s.workers[i].handle != s.workers[j].handle)
  }

  /** At most one timeout kill each; after it, or after a cancel, only the session deadline is left. */
  ghost predicate TimersOk(s: State) {
    |s.timeouts| == |s.workers| &&
    forall i :: 0 <= i < |s.workers| ==>
      && s.timeouts[i] <= 1
      && (s.timeouts[i] == 1 ==> s.workers[i].deadline == s.sessionDeadline)
      && (s.workers[i].reason == Timeout ==> s.timeouts[i] == 1)
      && (s.workers[i].reason == Cancel ==> s.workers[i].deadline == s.sessionDeadline)
  }

  ghost predicate QueueOk(s: State) {
    && s.sent + s.unsent == Wire(Texts(s.replies))
    && |s.unsent| <= QUEUE
    && forall k :: 0 <= k < |s.replies| ==> 1 <= |TextOf(s.replies[k].body)| <= REPLY_LIMIT
  }

  function Upto(n: nat): multiset<nat> {
    if n == 0 then multiset{} else Upto(n - 1) + multiset{n - 1}
  }

  function Numbers(replies: seq<Reply>): multiset<nat> {
    if replies == [] then multiset{}
    else Numbers(replies[..|replies| - 1]) + multiset{replies[|replies| - 1].request}
  }

  /** The requests that have their reply, and the one whose wait is still pending. */
  ghost function Answered(s: State): multiset<nat> {
    Numbers(s.replies) + if s.pending >= 0 then multiset{s.waiting} else multiset{}
  }

  /** How a worker slot may change, from any moment to any later one. */
  ghost predicate WorkerEvolves(w: Worker, w': Worker, session: int) {
    && w'.handle == w.handle && w'.pid == w.pid && w'.mode == w.mode
    && (w.reaped ==> w'.reaped && w'.status == w.status && w'.deadline == w.deadline && w'.reason == w.reason &&
                     w'.traced == w.traced)
    && (!w.open ==> !w'.open && w'.output == w.output)
    && w.output <= w'.output
    && (w.traced ==> w'.traced) && (w.waitAccepted ==> w'.waitAccepted)
    && (w.deadline == session ==> w'.deadline == session && (w.reason != Timeout ==> w'.reason != Timeout))
  }

  ghost predicate Evolves(s: State, s': State) {
    && s'.capability == s.capability && s'.sessionDeadline == s.sessionDeadline
    && s'.acceptDeadline == s.acceptDeadline
    && |s.workers| <= |s'.workers| && |s.timeouts| == |s.workers| && |s'.timeouts| == |s'.workers|
    && (forall i :: 0 <= i < |s.workers| ==>
          WorkerEvolves(s.workers[i], s'.workers[i], s.sessionDeadline) && s.timeouts[i] <= s'.timeouts[i])
    && s.log <= s'.log && s.replies <= s'.replies && s.received <= s'.received && s.sent <= s'.sent
    && (s.client ==> s'.client) && (s.authenticated ==> s'.authenticated)
    && (s.fate.Died? ==> s' == s)
  }

  /** A reply fits its request, and describes its worker as it then was. */
  ghost predicate ReplyOk(s: State, r: Reply) {
    && r.request < |s.log| && |s.log[r.request]| == PAYLOAD
    && var f := DecodeFields(s.log[r.request]);
       match r.body
       case Authenticated => f.opcode == 0
       case Rejected(_) => true
       case About(index, w, stage) =>
         && index < |s.workers| && WorkerEvolves(w, s.workers[index], s.sessionDeadline)
         && (stage == Exited <==> w.reaped)
         && (stage == Launched <==> f.opcode == 1)
         && (f.opcode != 1 ==> w.handle == f.handle)
         && (f.opcode == 2 ==> w.Done() && w.waitAccepted)
  }

  ghost predicate RepliesOk(s: State) {
    && (forall k :: 0 <= k < |s.replies| ==> ReplyOk(s, s.replies[k]))
    && (forall j, k :: 0 <= j < k < |s.replies| && s.replies[j].body.About? && s.replies[k].body.About? &&
                       s.replies[j].body.index == s.replies[k].body.index ==>
          WorkerEvolves(s.replies[j].body.worker, s.replies[k].body.worker, s.sessionDeadline))
  }

  ghost predicate PendingOk(s: State) {
    s.pending >= 0 ==>
      && s.pending < |s.workers| && s.workers[s.pending].waitAccepted
      && s.waiting < |s.log| && |s.log[s.waiting]| == PAYLOAD
      && DecodeFields(s.log[s.waiting]).opcode == 2
      && DecodeFields(s.log[s.waiting]).handle == s.workers[s.pending].handle
  }

  /** Everything but the frame assembler and the reply count. */
  ghost predicate Core(s: State) {
    SlotsOk(s) && TimersOk(s) && QueueOk(s) && RepliesOk(s) && PendingOk(s)
  }

  ghost predicate FramesOk(s: State) {
    var p := Parse(s.received);
    && p.frames == s.log
    && (p.bad <==> s.fate == Died(BadLength))
    && (s.fate.Running? ==> p.residue == s.input && |s.input| < FRAME && (s.input != [] ==> s.partialDeadline != 0))
    && (p.bad ==> |p.residue| == 4)
    && (!s.client ==> s.received == [])
  }

  /** While the broker lives every request is answered exactly once or waiting; in the end at most once. */
  ghost predicate AnswersOk(s: State) {
    && (s.fate.Running? ==> s.requests <= MAX_REQUESTS && Answered(s) == Upto(s.requests))
    && Answered(s) <= Upto(s.requests)
  }

  ghost predicate Inv(s: State) {
    Core(s) && FramesOk(s) && AnswersOk(s)
  }

  // ---- Evolution ----

  lemma {:induction false} WorkerEvolvesTrans(a: Worker, b: Worker, c: Worker, session: int)
    requires WorkerEvolves(a, b, session) && WorkerEvolves(b, c, session)
    ensures WorkerEvolves(a, c, session)
  {}

  lemma {:induction false} EvolvesTrans(a: State, b: State, c: State)
    requires Evolves(a, b) && Evolves(b, c)
    ensures Evolves(a, c)
  {
    forall i | 0 <= i < |a.workers| ensures WorkerEvolves(a.workers[i], c.workers[i], a.sessionDeadline) {
      WorkerEvolvesTrans(a.workers[i], b.workers[i], c.workers[i], a.sessionDeadline);
    }
  }

  /** Replies already queued stay right however the workers evolve. */
  lemma {:induction false} RepliesPersist(s: State, s': State)
    requires RepliesOk(s) && Evolves(s, s') && s'.replies == s.replies
    ensures RepliesOk(s')
  {
    forall k | 0 <= k < |s.replies| ensures ReplyOk(s', s.replies[k]) {
      var r := s.replies[k];
      assert ReplyOk(s, r);
      assert s'.log[r.request] == s.log[r.request];
      if r.body.About? {
        var i := r.body.index;
        WorkerEvolvesTrans(r.body.worker, s.workers[i], s'.workers[i], s.sessionDeadline);
      }
    }
  }

  /** One worker slot changes as allowed, and nothing else does. */
  ghost predicate OneWorker(s: State, s': State, i: nat) {
    && i < |s.workers| == |s.timeouts| && |s'.workers| == |s.workers| && |s'.timeouts| == |s.timeouts|
    && s' == s.(workers := s'.workers, timeouts := s'.timeouts, fate := s'.fate)
    && (forall j :: 0 <= j < |s.workers| && j != i ==>
          s'.workers[j] == s.workers[j] && s'.timeouts[j] == s.timeouts[j])
    && WorkerEvolves(s.workers[i], s'.workers[i], s.sessionDeadline) && |s'.workers[i].output| <= OUTPUT
    && (s'.timeouts[i] == 1 ==> s'.workers[i].deadline == s.sessionDeadline)
    && s.timeouts[i] <= s'.timeouts[i] <= 1
    && (s'.workers[i].reason == Timeout ==> s'.timeouts[i] == 1)
    && (s'.workers[i].reason == Cancel ==> s'.workers[i].deadline == s.sessionDeadline)
  }

  lemma {:induction false} UpdateEvolves(s: State, s': State, i: nat)
    requires s.fate.Running? && OneWorker(s, s', i)
    ensures Evolves(s, s')
  {
    forall j | 0 <= j < |s.workers| ensures WorkerEvolves(s.workers[j], s'.workers[j], s.sessionDeadline) {
      if j != i { assert s'.workers[j] == s.workers[j]; }
    }
  }

  lemma {:induction false} UpdateSlots(s: State, s': State, i: nat)
    requires SlotsOk(s) && OneWorker(s, s', i)
    ensures SlotsOk(s')
  {
    assert forall j :: 0 <= j < |s.workers| ==> s'.workers[j].handle == s.workers[j].handle;
    forall j | 0 <= j < |s.workers| ensures |s'.workers[j].output| <= OUTPUT {
      if j != i { assert s'.workers[j] == s.workers[j]; }
    }
  }

  lemma {:induction false} UpdateTimers(s: State, s': State, i: nat)
    requires TimersOk(s) && OneWorker(s, s', i)
    ensures TimersOk(s')
  {
    forall j | 0 <= j < |s.workers| && j != i
      ensures s'.workers[j] == s.workers[j] && s'.timeouts[j] == s.timeouts[j]
    {}
  }

  lemma {:induction false} UpdatePending(s: State, s': State, i: nat)
    requires PendingOk(s) && OneWorker(s, s', i)
    ensures PendingOk(s')
  {
    if s.pending >= 0 && s.pending != i { assert s'.workers[s.pending] == s.workers[s.pending]; }
  }

  lemma {:induction false} UpdateKeeps(s: State, s': State, i: nat)
    requires Core(s) && s.fate.Running? && OneWorker(s, s', i)
    ensures Core(s') && Evolves(s, s')
  {
    UpdateEvolves(s, s', i);
    UpdateSlots(s, s', i);
    UpdateTimers(s, s', i);
    UpdatePending(s, s', i);
    RepliesPersist(s, s');
  }

  // ---- Queueing ----

  lemma {:induction false} TextNonempty(body: Body)
    ensures TextOf(body) != []
  {
    if body.About? {
      var pieces := AboutPieces(body.worker, body.stage);
      assert ShowAll(pieces) == Show(pieces[0]) + ShowAll(pieces[1..]);
    }
  }

  /** A text cut short by `snprintf` is over the limit, so whatever is queued is the whole text. */
  lemma {:induction false} QueuedWhole(body: Body)
    requires |Formatted(body)| <= REPLY_LIMIT
    ensures Formatted(body) == TextOf(body)
  {
    if body.Rejected? {
      assert |ErrorWord(body.error)| <= 14;
    }
  }

  /** A reply about a worker carries that worker's present state. */
  ghost predicate Current(s: State, reply: Reply) {
    reply.body.About? ==>
      reply.body.index < |s.workers| && reply.body.worker == s.workers[reply.body.index]
  }

  lemma {:induction false} QueueOutput(s: State, reply: Reply)
    requires QueueOk(s)
    ensures QueueOk(Queue(s, reply))
  {
    hide TextOf;
    var s' := Queue(s, reply);
    if s' != s.(fate := s'.fate) {
      QueuedWhole(reply.body);
      hide Formatted;
      TextNonempty(reply.body);
      var text := TextOf(reply.body);
      assert Texts(s'.replies) == Texts(s.replies) + [text];
      WireSnoc(Texts(s.replies), text);
      hide Wire;
      Seqs.Assoc(s.sent, s.unsent, Frame(text));
    }
  }

  lemma {:induction false} AppendReply(s: State, s': State, reply: Reply)
    requires RepliesOk(s) && ReplyOk(s, reply) && Current(s, reply)
    requires s' == s.(unsent := s'.unsent, replies := s.replies + [reply])
    ensures RepliesOk(s')
  {
    forall k | 0 <= k < |s'.replies| ensures ReplyOk(s', s'.replies[k]) {
      assert ReplyOk(s, s'.replies[k]);
    }
    forall j, k | 0 <= j < k < |s'.replies| && s'.replies[j].body.About? && s'.replies[k].body.About? &&
                  s'.replies[j].body.index == s'.replies[k].body.index
      ensures WorkerEvolves(s'.replies[j].body.worker, s'.replies[k].body.worker, s.sessionDeadline)
    {
      assert ReplyOk(s, s.replies[j]);
    }
  }

  /** What queueing a right reply does to the rest of the state. */
  lemma {:induction false} QueueKeeps(s: State, reply: Reply)
    requires Core(s) && s.fate.Running? && ReplyOk(s, reply) && Current(s, reply)
    ensures var s' := Queue(s, reply);
            && Core(s') && Evolves(s, s')
            && s' == s.(unsent := s'.unsent, replies := s'.replies, fate := s'.fate)
            && s'.fate != Died(BadLength)
            && s'.replies == (if s'.fate.Running? then s.replies + [reply] else s.replies)
  {
    hide QueueOk;
    hide SlotsOk;
    hide TimersOk;
    hide PendingOk;
    hide RepliesOk;
    hide ReplyOk;
    hide Evolves;
    hide Queue;
    var s' := Queue(s, reply);
    QueueOutput(s, reply);
    QueueShape(s, reply);
    TableUntouched(s, s');
    RepliesGrow(s, s');
    if s'.fate.Running? { AppendReply(s, s', reply); } else { RepliesPersist(s, s'); }
  }

  lemma {:induction false} TableUntouched(s: State, s': State)
    requires SlotsOk(s) && TimersOk(s) && PendingOk(s)
    requires s' == s.(unsent := s'.unsent, replies := s'.replies, fate := s'.fate)
    ensures SlotsOk(s') && TimersOk(s') && PendingOk(s')
  {}

  lemma {:induction false} QueueShape(s: State, reply: Reply)
    requires s.fate.Running?
    ensures var s' := Queue(s, reply);
            && s' == s.(unsent := s'.unsent, replies := s'.replies, fate := s'.fate)
            && s'.fate != Died(BadLength)
            && s'.replies == (if s'.fate.Running? then s.replies + [reply] else s.replies)
  {
    hide Formatted;
  }

  lemma {:induction false} RepliesGrow(s: State, s': State)
    requires SlotsOk(s) && s.fate.Running?
    requires s' == s.(unsent := s'.unsent, replies := s'.replies, fate := s'.fate) && s.replies <= s'.replies
    ensures Evolves(s, s')
  {}

  // ---- Requests ----

  /** Request number `request` has been dealt with: a reply is queued, or it became the pending wait. */
  ghost predicate Served(s: State, s': State, request: nat) {
    && Core(s') && Evolves(s, s')
    && s'.fate != Died(BadLength)
    && s'.requests == s.requests && s'.log == s.log && s'.received == s.received && s'.input == s.input
    && s'.partialDeadline == s.partialDeadline
    && Answered(s') == Answered(s) + (if s'.fate.Running? then multiset{request} else multiset{})
  }

  lemma {:induction false} QueueServes(s: State, reply: Reply)
    requires Core(s) && s.fate.Running? && ReplyOk(s, reply) && Current(s, reply)
    ensures Served(s, Queue(s, reply), reply.request)
    ensures Queue(s, reply).pending == s.pending
  {
    hide Core;
    hide Evolves;
    hide ReplyOk;
    hide Queue;
    var s' := Queue(s, reply);
    QueueKeeps(s, reply);
    if s'.fate.Running? { Seqs.Snoc(s.replies, reply); }
  }

  lemma {:induction false} ResultServes(s: State, request: nat, index: nat, stage: Stage)
    requires Core(s) && s.fate.Running? && index < |s.workers|
    requires ReplyOk(s, Reply(request, About(index, s.workers[index], stage)))
    ensures Served(s, Result(s, request, index, stage), request)
    ensures Result(s, request, index, stage).pending == s.pending
  {
    hide ReplyOk;
    hide Queue;
    hide Served;
    var reply := Reply(request, About(index, s.workers[index], stage));
    if AllPrintable(s.workers[index].output) {
      hide Core;
      QueueServes(s, reply);
    } else {
      DeathKeeps(s, Unprintable);
      DeathServes(s, s, Unprintable, request);
    }
  }

  lemma {:induction false} EvolvesRefl(s: State)
    requires SlotsOk(s)
    ensures Evolves(s, s)
  {}

  /** Dying changes nothing but the fate. */
  lemma {:induction false} DeathKeeps(s: State, cause: Cause)
    requires Core(s) && s.fate.Running?
    ensures Core(Die(s, cause)) && Evolves(s, Die(s, cause))
  {
    hide QueueOk;
    hide SlotsOk;
    hide TimersOk;
    hide PendingOk;
    hide RepliesOk;
    var s' := Die(s, cause);
    TableUntouched(s, s');
    RepliesGrow(s, s');
    assert QueueOk(s') by { QueueOkDies(s, cause); }
    RepliesPersist(s, s');
  }

  lemma {:induction false} QueueOkDies(s: State, cause: Cause)
    requires QueueOk(s)
    ensures QueueOk(Die(s, cause))
  {
    hide TextOf;
  }

  lemma {:induction false} DeathServes(s: State, s1: State, cause: Cause, request: nat)
    requires Core(Die(s1, cause)) && Evolves(s, Die(s1, cause)) && cause != BadLength
    requires s1.requests == s.requests && s1.log == s.log && s1.received == s.received && s1.input == s.input
    requires s1.partialDeadline == s.partialDeadline && s1.replies == s.replies
    requires s1.pending == s.pending && s1.waiting == s.waiting
    ensures Served(s, Die(s1, cause), request)
  {
    hide Core;
    hide Evolves;
  }

  /** A served step after a quiet one is served. */
  lemma {:induction false} ServedAfter(s: State, s1: State, s': State, request: nat)
    requires Evolves(s, s1) && Served(s1, s', request)
    requires s1.requests == s.requests && s1.log == s.log && s1.received == s.received && s1.input == s.input
    requires s1.partialDeadline == s.partialDeadline && Answered(s1) == Answered(s)
    ensures Served(s, s', request)
  {
    hide Core;
    hide Answered;
    EvolvesTrans(s, s1, s');
  }

  /** The random draws contain a handle no worker has, and all are 64-bit. */
  ghost predicate DrawsOk(workers: seq<Worker>, draws: seq<nat>) {
    (forall d :: d in draws ==> d < HANDLES) && exists d :: d in draws && Fresh(workers, d)
  }

  ghost predicate Joins(s: State, w: Worker) {
    && |s.workers| < WORKERS && Fresh(s.workers, w.handle) && w.handle < HANDLES
    && w.output == [] && w.reason == Completed && !w.reaped
  }

  function WithWorker(s: State, w: Worker): State {
    s.(workers := s.workers + [w], timeouts := s.timeouts + [0])
  }

  lemma {:induction false} JoinTable(s: State, w: Worker)
    requires SlotsOk(s) && TimersOk(s) && PendingOk(s) && Joins(s, w) && s.fate.Running?
    ensures SlotsOk(WithWorker(s, w)) && TimersOk(WithWorker(s, w)) && PendingOk(WithWorker(s, w))
  {
    var s' := WithWorker(s, w);
    forall i, j | 0 <= i < j < |s'.workers| ensures s'.workers[i].handle != s'.workers[j].handle {
      assert s'.workers[i] == s.workers[i];
    }
  }

  lemma {:induction false} JoinEvolves(s: State, w: Worker)
    requires |s.timeouts| == |s.workers| && s.fate.Running?
    ensures Evolves(s, WithWorker(s, w))
  {}

  lemma {:induction false} JoinKeeps(s: State, w: Worker)
    requires Core(s) && Joins(s, w) && s.fate.Running?
    ensures Core(WithWorker(s, w)) && Evolves(s, WithWorker(s, w))
  {
    hide TimersOk;
    hide PendingOk;
    hide RepliesOk;
    hide Evolves;
    hide Joins;
    hide TextOf;
    hide Wire;
    JoinTable(s, w);
    JoinEvolves(s, w);
    RepliesPersist(s, WithWorker(s, w));
  }

  lemma {:induction false} LaunchServes(s: State, request: nat, mode: nat, timeout: nat, env: RequestEnv)
    requires Core(s) && s.fate.Running? && DrawsOk(s.workers, env.draws)
    requires request < |s.log| && |s.log[request]| == PAYLOAD && DecodeFields(s.log[request]).opcode == 1
    ensures Served(s, Launch(s, request, mode, timeout, env), request)
    ensures Launch(s, request, mode, timeout, env).pending == s.pending
  {
    hide Core;
    hide Evolves;
    hide Queue;
    hide Result;
    hide Integer;
    if |s.workers| >= WORKERS {
      QueueServes(s, Reply(request, Rejected(WorkerLimit)));
    } else if !env.signed {
      QueueServes(s, Reply(request, Rejected(SignatureError)));
    } else if env.spawn.SetupFailed? {
      DeathKeeps(s, SpawnSetup);
      DeathServes(s, s, SpawnSetup, request);
    } else if env.spawn.SpawnRefused? {
      QueueServes(s, Reply(request, Rejected(SpawnError)));
    } else {
      SpawnServes(s, request, mode, timeout, env);
    }
  }

  lemma {:induction false} SpawnServes(s: State, request: nat, mode: nat, timeout: nat, env: RequestEnv)
    requires Core(s) && s.fate.Running? && DrawsOk(s.workers, env.draws) && env.spawn.Spawned?
    requires env.signed && |s.workers| < WORKERS
    requires request < |s.log| && |s.log[request]| == PAYLOAD && DecodeFields(s.log[request]).opcode == 1
    ensures Served(s, Launch(s, request, mode, timeout, env), request)
    ensures Launch(s, request, mode, timeout, env).pending == s.pending
  {
    hide Core;
    hide Evolves;
    hide Queue;
    hide Result;
    hide DecodeFields;
    hide Served;
    var w := Worker(env.spawn.pid, FirstFresh(s.workers, env.draws), env.now + timeout * MILLISECOND, mode, true,
                    false, ExitStatus(0), false, false, Completed, []);
    JoinKeeps(s, w);
    var s1 := WithWorker(s, w);
    assert s1.workers[|s.workers|] == w;
    ResultServes(s1, request, |s.workers|, Launched);
    ServedAfter(s, s1, Result(s1, request, |s.workers|, Launched), request);
  }

  /** The request is in the log, and is of the kind that names a worker. */
  ghost predicate Names(s: State, request: nat, index: nat) {
    && index < |s.workers| && request < |s.log| && |s.log[request]| == PAYLOAD
    && 2 <= DecodeFields(s.log[request]).opcode
    && DecodeFields(s.log[request]).handle == s.workers[index].handle
  }

  lemma {:induction false} AcceptWaitServes(s: State, request: nat, index: nat)
    requires Core(s) && s.fate.Running? && Names(s, request, index) && DecodeFields(s.log[request]).opcode == 2
    ensures Served(s, AcceptWait(s, request, index), request)
  {
    hide QueueOk;
    hide RepliesOk;
    hide Queue;
    hide Result;
    hide DecodeFields;
    if s.pending >= 0 {
      QueueServes(s, Reply(request, Rejected(WaitLimit)));
    } else {
      var w := s.workers[index].(waitAccepted := true);
      var s1 := s.(workers := s.workers[index := w]);
      UpdateKeeps(s, s1, index);
      if w.Done() {
        ResultServes(s1, request, index, Exited);
        ServedAfter(s, s1, Result(s1, request, index, Exited), request);
      } else {
        var s2 := s1.(pending := index, waiting := request);
        PendKeeps(s1, request, index);
        EvolvesIgnoresPending(s, s1, s2);
      }
    }
  }

  lemma {:induction false} EvolvesIgnoresPending(s: State, s1: State, s2: State)
    requires Evolves(s, s1) && s.fate.Running? && s2 == s1.(pending := s2.pending, waiting := s2.waiting)
    ensures Evolves(s, s2)
  {
    hide WorkerEvolves;
  }

  lemma {:induction false} PendKeeps(s: State, request: nat, index: nat)
    requires Core(s) && s.fate.Running? && s.workers != [] && index < |s.workers| && s.workers[index].waitAccepted
    requires Names(s, request, index) && DecodeFields(s.log[request]).opcode == 2
    ensures Core(s.(pending := index, waiting := request))
  {
    hide TextOf;
    hide Wire;
    hide DecodeFields;
    hide WorkerEvolves;
    var s' := s.(pending := index, waiting := request);
    assert RepliesOk(s') by { SameReplies(s, s'); }
    assert TimersOk(s');
  }

  lemma {:induction false} SameReplies(s: State, s': State)
    requires RepliesOk(s) && s'.replies == s.replies && s'.log == s.log && s'.workers == s.workers
    requires s'.sessionDeadline == s.sessionDeadline
    ensures RepliesOk(s')
  {
    hide WorkerEvolves;
    hide DecodeFields;
    forall k | 0 <= k < |s.replies| ensures ReplyOk(s', s'.replies[k]) {
      assert ReplyOk(s, s.replies[k]);
    }
  }

  lemma {:induction false} ControlServes(s: State, request: nat, index: nat, f: Fields, env: RequestEnv)
    requires Core(s) && s.fate.Running? && Names(s, request, index)
    requires f == DecodeFields(s.log[request]) && f.opcode >= 3
    ensures Served(s, Control(s, request, index, f, env), request)
    ensures Control(s, request, index, f, env).pending == s.pending
  {
    hide QueueOk;
    hide RepliesOk;
    hide Queue;
    hide Result;
    hide DecodeFields;
    hide Served;
    hide Evolves;
    var w := s.workers[index];
    if w.reaped {
      ResultServes(s, request, index, Exited);
    } else if !env.killed {
      DeathKeeps(s, KillFailed);
      DeathServes(s, s, KillFailed, request);
    } else {
      SignalServes(s, request, index, f, env);
    }
  }

  lemma {:induction false} SignalServes(s: State, request: nat, index: nat, f: Fields, env: RequestEnv)
    requires Core(s) && s.fate.Running? && Names(s, request, index) && !s.workers[index].reaped && env.killed
    requires f == DecodeFields(s.log[request]) && f.opcode >= 3
    ensures Served(s, Control(s, request, index, f, env), request)
    ensures Control(s, request, index, f, env).pending == s.pending
  {
    hide QueueOk;
    hide RepliesOk;
    hide Queue;
    hide Result;
    hide DecodeFields;
    hide Served;
    hide Evolves;
    hide SlotsOk;
    hide PendingOk;
    var w := s.workers[index];
    var w1 := w.(reason := if f.opcode == 4 then Cancel else Signal,
                 deadline := if f.opcode == 4 || f.argument == SIGKILL then s.sessionDeadline else w.deadline);
    var s1 := s.(workers := s.workers[index := w1]);
    assert |w.output| <= OUTPUT by { SlotBounds(s, index); }
    UpdateKeeps(s, s1, index);
    ResultServes(s1, request, index, Signalled);
    ServedAfter(s, s1, Result(s1, request, index, Signalled), request);
  }

  lemma {:induction false} SlotBounds(s: State, i: nat)
    requires SlotsOk(s) && i < |s.workers|
    ensures |s.workers[i].output| <= OUTPUT
  {}

  /** The state `Request` works on, once the payload is counted and logged. */
  function Logged(s: State, data: seq<byte>): State {
    s.(requests := s.requests + 1, log := s.log + [data])
  }

  lemma {:induction false} LoggedTable(s: State, data: seq<byte>)
    requires SlotsOk(s) && TimersOk(s) && PendingOk(s) && s.fate.Running? && |data| == PAYLOAD
    ensures SlotsOk(Logged(s, data)) && TimersOk(Logged(s, data)) && PendingOk(Logged(s, data))
    ensures Evolves(s, Logged(s, data))
  {
    hide DecodeFields;
  }

  lemma {:induction false} LoggedKeeps(s: State, data: seq<byte>)
    requires Core(s) && s.fate.Running? && |data| == PAYLOAD
    ensures Core(Logged(s, data)) && Evolves(s, Logged(s, data))
  {
    hide SlotsOk;
    hide TimersOk;
    hide PendingOk;
    hide RepliesOk;
    hide Evolves;
    hide TextOf;
    hide Wire;
    LoggedTable(s, data);
    RepliesPersist(s, Logged(s, data));
  }

  /** One request gets one reply, or becomes the one pending wait, or the broker dies. */
  lemma {:induction false} RequestServes(s0: State, data: seq<byte>, env: RequestEnv)
    requires Core(s0) && s0.fate.Running? && |data| == PAYLOAD && |s0.capability| == 32
    requires DrawsOk(s0.workers, env.draws)
    ensures Served(Logged(s0, data), Request(s0, data, env), s0.requests)
    ensures Request(s0, data, env).fate.Running? ==> s0.requests < MAX_REQUESTS
  {
    hide Core;
    hide Evolves;
    hide Queue;
    hide Served;
    hide Dispatch;
    hide DecodeFields;
    hide DrawsOk;
    var s, request := Logged(s0, data), s0.requests;
    LoggedKeeps(s0, data);
    CoreCounts(s0);
    assert s.log[request] == data;
    var f := DecodeFields(data);
    if s.requests > MAX_REQUESTS {
      DeathKeeps(s, TooManyRequests);
      DeathServes(s, s, TooManyRequests, request);
      DiesAs(s, TooManyRequests);
    } else {
      match Refusal(f, data[20..] == s.capability, s.authenticated) {
        case Some(error) => RejectServes(s, request, error);
        case None => DispatchServes(s, request, f, env);
      }
    }
  }

  lemma {:induction false} DispatchServes(s: State, request: nat, f: Fields, env: RequestEnv)
    requires Core(s) && s.fate.Running? && request < |s.log| && |s.log[request]| == PAYLOAD
    requires f == DecodeFields(s.log[request]) && DrawsOk(s.workers, env.draws)
    ensures Served(s, Dispatch(s, request, f, env), request)
  {
    hide Core;
    hide Queue;
    hide Served;
    hide Launch;
    hide AcceptWait;
    hide Control;
    hide DecodeFields;
    hide Find;
    hide DrawsOk;
    if !ArgumentsRight(f, s.authenticated) { RejectServes(s, request, ArgumentsError); }
    else if f.opcode == 0 { AuthenticateServes(s, request); }
    else if f.opcode == 1 { LaunchServes(s, request, f.argument, f.timeout, env); }
    else {
      var index := Find(s.workers, f.handle);
      if index == |s.workers| { RejectServes(s, request, HandleError); }
      else if f.opcode == 2 { AcceptWaitServes(s, request, index); }
      else { ControlServes(s, request, index, f, env); }
    }
  }

  lemma {:induction false} CoreCounts(s: State)
    requires Core(s)
    ensures s.requests == |s.log|
  {
    hide TextOf;
    hide RepliesOk;
  }

  lemma {:induction false} DiesAs(s: State, cause: Cause)
    ensures Die(s, cause).fate.Died?
  {}

  lemma {:induction false} RejectServes(s: State, request: nat, error: Error)
    requires Core(s) && s.fate.Running? && request < |s.log| && |s.log[request]| == PAYLOAD
    ensures Served(s, Queue(s, Reply(request, Rejected(error))), request)
  {
    hide Core;
    hide Queue;
    hide Served;
    hide DecodeFields;
    QueueServes(s, Reply(request, Rejected(error)));
  }

  lemma {:induction false} AuthenticateServes(s: State, request: nat)
    requires Core(s) && s.fate.Running? && request < |s.log| && |s.log[request]| == PAYLOAD
    requires DecodeFields(s.log[request]).opcode == 0
    ensures Served(s, Queue(s.(authenticated := true), Reply(request, Authenticated)), request)
  {
    hide TextOf;
    hide Wire;
    hide Queue;
    hide Served;
    hide DecodeFields;
    hide WorkerEvolves;
    var s1 := s.(authenticated := true);
    assert Evolves(s, s1) by { EvolvesRefl(s); }
    SameReplies(s, s1);
    QueueServes(s1, Reply(request, Authenticated));
    ServedAfter(s, s1, Queue(s1, Reply(request, Authenticated)), request);
  }

  // ---- Receiving ----

  /** The residue of a good stream holds no complete frame and no bad length. */
  lemma {:induction false} ResidueParses(stream: seq<byte>)
    requires !Parse(stream).bad
    ensures Parse(Parse(stream).residue) == Parsed([], Parse(stream).residue, false)
  {
    hide Parse;
    ParseResumes(stream, []);
    assert stream + [] == stream && Parse(stream).residue + [] == Parse(stream).residue;
  }

  /** What one bounded `recv` on top of a residue parses to. */
  lemma {:induction false} FragmentParses(residue: seq<byte>, chunk: seq<byte>)
    requires Parse(residue) == Parsed([], residue, false)
    requires 1 <= |chunk| <= (if |residue| < 4 then 4 else FRAME) - |residue|
    ensures var x := residue + chunk; var p := Parse(x);
            && (p.bad <==> |x| >= 4 && Integer(x[..4]) != PAYLOAD)
            && (p.bad ==> p == Parsed([], x, true) && |x| == 4)
            && (!p.bad && |x| < FRAME ==> p == Parsed([], x, false))
            && (!p.bad && |x| == FRAME ==> p == Parsed([x[4..]], [], false))
  {
    var x := residue + chunk;
    hide Integer;
    if |residue| >= 4 { Seqs.SliceAppend(residue, chunk, 0, 4); }
    if |x| == FRAME {
      assert x[FRAME..] == [] && x[4..FRAME] == x[4..];
    }
  }

  /** Fields no predicate of `Core` mentions. */
  ghost predicate SameCore(s: State, s': State) {
    s' == s.(input := s'.input, received := s'.received, partialDeadline := s'.partialDeadline, client := s'.client,
             wake := s'.wake)
  }

  lemma {:induction false} SameCoreKeeps(s: State, s': State)
    requires Core(s) && SameCore(s, s') && s.fate.Running?
    requires s.received <= s'.received && (s.client ==> s'.client)
    ensures Core(s') && Evolves(s, s')
  {
    hide TextOf;
    hide Wire;
    hide DecodeFields;
    hide WorkerEvolves;
    SameReplies(s, s');
    assert Evolves(s, s') by { EvolvesRefl(s); }
  }

  lemma {:induction false} DeathInv(s: State, cause: Cause)
    requires Inv(s) && s.fate.Running? && cause != BadLength
    ensures Inv(Die(s, cause)) && Evolves(s, Die(s, cause))
  {
    hide Core;
    hide Parse;
    hide Evolves;
    hide Answered;
    hide Upto;
    DeathKeeps(s, cause);
    SameAnswered(s, Die(s, cause));
  }

  lemma {:induction false} InvEvolves(s: State)
    requires Inv(s)
    ensures Evolves(s, s)
  {
    hide RepliesOk;
    hide QueueOk;
    hide FramesOk;
    hide AnswersOk;
  }

  lemma {:induction false} ReceiveKeeps(s: State, recv: Recv, now: int, env: RequestEnv)
    requires Inv(s) && s.fate.Running? && s.client && |s.input| < FRAME && |s.capability| == 32
    requires now >= 0 && DrawsOk(s.workers, env.draws)
    ensures Inv(Receive(s, recv, now, env)) && Evolves(s, Receive(s, recv, now, env))
  {
    hide Inv;
    hide Request;
    hide Evolves;
    hide DrawsOk;
    hide Integer;
    if recv.RecvData? && Fragment(recv.offered, (if |s.input| < 4 then 4 else FRAME) - |s.input|) != [] {
      ReceiveDataKeeps(s, recv, now, env);
    } else if recv.RecvAgain? {
      InvEvolves(s);
    } else {
      DeathInv(s, if recv.RecvError? then ReceiveFailed else PeerClosed);
    }
  }

  /** The state once a fragment is in the buffer, before it is looked at. */
  function Arrived(s: State, chunk: seq<byte>, now: int): State {
    s.(partialDeadline := if s.input == [] then now + SECOND else s.partialDeadline,
       input := s.input + chunk, received := s.received + chunk)
  }

  ghost predicate BadStart(input: seq<byte>) {
    |input| >= 4 && Integer(input[..4]) != PAYLOAD
  }

  /** The buffer is exactly what the stream holds beyond the dispatched frames. */
  ghost predicate Assembles(s: State) {
    if BadStart(s.input) then |s.input| == 4 && Parse(s.received) == Parsed(s.log, s.input, true)
    else if |s.input| < FRAME then Parse(s.received) == Parsed(s.log, s.input, false)
    else |s.input| == FRAME && Parse(s.received) == Parsed(s.log + [s.input[4..]], [], false)
  }

  lemma {:induction false} ArrivedAssembles(s: State, chunk: seq<byte>, now: int)
    requires FramesOk(s) && s.fate.Running?
    requires 1 <= |chunk| <= (if |s.input| < 4 then 4 else FRAME) - |s.input|
    ensures Assembles(Arrived(s, chunk, now))
  {
    hide Parse;
    hide Integer;
    ResidueParses(s.received);
    ParseResumes(s.received, chunk);
    FragmentParses(s.input, chunk);
    assert s.log + [] == s.log;
  }

  lemma {:induction false} ReceiveDataKeeps(s: State, recv: Recv, now: int, env: RequestEnv)
    requires Inv(s) && s.fate.Running? && s.client && |s.input| < FRAME && |s.capability| == 32
    requires now >= 0 && DrawsOk(s.workers, env.draws) && recv.RecvData?
    requires Fragment(recv.offered, (if |s.input| < 4 then 4 else FRAME) - |s.input|) != []
    ensures Inv(Receive(s, recv, now, env)) && Evolves(s, Receive(s, recv, now, env))
  {
    hide Core;
    hide Parse;
    hide Request;
    hide Evolves;
    hide DrawsOk;
    hide Integer;
    hide Answered;
    hide Upto;
    hide FramesOk;
    var chunk := Fragment(recv.offered, (if |s.input| < 4 then 4 else FRAME) - |s.input|);
    var s1 := Arrived(s, chunk, now);
    SameCoreKeeps(s, s1);
    ArrivedAssembles(s, chunk, now);
    SameAnswered(s, s1);
    if BadStart(s1.input) {
      DeathKeeps(s1, BadLength);
      EvolvesTrans(s, s1, Die(s1, BadLength));
      SameAnswered(s, Die(s1, BadLength));
      FramesAfter(Die(s1, BadLength));
    } else if |s1.input| < FRAME {
      assert s1.input != [];
      PartialKept(s, s1, now);
      FramesAfter(s1);
    } else {
      DispatchKeeps(s, s1, env);
    }
  }

  lemma {:induction false} PartialKept(s: State, s1: State, now: int)
    requires FramesOk(s) && s.fate.Running? && now >= 0
    requires s1.partialDeadline == if s.input == [] then now + SECOND else s.partialDeadline
    ensures s1.partialDeadline != 0
  {
    hide Parse;
  }

  lemma {:induction false} FramesAfter(s: State)
    requires Assembles(s) && |s.input| < FRAME && s.client
    requires s.fate == (if BadStart(s.input) then Died(BadLength) else Running)
    requires s.fate.Running? ==> s.partialDeadline != 0
    ensures FramesOk(s)
  {
    hide Parse;
    hide Integer;
  }

  lemma {:induction false} SameAnswered(s: State, s': State)
    requires s'.replies == s.replies && s'.pending == s.pending && s'.waiting == s.waiting
    ensures Answered(s') == Answered(s)
  {}

  /** What dispatching one payload does, field by field. */
  lemma {:induction false} RequestEffect(s: State, data: seq<byte>, env: RequestEnv)
    requires Core(s) && s.fate.Running? && |data| == PAYLOAD && |s.capability| == 32
    requires DrawsOk(s.workers, env.draws)
    ensures var s' := Request(s, data, env);
            && Core(s') && Evolves(s, s')
            && s'.fate != Died(BadLength) && s'.received == s.received && s'.input == s.input
            && (s.client ==> s'.client)
            && s'.log == s.log + [data] && s'.requests == s.requests + 1
            && (s'.fate.Running? ==> s'.requests <= MAX_REQUESTS)
            && Answered(s') == Answered(s) + (if s'.fate.Running? then multiset{s.requests} else multiset{})
  {
    hide Core;
    hide Request;
    hide Evolves;
    hide DrawsOk;
    hide Answered;
    RequestServes(s, data, env);
    LoggedKeeps(s, data);
    EvolvesTrans(s, Logged(s, data), Request(s, data, env));
    EvolvesClient(s, Request(s, data, env));
    SameAnswered(s, Logged(s, data));
  }

  lemma {:induction false} EvolvesClient(s: State, s': State)
    requires Evolves(s, s')
    ensures s.client ==> s'.client
  {
    hide WorkerEvolves;
  }

  /** A complete, well-formed frame is dispatched and the assembler emptied. */
  lemma {:induction false} DispatchKeeps(s: State, s1: State, env: RequestEnv)
    requires Core(s1) && Evolves(s, s1) && s1.fate.Running? && s1.client && |s1.input| == FRAME && |s1.capability| == 32
    requires DrawsOk(s1.workers, env.draws)
    requires Parse(s1.received) == Parsed(s1.log + [s1.input[4..]], [], false)
    requires Answered(s1) == Upto(s1.requests)
    ensures var s2 := Request(s1, s1.input[4..], env);
            var s' := if s2.fate.Died? then s2 else s2.(input := [], partialDeadline := 0);
            Inv(s') && Evolves(s, s')
  {
    hide Core;
    hide Parse;
    hide Request;
    hide Evolves;
    hide DrawsOk;
    hide Answered;
    var data := s1.input[4..];
    var s2 := Request(s1, data, env);
    RequestEffect(s1, data, env);
    EvolvesTrans(s, s1, s2);
    if s2.fate.Running? {
      var s' := s2.(input := [], partialDeadline := 0);
      SameCoreKeeps(s2, s');
      EvolvesTrans(s, s2, s');
      SameAnswered(s2, s');
    }
  }

  // ---- The other phases ----

  /** Phases that leave frames and replies alone keep the whole invariant when they keep `Core`. */
  lemma {:induction false} InvKeeps(s: State, s': State)
    requires Inv(s) && s.fate.Running? && Core(s') && s'.fate != Died(BadLength)
    requires s'.received == s.received && s'.log == s.log && s'.input == s.input && s'.requests == s.requests
    requires s'.partialDeadline == s.partialDeadline || (s.input == [] && s'.partialDeadline >= 0)
    requires s'.replies == s.replies && s'.pending == s.pending && s'.waiting == s.waiting
    requires s.client ==> s'.client
    ensures Inv(s')
  {
    hide Core;
    hide Parse;
    hide Answered;
    hide Upto;
    SameAnswered(s, s');
  }

  lemma {:induction false} UpdateInv(s: State, s': State, i: nat)
    requires Inv(s) && s.fate.Running? && OneWorker(s, s', i) && s'.fate != Died(BadLength)
    ensures Inv(s') && Evolves(s, s')
  {
    hide Core;
    hide FramesOk;
    hide AnswersOk;
    hide Evolves;
    hide WorkerEvolves;
    UpdateKeeps(s, s', i);
    InvKeeps(s, s');
  }

  /** The facts about a slot that an update must carry over. */
  lemma {:induction false} SlotFacts(s: State, i: nat)
    requires Inv(s) && i < |s.workers|
    ensures |s.timeouts| == |s.workers| && |s.workers[i].output| <= OUTPUT && s.timeouts[i] <= 1
    ensures s.timeouts[i] == 1 ==> s.workers[i].deadline == s.sessionDeadline
    ensures s.workers[i].reason == Timeout ==> s.timeouts[i] == 1
    ensures s.workers[i].reason == Cancel ==> s.workers[i].deadline == s.sessionDeadline
  {
    hide QueueOk;
    hide RepliesOk;
    hide FramesOk;
    hide AnswersOk;
  }

  /** A slot update that leaves reason, deadline and timeouts alone. */
  lemma {:induction false} QuietUpdate(s: State, i: nat, w: Worker, fate: Fate)
    requires Inv(s) && s.fate.Running? && i < |s.workers| && |w.output| <= OUTPUT && fate != Died(BadLength)
    requires WorkerEvolves(s.workers[i], w, s.sessionDeadline)
    requires w.reason == s.workers[i].reason && w.deadline == s.workers[i].deadline
    ensures var s' := s.(workers := s.workers[i := w], fate := fate); Inv(s') && Evolves(s, s')
  {
    hide Inv;
    hide WorkerEvolves;
    hide Evolves;
    SlotFacts(s, i);
    UpdateInv(s, s.(workers := s.workers[i := w], fate := fate), i);
  }

  lemma {:induction false} ReapOneKeeps(s: State, i: nat, wait: Wait, traceable: bool)
    requires Inv(s) && s.fate.Running? && i < |s.workers|
    ensures var s' := ReapOne(s, i, wait, traceable); Inv(s') && Evolves(s, s')
  {
    hide Inv;
    hide Evolves;
    var w := s.workers[i];
    InvEvolves(s);
    SlotFacts(s, i);
    if !w.reaped {
      match wait {
        case WaitError => DeathInv(s, WaitFailed);
        case WaitNothing =>
        case WaitEnded(status) => QuietUpdate(s, i, w.(status := status, reaped := true), Running);
        case WaitStopped(signal) =>
          if !w.traced && signal != SIGSTOP { DeathInv(s, BadStop); } else {
            QuietUpdate(s, i, w.(traced := true),
                        if (!w.traced && w.mode == 4) || traceable then Running else Died(TraceFailed));
          }
      }
    }
  }

  lemma {:induction false} ReapKeeps(s: State, i: nat, t: Turn)
    requires Inv(s) && i <= |s.workers|
    ensures Inv(ReapFrom(s, i, t)) && Evolves(s, ReapFrom(s, i, t))
    decreases |s.workers| - i
  {
    hide Inv;
    hide Evolves;
    hide ReapOne;
    InvEvolves(s);
    if i < |s.workers| && s.fate.Running? {
      var s1 := ReapOne(s, i, t.waits(i), t.traceable(i));
      ReapOneKeeps(s, i, t.waits(i), t.traceable(i));
      BrokerSpec.ReapOneKeeps(s, i, t.waits(i), t.traceable(i));
      ReapKeeps(s1, i + 1, t);
      EvolvesTrans(s, s1, ReapFrom(s1, i + 1, t));
    }
  }

  lemma {:induction false} ExpireOneKeeps(s: State, i: nat, current: int, killable: bool)
    requires Inv(s) && s.fate.Running? && i < |s.workers| == |s.timeouts| && current < s.sessionDeadline
    ensures var s' := ExpireOne(s, i, current, killable);
            && Inv(s') && Evolves(s, s') && |s'.workers| == |s.workers| == |s'.timeouts|
            && s'.sessionDeadline == s.sessionDeadline
            && (s'.fate.Running? ==> s'.workers[i].reaped || current < s'.workers[i].deadline)
            && forall j :: 0 <= j < |s.workers| && j != i ==> s'.workers[j] == s.workers[j]
  {
    hide Inv;
    hide Evolves;
    InvEvolves(s);
    SlotFacts(s, i);
    var w := s.workers[i];
    if !w.reaped && current >= w.deadline {
      if !killable { DeathInv(s, KillFailed); } else {
        assert s.timeouts[i] == 0;
        UpdateInv(s, ExpireOne(s, i, current, killable), i);
      }
    }
  }

  /** After expiry every unreaped worker's deadline lies ahead. */
  lemma {:induction false} ExpireKeeps(s: State, i: nat, t: Turn)
    requires Inv(s) && i <= |s.workers| == |s.timeouts| && t.current < s.sessionDeadline
    requires forall j :: 0 <= j < i ==> s.workers[j].reaped || t.current < s.workers[j].deadline
    ensures var s' := ExpireFrom(s, i, t);
            && Inv(s') && Evolves(s, s')
            && (s'.fate.Running? ==>
                  forall j :: 0 <= j < |s'.workers| ==> s'.workers[j].reaped || t.current < s'.workers[j].deadline)
    decreases |s.workers| - i
  {
    hide Inv;
    hide Evolves;
    hide ExpireOne;
    InvEvolves(s);
    if i < |s.workers| && s.fate.Running? {
      var s1 := ExpireOne(s, i, t.current, t.killable(i));
      ExpireOneKeeps(s, i, t.current, t.killable(i));
      if s1.fate.Running? {
        ExpireKeeps(s1, i + 1, t);
        EvolvesTrans(s, s1, ExpireFrom(s1, i + 1, t));
      }
    }
  }

  lemma {:induction false} AnswerPendingKeeps(s: State)
    requires Inv(s) && s.fate.Running? && s.pending < |s.workers|
    ensures Inv(AnswerPending(s)) && Evolves(s, AnswerPending(s))
  {
    hide Core;
    hide FramesOk;
    hide AnswersOk;
    hide Evolves;
    hide Result;
    InvEvolves(s);
    if s.pending >= 0 && s.workers[s.pending].Done() {
      PendingReplyOk(s);
      var s1 := Result(s, s.waiting, s.pending, Exited);
      ResultServes(s, s.waiting, s.pending, Exited);
      BrokerSpec.ResultKeeps(s, s.waiting, s.pending, Exited);
      if s1.fate.Running? {
        var s' := s1.(pending := -1);
        ClearPending(s1);
        EvolvesIgnoresPending(s, s1, s');
        ClearedInv(s, s1);
      } else {
        DiedServing(s, s1);
      }
    }
  }

  lemma {:induction false} PendingReplyOk(s: State)
    requires Inv(s) && 0 <= s.pending < |s.workers| && s.workers[s.pending].Done()
    ensures ReplyOk(s, Reply(s.waiting, About(s.pending, s.workers[s.pending], Exited)))
  {
    hide QueueOk;
    hide RepliesOk;
    hide FramesOk;
    hide AnswersOk;
    hide DecodeFields;
  }

  lemma {:induction false} ClearPending(s: State)
    requires Core(s)
    ensures Core(s.(pending := -1))
  {
    hide TextOf;
    hide Wire;
    hide DecodeFields;
    hide WorkerEvolves;
    SameReplies(s, s.(pending := -1));
  }

  lemma {:induction false} Cancelled(a: multiset<nat>, b: multiset<nat>, x: nat)
    requires a + multiset{x} == b + multiset{x}
    ensures a == b
  {
    assert a == (a + multiset{x}) - multiset{x};
    assert b == (b + multiset{x}) - multiset{x};
  }

  /** The wait's reply takes over its place in the count. */
  lemma {:induction false} ClearedInv(s: State, s1: State)
    requires Inv(s) && s.fate.Running? && s.pending >= 0 && Served(s, s1, s.waiting) && s1.fate.Running?
    requires Core(s1.(pending := -1)) && s1.pending == s.pending && s1.waiting == s.waiting
    ensures Inv(s1.(pending := -1))
  {
    hide Core;
    hide Parse;
    hide Numbers;
    hide Upto;
    hide WorkerEvolves;
    Cancelled(Numbers(s1.replies), Answered(s), s.waiting);
  }

  lemma {:induction false} DiedServing(s: State, s1: State)
    requires Inv(s) && s.fate.Running? && Served(s, s1, s.waiting) && s1.fate.Died?
    ensures Inv(s1)
  {
    hide Core;
    hide Parse;
    hide WorkerEvolves;
    hide Answered;
    hide Upto;
  }

  lemma {:induction false} SendKeeps(s: State, send: Send)
    requires Inv(s) && s.fate.Running?
    ensures Inv(SendSome(s, send)) && Evolves(s, SendSome(s, send))
  {
    hide Inv;
    hide Evolves;
    InvEvolves(s);
    match send {
      case SendAgain =>
      case SendError => DeathInv(s, SendFailed);
      case SendTaken(room) =>
        var n := Min(room, |s.unsent|);
        if n == 0 { DeathInv(s, SendFailed); } else { SentInv(s, n); }
    }
  }

  lemma {:induction false} SentInv(s: State, n: nat)
    requires Inv(s) && s.fate.Running? && n <= |s.unsent|
    ensures var s' := s.(sent := s.sent + s.unsent[..n], unsent := s.unsent[n..]); Inv(s') && Evolves(s, s')
  {
    hide FramesOk;
    hide AnswersOk;
    hide WorkerEvolves;
    hide TextOf;
    hide Wire;
    hide DecodeFields;
    var s' := s.(sent := s.sent + s.unsent[..n], unsent := s.unsent[n..]);
    assert s'.sent + s'.unsent == s.sent + s.unsent;
    InvEvolves(s);
    SameReplies(s, s');
    InvKeeps(s, s');
  }

  lemma {:induction false} AcceptKeeps(s: State, accept: Accept, now: int)
    requires Inv(s) && s.fate.Running? && now >= 0
    ensures Inv(AcceptOne(s, accept, now)) && Evolves(s, AcceptOne(s, accept, now))
  {
    hide Core;
    hide FramesOk;
    hide AnswersOk;
    hide Evolves;
    InvEvolves(s);
    match accept {
      case AcceptAgain =>
      case AcceptError => DeathInv(s, AcceptFailed);
      case Accepted(trusted) =>
        var s' := AcceptOne(s, accept, now);
        SameCoreKeeps(s, s');
        NoInputYet(s);
        InvKeeps(s, s');
    }
  }

  lemma {:induction false} NoInputYet(s: State)
    requires FramesOk(s) && s.fate.Running?
    ensures !s.client ==> s.input == []
  {}

  lemma {:induction false} DrainOneKeeps(s: State, i: nat, read: Recv)
    requires Inv(s) && s.fate.Running? && i < |s.workers| && s.workers[i].open
    ensures var s' := DrainOne(s, i, read); Inv(s') && Evolves(s, s') && |s'.workers| == |s.workers|
  {
    hide Inv;
    hide Evolves;
    var w := s.workers[i];
    InvEvolves(s);
    SlotFacts(s, i);
    match read {
      case RecvEof => QuietUpdate(s, i, w.(open := false), Running);
      case RecvAgain =>
      case RecvError => DeathInv(s, ReadFailed);
      case RecvData(offered) =>
        var chunk := Fragment(offered, READ_SIZE);
        if chunk == [] { QuietUpdate(s, i, w.(open := false), Running); }
        else if |chunk| > OUTPUT - |w.output| { DeathInv(s, OutputFull); }
        else { QuietUpdate(s, i, w.(output := w.output + chunk), Running); }
    }
  }

  lemma {:induction false} DrainKeeps(s: State, i: nat, t: Turn)
    requires Inv(s) && i <= |s.workers|
    ensures Inv(DrainFrom(s, i, t)) && Evolves(s, DrainFrom(s, i, t))
    decreases |s.workers| - i
  {
    hide Inv;
    hide Evolves;
    hide DrainOne;
    InvEvolves(s);
    if i < |s.workers| && s.fate.Running? {
      if s.workers[i].open && t.ready(i) {
        DrainOneKeeps(s, i, t.outputs(i));
        var s1 := DrainOne(s, i, t.outputs(i));
        DrainKeeps(s1, i + 1, t);
        EvolvesTrans(s, s1, DrainFrom(s1, i + 1, t));
      } else {
        DrainKeeps(s, i + 1, t);
      }
    }
  }

  // ---- Deadlines ----

  /** Every deadline that may bound the `select` sleep at time `current`. */
  ghost predicate Candidate(s: State, current: int, d: int) {
    || d == s.sessionDeadline
    || (!s.client && d == s.acceptDeadline)
    || (s.partialDeadline != 0 && d == s.partialDeadline)
    || (exists i :: 0 <= i < |s.workers| && !s.workers[i].reaped && d == s.workers[i].deadline)
    || ((exists i :: 0 <= i < |s.workers| && !s.workers[i].reaped) && d == current + RECONCILE)
  }

  lemma {:induction false} WorkerDeadlineLeast(workers: seq<Worker>, n: nat, base: int)
    requires n <= |workers|
    ensures var d := WorkerDeadline(workers, n, base);
            && d <= base
            && (forall i :: 0 <= i < n && !workers[i].reaped ==> d <= workers[i].deadline)
            && (d == base || exists i :: 0 <= i < n && !workers[i].reaped && d == workers[i].deadline)
  {
    if n > 0 { WorkerDeadlineLeast(workers, n - 1, base); }
  }

  /** `select` may sleep exactly to the earliest candidate, and that lies strictly ahead. */
  ghost predicate Sleeps(s: State, current: int) {
    && Candidate(s, current, s.wake) && current < s.wake
    && forall d :: Candidate(s, current, d) ==> s.wake <= d
  }

  /** The sleep ends exactly at the earliest of the candidate deadlines, and that lies strictly ahead. */
  lemma {:induction false} WakeIsEarliest(s: State, current: int)
    requires !Overdue(s, current)
    requires forall i :: 0 <= i < |s.workers| ==> s.workers[i].reaped || current < s.workers[i].deadline
    ensures Sleeps(s.(wake := WakeTime(s, current)), current)
  {
    WorkerDeadlineLeast(s.workers, |s.workers|, BaseDeadline(s));
    hide WorkerDeadline;
    var s' := s.(wake := WakeTime(s, current));
    forall d ensures Candidate(s', current, d) <==> Candidate(s, current, d) {}
  }

  lemma {:induction false} SleepsOn(s: State, s': State, current: int)
    requires Sleeps(s, current)
    requires s' == s.(unsent := s'.unsent, replies := s'.replies, pending := s'.pending, fate := s'.fate)
    ensures Sleeps(s', current)
  {
    forall d ensures Candidate(s', current, d) <==> Candidate(s, current, d) {}
  }

  // ---- Runs ----

  ghost predicate Legal(s: State, t: Turn) {
    && t.recvNow >= 0 && t.acceptNow >= 0 && t.request.now >= 0
    && DrawsOk(s.workers, t.request.draws)
  }

  ghost predicate Initial(s: State) {
    && |s.capability| == 32
    && s == State(s.capability, [], false, false, -1, 0, [], [], 0, s.sessionDeadline, s.acceptDeadline, 0, Running,
                  [], [], [], [], 0, [])
  }

  ghost predicate Shaped(s: State) {
    |s.workers| == |s.timeouts| && s.pending < |s.workers| && |s.input| < FRAME && |s.capability| == 32
  }

  lemma {:induction false} InvShapes(s: State)
    requires Inv(s) && s.fate.Running?
    ensures Shaped(s)
  {
    hide QueueOk;
    hide RepliesOk;
    hide AnswersOk;
    hide Parse;
  }

  lemma {:induction false} InitialInv(s: State)
    requires Initial(s)
    ensures Inv(s)
  {
    hide TextOf;
    assert Texts(s.replies) == [];
  }

  /** A dead broker takes no step; a live one takes a whole turn of its loop. */
  ghost predicate Next(s: State, t: Turn, s': State) {
    if s.fate.Died? then s' == s else Legal(s, t) && Shaped(s) && s' == Step(s, t)
  }

  lemma {:induction false} PrepareInv(s: State, t: Turn)
    requires Inv(s) && s.fate.Running? && Shaped(s)
    ensures Inv(Prepare(s, t)) && Evolves(s, Prepare(s, t))
    ensures Prepare(s, t).fate.Running? ==> Sleeps(Prepare(s, t), t.current)
  {
    hide Inv;
    hide Evolves;
    hide ReapFrom;
    hide ExpireFrom;
    hide AnswerPending;
    hide WakeTime;
    hide Sleeps;
    ReapKeeps(s, 0, t);
    ReapFromKeeps(s, 0, t);
    var s1 := ReapFrom(s, 0, t);
    if s1.fate.Running? {
      if Overdue(s1, t.current) {
        DeathInv(s1, DeadlinePassed);
        EvolvesTrans(s, s1, Die(s1, DeadlinePassed));
      } else {
        ExpireKeeps(s1, 0, t);
        ExpireFromKeeps(s1, 0, t);
        var s2 := ExpireFrom(s1, 0, t);
        EvolvesTrans(s, s1, s2);
        if s2.fate.Running? { WokenInv(s, s2, t); }
      }
    }
  }

  lemma {:induction false} WokenInv(s: State, s2: State, t: Turn)
    requires Inv(s2) && Evolves(s, s2) && s2.fate.Running? && s2.pending < |s2.workers| && !Overdue(s2, t.current)
    requires forall i :: 0 <= i < |s2.workers| ==> s2.workers[i].reaped || t.current < s2.workers[i].deadline
    ensures var s' := AnswerPending(s2.(wake := WakeTime(s2, t.current)));
            Inv(s') && Evolves(s, s') && Sleeps(s', t.current)
  {
    hide Evolves;
    hide Core;
    hide FramesOk;
    hide AnswersOk;
    hide WakeTime;
    hide Result;
    hide Sleeps;
    WakeIsEarliest(s2, t.current);
    var s3 := s2.(wake := WakeTime(s2, t.current));
    SameCoreKeeps(s2, s3);
    InvKeeps(s2, s3);
    AnswerPendingKeeps(s3);
    if s3.pending >= 0 { BrokerSpec.ResultKeeps(s3, s3.waiting, s3.pending, Exited); }
    SleepsOn(s3, AnswerPending(s3), t.current);
    EvolvesTrans(s, s2, s3);
    EvolvesTrans(s, s3, AnswerPending(s3));
  }

  lemma {:induction false} ServeInv(s: State, t: Turn)
    requires Inv(s) && s.fate.Running? && Shaped(s) && Legal(s, t)
    ensures Inv(Serve(s, t)) && Evolves(s, Serve(s, t))
  {
    hide Inv;
    hide Evolves;
    hide Receive;
    hide SendSome;
    hide AcceptOne;
    hide DrainFrom;
    hide DrawsOk;
    InvEvolves(s);
    match t.select {
      case SelectError => DeathInv(s, SelectFailed);
      case SelectInterrupted =>
      case SelectReady =>
        var s1 := if s.client && t.readable then Receive(s, t.recv, t.recvNow, t.request) else s;
        if s.client && t.readable { ReceiveKeeps(s, t.recv, t.recvNow, t.request); }
        if s1.fate.Running? { SentInvFrom(s, s1, t); }
    }
  }

  /** From the send phase on. */
  lemma {:induction false} SentInvFrom(s: State, s1: State, t: Turn)
    requires Inv(s1) && Evolves(s, s1) && s1.fate.Running? && t.acceptNow >= 0
    ensures var s2 := if s1.client && s.unsent != [] && t.writable then SendSome(s1, t.send) else s1;
            var s' := if s2.fate.Died? then s2
                      else DrainFrom(if t.listening then AcceptOne(s2, t.accept, t.acceptNow) else s2, 0, t);
            Inv(s') && Evolves(s, s')
  {
    hide Inv;
    hide Evolves;
    hide SendSome;
    hide AcceptOne;
    hide DrainFrom;
    InvEvolves(s1);
    var s2 := if s1.client && s.unsent != [] && t.writable then SendSome(s1, t.send) else s1;
    if s1.client && s.unsent != [] && t.writable { SendKeeps(s1, t.send); }
    EvolvesTrans(s, s1, s2);
    if s2.fate.Running? {
      InvEvolves(s2);
      var s3 := if t.listening then AcceptOne(s2, t.accept, t.acceptNow) else s2;
      if t.listening { AcceptKeeps(s2, t.accept, t.acceptNow); }
      EvolvesTrans(s, s2, s3);
      DrainKeeps(s3, 0, t);
      EvolvesTrans(s, s3, DrainFrom(s3, 0, t));
    }
  }

  /** Whether draws are fresh depends on the handles only. */
  lemma {:induction false} SameHandles(s: State, table: seq<Worker>, draws: seq<nat>)
    requires DrawsOk(s.workers, draws) && |table| == |s.workers|
    requires forall i :: 0 <= i < |table| ==> table[i].handle == s.workers[i].handle
    ensures DrawsOk(table, draws)
  {
    var d :| d in draws && Fresh(s.workers, d);
    assert Fresh(table, d);
  }

  lemma {:induction false} ReapOneHandles(s: State, i: nat, wait: Wait, traceable: bool)
    requires i < |s.workers|
    ensures var s' := ReapOne(s, i, wait, traceable);
            |s'.workers| == |s.workers| &&
            forall j :: 0 <= j < |s.workers| ==> s'.workers[j].handle == s.workers[j].handle
  {}

  lemma {:induction false} ExpireOneHandles(s: State, i: nat, current: int, killable: bool)
    requires i < |s.workers| == |s.timeouts|
    ensures var s' := ExpireOne(s, i, current, killable);
            |s'.workers| == |s.workers| == |s'.timeouts| &&
            forall j :: 0 <= j < |s.workers| ==> s'.workers[j].handle == s.workers[j].handle
  {}

  lemma {:induction false} ReapHandles(s: State, i: nat, t: Turn)
    requires i <= |s.workers|
    ensures var s' := ReapFrom(s, i, t);
            |s'.workers| == |s.workers| &&
            forall j :: 0 <= j < |s.workers| ==> s'.workers[j].handle == s.workers[j].handle
    decreases |s.workers| - i
  {
    hide ReapOne;
    if i < |s.workers| && s.fate.Running? {
      ReapOneHandles(s, i, t.waits(i), t.traceable(i));
      ReapHandles(ReapOne(s, i, t.waits(i), t.traceable(i)), i + 1, t);
    }
  }

  lemma {:induction false} ExpireHandles(s: State, i: nat, t: Turn)
    requires i <= |s.workers| == |s.timeouts|
    ensures var s' := ExpireFrom(s, i, t);
            |s'.workers| == |s.workers| == |s'.timeouts| &&
            forall j :: 0 <= j < |s.workers| ==> s'.workers[j].handle == s.workers[j].handle
    decreases |s.workers| - i
  {
    hide ExpireOne;
    if i < |s.workers| && s.fate.Running? {
      ExpireOneHandles(s, i, t.current, t.killable(i));
      ExpireHandles(ExpireOne(s, i, t.current, t.killable(i)), i + 1, t);
    }
  }

  /** Preparing does not change who has which handle. */
  lemma {:induction false} PrepareHandles(s: State, t: Turn)
    requires |s.workers| == |s.timeouts| && s.pending < |s.workers|
    ensures var p := Prepare(s, t);
            |p.workers| == |s.workers| &&
            forall j :: 0 <= j < |s.workers| ==> p.workers[j].handle == s.workers[j].handle
  {
    hide Result;
    hide WakeTime;
    hide ReapFrom;
    hide ExpireFrom;
    ReapHandles(s, 0, t);
    ReapFromKeeps(s, 0, t);
    var s1 := ReapFrom(s, 0, t);
    ExpireHandles(s1, 0, t);
    ExpireFromKeeps(s1, 0, t);
    var s2 := Schedule(s1, t);
    if s.pending >= 0 { BrokerSpec.ResultKeeps(s2, s2.waiting, s2.pending, Exited); }
  }

  lemma {:induction false} LegalAfter(s: State, t: Turn)
    requires Legal(s, t) && Shaped(s)
    ensures Legal(Prepare(s, t), t)
  {
    hide Prepare;
    hide DrawsOk;
    PrepareHandles(s, t);
    SameHandles(s, Prepare(s, t).workers, t.request.draws);
  }

  lemma {:induction false} StepInv(s: State, t: Turn, s': State)
    requires Inv(s) && Next(s, t, s')
    ensures Inv(s') && Evolves(s, s')
  {
    hide Inv;
    hide Evolves;
    hide Prepare;
    hide Serve;
    hide Legal;
    InvEvolves(s);
    if s.fate.Running? {
      var p := Prepare(s, t);
      PrepareInv(s, t);
      if p.fate.Running? {
        LegalAfter(s, t);
        InvShapes(p);
        ServeInv(p, t);
        EvolvesTrans(s, p, Serve(p, t));
      }
    }
  }

  ghost predicate IsRun(states: seq<State>, turns: seq<Turn>) {
    && |states| == |turns| + 1 && Initial(states[0])
    && forall i :: 0 <= i < |turns| ==> Next(states[i], turns[i], states[i + 1])
  }

  /** Safety over whole runs: the invariant at every moment, and lawful change between any two. */
  lemma {:induction false} RunSafety(states: seq<State>, turns: seq<Turn>, i: nat, j: nat)
    requires IsRun(states, turns) && i <= j < |states|
    ensures Inv(states[i]) && Inv(states[j]) && Evolves(states[i], states[j])
    decreases j
  {
    hide Inv;
    hide Evolves;
    hide Next;
    hide Initial;
    if j == 0 {
      InitialInv(states[0]);
      InvEvolves(states[0]);
    } else {
      RunSafety(states, turns, if i < j then i else j - 1, j - 1);
      StepInv(states[j - 1], turns[j - 1], states[j]);
      InvEvolves(states[j]);
      if i < j { EvolvesTrans(states[i], states[j - 1], states[j]); }
    }
  }

  // ---- Runs exist ----

  function Distinct(draws: seq<nat>): set<nat> {
    set d | d in draws && d != 0
  }

  /** What the clock and the random source give: no negative time, and enough different handles. */
  predicate Timely(t: Turn) {
    && t.recvNow >= 0 && t.acceptNow >= 0 && t.request.now >= 0
    && (forall d :: d in t.request.draws ==> d < HANDLES) && |Distinct(t.request.draws)| > WORKERS
  }

  function Taken(workers: seq<Worker>): set<nat> {
    if workers == [] then {} else {workers[0].handle} + Taken(workers[1..])
  }

  lemma {:induction false} TakenFew(workers: seq<Worker>)
    ensures |Taken(workers)| <= |workers|
    ensures forall i :: 0 <= i < |workers| ==> workers[i].handle in Taken(workers)
  {
    if workers != [] {
      TakenFew(workers[1..]);
      forall i | 0 <= i < |workers| ensures workers[i].handle in Taken(workers) {
        if i > 0 { assert workers[i] == workers[1..][i - 1]; }
      }
    }
  }

  /** More handles drawn than there are workers: one of them is fresh. */
  lemma {:induction false} OneFresh(workers: seq<Worker>, draws: seq<nat>)
    requires |workers| <= WORKERS && |Distinct(draws)| > WORKERS
    ensures exists d :: d in draws && Fresh(workers, d)
  {
    TakenFew(workers);
    if Distinct(draws) <= Taken(workers) {
      SmallerSet(Distinct(draws), Taken(workers));
    } else {
      var d :| d in Distinct(draws) && d !in Taken(workers);
      assert d in draws && Fresh(workers, d);
    }
  }

  lemma {:induction false} SmallerSet<T>(a: set<T>, b: set<T>)
    requires a <= b
    ensures |a| <= |b|
  {
    assert b == a + (b - a);
  }

  lemma {:induction false} AtMostEight(s: State)
    requires Inv(s)
    ensures |s.workers| <= WORKERS
  {
    hide QueueOk;
    hide RepliesOk;
    hide FramesOk;
    hide AnswersOk;
  }

  /** From every initial state, any such turns have a run. */
  lemma {:induction false} RunExists(s: State, turns: seq<Turn>) returns (states: seq<State>)
    requires Initial(s) && forall i :: 0 <= i < |turns| ==> Timely(turns[i])
    ensures IsRun(states, turns) && states[0] == s
  {
    hide Initial;
    hide Inv;
    hide Step;
    hide Distinct;
    if turns == [] {
      states := [s];
    } else {
      var n := |turns| - 1;
      var t := turns[n];
      var front := RunExists(s, turns[..n]);
      assert Timely(t);
      RunSafety(front, turns[..n], n, n);
      var last := front[n];
      var next := last;
      if last.fate.Running? {
        InvShapes(last);
        AtMostEight(last);
        OneFresh(last.workers, t.request.draws);
        assert Legal(last, t);
        next := Step(last, t);
      }
      hide Shaped;
      hide Legal;
      hide Timely;
      states := front + [next];
      forall i | 0 <= i < |turns| ensures Next(states[i], turns[i], states[i + 1]) {
        if i < n { assert Next(front[i], turns[..n][i], front[i + 1]); }
      }
    }
  }
}
