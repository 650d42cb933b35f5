/**
 * What one turn of the loop does to each worker slot, whatever happens to the others, and what kills the broker; over
 * whole runs, where the status and the output of a worker come from.
 */
module BrokerTurns {
  import opened Bytes
  import opened BrokerWire
  import opened BrokerText
  import opened BrokerSpec
  import opened BrokerRuns

  // ---- Reaping, slot by slot ----

  /** What the answer of `waitpid` makes of a worker. */
  function AfterWait(w: Worker, wait: Wait): Worker {
    if !w.reaped && wait.WaitEnded? then w.(reaped := true, status := wait.status)
    else if !w.reaped && wait.WaitStopped? then w.(traced := true)
    else w
  }

  /** A child can be waited for; it stops for tracing first; and it can be continued, but in the mode that is left. */
  predicate WaitFine(w: Worker, wait: Wait, traceable: bool) {
    w.reaped || wait.WaitNothing? || wait.WaitEnded? ||
    (wait.WaitStopped? && (w.traced || wait.signal == SIGSTOP) && (traceable || (!w.traced && w.mode == 4)))
  }

  function WaitCause(w: Worker, wait: Wait): Cause {
    if wait.WaitError? then WaitFailed
    else if wait.WaitStopped? && !w.traced && wait.signal != SIGSTOP then BadStop
    else TraceFailed
  }

  lemma {:induction false} ReapOneSlot(s: State, i: nat, t: Turn)
    requires i < |s.workers| && s.fate.Running?
    ensures var s', w := ReapOne(s, i, t.waits(i), t.traceable(i)), s.workers[i];
            && |s'.workers| == |s.workers|
            && (s'.fate.Running? <==> WaitFine(w, t.waits(i), t.traceable(i)))
            && (s'.fate.Running? ==> s'.workers[i] == AfterWait(w, t.waits(i)))
            && (s'.fate.Died? ==> s'.fate.cause == WaitCause(w, t.waits(i)))
            && s'.workers[i] in {w, AfterWait(w, t.waits(i))}
            && forall a :: 0 <= a < |s.workers| && a != i ==> s'.workers[a] == s.workers[a]
  {}

  /**
   * Reaping treats every slot by the answers about its own worker. The broker lives through it exactly when all of them
   * are fine; otherwise it dies of the first that is not, and the slots behind that one are as they were.
   */
  lemma {:induction false} ReapSlots(s: State, i: nat, t: Turn)
    requires i <= |s.workers| && s.fate.Running?
    ensures var s' := ReapFrom(s, i, t);
            && |s'.workers| == |s.workers|
            && (forall a :: 0 <= a < i ==> s'.workers[a] == s.workers[a])
            && (s'.fate.Running? <==>
                forall a :: i <= a < |s.workers| ==> WaitFine(s.workers[a], t.waits(a), t.traceable(a)))
            && (s'.fate.Running? ==>
                forall a :: i <= a < |s.workers| ==> s'.workers[a] == AfterWait(s.workers[a], t.waits(a)))
            && (forall a :: i <= a < |s.workers| ==>
                  s'.workers[a] == s.workers[a] || s'.workers[a] == AfterWait(s.workers[a], t.waits(a)))
            && (s'.fate.Died? ==>
                exists b :: i <= b < |s.workers| && !WaitFine(s.workers[b], t.waits(b), t.traceable(b)) &&
                            s'.fate.cause == WaitCause(s.workers[b], t.waits(b)) &&
                            (forall a :: i <= a < b ==> WaitFine(s.workers[a], t.waits(a), t.traceable(a))) &&
                            (forall a :: b < a < |s.workers| ==> s'.workers[a] == s.workers[a]))
    decreases |s.workers| - i
  {
    hide ReapOne;
    hide AfterWait;
    hide WaitFine;
    hide WaitCause;
    if i < |s.workers| {
      var s1 := ReapOne(s, i, t.waits(i), t.traceable(i));
      ReapOneSlot(s, i, t);
      if s1.fate.Running? { ReapSlots(s1, i + 1, t); }
    }
  }

  // ---- Expiring, slot by slot ----

  predicate Late(w: Worker, current: int) {
    !w.reaped && w.deadline <= current
  }

  function AfterClock(w: Worker, current: int, session: int): Worker {
    if Late(w, current) then w.(reason := Timeout, deadline := session) else w
  }

  lemma {:induction false} ExpireOneSlot(s: State, i: nat, t: Turn)
    requires i < |s.workers| == |s.timeouts| && s.fate.Running?
    ensures var s', w := ExpireOne(s, i, t.current, t.killable(i)), s.workers[i];
            && |s'.workers| == |s.workers| == |s'.timeouts| && s'.sessionDeadline == s.sessionDeadline
            && (s'.fate.Running? <==> (Late(w, t.current) ==> t.killable(i)))
            && (s'.fate.Running? ==> s'.workers[i] == AfterClock(w, t.current, s.sessionDeadline))
            && (s'.fate.Running? ==> s'.timeouts[i] == s.timeouts[i] + if Late(w, t.current) then 1 else 0)
            && (s'.fate.Died? ==> s'.fate.cause == KillFailed)
            && s'.workers[i].reaped == w.reaped && s'.workers[i].status == w.status
            && (forall a :: 0 <= a < |s.workers| && a != i ==> s'.workers[a] == s.workers[a])
            && (forall a :: 0 <= a < |s.workers| && a != i ==> s'.timeouts[a] == s.timeouts[a])
  {}

  /**
   * Expiring kills exactly the late workers, each once, and leaves the others alone. The broker dies exactly when
   * one of them cannot be killed. Nothing is reaped by it.
   */
  lemma {:induction false} ExpireSlots(s: State, i: nat, t: Turn)
    requires i <= |s.workers| == |s.timeouts| && s.fate.Running?
    ensures var s' := ExpireFrom(s, i, t);
            && |s'.workers| == |s.workers| == |s'.timeouts|
            && (forall a :: 0 <= a < i ==> s'.workers[a] == s.workers[a])
            && (forall a :: 0 <= a < i ==> s'.timeouts[a] == s.timeouts[a])
            && (s'.fate.Running? <==>
                forall a :: i <= a < |s.workers| ==> Late(s.workers[a], t.current) ==> t.killable(a))
            && (s'.fate.Running? ==> forall a :: i <= a < |s.workers| ==>
                  s'.workers[a] == AfterClock(s.workers[a], t.current, s.sessionDeadline))
            && (s'.fate.Running? ==> forall a :: i <= a < |s.workers| ==>
                  s'.timeouts[a] == s.timeouts[a] + if Late(s.workers[a], t.current) then 1 else 0)
            && (s'.fate.Died? ==> s'.fate.cause == KillFailed)
            && (forall a :: i <= a < |s.workers| ==>
                  && s'.workers[a].reaped == s.workers[a].reaped && s'.workers[a].status == s.workers[a].status)
    decreases |s.workers| - i
  {
    hide ExpireOne;
    if i < |s.workers| {
      var s1 := ExpireOne(s, i, t.current, t.killable(i));
      ExpireOneSlot(s, i, t);
      hide AfterClock;
      hide Late;
      if s1.fate.Running? { ExpireSlots(s1, i + 1, t); }
    }
  }

  // ---- Draining, slot by slot ----

  /** No status is recorded: the workers there were keep theirs, and new ones have none. */
  ghost predicate NothingReaped(s: State, s': State) {
    && |s.workers| <= |s'.workers|
    && (forall a :: 0 <= a < |s.workers| ==>
          s'.workers[a].reaped == s.workers[a].reaped && s'.workers[a].status == s.workers[a].status)
    && (forall a :: |s.workers| <= a < |s'.workers| ==> !s'.workers[a].reaped)
  }

  lemma {:induction false} NothingReapedTrans(s: State, s1: State, s2: State)
    requires NothingReaped(s, s1) && NothingReaped(s1, s2)
    ensures NothingReaped(s, s2)
  {}

  /** What is read from a pipe that is found ready: at most one buffer of it. */
  function Chunk(ready: bool, read: Recv): seq<byte> {
    if ready && read.RecvData? then Fragment(read.offered, READ_SIZE) else []
  }

  /** The pipe is found to be at its end. */
  predicate Ends(ready: bool, read: Recv) {
    ready && (read.RecvEof? || (read.RecvData? && read.offered == []))
  }

  function AfterRead(w: Worker, ready: bool, read: Recv): Worker {
    if w.open then w.(output := w.output + Chunk(ready, read), open := !Ends(ready, read)) else w
  }

  predicate ReadFine(w: Worker, ready: bool, read: Recv) {
    w.open && ready ==> !read.RecvError? && |w.output + Chunk(ready, read)| <= OUTPUT
  }

  /** What the turn makes of a slot whose pipe is open: `DrainOne`, if it is found ready. */
  function DrainAt(s: State, i: nat, t: Turn): State
    requires i < |s.workers|
  {
    if s.workers[i].open && t.ready(i) then DrainOne(s, i, t.outputs(i)) else s
  }

  lemma {:induction false} DrainOneSlot(s: State, i: nat, t: Turn)
    requires i < |s.workers| && s.fate.Running? && |s.workers[i].output| <= OUTPUT
    ensures var s', w := DrainAt(s, i, t), s.workers[i];
            && |s'.workers| == |s.workers| && s' == s.(workers := s'.workers, fate := s'.fate)
            && (s'.fate.Running? <==> ReadFine(w, t.ready(i), t.outputs(i)))
            && (s'.fate.Running? ==> s'.workers[i] == AfterRead(w, t.ready(i), t.outputs(i)))
            && (s'.fate.Died? ==>
                s'.workers == s.workers &&
                s'.fate.cause == if t.outputs(i).RecvError? then ReadFailed else OutputFull)
            && (s'.workers[i].reaped == w.reaped && s'.workers[i].status == w.status)
            && forall a :: 0 <= a < |s.workers| && a != i ==> s'.workers[a] == s.workers[a]
  {
    var w := s.workers[i];
    assert w.output + [] == w.output;
  }

  /**
   * Draining appends to each open slot what was read from its own pipe and closes it at its end; nothing else changes.
   * The broker lives through it exactly when every read is fine.
   */
  lemma {:induction false} DrainSlots(s: State, i: nat, t: Turn)
    requires i <= |s.workers| && s.fate.Running?
    requires forall a :: 0 <= a < |s.workers| ==> |s.workers[a].output| <= OUTPUT
    ensures var s' := DrainFrom(s, i, t);
            && |s'.workers| == |s.workers| && s' == s.(workers := s'.workers, fate := s'.fate)
            && (forall a :: 0 <= a < i ==> s'.workers[a] == s.workers[a])
            && (s'.fate.Running? <==>
                forall a :: i <= a < |s.workers| ==> ReadFine(s.workers[a], t.ready(a), t.outputs(a)))
            && (s'.fate.Running? ==>
                forall a :: i <= a < |s.workers| ==> s'.workers[a] == AfterRead(s.workers[a], t.ready(a), t.outputs(a)))
    decreases |s.workers| - i
  {
    hide DrainOne;
    hide AfterRead;
    hide ReadFine;
    if i < |s.workers| {
      var s1 := DrainAt(s, i, t);
      DrainOneSlot(s, i, t);
      if s1.fate.Running? {
        ReadFits(s.workers[i], t.ready(i), t.outputs(i));
        DrainSlots(s1, i + 1, t);
      }
    }
  }

  lemma {:induction false} DrainReapsNothing(s: State, i: nat, t: Turn)
    requires i <= |s.workers|
    ensures NothingReaped(s, DrainFrom(s, i, t))
    decreases |s.workers| - i
  {
    if i < |s.workers| && s.fate.Running? { DrainReapsNothing(DrainAt(s, i, t), i + 1, t); }
  }

  /** It dies of the first read that is not fine, and the slots behind that one are as they were. */
  lemma {:induction false} DrainDeath(s: State, i: nat, t: Turn) returns (b: nat)
    requires i <= |s.workers| && s.fate.Running? && DrainFrom(s, i, t).fate.Died?
    requires forall a :: 0 <= a < |s.workers| ==> |s.workers[a].output| <= OUTPUT
    ensures var s' := DrainFrom(s, i, t);
            && i <= b < |s.workers| == |s'.workers| && !ReadFine(s.workers[b], t.ready(b), t.outputs(b))
            && s'.fate.cause == (if t.outputs(b).RecvError? then ReadFailed else OutputFull)
            && (forall a :: i <= a < b ==> ReadFine(s.workers[a], t.ready(a), t.outputs(a)))
            && (forall a :: b <= a < |s.workers| ==> s'.workers[a] == s.workers[a])
    decreases |s.workers| - i
  {
    hide DrainOne;
    hide AfterRead;
    hide ReadFine;
    var s1 := DrainAt(s, i, t);
    DrainOneSlot(s, i, t);
    if s1.fate.Running? {
      ReadFits(s.workers[i], t.ready(i), t.outputs(i));
      b := DrainDeath(s1, i + 1, t);
    } else {
      b := i;
    }
  }

  lemma {:induction false} ReadFits(w: Worker, ready: bool, read: Recv)
    requires ReadFine(w, ready, read) && |w.output| <= OUTPUT
    ensures |AfterRead(w, ready, read).output| <= OUTPUT
  {}

  // ---- What the requests do ----

  lemma {:induction false} SameWorkers(s: State, s1: State, s2: State)
    requires NothingReaped(s, s1) && s2.workers == s1.workers
    ensures NothingReaped(s, s2)
  {}

  lemma {:induction false} QueueWorkers(s: State, r: Reply)
    ensures Queue(s, r).workers == s.workers
  {
    hide Formatted;
  }

  lemma {:induction false} ResultWorkers(s: State, request: nat, index: nat, stage: Stage)
    requires index < |s.workers|
    ensures Result(s, request, index, stage).workers == s.workers
  {
    hide Queue;
    QueueWorkers(s, Reply(request, About(index, s.workers[index], stage)));
  }

  /** The worker a launch adds. */
  function NewWorker(workers: seq<Worker>, mode: nat, timeout: nat, env: RequestEnv): Worker
    requires env.spawn.Spawned?
  {
    Worker(env.spawn.pid, FirstFresh(workers, env.draws), env.now + timeout * MILLISECOND, mode, true, false,
           ExitStatus(0), false, false, Completed, [])
  }

  lemma {:induction false} LaunchWorkers(s: State, request: nat, mode: nat, timeout: nat, env: RequestEnv)
    ensures var s' := Launch(s, request, mode, timeout, env);
            s'.workers == if |s.workers| < WORKERS && env.signed && env.spawn.Spawned?
                          then s.workers + [NewWorker(s.workers, mode, timeout, env)] else s.workers
  {
    hide Queue;
    hide Result;
    hide FirstFresh;
    hide Formatted;
    QueueWorkers(s, Reply(request, Rejected(WorkerLimit)));
    QueueWorkers(s, Reply(request, Rejected(SignatureError)));
    QueueWorkers(s, Reply(request, Rejected(SpawnError)));
    if env.spawn.Spawned? {
      var s1 := s.(workers := s.workers + [NewWorker(s.workers, mode, timeout, env)], timeouts := s.timeouts + [0]);
      ResultWorkers(s1, request, |s.workers|, Launched);
    }
  }

  lemma {:induction false} AcceptWaitWorkers(s: State, request: nat, index: nat)
    requires index < |s.workers|
    ensures var s' := AcceptWait(s, request, index);
            s'.workers == if s.pending >= 0 then s.workers
                          else s.workers[index := s.workers[index].(waitAccepted := true)]
  {
    hide Queue;
    hide Result;
    QueueWorkers(s, Reply(request, Rejected(WaitLimit)));
    ResultWorkers(s.(workers := s.workers[index := s.workers[index].(waitAccepted := true)]), request, index, Exited);
  }

  /** A worker after an accepted signal or cancel. */
  function Signalling(w: Worker, f: Fields, session: int): Worker {
    w.(reason := if f.opcode == 3 then Signal else Cancel,
       deadline := if f.opcode == 3 && f.argument != SIGKILL then w.deadline else session)
  }

  lemma {:induction false} ControlWorkers(s: State, request: nat, index: nat, f: Fields, env: RequestEnv)
    requires index < |s.workers| && f.opcode in {3, 4}
    ensures var s' := Control(s, request, index, f, env);
            s'.workers == if s.workers[index].reaped || !env.killed then s.workers
                          else s.workers[index := Signalling(s.workers[index], f, s.sessionDeadline)]
  {
    hide Result;
    ResultWorkers(s, request, index, Exited);
    ResultWorkers(s.(workers := s.workers[index := Signalling(s.workers[index], f, s.sessionDeadline)]), request, index,
                  Signalled);
  }

  lemma {:induction false} RequestReapsNothing(s0: State, data: seq<byte>, env: RequestEnv)
    requires |data| == PAYLOAD && |s0.capability| == 32
    ensures NothingReaped(s0, Request(s0, data, env))
  {
    hide Queue;
    hide Launch;
    hide AcceptWait;
    hide Control;
    hide Find;
    hide DecodeFields;
    hide FirstFresh;
    var s, request, f := Logged(s0, data), s0.requests, DecodeFields(data);
    match Refusal(f, data[20..] == s.capability, s.authenticated) {
      case Some(error) => QueueWorkers(s, Reply(request, Rejected(error)));
      case None =>
        QueueWorkers(s, Reply(request, Rejected(ArgumentsError)));
        QueueWorkers(s, Reply(request, Rejected(HandleError)));
        QueueWorkers(s.(authenticated := true), Reply(request, Authenticated));
        LaunchWorkers(s, request, f.argument, f.timeout, env);
        var index := Find(s.workers, f.handle);
        if index < |s.workers| {
          AcceptWaitWorkers(s, request, index);
          if f.opcode in {3, 4} { ControlWorkers(s, request, index, f, env); }
        }
    }
  }

  lemma {:induction false} ReceiveReapsNothing(s: State, recv: Recv, now: int, env: RequestEnv)
    requires |s.input| < FRAME && |s.capability| == 32
    ensures NothingReaped(s, Receive(s, recv, now, env))
  {
    hide Request;
    hide Integer;
    if recv.RecvData? {
      var s1 := Arrived(s, Fragment(recv.offered, (if |s.input| < 4 then 4 else FRAME) - |s.input|), now);
      if |s1.input| == FRAME { RequestReapsNothing(s1, s1.input[4..], env); }
    }
  }

  lemma {:induction false} AnswerWorkers(s: State)
    requires s.pending < |s.workers|
    ensures AnswerPending(s).workers == s.workers
  {
    hide Result;
    if s.pending >= 0 { ResultWorkers(s, s.waiting, s.pending, Exited); }
  }

  /** In a whole turn only reaping records a status, and only the one that `waitpid` answered. */
  ghost predicate ReapedBy(s: State, s': State, t: Turn) {
    && |s.workers| <= |s'.workers|
    && (forall a :: 0 <= a < |s.workers| && s.workers[a].reaped ==>
          s'.workers[a].reaped && s'.workers[a].status == s.workers[a].status)
    && (forall a :: 0 <= a < |s.workers| && !s.workers[a].reaped && s'.workers[a].reaped ==>
          t.waits(a) == WaitEnded(s'.workers[a].status))
    && (forall a :: |s.workers| <= a < |s'.workers| ==> !s'.workers[a].reaped)
  }

  lemma {:induction false} ReapedByThen(s: State, s1: State, s': State, t: Turn)
    requires ReapedBy(s, s1, t) && NothingReaped(s1, s')
    ensures ReapedBy(s, s', t)
  {}

  lemma {:induction false} PrepareReaps(s: State, t: Turn)
    requires s.fate.Running? && |s.workers| == |s.timeouts| && s.pending < |s.workers|
    ensures ReapedBy(s, Prepare(s, t), t)
  {
    hide ReapFrom;
    hide ExpireFrom;
    hide AnswerPending;
    hide WakeTime;
    hide WaitFine;
    hide WaitCause;
    var s1 := ReapFrom(s, 0, t);
    ReapSlots(s, 0, t);
    ReapFromKeeps(s, 0, t);
    assert ReapedBy(s, s1, t);
    hide ReapedBy;
    if s1.fate.Running? {
      ExpireSlots(s1, 0, t);
      var s2 := Schedule(s1, t);
      ExpireFromKeeps(s1, 0, t);
      ReapedByThen(s, s1, s2, t);
      AnswerWorkers(s2);
      ReapedByThen(s, s1, AnswerPending(s2), t);
      ReapedByThen(s, s1, Die(s1, DeadlinePassed), t);
    }
  }

  lemma {:induction false} ServeReapsNothing(s: State, t: Turn)
    requires |s.input| < FRAME && |s.capability| == 32
    ensures NothingReaped(s, Serve(s, t))
  {
    hide Receive;
    hide DrainFrom;
    assert NothingReaped(s, s);
    assert NothingReaped(s, Die(s, SelectFailed));
    if t.select.SelectReady? {
      var s1 := if s.client && t.readable then Receive(s, t.recv, t.recvNow, t.request) else s;
      ReceiveReapsNothing(s, t.recv, t.recvNow, t.request);
      var s2 := if s1.client && s.unsent != [] && t.writable then SendSome(s1, t.send) else s1;
      var s3 := if t.listening then AcceptOne(s2, t.accept, t.acceptNow) else s2;
      hide NothingReaped;
      SameWorkers(s, s1, s2);
      SameWorkers(s, s1, s3);
      DrainReapsNothing(s3, 0, t);
      NothingReapedTrans(s, s3, DrainFrom(s3, 0, t));
    }
  }

  // ---- Over runs: where a status comes from ----

  lemma {:induction false} StepReaps(s: State, t: Turn, s': State)
    requires Next(s, t, s')
    ensures ReapedBy(s, s', t) || s' == s
  {
    hide Prepare;
    hide Serve;
    hide ReapedBy;
    hide Legal;
    if s.fate.Running? {
      var p := Prepare(s, t);
      PrepareReaps(s, t);
      PrepareKeeps(s, t);
      if p.fate.Running? {
        ServeReapsNothing(p, t);
        ReapedByThen(s, p, Serve(p, t), t);
      }
    }
  }

  /** Turn `k` found the worker of slot `a` ended, with this status, and it had not been found so before. */
  ghost predicate Waited(states: seq<State>, turns: seq<Turn>, k: nat, a: nat, status: Status) {
    && k < |turns| && k < |states| && a < |states[k].workers|
    && states[k].fate.Running? && !states[k].workers[a].reaped && turns[k].waits(a) == WaitEnded(status)
  }

  /**
   * A recorded status is the one `waitpid` answered for that worker: in every run, a worker that is reaped was found
   * ended, with its status, in exactly one earlier turn, the first one that found it so.
   */
  lemma {:induction false} StatusIsWaited(states: seq<State>, turns: seq<Turn>, j: nat, a: nat) returns (k: nat)
    requires IsRun(states, turns) && j < |states| && a < |states[j].workers| && states[j].workers[a].reaped
    ensures k < j && Waited(states, turns, k, a, states[j].workers[a].status)
    decreases j
  {
    hide Next;
    var s, t := states[j - 1], turns[j - 1];
    assert Next(s, t, states[j]);
    StepReaps(s, t, states[j]);
    if a < |s.workers| && s.workers[a].reaped {
      k := StatusIsWaited(states, turns, j - 1, a);
    } else {
      k := j - 1;
      StillAlive(s, t, states[j]);
    }
  }

  lemma {:induction false} StillAlive(s: State, t: Turn, s': State)
    requires Next(s, t, s') && s' != s
    ensures s.fate.Running?
  {
    hide Step;
    hide Legal;
  }

  /** And a turn that the broker survives records the answer for good. */
  lemma {:induction false} WaitedIsReaped(
    states: seq<State>, turns: seq<Turn>, k: nat, a: nat, status: Status, j: nat)
    requires IsRun(states, turns) && k < j < |states| && Waited(states, turns, k, a, status)
    requires states[k + 1].fate.Running?
    ensures a < |states[j].workers| && states[j].workers[a].reaped && states[j].workers[a].status == status
  {
    hide Inv;
    hide Prepare;
    hide Serve;
    hide Legal;
    var s, t := states[k], turns[k];
    assert Next(s, t, states[k + 1]);
    PrepareKeeps(s, t);
    ReapedAtOnce(s, t);
    ServeReapsNothing(Prepare(s, t), t);
    hide IsRun;
    hide Next;
    RunSafety(states, turns, k + 1, j);
  }

  lemma {:induction false} ReapedAtOnce(s: State, t: Turn)
    requires s.fate.Running? && |s.workers| == |s.timeouts| && s.pending < |s.workers| && Prepare(s, t).fate.Running?
    ensures |Prepare(s, t).workers| == |s.workers|
    ensures forall a :: 0 <= a < |s.workers| && !s.workers[a].reaped && t.waits(a).WaitEnded? ==>
              Prepare(s, t).workers[a].reaped && Prepare(s, t).workers[a].status == t.waits(a).status
  {
    hide Prepare;
    PrepareSlots(s, t);
    var p := Prepare(s, t);
    forall a | 0 <= a < |s.workers| && !s.workers[a].reaped && t.waits(a).WaitEnded?
      ensures p.workers[a].reaped && p.workers[a].status == t.waits(a).status {
      assert AfterWait(s.workers[a], t.waits(a)).reaped;
    }
  }

  /** The parts of a turn before `select`: every slot by its own answers, deadline and reaping. */
  lemma {:induction false} PrepareSlots(s: State, t: Turn)
    requires s.fate.Running? && |s.workers| == |s.timeouts| && s.pending < |s.workers| && Prepare(s, t).fate.Running?
    ensures var p := Prepare(s, t);
            && |p.workers| == |s.workers| == |p.timeouts|
            && p.sessionDeadline == s.sessionDeadline
            && (forall a :: 0 <= a < |s.workers| ==>
                  && p.workers[a] == AfterClock(AfterWait(s.workers[a], t.waits(a)), t.current, s.sessionDeadline)
                  && p.timeouts[a] ==
                     s.timeouts[a] + if Late(AfterWait(s.workers[a], t.waits(a)), t.current) then 1 else 0)
  {
    hide ReapFrom;
    hide ExpireFrom;
    hide AfterWait;
    hide AfterClock;
    hide Late;
    hide Result;
    hide WakeTime;
    hide WaitFine;
    hide WaitCause;
    ReapSlots(s, 0, t);
    ReapFromKeeps(s, 0, t);
    var s1 := ReapFrom(s, 0, t);
    ExpireSlots(s1, 0, t);
    ExpireFromKeeps(s1, 0, t);
    var s2 := Schedule(s1, t);
    AnswerShape(s2);
  }

  lemma {:induction false} AnswerShape(s: State)
    requires s.pending < |s.workers|
    ensures var s' := AnswerPending(s);
            s' == s.(unsent := s'.unsent, replies := s'.replies, pending := s'.pending, fate := s'.fate)
  {
    hide Result;
    if s.pending >= 0 { BrokerSpec.ResultKeeps(s, s.waiting, s.pending, Exited); }
  }

  /** What a status reply says about a reaped worker is what `waitpid` answered for it, in a turn before. */
  lemma {:induction false} ReplyIsWaited(states: seq<State>, turns: seq<Turn>, j: nat, i: nat) returns (k: nat)
    requires IsRun(states, turns) && j < |states| && i < |states[j].replies| && states[j].replies[i].body.About?
    requires states[j].replies[i].body.worker.reaped
    ensures var body := states[j].replies[i].body;
            && k < j && k < |turns| && k < |states| && body.index < |states[k].workers|
            && !states[k].workers[body.index].reaped
            && turns[k].waits(body.index) == WaitEnded(body.worker.status)
            && body.worker.pid == states[k].workers[body.index].pid
            && match turns[k].waits(body.index).status
               case ExitStatus(code) => ExitOf(body.worker) == code && SignalOf(body.worker) == 0
               case SignalStatus(signal) => ExitOf(body.worker) == -1 && SignalOf(body.worker) == signal
  {
    hide IsRun;
    hide SlotsOk;
    hide QueueOk;
    hide FramesOk;
    hide AnswersOk;
    hide DecodeFields;
    RunSafety(states, turns, j, j);
    assert ReplyOk(states[j], states[j].replies[i]);
    var body := states[j].replies[i].body;
    k := StatusIsWaited(states, turns, j, body.index);
    RunSafety(states, turns, k, j);
  }
}
