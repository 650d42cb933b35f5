/**
 * The broker over its own buffers: a table of worker slots, a frame buffer filled in place, and one output buffer
 * that is compacted before each reply. Every method is proved to do what its phase of the machine in
 * `BrokerSpec.dfy` does; the abstract state forgets how far the output buffer has been sent.
 */
module Broker {
  import opened Bytes
  import opened BrokerWire
  import opened BrokerText
  import Spec = BrokerSpec
  import Runs = BrokerRuns
  import Seqs
  import opened BrokerSpec

  const BLANK := Worker(0, 0, 0, 0, false, false, ExitStatus(0), false, false, Completed, [])

  class Broker {
    const capability: seq<byte>
    const workers: array<Worker>
    const input: array<byte>
    const output: array<byte>
    var workerCount: nat
    var client: bool
    var authenticated: bool
    var pending: int
    var requests: nat
    var inputUsed: nat
    var outputUsed: nat
    var outputSent: nat
    var partialDeadline: int
    var sessionDeadline: int
    var acceptDeadline: int
    var wake: int
    var fate: Fate

    ghost var received: seq<byte>
    ghost var log: seq<seq<byte>>
    ghost var replies: seq<Reply>
    ghost var sent: seq<byte>
    ghost var waiting: nat
    ghost var timeouts: seq<nat>

    ghost predicate Valid()
      reads this, workers
    {
      && |capability| == 32 && workers.Length == WORKERS && input.Length == FRAME && output.Length == QUEUE
      && input != output
      && workerCount <= WORKERS && inputUsed <= FRAME && outputSent <= outputUsed <= QUEUE
      && |timeouts| == workerCount && -1 <= pending < workerCount
      && (forall i :: 0 <= i < workerCount ==> workers[i].handle != 0)
      && (forall i :: 0 <= i < workerCount ==> |workers[i].output| <= OUTPUT)
      // Slots are zero until used and never reused.
      && (forall i :: workerCount <= i < WORKERS ==> workers[i] == BLANK)
    }

    ghost function Abs(): State
      requires Valid()
      reads this, workers, input, output
    {
      State(capability, workers[..workerCount], client, authenticated, pending, requests, input[..inputUsed],
            output[outputSent..outputUsed], partialDeadline, sessionDeadline, acceptDeadline, wake, fate,
            received, log, replies, sent, waiting, timeouts)
    }

    constructor (capability: seq<byte>, now: int)
      requires |capability| == 32
      ensures Valid() && fresh(workers) && fresh(input) && fresh(output)
      ensures Runs.Initial(Abs()) && sessionDeadline == now + 30 * SECOND && acceptDeadline == now + 5 * SECOND
    {
      this.capability := capability;
      workers := new Worker[WORKERS](_ => BLANK);
      input := new byte[FRAME](_ => 0);
      output := new byte[QUEUE](_ => 0);
      workerCount, client, authenticated, pending, requests := 0, false, false, -1, 0;
      inputUsed, outputUsed, outputSent, partialDeadline, wake := 0, 0, 0, 0, 0;
      sessionDeadline := now + 30 * SECOND;
      acceptDeadline := now + 5 * SECOND;
      fate := Running;
      received, log, replies, sent, waiting, timeouts := [], [], [], [], 0, [];
    }

    /** `die`: the broker kills itself; nothing after this runs. */
    method Die(cause: Cause)
      requires Valid()
      modifies this`fate
      ensures Valid() && Abs() == Spec.Die(old(Abs()), cause)
    {
      fate := Died(cause);
    }

    /** The compaction in `queue`: the unsent bytes move to the front. */
    method Compact()
      requires Valid()
      modifies this`outputUsed, this`outputSent, output
      ensures Valid() && outputSent == 0 && Abs() == old(Abs())
    {
      if outputSent > 0 {
        forall i | 0 <= i < outputUsed - outputSent { output[i] := output[outputSent + i]; }
        outputUsed := outputUsed - outputSent;
        outputSent := 0;
      }
      assert output[0..outputUsed] == old(output[outputSent..outputUsed]);
    }

    /** The `memcpy` calls in `queue`. */
    method Append(data: seq<byte>)
      requires Valid() && outputSent == 0 && |data| <= QUEUE - outputUsed
      modifies this`outputUsed, output
      ensures Valid() && outputUsed == old(outputUsed) + |data|
      ensures Abs() == old(Abs()).(unsent := old(Abs()).unsent + data)
    {
      var start := outputUsed;
      forall i | 0 <= i < |data| { output[start + i] := data[i]; }
      outputUsed := outputUsed + |data|;
      assert output[0..outputUsed] == old(output[0..outputUsed]) + data;
    }

    /** `queue`: compacts the sent bytes away, then appends the length prefix and the reply if they fit. */
    method Queue(text: seq<byte>, ghost reply: Reply)
      requires Valid() && text == Formatted(reply.body)
      modifies this`fate, this`outputUsed, this`outputSent, this`replies, output
      ensures Valid() && Abs() == Spec.Queue(old(Abs()), reply)
    {
      hide Formatted;
      hide BigEndian;
      if |text| > REPLY_LIMIT { Die(Oversize); return; }
      Compact();
      if |text| + 4 > QUEUE - outputUsed { Die(QueueFull); return; }
      Append(BigEndian(|text|, 4));
      Append(text);
      replies := replies + [reply];
      Seqs.Assoc(old(Abs()).unsent, BigEndian(|text|, 4), text);
    }

    /** `reject`. */
    method Reject(error: Error, ghost request: nat)
      requires Valid()
      modifies this`fate, this`outputUsed, this`outputSent, this`replies, output
      ensures Valid() && Abs() == Spec.Queue(old(Abs()), Reply(request, Rejected(error)))
    {
      hide Formatted;
      hide Spec.Queue;
      Queue(Formatted(Rejected(error)), Reply(request, Rejected(error)));
    }

    /** `result`: formats the worker's state around its escaped output, and queues that. */
    method Result(index: nat, stage: Stage, ghost request: nat)
      requires Valid() && index < workerCount
      modifies this`fate, this`outputUsed, this`outputSent, this`replies, output
      ensures Valid() && Abs() == Spec.Result(old(Abs()), request, index, stage)
    {
      hide Spec.Queue;
      hide TextOf;
      hide Escape;
      hide StatusFormat;
      var item := workers[index];
      var ok, escaped, position := EscapeOutput(item.output);
      if !ok { Die(Unprintable); return; }
      var text := StatusFormat(item, stage, escaped[..position]);
      FormatsStatus(index, item, stage);
      Queue(text[..Min(|text|, 2299)], Reply(request, About(index, item, stage)));
    }

    /** One slot of the table changes. */
    method Store(index: nat, w: Worker)
      requires Valid() && index < workerCount && w.handle != 0 && |w.output| <= OUTPUT
      modifies workers
      ensures Valid() && workers[index] == w
      ensures Abs() == old(Abs()).(workers := old(Abs()).workers[index := w])
    {
      workers[index] := w;
      assert workers[..workerCount] == old(workers[..workerCount])[index := w];
    }

    /** The next slot is taken into use. */
    method Occupy(w: Worker)
      requires Valid() && workerCount < WORKERS && w.handle != 0 && |w.output| <= OUTPUT
      modifies this`workerCount, this`timeouts, workers
      ensures Valid() && workerCount == old(workerCount) + 1 && Abs() == Runs.WithWorker(old(Abs()), w)
    {
      workers[workerCount] := w;
      workerCount := workerCount + 1;
      timeouts := timeouts + [0];
      assert workers[..workerCount] == old(workers[..workerCount]) + [w];
    }

    /** One draw, set back to zero if some worker has it. */
    method Untaken(drawn: nat) returns (handle: nat)
      requires Valid()
      ensures handle == if Fresh(workers[..workerCount], drawn) then drawn else 0
    {
      handle := drawn;
      for i := 0 to workerCount
        invariant handle == drawn || handle == 0
        invariant handle == drawn ==> forall j :: 0 <= j < i ==> workers[j].handle != drawn
        invariant handle != drawn ==> exists j :: 0 <= j < i && workers[j].handle == drawn
      {
        if workers[i].handle == handle { handle := 0; }
      }
      ghost var table := workers[..workerCount];
      assert forall j :: 0 <= j < workerCount ==> table[j].handle == workers[j].handle;
    }

    /** The random handle: redrawn while it is zero or taken. */
    method DrawHandle(draws: seq<nat>) returns (handle: nat)
      requires Valid() && Runs.DrawsOk(workers[..workerCount], draws)
      ensures handle == FirstFresh(workers[..workerCount], draws) && handle != 0
    {
      hide Fresh;
      hide FirstFresh;
      hide SomeFresh;
      var k := 0;
      handle := 0;
      ghost var table := workers[..workerCount];
      assert draws[0..] == draws;
      DrawsHaveFresh(table, draws);
      while handle == 0
        invariant k <= |draws|
        invariant handle == 0 ==> FirstFresh(table, draws) == FirstFresh(table, draws[k..])
        invariant handle == 0 ==> SomeFresh(table, draws[k..])
        invariant handle != 0 ==> handle == FirstFresh(table, draws)
        decreases handle == 0, |draws| - k
      {
        NextDraw(table, draws, k);
        handle := Untaken(draws[k]);
        k := k + 1;
      }
    }

    /** `launch`; on success the slot's other fields are still zero from before. */
    method Launch(mode: nat, timeout: nat, env: RequestEnv, ghost request: nat)
      requires Valid() && Runs.DrawsOk(workers[..workerCount], env.draws)
      modifies this`fate, this`outputUsed, this`outputSent, this`replies, this`workerCount, this`timeouts
      modifies output, workers
      ensures Valid() && Abs() == Spec.Launch(old(Abs()), request, mode, timeout, env)
    {
      hide Spec.Queue;
      hide Spec.Result;
      hide FirstFresh;
      hide Runs.DrawsOk;
      if workerCount == WORKERS { Reject(WorkerLimit, request); return; }
      if !env.signed { Reject(SignatureError, request); return; }
      if env.spawn.SetupFailed? { Die(SpawnSetup); return; }
      if env.spawn.SpawnRefused? { Reject(SpawnError, request); return; }
      var index := workerCount;
      var handle := DrawHandle(env.draws);
      Occupy(workers[index].(
        pid := env.spawn.pid, mode := mode, open := true, deadline := env.now + timeout * MILLISECOND,
        reason := Completed, waitAccepted := false, handle := handle));
      Result(index, Launched, request);
    }

    /** `integer`: big-endian, from the payload part of the frame buffer. */
    method Integer(from: nat, size: nat) returns (value: nat)
      requires Valid() && from + size <= PAYLOAD
      ensures value == Bytes.Integer(input[4..][from..from + size])
    {
      hide Bytes.Integer;
      value := 0;
      ghost var data := input[4..];
      assert data[from..from] == [];
      Bytes.IntegerOfNothing();
      for i := 0 to size
        invariant value == Bytes.Integer(data[from..from + i])
      {
        Bytes.IntegerNext(data, from, i);
        value := value * 256 + input[4 + from + i];
      }
    }

    /** The payload's fields, read where they lie in the frame. */
    method ReadFields() returns (f: Fields)
      requires Valid()
      ensures f == DecodeFields(input[4..])
    {
      hide Bytes.Integer;
      var reserved := Integer(2, 2);
      var handle := Integer(4, 8);
      var argument := Integer(12, 4);
      var timeout := Integer(16, 4);
      f := Fields(input[4], input[5], reserved, handle, argument, timeout);
    }

    /** The comparison looks at all 32 bytes whatever it finds. */
    method SameCapability() returns (same: bool)
      requires Valid()
      ensures same <==> input[4..][20..] == capability
    {
      var mismatch := false;
      for i := 0 to 32
        invariant mismatch <==> exists j :: 0 <= j < i && input[j + 24] != capability[j]
      {
        mismatch := mismatch || input[i + 24] != capability[i];
      }
      same := !mismatch;
      ghost var found := input[4..][20..];
      assert |found| == 32 && forall j :: 0 <= j < 32 ==> found[j] == input[j + 24];
    }

    /** The checks `request` makes before it looks at the opcode. */
    method Examine() returns (f: Fields, refusal: Option<Error>)
      requires Valid()
      ensures f == DecodeFields(input[4..])
      ensures refusal == Refusal(f, input[4..][20..] == capability, authenticated)
    {
      hide DecodeFields;
      hide Refusal;
      f := ReadFields();
      var same := SameCapability();
      refusal := Refusal(f, same, authenticated);
    }

    method FindHandle(handle: nat) returns (index: nat)
      requires Valid()
      ensures index == Find(workers[..workerCount], handle) && index <= workerCount
    {
      index := 0;
      ghost var table := workers[..workerCount];
      assert table[0..] == table;
      while index < workerCount && workers[index].handle != handle
        invariant index <= workerCount
        invariant Find(table, handle) == index + Find(table[index..], handle)
      {
        assert table[index..][1..] == table[index + 1..];
        index := index + 1;
      }
    }

    /** The wait branch of `request`. */
    method AcceptWait(index: nat, ghost request: nat)
      requires Valid() && index < workerCount
      modifies this`fate, this`outputUsed, this`outputSent, this`replies, this`pending, this`waiting, output, workers
      ensures Valid() && Abs() == Spec.AcceptWait(old(Abs()), request, index)
    {
      hide Spec.Queue;
      hide Spec.Result;
      if pending >= 0 { Reject(WaitLimit, request); return; }
      Store(index, workers[index].(waitAccepted := true));
      if workers[index].reaped && !workers[index].open {
        Result(index, Exited, request);
      } else {
        pending := index;
        waiting := request;
      }
    }

    /** The signal and cancel branches of `request`. */
    method Control(index: nat, f: Fields, env: RequestEnv, ghost request: nat)
      requires Valid() && index < workerCount
      modifies this`fate, this`outputUsed, this`outputSent, this`replies, output, workers
      ensures Valid() && Abs() == Spec.Control(old(Abs()), request, index, f, env)
    {
      hide Spec.Queue;
      hide Spec.Result;
      if workers[index].reaped { Result(index, Exited, request); return; }
      if !env.killed { Die(KillFailed); return; }
      Store(index, workers[index].(
        reason := if f.opcode == 4 then Cancel else Signal,
        deadline := if f.opcode == 4 || f.argument == SIGKILL then sessionDeadline else workers[index].deadline));
      Result(index, Signalled, request);
    }

    /** `request` after its capability and authentication checks. */
    method Dispatch(f: Fields, env: RequestEnv, ghost request: nat)
      requires Valid() && Runs.DrawsOk(workers[..workerCount], env.draws)
      modifies this`fate, this`outputUsed, this`outputSent, this`replies, this`workerCount, this`timeouts
      modifies this`pending, this`waiting, this`authenticated, output, workers
      ensures Valid() && Abs() == Spec.Dispatch(old(Abs()), request, f, env)
    {
      hide Spec.Queue;
      hide Spec.Launch;
      hide Spec.AcceptWait;
      hide Spec.Control;
      hide Find;
      hide Runs.DrawsOk;
      hide Formatted;
      hide ArgumentsRight;
      if !ArgumentsRight(f, authenticated) { Reject(ArgumentsError, request); return; }
      if f.opcode == 0 {
        authenticated := true;
        Queue(Formatted(Authenticated), Reply(request, Authenticated));
        return;
      }
      if f.opcode == 1 { Launch(f.argument, f.timeout, env, request); return; }
      var index := FindHandle(f.handle);
      if index == workerCount { Reject(HandleError, request); return; }
      if f.opcode == 2 { AcceptWait(index, request); } else { Control(index, f, env, request); }
    }

    /** One more request is counted, and its payload noted. */
    method Count()
      requires Valid()
      modifies this`requests, this`log
      ensures Valid() && Abs() == Runs.Logged(old(Abs()), input[4..])
    {
      requests := requests + 1;
      log := log + [input[4..]];
    }

    /** `request`. */
    method Request(env: RequestEnv)
      requires Valid() && Runs.DrawsOk(workers[..workerCount], env.draws)
      modifies this`requests, this`log, this`fate, this`outputUsed, this`outputSent, this`replies, this`workerCount
      modifies this`timeouts, this`pending, this`waiting, this`authenticated, output, workers
      ensures Valid() && Abs() == Spec.Request(old(Abs()), input[4..], env)
    {
      hide Spec.Queue;
      hide Spec.Dispatch;
      hide DecodeFields;
      hide Runs.DrawsOk;
      hide Refusal;
      ghost var request, data := requests, input[4..];
      ghost var s0 := Abs();
      Count();
      ghost var s := Abs();
      assert s == Runs.Logged(s0, data);
      if requests > MAX_REQUESTS {
        Die(TooManyRequests);
      } else {
        var f, refusal := Examine();
        if refusal.Some? { Reject(refusal.value, request); } else { Dispatch(f, env, request); }
        assert Abs() == if refusal.Some? then Spec.Queue(s, Reply(request, Rejected(refusal.value)))
                        else Spec.Dispatch(s, request, f, env);
      }
    }

    /** `receive`: at most one frame per turn, gathered in place. */
    method Receive(recv: Recv, now: int, env: RequestEnv)
      requires Valid() && inputUsed < FRAME && Runs.DrawsOk(workers[..workerCount], env.draws)
      modifies this`partialDeadline, this`inputUsed, this`received, this`requests, this`log, this`fate
      modifies this`outputUsed, this`outputSent, this`replies, this`workerCount, this`timeouts, this`pending
      modifies this`waiting, this`authenticated, input, output, workers
      ensures Valid() && Abs() == Spec.Receive(old(Abs()), recv, now, env)
    {
      hide Gathered;
      hide Runs.DrawsOk;
      var target := if inputUsed < 4 then 4 else FRAME;
      match recv
      case RecvEof => Die(PeerClosed);
      case RecvAgain =>
      case RecvError => Die(ReceiveFailed);
      case RecvData(offered) =>
        var chunk := Fragment(offered, target - inputUsed);
        if chunk == [] { Die(PeerClosed); return; }
        TakeIn(chunk, now);
        Gather(env);
    }

    /** The bytes go behind those already in the frame buffer. */
    method CopyIn(chunk: seq<byte>)
      requires input.Length == FRAME && inputUsed + |chunk| <= FRAME
      modifies this`inputUsed, input
      ensures inputUsed == old(inputUsed) + |chunk|
      ensures input[..inputUsed] == old(input[..inputUsed]) + chunk
    {
      var start := inputUsed;
      forall i | 0 <= i < |chunk| { input[start + i] := chunk[i]; }
      inputUsed := inputUsed + |chunk|;
    }

    method FillInput(chunk: seq<byte>)
      requires Valid() && inputUsed + |chunk| <= FRAME
      modifies this`inputUsed, input
      ensures Valid() && inputUsed == old(inputUsed) + |chunk|
      ensures Abs() == old(Abs()).(input := old(Abs()).input + chunk)
    {
      CopyIn(chunk);
      assert output[outputSent..outputUsed] == old(output[outputSent..outputUsed]);
    }

    /** One `recv`: the first bytes of a frame start the partial-frame timer. */
    method TakeIn(chunk: seq<byte>, now: int)
      requires Valid() && inputUsed + |chunk| <= FRAME
      modifies this`partialDeadline, this`inputUsed, this`received, input
      ensures Valid() && inputUsed == old(inputUsed) + |chunk| && Abs() == Runs.Arrived(old(Abs()), chunk, now)
    {
      ghost var s := Abs();
      assert inputUsed == 0 <==> s.input == [];
      FillInput(chunk);
      if inputUsed == |chunk| { partialDeadline := now + SECOND; }
      received := received + chunk;
    }

    /** The rest of `receive`: a wrong length kills at once, a complete frame is dispatched. */
    method Gather(env: RequestEnv)
      requires Valid() && Runs.DrawsOk(workers[..workerCount], env.draws)
      modifies this`partialDeadline, this`inputUsed, this`requests, this`log, this`fate
      modifies this`outputUsed, this`outputSent, this`replies, this`workerCount, this`timeouts, this`pending
      modifies this`waiting, this`authenticated, output, workers
      ensures Valid() && Abs() == Gathered(old(Abs()), env)
    {
      hide Spec.Request;
      hide Bytes.Integer;
      hide Runs.DrawsOk;
      if inputUsed >= 4 {
        var length := FrameLength();
        if length != PAYLOAD { Die(BadLength); return; }
      }
      if inputUsed == FRAME {
        assert Abs().input[4..] == input[4..];
        Request(env);
        if fate.Running? {
          inputUsed := 0;
          partialDeadline := 0;
        }
      }
    }

    method FrameLength() returns (value: nat)
      requires Valid() && inputUsed >= 4
      ensures value == Bytes.Integer(Abs().input[..4])
    {
      hide Bytes.Integer;
      value := 0;
      ghost var prefix := Abs().input[..4];
      assert prefix[0..0] == [];
      Bytes.IntegerOfNothing();
      for i := 0 to 4
        invariant value == Bytes.Integer(prefix[0..i])
      {
        Bytes.IntegerNext(prefix, 0, i);
        assert prefix[i] == input[i];
        value := value * 256 + input[i];
      }
      assert prefix[0..4] == prefix;
    }

    /** `reap`, in the traced build: every unreaped child is asked once; a first stop only marks it traced. */
    method Reap(t: Turn)
      requires Valid() && fate.Running?
      modifies this`fate, workers
      ensures Valid() && Abs() == ReapFrom(old(Abs()), 0, t)
    {
      hide ReapFrom;
      hide ReapOne;
      ghost var goal := ReapFrom(Abs(), 0, t);
      var i := 0;
      while i < workerCount
        invariant i <= workerCount && Valid() && fate.Running?
        invariant ReapFrom(Abs(), i, t) == goal
      {
        ReapNext(Abs(), i, t);
        ReapSlot(i, t.waits(i), t.traceable(i));
        if fate.Died? { return; }
        i := i + 1;
      }
      ReapLast(Abs(), t);
    }

    method ReapSlot(i: nat, wait: Wait, traceable: bool)
      requires Valid() && i < workerCount && fate.Running?
      modifies this`fate, workers
      ensures Valid() && Abs() == ReapOne(old(Abs()), i, wait, traceable)
    {
      var item := workers[i];
      if item.reaped {
        return;
      }
      match wait
      case WaitError => Die(WaitFailed);
      case WaitNothing =>
      case WaitEnded(status) => Store(i, item.(status := status, reaped := true));
      case WaitStopped(stopped) =>
        if !item.traced && stopped != SIGSTOP { Die(BadStop); return; }
        Store(i, item.(traced := true));
        if !item.traced && item.mode == 4 { return; }
        if !traceable { Die(TraceFailed); }
    }

    /** `expire_workers`: kills the overdue workers and returns the earliest deadline left. */
    method ExpireWorkers(t: Turn, base: int) returns (deadline: int)
      requires Valid() && fate.Running?
      modifies this`fate, this`timeouts, workers
      ensures Valid() && Abs() == ExpireFrom(old(Abs()), 0, t)
      ensures fate.Running? ==> deadline == WorkerDeadline(Abs().workers, workerCount, base)
    {
      hide ExpireOne;
      hide WorkerDeadline;
      ghost var goal := ExpireFrom(Abs(), 0, t);
      deadline := base;
      NoDeadline(Abs().workers, base);
      var i := 0;
      while i < workerCount
        invariant i <= workerCount && Valid() && fate.Running?
        invariant ExpireFrom(Abs(), i, t) == goal
        invariant deadline == WorkerDeadline(Abs().workers, i, base)
      {
        deadline := ExpireNext(i, t, deadline, base);
        if fate.Died? { return; }
        i := i + 1;
      }
    }

    /** One slot: its kill, and its deadline if that is earlier. */
    method ExpireNext(i: nat, t: Turn, deadline: int, ghost base: int) returns (next: int)
      requires Valid() && i < workerCount && fate.Running? && deadline == WorkerDeadline(Abs().workers, i, base)
      modifies this`fate, this`timeouts, workers
      ensures Valid() && Abs() == ExpireOne(old(Abs()), i, t.current, t.killable(i))
      ensures fate.Running? ==> next == WorkerDeadline(Abs().workers, i + 1, base)
    {
      hide ExpireOne;
      hide WorkerDeadline;
      ghost var table := workers[..workerCount];
      ExpireSlot(i, t.current, t.killable(i));
      SameDeadlines(table, workers[..workerCount], i, base);
      NextDeadline(workers[..workerCount], i, base);
      next := if !workers[i].reaped && workers[i].deadline < deadline then workers[i].deadline else deadline;
    }

    method ExpireSlot(i: nat, current: int, killable: bool)
      requires Valid() && i < workerCount && fate.Running?
      modifies this`fate, this`timeouts, workers
      ensures Valid() && Abs() == ExpireOne(old(Abs()), i, current, killable)
      ensures forall j :: 0 <= j < workerCount && j != i ==> workers[j] == old(workers[j])
    {
      var item := workers[i];
      if item.reaped || current < item.deadline { return; }
      if !killable { Die(KillFailed); return; }
      timeouts := timeouts[i := timeouts[i] + 1];
      Store(i, item.(reason := Timeout, deadline := sessionDeadline));
    }

    /** `reconcile_deadline`. */
    method Reconcile(current: int, deadline: int) returns (bound: int)
      requires Valid()
      ensures bound == ReconcileDeadline(workers[..workerCount], current, deadline)
    {
      ghost var table := workers[..workerCount];
      for i := 0 to workerCount
        invariant forall j :: 0 <= j < i ==> table[j].reaped || current + RECONCILE >= deadline
      {
        assert table[i] == workers[i];
        if !workers[i].reaped && current + RECONCILE < deadline { return current + RECONCILE; }
      }
      bound := deadline;
    }

    /** The loop from its top to `select`: reap, check the deadlines, expire, answer a finished wait. */
    method Prepare(t: Turn)
      requires Valid() && fate.Running?
      modifies this`fate, this`timeouts, this`wake, this`pending, this`outputUsed, this`outputSent, this`replies
      modifies output, workers
      ensures Valid() && Abs() == Spec.Prepare(old(Abs()), t)
    {
      hide AnswerPending;
      hide ReapFrom;
      hide Spec.Schedule;
      Reap(t);
      if fate.Died? { return; }
      if t.current >= sessionDeadline || (!client && t.current >= acceptDeadline) ||
         (partialDeadline != 0 && t.current >= partialDeadline) {
        Die(DeadlinePassed);
        return;
      }
      Schedule(t);
      if fate.Died? { return; }
      Complete();
    }

    method Schedule(t: Turn)
      requires Valid() && fate.Running?
      modifies this`fate, this`timeouts, this`wake, workers
      ensures Valid() && Abs() == Spec.Schedule(old(Abs()), t)
    {
      hide ExpireFrom;
      hide WorkerDeadline;
      hide ReconcileDeadline;
      ghost var s := Abs();
      var deadline := sessionDeadline;
      if !client && acceptDeadline < deadline { deadline := acceptDeadline; }
      if partialDeadline != 0 && partialDeadline < deadline { deadline := partialDeadline; }
      deadline := ExpireWorkers(t, deadline);
      if fate.Died? { return; }
      ExpireFromKeeps(s, 0, t);
      wake := Reconcile(t.current, deadline);
    }

    /** The deferred wait is answered once its worker is reaped and its output closed. */
    method Complete()
      requires Valid() && fate.Running?
      modifies this`fate, this`pending, this`outputUsed, this`outputSent, this`replies, output
      ensures Valid() && Abs() == AnswerPending(old(Abs()))
    {
      hide Spec.Result;
      if pending >= 0 && workers[pending].reaped && !workers[pending].open {
        Result(pending, Exited, waiting);
        if fate.Running? { pending := -1; }
      }
    }

    /** The `send` of the loop; a fully sent buffer starts over at its front. */
    method SendOutput(send: Send)
      requires Valid() && fate.Running?
      modifies this`fate, this`sent, this`outputSent, this`outputUsed
      ensures Valid() && Abs() == SendSome(old(Abs()), send)
    {
      match send
      case SendAgain =>
      case SendError => Die(SendFailed);
      case SendTaken(room) =>
        var n := Min(room, outputUsed - outputSent);
        if n == 0 { Die(SendFailed); return; }
        Consume(n);
    }

    /** The first `n` unsent bytes are gone. */
    method Consume(n: nat)
      requires Valid() && n <= outputUsed - outputSent
      modifies this`sent, this`outputSent, this`outputUsed
      ensures Valid()
      ensures Abs() == old(Abs()).(sent := old(Abs()).sent + old(Abs()).unsent[..n], unsent := old(Abs()).unsent[n..])
    {
      ghost var unsent := output[outputSent..outputUsed];
      sent := sent + unsent[..n];
      outputSent := outputSent + n;
      assert unsent[n..] == output[outputSent..outputUsed];
      if outputSent == outputUsed { outputSent, outputUsed := 0, 0; }
    }

    method AcceptClient(accept: Accept, now: int)
      requires Valid() && fate.Running?
      modifies this`fate, this`client, this`partialDeadline
      ensures Valid() && Abs() == AcceptOne(old(Abs()), accept, now)
    {
      match accept
      case AcceptAgain =>
      case AcceptError => Die(AcceptFailed);
      case Accepted(trusted) =>
        if !client && trusted {
          client := true;
          partialDeadline := now + SECOND;
        }
    }

    /** `drain`. */
    method Drain(i: nat, read: Recv)
      requires Valid() && i < workerCount && fate.Running?
      modifies this`fate, workers
      ensures Valid() && Abs() == DrainOne(old(Abs()), i, read)
    {
      var item := workers[i];
      match read
      case RecvEof => Store(i, item.(open := false));
      case RecvAgain =>
      case RecvError => Die(ReadFailed);
      case RecvData(offered) =>
        var chunk := Fragment(offered, READ_SIZE);
        if chunk == [] { Store(i, item.(open := false)); return; }
        if |chunk| > OUTPUT - |item.output| { Die(OutputFull); return; }
        Store(i, item.(output := item.output + chunk));
    }

    method DrainAll(t: Turn)
      requires Valid()
      modifies this`fate, workers
      ensures Valid() && Abs() == DrainFrom(old(Abs()), 0, t)
    {
      hide DrainOne;
      ghost var goal := DrainFrom(Abs(), 0, t);
      if fate.Died? { return; }
      var i := 0;
      while i < workerCount
        invariant i <= workerCount && Valid() && fate.Running?
        invariant DrainFrom(Abs(), i, t) == goal
      {
        if workers[i].open && t.ready(i) { Drain(i, t.outputs(i)); }
        if fate.Died? { return; }
        i := i + 1;
      }
    }

    /** The loop from `select` to its bottom. */
    method Serve(t: Turn)
      requires Valid() && fate.Running? && inputUsed < FRAME
      requires Runs.DrawsOk(workers[..workerCount], t.request.draws)
      modifies this, input, output, workers
      ensures Valid() && Abs() == Spec.Serve(old(Abs()), t)
    {
      hide Spec.Receive;
      hide SendSome;
      hide AcceptOne;
      hide DrainFrom;
      hide Runs.DrawsOk;
      match t.select
      case SelectError => Die(SelectFailed);
      case SelectInterrupted =>
      case SelectReady =>
        // Writability is only asked for while something was queued before the sleep.
        var queued := outputUsed > outputSent;
        assert queued <==> Abs().unsent != [];
        if client && t.readable { Receive(t.recv, t.recvNow, t.request); }
        if fate.Died? { return; }
        if client && queued && t.writable { SendOutput(t.send); }
        if fate.Died? { return; }
        if t.listening { AcceptClient(t.accept, t.acceptNow); }
        DrainAll(t);
    }

    /** One turn of `loop`. */
    method TakeTurn(t: Turn)
      requires Valid() && fate.Running? && inputUsed < FRAME
      requires Runs.DrawsOk(workers[..workerCount], t.request.draws)
      modifies this, input, output, workers
      ensures Valid() && Abs() == Step(old(Abs()), t)
    {
      hide Spec.Prepare;
      hide Spec.Serve;
      ghost var s := Abs();
      Prepare(t);
      if fate.Died? { return; }
      PrepareKeeps(s, t);
      Runs.PrepareHandles(s, t);
      Runs.SameHandles(s, workers[..workerCount], t.request.draws);
      assert Abs().input == input[..inputUsed];
      Serve(t);
    }

    /** `loop`: started on a fresh broker and given the turns of any run of the machine, it goes through that run. */
    method Loop(turns: seq<Turn>, ghost states: seq<State>)
      requires Valid() && Runs.IsRun(states, turns) && Abs() == states[0]
      modifies this, input, output, workers
      ensures Valid() && Abs() == states[|turns|]
    {
      hide Step;
      hide Runs.Initial;
      hide Runs.DrawsOk;
      for i := 0 to |turns|
        invariant Valid() && Abs() == states[i]
      {
        assert Runs.Next(states[i], turns[i], states[i + 1]);
        if fate.Running? { TakeTurn(turns[i]); }
      }
    }

    /** A fresh broker goes through a run of the machine whatever turns come, times and draws being what they are. */
    method LoopOnAny(turns: seq<Turn>) returns (ghost states: seq<State>)
      requires Valid() && Runs.Initial(Abs()) && forall i :: 0 <= i < |turns| ==> Runs.Timely(turns[i])
      modifies this, input, output, workers
      ensures Valid() && Runs.IsRun(states, turns) && states[0] == old(Abs()) && Abs() == states[|turns|]
    {
      hide Runs.IsRun;
      states := Runs.RunExists(Abs(), turns);
      Loop(turns, states);
    }
  }

  /** A change in slot `n` or later does not move the minimum over the slots before it. */
  lemma {:induction false} SameDeadlines(a: seq<Worker>, b: seq<Worker>, n: nat, base: int)
    requires |a| == |b| && n <= |a| && forall j :: 0 <= j < n ==> a[j] == b[j]
    ensures WorkerDeadline(a, n, base) == WorkerDeadline(b, n, base)
  {
    if n > 0 { SameDeadlines(a, b, n - 1, base); }
  }

  /** One slot further; the dead are left alone. */
  lemma {:induction false} ReapNext(s: State, i: nat, t: Turn)
    requires i < |s.workers| && s.fate.Running?
    ensures var s' := ReapOne(s, i, t.waits(i), t.traceable(i));
            |s'.workers| == |s.workers| && ReapFrom(s, i, t) == (if s'.fate.Died? then s' else ReapFrom(s', i + 1, t))
  {
    hide ReapOne;
    Spec.ReapOneKeeps(s, i, t.waits(i), t.traceable(i));
  }

  lemma {:induction false} ReapLast(s: State, t: Turn)
    ensures ReapFrom(s, |s.workers|, t) == s
  {}

  lemma {:induction false} NoDeadline(table: seq<Worker>, base: int)
    ensures WorkerDeadline(table, 0, base) == base
  {}

  lemma {:induction false} NextDeadline(table: seq<Worker>, n: nat, base: int)
    requires n < |table|
    ensures var d := WorkerDeadline(table, n, base);
            WorkerDeadline(table, n + 1, base) ==
            if !table[n].reaped && table[n].deadline < d then table[n].deadline else d
  {}

  /** The escaping loop of `result`: it fails on the first unprintable byte and never overruns its buffer. */
  method EscapeOutput(source: seq<byte>) returns (ok: bool, escaped: array<byte>, position: nat)
    requires |source| <= OUTPUT
    ensures ok <==> AllPrintable(source)
    ensures escaped.Length == OUTPUT * 2 + 1 && position < escaped.Length
    ensures ok ==> escaped[..position] == Escape(source)
  {
    hide Escape;
    escaped := new byte[OUTPUT * 2 + 1];
    position := 0;
    var i := 0;
    EscapeNothing();
    assert source[..0] == [];
    while i < |source|
      invariant i <= |source| && position <= 2 * i
      invariant AllPrintable(source[..i])
      invariant escaped[..position] == Escape(source[..i])
    {
      var value := source[i];
      ghost var before := escaped[..position];
      assert source[..i + 1] == source[..i] + [value];
      EscapeSnoc(source[..i], value);
      if value == NEWLINE {
        escaped[position], escaped[position + 1] := BACKSLASH, 110;
        position := position + 2;
        assert escaped[..position] == before + [BACKSLASH, 110] && EscapeOne(value) == [BACKSLASH, 110];
      } else if value == QUOTE || value == BACKSLASH {
        escaped[position], escaped[position + 1] := BACKSLASH, value;
        position := position + 2;
        assert escaped[..position] == before + [BACKSLASH, value] && EscapeOne(value) == [BACKSLASH, value];
      } else if 32 <= value < 127 {
        escaped[position] := value;
        position := position + 1;
        assert escaped[..position] == before + [value] && EscapeOne(value) == [value];
      } else {
        ok := false;
        return;
      }
      i := i + 1;
    }
    assert source[..i] == source;
    ok := true;
  }

  ghost predicate SomeFresh(table: seq<Worker>, draws: seq<nat>) {
    exists d :: d in draws && Fresh(table, d)
  }

  lemma {:induction false} DrawsHaveFresh(table: seq<Worker>, draws: seq<nat>)
    requires Runs.DrawsOk(table, draws)
    ensures SomeFresh(table, draws)
  {}

  /** One draw either is the first fresh handle or leaves it among the rest. */
  lemma {:induction false} NextDraw(table: seq<Worker>, draws: seq<nat>, k: nat)
    requires k <= |draws| && SomeFresh(table, draws[k..])
    ensures k < |draws|
    ensures Fresh(table, draws[k]) ==> FirstFresh(table, draws[k..]) == draws[k] && draws[k] != 0
    ensures !Fresh(table, draws[k]) ==>
              FirstFresh(table, draws[k..]) == FirstFresh(table, draws[k + 1..]) && SomeFresh(table, draws[k + 1..])
  {
    assert draws[k..] != [];
    Seqs.DropDrop(draws, k, 1);
    Seqs.Uncons(draws[k..]);
  }

  lemma {:induction false} EscapeNothing()
    ensures Escape([]) == []
  {}

  /** The `snprintf` of `result`, given the escaped output. */
  function StatusFormat(item: Worker, stage: Stage, escaped: seq<byte>): seq<byte> {
    ShowAll(AboutPieces(item, stage)[..17]) + ([QUOTE] + escaped + [QUOTE] + Label(Tail))
  }

  lemma {:induction false} FormatsStatus(index: nat, item: Worker, stage: Stage)
    ensures StatusFormat(item, stage, Escape(item.output)) == TextOf(About(index, item, stage))
  {
    hide Label;
    hide ShowAll;
    hide Escape;
    hide Ascii;
    LastPieces(item, stage);
    ShowAllAppend(AboutPieces(item, stage)[..17], [Text(item.output), Literal(Label(Tail))]);
    ShowTwo(Text(item.output), Literal(Label(Tail)));
  }

  lemma {:induction false} LastPieces(item: Worker, stage: Stage)
    ensures AboutPieces(item, stage) == AboutPieces(item, stage)[..17] + [Text(item.output), Literal(Label(Tail))]
  {
    hide Label;
    hide Ascii;
  }

  lemma {:induction false} ShowTwo(a: Piece, b: Piece)
    ensures ShowAll([a, b]) == Show(a) + Show(b)
  {
    hide Show;
    assert [a, b][1..] == [b] && [b][1..] == [];
    assert ShowAll([b]) == Show(b) + ShowAll([]);
  }
}
