/**
 * The control broker as a machine over values: what each phase of its event loop does to the state,
 * with every kernel answer (recv, send, waitpid, read, kill, spawn, clock, random) supplied as an argument.
 * Times are integer nanoseconds. `Broker.dfy` is the same program over its buffers, proved equal to this one.
 */
module BrokerSpec {
  import opened Bytes
  import opened BrokerWire
  import opened BrokerText

  const WORKERS := 8
  const OUTPUT := 1024
  const QUEUE := 4096
  const READ_SIZE := 256
  const MAX_REQUESTS := 64
  const MAX_FIXTURE := 5
  const SIGKILL := 9
  const SIGTERM := 15
  const SIGSTOP := 17
  const MILLISECOND := 1_000_000
  const SECOND := 1_000_000_000
  const RECONCILE := 50_000_000
  const HANDLES := 0x1_0000_0000_0000_0000

  // ---- Data ----

  datatype Reason = Completed | Timeout | Cancel | Signal
  datatype Stage = Launched | Exited | Signalled
  datatype Error = VersionError | OpcodeError | ReservedError | CapabilityError | AuthenticationError |
                   ArgumentsError | WorkerLimit | SignatureError | SpawnError | HandleError | WaitLimit

  datatype Status = ExitStatus(code: nat) | SignalStatus(signal: nat)

  datatype Worker = Worker(
    pid: int, handle: nat, deadline: int, mode: nat, open: bool, reaped: bool, status: Status, traced: bool,
    waitAccepted: bool, reason: Reason, output: seq<byte>)
  {
    /** Reaped, and its output pipe closed: nothing more can be learned about it. */
    predicate Done() { reaped && !open }
  }

  datatype Body = Authenticated | Rejected(error: Error) | About(index: nat, worker: Worker, stage: Stage)

  /** A queued reply and the number of the request it answers. */
  datatype Reply = Reply(request: nat, body: Body)

  /** The call to `die` that ended the broker. */
  datatype Cause = Oversize | QueueFull | Unprintable | SpawnSetup | TooManyRequests | KillFailed | PeerClosed |
                   ReceiveFailed | BadLength | WaitFailed | BadStop | TraceFailed | ReadFailed | OutputFull |
                   DeadlinePassed | SelectFailed | SendFailed | AcceptFailed
  datatype Fate = Running | Died(cause: Cause)

  datatype State = State(
    capability: seq<byte>, workers: seq<Worker>, client: bool, authenticated: bool, pending: int, requests: nat,
    input: seq<byte>, unsent: seq<byte>, partialDeadline: int, sessionDeadline: int, acceptDeadline: int,
    wake: int, fate: Fate,
    // History: bytes received, payloads dispatched, replies queued, bytes sent, the request the pending
    // wait belongs to, and the timeout kills each worker got.
    received: seq<byte>, log: seq<seq<byte>>, replies: seq<Reply>, sent: seq<byte>, waiting: nat, timeouts: seq<nat>)

  // ---- Environment ----

  datatype Spawn = SetupFailed | SpawnRefused | Spawned(pid: int)
  datatype RequestEnv = RequestEnv(signed: bool, spawn: Spawn, now: int, draws: seq<nat>, killed: bool)
  datatype Recv = RecvEof | RecvAgain | RecvError | RecvData(offered: seq<byte>)
  datatype Wait = WaitError | WaitNothing | WaitStopped(signal: nat) | WaitEnded(status: Status)
  datatype Send = SendAgain | SendError | SendTaken(room: nat)
  datatype Accept = AcceptAgain | AcceptError | Accepted(trusted: bool)
  datatype Select = SelectError | SelectInterrupted | SelectReady

  /** Every answer the environment gives during one turn of the loop; per-worker answers are indexed by slot. */
  datatype Turn = Turn(
    waits: nat -> Wait, traceable: nat -> bool, current: int, killable: nat -> bool, select: Select,
    readable: bool, recv: Recv, recvNow: int, request: RequestEnv, writable: bool, send: Send,
    listening: bool, accept: Accept, acceptNow: int, ready: nat -> bool, outputs: nat -> Recv)

  // ---- Replies ----

  function ReasonWord(r: Reason): string {
    match r
    case Completed => "completed"
    case Timeout => "timeout"
    case Cancel => "cancel"
    case Signal => "signal"
  }

  function StageWord(s: Stage): string {
    match s
    case Launched => "launched"
    case Exited => "exited"
    case Signalled => "signalled"
  }

  function ErrorWord(e: Error): string {
    match e
    case VersionError => "version"
    case OpcodeError => "opcode"
    case ReservedError => "reserved"
    case CapabilityError => "capability"
    case AuthenticationError => "authentication"
    case ArgumentsError => "arguments"
    case WorkerLimit => "worker-limit"
    case SignatureError => "signature"
    case SpawnError => "spawn"
    case HandleError => "handle"
    case WaitLimit => "wait-limit"
  }

  function ExitOf(w: Worker): int {
    if w.reaped && w.status.ExitStatus? then w.status.code else -1
  }

  function SignalOf(w: Worker): int {
    if w.reaped && w.status.SignalStatus? then w.status.signal else 0
  }

  datatype Key = HandleKey | PidKey | StateKey | DeadlineKey | ExitKey | SignalKey | TracedKey | ReasonKey |
                 OutputKey | Tail

  /** The literal stretches of the status format. */
  function Label(k: Key): seq<byte> {
    match k
    case HandleKey => Ascii("{\"version\":1,\"ok\":true,\"handle\":")
    case PidKey => Ascii(",\"pid\":")
    case StateKey => Ascii(",\"state\":")
    case DeadlineKey => Ascii(",\"deadline_ns\":")
    case ExitKey => Ascii(",\"exit\":")
    case SignalKey => Ascii(",\"signal\":")
    case TracedKey => Ascii(",\"traced\":")
    case ReasonKey => Ascii(",\"reason\":")
    case OutputKey => Ascii(",\"output\":")
    case Tail => Ascii("}")
  }

  function AboutPieces(w: Worker, stage: Stage): (pieces: seq<Piece>)
    ensures |pieces| == 19
  {
    [Literal(Label(HandleKey)), Number(w.handle), Literal(Label(PidKey)), Number(w.pid),
     Literal(Label(StateKey)), Word(Ascii(StageWord(stage))), Literal(Label(DeadlineKey)), Number(w.deadline),
     Literal(Label(ExitKey)), Number(ExitOf(w)), Literal(Label(SignalKey)), Number(SignalOf(w)),
     Literal(Label(TracedKey)), Flag(w.traced), Literal(Label(ReasonKey)), Word(Ascii(ReasonWord(w.reason))),
     Literal(Label(OutputKey)), Text(w.output), Literal(Label(Tail))]
  }

  function TextOf(body: Body): seq<byte> {
    match body
    case Authenticated => Ascii("{\"version\":1,\"ok\":true,\"state\":\"authenticated\"}")
    case Rejected(error) =>
      Ascii("{\"version\":1,\"ok\":false,\"error\":\"") + Ascii(ErrorWord(error)) + Ascii("\"}")
    case About(_, worker, stage) => ShowAll(AboutPieces(worker, stage))
  }

  /** The bytes left by `snprintf` into the buffer each kind of reply is formatted in. */
  function Formatted(body: Body): seq<byte> {
    var text := TextOf(body);
    match body
    case Authenticated => text
    case Rejected(_) => text[..Min(|text|, 127)]
    case About(_, _, _) => text[..Min(|text|, 2299)]
  }

  function Texts(replies: seq<Reply>): (texts: seq<seq<byte>>)
    ensures |texts| == |replies|
    ensures forall k :: 0 <= k < |replies| ==> texts[k] == TextOf(replies[k].body)
  {
    seq(|replies|, k requires 0 <= k < |replies| => TextOf(replies[k].body))
  }

  // ---- Phases ----

  function Die(s: State, cause: Cause): State {
    s.(fate := Died(cause))
  }

  /** `queue`: the unsent bytes, if the reply and its prefix still fit. */
  function Queue(s: State, reply: Reply): State {
    var text := Formatted(reply.body);
    if |text| > REPLY_LIMIT then Die(s, Oversize)
    else if |text| + 4 > QUEUE - |s.unsent| then Die(s, QueueFull)
    else s.(unsent := s.unsent + Frame(text), replies := s.replies + [reply])
  }

  predicate AllPrintable(output: seq<byte>) {
    forall i :: 0 <= i < |output| ==> Printable(output[i])
  }

  /** `result`. */
  function Result(s: State, request: nat, index: nat, stage: Stage): State
    requires index < |s.workers|
  {
    if !AllPrintable(s.workers[index].output) then Die(s, Unprintable)
    else Queue(s, Reply(request, About(index, s.workers[index], stage)))
  }

  predicate Fresh(workers: seq<Worker>, handle: nat) {
    handle != 0 && forall i :: 0 <= i < |workers| ==> workers[i].handle != handle
  }

  /** The first draw that is nonzero and new; 0 if the draws run out (`Legal` rules that out). */
  function FirstFresh(workers: seq<Worker>, draws: seq<nat>): (handle: nat)
    ensures (exists d :: d in draws && Fresh(workers, d)) ==> Fresh(workers, handle) && handle in draws
  {
    if draws == [] then 0
    else if Fresh(workers, draws[0]) then draws[0]
    else
      assert forall d :: d in draws && Fresh(workers, d) ==> d in draws[1..];
      FirstFresh(workers, draws[1..])
  }

  function Launch(s: State, request: nat, mode: nat, timeout: nat, env: RequestEnv): State {
    if |s.workers| >= WORKERS then Queue(s, Reply(request, Rejected(WorkerLimit)))
    else if !env.signed then Queue(s, Reply(request, Rejected(SignatureError)))
    else match env.spawn
      case SetupFailed => Die(s, SpawnSetup)
      case SpawnRefused => Queue(s, Reply(request, Rejected(SpawnError)))
      case Spawned(pid) =>
        var w := Worker(pid, FirstFresh(s.workers, env.draws), env.now + timeout * MILLISECOND, mode, true,
                        false, ExitStatus(0), false, false, Completed, []);
        Result(s.(workers := s.workers + [w], timeouts := s.timeouts + [0]), request, |s.workers|, Launched)
  }

  function Find(workers: seq<Worker>, handle: nat): (index: nat)
    ensures index <= |workers|
    ensures index < |workers| ==> workers[index].handle == handle
    ensures forall i :: 0 <= i < index ==> workers[i].handle != handle
  {
    if workers == [] || workers[0].handle == handle then 0 else 1 + Find(workers[1..], handle)
  }

  /** The checks every request passes before its opcode is looked at, in their order. */
  function Refusal(f: Fields, capable: bool, authenticated: bool): Option<Error> {
    if f.version != 1 then Some(VersionError)
    else if f.opcode > 4 then Some(OpcodeError)
    else if f.reserved != 0 then Some(ReservedError)
    else if !capable then Some(CapabilityError)
    else if !authenticated && f.opcode != 0 then Some(AuthenticationError)
    else None
  }

  /** The fields an opcode does not use must be zero, and those it uses in range. */
  predicate ArgumentsRight(f: Fields, authenticated: bool) {
    match f.opcode
    case 0 => !authenticated && f.handle == 0 && f.argument == 0 && f.timeout == 0
    case 1 => f.handle == 0 && 1 <= f.argument <= MAX_FIXTURE && 50 <= f.timeout <= 5000
    case _ => f.timeout == 0 && (f.opcode != 3 ==> f.argument == 0) &&
              (f.opcode == 3 ==> f.argument == SIGTERM || f.argument == SIGKILL)
  }

  function Request(s0: State, data: seq<byte>, env: RequestEnv): State
    requires |data| == PAYLOAD && |s0.capability| == 32
  {
    var request := s0.requests;
    var s := s0.(requests := s0.requests + 1, log := s0.log + [data]);
    if s.requests > MAX_REQUESTS then Die(s, TooManyRequests) else
    var f := DecodeFields(data);
    match Refusal(f, data[20..] == s.capability, s.authenticated)
    case Some(error) => Queue(s, Reply(request, Rejected(error)))
    case None => Dispatch(s, request, f, env)
  }

  /** `request` after the common checks. */
  function Dispatch(s: State, request: nat, f: Fields, env: RequestEnv): State {
    if !ArgumentsRight(f, s.authenticated) then Queue(s, Reply(request, Rejected(ArgumentsError)))
    else if f.opcode == 0 then Queue(s.(authenticated := true), Reply(request, Authenticated))
    else if f.opcode == 1 then Launch(s, request, f.argument, f.timeout, env)
    else
      var index := Find(s.workers, f.handle);
      if index == |s.workers| then Queue(s, Reply(request, Rejected(HandleError)))
      else if f.opcode == 2 then AcceptWait(s, request, index)
      else Control(s, request, index, f, env)
  }

  /** Opcode 2: answered at once for a finished worker, otherwise deferred as the one pending wait. */
  function AcceptWait(s: State, request: nat, index: nat): State
    requires index < |s.workers|
  {
    if s.pending >= 0 then Queue(s, Reply(request, Rejected(WaitLimit)))
    else
      var w := s.workers[index].(waitAccepted := true);
      var s1 := s.(workers := s.workers[index := w]);
      if w.Done() then Result(s1, request, index, Exited) else s1.(pending := index, waiting := request)
  }

  /** Opcodes 3 (signal) and 4 (cancel). */
  function Control(s: State, request: nat, index: nat, f: Fields, env: RequestEnv): State
    requires index < |s.workers|
  {
    var w := s.workers[index];
    if w.reaped then Result(s, request, index, Exited)
    else if !env.killed then Die(s, KillFailed)
    else
      var w1 := w.(reason := if f.opcode == 4 then Cancel else Signal,
                   deadline := if f.opcode == 4 || f.argument == SIGKILL then s.sessionDeadline else w.deadline);
      Result(s.(workers := s.workers[index := w1]), request, index, Signalled)
  }

  /** The bytes one `recv` or `read` returns: at most what was asked for. */
  function Fragment(offered: seq<byte>, room: nat): (chunk: seq<byte>)
    ensures |chunk| == Min(|offered|, room)
  {
    offered[..Min(|offered|, room)]
  }

  function Receive(s: State, recv: Recv, now: int, env: RequestEnv): State
    requires |s.input| < FRAME && |s.capability| == 32
  {
    var target := if |s.input| < 4 then 4 else FRAME;
    match recv
    case RecvEof => Die(s, PeerClosed)
    case RecvAgain => s
    case RecvError => Die(s, ReceiveFailed)
    case RecvData(offered) =>
      var chunk := Fragment(offered, target - |s.input|);
      if chunk == [] then Die(s, PeerClosed) else
      var s1 := s.(partialDeadline := if s.input == [] then now + SECOND else s.partialDeadline,
                   input := s.input + chunk, received := s.received + chunk);
      Gathered(s1, env)
  }

  /** `receive` once the bytes are in the buffer. */
  function Gathered(s: State, env: RequestEnv): State
    requires |s.input| <= FRAME && |s.capability| == 32
  {
    if |s.input| >= 4 && Integer(s.input[..4]) != PAYLOAD then Die(s, BadLength)
    else if |s.input| == FRAME then
      var s1 := Request(s, s.input[4..], env);
      if s1.fate.Died? then s1 else s1.(input := [], partialDeadline := 0)
    else s
  }

  function ReapOne(s: State, i: nat, wait: Wait, traceable: bool): State
    requires i < |s.workers|
  {
    var w := s.workers[i];
    if w.reaped then s else
    match wait
    case WaitError => Die(s, WaitFailed)
    case WaitNothing => s
    case WaitEnded(status) => s.(workers := s.workers[i := w.(status := status, reaped := true)])
    case WaitStopped(signal) =>
      if !w.traced && signal != SIGSTOP then Die(s, BadStop) else
      var s1 := s.(workers := s.workers[i := w.(traced := true)]);
      if !w.traced && w.mode == 4 then s1 else if traceable then s1 else Die(s1, TraceFailed)
  }

  function ReapFrom(s: State, i: nat, t: Turn): (s': State)
    requires i <= |s.workers|
    decreases |s.workers| - i
  {
    if i == |s.workers| || s.fate.Died? then s
    else ReapFrom(ReapOne(s, i, t.waits(i), t.traceable(i)), i + 1, t)
  }

  predicate Overdue(s: State, current: int) {
    current >= s.sessionDeadline || (!s.client && current >= s.acceptDeadline) ||
    (s.partialDeadline != 0 && current >= s.partialDeadline)
  }

  function ExpireOne(s: State, i: nat, current: int, killable: bool): State
    requires i < |s.workers| == |s.timeouts|
  {
    var w := s.workers[i];
    if w.reaped || current < w.deadline then s
    else if !killable then Die(s, KillFailed)
    else s.(workers := s.workers[i := w.(reason := Timeout, deadline := s.sessionDeadline)],
            timeouts := s.timeouts[i := s.timeouts[i] + 1])
  }

  function ExpireFrom(s: State, i: nat, t: Turn): (s': State)
    requires i <= |s.workers| == |s.timeouts|
    decreases |s.workers| - i
  {
    if i == |s.workers| || s.fate.Died? then s
    else ExpireFrom(ExpireOne(s, i, t.current, t.killable(i)), i + 1, t)
  }

  /** The deadline before workers are looked at: session, accept while there is no client, partial frame. */
  function BaseDeadline(s: State): int {
    var d := if !s.client && s.acceptDeadline < s.sessionDeadline then s.acceptDeadline else s.sessionDeadline;
    if s.partialDeadline != 0 && s.partialDeadline < d then s.partialDeadline else d
  }

  /** The running minimum `expire_workers` keeps over the first `n` workers. */
  function WorkerDeadline(workers: seq<Worker>, n: nat, base: int): int
    requires n <= |workers|
  {
    if n == 0 then base
    else
      var d := WorkerDeadline(workers, n - 1, base);
      if !workers[n - 1].reaped && workers[n - 1].deadline < d then workers[n - 1].deadline else d
  }

  function ReconcileDeadline(workers: seq<Worker>, current: int, deadline: int): int {
    if (exists i :: 0 <= i < |workers| && !workers[i].reaped) && current + RECONCILE < deadline
    then current + RECONCILE else deadline
  }

  function WakeTime(s: State, current: int): int {
    ReconcileDeadline(s.workers, current, WorkerDeadline(s.workers, |s.workers|, BaseDeadline(s)))
  }

  function AnswerPending(s: State): State
    requires s.pending < |s.workers|
  {
    if s.pending >= 0 && s.workers[s.pending].Done() then
      var s1 := Result(s, s.waiting, s.pending, Exited);
      if s1.fate.Died? then s1 else s1.(pending := -1)
    else s
  }

  function SendSome(s: State, send: Send): State {
    match send
    case SendAgain => s
    case SendError => Die(s, SendFailed)
    case SendTaken(room) =>
      var n := Min(room, |s.unsent|);
      if n == 0 then Die(s, SendFailed) else s.(sent := s.sent + s.unsent[..n], unsent := s.unsent[n..])
  }

  function AcceptOne(s: State, accept: Accept, now: int): State {
    match accept
    case AcceptAgain => s
    case AcceptError => Die(s, AcceptFailed)
    case Accepted(trusted) =>
      if s.client || !trusted then s else s.(client := true, partialDeadline := now + SECOND)
  }

  function DrainOne(s: State, i: nat, read: Recv): State
    requires i < |s.workers|
  {
    var w := s.workers[i];
    match read
    case RecvEof => s.(workers := s.workers[i := w.(open := false)])
    case RecvAgain => s
    case RecvError => Die(s, ReadFailed)
    case RecvData(offered) =>
      var chunk := Fragment(offered, READ_SIZE);
      if chunk == [] then s.(workers := s.workers[i := w.(open := false)])
      else if |chunk| > OUTPUT - |w.output| then Die(s, OutputFull)
      else s.(workers := s.workers[i := w.(output := w.output + chunk)])
  }

  function DrainFrom(s: State, i: nat, t: Turn): (s': State)
    requires i <= |s.workers|
    decreases |s.workers| - i
  {
    if i == |s.workers| || s.fate.Died? then s
    else DrainFrom(if s.workers[i].open && t.ready(i) then DrainOne(s, i, t.outputs(i)) else s, i + 1, t)
  }

  /** From the top of the loop to `select`. */
  function Prepare(s: State, t: Turn): State
    requires |s.workers| == |s.timeouts| && s.pending < |s.workers|
  {
    var s1 := ReapFrom(s, 0, t);
    if s1.fate.Died? then s1
    else if Overdue(s1, t.current) then Die(s1, DeadlinePassed) else
    ReapFromKeeps(s, 0, t);
    var s2 := Schedule(s1, t);
    if s2.fate.Died? then s2 else
    ExpireFromKeeps(s1, 0, t);
    AnswerPending(s2)
  }

  /** Expiry, and the deadline `select` may sleep to. */
  function Schedule(s: State, t: Turn): State
    requires |s.workers| == |s.timeouts|
  {
    var s1 := ExpireFrom(s, 0, t);
    if s1.fate.Died? then s1 else s1.(wake := WakeTime(s1, t.current))
  }

  /** From `select` to the bottom of the loop. */
  function Serve(s: State, t: Turn): State
    requires |s.input| < FRAME && |s.capability| == 32
  {
    match t.select
    case SelectError => Die(s, SelectFailed)
    case SelectInterrupted => s
    case SelectReady =>
      var s1 := if s.client && t.readable then Receive(s, t.recv, t.recvNow, t.request) else s;
      if s1.fate.Died? then s1 else
      var s2 := if s1.client && s.unsent != [] && t.writable then SendSome(s1, t.send) else s1;
      if s2.fate.Died? then s2 else
      var s3 := if t.listening then AcceptOne(s2, t.accept, t.acceptNow) else s2;
      DrainFrom(s3, 0, t)
  }

  /** One turn of the endless loop. */
  function Step(s: State, t: Turn): State
    requires |s.workers| == |s.timeouts| && s.pending < |s.workers| && |s.input| < FRAME && |s.capability| == 32
  {
    var p := Prepare(s, t);
    PrepareKeeps(s, t);
    if p.fate.Died? then p else Serve(p, t)
  }

  lemma {:induction false} ReapOneKeeps(s: State, i: nat, wait: Wait, traceable: bool)
    requires i < |s.workers|
    ensures var s' := ReapOne(s, i, wait, traceable);
            s' == s.(workers := s'.workers, fate := s'.fate) && |s'.workers| == |s.workers|
  {}

  /** Reaping touches the worker table only. */
  lemma {:induction false} ReapFromKeeps(s: State, i: nat, t: Turn)
    requires i <= |s.workers|
    ensures var s' := ReapFrom(s, i, t);
            s' == s.(workers := s'.workers, fate := s'.fate) && |s'.workers| == |s.workers|
    decreases |s.workers| - i
  {
    if i < |s.workers| && s.fate.Running? {
      ReapOneKeeps(s, i, t.waits(i), t.traceable(i));
      var s1 := ReapOne(s, i, t.waits(i), t.traceable(i));
      ReapFromKeeps(s1, i + 1, t);
    }
  }

  /** Expiring touches the worker table and its timeout counts only. */
  lemma {:induction false} ExpireFromKeeps(s: State, i: nat, t: Turn)
    requires i <= |s.workers| == |s.timeouts|
    ensures var s' := ExpireFrom(s, i, t);
            && s' == s.(workers := s'.workers, timeouts := s'.timeouts, fate := s'.fate)
            && |s'.workers| == |s.workers| == |s'.timeouts|
    decreases |s.workers| - i
  {
    if i < |s.workers| && s.fate.Running? {
      ExpireFromKeeps(ExpireOne(s, i, t.current, t.killable(i)), i + 1, t);
    }
  }

  lemma {:induction false} PrepareKeeps(s: State, t: Turn)
    requires |s.workers| == |s.timeouts| && s.pending < |s.workers|
    ensures var s' := Prepare(s, t); s'.input == s.input && s'.capability == s.capability
  {
    hide Result;
    ReapFromKeeps(s, 0, t);
    hide ReapFrom;
    ExpireFromKeeps(ReapFrom(s, 0, t), 0, t);
    hide ExpireFrom;
    var s2 := ExpireFrom(ReapFrom(s, 0, t), 0, t);
    hide WakeTime;
    if 0 <= s.pending { ResultKeeps(s2.(wake := WakeTime(s2, t.current)), s2.waiting, s2.pending, Exited); }
  }

  /** Answering touches the output only. */
  lemma {:induction false} ResultKeeps(s: State, request: nat, index: nat, stage: Stage)
    requires index < |s.workers|
    ensures var s' := Result(s, request, index, stage);
            s' == s.(unsent := s'.unsent, replies := s'.replies, fate := s'.fate)
  {
    hide Formatted;
  }
}
