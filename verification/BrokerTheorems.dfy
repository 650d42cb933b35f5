/** What the broker promises its client, read off the run invariant. */
module BrokerTheorems {
  import opened Bytes
  import opened BrokerWire
  import opened BrokerText
  import opened BrokerSpec
  import opened BrokerRuns

  lemma {:induction false} UptoCounts(n: nat, j: nat)
    ensures Upto(n)[j] == if j < n then 1 else 0
  {
    if n > 0 { UptoCounts(n - 1, j); }
  }

  lemma {:induction false} NumbersFind(replies: seq<Reply>, j: nat)
    ensures Numbers(replies)[j] > 0 <==> exists k :: 0 <= k < |replies| && replies[k].request == j
  {
    if replies != [] {
      var front := replies[..|replies| - 1];
      NumbersFind(front, j);
      if k :| 0 <= k < |front| && front[k].request == j { assert replies[k].request == j; }
      if k :| 0 <= k < |replies| && replies[k].request == j {
        if k < |front| { assert front[k].request == j; }
      }
    }
  }

  lemma {:induction false} NumbersTwice(replies: seq<Reply>, a: nat, b: nat)
    requires a < b < |replies| && replies[a].request == replies[b].request
    ensures Numbers(replies)[replies[a].request] >= 2
  {
    var front := replies[..|replies| - 1];
    if b < |front| {
      NumbersTwice(front, a, b);
    } else {
      NumbersFind(front, replies[a].request);
      assert front[a].request == replies[a].request;
    }
  }

  /** While the broker lives every request has exactly one reply, except the pending wait, which has none yet. */
  lemma {:induction false} EveryRequestAnsweredOnce(states: seq<State>, turns: seq<Turn>, i: nat, j: nat)
    requires IsRun(states, turns) && i < |states| && states[i].fate.Running? && j < states[i].requests
    ensures var s := states[i];
            && (s.pending >= 0 && s.waiting == j <==> !exists k :: 0 <= k < |s.replies| && s.replies[k].request == j)
            && forall a, b :: 0 <= a < b < |s.replies| ==> s.replies[a].request != s.replies[b].request
  {
    hide IsRun;
    hide Core;
    hide FramesOk;
    hide Evolves;
    RunSafety(states, turns, i, i);
    var s := states[i];
    UptoCounts(s.requests, j);
    NumbersFind(s.replies, j);
    forall a, b | 0 <= a < b < |s.replies| ensures s.replies[a].request != s.replies[b].request {
      UptoCounts(s.requests, s.replies[a].request);
      if s.replies[a].request == s.replies[b].request { NumbersTwice(s.replies, a, b); }
    }
  }

  /** Dead or alive: a wait that got a status reply got it for its own worker, after reaping and output close. */
  lemma {:induction false} WaitAnsweredForItsWorker(states: seq<State>, turns: seq<Turn>, i: nat, k: nat)
    requires IsRun(states, turns) && i < |states| && k < |states[i].replies|
    requires states[i].replies[k].body.About?
    ensures var s := states[i]; var r := s.replies[k];
            && r.request < |s.log| && |s.log[r.request]| == PAYLOAD
            && r.body.index < |s.workers| && r.body.worker.handle == s.workers[r.body.index].handle
            && var f := DecodeFields(s.log[r.request]);
               && (f.opcode != 1 ==> f.handle == s.workers[r.body.index].handle)
               && (f.opcode == 2 ==> r.body.worker.Done() && r.body.stage == Exited)
  {
    hide IsRun;
    hide SlotsOk;
    hide QueueOk;
    hide FramesOk;
    hide AnswersOk;
    hide Evolves;
    hide DecodeFields;
    RunSafety(states, turns, i, i);
    assert ReplyOk(states[i], states[i].replies[k]);
  }

  /** The dispatched payloads depend on the bytes received alone, not on how they were cut up or when they came. */
  lemma {:induction false} FragmentationIndependent(
    states: seq<State>, turns: seq<Turn>, i: nat, states': seq<State>, turns': seq<Turn>, i': nat)
    requires IsRun(states, turns) && i < |states| && IsRun(states', turns') && i' < |states'|
    requires states[i].received == states'[i'].received
    ensures states[i].log == states'[i'].log == Parse(states[i].received).frames
    ensures states[i].fate == Died(BadLength) <==> states'[i'].fate == Died(BadLength)
    ensures states[i].fate == Died(BadLength) <==> Parse(states[i].received).bad
    ensures states[i].fate == Died(BadLength) ==> |states[i].received| == FRAME * |states[i].log| + 4
    ensures states[i].fate.Running? ==> states[i].input == Parse(states[i].received).residue
  {
    hide IsRun;
    hide Core;
    hide AnswersOk;
    hide Evolves;
    hide Parse;
    RunSafety(states, turns, i, i);
    RunSafety(states', turns', i', i');
  }

  /** Bytes on the wire, then bytes still queued, are the replies in order; the client reads a prefix of them. */
  lemma {:induction false} ClientSeesReplies(states: seq<State>, turns: seq<Turn>, i: nat)
    requires IsRun(states, turns) && i < |states|
    ensures var s := states[i];
            && s.sent + s.unsent == Wire(Texts(s.replies)) && |s.unsent| <= QUEUE
            && ReadReplies(s.sent).Some? && ReadReplies(s.sent).value <= Texts(s.replies)
            && (s.unsent == [] ==> ReadReplies(s.sent).value == Texts(s.replies))
  {
    hide IsRun;
    hide SlotsOk;
    hide RepliesOk;
    hide FramesOk;
    hide AnswersOk;
    hide Evolves;
    hide TextOf;
    RunSafety(states, turns, i, i);
    var s := states[i];
    ClientReadsReplies(Texts(s.replies), |s.sent|);
    assert s.sent == Wire(Texts(s.replies))[..|s.sent|];
  }

  /** Once a worker is reaped and its output closed, all replies about it read the same. */
  lemma {:induction false} FinishedRepliesIdentical(states: seq<State>, turns: seq<Turn>, i: nat, a: nat, b: nat)
    requires IsRun(states, turns) && i < |states| && a <= b < |states[i].replies|
    requires states[i].replies[a].body.About? && states[i].replies[b].body.About?
    requires states[i].replies[a].body.index == states[i].replies[b].body.index
    requires states[i].replies[a].body.worker.Done()
    ensures TextOf(states[i].replies[a].body) == TextOf(states[i].replies[b].body)
  {
    hide IsRun;
    hide SlotsOk;
    hide QueueOk;
    hide FramesOk;
    hide AnswersOk;
    hide Evolves;
    hide DecodeFields;
    RunSafety(states, turns, i, i);
    var s := states[i];
    assert ReplyOk(s, s.replies[a]) && ReplyOk(s, s.replies[b]);
    var w, w' := s.replies[a].body.worker, s.replies[b].body.worker;
    assert w' == w.(waitAccepted := w'.waitAccepted);
    SameTextWithoutWait(s.replies[a].body, s.replies[b].body);
  }

  lemma {:induction false} SameTextWithoutWait(x: Body, y: Body)
    requires x.About? && y.About? && x.stage == y.stage
    requires y.worker == x.worker.(waitAccepted := y.worker.waitAccepted)
    ensures TextOf(x) == TextOf(y)
  {
    hide Label;
    hide Ascii;
    hide ShowAll;
  }

  /** Handles identify workers over the whole run: nonzero, never shared, never changed; eight workers at most. */
  lemma {:induction false} HandlesIdentify(states: seq<State>, turns: seq<Turn>, i: nat, j: nat, a: nat, b: nat)
    requires IsRun(states, turns) && i <= j < |states|
    requires a < |states[i].workers| && b < |states[j].workers|
    ensures |states[i].workers| <= |states[j].workers| <= WORKERS
    ensures states[i].workers[a].handle != 0
    ensures states[i].workers[a].handle == states[j].workers[b].handle <==> a == b
  {
    hide IsRun;
    hide QueueOk;
    hide RepliesOk;
    hide FramesOk;
    hide AnswersOk;
    RunSafety(states, turns, i, j);
    assert WorkerEvolves(states[i].workers[a], states[j].workers[a], states[i].sessionDeadline);
    if a != b {
      var lo, hi := if a < b then a else b, if a < b then b else a;
      assert states[j].workers[lo].handle != states[j].workers[hi].handle;
    }
  }

  /** At most one timeout kill per worker, and none once a cancel was accepted. */
  lemma {:induction false} TimersFireOnce(states: seq<State>, turns: seq<Turn>, i: nat, j: nat, a: nat)
    requires IsRun(states, turns) && i <= j < |states| && a < |states[i].workers|
    ensures a < |states[j].workers| && |states[j].timeouts| == |states[j].workers| && states[j].timeouts[a] <= 1
    ensures states[i].workers[a].reason == Cancel ==> states[j].workers[a].reason != Timeout
    ensures states[i].workers[a].reason == Cancel ==> states[j].workers[a].deadline == states[j].sessionDeadline
    ensures states[i].workers[a].reaped ==>
              states[j].workers[a].reaped && states[j].workers[a].status == states[i].workers[a].status
  {
    hide IsRun;
    hide SlotsOk;
    hide QueueOk;
    hide RepliesOk;
    hide FramesOk;
    hide AnswersOk;
    RunSafety(states, turns, i, j);
    assert WorkerEvolves(states[i].workers[a], states[j].workers[a], states[i].sessionDeadline);
  }

  /**
   * In every turn of every run that reaches `select`, the broker may sleep exactly to the earliest of its deadlines,
   * and that deadline is strictly in the future.
   */
  lemma {:induction false} SleepsToEarliest(states: seq<State>, turns: seq<Turn>, i: nat)
    requires IsRun(states, turns) && i < |turns| && i < |states| && states[i].fate.Running?
    ensures Shaped(states[i])
    ensures var p := Prepare(states[i], turns[i]); p.fate.Running? ==> Sleeps(p, turns[i].current)
  {
    hide IsRun;
    hide Inv;
    hide Evolves;
    hide Prepare;
    RunSafety(states, turns, i, i);
    InvShapes(states[i]);
    PrepareInv(states[i], turns[i]);
  }

  // ---- Reply texts ----

  lemma {:induction false} WordsPlain(stage: Stage, reason: Reason)
    ensures forall i :: 0 <= i < |StageWord(stage)| ==> Plain(Ascii(StageWord(stage))[i])
    ensures forall i :: 0 <= i < |ReasonWord(reason)| ==> Plain(Ascii(ReasonWord(reason))[i])
  {}

  /** A label after a number begins with a comma. */
  lemma {:induction false} LabelComma(k: Key)
    requires k.PidKey? || k.StateKey? || k.ExitKey? || k.SignalKey? || k.TracedKey?
    ensures Label(k) != [] && Label(k)[0] == 44
  {}

  lemma {:induction false} AboutReadable(w: Worker, stage: Stage)
    requires AllPrintable(w.output)
    ensures Readable(AboutPieces(w, stage))
  {
    hide Label;
    hide Ascii;
    hide StageWord;
    hide ReasonWord;
    hide Plain;
    hide Printable;
    WordsPlain(stage, w.reason);
    LabelComma(PidKey);
    LabelComma(StateKey);
    LabelComma(ExitKey);
    LabelComma(SignalKey);
    LabelComma(TracedKey);
  }

  /**
   * A status reply survives the wire: reading its text by the format's own shape gives back the handle, pid, state,
   * deadline, exit, signal, trace flag, reason and the worker's exact output bytes.
   */
  lemma {:induction false} StatusSurvives(body: Body, shape: Worker, stage: Stage)
    requires body.About? && AllPrintable(body.worker.output)
    ensures ReadAll(AboutPieces(shape, stage), TextOf(body)) == Some(AboutPieces(body.worker, body.stage))
  {
    hide Label;
    hide Ascii;
    hide Readable;
    hide ShowAll;
    hide ReadAll;
    AboutReadable(body.worker, body.stage);
    ReadInvertsShow(AboutPieces(shape, stage), AboutPieces(body.worker, body.stage));
  }

  /** Nothing cut short by `snprintf` is ever queued: every queued text is whole, and inside the client's limit. */
  lemma {:induction false} QueuedTextsWhole(states: seq<State>, turns: seq<Turn>, i: nat, k: nat)
    requires IsRun(states, turns) && i < |states| && k < |states[i].replies|
    ensures 1 <= |TextOf(states[i].replies[k].body)| <= REPLY_LIMIT
    ensures Formatted(states[i].replies[k].body) == TextOf(states[i].replies[k].body)
  {
    hide IsRun;
    hide SlotsOk;
    hide RepliesOk;
    hide FramesOk;
    hide AnswersOk;
    hide Evolves;
    hide TextOf;
    RunSafety(states, turns, i, i);
    var body := states[i].replies[k].body;
    FormattedNoLonger(body);
    QueuedWhole(body);
  }

  lemma {:induction false} FormattedNoLonger(body: Body)
    ensures |Formatted(body)| <= |TextOf(body)|
  {
    hide TextOf;
  }

  // ---- Which outputs kill the broker ----

  /** How many bytes take two inside the reply. */
  function Doubled(output: seq<byte>): nat {
    if output == [] then 0 else |EscapeOne(output[0])| - 1 + Doubled(output[1..])
  }

  /** The size of the text without output, of the output, and of what escaping adds to it. */
  function StatusSize(index: nat, w: Worker, stage: Stage): nat {
    |TextOf(About(index, w.(output := []), stage))| + |w.output| + Doubled(w.output)
  }

  lemma {:induction false} EscapeLength(output: seq<byte>)
    ensures |Escape(output)| == |output| + Doubled(output)
  {
    hide EscapeOne;
    if output != [] { EscapeLength(output[1..]); }
  }

  lemma {:induction false} StatusLength(index: nat, w: Worker, stage: Stage)
    ensures |TextOf(About(index, w, stage))| == StatusSize(index, w, stage)
  {
    hide Label;
    hide Ascii;
    hide StageWord;
    hide ReasonWord;
    hide Signed;
    var full, bare := AboutPieces(w, stage), AboutPieces(w.(output := []), stage);
    var front, tail := full[..17], full[18..];
    assert full == front + ([Text(w.output)] + tail);
    assert bare == front + ([Text([])] + tail);
    EscapeLength(w.output);
    hide AboutPieces;
    ShowAllAppend(front, [Text(w.output)] + tail);
    ShowAllAppend([Text(w.output)], tail);
    ShowAllAppend(front, [Text([])] + tail);
    ShowAllAppend([Text([])], tail);
    OnePieceLength(w.output);
    OnePieceLength([]);
    hide ShowAll;
    hide Show;
  }

  lemma {:induction false} OnePieceLength(value: seq<byte>)
    ensures |ShowAll([Text(value)])| == |Escape(value)| + 2 && Escape([]) == []
  {
    assert [Text(value)][1..] == [];
    hide Escape;
  }

  /** The output is printable, and the status text of that size is within the limit and has room left in the queue. */
  predicate Answerable(s: State, index: nat, stage: Stage)
    requires index < |s.workers|
  {
    var w := s.workers[index];
    var size := StatusSize(index, w, stage);
    AllPrintable(w.output) && size <= REPLY_LIMIT && size + 4 <= QUEUE - |s.unsent|
  }

  lemma {:induction false} FormattedOver(body: Body)
    ensures |Formatted(body)| <= REPLY_LIMIT <==> |TextOf(body)| <= REPLY_LIMIT
  {
    FormattedNoLonger(body);
    if |Formatted(body)| <= REPLY_LIMIT { QueuedWhole(body); }
    hide Formatted;
    hide TextOf;
  }

  /**
   * A status reply is queued exactly under that condition; otherwise the broker dies, of the first reason that applies.
   */
  lemma {:induction false} ResultExactly(s: State, request: nat, index: nat, stage: Stage)
    requires index < |s.workers| && s.fate.Running?
    ensures var t := Result(s, request, index, stage);
            var body := About(index, s.workers[index], stage);
            && (t.fate.Running? <==> Answerable(s, index, stage))
            && (t.fate.Running? ==>
                t == s.(unsent := s.unsent + Frame(TextOf(body)), replies := s.replies + [Reply(request, body)]))
            && (!t.fate.Running? ==> t == Die(s, t.fate.cause) && t.fate.cause in {Unprintable, Oversize, QueueFull})
            && (t.fate == Died(Unprintable) <==> !AllPrintable(s.workers[index].output))
            && (t.fate == Died(Oversize) <==>
                AllPrintable(s.workers[index].output) && StatusSize(index, s.workers[index], stage) > REPLY_LIMIT)
  {
    var body := About(index, s.workers[index], stage);
    StatusLength(index, s.workers[index], stage);
    FormattedOver(body);
    if |Formatted(body)| <= REPLY_LIMIT { QueuedWhole(body); }
    hide Formatted;
    hide TextOf;
    hide StatusSize;
    hide AllPrintable;
    hide Frame;
  }

  /** Some of what the buffer accepts cannot be reported: a worker that writes nothing but newlines kills the broker. */
  lemma {:induction false} NewlinesKill(s: State, request: nat, index: nat, stage: Stage)
    requires index < |s.workers| && s.fate.Running?
    requires s.workers[index].output == seq(OUTPUT, _ => NEWLINE)
    ensures AllPrintable(s.workers[index].output) && |s.workers[index].output| <= OUTPUT
    ensures Result(s, request, index, stage) == Die(s, Oversize)
  {
    var w := s.workers[index];
    AllDoubled(w.output);
    StatusLength(index, w, stage);
    TextNonempty(About(index, w.(output := []), stage));
    ResultExactly(s, request, index, stage);
    hide TextOf;
    hide Formatted;
    hide Doubled;
  }

  /** So many reads of 256 newlines from this worker. */
  function Drained(s: State, index: nat, times: nat): (t: State)
    requires index < |s.workers|
    ensures |t.workers| == |s.workers|
  {
    if times == 0 then s
    else DrainOne(Drained(s, index, times - 1), index, RecvData(seq(READ_SIZE, _ => NEWLINE)))
  }

  /** The broker takes them all as long as the buffer has room. */
  lemma {:induction false} NewlinesTaken(s: State, index: nat, times: nat)
    requires index < |s.workers| && s.workers[index].output == [] && READ_SIZE * times <= OUTPUT
    ensures Drained(s, index, times)
         == s.(workers := s.workers[index := s.workers[index].(output := seq(READ_SIZE * times, _ => NEWLINE))])
  {
    if times == 0 {
      assert seq(READ_SIZE * times, _ => NEWLINE) == s.workers[index].output;
    } else {
      NewlinesTaken(s, index, times - 1);
      var before, chunk := seq(READ_SIZE * (times - 1), _ => NEWLINE), seq(READ_SIZE, _ => NEWLINE);
      assert chunk[..READ_SIZE] == chunk;
      assert before + chunk == seq(READ_SIZE * times, _ => NEWLINE);
    }
  }

  /** A worker that writes 1024 newlines: four reads take them, and the next reply about it kills the broker. */
  lemma {:induction false} TakenNewlinesKill(s: State, request: nat, index: nat, stage: Stage)
    requires index < |s.workers| && s.workers[index].output == [] && s.fate.Running?
    ensures forall times: nat :: times <= 4 ==> Drained(s, index, times).fate.Running?
    ensures var t := Drained(s, index, 4); Result(t, request, index, stage) == Die(t, Oversize)
  {
    forall times: nat | times <= 4 ensures Drained(s, index, times).fate.Running? { NewlinesTaken(s, index, times); }
    NewlinesTaken(s, index, 4);
    NewlinesKill(Drained(s, index, 4), request, index, stage);
    hide Result;
    hide Drained;
  }

  lemma {:induction false} AllDoubled(output: seq<byte>)
    requires forall i :: 0 <= i < |output| ==> output[i] == NEWLINE
    ensures Doubled(output) == |output|
  {
    if output != [] { AllDoubled(output[1..]); }
  }
}
