/**
 * What goes over the control socket, byte by byte: the broker's replies spelled out, which arguments it takes, and how
 * the bytes it received are accounted for.
 */
module BrokerBytes {
  import Seqs
  import opened Bytes
  import opened BrokerWire
  import opened BrokerText
  import opened BrokerSpec
  import opened BrokerRuns

  // ---- Replies ----

  /** The words of a status reply and of an error. */
  lemma {:induction false} WordsSpelled()
    ensures ReasonWord(Completed) == "completed" && ReasonWord(Timeout) == "timeout"
    ensures ReasonWord(Cancel) == "cancel" && ReasonWord(Signal) == "signal"
    ensures StageWord(Launched) == "launched" && StageWord(Exited) == "exited" && StageWord(Signalled) == "signalled"
    ensures ErrorWord(VersionError) == "version" && ErrorWord(OpcodeError) == "opcode"
    ensures ErrorWord(ReservedError) == "reserved" && ErrorWord(CapabilityError) == "capability"
    ensures ErrorWord(AuthenticationError) == "authentication" && ErrorWord(ArgumentsError) == "arguments"
    ensures ErrorWord(WorkerLimit) == "worker-limit" && ErrorWord(SignatureError) == "signature"
    ensures ErrorWord(SpawnError) == "spawn" && ErrorWord(HandleError) == "handle"
    ensures ErrorWord(WaitLimit) == "wait-limit"
  {}

  function Concat(parts: seq<seq<byte>>): seq<byte> {
    if parts == [] then [] else parts[0] + Concat(parts[1..])
  }

  function Quoted(text: seq<byte>): seq<byte> {
    [QUOTE] + text + [QUOTE]
  }

  lemma {:induction false} ShowsParts(pieces: seq<Piece>, parts: seq<seq<byte>>)
    requires |pieces| == |parts| && forall i :: 0 <= i < |pieces| ==> Show(pieces[i]) == parts[i]
    ensures ShowAll(pieces) == Concat(parts)
  {
    hide Show;
    if pieces != [] { ShowsParts(pieces[1..], parts[1..]); }
  }

  /** What a status reply says, name by name. */
  function StatusParts(w: Worker, stage: Stage): (parts: seq<seq<byte>>)
    ensures |parts| == 19
  {
    [Ascii("{\"version\":1,\"ok\":true,\"handle\":"), Signed(w.handle),
     Ascii(",\"pid\":"), Signed(w.pid),
     Ascii(",\"state\":"), Quoted(Ascii(StageWord(stage))),
     Ascii(",\"deadline_ns\":"), Signed(w.deadline),
     Ascii(",\"exit\":"), Signed(if w.reaped && w.status.ExitStatus? then w.status.code else -1),
     Ascii(",\"signal\":"), Signed(if w.reaped && w.status.SignalStatus? then w.status.signal else 0),
     Ascii(",\"traced\":"), if w.traced then Ascii("true") else Ascii("false"),
     Ascii(",\"reason\":"), Quoted(Ascii(ReasonWord(w.reason))),
     Ascii(",\"output\":"), Quoted(Escape(w.output)),
     Ascii("}")]
  }

  /** The texts of all replies, spelled out. */
  lemma {:induction false} RepliesSpelled(index: nat, w: Worker, stage: Stage, error: Error)
    ensures TextOf(About(index, w, stage)) == Concat(StatusParts(w, stage))
    ensures TextOf(Rejected(error)) ==
            Concat([Ascii("{\"version\":1,\"ok\":false,\"error\":\""), Ascii(ErrorWord(error)), Ascii("\"}")])
    ensures TextOf(Authenticated) == Ascii("{\"version\":1,\"ok\":true,\"state\":\"authenticated\"}")
  {
    StatusShown(w, stage);
    ShowsParts(AboutPieces(w, stage), StatusParts(w, stage));
    hide AboutPieces;
    hide StatusParts;
    hide ErrorWord;
    hide Ascii;
    ThreeParts(Ascii("{\"version\":1,\"ok\":false,\"error\":\""), Ascii(ErrorWord(error)), Ascii("\"}"));
  }

  lemma {:induction false} ThreeParts(a: seq<byte>, b: seq<byte>, c: seq<byte>)
    ensures Concat([a, b, c]) == a + b + c
  {
    assert [a, b, c][1..] == [b, c] && [b, c][1..] == [c] && [c][1..] == [];
    assert Concat([]) == [] && Concat([c]) == c + [] == c;
    assert Concat([b, c]) == b + c && Concat([a, b, c]) == a + (b + c);
  }

  lemma {:induction false} StatusShown(w: Worker, stage: Stage)
    ensures forall i :: 0 <= i < 19 ==> Show(AboutPieces(w, stage)[i]) == StatusParts(w, stage)[i]
  {
    hide Ascii;
    hide StageWord;
    hide ReasonWord;
    hide Signed;
    hide Escape;
  }

  // ---- Arguments ----

  /**
   * The arguments each opcode takes: none, a fixture and its milliseconds, a handle, a handle and a signal, a
   * handle.
   */
  lemma {:induction false} ArgumentsExactly(f: Fields, authenticated: bool)
    requires f.opcode <= 4
    ensures ArgumentsRight(f, authenticated) <==>
            || (f.opcode == 0 && !authenticated && f.handle == 0 && f.argument == 0 && f.timeout == 0)
            || (f.opcode == 1 && f.handle == 0 && 0 < f.argument < 6 && 50 <= f.timeout <= 5000)
            || (f.opcode in {2, 4} && f.argument == 0 && f.timeout == 0)
            || (f.opcode == 3 && f.argument in {15, 9} && f.timeout == 0)
  {}

  // ---- Received bytes ----

  lemma {:induction false} BigEndianOfInteger(data: seq<byte>)
    ensures BigEndian(Integer(data), |data|) == data
  {
    if data != [] {
      var front, last := data[..|data| - 1], data[|data| - 1];
      BigEndianOfInteger(front);
      assert Integer(data) / 256 == Integer(front) && Integer(data) % 256 == last;
      assert data == front + [last];
    }
  }

  /** A stream is its frames, one after the other, and the residue. */
  lemma {:induction false} ParseAccounts(stream: seq<byte>)
    ensures stream == Wire(Parse(stream).frames) + Parse(stream).residue
    decreases |stream|
  {
    hide Integer;
    hide BigEndian;
    var p := Parse(stream);
    if p.frames == [] {
      assert Wire([]) == [];
    } else {
      var rest := Parse(stream[FRAME..]);
      ParseAccounts(stream[FRAME..]);
      BigEndianOfInteger(stream[..4]);
      WireFront(stream[4..FRAME], rest.frames);
      hide Wire;
      FrameFront(stream);
      Seqs.Assoc(Frame(stream[4..FRAME]), Wire(rest.frames), rest.residue);
    }
  }

  lemma {:induction false} FrameFront(stream: seq<byte>)
    requires |stream| >= FRAME && stream[..4] == BigEndian(PAYLOAD, 4)
    ensures stream == Frame(stream[4..FRAME]) + stream[FRAME..]
  {
    hide BigEndian;
  }

  /** Any requests, framed one after the other, are taken apart again, whatever follows. */
  lemma {:induction false} FramesParse(payloads: seq<seq<byte>>, rest: seq<byte>)
    requires forall i :: 0 <= i < |payloads| ==> |payloads[i]| == PAYLOAD
    ensures Parse(Wire(payloads) + rest) ==
            Parsed(payloads + Parse(rest).frames, Parse(rest).residue, Parse(rest).bad)
    decreases |payloads|
  {
    hide Integer;
    hide BigEndian;
    if payloads == [] {
      assert Wire([]) + rest == rest && payloads + Parse(rest).frames == Parse(rest).frames;
    } else {
      var first, more := payloads[0], payloads[1..];
      assert payloads == [first] + more;
      WireFront(first, more);
      FramesParse(more, rest);
      hide Wire;
      Seqs.Assoc(Frame(first), Wire(more), rest);
      OneFrame(first, Wire(more) + rest);
      Seqs.Assoc([first], more, Parse(rest).frames);
    }
  }

  lemma {:induction false} OneFrame(payload: seq<byte>, rest: seq<byte>)
    requires |payload| == PAYLOAD
    ensures Parse(Frame(payload) + rest) ==
            Parsed([payload] + Parse(rest).frames, Parse(rest).residue, Parse(rest).bad)
  {
    FrameWidths();
    IntegerOfBigEndian(PAYLOAD, 4);
    hide Integer;
    hide BigEndian;
    var stream := Frame(payload) + rest;
    assert stream[..4] == BigEndian(PAYLOAD, 4) && stream[4..FRAME] == payload && stream[FRAME..] == rest;
  }

  /**
   * In every state of every run the received bytes are the dispatched requests, framed, and what is left of the
   * last.
   */
  lemma {:induction false} ReceivedAccounted(states: seq<State>, turns: seq<Turn>, i: nat)
    requires IsRun(states, turns) && i < |states|
    ensures var s := states[i];
            && Wire(s.log) <= s.received
            && (s.fate.Running? ==> s.received == Wire(s.log) + s.input && |s.input| < FRAME)
  {
    hide IsRun;
    hide Core;
    hide AnswersOk;
    hide Evolves;
    hide Parse;
    RunSafety(states, turns, i, i);
    ParseAccounts(states[i].received);
  }
}
