/** The control connection's byte format: request frames in, length-prefixed replies out. */
module BrokerWire {
  import opened Bytes
  import Seqs

  const PAYLOAD := 52
  const FRAME := 56
  const REPLY_LIMIT := 2048

  datatype Fields = Fields(version: nat, opcode: nat, reserved: nat, handle: nat, argument: nat, timeout: nat) {
    /** What `struct.pack("!BBHQII32s", ...)` accepts; anything else raises there. */
    predicate Packable() {
      version < Pow256(1) && opcode < Pow256(1) && reserved < Pow256(2) && handle < Pow256(8) &&
      argument < Pow256(4) && timeout < Pow256(4)
    }
  }

  function Payload(f: Fields, capability: seq<byte>): (payload: seq<byte>)
    requires |capability| == 32
    ensures |payload| == PAYLOAD
  {
    BigEndian(f.version, 1) + BigEndian(f.opcode, 1) + BigEndian(f.reserved, 2) + BigEndian(f.handle, 8) +
    BigEndian(f.argument, 4) + BigEndian(f.timeout, 4) + capability
  }

  /** The client's encoder. */
  function EncodeRequest(f: Fields, capability: seq<byte>): (frame: seq<byte>)
    requires |capability| == 32
    ensures |frame| == FRAME
  {
    BigEndian(PAYLOAD, 4) + Payload(f, capability)
  }

  /** The broker's reading of a payload, field by field at fixed offsets. */
  function DecodeFields(data: seq<byte>): Fields
    requires |data| == PAYLOAD
  {
    Fields(data[0], data[1], Integer(data[2..4]), Integer(data[4..12]), Integer(data[12..16]), Integer(data[16..20]))
  }

  lemma {:induction false} SingleDigit(n: nat)
    requires n < 256
    ensures BigEndian(n, 1) == [n]
  {
    assert BigEndian(n / 256, 0) == [];
  }

  lemma {:induction false} FrameWidths()
    ensures Pow256(1) == 256 && Pow256(4) > PAYLOAD && Pow256(4) > REPLY_LIMIT
  {
    assert Pow256(1) == 256 * Pow256(0);
    assert Pow256(4) == 256 * Pow256(3) && Pow256(3) == 256 * Pow256(2);
  }

  /** The payload's fields are where the broker looks for them. */
  lemma {:induction false} PayloadFields(f: Fields, capability: seq<byte>)
    requires |capability| == 32 && f.version < 256 && f.opcode < 256
    ensures var data := Payload(f, capability);
            && data[0] == f.version && data[1] == f.opcode
            && data[2..4] == BigEndian(f.reserved, 2) && data[4..12] == BigEndian(f.handle, 8)
            && data[12..16] == BigEndian(f.argument, 4) && data[16..20] == BigEndian(f.timeout, 4)
            && data[20..] == capability
  {
    SingleDigit(f.version);
    SingleDigit(f.opcode);
    hide BigEndian;
    hide Pow256;
  }

  /** Decoding inverts the client's encoding, for every packable request. */
  lemma {:induction false} DecodeInvertsEncode(f: Fields, capability: seq<byte>)
    requires f.Packable() && |capability| == 32
    ensures var frame := EncodeRequest(f, capability);
            && Integer(frame[..4]) == PAYLOAD
            && DecodeFields(frame[4..]) == f
            && frame[4..][20..] == capability
  {
    FrameWidths();
    hide BigEndian;
    hide Integer;
    hide Pow256;
    PayloadFields(f, capability);
    Seqs.DropAppend(BigEndian(PAYLOAD, 4), Payload(f, capability));
    IntegerOfBigEndian(PAYLOAD, 4);
    IntegerOfBigEndian(f.reserved, 2);
    IntegerOfBigEndian(f.handle, 8);
    IntegerOfBigEndian(f.argument, 4);
    IntegerOfBigEndian(f.timeout, 4);
  }

  /** What a whole byte stream says: its complete frames, the bytes after them, and whether a length was wrong. */
  datatype Parsed = Parsed(frames: seq<seq<byte>>, residue: seq<byte>, bad: bool)

  function Parse(stream: seq<byte>): (p: Parsed)
    ensures forall i :: 0 <= i < |p.frames| ==> |p.frames[i]| == PAYLOAD
    ensures |stream| == FRAME * |p.frames| + |p.residue|
    ensures p.bad ==> |p.residue| >= 4
    ensures !p.bad ==> |p.residue| < FRAME
  {
    if |stream| < 4 then Parsed([], stream, false)
    else if Integer(stream[..4]) != PAYLOAD then Parsed([], stream, true)
    else if |stream| < FRAME then Parsed([], stream, false)
    else
      var rest := Parse(stream[FRAME..]);
      Parsed([stream[4..FRAME]] + rest.frames, rest.residue, rest.bad)
  }

  /** Parsing may stop after any good prefix and resume from its residue. */
  lemma {:induction false} ParseResumes(a: seq<byte>, b: seq<byte>)
    requires !Parse(a).bad
    ensures Parse(a + b) ==
            Parsed(Parse(a).frames + Parse(Parse(a).residue + b).frames, Parse(Parse(a).residue + b).residue,
                   Parse(Parse(a).residue + b).bad)
    decreases |a|
  {
    if |a| < FRAME {
      assert Parse(a).residue == a;
      assert Parse(a).frames == [];
    } else {
      hide Integer;
      ParseResumes(a[FRAME..], b);
      Seqs.SliceAppend(a, b, 0, 4);
      Seqs.SliceAppend(a, b, 4, FRAME);
      Seqs.DropPart(a, b, FRAME);
      var tail := Parse(Parse(a).residue + b);
      Seqs.Assoc([a[4..FRAME]], Parse(a[FRAME..]).frames, tail.frames);
    }
  }

  /** A length-prefixed reply as the broker queues it. */
  function Frame(text: seq<byte>): seq<byte> {
    BigEndian(|text|, 4) + text
  }

  function Wire(texts: seq<seq<byte>>): seq<byte> {
    if texts == [] then [] else Wire(texts[..|texts| - 1]) + Frame(texts[|texts| - 1])
  }

  lemma {:induction false} WireSnoc(texts: seq<seq<byte>>, text: seq<byte>)
    ensures Wire(texts + [text]) == Wire(texts) + Frame(text)
  {
    Seqs.Snoc(texts, text);
  }

  lemma {:induction false} WireFront(text: seq<byte>, texts: seq<seq<byte>>)
    ensures Wire([text] + texts) == Frame(text) + Wire(texts)
  {
    hide Frame;
    if texts == [] {
      WireSnoc([], text);
      assert [text] + texts == [] + [text];
    } else {
      var front, last := texts[..|texts| - 1], texts[|texts| - 1];
      assert texts == front + [last];
      assert [text] + texts == ([text] + front) + [last];
      WireFront(text, front);
      WireSnoc([text] + front, last);
      Seqs.Assoc(Frame(text), Wire(front), Frame(last));
    }
  }

  /** The client's loop over `response`: complete replies so far, or None once a length is refused. */
  function ReadReplies(stream: seq<byte>): Option<seq<seq<byte>>> {
    if |stream| < 4 then Some([])
    else
      var size := Integer(stream[..4]);
      if !(1 <= size <= REPLY_LIMIT) then None
      else if |stream| < 4 + size then Some([])
      else
        var rest := ReadReplies(stream[4 + size..]);
        if rest.None? then None else Some([stream[4..4 + size]] + rest.value)
  }

  /** One complete reply at the front of the stream is read, and reading goes on behind it. */
  lemma {:induction false} ReadOneReply(text: seq<byte>, rest: seq<byte>)
    requires 1 <= |text| <= REPLY_LIMIT
    ensures ReadReplies(Frame(text) + rest) ==
            if ReadReplies(rest).None? then None else Some([text] + ReadReplies(rest).value)
  {
    FrameWidths();
    IntegerOfBigEndian(|text|, 4);
    hide BigEndian;
    hide Integer;
    hide Pow256;
    var stream := Frame(text) + rest;
    Seqs.SliceAppend(Frame(text), rest, 0, 4);
    Seqs.DropAppend(BigEndian(|text|, 4), text);
    Seqs.SliceAppend(Frame(text), rest, 4, 4 + |text|);
    Seqs.DropAppend(Frame(text), rest);
  }

  /** Part of one reply is not read yet. */
  lemma {:induction false} ReadPartialReply(text: seq<byte>, arrived: nat)
    requires 1 <= |text| <= REPLY_LIMIT && arrived < |Frame(text)|
    ensures ReadReplies(Frame(text)[..arrived]) == Some([])
  {
    FrameWidths();
    IntegerOfBigEndian(|text|, 4);
    hide BigEndian;
    hide Integer;
    hide Pow256;
    var stream := Frame(text)[..arrived];
    if arrived >= 4 {
      assert stream[..4] == Frame(text)[..4];
      Seqs.DropAppend(BigEndian(|text|, 4), text);
    }
  }

  /** However much of the reply stream has arrived, the client reads a prefix of the replies, unchanged and in order. */
  lemma {:induction false} ClientReadsReplies(texts: seq<seq<byte>>, arrived: nat)
    requires forall i :: 0 <= i < |texts| ==> 1 <= |texts[i]| <= REPLY_LIMIT
    requires arrived <= |Wire(texts)|
    ensures var got := ReadReplies(Wire(texts)[..arrived]);
            && got.Some? && got.value <= texts
            && (arrived == |Wire(texts)| ==> got.value == texts)
    decreases |texts|
  {
    if texts != [] {
      var text, rest := texts[0], texts[1..];
      Seqs.Uncons(texts);
      WireFront(text, rest);
      hide Wire;
      hide Frame;
      if arrived < |Frame(text)| {
        assert Wire(texts)[..arrived] == Frame(text)[..arrived];
        ReadPartialReply(text, arrived);
      } else {
        var more := arrived - |Frame(text)|;
        assert Wire(texts)[..arrived] == Frame(text) + Wire(rest)[..more];
        ReadOneReply(text, Wire(rest)[..more]);
        hide ReadReplies;
        ClientReadsReplies(rest, more);
      }
    }
  }
}
