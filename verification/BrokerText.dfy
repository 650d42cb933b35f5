/** Reply texts: the broker's JSON escaping, and a JSON reader for what it produces. */
module BrokerText {
  import opened Bytes
  import Seqs

  const NEWLINE: byte := 10
  const QUOTE: byte := 34
  const BACKSLASH: byte := 92

  predicate Printable(b: byte) {
    b == NEWLINE || 32 <= b < 127
  }

  /** Printable, and the same inside a JSON string. */
  predicate Plain(b: byte) {
    32 <= b < 127 && b != QUOTE && b != BACKSLASH
  }

  function EscapeOne(b: byte): (e: seq<byte>)
    ensures 1 <= |e| <= 2
  {
    if b == NEWLINE then [BACKSLASH, 110]
    else if b == QUOTE || b == BACKSLASH then [BACKSLASH, b]
    else [b]
  }

  /** Two bytes at most for each byte, which is what the broker's local buffer allows for. */
  function Escape(s: seq<byte>): (e: seq<byte>)
    ensures |s| <= |e| <= 2 * |s|
  {
    if s == [] then [] else EscapeOne(s[0]) + Escape(s[1..])
  }

  lemma {:induction false} EscapeSnoc(s: seq<byte>, b: byte)
    ensures Escape(s + [b]) == Escape(s) + EscapeOne(b)
  {
    hide EscapeOne;
    if s == [] {
      assert s + [b] == [b] && [b][1..] == [];
    } else {
      EscapeSnoc(s[1..], b);
      Seqs.DropPart(s, [b], 1);
      Seqs.Assoc(EscapeOne(s[0]), Escape(s[1..]), EscapeOne(b));
    }
  }

  lemma {:induction false} PlainEscapesToItself(s: seq<byte>)
    requires forall i :: 0 <= i < |s| ==> Plain(s[i])
    ensures Escape(s) == s
  {
    if s != [] { PlainEscapesToItself(s[1..]); }
  }

  /** The letter escapes of section 7 of RFC 8259. */
  function Unescape(b: byte): Option<byte> {
    if b == QUOTE || b == BACKSLASH || b == 47 then Some(b)
    else if b == 98 then Some(8)
    else if b == 102 then Some(12)
    else if b == 110 then Some(NEWLINE)
    else if b == 114 then Some(13)
    else if b == 116 then Some(9)
    else None
  }

  function HexDigit(b: byte): Option<nat> {
    if 48 <= b < 58 then Some(b - 48)
    else if 65 <= b < 71 then Some(b - 55)
    else if 97 <= b < 103 then Some(b - 87)
    else None
  }

  function HexQuad(s: seq<byte>): Option<nat>
    requires |s| == 4
  {
    var a, b, c, d := HexDigit(s[0]), HexDigit(s[1]), HexDigit(s[2]), HexDigit(s[3]);
    if a.Some? && b.Some? && c.Some? && d.Some?
    then Some(((a.value * 16 + b.value) * 16 + c.value) * 16 + d.value) else None
  }

  datatype Scanned<+T> = Refused | Scanned(value: T, rest: seq<byte>)

  /**
   * Reads a JSON string of byte-sized characters whose opening quote is already consumed: the characters, then
   * the text after the closing quote.
   */
  function ScanString(text: seq<byte>): Scanned<seq<byte>> {
    if text == [] || text[0] < 32 || text[0] >= 128 then Refused
    else if text[0] == QUOTE then Scanned([], text[1..])
    else if text[0] != BACKSLASH then Consed(text[0], ScanString(text[1..]))
    else if |text| >= 2 && Unescape(text[1]).Some? then Consed(Unescape(text[1]).value, ScanString(text[2..]))
    else if |text| >= 6 && text[1] == 117 && HexQuad(text[2..6]).Some? && HexQuad(text[2..6]).value < 256 then
      Consed(HexQuad(text[2..6]).value, ScanString(text[6..]))
    else Refused
  }

  function Consed(unit: byte, tail: Scanned<seq<byte>>): Scanned<seq<byte>> {
    if tail.Refused? then Refused else Scanned([unit] + tail.value, tail.rest)
  }

  lemma {:induction false} ScanOne(b: byte, tail: seq<byte>)
    requires Printable(b)
    ensures ScanString(EscapeOne(b) + tail) == Consed(b, ScanString(tail))
  {
    Seqs.DropAppend(EscapeOne(b), tail);
  }

  /** Unescaping returns the worker's bytes and stops exactly at the closing quote, whatever follows it. */
  lemma {:induction false} ScanInvertsEscape(s: seq<byte>, rest: seq<byte>)
    requires forall i :: 0 <= i < |s| ==> Printable(s[i])
    ensures ScanString(Escape(s) + ([QUOTE] + rest)) == Scanned(s, rest)
  {
    var close := [QUOTE] + rest;
    if s == [] {
      assert Escape(s) + close == close && close[1..] == rest;
    } else {
      ScanInvertsEscape(s[1..], rest);
      hide ScanString;
      Seqs.Assoc(EscapeOne(s[0]), Escape(s[1..]), close);
      ScanOne(s[0], Escape(s[1..]) + close);
      Seqs.Uncons(s);
    }
  }

  function Decimal(n: nat): (d: seq<byte>)
    ensures d != []
    ensures forall i :: 0 <= i < |d| ==> 48 <= d[i] < 58
  {
    if n < 10 then [48 + n] else Decimal(n / 10) + [48 + n % 10]
  }

  /** The number written by a run of digits, given the number its earlier digits wrote. */
  function DigitsValue(d: seq<byte>, before: nat): nat
    requires forall i :: 0 <= i < |d| ==> 48 <= d[i] < 58
  {
    if d == [] then before else DigitsValue(d[..|d| - 1], before) * 10 + (d[|d| - 1] - 48)
  }

  lemma {:induction false} ValueOfDecimal(n: nat)
    ensures DigitsValue(Decimal(n), 0) == n
  {
    if n >= 10 {
      ValueOfDecimal(n / 10);
      assert Decimal(n)[..|Decimal(n)| - 1] == Decimal(n / 10);
    } else {
      assert Decimal(n)[..0] == [];
    }
  }

  /** `%d`. */
  function Signed(n: int): seq<byte> {
    if n < 0 then [45] + Decimal(-n) else Decimal(n)
  }

  function LeadingDigits(text: seq<byte>): (k: nat)
    ensures k <= |text|
    ensures forall i :: 0 <= i < k ==> 48 <= text[i] < 58
    ensures k < |text| ==> !(48 <= text[k] < 58)
  {
    if text == [] || !(48 <= text[0] < 58) then 0 else 1 + LeadingDigits(text[1..])
  }

  function ScanNatural(text: seq<byte>): Scanned<int> {
    var k := LeadingDigits(text);
    if k == 0 then Refused else Scanned<int>.Scanned(DigitsValue(text[..k], 0), text[k..])
  }

  function ScanNumber(text: seq<byte>): Scanned<int> {
    if text != [] && text[0] == 45 then
      var n := ScanNatural(text[1..]);
      if n.Refused? then Refused else Scanned<int>.Scanned(-n.value, n.rest)
    else ScanNatural(text)
  }

  lemma {:induction false} ScanInvertsDecimal(n: nat, rest: seq<byte>)
    requires rest != [] ==> !(48 <= rest[0] < 58)
    ensures ScanNatural(Decimal(n) + rest) == Scanned<int>.Scanned(n, rest)
  {
    var d := Decimal(n);
    ValueOfDecimal(n);
    hide Decimal;
    hide DigitsValue;
    var text := d + rest;
    var k := LeadingDigits(text);
    hide LeadingDigits;
    assert forall i :: 0 <= i < |d| ==> text[i] == d[i];
    assert rest != [] ==> text[|d|] == rest[0];
    assert k == |d|;
    Seqs.DropAppend(d, rest);
  }

  lemma {:induction false} ScanInvertsSigned(n: int, rest: seq<byte>)
    requires rest != [] ==> !(48 <= rest[0] < 58)
    ensures ScanNumber(Signed(n) + rest) == Scanned<int>.Scanned(n, rest)
  {
    hide Decimal;
    hide ScanNatural;
    if n < 0 {
      ScanInvertsDecimal(-n, rest);
      Seqs.Assoc([45], Decimal(-n), rest);
      Seqs.DropAppend([45], Decimal(-n) + rest);
    } else {
      ScanInvertsDecimal(n, rest);
      assert (Decimal(n) + rest)[0] == Decimal(n)[0];
    }
  }

  /** One conversion of a reply's format string, or the text between two of them. */
  datatype Piece = Literal(text: seq<byte>) | Number(n: int) | Text(value: seq<byte>) | Word(value: seq<byte>)
    | Flag(b: bool)

  /** `Text` is escaped inside its quotes; a `Word`, being one of the broker's own words, is not. */
  function Show(p: Piece): seq<byte> {
    match p
    case Literal(text) => text
    case Number(n) => Signed(n)
    case Text(value) => [QUOTE] + Escape(value) + [QUOTE]
    case Word(value) => [QUOTE] + value + [QUOTE]
    case Flag(b) => if b then Ascii("true") else Ascii("false")
  }

  function ShowAll(pieces: seq<Piece>): seq<byte> {
    if pieces == [] then [] else Show(pieces[0]) + ShowAll(pieces[1..])
  }

  lemma {:induction false} ShowAllAppend(a: seq<Piece>, b: seq<Piece>)
    ensures ShowAll(a + b) == ShowAll(a) + ShowAll(b)
  {
    hide Show;
    if a == [] {
      assert a + b == b;
    } else {
      ShowAllAppend(a[1..], b);
      Seqs.DropPart(a, b, 1);
      Seqs.Assoc(Show(a[0]), ShowAll(a[1..]), ShowAll(b));
    }
  }

  function ReadQuoted(text: seq<byte>): Scanned<seq<byte>> {
    if text == [] || text[0] != QUOTE then Refused else ScanString(text[1..])
  }

  /** Reads one piece of the same kind as `shape`; a literal must match exactly. */
  function ReadPiece(shape: Piece, text: seq<byte>): Scanned<Piece> {
    match shape
    case Literal(l) => if l <= text then Scanned(shape, text[|l|..]) else Refused
    case Number(_) => var n := ScanNumber(text); if n.Refused? then Refused else Scanned(Number(n.value), n.rest)
    case Text(_) => var s := ReadQuoted(text); if s.Refused? then Refused else Scanned(Text(s.value), s.rest)
    case Word(_) => var s := ReadQuoted(text); if s.Refused? then Refused else Scanned(Word(s.value), s.rest)
    case Flag(_) =>
      if Ascii("true") <= text then Scanned(Flag(true), text[4..])
      else if Ascii("false") <= text then Scanned(Flag(false), text[5..])
      else Refused
  }

  function ReadAll(shape: seq<Piece>, text: seq<byte>): Option<seq<Piece>> {
    if shape == [] then (if text == [] then Some([]) else None)
    else
      var first := ReadPiece(shape[0], text);
      if first.Refused? then None else
      var rest := ReadAll(shape[1..], first.rest);
      if rest.None? then None else Some([first.value] + rest.value)
  }

  predicate SameKind(a: Piece, b: Piece) {
    match a
    case Literal(_) => a == b
    case Number(_) => b.Number?
    case Text(_) => b.Text?
    case Word(_) => b.Word?
    case Flag(_) => b.Flag?
  }

  predicate PieceReadable(p: Piece) {
    && (p.Text? ==> forall j :: 0 <= j < |p.value| ==> Printable(p.value[j]))
    && (p.Word? ==> forall j :: 0 <= j < |p.value| ==> Plain(p.value[j]))
  }

  /** A number is never followed directly by a digit, and text holds only printable bytes. */
  predicate Readable(pieces: seq<Piece>) {
    forall i :: 0 <= i < |pieces| ==>
      && (pieces[i].Number? && i + 1 < |pieces| ==>
            pieces[i + 1].Literal? && pieces[i + 1].text != [] && !(48 <= pieces[i + 1].text[0] < 58))
      && PieceReadable(pieces[i])
  }

  lemma {:induction false} ReadQuotedInverts(value: seq<byte>, rest: seq<byte>)
    requires forall j :: 0 <= j < |value| ==> Printable(value[j])
    ensures ReadQuoted([QUOTE] + Escape(value) + [QUOTE] + rest) == Scanned(value, rest)
  {
    ScanInvertsEscape(value, rest);
    hide ScanString;
    hide Escape;
    var body := Escape(value) + ([QUOTE] + rest);
    assert [QUOTE] + Escape(value) + [QUOTE] + rest == [QUOTE] + body;
    Seqs.DropAppend([QUOTE], body);
  }

  lemma {:induction false} ReadFlagInverts(shape: Piece, b: bool, rest: seq<byte>)
    requires shape.Flag?
    ensures ReadPiece(shape, Show(Flag(b)) + rest) == Scanned(Flag(b), rest)
  {
    var text := Show(Flag(b)) + rest;
    if b {
      assert text[4..] == rest;
    } else {
      assert text[0] == 102 && Ascii("true")[0] == 116;
      assert text[5..] == rest;
    }
  }

  lemma {:induction false} ReadPieceInverts(shape: Piece, p: Piece, rest: seq<byte>)
    requires SameKind(shape, p)
    requires p.Number? ==> rest == [] || !(48 <= rest[0] < 58)
    requires PieceReadable(p)
    ensures ReadPiece(shape, Show(p) + rest) == Scanned(p, rest)
  {
    match p {
      case Literal(l) =>
      case Number(n) => ScanInvertsSigned(n, rest);
      case Text(value) => ReadQuotedInverts(value, rest);
      case Word(value) =>
        PlainEscapesToItself(value);
        ReadQuotedInverts(value, rest);
      case Flag(b) => ReadFlagInverts(shape, b, rest);
    }
  }

  lemma {:induction false} ReadInvertsShow(shape: seq<Piece>, pieces: seq<Piece>)
    requires |shape| == |pieces| && forall i :: 0 <= i < |shape| ==> SameKind(shape[i], pieces[i])
    requires Readable(pieces)
    ensures ReadAll(shape, ShowAll(pieces)) == Some(pieces)
  {
    if pieces != [] {
      var rest := ShowAll(pieces[1..]);
      if pieces[0].Number? && |pieces| > 1 {
        assert rest == pieces[1].text + ShowAll(pieces[1..][1..]);
      }
      ReadPieceInverts(shape[0], pieces[0], rest);
      assert forall i :: 0 <= i < |pieces[1..]| ==> pieces[1..][i] == pieces[i + 1];
      ReadInvertsShow(shape[1..], pieces[1..]);
      assert pieces == [pieces[0]] + pieces[1..];
    }
  }
}
