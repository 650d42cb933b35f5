/** Single fields of a USTAR header: octal numbers, NUL-padded text, path spellings and the checksum. */
module UstarFields {
  import opened Bytes
  import Seqs

  const SLASH: byte := 47
  const SPACE: byte := 32

  function Zeros(n: nat): (z: seq<byte>)
    ensures |z| == n && AllZero(z)
  {
    seq(n, _ => 0)
  }

  predicate AllZero(s: seq<byte>) {
    forall i :: 0 <= i < |s| ==> s[i] == 0
  }

  // ---- Octal numbers ----

  function Pow8(k: nat): (p: nat)
    ensures p > 0
  {
    if k == 0 then 1 else 8 * Pow8(k - 1)
  }

  predicate OctalDigits(s: seq<byte>) {
    forall i :: 0 <= i < |s| ==> 48 <= s[i] < 56
  }

  /** `"%0*o" % (digits, n)`, for numbers that fit. */
  function Octal(n: nat, digits: nat): (s: seq<byte>)
    ensures |s| == digits && OctalDigits(s)
  {
    if digits == 0 then [] else Octal(n / 8, digits - 1) + [48 + n % 8]
  }

  function OctalValue(s: seq<byte>): nat
    requires OctalDigits(s)
  {
    if s == [] then 0 else OctalValue(s[..|s| - 1]) * 8 + (s[|s| - 1] - 48)
  }

  lemma {:induction false} ValueOfOctal(n: nat, digits: nat)
    requires n < Pow8(digits)
    ensures OctalValue(Octal(n, digits)) == n
  {
    if digits > 0 {
      ValueOfOctal(n / 8, digits - 1);
      Seqs.Snoc(Octal(n / 8, digits - 1), 48 + n % 8);
    }
  }

  function CountWhile(s: seq<byte>, p: byte -> bool): (k: nat)
    ensures k <= |s| && (forall i :: 0 <= i < k ==> p(s[i])) && (k < |s| ==> !p(s[k]))
  {
    if s == [] || !p(s[0]) then 0 else 1 + CountWhile(s[1..], p)
  }

  /**
   * A numeric field: spaces, octal digits, then nothing but NULs and spaces. Fields that may be empty read as zero.
   * This is the reader's pattern together with what `tarfile` reads from a field matching it.
   */
  function NumberOf(field: seq<byte>, required: bool): Option<nat> {
    var spaces := CountWhile(field, b => b == SPACE);
    var rest := field[spaces..];
    var digits := CountWhile(rest, b => 48 <= b < 56);
    if (required && digits == 0) || exists i :: digits <= i < |rest| && rest[i] != 0 && rest[i] != SPACE then None
    else Some(OctalValue(rest[..digits]))
  }

  /** `itn`: all but the last byte are digits, the last is NUL. */
  function NumberField(n: nat, width: nat): (s: seq<byte>)
    requires width > 0
    ensures |s| == width
  {
    Octal(n, width - 1) + [0]
  }

  lemma {:induction false} DigitsThenPadding(digits: seq<byte>, padding: seq<byte>, required: bool)
    requires OctalDigits(digits) && digits != []
    requires forall i :: 0 <= i < |padding| ==> padding[i] == 0 || padding[i] == SPACE
    ensures NumberOf(digits + padding, required) == Some(OctalValue(digits))
  {
    var field := digits + padding;
    assert field[0] == digits[0];
    assert field[0..] == field;
    var k := CountWhile(field, b => 48 <= b < 56);
    assert forall i :: 0 <= i < |digits| ==> field[i] == digits[i];
    assert forall i :: 0 <= i < |padding| ==> field[|digits| + i] == padding[i] by {
      Seqs.DropAppend(digits, padding);
    }
    assert padding != [] ==> field[|digits|] == padding[0];
    assert k == |digits|;
    Seqs.DropAppend(digits, padding);
  }

  lemma {:induction false} NumberFieldReads(n: nat, width: nat, required: bool)
    requires width > 1 && n < Pow8(width - 1)
    ensures NumberOf(NumberField(n, width), required) == Some(n)
  {
    ValueOfOctal(n, width - 1);
    hide Octal;
    hide OctalValue;
    DigitsThenPadding(Octal(n, width - 1), [0], required);
  }

  lemma {:induction false} ZeroFieldReads(width: nat)
    requires width > 0
    ensures NumberOf(Zeros(width), false) == Some(0)
  {
    var field := Zeros(width);
    assert field[0..] == field;
    assert field[0] == 0;
  }

  // ---- Text ----

  predicate Continuation(b: byte) {
    128 <= b < 192
  }

  /** Strict UTF-8, as Python decodes it. */
  predicate Utf8(s: seq<byte>) {
    if s == [] then true
    else if s[0] < 128 then Utf8(s[1..])
    else if 194 <= s[0] < 224 then |s| >= 2 && Continuation(s[1]) && Utf8(s[2..])
    else if 224 <= s[0] < 240 then
      |s| >= 3 && Continuation(s[1]) && Continuation(s[2]) && (s[0] == 224 ==> s[1] >= 160) &&
      (s[0] == 237 ==> s[1] < 160) && Utf8(s[3..])
    else if 240 <= s[0] < 245 then
      |s| >= 4 && Continuation(s[1]) && Continuation(s[2]) && Continuation(s[3]) && (s[0] == 240 ==> s[1] >= 144) &&
      (s[0] == 244 ==> s[1] < 144) && Utf8(s[4..])
    else false
  }

  lemma {:induction false} AsciiIsUtf8(s: seq<byte>)
    requires forall i :: 0 <= i < |s| ==> s[i] < 128
    ensures Utf8(s)
  {
    if s != [] { AsciiIsUtf8(s[1..]); }
  }

  /** `_tar_text_field`: the text before the first NUL, after which only NULs may follow. */
  function TextOf(field: seq<byte>): Option<seq<byte>> {
    var k := CountWhile(field, b => b != 0);
    if AllZero(field[k..]) && Utf8(field[..k]) then Some(field[..k]) else None
  }

  /** `stn`. */
  function TextField(s: seq<byte>, width: nat): (f: seq<byte>)
    requires |s| <= width
    ensures |f| == width
  {
    s + Zeros(width - |s|)
  }

  lemma {:induction false} TextFieldReads(s: seq<byte>, width: nat)
    requires |s| <= width && Utf8(s) && forall i :: 0 <= i < |s| ==> s[i] != 0
    ensures TextOf(TextField(s, width)) == Some(s)
  {
    hide Utf8;
    var field := TextField(s, width);
    var z := Zeros(width - |s|);
    var k := CountWhile(field, b => b != 0);
    assert forall i :: 0 <= i < |s| ==> field[i] == s[i];
    assert |s| < width ==> field[|s|] == z[0];
    assert k == |s|;
    Seqs.DropAppend(s, z);
  }

  // ---- Paths ----

  /** `split("/")`. */
  function Parts(s: seq<byte>): (parts: seq<seq<byte>>)
    ensures parts != []
  {
    if s == [] then [[]]
    else
      var rest := Parts(s[1..]);
      if s[0] == SLASH then [[]] + rest else [[s[0]] + rest[0]] + rest[1..]
  }

  predicate GoodPart(part: seq<byte>) {
    part != [] && part != [46] && part != [46, 46]
  }

  /** `_path`: no empty, `.` or `..` part, no backslash, no NUL. */
  predicate Canonical(s: seq<byte>) {
    && s != [] && (forall i :: 0 <= i < |s| ==> s[i] != 92 && s[i] != 0)
    && forall k :: 0 <= k < |Parts(s)| ==> GoodPart(Parts(s)[k])
  }

  /** What one more character in front does to the parts. */
  function PushPart(c: byte, parts: seq<seq<byte>>): seq<seq<byte>>
    requires parts != []
  {
    if c == SLASH then [[]] + parts else [[c] + parts[0]] + parts[1..]
  }

  lemma {:induction false} PartsCons(c: byte, s: seq<byte>)
    ensures Parts([c] + s) == PushPart(c, Parts(s))
  {
    assert ([c] + s)[1..] == s;
  }

  lemma {:induction false} PushSlash(parts: seq<seq<byte>>)
    requires parts != []
    ensures PushPart(SLASH, parts) == [[]] + parts
  {}

  lemma {:induction false} PushPartAppend(c: byte, p: seq<seq<byte>>, q: seq<seq<byte>>)
    requires p != []
    ensures PushPart(c, p + q) == PushPart(c, p) + q
  {
    Seqs.DropPart(p, q, 1);
    assert (p + q)[0] == p[0];
  }

  lemma {:induction false} PartsJoin(a: seq<byte>, b: seq<byte>)
    ensures Parts(a + [SLASH] + b) == Parts(a) + Parts(b)
  {
    PartsOfEmpty();
    hide Parts;
    hide PushPart;
    if a == [] {
      assert a + [SLASH] + b == [SLASH] + b;
      PartsCons(SLASH, b);
      PushSlash(Parts(b));
    } else {
      var c, rest := a[0], a[1..];
      PartsJoin(rest, b);
      Seqs.Uncons(a);
      FirstOut(c, rest, [SLASH], b);
      PartsCons(c, rest);
      PartsCons(c, rest + [SLASH] + b);
      PushPartAppend(c, Parts(rest), Parts(b));
    }
  }

  lemma {:induction false} FirstOut<T>(c: T, a: seq<T>, b: seq<T>, d: seq<T>)
    ensures [c] + a + b + d == [c] + (a + b + d)
  {}

  /** Both sides of a slash in a canonical path are canonical. */
  lemma {:induction false} CanonicalSplit(a: seq<byte>, b: seq<byte>)
    requires Canonical(a + [SLASH] + b)
    ensures Canonical(a) && Canonical(b)
  {
    var s := a + [SLASH] + b;
    PartsJoin(a, b);
    var pa, pb := Parts(a), Parts(b);
    PartsOfEmpty();
    hide Parts;
    forall k | 0 <= k < |pa| ensures GoodPart(pa[k]) { assert (pa + pb)[k] == pa[k]; }
    forall k | 0 <= k < |pb| ensures GoodPart(pb[k]) { assert (pa + pb)[|pa| + k] == pb[k]; }
    assert GoodPart(pa[0]) && GoodPart(pb[0]);
    assert forall i :: 0 <= i < |a| ==> s[i] == a[i];
    forall i | 0 <= i < |b| ensures b[i] != 92 && b[i] != 0 { assert s[|a| + 1 + i] == b[i]; }
  }

  lemma {:induction false} PartsOfEmpty()
    ensures Parts([]) == [[]] && !GoodPart([])
  {}

  /** The first slash that leaves at most 155 bytes before it and 100 behind it. */
  function SplitAt(name: seq<byte>, from: nat): (k: Option<nat>)
    requires from <= |name|
    ensures k.Some? ==> k.value < |name| && name[k.value] == SLASH && k.value <= 155 && |name| - k.value - 1 <= 100
    decreases |name| - from
  {
    if from == |name| then None
    else if name[from] == SLASH && from <= 155 && |name| - from - 1 <= 100 then Some(from)
    else SplitAt(name, from + 1)
  }

  // ---- Checksum ----

  function Sum(s: seq<byte>): (n: nat)
    ensures n <= 255 * |s|
  {
    if s == [] then 0 else s[0] + Sum(s[1..])
  }

  function SignedSum(s: seq<byte>): int {
    if s == [] then 0 else (if s[0] < 128 then s[0] else s[0] - 256) + SignedSum(s[1..])
  }
}
