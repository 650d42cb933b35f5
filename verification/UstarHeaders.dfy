/**
 * What the strict reader takes for a header and what it refuses, stated without following the code; and which byte
 * strings it reads to the end.
 */
module UstarHeaders {
  import opened Bytes
  import opened UstarFields
  import opened Ustar
  import Seqs

  // ---- Fields ----

  predicate Digit(b: byte) {
    48 <= b < 56
  }

  /** Spaces, then octal digits from `a` to `b`, then nothing but spaces and NULs. */
  predicate Cut(field: seq<byte>, a: int, b: int) {
    && 0 <= a <= b <= |field|
    && (forall i :: 0 <= i < a ==> field[i] == SPACE)
    && (forall i :: a <= i < b ==> Digit(field[i]))
    && (forall i :: b <= i < |field| ==> field[i] == 0 || field[i] == SPACE)
  }

  /** A number field of value `n`; one that is required has digits. */
  ghost predicate NumberIs(field: seq<byte>, required: bool, n: nat) {
    exists a, b :: Cut(field, a, b) && (required ==> a < b) && OctalValue(field[a..b]) == n
  }

  /** Something but padding stands behind `b`. */
  ghost predicate Dirty(field: seq<byte>, b: int) {
    exists i :: 0 <= b <= i < |field| && field[i] != 0 && field[i] != SPACE
  }

  lemma {:induction false} DirtyRest(field: seq<byte>, a: nat, b: nat)
    requires a <= b <= |field|
    ensures Dirty(field[a..], b - a) <==> Dirty(field, b)
    ensures field[a..][..b - a] == field[a..b]
  {
    var rest := field[a..];
    if Dirty(rest, b - a) {
      var i :| b - a <= i < |rest| && rest[i] != 0 && rest[i] != SPACE;
      assert field[a + i] == rest[i];
    }
    if Dirty(field, b) {
      var i :| b <= i < |field| && field[i] != 0 && field[i] != SPACE;
      assert rest[i - a] == field[i];
    }
  }

  function SpaceCount(field: seq<byte>): (n: nat)
    ensures n <= |field|
  {
    CountWhile(field, b => b == SPACE)
  }

  function DigitCount(rest: seq<byte>): (n: nat)
    ensures n <= |rest|
  {
    CountWhile(rest, b => 48 <= b < 56)
  }

  /** The reader's number in terms of the two counts. */
  lemma {:induction false} NumberCounted(field: seq<byte>, required: bool)
    ensures var rest := field[SpaceCount(field)..];
            var digits := DigitCount(rest);
            && OctalDigits(rest[..digits])
            && NumberOf(field, required) ==
               if (required && digits == 0) || Dirty(rest, digits) then None else Some(OctalValue(rest[..digits]))
  {
    hide OctalValue;
  }

  lemma {:induction false} SpacesCounted(field: seq<byte>)
    ensures var a := SpaceCount(field);
            (forall i :: 0 <= i < a ==> field[i] == SPACE) && (a < |field| ==> field[a] != SPACE)
  {}

  lemma {:induction false} DigitsCounted(rest: seq<byte>)
    ensures var n := DigitCount(rest);
            (forall i :: 0 <= i < n ==> Digit(rest[i])) && (n < |rest| ==> !Digit(rest[n]))
  {}

  lemma {:induction false} Behind(field: seq<byte>, a: nat)
    requires a <= |field|
    ensures forall i :: a <= i < |field| ==> field[a..][i - a] == field[i]
  {}

  /** How many spaces and digits the reader counts, in terms of the field. */
  lemma {:induction false} Counted(field: seq<byte>, required: bool) returns (a: nat, b: nat)
    ensures a <= b <= |field|
    ensures forall i :: 0 <= i < a ==> field[i] == SPACE
    ensures a < |field| ==> field[a] != SPACE
    ensures forall i :: a <= i < b ==> Digit(field[i])
    ensures b < |field| ==> !Digit(field[b])
    ensures OctalDigits(field[a..b])
    ensures NumberOf(field, required) ==
            if (required && a == b) || Dirty(field, b) then None else Some(OctalValue(field[a..b]))
  {
    hide *;
    a := SpaceCount(field);
    b := a + DigitCount(field[a..]);
    NumberCounted(field, required);
    DirtyRest(field, a, b);
    SpacesCounted(field);
    DigitsCounted(field[a..]);
    Behind(field, a);
  }

  /** The digits of a field are the ones that are counted. */
  lemma {:induction false} CutOnly(field: seq<byte>, a: int, b: int, c: nat, d: nat)
    requires Cut(field, a, b) && c <= d <= |field|
    requires forall i :: 0 <= i < c ==> field[i] == SPACE
    requires c < |field| ==> field[c] != SPACE
    requires forall i :: c <= i < d ==> Digit(field[i])
    requires d < |field| ==> !Digit(field[d])
    ensures a < b ==> a == c && b == d
    ensures a == b ==> c == d
    ensures Cut(field, c, d) && !Dirty(field, d)
  {
    assert a < b ==> Digit(field[a]);
    assert a < c ==> field[a] == SPACE || a == b;
    assert b < d ==> Digit(field[b]) || b < c;
  }

  /** The reader's numbers are exactly the numbers of such fields. */
  lemma {:induction false} NumberExactly(field: seq<byte>, required: bool, n: nat)
    ensures NumberOf(field, required) == Some(n) <==> NumberIs(field, required, n)
  {
    var c, d := Counted(field, required);
    hide NumberOf;
    hide OctalValue;
    if NumberOf(field, required) == Some(n) {
      assert forall i :: d <= i < |field| ==> field[i] == 0 || field[i] == SPACE;
      assert Cut(field, c, d);
    }
    if NumberIs(field, required, n) {
      var a, b :| Cut(field, a, b) && (required ==> a < b) && OctalValue(field[a..b]) == n;
      CutOnly(field, a, b, c, d);
      assert field[a..b] == field[c..d];
    }
  }

  /** Text, and NULs behind it. */
  predicate TextIs(field: seq<byte>, s: seq<byte>) {
    |s| <= |field| && field[..|s|] == s && Utf8(s)
    && (forall i :: 0 <= i < |s| ==> s[i] != 0) && (forall i :: |s| <= i < |field| ==> field[i] == 0)
  }

  lemma {:induction false} TextExactly(field: seq<byte>, s: seq<byte>)
    ensures TextOf(field) == Some(s) <==> TextIs(field, s)
  {
    hide Utf8;
    var k := CountWhile(field, b => b != 0);
    hide CountWhile;
    assert forall i :: k <= i < |field| ==> field[k..][i - k] == field[i];
    if TextIs(field, s) {
      assert forall i :: 0 <= i < |s| ==> field[..|s|][i] == field[i];
      assert forall i :: 0 <= i < |s| ==> field[i] != 0;
      assert |s| < |field| ==> field[|s|] == 0;
    }
  }

  // ---- The checksum ----

  /** How many bytes a signed reading takes for negative. */
  function High(s: seq<byte>): nat {
    if s == [] then 0 else (if s[0] >= 128 then 1 else 0) + High(s[1..])
  }

  lemma {:induction false} SignedIsLower(s: seq<byte>)
    ensures SignedSum(s) == Sum(s) - 256 * High(s)
  {
    if s != [] { SignedIsLower(s[1..]); }
  }

  lemma {:induction false} SumChanges(s: seq<byte>, i: nat, b: byte)
    requires i < |s|
    ensures Sum(s[i := b]) == Sum(s) + b - s[i]
  {
    if i == 0 {
      assert s[0 := b][1..] == s[1..];
    } else {
      SumChanges(s[1..], i - 1, b);
      assert s[i := b][1..] == s[1..][i - 1 := b];
    }
  }

  /** The bytes of a header that count, the eight of the checksum field as spaces. */
  function Total(h: seq<byte>): nat
    requires |h| == BLOCK
  {
    Sum(h[..148]) + 256 + Sum(h[156..])
  }

  function HighTotal(h: seq<byte>): nat
    requires |h| == BLOCK
  {
    High(h[..148]) + High(h[156..])
  }

  lemma {:induction false} ChecksumExactly(h: seq<byte>)
    requires |h| == BLOCK
    ensures ChecksumRight(h) <==>
            NumberOf(h[148..156], true).Some? &&
            NumberOf(h[148..156], true).value in {Total(h), Total(h) - 256 * HighTotal(h)}
  {
    hide NumberOf;
    hide Sum;
    hide SignedSum;
    SignedIsLower(h[..148]);
    SignedIsLower(h[156..]);
  }

  /** Outside the checksum field: that field stays, and the total moves by less than 256. */
  lemma {:induction false} TotalChanges(h: seq<byte>, i: nat, b: byte)
    requires |h| == BLOCK && i < BLOCK && !(148 <= i < 156)
    ensures Total(h[i := b]) == Total(h) + b - h[i]
    ensures h[i := b][148..156] == h[148..156]
  {
    hide Sum;
    var h' := h[i := b];
    if i < 148 {
      SumChanges(h[..148], i, b);
      assert h'[..148] == h[..148][i := b] && h'[156..] == h[156..];
    } else {
      SumChanges(h[156..], i - 156, b);
      assert h'[..148] == h[..148] && h'[156..] == h[156..][i - 156 := b];
    }
  }

  /** Two totals that both fit the written sum, in either reading, differ by a multiple of 256. */
  lemma {:induction false} SumsApart(n: nat, x: nat, y: nat, j: nat, k: nat)
    requires n in {x, x - 256 * j} && n in {y, y - 256 * k} && x != y
    ensures x - y >= 256 || y - x >= 256
  {
    if n == x {
      assert n == y - 256 * k;
    } else if n == y {
      assert n == x - 256 * j;
    } else {
      assert x - y == 256 * (j - k);
    }
  }

  /** A header the reader takes is refused once any one byte outside the checksum field is changed. */
  lemma {:induction false} OneByteRefused(h: seq<byte>, i: nat, b: byte)
    requires |h| == BLOCK && ReadHeader(h).Some? && i < BLOCK && !(148 <= i < 156) && b != h[i]
    ensures ReadHeader(h[i := b]).None?
  {
    hide NumberOf;
    hide TextOf;
    hide RawPath;
    hide MemberName;
    hide Total;
    hide HighTotal;
    hide NumbersRight;
    var h' := h[i := b];
    ChecksumExactly(h);
    ChecksumExactly(h');
    hide ChecksumRight;
    TotalChanges(h, i, b);
    if ChecksumRight(h') {
      SumsApart(NumberOf(h[148..156], true).value, Total(h), Total(h'), HighTotal(h), HighTotal(h'));
      assert false;
    }
  }

  // ---- Headers ----

  ghost predicate IsText(field: seq<byte>) {
    exists s :: TextIs(field, s)
  }

  ghost predicate IsNumber(field: seq<byte>, required: bool) {
    exists n :: NumberIs(field, required, n)
  }

  lemma {:induction false} TextExists(field: seq<byte>)
    ensures TextOf(field).Some? <==> IsText(field)
  {
    hide TextOf;
    hide TextIs;
    if TextOf(field).Some? { TextExactly(field, TextOf(field).value); }
    if s :| TextIs(field, s) { TextExactly(field, s); }
  }

  lemma {:induction false} NumberExists(field: seq<byte>, required: bool)
    ensures NumberOf(field, required).Some? <==> IsNumber(field, required)
  {
    hide NumberOf;
    hide NumberIs;
    if NumberOf(field, required).Some? { NumberExactly(field, required, NumberOf(field, required).value); }
    if n :| NumberIs(field, required, n) { NumberExactly(field, required, n); }
  }

  /** A path without an end slash is canonical, and below a canonical prefix if there is one; of a directory, the name
      may be written with one slash at its end. */
  ghost predicate Spells(path: seq<byte>, name: seq<byte>, prefix: seq<byte>, directory: bool) {
    exists base ::
      Canonical(base) && (name == base || (directory && name == base + [SLASH])) &&
      (if prefix == [] then path == base else Canonical(prefix) && path == prefix + [SLASH] + base)
  }

  lemma {:induction false} CanonicalEnd(base: seq<byte>)
    requires Canonical(base)
    ensures base[|base| - 1] != SLASH
  {
    if base[|base| - 1] == SLASH {
      var front := base[..|base| - 1];
      assert base == front + [SLASH] + [];
      CanonicalSplit(front, []);
      assert false;
    }
  }

  /** What the reader makes of the two name fields. */
  lemma {:induction false} PathExactly(name: seq<byte>, prefix: seq<byte>, directory: bool, path: seq<byte>)
    ensures RawPath(name, prefix, directory) == Some(path) && path == MemberName(name, prefix, directory) <==>
            Spells(path, name, prefix, directory)
  {
    hide Canonical;
    var ends := directory && name != [] && name[|name| - 1] == SLASH;
    var base := if ends then name[..|name| - 1] else name;
    if Canonical(base) {
      CanonicalNonempty(base);
      CanonicalEnd(base);
      StripOnce(base);
    }
    if Spells(path, name, prefix, directory) {
      var base' :| Canonical(base') && (name == base' || (directory && name == base' + [SLASH])) &&
                   (if prefix == [] then path == base' else Canonical(prefix) && path == prefix + [SLASH] + base');
      CanonicalEnd(base');
      CanonicalNonempty(base');
      assert base == base';
    }
    if RawPath(name, prefix, directory) == Some(path) {
      assert ends ==> name == base + [SLASH];
      assert Spells(path, name, prefix, directory);
    }
  }

  lemma {:induction false} StripOnce(base: seq<byte>)
    requires base != [] && base[|base| - 1] != SLASH
    ensures StripSlashes(base) == base && StripSlashes(base + [SLASH]) == base
  {
    assert (base + [SLASH])[..|base|] == base;
  }

  /** The fixed parts of a header, and the fields that only have to be well formed. */
  ghost predicate WellFormed(h: seq<byte>)
    requires |h| == BLOCK
  {
    && (h[257..265] == Ascii("ustar") + [0] + Ascii("00") || h[257..265] == Ascii("ustar  ") + [0])
    && (forall i :: 500 <= i < 512 ==> h[i] == 0)
    && IsText(h[157..257]) && IsText(h[265..297]) && IsText(h[297..329])
    && IsNumber(h[108..116], true) && IsNumber(h[116..124], true) && IsNumber(h[136..148], true)
    && IsNumber(h[329..337], false) && IsNumber(h[337..345], false)
    && h[156] in {0, 48, 53}
  }

  /** The written sum is that of the bytes, as unsigned or as signed ones. */
  ghost predicate SumWritten(h: seq<byte>)
    requires |h| == BLOCK
  {
    exists n :: NumberIs(h[148..156], true, n) && n in {Total(h), Total(h) - 256 * HighTotal(h)}
  }

  /** A header says `x`, with these name and prefix fields. */
  ghost predicate Says(h: seq<byte>, x: Header, name: seq<byte>, prefix: seq<byte>)
    requires |h| == BLOCK
  {
    && WellFormed(h) && SumWritten(h)
    && TextIs(h[..100], name) && TextIs(h[345..500], prefix)
    && NumberIs(h[100..108], true, x.mode) && NumberIs(h[124..136], true, x.size)
    && x.directory == (h[156] == 53 || (h[156] == 0 && name != [] && name[|name| - 1] == SLASH))
    && x.size <= 32 * 1024 * 1024 && (x.directory ==> x.size == 0)
    && Spells(x.name, name, prefix, x.directory)
  }

  lemma {:induction false} ZeroTail(h: seq<byte>)
    requires |h| == BLOCK
    ensures AllZero(h[500..512]) <==> forall i :: 500 <= i < 512 ==> h[i] == 0
  {
    assert forall i :: 500 <= i < 512 ==> h[500..512][i - 500] == h[i];
  }

  lemma {:induction false} MagicsSpelled()
    ensures MAGIC == Ascii("ustar") + [0] + Ascii("00") && OLD_MAGIC == Ascii("ustar  ") + [0]
  {}

  /** The checks that do not depend on what the header is about. */
  lemma {:induction false} WellFormedExactly(h: seq<byte>)
    requires |h| == BLOCK
    ensures WellFormed(h) <==>
            && (h[257..265] == MAGIC || h[257..265] == OLD_MAGIC) && AllZero(h[500..512])
            && TextOf(h[157..257]).Some? && TextOf(h[265..297]).Some? && TextOf(h[297..329]).Some?
            && NumberOf(h[108..116], true).Some? && NumberOf(h[116..124], true).Some?
            && NumberOf(h[136..148], true).Some?
            && NumberOf(h[329..337], false).Some? && NumberOf(h[337..345], false).Some?
            && h[156] in {0, 48, 53}
  {
    hide NumberOf;
    hide TextOf;
    hide IsText;
    hide IsNumber;
    ZeroTail(h);
    MagicsSpelled();
    hide Ascii;
    TextExists(h[157..257]);
    TextExists(h[265..297]);
    TextExists(h[297..329]);
    NumberExists(h[108..116], true);
    NumberExists(h[116..124], true);
    NumberExists(h[136..148], true);
    NumberExists(h[329..337], false);
    NumberExists(h[337..345], false);
  }

  lemma {:induction false} SumExactly(h: seq<byte>)
    requires |h| == BLOCK
    ensures SumWritten(h) <==> NumberOf(h[148..156], true).Some? && ChecksumRight(h)
  {
    hide NumberOf;
    hide NumberIs;
    hide Total;
    hide HighTotal;
    ChecksumExactly(h);
    hide ChecksumRight;
    if NumberOf(h[148..156], true).Some? {
      NumberExactly(h[148..156], true, NumberOf(h[148..156], true).value);
    }
    if SumWritten(h) {
      var n :| NumberIs(h[148..156], true, n) && n in {Total(h), Total(h) - 256 * HighTotal(h)};
      NumberExactly(h[148..156], true, n);
    }
  }

  /** The reader takes a header for exactly what it says, and refuses one that says nothing. */
  lemma {:induction false} HeaderExactly(h: seq<byte>, x: Header)
    requires |h| == BLOCK
    ensures ReadHeader(h) == Some(x) <==> exists name, prefix :: Says(h, x, name, prefix)
  {
    hide NumberOf;
    hide TextOf;
    hide RawPath;
    hide MemberName;
    hide ChecksumRight;
    hide Says;
    if ReadHeader(h) == Some(x) {
      SaysAfter(h, x);
      assert Says(h, x, TextOf(h[..100]).value, TextOf(h[345..500]).value);
    }
    if name, prefix :| Says(h, x, name, prefix) {
      ReadAfter(h, x, name, prefix);
    }
  }

  lemma {:induction false} SaysAfter(h: seq<byte>, x: Header)
    requires |h| == BLOCK && ReadHeader(h) == Some(x)
    ensures TextOf(h[..100]).Some? && TextOf(h[345..500]).Some?
    ensures Says(h, x, TextOf(h[..100]).value, TextOf(h[345..500]).value)
  {
    hide NumberOf;
    hide TextOf;
    hide RawPath;
    hide MemberName;
    hide ChecksumRight;
    hide WellFormed;
    hide SumWritten;
    hide TextIs;
    hide NumberIs;
    hide Spells;
    var name, prefix := TextOf(h[..100]).value, TextOf(h[345..500]).value;
    WellFormedExactly(h);
    SumExactly(h);
    TextExactly(h[..100], name);
    TextExactly(h[345..500], prefix);
    NumberExactly(h[100..108], true, x.mode);
    NumberExactly(h[124..136], true, x.size);
    PathExactly(name, prefix, x.directory, x.name);
  }

  lemma {:induction false} ReadAfter(h: seq<byte>, x: Header, name: seq<byte>, prefix: seq<byte>)
    requires |h| == BLOCK && Says(h, x, name, prefix)
    ensures ReadHeader(h) == Some(x)
  {
    hide NumberOf;
    hide TextOf;
    hide RawPath;
    hide MemberName;
    hide ChecksumRight;
    hide WellFormed;
    hide SumWritten;
    hide TextIs;
    hide NumberIs;
    hide Spells;
    WellFormedExactly(h);
    SumExactly(h);
    TextExactly(h[..100], name);
    TextExactly(h[345..500], prefix);
    NumberExactly(h[100..108], true, x.mode);
    NumberExactly(h[124..136], true, x.size);
    PathExactly(name, prefix, x.directory, x.name);
  }

  // ---- Whole streams ----

  /** What the reader reads to the end: exactly the layouts of described members, of whole blocks. */
  lemma {:induction false} LayoutReads(headers: seq<seq<byte>>, members: seq<Member>, end: nat)
    requires Describes(headers, members) && end >= 1024
    ensures ReadFrom(Layout(headers, members, end)) == Reading(members, true)
    decreases |members|
  {
    hide ReadHeader;
    if members == [] {
      assert AllZero(Zeros(end)[..BLOCK]);
    } else {
      var h, m := headers[0], members[0];
      var rest := Layout(headers[1..], members[1..], end);
      DescribedRest(headers, members);
      LayoutReads(headers[1..], members[1..], end);
      HeaderNotZero(h);
      ContentTaken(h, m.content, rest, m.header);
      Seqs.FourParts(h, m.content, Zeros(PaddingSize(m.header.size)), rest);
      PaddingRounds(m.header.size);
      var data := Layout(headers, members, end);
      assert data == h + m.content + Zeros(PaddingSize(m.header.size)) + rest;
      LayoutGoesOn(data, h, m, rest);
      assert members == [m] + members[1..];
    }
  }

  lemma {:induction false} DescribedRest(headers: seq<seq<byte>>, members: seq<Member>)
    requires Describes(headers, members) && members != []
    ensures Describes(headers[1..], members[1..])
  {
    hide ReadHeader;
  }

  lemma {:induction false} LayoutGoesOn(data: seq<byte>, h: seq<byte>, m: Member, rest: seq<byte>)
    requires |h| == BLOCK && ReadHeader(h) == Some(m.header) && |m.content| == m.header.size
    requires data == h + m.content + Zeros(PaddingSize(m.header.size)) + rest
    requires TakeContent(data, m.header) == FoundMember(m, BLOCK + RoundedSize(m.header.size))
    ensures ReadFrom(data) == Reading([m] + ReadFrom(rest).members, ReadFrom(rest).complete)
  {
    hide ReadHeader;
    hide TakeContent;
    hide RoundedSize;
    hide PaddingSize;
    hide Zeros;
    PaddingRounds(m.header.size);
    HeaderNotZero(h);
    var front := h + m.content + Zeros(PaddingSize(m.header.size));
    Seqs.DropAppend(front, rest);
    assert data[..BLOCK] == h;
  }

  // ---- What is written ----

  /** A slash at which a long path can be split. */
  predicate Splits(path: seq<byte>, k: int) {
    0 <= k < |path| && path[k] == SLASH && k <= 155 && |path| - k - 1 <= 100
  }

  lemma {:induction false} FirstSplit(path: seq<byte>, from: nat)
    requires from <= |path| && forall j :: 0 <= j < from ==> !Splits(path, j)
    ensures match SplitAt(path, from)
            case Some(k) => Splits(path, k) && forall j :: 0 <= j < k ==> !Splits(path, j)
            case None => forall j :: !Splits(path, j)
    decreases |path| - from
  {
    if from < |path| && !Splits(path, from) { FirstSplit(path, from + 1); }
  }

  /** A path that fits is written as it is; a longer one is split at the first slash that leaves parts that fit. */
  lemma {:induction false} SplitExactly(path: seq<byte>)
    ensures |path| <= 100 ==> SplitName(path) == Some(([], path))
    ensures |path| > 100 ==>
              match SplitName(path)
              case Some((prefix, name)) =>
                && Splits(path, |prefix|) && prefix == path[..|prefix|] && name == path[|prefix| + 1..]
                && forall j :: 0 <= j < |prefix| ==> !Splits(path, j)
              case None => forall j :: !Splits(path, j)
  {
    FirstSplit(path, 0);
  }

  /**
   * A written header is that of an ordinary file that belongs to nobody and was made at no time: whatever it is written
   * from, all fields but name, mode, size and checksum are the same.
   */
  lemma {:induction false} WrittenIsNormal(path: seq<byte>, mode: nat, size: nat)
    requires HeaderBlock(path, mode, size).Some?
    ensures var h := HeaderBlock(path, mode, size).value;
            && h[156] == 48 && h[257..265] == Ascii("ustar") + [0] + Ascii("00")
            && NumberIs(h[100..108], true, mode % 4096) && NumberIs(h[124..136], true, size)
            && NumberIs(h[108..116], true, 0) && NumberIs(h[116..124], true, 0) && NumberIs(h[136..148], true, 0)
            && AllZero(h[157..257]) && AllZero(h[265..345]) && AllZero(h[500..512])
            && SumWritten(h)
  {
    hide NumberOf;
    hide NumberIs;
    hide NumberField;
    hide TextField;
    hide Octal;
    hide Checksum;
    hide Head;
    hide Tail;
    hide SumWritten;
    hide SplitName;
    var (prefix, name) := SplitName(path).value;
    SplitFits(path);
    var h := HeaderBlock(path, mode, size).value;
    var head, tail := Head(name, mode, size), Tail(prefix);
    HeadFields(h, name, mode, size, Octal(Checksum(head, tail), 6) + [0, SPACE] + tail);
    ChecksumReads(h, head, tail);
    TailFields(h, prefix);
    Widths();
    MagicsSpelled();
    hide Pow8;
    hide MAGIC;
    hide Ascii;
    NumberFieldReads(mode % 4096, 8, true);
    NumberFieldReads(size, 12, true);
    NumberFieldReads(0, 8, true);
    NumberFieldReads(0, 12, true);
    NumberExactly(h[100..108], true, mode % 4096);
    NumberExactly(h[124..136], true, size);
    NumberExactly(h[108..116], true, 0);
    NumberExactly(h[116..124], true, 0);
    NumberExactly(h[136..148], true, 0);
    SumExactly(h);
    ZeroStretch(h);
  }

  lemma {:induction false} SplitFits(path: seq<byte>)
    requires SplitName(path).Some?
    ensures |SplitName(path).value.0| <= 155 && |SplitName(path).value.1| <= 100
  {}

  lemma {:induction false} ZeroStretch(h: seq<byte>)
    requires |h| == BLOCK
    requires h[265..297] == Zeros(32) && h[297..329] == Zeros(32) && h[329..337] == Zeros(8) && h[337..345] == Zeros(8)
    ensures AllZero(h[265..345])
  {
    assert h[265..345] == h[265..297] + h[297..329] + h[329..337] + h[337..345];
  }
}
