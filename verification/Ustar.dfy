/**
 * The deterministic USTAR writer and the strict physical reader: the "ustar Interchange Format" of the `pax` utility
 * (IEEE Std 1003.1-2017), as the builder writes it and as the candidate reader accepts it.
 */
module Ustar {
  import opened Bytes
  import opened UstarFields
  import Seqs

  const BLOCK := 512
  const READER_LIMIT := 33554432
  const MAGIC: seq<byte> := [117, 115, 116, 97, 114, 0, 48, 48]
  const OLD_MAGIC: seq<byte> := [117, 115, 116, 97, 114, 32, 32, 0]

  /** A file as the builder records it. */
  datatype Record = Record(name: seq<byte>, mode: nat, content: seq<byte>)

  /** What one header says. */
  datatype Header = Header(name: seq<byte>, mode: nat, size: nat, directory: bool)

  /** One physical member as the reader yields it. */
  datatype Member = Member(header: Header, content: seq<byte>)

  // ---- Writing ----

  /** The `prefix` and `name` fields for a path. */
  function SplitName(path: seq<byte>): Option<(seq<byte>, seq<byte>)> {
    if |path| <= 100 then Some(([], path))
    else
      var k := SplitAt(path, 0);
      if k.None? then None else Some((path[..k.value], path[k.value + 1..]))
  }

  /** The header up to the checksum field, and from the type flag on. */
  function Head(name: seq<byte>, mode: nat, size: nat): (h: seq<byte>)
    requires |name| <= 100
    ensures |h| == 148
  {
    TextField(name, 100) + (NumberField(mode % 4096, 8) + (NumberField(0, 8) + (NumberField(0, 8) +
    (NumberField(size, 12) + NumberField(0, 12)))))
  }

  function Tail(prefix: seq<byte>): (t: seq<byte>)
    requires |prefix| <= 155
    ensures |t| == 356
  {
    [48] + (Zeros(100) + (MAGIC + (Zeros(32) + (Zeros(32) + (Zeros(8) + (Zeros(8) +
    (TextField(prefix, 155) + Zeros(12))))))))
  }

  /** The sum is taken with the checksum field read as spaces; it is written as six digits, NUL, space. */
  function Checksum(head: seq<byte>, tail: seq<byte>): nat {
    Sum(head) + 256 + Sum(tail)
  }

  /** `_tar_header`; None where `tarfile` refuses the name or the size. */
  function HeaderBlock(path: seq<byte>, mode: nat, size: nat): (h: Option<seq<byte>>)
    ensures h.Some? ==> |h.value| == BLOCK
  {
    var split := SplitName(path);
    if split.None? || size >= Pow8(11) then None
    else
      var (prefix, name) := split.value;
      var head, tail := Head(name, mode, size), Tail(prefix);
      Some(head + (Octal(Checksum(head, tail), 6) + [0, SPACE] + tail))
  }

  function PaddingSize(size: nat): (n: nat)
    ensures n < BLOCK && (size + n) % BLOCK == 0
  {
    (BLOCK - size % BLOCK) % BLOCK
  }

  /** One member's bytes. */
  function MemberBytes(r: Record): Option<seq<byte>> {
    var header := HeaderBlock(r.name, r.mode, |r.content|);
    if header.None? then None else Some(header.value + r.content + Zeros(PaddingSize(|r.content|)))
  }

  /** The whole archive: the members in order, and two zero blocks. */
  function Archive(records: seq<Record>): Option<seq<byte>> {
    if records == [] then Some(Zeros(1024))
    else
      var first, rest := MemberBytes(records[0]), Archive(records[1..]);
      if first.None? || rest.None? then None else Some(first.value + rest.value)
  }

  function RoundedSize(size: nat): (n: nat)
    ensures n % BLOCK == 0 && size <= n
  {
    (size + 511) / BLOCK * BLOCK
  }

  /** `expected_archive_size`. */
  function ExpectedSize(records: seq<Record>): nat {
    if records == [] then 1024
    else BLOCK + RoundedSize(|records[0].content|) + ExpectedSize(records[1..])
  }

  lemma {:induction false} PaddingRounds(size: nat)
    ensures size + PaddingSize(size) == RoundedSize(size)
  {}

  lemma {:induction false} MemberLength(r: Record)
    requires MemberBytes(r).Some?
    ensures |MemberBytes(r).value| == BLOCK + RoundedSize(|r.content|)
  {
    hide HeaderBlock;
    PaddingRounds(|r.content|);
  }

  /** The archive is exactly as long as computed beforehand. */
  lemma {:induction false} SizeAsComputed(records: seq<Record>)
    requires Archive(records).Some?
    ensures |Archive(records).value| == ExpectedSize(records)
  {
    hide MemberBytes;
    hide RoundedSize;
    if records != [] {
      SizeAsComputed(records[1..]);
      MemberLength(records[0]);
    }
  }

  lemma {:induction false} WholeBlocks(records: seq<Record>)
    ensures ExpectedSize(records) % BLOCK == 0
  {
    if records != [] {
      WholeBlocks(records[1..]);
      hide ExpectedSize;
      var blocks := (|records[0].content| + 511) / BLOCK;
      assert (BLOCK + blocks * BLOCK + ExpectedSize(records[1..])) % BLOCK == 0;
    }
  }

  // ---- Reading ----

  /** `_raw_header_path`. */
  function RawPath(name: seq<byte>, prefix: seq<byte>, directory: bool): Option<seq<byte>> {
    var base := if directory && name != [] && name[|name| - 1] == SLASH then name[..|name| - 1] else name;
    if !Canonical(base) || (prefix != [] && !Canonical(prefix)) then None
    else Some(if prefix != [] then prefix + [SLASH] + base else base)
  }

  function StripSlashes(name: seq<byte>): seq<byte> {
    if name != [] && name[|name| - 1] == SLASH then StripSlashes(name[..|name| - 1]) else name
  }

  /** The name `tarfile` gives a member. */
  function MemberName(name: seq<byte>, prefix: seq<byte>, directory: bool): seq<byte> {
    var base := if directory then StripSlashes(name) else name;
    if prefix != [] then prefix + [SLASH] + base else base
  }

  /** The numeric fields must all be well formed; uid, gid, mtime and device numbers are not used further. */
  predicate NumbersRight(h: seq<byte>)
    requires |h| == BLOCK
  {
    && NumberOf(h[100..108], true).Some? && NumberOf(h[108..116], true).Some? && NumberOf(h[116..124], true).Some?
    && NumberOf(h[124..136], true).Some? && NumberOf(h[136..148], true).Some? && NumberOf(h[148..156], true).Some?
    && NumberOf(h[329..337], false).Some? && NumberOf(h[337..345], false).Some?
  }

  predicate ChecksumRight(h: seq<byte>)
    requires |h| == BLOCK
  {
    var n := NumberOf(h[148..156], true);
    n.Some? && (n.value == Sum(h[..148]) + 256 + Sum(h[156..]) ||
                n.value == SignedSum(h[..148]) + 256 + SignedSum(h[156..]))
  }

  /** `_ordinary_header`. */
  function ReadHeader(h: seq<byte>): Option<Header>
    requires |h| == BLOCK
  {
    if h[257..265] != MAGIC && h[257..265] != OLD_MAGIC then None
    else if !AllZero(h[500..512]) then None
    else if TextOf(h[157..257]).None? || TextOf(h[265..297]).None? || TextOf(h[297..329]).None? then None
    else if !NumbersRight(h) || !ChecksumRight(h) then None
    else if TextOf(h[..100]).None? || TextOf(h[345..500]).None? then None
    else
      var name, prefix := TextOf(h[..100]).value, TextOf(h[345..500]).value;
      var directory := h[156] == 53 || (h[156] == 0 && name != [] && name[|name| - 1] == SLASH);
      var size := NumberOf(h[124..136], true).value;
      if h[156] != 48 && h[156] != 0 && h[156] != 53 then None
      else if size > READER_LIMIT || (directory && size > 0) then None
      else
        var raw := RawPath(name, prefix, directory);
        if raw.None? || raw.value != MemberName(name, prefix, directory) then None
        else Some(Header(raw.value, NumberOf(h[100..108], true).value, size, directory))
  }

  /** What iterating over the reader gives: the members it yielded, and whether it then ended without raising. */
  datatype Reading = Reading(members: seq<Member>, complete: bool)

  /** What the reader finds at a block boundary; a member takes up `length` bytes with header and padding. */
  datatype Found = BadBlock | ZeroBlock | FoundMember(member: Member, length: nat)

  function FindMember(data: seq<byte>): (f: Found)
    requires |data| >= BLOCK
    ensures f.FoundMember? ==> BLOCK <= f.length <= |data| && f.length % BLOCK == 0
  {
    if AllZero(data[..BLOCK]) then ZeroBlock
    else
      var header := ReadHeader(data[..BLOCK]);
      if header.None? then BadBlock else TakeContent(data, header.value)
  }

  /** The content and padding behind a good header. */
  function TakeContent(data: seq<byte>, header: Header): (f: Found)
    requires |data| >= BLOCK
    ensures f.FoundMember? ==> BLOCK <= f.length <= |data| && f.length % BLOCK == 0
  {
    var end := BLOCK + header.size;
    var next := BLOCK + RoundedSize(header.size);
    if next > |data| || !AllZero(data[end..next]) then BadBlock
    else FoundMember(Member(header, data[BLOCK..end]), next)
  }

  /** `_physical_members` from some block on. */
  function ReadFrom(data: seq<byte>): Reading {
    if |data| < BLOCK then Reading([], false)
    else
      match FindMember(data)
      case BadBlock => Reading([], false)
      case ZeroBlock => Reading([], |data| >= 1024 && AllZero(data))
      case FoundMember(member, length) =>
        var rest := ReadFrom(data[length..]);
        Reading([member] + rest.members, rest.complete)
  }

  function ReadArchive(data: seq<byte>): Reading {
    if |data| % BLOCK != 0 then Reading([], false) else ReadFrom(data)
  }

  // ---- Round trip ----

  /** Names both sides take: canonical ASCII that fits one name field, or splits at a slash. */
  ghost predicate Portable(path: seq<byte>) {
    Canonical(path) && (forall i :: 0 <= i < |path| ==> path[i] < 128) && SplitName(path).Some?
  }

  ghost predicate Archivable(r: Record) {
    Portable(r.name) && r.mode < 4096 && |r.content| <= READER_LIMIT
  }

  function Expected(r: Record): Member {
    Member(Header(r.name, r.mode, |r.content|, false), r.content)
  }

  /** The next field of a header, and what follows it. */
  lemma {:induction false} Field<T>(h: seq<T>, at: nat, field: seq<T>, rest: seq<T>)
    requires at <= |h| && h[at..] == field + rest
    ensures at + |field| <= |h| && h[at..at + |field|] == field && h[at + |field|..] == rest
  {
    Seqs.DropAppend(field, rest);
    Seqs.SliceOfDrop(h, at, |field|);
    Seqs.DropDrop(h, at, |field|);
  }

  lemma {:induction false} HeadFields(h: seq<byte>, name: seq<byte>, mode: nat, size: nat, rest: seq<byte>)
    requires |name| <= 100 && h == Head(name, mode, size) + rest
    ensures |h| >= 148 && h[..148] == Head(name, mode, size) && h[148..] == rest
    ensures h[..100] == TextField(name, 100) && h[100..108] == NumberField(mode % 4096, 8)
    ensures h[108..116] == NumberField(0, 8) && h[116..124] == NumberField(0, 8)
    ensures h[124..136] == NumberField(size, 12) && h[136..148] == NumberField(0, 12)
  {
    hide NumberField;
    hide TextField;
    var a, b, c, d, e, f := TextField(name, 100), NumberField(mode % 4096, 8), NumberField(0, 8), NumberField(0, 8),
      NumberField(size, 12), NumberField(0, 12);
    Seqs.DropAppend(Head(name, mode, size), rest);
    assert h[0..] == h;
    Seqs.Assoc(a, b + (c + (d + (e + f))), rest);
    Seqs.Assoc(b, c + (d + (e + f)), rest);
    Seqs.Assoc(c, d + (e + f), rest);
    Seqs.Assoc(d, e + f, rest);
    Seqs.Assoc(e, f, rest);
    Field(h, 0, a, b + (c + (d + (e + f))) + rest);
    Field(h, 100, b, c + (d + (e + f)) + rest);
    Field(h, 108, c, d + (e + f) + rest);
    Field(h, 116, d, e + f + rest);
    Field(h, 124, e, f + rest);
    Field(h, 136, f, rest);
  }

  lemma {:induction false} TailFields(h: seq<byte>, prefix: seq<byte>)
    requires |prefix| <= 155 && |h| == BLOCK && h[156..] == Tail(prefix)
    ensures h[156] == 48 && h[157..257] == Zeros(100) && h[257..265] == MAGIC
    ensures h[265..297] == Zeros(32) && h[297..329] == Zeros(32)
    ensures h[329..337] == Zeros(8) && h[337..345] == Zeros(8)
    ensures h[345..500] == TextField(prefix, 155) && h[500..512] == Zeros(12)
  {
    hide TextField;
    hide Zeros;
    var p := TextField(prefix, 155);
    var t7 := p + Zeros(12);
    var t6 := Zeros(8) + t7;
    var t5 := Zeros(8) + t6;
    var t4 := Zeros(32) + t5;
    var t3 := Zeros(32) + t4;
    var t2 := MAGIC + t3;
    var t1 := Zeros(100) + t2;
    Field(h, 156, [48], t1);
    assert h[156..157][0] == h[156];
    Field(h, 157, Zeros(100), t2);
    Field(h, 257, MAGIC, t3);
    Field(h, 265, Zeros(32), t4);
    Field(h, 297, Zeros(32), t5);
    Field(h, 329, Zeros(8), t6);
    Field(h, 337, Zeros(8), t7);
    Field(h, 345, p, Zeros(12));
  }

  lemma {:induction false} Widths()
    ensures Pow8(6) == 262144 && Pow8(7) == 2097152 && Pow8(11) == 8589934592
  {
    assert Pow8(6) == 8 * Pow8(5) && Pow8(5) == 8 * Pow8(4) && Pow8(4) == 8 * Pow8(3) && Pow8(3) == 8 * Pow8(2);
    assert Pow8(2) == 8 * Pow8(1) && Pow8(1) == 8 * Pow8(0);
    assert Pow8(7) == 8 * Pow8(6) && Pow8(8) == 8 * Pow8(7) && Pow8(9) == 8 * Pow8(8) && Pow8(10) == 8 * Pow8(9);
  }

  /** The checksum field reads back as the sum it was computed from. */
  lemma {:induction false} ChecksumReads(h: seq<byte>, head: seq<byte>, tail: seq<byte>)
    requires |head| == 148 && |tail| == 356 && h == head + (Octal(Checksum(head, tail), 6) + [0, SPACE] + tail)
    ensures |h| == BLOCK && h[156..] == tail && NumberOf(h[148..156], true).Some? && ChecksumRight(h)
  {
    var n := Checksum(head, tail);
    Widths();
    ValueOfOctal(n, 6);
    hide Octal;
    hide OctalValue;
    hide Sum;
    hide SignedSum;
    hide Pow8;
    var field := Octal(n, 6) + [0, SPACE];
    DigitsThenPadding(Octal(n, 6), [0, SPACE], true);
    Seqs.DropAppend(head, field + tail);
    Field(h, 148, field, tail);
  }

  /** The prefix and name fields of a portable path are canonical, and joining them gives the path back. */
  lemma {:induction false} SplitJoins(path: seq<byte>)
    requires Portable(path)
    ensures var (prefix, name) := SplitName(path).value;
            && |name| <= 100 && |prefix| <= 155 && Canonical(name) && (prefix != [] ==> Canonical(prefix))
            && path == (if prefix != [] then prefix + [SLASH] + name else name)
            && (forall i :: 0 <= i < |name| ==> name[i] < 128) && (forall i :: 0 <= i < |prefix| ==> prefix[i] < 128)
  {
    hide Canonical;
    if |path| > 100 {
      var k := SplitAt(path, 0).value;
      var prefix, name := path[..k], path[k + 1..];
      assert path == prefix + [SLASH] + name;
      CanonicalSplit(prefix, name);
      CanonicalNonempty(prefix);
    }
  }

  lemma {:induction false} CanonicalNonempty(s: seq<byte>)
    requires Canonical(s)
    ensures s != [] && forall i :: 0 <= i < |s| ==> s[i] != 0
  {
    hide Parts;
  }

  /** A text field holding an ASCII name reads back as that name. */
  lemma {:induction false} NameReads(s: seq<byte>, width: nat)
    requires |s| <= width && forall i :: 0 <= i < |s| ==> 0 < s[i] < 128
    ensures TextOf(TextField(s, width)) == Some(s)
  {
    AsciiIsUtf8(s);
    hide Utf8;
    TextFieldReads(s, width);
  }

  lemma {:induction false} ZeroTextReads(width: nat)
    ensures TextOf(Zeros(width)).Some?
  {
    assert TextField([], width) == Zeros(width);
    TextFieldReads([], width);
  }

  /** The reader takes back from a written header exactly what the writer put in. */
  lemma {:induction false} HeaderRoundTrip(r: Record)
    requires Archivable(r)
    ensures HeaderBlock(r.name, r.mode, |r.content|).Some?
    ensures ReadHeader(HeaderBlock(r.name, r.mode, |r.content|).value) == Some(Expected(r).header)
  {
    hide Octal;
    hide NumberOf;
    hide TextOf;
    hide Canonical;
    hide ChecksumRight;
    hide Checksum;
    hide NumberField;
    hide TextField;
    hide Zeros;
    hide Pow8;
    hide Utf8;
    var size := |r.content|;
    Widths();
    SplitJoins(r.name);
    var (prefix, name) := SplitName(r.name).value;
    var head, tail := Head(name, r.mode, size), Tail(prefix);
    var h := HeaderBlock(r.name, r.mode, size).value;
    WrittenFields(h, name, prefix, r.mode, size);
    hide Head;
    hide Tail;
    CanonicalNonempty(name);
  }

  /** Every check of `ReadHeader` on a written header, with what it reads. */
  lemma {:induction false} WrittenFields(h: seq<byte>, name: seq<byte>, prefix: seq<byte>, mode: nat, size: nat)
    requires |name| <= 100 && |prefix| <= 155 && Canonical(name) && (prefix != [] ==> Canonical(prefix))
    requires (forall i :: 0 <= i < |name| ==> name[i] < 128) && (forall i :: 0 <= i < |prefix| ==> prefix[i] < 128)
    requires mode < 4096 && size <= READER_LIMIT
    requires var head, tail := Head(name, mode, size), Tail(prefix);
             h == head + (Octal(Checksum(head, tail), 6) + [0, SPACE] + tail)
    ensures |h| == BLOCK && h[156] == 48 && h[257..265] == MAGIC && AllZero(h[500..512])
    ensures TextOf(h[157..257]).Some? && TextOf(h[265..297]).Some? && TextOf(h[297..329]).Some?
    ensures NumbersRight(h) && ChecksumRight(h)
    ensures TextOf(h[..100]) == Some(name) && TextOf(h[345..500]) == Some(prefix)
    ensures NumberOf(h[100..108], true) == Some(mode) && NumberOf(h[124..136], true) == Some(size)
  {
    hide Octal;
    hide NumberOf;
    hide TextOf;
    hide ChecksumRight;
    hide Checksum;
    hide NumberField;
    hide TextField;
    hide Zeros;
    hide Pow8;
    hide Head;
    hide Tail;
    hide Parts;
    var head, tail := Head(name, mode, size), Tail(prefix);
    HeadFields(h, name, mode, size, Octal(Checksum(head, tail), 6) + [0, SPACE] + tail);
    ChecksumReads(h, head, tail);
    TailFields(h, prefix);
    Widths();
    NumberFieldReads(mode % 4096, 8, true);
    NumberFieldReads(0, 8, true);
    NumberFieldReads(size, 12, true);
    NumberFieldReads(0, 12, true);
    ZeroFieldReads(8);
    ZeroTextReads(100);
    ZeroTextReads(32);
    NameReads(name, 100);
    PrefixReads(prefix);
  }

  lemma {:induction false} PrefixReads(prefix: seq<byte>)
    requires |prefix| <= 155 && (prefix != [] ==> Canonical(prefix))
    requires forall i :: 0 <= i < |prefix| ==> prefix[i] < 128
    ensures TextOf(TextField(prefix, 155)) == Some(prefix)
  {
    hide TextOf;
    hide TextField;
    if prefix != [] { CanonicalNonempty(prefix); }
    hide Canonical;
    NameReads(prefix, 155);
  }

  // ---- Whole archives ----

  ghost predicate AllArchivable(records: seq<Record>) {
    forall i :: 0 <= i < |records| ==> Archivable(records[i])
  }

  function ExpectedMembers(records: seq<Record>): (members: seq<Member>)
    ensures |members| == |records|
  {
    seq(|records|, i requires 0 <= i < |records| => Expected(records[i]))
  }

  /** A block that a reader takes as a header is not an end marker. */
  lemma {:induction false} HeaderNotZero(h: seq<byte>)
    requires |h| == BLOCK && ReadHeader(h).Some?
    ensures !AllZero(h)
  {
    hide TextOf;
    hide NumbersRight;
    hide ChecksumRight;
    hide RawPath;
    assert h[257..265][0] == h[257];
    assert h[257] == 117;
  }

  lemma {:induction false} ContentTaken(h: seq<byte>, content: seq<byte>, rest: seq<byte>, header: Header)
    requires |h| == BLOCK && header.size == |content|
    ensures var n := BLOCK + RoundedSize(|content|);
            TakeContent(h + content + Zeros(PaddingSize(|content|)) + rest, header)
              == FoundMember(Member(header, content), n)
  {
    hide RoundedSize;
    hide PaddingSize;
    PaddingRounds(|content|);
    Seqs.FourParts(h, content, Zeros(PaddingSize(|content|)), rest);
  }

  /** One written member at the front of the data is found again, with its padding. */
  lemma {:induction false} MemberFound(r: Record, rest: seq<byte>)
    requires Archivable(r)
    ensures MemberBytes(r).Some?
    ensures FindMember(MemberBytes(r).value + rest) == FoundMember(Expected(r), |MemberBytes(r).value|)
  {
    hide HeaderBlock;
    hide ReadHeader;
    hide Archivable;
    hide Zeros;
    hide RoundedSize;
    hide PaddingSize;
    hide TakeContent;
    hide AllZero;
    HeaderRoundTrip(r);
    MemberLength(r);
    var h := HeaderBlock(r.name, r.mode, |r.content|).value;
    HeaderNotZero(h);
    ContentTaken(h, r.content, rest, Expected(r).header);
    Seqs.FourParts(h, r.content, Zeros(PaddingSize(|r.content|)), rest);
  }

  /** Reading goes on behind it. */
  lemma {:induction false} MemberReads(r: Record, rest: seq<byte>)
    requires Archivable(r)
    ensures MemberBytes(r).Some?
    ensures var reading := ReadFrom(rest);
            ReadFrom(MemberBytes(r).value + rest) == Reading([Expected(r)] + reading.members, reading.complete)
  {
    hide MemberBytes;
    hide FindMember;
    hide Archivable;
    MemberFound(r, rest);
    Seqs.DropAppend(MemberBytes(r).value, rest);
  }

  /** Reading back what was written gives the same names, modes and contents, in order, and a clean end. */
  lemma {:induction false} ArchiveRoundTrip(records: seq<Record>)
    requires AllArchivable(records)
    ensures Archive(records).Some? && ReadArchive(Archive(records).value) == Reading(ExpectedMembers(records), true)
  {
    ArchiveReads(records);
    SizeAsComputed(records);
    WholeBlocks(records);
  }

  lemma {:induction false} ArchiveReads(records: seq<Record>)
    requires AllArchivable(records)
    ensures Archive(records).Some? && ReadFrom(Archive(records).value) == Reading(ExpectedMembers(records), true)
  {
    hide MemberBytes;
    hide Expected;
    hide ReadHeader;
    hide Archivable;
    if records == [] {
      assert ExpectedMembers(records) == [];
    } else {
      ArchiveReads(records[1..]);
      MemberReads(records[0], Archive(records[1..]).value);
      hide ReadFrom;
      assert ExpectedMembers(records) == [Expected(records[0])] + ExpectedMembers(records[1..]);
    }
  }

  /** Blocks that spell out members: each header block, its content, its zero padding; then only zeros. */
  ghost function Layout(headers: seq<seq<byte>>, members: seq<Member>, end: nat): seq<byte>
    requires |headers| == |members|
  {
    if members == [] then Zeros(end)
    else
      headers[0] + members[0].content + Zeros(PaddingSize(members[0].header.size)) +
      Layout(headers[1..], members[1..], end)
  }

  /** A header block says what its member is, and the member has the announced size. */
  ghost predicate Describes(headers: seq<seq<byte>>, members: seq<Member>) {
    |headers| == |members| &&
    forall i :: 0 <= i < |headers| ==>
      |headers[i]| == BLOCK && ReadHeader(headers[i]) == Some(members[i].header) &&
      |members[i].content| == members[i].header.size
  }

  lemma {:induction false} AllZeroIsZeros(s: seq<byte>)
    requires AllZero(s)
    ensures s == Zeros(|s|)
  {}

  /** Whatever the strict reader accepts to the end, it has accounted for every byte of it. */
  lemma {:induction false} NothingHidden(data: seq<byte>) returns (headers: seq<seq<byte>>, end: nat)
    requires ReadFrom(data).complete
    ensures Describes(headers, ReadFrom(data).members) && end >= 1024
    ensures data == Layout(headers, ReadFrom(data).members, end)
    decreases |data|
  {
    hide FindMember;
    match FindMember(data) {
      case ZeroBlock =>
        AllZeroIsZeros(data);
        headers, end := [], |data|;
      case FoundMember(member, length) =>
        var more;
        more, end := NothingHidden(data[length..]);
        headers := [data[..BLOCK]] + more;
        MemberAccounted(data);
        var members := [member] + ReadFrom(data[length..]).members;
        assert ReadFrom(data).members == members;
        assert headers[1..] == more && members[1..] == ReadFrom(data[length..]).members;
        hide ReadFrom;
        DescribesCons(data[..BLOCK], member, more, members[1..]);
    }
  }

  lemma {:induction false} DescribesCons(h: seq<byte>, member: Member, headers: seq<seq<byte>>, members: seq<Member>)
    requires Describes(headers, members) && |h| == BLOCK && ReadHeader(h) == Some(member.header)
    requires |member.content| == member.header.size
    ensures Describes([h] + headers, [member] + members)
  {
    hide ReadHeader;
  }

  /** A found member's bytes are its header block, its content and zero padding. */
  lemma {:induction false} MemberAccounted(data: seq<byte>)
    requires |data| >= BLOCK && FindMember(data).FoundMember?
    ensures var m, n := FindMember(data).member, FindMember(data).length;
            && ReadHeader(data[..BLOCK]) == Some(m.header) && |m.content| == m.header.size
            && data == data[..BLOCK] + m.content + Zeros(PaddingSize(m.header.size)) + data[n..]
  {
    hide ReadHeader;
    var m, n := FindMember(data).member, FindMember(data).length;
    PaddingRounds(m.header.size);
    AllZeroIsZeros(data[BLOCK + m.header.size..n]);
  }

  // ---- The builder's own names ----

  predicate PathByte(b: byte) {
    65 <= b < 91 || 97 <= b < 123 || 48 <= b < 58 || b == 95 || b == 46 || b == 43 || b == 45
  }

  /** `_safe_name`. */
  predicate SafeName(name: seq<byte>) {
    && name != [] && |name| <= 240 && |Parts(name)| <= 32
    && forall k :: 0 <= k < |Parts(name)| ==>
         GoodPart(Parts(name)[k]) && forall i :: 0 <= i < |Parts(name)[k]| ==> PathByte(Parts(name)[k][i])
  }

  lemma {:induction false} PartBytes(s: seq<byte>, i: nat)
    requires i < |s|
    ensures s[i] == SLASH || exists k, j :: 0 <= k < |Parts(s)| && 0 <= j < |Parts(s)[k]| && Parts(s)[k][j] == s[i]
  {
    if s[i] != SLASH {
      var rest := Parts(s[1..]);
      if i == 0 {
        assert Parts(s)[0][0] == s[0];
      } else {
        PartBytes(s[1..], i - 1);
        var k, j :| 0 <= k < |rest| && 0 <= j < |rest[k]| && rest[k][j] == s[i];
        if s[0] == SLASH {
          assert Parts(s)[k + 1] == rest[k];
          assert Parts(s)[k + 1][j] == s[i];
        } else if k == 0 {
          assert Parts(s)[0] == [s[0]] + rest[0];
          assert Parts(s)[0][j + 1] == s[i];
        } else {
          assert Parts(s)[k] == rest[k];
          assert Parts(s)[k][j] == s[i];
        }
      }
    }
  }

  /** Every name the builder lets through can be archived and read back, if it fits or splits. */
  lemma {:induction false} SafeNamesPortable(name: seq<byte>)
    requires SafeName(name)
    ensures Portable(name) <==> SplitName(name).Some?
  {
    hide SplitName;
    forall i | 0 <= i < |name| ensures name[i] != 92 && name[i] != 0 && name[i] < 128 {
      PartBytes(name, i);
      hide Parts;
    }
    hide Parts;
  }

  // ---- The writer and the reader as loops ----

  const CHUNK := 65536
  const WRITER_LIMIT := 4294967296

  /** An ideal digest: equal only for equal bytes. */
  datatype Digest = Digest(content: seq<byte>)

  datatype Entry = Entry(name: seq<byte>, size: nat, digest: Digest, mode: nat)

  datatype Written = Done(archive: seq<byte>) | LimitExceeded | Refused | SourceChanged

  function Declared(r: Record): Entry {
    Entry(r.name, |r.content|, Digest(r.content), r.mode)
  }

  /** The chunk loop of `_stream_archive`. */
  method EmitSource(archive: seq<byte>, source: seq<byte>) returns (out: seq<byte>, fits: bool)
    requires |archive| <= WRITER_LIMIT
    ensures fits <==> |archive| + |source| <= WRITER_LIMIT
    ensures fits ==> out == archive + source
  {
    out := archive;
    var observed := 0;
    while observed < |source|
      invariant observed <= |source| && out == archive + source[..observed] && |out| <= WRITER_LIMIT
    {
      var chunk := source[observed..Min(observed + CHUNK, |source|)];
      if |out| + |chunk| > WRITER_LIMIT { return out, false; }
      assert source[..observed + |chunk|] == source[..observed] + chunk;
      out := out + chunk;
      observed := observed + |chunk|;
    }
    assert source[..observed] == source;
    fits := true;
  }

  /** The declared entries with the bytes their sources turn out to hold. */
  function Sourced(entries: seq<Entry>, sources: seq<seq<byte>>): (records: seq<Record>)
    requires |entries| == |sources|
    ensures |records| == |entries|
  {
    seq(|entries|, i requires 0 <= i < |entries| => Record(entries[i].name, entries[i].mode, sources[i]))
  }

  /**
   * `_stream_archive`: the archive grows header by header and chunk by chunk, each emit checked against the limit.
   * It succeeds exactly when every source still is what its entry declares, every header can be written and the
   * archive of the precomputed size is within the limit.
   */
  method StreamArchive(entries: seq<Entry>, sources: seq<seq<byte>>) returns (w: Written)
    requires |entries| == |sources|
    ensures var records := Sourced(entries, sources);
            && (w.Done? <==>
                  && (forall i :: 0 <= i < |entries| ==> Declared(records[i]) == entries[i])
                  && Archive(records).Some? && ExpectedSize(records) <= WRITER_LIMIT)
            && (w.Done? ==> Archive(records) == Some(w.archive) && |w.archive| == ExpectedSize(records))
  {
    hide HeaderBlock;
    hide ExpectedSize;
    hide Archive;
    ghost var records := Sourced(entries, sources);
    var archive := [];
    var m := 0;
    assert records[..0] == [];
    while m < |entries|
      invariant m <= |entries|
      invariant forall i :: 0 <= i < m ==> Declared(records[i]) == entries[i]
      invariant Members(records[..m]) == Some(archive) && |archive| <= WRITER_LIMIT
    {
      PrefixFits(records, m);
      var appended := EmitMember(archive, entries[m], sources[m]);
      if !appended.Done? { return appended; }
      MembersSnoc(records[..m], records[m]);
      assert records[..m + 1] == records[..m] + [records[m]];
      archive := appended.archive;
      m := m + 1;
    }
    assert records[..m] == records;
    ArchiveIsMembers(records);
    SizeAsComputed(records);
    if |archive| + 1024 > WRITER_LIMIT { return LimitExceeded; }
    w := Done(archive + Zeros(1024));
  }

  /** One turn of the member loop. */
  method EmitMember(archive: seq<byte>, entry: Entry, source: seq<byte>) returns (w: Written)
    requires |archive| <= WRITER_LIMIT
    ensures var r := Record(entry.name, entry.mode, source);
            && (w.Done? ==> Declared(r) == entry && MemberBytes(r).Some? && w.archive == archive + MemberBytes(r).value)
            && (w.Done? ==> |w.archive| <= WRITER_LIMIT)
            && (Declared(r) == entry && MemberBytes(r).Some? && |archive| + |MemberBytes(r).value| <= WRITER_LIMIT ==>
                w.Done?)
  {
    hide HeaderBlock;
    var header := HeaderBlock(entry.name, entry.mode, entry.size);
    if header.None? { return Refused; }
    if |archive| + BLOCK > WRITER_LIMIT { return LimitExceeded; }
    var out, fits := EmitSource(archive + header.value, source);
    if !fits { return LimitExceeded; }
    if |source| != entry.size || Digest(source) != entry.digest { return SourceChanged; }
    var padding := PaddingSize(entry.size);
    if padding > 0 && |out| + padding > WRITER_LIMIT { return LimitExceeded; }
    assert out + Zeros(padding) == archive + (header.value + source + Zeros(padding));
    w := Done(out + Zeros(padding));
  }

  /** What a complete archive needs for its first members, the next one included. */
  lemma {:induction false} PrefixFits(records: seq<Record>, m: nat)
    requires m < |records| && Members(records[..m]).Some?
    ensures Archive(records).Some? ==>
              && MemberBytes(records[m]).Some?
              && |Members(records[..m]).value| + |MemberBytes(records[m]).value| <= ExpectedSize(records)
    decreases m
  {
    hide MemberBytes;
    if Archive(records).Some? {
      MemberLength(records[0]);
      if m > 0 {
        assert records[..m][1..] == records[1..][..m - 1];
        PrefixFits(records[1..], m - 1);
      } else {
        assert records[..0] == [];
      }
    }
  }

  /** The members without the end markers. */
  function Members(records: seq<Record>): Option<seq<byte>> {
    if records == [] then Some([])
    else
      var first, rest := MemberBytes(records[0]), Members(records[1..]);
      if first.None? || rest.None? then None else Some(first.value + rest.value)
  }

  lemma {:induction false} MembersSnoc(records: seq<Record>, r: Record)
    requires Members(records).Some? && MemberBytes(r).Some?
    ensures Members(records + [r]) == Some(Members(records).value + MemberBytes(r).value)
  {
    hide MemberBytes;
    if records == [] {
      assert records + [r] == [r] && [r][1..] == [];
      assert Members([]) == Some([]);
      assert MemberBytes(r).value + [] == [] + MemberBytes(r).value;
    } else {
      MembersSnoc(records[1..], r);
      Seqs.DropPart(records, [r], 1);
      Seqs.Assoc(MemberBytes(records[0]).value, Members(records[1..]).value, MemberBytes(r).value);
    }
  }

  lemma {:induction false} ArchiveIsMembers(records: seq<Record>)
    requires Members(records).Some?
    ensures Archive(records) == Some(Members(records).value + Zeros(1024))
  {
    hide MemberBytes;
    if records == [] {
      assert [] + Zeros(1024) == Zeros(1024);
    } else {
      ArchiveIsMembers(records[1..]);
      Seqs.Assoc(MemberBytes(records[0]).value, Members(records[1..]).value, Zeros(1024));
    }
  }

  /** `_physical_members`: one pass over the data with a growing offset. */
  method PhysicalMembers(data: seq<byte>) returns (members: seq<Member>, complete: bool)
    ensures Reading(members, complete) == ReadArchive(data)
  {
    hide FindMember;
    members := [];
    if |data| % BLOCK != 0 { return [], false; }
    var offset := 0;
    assert data[0..] == data;
    while offset < |data|
      invariant offset <= |data| && (|data| - offset) % BLOCK == 0
      invariant var rest := ReadFrom(data[offset..]);
                ReadFrom(data) == Reading(members + rest.members, rest.complete)
    {
      ghost var rest := data[offset..];
      var found := MemberAt(data, offset);
      match found {
        case BadBlock => return members, false;
        case ZeroBlock => return members, |data| - offset >= 1024 && AllZero(data[offset..]);
        case FoundMember(member, length) =>
          Seqs.DropDrop(data, offset, length);
          Seqs.Assoc(members, [member], ReadFrom(rest[length..]).members);
          members := members + [member];
          offset := offset + length;
      }
    }
    complete := false;
  }

  /** The loop body: the header, then the content, then the padding, at their offsets. */
  method MemberAt(data: seq<byte>, offset: nat) returns (found: Found)
    requires offset + BLOCK <= |data|
    ensures found == FindMember(data[offset..])
  {
    hide ReadHeader;
    ghost var rest := data[offset..];
    var header := data[offset..offset + BLOCK];
    Seqs.SliceOfDrop(data, offset, BLOCK);
    if AllZero(header) { return ZeroBlock; }
    var read := ReadHeader(header);
    if read.None? { return BadBlock; }
    var start := offset + BLOCK;
    var end := start + read.value.size;
    var next := start + RoundedSize(read.value.size);
    if next > |data| { return BadBlock; }
    Seqs.SliceOfSlice(data, offset, end - offset, next - offset);
    Seqs.SliceOfSlice(data, offset, BLOCK, end - offset);
    if !AllZero(data[end..next]) { return BadBlock; }
    found := FoundMember(Member(read.value, data[start..end]), next - offset);
  }
}
