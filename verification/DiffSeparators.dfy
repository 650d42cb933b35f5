/**
 * The diff parser on texts with further line separators. What follows such a separator is a line of its own to the
 * parser; if it begins like a hunk header, its range counts as added.
 */
module DiffSeparators {
  import opened Bytes
  import opened Texts
  import opened DiffGate
  import Seqs

  // ---- What pieces do inside the hunks of a file ----

  /** The lines a piece has the parser add. */
  function PieceRange(piece: string): set<int> {
    if HUNK <= piece && FindRange(piece).Some? then Span(FindRange(piece).value.0, FindRange(piece).value.1) else {}
  }

  function Ranges(pieces: seq<string>): set<int> {
    if pieces == [] then {} else PieceRange(pieces[0]) + Ranges(pieces[1..])
  }

  predicate HasRange(piece: string) {
    HUNK <= piece ==> FindRange(piece).Some?
  }

  ghost predicate Ranged(pieces: seq<string>) {
    forall k :: 0 <= k < |pieces| ==> HasRange(pieces[k])
  }

  ghost predicate NoFile(pieces: seq<string>) {
    forall k :: 0 <= k < |pieces| ==> !(FILE <= pieces[k])
  }

  lemma {:induction false} PieceStep(s: Parser, piece: string)
    requires InHunks(s) && !(FILE <= piece)
    ensures Step(s, piece)
         == if s.current.None? then Some(s) else if HasRange(piece) then Some(Add(s, PieceRange(piece))) else None
  {
    hide FindRange;
    if s.current.Some? { AddNothing(s); }
  }

  lemma {:induction false} AddNothing(s: Parser)
    requires s.Valid() && s.current.Some?
    ensures Add(s, {}) == s
  {
    assert s.changed[s.current.value] + {} == s.changed[s.current.value];
    assert Add(s, {}).changed == s.changed;
  }

  lemma {:induction false} PiecesParse(s: Parser, pieces: seq<string>)
    requires InHunks(s) && NoFile(pieces)
    ensures Parse(s, pieces)
         == if s.current.None? then Some(s) else if Ranged(pieces) then Some(Add(s, Ranges(pieces))) else None
    decreases |pieces|
  {
    hide Step;
    hide HasRange;
    hide PieceRange;
    if pieces == [] {
      if s.current.Some? { AddNothing(s); }
    } else {
      var p, rest := pieces[0], pieces[1..];
      PieceStep(s, p);
      assert Ranged(pieces) <==> HasRange(p) && Ranged(rest) by {
        assert forall k :: 0 <= k < |rest| ==> rest[k] == pieces[k + 1];
        assert forall k :: 0 < k < |pieces| ==> pieces[k] == rest[k - 1];
      }
      if s.current.None? {
        PiecesParse(s, rest);
      } else if HasRange(p) {
        PiecesParse(Add(s, PieceRange(p)), rest);
        AddTwice(s, PieceRange(p), Ranges(rest));
      }
    }
  }

  // ---- The pieces of hunks ----

  /** What follows further separators of a line. */
  function Behind(line: string, end: bool): seq<string> {
    FirstPiece(line, end);
    Pieces(line, end)[1..]
  }

  /** The same of all lines. */
  function Extras(lines: seq<string>, ends: seq<bool>): seq<string>
    requires |lines| == |ends|
  {
    if lines == [] then [] else Behind(lines[0], ends[0]) + Extras(lines[1..], ends[1..])
  }

  /** The pieces add these lines, and what the extra ones among them add. */
  ghost predicate Yields(all: seq<string>, extras: seq<string>, added: set<int>) {
    (NoFile(all) <==> NoFile(extras)) && (Ranged(all) <==> Ranged(extras)) && Ranges(all) == added + Ranges(extras)
  }

  lemma {:induction false} RangesAppend(a: seq<string>, b: seq<string>)
    ensures Ranges(a + b) == Ranges(a) + Ranges(b)
  {
    hide PieceRange;
    if a == [] {
      assert a + b == b;
    } else {
      assert (a + b)[0] == a[0] && (a + b)[1..] == a[1..] + b;
      RangesAppend(a[1..], b);
    }
  }

  lemma {:induction false} RangedAppend(a: seq<string>, b: seq<string>)
    ensures Ranged(a + b) <==> Ranged(a) && Ranged(b)
    ensures NoFile(a + b) <==> NoFile(a) && NoFile(b)
  {
    hide HasRange;
    hide FILE;
    var c := a + b;
    assert forall k :: 0 <= k < |a| ==> c[k] == a[k];
    assert forall k :: 0 <= k < |b| ==> c[|a| + k] == b[k];
    assert forall k :: |a| <= k < |c| ==> c[k] == b[k - |a|];
  }

  lemma {:induction false} YieldsAppend(
    a: seq<string>, x: seq<string>, s: set<int>, b: seq<string>, y: seq<string>, t: set<int>)
    requires Yields(a, x, s) && Yields(b, y, t)
    ensures Yields(a + b, x + y, s + t)
  {
    RangesAppend(a, b);
    RangesAppend(x, y);
    RangedAppend(a, b);
    RangedAppend(x, y);
    hide Ranged;
    hide NoFile;
    hide Ranges;
  }

  /** One line, its first piece given. */
  lemma {:induction false} LineYields(line: string, end: bool, added: set<int>)
    requires var first := line[..Cut(line)]; !(FILE <= first) && HasRange(first) && PieceRange(first) == added
    ensures Yields(Pieces(line, end), Behind(line, end), added)
  {
    FirstPiece(line, end);
    var pieces := Pieces(line, end);
    Seqs.Uncons(pieces);
    var first, rest := line[..Cut(line)], pieces[1..];
    hide Pieces;
    hide HasRange;
    hide PieceRange;
    hide FILE;
    assert Ranges([first]) == added by { assert [first][1..] == []; }
    assert NoFile([first]) && Ranged([first]);
    RangesAppend([first], rest);
    RangedAppend([first], rest);
  }

  lemma {:induction false} BodyFirst(line: string)
    requires line != "" && (line[0] == '-' || line[0] == '+' || line[0] == '\\')
    ensures var first := line[..Cut(line)]; !(FILE <= first) && HasRange(first) && PieceRange(first) == {}
  {
    var first := line[..Cut(line)];
    assert first[0] == line[0];
    Differs(FILE, first, 0);
    Differs(HUNK, first, 0);
  }

  lemma {:induction false} HeaderFirst(h: Hunk)
    ensures var first := HunkHeader(h)[..Cut(HunkHeader(h))];
            !(FILE <= first) && HasRange(first) && PieceRange(first) == Span(h.newStart, |h.added|)
  {
    var line := HunkHeader(h);
    HeaderCut(h);
    var section :| line[..Cut(line)] == HunkHeader(h.(section := section));
    HeaderRange(h.(section := section));
    hide HunkHeader;
    hide FindRange;
    var first := line[..Cut(line)];
    assert first[0] == HUNK[0] == '@';
    Differs(FILE, first, 0);
  }

  lemma {:induction false} PiecesAppend(a: seq<string>, b: seq<string>, ends: seq<bool>)
    requires |ends| == |a| + |b|
    ensures AllPieces(a + b, ends) == AllPieces(a, ends[..|a|]) + AllPieces(b, ends[|a|..])
    ensures Extras(a + b, ends) == Extras(a, ends[..|a|]) + Extras(b, ends[|a|..])
  {
    hide Pieces;
    hide Behind;
    if a == [] {
      assert a + b == b && ends[0..] == ends && ends[..0] == [];
    } else {
      assert (a + b)[0] == a[0] && (a + b)[1..] == a[1..] + b;
      assert ends[..|a|][0] == ends[0] && ends[..|a|][1..] == ends[1..][..|a| - 1]
             && ends[1..][|a| - 1..] == ends[|a|..];
      PiecesAppend(a[1..], b, ends[1..]);
      Seqs.Assoc(Pieces(a[0], ends[0]), AllPieces(a[1..], ends[1..][..|a| - 1]), AllPieces(b, ends[|a|..]));
      Seqs.Assoc(Behind(a[0], ends[0]), Extras(a[1..], ends[1..][..|a| - 1]), Extras(b, ends[|a|..]));
    }
  }

  lemma {:induction false} OneLine(line: string, ends: seq<bool>)
    requires |ends| == 1
    ensures AllPieces([line], ends) == Pieces(line, ends[0])
    ensures Extras([line], ends) == Behind(line, ends[0])
  {
    hide Pieces;
    hide Behind;
    assert [line][1..] == [];
    assert Pieces(line, ends[0]) + [] == Pieces(line, ends[0]) && Behind(line, ends[0]) + [] == Behind(line, ends[0]);
  }

  lemma {:induction false} NothingYields()
    ensures Yields([], [], {})
  {}

  lemma {:induction false} BodyYields(lines: seq<string>, ends: seq<bool>)
    requires |lines| == |ends|
    requires forall i :: 0 <= i < |lines| ==>
               lines[i] != "" && (lines[i][0] == '-' || lines[i][0] == '+' || lines[i][0] == '\\')
    ensures Yields(AllPieces(lines, ends), Extras(lines, ends), {})
  {
    hide Pieces;
    hide Yields;
    hide NoFile;
    hide HasRange;
    hide PieceRange;
    if lines == [] {
      NothingYields();
    } else {
      var line, rest := lines[0], lines[1..];
      hide Behind;
      BodyFirst(line);
      LineYields(line, ends[0], {});
      BodyYields(rest, ends[1..]);
      YieldsAppend(Pieces(line, ends[0]), Behind(line, ends[0]), {}, AllPieces(rest, ends[1..]),
                   Extras(rest, ends[1..]), {});
      var none: set<int> := {};
      assert none + none == none;
    }
  }

  lemma {:induction false} HunksYield(hunks: seq<Hunk>, ends: seq<bool>)
    requires |ends| == |HunkLines(hunks)|
    ensures Yields(AllPieces(HunkLines(hunks), ends), Extras(HunkLines(hunks), ends), AddedBy(hunks))
    decreases |hunks|
  {
    hide Yields;
    hide NoFile;
    hide AllPieces;
    hide Extras;
    hide HunkHeader;
    hide HunkBody;
    hide Span;
    if hunks == [] {
      NoHunksYield(ends);
    } else {
      var h := hunks[0];
      var first, body, rest := HunkHeader(h), HunkBody(h), HunkLines(hunks[1..]);
      var n := 1 + |body|;
      PiecesAppend([first] + body, rest, ends);
      assert [first] + body + rest == HunkLines(hunks);
      HunkYields(h, ends[..n]);
      HunksYield(hunks[1..], ends[n..]);
      YieldsAppend(AllPieces([first] + body, ends[..n]), Extras([first] + body, ends[..n]), Span(h.newStart, |h.added|),
                   AllPieces(rest, ends[n..]), Extras(rest, ends[n..]), AddedBy(hunks[1..]));
    }
  }

  lemma {:induction false} NoHunksYield(ends: seq<bool>)
    requires ends == []
    ensures Yields(AllPieces(HunkLines([]), ends), Extras(HunkLines([]), ends), AddedBy([]))
  {}

  lemma {:induction false} HunkYields(h: Hunk, ends: seq<bool>)
    requires |ends| == |[HunkHeader(h)] + HunkBody(h)|
    ensures var lines := [HunkHeader(h)] + HunkBody(h);
            Yields(AllPieces(lines, ends), Extras(lines, ends), Span(h.newStart, |h.added|))
  {
    var first, body := HunkHeader(h), HunkBody(h);
    BodyLines(h);
    HeaderFirst(h);
    hide Yields;
    hide NoFile;
    hide AllPieces;
    hide Extras;
    hide HunkHeader;
    hide HunkBody;
    hide Span;
    hide HasRange;
    hide PieceRange;
    hide Cut;
    PiecesAppend([first], body, ends);
    OneLine(first, ends[..1]);
    hide Pieces;
    hide Behind;
    var p, x := Pieces(first, ends[0]), Behind(first, ends[0]);
    LineYields(first, ends[0], Span(h.newStart, |h.added|));
    BodyYields(body, ends[1..]);
    YieldsAppend(p, x, Span(h.newStart, |h.added|), AllPieces(body, ends[1..]), Extras(body, ends[1..]), {});
    assert Span(h.newStart, |h.added|) + {} == Span(h.newStart, |h.added|);
  }

  // ---- A whole diff ----

  lemma {:induction false} CleanAll(lines: seq<string>, ends: seq<bool>)
    requires |lines| == |ends| && forall i :: 0 <= i < |lines| ==> Clean(lines[i])
    ensures AllPieces(lines, ends) == lines && Extras(lines, ends) == []
  {
    hide Clean;
    hide Pieces;
    if lines != [] {
      CleanPieces(lines[0], ends[0]);
      CleanAll(lines[1..], ends[1..]);
      Seqs.Uncons(lines);
    }
  }

  function HeaderLines(f: FileDiff): seq<string> {
    [FILE + f.names] + f.extended + TargetLines(f.target)
  }

  /** Header lines without further separators, and no piece behind one that begins like a file header. */
  ghost predicate Unbroken(diff: seq<FileDiff>, ends: seq<bool>) {
    && (forall i :: 0 <= i < |diff| ==> diff[i].Valid() && CleanHeader(diff[i]))
    && |ends| == |DiffLines(diff)| && NoFile(Extras(DiffLines(diff), ends))
  }

  /** What the parser sees of the hunks of a file. */
  function BodyPieces(f: FileDiff, ends: seq<bool>): seq<string>
    requires |ends| == |FileLines(f)|
  {
    AllPieces(HunkLines(f.hunks), ends[|HeaderLines(f)|..])
  }

  /** None that begins like a destination follows one that begins like a file header. */
  ghost predicate NoTargetBehind(pieces: seq<string>) {
    forall j, k :: 0 <= j < k < |pieces| && FILE <= pieces[j] ==> !(TARGET <= pieces[k])
  }

  /** One that begins like a hunk header follows one that begins like a file header. */
  ghost predicate HunkBehind(pieces: seq<string>) {
    exists j, k :: 0 <= j < k < |pieces| && FILE <= pieces[j] && HUNK <= pieces[k]
  }

  ghost predicate NoStrayTarget(diff: seq<FileDiff>, ends: seq<bool>)
    requires |ends| == |DiffLines(diff)|
  {
    diff == [] ||
    var f, n := diff[0], |FileLines(diff[0])|;
    NoTargetBehind(BodyPieces(f, ends[..n])) && NoStrayTarget(diff[1..], ends[n..])
  }

  /** In some file a hunk header follows what looks like the header of another file. */
  ghost predicate CutOff(diff: seq<FileDiff>, ends: seq<bool>)
    requires |ends| == |DiffLines(diff)|
  {
    diff != [] &&
    var f, n := diff[0], |FileLines(diff[0])|;
    HunkBehind(BodyPieces(f, ends[..n])) || CutOff(diff[1..], ends[n..])
  }

  /** Header lines without further separators, and in no file's hunks a destination behind a file header. */
  ghost predicate Traceable(diff: seq<FileDiff>, ends: seq<bool>) {
    && (forall i :: 0 <= i < |diff| ==> diff[i].Valid() && CleanHeader(diff[i]))
    && |ends| == |DiffLines(diff)| && NoStrayTarget(diff, ends)
  }

  lemma {:induction false} HeaderParse(s: Parser, f: FileDiff)
    requires s.Valid() && f.Valid()
    ensures Parse(s, HeaderLines(f)) == AfterHeader(s, f)
    ensures AfterHeader(s, f).Some? && !f.target.Missing? ==> InHunks(AfterHeader(s, f).value)
  {
    hide FindRange;
    hide Extended;
    hide Step;
    var bare := f.(hunks := []);
    ParseFile(s, bare, []);
    NoHunks([]);
    assert FileLines(bare) + [] == HeaderLines(f);
    hide TargetLines;
    if AfterHeader(s, bare).Some? { AddedNothing(AfterHeader(s, bare).value); }
  }

  lemma {:induction false} FileSplit(f: FileDiff, ends: seq<bool>)
    requires CleanHeader(f) && |ends| == |FileLines(f)|
    ensures AllPieces(FileLines(f), ends) == HeaderLines(f) + BodyPieces(f, ends)
    ensures Yields(BodyPieces(f, ends), Extras(FileLines(f), ends), AddedBy(f.hunks))
  {
    var header, hunks := HeaderLines(f), HunkLines(f.hunks);
    var n := |header|;
    assert header + hunks == FileLines(f);
    PiecesAppend(header, hunks, ends);
    HeaderIsClean(f);
    CleanAll(header, ends[..n]);
    assert [] + Extras(hunks, ends[n..]) == Extras(hunks, ends[n..]);
    HunksYield(f.hunks, ends[n..]);
  }

  /** The parser on one file, its further pieces included. */
  lemma {:induction false} FilePieces(s: Parser, f: FileDiff, ends: seq<bool>)
    requires s.Valid() && f.Valid() && CleanHeader(f) && |ends| == |FileLines(f)| && NoFile(Extras(FileLines(f), ends))
    ensures var t, extras := AfterHeader(s, f), Extras(FileLines(f), ends);
            Parse(s, AllPieces(FileLines(f), ends)) ==
            if t.None? || t.value.current.None? then t
            else if Ranged(extras) then Some(Add(t.value, AddedBy(f.hunks) + Ranges(extras))) else None
  {
    FileSplit(f, ends);
    HeaderParse(s, f);
    if f.target.Missing? { MissingBody(f, ends); }
    hide HeaderLines;
    hide BodyPieces;
    hide FileLines;
    hide Extras;
    hide AllPieces;
    hide Ranges;
    hide Ranged;
    hide Extended;
    hide Step;
    ParseConcat(s, HeaderLines(f), BodyPieces(f, ends));
    var t := AfterHeader(s, f);
    if t.Some? && !f.target.Missing? { PiecesParse(t.value, BodyPieces(f, ends)); }
  }

  lemma {:induction false} MissingBody(f: FileDiff, ends: seq<bool>)
    requires f.Valid() && f.target.Missing? && |ends| == |FileLines(f)|
    ensures BodyPieces(f, ends) == []
  {
    NoHunkPieces(ends[|HeaderLines(f)|..]);
  }

  // ---- Behind a stray file header ----

  /** Waiting for a destination that does not come, the parser gives up at a hunk header and ignores the rest. */
  lemma {:induction false} WaitingParse(s: Parser, pieces: seq<string>)
    requires s.Valid() && s.awaiting && !s.seen && s.current.None?
    requires forall k :: 0 <= k < |pieces| ==> !(TARGET <= pieces[k])
    ensures Parse(s, pieces) == if exists k :: 0 <= k < |pieces| && HUNK <= pieces[k] then None else Some(s)
    decreases |pieces|
  {
    if pieces != [] {
      var p, rest := pieces[0], pieces[1..];
      WaitingStep(s, p);
      assert forall k :: 0 <= k < |rest| ==> rest[k] == pieces[k + 1];
      assert forall k :: 0 < k < |pieces| ==> pieces[k] == rest[k - 1];
      hide Step;
      hide FILE;
      hide TARGET;
      hide HUNK;
      WaitingParse(s, rest);
    }
  }

  lemma {:induction false} WaitingStep(s: Parser, piece: string)
    requires s.Valid() && s.awaiting && !s.seen && s.current.None? && !(TARGET <= piece)
    ensures Step(s, piece) == if HUNK <= piece then None else Some(s)
  {
    hide FindRange;
    if HUNK <= piece {
      assert piece[0] == HUNK[0] == '@';
      Differs(FILE, piece, 0);
    }
  }

  lemma {:induction false} NoHunkRanges(pieces: seq<string>)
    requires forall k :: 0 <= k < |pieces| ==> !(HUNK <= pieces[k])
    ensures Ranged(pieces) && Ranges(pieces) == {}
  {
    hide FindRange;
    hide HUNK;
    if pieces != [] { NoHunkRanges(pieces[1..]); }
  }

  lemma {:induction false} RangedCons(pieces: seq<string>)
    requires pieces != []
    ensures Ranged(pieces) <==> HasRange(pieces[0]) && Ranged(pieces[1..])
    ensures Ranges(pieces) == PieceRange(pieces[0]) + Ranges(pieces[1..])
  {
    Seqs.Uncons(pieces);
    RangedAppend([pieces[0]], pieces[1..]);
    hide HasRange;
    hide PieceRange;
  }

  lemma {:induction false} BehindCons(pieces: seq<string>)
    requires pieces != []
    ensures HunkBehind(pieces) <==>
            (FILE <= pieces[0] && exists k :: 0 <= k < |pieces[1..]| && HUNK <= pieces[1..][k])
              || HunkBehind(pieces[1..])
    ensures NoTargetBehind(pieces) ==> NoTargetBehind(pieces[1..])
    ensures NoTargetBehind(pieces) && FILE <= pieces[0] ==>
              forall k :: 0 <= k < |pieces[1..]| ==> !(TARGET <= pieces[1..][k])
  {
    hide FILE;
    hide TARGET;
    hide HUNK;
    var rest := pieces[1..];
    if j, k :| 0 <= j < k < |pieces| && FILE <= pieces[j] && HUNK <= pieces[k] {
      assert pieces[k] == rest[k - 1];
      if j > 0 { assert pieces[j] == rest[j - 1]; }
    }
    if k :| 0 <= k < |rest| && HUNK <= rest[k] { assert pieces[k + 1] == rest[k]; }
    if j, k :| 0 <= j < k < |rest| && FILE <= rest[j] && HUNK <= rest[k] {
      assert pieces[j + 1] == rest[j] && pieces[k + 1] == rest[k];
    }
    assert forall k :: 0 <= k < |rest| ==> rest[k] == pieces[k + 1];
  }

  /** The map after the pieces of the hunks of a file. */
  lemma {:induction false} BodyParse(s: Parser, pieces: seq<string>)
    requires InHunks(s) && NoTargetBehind(pieces)
    ensures Result(Parse(s, pieces))
         == if HunkBehind(pieces) || (s.current.Some? && !Ranged(pieces)) then None
            else Some(if s.current.None? then s.changed else Add(s, Ranges(pieces)).changed)
    decreases |pieces|
  {
    if pieces == [] {
      if s.current.Some? { AddNothing(s); }
    } else {
      var p, rest := pieces[0], pieces[1..];
      RangedCons(pieces);
      BehindCons(pieces);
      StrayFile(s, p);
      if !(FILE <= p) { PieceStep(s, p); }
      hide Step;
      hide HasRange;
      hide PieceRange;
      hide Ranged;
      hide Ranges;
      hide HunkBehind;
      hide NoTargetBehind;
      hide FILE;
      hide HUNK;
      hide TARGET;
      if FILE <= p {
        var waiting := Parser(s.changed, None, true, false);
        WaitingParse(waiting, rest);
        WaitingRest(rest, s);
      } else if s.current.None? {
        BodyParse(s, rest);
      } else if HasRange(p) {
        BodyParse(Add(s, PieceRange(p)), rest);
        AddTwice(s, PieceRange(p), Ranges(rest));
      }
    }
  }

  lemma {:induction false} StrayFile(s: Parser, piece: string)
    requires s.Valid()
    ensures FILE <= piece ==> Step(s, piece) == Some(Parser(s.changed, None, true, false))
    ensures FILE <= piece ==> HasRange(piece) && PieceRange(piece) == {}
  {
    hide FindRange;
    if FILE <= piece {
      assert piece[0] == FILE[0] == 'd';
      Differs(HUNK, piece, 0);
    }
  }

  /** With no hunk header behind it, a stray file header adds and takes away nothing. */
  lemma {:induction false} WaitingRest(rest: seq<string>, s: Parser)
    requires s.Valid()
    ensures HunkBehind(rest) ==> exists k :: 0 <= k < |rest| && HUNK <= rest[k]
    ensures !(exists k :: 0 <= k < |rest| && HUNK <= rest[k]) ==> Ranged(rest) && Ranges(rest) == {}
    ensures s.current.Some? ==> Add(s, {} + {}).changed == s.changed
  {
    hide FILE;
    hide HUNK;
    if !(exists k :: 0 <= k < |rest| && HUNK <= rest[k]) { NoHunkRanges(rest); }
    if s.current.Some? {
      var none: set<int> := {};
      assert none + none == none;
      AddNothing(s);
    }
  }

  /** The map after one file. */
  lemma {:induction false} FileResult(s: Parser, f: FileDiff, ends: seq<bool>)
    requires s.Valid() && f.Valid() && CleanHeader(f) && |ends| == |FileLines(f)| && NoTargetBehind(BodyPieces(f, ends))
    ensures var t, extras := AfterHeader(s, f), Extras(FileLines(f), ends);
            Result(Parse(s, AllPieces(FileLines(f), ends))) ==
            if t.None? || HunkBehind(BodyPieces(f, ends)) then None
            else if t.value.current.None? then Some(t.value.changed)
            else if Ranged(extras) then Some(Add(t.value, AddedBy(f.hunks) + Ranges(extras)).changed) else None
  {
    FileSplit(f, ends);
    HeaderParse(s, f);
    if f.target.Missing? { MissingBody(f, ends); }
    hide HeaderLines;
    hide BodyPieces;
    hide FileLines;
    hide Extras;
    hide AllPieces;
    hide Ranges;
    hide Ranged;
    hide Extended;
    hide Step;
    hide NoTargetBehind;
    ParseConcat(s, HeaderLines(f), BodyPieces(f, ends));
    var t := AfterHeader(s, f);
    if t.Some? && !f.target.Missing? { BodyParse(t.value, BodyPieces(f, ends)); }
  }

  lemma {:induction false} NoHunkPieces(ends: seq<bool>)
    requires ends == []
    ensures HunkLines([]) == [] && AllPieces([], ends) == []
  {}

  lemma {:induction false} HeaderIsClean(f: FileDiff)
    requires CleanHeader(f)
    ensures forall i :: 0 <= i < |HeaderLines(f)| ==> Clean(HeaderLines(f)[i])
  {
    hide Clean;
    hide TargetLines;
  }

  /** `piece` begins like a hunk header behind a further separator in a file with the unquoted destination `name`. */
  ghost predicate Stray(diff: seq<FileDiff>, ends: seq<bool>, name: string, piece: string)
    requires |ends| == |DiffLines(diff)|
  {
    diff != [] &&
    var f, n := diff[0], |FileLines(diff[0])|;
    || (f.target.Plain? && f.target.name == name && HUNK <= piece && piece in Extras(FileLines(f), ends[..n]))
    || Stray(diff[1..], ends[n..], name, piece)
  }

  predicate InRange(piece: string, n: int) {
    FindRange(piece).Some? && InSpan(FindRange(piece).value.0, FindRange(piece).value.1, n)
  }

  ghost predicate AllStrayRanged(diff: seq<FileDiff>, ends: seq<bool>)
    requires |ends| == |DiffLines(diff)|
  {
    forall name, piece :: Stray(diff, ends, name, piece) ==> FindRange(piece).Some?
  }

  /** What the parser makes of a diff in which nothing goes wrong. */
  function Shown(changed: Changed, diff: seq<FileDiff>, ends: seq<bool>): Changed
    requires |ends| == |DiffLines(diff)|
    decreases |diff|
  {
    if diff == [] then changed
    else
      var f, n := diff[0], |FileLines(diff[0])|;
      Shown(
        if !f.target.Plain? then changed
        else changed[f.target.name := (if f.target.name in changed then changed[f.target.name] else {})
                                    + (AddedBy(f.hunks) + Ranges(Extras(FileLines(f), ends[..n])))],
        diff[1..], ends[n..])
  }

  lemma {:induction false} PieceRangeExact(piece: string, n: int)
    ensures n in PieceRange(piece) <==> HUNK <= piece && InRange(piece, n)
  {
    hide FindRange;
  }

  lemma {:induction false} RangesExact(pieces: seq<string>, n: int)
    ensures n in Ranges(pieces) <==> exists piece :: piece in pieces && HUNK <= piece && InRange(piece, n)
  {
    hide FindRange;
    hide PieceRange;
    hide InRange;
    hide HUNK;
    if pieces != [] {
      RangesExact(pieces[1..], n);
      Seqs.Uncons(pieces);
      PieceRangeExact(pieces[0], n);
      assert pieces[0] in pieces;
    }
  }

  ghost predicate StrayAdds(diff: seq<FileDiff>, ends: seq<bool>, name: string, n: int)
    requires |ends| == |DiffLines(diff)|
  {
    exists piece :: Stray(diff, ends, name, piece) && InRange(piece, n)
  }

  lemma {:induction false} StraySplit(diff: seq<FileDiff>, ends: seq<bool>, name: string, n: int)
    requires diff != [] && |ends| == |DiffLines(diff)|
    ensures var f, k := diff[0], |FileLines(diff[0])|;
            StrayAdds(diff, ends, name, n) <==>
            || (f.target.Plain? && f.target.name == name && n in Ranges(Extras(FileLines(f), ends[..k])))
            || StrayAdds(diff[1..], ends[k..], name, n)
  {
    var f, k := diff[0], |FileLines(diff[0])|;
    var extras := Extras(FileLines(f), ends[..k]);
    RangesExact(extras, n);
    hide Extras;
    hide Ranges;
    hide InRange;
    hide FileLines;
    if piece :| Stray(diff, ends, name, piece) && InRange(piece, n) {
      assert (f.target.Plain? && f.target.name == name && HUNK <= piece && piece in extras)
          || Stray(diff[1..], ends[k..], name, piece);
    }
    if f.target.Plain? && f.target.name == name && n in Ranges(extras) {
      var piece :| piece in extras && HUNK <= piece && InRange(piece, n);
      assert Stray(diff, ends, name, piece);
    }
    if piece :| Stray(diff[1..], ends[k..], name, piece) && InRange(piece, n) {
      assert Stray(diff, ends, name, piece);
    }
  }

  lemma {:induction false} RangedSplit(diff: seq<FileDiff>, ends: seq<bool>)
    requires diff != [] && |ends| == |DiffLines(diff)|
    ensures var f, k := diff[0], |FileLines(diff[0])|;
            AllStrayRanged(diff, ends) <==>
            (f.target.Plain? ==> Ranged(Extras(FileLines(f), ends[..k]))) && AllStrayRanged(diff[1..], ends[k..])
  {
    var f, k := diff[0], |FileLines(diff[0])|;
    var extras := Extras(FileLines(f), ends[..k]);
    hide Extras;
    hide FindRange;
    hide FileLines;
    if AllStrayRanged(diff, ends) {
      if f.target.Plain? {
        forall i | 0 <= i < |extras| ensures HasRange(extras[i]) {
          if HUNK <= extras[i] { assert Stray(diff, ends, f.target.name, extras[i]); }
        }
      }
      forall name, piece | Stray(diff[1..], ends[k..], name, piece) ensures FindRange(piece).Some? {
        assert Stray(diff, ends, name, piece);
      }
    }
    if (f.target.Plain? ==> Ranged(extras)) && AllStrayRanged(diff[1..], ends[k..]) {
      forall name, piece | Stray(diff, ends, name, piece) ensures FindRange(piece).Some? {
        if !Stray(diff[1..], ends[k..], name, piece) {
          var i :| 0 <= i < |extras| && extras[i] == piece;
          assert HasRange(extras[i]);
        }
      }
    }
  }

  lemma {:induction false} ShownExact(changed: Changed, diff: seq<FileDiff>, ends: seq<bool>, name: string, n: int)
    requires |ends| == |DiffLines(diff)|
    ensures var shown := Shown(changed, diff, ends);
            && (name in shown <==> name in changed || Names(diff, name))
            && (name in shown ==>
                (n in shown[name] <==>
                 (name in changed && n in changed[name]) || Adds(diff, name, n) || StrayAdds(diff, ends, name, n)))
    decreases |diff|
  {
    hide AddedBy;
    hide InHunk;
    hide FileLines;
    hide Extras;
    hide Ranges;
    if diff == [] {
    } else {
      var f, k := diff[0], |FileLines(diff[0])|;
      AddsSplit(diff, name, n);
      StraySplit(diff, ends, name, n);
      hide Adds;
      hide Names;
      hide StrayAdds;
      var next := if !f.target.Plain? then changed
        else changed[f.target.name := (if f.target.name in changed then changed[f.target.name] else {})
                                    + (AddedBy(f.hunks) + Ranges(Extras(FileLines(f), ends[..k])))];
      ShownExact(next, diff[1..], ends[k..], name, n);
    }
  }

  lemma {:induction false} TraceableSplit(diff: seq<FileDiff>, ends: seq<bool>)
    requires diff != [] && Traceable(diff, ends)
    ensures var f, k := diff[0], |FileLines(diff[0])|;
            && AllPieces(DiffLines(diff), ends)
            == AllPieces(FileLines(f), ends[..k]) + AllPieces(DiffLines(diff[1..]), ends[k..])
            && f.Valid() && CleanHeader(f) && NoTargetBehind(BodyPieces(f, ends[..k]))
               && Traceable(diff[1..], ends[k..])
  {
    hide FileLines;
    hide Extras;
    hide AllPieces;
    hide BodyPieces;
    hide NoTargetBehind;
    hide CleanHeader;
    PiecesAppend(FileLines(diff[0]), DiffLines(diff[1..]), ends);
  }

  lemma {:induction false} NothingBehind(pieces: seq<string>)
    requires NoFile(pieces)
    ensures NoTargetBehind(pieces) && !HunkBehind(pieces)
  {
    hide FILE;
  }

  /** Diffs without stray file headers are a special case. */
  lemma {:induction false} UnbrokenTraceable(diff: seq<FileDiff>, ends: seq<bool>)
    requires Unbroken(diff, ends)
    ensures Traceable(diff, ends) && !CutOff(diff, ends)
    decreases |diff|
  {
    hide FileLines;
    hide Extras;
    hide AllPieces;
    hide BodyPieces;
    hide NoFile;
    hide NoTargetBehind;
    hide HunkBehind;
    hide CleanHeader;
    if diff != [] {
      var f, k := diff[0], |FileLines(diff[0])|;
      PiecesAppend(FileLines(f), DiffLines(diff[1..]), ends);
      RangedAppend(Extras(FileLines(f), ends[..k]), Extras(DiffLines(diff[1..]), ends[k..]));
      FileSplit(f, ends[..k]);
      NothingBehind(BodyPieces(f, ends[..k]));
      UnbrokenTraceable(diff[1..], ends[k..]);
    }
  }

  lemma {:induction false} QuotedSplit(diff: seq<FileDiff>)
    requires diff != []
    ensures SomeQuoted(diff) <==> diff[0].target.Quoted? || SomeQuoted(diff[1..])
  {
    if i :| 0 <= i < |diff| && diff[i].target.Quoted? {
      if i > 0 { assert diff[1..][i - 1] == diff[i]; }
    }
    if i :| 0 <= i < |diff[1..]| && diff[1..][i].target.Quoted? { assert diff[i + 1] == diff[1..][i]; }
  }

  /** Where the parser is after one file. */
  function AfterFile(s: Parser, f: FileDiff, ends: seq<bool>): Parser
    requires s.Valid() && |ends| == |FileLines(f)| && !f.target.Quoted?
  {
    var t := AfterHeader(s, f).value;
    if t.current.None? then t else Add(t, AddedBy(f.hunks) + Ranges(Extras(FileLines(f), ends)))
  }

  lemma {:induction false} AfterFileChanged(s: Parser, f: FileDiff, ends: seq<bool>)
    requires s.Valid() && |ends| == |FileLines(f)| && !f.target.Quoted?
    ensures var t := AfterFile(s, f, ends);
            && t.Valid()
            && t.changed == if !f.target.Plain? then s.changed
               else s.changed[f.target.name := (if f.target.name in s.changed then s.changed[f.target.name] else {})
                                             + (AddedBy(f.hunks) + Ranges(Extras(FileLines(f), ends)))]
  {
    hide AddedBy;
    hide Ranges;
    hide Extras;
    hide FileLines;
    if f.target.Plain? {
      var none, added: set<int> := {}, AddedBy(f.hunks) + Ranges(Extras(FileLines(f), ends));
      assert none + added == added;
    }
  }

  lemma {:induction false} DiffPieces(s: Parser, diff: seq<FileDiff>, ends: seq<bool>)
    requires s.Valid() && Traceable(diff, ends)
    ensures Result(Parse(s, AllPieces(DiffLines(diff), ends)))
         == if SomeQuoted(diff) || CutOff(diff, ends) || !AllStrayRanged(diff, ends) then None
            else Some(Shown(s.changed, diff, ends))
    decreases |diff|
  {
    hide FileLines;
    hide AddedBy;
    hide Ranges;
    hide Extras;
    hide Step;
    hide BodyPieces;
    hide HunkBehind;
    if diff == [] {
      assert AllPieces([], ends) == [];
    } else {
      var f, k := diff[0], |FileLines(diff[0])|;
      var first, rest := AllPieces(FileLines(f), ends[..k]), AllPieces(DiffLines(diff[1..]), ends[k..]);
      TraceableSplit(diff, ends);
      QuotedSplit(diff);
      RangedSplit(diff, ends);
      FileResult(s, f, ends[..k]);
      ParseConcat(s, first, rest);
      hide AllPieces;
      hide Parse;
      hide SomeQuoted;
      hide AllStrayRanged;
      hide Traceable;
      hide Ranged;
      if !f.target.Quoted? {
        AfterFileChanged(s, f, ends[..k]);
        DiffPieces(ParsedTo(s, first), diff[1..], ends[k..]);
      }
    }
  }

  function Parsed(diff: seq<FileDiff>, ends: seq<bool>): Option<Changed>
    requires |ends| == |DiffLines(diff)|
  {
    Result(Parse(INITIAL, SplitLines(Render(DiffLines(diff), ends), "")))
  }

  lemma {:induction false} ParsedShown(diff: seq<FileDiff>, ends: seq<bool>)
    requires Traceable(diff, ends)
    ensures Parsed(diff, ends)
         == if SomeQuoted(diff) || CutOff(diff, ends) || !AllStrayRanged(diff, ends) then None
            else Some(Shown(map[], diff, ends))
  {
    SplitRendered(DiffLines(diff), ends);
    DiffPieces(INITIAL, diff, ends);
    hide Parse;
    hide SplitLines;
    hide Render;
    hide AllPieces;
    hide DiffLines;
    hide SomeQuoted;
    hide CutOff;
    hide AllStrayRanged;
    hide Shown;
  }

  /**
   * The parser on any diff in which nothing that begins like a destination follows a stray file header: it gives up
   * exactly when a destination is quoted, a hunk header follows a stray file header, or a stray hunk header has no
   * range; otherwise each destination gets its added lines and the stray ranges.
   */
  lemma {:induction false} ParseExact(diff: seq<FileDiff>, ends: seq<bool>)
    requires Traceable(diff, ends)
    ensures var r := Parsed(diff, ends);
            && (r.None? <==> SomeQuoted(diff) || CutOff(diff, ends) || !AllStrayRanged(diff, ends))
            && (r.Some? ==> forall name :: name in r.value <==> Names(diff, name))
            && (r.Some? ==> forall name, n :: name in r.value ==>
                  (n in r.value[name] <==> Adds(diff, name, n) || StrayAdds(diff, ends, name, n)))
  {
    ParsedShown(diff, ends);
    hide Parsed;
    hide Traceable;
    hide SomeQuoted;
    hide CutOff;
    hide AllStrayRanged;
    hide Adds;
    hide Names;
    hide StrayAdds;
    hide Shown;
    forall name, n {:trigger Adds(diff, name, n)} { ShownExact(map[], diff, ends, name, n); }
    forall name ensures name in Shown(map[], diff, ends) <==> Names(diff, name) {
      ShownExact(map[], diff, ends, name, 0);
    }
  }

  /** The lines of the range of each stray hunk header are added anyway. */
  ghost predicate StraysAdded(diff: seq<FileDiff>, ends: seq<bool>)
    requires |ends| == |DiffLines(diff)|
  {
    forall name, piece :: Stray(diff, ends, name, piece) ==> RangeAdded(diff, name, piece)
  }

  ghost predicate RangeAdded(diff: seq<FileDiff>, name: string, piece: string) {
    FindRange(piece).Some? && forall n :: InRange(piece, n) ==> Adds(diff, name, n)
  }

  lemma {:induction false} StraysAddedExact(diff: seq<FileDiff>, ends: seq<bool>)
    requires |ends| == |DiffLines(diff)|
    ensures StraysAdded(diff, ends) <==>
            AllStrayRanged(diff, ends) && forall name, n :: StrayAdds(diff, ends, name, n) ==> Adds(diff, name, n)
  {
    hide FindRange;
    hide InRange;
    hide Stray;
    hide Adds;
    hide DiffLines;
    if StraysAdded(diff, ends) {
      forall name, n | StrayAdds(diff, ends, name, n) ensures Adds(diff, name, n) {
        var piece :| Stray(diff, ends, name, piece) && InRange(piece, n);
        assert RangeAdded(diff, name, piece);
      }
      forall name, piece | Stray(diff, ends, name, piece) ensures FindRange(piece).Some? {
        assert RangeAdded(diff, name, piece);
      }
    } else {
      var name, piece :| Stray(diff, ends, name, piece) && !RangeAdded(diff, name, piece);
      if FindRange(piece).Some? {
        var n :| InRange(piece, n) && !Adds(diff, name, n);
        assert StrayAdds(diff, ends, name, n);
      }
    }
  }

  /**
   * So it is right exactly when a destination is quoted, or no hunk header follows a stray file header and each stray
   * hunk header has a range among the lines added anyway.
   */
  lemma {:induction false} RightExactly(diff: seq<FileDiff>, ends: seq<bool>)
    requires Traceable(diff, ends)
    ensures Right(Parsed(diff, ends), diff) <==> SomeQuoted(diff) || (!CutOff(diff, ends) && StraysAdded(diff, ends))
  {
    ParseExact(diff, ends);
    StraysAddedExact(diff, ends);
    forall name, n | StrayAdds(diff, ends, name, n) ensures Names(diff, name) {
      var piece :| Stray(diff, ends, name, piece) && InRange(piece, n);
      StrayNamed(diff, ends, name, piece);
    }
    hide Parsed;
    hide SomeQuoted;
    hide Traceable;
    hide CutOff;
    hide StraysAdded;
    hide AllStrayRanged;
    hide StrayAdds;
    hide Adds;
    hide Names;
    hide DiffLines;
  }

  lemma {:induction false} StrayNamed(diff: seq<FileDiff>, ends: seq<bool>, name: string, piece: string)
    requires |ends| == |DiffLines(diff)| && Stray(diff, ends, name, piece)
    ensures Names(diff, name)
    decreases |diff|
  {
    hide Extras;
    hide FileLines;
    var k := |FileLines(diff[0])|;
    if Stray(diff[1..], ends[k..], name, piece) {
      StrayNamed(diff[1..], ends[k..], name, piece);
      var i :| 0 <= i < |diff[1..]| && diff[1..][i].target.Plain? && diff[1..][i].target.name == name;
      assert diff[i + 1] == diff[1..][i];
    }
  }

  /** The gate's exact condition holds whenever the parser is right. */
  lemma {:induction false} StrayGateExact(diff: seq<FileDiff>, ends: seq<bool>, findings: seq<Finding>, raw: int)
    requires Traceable(diff, ends) && (SomeQuoted(diff) || (!CutOff(diff, ends) && StraysAdded(diff, ends)))
    ensures ExitCode(findings, ChangedLines, raw, Parsed(diff, ends)) == 1 <==>
              if SomeQuoted(diff) then raw != 0 || exists f :: f in findings && Blocking(f)
              else exists f :: f in findings && Blocking(f) && OnAddedLine(diff, f)
  {
    RightExactly(diff, ends);
    GateOnRight(diff, Parsed(diff, ends), findings, raw);
  }

  // ---- A piece that begins like a file header ----

  /**
   * An added text with a form feed followed by the text of a file header ends the file for the parser, so it gives up
   * at the file's next hunk, though its destination is not quoted.
   */
  lemma {:induction false} FileHeaderMisleads(
    names: string, name: string, x: string, y: string, start: nat, k: Hunk, more: seq<FileDiff>, ends: seq<bool>)
    requires Clean(FILE + names) && Clean(TARGET + "b/" + name) && !Tabbed(name) && Clean(x) && Clean(FILE + y)
    requires Clean(k.section)
    requires |ends| == |DiffLines([Torn(names, name, x, y, start, k)] + more)|
    ensures var diff := [Torn(names, name, x, y, start, k)] + more;
            Parsed(diff, ends) == None && Names(diff, name) && (SomeQuoted(diff) <==> SomeQuoted(more))
  {
    var f := Torn(names, name, x, y, start, k);
    var h := f.hunks[0];
    var diff := [f] + more;
    assert diff[0] == f && diff[1..] == more;
    QuotedSplit(diff);
    var top, last, next := [FILE + names, TARGET + "b/" + name, HunkHeader(h)], "+" + h.added[0], HunkHeader(k);
    var rest := HunkBody(k) + DiffLines(more);
    TornLines(names, name, x, y, start, k, more);
    HeaderClean(h);
    HeaderClean(k);
    TornPieces(x, y, ends[3]);
    SplitRendered(DiffLines(diff), ends);
    hide HunkHeader;
    hide HunkBody;
    hide DiffLines;
    hide AllPieces;
    hide Pieces;
    hide Clean;
    hide Parse;
    hide SplitLines;
    hide Render;
    hide SomeQuoted;
    var behind := TornAllPieces(top, last, next, rest, ["+" + x, FILE + y], ends);
    TornParse(names, name, x, y, h, k, behind);
  }

  /** Three clean lines, one of these pieces, and a clean one. */
  lemma {:induction false} TornAllPieces(
    top: seq<string>, last: string, next: string, rest: seq<string>, pieces: seq<string>, ends: seq<bool>)
    returns (behind: seq<string>)
    requires |top| == 3 && (forall i :: 0 <= i < 3 ==> Clean(top[i])) && Clean(next)
    requires |ends| == 5 + |rest| && Pieces(last, ends[3]) == pieces
    ensures AllPieces(top + ([last] + ([next] + rest)), ends) == top + (pieces + ([next] + behind))
  {
    hide AllPieces;
    hide Pieces;
    hide Extras;
    hide Clean;
    PiecesAppend(top, [last] + ([next] + rest), ends);
    PiecesAppend([last], [next] + rest, ends[3..]);
    PiecesAppend([next], rest, ends[3..][1..]);
    CleanAll(top, ends[..3]);
    CleanAll([next], ends[3..][1..][..1]);
    OneLine(last, ends[3..][..1]);
    behind := AllPieces(rest, ends[3..][1..][1..]);
  }

  /** A file whose first added text is torn by a form feed before what looks like another file's header. */
  function Torn(names: string, name: string, x: string, y: string, start: nat, k: Hunk): FileDiff {
    FileDiff(names, [], Plain(name, false), [Hunk(0, start, [], false, [x + ("\U{000C}" + (FILE + y))], false, ""), k])
  }

  lemma {:induction false} TwoHunks(h: Hunk, k: Hunk)
    ensures HunkLines([h, k]) == [HunkHeader(h)] + HunkBody(h) + ([HunkHeader(k)] + HunkBody(k))
  {
    hide HunkHeader;
    hide HunkBody;
    assert [h, k][1..] == [k] && [k][1..] == [];
    assert HunkLines([k]) == [HunkHeader(k)] + HunkBody(k);
  }

  lemma {:induction false} PlainTop(f: FileDiff)
    requires f.extended == [] && f.target.Plain? && !f.target.tab
    ensures HeaderLines(f) == [FILE + f.names, TARGET + "b/" + f.target.name]
  {
    var name := f.target.name;
    assert TARGET + ("b/" + name + "") == TARGET + "b/" + name;
    assert TargetLines(f.target) == [TARGET + "b/" + name];
  }

  lemma {:induction false} OneAdded(h: Hunk)
    requires h.removed == [] && !h.removedOpen && |h.added| == 1 && !h.addedOpen
    ensures HunkBody(h) == ["+" + h.added[0]]
  {}

  lemma {:induction false} TornLines(
    names: string, name: string, x: string, y: string, start: nat, k: Hunk, more: seq<FileDiff>)
    ensures var f := Torn(names, name, x, y, start, k);
            DiffLines([f] + more) ==
            [FILE + names, TARGET + "b/" + name, HunkHeader(f.hunks[0])]
            + (["+" + f.hunks[0].added[0]] + ([HunkHeader(k)] + (HunkBody(k) + DiffLines(more))))
  {
    var f := Torn(names, name, x, y, start, k);
    var h := f.hunks[0];
    PlainTop(f);
    OneAdded(h);
    TwoHunks(h, k);
    assert ([f] + more)[0] == f && ([f] + more)[1..] == more;
    assert f.hunks == [h, k];
    hide HunkHeader;
    hide HunkBody;
    hide HunkLines;
    hide TargetLines;
    assert FileLines(f) == HeaderLines(f) + HunkLines([h, k]);
    hide HeaderLines;
    hide FileLines;
    TornList(FILE + names, TARGET + "b/" + name, HunkHeader(h), "+" + h.added[0], HunkHeader(k), HunkBody(k),
             DiffLines(more));
  }

  lemma {:induction false} TornList<T>(a: T, b: T, c: T, d: T, e: T, body: seq<T>, rest: seq<T>)
    ensures [a, b] + ([c] + [d] + ([e] + body)) + rest == [a, b, c] + ([d] + ([e] + (body + rest)))
  {}

  lemma {:induction false} TornPieces(x: string, y: string, end: bool)
    requires Clean(x) && Clean(FILE + y)
    ensures Pieces("+" + (x + ("\U{000C}" + (FILE + y))), end) == ["+" + x, FILE + y]
  {
    hide SplitLines;
    hide FILE;
    var e, z := EndText(end), FILE + y;
    PlusClean(x);
    hide Clean;
    assert "+" + (x + ("\U{000C}" + z)) + e == ("+" + x) + ("\U{000C}" + (z + e));
    SplitClean("+" + x, "\U{000C}" + (z + e), "");
    SplitFeed(z + e, "" + ("+" + x));
    SplitClean(z, e, "");
    SplitEnd(e, "", "" + z);
    SplitNothing();
    assert e + "" == e && "" + z == z && "" + ("+" + x) == "+" + x;
    assert [z] + [] == [z] && ["+" + x] + [z] == ["+" + x, z];
  }

  lemma {:induction false} TornParse(
    names: string, name: string, x: string, y: string, h: Hunk, k: Hunk, behind: seq<string>)
    requires !Tabbed(name) && h == Hunk(0, h.newStart, [], false, h.added, false, "") && |h.added| == 1
    ensures Parse(INITIAL, [FILE + names, TARGET + "b/" + name, HunkHeader(h)]
                         + (["+" + x, FILE + y] + ([HunkHeader(k)] + behind))) == None
  {
    hide FindRange;
    var short := h.(added := [x]);
    var f := FileDiff(names, [], Plain(name, false), [short]);
    SameHeader(h, short);
    LoneLines(names, name, short, x);
    hide HunkHeader;
    hide FileLines;
    hide AddedBy;
    hide Step;
    hide Parse;
    var rest := [FILE + y] + ([HunkHeader(k)] + behind);
    ParseFile(INITIAL, f, rest);
    TornRest(FILE + names, TARGET + "b/" + name, HunkHeader(h), "+" + x, FILE + y, [HunkHeader(k)] + behind);
    LostParse(Add(Enter(INITIAL, name), AddedBy([short])), y, k, behind);
  }

  lemma {:induction false} TornRest<T>(a: T, b: T, c: T, d: T, e: T, rest: seq<T>)
    ensures [a, b, c, d] + ([e] + rest) == [a, b, c] + ([d, e] + rest)
  {}

  lemma {:induction false} LostParse(s: Parser, y: string, k: Hunk, behind: seq<string>)
    requires s.Valid()
    ensures Parse(s, [FILE + y] + ([HunkHeader(k)] + behind)) == None
  {
    HeaderRange(k);
    hide HunkHeader;
    hide FindRange;
    ParseHead(s, FILE + y, [HunkHeader(k)] + behind);
    var lost := Parser(s.changed, None, true, false);
    assert Step(s, FILE + y) == Some(lost);
    ParseHead(lost, HunkHeader(k), behind);
    LostAtHunk(lost, HunkHeader(k));
  }

  lemma {:induction false} LostAtHunk(s: Parser, line: string)
    requires s.Valid() && s.awaiting && !s.seen && HUNK <= line
    ensures Step(s, line) == None
  {
    assert line[0] == HUNK[0] == '@';
    Differs(FILE, line, 0);
    Differs(TARGET, line, 0);
  }

  // ---- A destination behind it ----

  /** The same, with the text of a destination behind that of the file header. */
  function Led(names: string, name: string, x: string, y: string, other: string, start: nat, k: Hunk): FileDiff {
    FileDiff(names, [], Plain(name, false), [Hunk(0, start, [], false, [LedText(x, y, other)], false, ""), k])
  }

  function LedText(x: string, y: string, other: string): string {
    x + (FEED + (FILE + y + (FEED + (TARGET + "b/" + other))))
  }

  const FEED := "\U{000C}"

  /** What the parser takes it for: two files. */
  function Taken(names: string, name: string, x: string, y: string, other: string, start: nat, k: Hunk): seq<FileDiff> {
    [FileDiff(names, [], Plain(name, false), [Hunk(0, start, [], false, [x], false, "")]),
     FileDiff(y, [], Plain(other, false), [k])]
  }

  lemma {:induction false} LedPieces(x: string, y: string, other: string, end: bool)
    requires Clean(x) && Clean(FILE + y) && Clean(TARGET + "b/" + other)
    ensures Pieces("+" + LedText(x, y, other), end) == ["+" + x, FILE + y, TARGET + "b/" + other]
  {
    hide SplitLines;
    hide FILE;
    hide TARGET;
    var e, z, v := EndText(end), FILE + y, TARGET + "b/" + other;
    PlusClean(x);
    hide Clean;
    assert "+" + (x + (FEED + (z + (FEED + v)))) + e == ("+" + x) + (FEED + (z + (FEED + (v + e))));
    SplitClean("+" + x, FEED + (z + (FEED + (v + e))), "");
    SplitFeed(z + (FEED + (v + e)), "" + ("+" + x));
    SplitClean(z, FEED + (v + e), "");
    SplitFeed(v + e, "" + z);
    SplitClean(v, e, "");
    SplitEnd(e, "", "" + v);
    SplitNothing();
    assert e + "" == e && "" + z == z && "" + v == v && "" + ("+" + x) == "+" + x;
    assert [v] + [] == [v] && [z] + [v] == [z, v] && ["+" + x] + [z, v] == ["+" + x, z, v];
  }

  lemma {:induction false} FirstFile(a: FileDiff, rest: seq<FileDiff>)
    ensures DiffLines([a] + rest) == FileLines(a) + DiffLines(rest) && DiffLines([]) == []
  {
    hide FileLines;
    assert ([a] + rest)[0] == a && ([a] + rest)[1..] == rest;
  }

  lemma {:induction false} TwoFiles(a: FileDiff, b: FileDiff)
    ensures DiffLines([a, b]) == FileLines(a) + FileLines(b) && DiffLines([a]) == FileLines(a)
  {
    FirstFile(a, [b]);
    FirstFile(a, []);
    FirstFile(b, []);
    hide DiffLines;
    hide FileLines;
    assert [a] + [b] == [a, b] && [a] + [] == [a] && [b] + [] == [b];
    assert FileLines(a) + [] == FileLines(a) && FileLines(b) + [] == FileLines(b);
  }

  lemma {:induction false} OneHunk(h: Hunk)
    ensures HunkLines([h]) == [HunkHeader(h)] + HunkBody(h)
  {
    hide HunkHeader;
    hide HunkBody;
    assert [h][1..] == [];
  }

  /** The lines of such a file, and those of the two it is taken for. */
  lemma {:induction false} LedLines(
    names: string, name: string, x: string, y: string, other: string, start: nat, k: Hunk)
    ensures var f := Led(names, name, x, y, other, start, k);
            var top := [FILE + names, TARGET + "b/" + name, HunkHeader(f.hunks[0])];
            var tail := [HunkHeader(k)] + HunkBody(k);
            && DiffLines([f]) == top + (["+" + LedText(x, y, other)] + tail)
            && DiffLines(Taken(names, name, x, y, other, start, k))
               == top + (["+" + x, FILE + y, TARGET + "b/" + other] + tail)
  {
    var f, two := Led(names, name, x, y, other, start, k), Taken(names, name, x, y, other, start, k);
    var h, g := f.hunks[0], two[0].hunks[0];
    hide LedText;
    PlainTop(f);
    PlainTop(two[0]);
    PlainTop(two[1]);
    OneAdded(h);
    OneAdded(g);
    SameHeader(h, g);
    TwoHunks(h, k);
    OneHunk(g);
    OneHunk(k);
    TwoFiles(two[0], two[1]);
    TwoFiles(f, f);
    hide HunkHeader;
    hide HunkBody;
    hide HunkLines;
    hide TargetLines;
    hide DiffLines;
    assert FileLines(f) == HeaderLines(f) + HunkLines([h, k]);
    assert FileLines(two[0]) == HeaderLines(two[0]) + HunkLines([g]);
    assert FileLines(two[1]) == HeaderLines(two[1]) + HunkLines([k]);
    hide HeaderLines;
    hide FileLines;
    LedList(FILE + names, TARGET + "b/" + name, HunkHeader(h), "+" + x, "+" + LedText(x, y, other), FILE + y,
            TARGET + "b/" + other, [HunkHeader(k)] + HunkBody(k));
  }

  lemma {:induction false} LedList<T>(a: T, b: T, c: T, d: T, d2: T, e: T, f: T, tail: seq<T>)
    ensures [a, b] + ([c] + [d2] + tail) == [a, b, c] + ([d2] + tail)
    ensures [a, b] + ([c] + [d]) + ([e, f] + tail) == [a, b, c] + ([d, e, f] + tail)
  {}

  lemma {:induction false} ParsedPieces(diff: seq<FileDiff>, ends: seq<bool>)
    requires |ends| == |DiffLines(diff)|
    ensures Parsed(diff, ends) == Result(Parse(INITIAL, AllPieces(DiffLines(diff), ends)))
  {
    SplitRendered(DiffLines(diff), ends);
    hide DiffLines;
    hide AllPieces;
    hide SplitLines;
    hide Render;
    hide Parse;
    hide Result;
  }

  lemma {:induction false} CleanThree(a: string, b: string, c: string, d: string, more: seq<string>)
    requires Clean(a) && Clean(b) && Clean(c) && Clean(d) && forall i :: 0 <= i < |more| ==> Clean(more[i])
    ensures forall i :: 0 <= i < 3 ==> Clean([a, b, c][i])
    ensures forall i :: 0 <= i < |[d] + more| ==> Clean(([d] + more)[i])
  {
    hide Clean;
  }

  /** With clean lines otherwise, the text of the one file is parsed as that of the two. */
  lemma {:induction false} LedParse(
    names: string, name: string, x: string, y: string, other: string, start: nat, k: Hunk, ends: seq<bool>)
    requires Clean(FILE + names) && Clean(TARGET + "b/" + name) && Clean(x) && Clean(FILE + y)
    requires Clean(TARGET + "b/" + other) && Clean(k.section)
    requires forall i :: 0 <= i < |HunkBody(k)| ==> Clean(HunkBody(k)[i])
    requires |ends| == |DiffLines([Led(names, name, x, y, other, start, k)])|
    ensures Parsed([Led(names, name, x, y, other, start, k)], ends)
         == Result(Parse(INITIAL, DiffLines(Taken(names, name, x, y, other, start, k))))
  {
    var diff := [Led(names, name, x, y, other, start, k)];
    var h := diff[0].hunks[0];
    assert Clean(h.section);
    hide *;
    var top, last, tail := [FILE + names, TARGET + "b/" + name, HunkHeader(h)], "+" + LedText(x, y, other),
                           [HunkHeader(k)] + HunkBody(k);
    LedLines(names, name, x, y, other, start, k);
    HeaderClean(h);
    HeaderClean(k);
    CleanThree(FILE + names, TARGET + "b/" + name, HunkHeader(h), HunkHeader(k), HunkBody(k));
    assert |ends| == |top| + 1 + |tail|;
    LedPieces(x, y, other, ends[3]);
    ParsedPieces(diff, ends);
    CleanAround(top, last, tail, ["+" + x, FILE + y, TARGET + "b/" + other], ends);
  }

  /** Clean lines, one of these pieces, and clean lines. */
  lemma {:induction false} CleanAround(
    top: seq<string>, last: string, tail: seq<string>, pieces: seq<string>, ends: seq<bool>)
    requires (forall i :: 0 <= i < |top| ==> Clean(top[i])) && forall i :: 0 <= i < |tail| ==> Clean(tail[i])
    requires |ends| == |top| + 1 + |tail| && Pieces(last, ends[|top|]) == pieces
    ensures AllPieces(top + ([last] + tail), ends) == top + (pieces + tail)
  {
    hide AllPieces;
    hide Pieces;
    hide Extras;
    hide Clean;
    var n := |top|;
    PiecesAppend(top, [last] + tail, ends);
    PiecesAppend([last], tail, ends[n..]);
    CleanAll(top, ends[..n]);
    CleanAll(tail, ends[n..][1..]);
    OneLine(last, ends[n..][..1]);
  }

  /**
   * So the lines of the later hunk are reported for the destination in the text, and the parser is right exactly when
   * that is the file's own.
   */
  lemma {:induction false} StrayTargetMisleads(
    names: string, name: string, x: string, y: string, other: string, start: nat, k: Hunk, ends: seq<bool>)
    requires Clean(FILE + names) && Clean(TARGET + "b/" + name) && !Tabbed(name) && Clean(x) && Clean(FILE + y)
    requires Clean(TARGET + "b/" + other) && !Tabbed(other) && Clean(k.section)
    requires forall i :: 0 <= i < |HunkBody(k)| ==> Clean(HunkBody(k)[i])
    requires |ends| == |DiffLines([Led(names, name, x, y, other, start, k)])|
    ensures var diff := [Led(names, name, x, y, other, start, k)];
            && Parsed(diff, ends) == Some(Expected(map[], Taken(names, name, x, y, other, start, k)))
            && (Right(Parsed(diff, ends), diff) <==> other == name)
  {
    var diff, two := [Led(names, name, x, y, other, start, k)], Taken(names, name, x, y, other, start, k);
    hide HunkBody;
    hide Clean;
    LedParse(names, name, x, y, other, start, k, ends);
    hide Parsed;
    hide Parse;
    hide DiffLines;
    ParseDiffLines(INITIAL, two);
    assert !SomeQuoted(diff);
    var r := Expected(map[], two);
    TakenExpected(names, name, x, y, other, start, k);
    ExpectedExact(map[], two, other, 0);
    assert two[1].target == Plain(other, false) && Names(two, other);
    assert diff[0].target == Plain(name, false);
    hide Led;
    hide Taken;
    hide Expected;
    if other == name {
      forall name, n {:trigger Adds(diff, name, n)} { ExpectedExact(map[], diff, name, n); }
      forall name ensures name in r <==> Names(diff, name) { ExpectedExact(map[], diff, name, 0); }
    } else {
      assert other in r && !Names(diff, other);
    }
  }

  lemma {:induction false} TakenExpected(
    names: string, name: string, x: string, y: string, other: string, start: nat, k: Hunk)
    ensures other == name ==>
              Expected(map[], Taken(names, name, x, y, other, start, k))
              == Expected(map[], [Led(names, name, x, y, other, start, k)])
  {
    var f, two := Led(names, name, x, y, other, start, k), Taken(names, name, x, y, other, start, k);
    var h, g := f.hunks[0], two[0].hunks[0];
    hide LedText;
    assert [h, k][1..] == [k] && [g][1..] == [] && [k][1..] == [];
    assert AddedBy([h, k]) == Span(start, 1) + AddedBy([k]);
    assert AddedBy([g]) == Span(start, 1) + {};
    hide Span;
    hide AddedBy;
    assert two[1..] == [two[1]] && two[1..][1..] == [] && [f][1..] == [];
    if other == name {
      var none: set<int> := {};
      var first, both: Changed := map[name := none + AddedBy([g])], map[name := none + AddedBy([h, k])];
      assert none + AddedBy([g]) + AddedBy([k]) == none + AddedBy([h, k]);
      assert Expected(map[], [f]) == Expected(both, []) == both;
      assert Expected(map[], two) == Expected(first, [two[1]]);
      assert Expected(first, [two[1]]) == Expected(first[name := first[name] + AddedBy([k])], []);
    }
  }
}
