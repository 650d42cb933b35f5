/** The changed-line gate: the zero-context diff parser against the diffs it is given, and what then blocks a commit. */
module DiffGate {
  import opened Bytes
  import opened Texts
  import Seqs
  import opened Sorting

  type Changed = map<string, set<int>>

  // ---- Lines, as str.splitlines cuts them ----

  function SplitLines(text: string, current: string): seq<string> {
    if text == "" then (if current == "" then [] else [current])
    else if Breaks(text[0]) then
      [current] + SplitLines(if text[0] == '\r' && |text| > 1 && text[1] == '\n' then text[2..] else text[1..], "")
    else SplitLines(text[1..], current + [text[0]])
  }

  // ---- The parser ----

  /** The digits at the front. */
  function Digits(s: string): string {
    if s == "" || !IsDigit(s[0]) then "" else [s[0]] + Digits(s[1..])
  }

  function Number(s: string): nat {
    if s == "" then 0
    else Number(s[..|s| - 1]) * 10 + (if IsDigit(s[|s| - 1]) then s[|s| - 1] as int - '0' as int else 0)
  }

  /** The leftmost match of a plus sign with a number, and a count if there is one. */
  function FindRange(line: string): Option<(nat, nat)> {
    if |line| < 2 then None
    else if line[0] == '+' && IsDigit(line[1]) then
      var digits := Digits(line[1..]);
      DigitsShort(line[1..]);
      var rest := line[1 + |digits|..];
      Some((Number(digits), if |rest| > 1 && rest[0] == ',' && IsDigit(rest[1]) then Number(Digits(rest[1..])) else 1))
    else FindRange(line[1..])
  }

  lemma {:induction false} DigitsShort(s: string)
    ensures |Digits(s)| <= |s|
  {
    if s != "" && IsDigit(s[0]) { DigitsShort(s[1..]); }
  }

  function RemovePrefix(s: string, prefix: string): string {
    if prefix <= s then s[|prefix|..] else s
  }

  function RemoveTab(s: string): string {
    if s != "" && s[|s| - 1] == '\t' then s[..|s| - 1] else s
  }

  function Span(start: int, count: nat): set<int> {
    set n | start <= n < start + count && InSpan(start, count, n)
  }

  predicate InSpan(start: int, count: nat, n: int) {
    start <= n < start + count
  }

  datatype Parser = Parser(changed: Changed, current: Option<string>, awaiting: bool, seen: bool) {
    predicate Valid() { current.Some? ==> current.value in changed }
  }

  const FILE := "diff --git "
  const TARGET := "+++ "
  const HUNK := "@@ "

  /** One line; None where the whole parse gives up. */
  function Step(s: Parser, line: string): (t: Option<Parser>)
    requires s.Valid()
    ensures t.Some? ==> t.value.Valid()
  {
    if FILE <= line then Some(Parser(s.changed, None, true, false))
    else if s.awaiting && TARGET <= line then
      var target := RemoveTab(line[4..]);
      if "\"" <= target then None
      else if target == "/dev/null" then Some(Parser(s.changed, None, false, true))
      else Some(Enter(s, RemovePrefix(target, "b/")))
    else if !(HUNK <= line) then Some(s)
    else if !s.seen then None
    else if s.current.None? then Some(s)
    else
      var range := FindRange(line);
      if range.None? then None else Some(Add(s, Span(range.value.0, range.value.1)))
  }

  function Enter(s: Parser, name: string): Parser {
    Parser(if name in s.changed then s.changed else s.changed[name := {}], Some(name), false, true)
  }

  function Add(s: Parser, lines: set<int>): Parser
    requires s.Valid() && s.current.Some?
  {
    s.(changed := s.changed[s.current.value := s.changed[s.current.value] + lines])
  }

  function Parse(s: Parser, lines: seq<string>): Option<Parser>
    requires s.Valid()
    decreases |lines|
  {
    if lines == [] then Some(s)
    else
      var t := Step(s, lines[0]);
      if t.None? then None else Parse(t.value, lines[1..])
  }

  const INITIAL := Parser(map[], None, false, false)

  function Result(p: Option<Parser>): Option<Changed> {
    if p.None? then None else Some(p.value.changed)
  }

  /** `_parse_added_lines_from_cached_diff`. */
  method ParseDiff(text: string) returns (r: Option<Changed>)
    ensures r == Result(Parse(INITIAL, SplitLines(text, "")))
  {
    var lines := SplitLines(text, "");
    var changed: Changed, current: Option<string>, awaiting, seen := map[], None, false, false;
    var k := 0;
    while k < |lines|
      invariant k <= |lines| && Parser(changed, current, awaiting, seen).Valid()
      invariant Parse(Parser(changed, current, awaiting, seen), lines[k..]) == Parse(INITIAL, lines)
    {
      var line := lines[k];
      ghost var before := Parser(changed, current, awaiting, seen);
      assert lines[k..][0] == line && lines[k..][1..] == lines[k + 1..];
      k := k + 1;
      if FILE <= line {
        current, awaiting, seen := None, true, false;
        continue;
      }
      if awaiting && TARGET <= line {
        var target := RemoveTab(line[4..]);
        if "\"" <= target { return None; }
        current := if target == "/dev/null" then None else Some(RemovePrefix(target, "b/"));
        awaiting, seen := false, true;
        if current.Some? && current.value !in changed { changed := changed[current.value := {}]; }
        continue;
      }
      if !(HUNK <= line) { continue; }
      if !seen { return None; }
      if current.None? { continue; }
      var range := FindRange(line);
      if range.None? { return None; }
      var (start, count) := range.value;
      changed := changed[current.value := changed[current.value] + Span(start, count)];
    }
    r := Some(changed);
  }

  // ---- Well-formed diffs ----

  /** The file a diff leads to; a name with a space is followed by a tab, one with unusual characters is quoted. */
  datatype Target = Missing | Deleted | Plain(name: string, tab: bool) | Quoted(text: string)

  /** Without context lines, a hunk removes some lines and adds others; a text may lack its final newline. */
  datatype Hunk = Hunk(
    oldStart: nat, newStart: nat, removed: seq<string>, removedOpen: bool, added: seq<string>, addedOpen: bool,
    section: string)

  datatype FileDiff = FileDiff(names: string, extended: seq<string>, target: Target, hunks: seq<Hunk>) {
    ghost predicate Valid() {
      && (forall i :: 0 <= i < |extended| ==> Extended(extended[i]))
      && (target.Missing? ==> hunks == [])
      && (target.Plain? ==> !Tabbed(target.name))
    }
  }

  const KEYWORDS := [
    "old mode ", "new mode ", "deleted file mode ", "new file mode ", "copy from ", "copy to ", "rename from ",
    "rename to ",
    "similarity index ", "dissimilarity index ", "index ", "--- "]

  predicate Extended(line: string) {
    exists i :: 0 <= i < |KEYWORDS| && KEYWORDS[i] <= line
  }

  predicate Tabbed(s: string) {
    s != "" && s[|s| - 1] == '\t'
  }

  function RangeText(start: nat, count: nat): string {
    Decimal(start) + if count == 1 then "" else "," + Decimal(count)
  }

  function HunkHeader(h: Hunk): string {
    HUNK + "-" + RangeText(h.oldStart, |h.removed|) + " +" + RangeText(h.newStart, |h.added|) + " @@" + h.section
  }

  function Marked(mark: char, lines: seq<string>): (r: seq<string>)
    ensures |r| == |lines| && forall i :: 0 <= i < |r| ==> r[i] == [mark] + lines[i]
  {
    seq(|lines|, i requires 0 <= i < |lines| => [mark] + lines[i])
  }

  function Open(open: bool): seq<string> {
    if open then ["\\ No newline at end of file"] else []
  }

  function HunkBody(h: Hunk): seq<string> {
    Marked('-', h.removed) + Open(h.removedOpen) + Marked('+', h.added) + Open(h.addedOpen)
  }

  function HunkLines(hunks: seq<Hunk>): seq<string> {
    if hunks == [] then [] else [HunkHeader(hunks[0])] + HunkBody(hunks[0]) + HunkLines(hunks[1..])
  }

  /** What stands behind the plus signs of a destination. */
  function TargetText(t: Target): string
    requires !t.Missing?
  {
    match t
    case Deleted => "/dev/null"
    case Plain(name, tab) => "b/" + name + if tab then "\t" else ""
    case Quoted(text) => "\"" + text
  }

  function TargetLines(t: Target): seq<string> {
    if t.Missing? then [] else [TARGET + TargetText(t)]
  }

  function FileLines(f: FileDiff): seq<string> {
    [FILE + f.names] + f.extended + TargetLines(f.target) + HunkLines(f.hunks)
  }

  function DiffLines(diff: seq<FileDiff>): seq<string> {
    if diff == [] then [] else FileLines(diff[0]) + DiffLines(diff[1..])
  }

  // ---- What a diff adds ----

  /** The new-line numbers of the added lines. */
  function AddedBy(hunks: seq<Hunk>): set<int> {
    if hunks == [] then {} else Span(hunks[0].newStart, |hunks[0].added|) + AddedBy(hunks[1..])
  }

  function Expected(changed: Changed, diff: seq<FileDiff>): Changed
    decreases |diff|
  {
    if diff == [] then changed
    else
      var f := diff[0];
      Expected(
        if !f.target.Plain? then changed
        else changed[f.target.name := (if f.target.name in changed then changed[f.target.name] else {})
                     + AddedBy(f.hunks)],
        diff[1..])
  }

  /** Line `n` of the new file `name` is an added line of the diff. */
  ghost predicate Adds(diff: seq<FileDiff>, name: string, n: int) {
    exists i, j :: AddsAt(diff, name, n, i, j)
  }

  predicate AddsAt(diff: seq<FileDiff>, name: string, n: int, i: int, j: int) {
    && 0 <= i < |diff| && diff[i].target == Plain(name, Tab(diff[i].target))
    && 0 <= j < |diff[i].hunks| && InHunk(diff[i].hunks[j], n)
  }

  function Tab(t: Target): bool {
    t.Plain? && t.tab
  }

  predicate InHunk(h: Hunk, n: int) {
    h.newStart <= n < h.newStart + |h.added|
  }

  ghost predicate Names(diff: seq<FileDiff>, name: string) {
    exists i :: 0 <= i < |diff| && diff[i].target.Plain? && diff[i].target.name == name
  }

  lemma {:induction false} AddedByExact(hunks: seq<Hunk>, n: int)
    ensures n in AddedBy(hunks) <==> exists j :: 0 <= j < |hunks| && InHunk(hunks[j], n)
  {
    if hunks != [] {
      AddedByExact(hunks[1..], n);
      if n in AddedBy(hunks) {
        if InHunk(hunks[0], n) {
        } else {
          var j :| 0 <= j < |hunks[1..]| && InHunk(hunks[1..][j], n);
          assert InHunk(hunks[j + 1], n);
        }
      }
      if j :| 0 <= j < |hunks| && InHunk(hunks[j], n) {
        if j > 0 { assert InHunk(hunks[1..][j - 1], n); }
      }
    }
  }

  lemma {:induction false} AddsSplit(diff: seq<FileDiff>, name: string, n: int)
    requires diff != []
    ensures Adds(diff, name, n) <==>
            (diff[0].target.Plain? && diff[0].target.name == name && n in AddedBy(diff[0].hunks))
              || Adds(diff[1..], name, n)
    ensures Names(diff, name) <==> (diff[0].target.Plain? && diff[0].target.name == name) || Names(diff[1..], name)
  {
    AddedByExact(diff[0].hunks, n);
    if n in AddedBy(diff[0].hunks) && diff[0].target.Plain? && diff[0].target.name == name {
      var j :| 0 <= j < |diff[0].hunks| && InHunk(diff[0].hunks[j], n);
      assert AddsAt(diff, name, n, 0, j);
    }
    if i, j :| AddsAt(diff, name, n, i, j) {
      if i > 0 { assert AddsAt(diff[1..], name, n, i - 1, j); }
    }
    if i, j :| AddsAt(diff[1..], name, n, i, j) {
      assert AddsAt(diff, name, n, i + 1, j);
    }
    if i :| 0 <= i < |diff| && diff[i].target.Plain? && diff[i].target.name == name {
      if i > 0 { assert diff[1..][i - 1] == diff[i]; }
    }
    if i :| 0 <= i < |diff[1..]| && diff[1..][i].target.Plain? && diff[1..][i].target.name == name {
      assert diff[i + 1] == diff[1..][i];
    }
  }

  /** The expected map, without the order of the diff. */
  lemma {:induction false} ExpectedExact(changed: Changed, diff: seq<FileDiff>, name: string, n: int)
    ensures name in Expected(changed, diff) <==> name in changed || Names(diff, name)
    ensures name in Expected(changed, diff) ==>
              (n in Expected(changed, diff)[name] <==> (name in changed && n in changed[name]) || Adds(diff, name, n))
    decreases |diff|
  {
    hide AddedBy;
    hide InHunk;
    if diff == [] {
    } else {
      var f := diff[0];
      AddsSplit(diff, name, n);
      var next := if !f.target.Plain? then changed
        else changed[f.target.name := (if f.target.name in changed then changed[f.target.name] else {})
                     + AddedBy(f.hunks)];
      ExpectedExact(next, diff[1..], name, n);
      hide Adds;
      hide Names;
    }
  }

  // ---- Reading the numbers back ----

  lemma {:induction false} NumberOfDecimal(n: nat)
    ensures Number(Decimal(n)) == n
  {
    var d := Decimal(n);
    if n < 10 {
      assert d[..0] == "";
    } else {
      NumberOfDecimal(n / 10);
      assert d[..|d| - 1] == Decimal(n / 10);
    }
  }

  lemma {:induction false} DigitsOf(d: string, rest: string)
    requires forall i :: 0 <= i < |d| ==> IsDigit(d[i])
    requires rest == "" || !IsDigit(rest[0])
    ensures Digits(d + rest) == d
  {
    if d == "" {
      assert d + rest == rest;
    } else {
      DigitsOf(d[1..], rest);
      assert (d + rest)[1..] == d[1..] + rest;
    }
  }

  lemma {:induction false} FindAfter(before: string, rest: string)
    requires '+' !in before
    ensures FindRange(before + rest) == FindRange(rest)
  {
    if before == "" {
      assert before + rest == rest;
    } else {
      FindAfter(before[1..], rest);
      assert (before + rest)[0] == before[0] && (before + rest)[1..] == before[1..] + rest;
    }
  }

  lemma {:induction false} FindHere(start: nat, count: nat, rest: string)
    requires rest != "" && rest[0] == ' '
    ensures FindRange("+" + (RangeText(start, count) + rest)) == Some((start, count))
  {
    var d := Decimal(start);
    var after := (if count == 1 then "" else "," + Decimal(count)) + rest;
    var line := "+" + (RangeText(start, count) + rest);
    Seqs.Assoc(d, if count == 1 then "" else "," + Decimal(count), rest);
    assert line[1..] == d + after;
    assert line[1] == d[0];
    NumberOfDecimal(start);
    DigitsOf(d, after);
    assert line[1 + |d|..] == after;
    if count != 1 {
      var c := Decimal(count);
      assert after == "," + (c + rest);
      assert after[1..] == c + rest;
      assert after[1] == c[0];
      NumberOfDecimal(count);
      DigitsOf(c, rest);
    }
    hide Decimal;
    hide Number;
  }

  lemma {:induction false} NoPlus(start: nat, count: nat)
    ensures '+' !in RangeText(start, count)
  {
    var d := RangeText(start, count);
    hide Decimal;
    forall i | 0 <= i < |d| ensures d[i] != '+' {
      assert IsDigit(d[i]) || d[i] == ',';
    }
  }

  /** The first plus sign of a hunk header is that of its new range, whatever the section heading holds. */
  lemma {:induction false} HeaderRange(h: Hunk)
    ensures HUNK <= HunkHeader(h) && FindRange(HunkHeader(h)) == Some((h.newStart, |h.added|))
  {
    hide RangeText;
    hide FindRange;
    var before0, added := RangeText(h.oldStart, |h.removed|), RangeText(h.newStart, |h.added|);
    var before, rest := HUNK + "-" + before0 + " ", " @@" + h.section;
    NoPlus(h.oldStart, |h.removed|);
    assert '+' !in before;
    assert HunkHeader(h) == before + ("+" + (added + rest));
    FindAfter(before, "+" + (added + rest));
    FindHere(h.newStart, |h.added|, rest);
  }

  // ---- Parsing a rendered diff ----

  predicate Quiet(s: Parser, line: string) {
    !(FILE <= line) && !(s.awaiting && TARGET <= line) && !(HUNK <= line)
  }

  lemma {:induction false} Skip(s: Parser, lines: seq<string>, rest: seq<string>)
    requires s.Valid() && forall i :: 0 <= i < |lines| ==> Quiet(s, lines[i])
    ensures Parse(s, lines + rest) == Parse(s, rest)
  {
    hide FindRange;
    if lines == [] {
      assert lines + rest == rest;
    } else {
      assert (lines + rest)[0] == lines[0] && (lines + rest)[1..] == lines[1..] + rest;
      assert Quiet(s, lines[0]);
      Skip(s, lines[1..], rest);
    }
  }

  lemma {:induction false} ParseHead(s: Parser, line: string, rest: seq<string>)
    requires s.Valid()
    ensures Parse(s, [line] + rest) == if Step(s, line).None? then None else Parse(Step(s, line).value, rest)
  {
    hide Step;
    assert ([line] + rest)[0] == line && ([line] + rest)[1..] == rest;
  }

  /** An added text may look like any header; with its mark it is none. */
  lemma {:induction false} BodyQuiet(s: Parser, h: Hunk, i: nat)
    requires !s.awaiting && i < |HunkBody(h)|
    ensures Quiet(s, HunkBody(h)[i])
  {
    var line := HunkBody(h)[i];
    assert line != "" && line[0] in ['-', '+', '\\'];
    Differs(FILE, line, 0);
    Differs(HUNK, line, 0);
  }

  lemma {:induction false} ParseHunks(s: Parser, hunks: seq<Hunk>, rest: seq<string>)
    requires s.Valid() && !s.awaiting && s.seen
    ensures Parse(s, HunkLines(hunks) + rest)
         == Parse(if s.current.Some? then Add(s, AddedBy(hunks)) else s, rest)
    decreases |hunks|
  {
    hide FindRange;
    hide HunkBody;
    hide HunkHeader;
    hide Quiet;
    if hunks == [] {
      assert HunkLines(hunks) + rest == rest;
      if s.current.Some? {
        assert s.changed[s.current.value] + {} == s.changed[s.current.value];
        assert Add(s, {}).changed == s.changed;
      }
    } else {
      var h, tail := hunks[0], HunkLines(hunks[1..]) + rest;
      Seqs.Assoc([HunkHeader(h)] + HunkBody(h), HunkLines(hunks[1..]), rest);
      Seqs.Assoc([HunkHeader(h)], HunkBody(h), tail);
      HeaderRange(h);
      HunkStep(s, HunkHeader(h), h.newStart, |h.added|);
      ParseHead(s, HunkHeader(h), HunkBody(h) + tail);
      var t := Step(s, HunkHeader(h)).value;
      forall i | 0 <= i < |HunkBody(h)| ensures Quiet(t, HunkBody(h)[i]) { BodyQuiet(t, h, i); }
      Skip(t, HunkBody(h), tail);
      ParseHunks(t, hunks[1..], rest);
      if s.current.Some? { AddTwice(s, Span(h.newStart, |h.added|), AddedBy(hunks[1..])); }
      hide Parse;
      hide Step;
    }
  }

  lemma {:induction false} AddTwice(s: Parser, a: set<int>, b: set<int>)
    requires s.Valid() && s.current.Some?
    ensures Add(Add(s, a), b) == Add(s, a + b)
  {
    assert s.changed[s.current.value] + a + b == s.changed[s.current.value] + (a + b);
  }

  lemma {:induction false} HunkStep(s: Parser, line: string, start: nat, count: nat)
    requires s.Valid() && !s.awaiting && s.seen && HUNK <= line && FindRange(line) == Some((start, count))
    ensures Step(s, line) == Some(if s.current.Some? then Add(s, Span(start, count)) else s)
  {
    hide FindRange;
    assert line[0] == HUNK[0] == '@';
    Differs(FILE, line, 0);
  }

  lemma {:induction false} ExtendedQuiet(s: Parser, line: string)
    requires Extended(line)
    ensures Quiet(s, line)
  {
    var i :| 0 <= i < |KEYWORDS| && KEYWORDS[i] <= line;
    var k := KEYWORDS[i];
    assert |k| >= 4 && line[0] == k[0] && line[1] == k[1] && line[2] == k[2];
    assert k[0] != '@' && k[0] != '+' && (k[0] != 'd' || k[1] == 'e' || k[2] == 's');
    Differs(HUNK, line, 0);
    Differs(TARGET, line, 0);
    Differs(FILE, line, if k[0] != 'd' then 0 else if k[1] != 'i' then 1 else 2);
  }

  /** Where the parser is after the header of a file. */
  function AfterHeader(s: Parser, f: FileDiff): Option<Parser> {
    match f.target
    case Missing => Some(Parser(s.changed, None, true, false))
    case Deleted => Some(Parser(s.changed, None, false, true))
    case Plain(name, _) => Some(Enter(s, name))
    case Quoted(_) => None
  }

  lemma {:induction false} PlainText(name: string, tab: bool)
    requires !Tabbed(name)
    ensures var target := RemoveTab("b/" + name + if tab then "\t" else "");
            !("\"" <= target) && target != "/dev/null" && RemovePrefix(target, "b/") == name
  {
    var target := "b/" + name;
    assert RemoveTab(target + if tab then "\t" else "") == target;
    assert target[0] == 'b' && target[2..] == name && "b/" <= target;
    Differs("\"", target, 0);
    assert "/dev/null"[0] == '/';
  }

  lemma {:induction false} TargetStep(s: Parser, t: Target)
    requires s.awaiting && s.current.None? && !s.seen && !t.Missing? && (t.Plain? ==> !Tabbed(t.name))
    ensures Step(s, TargetLines(t)[0]) == AfterHeader(s, FileDiff("", [], t, []))
  {
    hide FindRange;
    hide Add;
    hide RemovePrefix;
    var line, text := TARGET + TargetText(t), TargetText(t);
    assert line[4..] == text && TARGET <= line;
    Differs(FILE, line, 0);
    match t {
      case Deleted => Differs("\"", "/dev/null", 0);
      case Plain(name, tab) => PlainText(name, tab);
      case Quoted(q) => assert text[0] == '"';
    }
  }

  lemma {:induction false} ParseFile(s: Parser, f: FileDiff, rest: seq<string>)
    requires s.Valid() && f.Valid()
    ensures AfterHeader(s, f).None? ==> Parse(s, FileLines(f) + rest).None?
    ensures AfterHeader(s, f).Some? ==>
              var t := AfterHeader(s, f).value;
              Parse(s, FileLines(f) + rest) == Parse(if t.current.Some? then Add(t, AddedBy(f.hunks)) else t, rest)
  {
    hide FindRange;
    hide HunkLines;
    hide Extended;
    hide Quiet;
    hide AddedBy;
    var first := FILE + f.names;
    var tail := HunkLines(f.hunks) + rest;
    var middle := TargetLines(f.target) + tail;
    FileParts([first], f.extended, TargetLines(f.target), HunkLines(f.hunks), rest);
    var t := Parser(s.changed, None, true, false);
    assert FILE <= first;
    assert Step(s, first) == Some(t);
    ParseHead(s, first, f.extended + middle);
    forall i | 0 <= i < |f.extended| ensures Quiet(t, f.extended[i]) { ExtendedQuiet(t, f.extended[i]); }
    Skip(t, f.extended, middle);
    if f.target.Missing? {
      assert middle == tail;
      NoHunks(rest);
    } else {
      var line := TargetLines(f.target)[0];
      assert TargetLines(f.target) == [line];
      TargetStep(t, f.target);
      ParseHead(t, line, tail);
      if !f.target.Quoted? { ParseHunks(Step(t, line).value, f.hunks, rest); }
    }
    hide Parse;
    hide Step;
  }

  lemma {:induction false} NoHunks(rest: seq<string>)
    ensures HunkLines([]) + rest == rest
  {}

  lemma {:induction false} FileParts<T>(a: seq<T>, b: seq<T>, c: seq<T>, d: seq<T>, rest: seq<T>)
    ensures a + b + c + d + rest == a + (b + (c + (d + rest)))
  {}

  lemma {:induction false} ParseDiffLines(s: Parser, diff: seq<FileDiff>)
    requires s.Valid() && forall i :: 0 <= i < |diff| ==> diff[i].Valid()
    ensures Result(Parse(s, DiffLines(diff)))
         == if exists i :: 0 <= i < |diff| && diff[i].target.Quoted? then None else Some(Expected(s.changed, diff))
    decreases |diff|
  {
    hide FileLines;
    hide AddedBy;
    hide Step;
    if diff != [] {
      var f, tail := diff[0], diff[1..];
      ParseFile(s, f, DiffLines(tail));
      if f.target.Quoted? {
      } else {
        var t := AfterHeader(s, f).value;
        var u := if t.current.Some? then Add(t, AddedBy(f.hunks)) else t;
        ParseDiffLines(u, tail);
        assert (exists i :: 0 <= i < |diff| && diff[i].target.Quoted?)
           <==> (exists i :: 0 <= i < |tail| && tail[i].target.Quoted?) by {
          if i :| 0 <= i < |diff| && diff[i].target.Quoted? { assert tail[i - 1] == diff[i]; }
          if i :| 0 <= i < |tail| && tail[i].target.Quoted? { assert diff[i + 1] == tail[i]; }
        }
        assert f.target.Plain? ==> u.changed == s.changed[f.target.name :=
          (if f.target.name in s.changed then s.changed[f.target.name] else {}) + AddedBy(f.hunks)];
      }
    }
  }

  // ---- From text ----

  ghost predicate Clean(line: string) {
    forall i :: 0 <= i < |line| ==> !Breaks(line[i])
  }

  /** Every line with its end, a newline or a carriage return and a newline. */
  function Render(lines: seq<string>, ends: seq<bool>): string
    requires |lines| == |ends|
  {
    if lines == [] then "" else lines[0] + (EndText(ends[0]) + Render(lines[1..], ends[1..]))
  }

  lemma {:induction false} SplitClean(line: string, rest: string, current: string)
    requires Clean(line)
    ensures SplitLines(line + rest, current) == SplitLines(rest, current + line)
  {
    if line == "" {
      assert line + rest == rest && current + line == current;
    } else {
      assert (line + rest)[0] == line[0] && (line + rest)[1..] == line[1..] + rest;
      assert current + [line[0]] + line[1..] == current + line;
      SplitClean(line[1..], rest, current + [line[0]]);
    }
  }

  lemma {:induction false} SplitEnd(end: string, rest: string, current: string)
    requires end in ["\n", "\r\n"]
    ensures SplitLines(end + rest, current) == [current] + SplitLines(rest, "")
  {
    assert end == "\n" ==> (end + rest)[1..] == rest;
    assert end == "\r\n" ==> (end + rest)[2..] == rest && (end + rest)[1] == '\n';
    assert (end + rest)[0] == end[0];
  }

  function EndText(end: bool): string {
    if end then "\r\n" else "\n"
  }

  /** What the parser sees of one line: more than one piece if it holds further separators. */
  function Pieces(line: string, end: bool): seq<string> {
    SplitLines(line + EndText(end), "")
  }

  function AllPieces(lines: seq<string>, ends: seq<bool>): seq<string>
    requires |lines| == |ends|
  {
    if lines == [] then [] else Pieces(lines[0], ends[0]) + AllPieces(lines[1..], ends[1..])
  }

  /** No line is joined to the next one. */
  lemma {:induction false} SplitConcat(text: string, rest: string, current: string)
    requires text != "" && text[|text| - 1] == '\n'
    ensures SplitLines(text + rest, current) == SplitLines(text, current) + SplitLines(rest, "")
    decreases |text|, 0
  {
    var c := text[0];
    assert (text + rest)[0] == c && (text + rest)[1..] == text[1..] + rest;
    if Breaks(c) {
      if c == '\r' && |text| > 1 && text[1] == '\n' {
        assert (text + rest)[1] == '\n' && (text + rest)[2..] == text[2..] + rest;
        SplitTail(text[2..], rest);
        Seqs.Assoc([current], SplitLines(text[2..], ""), SplitLines(rest, ""));
      } else {
        assert c == '\r' && |text| > 1 ==> (text + rest)[1] == text[1];
        SplitTail(text[1..], rest);
        Seqs.Assoc([current], SplitLines(text[1..], ""), SplitLines(rest, ""));
      }
    } else {
      SplitConcat(text[1..], rest, current + [c]);
    }
  }

  lemma {:induction false} SplitTail(text: string, rest: string)
    requires text == "" || text[|text| - 1] == '\n'
    ensures SplitLines(text + rest, "") == SplitLines(text, "") + SplitLines(rest, "")
    decreases |text|, 1
  {
    if text == "" {
      assert text + rest == rest && SplitLines("", "") == [];
      assert [] + SplitLines(rest, "") == SplitLines(rest, "");
    } else {
      SplitConcat(text, rest, "");
    }
  }

  lemma {:induction false} SplitRendered(lines: seq<string>, ends: seq<bool>)
    requires |lines| == |ends|
    ensures SplitLines(Render(lines, ends), "") == AllPieces(lines, ends)
  {
    hide SplitLines;
    if lines == [] {
      SplitNothing();
    } else {
      var rest := Render(lines[1..], ends[1..]);
      Seqs.Assoc(lines[0], EndText(ends[0]), rest);
      SplitConcat(lines[0] + EndText(ends[0]), rest, "");
      SplitRendered(lines[1..], ends[1..]);
    }
  }

  lemma {:induction false} CleanPieces(line: string, end: bool)
    requires Clean(line)
    ensures Pieces(line, end) == [line]
  {
    hide SplitLines;
    SplitClean(line, EndText(end), "");
    assert "" + line == line;
    assert EndText(end) + "" == EndText(end);
    SplitEnd(EndText(end), "", line);
    SplitNothing();
    assert [line] + [] == [line];
  }

  /** Up to the first separator. */
  function Cut(line: string): (k: nat)
    ensures k <= |line| && (k < |line| ==> Breaks(line[k])) && forall i :: 0 <= i < k ==> !Breaks(line[i])
  {
    if line == "" || Breaks(line[0]) then 0 else 1 + Cut(line[1..])
  }

  /** The first piece is the line up to its first separator. */
  lemma {:induction false} FirstPiece(line: string, end: bool)
    ensures Pieces(line, end) != [] && Pieces(line, end)[0] == line[..Cut(line)]
  {
    var k := Cut(line);
    var rest := line[k..] + EndText(end);
    assert line + EndText(end) == line[..k] + rest;
    SplitClean(line[..k], rest, "");
    assert "" + line[..k] == line[..k];
    assert rest != "" && Breaks(rest[0]) by { assert k == |line| ==> rest == EndText(end); }
  }

  /** The file, or the lines added to it, do not change over this piece. */
  predicate Harmless(piece: string) {
    !(FILE <= piece) && (HUNK <= piece ==> FindRange(piece).Some? && FindRange(piece).value.1 == 0)
  }

  ghost predicate Tame(line: string, end: bool) {
    forall k :: 1 <= k < |Pieces(line, end)| ==> Harmless(Pieces(line, end)[k])
  }

  predicate InHunks(s: Parser) {
    s.Valid() && s.seen && !s.awaiting
  }

  lemma {:induction false} EmptySpan(start: int)
    ensures Span(start, 0) == {}
  {}

  /** Inside the hunks of any file, a piece leaves every parse alone exactly when it is harmless. */
  lemma {:induction false} HarmlessExactly(piece: string)
    ensures Harmless(piece) <==> forall s: Parser :: InHunks(s) && s.current.Some? ==> Step(s, piece) == Some(s)
  {
    hide FindRange;
    if Harmless(piece) {
      forall s: Parser | InHunks(s) ensures Step(s, piece) == Some(s) { HarmlessStep(s, piece); }
    } else {
      var s := Parser(map["" := {}], Some(""), false, true);
      assert InHunks(s) && Step(s, piece) != Some(s) by {
        if !(FILE <= piece) && FindRange(piece).Some? {
          var (start, count) := FindRange(piece).value;
          assert InSpan(start, count, start) && start in Span(start, count);
          assert start in Add(s, Span(start, count)).changed[""];
        }
      }
    }
  }

  lemma {:induction false} HarmlessStep(s: Parser, piece: string)
    requires InHunks(s) && Harmless(piece)
    ensures Step(s, piece) == Some(s)
  {
    hide FindRange;
    if HUNK <= piece && s.current.Some? {
      EmptySpan(FindRange(piece).value.0);
      assert s.changed[s.current.value] + {} == s.changed[s.current.value];
      assert Add(s, {}).changed == s.changed;
    }
  }

  lemma {:induction false} HarmlessParse(s: Parser, pieces: seq<string>)
    requires InHunks(s) && forall k :: 0 <= k < |pieces| ==> Harmless(pieces[k])
    ensures Parse(s, pieces) == Some(s)
  {
    hide Step;
    hide Harmless;
    if pieces != [] {
      HarmlessStep(s, pieces[0]);
      HarmlessParse(s, pieces[1..]);
    }
  }

  // ---- Pieces parse as their lines ----

  /** The pieces of the line take the parser where the line takes it. */
  predicate Agrees(s: Parser, line: string, end: bool) {
    s.Valid() && Parse(s, Pieces(line, end)) == Step(s, line)
  }

  predicate AllAgree(s: Parser, lines: seq<string>, ends: seq<bool>)
    requires s.Valid() && |lines| == |ends|
    decreases |lines|
  {
    lines == [] ||
    (Agrees(s, lines[0], ends[0])
     && (Step(s, lines[0]).Some? ==> AllAgree(Step(s, lines[0]).value, lines[1..], ends[1..])))
  }

  lemma {:induction false} ParseConcat(s: Parser, a: seq<string>, b: seq<string>)
    requires s.Valid()
    ensures Parse(s, a + b) == if Parse(s, a).None? then None else Parse(ParsedTo(s, a), b)
    decreases |a|
  {
    hide Step;
    if a == [] {
      assert a + b == b;
    } else {
      assert (a + b)[0] == a[0] && (a + b)[1..] == a[1..] + b;
      if Step(s, a[0]).Some? { ParseConcat(Step(s, a[0]).value, a[1..], b); }
    }
  }

  /** Where a parse ends that does not give up. */
  function ParsedTo(s: Parser, lines: seq<string>): (t: Parser)
    requires s.Valid()
    ensures t.Valid() && (Parse(s, lines).Some? ==> Parse(s, lines) == Some(t))
    decreases |lines|
  {
    if lines == [] || Step(s, lines[0]).None? then s else ParsedTo(Step(s, lines[0]).value, lines[1..])
  }

  lemma {:induction false} AgreeingParse(s: Parser, lines: seq<string>, ends: seq<bool>)
    requires s.Valid() && |lines| == |ends| && AllAgree(s, lines, ends)
    ensures Parse(s, AllPieces(lines, ends)) == Parse(s, lines)
    decreases |lines|
  {
    hide Step;
    hide Pieces;
    if lines != [] {
      var pieces := Pieces(lines[0], ends[0]);
      ParseConcat(s, pieces, AllPieces(lines[1..], ends[1..]));
      if Step(s, lines[0]).Some? {
        AgreeingParse(Step(s, lines[0]).value, lines[1..], ends[1..]);
      }
    }
  }

  lemma {:induction false} AgreeAppend(s: Parser, a: seq<string>, b: seq<string>, ends: seq<bool>)
    requires s.Valid() && |ends| == |a| + |b| && AllAgree(s, a, ends[..|a|])
    requires Parse(s, a).Some? ==> AllAgree(ParsedTo(s, a), b, ends[|a|..])
    ensures AllAgree(s, a + b, ends)
    decreases |a|
  {
    hide Step;
    hide Agrees;
    if a == [] {
      assert a + b == b && ends[0..] == ends;
    } else {
      assert (a + b)[0] == a[0] && (a + b)[1..] == a[1..] + b;
      assert ends[..|a|][0] == ends[0] && ends[..|a|][1..] == ends[1..][..|a| - 1]
             && ends[1..][|a| - 1..] == ends[|a|..];
      if Step(s, a[0]).Some? { AgreeAppend(Step(s, a[0]).value, a[1..], b, ends[1..]); }
    }
  }

  lemma {:induction false} CleanAgrees(s: Parser, line: string, end: bool)
    requires s.Valid() && Clean(line)
    ensures Agrees(s, line, end)
  {
    CleanPieces(line, end);
    hide Pieces;
    hide Step;
    ParseHead(s, line, []);
    assert [line] + [] == [line];
  }

  lemma {:induction false} CleanAgree(s: Parser, lines: seq<string>, ends: seq<bool>)
    requires s.Valid() && |lines| == |ends| && forall i :: 0 <= i < |lines| ==> Clean(lines[i])
    ensures AllAgree(s, lines, ends)
    decreases |lines|
  {
    hide Agrees;
    hide Clean;
    hide Step;
    if lines != [] {
      CleanAgrees(s, lines[0], ends[0]);
      if Step(s, lines[0]).Some? { CleanAgree(Step(s, lines[0]).value, lines[1..], ends[1..]); }
    }
  }

  /** In the hunks, a line whose first piece does what it does, and whose other pieces are harmless. */
  lemma {:induction false} TameAgrees(s: Parser, line: string, end: bool)
    requires InHunks(s) && Tame(line, end) && Step(s, line).Some? && InHunks(Step(s, line).value)
    requires Step(s, line[..Cut(line)]) == Step(s, line)
    ensures Agrees(s, line, end)
  {
    hide Step;
    hide Harmless;
    FirstPiece(line, end);
    var pieces := Pieces(line, end);
    hide Pieces;
    hide Cut;
    assert pieces == [pieces[0]] + pieces[1..];
    ParseHead(s, pieces[0], pieces[1..]);
    HarmlessParse(Step(s, line).value, pieces[1..]);
  }

  lemma {:induction false} BodyStep(s: Parser, line: string)
    requires InHunks(s) && line != "" && (line[0] == '-' || line[0] == '+' || line[0] == '\\')
    ensures Step(s, line) == Some(s)
  {
    hide FindRange;
    Differs(FILE, line, 0);
    Differs(HUNK, line, 0);
  }

  lemma {:induction false} BodyAgrees(s: Parser, line: string, end: bool)
    requires InHunks(s) && line != "" && (line[0] == '-' || line[0] == '+' || line[0] == '\\') && Tame(line, end)
    ensures Agrees(s, line, end) && Step(s, line) == Some(s)
  {
    hide Step;
    hide Tame;
    hide Agrees;
    BodyStep(s, line);
    assert Cut(line) > 0;
    BodyStep(s, line[..Cut(line)]);
    hide Cut;
    TameAgrees(s, line, end);
  }

  lemma {:induction false} BodiesAgree(s: Parser, lines: seq<string>, ends: seq<bool>)
    requires InHunks(s) && |lines| == |ends|
    requires forall i :: 0 <= i < |lines| ==>
               lines[i] != "" && (lines[i][0] == '-' || lines[i][0] == '+' || lines[i][0] == '\\')
                 && Tame(lines[i], ends[i])
    ensures AllAgree(s, lines, ends) && Parse(s, lines) == Some(s) && ParsedTo(s, lines) == s
  {
    hide Step;
    hide Tame;
    hide Agrees;
    hide InHunks;
    if lines != [] {
      BodyAgrees(s, lines[0], ends[0]);
      InHunksValid(s);
      BodiesAgree(s, lines[1..], ends[1..]);
    }
  }

  lemma {:induction false} InHunksValid(s: Parser)
    requires InHunks(s)
    ensures s.Valid()
  {}

  /** A hunk header cut inside its section still is the header of the same range. */
  lemma {:induction false} HeaderCut(h: Hunk)
    ensures var k := Cut(HunkHeader(h));
            exists section :: HunkHeader(h)[..k] == HunkHeader(h.(section := section))
  {
    var bare := h.(section := "");
    var start := HunkHeader(bare);
    HeaderClean(bare);
    var line := HunkHeader(h);
    assert line == start + h.section by { SectionLast(h); }
    var k := Cut(line);
    hide HunkHeader;
    assert forall i :: 0 <= i < |start| ==> line[i] == start[i] && !Breaks(line[i]);
    var section := h.section[..k - |start|];
    assert line[..k] == start + section;
    SectionLast(h.(section := section));
    assert HunkHeader(h.(section := section)) == start + section;
  }

  lemma {:induction false} SectionLast(h: Hunk)
    ensures HunkHeader(h) == HunkHeader(h.(section := "")) + h.section
  {
    hide RangeText;
  }

  lemma {:induction false} HeaderAgrees(s: Parser, h: Hunk, end: bool)
    requires InHunks(s) && Tame(HunkHeader(h), end)
    ensures Agrees(s, HunkHeader(h), end) && Step(s, HunkHeader(h)).Some? && InHunks(Step(s, HunkHeader(h)).value)
  {
    hide FindRange;
    hide Tame;
    hide Agrees;
    var line := HunkHeader(h);
    HeaderCut(h);
    var section :| line[..Cut(line)] == HunkHeader(h.(section := section));
    hide HunkHeader;
    hide Cut;
    HeaderRange(h);
    HeaderRange(h.(section := section));
    HunkStep(s, line, h.newStart, |h.added|);
    HunkStep(s, line[..Cut(line)], h.newStart, |h.added|);
    hide Step;
    TameAgrees(s, line, end);
  }

  ghost predicate AllTame(lines: seq<string>, ends: seq<bool>) {
    |lines| == |ends| && forall i :: 0 <= i < |lines| ==> Tame(lines[i], ends[i])
  }

  lemma {:induction false} TameParts(a: seq<string>, b: seq<string>, ends: seq<bool>)
    requires AllTame(a + b, ends)
    ensures AllTame(a, ends[..|a|]) && AllTame(b, ends[|a|..])
  {
    hide Tame;
    forall i | 0 <= i < |a| ensures Tame(a[i], ends[..|a|][i]) { assert (a + b)[i] == a[i]; }
    forall i | 0 <= i < |b| ensures Tame(b[i], ends[|a|..][i]) { assert (a + b)[|a| + i] == b[i]; }
  }

  lemma {:induction false} HunksAgree(s: Parser, hunks: seq<Hunk>, ends: seq<bool>)
    requires InHunks(s) && AllTame(HunkLines(hunks), ends)
    ensures AllAgree(s, HunkLines(hunks), ends)
    decreases |hunks|
  {
    hide Tame;
    hide Agrees;
    hide Step;
    hide HunkHeader;
    hide HunkBody;
    if hunks != [] {
      var h := hunks[0];
      var first, body, rest := HunkHeader(h), HunkBody(h), HunkLines(hunks[1..]);
      var n := 1 + |body|;
      TameParts([first] + body, rest, ends);
      TameParts([first], body, ends[..n]);
      HeaderAgrees(s, h, ends[0]);
      assert [first][0] == first && ends[..n][..1][0] == ends[0];
      var t := Step(s, first).value;
      BodyLines(h);
      BodiesAgree(t, body, ends[..n][1..]);
      HunkAgrees(s, first, body, ends[..n]);
      HunksAgree(t, hunks[1..], ends[n..]);
      AgreeAppend(s, [first] + body, rest, ends);
    }
  }

  lemma {:induction false} BodyLines(h: Hunk)
    ensures forall i :: 0 <= i < |HunkBody(h)| ==>
              HunkBody(h)[i] != ""
                && (HunkBody(h)[i][0] == '-' || HunkBody(h)[i][0] == '+' || HunkBody(h)[i][0] == '\\')
  {}

  /** One hunk: its header, then its body. */
  lemma {:induction false} HunkAgrees(s: Parser, first: string, body: seq<string>, ends: seq<bool>)
    requires s.Valid() && |ends| == 1 + |body| && Agrees(s, first, ends[0]) && Step(s, first).Some?
    requires var t := Step(s, first).value;
             AllAgree(t, body, ends[1..]) && Parse(t, body) == Some(t) && ParsedTo(t, body) == t
    ensures AllAgree(s, [first] + body, ends)
    ensures Parse(s, [first] + body) == Step(s, first) && ParsedTo(s, [first] + body) == Step(s, first).value
  {
    hide Agrees;
    hide Step;
    var lines := [first] + body;
    assert lines[0] == first && lines[1..] == body;
  }

  ghost predicate CleanHeader(f: FileDiff) {
    Clean(FILE + f.names) && (forall i :: 0 <= i < |f.extended| ==> Clean(f.extended[i]))
    && forall i :: 0 <= i < |TargetLines(f.target)| ==> Clean(TargetLines(f.target)[i])
  }

  lemma {:induction false} FileAgrees(s: Parser, f: FileDiff, ends: seq<bool>)
    requires s.Valid() && f.Valid() && CleanHeader(f) && AllTame(FileLines(f), ends)
    ensures AllAgree(s, FileLines(f), ends)
  {
    hide Tame;
    hide Agrees;
    hide Step;
    hide Clean;
    hide Extended;
    hide HunkLines;
    var header := [FILE + f.names] + f.extended + TargetLines(f.target);
    TameParts(header, HunkLines(f.hunks), ends);
    CleanAgree(s, header, ends[..|header|]);
    HeaderEnds(s, f);
    hide TargetLines;
    if Parse(s, header).Some? {
      if f.target.Missing? {
        NoHunks([]);
        assert HunkLines(f.hunks) == [] && ends[|header|..] == [];
      } else {
        HunksAgree(ParsedTo(s, header), f.hunks, ends[|header|..]);
      }
    }
    AgreeAppend(s, header, HunkLines(f.hunks), ends);
  }

  /** After its header a file with a destination is in its hunks. */
  lemma {:induction false} HeaderEnds(s: Parser, f: FileDiff)
    requires s.Valid() && f.Valid()
    ensures var header := [FILE + f.names] + f.extended + TargetLines(f.target);
            Parse(s, header).Some? && !f.target.Missing? ==> InHunks(ParsedTo(s, header))
  {
    hide FindRange;
    hide Extended;
    hide Step;
    var bare := f.(hunks := []);
    var header := [FILE + f.names] + f.extended + TargetLines(f.target);
    ParseFile(s, bare, []);
    NoHunks([]);
    assert FileLines(bare) + [] == header;
    hide TargetLines;
    if AfterHeader(s, bare).Some? && !f.target.Missing? {
      var t := AfterHeader(s, bare).value;
      AddedNothing(t);
      assert Parse(s, header) == Some(t);
    }
  }

  lemma {:induction false} AddedNothing(t: Parser)
    requires t.Valid()
    ensures Parse(if t.current.Some? then Add(t, AddedBy([])) else t, []) == Some(t)
  {
    if t.current.Some? {
      assert t.changed[t.current.value] + {} == t.changed[t.current.value];
      assert Add(t, {}).changed == t.changed;
    }
  }

  lemma {:induction false} DiffAgrees(s: Parser, diff: seq<FileDiff>, ends: seq<bool>)
    requires s.Valid() && AllTame(DiffLines(diff), ends)
    requires forall i :: 0 <= i < |diff| ==> diff[i].Valid() && CleanHeader(diff[i])
    ensures AllAgree(s, DiffLines(diff), ends)
    decreases |diff|
  {
    hide Tame;
    hide Agrees;
    hide Step;
    hide CleanHeader;
    hide FileLines;
    if diff != [] {
      var first, rest := FileLines(diff[0]), DiffLines(diff[1..]);
      TameParts(first, rest, ends);
      FileAgrees(s, diff[0], ends[..|first|]);
      if Parse(s, first).Some? { DiffAgrees(ParsedTo(s, first), diff[1..], ends[|first|..]); }
      AgreeAppend(s, first, rest, ends);
    }
  }

  lemma {:induction false} SplitNothing()
    ensures SplitLines("", "") == []
  {}

  /**
   * A diff with its line ends: the header lines have no further separators, and what follows a further separator in a
   * text or a section is harmless.
   */
  ghost predicate ValidDiff(diff: seq<FileDiff>, ends: seq<bool>) {
    && (forall i :: 0 <= i < |diff| ==> diff[i].Valid() && CleanHeader(diff[i]))
    && AllTame(DiffLines(diff), ends)
  }

  ghost predicate SomeQuoted(diff: seq<FileDiff>) {
    exists i :: 0 <= i < |diff| && diff[i].target.Quoted?
  }

  /**
   * What the parser is for: giving up on quoted destinations only, and otherwise the added lines of each destination.
   */
  ghost predicate Right(r: Option<Changed>, diff: seq<FileDiff>) {
    && (r.None? <==> SomeQuoted(diff))
    && (r.Some? ==> forall name :: name in r.value <==> Names(diff, name))
    && (r.Some? ==> forall name, n :: name in r.value ==> (n in r.value[name] <==> Adds(diff, name, n)))
  }

  /**
   * The parser inverts the rendering of every valid diff, whatever its lines hold: it maps each unquoted destination to
   * exactly its added lines. It gives up exactly when some destination is quoted.
   */
  lemma {:induction false} ParseInvertsRender(diff: seq<FileDiff>, ends: seq<bool>)
    requires ValidDiff(diff, ends)
    ensures var r := Result(Parse(INITIAL, SplitLines(Render(DiffLines(diff), ends), "")));
            && (r.None? <==> SomeQuoted(diff))
            && (r.Some? ==> forall name :: name in r.value <==> Names(diff, name))
            && (r.Some? ==> forall name, n :: name in r.value ==> (n in r.value[name] <==> Adds(diff, name, n)))
  {
    hide CleanHeader;
    hide Tame;
    SplitRendered(DiffLines(diff), ends);
    DiffAgrees(INITIAL, diff, ends);
    AgreeingParse(INITIAL, DiffLines(diff), ends);
    ParseDiffLines(INITIAL, diff);
    hide DiffLines;
    hide Parse;
    hide Adds;
    hide Names;
    hide Expected;
    forall name, n {:trigger Adds(diff, name, n)} { ExpectedExact(map[], diff, name, n); }
    forall name ensures name in Expected(map[], diff) <==> Names(diff, name) { ExpectedExact(map[], diff, name, 0); }
  }

  /** A form feed in an added text is a line break to the parser, and what follows it can pass for a hunk header. */
  lemma {:induction false} FormFeedMisleads(
    names: string, name: string, x: string, start: nat, g: Hunk, ends: seq<bool>)
    requires Clean(FILE + names) && Clean(TARGET + "b/" + name) && !Tabbed(name) && Clean(x) && Clean(g.section)
    requires |ends| == 4
    ensures var h := Hunk(0, start, [], false, [x + "\U{000C}" + HunkHeader(g)], false, "");
            var diff := [FileDiff(names, [], Plain(name, false), [h])];
            && |DiffLines(diff)| == 4
            && Result(Parse(INITIAL, SplitLines(Render(DiffLines(diff), ends), "")))
            == Some(map[name := {start} + Span(g.newStart, |g.added|)])
            && forall n :: Adds(diff, name, n) <==> n == start
  {
    var y := HunkHeader(g);
    var long := x + "\U{000C}" + y;
    var h := Hunk(0, start, [], false, [long], false, "");
    var f := FileDiff(names, [], Plain(name, false), [h]);
    var lines := [FILE + names, TARGET + "b/" + name, HunkHeader(h), "+" + long];
    LoneLines(names, name, h, long);
    HeaderClean(h);
    HeaderClean(g);
    MisleadingSplit(FILE + names, TARGET + "b/" + name, HunkHeader(h), x, y, ends);
    MisleadingParse(names, name, h, x, g);
    forall n ensures Adds([f], name, n) <==> n == start {
      assert InHunk(h, n) <==> n == start;
      if n == start { assert AddsAt([f], name, n, 0, 0); }
      if i, j :| AddsAt([f], name, n, i, j) { assert f.hunks[j] == h; }
    }
  }

  /** The lines of a diff of one file with one added line. */
  lemma {:induction false} LoneLines(names: string, name: string, h: Hunk, text: string)
    requires h == Hunk(0, h.newStart, [], false, [text], false, "")
    ensures var f := FileDiff(names, [], Plain(name, false), [h]);
            && DiffLines([f]) == FileLines(f)
            && FileLines(f) == [FILE + names, TARGET + "b/" + name, HunkHeader(h), "+" + text]
  {
    hide HunkHeader;
    assert HunkBody(h) == ["+" + text];
    assert HunkLines([h]) == [HunkHeader(h), "+" + text];
    assert TARGET + ("b/" + name + "") == TARGET + "b/" + name;
    assert TargetLines(Plain(name, false)) == [TARGET + "b/" + name];
  }

  lemma {:induction false} HeaderClean(h: Hunk)
    requires Clean(h.section)
    ensures Clean(HunkHeader(h))
  {
    RangeClean(h.oldStart, |h.removed|);
    RangeClean(h.newStart, |h.added|);
    hide RangeText;
  }

  lemma {:induction false} RangeClean(start: nat, count: nat)
    ensures Clean(RangeText(start, count))
  {
    var d := RangeText(start, count);
    hide Decimal;
    forall i | 0 <= i < |d| ensures !Breaks(d[i]) {
      assert IsDigit(d[i]) || d[i] == ',';
    }
  }

  lemma {:induction false} MisleadingSplit(a: string, b: string, c: string, x: string, y: string, ends: seq<bool>)
    requires Clean(a) && Clean(b) && Clean(c) && Clean(x) && Clean(y) && |ends| == 4
    ensures SplitLines(Render([a, b, c, "+" + (x + "\U{000C}" + y)], ends), "") == [a, b, c, "+" + x, y]
  {
    hide SplitLines;
    hide Clean;
    var e := (i: int) => if 0 <= i < 4 && ends[i] then "\r\n" else "\n";
    var last := "+" + (x + "\U{000C}" + y);
    SplitClean(a, e(0) + (b + (e(1) + (c + (e(2) + (last + (e(3) + "")))))), "");
    SplitEnd(e(0), b + (e(1) + (c + (e(2) + (last + (e(3) + ""))))), "" + a);
    SplitClean(b, e(1) + (c + (e(2) + (last + (e(3) + "")))), "");
    SplitEnd(e(1), c + (e(2) + (last + (e(3) + ""))), "" + b);
    SplitClean(c, e(2) + (last + (e(3) + "")), "");
    SplitEnd(e(2), last + (e(3) + ""), "" + c);
    PlusClean(x);
    SplitClean("+" + x, "\U{000C}" + (y + (e(3) + "")), "");
    SplitFeed(y + (e(3) + ""), "" + ("+" + x));
    SplitClean(y, e(3) + "", "");
    SplitEnd(e(3), "", "" + y);
    SplitNothing();
    assert "" + a == a && "" + b == b && "" + c == c && "" + y == y && "" + ("+" + x) == "+" + x;
    ListFive(a, b, c, "+" + x, y);
    assert last + (e(3) + "") == ("+" + x) + ("\U{000C}" + (y + (e(3) + "")));
    RenderFour(a, b, c, last, ends);
  }

  lemma {:induction false} PlusClean(x: string)
    requires Clean(x)
    ensures Clean("+" + x)
  {}

  lemma {:induction false} SplitFeed(rest: string, current: string)
    ensures SplitLines("\U{000C}" + rest, current) == [current] + SplitLines(rest, "")
  {
    assert ("\U{000C}" + rest)[1..] == rest;
  }

  lemma {:induction false} RenderFour(a: string, b: string, c: string, d: string, ends: seq<bool>)
    requires |ends| == 4
    ensures var e := (i: int) => if 0 <= i < 4 && ends[i] then "\r\n" else "\n";
            Render([a, b, c, d], ends) == a + (e(0) + (b + (e(1) + (c + (e(2) + (d + (e(3) + "")))))))
  {
    assert [a, b, c, d][1..] == [b, c, d] && [b, c, d][1..] == [c, d] && [c, d][1..] == [d] && [d][1..] == [];
    assert Render([d], ends[3..]) == d + ((if ends[3] then "\r\n" else "\n") + "");
    assert Render([c, d], ends[2..]) == c + ((if ends[2] then "\r\n" else "\n") + Render([d], ends[3..]));
    assert Render([b, c, d], ends[1..]) == b + ((if ends[1] then "\r\n" else "\n") + Render([c, d], ends[2..]));
  }

  lemma {:induction false} MisleadingParse(names: string, name: string, h: Hunk, x: string, g: Hunk)
    requires !Tabbed(name) && h == Hunk(0, h.newStart, [], false, h.added, false, "") && |h.added| == 1
    ensures Result(Parse(INITIAL, [FILE + names, TARGET + "b/" + name, HunkHeader(h), "+" + x, HunkHeader(g)]))
         == Some(map[name := {h.newStart} + Span(g.newStart, |g.added|)])
  {
    hide FindRange;
    hide HunkHeader;
    hide FileLines;
    var short := h.(added := [x]);
    var f := FileDiff(names, [], Plain(name, false), [short]);
    SameHeader(h, short);
    LoneLines(names, name, short, x);
    ParseFile(INITIAL, f, [HunkHeader(g)]);
    var t := Add(Enter(INITIAL, name), AddedBy([short]));
    HeaderRange(g);
    HunkStep(t, HunkHeader(g), g.newStart, |g.added|);
    ParseHead(t, HunkHeader(g), []);
    assert [HunkHeader(g)] + [] == [HunkHeader(g)];
    assert FileLines(f) + [HunkHeader(g)]
           == [FILE + names, TARGET + "b/" + name, HunkHeader(h), "+" + x, HunkHeader(g)];
    AddedByOne(short);
    hide Step;
    hide AddedBy;
    assert {} + {h.newStart} + Span(g.newStart, |g.added|) == {h.newStart} + Span(g.newStart, |g.added|);
    assert Add(t, Span(g.newStart, |g.added|)).changed == map[name := {h.newStart} + Span(g.newStart, |g.added|)];
    assert Parse(Add(t, Span(g.newStart, |g.added|)), []) == Some(Add(t, Span(g.newStart, |g.added|)));
  }

  lemma {:induction false} SameHeader(h: Hunk, k: Hunk)
    requires k == h.(added := k.added) && |k.added| == |h.added|
    ensures HunkHeader(k) == HunkHeader(h)
  {}

  lemma {:induction false} AddedByOne(h: Hunk)
    requires |h.added| == 1
    ensures AddedBy([h]) == {h.newStart}
  {
    assert Span(h.newStart, 1) == {h.newStart};
  }

  lemma {:induction false} ListFive<T>(a: T, b: T, c: T, d: T, e: T)
    ensures [a, b, c, d, e] == [a] + [b, c, d, e] && [b, c, d, e] == [b] + [c, d, e] && [c, d, e] == [c] + [d, e]
    ensures [d, e] == [d] + [e] && [e] == [e] + []
  {}

  // ---- The gate ----

  datatype Finding = Finding(error: bool, fixable: bool, file: Option<string>, line: Option<int>)
  datatype Enforcement = Full | Shadow | ChangedLines

  predicate Blocking(f: Finding) {
    f.error && !f.fixable
  }

  predicate TargetsStagedLine(f: Finding, changed: Changed) {
    f.file.Some? && f.file.value in changed
    && if f.line.Some? then f.line.value in changed[f.file.value] else changed[f.file.value] != {}
  }

  function Blockers(findings: seq<Finding>, changed: Option<Changed>): seq<Finding> {
    var blocking := Filter(findings, Blocking);
    if changed.None? then blocking else Filter(blocking, f => TargetsStagedLine(f, changed.value))
  }

  /** `_enforced_exit_code`. */
  function ExitCode(findings: seq<Finding>, mode: Enforcement, raw: int, changed: Option<Changed>): int {
    match mode
    case Full => raw
    case Shadow => 0
    case ChangedLines =>
      var blockers := Blockers(findings, changed);
      if blockers != [] || (changed.None? && raw != 0) then 1 else 0
  }

  /** The finding is on an added line, or is for the whole of a file with added lines. */
  ghost predicate OnAddedLine(diff: seq<FileDiff>, f: Finding) {
    f.file.Some? && if f.line.Some? then Adds(diff, f.file.value, f.line.value)
      else exists n :: Adds(diff, f.file.value, n)
  }

  /**
   * In changed-line mode the gate blocks exactly when an error that cannot be fixed automatically is on an added line,
   * or is for the whole of a file with added lines. Without usable diff evidence, any such error or a failed review
   * blocks.
   */
  lemma {:induction false} GateExact(diff: seq<FileDiff>, ends: seq<bool>, findings: seq<Finding>, raw: int)
    requires ValidDiff(diff, ends)
    ensures var parsed := Result(Parse(INITIAL, SplitLines(Render(DiffLines(diff), ends), "")));
            ExitCode(findings, ChangedLines, raw, parsed) == 1 <==>
              if SomeQuoted(diff) then raw != 0 || exists f :: f in findings && Blocking(f)
              else exists f :: f in findings && Blocking(f) && OnAddedLine(diff, f)
  {
    ParseInvertsRender(diff, ends);
    GateOnRight(diff, Result(Parse(INITIAL, SplitLines(Render(DiffLines(diff), ends), ""))), findings, raw);
  }

  lemma {:induction false} GateOnRight(diff: seq<FileDiff>, parsed: Option<Changed>, findings: seq<Finding>, raw: int)
    requires Right(parsed, diff)
    ensures ExitCode(findings, ChangedLines, raw, parsed) == 1 <==>
              if SomeQuoted(diff) then raw != 0 || exists f :: f in findings && Blocking(f)
              else exists f :: f in findings && Blocking(f) && OnAddedLine(diff, f)
  {
    hide Adds;
    hide Names;
    hide Filter;
    var blockers := Blockers(findings, parsed);
    forall f ensures f in blockers <==> f in findings && Blocking(f) && (parsed.None? || OnAddedLine(diff, f)) {
      FilterExact(findings, Blocking, f);
      if parsed.Some? {
        FilterExact(Filter(findings, Blocking), g => TargetsStagedLine(g, parsed.value), f);
        StagedIsAdded(diff, parsed.value, f);
      }
    }
    if blockers != [] { assert blockers[0] in blockers; }
  }

  /** The file has added lines, and the finding is on one of them or for no line. */
  predicate Touches(f: Finding, changed: Changed) {
    match f.file
    case None => false
    case Some(name) =>
      name in changed && match f.line
                         case Some(n) => n in changed[name]
                         case None => exists n :: n in changed[name]
  }

  /**
   * What each enforcement makes of the findings: the full one takes over the code of the review, the shadow one lets
   * everything pass, and the one for changed lines gives 1 for an error that is not fixable and touches added lines,
   * or, where these are not known, for any such error and for a failed review; otherwise 0.
   */
  lemma {:induction false} EnforcementExact(
    findings: seq<Finding>, mode: Enforcement, raw: int, changed: Option<Changed>)
    ensures mode == Full ==> ExitCode(findings, mode, raw, changed) == raw
    ensures mode == Shadow ==> ExitCode(findings, mode, raw, changed) == 0
    ensures mode == ChangedLines ==>
              ExitCode(findings, mode, raw, changed) ==
              if (changed.None? && raw != 0) ||
                 exists f :: f in findings && f.error && !f.fixable && (changed.Some? ==> Touches(f, changed.value))
              then 1 else 0
  {
    hide Filter;
    var blockers := Blockers(findings, changed);
    forall f
      ensures f in blockers <==> f in findings && Blocking(f) && (changed.Some? ==> Touches(f, changed.value)) {
      FilterExact(findings, Blocking, f);
      if changed.Some? {
        FilterExact(Filter(findings, Blocking), g => TargetsStagedLine(g, changed.value), f);
        TouchesTargets(f, changed.value);
      }
    }
    if blockers != [] { assert blockers[0] in blockers; }
  }

  lemma {:induction false} TouchesTargets(f: Finding, changed: Changed)
    ensures Touches(f, changed) <==> TargetsStagedLine(f, changed)
  {
    if f.file.Some? && f.file.value in changed { NotEmpty(changed[f.file.value]); }
  }

  lemma {:induction false} NotEmpty(s: set<int>)
    ensures s != {} ==> exists n :: n in s
  {
    if forall n :: n !in s { assert s == {}; }
  }

  lemma {:induction false} StagedIsAdded(diff: seq<FileDiff>, changed: Changed, f: Finding)
    requires forall name :: name in changed <==> Names(diff, name)
    requires forall name, n :: name in changed ==> (n in changed[name] <==> Adds(diff, name, n))
    ensures TargetsStagedLine(f, changed) <==> OnAddedLine(diff, f)
  {
    if f.file.Some? {
      var name := f.file.value;
      forall n | Adds(diff, name, n) ensures Names(diff, name) {
        var i, j :| AddsAt(diff, name, n, i, j);
      }
      hide Adds;
      hide Names;
      if name in changed { NotEmpty(changed[name]); }
    }
  }
}
