/**
 * The wheel whose metadata is corrected: members are renamed into the downstream metadata directory, and the RECORD of
 * all members is written again. Contents are texts of one character a byte; the digest of a content is abstract.
 */
module Record {
  import opened Bytes
  import opened Texts
  import Seqs

  type Files = map<string, string>

  /** The digest text of a content; the two metadata files expected upstream, and what they become. */
  datatype World = World(
    digest: string -> string, metadata: string, correctedMetadata: string, wheel: string, correctedWheel: string) {
    /** A digest is the name of the algorithm and a base64 text. */
    ghost predicate Valid() {
      forall data :: Plain(digest(data))
    }
  }

  // ---- Reading comma-separated rows, strictly ----

  datatype State = StartRecord | StartField | InField | InQuoted | QuoteInQuoted | EatEnd
  datatype Reader = Reader(state: State, rows: seq<seq<string>>, row: seq<string>, field: string)

  predicate Newline(c: char) {
    c == '\n' || c == '\r'
  }

  function Save(r: Reader, state: State): Reader {
    r.(state := state, row := r.row + [r.field], field := "")
  }

  function Feed(r: Reader, c: char): Option<Reader> {
    match r.state
    case StartRecord => if Newline(c) then Some(r.(state := EatEnd)) else Some(FeedField(r, c))
    case StartField => Some(FeedField(r, c))
    case InField =>
      Some(if Newline(c) then Save(r, EatEnd) else if c == ',' then Save(r, StartField) else r.(field := r.field + [c]))
    case InQuoted => Some(if c == '"' then r.(state := QuoteInQuoted) else r.(field := r.field + [c]))
    case QuoteInQuoted =>
      if c == '"' then Some(r.(state := InQuoted, field := r.field + [c]))
      else if c == ',' then Some(Save(r, StartField))
      else if Newline(c) then Some(Save(r, EatEnd))
      else None
    case EatEnd => if Newline(c) then Some(r) else None
  }

  function FeedField(r: Reader, c: char): Reader {
    if Newline(c) then Save(r, EatEnd)
    else if c == '"' then r.(state := InQuoted)
    else if c == ',' then Save(r, StartField)
    else r.(state := InField, field := r.field + [c])
  }

  function Finish(r: Reader): Reader {
    Reader(StartRecord, r.rows + [r.row], [], "")
  }

  /** At the end of a line a record ends, unless it is inside quotes. */
  function EndLine(r: Reader): Reader {
    match r.state
    case StartRecord | EatEnd => Finish(r)
    case StartField | InField | QuoteInQuoted => Finish(Save(r, EatEnd))
    case InQuoted => r
  }

  /** The rows of a text; None where the reader raises. */
  function ReadRows(r: Reader, text: string): Option<seq<seq<string>>>
    decreases |text|
  {
    if text == "" then (if r.state.StartRecord? then Some(r.rows) else None)
    else
      var next := Feed(r, text[0]);
      if next.None? then None
      else ReadRows(if text[0] == '\n' || |text| == 1 then EndLine(next.value) else next.value, text[1..])
  }

  const START := Reader(StartRecord, [], [], "")

  // ---- Writing them ----

  predicate Special(c: char) {
    c == ',' || c == '"' || c == '\n'
  }

  predicate Plain(s: string) {
    forall i :: 0 <= i < |s| ==> !Special(s[i]) && s[i] != '\r'
  }

  /** A carriage return is written without quotes; names that come from the archive have none. */
  predicate Writable(s: string) {
    forall i :: 0 <= i < |s| ==> s[i] != '\r'
  }

  function Twice(c: char): string {
    if c == '"' then "\"\"" else [c]
  }

  function Doubled(s: string): string {
    if s == "" then "" else Twice(s[0]) + Doubled(s[1..])
  }

  function FieldText(s: string): string {
    if exists i :: 0 <= i < |s| && Special(s[i]) then "\"" + (Doubled(s) + "\"") else s
  }

  function RowText(row: seq<string>): string
    requires row != []
  {
    FieldText(row[0]) + if |row| == 1 then "\n" else "," + RowText(row[1..])
  }

  function WriteRows(rows: seq<seq<string>>): string
    requires forall i :: 0 <= i < |rows| ==> rows[i] != []
  {
    if rows == [] then "" else RowText(rows[0]) + WriteRows(rows[1..])
  }

  // ---- Reading inverts writing ----

  predicate AtField(r: Reader) {
    (r.state.StartRecord? || r.state.StartField?) && r.field == ""
  }

  lemma {:induction false} ReadNext(r: Reader, c: char, rest: string)
    requires Feed(r, c).Some? && rest != "" && c != '\n'
    ensures ReadRows(r, [c] + rest) == ReadRows(Feed(r, c).value, rest)
  {
    hide Feed;
    assert ([c] + rest)[1..] == rest;
  }

  lemma {:induction false} ReadNewline(r: Reader, rest: string)
    requires Feed(r, '\n').Some?
    ensures ReadRows(r, "\n" + rest) == ReadRows(EndLine(Feed(r, '\n').value), rest)
  {
    hide Feed;
    assert ("\n" + rest)[1..] == rest;
  }

  lemma {:induction false} ReadPlain(r: Reader, s: string, rest: string)
    requires r.state.InField? && Plain(s) && rest != ""
    ensures ReadRows(r, s + rest) == ReadRows(r.(field := r.field + s), rest)
    decreases |s|
  {
    hide ReadRows;
    if s == "" {
      assert s + rest == rest && r.field + s == r.field;
    } else {
      assert s + rest == [s[0]] + (s[1..] + rest);
      ReadNext(r, s[0], s[1..] + rest);
      ReadPlain(r.(field := r.field + [s[0]]), s[1..], rest);
      assert r.field + [s[0]] + s[1..] == r.field + s;
    }
  }

  /** One character inside quotes. */
  lemma {:induction false} ReadTwice(r: Reader, c: char, tail: string)
    requires r.state.InQuoted? && tail != ""
    ensures ReadRows(r, Twice(c) + tail) == ReadRows(r.(field := r.field + [c]), tail)
  {
    hide ReadRows;
    if c == '"' {
      assert Twice(c) + tail == ['"'] + (['"'] + tail);
      ReadNext(r, '"', ['"'] + tail);
      ReadNext(r.(state := QuoteInQuoted), '"', tail);
    } else if c == '\n' {
      ReadNewline(r, tail);
    } else {
      ReadNext(r, c, tail);
    }
  }

  lemma {:induction false} ReadQuoted(r: Reader, s: string, rest: string)
    requires r.state.InQuoted? && rest != ""
    ensures ReadRows(r, Doubled(s) + rest) == ReadRows(r.(field := r.field + s), rest)
    decreases |s|
  {
    hide ReadRows;
    hide Twice;
    if s == "" {
      assert Doubled(s) + rest == rest && r.field + s == r.field;
    } else {
      var tail := Doubled(s[1..]) + rest;
      Seqs.Assoc(Twice(s[0]), Doubled(s[1..]), rest);
      ReadTwice(r, s[0], tail);
      ReadQuoted(r.(field := r.field + [s[0]]), s[1..], rest);
      assert r.field + [s[0]] + s[1..] == r.field + s;
    }
  }

  lemma {:induction false} ReadEnd(r: Reader, last: bool, rest: string)
    requires r.state.InField? || r.state.QuoteInQuoted? || r.state.StartField? || (r.state.StartRecord? && !last)
    requires !last ==> rest != ""
    ensures ReadRows(r, EndText(last) + rest) == ReadRows(AfterField(r, r.field, last), rest)
  {
    hide ReadRows;
    if last { ReadNewline(r, rest); } else { ReadNext(r, ',', rest); }
  }

  function EndText(last: bool): string {
    if last then "\n" else ","
  }

  function AfterField(r: Reader, s: string, last: bool): Reader {
    if last then Finish(r.(row := r.row + [s])) else Reader(StartField, r.rows, r.row + [s], "")
  }

  lemma {:induction false} ReadQuotedField(r: Reader, s: string, last: bool, rest: string)
    requires AtField(r) && (!last ==> rest != "")
    ensures ReadRows(r, ("\"" + (Doubled(s) + "\"")) + (EndText(last) + rest)) == ReadRows(AfterField(r, s, last), rest)
  {
    hide ReadRows;
    hide Doubled;
    var after := EndText(last) + rest;
    assert ("\"" + (Doubled(s) + "\"")) + after == ['"'] + (Doubled(s) + (['"'] + after));
    ReadNext(r, '"', Doubled(s) + (['"'] + after));
    ReadQuoted(r.(state := InQuoted), s, ['"'] + after);
    assert "" + s == s;
    ReadNext(r.(state := InQuoted, field := s), '"', after);
    ReadEnd(r.(state := QuoteInQuoted, field := s), last, rest);
  }

  lemma {:induction false} ReadPlainField(r: Reader, s: string, last: bool, rest: string)
    requires AtField(r) && Plain(s) && (last ==> r.state.StartField?) && (!last ==> rest != "")
    ensures ReadRows(r, s + (EndText(last) + rest)) == ReadRows(AfterField(r, s, last), rest)
  {
    hide ReadRows;
    var after := EndText(last) + rest;
    if s == "" {
      assert s + after == after;
      ReadEnd(r, last, rest);
    } else {
      assert s + after == [s[0]] + (s[1..] + after);
      ReadNext(r, s[0], s[1..] + after);
      ReadPlain(r.(state := InField, field := "" + [s[0]]), s[1..], after);
      assert "" + [s[0]] + s[1..] == s;
      ReadEnd(r.(state := InField, field := s), last, rest);
    }
  }

  /** A field that is followed by a comma or by the end of the row. */
  lemma {:induction false} ReadField(r: Reader, s: string, last: bool, rest: string)
    requires AtField(r) && Writable(s) && (last ==> r.state.StartField?) && (!last ==> rest != "")
    ensures ReadRows(r, FieldText(s) + (EndText(last) + rest)) == ReadRows(AfterField(r, s, last), rest)
  {
    hide ReadRows;
    hide AfterField;
    hide EndText;
    hide Doubled;
    hide Special;
    if exists i :: 0 <= i < |s| && Special(s[i]) {
      ReadQuotedField(r, s, last, rest);
    } else {
      ReadPlainField(r, s, last, rest);
    }
  }

  lemma {:induction false} ReadRow(r: Reader, row: seq<string>, rest: string)
    requires AtField(r) && row != [] && forall i :: 0 <= i < |row| ==> Writable(row[i])
    requires |row| == 1 ==> r.state.StartField?
    ensures ReadRows(r, RowText(row) + rest) == ReadRows(Finish(r.(row := r.row + row)), rest)
    decreases |row|
  {
    hide ReadRows;
    hide FieldText;
    if |row| == 1 {
      assert RowText(row) + rest == FieldText(row[0]) + ("\n" + rest);
      ReadField(r, row[0], true, rest);
      assert row == [row[0]];
    } else {
      var tail := RowText(row[1..]) + rest;
      assert RowText(row) + rest == FieldText(row[0]) + ("," + tail);
      ReadField(r, row[0], false, tail);
      ReadRow(Reader(StartField, r.rows, r.row + [row[0]], ""), row[1..], rest);
      assert r.row + [row[0]] + row[1..] == r.row + row;
    }
  }

  /**
   * Rows of at least two fields are read back as they were written, whatever their fields hold but carriage returns.
   */
  lemma {:induction false} ReadInvertsWrite(before: seq<seq<string>>, rows: seq<seq<string>>)
    requires forall i :: 0 <= i < |rows| ==> |rows[i]| > 1
    requires forall i, j :: 0 <= i < |rows| && 0 <= j < |rows[i]| ==> Writable(rows[i][j])
    ensures ReadRows(Reader(StartRecord, before, [], ""), WriteRows(rows)) == Some(before + rows)
    decreases |rows|
  {
    hide RowText;
    var r := Reader(StartRecord, before, [], "");
    if rows == [] {
      assert before + rows == before;
    } else {
      ReadRow(r, rows[0], WriteRows(rows[1..]));
      assert [] + rows[0] == rows[0];
      forall i, j | 0 <= i < |rows[1..]| && 0 <= j < |rows[1..][i]| ensures Writable(rows[1..][i][j]) {
        assert rows[1..][i] == rows[i + 1];
      }
      ReadInvertsWrite(before + [rows[0]], rows[1..]);
      assert before + [rows[0]] + rows[1..] == before + rows;
    }
  }

  /** What follows a closing quote, other than a comma, a line end or another quote, is refused. */
  lemma {:induction false} StrayRefused(r: Reader, s: string, c: char, rest: string)
    requires AtField(r) && c != ',' && c != '"' && !Newline(c)
    ensures ReadRows(r, ("\"" + (Doubled(s) + "\"")) + ([c] + rest)) == None
  {
    hide Doubled;
    var after := [c] + rest;
    var closed := r.(state := QuoteInQuoted, field := s);
    assert ("\"" + (Doubled(s) + "\"")) + after == ['"'] + (Doubled(s) + (['"'] + after));
    assert ReadRows(closed, after) == None;
    hide ReadRows;
    ReadNext(r, '"', Doubled(s) + (['"'] + after));
    ReadQuoted(r.(state := InQuoted), s, ['"'] + after);
    assert "" + s == s;
    ReadNext(r.(state := InQuoted, field := s), '"', after);
  }

  /** A quote that is never closed is refused. */
  lemma {:induction false} OpenRefused(r: Reader, s: string)
    requires r.state.InQuoted?
    ensures ReadRows(r, Doubled(s)) == None
    decreases |s|
  {
    if s == "" {
    } else if |s| == 1 {
      OneOpen(r, s[0]);
      assert Doubled(s[1..]) == "" && Twice(s[0]) + "" == Twice(s[0]);
    } else {
      var tail := Doubled(s[1..]);
      assert tail != "" by { assert Twice(s[1]) != "" && s[1..][0] == s[1]; }
      ReadTwice(r, s[0], tail);
      OpenRefused(r.(field := r.field + [s[0]]), s[1..]);
    }
  }

  lemma {:induction false} OneOpen(r: Reader, c: char)
    requires r.state.InQuoted?
    ensures ReadRows(r, Twice(c)) == None
  {
    if c == '"' {
      var half := r.(state := QuoteInQuoted);
      assert Twice(c)[1..] == ['"'] && ['"'][1..] == "";
      assert ReadRows(half, ['"']) == None;
    } else {
      assert Twice(c)[1..] == "";
    }
  }

  // ---- Verifying a RECORD ----

  predicate RowRight(w: World, files: Files, name: string, row: seq<string>) {
    && |row| == 3 && row[0] in files
    && (row[1], row[2]) == if row[0] == name then ("", "") else (w.digest(files[row[0]]), Decimal(|files[row[0]]|))
  }

  /** One right row for every file, and no other. */
  ghost predicate RecordRight(w: World, files: Files, name: string, rows: seq<seq<string>>) {
    && (forall i :: 0 <= i < |rows| ==> RowRight(w, files, name, rows[i]))
    && (forall i, j :: 0 <= i < j < |rows| ==> rows[i][0] != rows[j][0])
    && (forall n :: n in files ==> exists i :: 0 <= i < |rows| && rows[i][0] == n)
  }

  ghost predicate Verified(w: World, files: Files, prefix: string) {
    var name := prefix + "/RECORD";
    && name in files && ReadRows(START, files[name]).Some?
    && RecordRight(w, files, name, ReadRows(START, files[name]).value)
  }

  /** `verify_record`; false where it raises. */
  method VerifyRecord(w: World, files: Files, prefix: string) returns (ok: bool)
    ensures ok <==> Verified(w, files, prefix)
  {
    hide ReadRows;
    hide Decimal;
    var name := prefix + "/RECORD";
    if name !in files { return false; }
    var parsed := ReadRows(START, files[name]);
    if parsed.None? { return false; }
    var rows := parsed.value;
    var seen: set<string> := {};
    var k := 0;
    while k < |rows|
      invariant k <= |rows|
      invariant forall i :: 0 <= i < k ==> RowRight(w, files, name, rows[i]) && rows[i][0] in seen
      invariant forall i, j :: 0 <= i < j < k ==> rows[i][0] != rows[j][0]
      invariant forall n :: n in seen ==> n in files && exists i :: 0 <= i < k && rows[i][0] == n
    {
      var row := rows[k];
      if |row| != 3 || row[0] in seen || row[0] !in files { return false; }
      var expected := if row[0] == name then ("", "") else (w.digest(files[row[0]]), Decimal(|files[row[0]]|));
      if (row[1], row[2]) != expected { return false; }
      assert RowRight(w, files, name, row);
      seen := seen + {row[0]};
      k := k + 1;
    }
    if seen != files.Keys {
      assert exists n :: n in files && n !in seen;
      return false;
    }
    ok := true;
  }

  // ---- Correcting the members ----

  const UPSTREAM := "z3_solver-5.1.0.0.dist-info"
  const DOWNSTREAM := "z3_solver-5.1.0.0+specfact.1.dist-info"

  function Rename(name: string): string {
    if UPSTREAM + "/" <= name then DOWNSTREAM + name[|UPSTREAM|..] else name
  }

  /** Members of the upstream metadata directory keep their place in the downstream one, all others their names. */
  lemma {:induction false} RenameExactly(name: string)
    ensures forall tail :: name == UPSTREAM + "/" + tail ==> Rename(name) == DOWNSTREAM + "/" + tail
    ensures (forall tail :: name != UPSTREAM + "/" + tail) ==> Rename(name) == name
  {
    forall tail | name == UPSTREAM + "/" + tail ensures Rename(name) == DOWNSTREAM + "/" + tail {
      assert name == UPSTREAM + ("/" + tail);
      Seqs.DropAppend(UPSTREAM, "/" + tail);
    }
    if UPSTREAM + "/" <= name { assert name == UPSTREAM + "/" + name[|UPSTREAM| + 1..]; }
  }

  predicate IsAt(name: string, part: string, i: int) {
    0 <= i && i + |part| <= |name| && name[i..i + |part|] == part
  }

  predicate Has(name: string, part: string) {
    exists i | 0 <= i <= |name| :: IsAt(name, part, i)
  }

  predicate EndsWith(name: string, part: string) {
    IsAt(name, part, |name| - |part|)
  }

  /** The checks on the upstream members. */
  ghost predicate Admitted(w: World, files: Files) {
    && UPSTREAM + "/METADATA" in files && files[UPSTREAM + "/METADATA"] == w.metadata
    && UPSTREAM + "/WHEEL" in files && files[UPSTREAM + "/WHEEL"] == w.wheel
    && (forall n :: n in files && Has(n, ".dist-info") ==> UPSTREAM + "/" <= n)
    && (forall n :: n in files ==> !EndsWith(n, "/RECORD.jws") && !EndsWith(n, "/RECORD.p7s"))
    && Verified(w, files, UPSTREAM)
  }

  lemma {:induction false} DownstreamHas(tail: string)
    ensures Has(DOWNSTREAM + tail, ".dist-info") && !(UPSTREAM + "/" <= DOWNSTREAM + tail)
  {
    var name := DOWNSTREAM + tail;
    assert name[28..38] == DOWNSTREAM[28..38] == ".dist-info";
    assert IsAt(name, ".dist-info", 28);
    assert name[17] == '+' && (UPSTREAM + "/")[17] == '.';
  }

  /** No two members are renamed to the same name. */
  lemma {:induction false} RenameInjective(files: Files, m: string, n: string)
    requires forall k :: k in files && Has(k, ".dist-info") ==> UPSTREAM + "/" <= k
    requires m in files && n in files && Rename(m) == Rename(n)
    ensures m == n
  {
    hide Has;
    if UPSTREAM + "/" <= m { DownstreamHas(m[|UPSTREAM|..]); }
    if UPSTREAM + "/" <= n { DownstreamHas(n[|UPSTREAM|..]); }
    if UPSTREAM + "/" <= m && UPSTREAM + "/" <= n {
      assert m == UPSTREAM + m[|UPSTREAM|..] && n == UPSTREAM + n[|UPSTREAM|..];
      assert Rename(m)[|DOWNSTREAM|..] == m[|UPSTREAM|..] && Rename(n)[|DOWNSTREAM|..] == n[|UPSTREAM|..];
    }
  }

  ghost function Image(names: set<string>): set<string> {
    set n | n in names :: Rename(n)
  }

  /** The members under their new names. */
  ghost predicate Renamed(files: Files, names: set<string>, result: Files) {
    && names <= files.Keys && result.Keys == Image(names) && |result| == |names|
    && forall n :: n in names ==> Rename(n) in Image(names) && result[Rename(n)] == files[n]
  }

  /** No two members get the same name. */
  ghost predicate Apart(files: Files) {
    forall m, n :: m in files && n in files && m != n ==> Rename(m) != Rename(n)
  }

  /** The renaming keeps all members of a wheel without another metadata directory apart. */
  lemma {:induction false} RenameApart(files: Files)
    requires forall k :: k in files && Has(k, ".dist-info") ==> UPSTREAM + "/" <= k
    ensures Apart(files)
  {
    hide Has;
    hide Rename;
    hide UPSTREAM;
    forall m, n | m in files && n in files && m != n ensures Rename(m) != Rename(n) {
      if Rename(m) == Rename(n) { RenameInjective(files, m, n); }
    }
  }

  lemma {:induction false} RenamedNone(files: Files)
    ensures Renamed(files, {}, map[])
  {}

  lemma {:induction false} ImageMore(names: set<string>, n: string)
    ensures Image(names + {n}) == Image(names) + {Rename(n)}
  {
    hide Rename;
  }

  lemma {:induction false} NotInImage(files: Files, names: set<string>, n: string)
    requires Apart(files) && names <= files.Keys && n in files && n !in names
    ensures Rename(n) !in Image(names)
  {
    hide Rename;
  }

  lemma {:induction false} PutNew<K, V>(m: map<K, V>, k: K, v: V)
    requires k !in m
    ensures |m[k := v]| == |m| + 1 && m[k := v].Keys == m.Keys + {k}
  {
    assert m[k := v].Keys == m.Keys + {k};
  }

  lemma {:induction false} RenamedMore(files: Files, names: set<string>, result: Files, n: string)
    requires Apart(files) && n in files && n !in names && Renamed(files, names, result)
    ensures Renamed(files, names + {n}, result[Rename(n) := files[n]])
  {
    hide Rename;
    hide Image;
    NotInImage(files, names, n);
    hide Apart;
    ImageMore(names, n);
    PutNew(result, Rename(n), files[n]);
  }

  function RecordRow(w: World, name: string, data: string): seq<string> {
    [name, w.digest(data), Decimal(|data|)]
  }

  /** The rows of the new RECORD: the members in the order listed, and the RECORD itself. */
  function RecordRows(w: World, files: Files, names: seq<string>): (rows: seq<seq<string>>)
    requires forall i :: 0 <= i < |names| ==> names[i] in files
    ensures |rows| == |names| && forall i :: 0 <= i < |names| ==> rows[i] == RecordRow(w, names[i], files[names[i]])
  {
    seq(|names|, i requires 0 <= i < |names| => RecordRow(w, names[i], files[names[i]]))
  }

  ghost predicate Lists(names: seq<string>, all: set<string>) {
    && (forall i, j :: 0 <= i < j < |names| ==> names[i] != names[j])
    && (forall n :: n in names <==> n in all)
  }

  const RECORD := DOWNSTREAM + "/RECORD"

  function RecordText(w: World, files: Files, names: seq<string>): string
    requires forall i :: 0 <= i < |names| ==> names[i] in files
  {
    WriteRows(RecordRows(w, files, names) + [[RECORD, "", ""]])
  }

  ghost predicate AllWritable(rows: seq<seq<string>>) {
    && (forall i :: 0 <= i < |rows| ==> |rows[i]| > 1)
    && forall i, j :: 0 <= i < |rows| && 0 <= j < |rows[i]| ==> Writable(rows[i][j])
  }

  lemma {:induction false} RowsWritable(w: World, files: Files, names: seq<string>)
    requires w.Valid() && (forall i :: 0 <= i < |names| ==> names[i] in files && Writable(names[i]))
    ensures AllWritable(RecordRows(w, files, names) + [[RECORD, "", ""]])
  {
    hide Writable;
    hide Decimal;
    var rows := RecordRows(w, files, names) + [[RECORD, "", ""]];
    RecordWritable();
    hide RECORD;
    forall i, j | 0 <= i < |rows| && 0 <= j < |rows[i]| ensures Writable(rows[i][j]) {
      if i < |names| { RowWritable(w, names[i], files[names[i]], j); }
    }
  }

  lemma {:induction false} RecordWritable()
    ensures Writable(RECORD) && Writable("")
  {}

  lemma {:induction false} RowsRight(w: World, files: Files, names: seq<string>, text: string)
    requires RECORD !in files && Lists(names, files.Keys)
    ensures RecordRight(w, files[RECORD := text], RECORD, RecordRows(w, files, names) + [[RECORD, "", ""]])
  {
    hide RECORD;
    hide Decimal;
    var rows := RecordRows(w, files, names) + [[RECORD, "", ""]];
    var result := files[RECORD := text];
    forall i | 0 <= i < |rows| ensures RowRight(w, result, RECORD, rows[i]) {
      if i < |names| { assert names[i] in files; }
    }
    forall n | n in result ensures exists i :: 0 <= i < |rows| && rows[i][0] == n {
      if n == RECORD {
        assert rows[|names|][0] == n;
      } else {
        assert n in names;
        var i :| 0 <= i < |names| && names[i] == n;
        assert rows[i][0] == n;
      }
    }
  }

  /** The RECORD that is written always passes the verification, in whatever order the members are listed. */
  lemma {:induction false} RewrittenVerifies(w: World, files: Files, names: seq<string>)
    requires w.Valid() && RECORD !in files && Lists(names, files.Keys) && forall n :: n in files ==> Writable(n)
    ensures Verified(w, files[RECORD := RecordText(w, files, names)], DOWNSTREAM)
  {
    hide ReadRows;
    hide WriteRows;
    hide RecordRight;
    hide RecordRows;
    hide Writable;
    var rows := RecordRows(w, files, names) + [[RECORD, "", ""]];
    RowsWritable(w, files, names);
    RowsRight(w, files, names, RecordText(w, files, names));
    RecordName();
    hide RECORD;
    hide DOWNSTREAM;
    ReadInvertsWrite([], rows);
    assert [] + rows == rows;
  }

  lemma {:induction false} RecordName()
    ensures DOWNSTREAM + "/RECORD" == RECORD
  {}

  lemma {:induction false} RowWritable(w: World, name: string, data: string, j: nat)
    requires w.Valid() && Writable(name) && j < 3
    ensures Writable(RecordRow(w, name, data)[j])
  {
    hide Decimal;
    var size := Decimal(|data|);
    assert Plain(w.digest(data));
    forall i | 0 <= i < |size| ensures size[i] != '\r' { assert IsDigit(size[i]); }
  }

  const CHANGED := {UPSTREAM + "/METADATA", UPSTREAM + "/WHEEL", UPSTREAM + "/RECORD"}

  /** What a correction is: no member lost or invented, three contents changed, and a RECORD that verifies. */
  ghost predicate Corrects(w: World, files: Files, result: Files) {
    && |result| == |files|
    && Apart(files)
    && (forall n :: n in files ==> Rename(n) in result && (n !in CHANGED ==> result[Rename(n)] == files[n]))
    && DOWNSTREAM + "/METADATA" in result && result[DOWNSTREAM + "/METADATA"] == w.correctedMetadata
    && DOWNSTREAM + "/WHEEL" in result && result[DOWNSTREAM + "/WHEEL"] == w.correctedWheel
    && Verified(w, result, DOWNSTREAM)
  }

  function WithMetadata(w: World, files: Files): Files {
    files[DOWNSTREAM + "/METADATA" := w.correctedMetadata][DOWNSTREAM + "/WHEEL" := w.correctedWheel]
  }

  /** `corrected_members`; None where it raises. `listing` is the sorted order. */
  method CorrectedMembers(w: World, files: Files, listing: Files -> seq<string>) returns (r: Option<Files>)
    requires w.Valid() && forall n :: n in files ==> Writable(n)
    requires forall m: Files :: Lists(listing(m), m.Keys)
    ensures r.Some? <==> Admitted(w, files)
    ensures r.Some? ==> Corrects(w, files, r.value)
  {
    hide Verified;
    hide Has;
    hide EndsWith;
    hide Rename;
    hide UPSTREAM;
    hide DOWNSTREAM;
    hide RECORD;
    hide RecordText;
    hide Renamed;
    hide Apart;
    hide WithMetadata;
    if UPSTREAM + "/METADATA" !in files || files[UPSTREAM + "/METADATA"] != w.metadata
      || UPSTREAM + "/WHEEL" !in files || files[UPSTREAM + "/WHEEL"] != w.wheel { return None; }
    if exists n :: n in files && Has(n, ".dist-info") && !(UPSTREAM + "/" <= n) { return None; }
    if exists n :: n in files && (EndsWith(n, "/RECORD.jws") || EndsWith(n, "/RECORD.p7s")) { return None; }
    var ok := VerifyRecord(w, files, UPSTREAM);
    if !ok { return None; }
    RenameApart(files);
    var result := RenameMembers(files, files.Keys - {UPSTREAM + "/RECORD"});
    var corrected := WithMetadata(w, result);
    CorrectionOf(w, files, result, listing(corrected));
    corrected := corrected[RECORD := RecordText(w, corrected, listing(corrected))];
    ok := VerifyRecord(w, corrected, DOWNSTREAM);
    assert ok;
    r := Some(corrected);
  }

  method RenameMembers(files: Files, names: set<string>) returns (result: Files)
    requires Apart(files) && names <= files.Keys
    ensures Renamed(files, names, result)
  {
    hide Rename;
    hide Renamed;
    hide Apart;
    RenamedNone(files);
    var rest := names;
    ghost var done: set<string> := {};
    result := map[];
    while rest != {}
      invariant rest !! done && rest + done == names
      invariant Renamed(files, done, result)
      decreases |rest|
    {
      var n :| n in rest;
      RenamedMore(files, done, result, n);
      result := result[Rename(n) := files[n]];
      rest, done := rest - {n}, done + {n};
    }
    assert done == names;
  }

  /** The names of the corrected members, before the RECORD. */
  lemma {:induction false} CorrectionNames(w: World, files: Files, result: Files)
    requires Admitted(w, files) && Renamed(files, files.Keys - {UPSTREAM + "/RECORD"}, result)
    requires forall n :: n in files ==> Writable(n)
    ensures WithMetadata(w, result).Keys == result.Keys && RECORD !in result
    ensures forall n :: n in result ==> Writable(n)
  {
    hide Verified;
    hide Has;
    hide EndsWith;
    hide Writable;
    RenameApart(files);
    RecordThere(w, files);
    MetadataNames();
    hide Rename;
    hide UPSTREAM;
    hide DOWNSTREAM;
    hide RECORD;
    forall n | n in files ensures Writable(Rename(n)) { RenameWritable(n); }
  }

  lemma {:induction false} CorrectionOf(w: World, files: Files, result: Files, names: seq<string>)
    requires w.Valid() && Admitted(w, files) && Renamed(files, files.Keys - {UPSTREAM + "/RECORD"}, result)
    requires forall n :: n in files ==> Writable(n)
    requires Lists(names, WithMetadata(w, result).Keys)
    ensures var corrected := WithMetadata(w, result);
            Corrects(w, files, corrected[RECORD := RecordText(w, corrected, names)])
  {
    hide Verified;
    hide Has;
    hide EndsWith;
    hide RecordText;
    hide Writable;
    hide Rename;
    hide UPSTREAM;
    hide DOWNSTREAM;
    hide RECORD;
    var corrected := WithMetadata(w, result);
    CorrectionNames(w, files, result);
    RewrittenVerifies(w, corrected, names);
    RenameApart(files);
    RecordThere(w, files);
    CorrectionContents(w, files, result, RecordText(w, corrected, names));
    hide Renamed;
    hide Admitted;
  }

  /** A member with another name keeps clear of the three metadata files. */
  lemma {:induction false} ChangedApart(files: Files, n: string)
    requires Apart(files) && CHANGED <= files.Keys && n in files && n !in CHANGED
    ensures Rename(n) != DOWNSTREAM + "/METADATA" && Rename(n) != DOWNSTREAM + "/WHEEL" && Rename(n) != RECORD
  {
    MetadataNames();
    hide Rename;
    hide UPSTREAM;
    hide DOWNSTREAM;
    hide RECORD;
  }

  lemma {:induction false} CorrectionContents(w: World, files: Files, result: Files, text: string)
    requires Apart(files) && CHANGED <= files.Keys && RECORD !in result
    requires Renamed(files, files.Keys - {UPSTREAM + "/RECORD"}, result)
    requires WithMetadata(w, result).Keys == result.Keys
    requires Verified(w, WithMetadata(w, result)[RECORD := text], DOWNSTREAM)
    ensures Corrects(w, files, WithMetadata(w, result)[RECORD := text])
  {
    hide Verified;
    hide Rename;
    hide Image;
    hide UPSTREAM;
    hide DOWNSTREAM;
    hide RECORD;
    var corrected := WithMetadata(w, result);
    PutNew(corrected, RECORD, text);
    assert |corrected.Keys| == |result.Keys|;
    MetadataNames();
    forall n | n in files
      ensures Rename(n) in corrected[RECORD := text]
      ensures n !in CHANGED ==> corrected[RECORD := text][Rename(n)] == files[n] {
      if n !in CHANGED { ChangedApart(files, n); }
    }
    hide Apart;
  }

  lemma {:induction false} RecordThere(w: World, files: Files)
    requires Verified(w, files, UPSTREAM)
    ensures UPSTREAM + "/RECORD" in files
  {}

  /** Where the three metadata files go. */
  lemma {:induction false} MetadataNames()
    ensures Rename(UPSTREAM + "/METADATA") == DOWNSTREAM + "/METADATA"
    ensures Rename(UPSTREAM + "/WHEEL") == DOWNSTREAM + "/WHEEL"
    ensures Rename(UPSTREAM + "/RECORD") == RECORD == DOWNSTREAM + "/RECORD"
    ensures UPSTREAM + "/METADATA" != UPSTREAM + "/WHEEL" && UPSTREAM + "/METADATA" != UPSTREAM + "/RECORD"
    ensures UPSTREAM + "/WHEEL" != UPSTREAM + "/RECORD"
  {
    RenameTail("/METADATA");
    RenameTail("/WHEEL");
    RenameTail("/RECORD");
    hide Rename;
    assert |"/METADATA"| == 9 && |"/WHEEL"| == 6 && |"/RECORD"| == 7;
  }

  lemma {:induction false} RenameTail(tail: string)
    requires tail != "" && tail[0] == '/'
    ensures Rename(UPSTREAM + tail) == DOWNSTREAM + tail
  {
    var name := UPSTREAM + tail;
    assert name[..|UPSTREAM| + 1] == UPSTREAM + "/";
    assert name[|UPSTREAM|..] == tail;
  }

  lemma {:induction false} RenameWritable(name: string)
    requires Writable(name)
    ensures Writable(Rename(name))
  {
    forall i | 0 <= i < |Rename(name)| ensures Rename(name)[i] != '\r' {
      if UPSTREAM + "/" <= name && i >= |DOWNSTREAM| {
        assert Rename(name)[i] == name[i - |DOWNSTREAM| + |UPSTREAM|];
      }
    }
  }
}
