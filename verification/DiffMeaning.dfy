/** What the diff parser makes of any text whatever, without its state: which destination is in force at each line. */
module DiffMeaning {
  import opened Bytes
  import opened Texts
  import opened DiffGate
  import opened DiffSeparators
  import Seqs

  // ---- What is in force at a line ----

  /** Line `j` begins a file, and up to line `i` no destination has come. */
  ghost predicate WaitsSince(lines: seq<string>, j: int, i: int) {
    && 0 <= j < i <= |lines| && FILE <= lines[j]
    && forall k :: j < k < i ==> !(FILE <= lines[k]) && !(TARGET <= lines[k])
  }

  ghost predicate Waits(lines: seq<string>, i: int) {
    exists j :: WaitsSince(lines, j, i)
  }

  /** Line `t` is the destination of a file. */
  ghost predicate Directs(lines: seq<string>, t: int) {
    0 <= t < |lines| && TARGET <= lines[t] && Waits(lines, t)
  }

  predicate QuotedTarget(line: string)
    requires TARGET <= line
  {
    "\"" <= RemoveTab(line[4..])
  }

  /** The file a destination names; None for a deleted one. */
  function Destination(line: string): Option<string>
    requires TARGET <= line
  {
    var target := RemoveTab(line[4..]);
    if target == "/dev/null" then None else Some(RemovePrefix(target, "b/"))
  }

  /** At line `i` the destination of line `t` is in force. */
  ghost predicate InForce(lines: seq<string>, i: int, t: int) {
    && t < i <= |lines| && Directs(lines, t) && !QuotedTarget(lines[t])
    && forall k :: t < k < i ==> !(FILE <= lines[k])
  }

  ghost predicate Directed(lines: seq<string>, i: int) {
    exists t :: InForce(lines, i, t)
  }

  /** Where the parse gives up: a quoted destination, or a hunk header without a destination or a needed range. */
  ghost predicate Fatal(lines: seq<string>, i: int) {
    0 <= i < |lines| &&
    (|| (Directs(lines, i) && QuotedTarget(lines[i]))
     || (HUNK <= lines[i] && !Directed(lines, i))
     || (HUNK <= lines[i] && FindRange(lines[i]).None? &&
         exists t :: InForce(lines, i, t) && Destination(lines[t]).Some?))
  }

  ghost predicate GivesUp(lines: seq<string>) {
    exists i :: Fatal(lines, i)
  }

  /** Line `t` makes `name` known. */
  ghost predicate MakesKnown(lines: seq<string>, t: int, name: string) {
    Directs(lines, t) && !QuotedTarget(lines[t]) && Destination(lines[t]) == Some(name)
  }

  /** Line `i` counts `n` as added to `name`, the destination of line `t`. */
  ghost predicate CountsAt(lines: seq<string>, i: int, t: int, name: string, n: int) {
    && 0 <= i < |lines| && HUNK <= lines[i] && InForce(lines, i, t)
    && Destination(lines[t]) == Some(name) && InRange(lines[i], n)
  }

  ghost predicate Known(lines: seq<string>, name: string) {
    exists t :: MakesKnown(lines, t, name)
  }

  ghost predicate Counted(lines: seq<string>, name: string, n: int) {
    exists i, t :: CountsAt(lines, i, t, name, n)
  }

  // ---- One line more ----

  lemma {:induction false} SameBefore(p: seq<string>, x: string, i: int)
    requires 0 <= i <= |p|
    ensures Waits(p + [x], i) <==> Waits(p, i)
    ensures i < |p| ==> (Directs(p + [x], i) <==> Directs(p, i))
  {
    hide FILE;
    hide TARGET;
    var ls := p + [x];
    assert forall k :: 0 <= k < |p| ==> ls[k] == p[k];
    forall j ensures WaitsSince(ls, j, i) <==> WaitsSince(p, j, i) {}
  }

  lemma {:induction false} SameForce(p: seq<string>, x: string, i: int, t: int)
    requires 0 <= i <= |p|
    ensures InForce(p + [x], i, t) <==> InForce(p, i, t)
  {
    if 0 <= t < i { SameBefore(p, x, t); }
    hide FILE;
    hide TARGET;
    hide Directs;
    assert 0 <= t < i ==> (p + [x])[t] == p[t];
    assert forall k :: 0 <= k < |p| ==> (p + [x])[k] == p[k];
    DirectsBounds(p, t);
    DirectsBounds(p + [x], t);
  }

  lemma {:induction false} DirectsBounds(lines: seq<string>, t: int)
    ensures Directs(lines, t) ==> 0 <= t < |lines|
  {}

  lemma {:induction false} ForceBounds(lines: seq<string>, i: int, t: int)
    requires InForce(lines, i, t)
    ensures 0 <= t < |lines| && TARGET <= lines[t]
  {}

  lemma {:induction false} Exclusive(line: string)
    ensures !(FILE <= line && TARGET <= line) && !(FILE <= line && HUNK <= line) && !(TARGET <= line && HUNK <= line)
  {
    if FILE <= line {
      assert line[0] == FILE[0] == 'd';
      Differs(TARGET, line, 0);
      Differs(HUNK, line, 0);
    } else if TARGET <= line {
      assert line[0] == TARGET[0] == '+';
      Differs(HUNK, line, 0);
    }
  }

  lemma {:induction false} WaitsNext(p: seq<string>, x: string)
    ensures Waits(p + [x], |p| + 1) <==> FILE <= x || (Waits(p, |p|) && !(TARGET <= x))
  {
    var ls, n := p + [x], |p|;
    Exclusive(x);
    hide FILE;
    hide TARGET;
    hide HUNK;
    assert ls[n] == x && forall k :: 0 <= k < n ==> ls[k] == p[k];
    if FILE <= x { assert WaitsSince(ls, n, n + 1); }
    var m := n + 1;
    if j :| WaitsSince(ls, j, m) {
      if j < n { assert WaitsSince(p, j, n) && !(TARGET <= ls[n]); }
    }
    if j :| WaitsSince(p, j, n) {
      if !(FILE <= x) && !(TARGET <= x) { assert WaitsSince(ls, j, n + 1); }
    }
  }

  /** Nothing is in force while a destination is awaited. */
  lemma {:induction false} WaitingUndirected(lines: seq<string>, i: int, t: int)
    requires Waits(lines, i)
    ensures !InForce(lines, i, t)
  {
    var j :| WaitsSince(lines, j, i);
    Exclusive(lines[j]);
    hide FILE;
    hide TARGET;
    hide HUNK;
    if InForce(lines, i, t) {
      assert false;
    }
  }

  lemma {:induction false} OneInForce(lines: seq<string>, i: int, t: int, u: int)
    requires InForce(lines, i, t) && InForce(lines, i, u)
    ensures t == u
  {
    var a, b := if t < u then t else u, if t < u then u else t;
    if a < b {
      var j :| WaitsSince(lines, j, b);
      Exclusive(lines[a]);
      assert false;
    }
  }

  lemma {:induction false} ForceNext(p: seq<string>, x: string, t: int)
    ensures InForce(p + [x], |p| + 1, t) <==>
            !(FILE <= x) && (InForce(p, |p|, t) || (t == |p| && TARGET <= x && Waits(p, |p|) && !QuotedTarget(x)))
  {
    var ls, n := p + [x], |p|;
    Exclusive(x);
    SameForce(p, x, n, t);
    SameBefore(p, x, n);
    hide FILE;
    hide TARGET;
    hide HUNK;
    hide Waits;
    assert ls[n] == x;
    if t == n {
      assert Directs(ls, n) <==> TARGET <= x && Waits(ls, n);
      DirectsBounds(p, n);
    } else if t < n {
      assert InForce(ls, n + 1, t) <==> InForce(ls, n, t) && !(FILE <= x) by {
        if InForce(ls, n, t) && !(FILE <= x) {
          forall k | t < k < n + 1 ensures !(FILE <= ls[k]) {}
        }
        if InForce(ls, n + 1, t) { assert !(FILE <= ls[n]); }
      }
    } else {
      DirectsBounds(ls, t);
    }
  }

  // ---- The parser's state says as much ----

  ghost predicate StateOf(lines: seq<string>, s: Parser) {
    && s.Valid()
    && (s.awaiting <==> Waits(lines, |lines|)) && (s.seen <==> Directed(lines, |lines|))
    && (forall t :: InForce(lines, |lines|, t) ==> s.current == Destination(lines[t]))
    && (!s.seen ==> s.current.None?)
  }

  ghost predicate MapOf(lines: seq<string>, changed: Changed) {
    && (forall name :: name in changed <==> Known(lines, name))
    && (forall name, n :: name in changed ==> (n in changed[name] <==> Counted(lines, name, n)))
  }

  lemma {:induction false} KnownNext(p: seq<string>, x: string, name: string)
    ensures Known(p + [x], name) <==>
            || Known(p, name)
            || (TARGET <= x && Waits(p, |p|) && !QuotedTarget(x) && Destination(x) == Some(name))
  {
    var ls, n := p + [x], |p|;
    SameBefore(p, x, n);
    forall t | 0 <= t < n ensures MakesKnown(ls, t, name) <==> MakesKnown(p, t, name) {
      SameBefore(p, x, t);
      assert ls[t] == p[t];
    }
    assert ls[n] == x;
    assert Directs(ls, n) <==> TARGET <= x && Waits(p, n);
    hide FILE;
    hide TARGET;
    hide Waits;
    hide QuotedTarget;
    hide Destination;
    if t :| MakesKnown(ls, t, name) { DirectsBounds(ls, t); }
    if t :| MakesKnown(p, t, name) {
      DirectsBounds(p, t);
      assert MakesKnown(ls, t, name);
    }
    if MakesKnown(ls, n, name) {}
  }

  lemma {:induction false} CountedNext(p: seq<string>, x: string, name: string, n: int)
    ensures Counted(p + [x], name, n) <==>
            || Counted(p, name, n)
            || (HUNK <= x && InRange(x, n) && exists t :: InForce(p, |p|, t) && Destination(p[t]) == Some(name))
  {
    var ls, m := p + [x], |p|;
    hide FILE;
    hide TARGET;
    hide HUNK;
    hide InRange;
    hide Destination;
    forall i, t | 0 <= i <= m ensures InForce(ls, i, t) <==> InForce(p, i, t) { SameForce(p, x, i, t); }
    forall i, t | InForce(p, i, t) ensures 0 <= t < |p| && ls[t] == p[t] { DirectsBounds(p, t); }
    hide InForce;
    assert ls[m] == x && forall i :: 0 <= i < m ==> ls[i] == p[i];
    if i, t :| CountsAt(ls, i, t, name, n) {
      if i < m { assert CountsAt(p, i, t, name, n); }
    }
    if i, t :| CountsAt(p, i, t, name, n) { assert CountsAt(ls, i, t, name, n); }
    if HUNK <= x && InRange(x, n) && exists t :: InForce(p, |p|, t) && Destination(p[t]) == Some(name) {
      var t :| InForce(p, |p|, t) && Destination(p[t]) == Some(name);
      assert CountsAt(ls, m, t, name, n);
    }
  }

  /** The last line is where the parse gives up. */
  ghost predicate FatalLast(p: seq<string>, x: string) {
    || (TARGET <= x && Waits(p, |p|) && QuotedTarget(x))
    || (HUNK <= x && !Directed(p, |p|))
    || (HUNK <= x && FindRange(x).None? && exists t :: InForce(p, |p|, t) && Destination(p[t]).Some?)
  }

  lemma {:induction false} FatalNext(p: seq<string>, x: string)
    ensures GivesUp(p + [x]) <==> GivesUp(p) || FatalLast(p, x)
  {
    var ls, m := p + [x], |p|;
    hide FILE;
    hide TARGET;
    hide HUNK;
    hide FindRange;
    hide QuotedTarget;
    hide Destination;
    forall i, t | 0 <= i <= m ensures InForce(ls, i, t) <==> InForce(p, i, t) { SameForce(p, x, i, t); }
    forall i, t | InForce(p, i, t) ensures 0 <= t < |p| && ls[t] == p[t] { DirectsBounds(p, t); }
    hide InForce;
    assert ls[m] == x && forall i :: 0 <= i < m ==> ls[i] == p[i];
    forall i | 0 <= i < m ensures Fatal(ls, i) <==> Fatal(p, i) { SameBefore(p, x, i); }
    SameBefore(p, x, m);
    assert Directs(ls, m) <==> TARGET <= x && Waits(p, m);
    hide Directs;
    assert Fatal(ls, m) <==> FatalLast(p, x);
    if i :| Fatal(ls, i) { assert i < m ==> Fatal(p, i); }
    if i :| Fatal(p, i) { assert Fatal(ls, i); }
  }

  /** A file header. */
  lemma {:induction false} FileMeans(p: seq<string>, s: Parser, x: string)
    requires StateOf(p, s) && FILE <= x
    ensures Step(s, x).Some? && !FatalLast(p, x) && StateOf(p + [x], Step(s, x).value)
    ensures Step(s, x).value.changed == s.changed
  {
    Exclusive(x);
    WaitsNext(p, x);
    var ls, m := p + [x], |p| + 1;
    assert |ls| == m;
    forall t ensures !InForce(ls, m, t) { ForceNext(p, x, t); }
    hide InForce;
    hide Waits;
    hide TARGET;
    hide HUNK;
    hide FILE;
  }

  /** A destination that is awaited. */
  lemma {:induction false} TargetMeans(p: seq<string>, s: Parser, x: string)
    requires StateOf(p, s) && TARGET <= x && s.awaiting
    ensures Step(s, x).None? <==> FatalLast(p, x)
    ensures Step(s, x).Some? ==>
              StateOf(p + [x], Step(s, x).value) &&
              Step(s, x).value.changed == (if Destination(x).None? || Destination(x).value in s.changed then s.changed
                                           else s.changed[Destination(x).value := {}])
  {
    var n := |p|;
    Exclusive(x);
    WaitsNext(p, x);
    var ls, m := p + [x], n + 1;
    assert |ls| == m && ls[n] == x;
    forall t ensures InForce(ls, m, t) <==> t == n && !QuotedTarget(x) {
      ForceNext(p, x, t);
      WaitingUndirected(p, n, t);
    }
    if !QuotedTarget(x) {
      assert InForce(ls, m, n);
      assert Directed(ls, m);
    }
    assert !Waits(ls, m);
    hide InForce;
    hide Waits;
    hide FindRange;
    hide RemovePrefix;
    hide RemoveTab;
    hide HUNK;
    hide FILE;
  }

  /** A line that neither begins a file nor is an awaited destination leaves everything in force. */
  lemma {:induction false} OtherMeans(p: seq<string>, s: Parser, x: string, u: Parser)
    requires StateOf(p, s) && !(FILE <= x) && !(TARGET <= x && s.awaiting)
    requires u.Valid() && u == s.(changed := u.changed)
    ensures StateOf(p + [x], u)
  {
    var n, ls := |p|, p + [x];
    var m := n + 1;
    assert |ls| == m;
    WaitsNext(p, x);
    forall t ensures InForce(ls, m, t) <==> InForce(p, n, t) { ForceNext(p, x, t); }
    forall t | InForce(p, n, t) ensures 0 <= t < n && TARGET <= p[t] && ls[t] == p[t] { ForceBounds(p, n, t); }
    if t :| InForce(p, n, t) { assert InForce(ls, m, t); }
    hide InForce;
    hide Waits;
    hide TARGET;
    hide FILE;
    hide Destination;
  }

  lemma {:induction false} MapKept(p: seq<string>, x: string, changed: Changed)
    requires MapOf(p, changed)
    requires forall name :: Known(p + [x], name) <==> Known(p, name)
    requires forall name, n :: Counted(p + [x], name, n) <==> Counted(p, name, n)
    ensures MapOf(p + [x], changed)
  {
    hide Known;
    hide Counted;
  }

  lemma {:induction false} StepMeans(p: seq<string>, s: Parser, x: string)
    requires StateOf(p, s) && MapOf(p, s.changed)
    ensures Step(s, x).None? <==> FatalLast(p, x)
    ensures Step(s, x).Some? ==> StateOf(p + [x], Step(s, x).value) && MapOf(p + [x], Step(s, x).value.changed)
  {
    Exclusive(x);
    forall name ensures Known(p + [x], name) <==>
        Known(p, name) || (TARGET <= x && Waits(p, |p|) && !QuotedTarget(x) && Destination(x) == Some(name)) {
      KnownNext(p, x, name);
    }
    forall name, n ensures Counted(p + [x], name, n) <==>
        || Counted(p, name, n)
        || (HUNK <= x && InRange(x, n) && exists t :: InForce(p, |p|, t) && Destination(p[t]) == Some(name)) {
      CountedNext(p, x, name, n);
    }
    if FILE <= x {
      FileMeans(p, s, x);
      hide Step;
      MapKept(p, x, s.changed);
    } else if TARGET <= x && s.awaiting {
      TargetMeans(p, s, x);
      hide Step;
      if !QuotedTarget(x) { TargetMap(p, s, x); }
    } else if !(HUNK <= x) {
      OtherMeans(p, s, x, s);
      assert Step(s, x) == Some(s) && !FatalLast(p, x);
      hide Step;
      MapKept(p, x, s.changed);
    } else {
      HunkMeans(p, s, x);
    }
  }

  lemma {:induction false} CountedKnown(p: seq<string>, name: string, n: int)
    ensures Counted(p, name, n) ==> Known(p, name)
  {
    if i, t :| CountsAt(p, i, t, name, n) { assert MakesKnown(p, t, name); }
  }

  lemma {:induction false} TargetMap(p: seq<string>, s: Parser, x: string)
    requires MapOf(p, s.changed) && TARGET <= x && Waits(p, |p|) && !QuotedTarget(x)
    requires forall name :: Known(p + [x], name) <==> Known(p, name) || Destination(x) == Some(name)
    requires forall name, n :: Counted(p + [x], name, n) <==> Counted(p, name, n)
    ensures var d := Destination(x);
            MapOf(p + [x], if d.None? || d.value in s.changed then s.changed else s.changed[d.value := {}])
  {
    hide Destination;
    var d := Destination(x);
    if d.Some? && d.value !in s.changed {
      forall n ensures !Counted(p, d.value, n) { CountedKnown(p, d.value, n); }
    }
    hide Known;
    hide Counted;
  }

  /** A hunk header. */
  lemma {:induction false} HunkMeans(p: seq<string>, s: Parser, x: string)
    requires StateOf(p, s) && MapOf(p, s.changed) && HUNK <= x && !(FILE <= x) && !(TARGET <= x)
    requires forall name :: Known(p + [x], name) <==> Known(p, name)
    requires forall name, n :: Counted(p + [x], name, n) <==>
               || Counted(p, name, n)
               || (InRange(x, n) && exists t :: InForce(p, |p|, t) && Destination(p[t]) == Some(name))
    ensures Step(s, x).None? <==> FatalLast(p, x)
    ensures Step(s, x).Some? ==> StateOf(p + [x], Step(s, x).value) && MapOf(p + [x], Step(s, x).value.changed)
  {
    hide FILE;
    hide TARGET;
    hide HUNK;
    hide FindRange;
    hide Known;
    hide Counted;
    hide Waits;
    hide InForce;
    hide Destination;
    if s.seen {
      var t :| InForce(p, |p|, t);
      ForceBounds(p, |p|, t);
      assert s.current == Destination(p[t]);
      if s.current.None? {
        OtherMeans(p, s, x, s);
        hide StateOf;
        assert MapOf(p + [x], s.changed);
      } else if FindRange(x).Some? {
        var name, added := s.current.value, Span(FindRange(x).value.0, FindRange(x).value.1);
        var u := Add(s, added);
        OtherMeans(p, s, x, u);
        forall n ensures InRange(x, n) <==> n in added {}
        forall other, n ensures Counted(p + [x], other, n) <==> Counted(p, other, n) || (n in added && other == name) {}
        hide StateOf;
        hide Span;
        hide InRange;
        assert MapOf(p + [x], u.changed);
      }
    }
  }

  // ---- Any text ----

  lemma {:induction false} NothingMeant()
    ensures StateOf([], INITIAL) && MapOf([], INITIAL.changed) && !GivesUp([])
  {}

  /**
   * For every list of lines whatever: the parse gives up exactly where a line is fatal, and otherwise knows exactly the
   * destinations and counts for each exactly the ranges of the hunk headers at which it is in force.
   */
  lemma {:induction false} TextExact(lines: seq<string>)
    ensures var r := Parse(INITIAL, lines);
            && (r.None? <==> GivesUp(lines))
            && (r.Some? ==> StateOf(lines, r.value) && MapOf(lines, r.value.changed))
    decreases |lines|
  {
    if lines == [] {
      NothingMeant();
    } else {
      var n := |lines| - 1;
      var p, x := lines[..n], lines[n];
      assert lines == p + [x];
      TextExact(p);
      FatalNext(p, x);
      ParseConcat(INITIAL, p, [x]);
      if Parse(INITIAL, p).Some? {
        var s := ParsedTo(INITIAL, p);
        StepMeans(p, s, x);
        ParseHead(s, x, []);
        assert [x] + [] == [x];
      }
      hide GivesUp;
      hide StateOf;
      hide MapOf;
      hide Step;
    }
  }

  /** So on every diff, whatever its texts hold, the parser is right exactly when that is what the diff says. */
  lemma {:induction false} RightOnAny(diff: seq<FileDiff>, ends: seq<bool>)
    requires |ends| == |DiffLines(diff)|
    ensures var lines := AllPieces(DiffLines(diff), ends);
            Right(Parsed(diff, ends), diff) <==>
            && (GivesUp(lines) <==> SomeQuoted(diff))
            && (!GivesUp(lines) ==> forall name :: Known(lines, name) <==> Names(diff, name))
            && (!GivesUp(lines) ==>
                forall name, n :: Known(lines, name) ==> (Counted(lines, name, n) <==> Adds(diff, name, n)))
  {
    SplitRendered(DiffLines(diff), ends);
    TextExact(AllPieces(DiffLines(diff), ends));
    hide SplitLines;
    hide Render;
    hide AllPieces;
    hide DiffLines;
    hide Parse;
    hide GivesUp;
    hide StateOf;
    hide Known;
    hide Counted;
    hide Names;
    hide Adds;
    hide SomeQuoted;
  }
}
