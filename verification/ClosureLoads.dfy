/**
 * What a load name means: the file that a name in a load command or a run path stands for, stated without following the
 * code, and that the code finds exactly that file.
 */
module ClosureLoads {
  import opened Bytes
  import opened Closure

  // ---- One path ----

  predicate NoSlash(tail: string) {
    tail == "" || tail[0] != '/'
  }

  /** Some slashes, then `tail`. */
  predicate Slashed(rest: string, tail: string) {
    && |tail| <= |rest| && rest[|rest| - |tail|..] == tail && NoSlash(tail)
    && forall i :: 0 <= i < |rest| - |tail| ==> rest[i] == '/'
  }

  /** The value is the token alone, or the token, one slash or more, and `tail`. */
  predicate Tailed(value: string, token: string, tail: string) {
    && token <= value && Slashed(value[|token|..], tail) && (tail != "" ==> |value| > |token| + |tail|)
  }

  /** `tail` below the directory of `base`, wherever that leads inside the payload. */
  predicate Below(w: World, base: Path, tail: string, p: Path) {
    p == w.resolve(w.join(w.parent(base), tail)) && w.inPayload(p)
  }

  predicate Plain(value: string) {
    !Uses(value, LOADER_TOKEN) && !Uses(value, EXECUTABLE_TOKEN)
  }

  /** A plain value stands for itself: a system path as it is written, any other resolved and inside the payload. */
  predicate Itself(w: World, value: string, p: Path) {
    w.absolute(value) && if w.system(value) then p == value else p == w.resolve(value) && w.inPayload(p)
  }

  /** `value`, met in `loader` while `executable` runs, stands for `p`. */
  ghost predicate StandsFor(w: World, value: string, loader: Path, executable: Option<Path>, p: Path) {
    || (exists tail :: Tailed(value, LOADER_TOKEN, tail) && Below(w, loader, tail, p))
    || (executable.Some? && exists tail ::
          Tailed(value, EXECUTABLE_TOKEN, tail) && Below(w, executable.value, tail, p))
    || (Plain(value) && Itself(w, value, p))
  }

  lemma {:induction false} StripSlashes(rest: string)
    ensures Slashed(rest, LeftStrip(rest))
  {
    if rest != "" && rest[0] == '/' {
      StripSlashes(rest[1..]);
      var tail := LeftStrip(rest);
      assert forall i :: 1 <= i < |rest| ==> rest[1..][i - 1] == rest[i];
      assert rest[|rest| - |tail|..] == rest[1..][|rest| - 1 - |tail|..];
    }
  }

  lemma {:induction false} TailOnly(rest: string, tail: string)
    requires Slashed(rest, tail)
    ensures LeftStrip(rest) == tail
  {
    if |tail| < |rest| {
      assert rest[0] == '/';
      assert forall i :: 0 <= i < |rest| - 1 ==> rest[1..][i] == rest[i + 1];
      assert rest[|rest| - |tail|..] == rest[1..][|rest| - 1 - |tail|..];
      TailOnly(rest[1..], tail);
    }
  }

  /** A value uses a token exactly when it has such a tail, and that is what is left of it. */
  lemma {:induction false} UsesTail(value: string, token: string)
    ensures Uses(value, token) ==> Tailed(value, token, LeftStrip(value[|token|..]))
    ensures forall tail :: Tailed(value, token, tail) ==> Uses(value, token) && tail == LeftStrip(value[|token|..])
  {
    if Uses(value, token) {
      StripSlashes(value[|token|..]);
      if value != token {
        assert value[|token|..][0] == value[|token|] == (token + "/")[|token|];
      }
    }
    forall tail | Tailed(value, token, tail) ensures Uses(value, token) && tail == LeftStrip(value[|token|..]) {
      TailOnly(value[|token|..], tail);
      if |value| > |token| {
        assert value[|token|..][0] == value[|token|];
        assert value[..|token| + 1] == token + "/";
      }
    }
  }

  lemma {:induction false} TokensApart(value: string)
    ensures !(Uses(value, LOADER_TOKEN) && Uses(value, EXECUTABLE_TOKEN))
  {
    if Uses(value, LOADER_TOKEN) { assert value[1] == LOADER_TOKEN[1] == 'l'; }
    if Uses(value, EXECUTABLE_TOKEN) { assert value[1] == EXECUTABLE_TOKEN[1] == 'e'; }
  }

  /** The code finds exactly what the value stands for, and fails when it stands for nothing. */
  lemma {:induction false} ExpandsExactly(w: World, value: string, loader: Path, executable: Option<Path>, p: Path)
    ensures ExpandPath(w, value, loader, executable) == Ok(p) <==> StandsFor(w, value, loader, executable, p)
  {
    UsesTail(value, LOADER_TOKEN);
    UsesTail(value, EXECUTABLE_TOKEN);
    TokensApart(value);
    hide Tailed;
    hide LeftStrip;
  }

  /**
   * A name below the executable's directory stands for the same file whichever image loads it; one below the loader's
   * directory, whatever executable runs; a plain one, always.
   */
  lemma {:induction false} ContextMatters(
    w: World, value: string, loader: Path, loader': Path, executable: Option<Path>, executable': Option<Path>)
    ensures Uses(value, EXECUTABLE_TOKEN) ==>
              ExpandPath(w, value, loader, executable) == ExpandPath(w, value, loader', executable)
    ensures Uses(value, LOADER_TOKEN) ==>
              ExpandPath(w, value, loader, executable) == ExpandPath(w, value, loader, executable')
    ensures Plain(value) ==> ExpandPath(w, value, loader, executable) == ExpandPath(w, value, loader', executable')
    ensures forall tail :: executable.Some? && Tailed(value, EXECUTABLE_TOKEN, tail) ==>
              ExpandPath(w, value, loader, executable) ==
              (var p := w.resolve(w.join(w.parent(executable.value), tail)); if w.inPayload(p) then Ok(p) else Error)
    ensures forall tail :: Tailed(value, LOADER_TOKEN, tail) ==>
              ExpandPath(w, value, loader, executable) ==
              (var p := w.resolve(w.join(w.parent(loader), tail)); if w.inPayload(p) then Ok(p) else Error)
    ensures Uses(value, EXECUTABLE_TOKEN) && executable.None? ==> ExpandPath(w, value, loader, executable) == Error
  {
    UsesTail(value, LOADER_TOKEN);
    UsesTail(value, EXECUTABLE_TOKEN);
    TokensApart(value);
    hide Tailed;
    hide LeftStrip;
    hide Uses;
  }

  // ---- Lists and loads ----

  ghost predicate AllStandFor(
    w: World, values: seq<string>, loader: Path, executable: Option<Path>, paths: seq<Path>) {
    |paths| == |values| && forall i :: 0 <= i < |values| ==> StandsFor(w, values[i], loader, executable, paths[i])
  }

  /** A list expands exactly to what its values stand for, in order; one value that stands for nothing fails it. */
  lemma {:induction false} ExpandAllExactly(
    w: World, values: seq<string>, loader: Path, executable: Option<Path>, paths: seq<Path>)
    ensures ExpandAll(w, values, loader, executable) == Ok(paths) <==>
            AllStandFor(w, values, loader, executable, paths)
  {
    hide StandsFor;
    hide ExpandPath;
    if values != [] {
      if paths != [] {
        ExpandsExactly(w, values[0], loader, executable, paths[0]);
        ExpandAllExactly(w, values[1..], loader, executable, paths[1..]);
        assert paths == [paths[0]] + paths[1..];
        assert forall i :: 1 <= i < |values| ==> values[1..][i - 1] == values[i];
        if |paths| == |values| { assert forall i :: 1 <= i < |values| ==> paths[1..][i - 1] == paths[i]; }
      }
    }
  }

  /** The first candidate that is a system path or exists; if it only exists it must be an inventoried dylib. */
  ghost predicate Chosen(w: World, candidates: seq<Path>, p: Path) {
    exists k :: 0 <= k < |candidates| && candidates[k] == p && FirstAt(w, candidates, k) &&
                (w.system(p) || (p in w.images && w.images[p].kind == Dylib))
  }

  predicate FirstAt(w: World, candidates: seq<Path>, k: nat)
    requires k < |candidates|
  {
    && (w.system(candidates[k]) || w.present(candidates[k]))
    && forall j :: 0 <= j < k ==> !w.system(candidates[j]) && !w.present(candidates[j])
  }

  lemma {:induction false} ChosenExactly(w: World, candidates: seq<Path>, p: Path)
    ensures FirstCandidate(w, candidates) == Ok(p) <==> Chosen(w, candidates, p)
  {
    if candidates != [] {
      var c := candidates[0];
      if w.system(c) || w.present(c) {
        assert FirstAt(w, candidates, 0);
        assert forall k :: 0 < k < |candidates| ==> !FirstAt(w, candidates, k);
      } else {
        ChosenExactly(w, candidates[1..], p);
        forall k | 0 <= k < |candidates| - 1
          ensures FirstAt(w, candidates, k + 1) <==> FirstAt(w, candidates[1..], k) {
          assert forall j :: 0 <= j <= k ==> candidates[1..][j] == candidates[j + 1];
        }
        assert !FirstAt(w, candidates, 0);
        LaterChosen(w, candidates, p);
      }
    }
  }

  lemma {:induction false} LaterChosen(w: World, candidates: seq<Path>, p: Path)
    requires candidates != [] && !FirstAt(w, candidates, 0)
    requires forall k :: 0 <= k < |candidates| - 1 ==>
               (FirstAt(w, candidates, k + 1) <==> FirstAt(w, candidates[1..], k))
    ensures Chosen(w, candidates, p) <==> Chosen(w, candidates[1..], p)
  {
    hide FirstAt;
    if Chosen(w, candidates, p) {
      var k :| 0 <= k < |candidates| && candidates[k] == p && FirstAt(w, candidates, k) &&
               (w.system(p) || (p in w.images && w.images[p].kind == Dylib));
      assert FirstAt(w, candidates[1..], k - 1) && candidates[1..][k - 1] == p;
    }
    if Chosen(w, candidates[1..], p) {
      var k :| 0 <= k < |candidates[1..]| && candidates[1..][k] == p && FirstAt(w, candidates[1..], k) &&
               (w.system(p) || (p in w.images && w.images[p].kind == Dylib));
      assert FirstAt(w, candidates, k + 1);
    }
  }

  /** One candidate for each run path: the rest of the name below it. */
  ghost predicate RunCandidates(
    w: World, rpaths: seq<Path>, suffix: string, loader: Path, executable: Option<Path>, candidates: seq<Path>) {
    |candidates| == |rpaths| &&
    forall i :: 0 <= i < |rpaths| ==> StandsFor(w, w.join(rpaths[i], suffix), loader, executable, candidates[i])
  }

  /** A load of this name, in an image with these run paths, is a load of `p`. */
  ghost predicate LoadStandsFor(
    w: World, name: string, loader: Path, executable: Option<Path>, rpaths: seq<Path>, p: Path) {
    if RPATH <= name then
      var suffix := name[|RPATH|..];
      && suffix != "" && NoSlash(suffix) && !w.climbs(suffix)
      && exists candidates ::
           RunCandidates(w, rpaths, suffix, loader, executable, candidates) && Chosen(w, candidates, p)
    else
      exists c :: StandsFor(w, name, loader, executable, c) && Chosen(w, [c], p)
  }

  /**
   * A load resolves exactly to what its name stands for: for a run path name the first of its candidates that
   * exists, in the order of the run paths, and all of them must stand for something.
   */
  lemma {:induction false} ResolvesExactly(
    w: World, name: string, loader: Path, executable: Option<Path>, rpaths: seq<Path>, p: Path)
    ensures ResolveLoad(w, name, loader, executable, rpaths) == Ok(p) <==>
            LoadStandsFor(w, name, loader, executable, rpaths, p)
  {
    hide StandsFor;
    hide Chosen;
    hide ExpandPath;
    hide ExpandAll;
    hide FirstCandidate;
    if RPATH <= name {
      var suffix := name[|RPATH|..];
      var values := Joined(w, rpaths, suffix);
      forall candidates
        ensures RunCandidates(w, rpaths, suffix, loader, executable, candidates) <==>
                ExpandAll(w, values, loader, executable) == Ok(candidates) {
        ExpandAllExactly(w, values, loader, executable, candidates);
      }
      forall candidates ensures FirstCandidate(w, candidates) == Ok(p) <==> Chosen(w, candidates, p) {
        ChosenExactly(w, candidates, p);
      }
    } else {
      forall c ensures ExpandPath(w, name, loader, executable) == Ok(c) <==> StandsFor(w, name, loader, executable, c) {
        ExpandsExactly(w, name, loader, executable, c);
      }
      forall c ensures FirstCandidate(w, [c]) == Ok(p) <==> Chosen(w, [c], p) { ChosenExactly(w, [c], p); }
    }
  }

  /**
   * A resolved load is a system path, or a dylib that is present and inventoried; and it is what its name stands
   * for.
   */
  lemma {:induction false} ResolvedRight(
    w: World, name: string, loader: Path, executable: Option<Path>, rpaths: seq<Path>)
    requires ResolveLoad(w, name, loader, executable, rpaths).Ok?
    ensures var p := ResolveLoad(w, name, loader, executable, rpaths).value;
            && (!w.system(p) ==> w.present(p) && p in w.images && w.images[p].kind == Dylib)
            && LoadStandsFor(w, name, loader, executable, rpaths, p)
  {
    ResolvesExactly(w, name, loader, executable, rpaths, ResolveLoad(w, name, loader, executable, rpaths).value);
    hide LoadStandsFor;
    hide ResolveLoad;
  }

  /**
   * Every recorded row says where its load leads: by its own name, its loader, its executable, and the run paths in
   * force, which are the loader's own as they stand there, followed by those of the row through which the loader was
   * reached.
   */
  lemma {:induction false} RowStandsFor(w: World, rows: seq<Row>, contexts: seq<seq<Path>>, k: nat)
    returns (own: seq<Path>)
    requires Grounded(w, rows, contexts, k)
    ensures var row, inForce := rows[k], contexts[k];
            && AllStandFor(w, w.images[row.loader].rpaths, row.loader, row.executable, own)
            && LoadStandsFor(w, row.dependency.name, row.loader, row.executable, inForce, row.resolved)
            && (|| inForce == own
                || exists j :: 0 <= j < k && rows[j].resolved == row.loader && inForce == own + contexts[j])
  {
    hide ExpandAll;
    hide ResolveLoad;
    hide LoadStandsFor;
    hide AllStandFor;
    var row := rows[k];
    own := ExpandAll(w, w.images[row.loader].rpaths, row.loader, row.executable).value;
    ExpandAllExactly(w, w.images[row.loader].rpaths, row.loader, row.executable, own);
    ResolvesExactly(w, row.dependency.name, row.loader, row.executable, contexts[k], row.resolved);
  }
}
