/** That an installation gets done: which installers, left alone, can return a destination, and what is then in it. */
module BundleProgress {
  import opened Bytes
  import opened Bundle
  import opened BundleInstall

  /** No exception, no crash, and nobody touches the staged tree. */
  predicate Calm(a: Act) {
    !a.Raise? && !a.Crash? && !a.Restage?
  }

  ghost predicate CalmStep(w: World, s: State, t: State, i: nat) {
    exists a :: Calm(a) && Stepped(w, s, t, i, a)
  }

  /** Installer `i` goes on by itself. */
  ghost predicate Goes(w: World, run: seq<State>, i: nat) {
    run != [] && forall k: nat, l: nat :: l == k + 1 && l < |run| ==> CalmStep(w, run[k], run[l], i)
  }

  lemma {:induction false} Go(w: World, run: seq<State>, i: nat, t: State, a: Act)
    requires Goes(w, run, i) && Calm(a) && Stepped(w, run[|run| - 1], t, i, a)
    ensures Goes(w, run + [t], i) && (run + [t])[0] == run[0] && (run + [t])[|run|] == t
  {
    hide Stepped;
    hide Calm;
    var more := run + [t];
    forall k: nat, l: nat | l == k + 1 && l < |more| ensures CalmStep(w, more[k], more[l], i) {
      if l < |run| {
        assert CalmStep(w, run[k], run[l], i);
      } else {
        assert more[k] == run[|run| - 1] && more[l] == t;
      }
    }
  }

  /** The state with installer `i` at another point, and other entries. */
  function At(s: State, i: nat, pc: Pc, copied: Option<Node>, entries: map<Name, Tree>): State
    requires i < |s.installers|
  {
    s.(entries := entries, installers := s.installers[i := s.installers[i].(pc := pc, copied := copied)])
  }

  /** So much of a leftover temporary is still there. */
  function Left(s: State, i: nat, d: Descriptor, left: Tree): State
    requires i < |s.installers|
  {
    At(s, i, Clearing(d), s.installers[i].copied, s.entries[Temporary(d.content, s.installers[i].pid) := left])
  }

  function Cleared(s: State, i: nat, d: Descriptor): State
    requires i < |s.installers|
  {
    At(s, i, Clearing(d), s.installers[i].copied, s.entries - {Temporary(d.content, s.installers[i].pid)})
  }

  lemma {:induction false} ClearOne(w: World, s: State, i: nat, d: Descriptor, left: Tree, p: Path)
    requires i < |s.installers| && p in left
    ensures Stepped(w, Left(s, i, d, left), Left(s, i, d, left - {p}), i, RemovePart(p))
  {
    hide Accepted;
    hide Verify;
    var temp := Temporary(d.content, s.installers[i].pid);
    assert s.entries[temp := left][temp := left - {p}] == s.entries[temp := left - {p}];
  }

  lemma {:induction false} ClearLast(w: World, s: State, i: nat, d: Descriptor)
    requires i < |s.installers|
    ensures Stepped(w, Left(s, i, d, map[]), Cleared(s, i, d), i, RemoveTemporary)
  {
    hide Accepted;
    hide Verify;
    var temp := Temporary(d.content, s.installers[i].pid);
    assert s.entries[temp := map[]] - {temp} == s.entries - {temp};
  }

  /** A leftover temporary is removed, path by path. */
  lemma {:induction false} Clears(
    w: World, s: State, i: nat, d: Descriptor, left: Tree, start: seq<State>) returns (run: seq<State>)
    requires i < |s.installers| && start != [] && Goes(w, start, i) && start[|start| - 1] == Left(s, i, d, left)
    ensures run != [] && Goes(w, run, i) && run[0] == start[0] && run[|run| - 1] == Cleared(s, i, d)
    decreases |left|
  {
    hide Goes;
    hide Left;
    hide Cleared;
    hide Stepped;
    if left == map[] {
      ClearLast(w, s, i, d);
      Go(w, start, i, Cleared(s, i, d), RemoveTemporary);
      run := start + [Cleared(s, i, d)];
    } else {
      var p :| p in left;
      ClearOne(w, s, i, d, left, p);
      Go(w, start, i, Left(s, i, d, left - {p}), RemovePart(p));
      run := Clears(w, s, i, d, left - {p}, start + [Left(s, i, d, left - {p})]);
    }
  }

  /** The copy has got as far as `done`. */
  function Half(s: State, i: nat, d: Descriptor, done: Tree): State
    requires i < |s.installers|
  {
    At(s, i, Copying(d), DescriptorAt(done), s.entries[Temporary(d.content, s.installers[i].pid) := done])
  }

  lemma {:induction false} CopyOne(w: World, s: State, i: nat, d: Descriptor, done: Tree, p: Path)
    requires i < |s.installers| && p in s.installers[i].staged
    ensures var node := s.installers[i].staged[p];
            Stepped(w, Half(s, i, d, done), Half(s, i, d, done[p := node]), i, CopyPart(p, node))
  {
    hide Accepted;
    hide Verify;
    var temp, more := Temporary(d.content, s.installers[i].pid), done[p := s.installers[i].staged[p]];
    assert s.entries[temp := done][temp := more] == s.entries[temp := more];
  }

  /** The staged tree is copied, path by path. */
  lemma {:induction false} Copies(
    w: World, s: State, i: nat, d: Descriptor, done: Tree, start: seq<State>) returns (run: seq<State>)
    requires i < |s.installers| && done.Keys <= s.installers[i].staged.Keys
    requires forall p :: p in done ==> done[p] == s.installers[i].staged[p]
    requires start != [] && Goes(w, start, i) && start[|start| - 1] == Half(s, i, d, done)
    ensures run != [] && Goes(w, run, i) && run[0] == start[0]
    ensures run[|run| - 1] == Half(s, i, d, s.installers[i].staged)
    decreases s.installers[i].staged.Keys - done.Keys
  {
    hide Goes;
    hide Half;
    hide Stepped;
    var staged := s.installers[i].staged;
    run := start;
    if staged.Keys <= done.Keys {
      assert done.Keys == staged.Keys;
      assert done == staged;
    } else {
      var p :| p in staged.Keys && p !in done.Keys;
      var more := done[p := staged[p]];
      CopyOne(w, s, i, d, done, p);
      Go(w, start, i, Half(s, i, d, more), CopyPart(p, staged[p]));
      assert p in staged.Keys - done.Keys && p !in staged.Keys - more.Keys;
      run := Copies(w, s, i, d, more, start + [Half(s, i, d, more)]);
    }
  }

  /** The state in which an installer has installed its staged tree. */
  function Installed(s: State, i: nat, d: Descriptor): State
    requires i < |s.installers|
  {
    var c := s.installers[i];
    At(s, i, Done(d.content), DescriptorAt(c.staged),
       (s.entries - {Temporary(d.content, c.pid)})[Final(d.content) := c.staged]).(
      origins := s.origins[d.content := Origin(d, DescriptorAt(c.staged))])
  }

  /** Up to the copy: verified, no destination, and the temporary made anew. */
  lemma {:induction false} Begins(w: World, s: State, i: nat) returns (run: seq<State>)
    requires i < |s.installers| && s.installers[i].pc.Start? && Accepted(w, s.installers[i].staged)
    requires Final(Verify(w, s.installers[i].staged).value.content) !in s.entries
    ensures run != [] && Goes(w, run, i) && run[0] == s
    ensures run[|run| - 1] == Half(s, i, Verify(w, s.installers[i].staged).value, map[])
  {
    hide Verify;
    var c, d := s.installers[i], Verify(w, s.installers[i].staged).value;
    var temp := Temporary(d.content, c.pid);
    run := [s];
    assert Goes(w, run, i);
    hide Goes;
    var t := At(s, i, Chosen(d), c.copied, s.entries);
    Go(w, run, i, t, VerifyStaged);
    run := run + [t];
    t := At(s, i, Clearing(d), c.copied, s.entries);
    Go(w, run, i, t, SeeMissing);
    run := run + [t];
    if temp in s.entries {
      assert s.entries[temp := s.entries[temp]] == s.entries;
      run := Clears(w, s, i, d, s.entries[temp], run);
    } else {
      assert s.entries - {temp} == s.entries;
    }
    t := At(s, i, Copying(d), None, s.entries[temp := map[]]);
    assert (s.entries - {temp})[temp := map[]] == s.entries[temp := map[]];
    Go(w, run, i, t, MakeTemporary);
    run := run + [t];
  }

  /** An acceptable staged tree without a destination can be installed, as it is. */
  lemma {:induction false} Installs(w: World, s: State, i: nat) returns (run: seq<State>)
    requires i < |s.installers| && s.installers[i].pc.Start? && Accepted(w, s.installers[i].staged)
    requires Final(Verify(w, s.installers[i].staged).value.content) !in s.entries
    ensures run != [] && Goes(w, run, i) && run[0] == s
    ensures run[|run| - 1] == Installed(s, i, Verify(w, s.installers[i].staged).value)
  {
    hide Verify;
    hide Goes;
    var c, d := s.installers[i], Verify(w, s.installers[i].staged).value;
    var temp, done := Temporary(d.content, c.pid), DescriptorAt(c.staged);
    run := Begins(w, s, i);
    run := Copies(w, s, i, d, map[], run);
    var entries := s.entries[temp := c.staged];
    var t := At(s, i, Copied(d), done, entries);
    Go(w, run, i, t, CopyDone);
    run := run + [t];
    t := At(s, i, Checked(d), done, entries);
    Go(w, run, i, t, VerifyTemporary);
    run := run + [t];
    t := Installed(s, i, d);
    assert entries - {temp} == s.entries - {temp};
    Go(w, run, i, t, Rename);
    run := run + [t];
  }

  /** An acceptable destination is returned, and left as it is. */
  lemma {:induction false} Finds(w: World, s: State, i: nat) returns (run: seq<State>)
    requires i < |s.installers| && s.installers[i].pc.Start? && Accepted(w, s.installers[i].staged)
    requires var id := Verify(w, s.installers[i].staged).value.content;
             Final(id) in s.entries && Accepted(w, s.entries[Final(id)])
    ensures run != [] && Goes(w, run, i) && run[0] == s
    ensures var c, id := s.installers[i], Verify(w, s.installers[i].staged).value.content;
            run[|run| - 1] == At(s, i, Done(id), c.copied, s.entries)
  {
    hide Verify;
    var c, d := s.installers[i], Verify(w, s.installers[i].staged).value;
    run := [s];
    assert Goes(w, run, i);
    hide Goes;
    var t := At(s, i, Chosen(d), c.copied, s.entries);
    Go(w, run, i, t, VerifyStaged);
    run := run + [t];
    t := At(s, i, Existing(d), c.copied, s.entries);
    Go(w, run, i, t, SeeExisting);
    run := run + [t];
    t := At(s, i, Done(d.content), c.copied, s.entries);
    Go(w, run, i, t, VerifyDestination);
    run := run + [t];
  }

  // ---- And no others can ----

  /** Whatever it does by itself, an installer works for the identity of its staged tree, which stays as it is. */
  ghost predicate WorksFor(w: World, staged: Tree, c: Installer) {
    && c.staged == staged
    && (c.Busy() ==> Accepted(w, staged) && c.pc.d.content == Verify(w, staged).value.content)
    && (c.pc.Done? ==> Accepted(w, staged) && c.pc.id == Verify(w, staged).value.content)
  }

  lemma {:induction false} StepWorks(w: World, s: State, t: State, i: nat, staged: Tree)
    requires CalmStep(w, s, t, i) && i < |s.installers| && WorksFor(w, staged, s.installers[i])
    ensures i < |t.installers| && WorksFor(w, staged, t.installers[i])
  {
    hide Accepted;
    hide Verify;
  }

  /** From a state of a run, an installer that goes on by itself keeps the run's invariant and every entry. */
  lemma {:induction false} GoesOn(w: World, begin: map<Name, Tree>, run: seq<State>, i: nat, k: nat)
    requires Goes(w, run, i) && k < |run| && Inv(w, begin, run[0]) && i < |run[0].installers|
    requires run[0].installers[i].pc.Start?
    ensures Inv(w, begin, run[k]) && Permanent(run[0], run[k])
    ensures i < |run[k].installers| && WorksFor(w, run[0].installers[i].staged, run[k].installers[i])
    decreases k
  {
    hide Inv;
    hide CalmStep;
    hide Next;
    if k > 0 {
      GoesOn(w, begin, run, i, k - 1);
      assert CalmStep(w, run[k - 1], run[k], i);
      StepWorks(w, run[k - 1], run[k], i, run[0].installers[i].staged);
      CalmNext(w, run[k - 1], run[k], i);
      StepInv(w, begin, run[k - 1], run[k]);
    }
  }

  lemma {:induction false} CalmNext(w: World, s: State, t: State, i: nat)
    requires CalmStep(w, s, t, i)
    ensures Next(w, s, t)
  {
    hide Stepped;
  }

  /** Installer `i` can go on by itself and return a destination. */
  ghost predicate CanReturn(w: World, s: State, i: nat) {
    exists run :: run != [] && Goes(w, run, i) && run[0] == s && Returns(run[|run| - 1], i)
  }

  predicate Returns(s: State, i: nat) {
    i < |s.installers| && s.installers[i].pc.Done?
  }

  /** Its staged tree is acceptable, and so is the destination if there is one. */
  ghost predicate Installable(w: World, s: State, i: nat)
    requires i < |s.installers|
  {
    var staged := s.installers[i].staged;
    Accepted(w, staged) &&
    var id := Verify(w, staged).value.content;
    Final(id) in s.entries ==> Accepted(w, s.entries[Final(id)])
  }

  lemma {:induction false} ReturnsOnly(w: World, begin: map<Name, Tree>, run: seq<State>, i: nat)
    requires Goes(w, run, i) && Inv(w, begin, run[0]) && i < |run[0].installers| && run[0].installers[i].pc.Start?
    requires Returns(run[|run| - 1], i)
    ensures Installable(w, run[0], i)
  {
    hide Accepted;
    hide Verify;
    assert run != [];
    hide Goes;
    hide EntriesOk;
    hide PidsOk;
    hide OriginsOk;
    var last := run[|run| - 1];
    GoesOn(w, begin, run, i, |run| - 1);
    assert InstallerOk(w, begin, last, last.installers[i]);
  }

  /**
   * In every state of every run, an installer that has just begun can, left alone, return a destination exactly when
   * its staged tree is acceptable and so is the destination if there is one. Without one it installs its staged tree
   * as it is, and the entry opens under its identity; an acceptable one is returned as it is.
   */
  lemma {:induction false} ReturnsExactly(w: World, states: seq<State>, k: nat, i: nat)
    requires IsRun(w, states) && k < |states| && i < |states[k].installers| && states[k].installers[i].pc.Start?
    ensures CanReturn(w, states[k], i) <==> Installable(w, states[k], i)
  {
    hide Goes;
    hide IsRun;
    hide Verify;
    hide Inv;
    hide Installed;
    RunInv(w, states, k, k);
    var s := states[k];
    if Installable(w, s, i) {
      var id := Verify(w, s.installers[i].staged).value.content;
      var run;
      if Final(id) in s.entries { run := Finds(w, s, i); } else { run := Installs(w, s, i); InstalledDone(w, s, i); }
      assert Returns(run[|run| - 1], i);
    }
    if CanReturn(w, s, i) {
      var run :| run != [] && Goes(w, run, i) && run[0] == s && Returns(run[|run| - 1], i);
      ReturnsOnly(w, states[0].entries, run, i);
    }
  }

  /** What is installed is the staged tree; it opens under its identity; the other entries are as they were. */
  lemma {:induction false} InstalledDone(w: World, s: State, i: nat)
    requires i < |s.installers| && Accepted(w, s.installers[i].staged)
    ensures var c, d := s.installers[i], Verify(w, s.installers[i].staged).value;
            var t := Installed(s, i, d);
            && Returns(t, i) && t.installers[i].pc == Done(d.content)
            && Filed(w, t, d.content) && OpenOffline(w, t, d.content) == Some(c.staged)
            && forall n :: n != Final(d.content) && n != Temporary(d.content, c.pid) ==>
                 (n in t.entries <==> n in s.entries) && (n in t.entries ==> t.entries[n] == s.entries[n])
  {
    hide Verify;
  }
}
