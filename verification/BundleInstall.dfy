/**
 * Racing installers of acquisition bundles: each step is one step of one installer, in any interleaving, with an
 * exception or a crash possible before every step. The staged tree belongs to somebody else and may change at any time;
 * the cache is written by installers only, and no two live processes have the same process number.
 */
module BundleInstall {
  import opened Bytes
  import opened Bundle

  /** The entries of the cache directory. */
  datatype Name = Final(id: Digest) | Temporary(id: Digest, pid: nat)

  datatype Pc =
    | Start
    | Chosen(d: Descriptor)    // the staged tree was verified
    | Existing(d: Descriptor)  // the destination exists
    | Clearing(d: Descriptor)  // it does not; a leftover temporary is removed first
    | Copying(d: Descriptor)
    | Copied(d: Descriptor)
    | Checked(d: Descriptor)   // the temporary was verified
    | Lost(d: Descriptor)      // the rename failed
    | Done(id: Digest)
    | Failed
    | Crashed

  /** `copied` is history: what the last copy of a descriptor into the temporary wrote. */
  datatype Installer = Installer(pid: nat, staged: Tree, pc: Pc, copied: Option<Node>) {
    predicate Live() { !pc.Done? && !pc.Failed? && !pc.Crashed? }
    /** Past the verification of its staged tree, not yet finished. */
    predicate Busy() { Live() && !pc.Start? }
    /** It found no destination and has not tried the rename yet. */
    predicate Writing() { pc.Clearing? || pc.Copying? || pc.Copied? || pc.Checked? }
    function Temp(): Name
      requires Busy()
    {
      Temporary(pc.d.content, pid)
    }
  }

  /**
   * Where an entry comes from: the descriptor that was verified in the staged tree, and the one that was copied from
   * it.
   */
  datatype Origin = Origin(verified: Descriptor, copied: Option<Node>)

  /** `origins` is history, written by each rename; no step depends on it. */
  datatype State = State(entries: map<Name, Tree>, installers: seq<Installer>, origins: map<Digest, Origin>)

  datatype Act =
    | VerifyStaged | SeeExisting | SeeMissing | VerifyDestination
    | RemovePart(path: Path) | RemoveTemporary | MakeTemporary
    | CopyPart(path: Path, node: Node) | CopyDone | VerifyTemporary | Rename | RenameFails
    | Raise | Crash | Restage(tree: Tree)

  ghost predicate Accepted(w: World, tree: Tree) {
    Verify(w, tree).Some?
  }

  ghost predicate Enabled(w: World, s: State, i: nat, a: Act)
    requires i < |s.installers|
  {
    var c := s.installers[i];
    match a
    case VerifyStaged => c.pc.Start? && Accepted(w, c.staged)
    case SeeExisting => c.pc.Chosen? && Final(c.pc.d.content) in s.entries
    case SeeMissing => c.pc.Chosen? && Final(c.pc.d.content) !in s.entries
    case VerifyDestination =>
      && (c.pc.Existing? || c.pc.Lost?)
      && Final(c.pc.d.content) in s.entries && Accepted(w, s.entries[Final(c.pc.d.content)])
    case RemovePart(path) => (c.pc.Clearing? || c.pc.Lost?) && c.Temp() in s.entries
    case RemoveTemporary => (c.pc.Clearing? || c.pc.Lost?) && c.Temp() in s.entries && s.entries[c.Temp()] == map[]
    case MakeTemporary => c.pc.Clearing? && c.Temp() !in s.entries
    // A link is followed, to whatever it points at; a file with several names is copied.
    case CopyPart(path, node) =>
      && c.pc.Copying? && c.Temp() in s.entries && path in c.staged
      && (c.staged[path].Link? || c.staged[path].Special? || node == c.staged[path])
    case CopyDone => c.pc.Copying?
    case VerifyTemporary => c.pc.Copied? && c.Temp() in s.entries && Accepted(w, s.entries[c.Temp()])
    // A directory is renamed onto nothing, or onto an empty directory.
    case Rename =>
      && c.pc.Checked? && c.Temp() in s.entries
      && (Final(c.pc.d.content) in s.entries ==> s.entries[Final(c.pc.d.content)] == map[])
    case RenameFails => c.pc.Checked?
    case Raise => c.Live()
    case Crash => c.Live()
    case Restage(_) => true
  }

  function With(s: State, i: nat, c: Installer): State
    requires i < |s.installers|
  {
    s.(installers := s.installers[i := c])
  }

  ghost function Apply(w: World, s: State, i: nat, a: Act): State
    requires i < |s.installers| && Enabled(w, s, i, a)
  {
    var c := s.installers[i];
    match a
    case VerifyStaged => With(s, i, c.(pc := Chosen(Verify(w, c.staged).value)))
    case SeeExisting => With(s, i, c.(pc := Existing(c.pc.d)))
    case SeeMissing => With(s, i, c.(pc := Clearing(c.pc.d)))
    case VerifyDestination => With(s, i, c.(pc := Done(c.pc.d.content)))
    case RemovePart(path) => s.(entries := s.entries[c.Temp() := s.entries[c.Temp()] - {path}])
    case RemoveTemporary => s.(entries := s.entries - {c.Temp()})
    case MakeTemporary =>
      With(s, i, c.(pc := Copying(c.pc.d), copied := None)).(entries := s.entries[c.Temp() := map[]])
    case CopyPart(path, node) =>
      With(s, i, c.(copied := if path == DESCRIPTOR then Some(node) else c.copied)).(
        entries := s.entries[c.Temp() := s.entries[c.Temp()][path := node]])
    case CopyDone => With(s, i, c.(pc := Copied(c.pc.d)))
    case VerifyTemporary => With(s, i, c.(pc := Checked(c.pc.d)))
    case Rename =>
      With(s, i, c.(pc := Done(c.pc.d.content))).(
        entries := (s.entries - {c.Temp()})[Final(c.pc.d.content) := s.entries[c.Temp()]],
        origins := s.origins[c.pc.d.content := Origin(c.pc.d, c.copied)])
    case RenameFails => With(s, i, c.(pc := Lost(c.pc.d)))
    case Raise => With(s, i, c.(pc := Failed))
    case Crash => With(s, i, c.(pc := Crashed))
    case Restage(tree) => With(s, i, c.(staged := tree))
  }

  /** A new process, or a new call in a process whose last call is over. */
  predicate Spawned(s: State, t: State) {
    && |t.installers| == |s.installers| + 1
    && var c := t.installers[|s.installers|];
       && t == s.(installers := s.installers + [c]) && c.pc.Start?
       && forall i :: 0 <= i < |s.installers| && s.installers[i].Live() ==> s.installers[i].pid != c.pid
  }

  ghost predicate Stepped(w: World, s: State, t: State, i: nat, a: Act) {
    i < |s.installers| && Enabled(w, s, i, a) && t == Apply(w, s, i, a)
  }

  ghost predicate Next(w: World, s: State, t: State) {
    Spawned(s, t) || exists i, a :: Stepped(w, s, t, i, a)
  }

  /** A run from any cache, whoever wrote what it holds. */
  ghost predicate IsRun(w: World, run: seq<State>) {
    && run != [] && run[0] == State(run[0].entries, [], map[])
    && forall k :: 0 <= k < |run| - 1 ==> Next(w, run[k], run[k + 1])
  }

  // ---- What every run keeps ----

  /** Against what the cache held at the start: that is still there as it was, and whatever was added is accepted. */
  ghost predicate EntriesOk(w: World, start: map<Name, Tree>, s: State) {
    && (forall id :: Final(id) in start ==> Final(id) in s.entries && s.entries[Final(id)] == start[Final(id)])
    && (forall id :: Final(id) in s.entries && Final(id) !in start ==> Accepted(w, s.entries[Final(id)]))
  }

  ghost predicate PidsOk(s: State) {
    forall i, j :: 0 <= i < j < |s.installers| && s.installers[i].Live() && s.installers[j].Live() ==>
      s.installers[i].pid != s.installers[j].pid
  }

  ghost predicate InstallerOk(w: World, start: map<Name, Tree>, s: State, c: Installer) {
    && (c.Busy() ==> c.pc.d.content == OfUnsigned(c.pc.d.body))
    && (c.Writing() ==> Final(c.pc.d.content) !in start)
    && (c.pc.Checked? ==> c.Temp() in s.entries && Accepted(w, s.entries[c.Temp()]))
    && (c.pc.Done? ==> Final(c.pc.id) in s.entries && Accepted(w, s.entries[Final(c.pc.id)]))
    && (c.Writing() && !c.pc.Clearing? && c.Temp() in s.entries ==> c.copied == DescriptorAt(s.entries[c.Temp()]))
  }

  function DescriptorAt(tree: Tree): Option<Node> {
    if DESCRIPTOR in tree then Some(tree[DESCRIPTOR]) else None
  }

  /**
   * Every entry that was added has an origin, whose copied descriptor it holds and under whose verified identity it
   * stands.
   */
  ghost predicate OriginsOk(start: map<Name, Tree>, s: State) {
    forall id :: Final(id) in s.entries && Final(id) !in start ==>
      id in s.origins && OriginOk(s.origins[id], id, s.entries[Final(id)])
  }

  predicate OriginOk(o: Origin, id: Digest, tree: Tree) {
    o.verified.content == id == OfUnsigned(o.verified.body) && o.copied == DescriptorAt(tree)
  }

  ghost predicate Inv(w: World, start: map<Name, Tree>, s: State) {
    && EntriesOk(w, start, s) && PidsOk(s) && OriginsOk(start, s)
    && forall i :: 0 <= i < |s.installers| ==> InstallerOk(w, start, s, s.installers[i])
  }

  /** An entry that is there stays, as it is. */
  ghost predicate Permanent(s: State, t: State) {
    forall id :: Final(id) in s.entries ==> Final(id) in t.entries && t.entries[Final(id)] == s.entries[Final(id)]
  }

  lemma {:induction false} AcceptedNotEmpty(w: World, tree: Tree)
    requires Accepted(w, tree)
    ensures tree != map[] && Verify(w, tree).value.content == OfUnsigned(Verify(w, tree).value.body)
    ensures DESCRIPTOR in tree && tree[DESCRIPTOR] == File(FILE_MODE, DescriptorText(Verify(w, tree).value))
  {
    hide SizeRight;
    hide Inventory;
    hide WheelhouseRight;
    hide ArtifactRight;
    assert PrivateFile(tree, DESCRIPTOR);
  }

  /** A step leaves alone every published entry and every temporary of another process. */
  lemma {:induction false} StepFrame(w: World, start: map<Name, Tree>, s: State, t: State, i: nat, a: Act)
    requires Stepped(w, s, t, i, a) && EntriesOk(w, start, s) && InstallerOk(w, start, s, s.installers[i])
    ensures Permanent(s, t)
    ensures forall id, pid :: pid != s.installers[i].pid && Temporary(id, pid) in s.entries ==>
              Temporary(id, pid) in t.entries && t.entries[Temporary(id, pid)] == s.entries[Temporary(id, pid)]
  {
    hide Accepted;
    hide Verify;
    var c := s.installers[i];
    if a.Rename? && Final(c.pc.d.content) in s.entries {
      AcceptedNotEmpty(w, s.entries[Final(c.pc.d.content)]);
      assert false;
    }
  }

  lemma {:induction false} StepEntries(w: World, start: map<Name, Tree>, s: State, t: State, i: nat, a: Act)
    requires Inv(w, start, s) && Stepped(w, s, t, i, a)
    ensures EntriesOk(w, start, t)
  {
    hide Accepted;
    hide Verify;
    assert InstallerOk(w, start, s, s.installers[i]);
  }

  lemma {:induction false} StepOrigins(w: World, start: map<Name, Tree>, s: State, t: State, i: nat, a: Act)
    requires Inv(w, start, s) && Stepped(w, s, t, i, a)
    ensures OriginsOk(start, t)
  {
    hide Accepted;
    hide Verify;
    hide EntriesOk;
    hide PidsOk;
    assert InstallerOk(w, start, s, s.installers[i]);
  }

  lemma {:induction false} StepOthers(w: World, start: map<Name, Tree>, s: State, t: State, i: nat, a: Act, j: nat)
    requires Inv(w, start, s) && Stepped(w, s, t, i, a) && j < |s.installers| && j != i
    ensures t.installers[j] == s.installers[j] && InstallerOk(w, start, t, t.installers[j])
  {
    hide Accepted;
    hide Verify;
    assert InstallerOk(w, start, s, s.installers[i]);
    StepFrame(w, start, s, t, i, a);
    assert InstallerOk(w, start, s, s.installers[j]);
    hide EntriesOk;
    if s.installers[i].Live() {
      assert s.installers[j].Live() ==> s.installers[i].pid != s.installers[j].pid;
    }
  }

  lemma {:induction false} StepSelf(w: World, start: map<Name, Tree>, s: State, t: State, i: nat, a: Act)
    requires Inv(w, start, s) && Stepped(w, s, t, i, a)
    ensures InstallerOk(w, start, t, t.installers[i])
  {
    hide Accepted;
    hide Verify;
    var c := s.installers[i];
    assert InstallerOk(w, start, s, c);
    assert a.SeeMissing? ==> Final(c.pc.d.content) !in start;
    hide EntriesOk;
    hide PidsOk;
    if a.VerifyStaged? {
      AcceptedNotEmpty(w, c.staged);
    }
  }

  lemma {:induction false} StepInv(w: World, start: map<Name, Tree>, s: State, t: State)
    requires Inv(w, start, s) && Next(w, s, t)
    ensures Inv(w, start, t) && Permanent(s, t)
  {
    hide Accepted;
    hide Enabled;
    hide EntriesOk;
    if Spawned(s, t) {
      SpawnInv(w, start, s, t);
    } else {
      var i: nat, a :| Stepped(w, s, t, i, a);
      assert InstallerOk(w, start, s, s.installers[i]);
      StepFrame(w, start, s, t, i, a);
      StepEntries(w, start, s, t, i, a);
      StepPids(w, s, t, i, a);
      StepOrigins(w, start, s, t, i, a);
      forall j | 0 <= j < |t.installers| ensures InstallerOk(w, start, t, t.installers[j]) {
        if j == i { StepSelf(w, start, s, t, i, a); } else { StepOthers(w, start, s, t, i, a, j); }
      }
    }
  }

  lemma {:induction false} StepPids(w: World, s: State, t: State, i: nat, a: Act)
    requires PidsOk(s) && Stepped(w, s, t, i, a)
    ensures PidsOk(t) && |t.installers| == |s.installers|
  {
    hide Accepted;
    hide Verify;
  }

  lemma {:induction false} SpawnInv(w: World, start: map<Name, Tree>, s: State, t: State)
    requires Inv(w, start, s) && Spawned(s, t)
    ensures Inv(w, start, t) && Permanent(s, t)
  {
    hide Accepted;
  }

  lemma {:induction false} InitialInv(w: World, start: map<Name, Tree>)
    ensures Inv(w, start, State(start, [], map[]))
  {}

  /** The invariant, against what the cache held at the start. */
  lemma {:induction false} RunInv(w: World, run: seq<State>, k: nat, l: nat)
    requires IsRun(w, run) && k <= l < |run|
    ensures Inv(w, run[0].entries, run[l]) && Permanent(run[k], run[l])
    decreases l
  {
    hide Inv;
    hide Next;
    if l == 0 {
      InitialInv(w, run[0].entries);
    } else {
      RunInv(w, run, if k == l then k - 1 else k, l - 1);
      assert Next(w, run[l - 1], run[l]);
      StepInv(w, run[0].entries, run[l - 1], run[l]);
    }
  }

  /**
   * Over every run, whatever the cache held at its start: no entry is ever replaced, changed or removed, every entry
   * that was added is accepted, and an installer that returned a destination returned an accepted entry that is there.
   */
  lemma {:induction false} RunSafety(w: World, run: seq<State>, k: nat, l: nat)
    requires IsRun(w, run) && k <= l < |run|
    ensures Permanent(run[k], run[l])
    ensures forall id :: Final(id) in run[l].entries && Final(id) !in run[0].entries ==>
            Accepted(w, run[l].entries[Final(id)])
    ensures forall i :: 0 <= i < |run[l].installers| && run[l].installers[i].pc.Done? ==>
              Returned(w, run[l], run[l].installers[i].pc.id)
  {
    hide Accepted;
    hide IsRun;
    RunInv(w, run, k, l);
    forall i | 0 <= i < |run[l].installers| && run[l].installers[i].pc.Done?
      ensures Returned(w, run[l], run[l].installers[i].pc.id)
    {
      assert InstallerOk(w, run[0].entries, run[l], run[l].installers[i]);
    }
  }

  ghost predicate Returned(w: World, s: State, id: Digest) {
    Final(id) in s.entries && Accepted(w, s.entries[Final(id)])
  }

  /** So nobody ever returns a destination that holds something unacceptable, and it stays there as it is. */
  lemma {:induction false} UnacceptableStays(w: World, run: seq<State>, l: nat, id: Digest)
    requires IsRun(w, run) && l < |run|
    requires Final(id) in run[0].entries && !Accepted(w, run[0].entries[Final(id)])
    ensures Final(id) in run[l].entries && run[l].entries[Final(id)] == run[0].entries[Final(id)]
    ensures forall i :: 0 <= i < |run[l].installers| ==> run[l].installers[i].pc != Done(id)
  {
    hide Accepted;
    hide IsRun;
    RunSafety(w, run, 0, l);
  }

  // ---- Whose identity an entry is filed under ----

  /** The identity in the entry's own descriptor is its name. */
  ghost predicate Filed(w: World, s: State, id: Digest) {
    Final(id) in s.entries && Accepted(w, s.entries[Final(id)]) && Verify(w, s.entries[Final(id)]).value.content == id
  }

  /** `open_offline_bundle`: the entry returned, or None where it raises. */
  ghost function OpenOffline(w: World, s: State, id: Digest): Option<Tree> {
    if Final(id) !in s.entries then None
    else
      var d := Verify(w, s.entries[Final(id)]);
      if d.None? || d.value.content != id then None else Some(s.entries[Final(id)])
  }

  /** The descriptor that was copied has the body of the one that was verified. */
  predicate SameBody(o: Origin) {
    o.copied.Some? && o.copied.value.File? && o.copied.value.content.DescriptorText?
    && o.copied.value.content.d.body == o.verified.body
  }

  /**
   * The rename does not compare the identity verified in the temporary with the one verified in the staged tree. Over
   * every run: an entry that was added is filed under its own identity exactly when the descriptor that the last copy
   * put into its temporary has the body of the one that was verified in the staged tree before.
   */
  lemma {:induction false} RunFilesExactly(w: World, run: seq<State>, l: nat, id: Digest)
    requires IsRun(w, run) && l < |run| && Final(id) in run[l].entries && Final(id) !in run[0].entries
    ensures id in run[l].origins && run[l].origins[id].verified.content == id
    ensures Filed(w, run[l], id) <==> SameBody(run[l].origins[id])
  {
    hide Verify;
    hide IsRun;
    RunInv(w, run, l, l);
    AcceptedNotEmpty(w, run[l].entries[Final(id)]);
  }

  /** What is opened is verified and is what was asked for, in this and in every later state. */
  lemma {:induction false} OpenStays(w: World, run: seq<State>, k: nat, l: nat, id: Digest)
    requires IsRun(w, run) && k <= l < |run| && Final(id) in run[k].entries
    ensures OpenOffline(w, run[l], id) == OpenOffline(w, run[k], id)
    ensures OpenOffline(w, run[k], id).Some? <==> Filed(w, run[k], id)
  {
    hide Verify;
    hide IsRun;
    RunSafety(w, run, k, l);
  }

  /** An installer that found the destination, or lost the race for it. */
  predicate ReturnsEntry(c: Installer, id: Digest) {
    (c.pc.Existing? || c.pc.Lost?) && c.pc.d.content == id
  }

  /** A misfiled entry can never be opened, while an installer that finds it can return it, if it is accepted at all. */
  lemma {:induction false} MisfiledForever(w: World, run: seq<State>, k: nat, l: nat, id: Digest)
    requires IsRun(w, run) && k <= l < |run| && Final(id) in run[k].entries && !Filed(w, run[k], id)
    ensures OpenOffline(w, run[l], id).None?
    ensures forall i: nat :: i < |run[l].installers| && ReturnsEntry(run[l].installers[i], id) ==>
              (Enabled(w, run[l], i, VerifyDestination) <==> Accepted(w, run[k].entries[Final(id)]))
    ensures Final(id) !in run[0].entries ==> Accepted(w, run[k].entries[Final(id)])
  {
    hide Verify;
    hide IsRun;
    OpenStays(w, run, k, l, id);
    RunSafety(w, run, k, k);
    RunSafety(w, run, k, l);
  }

  // ---- When nobody swaps a descriptor, every entry is filed under its own identity ----

  predicate SameAt(a: Tree, b: Tree, p: Path) {
    (p in a <==> p in b) && (p in a ==> a[p] == b[p])
  }

  /** No installer's staged descriptor changes once it was verified. */
  predicate Steady(s: State, t: State) {
    |s.installers| <= |t.installers| &&
    forall i :: 0 <= i < |s.installers| && s.installers[i].Busy() ==>
      SameAt(s.installers[i].staged, t.installers[i].staged, DESCRIPTOR)
  }

  function DescriptorNode(d: Descriptor): Node {
    File(FILE_MODE, DescriptorText(d))
  }

  predicate Carries(tree: Tree, d: Descriptor) {
    DESCRIPTOR in tree ==> tree[DESCRIPTOR] == DescriptorNode(d)
  }

  /** Both the staged tree and the copy carry the descriptor that was verified. */
  predicate Faithful(s: State, c: Installer) {
    c.Busy() ==>
      && DESCRIPTOR in c.staged && Carries(c.staged, c.pc.d)
      && ((c.pc.Copying? || c.pc.Copied? || c.pc.Checked?) && c.Temp() in s.entries ==>
          Carries(s.entries[c.Temp()], c.pc.d))
  }

  ghost predicate AllFaithful(s: State) {
    forall i :: 0 <= i < |s.installers| ==> Faithful(s, s.installers[i])
  }

  /** Whatever was added. */
  ghost predicate AllFiled(w: World, start: map<Name, Tree>, s: State) {
    forall id :: Final(id) in s.entries && Final(id) !in start ==> Filed(w, s, id)
  }

  lemma {:induction false} StepFaithful(w: World, start: map<Name, Tree>, s: State, t: State, i: nat, a: Act, j: nat)
    requires Inv(w, start, s) && Stepped(w, s, t, i, a) && j < |s.installers| && Steady(s, t)
    requires Faithful(s, s.installers[j])
    ensures Faithful(t, t.installers[j])
  {
    hide Accepted;
    hide Verify;
    hide EntriesOk;
    if j == i {
      if a.VerifyStaged? { AcceptedNotEmpty(w, s.installers[i].staged); }
    } else {
      assert InstallerOk(w, start, s, s.installers[i]);
      if s.installers[i].Live() {
        assert s.installers[j].Live() ==> s.installers[i].pid != s.installers[j].pid;
      }
    }
  }

  lemma {:induction false} StepFiled(w: World, start: map<Name, Tree>, s: State, t: State, i: nat, a: Act)
    requires Inv(w, start, s) && Stepped(w, s, t, i, a) && AllFiled(w, start, s) && Faithful(s, s.installers[i])
    ensures AllFiled(w, start, t)
  {
    hide Accepted;
    hide Verify;
    var c := s.installers[i];
    assert InstallerOk(w, start, s, c);
    StepFrame(w, start, s, t, i, a);
    if a.Rename? {
      assert InstallerOk(w, start, s, c);
      AcceptedNotEmpty(w, s.entries[c.Temp()]);
    }
    hide Inv;
  }

  lemma {:induction false} SteadyRunFiles(w: World, run: seq<State>, l: nat)
    requires IsRun(w, run) && l < |run|
    requires forall k :: 0 <= k < |run| - 1 ==> Steady(run[k], run[k + 1])
    ensures AllFiled(w, run[0].entries, run[l]) && AllFaithful(run[l])
  {
    hide Inv;
    hide Filed;
    hide Faithful;
    hide Steady;
    if l > 0 {
      var s, t := run[l - 1], run[l];
      SteadyRunFiles(w, run, l - 1);
      RunInv(w, run, l - 1, l - 1);
      assert Next(w, s, t) && Steady(s, t);
      SteadyStep(w, run[0].entries, s, t);
    }
  }

  lemma {:induction false} SteadyStep(w: World, start: map<Name, Tree>, s: State, t: State)
    requires Inv(w, start, s) && Next(w, s, t) && Steady(s, t) && AllFiled(w, start, s) && AllFaithful(s)
    ensures AllFiled(w, start, t) && AllFaithful(t)
  {
    hide Inv;
    hide Enabled;
    hide Steady;
    hide Verify;
    if Spawned(s, t) {
      forall i | 0 <= i < |t.installers| ensures Faithful(t, t.installers[i]) {
        assert i < |s.installers| ==> Faithful(s, s.installers[i]);
      }
    } else {
      var i: nat, a :| Stepped(w, s, t, i, a);
      StepLength(w, s, t, i, a);
      assert Faithful(s, s.installers[i]);
      StepFiled(w, start, s, t, i, a);
      forall j | 0 <= j < |t.installers| ensures Faithful(t, t.installers[j]) {
        assert Faithful(s, s.installers[j]);
        StepFaithful(w, start, s, t, i, a, j);
      }
    }
  }

  lemma {:induction false} StepLength(w: World, s: State, t: State, i: nat, a: Act)
    requires Stepped(w, s, t, i, a)
    ensures |t.installers| == |s.installers|
  {
    hide Accepted;
    hide Verify;
  }

  // ---- A run that misfiles ----

  lemma {:induction false} Extend(w: World, run: seq<State>, t: State, a: Act)
    requires IsRun(w, run) && Stepped(w, run[|run| - 1], t, 0, a)
    ensures IsRun(w, run + [t])
  {
    hide Stepped;
    var longer := run + [t];
    forall k | 0 <= k < |longer| - 1 ensures Next(w, longer[k], longer[k + 1]) {
      if k < |run| - 1 {
        assert Next(w, run[k], run[k + 1]) && longer[k + 1] == run[k + 1];
      } else {
        assert Stepped(w, longer[k], longer[k + 1], 0, a);
      }
    }
  }

  function Lone(
    entries: map<Name, Tree>, staged: Tree, pc: Pc, copied: Option<Node>, origins: map<Digest, Origin>): State {
    State(entries, [Installer(0, staged, pc, copied)], origins)
  }

  /** Up to the copy: the staged tree was verified as `a`, and is `b` now. */
  lemma {:induction false} UpToCopy(w: World, a: Tree, b: Tree) returns (run: seq<State>)
    requires Accepted(w, a)
    ensures var d := Verify(w, a).value;
            IsRun(w, run) && run[|run| - 1] == Lone(map[Temporary(d.content, 0) := map[]], b, Copying(d), None, map[])
  {
    hide Verify;
    var d := Verify(w, a).value;
    var s0, s1, s2 := State(map[], [], map[]), Lone(map[], a, Start, None, map[]),
    Lone(map[], a, Chosen(d), None, map[]);
    var s3 := Lone(map[], a, Clearing(d), None, map[]);
    var s4 := Lone(map[Temporary(d.content, 0) := map[]], a, Copying(d), None, map[]);
    assert Spawned(s0, s1);
    run := [s0, s1];
    Extend(w, run, s2, VerifyStaged);
    run := run + [s2];
    Extend(w, run, s3, SeeMissing);
    run := run + [s3];
    Extend(w, run, s4, MakeTemporary);
    run := run + [s4];
    var s5 := Lone(s4.entries, b, Copying(d), None, map[]);
    Extend(w, run, s5, Restage(b));
    run := run + [s5];
  }

  function MidCopy(d: Descriptor, b: Tree, done: Tree): State {
    Lone(map[Temporary(d.content, 0) := done], b, Copying(d), DescriptorAt(done), map[])
  }

  lemma {:induction false} CopyStep(w: World, d: Descriptor, b: Tree, done: Tree, p: Path)
    requires p in b
    ensures Stepped(w, MidCopy(d, b, done), MidCopy(d, b, done[p := b[p]]), 0, CopyPart(p, b[p]))
  {
    hide Accepted;
    hide Verify;
    assert map[Temporary(d.content, 0) := done][Temporary(d.content, 0) := done[p := b[p]]]
        == map[Temporary(d.content, 0) := done[p := b[p]]];
  }

  /** The copy of an unchanging tree, path by path. */
  lemma {:induction false} CopyAll(
    w: World, d: Descriptor, b: Tree, done: Tree, start: seq<State>) returns (run: seq<State>)
    requires done.Keys <= b.Keys && forall p :: p in done ==> done[p] == b[p]
    requires IsRun(w, start) && start[|start| - 1] == MidCopy(d, b, done)
    ensures IsRun(w, run) && run[|run| - 1] == MidCopy(d, b, b)
    decreases b.Keys - done.Keys
  {
    hide Stepped;
    hide Next;
    hide MidCopy;
    run := start;
    if b.Keys <= done.Keys {
      assert done.Keys == b.Keys;
      assert done == b;
    } else {
      var p :| p in b.Keys && p !in done.Keys;
      var more := done[p := b[p]];
      CopyStep(w, d, b, done, p);
      Extend(w, run, MidCopy(d, b, more), CopyPart(p, b[p]));
      assert p in b.Keys - done.Keys && p !in b.Keys - more.Keys;
      run := CopyAll(w, d, b, more, run + [MidCopy(d, b, more)]);
    }
  }

  /**
   * Whenever the staged tree is swapped for another acceptable bundle between its verification and its copy, the other
   * bundle can be published under the first one's identity.
   */
  lemma {:induction false} SwapMisfiles(w: World, a: Tree, b: Tree) returns (run: seq<State>)
    requires Accepted(w, a) && Accepted(w, b) && Verify(w, a).value.content != Verify(w, b).value.content
    ensures var id, copied := Verify(w, a).value.content, DescriptorAt(b);
            && IsRun(w, run)
            && run[|run| - 1]
               == Lone(map[Final(id) := b], b, Done(id), copied, map[id := Origin(Verify(w, a).value, copied)])
            && !Filed(w, run[|run| - 1], id) && OpenOffline(w, run[|run| - 1], id).None?
  {
    hide Verify;
    hide IsRun;
    var d := Verify(w, a).value;
    var temp := Temporary(d.content, 0);
    run := UpToCopy(w, a, b);
    run := CopyAll(w, d, b, map[], run);
    var t := Lone(map[temp := b], b, Copied(d), DescriptorAt(b), map[]);
    Extend(w, run, t, CopyDone);
    run := run + [t];
    t := Lone(map[temp := b], b, Checked(d), DescriptorAt(b), map[]);
    Extend(w, run, t, VerifyTemporary);
    run := run + [t];
    t := Lone(map[Final(d.content) := b], b, Done(d.content), DescriptorAt(b),
              map[d.content := Origin(d, DescriptorAt(b))]);
    Extend(w, run, t, Rename);
    run := run + [t];
  }

  /** The smallest acceptable bundle for a request text: an empty archive, which is also its lock, and nothing else. */
  function Smallest(text: string): Tree {
    var u := Unsigned(text, ARCHIVE, OfContent(Data([])), OfInventory(map[]), map[], [], ARCHIVE, OfContent(Data([])));
    map[ARCHIVE := File(FILE_MODE, Data([])),
        DESCRIPTOR := DescriptorNode(Descriptor(u, OfUnsigned(u), "")),
        COMPLETE := File(FILE_MODE, Marker(OfUnsigned(u))),
        [SOURCE] := Directory,
        [WHEELHOUSE] := Directory]
  }

  const TRUSTING := World(_ => 0, (_, _, _) => true)

  lemma {:induction false} NothingWeighsNothing(tree: Tree)
    requires forall p :: p in tree ==> NodeSize(TRUSTING, tree[p]) == 0
    ensures TotalSize(TRUSTING, tree) == 0
    decreases |tree|
  {
    if tree != map[] {
      var p :| p in tree;
      TotalWithout(TRUSTING, tree, p);
      NothingWeighsNothing(tree - {p});
    }
  }

  lemma {:induction false} SmallestSize(text: string)
    ensures SizeRight(TRUSTING, Smallest(text))
  {
    NothingWeighsNothing(Smallest(text));
  }

  lemma {:induction false} SmallestInventory(text: string)
    ensures Inventory(TRUSTING, Smallest(text)) == map[]
  {}

  lemma {:induction false} SmallestAccepted(text: string)
    ensures Verify(TRUSTING, Smallest(text)).Some?
    ensures Verify(TRUSTING, Smallest(text)).value.body.request == text
  {
    hide SizeRight;
    hide Inventory;
    SmallestSize(text);
    SmallestInventory(text);
    var tree := Smallest(text);
    assert PrivateFile(tree, DESCRIPTOR) && PrivateFile(tree, COMPLETE) && PrivateFile(tree, ARCHIVE);
    assert WheelhouseRight(tree, Filenames([]));
  }

  /** A concrete pair of bundles that misfile. */
  lemma {:induction false} MisfilingHappens() returns (run: seq<State>)
    ensures IsRun(TRUSTING, run)
    ensures exists id :: Final(id) in run[|run| - 1].entries && !Filed(TRUSTING, run[|run| - 1], id)
  {
    hide Verify;
    hide Smallest;
    SmallestAccepted("a");
    SmallestAccepted("b");
    AcceptedNotEmpty(TRUSTING, Smallest("a"));
    AcceptedNotEmpty(TRUSTING, Smallest("b"));
    run := SwapMisfiles(TRUSTING, Smallest("a"), Smallest("b"));
  }
}
