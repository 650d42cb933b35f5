/**
 * Who closes what: `acquire` and its helpers over a table of open descriptors. Every call but `close` may raise; which
 * ones do is an argument, in the order in which they are made. A descriptor is a token issued once, so closing one
 * twice would break `Close`'s precondition.
 */
module CacheDescriptors {
  import opened Bytes

  class Kernel {
    var open: set<nat>
    var issued: nat

    ghost predicate Valid()
      reads this
    {
      forall fd :: fd in open ==> fd < issued
    }

    /** `os.open`, `os.dup`: a new descriptor, or an exception. */
    method Open(works: bool) returns (fd: Option<nat>)
      requires Valid()
      modifies this
      ensures Valid() && issued >= old(issued) && (fd.Some? <==> works)
      ensures fd.Some? ==> fd.value !in old(open) && old(issued) <= fd.value < issued && open == old(open) + {fd.value}
      ensures fd.None? ==> open == old(open)
    {
      if !works {
        fd := None;
      } else {
        fd := Some(issued);
        open := open + {issued};
        issued := issued + 1;
      }
    }

    method Close(fd: nat)
      requires Valid() && fd in open
      modifies this`open
      ensures Valid() && open == old(open) - {fd}
    {
      open := open - {fd};
    }

    method CloseAll(fds: set<nat>)
      requires Valid() && fds <= open
      modifies this`open
      ensures Valid() && open == old(open) - fds
    {
      var rest := fds;
      while rest != {}
        invariant rest <= fds && rest <= open && Valid() && open == old(open) - (fds - rest)
        decreases rest
      {
        var fd :| fd in rest;
        Close(fd);
        rest := rest - {fd};
      }
    }
  }

  /** All issued from `lo` on and before `hi`. */
  ghost predicate Issued(fds: set<nat>, lo: nat, hi: nat) {
    forall fd :: fd in fds ==> lo <= fd < hi
  }

  // ---- What the calls answer ----

  /** Whether a path component is canonical, and whether it can be made and opened. */
  datatype Part = Part(canonical: bool, opens: bool)
  datatype RootAnswers = RootAnswers(first: bool, parts: seq<Part>, private: bool)

  predicate PartOk(p: Part) {
    p.canonical && p.opens
  }

  predicate RootOk(a: RootAnswers) {
    a.first && (forall i :: 0 <= i < |a.parts| ==> PartOk(a.parts[i])) && a.private
  }

  datatype Step = Step(opens: bool, private: bool)

  /**
   * One archive member. `wrapped` is false when `os.fdopen` raises without taking the descriptor over; an `os.fdopen`
   * that closes it before it raises counts as a failed write.
   */
  datatype Member = Member(admitted: bool, dup: bool, steps: seq<Step>, output: bool, wrapped: bool, written: bool)
  datatype ExtractAnswers = ExtractAnswers(members: seq<Member>, complete: bool)

  predicate StepOk(s: Step) {
    s.opens && s.private
  }

  /** The member's output file is open. */
  predicate OutputOpen(m: Member) {
    m.admitted && m.dup && (forall i :: 0 <= i < |m.steps| ==> StepOk(m.steps[i])) && m.output
  }

  predicate MemberOk(m: Member) {
    OutputOpen(m) && m.wrapped && m.written
  }

  predicate ExtractOk(a: ExtractAnswers) {
    (forall i :: 0 <= i < |a.members| ==> MemberOk(a.members[i])) && a.complete
  }

  /** The first member that fails does so when its open output file is wrapped. */
  ghost predicate Leaks(members: seq<Member>) {
    exists i :: LeaksAt(members, i)
  }

  predicate LeaksAt(members: seq<Member>, i: int) {
    && 0 <= i < |members| && OutputOpen(members[i]) && !members[i].wrapped
    && forall j :: 0 <= j < i ==> MemberOk(members[j])
  }

  /** A directory as the verification walk finds it. */
  datatype Dir = Dir(listed: bool, entries: seq<Node>, synced: bool)
  datatype Node = Folder(opens: bool, inner: Dir) | Ordinary(opens: bool, verified: bool) | Unsigned

  predicate WalkOk(d: Dir) {
    d.listed && (forall i :: 0 <= i < |d.entries| ==> NodeOk(d.entries[i])) && d.synced
  }

  predicate NodeOk(n: Node) {
    match n
    case Folder(opens, inner) => opens && WalkOk(inner)
    case Ordinary(opens, verified) => opens && verified
    case Unsigned => false
  }

  /** `complete`: the two inventories agree, and the lease's own `fstat` calls work. */
  datatype VerifyAnswers = VerifyAnswers(opens: bool, top: Dir, complete: bool)

  predicate VerifyOk(a: VerifyAnswers) {
    a.opens && WalkOk(a.top) && a.complete
  }

  /** What is left of a staging tree; `gone` tells whether removing the entry itself works. */
  datatype Rest = Rest(listed: bool, entries: seq<Item>)
  datatype Item = Sub(opens: bool, inner: Rest, gone: bool) | Leaf(gone: bool)

  predicate RemoveOk(r: Rest) {
    r.listed && forall i :: 0 <= i < |r.entries| ==> ItemOk(r.entries[i])
  }

  predicate ItemOk(item: Item) {
    match item
    case Sub(opens, inner, gone) => opens && RemoveOk(inner) && gone
    case Leaf(gone) => gone
  }

  /** What `stat` says of a name. */
  datatype Presence = Present | Absent | StatError

  /**
   * `held`: the lock file is right and locked. `downloaded`: a reader is there, and the download, its report and the
   * staging directory work. `announced`, `reported`: the two later reports.
   */
  datatype Answers = Answers(
    root: RootAnswers, lock: bool, held: bool, entry: Presence, downloaded: bool, stage: bool, extract: ExtractAnswers,
    staged: VerifyAnswers, renamed: bool, announced: bool, final: VerifyAnswers, reported: bool,
    leftover: Presence, rest: Rest, rmdir: bool)

  predicate InstallOk(a: Answers) {
    a.downloaded && a.stage && ExtractOk(a.extract) && VerifyOk(a.staged) && a.renamed
  }

  predicate BodyOk(a: Answers) {
    && a.held && (a.entry.Present? || (a.entry.Absent? && InstallOk(a)))
    && a.announced && VerifyOk(a.final) && a.reported
  }

  predicate StageOpened(a: Answers) {
    a.held && a.entry.Absent? && a.downloaded && a.stage
  }

  /** The lease is built: everything up to the last report works. */
  predicate Built(a: Answers) {
    RootOk(a.root) && a.lock && BodyOk(a)
  }

  /** The staging name cannot be looked up, or is still there and cannot be removed. */
  predicate CleanupRaises(a: Answers) {
    a.leftover.StatError? || (a.leftover.Present? && !(RemoveOk(a.rest) && a.rmdir))
  }

  // ---- The code ----

  /** The verified files' and directories' descriptors, which nobody else will close. */
  class Lease {
    const kernel: Kernel
    var fds: set<nat>
    var directories: set<nat>

    ghost predicate Valid()
      reads this, kernel
    {
      kernel.Valid() && fds !! directories && fds + directories <= kernel.open
    }

    constructor (kernel: Kernel, fds: set<nat>, directories: set<nat>)
      ensures this.kernel == kernel && this.fds == fds && this.directories == directories
    {
      this.kernel, this.fds, this.directories := kernel, fds, directories;
    }

    /** Releases everything; afterwards it owns nothing, so closing again changes nothing. */
    method Close()
      requires Valid()
      modifies this, kernel`open
      ensures Valid() && fds + directories == {}
      ensures kernel.open == old(kernel.open) - old(fds + directories)
    {
      kernel.CloseAll(fds);
      kernel.CloseAll(directories);
      fds, directories := {}, {};
    }
  }

  /** `_root`: the component reached so far is the only one held. */
  method Root(k: Kernel, a: RootAnswers) returns (root: Option<nat>)
    requires k.Valid()
    modifies k
    ensures k.Valid() && k.issued >= old(k.issued) && (root.Some? <==> RootOk(a))
    ensures root.Some? ==> root.value !in old(k.open) && k.open == old(k.open) + {root.value}
    ensures root.None? ==> k.open == old(k.open)
  {
    var first := k.Open(a.first);
    if first.None? { return None; }
    var fd := first.value;
    for i := 0 to |a.parts|
      invariant k.Valid() && k.issued >= old(k.issued) && fd !in old(k.open) && k.open == old(k.open) + {fd}
      invariant forall j :: 0 <= j < i ==> PartOk(a.parts[j])
    {
      if !a.parts[i].canonical { k.Close(fd); return None; }
      var child := k.Open(a.parts[i].opens);
      if child.None? { k.Close(fd); return None; }
      k.Close(fd);
      fd := child.value;
    }
    if !a.private { k.Close(fd); return None; }
    return Some(fd);
  }

  /** The directories above a member, one held at a time; on failure the last of them is closed. */
  method Descend(k: Kernel, steps: seq<Step>, dup: nat) returns (parent: Option<nat>)
    requires k.Valid() && dup in k.open
    modifies k
    ensures k.Valid() && k.issued >= old(k.issued)
    ensures parent.Some? <==> forall i :: 0 <= i < |steps| ==> StepOk(steps[i])
    ensures parent.Some? ==> parent.value !in old(k.open) - {dup} && k.open == old(k.open) - {dup} + {parent.value}
    ensures parent.None? ==> k.open == old(k.open) - {dup}
  {
    var fd := dup;
    for i := 0 to |steps|
      invariant k.Valid() && k.issued >= old(k.issued)
      invariant fd !in old(k.open) - {dup} && k.open == old(k.open) - {dup} + {fd}
      invariant forall j :: 0 <= j < i ==> StepOk(steps[j])
    {
      var child := k.Open(steps[i].opens);
      if child.None? { k.Close(fd); return None; }
      k.Close(fd);
      fd := child.value;
      if !steps[i].private { k.Close(fd); return None; }
    }
    parent := Some(fd);
  }

  /** One member: nothing stays open but, if wrapping it fails, its output file. */
  method ExtractMember(k: Kernel, m: Member) returns (ok: bool, ghost leaked: set<nat>)
    requires k.Valid()
    modifies k
    ensures k.Valid() && k.issued >= old(k.issued) && (ok <==> MemberOk(m))
    ensures Issued(leaked, old(k.issued), k.issued) && k.open == old(k.open) + leaked
    ensures leaked != {} <==> OutputOpen(m) && !m.wrapped
  {
    leaked := {};
    if !m.admitted { return false, {}; }
    var dup := k.Open(m.dup);
    if dup.None? { return false, {}; }
    var parent := Descend(k, m.steps, dup.value);
    if parent.None? { return false, {}; }
    ghost var before := k.issued;
    var output := k.Open(m.output);
    if output.None? { k.Close(parent.value); return false, {}; }
    if !m.wrapped {
      k.Close(parent.value);
      return false, {output.value};
    }
    k.Close(output.value);
    k.Close(parent.value);
    ok := m.written;
  }

  /** `_extract`. */
  method Extract(k: Kernel, a: ExtractAnswers) returns (ok: bool, ghost leaked: set<nat>)
    requires k.Valid()
    modifies k
    ensures k.Valid() && k.issued >= old(k.issued) && (ok <==> ExtractOk(a))
    ensures Issued(leaked, old(k.issued), k.issued) && k.open == old(k.open) + leaked
    ensures leaked != {} <==> Leaks(a.members)
  {
    leaked := {};
    for i := 0 to |a.members|
      invariant k.Valid() && k.issued >= old(k.issued) && k.open == old(k.open)
      invariant forall j :: 0 <= j < i ==> MemberOk(a.members[j])
    {
      ok, leaked := ExtractMember(k, a.members[i]);
      if leaked != {} { assert LeaksAt(a.members, i); }
      if !ok { return false, leaked; }
    }
    return a.complete, {};
  }

  /**
   * The walk of `_verify`: whatever happens, `fds` and `directories` are exactly the descriptors it opened, each once.
   */
  method Walk(k: Kernel, d: Dir) returns (ok: bool, fds: set<nat>, directories: set<nat>)
    requires k.Valid()
    modifies k
    ensures k.Valid() && k.issued >= old(k.issued) && fds !! directories && (ok <==> WalkOk(d))
    ensures Issued(fds, old(k.issued), k.issued) && Issued(directories, old(k.issued), k.issued)
    ensures k.open == old(k.open) + fds + directories
    decreases d
  {
    fds, directories := {}, {};
    if !d.listed { return false, fds, directories; }
    for i := 0 to |d.entries|
      invariant k.Valid() && k.issued >= old(k.issued) && fds !! directories
      invariant Issued(fds, old(k.issued), k.issued) && Issued(directories, old(k.issued), k.issued)
      invariant k.open == old(k.open) + fds + directories
      invariant forall j :: 0 <= j < i ==> NodeOk(d.entries[j])
    {
      match d.entries[i]
      case Unsigned => return false, fds, directories;
      case Ordinary(opens, verified) =>
        var fd := k.Open(opens);
        if fd.None? { return false, fds, directories; }
        assert fd.value !in fds;
        fds := fds + {fd.value};
        if !verified { return false, fds, directories; }
      case Folder(opens, inner) =>
        var child := k.Open(opens);
        if child.None? { return false, fds, directories; }
        assert child.value !in directories;
        directories := directories + {child.value};
        ghost var middle := k.issued;
        assert Issued(fds, 0, middle) && Issued(directories, 0, middle);
        var good, fds1, directories1 := Walk(k, inner);
        assert fds1 + directories1 !! fds + directories;
        fds, directories := fds + fds1, directories + directories1;
        if !good { return false, fds, directories; }
    }
    ok := d.synced;
  }

  /** `_verify`: either a lease owning all it opened, or nothing left open. */
  method Verify(k: Kernel, a: VerifyAnswers) returns (lease: Lease?)
    requires k.Valid()
    modifies k
    ensures k.Valid() && k.issued >= old(k.issued) && (lease != null <==> VerifyOk(a))
    ensures lease == null ==> k.open == old(k.open)
    ensures lease != null ==>
              && fresh(lease) && lease.kernel == k && lease.Valid()
              && Issued(lease.fds, old(k.issued), k.issued) && Issued(lease.directories, old(k.issued), k.issued)
              && lease.directories != {}
              && k.open == old(k.open) + lease.fds + lease.directories
  {
    var top := k.Open(a.opens);
    if top.None? { return null; }
    var walked, fds, directories := Walk(k, a.top);
    assert top.value !in directories;
    directories := directories + {top.value};
    if !walked || !a.complete {
      k.CloseAll(fds);
      k.CloseAll(directories);
      return null;
    }
    lease := new Lease(k, fds, directories);
  }

  /** `_remove`: each directory's descriptor is closed on the way out, whether or not removing it worked. */
  method RemoveTree(k: Kernel, r: Rest) returns (ok: bool)
    requires k.Valid()
    modifies k
    ensures k.Valid() && k.issued >= old(k.issued) && k.open == old(k.open) && (ok <==> RemoveOk(r))
    decreases r
  {
    if !r.listed { return false; }
    for i := 0 to |r.entries|
      invariant k.Valid() && k.issued >= old(k.issued) && k.open == old(k.open)
      invariant forall j :: 0 <= j < i ==> ItemOk(r.entries[j])
    {
      match r.entries[i]
      case Leaf(gone) => if !gone { return false; }
      case Sub(opens, inner, gone) =>
        var child := k.Open(opens);
        if child.None? { return false; }
        var emptied := RemoveTree(k, inner);
        k.Close(child.value);
        if !emptied || !gone { return false; }
    }
    ok := true;
  }

  /** The `try` block of `acquire` after the lock is open. */
  method Body(k: Kernel, a: Answers) returns (stage: Option<nat>, lease: Lease?, ghost leaked: set<nat>)
    requires k.Valid()
    modifies k
    ensures k.Valid() && k.issued >= old(k.issued) && (lease != null <==> BodyOk(a))
            && (stage.Some? <==> StageOpened(a))
    ensures stage.Some? ==> old(k.issued) <= stage.value < k.issued && stage.value !in leaked
    ensures Issued(leaked, old(k.issued), k.issued)
    ensures leaked != {} <==> StageOpened(a) && Leaks(a.extract.members)
    ensures lease == null ==> k.open == old(k.open) + (if stage.Some? then {stage.value} else {}) + leaked
    ensures lease != null ==>
              && fresh(lease) && lease.kernel == k && lease.Valid() && lease.directories != {} && leaked == {}
              && Issued(lease.fds, old(k.issued), k.issued) && Issued(lease.directories, old(k.issued), k.issued)
              && (stage.Some? ==> stage.value !in lease.fds && stage.value !in lease.directories)
              && k.open == old(k.open) + (if stage.Some? then {stage.value} else {}) + lease.fds + lease.directories
  {
    hide VerifyOk;
    hide ExtractOk;
    hide Leaks;
    stage, lease, leaked := None, null, {};
    if !a.held || a.entry.StatError? { return; }
    if a.entry.Absent? {
      if !a.downloaded { return; }
      stage := k.Open(a.stage);
      if stage.None? { return; }
      var extracted;
      extracted, leaked := Extract(k, a.extract);
      if !extracted { return; }
      WholeDoesNotLeak(a.extract);
      var staged := Verify(k, a.staged);
      if staged == null { return; }
      staged.Close();
      if !a.renamed { return; }
    }
    if !a.announced { return; }
    lease := Verify(k, a.final);
    if lease == null { return; }
    if !a.reported {
      lease.Close();
      lease := null;
    }
  }

  lemma {:induction false} WholeDoesNotLeak(a: ExtractAnswers)
    ensures ExtractOk(a) ==> !Leaks(a.members)
  {
    if i :| LeaksAt(a.members, i) { assert !MemberOk(a.members[i]); }
  }

  /** The `finally` block: the staging tree goes only if its name is still there. */
  method CleanUp(k: Kernel, a: Answers, stage: Option<nat>) returns (raised: bool)
    requires k.Valid() && (stage.Some? ==> stage.value in k.open)
    modifies k
    ensures k.Valid() && k.open == old(k.open) - (if stage.Some? then {stage.value} else {})
    ensures raised <==> stage.Some? && CleanupRaises(a)
  {
    raised := false;
    if stage.Some? {
      match a.leftover {
        case Absent =>
        case StatError => raised := true;
        case Present =>
          var removed := RemoveTree(k, a.rest);
          raised := !removed || !a.rmdir;
      }
      k.Close(stage.value);
    }
  }

  lemma {:induction false} StageUnderAbsent(a: Answers)
    ensures StageOpened(a) ==> a.entry.Absent?
    ensures BodyOk(a) && a.entry.Absent? ==> StageOpened(a)
  {}

  /**
   * `acquire` from its root descriptor on. On return everything it opened is closed, except for what the returned lease
   * owns, for `lost`, the descriptors of a lease that was built but not returned because the cleanup raised behind it,
   * and for `leaked`, the output file of a member that could not be wrapped. Exactly when each happens depends on the
   * answers; a call that found the entry loses nothing.
   */
  method Acquire(k: Kernel, a: Answers) returns (lease: Lease?, ghost lost: set<nat>, ghost leaked: set<nat>)
    requires k.Valid()
    modifies k
    ensures k.Valid() && lost !! old(k.open) && leaked !! old(k.open)
    ensures lease != null <==> Built(a) && !(a.entry.Absent? && CleanupRaises(a))
    ensures lost != {} <==> Built(a) && a.entry.Absent? && CleanupRaises(a)
    ensures leaked != {} <==> RootOk(a.root) && a.lock && StageOpened(a) && Leaks(a.extract.members)
    ensures a.entry.Present? ==> lost == {} && leaked == {}
    ensures lease != null ==>
              && fresh(lease) && lease.kernel == k && lease.Valid() && lost == {} && leaked == {}
              && lease.fds + lease.directories !! old(k.open)
              && k.open == old(k.open) + lease.fds + lease.directories
    ensures lease == null ==> k.open == old(k.open) + lost + leaked
  {
    hide RootOk;
    hide BodyOk;
    hide StageOpened;
    hide CleanupRaises;
    hide Leaks;
    lease, lost, leaked := null, {}, {};
    StageUnderAbsent(a);
    var root := Root(k, a.root);
    if root.None? { return; }
    var lock := k.Open(a.lock);
    if lock.None? { k.Close(root.value); return; }
    ghost var start := k.issued;
    assert root.value < start && lock.value < start && forall fd :: fd in old(k.open) ==> fd < start;
    var stage;
    stage, lease, leaked := Body(k, a);
    ghost var owned := if lease == null then {} else lease.fds + lease.directories;
    ghost var kept := old(k.open) + owned + leaked;
    assert root.value !in owned + leaked && lock.value !in owned + leaked && owned + leaked !! old(k.open);
    assert stage.Some? ==> stage.value >= start && stage.value !in kept;
    assert k.open == kept + {root.value, lock.value} + (if stage.Some? then {stage.value} else {});
    var raised := CleanUp(k, a, stage);
    k.Close(lock.value);
    k.Close(root.value);
    assert k.open == kept;
    if raised {
      lost := owned;
      lease := null;
    }
  }

  // ---- A call that loses descriptors ----

  /** An installation of one file that works, and whose staging name then cannot be looked up. */
  function LosingAnswers(): Answers {
    var tree := Dir(true, [Ordinary(true, true)], true);
    Answers(
      RootAnswers(true, [Part(true, true)], true), true, true, Absent, true, true,
      ExtractAnswers([Member(true, true, [], true, true, true)], true),
      VerifyAnswers(true, tree, true), true, true, VerifyAnswers(true, tree, true), true,
      StatError, Rest(true, []), true)
  }

  /** No lease is returned, and descriptors stay open that nobody owns. */
  method LossHappens(k: Kernel) returns (lease: Lease?)
    requires k.Valid()
    modifies k
    ensures k.Valid() && lease == null && old(k.open) < k.open
  {
    ghost var lost, leaked;
    lease, lost, leaked := Acquire(k, LosingAnswers());
  }

  /** The same installation, but for an output file that cannot be wrapped. */
  method LeakHappens(k: Kernel) returns (lease: Lease?)
    requires k.Valid()
    modifies k
    ensures k.Valid() && lease == null && old(k.open) < k.open
  {
    ghost var lost, leaked;
    var member := Member(true, true, [], true, false, true);
    var a := LosingAnswers().(extract := ExtractAnswers([member], true), leftover := Absent);
    assert LeaksAt(a.extract.members, 0);
    assert !MemberOk(a.extract.members[0]);
    lease, lost, leaked := Acquire(k, a);
  }
}
