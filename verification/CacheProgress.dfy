/**
 * What an extraction leaves behind, and that a caller that is not disturbed gets its lease. The invariant here is about
 * the tree under a caller's staging descriptor; a continuation is a sequence of acts of one caller without an
 * exception.
 */
module CacheProgress {
  import opened Bytes
  import opened CacheProtocol

  // ---- What an extraction leaves behind ----

  /** Part of the signed tree: only the file being written may still differ. */
  ghost predicate Partial(doc: Document, tree: Tree, seen: set<Path>, writing: Option<Path>) {
    && seen <= doc.files.Keys && tree.Keys <= seen + doc.Directories() && seen <= tree.Keys
    && (writing.Some? ==> writing.value in seen)
    && (forall p :: p in tree && p in doc.Directories() ==> tree[p] == Directory(PRIVATE_DIRECTORY))
    && (forall p :: p in seen && writing != Some(p) ==> tree[p] == doc.files[p])
    && (forall p, k :: p in seen && 0 < k < |p| ==> p[..k] in tree)
  }

  /** The staging tree while it is written, and while it is verified. */
  ghost predicate StageRight(s: State, c: Caller) {
    && (c.pc.Made? ==>
        c.StageName() in s.names && s.names[c.StageName()] in s.trees && s.trees[s.names[c.StageName()]] == map[])
    && (c.pc.Extracting? ==> StageOpen(s, c) && Partial(Doc(s, c), s.trees[c.stage.value], c.pc.seen, c.pc.writing))
    && (c.pc.Listed? && !c.pc.final ==> c.pc.ino in s.trees && s.trees[c.pc.ino] == Doc(s, c).Signed())
  }

  ghost predicate StageRightAt(s: State, i: nat) {
    i < |s.callers| && StageRight(s, s.callers[i])
  }

  ghost predicate StagesRight(s: State) {
    forall i: nat :: i < |s.callers| ==> StageRightAt(s, i)
  }

  /** Once every signed file was seen and written, the staging tree is the signed tree. */
  lemma {:induction false} AllSeenIsSigned(doc: Document, tree: Tree)
    requires doc.Valid() && Partial(doc, tree, doc.files.Keys, None)
    ensures tree == doc.Signed()
  {
    forall d | d in doc.Directories() ensures d in tree {
      var p, k :| p in doc.files && 0 < k < |p| && d == p[..k];
    }
    assert tree.Keys == doc.files.Keys + doc.Directories();
    forall p | p in tree ensures tree[p] == doc.Signed()[p] {
      if p in doc.files { assert p !in doc.Directories(); }
    }
  }

  lemma {:induction false} ParentPartial(doc: Document, tree: Tree, seen: set<Path>, dir: Path)
    requires doc.Valid() && Partial(doc, tree, seen, None) && dir in doc.Directories()
    ensures Partial(doc, tree[dir := Directory(PRIVATE_DIRECTORY)], seen, None)
  {
    assert dir !in doc.files;
  }

  lemma {:induction false} CreatePartial(doc: Document, tree: Tree, seen: set<Path>, path: Path)
    requires doc.Valid() && Partial(doc, tree, seen, None) && path in doc.files && path !in seen
    requires forall k :: 0 < k < |path| ==> path[..k] in tree
    ensures Partial(doc, tree[path := File(PRIVATE_FILE, [])], seen + {path}, Some(path))
  {
    assert path !in doc.Directories();
    hide Document.Directories;
  }

  lemma {:induction false} WritePartial(doc: Document, tree: Tree, seen: set<Path>, path: Path, entry: Entry)
    requires doc.Valid() && Partial(doc, tree, seen, Some(path))
    ensures Partial(doc, tree[path := entry], seen, Some(path))
    ensures entry == doc.files[path] ==> Partial(doc, tree[path := entry], seen, None)
  {
    assert path !in doc.Directories();
    hide Document.Directories;
  }

  predicate Extracts(a: Act) {
    a.MakeParent? || a.CreateFile? || a.WritePart? || a.FinishFile?
  }

  /** The steps of an extraction. */
  lemma {:induction false} ExtractStageRight(s: State, i: nat, a: Act)
    requires i < |s.callers| && Enabled(s, i, a) && StageRightAt(s, i) && Doc(s, s.callers[i]).Valid() && Extracts(a)
    ensures StageRightAt(Apply(s, i, a), i)
  {
    hide Partial;
    var c := s.callers[i];
    var doc, tree := Doc(s, c), s.trees[c.stage.value];
    hide Document.Valid;
    match a {
      case MakeParent(dir) => ParentPartial(doc, tree, c.pc.seen, dir);
      case CreateFile(path, _, _) => CreatePartial(doc, tree, c.pc.seen, path);
      case WritePart(part) => WritePartial(doc, tree, c.pc.seen, c.pc.writing.value, File(PRIVATE_FILE, part));
      case FinishFile =>
        WritePartial(doc, tree, c.pc.seen, c.pc.writing.value, doc.files[c.pc.writing.value]);
    }
  }

  lemma {:induction false} OpenStageRight(s: State, i: nat)
    requires i < |s.callers| && Enabled(s, i, OpenStage) && StageRightAt(s, i)
    ensures StageRightAt(Apply(s, i, OpenStage), i)
  {
    hide Partial;
    EmptyPartial(Doc(s, s.callers[i]));
  }

  lemma {:induction false} ListStageRight(s: State, i: nat, final: bool)
    requires CallerOk(s, i) && Enabled(s, i, List(final)) && StageRightAt(s, i) && Doc(s, s.callers[i]).Valid()
    ensures StageRightAt(Apply(s, i, List(final)), i)
  {
    hide Partial;
    hide Document.Valid;
    var c := s.callers[i];
    if !final { AllSeenIsSigned(Doc(s, c), s.trees[c.stage.value]); }
  }

  lemma {:induction false} LaterStageRight(s: State, i: nat, a: Act)
    requires i < |s.callers| && Enabled(s, i, a) && StageRightAt(s, i)
    requires !Extracts(a) && !a.OpenStage? && !a.List?
    ensures StageRightAt(Apply(s, i, a), i)
  {
    hide EntryRight;
    hide Partial;
  }

  /** The steps of the caller itself. */
  lemma {:induction false} OwnStageRight(s: State, i: nat, a: Act)
    requires Inv(s) && i < |s.callers| && Enabled(s, i, a) && StageRightAt(s, i)
    ensures StageRightAt(Apply(s, i, a), i)
  {
    InvParts(s, i);
    ValidDoc(s, i);
    hide *;
    if Extracts(a) {
      ExtractStageRight(s, i, a);
    } else if a.OpenStage? {
      OpenStageRight(s, i);
    } else if a.List? {
      ListStageRight(s, i, a.final);
    } else {
      LaterStageRight(s, i, a);
    }
  }

  lemma {:induction false} ValidDoc(s: State, i: nat)
    requires Inv(s) && i < |s.callers|
    ensures Doc(s, s.callers[i]).Valid()
  {
    hide CallersOk;
    hide LockOk;
    hide NamesOk;
    hide DistinctStages;
  }

  lemma {:induction false} EmptyPartial(doc: Document)
    ensures Partial(doc, map[], {}, None)
  {}

  /** What another caller's step leaves of the staging tree. */
  ghost predicate StageKept(s: State, s': State, j: nat) {
    && j < |s.callers| == |s'.callers| && s'.callers[j] == s.callers[j] && s'.docs == s.docs
    && var c := s.callers[j];
       && (c.stage.Some? && c.stage.value in s.trees && c.StageName() in s.names
             && s.names[c.StageName()] == c.stage.value ==>
           c.stage.value in s'.trees && s'.trees[c.stage.value] == s.trees[c.stage.value])
       && (c.StageName() in s.names && s.names[c.StageName()] in s.trees ==>
           && c.StageName() in s'.names && s'.names[c.StageName()] == s.names[c.StageName()]
           && s.names[c.StageName()] in s'.trees
           && s'.trees[s.names[c.StageName()]] == s.trees[s.names[c.StageName()]])
  }

  lemma {:induction false} WriteStageKept(s: State, i: nat, j: nat, tree: Tree, pc: Pc)
    requires NamesOk(s) && CallerOk(s, i) && j < |s.callers| && i != j
    requires s.callers[i].StageName() != s.callers[j].StageName()
    requires s.callers[i].stage.Some? && s.callers[i].StageName() in s.names
    ensures StageKept(s, WriteStage(s, i, tree, pc), j)
  {
    hide PcOk;
    StageIsPrivate(s, i);
    hide StageOk;
  }

  lemma {:induction false} LinkStageKept(s: State, i: nat, a: Act, j: nat)
    requires NamesOk(s) && CallerOk(s, i) && j < |s.callers| && i != j && Enabled(s, i, a)
    requires s.callers[i].StageName() != s.callers[j].StageName()
    requires Quiet(s, i, a) || a.MakeStage? || a.Rename? || a.RemoveStage?
    ensures StageKept(s, Apply(s, i, a), j)
  {
    hide EntryRight;
    hide PcOk;
    hide StageOk;
    if Quiet(s, i, a) {
      QuietFrame(s, i, a);
      hide Apply;
      hide Enabled;
    }
  }

  lemma {:induction false} OtherStageKept(s: State, i: nat, a: Act, j: nat)
    requires NamesOk(s) && DistinctStages(s) && CallerOk(s, i) && j < |s.callers| && i != j && Enabled(s, i, a)
    ensures StageKept(s, Apply(s, i, a), j)
  {
    hide EntryRight;
    hide StageKept;
    hide StageOk;
    hide NamesOk;
    hide WriteStage;
    StageNamesDiffer(s, i, j);
    hide DistinctStages;
    var c := s.callers[i];
    match a {
      case MakeParent(dir) =>
        WriteStageKept(s, i, j, s.trees[c.stage.value][dir := Directory(PRIVATE_DIRECTORY)], c.pc);
      case CreateFile(path, _, _) =>
        WriteStageKept(s, i, j, s.trees[c.stage.value][path := File(PRIVATE_FILE, [])],
                       Extracting(c.pc.seen + {path}, Some(path)));
      case WritePart(part) =>
        WriteStageKept(s, i, j, s.trees[c.stage.value][c.pc.writing.value := File(PRIVATE_FILE, part)], c.pc);
      case FinishFile =>
        WriteStageKept(s, i, j, s.trees[c.stage.value][c.pc.writing.value := Doc(s, c).files[c.pc.writing.value]],
                       c.pc.(writing := None));
      case RemoveLeaf(path) => WriteStageKept(s, i, j, s.trees[c.stage.value] - {path}, c.pc);
      case _ => LinkStageKept(s, i, a, j);
    }
  }

  lemma {:induction false} KeptStageRight(s: State, s': State, j: nat)
    requires StageKept(s, s', j) && CallerOk(s, j) && StageRightAt(s, j)
    ensures StageRightAt(s', j)
  {
    hide Partial;
    hide EntryRight;
  }

  /** A step of another caller leaves the staging tree alone. */
  lemma {:induction false} OtherStageRight(s: State, i: nat, a: Act, j: nat)
    requires Inv(s) && i < |s.callers| && j < |s.callers| && i != j && Enabled(s, i, a) && StageRightAt(s, j)
    ensures StageRightAt(Apply(s, i, a), j)
  {
    InvParts(s, i);
    InvParts(s, j);
    NamesDistinct(s);
    hide *;
    OtherStageKept(s, i, a, j);
    KeptStageRight(s, Apply(s, i, a), j);
  }

  lemma {:induction false} NamesDistinct(s: State)
    requires Inv(s)
    ensures DistinctStages(s)
  {
    hide CallersOk;
    hide LockOk;
    hide NamesOk;
  }

  lemma {:induction false} StepStagesRight(s: State, i: nat, a: Act)
    requires Inv(s) && StagesRight(s) && i < |s.callers| && Enabled(s, i, a)
    ensures StagesRight(Apply(s, i, a))
  {
    var s' := Apply(s, i, a);
    OwnStageRight(s, i, a);
    SameCount(s, i, a);
    hide Apply;
    hide Inv;
    hide Enabled;
    hide StageRightAt;
    forall j: nat | j < |s'.callers| ensures StageRightAt(s', j) {
      if j != i { OtherStageRight(s, i, a, j); }
    }
  }

  lemma {:induction false} SameCount(s: State, i: nat, a: Act)
    requires i < |s.callers| && Enabled(s, i, a)
    ensures |Apply(s, i, a).callers| == |s.callers|
  {
    hide EntryRight;
    hide Enabled;
  }

  /** In every state of every run, whatever is seen and not being written is as it was signed. */
  lemma {:induction false} RunStagesRight(states: seq<State>, k: nat)
    requires IsRun(states) && k < |states|
    ensures StagesRight(states[k])
    decreases k
  {
    hide Inv;
    hide Apply;
    hide Enabled;
    hide StageRightAt;
    if k == 0 {
      NoStages(states[0]);
    } else {
      RunStagesRight(states, k - 1);
      RunInv(states, k - 1);
      assert Next(states[k - 1], states[k]);
      var i, a :| 0 <= i < |states[k - 1].callers| && Enabled(states[k - 1], i, a)
        && states[k] == Apply(states[k - 1], i, a);
      StepStagesRight(states[k - 1], i, a);
    }
  }

  lemma {:induction false} NoStages(s: State)
    requires Initial(s)
    ensures StagesRight(s)
  {}

  /** So when the last member is written, the staging tree is exactly the signed tree. */
  lemma {:induction false} ExtractedIsSigned(states: seq<State>, k: nat, i: nat)
    requires IsRun(states) && k < |states| && i < |states[k].callers|
    requires var c := states[k].callers[i];
             c.pc.Extracting? && c.pc.writing.None? && c.pc.seen == Doc(states[k], c).files.Keys
    ensures var c := states[k].callers[i];
            && c.stage.Some? && c.stage.value in states[k].trees
            && states[k].trees[c.stage.value] == Doc(states[k], c).Signed()
  {
    hide IsRun;
    RunInv(states, k);
    RunStagesRight(states, k);
    var c := states[k].callers[i];
    assert StageRightAt(states[k], i) && Doc(states[k], c).Valid();
    hide Inv;
    hide Partial;
    AllSeenIsSigned(Doc(states[k], c), states[k].trees[c.stage.value]);
  }

  // ---- Undisturbed continuations ----

  ghost predicate Sound(s: State) {
    Inv(s) && StagesRight(s)
  }

  predicate Undisturbed(a: Act) {
    !a.Raise? && !a.Crash?
  }

  /** Caller `i` alone takes these steps, without an exception or a crash. */
  ghost predicate Goes(s: State, i: nat, acts: seq<Act>, t: State)
    decreases |acts|
  {
    if acts == [] then s == t
    else
      && i < |s.callers| && Enabled(s, i, acts[0]) && Undisturbed(acts[0])
      && Goes(Apply(s, i, acts[0]), i, acts[1..], t)
  }

  predicate HasLease(s: State, i: nat) {
    i < |s.callers| && s.callers[i].pc.Finished? && s.callers[i].pc.outcome.Leased?
  }

  /** The lease is within reach of the caller. */
  ghost predicate Reaches(s: State, i: nat) {
    exists acts, t :: Goes(s, i, acts, t) && HasLease(t, i)
  }

  lemma {:induction false} Before(s: State, i: nat, a: Act)
    requires i < |s.callers| && Enabled(s, i, a) && Undisturbed(a) && Reaches(Apply(s, i, a), i)
    ensures Reaches(s, i)
  {
    hide Enabled;
    hide Apply;
    hide HasLease;
    var acts, t :| Goes(Apply(s, i, a), i, acts, t) && HasLease(t, i);
    var more := [a] + acts;
    assert more[0] == a && more[1..] == acts;
    assert Goes(s, i, more, t);
  }

  lemma {:induction false} SoundNext(s: State, i: nat, a: Act)
    requires Sound(s) && i < |s.callers| && Enabled(s, i, a)
    ensures Sound(Apply(s, i, a)) && |Apply(s, i, a).callers| == |s.callers|
  {
    StepInv(s, i, a);
    StepStagesRight(s, i, a);
    SameCount(s, i, a);
    hide *;
  }

  /** Every entry is published as it was signed. */
  ghost predicate EntrySigned(s: State, c: Caller) {
    && Final(c.id) in s.names && s.names[Final(c.id)] in s.trees
    && s.trees[s.names[Final(c.id)]] == Doc(s, c).Signed()
  }

  /** What a caller finds to lease, or can install. */
  ghost predicate Available(s: State, c: Caller) {
    if Final(c.id) in s.names then EntrySigned(s, c) else c.online
  }

  ghost predicate CanLease(s: State, i: nat) {
    i < |s.callers| &&
    var c := s.callers[i];
    match c.pc
    case Start => c.id !in s.holder && Available(s, c)
    case Locked => Available(s, c)
    case Missing => c.online
    case Downloaded | Made | StageVerified => true
    case Extracting(_, _) => true
    case Listed(final, _, _, _) => final ==> EntrySigned(s, c)
    case Renamed | Reporting => EntrySigned(s, c)
    case Ready(_) => true
    case Cleaning(outcome) => outcome.Leased?
    case Removing(_) => false
    case Closing(outcome) => outcome.Leased?
    case Finished(outcome) => outcome.Leased?
    case Crashed => false
  }

  // ---- The last steps ----

  lemma {:induction false} DoneReaches(s: State, i: nat)
    requires HasLease(s, i)
    ensures Reaches(s, i)
  {
    assert Goes(s, i, [], s);
  }

  /** Ending with a lease. */
  ghost predicate EndsWith(s: State, i: nat, pc: Pc) {
    i < |s.callers| && s.callers[i].pc == pc && s.callers[i].StageName() !in s.names
  }

  lemma {:induction false} ClosingReaches(s: State, i: nat, ino: nat)
    requires EndsWith(s, i, Closing(Leased(ino)))
    ensures Reaches(s, i)
  {
    hide Reaches;
    DoneReaches(Apply(s, i, CloseAll), i);
    Before(s, i, CloseAll);
  }

  lemma {:induction false} CleaningReaches(s: State, i: nat, ino: nat)
    requires EndsWith(s, i, Cleaning(Leased(ino)))
    ensures Reaches(s, i)
  {
    hide Reaches;
    ClosingReaches(Apply(s, i, StatStage), i, ino);
    Before(s, i, StatStage);
  }

  lemma {:induction false} ReadyReaches(s: State, i: nat, ino: nat)
    requires EndsWith(s, i, Ready(ino))
    ensures Reaches(s, i)
  {
    hide Reaches;
    CleaningReaches(Apply(s, i, Report), i, ino);
    Before(s, i, Report);
  }

  // ---- Verifying ----

  lemma {:induction false} SignedChecks(doc: Document, p: Path)
    requires doc.Valid() && p in doc.Signed()
    ensures EntryRight(doc, doc.Signed(), p)
  {}

  lemma {:induction false} SignedKeys(doc: Document)
    ensures doc.Signed().Keys == doc.files.Keys + doc.Directories()
  {}

  /** The caller walks the tree `ino`, which is the signed one. */
  ghost predicate WalksSigned(s: State, i: nat, final: bool) {
    && i < |s.callers| && s.callers[i].pc.Listed? && s.callers[i].pc.final == final
    && s.callers[i].pc.ino in s.trees && s.trees[s.callers[i].pc.ino] == Doc(s, s.callers[i]).Signed()
    && s.callers[i].pc.listing == s.trees[s.callers[i].pc.ino].Keys
    && s.callers[i].pc.checked <= s.callers[i].pc.listing
  }

  /** What is left to check. */
  ghost function Unchecked(s: State, i: nat): set<Path>
    requires i < |s.callers| && s.callers[i].pc.Listed?
  {
    s.callers[i].pc.listing - s.callers[i].pc.checked
  }

  /** One more check is possible, and leaves less to do. */
  lemma {:induction false} WalkStep(s: State, i: nat, final: bool, p: Path)
    requires Sound(s) && WalksSigned(s, i, final) && p in Unchecked(s, i)
    ensures Enabled(s, i, Check(p))
    ensures var t := Apply(s, i, Check(p));
            Sound(t) && WalksSigned(t, i, final) && |Unchecked(t, i)| < |Unchecked(s, i)|
  {
    ValidDoc(s, i);
    SignedChecks(Doc(s, s.callers[i]), p);
    hide EntryRight;
    hide Document.Signed;
    SoundNext(s, i, Check(p));
    hide Sound;
    var t := Apply(s, i, Check(p));
    assert Unchecked(t, i) == Unchecked(s, i) - {p};
  }

  lemma {:induction false} WalkEnd(s: State, i: nat, final: bool)
    requires Sound(s) && WalksSigned(s, i, final) && Unchecked(s, i) == {}
    ensures Enabled(s, i, VerifyDone)
    ensures var t := Apply(s, i, VerifyDone);
            && Sound(t) && i < |t.callers|
            && t.callers[i].pc == (if final then Ready(s.callers[i].pc.ino) else StageVerified)
  {
    SignedKeys(Doc(s, s.callers[i]));
    forall p | p in s.callers[i].pc.listing ensures p in s.callers[i].pc.checked { assert p !in Unchecked(s, i); }
    assert s.callers[i].pc.checked == s.callers[i].pc.listing;
    hide Document.Signed;
    hide Document.Directories;
    SoundNext(s, i, VerifyDone);
    hide Sound;
  }

  lemma {:induction false} FinalReaches(s: State, i: nat)
    requires Sound(s) && WalksSigned(s, i, true)
    ensures Reaches(s, i)
    decreases |Unchecked(s, i)|
  {
    hide Reaches;
    hide Apply;
    hide Enabled;
    hide WalksSigned;
    hide Sound;
    WalkShape(s, i, true);
    if Unchecked(s, i) == {} {
      WalkEnd(s, i, true);
      var t := Apply(s, i, VerifyDone);
      ReadyEnds(t, i);
      ReadyReaches(t, i, t.callers[i].pc.ino);
      Before(s, i, VerifyDone);
    } else {
      var p :| p in Unchecked(s, i);
      WalkStep(s, i, true, p);
      FinalReaches(Apply(s, i, Check(p)), i);
      Before(s, i, Check(p));
    }
  }

  /** By then its staging name is gone. */
  lemma {:induction false} ReadyEnds(s: State, i: nat)
    requires Sound(s) && i < |s.callers|
    requires s.callers[i].pc.Ready? || (s.callers[i].pc.Cleaning? && s.callers[i].pc.outcome.Leased?)
             || (s.callers[i].pc.Closing? && s.callers[i].pc.outcome.Leased?)
    ensures EndsWith(s, i, s.callers[i].pc)
  {
    SoundCaller(s, i);
    hide Sound;
    hide EntryRight;
    hide StageOk;
  }

  lemma {:induction false} WalkShape(s: State, i: nat, final: bool)
    requires WalksSigned(s, i, final)
    ensures i < |s.callers| && s.callers[i].pc.Listed?
  {}

  lemma {:induction false} SoundCaller(s: State, i: nat)
    requires Sound(s) && i < |s.callers|
    ensures CallerOk(s, i) && NamesOk(s) && LockOk(s) && StageRightAt(s, i)
  {
    InvParts(s, i);
    hide Inv;
    hide StageRightAt;
  }

  lemma {:induction false} ReportingReaches(s: State, i: nat)
    requires Sound(s) && i < |s.callers| && s.callers[i].pc.Reporting? && EntrySigned(s, s.callers[i])
    ensures Reaches(s, i)
  {
    hide Reaches;
    hide Document.Signed;
    assert Enabled(s, i, List(true));
    SoundNext(s, i, List(true));
    hide Sound;
    var t := Apply(s, i, List(true));
    assert WalksSigned(t, i, true);
    FinalReaches(t, i);
    Before(s, i, List(true));
  }

  lemma {:induction false} RenamedReaches(s: State, i: nat)
    requires Sound(s) && i < |s.callers| && s.callers[i].pc.Renamed? && EntrySigned(s, s.callers[i])
    ensures Reaches(s, i)
  {
    hide Reaches;
    hide Document.Signed;
    SoundNext(s, i, Sync);
    hide Sound;
    ReportingReaches(Apply(s, i, Sync), i);
    Before(s, i, Sync);
  }

  lemma {:induction false} VerifiedReaches(s: State, i: nat)
    requires Sound(s) && i < |s.callers| && s.callers[i].pc.StageVerified?
    ensures Reaches(s, i)
  {
    hide Reaches;
    hide Document.Signed;
    SoundCaller(s, i);
    assert Enabled(s, i, Rename);
    SoundNext(s, i, Rename);
    hide Sound;
    RenamedReaches(Apply(s, i, Rename), i);
    Before(s, i, Rename);
  }

  lemma {:induction false} StagedReaches(s: State, i: nat)
    requires Sound(s) && WalksSigned(s, i, false)
    ensures Reaches(s, i)
    decreases |Unchecked(s, i)|
  {
    hide Reaches;
    hide Apply;
    hide Enabled;
    hide WalksSigned;
    hide Sound;
    WalkShape(s, i, false);
    if Unchecked(s, i) == {} {
      WalkEnd(s, i, false);
      VerifiedReaches(Apply(s, i, VerifyDone), i);
      Before(s, i, VerifyDone);
    } else {
      var p :| p in Unchecked(s, i);
      WalkStep(s, i, false, p);
      StagedReaches(Apply(s, i, Check(p)), i);
      Before(s, i, Check(p));
    }
  }

  // ---- Extracting ----

  /** The directories above a member that are not there yet. */
  ghost function Lacking(tree: Tree, p: Path): set<Path> {
    (set k | 0 < k < |p| :: p[..k]) - tree.Keys
  }

  lemma {:induction false} ParentStep(s: State, i: nat, p: Path, dir: Path)
    requires Sound(s) && i < |s.callers| && s.callers[i].pc.Extracting? && s.callers[i].pc.writing.None?
    requires StageOpen(s, s.callers[i]) && p in Doc(s, s.callers[i]).files
    requires dir in Lacking(s.trees[s.callers[i].stage.value], p)
    ensures Enabled(s, i, MakeParent(dir))
    ensures var t := Apply(s, i, MakeParent(dir));
            && Sound(t) && t.docs == s.docs && t.callers == s.callers && StageOpen(t, t.callers[i])
            && |Lacking(t.trees[t.callers[i].stage.value], p)| < |Lacking(s.trees[s.callers[i].stage.value], p)|
  {
    var k :| 0 < k < |p| && dir == p[..k];
    assert dir in Doc(s, s.callers[i]).Directories();
    SoundNext(s, i, MakeParent(dir));
    hide Sound;
    var t, c := Apply(s, i, MakeParent(dir)), s.callers[i];
    assert t.callers[i] == c;
    assert t.callers == s.callers;
    assert Lacking(t.trees[c.stage.value], p) == Lacking(s.trees[c.stage.value], p) - {dir};
  }

  /** The next member can be created once its directories are there. */
  lemma {:induction false} CreateStep(s: State, i: nat, p: Path)
    requires Sound(s) && i < |s.callers| && s.callers[i].pc.Extracting? && s.callers[i].pc.writing.None?
    requires StageOpen(s, s.callers[i]) && p in Doc(s, s.callers[i]).files && p !in s.callers[i].pc.seen
    requires Doc(s, s.callers[i]).files[p].File? && Lacking(s.trees[s.callers[i].stage.value], p) == {}
    ensures var r := Doc(s, s.callers[i]).files[p];
            var a := CreateFile(p, r.mode, r.content);
            && Enabled(s, i, a) && Sound(Apply(s, i, a)) && Apply(s, i, a).docs == s.docs
            && |Apply(s, i, a).callers| == |s.callers|
            && Apply(s, i, a).callers[i] == s.callers[i].(pc := Extracting(s.callers[i].pc.seen + {p}, Some(p)))
  {
    var c := s.callers[i];
    var doc, tree := Doc(s, c), s.trees[c.stage.value];
    var a := CreateFile(p, doc.files[p].mode, doc.files[p].content);
    ValidDoc(s, i);
    SoundCaller(s, i);
    forall k | 0 < k < |p| ensures p[..k] in tree && tree[p[..k]].Directory? {
      assert p[..k] !in Lacking(tree, p);
      assert p[..k] in doc.Directories();
    }
    hide Lacking;
    assert p !in tree by { assert p !in doc.Directories(); }
    hide Document.Directories;
    SoundNext(s, i, a);
    hide Sound;
  }

  /** What is still to be seen. */
  ghost function Unseen(s: State, i: nat): set<Path>
    requires i < |s.callers| && s.callers[i].pc.Extracting?
  {
    Doc(s, s.callers[i]).files.Keys - s.callers[i].pc.seen
  }

  lemma {:induction false} FinishStep(s: State, i: nat)
    requires Sound(s) && i < |s.callers| && s.callers[i].pc.Extracting? && s.callers[i].pc.writing.Some?
    ensures Enabled(s, i, FinishFile)
    ensures var t := Apply(s, i, FinishFile);
            && Sound(t) && |t.callers| == |s.callers| && t.docs == s.docs
            && t.callers[i] == s.callers[i].(pc := Extracting(s.callers[i].pc.seen, None))
  {
    SoundCaller(s, i);
    SoundNext(s, i, FinishFile);
    hide Sound;
  }

  lemma {:induction false} AllSeenStep(s: State, i: nat)
    requires Sound(s) && i < |s.callers| && s.callers[i].pc.Extracting? && s.callers[i].pc.writing.None?
    requires Unseen(s, i) == {}
    ensures Enabled(s, i, List(false)) && Sound(Apply(s, i, List(false)))
    ensures WalksSigned(Apply(s, i, List(false)), i, false)
  {
    SoundCaller(s, i);
    var c := s.callers[i];
    assert c.pc.seen <= Doc(s, c).files.Keys by { hide Document.Directories; }
    forall p | p in Doc(s, c).files ensures p in c.pc.seen { assert p !in Unseen(s, i); }
    assert c.pc.seen == Doc(s, c).files.Keys;
    hide Partial;
    SoundNext(s, i, List(false));
    var t := Apply(s, i, List(false));
    SoundCaller(t, i);
    hide Sound;
    hide Document.Signed;
  }

  lemma {:induction false} FilesOfDoc(s: State, i: nat, p: Path)
    requires Sound(s) && i < |s.callers| && p in Doc(s, s.callers[i]).files
    ensures Doc(s, s.callers[i]).files[p].File?
  {
    ValidDoc(s, i);
    hide Sound;
  }

  lemma {:induction false} StageIsOpen(s: State, i: nat)
    requires Sound(s) && i < |s.callers| && s.callers[i].pc.Extracting?
    ensures StageOpen(s, s.callers[i])
  {
    SoundCaller(s, i);
    hide Sound;
    hide Partial;
  }

  /** A member that was not seen yet: the directories above it, then the file. */
  lemma {:induction false} MemberReaches(s: State, i: nat, p: Path)
    requires Sound(s) && i < |s.callers| && s.callers[i].pc.Extracting? && s.callers[i].pc.writing.None?
    requires StageOpen(s, s.callers[i]) && p in Unseen(s, i)
    ensures Reaches(s, i)
    decreases |Unseen(s, i)|, 0, |Lacking(s.trees[s.callers[i].stage.value], p)|
  {
    hide Reaches;
    hide Apply;
    hide Enabled;
    hide Sound;
    hide Lacking;
    var c := s.callers[i];
    if Lacking(s.trees[c.stage.value], p) == {} {
      FilesOfDoc(s, i, p);
      CreateStep(s, i, p);
      var a := CreateFile(p, Doc(s, c).files[p].mode, Doc(s, c).files[p].content);
      var t := Apply(s, i, a);
      assert Unseen(t, i) == Unseen(s, i) - {p};
      ExtractReaches(t, i);
      Before(s, i, a);
    } else {
      var dir :| dir in Lacking(s.trees[c.stage.value], p);
      ParentStep(s, i, p, dir);
      var t := Apply(s, i, MakeParent(dir));
      assert Unseen(t, i) == Unseen(s, i);
      MemberReaches(t, i, p);
      Before(s, i, MakeParent(dir));
    }
  }

  lemma {:induction false} ExtractReaches(s: State, i: nat)
    requires Sound(s) && i < |s.callers| && s.callers[i].pc.Extracting?
    ensures Reaches(s, i)
    decreases |Unseen(s, i)|, if s.callers[i].pc.writing.Some? then 2 else 1
  {
    hide Reaches;
    hide Apply;
    hide Enabled;
    hide Sound;
    if s.callers[i].pc.writing.Some? {
      FinishStep(s, i);
      var t := Apply(s, i, FinishFile);
      assert Unseen(t, i) == Unseen(s, i);
      ExtractReaches(t, i);
      Before(s, i, FinishFile);
    } else if Unseen(s, i) == {} {
      AllSeenStep(s, i);
      StagedReaches(Apply(s, i, List(false)), i);
      Before(s, i, List(false));
    } else {
      var p :| p in Unseen(s, i);
      StageIsOpen(s, i);
      MemberReaches(s, i, p);
    }
  }

  // ---- The first steps ----

  lemma {:induction false} FreshInode(used: set<nat>) returns (ino: nat)
    ensures ino !in used
  {
    if used == {} {
      ino := 0;
    } else {
      ino := Above(used);
    }
  }

  lemma {:induction false} Above(used: set<nat>) returns (top: nat)
    ensures forall n :: n in used ==> n < top
  {
    if used == {} {
      top := 0;
    } else {
      var n :| n in used;
      var rest := Above(used - {n});
      top := if n < rest then rest else n + 1;
      forall m | m in used ensures m < top { if m != n { assert m in used - {n}; } }
    }
  }

  lemma {:induction false} MadeReaches(s: State, i: nat)
    requires Sound(s) && i < |s.callers| && s.callers[i].pc.Made?
    ensures Reaches(s, i)
  {
    hide Reaches;
    SoundCaller(s, i);
    assert Enabled(s, i, OpenStage);
    SoundNext(s, i, OpenStage);
    hide Sound;
    ExtractReaches(Apply(s, i, OpenStage), i);
    Before(s, i, OpenStage);
  }

  lemma {:induction false} DownloadedReaches(s: State, i: nat)
    requires Sound(s) && i < |s.callers| && s.callers[i].pc.Downloaded?
    ensures Reaches(s, i)
  {
    hide Reaches;
    SoundCaller(s, i);
    var ino := FreshInode(s.trees.Keys);
    assert Enabled(s, i, MakeStage(ino));
    SoundNext(s, i, MakeStage(ino));
    hide Sound;
    MadeReaches(Apply(s, i, MakeStage(ino)), i);
    Before(s, i, MakeStage(ino));
  }

  lemma {:induction false} MissingReaches(s: State, i: nat)
    requires Sound(s) && i < |s.callers| && s.callers[i].pc.Missing? && s.callers[i].online
    ensures Reaches(s, i)
  {
    hide Reaches;
    SoundNext(s, i, Download);
    hide Sound;
    DownloadedReaches(Apply(s, i, Download), i);
    Before(s, i, Download);
  }

  lemma {:induction false} LockedReaches(s: State, i: nat)
    requires Sound(s) && i < |s.callers| && s.callers[i].pc.Locked? && Available(s, s.callers[i])
    ensures Reaches(s, i)
  {
    hide Reaches;
    hide Document.Signed;
    if Final(s.callers[i].id) in s.names {
      SoundNext(s, i, StatFound);
      hide Sound;
      ReportingReaches(Apply(s, i, StatFound), i);
      Before(s, i, StatFound);
    } else {
      SoundNext(s, i, StatMissing);
      hide Sound;
      MissingReaches(Apply(s, i, StatMissing), i);
      Before(s, i, StatMissing);
    }
  }

  lemma {:induction false} StartReaches(s: State, i: nat)
    requires Sound(s) && i < |s.callers| && s.callers[i].pc.Start? && CanLease(s, i)
    ensures Reaches(s, i)
  {
    hide Reaches;
    hide Document.Signed;
    SoundNext(s, i, TakeLock);
    hide Sound;
    LockedReaches(Apply(s, i, TakeLock), i);
    Before(s, i, TakeLock);
  }

  lemma {:induction false} CanReaches(s: State, i: nat)
    requires Sound(s) && CanLease(s, i)
    ensures Reaches(s, i)
  {
    var c := s.callers[i];
    SoundCaller(s, i);
    hide Reaches;
    hide Document.Signed;
    hide StageOk;
    hide EntryRight;
    hide NamesOk;
    hide LockOk;
    match c.pc {
      case Start => StartReaches(s, i);
      case Locked => LockedReaches(s, i);
      case Missing => MissingReaches(s, i);
      case Downloaded => DownloadedReaches(s, i);
      case Made => MadeReaches(s, i);
      case Extracting(_, _) => ExtractReaches(s, i);
      case Listed(final, _, _, _) => if final { FinalReaches(s, i); } else { StagedReaches(s, i); }
      case StageVerified => VerifiedReaches(s, i);
      case Renamed => RenamedReaches(s, i);
      case Reporting => ReportingReaches(s, i);
      case Ready(ino) =>
        ReadyEnds(s, i);
        ReadyReaches(s, i, ino);
      case Cleaning(outcome) =>
        ReadyEnds(s, i);
        CleaningReaches(s, i, outcome.ino);
      case Closing(outcome) =>
        ReadyEnds(s, i);
        ClosingReaches(s, i, outcome.ino);
      case Finished(_) => DoneReaches(s, i);
    }
  }

  /** A step that is no exception leads to where the caller can lease only from where it can. */
  lemma {:induction false} CanBefore(s: State, i: nat, a: Act)
    requires Sound(s) && i < |s.callers| && Enabled(s, i, a) && Undisturbed(a) && CanLease(Apply(s, i, a), i)
    ensures CanLease(s, i)
  {
    SoundCaller(s, i);
    ValidDoc(s, i);
    hide Sound;
    if a.VerifyDone? {
      VerifiedCan(s, i);
    } else {
      hide EntryRight;
      hide StageOk;
      hide PcOk;
      hide NamesOk;
      hide LockOk;
      hide Document.Signed;
      hide Document.Valid;
      hide Document.Directories;
    }
  }

  lemma {:induction false} VerifiedCan(s: State, i: nat)
    requires CallerOk(s, i) && Enabled(s, i, VerifyDone) && Doc(s, s.callers[i]).Valid()
    ensures CanLease(s, i)
  {
    hide EntryRight;
    hide StageOk;
    var c := s.callers[i];
    if c.pc.final { VerifiedIsSigned(Doc(s, c), s.trees[c.pc.ino]); }
    hide Document.Signed;
    hide Document.Directories;
  }

  lemma {:induction false} GoesBack(s: State, i: nat, acts: seq<Act>, t: State)
    requires Sound(s) && Goes(s, i, acts, t) && HasLease(t, i)
    ensures CanLease(s, i)
    decreases |acts|
  {
    hide Sound;
    if acts != [] {
      hide Apply;
      hide Enabled;
      hide CanLease;
      SoundNext(s, i, acts[0]);
      GoesBack(Apply(s, i, acts[0]), i, acts[1..], t);
      CanBefore(s, i, acts[0]);
    }
  }

  /**
   * From every state of every run: a caller can go on by itself, without an exception or a crash, to a lease exactly
   * when it has not failed or crashed, has or can take the lock, and finds the signed entry or is online to install it.
   */
  lemma {:induction false} LeaseExactly(states: seq<State>, k: nat, i: nat)
    requires IsRun(states) && k < |states|
    ensures Reaches(states[k], i) <==> CanLease(states[k], i)
  {
    RunInv(states, k);
    RunStagesRight(states, k);
    var s := states[k];
    assert Sound(s);
    hide Sound;
    hide Goes;
    hide CanLease;
    hide IsRun;
    if CanLease(s, i) { CanReaches(s, i); }
    if acts, t :| Goes(s, i, acts, t) && HasLease(t, i) { GoesBack(s, i, acts, t); }
  }

  // ---- Cleaning up ----

  /** The call is over, and its staging tree is gone. */
  predicate Cleared(s: State, i: nat) {
    i < |s.callers| && s.callers[i].pc.Finished? && s.callers[i].StageName() !in s.names
  }

  ghost predicate Clears(s: State, i: nat) {
    exists acts, t :: Goes(s, i, acts, t) && Cleared(t, i)
  }

  lemma {:induction false} BeforeClear(s: State, i: nat, a: Act)
    requires i < |s.callers| && Enabled(s, i, a) && Undisturbed(a) && Clears(Apply(s, i, a), i)
    ensures Clears(s, i)
  {
    hide Enabled;
    hide Apply;
    hide Cleared;
    var acts, t :| Goes(Apply(s, i, a), i, acts, t) && Cleared(t, i);
    var more := [a] + acts;
    assert more[0] == a && more[1..] == acts;
    assert Goes(s, i, more, t);
  }

  lemma {:induction false} ClosingClears(s: State, i: nat)
    requires i < |s.callers| && s.callers[i].pc.Closing? && s.callers[i].StageName() !in s.names
    ensures Clears(s, i)
  {
    assert Goes(Apply(s, i, CloseAll), i, [], Apply(s, i, CloseAll));
    assert Cleared(Apply(s, i, CloseAll), i);
    hide Clears;
    assert Clears(Apply(s, i, CloseAll), i) by { ClearedClears(Apply(s, i, CloseAll), i); }
    BeforeClear(s, i, CloseAll);
  }

  lemma {:induction false} ClearedClears(s: State, i: nat)
    requires Cleared(s, i)
    ensures Clears(s, i)
  {
    assert Goes(s, i, [], s);
  }

  lemma {:induction false} LongestPath(paths: set<Path>) returns (p: Path)
    requires paths != {}
    ensures p in paths && forall q :: q in paths ==> |q| <= |p|
  {
    p :| p in paths;
    var rest := paths - {p};
    if rest != {} {
      var q := LongestPath(rest);
      forall r | r in paths ensures |r| <= |p| || |r| <= |q| { if r != p { assert r in rest; } }
      if |q| > |p| { p := q; }
    } else {
      assert paths == {p} + rest;
    }
  }

  /** A tree that is not empty has a path nothing is below. */
  lemma {:induction false} SomeLeaf(tree: Tree) returns (p: Path)
    requires tree != map[]
    ensures p in tree && forall q :: q in tree ==> !(p < q)
  {
    p := LongestPath(tree.Keys);
  }

  lemma {:induction false} RemovingClears(s: State, i: nat)
    requires Sound(s) && i < |s.callers| && s.callers[i].pc.Removing?
    ensures s.callers[i].stage.Some? && s.callers[i].stage.value in s.trees
    ensures Clears(s, i)
    decreases |s.trees[s.callers[i].stage.value]|
  {
    hide Clears;
    hide EntryRight;
    SoundCaller(s, i);
    var c := s.callers[i];
    var tree := s.trees[c.stage.value];
    if tree == map[] {
      assert Enabled(s, i, RemoveStage);
      hide Sound;
      ClosingClears(Apply(s, i, RemoveStage), i);
      BeforeClear(s, i, RemoveStage);
    } else {
      var p := SomeLeaf(tree);
      assert Enabled(s, i, RemoveLeaf(p));
      SoundNext(s, i, RemoveLeaf(p));
      hide Sound;
      RemovingClears(Apply(s, i, RemoveLeaf(p)), i);
      BeforeClear(s, i, RemoveLeaf(p));
    }
  }

  /** Whatever a call did, its cleanup can go on to its end, and leaves no staging tree that it had opened. */
  lemma {:induction false} CleanupEnds(states: seq<State>, k: nat, i: nat)
    requires IsRun(states) && k < |states| && i < |states[k].callers| && states[k].callers[i].pc.Cleaning?
    requires states[k].callers[i].stage.Some? || states[k].callers[i].StageName() !in states[k].names
    ensures Clears(states[k], i)
  {
    RunInv(states, k);
    RunStagesRight(states, k);
    var s := states[k];
    assert Sound(s);
    hide IsRun;
    hide Clears;
    SoundNext(s, i, StatStage);
    hide Sound;
    if s.callers[i].StageName() in s.names {
      RemovingClears(Apply(s, i, StatStage), i);
    } else {
      ClosingClears(Apply(s, i, StatStage), i);
    }
    BeforeClear(s, i, StatStage);
  }
}
