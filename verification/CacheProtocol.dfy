/**
 * Cooperating callers of the authenticated cache: each step is one system call (or one file of a walk) of one caller,
 * in any interleaving, with an exception or a crash possible before every step.
 *
 * The cache root maps names to directory inodes; an inode keeps its tree wherever it is linked. A tree is flat: it
 * maps the relative path of every file and directory below it to that entry. Digests are ideal, so a record's digest
 * is its content. A caller's staging descriptor is an inode, not a name.
 */
module CacheProtocol {
  import opened Bytes

  type Path = seq<string>
  datatype Entry = Directory(mode: nat) | File(mode: nat, content: seq<byte>)
  type Tree = map<Path, Entry>

  const PRIVATE_DIRECTORY := 448  // 0700
  const PRIVATE_FILE := 384       // 0600

  /** The signed files of one manifest; directories are what their paths imply. */
  datatype Document = Document(files: map<Path, Entry>) {
    /** `_manifest` accepts ordinary files only, and no file that is also the parent of another. */
    ghost predicate Valid() {
      files.Keys !! Directories() && forall p :: p in files ==> files[p].File?
    }

    function Directories(): set<Path> {
      set p, k | p in files && 0 < k < |p| :: p[..k]
    }

    /** Exactly the signed tree. */
    function Signed(): Tree {
      map p | p in files.Keys + Directories() :: if p in files then files[p] else Directory(PRIVATE_DIRECTORY)
    }
  }

  datatype Name = Final(id: nat) | Stage(id: nat, uid: nat)
  datatype Outcome = Leased(ino: nat) | Failed

  datatype Pc =
    | Start                                                                 // lock not yet held
    | Locked                                                                // before the first stat
    | Missing                                                               // stat found nothing
    | Downloaded
    | Made                                                                  // staging created, not yet opened
    | Extracting(seen: set<Path>, writing: Option<Path>)
    | Listed(final: bool, ino: nat, listing: set<Path>, checked: set<Path>) // inside _verify
    | StageVerified
    | Renamed
    | Reporting                                                             // about to verify the published tree
    | Ready(ino: nat)                                                       // lease built, final report pending
    | Cleaning(outcome: Outcome)                                            // the finally block
    | Removing(outcome: Outcome)
    | Closing(outcome: Outcome)
    | Finished(outcome: Outcome)
    | Crashed

  datatype Caller = Caller(id: nat, uid: nat, online: bool, stage: Option<nat>, pc: Pc) {
    function StageName(): Name { Stage(id, uid) }
    predicate Holding() { !pc.Start? && !pc.Finished? && !pc.Crashed? }
    /** Between a stat that found no published entry and the rename. */
    predicate Installing() {
      pc.Missing? || pc.Downloaded? || pc.Made? || pc.Extracting? || (pc.Listed? && !pc.final) || pc.StageVerified?
    }
  }

  datatype State = State(
    docs: nat -> Document, names: map<Name, nat>, trees: map<nat, Tree>, holder: map<nat, nat>, callers: seq<Caller>)

  datatype Act =
    | TakeLock | StatFound | StatMissing | Download
    | MakeStage(ino: nat) | OpenStage
    | MakeParent(dir: Path) | CreateFile(path: Path, mode: nat, content: seq<byte>)
    | WritePart(part: seq<byte>) | FinishFile
    | List(final: bool) | Check(path: Path) | VerifyDone
    | Rename | Sync | Report
    | Raise | Crash
    | StatStage | RemoveLeaf(path: Path) | RemoveStage | CloseAll

  function Doc(s: State, c: Caller): Document {
    s.docs(c.id)
  }

  function With(s: State, i: nat, c: Caller): State
    requires i < |s.callers|
  {
    s.(callers := s.callers[i := c])
  }

  function Move(s: State, i: nat, pc: Pc): State
    requires i < |s.callers|
  {
    With(s, i, s.callers[i].(pc := pc))
  }

  /** `_verify` on one path of the tree it walks. */
  predicate EntryRight(doc: Document, tree: Tree, p: Path) {
    p in tree &&
    if p in doc.Directories() then tree[p] == Directory(PRIVATE_DIRECTORY)
    else p in doc.files && tree[p] == doc.files[p]
  }

  /** The descriptor a caller's extraction and removal go through. */
  predicate StageOpen(s: State, c: Caller) {
    c.stage.Some? && c.stage.value in s.trees
  }

  predicate Enabled(s: State, i: nat, a: Act)
    requires i < |s.callers|
  {
    var c := s.callers[i];
    match a
    case TakeLock => c.pc.Start? && c.id !in s.holder
    case StatFound => c.pc.Locked? && Final(c.id) in s.names
    case StatMissing => c.pc.Locked? && Final(c.id) !in s.names
    case Download => c.pc.Missing? && c.online
    case MakeStage(ino) => c.pc.Downloaded? && ino !in s.trees && c.StageName() !in s.names
    case OpenStage => c.pc.Made? && c.StageName() in s.names
    case MakeParent(dir) =>
      && c.pc.Extracting? && c.pc.writing.None? && StageOpen(s, c)
      && dir in Doc(s, c).Directories() && dir !in s.trees[c.stage.value]
    // Only a member that was not seen before and matches its signed record is written.
    case CreateFile(path, mode, content) =>
      && c.pc.Extracting? && c.pc.writing.None? && StageOpen(s, c)
      && path in Doc(s, c).files && path !in c.pc.seen && File(mode, content) == Doc(s, c).files[path]
      && path !in s.trees[c.stage.value]
      && forall k :: 0 < k < |path| ==>
           path[..k] in s.trees[c.stage.value] && s.trees[c.stage.value][path[..k]].Directory?
    case WritePart(_) => c.pc.Extracting? && c.pc.writing.Some? && StageOpen(s, c)
    case FinishFile =>
      c.pc.Extracting? && c.pc.writing.Some? && StageOpen(s, c) && c.pc.writing.value in Doc(s, c).files
    case List(final) =>
      && (if final then c.pc.Reporting?
          else c.pc.Extracting? && c.pc.writing.None? && c.pc.seen == Doc(s, c).files.Keys)
      && Walked(c, final) in s.names && s.names[Walked(c, final)] in s.trees
    case Check(path) =>
      && c.pc.Listed? && path in c.pc.listing && path !in c.pc.checked
      && c.pc.ino in s.trees && EntryRight(Doc(s, c), s.trees[c.pc.ino], path)
    case VerifyDone =>
      && c.pc.Listed? && c.pc.checked == c.pc.listing
      && c.pc.checked == Doc(s, c).files.Keys + Doc(s, c).Directories()
    case Rename =>
      c.pc.StageVerified? && c.StageName() in s.names &&
      (Final(c.id) in s.names ==> s.names[Final(c.id)] in s.trees)
    case Sync => c.pc.Renamed?
    case Report => c.pc.Ready?
    case Raise => c.pc.Start? || (c.Holding() && !c.pc.Closing?)
    case Crash => !c.pc.Finished? && !c.pc.Crashed?
    case StatStage => c.pc.Cleaning?
    case RemoveLeaf(path) =>
      && c.pc.Removing? && StageOpen(s, c) && path in s.trees[c.stage.value]
      && forall q :: q in s.trees[c.stage.value] ==> !(path < q)
    case RemoveStage =>
      && c.pc.Removing? && c.StageName() in s.names && s.names[c.StageName()] in s.trees
      && s.trees[s.names[c.StageName()]] == map[]
    case CloseAll => c.pc.Closing?
  }

  /** The name `_verify` opens. */
  function Walked(c: Caller, final: bool): Name {
    if final then Final(c.id) else c.StageName()
  }

  /** A write through the caller's staging descriptor. */
  function WriteStage(s: State, i: nat, tree: Tree, pc: Pc): State
    requires i < |s.callers| && s.callers[i].stage.Some?
  {
    Move(s, i, pc).(trees := s.trees[s.callers[i].stage.value := tree])
  }

  function Apply(s: State, i: nat, a: Act): State
    requires i < |s.callers| && Enabled(s, i, a)
  {
    var c := s.callers[i];
    match a
    case TakeLock => Move(s, i, Locked).(holder := s.holder[c.id := i])
    case StatFound => Move(s, i, Reporting)
    case StatMissing => Move(s, i, Missing)
    case Download => Move(s, i, Downloaded)
    case MakeStage(ino) => Move(s, i, Made).(names := s.names[c.StageName() := ino], trees := s.trees[ino := map[]])
    case OpenStage => With(s, i, c.(stage := Some(s.names[c.StageName()]), pc := Extracting({}, None)))
    case MakeParent(dir) => WriteStage(s, i, s.trees[c.stage.value][dir := Directory(PRIVATE_DIRECTORY)], c.pc)
    case CreateFile(path, _, _) =>
      WriteStage(s, i, s.trees[c.stage.value][path := File(PRIVATE_FILE, [])],
                 Extracting(c.pc.seen + {path}, Some(path)))
    case WritePart(part) =>
      WriteStage(s, i, s.trees[c.stage.value][c.pc.writing.value := File(PRIVATE_FILE, part)], c.pc)
    case FinishFile =>
      WriteStage(s, i, s.trees[c.stage.value][c.pc.writing.value := Doc(s, c).files[c.pc.writing.value]],
                 c.pc.(writing := None))
    case List(final) =>
      var ino := s.names[Walked(c, final)];
      Move(s, i, Listed(final, ino, s.trees[ino].Keys, {}))
    case Check(path) => Move(s, i, c.pc.(checked := c.pc.checked + {path}))
    case VerifyDone => Move(s, i, if c.pc.final then Ready(c.pc.ino) else StageVerified)
    // Renaming onto a directory that is not empty fails.
    case Rename =>
      if Final(c.id) in s.names && s.trees[s.names[Final(c.id)]] != map[] then Move(s, i, Cleaning(Failed))
      else Move(s, i, Renamed).(names := (s.names - {c.StageName()})[Final(c.id) := s.names[c.StageName()]])
    case Sync => Move(s, i, Reporting)
    case Report => Move(s, i, Cleaning(Leased(c.pc.ino)))
    case Raise =>
      Move(s, i, if c.pc.Start? then Finished(Failed)
                 else if c.pc.Cleaning? || c.pc.Removing? then Closing(Failed)
                 else Cleaning(Failed))
    case Crash => Move(s, i, Crashed).(holder := if c.Holding() then s.holder - {c.id} else s.holder)
    // The descriptor still refers to the tree after a rename, so the staging name decides.
    case StatStage =>
      Move(s, i, if c.stage.Some? && c.StageName() in s.names then Removing(c.pc.outcome) else Closing(c.pc.outcome))
    case RemoveLeaf(path) => WriteStage(s, i, s.trees[c.stage.value] - {path}, c.pc)
    case RemoveStage => Move(s, i, Closing(c.pc.outcome)).(names := s.names - {c.StageName()})
    case CloseAll => Move(s, i, Finished(c.pc.outcome)).(holder := s.holder - {c.id})
  }

  // ---- The invariant ----

  ghost predicate NamesOk(s: State) {
    && (forall n :: n in s.names ==> s.names[n] in s.trees)
    && (forall m, n :: m in s.names && n in s.names && m != n ==> s.names[m] != s.names[n])
  }

  ghost predicate LockOk(s: State) {
    forall i :: 0 <= i < |s.callers| ==>
      (s.callers[i].Holding() <==> s.callers[i].id in s.holder && s.holder[s.callers[i].id] == i)
  }

  ghost predicate DistinctStages(s: State) {
    forall i, j :: 0 <= i < j < |s.callers| ==> s.callers[i].StageName() != s.callers[j].StageName()
  }

  ghost predicate LeaseOk(s: State, c: Caller, outcome: Outcome) {
    outcome.Leased? ==>
      && Final(c.id) in s.names && s.names[Final(c.id)] == outcome.ino && c.StageName() !in s.names
      && outcome.ino in s.trees && s.trees[outcome.ino] == s.docs(c.id).Signed()
  }

  /** The staging inode is never reachable but under its staging name or its published one. */
  ghost predicate StageOk(s: State, c: Caller) {
    c.stage.Some? ==>
      && c.stage.value in s.trees
      && (forall n :: n in s.names && s.names[n] == c.stage.value ==> n == c.StageName() || n == Final(c.id))
      && (c.StageName() in s.names ==> s.names[c.StageName()] == c.stage.value)
  }

  ghost predicate PcOk(s: State, c: Caller) {
    match c.pc
    case Start | Locked => c.stage.None? && c.StageName() !in s.names
    case Missing | Downloaded => c.stage.None? && c.StageName() !in s.names && Final(c.id) !in s.names
    case Made => c.stage.None? && c.StageName() in s.names && Final(c.id) !in s.names
    case Extracting(_, _) => c.stage.Some? && c.StageName() in s.names && Final(c.id) !in s.names
    case Listed(final, ino, listing, checked) =>
      && (if final then c.StageName() !in s.names
          else c.stage.Some? && c.StageName() in s.names && Final(c.id) !in s.names)
      && Walked(c, final) in s.names && s.names[Walked(c, final)] == ino && ino in s.trees
      && listing == s.trees[ino].Keys && checked <= listing
      && forall p :: p in checked ==> EntryRight(s.docs(c.id), s.trees[ino], p)
    case StageVerified =>
      && c.stage.Some? && c.StageName() in s.names && Final(c.id) !in s.names
      && c.stage.value in s.trees && s.trees[c.stage.value] == s.docs(c.id).Signed()
    case Renamed | Reporting => c.StageName() !in s.names && Final(c.id) in s.names
    case Ready(ino) => LeaseOk(s, c, Leased(ino))
    case Cleaning(outcome) => LeaseOk(s, c, outcome)
    case Removing(outcome) => outcome.Failed? && c.stage.Some? && c.StageName() in s.names
    case Closing(outcome) => LeaseOk(s, c, outcome)
    case Finished(outcome) => LeaseOk(s, c, outcome)
    case Crashed => true
  }

  ghost predicate CallersOk(s: State) {
    forall i :: 0 <= i < |s.callers| ==> StageOk(s, s.callers[i]) && PcOk(s, s.callers[i])
  }

  ghost predicate DocsOk(s: State) {
    forall id :: s.docs(id).Valid()
  }

  ghost predicate Inv(s: State) {
    DocsOk(s) && NamesOk(s) && LockOk(s) && DistinctStages(s) && CallersOk(s)
  }

  /** Callers that have not begun, with distinct staging names. Whatever is in the root, nobody vouches for it. */
  ghost predicate Initial(s: State) {
    && DocsOk(s) && NamesOk(s) && DistinctStages(s) && s.holder == map[]
    && forall i :: 0 <= i < |s.callers| ==>
         s.callers[i].pc == Start && s.callers[i].stage == None && s.callers[i].StageName() !in s.names
  }

  // ---- Steps ----

  /** Only caller `i` moves, and keeps its identity. */
  ghost predicate Moves(s: State, s': State, i: nat) {
    && i < |s.callers| == |s'.callers| && s'.docs == s.docs
    && s'.callers == s.callers[i := s'.callers[i]]
    && s'.callers[i].id == s.callers[i].id && s'.callers[i].uid == s.callers[i].uid
  }

  lemma {:induction false} DistinctKept(s: State, s': State, i: nat)
    requires DistinctStages(s) && Moves(s, s', i)
    ensures DistinctStages(s')
  {
    assert forall j :: 0 <= j < |s.callers| ==> s'.callers[j].StageName() == s.callers[j].StageName();
  }

  lemma {:induction false} LockKept(s: State, s': State, i: nat)
    requires LockOk(s) && Moves(s, s', i)
    requires var c, h := s.callers[i], s.callers[i].Holding(); var h' := s'.callers[i].Holding();
             s'.holder == if h == h' then s.holder else if h' then s.holder[c.id := i] else s.holder - {c.id}
    requires !s.callers[i].Holding() && s'.callers[i].Holding() ==> s.callers[i].id !in s.holder
    ensures LockOk(s')
  {
    assert forall j :: 0 <= j < |s.callers| && j != i ==> s'.callers[j] == s.callers[j];
  }

  /** A caller that does not move stays right when the names and trees it relies on stay. */
  lemma {:induction false} OtherKept(s: State, s': State, c: Caller)
    requires StageOk(s, c) && PcOk(s, c) && s'.docs == s.docs
    requires c.StageName() in s.names <==> c.StageName() in s'.names
    requires c.StageName() in s.names ==> s'.names[c.StageName()] == s.names[c.StageName()]
    requires Final(c.id) in s.names ==> Final(c.id) in s'.names && s'.names[Final(c.id)] == s.names[Final(c.id)]
    requires Final(c.id) in s.names && s.names[Final(c.id)] in s.trees ==>
               s.names[Final(c.id)] in s'.trees && s'.trees[s.names[Final(c.id)]] == s.trees[s.names[Final(c.id)]]
    requires c.Installing() ==> Final(c.id) !in s'.names
    requires c.stage.Some? ==> c.stage.value in s'.trees
    requires forall n :: n in s'.names && c.stage.Some? && s'.names[n] == c.stage.value ==>
               n in s.names && s.names[n] == s'.names[n]
    requires c.pc.Listed? ==> c.pc.ino in s'.trees && (c.pc.ino in s.trees ==> s'.trees[c.pc.ino] == s.trees[c.pc.ino])
    requires c.pc.StageVerified? && c.stage.Some? && c.stage.value in s.trees ==>
               c.stage.value in s'.trees && s'.trees[c.stage.value] == s.trees[c.stage.value]
    ensures StageOk(s', c) && PcOk(s', c)
  {
    hide EntryRight;
    if c.pc.Listed? {
      assert forall p ::
          EntryRight(s'.docs(c.id), s'.trees[c.pc.ino], p) == EntryRight(s.docs(c.id), s.trees[c.pc.ino], p);
    }
  }

  ghost predicate CallerOk(s: State, i: nat) {
    i < |s.callers| && StageOk(s, s.callers[i]) && PcOk(s, s.callers[i])
  }

  lemma {:induction false} CallersFrom(s: State, s': State, i: nat)
    requires Moves(s, s', i) && CallerOk(s', i)
    requires forall j :: 0 <= j < |s.callers| && j != i ==> CallerOk(s', j)
    ensures CallersOk(s')
  {
    hide StageOk;
    hide PcOk;
    forall j | 0 <= j < |s'.callers| ensures StageOk(s', s'.callers[j]) && PcOk(s', s'.callers[j]) {
      assert CallerOk(s', j);
    }
  }

  ghost predicate HolderMoves(s: State, s': State, i: nat)
    requires Moves(s, s', i)
  {
    var c, c' := s.callers[i], s'.callers[i];
    && s'.holder == (if c.Holding() == c'.Holding() then s.holder
                     else if c'.Holding() then s.holder[c.id := i] else s.holder - {c.id})
    && (!c.Holding() && c'.Holding() ==> c.id !in s.holder)
  }

  /** Steps that touch neither names nor trees. */
  lemma {:induction false} QuietInv(s: State, s': State, i: nat)
    requires Inv(s) && Moves(s, s', i) && HolderMoves(s, s', i) && s'.names == s.names && s'.trees == s.trees
    requires CallerOk(s', i)
    ensures Inv(s')
  {
    hide EntryRight;
    DistinctKept(s, s', i);
    LockKept(s, s', i);
    forall j | 0 <= j < |s.callers| && j != i ensures CallerOk(s', j) {
      assert s'.callers[j] == s.callers[j];
      hide StageOk;
      hide PcOk;
      OtherQuiet(s, s', s.callers[j]);
    }
    CallersFrom(s, s', i);
  }

  lemma {:induction false} OtherQuiet(s: State, s': State, c: Caller)
    requires StageOk(s, c) && PcOk(s, c) && s'.docs == s.docs && s'.names == s.names && s'.trees == s.trees
    ensures StageOk(s', c) && PcOk(s', c)
  {
    hide EntryRight;
    if c.pc.Listed? {
      assert forall p ::
          EntryRight(s'.docs(c.id), s'.trees[c.pc.ino], p) == EntryRight(s.docs(c.id), s.trees[c.pc.ino], p);
    }
  }

  /** A linked staging inode is not linked anywhere else: not as another staging entry, and not as a published one. */
  lemma {:induction false} StageIsPrivate(s: State, i: nat)
    requires NamesOk(s) && CallerOk(s, i) && s.callers[i].stage.Some? && s.callers[i].StageName() in s.names
    ensures forall n :: n in s.names && n != s.callers[i].StageName() ==> s.names[n] != s.callers[i].stage.value
  {
    hide PcOk;
  }

  /** Writing or removing through the staging descriptor while the staging name is still there. */
  lemma {:induction false} WriteInv(s: State, i: nat, tree: Tree, pc: Pc)
    requires Inv(s) && i < |s.callers| && s.callers[i].stage.Some? && s.callers[i].StageName() in s.names
    requires s.callers[i].Holding()
    requires (s.callers[i].pc.Extracting? && pc.Extracting?) || (s.callers[i].pc.Removing? && pc == s.callers[i].pc)
    ensures Inv(WriteStage(s, i, tree, pc))
  {
    hide EntryRight;
    var s' := WriteStage(s, i, tree, pc);
    var ino := s.callers[i].stage.value;
    assert CallerOk(s, i);
    StageIsPrivate(s, i);
    DistinctKept(s, s', i);
    LockKept(s, s', i);
    forall j | 0 <= j < |s.callers| && j != i ensures CallerOk(s', j) {
      OtherUnwritten(s, s', i, j);
    }
    CallersFrom(s, s', i);
  }

  lemma {:induction false} OtherUnwritten(s: State, s': State, i: nat, j: nat)
    requires Inv(s) && Moves(s, s', i) && j < |s.callers| && j != i && s'.names == s.names
    requires s.callers[i].stage.Some? && s.callers[i].StageName() in s.names
    requires s'.trees.Keys == s.trees.Keys
    requires forall k :: k in s.trees && k != s.callers[i].stage.value ==> s'.trees[k] == s.trees[k]
    ensures CallerOk(s', j)
  {
    hide EntryRight;
    hide LockOk;
    assert CallerOk(s, i) && CallerOk(s, j);
    StageIsPrivate(s, i);
    var c := s.callers[j];
    assert s'.callers[j] == c;
    assert c.StageName() != s.callers[i].StageName() by {
      if i < j { assert s.callers[i].StageName() != s.callers[j].StageName(); }
      else { assert s.callers[j].StageName() != s.callers[i].StageName(); }
    }
    OtherKept(s, s', c);
  }

  lemma {:induction false} StageNamesDiffer(s: State, i: nat, j: nat)
    requires DistinctStages(s) && i < |s.callers| && j < |s.callers| && i != j
    ensures s.callers[i].StageName() != s.callers[j].StageName()
  {
    if i < j { assert s.callers[i].StageName() != s.callers[j].StageName(); }
    else { assert s.callers[j].StageName() != s.callers[i].StageName(); }
  }

  lemma {:induction false} MakeStageOther(s: State, i: nat, ino: nat, j: nat)
    requires Inv(s) && i < |s.callers| && j < |s.callers| && i != j && Enabled(s, i, MakeStage(ino))
    ensures CallerOk(Apply(s, i, MakeStage(ino)), j)
  {
    hide EntryRight;
    hide DocsOk;
    hide LockOk;
    assert CallerOk(s, i) && CallerOk(s, j);
    var s' := Apply(s, i, MakeStage(ino));
    assert s'.callers[j] == s.callers[j];
    StageNamesDiffer(s, i, j);
    OtherKept(s, s', s.callers[j]);
  }

  lemma {:induction false} MakeStageInv(s: State, i: nat, ino: nat)
    requires Inv(s) && i < |s.callers| && Enabled(s, i, MakeStage(ino))
    ensures Inv(Apply(s, i, MakeStage(ino)))
  {
    hide EntryRight;
    var s' := Apply(s, i, MakeStage(ino));
    assert CallerOk(s, i);
    DistinctKept(s, s', i);
    LockKept(s, s', i);
    forall j | 0 <= j < |s.callers| && j != i ensures CallerOk(s', j) { MakeStageOther(s, i, ino, j); }
    CallersFrom(s, s', i);
  }

  /** Two callers of one identity are not both between their stat and their rename. */
  lemma {:induction false} OneInstaller(s: State, i: nat, j: nat)
    requires LockOk(s) && i < |s.callers| && j < |s.callers| && i != j
    requires s.callers[i].Holding() && s.callers[j].Holding()
    ensures s.callers[i].id != s.callers[j].id
  {}

  lemma {:induction false} RenameOther(s: State, i: nat, j: nat)
    requires Inv(s) && i < |s.callers| && j < |s.callers| && i != j && Enabled(s, i, Rename)
    ensures CallerOk(Apply(s, i, Rename), j)
  {
    hide EntryRight;
    hide DocsOk;
    assert CallerOk(s, i) && CallerOk(s, j);
    var s' := Apply(s, i, Rename);
    assert s'.callers[j] == s.callers[j];
    StageNamesDiffer(s, i, j);
    if s.callers[i].stage.Some? && s.callers[i].StageName() in s.names { StageIsPrivate(s, i); }
    if s.callers[j].Installing() { OneInstaller(s, i, j); }
    OtherKept(s, s', s.callers[j]);
  }

  lemma {:induction false} RenameInv(s: State, i: nat)
    requires Inv(s) && i < |s.callers| && Enabled(s, i, Rename)
    ensures Inv(Apply(s, i, Rename))
  {
    hide EntryRight;
    assert CallerOk(s, i);
    var c := s.callers[i];
    assert Final(c.id) !in s.names;
    var s' := Apply(s, i, Rename);
    StageIsPrivate(s, i);
    DistinctKept(s, s', i);
    LockKept(s, s', i);
    forall j | 0 <= j < |s.callers| && j != i ensures CallerOk(s', j) { RenameOther(s, i, j); }
    CallersFrom(s, s', i);
  }

  lemma {:induction false} RemoveStageOther(s: State, i: nat, j: nat)
    requires Inv(s) && i < |s.callers| && j < |s.callers| && i != j && Enabled(s, i, RemoveStage)
    ensures CallerOk(Apply(s, i, RemoveStage), j)
  {
    hide EntryRight;
    hide DocsOk;
    hide LockOk;
    assert CallerOk(s, i) && CallerOk(s, j);
    var s' := Apply(s, i, RemoveStage);
    assert s'.callers[j] == s.callers[j];
    StageNamesDiffer(s, i, j);
    if s.callers[i].stage.Some? && s.callers[i].StageName() in s.names { StageIsPrivate(s, i); }
    OtherKept(s, s', s.callers[j]);
  }

  lemma {:induction false} RemoveStageNames(s: State, i: nat)
    requires NamesOk(s) && i < |s.callers| && Enabled(s, i, RemoveStage)
    ensures NamesOk(Apply(s, i, RemoveStage))
  {
    hide EntryRight;
  }

  lemma {:induction false} RemoveStageInv(s: State, i: nat)
    requires Inv(s) && i < |s.callers| && Enabled(s, i, RemoveStage)
    ensures Inv(Apply(s, i, RemoveStage))
  {
    hide EntryRight;
    hide NamesOk;
    assert CallerOk(s, i);
    var s' := Apply(s, i, RemoveStage);
    DistinctKept(s, s', i);
    LockKept(s, s', i);
    RemoveStageNames(s, i);
    forall j | 0 <= j < |s.callers| && j != i ensures CallerOk(s', j) { RemoveStageOther(s, i, j); }
    CallersFrom(s, s', i);
    hide LockOk;
    hide DistinctStages;
  }

  /** A walk that checked every name it listed, and found all it expected, saw exactly the signed tree. */
  lemma {:induction false} VerifiedIsSigned(doc: Document, tree: Tree)
    requires tree.Keys == doc.files.Keys + doc.Directories()
    requires forall p :: p in tree ==> EntryRight(doc, tree, p)
    requires doc.Valid()
    ensures tree == doc.Signed()
  {
    forall p | p in tree ensures tree[p] == doc.Signed()[p] { assert EntryRight(doc, tree, p); }
  }

  /** The acts that touch neither names nor trees. */
  predicate Quiet(s: State, i: nat, a: Act)
    requires i < |s.callers|
  {
    match a
    case MakeStage(_) | MakeParent(_) | CreateFile(_, _, _) | WritePart(_) | FinishFile | RemoveLeaf(_)
      | RemoveStage => false
    case Rename => false
    case _ => true
  }

  lemma {:induction false} QuietMoves(s: State, i: nat, a: Act)
    requires LockOk(s) && i < |s.callers| && Enabled(s, i, a) && Quiet(s, i, a)
    ensures var s' := Apply(s, i, a);
            Moves(s, s', i) && HolderMoves(s, s', i) && s'.names == s.names && s'.trees == s.trees
  {
    hide EntryRight;
    QuietFrame(s, i, a);
    hide Moves;
    if a.Raise? || a.Crash? || a.CloseAll? || a.TakeLock? { LockMoves(s, i, a); } else { hide LockOk; }
  }

  lemma {:induction false} QuietFrame(s: State, i: nat, a: Act)
    requires i < |s.callers| && Enabled(s, i, a) && Quiet(s, i, a)
    ensures var s' := Apply(s, i, a); Moves(s, s', i) && s'.names == s.names && s'.trees == s.trees
  {
    hide EntryRight;
    hide Enabled;
  }

  lemma {:induction false} LockMoves(s: State, i: nat, a: Act)
    requires LockOk(s) && i < |s.callers| && Enabled(s, i, a) && (a.Raise? || a.Crash? || a.CloseAll? || a.TakeLock?)
    requires Moves(s, Apply(s, i, a), i)
    ensures HolderMoves(s, Apply(s, i, a), i)
  {
    hide EntryRight;
    hide Moves;
    var c := s.callers[i];
    assert c.Holding() <==> c.id in s.holder && s.holder[c.id] == i;
    hide LockOk;
  }

  predicate Ending(a: Act) {
    a.Raise? || a.Crash? || a.StatStage? || a.CloseAll? || a.Report?
  }

  lemma {:induction false} RaiseCaller(s: State, i: nat)
    requires CallerOk(s, i) && Enabled(s, i, Raise)
    ensures CallerOk(Apply(s, i, Raise), i)
  {
    hide EntryRight;
    hide StageOk;
    StageKept(s, Apply(s, i, Raise), i);
  }

  /** Whether a caller's staging inode is private depends on names, trees and the caller's identity only. */
  lemma {:induction false} StageKept(s: State, s': State, i: nat)
    requires i < |s.callers| == |s'.callers| && StageOk(s, s.callers[i])
    requires s'.names == s.names && s'.trees == s.trees && s'.callers[i] == s.callers[i].(pc := s'.callers[i].pc)
    ensures StageOk(s', s'.callers[i])
  {}

  lemma {:induction false} StatStageCaller(s: State, i: nat)
    requires CallerOk(s, i) && Enabled(s, i, StatStage)
    ensures CallerOk(Apply(s, i, StatStage), i)
  {
    hide EntryRight;
    hide StageOk;
    StageKept(s, Apply(s, i, StatStage), i);
  }

  lemma {:induction false} EndingCaller(s: State, i: nat, a: Act)
    requires CallerOk(s, i) && Enabled(s, i, a) && Ending(a)
    ensures CallerOk(Apply(s, i, a), i)
  {
    hide EntryRight;
    hide StageOk;
    match a {
      case Raise => RaiseCaller(s, i);
      case StatStage => StatStageCaller(s, i);
      case Crash => StageKept(s, Apply(s, i, a), i);
      case CloseAll => LastCaller(s, i, a);
      case Report => LastCaller(s, i, a);
    }
  }

  lemma {:induction false} LastCaller(s: State, i: nat, a: Act)
    requires CallerOk(s, i) && Enabled(s, i, a) && (a.CloseAll? || a.Report?)
    ensures CallerOk(Apply(s, i, a), i)
  {
    hide EntryRight;
    hide StageOk;
    StageKept(s, Apply(s, i, a), i);
  }

  lemma {:induction false} QuietCaller(s: State, i: nat, a: Act)
    requires NamesOk(s) && CallerOk(s, i) && Enabled(s, i, a) && Quiet(s, i, a) && !Ending(a)
    requires !a.Check? && !a.VerifyDone? && !a.List?
    ensures CallerOk(Apply(s, i, a), i)
  {
    hide EntryRight;
  }

  lemma {:induction false} ListCaller(s: State, i: nat, a: Act)
    requires Inv(s) && i < |s.callers| && Enabled(s, i, a) && a.List?
    ensures CallerOk(Apply(s, i, a), i)
  {
    hide EntryRight;
    hide LockOk;
    hide DistinctStages;
    assert CallerOk(s, i);
  }

  lemma {:induction false} CheckCaller(s: State, i: nat, a: Act)
    requires CallerOk(s, i) && i < |s.callers| && Enabled(s, i, a) && a.Check?
    ensures CallerOk(Apply(s, i, a), i)
  {
    hide EntryRight;
  }

  lemma {:induction false} VerifyCaller(s: State, i: nat, a: Act)
    requires Inv(s) && i < |s.callers| && Enabled(s, i, a) && (a.Check? || a.VerifyDone? || a.List?)
    ensures CallerOk(Apply(s, i, a), i)
  {
    hide EntryRight;
    hide LockOk;
    hide DistinctStages;
    assert CallerOk(s, i);
    if a.List? {
      ListCaller(s, i, a);
    } else if a.Check? {
      CheckCaller(s, i, a);
    } else {
      VerifiedCaller(s, i);
    }
  }

  lemma {:induction false} VerifiedCaller(s: State, i: nat)
    requires Inv(s) && i < |s.callers| && Enabled(s, i, VerifyDone)
    ensures CallerOk(Apply(s, i, VerifyDone), i)
  {
    hide EntryRight;
    hide LockOk;
    hide DistinctStages;
    assert CallerOk(s, i);
    var c := s.callers[i];
    assert s.docs(c.id).Valid();
    VerifiedIsSigned(s.docs(c.id), s.trees[c.pc.ino]);
  }

  /** Every step of every caller keeps the invariant. */
  lemma {:induction false} StepInv(s: State, i: nat, a: Act)
    requires Inv(s) && i < |s.callers| && Enabled(s, i, a)
    ensures Inv(Apply(s, i, a))
  {
    hide EntryRight;
    if Quiet(s, i, a) {
      hide Apply;
      hide Inv;
      InvParts(s, i);
      if a.Check? || a.VerifyDone? || a.List? { VerifyCaller(s, i, a); }
      else if Ending(a) { EndingCaller(s, i, a); }
      else { QuietCaller(s, i, a); }
      QuietMoves(s, i, a);
      QuietInv(s, Apply(s, i, a), i);
    } else {
      WritingInv(s, i, a);
    }
  }

  lemma {:induction false} InvParts(s: State, i: nat)
    requires Inv(s) && i < |s.callers|
    ensures NamesOk(s) && LockOk(s) && CallerOk(s, i)
  {
    hide EntryRight;
  }

  lemma {:induction false} WritingInv(s: State, i: nat, a: Act)
    requires Inv(s) && i < |s.callers| && Enabled(s, i, a) && !Quiet(s, i, a)
    ensures Inv(Apply(s, i, a))
  {
    hide EntryRight;
    hide LockOk;
    hide NamesOk;
    hide DistinctStages;
    hide StageOk;
    hide DocsOk;
    assert CallerOk(s, i);
    var c := s.callers[i];
    match a {
      case MakeStage(ino) => MakeStageInv(s, i, ino);
      case MakeParent(dir) => WriteInv(s, i, s.trees[c.stage.value][dir := Directory(PRIVATE_DIRECTORY)], c.pc);
      case CreateFile(path, _, _) =>
        WriteInv(s, i, s.trees[c.stage.value][path := File(PRIVATE_FILE, [])],
                 Extracting(c.pc.seen + {path}, Some(path)));
      case WritePart(part) =>
        WriteInv(s, i, s.trees[c.stage.value][c.pc.writing.value := File(PRIVATE_FILE, part)], c.pc);
      case FinishFile =>
        WriteInv(s, i, s.trees[c.stage.value][c.pc.writing.value := Doc(s, c).files[c.pc.writing.value]],
                 c.pc.(writing := None));
      case Rename => RenameInv(s, i);
      case RemoveLeaf(path) => WriteInv(s, i, s.trees[c.stage.value] - {path}, c.pc);
      case RemoveStage => RemoveStageInv(s, i);
      case _ =>
    }
  }

  // ---- Runs ----

  ghost predicate Next(s: State, s': State) {
    exists i, a :: 0 <= i < |s.callers| && Enabled(s, i, a) && s' == Apply(s, i, a)
  }

  ghost predicate IsRun(states: seq<State>) {
    |states| > 0 && Initial(states[0]) && forall k :: 0 <= k < |states| - 1 ==> Next(states[k], states[k + 1])
  }

  /** A published inode stays under its name, with its tree, whatever anyone does. */
  ghost predicate KeepsPublished(s: State, s': State) {
    && s'.docs == s.docs && |s'.callers| == |s.callers|
    && (forall i :: 0 <= i < |s.callers| ==> s'.callers[i].id == s.callers[i].id)
    && forall id :: Final(id) in s.names && s.names[Final(id)] in s.trees ==>
      && Final(id) in s'.names && s'.names[Final(id)] == s.names[Final(id)]
      && s'.names[Final(id)] in s'.trees && s'.trees[s'.names[Final(id)]] == s.trees[s.names[Final(id)]]
  }

  lemma {:induction false} StepKeepsPublished(s: State, i: nat, a: Act)
    requires Inv(s) && i < |s.callers| && Enabled(s, i, a)
    ensures KeepsPublished(s, Apply(s, i, a))
  {
    hide Inv;
    InvParts(s, i);
    if Quiet(s, i, a) {
      hide Apply;
      QuietMoves(s, i, a);
    } else {
      WritingKeepsPublished(s, i, a);
    }
  }

  lemma {:induction false} WriteKeepsPublished(s: State, i: nat, tree: Tree, pc: Pc)
    requires NamesOk(s) && CallerOk(s, i) && s.callers[i].stage.Some? && s.callers[i].StageName() in s.names
    ensures KeepsPublished(s, WriteStage(s, i, tree, pc))
  {
    StageIsPrivate(s, i);
    hide StageOk;
    hide PcOk;
    hide NamesOk;
  }

  lemma {:induction false} RelinkKeepsPublished(s: State, i: nat, a: Act)
    requires NamesOk(s) && CallerOk(s, i) && Enabled(s, i, a) && (a.MakeStage? || a.Rename? || a.RemoveStage?)
    ensures KeepsPublished(s, Apply(s, i, a))
  {
    hide EntryRight;
    hide StageOk;
    hide NamesOk;
  }

  /** Writes go to the private staging inode; new names are not published ones, and a rename finds its target absent. */
  lemma {:induction false} WritingKeepsPublished(s: State, i: nat, a: Act)
    requires NamesOk(s) && CallerOk(s, i) && Enabled(s, i, a) && !Quiet(s, i, a)
    ensures KeepsPublished(s, Apply(s, i, a))
  {
    hide EntryRight;
    hide StageOk;
    hide NamesOk;
    hide KeepsPublished;
    hide WriteStage;
    var c := s.callers[i];
    match a {
      case MakeParent(dir) =>
        WriteKeepsPublished(s, i, s.trees[c.stage.value][dir := Directory(PRIVATE_DIRECTORY)], c.pc);
      case CreateFile(path, _, _) =>
        WriteKeepsPublished(s, i, s.trees[c.stage.value][path := File(PRIVATE_FILE, [])],
                            Extracting(c.pc.seen + {path}, Some(path)));
      case WritePart(part) =>
        WriteKeepsPublished(s, i, s.trees[c.stage.value][c.pc.writing.value := File(PRIVATE_FILE, part)], c.pc);
      case FinishFile =>
        WriteKeepsPublished(s, i, s.trees[c.stage.value][c.pc.writing.value := Doc(s, c).files[c.pc.writing.value]],
                            c.pc.(writing := None));
      case RemoveLeaf(path) => WriteKeepsPublished(s, i, s.trees[c.stage.value] - {path}, c.pc);
      case _ => RelinkKeepsPublished(s, i, a);
    }
  }

  lemma {:induction false} InitialInv(s: State)
    requires Initial(s)
    ensures Inv(s)
  {}

  lemma {:induction false} RunInv(states: seq<State>, k: nat)
    requires IsRun(states) && k < |states|
    ensures Inv(states[k])
    decreases k
  {
    hide Inv;
    hide Apply;
    hide Enabled;
    if k == 0 {
      InitialInv(states[0]);
    } else {
      RunInv(states, k - 1);
      assert Next(states[k - 1], states[k]);
      var i, a :| 0 <= i < |states[k - 1].callers| && Enabled(states[k - 1], i, a)
        && states[k] == Apply(states[k - 1], i, a);
      StepInv(states[k - 1], i, a);
    }
  }

  lemma {:induction false} RunKeepsPublished(states: seq<State>, j: nat, k: nat)
    requires IsRun(states) && j <= k < |states|
    ensures KeepsPublished(states[j], states[k])
    decreases k - j
  {
    hide Inv;
    hide Apply;
    hide Enabled;
    if j < k {
      RunKeepsPublished(states, j, k - 1);
      RunInv(states, k - 1);
      assert Next(states[k - 1], states[k]);
      var i, a :| 0 <= i < |states[k - 1].callers| && Enabled(states[k - 1], i, a)
        && states[k] == Apply(states[k - 1], i, a);
      StepKeepsPublished(states[k - 1], i, a);
    }
  }

  // ---- What the cache promises ----

  /** Nothing is published under the identity, or exactly the signed tree. */
  ghost predicate AbsentOrSigned(s: State, id: nat) {
    Final(id) in s.names ==>
      s.names[Final(id)] in s.trees && s.trees[s.names[Final(id)]] == s.docs(id).Signed()
  }

  /** What a step publishes is the tree it verified. */
  lemma {:induction false} StepPublishesSigned(s: State, i: nat, a: Act, id: nat)
    requires Inv(s) && i < |s.callers| && Enabled(s, i, a) && AbsentOrSigned(s, id)
    ensures AbsentOrSigned(Apply(s, i, a), id)
  {
    hide EntryRight;
    InvParts(s, i);
    StepKeepsPublished(s, i, a);
    hide Inv;
    hide StageOk;
    if a.Rename? {
      RenamedTree(s, i);
    } else if Final(id) !in s.names {
      hide NamesOk;
      hide PcOk;
    } else {
      hide Apply;
    }
  }

  lemma {:induction false} RenamedTree(s: State, i: nat)
    requires NamesOk(s) && CallerOk(s, i) && Enabled(s, i, Rename)
    ensures var c := s.callers[i]; var ino := s.names[c.StageName()];
            ino in s.trees && s.trees[ino] == s.docs(c.id).Signed()
  {
    hide EntryRight;
  }

  /**
   * At every moment of every run an entry that was absent or signed at the start is absent or exactly the signed tree,
   * and once there it is never replaced, emptied or removed.
   */
  lemma {:induction false} PublishedIsSigned(states: seq<State>, j: nat, k: nat, id: nat)
    requires IsRun(states) && j <= k < |states| && AbsentOrSigned(states[0], id)
    ensures AbsentOrSigned(states[j], id)
    ensures Final(id) in states[j].names ==>
              Final(id) in states[k].names && states[k].names[Final(id)] == states[j].names[Final(id)]
              && AbsentOrSigned(states[k], id)
    decreases j
  {
    hide Apply;
    hide Enabled;
    hide Inv;
    if j > 0 {
      PublishedIsSigned(states, j - 1, j - 1, id);
      RunInv(states, j - 1);
      assert Next(states[j - 1], states[j]);
      var i, a :| 0 <= i < |states[j - 1].callers| && Enabled(states[j - 1], i, a)
        && states[j] == Apply(states[j - 1], i, a);
      StepPublishesSigned(states[j - 1], i, a, id);
    }
    RunKeepsPublished(states, j, k);
  }

  /**
   * Only the published, signed tree is ever leased, whatever the root held at the start, and the lease stays good for
   * the rest of the run.
   */
  lemma {:induction false} OnlySignedTreesAreLeased(states: seq<State>, j: nat, k: nat, i: nat)
    requires IsRun(states) && j <= k < |states| && i < |states[j].callers|
    requires states[j].callers[i].pc.Finished? && states[j].callers[i].pc.outcome.Leased?
    ensures var c := states[j].callers[i]; var ino := c.pc.outcome.ino;
            && ino in states[k].trees && states[k].trees[ino] == states[k].docs(c.id).Signed()
            && Final(c.id) in states[k].names && states[k].names[Final(c.id)] == ino
  {
    hide IsRun;
    hide LockOk;
    hide StageOk;
    hide DistinctStages;
    hide NamesOk;
    hide EntryRight;
    hide KeepsPublished;
    RunInv(states, j);
    var c := states[j].callers[i];
    assert PcOk(states[j], c);
    RunKeepsPublished(states, j, k);
    EntryKept(states[j], states[k], c.id);
    SameDocs(states[j], states[k]);
  }

  lemma {:induction false} EntryKept(s: State, s': State, id: nat)
    requires KeepsPublished(s, s') && Final(id) in s.names && s.names[Final(id)] in s.trees
    ensures Final(id) in s'.names && s'.names[Final(id)] == s.names[Final(id)]
    ensures s'.names[Final(id)] in s'.trees && s'.trees[s'.names[Final(id)]] == s.trees[s.names[Final(id)]]
  {}

  /** An entry that is not the signed tree is never leased, however long it stays. */
  lemma {:induction false} UnsignedNeverLeased(states: seq<State>, k: nat, i: nat)
    requires IsRun(states) && k < |states| && i < |states[0].callers|
    requires var id := states[0].callers[i].id; Final(id) in states[0].names && !AbsentOrSigned(states[0], id)
    ensures i < |states[k].callers|
    ensures states[k].callers[i].pc.Finished? ==> states[k].callers[i].pc.outcome.Failed?
  {
    hide IsRun;
    hide Inv;
    RunInv(states, 0);
    NamesLinked(states[0]);
    RunKeepsPublished(states, 0, k);
    var id := states[0].callers[i].id;
    EntryKept(states[0], states[k], id);
    SameDocs(states[0], states[k]);
    if states[k].callers[i].pc.Finished? && states[k].callers[i].pc.outcome.Leased? {
      OnlySignedTreesAreLeased(states, k, k, i);
    }
  }

  lemma {:induction false} NamesLinked(s: State)
    requires Inv(s)
    ensures forall n :: n in s.names ==> s.names[n] in s.trees
  {
    hide CallersOk;
    hide LockOk;
  }

  lemma {:induction false} SameDocs(s: State, s': State)
    requires KeepsPublished(s, s')
    ensures s'.docs == s.docs
  {}

  /** The cleanup goes through the staging descriptor, and the inode it empties is published under no name. */
  lemma {:induction false} CleanupNeverReachesPublished(states: seq<State>, k: nat, i: nat, a: Act)
    requires IsRun(states) && k < |states| && i < |states[k].callers| && Enabled(states[k], i, a)
    requires a.RemoveLeaf? || a.RemoveStage?
    ensures states[k].callers[i].stage.Some?
    ensures forall id :: Final(id) in states[k].names ==>
              states[k].names[Final(id)] != states[k].callers[i].stage.value
  {
    hide IsRun;
    hide LockOk;
    hide DistinctStages;
    hide EntryRight;
    hide DocsOk;
    RunInv(states, k);
    assert CallerOk(states[k], i);
    StageIsPrivate(states[k], i);
  }

  /** The rename always finds its target absent: no two installers of one identity overlap. */
  lemma {:induction false} RenameFindsTargetAbsent(states: seq<State>, k: nat, i: nat)
    requires IsRun(states) && k < |states| && i < |states[k].callers| && Enabled(states[k], i, Rename)
    ensures Final(states[k].callers[i].id) !in states[k].names
    ensures Apply(states[k], i, Rename).callers[i].pc == Renamed
  {
    hide IsRun;
    hide LockOk;
    hide DistinctStages;
    hide EntryRight;
    hide DocsOk;
    RunInv(states, k);
    assert PcOk(states[k], states[k].callers[i]);
  }
}
