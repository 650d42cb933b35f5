/**
 * Acquisition bundles: what `create_acquisition_bundle` writes, what `verify_acquisition_bundle` accepts.
 * A bundle is a flat tree from paths to nodes. Digests are ideal and JSON is read back as it was written.
 */
module Bundle {
  import opened Bytes

  type Path = seq<string>

  const FILE_MODE := 384        // 0600
  const PLAIN_MODE := 420       // 0644
  const EXECUTABLE_MODE := 493  // 0755
  const MAX_SOURCE_FILES := 100000
  const MAX_SOURCE_BYTES := 536870912
  const MAX_ARTIFACTS := 4096
  const MAX_ARTIFACT_BYTES := 536870912
  const MAX_BUNDLE_BYTES := 1073741824

  datatype Content = Data(bytes: seq<byte>) | LockText(lock: Lock) | DescriptorText(d: Descriptor)
    | Marker(digest: Digest)
  // A file with several names counts as special, as `lstat` shows it.
  datatype Node = Directory | File(mode: nat, content: Content) | Link | Special
  type Tree = map<Path, Node>

  datatype Digest = OfContent(c: Content) | OfInventory(inventory: map<Path, Entry>) | OfUnsigned(u: Unsigned)
  datatype Entry = Entry(digest: Digest, size: nat, mode: nat)
  datatype Artifact = Artifact(filename: string, digest: Digest, size: nat, mode: nat)
  datatype Lock = Lock(manager: string, artifacts: seq<(string, Digest)>)

  /** The signed fields; those no check looks at (project, manager, request) are one opaque text. */
  datatype Unsigned = Unsigned(
    request: string, archivePath: Path, archiveDigest: Digest, treeDigest: Digest, inventory: map<Path, Entry>,
    artifacts: seq<Artifact>,
    lockPath: Path, lockDigest: Digest)
  datatype Descriptor = Descriptor(body: Unsigned, content: Digest, signature: string)

  /** How large a generated text is on disk, and which signatures the verifier accepts for which body. */
  datatype World = World(textSize: Content -> nat, accepts: (Unsigned, Digest, string) -> bool)

  function Size(w: World, c: Content): nat {
    if c.Data? then |c.bytes| else w.textSize(c)
  }

  const ARCHIVE: Path := ["source.tar.gz"]
  const DESCRIPTOR: Path := ["descriptor.json"]
  const COMPLETE: Path := ["COMPLETE"]
  const SOURCE := "source"
  const WHEELHOUSE := "wheelhouse"

  // ---- Verifying ----

  function NodeSize(w: World, n: Node): nat {
    if n.File? then Size(w, n.content) else 0
  }

  ghost function TotalSize(w: World, tree: Tree): nat {
    if tree == map[] then 0
    else
      var p :| p in tree;
      NodeSize(w, tree[p]) + TotalSize(w, tree - {p})
  }

  /** `_check_bundle_size`: directories and ordinary files only, within the byte limit. */
  ghost predicate SizeRight(w: World, tree: Tree) {
    (forall p :: p in tree ==> tree[p].Directory? || tree[p].File?) && TotalSize(w, tree) <= MAX_BUNDLE_BYTES
  }

  predicate PrivateFile(tree: Tree, p: Path) {
    p in tree && tree[p].File? && tree[p].mode == FILE_MODE
  }

  predicate Under(p: Path, top: string) {
    |p| > 1 && p[0] == top
  }

  /** The files below the source directory, keyed by the full path. */
  function Inventory(w: World, tree: Tree): map<Path, Entry> {
    map p | p in tree && Under(p, SOURCE) && tree[p].File? ::
      Entry(OfContent(tree[p].content), Size(w, tree[p].content), tree[p].mode)
  }

  predicate ArtifactRight(w: World, tree: Tree, a: Artifact) {
    PrivateFile(tree, [WHEELHOUSE, a.filename]) &&
    var c := tree[[WHEELHOUSE, a.filename]].content;
    Size(w, c) == a.size && a.mode == FILE_MODE && OfContent(c) == a.digest
  }

  predicate DistinctNames(artifacts: seq<Artifact>) {
    forall i, j :: 0 <= i < j < |artifacts| ==> artifacts[i].filename != artifacts[j].filename
  }

  function Filenames(artifacts: seq<Artifact>): set<string> {
    set i | 0 <= i < |artifacts| :: artifacts[i].filename
  }

  /** The files found directly in the wheelhouse; `iterdir` does not descend, and a directory there is refused. */
  predicate WheelhouseRight(tree: Tree, names: set<string>) {
    && [WHEELHOUSE] in tree && tree[[WHEELHOUSE]].Directory?
    && (forall p :: p in tree && |p| == 2 && p[0] == WHEELHOUSE ==> tree[p].File? && p[1] in names)
    && forall n :: n in names ==> [WHEELHOUSE, n] in tree
  }

  /** `verify_acquisition_bundle`: the descriptor of an accepted bundle. */
  ghost function Verify(w: World, tree: Tree): Option<Descriptor> {
    if !SizeRight(w, tree) then None
    else if !PrivateFile(tree, DESCRIPTOR) || !PrivateFile(tree, COMPLETE) || !PrivateFile(tree, ARCHIVE) then None
    else if !tree[DESCRIPTOR].content.DescriptorText? then None
    else
      var d := tree[DESCRIPTOR].content.d;
      var u := d.body;
      if !w.accepts(u, d.content, d.signature) then None
      else if d.content != OfUnsigned(u) then None
      else if tree[COMPLETE].content != Marker(d.content) then None
      else if u.archivePath !in tree || !tree[u.archivePath].File?
        || OfContent(tree[u.archivePath].content) != u.archiveDigest
      then None
      else if [SOURCE] !in tree || !tree[[SOURCE]].Directory? then None
      else if Inventory(w, tree) != u.inventory || OfInventory(Inventory(w, tree)) != u.treeDigest then None
      else if !DistinctNames(u.artifacts) then None
      else if exists i :: 0 <= i < |u.artifacts| && !ArtifactRight(w, tree, u.artifacts[i]) then None
      else if !WheelhouseRight(tree, Filenames(u.artifacts)) then None
      else if !PrivateFile(tree, u.lockPath) || OfContent(tree[u.lockPath].content) != u.lockDigest then None
      else Some(d)
  }

  /** Any walk over the tree adds up to the same total. */
  lemma {:induction false} TotalWithout(w: World, tree: Tree, p: Path)
    requires p in tree
    ensures TotalSize(w, tree) == NodeSize(w, tree[p]) + TotalSize(w, tree - {p})
    decreases |tree|
  {
    var q :| q in tree && TotalSize(w, tree) == NodeSize(w, tree[q]) + TotalSize(w, tree - {q});
    if q != p {
      TotalWithout(w, tree - {q}, p);
      TotalWithout(w, tree - {p}, q);
      assert tree - {q} - {p} == tree - {p} - {q};
    }
  }

  /** `_check_bundle_size`, visiting the nodes in any order. */
  method CheckBundleSize(w: World, tree: Tree) returns (ok: bool)
    ensures ok == SizeRight(w, tree)
  {
    var rest, total := tree, 0;
    while rest != map[]
      invariant forall p :: p in rest ==> p in tree && rest[p] == tree[p]
      invariant forall p :: p in tree && p !in rest ==> tree[p].Directory? || tree[p].File?
      invariant total + TotalSize(w, rest) == TotalSize(w, tree) && total <= MAX_BUNDLE_BYTES
      decreases |rest|
    {
      var p :| p in rest;
      TotalWithout(w, rest, p);
      if !tree[p].Directory? && !tree[p].File? { return false; }
      if NodeSize(w, tree[p]) > MAX_BUNDLE_BYTES - total { return false; }
      total := total + NodeSize(w, tree[p]);
      rest := rest - {p};
    }
    ok := true;
  }

  lemma {:induction false} FilenamesSnoc(done: seq<Artifact>, a: Artifact)
    ensures Filenames(done + [a]) == Filenames(done) + {a.filename}
  {
    var all := done + [a];
    assert all[|done|] == a;
    assert forall i :: 0 <= i < |done| ==> all[i] == done[i];
  }

  /** The loop over the records: the names it has seen, or None where it raises. */
  method VerifyArtifacts(w: World, tree: Tree, artifacts: seq<Artifact>) returns (seen: Option<set<string>>)
    ensures seen.Some? <==>
            DistinctNames(artifacts) && forall i :: 0 <= i < |artifacts| ==> ArtifactRight(w, tree, artifacts[i])
    ensures seen.Some? ==> seen.value == Filenames(artifacts)
  {
    var names: set<string> := {};
    for k := 0 to |artifacts|
      invariant names == Filenames(artifacts[..k])
      invariant DistinctNames(artifacts[..k]) && forall i :: 0 <= i < k ==> ArtifactRight(w, tree, artifacts[i])
    {
      var a := artifacts[k];
      if a.filename in names || !ArtifactRight(w, tree, a) { return None; }
      FilenamesSnoc(artifacts[..k], a);
      assert artifacts[..k + 1] == artifacts[..k] + [a];
      names := names + {a.filename};
    }
    assert artifacts[..|artifacts|] == artifacts;
    seen := Some(names);
  }

  /** No link and nothing special below the source directory. */
  ghost predicate SourcePlain(tree: Tree) {
    && [SOURCE] in tree && tree[[SOURCE]].Directory?
    && forall p :: p in tree && Under(p, SOURCE) ==> tree[p].Directory? || tree[p].File?
  }

  /** `_inventory_source`: the walk below the source directory, in any order. */
  method InventorySource(w: World, tree: Tree) returns (r: Option<map<Path, Entry>>)
    ensures r.Some? <==> SourcePlain(tree)
    ensures r.Some? ==> r.value == Inventory(w, tree)
  {
    if [SOURCE] !in tree || !tree[[SOURCE]].Directory? { return None; }
    var rest := set p | p in tree && Under(p, SOURCE);
    var inventory: map<Path, Entry> := map[];
    while rest != {}
      invariant forall p :: p in rest ==> p in tree && Under(p, SOURCE)
      invariant forall p :: p in tree && Under(p, SOURCE) && p !in rest ==> tree[p].Directory? || tree[p].File?
      invariant forall p :: p in inventory <==> p in Inventory(w, tree) && p !in rest
      invariant forall p :: p in inventory ==> inventory[p] == Inventory(w, tree)[p]
      decreases rest
    {
      var p :| p in rest;
      rest := rest - {p};
      if tree[p].Link? { return None; }
      if tree[p].Directory? { continue; }
      if !tree[p].File? { return None; }
      inventory := inventory[p := Entry(OfContent(tree[p].content), Size(w, tree[p].content), tree[p].mode)];
    }
    r := Some(inventory);
  }

  /** The names found directly in the wheelhouse. */
  function WheelhouseNames(tree: Tree): set<string> {
    set p | p in tree && |p| == 2 && p[0] == WHEELHOUSE :: p[1]
  }

  /** `verify_acquisition_bundle` as it runs. */
  method VerifyBundle(w: World, tree: Tree) returns (r: Option<Descriptor>)
    ensures r == Verify(w, tree)
    ensures r.Some? ==> Exact(w, tree, r.value.body)
  {
    AcceptedIsExact(w, tree);
    SizeRightPlain(w, tree);
    hide Exact;
    hide SizeRight;
    hide ArtifactRight;
    hide DistinctNames;
    var ok := CheckBundleSize(w, tree);
    if !ok || !PrivateFile(tree, DESCRIPTOR) || !PrivateFile(tree, COMPLETE) || !PrivateFile(tree, ARCHIVE) {
      return None;
    }
    if !tree[DESCRIPTOR].content.DescriptorText? { return None; }
    var d := tree[DESCRIPTOR].content.d;
    var u := d.body;
    if !w.accepts(u, d.content, d.signature) { return None; }
    if d.content != OfUnsigned(u) || tree[COMPLETE].content != Marker(d.content) { return None; }
    if u.archivePath !in tree || !tree[u.archivePath].File?
      || OfContent(tree[u.archivePath].content) != u.archiveDigest {
      return None;
    }
    var inventory := InventorySource(w, tree);
    if inventory.None? || inventory.value != u.inventory || OfInventory(inventory.value) != u.treeDigest {
      return None;
    }
    var seen := VerifyArtifacts(w, tree, u.artifacts);
    if seen.None? { return None; }
    if [WHEELHOUSE] !in tree || !tree[[WHEELHOUSE]].Directory? { return None; }
    WheelhouseSame(tree, seen.value);
    if exists p :: p in tree && |p| == 2 && p[0] == WHEELHOUSE && !tree[p].File? { return None; }
    if WheelhouseNames(tree) != seen.value { return None; }
    if !PrivateFile(tree, u.lockPath) || OfContent(tree[u.lockPath].content) != u.lockDigest { return None; }
    r := Some(d);
  }

  lemma {:induction false} WheelhouseSame(tree: Tree, names: set<string>)
    requires [WHEELHOUSE] in tree && tree[[WHEELHOUSE]].Directory?
    ensures WheelhouseRight(tree, names) <==>
            WheelhouseNames(tree) == names && !exists p :: p in tree && |p| == 2 && p[0] == WHEELHOUSE && !tree[p].File?
  {
    forall p: Path | |p| == 2 && p[0] == WHEELHOUSE ensures p == [WHEELHOUSE, p[1]] {}
    forall n ensures [WHEELHOUSE, n] in tree <==> n in WheelhouseNames(tree) {
      if [WHEELHOUSE, n] in tree {
        assert |[WHEELHOUSE, n]| == 2 && [WHEELHOUSE, n][0] == WHEELHOUSE && [WHEELHOUSE, n][1] == n;
      }
    }
  }

  lemma {:induction false} SizeRightPlain(w: World, tree: Tree)
    ensures SizeRight(w, tree) && [SOURCE] in tree && tree[[SOURCE]].Directory? ==> SourcePlain(tree)
  {
    hide TotalSize;
  }

  // ---- What acceptance means ----

  /** The tree carries this descriptor, signed, under its own identity, and marked complete. */
  ghost predicate Authentic(w: World, tree: Tree, d: Descriptor) {
    && PrivateFile(tree, DESCRIPTOR) && tree[DESCRIPTOR].content == DescriptorText(d)
    && w.accepts(d.body, d.content, d.signature) && d.content == OfUnsigned(d.body)
    && PrivateFile(tree, COMPLETE) && tree[COMPLETE].content == Marker(d.content) && PrivateFile(tree, ARCHIVE)
  }

  /** A wheel as its record declares it. */
  predicate Wheel(w: World, tree: Tree, a: Artifact) {
    var p := [WHEELHOUSE, a.filename];
    p in tree && a == Artifact(a.filename, a.digest, a.size, FILE_MODE) && a.digest.OfContent?
    && tree[p] == File(FILE_MODE, a.digest.c) && a.size == Size(w, a.digest.c)
  }

  predicate Declares(w: World, inventory: map<Path, Entry>, p: Path, n: Node) {
    p in inventory && n.File? && inventory[p] == Entry(OfContent(n.content), Size(w, n.content), n.mode)
  }

  /**
   * The source, the wheelhouse, the archive and the lock are exactly the declared ones, with nothing missing or added.
   */
  ghost predicate Exact(w: World, tree: Tree, u: Unsigned) {
    && [SOURCE] in tree && tree[[SOURCE]].Directory? && u.treeDigest == OfInventory(u.inventory)
    && (forall p :: p in tree && Under(p, SOURCE) && !tree[p].Directory? ==> Declares(w, u.inventory, p, tree[p]))
    && (forall p :: p in u.inventory ==> Under(p, SOURCE) && p in tree && Declares(w, u.inventory, p, tree[p]))
    && [WHEELHOUSE] in tree && tree[[WHEELHOUSE]].Directory? && DistinctNames(u.artifacts)
    && (forall n :: [WHEELHOUSE, n] in tree <==> n in Filenames(u.artifacts))
    && (forall i :: 0 <= i < |u.artifacts| ==> Wheel(w, tree, u.artifacts[i]))
    && u.archivePath in tree && tree[u.archivePath].File? && OfContent(tree[u.archivePath].content) == u.archiveDigest
    && PrivateFile(tree, u.lockPath) && OfContent(tree[u.lockPath].content) == u.lockDigest
  }

  lemma {:induction false} SourceExact(w: World, tree: Tree, inventory: map<Path, Entry>)
    requires forall p :: p in tree ==> tree[p].Directory? || tree[p].File?
    ensures Inventory(w, tree) == inventory <==>
            && (forall p :: p in tree && Under(p, SOURCE) && !tree[p].Directory? ==> Declares(w, inventory, p, tree[p]))
            && (forall p :: p in inventory ==> Under(p, SOURCE) && p in tree && Declares(w, inventory, p, tree[p]))
  {
    var found := Inventory(w, tree);
    if && (forall p :: p in tree && Under(p, SOURCE) && !tree[p].Directory? ==> Declares(w, inventory, p, tree[p]))
       && (forall p :: p in inventory ==> Under(p, SOURCE) && p in tree && Declares(w, inventory, p, tree[p])) {
      forall p ensures p in found <==> p in inventory {}
      assert found == inventory;
    }
  }

  lemma {:induction false} WheelsExact(w: World, tree: Tree, artifacts: seq<Artifact>)
    requires forall i :: 0 <= i < |artifacts| ==> ArtifactRight(w, tree, artifacts[i])
    ensures WheelhouseRight(tree, Filenames(artifacts)) <==>
            && [WHEELHOUSE] in tree && tree[[WHEELHOUSE]].Directory?
            && forall n :: [WHEELHOUSE, n] in tree <==> n in Filenames(artifacts)
  {
    hide Size;
    var names := Filenames(artifacts);
    forall n | n in names ensures [WHEELHOUSE, n] in tree && tree[[WHEELHOUSE, n]].File? {
      var i :| 0 <= i < |artifacts| && artifacts[i].filename == n;
      assert ArtifactRight(w, tree, artifacts[i]);
    }
    forall p: Path | |p| == 2 && p[0] == WHEELHOUSE ensures p == [WHEELHOUSE, p[1]] {}
    forall n ensures |[WHEELHOUSE, n]| == 2 && [WHEELHOUSE, n][0] == WHEELHOUSE && [WHEELHOUSE, n][1] == n {}
  }

  lemma {:induction false} WheelRight(w: World, tree: Tree, a: Artifact)
    ensures ArtifactRight(w, tree, a) <==> Wheel(w, tree, a)
  {}

  /** A bundle is accepted exactly when it is authentic, within its size, and exactly what its descriptor declares. */
  lemma {:induction false} AcceptedExactly(w: World, tree: Tree, d: Descriptor)
    ensures Verify(w, tree) == Some(d) <==> SizeRight(w, tree) && Authentic(w, tree, d) && Exact(w, tree, d.body)
  {
    hide TotalSize;
    if SizeRight(w, tree) {
      SourceExact(w, tree, d.body.inventory);
      hide SizeRight;
      hide Inventory;
      hide Declares;
      var artifacts := d.body.artifacts;
      forall i | 0 <= i < |artifacts| ensures ArtifactRight(w, tree, artifacts[i]) <==> Wheel(w, tree, artifacts[i]) {
        WheelRight(w, tree, artifacts[i]);
      }
      hide ArtifactRight;
      hide Wheel;
      if forall i :: 0 <= i < |artifacts| ==> ArtifactRight(w, tree, artifacts[i]) { WheelsExact(w, tree, artifacts); }
      hide WheelhouseRight;
      hide Filenames;
      hide DistinctNames;
    }
  }

  /** So an accepted bundle holds exactly the declared source files and wheels, each with its declared bytes. */
  lemma {:induction false} AcceptedIsExact(w: World, tree: Tree)
    ensures Verify(w, tree).Some? ==> Exact(w, tree, Verify(w, tree).value.body)
  {
    hide Verify;
    hide Exact;
    hide SizeRight;
    hide Authentic;
    if Verify(w, tree).Some? { AcceptedExactly(w, tree, Verify(w, tree).value); }
  }

  /** The two trees agree on everything a descriptor declares. */
  ghost predicate SameContents(a: Tree, b: Tree, u: Unsigned) {
    && (forall p :: Under(p, SOURCE) ==> (p in a && a[p].File? <==> p in b && b[p].File?))
    && (forall p :: Under(p, SOURCE) && p in a && a[p].File? ==> a[p] == b[p])
    && (forall n :: [WHEELHOUSE, n] in a <==> [WHEELHOUSE, n] in b)
    && (forall n :: [WHEELHOUSE, n] in a ==> a[[WHEELHOUSE, n]] == b[[WHEELHOUSE, n]])
    && u.archivePath in a && u.archivePath in b && a[u.archivePath].File? && b[u.archivePath].File?
    && a[u.archivePath].content == b[u.archivePath].content
    && u.lockPath in a && u.lockPath in b && a[u.lockPath] == b[u.lockPath]
  }

  lemma {:induction false} ExactSame(w: World, a: Tree, b: Tree, u: Unsigned)
    requires Exact(w, a, u) && Exact(w, b, u)
    ensures SameContents(a, b, u)
  {
    hide Size;
    forall p | Under(p, SOURCE) && p in a && a[p].File? ensures p in b && b[p] == a[p] {
      assert Declares(w, u.inventory, p, a[p]) && Declares(w, u.inventory, p, b[p]);
    }
    forall p | Under(p, SOURCE) && p in b && b[p].File? ensures p in a && a[p].File? {
      assert Declares(w, u.inventory, p, b[p]) && Declares(w, u.inventory, p, a[p]);
    }
    forall n | [WHEELHOUSE, n] in a ensures [WHEELHOUSE, n] in b && a[[WHEELHOUSE, n]] == b[[WHEELHOUSE, n]] {
      assert n in Filenames(u.artifacts);
      var i :| 0 <= i < |u.artifacts| && u.artifacts[i].filename == n;
      assert Wheel(w, a, u.artifacts[i]) && Wheel(w, b, u.artifacts[i]);
    }
  }

  /**
   * The content identity an accepted bundle is filed under determines its signed body, and with it the bytes and modes
   * of all source files and wheels, the archive and the lock.
   */
  lemma {:induction false} IdentityBinds(w: World, a: Tree, b: Tree)
    requires Verify(w, a).Some? && Verify(w, b).Some? && Verify(w, a).value.content == Verify(w, b).value.content
    ensures Verify(w, a).value.body == Verify(w, b).value.body
    ensures Inventory(w, a) == Inventory(w, b)
    ensures SameContents(a, b, Verify(w, a).value.body)
  {
    AcceptedExactly(w, a, Verify(w, a).value);
    AcceptedExactly(w, b, Verify(w, b).value);
    hide Verify;
    hide Inventory;
    hide Exact;
    hide SizeRight;
    hide SameContents;
    assert Verify(w, a).value.body == Verify(w, b).value.body;
    ExactSame(w, a, b, Verify(w, a).value.body);
    SameInventory(w, a, b, Verify(w, a).value.body);
  }

  lemma {:induction false} SameInventory(w: World, a: Tree, b: Tree, u: Unsigned)
    requires SameContents(a, b, u)
    ensures Inventory(w, a) == Inventory(w, b)
  {
    hide Size;
    forall p ensures p in Inventory(w, a) <==> p in Inventory(w, b) {}
  }

  // ---- Creating ----

  /** A source archive member, below the common root that was stripped. */
  datatype Member = Member(path: Path, directory: bool, special: bool, mode: nat, bytes: seq<byte>)

  function SourcePath(m: Member): Path {
    [SOURCE] + m.path
  }

  /** `mkdir(parents=True, exist_ok=True)`: fails on the way through anything that is not a directory. */
  predicate CanMakeDirectory(tree: Tree, p: Path) {
    forall k :: 0 < k <= |p| && p[..k] in tree ==> tree[p[..k]].Directory?
  }

  /** A path and all its parents. */
  function Prefixes(p: Path): set<Path> {
    set k | 0 < k <= |p| :: p[..k]
  }

  function MakeDirectory(tree: Tree, p: Path): Tree {
    tree + map q | q in Prefixes(p) - tree.Keys :: Directory
  }

  function ModeFor(mode: nat): nat {
    // Any execute bit makes the file executable.
    if mode / 64 % 2 == 1 || mode / 8 % 2 == 1 || mode % 2 == 1 then EXECUTABLE_MODE else PLAIN_MODE
  }

  datatype Extracted = Extracted(tree: Tree, inventory: map<Path, Entry>, total: nat)

  /** One member of `_extract_source`; None where it raises. */
  function ExtractOne(w: World, m: Member, e: Extracted): Option<Extracted> {
    var p := SourcePath(m);
    if m.path == [] then Some(e)
    else if m.special then None
    else if m.directory then
      if CanMakeDirectory(e.tree, p) then Some(e.(tree := MakeDirectory(e.tree, p))) else None
    else if |m.bytes| > MAX_SOURCE_BYTES - e.total then None
    else if !CanMakeDirectory(e.tree, Parent(p)) || p in e.tree then None
    else Some(WithFile(w, e, p, ModeFor(m.mode), m.bytes))
  }

  function Parent(p: Path): Path
    requires p != []
  {
    p[..|p| - 1]
  }

  function WithFile(w: World, e: Extracted, p: Path, mode: nat, bytes: seq<byte>): Extracted
    requires p != []
  {
    Extracted(MakeDirectory(e.tree, Parent(p))[p := File(mode, Data(bytes))],
              e.inventory[p := Entry(OfContent(Data(bytes)), Size(w, Data(bytes)), mode)],
              e.total + |bytes|)
  }

  /** `_extract_source`, member by member. */
  function Extract(w: World, members: seq<Member>, e: Extracted): Option<Extracted> {
    if members == [] then Some(e)
    else
      var next := ExtractOne(w, members[0], e);
      if next.None? then None else Extract(w, members[1..], next.value)
  }

  const EMPTY_SOURCE: Tree := map[[SOURCE] := Directory]

  /** The extraction loop. */
  method ExtractSource(w: World, members: seq<Member>) returns (r: Option<Extracted>)
    ensures r == Extract(w, members, Extracted(EMPTY_SOURCE, map[], 0))
  {
    hide ExtractOne;
    var e, k := Extracted(EMPTY_SOURCE, map[], 0), 0;
    while k < |members|
      invariant k <= |members|
      invariant Extract(w, members[k..], e) == Extract(w, members, Extracted(EMPTY_SOURCE, map[], 0))
    {
      var rest := members[k..];
      assert rest[0] == members[k] && rest[1..] == members[k + 1..];
      var next := ExtractOne(w, members[k], e);
      if next.None? { return None; }
      e, k := next.value, k + 1;
    }
    r := Some(e);
  }

  /** The extraction tree holds source paths only, and its inventory is that of its files. */
  ghost predicate ExtractedRight(w: World, e: Extracted) {
    && [SOURCE] in e.tree && e.tree[[SOURCE]] == Directory
    && (forall p :: p in e.tree ==> p == [SOURCE] || Under(p, SOURCE))
    && (forall p :: p in e.tree ==> e.tree[p].Directory? || e.tree[p].File?)
    && e.inventory == Inventory(w, e.tree)
  }

  lemma {:induction false} ExtractKeeps(w: World, members: seq<Member>, e: Extracted)
    requires ExtractedRight(w, e) && Extract(w, members, e).Some?
    ensures ExtractedRight(w, Extract(w, members, e).value)
  {
    hide ExtractedRight;
    hide ExtractOne;
    if members != [] {
      ExtractOneKeeps(w, members[0], e);
      ExtractKeeps(w, members[1..], ExtractOne(w, members[0], e).value);
    }
  }

  lemma {:induction false} ExtractOneKeeps(w: World, m: Member, e: Extracted)
    requires ExtractedRight(w, e) && ExtractOne(w, m, e).Some?
    ensures ExtractedRight(w, ExtractOne(w, m, e).value)
  {
    hide ExtractedRight;
    hide MakeDirectory;
    hide WithFile;
    var p := SourcePath(m);
    if m.path != [] {
      if m.directory { DirectoryKeeps(w, e, p); } else { FileKeeps(w, e, p, ModeFor(m.mode), m.bytes); }
    }
  }

  lemma {:induction false} DirectoryKeeps(w: World, e: Extracted, p: Path)
    requires ExtractedRight(w, e) && p != [] && p[0] == SOURCE
    ensures ExtractedRight(w, e.(tree := MakeDirectory(e.tree, p)))
  {
    var t := MakeDirectory(e.tree, p);
    forall q | q in Prefixes(p) ensures q == [SOURCE] || Under(q, SOURCE) {
      assert q[0] == p[0];
    }
    assert forall q :: q in t && t[q].File? <==> q in e.tree && e.tree[q].File?;
    assert Inventory(w, t) == Inventory(w, e.tree);
  }

  lemma {:induction false} FileKeeps(w: World, e: Extracted, p: Path, mode: nat, bytes: seq<byte>)
    requires ExtractedRight(w, e) && Under(p, SOURCE) && p !in e.tree
    ensures ExtractedRight(w, WithFile(w, e, p, mode, bytes))
  {
    assert Parent(p)[0] == SOURCE;
    DirectoryKeeps(w, e, Parent(p));
    var t := MakeDirectory(e.tree, Parent(p));
    assert p !in t;
    hide MakeDirectory;
    InventoryGrows(w, t, p, mode, Data(bytes));
  }

  lemma {:induction false} InventoryGrows(w: World, tree: Tree, p: Path, mode: nat, c: Content)
    requires Under(p, SOURCE)
    ensures Inventory(w, tree[p := File(mode, c)]) == Inventory(w, tree)[p := Entry(OfContent(c), Size(w, c), mode)]
  {}

  predicate Ordinary(m: Member) {
    m.path != [] && !m.directory
  }

  predicate EntryOf(w: World, inventory: map<Path, Entry>, m: Member) {
    SourcePath(m) in inventory
    && inventory[SourcePath(m)] == Entry(OfContent(Data(m.bytes)), |m.bytes|, ModeFor(m.mode))
  }

  /** The inventory is one entry for each ordinary member, of its bytes, and no other. */
  lemma {:induction false} ExtractContents(w: World, members: seq<Member>, e: Extracted)
    requires ExtractedRight(w, e) && Extract(w, members, e).Some?
    ensures var inventory := Extract(w, members, e).value.inventory;
            && (forall p :: p in e.inventory ==> p in inventory && inventory[p] == e.inventory[p])
            && (forall i :: 0 <= i < |members| && Ordinary(members[i]) ==> EntryOf(w, inventory, members[i]))
            && (forall p :: p in inventory ==>
                  || p in e.inventory
                  || exists i :: 0 <= i < |members| && Ordinary(members[i]) && p == SourcePath(members[i]))
  {
    hide ExtractedRight;
    hide ExtractOne;
    if members != [] {
      var m, rest := members[0], members[1..];
      var next := ExtractOne(w, m, e).value;
      ExtractOneKeeps(w, m, e);
      ExtractOneContents(w, m, e);
      ExtractContents(w, rest, next);
      var inventory := Extract(w, members, e).value.inventory;
      forall i | 0 <= i < |members| && Ordinary(members[i]) ensures EntryOf(w, inventory, members[i]) {
        if i > 0 { assert members[i] == rest[i - 1]; }
      }
      forall p | p in inventory && p !in e.inventory
        ensures exists i :: 0 <= i < |members| && Ordinary(members[i]) && p == SourcePath(members[i]) {
        if p !in next.inventory {
          var j :| 0 <= j < |rest| && Ordinary(rest[j]) && p == SourcePath(rest[j]);
          assert members[j + 1] == rest[j];
        }
      }
    }
  }

  lemma {:induction false} ExtractOneContents(w: World, m: Member, e: Extracted)
    requires ExtractedRight(w, e) && ExtractOne(w, m, e).Some?
    ensures var inventory := ExtractOne(w, m, e).value.inventory;
            && (forall p :: p in e.inventory ==> p in inventory && inventory[p] == e.inventory[p])
            && (Ordinary(m) ==> EntryOf(w, inventory, m))
            && (forall p :: p in inventory ==> p in e.inventory || (Ordinary(m) && p == SourcePath(m)))
  {
    hide MakeDirectory;
    if Ordinary(m) {
      assert SourcePath(m) !in e.inventory;
    }
  }

  /** A trusted artifact as given: its admission checks are behind it. */
  datatype Given = Given(filename: string, bytes: seq<byte>)

  function ArtifactOf(w: World, g: Given): Artifact {
    Artifact(g.filename, OfContent(Data(g.bytes)), Size(w, Data(g.bytes)), FILE_MODE)
  }

  /** The copying loop over the artifacts: the wheelhouse files and their records, in the given order. */
  function CopyArtifacts(
    w: World, given: seq<Given>, done: seq<Artifact>, files: Tree, total: nat): Option<(seq<Artifact>, Tree)> {
    if given == [] then Some((done, files))
    else
      var a := ArtifactOf(w, given[0]);
      if a.filename in Filenames(done) then None
      else if total + a.size > MAX_ARTIFACT_BYTES then None
      else CopyArtifacts(w, given[1..], done + [a],
                         files[[WHEELHOUSE, a.filename] := File(FILE_MODE, Data(given[0].bytes))], total + a.size)
  }

  /** The loop over the artifacts, with its set of names and its running total. */
  method CopyWheels(w: World, given: seq<Given>) returns (r: Option<(seq<Artifact>, Tree)>)
    ensures r == CopyArtifacts(w, given, [], map[], 0)
  {
    var done: seq<Artifact>, files: Tree, names: set<string>, total := [], map[], {}, 0;
    var k := 0;
    while k < |given|
      invariant k <= |given| && names == Filenames(done) && total >= 0
      invariant CopyArtifacts(w, given[k..], done, files, total) == CopyArtifacts(w, given, [], map[], 0)
    {
      var rest := given[k..];
      assert rest[0] == given[k] && rest[1..] == given[k + 1..];
      var a := ArtifactOf(w, given[k]);
      if a.filename in names || total + a.size > MAX_ARTIFACT_BYTES { return None; }
      FilenamesSnoc(done, a);
      files := files[[WHEELHOUSE, a.filename] := File(FILE_MODE, Data(given[k].bytes))];
      names, total, done, k := names + {a.filename}, total + a.size, done + [a], k + 1;
    }
    r := Some((done, files));
  }

  /** The copied files are exactly the recorded ones. */
  ghost predicate CopiedRight(w: World, done: seq<Artifact>, files: Tree) {
    && DistinctNames(done)
    && (forall i :: 0 <= i < |done| ==> ArtifactRight(w, files, done[i]))
    && (forall p :: p in files ==> |p| == 2 && p[0] == WHEELHOUSE && p[1] in Filenames(done) && files[p].File?)
  }

  lemma {:induction false} CopyKeeps(w: World, given: seq<Given>, done: seq<Artifact>, files: Tree, total: nat)
    requires CopiedRight(w, done, files) && CopyArtifacts(w, given, done, files, total).Some?
    ensures var (records, copied) := CopyArtifacts(w, given, done, files, total).value; CopiedRight(w, records, copied)
  {
    if given != [] {
      var a := ArtifactOf(w, given[0]);
      var done1 := done + [a];
      var p := [WHEELHOUSE, a.filename];
      var files1 := files[p := File(FILE_MODE, Data(given[0].bytes))];
      FilenamesSnoc(done, a);
      assert p[1] == a.filename;
      forall i | 0 <= i < |done1| ensures ArtifactRight(w, files1, done1[i]) {
        if i < |done| {
          assert ArtifactRight(w, files, done[i]) && done1[i] == done[i];
          assert done[i].filename in Filenames(done);
          assert [WHEELHOUSE, done[i].filename][1] == done[i].filename;
        }
      }
      CopyKeeps(w, given[1..], done1, files1, total + a.size);
    }
  }

  function Records(w: World, given: seq<Given>): seq<Artifact> {
    seq(|given|, i requires 0 <= i < |given| => ArtifactOf(w, given[i]))
  }

  /** One record for each artifact given. */
  lemma {:induction false} CopyRecords(w: World, given: seq<Given>, done: seq<Artifact>, files: Tree, total: nat)
    requires CopyArtifacts(w, given, done, files, total).Some?
    ensures CopyArtifacts(w, given, done, files, total).value.0 == done + Records(w, given)
  {
    if given != [] {
      var a := ArtifactOf(w, given[0]);
      CopyRecords(w, given[1..], done + [a], files[[WHEELHOUSE, a.filename] := File(FILE_MODE, Data(given[0].bytes))],
                  total + a.size);
      assert Records(w, given) == [a] + Records(w, given[1..]);
    }
  }

  /** What `create_acquisition_bundle` is given, its admission checks behind it. */
  datatype Request = Request(text: string, manager: string, archive: Content, members: seq<Member>,
                             artifacts: seq<Given>)

  function LockFor(r: Request, artifacts: seq<Artifact>): Lock {
    Lock(r.manager, seq(|artifacts|, i requires 0 <= i < |artifacts| => (artifacts[i].filename, artifacts[i].digest)))
  }

  function UnsignedFor(w: World, r: Request, e: Extracted, artifacts: seq<Artifact>): Unsigned {
    Unsigned(r.text, ARCHIVE, OfContent(r.archive), OfInventory(e.inventory), e.inventory, artifacts,
             ["locks", r.manager + ".json"], OfContent(LockText(LockFor(r, artifacts))))
  }

  /** What the finished tree holds at the top, besides the source and the wheels. */
  function Rest(w: World, r: Request, e: Extracted, artifacts: seq<Artifact>, signature: string): Tree {
    var u := UnsignedFor(w, r, e, artifacts);
    map[ARCHIVE := File(FILE_MODE, r.archive),
        [WHEELHOUSE] := Directory,
        ["locks"] := Directory,
        u.lockPath := File(FILE_MODE, LockText(LockFor(r, artifacts))),
        DESCRIPTOR := File(FILE_MODE, DescriptorText(Descriptor(u, OfUnsigned(u), signature))),
        COMPLETE := File(FILE_MODE, Marker(OfUnsigned(u)))]
  }

  /** The finished temporary tree. */
  function Assembled(
    w: World, r: Request, e: Extracted, artifacts: seq<Artifact>, files: Tree, signature: string): Tree {
    e.tree + files + Rest(w, r, e, artifacts, signature)
  }

  /** `create_acquisition_bundle`: the tree moved to its destination, or None. `sort` orders the records. */
  ghost function Create(
    w: World, r: Request, sort: seq<Artifact> -> seq<Artifact>, sign: (Unsigned, Digest) -> string): Option<Tree> {
    var extracted := Extract(w, r.members, Extracted(EMPTY_SOURCE, map[], 0));
    if r.members == [] || |r.members| > MAX_SOURCE_FILES then None
    else if extracted.None? || extracted.value.inventory == map[] then None
    else if r.artifacts == [] || |r.artifacts| > MAX_ARTIFACTS then None
    else
      var copied := CopyArtifacts(w, r.artifacts, [], map[], 0);
      if copied.None? then None
      else
        var records := sort(copied.value.0);
        var u := UnsignedFor(w, r, extracted.value, records);
        var tree := Assembled(w, r, extracted.value, records, copied.value.1, sign(u, OfUnsigned(u)));
        if SizeRight(w, tree) then Some(tree) else None
  }

  /** Sorting rearranges. */
  ghost predicate Rearranges(sort: seq<Artifact> -> seq<Artifact>) {
    forall a :: multiset(sort(a)) == multiset(a)
  }

  lemma {:induction false} RepeatCounts(s: seq<Artifact>, i: nat, j: nat)
    requires i < j < |s| && s[i] == s[j]
    ensures multiset(s)[s[i]] >= 2
  {
    assert s == s[..j] + s[j..];
    assert s[i] in s[..j] && s[j] in s[j..];
  }

  lemma {:induction false} DistinctCounts(s: seq<Artifact>, a: Artifact)
    requires DistinctNames(s)
    ensures multiset(s)[a] <= 1
  {
    if s != [] {
      var rest, last := s[..|s| - 1], s[|s| - 1];
      assert s == rest + [last];
      DistinctCounts(rest, a);
      assert forall i :: 0 <= i < |rest| ==> s[i].filename != s[|s| - 1].filename && rest[i] == s[i];
      assert last !in rest;
    }
  }

  /** Rearranged records still have distinct names, and are the same records. */
  lemma {:induction false} SortKeeps(w: World, done: seq<Artifact>, sorted: seq<Artifact>, files: Tree)
    requires CopiedRight(w, done, files) && multiset(sorted) == multiset(done)
    ensures CopiedRight(w, sorted, files) && Filenames(sorted) == Filenames(done)
  {
    hide ArtifactRight;
    forall i | 0 <= i < |sorted| ensures sorted[i] in done {
      assert sorted[i] in multiset(sorted);
    }
    forall j | 0 <= j < |done| ensures done[j] in sorted {
      assert done[j] in multiset(done);
    }
    forall i, j | 0 <= i < j < |sorted| ensures sorted[i].filename != sorted[j].filename {
      if sorted[i].filename == sorted[j].filename {
        assert sorted[i] in done && sorted[j] in done;
        RepeatCounts(sorted, i, j);
        DistinctCounts(done, sorted[i]);
      }
    }
  }

  lemma {:induction false} RestApart(
    w: World, r: Request, e: Extracted, artifacts: seq<Artifact>, signature: string, p: Path)
    requires p in Rest(w, r, e, artifacts, signature)
    ensures p != [] && p[0] != SOURCE && (|p| == 2 ==> p[0] != WHEELHOUSE)
  {}

  /** Every path of the finished tree comes from exactly one of its parts. */
  lemma {:induction false} AssembledParts(
    w: World, r: Request, e: Extracted, artifacts: seq<Artifact>, files: Tree, signature: string, p: Path)
    requires ExtractedRight(w, e) && CopiedRight(w, artifacts, files)
    ensures var tree := Assembled(w, r, e, artifacts, files, signature);
            && (p != [] && p[0] == SOURCE ==> (p in tree <==> p in e.tree) && (p in tree ==> tree[p] == e.tree[p]))
            && (|p| == 2 && p[0] == WHEELHOUSE ==> (p in tree <==> p in files) && (p in tree ==> tree[p] == files[p]))
  {
    hide Inventory;
    hide ArtifactRight;
    hide DistinctNames;
    hide Rest;
    if p in Rest(w, r, e, artifacts, signature) { RestApart(w, r, e, artifacts, signature, p); }
  }

  lemma {:induction false} AssembledInventory(
    w: World, r: Request, e: Extracted, artifacts: seq<Artifact>, files: Tree, signature: string)
    requires ExtractedRight(w, e) && CopiedRight(w, artifacts, files)
    ensures Inventory(w, Assembled(w, r, e, artifacts, files, signature)) == e.inventory
  {
    hide CopiedRight;
    hide Assembled;
    var tree := Assembled(w, r, e, artifacts, files, signature);
    forall p: Path | Under(p, SOURCE)
      ensures (p in tree <==> p in e.tree) && (p in tree ==> tree[p] == e.tree[p]) {
      AssembledParts(w, r, e, artifacts, files, signature, p);
    }
  }

  lemma {:induction false} AssembledWheels(
    w: World, r: Request, e: Extracted, artifacts: seq<Artifact>, files: Tree, signature: string)
    requires ExtractedRight(w, e) && CopiedRight(w, artifacts, files)
    ensures var tree := Assembled(w, r, e, artifacts, files, signature);
            && WheelhouseRight(tree, Filenames(artifacts))
            && forall i :: 0 <= i < |artifacts| ==> ArtifactRight(w, tree, artifacts[i])
  {
    hide ExtractedRight;
    hide Assembled;
    var tree := Assembled(w, r, e, artifacts, files, signature);
    forall p: Path | |p| == 2 && p[0] == WHEELHOUSE
      ensures (p in tree <==> p in files) && (p in tree ==> tree[p] == files[p]) {
      AssembledParts(w, r, e, artifacts, files, signature, p);
    }
    AssembledFixed(w, r, e, artifacts, files, signature);
    forall i | 0 <= i < |artifacts| ensures ArtifactRight(w, tree, artifacts[i]) {
      assert ArtifactRight(w, files, artifacts[i]);
      assert |[WHEELHOUSE, artifacts[i].filename]| == 2 && [WHEELHOUSE, artifacts[i].filename][0] == WHEELHOUSE;
    }
    forall n | n in Filenames(artifacts) ensures [WHEELHOUSE, n] in tree {
      var i :| 0 <= i < |artifacts| && artifacts[i].filename == n;
      assert ArtifactRight(w, tree, artifacts[i]);
    }
  }

  /** The parts that are always there. */
  lemma {:induction false} AssembledFixed(
    w: World, r: Request, e: Extracted, artifacts: seq<Artifact>, files: Tree, signature: string)
    ensures var tree := Assembled(w, r, e, artifacts, files, signature);
            var u := UnsignedFor(w, r, e, artifacts);
            && ARCHIVE in tree && tree[ARCHIVE] == File(FILE_MODE, r.archive)
            && DESCRIPTOR in tree
            && tree[DESCRIPTOR] == File(FILE_MODE, DescriptorText(Descriptor(u, OfUnsigned(u), signature)))
            && COMPLETE in tree && tree[COMPLETE] == File(FILE_MODE, Marker(OfUnsigned(u)))
            && u.lockPath in tree && tree[u.lockPath] == File(FILE_MODE, LockText(LockFor(r, artifacts)))
            && [WHEELHOUSE] in tree && tree[[WHEELHOUSE]] == Directory
  {}

  /**
   * Every bundle that is created is accepted under a matching signer. Its descriptor declares one entry for each
   * ordinary member of the source archive and one record for each artifact, and nothing else.
   */
  lemma {:induction false} CreatedVerifies(
    w: World, r: Request, sort: seq<Artifact> -> seq<Artifact>, sign: (Unsigned, Digest) -> string)
    requires Rearranges(sort)
    requires forall u, d :: w.accepts(u, d, sign(u, d))
    requires Create(w, r, sort, sign).Some?
    ensures Verify(w, Create(w, r, sort, sign).value).Some?
    ensures var u := Verify(w, Create(w, r, sort, sign).value).value.body;
            && (forall i :: 0 <= i < |r.members| && Ordinary(r.members[i]) ==> EntryOf(w, u.inventory, r.members[i]))
            && (forall p :: p in u.inventory ==>
                  exists i :: 0 <= i < |r.members| && Ordinary(r.members[i]) && p == SourcePath(r.members[i]))
            && multiset(u.artifacts) == multiset(Records(w, r.artifacts))
  {
    hide ExtractedRight;
    hide CopiedRight;
    hide Extract;
    hide CopyArtifacts;
    hide Assembled;
    hide Inventory;
    hide WheelhouseRight;
    hide ArtifactRight;
    hide SizeRight;
    hide EntryOf;
    hide Ordinary;
    var start := Extracted(EMPTY_SOURCE, map[], 0);
    EmptyRight(w);
    ExtractKeeps(w, r.members, start);
    ExtractContents(w, r.members, start);
    CopyKeeps(w, r.artifacts, [], map[], 0);
    CopyRecords(w, r.artifacts, [], map[], 0);
    var e := Extract(w, r.members, start).value;
    var (done, files) := CopyArtifacts(w, r.artifacts, [], map[], 0).value;
    assert done == Records(w, r.artifacts);
    AssembledVerifies(w, r, e, done, sort(done), files, sign);
  }

  lemma {:induction false} AssembledVerifies(
    w: World, r: Request, e: Extracted, done: seq<Artifact>, records: seq<Artifact>, files: Tree,
    sign: (Unsigned, Digest) -> string)
    requires ExtractedRight(w, e) && CopiedRight(w, done, files) && multiset(records) == multiset(done)
    requires forall u, d :: w.accepts(u, d, sign(u, d))
    requires var u := UnsignedFor(w, r, e, records);
             SizeRight(w, Assembled(w, r, e, records, files, sign(u, OfUnsigned(u))))
    ensures var u := UnsignedFor(w, r, e, records);
            var signature := sign(u, OfUnsigned(u));
            Verify(w, Assembled(w, r, e, records, files, signature)) == Some(Descriptor(u, OfUnsigned(u), signature))
  {
    hide ExtractedRight;
    hide CopiedRight;
    hide Assembled;
    hide Inventory;
    hide WheelhouseRight;
    hide ArtifactRight;
    hide SizeRight;
    SortKeeps(w, done, records, files);
    var u := UnsignedFor(w, r, e, records);
    var signature := sign(u, OfUnsigned(u));
    AssembledFixed(w, r, e, records, files, signature);
    AssembledInventory(w, r, e, records, files, signature);
    AssembledWheels(w, r, e, records, files, signature);
    AssembledSource(w, r, e, records, files, signature);
  }

  lemma {:induction false} EmptyRight(w: World)
    ensures ExtractedRight(w, Extracted(EMPTY_SOURCE, map[], 0)) && CopiedRight(w, [], map[])
  {
    assert Inventory(w, EMPTY_SOURCE) == map[];
  }

  lemma {:induction false} AssembledSource(
    w: World, r: Request, e: Extracted, artifacts: seq<Artifact>, files: Tree, signature: string)
    requires ExtractedRight(w, e) && CopiedRight(w, artifacts, files)
    ensures var tree := Assembled(w, r, e, artifacts, files, signature);
            [SOURCE] in tree && tree[[SOURCE]] == Directory && DistinctNames(artifacts)
  {
    AssembledParts(w, r, e, artifacts, files, signature, [SOURCE]);
    hide Inventory;
    hide ArtifactRight;
    hide Assembled;
  }
}
