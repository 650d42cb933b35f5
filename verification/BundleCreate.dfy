/**
 * When a bundle can be created, and what is then in it: the source archive's members decide whether it can be
 * extracted, whatever their order, and the artifacts whether they can be copied.
 */
module BundleCreate {
  import opened Bytes
  import opened Bundle

  // ---- Which archives can be extracted ----

  /** `x` is a file, and `y` is to be at its place or below it. */
  predicate Clash(x: Member, y: Member) {
    Ordinary(x) && y.path != [] && x.path <= y.path
  }

  predicate NoClash(members: seq<Member>) {
    forall i, j :: 0 <= i < |members| && 0 <= j < |members| && i != j ==> !Clash(members[i], members[j])
  }

  /** The bytes of all files. */
  function TotalBytes(members: seq<Member>): nat {
    if members == [] then 0
    else TotalBytes(members[..|members| - 1]) + BytesOf(members[|members| - 1])
  }

  function BytesOf(m: Member): nat {
    if Ordinary(m) then |m.bytes| else 0
  }

  /** Links and the like are refused, wherever they are, but for the stripped root. */
  predicate NoneSpecial(members: seq<Member>) {
    forall i :: 0 <= i < |members| ==> members[i].path == [] || !members[i].special
  }

  predicate Extractable(members: seq<Member>) {
    NoneSpecial(members) && TotalBytes(members) <= MAX_SOURCE_BYTES && NoClash(members)
  }

  // ---- What the tree then holds ----

  /** Some member is at `p`, or below it. */
  ghost predicate Reaches(members: seq<Member>, p: Path) {
    exists j :: 0 <= j < |members| && members[j].path != [] && p <= SourcePath(members[j])
  }

  /** A file of the archive is at `p`. */
  ghost predicate FileAt(members: seq<Member>, p: Path) {
    exists j :: 0 <= j < |members| && Ordinary(members[j]) && p == SourcePath(members[j])
  }

  /** Any execute bit makes a file executable. */
  predicate ModeKept(given: nat, mode: nat) {
    mode == if given / 64 % 2 == 1 || given / 8 % 2 == 1 || given % 2 == 1 then 493 else 420
  }

  /** The source directory, the members' parents and directories, and the files with their bytes; nothing else. */
  ghost predicate Holds(members: seq<Member>, tree: Tree) {
    && (forall p :: p in tree <==> p == [SOURCE] || (p != [] && Reaches(members, p)))
    && (forall p :: p in tree ==> if FileAt(members, p) then tree[p].File? else tree[p].Directory?)
    && (forall j :: 0 <= j < |members| && Ordinary(members[j]) ==>
          var p := SourcePath(members[j]);
          p in tree && tree[p].File? && tree[p].content == Data(members[j].bytes) &&
          ModeKept(members[j].mode, tree[p].mode))
  }

  ghost predicate Built(members: seq<Member>, e: Extracted) {
    Holds(members, e.tree) && e.total == TotalBytes(members)
  }

  // ---- One more member ----

  lemma {:induction false} ReachesSnoc(done: seq<Member>, m: Member, p: Path)
    ensures Reaches(done + [m], p) <==> Reaches(done, p) || (m.path != [] && p <= SourcePath(m))
  {
    var all := done + [m];
    assert all[|done|] == m;
    if Reaches(done, p) {
      var j :| 0 <= j < |done| && done[j].path != [] && p <= SourcePath(done[j]);
      assert all[j] == done[j];
    }
  }

  lemma {:induction false} FileAtSnoc(done: seq<Member>, m: Member, p: Path)
    ensures FileAt(done + [m], p) <==> FileAt(done, p) || (Ordinary(m) && p == SourcePath(m))
  {
    var all := done + [m];
    assert all[|done|] == m;
    if FileAt(done, p) {
      var j :| 0 <= j < |done| && Ordinary(done[j]) && p == SourcePath(done[j]);
      assert all[j] == done[j];
    }
  }

  /** The new member fits among the others. */
  ghost predicate Fits(done: seq<Member>, m: Member) {
    && (m.path == [] || !m.special)
    && TotalBytes(done) + BytesOf(m) <= MAX_SOURCE_BYTES
    && forall j :: 0 <= j < |done| ==> !Clash(done[j], m) && !Clash(m, done[j])
  }

  lemma {:induction false} ExtractableSnoc(done: seq<Member>, m: Member)
    ensures Extractable(done + [m]) <==> Extractable(done) && Fits(done, m)
  {
    hide Clash;
    var all, n := done + [m], |done|;
    assert all[..n] == done && all[n] == m;
    assert forall i :: 0 <= i < n ==> all[i] == done[i];
    if NoClash(all) {
      forall j | 0 <= j < n ensures !Clash(done[j], m) && !Clash(m, done[j]) {
        assert !Clash(all[j], all[n]) && !Clash(all[n], all[j]);
      }
      forall i, j | 0 <= i < n && 0 <= j < n && i != j ensures !Clash(done[i], done[j]) {
        assert !Clash(all[i], all[j]);
      }
    }
    if NoneSpecial(all) {
      assert all[n].path == [] || !all[n].special;
      forall i | 0 <= i < n ensures done[i].path == [] || !done[i].special { assert all[i] == done[i]; }
    }
  }

  /** Paths below the source directory compare as the members' own paths do. */
  lemma {:induction false} PathsCompare(x: Member, y: Member)
    ensures SourcePath(x) <= SourcePath(y) <==> x.path <= y.path
    ensures SourcePath(x) == SourcePath(y) <==> x.path == y.path
    ensures |SourcePath(x)| == |x.path| + 1 && SourcePath(x)[0] == SOURCE
  {
    assert SourcePath(x)[1..] == x.path && SourcePath(y)[1..] == y.path;
    if SourcePath(x) <= SourcePath(y) {
      assert SourcePath(y)[..|SourcePath(x)|][1..] == y.path[..|x.path|];
    }
    if x.path <= y.path {
      assert SourcePath(y)[..|x.path| + 1] == [SOURCE] + y.path[..|x.path|];
    }
  }

  lemma {:induction false} PrefixesAre(p: Path, q: Path)
    ensures q in Prefixes(p) <==> q != [] && q <= p
  {
    if q != [] && q <= p { assert q == p[..|q|]; }
  }

  /** A path can be made a directory exactly when no file of the archive is on the way. */
  lemma {:induction false} WayFree(members: seq<Member>, tree: Tree, p: Path)
    requires Holds(members, tree)
    ensures CanMakeDirectory(tree, p) <==>
            forall j :: 0 <= j < |members| && Ordinary(members[j]) ==> !(SourcePath(members[j]) <= p)
  {
    if CanMakeDirectory(tree, p) {
      forall j | 0 <= j < |members| && Ordinary(members[j]) ensures !(SourcePath(members[j]) <= p) {
        var q := SourcePath(members[j]);
        PrefixesAre(p, q);
      }
    } else {
      var k :| 0 < k <= |p| && p[..k] in tree && !tree[p[..k]].Directory?;
      assert FileAt(members, p[..k]);
    }
  }

  lemma {:induction false} MadeDirectory(tree: Tree, p: Path, q: Path)
    ensures q in MakeDirectory(tree, p) <==> q in tree || (q != [] && q <= p)
    ensures q in tree ==> MakeDirectory(tree, p)[q] == tree[q]
    ensures q in MakeDirectory(tree, p) && q !in tree ==> MakeDirectory(tree, p)[q] == Directory
  {
    PrefixesAre(p, q);
  }

  /** A directory member: its way must be free of files. */
  lemma {:induction false} DirectoryFits(done: seq<Member>, m: Member, tree: Tree)
    requires Holds(done, tree) && m.directory && m.path != []
    ensures CanMakeDirectory(tree, SourcePath(m)) <==>
            forall j :: 0 <= j < |done| ==> !Clash(done[j], m) && !Clash(m, done[j])
  {
    WayFree(done, tree, SourcePath(m));
    hide Holds;
    forall j | 0 <= j < |done|
      ensures Clash(done[j], m) <==> Ordinary(done[j]) && SourcePath(done[j]) <= SourcePath(m) {
      PathsCompare(done[j], m);
    }
  }

  /** A file member: no file on its way, and nothing at its place. */
  lemma {:induction false} FileFits(done: seq<Member>, m: Member, tree: Tree)
    requires Holds(done, tree) && Ordinary(m)
    ensures CanMakeDirectory(tree, Parent(SourcePath(m))) && SourcePath(m) !in tree <==>
            forall j :: 0 <= j < |done| ==> !Clash(done[j], m) && !Clash(m, done[j])
  {
    var p := SourcePath(m);
    WayFree(done, tree, Parent(p));
    PathsCompare(m, m);
    assert p in tree <==> Reaches(done, p);
    hide Holds;
    forall j | 0 <= j < |done|
      ensures Clash(done[j], m) <==>
              Ordinary(done[j]) && (SourcePath(done[j]) <= Parent(p) || SourcePath(done[j]) == p)
      ensures Clash(m, done[j]) <==> done[j].path != [] && p <= SourcePath(done[j])
    {
      PathsCompare(done[j], m);
      PathsCompare(m, done[j]);
      ParentOrSelf(SourcePath(done[j]), p);
    }
  }

  lemma {:induction false} ParentOrSelf(q: Path, p: Path)
    requires p != []
    ensures q <= p <==> q <= Parent(p) || q == p
  {
    if q <= p && |q| < |p| { assert Parent(p)[..|q|] == p[..|q|]; }
    if q <= Parent(p) { assert p[..|q|] == Parent(p)[..|q|]; }
  }

  lemma {:induction false} FilesReach(members: seq<Member>, p: Path)
    ensures FileAt(members, p) ==> Reaches(members, p)
  {}

  lemma {:induction false} DirectoryHolds(done: seq<Member>, m: Member, tree: Tree)
    requires Holds(done, tree) && m.directory && m.path != [] && CanMakeDirectory(tree, SourcePath(m))
    ensures Holds(done + [m], MakeDirectory(tree, SourcePath(m)))
  {
    var p, tree' := SourcePath(m), MakeDirectory(tree, SourcePath(m));
    WayFree(done, tree, p);
    forall q
      ensures q in tree' <==> q == [SOURCE] || (q != [] && Reaches(done + [m], q))
      ensures q in tree' ==> if FileAt(done + [m], q) then tree'[q].File? else tree'[q].Directory?
    {
      MadeDirectory(tree, p, q);
      ReachesSnoc(done, m, q);
      FileAtSnoc(done, m, q);
      FilesReach(done, q);
    }
    SameFiles(done, m, tree, tree');
  }

  lemma {:induction false} SameFiles(done: seq<Member>, m: Member, tree: Tree, tree': Tree)
    requires Holds(done, tree) && !Ordinary(m)
    requires forall q :: q in tree ==> q in tree' && tree'[q] == tree[q]
    ensures forall j :: 0 <= j < |done + [m]| && Ordinary((done + [m])[j]) ==>
              var p := SourcePath((done + [m])[j]);
              p in tree' && tree'[p].File? && tree'[p].content == Data((done + [m])[j].bytes) &&
              ModeKept((done + [m])[j].mode, tree'[p].mode)
  {}

  lemma {:induction false} FileHolds(w: World, done: seq<Member>, m: Member, e: Extracted)
    requires Holds(done, e.tree) && Ordinary(m)
    requires CanMakeDirectory(e.tree, Parent(SourcePath(m))) && SourcePath(m) !in e.tree
    ensures Holds(done + [m], WithFile(w, e, SourcePath(m), ModeFor(m.mode), m.bytes).tree)
  {
    var p, all := SourcePath(m), done + [m];
    var made := MakeDirectory(e.tree, Parent(p));
    var tree' := made[p := File(ModeFor(m.mode), Data(m.bytes))];
    PathsCompare(m, m);
    forall q
      ensures q in tree' <==> q == [SOURCE] || (q != [] && Reaches(all, q))
      ensures q in tree' ==> if FileAt(all, q) then tree'[q].File? else tree'[q].Directory?
    {
      MadeDirectory(e.tree, Parent(p), q);
      ReachesSnoc(done, m, q);
      FileAtSnoc(done, m, q);
      ParentOrSelf(q, p);
      FilesReach(done, q);
    }
    forall j | 0 <= j < |all| && Ordinary(all[j])
      ensures var q := SourcePath(all[j]);
              q in tree' && tree'[q].File? && tree'[q].content == Data(all[j].bytes) &&
              ModeKept(all[j].mode, tree'[q].mode)
    {
      if j < |done| {
        assert all[j] == done[j];
        MadeDirectory(e.tree, Parent(p), SourcePath(done[j]));
      }
    }
  }

  // ---- The whole archive ----

  lemma {:induction false} TotalSnoc(done: seq<Member>, m: Member)
    ensures TotalBytes(done + [m]) == TotalBytes(done) + BytesOf(m)
  {
    assert (done + [m])[..|done|] == done;
  }

  lemma {:induction false} RootHolds(done: seq<Member>, m: Member, tree: Tree)
    requires Holds(done, tree) && m.path == []
    ensures Holds(done + [m], tree)
  {
    forall q
      ensures q in tree <==> q == [SOURCE] || (q != [] && Reaches(done + [m], q))
      ensures q in tree ==> if FileAt(done + [m], q) then tree[q].File? else tree[q].Directory?
    {
      ReachesSnoc(done, m, q);
      FileAtSnoc(done, m, q);
    }
    SameFiles(done, m, tree, tree);
  }

  lemma {:induction false} RootFits(done: seq<Member>, m: Member)
    requires Extractable(done) && m.path == []
    ensures Fits(done, m)
  {}

  /** One member is extracted exactly when it fits among those before it. */
  lemma {:induction false} OneExactly(w: World, done: seq<Member>, m: Member, e: Extracted)
    requires Built(done, e) && Extractable(done)
    ensures ExtractOne(w, m, e).Some? <==> Fits(done, m)
    ensures ExtractOne(w, m, e).Some? ==> Built(done + [m], ExtractOne(w, m, e).value)
  {
    hide Holds;
    hide CanMakeDirectory;
    hide Clash;
    TotalSnoc(done, m);
    hide TotalBytes;
    if m.path == [] {
      RootHolds(done, m, e.tree);
      RootFits(done, m);
    } else if m.directory {
      DirectoryFits(done, m, e.tree);
      if ExtractOne(w, m, e).Some? { DirectoryHolds(done, m, e.tree); }
    } else {
      FileFits(done, m, e.tree);
      if ExtractOne(w, m, e).Some? { FileHolds(w, done, m, e); }
    }
  }

  lemma {:induction false} ExtractFrom(w: World, done: seq<Member>, rest: seq<Member>, e: Extracted)
    requires Built(done, e) && Extractable(done)
    ensures Extract(w, rest, e).Some? <==> Extractable(done + rest)
    ensures Extract(w, rest, e).Some? ==> Built(done + rest, Extract(w, rest, e).value)
    decreases |rest|
  {
    hide ExtractOne;
    hide Built;
    hide Extractable;
    hide Fits;
    if rest == [] {
      assert done + rest == done;
    } else {
      var m, more := rest[0], rest[1..];
      assert done + rest == done + [m] + more;
      OneExactly(w, done, m, e);
      ExtractableSnoc(done, m);
      if Fits(done, m) {
        ExtractFrom(w, done + [m], more, ExtractOne(w, m, e).value);
      } else {
        ExtractableFront(done + [m], more);
      }
    }
  }

  /** A front that cannot be extracted spoils the whole. */
  lemma {:induction false} ExtractableFront(front: seq<Member>, more: seq<Member>)
    ensures Extractable(front + more) ==> Extractable(front)
    decreases |more|
  {
    hide Extractable;
    hide Fits;
    if more == [] {
      assert front + more == front;
    } else {
      var shorter, m := more[..|more| - 1], more[|more| - 1];
      assert front + more == front + shorter + [m];
      ExtractableSnoc(front + shorter, m);
      ExtractableFront(front, shorter);
    }
  }

  /**
   * An archive is extracted exactly when no member below the root is special, its files have no more bytes than
   * allowed, and none of them is in the way of another member: in whatever order they come. Then the tree holds the
   * files, with their bytes and modes, the directories they need, and nothing else.
   */
  lemma {:induction false} ExtractExactly(w: World, members: seq<Member>)
    ensures var r := Extract(w, members, Extracted(EMPTY_SOURCE, map[], 0));
            && (r.Some? <==> Extractable(members))
            && (r.Some? ==> Holds(members, r.value.tree) && r.value.total == TotalBytes(members))
  {
    hide Extract;
    assert Holds([], EMPTY_SOURCE);
    hide Holds;
    assert Built([], Extracted(EMPTY_SOURCE, map[], 0)) && Extractable([]);
    ExtractFrom(w, [], members, Extracted(EMPTY_SOURCE, map[], 0));
    assert [] + members == members;
  }

  // ---- Sizes ----

  lemma {:induction false} TotalOne(w: World, tree: Tree, p: Path, n: Node)
    requires p !in tree
    ensures TotalSize(w, tree[p := n]) == TotalSize(w, tree) + NodeSize(w, n)
  {
    hide TotalSize;
    TotalWithout(w, tree[p := n], p);
    assert tree[p := n] - {p} == tree;
  }

  lemma {:induction false} TotalNothing(w: World)
    ensures TotalSize(w, map[]) == 0
  {}

  lemma {:induction false} LastOut(a: Tree, b: Tree, p: Path)
    requires p in b && a.Keys !! b.Keys
    ensures var c := b - {p};
            b == c[p := b[p]] && a + b == (a + c)[p := b[p]] && p !in a + c && a.Keys !! c.Keys
  {}

  lemma {:induction false} TotalApart(w: World, a: Tree, b: Tree)
    requires a.Keys !! b.Keys
    ensures TotalSize(w, a + b) == TotalSize(w, a) + TotalSize(w, b)
    decreases |b|
  {
    hide *;
    if b == map[] {
      assert a + b == a;
      TotalNothing(w);
    } else {
      var p :| p in b;
      var c := b - {p};
      LastOut(a, b, p);
      TotalApart(w, a, c);
      TotalOne(w, c, p, b[p]);
      TotalOne(w, a + c, p, b[p]);
    }
  }

  lemma {:induction false} DirectoriesFree(w: World, tree: Tree)
    requires forall p :: p in tree ==> tree[p].Directory?
    ensures TotalSize(w, tree) == 0
    decreases |tree|
  {
    if tree != map[] {
      var p :| p in tree;
      TotalWithout(w, tree, p);
      DirectoriesFree(w, tree - {p});
    }
  }

  lemma {:induction false} MakingFree(w: World, tree: Tree, p: Path)
    ensures TotalSize(w, MakeDirectory(tree, p)) == TotalSize(w, tree)
  {
    var made: Tree := map q | q in Prefixes(p) - tree.Keys :: Directory;
    TotalApart(w, tree, made);
    DirectoriesFree(w, made);
  }

  /** Extracting adds the bytes of the files and nothing else. */
  lemma {:induction false} ExtractedSize(w: World, members: seq<Member>, e: Extracted)
    requires Extract(w, members, e).Some? && TotalSize(w, e.tree) == e.total
    ensures var r := Extract(w, members, e).value; TotalSize(w, r.tree) == r.total
  {
    hide TotalSize;
    hide MakeDirectory;
    hide CanMakeDirectory;
    if members != [] {
      var m, next := members[0], ExtractOne(w, members[0], e).value;
      if m.path != [] {
        var p := SourcePath(m);
        if m.directory {
          MakingFree(w, e.tree, p);
        } else {
          MakingFree(w, e.tree, Parent(p));
          NotMade(e.tree, p);
          TotalOne(w, MakeDirectory(e.tree, Parent(p)), p, File(ModeFor(m.mode), Data(m.bytes)));
        }
      }
      ExtractedSize(w, members[1..], next);
    }
  }

  lemma {:induction false} NotMade(tree: Tree, p: Path)
    requires p != [] && p !in tree
    ensures p !in MakeDirectory(tree, Parent(p))
  {
    MadeDirectory(tree, Parent(p), p);
  }

  // ---- Which artifacts can be copied ----

  function GivenBytes(given: seq<Given>): nat {
    if given == [] then 0 else |given[0].bytes| + GivenBytes(given[1..])
  }

  predicate DifferentNames(given: seq<Given>) {
    forall i, j :: 0 <= i < j < |given| ==> given[i].filename != given[j].filename
  }

  /** None of the names is taken. */
  predicate NewNames(given: seq<Given>, done: seq<Artifact>) {
    forall i :: 0 <= i < |given| ==> given[i].filename !in Filenames(done)
  }

  lemma {:induction false} NamesFrom(given: seq<Given>, done: seq<Artifact>, a: Artifact)
    requires given != [] && a.filename == given[0].filename
    ensures DifferentNames(given) && NewNames(given, done) <==>
            given[0].filename !in Filenames(done) && DifferentNames(given[1..]) && NewNames(given[1..], done + [a])
  {
    FilenamesSnoc(done, a);
    hide Filenames;
    var rest := given[1..];
    assert forall i :: 1 <= i < |given| ==> rest[i - 1] == given[i];
    if DifferentNames(rest) && NewNames(rest, done + [a]) && given[0].filename !in Filenames(done) {
      forall i, j | 0 <= i < j < |given| ensures given[i].filename != given[j].filename {
        assert given[j] == rest[j - 1];
        if i > 0 { assert given[i] == rest[i - 1]; }
      }
      forall i | 0 <= i < |given| ensures given[i].filename !in Filenames(done) {
        if i > 0 { assert given[i] == rest[i - 1]; }
      }
    }
  }

  /** The artifacts are copied exactly when their names differ and they have no more bytes than allowed. */
  lemma {:induction false} CopyExactly(
    w: World, given: seq<Given>, done: seq<Artifact>, files: Tree, total: nat)
    requires total <= MAX_ARTIFACT_BYTES
    ensures CopyArtifacts(w, given, done, files, total).Some? <==>
            DifferentNames(given) && NewNames(given, done) && total + GivenBytes(given) <= MAX_ARTIFACT_BYTES
    decreases |given|
  {
    hide DifferentNames;
    hide NewNames;
    hide Filenames;
    if given == [] {
      NoNames(done);
    } else {
      var a := ArtifactOf(w, given[0]);
      NamesFrom(given, done, a);
      if a.filename !in Filenames(done) && total + a.size <= MAX_ARTIFACT_BYTES {
        CopyExactly(w, given[1..], done + [a],
                    files[[WHEELHOUSE, a.filename] := File(FILE_MODE, Data(given[0].bytes))], total + a.size);
      }
    }
  }

  lemma {:induction false} NoNames(done: seq<Artifact>)
    ensures DifferentNames([]) && NewNames([], done)
  {}

  /** Copying adds the artifacts' bytes. */
  lemma {:induction false} CopiedSize(w: World, given: seq<Given>, done: seq<Artifact>, files: Tree, total: nat)
    requires CopyArtifacts(w, given, done, files, total).Some?
    requires forall p :: p in files ==> |p| == 2 && p[1] in Filenames(done)
    ensures TotalSize(w, CopyArtifacts(w, given, done, files, total).value.1) == TotalSize(w, files) + GivenBytes(given)
    decreases |given|
  {
    hide TotalSize;
    if given != [] {
      var a := ArtifactOf(w, given[0]);
      var p := [WHEELHOUSE, a.filename];
      assert p[1] == a.filename;
      FilenamesSnoc(done, a);
      hide Filenames;
      TotalOne(w, files, p, File(FILE_MODE, Data(given[0].bytes)));
      CopiedSize(w, given[1..], done + [a], files[p := File(FILE_MODE, Data(given[0].bytes))], total + a.size);
    }
  }

  // ---- When a bundle is created ----

  /** The bytes of everything a bundle consists of. */
  function BundleBytes(w: World, r: Request, u: Unsigned, signature: string): nat {
    Size(w, r.archive) + TotalBytes(r.members) + GivenBytes(r.artifacts)
    + w.textSize(LockText(LockFor(r, u.artifacts)))
    + w.textSize(DescriptorText(Descriptor(u, OfUnsigned(u), signature))) + w.textSize(Marker(OfUnsigned(u)))
  }

  lemma {:induction false} TopSize(w: World, r: Request, e: Extracted, artifacts: seq<Artifact>, signature: string)
    ensures var u := UnsignedFor(w, r, e, artifacts);
            TotalSize(w, Rest(w, r, e, artifacts, signature)) ==
            Size(w, r.archive) + w.textSize(LockText(LockFor(r, artifacts)))
            + w.textSize(DescriptorText(Descriptor(u, OfUnsigned(u), signature))) + w.textSize(Marker(OfUnsigned(u)))
  {
    var u := UnsignedFor(w, r, e, artifacts);
    hide UnsignedFor;
    hide TotalSize;
    hide LockFor;
    var t0: Tree := map[];
    var t1 := t0[ARCHIVE := File(FILE_MODE, r.archive)];
    var t2 := t1[[WHEELHOUSE] := Directory];
    var t3 := t2[["locks"] := Directory];
    var t4 := t3[u.lockPath := File(FILE_MODE, LockText(LockFor(r, artifacts)))];
    var t5 := t4[DESCRIPTOR := File(FILE_MODE, DescriptorText(Descriptor(u, OfUnsigned(u), signature)))];
    var t6 := t5[COMPLETE := File(FILE_MODE, Marker(OfUnsigned(u)))];
    TopNames(w, r, e, artifacts);
    TotalNothing(w);
    TotalOne(w, t0, ARCHIVE, t1[ARCHIVE]);
    TotalOne(w, t1, [WHEELHOUSE], Directory);
    TotalOne(w, t2, ["locks"], Directory);
    TotalOne(w, t3, u.lockPath, t4[u.lockPath]);
    TotalOne(w, t4, DESCRIPTOR, t5[DESCRIPTOR]);
    TotalOne(w, t5, COMPLETE, t6[COMPLETE]);
    assert t6 == Rest(w, r, e, artifacts, signature);
  }

  lemma {:induction false} TopNames(w: World, r: Request, e: Extracted, artifacts: seq<Artifact>)
    ensures var lock := UnsignedFor(w, r, e, artifacts).lockPath;
            lock !in {ARCHIVE, [WHEELHOUSE], ["locks"], DESCRIPTOR, COMPLETE}
    ensures ARCHIVE != [WHEELHOUSE] && ARCHIVE != ["locks"] && ARCHIVE != DESCRIPTOR && ARCHIVE != COMPLETE
    ensures [WHEELHOUSE] != ["locks"] && [WHEELHOUSE] != DESCRIPTOR && [WHEELHOUSE] != COMPLETE
    ensures ["locks"] != DESCRIPTOR && ["locks"] != COMPLETE && DESCRIPTOR != COMPLETE
  {
    assert |UnsignedFor(w, r, e, artifacts).lockPath| == 2;
    assert ARCHIVE[0] != WHEELHOUSE && ARCHIVE[0] != "locks" && ARCHIVE[0] != DESCRIPTOR[0];
    assert ARCHIVE[0] != COMPLETE[0];
  }

  /** The parts of a bundle lie apart from each other. */
  lemma {:induction false} PartsApart(
    w: World, r: Request, e: Extracted, artifacts: seq<Artifact>, files: Tree, signature: string)
    requires ExtractedRight(w, e) && CopiedRight(w, artifacts, files)
    ensures e.tree.Keys !! files.Keys && (e.tree + files).Keys !! Rest(w, r, e, artifacts, signature).Keys
  {
    hide Inventory;
    hide ArtifactRight;
    hide DistinctNames;
    hide Rest;
    forall p | p in Rest(w, r, e, artifacts, signature) ensures p !in e.tree && p !in files {
      RestApart(w, r, e, artifacts, signature, p);
    }
  }

  lemma {:induction false} AssembledSize(
    w: World, r: Request, e: Extracted, artifacts: seq<Artifact>, files: Tree, signature: string)
    requires ExtractedRight(w, e) && CopiedRight(w, artifacts, files)
    requires TotalSize(w, e.tree) == TotalBytes(r.members) && TotalSize(w, files) == GivenBytes(r.artifacts)
    ensures var tree := Assembled(w, r, e, artifacts, files, signature);
            && TotalSize(w, tree) == BundleBytes(w, r, UnsignedFor(w, r, e, artifacts), signature)
            && (forall p :: p in tree ==> tree[p].Directory? || tree[p].File?)
  {
    PartsApart(w, r, e, artifacts, files, signature);
    AssembledPlain(w, r, e, artifacts, files, signature);
    hide TotalSize;
    hide Rest;
    hide ExtractedRight;
    hide CopiedRight;
    TotalApart(w, e.tree, files);
    TotalApart(w, e.tree + files, Rest(w, r, e, artifacts, signature));
    TopSize(w, r, e, artifacts, signature);
  }

  lemma {:induction false} AssembledPlain(
    w: World, r: Request, e: Extracted, artifacts: seq<Artifact>, files: Tree, signature: string)
    requires ExtractedRight(w, e) && CopiedRight(w, artifacts, files)
    ensures var tree := Assembled(w, r, e, artifacts, files, signature);
            forall p :: p in tree ==> tree[p].Directory? || tree[p].File?
  {
    hide Inventory;
    hide ArtifactRight;
    hide DistinctNames;
    var top := Rest(w, r, e, artifacts, signature);
    assert forall p :: p in top ==> top[p].Directory? || top[p].File?;
    hide Rest;
  }

  /** The body that is signed: of the extracted tree and the sorted records. */
  ghost function Body(w: World, r: Request, sort: seq<Artifact> -> seq<Artifact>): Unsigned
    requires Extractable(r.members)
  {
    ExtractExactly(w, r.members);
    UnsignedFor(w, r, Extract(w, r.members, Extracted(EMPTY_SOURCE, map[], 0)).value, sort(Records(w, r.artifacts)))
  }

  lemma {:induction false} FilesListed(w: World, members: seq<Member>)
    requires Extractable(members)
    ensures Extract(w, members, Extracted(EMPTY_SOURCE, map[], 0)).Some?
    ensures Extract(w, members, Extracted(EMPTY_SOURCE, map[], 0)).value.inventory == map[] <==>
            forall i :: 0 <= i < |members| ==> !Ordinary(members[i])
  {
    hide Extract;
    hide Ordinary;
    hide ExtractedRight;
    hide Extractable;
    ExtractExactly(w, members);
    EmptyRight(w);
    ExtractContents(w, members, Extracted(EMPTY_SOURCE, map[], 0));
    var inventory := Extract(w, members, Extracted(EMPTY_SOURCE, map[], 0)).value.inventory;
    forall i | 0 <= i < |members| && Ordinary(members[i]) ensures SourcePath(members[i]) in inventory {
      assert EntryOf(w, inventory, members[i]);
    }
    if inventory != map[] { var p :| p in inventory; }
  }

  /**
   * A bundle is created exactly when the archive is extractable and has a file, the artifacts have different names,
   * their numbers and bytes are within the limits, and so is everything together, with the lock, the descriptor and
   * the marker.
   */
  lemma {:induction false} CreatesExactly(
    w: World, r: Request, sort: seq<Artifact> -> seq<Artifact>, sign: (Unsigned, Digest) -> string)
    requires Rearranges(sort)
    ensures Create(w, r, sort, sign).Some? <==>
            && |r.members| <= MAX_SOURCE_FILES && (exists i :: 0 <= i < |r.members| && Ordinary(r.members[i]))
            && Extractable(r.members)
            && 0 < |r.artifacts| <= MAX_ARTIFACTS && DifferentNames(r.artifacts)
            && GivenBytes(r.artifacts) <= MAX_ARTIFACT_BYTES
            && var u := Body(w, r, sort); BundleBytes(w, r, u, sign(u, OfUnsigned(u))) <= MAX_BUNDLE_BYTES
  {
    hide Extract;
    hide CopyArtifacts;
    hide Ordinary;
    hide Extractable;
    hide DifferentNames;
    hide Assembled;
    hide UnsignedFor;
    hide BundleBytes;
    hide Holds;
    hide Records;
    hide ExtractedRight;
    hide CopiedRight;
    ExtractExactly(w, r.members);
    CopyExactly(w, r.artifacts, [], map[], 0);
    NoneTaken(r.artifacts);
    if Extractable(r.members) { FilesListed(w, r.members); }
    var extracted, copied := Extract(w, r.members, Extracted(EMPTY_SOURCE, map[], 0)),
                             CopyArtifacts(w, r.artifacts, [], map[], 0);
    if extracted.Some? && copied.Some? { CreatedSize(w, r, sort, sign); }
  }

  lemma {:induction false} NoneTaken(given: seq<Given>)
    ensures NewNames(given, [])
  {}

  lemma {:induction false} CreatedSize(
    w: World, r: Request, sort: seq<Artifact> -> seq<Artifact>, sign: (Unsigned, Digest) -> string)
    requires Rearranges(sort) && Extractable(r.members) && CopyArtifacts(w, r.artifacts, [], map[], 0).Some?
    requires Extract(w, r.members, Extracted(EMPTY_SOURCE, map[], 0)).Some?
    ensures var e := Extract(w, r.members, Extracted(EMPTY_SOURCE, map[], 0)).value;
            var copied := CopyArtifacts(w, r.artifacts, [], map[], 0).value;
            var records := sort(copied.0);
            var u := UnsignedFor(w, r, e, records);
            && u == Body(w, r, sort)
            && (SizeRight(w, Assembled(w, r, e, records, copied.1, sign(u, OfUnsigned(u)))) <==>
                BundleBytes(w, r, u, sign(u, OfUnsigned(u))) <= MAX_BUNDLE_BYTES)
  {
    hide Extract;
    hide CopyArtifacts;
    hide Extractable;
    hide Assembled;
    hide UnsignedFor;
    hide BundleBytes;
    hide Holds;
    hide Records;
    hide ExtractedRight;
    hide CopiedRight;
    hide TotalSize;
    hide TotalBytes;
    var start := Extracted(EMPTY_SOURCE, map[], 0);
    EmptyRight(w);
    DirectoriesFree(w, EMPTY_SOURCE);
    TotalNothing(w);
    ExtractExactly(w, r.members);
    ExtractedSize(w, r.members, start);
    ExtractKeeps(w, r.members, start);
    CopyKeeps(w, r.artifacts, [], map[], 0);
    CopyRecords(w, r.artifacts, [], map[], 0);
    CopiedSize(w, r.artifacts, [], map[], 0);
    var e := Extract(w, r.members, start).value;
    var (done, files) := CopyArtifacts(w, r.artifacts, [], map[], 0).value;
    assert done == Records(w, r.artifacts);
    SortKeeps(w, done, sort(done), files);
    var u := UnsignedFor(w, r, e, sort(done));
    AssembledSize(w, r, e, sort(done), files, sign(u, OfUnsigned(u)));
  }

  // ---- What is then in it ----

  /** The lock names the manager, and every recorded artifact with its digest, in their order. */
  predicate Locks(l: Lock, manager: string, artifacts: seq<Artifact>) {
    && l.manager == manager && |l.artifacts| == |artifacts|
    && forall i :: 0 <= i < |artifacts| ==> l.artifacts[i] == (artifacts[i].filename, artifacts[i].digest)
  }

  predicate Private(tree: Tree, p: Path, c: Content) {
    p in tree && tree[p] == File(384, c)
  }

  /** The files at the top of the bundle and the one lock. */
  ghost predicate TopHolds(r: Request, tree: Tree, u: Unsigned, signature: string) {
    && Private(tree, ["source.tar.gz"], r.archive)
    && Private(tree, ["descriptor.json"], DescriptorText(Descriptor(u, OfUnsigned(u), signature)))
    && Private(tree, ["COMPLETE"], Marker(OfUnsigned(u)))
    && (exists l :: Private(tree, ["locks", r.manager + ".json"], LockText(l)) && Locks(l, r.manager, u.artifacts) &&
                    u.lockDigest == OfContent(LockText(l)))
    && u.lockPath == ["locks", r.manager + ".json"] && u.request == r.text
    && u.archivePath == ["source.tar.gz"] && u.archiveDigest == OfContent(r.archive)
  }

  /** The given artifacts, each with its own bytes, are the wheels. */
  ghost predicate WheelsHold(r: Request, tree: Tree) {
    && (forall i :: 0 <= i < |r.artifacts| ==>
          Private(tree, ["wheelhouse", r.artifacts[i].filename], Data(r.artifacts[i].bytes)))
    && (forall n :: ["wheelhouse", n] in tree ==>
          exists i :: 0 <= i < |r.artifacts| && r.artifacts[i].filename == n)
  }

  /** Below the source directory the tree is the extracted one. */
  ghost predicate SourceHolds(r: Request, tree: Tree) {
    exists source :: Holds(r.members, source) && SameBelow(tree, source)
  }

  ghost predicate SameBelow(tree: Tree, source: Tree) {
    forall p: Path :: p != [] && p[0] == SOURCE ==>
      (p in tree <==> p in source) && (p in tree ==> tree[p] == source[p])
  }

  /** Besides `files`, exactly the given artifacts. */
  ghost predicate Adds(copied: Tree, given: seq<Given>, files: Tree) {
    && (forall p :: p in files ==> p in copied && copied[p] == files[p])
    && (forall i :: 0 <= i < |given| ==> Private(copied, [WHEELHOUSE, given[i].filename], Data(given[i].bytes)))
    && (forall p :: p in copied && p !in files ==>
          exists i :: 0 <= i < |given| && p == [WHEELHOUSE, given[i].filename])
  }

  lemma {:induction false} AddsOne(copied: Tree, given: seq<Given>, files: Tree)
    requires given != []
    requires var p := [WHEELHOUSE, given[0].filename];
             p !in files && Adds(copied, given[1..], files[p := File(FILE_MODE, Data(given[0].bytes))])
    ensures Adds(copied, given, files)
  {
    var p, rest := [WHEELHOUSE, given[0].filename], given[1..];
    var files1 := files[p := File(FILE_MODE, Data(given[0].bytes))];
    forall i | 0 <= i < |given| ensures Private(copied, [WHEELHOUSE, given[i].filename], Data(given[i].bytes)) {
      if i > 0 { assert given[i] == rest[i - 1]; } else { assert p in files1; }
    }
    forall q | q in copied && q !in files ensures exists i :: 0 <= i < |given| && q == [WHEELHOUSE, given[i].filename] {
      if q in files1 {
        assert q == [WHEELHOUSE, given[0].filename];
      } else {
        var j :| 0 <= j < |rest| && q == [WHEELHOUSE, rest[j].filename];
        assert given[j + 1] == rest[j];
      }
    }
  }

  lemma {:induction false} CopiedWheels(w: World, given: seq<Given>, done: seq<Artifact>, files: Tree, total: nat)
    requires CopyArtifacts(w, given, done, files, total).Some?
    requires forall p :: p in files ==> |p| == 2 && p[1] in Filenames(done)
    ensures Adds(CopyArtifacts(w, given, done, files, total).value.1, given, files)
    decreases |given|
  {
    if given != [] {
      var a := ArtifactOf(w, given[0]);
      var p := [WHEELHOUSE, a.filename];
      assert p[1] == a.filename;
      FilenamesSnoc(done, a);
      hide Filenames;
      CopiedWheels(w, given[1..], done + [a], files[p := File(FILE_MODE, Data(given[0].bytes))], total + a.size);
      AddsOne(CopyArtifacts(w, given, done, files, total).value.1, given, files);
      hide Adds;
    }
  }

  /**
   * A created bundle holds the archive, the descriptor with the body and its signature, the marker and the lock, all
   * private; the extracted source; and the given artifacts as its wheels, each with its own bytes.
   */
  lemma {:induction false} CreatedHolds(
    w: World, r: Request, sort: seq<Artifact> -> seq<Artifact>, sign: (Unsigned, Digest) -> string)
    requires Rearranges(sort) && Create(w, r, sort, sign).Some?
    ensures Extractable(r.members)
    ensures var tree, u := Create(w, r, sort, sign).value, Body(w, r, sort);
            TopHolds(r, tree, u, sign(u, OfUnsigned(u))) && SourceHolds(r, tree) && WheelsHold(r, tree)
  {
    hide Extract;
    hide CopyArtifacts;
    hide Extractable;
    hide Assembled;
    hide Holds;
    hide Records;
    hide ExtractedRight;
    hide CopiedRight;
    hide SizeRight;
    hide TopHolds;
    hide SourceHolds;
    hide WheelsHold;
    hide UnsignedFor;
    var start := Extracted(EMPTY_SOURCE, map[], 0);
    EmptyRight(w);
    ExtractExactly(w, r.members);
    ExtractKeeps(w, r.members, start);
    CopyKeeps(w, r.artifacts, [], map[], 0);
    CopyRecords(w, r.artifacts, [], map[], 0);
    var e := Extract(w, r.members, start).value;
    var (done, files) := CopyArtifacts(w, r.artifacts, [], map[], 0).value;
    assert done == Records(w, r.artifacts);
    SortKeeps(w, done, sort(done), files);
    var u := UnsignedFor(w, r, e, sort(done));
    CopiedWheels(w, r.artifacts, [], map[], 0);
    PartsHold(w, r, e, sort(done), files, sign(u, OfUnsigned(u)));
  }

  lemma {:induction false} PartsHold(
    w: World, r: Request, e: Extracted, artifacts: seq<Artifact>, files: Tree, signature: string)
    requires ExtractedRight(w, e) && CopiedRight(w, artifacts, files) && Holds(r.members, e.tree)
    requires forall i :: 0 <= i < |r.artifacts| ==>
               Private(files, [WHEELHOUSE, r.artifacts[i].filename], Data(r.artifacts[i].bytes))
    requires forall p :: p in files ==>
               exists i :: 0 <= i < |r.artifacts| && p == [WHEELHOUSE, r.artifacts[i].filename]
    ensures var tree := Assembled(w, r, e, artifacts, files, signature);
            TopHolds(r, tree, UnsignedFor(w, r, e, artifacts), signature) && SourceHolds(r, tree) && WheelsHold(r, tree)
  {
    hide ExtractedRight;
    hide CopiedRight;
    hide Assembled;
    hide Holds;
    var tree := Assembled(w, r, e, artifacts, files, signature);
    AssembledFixed(w, r, e, artifacts, files, signature);
    assert TopHolds(r, tree, UnsignedFor(w, r, e, artifacts), signature) by {
      assert Locks(LockFor(r, artifacts), r.manager, artifacts);
    }
    forall p: Path | p != [] && p[0] == SOURCE
      ensures (p in tree <==> p in e.tree) && (p in tree ==> tree[p] == e.tree[p]) {
      AssembledParts(w, r, e, artifacts, files, signature, p);
    }
    assert SameBelow(tree, e.tree);
    forall n: string
      ensures ([WHEELHOUSE, n] in tree <==> [WHEELHOUSE, n] in files)
      ensures [WHEELHOUSE, n] in tree ==> tree[[WHEELHOUSE, n]] == files[[WHEELHOUSE, n]] {
      AssembledParts(w, r, e, artifacts, files, signature, [WHEELHOUSE, n]);
    }
    forall n | [WHEELHOUSE, n] in tree ensures exists i :: 0 <= i < |r.artifacts| && r.artifacts[i].filename == n {
      var i :| 0 <= i < |r.artifacts| && [WHEELHOUSE, n] == [WHEELHOUSE, r.artifacts[i].filename];
      assert [WHEELHOUSE, n][1] == [WHEELHOUSE, r.artifacts[i].filename][1];
    }
  }
}
