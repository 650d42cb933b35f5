/** What the candidate reader collects from the physical members: unique files and directories within the limits. */
module UstarTree {
  import opened Bytes
  import opened UstarFields
  import opened Ustar

  const MAX_MEMBERS := 256

  datatype Tree = Tree(files: map<seq<byte>, (seq<byte>, nat)>, directories: set<seq<byte>>)

  predicate DistinctPaths(members: seq<Member>) {
    forall i, j :: 0 <= i < j < |members| ==> members[i].header.name != members[j].header.name
  }

  /** The bytes of the ordinary files. */
  function FileBytes(members: seq<Member>): nat {
    if members == [] then 0
    else
      var m := members[|members| - 1];
      FileBytes(members[..|members| - 1]) + Weight(m)
  }

  /** What is accepted: canonical paths, each once, not too many, and not too large together. */
  ghost predicate Collectable(members: seq<Member>) {
    && DistinctPaths(members) && |members| <= MAX_MEMBERS && FileBytes(members) <= READER_LIMIT
    && forall i :: 0 <= i < |members| ==> Canonical(members[i].header.name)
  }

  /** The tree has each member under its path, and nothing else. */
  ghost predicate Holds(tree: Tree, members: seq<Member>) {
    && (forall i :: 0 <= i < |members| ==> Placed(tree, members[i]))
    && (forall p :: p in tree.files ==>
          exists i :: 0 <= i < |members| && members[i].header.name == p && !members[i].header.directory)
    && (forall p :: p in tree.directories ==>
          exists i :: 0 <= i < |members| && members[i].header.name == p && members[i].header.directory)
  }

  predicate Placed(tree: Tree, m: Member) {
    if m.header.directory then m.header.name in tree.directories
    else m.header.name in tree.files && tree.files[m.header.name] == (m.content, m.header.mode)
  }

  /** The bytes a member adds to the total. */
  function Weight(m: Member): nat {
    if m.header.directory then 0 else m.header.size
  }

  function Add(tree: Tree, m: Member): Tree {
    if m.header.directory then tree.(directories := tree.directories + {m.header.name})
    else tree.(files := tree.files[m.header.name := (m.content, m.header.mode)])
  }

  ghost predicate Fresh(members: seq<Member>, name: seq<byte>) {
    forall i :: 0 <= i < |members| ==> members[i].header.name != name
  }

  /** The set of the paths so far. */
  ghost predicate Seen(seen: set<seq<byte>>, members: seq<Member>) {
    forall name :: name in seen <==> !Fresh(members, name)
  }

  /** `_tar`; None where it raises. */
  method Collect(data: seq<byte>) returns (tree: Option<Tree>)
    ensures tree.Some? <==> ReadArchive(data).complete && Collectable(ReadArchive(data).members)
    ensures tree.Some? ==> Holds(tree.value, ReadArchive(data).members)
  {
    hide Canonical;
    hide ReadArchive;
    hide Collectable;
    hide Holds;
    hide FileBytes;
    hide Seen;
    hide Fresh;
    var members, complete := PhysicalMembers(data);
    var t, seen: set<seq<byte>>, total := Tree(map[], {}), {}, 0;
    NothingYet();
    assert members[..0] == [];
    for k := 0 to |members|
      invariant Collectable(members[..k]) && Holds(t, members[..k])
      invariant total == FileBytes(members[..k]) <= READER_LIMIT && |seen| == k && Seen(seen, members[..k])
    {
      var m := members[k];
      ghost var before := members[..k];
      assert members[..k + 1] == before + [m];
      CollectableNext(before, m);
      SeenNext(seen, before, m);
      TooMuch(members, k + 1);
      if !Canonical(m.header.name) { return None; }
      if m.header.name in seen || |seen| >= MAX_MEMBERS { return None; }
      HoldsMore(t, before, m);
      seen := seen + {m.header.name};
      if m.header.directory {
        t := t.(directories := t.directories + {m.header.name});
      } else {
        total := total + m.header.size;
        if total > READER_LIMIT { return None; }
        t := t.(files := t.files[m.header.name := (m.content, m.header.mode)]);
      }
    }
    assert members[..|members|] == members;
    tree := if complete then Some(t) else None;
  }

  lemma {:induction false} SeenNext(seen: set<seq<byte>>, members: seq<Member>, m: Member)
    requires Seen(seen, members)
    ensures m.header.name in seen <==> !Fresh(members, m.header.name)
    ensures Seen(seen + {m.header.name}, members + [m])
  {
    FreshNext(members, m);
    hide Fresh;
  }

  lemma {:induction false} NothingYet()
    ensures Collectable([]) && Holds(Tree(map[], {}), []) && FileBytes([]) == 0 && Seen({}, [])
  {}

  lemma {:induction false} FreshNext(members: seq<Member>, m: Member)
    ensures forall name :: Fresh(members + [m], name) <==> Fresh(members, name) && name != m.header.name
  {
    var more := members + [m];
    forall name ensures Fresh(more, name) <==> Fresh(members, name) && name != m.header.name {
      assert more[|members|] == m && forall i :: 0 <= i < |members| ==> more[i] == members[i];
    }
  }

  /** What one more member must be like. */
  lemma {:induction false} CollectableNext(members: seq<Member>, m: Member)
    ensures FileBytes(members + [m]) == FileBytes(members) + Weight(m)
    ensures Collectable(members) ==>
              (Collectable(members + [m]) <==>
                 Canonical(m.header.name) && Fresh(members, m.header.name) && |members| < MAX_MEMBERS
                 && FileBytes(members) + Weight(m) <= READER_LIMIT)
  {
    hide Canonical;
    var more := members + [m];
    assert more[..|members|] == members && more[|members|] == m;
    hide FileBytes;
    if Collectable(members) && Canonical(m.header.name) && Fresh(members, m.header.name) {
      forall i, j | 0 <= i < j < |more| ensures more[i].header.name != more[j].header.name {
        assert more[i] == members[i];
      }
    }
    if Collectable(more) {
      forall i | 0 <= i < |members| ensures members[i].header.name != m.header.name {
        assert more[i].header.name != more[|members|].header.name;
      }
    }
  }

  /** Members that start badly stay bad. */
  lemma {:induction false} TooMuch(members: seq<Member>, k: nat)
    requires k <= |members|
    ensures Collectable(members) ==> Collectable(members[..k])
  {
    hide Canonical;
    assert forall i :: 0 <= i < k ==> members[..k][i] == members[i];
    FileBytesGrow(members, k);
  }

  lemma {:induction false} FileBytesGrow(members: seq<Member>, k: nat)
    requires k <= |members|
    ensures FileBytes(members[..k]) <= FileBytes(members)
  {
    if k == |members| {
      assert members[..k] == members;
    } else {
      var front := members[..|members| - 1];
      FileBytesGrow(front, k);
      assert front[..k] == members[..k];
    }
  }

  lemma {:induction false} HoldsMore(tree: Tree, members: seq<Member>, m: Member)
    requires Holds(tree, members) && Fresh(members, m.header.name)
    ensures Holds(Add(tree, m), members + [m])
  {
    var tree' := Add(tree, m);
    var more := members + [m];
    forall i | 0 <= i < |more| ensures Placed(tree', more[i]) {
      if i < |members| {
        assert Placed(tree, members[i]) && more[i] == members[i];
        assert members[i].header.name != m.header.name;
      }
    }
    forall p | p in tree'.files
      ensures exists i :: 0 <= i < |more| && more[i].header.name == p && !more[i].header.directory {
      if p in tree.files {
        var i :| 0 <= i < |members| && members[i].header.name == p && !members[i].header.directory;
        assert more[i] == members[i];
      } else {
        assert more[|members|] == m;
      }
    }
    forall p | p in tree'.directories
      ensures exists i :: 0 <= i < |more| && more[i].header.name == p && more[i].header.directory {
      if p in tree.directories {
        var i :| 0 <= i < |members| && members[i].header.name == p && members[i].header.directory;
        assert more[i] == members[i];
      } else {
        assert more[|members|] == m;
      }
    }
  }

  // ---- The records recovered ----

  function RecordBytes(records: seq<Record>): nat {
    if records == [] then 0 else RecordBytes(records[..|records| - 1]) + |records[|records| - 1].content|
  }

  ghost predicate DistinctRecords(records: seq<Record>) {
    forall i, j :: 0 <= i < j < |records| ==> records[i].name != records[j].name
  }

  lemma {:induction false} SameBytes(records: seq<Record>)
    ensures FileBytes(ExpectedMembers(records)) == RecordBytes(records)
  {
    if records != [] {
      var front := records[..|records| - 1];
      SameBytes(front);
      assert ExpectedMembers(records)[..|records| - 1] == ExpectedMembers(front);
    }
  }

  /** The tree is exactly the records, as files. */
  ghost predicate Recovers(tree: Tree, records: seq<Record>) {
    && tree.directories == {}
    && (forall i :: 0 <= i < |records| ==>
          records[i].name in tree.files && tree.files[records[i].name] == (records[i].content, records[i].mode))
    && (forall p :: p in tree.files ==> exists i :: 0 <= i < |records| && records[i].name == p)
  }

  /**
   * The reader takes an archive the writer made exactly when its names are distinct and its limits are kept, and what
   * it then holds is exactly the records, as files with their contents and modes.
   */
  lemma {:induction false} RecordsRecovered(records: seq<Record>, tree: Tree)
    requires AllArchivable(records)
    ensures Archive(records).Some? && ReadArchive(Archive(records).value).complete
    ensures var members := ReadArchive(Archive(records).value).members;
            && (Collectable(members) <==>
                  DistinctRecords(records) && |records| <= MAX_MEMBERS && RecordBytes(records) <= READER_LIMIT)
            && (Holds(tree, members) ==> Recovers(tree, records))
  {
    hide Canonical;
    hide Archive;
    hide ReadArchive;
    hide SplitName;
    ArchiveRoundTrip(records);
    SameBytes(records);
    hide FileBytes;
    hide RecordBytes;
    var members := ExpectedMembers(records);
    assert forall i :: 0 <= i < |records| ==> Archivable(records[i]) && members[i] == Expected(records[i]);
    if Holds(tree, members) { HoldsRecovers(tree, records); }
    hide Holds;
    hide Recovers;
  }

  lemma {:induction false} HoldsRecovers(tree: Tree, records: seq<Record>)
    requires Holds(tree, ExpectedMembers(records))
    ensures Recovers(tree, records)
  {
    var members := ExpectedMembers(records);
    forall i | 0 <= i < |records|
      ensures records[i].name in tree.files && tree.files[records[i].name] == (records[i].content, records[i].mode) {
      assert Placed(tree, members[i]);
    }
  }
}
