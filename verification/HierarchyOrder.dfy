/** What the order in which sub-issues are fetched shows in the cache, sub-issues with equal numbers included. */
module HierarchyOrder {
  import opened Bytes
  import opened Texts
  import opened Sorting
  import opened HierarchyCache
  import Seqs

  /** An issue, and another order of its children. */
  datatype Twin = Twin(issue: Issue, other: seq<Link>)

  function Left(t: Twin): Issue {
    t.issue
  }

  function Right(t: Twin): Issue {
    t.issue.(children := t.other)
  }

  ghost predicate Reorders(t: Twin) {
    multiset(t.issue.children) == multiset(t.other)
  }

  ghost predicate AllReorder(twins: seq<Twin>) {
    forall k :: 0 <= k < |twins| ==> Reorders(twins[k])
  }

  /** The children read the same in both orders. */
  predicate ReadsSame(t: Twin) {
    ChildText(t.issue.children) == ChildText(t.other)
  }

  ghost predicate AllReadSame(twins: seq<Twin>) {
    forall k :: 0 <= k < |twins| ==> ReadsSame(twins[k])
  }

  // ---- The fingerprint ----

  predicate TwinLeq(a: Twin, b: Twin) {
    IssueLeq(a.issue, b.issue)
  }

  lemma {:induction false} NumbersMapped(links: seq<Link>)
    ensures Numbers(links) == Map(links, (l: Link) => l.number)
  {}

  lemma {:induction false} RowSame(w: World, t: Twin)
    requires Reorders(t)
    ensures RowOf(w, Left(t)) == RowOf(w, Right(t))
  {
    var a, b := t.issue.children, t.other;
    NumbersMapped(a);
    NumbersMapped(b);
    MapIgnoresOrder(a, b, (l: Link) => l.number);
    NumbersOrdered();
    SortIgnoresOrder(Numbers(a), Numbers(b), NumberLeq);
    hide Sort;
    hide Numbers;
  }

  lemma {:induction false} SortedTwins(twins: seq<Twin>)
    ensures Sort(Map(twins, Left), IssueLeq) == Map(Sort(twins, TwinLeq), Left)
    ensures Sort(Map(twins, Right), IssueLeq) == Map(Sort(twins, TwinLeq), Right)
    ensures multiset(Sort(twins, TwinLeq)) == multiset(twins)
  {
    SortMap(twins, Left, IssueLeq, TwinLeq);
    SortMap(twins, Right, IssueLeq, TwinLeq);
    SortSame(twins, TwinLeq);
  }

  lemma {:induction false} StillReorder(a: seq<Twin>, b: seq<Twin>)
    requires multiset(a) == multiset(b) && AllReorder(a)
    ensures AllReorder(b)
  {
    hide Reorders;
    forall k | 0 <= k < |b| ensures Reorders(b[k]) {
      assert b[k] in multiset(a);
      var j :| 0 <= j < |a| && a[j] == b[k];
    }
  }

  /** The fingerprint takes the children's numbers only, and in order. */
  lemma {:induction false} FingerprintSame(w: World, twins: seq<Twin>)
    requires AllReorder(twins)
    ensures Fingerprint(w, Map(twins, Left)) == Fingerprint(w, Map(twins, Right))
  {
    SortedTwins(twins);
    var sorted := Sort(twins, TwinLeq);
    StillReorder(twins, sorted);
    hide Sort;
    forall k | 0 <= k < |sorted| ensures RowOf(w, Left(sorted[k])) == RowOf(w, Right(sorted[k])) {
      RowSame(w, sorted[k]);
    }
    hide RowOf;
    hide Left;
    hide Right;
    assert Rows(w, Map(twins, Left)) == Rows(w, Map(twins, Right));
  }

  // ---- Lengths ----

  function Lengths(texts: seq<string>): nat {
    if texts == [] then 0 else |texts[0]| + Lengths(texts[1..])
  }

  lemma {:induction false} LengthsAppend(a: seq<string>, b: seq<string>)
    ensures Lengths(a + b) == Lengths(a) + Lengths(b)
  {
    if a == [] {
      assert a + b == b;
    } else {
      assert (a + b)[0] == a[0] && (a + b)[1..] == a[1..] + b;
      LengthsAppend(a[1..], b);
    }
  }

  lemma {:induction false} LengthsIgnoreOrder(a: seq<string>, b: seq<string>)
    requires multiset(a) == multiset(b)
    ensures Lengths(a) == Lengths(b)
  {
    hide Lengths;
    assert |a| == |multiset(a)| && |b| == |multiset(b)|;
    if a == [] {
      assert b == a;
    } else {
      assert a[0] in multiset(b);
      var k :| 0 <= k < |b| && b[k] == a[0];
      PullOut(a, 0);
      PullOut(b, k);
      assert a[..0] + a[1..] == a[1..];
      LengthsIgnoreOrder(a[1..], b[..k] + b[k + 1..]);
      LengthPulledOut(a, 0);
      LengthPulledOut(b, k);
    }
  }

  lemma {:induction false} LengthPulledOut(texts: seq<string>, k: nat)
    requires k < |texts|
    ensures Lengths(texts) == |texts[k]| + Lengths(texts[..k] + texts[k + 1..])
  {
    var x, rest := texts[k], texts[k + 1..];
    LengthsAppend(texts[..k], rest);
    LengthsAppend(texts[..k], [x] + rest);
    LengthsAppend([x], rest);
    assert Lengths([x]) == |x|;
    hide Lengths;
    assert texts == texts[..k] + ([x] + rest);
  }

  lemma {:induction false} CommaLength(texts: seq<string>)
    requires texts != []
    ensures |Comma(texts)| == Lengths(texts) + 2 * (|texts| - 1)
  {
    if |texts| > 1 { CommaLength(texts[1..]); }
  }

  lemma {:induction false} LinkTextsMapped(links: seq<Link>)
    ensures LinkTexts(links) == Map(links, LinkText)
  {
    hide LinkText;
  }

  lemma {:induction false} ChildTextLength(t: Twin)
    requires Reorders(t)
    ensures |ChildText(t.issue.children)| == |ChildText(t.other)|
  {
    hide LinkText;
    var a, b := t.issue.children, t.other;
    assert |a| == |multiset(a)| && |b| == |multiset(b)|;
    if a != [] {
      LinkTextsMapped(a);
      LinkTextsMapped(b);
      MapIgnoresOrder(a, b, LinkText);
      LengthsIgnoreOrder(LinkTexts(a), LinkTexts(b));
      CommaLength(LinkTexts(a));
      CommaLength(LinkTexts(b));
      hide Comma;
      hide Lengths;
    }
  }

  // ---- The rendering ----

  lemma {:induction false} EndedAppend(a: seq<string>, b: seq<string>)
    ensures Ended(a + b) == Ended(a) + Ended(b)
  {
    if a == [] {
      assert a + b == b && "" + Ended(b) == Ended(b);
    } else {
      assert (a + b)[0] == a[0] && (a + b)[1..] == a[1..] + b;
      EndedAppend(a[1..], b);
      Seqs.Assoc(a[0] + "\n", Ended(a[1..]), Ended(b));
    }
  }

  lemma {:induction false} SplitSame<T>(a: seq<T>, b: seq<T>, c: seq<T>, d: seq<T>)
    requires |a| == |c|
    ensures a + b == c + d <==> a == c && b == d
  {
    Seqs.DropAppend(a, b);
    Seqs.DropAppend(c, d);
  }

  /** A block's lines before and after the children's. */
  function Above(i: Issue): seq<string> {
    ["### #" + Decimal(i.number) + " " + i.title,
     "- URL: " + i.url,
     "- Parent: " + (if i.parent.None? then "none" else LinkText(i.parent.value))]
  }

  function Below(w: World, i: Issue): seq<string> {
    ["- Labels: " + (if i.labels == [] then "none" else Comma(Sort(i.labels, w.labelLeq))),
     "- Summary: " + (if i.summary == "" then "No summary provided." else i.summary),
     ""]
  }

  lemma {:induction false} BlockParts(w: World, i: Issue)
    ensures Block(w, i) == Above(i) + (["- Children: " + ChildText(i.children)] + Below(w, i))
  {
    hide ChildText;
    hide Comma;
    hide Sort;
    hide LinkText;
    hide Decimal;
  }

  lemma {:induction false} LineEnded(line: string)
    ensures Ended([line]) == line + "\n"
  {
    assert [line][1..] == [];
    assert line + "\n" + "" == line + "\n";
  }

  lemma {:induction false} BlockEnded(w: World, i: Issue)
    ensures Ended(Block(w, i))
         == Ended(Above(i)) + (("- Children: " + ChildText(i.children) + "\n") + Ended(Below(w, i)))
  {
    BlockParts(w, i);
    var line := "- Children: " + ChildText(i.children);
    hide Block;
    hide Above;
    hide Below;
    hide ChildText;
    EndedAppend(Above(i), [line] + Below(w, i));
    EndedAppend([line], Below(w, i));
    LineEnded(line);
  }

  lemma {:induction false} LabelledSame(name: string, a: string, b: string)
    requires |a| == |b|
    ensures name + a + "\n" == name + b + "\n" <==> a == b
  {
    SplitSame(name + a, "\n", name + b, "\n");
    SplitSame(name, a, name, b);
  }

  ghost predicate SameText(a: string, b: string, same: bool) {
    |a| == |b| && (a == b <==> same)
  }

  lemma {:induction false} BlockTwins(w: World, t: Twin)
    requires Reorders(t)
    ensures SameText(Ended(Block(w, Left(t))), Ended(Block(w, Right(t))), ReadsSame(t))
  {
    var i, j := Left(t), Right(t);
    BlockEnded(w, i);
    BlockEnded(w, j);
    assert Above(i) == Above(j) && Below(w, i) == Below(w, j);
    ChildTextLength(t);
    hide Block;
    hide Above;
    hide Below;
    hide Ended;
    hide ChildText;
    LabelledSame("- Children: ", ChildText(i.children), ChildText(j.children));
    var a, c := Ended(Above(i)), Ended(Below(w, i));
    var x, y := "- Children: " + ChildText(i.children) + "\n", "- Children: " + ChildText(j.children) + "\n";
    SplitSame(x, c, y, c);
    SplitSame(a, x + c, a, y + c);
  }

  lemma {:induction false} TextsSame(a: string, b: string, c: string, d: string, p: bool, q: bool)
    requires SameText(a, c, p) && SameText(b, d, q)
    ensures SameText(a + b, c + d, p && q)
  {
    SplitSame(a, b, c, d);
  }

  lemma {:induction false} BlocksCons(w: World, x: Issue, rest: seq<Issue>)
    ensures Ended(Blocks(w, [x] + rest)) == Ended(Block(w, x)) + Ended(Blocks(w, rest))
  {
    assert ([x] + rest)[1..] == rest;
    EndedAppend(Block(w, x), Blocks(w, rest));
    hide Block;
    hide Ended;
  }

  lemma {:induction false} BlocksTwins(w: World, twins: seq<Twin>)
    requires AllReorder(twins)
    ensures SameText(Ended(Blocks(w, Map(twins, Left))), Ended(Blocks(w, Map(twins, Right))), AllReadSame(twins))
  {
    hide Ended;
    hide Block;
    hide Reorders;
    hide ReadsSame;
    if twins == [] {
      assert Map(twins, Left) == [] == Map(twins, Right);
    } else {
      var t, rest := twins[0], twins[1..];
      assert Reorders(t);
      BlockTwins(w, t);
      BlocksTwins(w, rest);
      Seqs.Uncons(twins);
      MapCons(t, rest, Left);
      MapCons(t, rest, Right);
      AllCons(t, rest);
      hide Left;
      hide Right;
      hide Blocks;
      hide Map;
      hide AllReadSame;
      hide SameText;
      BlocksCons(w, Left(t), Map(rest, Left));
      BlocksCons(w, Right(t), Map(rest, Right));
      TextsSame(Ended(Block(w, Left(t))), Ended(Blocks(w, Map(rest, Left))),
                Ended(Block(w, Right(t))), Ended(Blocks(w, Map(rest, Right))), ReadsSame(t), AllReadSame(rest));
    }
  }

  lemma {:induction false} AllCons(t: Twin, rest: seq<Twin>)
    ensures AllReadSame([t] + rest) <==> ReadsSame(t) && AllReadSame(rest)
  {
    hide ReadsSame;
    assert ([t] + rest)[0] == t;
    assert forall k :: 0 <= k < |rest| ==> ([t] + rest)[k + 1] == rest[k];
  }

  /** The twins of one kind, as they are shown. */
  function TwinsOfKind(twins: seq<Twin>, kind: Kind): seq<Twin> {
    Sort(Filter(twins, (t: Twin) => t.issue.kind == kind), TwinLeq)
  }

  lemma {:induction false} KindMapped(twins: seq<Twin>, kind: Kind)
    ensures OfKind(Map(twins, Left), kind) == Map(TwinsOfKind(twins, kind), Left)
    ensures OfKind(Map(twins, Right), kind) == Map(TwinsOfKind(twins, kind), Right)
  {
    var keep, twinKeep := (i: Issue) => i.kind == kind, (t: Twin) => t.issue.kind == kind;
    FilterMap(twins, Left, keep, twinKeep);
    FilterMap(twins, Right, keep, twinKeep);
    SortedTwins(Filter(twins, twinKeep));
    hide Sort;
    hide Filter;
    hide Map;
  }

  lemma {:induction false} KindHas(twins: seq<Twin>, kind: Kind, t: Twin)
    ensures t in TwinsOfKind(twins, kind) <==> t in twins && t.issue.kind == kind
  {
    var keep := (t: Twin) => t.issue.kind == kind;
    FilterExact(twins, keep, t);
    SortSame(Filter(twins, keep), TwinLeq);
    assert t in TwinsOfKind(twins, kind) <==> t in multiset(Filter(twins, keep));
  }

  lemma {:induction false} KindsReadSame(twins: seq<Twin>)
    ensures AllReadSame(twins) <==> AllReadSame(TwinsOfKind(twins, Epic)) && AllReadSame(TwinsOfKind(twins, Feature))
  {
    hide ReadsSame;
    forall t, kind ensures t in TwinsOfKind(twins, kind) <==> t in twins && t.issue.kind == kind {
      KindHas(twins, kind, t);
    }
    hide TwinsOfKind;
    InReadSame(twins);
    InReadSame(TwinsOfKind(twins, Epic));
    InReadSame(TwinsOfKind(twins, Feature));
    hide AllReadSame;
  }

  lemma {:induction false} InReadSame(twins: seq<Twin>)
    ensures AllReadSame(twins) <==> forall t :: t in twins ==> ReadsSame(t)
  {
    hide ReadsSame;
    if forall t :: t in twins ==> ReadsSame(t) {
      forall k | 0 <= k < |twins| ensures ReadsSame(twins[k]) { assert twins[k] in twins; }
    }
  }

  lemma {:induction false} KindReorders(twins: seq<Twin>, kind: Kind)
    requires AllReorder(twins)
    ensures AllReorder(TwinsOfKind(twins, kind))
  {
    hide Reorders;
    var kept := TwinsOfKind(twins, kind);
    forall k | 0 <= k < |kept| ensures Reorders(kept[k]) { KindHas(twins, kind, kept[k]); }
  }

  function Title(title: string): seq<string> {
    ["## " + title, ""]
  }

  lemma {:induction false} SectionEnded(w: World, title: string, issues: seq<Issue>)
    ensures Ended(Section(w, title, issues))
         == Ended(Title(title)) + Ended(if issues == [] then ["_None_", ""] else Blocks(w, issues))
  {
    hide Blocks;
    hide Ended;
    EndedAppend(Title(title), if issues == [] then ["_None_", ""] else Blocks(w, issues));
  }

  lemma {:induction false} SectionTwins(w: World, title: string, twins: seq<Twin>)
    requires AllReorder(twins)
    ensures SameText(
      Ended(Section(w, title, Map(twins, Left))), Ended(Section(w, title, Map(twins, Right))), AllReadSame(twins))
  {
    var a, b := Map(twins, Left), Map(twins, Right);
    SectionEnded(w, title, a);
    SectionEnded(w, title, b);
    BlocksTwins(w, twins);
    hide Section;
    hide Blocks;
    hide Ended;
    hide Title;
    hide Reorders;
    hide ReadsSame;
    var head := Ended(Title(title));
    if twins == [] {
      assert a == b;
    } else {
      SplitSame(head, Ended(Blocks(w, a)), head, Ended(Blocks(w, b)));
    }
  }

  function Top(fingerprint: string): seq<string> {
    ["- Fingerprint: `" + fingerprint + "`",
     "- Included Issue Types: `Epic, Feature`",
     "",
     HINT,
     ""]
  }

  lemma {:induction false} BodyEnded(w: World, fingerprint: string, issues: seq<Issue>)
    ensures Ended(Body(w, fingerprint, issues))
         == Ended(Top(fingerprint)) + Ended(Section(w, "Epics", OfKind(issues, Epic)))
          + Ended(Section(w, "Features", OfKind(issues, Feature)))
  {
    hide Ended;
    hide Section;
    hide OfKind;
    hide HINT;
    EndedAppend(Top(fingerprint), Section(w, "Epics", OfKind(issues, Epic)));
    EndedAppend(Top(fingerprint) + Section(w, "Epics", OfKind(issues, Epic)),
                Section(w, "Features", OfKind(issues, Feature)));
  }

  lemma {:induction false} BodyTwins(w: World, fingerprint: string, twins: seq<Twin>)
    requires AllReorder(twins)
    ensures SameText(
      Ended(Body(w, fingerprint, Map(twins, Left))), Ended(Body(w, fingerprint, Map(twins, Right))), AllReadSame(twins))
  {
    var a, b := Map(twins, Left), Map(twins, Right);
    var e, f := TwinsOfKind(twins, Epic), TwinsOfKind(twins, Feature);
    BodyEnded(w, fingerprint, a);
    BodyEnded(w, fingerprint, b);
    KindMapped(twins, Epic);
    KindMapped(twins, Feature);
    KindsReadSame(twins);
    KindReorders(twins, Epic);
    KindReorders(twins, Feature);
    SectionTwins(w, "Epics", e);
    SectionTwins(w, "Features", f);
    hide Body;
    hide Section;
    hide Ended;
    hide OfKind;
    hide TwinsOfKind;
    hide Map;
    hide Top;
    hide AllReorder;
    hide AllReadSame;
    var t := Ended(Top(fingerprint));
    var x, y := Ended(Section(w, "Epics", Map(e, Left))), Ended(Section(w, "Epics", Map(e, Right)));
    SplitSame(t, x, t, y);
    TextsSame(t + x, Ended(Section(w, "Features", Map(f, Left))), t + y, Ended(Section(w, "Features", Map(f, Right))),
              AllReadSame(e), AllReadSame(f));
  }

  // ---- The end of the text, where spaces are stripped ----

  lemma {:induction false} Shown(z: string)
    requires z != "" && !IsSpace(z[0])
    ensures Rstrip(z) != ""
  {
    RstripPrefix(z);
    hide IsSpace;
  }

  /** Both texts end alike, in something to see. */
  ghost predicate EndAlike(a: string, b: string) {
    exists x, y, z :: a == x + z && b == y + z && Rstrip(z) != ""
  }

  lemma {:induction false} AlikeBehind(a: string, b: string, c: string, d: string)
    requires EndAlike(c, d)
    ensures EndAlike(a + c, b + d)
  {
    hide Rstrip;
    var x, y, z :| c == x + z && d == y + z && Rstrip(z) != "";
    Seqs.Assoc(a, x, z);
    Seqs.Assoc(b, y, z);
    assert a + c == (a + x) + z && b + d == (b + y) + z;
  }

  lemma {:induction false} StrippedSame(a: string, b: string)
    requires EndAlike(a, b)
    ensures Rstrip(a) == Rstrip(b) <==> a == b
  {
    hide Rstrip;
    var x, y, z :| a == x + z && b == y + z && Rstrip(z) != "";
    RstripKeeps(x, z);
    RstripKeeps(y, z);
    BehindSame(x, y, z);
    BehindSame(x, y, Rstrip(z));
  }

  lemma {:induction false} BehindSame<T>(x: seq<T>, y: seq<T>, z: seq<T>)
    ensures x + z == y + z <==> x == y
  {
    if x + z == y + z {
      assert |x + z| == |x| + |z| && |y + z| == |y| + |z|;
      SplitSame(x, z, y, z);
    }
  }

  lemma {:induction false} BelowShows(w: World, i: Issue)
    ensures Rstrip(Ended(Below(w, i))) != ""
  {
    var first := "- Labels: " + (if i.labels == [] then "none" else Comma(Sort(i.labels, w.labelLeq)));
    var lines := Below(w, i);
    assert lines[0] == first && first[0] == '-';
    hide Comma;
    hide Sort;
    hide Rstrip;
    assert Ended(lines)[0] == '-';
    assert !IsSpace('-');
    Shown(Ended(lines));
  }

  lemma {:induction false} BlockAlike(w: World, t: Twin)
    ensures EndAlike(Ended(Block(w, Left(t))), Ended(Block(w, Right(t))))
  {
    var i, j := Left(t), Right(t);
    BlockEnded(w, i);
    BlockEnded(w, j);
    assert Below(w, i) == Below(w, j);
    BelowShows(w, i);
    hide Block;
    hide Above;
    hide Below;
    hide Ended;
    hide ChildText;
    hide Rstrip;
    var z := Ended(Below(w, i));
    assert "" + z == z;
    assert EndAlike(z, z);
    AlikeBehind("- Children: " + ChildText(i.children) + "\n", "- Children: " + ChildText(j.children) + "\n", z, z);
    AlikeBehind(Ended(Above(i)), Ended(Above(j)), "- Children: " + ChildText(i.children) + "\n" + z,
                "- Children: " + ChildText(j.children) + "\n" + z);
  }

  lemma {:induction false} BlocksAlike(w: World, twins: seq<Twin>)
    requires twins != []
    ensures EndAlike(Ended(Blocks(w, Map(twins, Left))), Ended(Blocks(w, Map(twins, Right))))
  {
    hide Ended;
    hide Block;
    hide EndAlike;
    var t, rest := twins[0], twins[1..];
    Seqs.Uncons(twins);
    MapCons(t, rest, Left);
    MapCons(t, rest, Right);
    hide Left;
    hide Right;
    BlocksCons(w, Left(t), Map(rest, Left));
    BlocksCons(w, Right(t), Map(rest, Right));
    if rest == [] {
      BlockAlike(w, t);
      NoBlocks(w);
      assert Map(rest, Left) == [] == Map(rest, Right);
      hide Blocks;
      hide Map;
      var x, y := Ended(Block(w, Left(t))), Ended(Block(w, Right(t)));
      assert x + "" == x && y + "" == y;
    } else {
      BlocksAlike(w, rest);
      hide Blocks;
      hide Map;
      AlikeBehind(Ended(Block(w, Left(t))), Ended(Block(w, Right(t))),
                  Ended(Blocks(w, Map(rest, Left))), Ended(Blocks(w, Map(rest, Right))));
    }
  }

  lemma {:induction false} NoBlocks(w: World)
    ensures Ended(Blocks(w, [])) == ""
  {}

  lemma {:induction false} NoneShows()
    ensures Rstrip(Ended(["_None_", ""])) != ""
  {
    hide Rstrip;
    var lines := ["_None_", ""];
    assert lines[0][0] == '_' && Ended(lines)[0] == '_' && !IsSpace('_');
    Shown(Ended(lines));
  }

  lemma {:induction false} SectionAlike(w: World, title: string, twins: seq<Twin>)
    ensures EndAlike(Ended(Section(w, title, Map(twins, Left))), Ended(Section(w, title, Map(twins, Right))))
  {
    var a, b := Map(twins, Left), Map(twins, Right);
    SectionEnded(w, title, a);
    SectionEnded(w, title, b);
    hide Section;
    hide Blocks;
    hide Ended;
    hide Title;
    var head := Ended(Title(title));
    if twins == [] {
      NoneShows();
      hide Rstrip;
      var z := Ended(["_None_", ""]);
      assert "" + z == z;
      assert EndAlike(z, z);
      AlikeBehind(head, head, z, z);
    } else {
      BlocksAlike(w, twins);
      AlikeBehind(head, head, Ended(Blocks(w, a)), Ended(Blocks(w, b)));
    }
  }

  lemma {:induction false} BodyAlike(w: World, fingerprint: string, twins: seq<Twin>)
    ensures EndAlike(Ended(Body(w, fingerprint, Map(twins, Left))), Ended(Body(w, fingerprint, Map(twins, Right))))
  {
    var a, b := Map(twins, Left), Map(twins, Right);
    var f := TwinsOfKind(twins, Feature);
    BodyEnded(w, fingerprint, a);
    BodyEnded(w, fingerprint, b);
    KindMapped(twins, Feature);
    SectionAlike(w, "Features", f);
    hide Body;
    hide Section;
    hide Ended;
    hide OfKind;
    hide TwinsOfKind;
    hide Map;
    hide Top;
    hide EndAlike;
    var t := Ended(Top(fingerprint));
    AlikeBehind(t + Ended(Section(w, "Epics", OfKind(a, Epic))), t + Ended(Section(w, "Epics", OfKind(b, Epic))),
                Ended(Section(w, "Features", OfKind(a, Feature))), Ended(Section(w, "Features", OfKind(b, Feature))));
  }

  /** What is left of the lines of two bodies that end alike is the same when they are. */
  lemma {:induction false} TrimmedSame(a: seq<string>, b: seq<string>)
    requires a != [] && b != [] && EndAlike(Ended(a), Ended(b))
    ensures Ended(Trim(a)) == Ended(Trim(b)) <==> Ended(a) == Ended(b)
  {
    hide Rstrip;
    hide IsSpace;
    hide Ended;
    hide Trim;
    hide Join;
    NewlineIsSpace();
    TrimEnds(a);
    TrimEnds(b);
    EndedIsJoin(a);
    EndedIsJoin(b);
    RstripSpaces(Join(a), "\n");
    RstripSpaces(Join(b), "\n");
    StrippedSame(Ended(a), Ended(b));
    hide EndAlike;
    BehindSame(Rstrip(Join(a)), Rstrip(Join(b)), "\n");
  }

  lemma {:induction false} TailSame(w: World, fingerprint: string, twins: seq<Twin>)
    requires AllReorder(twins)
    ensures Tail(w, fingerprint, Map(twins, Left)) == Tail(w, fingerprint, Map(twins, Right)) <==> AllReadSame(twins)
  {
    hide AllReorder;
    hide AllReadSame;
    hide EndAlike;
    hide Map;
    hide Ended;
    hide Trim;
    var a, b := Map(twins, Left), Map(twins, Right);
    BodyTwins(w, fingerprint, twins);
    BodyAlike(w, fingerprint, twins);
    BodyShows(w, fingerprint, a);
    BodyShows(w, fingerprint, b);
    hide Body;
    hide Rstrip;
    hide Join;
    TrimmedSame(Body(w, fingerprint, a), Body(w, fingerprint, b));
  }

  /**
   * Children in another order leave the fingerprint, and the rendering exactly when each list of them reads the same.
   */
  lemma {:induction false} TwinsRender(w: World, twins: seq<Twin>, repo: string, at: string)
    requires AllReorder(twins)
    ensures var a, b := Map(twins, Left), Map(twins, Right);
            && Fingerprint(w, a) == Fingerprint(w, b)
            && (Render(w, repo, at, Fingerprint(w, a), a) == Render(w, repo, at, Fingerprint(w, b), b) <==>
                AllReadSame(twins))
  {
    hide AllReorder;
    hide AllReadSame;
    hide Map;
    hide Fingerprint;
    hide Render;
    hide Tail;
    hide Stamp;
    hide Head;
    hide Ended;
    var a, b := Map(twins, Left), Map(twins, Right);
    FingerprintSame(w, twins);
    var f := Fingerprint(w, a);
    RenderParts(w, repo, at, f, a);
    RenderParts(w, repo, at, f, b);
    TailSame(w, f, twins);
    var h, s := Ended(Head(repo)), Stamp(at) + "\n";
    SplitSame(s, Tail(w, f, a), s, Tail(w, f, b));
    SplitSame(h, s + Tail(w, f, a), h, s + Tail(w, f, b));
  }

  /** The rendering of the one is taken for the current one of the other under the same condition. */
  lemma {:induction false} TwinsMatch(w: World, twins: seq<Twin>, repo: string, at: string)
    requires AllReorder(twins) && AllPlain(w, repo, at, Map(twins, Left))
    ensures var a, b := Map(twins, Left), Map(twins, Right);
            Matches(w, Render(w, repo, at, Fingerprint(w, a), a), repo, Fingerprint(w, b), b) <==> AllReadSame(twins)
  {
    hide AllReorder;
    hide AllReadSame;
    hide Map;
    hide Fingerprint;
    hide Render;
    hide Tail;
    hide Head;
    hide Ended;
    hide Matches;
    hide OneLine;
    hide AllOneLine;
    hide WellEnded;
    hide Stamps;
    hide Without;
    var a, b := Map(twins, Left), Map(twins, Right);
    FingerprintSame(w, twins);
    var f := Fingerprint(w, a);
    var text := Render(w, repo, at, f, a);
    PlainMatches(w, repo, at, a);
    MatchesExact(w, text, repo, f, a);
    MatchesExact(w, text, repo, f, b);
    TailSame(w, f, twins);
    var h := Ended(Head(repo));
    SplitSame(h, Tail(w, f, a), h, Tail(w, f, b));
  }

  // ---- From the nodes that are fetched ----

  /** The same nodes, each with its sub-issues in some order. */
  ghost predicate SubsReordered(a: seq<Node>, b: seq<Node>) {
    && |a| == |b|
    && forall i :: 0 <= i < |a| ==> b[i] == a[i].(subs := b[i].subs) && multiset(a[i].subs) == multiset(b[i].subs)
  }

  /** Each list of children reads the same. */
  ghost predicate ChildrenReadSame(a: seq<Node>, b: seq<Node>)
    requires |a| == |b|
  {
    forall i :: 0 <= i < |a| && Supported(a[i]) ==> ChildText(ChildLinks(a[i].subs)) == ChildText(ChildLinks(b[i].subs))
  }

  function Twins(w: World, a: seq<Node>, b: seq<Node>): seq<Twin>
    requires |a| == |b|
  {
    if a == [] then []
    else
      var n := |a| - 1;
      Twins(w, a[..n], b[..n]) + if Supported(a[n]) then [Twin(IssueOf(w, a[n]), ChildLinks(b[n].subs))] else []
  }

  lemma {:induction false} ChildLinksSame(a: seq<SubNode>, b: seq<SubNode>)
    requires multiset(a) == multiset(b)
    ensures multiset(ChildLinks(a)) == multiset(ChildLinks(b))
  {
    FilterIgnoresOrder(a, b, Admitted);
    MapIgnoresOrder(Filter(a, Admitted), Filter(b, Admitted), LinkOf);
    SortSame(Links(a), LinkLeq);
    SortSame(Links(b), LinkLeq);
  }

  function TwinOf(w: World, a: Node, b: Node): Twin {
    Twin(IssueOf(w, a), ChildLinks(b.subs))
  }

  lemma {:induction false} TwinSides(w: World, a: Node, b: Node)
    requires b == a.(subs := b.subs) && multiset(a.subs) == multiset(b.subs)
    ensures var t := TwinOf(w, a, b);
            && Left(t) == IssueOf(w, a) && Right(t) == IssueOf(w, b) && Reorders(t)
            && (ReadsSame(t) <==> ChildText(ChildLinks(a.subs)) == ChildText(ChildLinks(b.subs)))
  {
    ChildLinksSame(a.subs, b.subs);
    hide ChildLinks;
    hide LabelNames;
    hide ChildText;
  }

  lemma {:induction false} MapSnoc<T, U>(s: seq<T>, x: T, f: T -> U)
    ensures Map(s + [x], f) == Map(s, f) + [f(x)]
  {}

  lemma {:induction false} AllSnoc(rest: seq<Twin>, t: Twin)
    ensures AllReadSame(rest + [t]) <==> AllReadSame(rest) && ReadsSame(t)
    ensures AllReorder(rest + [t]) <==> AllReorder(rest) && Reorders(t)
  {
    hide ReadsSame;
    hide Reorders;
    assert (rest + [t])[|rest|] == t;
    assert forall k :: 0 <= k < |rest| ==> (rest + [t])[k] == rest[k];
  }

  lemma {:induction false} ReadSameSnoc(a: seq<Node>, b: seq<Node>, x: Node, y: Node)
    requires |a| == |b|
    ensures ChildrenReadSame(a + [x], b + [y]) <==>
            ChildrenReadSame(a, b) && (Supported(x) ==> ChildText(ChildLinks(x.subs)) == ChildText(ChildLinks(y.subs)))
  {
    hide ChildText;
    hide ChildLinks;
    var c, d := a + [x], b + [y];
    assert c[|a|] == x && d[|a|] == y;
    assert forall k :: 0 <= k < |a| ==> c[k] == a[k] && d[k] == b[k];
  }

  lemma {:induction false} TwinsSnoc(w: World, a: seq<Node>, b: seq<Node>, x: Node, y: Node)
    requires |a| == |b|
    ensures Twins(w, a + [x], b + [y]) == Twins(w, a, b) + if Supported(x) then [TwinOf(w, x, y)] else []
  {
    hide IssueOf;
    hide ChildLinks;
    Seqs.Snoc(a, x);
    Seqs.Snoc(b, y);
  }

  lemma {:induction false} NoTwins(w: World)
    ensures Fetched(w, []) == [] && Twins(w, [], []) == []
    ensures Map<Twin, Issue>([], Left) == [] && Map<Twin, Issue>([], Right) == []
    ensures AllReorder([]) && AllReadSame([]) && ChildrenReadSame([], [])
  {}

  lemma {:induction false} TwinsFetched(w: World, a: seq<Node>, b: seq<Node>)
    requires SubsReordered(a, b)
    ensures Fetched(w, a) == Map(Twins(w, a, b), Left) && Fetched(w, b) == Map(Twins(w, a, b), Right)
    ensures AllReorder(Twins(w, a, b)) && (AllReadSame(Twins(w, a, b)) <==> ChildrenReadSame(a, b))
  {
    hide Fetched;
    hide ChildText;
    hide ChildLinks;
    hide IssueOf;
    hide AllReorder;
    hide AllReadSame;
    hide ChildrenReadSame;
    hide Twins;
    hide Map;
    hide Left;
    hide Right;
    hide TwinOf;
    hide Reorders;
    hide ReadsSame;
    if a == [] {
      assert b == a;
      NoTwins(w);
    } else {
      var n := |a| - 1;
      var front, back, x, y := a[..n], b[..n], a[n], b[n];
      TwinsFetched(w, front, back);
      assert a == front + [x] && b == back + [y];
      FetchedSnoc(w, front, x);
      FetchedSnoc(w, back, y);
      TwinsSnoc(w, front, back, x, y);
      ReadSameSnoc(front, back, x, y);
      TwinSides(w, x, y);
      var rest, t := Twins(w, front, back), TwinOf(w, x, y);
      if Supported(x) {
        MapSnoc(rest, t, Left);
        MapSnoc(rest, t, Right);
        AllSnoc(rest, t);
      } else {
        assert rest + [] == rest && Fetched(w, front) + [] == Fetched(w, front)
               && Fetched(w, back) + [] == Fetched(w, back);
      }
    }
  }

  /**
   * Sub-issues fetched in another order, equal numbers included, never change the fingerprint, and change the rendering
   * exactly when some list of children reads differently.
   */
  lemma {:induction false} TiedChildren(w: World, a: seq<Node>, b: seq<Node>, repo: string, at: string)
    requires SubsReordered(a, b)
    ensures var x, y := Fetched(w, a), Fetched(w, b);
            && Fingerprint(w, x) == Fingerprint(w, y)
            && (Render(w, repo, at, Fingerprint(w, x), x) == Render(w, repo, at, Fingerprint(w, y), y) <==>
                ChildrenReadSame(a, b))
  {
    hide Fetched;
    hide Fingerprint;
    hide Render;
    hide Map;
    hide ChildrenReadSame;
    hide AllReadSame;
    hide AllReorder;
    TwinsFetched(w, a, b);
    TwinsRender(w, Twins(w, a, b), repo, at);
  }

  /**
   * So a sync right after one that rewrote the file reports unchanged exactly when each list of children reads the
   * same.
   */
  lemma {:induction false} TiedVerdict(w: World, a: seq<Node>, b: seq<Node>, repo: string, at: string, c: Cache)
    requires SubsReordered(a, b) && AllPlain(w, repo, at, Fetched(w, a))
    requires c.file == Text(Render(w, repo, at, Fingerprint(w, Fetched(w, a)), Fetched(w, a)))
    requires c.InSync(w, repo, Fetched(w, a))
    ensures c.InSync(w, repo, Fetched(w, b)) <==> ChildrenReadSame(a, b)
  {
    hide Fetched;
    hide Fingerprint;
    hide Render;
    hide Matches;
    hide Map;
    hide AllPlain;
    hide ChildrenReadSame;
    hide AllReadSame;
    hide AllReorder;
    TwinsFetched(w, a, b);
    FingerprintSame(w, Twins(w, a, b));
    TwinsMatch(w, Twins(w, a, b), repo, at);
  }

  // ---- A fetch that rewrites the file ----

  function TiedSub(title: string): SubNode {
    SubNode(Some(1), title, Some(Epic))
  }

  /** An epic with two sub-issues of the same number, as two repositories may have them. */
  function TiedNode(first: string, second: string): Node {
    Node(2, "epic", "", Some(Epic), [], "", None, [TiedSub(first), TiedSub(second)])
  }

  lemma {:induction false} TiedLinks(first: string, second: string)
    ensures ChildLinks([TiedSub(first), TiedSub(second)]) == [Link(1, first), Link(1, second)]
  {
    var x, y := TiedSub(first), TiedSub(second);
    assert [x, y][1..] == [y] && [y][1..] == [];
    assert Filter([y], Admitted) == [y];
    assert Filter([x, y], Admitted) == [x, y];
    var a, b := Link(1, first), Link(1, second);
    var links := Map([x, y], LinkOf);
    assert links[0] == LinkOf(x) == a && links[1] == LinkOf(y) == b;
    assert Links([x, y]) == [a, b];
    assert [a, b][1..] == [b] && [b][1..] == [];
    assert Sort([b], LinkLeq) == [b];
    assert [a] + [b] == [a, b];
  }

  lemma {:induction false} TiedText(first: string, second: string)
    ensures ChildText([Link(1, first), Link(1, second)]) == "#1 " + first + ", " + ("#1 " + second)
  {
    var links := [Link(1, first), Link(1, second)];
    assert Decimal(1) == "1";
    assert "#" + "1" + " " == "#1 ";
    assert LinkText(links[0]) == "#1 " + first && LinkText(links[1]) == "#1 " + second;
    hide LinkText;
    var texts := LinkTexts(links);
    assert texts[0] == LinkText(links[0]) && texts[1] == LinkText(links[1]);
    assert texts[1..] == [texts[1]];
    assert Comma([texts[1]]) == texts[1];
    assert Comma(texts) == texts[0] + ", " + Comma([texts[1]]);
  }

  /** Fetched in the other order, its line of children reads differently. */
  lemma {:induction false} TiesRead()
    ensures SubsReordered([TiedNode("a", "b")], [TiedNode("b", "a")])
    ensures !ChildrenReadSame([TiedNode("a", "b")], [TiedNode("b", "a")])
  {
    var a, b := TiedNode("a", "b"), TiedNode("b", "a");
    TiedLinks("a", "b");
    TiedLinks("b", "a");
    TiedText("a", "b");
    TiedText("b", "a");
    hide ChildText;
    hide ChildLinks;
    assert ("#1 " + "a" + ", " + ("#1 " + "b"))[3] == 'a' && ("#1 " + "b" + ", " + ("#1 " + "a"))[3] == 'b';
    assert [a][0] == a && [b][0] == b && Supported([a][0]);
    assert a.subs == [TiedSub("a"), TiedSub("b")] && b.subs == [TiedSub("b"), TiedSub("a")];
    assert multiset(a.subs) == multiset{TiedSub("a"), TiedSub("b")} == multiset(b.subs);
  }

  lemma {:induction false} PlainTitles()
    ensures OneLine("epic") && OneLine("") && OneLine("a") && OneLine("b")
  {}

  lemma {:induction false} TiedPlain(w: World)
    ensures AllOneLine(Fetched(w, [TiedNode("a", "b")]))
  {
    var n := TiedNode("a", "b");
    FetchedSnoc(w, [], n);
    NoTwins(w);
    assert [] + [n] == [n];
    TiedLinks("a", "b");
    assert n.subs == [TiedSub("a"), TiedSub("b")];
    assert LabelNames(w, []) == [];
    hide ChildLinks;
    hide LabelNames;
    hide Fetched;
    var issue := IssueOf(w, n);
    assert [] + [issue] == [issue];
    PlainTitles();
    hide OneLine;
    assert issue == Issue(2, "epic", "", Epic, [], "", None, [Link(1, "a"), Link(1, "b")]);
  }

  /** The renderings differ though the fingerprint is the same, and the second sync rewrites the file. */
  method TiesRewrite(c: Cache, w: World, repo: string, at: string, later: string) returns (changed: bool)
    requires OneLine(repo) && OneLine(at) && OneLine(Fingerprint(w, Fetched(w, [TiedNode("a", "b")])))
    modifies c
    ensures changed
    ensures var x, y := Fetched(w, [TiedNode("a", "b")]), Fetched(w, [TiedNode("b", "a")]);
            && Fingerprint(w, x) == Fingerprint(w, y)
            && Render(w, repo, at, Fingerprint(w, x), x) != Render(w, repo, at, Fingerprint(w, y), y)
            && c.file == Text(Render(w, repo, later, Fingerprint(w, y), y))
  {
    var a, b := TiedNode("a", "b"), TiedNode("b", "a");
    TiesRead();
    TiedPlain(w);
    hide Fetched;
    hide OneLine;
    hide ChildrenReadSame;
    hide SubsReordered;
    hide AllOneLine;
    assert AllPlain(w, repo, at, Fetched(w, [a]));
    OnePage(a);
    OnePage(b);
    hide *;
    var first := c.Sync(w, repo, [[a]], true, at);
    TiedChildren(w, [a], [b], repo, at);
    TiedVerdict(w, [a], [b], repo, at, c);
    changed := c.Sync(w, repo, [[b]], false, later);
  }

  lemma {:induction false} OnePage(n: Node)
    ensures Flat([[n]]) == [n]
  {
    assert [[n]][..0] == [];
  }
}
