/**
 * What the hierarchy cache says: which lines a rendering has and where each issue stands, what an issue takes from the
 * fetched node, and what an equal fingerprint tells.
 */
module HierarchySections {
  import opened Bytes
  import opened Texts
  import opened Sorting
  import opened HierarchyCache
  import Seqs

  // ---- Joined texts ----

  /** Texts with a separator between each two. */
  function Separated(texts: seq<string>, separator: string): string {
    if texts == [] then ""
    else if |texts| == 1 then texts[0]
    else Separated(texts[..|texts| - 1], separator) + separator + texts[|texts| - 1]
  }

  lemma {:induction false} SeparatedCons(x: string, texts: seq<string>, separator: string)
    requires texts != []
    ensures Separated([x] + texts, separator) == x + separator + Separated(texts, separator)
  {
    var all, n := [x] + texts, |texts|;
    if n == 1 {
      assert all[..1] == [x] && all[1] == texts[0];
    } else {
      SeparatedCons(x, texts[..n - 1], separator);
      assert all[..n] == [x] + texts[..n - 1] && all[n] == texts[n - 1];
      Four(x + separator, Separated(texts[..n - 1], separator), separator, texts[n - 1]);
    }
  }

  lemma {:induction false} Four(a: string, b: string, c: string, d: string)
    ensures a + b + c + d == a + (b + c + d)
  {}

  lemma {:induction false} CommaSeparates(texts: seq<string>)
    ensures Comma(texts) == Separated(texts, ", ")
  {
    if |texts| > 1 {
      CommaSeparates(texts[1..]);
      SeparatedCons(texts[0], texts[1..], ", ");
      assert texts == [texts[0]] + texts[1..];
    }
  }

  lemma {:induction false} JoinSeparates(lines: seq<string>)
    ensures Join(lines) == Separated(lines, "\n")
  {
    if |lines| > 1 {
      JoinSeparates(lines[1..]);
      SeparatedCons(lines[0], lines[1..], "\n");
      assert lines == [lines[0]] + lines[1..];
    }
  }

  /** What is stripped are spaces, and all of them at the end. */
  lemma {:induction false} StripsSpaces(s: string)
    ensures Rstrip(s) <= s && (Rstrip(s) != "" ==> !IsSpace(Rstrip(s)[|Rstrip(s)| - 1]))
    ensures forall i :: |Rstrip(s)| <= i < |s| ==> IsSpace(s[i])
  {
    hide IsSpace;
    if s != "" && IsSpace(s[|s| - 1]) { StripsSpaces(s[..|s| - 1]); }
  }

  // ---- An issue's block ----

  predicate Shown(text: string, l: Link) {
    text == "#" + Decimal(l.number) + " " + l.title
  }

  /** The texts of the links in their order, or the word that there are none. */
  ghost predicate ShowsLinks(text: string, links: seq<Link>) {
    if links == [] then text == "none"
    else exists texts: seq<string> ::
      |texts| == |links| && text == Separated(texts, ", ") && forall i :: 0 <= i < |links| ==> Shown(texts[i], links[i])
  }

  /** All labels, each as often as it is given, in the order of their ranking. */
  ghost predicate ShowsLabels(w: World, text: string, labels: seq<string>) {
    if labels == [] then text == "none"
    else exists texts ::
      multiset(texts) == multiset(labels) && text == Separated(texts, ", ") &&
      (Ordered(w.labelLeq) ==> Sorted(texts, w.labelLeq))
  }

  /** The seven lines from `at` on are those of the issue. */
  ghost predicate BlockAt(w: World, lines: seq<string>, at: nat, i: Issue) {
    && at + 7 <= |lines|
    && lines[at] == "### #" + Decimal(i.number) + " " + i.title
    && lines[at + 1] == "- URL: " + i.url
    && (exists parent :: lines[at + 2] == "- Parent: " + parent &&
                         if i.parent.Some? then Shown(parent, i.parent.value) else parent == "none")
    && (exists children :: lines[at + 3] == "- Children: " + children && ShowsLinks(children, i.children))
    && (exists labels :: lines[at + 4] == "- Labels: " + labels && ShowsLabels(w, labels, i.labels))
    && lines[at + 5] == "- Summary: " + (if i.summary == "" then "No summary provided." else i.summary)
    && lines[at + 6] == ""
  }

  lemma {:induction false} ChildrenShown(children: seq<Link>)
    ensures ShowsLinks(ChildText(children), children)
  {
    CommaSeparates(LinkTexts(children));
    hide Comma;
    hide Separated;
    if children != [] {
      var texts := LinkTexts(children);
      assert forall i :: 0 <= i < |children| ==> Shown(texts[i], children[i]);
    }
  }

  lemma {:induction false} LabelsShown(w: World, labels: seq<string>)
    ensures ShowsLabels(w, if labels == [] then "none" else Comma(Sort(labels, w.labelLeq)), labels)
  {
    var texts := Sort(labels, w.labelLeq);
    CommaSeparates(texts);
    SortSame(labels, w.labelLeq);
    if Ordered(w.labelLeq) { SortKeeps(labels, w.labelLeq); }
    hide Sort;
    hide Comma;
    hide Separated;
  }

  lemma {:induction false} BlockStands(w: World, lines: seq<string>, at: nat, i: Issue)
    requires at + 7 <= |lines| && lines[at..at + 7] == Block(w, i)
    ensures BlockAt(w, lines, at, i)
  {
    ChildrenShown(i.children);
    LabelsShown(w, i.labels);
    hide ShowsLinks;
    hide ShowsLabels;
    hide ChildText;
    hide Comma;
    hide Sort;
    var b := lines[at..at + 7];
    assert lines[at] == b[0] && lines[at + 1] == b[1] && lines[at + 2] == b[2] && lines[at + 3] == b[3];
    assert lines[at + 4] == b[4] && lines[at + 5] == b[5] && lines[at + 6] == b[6];
  }

  lemma {:induction false} BlocksLaid(w: World, issues: seq<Issue>, i: nat)
    requires i < |issues|
    ensures |Blocks(w, issues)| == 7 * |issues|
    ensures Blocks(w, issues)[7 * i..7 * i + 7] == Block(w, issues[i])
  {
    hide Block;
    BlocksSize(w, issues);
    var b, rest := Block(w, issues[0]), Blocks(w, issues[1..]);
    BlockSize(w, issues[0]);
    if i > 0 {
      BlocksLaid(w, issues[1..], i - 1);
      assert (b + rest)[7 * i..7 * i + 7] == rest[7 * (i - 1)..7 * (i - 1) + 7];
    }
  }

  lemma {:induction false} BlockSize(w: World, i: Issue)
    ensures |Block(w, i)| == 7
  {
    hide ChildText;
    hide Comma;
    hide Sort;
  }

  lemma {:induction false} BlocksSize(w: World, issues: seq<Issue>)
    ensures |Blocks(w, issues)| == 7 * |issues|
  {
    hide Block;
    if issues != [] {
      BlocksSize(w, issues[1..]);
      BlockSize(w, issues[0]);
    }
  }

  // ---- Sections ----

  /** The issues of one kind, each as often as it is given, by number. */
  ghost predicate Group(group: seq<Issue>, issues: seq<Issue>, kind: Kind) {
    && (forall x :: multiset(group)[x] == if x.kind == kind then multiset(issues)[x] else 0)
    && (forall i, j :: 0 <= i < j < |group| ==> group[i].number <= group[j].number)
  }

  lemma {:induction false} GroupAscends(group: seq<Issue>, kind: Kind)
    requires Sorted(group, IssueLeq) && forall x :: x in multiset(group) ==> x.kind == kind
    ensures forall i, j :: 0 <= i < j < |group| ==> group[i].number <= group[j].number
  {
    forall i, j | 0 <= i < j < |group| ensures group[i].number <= group[j].number {
      assert group[i] in multiset(group) && group[j] in multiset(group);
      assert IssueLeq(group[i], group[j]);
    }
  }

  lemma {:induction false} GroupCounts(issues: seq<Issue>, kind: Kind, x: Issue)
    ensures multiset(OfKind(issues, kind))[x] == if x.kind == kind then multiset(issues)[x] else 0
  {
    var keep := (i: Issue) => i.kind == kind;
    FilterCounts(issues, keep, x);
    SortSame(Filter(issues, keep), IssueLeq);
    hide Sort;
    hide Filter;
  }

  lemma {:induction false} KindGroups(issues: seq<Issue>, kind: Kind)
    ensures Group(OfKind(issues, kind), issues, kind)
  {
    var group := OfKind(issues, kind);
    IssuesOrdered();
    SortKeeps(Filter(issues, (i: Issue) => i.kind == kind), IssueLeq);
    assert Sorted(group, IssueLeq);
    hide OfKind;
    hide Sorted;
    hide IssueLeq;
    hide Ordered;
    forall x: Issue ensures multiset(group)[x] == if x.kind == kind then multiset(issues)[x] else 0 {
      GroupCounts(issues, kind, x);
    }
    GroupAscends(group, kind);
  }

  function SectionSize(group: seq<Issue>): nat {
    2 + if group == [] then 2 else 7 * |group|
  }

  /** The section of this title stands at `at`: its issues one after the other, or the remark that there are none. */
  ghost predicate SectionAt(w: World, lines: seq<string>, at: nat, title: string, group: seq<Issue>) {
    && at + SectionSize(group) <= |lines|
    && lines[at] == "## " + title && lines[at + 1] == ""
    && (group == [] ==> lines[at + 2] == "_None_" && lines[at + 3] == "")
    && forall i :: 0 <= i < |group| ==> BlockAt(w, lines, at + 2 + 7 * i, group[i])
  }

  lemma {:induction false} InnerSlice<T>(lines: seq<T>, at: nat, front: seq<T>, back: seq<T>, i: nat, j: nat)
    requires at + |front| + |back| <= |lines| && lines[at..at + |front| + |back|] == front + back && i <= j <= |back|
    ensures lines[at + |front| + i..at + |front| + j] == back[i..j]
  {
    var part, n, m := lines[at..at + |front| + |back|], |front|, |front| + |back|;
    Seqs.DropAppend(front, back);
    Seqs.SliceOfSlice(part, n, i, j);
    Seqs.SliceOfDrop(lines, at, m);
    Seqs.SliceAppend(lines[at..][..m], lines[at..][m..], n + i, n + j);
    assert lines[at..][..m] + lines[at..][m..] == lines[at..];
    Seqs.SliceOfSlice(lines, at, n + i, n + j);
  }

  lemma {:induction false} SectionStands(w: World, lines: seq<string>, at: nat, title: string, group: seq<Issue>)
    requires at <= |lines| && |Section(w, title, group)| == SectionSize(group) <= |lines| - at
    requires lines[at..at + SectionSize(group)] == Section(w, title, group)
    ensures SectionAt(w, lines, at, title, group)
  {
    hide Block;
    hide BlockAt;
    BlocksSize(w, group);
    var section := lines[at..at + SectionSize(group)];
    assert lines[at] == section[0] && lines[at + 1] == section[1];
    if group == [] {
      assert lines[at + 2] == section[2] && lines[at + 3] == section[3];
    } else {
      var blocks := Blocks(w, group);
      assert section == ["## " + title, ""] + blocks;
      hide Section;
      forall i | 0 <= i < |group| ensures BlockAt(w, lines, at + 2 + 7 * i, group[i]) {
        BlocksLaid(w, group, i);
        InnerSlice(lines, at, ["## " + title, ""], blocks, 7 * i, 7 * i + 7);
        BlockStands(w, lines, at + 2 + 7 * i, group[i]);
      }
    }
  }

  lemma {:induction false} SectionLength(w: World, title: string, group: seq<Issue>)
    ensures |Section(w, title, group)| == SectionSize(group)
  {
    BlocksSize(w, group);
    hide Blocks;
  }

  /** The lines of a rendering. */
  function Lines(w: World, repo: string, at: string, fingerprint: string, issues: seq<Issue>): seq<string> {
    Head(repo) + [Stamp(at)] + Body(w, fingerprint, issues)
  }

  /** The nine lines above the sections. */
  ghost predicate Intro(lines: seq<string>, repo: string, at: string, fingerprint: string) {
    && |lines| >= 9
    && lines[0] == "# GitHub Hierarchy Cache" && lines[1] == ""
    && lines[2] == "- Repository: `" + repo + "`" && lines[3] == "- Generated At: `" + at + "`"
    && lines[4] == "- Fingerprint: `" + fingerprint + "`" && lines[5] == "- Included Issue Types: `Epic, Feature`"
    && lines[6] == "" && lines[7] == HINT && lines[8] == ""
  }

  lemma {:induction false} Thirds<T>(front: seq<T>, e: seq<T>, f: seq<T>)
    ensures var s := front + e + f;
            s[..|front|] == front && s[|front|..|front| + |e|] == e && s[|front| + |e|..] == f
  {
    Seqs.DropAppend(front + e, f);
    Seqs.SliceAppend(front + e, f, 0, |front|);
    Seqs.SliceAppend(front + e, f, |front|, |front| + |e|);
    Seqs.DropAppend(front, e);
  }

  function Above(repo: string, at: string, fingerprint: string): seq<string> {
    Head(repo) + [Stamp(at)] +
    ["- Fingerprint: `" + fingerprint + "`", "- Included Issue Types: `Epic, Feature`", "", HINT, ""]
  }

  lemma {:induction false} AboveIntro(lines: seq<string>, repo: string, at: string, fingerprint: string)
    requires |lines| >= 9 && lines[..9] == Above(repo, at, fingerprint)
    ensures Intro(lines, repo, at, fingerprint)
  {
    hide HINT;
    var above := lines[..9];
    assert forall k :: 0 <= k < 9 ==> lines[k] == above[k];
  }

  lemma {:induction false} LinesParts(w: World, repo: string, at: string, fingerprint: string, issues: seq<Issue>)
    ensures |Above(repo, at, fingerprint)| == 9
    ensures Lines(w, repo, at, fingerprint, issues) ==
            Above(repo, at, fingerprint) + Section(w, "Epics", OfKind(issues, Epic))
            + Section(w, "Features", OfKind(issues, Feature))
  {
    hide Section;
    hide OfKind;
    hide HINT;
    hide Stamp;
    hide Head;
    HeadSize(repo);
    var above := ["- Fingerprint: `" + fingerprint + "`", "- Included Issue Types: `Epic, Feature`", "", HINT, ""];
    Regrouped(Head(repo) + [Stamp(at)], above, Section(w, "Epics", OfKind(issues, Epic)),
              Section(w, "Features", OfKind(issues, Feature)));
  }

  lemma {:induction false} RenderIsLines(w: World, repo: string, at: string, fingerprint: string, issues: seq<Issue>)
    ensures Render(w, repo, at, fingerprint, issues) ==
            Rstrip(Separated(Lines(w, repo, at, fingerprint, issues), "\n")) + "\n"
  {
    JoinSeparates(Lines(w, repo, at, fingerprint, issues));
    hide Body;
    hide Head;
    hide Stamp;
    hide Join;
    hide Separated;
    hide Rstrip;
  }

  lemma {:induction false} HeadSize(repo: string)
    ensures |Head(repo)| == 3
  {}

  lemma {:induction false} Regrouped<T>(a: seq<T>, b: seq<T>, c: seq<T>, d: seq<T>)
    ensures a + (b + c + d) == a + b + c + d
  {}

  /**
   * A rendering is the lines above the sections, then the section of the Epics, then that of the Features, and no more:
   * each issue's block stands in the section of its kind, as often as the issue is given, by number.
   */
  lemma {:induction false} RendersSections(w: World, repo: string, at: string, fingerprint: string, issues: seq<Issue>)
    returns (lines: seq<string>, epics: seq<Issue>, features: seq<Issue>)
    ensures Intro(lines, repo, at, fingerprint)
    ensures Group(epics, issues, Epic) && SectionAt(w, lines, 9, "Epics", epics)
    ensures Group(features, issues, Feature) && SectionAt(w, lines, 9 + SectionSize(epics), "Features", features)
    ensures |lines| == 9 + SectionSize(epics) + SectionSize(features)
    ensures Render(w, repo, at, fingerprint, issues) == Rstrip(Separated(lines, "\n")) + "\n"
  {
    hide *;
    lines := Lines(w, repo, at, fingerprint, issues);
    epics, features := OfKind(issues, Epic), OfKind(issues, Feature);
    KindGroups(issues, Epic);
    KindGroups(issues, Feature);
    SectionLength(w, "Epics", epics);
    SectionLength(w, "Features", features);
    LinesParts(w, repo, at, fingerprint, issues);
    RenderIsLines(w, repo, at, fingerprint, issues);
    Thirds(Above(repo, at, fingerprint), Section(w, "Epics", epics), Section(w, "Features", features));
    AboveIntro(lines, repo, at, fingerprint);
    SectionStands(w, lines, 9, "Epics", epics);
    SectionStands(w, lines, 9 + SectionSize(epics), "Features", features);
  }

  // ---- What is fetched ----

  /** How often this link is among the sub-issues that have a number and a supported type. */
  function LinkCount(subs: seq<SubNode>, l: Link): nat {
    if subs == [] then 0
    else
      var first, last := subs[..|subs| - 1], subs[|subs| - 1];
      LinkCount(first, l) + if last.number == Some(l.number) && last.kind.Some? && last.title == l.title then 1 else 0
  }

  lemma {:induction false} LinksSnoc(subs: seq<SubNode>, last: SubNode)
    ensures Links(subs + [last]) == Links(subs) + if Admitted(last) then [LinkOf(last)] else []
  {
    FilterAppend(subs, [last], Admitted);
    assert Filter([last], Admitted) == if Admitted(last) then [last] else [];
    MapAppend(Filter(subs, Admitted), Filter([last], Admitted), LinkOf);
    assert Map(Filter([last], Admitted), LinkOf) == if Admitted(last) then [LinkOf(last)] else [];
  }

  lemma {:induction false} LinksCount(subs: seq<SubNode>, l: Link)
    ensures multiset(Links(subs))[l] == LinkCount(subs, l)
  {
    if subs != [] {
      var first, last := subs[..|subs| - 1], subs[|subs| - 1];
      assert subs == first + [last];
      LinksCount(first, l);
      LinksSnoc(first, last);
      hide Links;
    }
  }

  lemma {:induction false} ChildrenTaken(subs: seq<SubNode>)
    ensures var children := ChildLinks(subs);
            && (forall l :: multiset(children)[l] == LinkCount(subs, l))
            && (forall j, k :: 0 <= j < k < |children| ==> children[j].number <= children[k].number)
  {
    SortSame(Links(subs), LinkLeq);
    LinksOrdered();
    SortKeeps(Links(subs), LinkLeq);
    LinksAscend(ChildLinks(subs));
    hide Sort;
    hide Links;
    hide LinkCount;
    forall l ensures multiset(ChildLinks(subs))[l] == LinkCount(subs, l) { LinksCount(subs, l); }
  }

  lemma {:induction false} LabelsTaken(w: World, names: seq<string>)
    ensures var labels := LabelNames(w, names);
            && (forall x :: multiset(labels)[x] == if x == "" then 0 else multiset(names)[x])
            && (Ordered(w.labelLeq) ==> Sorted(labels, w.labelLeq))
  {
    SortSame(NamedOnly(names), w.labelLeq);
    if Ordered(w.labelLeq) { SortKeeps(NamedOnly(names), w.labelLeq); }
    hide Sort;
    hide Filter;
    forall x ensures multiset(LabelNames(w, names))[x] == if x == "" then 0 else multiset(names)[x] {
      FilterCounts(names, Named, x);
    }
  }

  /**
   * An issue takes its fields from the fetched node; its children are the sub-issues that count, by number; its labels
   * are the names that are not empty, each as often as it is given, in the order of their ranking.
   */
  lemma {:induction false} IssueTakes(w: World, n: Node)
    requires n.kind.Some?
    ensures var i := IssueOf(w, n);
            && i.number == n.number && i.title == n.title && i.url == n.url && Some(i.kind) == n.kind
            && i.summary == n.summary && i.parent == n.parent
            && (forall l :: multiset(i.children)[l] == LinkCount(n.subs, l))
            && (forall j, k :: 0 <= j < k < |i.children| ==> i.children[j].number <= i.children[k].number)
            && (forall x :: multiset(i.labels)[x] == if x == "" then 0 else multiset(n.labels)[x])
            && (Ordered(w.labelLeq) ==> Sorted(i.labels, w.labelLeq))
  {
    hide ChildLinks;
    hide LabelNames;
    hide Ordered;
    hide Sorted;
    ChildrenTaken(n.subs);
    LabelsTaken(w, n.labels);
  }

  lemma {:induction false} LinksAscend(links: seq<Link>)
    requires Sorted(links, LinkLeq)
    ensures forall j, k :: 0 <= j < k < |links| ==> links[j].number <= links[k].number
  {
    forall j, k | 0 <= j < k < |links| ensures links[j].number <= links[k].number {
      assert LinkLeq(links[j], links[k]);
    }
  }

  // ---- What a fingerprint tells ----

  /** The two issues agree on everything that is compared: the order of labels and children is not. */
  ghost predicate SameCompared(a: Issue, b: Issue) {
    && a.number == b.number && a.title == b.title && a.url == b.url && a.kind == b.kind && a.summary == b.summary
    && multiset(a.labels) == multiset(b.labels)
    && (a.parent.Some? <==> b.parent.Some?) && (a.parent.Some? ==> a.parent.value.number == b.parent.value.number)
    && multiset(Numbers(a.children)) == multiset(Numbers(b.children))
  }

  ghost predicate Paired(a: seq<Issue>, b: seq<Issue>) {
    |a| == |b| && forall i :: 0 <= i < |a| ==> SameCompared(a[i], b[i])
  }

  lemma {:induction false} RowTells(w: World, a: Issue, b: Issue)
    requires RowOf(w, a) == RowOf(w, b)
    ensures SameCompared(a, b)
  {
    SortSame(a.labels, w.labelLeq);
    SortSame(b.labels, w.labelLeq);
    SortSame(Numbers(a.children), NumberLeq);
    SortSame(Numbers(b.children), NumberLeq);
    hide Sort;
    hide Numbers;
  }

  /**
   * With an ideal digest, issues with equal fingerprints can be paired one by one so that each two agree on number,
   * title, address, kind, labels, summary, parent and children: no change of these is missed.
   */
  lemma {:induction false} FingerprintTells(w: World, a: seq<Issue>, b: seq<Issue>)
    returns (c: seq<Issue>, d: seq<Issue>)
    requires forall x, y :: w.hex(x) == w.hex(y) ==> x == y
    requires Fingerprint(w, a) == Fingerprint(w, b)
    ensures multiset(c) == multiset(a) && multiset(d) == multiset(b) && Paired(c, d)
  {
    c, d := Sort(a, IssueLeq), Sort(b, IssueLeq);
    SortSame(a, IssueLeq);
    SortSame(b, IssueLeq);
    hide Sort;
    hide RowOf;
    hide SameCompared;
    var x, y := Rows(w, a), Rows(w, b);
    assert x == y && |x| == |c| && |y| == |d|;
    forall i | 0 <= i < |c| ensures SameCompared(c[i], d[i]) {
      assert x[i] == RowOf(w, c[i]) && y[i] == RowOf(w, d[i]);
      RowTells(w, c[i], d[i]);
    }
  }
}
