/**
 * The issue hierarchy cache: its fingerprint, its rendering, and when a sync leaves the file alone. A fingerprint is
 * the text of a digest of the canonical rows. Timestamps, like all fields, are texts.
 */
module HierarchyCache {
  import opened Bytes
  import opened Texts
  import opened Sorting
  import Seqs

  datatype Kind = Epic | Feature

  /** What is shown and compared of a related issue; its address is neither. */
  datatype Link = Link(number: nat, title: string)
  datatype Issue = Issue(
    number: nat, title: string, url: string, kind: Kind, labels: seq<string>, summary: string, parent: Option<Link>,
    children: seq<Link>)

  /** How labels are ranked (by their lower-case form), and the digest's text. */
  datatype World = World(labelLeq: (string, string) -> bool, hex: seq<Row> -> string)

  // ---- Fetching ----

  /** A sub-issue as it is fetched; its number or its type may be missing, or the type be another one. */
  datatype SubNode = SubNode(number: Option<nat>, title: string, kind: Option<Kind>)

  /** An issue as it is fetched, with all its sub-issues; a label without a name has the empty one. */
  datatype Node = Node(
    number: nat, title: string, url: string, kind: Option<Kind>, labels: seq<string>, summary: string,
    parent: Option<Link>,
    subs: seq<SubNode>)

  predicate Admitted(n: SubNode) {
    n.number.Some? && n.kind.Some?
  }

  function LinkOf(n: SubNode): Link {
    Link(if n.number.Some? then n.number.value else 0, n.title)
  }

  function Links(subs: seq<SubNode>): seq<Link> {
    Map(Filter(subs, Admitted), LinkOf)
  }

  predicate LinkLeq(a: Link, b: Link) {
    a.number <= b.number
  }

  /** `_child_links`. */
  function ChildLinks(subs: seq<SubNode>): seq<Link> {
    Sort(Links(subs), LinkLeq)
  }

  predicate Named(name: string) {
    name != ""
  }

  function NamedOnly(names: seq<string>): seq<string> {
    Filter(names, Named)
  }

  /** `_label_names`. */
  function LabelNames(w: World, names: seq<string>): seq<string> {
    Sort(NamedOnly(names), w.labelLeq)
  }

  /** `_parse_issue_node`, of a node of a supported type. */
  function IssueOf(w: World, n: Node): Issue {
    Issue(n.number, n.title, n.url, if n.kind.Some? then n.kind.value else Epic, LabelNames(w, n.labels), n.summary,
          n.parent, ChildLinks(n.subs))
  }

  predicate Supported(n: Node) {
    n.kind.Some?
  }

  function Fetched(w: World, nodes: seq<Node>): seq<Issue> {
    Map(Filter(nodes, Supported), n => IssueOf(w, n))
  }

  function Flat(pages: seq<seq<Node>>): seq<Node> {
    if pages == [] then [] else Flat(pages[..|pages| - 1]) + pages[|pages| - 1]
  }

  lemma {:induction false} FetchedSnoc(w: World, nodes: seq<Node>, n: Node)
    ensures Fetched(w, nodes + [n]) == Fetched(w, nodes) + if Supported(n) then [IssueOf(w, n)] else []
  {
    hide IssueOf;
    FilterAppend(nodes, [n], Supported);
    assert Filter([n], Supported) == if Supported(n) then [n] else [];
    MapAppend(Filter(nodes, Supported), Filter([n], Supported), m => IssueOf(w, m));
  }

  /** `fetch_hierarchy_issues`, page by page. */
  method FetchIssues(w: World, pages: seq<seq<Node>>) returns (issues: seq<Issue>)
    ensures issues == Fetched(w, Flat(pages))
  {
    hide Fetched;
    hide IssueOf;
    issues := [];
    NothingFetched(w);
    assert pages[..0] == [];
    for p := 0 to |pages|
      invariant issues == Fetched(w, Flat(pages[..p]))
    {
      var page := pages[p];
      ghost var before := Flat(pages[..p]);
      assert page[..0] == [] && before + [] == before;
      for k := 0 to |page|
        invariant issues == Fetched(w, before + page[..k])
      {
        assert page[..k + 1] == page[..k] + [page[k]];
        Seqs.Assoc(before, page[..k], [page[k]]);
        FetchedSnoc(w, before + page[..k], page[k]);
        if Supported(page[k]) { issues := issues + [IssueOf(w, page[k])]; }
      }
      assert page[..|page|] == page;
      assert pages[..p + 1][..p] == pages[..p] && pages[..p + 1][p] == page;
    }
    assert pages[..|pages|] == pages;
  }

  lemma {:induction false} NothingFetched(w: World)
    ensures Fetched(w, Flat([])) == []
  {}

  // ---- The fingerprint ----

  datatype Row = Row(
    number: nat, title: string, url: string, kind: Kind, labels: seq<string>, summary: string, parent: Option<nat>,
    children: seq<nat>)

  predicate NumberLeq(a: nat, b: nat) {
    a <= b
  }

  predicate IssueLeq(a: Issue, b: Issue) {
    if a.kind == b.kind then a.number <= b.number else a.kind.Epic?
  }

  function Numbers(links: seq<Link>): (numbers: seq<nat>)
    ensures |numbers| == |links|
  {
    seq(|links|, i requires 0 <= i < |links| => links[i].number)
  }

  function RowOf(w: World, i: Issue): Row {
    Row(i.number, i.title, i.url, i.kind, Sort(i.labels, w.labelLeq), i.summary,
        if i.parent.None? then None else Some(i.parent.value.number), Sort(Numbers(i.children), NumberLeq))
  }

  function Rows(w: World, issues: seq<Issue>): seq<Row> {
    var sorted := Sort(issues, IssueLeq);
    seq(|sorted|, i requires 0 <= i < |sorted| => RowOf(w, sorted[i]))
  }

  /** `compute_hierarchy_fingerprint`. */
  function Fingerprint(w: World, issues: seq<Issue>): string {
    w.hex(Rows(w, issues))
  }

  // ---- The rendering ----

  function LinkText(l: Link): string {
    "#" + Decimal(l.number) + " " + l.title
  }

  function Comma(texts: seq<string>): string {
    if texts == [] then "" else if |texts| == 1 then texts[0] else texts[0] + ", " + Comma(texts[1..])
  }

  function LinkTexts(links: seq<Link>): seq<string> {
    seq(|links|, i requires 0 <= i < |links| => LinkText(links[i]))
  }

  function ChildText(children: seq<Link>): string {
    if children == [] then "none" else Comma(LinkTexts(children))
  }

  function Block(w: World, i: Issue): seq<string> {
    ["### #" + Decimal(i.number) + " " + i.title,
     "- URL: " + i.url,
     "- Parent: " + (if i.parent.None? then "none" else LinkText(i.parent.value)),
     "- Children: " + ChildText(i.children),
     "- Labels: " + (if i.labels == [] then "none" else Comma(Sort(i.labels, w.labelLeq))),
     "- Summary: " + (if i.summary == "" then "No summary provided." else i.summary),
     ""]
  }

  function Blocks(w: World, issues: seq<Issue>): seq<string> {
    if issues == [] then [] else Block(w, issues[0]) + Blocks(w, issues[1..])
  }

  function Section(w: World, title: string, issues: seq<Issue>): seq<string> {
    ["## " + title, ""] + if issues == [] then ["_None_", ""] else Blocks(w, issues)
  }

  function OfKind(issues: seq<Issue>, kind: Kind): seq<Issue> {
    Sort(Filter(issues, (i: Issue) => i.kind == kind), IssueLeq)
  }

  const PREFIX := "- Generated At: `"

  function Head(repo: string): seq<string> {
    ["# GitHub Hierarchy Cache", "", "- Repository: `" + repo + "`"]
  }

  function Stamp(at: string): string {
    PREFIX + at + "`"
  }

  const HINT := "Use this file as the first lookup source " + (HINT_MIDDLE + HINT_END)
  const HINT_MIDDLE := "for parent Epic or Feature relationships "
  const HINT_END := "during OpenSpec and GitHub issue setup."

  function Body(w: World, fingerprint: string, issues: seq<Issue>): seq<string> {
    ["- Fingerprint: `" + fingerprint + "`",
     "- Included Issue Types: `Epic, Feature`",
     "",
     HINT,
     ""] + Section(w, "Epics", OfKind(issues, Epic)) + Section(w, "Features", OfKind(issues, Feature))
  }

  function Join(lines: seq<string>): string {
    if lines == [] then "" else if |lines| == 1 then lines[0] else lines[0] + "\n" + Join(lines[1..])
  }

  /** What `rstrip` takes off. */
  predicate IsSpace(c: char) {
    Breaks(c) || c == '\t' || c == ' ' || c == '\U{001F}' || c == '\U{00A0}' || c == '\U{1680}'
    || '\U{2000}' <= c <= '\U{200A}' || c == '\U{202F}' || c == '\U{205F}' || c == '\U{3000}'
  }

  function Rstrip(s: string): string {
    if s != "" && IsSpace(s[|s| - 1]) then Rstrip(s[..|s| - 1]) else s
  }

  /** `render_cache_markdown`. */
  function Render(w: World, repo: string, at: string, fingerprint: string, issues: seq<Issue>): string {
    Rstrip(Join(Head(repo) + [Stamp(at)] + Body(w, fingerprint, issues))) + "\n"
  }

  // ---- Order of fetching ----

  ghost predicate DistinctNumbers(issues: seq<Issue>) {
    forall i, j :: 0 <= i < j < |issues| ==> issues[i].number != issues[j].number
  }

  lemma {:induction false} IssuesOrdered()
    ensures Ordered(IssueLeq)
  {}

  lemma {:induction false} DistinctRanked(issues: seq<Issue>)
    requires DistinctNumbers(issues)
    ensures Ranked(issues, IssueLeq)
  {
    forall i, j | 0 <= i < |issues| && 0 <= j < |issues| && IssueLeq(issues[i], issues[j])
      && IssueLeq(issues[j], issues[i])
      ensures issues[i] == issues[j] {
      assert issues[i].number == issues[j].number;
    }
  }

  lemma {:induction false} FilterRanked(issues: seq<Issue>, keep: Issue -> bool)
    requires Ranked(issues, IssueLeq)
    ensures Ranked(Filter(issues, keep), IssueLeq)
  {
    var kept := Filter(issues, keep);
    forall i, j | 0 <= i < |kept| && 0 <= j < |kept| && IssueLeq(kept[i], kept[j]) && IssueLeq(kept[j], kept[i])
      ensures kept[i] == kept[j] {
      FilterExact(issues, keep, kept[i]);
      FilterExact(issues, keep, kept[j]);
      var k :| 0 <= k < |issues| && issues[k] == kept[i];
      var l :| 0 <= l < |issues| && issues[l] == kept[j];
      assert IssueLeq(issues[k], issues[l]);
    }
  }

  /** With distinct numbers neither the fingerprint nor the rendering depends on the order of the issues. */
  lemma {:induction false} IssueOrderIrrelevant(w: World, a: seq<Issue>, b: seq<Issue>, repo: string, at: string)
    requires multiset(a) == multiset(b) && DistinctNumbers(a)
    ensures Fingerprint(w, a) == Fingerprint(w, b)
    ensures Render(w, repo, at, Fingerprint(w, a), a) == Render(w, repo, at, Fingerprint(w, b), b)
  {
    IssuesOrdered();
    DistinctRanked(a);
    SortIgnoresOrder(a, b, IssueLeq);
    KindIgnoresOrder(a, b, Epic);
    KindIgnoresOrder(a, b, Feature);
    hide Sort;
    hide OfKind;
    hide Section;
    hide Join;
    hide Rstrip;
    hide HINT;
    hide PREFIX;
  }

  lemma {:induction false} KindIgnoresOrder(a: seq<Issue>, b: seq<Issue>, kind: Kind)
    requires multiset(a) == multiset(b) && Ranked(a, IssueLeq)
    ensures OfKind(a, kind) == OfKind(b, kind)
  {
    IssuesOrdered();
    var keep := (i: Issue) => i.kind == kind;
    FilterIgnoresOrder(a, b, keep);
    FilterRanked(a, keep);
    SortIgnoresOrder(Filter(a, keep), Filter(b, keep), IssueLeq);
  }

  lemma {:induction false} NumbersOrdered()
    ensures Ordered(NumberLeq) && forall s: seq<nat> :: Ranked(s, NumberLeq)
  {}

  // ---- Order of sub-issues and labels ----

  ghost predicate DistinctLinks(links: seq<Link>) {
    forall i, j :: 0 <= i < j < |links| ==> links[i].number != links[j].number
  }

  lemma {:induction false} LinksOrdered()
    ensures Ordered(LinkLeq)
  {}

  /** Sub-issues with distinct numbers come out the same in whatever order they are fetched. */
  lemma {:induction false} ChildrenIgnoreOrder(a: seq<SubNode>, b: seq<SubNode>)
    requires multiset(a) == multiset(b) && DistinctLinks(Links(a))
    ensures ChildLinks(a) == ChildLinks(b)
  {
    LinksOrdered();
    FilterIgnoresOrder(a, b, Admitted);
    MapIgnoresOrder(Filter(a, Admitted), Filter(b, Admitted), LinkOf);
    var links := Links(a);
    forall i, j | 0 <= i < |links| && 0 <= j < |links| && LinkLeq(links[i], links[j]) && LinkLeq(links[j], links[i])
      ensures links[i] == links[j] {
      assert links[i].number == links[j].number;
    }
    SortIgnoresOrder(Links(a), Links(b), LinkLeq);
  }

  /** In general they come out the same exactly when those with equal numbers are fetched in the same order. */
  lemma {:induction false} ChildrenSameExactly(a: seq<SubNode>, b: seq<SubNode>)
    ensures ChildLinks(a) == ChildLinks(b) <==> forall x :: Ties(Links(a), LinkLeq, x) == Ties(Links(b), LinkLeq, x)
  {
    LinksOrdered();
    SortSameExactly(Links(a), Links(b), LinkLeq);
    hide Ties;
    hide Sort;
    hide Links;
  }

  /** Labels come out the same exactly when those that differ in case only are fetched in the same order. */
  lemma {:induction false} LabelsSameExactly(w: World, a: seq<string>, b: seq<string>)
    requires Ordered(w.labelLeq)
    ensures LabelNames(w, a) == LabelNames(w, b) <==>
            forall x :: Ties(NamedOnly(a), w.labelLeq, x) == Ties(NamedOnly(b), w.labelLeq, x)
  {
    SortSameExactly(NamedOnly(a), NamedOnly(b), w.labelLeq);
    hide Ties;
    hide Sort;
    hide NamedOnly;
  }

  /** The same node, its sub-issues in any order, and its labels in one that sorts the same. */
  ghost predicate SameNode(w: World, a: Node, b: Node) {
    && b == a.(subs := b.subs, labels := b.labels)
    && multiset(a.subs) == multiset(b.subs) && LabelNames(w, a.labels) == LabelNames(w, b.labels)
  }

  /** The same nodes in another order, each as it may be fetched another time. */
  ghost predicate Refetched(w: World, a: seq<Node>, b: seq<Node>) {
    exists m :: Reordered(w, a, b, m)
  }

  ghost predicate Reordered(w: World, a: seq<Node>, b: seq<Node>, m: seq<Node>) {
    multiset(m) == multiset(a) && |m| == |b| && forall i :: 0 <= i < |m| ==> SameNode(w, m[i], b[i])
  }

  ghost predicate DistinctChildren(nodes: seq<Node>) {
    forall i :: 0 <= i < |nodes| ==> DistinctLinks(Links(nodes[i].subs))
  }

  lemma {:induction false} IssueSame(w: World, a: Node, b: Node)
    requires SameNode(w, a, b) && DistinctLinks(Links(a.subs))
    ensures Supported(a) <==> Supported(b)
    ensures IssueOf(w, a) == IssueOf(w, b)
  {
    ChildrenIgnoreOrder(a.subs, b.subs);
    hide ChildLinks;
    hide LabelNames;
    hide Links;
    hide DistinctLinks;
  }

  lemma {:induction false} FetchedSame(w: World, a: seq<Node>, b: seq<Node>)
    requires |a| == |b| && forall i :: 0 <= i < |a| ==> SameNode(w, a[i], b[i]) && DistinctLinks(Links(a[i].subs))
    ensures Fetched(w, a) == Fetched(w, b)
  {
    hide Fetched;
    hide IssueOf;
    hide SameNode;
    hide Links;
    hide DistinctLinks;
    if a == [] {
      assert b == a;
    } else {
      var n := |a| - 1;
      IssueSame(w, a[n], b[n]);
      FetchedSame(w, a[..n], b[..n]);
      assert a == a[..n] + [a[n]] && b == b[..n] + [b[n]];
      FetchedSnoc(w, a[..n], a[n]);
      FetchedSnoc(w, b[..n], b[n]);
    }
  }

  lemma {:induction false} FetchedReordered(w: World, a: seq<Node>, m: seq<Node>)
    requires multiset(m) == multiset(a)
    ensures multiset(Fetched(w, a)) == multiset(Fetched(w, m))
  {
    hide IssueOf;
    FilterIgnoresOrder(a, m, Supported);
    MapIgnoresOrder(Filter(a, Supported), Filter(m, Supported), n => IssueOf(w, n));
  }

  /**
   * With distinct numbers, neither the fingerprint, nor the rendering, nor whether a sync finds anything to change
   * depends on the order in which the issues and each issue's sub-issues were fetched.
   */
  lemma {:induction false} FetchOrderIrrelevant(
    w: World, a: seq<Node>, b: seq<Node>, repo: string, at: string, c: Cache)
    requires Refetched(w, a, b) && DistinctNumbers(Fetched(w, a)) && DistinctChildren(a)
    ensures Fingerprint(w, Fetched(w, a)) == Fingerprint(w, Fetched(w, b))
    ensures Render(w, repo, at, Fingerprint(w, Fetched(w, a)), Fetched(w, a))
         == Render(w, repo, at, Fingerprint(w, Fetched(w, b)), Fetched(w, b))
    ensures c.InSync(w, repo, Fetched(w, a)) <==> c.InSync(w, repo, Fetched(w, b))
  {
    hide Fetched;
    hide Render;
    hide Fingerprint;
    hide SameNode;
    hide Links;
    var m: seq<Node> :| Reordered(w, a, b, m);
    forall i | 0 <= i < |m| ensures DistinctLinks(Links(m[i].subs)) {
      assert m[i] in multiset(a);
      var k :| 0 <= k < |a| && a[k] == m[i];
    }
    FetchedSame(w, m, b);
    FetchedReordered(w, a, m);
    IssueOrderIrrelevant(w, Fetched(w, a), Fetched(w, b), repo, at);
    IssueOrderIrrelevant(w, Fetched(w, a), Fetched(w, b), repo, VALIDATION);
  }

  // ---- Whether the file is left alone ----

  /** The length of the first line, its end included. */
  function LineLength(text: string): (n: nat)
    requires text != ""
    ensures 1 <= n <= |text|
  {
    if Breaks(text[0]) then (if text[0] == '\r' && |text| > 1 && text[1] == '\n' then 2 else 1)
    else if |text| == 1 then 1
    else 1 + LineLength(text[1..])
  }

  /** The lines that look like the timestamp. */
  function Stamps(text: string): seq<string> {
    if text == "" then []
    else
      var n := LineLength(text);
      (if PREFIX <= text[..n] then [text[..n]] else []) + Stamps(text[n..])
  }

  /** The text without them. */
  function Without(text: string): string {
    if text == "" then ""
    else
      var n := LineLength(text);
      (if PREFIX <= text[..n] then "" else text[..n]) + Without(text[n..])
  }

  /** `replace(needle, "", 1)`. */
  function RemoveFirst(text: string, needle: string): string {
    if needle <= text then text[|needle|..]
    else if text == "" then ""
    else [text[0]] + RemoveFirst(text[1..], needle)
  }

  predicate WellEnded(line: string) {
    var s := Rstrip(line);
    s != "" && s[|s| - 1] == '`'
  }

  const VALIDATION := "cache-validation"

  /** `_cache_payload_matches_state` on a readable regular file. */
  predicate Matches(w: World, text: string, repo: string, fingerprint: string, issues: seq<Issue>) {
    && |Stamps(text)| == 1 && WellEnded(Stamps(text)[0])
    && Without(text) == RemoveFirst(Render(w, repo, VALIDATION, fingerprint, issues), Stamp(VALIDATION) + "\n")
  }

  // ---- The rendering in three parts ----

  function Ended(lines: seq<string>): string {
    if lines == [] then "" else lines[0] + "\n" + Ended(lines[1..])
  }

  /** What is left of the lines when the end of the text is stripped. */
  function Trim(lines: seq<string>): (trimmed: seq<string>)
    requires lines != []
    ensures 0 < |trimmed| <= |lines|
  {
    var front, last := lines[..|lines| - 1], Rstrip(lines[|lines| - 1]);
    if last == "" && front != [] then Trim(front) else front + [last]
  }

  lemma {:induction false} RstripPrefix(s: string)
    ensures Rstrip(s) <= s && forall i :: |Rstrip(s)| <= i < |s| ==> IsSpace(s[i])
  {
    hide IsSpace;
    if s != "" && IsSpace(s[|s| - 1]) {
      var front := s[..|s| - 1];
      RstripPrefix(front);
      assert forall i :: 0 <= i < |front| ==> s[i] == front[i];
    }
  }

  lemma {:induction false} RstripSpaces(a: string, b: string)
    requires forall i :: 0 <= i < |b| ==> IsSpace(b[i])
    ensures Rstrip(a + b) == Rstrip(a)
  {
    hide IsSpace;
    if b == "" {
      assert a + b == a;
    } else {
      assert (a + b)[..|a + b| - 1] == a + b[..|b| - 1];
      assert (a + b)[|a + b| - 1] == b[|b| - 1];
      RstripSpaces(a, b[..|b| - 1]);
    }
  }

  lemma {:induction false} RstripKeeps(a: string, b: string)
    requires Rstrip(b) != ""
    ensures Rstrip(a + b) == a + Rstrip(b)
  {
    hide IsSpace;
    assert (a + b)[|a + b| - 1] == b[|b| - 1];
    if IsSpace(b[|b| - 1]) {
      assert (a + b)[..|a + b| - 1] == a + b[..|b| - 1];
      RstripKeeps(a, b[..|b| - 1]);
    }
  }

  lemma {:induction false} JoinAppend(a: seq<string>, b: seq<string>)
    requires b != []
    ensures Join(a + b) == Ended(a) + Join(b)
  {
    if a == [] {
      assert a + b == b;
      assert "" + Join(b) == Join(b);
    } else {
      JoinAppend(a[1..], b);
      assert (a + b)[0] == a[0] && (a + b)[1..] == a[1..] + b;
      Seqs.Assoc(a[0] + "\n", Ended(a[1..]), Join(b));
    }
  }

  lemma {:induction false} EndedSnoc(lines: seq<string>, last: string)
    ensures Ended(lines + [last]) == Ended(lines) + (last + "\n")
  {
    if lines == [] {
      assert lines + [last] == [last];
      assert Ended([last]) == last + "\n" + "" && last + "\n" + "" == last + "\n";
      assert Ended([]) + (last + "\n") == last + "\n";
    } else {
      EndedSnoc(lines[1..], last);
      assert (lines + [last])[0] == lines[0] && (lines + [last])[1..] == lines[1..] + [last];
      Seqs.Assoc(lines[0] + "\n", Ended(lines[1..]), last + "\n");
    }
  }

  /** Stripping the joined lines and ending them is ending the trimmed lines. */
  lemma {:induction false} TrimEnds(lines: seq<string>)
    requires lines != []
    ensures Rstrip(Join(lines)) + "\n" == Ended(Trim(lines))
    decreases |lines|
  {
    hide Rstrip;
    hide IsSpace;
    var front, x := lines[..|lines| - 1], lines[|lines| - 1];
    assert lines == front + [x];
    JoinAppend(front, [x]);
    assert Join([x]) == x;
    if Rstrip(x) == "" && front != [] {
      TrimEnds(front);
      RstripPrefix(x);
      assert front == front[..|front| - 1] + [front[|front| - 1]];
      EndedIsJoin(front);
      NewlineIsSpace();
      assert Ended(front) + x == Join(front) + ("\n" + x);
      RstripSpaces(Join(front), "\n" + x);
    } else {
      EndedSnoc(front, Rstrip(x));
      if Rstrip(x) == "" {
        assert Ended([]) + x == x && Ended([]) + (Rstrip(x) + "\n") == Rstrip(x) + "\n";
      } else {
        RstripKeeps(Ended(front), x);
        Seqs.Assoc(Ended(front), Rstrip(x), "\n");
      }
    }
  }

  lemma {:induction false} NewlineIsSpace()
    ensures IsSpace('\n')
  {}

  lemma {:induction false} EndedIsJoin(lines: seq<string>)
    requires lines != []
    ensures Ended(lines) == Join(lines) + "\n"
  {
    var front, x := lines[..|lines| - 1], lines[|lines| - 1];
    assert lines == front + [x];
    JoinAppend(front, [x]);
    EndedSnoc(front, x);
    Seqs.Assoc(Ended(front), x, "\n");
  }

  function Tail(w: World, fingerprint: string, issues: seq<Issue>): string {
    Ended(Trim(Body(w, fingerprint, issues)))
  }

  /** The rendering is its head, its timestamp line, and a tail that does not depend on the timestamp. */
  lemma {:induction false} RenderParts(w: World, repo: string, at: string, fingerprint: string, issues: seq<Issue>)
    ensures Render(w, repo, at, fingerprint, issues)
         == Ended(Head(repo)) + ((Stamp(at) + "\n") + Tail(w, fingerprint, issues))
  {
    hide Section;
    hide HINT;
    hide PREFIX;
    hide Head;
    hide Stamp;
    var body := Body(w, fingerprint, issues);
    BodyShows(w, fingerprint, issues);
    hide Body;
    JoinAppend(Head(repo) + [Stamp(at)], body);
    EndedSnoc(Head(repo), Stamp(at));
    RstripKeeps(Ended(Head(repo) + [Stamp(at)]), Join(body));
    TrimEnds(body);
    hide Join;
    hide Rstrip;
    hide Ended;
    hide Trim;
    FiveParts(Ended(Head(repo)), Stamp(at) + "\n", Rstrip(Join(body)), "\n");
  }

  lemma {:induction false} FiveParts<T>(a: seq<T>, b: seq<T>, c: seq<T>, d: seq<T>)
    ensures a + b + c + d == a + (b + (c + d))
  {}

  /** The body begins with something to see. */
  lemma {:induction false} BodyShows(w: World, fingerprint: string, issues: seq<Issue>)
    ensures var body := Body(w, fingerprint, issues); body != [] && Rstrip(Join(body)) != ""
  {
    hide Section;
    hide HINT;
    var body := Body(w, fingerprint, issues);
    var text := Join(body);
    assert body[0] != "" && body[0][0] == '-';
    JoinFirst(body);
    RstripPrefix(text);
    assert !IsSpace('-');
    hide IsSpace;
    hide Rstrip;
    hide Join;
    assert text[0] == '-' && !IsSpace(text[0]);
  }

  lemma {:induction false} JoinFirst(lines: seq<string>)
    requires lines != [] && lines[0] != ""
    ensures Join(lines) != "" && Join(lines)[0] == lines[0][0]
  {}

  // ---- Removing the timestamp line ----

  lemma {:induction false} RemoveHere(needle: string, rest: string)
    ensures RemoveFirst(needle + rest, needle) == rest
  {
    Seqs.DropAppend(needle, rest);
    assert needle <= needle + rest;
  }

  lemma {:induction false} RemoveLater(c: char, rest: string, needle: string)
    requires !(needle <= [c] + rest)
    ensures RemoveFirst([c] + rest, needle) == [c] + RemoveFirst(rest, needle)
  {
    assert ([c] + rest)[1..] == rest;
  }

  /** The first occurrence goes. */
  lemma {:induction false} RemoveAt(a: string, needle: string, b: string)
    requires forall r :: 0 <= r < |a| ==> !(needle <= (a + (needle + b))[r..])
    ensures RemoveFirst(a + (needle + b), needle) == a + b
  {
    hide RemoveFirst;
    var text := a + (needle + b);
    if a == "" {
      assert text == needle + b && a + b == b;
      RemoveHere(needle, b);
    } else {
      var rest := a[1..] + (needle + b);
      Seqs.Uncons(a);
      Seqs.Assoc([a[0]], a[1..], needle + b);
      assert text[0..] == text;
      forall r | 0 <= r < |a[1..]| ensures !(needle <= rest[r..]) {
        assert !(needle <= text[r + 1..]);
        assert rest[r..] == text[r + 1..];
      }
      RemoveLater(a[0], rest, needle);
      RemoveAt(a[1..], needle, b);
      Seqs.Assoc([a[0]], a[1..], b);
    }
  }

  /**
   * The needle ends a line and spans no other, and fits before no line end of `u` but the last: then its first
   * occurrence is the one behind `u`, or the same text at the end of `u`. Removing either leaves the same.
   */
  lemma {:induction false} RemoveStamp(u: string, m: string, v: string)
    requires '\n' !in m && u != "" && u[|u| - 1] == '\n'
    requires forall i :: 0 <= i < |u| - 1 && u[i] == '\n' ==> i + 1 < |m| + 1
    ensures RemoveFirst(u + ((m + "\n") + v), m + "\n") == u + v
  {
    var n := m + "\n";
    var text := u + (n + v);
    var before := |u| >= |n| && u[|u| - |n|..] == n;
    var p := if before then |u| - |n| else |u|;
    forall r | 0 <= r < p ensures !(n <= text[r..]) { EarlierFails(u, m, v, r, p); }
    if before {
      assert u == u[..p] + n;
      Seqs.Assoc(u[..p], n, n + v);
      RemoveAt(u[..p], n, n + v);
      Seqs.Assoc(u[..p], n, v);
    } else {
      RemoveAt(u, n, v);
    }
  }

  lemma {:induction false} EarlierFails(u: string, m: string, v: string, r: nat, p: nat)
    requires '\n' !in m && u != "" && u[|u| - 1] == '\n'
    requires forall i :: 0 <= i < |u| - 1 && u[i] == '\n' ==> i + 1 < |m| + 1
    requires p == (if |u| >= |m| + 1 && u[|u| - (|m| + 1)..] == m + "\n" then |u| - (|m| + 1) else |u|) && r < p
    ensures !(m + "\n" <= (u + ((m + "\n") + v))[r..])
  {
    var n := m + "\n";
    var text := u + (n + v);
    var e := r + |m|;
    if e < |u| - 1 {
      assert u[e] != '\n' && text[r..][|m|] == u[e] && n[|m|] == '\n';
      Differs(n, text[r..], |m|);
    } else if e == |u| - 1 {
      assert text[r..][..|n|] == u[r..];
    } else {
      var k := |u| - 1 - r;
      assert text[r..][k] == u[|u| - 1] && n[k] == m[k];
      Differs(n, text[r..], k);
    }
  }

  predicate OneLine(s: string) {
    forall i :: 0 <= i < |s| ==> !Breaks(s[i])
  }

  lemma {:induction false} HeadEnds(repo: string)
    requires OneLine(repo)
    ensures var u := Ended(Head(repo)); var m := Stamp(VALIDATION);
            && u != "" && u[|u| - 1] == '\n' && '\n' !in m
            && forall i :: 0 <= i < |u| - 1 && u[i] == '\n' ==> i + 1 < |m| + 1
  {
    var third := "- Repository: `" + repo + "`";
    var u := Ended(Head(repo));
    assert Head(repo)[1..] == ["", third] && ["", third][1..] == [third] && [third][1..] == [];
    assert Ended([third]) == third + "\n" + "" && third + "\n" + "" == third + "\n";
    assert Ended(["", third]) == "" + "\n" + Ended([third]) && "" + "\n" + Ended([third]) == "\n" + (third + "\n");
    assert u == "# GitHub Hierarchy Cache" + "\n" + Ended(["", third]);
    assert u == "# GitHub Hierarchy Cache\n\n" + (third + "\n");
    assert |"# GitHub Hierarchy Cache\n\n"| == 26 && |Stamp(VALIDATION)| == 34;
    forall i | 26 <= i < |u| - 1 ensures u[i] != '\n' {
      assert u[i] == third[i - 26];
      if 15 <= i - 26 < 15 + |repo| { assert third[i - 26] == repo[i - 26 - 15]; }
    }
  }

  /** The file is left alone exactly when it is the current rendering but for one timestamp line. */
  lemma {:induction false} MatchesExact(w: World, text: string, repo: string, fingerprint: string, issues: seq<Issue>)
    requires OneLine(repo)
    ensures Matches(w, text, repo, fingerprint, issues) <==>
            && |Stamps(text)| == 1 && WellEnded(Stamps(text)[0])
            && Without(text) == Ended(Head(repo)) + Tail(w, fingerprint, issues)
  {
    RenderParts(w, repo, VALIDATION, fingerprint, issues);
    HeadEnds(repo);
    hide Render;
    hide Tail;
    hide Head;
    hide Stamp;
    hide Ended;
    hide RemoveFirst;
    RemoveStamp(Ended(Head(repo)), Stamp(VALIDATION), Tail(w, fingerprint, issues));
  }

  lemma {:induction false} OneStamp(text: string) returns (before: string, line: string, after: string)
    requires |Stamps(text)| == 1
    ensures text == before + line + after && Without(text) == before + after
    ensures line == Stamps(text)[0] && PREFIX <= line
    decreases |text|
  {
    hide PREFIX;
    hide Stamps;
    hide Without;
    NothingLeft();
    FirstLine(text);
    var n := LineLength(text);
    var first, rest := text[..n], text[n..];
    hide LineLength;
    if PREFIX <= first {
      assert Stamps(text) == [first] + Stamps(rest) && Stamps(rest) == [];
      NoStamp(rest);
      before, line, after := "", first, rest;
    } else {
      assert Stamps(text) == Stamps(rest);
      var inner;
      inner, line, after := OneStamp(rest);
      before := first + inner;
      Seqs.Assoc(first, inner, line);
      Seqs.Assoc(first, inner + line, after);
      Seqs.Assoc(first, inner, after);
    }
  }

  lemma {:induction false} FirstLine(text: string)
    requires text != ""
    ensures var n := LineLength(text);
            && text == text[..n] + text[n..]
            && Stamps(text) == (if PREFIX <= text[..n] then [text[..n]] else []) + Stamps(text[n..])
            && Without(text) == (if PREFIX <= text[..n] then "" else text[..n]) + Without(text[n..])
  {
    hide PREFIX;
  }

  lemma {:induction false} NoStamp(text: string)
    requires Stamps(text) == []
    ensures Without(text) == text
    decreases |text|
  {
    hide PREFIX;
    if text != "" {
      var n := LineLength(text);
      NoStamp(text[n..]);
      assert text == text[..n] + text[n..];
    }
  }

  /**
   * A file that is left alone equals the current rendering, whatever its own timestamp, except for its timestamp line.
   */
  lemma {:induction false} UnchangedIsRendering(
    w: World, text: string, repo: string, at: string, fingerprint: string, issues: seq<Issue>)
    returns (before: string, line: string, after: string)
    requires OneLine(repo) && Matches(w, text, repo, fingerprint, issues)
    ensures text == before + line + after && PREFIX <= line && WellEnded(line)
    ensures exists u, v ::
              Render(w, repo, at, fingerprint, issues) == u + ((Stamp(at) + "\n") + v) && before + after == u + v
  {
    hide Render;
    hide Tail;
    hide PREFIX;
    MatchesExact(w, text, repo, fingerprint, issues);
    RenderParts(w, repo, at, fingerprint, issues);
    before, line, after := OneStamp(text);
    var u, v := Ended(Head(repo)), Tail(w, fingerprint, issues);
    assert Render(w, repo, at, fingerprint, issues) == u + ((Stamp(at) + "\n") + v) && before + after == u + v;
  }

  // ---- The own rendering is left alone ----

  /** Neither broken into several lines nor taken for the timestamp. */
  predicate Quiet(line: string) {
    OneLine(line) && !(PREFIX <= line)
  }

  ghost predicate AllQuiet(lines: seq<string>) {
    forall i :: 0 <= i < |lines| ==> Quiet(lines[i])
  }

  lemma {:induction false} LineOf(line: string, rest: string)
    requires OneLine(line)
    ensures LineLength(line + "\n" + rest) == |line| + 1
  {
    if line == "" {
      assert (line + "\n" + rest)[0] == '\n';
    } else {
      assert (line + "\n" + rest)[0] == line[0] && (line + "\n" + rest)[1..] == line[1..] + "\n" + rest;
      LineOf(line[1..], rest);
    }
  }

  /** The first line out. */
  lemma {:induction false} LineOut(line: string, rest: string)
    requires OneLine(line)
    ensures var text := line + "\n" + rest;
            && Stamps(text) == (if PREFIX <= line + "\n" then [line + "\n"] else []) + Stamps(rest)
            && Without(text) == (if PREFIX <= line + "\n" then "" else line + "\n") + Without(rest)
  {
    hide PREFIX;
    LineOf(line, rest);
    var text := line + "\n" + rest;
    assert text[..|line| + 1] == line + "\n" && text[|line| + 1..] == rest;
    assert text != "";
  }

  lemma {:induction false} PrefixInLine(line: string)
    ensures PREFIX <= line + "\n" <==> PREFIX <= line
  {
    assert (line + "\n")[|line|] == '\n';
    assert forall i :: 0 <= i < |PREFIX| ==> PREFIX[i] != '\n';
    if |line| >= |PREFIX| {
      assert (line + "\n")[..|PREFIX|] == line[..|PREFIX|];
    } else {
      if |line| + 1 == |PREFIX| { assert PREFIX[|line|] != '\n'; Differs(PREFIX, line + "\n", |line|); }
    }
  }

  lemma {:induction false} QuietLines(lines: seq<string>, rest: string)
    requires AllQuiet(lines)
    ensures Stamps(Ended(lines) + rest) == Stamps(rest) && Without(Ended(lines) + rest) == Ended(lines) + Without(rest)
  {
    hide PREFIX;
    if lines == [] {
      assert Ended(lines) + rest == rest && Ended(lines) + Without(rest) == Without(rest);
    } else {
      assert Quiet(lines[0]);
      PrefixInLine(lines[0]);
      Seqs.Assoc(lines[0] + "\n", Ended(lines[1..]), rest);
      LineOut(lines[0], Ended(lines[1..]) + rest);
      QuietLines(lines[1..], rest);
      Seqs.Assoc(lines[0] + "\n", Ended(lines[1..]), Without(rest));
      hide Stamps;
      hide Without;
    }
  }

  lemma {:induction false} StampIsStamp(at: string)
    requires OneLine(at)
    ensures OneLine(Stamp(at)) && PREFIX <= Stamp(at) && WellEnded(Stamp(at) + "\n")
  {
    var s := Stamp(at);
    assert s == PREFIX + (at + "`");
    assert (s + "\n")[..|s + "\n"| - 1] == s && (s + "\n")[|s|] == '\n' && s[|s| - 1] == '`';
    assert Rstrip(s + "\n") == s;
    forall i | 0 <= i < |s| ensures !Breaks(s[i]) {
      assert |PREFIX| <= i < |PREFIX| + |at| ==> s[i] == at[i - |PREFIX|];
    }
  }

  lemma {:induction false} StampOut(at: string, rest: string)
    requires OneLine(at)
    ensures var line := Stamp(at) + "\n";
            WellEnded(line) && Stamps(line + rest) == [line] + Stamps(rest) && Without(line + rest) == Without(rest)
  {
    StampIsStamp(at);
    hide PREFIX;
    hide Stamp;
    hide WellEnded;
    PrefixInLine(Stamp(at));
    LineOut(Stamp(at), rest);
    hide Stamps;
    hide Without;
    assert "" + Without(rest) == Without(rest);
  }

  lemma {:induction false} OwnStamps(head: seq<string>, at: string, tail: seq<string>)
    requires AllQuiet(head) && AllQuiet(tail) && OneLine(at)
    ensures var text := Ended(head) + ((Stamp(at) + "\n") + Ended(tail));
            Stamps(text) == [Stamp(at) + "\n"] && WellEnded(Stamps(text)[0])
              && Without(text) == Ended(head) + Ended(tail)
  {
    hide AllQuiet;
    hide WellEnded;
    hide PREFIX;
    hide Stamp;
    hide Ended;
    hide OneLine;
    StampOut(at, Ended(tail));
    QuietLines(head, (Stamp(at) + "\n") + Ended(tail));
    QuietLines(tail, "");
    NothingLeft();
    hide Stamps;
    hide Without;
    assert Ended(tail) + "" == Ended(tail);
    assert [Stamp(at) + "\n"] + [] == [Stamp(at) + "\n"];
  }

  lemma {:induction false} NothingLeft()
    ensures Stamps("") == [] && Without("") == ""
  {}

  ghost predicate TrimmedFrom(trimmed: seq<string>, lines: seq<string>) {
    |trimmed| <= |lines| && forall i :: 0 <= i < |trimmed| ==> trimmed[i] <= lines[i]
  }

  lemma {:induction false} TrimShortens(lines: seq<string>)
    requires lines != []
    ensures TrimmedFrom(Trim(lines), lines)
    decreases |lines|
  {
    hide Rstrip;
    hide IsSpace;
    var front, last := lines[..|lines| - 1], lines[|lines| - 1];
    RstripPrefix(last);
    if Rstrip(last) == "" && front != [] {
      TrimShortens(front);
    }
  }

  lemma {:induction false} TrimQuiet(lines: seq<string>)
    requires lines != [] && AllQuiet(lines)
    ensures AllQuiet(Trim(lines))
  {
    hide PREFIX;
    TrimShortens(lines);
    hide Trim;
    forall i | 0 <= i < |Trim(lines)| ensures Quiet(Trim(lines)[i]) {
      var t, l := Trim(lines)[i], lines[i];
      assert Quiet(l) && t <= l;
      assert forall k :: 0 <= k < |t| ==> t[k] == l[k];
      assert PREFIX <= t ==> PREFIX <= l;
    }
  }

  // ---- Its lines are quiet ----

  predicate OneLineIssue(i: Issue) {
    && OneLine(i.title) && OneLine(i.url) && OneLine(i.summary)
    && (forall k :: 0 <= k < |i.labels| ==> OneLine(i.labels[k]))
    && (i.parent.Some? ==> OneLine(i.parent.value.title))
    && (forall k :: 0 <= k < |i.children| ==> OneLine(i.children[k].title))
  }

  lemma {:induction false} OneLineAppend(a: string, b: string)
    requires OneLine(a) && OneLine(b)
    ensures OneLine(a + b)
  {
    assert forall i :: 0 <= i < |a + b| ==> (a + b)[i] == if i < |a| then a[i] else b[i - |a|];
  }

  lemma {:induction false} DecimalOneLine(n: nat)
    ensures OneLine(Decimal(n))
  {
    var d := Decimal(n);
    hide Decimal;
    forall i | 0 <= i < |d| ensures !Breaks(d[i]) { assert IsDigit(d[i]); }
  }

  lemma {:induction false} LinkOneLine(l: Link)
    requires OneLine(l.title)
    ensures OneLine(LinkText(l))
  {
    DecimalOneLine(l.number);
    hide Decimal;
    assert OneLine("#") && OneLine(" ");
    OneLineAppend("#", Decimal(l.number));
    OneLineAppend("#" + Decimal(l.number), " ");
    OneLineAppend("#" + Decimal(l.number) + " ", l.title);
    hide OneLine;
  }

  lemma {:induction false} CommaOneLine(texts: seq<string>)
    requires forall k :: 0 <= k < |texts| ==> OneLine(texts[k])
    ensures OneLine(Comma(texts))
  {
    if |texts| > 1 {
      assert OneLine(", ");
      CommaOneLine(texts[1..]);
      OneLineAppend(texts[0], ", ");
      OneLineAppend(texts[0] + ", ", Comma(texts[1..]));
    }
  }

  /** A line that begins with a fixed text that is no part of the timestamp's. */
  lemma {:induction false} QuietLine(start: string, rest: string, k: nat)
    requires OneLine(start) && OneLine(rest) && k < |start| && k < |PREFIX| && start[k] != PREFIX[k]
    ensures Quiet(start + rest)
  {
    OneLineAppend(start, rest);
    assert (start + rest)[k] == start[k];
    hide PREFIX;
    hide OneLine;
    Differs(PREFIX, start + rest, k);
  }

  lemma {:induction false} LabelsOneLine(w: World, i: Issue)
    requires OneLineIssue(i)
    ensures OneLine(Comma(Sort(i.labels, w.labelLeq)))
  {
    hide OneLine;
    var sorted := Sort(i.labels, w.labelLeq);
    SortSame(i.labels, w.labelLeq);
    hide Sort;
    forall k | 0 <= k < |sorted| ensures OneLine(sorted[k]) {
      assert sorted[k] in multiset(i.labels);
    }
    CommaOneLine(sorted);
  }

  lemma {:induction false} ChildrenOneLine(i: Issue)
    requires OneLineIssue(i)
    ensures OneLine(ChildText(i.children))
  {
    assert OneLine("none");
    hide OneLine;
    hide LinkText;
    forall k | 0 <= k < |i.children| ensures OneLine(LinkTexts(i.children)[k]) { LinkOneLine(i.children[k]); }
    CommaOneLine(LinkTexts(i.children));
    hide Comma;
  }

  lemma {:induction false} TitleQuiet(i: Issue)
    requires OneLine(i.title)
    ensures Quiet("### #" + Decimal(i.number) + " " + i.title)
  {
    DecimalOneLine(i.number);
    hide Decimal;
    assert OneLine(" ");
    OneLineAppend(Decimal(i.number), " ");
    OneLineAppend(Decimal(i.number) + " ", i.title);
    QuietLine("### #", Decimal(i.number) + " " + i.title, 0);
    hide Quiet;
    assert "### #" + Decimal(i.number) + " " + i.title == "### #" + (Decimal(i.number) + " " + i.title);
  }

  lemma {:induction false} UrlQuiet(url: string)
    requires OneLine(url)
    ensures Quiet("- URL: " + url)
  {
    QuietLine("- URL: ", url, 2);
    hide Quiet;
  }

  lemma {:induction false} ParentQuiet(i: Issue)
    requires OneLineIssue(i)
    ensures Quiet("- Parent: " + (if i.parent.None? then "none" else LinkText(i.parent.value)))
  {
    assert OneLine("none");
    if i.parent.Some? { LinkOneLine(i.parent.value); }
    hide LinkText;
    QuietLine("- Parent: ", if i.parent.None? then "none" else LinkText(i.parent.value), 2);
    hide Quiet;
  }

  lemma {:induction false} ChildrenQuiet(i: Issue)
    requires OneLineIssue(i)
    ensures Quiet("- Children: " + ChildText(i.children))
  {
    ChildrenOneLine(i);
    hide ChildText;
    QuietLine("- Children: ", ChildText(i.children), 2);
    hide Quiet;
    hide OneLineIssue;
  }

  lemma {:induction false} LabelsQuiet(w: World, i: Issue)
    requires OneLineIssue(i)
    ensures Quiet("- Labels: " + (if i.labels == [] then "none" else Comma(Sort(i.labels, w.labelLeq))))
  {
    LabelsOneLine(w, i);
    hide Sort;
    hide Comma;
    assert OneLine("none");
    QuietLine("- Labels: ", if i.labels == [] then "none" else Comma(Sort(i.labels, w.labelLeq)), 2);
    hide Quiet;
    hide OneLineIssue;
  }

  lemma {:induction false} SummaryQuiet(i: Issue)
    requires OneLineIssue(i)
    ensures Quiet("- Summary: " + (if i.summary == "" then "No summary provided." else i.summary))
  {
    assert OneLine("No summary provided.");
    QuietLine("- Summary: ", if i.summary == "" then "No summary provided." else i.summary, 2);
    hide Quiet;
  }

  lemma {:induction false} BlockQuiet(w: World, i: Issue)
    requires OneLineIssue(i)
    ensures AllQuiet(Block(w, i))
  {
    TitleQuiet(i);
    UrlQuiet(i.url);
    ParentQuiet(i);
    ChildrenQuiet(i);
    LabelsQuiet(w, i);
    SummaryQuiet(i);
    NamesOneLine();
    hide OneLine;
    hide Quiet;
    hide Comma;
    hide Sort;
    hide ChildText;
    hide LinkText;
    hide Decimal;
  }

  lemma {:induction false} BlocksQuiet(w: World, issues: seq<Issue>)
    requires forall k :: 0 <= k < |issues| ==> OneLineIssue(issues[k])
    ensures AllQuiet(Blocks(w, issues))
  {
    hide OneLineIssue;
    hide Quiet;
    hide Block;
    if issues != [] {
      BlockQuiet(w, issues[0]);
      BlocksQuiet(w, issues[1..]);
    }
  }

  lemma {:induction false} SectionQuiet(w: World, title: string, issues: seq<Issue>)
    requires OneLine(title) && forall k :: 0 <= k < |issues| ==> OneLineIssue(issues[k])
    ensures AllQuiet(Section(w, title, issues))
  {
    QuietLine("## ", title, 0);
    QuietLine("_None_", "", 0);
    assert "_None_" + "" == "_None_";
    assert Quiet("");
    BlocksQuiet(w, issues);
    hide Quiet;
    hide Blocks;
    hide OneLineIssue;
  }

  lemma {:induction false} KindMembers(issues: seq<Issue>, kind: Kind)
    requires forall k :: 0 <= k < |issues| ==> OneLineIssue(issues[k])
    ensures forall k :: 0 <= k < |OfKind(issues, kind)| ==> OneLineIssue(OfKind(issues, kind)[k])
  {
    hide OneLineIssue;
    var keep := (i: Issue) => i.kind == kind;
    var kept := Filter(issues, keep);
    SortSame(kept, IssueLeq);
    forall k | 0 <= k < |OfKind(issues, kind)| ensures OneLineIssue(OfKind(issues, kind)[k]) {
      var x := OfKind(issues, kind)[k];
      assert x in multiset(kept);
      FilterExact(issues, keep, x);
    }
  }

  ghost predicate AllOneLine(issues: seq<Issue>) {
    forall k :: 0 <= k < |issues| ==> OneLineIssue(issues[k])
  }

  lemma {:induction false} HintEndOneLine()
    ensures OneLine(HINT_END)
  {}

  lemma {:induction false} HintMiddleOneLine()
    ensures OneLine(HINT_MIDDLE)
  {}

  lemma {:induction false} HintQuiet()
    ensures Quiet(HINT)
  {
    HintEndOneLine();
    HintMiddleOneLine();
    hide HINT_END;
    hide HINT_MIDDLE;
    OneLineAppend(HINT_MIDDLE, HINT_END);
    QuietLine("Use this file as the first lookup source ", HINT_MIDDLE + HINT_END, 0);
  }

  lemma {:induction false} FingerprintQuiet(fingerprint: string)
    requires OneLine(fingerprint)
    ensures Quiet("- Fingerprint: `" + fingerprint + "`")
  {
    assert OneLine("`");
    OneLineAppend(fingerprint, "`");
    QuietLine("- Fingerprint: `", fingerprint + "`", 2);
    hide Quiet;
    assert "- Fingerprint: `" + (fingerprint + "`") == "- Fingerprint: `" + fingerprint + "`";
  }

  lemma {:induction false} TypesQuiet()
    ensures Quiet("- Included Issue Types: `Epic, Feature`")
  {
    Differs(PREFIX, "- Included Issue Types: `Epic, Feature`", 2);
  }

  lemma {:induction false} QuietAppend(a: seq<string>, b: seq<string>)
    requires AllQuiet(a) && AllQuiet(b)
    ensures AllQuiet(a + b)
  {
    hide Quiet;
  }

  lemma {:induction false} NamesOneLine()
    ensures OneLine("Epics") && OneLine("Features") && Quiet("")
  {}

  lemma {:induction false} BodyQuiet(w: World, fingerprint: string, issues: seq<Issue>)
    requires OneLine(fingerprint) && AllOneLine(issues)
    ensures AllQuiet(Body(w, fingerprint, issues))
  {
    hide HINT;
    hide PREFIX;
    hide Quiet;
    hide Section;
    hide OneLineIssue;
    hide OneLine;
    FingerprintQuiet(fingerprint);
    TypesQuiet();
    HintQuiet();
    NamesOneLine();
    KindMembers(issues, Epic);
    KindMembers(issues, Feature);
    SectionQuiet(w, "Epics", OfKind(issues, Epic));
    SectionQuiet(w, "Features", OfKind(issues, Feature));
    var top := ["- Fingerprint: `" + fingerprint + "`", "- Included Issue Types: `Epic, Feature`", "", HINT, ""];
    assert AllQuiet(top);
    hide OfKind;
    QuietAppend(top, Section(w, "Epics", OfKind(issues, Epic)));
    QuietAppend(top + Section(w, "Epics", OfKind(issues, Epic)), Section(w, "Features", OfKind(issues, Feature)));
    hide AllQuiet;
  }

  lemma {:induction false} HeadQuiet(repo: string)
    requires OneLine(repo)
    ensures AllQuiet(Head(repo))
  {
    assert OneLine("`") && Quiet("");
    QuietLine("# GitHub Hierarchy Cache", "", 0);
    assert "# GitHub Hierarchy Cache" + "" == "# GitHub Hierarchy Cache";
    OneLineAppend(repo, "`");
    QuietLine("- Repository: `", repo + "`", 2);
    assert "- Repository: `" + (repo + "`") == "- Repository: `" + repo + "`";
    hide Quiet;
    hide OneLine;
  }

  /** What was just rendered, at whatever time, is found unchanged. */
  lemma {:induction false} OwnRenderingMatches(
    w: World, repo: string, at: string, fingerprint: string, issues: seq<Issue>)
    requires OneLine(repo) && OneLine(at) && OneLine(fingerprint) && AllOneLine(issues)
    ensures Matches(w, Render(w, repo, at, fingerprint, issues), repo, fingerprint, issues)
  {
    hide Render;
    hide OneLine;
    hide Matches;
    hide Head;
    hide WellEnded;
    hide Trim;
    hide Stamp;
    hide AllQuiet;
    var text := Render(w, repo, at, fingerprint, issues);
    RenderParts(w, repo, at, fingerprint, issues);
    HeadQuiet(repo);
    BodyQuiet(w, fingerprint, issues);
    BodyShows(w, fingerprint, issues);
    hide Body;
    TrimQuiet(Body(w, fingerprint, issues));
    OwnStamps(Head(repo), at, Trim(Body(w, fingerprint, issues)));
    MatchesExact(w, text, repo, fingerprint, issues);
    hide Ended;
  }

  // ---- Syncing ----

  /** No field breaks a line. */
  ghost predicate AllPlain(w: World, repo: string, at: string, issues: seq<Issue>) {
    OneLine(repo) && OneLine(at) && OneLine(Fingerprint(w, issues)) && AllOneLine(issues)
  }

  lemma {:induction false} PlainMatches(w: World, repo: string, at: string, issues: seq<Issue>)
    ensures AllPlain(w, repo, at, issues) ==>
            Matches(w, Render(w, repo, at, Fingerprint(w, issues), issues), repo, Fingerprint(w, issues), issues)
  {
    hide Matches;
    hide Render;
    hide Fingerprint;
    hide OneLine;
    if AllPlain(w, repo, at, issues) { OwnRenderingMatches(w, repo, at, Fingerprint(w, issues), issues); }
  }

  /** The cache path, as `read_text` gives it if it can. */
  datatype Entry = Missing | NotRegular | Unreadable | Text(text: string)

  datatype Saved = Saved(repo: string, fingerprint: string, count: nat, at: string)

  class Cache {
    var file: Entry
    var saved: Option<Saved>

    /** The saved state and the file both agree with these issues. */
    predicate InSync(w: World, repo: string, issues: seq<Issue>)
      reads this
    {
      var fingerprint := Fingerprint(w, issues);
      && saved.Some? && saved.value.repo == repo && saved.value.fingerprint == fingerprint
      && file.Text? && Matches(w, file.text, repo, fingerprint, issues)
    }

    /** `sync_cache` on the pages that are fetched. */
    method Sync(w: World, repo: string, pages: seq<seq<Node>>, force: bool, at: string) returns (changed: bool)
      modifies this
      ensures changed <==> force || !old(InSync(w, repo, Fetched(w, Flat(pages))))
      ensures var issues := Fetched(w, Flat(pages));
              && file == (if changed then Text(Render(w, repo, at, Fingerprint(w, issues), issues)) else old(file))
              && saved == Some(Saved(repo, Fingerprint(w, issues), |issues|, at))
              && (AllPlain(w, repo, at, issues) ==> InSync(w, repo, issues))
    {
      hide Matches;
      hide Render;
      hide Fingerprint;
      hide Fetched;
      hide AllPlain;
      var issues := FetchIssues(w, pages);
      var fingerprint := Fingerprint(w, issues);
      var count := |issues|;
      if !force && saved.Some? && saved.value.repo == repo && saved.value.fingerprint == fingerprint
        && file.Text? && Matches(w, file.text, repo, fingerprint, issues) {
        saved := Some(Saved(repo, fingerprint, count, at));
        return false;
      }
      PlainMatches(w, repo, at, issues);
      file := Text(Render(w, repo, at, fingerprint, issues));
      saved := Some(Saved(repo, fingerprint, count, at));
      changed := true;
    }

    /** A second sync that fetches the same in any order reports unchanged, and leaves the file alone. */
    method SyncTwice(
      w: World, repo: string, pages: seq<seq<Node>>, again: seq<seq<Node>>, force: bool, at: string, later: string)
      returns (first: bool, second: bool)
      requires AllPlain(w, repo, at, Fetched(w, Flat(pages)))
      requires Refetched(w, Flat(pages), Flat(again))
      requires DistinctNumbers(Fetched(w, Flat(pages))) && DistinctChildren(Flat(pages))
      modifies this
      ensures !second
      ensures var issues := Fetched(w, Flat(pages));
              file == if first then Text(Render(w, repo, at, Fingerprint(w, issues), issues)) else old(file)
    {
      hide InSync;
      hide Render;
      hide Fetched;
      hide Refetched;
      first := Sync(w, repo, pages, force, at);
      FetchOrderIrrelevant(w, Flat(pages), Flat(again), repo, at, this);
      second := Sync(w, repo, again, false, later);
    }
  }
}
