/**
 * The dependency closure walk of the Mach-O inventory: a depth-first walk of each executable's loads, with run paths
 * inherited along the chain of loaders, cycles cut, and visits, edges and depth bounded.
 */
module Closure {
  import opened Bytes

  type Path = string

  datatype Result<+T> = Ok(value: T) | Error

  datatype Kind = Execute | Dylib | Bundle
  datatype Dependency = Dependency(command: string, name: string)
  datatype Image = Image(kind: Kind, dependencies: seq<Dependency>, rpaths: seq<string>)

  const MAX_CONTEXTS := 8192
  const MAX_DEPTH := 128

  /** The inventoried images, and what the file system and `pathlib` answer about a path. */
  datatype World = World(
    images: map<Path, Image>,
    resolve: Path -> Path,          // Path.resolve
    inPayload: Path -> bool,        // is_relative_to(root)
    present: Path -> bool,          // exists
    system: Path -> bool,           // is_system
    absolute: string -> bool,
    climbs: string -> bool,         // ".." among the parts
    parent: Path -> Path,
    join: (Path, string) -> Path)

  const LOADER_TOKEN := "@loader_path"
  const EXECUTABLE_TOKEN := "@executable_path"
  const RPATH := "@rpath/"

  function LeftStrip(s: string): string {
    if s != "" && s[0] == '/' then LeftStrip(s[1..]) else s
  }

  predicate Uses(value: string, token: string) {
    value == token || token + "/" <= value
  }

  function Contained(w: World, path: Path): (r: Result<Path>)
    ensures r.Ok? ==> w.inPayload(r.value)
  {
    var resolved := w.resolve(path);
    if w.inPayload(resolved) then Ok(resolved) else Error
  }

  /** `expand_path`. */
  function ExpandPath(w: World, value: string, loader: Path, executable: Option<Path>): (r: Result<Path>)
    ensures r.Ok? ==> w.system(r.value) || w.inPayload(r.value)
  {
    if Uses(value, LOADER_TOKEN) then
      Contained(w, w.join(w.parent(loader), LeftStrip(value[|LOADER_TOKEN|..])))
    else if Uses(value, EXECUTABLE_TOKEN) then
      if executable.None? then Error
      else Contained(w, w.join(w.parent(executable.value), LeftStrip(value[|EXECUTABLE_TOKEN|..])))
    else if !w.absolute(value) then Error
    else if w.system(value) then Ok(value)
    else Contained(w, value)
  }

  /** A list comprehension over `expand_path`: the first failure fails the whole. */
  function ExpandAll(w: World, values: seq<string>, loader: Path, executable: Option<Path>): (r: Result<seq<Path>>)
    ensures r.Ok? ==> |r.value| == |values|
  {
    if values == [] then Ok([])
    else
      var first := ExpandPath(w, values[0], loader, executable);
      if first.Error? then Error else
      var rest := ExpandAll(w, values[1..], loader, executable);
      if rest.Error? then Error else Ok([first.value] + rest.value)
  }

  function Joined(w: World, rpaths: seq<Path>, suffix: string): seq<string> {
    seq(|rpaths|, i requires 0 <= i < |rpaths| => w.join(rpaths[i], suffix))
  }

  /** The first candidate that is a system path or present; a present one must be an inventoried dylib. */
  function FirstCandidate(w: World, candidates: seq<Path>): (r: Result<Path>)
    ensures r.Ok? ==> r.value in candidates
    ensures r.Ok? && !w.system(r.value) ==>
              w.present(r.value) && r.value in w.images && w.images[r.value].kind == Dylib
  {
    if candidates == [] then Error
    else if w.system(candidates[0]) then Ok(candidates[0])
    else if w.present(candidates[0]) then
      if candidates[0] in w.images && w.images[candidates[0]].kind == Dylib then Ok(candidates[0]) else Error
    else FirstCandidate(w, candidates[1..])
  }

  /** `resolve_load`. */
  function ResolveLoad(
    w: World, name: string, loader: Path, executable: Option<Path>, rpaths: seq<Path>): (r: Result<Path>)
    ensures r.Ok? && !w.system(r.value) ==>
              w.present(r.value) && r.value in w.images && w.images[r.value].kind == Dylib
  {
    if RPATH <= name then
      var suffix := name[|RPATH|..];
      if suffix == "" || suffix[0] == '/' || w.climbs(suffix) then Error
      else
        var candidates := ExpandAll(w, Joined(w, rpaths, suffix), loader, executable);
        if candidates.Error? then Error else FirstCandidate(w, candidates.value)
    else
      var candidate := ExpandPath(w, name, loader, executable);
      if candidate.Error? then Error else FirstCandidate(w, [candidate.value])
  }

  /** One resolved load: who loads what, for which executable, and where it was found. */
  datatype Row = Row(loader: Path, executable: Option<Path>, dependency: Dependency, resolved: Path, system: bool)

  // ---- What the rows mean ----

  ghost predicate HasRow(rows: seq<Row>, loader: Path, executable: Option<Path>, d: Dependency) {
    exists k :: 0 <= k < |rows| && rows[k].loader == loader && rows[k].executable == executable
      && rows[k].dependency == d
  }

  /** Every load of `p` has its row in this executable's context. */
  ghost predicate Complete(w: World, rows: seq<Row>, p: Path, executable: Option<Path>) {
    p in w.images && forall d :: d in w.images[p].dependencies ==> HasRow(rows, p, executable, d)
  }

  /** A row is about an inventoried loader and one of its loads, and points at a system path or an inventoried dylib. */
  ghost predicate RowOk(w: World, row: Row) {
    && row.loader in w.images && row.dependency in w.images[row.loader].dependencies
    && row.system == w.system(row.resolved)
    && (!row.system ==> row.resolved in w.images && w.images[row.resolved].kind == Dylib && w.present(row.resolved))
    && (row.executable.Some? ==> row.executable.value in w.images && w.images[row.executable.value].kind == Execute)
  }

  /**
   * The load was resolved with the loader's own run paths followed by those inherited from its loader: `contexts[k]`
   * is the list in force for row `k`, and a row's loader is either where its context starts or some earlier target.
   */
  ghost predicate Grounded(w: World, rows: seq<Row>, contexts: seq<seq<Path>>, k: nat) {
    && k < |rows| == |contexts| && rows[k].loader in w.images
    && var own := ExpandAll(w, w.images[rows[k].loader].rpaths, rows[k].loader, rows[k].executable);
       && own.Ok?
       && ResolveLoad(w, rows[k].dependency.name, rows[k].loader, rows[k].executable, contexts[k])
          == Ok(rows[k].resolved)
       && (|| (contexts[k] == own.value && (rows[k].executable.Some? ==> rows[k].executable.value == rows[k].loader))
           || exists j :: 0 <= j < k && rows[j].resolved == rows[k].loader && !rows[j].system &&
                          rows[j].executable == rows[k].executable && contexts[k] == own.value + contexts[j])
  }

  lemma {:induction false} CompleteGrows(w: World, rows: seq<Row>, more: seq<Row>, p: Path, executable: Option<Path>)
    requires Complete(w, rows, p, executable) && rows <= more
    ensures Complete(w, more, p, executable)
  {
    forall d | d in w.images[p].dependencies ensures HasRow(more, p, executable, d) {
      assert HasRow(rows, p, executable, d);
      var k :| 0 <= k < |rows| && rows[k].loader == p && rows[k].executable == executable && rows[k].dependency == d;
      assert more[k] == rows[k];
    }
  }

  lemma {:induction false} GroundedGrows(
    w: World, rows: seq<Row>, contexts: seq<seq<Path>>, rows': seq<Row>, contexts': seq<seq<Path>>, k: nat)
    requires Grounded(w, rows, contexts, k) && rows <= rows' && contexts <= contexts' && |rows'| == |contexts'|
    ensures Grounded(w, rows', contexts', k)
  {
    hide ResolveLoad;
    hide ExpandAll;
    assert rows'[k] == rows[k] && contexts'[k] == contexts[k];
    assert forall j :: 0 <= j < k ==> rows'[j] == rows[j] && contexts'[j] == contexts[j];
  }

  // ---- The walk without its limits ----

  /** What a part of the walk does: its visits, its rows, its longest chain, and what it reaches. */
  datatype Trace = Trace(visits: nat, rows: nat, depth: nat, reached: set<Path>)

  const NO_STEPS := Trace(0, 0, 0, {})

  function Then(a: Option<Trace>, b: Option<Trace>): Option<Trace> {
    if a.None? || b.None? then None
    else
      var x, y := a.value, b.value;
      var depth := if x.depth < y.depth then y.depth else x.depth;
      Some(Trace(x.visits + y.visits, x.rows + y.rows, depth, x.reached + y.reached))
  }

  /** The visit of one image; None where a run path or a load does not resolve. */
  ghost function WalkImage(
    w: World, loader: Path, executable: Option<Path>, inherited: seq<Path>, chain: seq<Path>): Option<Trace>
    requires loader in w.images
    decreases w.images.Keys - Members(chain), 0, 0
  {
    if loader in chain then Some(Trace(1, 0, |chain|, {}))
    else
      var own := ExpandAll(w, w.images[loader].rpaths, loader, executable);
      if own.Error? then None
      else
        assert Members(chain + [loader]) == Members(chain) + {loader};
        Then(Some(Trace(1, 0, |chain|, {loader})),
             WalkLoads(w, loader, executable, own.value + inherited, chain + [loader], w.images[loader].dependencies))
  }

  ghost function WalkLoads(
    w: World, loader: Path, executable: Option<Path>, rpaths: seq<Path>, deeper: seq<Path>,
    ds: seq<Dependency>): Option<Trace>
    decreases w.images.Keys - Members(deeper), 2, |ds|
  {
    if ds == [] then Some(NO_STEPS)
    else
      Then(WalkLoad(w, loader, executable, rpaths, deeper, ds[0]),
           WalkLoads(w, loader, executable, rpaths, deeper, ds[1..]))
  }

  ghost function WalkLoad(
    w: World, loader: Path, executable: Option<Path>, rpaths: seq<Path>, deeper: seq<Path>,
    d: Dependency): Option<Trace>
    decreases w.images.Keys - Members(deeper), 1, 0
  {
    var target := ResolveLoad(w, d.name, loader, executable, rpaths);
    if target.Error? then None
    else if w.system(target.value) then Some(Trace(0, 1, 0, {}))
    else Then(Some(Trace(0, 1, 0, {})), WalkImage(w, target.value, executable, rpaths, deeper))
  }

  ghost function WalkExecutables(w: World, order: seq<Path>): Option<Trace>
    requires Members(order) <= w.images.Keys
  {
    if order == [] then Some(NO_STEPS)
    else
      var p := order[0];
      assert p in Members(order) && Members(order[1..]) <= Members(order);
      Then(if w.images[p].kind == Execute then WalkImage(w, p, Some(p), [], []) else Some(NO_STEPS),
           WalkExecutables(w, order[1..]))
  }

  /** Whatever was not reached before, each in a context of its own. */
  ghost function WalkOthers(w: World, order: seq<Path>, reached: set<Path>): Option<Trace>
    requires Members(order) <= w.images.Keys
    decreases |order|
  {
    if order == [] then Some(NO_STEPS)
    else
      var p := order[0];
      assert p in Members(order) && Members(order[1..]) <= Members(order);
      var first := if p in reached then Some(NO_STEPS) else WalkImage(w, p, None, [], []);
      if first.None? then None else Then(first, WalkOthers(w, order[1..], reached + first.value.reached))
  }

  ghost function WholeWalk(w: World, order: seq<Path>): Option<Trace>
    requires Members(order) <= w.images.Keys
  {
    var executables := WalkExecutables(w, order);
    if executables.None? then None else Then(executables, WalkOthers(w, order, executables.value.reached))
  }

  /** How far the walk is. */
  datatype Counts = Counts(visits: nat, rows: nat, reached: set<Path>)

  /** Nothing is left unresolved, and no limit is passed by a part that begins here. */
  predicate Within(c: Counts, t: Option<Trace>) {
    t.Some? && c.visits + t.value.visits <= MAX_CONTEXTS && c.rows + t.value.rows <= MAX_CONTEXTS
      && t.value.depth < MAX_DEPTH
  }

  predicate After(c: Counts, t: Option<Trace>, d: Counts) {
    t.Some? && d == Counts(c.visits + t.value.visits, c.rows + t.value.rows, c.reached + t.value.reached)
  }

  lemma {:induction false} ThenAssoc(a: Option<Trace>, b: Option<Trace>, c: Option<Trace>)
    ensures Then(Then(a, b), c) == Then(a, Then(b, c))
    ensures Then(a, Some(NO_STEPS)) == a && Then(Some(NO_STEPS), a) == a
  {
    if a.Some? && b.Some? && c.Some? {
      assert a.value.reached + b.value.reached + c.value.reached
             == a.value.reached + (b.value.reached + c.value.reached);
    }
    if a.Some? { assert a.value.reached + {} == a.value.reached && {} + a.value.reached == a.value.reached; }
  }

  lemma {:induction false} ThenWithin(c: Counts, a: Option<Trace>, d: Counts, b: Option<Trace>)
    requires After(c, a, d)
    ensures Within(c, Then(a, b)) <==> Within(c, a) && Within(d, b)
  {}

  lemma {:induction false} ThenAfter(c: Counts, a: Option<Trace>, d: Counts, b: Option<Trace>, e: Counts)
    requires After(c, a, d) && After(d, b, e)
    ensures After(c, Then(a, b), e)
  {
    assert c.reached + a.value.reached + b.value.reached == c.reached + (a.value.reached + b.value.reached);
  }

  lemma {:induction false} ThenNeeds(c: Counts, a: Option<Trace>, b: Option<Trace>)
    ensures Within(c, Then(a, b)) ==> Within(c, a)
  {}

  /** The next of several parts fits exactly when the whole still can. */
  lemma {:induction false} NextPart(c: Counts, done: Option<Trace>, d: Counts, part: Option<Trace>, rest: Option<Trace>)
    requires Within(c, done) && After(c, done, d)
    ensures Then(done, Then(part, rest)) == Then(Then(done, part), rest)
    ensures Within(c, Then(done, part)) <==> Within(d, part)
    ensures Within(c, Then(done, Then(part, rest))) ==> Within(d, part)
  {
    ThenAssoc(done, part, rest);
    ThenWithin(c, done, d, part);
    ThenNeeds(c, Then(done, part), rest);
  }

  lemma {:induction false} FirstStep(c: Counts, depth: nat, here: set<Path>)
    ensures var t := Some(Trace(1, 0, depth, here));
            && (Within(c, t) <==> c.visits + 1 <= MAX_CONTEXTS && c.rows <= MAX_CONTEXTS && depth < MAX_DEPTH)
            && After(c, t, Counts(c.visits + 1, c.rows, c.reached + here))
               && (here == {} ==> c.reached + here == c.reached)
  {}

  lemma {:induction false} NoStep(c: Counts)
    ensures Within(c, Some(NO_STEPS)) <==> c.visits <= MAX_CONTEXTS && c.rows <= MAX_CONTEXTS
    ensures After(c, Some(NO_STEPS), c)
  {
    assert c.reached + {} == c.reached;
  }

  lemma {:induction false} VisitWalk(
    w: World, loader: Path, executable: Option<Path>, inherited: seq<Path>, chain: seq<Path>, c: Counts)
    requires loader in w.images
    ensures var t := WalkImage(w, loader, executable, inherited, chain);
            var own := ExpandAll(w, w.images[loader].rpaths, loader, executable);
            && (Within(c, t) ==> c.visits + 1 <= MAX_CONTEXTS && |chain| < MAX_DEPTH)
            && (loader in chain ==> t == Some(Trace(1, 0, |chain|, {})))
            && (loader !in chain && own.Error? ==> t.None?)
            && (loader !in chain && own.Ok? ==>
                t == Then(Some(Trace(1, 0, |chain|, {loader})),
                          WalkLoads(w, loader, executable, own.value + inherited, chain + [loader],
                                    w.images[loader].dependencies)))
  {
    hide ExpandAll;
  }

  lemma {:induction false} FollowWalk(
    w: World, loader: Path, executable: Option<Path>, rpaths: seq<Path>, deeper: seq<Path>, d: Dependency, c: Counts)
    ensures var t := WalkLoad(w, loader, executable, rpaths, deeper, d);
            var target := ResolveLoad(w, d.name, loader, executable, rpaths);
            && (Within(c, t) ==> c.rows + 1 <= MAX_CONTEXTS)
            && (target.Error? ==> t.None?)
            && (target.Ok? && w.system(target.value) ==> t == Some(Trace(0, 1, 0, {})))
            && (target.Ok? && !w.system(target.value) ==>
                t == Then(Some(Trace(0, 1, 0, {})), WalkImage(w, target.value, executable, rpaths, deeper)))
  {
    hide ResolveLoad;
  }

  /** A part that is broken breaks the whole. */
  lemma {:induction false} BrokenPart(c: Counts, done: Option<Trace>, d: Counts)
    ensures !Within(c, Then(done, None)) && !Within(d, None)
  {}

  lemma {:induction false} WholeParts(w: World, order: seq<Path>, c: Counts)
    requires Members(order) == w.images.Keys
    ensures Members(order) <= w.images.Keys
    ensures var a, walk := WalkExecutables(w, order), WholeWalk(w, order);
            && (!Within(c, a) ==> !Within(c, walk))
            && (Within(c, a) ==> a.Some? && walk == Then(a, WalkOthers(w, order, a.value.reached)))
  {
    hide WalkExecutables;
    hide WalkOthers;
  }

  lemma {:induction false} FromNothing(c: Counts, t: Option<Trace>, d: Counts)
    requires c.reached == {} && After(c, t, d)
    ensures t.Some? && d.reached == t.value.reached
  {}

  lemma {:induction false} AfterReached(c: Counts, t: Option<Trace>, d: Counts)
    requires After(c, t, d)
    ensures d.reached == c.reached + t.value.reached
  {}

  lemma {:induction false} ExecutablesFrom(w: World, order: seq<Path>, i: nat)
    requires i < |order| && Members(order[i..]) <= w.images.Keys
    ensures order[i] in w.images && Members(order[i + 1..]) <= w.images.Keys
    ensures var p := order[i];
            WalkExecutables(w, order[i..]) ==
            Then(if w.images[p].kind == Execute then WalkImage(w, p, Some(p), [], []) else Some(NO_STEPS),
                 WalkExecutables(w, order[i + 1..]))
  {
    hide WalkImage;
    hide Then;
    assert order[i..][0] == order[i] && order[i..][1..] == order[i + 1..];
    assert order[i] in Members(order[i..]);
    forall p | p in Members(order[i + 1..]) ensures p in w.images {
      var j :| 0 <= j < |order[i + 1..]| && order[i + 1..][j] == p;
      assert order[i..][j + 1] == p;
      assert p in Members(order[i..]);
    }
  }

  lemma {:induction false} OthersFrom(w: World, order: seq<Path>, i: nat, reached: set<Path>)
    requires i < |order| && Members(order[i..]) <= w.images.Keys
    ensures order[i] in w.images && Members(order[i + 1..]) <= w.images.Keys
    ensures var p, walk := order[i], WalkOthers(w, order[i..], reached);
            if p in reached then walk == WalkOthers(w, order[i + 1..], reached)
            else
              var first := WalkImage(w, p, None, [], []);
              walk == if first.None? then None
                      else Then(first, WalkOthers(w, order[i + 1..], reached + first.value.reached))
  {
    ExecutablesFrom(w, order, i);
    hide WalkImage;
    hide WalkExecutables;
    assert order[i..][0] == order[i] && order[i..][1..] == order[i + 1..];
    ThenAssoc(WalkOthers(w, order[i + 1..], reached), None, None);
    assert reached + {} == reached;
    hide Then;
  }

  lemma {:induction false} NoOrder(w: World, reached: set<Path>)
    ensures WalkExecutables(w, []) == Some(NO_STEPS) && WalkOthers(w, [], reached) == Some(NO_STEPS)
  {}

  lemma {:induction false} NoLoads(
    w: World, loader: Path, executable: Option<Path>, rpaths: seq<Path>, deeper: seq<Path>)
    ensures WalkLoads(w, loader, executable, rpaths, deeper, []) == Some(NO_STEPS)
  {}

  lemma {:induction false} LoadsFrom(
    w: World, loader: Path, executable: Option<Path>, rpaths: seq<Path>, deeper: seq<Path>, ds: seq<Dependency>, i: nat)
    requires i < |ds|
    ensures WalkLoads(w, loader, executable, rpaths, deeper, ds[i..])
         == Then(WalkLoad(w, loader, executable, rpaths, deeper, ds[i]),
                 WalkLoads(w, loader, executable, rpaths, deeper, ds[i + 1..]))
  {
    assert ds[i..][0] == ds[i] && ds[i..][1..] == ds[i + 1..];
  }

  // ---- The walk ----

  class Resolver {
    const world: World
    var resolutions: seq<Row>
    var reached: set<Path>
    var visits: nat
    ghost var contexts: seq<seq<Path>>

    constructor (world: World)
      ensures this.world == world && resolutions == [] && reached == {} && visits == 0 && contexts == []
    {
      this.world := world;
      resolutions, reached, visits, contexts := [], {}, 0, [];
    }

    /** All rows so far are right, in both senses, and within the limits. */
    ghost predicate Valid()
      reads this
    {
      && |resolutions| == |contexts| && reached <= world.images.Keys
      && (forall k :: 0 <= k < |resolutions| ==> RowOk(world, resolutions[k]))
      && (forall k :: 0 <= k < |resolutions| ==> Grounded(world, resolutions, contexts, k))
      && |resolutions| <= MAX_CONTEXTS
    }

    function Now(): Counts
      reads this
    {
      Counts(visits, |resolutions|, reached)
    }

    /** How the walk came to `loader`: as the start of a context, or through an earlier row. */
    ghost predicate Enters(loader: Path, executable: Option<Path>, inherited: seq<Path>, origin: int)
      reads this
      requires |resolutions| == |contexts|
    {
      if origin < 0 then inherited == [] && (executable.Some? ==> executable.value == loader)
      else
        && origin < |resolutions| && resolutions[origin].resolved == loader && !resolutions[origin].system
        && resolutions[origin].executable == executable && contexts[origin] == inherited
    }

    /** One resolved load is recorded. */
    method Record(row: Row, ghost own: seq<Path>, ghost inherited: seq<Path>, ghost origin: int)
      requires Valid() && |resolutions| < MAX_CONTEXTS && RowOk(world, row)
      requires Enters(row.loader, row.executable, inherited, origin)
      requires ExpandAll(world, world.images[row.loader].rpaths, row.loader, row.executable) == Ok(own)
      requires ResolveLoad(world, row.dependency.name, row.loader, row.executable, own + inherited) == Ok(row.resolved)
      modifies this`resolutions, this`contexts
      ensures Valid() && resolutions == old(resolutions) + [row] && contexts == old(contexts) + [own + inherited]
    {
      hide ResolveLoad;
      hide ExpandAll;
      ghost var rows, lists := resolutions, contexts;
      resolutions := resolutions + [row];
      contexts := contexts + [own + inherited];
      forall k | 0 <= k < |rows| ensures Grounded(world, resolutions, contexts, k) {
        GroundedGrows(world, rows, lists, resolutions, contexts, k);
      }
      ghost var last := |rows|;
      assert own + [] == own;
      assert Grounded(world, resolutions, contexts, last) by {
        assert resolutions[last] == row && contexts[last] == own + inherited;
        if origin >= 0 { assert resolutions[origin] == rows[origin] && contexts[origin] == lists[origin]; }
      }
    }

    /** `visit`. What it leaves unfinished are only the images still open in the chain above it. */
    method Visit(loader: Path, executable: Option<Path>, inherited: seq<Path>, chain: seq<Path>, ghost origin: int)
      returns (ok: bool)
      requires Valid() && loader in world.images && Enters(loader, executable, inherited, origin)
      requires executable.Some? ==> executable.value in world.images && world.images[executable.value].kind == Execute
      modifies this
      ensures Valid() && old(resolutions) <= resolutions && old(contexts) <= contexts && old(reached) <= reached
      ensures ok ==> visits <= MAX_CONTEXTS && |chain| < MAX_DEPTH
      ensures ok ==> loader in chain || (loader in reached && Complete(world, resolutions, loader, executable))
      ensures ok ==> Settled(world, resolutions, |old(resolutions)|, |resolutions|, executable, chain)
      ensures ok ==> Accounted(world, resolutions, reached - old(reached), executable, chain)
      ensures var t := WalkImage(world, loader, executable, inherited, chain);
              (ok <==> Within(old(Now()), t)) && (ok ==> After(old(Now()), t, Now()))
      decreases world.images.Keys - Members(chain), 0
    {
      ghost var c := Now();
      VisitWalk(world, loader, executable, inherited, chain, c);
      FirstStep(c, |chain|, {});
      FirstStep(c, |chain|, {loader});
      hide Within;
      hide After;
      hide WalkImage;
      hide WalkLoads;
      hide WalkLoad;
      hide Then;
      hide ResolveLoad;
      hide ExpandAll;
      hide Complete;
      hide RowOk;
      hide Grounded;
      visits := visits + 1;
      if visits > MAX_CONTEXTS || |chain| >= MAX_DEPTH { return false; }
      if loader in chain { return true; }
      reached := reached + {loader};
      var own := ExpandAll(world, world.images[loader].rpaths, loader, executable);
      if own.Error? { return false; }
      ghost var start, d := |resolutions|, Now();
      var deeper := chain + [loader];
      assert Members(deeper) == Members(chain) + {loader};
      ghost var here := Some(Trace(1, 0, |chain|, {loader}));
      ghost var part := WalkLoads(
        world, loader, executable, own.value + inherited, deeper, world.images[loader].dependencies);
      ThenWithin(c, here, d, part);
      ok := FollowAll(loader, executable, own.value, inherited, deeper, origin, old(reached));
      if !ok { return false; }
      ThenAfter(c, here, d, part, Now());
      SettledCloses(world, resolutions, start, |resolutions|, executable, chain, loader);
      AccountedCloses(world, resolutions, reached - old(reached), executable, chain, loader);
    }

    /** The loop over an image's loads. */
    method FollowAll(
      loader: Path, executable: Option<Path>, own: seq<Path>, inherited: seq<Path>, deeper: seq<Path>,
      ghost origin: int, ghost before: set<Path>) returns (ok: bool)
      requires Valid() && loader in world.images && Enters(loader, executable, inherited, origin)
      requires executable.Some? ==> executable.value in world.images && world.images[executable.value].kind == Execute
      requires loader in deeper && visits <= MAX_CONTEXTS && reached == before + {loader}
      requires ExpandAll(world, world.images[loader].rpaths, loader, executable) == Ok(own)
      modifies this
      ensures Valid() && old(resolutions) <= resolutions && old(contexts) <= contexts && old(reached) <= reached
      ensures ok ==> visits <= MAX_CONTEXTS && Complete(world, resolutions, loader, executable)
      ensures ok ==> Settled(world, resolutions, |old(resolutions)|, |resolutions|, executable, deeper)
      ensures ok ==> Accounted(world, resolutions, reached - before, executable, deeper)
      ensures var t := WalkLoads(world, loader, executable, own + inherited, deeper, world.images[loader].dependencies);
              (ok <==> Within(old(Now()), t)) && (ok ==> After(old(Now()), t, Now()))
      decreases world.images.Keys - Members(deeper), 2
    {
      ghost var c := Now();
      NoStep(c);
      hide Within;
      hide After;
      hide WalkLoads;
      hide WalkLoad;
      hide Then;
      hide ResolveLoad;
      hide ExpandAll;
      hide Complete;
      hide RowOk;
      hide Grounded;
      var image := world.images[loader];
      var i := 0;
      ghost var start, done, rpaths := |resolutions|, Some(NO_STEPS), own + inherited;
      ghost var walk := WalkLoads(world, loader, executable, rpaths, deeper, image.dependencies);
      assert image.dependencies[0..] == image.dependencies;
      ThenAssoc(walk, None, None);
      while i < |image.dependencies|
        invariant i <= |image.dependencies| && Valid() && start <= |resolutions|
        invariant walk == Then(done, WalkLoads(world, loader, executable, rpaths, deeper, image.dependencies[i..]))
        invariant Within(c, done) && After(c, done, Now())
        invariant old(resolutions) <= resolutions && old(contexts) <= contexts
        invariant old(reached) <= reached && visits <= MAX_CONTEXTS
        invariant Enters(loader, executable, inherited, origin)
        invariant Loaded(resolutions, loader, executable, image.dependencies[..i])
        invariant Settled(world, resolutions, start, |resolutions|, executable, deeper)
        invariant Accounted(world, resolutions, reached - before, executable, deeper)
      {
        var dependency := image.dependencies[i];
        ghost var part := WalkLoad(world, loader, executable, rpaths, deeper, dependency);
        LoadsFrom(world, loader, executable, rpaths, deeper, image.dependencies, i);
        ghost var d := Now();
        NextPart(c, done, d, part, WalkLoads(world, loader, executable, rpaths, deeper, image.dependencies[i + 1..]));
        ok := Follow(loader, executable, own, inherited, deeper, dependency, origin, before, start);
        if !ok { return false; }
        ThenAfter(c, done, d, part, Now());
        done := Then(done, part);
        assert image.dependencies[..i + 1] == image.dependencies[..i] + [dependency];
        i := i + 1;
      }
      assert image.dependencies[..i] == image.dependencies && image.dependencies[i..] == [];
      NoLoads(world, loader, executable, rpaths, deeper);
      ThenAssoc(done, None, None);
      Finished(world, resolutions, loader, executable);
      ok := true;
    }

    /**
     * One turn of the loop over an image's loads: resolve, record, and go into the target unless it is a system one.
     */
    method Follow(
      loader: Path, executable: Option<Path>, own: seq<Path>, inherited: seq<Path>, deeper: seq<Path>,
      dependency: Dependency, ghost origin: int, ghost before: set<Path>, ghost start: nat) returns (ok: bool)
      requires Valid() && loader in world.images && Enters(loader, executable, inherited, origin)
      requires executable.Some? ==> executable.value in world.images && world.images[executable.value].kind == Execute
      requires dependency in world.images[loader].dependencies && loader in deeper && visits <= MAX_CONTEXTS
      requires ExpandAll(world, world.images[loader].rpaths, loader, executable) == Ok(own)
      requires start <= |resolutions| && Settled(world, resolutions, start, |resolutions|, executable, deeper)
      requires before <= reached && Accounted(world, resolutions, reached - before, executable, deeper)
      modifies this
      ensures Valid() && old(resolutions) <= resolutions && old(contexts) <= contexts && old(reached) <= reached
      ensures Enters(loader, executable, inherited, origin)
      ensures ok ==> visits <= MAX_CONTEXTS && HasRow(resolutions, loader, executable, dependency)
      ensures ok ==> Settled(world, resolutions, start, |resolutions|, executable, deeper)
      ensures ok ==> Accounted(world, resolutions, reached - before, executable, deeper)
      ensures ok ==> forall ds :: Loaded(old(resolutions), loader, executable, ds) ==>
                       Loaded(resolutions, loader, executable, ds + [dependency])
      ensures var t := WalkLoad(world, loader, executable, own + inherited, deeper, dependency);
              (ok <==> Within(old(Now()), t)) && (ok ==> After(old(Now()), t, Now()))
      decreases world.images.Keys - Members(deeper), 1
    {
      ghost var c := Now();
      FollowWalk(world, loader, executable, own + inherited, deeper, dependency, c);
      hide WalkImage;
      hide WalkLoad;
      hide Then;
      hide ResolveLoad;
      hide ExpandAll;
      hide Complete;
      hide Grounded;
      if |resolutions| >= MAX_CONTEXTS { return false; }
      var target := ResolveLoad(world, dependency.name, loader, executable, own + inherited);
      if target.Error? { return false; }
      ResolvedPlace(world, dependency.name, loader, executable, own + inherited);
      var row := Row(loader, executable, dependency, target.value, world.system(target.value));
      ghost var rows, r := resolutions, |resolutions|;
      Record(row, own, inherited, origin);
      ghost var recorded := resolutions;
      assert recorded[r] == row;
      ok := true;
      ghost var d, step := Now(), Some(Trace(0, 1, 0, {}));
      assert After(c, step, d) by { assert c.reached + {} == c.reached; }
      if !row.system {
        ghost var part := WalkImage(world, row.resolved, executable, own + inherited, deeper);
        ThenWithin(c, step, d, part);
        ok := Visit(row.resolved, executable, own + inherited, deeper, r);
        if !ok { return; }
        ThenAfter(c, step, d, part, Now());
      }
      assert resolutions[r] == row;
      LoadedGrows(rows, resolutions, row);
      SettledGrows(world, rows, resolutions, start, r, executable, deeper);
      AccountedGrows(world, rows, resolutions, old(reached) - before, executable, deeper);
      assert reached - before == (reached - old(reached)) + (old(reached) - before);
    }

    /**
     * `resolve_closure`: every executable in its own context, then whatever no executable reached. It succeeds exactly
     * when everything met on the unlimited walk resolves and that walk stays within the limits, and is then that walk.
     */
    method ResolveClosure(order: seq<Path>) returns (ok: bool)
      requires Members(order) == world.images.Keys
      requires resolutions == [] && reached == {} && visits == 0 && contexts == []
      modifies this
      ensures Valid()
      ensures ok <==> Within(Counts(0, 0, {}), WholeWalk(world, order))
      ensures ok ==> After(Counts(0, 0, {}), WholeWalk(world, order), Now())
      ensures ok ==> reached == world.images.Keys && visits <= MAX_CONTEXTS && |resolutions| <= MAX_CONTEXTS
      ensures ok ==> Closed(world, resolutions)
      ensures ok ==> forall p :: p in world.images ==> exists e :: Complete(world, resolutions, p, e)
      ensures ok ==> ExecutablesComplete(world, resolutions, world.images.Keys)
    {
      ghost var c := Now();
      StartOk();
      WholeParts(world, order, c);
      hide *;
      ok := ResolveExecutables(order);
      ghost var first := WalkExecutables(world, order);
      if !ok { return false; }
      ghost var d, rest := Now(), WalkOthers(world, order, reached);
      FromNothing(c, first, d);
      ThenWithin(c, first, d, rest);
      ok := ResolveOthers(order);
      if ok {
        ThenAfter(c, first, d, rest, Now());
        ValidBound();
      }
    }

    lemma {:induction false} StartOk()
      requires resolutions == [] && reached == {} && visits == 0 && contexts == []
      ensures Valid() && visits <= MAX_CONTEXTS && Now() == Counts(0, 0, {})
      ensures Closed(world, resolutions) && AllComplete(world, resolutions, reached)
    {}

    lemma {:induction false} ValidBound()
      requires Valid()
      ensures |resolutions| <= MAX_CONTEXTS
    {
      hide RowOk;
      hide Grounded;
    }

    /** The loop over the executables. */
    method ResolveExecutables(order: seq<Path>) returns (ok: bool)
      requires Members(order) <= world.images.Keys
      requires Valid() && visits <= MAX_CONTEXTS && Closed(world, resolutions)
               && AllComplete(world, resolutions, reached)
      modifies this
      ensures Valid()
      ensures var t := WalkExecutables(world, order);
              (ok <==> Within(old(Now()), t)) && (ok ==> After(old(Now()), t, Now()))
      ensures ok ==> visits <= MAX_CONTEXTS && Closed(world, resolutions) && AllComplete(world, resolutions, reached)
      ensures ok ==> ExecutablesComplete(world, resolutions, Members(order))
    {
      ghost var c := Now();
      NoStep(c);
      hide Within;
      hide After;
      hide WalkImage;
      hide WalkExecutables;
      hide Then;
      hide Complete;
      hide Grounded;
      hide RowOk;
      var i := 0;
      ghost var done := Some(NO_STEPS);
      ghost var walk := WalkExecutables(world, order);
      ThenAssoc(walk, None, None);
      assert order[0..] == order;
      while i < |order|
        invariant i <= |order| && Valid() && visits <= MAX_CONTEXTS && Closed(world, resolutions)
        invariant AllComplete(world, resolutions, reached)
                  && ExecutablesComplete(world, resolutions, Members(order[..i]))
        invariant Members(order[i..]) <= world.images.Keys && walk == Then(done, WalkExecutables(world, order[i..]))
        invariant Within(c, done) && After(c, done, Now())
      {
        var path := order[i];
        ExecutablesFrom(world, order, i);
        assert order[..i + 1] == order[..i] + [path];
        if world.images[path].kind == Execute {
          ghost var d, part := Now(), WalkImage(world, path, Some(path), [], []);
          NextPart(c, done, d, part, WalkExecutables(world, order[i + 1..]));
          ok := Start(path, Some(path), order[..i]);
          if !ok { return false; }
          ThenAfter(c, done, d, part, Now());
          done := Then(done, part);
        } else {
          ThenAssoc(WalkExecutables(world, order[i + 1..]), None, None);
        }
        i := i + 1;
      }
      assert order[..i] == order && order[i..] == [];
      NoOrder(world, reached);
      ThenAssoc(done, None, None);
      ok := true;
    }

    /** The loop over what no executable reached. */
    method ResolveOthers(order: seq<Path>) returns (ok: bool)
      requires Members(order) == world.images.Keys
      requires Valid() && visits <= MAX_CONTEXTS && Closed(world, resolutions)
               && AllComplete(world, resolutions, reached)
      requires ExecutablesComplete(world, resolutions, Members(order))
      modifies this
      ensures Valid()
      ensures var t := WalkOthers(world, order, old(reached));
              (ok <==> Within(old(Now()), t)) && (ok ==> After(old(Now()), t, Now()))
      ensures ok ==> visits <= MAX_CONTEXTS && Closed(world, resolutions) && AllComplete(world, resolutions, reached)
      ensures ok ==> reached == world.images.Keys && ExecutablesComplete(world, resolutions, Members(order))
    {
      ghost var c := Now();
      NoStep(c);
      hide Within;
      hide After;
      hide WalkImage;
      hide WalkOthers;
      hide Then;
      hide Complete;
      hide Grounded;
      hide RowOk;
      var i := 0;
      ghost var done := Some(NO_STEPS);
      ghost var walk := WalkOthers(world, order, reached);
      ThenAssoc(walk, None, None);
      assert order[0..] == order;
      while i < |order|
        invariant i <= |order| && Valid() && visits <= MAX_CONTEXTS && Closed(world, resolutions)
        invariant AllComplete(world, resolutions, reached) && ExecutablesComplete(world, resolutions, Members(order))
        invariant Members(order[..i]) <= reached
        invariant Members(order[i..]) <= world.images.Keys && walk == Then(done, WalkOthers(world, order[i..], reached))
        invariant Within(c, done) && After(c, done, Now())
      {
        var path := order[i];
        OthersFrom(world, order, i, reached);
        assert order[..i + 1] == order[..i] + [path];
        if path !in reached {
          ghost var d, part := Now(), WalkImage(world, path, None, [], []);
          if part.None? {
            BrokenPart(c, done, d);
          } else {
            NextPart(c, done, d, part, WalkOthers(world, order[i + 1..], reached + part.value.reached));
          }
          ok := Start(path, None, order);
          if !ok { return false; }
          AfterReached(d, part, Now());
          ThenAfter(c, done, d, part, Now());
          done := Then(done, part);
        }
        i := i + 1;
      }
      assert order[..i] == order && order[i..] == [];
      NoOrder(world, reached);
      ThenAssoc(done, None, None);
      ok := true;
    }

    /** A visit from outside any chain. */
    method Start(path: Path, executable: Option<Path>, ghost done: seq<Path>) returns (ok: bool)
      requires Valid() && path in world.images && Closed(world, resolutions)
      requires executable.Some? ==> executable.value == path && world.images[path].kind == Execute
      requires AllComplete(world, resolutions, reached)
      requires ExecutablesComplete(world, resolutions, Members(done))
      modifies this
      ensures Valid() && old(reached) <= reached
      ensures var t := WalkImage(world, path, executable, [], []);
              (ok <==> Within(old(Now()), t)) && (ok ==> After(old(Now()), t, Now()))
      ensures ok ==> visits <= MAX_CONTEXTS && Closed(world, resolutions) && AllComplete(world, resolutions, reached)
      ensures ok ==> path in reached && Complete(world, resolutions, path, executable)
      ensures ok ==> ExecutablesComplete(world, resolutions, Members(done))
    {
      hide WalkImage;
      hide Within;
      hide After;
      hide Complete;
      hide Grounded;
      hide RowOk;
      ghost var rows := resolutions;
      ok := Visit(path, executable, [], [], -1);
      if ok {
        ClosedGrows(world, rows, resolutions, executable);
        AllCompleteGrows(world, rows, resolutions, old(reached), reached, executable);
        forall p | p in done && p in world.images && world.images[p].kind == Execute
          ensures Complete(world, resolutions, p, Some(p))
        {
          CompleteGrows(world, rows, resolutions, p, Some(p));
        }
      }
    }
  }

  // ---- Bookkeeping of the walk ----

  ghost function Members(chain: seq<Path>): set<Path> {
    set p | p in chain
  }

  /** Rows `from` to `to` belong to one context, and each target is finished in it or still open in the chain. */
  ghost predicate Settled(w: World, rows: seq<Row>, from: nat, to: nat, executable: Option<Path>, open: seq<Path>) {
    to <= |rows| &&
    forall k :: from <= k < to ==>
      && rows[k].executable == executable
      && (!rows[k].system ==> rows[k].resolved in open || Complete(w, rows, rows[k].resolved, executable))
  }

  /** Everything reached is finished in this context, or still open in the chain. */
  ghost predicate Accounted(w: World, rows: seq<Row>, reached: set<Path>, executable: Option<Path>, open: seq<Path>) {
    forall p :: p in reached ==> p in open || Complete(w, rows, p, executable)
  }

  ghost predicate Loaded(rows: seq<Row>, loader: Path, executable: Option<Path>, ds: seq<Dependency>) {
    forall d :: d in ds ==> HasRow(rows, loader, executable, d)
  }

  /** Closed: an inventoried target has, in the same context, rows for all of its own loads. */
  ghost predicate Closed(w: World, rows: seq<Row>) {
    forall k :: 0 <= k < |rows| && !rows[k].system ==> Complete(w, rows, rows[k].resolved, rows[k].executable)
  }

  ghost predicate ExecutablesComplete(w: World, rows: seq<Row>, paths: set<Path>) {
    forall p :: p in paths && p in w.images && w.images[p].kind == Execute ==> Complete(w, rows, p, Some(p))
  }

  ghost predicate AllComplete(w: World, rows: seq<Row>, reached: set<Path>) {
    forall p :: p in reached ==> exists e :: Complete(w, rows, p, e)
  }

  /** What a resolved load points at can be recorded. */
  lemma {:induction false} ResolvedPlace(
    w: World, name: string, loader: Path, executable: Option<Path>, rpaths: seq<Path>)
    requires ResolveLoad(w, name, loader, executable, rpaths).Ok?
    ensures var p := ResolveLoad(w, name, loader, executable, rpaths).value;
            !w.system(p) ==> w.present(p) && p in w.images && w.images[p].kind == Dylib
  {}

  lemma {:induction false} LoadedGrows(rows: seq<Row>, more: seq<Row>, row: Row)
    requires rows + [row] <= more
    ensures HasRow(more, row.loader, row.executable, row.dependency)
    ensures forall ds :: Loaded(rows, row.loader, row.executable, ds) ==>
              Loaded(more, row.loader, row.executable, ds + [row.dependency])
  {
    assert more[|rows|] == row;
    forall d | HasRow(rows, row.loader, row.executable, d) ensures HasRow(more, row.loader, row.executable, d) {
      var k :| 0 <= k < |rows| && rows[k].loader == row.loader && rows[k].executable == row.executable
        && rows[k].dependency == d;
      assert more[k] == rows[k];
    }
  }

  lemma {:induction false} SettledGrows(
    w: World, rows: seq<Row>, more: seq<Row>, from: nat, to: nat, executable: Option<Path>, open: seq<Path>)
    requires Settled(w, rows, from, to, executable, open) && rows <= more
    ensures Settled(w, more, from, to, executable, open)
  {
    hide Complete;
    forall k | from <= k < to && !more[k].system && more[k].resolved !in open
      ensures Complete(w, more, more[k].resolved, executable)
    {
      assert more[k] == rows[k];
      CompleteGrows(w, rows, more, rows[k].resolved, executable);
    }
    assert forall k :: from <= k < to ==> more[k] == rows[k];
  }

  lemma {:induction false} AccountedGrows(
    w: World, rows: seq<Row>, more: seq<Row>, reached: set<Path>, executable: Option<Path>, open: seq<Path>)
    requires Accounted(w, rows, reached, executable, open) && rows <= more
    ensures Accounted(w, more, reached, executable, open)
  {
    hide Complete;
    forall p | p in reached && p !in open ensures Complete(w, more, p, executable) {
      CompleteGrows(w, rows, more, p, executable);
    }
  }

  lemma {:induction false} Finished(w: World, rows: seq<Row>, loader: Path, executable: Option<Path>)
    requires loader in w.images && Loaded(rows, loader, executable, w.images[loader].dependencies)
    ensures Complete(w, rows, loader, executable)
  {}

  lemma {:induction false} SettledCloses(
    w: World, rows: seq<Row>, from: nat, to: nat, executable: Option<Path>, chain: seq<Path>, loader: Path)
    requires Settled(w, rows, from, to, executable, chain + [loader]) && Complete(w, rows, loader, executable)
    ensures Settled(w, rows, from, to, executable, chain)
  {
    hide Complete;
  }

  lemma {:induction false} AccountedCloses(
    w: World, rows: seq<Row>, reached: set<Path>, executable: Option<Path>, chain: seq<Path>, loader: Path)
    requires Accounted(w, rows, reached, executable, chain + [loader]) && Complete(w, rows, loader, executable)
    ensures Accounted(w, rows, reached, executable, chain)
  {
    hide Complete;
  }

  lemma {:induction false} ClosedGrows(w: World, rows: seq<Row>, more: seq<Row>, executable: Option<Path>)
    requires Closed(w, rows) && rows <= more && Settled(w, more, |rows|, |more|, executable, [])
    ensures Closed(w, more)
  {
    hide Complete;
    forall k | 0 <= k < |more| && !more[k].system ensures Complete(w, more, more[k].resolved, more[k].executable) {
      if k < |rows| {
        assert more[k] == rows[k];
        CompleteGrows(w, rows, more, rows[k].resolved, rows[k].executable);
      }
    }
  }

  lemma {:induction false} AllCompleteGrows(
    w: World, rows: seq<Row>, more: seq<Row>, before: set<Path>, after: set<Path>, executable: Option<Path>)
    requires AllComplete(w, rows, before) && rows <= more && Accounted(w, more, after - before, executable, [])
    ensures AllComplete(w, more, after)
  {
    hide Complete;
    forall p | p in after ensures exists e :: Complete(w, more, p, e) {
      if p in before {
        var e :| Complete(w, rows, p, e);
        CompleteGrows(w, rows, more, p, e);
      } else {
        assert Complete(w, more, p, executable);
      }
    }
  }

  /** Some row has `a` loading `b` in this context. */
  ghost predicate Loads(rows: seq<Row>, a: Path, b: Path, executable: Option<Path>) {
    exists k :: 0 <= k < |rows| && rows[k].loader == a && rows[k].resolved == b && rows[k].executable == executable &&
                !rows[k].system
  }

  /** Each image of the route loads the next one. */
  ghost predicate Route(rows: seq<Row>, route: seq<Path>, executable: Option<Path>) {
    forall i :: 0 <= i < |route| - 1 ==> Loads(rows, route[i], route[i + 1], executable)
  }

  /** Whatever an image pulls in, over any number of steps, has all of its own loads resolved in the same context. */
  lemma {:induction false} ClosureIsTransitive(w: World, rows: seq<Row>, route: seq<Path>, executable: Option<Path>)
    requires Closed(w, rows) && route != [] && Complete(w, rows, route[0], executable) && Route(rows, route, executable)
    ensures Complete(w, rows, route[|route| - 1], executable)
    decreases |route|
  {
    hide Complete;
    hide Loads;
    if |route| > 1 {
      var front := route[..|route| - 1];
      assert forall i :: 0 <= i < |front| ==> front[i] == route[i];
      ClosureIsTransitive(w, rows, front, executable);
      LoadedIsComplete(w, rows, route[|route| - 2], route[|route| - 1], executable);
    }
  }

  lemma {:induction false} LoadedIsComplete(w: World, rows: seq<Row>, a: Path, b: Path, executable: Option<Path>)
    requires Closed(w, rows) && Loads(rows, a, b, executable)
    ensures Complete(w, rows, b, executable)
  {
    hide Complete;
  }
}
