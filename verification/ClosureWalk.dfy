/**
 * Why a closure walk fails: exactly when a chain of loads leads to an image with a run path or a load that does not
 * resolve there.
 */
module ClosureWalk {
  import opened Bytes
  import opened Closure

  /** An image on the way, and the run paths it inherits. */
  datatype Stop = Stop(loader: Path, inherited: seq<Path>)

  /** The run paths in force at a stop, if its own resolve. */
  function InForce(w: World, executable: Option<Path>, s: Stop): Result<seq<Path>>
    requires s.loader in w.images
  {
    var own := ExpandAll(w, w.images[s.loader].rpaths, s.loader, executable);
    if own.Error? then Error else Ok(own.value + s.inherited)
  }

  /** One of the loads of the image leads to the next stop. */
  ghost predicate Follows(w: World, executable: Option<Path>, a: Stop, b: Stop) {
    && a.loader in w.images && InForce(w, executable, a) == Ok(b.inherited) && !w.system(b.loader)
    && exists d :: d in w.images[a.loader].dependencies &&
                   ResolveLoad(w, d.name, a.loader, executable, b.inherited) == Ok(b.loader)
  }

  /** Its own run paths do not resolve, or one of its loads does not. */
  ghost predicate Broken(w: World, executable: Option<Path>, s: Stop) {
    && s.loader in w.images
    && (|| InForce(w, executable, s).Error?
        || exists d :: d in w.images[s.loader].dependencies &&
                       ResolveLoad(w, d.name, s.loader, executable, InForce(w, executable, s).value).Error?)
  }

  /** A way from stop to stop that meets no image twice, nor one of the chain before it. */
  ghost predicate Way(w: World, executable: Option<Path>, chain: seq<Path>, stops: seq<Stop>)
    decreases |stops|
  {
    if stops == [] then false
    else
      && stops[0].loader !in chain
      && (|stops| > 1 ==> Follows(w, executable, stops[0], stops[1]) &&
                          Way(w, executable, chain + [stops[0].loader], stops[1..]))
  }

  lemma {:induction false} ThenFails(a: Option<Trace>, b: Option<Trace>)
    ensures Then(a, b) == None <==> a == None || b == None
  {}

  /** A walk that fails has met such an image. */
  lemma {:induction false} ImageFails(
    w: World, loader: Path, executable: Option<Path>, inherited: seq<Path>, chain: seq<Path>) returns (stops: seq<Stop>)
    requires loader in w.images && WalkImage(w, loader, executable, inherited, chain) == None
    ensures stops != [] && Way(w, executable, chain, stops) && stops[0] == Stop(loader, inherited)
    ensures Broken(w, executable, stops[|stops| - 1])
    decreases w.images.Keys - Members(chain), 0, 0
  {
    hide ExpandAll;
    hide ResolveLoad;
    var here, own := Stop(loader, inherited), ExpandAll(w, w.images[loader].rpaths, loader, executable);
    stops := [here];
    if own.Ok? {
      var rpaths, deeper := own.value + inherited, chain + [loader];
      assert Members(deeper) == Members(chain) + {loader};
      ThenFails(Some(Trace(1, 0, |chain|, {loader})),
                WalkLoads(w, loader, executable, rpaths, deeper, w.images[loader].dependencies));
      hide WalkImage;
      var d, rest := LoadsFail(w, loader, executable, rpaths, deeper, w.images[loader].dependencies);
      if rest != [] {
        assert Follows(w, executable, here, rest[0]);
        stops := [here] + rest;
        assert stops[1..] == rest;
      } else {
        assert Broken(w, executable, here);
      }
    }
  }

  /** One of the loads does not resolve, or leads to a part of the walk that fails. */
  lemma {:induction false} LoadsFail(
    w: World, loader: Path, executable: Option<Path>, rpaths: seq<Path>, deeper: seq<Path>, ds: seq<Dependency>)
    returns (d: Dependency, stops: seq<Stop>)
    requires WalkLoads(w, loader, executable, rpaths, deeper, ds) == None
    ensures d in ds
    ensures var target := ResolveLoad(w, d.name, loader, executable, rpaths);
            if stops == [] then target.Error?
            else
              && target == Ok(stops[0].loader) && !w.system(stops[0].loader) && stops[0].inherited == rpaths
              && Way(w, executable, deeper, stops) && Broken(w, executable, stops[|stops| - 1])
    decreases w.images.Keys - Members(deeper), 2, |ds|
  {
    hide ResolveLoad;
    ThenFails(WalkLoad(w, loader, executable, rpaths, deeper, ds[0]),
              WalkLoads(w, loader, executable, rpaths, deeper, ds[1..]));
    if WalkLoad(w, loader, executable, rpaths, deeper, ds[0]) == None {
      d, stops := ds[0], [];
      var target := ResolveLoad(w, d.name, loader, executable, rpaths);
      if target.Ok? {
        ThenFails(Some(Trace(0, 1, 0, {})), WalkImage(w, target.value, executable, rpaths, deeper));
        stops := ImageFails(w, target.value, executable, rpaths, deeper);
      }
    } else {
      d, stops := LoadsFail(w, loader, executable, rpaths, deeper, ds[1..]);
    }
  }

  /** A load that fails, or leads to a part that fails, spoils all the loads. */
  lemma {:induction false} LoadSpoils(
    w: World, loader: Path, executable: Option<Path>, rpaths: seq<Path>, deeper: seq<Path>, ds: seq<Dependency>,
    d: Dependency)
    requires d in ds && WalkLoad(w, loader, executable, rpaths, deeper, d) == None
    ensures WalkLoads(w, loader, executable, rpaths, deeper, ds) == None
    decreases |ds|
  {
    hide WalkLoad;
    ThenFails(WalkLoad(w, loader, executable, rpaths, deeper, ds[0]),
              WalkLoads(w, loader, executable, rpaths, deeper, ds[1..]));
    if ds[0] != d {
      assert d in ds[1..];
      LoadSpoils(w, loader, executable, rpaths, deeper, ds[1..], d);
    }
  }

  lemma {:induction false} ImageSpoiled(
    w: World, executable: Option<Path>, s: Stop, chain: seq<Path>, rpaths: seq<Path>, d: Dependency)
    requires s.loader in w.images && s.loader !in chain && InForce(w, executable, s) == Ok(rpaths)
    requires d in w.images[s.loader].dependencies
    requires WalkLoad(w, s.loader, executable, rpaths, chain + [s.loader], d) == None
    ensures WalkImage(w, s.loader, executable, s.inherited, chain) == None
  {
    hide WalkLoad;
    hide ExpandAll;
    LoadSpoils(w, s.loader, executable, rpaths, chain + [s.loader], w.images[s.loader].dependencies, d);
    ThenFails(Some(Trace(1, 0, |chain|, {s.loader})),
              WalkLoads(w, s.loader, executable, rpaths, chain + [s.loader], w.images[s.loader].dependencies));
    hide WalkLoads;
    VisitWalk(w, s.loader, executable, s.inherited, chain, Counts(0, 0, {}));
    hide WalkImage;
    hide Within;
  }

  /** Such a way makes the walk fail. */
  lemma {:induction false} WayFails(w: World, executable: Option<Path>, chain: seq<Path>, stops: seq<Stop>)
    requires Way(w, executable, chain, stops) && Broken(w, executable, stops[|stops| - 1])
    ensures stops[0].loader in w.images
    ensures WalkImage(w, stops[0].loader, executable, stops[0].inherited, chain) == None
    decreases |stops|
  {
    hide ExpandAll;
    hide ResolveLoad;
    hide WalkImage;
    var s := stops[0];
    var deeper := chain + [s.loader];
    if |stops| == 1 {
      if InForce(w, executable, s).Ok? {
        var rpaths := InForce(w, executable, s).value;
        var d :| d in w.images[s.loader].dependencies &&
                 ResolveLoad(w, d.name, s.loader, executable, rpaths).Error?;
        FollowWalk(w, s.loader, executable, rpaths, deeper, d, Counts(0, 0, {}));
        ImageSpoiled(w, executable, s, chain, rpaths, d);
      } else {
        VisitWalk(w, s.loader, executable, s.inherited, chain, Counts(0, 0, {}));
      }
    } else {
      var b := stops[1];
      WayFails(w, executable, deeper, stops[1..]);
      hide Way;
      hide Broken;
      var d :| d in w.images[s.loader].dependencies &&
               ResolveLoad(w, d.name, s.loader, executable, b.inherited) == Ok(b.loader);
      FollowWalk(w, s.loader, executable, b.inherited, deeper, d, Counts(0, 0, {}));
      ThenFails(Some(Trace(0, 1, 0, {})), WalkImage(w, b.loader, executable, b.inherited, deeper));
      ImageSpoiled(w, executable, s, chain, b.inherited, d);
    }
  }

  /** A chain of loads from this image, in this context, leads to an image that is broken there. */
  ghost predicate LeadsToBroken(w: World, loader: Path, executable: Option<Path>) {
    exists stops :: stops != [] && Way(w, executable, [], stops) && stops[0] == Stop(loader, []) &&
                    Broken(w, executable, stops[|stops| - 1])
  }

  /**
   * The unlimited walk from an image fails exactly when some chain of different images, each loading the next, leads
   * from it to one whose run paths do not resolve there, or that has a load which does not.
   */
  lemma {:induction false} FailsExactly(w: World, loader: Path, executable: Option<Path>)
    requires loader in w.images
    ensures WalkImage(w, loader, executable, [], []) == None <==> LeadsToBroken(w, loader, executable)
  {
    hide WalkImage;
    hide Way;
    hide Broken;
    if WalkImage(w, loader, executable, [], []) == None {
      var stops := ImageFails(w, loader, executable, [], []);
    }
    if LeadsToBroken(w, loader, executable) {
      var stops :| stops != [] && Way(w, executable, [], stops) && stops[0] == Stop(loader, []) &&
                   Broken(w, executable, stops[|stops| - 1]);
      WayFails(w, executable, [], stops);
    }
  }
}
