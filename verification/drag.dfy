/**
 Dragging: everything that a frame-local object reaches and that would die too early is moved into a
 destination region (vbci/drag.cc).

 The traversal is proved against the set of reference sites it has processed.  `Entry` is the
 reference it starts from.
 */
module Drags {
  import opened Collections
  import opened Regions
  import opened Graphs
  import opened Heaps

  /** The traversal's view of a site: `Entry` refers to the root. */
  function Aim(v: View, root: HeaderId, s: Site): Ref {
    if s == Entry then To(root) else if IsSite(v, s) then At(v, s) else Null
  }

  predicate AimsInto(v: View, root: HeaderId, s: Site, x: RegionId) {
    Aim(v, root, s).To? && LivesIn(v, Aim(v, root, s).target, x)
  }

  /** Lives in a frame-local region that the destination `r` outlives. */
  predicate Draggable(v: View, f: Forest, r: RegionId, t: HeaderId)
    requires r in f
  {
    && FrameLocal(v, f, t)
    && v.headers[t].loc.region != r
    && (f[r].IsFrameLocal() ==> f[r].frameDepth < f[v.headers[t].loc.region].frameDepth)
  }

  /** A field of a header in `d` that refers to something in a region. */
  predicate Traced(v: View, d: set<HeaderId>, s: Site) {
    && s.Field? && s.holder in d
    && IsSite(v, s) && At(v, s).To?
    && At(v, s).target in v.headers && v.headers[At(v, s).target].loc.InRegion?
  }

  /** The processed sites that refer to header `t`. */
  ghost function Into(v: View, root: HeaderId, done: set<Site>, t: HeaderId): set<Site> {
    set s | s in done && Aim(v, root, s) == To(t)
  }

  /** The processed sites that refer to something in region `x`. */
  ghost function IntoRegion(v: View, root: HeaderId, done: set<Site>, x: RegionId): set<Site> {
    set s | s in done && AimsInto(v, root, s, x)
  }

  /** The fields of dragged headers that refer into region `x`. */
  ghost function DraggedInto(v: View, d: set<HeaderId>, x: RegionId): set<Site> {
    set s | s in Sites(v) && s.Field? && s.holder in d && PointsInto(v, s, x)
  }

  /** `d` holds the root and everything draggable that its own fields reach. */
  ghost predicate Enough(v: View, f: Forest, r: RegionId, root: HeaderId, d: set<HeaderId>)
    requires r in f
  {
    && (root in v.headers && Draggable(v, f, r, root) ==> root in d)
    && forall s | Traced(v, d, s) && Draggable(v, f, r, At(v, s).target) :: At(v, s).target in d
  }

  /** The traversal has visited no more than it must. */
  ghost predicate Least(v: View, f: Forest, r: RegionId, root: HeaderId, d: set<HeaderId>)
    requires r in f
  {
    forall e | Enough(v, f, r, root, e) :: d <= e
  }

  /** The headers that a drag of `root` into `r` has to move. */
  ghost function DragSet(v: View, f: Forest, r: RegionId, root: HeaderId): set<HeaderId>
    requires r in f
  {
    set t | t in v.headers && forall e: set<HeaderId> | Enough(v, f, r, root, e) :: t in e
  }

  lemma LeastIsDragSet(v: View, f: Forest, r: RegionId, root: HeaderId, d: set<HeaderId>)
    requires r in f && Enough(v, f, r, root, d) && Least(v, f, r, root, d) && d <= v.headers.Keys
    ensures d == DragSet(v, f, r, root)
  {
    forall t ensures t in d <==> t in DragSet(v, f, r, root) {
      if t in d {
        forall e: set<HeaderId> | Enough(v, f, r, root, e) ensures t in e {
          assert d <= e;
        }
      }
    }
  }

  /** The exchanged region, if it is a heap region and a dragged field leads there. */
  ghost function TakenOver(v: View, f: Forest, d: set<HeaderId>, exchanged: Option<RegionId>): Option<RegionId> {
    if exchanged.Some? && exchanged.value in f && !f[exchanged.value].IsFrameLocal() && DraggedInto(v, d, exchanged.value) != {}
    then exchanged
    else None
  }

  /** A header that the drag would move refers to something in region `x`. */
  ghost predicate Touches(v: View, f: Forest, r: RegionId, root: HeaderId, x: RegionId)
    requires r in f
  {
    exists s: Site :: s.Field? && PointsInto(v, s, x) && Draggable(v, f, r, s.holder) && Reaches(v, root, s.holder)
  }

  /** Destination `r` can own region `x` through the references that `d` holds: it does already, or there is just one. */
  ghost predicate FitsAt(v: View, f: Forest, depth: map<RegionId, nat>, r: RegionId, d: set<HeaderId>, x: RegionId)
    requires Tree(f, depth) && r in f && x in f
  {
    f[x].owner == Parent(r) || (f[x].owner.Unowned? && !Above(f, depth, x, r) && |DraggedInto(v, d, x)| == 1)
  }

  ghost predicate Fits(v: View, f: Forest, depth: map<RegionId, nat>, r: RegionId, d: set<HeaderId>)
    requires Tree(f, depth) && r in f
  {
    forall x | x in f && !f[x].IsFrameLocal() && x != r && DraggedInto(v, d, x) != {} :: FitsAt(v, f, depth, r, d, x)
  }

  /** There is a set of headers to drag, and the destination can own whatever it refers to. */
  ghost predicate CanDrag(v: View, f: Forest, depth: map<RegionId, nat>, r: RegionId, root: HeaderId)
    requires Tree(f, depth) && r in f
  {
    && root in v.headers && !v.headers[root].loc.Stack?
    && exists d :: Enough(v, f, r, root, d) && (f[r].IsFrameLocal() || Fits(v, f, depth, r, d))
  }

  lemma IntoGrows(v: View, root: HeaderId, done: set<Site>, s: Site, t: HeaderId)
    requires s !in done
    ensures |Into(v, root, done + {s}, t)| == |Into(v, root, done, t)| + if Aim(v, root, s) == To(t) then 1 else 0
  {
    SizeWithout(Into(v, root, done + {s}, t), s);
    assert Into(v, root, done + {s}, t) - {s} == Into(v, root, done, t);
  }

  lemma IntoRegionGrows(v: View, root: HeaderId, done: set<Site>, s: Site, x: RegionId)
    requires s !in done
    ensures |IntoRegion(v, root, done + {s}, x)| ==
      |IntoRegion(v, root, done, x)| + if AimsInto(v, root, s, x) then 1 else 0
  {
    SizeWithout(IntoRegion(v, root, done + {s}, x), s);
    assert IntoRegion(v, root, done + {s}, x) - {s} == IntoRegion(v, root, done, x);
  }

  // ---------------------------------------------------------------- reachability

  /** `path` leads from `a` to `b` along fields. */
  ghost predicate IsPath(v: View, a: HeaderId, path: seq<Site>, b: HeaderId)
    decreases |path|
  {
    if path == [] then a == b
    else
      var s := path[|path| - 1];
      s.Field? && PointsTo(v, s, b) && IsPath(v, a, path[..|path| - 1], s.holder)
  }

  ghost predicate Reaches(v: View, a: HeaderId, b: HeaderId) {
    exists path :: IsPath(v, a, path, b)
  }

  lemma ReachesStep(v: View, a: HeaderId, s: Site, b: HeaderId)
    requires s.Field? && PointsTo(v, s, b) && Reaches(v, a, s.holder)
    ensures Reaches(v, a, b)
  {
    var path :| IsPath(v, a, path, s.holder);
    assert (path + [s])[..|path|] == path;
    assert IsPath(v, a, path + [s], b);
  }

  lemma ReachesSelf(v: View, a: HeaderId)
    ensures Reaches(v, a, a)
  {
    assert IsPath(v, a, [], a);
  }

  // ---------------------------------------------------------------- invariants of the traversal

  /** The worklist `wl` holds the targets of `sites`; with `done` these are all sites found so far. */
  ghost predicate Frontier(
    v: View, root: HeaderId, d: set<HeaderId>, wl: seq<HeaderId>, sites: seq<Site>, done: set<Site>)
  {
    && |wl| == |sites|
    && (forall i | 0 <= i < |wl| :: Aim(v, root, sites[i]) == To(wl[i]) && wl[i] in v.headers)
    && (forall i, j | 0 <= i < j < |sites| :: sites[i] != sites[j])
    && (forall i | 0 <= i < |sites| :: sites[i] !in done)
    && (forall s :: s in done || s in sites <==> s == Entry || Traced(v, d, s))
  }

  /** `rcs` counts the processed references to every dragged header, and nothing draggable was passed over. */
  ghost predicate Tallied(
    v: View, f: Forest, r: RegionId, root: HeaderId, rcs: map<HeaderId, int>, done: set<Site>)
    requires r in f
  {
    && (forall t | t in rcs :: Draggable(v, f, r, t) && rcs[t] == |Into(v, root, done, t)|)
    && (forall s | s in done && Aim(v, root, s).To? :: Draggable(v, f, r, Aim(v, root, s).target) ==> Aim(v, root, s).target in rcs)
  }

  /** For a heap destination: how the processed sites meet other heap regions. */
  ghost predicate Tolled(
    v: View, f: Forest, r: RegionId, root: HeaderId, done: set<Site>, decs: int, subs: map<RegionId, HeaderId>)
    requires r in f
  {
    && decs == |IntoRegion(v, root, done, r)|
    && (forall x | x in subs ::
          && x in f && !f[x].IsFrameLocal() && x != r
          && |IntoRegion(v, root, done, x)| == 1
          && exists s | s in done :: AimsInto(v, root, s, x) && Aim(v, root, s) == To(subs[x]))
    && (forall s, x | s in done && x in f && !f[x].IsFrameLocal() && x != r && AimsInto(v, root, s, x) ::
          x in subs || f[x].owner == Parent(r))
  }

  ghost predicate Adoptable(f: Forest, depth: map<RegionId, nat>, r: RegionId, subs: map<RegionId, HeaderId>)
    requires Tree(f, depth) && r in f
  {
    forall x | x in subs :: x in f && x != r && !f[x].IsFrameLocal() && f[x].owner.Unowned? && !Above(f, depth, x, r)
  }

  // ---------------------------------------------------------------- steps

  lemma FrontierPop(v: View, root: HeaderId, d: set<HeaderId>, wl: seq<HeaderId>, sites: seq<Site>, done: set<Site>)
    requires Frontier(v, root, d, wl, sites, done) && wl != []
    ensures var n := |wl| - 1;
      && sites[n] !in done
      && Frontier(v, root, d, wl[..n], sites[..n], done + {sites[n]})
  {
    var n := |wl| - 1;
    forall s ensures s in done + {sites[n]} || s in sites[..n] <==> s == Entry || Traced(v, d, s) {
      assert s in sites <==> s in sites[..n] || s == sites[n] by {
        assert sites == sites[..n] + [sites[n]];
      }
    }
  }

  /** A new header joins: its traced fields join the worklist. */
  lemma FrontierPush(
    v: View, root: HeaderId, d: set<HeaderId>, wl: seq<HeaderId>, sites: seq<Site>, done: set<Site>,
    x: HeaderId, kids: seq<HeaderId>, links: seq<Site>)
    requires Frontier(v, root, d, wl, sites, done) && x !in d
    requires |kids| == |links|
    requires forall i | 0 <= i < |kids| :: Aim(v, root, links[i]) == To(kids[i]) && kids[i] in v.headers
    requires forall i, j | 0 <= i < j < |links| :: links[i] != links[j]
    requires forall s :: s in links <==> Traced(v, {x}, s)
    ensures Frontier(v, root, d + {x}, wl + kids, sites + links, done)
  {
    forall i | 0 <= i < |links| ensures links[i] !in done && links[i] !in sites {
      assert links[i] in links;
      assert Traced(v, {x}, links[i]);
    }
    forall s ensures s in done || s in sites + links <==> s == Entry || Traced(v, d + {x}, s) {
    }
    forall i, j | 0 <= i < j < |sites + links| ensures (sites + links)[i] != (sites + links)[j] {
      if i < |sites| <= j {
        assert sites[i] in sites;
      }
    }
  }

  lemma TalliedStep(
    v: View, f: Forest, r: RegionId, root: HeaderId, rcs: map<HeaderId, int>, done: set<Site>, s: Site, t: HeaderId)
    requires r in f && Tallied(v, f, r, root, rcs, done) && s !in done && Aim(v, root, s) == To(t)
    ensures t in rcs ==> Tallied(v, f, r, root, rcs[t := rcs[t] + 1], done + {s})
    ensures t !in rcs && !Draggable(v, f, r, t) ==> Tallied(v, f, r, root, rcs, done + {s})
    ensures t !in rcs && Draggable(v, f, r, t) ==> Tallied(v, f, r, root, rcs[t := 1], done + {s})
  {
    forall u ensures |Into(v, root, done + {s}, u)| == |Into(v, root, done, u)| + if u == t then 1 else 0 {
      IntoGrows(v, root, done, s, u);
    }
    if t !in rcs && Draggable(v, f, r, t) {
      assert Into(v, root, done, t) == {};
    }
  }

  lemma TolledElsewhere(
    v: View, f: Forest, r: RegionId, root: HeaderId, done: set<Site>, decs: int, subs: map<RegionId, HeaderId>,
    s: Site, t: HeaderId)
    requires r in f && Tolled(v, f, r, root, done, decs, subs) && s !in done && Aim(v, root, s) == To(t)
    requires t in v.headers && (v.headers[t].loc.InRegion? ==>
        var x := v.headers[t].loc.region; x != r && (x in f && !f[x].IsFrameLocal() ==> x !in subs && f[x].owner == Parent(r)))
    requires v.headers[t].loc.InRegion? ==> v.headers[t].loc.region in f
    requires forall x | x in subs :: x in f && !f[x].IsFrameLocal()
    ensures Tolled(v, f, r, root, done + {s}, decs, subs)
  {
    IntoRegionGrows(v, root, done, s, r);
    forall x | x in subs ensures |IntoRegion(v, root, done + {s}, x)| == 1 {
      IntoRegionGrows(v, root, done, s, x);
    }
  }

  lemma TolledHome(
    v: View, f: Forest, r: RegionId, root: HeaderId, done: set<Site>, decs: int, subs: map<RegionId, HeaderId>,
    s: Site, t: HeaderId)
    requires r in f && Tolled(v, f, r, root, done, decs, subs) && s !in done && Aim(v, root, s) == To(t)
    requires LivesIn(v, t, r)
    ensures Tolled(v, f, r, root, done + {s}, decs + 1, subs)
  {
    IntoRegionGrows(v, root, done, s, r);
    forall x | x in subs ensures |IntoRegion(v, root, done + {s}, x)| == 1 {
      IntoRegionGrows(v, root, done, s, x);
    }
  }

  lemma TolledNew(
    v: View, f: Forest, r: RegionId, root: HeaderId, done: set<Site>, decs: int, subs: map<RegionId, HeaderId>,
    s: Site, t: HeaderId, x: RegionId)
    requires r in f && Tolled(v, f, r, root, done, decs, subs) && s !in done && Aim(v, root, s) == To(t)
    requires LivesIn(v, t, x) && x in f && !f[x].IsFrameLocal() && x != r && x !in subs && f[x].owner.Unowned?
    ensures Tolled(v, f, r, root, done + {s}, decs, subs[x := t])
  {
    IntoRegionGrows(v, root, done, s, r);
    forall y | y in subs ensures |IntoRegion(v, root, done + {s}, y)| == 1 {
      IntoRegionGrows(v, root, done, s, y);
    }
    assert IntoRegion(v, root, done, x) == {};
    IntoRegionGrows(v, root, done, s, x);
    assert s in done + {s} && AimsInto(v, root, s, x);
  }

  // ---------------------------------------------------------------- the order of the traversal

  /** The region-located targets of fields, in field order. */
  ghost function Targets(v: View, fields: seq<Ref>): seq<HeaderId> {
    if fields == [] then []
    else
      var n := |fields| - 1;
      if fields[n].To? && fields[n].target in v.headers && v.headers[fields[n].target].loc.InRegion?
      then Targets(v, fields[..n]) + [fields[n].target]
      else Targets(v, fields[..n])
  }

  /** The worklist once `t` has been taken off it: a header dragged for the first time adds its targets. */
  ghost function After(v: View, f: Forest, r: RegionId, wl: seq<HeaderId>, met: set<HeaderId>): seq<HeaderId>
    requires r in f && wl != []
  {
    var n, t := |wl| - 1, wl[|wl| - 1];
    if Pulls(v, f, r, t, met) then wl[..n] + Targets(v, v.headers[t].fields) else wl[..n]
  }

  predicate Pulls(v: View, f: Forest, r: RegionId, t: HeaderId, met: set<HeaderId>)
    requires r in f
  {
    t !in met && Draggable(v, f, r, t)
  }

  ghost function Met(v: View, f: Forest, r: RegionId, t: HeaderId, met: set<HeaderId>): set<HeaderId>
    requires r in f
  {
    if Pulls(v, f, r, t, met) then met + {t} else met
  }

  lemma RouteShrinks(v: View, f: Forest, r: RegionId, wl: seq<HeaderId>, met: set<HeaderId>)
    requires r in f && wl != []
    ensures var t := wl[|wl| - 1];
      || v.headers.Keys - Met(v, f, r, t, met) < v.headers.Keys - met
      || (Met(v, f, r, t, met) == met && |After(v, f, r, wl, met)| < |wl|)
  {
    var t := wl[|wl| - 1];
    if Pulls(v, f, r, t, met) {
      assert t in v.headers.Keys - met && t !in v.headers.Keys - (met + {t});
    }
  }

  /** What is taken off the worklist, in this order, by a traversal that nothing stops. */
  ghost function Route(v: View, f: Forest, r: RegionId, wl: seq<HeaderId>, met: set<HeaderId>): seq<HeaderId>
    requires r in f
    decreases v.headers.Keys - met, |wl|
  {
    if wl == [] then []
    else
      var t := wl[|wl| - 1];
      RouteShrinks(v, f, r, wl, met);
      [t] + Route(v, f, r, After(v, f, r, wl, met), Met(v, f, r, t, met))
  }

  /** A heap region that a heap destination would have to adopt. */
  predicate Foreign(f: Forest, r: RegionId, x: RegionId)
    requires r in f
  {
    x in f && !f[x].IsFrameLocal() && !f[r].IsFrameLocal() && x != r && f[x].owner != Parent(r)
  }

  ghost predicate Visited(v: View, past: seq<HeaderId>, x: RegionId) {
    exists u | u in past :: LivesIn(v, u, x)
  }

  lemma VisitedMore(v: View, past: seq<HeaderId>, t: HeaderId, x: RegionId)
    ensures Visited(v, past + [t], x) <==> Visited(v, past, x) || LivesIn(v, t, x)
  {
    assert forall u :: u in past + [t] <==> u in past || u == t;
  }

  /** The traversal ends at `t`: a stack value, or a region that cannot be adopted or has been met before. */
  ghost predicate StopsAt(
    v: View, f: Forest, depth: map<RegionId, nat>, r: RegionId, past: seq<HeaderId>, t: HeaderId)
    requires Tree(f, depth) && r in f
  {
    t in v.headers && match v.headers[t].loc
    case Stack(_) => true
    case InRegion(x) =>
      Foreign(f, r, x) && (f[x].HasOwner() || Above(f, depth, x, r) || Visited(v, past, x))
    case _ => false
  }

  ghost predicate Unstopped(v: View, f: Forest, depth: map<RegionId, nat>, r: RegionId, route: seq<HeaderId>, n: int)
    requires Tree(f, depth) && r in f
  {
    n <= |route| && forall i | 0 <= i < n :: !StopsAt(v, f, depth, r, route[..i], route[i])
  }

  /** Something in region `x` is met before anything ends the traversal. */
  ghost predicate MetInTime(v: View, f: Forest, depth: map<RegionId, nat>, r: RegionId, root: HeaderId, x: RegionId)
    requires Tree(f, depth) && r in f
  {
    var route := Route(v, f, r, [root], {});
    x in f && !f[x].IsFrameLocal()
    && exists i :: 0 <= i < |route| && LivesIn(v, route[i], x) && Unstopped(v, f, depth, r, route, i)
  }

  /** The traversal is at entry `|past|` of the route, has not been stopped, and has taken over what it met. */
  ghost predicate OnRoute(
    v: View, f: Forest, depth: map<RegionId, nat>, r: RegionId, root: HeaderId, past: seq<HeaderId>, wl: seq<HeaderId>,
    met: set<HeaderId>, claimed: set<RegionId>, exchanged: Option<RegionId>, left: Option<RegionId>)
    requires Tree(f, depth) && r in f
  {
    && Route(v, f, r, [root], {}) == past + Route(v, f, r, wl, met)
    && Unstopped(v, f, depth, r, Route(v, f, r, [root], {}), |past|)
    && (forall x :: x in claimed <==> Foreign(f, r, x) && Visited(v, past, x))
    && (exchanged.Some? && exchanged.value in f && !f[exchanged.value].IsFrameLocal() ==>
          (left != exchanged <==> Visited(v, past, exchanged.value)))
  }

  /** The same, given the regions claimed so far. */
  ghost predicate Halts(
    v: View, f: Forest, depth: map<RegionId, nat>, r: RegionId, claimed: set<RegionId>, t: HeaderId)
    requires Tree(f, depth) && r in f
  {
    t in v.headers && match v.headers[t].loc
    case Stack(_) => true
    case InRegion(x) => Foreign(f, r, x) && (f[x].HasOwner() || Above(f, depth, x, r) || x in claimed)
    case _ => false
  }

  ghost function Claims(v: View, f: Forest, r: RegionId, claimed: set<RegionId>, t: HeaderId): set<RegionId>
    requires r in f
  {
    if t in v.headers && v.headers[t].loc.InRegion? && Foreign(f, r, v.headers[t].loc.region)
    then claimed + {v.headers[t].loc.region}
    else claimed
  }

  /** One entry has been taken off the worklist and judged. */
  ghost predicate Stepped(
    v: View, f: Forest, depth: map<RegionId, nat>, r: RegionId, wl: seq<HeaderId>, met: set<HeaderId>,
    claimed: set<RegionId>, exchanged: Option<RegionId>,
    ok: bool, wl': seq<HeaderId>, met': set<HeaderId>, claimed': set<RegionId>, left: Option<RegionId>)
    requires Tree(f, depth) && r in f && wl != []
  {
    var t := wl[|wl| - 1];
    && (ok <==> !Halts(v, f, depth, r, claimed, t))
    && (!ok ==> left == exchanged)
    && (ok ==> wl' == After(v, f, r, wl, met) && met' == Met(v, f, r, t, met) && claimed' == Claims(v, f, r, claimed, t))
    && (ok && exchanged.Some? && exchanged.value in f && !f[exchanged.value].IsFrameLocal() ==>
          (left != exchanged <==> LivesIn(v, t, exchanged.value)))
  }

  /** Either a frame destination, or the parent of the exchanged region. */
  predicate Parental(f: Forest, r: RegionId, exchanged: Option<RegionId>)
    requires r in f
  {
    exchanged.Some? && exchanged.value in f && !f[exchanged.value].IsFrameLocal() ==>
      f[r].IsFrameLocal() || f[exchanged.value].owner == Parent(r)
  }

  lemma HaltsIsStops(
    v: View, f: Forest, depth: map<RegionId, nat>, r: RegionId, root: HeaderId, past: seq<HeaderId>, wl: seq<HeaderId>,
    met: set<HeaderId>, claimed: set<RegionId>, exchanged: Option<RegionId>, left: Option<RegionId>)
    requires Tree(f, depth) && r in f && OnRoute(v, f, depth, r, root, past, wl, met, claimed, exchanged, left) && wl != []
    ensures Halts(v, f, depth, r, claimed, wl[|wl| - 1]) <==> StopsAt(v, f, depth, r, past, wl[|wl| - 1])
    ensures var route := Route(v, f, r, [root], {});
      |past| < |route| && route[..|past|] == past && route[|past|] == wl[|wl| - 1]
  {
  }

  lemma RouteStarts(
    v: View, f: Forest, depth: map<RegionId, nat>, r: RegionId, root: HeaderId, exchanged: Option<RegionId>)
    requires Tree(f, depth) && r in f
    ensures OnRoute(v, f, depth, r, root, [], [root], {}, {}, exchanged, exchanged) && Least(v, f, r, root, {})
  {
    hide Route;
  }

  lemma RouteGoesOn(
    v: View, f: Forest, depth: map<RegionId, nat>, r: RegionId, root: HeaderId, past: seq<HeaderId>, wl: seq<HeaderId>,
    met: set<HeaderId>, claimed: set<RegionId>, exchanged: Option<RegionId>, now: Option<RegionId>,
    wl': seq<HeaderId>, met': set<HeaderId>, claimed': set<RegionId>, left: Option<RegionId>)
    requires Tree(f, depth) && r in f && OnRoute(v, f, depth, r, root, past, wl, met, claimed, exchanged, now) && wl != []
    requires Stepped(v, f, depth, r, wl, met, claimed, now, true, wl', met', claimed', left)
    requires now == exchanged || (now == None && left == None)
    ensures OnRoute(v, f, depth, r, root, past + [wl[|wl| - 1]], wl', met', claimed', exchanged, left)
  {
    var t, route := wl[|wl| - 1], Route(v, f, r, [root], {});
    HaltsIsStops(v, f, depth, r, root, past, wl, met, claimed, exchanged, now);
    assert Route(v, f, r, wl, met) == [t] + Route(v, f, r, wl', met');
    assert route == past + [t] + Route(v, f, r, wl', met');
    assert Unstopped(v, f, depth, r, route, |past| + 1) by {
      forall i | 0 <= i < |past| + 1 ensures !StopsAt(v, f, depth, r, route[..i], route[i]) {
        assert i < |past| || (i == |past| && route[..i] == past && route[i] == t);
      }
    }
    hide Route, StopsAt, Halts, Visited, Unstopped, After, Met;
    forall x ensures Visited(v, past + [t], x) <==> Visited(v, past, x) || LivesIn(v, t, x) {
      VisitedMore(v, past, t, x);
    }
  }

  lemma StepHalts(
    v: View, f: Forest, depth: map<RegionId, nat>, r: RegionId, wl: seq<HeaderId>, met: set<HeaderId>,
    claimed: set<RegionId>, exchanged: Option<RegionId>, wl': seq<HeaderId>, met': set<HeaderId>, claimed': set<RegionId>,
    left: Option<RegionId>)
    requires Tree(f, depth) && r in f && wl != []
    requires Stepped(v, f, depth, r, wl, met, claimed, exchanged, false, wl', met', claimed', left)
    ensures Halts(v, f, depth, r, claimed, wl[|wl| - 1]) && left == exchanged
  {
  }

  /** Where the traversal is stopped. */
  lemma RouteStops(
    v: View, f: Forest, depth: map<RegionId, nat>, r: RegionId, root: HeaderId, past: seq<HeaderId>, wl: seq<HeaderId>,
    met: set<HeaderId>, claimed: set<RegionId>, exchanged: Option<RegionId>, left: Option<RegionId>)
    requires Tree(f, depth) && r in f && OnRoute(v, f, depth, r, root, past, wl, met, claimed, exchanged, left) && wl != []
    requires Halts(v, f, depth, r, claimed, wl[|wl| - 1]) && Parental(f, r, exchanged)
    requires left != exchanged ==> exchanged.Some? && exchanged.value in f && !f[exchanged.value].IsFrameLocal()
    ensures var route := Route(v, f, r, [root], {}); !Unstopped(v, f, depth, r, route, |route|)
    ensures left != exchanged <==> exchanged.Some? && MetInTime(v, f, depth, r, root, exchanged.value)
  {
    var route := Route(v, f, r, [root], {});
    HaltsIsStops(v, f, depth, r, root, past, wl, met, claimed, exchanged, left);
    if exchanged.Some? && exchanged.value in f && !f[exchanged.value].IsFrameLocal() {
      var x := exchanged.value;
      assert !LivesIn(v, wl[|wl| - 1], x);
      hide Route, StopsAt, Halts;
      if u :| u in past && LivesIn(v, u, x) {
        var i :| 0 <= i < |past| && past[i] == u;
        assert route[i] == u && Unstopped(v, f, depth, r, route, i);
      }
      if i :| 0 <= i < |route| && LivesIn(v, route[i], x) && Unstopped(v, f, depth, r, route, i) {
        assert route[i] == past[i];
      }
    }
  }

  /** Where it ends. */
  lemma RouteEnds(
    v: View, f: Forest, depth: map<RegionId, nat>, r: RegionId, root: HeaderId, past: seq<HeaderId>,
    met: set<HeaderId>, claimed: set<RegionId>, exchanged: Option<RegionId>, left: Option<RegionId>)
    requires Tree(f, depth) && r in f && OnRoute(v, f, depth, r, root, past, [], met, claimed, exchanged, left)
    requires left != exchanged ==> exchanged.Some? && exchanged.value in f && !f[exchanged.value].IsFrameLocal()
    ensures var route := Route(v, f, r, [root], {}); Unstopped(v, f, depth, r, route, |route|)
    ensures left != exchanged <==> exchanged.Some? && MetInTime(v, f, depth, r, root, exchanged.value)
  {
    var route := Route(v, f, r, [root], {});
    assert route == past;
    hide Route, StopsAt;
    if exchanged.Some? && exchanged.value in f && !f[exchanged.value].IsFrameLocal() {
      if u :| u in past && LivesIn(v, u, exchanged.value) {
        var i :| 0 <= i < |past| && past[i] == u;
        assert Unstopped(v, f, depth, r, route, i);
      }
    }
  }

  // ---------------------------------------------------------------- the traversal

  lemma FewerLeft<T>(all: set<T>, a: set<T>, b: set<T>)
    requires a <= b <= all
    ensures all - b <= all - a && (a != b ==> all - b < all - a)
  {
    if a != b {
      assert !(b <= a);
      var x :| x in b && x !in a;
      assert x in all - a && x !in all - b;
    }
  }

  /** The region-located targets of the fields of `x`, in field order. */
  method TraceFields(v: View, x: HeaderId) returns (kids: seq<HeaderId>, ghost links: seq<Site>)
    requires x in v.headers
    requires forall s | IsSite(v, s) :: At(v, s).To? ==> At(v, s).target in v.headers
    ensures |kids| == |links|
    ensures forall i | 0 <= i < |kids| :: PointsTo(v, links[i], kids[i]) && kids[i] in v.headers
    ensures forall i, j | 0 <= i < j < |links| :: links[i] != links[j]
    ensures forall s :: s in links <==> Traced(v, {x}, s)
    ensures kids == Targets(v, v.headers[x].fields)
  {
    kids, links := [], [];
    var fields := v.headers[x].fields;
    for i := 0 to |fields|
      invariant |kids| == |links|
      invariant forall k | 0 <= k < |kids| ::
        PointsTo(v, links[k], kids[k]) && kids[k] in v.headers
      invariant forall k, l | 0 <= k < l < |links| :: links[k] != links[l]
      invariant forall s :: s in links <==> Traced(v, {x}, s) && s.index < i
      invariant kids == Targets(v, fields[..i])
    {
      assert IsSite(v, Field(x, i));
      assert fields[..i + 1][..i] == fields[..i];
      if fields[i].To? && v.headers[fields[i].target].loc.InRegion? {
        kids, links := kids + [fields[i].target], links + [Field(x, i)];
      }
    }
    assert fields[..|fields|] == fields;
  }

  /** The traversal under way. */
  ghost predicate Going(
    v: View, f: Forest, depth: map<RegionId, nat>, r: RegionId, root: HeaderId, rcs: map<HeaderId, int>,
    decs: int, subs: map<RegionId, HeaderId>, wl: seq<HeaderId>, sites: seq<Site>, done: set<Site>)
    requires Tree(f, depth) && r in f
  {
    && Frontier(v, root, rcs.Keys, wl, sites, done)
    && Tallied(v, f, r, root, rcs, done)
    && (forall t | t in rcs :: Reaches(v, root, t))
    && (if f[r].IsFrameLocal() then decs == 0 && subs == map[]
        else Tolled(v, f, r, root, done, decs, subs) && Adoptable(f, depth, r, subs))
  }

  /** What it leaves behind when it succeeds: every site found has been processed. */
  ghost predicate Complete(
    v: View, f: Forest, depth: map<RegionId, nat>, r: RegionId, root: HeaderId, rcs: map<HeaderId, int>,
    decs: int, subs: map<RegionId, HeaderId>, done: set<Site>)
    requires Tree(f, depth) && r in f
  {
    Going(v, f, depth, r, root, rcs, decs, subs, [], [], done)
  }

  lemma Starting(v: View, f: Forest, depth: map<RegionId, nat>, r: RegionId, root: HeaderId)
    requires Tree(f, depth) && r in f && root in v.headers
    ensures Going(v, f, depth, r, root, map[], 0, map[], [root], [Entry], {})
  {
    assert IntoRegion(v, root, {}, r) == {};
  }

  /** A header met before. */
  lemma Recounted(
    v: View, f: Forest, depth: map<RegionId, nat>, r: RegionId, root: HeaderId, rcs: map<HeaderId, int>,
    decs: int, subs: map<RegionId, HeaderId>, wl: seq<HeaderId>, sites: seq<Site>, done: set<Site>)
    requires Tree(f, depth) && r in f && Going(v, f, depth, r, root, rcs, decs, subs, wl, sites, done) && wl != []
    requires wl[|wl| - 1] in rcs
    ensures var n, t := |wl| - 1, wl[|wl| - 1];
      Going(v, f, depth, r, root, rcs[t := rcs[t] + 1], decs, subs, wl[..n], sites[..n], done + {sites[n]})
  {
    var n, t := |wl| - 1, wl[|wl| - 1];
    FrontierPop(v, root, rcs.Keys, wl, sites, done);
    assert rcs[t := rcs[t] + 1].Keys == rcs.Keys;
    TalliedStep(v, f, r, root, rcs, done, sites[n], t);
    if !f[r].IsFrameLocal() {
      assert Draggable(v, f, r, t);
      TolledElsewhere(v, f, r, root, done, decs, subs, sites[n], t);
    }
  }

  /** A header that stays where it is and needs no account. */
  lemma Passed(
    v: View, f: Forest, depth: map<RegionId, nat>, r: RegionId, root: HeaderId, rcs: map<HeaderId, int>,
    decs: int, subs: map<RegionId, HeaderId>, wl: seq<HeaderId>, sites: seq<Site>, done: set<Site>)
    requires Tree(f, depth) && r in f && Going(v, f, depth, r, root, rcs, decs, subs, wl, sites, done) && wl != []
    requires var t := wl[|wl| - 1]; t in v.headers && t !in rcs && !Draggable(v, f, r, t)
    requires var t := wl[|wl| - 1]; v.headers[t].loc.InRegion? ==> v.headers[t].loc.region in f
    requires var t := wl[|wl| - 1]; !f[r].IsFrameLocal() && v.headers[t].loc.InRegion? ==>
      var x := v.headers[t].loc.region;
      x != r && (!f[x].IsFrameLocal() ==> f[x].owner == Parent(r))
    ensures var n := |wl| - 1;
      Going(v, f, depth, r, root, rcs, decs, subs, wl[..n], sites[..n], done + {sites[n]})
  {
    var n, t := |wl| - 1, wl[|wl| - 1];
    FrontierPop(v, root, rcs.Keys, wl, sites, done);
    TalliedStep(v, f, r, root, rcs, done, sites[n], t);
    if !f[r].IsFrameLocal() {
      TolledElsewhere(v, f, r, root, done, decs, subs, sites[n], t);
    }
  }

  /** A header already in the destination. */
  lemma Arrived(
    v: View, f: Forest, depth: map<RegionId, nat>, r: RegionId, root: HeaderId, rcs: map<HeaderId, int>,
    decs: int, subs: map<RegionId, HeaderId>, wl: seq<HeaderId>, sites: seq<Site>, done: set<Site>)
    requires Tree(f, depth) && r in f && Going(v, f, depth, r, root, rcs, decs, subs, wl, sites, done) && wl != []
    requires LivesIn(v, wl[|wl| - 1], r) && wl[|wl| - 1] !in rcs
    ensures var n := |wl| - 1;
      var decs' := if f[r].IsFrameLocal() then decs else decs + 1;
      Going(v, f, depth, r, root, rcs, decs', subs, wl[..n], sites[..n], done + {sites[n]})
  {
    var n, t := |wl| - 1, wl[|wl| - 1];
    FrontierPop(v, root, rcs.Keys, wl, sites, done);
    TalliedStep(v, f, r, root, rcs, done, sites[n], t);
    if !f[r].IsFrameLocal() {
      TolledHome(v, f, r, root, done, decs, subs, sites[n], t);
    }
  }

  /** The only reference so far into an unowned heap region, which will become a child. */
  lemma Claimed(
    v: View, f: Forest, depth: map<RegionId, nat>, r: RegionId, root: HeaderId, rcs: map<HeaderId, int>,
    decs: int, subs: map<RegionId, HeaderId>, wl: seq<HeaderId>, sites: seq<Site>, done: set<Site>, x: RegionId)
    requires Tree(f, depth) && r in f && Going(v, f, depth, r, root, rcs, decs, subs, wl, sites, done) && wl != []
    requires LivesIn(v, wl[|wl| - 1], x) && wl[|wl| - 1] !in rcs && !f[r].IsFrameLocal()
    requires x in f && !f[x].IsFrameLocal() && x != r && x !in subs && f[x].owner.Unowned? && !Above(f, depth, x, r)
    ensures var n, t := |wl| - 1, wl[|wl| - 1];
      Going(v, f, depth, r, root, rcs, decs, subs[x := t], wl[..n], sites[..n], done + {sites[n]})
  {
    var n, t := |wl| - 1, wl[|wl| - 1];
    FrontierPop(v, root, rcs.Keys, wl, sites, done);
    TalliedStep(v, f, r, root, rcs, done, sites[n], t);
    TolledNew(v, f, r, root, done, decs, subs, sites[n], t, x);
  }

  /** A header to be dragged; its traced fields join the worklist. */
  lemma Dragged(
    v: View, f: Forest, depth: map<RegionId, nat>, r: RegionId, root: HeaderId, rcs: map<HeaderId, int>,
    decs: int, subs: map<RegionId, HeaderId>, wl: seq<HeaderId>, sites: seq<Site>, done: set<Site>,
    kids: seq<HeaderId>, links: seq<Site>)
    requires Tree(f, depth) && r in f && Going(v, f, depth, r, root, rcs, decs, subs, wl, sites, done) && wl != []
    requires wl[|wl| - 1] !in rcs && Draggable(v, f, r, wl[|wl| - 1])
    requires |kids| == |links|
    requires forall i | 0 <= i < |kids| :: PointsTo(v, links[i], kids[i]) && kids[i] in v.headers
    requires forall i, j | 0 <= i < j < |links| :: links[i] != links[j]
    requires forall s :: s in links <==> Traced(v, {wl[|wl| - 1]}, s)
    ensures var n, t := |wl| - 1, wl[|wl| - 1];
      Going(v, f, depth, r, root, rcs[t := 1], decs, subs, wl[..n] + kids, sites[..n] + links, done + {sites[n]})
  {
    var n, t := |wl| - 1, wl[|wl| - 1];
    FrontierPop(v, root, rcs.Keys, wl, sites, done);
    TalliedStep(v, f, r, root, rcs, done, sites[n], t);
    if !f[r].IsFrameLocal() {
      TolledElsewhere(v, f, r, root, done, decs, subs, sites[n], t);
    }
    assert sites[n] in sites;
    if sites[n] == Entry {
      ReachesSelf(v, root);
    } else {
      ReachesStep(v, root, sites[n], t);
    }
    FrontierPush(v, root, rcs.Keys, wl[..n], sites[..n], done + {sites[n]}, t, kids, links);
    assert rcs[t := 1].Keys == rcs.Keys + {t};
  }

  /** Retracting one reference from a child of a referenced region frees nothing. */
  lemma ChildSurvives(f: Forest, g: Forest, direct: Counts, depth: map<RegionId, nat>, q: RegionId, r: RegionId, alive: bool)
    requires Tree(f, depth) && Tree(g, depth) && q in f && r in f && f[q].owner == Parent(r) && !f[r].IsFrameLocal()
    requires Retracted(f, g, depth, q, alive)
    requires Balanced(g, direct) && NonNegative(direct) && direct[r] >= 1
    ensures alive && SameButCounts(f, g)
  {
    assert BalancedAt(g, direct, r);
    ActiveRoot(g, direct, depth, r);
    assert TreeAt(g, depth, q);
  }

  lemma AboveKept(f: Forest, g: Forest, depth: map<RegionId, nat>, a: RegionId, r: RegionId)
    requires Tree(f, depth) && Tree(g, depth) && r in f && SameOwnership(f, g)
    ensures Above(f, depth, a, r) == Above(g, depth, a, r)
  {
    AboveWithin(f, depth, a, r);
    AboveWithin(g, depth, a, r);
    OwnershipDecides(f, g, depth, r, a);
  }

  /** A processed field of a dragged header is a reference from the stack side. */
  lemma DraggedReports(
    v: View, f: Forest, direct: Counts, r: RegionId, root: HeaderId, rcs: map<HeaderId, int>, s: Site, x: RegionId)
    requires r in f && Accounted(v, f, direct) && x in f && !f[x].IsFrameLocal()
    requires forall t | t in rcs :: Draggable(v, f, r, t)
    requires Traced(v, rcs.Keys, s) && AimsInto(v, root, s, x)
    ensures direct[x] >= 1
  {
    assert s in StackRefs(v, f, x);
    assert AccountedAt(v, f, direct, x);
  }

  /** A field that no set can do without refers to a region that cannot be owned. */
  lemma Stopped(
    v: View, f: Forest, depth: map<RegionId, nat>, r: RegionId, root: HeaderId, d: set<HeaderId>, s: Site, x: RegionId)
    requires Tree(f, depth) && r in f && !f[r].IsFrameLocal() && Least(v, f, r, root, d)
    requires Traced(v, d, s) && AimsInto(v, root, s, x) && x in f && !f[x].IsFrameLocal() && x != r
    requires f[x].owner != Parent(r)
    requires f[x].HasOwner() || Above(f, depth, x, r) || exists s' :: s' != s && Traced(v, d, s') && AimsInto(v, root, s', x)
    ensures !CanDrag(v, f, depth, r, root)
  {
    forall e | Enough(v, f, r, root, e) ensures !Fits(v, f, depth, r, e) {
      assert s in DraggedInto(v, e, x);
      if !f[x].HasOwner() && !Above(f, depth, x, r) {
        var s' :| s' != s && Traced(v, d, s') && AimsInto(v, root, s', x);
        assert s' in DraggedInto(v, e, x) - {s};
        SizeWithout(DraggedInto(v, e, x), s);
      }
      assert !FitsAt(v, f, depth, r, e, x);
    }
  }

  /** An owned or an ancestor region, or a second reference into a region claimed already. */
  lemma Refused(
    v: View, f: Forest, depth: map<RegionId, nat>, r: RegionId, root: HeaderId, rcs: map<HeaderId, int>,
    decs: int, subs: map<RegionId, HeaderId>, wl: seq<HeaderId>, sites: seq<Site>, done: set<Site>, x: RegionId)
    requires Tree(f, depth) && r in f && Going(v, f, depth, r, root, rcs, decs, subs, wl, sites, done) && wl != []
    requires !f[r].IsFrameLocal() && Least(v, f, r, root, rcs.Keys) && !InHeapRegion(v, f, root)
    requires LivesIn(v, wl[|wl| - 1], x) && Traced(v, rcs.Keys, sites[|wl| - 1])
    requires x in f && !f[x].IsFrameLocal() && x != r && f[x].owner != Parent(r)
    requires f[x].HasOwner() || Above(f, depth, x, r) || x in subs
    ensures !CanDrag(v, f, depth, r, root)
  {
    var s := sites[|wl| - 1];
    if x in subs {
      var s' :| s' in done && AimsInto(v, root, s', x) && Aim(v, root, s') == To(subs[x]);
      assert s' == Entry || Traced(v, rcs.Keys, s');
    }
    Stopped(v, f, depth, r, root, rcs.Keys, s, x);
  }

  /** A heap destination cannot adopt an owned region, one above itself, or one it has claimed already. */
  method Refuses(h: Heap, r: RegionId, hr: RegionId, subs: map<RegionId, HeaderId>, ghost f: Forest) returns (no: bool)
    requires h.Counted() && SameButCounts(f, h.regions) && Tree(f, h.depth) && r in f && hr in f
    ensures no <==> f[hr].HasOwner() || Above(f, h.depth, hr, r) || hr in subs
  {
    if h.regions[hr].HasOwner() {
      return true;
    }
    no := h.IsAncestorOf(hr, r);
    AboveKept(f, h.regions, h.depth, hr, r);
    if no {
      return;
    }
    no := hr in subs;
  }

  /** A header that the traversal takes is one that every sufficient set holds. */
  lemma LeastGrows(v: View, f: Forest, r: RegionId, root: HeaderId, d: set<HeaderId>, s: Site, t: HeaderId)
    requires r in f && Least(v, f, r, root, d) && t in v.headers && Draggable(v, f, r, t)
    requires Aim(v, root, s) == To(t) && (s == Entry || Traced(v, d, s))
    ensures Least(v, f, r, root, d + {t})
  {
    forall e | Enough(v, f, r, root, e) ensures d + {t} <= e {
      assert s != Entry ==> Traced(v, e, s);
    }
  }

  /** A stack-side reference into `x` that no drag into `r` moves. */
  ghost predicate Spare(v: View, f: Forest, r: RegionId, x: RegionId, slot: Site)
    requires r in f
  {
    slot in StackRefs(v, f, x) && (slot.Field? ==> !Draggable(v, f, r, slot.holder))
  }

  /**
   What is known of the region whose reference is being exchanged out: a heap destination is its parent and is
   referenced itself; on the frame side the overwritten slot is one reference more than the dragged fields.
   */
  ghost predicate Exchangeable(v: View, f: Forest, direct: Counts, r: RegionId, exchanged: Option<RegionId>)
    requires r in f && direct.Keys == f.Keys
  {
    exchanged.Some? ==>
      var x := exchanged.value;
      && x in f
      && (!f[x].IsFrameLocal() ==>
            if f[r].IsFrameLocal() then exists slot :: Spare(v, f, r, x, slot)
            else direct[r] >= 1 && f[x].owner == Parent(r))
  }

  /** A dragged field and the overwritten slot are two references. */
  lemma TwoReports(v: View, f: Forest, direct: Counts, r: RegionId, root: HeaderId, rcs: map<HeaderId, int>, s: Site, x: RegionId)
    requires r in f && f[r].IsFrameLocal() && x in f && !f[x].IsFrameLocal() && Accounted(v, f, direct)
    requires Exchangeable(v, f, direct, r, Some(x)) && (forall t | t in rcs :: Draggable(v, f, r, t))
    requires Traced(v, rcs.Keys, s) && AimsInto(v, root, s, x)
    ensures x in direct && direct[x] >= 2
  {
    var slot :| Spare(v, f, r, x, slot);
    assert AccountedAt(v, f, direct, x);
    assert s in StackRefs(v, f, x) && s != slot;
    SubsetSize({s, slot}, StackRefs(v, f, x));
  }

  /** A region that is still referenced survives. */
  lemma StillReferenced(f: Forest, g: Forest, direct: Counts, depth: map<RegionId, nat>, q: RegionId, alive: bool)
    requires Tree(f, depth) && Tree(g, depth) && q in f && !f[q].IsFrameLocal() && Retracted(f, g, depth, q, alive)
    requires Balanced(g, direct) && NonNegative(direct) && direct[q] >= 1
    ensures alive && SameButCounts(f, g)
  {
    assert BalancedAt(g, direct, q);
    ActiveRoot(g, direct, depth, q);
  }

  /** The reference that is being exchanged out is taken over: its report is retracted, its region stays where it is. */
  method TakeOver(
    h: Heap, r: RegionId, hr: RegionId,
    ghost v: View, ghost direct: Counts, ghost root: HeaderId, ghost rcs: map<HeaderId, int>, ghost s: Site)
    requires h.Counted() && h.direct == direct && Accounted(v, h.regions, direct)
    requires r in h.regions && hr in h.regions && !h.regions[hr].IsFrameLocal() && Exchangeable(v, h.regions, direct, r, Some(hr))
    requires forall t | t in rcs :: Draggable(v, h.regions, r, t)
    requires Traced(v, rcs.Keys, s) && AimsInto(v, root, s, hr)
    modifies h`regions, h`direct
    ensures h.Counted() && SameButCounts(old(h.regions), h.regions) && h.direct == Add(direct, hr, -1)
  {
    ghost var f := h.regions;
    DraggedReports(v, f, direct, r, root, rcs, s, hr);
    assert BalancedAt(f, direct, hr);
    assert TreeAt(f, h.depth, hr);
    var alive := h.StackDec(hr, 1);
    if f[r].IsFrameLocal() {
      TwoReports(v, f, direct, r, root, rcs, s, hr);
      StillReferenced(f, h.regions, h.direct, h.depth, hr, alive);
    } else {
      ChildSurvives(f, h.regions, h.direct, h.depth, hr, r, alive);
    }
  }

  /** What holds of the heap while a traversal to `r` is under way; `exchanged` is still to be looked out for. */
  ghost predicate Tracing(
    h: Heap, r: RegionId, frameLocal: bool, exchanged: Option<RegionId>,
    v: View, f: Forest, direct: Counts, root: HeaderId)
    reads h
  {
    && h.Counted() && SameButCounts(f, h.regions) && v == h.Graph() && Tree(f, h.depth)
    && WellFormed(v, f) && Accounted(v, f, direct)
    && r in f && frameLocal == f[r].IsFrameLocal()
    && root in v.headers && !InHeapRegion(v, f, root) && !v.headers[root].loc.Immortal?
    && Exchangeable(v, f, direct, r, exchanged)
    && (exchanged.Some? ==> h.regions == f && h.direct == direct)
  }

  /** One turn has processed the last site of the worklist. */
  ghost predicate Turned(
    v: View, f: Forest, depth: map<RegionId, nat>, r: RegionId, root: HeaderId,
    rcs: map<HeaderId, int>, wl: seq<HeaderId>, sites: seq<Site>, done: set<Site>,
    rcs': map<HeaderId, int>, decs': int, subs': map<RegionId, HeaderId>, wl': seq<HeaderId>, sites': seq<Site>)
    requires Tree(f, depth) && r in f && |sites| == |wl| > 0
  {
    && Going(v, f, depth, r, root, rcs', decs', subs', wl', sites', done + {sites[|wl| - 1]})
    && Least(v, f, r, root, rcs'.Keys)
    && rcs.Keys <= rcs'.Keys <= v.headers.Keys && (rcs.Keys == rcs'.Keys ==> |wl'| < |wl|)
  }

  /**
   A reference into heap region `hr`.  The region being exchanged out is taken over; otherwise a heap
   destination must be able to adopt `hr` through this reference alone, or have it as a child already.
   */
  method Meet(
    h: Heap, r: RegionId, hr: RegionId, frameLocal: bool, next: HeaderId,
    subs: map<RegionId, HeaderId>, exchanged: Option<RegionId>,
    ghost v: View, ghost f: Forest, ghost direct: Counts, ghost root: HeaderId, ghost rcs: map<HeaderId, int>,
    ghost decs: int, ghost wl: seq<HeaderId>, ghost sites: seq<Site>, ghost done: set<Site>)
    returns (ok: bool, subs': map<RegionId, HeaderId>, left: Option<RegionId>)
    requires Tracing(h, r, frameLocal, exchanged, v, f, direct, root)
    requires Going(v, f, h.depth, r, root, rcs, decs, subs, wl, sites, done) && wl != [] && next == wl[|wl| - 1]
    requires LivesIn(v, next, hr) && next !in rcs
    requires Traced(v, rcs.Keys, sites[|wl| - 1]) && Least(v, f, r, root, rcs.Keys)
    requires hr in f && !f[hr].IsFrameLocal() && hr != r
    modifies h`regions, h`direct
    ensures h.Counted() && SameButCounts(f, h.regions)
    ensures left == exchanged || (exchanged == Some(hr) && left == None && ok)
    ensures left == exchanged ==> exchanged != Some(hr)
    ensures left == exchanged ==> h.regions == old(h.regions) && h.direct == old(h.direct)
    ensures left != exchanged ==> h.direct == Add(direct, hr, -1)
    ensures !ok ==> !CanDrag(v, f, h.depth, r, root)
    ensures ok ==>
      var n := |wl| - 1;
      && Going(v, f, h.depth, r, root, rcs, decs, subs', wl[..n], sites[..n], done + {sites[n]})
      && AimsInto(v, root, sites[n], hr)
    ensures ok <==> !Halts(v, f, h.depth, r, subs.Keys, next)
    ensures ok ==> subs'.Keys == Claims(v, f, r, subs.Keys, next)
  {
    ok, subs', left := true, subs, exchanged;
    if left == Some(hr) {
      Passed(v, f, h.depth, r, root, rcs, decs, subs, wl, sites, done);
      left := None;
      TakeOver(h, r, hr, v, direct, root, rcs, sites[|wl| - 1]);
    } else if !frameLocal {
      if h.regions[hr].owner == Parent(r) {
        Passed(v, f, h.depth, r, root, rcs, decs, subs, wl, sites, done);
        return;
      }
      var no := Refuses(h, r, hr, subs, f);
      if no {
        Refused(v, f, h.depth, r, root, rcs, decs, subs, wl, sites, done, hr);
        return false, subs, left;
      }
      Claimed(v, f, h.depth, r, root, rcs, decs, subs, wl, sites, done, hr);
      subs' := subs[hr := next];
    } else {
      Passed(v, f, h.depth, r, root, rcs, decs, subs, wl, sites, done);
    }
  }

  /** A header that has to be dragged: its fields are traced. */
  method Pull(
    v: View, rcs: map<HeaderId, int>, wl: seq<HeaderId>,
    ghost f: Forest, ghost depth: map<RegionId, nat>, ghost r: RegionId, ghost root: HeaderId,
    ghost decs: int, ghost subs: map<RegionId, HeaderId>, ghost sites: seq<Site>, ghost done: set<Site>)
    returns (rcs': map<HeaderId, int>, wl': seq<HeaderId>, ghost sites': seq<Site>)
    requires Tree(f, depth) && r in f && Going(v, f, depth, r, root, rcs, decs, subs, wl, sites, done) && wl != []
    requires wl[|wl| - 1] !in rcs && Draggable(v, f, r, wl[|wl| - 1]) && Least(v, f, r, root, rcs.Keys)
    requires WellFormed(v, f)
    ensures Going(v, f, depth, r, root, rcs', decs, subs, wl', sites', done + {sites[|wl| - 1]})
    ensures Least(v, f, r, root, rcs'.Keys) && rcs'.Keys == rcs.Keys + {wl[|wl| - 1]}
    ensures wl' == After(v, f, r, wl, rcs.Keys)
  {
    var n := |wl| - 1;
    var t := wl[n];
    var kids, links := TraceFields(v, t);
    Dragged(v, f, depth, r, root, rcs, decs, subs, wl, sites, done, kids, links);
    assert sites[n] in sites;
    LeastGrows(v, f, r, root, rcs.Keys, sites[n], t);
    rcs', wl', sites' := rcs[t := 1], wl[..n] + kids, sites[..n] + links;
    assert rcs'.Keys == rcs.Keys + {t};
  }

  /** The next site leads to the next header. */
  lemma NextAims(
    v: View, f: Forest, depth: map<RegionId, nat>, r: RegionId, root: HeaderId, rcs: map<HeaderId, int>,
    decs: int, subs: map<RegionId, HeaderId>, wl: seq<HeaderId>, sites: seq<Site>, done: set<Site>, hr: RegionId, x: RegionId)
    requires Tree(f, depth) && r in f && Going(v, f, depth, r, root, rcs, decs, subs, wl, sites, done) && wl != []
    requires LivesIn(v, wl[|wl| - 1], hr)
    ensures |sites| == |wl| && wl[|wl| - 1] in v.headers
    ensures AimsInto(v, root, sites[|wl| - 1], x) <==> x == hr
    ensures InHeapRegion(v, f, wl[|wl| - 1]) && !InHeapRegion(v, f, root) ==> Traced(v, rcs.Keys, sites[|wl| - 1])
  {
    assert sites[|wl| - 1] in sites;
  }

  lemma ExchangedKnown(v: View, f: Forest, direct: Counts, r: RegionId, exchanged: Option<RegionId>)
    requires r in f && direct.Keys == f.Keys && Exchangeable(v, f, direct, r, exchanged)
    ensures Exchangeable(v, f, direct, r, None) && Parental(f, r, exchanged) && (exchanged.Some? ==> exchanged.value in f)
  {
  }

  lemma Ended(
    v: View, f: Forest, depth: map<RegionId, nat>, r: RegionId, root: HeaderId, rcs: map<HeaderId, int>,
    decs: int, subs: map<RegionId, HeaderId>, sites: seq<Site>, done: set<Site>)
    requires Tree(f, depth) && r in f && Going(v, f, depth, r, root, rcs, decs, subs, [], sites, done)
    ensures Complete(v, f, depth, r, root, rcs, decs, subs, done) && Entry in done
  {
    assert sites == [];
  }

  lemma NextKnown(
    v: View, f: Forest, depth: map<RegionId, nat>, r: RegionId, root: HeaderId, rcs: map<HeaderId, int>,
    decs: int, subs: map<RegionId, HeaderId>, wl: seq<HeaderId>, sites: seq<Site>, done: set<Site>)
    requires Tree(f, depth) && r in f && Going(v, f, depth, r, root, rcs, decs, subs, wl, sites, done) && wl != []
    ensures |sites| == |wl| && wl[|wl| - 1] in v.headers && (wl[|wl| - 1] in rcs ==> Draggable(v, f, r, wl[|wl| - 1]))
    ensures sites[|wl| - 1] == Entry ==> wl[|wl| - 1] == root
    ensures wl[|wl| - 1] != root ==> v.headers[wl[|wl| - 1]].loc.InRegion?
    ensures var s, t := sites[|wl| - 1], wl[|wl| - 1]; forall x :: AimsInto(v, root, s, x) <==> LivesIn(v, t, x)
  {
    assert sites[|wl| - 1] in sites;
  }

  /** A header in region `hr`, met for the first time. */
  method Judge(
    h: Heap, r: RegionId, hr: RegionId, frameLocal: bool, wl: seq<HeaderId>, rcs: map<HeaderId, int>, decs: int,
    subs: map<RegionId, HeaderId>, exchanged: Option<RegionId>,
    ghost v: View, ghost f: Forest, ghost direct: Counts, ghost root: HeaderId, ghost sites: seq<Site>, ghost done: set<Site>)
    returns (ok: bool, wl': seq<HeaderId>, rcs': map<HeaderId, int>, decs': int, subs': map<RegionId, HeaderId>,
      left: Option<RegionId>, ghost sites': seq<Site>)
    requires Tracing(h, r, frameLocal, exchanged, v, f, direct, root) && rcs.Keys <= v.headers.Keys
    requires Going(v, f, h.depth, r, root, rcs, decs, subs, wl, sites, done) && wl != [] && Least(v, f, r, root, rcs.Keys)
    requires wl[|wl| - 1] !in rcs && LivesIn(v, wl[|wl| - 1], hr)
    modifies h`regions, h`direct
    ensures h.Counted() && SameButCounts(f, h.regions)
    ensures left == exchanged ==> h.regions == old(h.regions) && h.direct == old(h.direct)
    ensures left != exchanged ==>
      && ok && exchanged.Some? && left == None && h.direct == Add(direct, exchanged.value, -1)
      && AimsInto(v, root, sites[|wl| - 1], exchanged.value)
    ensures left != exchanged ==> !f[exchanged.value].IsFrameLocal()
    ensures ok && left == exchanged && exchanged.Some? && !f[exchanged.value].IsFrameLocal() ==>
      !AimsInto(v, root, sites[|wl| - 1], exchanged.value)
    ensures !ok ==> !CanDrag(v, f, h.depth, r, root)
    ensures ok ==> Turned(v, f, h.depth, r, root, rcs, wl, sites, done, rcs', decs', subs', wl', sites')
    ensures Stepped(v, f, h.depth, r, wl, rcs.Keys, subs.Keys, exchanged, ok, wl', rcs'.Keys, subs'.Keys, left)
  {
    hide Going, Least, BalancedAt, AimsInto, Traced, Targets;
    assert exchanged.Some? && !f[exchanged.value].IsFrameLocal() ==> TreeAt(f, h.depth, exchanged.value);
    var n := |wl| - 1;
    NextAims(v, f, h.depth, r, root, rcs, decs, subs, wl, sites, done, hr, if exchanged.Some? then exchanged.value else hr);
    ok, wl', rcs', decs', subs', left := true, wl[..n], rcs, decs, subs, exchanged;
    sites' := sites[..n];
    if hr == r {
      Arrived(v, f, h.depth, r, root, rcs, decs, subs, wl, sites, done);
      decs' := if frameLocal then decs else decs + 1;
      return;
    }
    if frameLocal && h.regions[hr].IsFrameLocal() && h.regions[r].frameDepth >= h.regions[hr].frameDepth {
      Passed(v, f, h.depth, r, root, rcs, decs, subs, wl, sites, done);
      return;
    }
    if !h.regions[hr].IsFrameLocal() {
      ok, subs', left := Meet(h, r, hr, frameLocal, wl[n], subs, exchanged, v, f, direct, root, rcs, decs, wl, sites, done);
      return;
    }
    rcs', wl', sites' := Pull(h.Graph(), rcs, wl, f, h.depth, r, root, decs, subs, sites, done);
    assert wl[n] in rcs'.Keys && wl[n] !in rcs.Keys;
  }

  /** One turn of the traversal: the last header of the worklist is taken off and judged. */
  method Visit(
    h: Heap, r: RegionId, frameLocal: bool, wl: seq<HeaderId>, rcs: map<HeaderId, int>, decs: int,
    subs: map<RegionId, HeaderId>, exchanged: Option<RegionId>,
    ghost v: View, ghost f: Forest, ghost direct: Counts, ghost root: HeaderId, ghost sites: seq<Site>, ghost done: set<Site>)
    returns (ok: bool, wl': seq<HeaderId>, rcs': map<HeaderId, int>, decs': int, subs': map<RegionId, HeaderId>,
      left: Option<RegionId>, ghost sites': seq<Site>)
    requires Tracing(h, r, frameLocal, exchanged, v, f, direct, root) && rcs.Keys <= v.headers.Keys
    requires Going(v, f, h.depth, r, root, rcs, decs, subs, wl, sites, done) && wl != [] && Least(v, f, r, root, rcs.Keys)
    modifies h`regions, h`direct
    ensures h.Counted() && SameButCounts(f, h.regions)
    ensures left == exchanged ==> h.regions == old(h.regions) && h.direct == old(h.direct)
    ensures left != exchanged ==>
      && ok && exchanged.Some? && left == None && h.direct == Add(direct, exchanged.value, -1)
      && AimsInto(v, root, sites[|wl| - 1], exchanged.value)
    ensures left != exchanged ==> !f[exchanged.value].IsFrameLocal()
    ensures ok && left == exchanged && exchanged.Some? && !f[exchanged.value].IsFrameLocal() ==>
      !AimsInto(v, root, sites[|wl| - 1], exchanged.value)
    ensures ok && sites[|wl| - 1] == Entry ==> !v.headers[root].loc.Stack?
    ensures !ok ==> !CanDrag(v, f, h.depth, r, root)
    ensures ok ==> Turned(v, f, h.depth, r, root, rcs, wl, sites, done, rcs', decs', subs', wl', sites')
    ensures Stepped(v, f, h.depth, r, wl, rcs.Keys, subs.Keys, exchanged, ok, wl', rcs'.Keys, subs'.Keys, left)
  {
    hide Going, Least, BalancedAt, AimsInto, Traced, Targets, AccountedAt, Exchangeable, WellFormed;
    var n := |wl| - 1;
    var next := wl[n];
    NextKnown(v, f, h.depth, r, root, rcs, decs, subs, wl, sites, done);
    ok, wl', rcs', decs', subs', left := true, wl[..n], rcs, decs, subs, exchanged;
    sites' := sites[..n];
    if next in rcs {
      Recounted(v, f, h.depth, r, root, rcs, decs, subs, wl, sites, done);
      rcs' := rcs[next := rcs[next] + 1];
      assert rcs'.Keys == rcs.Keys;
      return;
    }
    var loc := h.headers[next].loc;
    if loc.Immutable? {
      Passed(v, f, h.depth, r, root, rcs, decs, subs, wl, sites, done);
      return;
    }
    if loc.Stack? {
      ok := false;
      return;
    }
    ok, wl', rcs', decs', subs', left, sites' :=
      Judge(h, r, loc.region, frameLocal, wl, rcs, decs, subs, exchanged, v, f, direct, root, sites, done);
  }

  /** If the next site leads into a region other than the root's, that is a field of a header met before. */
  lemma NextTouches(
    v: View, f: Forest, depth: map<RegionId, nat>, r: RegionId, root: HeaderId, rcs: map<HeaderId, int>,
    decs: int, subs: map<RegionId, HeaderId>, wl: seq<HeaderId>, sites: seq<Site>, done: set<Site>)
    requires Tree(f, depth) && r in f && Going(v, f, depth, r, root, rcs, decs, subs, wl, sites, done) && wl != []
    requires root in v.headers && !InHeapRegion(v, f, root)
    ensures forall x | x in f && !f[x].IsFrameLocal() && AimsInto(v, root, sites[|wl| - 1], x) :: Touches(v, f, r, root, x)
  {
    var s := sites[|wl| - 1];
    assert s in sites;
    forall x | x in f && !f[x].IsFrameLocal() && AimsInto(v, root, s, x) ensures Touches(v, f, r, root, x) {
      assert s != Entry;
      assert Traced(v, rcs.Keys, s) && Draggable(v, f, r, s.holder) && Reaches(v, root, s.holder);
    }
  }

  method Trace(h: Heap, r: RegionId, root: HeaderId, exchanged: Option<RegionId>)
    returns (ok: bool, rcs: map<HeaderId, int>, decs: int, subs: map<RegionId, HeaderId>, left: Option<RegionId>,
      ghost done: set<Site>)
    requires h.Counted() && WellFormed(h.Graph(), h.regions) && Accounted(h.Graph(), h.regions, h.direct)
    requires r in h.regions && root in h.headers
    requires !InHeapRegion(h.Graph(), h.regions, root) && !h.headers[root].loc.Immortal?
    requires Exchangeable(h.Graph(), h.regions, h.direct, r, exchanged)
    modifies h`regions, h`direct
    ensures h.Counted() && SameButCounts(old(h.regions), h.regions)
    ensures left == exchanged || (exchanged.Some? && left == None)
    ensures left == exchanged ==> h.regions == old(h.regions) && h.direct == old(h.direct)
    ensures left != exchanged ==> h.direct == Add(old(h.direct), exchanged.value, -1)
    ensures !ok ==> !CanDrag(h.Graph(), old(h.regions), h.depth, r, root)
    ensures ok <==> var route := Route(h.Graph(), old(h.regions), r, [root], {});
      Unstopped(h.Graph(), old(h.regions), h.depth, r, route, |route|)
    ensures ok ==> !h.headers[root].loc.Stack?
    ensures ok ==> Complete(h.Graph(), old(h.regions), h.depth, r, root, rcs, decs, subs, done)
    ensures ok ==> Least(h.Graph(), old(h.regions), r, root, rcs.Keys) && rcs.Keys <= h.Graph().headers.Keys
    ensures left != exchanged ==> !old(h.regions)[exchanged.value].IsFrameLocal()
    ensures ok && exchanged.Some? && !old(h.regions)[exchanged.value].IsFrameLocal() ==>
      (left != exchanged <==> exists s | s in done :: AimsInto(h.Graph(), root, s, exchanged.value))
    ensures left != exchanged ==> Touches(h.Graph(), old(h.regions), r, root, exchanged.value)
    // on success and on failure alike, this is settled by the order in which the headers are met
    ensures left != exchanged <==>
      exchanged.Some? && MetInTime(h.Graph(), old(h.regions), h.depth, r, root, exchanged.value)
  {
    hide Going, Complete, Exchangeable, Halts, OnRoute, Route, Unstopped, MetInTime, Touches, Stepped;
    hide AimsInto, Least, Traced, BalancedAt, TreeAt, AccountedAt;
    ghost var v, f, direct := h.Graph(), h.regions, h.direct;
    var frameLocal := h.regions[r].IsFrameLocal();
    var wl := [root];
    rcs, decs, subs, left, done := map[], 0, map[], exchanged, {};
    ghost var sites, past := [Entry], [];
    Starting(v, f, h.depth, r, root);
    RouteStarts(v, f, h.depth, r, root, exchanged);
    ExchangedKnown(v, f, direct, r, exchanged);
    assert rcs.Keys == {} && subs.Keys == {};
    while wl != []
      invariant h.Counted() && SameButCounts(f, h.regions)
      invariant left == exchanged || (exchanged.Some? && left == None)
      invariant left == exchanged ==> h.regions == f && h.direct == direct
      invariant left != exchanged ==> h.direct == Add(direct, exchanged.value, -1)
      invariant Going(v, f, h.depth, r, root, rcs, decs, subs, wl, sites, done) && rcs.Keys <= v.headers.Keys
      invariant Least(v, f, r, root, rcs.Keys) && (Entry in done ==> !h.headers[root].loc.Stack?)
      invariant left != exchanged ==> !f[exchanged.value].IsFrameLocal()
      invariant exchanged.Some? && !f[exchanged.value].IsFrameLocal() ==>
        (left != exchanged <==> exists s | s in done :: AimsInto(v, root, s, exchanged.value))
      invariant left != exchanged ==> Touches(v, f, r, root, exchanged.value)
      invariant OnRoute(v, f, h.depth, r, root, past, wl, rcs.Keys, subs.Keys, exchanged, left)
      decreases v.headers.Keys - rcs.Keys, |wl|
    {
      NextKnown(v, f, h.depth, r, root, rcs, decs, subs, wl, sites, done);
      ghost var before, s, was, entries, claimed := rcs.Keys, sites[|wl| - 1], left, wl, subs.Keys;
      NextTouches(v, f, h.depth, r, root, rcs, decs, subs, wl, sites, done);
      ok, wl, rcs, decs, subs, left, sites :=
        Visit(h, r, frameLocal, wl, rcs, decs, subs, left, v, f, direct, root, sites, done);
      if !ok {
        StepHalts(v, f, h.depth, r, entries, before, claimed, was, wl, rcs.Keys, subs.Keys, left);
        RouteStops(v, f, h.depth, r, root, past, entries, before, claimed, exchanged, was);
        return;
      }
      RouteGoesOn(v, f, h.depth, r, root, past, entries, before, claimed, exchanged, was, wl, rcs.Keys, subs.Keys, left);
      past := past + [entries[|entries| - 1]];
      done := done + {s};
      FewerLeft(v.headers.Keys, before, rcs.Keys);
    }
    ok := true;
    Ended(v, f, h.depth, r, root, rcs, decs, subs, sites, done);
    RouteEnds(v, f, h.depth, r, root, past, rcs.Keys, subs.Keys, exchanged, left);
  }
}
