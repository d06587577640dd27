/**
 The second half of dragging (vbci/drag.cc:106-140): sub-regions are adopted, headers are moved and
 the destination's count is brought up to date; and the proof that the result is exact.
 */
module DragCommit {
  import opened Collections
  import opened Regions
  import opened Graphs
  import opened Heaps
  import opened Drags

  // ---------------------------------------------------------------- counting

  /** The references to headers of `m` that are not fields of headers of `d`. */
  ghost function Outside(v: View, d: set<HeaderId>, m: set<HeaderId>): set<Site> {
    set s | s in Sites(v) && !(s.Field? && s.holder in d) && At(v, s).To? && At(v, s).target in m
  }

  lemma OutsideGrows(v: View, d: set<HeaderId>, m: set<HeaderId>, t: HeaderId)
    requires t !in m
    ensures |Outside(v, d, m + {t})| == |Outside(v, d, m)| + |Outside(v, d, {t})|
  {
    assert Outside(v, d, m + {t}) == Outside(v, d, m) + Outside(v, d, {t});
    assert Outside(v, d, m) !! Outside(v, d, {t});
  }

  lemma OutsideNothing(v: View, d: set<HeaderId>)
    ensures |Outside(v, d, {})| == 0
  {
    assert Outside(v, d, {}) == {};
  }

  /** Every reference to a dragged header is internal to the drag, or outside it. */
  lemma RcSplits(
    v: View, f: Forest, depth: map<RegionId, nat>, r: RegionId, root: HeaderId, rcs: map<HeaderId, int>,
    decs: int, subs: map<RegionId, HeaderId>, done: set<Site>, t: HeaderId)
    requires Tree(f, depth) && r in f && Complete(v, f, depth, r, root, rcs, decs, subs, done)
    requires RcExact(v) && t in rcs
    ensures t in v.headers && v.headers[t].loc.InRegion?
    ensures v.headers[t].rc == |Outside(v, rcs.Keys, {t})| + rcs[t] - if t == root then 1 else 0
  {
    assert Draggable(v, f, r, t) && RcExactAt(v, t);
    var inside, out := Into(v, root, done, t), Outside(v, rcs.Keys, {t});
    InsideSites(v, f, depth, r, root, rcs, decs, subs, done, t);
    hide Complete, Tree, Outside, Into, Pointing, Draggable, RcExact;
    SizeWithout(inside, Entry);
    forall s ensures s in Pointing(v, t) <==> s in out || s in inside - {Entry} {
      InsideOrOutside(v, f, depth, r, root, rcs, decs, subs, done, t, s);
    }
    assert Pointing(v, t) == out + (inside - {Entry});
    assert out !! inside - {Entry} by {
      forall s ensures !(s in out && s in inside - {Entry}) {
        InsideOrOutside(v, f, depth, r, root, rcs, decs, subs, done, t, s);
      }
    }
  }

  lemma InsideSites(
    v: View, f: Forest, depth: map<RegionId, nat>, r: RegionId, root: HeaderId, rcs: map<HeaderId, int>,
    decs: int, subs: map<RegionId, HeaderId>, done: set<Site>, t: HeaderId)
    requires Tree(f, depth) && r in f && Complete(v, f, depth, r, root, rcs, decs, subs, done) && t in rcs
    ensures Entry in Into(v, root, done, t) <==> t == root
    ensures rcs[t] == |Into(v, root, done, t)|
  {
    assert Entry in done;
  }

  lemma InsideOrOutside(
    v: View, f: Forest, depth: map<RegionId, nat>, r: RegionId, root: HeaderId, rcs: map<HeaderId, int>,
    decs: int, subs: map<RegionId, HeaderId>, done: set<Site>, t: HeaderId, s: Site)
    requires Tree(f, depth) && r in f && Complete(v, f, depth, r, root, rcs, decs, subs, done) && t in rcs
    requires t in v.headers && v.headers[t].loc.InRegion?
    ensures s in Pointing(v, t) <==> s in Outside(v, rcs.Keys, {t}) || s in Into(v, root, done, t) - {Entry}
    ensures !(s in Outside(v, rcs.Keys, {t}) && s in Into(v, root, done, t) - {Entry})
  {
    hide Tallied, Tolled, Adoptable, Reaches, Tree;
    assert s in done <==> s == Entry || Traced(v, rcs.Keys, s);
  }

  function MovedHeaders(hs: map<HeaderId, Header>, m: set<HeaderId>, r: RegionId): map<HeaderId, Header> {
    map h | h in hs :: if h in m then hs[h].(loc := InRegion(r)) else hs[h]
  }

  function MovedView(v: View, m: set<HeaderId>, r: RegionId): View {
    v.(headers := MovedHeaders(v.headers, m, r))
  }

  lemma SitesMoved(v: View, m: set<HeaderId>, r: RegionId)
    ensures forall s :: IsSite(MovedView(v, m, r), s) == IsSite(v, s)
    ensures forall s | IsSite(v, s) :: At(MovedView(v, m, r), s) == At(v, s)
    ensures Sites(MovedView(v, m, r)) == Sites(v)
  {
  }

  /** Same regions with the same frame depths. */
  ghost predicate SameDepths(f: Forest, g: Forest) {
    f.Keys == g.Keys && forall x | x in f :: g[x].frameDepth == f[x].frameDepth
  }

  /** The stack side of a heap destination after the move. */
  lemma RefsIntoDestination(
    v: View, f: Forest, g: Forest, depth: map<RegionId, nat>, r: RegionId, root: HeaderId, rcs: map<HeaderId, int>,
    decs: int, subs: map<RegionId, HeaderId>, done: set<Site>)
    requires Tree(f, depth) && r in f && !f[r].IsFrameLocal() && SameDepths(f, g)
    requires Complete(v, f, depth, r, root, rcs, decs, subs, done)
    requires WellFormed(v, f) && Closed(v, f) && !InHeapRegion(v, f, root)
    ensures decs <= |StackRefs(v, f, r)|
    ensures |StackRefs(MovedView(v, rcs.Keys, r), g, r)| ==
      |StackRefs(v, f, r)| - decs + |Outside(v, rcs.Keys, rcs.Keys)|
  {
    var d := rcs.Keys;
    var w := MovedView(v, d, r);
    SitesMoved(v, d, r);
    var old' := StackRefs(v, f, r);
    var gone := IntoRegion(v, root, done, r);
    var come := Outside(v, d, d);
    forall s | s in gone ensures s in old' {
      assert s != Entry;
      assert Traced(v, d, s);
    }
    forall s ensures s in StackRefs(w, g, r) <==> s in old' - gone || s in come {
      RefIntoDestination(v, f, g, depth, r, root, rcs, decs, subs, done, s);
    }
    assert StackRefs(w, g, r) == (old' - gone) + come;
    assert (old' - gone) !! come by {
      forall s | s in come ensures s !in old' {
        assert Draggable(v, f, r, At(v, s).target);
      }
    }
  }

  lemma RefIntoDestination(
    v: View, f: Forest, g: Forest, depth: map<RegionId, nat>, r: RegionId, root: HeaderId, rcs: map<HeaderId, int>,
    decs: int, subs: map<RegionId, HeaderId>, done: set<Site>, s: Site)
    requires Tree(f, depth) && r in f && !f[r].IsFrameLocal() && SameDepths(f, g)
    requires Complete(v, f, depth, r, root, rcs, decs, subs, done)
    requires WellFormed(v, f) && Closed(v, f) && !InHeapRegion(v, f, root)
    ensures s in StackRefs(MovedView(v, rcs.Keys, r), g, r) <==>
      s in StackRefs(v, f, r) - IntoRegion(v, root, done, r) || s in Outside(v, rcs.Keys, rcs.Keys)
  {
    var d := rcs.Keys;
    SitesMoved(v, d, r);
    if IsSite(v, s) && At(v, s).To? {
      var t := At(v, s).target;
      assert t in v.headers;
      if t in d {
        assert Draggable(v, f, r, t);
        if s.Field? && s.holder !in d {
          assert Outlives(f, v.headers[t].loc, v.headers[s.holder].loc);
        }
      } else if LivesIn(v, t, r) && s.Field? && s.holder in d {
        assert Draggable(v, f, r, s.holder);
        assert Traced(v, d, s);
        assert s in IntoRegion(v, root, done, r);
      } else if LivesIn(v, t, r) {
        assert s !in IntoRegion(v, root, done, r) by {
          assert s in done <==> s == Entry || Traced(v, d, s);
        }
      }
    }
  }

  /** The stack side of any other heap region loses the fields that were dragged. */
  lemma RefsIntoOthers(
    v: View, f: Forest, g: Forest, depth: map<RegionId, nat>, r: RegionId, root: HeaderId, rcs: map<HeaderId, int>,
    decs: int, subs: map<RegionId, HeaderId>, done: set<Site>, x: RegionId)
    requires Tree(f, depth) && r in f && !f[r].IsFrameLocal() && SameDepths(f, g)
    requires Complete(v, f, depth, r, root, rcs, decs, subs, done)
    requires WellFormed(v, f) && !InHeapRegion(v, f, root)
    requires x in f && !f[x].IsFrameLocal() && x != r
    ensures |StackRefs(MovedView(v, rcs.Keys, r), g, x)| == |StackRefs(v, f, x)| - |IntoRegion(v, root, done, x)|
  {
    var d := rcs.Keys;
    var w := MovedView(v, d, r);
    SitesMoved(v, d, r);
    var gone := IntoRegion(v, root, done, x);
    forall s | s in gone ensures s in StackRefs(v, f, x) {
      assert s != Entry;
      assert Traced(v, d, s);
      assert Draggable(v, f, r, s.holder);
    }
    forall s ensures s in StackRefs(w, g, x) <==> s in StackRefs(v, f, x) - gone {
      RefIntoOther(v, f, g, depth, r, root, rcs, decs, subs, done, x, s);
    }
    assert StackRefs(w, g, x) == StackRefs(v, f, x) - gone;
  }

  lemma RefIntoOther(
    v: View, f: Forest, g: Forest, depth: map<RegionId, nat>, r: RegionId, root: HeaderId, rcs: map<HeaderId, int>,
    decs: int, subs: map<RegionId, HeaderId>, done: set<Site>, x: RegionId, s: Site)
    requires Tree(f, depth) && r in f && !f[r].IsFrameLocal() && SameDepths(f, g)
    requires Complete(v, f, depth, r, root, rcs, decs, subs, done)
    requires WellFormed(v, f) && !InHeapRegion(v, f, root)
    requires x in f && !f[x].IsFrameLocal() && x != r
    ensures s in StackRefs(MovedView(v, rcs.Keys, r), g, x) <==>
      s in StackRefs(v, f, x) - IntoRegion(v, root, done, x)
  {
    var d := rcs.Keys;
    SitesMoved(v, d, r);
    if IsSite(v, s) && At(v, s).To? && At(v, s).target in d {
      assert Draggable(v, f, r, At(v, s).target);
    } else if IsSite(v, s) && At(v, s).To? && LivesIn(v, At(v, s).target, x) {
      assert s in done <==> s == Entry || Traced(v, d, s);
      if s.Field? && s.holder in d {
        assert Draggable(v, f, r, s.holder);
      }
    }
  }

  /** Moving into another frame's region concerns no heap region. */
  lemma RefsOnFrameDrag(v: View, f: Forest, g: Forest, d: set<HeaderId>, r: RegionId, x: RegionId)
    requires r in f && f[r].IsFrameLocal() && SameDepths(f, g)
    requires forall t | t in d :: Draggable(v, f, r, t)
    requires x in f && !f[x].IsFrameLocal()
    ensures StackRefs(MovedView(v, d, r), g, x) == StackRefs(v, f, x)
  {
    SitesMoved(v, d, r);
    var w := MovedView(v, d, r);
    forall s ensures s in StackRefs(w, g, x) <==> s in StackRefs(v, f, x) {
      if IsSite(v, s) {
        if s.Field? && s.holder in d {
          assert Draggable(v, f, r, s.holder);
        }
        if At(v, s).To? && At(v, s).target in d {
          assert Draggable(v, f, r, At(v, s).target);
        }
      }
    }
  }

  // ---------------------------------------------------------------- adopting sub-regions

  /** The regions `xs` hang below `r`, entered as `subs` says. */
  function AdoptedAll(f: Forest, r: RegionId, subs: map<RegionId, HeaderId>, xs: set<RegionId>): Forest
    requires xs <= subs.Keys
  {
    map x | x in f :: if x in xs then f[x].(owner := Parent(r), entry := Some(subs[x])) else f[x]
  }

  function Spent(direct: Counts, xs: set<RegionId>): Counts {
    map x | x in direct :: if x in xs then direct[x] - 1 else direct[x]
  }

  /** Heap regions that nothing owns, that do not contain `r`, and that are referenced. */
  ghost predicate Waiting(f: Forest, direct: Counts, depth: map<RegionId, nat>, r: RegionId, todo: set<RegionId>)
    requires Tree(f, depth) && r in f && direct.Keys == f.Keys
  {
    forall x | x in todo ::
      && x in f && !f[x].IsFrameLocal() && f[x].owner.Unowned?
      && !Within(f, depth, r, x) && direct[x] >= 1
  }

  lemma WaitingAfter(
    f: Forest, direct: Counts, depth: map<RegionId, nat>, g: Forest, direct': Counts, depth': map<RegionId, nat>,
    r: RegionId, x: RegionId, entry: HeaderId, todo: set<RegionId>)
    requires Tree(f, depth) && r in f && direct.Keys == f.Keys && x in f && Waiting(f, direct, depth, r, todo)
    requires f[x].owner.Unowned? && !Within(f, depth, r, x) && x !in todo
    requires Tree(g, depth') && SameButCounts(Adopted(f, x, r, entry), g)
    requires direct' == Add(direct, x, -1)
    ensures Waiting(g, direct', depth', r, todo)
  {
    var m := Adopted(f, x, r, entry);
    MarkedUncounted(g, depth');
    assert Tree(m, depth') by {
      forall y | y in m ensures TreeAt(m, depth', y) {
        assert TreeAt(g, depth', y) && TreeAt(f, depth, y);
      }
    }
    forall y | y in todo ensures !Within(g, depth', r, y) {
      AdoptedWithin(f, depth, depth', x, r, entry, r, y);
      OwnershipDecides(m, g, depth', r, y);
    }
  }

  /** `set_parent` first, so that the retracted reference cannot free the sub-region. */
  method AdoptOne(h: Heap, r: RegionId, x: RegionId, entry: HeaderId, ghost todo: set<RegionId>)
    requires h.Counted() && r in h.regions && !h.regions[r].IsFrameLocal() && h.direct[r] >= 1
    requires x !in todo && Waiting(h.regions, h.direct, h.depth, r, todo + {x})
    modifies h`regions, h`direct, h`depth
    ensures h.Counted() && SameButCounts(Adopted(old(h.regions), x, r, entry), h.regions)
    ensures h.direct == Add(old(h.direct), x, -1)
    ensures Waiting(h.regions, h.direct, h.depth, r, todo)
  {
    ghost var f, direct, depth := h.regions, h.direct, h.depth;
    assert x in todo + {x} && !Within(f, depth, r, x);
    LiveWhenReported(f, direct, depth, r);
    LiveWhenReported(f, direct, depth, x);
    h.SetParent(x, r, entry);
    LiveWhenReported(h.regions, h.direct, h.depth, x);
    ghost var m := h.regions;
    var alive := h.StackDec(x, 1);
    ChildSurvives(m, h.regions, h.direct, h.depth, x, r, alive);
    assert Waiting(f, direct, depth, r, todo);
    WaitingAfter(f, direct, depth, h.regions, h.direct, h.depth, r, x, entry, todo);
  }

  method AdoptAll(h: Heap, r: RegionId, subs: map<RegionId, HeaderId>)
    requires h.Counted() && r in h.regions && !h.regions[r].IsFrameLocal() && h.direct[r] >= 1
    requires Waiting(h.regions, h.direct, h.depth, r, subs.Keys)
    modifies h`regions, h`direct, h`depth
    ensures h.Counted() && SameButCounts(AdoptedAll(old(h.regions), r, subs, subs.Keys), h.regions)
    ensures h.direct == Spent(old(h.direct), subs.Keys)
  {
    ghost var f, direct := h.regions, h.direct;
    NoneAdopted(f, direct, r, subs);
    var todo := subs.Keys;
    ghost var hung: set<RegionId> := {};
    while todo != {}
      invariant todo <= subs.Keys && hung == subs.Keys - todo
      invariant h.Counted() && SameButCounts(AdoptedAll(f, r, subs, hung), h.regions)
      invariant h.direct == Spent(direct, hung)
      invariant h.regions.Keys == f.Keys && !h.regions[r].IsFrameLocal() && h.direct[r] >= 1
      invariant Waiting(h.regions, h.direct, h.depth, r, todo)
      decreases todo
    {
      var x := PickOne(todo);
      assert todo - {x} + {x} == todo;
      todo := todo - {x};
      ghost var m := h.regions;
      AdoptOne(h, r, x, subs[x], todo);
      OneMoreAdopted(f, m, h.regions, direct, r, subs, hung, x);
      hung := hung + {x};
    }
    assert hung == subs.Keys;
  }

  lemma NoneAdopted(f: Forest, direct: Counts, r: RegionId, subs: map<RegionId, HeaderId>)
    ensures AdoptedAll(f, r, subs, {}) == f && Spent(direct, {}) == direct
  {
  }

  lemma OneMoreAdopted(
    f: Forest, m: Forest, g: Forest, direct: Counts, r: RegionId, subs: map<RegionId, HeaderId>, xs: set<RegionId>,
    x: RegionId)
    requires xs <= subs.Keys && x in subs && x in f && x !in xs
    requires SameButCounts(AdoptedAll(f, r, subs, xs), m) && SameButCounts(Adopted(m, x, r, subs[x]), g)
    ensures SameButCounts(AdoptedAll(f, r, subs, xs + {x}), g)
    ensures Spent(direct, xs + {x}) == Add(Spent(direct, xs), x, -1)
  {
  }

  method PickOne(xs: set<RegionId>) returns (x: RegionId)
    requires xs != {}
    ensures x in xs
  {
    ghost var y := Pick(xs);
    x :| x in xs;
  }

  lemma LiveWhenReported(f: Forest, direct: Counts, depth: map<RegionId, nat>, r: RegionId)
    requires Tree(f, depth) && Balanced(f, direct) && NonNegative(direct)
    requires r in f && !f[r].IsFrameLocal() && direct[r] >= 1
    ensures f[r].stackRc > 0 && Live(f, depth, r)
  {
    assert BalancedAt(f, direct, r);
    ActiveIsLive(f, direct, depth, r);
  }

  // ---------------------------------------------------------------- moving headers

  /** Same regions; counts and members may differ. */
  ghost predicate SameShape(f: Forest, g: Forest) {
    && f.Keys == g.Keys
    && forall x | x in f ::
         && g[x].owner == f[x].owner && g[x].entry == f[x].entry && g[x].frameDepth == f[x].frameDepth
         && g[x].finalizing == f[x].finalizing
  }

  /** How many references the move of `t` brings to a heap destination. */
  ghost predicate Brings(v: View, d: set<HeaderId>, root: HeaderId, isMove: bool, t: HeaderId, internal: int)
    requires t in v.headers
  {
    && v.headers[t].rc - internal == |Outside(v, d, {t})| - Moving(root, isMove, {t})
    && v.headers[t].rc >= internal
  }

  /** The reference that is itself moving into a field stops counting once its target has moved. */
  ghost function Moving(root: HeaderId, isMove: bool, m: set<HeaderId>): int {
    if isMove && root in m then 1 else 0
  }

  method MoveOne(h: Heap, r: RegionId, t: HeaderId, gain: nat)
    requires h.Counted() && r in h.regions && Live(h.regions, h.depth, r)
    requires h.regions[r].IsFrameLocal() || h.direct[r] >= 1
    requires t in h.headers && h.headers[t].loc.InRegion? && h.headers[t].loc.region in h.regions
    modifies h`regions, h`headers, h`direct
    ensures h.Counted() && SameShape(old(h.regions), h.regions) && Live(h.regions, h.depth, r)
    ensures h.headers == old(h.headers)[t := old(h.headers)[t].(loc := InRegion(r))]
    ensures h.direct == Reported(old(h.regions), old(h.direct), r, gain)
    ensures Members(old(h.Graph()), old(h.regions)) ==> Members(h.Graph(), h.regions)
  {
    ghost var f := h.regions;
    if !h.regions[r].IsFrameLocal() {
      LiveWhenReported(h.regions, h.direct, h.depth, r);
    } else {
      assert TreeAt(h.regions, h.depth, r);
    }
    h.StackInc(r, gain);
    ghost var m, w := h.regions, h.Graph();
    LiveKept(f, m, h.depth);
    h.MoveRegion(t, r);
    ShapeMoved(f, m, t, w.headers[t].loc.region, r);
    if Members(w, f) {
      MembersMoved(w, f, m, t, r);
    }
  }

  lemma ShapeMoved(f: Forest, m: Forest, t: HeaderId, from: RegionId, r: RegionId)
    requires SameButCounts(f, m) && from in f && r in f
    ensures SameShape(f, Moved(m, t, from, r))
  {
  }

  lemma ShapeTransitive(f: Forest, g: Forest, k: Forest)
    requires SameShape(f, g) && SameShape(g, k)
    ensures SameShape(f, k)
  {
  }

  lemma ReportedTwice(f: Forest, g: Forest, direct: Counts, r: RegionId, a: int, b: int)
    requires r in f && SameShape(f, g)
    ensures Reported(g, Reported(f, direct, r, a), r, b) == Reported(f, direct, r, a + b)
  {
  }

  lemma MembersMoved(v: View, f: Forest, m: Forest, t: HeaderId, r: RegionId)
    requires Members(v, f) && SameButCounts(f, m)
    requires t in v.headers && v.headers[t].loc.InRegion? && v.headers[t].loc.region in f && r in f
    ensures Members(v.(headers := v.headers[t := v.headers[t].(loc := InRegion(r))]), Moved(m, t, v.headers[t].loc.region, r))
  {
    var w, g := v.(headers := v.headers[t := v.headers[t].(loc := InRegion(r))]), Moved(m, t, v.headers[t].loc.region, r);
    forall x | x in g ensures MembersAt(w, g, x) {
      assert MembersAt(v, f, x);
    }
  }

  /** Of the headers `d` to be moved, those in `moved` have been, and the destination has gained accordingly. */
  ghost predicate MovedSoFar(
    h: Heap, v: View, f: Forest, direct: Counts, r: RegionId, root: HeaderId, isMove: bool,
    d: set<HeaderId>, moved: set<HeaderId>)
    requires r in f
    reads h
  {
    && h.Counted() && SameShape(f, h.regions) && Live(h.regions, h.depth, r)
    && h.registers == v.registers && Members(h.Graph(), h.regions)
    && h.headers == MovedHeaders(v.headers, moved, r)
    && Gain(v, d, root, isMove, moved) >= 0
    && h.direct == Reported(f, direct, r, Gain(v, d, root, isMove, moved))
  }

  method MoveNext(
    h: Heap, r: RegionId, t: HeaderId, internal: int, ghost v: View, ghost f: Forest, ghost direct: Counts,
    ghost root: HeaderId, ghost isMove: bool, ghost d: set<HeaderId>, ghost moved: set<HeaderId>)
    requires r in f && MovedSoFar(h, v, f, direct, r, root, isMove, d, moved) && direct.Keys == f.Keys
    requires f[r].IsFrameLocal() || direct[r] >= 1
    requires t !in moved && t in v.headers && v.headers[t].loc.InRegion? && v.headers[t].loc.region in f
    requires Brings(v, d, root, isMove, t, internal)
    modifies h`regions, h`headers, h`direct
    ensures MovedSoFar(h, v, f, direct, r, root, isMove, d, moved + {t})
  {
    assert h.headers[t] == v.headers[t];
    Gained(v, d, root, isMove, moved, t, internal);
    ghost var m := h.regions;
    var step := h.headers[t].rc - internal;
    MoveOne(h, r, t, step);
    ShapeTransitive(f, m, h.regions);
    ReportedTwice(f, m, direct, r, Gain(v, d, root, isMove, moved), step);
    OneMoreMoved(v.headers, moved, t, r);
  }

  method MoveAll(h: Heap, r: RegionId, root: HeaderId, isMove: bool, rcs: map<HeaderId, int>, ghost v: View)
    requires h.Counted() && r in h.regions && Live(h.regions, h.depth, r)
    requires h.regions[r].IsFrameLocal() || h.direct[r] >= 1
    requires v == h.Graph() && Members(v, h.regions)
    requires forall t | t in rcs ::
      && t in v.headers && v.headers[t].loc.InRegion? && v.headers[t].loc.region in h.regions
      && Brings(v, rcs.Keys, root, isMove, t, if t == root && !isMove then rcs[t] - 1 else rcs[t])
    modifies h`regions, h`headers, h`direct
    ensures MovedSoFar(h, v, old(h.regions), old(h.direct), r, root, isMove, rcs.Keys, rcs.Keys)
  {
    ghost var f, direct, d := h.regions, h.direct, rcs.Keys;
    NothingMoved(v, d, r, root, isMove, direct);
    var todo := rcs.Keys;
    ghost var moved: set<HeaderId> := {};
    while todo != {}
      invariant todo <= d && moved == d - todo
      invariant MovedSoFar(h, v, f, direct, r, root, isMove, d, moved)
      decreases todo
    {
      var t := PickOne(todo);
      MoveNext(h, r, t, if t == root && !isMove then rcs[t] - 1 else rcs[t], v, f, direct, root, isMove, d, moved);
      Without(d, todo, t);
      todo := todo - {t};
      moved := moved + {t};
    }
    assert d - {} == d;
  }

  lemma Without<T>(all: set<T>, todo: set<T>, t: T)
    requires t in todo && todo <= all
    ensures all - (todo - {t}) == (all - todo) + {t}
  {
  }

  /** What the destination gains when `m` has moved. */
  ghost function Gain(v: View, d: set<HeaderId>, root: HeaderId, isMove: bool, m: set<HeaderId>): int {
    |Outside(v, d, m)| - Moving(root, isMove, m)
  }

  lemma Gained(v: View, d: set<HeaderId>, root: HeaderId, isMove: bool, m: set<HeaderId>, t: HeaderId, internal: int)
    requires t !in m && t in v.headers && Brings(v, d, root, isMove, t, internal)
    ensures Gain(v, d, root, isMove, m + {t}) == Gain(v, d, root, isMove, m) + v.headers[t].rc - internal
  {
    OutsideGrows(v, d, m, t);
  }

  lemma NothingMoved(v: View, d: set<HeaderId>, r: RegionId, root: HeaderId, isMove: bool, direct: Counts)
    ensures MovedHeaders(v.headers, {}, r) == v.headers
    ensures Gain(v, d, root, isMove, {}) == 0 && Add(direct, r, 0) == direct
  {
    OutsideNothing(v, d);
  }

  lemma OneMoreMoved(hs: map<HeaderId, Header>, m: set<HeaderId>, t: HeaderId, r: RegionId)
    requires t in hs && t !in m
    ensures MovedHeaders(hs, m + {t}, r) == MovedHeaders(hs, m, r)[t := MovedHeaders(hs, m, r)[t].(loc := InRegion(r))]
  {
  }

  // ---------------------------------------------------------------- the whole drag

  /** Regions keep their owners except for the adopted ones, and only the tree of `r` may be freed. */
  ghost predicate Regrown(
    f: Forest, g: Forest, depth: map<RegionId, nat>, r: RegionId, subs: map<RegionId, HeaderId>, alive: bool)
    requires Tree(g, depth) && r in g
  {
    && f.Keys == g.Keys
    && alive == (g[r].IsFrameLocal() || !Released(g, depth, r))
    && forall x | x in f ::
         && g[x].owner == (if x in subs then Parent(r) else f[x].owner)
         && g[x].entry == (if x in subs then Some(subs[x]) else f[x].entry)
         && g[x].frameDepth == f[x].frameDepth
         && g[x].finalizing == (f[x].finalizing || (!alive && x == Root(g, depth, r)))
  }

  lemma MembersKept(v: View, f: Forest, g: Forest)
    requires Members(v, f) && f.Keys == g.Keys && forall x | x in f :: g[x].members == f[x].members
    ensures Members(v, g)
  {
    forall x | x in g ensures MembersAt(v, g, x) {
      assert MembersAt(v, f, x);
    }
  }

  /** While the guard is held nothing is freed. */
  lemma GuardHolds(k: Forest, l: Forest, direct: Counts, depth: map<RegionId, nat>, r: RegionId, alive: bool)
    requires Tree(k, depth) && Tree(l, depth) && r in k && !k[r].IsFrameLocal() && Retracted(k, l, depth, r, alive)
    requires Balanced(l, direct) && NonNegative(direct) && direct[r] >= 1
    ensures alive && SameButCounts(k, l) && l[r].stackRc > 0
  {
    LiveWhenReported(l, direct, depth, r);
    ActiveRoot(l, direct, depth, r);
  }

  lemma RegrownChain(
    f: Forest, g: Forest, l: Forest, m: Forest, depth: map<RegionId, nat>, r: RegionId,
    subs: map<RegionId, HeaderId>, alive: bool)
    requires SameButCounts(AdoptedAll(f, r, subs, subs.Keys), g) && SameShape(g, l) && r in l && !l[r].IsFrameLocal()
    requires Tree(l, depth) && Tree(m, depth) && Retracted(l, m, depth, r, alive)
    ensures Regrown(f, m, depth, r, subs, alive)
  {
    OwnershipDecides(l, m, depth, r, r);
  }

  lemma SettledChain(direct: Counts, r: RegionId, xs: set<RegionId>, gain: int, decs: int)
    requires r !in xs
    ensures Add(Add(Add(Spent(Add(direct, r, 1), xs), r, gain), r, -decs), r, -1) == Add(Spent(direct, xs), r, gain - decs)
  {
  }

  lemma ReleasedQuiet(f: Forest, direct: Counts, depth: map<RegionId, nat>, r: RegionId)
    requires Tree(f, depth) && Balanced(f, direct) && NonNegative(direct)
    requires r in f && !f[r].IsFrameLocal() && Released(f, depth, r)
    ensures direct[r] == 0
  {
    RootWithin(f, depth, r);
    QuietSubtree(f, direct, depth, r, Root(f, depth, r));
  }

  /** A frame destination keeps no counts: the headers just move. */
  method CommitToFrame(h: Heap, r: RegionId, root: HeaderId, isMove: bool, rcs: map<HeaderId, int>, ghost v: View)
    returns (ghost alive: bool)
    requires h.Counted() && r in h.regions && Live(h.regions, h.depth, r) && h.regions[r].IsFrameLocal()
    requires v == h.Graph() && Members(v, h.regions)
    requires forall t | t in rcs ::
      && t in v.headers && v.headers[t].loc.InRegion? && v.headers[t].loc.region in h.regions
      && Brings(v, rcs.Keys, root, isMove, t, if t == root && !isMove then rcs[t] - 1 else rcs[t])
    modifies h`regions, h`headers, h`direct
    ensures h.Counted() && Members(h.Graph(), h.regions) && alive
    ensures h.headers == MovedHeaders(v.headers, rcs.Keys, r) && h.direct == old(h.direct)
    ensures Regrown(old(h.regions), h.regions, h.depth, r, map[], alive)
  {
    ghost var f := h.regions;
    h.StackInc(r, 1);
    MembersKept(v, f, h.regions);
    LiveKept(f, h.regions, h.depth);
    MoveAll(h, r, root, isMove, rcs, v);
    alive := h.StackDec(r, 0);
    alive := h.StackDec(r, 1);
  }

  /** Under the guard: move the headers, retract the destination's internal references, release the guard. */
  method Settle(
    h: Heap, r: RegionId, root: HeaderId, isMove: bool, rcs: map<HeaderId, int>, decs: nat, ghost v: View)
    returns (ghost alive: bool, ghost l: Forest)
    requires h.Counted() && r in h.regions && !h.regions[r].IsFrameLocal()
    requires h.direct[r] >= 1 + decs && v == h.Graph() && Members(v, h.regions)
    requires forall t | t in rcs ::
      && t in v.headers && v.headers[t].loc.InRegion? && v.headers[t].loc.region in h.regions
      && Brings(v, rcs.Keys, root, isMove, t, if t == root && !isMove then rcs[t] - 1 else rcs[t])
    modifies h`regions, h`headers, h`direct
    ensures h.Counted() && Members(h.Graph(), h.regions)
    ensures h.headers == MovedHeaders(v.headers, rcs.Keys, r)
    ensures h.direct ==
      Add(Add(Add(old(h.direct), r, Gain(v, rcs.Keys, root, isMove, rcs.Keys)), r, -(decs as int)), r, -1)
    ensures SameShape(old(h.regions), l) && r in l && Tree(l, h.depth) && Retracted(l, h.regions, h.depth, r, alive)
  {
    LiveWhenReported(h.regions, h.direct, h.depth, r);
    MoveAll(h, r, root, isMove, rcs, v);
    ghost var w, k := h.Graph(), h.regions;
    LiveWhenReported(k, h.direct, h.depth, r);
    alive := h.StackDec(r, decs);
    l := h.regions;
    GuardHolds(k, l, h.direct, h.depth, r, alive);
    alive := h.StackDec(r, 1);
    MembersKept(w, k, h.regions);
  }

  lemma WaitingGuarded(
    f: Forest, g: Forest, direct: Counts, depth: map<RegionId, nat>, r: RegionId, todo: set<RegionId>)
    requires Tree(f, depth) && Tree(g, depth) && SameButCounts(f, g) && r in f && direct.Keys == f.Keys
    requires Waiting(f, direct, depth, r, todo)
    ensures r !in todo && Waiting(g, Add(direct, r, 1), depth, r, todo)
  {
    forall x | x in todo ensures x != r && !Within(g, depth, r, x) {
      OwnershipDecides(f, g, depth, r, x);
    }
  }

  /** Take the guard on the destination, then hang the sub-regions below it. */
  method GuardAndAdopt(h: Heap, r: RegionId, subs: map<RegionId, HeaderId>, ghost v: View)
    requires h.Counted() && r in h.regions && Live(h.regions, h.depth, r) && !h.regions[r].IsFrameLocal()
    requires Waiting(h.regions, h.direct, h.depth, r, subs.Keys) && Members(v, h.regions)
    modifies h`regions, h`direct, h`depth
    ensures h.Counted() && Members(v, h.regions)
    ensures SameButCounts(AdoptedAll(old(h.regions), r, subs, subs.Keys), h.regions)
    ensures r !in subs && h.direct == Spent(Add(old(h.direct), r, 1), subs.Keys)
  {
    ghost var f, direct := h.regions, h.direct;
    h.StackInc(r, 1);
    ghost var f1 := h.regions;
    WaitingGuarded(f, f1, direct, h.depth, r, subs.Keys);
    AdoptAll(h, r, subs);
    MembersKept(v, f, h.regions);
  }

  method CommitToHeap(
    h: Heap, r: RegionId, root: HeaderId, isMove: bool, rcs: map<HeaderId, int>, decs: nat, subs: map<RegionId, HeaderId>,
    ghost v: View)
    returns (ghost alive: bool)
    requires h.Counted() && r in h.regions && Live(h.regions, h.depth, r) && !h.regions[r].IsFrameLocal()
    requires v == h.Graph() && Members(v, h.regions)
    requires h.direct[r] >= decs && Waiting(h.regions, h.direct, h.depth, r, subs.Keys)
    requires forall t | t in rcs ::
      && t in v.headers && v.headers[t].loc.InRegion? && v.headers[t].loc.region in h.regions
      && Brings(v, rcs.Keys, root, isMove, t, if t == root && !isMove then rcs[t] - 1 else rcs[t])
    modifies h`regions, h`headers, h`direct, h`depth
    ensures h.Counted() && Members(h.Graph(), h.regions)
    ensures h.headers == MovedHeaders(v.headers, rcs.Keys, r)
    ensures h.direct ==
      Add(Spent(old(h.direct), subs.Keys), r, Gain(v, rcs.Keys, root, isMove, rcs.Keys) - decs)
    ensures r in h.regions && Regrown(old(h.regions), h.regions, h.depth, r, subs, alive)
    ensures !alive ==> h.direct[r] == 0
  {
    hide Waiting, Regrown, SameButCounts, Brings, MembersAt, Gain, MovedHeaders, TreeAt, BalancedAt;
    ghost var f, direct := h.regions, h.direct;
    GuardAndAdopt(h, r, subs, v);
    ghost var g, l := h.regions, h.regions;
    alive, l := Settle(h, r, root, isMove, rcs, decs, v);
    RegrownChain(f, g, l, h.regions, h.depth, r, subs, alive);
    SettledChain(direct, r, subs.Keys, Gain(v, rcs.Keys, root, isMove, rcs.Keys), decs);
    if !alive {
      ReleasedQuiet(h.regions, h.direct, h.depth, r);
    }
  }
}
