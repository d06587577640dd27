/**
 Merging two heap regions (vbci/merge.cc:46-114): the objects and sub-regions of `src` pass to `dest`,
 and what was reported to `src` is reported to `dest`.
 */
module Merging {
  import opened Collections
  import opened Regions
  import opened Graphs
  import opened Heaps
  import opened Drags
  import opened DragCommit
  import opened DragExact
  import opened WriteBarrier

  // ---------------------------------------------------------------- scanning for sub-regions

  /** A field of a header in `d` that enters sub-region `x` of `src`. */
  predicate Enters(v: View, f: Forest, src: RegionId, dest: RegionId, d: set<HeaderId>, s: Site, x: RegionId) {
    && s.Field? && s.holder in d && PointsInto(v, s, x)
    && x in f && x != src && x != dest && f[x].owner == Parent(src)
  }

  ghost predicate Scanned(
    v: View, f: Forest, src: RegionId, dest: RegionId, d: set<HeaderId>, subs: map<RegionId, HeaderId>)
  {
    && (forall s, x | Enters(v, f, src, dest, d, s, x) :: x in subs)
    && (forall x | x in subs :: exists s :: Enters(v, f, src, dest, d, s, x) && At(v, s) == To(subs[x]))
  }

  /** The fields of `t` before `n`, on top of the headers `d`. */
  ghost predicate ScannedTo(
    v: View, f: Forest, src: RegionId, dest: RegionId, d: set<HeaderId>, t: HeaderId, n: int, subs: map<RegionId, HeaderId>)
  {
    && (forall s, x | Enters(v, f, src, dest, d + {t}, s, x) && (s.holder in d || s.index < n) :: x in subs)
    && (forall x | x in subs :: exists s :: Enters(v, f, src, dest, d + {t}, s, x) && At(v, s) == To(subs[x]))
  }

  method ScanFields(
    v: View, f: Forest, src: RegionId, dest: RegionId, t: HeaderId, before: map<RegionId, HeaderId>, ghost d: set<HeaderId>)
    returns (subs: map<RegionId, HeaderId>)
    requires t in v.headers && t !in d && Scanned(v, f, src, dest, d, before)
    ensures Scanned(v, f, src, dest, d + {t}, subs)
  {
    subs := before;
    var fields := v.headers[t].fields;
    forall x | x in subs ensures exists s :: Enters(v, f, src, dest, d + {t}, s, x) && At(v, s) == To(subs[x]) {
      var s :| Enters(v, f, src, dest, d, s, x) && At(v, s) == To(subs[x]);
      assert Enters(v, f, src, dest, d + {t}, s, x);
    }
    forall s, x | Enters(v, f, src, dest, d + {t}, s, x) && s.holder in d ensures x in subs {
      assert Enters(v, f, src, dest, d, s, x);
    }
    for i := 0 to |fields|
      invariant ScannedTo(v, f, src, dest, d, t, i, subs)
    {
      var child := fields[i];
      if child.To? && child.target in v.headers && v.headers[child.target].loc.InRegion? {
        var x := v.headers[child.target].loc.region;
        if x in f && x != src && x != dest && f[x].owner == Parent(src) && x !in subs {
          ghost var s := Field(t, i);
          assert Enters(v, f, src, dest, d + {t}, s, x);
          subs := subs[x := child.target];
        }
      }
    }
  }

  method Scan(v: View, f: Forest, src: RegionId, dest: RegionId, d: set<HeaderId>) returns (subs: map<RegionId, HeaderId>)
    requires d <= v.headers.Keys
    ensures Scanned(v, f, src, dest, d, subs)
  {
    subs := map[];
    var todo := d;
    ghost var seen: set<HeaderId> := {};
    while todo != {}
      invariant todo <= d && seen == d - todo && Scanned(v, f, src, dest, seen, subs)
      decreases todo
    {
      var t := PickOne(todo);
      subs := ScanFields(v, f, src, dest, t, subs, seen);
      Without(d, todo, t);
      todo := todo - {t};
      seen := seen + {t};
    }
    assert d - {} == d;
  }

  // ---------------------------------------------------------------- moving the objects

  /** Only the members of regions differ. */
  ghost predicate SameButMembers(f: Forest, g: Forest) {
    f.Keys == g.Keys && forall x | x in f :: g[x] == f[x].(members := g[x].members)
  }

  method MoveHeaders(h: Heap, d: set<HeaderId>, dest: RegionId, ghost v: View)
    requires h.Counted() && dest in h.regions && v == h.Graph() && Members(v, h.regions)
    requires forall t | t in d :: t in v.headers && v.headers[t].loc.InRegion? && v.headers[t].loc.region in h.regions
    modifies h`regions, h`headers
    ensures h.Counted() && Members(h.Graph(), h.regions)
    ensures SameButMembers(old(h.regions), h.regions)
    ensures h.Graph() == MovedView(v, d, dest)
  {
    ghost var f := h.regions;
    var todo := d;
    ghost var moved: set<HeaderId> := {};
    assert MovedHeaders(v.headers, {}, dest) == v.headers;
    while todo != {}
      invariant todo <= d && moved == d - todo
      invariant h.Counted() && Members(h.Graph(), h.regions) && SameButMembers(f, h.regions)
      invariant h.Graph() == MovedView(v, moved, dest)
      decreases todo
    {
      var t := PickOne(todo);
      ghost var g, w := h.regions, h.Graph();
      assert w.headers[t] == v.headers[t];
      h.MoveRegion(t, dest);
      MembersMoved(w, g, g, t, dest);
      OneMoreMoved(v.headers, moved, t, dest);
      Without(d, todo, t);
      todo := todo - {t};
      moved := moved + {t};
    }
    assert d - {} == d;
  }

  // ---------------------------------------------------------------- handing over the sub-regions

  /** `x` is guarded and taken away from `src`. */
  method Detach(h: Heap, x: RegionId, src: RegionId)
    requires h.Counted() && src in h.regions && !h.regions[src].IsFrameLocal() && h.direct[src] >= 1
    requires x in h.regions && h.regions[x].owner == Parent(src)
    modifies h`regions, h`direct
    ensures h.Counted() && h.direct == Add(old(h.direct), x, 1)
    ensures SameButCounts(Orphaned(old(h.regions), x), h.regions)
  {
    ghost var f, direct, depth := h.regions, h.direct, h.depth;
    assert TreeAt(f, depth, x);
    HeldBy(f, direct, depth, src, x);
    h.StackInc(x, 1);
    ghost var f1 := h.regions;
    assert BalancedAt(f1, h.direct, x);
    h.ClearParent(x);
    GuardHolds(Orphaned(f1, x), h.regions, h.direct, depth, src, !Released(h.regions, depth, src));
  }

  /** `x` passes from `src` to `dest`, which is not below it; its guard keeps it alive in between. */
  method HandOver(h: Heap, x: RegionId, entry: HeaderId, src: RegionId, dest: RegionId)
    requires h.Counted() && src in h.regions && dest in h.regions && src != dest
    requires !h.regions[src].IsFrameLocal() && !h.regions[dest].IsFrameLocal() && h.direct[src] >= 1 && h.direct[dest] >= 1
    requires x in h.regions && h.regions[x].owner == Parent(src) && !Within(h.regions, h.depth, dest, x)
    modifies h`regions, h`direct, h`depth
    ensures h.Counted() && h.direct == old(h.direct)
    ensures SameButCounts(Adopted(old(h.regions), x, dest, entry), h.regions)
    ensures SameAbove(old(h.regions), old(h.depth), h.regions, h.depth, dest)
  {
    ghost var f, direct, depth := h.regions, h.direct, h.depth;
    assert TreeAt(h.regions, depth, x);
    Detach(h, x, src);
    ghost var f2 := h.regions;
    StaysAbove(f, depth, f2, depth, x, dest);
    LiveWhenReported(f2, h.direct, depth, x);
    LiveWhenReported(f2, h.direct, depth, dest);
    h.SetParent(x, dest, entry);
    ghost var f3, depth3 := h.regions, h.depth;
    assert BalancedAt(f3, h.direct, x);
    var alive := h.StackDec(x, 1);
    HeldBy(h.regions, h.direct, depth3, dest, x);
    AddBack(direct, x, 1);
    StaysAbove(f, depth, h.regions, depth3, x, dest);
  }

  /** `y` has the same ancestors in both forests. */
  ghost predicate SameAbove(f: Forest, depth: map<RegionId, nat>, g: Forest, depth': map<RegionId, nat>, y: RegionId)
    requires Tree(f, depth) && Tree(g, depth') && y in f && y in g
  {
    forall a :: Within(g, depth', y, a) == Within(f, depth, y, a)
  }

  lemma StaysAbove(
    f: Forest, depth: map<RegionId, nat>, g: Forest, depth': map<RegionId, nat>, c: RegionId, y: RegionId)
    requires Tree(f, depth) && Tree(g, depth') && f.Keys == g.Keys && y in f && !Within(f, depth, y, c)
    requires forall z | z in f && z != c :: g[z].owner == f[z].owner
    ensures SameAbove(f, depth, g, depth', y)
  {
    forall a ensures Within(g, depth', y, a) == Within(f, depth, y, a) {
      UnchangedAbove(f, depth, g, depth', c, y, a);
    }
  }

  lemma {:induction false} UnchangedAbove(
    f: Forest, depth: map<RegionId, nat>, g: Forest, depth': map<RegionId, nat>, c: RegionId, y: RegionId, a: RegionId)
    requires Tree(f, depth) && Tree(g, depth') && f.Keys == g.Keys && y in f && !Within(f, depth, y, c)
    requires forall z | z in f && z != c :: g[z].owner == f[z].owner
    ensures Within(g, depth', y, a) == Within(f, depth, y, a)
    decreases depth[y]
  {
    assert TreeAt(f, depth, y) && TreeAt(g, depth', y);
    if f[y].HasParent() {
      UnchangedAbove(f, depth, g, depth', c, f[y].owner.region, a);
    }
  }

  lemma {:induction false} BelowParent(f: Forest, depth: map<RegionId, nat>, y: RegionId, x: RegionId)
    requires Tree(f, depth) && y in f && x in f && f[x].HasParent() && Within(f, depth, y, x)
    ensures Within(f, depth, y, f[x].owner.region)
    decreases depth[y]
  {
    assert TreeAt(f, depth, y);
    if y != x {
      BelowParent(f, depth, f[y].owner.region, x);
    } else {
      assert TreeAt(f, depth, x);
      assert Within(f, depth, f[x].owner.region, f[x].owner.region);
    }
  }

  /** On the way up from `x` to `src` the last step is from one of its children. */
  lemma {:induction false} ChildOnTheWay(f: Forest, depth: map<RegionId, nat>, src: RegionId, x: RegionId) returns (c: RegionId)
    requires Tree(f, depth) && x in f && x != src && Within(f, depth, x, src)
    ensures c in f && f[c].owner == Parent(src) && Within(f, depth, x, c)
    decreases depth[x]
  {
    assert TreeAt(f, depth, x);
    if f[x].owner == Parent(src) {
      c := x;
    } else {
      c := ChildOnTheWay(f, depth, src, f[x].owner.region);
    }
  }

  /** Only the one child above `dest`, if any, cannot be handed over to it; `dest` itself is not asked for. */
  lemma OneOnTheWay(f: Forest, depth: map<RegionId, nat>, src: RegionId, dest: RegionId, c: RegionId)
    requires Tree(f, depth) && dest in f && c in f && f[c].owner == Parent(src) && Within(f, depth, dest, c) && c != dest
    ensures f[dest].owner != Parent(src) && Above(f, depth, src, dest)
  {
    assert TreeAt(f, depth, dest) && TreeAt(f, depth, c);
    BelowParent(f, depth, dest, c);
    WithinDepth(f, depth, dest, c);
    AboveWithin(f, depth, src, dest);
    if f[dest].owner == Parent(src) {
      WithinDepth(f, depth, src, c);
    }
  }

  /** No ranking makes the regions a forest, or no reports explain their counts. */
  ghost predicate Broken(g: Forest) {
    forall depth: map<RegionId, nat>, direct: Counts :: !(Tree(g, depth) && Balanced(g, direct) && NonNegative(direct))
  }

  lemma {:induction false} RanksUp(
    f: Forest, depth: map<RegionId, nat>, g: Forest, depth': map<RegionId, nat>, c: RegionId, x: RegionId)
    requires Tree(f, depth) && Tree(g, depth') && f.Keys == g.Keys && x in f && c in f && Within(f, depth, x, c)
    requires forall z | z in f && z != c :: g[z].owner == f[z].owner
    ensures depth'[c] <= depth'[x] && TreeAt(g, depth', c)
    decreases depth[x]
  {
    assert TreeAt(f, depth, x) && TreeAt(g, depth', x);
    if x != c {
      RanksUp(f, depth, g, depth', c, f[x].owner.region);
    }
  }

  lemma ClosesCircle(f: Forest, depth: map<RegionId, nat>, g: Forest, c: RegionId, dest: RegionId)
    requires Tree(f, depth) && dest in f && c in f && Within(f, depth, dest, c)
    requires f.Keys == g.Keys && g[c].owner == Parent(dest) && forall z | z in f && z != c :: g[z].owner == f[z].owner
    ensures Broken(g)
  {
    forall depth': map<RegionId, nat> ensures !Tree(g, depth') {
      if Tree(g, depth') {
        RanksUp(f, depth, g, depth', c, dest);
        assert false;
      }
    }
  }

  /** `x` lies above `dest`: once `src` has lost it, it is hung below `dest`. */
  method CloseCircle(h: Heap, x: RegionId, entry: HeaderId, src: RegionId, dest: RegionId)
    requires h.Counted() && src in h.regions && !h.regions[src].IsFrameLocal() && h.direct[src] >= 1
    requires dest in h.regions && x in h.regions && h.regions[x].owner == Parent(src) && Within(h.regions, h.depth, dest, x)
    modifies h`regions, h`direct
    ensures SameButCounts(Adopted(old(h.regions), x, dest, entry), h.regions) && Broken(h.regions)
  {
    ghost var f, depth := h.regions, h.depth;
    Detach(h, x, src);
    // the assignments of `set_parent`
    h.regions := h.regions[x := h.regions[x].(owner := Parent(dest), entry := Some(entry))];
    ClosesCircle(f, depth, h.regions, x, dest);
  }

  /** The regions once `xs` have been handed over. */
  function HandedOver(f: Forest, dest: RegionId, subs: map<RegionId, HeaderId>, xs: set<RegionId>): Forest {
    map x | x in f :: if x in xs && x in subs then f[x].(owner := Parent(dest), entry := Some(subs[x])) else f[x]
  }

  lemma OneMoreHanded(f: Forest, g: Forest, k: Forest, dest: RegionId, subs: map<RegionId, HeaderId>, xs: set<RegionId>, x: RegionId)
    requires x in f && x in subs && SameButCounts(HandedOver(f, dest, subs, xs), g) && x in g
    requires SameButCounts(Adopted(g, x, dest, subs[x]), k)
    ensures SameButCounts(HandedOver(f, dest, subs, xs + {x}), k)
  {
  }

  /**
   In any order.  The model stops where a child of `src` above `dest` becomes a child of `dest`; the source does
   not look out for that, and from there on its cascades go in a circle.
   */
  method HandOverAll(h: Heap, subs: map<RegionId, HeaderId>, src: RegionId, dest: RegionId)
    returns (at: Option<RegionId>, ghost given: set<RegionId>)
    requires h.Counted() && src in h.regions && dest in h.regions && src != dest
    requires !h.regions[src].IsFrameLocal() && !h.regions[dest].IsFrameLocal() && h.direct[src] >= 1 && h.direct[dest] >= 1
    requires dest !in subs && forall x | x in subs :: x in h.regions && h.regions[x].owner == Parent(src)
    modifies h`regions, h`direct, h`depth
    ensures SameButCounts(HandedOver(old(h.regions), dest, subs, given), h.regions)
    ensures at.None? ==> h.Counted() && h.direct == old(h.direct) && given == subs.Keys
    ensures at.None? ==> forall x | x in subs :: !Within(old(h.regions), old(h.depth), dest, x)
    ensures at.Some? ==>
      && at.value in given && given <= subs.Keys && Within(old(h.regions), old(h.depth), dest, at.value)
      && Broken(h.regions)
  {
    ghost var f, depth := h.regions, h.depth;
    var todo := subs.Keys;
    given := {};
    while todo != {}
      invariant todo <= subs.Keys && given == subs.Keys - todo
      invariant h.Counted() && h.direct == old(h.direct)
      invariant SameButCounts(HandedOver(f, dest, subs, given), h.regions)
      invariant SameAbove(f, depth, h.regions, h.depth, dest)
      invariant forall x | x in given :: !Within(f, depth, dest, x)
      decreases todo
    {
      var x := PickOne(todo);
      ghost var g := h.regions;
      var above := h.IsAncestorOf(x, dest);
      AboveWithin(h.regions, h.depth, x, dest);
      if above {
        CloseCircle(h, x, subs[x], src, dest);
        OneMoreHanded(f, g, h.regions, dest, subs, given, x);
        given := given + {x};
        return Some(x), given;
      }
      HandOver(h, x, subs[x], src, dest);
      OneMoreHanded(f, g, h.regions, dest, subs, given, x);
      Without(subs.Keys, todo, x);
      todo := todo - {x};
      given := given + {x};
    }
    assert subs.Keys - {} == subs.Keys;
    at := None;
  }

  // ---------------------------------------------------------------- what the merge keeps

  ghost predicate Mergeable(f: Forest, depth: map<RegionId, nat>, dest: RegionId, src: RegionId)
    requires Tree(f, depth)
  {
    && dest in f && src in f && dest != src && !f[dest].IsFrameLocal() && !f[src].IsFrameLocal()
    && f[src].owner.Unowned? && !Within(f, depth, dest, src)
  }

  /** Children of `src`, but for `dest` itself, have become children of `dest`. */
  ghost predicate Regathered(f: Forest, g: Forest, dest: RegionId, src: RegionId) {
    && SameDepths(f, g)
    && forall x | x in f :: g[x].owner == if f[x].owner == Parent(src) && x != dest then Parent(dest) else f[x].owner
  }

  lemma MergedRefs(v: View, f: Forest, g: Forest, dest: RegionId, src: RegionId, y: RegionId)
    requires dest in f && src in f && dest != src && !f[dest].IsFrameLocal() && !f[src].IsFrameLocal() && SameDepths(f, g)
    requires Members(v, f)
    ensures |StackRefs(MovedView(v, f[src].members, dest), g, y)| ==
      if y == src then 0
      else if y == dest then |StackRefs(v, f, dest)| + |StackRefs(v, f, src)|
      else |StackRefs(v, f, y)|
  {
    var w, d := MovedView(v, f[src].members, dest), f[src].members;
    SitesMoved(v, d, dest);
    assert MembersAt(v, f, src);
    forall s ensures s in StackRefs(w, g, y) <==>
      y != src && (s in StackRefs(v, f, y) || (y == dest && s in StackRefs(v, f, src)))
    {
      assert StackSide(w, g, s) <==> StackSide(v, f, s);
    }
    if y == dest {
      assert StackRefs(w, g, y) == StackRefs(v, f, dest) + StackRefs(v, f, src);
      assert StackRefs(v, f, dest) !! StackRefs(v, f, src);
    } else if y == src {
      assert StackRefs(w, g, y) == {};
    } else {
      assert StackRefs(w, g, y) == StackRefs(v, f, y);
    }
  }

  lemma MergedSound(v: View, f: Forest, g: Forest, dest: RegionId, src: RegionId)
    requires dest in f && src in f && dest != src && !f[dest].IsFrameLocal() && !f[src].IsFrameLocal() && SameDepths(f, g)
    requires Sound(v, f)
    ensures var w := MovedView(v, f[src].members, dest); WellFormed(w, g) && RcExact(w) && Closed(w, g)
  {
    var w, d := MovedView(v, f[src].members, dest), f[src].members;
    SitesMoved(v, d, dest);
    assert MembersAt(v, f, src);
    RcExactAfter(v, d, dest);
    forall s | IsSite(w, s) && s.Field? && At(w, s).To?
      ensures At(w, s).target in w.headers && Outlives(g, w.headers[At(w, s).target].loc, w.headers[s.holder].loc)
    {
      assert Outlives(f, v.headers[At(v, s).target].loc, v.headers[s.holder].loc);
    }
  }

  lemma MergedCrossing(v: View, f: Forest, g: Forest, dest: RegionId, src: RegionId, s: Site, x: RegionId)
    requires dest in f && src in f && dest != src && !f[dest].IsFrameLocal() && !f[src].IsFrameLocal() && SameDepths(f, g)
    requires Members(v, f) && SingleEntry(v, f) && f[src].owner.Unowned? && f[dest].owner != Parent(src)
    ensures Crosses(MovedView(v, f[src].members, dest), g, s, x) <==> Crosses(v, f, s, x)
  {
    SitesMoved(v, f[src].members, dest);
    assert MembersAt(v, f, src);
    assert !Crosses(v, f, s, src);
    assert !(Crosses(v, f, s, dest) && s.holder in f[src].members);
  }

  lemma MergedEntries(v: View, f: Forest, g: Forest, dest: RegionId, src: RegionId)
    requires dest in f && src in f && dest != src && !f[dest].IsFrameLocal() && !f[src].IsFrameLocal()
    requires Members(v, f) && SingleEntry(v, f) && Entered(v, f) && f[src].owner.Unowned? && f[dest].owner != Parent(src)
    requires Regathered(f, g, dest, src)
    ensures var w := MovedView(v, f[src].members, dest); SingleEntry(w, g) && Entered(w, g)
  {
    var w := MovedView(v, f[src].members, dest);
    SitesMoved(v, f[src].members, dest);
    assert MembersAt(v, f, src);
    forall s, x
      ensures Crosses(w, g, s, x) <==> Crosses(v, f, s, x)
      ensures s.Content? && PointsInto(w, s, x) && x in f && !f[x].IsFrameLocal() ==> PointsInto(v, s, x)
    {
      MergedCrossing(v, f, g, dest, src, s, x);
    }
    forall x | x in g && g[x].HasParent() ensures EnteredAt(w, g, x) {
      assert EnteredAt(v, f, x);
    }
  }

  /** The counts of two regions agree if everything below them does. */
  lemma {:induction false} CountBelow(
    f: Forest, direct: Counts, depth: map<RegionId, nat>, g: Forest, direct': Counts, x: RegionId, height: nat)
    requires Tree(f, depth) && Balanced(f, direct) && Balanced(g, direct') && f.Keys == g.Keys && SameDepths(f, g)
    requires x in f && !f[x].IsFrameLocal() && forall y | y in f :: depth[y] <= depth[x] + height
    requires forall y | y in f && Within(f, depth, y, x) :: direct'[y] == direct[y]
    requires forall c, y | c in f && y in f && Within(f, depth, y, x) :: f[c].owner == Parent(y) <==> g[c].owner == Parent(y)
    ensures g[x].stackRc == f[x].stackRc
    decreases height
  {
    assert Within(f, depth, x, x);
    forall c | c in f && f[c].owner == Parent(x) ensures g[c].stackRc == f[c].stackRc {
      assert TreeAt(f, depth, c);
      forall y | y in f && Within(f, depth, y, c) ensures Within(f, depth, y, x) {
        BelowParent(f, depth, y, c);
      }
      CountBelow(f, direct, depth, g, direct', c, height - (depth[c] - depth[x]));
    }
    forall c ensures c in ActiveChildren(f, x) <==> c in ActiveChildren(g, x) {
    }
    assert ActiveChildren(f, x) == ActiveChildren(g, x);
    assert BalancedAt(f, direct, x) && BalancedAt(g, direct', x);
  }

  /** A child of either region keeps its count. */
  lemma ChildKeepsCount(
    f: Forest, direct: Counts, depth: map<RegionId, nat>, g: Forest, direct': Counts, dest: RegionId, src: RegionId, x: RegionId)
    requires Tree(f, depth) && Balanced(f, direct) && Balanced(g, direct') && Mergeable(f, depth, dest, src)
    requires Regathered(f, g, dest, src) && direct' == Add(Add(direct, dest, direct[src]), src, -direct[src])
    requires x in f && (f[x].owner == Parent(dest) || f[x].owner == Parent(src))
    ensures g[x].stackRc == f[x].stackRc
  {
    assert TreeAt(f, depth, x);
    forall y | y in f && Within(f, depth, y, x) ensures y != dest && y != src {
      BelowParent(f, depth, y, x);
      WithinDepth(f, depth, y, x);
      WithinDepth(f, depth, y, f[x].owner.region);
      assert TreeAt(f, depth, src);
    }
    var top := MaxDepth(depth, f.Keys);
    CountBelow(f, direct, depth, g, direct', x, top);
  }

  lemma MergedCount(
    f: Forest, direct: Counts, depth: map<RegionId, nat>, g: Forest, direct': Counts, dest: RegionId, src: RegionId)
    requires Tree(f, depth) && Balanced(f, direct) && Balanced(g, direct') && Mergeable(f, depth, dest, src)
    requires Regathered(f, g, dest, src) && direct' == Add(Add(direct, dest, direct[src]), src, -direct[src])
    ensures g[dest].stackRc == f[dest].stackRc + f[src].stackRc
  {
    forall x | x in f && (f[x].owner == Parent(dest) || f[x].owner == Parent(src)) ensures g[x].stackRc == f[x].stackRc {
      ChildKeepsCount(f, direct, depth, g, direct', dest, src, x);
    }
    Ways(f, depth, dest, src);
    forall c ensures c in ActiveChildren(g, dest) <==> c in ActiveChildren(f, dest) + ActiveChildren(f, src) {
    }
    assert ActiveChildren(g, dest) == ActiveChildren(f, dest) + ActiveChildren(f, src);
    assert ActiveChildren(f, dest) !! ActiveChildren(f, src);
    assert BalancedAt(f, direct, dest) && BalancedAt(f, direct, src) && BalancedAt(g, direct', dest);
  }

  // ---------------------------------------------------------------- the merge

  /** What `merge_regions` demands: two heap regions, the source not owned and held by a register. */
  ghost predicate Given(f: Forest, direct: Counts, depth: map<RegionId, nat>, dest: RegionId, src: RegionId)
    requires Tree(f, depth) && direct.Keys == f.Keys
  {
    && dest in f && src in f && dest != src && !f[dest].IsFrameLocal() && !f[src].IsFrameLocal()
    && f[src].owner.Unowned? && Live(f, depth, dest) && direct[src] >= 1
  }

  /** Every child of `src` is entered from one of its objects, so the scan finds them all. */
  lemma ScanFindsAll(
    v: View, f: Forest, depth: map<RegionId, nat>, g: Forest, dest: RegionId, src: RegionId, subs: map<RegionId, HeaderId>)
    requires Tree(f, depth) && dest in f && src in f && !f[src].IsFrameLocal()
    requires Members(v, f) && SingleEntry(v, f) && Entered(v, f)
    requires SameButCounts(f, g) && Scanned(v, g, src, dest, f[src].members, subs)
    ensures forall x :: x in subs <==> x in f && f[x].owner == Parent(src) && x != dest
    ensures forall x | x in subs :: EntersThrough(v, f, src, x, subs[x])
  {
    assert MembersAt(v, f, src);
    forall x | x in subs ensures EntersThrough(v, f, src, x, subs[x]) {
      var s :| Enters(v, g, src, dest, f[src].members, s, x) && At(v, s) == To(subs[x]);
      assert TreeAt(f, depth, x);
      assert Crosses(v, f, s, x);
    }
    forall x | x in f && f[x].owner == Parent(src) && x != dest ensures x in subs {
      assert EnteredAt(v, f, x);
      var s :| Crosses(v, f, s, x);
      assert TreeAt(f, depth, x);
      assert Enters(v, g, src, dest, f[src].members, s, x);
    }
  }

  /** `dest` is guarded, the children of `src` are found, and its objects move. */
  method MoveAcross(h: Heap, dest: RegionId, src: RegionId) returns (subs: map<RegionId, HeaderId>)
    requires h.Counted() && Consistent(h.Graph(), h.regions, h.direct)
    requires Given(h.regions, h.direct, h.depth, dest, src)
    modifies h`regions, h`headers, h`direct
    ensures h.Counted() && Members(h.Graph(), h.regions) && h.direct == Add(old(h.direct), dest, 1)
    ensures h.Graph() == MovedView(old(h.Graph()), old(h.regions)[src].members, dest)
    ensures forall x :: x in subs <==> x in old(h.regions) && old(h.regions)[x].owner == Parent(src) && x != dest
    ensures forall x | x in subs :: EntersThrough(old(h.Graph()), old(h.regions), src, x, subs[x])
    ensures h.regions.Keys == old(h.regions).Keys && forall x | x in h.regions ::
      h.regions[x] == old(h.regions)[x].(stackRc := h.regions[x].stackRc, members := h.regions[x].members)
  {
    hide TreeAt, BalancedAt, SingleEntry, Entered, RcExact, Closed, Scanned, Accounted, MovedView;
    ghost var v, f := h.Graph(), h.regions;
    h.StackInc(dest, 1);
    ghost var f1 := h.regions;
    var moving := h.regions[src].members;
    assert MembersAt(v, f, src);
    forall t ensures t in moving * h.headers.Keys <==> t in f[src].members {
    }
    assert moving * h.headers.Keys == f[src].members;
    subs := Scan(h.Graph(), h.regions, src, dest, moving * h.headers.Keys);
    ScanFindsAll(v, f, h.depth, f1, dest, src, subs);
    MembersKept(v, f, f1);
    MoveHeaders(h, moving, dest, v);
  }

  /** `src` hands everything over but its own count, unless a circle closes. */
  method Gather(h: Heap, dest: RegionId, src: RegionId) returns (at: Option<RegionId>)
    requires h.Counted() && Consistent(h.Graph(), h.regions, h.direct)
    requires Given(h.regions, h.direct, h.depth, dest, src)
    modifies h`regions, h`headers, h`direct, h`depth
    ensures h.Graph() == MovedView(old(h.Graph()), old(h.regions)[src].members, dest)
    ensures at.None? ==>
      && h.Counted() && Members(h.Graph(), h.regions) && h.direct == Add(old(h.direct), dest, 1)
      && Regathered(old(h.regions), h.regions, dest, src)
      && EntriesFollow(h.Graph(), old(h.regions), h.regions)
      && (forall x | x in h.regions :: h.regions[x].finalizing == old(h.regions)[x].finalizing)
    ensures at.None? <==>
      old(h.regions)[dest].owner == Parent(src) || !Within(old(h.regions), old(h.depth), dest, src)
    ensures at.Some? ==>
      && at.value in old(h.regions) && old(h.regions)[at.value].owner == Parent(src) && at.value != dest
      && Within(old(h.regions), old(h.depth), dest, at.value)
      && h.regions.Keys == old(h.regions).Keys && h.regions[at.value].owner == Parent(dest) && Broken(h.regions)
  {
    hide Consistent, MovedView, Within, TreeAt, BalancedAt, MembersAt, EntersThrough, EntriesFollow;
    ghost var v, f, direct, depth := h.Graph(), h.regions, h.direct, h.depth;
    var subs := MoveAcross(h, dest, src);
    ghost var f2, w := h.regions, h.Graph();
    ghost var given;
    at, given := HandOverAll(h, subs, src, dest);
    Gathered(f, f2, h.regions, dest, src, subs, given);
    GoesThrough(f, depth, f2, dest, src, subs, at);
    if at.None? {
      MembersKept(w, f2, h.regions);
      ConsistentMembers(v, f, direct);
      GatheredEntries(v, f, f2, h.regions, depth, dest, src, subs);
    }
  }

  /** The reference that the scan has met first is the entry from the new parent. */
  lemma GatheredEntries(
    v: View, f: Forest, f2: Forest, g: Forest, depth: map<RegionId, nat>, dest: RegionId, src: RegionId,
    subs: map<RegionId, HeaderId>)
    requires Tree(f, depth) && src in f && dest in f && !f[dest].IsFrameLocal() && Members(v, f) && dest != src
    requires f.Keys == f2.Keys && forall x | x in f :: f2[x].owner == f[x].owner && f2[x].entry == f[x].entry
    requires forall x :: x in subs <==> x in f && f[x].owner == Parent(src) && x != dest
    requires forall x | x in subs :: EntersThrough(v, f, src, x, subs[x])
    requires SameDepths(f, g) && SameButCounts(HandedOver(f2, dest, subs, subs.Keys), g)
    ensures EntriesFollow(MovedView(v, f[src].members, dest), f, g)
  {
    hide MovedView, EntersThrough, Members;
    var w := MovedView(v, f[src].members, dest);
    forall x | x in f ensures EntryFollows(w, f, g, x) {
      if x in subs {
        assert TreeAt(f, depth, x);
        EntryMoves(v, f, g, dest, src, x, subs[x]);
      }
    }
  }

  lemma EntryMoves(v: View, f: Forest, g: Forest, dest: RegionId, src: RegionId, x: RegionId, t: HeaderId)
    requires src in f && dest in f && !f[dest].IsFrameLocal() && Members(v, f) && SameDepths(f, g)
    requires x != src && x != dest && EntersThrough(v, f, src, x, t)
    ensures EntersThrough(MovedView(v, f[src].members, dest), g, dest, x, t)
  {
    var w := MovedView(v, f[src].members, dest);
    SitesMoved(v, f[src].members, dest);
    hide MovedView;
    assert MembersAt(v, f, src);
    var a :| Crosses(v, f, a, x) && At(v, a) == To(t) && LivesIn(v, a.holder, src);
    assert Crosses(w, g, a, x) && At(w, a) == To(t) && LivesIn(w, a.holder, dest);
  }

  lemma ConsistentMembers(v: View, f: Forest, direct: Counts)
    requires Consistent(v, f, direct)
    ensures Members(v, f)
  {
  }

  /** What the loop has come to, in terms of the regions before the merge. */
  lemma Gathered(
    f: Forest, f2: Forest, g: Forest, dest: RegionId, src: RegionId, subs: map<RegionId, HeaderId>, given: set<RegionId>)
    requires f.Keys == f2.Keys && forall x | x in f :: f2[x].owner == f[x].owner && f2[x].frameDepth == f[x].frameDepth
    requires forall x :: x in subs <==> x in f && f[x].owner == Parent(src) && x != dest
    requires SameButCounts(HandedOver(f2, dest, subs, given), g) && given <= subs.Keys
    ensures given == subs.Keys ==> Regathered(f, g, dest, src)
    ensures forall x | x in given :: x in g && g[x].owner == Parent(dest)
  {
  }

  /** The loop goes through unless a child of `src` lies above `dest`. */
  lemma GoesThrough(
    f: Forest, depth: map<RegionId, nat>, f2: Forest, dest: RegionId, src: RegionId,
    subs: map<RegionId, HeaderId>, at: Option<RegionId>)
    requires Tree(f, depth) && Tree(f2, depth) && f.Keys == f2.Keys && dest in f && src in f && dest != src
    requires forall x | x in f :: f2[x].owner == f[x].owner
    requires forall x :: x in subs <==> x in f && f[x].owner == Parent(src) && x != dest
    requires at.None? ==> forall x | x in subs :: !Within(f2, depth, dest, x)
    requires at.Some? ==> at.value in subs && Within(f2, depth, dest, at.value)
    ensures at.None? <==> f[dest].owner == Parent(src) || !Within(f, depth, dest, src)
    ensures at.Some? ==> Within(f, depth, dest, at.value)
  {
    forall x ensures Within(f, depth, dest, x) == Within(f2, depth, dest, x) {
      SameOwnersAbove(f, depth, f2, dest, x);
    }
    hide Within;
    if at.Some? {
      OneOnTheWay(f, depth, src, dest, at.value);
      AboveWithin(f, depth, src, dest);
    } else if Within(f, depth, dest, src) {
      var c := ChildOnTheWay(f, depth, src, dest);
    }
  }

  lemma {:induction false} SameOwnersAbove(f: Forest, depth: map<RegionId, nat>, g: Forest, y: RegionId, a: RegionId)
    requires Tree(f, depth) && Tree(g, depth) && y in f && f.Keys == g.Keys && forall x | x in f :: g[x].owner == f[x].owner
    ensures Within(f, depth, y, a) == Within(g, depth, y, a)
    decreases depth[y]
  {
    assert TreeAt(f, depth, y) && TreeAt(g, depth, y);
    if f[y].HasParent() {
      SameOwnersAbove(f, depth, g, f[y].owner.region, a);
    }
  }

  /** With no child left, the count of `src` is what was reported to it; with `dest` left it is one more. */
  lemma OnlyReports(f: Forest, g: Forest, direct: Counts, dest: RegionId, src: RegionId)
    requires Balanced(g, direct) && Regathered(f, g, dest, src) && dest in g && dest != src && src in g && !g[src].IsFrameLocal()
    ensures f[dest].owner != Parent(src) ==> g[src].stackRc == direct[src] && ActiveChildren(g, src) == {}
    ensures f[dest].owner == Parent(src) && g[dest].stackRc > 0 ==> g[src].stackRc == direct[src] + 1
  {
    assert BalancedAt(g, direct, src);
    forall c ensures c in ActiveChildren(g, src) <==> c == dest && f[dest].owner == Parent(src) && g[dest].stackRc > 0 {
    }
    assert ActiveChildren(g, src) == if f[dest].owner == Parent(src) && g[dest].stackRc > 0 then {dest} else {};
  }

  /** The reports move from `src` to `dest`, and the guard goes. */
  method PassCount(h: Heap, dest: RegionId, src: RegionId, ghost f: Forest) returns (srcRc: nat)
    requires h.Counted() && Regathered(f, h.regions, dest, src)
    requires dest in f && src in f && dest != src && !f[dest].IsFrameLocal() && !f[src].IsFrameLocal()
    requires h.regions[src].owner.Unowned? && h.direct[src] >= 1 && h.direct[dest] >= 1
    modifies h`regions, h`direct
    ensures h.Counted() && SameButCounts(old(h.regions), h.regions) && Regathered(f, h.regions, dest, src)
    ensures SameEntries(old(h.regions), h.regions)
    ensures srcRc == h.regions[src].stackRc == old(h.direct)[src] + One(f[dest].owner == Parent(src))
    ensures h.direct == Add(Add(old(h.direct), dest, srcRc), dest, -1) && h.regions[dest].stackRc > 0
  {
    ghost var g, direct := h.regions, h.direct;
    srcRc := h.regions[src].stackRc;
    LiveWhenReported(g, direct, h.depth, dest);
    OnlyReports(f, g, direct, dest, src);
    if srcRc > 0 {
      h.StackInc(dest, srcRc);
    }
    ghost var g1 := h.regions;
    assert h.direct == Add(direct, dest, srcRc);
    assert BalancedAt(g1, h.direct, dest);
    var alive := h.StackDec(dest, 1);
    GuardHolds(g1, h.regions, h.direct, h.depth, dest, alive);
    OnlyReports(f, h.regions, h.direct, dest, src);
  }

  ghost predicate SameEntries(f: Forest, g: Forest) {
    f.Keys == g.Keys && forall x | x in f :: g[x].entry == f[x].entry
  }

  lemma EntriesStillSame(f: Forest, g: Forest, k: Forest)
    requires SameEntries(f, g) && SameEntries(g, k)
    ensures SameEntries(f, k)
  {
  }

  /** The emptied source gives up its own count and is freed. */
  method Retire(h: Heap, dest: RegionId, src: RegionId, srcRc: nat, ghost f: Forest)
    requires h.Counted() && Regathered(f, h.regions, dest, src)
    requires dest in f && f[dest].owner != Parent(src) && src in f && dest != src && !f[src].IsFrameLocal() && h.regions[src].owner.Unowned?
    requires h.direct[src] == srcRc
    modifies h`regions, h`direct
    ensures h.Counted() && Regathered(f, h.regions, dest, src)
    ensures h.direct == Add(old(h.direct), src, -(srcRc as int)) && SameEntries(old(h.regions), h.regions)
    ensures forall x | x in h.regions ::
      && h.regions[x].members == old(h.regions)[x].members
      && h.regions[x].finalizing == (old(h.regions)[x].finalizing || x == src)
  {
    OnlyReports(f, h.regions, h.direct, dest, src);
    if srcRc > 0 {
      var kept := h.StackDec(src, srcRc);
      OnlyReports(f, h.regions, h.direct, dest, src);
    } else {
      AddBack(h.direct, src, 0);
      h.FreeRegion(src);
    }
  }

  /** The same when `dest` is still a child: `stack_dec` takes the whole count away, and the parent of `dest` is freed. */
  method RetireParent(h: Heap, dest: RegionId, src: RegionId, srcRc: nat)
    requires dest in h.regions && src in h.regions && dest != src && h.regions[dest].owner == Parent(src)
    requires !h.regions[src].IsFrameLocal() && h.regions[src].owner.Unowned? && h.regions[src].stackRc == srcRc
    requires h.regions[dest].stackRc > 0
    modifies h`regions
    ensures h.regions == old(h.regions)[src := old(h.regions)[src].(stackRc := 0, finalizing := true)]
    ensures SameEntries(old(h.regions), h.regions)
    ensures Broken(h.regions)
  {
    // the assignments of `stack_dec` and `free_region`
    h.regions := h.regions[src := h.regions[src].(stackRc := h.regions[src].stackRc - srcRc)];
    if h.regions[src].stackRc == 0 && !h.regions[src].HasOwner() {
      h.regions := h.regions[src := h.regions[src].(finalizing := true)];
    }
    FreedParent(h.regions, dest, src);
  }

  /** A region that counts cannot be a child of one that does not. */
  lemma FreedParent(g: Forest, dest: RegionId, src: RegionId)
    requires dest in g && src in g && g[dest].owner == Parent(src) && !g[src].IsFrameLocal()
    requires g[src].stackRc == 0 && g[dest].stackRc > 0
    ensures Broken(g)
  {
    forall depth: map<RegionId, nat>, direct: Counts ensures !(Tree(g, depth) && Balanced(g, direct) && NonNegative(direct)) {
      assert Balanced(g, direct) ==> BalancedAt(g, direct, src);
      assert dest in ActiveChildren(g, src);
    }
  }

  /** The count passes on and the source is freed; whether `dest` is its child only decides what that does. */
  method Finish(
    h: Heap, dest: RegionId, src: RegionId, ghost v: View, ghost f: Forest, ghost direct: Counts, ghost depth: map<RegionId, nat>)
    returns (whole: bool)
    requires Tree(f, depth) && Balanced(f, direct) && NonNegative(direct) && Consistent(v, f, direct)
    requires Given(f, direct, depth, dest, src) && (f[dest].owner == Parent(src) || !Within(f, depth, dest, src))
    requires h.Counted() && Members(h.Graph(), h.regions) && h.direct == Add(direct, dest, 1)
    requires h.Graph() == MovedView(v, f[src].members, dest) && Regathered(f, h.regions, dest, src)
    requires forall x | x in h.regions :: h.regions[x].finalizing == f[x].finalizing
    modifies h`regions, h`direct
    ensures SameEntries(old(h.regions), h.regions)
    ensures whole <==> f[dest].owner != Parent(src)
    ensures Regathered(f, h.regions, dest, src) && h.regions[src].stackRc == 0
    ensures whole ==>
      && h.Counted() && Consistent(h.Graph(), h.regions, h.direct)
      && h.regions[dest].stackRc == f[dest].stackRc + f[src].stackRc
      && h.regions[dest].members == f[dest].members + f[src].members
      && (forall x | x in h.regions :: h.regions[x].finalizing == (f[x].finalizing || x == src))
    ensures !whole ==> Broken(h.regions) && h.regions[src].finalizing && h.regions[dest].stackRc > 0
  {
    hide Consistent, MovedView, Within, TreeAt, BalancedAt, MembersAt, Broken, Live, SameEntries;
    ghost var w, g := h.Graph(), h.regions;
    var srcRc := PassCount(h, dest, src, f);
    if h.regions[dest].owner == Parent(src) {
      ghost var k := h.regions;
      RetireParent(h, dest, src, srcRc);
      EntriesStillSame(g, k, h.regions);
      return false;
    }
    ghost var k := h.regions;
    Retire(h, dest, src, srcRc, f);
    EntriesStillSame(g, k, h.regions);
    MembersKept(w, g, h.regions);
    AddedUp(direct, dest, src, direct[src]);
    Merges(v, f, direct, depth, h.regions, h.direct, dest, src);
    whole := true;
  }

  /**
   What becomes of a merge: `Dangling` leaves the destination a child of the source that has been freed, and
   `Circular` hangs the child `at` of the source, which lies above the destination, below the destination.
   */
  datatype Ending = Merged | Dangling | Circular(at: RegionId)

  /**
   `merge_regions`, for a source that nobody owns and that a register holds.  If the source is not above the
   destination, every object moves, every child gets the new parent, the counts add up, only the emptied source is
   freed, and every invariant is kept.  If it is, which the source does not look out for, the regions that it leaves
   are no forest with counts, whatever has been reported.
   */
  method MergeRegions(h: Heap, dest: RegionId, src: RegionId) returns (outcome: Ending)
    requires h.Counted() && Consistent(h.Graph(), h.regions, h.direct)
    requires Given(h.regions, h.direct, h.depth, dest, src)
    modifies h`regions, h`headers, h`direct, h`depth
    ensures h.Graph() == MovedView(old(h.Graph()), old(h.regions)[src].members, dest)
    ensures outcome.Merged? <==> !Within(old(h.regions), old(h.depth), dest, src)
    ensures outcome.Dangling? <==> old(h.regions)[dest].owner == Parent(src)
    ensures outcome.Merged? ==>
      && h.Counted() && Consistent(h.Graph(), h.regions, h.direct) && Regathered(old(h.regions), h.regions, dest, src)
      && h.regions[src].stackRc == 0
      && h.regions[dest].stackRc == old(h.regions[dest].stackRc) + old(h.regions[src].stackRc)
      && h.regions[dest].members == old(h.regions)[dest].members + old(h.regions)[src].members
      && (forall x | x in h.regions :: h.regions[x].finalizing == (old(h.regions)[x].finalizing || x == src))
    ensures !outcome.Circular? ==> EntriesFollow(h.Graph(), old(h.regions), h.regions)
    ensures !outcome.Merged? ==> Broken(h.regions)
    ensures outcome.Dangling? ==>
      && Regathered(old(h.regions), h.regions, dest, src)
      && h.regions[src].finalizing && h.regions[src].stackRc == 0 && h.regions[dest].stackRc > 0
    ensures outcome.Circular? ==>
      && outcome.at in old(h.regions) && old(h.regions)[outcome.at].owner == Parent(src)
      && Above(old(h.regions), old(h.depth), outcome.at, dest)
      && outcome.at in h.regions && h.regions[outcome.at].owner == Parent(dest)
  {
    hide Consistent, MovedView, Within, TreeAt, BalancedAt, MembersAt, Broken, Live;
    ghost var v, f, direct, depth := h.Graph(), h.regions, h.direct, h.depth;
    LiveWhenReported(f, direct, depth, src);
    var at := Gather(h, dest, src);
    Ways(f, depth, dest, src);
    if at.Some? {
      AboveWithin(f, depth, at.value, dest);
      return Circular(at.value);
    }
    ghost var g := h.regions;
    var whole := Finish(h, dest, src, v, f, direct, depth);
    FollowOn(h.Graph(), f, g, h.regions);
    outcome := if whole then Merged else Dangling;
  }

  lemma FollowOn(v: View, f: Forest, g: Forest, k: Forest)
    requires EntriesFollow(v, f, g) && SameDepths(g, k)
    requires SameEntries(g, k) && forall x | x in g :: k[x].owner == g[x].owner
    ensures EntriesFollow(v, f, k)
  {
    forall x | x in f ensures EntryFollows(v, f, k, x) {
      assert EntryFollows(v, f, g, x);
      if g[x].owner != f[x].owner && g[x].HasParent() {
        var s, t := g[x].owner.region, g[x].entry.value;
        var a :| Crosses(v, g, a, x) && At(v, a) == To(t) && LivesIn(v, a.holder, s);
        assert Crosses(v, k, a, x);
      }
    }
  }

  lemma AddedUp(direct: Counts, dest: RegionId, src: RegionId, n: int)
    requires dest in direct && src in direct
    ensures Add(Add(Add(Add(direct, dest, 1), dest, n), dest, -1), src, -n) == Add(Add(direct, dest, n), src, -n)
  {
  }

  lemma Ways(f: Forest, depth: map<RegionId, nat>, dest: RegionId, src: RegionId)
    requires Tree(f, depth) && dest in f && src in f
    ensures f[dest].owner == Parent(src) ==> Within(f, depth, dest, src)
  {
    assert TreeAt(f, depth, dest);
    assert Within(f, depth, src, src);
  }

  lemma Merges(
    v: View, f: Forest, direct: Counts, depth: map<RegionId, nat>, g: Forest, direct': Counts, dest: RegionId, src: RegionId)
    requires Tree(f, depth) && Balanced(f, direct) && Balanced(g, direct') && Mergeable(f, depth, dest, src)
    requires Consistent(v, f, direct) && Regathered(f, g, dest, src)
    requires Members(MovedView(v, f[src].members, dest), g)
    requires direct' == Add(Add(direct, dest, direct[src]), src, -direct[src])
    ensures Consistent(MovedView(v, f[src].members, dest), g, direct')
    ensures g[dest].stackRc == f[dest].stackRc + f[src].stackRc && g[src].stackRc == 0
    ensures g[dest].members == f[dest].members + f[src].members
  {
    var w := MovedView(v, f[src].members, dest);
    assert f[dest].owner != Parent(src) by {
      assert TreeAt(f, depth, dest);
      assert Within(f, depth, src, src);
    }
    MergedSound(v, f, g, dest, src);
    MergedEntries(v, f, g, dest, src);
    MergedCount(f, direct, depth, g, direct', dest, src);
    OnlyReports(f, g, direct', dest, src);
    forall y | y in g && !g[y].IsFrameLocal() ensures AccountedAt(w, g, direct', y) {
      assert AccountedAt(v, f, direct, y) && AccountedAt(v, f, direct, src);
      MergedRefs(v, f, g, dest, src, y);
    }
    SitesMoved(v, f[src].members, dest);
    assert MembersAt(v, f, dest) && MembersAt(v, f, src) && MembersAt(w, g, dest);
    forall t ensures t in g[dest].members <==> t in f[dest].members + f[src].members {
      assert LivesIn(w, t, dest) <==> LivesIn(v, t, dest) || LivesIn(v, t, src);
    }
  }
}
