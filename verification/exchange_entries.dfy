/**
 The entry recorded for a region (vbci/region.h:165-193), on which freezing decides whether the region loses its owner
 (vbci/freeze.cc:305-308): whether an exchange keeps it what the reference from the parent refers to.
 */
module ExchangeEntries {
  import opened Collections
  import opened Regions
  import opened Graphs
  import opened Heaps
  import opened Drags
  import opened DragCommit
  import opened DragExact
  import opened WriteBarrier
  import opened Exchanges

  /** What `Exchanges.Exchange` states of a store that is done. */
  ghost predicate Done(
    v: View, f: Forest, w: View, g: Forest, o: HeaderId, i: int, j: int, s: RegionId, isMove: bool, above: bool,
    p: Plan, d: set<HeaderId>, subs: map<RegionId, HeaderId>, taken: Option<RegionId>)
  {
    && Sound(v, f) && SingleEntry(v, f) && Accepted(v, f, o, i, j, s, isMove, above, p)
    && (if p.dragInto.Some? then
          && v.registers[j].To? && DragsTo(v, f, s, v.registers[j].target, d) && Adopts(v, f, s, d, subs)
          && taken == TakenOver(v, f, d, p.orphan)
        else
          d == {} && subs == map[] && taken.None?)
    && o in MovedView(v, d, s).headers && 0 <= i < |MovedView(v, d, s).headers[o].fields|
    && w == Stored(MovedView(v, d, s), o, i, j, WithOrphan(p, taken))
    && Rehung(v, f, g, j, s, p, subs, taken) && EntriesFollow(w, f, g)
  }

  lemma StoredMoved(v: View, f: Forest, s: RegionId, o: HeaderId, i: int, j: int, p: Plan, d: set<HeaderId>)
    requires Storing(v, f, o, i, j, s) && forall t | t in d :: FrameLocal(v, f, t)
    ensures var u := MovedView(v, d, s);
      && o !in d && o in u.headers && 0 <= i < |u.headers[o].fields|
      && var w := Stored(u, o, i, j, p);
      && w.headers.Keys == v.headers.Keys
      && (forall t | t in v.headers :: w.headers[t].loc == if t in d then InRegion(s) else v.headers[t].loc)
      && (forall a :: IsSite(w, a) <==> IsSite(v, a) || a == Register(|v.registers|))
      && (forall a: Site | IsSite(v, a) && a.Field? && a != Field(o, i) :: At(w, a) == At(v, a))
      && At(w, Field(o, i)) == v.registers[j]
  {
    SitesMoved(v, d, s);
    StoredSites(MovedView(v, d, s), o, i, j, p);
  }

  /** The store seen from the graph before it. */
  lemma Sites(
    v: View, f: Forest, w: View, g: Forest, o: HeaderId, i: int, j: int, s: RegionId, isMove: bool, above: bool,
    p: Plan, d: set<HeaderId>, subs: map<RegionId, HeaderId>, taken: Option<RegionId>)
    requires Done(v, f, w, g, o, i, j, s, isMove, above, p, d, subs, taken)
    ensures s in f && !f[s].IsFrameLocal() && SameDepths(f, g) && o in v.headers && o !in d
    ensures forall t | t in d :: FrameLocal(v, f, t)
    ensures w.headers.Keys == v.headers.Keys
    ensures forall t | t in v.headers :: w.headers[t].loc == if t in d then InRegion(s) else v.headers[t].loc
    ensures forall a :: IsSite(w, a) <==> IsSite(v, a) || a == Register(|v.registers|)
    ensures forall a: Site | IsSite(v, a) && a.Field? && a != Field(o, i) :: At(w, a) == At(v, a)
    ensures At(w, Field(o, i)) == v.registers[j]
  {
    hide Stored, MovedView, RcExact, Members, Closed, SingleEntry, EntriesFollow, Adopts, Planned;
    forall t | t in d ensures FrameLocal(v, f, t) {
      assert Draggable(v, f, s, t);
    }
    StoredMoved(v, f, s, o, i, j, WithOrphan(p, taken), d);
  }

  /** The slot enters a region with the incoming value, unless that was dragged into `s`. */
  lemma SlotAfter(
    v: View, f: Forest, w: View, g: Forest, o: HeaderId, i: int, j: int, s: RegionId, isMove: bool, above: bool,
    p: Plan, d: set<HeaderId>, subs: map<RegionId, HeaderId>, taken: Option<RegionId>, x: RegionId)
    requires Done(v, f, w, g, o, i, j, s, isMove, above, p, d, subs, taken)
    ensures Crosses(w, g, Field(o, i), x) <==> Incoming(v, j) == InRegion(x) && x in f && !f[x].IsFrameLocal() && x != s
    ensures Crosses(w, g, Field(o, i), x) ==> d == {} && p.dragInto.None?
  {
    hide RcExact, Members, Closed, SingleEntry, EntriesFollow, Adopts, Stored, MovedView, Rehung;
    Sites(v, f, w, g, o, i, j, s, isMove, above, p, d, subs, taken);
    OutgoingKnown(v, f, o, i, j, s);
    IncomingKnown(v, f, j);
    HeapPlan(v, f, isMove, s, Outgoing(v, o, i), Incoming(v, j), above, p);
    if p.dragInto.Some? {
      assert Draggable(v, f, s, v.registers[j].target) && v.registers[j].target in d;
    }
  }

  /** Other fields cross as they did, and dragged ones where they lead into another region. */
  lemma OthersAfter(
    v: View, f: Forest, w: View, g: Forest, o: HeaderId, i: int, j: int, s: RegionId, isMove: bool, above: bool,
    p: Plan, d: set<HeaderId>, subs: map<RegionId, HeaderId>, taken: Option<RegionId>, a: Site, x: RegionId)
    requires Done(v, f, w, g, o, i, j, s, isMove, above, p, d, subs, taken) && a != Field(o, i)
    ensures Crosses(w, g, a, x) <==>
      if a.Field? && a.holder in d then a in DraggedInto(v, d, x) && x in f && !f[x].IsFrameLocal() && x != s
      else Crosses(v, f, a, x)
    ensures Crosses(w, g, a, x) ==> IsSite(v, a) && At(w, a) == At(v, a)
  {
    hide RcExact, Members, SingleEntry, EntriesFollow, Adopts, Stored, MovedView, Rehung, Planned, FrozenClosed;
    Sites(v, f, w, g, o, i, j, s, isMove, above, p, d, subs, taken);
    if a.Field? && IsSite(v, a) {
      assert At(v, a).To? && At(v, a).target in d && a.holder in v.headers && a.holder !in d ==> !InHeapRegion(v, f, a.holder);
    }
  }

  /** A region that had no owner is entered once, and through the entry recorded for it. */
  lemma NewEntry(
    v: View, f: Forest, w: View, g: Forest, o: HeaderId, i: int, j: int, s: RegionId, isMove: bool, above: bool,
    p: Plan, d: set<HeaderId>, subs: map<RegionId, HeaderId>, taken: Option<RegionId>, a: Site, x: RegionId)
    requires Done(v, f, w, g, o, i, j, s, isMove, above, p, d, subs, taken)
    requires Crosses(w, g, a, x) && x in f && f[x].owner.Unowned?
    ensures EntryIs(g, x, At(w, a))
  {
    hide RcExact, Members, Closed, Stored, MovedView, DraggedInto;
    Sites(v, f, w, g, o, i, j, s, isMove, above, p, d, subs, taken);
    OutgoingKnown(v, f, o, i, j, s);
    HeapPlan(v, f, isMove, s, Outgoing(v, o, i), Incoming(v, j), above, p);
    SlotAfter(v, f, w, g, o, i, j, s, isMove, above, p, d, subs, taken, x);
    if a != Field(o, i) {
      OthersAfter(v, f, w, g, o, i, j, s, isMove, above, p, d, subs, taken, a, x);
    }
    assert g[x].owner == Parent(s) && EntryFollows(w, f, g, x);
    var b :| Crosses(w, g, b, x) && At(w, b) == To(g[x].entry.value);
    if b != Field(o, i) {
      OthersAfter(v, f, w, g, o, i, j, s, isMove, above, p, d, subs, taken, b, x);
    }
    if a != b {
      OneElement(DraggedInto(v, d, x), a, b);
    }
  }

  /** A region that had a parent and keeps it keeps its entry. */
  lemma OldEntry(
    v: View, f: Forest, w: View, g: Forest, o: HeaderId, i: int, j: int, s: RegionId, isMove: bool, above: bool,
    p: Plan, d: set<HeaderId>, subs: map<RegionId, HeaderId>, taken: Option<RegionId>, a: Site, x: RegionId)
    requires Done(v, f, w, g, o, i, j, s, isMove, above, p, d, subs, taken)
    requires Crosses(w, g, a, x) && a != Field(o, i) && x in f && !f[x].owner.Unowned?
    ensures x in g && g[x].owner == f[x].owner && g[x].entry == f[x].entry
  {
    hide RcExact, Members, Closed, Stored, MovedView, DraggedInto;
    Sites(v, f, w, g, o, i, j, s, isMove, above, p, d, subs, taken);
    OutgoingKnown(v, f, o, i, j, s);
    HeapPlan(v, f, isMove, s, Outgoing(v, o, i), Incoming(v, j), above, p);
    OthersAfter(v, f, w, g, o, i, j, s, isMove, above, p, d, subs, taken, a, x);
    assert WithOrphan(p, taken).orphan != Some(x);
    assert EntryFollows(w, f, g, x);
  }

  /** Every dragged reference into a child of the destination refers to the entry recorded for it. */
  ghost predicate DragsToEntries(v: View, f: Forest, s: RegionId, d: set<HeaderId>) {
    forall a, x | DragsIntoChild(v, f, s, d, a, x) :: EntryIs(f, x, At(v, a))
  }

  ghost predicate DragsIntoChild(v: View, f: Forest, s: RegionId, d: set<HeaderId>, a: Site, x: RegionId) {
    x in f && !f[x].IsFrameLocal() && x != s && f[x].owner == Parent(s) && a in DraggedInto(v, d, x)
  }

  /** Entries stay exact if and only if nothing is swapped inside a sub-region and dragged references meet the entries. */
  lemma EntriesAfter(
    v: View, f: Forest, w: View, g: Forest, o: HeaderId, i: int, j: int, s: RegionId, isMove: bool, above: bool,
    p: Plan, d: set<HeaderId>, subs: map<RegionId, HeaderId>, taken: Option<RegionId>)
    requires Done(v, f, w, g, o, i, j, s, isMove, above, p, d, subs, taken) && EntriesExact(v, f)
    ensures EntriesExact(w, g) <==>
      !SwapsInside(InRegion(s), Outgoing(v, o, i), Incoming(v, j), f) && DragsToEntries(v, f, s, d)
  {
    hide Crosses, DraggedInto, SwapsInside, Sound, SingleEntry, DragsTo, Adopts, TakenOver, Stored, MovedView, Rehung, EntriesFollow;
    if SwapsInside(InRegion(s), Outgoing(v, o, i), Incoming(v, j), f) {
      SwappedEntry(v, f, w, g, o, i, j, s, isMove, above, p, d, subs, taken);
      return;
    }
    forall a, x | Crosses(w, g, a, x) && !DragsIntoChild(v, f, s, d, a, x) ensures x in g && IsSite(w, a) && EntryIs(g, x, At(w, a)) {
      KeptEntry(v, f, w, g, o, i, j, s, isMove, above, p, d, subs, taken, a, x);
    }
    forall a, x | DragsIntoChild(v, f, s, d, a, x)
      ensures Crosses(w, g, a, x) && IsSite(w, a) && IsSite(v, a) && At(w, a) == At(v, a)
      ensures x in f && x in g && (EntryIs(g, x, At(w, a)) <==> EntryIs(f, x, At(v, a)))
    {
      ChildEntry(v, f, w, g, o, i, j, s, isMove, above, p, d, subs, taken, a, x);
    }
    CrossingsAreSites(w, g);
  }

  lemma CrossingsAreSites(v: View, f: Forest)
    ensures forall a, x | Crosses(v, f, a, x) :: IsSite(v, a) && x in f
  {
  }

  lemma ChildEntry(
    v: View, f: Forest, w: View, g: Forest, o: HeaderId, i: int, j: int, s: RegionId, isMove: bool, above: bool,
    p: Plan, d: set<HeaderId>, subs: map<RegionId, HeaderId>, taken: Option<RegionId>, a: Site, x: RegionId)
    requires Done(v, f, w, g, o, i, j, s, isMove, above, p, d, subs, taken) && DragsIntoChild(v, f, s, d, a, x)
    ensures Crosses(w, g, a, x) && IsSite(w, a) && IsSite(v, a) && At(w, a) == At(v, a)
    ensures x in f && x in g && g[x].entry == f[x].entry
  {
    hide Done;
    Sites(v, f, w, g, o, i, j, s, isMove, above, p, d, subs, taken);
    OthersAfter(v, f, w, g, o, i, j, s, isMove, above, p, d, subs, taken, a, x);
    OldEntry(v, f, w, g, o, i, j, s, isMove, above, p, d, subs, taken, a, x);
  }

  lemma KeptEntry(
    v: View, f: Forest, w: View, g: Forest, o: HeaderId, i: int, j: int, s: RegionId, isMove: bool, above: bool,
    p: Plan, d: set<HeaderId>, subs: map<RegionId, HeaderId>, taken: Option<RegionId>, a: Site, x: RegionId)
    requires Done(v, f, w, g, o, i, j, s, isMove, above, p, d, subs, taken) && EntriesExact(v, f)
    requires !SwapsInside(InRegion(s), Outgoing(v, o, i), Incoming(v, j), f)
    requires Crosses(w, g, a, x) && !DragsIntoChild(v, f, s, d, a, x)
    ensures x in g && IsSite(w, a) && EntryIs(g, x, At(w, a))
  {
    hide DraggedInto, Stored, MovedView, EntriesFollow, Rehung, RcExact, Members, Closed, Crosses;
    CrossingsAreSites(w, g);
    SlotAfter(v, f, w, g, o, i, j, s, isMove, above, p, d, subs, taken, x);
    if a != Field(o, i) {
      OthersAfter(v, f, w, g, o, i, j, s, isMove, above, p, d, subs, taken, a, x);
    }
    CrossingsAreSites(v, f);
    if f[x].owner.Unowned? {
      NewEntry(v, f, w, g, o, i, j, s, isMove, above, p, d, subs, taken, a, x);
    } else if a != Field(o, i) {
      OldEntry(v, f, w, g, o, i, j, s, isMove, above, p, d, subs, taken, a, x);
    } else {
      OutgoingKnown(v, f, o, i, j, s);
      HeapPlan(v, f, isMove, s, Outgoing(v, o, i), Incoming(v, j), above, p);
    }
  }

  /** A swapped-in reference enters a region that has no entry any more. */
  lemma SwappedEntry(
    v: View, f: Forest, w: View, g: Forest, o: HeaderId, i: int, j: int, s: RegionId, isMove: bool, above: bool,
    p: Plan, d: set<HeaderId>, subs: map<RegionId, HeaderId>, taken: Option<RegionId>)
    requires Done(v, f, w, g, o, i, j, s, isMove, above, p, d, subs, taken)
    requires SwapsInside(InRegion(s), Outgoing(v, o, i), Incoming(v, j), f)
    ensures !EntriesExact(w, g)
  {
    hide DraggedInto, Stored, MovedView, RcExact, Members, Closed, Adopts;
    var x := Incoming(v, j).region;
    SlotAfter(v, f, w, g, o, i, j, s, isMove, above, p, d, subs, taken, x);
    OutgoingKnown(v, f, o, i, j, s);
    HeapPlan(v, f, isMove, s, Outgoing(v, o, i), Incoming(v, j), above, p);
    assert EntryFollows(w, f, g, x);
    assert !EntryIs(g, x, At(w, Field(o, i)));
  }

  /** What a store drags: nothing, unless the incoming value lives in a frame-local region. */
  ghost function DraggedBy(v: View, f: Forest, j: int, s: RegionId): set<HeaderId>
    requires 0 <= j < |v.registers| && s in f
  {
    if FrameLocalLocation(f, Incoming(v, j)) && v.registers[j].To? then DragSet(v, f, s, v.registers[j].target) else {}
  }

  /**
   An exchange that is done keeps entries exact if and only if it is no swap inside one sub-region and every dragged
   reference into a child of `s` refers to the entry of that child; both can be read off the heap before it.
   */
  method ExchangeKeepingEntries(h: Heap, o: HeaderId, i: int, j: int, isMove: bool) returns (ok: bool)
    requires h.Counted() && Consistent(h.Graph(), h.regions, h.direct) && EntriesExact(h.Graph(), h.regions)
    requires o in h.headers && h.headers[o].loc.InRegion?
    requires Storing(h.Graph(), h.regions, o, i, j, h.headers[o].loc.region)
    modifies h
    ensures h.Counted()
    ensures var v, f, s := old(h.Graph()), old(h.regions), old(h.headers[o].loc.region);
      && (Incoming(v, j).InRegion? ==> Incoming(v, j).region in f)
      && var p := Planned(f, isMove, s, Outgoing(v, o, i), Incoming(v, j), IncomingAbove(v, f, old(h.depth), j, s));
      && (p.dragInto.Some? ==> v.registers[j].To? && s in f)
      && (ok <==> p.ok && (p.dragInto.Some? ==> CanDrag(v, f, old(h.depth), s, v.registers[j].target)))
    ensures var v, f, s := old(h.Graph()), old(h.regions), old(h.headers[o].loc.region);
      EntriesExact(h.Graph(), h.regions) <==>
        (ok ==>
           && !SwapsInside(InRegion(s), Outgoing(v, o, i), Incoming(v, j), f)
           && DragsToEntries(v, f, s, DraggedBy(v, f, j, s)))
  {
    hide EntriesExact, DragsToEntries, Rehung, EntriesFollow, CopyCounted, CleanDrag, DragSet, DragsTo, Adopts, TakenOver,
      Stored, CanDrag, Touches, MetInTime, SwapsInside, RcExact, Members, Closed, SingleEntry, Entered, Accounted;
    ghost var v, f, depth := h.Graph(), h.regions, h.depth;
    ghost var s := h.headers[o].loc.region;
    ghost var p, d, subs, taken;
    ok, p, d, subs, taken := Exchange(h, o, i, j, isMove);
    if !ok {
      EntriesAlike(v, f, h.regions);
      return;
    }
    OutgoingKnown(v, f, o, i, j, s);
    HeapPlan(v, f, isMove, s, Outgoing(v, o, i), Incoming(v, j), IncomingAbove(v, f, depth, j, s), p);
    NothingDragged(v, s);
    EntriesAfter(v, f, h.Graph(), h.regions, o, i, j, s, isMove, IncomingAbove(v, f, depth, j, s), p, d, subs, taken);
  }

  lemma EntriesAlike(v: View, f: Forest, g: Forest)
    requires SameButCounts(f, g)
    ensures EntriesExact(v, f) <==> EntriesExact(v, g)
  {
    forall a, x ensures Crosses(v, f, a, x) <==> Crosses(v, g, a, x) {
    }
  }
}
