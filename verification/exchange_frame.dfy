/**
 `exchange` (vbci/writebarrier.h:355-373) on a field of a stack object or of an object in a frame-local
 region.  Both sides of such a store are on the stack side, so only a copy adds a report.
 */
module FrameExchanges {
  import opened Collections
  import opened Regions
  import opened Graphs
  import opened Heaps
  import opened Drags
  import opened DragCommit
  import opened DragExact
  import opened WriteBarrier
  import opened Exchanges

  /** `Undefined`: `clear_parent` meets a region without a parent, where its assertion fails (vbci/region.h:182-185). */
  datatype Outcome = Done | BadStore | Undefined

  /** The frame-local region of each frame on the stack. */
  ghost predicate FrameRegions(f: Forest, frames: seq<RegionId>) {
    forall k | 0 <= k < |frames| :: frames[k] in f && f[frames[k]].frameDepth == k + 1 && !f[frames[k]].finalizing
  }

  /** Slot `i` of `o`, which lives on the stack or in a frame-local region, receives register `j`. */
  ghost predicate StoringOnFrame(v: View, f: Forest, frames: seq<RegionId>, o: HeaderId, i: int, j: int) {
    && o in v.headers && 0 <= i < |v.headers[o].fields| && 0 <= j < |v.registers|
    && (if v.headers[o].loc.Stack? then v.headers[o].loc.level < |frames|
        else FrameLocal(v, f, o) && !f[v.headers[o].loc.region].finalizing)
    && FrameRegions(f, frames)
  }

  function PlannedOnFrame(
    f: Forest, frames: seq<RegionId>, isMove: bool, store: Location, out: Location, incoming: Location): Plan
    requires store.InRegion? ==> store.region in f
    requires incoming.InRegion? ==> incoming.region in f
    requires store.Stack? ==> 0 <= store.level < |frames|
  {
    PrepareIn(f, frames, isMove, store, out, incoming, false, PrepareOut(f, store, out, PrepareStore(store)))
  }

  /** The plan of a store on the frame side: refused only for a stack value that would be outlived. */
  lemma FramePlan(f: Forest, frames: seq<RegionId>, isMove: bool, store: Location, out: Location, incoming: Location)
    requires store.Stack? || FrameLocalLocation(f, store)
    requires incoming.InRegion? ==> incoming.region in f
    requires store.Stack? ==> 0 <= store.level < |frames|
    requires FrameRegions(f, frames)
    ensures var p := PlannedOnFrame(f, frames, isMove, store, out, incoming);
      var counted := !incoming.Stack? && !incoming.Immortal?;
      && (p.ok <==> (incoming.Stack? ==> Outlives(f, incoming, store)))
      && (p.ok ==>
            && p.clear == (isMove && counted) && p.inc == (!isMove && counted)
            && p.adoptBy.None? && p.outStackInc == 0
            && p.inStackInc == One(!isMove && incoming.InRegion? && !FrameLocalLocation(f, incoming))
            && p.orphan == (if out.InRegion? && out != store then Some(out.region) else None))
      && (p.ok && p.dragInto.None? ==> Outlives(f, incoming, store))
      && (p.ok && p.dragInto.Some? ==>
            && FrameLocalLocation(f, incoming)
            && p.dragInto.value in f && f[p.dragInto.value].IsFrameLocal()
            && Outlives(f, InRegion(p.dragInto.value), store)
            && (store.InRegion? ==> p.dragInto.value == store.region)
            && (store.Stack? ==> f[p.dragInto.value].frameDepth == store.level + 1))
  {
  }

  // ---------------------------------------------------------------- what the store keeps

  /** Of the stack-side references, only a register that keeps its value is new. */
  lemma FrameRefs(v: View, f: Forest, o: HeaderId, i: int, j: int, p: Plan, x: RegionId)
    requires o in v.headers && 0 <= i < |v.headers[o].fields| && 0 <= j < |v.registers|
    requires v.headers[o].loc.Stack? || FrameLocal(v, f, o)
    ensures |StackRefs(Stored(v, o, i, j, p), f, x)| == |StackRefs(v, f, x)| + One(!p.clear && PointsInto(v, Register(j), x))
  {
    var last, slot, reg := Register(|v.registers|), Field(o, i), Register(j);
    var a, b := StackRefs(v, f, x), StackRefs(Stored(v, o, i, j, p), f, x);
    forall s ensures s in b - {last, slot, reg} <==> s in a - {last, slot, reg} {
      if s !in {last, slot, reg} {
        FrameSide(v, f, o, i, j, p, x, s);
      }
    }
    assert b - {last, slot, reg} == a - {last, slot, reg};
    SizeWithoutThree(a, last, slot, reg);
    SizeWithoutThree(b, last, slot, reg);
    FrameSites(v, f, o, i, j, p, x);
  }

  lemma FrameSites(v: View, f: Forest, o: HeaderId, i: int, j: int, p: Plan, x: RegionId)
    requires o in v.headers && 0 <= i < |v.headers[o].fields| && 0 <= j < |v.registers|
    requires v.headers[o].loc.Stack? || FrameLocal(v, f, o)
    ensures var last, slot, reg := Register(|v.registers|), Field(o, i), Register(j);
      var a, b := StackRefs(v, f, x), StackRefs(Stored(v, o, i, j, p), f, x);
      && last !in a && (slot in a <==> PointsInto(v, slot, x)) && (reg in a <==> PointsInto(v, reg, x))
      && (last in b <==> PointsInto(v, slot, x)) && (slot in b <==> PointsInto(v, reg, x))
      && (reg in b <==> !p.clear && PointsInto(v, reg, x))
  {
    StoredSites(v, o, i, j, p);
  }

  lemma FrameSide(v: View, f: Forest, o: HeaderId, i: int, j: int, p: Plan, x: RegionId, s: Site)
    requires o in v.headers && 0 <= i < |v.headers[o].fields| && 0 <= j < |v.registers|
    requires s != Register(|v.registers|) && s != Field(o, i) && s != Register(j)
    ensures s in StackRefs(Stored(v, o, i, j, p), f, x) <==> s in StackRefs(v, f, x)
  {
    StoredSites(v, o, i, j, p);
  }

  /** Every account is exact, but that of the region whose reference has been taken over is one too low. */
  ghost predicate Short(v: View, f: Forest, direct: Counts, taken: Option<RegionId>) {
    && direct.Keys == f.Keys
    && forall x {:trigger Exceeds(v, f, direct, x, -One(taken == Some(x)))} | x in f && !f[x].IsFrameLocal() ::
         Exceeds(v, f, direct, x, -One(taken == Some(x)))
  }

  lemma ShortIsInexact(v: View, f: Forest, direct: Counts, taken: Option<RegionId>)
    requires Short(v, f, direct, taken) && (taken.Some? ==> taken.value in f && !f[taken.value].IsFrameLocal())
    ensures Accounted(v, f, direct) <==> taken.None?
  {
    forall x | x in f && !f[x].IsFrameLocal() ensures AccountedAt(v, f, direct, x) <==> taken != Some(x) {
      assert Exceeds(v, f, direct, x, -One(taken == Some(x)));
    }
    assert taken.Some? ==> !AccountedAt(v, f, direct, taken.value);
  }

  lemma ExactIsShort(v: View, f: Forest, direct: Counts)
    requires Accounted(v, f, direct)
    ensures Short(v, f, direct, None)
  {
    forall x | x in f && !f[x].IsFrameLocal() ensures Exceeds(v, f, direct, x, -One(None == Some(x))) {
      assert AccountedAt(v, f, direct, x);
    }
  }

  /** All invariants, up to the reference that has been taken over. */
  ghost predicate Nearly(v: View, f: Forest, direct: Counts, taken: Option<RegionId>) {
    Sound(v, f) && Short(v, f, direct, taken) && SingleEntry(v, f) && Entered(v, f)
  }

  /** A copied reference into a heap region is one report more. */
  ghost function Copied(v: View, f: Forest, direct: Counts, j: int, isMove: bool): Counts
    requires 0 <= j < |v.registers|
  {
    var incoming := Incoming(v, j);
    if !isMove && incoming.InRegion? && !FrameLocalLocation(f, incoming) then Add(direct, incoming.region, 1) else direct
  }

  lemma FrameAccounts(
    v: View, f: Forest, g: Forest, direct: Counts, o: HeaderId, i: int, j: int, isMove: bool, p: Plan,
    taken: Option<RegionId>)
    requires o in v.headers && 0 <= i < |v.headers[o].fields| && 0 <= j < |v.registers| && WellFormed(v, f)
    requires v.headers[o].loc.Stack? || FrameLocal(v, f, o)
    requires Short(v, f, direct, taken) && SameDepths(f, g)
    requires Incoming(v, j).InRegion? ==> p.clear == isMove
    ensures Short(Stored(v, o, i, j, p), g, Copied(v, f, direct, j, isMove), taken)
  {
    IncomingKnown(v, f, j);
    var direct' := Copied(v, f, direct, j, isMove);
    var w := Stored(v, o, i, j, p);
    forall y | y in g && !g[y].IsFrameLocal() ensures Exceeds(w, g, direct', y, -One(taken == Some(y))) {
      assert Exceeds(v, f, direct, y, -One(taken == Some(y)));
      FrameRefs(v, f, o, i, j, p, y);
      assert StackRefs(w, g, y) == StackRefs(w, f, y);
    }
  }

  /** A value that outlives the slot may be stored there. */
  lemma FrameSound(v: View, f: Forest, g: Forest, o: HeaderId, i: int, j: int, p: Plan)
    requires o in v.headers && 0 <= i < |v.headers[o].fields| && 0 <= j < |v.registers|
    requires v.headers[o].loc.Stack? || FrameLocal(v, f, o)
    requires Sound(v, f) && SameDepths(f, g) && forall x | x in f :: g[x].members == f[x].members
    requires Incoming(v, j).InRegion? ==> p.inc == !p.clear
    requires Outlives(f, Incoming(v, j), v.headers[o].loc)
    ensures Sound(Stored(v, o, i, j, p), g)
  {
    hide Stored, RcExact, Members, Closed, WellFormed;
    FrameClosed(v, f, g, o, i, j, p);
    StoredRcs(v, o, i, j, p);
    StoredMembers(v, f, g, o, i, j, p);
  }

  lemma FrameClosed(v: View, f: Forest, g: Forest, o: HeaderId, i: int, j: int, p: Plan)
    requires o in v.headers && 0 <= i < |v.headers[o].fields| && 0 <= j < |v.registers|
    requires v.headers[o].loc.Stack? || FrameLocal(v, f, o)
    requires WellFormed(v, f) && Closed(v, f) && SameDepths(f, g) && Outlives(f, Incoming(v, j), v.headers[o].loc)
    ensures WellFormed(Stored(v, o, i, j, p), g) && Closed(Stored(v, o, i, j, p), g)
  {
    hide Stored, Outlives;
    var w := Stored(v, o, i, j, p);
    StoredSites(v, o, i, j, p);
    assert IsSite(v, Register(j)) && IsSite(v, Field(o, i));
    forall target, holder ensures Outlives(g, target, holder) <==> Outlives(f, target, holder) {
      SameOutlives(f, g, target, holder);
    }
  }

  lemma SameOutlives(f: Forest, g: Forest, target: Location, holder: Location)
    requires SameDepths(f, g)
    ensures Outlives(g, target, holder) <==> Outlives(f, target, holder)
  {
  }

  /** No crossing reference is touched, so a region that loses its parent is still referred to from it. */
  lemma FrameEntries(v: View, f: Forest, g: Forest, o: HeaderId, i: int, j: int, p: Plan)
    requires o in v.headers && 0 <= i < |v.headers[o].fields| && 0 <= j < |v.registers|
    requires v.headers[o].loc.Stack? || FrameLocal(v, f, o)
    requires SingleEntry(v, f) && Entered(v, f) && SameDepths(f, g)
    requires p.orphan.Some? ==> p.orphan.value in f && f[p.orphan.value].HasParent()
    requires forall x | x in f :: g[x].owner == if p.orphan == Some(x) then Unowned else f[x].owner
    ensures Entered(Stored(v, o, i, j, p), g)
    ensures SingleEntry(Stored(v, o, i, j, p), g) <==> p.orphan.None?
  {
    var w := Stored(v, o, i, j, p);
    StoredSites(v, o, i, j, p);
    forall s, r ensures Crosses(w, g, s, r) <==> Crosses(v, f, s, r) {
      assert s.Field? && s.holder in v.headers ==> (InHeapRegion(w, g, s.holder) <==> InHeapRegion(v, f, s.holder));
    }
    forall x | x in g && g[x].HasParent() ensures EnteredAt(w, g, x) {
      assert EnteredAt(v, f, x);
    }
    if p.orphan.Some? {
      assert EnteredAt(v, f, p.orphan.value);
      var s :| Crosses(v, f, s, p.orphan.value);
      assert Crosses(w, g, s, p.orphan.value);
    }
  }

  // ---------------------------------------------------------------- the operation

  /** The plan fits the incoming value as it is now, and the value outlives the slot. */
  ghost predicate Fitting(v: View, f: Forest, o: HeaderId, i: int, j: int, isMove: bool, p: Plan) {
    && o in v.headers && 0 <= i < |v.headers[o].fields| && 0 <= j < |v.registers|
    && (v.headers[o].loc.Stack? || FrameLocal(v, f, o))
    && Outlives(f, Incoming(v, j), v.headers[o].loc)
    && (Incoming(v, j).InRegion? ==> p.clear == isMove && p.inc == !isMove)
    && p.inStackInc == One(!isMove && Incoming(v, j).InRegion? && !FrameLocalLocation(f, Incoming(v, j)))
    && (p.orphan.Some? ==> p.orphan.value in f && f[p.orphan.value].HasParent())
  }

  lemma WrittenOnFrame(
    v: View, f: Forest, g: Forest, direct: Counts, o: HeaderId, i: int, j: int, isMove: bool, p: Plan,
    taken: Option<RegionId>)
    requires Nearly(v, f, direct, taken) && Fitting(v, f, o, i, j, isMove, p) && SameDepths(f, g)
    requires forall y | y in f ::
      g[y].members == f[y].members && g[y].owner == if p.orphan == Some(y) then Unowned else f[y].owner
    ensures var w := Stored(v, o, i, j, p);
      && Sound(w, g) && Short(w, g, Copied(v, f, direct, j, isMove), taken) && Entered(w, g)
      && (SingleEntry(w, g) <==> p.orphan.None?)
  {
    hide Stored, SingleEntry, Entered, RcExact, Closed, Members, Exceeds;
    FrameSound(v, f, g, o, i, j, p);
    FrameAccounts(v, f, g, direct, o, i, j, isMove, p, taken);
    FrameEntries(v, f, g, o, i, j, p);
  }

  /** Only the region `orphan` loses its owner, and its entry with it. */
  ghost predicate OneOrphaned(f: Forest, g: Forest, orphan: Option<RegionId>) {
    && f.Keys == g.Keys
    && forall x | x in f ::
         if orphan == Some(x) then f[x].HasParent() && g[x].owner.Unowned? && g[x].entry.None?
         else g[x].owner == f[x].owner && g[x].entry == f[x].entry
  }

  lemma ThenOrphaned(f: Forest, g: Forest, k: Forest, orphan: Option<RegionId>)
    requires OneOrphaned(f, g, None) && OneOrphaned(g, k, orphan)
    ensures OneOrphaned(f, k, orphan)
  {
  }

  lemma FitsUndragged(v: View, f: Forest, frames: seq<RegionId>, o: HeaderId, i: int, j: int, isMove: bool, p: Plan)
    requires StoringOnFrame(v, f, frames, o, i, j)
    requires Incoming(v, j).InRegion? ==> Incoming(v, j).region in f
    requires p == PlannedOnFrame(f, frames, isMove, v.headers[o].loc, Outgoing(v, o, i), Incoming(v, j))
    requires p.ok && p.dragInto.None?
    ensures (p.orphan.Some? ==> p.orphan.value in f && f[p.orphan.value].HasParent()) ==> Fitting(v, f, o, i, j, isMove, p)
    ensures OneOrphaned(f, f, None)
  {
    FramePlan(f, frames, isMove, v.headers[o].loc, Outgoing(v, o, i), Incoming(v, j));
  }

  /** The region part: a report to `copied`, and `orphan` loses its parent. */
  method ReportOnFrame(h: Heap, copied: Option<RegionId>, orphan: Option<RegionId>)
    requires h.Counted()
    requires copied.Some? ==>
      copied.value in h.regions && !h.regions[copied.value].IsFrameLocal() && h.direct[copied.value] >= 1
    requires orphan.Some? ==> orphan.value in h.regions && h.regions[orphan.value].HasParent()
    modifies h`regions, h`direct
    ensures h.Counted() && SameDepths(old(h.regions), h.regions) && OneOrphaned(old(h.regions), h.regions, orphan)
    ensures forall x | x in h.regions :: h.regions[x].members == old(h.regions)[x].members
    ensures h.direct == if copied.Some? then Add(old(h.direct), copied.value, 1) else old(h.direct)
  {
    if copied.Some? {
      LiveWhenReported(h.regions, h.direct, h.depth, copied.value);
      h.StackInc(copied.value, 1);
    }
    if orphan.Some? {
      h.ClearParent(orphan.value);
    }
  }

  /** Write the value, count a copy, and orphan the region of the overwritten value if the plan says so. */
  method WriteOnFrame(h: Heap, o: HeaderId, i: int, j: int, isMove: bool, p: Plan, ghost taken: Option<RegionId>)
    requires h.Counted() && Nearly(h.Graph(), h.regions, h.direct, taken) && Fitting(h.Graph(), h.regions, o, i, j, isMove, p)
    requires p.inStackInc == 1 ==> taken.None?
    modifies h
    ensures h.Counted() && h.Graph() == Stored(old(h.Graph()), o, i, j, p) && SameDepths(old(h.regions), h.regions)
    ensures Sound(h.Graph(), h.regions) && Short(h.Graph(), h.regions, h.direct, taken) && Entered(h.Graph(), h.regions)
    ensures SingleEntry(h.Graph(), h.regions) <==> p.orphan.None?
    ensures OneOrphaned(old(h.regions), h.regions, p.orphan)
  {
    hide SingleEntry, Entered, Stored, TreeAt, BalancedAt, Members, RcExact, Closed, MovedView, OneOrphaned;
    ghost var v, f, direct := h.Graph(), h.regions, h.direct;
    IncomingKnown(v, f, j);
    var incoming := Incoming(h.Graph(), j);
    Write(h, o, i, j, p);
    if p.inStackInc == 1 {
      assert Register(j) in StackRefs(v, f, incoming.region);
      assert Exceeds(v, f, direct, incoming.region, -One(taken == Some(incoming.region)));
    }
    ReportOnFrame(h, if p.inStackInc == 1 then Some(incoming.region) else None, p.orphan);
    WrittenOnFrame(v, f, h.regions, direct, o, i, j, isMove, p, taken);
  }

  /** A frame-local destination refuses nothing that is not on the stack. */
  lemma FrameDragWorks(v: View, f: Forest, depth: map<RegionId, nat>, r: RegionId, root: HeaderId)
    requires Tree(f, depth) && r in f && f[r].IsFrameLocal() && root in v.headers && !v.headers[root].loc.Stack?
    requires WellFormed(v, f)
    ensures CanDrag(v, f, depth, r, root)
  {
    var d := set t | t in v.headers && Draggable(v, f, r, t);
    assert Enough(v, f, r, root, d);
  }

  /** A drag between frames leaves every account as it was, but for the reference it takes over. */
  lemma FrameDragged(
    v: View, f: Forest, g: Forest, depth: map<RegionId, nat>, direct: Counts, direct': Counts, r: RegionId, root: HeaderId,
    isMove: bool, d: set<HeaderId>, taken: Option<RegionId>, alive: bool)
    requires Tree(g, depth) && r in f && f[r].IsFrameLocal() && Consistent(v, f, direct)
    requires r in g && Regrown(f, g, depth, r, map[], alive) && direct'.Keys == g.Keys
    requires DragsTo(v, f, r, root, d) && Sound(MovedView(v, d, r), g)
    requires forall x | x in f && !f[x].IsFrameLocal() ::
      Exceeds(MovedView(v, d, r), g, direct', x, Excess(v, f, r, root, isMove, d, taken, x))
    ensures Nearly(MovedView(v, d, r), g, direct', taken)
  {
    hide SingleEntry, Entered, RcExact, Members, Closed, StackRefs, Enough, TreeAt;
    var w := MovedView(v, d, r);
    SitesMoved(v, d, r);
    forall t | t in d ensures FrameLocal(v, f, t) && FrameLocal(w, g, t) {
      assert Draggable(v, f, r, t);
    }
    forall x | x in g && !g[x].IsFrameLocal() ensures Exceeds(w, g, direct', x, -One(taken == Some(x))) {
      assert Exceeds(MovedView(v, d, r), g, direct', x, Excess(v, f, r, root, isMove, d, taken, x));
    }
    EntriesStay(v, f, g, r, d);
  }

  /** Frame-local objects that stay frame-local are no part of any entry. */
  lemma EntriesStay(v: View, f: Forest, g: Forest, r: RegionId, d: set<HeaderId>)
    requires r in f && f[r].IsFrameLocal() && SameDepths(f, g) && (forall x | x in f :: g[x].owner == f[x].owner)
    requires SingleEntry(v, f) && Entered(v, f) && forall t | t in d :: FrameLocal(v, f, t)
    ensures SingleEntry(MovedView(v, d, r), g) && Entered(MovedView(v, d, r), g)
  {
    var w := MovedView(v, d, r);
    SitesMoved(v, d, r);
    forall s, x | x in f && !f[x].IsFrameLocal()
      ensures PointsInto(w, s, x) <==> PointsInto(v, s, x)
      ensures Crosses(w, g, s, x) <==> Crosses(v, f, s, x)
    {
      if IsSite(v, s) && At(v, s).To? {
        assert At(v, s).target in d ==> !LivesIn(v, At(v, s).target, x);
      }
    }
    forall x | x in g && g[x].HasParent() ensures EnteredAt(w, g, x) {
      assert EnteredAt(v, f, x);
    }
  }

  /** After the drag what is left of the plan fits the value where it lives now. */
  lemma FitsAfterDrag(
    v: View, f: Forest, g: Forest, frames: seq<RegionId>, o: HeaderId, i: int, j: int, isMove: bool, p: Plan,
    d: set<HeaderId>, taken: Option<RegionId>)
    requires StoringOnFrame(v, f, frames, o, i, j) && WellFormed(v, f) && SameDepths(f, g)
    requires forall x | x in f :: g[x].owner == f[x].owner
    requires p == PlannedOnFrame(f, frames, isMove, v.headers[o].loc, Outgoing(v, o, i), Incoming(v, j))
    requires p.ok && p.dragInto.Some? && v.registers[j].To?
    requires p.dragInto.value in f && DragsTo(v, f, p.dragInto.value, v.registers[j].target, d)
    requires WithOrphan(p, taken).orphan.Some? ==> p.orphan.value in f && f[p.orphan.value].HasParent()
    ensures p.inStackInc == 0 && Fitting(MovedView(v, d, p.dragInto.value), g, o, i, j, isMove, WithOrphan(p, taken))
  {
    var store, r := v.headers[o].loc, p.dragInto.value;
    IncomingKnown(v, f, j);
    FramePlan(f, frames, isMove, store, Outgoing(v, o, i), Incoming(v, j));
    SitesMoved(v, d, r);
    var t := v.registers[j].target;
    assert !Draggable(v, f, r, o);
    assert t in d ==> Draggable(v, f, r, t);
  }

  /** The overwritten slot is a reference that no drag into the frame region moves. */
  lemma SlotIsSpare(v: View, f: Forest, frames: seq<RegionId>, o: HeaderId, i: int, j: int, isMove: bool, p: Plan, direct: Counts)
    requires StoringOnFrame(v, f, frames, o, i, j) && WellFormed(v, f) && direct.Keys == f.Keys
    requires Incoming(v, j).InRegion? ==> Incoming(v, j).region in f
    requires p == PlannedOnFrame(f, frames, isMove, v.headers[o].loc, Outgoing(v, o, i), Incoming(v, j))
    requires p.ok && p.dragInto.Some? && p.dragInto.value in f
    ensures f[p.dragInto.value].IsFrameLocal() && Exchangeable(v, f, direct, p.dragInto.value, p.orphan)
  {
    var store, r := v.headers[o].loc, p.dragInto.value;
    FramePlan(f, frames, isMove, store, Outgoing(v, o, i), Incoming(v, j));
    assert IsSite(v, Field(o, i));
    if p.orphan.Some? && !f[p.orphan.value].IsFrameLocal() {
      assert Spare(v, f, r, p.orphan.value, Field(o, i));
    }
  }

  /** Drag the incoming value into frame region `p.dragInto`. */
  method DragOnFrame(h: Heap, frames: seq<RegionId>, o: HeaderId, i: int, j: int, isMove: bool, p: Plan)
    returns (left: Option<RegionId>, ghost d: set<HeaderId>)
    requires h.Counted() && Consistent(h.Graph(), h.regions, h.direct)
    requires StoringOnFrame(h.Graph(), h.regions, frames, o, i, j)
    requires Incoming(h.Graph(), j).InRegion? ==> Incoming(h.Graph(), j).region in h.regions
    requires p == PlannedOnFrame(h.regions, frames, isMove, h.headers[o].loc, Outgoing(h.Graph(), o, i), Incoming(h.Graph(), j))
    requires p.ok && p.dragInto.Some? && p.dragInto.value in h.regions && h.registers[j].To?
    modifies h`regions, h`headers, h`direct, h`depth
    ensures h.Counted() && SameDepths(old(h.regions), h.regions)
    ensures OneOrphaned(old(h.regions), h.regions, None)
    ensures left == None || left == p.orphan
    ensures d == DragSet(old(h.Graph()), old(h.regions), p.dragInto.value, old(h.registers)[j].target)
    ensures var taken := TakenOver(old(h.Graph()), old(h.regions), d, p.orphan);
      && left == (if taken.Some? then None else p.orphan)
      && Nearly(h.Graph(), h.regions, h.direct, taken)
      && h.Graph() == MovedView(old(h.Graph()), d, p.dragInto.value)
      && p.inStackInc == 0
      && ((left.Some? ==> left.value in h.regions && h.regions[left.value].HasParent()) ==>
            Fitting(h.Graph(), h.regions, o, i, j, isMove, WithOrphan(p, taken)))
  {
    ghost var v, f, direct := h.Graph(), h.regions, h.direct;
    var r, root := p.dragInto.value, h.registers[j].target;
    FramePlan(f, frames, isMove, v.headers[o].loc, Outgoing(v, o, i), Incoming(v, j));
    assert TreeAt(f, h.depth, r);
    FrameDragWorks(v, f, h.depth, r, root);
    SlotIsSpare(v, f, frames, o, i, j, isMove, p, direct);
    var ok;
    ghost var subs, alive;
    ok, left, d, subs, alive := DragAllocation(h, r, root, isMove, p.orphan);
    ghost var taken := if left == p.orphan then None else p.orphan;
    FrameDragged(v, f, h.regions, h.depth, direct, h.direct, r, root, isMove, d, taken, alive);
    if left.Some? ==> left.value in h.regions && h.regions[left.value].HasParent() {
      FitsAfterDrag(v, f, h.regions, frames, o, i, j, isMove, p, d, taken);
    }
  }

  lemma FrameRecounts(
    v: View, f: Forest, frames: seq<RegionId>, o: HeaderId, i: int, j: int, isMove: bool, p: Plan, d: set<HeaderId>, p': Plan)
    requires StoringOnFrame(v, f, frames, o, i, j)
    requires Incoming(v, j).InRegion? ==> Incoming(v, j).region in f
    requires p == PlannedOnFrame(f, frames, isMove, v.headers[o].loc, Outgoing(v, o, i), Incoming(v, j))
    requires p.ok && p'.inc == p.inc
    ensures var u := if p.dragInto.Some? then MovedView(v, d, p.dragInto.value) else v;
      && o in u.headers && 0 <= i < |u.headers[o].fields|
      && CopyCounted(v, Stored(u, o, i, j, p'), if isMove then Null else v.registers[j])
  {
    FramePlan(f, frames, isMove, v.headers[o].loc, Outgoing(v, o, i), Incoming(v, j));
    StoredRecounts(v, if p.dragInto.Some? then MovedView(v, d, p.dragInto.value) else v, o, i, j, isMove, p');
  }

  /**
   `exchange<is_move>` with storage on the stack or in a frame-local region.  Only a stack value that the
   slot would outlive is refused.  The store keeps every invariant if and only if the overwritten value is
   not in another region: `prepare_out` plans to take that region's parent away although the slot never gave
   it one.  If there is no parent the operation is undefined; if there is, that still refers into the region.
   If the incoming value is dragged and refers to that region as well, the parent stays, but the region's
   count has lost a report that was not the slot's.
   */
  method ExchangeOnFrame(h: Heap, frames: seq<RegionId>, o: HeaderId, i: int, j: int, isMove: bool)
    returns (outcome: Outcome, ghost p: Plan, ghost d: set<HeaderId>)
    requires h.Counted() && Consistent(h.Graph(), h.regions, h.direct)
    requires StoringOnFrame(h.Graph(), h.regions, frames, o, i, j)
    requires Incoming(h.Graph(), j).InRegion? ==> Incoming(h.Graph(), j).region in h.regions
    modifies h
    ensures h.Counted()
    ensures var v, f := old(h.Graph()), old(h.regions);
      var store, out, incoming := v.headers[o].loc, Outgoing(v, o, i), Incoming(v, j);
      var taken := if p.dragInto.Some? then TakenOver(v, f, d, p.orphan) else None;
      && p == PlannedOnFrame(f, frames, isMove, store, out, incoming)
      && (outcome.BadStore? <==> incoming.Stack? && !Outlives(f, incoming, store))
      && (outcome.BadStore? ==> h.Graph() == v && h.regions == f && h.direct == old(h.direct))
      && (p.ok && p.dragInto.Some? ==>
            p.dragInto.value in f && v.registers[j].To? && d == DragSet(v, f, p.dragInto.value, v.registers[j].target))
      && (outcome.Undefined? <==>
            p.ok && taken.None? && out.InRegion? && out != store && !(out.region in f && f[out.region].HasParent()))
      && (outcome.Done? ==>
            && h.Graph() ==
               Stored(if p.dragInto.Some? then MovedView(v, d, p.dragInto.value) else v, o, i, j, WithOrphan(p, taken))
            && Sound(h.Graph(), h.regions) && Short(h.Graph(), h.regions, h.direct, taken)
            && SameDepths(f, h.regions) && OneOrphaned(f, h.regions, WithOrphan(p, taken).orphan)
            && CopyCounted(v, h.Graph(), if isMove then Null else v.registers[j])
            && (Consistent(h.Graph(), h.regions, h.direct) <==> !(out.InRegion? && out != store)))
  {
    hide RcExact, Closed, Members, SingleEntry, Entered, Stored, DragSet, DraggedInto, TreeAt, BalancedAt, Exceeds, AccountedAt, MovedView;
    hide OneOrphaned, CopyCounted, Fitting;
    ghost var v, f := h.Graph(), h.regions;
    d := {};
    var store, out, incoming := h.headers[o].loc, Outgoing(h.Graph(), o, i), Incoming(h.Graph(), j);
    var plan := PlannedOnFrame(h.regions, frames, isMove, store, out, incoming);
    p := plan;
    FramePlan(f, frames, isMove, store, out, incoming);
    IncomingKnown(v, f, j);
    if !plan.ok {
      return BadStore, p, d;
    }
    ghost var taken := None;
    if plan.dragInto.Some? {
      var left;
      left, d := DragOnFrame(h, frames, o, i, j, isMove, plan);
      taken := TakenOver(v, f, d, plan.orphan);
      plan := plan.(orphan := left);
    } else {
      ExactIsShort(v, f, h.direct);
      FitsUndragged(v, f, frames, o, i, j, isMove, plan);
    }
    ghost var g := h.regions;
    if plan.orphan.Some? && !(plan.orphan.value in h.regions && h.regions[plan.orphan.value].HasParent()) {
      return Undefined, p, d;
    }
    WriteOnFrame(h, o, i, j, isMove, plan, taken);
    ShortIsInexact(h.Graph(), h.regions, h.direct, taken);
    FrameRecounts(v, f, frames, o, i, j, isMove, p, d, plan);
    ThenOrphaned(f, g, h.regions, plan.orphan);
    outcome := Done;
  }
}
