/**
 The write barrier (vbci/writebarrier.h): what a store has to do is planned from the locations of the
 slot, the outgoing and the incoming value, and then applied.
 */
module WriteBarrier {
  import opened Collections
  import opened Regions
  import opened Graphs
  import opened Heaps
  import opened Drags
  import opened DragCommit
  import opened DragExact

  // ---------------------------------------------------------------- planning

  /** The fields of `write_ops` that the plan sets; `need_out_dec` is never set. */
  datatype Plan = Plan(
    ok: bool,
    dragInto: Option<RegionId>,
    inc: bool,
    clear: bool,
    inStackInc: int,
    adoptBy: Option<RegionId>,
    outStackInc: int,
    orphan: Option<RegionId>)

  const IDLE: Plan := Plan(true, None, false, false, 0, None, 0, None)

  predicate FrameLocalLocation(f: Forest, loc: Location) {
    loc.InRegion? && loc.region in f && f[loc.region].IsFrameLocal()
  }

  function PrepareStore(store: Location): Plan {
    if store.Immutable? || store.Immortal? then IDLE.(ok := false) else IDLE
  }

  function PrepareOut(f: Forest, store: Location, out: Location, p: Plan): Plan {
    if !p.ok || !out.InRegion? then p
    else
      var counted := if store.Stack? || FrameLocalLocation(f, store) then p else p.(outStackInc := p.outStackInc + 1);
      if store != out then counted.(orphan := Some(out.region)) else counted
  }

  /** `prepare_in`, with the ancestor test as an argument. */
  function PrepareIn(
    f: Forest, frames: seq<RegionId>, isMove: bool, store: Location, out: Location, incoming: Location, above: bool, p: Plan): Plan
    requires store.InRegion? ==> store.region in f
    requires incoming.InRegion? ==> incoming.region in f
    requires store.Stack? ==> 0 <= store.level < |frames|
  {
    if !p.ok || incoming.Immortal? then p
    else if incoming.Stack? then
      if !store.Stack? || store.level < incoming.level then p.(ok := false) else p
    else
      var q := if isMove then p.(clear := true) else p.(inc := true);
      if incoming.Immutable? then q
      else if f[incoming.region].IsFrameLocal() then
        match store
        case Stack(level) =>
          if level < f[incoming.region].frameDepth then q.(dragInto := Some(frames[level])) else q
        case InRegion(s) =>
          if f[s].IsFrameLocal() then
            if f[s].frameDepth < f[incoming.region].frameDepth then q.(dragInto := Some(s)) else q
          else
            q.(dragInto := Some(s))
        case _ => q
      else
        var q' := if isMove then q.(inStackInc := q.inStackInc - 1) else q;
        if store.Stack? || FrameLocalLocation(f, store) then q'.(inStackInc := q'.inStackInc + 1)
        else if store == incoming then q'
        else if f[incoming.region].HasOwner() then
          if out == incoming then q' else q'.(ok := false)
        else if above || !store.InRegion? then q'.(ok := false)
        else q'.(adoptBy := Some(store.region))
  }

  /** Nothing is stored into a frozen or immortal object, and the plan asks for nothing. */
  lemma FrozenRefuses(f: Forest, frames: seq<RegionId>, isMove: bool, store: Location, out: Location, incoming: Location, above: bool)
    requires store.InRegion? ==> store.region in f
    requires incoming.InRegion? ==> incoming.region in f
    requires store.Stack? ==> 0 <= store.level < |frames|
    ensures store.Immutable? || store.Immortal? ==>
      PrepareIn(f, frames, isMove, store, out, incoming, above, PrepareOut(f, store, out, PrepareStore(store))) == IDLE.(ok := false)
    ensures !store.Immutable? && !store.Immortal? && (incoming.Immutable? || incoming.Immortal?) ==>
      PrepareIn(f, frames, isMove, store, out, incoming, above, PrepareOut(f, store, out, PrepareStore(store))).ok
  {
  }

  function LocationOf(v: View, value: Ref): Location {
    match value
    case Null => Immortal
    case To(t) => if t in v.headers then v.headers[t].loc else Immortal
  }

  // ---------------------------------------------------------------- the slot

  /** The graph once the incoming value is in the slot and the outgoing one in a new register. */
  function Stored(v: View, o: HeaderId, i: int, j: int, p: Plan): View
    requires o in v.headers && 0 <= i < |v.headers[o].fields| && 0 <= j < |v.registers|
  {
    var next, prev := v.registers[j], v.headers[o].fields[i];
    var written := v.headers[o := v.headers[o].(fields := v.headers[o].fields[i := next])];
    var counted :=
      if p.inc && next.To? && next.target in written
      then written[next.target := written[next.target].(rc := written[next.target].rc + 1)] else written;
    View(counted, (if p.clear then v.registers[j := Null] else v.registers) + [prev], v.cowns)
  }

  /** Sites after the store: every old site, and the new register. */
  lemma StoredSites(v: View, o: HeaderId, i: int, j: int, p: Plan)
    requires o in v.headers && 0 <= i < |v.headers[o].fields| && 0 <= j < |v.registers|
    ensures var w := Stored(v, o, i, j, p);
      && w.headers.Keys == v.headers.Keys
      && (forall h | h in v.headers :: w.headers[h].loc == v.headers[h].loc)
      && (forall s :: IsSite(w, s) <==> IsSite(v, s) || s == Register(|v.registers|))
      && At(w, Field(o, i)) == v.registers[j]
      && At(w, Register(|v.registers|)) == v.headers[o].fields[i]
      && At(w, Register(j)) == (if p.clear then Null else v.registers[j])
      && (forall s | IsSite(v, s) && s != Field(o, i) && s != Register(j) :: At(w, s) == At(v, s))
  {
  }

  function One(b: bool): int { if b then 1 else 0 }

  /** From `v` to `w` the copied reference is counted, wherever its object lives but on the stack, and nothing else is. */
  ghost predicate CopyCounted(v: View, w: View, copied: Ref) {
    && w.headers.Keys == v.headers.Keys
    && forall t | t in v.headers ::
         w.headers[t].rc == v.headers[t].rc +
           One(copied == To(t) && !v.headers[t].loc.Stack? && !v.headers[t].loc.Immortal?)
  }

  lemma StoredRecounts(v: View, u: View, o: HeaderId, i: int, j: int, isMove: bool, p: Plan)
    requires o in u.headers && 0 <= i < |u.headers[o].fields| && 0 <= j < |v.registers|
    requires u.headers.Keys == v.headers.Keys && u.registers == v.registers
    requires forall t | t in v.headers :: u.headers[t].rc == v.headers[t].rc
    requires var incoming := LocationOf(v, v.registers[j]); p.inc == (!isMove && !incoming.Stack? && !incoming.Immortal?)
    ensures CopyCounted(v, Stored(u, o, i, j, p), if isMove then Null else v.registers[j])
  {
  }

  /** The two registers that a store concerns, as stack-side references. */
  lemma StoredEnds(v: View, f: Forest, o: HeaderId, i: int, j: int, p: Plan, x: RegionId)
    requires o in v.headers && 0 <= i < |v.headers[o].fields| && 0 <= j < |v.registers|
    ensures Register(|v.registers|) in StackRefs(Stored(v, o, i, j, p), f, x) <==> PointsInto(v, Field(o, i), x)
    ensures Register(j) in StackRefs(Stored(v, o, i, j, p), f, x) <==> !p.clear && PointsInto(v, Register(j), x)
    ensures Register(j) in StackRefs(v, f, x) <==> PointsInto(v, Register(j), x)
  {
    hide Stored;
    StoredSites(v, o, i, j, p);
    assert IsSite(v, Register(j)) && IsSite(v, Field(o, i));
  }

  /** A field of a heap object is no stack-side reference: only the two registers matter. */
  lemma StoredRefs(v: View, f: Forest, o: HeaderId, i: int, j: int, p: Plan, x: RegionId)
    requires o in v.headers && 0 <= i < |v.headers[o].fields| && 0 <= j < |v.registers|
    requires InHeapRegion(v, f, o)
    ensures |StackRefs(Stored(v, o, i, j, p), f, x)| == |StackRefs(v, f, x)|
      - One(p.clear && PointsInto(v, Register(j), x)) + One(PointsInto(v, Field(o, i), x))
  {
    hide Stored, StackRefs, PointsInto, InHeapRegion;
    var w := Stored(v, o, i, j, p);
    var old', new' := StackRefs(v, f, x), StackRefs(w, f, x);
    var last := Register(|v.registers|);
    StoredEnds(v, f, o, i, j, p, x);
    forall s ensures s in new' - {last} - {Register(j)} <==> s in old' - {Register(j)} {
      StoredSide(v, f, o, i, j, p, x, s);
    }
    assert new' - {last} - {Register(j)} == old' - {Register(j)};
    SizeWithout(new', last);
    SizeWithout(new' - {last}, Register(j));
    SizeWithout(old', Register(j));
  }

  lemma StoredSide(v: View, f: Forest, o: HeaderId, i: int, j: int, p: Plan, x: RegionId, s: Site)
    requires o in v.headers && 0 <= i < |v.headers[o].fields| && 0 <= j < |v.registers|
    requires InHeapRegion(v, f, o)
    ensures s in StackRefs(Stored(v, o, i, j, p), f, x) - {Register(|v.registers|)} - {Register(j)} <==>
      s in StackRefs(v, f, x) - {Register(j)}
  {
    StoredSites(v, o, i, j, p);
  }

  /** References to header `t` after the store. */
  lemma StoredPointing(v: View, o: HeaderId, i: int, j: int, p: Plan, t: HeaderId)
    requires o in v.headers && 0 <= i < |v.headers[o].fields| && 0 <= j < |v.registers|
    ensures |Pointing(Stored(v, o, i, j, p), t)| == |Pointing(v, t)| + One(!p.clear && v.registers[j] == To(t))
  {
    var last, slot, reg := Register(|v.registers|), Field(o, i), Register(j);
    var a, b := Pointing(v, t), Pointing(Stored(v, o, i, j, p), t);
    forall s ensures s in b - {last, slot, reg} <==> s in a - {last, slot, reg} {
      StoredSites(v, o, i, j, p);
    }
    assert b - {last, slot, reg} == a - {last, slot, reg};
    SizeWithoutThree(a, last, slot, reg);
    SizeWithoutThree(b, last, slot, reg);
    StoredSites(v, o, i, j, p);
  }

  lemma SizeWithoutThree<T>(s: set<T>, x: T, y: T, z: T)
    requires x != y && y != z && x != z
    ensures |s - {x, y, z}| == |s| - One(x in s) - One(y in s) - One(z in s)
  {
    SizeWithout(s, x);
    SizeWithout(s - {x}, y);
    SizeWithout(s - {x} - {y}, z);
    assert s - {x, y, z} == s - {x} - {y} - {z};
  }

  // ---------------------------------------------------------------- applying the plan to the regions

  /** A tree with a reference at `s` is not freed. */
  lemma HeldBy(f: Forest, direct: Counts, depth: map<RegionId, nat>, s: RegionId, x: RegionId)
    requires Tree(f, depth) && Balanced(f, direct) && NonNegative(direct)
    requires s in f && !f[s].IsFrameLocal() && direct[s] >= 1
    requires x in f && (x == s || f[x].owner == Parent(s))
    ensures !Released(f, depth, x) && Live(f, depth, x)
  {
    LiveWhenReported(f, direct, depth, s);
    ActiveRoot(f, direct, depth, s);
    assert TreeAt(f, depth, x);
  }

  /** The region part of `apply_in`: adopt first, then adjust the count. */
  method ApplyIn(h: Heap, p: Plan, s: RegionId, x: RegionId, entry: HeaderId)
    requires h.Counted() && s in h.regions && !h.regions[s].IsFrameLocal()
    requires x in h.regions && !h.regions[x].IsFrameLocal()
    requires p.inStackInc in {-1, 0, 1} && h.direct[s] >= 1 + One(p.inStackInc == -1 && x == s)
    requires p.adoptBy.Some? ==> p.adoptBy.value == s && x != s && h.regions[x].owner.Unowned? && !Within(h.regions, h.depth, s, x)
    requires p.adoptBy.Some? || p.inStackInc == -1 ==> h.direct[x] >= 1
    requires p.inStackInc != 0 ==> x == s || p.adoptBy.Some? || h.regions[x].owner == Parent(s)
    modifies h`regions, h`direct, h`depth
    ensures h.Counted() && h.direct == Add(old(h.direct), x, p.inStackInc)
    ensures SameButCounts(if p.adoptBy.Some? then Adopted(old(h.regions), x, s, entry) else old(h.regions), h.regions)
  {
    ghost var f, direct := h.regions, h.direct;
    if p.adoptBy.Some? {
      LiveWhenReported(f, direct, h.depth, x);
      LiveWhenReported(f, direct, h.depth, s);
      h.SetParent(x, s, entry);
    }
    ghost var g := h.regions;
    if p.inStackInc == 1 {
      HeldBy(g, direct, h.depth, s, x);
      h.StackInc(x, 1);
    } else if p.inStackInc == -1 {
      LiveWhenReported(g, direct, h.depth, x);
      var alive := h.StackDec(x, 1);
      assert TreeAt(h.regions, h.depth, x);
      HeldBy(h.regions, h.direct, h.depth, s, x);
    } else {
      AddBack(direct, x, 0);
    }
  }

  /** The region part of `apply_out`. */
  method ApplyOut(h: Heap, p: Plan, s: RegionId, q: RegionId)
    requires h.Counted() && s in h.regions && !h.regions[s].IsFrameLocal() && h.direct[s] >= 1
    requires q in h.regions && (q == s || h.regions[q].owner == Parent(s)) && !h.regions[q].IsFrameLocal()
    requires p.outStackInc in {0, 1}
    requires p.orphan.Some? ==> p.orphan.value == q && q != s && (p.outStackInc == 1 || h.direct[q] >= 1)
    modifies h`regions, h`direct
    ensures h.Counted() && h.direct == Add(old(h.direct), q, p.outStackInc)
    ensures SameButCounts(if p.orphan.Some? then Orphaned(old(h.regions), q) else old(h.regions), h.regions)
  {
    ghost var f, direct := h.regions, h.direct;
    HeldBy(f, direct, h.depth, s, q);
    if p.outStackInc == 1 {
      h.StackInc(q, 1);
    } else {
      AddBack(direct, q, 0);
    }
    if p.orphan.Some? {
      ghost var g := h.regions;
      LiveWhenReported(g, h.direct, h.depth, q);
      h.ClearParent(q);
      HeldBy(h.regions, h.direct, h.depth, s, s);
    }
  }

  // ---------------------------------------------------------------- single entry

  /** The single-entry rule for all crossing references but one that is about to be overwritten. */
  ghost predicate SingleEntryBut(v: View, f: Forest, slot: Site) {
    && CownsOwn(v, f)
    && (forall s, r | Crosses(v, f, s, r) && s != slot :: f[r].owner == Parent(v.headers[s.holder].loc.region))
    && (forall s, s', r | Crosses(v, f, s, r) && Crosses(v, f, s', r) && s != slot && s' != slot :: s == s')
  }

  /** No crossing reference but `slot` enters `x`. */
  ghost predicate EnteredOnlyBy(v: View, f: Forest, slot: Site, x: RegionId) {
    forall s | Crosses(v, f, s, x) :: s == slot
  }

  lemma CrossesStored(v: View, f: Forest, g: Forest, o: HeaderId, i: int, j: int, p: Plan, s: Site, r: RegionId)
    requires o in v.headers && 0 <= i < |v.headers[o].fields| && 0 <= j < |v.registers|
    requires SameDepths(f, g) && s != Field(o, i)
    ensures Crosses(Stored(v, o, i, j, p), g, s, r) <==> Crosses(v, f, s, r)
  {
    StoredSites(v, o, i, j, p);
  }

  lemma SingleEntryStored(
    v: View, f: Forest, g: Forest, o: HeaderId, i: int, j: int, p: Plan, s: RegionId)
    requires o in v.headers && 0 <= i < |v.headers[o].fields| && 0 <= j < |v.registers|
    requires LivesIn(v, o, s) && s in f && SingleEntryBut(v, f, Field(o, i)) && SameDepths(f, g)
    requires forall r | r in f && g[r].owner != f[r].owner ::
      f[r].owner != CownOwned && EnteredOnlyBy(v, f, Field(o, i), r)
    requires forall r | PointsInto(v, Register(j), r) && r != s && r in f && !f[r].IsFrameLocal() ::
      g[r].owner == Parent(s) && EnteredOnlyBy(v, f, Field(o, i), r)
    ensures SingleEntry(Stored(v, o, i, j, p), g)
  {
    var w, slot := Stored(v, o, i, j, p), Field(o, i);
    StoredSites(v, o, i, j, p);
    forall a, r | Crosses(w, g, a, r) ensures g[r].owner == Parent(w.headers[a.holder].loc.region) {
      if a != slot {
        CrossesStored(v, f, g, o, i, j, p, a, r);
      }
    }
    forall a, b, r | Crosses(w, g, a, r) && Crosses(w, g, b, r) ensures a == b {
      if a != slot {
        CrossesStored(v, f, g, o, i, j, p, a, r);
      }
      if b != slot {
        CrossesStored(v, f, g, o, i, j, p, b, r);
      }
    }
  }

  /** A crossing reference other than `slot` enters `x`. */
  ghost predicate EnteredElsewhere(v: View, f: Forest, slot: Site, x: RegionId) {
    exists s :: s != slot && Crosses(v, f, s, x)
  }

  lemma EnteredStored(
    v: View, f: Forest, g: Forest, o: HeaderId, i: int, j: int, p: Plan, s: RegionId)
    requires o in v.headers && 0 <= i < |v.headers[o].fields| && 0 <= j < |v.registers|
    requires LivesIn(v, o, s) && s in f && !f[s].IsFrameLocal() && SameDepths(f, g)
    requires forall r | r in f && g[r].HasParent() ::
      || (PointsInto(v, Register(j), r) && r != s && !f[r].IsFrameLocal())
      || EnteredElsewhere(v, f, Field(o, i), r)
    ensures Entered(Stored(v, o, i, j, p), g)
  {
    var w, slot := Stored(v, o, i, j, p), Field(o, i);
    StoredSites(v, o, i, j, p);
    forall r | r in g && g[r].HasParent() ensures EnteredAt(w, g, r) {
      if EnteredElsewhere(v, f, slot, r) {
        var a :| a != slot && Crosses(v, f, a, r);
        CrossesStored(v, f, g, o, i, j, p, a, r);
      } else {
        assert Crosses(w, g, slot, r);
      }
    }
  }

  /** Every dragged reference into a child of the destination is the one taken over from the slot. */
  ghost predicate Clean(v: View, f: Forest, s: RegionId, d: set<HeaderId>, taken: Option<RegionId>) {
    forall x | x in f && !f[x].IsFrameLocal() && x != s && f[x].owner == Parent(s) ::
      |DraggedInto(v, d, x)| == One(taken == Some(x))
  }

  /**
   The same, before the drag: what has to move refers to no child of the destination, but for one reference
   into the region that is being exchanged out.
   */
  ghost predicate CleanDrag(v: View, f: Forest, s: RegionId, root: HeaderId, orphan: Option<RegionId>)
    requires s in f
  {
    forall x | x in f && !f[x].IsFrameLocal() && x != s && f[x].owner == Parent(s) ::
      |DraggedInto(v, DragSet(v, f, s, root), x)| <= One(orphan == Some(x))
  }

  lemma CleanBefore(v: View, f: Forest, s: RegionId, root: HeaderId, d: set<HeaderId>, orphan: Option<RegionId>)
    requires s in f && d == DragSet(v, f, s, root)
    ensures Clean(v, f, s, d, TakenOver(v, f, d, orphan)) <==> CleanDrag(v, f, s, root, orphan)
  {
    hide DragSet, DraggedInto;
    forall x | x in f && !f[x].IsFrameLocal() ensures |DraggedInto(v, d, x)| == One(TakenOver(v, f, d, orphan) == Some(x)) <==>
      |DraggedInto(v, d, x)| <= One(orphan == Some(x))
    {
      assert |DraggedInto(v, d, x)| == 0 <==> DraggedInto(v, d, x) == {};
    }
  }

  lemma OneElement<T>(xs: set<T>, a: T, b: T)
    requires |xs| <= 1 && a in xs && b in xs
    ensures a == b
  {
    if a != b {
      assert {a, b} <= xs;
      SubsetSize({a, b}, xs);
    }
  }

  /** A clean drag keeps the single-entry rule, apart from the reference about to be overwritten. */
  lemma SingleEntryDragged(
    v: View, f: Forest, g: Forest, s: RegionId, d: set<HeaderId>, subs: map<RegionId, HeaderId>, taken: Option<RegionId>,
    slot: Site)
    requires s in f && !f[s].IsFrameLocal() && SameDepths(f, g)
    requires SingleEntry(v, f) && Closed(v, f) && Adopts(v, f, s, d, subs) && Clean(v, f, s, d, taken)
    requires forall t | t in d :: FrameLocal(v, f, t)
    requires forall x | x in f :: g[x].owner == if x in subs then Parent(s) else f[x].owner
    requires taken.Some? ==> Crosses(v, f, slot, taken.value)
    ensures SingleEntryBut(MovedView(v, d, s), g, slot)
  {
    var w := MovedView(v, d, s);
    SitesMoved(v, d, s);
    forall a, r | Crosses(w, g, a, r) && a != slot ensures g[r].owner == Parent(w.headers[a.holder].loc.region) {
      CrossingAfterDrag(v, f, g, s, d, a, r);
      assert a.holder in d ==> DraggedInto(v, d, r) != {};
    }
    forall a, b, r | Crosses(w, g, a, r) && Crosses(w, g, b, r) && a != slot && b != slot ensures a == b {
      CrossingAfterDrag(v, f, g, s, d, a, r);
      CrossingAfterDrag(v, f, g, s, d, b, r);
      OneCrossing(v, f, s, d, subs, taken, slot, a, b, r);
    }
  }

  lemma CrossingAfterDrag(v: View, f: Forest, g: Forest, s: RegionId, d: set<HeaderId>, a: Site, r: RegionId)
    requires s in f && !f[s].IsFrameLocal() && SameDepths(f, g) && Closed(v, f)
    requires forall t | t in d :: FrameLocal(v, f, t)
    requires Crosses(MovedView(v, d, s), g, a, r)
    ensures r in f && !f[r].IsFrameLocal() && (if a.holder in d then r != s && a in DraggedInto(v, d, r) else Crosses(v, f, a, r))
  {
    SitesMoved(v, d, s);
  }

  lemma OneCrossing(
    v: View, f: Forest, s: RegionId, d: set<HeaderId>, subs: map<RegionId, HeaderId>, taken: Option<RegionId>,
    slot: Site, a: Site, b: Site, r: RegionId)
    requires SingleEntry(v, f) && Adopts(v, f, s, d, subs) && Clean(v, f, s, d, taken)
    requires taken.Some? ==> Crosses(v, f, slot, taken.value)
    requires a.Field? && b.Field? && r in f && !f[r].IsFrameLocal()
    requires if a.holder in d then r != s && a in DraggedInto(v, d, r) else Crosses(v, f, a, r)
    requires if b.holder in d then r != s && b in DraggedInto(v, d, r) else Crosses(v, f, b, r)
    requires a != slot && b != slot
    ensures a == b
  {
    if a.holder in d && b.holder in d {
      OneElement(DraggedInto(v, d, r), a, b);
    }
  }

  // ---------------------------------------------------------------- the exchange

  /** Everything that the interpreter keeps between two stores. */
  ghost predicate Consistent(v: View, f: Forest, direct: Counts) {
    Sound(v, f) && Accounted(v, f, direct) && SingleEntry(v, f) && Entered(v, f)
  }

  /** In and out lie in one sub-region: the plan lets the value in, but still takes the parent away. */
  predicate SwapsInside(store: Location, out: Location, incoming: Location, f: Forest) {
    incoming.InRegion? && incoming == out && incoming != store && incoming.region in f && !f[incoming.region].IsFrameLocal()
  }

  /** The plan of a store into heap region `s`, read off the three locations. */
  lemma HeapPlan(
    v: View, f: Forest, isMove: bool, s: RegionId, out: Location, incoming: Location, above: bool, p: Plan)
    requires s in f && !f[s].IsFrameLocal()
    requires incoming.InRegion? ==> incoming.region in f
    requires out.InRegion? ==> out.region in f && !f[out.region].IsFrameLocal()
    requires p == PrepareIn(f, [], isMove, InRegion(s), out, incoming, above, PrepareOut(f, InRegion(s), out, PrepareStore(InRegion(s))))
    requires p.ok
    ensures !incoming.Stack?
    ensures p.clear == (isMove && !incoming.Immortal?) && p.inc == (!isMove && !incoming.Immortal?)
    ensures p.dragInto == if FrameLocalLocation(f, incoming) then Some(s) else None
    ensures p.outStackInc == One(out.InRegion?)
    ensures p.orphan == if out.InRegion? && out != InRegion(s) then Some(out.region) else None
    ensures p.inStackInc == if isMove && incoming.InRegion? && !FrameLocalLocation(f, incoming) then -1 else 0
    ensures p.adoptBy ==
      if incoming.InRegion? && !FrameLocalLocation(f, incoming) && incoming != InRegion(s) && f[incoming.region].owner.Unowned?
      then Some(s) else None
    ensures p.adoptBy.Some? ==> !above
    ensures incoming.InRegion? && !FrameLocalLocation(f, incoming) && incoming != InRegion(s) && f[incoming.region].HasOwner() ==>
      out == incoming
  {
  }

  /** The reports after the store, region by region. */
  lemma AccountedStored(
    v: View, f: Forest, g: Forest, direct: Counts, o: HeaderId, i: int, j: int, p: Plan)
    requires o in v.headers && 0 <= i < |v.headers[o].fields| && 0 <= j < |v.registers| && InHeapRegion(v, f, o)
    requires SameDepths(f, g) && direct.Keys == f.Keys
    requires forall x | x in f && !f[x].IsFrameLocal() ::
      direct[x] == |StackRefs(v, f, x)| - One(p.clear && PointsInto(v, Register(j), x)) + One(PointsInto(v, Field(o, i), x))
    ensures Accounted(Stored(v, o, i, j, p), g, direct)
  {
    var w := Stored(v, o, i, j, p);
    forall x | x in g && !g[x].IsFrameLocal() ensures AccountedAt(w, g, direct, x) {
      StoredRefs(v, f, o, i, j, p, x);
      assert StackRefs(w, g, x) == StackRefs(w, f, x);
    }
  }

  lemma StoredRcs(v: View, o: HeaderId, i: int, j: int, p: Plan)
    requires o in v.headers && 0 <= i < |v.headers[o].fields| && 0 <= j < |v.registers| && RcExact(v)
    requires var next := v.registers[j]; next.To? && next.target in v.headers && v.headers[next.target].loc.InRegion? ==>
      p.inc == !p.clear
    ensures RcExact(Stored(v, o, i, j, p))
  {
    hide Pointing;
    var w := Stored(v, o, i, j, p);
    forall t | t in w.headers && w.headers[t].loc.InRegion? ensures RcExactAt(w, t) {
      assert RcExactAt(v, t);
      StoredPointing(v, o, i, j, p, t);
    }
  }

  lemma StoredMembers(v: View, f: Forest, g: Forest, o: HeaderId, i: int, j: int, p: Plan)
    requires o in v.headers && 0 <= i < |v.headers[o].fields| && 0 <= j < |v.registers| && Members(v, f)
    requires g.Keys == f.Keys && forall x | x in f :: g[x].members == f[x].members
    ensures Members(Stored(v, o, i, j, p), g)
  {
    hide Stored;
    StoredSites(v, o, i, j, p);
    forall x | x in g ensures MembersAt(Stored(v, o, i, j, p), g, x) {
      assert MembersAt(v, f, x);
    }
  }

  /** Headers, lifetimes and membership after the store. */
  lemma SoundStored(v: View, f: Forest, g: Forest, o: HeaderId, i: int, j: int, p: Plan)
    requires o in v.headers && 0 <= i < |v.headers[o].fields| && 0 <= j < |v.registers| && InHeapRegion(v, f, o)
    requires Sound(v, f) && SameDepths(f, g) && forall x | x in f :: g[x].members == f[x].members
    requires var next := v.registers[j]; next.To? && next.target in v.headers && v.headers[next.target].loc.InRegion? ==>
      p.inc == !p.clear && InHeapRegion(v, f, next.target)
    requires var next := v.registers[j]; next.To? && next.target in v.headers ==> !v.headers[next.target].loc.Stack?
    ensures Sound(Stored(v, o, i, j, p), g)
  {
    hide Stored, RcExact, Members;
    StoredSites(v, o, i, j, p);
    assert IsSite(v, Register(j)) && IsSite(v, Field(o, i));
    StoredRcs(v, o, i, j, p);
    StoredMembers(v, f, g, o, i, j, p);
  }
}
