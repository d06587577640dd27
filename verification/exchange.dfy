/**
 `exchange` (vbci/writebarrier.h:355-373) on a field of an object in a heap region: the incoming register
 value replaces the field, which moves into a new register.
 */
module Exchanges {
  import opened Collections
  import opened Regions
  import opened Graphs
  import opened Heaps
  import opened Drags
  import opened DragCommit
  import opened DragExact
  import opened WriteBarrier

  // ---------------------------------------------------------------- applying the whole plan

  /** `to_addr`, and the count or the clearing of the incoming value; the outgoing one becomes a register. */
  method Write(h: Heap, o: HeaderId, i: int, j: int, p: Plan)
    requires o in h.headers && 0 <= i < |h.headers[o].fields| && 0 <= j < |h.registers|
    modifies h`headers, h`registers
    ensures h.Graph() == Stored(old(h.Graph()), o, i, j, p)
  {
    var next, prev := h.registers[j], h.headers[o].fields[i];
    h.headers := h.headers[o := h.headers[o].(fields := h.headers[o].fields[i := next])];
    if p.clear {
      h.registers := h.registers[j := Null];
    }
    if p.inc && next.To? && next.target in h.headers {
      h.headers := h.headers[next.target := h.headers[next.target].(rc := h.headers[next.target].rc + 1)];
    }
    h.registers := h.registers + [prev];
  }

  /** The ownership changes of a plan: `x` is the incoming value's region, entered through `entry`. */
  function Rewired(f: Forest, p: Plan, s: RegionId, x: RegionId, entry: HeaderId): Forest
    requires x in f && (p.orphan.Some? ==> p.orphan.value in f)
  {
    var g := if p.adoptBy.Some? then Adopted(f, x, s, entry) else f;
    if p.orphan.Some? then Orphaned(g, p.orphan.value) else g
  }

  /** What the regions must look like for a plan to be carried out. */
  ghost predicate Ready(
    f: Forest, direct: Counts, depth: map<RegionId, nat>, p: Plan, s: RegionId, x: RegionId, q: RegionId)
    requires Tree(f, depth) && direct.Keys == f.Keys
  {
    && s in f && !f[s].IsFrameLocal()
    && x in f && !f[x].IsFrameLocal()
    && q in f && !f[q].IsFrameLocal() && (q == s || f[q].owner == Parent(s))
    && p.inStackInc in {-1, 0, 1} && p.outStackInc in {0, 1}
    && direct[s] >= 1 + One(p.inStackInc == -1 && x == s)
    && (p.adoptBy.Some? ==> p.adoptBy.value == s && x != s && f[x].owner.Unowned? && !Within(f, depth, s, x))
    && (p.adoptBy.Some? || p.inStackInc == -1 ==> direct[x] >= 1)
    && (p.inStackInc != 0 ==> x == s || p.adoptBy.Some? || f[x].owner == Parent(s))
    && (p.orphan.Some? ==>
          p.orphan.value == q && q != s && (p.outStackInc == 1 || direct[q] + (if q == x then p.inStackInc else 0) >= 1))
  }

  method Carry(h: Heap, p: Plan, s: RegionId, x: RegionId, entry: HeaderId, q: RegionId)
    requires h.Counted() && Ready(h.regions, h.direct, h.depth, p, s, x, q)
    modifies h`regions, h`direct, h`depth
    ensures h.Counted() && h.direct == Add(Add(old(h.direct), x, p.inStackInc), q, p.outStackInc)
    ensures SameButCounts(Rewired(old(h.regions), p, s, x, entry), h.regions)
  {
    ghost var f := h.regions;
    ApplyIn(h, p, s, x, entry);
    ghost var g := h.regions;
    ApplyOut(h, p, s, q);
  }

  // ---------------------------------------------------------------- the setting

  /** Slot `i` of object `o`, which lives in heap region `s`, receives register `j`; another register holds `o`. */
  ghost predicate Storing(v: View, f: Forest, o: HeaderId, i: int, j: int, s: RegionId) {
    && LivesIn(v, o, s) && s in f && !f[s].IsFrameLocal()
    && 0 <= i < |v.headers[o].fields| && 0 <= j < |v.registers|
    && exists k | 0 <= k < |v.registers| && k != j :: v.registers[k] == To(o)
  }

  function Incoming(v: View, j: int): Location
    requires 0 <= j < |v.registers|
  {
    LocationOf(v, v.registers[j])
  }

  function Outgoing(v: View, o: HeaderId, i: int): Location
    requires o in v.headers && 0 <= i < |v.headers[o].fields|
  {
    LocationOf(v, v.headers[o].fields[i])
  }

  /** The region that a location adds to, or `s` when it is of no account. */
  function HeapRegionOf(f: Forest, loc: Location, s: RegionId): RegionId {
    if loc.InRegion? && loc.region in f && !f[loc.region].IsFrameLocal() then loc.region else s
  }

  /** `apply_in` joins the two adjustments when both values live in one region. */
  function Combined(p: Plan, same: bool): Plan {
    if same then p.(inStackInc := p.inStackInc + p.outStackInc, outStackInc := 0) else p
  }

  /** The whole plan for a store into heap region `s`. */
  function Planned(f: Forest, isMove: bool, s: RegionId, out: Location, incoming: Location, above: bool): Plan
    requires s in f && (incoming.InRegion? ==> incoming.region in f)
  {
    PrepareIn(f, [], isMove, InRegion(s), out, incoming, above, PrepareOut(f, InRegion(s), out, PrepareStore(InRegion(s))))
  }

  /** What the outgoing value may be. */
  lemma OutgoingKnown(v: View, f: Forest, o: HeaderId, i: int, j: int, s: RegionId)
    requires Storing(v, f, o, i, j, s) && WellFormed(v, f) && Closed(v, f)
    ensures var out := Outgoing(v, o, i);
      && (out.InRegion? ==> out.region in f && !f[out.region].IsFrameLocal())
      && (forall x :: PointsInto(v, Field(o, i), x) <==> out == InRegion(x))
      && (out.InRegion? && out != InRegion(s) ==> Crosses(v, f, Field(o, i), out.region))
  {
    assert IsSite(v, Field(o, i));
  }

  lemma IncomingKnown(v: View, f: Forest, j: int)
    requires WellFormed(v, f) && 0 <= j < |v.registers|
    ensures var incoming := Incoming(v, j);
      && (incoming.InRegion? ==> incoming.region in f)
      && (forall x :: PointsInto(v, Register(j), x) <==> incoming == InRegion(x))
  {
    assert IsSite(v, Register(j));
  }

  /** The registers alone keep these references reported. */
  lemma Reports(v: View, f: Forest, o: HeaderId, i: int, j: int, s: RegionId)
    requires Storing(v, f, o, i, j, s) && WellFormed(v, f)
    ensures |StackRefs(v, f, s)| >= 1 + One(PointsInto(v, Register(j), s))
    ensures forall x | PointsInto(v, Register(j), x) :: |StackRefs(v, f, x)| >= 1
  {
    var k :| 0 <= k < |v.registers| && k != j && v.registers[k] == To(o);
    assert Register(k) in StackRefs(v, f, s);
    if PointsInto(v, Register(j), s) {
      SubsetSize({Register(k), Register(j)}, StackRefs(v, f, s));
    }
    forall x | PointsInto(v, Register(j), x) ensures |StackRefs(v, f, x)| >= 1 {
      assert Register(j) in StackRefs(v, f, x);
    }
  }

  /** `p` is the plan for the store, and it is accepted. */
  ghost predicate Accepted(
    v: View, f: Forest, o: HeaderId, i: int, j: int, s: RegionId, isMove: bool, above: bool, p: Plan)
  {
    && Storing(v, f, o, i, j, s)
    && (Incoming(v, j).InRegion? ==> Incoming(v, j).region in f)
    && (Outgoing(v, o, i).InRegion? ==> Outgoing(v, o, i).region in f)
    && p == Planned(f, isMove, s, Outgoing(v, o, i), Incoming(v, j), above)
    && p.ok
  }

  /** The regions that gain or lose a report, and the entry of a new child. */
  ghost function Gaining(v: View, f: Forest, j: int, s: RegionId): RegionId
    requires 0 <= j < |v.registers|
  {
    HeapRegionOf(f, Incoming(v, j), s)
  }

  ghost function Losing(v: View, f: Forest, o: HeaderId, i: int, s: RegionId): RegionId
    requires o in v.headers && 0 <= i < |v.headers[o].fields|
  {
    HeapRegionOf(f, Outgoing(v, o, i), s)
  }

  function EntryOf(v: View, o: HeaderId, j: int): HeaderId
    requires 0 <= j < |v.registers|
  {
    if v.registers[j].To? then v.registers[j].target else o
  }

  /** `Add` for both regions of a plan. */
  ghost function Settled(v: View, f: Forest, direct: Counts, o: HeaderId, i: int, j: int, s: RegionId, p: Plan): Counts
    requires Storing(v, f, o, i, j, s)
  {
    var c := Combined(p, Outgoing(v, o, i) == Incoming(v, j));
    Add(Add(direct, Gaining(v, f, j, s), c.inStackInc), Losing(v, f, o, i, s), c.outStackInc)
  }

  /** The overwritten region is left without an owner; the incoming one and those of dragged references become children of `s`. */
  ghost function OwnerAfter(
    v: View, f: Forest, j: int, s: RegionId, p: Plan, subs: map<RegionId, HeaderId>, taken: Option<RegionId>, x: RegionId): Owner
    requires x in f && 0 <= j < |v.registers|
  {
    if WithOrphan(p, taken).orphan == Some(x) then Unowned
    else if x in subs || (p.adoptBy.Some? && Incoming(v, j) == InRegion(x)) then Parent(s)
    else f[x].owner
  }

  /** The same regions at the same depths, and none is freed. */
  ghost predicate SameLives(f: Forest, g: Forest) {
    SameDepths(f, g) && forall x | x in f :: g[x].finalizing == f[x].finalizing
  }

  ghost predicate Rehung(
    v: View, f: Forest, g: Forest, j: int, s: RegionId, p: Plan, subs: map<RegionId, HeaderId>, taken: Option<RegionId>)
    requires 0 <= j < |v.registers|
  {
    SameLives(f, g) && forall x | x in f :: g[x].owner == OwnerAfter(v, f, j, s, p, subs, taken, x)
  }

  lemma RehungPlain(
    v: View, f: Forest, g: Forest, o: HeaderId, i: int, j: int, s: RegionId, isMove: bool, above: bool, p: Plan)
    requires Sound(v, f) && Accepted(v, f, o, i, j, s, isMove, above, p) && p.dragInto.None?
    requires Rewired.requires(f, p, s, Gaining(v, f, j, s), EntryOf(v, o, j))
    requires SameButCounts(Rewired(f, p, s, Gaining(v, f, j, s), EntryOf(v, o, j)), g)
    ensures Rehung(v, f, g, j, s, p, map[], None) && SameDepths(f, g)
  {
    IncomingKnown(v, f, j);
    OutgoingKnown(v, f, o, i, j, s);
    HeapPlan(v, f, isMove, s, Outgoing(v, o, i), Incoming(v, j), above, p);
  }

  /** The incoming reference is the entry of the region that it makes a child. */
  lemma PlainEntries(
    v: View, f: Forest, g: Forest, o: HeaderId, i: int, j: int, s: RegionId, isMove: bool, above: bool, p: Plan)
    requires Sound(v, f) && SingleEntry(v, f) && Accepted(v, f, o, i, j, s, isMove, above, p) && p.dragInto.None?
    requires Rewired.requires(f, p, s, Gaining(v, f, j, s), EntryOf(v, o, j))
    requires SameButCounts(Rewired(f, p, s, Gaining(v, f, j, s), EntryOf(v, o, j)), g)
    ensures EntriesFollow(Stored(v, o, i, j, p), f, g)
  {
    hide Stored, RcExact, Members, FrozenClosed;
    var w := Stored(v, o, i, j, p);
    IncomingKnown(v, f, j);
    OutgoingKnown(v, f, o, i, j, s);
    HeapPlan(v, f, isMove, s, Outgoing(v, o, i), Incoming(v, j), above, p);
    StoredSites(v, o, i, j, p);
    forall x | x in f ensures EntryFollows(w, f, g, x) {
      if p.adoptBy.Some? && Incoming(v, j) == InRegion(x) {
        assert Crosses(w, g, Field(o, i), x);
      }
    }
  }

  // ---------------------------------------------------------------- a store that drags nothing

  lemma PlainReady(
    v: View, f: Forest, direct: Counts, depth: map<RegionId, nat>, o: HeaderId, i: int, j: int, s: RegionId, isMove: bool,
    above: bool, p: Plan)
    requires Tree(f, depth) && Consistent(v, f, direct)
    requires Accepted(v, f, o, i, j, s, isMove, above, p) && p.dragInto.None?
    requires Incoming(v, j).InRegion? ==> above == Above(f, depth, Incoming(v, j).region, s)
    ensures Ready(f, direct, depth, Combined(p, Outgoing(v, o, i) == Incoming(v, j)), s, Gaining(v, f, j, s), Losing(v, f, o, i, s))
  {
    OutgoingKnown(v, f, o, i, j, s);
    IncomingKnown(v, f, j);
    HeapPlan(v, f, isMove, s, Outgoing(v, o, i), Incoming(v, j), above, p);
    Reports(v, f, o, i, j, s);
    var x := Gaining(v, f, j, s);
    assert AccountedAt(v, f, direct, s) && AccountedAt(v, f, direct, x);
    AboveWithin(f, depth, x, s);
  }

  /** The adjustments of a plain store are the references that its two registers gain and lose. */
  lemma PlainCounts(
    v: View, f: Forest, direct: Counts, o: HeaderId, i: int, j: int, s: RegionId, isMove: bool, above: bool, p: Plan,
    y: RegionId)
    requires Sound(v, f) && Accepted(v, f, o, i, j, s, isMove, above, p) && p.dragInto.None?
    requires direct.Keys == f.Keys && y in f && !f[y].IsFrameLocal()
    ensures Settled(v, f, direct, o, i, j, s, p)[y] ==
      direct[y] - One(p.clear && PointsInto(v, Register(j), y)) + One(PointsInto(v, Field(o, i), y))
  {
    OutgoingKnown(v, f, o, i, j, s);
    IncomingKnown(v, f, j);
    HeapPlan(v, f, isMove, s, Outgoing(v, o, i), Incoming(v, j), above, p);
  }

  lemma PlainAccounts(
    v: View, f: Forest, g: Forest, direct: Counts, o: HeaderId, i: int, j: int, s: RegionId, isMove: bool, above: bool, p: Plan)
    requires Sound(v, f) && Accepted(v, f, o, i, j, s, isMove, above, p) && p.dragInto.None?
    requires Accounted(v, f, direct) && SameDepths(f, g)
    ensures Accounted(Stored(v, o, i, j, p), g, Settled(v, f, direct, o, i, j, s, p))
  {
    forall y | y in f && !f[y].IsFrameLocal()
      ensures Settled(v, f, direct, o, i, j, s, p)[y] ==
        |StackRefs(v, f, y)| - One(p.clear && PointsInto(v, Register(j), y)) + One(PointsInto(v, Field(o, i), y))
    {
      assert AccountedAt(v, f, direct, y);
      PlainCounts(v, f, direct, o, i, j, s, isMove, above, p, y);
    }
    AccountedStored(v, f, g, Settled(v, f, direct, o, i, j, s, p), o, i, j, p);
  }

  /** The swapped-in reference enters a region that has just lost its parent. */
  lemma SwapBreaks(v: View, f: Forest, g: Forest, o: HeaderId, i: int, j: int, s: RegionId, p: Plan, x: RegionId)
    requires Storing(v, f, o, i, j, s) && PointsInto(v, Register(j), x) && x in f && !f[x].IsFrameLocal() && x != s
    requires SameDepths(f, g) && g[x].owner.Unowned?
    ensures !SingleEntry(Stored(v, o, i, j, p), g)
  {
    StoredSites(v, o, i, j, p);
    assert Crosses(Stored(v, o, i, j, p), g, Field(o, i), x);
  }

  /** A child keeps its entry, unless the entry is overwritten and it loses its parent too. */
  lemma PlainEntered(
    v: View, f: Forest, g: Forest, o: HeaderId, i: int, j: int, s: RegionId, isMove: bool, above: bool, p: Plan)
    requires Sound(v, f) && Entered(v, f)
    requires Accepted(v, f, o, i, j, s, isMove, above, p) && p.dragInto.None?
    requires SameButCounts(Rewired(f, p, s, Gaining(v, f, j, s), EntryOf(v, o, j)), g)
    ensures Entered(Stored(v, o, i, j, p), g)
  {
    OutgoingKnown(v, f, o, i, j, s);
    IncomingKnown(v, f, j);
    HeapPlan(v, f, isMove, s, Outgoing(v, o, i), Incoming(v, j), above, p);
    forall r | r in f && g[r].HasParent()
      ensures (PointsInto(v, Register(j), r) && r != s && !f[r].IsFrameLocal()) || EnteredElsewhere(v, f, Field(o, i), r)
    {
      if f[r].HasParent() {
        assert EnteredAt(v, f, r);
      }
    }
    EnteredStored(v, f, g, o, i, j, p, s);
  }

  lemma PlainSound(
    v: View, f: Forest, g: Forest, o: HeaderId, i: int, j: int, s: RegionId, isMove: bool, above: bool, p: Plan)
    requires Sound(v, f) && SingleEntry(v, f) && Entered(v, f)
    requires Accepted(v, f, o, i, j, s, isMove, above, p) && p.dragInto.None?
    requires SameButCounts(Rewired(f, p, s, Gaining(v, f, j, s), EntryOf(v, o, j)), g)
    ensures Sound(Stored(v, o, i, j, p), g) && Entered(Stored(v, o, i, j, p), g)
    ensures SingleEntry(Stored(v, o, i, j, p), g) <==> !SwapsInside(InRegion(s), Outgoing(v, o, i), Incoming(v, j), f)
  {
    OutgoingKnown(v, f, o, i, j, s);
    IncomingKnown(v, f, j);
    HeapPlan(v, f, isMove, s, Outgoing(v, o, i), Incoming(v, j), above, p);
    assert SameDepths(f, g);
    SoundStored(v, f, g, o, i, j, p);
    PlainEntered(v, f, g, o, i, j, s, isMove, above, p);
    if SwapsInside(InRegion(s), Outgoing(v, o, i), Incoming(v, j), f) {
      SwapBreaks(v, f, g, o, i, j, s, p, Incoming(v, j).region);
    } else {
      SingleEntryStored(v, f, g, o, i, j, p, s);
    }
  }

  /** The overwritten region, if something in it is met before anything ends the traversal of the drag. */
  ghost function InTime(
    v: View, f: Forest, depth: map<RegionId, nat>, s: RegionId, root: HeaderId, orphan: Option<RegionId>): Option<RegionId>
    requires Tree(f, depth) && s in f
  {
    if orphan.Some? && MetInTime(v, f, depth, s, root, orphan.value) then orphan else None
  }

  /** A refused store that has retracted a report leaves a count that is one too low. */
  lemma RefusedLeaves(v: View, f: Forest, direct: Counts, g: Forest, direct': Counts, taken: Option<RegionId>)
    requires Consistent(v, f, direct) && SameButCounts(f, g)
    requires taken.Some? ==> taken.value in f && !f[taken.value].IsFrameLocal()
    requires direct' == if taken.Some? then Add(direct, taken.value, -1) else direct
    requires taken.None? ==> g == f
    ensures Consistent(v, g, direct') <==> taken.None?
  {
    hide Sound, SingleEntry, Entered;
    if taken.Some? {
      assert AccountedAt(v, f, direct, taken.value);
      assert StackRefs(v, g, taken.value) == StackRefs(v, f, taken.value);
      assert !AccountedAt(v, g, direct', taken.value);
    }
  }

  lemma PlainRecounts(v: View, f: Forest, o: HeaderId, i: int, j: int, s: RegionId, isMove: bool, above: bool, p: Plan)
    requires Sound(v, f) && Accepted(v, f, o, i, j, s, isMove, above, p) && p.dragInto.None?
    ensures CopyCounted(v, Stored(v, o, i, j, p), if isMove then Null else v.registers[j])
  {
    OutgoingKnown(v, f, o, i, j, s);
    HeapPlan(v, f, isMove, s, Outgoing(v, o, i), Incoming(v, j), above, p);
    StoredRecounts(v, v, o, i, j, isMove, p);
  }

  /** Carry out a plan that drags nothing. */
  method ExchangePlain(h: Heap, o: HeaderId, i: int, j: int, s: RegionId, isMove: bool, ghost above: bool, p: Plan)
    requires h.Counted() && Consistent(h.Graph(), h.regions, h.direct)
    requires Accepted(h.Graph(), h.regions, o, i, j, s, isMove, above, p) && p.dragInto.None?
    requires Incoming(h.Graph(), j).InRegion? ==> above == Above(h.regions, h.depth, Incoming(h.Graph(), j).region, s)
    modifies h
    ensures h.Counted() && Sound(h.Graph(), h.regions) && Accounted(h.Graph(), h.regions, h.direct)
    ensures Entered(h.Graph(), h.regions)
    ensures SingleEntry(h.Graph(), h.regions) <==>
      !SwapsInside(InRegion(s), Outgoing(old(h.Graph()), o, i), Incoming(old(h.Graph()), j), old(h.regions))
    ensures h.Graph() == Stored(old(h.Graph()), o, i, j, p)
    ensures CopyCounted(old(h.Graph()), h.Graph(), if isMove then Null else old(h.registers)[j])
    ensures Rehung(old(h.Graph()), old(h.regions), h.regions, j, s, p, map[], None)
    ensures EntriesFollow(h.Graph(), old(h.regions), h.regions)
  {
    hide Sound, SingleEntry, Entered, Accounted, SwapsInside, Stored, Rehung, SameDepths, TreeAt, BalancedAt;
    ghost var v, f, direct := h.Graph(), h.regions, h.direct;
    PlainReady(v, f, direct, h.depth, o, i, j, s, isMove, above, p);
    PlainRecounts(v, f, o, i, j, s, isMove, above, p);
    var out, incoming := Outgoing(h.Graph(), o, i), Incoming(h.Graph(), j);
    var entry := EntryOf(h.Graph(), o, j);
    var x, q := HeapRegionOf(h.regions, incoming, s), HeapRegionOf(h.regions, out, s);
    Write(h, o, i, j, p);
    Carry(h, Combined(p, out == incoming), s, x, entry, q);
    RehungPlain(v, f, h.regions, o, i, j, s, isMove, above, p);
    PlainEntries(v, f, h.regions, o, i, j, s, isMove, above, p);
    PlainAccounts(v, f, h.regions, direct, o, i, j, s, isMove, above, p);
    PlainSound(v, f, h.regions, o, i, j, s, isMove, above, p);
  }

  // ---------------------------------------------------------------- a store that drags

  /** What the drag of the incoming value has left: the graph `MovedView(v, d, s)`, and accounts with known excesses. */
  ghost predicate AfterDrag(
    v: View, f: Forest, g: Forest, direct: Counts, s: RegionId, root: HeaderId, isMove: bool, d: set<HeaderId>,
    subs: map<RegionId, HeaderId>, taken: Option<RegionId>)
    requires s in f
  {
    && SameLives(f, g) && direct.Keys == f.Keys
    && (forall x | x in f :: g[x].owner == if x in subs then Parent(s) else f[x].owner)
    && (forall x | x in f :: g[x].entry == if x in subs then Some(subs[x]) else f[x].entry)
    && DragsTo(v, f, s, root, d) && Adopts(v, f, s, d, subs)
    && Sound(MovedView(v, d, s), g)
    && forall x | x in f && !f[x].IsFrameLocal() ::
         Exceeds(MovedView(v, d, s), g, direct, x, Excess(v, f, s, root, isMove, d, taken, x))
  }

  /** An accepted store whose incoming value has just been dragged into `s`. */
  ghost predicate Dragged(
    v: View, f: Forest, g: Forest, direct: Counts, o: HeaderId, i: int, j: int, s: RegionId, isMove: bool, above: bool,
    p: Plan, d: set<HeaderId>, subs: map<RegionId, HeaderId>, taken: Option<RegionId>)
  {
    && Sound(v, f) && SingleEntry(v, f) && Entered(v, f)
    && Accepted(v, f, o, i, j, s, isMove, above, p) && p.dragInto.Some? && v.registers[j].To?
    && AfterDrag(v, f, g, direct, s, v.registers[j].target, isMove, d, subs, taken)
    && (taken == p.orphan || taken.None?)
  }

  /** `apply_in` forgets the orphan when the drag has taken its reference over. */
  function WithOrphan(p: Plan, taken: Option<RegionId>): Plan {
    if taken.Some? then p.(orphan := None) else p
  }

  lemma DragPlan(
    v: View, f: Forest, g: Forest, direct: Counts, o: HeaderId, i: int, j: int, s: RegionId, isMove: bool, above: bool,
    p: Plan, d: set<HeaderId>, subs: map<RegionId, HeaderId>, taken: Option<RegionId>)
    requires Dragged(v, f, g, direct, o, i, j, s, isMove, above, p, d, subs, taken)
    ensures p.clear == isMove && p.inc == !isMove && p.inStackInc == 0 && p.adoptBy.None?
    ensures var out := Outgoing(v, o, i);
      && p.outStackInc == One(out.InRegion?)
      && p.orphan == (if out.InRegion? && out != InRegion(s) then Some(out.region) else None)
      && (out.InRegion? ==> out.region in f && !f[out.region].IsFrameLocal())
      && (p.orphan.Some? ==> Crosses(v, f, Field(o, i), p.orphan.value))
    ensures FrameLocalLocation(f, Incoming(v, j)) && Draggable(v, f, s, v.registers[j].target)
  {
    OutgoingKnown(v, f, o, i, j, s);
    IncomingKnown(v, f, j);
    HeapPlan(v, f, isMove, s, Outgoing(v, o, i), Incoming(v, j), above, p);
  }

  /** The store as it looks from the graph after the drag. */
  lemma DragSetting(
    v: View, f: Forest, g: Forest, direct: Counts, o: HeaderId, i: int, j: int, s: RegionId, isMove: bool, above: bool,
    p: Plan, d: set<HeaderId>, subs: map<RegionId, HeaderId>, taken: Option<RegionId>)
    requires Dragged(v, f, g, direct, o, i, j, s, isMove, above, p, d, subs, taken)
    ensures var w := MovedView(v, d, s);
      && Storing(w, g, o, i, j, s)
      && Outgoing(w, o, i) == Outgoing(v, o, i) && Incoming(w, j) == InRegion(s)
      && v.registers[j].target in d && (forall t | t in d :: FrameLocal(v, f, t))
      && (forall x :: PointsInto(w, Field(o, i), x) <==> Outgoing(v, o, i) == InRegion(x))
      && (forall x :: PointsInto(w, Register(j), x) <==> x == s)
  {
    var w := MovedView(v, d, s);
    SitesMoved(v, d, s);
    DragPlan(v, f, g, direct, o, i, j, s, isMove, above, p, d, subs, taken);
    forall t | t in d ensures FrameLocal(v, f, t) {
      assert Draggable(v, f, s, t);
    }
    assert IsSite(v, Field(o, i)) && IsSite(w, Field(o, i)) && IsSite(w, Register(j));
    assert w.headers[v.registers[j].target].loc == InRegion(s);
  }

  lemma DragReady(
    v: View, f: Forest, g: Forest, direct: Counts, depth: map<RegionId, nat>, o: HeaderId, i: int, j: int, s: RegionId,
    isMove: bool, above: bool, p: Plan, d: set<HeaderId>, subs: map<RegionId, HeaderId>, taken: Option<RegionId>)
    requires Tree(g, depth) && Dragged(v, f, g, direct, o, i, j, s, isMove, above, p, d, subs, taken)
    ensures Ready(g, direct, depth, WithOrphan(p, taken), s, s, Losing(v, f, o, i, s)) && p.adoptBy.None?
    ensures Storing(MovedView(v, d, s), g, o, i, j, s)
    ensures HeapRegionOf(g, Outgoing(MovedView(v, d, s), o, i), s) == Losing(v, f, o, i, s)
  {
    var w := MovedView(v, d, s);
    DragPlan(v, f, g, direct, o, i, j, s, isMove, above, p, d, subs, taken);
    DragSetting(v, f, g, direct, o, i, j, s, isMove, above, p, d, subs, taken);
    Reports(w, g, o, i, j, s);
    assert Exceeds(w, g, direct, s, Excess(v, f, s, v.registers[j].target, isMove, d, taken, s));
  }

  /** By how much the reports to `y` exceed its references in the end. */
  ghost function Residue(v: View, f: Forest, s: RegionId, d: set<HeaderId>, taken: Option<RegionId>, y: RegionId): int
    requires y in f
  {
    if y != s && f[y].owner == Parent(s) then |DraggedInto(v, d, y)| - One(taken == Some(y)) else 0
  }

  lemma StoredRefsIn(v: View, g: Forest, g': Forest, o: HeaderId, i: int, j: int, p: Plan, x: RegionId)
    requires o in v.headers && 0 <= i < |v.headers[o].fields| && 0 <= j < |v.registers|
    requires InHeapRegion(v, g, o) && SameDepths(g, g')
    ensures |StackRefs(Stored(v, o, i, j, p), g', x)| == |StackRefs(v, g, x)|
      - One(p.clear && PointsInto(v, Register(j), x)) + One(PointsInto(v, Field(o, i), x))
  {
    StoredRefs(v, g, o, i, j, p, x);
    assert StackRefs(Stored(v, o, i, j, p), g', x) == StackRefs(Stored(v, o, i, j, p), g, x);
  }

  lemma DragCounts(
    v: View, f: Forest, g: Forest, g': Forest, direct: Counts, o: HeaderId, i: int, j: int, s: RegionId, isMove: bool,
    above: bool, p: Plan, d: set<HeaderId>, subs: map<RegionId, HeaderId>, taken: Option<RegionId>, y: RegionId)
    requires Dragged(v, f, g, direct, o, i, j, s, isMove, above, p, d, subs, taken)
    requires SameDepths(g, g') && y in f && !f[y].IsFrameLocal()
    ensures Exceeds(Stored(MovedView(v, d, s), o, i, j, WithOrphan(p, taken)), g',
      Add(Add(direct, s, 0), Losing(v, f, o, i, s), p.outStackInc), y, Residue(v, f, s, d, taken, y))
  {
    hide Stored, StackRefs, Sound, SingleEntry, Entered, Accounted, Adopts, Regrown, Enough;
    var w, q := MovedView(v, d, s), WithOrphan(p, taken);
    DragPlan(v, f, g, direct, o, i, j, s, isMove, above, p, d, subs, taken);
    DragSetting(v, f, g, direct, o, i, j, s, isMove, above, p, d, subs, taken);
    StoredRefsIn(w, g, g', o, i, j, q, y);
    assert Exceeds(w, g, direct, y, Excess(v, f, s, v.registers[j].target, isMove, d, taken, y));
  }

  lemma DragSound(
    v: View, f: Forest, g: Forest, g': Forest, direct: Counts, o: HeaderId, i: int, j: int, s: RegionId, isMove: bool,
    above: bool, p: Plan, d: set<HeaderId>, subs: map<RegionId, HeaderId>, taken: Option<RegionId>)
    requires Dragged(v, f, g, direct, o, i, j, s, isMove, above, p, d, subs, taken)
    requires SameDepths(g, g') && forall x | x in g :: g'[x].members == g[x].members
    ensures Sound(Stored(MovedView(v, d, s), o, i, j, WithOrphan(p, taken)), g')
  {
    DragPlan(v, f, g, direct, o, i, j, s, isMove, above, p, d, subs, taken);
    DragSetting(v, f, g, direct, o, i, j, s, isMove, above, p, d, subs, taken);
    SoundStored(MovedView(v, d, s), g, g', o, i, j, WithOrphan(p, taken));
  }

  /** A clean drag keeps the single-entry rule. */
  lemma DragEntry(
    v: View, f: Forest, g: Forest, g': Forest, direct: Counts, o: HeaderId, i: int, j: int, s: RegionId, isMove: bool,
    above: bool, p: Plan, d: set<HeaderId>, subs: map<RegionId, HeaderId>, taken: Option<RegionId>)
    requires Dragged(v, f, g, direct, o, i, j, s, isMove, above, p, d, subs, taken) && Clean(v, f, s, d, taken)
    requires SameDepths(g, g')
    requires forall x | x in g :: g'[x].owner == if WithOrphan(p, taken).orphan == Some(x) then Unowned else g[x].owner
    ensures SingleEntry(Stored(MovedView(v, d, s), o, i, j, WithOrphan(p, taken)), g')
    ensures Entered(Stored(MovedView(v, d, s), o, i, j, WithOrphan(p, taken)), g')
  {
    var w, q, slot := MovedView(v, d, s), WithOrphan(p, taken), Field(o, i);
    DragPlan(v, f, g, direct, o, i, j, s, isMove, above, p, d, subs, taken);
    DragSetting(v, f, g, direct, o, i, j, s, isMove, above, p, d, subs, taken);
    SingleEntryDragged(v, f, g, s, d, subs, taken, slot);
    if q.orphan.Some? {
      OrphanEntered(v, f, g, s, d, slot, q.orphan.value);
    }
    SingleEntryStored(w, g, g', o, i, j, q, s);
    forall x | x in g && g'[x].HasParent() ensures EnteredElsewhere(w, g, slot, x) {
      DragEntered(v, f, g, direct, o, i, j, s, isMove, above, p, d, subs, taken, x);
    }
    EnteredStored(w, g, g', o, i, j, q, s);
  }

  /** A child that keeps its parent is still entered, by an old reference or by a dragged one. */
  lemma DragEntered(
    v: View, f: Forest, g: Forest, direct: Counts, o: HeaderId, i: int, j: int, s: RegionId, isMove: bool,
    above: bool, p: Plan, d: set<HeaderId>, subs: map<RegionId, HeaderId>, taken: Option<RegionId>, x: RegionId)
    requires Dragged(v, f, g, direct, o, i, j, s, isMove, above, p, d, subs, taken) && Clean(v, f, s, d, taken)
    requires x in f && g[x].HasParent() && WithOrphan(p, taken).orphan != Some(x)
    ensures EnteredElsewhere(MovedView(v, d, s), g, Field(o, i), x)
  {
    var slot := Field(o, i);
    DragPlan(v, f, g, direct, o, i, j, s, isMove, above, p, d, subs, taken);
    DragSetting(v, f, g, direct, o, i, j, s, isMove, above, p, d, subs, taken);
    if x !in subs {
      assert EnteredAt(v, f, x);
    }
    EnteredMoved(v, f, g, s, d, slot, x);
  }

  lemma EnteredMoved(v: View, f: Forest, g: Forest, s: RegionId, d: set<HeaderId>, slot: Site, x: RegionId)
    requires s in f && !f[s].IsFrameLocal() && x in f && SameDepths(f, g)
    requires forall t | t in d :: FrameLocal(v, f, t)
    requires slot.Field? && slot.holder !in d
    requires (DraggedInto(v, d, x) != {} && x != s && !f[x].IsFrameLocal()) || EnteredElsewhere(v, f, slot, x)
    ensures EnteredElsewhere(MovedView(v, d, s), g, slot, x)
  {
    SitesMoved(v, d, s);
    if EnteredElsewhere(v, f, slot, x) {
      var a :| a != slot && Crosses(v, f, a, x);
      assert Crosses(MovedView(v, d, s), g, a, x);
    } else {
      var a :| a in DraggedInto(v, d, x);
      assert Crosses(MovedView(v, d, s), g, a, x);
    }
  }

  /** A reference that is overwritten and was not taken over was the only one into its region. */
  lemma OrphanEntered(v: View, f: Forest, g: Forest, s: RegionId, d: set<HeaderId>, slot: Site, x: RegionId)
    requires s in f && !f[s].IsFrameLocal() && SameDepths(f, g) && Closed(v, f) && SingleEntry(v, f)
    requires forall t | t in d :: FrameLocal(v, f, t)
    requires Crosses(v, f, slot, x) && DraggedInto(v, d, x) == {}
    ensures EnteredOnlyBy(MovedView(v, d, s), g, slot, x)
  {
    forall a | Crosses(MovedView(v, d, s), g, a, x) ensures a == slot {
      CrossingAfterDrag(v, f, g, s, d, a, x);
    }
  }

  /** The accounts are exact again if and only if the drag was clean. */
  lemma DragAccounts(
    v: View, f: Forest, g: Forest, g': Forest, direct: Counts, o: HeaderId, i: int, j: int, s: RegionId, isMove: bool,
    above: bool, p: Plan, d: set<HeaderId>, subs: map<RegionId, HeaderId>, taken: Option<RegionId>)
    requires Dragged(v, f, g, direct, o, i, j, s, isMove, above, p, d, subs, taken) && SameDepths(g, g')
    ensures var direct' := Add(Add(direct, s, 0), Losing(v, f, o, i, s), p.outStackInc);
      Accounted(Stored(MovedView(v, d, s), o, i, j, WithOrphan(p, taken)), g', direct') <==> Clean(v, f, s, d, taken)
  {
    hide Stored, StackRefs, SingleEntry, Entered, RcExact, Members, Closed, Adopts, Regrown, Enough, DraggedInto;
    var w := Stored(MovedView(v, d, s), o, i, j, WithOrphan(p, taken));
    var direct' := Add(Add(direct, s, 0), Losing(v, f, o, i, s), p.outStackInc);
    assert f.Keys == g'.Keys && forall y | y in f :: g'[y].IsFrameLocal() == f[y].IsFrameLocal();
    forall y | y in f && !f[y].IsFrameLocal()
      ensures AccountedAt(w, g', direct', y) <==> Residue(v, f, s, d, taken, y) == 0
    {
      DragCounts(v, f, g, g', direct, o, i, j, s, isMove, above, p, d, subs, taken, y);
    }
  }

  /** Orphaning changes one owner and nothing else. */
  lemma RewiredKept(f: Forest, g: Forest, p: Plan, s: RegionId, entry: HeaderId)
    requires s in f && p.adoptBy.None? && (p.orphan.Some? ==> p.orphan.value in f)
    requires SameButCounts(Rewired(f, p, s, s, entry), g)
    ensures SameLives(f, g) && forall x | x in f :: g[x].members == f[x].members
    ensures forall x | x in f :: g[x].owner == if p.orphan == Some(x) then Unowned else f[x].owner
    ensures forall x | x in f :: g[x].entry == if p.orphan == Some(x) then None else f[x].entry
  {
  }

  lemma DragDone(
    v: View, f: Forest, g: Forest, g': Forest, direct: Counts, direct': Counts, o: HeaderId, i: int, j: int, s: RegionId,
    isMove: bool, above: bool, p: Plan, d: set<HeaderId>, subs: map<RegionId, HeaderId>, taken: Option<RegionId>)
    requires Dragged(v, f, g, direct, o, i, j, s, isMove, above, p, d, subs, taken)
    requires SameDepths(g, g') && forall x | x in g :: g'[x].members == g[x].members
    requires forall x | x in g :: g'[x].owner == if WithOrphan(p, taken).orphan == Some(x) then Unowned else g[x].owner
    requires direct' == Add(Add(direct, s, p.inStackInc), Losing(v, f, o, i, s), p.outStackInc)
    ensures Consistent(Stored(MovedView(v, d, s), o, i, j, WithOrphan(p, taken)), g', direct') <==> Clean(v, f, s, d, taken)
  {
    DragPlan(v, f, g, direct, o, i, j, s, isMove, above, p, d, subs, taken);
    DragSound(v, f, g, g', direct, o, i, j, s, isMove, above, p, d, subs, taken);
    DragAccounts(v, f, g, g', direct, o, i, j, s, isMove, above, p, d, subs, taken);
    if Clean(v, f, s, d, taken) {
      DragEntry(v, f, g, g', direct, o, i, j, s, isMove, above, p, d, subs, taken);
    }
  }

  lemma RehungDragged(
    v: View, f: Forest, g: Forest, g': Forest, direct: Counts, o: HeaderId, i: int, j: int, s: RegionId,
    isMove: bool, above: bool, p: Plan, d: set<HeaderId>, subs: map<RegionId, HeaderId>, taken: Option<RegionId>)
    requires Dragged(v, f, g, direct, o, i, j, s, isMove, above, p, d, subs, taken) && SameLives(g, g')
    requires forall x | x in g :: g'[x].owner == if WithOrphan(p, taken).orphan == Some(x) then Unowned else g[x].owner
    ensures Rehung(v, f, g', j, s, p, subs, taken)
  {
    DragPlan(v, f, g, direct, o, i, j, s, isMove, above, p, d, subs, taken);
  }

  /** A dragged reference enters a region that the drag has made a child. */
  lemma DraggedEnters(v: View, f: Forest, g: Forest, o: HeaderId, i: int, j: int, s: RegionId, p: Plan, d: set<HeaderId>, x: RegionId, a: Site)
    requires s in f && !f[s].IsFrameLocal() && SameDepths(f, g) && x in f && !f[x].IsFrameLocal() && x != s
    requires forall t | t in d :: FrameLocal(v, f, t)
    requires Storing(v, f, o, i, j, s) && a in DraggedInto(v, d, x)
    ensures At(v, a).To? && EntersThrough(Stored(MovedView(v, d, s), o, i, j, p), g, s, x, At(v, a).target)
  {
    var u := MovedView(v, d, s);
    var w := Stored(u, o, i, j, p);
    SitesMoved(v, d, s);
    StoredSites(u, o, i, j, p);
    assert a != Field(o, i) && At(w, a) == At(v, a);
    assert Crosses(w, g, a, x);
  }

  lemma DraggedFollow(
    v: View, f: Forest, g: Forest, o: HeaderId, i: int, j: int, s: RegionId, p: Plan, d: set<HeaderId>,
    subs: map<RegionId, HeaderId>)
    requires Storing(v, f, o, i, j, s) && Adopts(v, f, s, d, subs) && SameDepths(f, g)
    requires forall t | t in d :: FrameLocal(v, f, t)
    requires p.orphan.Some? ==> p.orphan.value in f && f[p.orphan.value].HasParent()
    requires forall x | x in f :: g[x].owner == if p.orphan == Some(x) then Unowned else if x in subs then Parent(s) else f[x].owner
    requires forall x | x in f :: g[x].entry == if p.orphan == Some(x) then None else if x in subs then Some(subs[x]) else f[x].entry
    requires o in MovedView(v, d, s).headers && 0 <= i < |MovedView(v, d, s).headers[o].fields|
    ensures EntriesFollow(Stored(MovedView(v, d, s), o, i, j, p), f, g)
  {
    hide Stored;
    var w := Stored(MovedView(v, d, s), o, i, j, p);
    forall x | x in f ensures EntryFollows(w, f, g, x) {
      if x in subs {
        assert |DraggedInto(v, d, x)| == 1;
        var a :| a in DraggedInto(v, d, x) && At(v, a) == To(subs[x]);
        DraggedEnters(v, f, g, o, i, j, s, p, d, x, a);
      }
    }
  }

  /** Entries follow owners through the drag and the store. */
  lemma DraggedEntries(
    v: View, f: Forest, g: Forest, g': Forest, direct: Counts, o: HeaderId, i: int, j: int, s: RegionId,
    isMove: bool, above: bool, p: Plan, d: set<HeaderId>, subs: map<RegionId, HeaderId>, taken: Option<RegionId>)
    requires Dragged(v, f, g, direct, o, i, j, s, isMove, above, p, d, subs, taken) && SameDepths(g, g')
    requires forall x | x in g :: g'[x].owner == if WithOrphan(p, taken).orphan == Some(x) then Unowned else g[x].owner
    requires forall x | x in g :: g'[x].entry == if WithOrphan(p, taken).orphan == Some(x) then None else g[x].entry
    ensures EntriesFollow(Stored(MovedView(v, d, s), o, i, j, WithOrphan(p, taken)), f, g')
  {
    hide Stored, MovedView, DraggedInto, Enough, Exceeds, RcExact, Members, Closed, Entered, Adopts;
    DragPlan(v, f, g, direct, o, i, j, s, isMove, above, p, d, subs, taken);
    DragSetting(v, f, g, direct, o, i, j, s, isMove, above, p, d, subs, taken);
    SitesMoved(v, d, s);
    DraggedFollow(v, f, g', o, i, j, s, WithOrphan(p, taken), d, subs);
  }

  lemma DraggedRecounts(
    v: View, f: Forest, g: Forest, direct: Counts, o: HeaderId, i: int, j: int, s: RegionId, isMove: bool, above: bool,
    p: Plan, d: set<HeaderId>, subs: map<RegionId, HeaderId>, taken: Option<RegionId>)
    requires Dragged(v, f, g, direct, o, i, j, s, isMove, above, p, d, subs, taken)
    requires 0 <= i < |v.headers[o].fields| && o in MovedView(v, d, s).headers
    requires 0 <= i < |MovedView(v, d, s).headers[o].fields|
    ensures CopyCounted(v, Stored(MovedView(v, d, s), o, i, j, WithOrphan(p, taken)), if isMove then Null else v.registers[j])
  {
    hide Stored, Enough, Exceeds, RcExact, Members, Closed, Entered, Adopts, SingleEntry;
    DragPlan(v, f, g, direct, o, i, j, s, isMove, above, p, d, subs, taken);
    StoredRecounts(v, MovedView(v, d, s), o, i, j, isMove, WithOrphan(p, taken));
  }

  /** The rest of the store, once the incoming value has been dragged. */
  method StoreDragged(
    h: Heap, o: HeaderId, i: int, j: int, s: RegionId, isMove: bool, ghost above: bool, p: Plan, p': Plan,
    ghost v: View, ghost f: Forest, ghost d: set<HeaderId>, ghost subs: map<RegionId, HeaderId>, ghost taken: Option<RegionId>)
    requires h.Counted() && Dragged(v, f, h.regions, h.direct, o, i, j, s, isMove, above, p, d, subs, taken)
    requires h.Graph() == MovedView(v, d, s) && p' == WithOrphan(p, taken)
    modifies h
    ensures h.Counted()
    ensures h.Graph() == Stored(MovedView(v, d, s), o, i, j, p')
    ensures Rehung(v, f, h.regions, j, s, p, subs, taken)
    ensures EntriesFollow(h.Graph(), f, h.regions)
    ensures CopyCounted(v, h.Graph(), if isMove then Null else v.registers[j])
    ensures Consistent(h.Graph(), h.regions, h.direct) <==> Clean(v, f, s, d, taken)
  {
    ghost var g, direct := h.regions, h.direct;
    DragReady(v, f, g, direct, h.depth, o, i, j, s, isMove, above, p, d, subs, taken);
    var q := HeapRegionOf(h.regions, Outgoing(h.Graph(), o, i), s);
    Write(h, o, i, j, p');
    Carry(h, p', s, s, o, q);
    RewiredKept(g, h.regions, p', s, o);
    DragDone(v, f, g, h.regions, direct, h.direct, o, i, j, s, isMove, above, p, d, subs, taken);
    RehungDragged(v, f, g, h.regions, direct, o, i, j, s, isMove, above, p, d, subs, taken);
    DraggedEntries(v, f, g, h.regions, direct, o, i, j, s, isMove, above, p, d, subs, taken);
    DraggedRecounts(v, f, g, direct, o, i, j, s, isMove, above, p, d, subs, taken);
  }

  /** The drag has found the destination alive, because a register still refers into it. */
  lemma DragLeaves(
    v: View, f: Forest, direct: Counts, g: Forest, direct': Counts, depth: map<RegionId, nat>, o: HeaderId, i: int, j: int,
    s: RegionId, isMove: bool, above: bool, p: Plan, d: set<HeaderId>, subs: map<RegionId, HeaderId>,
    taken: Option<RegionId>, alive: bool)
    requires Consistent(v, f, direct) && Accepted(v, f, o, i, j, s, isMove, above, p) && p.dragInto.Some? && v.registers[j].To?
    requires s in f && s in g && direct'.Keys == g.Keys
    requires Tree(g, depth) && Regrown(f, g, depth, s, subs, alive) && (!alive ==> direct'[s] == 0)
    requires DragsTo(v, f, s, v.registers[j].target, d) && Adopts(v, f, s, d, subs) && Sound(MovedView(v, d, s), g)
    requires forall x | x in f && !f[x].IsFrameLocal() ::
      Exceeds(MovedView(v, d, s), g, direct', x, Excess(v, f, s, v.registers[j].target, isMove, d, taken, x))
    requires taken == p.orphan || taken.None?
    ensures Dragged(v, f, g, direct', o, i, j, s, isMove, above, p, d, subs, taken)
  {
    hide RcExact, Members, Closed, SingleEntry, Entered, Accounted, DragsTo, Adopts, TreeAt, MovedView, StackRefs;
    DragHeld(v, f, g, o, i, j, s, isMove, above, p, d);
    assert Exceeds(MovedView(v, d, s), g, direct', s, Excess(v, f, s, v.registers[j].target, isMove, d, taken, s));
    assert alive;
  }

  lemma DragHeld(
    v: View, f: Forest, g: Forest, o: HeaderId, i: int, j: int, s: RegionId, isMove: bool, above: bool, p: Plan, d: set<HeaderId>)
    requires Sound(v, f) && Accepted(v, f, o, i, j, s, isMove, above, p) && p.dragInto.Some? && v.registers[j].To?
    requires s in f && DragsTo(v, f, s, v.registers[j].target, d) && SameDepths(f, g) && Sound(MovedView(v, d, s), g)
    ensures |StackRefs(MovedView(v, d, s), g, s)| >= 2 && !f[s].IsFrameLocal()
  {
    hide RcExact, Members, Closed;
    var w, root := MovedView(v, d, s), v.registers[j].target;
    OutgoingKnown(v, f, o, i, j, s);
    HeapPlan(v, f, isMove, s, Outgoing(v, o, i), Incoming(v, j), above, p);
    SitesMoved(v, d, s);
    forall t | t in d ensures FrameLocal(v, f, t) {
      assert Draggable(v, f, s, t);
    }
    assert IsSite(v, Register(j)) && IsSite(w, Register(j)) && Draggable(v, f, s, root) && root in d;
    assert Storing(w, g, o, i, j, s) && PointsInto(w, Register(j), s);
    Reports(w, g, o, i, j, s);
  }

  /** Carry out a plan that drags the incoming value into `s` first. */
  method ExchangeDragging(h: Heap, o: HeaderId, i: int, j: int, s: RegionId, isMove: bool, ghost above: bool, p: Plan)
    returns (ok: bool, ghost d: set<HeaderId>, ghost subs: map<RegionId, HeaderId>, ghost taken: Option<RegionId>)
    requires h.Counted() && Consistent(h.Graph(), h.regions, h.direct)
    requires Accepted(h.Graph(), h.regions, o, i, j, s, isMove, above, p) && p.dragInto.Some?
    modifies h
    ensures h.Counted()
    ensures taken == None || taken == p.orphan
    ensures ok <==> CanDrag(old(h.Graph()), old(h.regions), old(h.depth), s, old(h.registers)[j].target)
    ensures !ok ==> d == {} && subs == map[] && h.Graph() == old(h.Graph()) && SameButCounts(old(h.regions), h.regions)
    ensures !ok ==> h.direct == if taken.Some? then Add(old(h.direct), taken.value, -1) else old(h.direct)
    ensures ok ==>
      && DragsTo(old(h.Graph()), old(h.regions), s, old(h.registers)[j].target, d)
      && Adopts(old(h.Graph()), old(h.regions), s, d, subs)
      && h.Graph() == Stored(MovedView(old(h.Graph()), d, s), o, i, j, WithOrphan(p, taken))
      && Rehung(old(h.Graph()), old(h.regions), h.regions, j, s, p, subs, taken)
      && EntriesFollow(h.Graph(), old(h.regions), h.regions)
      && CopyCounted(old(h.Graph()), h.Graph(), if isMove then Null else old(h.registers)[j])
    ensures ok ==>
      && d == DragSet(old(h.Graph()), old(h.regions), s, old(h.registers)[j].target)
      && taken == TakenOver(old(h.Graph()), old(h.regions), d, p.orphan)
    ensures !ok && taken.Some? ==> Touches(old(h.Graph()), old(h.regions), s, old(h.registers)[j].target, taken.value)
    ensures taken == InTime(old(h.Graph()), old(h.regions), old(h.depth), s, old(h.registers)[j].target, p.orphan)
    ensures !ok ==> (Consistent(h.Graph(), h.regions, h.direct) <==> taken.None?)
    ensures ok ==>
      (Consistent(h.Graph(), h.regions, h.direct) <==>
        CleanDrag(old(h.Graph()), old(h.regions), s, old(h.registers)[j].target, p.orphan))
  {
    hide Dragged, Regrown, Exceeds, Excess, Rehung, EntriesFollow, CopyCounted, DragSet, TakenOver, CanDrag, MetInTime, Touches,
      Adopts, Clean, CleanDrag, MovedView, Stored, SameLives, RcExact, Members, Closed, SingleEntry, Entered, TreeAt, BalancedAt;
    ghost var v, f := h.Graph(), h.regions;
    var root := h.registers[j].target;
    BeforeDrag(v, f, h.direct, h.depth, o, i, j, s, isMove, above, p);
    var left;
    ghost var alive;
    ok, left, d, subs, alive := DragAllocation(h, s, root, isMove, p.orphan);
    taken := if left == p.orphan then None else p.orphan;
    if !ok {
      d, subs := {}, map[];
      RefusedLeaves(v, f, old(h.direct), h.regions, h.direct, taken);
      return;
    }
    CleanBefore(v, f, s, root, d, p.orphan);
    DragLeaves(v, f, old(h.direct), h.regions, h.direct, h.depth, o, i, j, s, isMove, above, p, d, subs, taken, alive);
    StoreDragged(h, o, i, j, s, isMove, above, p, if left.None? then p.(orphan := None) else p, v, f, d, subs, taken);
  }

  lemma BeforeDrag(
    v: View, f: Forest, direct: Counts, depth: map<RegionId, nat>, o: HeaderId, i: int, j: int, s: RegionId,
    isMove: bool, above: bool, p: Plan)
    requires Tree(f, depth) && Balanced(f, direct) && NonNegative(direct) && Consistent(v, f, direct)
    requires Accepted(v, f, o, i, j, s, isMove, above, p) && p.dragInto.Some?
    ensures v.registers[j].To? && v.registers[j].target in v.headers && FrameLocal(v, f, v.registers[j].target)
    ensures direct[s] >= 1 && Live(f, depth, s)
    ensures p.orphan.Some? ==>
      p.orphan.value in f && !f[p.orphan.value].IsFrameLocal() && f[p.orphan.value].owner == Parent(s)
    ensures var out := Outgoing(v, o, i);
      && p.inStackInc == 0 && p.outStackInc == One(out.InRegion?) && p.adoptBy.None? && out != Incoming(v, j)
  {
    OutgoingKnown(v, f, o, i, j, s);
    IncomingKnown(v, f, j);
    HeapPlan(v, f, isMove, s, Outgoing(v, o, i), Incoming(v, j), above, p);
    Reports(v, f, o, i, j, s);
    assert AccountedAt(v, f, direct, s);
    LiveWhenReported(f, direct, depth, s);
  }

  // ---------------------------------------------------------------- the whole exchange

  /** Whether the incoming region is above the storage region. */
  ghost function IncomingAbove(v: View, f: Forest, depth: map<RegionId, nat>, j: int, s: RegionId): bool
    requires Tree(f, depth) && s in f && 0 <= j < |v.registers|
  {
    Incoming(v, j).InRegion? && Above(f, depth, Incoming(v, j).region, s)
  }

  /**
   When a store into heap region `s` is refused: a stack value, or a region that would get a second entry
   or become its own descendant.
   */
  lemma Refusals(
    v: View, f: Forest, o: HeaderId, i: int, j: int, s: RegionId, isMove: bool, above: bool)
    requires Storing(v, f, o, i, j, s) && WellFormed(v, f)
    ensures var out, incoming := Outgoing(v, o, i), Incoming(v, j);
      && (incoming.InRegion? ==> incoming.region in f)
      && (Planned(f, isMove, s, out, incoming, above).ok <==>
            && !incoming.Stack?
            && (incoming.InRegion? && !f[incoming.region].IsFrameLocal() && incoming != InRegion(s) ==>
                  if f[incoming.region].HasOwner() then out == incoming else !above))
  {
    IncomingKnown(v, f, j);
  }

  /**
   `exchange<is_move>` with heap storage.  It fails exactly when the plan is refused or the drag cannot be
   done.  It keeps every invariant, except after a swap inside one sub-region, which loses its parent, and
   after a drag of more references into a child of `s` than the one taken over, which stay reported.
   */
  method Exchange(h: Heap, o: HeaderId, i: int, j: int, isMove: bool)
    returns (ok: bool, ghost p: Plan, ghost d: set<HeaderId>, ghost subs: map<RegionId, HeaderId>, ghost taken: Option<RegionId>)
    requires h.Counted() && Consistent(h.Graph(), h.regions, h.direct)
    requires o in h.headers && h.headers[o].loc.InRegion?
    requires Storing(h.Graph(), h.regions, o, i, j, h.headers[o].loc.region)
    modifies h
    ensures h.Counted()
    ensures var v, f, s := old(h.Graph()), old(h.regions), old(h.headers[o].loc.region);
      && (Incoming(v, j).InRegion? ==> Incoming(v, j).region in f)
      && p == Planned(f, isMove, s, Outgoing(v, o, i), Incoming(v, j), IncomingAbove(v, f, old(h.depth), j, s))
      && (p.dragInto.Some? ==> v.registers[j].To? && s in f)
      && (ok <==> p.ok && (p.dragInto.Some? ==> CanDrag(v, f, old(h.depth), s, v.registers[j].target)))
      && taken in {None, p.orphan}
      && (ok ==> taken == if p.dragInto.Some? then TakenOver(v, f, d, p.orphan) else None)
      && (ok ==> d == if p.dragInto.Some? then DragSet(v, f, s, v.registers[j].target) else {})
      && (!ok && taken.Some? ==> p.dragInto.Some? && Touches(v, f, s, v.registers[j].target, taken.value))
      && taken == (if p.ok && p.dragInto.Some? then InTime(v, f, old(h.depth), s, v.registers[j].target, p.orphan) else None)
      && (!ok ==> (Consistent(h.Graph(), h.regions, h.direct) <==> taken.None?))
      && h.Graph() == (if !ok then v else Stored(MovedView(v, d, s), o, i, j, WithOrphan(p, taken)))
      && (if ok && p.dragInto.Some? then DragsTo(v, f, s, v.registers[j].target, d) && Adopts(v, f, s, d, subs)
          else d == {} && subs == map[])
      && (ok ==> Rehung(v, f, h.regions, j, s, p, subs, taken) && EntriesFollow(h.Graph(), f, h.regions))
      && (ok ==> CopyCounted(v, h.Graph(), if isMove then Null else v.registers[j]))
      && (ok || SameButCounts(f, h.regions))
      && (ok || h.direct == if taken.Some? then Add(old(h.direct), taken.value, -1) else old(h.direct))
      && (ok ==>
            (Consistent(h.Graph(), h.regions, h.direct) <==>
              && !SwapsInside(InRegion(s), Outgoing(v, o, i), Incoming(v, j), f)
              && (p.dragInto.Some? ==> CleanDrag(v, f, s, v.registers[j].target, p.orphan))))
  {
    hide Rehung, EntriesFollow, CopyCounted, CleanDrag, DragSet, DragsTo, Adopts, InTime, TakenOver, Stored, MovedView, CanDrag, Touches;
    ghost var v, f := h.Graph(), h.regions;
    d, subs, taken := {}, map[], None;
    var s := h.headers[o].loc.region;
    OutgoingKnown(v, f, o, i, j, s);
    IncomingKnown(v, f, j);
    var out, incoming := Outgoing(h.Graph(), o, i), Incoming(h.Graph(), j);
    var above := false;
    if incoming.InRegion? {
      above := h.IsAncestorOf(incoming.region, s);
    }
    var plan := Planned(h.regions, isMove, s, out, incoming, above);
    p := plan;
    NothingDragged(v, s);
    if !plan.ok {
      return false, p, d, subs, taken;
    }
    if plan.dragInto.None? {
      ExchangePlain(h, o, i, j, s, isMove, above, plan);
      return true, p, d, subs, taken;
    }
    BeforeDrag(v, f, h.direct, h.depth, o, i, j, s, isMove, above, p);
    HeapPlan(v, f, isMove, s, out, incoming, above, p);
    ok, d, subs, taken := ExchangeDragging(h, o, i, j, s, isMove, above, plan);
  }

  lemma NothingDragged(v: View, s: RegionId)
    ensures MovedView(v, {}, s) == v
  {
    assert MovedHeaders(v.headers, {}, s) == v.headers;
  }
}
