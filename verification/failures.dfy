/**
 Stores and merges on a small heap that is in order and after which it is not (vbci/writebarrier.h:355-373,
 vbci/merge.cc:46-114).  Object 10 lives in region 1 and refers to 20, the entry of the sub-region 2, which refers
 to 60, the entry of its own sub-region 6.  Object 70 lives in region 2 as well.  Object 30 lives in the frame-local
 region 3 and refers to 10 and 70.  Object 50 lives in the younger frame-local region 5 and refers to 40, whose region 4 belongs to a cown, and to 20.
 */
module Failures {
  import opened Collections
  import opened Regions
  import opened Graphs
  import opened Heaps
  import opened Drags
  import opened DragCommit
  import opened DragExact
  import opened WriteBarrier
  import opened Exchanges
  import opened ExchangeEntries
  import opened FrameExchanges
  import opened Merging

  function Objects(): View {
    View(
      map[10 := Header(InRegion(1), 2, [To(20), Null]), 20 := Header(InRegion(2), 3, [To(60)]),
          30 := Header(InRegion(3), 1, [To(70), To(10)]), 40 := Header(InRegion(4), 2, []),
          50 := Header(InRegion(5), 1, [To(40), To(20)]), 60 := Header(InRegion(6), 1, []),
          70 := Header(InRegion(2), 1, [])],
      [To(10), To(20), To(30), To(50)], [To(40)])
  }

  function Homes(): Forest {
    map[1 := Region(Unowned, None, 3, 0, false, {10}), 2 := Region(Parent(1), Some(20), 3, 0, false, {20, 70}),
        3 := Region(Unowned, None, 0, 1, false, {30}), 4 := Region(CownOwned, Some(40), 1, 0, false, {40}),
        5 := Region(Unowned, None, 0, 2, false, {50}), 6 := Region(Parent(2), Some(60), 0, 0, false, {60})]
  }

  function Reports(): Counts {
    map[1 := 2, 2 := 3, 3 := 0, 4 := 1, 5 := 0, 6 := 0]
  }

  function Ranks(): map<RegionId, nat> {
    map[1 := 0, 2 := 1, 3 := 0, 4 := 0, 5 := 0, 6 := 2]
  }

  /** The heap with these objects. */
  ghost predicate Furnished(h: Heap)
    reads h
  {
    h.Graph() == Objects() && h.regions == Homes() && h.direct == Reports() && h.depth == Ranks()
  }

  const SLOTS: set<Site> :=
    { Content(0), Register(0), Register(1), Register(2), Register(3), Field(10, 0), Field(10, 1), Field(20, 0),
      Field(30, 0), Field(30, 1), Field(50, 0), Field(50, 1) }

  function Held(s: Site): Ref {
    if s in {Register(0), Field(30, 1)} then To(10)
    else if s in {Register(1), Field(10, 0), Field(50, 1)} then To(20)
    else if s == Register(2) then To(30)
    else if s == Register(3) then To(50)
    else if s in {Content(0), Field(50, 0)} then To(40)
    else if s == Field(20, 0) then To(60)
    else if s == Field(30, 0) then To(70)
    else Null
  }

  /** Every site, with what it holds. */
  lemma EachSite(s: Site)
    ensures IsSite(Objects(), s) <==> s in SLOTS
    ensures IsSite(Objects(), s) ==> At(Objects(), s) == Held(s)
  {
  }

  lemma CountsAreExact()
    ensures Tree(Homes(), Ranks()) && Balanced(Homes(), Reports()) && NonNegative(Reports())
  {
    var f := Homes();
    assert ActiveChildren(f, 1) == {2} && ActiveChildren(f, 2) == {} && ActiveChildren(f, 4) == {} && ActiveChildren(f, 6) == {};
  }

  lemma References(t: HeaderId)
    ensures Pointing(Objects(), t) == set s | s in SLOTS && Held(s) == To(t)
  {
    hide Objects, IsSite, At, Held;
    forall s ensures s in Pointing(Objects(), t) <==> s in SLOTS && Held(s) == To(t) {
      EachSite(s);
    }
  }

  lemma ReferenceCounts()
    ensures |Pointing(Objects(), 10)| == 2 && |Pointing(Objects(), 20)| == 3 && |Pointing(Objects(), 30)| == 1
    ensures |Pointing(Objects(), 40)| == 2 && |Pointing(Objects(), 50)| == 1 && |Pointing(Objects(), 60)| == 1
    ensures |Pointing(Objects(), 70)| == 1
  {
    hide Objects, Pointing;
    forall t ensures Pointing(Objects(), t) == set s | s in SLOTS && Held(s) == To(t) {
      References(t);
    }
    assert (set s | s in SLOTS && Held(s) == To(10)) == {Register(0), Field(30, 1)};
    assert (set s | s in SLOTS && Held(s) == To(20)) == {Register(1), Field(10, 0), Field(50, 1)};
    assert (set s | s in SLOTS && Held(s) == To(30)) == {Register(2)};
    assert (set s | s in SLOTS && Held(s) == To(40)) == {Content(0), Field(50, 0)};
    assert (set s | s in SLOTS && Held(s) == To(50)) == {Register(3)};
    assert (set s | s in SLOTS && Held(s) == To(60)) == {Field(20, 0)};
    assert (set s | s in SLOTS && Held(s) == To(70)) == {Field(30, 0)};
  }

  lemma ReferencesAreExact()
    ensures RcExact(Objects())
  {
    hide Pointing;
    ReferenceCounts();
    var v := Objects();
    forall t | t in v.headers ensures RcExactAt(v, t) {
    }
  }

  /** The references into the heap regions from the stack side. */
  lemma StackReferences(s: Site)
    ensures s in StackRefs(Objects(), Homes(), 1) <==> s in {Register(0), Field(30, 1)}
    ensures s in StackRefs(Objects(), Homes(), 2) <==> s in {Register(1), Field(30, 0), Field(50, 1)}
    ensures s in StackRefs(Objects(), Homes(), 4) <==> s in {Field(50, 0)}
    ensures s !in StackRefs(Objects(), Homes(), 6)
  {
    EachSite(s);
  }

  lemma ReportsAreExact()
    ensures Accounted(Objects(), Homes(), Reports())
  {
    hide StackRefs, Objects;
    var v, f := Objects(), Homes();
    forall s
      ensures s in StackRefs(v, f, 1) <==> s in {Register(0), Field(30, 1)}
      ensures s in StackRefs(v, f, 2) <==> s in {Register(1), Field(30, 0), Field(50, 1)}
      ensures s in StackRefs(v, f, 4) <==> s in {Field(50, 0)}
      ensures s !in StackRefs(v, f, 6)
    {
      StackReferences(s);
    }
    assert StackRefs(v, f, 1) == {Register(0), Field(30, 1)};
    assert StackRefs(v, f, 2) == {Register(1), Field(30, 0), Field(50, 1)};
    assert StackRefs(v, f, 4) == {Field(50, 0)} && StackRefs(v, f, 6) == {};
  }

  lemma PlacesAreRight()
    ensures WellFormed(Objects(), Homes()) && Members(Objects(), Homes())
  {
    var v, f := Objects(), Homes();
    forall s | IsSite(v, s) ensures At(v, s).To? ==> At(v, s).target in v.headers {
      EachSite(s);
    }
    forall r | r in f ensures MembersAt(v, f, r) {
    }
  }

  lemma Lifetime(s: Site)
    requires IsSite(Objects(), s) && s.Field? && Held(s).To?
    ensures var v := Objects();
      s.holder in v.headers && v.headers[s.holder].loc.InRegion? && Held(s).target in v.headers
      && Outlives(Homes(), v.headers[Held(s).target].loc, v.headers[s.holder].loc)
  {
    EachSite(s);
  }

  lemma LifetimesAreRight()
    ensures Closed(Objects(), Homes())
  {
    var v := Objects();
    forall s | IsSite(v, s) && s.Content? && At(v, s).To? && At(v, s).target in v.headers
      ensures Outlives(Homes(), v.headers[At(v, s).target].loc, Immortal)
    {
      EachSite(s);
    }
    NothingFrozen();
    hide Objects, Homes, Held, Outlives, FrozenClosed;
    forall s | IsSite(v, s) && s.Field? && At(v, s).To?
      ensures At(v, s).target in v.headers && s.holder in v.headers
      ensures Outlives(Homes(), v.headers[At(v, s).target].loc, v.headers[s.holder].loc)
    {
      EachSite(s);
      Lifetime(s);
    }
  }

  lemma NothingFrozen()
    ensures FrozenClosed(Objects())
  {
    assert forall t | t in Objects().headers :: Objects().headers[t].loc.InRegion?;
  }

  lemma Crossing(s: Site, r: RegionId)
    ensures Crosses(Objects(), Homes(), s, r) <==> (s == Field(10, 0) && r == 2) || (s == Field(20, 0) && r == 6)
  {
    EachSite(s);
  }

  lemma OneEntryOnly()
    ensures SingleEntry(Objects(), Homes()) && Entered(Objects(), Homes())
  {
    hide Crosses;
    var v, f := Objects(), Homes();
    forall s, r ensures Crosses(v, f, s, r) <==> (s == Field(10, 0) && r == 2) || (s == Field(20, 0) && r == 6) {
      Crossing(s, r);
    }
    assert Crosses(v, f, Field(10, 0), 2) && Crosses(v, f, Field(20, 0), 6);
    assert EnteredAt(v, f, 2) && EnteredAt(v, f, 6);
  }

  lemma AllInOrder()
    ensures Tree(Homes(), Ranks()) && Balanced(Homes(), Reports()) && NonNegative(Reports())
    ensures Consistent(Objects(), Homes(), Reports())
  {
    CountsAreExact();
    ReportsAreExact();
    ReferencesAreExact();
    PlacesAreRight();
    LifetimesAreRight();
    OneEntryOnly();
  }

  /** 20 is stored over itself: region 2 loses its parent. */
  method SwapLosesParent(h: Heap, isMove: bool) returns (ok: bool)
    requires Furnished(h)
    modifies h
    ensures ok && h.Counted() && !Consistent(h.Graph(), h.regions, h.direct)
  {
    hide Consistent, Objects, Homes, Reports, Tree, Balanced, NonNegative, Stored, MovedView;
    AllInOrder();
    SwapPlanned(isMove);
    ghost var p, d, subs, taken;
    ok, p, d, subs, taken := Exchange(h, 10, 0, 1, isMove);
  }

  lemma SwapPlanned(isMove: bool)
    ensures var v, f, depth := Objects(), Homes(), Ranks();
      && 10 in v.headers && v.headers[10].loc == InRegion(1) && Storing(v, f, 10, 0, 1, 1)
      && Incoming(v, 1) == InRegion(2) == Outgoing(v, 10, 0) && 2 in f
      && SwapsInside(InRegion(1), Outgoing(v, 10, 0), Incoming(v, 1), f)
      && forall above: bool ::
           var p := Planned(f, isMove, 1, Outgoing(v, 10, 0), Incoming(v, 1), above); p.ok && p.dragInto.None?
  {
    assert Objects().registers[0] == To(10);
  }

  /** 30 is stored beside the reference to 20, and refers to 70: region 2 is entered twice. */
  method DragEntersTwice(h: Heap, isMove: bool) returns (ok: bool)
    requires Furnished(h)
    modifies h
    ensures ok && h.Counted() && !Consistent(h.Graph(), h.regions, h.direct)
  {
    hide Consistent, Objects, Homes, Reports, Tree, Balanced, NonNegative, Stored, MovedView;
    AllInOrder();
    DragPlanned(isMove);
    ghost var p, d, subs, taken;
    ok, p, d, subs, taken := Exchange(h, 10, 1, 2, isMove);
  }

  lemma DragPlanned(isMove: bool)
    ensures var v, f, depth := Objects(), Homes(), Ranks();
      && 10 in v.headers && v.headers[10].loc == InRegion(1) && Storing(v, f, 10, 1, 2, 1)
      && v.registers[2] == To(30) && 1 in f && Tree(f, depth) && CanDrag(v, f, depth, 1, 30)
      && Incoming(v, 2) == InRegion(3) && 3 in f && !SwapsInside(InRegion(1), Outgoing(v, 10, 1), Incoming(v, 2), f)
      && !CleanDrag(v, f, 1, 30, None)
      && forall above: bool ::
           var p := Planned(f, isMove, 1, Outgoing(v, 10, 1), Incoming(v, 2), above);
           p.ok && p.dragInto.Some? && p.orphan.None?
  {
    hide CanDrag, CleanDrag, Tree, Balanced, NonNegative;
    assert Objects().registers[0] == To(10);
    CountsAreExact();
    Draggables();
    EntersAgain();
  }

  lemma Draggables()
    ensures CanDrag(Objects(), Homes(), Ranks(), 1, 30)
  {
    CountsAreExact();
    NothingMore();
    OwnChildOnly();
    assert 30 in Objects().headers && !Objects().headers[30].loc.Stack?;
  }

  lemma NothingMore()
    ensures Enough(Objects(), Homes(), 1, 30, {30})
  {
    var v, f := Objects(), Homes();
    forall s | Traced(v, {30}, s) ensures !Draggable(v, f, 1, At(v, s).target) {
      EachSite(s);
    }
  }

  lemma OwnChildOnly()
    ensures Tree(Homes(), Ranks()) && Fits(Objects(), Homes(), Ranks(), 1, {30})
  {
    var v, f := Objects(), Homes();
    CountsAreExact();
    forall s, x | s in DraggedInto(v, {30}, x) ensures x in {1, 2} {
      EachSite(s);
    }
    forall x | x in f && x !in {1, 2} ensures DraggedInto(v, {30}, x) == {} {
    }
  }

  lemma EntersAgain()
    ensures !CleanDrag(Objects(), Homes(), 1, 30, None)
  {
    var v, f := Objects(), Homes();
    assert Draggable(v, f, 1, 30);
    var d := DragSet(v, f, 1, 30);
    assert 30 in d;
    assert IsSite(v, Field(30, 0));
    assert Field(30, 0) in DraggedInto(v, d, 2);
    assert |DraggedInto(v, d, 2)| > One(None == Some(2));
  }

  /** 30 is stored over the reference to 20: region 2 is then entered through 70, and its recorded entry is still 20. */
  method DragLeavesEntry(h: Heap, isMove: bool) returns (ok: bool)
    requires Furnished(h)
    modifies h
    ensures EntriesExact(Objects(), Homes())
    ensures h.Counted() && !EntriesExact(h.Graph(), h.regions)
  {
    hide Consistent, Objects, Homes, Reports, Ranks, Tree, Balanced, NonNegative, EntriesExact, DragsToEntries, DraggedBy, CanDrag;
    AllInOrder();
    EntriesInOrder();
    TakenPlanned(isMove);
    OtherEntry();
    ok := ExchangeKeepingEntries(h, 10, 0, 2, isMove);
  }

  lemma EntriesInOrder()
    ensures EntriesExact(Objects(), Homes())
  {
    forall a, x | Crosses(Objects(), Homes(), a, x) ensures EntryIs(Homes(), x, At(Objects(), a)) {
      Crossing(a, x);
    }
  }

  lemma TakenPlanned(isMove: bool)
    ensures var v, f := Objects(), Homes();
      && 1 in f && v.registers[2] == To(30) && Incoming(v, 2) == InRegion(3) && 3 in f
      && Tree(f, Ranks()) && CanDrag(v, f, Ranks(), 1, 30)
      && 10 in v.headers && v.headers[10].loc == InRegion(1) && Storing(v, f, 10, 0, 2, 1)
      && forall above: bool ::
           var p := Planned(f, isMove, 1, Outgoing(v, 10, 0), Incoming(v, 2), above); p.ok && p.dragInto.Some?
  {
    hide CanDrag, Tree;
    assert Objects().registers[0] == To(10);
    CountsAreExact();
    Draggables();
  }

  lemma OtherEntry()
    ensures 1 in Homes() && !DragsToEntries(Objects(), Homes(), 1, DraggedBy(Objects(), Homes(), 2, 1))
  {
    var v, f := Objects(), Homes();
    assert v.registers[2] == To(30) && Incoming(v, 2) == InRegion(3) && Draggable(v, f, 1, 30);
    var d := DraggedBy(v, f, 2, 1);
    assert d == DragSet(v, f, 1, 30) && 30 in d;
    assert IsSite(v, Field(30, 0));
    assert DragsIntoChild(v, f, 1, d, Field(30, 0), 2);
  }

  /** 50 is stored over the reference to 20: the drag takes 20 over, is refused at 40, and leaves region 2 a report short. */
  method RefusedDragRetracts(h: Heap, isMove: bool) returns (ok: bool)
    requires Furnished(h)
    modifies h
    ensures !ok && h.Counted() && h.Graph() == Objects() && h.direct == Add(Reports(), 2, -1)
    ensures !Consistent(h.Graph(), h.regions, h.direct)
  {
    hide Consistent, Objects, Homes, Reports, Ranks, Tree, Balanced, NonNegative, Stored, MovedView, MetInTime, CanDrag;
    AllInOrder();
    RefusalPlanned(isMove);
    ghost var p, d, subs, taken;
    ok, p, d, subs, taken := Exchange(h, 10, 0, 3, isMove);
  }

  lemma RefusalPlanned(isMove: bool)
    ensures var v, f := Objects(), Homes();
      && 10 in v.headers && v.headers[10].loc == InRegion(1) && Storing(v, f, 10, 0, 3, 1)
      && v.registers[3] == To(50) && 1 in f && Incoming(v, 3) == InRegion(5) && 5 in f
      && Tree(f, Ranks()) && !CanDrag(v, f, Ranks(), 1, 50) && MetInTime(v, f, Ranks(), 1, 50, 2)
      && forall above: bool ::
           var p := Planned(f, isMove, 1, Outgoing(v, 10, 0), Incoming(v, 3), above);
           p.ok && p.dragInto.Some? && p.orphan == Some(2)
  {
    hide CanDrag, MetInTime, Tree, Balanced, NonNegative;
    assert Objects().registers[0] == To(10);
    CountsAreExact();
    CownStops();
    MetFirst();
  }

  lemma CownStops()
    ensures Tree(Homes(), Ranks()) && !CanDrag(Objects(), Homes(), Ranks(), 1, 50)
  {
    var v, f := Objects(), Homes();
    CountsAreExact();
    forall d | Enough(v, f, 1, 50, d) ensures !Fits(v, f, Ranks(), 1, d) {
      assert Draggable(v, f, 1, 50) && 50 in d;
      assert IsSite(v, Field(50, 0));
      assert Field(50, 0) in DraggedInto(v, d, 4);
      assert !FitsAt(v, f, Ranks(), 1, d, 4);
    }
  }

  /** The last field of 50 is followed first. */
  lemma RouteOf50()
    ensures var route := Route(Objects(), Homes(), 1, [50], {}); |route| >= 2 && route[0] == 50 && route[1] == 20
  {
    var v, f := Objects(), Homes();
    var fields := v.headers[50].fields;
    assert fields == [To(40), To(20)] && fields[..1] == [To(40)] && [To(40)][..0] == [];
    assert Targets(v, [To(40)]) == [40] && Targets(v, fields) == [40, 20];
    assert Pulls(v, f, 1, 50, {}) && [50][..0] == [];
    assert After(v, f, 1, [50], {}) == [] + Targets(v, fields) == [40, 20];
    hide Objects, Homes, Targets, After;
    assert Route(v, f, 1, [50], {}) == [50] + Route(v, f, 1, [40, 20], Met(v, f, 1, 50, {}));
    assert Route(v, f, 1, [40, 20], Met(v, f, 1, 50, {}))[0] == 20;
  }

  lemma MetFirst()
    ensures Tree(Homes(), Ranks()) && MetInTime(Objects(), Homes(), Ranks(), 1, 50, 2)
  {
    hide Route;
    var v, f := Objects(), Homes();
    CountsAreExact();
    RouteOf50();
    var route := Route(v, f, 1, [50], {});
    assert !StopsAt(v, f, Ranks(), 1, route[..0], 50);
    assert Unstopped(v, f, Ranks(), 1, route, 1);
  }

  /** On the frame side, the reference to 70 is overwritten: region 2 loses its parent. */
  method FrameStoreOrphans(h: Heap, isMove: bool) returns (outcome: Outcome)
    requires Furnished(h)
    modifies h
    ensures outcome.Done? && h.Counted() && !Consistent(h.Graph(), h.regions, h.direct)
  {
    hide Consistent, Objects, Homes, Reports, Tree, Balanced, NonNegative, Stored, MovedView;
    AllInOrder();
    FramePlanned(isMove);
    ghost var p, d;
    outcome, p, d := ExchangeOnFrame(h, [3, 5], 30, 0, 0, isMove);
  }

  /** And if the reference to 10 is, there is no parent to be taken away. */
  method FrameStoreFails(h: Heap, isMove: bool) returns (outcome: Outcome)
    requires Furnished(h)
    modifies h
    ensures outcome.Undefined?
  {
    hide Consistent, Objects, Homes, Reports, Tree, Balanced, NonNegative, Stored, MovedView;
    AllInOrder();
    FramePlanned(isMove);
    ghost var p, d;
    outcome, p, d := ExchangeOnFrame(h, [3, 5], 30, 1, 1, isMove);
  }

  lemma FramePlanned(isMove: bool)
    ensures var v, f := Objects(), Homes();
      && 30 in v.headers && v.headers[30].loc == InRegion(3)
      && StoringOnFrame(v, f, [3, 5], 30, 0, 0) && StoringOnFrame(v, f, [3, 5], 30, 1, 1)
      && Incoming(v, 0) == InRegion(1) && Incoming(v, 1) == InRegion(2) && 1 in f && 2 in f
      && Outgoing(v, 30, 0) == InRegion(2) && Outgoing(v, 30, 1) == InRegion(1)
      && f[2].HasParent() && !f[1].HasParent()
      && (var p := PlannedOnFrame(f, [3, 5], isMove, InRegion(3), InRegion(2), InRegion(1)); p.ok && p.dragInto.None?)
      && (var p := PlannedOnFrame(f, [3, 5], isMove, InRegion(3), InRegion(1), InRegion(2)); p.ok && p.dragInto.None?)
  {
  }

  /** 50 is dragged into the frame of 30 and stored over 30's reference to 70: region 2 is left a report short. */
  method FrameDragMiscounts(h: Heap, isMove: bool) returns (outcome: Outcome)
    requires Furnished(h)
    modifies h
    ensures outcome.Done? && h.Counted() && Short(h.Graph(), h.regions, h.direct, Some(2))
    ensures !Consistent(h.Graph(), h.regions, h.direct)
  {
    hide Consistent, Objects, Homes, Reports, Ranks, Tree, Balanced, NonNegative, Stored, MovedView, Short, TakenOver, DragSet;
    AllInOrder();
    MiscountPlanned(isMove);
    ghost var p, d;
    outcome, p, d := ExchangeOnFrame(h, [3, 5], 30, 0, 3, isMove);
  }

  lemma MiscountPlanned(isMove: bool)
    ensures var v, f := Objects(), Homes();
      && 30 in v.headers && v.headers[30].loc == InRegion(3) && StoringOnFrame(v, f, [3, 5], 30, 0, 3)
      && v.registers[3] == To(50) && Incoming(v, 3) == InRegion(5) && 5 in f && 3 in f && Outgoing(v, 30, 0) == InRegion(2)
      && TakenOver(v, f, DragSet(v, f, 3, 50), Some(2)) == Some(2)
      && var p := PlannedOnFrame(f, [3, 5], isMove, InRegion(3), InRegion(2), InRegion(5));
         p.ok && p.dragInto == Some(3) && p.orphan == Some(2)
  {
    var v, f := Objects(), Homes();
    assert Draggable(v, f, 3, 50);
    var d := DragSet(v, f, 3, 50);
    assert 50 in d && IsSite(v, Field(50, 1));
    assert Field(50, 1) in DraggedInto(v, d, 2);
  }

  /** Region 1 is merged into its child 2: the child is left with a parent that has been freed. */
  method MergeFreesParent(h: Heap) returns (outcome: Ending)
    requires Furnished(h)
    modifies h
    ensures outcome == Dangling && Broken(h.regions) && h.regions.Keys == Homes().Keys
    ensures h.regions[2].owner == Parent(1) && h.regions[1].finalizing && h.regions[2].stackRc > 0
  {
    hide Consistent, Objects, Reports, Tree, Balanced, NonNegative, Within, Live, MovedView, Broken;
    AllInOrder();
    OnTheWayUp();
    outcome := MergeRegions(h, 2, 1);
  }

  /** Region 1 is merged into its grandchild 6: region 2 is hung below its own child. */
  method MergeClosesCircle(h: Heap) returns (outcome: Ending)
    requires Furnished(h)
    modifies h
    ensures outcome == Circular(2) && Broken(h.regions) && 2 in h.regions && h.regions[2].owner == Parent(6)
  {
    hide Consistent, Objects, Reports, Tree, Balanced, NonNegative, Within, Live, MovedView, Broken, Above;
    AllInOrder();
    OnTheWayUp();
    outcome := MergeRegions(h, 6, 1);
    assert outcome.Circular?;
    assert Homes()[outcome.at].owner == Parent(1);
  }

  lemma OnTheWayUp()
    ensures Tree(Homes(), Ranks()) && Live(Homes(), Ranks(), 2) && Live(Homes(), Ranks(), 6)
    ensures Within(Homes(), Ranks(), 2, 1) && Within(Homes(), Ranks(), 6, 1)
    ensures Reports().Keys == Homes().Keys && Reports()[1] >= 1
  {
    CountsAreExact();
    var f, depth := Homes(), Ranks();
    assert Within(f, depth, 1, 1) && Within(f, depth, 2, 1);
    assert Root(f, depth, 1) == 1 && Root(f, depth, 2) == 1;
  }
}
