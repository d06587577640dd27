/**
 `drag_allocation` as a whole, and what it guarantees: exact accounting, lifetimes, ownership.
 */
module DragExact {
  import opened Collections
  import opened Regions
  import opened Graphs
  import opened Heaps
  import opened Drags
  import opened DragCommit

  // ---------------------------------------------------------------- accounting

  /**
   By how much the reports to `x` exceed its references after a drag.  The moving reference has been
   retracted already; references into sub-regions that the destination had before are not retracted.
   */
  ghost function Excess(
    v: View, f: Forest, r: RegionId, root: HeaderId, isMove: bool, d: set<HeaderId>, taken: Option<RegionId>, x: RegionId): int
    requires x in f && r in f
  {
    if f[r].IsFrameLocal() then -(if taken == Some(x) then 1 else 0)
    else if x == r then -Moving(root, isMove, d)
    else if f[x].owner == Parent(r) then |DraggedInto(v, d, x)| - (if taken == Some(x) then 1 else 0)
    else 0
  }

  ghost predicate Exceeds(v: View, f: Forest, direct: Counts, x: RegionId, excess: int)
    requires x in direct
  {
    direct[x] == |StackRefs(v, f, x)| + excess
  }

  lemma IntoIsDragged(
    v: View, f: Forest, depth: map<RegionId, nat>, r: RegionId, root: HeaderId, rcs: map<HeaderId, int>,
    decs: int, subs: map<RegionId, HeaderId>, done: set<Site>, x: RegionId)
    requires Tree(f, depth) && r in f && Complete(v, f, depth, r, root, rcs, decs, subs, done)
    requires !InHeapRegion(v, f, root) && x in f && !f[x].IsFrameLocal()
    ensures IntoRegion(v, root, done, x) == DraggedInto(v, rcs.Keys, x)
  {
    forall s ensures s in IntoRegion(v, root, done, x) <==> s in DraggedInto(v, rcs.Keys, x) {
      assert s in done <==> s == Entry || Traced(v, rcs.Keys, s);
    }
  }

  lemma ExcessInHeap(
    v: View, f: Forest, depth: map<RegionId, nat>, r: RegionId, root: HeaderId, isMove: bool, rcs: map<HeaderId, int>,
    decs: int, subs: map<RegionId, HeaderId>, done: set<Site>, direct: Counts, taken: Option<RegionId>, g: Forest,
    x: RegionId)
    requires Tree(f, depth) && r in f && !f[r].IsFrameLocal() && SameDepths(f, g)
    requires Complete(v, f, depth, r, root, rcs, decs, subs, done)
    requires WellFormed(v, f) && Closed(v, f) && !InHeapRegion(v, f, root) && Accounted(v, f, direct)
    requires taken.Some? ==> taken.value in f && f[taken.value].owner == Parent(r)
    requires x in f && !f[x].IsFrameLocal()
    ensures var told := if taken.Some? then Add(direct, taken.value, -1) else direct;
      Exceeds(MovedView(v, rcs.Keys, r), g, Add(Spent(told, subs.Keys), r, Gain(v, rcs.Keys, root, isMove, rcs.Keys) - decs),
        x, Excess(v, f, r, root, isMove, rcs.Keys, taken, x))
  {
    assert AccountedAt(v, f, direct, x);
    assert TreeAt(f, depth, x);
    if x == r {
      RefsIntoDestination(v, f, g, depth, r, root, rcs, decs, subs, done);
      assert r !in subs;
    } else {
      RefsIntoOthers(v, f, g, depth, r, root, rcs, decs, subs, done, x);
      IntoIsDragged(v, f, depth, r, root, rcs, decs, subs, done, x);
      if x !in subs && f[x].owner != Parent(r) {
        assert IntoRegion(v, root, done, x) == {};
      }
    }
  }

  // ---------------------------------------------------------------- lifetimes

  /** After the move no field refers to something shorter-lived than the object that holds it. */
  lemma ClosedAfter(
    v: View, f: Forest, depth: map<RegionId, nat>, r: RegionId, root: HeaderId, rcs: map<HeaderId, int>,
    decs: int, subs: map<RegionId, HeaderId>, done: set<Site>, g: Forest)
    requires Tree(f, depth) && r in f && Complete(v, f, depth, r, root, rcs, decs, subs, done)
    requires WellFormed(v, f) && Closed(v, f) && SameDepths(f, g)
    ensures WellFormed(MovedView(v, rcs.Keys, r), g) && Closed(MovedView(v, rcs.Keys, r), g)
  {
    var w, d := MovedView(v, rcs.Keys, r), rcs.Keys;
    SitesMoved(v, d, r);
    forall t | t in d ensures FrameLocal(v, f, t) {
      assert Draggable(v, f, r, t);
    }
    forall s | IsSite(w, s) && s.Field? && At(w, s).To?
      ensures Outlives(g, w.headers[At(w, s).target].loc, w.headers[s.holder].loc)
    {
      FieldOutlives(v, f, depth, r, root, rcs, decs, subs, done, g, s);
    }
  }

  lemma FieldOutlives(
    v: View, f: Forest, depth: map<RegionId, nat>, r: RegionId, root: HeaderId, rcs: map<HeaderId, int>,
    decs: int, subs: map<RegionId, HeaderId>, done: set<Site>, g: Forest, s: Site)
    requires Tree(f, depth) && r in f && Complete(v, f, depth, r, root, rcs, decs, subs, done)
    requires WellFormed(v, f) && Closed(v, f) && SameDepths(f, g)
    requires IsSite(v, s) && s.Field? && At(v, s).To?
    ensures var w := MovedView(v, rcs.Keys, r);
      s.holder in w.headers && At(v, s).target in w.headers &&
      Outlives(g, w.headers[At(v, s).target].loc, w.headers[s.holder].loc)
  {
    var d, t := rcs.Keys, At(v, s).target;
    assert t in v.headers;
    assert Outlives(f, v.headers[t].loc, v.headers[s.holder].loc);
    if s.holder in d {
      assert Draggable(v, f, r, s.holder);
      if v.headers[t].loc.InRegion? {
        assert Traced(v, d, s);
        assert s in done;
        assert Draggable(v, f, r, t) ==> t in d;
      }
    }
    if t in d {
      assert Draggable(v, f, r, t);
    }
  }

  lemma RcExactAfter(v: View, d: set<HeaderId>, r: RegionId)
    requires RcExact(v) && forall t | t in d && t in v.headers :: v.headers[t].loc.InRegion?
    ensures RcExact(MovedView(v, d, r))
  {
    var w := MovedView(v, d, r);
    SitesMoved(v, d, r);
    forall t | t in w.headers && w.headers[t].loc.InRegion? ensures RcExactAt(w, t) {
      assert RcExactAt(v, t);
      assert Pointing(w, t) == Pointing(v, t);
    }
  }

  // ---------------------------------------------------------------- the operation

  ghost predicate Sound(v: View, f: Forest) {
    WellFormed(v, f) && Members(v, f) && RcExact(v) && Closed(v, f)
  }

  /** What a drag may leave behind. */
  ghost predicate DragsTo(
    v: View, f: Forest, r: RegionId, root: HeaderId, d: set<HeaderId>)
    requires r in f
  {
    && (forall t | t in d :: Draggable(v, f, r, t) && Reaches(v, root, t))
    && Enough(v, f, r, root, d)
  }

  /** For a heap destination: how the dragged fields meet other heap regions. */
  ghost predicate Adopts(v: View, f: Forest, r: RegionId, d: set<HeaderId>, subs: map<RegionId, HeaderId>) {
    && (forall x | x in subs ::
          && x in f && !f[x].IsFrameLocal() && x != r && f[x].owner.Unowned?
          && |DraggedInto(v, d, x)| == 1
          && exists s | s in DraggedInto(v, d, x) :: At(v, s) == To(subs[x]))
    && (forall x | x in f && !f[x].IsFrameLocal() && x != r && DraggedInto(v, d, x) != {} ::
          x in subs || f[x].owner == Parent(r))
  }

  lemma AllAdopted(
    v: View, f: Forest, depth: map<RegionId, nat>, r: RegionId, root: HeaderId, rcs: map<HeaderId, int>,
    decs: int, subs: map<RegionId, HeaderId>, done: set<Site>)
    requires Tree(f, depth) && r in f && Complete(v, f, depth, r, root, rcs, decs, subs, done)
    requires !InHeapRegion(v, f, root) && !f[r].IsFrameLocal()
    ensures Adopts(v, f, r, rcs.Keys, subs)
  {
    forall x | x in subs
      ensures |DraggedInto(v, rcs.Keys, x)| == 1
      ensures exists s | s in DraggedInto(v, rcs.Keys, x) :: At(v, s) == To(subs[x])
    {
      IntoIsDragged(v, f, depth, r, root, rcs, decs, subs, done, x);
      var s :| s in done && AimsInto(v, root, s, x) && Aim(v, root, s) == To(subs[x]);
      assert s in IntoRegion(v, root, done, x);
      assert s in DraggedInto(v, rcs.Keys, x);
    }
    forall x | x in f && !f[x].IsFrameLocal() && x != r && DraggedInto(v, rcs.Keys, x) != {}
      ensures x in subs || f[x].owner == Parent(r)
    {
      IntoIsDragged(v, f, depth, r, root, rcs, decs, subs, done, x);
      var s :| s in DraggedInto(v, rcs.Keys, x);
      assert s in IntoRegion(v, root, done, x);
    }
  }

  lemma BringsAll(
    v: View, f: Forest, depth: map<RegionId, nat>, r: RegionId, root: HeaderId, isMove: bool, rcs: map<HeaderId, int>,
    decs: int, subs: map<RegionId, HeaderId>, done: set<Site>)
    requires Tree(f, depth) && r in f && Complete(v, f, depth, r, root, rcs, decs, subs, done)
    requires WellFormed(v, f) && RcExact(v)
    requires isMove ==> exists i | 0 <= i < |v.registers| :: v.registers[i] == To(root)
    ensures forall t | t in rcs ::
      && t in v.headers && v.headers[t].loc.InRegion? && v.headers[t].loc.region in f
      && Brings(v, rcs.Keys, root, isMove, t, if t == root && !isMove then rcs[t] - 1 else rcs[t])
  {
    forall t | t in rcs
      ensures t in v.headers && v.headers[t].loc.InRegion? && v.headers[t].loc.region in f
      ensures Brings(v, rcs.Keys, root, isMove, t, if t == root && !isMove then rcs[t] - 1 else rcs[t])
    {
      assert Draggable(v, f, r, t);
      RcSplits(v, f, depth, r, root, rcs, decs, subs, done, t);
      if t == root && isMove {
        var i :| 0 <= i < |v.registers| && v.registers[i] == To(root);
        assert IsSite(v, Register(i));
        assert Register(i) in Outside(v, rcs.Keys, {t});
      }
    }
  }

  lemma ReadyForHeap(
    v: View, f: Forest, f1: Forest, depth: map<RegionId, nat>, r: RegionId, root: HeaderId, rcs: map<HeaderId, int>,
    decs: int, subs: map<RegionId, HeaderId>, done: set<Site>, direct: Counts, told: Counts, taken: Option<RegionId>)
    requires Tree(f, depth) && Tree(f1, depth) && SameButCounts(f, f1) && r in f && !f[r].IsFrameLocal()
    requires Complete(v, f, depth, r, root, rcs, decs, subs, done)
    requires WellFormed(v, f) && Closed(v, f) && !InHeapRegion(v, f, root) && Accounted(v, f, direct)
    requires taken.Some? ==> taken.value in f && f[taken.value].owner == Parent(r)
    requires told == if taken.Some? then Add(direct, taken.value, -1) else direct
    ensures 0 <= decs <= told[r] && Waiting(f1, told, depth, r, subs.Keys)
  {
    assert AccountedAt(v, f, direct, r) && TreeAt(f, depth, r);
    RefsIntoDestination(v, f, f, depth, r, root, rcs, decs, subs, done);
    if taken.Some? {
      assert TreeAt(f, depth, taken.value);
    }
    forall x | x in subs
      ensures x in f1 && !f1[x].IsFrameLocal() && f1[x].owner.Unowned? && !Within(f1, depth, r, x) && told[x] >= 1
    {
      AboveWithin(f, depth, x, r);
      OwnershipDecides(f, f1, depth, r, x);
      var s :| s in done && AimsInto(v, root, s, x);
      assert s in done <==> s == Entry || Traced(v, rcs.Keys, s);
      DraggedReports(v, f, direct, r, root, rcs, s, x);
    }
  }

  /** The pure part of the conclusion. */
  lemma Finished(
    v: View, f: Forest, depth: map<RegionId, nat>, r: RegionId, root: HeaderId, isMove: bool, rcs: map<HeaderId, int>,
    decs: int, subs: map<RegionId, HeaderId>, done: set<Site>, direct: Counts, taken: Option<RegionId>,
    g: Forest, direct': Counts)
    requires Tree(f, depth) && r in f && SameDepths(f, g)
    requires Complete(v, f, depth, r, root, rcs, decs, subs, done)
    requires WellFormed(v, f) && Closed(v, f) && RcExact(v) && !InHeapRegion(v, f, root) && Accounted(v, f, direct)
    requires taken.Some? ==> taken.value in f && !f[taken.value].IsFrameLocal()
    requires taken.Some? && !f[r].IsFrameLocal() ==> f[taken.value].owner == Parent(r)
    requires var told := if taken.Some? then Add(direct, taken.value, -1) else direct;
      direct' == if f[r].IsFrameLocal() then told
                 else Add(Spent(told, subs.Keys), r, Gain(v, rcs.Keys, root, isMove, rcs.Keys) - decs)
    ensures var w := MovedView(v, rcs.Keys, r);
      && DragsTo(v, f, r, root, rcs.Keys)
      && WellFormed(w, g) && RcExact(w) && Closed(w, g)
      && forall x | x in f && !f[x].IsFrameLocal() ::
           Exceeds(w, g, direct', x, Excess(v, f, r, root, isMove, rcs.Keys, taken, x))
  {
    forall t | t in rcs ensures Draggable(v, f, r, t) && t in v.headers && v.headers[t].loc.InRegion? {
      assert Draggable(v, f, r, t);
    }
    ClosedAfter(v, f, depth, r, root, rcs, decs, subs, done, g);
    RcExactAfter(v, rcs.Keys, r);
    AllDragged(v, f, depth, r, root, rcs, decs, subs, done);
    forall x | x in f && !f[x].IsFrameLocal()
      ensures Exceeds(MovedView(v, rcs.Keys, r), g, direct', x, Excess(v, f, r, root, isMove, rcs.Keys, taken, x))
    {
      if f[r].IsFrameLocal() {
        assert AccountedAt(v, f, direct, x);
        RefsOnFrameDrag(v, f, g, rcs.Keys, r, x);
      } else {
        ExcessInHeap(v, f, depth, r, root, isMove, rcs, decs, subs, done, direct, taken, g, x);
      }
    }
  }

  lemma AllDragged(
    v: View, f: Forest, depth: map<RegionId, nat>, r: RegionId, root: HeaderId, rcs: map<HeaderId, int>,
    decs: int, subs: map<RegionId, HeaderId>, done: set<Site>)
    requires Tree(f, depth) && r in f && Complete(v, f, depth, r, root, rcs, decs, subs, done)
    ensures DragsTo(v, f, r, root, rcs.Keys)
  {
    assert Entry in done;
    forall s | Traced(v, rcs.Keys, s) && Draggable(v, f, r, At(v, s).target) ensures At(v, s).target in rcs {
      assert s in done;
    }
  }

  /** A completed traversal has found a set of headers that the destination can take. */
  lemma DragWorks(
    v: View, f: Forest, depth: map<RegionId, nat>, r: RegionId, root: HeaderId, rcs: map<HeaderId, int>,
    decs: int, subs: map<RegionId, HeaderId>, done: set<Site>)
    requires Tree(f, depth) && r in f && Complete(v, f, depth, r, root, rcs, decs, subs, done)
    requires root in v.headers && !v.headers[root].loc.Stack? && !InHeapRegion(v, f, root)
    ensures CanDrag(v, f, depth, r, root)
  {
    AllDragged(v, f, depth, r, root, rcs, decs, subs, done);
    if !f[r].IsFrameLocal() {
      AllAdopted(v, f, depth, r, root, rcs, decs, subs, done);
      forall x | x in f && !f[x].IsFrameLocal() && x != r && DraggedInto(v, rcs.Keys, x) != {}
        ensures FitsAt(v, f, depth, r, rcs.Keys, x)
      {
      }
    }
  }

  /** The traversal has met region `x` exactly when a dragged field leads there. */
  lemma TakesOver(
    v: View, f: Forest, depth: map<RegionId, nat>, r: RegionId, root: HeaderId, rcs: map<HeaderId, int>,
    decs: int, subs: map<RegionId, HeaderId>, done: set<Site>, x: RegionId)
    requires Tree(f, depth) && r in f && Complete(v, f, depth, r, root, rcs, decs, subs, done)
    requires root in v.headers && !InHeapRegion(v, f, root) && x in f && !f[x].IsFrameLocal()
    ensures (exists s | s in done :: AimsInto(v, root, s, x)) <==> DraggedInto(v, rcs.Keys, x) != {}
  {
    assert forall s :: s in done <==> s == Entry || Traced(v, rcs.Keys, s);
    if s :| s in done && AimsInto(v, root, s, x) {
      assert s in DraggedInto(v, rcs.Keys, x);
    }
    if s :| s in DraggedInto(v, rcs.Keys, x) {
      assert Traced(v, rcs.Keys, s) && AimsInto(v, root, s, x);
    }
  }

  /** So the reference that is gone from `exchanged` is the one that a dragged field takes over. */
  lemma TakenIs(
    v: View, f: Forest, depth: map<RegionId, nat>, r: RegionId, root: HeaderId, rcs: map<HeaderId, int>,
    decs: int, subs: map<RegionId, HeaderId>, done: set<Site>, exchanged: Option<RegionId>, left: Option<RegionId>)
    requires Tree(f, depth) && r in f && Complete(v, f, depth, r, root, rcs, decs, subs, done)
    requires root in v.headers && !InHeapRegion(v, f, root) && (exchanged.Some? ==> exchanged.value in f)
    requires left != exchanged ==> exchanged.Some? && !f[exchanged.value].IsFrameLocal()
    requires exchanged.Some? && !f[exchanged.value].IsFrameLocal() ==>
      (left != exchanged <==> exists s | s in done :: AimsInto(v, root, s, exchanged.value))
    ensures TakenOver(v, f, rcs.Keys, exchanged) == if left == exchanged then None else exchanged
  {
    hide Complete, DraggedInto, AimsInto;
    if exchanged.Some? && !f[exchanged.value].IsFrameLocal() {
      TakesOver(v, f, depth, r, root, rcs, decs, subs, done, exchanged.value);
    }
  }

  lemma ReadyToCommit(
    v: View, f: Forest, f1: Forest, depth: map<RegionId, nat>, r: RegionId, root: HeaderId, isMove: bool,
    rcs: map<HeaderId, int>, decs: int, subs: map<RegionId, HeaderId>, done: set<Site>,
    direct: Counts, told: Counts, taken: Option<RegionId>)
    requires Tree(f, depth) && Tree(f1, depth) && SameButCounts(f, f1) && r in f
    requires Complete(v, f, depth, r, root, rcs, decs, subs, done)
    requires WellFormed(v, f) && Closed(v, f) && RcExact(v) && !InHeapRegion(v, f, root) && Accounted(v, f, direct)
    requires taken.Some? ==> taken.value in f
    requires taken.Some? && !f[r].IsFrameLocal() ==> f[taken.value].owner == Parent(r)
    requires told == if taken.Some? then Add(direct, taken.value, -1) else direct
    requires isMove ==> exists i | 0 <= i < |v.registers| :: v.registers[i] == To(root)
    ensures decs >= 0
    ensures if f[r].IsFrameLocal() then subs == map[]
            else Adopts(v, f, r, rcs.Keys, subs) && told[r] >= decs && Waiting(f1, told, depth, r, subs.Keys)
    ensures forall t | t in rcs ::
      && t in v.headers && v.headers[t].loc.InRegion? && v.headers[t].loc.region in f1
      && Brings(v, rcs.Keys, root, isMove, t, if t == root && !isMove then rcs[t] - 1 else rcs[t])
  {
    BringsAll(v, f, depth, r, root, isMove, rcs, decs, subs, done);
    if !f[r].IsFrameLocal() {
      AllAdopted(v, f, depth, r, root, rcs, decs, subs, done);
      ReadyForHeap(v, f, f1, depth, r, root, rcs, decs, subs, done, direct, told, taken);
    }
  }

  /** Everything after the traversal. */
  method Commit(
    h: Heap, r: RegionId, root: HeaderId, isMove: bool, rcs: map<HeaderId, int>, decs: nat, subs: map<RegionId, HeaderId>,
    ghost v: View)
    returns (ghost alive: bool)
    requires h.Counted() && r in h.regions && Live(h.regions, h.depth, r)
    requires v == h.Graph() && Members(v, h.regions)
    requires if h.regions[r].IsFrameLocal() then subs == map[]
             else h.direct[r] >= decs && Waiting(h.regions, h.direct, h.depth, r, subs.Keys)
    requires forall t | t in rcs ::
      && t in v.headers && v.headers[t].loc.InRegion? && v.headers[t].loc.region in h.regions
      && Brings(v, rcs.Keys, root, isMove, t, if t == root && !isMove then rcs[t] - 1 else rcs[t])
    modifies h`regions, h`headers, h`direct, h`depth
    ensures h.Counted() && Members(h.Graph(), h.regions)
    ensures h.headers == MovedHeaders(v.headers, rcs.Keys, r)
    ensures h.direct ==
      if old(h.regions)[r].IsFrameLocal() then old(h.direct)
      else Add(Spent(old(h.direct), subs.Keys), r, Gain(v, rcs.Keys, root, isMove, rcs.Keys) - decs)
    ensures r in h.regions && Regrown(old(h.regions), h.regions, h.depth, r, subs, alive)
    ensures !alive ==> !h.regions[r].IsFrameLocal() && h.direct[r] == 0
  {
    if h.regions[r].IsFrameLocal() {
      alive := CommitToFrame(h, r, root, isMove, rcs, v);
    } else {
      alive := CommitToHeap(h, r, root, isMove, rcs, decs, subs, v);
    }
  }

  /** The second half of `drag_allocation`: what the traversal found is carried out. */
  method Land(
    h: Heap, r: RegionId, root: HeaderId, isMove: bool, rcs: map<HeaderId, int>, decs: int, subs: map<RegionId, HeaderId>,
    ghost v: View, ghost f: Forest, ghost direct: Counts, ghost done: set<Site>, ghost taken: Option<RegionId>)
    returns (ghost alive: bool)
    requires h.Counted() && SameButCounts(f, h.regions) && v == h.Graph() && Tree(f, h.depth)
    requires r in f && Live(f, h.depth, r) && Complete(v, f, h.depth, r, root, rcs, decs, subs, done)
    requires Sound(v, f) && Accounted(v, f, direct) && !InHeapRegion(v, f, root)
    requires taken.Some? ==> taken.value in f && !f[taken.value].IsFrameLocal()
    requires taken.Some? && !f[r].IsFrameLocal() ==> f[taken.value].owner == Parent(r)
    requires h.direct == if taken.Some? then Add(direct, taken.value, -1) else direct
    requires isMove ==> exists i | 0 <= i < |h.registers| :: h.registers[i] == To(root)
    modifies h`regions, h`headers, h`direct, h`depth
    ensures h.Counted() && Sound(h.Graph(), h.regions) && h.Graph() == MovedView(v, rcs.Keys, r)
    ensures r in h.regions && Regrown(f, h.regions, h.depth, r, subs, alive)
    ensures f[r].IsFrameLocal() ==> subs == map[]
    ensures forall x | x in f && !f[x].IsFrameLocal() ::
      Exceeds(h.Graph(), h.regions, h.direct, x, Excess(v, f, r, root, isMove, rcs.Keys, taken, x))
    ensures !alive ==> !h.regions[r].IsFrameLocal() && h.direct[r] == 0
  {
    hide Complete, BalancedAt, AccountedAt, RcExact, Closed, WellFormed, TreeAt, Excess, Exceeds, Regrown, Brings, InHeapRegion;
    LiveKept(f, h.regions, h.depth);
    MembersKept(v, f, h.regions);
    ReadyToCommit(v, f, h.regions, h.depth, r, root, isMove, rcs, decs, subs, done, direct, h.direct, taken);
    ghost var depth := h.depth;
    alive := Commit(h, r, root, isMove, rcs, decs, subs, v);
    RegrownSince(f, old(h.regions), h.regions, h.depth, r, subs, alive);
    Finished(v, f, depth, r, root, isMove, rcs, decs, subs, done, direct, taken, h.regions, h.direct);
    assert h.Graph() == MovedView(v, rcs.Keys, r);
  }

  lemma RegrownSince(
    f: Forest, f1: Forest, g: Forest, depth: map<RegionId, nat>, r: RegionId, subs: map<RegionId, HeaderId>, alive: bool)
    requires SameButCounts(f, f1) && Tree(g, depth) && r in g && Regrown(f1, g, depth, r, subs, alive)
    ensures Regrown(f, g, depth, r, subs, alive)
  {
  }

  /**
   `drag_allocation<is_move>`.  `exchanged` is the region that is about to lose its parent because its
   reference is being overwritten; it is cleared when a dragged field takes that reference over.
   */
  method DragAllocation(h: Heap, r: RegionId, root: HeaderId, isMove: bool, exchanged: Option<RegionId>)
    returns (ok: bool, left: Option<RegionId>, ghost d: set<HeaderId>, ghost subs: map<RegionId, HeaderId>, ghost alive: bool)
    requires h.Counted() && Sound(h.Graph(), h.regions) && Accounted(h.Graph(), h.regions, h.direct)
    requires r in h.regions && Live(h.regions, h.depth, r)
    requires root in h.headers && !InHeapRegion(h.Graph(), h.regions, root) && !h.headers[root].loc.Immortal?
    requires isMove ==> exists i | 0 <= i < |h.registers| :: h.registers[i] == To(root)
    requires Exchangeable(h.Graph(), h.regions, h.direct, r, exchanged)
    modifies h`regions, h`headers, h`direct, h`depth
    ensures left == exchanged || (exchanged.Some? && left == None)
    ensures h.Counted()
    ensures ok <==> CanDrag(old(h.Graph()), old(h.regions), old(h.depth), r, root)
    // a failed drag changes nothing, except that it may have taken over the exchanged reference
    ensures !ok ==> h.headers == old(h.headers) && SameButCounts(old(h.regions), h.regions)
    ensures !ok && left == exchanged ==> h.regions == old(h.regions) && h.direct == old(h.direct)
    ensures !ok && left != exchanged ==> h.direct == Add(old(h.direct), exchanged.value, -1)
    // a successful drag moves exactly what has to move
    ensures ok ==>
      && DragsTo(old(h.Graph()), old(h.regions), r, root, d)
      && h.Graph() == MovedView(old(h.Graph()), d, r)
      && r in h.regions && Regrown(old(h.regions), h.regions, h.depth, r, subs, alive)
      && Sound(h.Graph(), h.regions)
      && (if old(h.regions)[r].IsFrameLocal() then subs == map[] else Adopts(old(h.Graph()), old(h.regions), r, d, subs))
    ensures ok ==> d == DragSet(old(h.Graph()), old(h.regions), r, root)
    ensures ok && !old(h.regions)[r].IsFrameLocal() ==> (alive <==> !Released(h.regions, h.depth, r))
    // the exchanged reference is taken over exactly when a dragged field leads to its region, a heap region
    ensures ok ==> TakenOver(old(h.Graph()), old(h.regions), d, exchanged) == if left == exchanged then None else exchanged
    ensures !ok && left != exchanged ==> Touches(old(h.Graph()), old(h.regions), r, root, exchanged.value)
    // on failure too: exactly when something in its region is met before anything ends the traversal
    ensures left != exchanged <==>
      exchanged.Some? && MetInTime(old(h.Graph()), old(h.regions), old(h.depth), r, root, exchanged.value)
    // and its accounts are exact up to the stated excess
    ensures ok ==>
      var taken := if left == exchanged then None else exchanged;
      forall x | x in old(h.regions) && !old(h.regions)[x].IsFrameLocal() ::
        Exceeds(h.Graph(), h.regions, h.direct, x, Excess(old(h.Graph()), old(h.regions), r, root, isMove, d, taken, x))
    ensures ok && !alive ==> r in h.regions && !h.regions[r].IsFrameLocal() && h.direct[r] == 0
  {
    hide TakenOver, DraggedInto, AimsInto, DragSet, Touches, MetInTime, Route, Unstopped, Complete, BalancedAt, AccountedAt, Adopts;
    ghost var v, f, direct := h.Graph(), h.regions, h.direct;
    d, subs, alive := {}, map[], true;
    var rcs, decs, children;
    ghost var done;
    ok, rcs, decs, children, left, done := Trace(h, r, root, exchanged);
    if !ok {
      return;
    }
    d, subs := rcs.Keys, children;
    DragWorks(v, f, h.depth, r, root, rcs, decs, children, done);
    AllDragged(v, f, h.depth, r, root, rcs, decs, children, done);
    LeastIsDragSet(v, f, r, root, d);
    TakenIs(v, f, h.depth, r, root, rcs, decs, children, done, exchanged, left);
    ghost var taken := if left == exchanged then None else exchanged;
    if !f[r].IsFrameLocal() {
      AllAdopted(v, f, h.depth, r, root, rcs, decs, children, done);
    }
    alive := Land(h, r, root, isMove, rcs, decs, children, v, f, direct, done, taken);
  }
}
