/**
 `exchange` through a reference to a register (vbci/value.cc:995-1038): a variable of an older frame receives a
 value.  What it then refers to lives at least as long as that frame, and every invariant is kept.
 */
module RegisterExchanges {
  import opened Collections
  import opened Regions
  import opened Graphs
  import opened Heaps
  import opened Drags
  import opened DragCommit
  import opened DragExact
  import opened WriteBarrier
  import opened Exchanges
  import opened FrameExchanges

  // ---------------------------------------------------------------- the assignment

  /** What register `j` holds once register `i` has been emptied. */
  function Sourced(v: View, i: int, j: int): Ref
    requires 0 <= i < |v.registers| && 0 <= j < |v.registers|
  {
    if i == j then Null else v.registers[j]
  }

  /** A copy of a mutable or immutable object is counted. */
  function Counts(v: View, i: int, j: int, isMove: bool): bool
    requires 0 <= i < |v.registers| && 0 <= j < |v.registers|
  {
    var loc := LocationOf(v, Sourced(v, i, j));
    !isMove && !loc.Stack? && !loc.Immortal?
  }

  /** Register `i` takes the value of register `j`; what it held goes to a new register. */
  function Assigned(v: View, i: int, j: int, isMove: bool): View
    requires 0 <= i < |v.registers| && 0 <= j < |v.registers|
  {
    var next, prev := Sourced(v, i, j), v.registers[i];
    var left := if isMove then v.registers[j := Null] else v.registers;
    var counted :=
      if Counts(v, i, j, isMove) && next.To? && next.target in v.headers
      then v.headers[next.target := v.headers[next.target].(rc := v.headers[next.target].rc + 1)] else v.headers;
    View(counted, left[i := next] + [prev], v.cowns)
  }

  method Assign(h: Heap, i: int, j: int, isMove: bool)
    requires 0 <= i < |h.registers| && 0 <= j < |h.registers|
    modifies h`headers, h`registers
    ensures h.Graph() == Assigned(old(h.Graph()), i, j, isMove)
  {
    var prev := h.registers[i];
    h.registers := h.registers[i := Null];
    var next := h.registers[j];
    var loc := LocationOf(h.Graph(), next);
    if isMove {
      h.registers := h.registers[j := Null];
    } else if next.To? && next.target in h.headers && !loc.Stack? && !loc.Immortal? {
      h.headers := h.headers[next.target := h.headers[next.target].(rc := h.headers[next.target].rc + 1)];
    }
    h.registers := h.registers[i := next];
    h.registers := h.registers + [prev];
  }

  lemma AssignedSites(v: View, i: int, j: int, isMove: bool)
    requires 0 <= i < |v.registers| && 0 <= j < |v.registers|
    ensures var w := Assigned(v, i, j, isMove);
      && w.headers.Keys == v.headers.Keys
      && (forall t | t in v.headers :: w.headers[t].loc == v.headers[t].loc)
      && (forall s :: IsSite(w, s) <==> IsSite(v, s) || s == Register(|v.registers|))
      && At(w, Register(|v.registers|)) == v.registers[i] && At(w, Register(i)) == Sourced(v, i, j)
      && (i != j ==> At(w, Register(j)) == if isMove then Null else v.registers[j])
      && (forall s | IsSite(v, s) && s != Register(i) && s != Register(j) :: At(w, s) == At(v, s))
  {
  }

  /** Two sets of references, before and after, that differ at the three registers only. */
  lemma OneCopyMore(a: set<Site>, b: set<Site>, last: Site, to: Site, from: Site, was: bool, now: bool, isMove: bool)
    requires last != to && last != from && last !in a && (to in a <==> was) && (from in a <==> now) && (last in b <==> was)
    requires if to == from then to !in b else (to in b <==> now) && (from in b <==> now && !isMove)
    requires a - {last, to, from} == b - {last, to, from}
    ensures |b| == |a| + One(!isMove && to != from && now)
  {
    if to == from {
      SizeWithoutTwo(a, last, to);
      SizeWithoutTwo(b, last, to);
    } else {
      SizeWithoutThree(a, last, to, from);
      SizeWithoutThree(b, last, to, from);
    }
  }

  lemma SizeWithoutTwo(s: set<Site>, x: Site, y: Site)
    requires x != y
    ensures |s - {x, y, y}| == |s| - One(x in s) - One(y in s)
  {
    SizeWithout(s, x);
    SizeWithout(s - {x}, y);
    assert s - {x, y, y} == s - {x} - {y};
  }

  lemma AssignedRefs(v: View, f: Forest, i: int, j: int, isMove: bool, x: RegionId)
    requires 0 <= i < |v.registers| && 0 <= j < |v.registers|
    ensures |StackRefs(Assigned(v, i, j, isMove), f, x)| ==
      |StackRefs(v, f, x)| + One(!isMove && i != j && PointsInto(v, Register(j), x))
  {
    var last, to, from := Register(|v.registers|), Register(i), Register(j);
    var a, b := StackRefs(v, f, x), StackRefs(Assigned(v, i, j, isMove), f, x);
    forall s
      ensures s in {last, to, from} ==> (s in a <==> PointsInto(v, s, x)) && (s in b <==> PointsInto(Assigned(v, i, j, isMove), s, x))
      ensures s !in {last, to, from} ==> (s in a <==> s in b)
    {
      RefStays(v, f, i, j, isMove, x, s);
    }
    AssignedSites(v, i, j, isMove);
    assert IsSite(v, to) && IsSite(v, from) && !IsSite(v, last);
    hide Assigned, StackRefs;
    assert a - {last, to, from} == b - {last, to, from};
    OneCopyMore(a, b, last, to, from, PointsInto(v, to, x), PointsInto(v, from, x), isMove);
  }

  lemma RefStays(v: View, f: Forest, i: int, j: int, isMove: bool, x: RegionId, s: Site)
    requires 0 <= i < |v.registers| && 0 <= j < |v.registers|
    ensures var w := Assigned(v, i, j, isMove);
      && (s.Register? ==> (s in StackRefs(v, f, x) <==> PointsInto(v, s, x)) && (s in StackRefs(w, f, x) <==> PointsInto(w, s, x)))
      && (s !in {Register(|v.registers|), Register(i), Register(j)} ==>
            && (s in StackRefs(v, f, x) <==> s in StackRefs(w, f, x))
            && (forall y :: Crosses(w, f, s, y) <==> Crosses(v, f, s, y)))
  {
    AssignedSites(v, i, j, isMove);
    hide Assigned;
  }

  lemma AssignedPointing(v: View, i: int, j: int, isMove: bool, t: HeaderId)
    requires 0 <= i < |v.registers| && 0 <= j < |v.registers|
    ensures |Pointing(Assigned(v, i, j, isMove), t)| ==
      |Pointing(v, t)| + One(!isMove && i != j && v.registers[j] == To(t))
  {
    var last, to, from := Register(|v.registers|), Register(i), Register(j);
    var a, b := Pointing(v, t), Pointing(Assigned(v, i, j, isMove), t);
    AssignedSites(v, i, j, isMove);
    assert IsSite(v, to) && IsSite(v, from) && !IsSite(v, last);
    hide Assigned;
    assert a - {last, to, from} == b - {last, to, from};
    OneCopyMore(a, b, last, to, from, v.registers[i] == To(t), v.registers[j] == To(t), isMove);
  }

  lemma AssignedSound(v: View, f: Forest, i: int, j: int, isMove: bool)
    requires 0 <= i < |v.registers| && 0 <= j < |v.registers| && Sound(v, f)
    ensures Sound(Assigned(v, i, j, isMove), f)
  {
    var w := Assigned(v, i, j, isMove);
    AssignedSites(v, i, j, isMove);
    assert IsSite(v, Register(i)) && IsSite(v, Register(j));
    forall t | t in w.headers && w.headers[t].loc.InRegion? ensures RcExactAt(w, t) {
      assert RcExactAt(v, t);
      AssignedPointing(v, i, j, isMove, t);
    }
    hide Assigned, RcExact;
    forall x | x in f ensures MembersAt(w, f, x) {
      assert MembersAt(v, f, x);
    }
  }

  lemma AssignedEntries(v: View, f: Forest, i: int, j: int, isMove: bool)
    requires 0 <= i < |v.registers| && 0 <= j < |v.registers| && SingleEntry(v, f) && Entered(v, f)
    ensures SingleEntry(Assigned(v, i, j, isMove), f) && Entered(Assigned(v, i, j, isMove), f)
  {
    var w := Assigned(v, i, j, isMove);
    AssignedSites(v, i, j, isMove);
    hide Assigned;
    forall s, x ensures Crosses(w, f, s, x) <==> Crosses(v, f, s, x) {
      RefStays(v, f, i, j, isMove, x, s);
    }
    forall x | x in f && f[x].HasParent() ensures EnteredAt(w, f, x) {
      assert EnteredAt(v, f, x);
    }
  }

  // ---------------------------------------------------------------- lifetimes

  /** Register `k` belongs to the frame at `levels[k]`, and what it refers to lives at least as long as that frame. */
  ghost predicate Lifespans(v: View, f: Forest, levels: seq<nat>) {
    |levels| == |v.registers| && forall k | 0 <= k < |levels| :: Outlives(f, LocationOf(v, v.registers[k]), Stack(levels[k]))
  }

  lemma AssignedLifespans(v: View, f: Forest, i: int, j: int, isMove: bool, levels: seq<nat>, top: nat)
    requires 0 <= i < |v.registers| && 0 <= j < |v.registers| && Lifespans(v, f, levels) && levels[i] <= top
    requires Outlives(f, LocationOf(v, v.registers[j]), Stack(levels[i]))
    ensures Lifespans(Assigned(v, i, j, isMove), f, levels + [top])
  {
    AssignedSites(v, i, j, isMove);
    var w := Assigned(v, i, j, isMove);
    forall k | 0 <= k <= |levels| ensures Outlives(f, LocationOf(w, w.registers[k]), Stack((levels + [top])[k])) {
      assert k < |levels| ==> IsSite(v, Register(k));
    }
  }

  /** Moving to an older frame, or to a heap region, shortens no life. */
  lemma MovedLifespans(v: View, f: Forest, g: Forest, r: RegionId, d: set<HeaderId>, levels: seq<nat>)
    requires Lifespans(v, f, levels) && SameDepths(f, g) && r in f && forall t | t in d :: Draggable(v, f, r, t)
    ensures Lifespans(MovedView(v, d, r), g, levels)
  {
    SitesMoved(v, d, r);
    var w := MovedView(v, d, r);
    forall k | 0 <= k < |levels| ensures Outlives(g, LocationOf(w, w.registers[k]), Stack(levels[k])) {
      assert Outlives(f, LocationOf(v, v.registers[k]), Stack(levels[k]));
      var value := v.registers[k];
      if value.To? && value.target in d {
        assert Draggable(v, f, r, value.target);
      }
    }
  }

  lemma LifespansAlike(v: View, f: Forest, g: Forest, levels: seq<nat>)
    requires Lifespans(v, f, levels) && SameDepths(f, g)
    ensures Lifespans(v, g, levels)
  {
    forall k | 0 <= k < |levels| ensures Outlives(g, LocationOf(v, v.registers[k]), Stack(levels[k])) {
      assert Outlives(f, LocationOf(v, v.registers[k]), Stack(levels[k]));
    }
  }

  // ---------------------------------------------------------------- the operation

  /** The value lives in a frame-local region younger than the frame at `level`. */
  predicate Younger(v: View, f: Forest, j: int, level: nat)
    requires 0 <= j < |v.registers|
  {
    var loc := Incoming(v, j);
    loc.InRegion? && loc.region in f && f[loc.region].IsFrameLocal() && f[loc.region].frameDepth > level + 1
  }

  /** Drag the value into the frame at `level`. */
  method DragToFrame(h: Heap, frames: seq<RegionId>, level: nat, j: int, isMove: bool) returns (ghost d: set<HeaderId>)
    requires h.Counted() && Consistent(h.Graph(), h.regions, h.direct)
    requires FrameRegions(h.regions, frames) && level < |frames|
    requires 0 <= j < |h.registers| && Younger(h.Graph(), h.regions, j, level)
    modifies h`regions, h`headers, h`direct, h`depth
    ensures h.Counted() && Consistent(h.Graph(), h.regions, h.direct) && SameDepths(old(h.regions), h.regions)
    ensures old(h.registers)[j].To? && frames[level] in old(h.regions)
    ensures d == DragSet(old(h.Graph()), old(h.regions), frames[level], old(h.registers)[j].target)
    ensures forall t | t in d :: Draggable(old(h.Graph()), old(h.regions), frames[level], t)
    ensures h.Graph() == MovedView(old(h.Graph()), d, frames[level])
    ensures Incoming(h.Graph(), j) == InRegion(frames[level])
    ensures OneOrphaned(old(h.regions), h.regions, None)
  {
    ghost var v, f, direct := h.Graph(), h.regions, h.direct;
    var r, root := frames[level], h.registers[j].target;
    assert IsSite(v, Register(j)) && TreeAt(f, h.depth, r);
    FrameDragWorks(v, f, h.depth, r, root);
    var ok, left;
    ghost var subs, alive;
    ok, left, d, subs, alive := DragAllocation(h, r, root, isMove, None);
    FrameDragged(v, f, h.regions, h.depth, direct, h.direct, r, root, isMove, d, None, alive);
    ShortIsInexact(h.Graph(), h.regions, h.direct, None);
    SitesMoved(v, d, r);
    assert Draggable(v, f, r, root) && root in d;
  }

  /** Count a copy, and assign. */
  method AssignCounted(h: Heap, i: int, j: int, isMove: bool)
    requires h.Counted() && Consistent(h.Graph(), h.regions, h.direct)
    requires 0 <= i < |h.registers| && 0 <= j < |h.registers|
    modifies h
    ensures h.Counted() && Consistent(h.Graph(), h.regions, h.direct)
    ensures h.Graph() == Assigned(old(h.Graph()), i, j, isMove) && SameButCounts(old(h.regions), h.regions)
  {
    hide RcExact, Members, Closed, SingleEntry, Entered, Assigned, TreeAt, BalancedAt;
    ghost var v, f, direct := h.Graph(), h.regions, h.direct;
    IncomingKnown(v, f, j);
    var incoming := Incoming(h.Graph(), j);
    AssignedSound(v, f, i, j, isMove);
    AssignedEntries(v, f, i, j, isMove);
    Assign(h, i, j, isMove);
    if !isMove && i != j && incoming.InRegion? {
      var x := incoming.region;
      if !h.regions[x].IsFrameLocal() {
        assert Register(j) in StackRefs(v, f, x);
        assert AccountedAt(v, f, direct, x);
        LiveWhenReported(f, direct, h.depth, x);
        h.StackInc(x, 1);
      }
    }
    AssignedAccounts(v, f, h.regions, direct, h.direct, i, j, isMove);
    ConsistentAlike(h.Graph(), f, h.regions, h.direct);
  }

  lemma AssignedCopies(v: View, u: View, i: int, j: int, isMove: bool)
    requires 0 <= i < |v.registers| && 0 <= j < |v.registers| && SameReferences(v, u, j)
    ensures CopyCounted(v, Assigned(u, i, j, isMove), if isMove || i == j then Null else v.registers[j])
  {
  }

  /** A drag changes no count, and what register `j` refers to stays counted or uncounted. */
  ghost predicate SameReferences(v: View, u: View, j: int)
    requires 0 <= j < |v.registers|
  {
    && u.headers.Keys == v.headers.Keys && u.registers == v.registers
    && (forall t | t in v.headers :: u.headers[t].rc == v.headers[t].rc)
    && Incoming(u, j).Stack? == Incoming(v, j).Stack? && Incoming(u, j).Immortal? == Incoming(v, j).Immortal?
  }

  lemma MovedCopies(v: View, d: set<HeaderId>, r: RegionId, j: int)
    requires 0 <= j < |v.registers| && Incoming(v, j).InRegion?
    ensures SameReferences(v, MovedView(v, d, r), j)
  {
  }

  lemma AssignedAccounts(
    v: View, f: Forest, g: Forest, direct: Counts, direct': Counts, i: int, j: int, isMove: bool)
    requires 0 <= i < |v.registers| && 0 <= j < |v.registers| && WellFormed(v, f) && Accounted(v, f, direct) && SameButCounts(f, g)
    requires var incoming := Incoming(v, j);
      direct' == if !isMove && i != j && incoming.InRegion? && incoming.region in f && !f[incoming.region].IsFrameLocal()
                 then Add(direct, incoming.region, 1) else direct
    ensures Accounted(Assigned(v, i, j, isMove), f, direct')
  {
    IncomingKnown(v, f, j);
    forall x | x in f && !f[x].IsFrameLocal() ensures AccountedAt(Assigned(v, i, j, isMove), f, direct', x) {
      assert AccountedAt(v, f, direct, x);
      AssignedRefs(v, f, i, j, isMove, x);
    }
  }

  /** Counts of regions do not matter to the graph. */
  lemma ConsistentAlike(v: View, f: Forest, g: Forest, direct: Counts)
    requires Consistent(v, f, direct) && SameButCounts(f, g)
    ensures Consistent(v, g, direct)
  {
    MembersKept(v, f, g);
    forall s, x ensures Crosses(v, g, s, x) <==> Crosses(v, f, s, x) {
    }
    forall x | x in g && !g[x].IsFrameLocal() ensures AccountedAt(v, g, direct, x) {
      assert AccountedAt(v, f, direct, x);
      assert StackRefs(v, g, x) == StackRefs(v, f, x);
    }
    forall x | x in g && g[x].HasParent() ensures EnteredAt(v, g, x) {
      assert EnteredAt(v, f, x);
    }
  }

  /**
   `exchange<is_move>` on a register of the frame at `level`.  It is refused only for a stack value of a younger frame;
   a value in a younger frame-local region is dragged into that frame first.  Every invariant is kept, what the
   register then refers to lives at least as long as its frame, and so does what all other registers refer to.
   */
  method ExchangeRegister(
    h: Heap, frames: seq<RegionId>, level: nat, i: int, j: int, isMove: bool, ghost levels: seq<nat>) returns (ok: bool)
    requires h.Counted() && Consistent(h.Graph(), h.regions, h.direct)
    requires FrameRegions(h.regions, frames) && level < |frames|
    requires 0 <= i < |h.registers| && 0 <= j < |h.registers|
    requires Lifespans(h.Graph(), h.regions, levels) && levels[i] == level
    modifies h
    ensures h.Counted() && Consistent(h.Graph(), h.regions, h.direct)
    ensures var v, f := old(h.Graph()), old(h.regions);
      && (ok <==> (Incoming(v, j).Stack? ==> Incoming(v, j).level <= level))
      && (!ok ==> h.Graph() == v && h.regions == f && h.direct == old(h.direct))
      && (Younger(v, f, j, level) ==> v.registers[j].To? && frames[level] in f)
      && (ok ==>
            && h.Graph() == Assigned(
                 if Younger(v, f, j, level)
                 then MovedView(v, DragSet(v, f, frames[level], v.registers[j].target), frames[level]) else v, i, j, isMove)
            && CopyCounted(v, h.Graph(), if isMove || i == j then Null else v.registers[j])
            && OneOrphaned(f, h.regions, None)
            && Lifespans(h.Graph(), h.regions, levels + [|frames| - 1]))
  {
    hide RcExact, Members, Closed, SingleEntry, Entered, Accounted, Tree, Balanced, NonNegative, MovedView, Assigned, DragSet;
    hide Lifespans, Draggable, CopyCounted;
    ghost var v, f := h.Graph(), h.regions;
    IncomingKnown(v, f, j);
    var loc := Incoming(h.Graph(), j);
    if loc.Stack? && loc.level > level {
      return false;
    }
    if loc.InRegion? && h.regions[loc.region].IsFrameLocal() && h.regions[loc.region].frameDepth > level + 1 {
      ghost var d := DragToFrame(h, frames, level, j, isMove);
      MovedLifespans(v, f, h.regions, frames[level], d, levels);
      MovedCopies(v, d, frames[level], j);
    }
    ghost var w, g := h.Graph(), h.regions;
    AssignCounted(h, i, j, isMove);
    AssignedLifespans(w, g, i, j, isMove, levels, |frames| - 1);
    LifespansAlike(h.Graph(), g, h.regions, levels + [|frames| - 1]);
    AssignedCopies(v, w, i, j, isMove);
    ok := true;
  }
}
