/**
 Regions and their stack counts (vbci/region.h).

 A heap region counts the references that reach it from the stack side: registers, fields of stack
 objects and fields of frame-local objects.  The count is edge-triggered: a child whose own count is
 positive contributes exactly one to its parent.  `direct` is the ghost record of the references that
 have been reported; `Balanced` is the equation that the debug check in vbci/thread.cc:651-743 tests.
 */
module Regions {
  import opened Collections

  type RegionId = int
  type HeaderId = int

  /** `parent` and `cown_owner_ptr` share one word; `cown_owned` tells which it is. */
  datatype Owner = Unowned | Parent(region: RegionId) | CownOwned

  datatype Region = Region(
    owner: Owner,
    entry: Option<HeaderId>,
    stackRc: nat,
    frameDepth: nat,
    finalizing: bool,
    members: set<HeaderId>)
  {
    predicate IsFrameLocal() { frameDepth > 0 }
    predicate HasParent() { owner.Parent? }
    predicate HasOwner() { !owner.Unowned? }
  }

  type Forest = map<RegionId, Region>
  type Counts = map<RegionId, int>

  // ---------------------------------------------------------------- the invariant

  /**
   Parents are heap regions at a smaller depth, so the parent relation is a forest; frame-local and
   finalizing regions are unowned and uncounted.
   */
  ghost predicate TreeAt(f: Forest, depth: map<RegionId, nat>, r: RegionId)
    requires r in f && f.Keys <= depth.Keys
  {
    && (f[r].HasParent() ==>
          && f[r].owner.region in f
          && !f[f[r].owner.region].IsFrameLocal()
          && depth[f[r].owner.region] < depth[r])
    && (f[r].IsFrameLocal() || f[r].finalizing ==> f[r].owner.Unowned? && f[r].stackRc == 0)
  }

  ghost predicate Tree(f: Forest, depth: map<RegionId, nat>) {
    && f.Keys <= depth.Keys
    && forall r {:trigger TreeAt(f, depth, r)} | r in f :: TreeAt(f, depth, r)
  }

  ghost function ActiveChildren(f: Forest, p: RegionId): set<RegionId> {
    set c | c in f && f[c].owner == Parent(p) && f[c].stackRc > 0
  }

  ghost predicate BalancedAt(f: Forest, direct: Counts, r: RegionId)
    requires r in f && r in direct
  {
    f[r].stackRc == direct[r] + |ActiveChildren(f, r)|
  }

  ghost predicate Balanced(f: Forest, direct: Counts) {
    && direct.Keys == f.Keys
    && forall r {:trigger BalancedAt(f, direct, r)} | r in f && !f[r].IsFrameLocal() :: BalancedAt(f, direct, r)
  }

  ghost predicate NonNegative(direct: Counts) {
    forall r | r in direct :: direct[r] >= 0
  }

  /** Same regions, same ownership; counts may differ. */
  ghost predicate SameButCounts(f: Forest, g: Forest) {
    && f.Keys == g.Keys
    && forall r | r in f ::
         && g[r].owner == f[r].owner && g[r].entry == f[r].entry && g[r].frameDepth == f[r].frameDepth
         && g[r].finalizing == f[r].finalizing && g[r].members == f[r].members
  }

  ghost predicate SameOwnership(f: Forest, g: Forest) {
    && f.Keys == g.Keys
    && forall r | r in f ::
         && g[r].owner == f[r].owner && g[r].entry == f[r].entry && g[r].frameDepth == f[r].frameDepth
         && g[r].members == f[r].members
  }

  // ---------------------------------------------------------------- ancestors

  ghost function Root(f: Forest, depth: map<RegionId, nat>, r: RegionId): (root: RegionId)
    requires Tree(f, depth) && r in f
    ensures root in f && !f[root].HasParent()
    ensures !f[r].IsFrameLocal() ==> !f[root].IsFrameLocal()
    decreases depth[r]
  {
    assert TreeAt(f, depth, r);
    if f[r].HasParent() then Root(f, depth, f[r].owner.region) else r
  }

  /** `a` is `r` or one of its ancestors. */
  ghost predicate Within(f: Forest, depth: map<RegionId, nat>, r: RegionId, a: RegionId)
    requires Tree(f, depth) && r in f
    decreases depth[r]
  {
    assert TreeAt(f, depth, r);
    r == a || (f[r].HasParent() && Within(f, depth, f[r].owner.region, a))
  }

  /** `a` is a proper ancestor of `r`. */
  ghost predicate Above(f: Forest, depth: map<RegionId, nat>, a: RegionId, r: RegionId)
    requires Tree(f, depth) && r in f
  {
    assert TreeAt(f, depth, r);
    f[r].HasParent() && Within(f, depth, f[r].owner.region, a)
  }

  lemma AboveWithin(f: Forest, depth: map<RegionId, nat>, a: RegionId, r: RegionId)
    requires Tree(f, depth) && r in f
    ensures Above(f, depth, a, r) <==> a != r && Within(f, depth, r, a)
  {
    assert TreeAt(f, depth, r);
    if Above(f, depth, a, r) {
      WithinDepth(f, depth, f[r].owner.region, a);
    }
  }

  /** No region on the way up is being finalized. */
  ghost predicate Live(f: Forest, depth: map<RegionId, nat>, r: RegionId)
    requires Tree(f, depth) && r in f
  {
    !f[Root(f, depth, r)].finalizing
  }

  lemma {:induction false} WithinDepth(f: Forest, depth: map<RegionId, nat>, r: RegionId, a: RegionId)
    requires Tree(f, depth) && r in f && Within(f, depth, r, a)
    ensures a in f && depth[a] <= depth[r] && (a != r ==> depth[a] < depth[r])
    decreases depth[r]
  {
    assert TreeAt(f, depth, r);
    if r != a {
      WithinDepth(f, depth, f[r].owner.region, a);
    }
  }

  lemma {:induction false} WithinRoot(f: Forest, depth: map<RegionId, nat>, r: RegionId, a: RegionId)
    requires Tree(f, depth) && r in f && Within(f, depth, r, a)
    ensures a in f && Root(f, depth, r) == Root(f, depth, a)
    decreases depth[r]
  {
    assert TreeAt(f, depth, r);
    if r != a {
      WithinRoot(f, depth, f[r].owner.region, a);
    }
  }

  /** Roots and ancestry depend on ownership only. */
  lemma {:induction false} OwnershipDecides(f: Forest, g: Forest, depth: map<RegionId, nat>, r: RegionId, a: RegionId)
    requires Tree(f, depth) && Tree(g, depth) && r in f && SameOwnership(f, g)
    ensures Root(f, depth, r) == Root(g, depth, r)
    ensures Within(f, depth, r, a) == Within(g, depth, r, a)
    decreases depth[r]
  {
    assert TreeAt(f, depth, r) && TreeAt(g, depth, r);
    if f[r].HasParent() {
      OwnershipDecides(f, g, depth, f[r].owner.region, a);
    }
  }

  // ---------------------------------------------------------------- what the equation determines

  /** Ownership and reported references determine every count: `Balanced` has one solution. */
  lemma CountsDetermined(f: Forest, g: Forest, direct: Counts, depth: map<RegionId, nat>)
    requires Tree(f, depth) && Tree(g, depth) && SameOwnership(f, g)
    requires Balanced(f, direct) && Balanced(g, direct)
    ensures forall r | r in f :: f[r].stackRc == g[r].stackRc
  {
    var top := MaxDepth(depth, f.Keys);
    forall r | r in f ensures f[r].stackRc == g[r].stackRc {
      CountDetermined(f, g, direct, depth, r, top - depth[r]);
    }
  }

  lemma MaxDepth(depth: map<RegionId, nat>, rs: set<RegionId>) returns (top: nat)
    requires rs <= depth.Keys
    ensures forall r | r in rs :: depth[r] <= top
  {
    if rs == {} {
      top := 0;
    } else {
      var r := Pick(rs);
      var rest := MaxDepth(depth, rs - {r});
      top := if depth[r] > rest then depth[r] else rest;
    }
  }

  lemma {:induction false} CountDetermined(
    f: Forest, g: Forest, direct: Counts, depth: map<RegionId, nat>, r: RegionId, height: nat)
    requires Tree(f, depth) && Tree(g, depth) && SameOwnership(f, g)
    requires Balanced(f, direct) && Balanced(g, direct)
    requires r in f && forall x | x in f :: depth[x] <= depth[r] + height
    ensures f[r].stackRc == g[r].stackRc
    decreases height
  {
    assert TreeAt(f, depth, r) && TreeAt(g, depth, r);
    if !f[r].IsFrameLocal() {
      forall c | c in f && f[c].owner == Parent(r) ensures f[c].stackRc == g[c].stackRc {
        assert TreeAt(f, depth, c);
        CountDetermined(f, g, direct, depth, c, height - (depth[c] - depth[r]));
      }
      assert forall c :: c in ActiveChildren(f, r) <==> c in ActiveChildren(g, r);
      assert ActiveChildren(f, r) == ActiveChildren(g, r);
      assert BalancedAt(f, direct, r) && BalancedAt(g, direct, r);
    }
  }

  /** When a region's count is zero, nothing on the stack side reaches it or anything below it. */
  lemma {:induction false} QuietSubtree(f: Forest, direct: Counts, depth: map<RegionId, nat>, r: RegionId, a: RegionId)
    requires Tree(f, depth) && Balanced(f, direct) && NonNegative(direct)
    requires r in f && !f[r].IsFrameLocal() && Within(f, depth, r, a) && a in f && f[a].stackRc == 0
    ensures f[r].stackRc == 0 && direct[r] == 0
    decreases depth[r]
  {
    assert BalancedAt(f, direct, r) && TreeAt(f, depth, r);
    if r != a {
      var p := f[r].owner.region;
      QuietSubtree(f, direct, depth, p, a);
      assert BalancedAt(f, direct, p);
      assert r in ActiveChildren(f, p) <==> f[r].stackRc > 0;
      assert ActiveChildren(f, p) == {};
    }
  }

  /** A counted region has a counted root. */
  lemma ActiveRoot(f: Forest, direct: Counts, depth: map<RegionId, nat>, r: RegionId)
    requires Tree(f, depth) && Balanced(f, direct) && NonNegative(direct)
    requires r in f && !f[r].IsFrameLocal() && f[r].stackRc > 0
    ensures f[Root(f, depth, r)].stackRc > 0
  {
    RootWithin(f, depth, r);
    if f[Root(f, depth, r)].stackRc == 0 {
      QuietSubtree(f, direct, depth, r, Root(f, depth, r));
    }
  }

  /** No reference from the stack side reaches a region that is being finalized, or below one. */
  lemma DeadIsQuiet(f: Forest, direct: Counts, depth: map<RegionId, nat>, r: RegionId)
    requires Tree(f, depth) && Balanced(f, direct) && NonNegative(direct)
    requires r in f && !f[r].IsFrameLocal() && !Live(f, depth, r)
    ensures f[r].stackRc == 0 && direct[r] == 0
  {
    RootWithin(f, depth, r);
    assert TreeAt(f, depth, Root(f, depth, r));
    QuietSubtree(f, direct, depth, r, Root(f, depth, r));
  }

  lemma {:induction false} RootWithin(f: Forest, depth: map<RegionId, nat>, r: RegionId)
    requires Tree(f, depth) && r in f
    ensures Within(f, depth, r, Root(f, depth, r))
    decreases depth[r]
  {
    assert TreeAt(f, depth, r);
    if f[r].HasParent() {
      RootWithin(f, depth, f[r].owner.region);
    }
  }

  /** A counted region is not being finalized, nor is anything above it. */
  lemma ActiveIsLive(f: Forest, direct: Counts, depth: map<RegionId, nat>, r: RegionId)
    requires Tree(f, depth) && Balanced(f, direct) && NonNegative(direct)
    requires r in f && !f[r].IsFrameLocal() && f[r].stackRc > 0
    ensures Live(f, depth, r)
  {
    ActiveRoot(f, direct, depth, r);
    assert TreeAt(f, depth, Root(f, depth, r));
  }

  // ---------------------------------------------------------------- single changes

  /** Whether a count of `n` is passed on to the parent. */
  function Edge(n: nat): int { if n > 0 then 1 else 0 }

  function Add(direct: Counts, r: RegionId, n: int): Counts {
    if r in direct then direct[r := direct[r] + n] else direct
  }

  lemma AddBack(direct: Counts, r: RegionId, n: int)
    ensures Add(Add(direct, r, n), r, -n) == direct
    ensures Add(direct, r, 0) == direct
  {
  }

  lemma ActiveAfterRecount(f: Forest, r: RegionId, k: nat, x: RegionId)
    requires r in f && x in f
    ensures var g := f[r := f[r].(stackRc := k)];
      |ActiveChildren(g, x)| ==
        |ActiveChildren(f, x)| + if f[r].owner == Parent(x) then Edge(k) - Edge(f[r].stackRc) else 0
  {
    var g := f[r := f[r].(stackRc := k)];
    SizeWithout(ActiveChildren(f, x), r);
    SizeWithout(ActiveChildren(g, x), r);
    assert ActiveChildren(f, x) - {r} == ActiveChildren(g, x) - {r};
    assert r in ActiveChildren(f, x) <==> f[r].owner == Parent(x) && f[r].stackRc > 0;
    assert r in ActiveChildren(g, x) <==> f[r].owner == Parent(x) && k > 0;
  }

  /** Changing one count moves the equation at that region and, on an edge, at its parent. */
  lemma Recount(f: Forest, direct: Counts, r: RegionId, k: nat)
    requires Balanced(f, direct) && r in f && !f[r].IsFrameLocal()
    ensures var g := f[r := f[r].(stackRc := k)];
      var moved := Add(direct, r, k - f[r].stackRc);
      Balanced(g, if f[r].HasParent() then Add(moved, f[r].owner.region, Edge(f[r].stackRc) - Edge(k)) else moved)
  {
    var g := f[r := f[r].(stackRc := k)];
    var moved := Add(direct, r, k - f[r].stackRc);
    var after := if f[r].HasParent() then Add(moved, f[r].owner.region, Edge(f[r].stackRc) - Edge(k)) else moved;
    forall x | x in f && !f[x].IsFrameLocal() ensures BalancedAt(g, after, x) {
      assert BalancedAt(f, direct, x);
      ActiveAfterRecount(f, r, k, x);
    }
  }

  lemma ActiveAfterReown(f: Forest, r: RegionId, owner: Owner, entry: Option<HeaderId>, x: RegionId)
    requires r in f && x in f
    ensures var g := f[r := f[r].(owner := owner, entry := entry)];
      |ActiveChildren(g, x)| ==
        |ActiveChildren(f, x)|
        + (if owner == Parent(x) then Edge(f[r].stackRc) else 0)
        - (if f[r].owner == Parent(x) then Edge(f[r].stackRc) else 0)
  {
    var g := f[r := f[r].(owner := owner, entry := entry)];
    SizeWithout(ActiveChildren(f, x), r);
    SizeWithout(ActiveChildren(g, x), r);
    assert ActiveChildren(f, x) - {r} == ActiveChildren(g, x) - {r};
    assert r in ActiveChildren(f, x) <==> f[r].owner == Parent(x) && f[r].stackRc > 0;
    assert r in ActiveChildren(g, x) <==> owner == Parent(x) && f[r].stackRc > 0;
  }

  /** Changing an owner moves the equation at the old and the new parent. */
  lemma Reown(f: Forest, direct: Counts, r: RegionId, owner: Owner, entry: Option<HeaderId>)
    requires Balanced(f, direct) && r in f
    requires owner.Parent? ==> owner.region in f
    ensures var g := f[r := f[r].(owner := owner, entry := entry)];
      var left := if f[r].HasParent() then Add(direct, f[r].owner.region, Edge(f[r].stackRc)) else direct;
      Balanced(g, if owner.Parent? then Add(left, owner.region, -Edge(f[r].stackRc)) else left)
  {
    var g := f[r := f[r].(owner := owner, entry := entry)];
    var left := if f[r].HasParent() then Add(direct, f[r].owner.region, Edge(f[r].stackRc)) else direct;
    var after := if owner.Parent? then Add(left, owner.region, -Edge(f[r].stackRc)) else left;
    forall x | x in f && !f[x].IsFrameLocal() ensures BalancedAt(g, after, x) {
      assert BalancedAt(f, direct, x);
      ActiveAfterReown(f, r, owner, entry, x);
    }
  }

  /** A change that keeps the owners keeps the tree, as long as marked regions stay uncounted. */
  lemma TreeKept(f: Forest, g: Forest, depth: map<RegionId, nat>)
    requires Tree(f, depth) && f.Keys == g.Keys
    requires forall x | x in f :: g[x].owner == f[x].owner && g[x].frameDepth == f[x].frameDepth
    requires forall x | x in f && (g[x].IsFrameLocal() || g[x].finalizing) :: g[x].owner.Unowned? && g[x].stackRc == 0
    ensures Tree(g, depth)
  {
    forall x | x in g ensures TreeAt(g, depth, x) {
      assert TreeAt(f, depth, x);
    }
  }

  lemma MarkedUncounted(f: Forest, depth: map<RegionId, nat>)
    requires Tree(f, depth)
    ensures forall x | x in f && (f[x].IsFrameLocal() || f[x].finalizing) :: f[x].owner.Unowned? && f[x].stackRc == 0
  {
    forall x | x in f ensures f[x].IsFrameLocal() || f[x].finalizing ==> f[x].owner.Unowned? && f[x].stackRc == 0 {
      assert TreeAt(f, depth, x);
    }
  }

  /**
   The last step of reporting `n` references to `r`: on an edge the parent has been told already, in
   the name of `told`.
   */
  lemma CountUp(f: Forest, told: Counts, direct: Counts, depth: map<RegionId, nat>, r: RegionId, n: nat)
    requires Tree(f, depth) && r in f && !f[r].IsFrameLocal() && !f[r].finalizing
    requires n > 0 || f[r].stackRc > 0 || !f[r].HasParent()
    requires direct.Keys == f.Keys && Balanced(f, told)
    requires told == if f[r].stackRc == 0 && f[r].HasParent() then Add(direct, f[r].owner.region, 1) else direct
    ensures var g := f[r := f[r].(stackRc := f[r].stackRc + n)];
      Tree(g, depth) && Balanced(g, Add(direct, r, n)) && SameButCounts(f, g)
  {
    Recount(f, told, r, f[r].stackRc + n);
    var moved := Add(told, r, n);
    var after :=
      if f[r].HasParent() then Add(moved, f[r].owner.region, Edge(f[r].stackRc) - Edge(f[r].stackRc + n)) else moved;
    assert after == Add(direct, r, n);
    MarkedUncounted(f, depth);
    TreeKept(f, f[r := f[r].(stackRc := f[r].stackRc + n)], depth);
  }

  /** The first step of retracting `n` references: on an edge the parent is still to be told. */
  lemma CountDown(f: Forest, direct: Counts, depth: map<RegionId, nat>, r: RegionId, n: nat)
    requires Tree(f, depth) && r in f && !f[r].IsFrameLocal()
    requires Balanced(f, direct) && NonNegative(direct) && 0 < f[r].stackRc && n <= direct[r]
    ensures n <= f[r].stackRc
    ensures var g := f[r := f[r].(stackRc := f[r].stackRc - n)];
      var moved := Add(direct, r, -(n as int));
      && Tree(g, depth) && SameButCounts(f, g) && NonNegative(moved)
      && if g[r].stackRc == 0 && g[r].HasParent() then Balanced(g, Add(moved, g[r].owner.region, 1))
         else Balanced(g, moved)
  {
    assert BalancedAt(f, direct, r);
    Recount(f, direct, r, f[r].stackRc - n);
    var moved := Add(direct, r, -(n as int));
    MarkedUncounted(f, depth);
    TreeKept(f, f[r := f[r].(stackRc := f[r].stackRc - n)], depth);
    if f[r].HasParent() {
      assert Add(moved, f[r].owner.region, 0) == moved;
    }
  }

  /** The root of `r` has neither an owner nor a count left. */
  ghost predicate Released(f: Forest, depth: map<RegionId, nat>, r: RegionId)
    requires Tree(f, depth) && r in f
  {
    var root := Root(f, depth, r);
    f[root].owner.Unowned? && f[root].stackRc == 0
  }

  /** What retracting references from `r` may do to the regions besides their counts: free the root of `r`. */
  ghost predicate Retracted(f: Forest, g: Forest, depth: map<RegionId, nat>, r: RegionId, alive: bool)
    requires Tree(f, depth) && Tree(g, depth) && r in f
  {
    && SameOwnership(f, g)
    && alive == !Released(g, depth, r)
    && forall x | x in f :: g[x].finalizing == (f[x].finalizing || (!alive && x == Root(f, depth, r)))
  }

  lemma RetractedHere(f: Forest, g: Forest, direct: Counts, depth: map<RegionId, nat>, r: RegionId)
    requires Tree(f, depth) && Tree(g, depth) && r in f && SameButCounts(f, g)
    requires Balanced(g, direct) && NonNegative(direct) && !g[r].IsFrameLocal()
    requires g[r].stackRc > 0 || g[r].owner == CownOwned
    ensures Retracted(f, g, depth, r, true)
  {
    OwnershipDecides(f, g, depth, r, r);
    if g[r].stackRc > 0 {
      ActiveRoot(g, direct, depth, r);
    }
  }

  lemma RetractedFree(f: Forest, g: Forest, depth: map<RegionId, nat>, r: RegionId)
    requires Tree(f, depth) && Tree(g, depth) && r in f && SameButCounts(f, g)
    requires g[r].owner.Unowned? && g[r].stackRc == 0
    requires Tree(g[r := g[r].(finalizing := true)], depth)
    ensures Retracted(f, g[r := g[r].(finalizing := true)], depth, r, false)
  {
  }

  lemma RetractedAbove(f: Forest, m: Forest, g: Forest, depth: map<RegionId, nat>, r: RegionId, alive: bool)
    requires Tree(f, depth) && Tree(m, depth) && Tree(g, depth) && r in f && SameButCounts(f, m)
    requires m[r].HasParent() && m[r].owner.region in m && Retracted(m, g, depth, m[r].owner.region, alive)
    ensures Retracted(f, g, depth, r, alive)
  {
    assert TreeAt(f, depth, r) && TreeAt(m, depth, r) && TreeAt(g, depth, r);
    OwnershipDecides(f, m, depth, m[r].owner.region, r);
  }

  lemma Finalize(f: Forest, direct: Counts, depth: map<RegionId, nat>, r: RegionId)
    requires Balanced(f, direct) && Tree(f, depth) && r in f && f[r].owner.Unowned? && f[r].stackRc == 0
    ensures var g := f[r := f[r].(finalizing := true)];
      Balanced(g, direct) && Tree(g, depth)
  {
    var g := f[r := f[r].(finalizing := true)];
    MarkedUncounted(f, depth);
    TreeKept(f, g, depth);
    forall x | x in f && !f[x].IsFrameLocal() ensures BalancedAt(g, direct, x) {
      assert BalancedAt(f, direct, x);
      assert ActiveChildren(f, x) == ActiveChildren(g, x);
    }
  }

  // ---------------------------------------------------------------- depths after a new parent

  /** New depths when `c` is hung below `p`: the subtree of `c` sinks. */
  ghost function Sink(f: Forest, depth: map<RegionId, nat>, c: RegionId, p: RegionId): map<RegionId, nat>
    requires Tree(f, depth) && c in f && p in f
  {
    map r | r in f :: if Within(f, depth, r, c) then depth[r] + depth[p] + 1 else depth[r]
  }

  lemma SinkRanks(f: Forest, depth: map<RegionId, nat>, c: RegionId, p: RegionId, entry: HeaderId)
    requires Tree(f, depth) && c in f && p in f && f[c].owner.Unowned? && !Within(f, depth, p, c)
    requires !f[p].IsFrameLocal() && !f[c].IsFrameLocal() && !f[c].finalizing
    ensures Tree(f[c := f[c].(owner := Parent(p), entry := Some(entry))], Sink(f, depth, c, p))
  {
    var g := f[c := f[c].(owner := Parent(p), entry := Some(entry))];
    var sunk := Sink(f, depth, c, p);
    forall x | x in g ensures TreeAt(g, sunk, x) {
      assert TreeAt(f, depth, x);
      if f[x].HasParent() {
        assert TreeAt(f, depth, f[x].owner.region);
      }
    }
  }

  function Adopted(f: Forest, c: RegionId, p: RegionId, entry: HeaderId): Forest
    requires c in f
  {
    f[c := f[c].(owner := Parent(p), entry := Some(entry))]
  }

  function Orphaned(f: Forest, c: RegionId): Forest
    requires c in f
  {
    f[c := f[c].(owner := Unowned, entry := None)]
  }

  /** Hanging a live tree below a live region leaves everything live that was. */
  lemma {:induction false} AdoptedRoot(
    f: Forest, depth: map<RegionId, nat>, sunk: map<RegionId, nat>, c: RegionId, p: RegionId, entry: HeaderId, x: RegionId)
    requires Tree(f, depth) && c in f && p in f && x in f && f[c].owner.Unowned? && !Within(f, depth, p, c)
    requires Tree(Adopted(f, c, p, entry), sunk)
    ensures Root(Adopted(f, c, p, entry), sunk, x) ==
      if Within(f, depth, x, c) then Root(f, depth, p) else Root(f, depth, x)
    decreases if Within(f, depth, x, c) then 1 else 0, depth[x]
  {
    var g := Adopted(f, c, p, entry);
    assert TreeAt(f, depth, x) && TreeAt(g, sunk, x);
    if x == c {
      AdoptedRoot(f, depth, sunk, c, p, entry, p);
    } else if f[x].HasParent() {
      AdoptedRoot(f, depth, sunk, c, p, entry, f[x].owner.region);
    }
  }

  /** Every region that was live still is. */
  ghost predicate KeepsLive(f: Forest, depth: map<RegionId, nat>, g: Forest, depth': map<RegionId, nat>)
    requires Tree(f, depth) && Tree(g, depth')
  {
    f.Keys <= g.Keys && forall x | x in f :: Live(f, depth, x) ==> Live(g, depth', x)
  }

  lemma AdoptedLive(
    f: Forest, depth: map<RegionId, nat>, sunk: map<RegionId, nat>, c: RegionId, p: RegionId, entry: HeaderId)
    requires Tree(f, depth) && c in f && p in f && f[c].owner.Unowned? && !Within(f, depth, p, c)
    requires Tree(Adopted(f, c, p, entry), sunk) && Live(f, depth, p)
    ensures KeepsLive(f, depth, Adopted(f, c, p, entry), sunk)
  {
    forall x | x in f && Live(f, depth, x) ensures Live(Adopted(f, c, p, entry), sunk, x) {
      AdoptedRoot(f, depth, sunk, c, p, entry, x);
    }
  }

  /** All that a new parent link needs, before the parent has been told of the child's count. */
  lemma Adopt(f: Forest, direct: Counts, depth: map<RegionId, nat>, c: RegionId, p: RegionId, entry: HeaderId)
    requires Tree(f, depth) && Balanced(f, direct) && c in f && p in f && f[c].owner.Unowned?
    requires !f[p].IsFrameLocal() && !f[c].IsFrameLocal()
    requires Live(f, depth, c) && Live(f, depth, p) && !Within(f, depth, p, c)
    ensures var g, sunk := Adopted(f, c, p, entry), Sink(f, depth, c, p);
      && Tree(g, sunk) && KeepsLive(f, depth, g, sunk)
      && Balanced(g, Add(direct, p, -Edge(f[c].stackRc)))
  {
    SinkRanks(f, depth, c, p, entry);
    AdoptedLive(f, depth, Sink(f, depth, c, p), c, p, entry);
    Reown(f, direct, c, Parent(p), Some(entry));
  }

  lemma KeepsLiveCounts(f: Forest, depth: map<RegionId, nat>, g: Forest, h: Forest, depth': map<RegionId, nat>)
    requires Tree(f, depth) && Tree(g, depth') && Tree(h, depth')
    requires KeepsLive(f, depth, g, depth') && SameButCounts(g, h)
    ensures KeepsLive(f, depth, h, depth')
  {
    LiveKept(g, h, depth');
  }

  /** The counts alone do not decide liveness. */
  lemma LiveKept(f: Forest, g: Forest, depth: map<RegionId, nat>)
    requires Tree(f, depth) && Tree(g, depth) && SameButCounts(f, g)
    ensures forall x | x in f :: Live(f, depth, x) == Live(g, depth, x)
  {
    forall x | x in f ensures Live(f, depth, x) == Live(g, depth, x) {
      OwnershipDecides(f, g, depth, x, x);
    }
  }

  lemma OrphanedTree(f: Forest, depth: map<RegionId, nat>, c: RegionId)
    requires Tree(f, depth) && c in f
    ensures Tree(Orphaned(f, c), depth)
  {
    forall x | x in f ensures TreeAt(Orphaned(f, c), depth, x) {
      assert TreeAt(f, depth, x);
    }
  }

  /** Adoption does not change the ancestors of what lies outside the adopted tree. */
  lemma {:induction false} AdoptedWithin(
    f: Forest, depth: map<RegionId, nat>, sunk: map<RegionId, nat>, c: RegionId, p: RegionId, entry: HeaderId,
    x: RegionId, a: RegionId)
    requires Tree(f, depth) && c in f && p in f && x in f && !Within(f, depth, x, c)
    requires Tree(Adopted(f, c, p, entry), sunk)
    ensures Within(Adopted(f, c, p, entry), sunk, x, a) == Within(f, depth, x, a)
    decreases depth[x]
  {
    var g := Adopted(f, c, p, entry);
    assert TreeAt(f, depth, x) && TreeAt(g, sunk, x);
    if f[x].HasParent() {
      AdoptedWithin(f, depth, sunk, c, p, entry, f[x].owner.region, a);
    }
  }

  /** Regrouping headers leaves counts and ownership alone. */
  lemma Regrouped(f: Forest, g: Forest, direct: Counts, depth: map<RegionId, nat>)
    requires Tree(f, depth) && Balanced(f, direct) && f.Keys == g.Keys
    requires forall r | r in f :: g[r] == f[r].(members := g[r].members)
    ensures Tree(g, depth) && Balanced(g, direct)
    ensures forall r | r in f :: Root(g, depth, r) == Root(f, depth, r)
  {
    MarkedUncounted(f, depth);
    TreeKept(f, g, depth);
    forall r | r in f && !f[r].IsFrameLocal() ensures BalancedAt(g, direct, r) {
      assert BalancedAt(f, direct, r);
      assert forall c :: c in ActiveChildren(f, r) <==> c in ActiveChildren(g, r);
      assert ActiveChildren(f, r) == ActiveChildren(g, r);
    }
    forall r | r in f ensures Root(g, depth, r) == Root(f, depth, r) {
      RegroupedRoot(f, g, depth, r);
    }
  }

  lemma {:induction false} RegroupedRoot(f: Forest, g: Forest, depth: map<RegionId, nat>, r: RegionId)
    requires Tree(f, depth) && Tree(g, depth) && f.Keys == g.Keys && r in f
    requires forall x | x in f :: g[x].owner == f[x].owner
    ensures Root(g, depth, r) == Root(f, depth, r)
    decreases depth[r]
  {
    assert TreeAt(f, depth, r) && TreeAt(g, depth, r);
    if f[r].HasParent() {
      RegroupedRoot(f, g, depth, f[r].owner.region);
    }
  }
}
