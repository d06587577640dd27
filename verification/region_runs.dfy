/**
 Safety over whole runs of the region operations (vbci/region.h:64-235): whatever sequence a client
 performs, the counts tell exactly which regions are still reached, a freed tree is never reached
 again, and a region that nothing owns or reaches has been freed.
 */
module RegionRuns {
  import opened Collections
  import opened Regions
  import opened Graphs
  import opened Heaps

  // ---------------------------------------------------------------- what a count means

  /** No reference from the stack side reaches `x` or anything below it. */
  ghost predicate Idle(f: Forest, depth: map<RegionId, nat>, direct: Counts, x: RegionId)
    requires Tree(f, depth) && direct.Keys == f.Keys
  {
    forall y | y in f && Within(f, depth, y, x) :: direct[y] == 0
  }

  /** The children alone decide, given that the count is right. */
  lemma {:induction false} IdleIsZero(f: Forest, depth: map<RegionId, nat>, direct: Counts, x: RegionId, height: nat)
    requires Tree(f, depth) && Balanced(f, direct) && x in f && !f[x].IsFrameLocal()
    requires Idle(f, depth, direct, x) && forall y | y in f :: depth[y] <= depth[x] + height
    ensures f[x].stackRc == 0
    decreases height
  {
    assert BalancedAt(f, direct, x);
    forall c | c in f && f[c].owner == Parent(x) ensures f[c].stackRc == 0 {
      assert TreeAt(f, depth, c);
      forall y | y in f && Within(f, depth, y, c) ensures Within(f, depth, y, x) {
        WithinTransitive(f, depth, y, c, x);
      }
      IdleIsZero(f, depth, direct, c, height - (depth[c] - depth[x]));
    }
    assert ActiveChildren(f, x) == {};
    assert Within(f, depth, x, x);
  }

  lemma {:induction false} WithinTransitive(f: Forest, depth: map<RegionId, nat>, x: RegionId, y: RegionId, z: RegionId)
    requires Tree(f, depth) && x in f && y in f && Within(f, depth, x, y) && Within(f, depth, y, z)
    ensures Within(f, depth, x, z)
    decreases depth[x]
  {
    assert TreeAt(f, depth, x);
    if x != y {
      WithinTransitive(f, depth, f[x].owner.region, y, z);
    }
  }

  /** The edge-triggered count of a region is positive exactly when something below it is referenced. */
  lemma CountMeansReached(f: Forest, depth: map<RegionId, nat>, direct: Counts, x: RegionId)
    requires Tree(f, depth) && Balanced(f, direct) && NonNegative(direct) && x in f && !f[x].IsFrameLocal()
    ensures f[x].stackRc == 0 <==> Idle(f, depth, direct, x)
  {
    if f[x].stackRc == 0 {
      forall y | y in f && Within(f, depth, y, x) ensures direct[y] == 0 {
        assert !f[y].IsFrameLocal() by {
          OnlyHeapBelow(f, depth, y, x);
        }
        QuietSubtree(f, direct, depth, y, x);
      }
    }
    if Idle(f, depth, direct, x) {
      var top := MaxDepth(depth, f.Keys);
      IdleIsZero(f, depth, direct, x, top);
    }
  }

  lemma OnlyHeapBelow(f: Forest, depth: map<RegionId, nat>, y: RegionId, x: RegionId)
    requires Tree(f, depth) && y in f && x in f && Within(f, depth, y, x) && !f[x].IsFrameLocal()
    ensures !f[y].IsFrameLocal()
  {
    assert TreeAt(f, depth, y);
  }

  // ---------------------------------------------------------------- operations

  datatype Op =
    | Create(r: RegionId)
    | Report(r: RegionId)
    | Retract(r: RegionId)
    | Adopt(r: RegionId, parent: RegionId, entry: HeaderId)
    | Release(r: RegionId)
    | GiveCown(r: RegionId, entry: HeaderId)
    | TakeCown(r: RegionId)

  /** The assertions of the operation, and that a client retracts only what it holds and uses only what lives. */
  ghost predicate Allowed(f: Forest, depth: map<RegionId, nat>, direct: Counts, op: Op)
    requires Tree(f, depth) && direct.Keys == f.Keys
  {
    match op
    case Create(r) => r !in f
    case Report(r) => r in f && Live(f, depth, r)
    case Retract(r) => r in f && direct[r] >= 1
    case Adopt(c, p, _) =>
      c in f && p in f && f[c].owner.Unowned? && Live(f, depth, c) && Live(f, depth, p) && !Within(f, depth, p, c)
    case Release(c) => c in f && f[c].HasParent()
    case GiveCown(c, _) => c in f && f[c].owner.Unowned? && !f[c].finalizing
    case TakeCown(c) => c in f && f[c].owner.CownOwned?
  }

  function HeldAfter(held: Counts, op: Op): Counts {
    match op
    case Create(r) => held[r := 0]
    case Report(r) => Add(held, r, 1)
    case Retract(r) => Add(held, r, -1)
    case _ => held
  }

  /** The references held after a run, region by region. */
  ghost function Held(ops: seq<Op>): Counts {
    if ops == [] then map[] else HeldAfter(Held(ops[..|ops| - 1]), ops[|ops| - 1])
  }

  ghost function OwnersAfter(owners: map<RegionId, Owner>, op: Op): map<RegionId, Owner> {
    match op
    case Create(r) => owners[r := Unowned]
    case Adopt(c, p, _) => owners[c := Parent(p)]
    case Release(c) => owners[c := Unowned]
    case GiveCown(c, _) => owners[c := CownOwned]
    case TakeCown(c) => owners[c := Unowned]
    case _ => owners
  }

  ghost function Owners(ops: seq<Op>): map<RegionId, Owner> {
    if ops == [] then map[] else OwnersAfter(Owners(ops[..|ops| - 1]), ops[|ops| - 1])
  }

  ghost function EntriesAfter(entries: map<RegionId, Option<HeaderId>>, op: Op): map<RegionId, Option<HeaderId>> {
    match op
    case Create(r) => entries[r := None]
    case Adopt(c, _, entry) => entries[c := Some(entry)]
    case Release(c) => entries[c := None]
    case GiveCown(c, entry) => entries[c := Some(entry)]
    case TakeCown(c) => entries[c := None]
    case _ => entries
  }

  ghost function Entries(ops: seq<Op>): map<RegionId, Option<HeaderId>> {
    if ops == [] then map[] else EntriesAfter(Entries(ops[..|ops| - 1]), ops[|ops| - 1])
  }

  // ---------------------------------------------------------------- what a run permits and frees

  ghost predicate UpFrom(os: map<RegionId, Owner>, y: RegionId, x: RegionId, n: nat)
    decreases n
  {
    y == x || (n > 0 && y in os && os[y].Parent? && UpFrom(os, os[y].region, x, n - 1))
  }

  /** `y` is `x` or below it. */
  ghost predicate Below(os: map<RegionId, Owner>, y: RegionId, x: RegionId) {
    exists n: nat :: UpFrom(os, y, x, n)
  }

  /** Nothing owns `r`, and nothing at or below it is referenced. */
  ghost predicate Loose(ops: seq<Op>, r: RegionId)
    requires r in Owners(ops)
  {
    && Owners(ops)[r].Unowned?
    && forall y | y in Owners(ops) && y in Held(ops) && Below(Owners(ops), y, r) :: Held(ops)[y] == 0
  }

  /** Regions that something has owned or reached at some time. */
  ghost function Used(ops: seq<Op>): set<RegionId> {
    if ops == [] then {} else Used(ops[..|ops| - 1]) + set r | r in Owners(ops) && !Loose(ops, r)
  }

  /** A region is freed once nothing owns or reaches it any more. */
  ghost predicate Freed(ops: seq<Op>, r: RegionId) {
    r in Owners(ops) && Loose(ops, r) && r in Used(ops)
  }

  /** A region of the run that is not below a freed one. */
  ghost predicate Usable(ops: seq<Op>, r: RegionId) {
    r in Owners(ops) && forall x | Freed(ops, x) :: !Below(Owners(ops), r, x)
  }

  /** The assertions of the operation, and that a client retracts only what it holds and uses only what lives. */
  ghost predicate Permitted(ops: seq<Op>, op: Op) {
    var os := Owners(ops);
    match op
    case Create(r) => r !in os
    case Report(r) => Usable(ops, r)
    case Retract(r) => r in os && r in Held(ops) && Held(ops)[r] >= 1
    case Adopt(c, p, _) => Usable(ops, c) && Usable(ops, p) && os[c].Unowned? && !Below(os, p, c)
    case Release(c) => c in os && os[c].Parent?
    case GiveCown(c, _) => c in os && os[c].Unowned? && !Freed(ops, c)
    case TakeCown(c) => c in os && os[c].CownOwned?
  }

  ghost predicate Legal(ops: seq<Op>) {
    forall k | 0 <= k < |ops| :: Permitted(ops[..k], ops[k])
  }

  // ---------------------------------------------------------------- the state

  /** The state that a run leads to, but for what has been freed. */
  ghost predicate Reached(f: Forest, depth: map<RegionId, nat>, direct: Counts, ops: seq<Op>) {
    && Tree(f, depth) && Balanced(f, direct) && NonNegative(direct)
    && direct == Held(ops)
    && f.Keys == Owners(ops).Keys && (forall r | r in f :: f[r].owner == Owners(ops)[r])
    && f.Keys == Entries(ops).Keys && (forall r | r in f :: f[r].entry == Entries(ops)[r])
    && (forall r | r in f :: !f[r].IsFrameLocal() && f[r].members == {})
  }

  predicate Bare(r: Region) { r.owner.Unowned? && r.stackRc == 0 }

  /** Of the regions that have been used, those are freed that nothing owns or reaches. */
  ghost predicate FreesUsed(f: Forest, used: set<RegionId>) {
    forall r | r in f :: f[r].finalizing <==> Bare(f[r]) && r in used
  }

  ghost predicate Settled(f: Forest, used: set<RegionId>) {
    FreesUsed(f, used) && used <= f.Keys && forall r | r in f && !Bare(f[r]) :: r in used
  }

  /** What is freed stays freed. */
  ghost predicate StaysFreed(f: Forest, g: Forest) {
    forall r | r in f && f[r].finalizing :: r in g && g[r].finalizing
  }

  /** The state that a run leads to. */
  ghost predicate Current(f: Forest, depth: map<RegionId, nat>, direct: Counts, ops: seq<Op>) {
    Reached(f, depth, direct, ops) && Settled(f, Used(ops))
  }

  /** The state after one more operation. */
  ghost predicate Stepped(f: Forest, depth: map<RegionId, nat>, direct: Counts, ops: seq<Op>, op: Op) {
    Reached(f, depth, direct, ops + [op]) && FreesUsed(f, Used(ops)) && Used(ops) <= f.Keys
  }

  const EMPTY: Region := Region(Unowned, None, 0, 0, false, {})

  lemma {:induction false} UpIsWithin(
    f: Forest, depth: map<RegionId, nat>, os: map<RegionId, Owner>, y: RegionId, x: RegionId, n: nat)
    requires Tree(f, depth) && f.Keys == os.Keys && (forall r | r in f :: f[r].owner == os[r]) && y in f
    requires UpFrom(os, y, x, n)
    ensures Within(f, depth, y, x)
    decreases n
  {
    assert TreeAt(f, depth, y);
    if y != x {
      UpIsWithin(f, depth, os, os[y].region, x, n - 1);
    }
  }

  lemma {:induction false} WithinIsUp(f: Forest, depth: map<RegionId, nat>, os: map<RegionId, Owner>, y: RegionId, x: RegionId)
    requires Tree(f, depth) && f.Keys == os.Keys && (forall r | r in f :: f[r].owner == os[r]) && y in f
    requires Within(f, depth, y, x)
    ensures UpFrom(os, y, x, depth[y])
    decreases depth[y]
  {
    assert TreeAt(f, depth, y);
    if y != x {
      WithinIsUp(f, depth, os, os[y].region, x);
      UpFurther(os, os[y].region, x, depth[os[y].region], depth[y] - 1);
    }
  }

  lemma {:induction false} UpFurther(os: map<RegionId, Owner>, y: RegionId, x: RegionId, n: nat, m: nat)
    requires UpFrom(os, y, x, n) && n <= m
    ensures UpFrom(os, y, x, m)
    decreases n
  {
    if y != x {
      UpFurther(os, os[y].region, x, n - 1, m - 1);
    }
  }

  lemma BelowIsWithin(f: Forest, depth: map<RegionId, nat>, os: map<RegionId, Owner>, y: RegionId, x: RegionId)
    requires Tree(f, depth) && f.Keys == os.Keys && (forall r | r in f :: f[r].owner == os[r]) && y in f
    ensures Below(os, y, x) <==> Within(f, depth, y, x)
  {
    if Below(os, y, x) {
      var n: nat :| UpFrom(os, y, x, n);
      UpIsWithin(f, depth, os, y, x, n);
    }
    if Within(f, depth, y, x) {
      WithinIsUp(f, depth, os, y, x);
    }
  }

  /** The count and the owner tell what is loose. */
  lemma LooseIsBare(f: Forest, depth: map<RegionId, nat>, direct: Counts, ops: seq<Op>, r: RegionId)
    requires Reached(f, depth, direct, ops) && r in f
    ensures Loose(ops, r) <==> Bare(f[r])
  {
    hide UpFrom, Below, TreeAt, BalancedAt;
    CountMeansReached(f, depth, direct, r);
    forall y | y in f ensures Below(Owners(ops), y, r) <==> Within(f, depth, y, r) {
      BelowIsWithin(f, depth, Owners(ops), y, r);
    }
  }

  lemma FreedIsMarked(f: Forest, depth: map<RegionId, nat>, direct: Counts, ops: seq<Op>)
    requires Current(f, depth, direct, ops)
    ensures forall r :: Freed(ops, r) <==> r in f && f[r].finalizing
  {
    forall r | r in f ensures Freed(ops, r) <==> f[r].finalizing {
      LooseIsBare(f, depth, direct, ops, r);
    }
  }

  lemma UsableIsLive(f: Forest, depth: map<RegionId, nat>, direct: Counts, ops: seq<Op>, r: RegionId)
    requires Current(f, depth, direct, ops) && r in f
    ensures Usable(ops, r) <==> Live(f, depth, r)
  {
    hide UpFrom, Below, Loose, BalancedAt, Settled;
    FreedIsMarked(f, depth, direct, ops);
    RootWithin(f, depth, r);
    BelowIsWithin(f, depth, Owners(ops), r, Root(f, depth, r));
    forall x | x in f && f[x].finalizing && Below(Owners(ops), r, x) ensures x == Root(f, depth, r) {
      BelowIsWithin(f, depth, Owners(ops), r, x);
      WithinRoot(f, depth, r, x);
      assert TreeAt(f, depth, x);
    }
  }

  /** The state decides what the run decides. */
  lemma AllowedIsPermitted(f: Forest, depth: map<RegionId, nat>, direct: Counts, ops: seq<Op>, op: Op)
    requires Current(f, depth, direct, ops)
    ensures Allowed(f, depth, direct, op) <==> Permitted(ops, op)
  {
    hide UpFrom, Below, Freed, Live, Within;
    FreedIsMarked(f, depth, direct, ops);
    forall r | r in f ensures Usable(ops, r) <==> Live(f, depth, r) {
      UsableIsLive(f, depth, direct, ops, r);
    }
    if op.Adopt? && op.r in f && op.parent in f {
      BelowIsWithin(f, depth, Owners(ops), op.parent, op.r);
    }
  }

  /** One more operation. */
  lemma Advance(f: Forest, depth: map<RegionId, nat>, direct: Counts, ops: seq<Op>, op: Op)
    requires Stepped(f, depth, direct, ops, op)
    ensures Current(f, depth, direct, ops + [op])
  {
    hide Loose, Reached;
    assert (ops + [op])[..|ops|] == ops;
    assert f.Keys == Owners(ops + [op]).Keys by {
      KeysReached(f, depth, direct, ops + [op]);
    }
    forall r | r in f ensures Loose(ops + [op], r) <==> Bare(f[r]) {
      LooseIsBare(f, depth, direct, ops + [op], r);
    }
  }

  lemma KeysReached(f: Forest, depth: map<RegionId, nat>, direct: Counts, ops: seq<Op>)
    requires Reached(f, depth, direct, ops)
    ensures f.Keys == Owners(ops).Keys
  {
  }

  /** Parents are regions of the run, and so is what has been used. */
  lemma {:induction false} OnlyKnown(ops: seq<Op>)
    requires Legal(ops)
    ensures forall c | c in Owners(ops) && Owners(ops)[c].Parent? :: Owners(ops)[c].region in Owners(ops)
    ensures Used(ops) <= Owners(ops).Keys
  {
    if ops != [] {
      var n := |ops| - 1;
      var before := ops[..n];
      assert forall k | 0 <= k < n :: before[..k] == ops[..k];
      OnlyKnown(before);
      assert Permitted(before, ops[n]);
    }
  }

  lemma {:induction false} NothingBelow(os: map<RegionId, Owner>, y: RegionId, r: RegionId, n: nat)
    requires UpFrom(os, y, r, n) && forall c | c in os :: os[c] != Parent(r)
    ensures y == r
    decreases n
  {
    if y != r {
      NothingBelow(os, os[y].region, r, n - 1);
    }
  }

  /** A new region can be used at once, whatever the run has done before. */
  lemma FreshIsUsable(ops: seq<Op>, r: RegionId, entry: HeaderId)
    requires Legal(ops) && Permitted(ops, Create(r))
    ensures var after := ops + [Create(r)];
      Legal(after) && Permitted(after, Report(r)) && Permitted(after, GiveCown(r, entry)) && !Permitted(after, Retract(r))
  {
    var after := ops + [Create(r)];
    var os := Owners(after);
    LegalStep(ops, Create(r));
    assert after[..|ops|] == ops;
    OnlyKnown(ops);
    forall y | Below(os, y, r) ensures y == r {
      var n: nat :| UpFrom(os, y, r, n);
      NothingBelow(os, y, r, n);
    }
    assert Loose(after, r) && r !in Used(after);
    forall x | Below(os, r, x) ensures x == r {
      var n: nat :| UpFrom(os, r, x, n);
    }
  }

  // ---------------------------------------------------------------- single steps

  lemma Created(f: Forest, depth: map<RegionId, nat>, direct: Counts, r: RegionId)
    requires Tree(f, depth) && Balanced(f, direct) && NonNegative(direct) && r !in f
    ensures Tree(f[r := EMPTY], depth[r := 0]) && Balanced(f[r := EMPTY], direct[r := 0]) && NonNegative(direct[r := 0])
  {
    var g, d := f[r := EMPTY], direct[r := 0];
    forall x | x in g ensures TreeAt(g, depth[r := 0], x) {
      assert x != r ==> TreeAt(f, depth, x);
    }
    forall x | x in g && !g[x].IsFrameLocal() ensures BalancedAt(g, d, x) {
      if x == r {
        forall c | c in f ensures f[c].owner != Parent(r) {
          assert TreeAt(f, depth, c);
        }
        assert ActiveChildren(g, r) == {};
      } else {
        assert BalancedAt(f, direct, x);
        assert ActiveChildren(g, x) == ActiveChildren(f, x);
      }
    }
  }

  /** A root that is quiet now was quiet before, if nothing below it changed. */
  lemma QuietBefore(
    f: Forest, direct: Counts, g: Forest, direct': Counts, depth: map<RegionId, nat>, depth': map<RegionId, nat>, x: RegionId)
    requires Tree(f, depth) && Balanced(f, direct) && NonNegative(direct)
    requires Tree(g, depth') && Balanced(g, direct') && NonNegative(direct')
    requires x in f && x in g && f.Keys <= g.Keys && !f[x].IsFrameLocal() && !g[x].IsFrameLocal() && g[x].stackRc == 0
    requires forall y | y in f && Within(f, depth, y, x) :: Within(g, depth', y, x) && (direct'[y] == 0 ==> direct[y] == 0)
    ensures f[x].stackRc == 0
  {
    CountMeansReached(g, depth', direct', x);
    CountMeansReached(f, depth, direct, x);
  }

  lemma ReportFrees(
    f: Forest, direct: Counts, g: Forest, direct': Counts, depth: map<RegionId, nat>, r: RegionId, used: set<RegionId>)
    requires Tree(f, depth) && Balanced(f, direct) && NonNegative(direct)
    requires Tree(g, depth) && Balanced(g, direct') && NonNegative(direct') && SameButCounts(f, g)
    requires r in f && direct' == Add(direct, r, 1) && (forall x | x in f :: !f[x].IsFrameLocal())
    requires Settled(f, used)
    ensures FreesUsed(g, used) && StaysFreed(f, g)
  {
    forall x | x in g ensures Bare(g[x]) ==> Bare(f[x]) {
      if Bare(g[x]) {
        forall y | y in f && Within(f, depth, y, x) ensures Within(g, depth, y, x) {
          OwnershipDecides(f, g, depth, y, x);
        }
        QuietBefore(f, direct, g, direct', depth, depth, x);
      }
      assert TreeAt(g, depth, x);
    }
    MarkedIsBare(g, depth);
  }

  lemma MarkedIsBare(f: Forest, depth: map<RegionId, nat>)
    requires Tree(f, depth)
    ensures forall x | x in f && f[x].finalizing :: Bare(f[x])
  {
    forall x | x in f && f[x].finalizing ensures Bare(f[x]) {
      assert TreeAt(f, depth, x);
    }
  }

  lemma RetractFrees(
    f: Forest, direct: Counts, g: Forest, direct': Counts, depth: map<RegionId, nat>, r: RegionId, alive: bool,
    used: set<RegionId>)
    requires Tree(f, depth) && Balanced(f, direct) && NonNegative(direct) && r in f && direct[r] >= 1
    requires Tree(g, depth) && Balanced(g, direct') && NonNegative(direct') && Retracted(f, g, depth, r, alive)
    requires direct' == Add(direct, r, -1) && (forall x | x in f :: !f[x].IsFrameLocal())
    requires Settled(f, used)
    ensures FreesUsed(g, used) && StaysFreed(f, g)
  {
    assert BalancedAt(f, direct, r);
    ActiveRoot(f, direct, depth, r);
    MarkedIsBare(g, depth);
    forall x | x in g && Bare(g[x]) && x in used ensures g[x].finalizing {
      OwnershipDecides(f, g, depth, r, x);
      if Within(f, depth, r, x) {
        WithinRoot(f, depth, r, x);
      } else {
        RetractElsewhere(f, direct, g, direct', depth, r, x);
      }
    }
  }

  lemma RetractElsewhere(
    f: Forest, direct: Counts, g: Forest, direct': Counts, depth: map<RegionId, nat>, r: RegionId, x: RegionId)
    requires Tree(f, depth) && Balanced(f, direct) && NonNegative(direct) && r in f && x in f
    requires Tree(g, depth) && Balanced(g, direct') && NonNegative(direct') && SameOwnership(f, g)
    requires direct' == Add(direct, r, -1) && (forall x | x in f :: !f[x].IsFrameLocal())
    requires !Within(f, depth, r, x) && g[x].stackRc == 0
    ensures f[x].stackRc == 0
  {
    forall y | y in f && Within(f, depth, y, x) ensures Within(g, depth, y, x) && direct'[y] == direct[y] {
      OwnershipDecides(f, g, depth, y, x);
    }
    QuietBefore(f, direct, g, direct', depth, depth, x);
  }

  lemma AdoptFrees(
    f: Forest, direct: Counts, g: Forest, depth: map<RegionId, nat>, depth': map<RegionId, nat>,
    c: RegionId, p: RegionId, entry: HeaderId, used: set<RegionId>)
    requires Tree(f, depth) && Balanced(f, direct) && NonNegative(direct)
    requires Tree(g, depth') && Balanced(g, direct) && c in f && p in f && f[c].owner.Unowned? && !Within(f, depth, p, c)
    requires SameButCounts(Adopted(f, c, p, entry), g) && (forall x | x in f :: !f[x].IsFrameLocal())
    requires Settled(f, used)
    ensures FreesUsed(g, used) && StaysFreed(f, g)
  {
    MarkedIsBare(g, depth');
    forall x | x in g && Bare(g[x]) ensures Bare(f[x]) {
      forall y | y in f && Within(f, depth, y, x) ensures Within(g, depth', y, x) {
        WithinRoot(f, depth, y, x);
        if Within(f, depth, y, c) {
          WithinRoot(f, depth, y, c);
        }
        AdoptedUpTo(f, depth, g, depth', c, y, x);
      }
      QuietBefore(f, direct, g, direct, depth, depth', x);
    }
  }

  /** A chain of parents that avoids `c` is still there. */
  lemma {:induction false} AdoptedUpTo(
    f: Forest, depth: map<RegionId, nat>, g: Forest, depth': map<RegionId, nat>, c: RegionId, y: RegionId, x: RegionId)
    requires Tree(f, depth) && Tree(g, depth') && f.Keys == g.Keys && y in f && Within(f, depth, y, x)
    requires forall z | z in f && z != c :: g[z].owner == f[z].owner
    requires !Within(f, depth, y, c) || c == x
    ensures Within(g, depth', y, x)
    decreases depth[y]
  {
    assert TreeAt(f, depth, y) && TreeAt(g, depth', y);
    if y != x {
      AdoptedUpTo(f, depth, g, depth', c, f[y].owner.region, x);
    }
  }

  lemma ReleaseFrees(
    f: Forest, direct: Counts, g: Forest, depth: map<RegionId, nat>, c: RegionId, used: set<RegionId>)
    requires Tree(f, depth) && Balanced(f, direct) && NonNegative(direct) && c in f && f[c].HasParent()
    requires (forall x | x in f :: !f[x].IsFrameLocal()) && Settled(f, used)
    requires Tree(g, depth) && Balanced(g, direct)
    requires var k, p := Orphaned(f, c), f[c].owner.region;
      && Tree(k, depth) && p in k
      && if f[c].stackRc == 0 then g == k[c := k[c].(finalizing := true)]
         else Retracted(k, g, depth, p, !Released(g, depth, p))
    ensures FreesUsed(g, used) && StaysFreed(f, g)
  {
    var k, p := Orphaned(f, c), f[c].owner.region;
    if f[c].stackRc > 0 {
      assert TreeAt(f, depth, c);
      Reown(f, direct, c, Unowned, None);
      AddBack(direct, p, 1);
      RetractFrees(k, Add(direct, p, 1), g, direct, depth, p, !Released(g, depth, p), used);
    }
  }

  // ---------------------------------------------------------------- runs

  /** Whether no region on the way up is being finalized. */
  method Alive(h: Heap, r: RegionId) returns (yes: bool)
    requires h.Counted() && r in h.regions
    ensures yes == Live(h.regions, h.depth, r)
  {
    var x := r;
    while h.regions[x].HasParent()
      invariant x in h.regions && Root(h.regions, h.depth, r) == Root(h.regions, h.depth, x)
      decreases h.depth[x]
    {
      assert TreeAt(h.regions, h.depth, x);
      x := h.regions[x].owner.region;
    }
    yes := !h.regions[x].finalizing;
  }

  /** An operation on counts. */
  lemma OneOn(ops: seq<Op>, op: Op)
    ensures Held(ops + [op]) == HeldAfter(Held(ops), op)
    ensures Owners(ops + [op]) == OwnersAfter(Owners(ops), op) && Entries(ops + [op]) == EntriesAfter(Entries(ops), op)
  {
    assert (ops + [op])[..|ops|] == ops;
  }

  method PerformCount(h: Heap, op: Op, held: Counts, ghost ops: seq<Op>) returns (ok: bool)
    requires op.Report? || op.Retract?
    requires Current(h.regions, h.depth, h.direct, ops) && held == h.direct
    modifies h
    ensures ok <==> Allowed(old(h.regions), old(h.depth), old(h.direct), op)
    ensures ok ==> Stepped(h.regions, h.depth, h.direct, ops, op) && StaysFreed(old(h.regions), h.regions)
    ensures !ok ==> h.regions == old(h.regions) && h.direct == old(h.direct) && h.depth == old(h.depth)
  {
    hide TreeAt, Within, Live, Owners, Entries, Held, Used, Loose;
    ghost var f, direct, depth := h.regions, h.direct, h.depth;
    OneOn(ops, op);
    ok := false;
    match op {
      case Report(r) =>
        if r in h.regions {
          ok := Alive(h, r);
          if ok {
            h.StackInc(r, 1);
            ReportFrees(f, direct, h.regions, h.direct, depth, r, Used(ops));
          }
        }
      case Retract(r) =>
        if r in h.regions && held[r] >= 1 {
          ok := true;
          assert BalancedAt(f, direct, r);
          var alive := h.StackDec(r, 1);
          RetractFrees(f, direct, h.regions, h.direct, depth, r, alive, Used(ops));
        }
    }
  }

  method PerformCreate(h: Heap, op: Op, ghost ops: seq<Op>) returns (ok: bool)
    requires op.Create?
    requires Current(h.regions, h.depth, h.direct, ops)
    modifies h
    ensures ok <==> Allowed(old(h.regions), old(h.depth), old(h.direct), op)
    ensures ok ==> Stepped(h.regions, h.depth, h.direct, ops, op) && StaysFreed(old(h.regions), h.regions)
    ensures !ok ==> h.regions == old(h.regions) && h.direct == old(h.direct) && h.depth == old(h.depth)
  {
    hide TreeAt, BalancedAt, Owners, Entries, Held, Used;
    OneOn(ops, op);
    var r := op.r;
    ok := r !in h.regions;
    if ok {
      Created(h.regions, h.depth, h.direct, r);
      h.regions, h.direct, h.depth := h.regions[r := EMPTY], h.direct[r := 0], h.depth[r := 0];
    }
  }

  method PerformAdopt(h: Heap, op: Op, ghost ops: seq<Op>) returns (ok: bool)
    requires op.Adopt?
    requires Current(h.regions, h.depth, h.direct, ops)
    modifies h
    ensures ok <==> Allowed(old(h.regions), old(h.depth), old(h.direct), op)
    ensures ok ==> Stepped(h.regions, h.depth, h.direct, ops, op) && StaysFreed(old(h.regions), h.regions)
    ensures !ok ==> h.regions == old(h.regions) && h.direct == old(h.direct) && h.depth == old(h.depth)
  {
    hide TreeAt, BalancedAt, Within, Live, Owners, Entries, Held, Used, Loose;
    ghost var f, direct, depth := h.regions, h.direct, h.depth;
    OneOn(ops, op);
    ok := TryAdopt(h, op.r, op.parent, op.entry);
    if ok {
      AdoptFrees(f, direct, h.regions, depth, h.depth, op.r, op.parent, op.entry, Used(ops));
    }
  }

  method PerformRelease(h: Heap, op: Op, ghost ops: seq<Op>) returns (ok: bool)
    requires op.Release?
    requires Current(h.regions, h.depth, h.direct, ops)
    modifies h
    ensures ok <==> Allowed(old(h.regions), old(h.depth), old(h.direct), op)
    ensures ok ==> Stepped(h.regions, h.depth, h.direct, ops, op) && StaysFreed(old(h.regions), h.regions)
    ensures !ok ==> h.regions == old(h.regions) && h.direct == old(h.direct) && h.depth == old(h.depth)
  {
    hide TreeAt, BalancedAt, Within, Owners, Entries, Held, Used, Loose;
    ghost var f, direct, depth := h.regions, h.direct, h.depth;
    OneOn(ops, op);
    var c := op.r;
    ok := c in h.regions && h.regions[c].HasParent();
    if ok {
      h.ClearParent(c);
      ReleaseFrees(f, direct, h.regions, depth, c, Used(ops));
    }
  }

  method PerformGiveCown(h: Heap, op: Op, ghost ops: seq<Op>) returns (ok: bool)
    requires op.GiveCown?
    requires Current(h.regions, h.depth, h.direct, ops)
    modifies h
    ensures ok <==> Allowed(old(h.regions), old(h.depth), old(h.direct), op)
    ensures ok ==> Stepped(h.regions, h.depth, h.direct, ops, op) && StaysFreed(old(h.regions), h.regions)
    ensures !ok ==> h.regions == old(h.regions) && h.direct == old(h.direct) && h.depth == old(h.depth)
  {
    hide TreeAt, BalancedAt, Within, Owners, Entries, Held, Used, Loose;
    OneOn(ops, op);
    var c := op.r;
    ok := c in h.regions && !h.regions[c].HasOwner() && !h.regions[c].finalizing;
    if ok {
      h.SetCownOwner(c, op.entry);
    }
  }

  method PerformTakeCown(h: Heap, op: Op, ghost ops: seq<Op>) returns (ok: bool)
    requires op.TakeCown?
    requires Current(h.regions, h.depth, h.direct, ops)
    modifies h
    ensures ok <==> Allowed(old(h.regions), old(h.depth), old(h.direct), op)
    ensures ok ==> Stepped(h.regions, h.depth, h.direct, ops, op) && StaysFreed(old(h.regions), h.regions)
    ensures !ok ==> h.regions == old(h.regions) && h.direct == old(h.direct) && h.depth == old(h.depth)
  {
    hide TreeAt, BalancedAt, Within, Owners, Entries, Held, Used, Loose, Stepped, StaysFreed, Settled;
    var c := op.r;
    ok := c in h.regions && h.regions[c].owner.CownOwned?;
    if ok {
      ghost var f := h.regions;
      h.ClearCownOwner(c);
      TakenFrees(f, h.direct, h.regions, h.depth, ops, c);
    }
  }

  lemma TakenFrees(
    f: Forest, direct: Counts, g: Forest, depth: map<RegionId, nat>, ops: seq<Op>, c: RegionId)
    requires Current(f, depth, direct, ops) && c in f && f[c].owner.CownOwned?
    requires Tree(g, depth) && Balanced(g, direct) && NonNegative(direct)
    requires g == Orphaned(f, c)[c := Orphaned(f, c)[c].(finalizing := f[c].stackRc == 0)]
    ensures Stepped(g, depth, direct, ops, TakeCown(c)) && StaysFreed(f, g)
  {
    hide TreeAt, BalancedAt, Owners, Entries, Held, Used;
    OneOn(ops, TakeCown(c));
    UnmarkedOwned(f, depth, c);
    assert g[c].owner.Unowned? && g[c].entry.None? && forall x | x in f && x != c :: g[x] == f[x];
  }

  lemma UnmarkedOwned(f: Forest, depth: map<RegionId, nat>, c: RegionId)
    requires Tree(f, depth) && c in f && f[c].HasOwner()
    ensures !f[c].finalizing
  {
    assert TreeAt(f, depth, c);
  }

  /** Perform one operation if it is allowed; `held` is what the client holds. */
  method Perform(h: Heap, op: Op, held: Counts, ghost ops: seq<Op>) returns (ok: bool)
    requires Current(h.regions, h.depth, h.direct, ops) && held == h.direct
    modifies h
    ensures ok <==> Permitted(ops, op)
    ensures ok ==> Current(h.regions, h.depth, h.direct, ops + [op]) && StaysFreed(old(h.regions), h.regions)
    ensures !ok ==> h.regions == old(h.regions) && h.direct == old(h.direct) && h.depth == old(h.depth)
  {
    hide Current, Permitted, Allowed, Stepped;
    AllowedIsPermitted(h.regions, h.depth, h.direct, ops, op);
    if op.Create? {
      ok := PerformCreate(h, op, ops);
    } else if op.Report? || op.Retract? {
      ok := PerformCount(h, op, held, ops);
    } else if op.Adopt? {
      ok := PerformAdopt(h, op, ops);
    } else if op.Release? {
      ok := PerformRelease(h, op, ops);
    } else if op.GiveCown? {
      ok := PerformGiveCown(h, op, ops);
    } else {
      ok := PerformTakeCown(h, op, ops);
    }
    if ok {
      Advance(h.regions, h.depth, h.direct, ops, op);
    }
  }

  method TryAdopt(h: Heap, c: RegionId, p: RegionId, entry: HeaderId) returns (ok: bool)
    requires h.Counted() && forall x | x in h.regions :: !h.regions[x].IsFrameLocal()
    modifies h
    ensures ok <==> Allowed(old(h.regions), old(h.depth), old(h.direct), Adopt(c, p, entry))
    ensures h.Counted() && h.direct == old(h.direct)
    ensures ok ==> SameButCounts(Adopted(old(h.regions), c, p, entry), h.regions)
    ensures !ok ==> h.regions == old(h.regions) && h.depth == old(h.depth)
  {
    ok := false;
    if c in h.regions && p in h.regions && !h.regions[c].HasOwner() && c != p {
      var live := Alive(h, c);
      var home := Alive(h, p);
      var above := h.IsAncestorOf(c, p);
      AboveWithin(h.regions, h.depth, c, p);
      ok := live && home && !above;
      if ok {
        h.SetParent(c, p, entry);
      }
    }
  }

  /**
   Every run from the empty heap, up to the first operation that the run so far does not permit: references,
   owners and entries are those of the run; a count is positive exactly when the run holds a reference at or below
   the region; a region has been freed exactly when something owned or reached it once and nothing does now,
   and then for good.
   */
  method Run(h: Heap, ops: seq<Op>) returns (n: nat)
    requires h.regions == map[] && h.direct == map[]
    modifies h
    ensures n <= |ops| && h.Counted()
    ensures Legal(ops[..n]) && (n < |ops| ==> !Permitted(ops[..n], ops[n]))
    ensures h.direct == Held(ops[..n]) && forall r | r in h.regions :: !h.regions[r].IsFrameLocal() && h.regions[r].members == {}
    ensures h.regions.Keys == Owners(ops[..n]).Keys && forall r | r in h.regions :: h.regions[r].owner == Owners(ops[..n])[r]
    ensures h.regions.Keys == Entries(ops[..n]).Keys && forall r | r in h.regions :: h.regions[r].entry == Entries(ops[..n])[r]
    ensures forall r | r in h.regions :: h.regions[r].stackRc == 0 <==> Idle(h.regions, h.depth, Held(ops[..n]), r)
    ensures forall r | r in h.regions :: h.regions[r].finalizing <==> Freed(ops[..n], r)
    ensures forall k, r | 0 <= k <= n && Freed(ops[..k], r) :: Freed(ops[..n], r)
    ensures forall r | r in h.regions && !Live(h.regions, h.depth, r) :: Held(ops[..n])[r] == 0
  {
    hide Permitted, Freed, Settled, Live, Idle;
    n := 0;
    var held: Counts := map[];
    EmptyRun(h.regions, h.depth, h.direct);
    while n < |ops|
      invariant n <= |ops| && held == h.direct
      invariant Current(h.regions, h.depth, h.direct, ops[..n]) && Legal(ops[..n])
      invariant forall k, r | 0 <= k <= n && Freed(ops[..k], r) :: r in h.regions && h.regions[r].finalizing
    {
      assert ops[..n + 1] == ops[..n] + [ops[n]];
      var ok := Perform(h, ops[n], held, ops[..n]);
      if !ok {
        break;
      }
      assert ops[..n + 1][..n] == ops[..n];
      LegalStep(ops[..n], ops[n]);
      FreedIsMarked(h.regions, h.depth, h.direct, ops[..n + 1]);
      held := HeldAfter(held, ops[n]);
      n := n + 1;
    }
    FreedIsMarked(h.regions, h.depth, h.direct, ops[..n]);
    forall r | r in h.regions ensures h.regions[r].stackRc == 0 <==> Idle(h.regions, h.depth, Held(ops[..n]), r) {
      CountMeansReached(h.regions, h.depth, h.direct, r);
    }
    forall r | r in h.regions && !Live(h.regions, h.depth, r) ensures Held(ops[..n])[r] == 0 {
      DeadIsQuiet(h.regions, h.direct, h.depth, r);
    }
  }

  lemma EmptyRun(f: Forest, depth: map<RegionId, nat>, direct: Counts)
    requires f == map[] && direct == map[]
    ensures Current(f, depth, direct, []) && Legal([]) && forall r :: !Freed([], r)
  {
  }

  lemma LegalStep(ops: seq<Op>, op: Op)
    requires Legal(ops) && Permitted(ops, op)
    ensures Legal(ops + [op])
  {
    forall k | 0 <= k < |ops + [op]| ensures Permitted((ops + [op])[..k], (ops + [op])[k]) {
      assert (ops + [op])[..k] == if k < |ops| then ops[..k] else ops;
      assert k < |ops| ==> Permitted(ops[..k], ops[k]);
    }
  }
}
