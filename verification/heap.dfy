/**
 The interpreter's heap: regions with their counts (vbci/region.h) and headers (vbci/header.h).
 Addresses of regions and headers are numbers; the memory they address is the fields of `Heap`.
 */
module Heaps {
  import opened Collections
  import opened Regions
  import opened Graphs

  class Heap {
    var regions: Forest
    var headers: map<HeaderId, Header>
    var registers: seq<Ref>
    var cowns: seq<Ref>

    /** References reported to each region so far, and the ranking of the forest. */
    ghost var direct: Counts
    ghost var depth: map<RegionId, nat>

    function Graph(): View
      reads this`headers, this`registers, this`cowns
    {
      View(headers, registers, cowns)
    }

    ghost predicate Counted()
      reads this`regions, this`direct, this`depth
    {
      Tree(regions, depth) && Balanced(regions, direct) && NonNegative(direct)
    }

    // -------------------------------------------------------------- region.h

    /** Report `n` more references to `r`; a count leaving zero is passed up the chain. */
    method StackInc(r: RegionId, n: nat)
      requires Tree(regions, depth) && Balanced(regions, direct)
      requires r in regions && Live(regions, depth, r)
      requires n > 0 || regions[r].stackRc > 0 || !regions[r].HasParent()
      modifies `regions, `direct
      ensures Tree(regions, depth) && Balanced(regions, direct) && SameButCounts(old(regions), regions)
      ensures direct == Reported(old(regions), old(direct), r, n)
      ensures regions[r].stackRc == old(regions[r].stackRc) + if regions[r].IsFrameLocal() then 0 else n
      ensures forall x | x in regions && depth[x] >= depth[r] && x != r :: regions[x] == old(regions)[x]
      decreases depth[r]
    {
      assert TreeAt(regions, depth, r);
      if regions[r].IsFrameLocal() {
        return;
      }
      if regions[r].stackRc == 0 {
        if regions[r].HasParent() {
          StackInc(regions[r].owner.region, 1);
        }
      }
      CountUp(regions, direct, old(direct), depth, r, n);
      direct := Add(old(direct), r, n);
      regions := regions[r := regions[r].(stackRc := regions[r].stackRc + n)];
    }

    /** Retract `n` references; answers false when the retraction freed the root of the tree. */
    method StackDec(r: RegionId, n: nat) returns (alive: bool)
      requires Counted() && r in regions
      requires regions[r].IsFrameLocal() || (direct[r] >= n && regions[r].stackRc > 0)
      modifies `regions, `direct
      ensures Counted() && direct == Reported(old(regions), old(direct), r, -(n as int))
      ensures if regions[r].IsFrameLocal() then alive && regions == old(regions)
              else Retracted(old(regions), regions, depth, r, alive)
      decreases depth[r]
    {
      if regions[r].IsFrameLocal() {
        return true;
      }
      ghost var f, d := regions, direct;
      CountDown(f, d, depth, r, n);
      var g := regions[r := regions[r].(stackRc := regions[r].stackRc - n)];
      regions, direct := g, Add(d, r, -(n as int));
      if g[r].stackRc == 0 && !g[r].HasOwner() {
        FreeRegion(r);
        RetractedFree(f, g, depth, r);
        return false;
      }
      if g[r].stackRc == 0 && g[r].HasParent() {
        var p := g[r].owner.region;
        assert TreeAt(g, depth, r);
        direct := Add(direct, p, 1);
        assert BalancedAt(g, direct, p);
        alive := StackDec(p, 1);
        RetractedAbove(f, g, regions, depth, r, alive);
        return;
      }
      RetractedHere(f, g, direct, depth, r);
      return true;
    }

    method FreeRegion(r: RegionId)
      requires Counted() && r in regions
      requires !regions[r].HasOwner() && regions[r].stackRc == 0
      modifies `regions
      ensures Counted() && regions == old(regions)[r := old(regions)[r].(finalizing := true)]
    {
      Finalize(regions, direct, depth, r);
      regions := regions[r := regions[r].(finalizing := true)];
    }

    /** Whether `a` is a proper ancestor of `r`. */
    method IsAncestorOf(a: RegionId, r: RegionId) returns (yes: bool)
      requires Tree(regions, depth) && r in regions
      ensures yes == Above(regions, depth, a, r)
    {
      var x := r;
      while regions[x].HasParent()
        invariant x in regions
        invariant Above(regions, depth, a, r) == Above(regions, depth, a, x)
        decreases depth[x]
      {
        assert TreeAt(regions, depth, x);
        x := regions[x].owner.region;
        if x == a {
          return true;
        }
      }
      return false;
    }

    /** `c` becomes a child of `p`, entered through `entry`. */
    method SetParent(c: RegionId, p: RegionId, entry: HeaderId)
      requires Counted() && c in regions && p in regions
      requires !regions[c].HasOwner() && !regions[c].IsFrameLocal() && !regions[p].IsFrameLocal()
      requires Live(regions, depth, c) && Live(regions, depth, p) && !Within(regions, depth, p, c)
      modifies `regions, `direct, `depth
      ensures Counted() && direct == old(direct)
      ensures SameButCounts(Adopted(old(regions), c, p, entry), regions)
      ensures KeepsLive(old(regions), old(depth), regions, depth)
    {
      ghost var f, d, was := regions, direct, depth;
      Adopt(f, d, was, c, p, entry);
      var g := Adopted(regions, c, p, entry);
      regions, direct, depth := g, Add(d, p, -Edge(g[c].stackRc)), Sink(f, was, c, p);
      AddBack(d, p, -Edge(g[c].stackRc));
      if g[c].stackRc > 0 {
        StackInc(p, 1);
        KeepsLiveCounts(f, was, g, regions, depth);
      }
    }

    /** `c` loses its parent; without references of its own it is freed. */
    method ClearParent(c: RegionId)
      requires Counted() && c in regions && regions[c].HasParent()
      modifies `regions, `direct
      ensures Counted() && direct == old(direct)
      ensures var f := Orphaned(old(regions), c);
        var p := old(regions)[c].owner.region;
        && Tree(f, depth) && p in f
        && if old(regions)[c].stackRc == 0 then regions == f[c := f[c].(finalizing := true)]
           else Retracted(f, regions, depth, p, !Released(regions, depth, p))
    {
      ghost var f, d := regions, direct;
      assert TreeAt(f, depth, c);
      var p := regions[c].owner.region;
      var g := Orphaned(regions, c);
      OrphanedTree(f, depth, c);
      Reown(f, d, c, Unowned, None);
      regions, direct := g, Add(d, p, Edge(g[c].stackRc));
      AddBack(d, p, Edge(g[c].stackRc));
      if g[c].stackRc > 0 {
        assert BalancedAt(g, direct, p);
        var alive := StackDec(p, 1);
      } else {
        FreeRegion(c);
      }
    }

    // -------------------------------------------------------------- header.h

    /** `Header::move_region`. */
    method MoveRegion(t: HeaderId, to: RegionId)
      requires Counted() && t in headers && headers[t].loc.InRegion? && headers[t].loc.region in regions && to in regions
      modifies `regions, `headers
      ensures Counted() && headers == old(headers)[t := old(headers)[t].(loc := InRegion(to))]
      ensures regions == Moved(old(regions), t, old(headers)[t].loc.region, to)
      ensures forall x | x in regions :: Root(regions, depth, x) == old(Root(regions, depth, x))
    {
      var from := headers[t].loc.region;
      ghost var f := regions;
      regions := Moved(regions, t, from, to);
      headers := headers[t := headers[t].(loc := InRegion(to))];
      Regrouped(f, regions, direct, depth);
    }

    method SetCownOwner(c: RegionId, entry: HeaderId)
      requires Counted() && c in regions
      requires !regions[c].HasOwner() && !regions[c].IsFrameLocal() && !regions[c].finalizing
      modifies `regions
      ensures Counted()
      ensures regions == old(regions)[c := old(regions)[c].(owner := CownOwned, entry := Some(entry))]
    {
      Reown(regions, direct, c, CownOwned, Some(entry));
      CownTree(regions, depth, c, entry);
      regions := regions[c := regions[c].(owner := CownOwned, entry := Some(entry))];
    }

    method ClearCownOwner(c: RegionId)
      requires Counted() && c in regions && regions[c].owner.CownOwned?
      modifies `regions
      ensures Counted()
      ensures regions == Orphaned(old(regions), c)[c := Orphaned(old(regions), c)[c].(finalizing := old(regions)[c].stackRc == 0)]
    {
      Reown(regions, direct, c, Unowned, None);
      OrphanedTree(regions, depth, c);
      assert TreeAt(regions, depth, c);
      regions := Orphaned(regions, c);
      if regions[c].stackRc == 0 {
        FreeRegion(c);
      }
    }
  }

  function Moved(f: Forest, t: HeaderId, from: RegionId, to: RegionId): Forest
    requires from in f && to in f
  {
    var g := f[from := f[from].(members := f[from].members - {t})];
    g[to := g[to].(members := g[to].members + {t})]
  }

  lemma CownTree(f: Forest, depth: map<RegionId, nat>, c: RegionId, entry: HeaderId)
    requires Tree(f, depth) && c in f && !f[c].IsFrameLocal() && !f[c].finalizing
    ensures Tree(f[c := f[c].(owner := CownOwned, entry := Some(entry))], depth)
  {
    var g := f[c := f[c].(owner := CownOwned, entry := Some(entry))];
    forall x | x in f ensures TreeAt(g, depth, x) {
      assert TreeAt(f, depth, x);
    }
  }

  /** Frame-local regions keep no count. */
  ghost function Reported(f: Forest, direct: Counts, r: RegionId, n: int): Counts
    requires r in f
  {
    if f[r].IsFrameLocal() then direct else Add(direct, r, n)
  }
}
