/**
 The union-find that frozen objects form (vbci/header.h:78-91, vbci/freeze.cc:34-47): links point to
 strictly higher addresses, `find` compresses paths, and a union passes the lower root's count on.
 Headers are named by their addresses.
 */
module UnionFind {
  import opened Collections

  datatype Loc = Stack | Immortal | Immutable | Pending | SccPtr(target: int) | InRegion(region: int)

  // ---------------------------------------------------------------- representatives

  ghost predicate Upward(loc: map<int, Loc>) {
    forall h | h in loc && loc[h].SccPtr? :: loc[h].target in loc && h < loc[h].target
  }

  ghost function Higher(loc: map<int, Loc>, h: int): set<int> {
    set k | k in loc && k > h
  }

  ghost function Rep(loc: map<int, Loc>, h: int): (r: int)
    requires Upward(loc) && h in loc
    ensures r in loc && !loc[r].SccPtr? && h <= r && (r == h <==> !loc[h].SccPtr?)
    decreases Higher(loc, h)
  {
    if loc[h].SccPtr? then
      assert loc[h].target in Higher(loc, h) && loc[h].target !in Higher(loc, loc[h].target);
      Rep(loc, loc[h].target)
    else h
  }

  /** Links may be redirected, but every representative stays. */
  ghost predicate Compressed(a: map<int, Loc>, b: map<int, Loc>) {
    && Upward(a) && Upward(b) && a.Keys == b.Keys
    && forall x | x in a :: (b[x] == a[x] || (a[x].SccPtr? && b[x].SccPtr?)) && Rep(b, x) == Rep(a, x)
  }

  lemma CompressedTwice(a: map<int, Loc>, b: map<int, Loc>, c: map<int, Loc>)
    requires Compressed(a, b) && Compressed(b, c)
    ensures Compressed(a, c)
  {
  }

  /** Pointing straight at the root changes no representative. */
  lemma {:induction false} CompressOne(loc: map<int, Loc>, h: int, x: int)
    requires Upward(loc) && h in loc && loc[h].SccPtr? && x in loc
    requires Upward(loc[h := SccPtr(Rep(loc, h))])
    ensures Rep(loc[h := SccPtr(Rep(loc, h))], x) == Rep(loc, x)
    decreases Higher(loc, x)
  {
    var to := loc[h := SccPtr(Rep(loc, h))];
    if loc[x].SccPtr? && x != h {
      assert loc[x].target in Higher(loc, x) && loc[x].target !in Higher(loc, loc[x].target);
      CompressOne(loc, h, loc[x].target);
    } else if x == h {
      assert Rep(to, Rep(loc, h)) == Rep(loc, h);
    }
  }

  /** Linking one root below another joins exactly their two classes. */
  lemma {:induction false} LinkedRep(loc: map<int, Loc>, lo: int, hi: int, x: int)
    requires Upward(loc) && lo in loc && hi in loc && lo < hi && !loc[lo].SccPtr? && !loc[hi].SccPtr? && x in loc
    ensures Upward(loc[lo := SccPtr(hi)])
    ensures Rep(loc[lo := SccPtr(hi)], x) == if Rep(loc, x) == lo then hi else Rep(loc, x)
    decreases Higher(loc, x)
  {
    if loc[x].SccPtr? {
      assert loc[x].target in Higher(loc, x) && loc[x].target !in Higher(loc, loc[x].target);
      LinkedRep(loc, lo, hi, loc[x].target);
    } else if x == lo {
      assert Rep(loc[lo := SccPtr(hi)], hi) == hi;
    }
  }

  /** Changing what is said of a root, short of linking it, changes no representative. */
  lemma {:induction false} RelabelledRep(loc: map<int, Loc>, h: int, l: Loc, x: int)
    requires Upward(loc) && h in loc && !loc[h].SccPtr? && !l.SccPtr? && x in loc
    ensures Upward(loc[h := l]) && Rep(loc[h := l], x) == Rep(loc, x)
    decreases Higher(loc, x)
  {
    if loc[x].SccPtr? {
      assert loc[x].target in Higher(loc, x) && loc[x].target !in Higher(loc, loc[x].target);
      RelabelledRep(loc, h, l, loc[x].target);
    }
  }

  // ---------------------------------------------------------------- sums of counts

  ghost function Total(rc: map<int, int>, xs: set<int>): int
    requires xs <= rc.Keys
  {
    if xs == {} then 0
    else
      var x := Pick(xs);
      rc[x] + Total(rc, xs - {x})
  }

  lemma {:induction false} TotalOne(rc: map<int, int>, xs: set<int>, x: int)
    requires xs <= rc.Keys && x in xs
    ensures Total(rc, xs) == rc[x] + Total(rc, xs - {x})
    decreases xs
  {
    var y := Pick(xs);
    if y != x {
      TotalOne(rc, xs - {y}, x);
      TotalOne(rc, xs - {x}, y);
      assert xs - {x} - {y} == xs - {y} - {x};
    }
  }

  lemma {:induction false} TotalUnion(rc: map<int, int>, xs: set<int>, ys: set<int>)
    requires xs <= rc.Keys && ys <= rc.Keys && xs !! ys
    ensures Total(rc, xs + ys) == Total(rc, xs) + Total(rc, ys)
    decreases ys
  {
    if ys == {} {
      assert xs + ys == xs;
    } else {
      var y := Pick(ys);
      TotalOne(rc, xs + ys, y);
      TotalOne(rc, ys, y);
      assert xs + ys - {y} == xs + (ys - {y});
      TotalUnion(rc, xs, ys - {y});
    }
  }

  lemma {:induction false} TotalSame(rc: map<int, int>, rc': map<int, int>, xs: set<int>)
    requires xs <= rc.Keys && xs <= rc'.Keys && forall x | x in xs :: rc'[x] == rc[x]
    ensures Total(rc', xs) == Total(rc, xs)
    decreases xs
  {
    if xs != {} {
      TotalSame(rc, rc', xs - {Pick(xs)});
    }
  }

  ghost function Roots(loc: map<int, Loc>): set<int> {
    set h | h in loc && !loc[h].SccPtr?
  }

  // ---------------------------------------------------------------- the operations

  lemma LinkJoins(loc: map<int, Loc>, mid: map<int, Loc>, rc: map<int, int>, lo: int, hi: int, sum: int)
    requires Compressed(loc, mid) && rc.Keys == loc.Keys && lo in loc && hi in loc && lo < hi
    requires !loc[lo].SccPtr? && !loc[hi].SccPtr? && sum == rc[lo] + rc[hi] - 1
    ensures Upward(mid[lo := SccPtr(hi)])
    ensures Joined(loc, rc, mid[lo := SccPtr(hi)], rc[hi := sum], lo, hi)
    ensures Joined(loc, rc, mid[lo := SccPtr(hi)], rc[hi := sum], hi, lo)
  {
    forall x | x in mid
      ensures Upward(mid[lo := SccPtr(hi)]) && Rep(mid[lo := SccPtr(hi)], x) == if Rep(mid, x) == lo then hi else Rep(mid, x)
    {
      LinkedRep(mid, lo, hi, x);
    }
  }

  class Memory {
    var loc: map<int, Loc>
    var rc: map<int, int>

    /** The headers that each region lists. */
    var members: map<int, set<int>>

    ghost predicate Valid()
      reads this
    {
      Upward(loc) && rc.Keys == loc.Keys
    }

    /** The representative of `h`, with path compression. */
    method Find(h: int) returns (root: int)
      requires Valid() && h in loc
      modifies `loc
      ensures Valid() && Compressed(old(loc), loc) && root == Rep(loc, h)
      decreases Higher(loc, h)
    {
      if !loc[h].SccPtr? {
        return h;
      }
      var target := loc[h].target;
      assert target in Higher(loc, h) && target !in Higher(loc, target);
      root := Find(target);
      if root != target {
        ghost var before := loc;
        assert Rep(before, h) == root;
        loc := loc[h := SccPtr(root)];
        forall x | x in before ensures Rep(loc, x) == Rep(before, x) {
          CompressOne(before, h, x);
        }
        CompressedTwice(old(loc), before, loc);
      }
    }

    /** `scc_union`; answers false where its assertion fails, on members of one class. */
    method SccUnion(child: int, rep: int) returns (ok: bool)
      requires Valid() && child in loc && rep in loc
      modifies `loc, `rc
      ensures Valid()
      ensures ok <==> Rep(old(loc), child) != Rep(old(loc), rep)
      ensures !ok ==> Compressed(old(loc), loc) && rc == old(rc)
      ensures ok ==> Joined(old(loc), old(rc), loc, rc, Rep(old(loc), child), Rep(old(loc), rep))
    {
      var r := Find(child);
      ghost var mid := loc;
      var repR := Find(rep);
      CompressedTwice(old(loc), mid, loc);
      if r == repR {
        return false;
      }
      if r > repR {
        r, repR := repR, r;
      }
      LinkJoins(old(loc), loc, rc, r, repR, rc[repR] + rc[r] - 1);
      rc := rc[repR := rc[repR] + rc[r] - 1];
      loc := loc[r := SccPtr(repR)];
      return true;
    }
  }

  function Max(a: int, b: int): int { if a < b then b else a }

  function Min(a: int, b: int): int { if a < b then a else b }

  /** The classes of the roots `a` and `b` are one, represented by the higher address, which holds both counts less one. */
  ghost predicate Joined(
    loc: map<int, Loc>, rc: map<int, int>, loc': map<int, Loc>, rc': map<int, int>, a: int, b: int)
    requires Upward(loc) && Upward(loc') && rc.Keys == loc.Keys
  {
    && a in loc && b in loc && a != b && loc'.Keys == loc.Keys
    && rc' == rc[Max(a, b) := rc[a] + rc[b] - 1]
    && (forall x {:trigger Rep(loc', x)} | x in loc :: Rep(loc', x) == if Rep(loc, x) == a || Rep(loc, x) == b then Max(a, b) else Rep(loc, x))
    && (forall x | x in loc :: loc'[x] == loc[x] || loc'[x].SccPtr?)
    && (forall x | x in loc && x != Min(a, b) && loc'[x].SccPtr? :: loc[x].SccPtr?)
    && loc'[Min(a, b)].SccPtr?
  }

  // ---------------------------------------------------------------- runs

  /** A union costs the roots exactly one reference: the edge between the two classes. */
  lemma JoinedTotal(
    loc: map<int, Loc>, rc: map<int, int>, loc': map<int, Loc>, rc': map<int, int>, a: int, b: int)
    requires Upward(loc) && Upward(loc') && rc.Keys == loc.Keys && Joined(loc, rc, loc', rc', a, b)
    requires !loc[a].SccPtr? && !loc[b].SccPtr?
    ensures Roots(loc') <= rc'.Keys
    ensures Total(rc', Roots(loc')) == Total(rc, Roots(loc)) - 1
  {
    var lo, hi := Min(a, b), Max(a, b);
    assert Rep(loc', hi) == hi;
    forall x ensures x in Roots(loc') <==> x in Roots(loc) - {lo} {
      assert x in loc && x != lo && x != hi && !loc[x].SccPtr? ==> Rep(loc', x) == x;
    }
    assert Roots(loc') == Roots(loc) - {lo};
    TotalOne(rc, Roots(loc), lo);
    TotalOne(rc, Roots(loc) - {lo}, hi);
    TotalOne(rc', Roots(loc'), hi);
    TotalSame(rc, rc', Roots(loc) - {lo} - {hi});
  }

  datatype Op = Look(h: int) | Unite(child: int, rep: int)

  ghost predicate Known(loc: map<int, Loc>, op: Op) {
    match op
    case Look(h) => h in loc
    case Unite(a, b) => a in loc && b in loc
  }

  /** The classes `a` and `b` made one. */
  ghost function United(before: map<int, int>, a: int, b: int): map<int, int> {
    map x | x in before :: if before[x] == a || before[x] == b then Max(a, b) else before[x]
  }

  /** The classes after a run, each named by its highest address. */
  ghost function Classes(first: map<int, int>, ops: seq<Op>): map<int, int> {
    if ops == [] then first
    else
      var before, op := Classes(first, ops[..|ops| - 1]), ops[|ops| - 1];
      if op.Look? || op.child !in before || op.rep !in before then before
      else
        United(before, before[op.child], before[op.rep])
  }

  ghost function Unions(ops: seq<Op>): nat {
    if ops == [] then 0 else Unions(ops[..|ops| - 1]) + if ops[|ops| - 1].Unite? then 1 else 0
  }

  ghost function Reps(loc: map<int, Loc>): (m: map<int, int>)
    requires Upward(loc)
  {
    map x | x in loc :: Rep(loc, x)
  }

  /** The roots of the memory stand for the classes of the run, at the price of one reference a union. */
  ghost predicate Represents(
    loc: map<int, Loc>, rc: map<int, int>, first: map<int, int>, total: int, ops: seq<Op>)
  {
    && Upward(loc) && rc.Keys == loc.Keys
    && Reps(loc) == Classes(first, ops) && Total(rc, Roots(loc)) + Unions(ops) == total
  }

  /**
   Any interleaving of `find` and `scc_union`: it stops only at a union inside one class; the
   representatives are those of the unions alone; the total of the root counts drops by one a union.
   */
  method Interleave(m: Memory, ops: seq<Op>) returns (n: nat)
    requires m.Valid() && forall i | 0 <= i < |ops| :: Known(m.loc, ops[i])
    modifies m
    ensures n <= |ops| && m.Valid()
    ensures Represents(m.loc, m.rc, old(Reps(m.loc)), old(Total(m.rc, Roots(m.loc))), ops[..n])
    ensures n < |ops| ==> Known(m.loc, ops[n]) && ops[n].Unite? && Rep(m.loc, ops[n].child) == Rep(m.loc, ops[n].rep)
  {
    n := 0;
    ghost var first, total := Reps(m.loc), Total(m.rc, Roots(m.loc));
    while n < |ops|
      invariant n <= |ops| && m.Valid() && forall i | 0 <= i < |ops| :: Known(m.loc, ops[i])
      invariant Represents(m.loc, m.rc, first, total, ops[..n])
    {
      var ok := Step(m, ops[n], first, total, ops[..n]);
      if !ok {
        break;
      }
      assert ops[..n + 1] == ops[..n] + [ops[n]];
      n := n + 1;
    }
  }

  lemma CompressedAlike(a: map<int, Loc>, b: map<int, Loc>)
    requires Compressed(a, b)
    ensures Roots(b) == Roots(a) && Reps(b) == Reps(a)
  {
    forall x ensures x in Roots(a) <==> x in Roots(b) {
    }
    forall x | x in a ensures Reps(a)[x] == Reps(b)[x] {
    }
  }

  lemma JoinedReps(
    loc: map<int, Loc>, rc: map<int, int>, loc': map<int, Loc>, rc': map<int, int>, a: int, b: int)
    requires Upward(loc) && Upward(loc') && rc.Keys == loc.Keys && a in loc && b in loc
    requires Joined(loc, rc, loc', rc', Rep(loc, a), Rep(loc, b))
    ensures Reps(loc') == United(Reps(loc), Rep(loc, a), Rep(loc, b))
  {
    hide Rep, Upward, Joined, Reps, United;
    JoinedKeys(loc, rc, loc', rc', a, b);
    forall x | x in loc ensures Reps(loc')[x] == United(Reps(loc), Rep(loc, a), Rep(loc, b))[x] {
      JoinedRep(loc, rc, loc', rc', a, b, x);
    }
  }

  lemma JoinedKeys(
    loc: map<int, Loc>, rc: map<int, int>, loc': map<int, Loc>, rc': map<int, int>, a: int, b: int)
    requires Upward(loc) && Upward(loc') && rc.Keys == loc.Keys && a in loc && b in loc
    requires Joined(loc, rc, loc', rc', Rep(loc, a), Rep(loc, b))
    ensures Reps(loc').Keys == loc.Keys == United(Reps(loc), Rep(loc, a), Rep(loc, b)).Keys
  {
    hide Rep, Upward;
  }

  lemma JoinedRep(
    loc: map<int, Loc>, rc: map<int, int>, loc': map<int, Loc>, rc': map<int, int>, a: int, b: int, x: int)
    requires Upward(loc) && Upward(loc') && rc.Keys == loc.Keys && a in loc && b in loc && x in loc
    requires Joined(loc, rc, loc', rc', Rep(loc, a), Rep(loc, b))
    ensures x in Reps(loc') && x in United(Reps(loc), Rep(loc, a), Rep(loc, b))
    ensures Reps(loc')[x] == United(Reps(loc), Rep(loc, a), Rep(loc, b))[x]
  {
    hide Rep, Upward;
  }

  lemma UnitedRepresents(
    loc: map<int, Loc>, rc: map<int, int>, loc': map<int, Loc>, rc': map<int, int>,
    op: Op, first: map<int, int>, total: int, ops: seq<Op>)
    requires Represents(loc, rc, first, total, ops) && Upward(loc') && Known(loc, op) && op.Unite?
    requires Joined(loc, rc, loc', rc', Rep(loc, op.child), Rep(loc, op.rep))
    requires !loc[Rep(loc, op.child)].SccPtr? && !loc[Rep(loc, op.rep)].SccPtr?
    ensures Represents(loc', rc', first, total, ops + [op])
  {
    hide Rep, Upward;
    JoinedTotal(loc, rc, loc', rc', Rep(loc, op.child), Rep(loc, op.rep));
    JoinedReps(loc, rc, loc', rc', op.child, op.rep);
    assert (ops + [op])[..|ops|] == ops;
  }

  method Step(m: Memory, op: Op, ghost first: map<int, int>, ghost total: int, ghost ops: seq<Op>) returns (ok: bool)
    requires m.Valid() && Known(m.loc, op) && Represents(m.loc, m.rc, first, total, ops)
    modifies m
    ensures m.Valid() && m.loc.Keys == old(m.loc.Keys)
    ensures ok ==> Represents(m.loc, m.rc, first, total, ops + [op])
    ensures !ok ==> Represents(m.loc, m.rc, first, total, ops)
    ensures !ok ==> op.Unite? && op.child in m.loc && op.rep in m.loc && Rep(m.loc, op.child) == Rep(m.loc, op.rep)
  {
    ghost var loc, rc := m.loc, m.rc;
    assert (ops + [op])[..|ops|] == ops;
    match op {
      case Look(h) =>
        var root := m.Find(h);
        CompressedAlike(loc, m.loc);
        ok := true;
      case Unite(a, b) =>
        ok := m.SccUnion(a, b);
        if ok {
          UnitedRepresents(loc, rc, m.loc, m.rc, op, first, total, ops);
        } else {
          CompressedAlike(loc, m.loc);
        }
    }
  }
}
