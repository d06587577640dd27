/**
 The structural check of `Shapes` against a reference definition: the greatest relation between definitions
 in which every function of the right-hand side has a match with wider parameters and a narrower result, where
 the self type stands for the left-hand side.

 The check accepts all of that relation.  It accepts nothing else when the contradiction axioms are left out,
 and also with them in programs whose shapes do not conflict where a check can meet them.  Where no signature
 mentions the self type the relation is transitive, and the way through the self type adds nothing to it.
 */
module ShapesGreatest {
  import opened Collections
  import opened Shapes

  // ---------------------------------------------------------------- the reference relation

  /** Subtyping when the related definitions are those in `R` and the self type stands for `self`. */
  predicate DSub(p: Prog, R: set<Pair>, self: Option<nat>, t: VType, u: VType)
    decreases Depth(t) + Depth(u), 3
  {
    if t.Union? then forall i | 0 <= i < |t.parts| :: DepthPart(t.parts, i); DSub(p, R, self, t.parts[i], u)
    else DAtom(p, R, self, t, u)
  }

  /** Directly, or by way of the type that the self type stands for. */
  predicate DAtom(p: Prog, R: set<Pair>, self: Option<nat>, a: VType, u: VType)
    decreases Depth(a) + Depth(u), 2
  {
    || DCovers(p, R, self, a, u)
    || (self.Some?
        && (a.SelfType? || DAxiom(p, R, self, a, Named(self.value)))
        && (DCovers(p, R, self, Named(self.value), u) || DCovers(p, R, self, SelfType, u)))
  }

  predicate DCovers(p: Prog, R: set<Pair>, self: Option<nat>, a: VType, u: VType)
    decreases Depth(a) + Depth(u), 1
  {
    if u.Union? then exists i | 0 <= i < |u.parts| :: DepthPart(u.parts, i); DCovers(p, R, self, a, u.parts[i])
    else DAxiom(p, R, self, a, u)
  }

  predicate DAxiom(p: Prog, R: set<Pair>, self: Option<nat>, l: VType, r: VType)
    decreases Depth(l) + Depth(r), 0
  {
    match r
    case Dyn => true
    case Named(d) => l.Named? && if IsShape(p, d) then (l.def, d) in R else l == r
    case Tuple(us) =>
      && l.Tuple?
      && |l.parts| == |us|
      && (forall i | 0 <= i < |us| ::
            DepthPart(l.parts, i);
            DepthPart(us, i);
            DSub(p, R, self, l.parts[i], us[i]))
    case Union(_) => false
    case _ => l == r
  }

  predicate DCompatible(p: Prog, R: set<Pair>, self: Option<nat>, m: Func, f: Func)
    requires SameKey(m, f)
  {
    && (forall i | 0 <= i < |f.params| :: DSub(p, R, self, f.params[i], m.params[i]))
    && DSub(p, R, self, m.result, f.result)
  }

  predicate DMatch(p: Prog, R: set<Pair>, l: nat, f: Func)
    requires l < |p|
  {
    var m := Match(p[l].funcs, f);
    m.Some? && DCompatible(p, R, Some(l), m.value, f)
  }

  /** One step of the structural rule. */
  predicate DCheck(p: Prog, R: set<Pair>, l: nat, r: nat) {
    l < |p| && r < |p| && forall i | 0 <= i < |p[r].funcs| :: DMatch(p, R, l, p[r].funcs[i])
  }

  ghost predicate PostFixed(p: Prog, R: set<Pair>) {
    forall l: nat, r: nat | (l, r) in R :: DCheck(p, R, l, r)
  }

  /** The pair lies in the greatest structural relation. */
  ghost predicate Greatest(p: Prog, l: nat, r: nat) {
    exists R: set<Pair> :: PostFixed(p, R) && (l, r) in R
  }

  /** Outside every definition. */
  ghost predicate Related(p: Prog, t: VType, u: VType) {
    exists R: set<Pair> :: PostFixed(p, R) && DSub(p, R, None, t, u)
  }

  // ---------------------------------------------------------------- nothing related is rejected

  /** The quick refusal never refuses a related pair, in either direction. */
  lemma {:induction false} NeverRefused(p: Prog, R: set<Pair>, self: Option<nat>, t: VType, u: VType)
    requires DSub(p, R, self, t, u)
    ensures !DefinitelyNot(p, t, u) && !DefinitelyNot(p, u, t)
    decreases Depth(t) + Depth(u)
  {
    if !t.Union? && !u.Union? {
      assert DAtom(p, R, self, t, u);
      assert DCovers(p, R, self, t, u) == DAxiom(p, R, self, t, u);
      if self.Some? {
        assert DCovers(p, R, self, Named(self.value), u) == DAxiom(p, R, self, Named(self.value), u);
        assert DCovers(p, R, self, SelfType, u) == DAxiom(p, R, self, SelfType, u);
      }
    }
    if t.Tuple? && u.Tuple? {
      forall i | 0 <= i < |t.parts|
        ensures !DefinitelyNot(p, t.parts[i], u.parts[i]) && !DefinitelyNot(p, u.parts[i], t.parts[i])
      {
        DepthPart(t.parts, i);
        DepthPart(u.parts, i);
        NeverRefused(p, R, self, t.parts[i], u.parts[i]);
      }
    } else if u.Named? || u.Tuple? || u.Prim? {
      assert self.Some? && DAxiom(p, R, self, t, Named(self.value)) ==> t.Named?;
      assert !t.Union? && DAxiom(p, R, self, t, u) ==> t.Named? || t == u;
    }
  }

  lemma {:induction false} CheckComplete(p: Prog, contra: bool, R: set<Pair>, assumed: seq<Pair>, l: nat, r: nat)
    requires PostFixed(p, R) && (l, r) in R
    ensures Check(p, contra, assumed, l, r)
    decreases Unassumed(p, assumed), 0
  {
    assert DCheck(p, R, l, r);
    if (l, r) !in assumed {
      AssumingShrinks(p, assumed, l, r);
      forall i | 0 <= i < |p[r].funcs|
        ensures Match(p[l].funcs, p[r].funcs[i]).Some?
        ensures Compatible(p, contra, assumed + [(l, r)], l, Match(p[l].funcs, p[r].funcs[i]).value, p[r].funcs[i])
      {
        assert DMatch(p, R, l, p[r].funcs[i]);
        CompatibleComplete(p, contra, R, assumed + [(l, r)], l, Match(p[l].funcs, p[r].funcs[i]).value, p[r].funcs[i]);
      }
    }
  }

  lemma {:induction false} CompatibleComplete(p: Prog, contra: bool, R: set<Pair>, assumed: seq<Pair>, self: nat, m: Func, f: Func)
    requires PostFixed(p, R) && SameKey(m, f) && DCompatible(p, R, Some(self), m, f)
    ensures Compatible(p, contra, assumed, self, m, f)
    decreases Unassumed(p, assumed), 2
  {
    forall i | 0 <= i < |f.params|
      ensures !DefinitelyNot(p, f.params[i], m.params[i])
      ensures Sub(p, contra, assumed, Some(self), f.params[i], m.params[i])
    {
      NeverRefused(p, R, Some(self), f.params[i], m.params[i]);
      SubComplete(p, contra, R, assumed, Some(self), f.params[i], m.params[i]);
    }
    NeverRefused(p, R, Some(self), m.result, f.result);
    SubComplete(p, contra, R, assumed, Some(self), m.result, f.result);
  }

  lemma {:induction false} SubComplete(p: Prog, contra: bool, R: set<Pair>, assumed: seq<Pair>, bind: Option<nat>, t: VType, u: VType)
    requires PostFixed(p, R) && DSub(p, R, bind, t, u)
    ensures Sub(p, contra, assumed, bind, t, u)
    decreases Unassumed(p, assumed), 1, Depth(t) + Depth(u), 3
  {
    if t.Union? {
      forall i | 0 <= i < |t.parts| ensures Sub(p, contra, assumed, bind, t.parts[i], u) {
        DepthPart(t.parts, i);
        SubComplete(p, contra, R, assumed, bind, t.parts[i], u);
      }
    } else if DCovers(p, R, bind, t, u) {
      CoversComplete(p, contra, R, assumed, bind, t, u);
    } else {
      if !t.SelfType? {
        AxiomComplete(p, contra, R, assumed, bind, t, Named(bind.value));
      }
      if DCovers(p, R, bind, SelfType, u) {
        CoversComplete(p, contra, R, assumed, bind, SelfType, u);
      } else {
        CoversComplete(p, contra, R, assumed, bind, Named(bind.value), u);
      }
    }
  }

  lemma {:induction false} CoversComplete(p: Prog, contra: bool, R: set<Pair>, assumed: seq<Pair>, bind: Option<nat>, a: VType, u: VType)
    requires PostFixed(p, R) && DCovers(p, R, bind, a, u)
    ensures Covers(p, contra, assumed, bind, a, u)
    decreases Unassumed(p, assumed), 1, Depth(a) + Depth(u), 2
  {
    if u.Union? {
      var i :| 0 <= i < |u.parts| && DCovers(p, R, bind, a, u.parts[i]);
      DepthPart(u.parts, i);
      CoversComplete(p, contra, R, assumed, bind, a, u.parts[i]);
    } else {
      AxiomComplete(p, contra, R, assumed, bind, a, u);
    }
  }

  lemma {:induction false} AxiomComplete(p: Prog, contra: bool, R: set<Pair>, assumed: seq<Pair>, bind: Option<nat>, l: VType, r: VType)
    requires PostFixed(p, R) && DAxiom(p, R, bind, l, r)
    ensures Axiom(p, contra, assumed, bind, l, r)
    decreases Unassumed(p, assumed), 1, Depth(l) + Depth(r), 1
  {
    if r.Tuple? {
      forall i | 0 <= i < |r.parts| ensures Sub(p, contra, assumed, bind, l.parts[i], r.parts[i]) {
        DepthPart(l.parts, i);
        DepthPart(r.parts, i);
        SubComplete(p, contra, R, assumed, bind, l.parts[i], r.parts[i]);
      }
    } else if r.Named? && IsShape(p, r.def) {
      CheckComplete(p, contra, R, assumed, l.def, r.def);
    }
  }

  // ---------------------------------------------------------------- approximations from above

  function All(p: Prog): set<Pair> {
    set l: nat, r: nat | l < |p| && r < |p| :: (l, r)
  }

  /** The pairs that survive `n` steps of the structural rule. */
  function Level(p: Prog, n: nat): (R: set<Pair>)
    ensures R <= All(p)
  {
    if n == 0 then All(p) else set l: nat, r: nat | l < |p| && r < |p| && DCheck(p, Level(p, n - 1), l, r) :: (l, r)
  }

  lemma LevelStep(p: Prog, n: nat, l: nat, r: nat)
    ensures (l, r) in Level(p, n + 1) <==> DCheck(p, Level(p, n), l, r)
  {
  }

  lemma {:induction false} DSubMonotone(p: Prog, R: set<Pair>, S: set<Pair>, self: Option<nat>, t: VType, u: VType)
    requires R <= S && DSub(p, R, self, t, u)
    ensures DSub(p, S, self, t, u)
    decreases Depth(t) + Depth(u), 3
  {
    if t.Union? {
      forall i | 0 <= i < |t.parts| ensures DSub(p, S, self, t.parts[i], u) {
        DepthPart(t.parts, i);
        DSubMonotone(p, R, S, self, t.parts[i], u);
      }
    } else if DCovers(p, R, self, t, u) {
      DCoversMonotone(p, R, S, self, t, u);
    } else {
      if !t.SelfType? {
        DCoversMonotone(p, R, S, self, t, Named(self.value));
      }
      if DCovers(p, R, self, SelfType, u) {
        DCoversMonotone(p, R, S, self, SelfType, u);
      } else {
        DCoversMonotone(p, R, S, self, Named(self.value), u);
      }
    }
  }

  lemma {:induction false} DCoversMonotone(p: Prog, R: set<Pair>, S: set<Pair>, self: Option<nat>, a: VType, u: VType)
    requires R <= S && DCovers(p, R, self, a, u)
    ensures DCovers(p, S, self, a, u)
    decreases Depth(a) + Depth(u), 2
  {
    if u.Union? {
      var i :| 0 <= i < |u.parts| && DCovers(p, R, self, a, u.parts[i]);
      DepthPart(u.parts, i);
      DCoversMonotone(p, R, S, self, a, u.parts[i]);
    } else if u.Tuple? {
      forall i | 0 <= i < |u.parts| ensures DSub(p, S, self, a.parts[i], u.parts[i]) {
        DepthPart(a.parts, i);
        DepthPart(u.parts, i);
        DSubMonotone(p, R, S, self, a.parts[i], u.parts[i]);
      }
    }
  }

  lemma DCheckMonotone(p: Prog, R: set<Pair>, S: set<Pair>, l: nat, r: nat)
    requires R <= S && DCheck(p, R, l, r)
    ensures DCheck(p, S, l, r)
  {
    forall i | 0 <= i < |p[r].funcs| ensures DMatch(p, S, l, p[r].funcs[i]) {
      var f := p[r].funcs[i];
      assert DMatch(p, R, l, f);
      var m := Match(p[l].funcs, f).value;
      forall k | 0 <= k < |f.params| ensures DSub(p, S, Some(l), f.params[k], m.params[k]) {
        DSubMonotone(p, R, S, Some(l), f.params[k], m.params[k]);
      }
      DSubMonotone(p, R, S, Some(l), m.result, f.result);
    }
  }

  lemma {:induction false} LevelShrinks(p: Prog, n: nat)
    ensures Level(p, n + 1) <= Level(p, n)
  {
    if n > 0 {
      LevelShrinks(p, n - 1);
      forall l: nat, r: nat | (l, r) in Level(p, n + 1) ensures (l, r) in Level(p, n) {
        LevelStep(p, n, l, r);
        DCheckMonotone(p, Level(p, n), Level(p, n - 1), l, r);
      }
    }
  }

  /** The approximations stop shrinking. */
  lemma {:induction false} Stable(p: Prog, n: nat) returns (k: nat)
    ensures Level(p, k) == Level(p, k + 1)
    decreases |Level(p, n)|
  {
    LevelShrinks(p, n);
    if Level(p, n) == Level(p, n + 1) {
      k := n;
    } else {
      SmallerSet(Level(p, n + 1), Level(p, n));
      k := Stable(p, n + 1);
    }
  }

  lemma SmallerSet(R: set<Pair>, S: set<Pair>)
    requires R < S
    ensures |R| < |S|
  {
    var x :| x in S && x !in R;
    assert R <= S - {x};
    SubsetSize(R, S - {x});
  }

  lemma BelowLevel(p: Prog, R: set<Pair>, n: nat, l: nat, r: nat)
    requires PostFixed(p, R) && (l, r) in R && (n > 0 ==> R <= Level(p, n - 1))
    ensures (l, r) in Level(p, n)
  {
    assert DCheck(p, R, l, r);
    if n > 0 {
      DCheckMonotone(p, R, Level(p, n - 1), l, r);
    }
  }

  /** Every post-fixed relation lies below every approximation. */
  lemma {:induction false} BelowLevels(p: Prog, R: set<Pair>, n: nat)
    requires PostFixed(p, R)
    ensures R <= Level(p, n)
  {
    if n > 0 {
      BelowLevels(p, R, n - 1);
    }
    forall x | x in R ensures x in Level(p, n) {
      BelowLevel(p, R, n, x.0, x.1);
    }
  }

  /** A level that no longer shrinks is the greatest relation. */
  lemma StableIsGreatest(p: Prog, n: nat)
    requires Level(p, n) == Level(p, n + 1)
    ensures PostFixed(p, Level(p, n))
    ensures forall l: nat, r: nat :: (l, r) in Level(p, n) <==> Greatest(p, l, r)
  {
    forall l: nat, r: nat | (l, r) in Level(p, n) ensures DCheck(p, Level(p, n), l, r) {
      LevelStep(p, n, l, r);
    }
    forall l: nat, r: nat ensures (l, r) in Level(p, n) <==> Greatest(p, l, r) {
      if Greatest(p, l, r) {
        var R: set<Pair> :| PostFixed(p, R) && (l, r) in R;
        BelowLevels(p, R, n);
      }
    }
  }

  // ---------------------------------------------------------------- what every accepted pair looks like

  /** The two types may be related as far as their outermost constructors tell. */
  predicate Likely(p: Prog, t: VType, u: VType)
    decreases Depth(t) + Depth(u), 1
  {
    if t.Union? then forall i | 0 <= i < |t.parts| :: DepthPart(t.parts, i); Likely(p, t.parts[i], u)
    else t.SelfType? || (t.Named? && IsShape(p, t.def)) || LikelyAtom(p, t, u)
  }

  predicate LikelyAtom(p: Prog, a: VType, u: VType)
    decreases Depth(a) + Depth(u), 0
  {
    match u
    case Dyn => true
    case Prim(_) => a == u
    case SelfType => a.Named?
    case Named(d) => a.Named? && (IsShape(p, d) || a == u)
    case Tuple(us) =>
      && a.Tuple?
      && |a.parts| == |us|
      && (forall i | 0 <= i < |us| ::
            DepthPart(a.parts, i);
            DepthPart(us, i);
            Likely(p, a.parts[i], us[i]))
    case Union(us) => exists i | 0 <= i < |us| :: DepthPart(us, i); LikelyAtom(p, a, us[i])
  }

  predicate LikelyMatch(p: Prog, l: nat, f: Func)
    requires l < |p|
  {
    var m := Match(p[l].funcs, f);
    && m.Some?
    && (forall k | 0 <= k < |f.params| :: Likely(p, f.params[k], m.value.params[k]))
    && Likely(p, m.value.result, f.result)
  }

  /** Every function of `r` has a match in `l` whose types may be related. */
  predicate Plausible(p: Prog, l: nat, r: nat) {
    l < |p| && r < |p| && forall i | 0 <= i < |p[r].funcs| :: LikelyMatch(p, l, p[r].funcs[i])
  }

  /** Whatever is assumed, the check accepts only likely pairs. */
  lemma {:induction false} SubLikely(p: Prog, contra: bool, assumed: seq<Pair>, self: nat, t: VType, u: VType)
    requires Sub(p, contra, assumed, Some(self), t, u)
    ensures Likely(p, t, u)
    decreases Depth(t) + Depth(u), 1
  {
    if t.Union? {
      forall i | 0 <= i < |t.parts| ensures Likely(p, t.parts[i], u) {
        DepthPart(t.parts, i);
        SubLikely(p, contra, assumed, self, t.parts[i], u);
      }
    } else if t.SelfType? || (t.Named? && IsShape(p, t.def)) {
    } else if Covers(p, contra, assumed, Some(self), t, u) {
      CoversLikely(p, contra, assumed, self, t, u);
    } else {
      assert SubAtom(p, contra, assumed, Some(self), t, u);
      assert Axiom(p, contra, assumed, Some(self), t, Named(self));
      assert t.Named? && !Clash(p, contra, assumed, t, self);
      NominalPath(p, contra, assumed, self, t, u);
    }
  }

  /** A named type below the bound type, which is a shape or that same type. */
  lemma {:induction false} NominalPath(p: Prog, contra: bool, assumed: seq<Pair>, self: nat, a: VType, u: VType)
    requires a.Named? && (IsShape(p, self) || a == Named(self))
    requires Covers(p, contra, assumed, Some(self), Named(self), u) || Covers(p, contra, assumed, Some(self), SelfType, u)
    ensures LikelyAtom(p, a, u)
    decreases Depth(u)
  {
    if u.Union? {
      var i :| 0 <= i < |u.parts| &&
        (Covers(p, contra, assumed, Some(self), Named(self), u.parts[i]) || Covers(p, contra, assumed, Some(self), SelfType, u.parts[i]));
      DepthPart(u.parts, i);
      NominalPath(p, contra, assumed, self, a, u.parts[i]);
    }
  }

  lemma {:induction false} CoversLikely(p: Prog, contra: bool, assumed: seq<Pair>, self: nat, a: VType, u: VType)
    requires !a.SelfType? && Covers(p, contra, assumed, Some(self), a, u)
    ensures LikelyAtom(p, a, u)
    decreases Depth(a) + Depth(u), 0
  {
    if u.Union? {
      var i :| 0 <= i < |u.parts| && Covers(p, contra, assumed, Some(self), a, u.parts[i]);
      DepthPart(u.parts, i);
      CoversLikely(p, contra, assumed, self, a, u.parts[i]);
    } else if u.Tuple? {
      forall i | 0 <= i < |u.parts| ensures Likely(p, a.parts[i], u.parts[i]) {
        DepthPart(a.parts, i);
        DepthPart(u.parts, i);
        SubLikely(p, contra, assumed, self, a.parts[i], u.parts[i]);
      }
    }
  }

  lemma CheckPlausible(p: Prog, contra: bool, assumed: seq<Pair>, l: nat, r: nat)
    requires Check(p, contra, assumed, l, r) && (l, r) !in assumed
    ensures Plausible(p, l, r)
  {
    forall i | 0 <= i < |p[r].funcs| ensures LikelyMatch(p, l, p[r].funcs[i]) {
      var f := p[r].funcs[i];
      var m := Match(p[l].funcs, f).value;
      assert Compatible(p, contra, assumed + [(l, r)], l, m, f);
      forall k | 0 <= k < |f.params| ensures Likely(p, f.params[k], m.params[k]) {
        SubLikely(p, contra, assumed + [(l, r)], l, f.params[k], m.params[k]);
      }
      SubLikely(p, contra, assumed + [(l, r)], l, m.result, f.result);
    }
  }

  // ---------------------------------------------------------------- programs without conflicts

  ghost predicate Comparable(p: Prog, t: VType, u: VType) {
    Related(p, t, u) || Related(p, u, t)
  }

  ghost predicate AgreesOn(p: Prog, r: nat, f: Func)
    requires r < |p|
  {
    var m := Match(p[r].funcs, f);
    m.Some? ==>
      && (forall k | 0 <= k < |f.params| :: Comparable(p, f.params[k], m.value.params[k]))
      && Comparable(p, f.result, m.value.result)
  }

  /** On every function that `l` shares with `r` the types compare one way or the other. */
  ghost predicate Agrees(p: Prog, l: nat, r: nat) {
    l < |p| && r < |p| && forall i | 0 <= i < |p[l].funcs| :: AgreesOn(p, r, p[l].funcs[i])
  }

  /** The definition occurs in the type. */
  predicate Mentions(t: VType, d: nat)
    decreases t
  {
    match t
    case Named(e) => e == d
    case Tuple(us) => exists i | 0 <= i < |us| :: Mentions(us[i], d)
    case Union(us) => exists i | 0 <= i < |us| :: Mentions(us[i], d)
    case _ => false
  }

  /** Comparing the match in `self` with `f`, the definition occurs on a left-hand side. */
  predicate MetIn(p: Prog, self: nat, f: Func, a: nat)
    requires self < |p|
  {
    var m := Match(p[self].funcs, f);
    m.Some? && (Mentions(m.value.result, a) || exists k | 0 <= k < |f.params| :: Mentions(f.params[k], a))
  }

  /** A check of `self` may have to decide whether `a` and `self` contradict. */
  ghost predicate Met(p: Prog, a: nat, self: nat) {
    exists r: nat, i: nat :: Plausible(p, self, r) && i < |p[r].funcs| && MetIn(p, self, p[r].funcs[i], a)
  }

  /** No two shapes conflict where the check can mistake one for the other and meet both. */
  ghost predicate Peaceful(p: Prog) {
    forall a: nat, self: nat | IsShape(p, a) && IsShape(p, self) && Plausible(p, a, self) && Met(p, a, self) ::
      Agrees(p, a, self) || Agrees(p, self, a)
  }

  lemma NotApart(p: Prog, contra: bool, assumed: seq<Pair>, t: VType, u: VType)
    requires Comparable(p, t, u)
    ensures !Apart(p, contra, assumed, t, u)
  {
    if Related(p, t, u) {
      var R: set<Pair> :| PostFixed(p, R) && DSub(p, R, None, t, u);
      SubComplete(p, contra, R, assumed, None, t, u);
    } else {
      var R: set<Pair> :| PostFixed(p, R) && DSub(p, R, None, u, t);
      SubComplete(p, contra, R, assumed, None, u, t);
    }
  }

  lemma NoConflict(p: Prog, contra: bool, assumed: seq<Pair>, l: nat, r: nat)
    requires Agrees(p, l, r)
    ensures !Conflict(p, contra, assumed, l, r)
  {
    forall i | 0 <= i < |p[l].funcs| && Match(p[r].funcs, p[l].funcs[i]).Some?
      ensures var f, m := p[l].funcs[i], Match(p[r].funcs, p[l].funcs[i]).value;
        && (forall k | 0 <= k < |f.params| :: !Apart(p, contra, assumed, f.params[k], m.params[k]))
        && !Apart(p, contra, assumed, f.result, m.result)
    {
      var f, m := p[l].funcs[i], Match(p[r].funcs, p[l].funcs[i]).value;
      assert AgreesOn(p, r, f);
      forall k | 0 <= k < |f.params| ensures !Apart(p, contra, assumed, f.params[k], m.params[k]) {
        NotApart(p, contra, assumed, f.params[k], m.params[k]);
      }
      NotApart(p, contra, assumed, f.result, m.result);
    }
  }

  // ---------------------------------------------------------------- nothing unrelated is accepted

  /** What the soundness proof keeps about the assumptions. */
  ghost predicate Trusted(p: Prog, n: nat, assumed: seq<Pair>) {
    forall l: nat, r: nat | (l, r) in assumed :: (l, r) in Level(p, n) && Plausible(p, l, r)
  }

  lemma StillTrusted(p: Prog, n: nat, assumed: seq<Pair>)
    requires n > 0 && Trusted(p, n, assumed)
    ensures Trusted(p, n - 1, assumed)
  {
    LevelShrinks(p, n - 1);
  }

  lemma NowTrusted(p: Prog, n: nat, assumed: seq<Pair>, l: nat, r: nat)
    requires Trusted(p, n, assumed) && (l, r) in Level(p, n) && Plausible(p, l, r)
    ensures Trusted(p, n, assumed + [(l, r)])
  {
  }

  lemma NoClash(p: Prog, contra: bool, assumed: seq<Pair>, n: nat, self: nat, a: VType)
    requires (contra ==> Peaceful(p)) && Trusted(p, n, assumed)
    requires a.Named? ==> Met(p, a.def, self)
    requires a.SelfType? || Axiom(p, contra, assumed, Some(self), a, Named(self))
    ensures !(contra && Clash(p, contra, assumed, a, self))
  {
    if contra && !a.SelfType? && IsShape(p, self) && IsShape(p, a.def) {
      if (a.def, self) !in assumed {
        CheckPlausible(p, contra, assumed, a.def, self);
      }
      if Agrees(p, a.def, self) {
        NoConflict(p, contra, assumed, a.def, self);
      } else {
        NoConflict(p, contra, assumed, self, a.def);
      }
    }
  }

  /** An accepted pair survives every number of steps, if the assumptions do. */
  lemma {:induction false} CheckSound(p: Prog, contra: bool, n: nat, assumed: seq<Pair>, l: nat, r: nat)
    requires (contra ==> Peaceful(p)) && Trusted(p, n, assumed)
    requires Check(p, contra, assumed, l, r)
    ensures (l, r) in Level(p, n) && Plausible(p, l, r)
    decreases n, 0
  {
    if (l, r) !in assumed {
      CheckPlausible(p, contra, assumed, l, r);
      if n > 0 {
        StillTrusted(p, n, assumed);
        CheckSound(p, contra, n - 1, assumed, l, r);
        NowTrusted(p, n - 1, assumed, l, r);
        forall i | 0 <= i < |p[r].funcs| ensures DMatch(p, Level(p, n - 1), l, p[r].funcs[i]) {
          MatchSound(p, contra, n - 1, assumed, l, r, i);
        }
      }
    }
  }

  lemma {:induction false} MatchSound(p: Prog, contra: bool, n: nat, assumed: seq<Pair>, l: nat, r: nat, i: nat)
    requires (contra ==> Peaceful(p)) && Trusted(p, n, assumed + [(l, r)])
    requires Check(p, contra, assumed, l, r) && (l, r) !in assumed && Plausible(p, l, r) && i < |p[r].funcs|
    ensures DMatch(p, Level(p, n), l, p[r].funcs[i])
    decreases n, 2
  {
    hide Peaceful, Trusted, Level;
    var f := p[r].funcs[i];
    var m := Match(p[l].funcs, f).value;
    forall a: nat | MetIn(p, l, f, a) ensures Met(p, a, l) {
      assert Plausible(p, l, r) && MetIn(p, l, p[r].funcs[i], a);
    }
    forall k | 0 <= k < |f.params| ensures DSub(p, Level(p, n), Some(l), f.params[k], m.params[k]) {
      SubSound(p, contra, n, assumed + [(l, r)], Some(l), f.params[k], m.params[k]);
    }
    SubSound(p, contra, n, assumed + [(l, r)], Some(l), m.result, f.result);
  }

  lemma {:induction false} SubSound(p: Prog, contra: bool, n: nat, assumed: seq<Pair>, bind: Option<nat>, t: VType, u: VType)
    requires (contra ==> Peaceful(p)) && Trusted(p, n, assumed)
    requires bind.Some? ==> forall a: nat | Mentions(t, a) :: Met(p, a, bind.value)
    requires Sub(p, contra, assumed, bind, t, u)
    ensures DSub(p, Level(p, n), bind, t, u)
    decreases n, 1, Depth(t) + Depth(u), 3
  {
    hide Met, Peaceful, Trusted, Level;
    if t.Union? {
      forall i | 0 <= i < |t.parts| ensures DSub(p, Level(p, n), bind, t.parts[i], u) {
        DepthPart(t.parts, i);
        SubSound(p, contra, n, assumed, bind, t.parts[i], u);
      }
    } else if Covers(p, contra, assumed, bind, t, u) {
      CoversSound(p, contra, n, assumed, bind, t, u);
    } else {
      NoClash(p, contra, assumed, n, bind.value, t);
      if !t.SelfType? {
        assert Depth(t) == 1 == Depth(Named(bind.value));
        CoversSound(p, contra, n, assumed, bind, t, Named(bind.value));
      }
      if Covers(p, contra, assumed, bind, SelfType, u) {
        CoversSound(p, contra, n, assumed, bind, SelfType, u);
      } else {
        CoversSound(p, contra, n, assumed, bind, Named(bind.value), u);
      }
    }
  }

  lemma {:induction false} CoversSound(p: Prog, contra: bool, n: nat, assumed: seq<Pair>, bind: Option<nat>, a: VType, u: VType)
    requires (contra ==> Peaceful(p)) && Trusted(p, n, assumed)
    requires bind.Some? && a.Tuple? ==> forall d: nat | Mentions(a, d) :: Met(p, d, bind.value)
    requires Covers(p, contra, assumed, bind, a, u)
    ensures DCovers(p, Level(p, n), bind, a, u)
    decreases n, 1, Depth(a) + Depth(u), 2
  {
    hide Met, Peaceful, Trusted, Level;
    if u.Union? {
      var i :| 0 <= i < |u.parts| && Covers(p, contra, assumed, bind, a, u.parts[i]);
      DepthPart(u.parts, i);
      CoversSound(p, contra, n, assumed, bind, a, u.parts[i]);
    } else if u.Tuple? {
      forall i | 0 <= i < |u.parts| ensures DSub(p, Level(p, n), bind, a.parts[i], u.parts[i]) {
        DepthPart(a.parts, i);
        DepthPart(u.parts, i);
        SubSound(p, contra, n, assumed, bind, a.parts[i], u.parts[i]);
      }
    } else if u.Named? && IsShape(p, u.def) {
      CheckSound(p, contra, n, assumed, a.def, u.def);
    }
  }

  // ---------------------------------------------------------------- main results

  /** The check accepts every pair of the greatest relation, in every program. */
  lemma AcceptsGreatest(p: Prog, contra: bool, l: nat, r: nat)
    requires Greatest(p, l, r)
    ensures Check(p, contra, [], l, r)
  {
    var R: set<Pair> :| PostFixed(p, R) && (l, r) in R;
    CheckComplete(p, contra, R, [], l, r);
  }

  /** The check decides the greatest structural relation. */
  lemma CheckIsGreatest(p: Prog, contra: bool, l: nat, r: nat)
    requires contra ==> Peaceful(p)
    ensures Check(p, contra, [], l, r) <==> Greatest(p, l, r)
  {
    if Check(p, contra, [], l, r) {
      var n := Stable(p, 0);
      StableIsGreatest(p, n);
      CheckSound(p, contra, n, [], l, r);
    }
    if Greatest(p, l, r) {
      AcceptsGreatest(p, contra, l, r);
    }
  }

  /** A query between types decides the relation that the greatest relation induces. */
  lemma QueryIsRelated(p: Prog, contra: bool, t: VType, u: VType)
    requires contra ==> Peaceful(p)
    ensures Sub(p, contra, [], None, t, u) <==> Related(p, t, u)
  {
    if Sub(p, contra, [], None, t, u) {
      var n := Stable(p, 0);
      StableIsGreatest(p, n);
      SubSound(p, contra, n, [], None, t, u);
    }
    if Related(p, t, u) {
      var R: set<Pair> :| PostFixed(p, R) && DSub(p, R, None, t, u);
      SubComplete(p, contra, R, [], None, t, u);
    }
  }

  /** The contradiction axioms can only add answers. */
  lemma ContradictionsOnlyAdd(p: Prog, l: nat, r: nat)
    requires Check(p, false, [], l, r)
    ensures Check(p, true, [], l, r)
  {
    CheckIsGreatest(p, false, l, r);
    AcceptsGreatest(p, true, l, r);
  }

  // ---------------------------------------------------------------- programs without the self type

  predicate SelfFree(t: VType)
    decreases t
  {
    match t
    case SelfType => false
    case Tuple(us) => forall i | 0 <= i < |us| :: SelfFree(us[i])
    case Union(us) => forall i | 0 <= i < |us| :: SelfFree(us[i])
    case _ => true
  }

  predicate SelfFreeFunc(f: Func) {
    (forall i | 0 <= i < |f.params| :: SelfFree(f.params[i])) && SelfFree(f.result)
  }

  /** No signature mentions the self type. */
  predicate SelfFreeProg(p: Prog) {
    forall d, f | 0 <= d < |p| && f in p[d].funcs :: SelfFreeFunc(f)
  }

  ghost predicate Transitive(R: set<Pair>) {
    forall x: nat, y: nat, z: nat | (x, y) in R && (y, z) in R :: (x, z) in R
  }

  /** What holds without a self type holds with one. */
  lemma {:induction false} Bound(p: Prog, R: set<Pair>, self: Option<nat>, t: VType, u: VType)
    requires DSub(p, R, None, t, u)
    ensures DSub(p, R, self, t, u)
    decreases Depth(t) + Depth(u), 2
  {
    if t.Union? {
      forall i | 0 <= i < |t.parts| ensures DSub(p, R, self, t.parts[i], u) {
        DepthPart(t.parts, i);
        Bound(p, R, self, t.parts[i], u);
      }
    } else {
      BoundCovers(p, R, self, t, u);
    }
  }

  lemma {:induction false} BoundCovers(p: Prog, R: set<Pair>, self: Option<nat>, a: VType, u: VType)
    requires DCovers(p, R, None, a, u)
    ensures DCovers(p, R, self, a, u)
    decreases Depth(a) + Depth(u), 1
  {
    if u.Union? {
      var i :| 0 <= i < |u.parts| && DCovers(p, R, None, a, u.parts[i]);
      DepthPart(u.parts, i);
      BoundCovers(p, R, self, a, u.parts[i]);
    } else if u.Tuple? {
      forall i | 0 <= i < |u.parts| ensures DSub(p, R, self, a.parts[i], u.parts[i]) {
        DepthPart(a.parts, i);
        DepthPart(u.parts, i);
        Bound(p, R, self, a.parts[i], u.parts[i]);
      }
    }
  }

  /** Over a transitive relation the way through the self type leads nowhere new. */
  lemma {:induction false} Unbound(p: Prog, R: set<Pair>, self: Option<nat>, t: VType, u: VType)
    requires Transitive(R) && SelfFree(t) && SelfFree(u) && DSub(p, R, self, t, u)
    ensures DSub(p, R, None, t, u)
    decreases Depth(t) + Depth(u), 2
  {
    if t.Union? {
      forall i | 0 <= i < |t.parts| ensures DSub(p, R, None, t.parts[i], u) {
        DepthPart(t.parts, i);
        Unbound(p, R, self, t.parts[i], u);
      }
    } else if DCovers(p, R, self, t, u) {
      UnboundCovers(p, R, self, t, u);
    } else {
      assert DAtom(p, R, self, t, u) && DAxiom(p, R, self, t, Named(self.value));
      ThroughSelf(p, R, self, t, u);
    }
  }

  lemma {:induction false} UnboundCovers(p: Prog, R: set<Pair>, self: Option<nat>, a: VType, u: VType)
    requires Transitive(R) && SelfFree(a) && SelfFree(u) && DCovers(p, R, self, a, u)
    ensures DCovers(p, R, None, a, u)
    decreases Depth(a) + Depth(u), 1
  {
    if u.Union? {
      var i :| 0 <= i < |u.parts| && DCovers(p, R, self, a, u.parts[i]);
      DepthPart(u.parts, i);
      UnboundCovers(p, R, self, a, u.parts[i]);
    } else if u.Tuple? {
      forall i | 0 <= i < |u.parts| ensures DSub(p, R, None, a.parts[i], u.parts[i]) {
        DepthPart(a.parts, i);
        DepthPart(u.parts, i);
        Unbound(p, R, self, a.parts[i], u.parts[i]);
      }
    }
  }

  lemma {:induction false} ThroughSelf(p: Prog, R: set<Pair>, self: Option<nat>, a: VType, u: VType)
    requires Transitive(R) && SelfFree(u) && self.Some? && DAxiom(p, R, self, a, Named(self.value))
    requires DCovers(p, R, self, Named(self.value), u) || DCovers(p, R, self, SelfType, u)
    ensures DCovers(p, R, None, a, u)
    decreases Depth(u)
  {
    if u.Union? {
      var i :| 0 <= i < |u.parts| &&
        (DCovers(p, R, self, Named(self.value), u.parts[i]) || DCovers(p, R, self, SelfType, u.parts[i]));
      DepthPart(u.parts, i);
      ThroughSelf(p, R, self, a, u.parts[i]);
    }
  }

  lemma {:induction false} DSubTransitive(p: Prog, R: set<Pair>, a: VType, b: VType, c: VType)
    requires Transitive(R) && DSub(p, R, None, a, b) && DSub(p, R, None, b, c)
    ensures DSub(p, R, None, a, c)
    decreases Depth(a) + Depth(b) + Depth(c)
  {
    if a.Union? {
      forall i | 0 <= i < |a.parts| ensures DSub(p, R, None, a.parts[i], c) {
        DepthPart(a.parts, i);
        DSubTransitive(p, R, a.parts[i], b, c);
      }
    } else if b.Union? {
      assert DAtom(p, R, None, a, b) && DCovers(p, R, None, a, b);
      var i :| 0 <= i < |b.parts| && DCovers(p, R, None, a, b.parts[i]);
      DepthPart(b.parts, i);
      assert DSub(p, R, None, a, b.parts[i]);
      DSubTransitive(p, R, a, b.parts[i], c);
    } else if c.Union? {
      assert DAtom(p, R, None, b, c) && DCovers(p, R, None, b, c);
      var i :| 0 <= i < |c.parts| && DCovers(p, R, None, b, c.parts[i]);
      DepthPart(c.parts, i);
      DSubTransitive(p, R, a, b, c.parts[i]);
      assert DCovers(p, R, None, a, c.parts[i]);
    } else {
      assert DCovers(p, R, None, b, c) && DCovers(p, R, None, a, b);
      assert DAxiom(p, R, None, b, c) && DAxiom(p, R, None, a, b);
      if c.Tuple? {
        forall i | 0 <= i < |c.parts| ensures DSub(p, R, None, a.parts[i], c.parts[i]) {
          DepthPart(a.parts, i);
          DepthPart(b.parts, i);
          DepthPart(c.parts, i);
          DSubTransitive(p, R, a.parts[i], b.parts[i], c.parts[i]);
        }
      }
      assert DAxiom(p, R, None, a, c);
    }
  }

  /** The match, without the way through the self type. */
  predicate PlainMatch(p: Prog, R: set<Pair>, l: nat, f: Func)
    requires l < |p|
  {
    var m := Match(p[l].funcs, f);
    m.Some? && DCompatible(p, R, None, m.value, f)
  }

  predicate PlainCheck(p: Prog, R: set<Pair>, l: nat, r: nat) {
    l < |p| && r < |p| && forall i | 0 <= i < |p[r].funcs| :: PlainMatch(p, R, l, p[r].funcs[i])
  }

  ghost predicate PlainPostFixed(p: Prog, R: set<Pair>) {
    forall l: nat, r: nat | (l, r) in R :: PlainCheck(p, R, l, r)
  }

  lemma PlainIsCheck(p: Prog, R: set<Pair>, l: nat, r: nat)
    ensures PlainCheck(p, R, l, r) ==> DCheck(p, R, l, r)
    ensures SelfFreeProg(p) && Transitive(R) && DCheck(p, R, l, r) ==> PlainCheck(p, R, l, r)
  {
    if PlainCheck(p, R, l, r) {
      forall i | 0 <= i < |p[r].funcs| ensures DMatch(p, R, l, p[r].funcs[i]) {
        assert PlainMatch(p, R, l, p[r].funcs[i]);
        MatchWithSelf(p, R, l, p[r].funcs[i]);
      }
    }
    if SelfFreeProg(p) && Transitive(R) && DCheck(p, R, l, r) {
      forall i | 0 <= i < |p[r].funcs| ensures PlainMatch(p, R, l, p[r].funcs[i]) {
        assert DMatch(p, R, l, p[r].funcs[i]);
        MatchWithoutSelf(p, R, l, p[r].funcs[i]);
      }
    }
  }

  lemma MatchWithSelf(p: Prog, R: set<Pair>, l: nat, f: Func)
    requires l < |p| && PlainMatch(p, R, l, f)
    ensures DMatch(p, R, l, f)
  {
    var m := Match(p[l].funcs, f).value;
    forall k | 0 <= k < |f.params| ensures DSub(p, R, Some(l), f.params[k], m.params[k]) {
      Bound(p, R, Some(l), f.params[k], m.params[k]);
    }
    Bound(p, R, Some(l), m.result, f.result);
  }

  lemma MatchWithoutSelf(p: Prog, R: set<Pair>, l: nat, f: Func)
    requires l < |p| && SelfFreeProg(p) && SelfFreeFunc(f) && Transitive(R) && DMatch(p, R, l, f)
    ensures PlainMatch(p, R, l, f)
  {
    var m := Match(p[l].funcs, f).value;
    assert SelfFreeFunc(m);
    forall k | 0 <= k < |f.params| ensures DSub(p, R, None, f.params[k], m.params[k]) {
      Unbound(p, R, Some(l), f.params[k], m.params[k]);
    }
    Unbound(p, R, Some(l), m.result, f.result);
  }

  /** Functions with the same key have the same match. */
  lemma {:induction false} MatchByKey(funcs: seq<Func>, f: Func, g: Func)
    requires SameKey(f, g)
    ensures Match(funcs, f) == Match(funcs, g)
  {
    if funcs != [] {
      MatchByKey(funcs[1..], f, g);
    }
  }

  lemma PlainTransitive(p: Prog, R: set<Pair>, x: nat, y: nat, z: nat)
    requires Transitive(R) && PlainCheck(p, R, x, y) && PlainCheck(p, R, y, z)
    ensures PlainCheck(p, R, x, z)
  {
    forall i | 0 <= i < |p[z].funcs| ensures PlainMatch(p, R, x, p[z].funcs[i]) {
      var f := p[z].funcs[i];
      assert PlainMatch(p, R, y, f);
      var m := Match(p[y].funcs, f).value;
      assert PlainMatch(p, R, x, m);
      var k := Match(p[x].funcs, m).value;
      MatchByKey(p[x].funcs, m, f);
      forall j | 0 <= j < |f.params| ensures DSub(p, R, None, f.params[j], k.params[j]) {
        DSubTransitive(p, R, f.params[j], m.params[j], k.params[j]);
      }
      DSubTransitive(p, R, k.result, m.result, f.result);
    }
  }

  lemma {:induction false} LevelTransitive(p: Prog, n: nat)
    requires SelfFreeProg(p)
    ensures Transitive(Level(p, n))
  {
    if n > 0 {
      LevelTransitive(p, n - 1);
      var R := Level(p, n - 1);
      forall x: nat, y: nat, z: nat | (x, y) in Level(p, n) && (y, z) in Level(p, n) ensures (x, z) in Level(p, n) {
        PlainIsCheck(p, R, x, y);
        PlainIsCheck(p, R, y, z);
        PlainTransitive(p, R, x, y, z);
        PlainIsCheck(p, R, x, z);
      }
    }
  }

  /** Without the self type the relation is transitive, and the greatest of the rule that knows no self type. */
  lemma GreatestIsPlain(p: Prog, l: nat, r: nat)
    requires SelfFreeProg(p)
    ensures Greatest(p, l, r) <==> exists R: set<Pair> :: PlainPostFixed(p, R) && (l, r) in R
    ensures forall m: nat | Greatest(p, l, r) && Greatest(p, r, m) :: Greatest(p, l, m)
  {
    var n := Stable(p, 0);
    var G := Level(p, n);
    StableIsGreatest(p, n);
    LevelTransitive(p, n);
    forall x: nat, y: nat | (x, y) in G ensures PlainCheck(p, G, x, y) {
      PlainIsCheck(p, G, x, y);
    }
    assert PlainPostFixed(p, G);
    if R: set<Pair> :| PlainPostFixed(p, R) && (l, r) in R {
      forall x: nat, y: nat | (x, y) in R ensures DCheck(p, R, x, y) {
        PlainIsCheck(p, R, x, y);
      }
      assert PostFixed(p, R);
    }
  }

  /** And queries between types compose. */
  lemma QueryTransitive(p: Prog, contra: bool, a: VType, b: VType, c: VType)
    requires SelfFreeProg(p) && (contra ==> Peaceful(p))
    requires Sub(p, contra, [], None, a, b) && Sub(p, contra, [], None, b, c)
    ensures Sub(p, contra, [], None, a, c)
  {
    var n := Stable(p, 0);
    StableIsGreatest(p, n);
    LevelTransitive(p, n);
    SubSound(p, contra, n, [], None, a, b);
    SubSound(p, contra, n, [], None, b, c);
    DSubTransitive(p, Level(p, n), a, b, c);
    SubComplete(p, contra, Level(p, n), [], None, a, c);
  }

  /** Related definitions never conflict. */
  lemma RelatedAgree(p: Prog, l: nat, r: nat)
    requires SelfFreeProg(p) && Greatest(p, l, r)
    ensures Agrees(p, r, l)
  {
    var n := Stable(p, 0);
    var G := Level(p, n);
    StableIsGreatest(p, n);
    LevelTransitive(p, n);
    assert PostFixed(p, G) && (l, r) in G;
    PlainIsCheck(p, G, l, r);
    forall i | 0 <= i < |p[r].funcs| ensures AgreesOn(p, l, p[r].funcs[i]) {
      assert PlainMatch(p, G, l, p[r].funcs[i]);
    }
  }

  // ---------------------------------------------------------------- programs with it

  /** Two shapes with a parameter of the self type, one of them with a further function, and a third shape. */
  const BINARY: Prog :=
    [ Def(true, [Func("f", false, [SelfType], Dyn), Func("g", false, [], Dyn)]),
      Def(true, [Func("f", false, [SelfType], Dyn)]),
      Def(true, [Func("f", false, [Named(1)], Dyn)]) ]

  /** 1 takes its own kind, and so does 0; 1 is taken where 2 takes it. */
  lemma BinaryRelates()
    ensures PostFixed(BINARY, {(0, 1), (1, 1), (1, 2)})
  {
    var p := BINARY;
    var R: set<Pair> := {(0, 1), (1, 1), (1, 2)};
    var f, m := p[1].funcs[0], p[2].funcs[0];
    assert SameKey(f, m) && p[0].funcs[0] == f;
    assert DSub(p, R, Some(0), SelfType, SelfType) && DSub(p, R, Some(1), SelfType, SelfType);
    assert DAtom(p, R, Some(1), Named(1), SelfType) by {
      assert DAxiom(p, R, Some(1), Named(1), Named(1)) && DCovers(p, R, Some(1), SelfType, SelfType);
    }
    assert DSub(p, R, Some(0), Dyn, Dyn) && DSub(p, R, Some(1), Dyn, Dyn);
    assert DCompatible(p, R, Some(0), f, f) && DCompatible(p, R, Some(1), f, f) && DCompatible(p, R, Some(1), f, m);
    assert DMatch(p, R, 0, f) && DMatch(p, R, 1, f) && DMatch(p, R, 1, m);
  }

  /** But 0 does not take 1, which lacks a function. */
  lemma BinarySeparates(S: set<Pair>)
    requires PostFixed(BINARY, S)
    ensures (0, 2) !in S
  {
    var p := BINARY;
    assert (1, 0) !in S by {
      assert Match(p[1].funcs, p[0].funcs[1]).None?;
      assert !DMatch(p, S, 1, p[0].funcs[1]);
    }
    assert !DAtom(p, S, Some(0), Named(1), SelfType) by {
      assert !DAxiom(p, S, Some(0), Named(1), SelfType) && !DAxiom(p, S, Some(0), Named(1), Named(0));
    }
    assert !DSub(p, S, Some(0), Named(1), SelfType);
    var f, m := p[2].funcs[0], p[0].funcs[0];
    assert Match(p[0].funcs, f) == Some(m);
    assert f.params[0] == Named(1) && m.params[0] == SelfType;
    assert !DCompatible(p, S, Some(0), m, f);
    assert !DMatch(p, S, 0, f);
  }

  /** The self type is another one for each left-hand side, so the relation need not be transitive. */
  lemma SelfIsNotTransitive()
    ensures Greatest(BINARY, 0, 1) && Greatest(BINARY, 1, 2) && !Greatest(BINARY, 0, 2)
    ensures Check(BINARY, false, [], 0, 1) && Check(BINARY, false, [], 1, 2) && !Check(BINARY, false, [], 0, 2)
  {
    hide PostFixed, Check;
    BinaryRelates();
    forall S: set<Pair> | PostFixed(BINARY, S) ensures (0, 2) !in S {
      BinarySeparates(S);
    }
    CheckIsGreatest(BINARY, false, 0, 1);
    CheckIsGreatest(BINARY, false, 1, 2);
    CheckIsGreatest(BINARY, false, 0, 2);
  }
}
