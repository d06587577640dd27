/**
 Structural subtyping of shapes (vc/subtype.h, vc/subtype.cc:143-403), without generics: named types take
 no arguments and functions have no type parameters.

 `Sub` is what the proof engine computes in the contexts that `check_shape_subtype` builds: with the self
 type bound both ways to the type being checked, or with no binding.  `contra` says whether the table of
 contradiction axioms is consulted; the source always consults it.
 */
module Shapes {
  import opened Collections

  datatype VType =
    | Dyn
    | Prim(index: nat)
    | SelfType
    | Named(def: nat)
    | Tuple(parts: seq<VType>)
    | Union(parts: seq<VType>)

  datatype Func = Func(name: string, ref: bool, params: seq<VType>, result: VType)

  datatype Def = Def(shape: bool, funcs: seq<Func>)

  type Prog = seq<Def>

  type Pair = (nat, nat)

  predicate IsShape(p: Prog, d: nat) {
    d < |p| && p[d].shape
  }

  // ---------------------------------------------------------------- matching functions

  /** Same name, handedness and number of parameters. */
  predicate SameKey(f: Func, g: Func) {
    f.name == g.name && f.ref == g.ref && |f.params| == |g.params|
  }

  function Match(funcs: seq<Func>, f: Func): (m: Option<Func>)
    ensures m.Some? ==> m.value in funcs && SameKey(m.value, f)
  {
    if funcs == [] then None
    else if SameKey(funcs[0], f) then Some(funcs[0])
    else Match(funcs[1..], f)
  }

  predicate FirstMatch(funcs: seq<Func>, f: Func, i: nat)
    requires i < |funcs|
  {
    SameKey(funcs[i], f) && forall j | 0 <= j < i :: !SameKey(funcs[j], f)
  }

  method FindMatchingFunction(def: Def, f: Func) returns (m: Option<Func>)
    ensures m == Match(def.funcs, f)
    ensures m.None? ==> forall i | 0 <= i < |def.funcs| :: !SameKey(def.funcs[i], f)
    ensures m.Some? ==> exists i | 0 <= i < |def.funcs| :: FirstMatch(def.funcs, f, i) && m.value == def.funcs[i]
  {
    for i := 0 to |def.funcs|
      invariant Match(def.funcs, f) == Match(def.funcs[i..], f)
      invariant forall j | 0 <= j < i :: !SameKey(def.funcs[j], f)
    {
      var child := def.funcs[i];
      if SameKey(child, f) {
        assert FirstMatch(def.funcs, f, i);
        return Some(child);
      }
    }
    return None;
  }

  // ---------------------------------------------------------------- termination

  function Depth(t: VType): (n: nat)
    ensures n > 0
    decreases t, 0
  {
    match t
    case Tuple(us) => 1 + DepthAll(us)
    case Union(us) => 1 + DepthAll(us)
    case _ => 1
  }

  function DepthAll(ts: seq<VType>): nat
    decreases ts, 1
  {
    if ts == [] then 0 else Depth(ts[0]) + DepthAll(ts[1..])
  }

  lemma DepthPart(ts: seq<VType>, i: nat)
    requires i < |ts|
    ensures Depth(ts[i]) <= DepthAll(ts)
  {
    if i > 0 {
      DepthPart(ts[1..], i - 1);
    }
  }

  /** The pairs that are not assumed yet. */
  function Unassumed(p: Prog, assumed: seq<Pair>): set<Pair> {
    set l: nat, r: nat | l < |p| && r < |p| && (l, r) !in assumed :: (l, r)
  }

  lemma AssumingShrinks(p: Prog, assumed: seq<Pair>, l: nat, r: nat)
    requires l < |p| && r < |p| && (l, r) !in assumed
    ensures Unassumed(p, assumed + [(l, r)]) < Unassumed(p, assumed)
    ensures Unassumed(p, assumed + [(l, r)]) == Unassumed(p, assumed) - {(l, r)}
  {
    assert (l, r) in Unassumed(p, assumed) && (l, r) !in Unassumed(p, assumed + [(l, r)]);
  }

  function Mode(bind: Option<nat>): nat { if bind.Some? then 3 else 1 }

  // ---------------------------------------------------------------- the check

  /** A union on the left is taken apart. */
  predicate Sub(p: Prog, contra: bool, assumed: seq<Pair>, bind: Option<nat>, t: VType, u: VType)
    decreases Unassumed(p, assumed), Mode(bind), Depth(t) + Depth(u), 3
  {
    if t.Union? then forall i | 0 <= i < |t.parts| :: DepthPart(t.parts, i); Sub(p, contra, assumed, bind, t.parts[i], u)
    else SubAtom(p, contra, assumed, bind, t, u)
  }

  /** An atom is below `u` directly, or by way of the type that the self type is bound to. */
  predicate SubAtom(p: Prog, contra: bool, assumed: seq<Pair>, bind: Option<nat>, a: VType, u: VType)
    decreases Unassumed(p, assumed), Mode(bind), Depth(a) + Depth(u), 2
  {
    || Covers(p, contra, assumed, bind, a, u)
    || (bind.Some?
        && (a.SelfType? || Axiom(p, contra, assumed, bind, a, Named(bind.value)))
        && (|| (contra && Clash(p, contra, assumed, a, bind.value))
            || Covers(p, contra, assumed, bind, Named(bind.value), u)
            || Covers(p, contra, assumed, bind, SelfType, u)))
  }

  /** A union on the right needs one alternative. */
  predicate Covers(p: Prog, contra: bool, assumed: seq<Pair>, bind: Option<nat>, a: VType, u: VType)
    decreases Unassumed(p, assumed), Mode(bind), Depth(a) + Depth(u), 1
  {
    if u.Union? then exists i | 0 <= i < |u.parts| :: DepthPart(u.parts, i); Covers(p, contra, assumed, bind, a, u.parts[i])
    else Axiom(p, contra, assumed, bind, a, u)
  }

  /** The axiom table: anything proves Dyn, tuples are covariant, shapes structural, the rest equality. */
  predicate Axiom(p: Prog, contra: bool, assumed: seq<Pair>, bind: Option<nat>, l: VType, r: VType)
    decreases Unassumed(p, assumed), Mode(bind), Depth(l) + Depth(r), 0
  {
    match r
    case Dyn => true
    case Prim(_) => l == r
    case SelfType => l == r
    case Named(d) => l.Named? && if IsShape(p, d) then Check(p, contra, assumed, l.def, d) else l == r
    case Tuple(us) =>
      && l.Tuple?
      && |l.parts| == |us|
      && (forall i | 0 <= i < |us| ::
            DepthPart(l.parts, i);
            DepthPart(us, i);
            Sub(p, contra, assumed, bind, l.parts[i], us[i]))
    case Union(_) => false
  }

  /** `check_shape_subtype`: assumed already, or every function of the shape has a compatible match. */
  predicate Check(p: Prog, contra: bool, assumed: seq<Pair>, l: nat, r: nat)
    decreases Unassumed(p, assumed), 0
  {
    || (l, r) in assumed
    || (l < |p| && r < |p| &&
        (AssumingShrinks(p, assumed, l, r);
         forall i | 0 <= i < |p[r].funcs| ::
           Match(p[l].funcs, p[r].funcs[i]).Some? &&
           Compatible(p, contra, assumed + [(l, r)], l, Match(p[l].funcs, p[r].funcs[i]).value, p[r].funcs[i])))
  }

  /** Parameters contravariant, results covariant. */
  predicate Compatible(p: Prog, contra: bool, assumed: seq<Pair>, self: nat, m: Func, f: Func)
    requires SameKey(m, f)
    decreases Unassumed(p, assumed), 4
  {
    && (forall i | 0 <= i < |f.params| ::
          !DefinitelyNot(p, f.params[i], m.params[i]) &&
          Sub(p, contra, assumed, Some(self), f.params[i], m.params[i]))
    && !DefinitelyNot(p, m.result, f.result)
    && Sub(p, contra, assumed, Some(self), m.result, f.result)
  }

  /** The contradiction axiom for an atom and the named type `d`. */
  predicate Clash(p: Prog, contra: bool, assumed: seq<Pair>, a: VType, d: nat)
    decreases Unassumed(p, assumed), 2, 1
  {
    if a.SelfType? then false
    else if !a.Named? then !IsShape(p, d)
    else if IsShape(p, d) then
      if IsShape(p, a.def) then Conflict(p, contra, assumed, a.def, d) && Conflict(p, contra, assumed, d, a.def)
      else !Check(p, contra, assumed, a.def, d)
    else if IsShape(p, a.def) then !Check(p, contra, assumed, d, a.def)
    else a.def != d
  }

  /** Neither type is below the other. */
  predicate Apart(p: Prog, contra: bool, assumed: seq<Pair>, t: VType, u: VType)
    decreases Unassumed(p, assumed), 1, Depth(t) + Depth(u), 4
  {
    !Sub(p, contra, assumed, None, t, u) && !Sub(p, contra, assumed, None, u, t)
  }

  /** `shape_functions_conflict`: some shared function has types that compare neither way. */
  predicate Conflict(p: Prog, contra: bool, assumed: seq<Pair>, l: nat, r: nat)
    decreases Unassumed(p, assumed), 2, 0
  {
    l < |p| && r < |p| &&
    exists i | 0 <= i < |p[l].funcs| ::
      var f, m := p[l].funcs[i], Match(p[r].funcs, p[l].funcs[i]);
      m.Some? &&
      ((exists k | 0 <= k < |f.params| :: Apart(p, contra, assumed, f.params[k], m.value.params[k]))
       || Apart(p, contra, assumed, f.result, m.value.result))
  }

  /** `definitely_not_subtype`: a quick refusal. */
  predicate DefinitelyNot(p: Prog, l: VType, r: VType)
    decreases Depth(l) + Depth(r)
  {
    if l.Dyn? || l.SelfType? || l.Union? || r.Dyn? || r.SelfType? || r.Union? then false
    else if l.Tuple? || r.Tuple? then
      || !l.Tuple? || !r.Tuple?
      || |l.parts| != |r.parts|
      || exists i | 0 <= i < |l.parts| ::
           DepthPart(l.parts, i);
           DepthPart(r.parts, i);
           DefinitelyNot(p, l.parts[i], r.parts[i]) || DefinitelyNot(p, r.parts[i], l.parts[i])
    else if l.Prim? || r.Prim? then l != r
    else !IsShape(p, l.def) && !IsShape(p, r.def) && l.def != r.def
  }
}
