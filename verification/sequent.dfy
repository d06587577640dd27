/**
 The proof engine behind the compiler's two subtype checks (virc/analysis/sequent.h).

 A sequent is searched by taking formulas off two pending lists.  `Derives` is the search
 as a function of its state, `Reduce` the source's loop over the same state.  The meaning of a
 sequent is given by models: sets of atoms that are closed under the axioms and hold no two
 contradicting atoms.  Soundness holds for every table of axioms, including axioms that inspect the
 implications collected so far; completeness is characterized exactly by `Lawful`.
 */
module Sequents {

  type Token = string

  /** A type expression as the engine sees it: five kinds of connective over uninterpreted atoms. */
  datatype Formula<A> =
    | Atom(atom: A)
    | Wrap(parts: seq<Formula<A>>)
    | Or(parts: seq<Formula<A>>)
    | And(parts: seq<Formula<A>>)
    | Not(body: Formula<A>)
    | Implies(from: Formula<A>, to: Formula<A>)

  /** What an axiom may look at besides the two atoms. */
  datatype Ctx<A> = Ctx(implies: seq<Formula<A>>, assumptions: seq<Formula<A>>)

  type Axiom<!A> = (Ctx<A>, A, A) -> bool

  datatype Calculus<!A> = Calculus(
    token: A -> Token,
    axioms: map<Token, Axiom<A>>,
    contradictionAxioms: map<Token, Axiom<A>>)

  datatype State<A> = State(
    ctx: Ctx<A>,
    lhsPending: seq<Formula<A>>,
    rhsPending: seq<Formula<A>>,
    lhsAtomic: seq<A>,
    rhsAtomic: seq<A>)

  // ---------------------------------------------------------------- axiom lookup

  /** An atom on the right is proved by the axiom registered for its own token, if there is one. */
  predicate Proves<A>(c: Calculus<A>, ctx: Ctx<A>, l: A, r: A) {
    c.token(r) in c.axioms && c.axioms[c.token(r)](ctx, l, r)
  }

  /** Two assumed atoms contradict; the registered contradiction axioms take priority. */
  predicate Contradicts<A>(c: Calculus<A>, ctx: Ctx<A>, l: A, r: A) {
    var hasR := c.token(r) in c.contradictionAxioms;
    var hasL := c.token(l) in c.contradictionAxioms;
    if hasR && !c.contradictionAxioms[c.token(r)](ctx, l, r) then false
    else if hasL && !c.contradictionAxioms[c.token(l)](ctx, r, l) then false
    else if hasR || hasL then true
    else if Proves(c, ctx, l, r) then false
    else !Proves(c, ctx, r, l)
  }

  /** Contradiction is symmetric whatever axioms are registered. */
  lemma ContradictsSymmetric<A>(c: Calculus<A>, ctx: Ctx<A>, l: A, r: A)
    ensures Contradicts(c, ctx, l, r) == Contradicts(c, ctx, r, l)
  {
  }

  // ---------------------------------------------------------------- termination measure

  function Size<A>(f: Formula<A>): (n: nat)
    ensures n > 0
    decreases f, 0
  {
    match f
    case Atom(_) => 1
    case Wrap(ps) => 1 + Weight(ps)
    case Or(ps) => 1 + Weight(ps)
    case And(ps) => 1 + Weight(ps)
    case Not(p) => 1 + Size(p)
    case Implies(p, q) => 1 + Size(p) + Size(q)
  }

  function Weight<A>(fs: seq<Formula<A>>): nat
    decreases fs, 1
  {
    if fs == [] then 0 else Weight(fs[..|fs| - 1]) + Size(fs[|fs| - 1])
  }

  lemma WeightAppend<A>(fs: seq<Formula<A>>, gs: seq<Formula<A>>)
    ensures Weight(fs + gs) == Weight(fs) + Weight(gs)
  {
    if gs == [] {
      assert fs + gs == fs;
    } else {
      var n := |gs| - 1;
      assert (fs + gs)[..|fs + gs| - 1] == fs + gs[..n];
      WeightAppend(fs, gs[..n]);
    }
  }

  lemma WeightPart<A>(fs: seq<Formula<A>>, i: nat)
    requires i < |fs|
    ensures Size(fs[i]) <= Weight(fs)
  {
    if i < |fs| - 1 {
      WeightPart(fs[..|fs| - 1], i);
    }
  }

  function Measure<A>(s: State<A>): nat {
    Weight(s.lhsPending) + Weight(s.rhsPending)
  }

  // ---------------------------------------------------------------- the search

  function Last<T>(xs: seq<T>): T
    requires xs != []
  {
    xs[|xs| - 1]
  }

  function Init<T>(xs: seq<T>): seq<T>
    requires xs != []
  {
    xs[..|xs| - 1]
  }

  function PushL<A>(s: State<A>, fs: seq<Formula<A>>): (t: State<A>)
    ensures Measure(t) == Measure(s) + Weight(fs)
  {
    WeightAppend(s.lhsPending, fs);
    s.(lhsPending := s.lhsPending + fs)
  }

  function PushR<A>(s: State<A>, fs: seq<Formula<A>>): (t: State<A>)
    ensures Measure(t) == Measure(s) + Weight(fs)
  {
    WeightAppend(s.rhsPending, fs);
    s.(rhsPending := s.rhsPending + fs)
  }

  /** An implication taken off the left is remembered, once, for the axioms. */
  function Remember<A(==)>(s: State<A>, f: Formula<A>): (t: State<A>)
    ensures Measure(t) == Measure(s)
  {
    if f in s.ctx.implies then s else s.(ctx := s.ctx.(implies := s.ctx.implies + [f]))
  }

  /** Whether the search succeeds from `s`. */
  predicate Derives<A(==)>(c: Calculus<A>, s: State<A>)
    decreases Measure(s)
  {
    if s.rhsPending != [] then
      var f := Last(s.rhsPending);
      var t := s.(rhsPending := Init(s.rhsPending));
      assert Measure(t) + Size(f) == Measure(s);
      match f
      case Wrap(ps) => Derives(c, PushR(t, ps))
      case Or(ps) => Derives(c, PushR(t, ps))
      case And(ps) => forall i | 0 <= i < |ps| :: WeightPart(ps, i); Derives(c, PushR(t, [ps[i]]))
      case Not(p) => Derives(c, PushL(t, [p]))
      case Implies(p, q) => Derives(c, PushR(PushL(t, [p]), [q]))
      case Atom(a) => Derives(c, t.(rhsAtomic := t.rhsAtomic + [a]))
    else if s.lhsPending != [] then
      var f := Last(s.lhsPending);
      var t := s.(lhsPending := Init(s.lhsPending));
      assert Measure(t) + Size(f) == Measure(s);
      match f
      case Wrap(ps) => Derives(c, PushL(t, ps))
      case And(ps) => Derives(c, PushL(t, ps))
      case Or(ps) => forall i | 0 <= i < |ps| :: WeightPart(ps, i); Derives(c, PushL(t, [ps[i]]))
      case Not(p) => Derives(c, PushR(t, [p]))
      case Implies(p, q) =>
        Derives(c, PushR(Remember(t, f), [p])) && Derives(c, PushL(Remember(t, f), [q]))
      case Atom(a) =>
        (exists x | x in t.lhsAtomic :: Contradicts(c, t.ctx, x, a)) ||
        Derives(c, t.(lhsAtomic := t.lhsAtomic + [a]))
    else
      Closes(c, s)
  }

  predicate Closes<A(==)>(c: Calculus<A>, s: State<A>) {
    exists l | l in s.lhsAtomic :: exists r | r in s.rhsAtomic :: Proves(c, s.ctx, l, r)
  }

  /** The state in which a query `l` against `r` starts. */
  function Start<A>(ctx: Ctx<A>, l: Formula<A>, r: Formula<A>): State<A> {
    State(Ctx([], ctx.assumptions), ctx.implies + [l], [r], [], [])
  }

  predicate Entails<A(==)>(c: Calculus<A>, ctx: Ctx<A>, l: Formula<A>, r: Formula<A>) {
    Derives(c, Start(ctx, l, r))
  }

  predicate Invariant<A(==)>(c: Calculus<A>, ctx: Ctx<A>, l: Formula<A>, r: Formula<A>) {
    Entails(c, ctx, l, r) && Entails(c, ctx, r, l)
  }

  // ---------------------------------------------------------------- the search as a loop

  /** `split_right` for each part in turn: the split works on a copy of the state. */
  method SplitAllRight<A(==)>(c: Calculus<A>, s: State<A>, parts: seq<Formula<A>>) returns (ok: bool)
    ensures ok == forall i | 0 <= i < |parts| :: Derives(c, PushR(s, [parts[i]]))
    decreases Measure(s) + Weight(parts), 2
  {
    for i := 0 to |parts|
      invariant forall k | 0 <= k < i :: Derives(c, PushR(s, [parts[k]]))
    {
      WeightPart(parts, i);
      var split := PushR(s, [parts[i]]);
      var part := Reduce(c, split);
      if !part {
        return false;
      }
    }
    return true;
  }

  /** `split_left` for each part in turn. */
  method SplitAllLeft<A(==)>(c: Calculus<A>, s: State<A>, parts: seq<Formula<A>>) returns (ok: bool)
    ensures ok == forall i | 0 <= i < |parts| :: Derives(c, PushL(s, [parts[i]]))
    decreases Measure(s) + Weight(parts), 2
  {
    for i := 0 to |parts|
      invariant forall k | 0 <= k < i :: Derives(c, PushL(s, [parts[k]]))
    {
      WeightPart(parts, i);
      var split := PushL(s, [parts[i]]);
      var part := Reduce(c, split);
      if !part {
        return false;
      }
    }
    return true;
  }

  /** The whole search: the right-hand side is taken apart first, then the left-hand side. */
  method Reduce<A(==)>(c: Calculus<A>, start: State<A>) returns (ok: bool)
    ensures ok == Derives(c, start)
    decreases Measure(start), 1
  {
    var s := start;
    while s.rhsPending != []
      invariant Derives(c, s) == Derives(c, start)
      invariant Measure(s) <= Measure(start)
      decreases Measure(s)
    {
      var f := Last(s.rhsPending);
      var t := s.(rhsPending := Init(s.rhsPending));
      assert Measure(t) + Size(f) == Measure(s);
      match f {
        case Wrap(ps) => s := PushR(t, ps);
        case Or(ps) => s := PushR(t, ps);
        case And(ps) =>
          ok := SplitAllRight(c, t, ps);
          return;
        case Not(p) => s := PushL(t, [p]);
        case Implies(p, q) => s := PushR(PushL(t, [p]), [q]);
        case Atom(a) => s := t.(rhsAtomic := t.rhsAtomic + [a]);
      }
    }
    ok := ReduceLeft(c, s);
  }

  /** The second loop, entered once nothing is pending on the right. */
  method ReduceLeft<A(==)>(c: Calculus<A>, start: State<A>) returns (ok: bool)
    requires start.rhsPending == []
    ensures ok == Derives(c, start)
    decreases Measure(start), 0
  {
    var s := start;
    while s.lhsPending != []
      invariant s.rhsPending == []
      invariant Derives(c, s) == Derives(c, start)
      invariant Measure(s) <= Measure(start)
      decreases Measure(s)
    {
      var f := Last(s.lhsPending);
      var t := s.(lhsPending := Init(s.lhsPending));
      assert Measure(t) + Size(f) == Measure(s);
      match f {
        case Wrap(ps) => s := PushL(t, ps);
        case And(ps) => s := PushL(t, ps);
        case Or(ps) =>
          ok := SplitAllLeft(c, t, ps);
          return;
        case Not(p) =>
          ok := Reduce(c, PushR(t, [p]));
          return;
        case Implies(p, q) =>
          ok := Reduce(c, PushR(Remember(t, f), [p]));
          if ok {
            ok := Reduce(c, PushL(Remember(t, f), [q]));
          }
          return;
        case Atom(a) =>
          var clash := Clashes(c, t, a);
          if clash {
            return true;
          }
          s := t.(lhsAtomic := t.lhsAtomic + [a]);
      }
    }
    return Closes(c, s);
  }

  /** The contradiction scan over the atoms already assumed. */
  method Clashes<A(==)>(c: Calculus<A>, s: State<A>, a: A) returns (clash: bool)
    ensures clash == exists x | x in s.lhsAtomic :: Contradicts(c, s.ctx, x, a)
  {
    for i := 0 to |s.lhsAtomic|
      invariant forall k | 0 <= k < i :: !Contradicts(c, s.ctx, s.lhsAtomic[k], a)
    {
      if Contradicts(c, s.ctx, s.lhsAtomic[i], a) {
        return true;
      }
    }
    return false;
  }
}
