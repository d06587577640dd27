/**
 The compiler's `Subtype` table as an instance of the proof engine (vc/subtype.h:14-203), and that the engine,
 searching under the two implications that bind the self type, computes `Shapes.Sub`.
 */
module ShapesEngine {
  import opened Collections
  import opened Sequents
  import opened SequentModels
  import S = Shapes

  type VType = S.VType

  // ---------------------------------------------------------------- searching under implications

  /** Taking an implication between atoms off the left. */
  lemma ImplicationStep<A(!new)>(c: Calculus<A>, s: State<A>, pre: seq<Formula<A>>, x: A, y: A)
    requires s.rhsPending == [] && s.lhsPending == pre + [Implies(Atom(x), Atom(y))]
    ensures var t := Remember(s.(lhsPending := pre), Implies(Atom(x), Atom(y)));
      Derives(c, s) ==
        (&& Derives(c, t.(rhsAtomic := s.rhsAtomic + [x]))
         && ((exists z | z in s.lhsAtomic :: Contradicts(c, t.ctx, z, y))
             || Derives(c, t.(lhsAtomic := s.lhsAtomic + [y]))))
  {
    var f := Implies(Atom(x), Atom(y));
    assert Init(s.lhsPending) == pre && Last(s.lhsPending) == f;
    var t := Remember(s.(lhsPending := pre), f);
    var r := PushR(t, [Atom(x)]);
    assert r.rhsPending == [Atom(x)];
    assert r.(rhsPending := Init(r.rhsPending), rhsAtomic := r.rhsAtomic + [x]) == t.(rhsAtomic := s.rhsAtomic + [x]);
    var l := PushL(t, [Atom(y)]);
    assert Init(l.lhsPending) == pre && Last(l.lhsPending) == Atom(y);
    assert l.(lhsPending := Init(l.lhsPending)) == t;
    assert Derives(c, s) == (Derives(c, r) && Derives(c, l));
  }

  /** One assumed atom under an equality of two atoms, spelled as two implications. */
  ghost predicate Equated<A(!new)>(c: Calculus<A>, once: Ctx<A>, both: Ctx<A>, a: A, x: A, y: A, bs: seq<A>) {
    && Closes(c, State(both, [], [], [a], bs + [y] + [x]))
    && (Contradicts(c, both, a, y) || Closes(c, State(both, [], [], [a] + [y], bs + [y])))
    && (|| Contradicts(c, once, a, x)
        || (&& Closes(c, State(both, [], [], [a] + [x], bs + [x]))
            && (|| Contradicts(c, both, a, y)
                || Contradicts(c, both, x, y)
                || Closes(c, State(both, [], [], [a] + [x] + [y], bs)))))
  }

  lemma EqualityStep<A(!new)>(c: Calculus<A>, s: State<A>, a: A, x: A, y: A)
    requires x != y && s.rhsPending == [] && s.lhsAtomic == [a] && s.ctx.implies == []
    requires s.lhsPending == [Implies(Atom(x), Atom(y)), Implies(Atom(y), Atom(x))]
    ensures var once := s.ctx.(implies := [Implies(Atom(y), Atom(x))]);
      var both := s.ctx.(implies := [Implies(Atom(y), Atom(x)), Implies(Atom(x), Atom(y))]);
      Derives(c, s) == Equated(c, once, both, a, x, y, s.rhsAtomic)
  {
    hide Contradicts, Closes;
    var i, j := Implies(Atom(x), Atom(y)), Implies(Atom(y), Atom(x));
    var once := s.ctx.(implies := [j]);
    var both := s.ctx.(implies := [j, i]);
    var bs := s.rhsAtomic;
    assert s.lhsPending == [i] + [j] && [] + [j] == [j] && [j] + [i] == [j, i] && [] + [i] == [i];
    ImplicationStep(c, s, [i], y, x);
    ImplicationStep(c, State(once, [i], [], [a], bs + [y]), [], x, y);
    ImplicationStep(c, State(once, [i], [], [a] + [x], bs), [], x, y);
    assert (exists z | z in [a] :: Contradicts(c, both, z, y)) == Contradicts(c, both, a, y);
    assert (exists z | z in [a] :: Contradicts(c, once, z, x)) == Contradicts(c, once, a, x);
    assert (exists z | z in [a] + [x] :: Contradicts(c, both, z, y))
      == (Contradicts(c, both, a, y) || Contradicts(c, both, x, y)) by {
      assert a in [a] + [x] && x in [a] + [x];
    }
  }

  // ---------------------------------------------------------------- unions beside implications

  /** A union on the right ends up as its alternatives. */
  lemma {:induction false} FlattenRight<A(!new)>(c: Calculus<A>, s: State<A>) returns (bs: seq<A>)
    requires forall i | 0 <= i < |s.rhsPending| :: UnionOnly(s.rhsPending[i])
    ensures Derives(c, s) == Derives(c, s.(rhsPending := [], rhsAtomic := bs))
    ensures forall b :: b in bs <==> RightLeaf(s, b)
    decreases Measure(s)
  {
    if s.rhsPending == [] {
      bs := s.rhsAtomic;
      assert s.(rhsPending := [], rhsAtomic := bs) == s;
    } else {
      var f := Last(s.rhsPending);
      var t := s.(rhsPending := Init(s.rhsPending));
      assert Measure(t) + Size(f) == Measure(s);
      var u := if f.Or? then PushR(t, f.parts) else t.(rhsAtomic := t.rhsAtomic + [f.atom]);
      bs := FlattenRight(c, u);
      assert u.(rhsPending := [], rhsAtomic := bs) == s.(rhsPending := [], rhsAtomic := bs);
      forall b ensures RightLeaf(s, b) <==> RightLeaf(u, b) {
        PoppedLeaf(s, b);
        if f.Or? {
          PushedLeaf(t, f.parts, b);
        }
      }
    }
  }

  /** A union on the left is searched once for each of its alternatives. */
  lemma {:induction false} SplitLeft<A(!new)>(c: Calculus<A>, s: State<A>, pre: seq<Formula<A>>, l: Formula<A>)
    requires s.rhsPending == [] && s.lhsAtomic == [] && s.lhsPending == pre + [l] && UnionOnly(l)
    ensures Derives(c, s) <==> forall a | IsLeaf(l, a) :: Derives(c, s.(lhsPending := pre, lhsAtomic := [a]))
    decreases l
  {
    var t := s.(lhsPending := Init(s.lhsPending));
    assert t.lhsPending == pre && Last(s.lhsPending) == l;
    assert Measure(t) + Size(l) == Measure(s);
    match l
    case Atom(a) =>
      assert t.(lhsAtomic := t.lhsAtomic + [a]) == s.(lhsPending := pre, lhsAtomic := [a]);
      assert Derives(c, s) == Derives(c, t.(lhsAtomic := t.lhsAtomic + [a]));
    case Or(ps) =>
      forall i | 0 <= i < |ps|
        ensures Derives(c, PushL(t, [ps[i]]))
          <==> forall a | IsLeaf(ps[i], a) :: Derives(c, s.(lhsPending := pre, lhsAtomic := [a]))
      {
        WeightPart(ps, i);
        SplitLeft(c, PushL(t, [ps[i]]), pre, ps[i]);
        assert forall a :: PushL(t, [ps[i]]).(lhsPending := pre, lhsAtomic := [a]) == s.(lhsPending := pre, lhsAtomic := [a]);
      }
  }

  /** A query between unions under an equality of two atoms. */
  lemma EqualityQuery<A(!new)>(c: Calculus<A>, ctx: Ctx<A>, l: Formula<A>, r: Formula<A>, x: A, y: A) returns (bs: seq<A>)
    requires UnionOnly(l) && UnionOnly(r) && x != y
    requires ctx.implies == [Implies(Atom(x), Atom(y)), Implies(Atom(y), Atom(x))]
    ensures forall b :: b in bs <==> IsLeaf(r, b)
    ensures var once := ctx.(implies := [Implies(Atom(y), Atom(x))]);
      var both := ctx.(implies := [Implies(Atom(y), Atom(x)), Implies(Atom(x), Atom(y))]);
      Entails(c, ctx, l, r) <==> forall a | IsLeaf(l, a) :: Equated(c, once, both, a, x, y, bs)
  {
    var s := Start(ctx, l, r);
    bs := FlattenRight(c, s);
    assert forall b :: RightLeaf(s, b) <==> IsLeaf(s.rhsPending[0], b);
    var t := s.(rhsPending := [], rhsAtomic := bs);
    SplitLeft(c, t, ctx.implies, l);
    forall a ensures var once := ctx.(implies := [Implies(Atom(y), Atom(x))]);
      var both := ctx.(implies := [Implies(Atom(y), Atom(x)), Implies(Atom(x), Atom(y))]);
      Derives(c, t.(lhsPending := ctx.implies, lhsAtomic := [a])) == Equated(c, once, both, a, x, y, bs)
    {
      EqualityStep(c, t.(lhsPending := ctx.implies, lhsAtomic := [a]), a, x, y);
    }
  }

  // ---------------------------------------------------------------- the table

  function TokenOf(t: VType): Token {
    match t
    case Dyn => "dyn"
    case Prim(_) => "primitive"
    case SelfType => "typeself"
    case Named(_) => "typename"
    case Tuple(_) => "tupletype"
    case Union(_) => "union"
  }

  /** The binding of the self type among the implications. */
  function BindOf(implies_: seq<Formula<VType>>): Option<nat> {
    if implies_ == [] then None
    else
      match implies_[0]
      case Implies(Atom(SelfType), Atom(Named(d))) => Some(d)
      case _ => BindOf(implies_[1..])
  }

  function AssumedOf(assumptions: seq<Formula<VType>>): seq<S.Pair> {
    if assumptions == [] then []
    else
      match assumptions[0]
      case Implies(Atom(Named(l)), Atom(Named(r))) => [(l, r)] + AssumedOf(assumptions[1..])
      case _ => AssumedOf(assumptions[1..])
  }

  function Assumptions(assumed: seq<S.Pair>): seq<Formula<VType>> {
    if assumed == [] then []
    else [Implies(Atom(S.Named(assumed[0].0)), Atom(S.Named(assumed[0].1)))] + Assumptions(assumed[1..])
  }

  lemma {:induction false} AssumptionsRoundTrip(assumed: seq<S.Pair>)
    ensures AssumedOf(Assumptions(assumed)) == assumed
  {
    if assumed != [] {
      AssumptionsRoundTrip(assumed[1..]);
      assert Assumptions(assumed)[1..] == Assumptions(assumed[1..]);
    }
  }

  predicate Proving(p: S.Prog, ctx: Ctx<VType>, l: VType, r: VType) {
    S.Axiom(p, true, AssumedOf(ctx.assumptions), BindOf(ctx.implies), l, r)
  }

  /** The contradiction axiom for a named type on the right. */
  predicate NamesClash(p: S.Prog, ctx: Ctx<VType>, l: VType, r: VType) {
    var assumed := AssumedOf(ctx.assumptions);
    if !r.Named? then false
    else if !l.Named? then !S.IsShape(p, r.def)
    else if S.IsShape(p, r.def) && !S.IsShape(p, l.def) then !S.Check(p, true, assumed, l.def, r.def)
    else if S.IsShape(p, l.def) && !S.IsShape(p, r.def) then !S.Check(p, true, assumed, r.def, l.def)
    else if S.IsShape(p, l.def) then S.Conflict(p, true, assumed, l.def, r.def)
    else l.def != r.def
  }

  function Table(p: S.Prog): Calculus<VType> {
    var proving := (ctx: Ctx<VType>, l: VType, r: VType) => Proving(p, ctx, l, r);
    Calculus(
      TokenOf,
      map["dyn" := proving, "primitive" := proving, "typeself" := proving, "typename" := proving, "tupletype" := proving],
      map["typeself" := ((ctx: Ctx<VType>, l: VType, r: VType) => false),
          "typename" := ((ctx: Ctx<VType>, l: VType, r: VType) => NamesClash(p, ctx, l, r))])
  }

  /** The contexts of `check_shape_subtype`, and, reversed, those its axioms see. */
  function Context(assumed: seq<S.Pair>, bind: Option<nat>, reversed: bool): Ctx<VType> {
    var self := Atom(S.SelfType);
    Ctx(
      match bind
      case None => []
      case Some(d) =>
        if reversed then [Implies(Atom(S.Named(d)), self), Implies(self, Atom(S.Named(d)))]
        else [Implies(self, Atom(S.Named(d))), Implies(Atom(S.Named(d)), self)],
      Assumptions(assumed))
  }

  lemma ContextDecodes(assumed: seq<S.Pair>, bind: Option<nat>, reversed: bool)
    ensures BindOf(Context(assumed, bind, reversed).implies) == bind
    ensures AssumedOf(Context(assumed, bind, reversed).assumptions) == assumed
  {
    AssumptionsRoundTrip(assumed);
    var is_ := Context(assumed, bind, reversed).implies;
    if bind.Some? {
      assert is_[1..][0] == is_[1];
    }
  }

  lemma TableProves(p: S.Prog, assumed: seq<S.Pair>, bind: Option<nat>, reversed: bool, l: VType, r: VType)
    ensures Proves(Table(p), Context(assumed, bind, reversed), l, r) == S.Axiom(p, true, assumed, bind, l, r)
  {
    ContextDecodes(assumed, bind, reversed);
  }

  /** The self type contradicts nothing. */
  lemma SelfIsPeaceful(p: S.Prog, ctx: Ctx<VType>, a: VType)
    ensures !Contradicts(Table(p), ctx, a, S.SelfType) && !Contradicts(Table(p), ctx, S.SelfType, a)
  {
  }

  lemma TableContradicts(p: S.Prog, assumed: seq<S.Pair>, ctx: Ctx<VType>, a: VType, d: nat)
    requires ctx.assumptions == Assumptions(assumed) && !a.Union?
    ensures Contradicts(Table(p), ctx, a, S.Named(d)) == S.Clash(p, true, assumed, a, d)
  {
    AssumptionsRoundTrip(assumed);
    SelfIsPeaceful(p, ctx, S.Named(d));
  }

  // ---------------------------------------------------------------- the search computes `Sub`

  function AsFormula(t: VType): (f: Formula<VType>)
    ensures UnionOnly(f)
    decreases S.Depth(t)
  {
    if t.Union? then
      Or(seq(|t.parts|, i requires 0 <= i < |t.parts| => S.DepthPart(t.parts, i); AsFormula(t.parts[i])))
    else
      Atom(t)
  }

  lemma {:induction false} LeavesAreAtoms(t: VType)
    ensures forall a | IsLeaf(AsFormula(t), a) :: !a.Union?
    decreases S.Depth(t)
  {
    if t.Union? {
      forall i | 0 <= i < |t.parts| ensures forall a | IsLeaf(AsFormula(t.parts[i]), a) :: !a.Union? {
        S.DepthPart(t.parts, i);
        LeavesAreAtoms(t.parts[i]);
      }
    }
  }

  ghost predicate LeavesUnder(p: S.Prog, assumed: seq<S.Pair>, bind: Option<nat>, f: Formula<VType>, u: VType) {
    forall a | IsLeaf(f, a) :: S.SubAtom(p, true, assumed, bind, a, u)
  }

  lemma LeavesUnderOr(p: S.Prog, assumed: seq<S.Pair>, bind: Option<nat>, fs: seq<Formula<VType>>, u: VType)
    ensures LeavesUnder(p, assumed, bind, Or(fs), u) <==> forall i | 0 <= i < |fs| :: LeavesUnder(p, assumed, bind, fs[i], u)
  {
    if LeavesUnder(p, assumed, bind, Or(fs), u) {
      forall i, a | 0 <= i < |fs| && IsLeaf(fs[i], a) ensures S.SubAtom(p, true, assumed, bind, a, u) {
        assert IsLeaf(Or(fs), a);
      }
    }
  }

  lemma {:induction false} SubByLeaves(p: S.Prog, assumed: seq<S.Pair>, bind: Option<nat>, t: VType, u: VType)
    ensures S.Sub(p, true, assumed, bind, t, u) <==> LeavesUnder(p, assumed, bind, AsFormula(t), u)
    decreases S.Depth(t)
  {
    if t.Union? {
      var f := AsFormula(t);
      forall i | 0 <= i < |t.parts|
        ensures S.Sub(p, true, assumed, bind, t.parts[i], u) <==> LeavesUnder(p, assumed, bind, f.parts[i], u)
      {
        S.DepthPart(t.parts, i);
        SubByLeaves(p, assumed, bind, t.parts[i], u);
      }
      LeavesUnderOr(p, assumed, bind, f.parts, u);
      assert S.Sub(p, true, assumed, bind, t, u)
        <==> forall i | 0 <= i < |t.parts| :: S.Sub(p, true, assumed, bind, t.parts[i], u);
    } else {
      assert forall a :: IsLeaf(AsFormula(t), a) <==> a == t;
    }
  }

  /** Some alternative of `f` is proved by `a`. */
  ghost predicate LeafCovers(p: S.Prog, assumed: seq<S.Pair>, bind: Option<nat>, a: VType, f: Formula<VType>) {
    exists b :: IsLeaf(f, b) && S.Axiom(p, true, assumed, bind, a, b)
  }

  lemma LeafCoversOr(p: S.Prog, assumed: seq<S.Pair>, bind: Option<nat>, a: VType, fs: seq<Formula<VType>>)
    ensures LeafCovers(p, assumed, bind, a, Or(fs)) <==> exists i | 0 <= i < |fs| :: LeafCovers(p, assumed, bind, a, fs[i])
  {
    if LeafCovers(p, assumed, bind, a, Or(fs)) {
      var b :| IsLeaf(Or(fs), b) && S.Axiom(p, true, assumed, bind, a, b);
      var i :| 0 <= i < |fs| && IsLeaf(fs[i], b);
      assert LeafCovers(p, assumed, bind, a, fs[i]);
    }
    if i :| 0 <= i < |fs| && LeafCovers(p, assumed, bind, a, fs[i]) {
      var b :| IsLeaf(fs[i], b) && S.Axiom(p, true, assumed, bind, a, b);
      assert IsLeaf(Or(fs), b);
    }
  }

  lemma {:induction false} CoversByLeaves(p: S.Prog, assumed: seq<S.Pair>, bind: Option<nat>, a: VType, u: VType)
    ensures S.Covers(p, true, assumed, bind, a, u) <==> LeafCovers(p, assumed, bind, a, AsFormula(u))
    decreases S.Depth(u)
  {
    if u.Union? {
      var f := AsFormula(u);
      forall i | 0 <= i < |u.parts|
        ensures S.Covers(p, true, assumed, bind, a, u.parts[i]) <==> LeafCovers(p, assumed, bind, a, f.parts[i])
      {
        S.DepthPart(u.parts, i);
        CoversByLeaves(p, assumed, bind, a, u.parts[i]);
      }
      LeafCoversOr(p, assumed, bind, a, f.parts);
    } else {
      assert forall b :: IsLeaf(AsFormula(u), b) <==> b == u;
    }
  }

  /** The atom `l` closes a sequent with the alternatives of `u` and the atoms `more` on the right. */
  predicate Hits(p: S.Prog, assumed: seq<S.Pair>, bind: Option<nat>, l: VType, u: VType, more: seq<VType>) {
    S.Covers(p, true, assumed, bind, l, u) || exists m | m in more :: S.Axiom(p, true, assumed, bind, l, m)
  }

  lemma ClosesByLeaves(p: S.Prog, assumed: seq<S.Pair>, bind: Option<nat>, reversed: bool,
                       ls: seq<VType>, bs: seq<VType>, more: seq<VType>, u: VType)
    requires forall b :: b in bs <==> IsLeaf(AsFormula(u), b)
    ensures Closes(Table(p), State(Context(assumed, bind, reversed), [], [], ls, bs + more))
      == exists l | l in ls :: Hits(p, assumed, bind, l, u, more)
  {
    hide Context, Table, S.Covers;
    var c, k := Table(p), Context(assumed, bind, reversed);
    forall l ensures (exists r | r in bs + more :: Proves(c, k, l, r)) == Hits(p, assumed, bind, l, u, more) {
      CoversByLeaves(p, assumed, bind, l, u);
      forall r ensures Proves(c, k, l, r) == S.Axiom(p, true, assumed, bind, l, r) {
        TableProves(p, assumed, bind, reversed, l, r);
      }
      assert forall r :: r in bs + more <==> IsLeaf(AsFormula(u), r) || r in more;
    }
  }

  /** The five ways in which the search under a binding closes. */
  lemma ClosesUnderBinding(p: S.Prog, assumed: seq<S.Pair>, bind: Option<nat>, reversed: bool,
                           a: VType, x: VType, y: VType, bs: seq<VType>, u: VType)
    requires forall b :: b in bs <==> IsLeaf(AsFormula(u), b)
    ensures var c, k := Table(p), Context(assumed, bind, reversed);
      && Closes(c, State(k, [], [], [a], bs + [y] + [x])) == Hits(p, assumed, bind, a, u, [y, x])
      && Closes(c, State(k, [], [], [a] + [y], bs + [y])) == (Hits(p, assumed, bind, a, u, [y]) || Hits(p, assumed, bind, y, u, [y]))
      && Closes(c, State(k, [], [], [a] + [x], bs + [x])) == (Hits(p, assumed, bind, a, u, [x]) || Hits(p, assumed, bind, x, u, [x]))
      && Closes(c, State(k, [], [], [a] + [x] + [y], bs))
        == (Hits(p, assumed, bind, a, u, []) || Hits(p, assumed, bind, x, u, []) || Hits(p, assumed, bind, y, u, []))
  {
    hide Closes, Context, Table, Hits;
    assert bs + [y] + [x] == bs + [y, x] && bs == bs + [];
    ClosesByLeaves(p, assumed, bind, reversed, [a], bs, [y, x], u);
    ClosesByLeaves(p, assumed, bind, reversed, [a] + [y], bs, [y], u);
    ClosesByLeaves(p, assumed, bind, reversed, [a] + [x], bs, [x], u);
    ClosesByLeaves(p, assumed, bind, reversed, [a] + [x] + [y], bs, [], u);
    assert a in [a] && a in [a] + [y] && y in [a] + [y] && a in [a] + [x] && x in [a] + [x];
    assert a in [a] + [x] + [y] && x in [a] + [x] + [y] && y in [a] + [x] + [y];
  }

  lemma HitsUnrolled(p: S.Prog, assumed: seq<S.Pair>, bind: Option<nat>, l: VType, u: VType, x: VType, y: VType)
    ensures Hits(p, assumed, bind, l, u, []) == S.Covers(p, true, assumed, bind, l, u)
    ensures Hits(p, assumed, bind, l, u, [x]) == (S.Covers(p, true, assumed, bind, l, u) || S.Axiom(p, true, assumed, bind, l, x))
    ensures Hits(p, assumed, bind, l, u, [y, x])
      == (S.Covers(p, true, assumed, bind, l, u) || S.Axiom(p, true, assumed, bind, l, x) || S.Axiom(p, true, assumed, bind, l, y))
  {
    hide S.Covers, S.Axiom;
    assert x in [x] && x in [y, x] && y in [y, x];
  }

  /** One atom, with the self type bound to `d`: the search agrees with `SubAtom`. */
  lemma AtomUnderBinding(p: S.Prog, assumed: seq<S.Pair>, d: nat, reversed: bool, once: Ctx<VType>, a: VType, bs: seq<VType>, u: VType)
    requires !a.Union? && once.assumptions == Assumptions(assumed)
    requires forall b :: b in bs <==> IsLeaf(AsFormula(u), b)
    ensures var x, y := if reversed then S.Named(d) else S.SelfType, if reversed then S.SelfType else S.Named(d);
      Equated(Table(p), once, Context(assumed, Some(d), !reversed), a, x, y, bs)
      == S.SubAtom(p, true, assumed, Some(d), a, u)
  {
    hide Closes, Contradicts, Table, Hits, S.Covers, S.Clash, S.Check, IsLeaf;
    var bind, both := Some(d), Context(assumed, Some(d), !reversed);
    var x, y := if reversed then S.Named(d) else S.SelfType, if reversed then S.SelfType else S.Named(d);
    ClosesUnderBinding(p, assumed, bind, !reversed, a, x, y, bs, u);
    HitsUnrolled(p, assumed, bind, a, u, x, y);
    HitsUnrolled(p, assumed, bind, a, u, y, x);
    HitsUnrolled(p, assumed, bind, x, u, x, y);
    HitsUnrolled(p, assumed, bind, y, u, y, x);
    TableContradicts(p, assumed, once, a, d);
    TableContradicts(p, assumed, both, a, d);
    SelfIsPeaceful(p, once, a);
    SelfIsPeaceful(p, both, a);
    SelfIsPeaceful(p, both, S.Named(d));
    assert S.Axiom(p, true, assumed, bind, S.SelfType, S.SelfType);
    assert S.Axiom(p, true, assumed, bind, a, S.SelfType) == a.SelfType?;
  }

  /** The engine, run with the compiler's table in the contexts of a shape check, computes `Sub`. */
  lemma EngineComputesSub(p: S.Prog, assumed: seq<S.Pair>, bind: Option<nat>, reversed: bool, t: VType, u: VType)
    ensures Entails(Table(p), Context(assumed, bind, reversed), AsFormula(t), AsFormula(u))
      <==> S.Sub(p, true, assumed, bind, t, u)
  {
    hide Entails, Table, S.Sub, S.SubAtom;
    SubByLeaves(p, assumed, bind, t, u);
    match bind
    case None => Unbound(p, assumed, reversed, t, u);
    case Some(d) => Bound(p, assumed, d, reversed, t, u);
  }

  lemma Unbound(p: S.Prog, assumed: seq<S.Pair>, reversed: bool, t: VType, u: VType)
    ensures Entails(Table(p), Context(assumed, None, reversed), AsFormula(t), AsFormula(u))
      <==> LeavesUnder(p, assumed, None, AsFormula(t), u)
  {
    var k := Context(assumed, None, reversed);
    UnionQuery(Table(p), k, AsFormula(t), AsFormula(u));
    forall a ensures LeafProved(Table(p), k, a, AsFormula(u)) <==> S.SubAtom(p, true, assumed, None, a, u) {
      CoversByLeaves(p, assumed, None, a, u);
      forall b ensures Proves(Table(p), k, a, b) == S.Axiom(p, true, assumed, None, a, b) {
        TableProves(p, assumed, None, reversed, a, b);
      }
    }
  }

  lemma Bound(p: S.Prog, assumed: seq<S.Pair>, d: nat, reversed: bool, t: VType, u: VType)
    ensures Entails(Table(p), Context(assumed, Some(d), reversed), AsFormula(t), AsFormula(u))
      <==> LeavesUnder(p, assumed, Some(d), AsFormula(t), u)
  {
    hide Equated, Entails, Table, S.SubAtom;
    var k := Context(assumed, Some(d), reversed);
    var x, y := if reversed then S.Named(d) else S.SelfType, if reversed then S.SelfType else S.Named(d);
    var bs := EqualityQuery(Table(p), k, AsFormula(t), AsFormula(u), x, y);
    var once := k.(implies := [Implies(Atom(y), Atom(x))]);
    assert k.(implies := [Implies(Atom(y), Atom(x)), Implies(Atom(x), Atom(y))]) == Context(assumed, Some(d), !reversed);
    LeavesAreAtoms(t);
    forall a | IsLeaf(AsFormula(t), a)
      ensures Equated(Table(p), once, Context(assumed, Some(d), !reversed), a, x, y, bs)
        <==> S.SubAtom(p, true, assumed, Some(d), a, u)
    {
      AtomUnderBinding(p, assumed, d, reversed, once, a, bs, u);
    }
  }

  // ---------------------------------------------------------------- empty intersections

  /** Some function that `l` shares with `r` has two parameters, or results, of which neither is below the other. */
  ghost predicate Disagree(p: S.Prog, assumed: seq<S.Pair>, l: nat, r: nat)
    requires l < |p| && r < |p|
  {
    exists i :: 0 <= i < |p[l].funcs| && DisagreeOn(p, assumed, p[l].funcs[i], S.Match(p[r].funcs, p[l].funcs[i]))
  }

  ghost predicate DisagreeOn(p: S.Prog, assumed: seq<S.Pair>, f: S.Func, m: Option<S.Func>)
    requires m.Some? ==> S.SameKey(m.value, f)
  {
    m.Some? &&
    (|| (exists k :: 0 <= k < |f.params| && Neither(p, assumed, f.params[k], m.value.params[k]))
     || Neither(p, assumed, f.result, m.value.result))
  }

  /** The engine puts neither type below the other. */
  ghost predicate Neither(p: S.Prog, assumed: seq<S.Pair>, t: VType, u: VType) {
    var k := Context(assumed, None, false);
    !Entails(Table(p), k, AsFormula(t), AsFormula(u)) && !Entails(Table(p), k, AsFormula(u), AsFormula(t))
  }

  /**
   What the compiler takes two types that are not unions to have in common.  Nothing is apart from the self type.
   Two concrete definitions are apart if they differ, a concrete one and a shape if it does not have that shape, and
   two shapes if they disagree either way round.  Other types are apart from concrete definitions and never from shapes,
   and from one another if neither is below the other.
   */
  lemma DisjointAtoms(p: S.Prog, assumed: seq<S.Pair>, a: VType, b: VType)
    requires !a.Union? && !b.Union?
    ensures var k := Context(assumed, None, false);
      Entails(Table(p), k, And([Atom(a), Atom(b)]), Or([])) <==>
        if a.SelfType? || b.SelfType? then false
        else if !a.Named? && !b.Named? then Neither(p, assumed, a, b)
        else if !a.Named? then !S.IsShape(p, b.def)
        else if !b.Named? then !S.IsShape(p, a.def)
        else if !S.IsShape(p, a.def) && !S.IsShape(p, b.def) then a != b
        else if !S.IsShape(p, a.def) then !Entails(Table(p), k, Atom(a), Atom(b))
        else if !S.IsShape(p, b.def) then !Entails(Table(p), k, Atom(b), Atom(a))
        else Disagree(p, assumed, a.def, b.def) && Disagree(p, assumed, b.def, a.def)
  {
    var k := Context(assumed, None, false);
    EmptyIntersection(Table(p), Assumptions(assumed), a, b);
    RuledInTable(p, assumed, a, b);
    EngineComputesSub(p, assumed, None, false, a, b);
    EngineComputesSub(p, assumed, None, false, b, a);
    assert AsFormula(a) == Atom(a) && AsFormula(b) == Atom(b);
    if a.Named? && b.Named? {
      if S.IsShape(p, b.def) {
        OneAtomBelow(p, assumed, a, b);
      }
      if S.IsShape(p, a.def) {
        OneAtomBelow(p, assumed, b, a);
      }
    }
    hide Entails, Table, Ruled, S.Check, S.Sub, S.Conflict;
    if a.Named? && b.Named? && S.IsShape(p, a.def) && S.IsShape(p, b.def) {
      ConflictIsDisagreement(p, assumed, a.def, b.def);
      ConflictIsDisagreement(p, assumed, b.def, a.def);
    }
  }

  /** The table has a contradiction axiom for named types and the self type only. */
  lemma RuledInTable(p: S.Prog, assumed: seq<S.Pair>, a: VType, b: VType)
    requires !a.Union? && !b.Union?
    ensures var c, k := Table(p), Context(assumed, None, false);
      && k == Ctx([], Assumptions(assumed))
      && ((c.token(a) in c.contradictionAxioms || c.token(b) in c.contradictionAxioms) <==>
            a.SelfType? || b.SelfType? || a.Named? || b.Named?)
      && (Ruled(c, k, a, b) <==>
            && !a.SelfType? && !b.SelfType?
            && (a.Named? ==> NamesClash(p, k, b, a)) && (b.Named? ==> NamesClash(p, k, a, b)))
      && AssumedOf(k.assumptions) == assumed
  {
    AssumptionsRoundTrip(assumed);
  }

  lemma OneAtomBelow(p: S.Prog, assumed: seq<S.Pair>, a: VType, b: VType)
    requires a.Named? && b.Named? && S.IsShape(p, b.def)
    ensures S.Sub(p, true, assumed, None, a, b) == S.Check(p, true, assumed, a.def, b.def)
  {
    assert S.Sub(p, true, assumed, None, a, b) == S.SubAtom(p, true, assumed, None, a, b);
    assert S.SubAtom(p, true, assumed, None, a, b) == S.Covers(p, true, assumed, None, a, b);
    assert S.Covers(p, true, assumed, None, a, b) == S.Axiom(p, true, assumed, None, a, b);
    assert S.Axiom(p, true, assumed, None, a, b) == S.Check(p, true, assumed, a.def, b.def);
  }

  lemma ConflictIsDisagreement(p: S.Prog, assumed: seq<S.Pair>, l: nat, r: nat)
    requires l < |p| && r < |p|
    ensures S.Conflict(p, true, assumed, l, r) <==> Disagree(p, assumed, l, r)
  {
    forall t, u ensures S.Apart(p, true, assumed, t, u) <==> Neither(p, assumed, t, u) {
      EngineComputesSub(p, assumed, None, false, t, u);
      EngineComputesSub(p, assumed, None, false, u, t);
    }
    hide Neither, S.Apart;
  }
}
