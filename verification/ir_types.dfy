/**
 The intermediate language's subtype check, an instance of the proof engine
 (virc/analysis/ir_subtype.h).  Types are taken with their aliases resolved.
 */
module IRTypes {
  import opened Sequents
  import opened SequentModels

  datatype IRType =
    | Dyn
    | Prim(index: nat)
    | Class(index: nat)
    | Array(of: IRType)
    | Cown(of: IRType)
    | Ref(of: IRType)
    | Tuple(parts: seq<IRType>)
    | Union(parts: seq<IRType>)

  function Depth(t: IRType): (n: nat)
    ensures n > 0
    decreases t, 0
  {
    match t
    case Array(u) => 1 + Depth(u)
    case Cown(u) => 1 + Depth(u)
    case Ref(u) => 1 + Depth(u)
    case Tuple(us) => 1 + DepthAll(us)
    case Union(us) => 1 + DepthAll(us)
    case _ => 1
  }

  function DepthAll(ts: seq<IRType>): nat
    decreases ts, 1
  {
    if ts == [] then 0 else Depth(ts[0]) + DepthAll(ts[1..])
  }

  lemma DepthPart(ts: seq<IRType>, i: nat)
    requires i < |ts|
    ensures Depth(ts[i]) <= DepthAll(ts)
  {
    if i > 0 {
      DepthPart(ts[1..], i - 1);
    }
  }

  // ---------------------------------------------------------------- the check

  /** Unions are decomposed on both sides; everything else is decided by the axiom of the right type. */
  predicate IRSubtype(l: IRType, r: IRType)
    decreases Depth(l) + Depth(r), 1
  {
    if l.Union? then forall i | 0 <= i < |l.parts| :: DepthPart(l.parts, i); IRSubtype(l.parts[i], r)
    else if r.Union? then exists i | 0 <= i < |r.parts| :: DepthPart(r.parts, i); IRSubtype(l, r.parts[i])
    else IRAxiom(l, r)
  }

  /** The axiom table: anything proves Dyn, wrappers are invariant, tuples covariant, the rest equality. */
  predicate IRAxiom(l: IRType, r: IRType)
    decreases Depth(l) + Depth(r), 0
  {
    match r
    case Dyn => true
    case Prim(_) => l == r
    case Class(_) => l == r
    case Array(u) => l.Array? && IRSubtype(l.of, u) && IRSubtype(u, l.of)
    case Cown(u) => l.Cown? && IRSubtype(l.of, u) && IRSubtype(u, l.of)
    case Ref(u) => l.Ref? && IRSubtype(l.of, u) && IRSubtype(u, l.of)
    case Tuple(us) =>
      && l.Tuple?
      && |l.parts| == |us|
      && (forall i | 0 <= i < |us| ::
            DepthPart(l.parts, i);
            DepthPart(us, i);
            IRSubtype(l.parts[i], us[i]))
    case Union(_) => false
  }

  // ---------------------------------------------------------------- as an instance of the engine

  function AsFormula(t: IRType): (f: Formula<IRType>)
    ensures UnionOnly(f)
    decreases Depth(t)
  {
    if t.Union? then
      Or(seq(|t.parts|, i requires 0 <= i < |t.parts| => DepthPart(t.parts, i); AsFormula(t.parts[i])))
    else
      Atom(t)
  }

  function TokenOf(t: IRType): Token {
    match t
    case Dyn => "dyn"
    case Prim(_) => "primitive"
    case Class(_) => "classid"
    case Array(_) => "array"
    case Cown(_) => "cown"
    case Ref(_) => "ref"
    case Tuple(_) => "tupletype"
    case Union(_) => "union"
  }

  const IR_CALCULUS: Calculus<IRType> :=
    Calculus(
      TokenOf,
      map tok | tok in {"dyn", "primitive", "classid", "array", "cown", "ref", "tupletype"} ::
        ((ctx: Ctx<IRType>, l: IRType, r: IRType) => IRAxiom(l, r)),
      map[])

  lemma IRProves(ctx: Ctx<IRType>, l: IRType, r: IRType)
    ensures Proves(IR_CALCULUS, ctx, l, r) == IRAxiom(l, r)
  {
  }

  /** Some alternative of `f` is above `a`. */
  ghost predicate LeafAbove(a: IRType, f: Formula<IRType>) {
    exists b :: IsLeaf(f, b) && IRAxiom(a, b)
  }

  lemma LeafAboveOr(a: IRType, ps: seq<Formula<IRType>>)
    ensures LeafAbove(a, Or(ps)) <==> exists i | 0 <= i < |ps| :: LeafAbove(a, ps[i])
  {
    if LeafAbove(a, Or(ps)) {
      var b :| IsLeaf(Or(ps), b) && IRAxiom(a, b);
      var i :| 0 <= i < |ps| && IsLeaf(ps[i], b);
      assert LeafAbove(a, ps[i]);
    }
    if i :| 0 <= i < |ps| && LeafAbove(a, ps[i]) {
      var b :| IsLeaf(ps[i], b) && IRAxiom(a, b);
      assert IsLeaf(Or(ps), b);
    }
  }

  /** Every alternative of `f` is below some alternative of `g`. */
  ghost predicate LeavesAbove(f: Formula<IRType>, g: Formula<IRType>) {
    forall a | IsLeaf(f, a) :: LeafAbove(a, g)
  }

  lemma LeavesAboveOr(ps: seq<Formula<IRType>>, g: Formula<IRType>)
    ensures LeavesAbove(Or(ps), g) <==> forall i | 0 <= i < |ps| :: LeavesAbove(ps[i], g)
  {
    if LeavesAbove(Or(ps), g) {
      forall i, a | 0 <= i < |ps| && IsLeaf(ps[i], a) ensures LeafAbove(a, g) {
        assert IsLeaf(Or(ps), a);
      }
    }
  }

  lemma {:induction false} LeavesBelow(l: IRType, r: IRType)
    ensures IRSubtype(l, r) <==> LeavesAbove(AsFormula(l), AsFormula(r))
    decreases Depth(l)
  {
    if l.Union? {
      var ps := AsFormula(l).parts;
      forall i | 0 <= i < |l.parts|
        ensures IRSubtype(l.parts[i], r) <==> LeavesAbove(ps[i], AsFormula(r))
      {
        DepthPart(l.parts, i);
        LeavesBelow(l.parts[i], r);
      }
      LeavesAboveOr(ps, AsFormula(r));
      assert IRSubtype(l, r) <==> forall i | 0 <= i < |l.parts| :: IRSubtype(l.parts[i], r);
    } else {
      LeafBelow(l, r);
      OnlyLeaf(l);
    }
  }

  lemma {:induction false} LeafBelow(l: IRType, r: IRType)
    requires !l.Union?
    ensures IRSubtype(l, r) <==> LeafAbove(l, AsFormula(r))
    decreases Depth(r)
  {
    if r.Union? {
      var ps := AsFormula(r).parts;
      forall i | 0 <= i < |r.parts| ensures IRSubtype(l, r.parts[i]) <==> LeafAbove(l, ps[i]) {
        DepthPart(r.parts, i);
        LeafBelow(l, r.parts[i]);
      }
      LeafAboveOr(l, ps);
      assert IRSubtype(l, r) <==> exists i | 0 <= i < |r.parts| :: IRSubtype(l, r.parts[i]);
    } else {
      OnlyLeaf(r);
    }
  }

  lemma OnlyLeaf(t: IRType)
    requires !t.Union?
    ensures IsLeaf(AsFormula(t), t)
    ensures forall a | IsLeaf(AsFormula(t), a) :: a == t
  {
  }

  /** The engine, run with this table of axioms, computes `IRSubtype`. */
  lemma EngineComputesIRSubtype(l: IRType, r: IRType)
    ensures Entails(IR_CALCULUS, Nowhere(), AsFormula(l), AsFormula(r)) <==> IRSubtype(l, r)
  {
    LeavesBelow(l, r);
    UnionQuery(IR_CALCULUS, Nowhere(), AsFormula(l), AsFormula(r));
    forall a ensures LeafAbove(a, AsFormula(r)) <==> LeafProved(IR_CALCULUS, Nowhere(), a, AsFormula(r)) {
      LeafAboveProved(a, AsFormula(r));
    }
  }

  lemma LeafAboveProved(a: IRType, f: Formula<IRType>)
    ensures LeafAbove(a, f) <==> LeafProved(IR_CALCULUS, Nowhere(), a, f)
  {
    forall b ensures Proves(IR_CALCULUS, Nowhere(), a, b) == IRAxiom(a, b) {
      IRProves(Nowhere(), a, b);
    }
  }

  /** Two types that are not unions have nothing in common exactly if neither is below the other. */
  lemma DisjointTypes(a: IRType, b: IRType)
    requires !a.Union? && !b.Union?
    ensures Entails(IR_CALCULUS, Nowhere(), And([Atom(a), Atom(b)]), Or([])) <==> !IRSubtype(a, b) && !IRSubtype(b, a)
  {
    EmptyIntersection(IR_CALCULUS, [], a, b);
    EngineComputesIRSubtype(a, b);
    EngineComputesIRSubtype(b, a);
    assert AsFormula(a) == Atom(a) && AsFormula(b) == Atom(b);
  }

  // ---------------------------------------------------------------- a preorder

  lemma {:induction false} IRReflexive(t: IRType)
    ensures IRSubtype(t, t)
    decreases Depth(t)
  {
    match t
    case Union(us) =>
      forall i | 0 <= i < |us| ensures IRSubtype(us[i], t) {
        DepthPart(us, i);
        IRReflexive(us[i]);
        IntoUnion(us[i], us, i);
      }
    case Tuple(us) =>
      forall i | 0 <= i < |us| ensures IRSubtype(us[i], us[i]) {
        DepthPart(us, i);
        IRReflexive(us[i]);
      }
    case Array(u) => IRReflexive(u);
    case Cown(u) => IRReflexive(u);
    case Ref(u) => IRReflexive(u);
    case _ =>
  }

  /** What is below one member of a union is below the union. */
  lemma {:induction false} IntoUnion(l: IRType, us: seq<IRType>, k: nat)
    requires k < |us| && IRSubtype(l, us[k])
    ensures IRSubtype(l, Union(us))
    decreases Depth(l)
  {
    if l.Union? {
      forall i | 0 <= i < |l.parts| ensures IRSubtype(l.parts[i], Union(us)) {
        DepthPart(l.parts, i);
        IntoUnion(l.parts[i], us, k);
      }
    }
  }

  lemma {:induction false} IRTransitive(a: IRType, b: IRType, c: IRType)
    requires IRSubtype(a, b) && IRSubtype(b, c)
    ensures IRSubtype(a, c)
    decreases Depth(a) + Depth(b) + Depth(c)
  {
    if a.Union? {
      forall i | 0 <= i < |a.parts| ensures IRSubtype(a.parts[i], c) {
        DepthPart(a.parts, i);
        IRTransitive(a.parts[i], b, c);
      }
    } else if b.Union? {
      var i :| 0 <= i < |b.parts| && IRSubtype(a, b.parts[i]);
      DepthPart(b.parts, i);
      IRTransitive(a, b.parts[i], c);
    } else if c.Union? {
      var i :| 0 <= i < |c.parts| && IRSubtype(b, c.parts[i]);
      DepthPart(c.parts, i);
      IRTransitive(a, b, c.parts[i]);
    } else if c.Tuple? {
      forall i | 0 <= i < |c.parts| ensures IRSubtype(a.parts[i], c.parts[i]) {
        DepthPart(a.parts, i);
        DepthPart(b.parts, i);
        DepthPart(c.parts, i);
        IRTransitive(a.parts[i], b.parts[i], c.parts[i]);
      }
    } else if c.Array? || c.Cown? || c.Ref? {
      IRTransitive(a.of, b.of, c.of);
      IRTransitive(c.of, b.of, a.of);
    }
  }

  /**
   The axioms are a preorder, but contradiction is not inherited downward: the engine would not be
   complete for this table if the intermediate language had intersections.
   */
  lemma IRAxiomsNotLawful()
    ensures !Lawful(IR_CALCULUS)
  {
    var i8, i16, u8 := Prim(2), Prim(3), Prim(6);
    var v, w := Union([i8, i16]), Union([i8, u8]);
    var x, y, z := Tuple([i8]), Tuple([v]), Tuple([w]);
    assert IRSubtype(i8, v) && IRSubtype(i8, w) by {
      IRReflexive(i8);
      IntoUnion(i8, v.parts, 0);
      IntoUnion(i8, w.parts, 0);
    }
    assert !IRSubtype(v, w) && !IRSubtype(w, v) by {
      assert !IRSubtype(v.parts[1], w) && !IRSubtype(w.parts[1], v);
    }
    TupleOfOne(i8, v);
    TupleOfOne(i8, w);
    TupleOfOne(v, w);
    TupleOfOne(w, v);
    TupleOfOne(i8, i8);
    assert Below(IR_CALCULUS, x, y) && Below(IR_CALCULUS, x, z) && Clash(IR_CALCULUS, y, z);
    assert !Clash(IR_CALCULUS, x, x);
  }

  lemma TupleOfOne(t: IRType, u: IRType)
    ensures Below(IR_CALCULUS, Tuple([t]), Tuple([u])) == IRSubtype(t, u)
  {
    IRProves(Nowhere(), Tuple([t]), Tuple([u]));
    assert Tuple([t]).parts[0] == t && Tuple([u]).parts[0] == u;
  }
}
