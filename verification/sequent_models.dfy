/**
 What a sequent means, and that the search of `Sequents` finds exactly the valid ones.

 A wrapper node is transparent: taken off the right its parts are alternatives, taken off the left
 they all hold.  A formula therefore has a reading on each side, and `Not` and `Implies` swap sides.
 The two readings agree on formulas whose wrappers have exactly one part.
 */
module SequentModels {
  import opened Sequents

  datatype Side = Left | Right {
    function Other(): Side { if Left? then Right else Left }
  }

  /** The truth of `f`, read on side `side`, when exactly the atoms of `m` are true. */
  ghost predicate Holds<A(!new)>(side: Side, m: iset<A>, f: Formula<A>)
    decreases f
  {
    match f
    case Atom(a) => a in m
    case Wrap(ps) =>
      if side.Left? then forall i | 0 <= i < |ps| :: Holds(side, m, ps[i])
      else exists i | 0 <= i < |ps| :: Holds(side, m, ps[i])
    case Or(ps) => exists i | 0 <= i < |ps| :: Holds(side, m, ps[i])
    case And(ps) => forall i | 0 <= i < |ps| :: Holds(side, m, ps[i])
    case Not(p) => !Holds(side.Other(), m, p)
    case Implies(p, q) => !Holds(side.Other(), m, p) || Holds(side, m, q)
  }

  ghost predicate AllHold<A(!new)>(m: iset<A>, fs: seq<Formula<A>>) {
    forall i | 0 <= i < |fs| :: Holds(Left, m, fs[i])
  }

  ghost predicate SomeHolds<A(!new)>(m: iset<A>, fs: seq<Formula<A>>) {
    exists i | 0 <= i < |fs| :: Holds(Right, m, fs[i])
  }

  /**
   A model respects the axioms and contradictions in every context whose remembered implications
   it makes true.
   */
  ghost predicate IsModel<A(!new)>(c: Calculus<A>, assumptions: seq<Formula<A>>, m: iset<A>) {
    && (forall ctx: Ctx<A>, l, r | ctx.assumptions == assumptions && AllHold(m, ctx.implies) && Proves(c, ctx, l, r) ::
          l in m ==> r in m)
    && (forall ctx: Ctx<A>, l, r | ctx.assumptions == assumptions && AllHold(m, ctx.implies) && Contradicts(c, ctx, l, r) ::
          !(l in m && r in m))
  }

  /** Everything on the left of `s` is true in `m`. */
  ghost predicate Antecedent<A(!new)>(m: iset<A>, s: State<A>) {
    && AllHold(m, s.lhsPending)
    && (forall a | a in s.lhsAtomic :: a in m)
  }

  ghost predicate Succedent<A(!new)>(m: iset<A>, s: State<A>) {
    SomeHolds(m, s.rhsPending) || exists a | a in s.rhsAtomic :: a in m
  }

  ghost predicate Valid<A(!new)>(c: Calculus<A>, s: State<A>) {
    forall m | IsModel(c, s.ctx.assumptions, m) :: AllHold(m, s.ctx.implies) && Antecedent(m, s) ==> Succedent(m, s)
  }

  lemma AllHoldAppend<A(!new)>(m: iset<A>, fs: seq<Formula<A>>, gs: seq<Formula<A>>)
    ensures AllHold(m, fs + gs) <==> AllHold(m, fs) && AllHold(m, gs)
  {
    if AllHold(m, fs + gs) {
      forall i | 0 <= i < |fs| ensures Holds(Left, m, fs[i]) { assert fs[i] == (fs + gs)[i]; }
      forall i | 0 <= i < |gs| ensures Holds(Left, m, gs[i]) { assert gs[i] == (fs + gs)[|fs| + i]; }
    }
  }

  lemma SomeHoldsAppend<A(!new)>(m: iset<A>, fs: seq<Formula<A>>, gs: seq<Formula<A>>)
    ensures SomeHolds(m, fs + gs) <==> SomeHolds(m, fs) || SomeHolds(m, gs)
  {
    if SomeHolds(m, fs) {
      var i :| 0 <= i < |fs| && Holds(Right, m, fs[i]);
      assert (fs + gs)[i] == fs[i];
    }
    if SomeHolds(m, gs) {
      var i :| 0 <= i < |gs| && Holds(Right, m, gs[i]);
      assert (fs + gs)[|fs| + i] == gs[i];
    }
  }

  lemma AntecedentPush<A(!new)>(m: iset<A>, s: State<A>, fs: seq<Formula<A>>)
    ensures Antecedent(m, PushL(s, fs)) <==> Antecedent(m, s) && AllHold(m, fs)
    ensures Succedent(m, PushL(s, fs)) <==> Succedent(m, s)
    ensures Antecedent(m, PushR(s, fs)) <==> Antecedent(m, s)
    ensures Succedent(m, PushR(s, fs)) <==> Succedent(m, s) || SomeHolds(m, fs)
  {
    AllHoldAppend(m, s.lhsPending, fs);
    SomeHoldsAppend(m, s.rhsPending, fs);
  }

  /** Taking a formula off the right: what remains of the sequent without it. */
  lemma PopRight<A(!new)>(m: iset<A>, s: State<A>)
    requires s.rhsPending != []
    ensures var t := s.(rhsPending := Init(s.rhsPending));
      && (Antecedent(m, s) <==> Antecedent(m, t))
      && (Succedent(m, s) <==> Succedent(m, t) || Holds(Right, m, Last(s.rhsPending)))
  {
    assert s.rhsPending == Init(s.rhsPending) + [Last(s.rhsPending)];
    SomeHoldsAppend(m, Init(s.rhsPending), [Last(s.rhsPending)]);
    assert SomeHolds(m, [Last(s.rhsPending)]) <==> Holds(Right, m, Last(s.rhsPending)) by {
      assert [Last(s.rhsPending)][0] == Last(s.rhsPending);
    }
  }

  lemma PopLeft<A(!new)>(m: iset<A>, s: State<A>)
    requires s.lhsPending != []
    ensures var t := s.(lhsPending := Init(s.lhsPending));
      && (Antecedent(m, s) <==> Antecedent(m, t) && Holds(Left, m, Last(s.lhsPending)))
      && (Succedent(m, s) <==> Succedent(m, t))
  {
    assert s.lhsPending == Init(s.lhsPending) + [Last(s.lhsPending)];
    AllHoldAppend(m, Init(s.lhsPending), [Last(s.lhsPending)]);
    assert AllHold(m, [Last(s.lhsPending)]) <==> Holds(Left, m, Last(s.lhsPending)) by {
      assert [Last(s.lhsPending)][0] == Last(s.lhsPending);
    }
  }

  lemma One<A(!new)>(m: iset<A>, f: Formula<A>)
    ensures AllHold(m, [f]) <==> Holds(Left, m, f)
    ensures SomeHolds(m, [f]) <==> Holds(Right, m, f)
  {
    assert [f][0] == f;
  }

  lemma RememberHolds<A(!new)>(m: iset<A>, s: State<A>, f: Formula<A>)
    requires AllHold(m, s.ctx.implies)
    ensures AllHold(m, Remember(s, f).ctx.implies) <==> Holds(Left, m, f)
    ensures Antecedent(m, Remember(s, f)) <==> Antecedent(m, s)
    ensures Succedent(m, Remember(s, f)) <==> Succedent(m, s)
  {
    if f in s.ctx.implies {
      var i :| 0 <= i < |s.ctx.implies| && s.ctx.implies[i] == f;
    } else {
      AllHoldAppend(m, s.ctx.implies, [f]);
      One(m, f);
    }
  }

  // ---------------------------------------------------------------- soundness

  /** What the search accepts is true in every model, whatever the axioms. */
  lemma {:induction false} Sound<A(!new)>(c: Calculus<A>, s: State<A>, m: iset<A>)
    requires Derives(c, s) && IsModel(c, s.ctx.assumptions, m)
    requires AllHold(m, s.ctx.implies) && Antecedent(m, s)
    ensures Succedent(m, s)
    decreases Measure(s)
  {
    if s.rhsPending != [] {
      SoundRight(c, s, m);
    } else if s.lhsPending != [] {
      SoundLeft(c, s, m);
    }
  }

  lemma {:induction false} SoundRight<A(!new)>(c: Calculus<A>, s: State<A>, m: iset<A>)
    requires Derives(c, s) && IsModel(c, s.ctx.assumptions, m)
    requires AllHold(m, s.ctx.implies) && Antecedent(m, s)
    requires s.rhsPending != []
    ensures Succedent(m, s)
    decreases Measure(s), 0
  {
    var f := Last(s.rhsPending);
    var t := s.(rhsPending := Init(s.rhsPending));
    PopRight(m, s);
    assert Measure(t) + Size(f) == Measure(s);
    match f
    case Wrap(ps) => AntecedentPush(m, t, ps); Sound(c, PushR(t, ps), m);
    case Or(ps) => AntecedentPush(m, t, ps); Sound(c, PushR(t, ps), m);
    case And(ps) =>
      if !Succedent(m, t) {
        forall i | 0 <= i < |ps| ensures Holds(Right, m, ps[i]) {
          WeightPart(ps, i);
          AntecedentPush(m, t, [ps[i]]);
          One(m, ps[i]);
          Sound(c, PushR(t, [ps[i]]), m);
        }
      }
    case Not(p) =>
      AntecedentPush(m, t, [p]);
      One(m, p);
      if Holds(Left, m, p) {
        Sound(c, PushL(t, [p]), m);
      }
    case Implies(p, q) =>
      AntecedentPush(m, t, [p]);
      AntecedentPush(m, PushL(t, [p]), [q]);
      One(m, p);
      One(m, q);
      if Holds(Left, m, p) {
        Sound(c, PushR(PushL(t, [p]), [q]), m);
      }
    case Atom(a) =>
      Sound(c, t.(rhsAtomic := t.rhsAtomic + [a]), m);
  }

  lemma {:induction false} SoundLeft<A(!new)>(c: Calculus<A>, s: State<A>, m: iset<A>)
    requires Derives(c, s) && IsModel(c, s.ctx.assumptions, m)
    requires AllHold(m, s.ctx.implies) && Antecedent(m, s)
    requires s.rhsPending == [] && s.lhsPending != []
    ensures Succedent(m, s)
    decreases Measure(s), 0
  {
    var f := Last(s.lhsPending);
    var t := s.(lhsPending := Init(s.lhsPending));
    PopLeft(m, s);
    assert Measure(t) + Size(f) == Measure(s);
    match f
    case Wrap(ps) => AntecedentPush(m, t, ps); Sound(c, PushL(t, ps), m);
    case And(ps) => AntecedentPush(m, t, ps); Sound(c, PushL(t, ps), m);
    case Or(ps) =>
      var i :| 0 <= i < |ps| && Holds(Left, m, ps[i]);
      WeightPart(ps, i);
      AntecedentPush(m, t, [ps[i]]);
      One(m, ps[i]);
      Sound(c, PushL(t, [ps[i]]), m);
    case Not(p) =>
      AntecedentPush(m, t, [p]);
      One(m, p);
      Sound(c, PushR(t, [p]), m);
    case Implies(p, q) =>
      RememberHolds(m, t, f);
      AntecedentPush(m, Remember(t, f), [p]);
      AntecedentPush(m, Remember(t, f), [q]);
      One(m, p);
      One(m, q);
      Sound(c, PushR(Remember(t, f), [p]), m);
      if !Succedent(m, t) {
        Sound(c, PushL(Remember(t, f), [q]), m);
      }
    case Atom(a) =>
      Sound(c, t.(lhsAtomic := t.lhsAtomic + [a]), m);
  }

  // ---------------------------------------------------------------- completeness

  /** No axiom looks at its context. */
  ghost predicate ContextFree<A(!new)>(c: Calculus<A>) {
    && (forall ctx: Ctx<A>, ctx', l, r :: Proves(c, ctx, l, r) == Proves(c, ctx', l, r))
    && (forall ctx: Ctx<A>, ctx', l, r :: Contradicts(c, ctx, l, r) == Contradicts(c, ctx', l, r))
  }

  function Nowhere<A>(): Ctx<A> { Ctx([], []) }

  ghost predicate Below<A(!new)>(c: Calculus<A>, l: A, r: A) { Proves(c, Nowhere(), l, r) }

  ghost predicate Clash<A(!new)>(c: Calculus<A>, l: A, r: A) { Contradicts(c, Nowhere(), l, r) }

  /** The axioms form a preorder; contradiction is irreflexive and inherited downward. */
  ghost predicate Lawful<A(!new)>(c: Calculus<A>) {
    && (forall a :: Below(c, a, a))
    && (forall x, y, z :: Below(c, x, y) && Below(c, y, z) ==> Below(c, x, z))
    && (forall a :: !Clash(c, a, a))
    && (forall x, y, x', y' :: Below(c, x, x') && Below(c, y, y') && Clash(c, x', y') ==> Clash(c, x, y))
  }

  /** No two of the atoms contradict. */
  ghost predicate Consistent<A(!new)>(c: Calculus<A>, atoms: seq<A>) {
    forall i, j | 0 <= i < |atoms| && 0 <= j < |atoms| :: !Clash(c, atoms[i], atoms[j])
  }

  ghost predicate AboveSome<A(!new)>(c: Calculus<A>, atoms: seq<A>, b: A) {
    exists a | a in atoms :: Below(c, a, b)
  }

  /** Everything above some assumed atom: the canonical model of a list of atoms. */
  ghost function Closure<A(!new)>(c: Calculus<A>, atoms: seq<A>): iset<A> {
    iset b | AboveSome(c, atoms, b)
  }

  lemma ClosureConsistent<A(!new)>(c: Calculus<A>, atoms: seq<A>, l: A, r: A)
    requires Lawful(c) && Consistent(c, atoms)
    requires AboveSome(c, atoms, l) && AboveSome(c, atoms, r)
    ensures !Clash(c, l, r)
  {
    var a :| a in atoms && Below(c, a, l);
    var b :| b in atoms && Below(c, b, r);
    assert !Clash(c, a, b);
  }

  lemma ClosureIsModel<A(!new)>(c: Calculus<A>, assumptions: seq<Formula<A>>, atoms: seq<A>)
    requires ContextFree(c) && Lawful(c) && Consistent(c, atoms)
    ensures IsModel(c, assumptions, Closure(c, atoms))
    ensures forall a | a in atoms :: a in Closure(c, atoms)
  {
    var m := Closure(c, atoms);
    forall ctx: Ctx<A>, l, r | Proves(c, ctx, l, r) && l in m ensures r in m {
      var a :| a in atoms && Below(c, a, l);
      assert Below(c, l, r);
      assert Below(c, a, r);
    }
    forall ctx: Ctx<A>, l, r | l in m && r in m ensures !Contradicts(c, ctx, l, r) {
      ClosureConsistent(c, atoms, l, r);
      assert Clash(c, l, r) == Contradicts(c, ctx, l, r);
    }
    forall a | a in atoms ensures a in m {
      assert Below(c, a, a);
    }
  }

  lemma ConsistentAppend<A(!new)>(c: Calculus<A>, s: State<A>, a: A)
    requires ContextFree(c) && Lawful(c) && Consistent(c, s.lhsAtomic)
    requires forall x | x in s.lhsAtomic :: !Contradicts(c, s.ctx, x, a)
    ensures Consistent(c, s.lhsAtomic + [a])
  {
    forall x | x in s.lhsAtomic ensures !Clash(c, x, a) && !Clash(c, a, x) {
      ContradictsSymmetric(c, Nowhere(), x, a);
      assert Clash(c, x, a) == Contradicts(c, s.ctx, x, a);
    }
  }

  ghost predicate Refutes<A(!new)>(c: Calculus<A>, s: State<A>, m: iset<A>) {
    IsModel(c, s.ctx.assumptions, m) && Antecedent(m, s) && !Succedent(m, s)
  }

  /** A failed search yields a model of the left-hand side in which nothing on the right holds. */
  lemma {:induction false} Countermodel<A(!new)>(c: Calculus<A>, s: State<A>) returns (m: iset<A>)
    requires ContextFree(c) && Lawful(c)
    requires !Derives(c, s) && Consistent(c, s.lhsAtomic)
    ensures Refutes(c, s, m)
    decreases Measure(s), 1
  {
    hide Lawful, ContextFree, Consistent, Derives, Refutes;
    if s.rhsPending != [] {
      m := CountermodelRight(c, s);
    } else if s.lhsPending != [] {
      m := CountermodelLeft(c, s);
    } else {
      m := Closure(c, s.lhsAtomic);
      ClosureRefutes(c, s);
    }
  }

  lemma ClosureRefutes<A(!new)>(c: Calculus<A>, s: State<A>)
    requires ContextFree(c) && Lawful(c)
    requires !Derives(c, s) && Consistent(c, s.lhsAtomic)
    requires s.rhsPending == [] && s.lhsPending == []
    ensures Refutes(c, s, Closure(c, s.lhsAtomic))
  {
    hide Lawful, IsModel;
    var m := Closure(c, s.lhsAtomic);
    ClosureIsModel(c, s.ctx.assumptions, s.lhsAtomic);
    forall b | b in s.rhsAtomic ensures b !in m {
      forall a | a in s.lhsAtomic ensures !Below(c, a, b) {
        assert Below(c, a, b) == Proves(c, s.ctx, a, b);
      }
    }
  }

  lemma {:induction false} CountermodelRight<A(!new)>(c: Calculus<A>, s: State<A>) returns (m: iset<A>)
    requires ContextFree(c) && Lawful(c)
    requires !Derives(c, s) && Consistent(c, s.lhsAtomic)
    requires s.rhsPending != []
    ensures Refutes(c, s, m)
    decreases Measure(s), 0
  {
    var f := Last(s.rhsPending);
    var t := s.(rhsPending := Init(s.rhsPending));
    assert Measure(t) + Size(f) == Measure(s);
    match f {
      case Wrap(ps) => m := Countermodel(c, PushR(t, ps)); AntecedentPush(m, t, ps);
      case Or(ps) => m := Countermodel(c, PushR(t, ps)); AntecedentPush(m, t, ps);
      case And(ps) =>
        var i :| 0 <= i < |ps| && !Derives(c, PushR(t, [ps[i]]));
        WeightPart(ps, i);
        m := Countermodel(c, PushR(t, [ps[i]]));
        AntecedentPush(m, t, [ps[i]]);
        One(m, ps[i]);
      case Not(p) =>
        m := Countermodel(c, PushL(t, [p]));
        AntecedentPush(m, t, [p]);
        One(m, p);
      case Implies(p, q) =>
        m := Countermodel(c, PushR(PushL(t, [p]), [q]));
        AntecedentPush(m, t, [p]);
        AntecedentPush(m, PushL(t, [p]), [q]);
        One(m, p);
        One(m, q);
      case Atom(a) =>
        m := Countermodel(c, t.(rhsAtomic := t.rhsAtomic + [a]));
        assert a in t.rhsAtomic + [a];
        assert forall b | b in t.rhsAtomic :: b in t.rhsAtomic + [a];
    }
    PopRight(m, s);
  }

  lemma {:induction false} CountermodelLeft<A(!new)>(c: Calculus<A>, s: State<A>) returns (m: iset<A>)
    requires ContextFree(c) && Lawful(c)
    requires !Derives(c, s) && Consistent(c, s.lhsAtomic)
    requires s.rhsPending == [] && s.lhsPending != []
    ensures Refutes(c, s, m)
    decreases Measure(s), 0
  {
    var f := Last(s.lhsPending);
    var t := s.(lhsPending := Init(s.lhsPending));
    assert Measure(t) + Size(f) == Measure(s);
    match f {
      case Wrap(ps) => m := Countermodel(c, PushL(t, ps)); AntecedentPush(m, t, ps);
      case And(ps) => m := Countermodel(c, PushL(t, ps)); AntecedentPush(m, t, ps);
      case Or(ps) =>
        var i :| 0 <= i < |ps| && !Derives(c, PushL(t, [ps[i]]));
        WeightPart(ps, i);
        m := Countermodel(c, PushL(t, [ps[i]]));
        AntecedentPush(m, t, [ps[i]]);
        One(m, ps[i]);
      case Not(p) =>
        m := Countermodel(c, PushR(t, [p]));
        AntecedentPush(m, t, [p]);
        One(m, p);
      case Implies(p, q) =>
        if !Derives(c, PushR(Remember(t, f), [p])) {
          m := Countermodel(c, PushR(Remember(t, f), [p]));
        } else {
          m := Countermodel(c, PushL(Remember(t, f), [q]));
        }
        AntecedentPush(m, Remember(t, f), [p]);
        AntecedentPush(m, Remember(t, f), [q]);
        One(m, p);
        One(m, q);
      case Atom(a) =>
        ConsistentAppend(c, t, a);
        m := Countermodel(c, t.(lhsAtomic := t.lhsAtomic + [a]));
        assert a in t.lhsAtomic + [a];
        assert forall b | b in t.lhsAtomic :: b in t.lhsAtomic + [a];
    }
    PopLeft(m, s);
  }

  // ---------------------------------------------------------------- queries

  /** The query `l` against `r` under the caller's implications, read in all models. */
  ghost predicate Follows<A(!new)>(c: Calculus<A>, ctx: Ctx<A>, l: Formula<A>, r: Formula<A>) {
    forall m | IsModel(c, ctx.assumptions, m) && AllHold(m, ctx.implies) && Holds(Left, m, l) :: Holds(Right, m, r)
  }

  lemma StartHolds<A(!new)>(m: iset<A>, ctx: Ctx<A>, l: Formula<A>, r: Formula<A>)
    ensures Antecedent(m, Start(ctx, l, r)) <==> AllHold(m, ctx.implies) && Holds(Left, m, l)
    ensures Succedent(m, Start(ctx, l, r)) <==> Holds(Right, m, r)
  {
    AllHoldAppend(m, ctx.implies, [l]);
    One(m, l);
    One(m, r);
  }

  /** Every accepted query holds, also when axioms and contradictions depend on the context. */
  lemma EntailsSound<A(!new)>(c: Calculus<A>, ctx: Ctx<A>, l: Formula<A>, r: Formula<A>)
    requires Entails(c, ctx, l, r)
    ensures Follows(c, ctx, l, r)
  {
    forall m | IsModel(c, ctx.assumptions, m) && AllHold(m, ctx.implies) && Holds(Left, m, l)
      ensures Holds(Right, m, r)
    {
      StartHolds(m, ctx, l, r);
      Sound(c, Start(ctx, l, r), m);
    }
  }

  lemma EntailsComplete<A(!new)>(c: Calculus<A>, ctx: Ctx<A>, l: Formula<A>, r: Formula<A>)
    requires ContextFree(c) && Lawful(c) && Follows(c, ctx, l, r)
    ensures Entails(c, ctx, l, r)
  {
    if !Entails(c, ctx, l, r) {
      var m := Countermodel(c, Start(ctx, l, r));
      StartHolds(m, ctx, l, r);
    }
  }

  ghost predicate Decides<A(!new)>(c: Calculus<A>) {
    forall ctx: Ctx<A>, l, r :: Entails(c, ctx, l, r) <==> Follows(c, ctx, l, r)
  }

  /** For context-free axioms the search decides every query exactly when the axioms are lawful. */
  lemma DecidesIffLawful<A(!new)>(c: Calculus<A>)
    requires ContextFree(c)
    ensures Decides(c) <==> Lawful(c)
  {
    if Lawful(c) {
      forall ctx: Ctx<A>, l, r ensures Entails(c, ctx, l, r) <==> Follows(c, ctx, l, r) {
        if Entails(c, ctx, l, r) {
          EntailsSound(c, ctx, l, r);
        }
        if Follows(c, ctx, l, r) {
          EntailsComplete(c, ctx, l, r);
        }
      }
    }
    if Decides(c) {
      forall a ensures Below(c, a, a) && !Clash(c, a, a) { AtomLaws(c, a); }
      forall x, y, z | Below(c, x, y) && Below(c, y, z) ensures Below(c, x, z) { TransitiveLaw(c, x, y, z); }
      forall x, y, x', y' | Below(c, x, x') && Below(c, y, y') && Clash(c, x', y') ensures Clash(c, x, y) {
        InheritedLaw(c, x, y, x', y');
      }
    }
  }

  /** The search on one atom against one atom. */
  lemma AtomQuery<A(!new)>(c: Calculus<A>, a: A, b: A)
    ensures Entails(c, Nowhere(), Atom(a), Atom(b)) <==> Below(c, a, b)
  {
    AtomSearch(c, Nowhere(), a, b);
  }

  /** The search on a list of assumed atoms against nothing: only a contradiction can succeed. */
  lemma PairQuery<A(!new)>(c: Calculus<A>, a: A, b: A)
    requires ContextFree(c)
    ensures Entails(c, Nowhere(), Atom(a), Or([])) == false
    ensures Entails(c, Ctx([Atom(a)], []), Atom(b), Or([])) <==> Clash(c, b, a)
  {
    var n: Ctx<A> := Nowhere();
    OrNothing(c, State(n, [Atom(a)], [Or([])], [], []));
    OrNothing(c, State(n, [Atom(a), Atom(b)], [Or([])], [], []));
    var s1 := State(n, [Atom(a), Atom(b)], [], [], []);
    var s2 := State(n, [Atom(a)], [], [b], []);
    var s3 := State(n, [], [], [b, a], []);
    assert [] + [Atom(a)] == [Atom(a)] && [Atom(a)] + [Atom(b)] == [Atom(a), Atom(b)];
    assert s1.(lhsPending := Init(s1.lhsPending), lhsAtomic := [] + [b]) == s2;
    assert s2.(lhsPending := Init(s2.lhsPending), lhsAtomic := [b] + [a]) == s3;
    assert Derives(c, s1) == Derives(c, s2);
    assert !Derives(c, s3);
    assert b in s2.lhsAtomic;
    var s4 := State(n, [], [], [a], []);
    var s5 := State(n, [Atom(a)], [], [], []);
    assert s5.(lhsPending := Init(s5.lhsPending), lhsAtomic := [] + [a]) == s4;
    assert !Derives(c, s4);
  }

  lemma OrNothing<A(!new)>(c: Calculus<A>, s: State<A>)
    requires s.rhsPending == [Or([])]
    ensures Derives(c, s) == Derives(c, s.(rhsPending := []))
  {
    var t := s.(rhsPending := Init(s.rhsPending));
    assert PushR(t, []) == s.(rhsPending := []);
  }

  lemma AtomLaws<A(!new)>(c: Calculus<A>, a: A)
    requires ContextFree(c) && Decides(c)
    ensures Below(c, a, a) && !Clash(c, a, a)
  {
    AtomQuery(c, a, a);
    PairQuery(c, a, a);
    assert Follows(c, Nowhere(), Atom(a), Atom(a));
    var ctx: Ctx<A> := Nowhere();
    var m :| IsModel(c, [], m) && AllHold(m, []) && Holds(Left, m, Atom(a)) && !Holds(Right, m, Or([]));
    assert AllHold(m, ctx.implies);
  }

  lemma TransitiveLaw<A(!new)>(c: Calculus<A>, x: A, y: A, z: A)
    requires ContextFree(c) && Decides(c)
    requires Below(c, x, y) && Below(c, y, z)
    ensures Below(c, x, z)
  {
    AtomQuery(c, x, z);
    forall m | IsModel(c, [], m) && x in m ensures z in m {
      NowhereHolds(m);
    }
    assert Follows(c, Nowhere(), Atom(x), Atom(z));
  }

  lemma InheritedLaw<A(!new)>(c: Calculus<A>, x: A, y: A, x': A, y': A)
    requires ContextFree(c) && Decides(c)
    requires Below(c, x, x') && Below(c, y, y') && Clash(c, x', y')
    ensures Clash(c, x, y)
  {
    PairQuery(c, y, x);
    var ctx := Ctx([Atom(y)], []);
    forall m | IsModel(c, [], m) && AllHold(m, ctx.implies) ensures !Holds(Left, m, Atom(x)) {
      assert Holds(Left, m, ctx.implies[0]);
      ModelSeparates(c, m, x, y, x', y');
    }
    assert Follows(c, ctx, Atom(x), Or([]));
  }

  lemma ModelSeparates<A(!new)>(c: Calculus<A>, m: iset<A>, x: A, y: A, x': A, y': A)
    requires IsModel(c, [], m)
    requires Below(c, x, x') && Below(c, y, y') && Clash(c, x', y')
    ensures !(x in m && y in m)
  {
    NowhereHolds(m);
  }

  lemma NowhereHolds<A(!new)>(m: iset<A>)
    ensures AllHold(m, Nowhere<A>().implies) && Nowhere<A>().assumptions == []
  {
  }

  // ---------------------------------------------------------------- consequences

  /** The axioms registered against a contradiction of two atoms, if there are any, all agree to it. */
  predicate Ruled<A>(c: Calculus<A>, ctx: Ctx<A>, a: A, b: A) {
    && (c.token(a) in c.contradictionAxioms ==> c.contradictionAxioms[c.token(a)](ctx, b, a))
    && (c.token(b) in c.contradictionAxioms ==> c.contradictionAxioms[c.token(b)](ctx, a, b))
  }

  /**
   Which intersections of two atoms are empty: the registered contradiction axioms decide, and where there are none
   two atoms are apart exactly if neither is below the other, of whatever kinds they are.
   */
  lemma EmptyIntersection<A(!new)>(c: Calculus<A>, assumptions: seq<Formula<A>>, a: A, b: A)
    ensures var ctx := Ctx([], assumptions);
      Entails(c, ctx, And([Atom(a), Atom(b)]), Or([])) <==>
        if c.token(a) in c.contradictionAxioms || c.token(b) in c.contradictionAxioms then Ruled(c, ctx, a, b)
        else !Entails(c, ctx, Atom(a), Atom(b)) && !Entails(c, ctx, Atom(b), Atom(a))
  {
    var ctx := Ctx([], assumptions);
    PairSearch(c, ctx, a, b);
    AtomSearch(c, ctx, a, b);
    AtomSearch(c, ctx, b, a);
  }

  lemma AtomSearch<A(!new)>(c: Calculus<A>, ctx: Ctx<A>, a: A, b: A)
    requires ctx.implies == []
    ensures Entails(c, ctx, Atom(a), Atom(b)) <==> Proves(c, ctx, a, b)
  {
    var s0 := Start(ctx, Atom(a), Atom(b));
    var s1 := State(ctx, [Atom(a)], [], [], [b]);
    var s2 := State(ctx, [], [], [a], [b]);
    assert s0.rhsPending == [Atom(b)] && s0.lhsPending == [Atom(a)];
    assert s0.(rhsPending := Init(s0.rhsPending), rhsAtomic := [] + [b]) == s1;
    assert s1.(lhsPending := Init(s1.lhsPending), lhsAtomic := [] + [a]) == s2;
    assert Derives(c, s0) == Derives(c, s1) == Derives(c, s2) == Closes(c, s2);
    assert a in s2.lhsAtomic && b in s2.rhsAtomic;
  }

  lemma PairSearch<A(!new)>(c: Calculus<A>, ctx: Ctx<A>, a: A, b: A)
    requires ctx.implies == []
    ensures Entails(c, ctx, And([Atom(a), Atom(b)]), Or([])) <==> Contradicts(c, ctx, b, a)
  {
    var both: Formula<A> := And([Atom(a), Atom(b)]);
    var s0 := State(ctx, [both], [], [], []);
    assert [] + [both] == [both];
    OrNothing(c, State(ctx, [both], [Or([])], [], []));
    var s1 := State(ctx, [Atom(a), Atom(b)], [], [], []);
    var s2 := State(ctx, [Atom(a)], [], [b], []);
    var s3 := State(ctx, [], [], [b, a], []);
    assert PushL(s0.(lhsPending := Init(s0.lhsPending)), both.parts) == s1 by {
      assert [] + [Atom(a), Atom(b)] == [Atom(a), Atom(b)];
    }
    assert s1.(lhsPending := Init(s1.lhsPending), lhsAtomic := [] + [b]) == s2;
    assert s2.(lhsPending := Init(s2.lhsPending), lhsAtomic := [b] + [a]) == s3;
    assert Derives(c, s0) == Derives(c, s1) == Derives(c, s2);
    assert !Derives(c, s3);
    assert b in s2.lhsAtomic;
  }

  /** A state whose assumed atoms do not contradict is decided by its models. */
  lemma StateDecided<A(!new)>(c: Calculus<A>, s: State<A>)
    requires ContextFree(c) && Lawful(c) && Consistent(c, s.lhsAtomic) && s.ctx.implies == []
    ensures Derives(c, s) <==> Valid(c, s)
  {
    if Derives(c, s) {
      forall m | IsModel(c, s.ctx.assumptions, m) && Antecedent(m, s) ensures Succedent(m, s) {
        Sound(c, s, m);
      }
    } else {
      var m := Countermodel(c, s);
      assert AllHold(m, s.ctx.implies);
    }
  }

  /** The order and the repetition of pending formulas make no difference to the answer. */
  lemma OrderIrrelevant<A(!new)>(c: Calculus<A>, s: State<A>, t: State<A>)
    requires ContextFree(c) && Lawful(c) && Consistent(c, s.lhsAtomic) && Consistent(c, t.lhsAtomic)
    requires s.ctx == t.ctx && s.ctx.implies == []
    requires forall f :: f in s.lhsPending <==> f in t.lhsPending
    requires forall f :: f in s.rhsPending <==> f in t.rhsPending
    requires forall a :: a in s.lhsAtomic <==> a in t.lhsAtomic
    requires forall a :: a in s.rhsAtomic <==> a in t.rhsAtomic
    ensures Derives(c, s) == Derives(c, t)
  {
    StateDecided(c, s);
    StateDecided(c, t);
    forall m ensures Antecedent(m, s) == Antecedent(m, t) && Succedent(m, s) == Succedent(m, t) {
      HoldByMembers(m, s.lhsPending);
      HoldByMembers(m, t.lhsPending);
      HoldByMembers(m, s.rhsPending);
      HoldByMembers(m, t.rhsPending);
    }
  }

  lemma HoldByMembers<A(!new)>(m: iset<A>, fs: seq<Formula<A>>)
    ensures AllHold(m, fs) <==> forall f | f in fs :: Holds(Left, m, f)
    ensures SomeHolds(m, fs) <==> exists f | f in fs :: Holds(Right, m, f)
  {
    forall i | 0 <= i < |fs| ensures fs[i] in fs {}
    if forall f | f in fs :: Holds(Left, m, f) {
      assert forall i | 0 <= i < |fs| :: Holds(Left, m, fs[i]);
    }
    if i :| 0 <= i < |fs| && Holds(Right, m, fs[i]) {
      assert fs[i] in fs;
    }
  }

  /** Every wrapper in `f` has exactly one part, as the source's `Type` nodes do. */
  predicate Plain<A>(f: Formula<A>)
    decreases f
  {
    match f
    case Atom(_) => true
    case Wrap(ps) => |ps| == 1 && Plain(ps[0])
    case Or(ps) => forall i | 0 <= i < |ps| :: Plain(ps[i])
    case And(ps) => forall i | 0 <= i < |ps| :: Plain(ps[i])
    case Not(p) => Plain(p)
    case Implies(p, q) => Plain(p) && Plain(q)
  }

  /** A plain formula means the same on both sides. */
  lemma {:induction false} SidesAgree<A(!new)>(m: iset<A>, f: Formula<A>)
    requires Plain(f)
    ensures Holds(Left, m, f) == Holds(Right, m, f)
    decreases f
  {
    match f
    case Atom(_) =>
    case Wrap(ps) => SidesAgree(m, ps[0]);
    case Or(ps) => forall i | 0 <= i < |ps| ensures Holds(Left, m, ps[i]) == Holds(Right, m, ps[i]) { SidesAgree(m, ps[i]); }
    case And(ps) => forall i | 0 <= i < |ps| ensures Holds(Left, m, ps[i]) == Holds(Right, m, ps[i]) { SidesAgree(m, ps[i]); }
    case Not(p) => SidesAgree(m, p);
    case Implies(p, q) => SidesAgree(m, p); SidesAgree(m, q);
  }

  lemma Reflexivity<A(!new)>(c: Calculus<A>, ctx: Ctx<A>, f: Formula<A>)
    requires ContextFree(c) && Lawful(c) && Plain(f)
    ensures Entails(c, ctx, f, f)
  {
    forall m ensures Holds(Left, m, f) == Holds(Right, m, f) {
      SidesAgree(m, f);
    }
    EntailsComplete(c, ctx, f, f);
  }

  /** A wrapper without parts is not even related to itself: it is true on the left and false on the right. */
  lemma EmptyWrapperIsNotReflexive<A(!new)>(c: Calculus<A>, a: A)
    requires ContextFree(c) && Lawful(c)
    ensures !Entails(c, Nowhere(), Wrap([]), Wrap([]))
  {
    var m := Closure(c, []);
    ClosureIsModel(c, [], []);
    NowhereHolds(m);
    assert Holds(Left, m, Wrap([])) && !Holds(Right, m, Wrap([]));
    if Entails(c, Nowhere(), Wrap([]), Wrap([])) {
      EntailsSound(c, Nowhere(), Wrap([]), Wrap([]));
    }
  }

  /** Cut: a plain intermediate formula can be removed. */
  lemma Cut<A(!new)>(c: Calculus<A>, ctx: Ctx<A>, l: Formula<A>, f: Formula<A>, r: Formula<A>)
    requires ContextFree(c) && Lawful(c) && Plain(f)
    requires Entails(c, ctx, l, f) && Entails(c, ctx, f, r)
    ensures Entails(c, ctx, l, r)
  {
    EntailsSound(c, ctx, l, f);
    EntailsSound(c, ctx, f, r);
    forall m ensures Holds(Left, m, f) == Holds(Right, m, f) {
      SidesAgree(m, f);
    }
    EntailsComplete(c, ctx, l, r);
  }

  /** `Invariant` is an equivalence on plain formulas, and equivalent formulas answer every query alike. */
  lemma InvariantIsCongruence<A(!new)>(c: Calculus<A>, ctx: Ctx<A>, f: Formula<A>, g: Formula<A>, h: Formula<A>)
    requires ContextFree(c) && Lawful(c) && Plain(f) && Plain(g) && Plain(h)
    ensures Invariant(c, ctx, f, f)
    ensures Invariant(c, ctx, f, g) == Invariant(c, ctx, g, f)
    ensures Invariant(c, ctx, f, g) && Invariant(c, ctx, g, h) ==> Invariant(c, ctx, f, h)
    ensures Invariant(c, ctx, f, g) ==> Entails(c, ctx, f, h) == Entails(c, ctx, g, h)
    ensures Invariant(c, ctx, f, g) ==> Entails(c, ctx, h, f) == Entails(c, ctx, h, g)
  {
    Reflexivity(c, ctx, f);
    if Invariant(c, ctx, f, g) {
      if Entails(c, ctx, g, h) { Cut(c, ctx, f, g, h); }
      if Entails(c, ctx, f, h) { Cut(c, ctx, g, f, h); }
      if Entails(c, ctx, h, f) { Cut(c, ctx, h, f, g); }
      if Entails(c, ctx, h, g) { Cut(c, ctx, h, g, f); }
    }
  }

  // ---------------------------------------------------------------- the union fragment

  predicate UnionOnly<A>(f: Formula<A>)
    decreases f
  {
    match f
    case Atom(_) => true
    case Or(ps) => forall i | 0 <= i < |ps| :: UnionOnly(ps[i])
    case _ => false
  }

  predicate IsLeaf<A(==)>(f: Formula<A>, a: A)
    decreases f
  {
    match f
    case Atom(b) => a == b
    case Or(ps) => exists i | 0 <= i < |ps| :: IsLeaf(ps[i], a)
    case _ => false
  }

  ghost predicate RightLeaf<A(!new)>(s: State<A>, b: A) {
    b in s.rhsAtomic || exists i | 0 <= i < |s.rhsPending| :: IsLeaf(s.rhsPending[i], b)
  }

  /** Some alternative on the right is above `a`. */
  ghost predicate Covered<A(!new)>(c: Calculus<A>, s: State<A>, a: A) {
    exists b :: RightLeaf(s, b) && Proves(c, s.ctx, a, b)
  }

  lemma {:induction false} RightUnions<A(!new)>(c: Calculus<A>, s: State<A>)
    requires |s.lhsPending| == 1 && UnionOnly(s.lhsPending[0]) && s.lhsAtomic == []
    requires forall i | 0 <= i < |s.rhsPending| :: UnionOnly(s.rhsPending[i])
    ensures Derives(c, s) <==> forall a | IsLeaf(s.lhsPending[0], a) :: Covered(c, s, a)
    decreases Measure(s)
  {
    if s.rhsPending == [] {
      LeftUnion(c, s);
    } else {
      var f := Last(s.rhsPending);
      var t := s.(rhsPending := Init(s.rhsPending));
      assert Measure(t) + Size(f) == Measure(s);
      var u := if f.Or? then PushR(t, f.parts) else t.(rhsAtomic := t.rhsAtomic + [f.atom]);
      RightUnions(c, u);
      forall b ensures RightLeaf(s, b) <==> RightLeaf(u, b) {
        PoppedLeaf(s, b);
        if f.Or? {
          PushedLeaf(t, f.parts, b);
        }
      }
    }
  }

  lemma PoppedLeaf<A(!new)>(s: State<A>, b: A)
    requires s.rhsPending != []
    ensures RightLeaf(s, b) <==> RightLeaf(s.(rhsPending := Init(s.rhsPending)), b) || IsLeaf(Last(s.rhsPending), b)
  {
    var t := s.(rhsPending := Init(s.rhsPending));
    if i :| 0 <= i < |t.rhsPending| && IsLeaf(t.rhsPending[i], b) {
      assert s.rhsPending[i] == t.rhsPending[i];
    }
  }

  lemma PushedLeaf<A(!new)>(t: State<A>, ps: seq<Formula<A>>, b: A)
    ensures RightLeaf(PushR(t, ps), b) <==> RightLeaf(t, b) || IsLeaf(Or(ps), b)
  {
    var u := PushR(t, ps);
    if i :| 0 <= i < |t.rhsPending| && IsLeaf(t.rhsPending[i], b) {
      assert u.rhsPending[i] == t.rhsPending[i];
    }
    if i :| 0 <= i < |ps| && IsLeaf(ps[i], b) {
      assert u.rhsPending[|t.rhsPending| + i] == ps[i];
    }
  }

  lemma LeftAtom<A(!new)>(c: Calculus<A>, s: State<A>, a: A)
    requires s.lhsPending == [Atom(a)] && s.lhsAtomic == [] && s.rhsPending == []
    ensures Derives(c, s) <==> Covered(c, s, a)
  {
    var u := s.(lhsPending := [], lhsAtomic := [a]);
    assert u == s.(lhsPending := Init(s.lhsPending), lhsAtomic := s.lhsAtomic + [a]);
    assert Derives(c, s) == Derives(c, u) == Closes(c, u);
    if Closes(c, u) {
      var r :| r in u.rhsAtomic && Proves(c, u.ctx, a, r);
      assert RightLeaf(s, r);
    }
    if Covered(c, s, a) {
      var b :| RightLeaf(s, b) && Proves(c, s.ctx, a, b);
      assert a in u.lhsAtomic && b in u.rhsAtomic;
    }
  }

  lemma {:induction false} LeftUnion<A(!new)>(c: Calculus<A>, s: State<A>)
    requires |s.lhsPending| == 1 && UnionOnly(s.lhsPending[0]) && s.lhsAtomic == []
    requires s.rhsPending == []
    ensures Derives(c, s) <==> forall a | IsLeaf(s.lhsPending[0], a) :: Covered(c, s, a)
    decreases Measure(s)
  {
    var f := s.lhsPending[0];
    var t := s.(lhsPending := Init(s.lhsPending));
    assert Measure(t) + Size(f) == Measure(s);
    match f
    case Atom(a) => LeftAtom(c, s, a);
    case Or(ps) =>
      forall i | 0 <= i < |ps|
        ensures Derives(c, PushL(t, [ps[i]])) <==> forall a | IsLeaf(ps[i], a) :: Covered(c, s, a)
      {
        WeightPart(ps, i);
        var u := PushL(t, [ps[i]]);
        assert u.lhsPending == [ps[i]];
        LeftUnion(c, u);
        assert forall a :: Covered(c, u, a) == Covered(c, s, a);
      }
  }

  /** Some alternative of `r` is proved by `a`. */
  ghost predicate LeafProved<A(!new)>(c: Calculus<A>, ctx: Ctx<A>, a: A, r: Formula<A>) {
    exists b :: IsLeaf(r, b) && Proves(c, ctx, a, b)
  }

  /**
   Between unions the search needs no law of the axioms: every alternative on the left must be
   below some alternative on the right.
   */
  lemma UnionQuery<A(!new)>(c: Calculus<A>, ctx: Ctx<A>, l: Formula<A>, r: Formula<A>)
    requires UnionOnly(l) && UnionOnly(r) && ctx.implies == []
    ensures Entails(c, ctx, l, r) <==> forall a | IsLeaf(l, a) :: LeafProved(c, ctx, a, r)
  {
    var s := Start(ctx, l, r);
    assert s.lhsPending == [l] && s.rhsPending == [r] && s.ctx == ctx;
    RightUnions(c, s);
    assert forall b :: RightLeaf(s, b) <==> IsLeaf(s.rhsPending[0], b);
    assert forall a :: Covered(c, s, a) <==> LeafProved(c, ctx, a, r);
  }
}
