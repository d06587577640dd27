/**
 A program on which the structural check accepts a pair outside the greatest relation.

 While a shape `A` is checked against a shape `C`, the pair is assumed.  A nested check of `C` binds the self
 type to `C`, so an atom `A` on the left brings `C` to the left as well; once the two shapes conflict, the
 engine takes them for contradictory and accepts anything on the right.  The conflict in turn is found
 because one of two wrong answers is not assumed yet while the other one is being computed.
 */
module ShapesLoophole {
  import opened Collections
  import opened Shapes
  import opened ShapesGreatest

  function Getter(name: string, d: nat): Func { Func(name, false, [], Named(d)) }

  const A: nat := 0
  const C: nat := 1
  const K: nat := 8

  function X(side: bool): nat { if side then 2 else 5 }

  function Y(side: bool): nat { if side then 3 else 6 }

  function R(side: bool): nat { if side then 4 else 7 }

  const LOOPHOLE: Prog :=
    [ Def(true, [Getter("f", X(true)), Getter("g", X(false)), Getter("k", A)]),
      Def(true, [Getter("f", Y(true)), Getter("g", Y(false)), Getter("k", A)]),
      Def(true, [Getter("h", C)]),
      Def(true, [Getter("h", R(true))]),
      Def(true, [Getter("k", K)]),
      Def(true, [Getter("h", C)]),
      Def(true, [Getter("h", R(false))]),
      Def(true, [Getter("k", K)]),
      Def(false, []) ]

  /** The axiom for named types. */
  predicate Under(assumed: seq<Pair>, x: nat, y: nat) {
    if IsShape(LOOPHOLE, y) then Check(LOOPHOLE, true, assumed, x, y) else x == y
  }

  /** The path through the type that the self type is bound to. */
  predicate Through(assumed: seq<Pair>, s: nat, x: nat, y: nat) {
    Under(assumed, x, s) && (Clash(LOOPHOLE, true, assumed, Named(x), s) || Under(assumed, s, y))
  }

  lemma NamedSub(assumed: seq<Pair>, s: nat, x: nat, y: nat)
    ensures Sub(LOOPHOLE, true, assumed, Some(s), Named(x), Named(y)) == (Under(assumed, x, y) || Through(assumed, s, x, y))
    ensures Sub(LOOPHOLE, true, assumed, None, Named(x), Named(y)) == Under(assumed, x, y)
  {
    var p := LOOPHOLE;
    assert !Covers(p, true, assumed, Some(s), SelfType, Named(y));
    assert Covers(p, true, assumed, Some(s), Named(x), Named(y)) == Under(assumed, x, y);
    assert Covers(p, true, assumed, Some(s), Named(s), Named(y)) == Under(assumed, s, y);
    assert Axiom(p, true, assumed, Some(s), Named(x), Named(s)) == Under(assumed, x, s);
    assert Sub(p, true, assumed, Some(s), Named(x), Named(y)) == SubAtom(p, true, assumed, Some(s), Named(x), Named(y));
    assert Covers(p, true, assumed, None, Named(x), Named(y)) == Under(assumed, x, y);
  }

  /** Checking against a shape with one function. */
  lemma GetterCheck(assumed: seq<Pair>, l: nat, r: nat, name: string, x: nat, y: nat)
    requires l < |LOOPHOLE| && r < |LOOPHOLE| && (l, r) !in assumed
    requires LOOPHOLE[r].funcs == [Getter(name, y)] && IsShape(LOOPHOLE, x)
    requires Match(LOOPHOLE[l].funcs, Getter(name, y)) == Some(Getter(name, x))
    ensures Check(LOOPHOLE, true, assumed, l, r)
      == Sub(LOOPHOLE, true, assumed + [(l, r)], Some(l), Named(x), Named(y))
  {
    assert LOOPHOLE[r].funcs[0] == Getter(name, y);
    assert Compatible(LOOPHOLE, true, assumed + [(l, r)], l, Getter(name, x), Getter(name, y))
      == Sub(LOOPHOLE, true, assumed + [(l, r)], Some(l), Named(x), Named(y));
  }

  lemma NoGetter(assumed: seq<Pair>, l: nat, r: nat)
    requires l < |LOOPHOLE| && r < |LOOPHOLE| && (l, r) !in assumed
    requires LOOPHOLE[r].funcs != [] && Match(LOOPHOLE[l].funcs, LOOPHOLE[r].funcs[0]).None?
    ensures !Check(LOOPHOLE, true, assumed, l, r)
  {
  }

  /** Which getters `C` and the single-function shapes have. */
  lemma Getters()
    ensures forall s, d: nat :: Match(LOOPHOLE[X(s)].funcs, Getter("h", d)) == Some(Getter("h", C))
    ensures forall s, d: nat :: Match(LOOPHOLE[Y(s)].funcs, Getter("h", d)) == Some(Getter("h", R(s)))
    ensures forall d: nat :: Match(LOOPHOLE[C].funcs, Getter("k", d)) == Some(Getter("k", A))
    ensures forall d: nat :: Match(LOOPHOLE[C].funcs, Getter("h", d)) == None
    ensures forall s, d: nat :: Match(LOOPHOLE[R(s)].funcs, Getter("h", d)) == None
    ensures forall s, d: nat :: Match(LOOPHOLE[R(s)].funcs, Getter("f", d)) == None
  {
    hide Match;
    forall d: nat ensures Match(LOOPHOLE[C].funcs, Getter("k", d)) == Some(Getter("k", A)) { GettersOfC(d); }
    forall d: nat ensures Match(LOOPHOLE[C].funcs, Getter("h", d)) == None { GettersOfC(d); }
    forall s, d: nat
      ensures Match(LOOPHOLE[X(s)].funcs, Getter("h", d)) == Some(Getter("h", C))
      ensures Match(LOOPHOLE[Y(s)].funcs, Getter("h", d)) == Some(Getter("h", R(s)))
      ensures Match(LOOPHOLE[R(s)].funcs, Getter("h", d)) == None
      ensures Match(LOOPHOLE[R(s)].funcs, Getter("f", d)) == None
    {
      OnlyGetter(X(s), "h", C, "h", d);
      OnlyGetter(Y(s), "h", R(s), "h", d);
      OnlyGetter(R(s), "k", K, "h", d);
      OnlyGetter(R(s), "k", K, "f", d);
    }
  }

  lemma OnlyGetter(l: nat, own: string, x: nat, name: string, d: nat)
    requires l < |LOOPHOLE| && LOOPHOLE[l].funcs == [Getter(own, x)]
    ensures Match(LOOPHOLE[l].funcs, Getter(name, d)) == if own == name then Some(Getter(own, x)) else None
  {
  }

  lemma GettersOfC(d: nat)
    ensures Match(LOOPHOLE[C].funcs, Getter("k", d)) == Some(Getter("k", A))
    ensures Match(LOOPHOLE[C].funcs, Getter("h", d)) == None
  {
    var fs := LOOPHOLE[C].funcs;
    assert Match(fs, Getter("k", d)) == Match(fs[1..], Getter("k", d)) == Match(fs[1..][1..], Getter("k", d));
    assert Match(fs, Getter("h", d)) == Match(fs[1..], Getter("h", d)) == Match(fs[1..][1..], Getter("h", d));
    assert fs[1..][1..] == [fs[2]];
  }

  /** `A` is below itself. */
  lemma Itself(assumed: seq<Pair>)
    ensures Check(LOOPHOLE, true, assumed, A, A)
  {
    var S: set<Pair> := set d: nat | d < |LOOPHOLE| :: (d, d);
    forall l: nat, r: nat | (l, r) in S ensures DCheck(LOOPHOLE, S, l, r) {
      forall i | 0 <= i < |LOOPHOLE[r].funcs| ensures DMatch(LOOPHOLE, S, l, LOOPHOLE[r].funcs[i]) {
        OwnMatch(r, i);
        var d := LOOPHOLE[r].funcs[i].result.def;
        assert (d, d) in S;
      }
    }
    assert (A, A) in S;
    CheckComplete(LOOPHOLE, true, S, assumed, A, A);
  }

  lemma OwnMatch(d: nat, i: nat)
    requires d < |LOOPHOLE| && i < |LOOPHOLE[d].funcs|
    ensures Match(LOOPHOLE[d].funcs, LOOPHOLE[d].funcs[i]) == Some(LOOPHOLE[d].funcs[i])
    ensures LOOPHOLE[d].funcs[i].params == [] && LOOPHOLE[d].funcs[i].result.Named?
    ensures LOOPHOLE[d].funcs[i].result.def < |LOOPHOLE|
  {
    var fs := LOOPHOLE[d].funcs;
    if i == 1 {
      assert Match(fs, fs[1]) == Match(fs[1..], fs[1]);
    } else if i == 2 {
      assert fs[1..][1..] == [fs[2]];
      assert Match(fs, fs[2]) == Match(fs[1..], fs[2]) == Match(fs[1..][1..], fs[2]);
    }
  }

  /** With both wrong answers assumed there is no conflict, and so no clash. */
  lemma NoConflictLeft(assumed: seq<Pair>)
    requires forall side :: (X(side), Y(side)) in assumed
    ensures !Conflict(LOOPHOLE, true, assumed, A, C)
  {
    forall i | 0 <= i < |LOOPHOLE[A].funcs|
      ensures Match(LOOPHOLE[C].funcs, LOOPHOLE[A].funcs[i]) == Some(LOOPHOLE[C].funcs[i])
      ensures !Apart(LOOPHOLE, true, assumed, LOOPHOLE[A].funcs[i].result, LOOPHOLE[C].funcs[i].result)
    {
      SharedFunction(assumed, i);
    }
  }

  lemma SharedFunction(assumed: seq<Pair>, i: nat)
    requires i < 3
    requires forall side :: (X(side), Y(side)) in assumed
    ensures Match(LOOPHOLE[C].funcs, LOOPHOLE[A].funcs[i]) == Some(LOOPHOLE[C].funcs[i])
    ensures !Apart(LOOPHOLE, true, assumed, LOOPHOLE[A].funcs[i].result, LOOPHOLE[C].funcs[i].result)
  {
    hide Match, Sub;
    var f, g := LOOPHOLE[A].funcs[i], LOOPHOLE[C].funcs[i];
    OwnMatch(C, i);
    MatchByKey(LOOPHOLE[C].funcs, g, f);
    Itself(assumed);
    assert (X(true), Y(true)) in assumed && (X(false), Y(false)) in assumed;
    NamedSub(assumed, A, f.result.def, g.result.def);
  }

  lemma Blocked(assumed: seq<Pair>, side: bool)
    requires forall b :: (X(b), Y(b)) in assumed
    requires (C, R(side)) !in assumed
    ensures !Check(LOOPHOLE, true, assumed, C, R(side))
  {
    hide Check, Conflict;
    var now := assumed + [(C, R(side))];
    Getters();
    GetterCheck(assumed, C, R(side), "k", A, K);
    NamedSub(now, C, A, K);
    NoConflictLeft(now);
  }

  /** One wrong answer is refused while the other is assumed. */
  lemma Refused(assumed: seq<Pair>, side: bool)
    requires (X(!side), Y(!side)) in assumed
    requires forall r | r in {X(side), Y(side), R(side)}, l | l in {C, X(side), Y(side), R(side)} :: (l, r) !in assumed
    requires (R(side), C) !in assumed
    ensures !Check(LOOPHOLE, true, assumed, X(side), Y(side))
    ensures !Check(LOOPHOLE, true, assumed, Y(side), X(side))
  {
    RefusedUp(assumed, side);
    RefusedDown(assumed, side);
  }

  lemma RefusedUp(assumed: seq<Pair>, side: bool)
    requires (X(!side), Y(!side)) in assumed && (X(side), Y(side)) !in assumed
    requires (C, R(side)) !in assumed && (C, X(side)) !in assumed
    ensures !Check(LOOPHOLE, true, assumed, X(side), Y(side))
  {
    hide Check, Conflict;
    var now := assumed + [(X(side), Y(side))];
    Getters();
    GetterCheck(assumed, X(side), Y(side), "h", C, R(side));
    NamedSub(now, X(side), C, R(side));
    Blocked(now, side);
    NoGetter(now, C, X(side));
  }

  lemma RefusedDown(assumed: seq<Pair>, side: bool)
    requires (Y(side), X(side)) !in assumed && (R(side), C) !in assumed && (R(side), Y(side)) !in assumed
    ensures !Check(LOOPHOLE, true, assumed, Y(side), X(side))
  {
    hide Check, Conflict;
    var now := assumed + [(Y(side), X(side))];
    Getters();
    GetterCheck(assumed, Y(side), X(side), "h", R(side), C);
    NamedSub(now, Y(side), R(side), C);
    NoGetter(now, R(side), C);
    NoGetter(now, R(side), Y(side));
  }

  lemma Conflicting(assumed: seq<Pair>, side: bool)
    requires !Check(LOOPHOLE, true, assumed, X(side), Y(side))
    requires !Check(LOOPHOLE, true, assumed, Y(side), X(side))
    ensures Conflict(LOOPHOLE, true, assumed, A, C)
    ensures Conflict(LOOPHOLE, true, assumed, C, A)
  {
    var p := LOOPHOLE;
    var i := if side then 0 else 1;
    NamedSub(assumed, A, X(side), Y(side));
    NamedSub(assumed, A, Y(side), X(side));
    OwnMatch(A, i);
    OwnMatch(C, i);
    MatchByKey(p[C].funcs, p[C].funcs[i], p[A].funcs[i]);
    MatchByKey(p[A].funcs, p[A].funcs[i], p[C].funcs[i]);
    assert Apart(p, true, assumed, p[A].funcs[i].result, p[C].funcs[i].result);
    assert Apart(p, true, assumed, p[C].funcs[i].result, p[A].funcs[i].result);
  }

  /** Either wrong answer is given as long as the other is not assumed. */
  lemma WrongAnswer(side: bool)
    ensures Check(LOOPHOLE, true, [(A, C)], X(side), Y(side))
  {
    hide Check, Conflict;
    var one := [(A, C)];
    var two := one + [(X(side), Y(side))];
    var three := two + [(C, R(side))];
    Getters();
    ClashFound(side);
    NamedSub(three, C, A, K);
    GetterCheck(two, C, R(side), "k", A, K);
    NamedSub(two, X(side), C, R(side));
    GetterCheck(one, X(side), Y(side), "h", C, R(side));
  }

  lemma ClashFound(side: bool)
    ensures var three := [(A, C)] + [(X(side), Y(side))] + [(C, R(side))];
      Under(three, A, C) && Clash(LOOPHOLE, true, three, Named(A), C)
  {
    hide Conflict;
    var three := [(A, C)] + [(X(side), Y(side))] + [(C, R(side))];
    assert three[0] == (A, C);
    Refused(three, !side);
    Conflicting(three, !side);
  }

  lemma NotGreatest()
    ensures !Greatest(LOOPHOLE, A, C)
  {
    forall S: set<Pair> | PostFixed(LOOPHOLE, S) ensures (A, C) !in S {
      if (A, C) in S {
        Getters();
        NotBelow(S, X(true), A, "f");
        Contained(S, A, C, 0, "f", X(true), Y(true));
        NotBelow(S, C, X(true), "h");
        Contained(S, X(true), Y(true), 0, "h", C, R(true));
        Contained(S, C, R(true), 0, "k", A, K);
      }
    }
  }

  /** What lacks the first function of a shape is not below it. */
  lemma NotBelow(S: set<Pair>, l: nat, r: nat, name: string)
    requires PostFixed(LOOPHOLE, S) && l < |LOOPHOLE| && r < |LOOPHOLE| && LOOPHOLE[r].funcs != []
    requires exists d: nat :: LOOPHOLE[r].funcs[0] == Getter(name, d) && Match(LOOPHOLE[l].funcs, Getter(name, d)) == None
    ensures (l, r) !in S
  {
    assert (l, r) in S ==> DCheck(LOOPHOLE, S, l, r);
    assert DCheck(LOOPHOLE, S, l, r) ==> DMatch(LOOPHOLE, S, l, LOOPHOLE[r].funcs[0]);
  }

  /** One named type below another: related, the same class, or related through the type being checked. */
  predicate Leads(S: set<Pair>, x: nat, y: nat) {
    if IsShape(LOOPHOLE, y) then (x, y) in S else x == y
  }

  /** A pair in a post-fixed relation brings the results of its functions with it. */
  lemma Contained(S: set<Pair>, l: nat, r: nat, i: nat, name: string, x: nat, y: nat)
    requires PostFixed(LOOPHOLE, S) && (l, r) in S
    requires l < |LOOPHOLE| && r < |LOOPHOLE| && i < |LOOPHOLE[r].funcs| && LOOPHOLE[r].funcs[i] == Getter(name, y)
    requires Match(LOOPHOLE[l].funcs, Getter(name, y)) == Some(Getter(name, x))
    ensures Leads(S, x, y) || (Leads(S, x, l) && Leads(S, l, y))
  {
    var p, s := LOOPHOLE, Some(l as nat);
    assert DCheck(p, S, l, r);
    assert DMatch(p, S, l, p[r].funcs[i]);
    assert DSub(p, S, s, Named(x), Named(y)) && DAtom(p, S, s, Named(x), Named(y));
    assert DCovers(p, S, s, Named(x), Named(y)) == Leads(S, x, y);
    assert DCovers(p, S, s, Named(l), Named(y)) == Leads(S, l, y);
    assert DAxiom(p, S, s, Named(x), Named(l)) == Leads(S, x, l);
    assert !DCovers(p, S, s, SelfType, Named(y));
  }

  lemma AcceptedAtTop()
    ensures Check(LOOPHOLE, true, [], A, C)
  {
    var p, one := LOOPHOLE, [(A, C)];
    assert [] + [(A, C)] == one;
    forall i | 0 <= i < 3
      ensures Match(p[A].funcs, p[C].funcs[i]) == Some(p[A].funcs[i])
      ensures Compatible(p, true, one, A, p[A].funcs[i], p[C].funcs[i])
    {
      TopFunction(i);
    }
  }

  lemma TopFunction(i: nat)
    requires i < 3
    ensures Match(LOOPHOLE[A].funcs, LOOPHOLE[C].funcs[i]) == Some(LOOPHOLE[A].funcs[i])
    ensures Compatible(LOOPHOLE, true, [(A, C)], A, LOOPHOLE[A].funcs[i], LOOPHOLE[C].funcs[i])
  {
    hide Check, Sub;
    var f, g := LOOPHOLE[A].funcs[i], LOOPHOLE[C].funcs[i];
    OwnMatch(A, i);
    MatchByKey(LOOPHOLE[A].funcs, f, g);
    WrongAnswer(true);
    WrongAnswer(false);
    Itself([(A, C)]);
    NamedSub([(A, C)], A, f.result.def, g.result.def);
  }

  lemma LoopholeSelfFree()
    ensures SelfFreeProg(LOOPHOLE)
  {
    forall d: nat, f | 0 <= d < |LOOPHOLE| && f in LOOPHOLE[d].funcs ensures SelfFreeFunc(f) {
      var i :| 0 <= i < |LOOPHOLE[d].funcs| && LOOPHOLE[d].funcs[i] == f;
      OwnMatch(d, i);
    }
  }

  /** The check accepts `A` as a subtype of `C` although the structural rules do not relate them. */
  lemma AcceptsTooMuch()
    ensures SelfFreeProg(LOOPHOLE)
    ensures Check(LOOPHOLE, true, [], A, C) && !Greatest(LOOPHOLE, A, C)
    ensures !Peaceful(LOOPHOLE)
  {
    hide SelfFreeProg, Peaceful, Check, Greatest;
    LoopholeSelfFree();
    NotGreatest();
    AcceptedAtTop();
    if Peaceful(LOOPHOLE) {
      CheckIsGreatest(LOOPHOLE, true, A, C);
    }
  }
}
