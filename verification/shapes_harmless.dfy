/**
 A program with a conflict on which the structural check is exact all the same: 0 and 1 have a conflicting
 function, and a check of 1 meets 0, but it never gets as far as accepting 0 for 1.
 */
module ShapesHarmless {
  import opened Collections
  import opened Shapes
  import opened ShapesGreatest

  function Getter(name: string, d: nat): Func { Func(name, false, [], Named(d)) }

  const HARMLESS: Prog :=
    [ Def(true, [Getter("f", 0), Getter("g", 3)]),
      Def(true, [Getter("f", 0), Getter("g", 2)]),
      Def(true, [Func("b", false, [], Dyn)]),
      Def(true, [Func("c", false, [], Dyn)]) ]

  lemma Matches(l: nat, d: nat)
    requires l < 4
    ensures Match(HARMLESS[l].funcs, Getter("f", d)) == if l < 2 then Some(Getter("f", 0)) else None
    ensures Match(HARMLESS[l].funcs, Getter("g", d)) ==
      if l == 0 then Some(Getter("g", 3)) else if l == 1 then Some(Getter("g", 2)) else None
    ensures Match(HARMLESS[l].funcs, Func("b", false, [], Dyn)).Some? <==> l == 2
    ensures Match(HARMLESS[l].funcs, Func("c", false, [], Dyn)).Some? <==> l == 3
  {
    var fs := HARMLESS[l].funcs;
    assert |fs| >= 1 && (|fs| == 2 ==> fs[1..] == [fs[1]] && fs[1..][1..] == []) && (|fs| == 1 ==> fs[1..] == []);
  }

  /** A function without a match. */
  lemma NoMatch(contra: bool, assumed: seq<Pair>, l: nat, r: nat)
    requires l < 4 && r < 4 && l != r && !(l < 2 && r < 2) && (l, r) !in assumed
    ensures !Check(HARMLESS, contra, assumed, l, r)
  {
    Matches(l, 0);
    assert HARMLESS[r].funcs[0] == if r < 2 then Getter("f", 0) else Func(if r == 2 then "b" else "c", false, [], Dyn);
  }

  /** The conflicting functions of 0 and 1 are compared and rejected. */
  lemma Rejected(contra: bool, l: nat, r: nat)
    requires (l, r) in {(0, 1), (1, 0)}
    ensures !Check(HARMLESS, contra, [], l, r)
  {
    var p, x, y := HARMLESS, if l == 0 then 3 else 2, if r == 0 then 3 else 2;
    Matches(l, y);
    var now := [(l, r)];
    NoMatch(contra, now, x, y);
    NoMatch(contra, now, x, l);
    assert !Axiom(p, contra, now, Some(l), Named(x), Named(y)) && !Axiom(p, contra, now, Some(l), Named(x), Named(l));
    assert !SubAtom(p, contra, now, Some(l), Named(x), Named(y));
    assert !Compatible(p, contra, now, l, Getter("g", x), Getter("g", y));
    assert p[r].funcs[1] == Getter("g", y) && [] + [(l, r)] == now;
  }

  lemma OnlyItself(contra: bool, l: nat, r: nat)
    requires l != r || l >= 4
    ensures !Check(HARMLESS, contra, [], l, r)
  {
    if l < 4 && r < 4 {
      if l < 2 && r < 2 {
        Rejected(contra, l, r);
      } else {
        NoMatch(contra, [], l, r);
      }
    }
  }

  lemma EachItself(l: nat)
    requires l < 4
    ensures Greatest(HARMLESS, l, l)
  {
    var p := HARMLESS;
    var R: set<Pair> := {(0, 0), (1, 1), (2, 2), (3, 3)};
    forall d: nat | d < 4 ensures DCheck(p, R, d, d) {
      forall i | 0 <= i < |p[d].funcs| ensures DMatch(p, R, d, p[d].funcs[i]) {
        Matches(d, 0);
        Matches(d, 3);
        Matches(d, 2);
        var f := p[d].funcs[i];
        assert f.params == [] && DAxiom(p, R, Some(d), f.result, f.result);
        assert DCovers(p, R, Some(d), f.result, f.result);
      }
    }
    assert PostFixed(p, R) && (l, l) in R;
  }

  lemma Incomparable(t: nat, u: nat)
    requires (t, u) in {(2, 3), (3, 2)}
    ensures !Related(HARMLESS, Named(t), Named(u))
  {
    Matches(t, 0);
    forall R: set<Pair> | PostFixed(HARMLESS, R) ensures !DSub(HARMLESS, R, None, Named(t), Named(u)) {
      assert !DMatch(HARMLESS, R, t, HARMLESS[u].funcs[0]);
      assert (t, u) !in R;
      assert !DAxiom(HARMLESS, R, None, Named(t), Named(u));
    }
  }

  lemma InConflict()
    ensures !Peaceful(HARMLESS)
  {
    var p := HARMLESS;
    Incomparable(2, 3);
    Incomparable(3, 2);
    Matches(0, 2);
    Matches(1, 3);
    Matches(0, 0);
    Matches(1, 0);
    hide Related, Match;
    assert p[0].funcs[1] == Getter("g", 3) && p[1].funcs[1] == Getter("g", 2);
    assert !AgreesOn(p, 1, p[0].funcs[1]) && !AgreesOn(p, 0, p[1].funcs[1]);
    assert LikelyMatch(p, 0, p[1].funcs[0]) && LikelyMatch(p, 0, p[1].funcs[1]);
    assert LikelyMatch(p, 1, p[1].funcs[0]) && LikelyMatch(p, 1, p[1].funcs[1]);
    assert Plausible(p, 0, 1) && Plausible(p, 1, 1);
    assert MetIn(p, 1, p[1].funcs[0], 0);
    assert Met(p, 0, 1);
  }

  /** The check is exact, with the contradiction axioms and without, although the program is not peaceful. */
  lemma ExactAllTheSame(contra: bool, l: nat, r: nat)
    ensures !Peaceful(HARMLESS)
    ensures Check(HARMLESS, contra, [], l, r) <==> Greatest(HARMLESS, l, r)
  {
    hide Check, Greatest, Peaceful;
    InConflict();
    CheckIsGreatest(HARMLESS, false, l, r);
    if l != r || l >= 4 {
      OnlyItself(contra, l, r);
      OnlyItself(false, l, r);
    } else {
      EachItself(l);
      AcceptsGreatest(HARMLESS, contra, l, r);
    }
  }
}
