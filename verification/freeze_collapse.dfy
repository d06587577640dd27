/**
 A back edge of the freezing search (vbci/freeze.cc:130-141): every component under construction above
 the one it meets is joined with it.
 */
module FreezeCollapse {
  import opened UnionFind
  import opened Freezing
  import opened FreezeSteps

  // ---------------------------------------------------------------- part of the way down

  /** The components from number `n` up have been joined with number `j`. */
  predicate Joining(seg: map<int, int>, j: int, n: int, x: int) {
    x in seg && (seg[x] == j || seg[x] >= n)
  }

  ghost function MergedReps(rep: map<int, int>, seg: map<int, int>, j: int, n: int, rho: int): map<int, int> {
    map x | x in rep :: if Joining(seg, j, n, x) then rho else rep[x]
  }

  /** What the representatives of components `n` and up bring in. */
  ghost function Gained(rep: map<int, int>, rc: map<int, int>, pending: seq<int>, n: int): int
    requires 0 <= n && forall i | 0 <= i < |pending| :: pending[i] in rep && rep[pending[i]] in rc
    decreases |pending| - n
  {
    if n >= |pending| then 0 else rc[rep[pending[n]]] - 1 + Gained(rep, rc, pending, n + 1)
  }

  ghost predicate Merging(
    loc: map<int, Loc>, rep: map<int, int>, rc: map<int, int>, seg: map<int, int>, pending: seq<int>, j: int, n: int,
    loc': map<int, Loc>, rc': map<int, int>, rho: int)
  {
    && 0 <= j < n <= |pending| && (forall i | 0 <= i < |pending| :: pending[i] in rep && rep[pending[i]] in rc)
    && loc'.Keys == loc.Keys && rc'.Keys == rc.Keys
    && Joining(seg, j, n, rho) && rho in loc' && loc'[rho] == Pending
    && Mirrors(loc', MergedReps(rep, seg, j, n, rho))
    && (forall x | x in loc :: loc'[x] == loc[x] || (loc'[x].SccPtr? && (loc[x].SccPtr? || Joining(seg, j, n, x))))
    && (forall y | y in rc && !Joining(seg, j, n, y) :: rc'[y] == rc[y])
    && rho in rc' && rc'[rho] == rc[rep[pending[j]]] - 1 + Gained(rep, rc, pending, n)
  }

  lemma NothingMerged(rep: map<int, int>, seg: map<int, int>, stage: map<int, int>, t: int, n: int)
    requires Classed(rep, seg, stage) && t in seg && forall x | x in seg :: seg[x] < n
    ensures MergedReps(rep, seg, seg[t], n, rep[t]) == rep
  {
    forall x | x in rep ensures rep[x] == MergedReps(rep, seg, seg[t], n, rep[t])[x] {
    }
  }

  /** Bottoms have representatives of their own components, which hold counts. */
  lemma BottomsRooted(c: Start, st: State)
    requires Inv(c, st)
    ensures forall i | 0 <= i < |st.pending| ::
      && st.pending[i] in st.seg && st.seg[st.pending[i]] == i
      && st.pending[i] in st.rep && st.rep[st.pending[i]] in st.rc
      && st.rep[st.pending[i]] in st.seg && st.seg[st.rep[st.pending[i]]] == i
  {
    hide Good, Mirrors, Aged, Classed, Directed, Settled, Waiting, Covered, Counted, Finals, Connected;
    forall i | 0 <= i < |st.pending|
      ensures st.pending[i] in st.seg && st.seg[st.pending[i]] == i
      ensures st.pending[i] in st.rep && st.rep[st.pending[i]] in st.rc
      ensures st.rep[st.pending[i]] in st.seg && st.seg[st.rep[st.pending[i]]] == i
    {
      assert RootedAt(st.loc, st.rep, st.seg, st.pending[i], Pending);
      RootInSegment(st.loc, st.rep, st.seg, st.stage, st.pending[i]);
    }
  }

  /** The representative of an open header is an open root of its component. */
  lemma RootOf(c: Start, st: State, t: int)
    requires Inv(c, st) && t in st.seg
    ensures t in st.rep && st.rep[t] in st.seg && st.rep[t] in st.loc && st.loc[st.rep[t]] == Pending
    ensures st.seg[st.rep[t]] == st.seg[t] && st.rep[t] in st.rc && st.rep[t] in st.rep && st.rep[st.rep[t]] == st.rep[t]
    ensures 0 <= st.seg[t] < |st.pending| && st.rep[st.pending[st.seg[t]]] == st.rep[t]
  {
    hide Good, Mirrors, Aged, Classed, Directed, Settled, Waiting, Covered, Counted, Finals, Connected;
    assert RootedAt(st.loc, st.rep, st.seg, t, Pending);
    RootInSegment(st.loc, st.rep, st.seg, st.stage, t);
    SameSegment(st.rep, st.seg, st.stage, t, st.pending[st.seg[t]]);
  }

  lemma MergeStart(c: Start, st: State, t: int)
    requires Inv(c, st) && t in st.seg && t in st.rep && st.rep[t] in st.rc
    ensures Merging(st.loc, st.rep, st.rc, st.seg, st.pending, st.seg[t], |st.pending|,
        st.loc, st.rc[st.rep[t] := st.rc[st.rep[t]] - 1], st.rep[t])
  {
    hide Good, Mirrors, Coloured, Stacked, Aged, Classed, Directed, Settled, Waiting, Covered, Counted, Finals, Connected;
    BottomsRooted(c, st);
    RootOf(c, st, t);
    Basics(c, st);
    NothingMerged(st.rep, st.seg, st.stage, t, |st.pending|);
  }

  /** Representatives stay within their segment. */
  ghost predicate Housed(rep: map<int, int>, seg: map<int, int>, x: int) {
    && x in rep && (rep[x] in seg <==> x in seg)
    && (x in seg ==> rep[x] in seg && seg[rep[x]] == seg[x])
  }

  lemma AllHoused(c: Start, st: State)
    requires Inv(c, st)
    ensures forall x {:trigger Housed(st.rep, st.seg, x)} | x in st.rep :: Housed(st.rep, st.seg, x)
  {
    hide Good, Mirrors, Aged, Classed, Directed, Settled, Waiting, Covered, Counted, Finals, Connected;
    forall x | x in st.rep ensures Housed(st.rep, st.seg, x) {
      if x in st.seg {
        assert RootedAt(st.loc, st.rep, st.seg, x, Pending);
        RootInSegment(st.loc, st.rep, st.seg, st.stage, x);
      } else if x in st.stage {
        assert RootedAt(st.loc, st.rep, st.stage, x, Immutable);
      } else {
        assert UntouchedAt(c, st.loc, st.rep, st.rc, st.num, x);
      }
    }
  }

  lemma MergeStepRep(
    rep: map<int, int>, seg: map<int, int>, stage: map<int, int>, b: int, j: int, n: int, rho: int, x: int)
    requires Classed(rep, seg, stage) && x in rep && b in seg && seg[b] == n - 1 && j < n - 1
    requires Housed(rep, seg, x) && Housed(rep, seg, b) && Joining(seg, j, n, rho)
    ensures var r := if Joining(seg, j, n, x) then rho else rep[x];
      (r == rep[b] || r == rho <==> Joining(seg, j, n - 1, x))
      && (!Joining(seg, j, n - 1, x) ==> r == rep[x])
  {
  }

  /** One union takes the next component in: the representatives. */
  lemma MergeStepReps(
    rep: map<int, int>, seg: map<int, int>, stage: map<int, int>, b: int, j: int, n: int,
    loc1: map<int, Loc>, rc1: map<int, int>, rho: int, loc2: map<int, Loc>, rc2: map<int, int>)
    requires Classed(rep, seg, stage) && b in seg && seg[b] == n - 1 && j < n - 1 && b in rep && rho in rep
    requires forall x {:trigger Housed(rep, seg, x)} | x in rep :: Housed(rep, seg, x)
    requires Joining(seg, j, n, rho) && Mirrors(loc1, MergedReps(rep, seg, j, n, rho)) && rc1.Keys == loc1.Keys
    requires Upward(loc2) && Joined(loc1, rc1, loc2, rc2, rep[b], rho)
    ensures Mirrors(loc2, MergedReps(rep, seg, j, n - 1, Max(rep[b], rho)))
  {
    var before := MergedReps(rep, seg, j, n, rho);
    assert before == Reps(loc1) && b in before && rho in before && before[b] == Rep(loc1, b) && before[rho] == Rep(loc1, rho);
    MergedAgain(rep, seg, stage, b, j, n, rho);
    JoinedReps(loc1, rc1, loc2, rc2, b, rho);
  }

  lemma MergedAgain(rep: map<int, int>, seg: map<int, int>, stage: map<int, int>, b: int, j: int, n: int, rho: int)
    requires Classed(rep, seg, stage) && b in seg && seg[b] == n - 1 && j < n - 1 && b in rep && rho in rep
    requires forall x {:trigger Housed(rep, seg, x)} | x in rep :: Housed(rep, seg, x)
    requires Joining(seg, j, n, rho)
    ensures var before := MergedReps(rep, seg, j, n, rho);
      && before[b] == rep[b] && before[rho] == rho
      && United(before, rep[b], rho) == MergedReps(rep, seg, j, n - 1, Max(rep[b], rho))
  {
    forall x | x in rep
      ensures var r := MergedReps(rep, seg, j, n, rho)[x];
        (r == rep[b] || r == rho <==> Joining(seg, j, n - 1, x)) && (!Joining(seg, j, n - 1, x) ==> r == rep[x])
    {
      assert Housed(rep, seg, x) && Housed(rep, seg, b);
      MergeStepRep(rep, seg, stage, b, j, n, rho, x);
    }
  }

  /** One union takes the next component in: the locations. */
  lemma MergeStepLocs(
    loc: map<int, Loc>, rep: map<int, int>, rc: map<int, int>, seg: map<int, int>, pending: seq<int>,
    j: int, n: int, loc1: map<int, Loc>, rc1: map<int, int>, rho: int, loc2: map<int, Loc>, rc2: map<int, int>, a: int)
    requires Merging(loc, rep, rc, seg, pending, j, n, loc1, rc1, rho) && j < n - 1
    requires Upward(loc1) && Upward(loc2) && rc1.Keys == loc1.Keys && Joined(loc1, rc1, loc2, rc2, a, rho)
    requires a in seg && seg[a] == n - 1 && a in loc && loc[a] == Pending
    ensures Max(a, rho) in loc2 && loc2[Max(a, rho)] == Pending
    ensures forall x | x in loc :: loc2[x] == loc[x] || (loc2[x].SccPtr? && (loc[x].SccPtr? || Joining(seg, j, n - 1, x)))
  {
    hide Mirrors, Gained, Rep;
    assert loc1[a] == Pending && a != rho;
    forall x | x in loc ensures loc2[x] == loc[x] || (loc2[x].SccPtr? && (loc[x].SccPtr? || Joining(seg, j, n - 1, x))) {
      assert Joining(seg, j, n, x) ==> Joining(seg, j, n - 1, x);
    }
  }

  /** One union takes the next component in: the counts. */
  lemma MergeStepCounts(
    loc: map<int, Loc>, rep: map<int, int>, rc: map<int, int>, seg: map<int, int>, pending: seq<int>,
    j: int, n: int, loc1: map<int, Loc>, rc1: map<int, int>, rho: int, loc2: map<int, Loc>, rc2: map<int, int>)
    requires Merging(loc, rep, rc, seg, pending, j, n, loc1, rc1, rho) && j < n - 1
    requires Upward(loc1) && Upward(loc2) && rc1.Keys == loc1.Keys
    requires Joined(loc1, rc1, loc2, rc2, rep[pending[n - 1]], rho)
    requires rep[pending[n - 1]] in seg && seg[rep[pending[n - 1]]] == n - 1
    ensures var top := Max(rep[pending[n - 1]], rho);
      && rc2.Keys == rc.Keys && (forall y | y in rc && !Joining(seg, j, n - 1, y) :: rc2[y] == rc[y])
      && top in rc2 && rc2[top] == rc[rep[pending[j]]] - 1 + Gained(rep, rc, pending, n - 1)
  {
    hide Mirrors, Rep, Upward;
    var a := rep[pending[n - 1]];
    assert !Joining(seg, j, n, a) && rc1[a] == rc[a];
  }

  /** One union takes the next component in. */
  lemma MergeStep(
    loc: map<int, Loc>, rep: map<int, int>, rc: map<int, int>, seg: map<int, int>, stage: map<int, int>, pending: seq<int>,
    j: int, n: int, loc1: map<int, Loc>, rc1: map<int, int>, rho: int, loc2: map<int, Loc>, rc2: map<int, int>)
    requires Merging(loc, rep, rc, seg, pending, j, n, loc1, rc1, rho) && j < n - 1
    requires Upward(loc1) && Upward(loc2) && rc1.Keys == loc1.Keys
    requires pending[n - 1] in seg && seg[pending[n - 1]] == n - 1
    requires Joined(loc1, rc1, loc2, rc2, rep[pending[n - 1]], rho)
    requires Classed(rep, seg, stage) && loc.Keys == rep.Keys
    requires rep[pending[n - 1]] in loc && loc[rep[pending[n - 1]]] == Pending
    requires forall x {:trigger Housed(rep, seg, x)} | x in rep :: Housed(rep, seg, x)
    ensures Merging(loc, rep, rc, seg, pending, j, n - 1, loc2, rc2, Max(rep[pending[n - 1]], rho))
  {
    hide Mirrors, Classed, Gained, Rep, Upward;
    var a := rep[pending[n - 1]];
    assert Housed(rep, seg, pending[n - 1]);
    MergeStepReps(rep, seg, stage, pending[n - 1], j, n, loc1, rc1, rho, loc2, rc2);
    MergeStepLocs(loc, rep, rc, seg, pending, j, n, loc1, rc1, rho, loc2, rc2, a);
    MergeStepCounts(loc, rep, rc, seg, pending, j, n, loc1, rc1, rho, loc2, rc2);
    assert loc2.Keys == loc.Keys && Joining(seg, j, n - 1, Max(a, rho));
  }

  // ---------------------------------------------------------------- the loop

  lemma MergeReps(
    loc: map<int, Loc>, rep: map<int, int>, rc: map<int, int>, seg: map<int, int>, pending: seq<int>, j: int, n: int,
    loc': map<int, Loc>, rc': map<int, int>, rho: int, x: int)
    requires Merging(loc, rep, rc, seg, pending, j, n, loc', rc', rho) && x in rep
    ensures Upward(loc') && x in loc' && Rep(loc', x) == if Joining(seg, j, n, x) then rho else rep[x]
  {
    hide Rep;
    assert Reps(loc') == MergedReps(rep, seg, j, n, rho);
    assert x in MergedReps(rep, seg, j, n, rho) && x in Reps(loc') && Reps(loc')[x] == Rep(loc', x);
  }

  lemma StepReady(c: Start, st: State, t: int, n: int)
    requires Inv(c, st) && t in st.seg && st.seg[t] < n - 1 && n <= |st.pending|
    ensures var b := st.pending[n - 1];
      && b in st.seg && st.seg[b] == n - 1 && b in st.rep
      && st.rep[b] in st.loc && st.loc[st.rep[b]] == Pending
      && Classed(st.rep, st.seg, st.stage) && st.loc.Keys == st.rep.Keys
      && st.rep[b] in st.seg && st.seg[st.rep[b]] == n - 1
      && t in st.rep && st.rep[t] in st.seg && st.seg[st.rep[t]] == st.seg[t] && st.rep[t] in st.rep
  {
    hide Good, Mirrors, Coloured, Stacked, Aged, Classed, Directed, Settled, Waiting, Covered, Counted, Finals, Connected;
    Basics(c, st);
    RootOf(c, st, st.pending[n - 1]);
    RootOf(c, st, t);
  }

  /** Join the component on top, whose bottom is `top`; fails if it is the one that `rep` represents. */
  method JoinTop(m: Memory, top: int, rep: int, ghost c: Start, ghost st: State, ghost t: int, ghost n: int, ghost rho: int)
    returns (ok: bool, ghost rho': int)
    requires m.Valid() && Inv(c, st) && t in st.seg && t in st.rep && rep == st.rep[t] && rep != top
    requires 0 <= st.seg[t] < n <= |st.pending| && top == st.pending[n - 1]
    requires Merging(st.loc, st.rep, st.rc, st.seg, st.pending, st.seg[t], n, m.loc, m.rc, rho)
    modifies m`loc, m`rc
    ensures m.Valid() && m.loc.Keys == old(m.loc.Keys)
    ensures ok <==> st.seg[t] < n - 1
    ensures ok ==> Merging(st.loc, st.rep, st.rc, st.seg, st.pending, st.seg[t], n - 1, m.loc, m.rc, rho')
  {
    hide Good, Mirrors, Coloured, Stacked, Aged, Classed, Directed, Settled, Waiting, Covered, Counted, Finals, Connected;
    hide Merging;
    ghost var loc1, rc1 := m.loc, m.rc;
    RootOf(c, st, t);
    Basics(c, st);
    MergeReps(st.loc, st.rep, st.rc, st.seg, st.pending, st.seg[t], n, m.loc, m.rc, rho, rep);
    MergeReps(st.loc, st.rep, st.rc, st.seg, st.pending, st.seg[t], n, m.loc, m.rc, rho, top);
    rho' := Max(st.rep[top], rho);
    ok := m.SccUnion(top, rep);
    assert ok <==> st.seg[t] < n - 1 by {
      if st.seg[t] < n - 1 {
        StepReady(c, st, t, n);
        RhoJoins(st.loc, st.rep, st.rc, st.seg, st.pending, st.seg[t], n, loc1, rc1, rho);
      }
    }
    if ok {
      AllHoused(c, st);
      StepReady(c, st, t, n);
      MergeStep(st.loc, st.rep, st.rc, st.seg, st.stage, st.pending, st.seg[t], n, loc1, rc1, rho, m.loc, m.rc);
    }
  }

  lemma RhoJoins(
    loc: map<int, Loc>, rep: map<int, int>, rc: map<int, int>, seg: map<int, int>, pending: seq<int>, j: int, n: int,
    loc': map<int, Loc>, rc': map<int, int>, rho: int)
    requires Merging(loc, rep, rc, seg, pending, j, n, loc', rc', rho)
    requires j < n - 1 && pending[n - 1] in seg && seg[pending[n - 1]] == n - 1
    requires rep[pending[n - 1]] in seg && seg[rep[pending[n - 1]]] == n - 1
    ensures rho != rep[pending[n - 1]]
  {
  }

  /**
   The back edge to `t`: its count is taken off, and the pending components above it are joined to it,
   from the top.  The assertion in `scc_union` fails unless the representative is the component's bottom.
   */
  method Collapse(m: Memory, pending: seq<int>, rep: int, ghost c: Start, ghost st: State, ghost t: int)
    returns (ok: bool, rest: seq<int>, ghost rho: int)
    requires m.Valid() && Inv(c, st) && m.loc == st.loc && m.rc == st.rc && pending == st.pending
    requires t in st.seg && t in st.rep && rep == st.rep[t] && rep in m.rc
    modifies m`loc, m`rc
    ensures m.Valid() && 0 <= st.seg[t] < |pending|
    ensures ok <==> rep == pending[st.seg[t]]
    ensures ok ==> rest == pending[..st.seg[t] + 1]
    ensures ok ==>
      Merging(st.loc, st.rep, st.rc, st.seg, st.pending, st.seg[t], st.seg[t] + 1, m.loc, m.rc, rho)
  {
    hide Good, Mirrors, Coloured, Stacked, Aged, Classed, Directed, Settled, Waiting, Covered, Counted, Finals, Connected;
    hide Merging;
    MergeStart(c, st, t);
    RootOf(c, st, t);
    Basics(c, st);
    m.rc := m.rc[rep := m.rc[rep] - 1];
    rest, rho := pending, rep;
    while rest != [] && rest[|rest| - 1] != rep
      invariant m.Valid() && st.seg[t] < |rest| <= |pending| && rest == pending[..|rest|]
      invariant Merging(st.loc, st.rep, st.rc, st.seg, st.pending, st.seg[t], |rest|, m.loc, m.rc, rho)
    {
      ok, rho := JoinTop(m, rest[|rest| - 1], rep, c, st, t, |rest|, rho);
      if !ok {
        return;
      }
      rest := rest[..|rest| - 1];
    }
    ok := true;
    assert st.seg[rest[|rest| - 1]] == |rest| - 1;
  }

  // ---------------------------------------------------------------- the state after the loop

  ghost function Lowered(seg: map<int, int>, j: int): map<int, int> {
    map x | x in seg :: if seg[x] < j then seg[x] else j
  }

  ghost function Collapsed(st: State, j: int, rho: int, loc': map<int, Loc>, rc': map<int, int>): State
    requires |st.dfs| == |st.from| && st.dfs != [] && 0 <= j < |st.pending|
  {
    var n := |st.dfs| - 1;
    st.(loc := loc', rep := MergedReps(st.rep, st.seg, j, j + 1, rho), rc := rc', dfs := st.dfs[..n], from := st.from[..n],
        pending := st.pending[..j + 1], seg := Lowered(st.seg, j), done := st.done + {st.from[n]})
  }

  /** The collapse leaves a finished or untouched header, and the class of one, alone. */
  lemma OutsideCollapsed(
    loc: map<int, Loc>, rep: map<int, int>, rc: map<int, int>, seg: map<int, int>, pending: seq<int>, j: int,
    loc': map<int, Loc>, rc': map<int, int>, rho: int, x: int)
    requires Merging(loc, rep, rc, seg, pending, j, j + 1, loc', rc', rho)
    requires Housed(rep, seg, x) && x in loc && x in rc && x !in seg
    ensures MergedReps(rep, seg, j, j + 1, rho)[x] == rep[x] && rc'[x] == rc[x]
    ensures loc'[x] == loc[x] || (loc'[x].SccPtr? && loc[x].SccPtr?)
    ensures rep[x] in loc && !loc[rep[x]].SccPtr? ==> loc'[rep[x]] == loc[rep[x]]
  {
    hide Mirrors, Gained;
  }

  lemma InsideCollapsed(
    loc: map<int, Loc>, rep: map<int, int>, rc: map<int, int>, seg: map<int, int>, pending: seq<int>, j: int,
    loc': map<int, Loc>, rc': map<int, int>, rho: int, x: int)
    requires Merging(loc, rep, rc, seg, pending, j, j + 1, loc', rc', rho)
    requires Housed(rep, seg, x) && x in seg && RootedAt(loc, rep, seg, x, Pending)
    ensures RootedAt(loc', MergedReps(rep, seg, j, j + 1, rho), Lowered(seg, j), x, Pending)
  {
    hide Mirrors, Gained;
    assert rep[x] in seg && seg[rep[x]] == seg[x];
  }

  lemma UntouchedCollapsed(
    c: Start, loc: map<int, Loc>, rep: map<int, int>, rc: map<int, int>, seg: map<int, int>, num: map<int, int>,
    pending: seq<int>, j: int, loc': map<int, Loc>, rc': map<int, int>, rho: int, x: int)
    requires Merging(loc, rep, rc, seg, pending, j, j + 1, loc', rc', rho)
    requires Housed(rep, seg, x) && UntouchedAt(c, loc, rep, rc, num, x) && x !in seg && x in loc
    ensures UntouchedAt(c, loc', MergedReps(rep, seg, j, j + 1, rho), rc', num, x)
  {
    hide Mirrors, Gained;
    OutsideCollapsed(loc, rep, rc, seg, pending, j, loc', rc', rho, x);
  }

  lemma StagedCollapsed(
    loc: map<int, Loc>, rep: map<int, int>, rc: map<int, int>, seg: map<int, int>, stage: map<int, int>,
    pending: seq<int>, j: int, loc': map<int, Loc>, rc': map<int, int>, rho: int, x: int)
    requires Merging(loc, rep, rc, seg, pending, j, j + 1, loc', rc', rho)
    requires Housed(rep, seg, x) && RootedAt(loc, rep, stage, x, Immutable) && x !in seg && x in loc && x in rc
    ensures RootedAt(loc', MergedReps(rep, seg, j, j + 1, rho), stage, x, Immutable)
  {
    hide Mirrors, Gained;
    OutsideCollapsed(loc, rep, rc, seg, pending, j, loc', rc', rho, x);
  }

  lemma ColouredCollapsed(
    c: Start, loc: map<int, Loc>, rep: map<int, int>, rc: map<int, int>, seg: map<int, int>, stage: map<int, int>,
    num: map<int, int>, pending: seq<int>, j: int, loc': map<int, Loc>, rc': map<int, int>, rho: int)
    requires Coloured(c, loc, rep, rc, seg, stage, num)
    requires Merging(loc, rep, rc, seg, pending, j, j + 1, loc', rc', rho)
    requires forall x {:trigger Housed(rep, seg, x)} | x in rep :: Housed(rep, seg, x)
    ensures Coloured(c, loc', MergedReps(rep, seg, j, j + 1, rho), rc', Lowered(seg, j), stage, num)
  {
    hide Mirrors, Gained, Housed, RootedAt, UntouchedAt, Joining, Local;
    var rep', seg' := MergedReps(rep, seg, j, j + 1, rho), Lowered(seg, j);
    assert seg'.Keys == seg.Keys && rep'.Keys == rep.Keys && loc'.Keys == loc.Keys && rc'.Keys == rc.Keys;
    hide Merging, Lowered, MergedReps;
    forall x | x in loc' && x !in num ensures UntouchedAt(c, loc', rep', rc', num, x) {
      assert UntouchedAt(c, loc, rep, rc, num, x) && Housed(rep, seg, x);
      UntouchedCollapsed(c, loc, rep, rc, seg, num, pending, j, loc', rc', rho, x);
    }
    forall x | x in seg' ensures RootedAt(loc', rep', seg', x, Pending) {
      assert RootedAt(loc, rep, seg, x, Pending) && Housed(rep, seg, x);
      InsideCollapsed(loc, rep, rc, seg, pending, j, loc', rc', rho, x);
    }
    forall x | x in stage ensures RootedAt(loc', rep', stage, x, Immutable) {
      assert RootedAt(loc, rep, stage, x, Immutable) && Housed(rep, seg, x);
      StagedCollapsed(loc, rep, rc, seg, stage, pending, j, loc', rc', rho, x);
    }
  }

  lemma StackedCollapsed(seg: map<int, int>, pending: seq<int>, path: seq<int>, j: int)
    requires Stacked(seg, pending, path) && 0 <= j < |pending|
    ensures Stacked(Lowered(seg, j), pending[..j + 1], path)
  {
    var seg', pending' := Lowered(seg, j), pending[..j + 1];
    forall a, b | 0 <= a < b < |path|
      ensures path[a] != path[b] && seg'[path[a]] <= seg'[path[b]] && (path[b] in pending' ==> seg'[path[a]] < seg'[path[b]])
    {
      assert path[a] in seg && path[b] in seg;
      if path[b] in pending' {
        var i :| 0 <= i < |pending'| && pending'[i] == path[b];
        assert pending[i] == path[b];
      }
    }
  }

  lemma AgedCollapsed(seg: map<int, int>, pending: seq<int>, num: map<int, int>, clock: int, j: int)
    requires Aged(seg, pending, num, clock) && 0 <= j < |pending|
    ensures Aged(Lowered(seg, j), pending[..j + 1], num, clock)
  {
    var seg', pending' := Lowered(seg, j), pending[..j + 1];
    forall x | x in seg' ensures AgedAt(seg', pending', num, x) {
      assert AgedAt(seg, pending, num, x);
    }
    forall i, k | 0 <= i < k < |pending'| ensures num[pending'[i]] < num[pending'[k]] {
      assert pending'[i] == pending[i] && pending'[k] == pending[k];
    }
  }

  lemma ClassedCollapsed(rep: map<int, int>, seg: map<int, int>, stage: map<int, int>, j: int, rho: int)
    requires Classed(rep, seg, stage) && seg.Keys !! stage.Keys && rho in seg && seg[rho] >= j
    requires forall x {:trigger Housed(rep, seg, x)} | x in rep :: Housed(rep, seg, x)
    ensures Classed(MergedReps(rep, seg, j, j + 1, rho), Lowered(seg, j), stage)
  {
    var rep', seg' := MergedReps(rep, seg, j, j + 1, rho), Lowered(seg, j);
    forall x, y | x in seg' && y in seg' ensures rep'[x] == rep'[y] <==> seg'[x] == seg'[y] {
      assert Housed(rep, seg, x) && Housed(rep, seg, y);
    }
  }

  lemma DirectedCollapsed(
    c: Start, seg: map<int, int>, pending: seq<int>, num: map<int, int>, tree: map<int, Site>, done: set<Site>,
    j: int, s: Site, t: int)
    requires Directed(c, seg, pending, num, tree, done) && 0 <= j < |pending|
    requires Leads(c.g, s, t) && s.x in num && t in num && s.x in seg && t in seg && seg[t] == j <= seg[s.x]
    requires forall i | 0 <= i < |pending| :: pending[i] in seg && seg[pending[i]] == i
    ensures Directed(c, Lowered(seg, j), pending[..j + 1], num, tree, done + {s})
  {
    var seg', pending' := Lowered(seg, j), pending[..j + 1];
    forall i | 0 < i < |pending'| ensures TreeAt(c, seg', pending', tree, done + {s}, i) {
      assert TreeAt(c, seg, pending, tree, done, i);
    }
    forall s', u | s' in done + {s} && Leads(c.g, s', u) ensures Forward(seg', pending', tree, s', u) && (Local(c, u) ==> u in num) {
      if s' in done {
        assert Forward(seg, pending, tree, s', u);
      }
    }
  }

  lemma FinalsCollapsed(
    c: Start, rep: map<int, int>, rc: map<int, int>, seg: map<int, int>, stage: map<int, int>, j: int, rho: int,
    rc': map<int, int>)
    requires Finals(c, rep, rc, stage) && seg.Keys !! stage.Keys && rho in seg && rc'.Keys == rc.Keys
    requires forall y | y in rc && !Joining(seg, j, j + 1, y) :: rc'[y] == rc[y]
    ensures Finals(c, MergedReps(rep, seg, j, j + 1, rho), rc', stage)
  {
    var rep' := MergedReps(rep, seg, j, j + 1, rho);
    forall r | r in stage && rep'[r] == r ensures FinalAt(c, rep', rc', stage, r) {
      assert FinalAt(c, rep, rc, stage, r);
      assert Class(rep', stage, r) == Class(rep, stage, r);
    }
  }

  // ---------------------------------------------------------------- counts

  ghost function Up(seg: map<int, int>, n: int): set<int> {
    set x | x in seg && seg[x] >= n
  }

  lemma UpSplits(c: Start, seg: map<int, int>, done: set<Site>, n: int)
    ensures Sum(c, Up(seg, n)) == Sum(c, Segment(seg, n)) + Sum(c, Up(seg, n + 1))
    ensures |Into(c.g, done, Up(seg, n))| == |Into(c.g, done, Segment(seg, n))| + |Into(c.g, done, Up(seg, n + 1))|
  {
    var a, b := Segment(seg, n), Up(seg, n + 1);
    assert Up(seg, n) == a + b;
    assert (a + b) * c.rc.Keys == a * c.rc.Keys + b * c.rc.Keys;
    TotalUnion(c.rc, a * c.rc.Keys, b * c.rc.Keys);
    assert Into(c.g, done, a + b) == Into(c.g, done, a) + Into(c.g, done, b);
    assert Into(c.g, done, a) !! Into(c.g, done, b);
  }

  /** What the upper components bring in: their members' counts less the fields that enter them. */
  lemma {:induction false} GainedIs(
    c: Start, rep: map<int, int>, rc: map<int, int>, seg: map<int, int>, pending: seq<int>, done: set<Site>, n: int)
    requires 1 <= n && forall i | 0 <= i < |pending| :: pending[i] in rep && rep[pending[i]] in rc
    requires Counted(c, rep, rc, seg, pending, done) && forall x | x in seg :: seg[x] < |pending|
    ensures Gained(rep, rc, pending, n) == Sum(c, Up(seg, n)) - |Into(c.g, done, Up(seg, n))|
    decreases |pending| - n
  {
    if n >= |pending| {
      forall x ensures x !in Up(seg, n) {
      }
      assert Up(seg, n) == {};
      assert Up(seg, n) * c.rc.Keys == {};
      assert Into(c.g, done, Up(seg, n)) == {};
    } else {
      GainedIs(c, rep, rc, seg, pending, done, n + 1);
      UpSplits(c, seg, done, n);
      assert CountAt(c, rep, rc, seg, pending, done, n);
    }
  }

  lemma CountedCollapsed(
    c: Start, loc: map<int, Loc>, rep: map<int, int>, rc: map<int, int>, seg: map<int, int>, pending: seq<int>,
    done: set<Site>, j: int, loc': map<int, Loc>, rc': map<int, int>, rho: int, s: Site, t: int)
    requires Counted(c, rep, rc, seg, pending, done) && Merging(loc, rep, rc, seg, pending, j, j + 1, loc', rc', rho)
    requires Leads(c.g, s, t) && s !in done && t in seg && seg[t] == j
    requires forall x | x in seg :: 0 <= seg[x] < |pending|
    requires forall i | 0 <= i < |pending| :: pending[i] in seg && seg[pending[i]] == i && Housed(rep, seg, pending[i])
    ensures Counted(c, MergedReps(rep, seg, j, j + 1, rho), rc', Lowered(seg, j), pending[..j + 1], done + {s})
  {
    hide Mirrors;
    var rep', seg', pending' := MergedReps(rep, seg, j, j + 1, rho), Lowered(seg, j), pending[..j + 1];
    forall i | 0 <= i < |pending'| ensures CountAt(c, rep', rc', seg', pending', done + {s}, i) {
      assert CountAt(c, rep, rc, seg, pending, done, i);
      assert Housed(rep, seg, pending[i]);
      if i < j {
        assert Segment(seg', i) == Segment(seg, i);
        IntoOneMore(c.g, done, s, t, Segment(seg, i));
      } else {
        assert Segment(seg', j) == Up(seg, j);
        UpSplits(c, seg, done, j);
        GainedIs(c, rep, rc, seg, pending, done, j + 1);
        IntoOneMore(c.g, done, s, t, Up(seg, j));
      }
    }
  }

  // ---------------------------------------------------------------- connectedness

  /** Every component under construction reaches the ones above it. */
  lemma {:induction false} ReachUp(
    c: Start, rep: map<int, int>, seg: map<int, int>, stage: map<int, int>, pending: seq<int>, num: map<int, int>,
    tree: map<int, Site>, done: set<Site>, i: int, k: int)
    requires Connected(c, rep, num) && Classed(rep, seg, stage) && Directed(c, seg, pending, num, tree, done)
    requires seg.Keys <= num.Keys && (forall x | x in num :: Local(c, x))
    requires 0 <= i <= k < |pending| && forall i | 0 <= i < |pending| :: pending[i] in seg && seg[pending[i]] == i
    ensures Reach(c, pending[i], pending[k])
    decreases k - i
  {
    if i == k {
      ReachSelf(c, pending[i]);
    } else {
      ReachUp(c, rep, seg, stage, pending, num, tree, done, i, k - 1);
      assert TreeAt(c, seg, pending, tree, done, k);
      var s := tree[pending[k]];
      SameSegment(rep, seg, stage, pending[k - 1], s.x);
      ReachEdge(c, s, s.x, pending[k]);
      ReachTrans(c, pending[k - 1], s.x, pending[k]);
      ReachTrans(c, pending[i], pending[k - 1], pending[k]);
    }
  }

  /** The back edge closes a circle through all the components above the one it meets. */
  lemma ReachRound(
    c: Start, rep: map<int, int>, seg: map<int, int>, stage: map<int, int>, pending: seq<int>, num: map<int, int>,
    tree: map<int, Site>, done: set<Site>, s: Site, t: int, x: int)
    requires Connected(c, rep, num) && Classed(rep, seg, stage) && Directed(c, seg, pending, num, tree, done)
    requires seg.Keys <= num.Keys && (forall x | x in num :: Local(c, x))
    requires pending != [] && forall i | 0 <= i < |pending| :: pending[i] in seg && seg[pending[i]] == i
    requires forall x | x in seg :: 0 <= seg[x] < |pending|
    requires Leads(c.g, s, t) && s.x in seg && seg[s.x] == |pending| - 1 && t in seg && x in seg && seg[x] >= seg[t]
    ensures Reach(c, t, x) && Reach(c, x, t)
  {
    var k, b, top := |pending| - 1, pending[seg[x]], pending[|pending| - 1];
    SameSegment(rep, seg, stage, x, b);
    SameSegment(rep, seg, stage, t, pending[seg[t]]);
    SameSegment(rep, seg, stage, s.x, top);
    ReachUp(c, rep, seg, stage, pending, num, tree, done, seg[t], seg[x]);
    ReachUp(c, rep, seg, stage, pending, num, tree, done, seg[x], k);
    ReachTrans(c, t, pending[seg[t]], b);
    ReachTrans(c, t, b, x);
    ReachEdge(c, s, s.x, t);
    ReachTrans(c, top, s.x, t);
    ReachTrans(c, b, top, t);
    ReachTrans(c, x, b, t);
  }

  lemma ConnectedCollapsed(
    c: Start, rep: map<int, int>, seg: map<int, int>, stage: map<int, int>, pending: seq<int>, num: map<int, int>,
    tree: map<int, Site>, done: set<Site>, s: Site, t: int, rho: int)
    requires Connected(c, rep, num) && Classed(rep, seg, stage) && Directed(c, seg, pending, num, tree, done)
    requires num.Keys == seg.Keys + stage.Keys && (forall x | x in num :: Local(c, x))
    requires pending != [] && forall i | 0 <= i < |pending| :: pending[i] in seg && seg[pending[i]] == i
    requires forall x | x in seg :: 0 <= seg[x] < |pending|
    requires Leads(c.g, s, t) && s.x in seg && seg[s.x] == |pending| - 1 && t in seg
    requires rho in seg && seg[rho] >= seg[t]
    requires forall x {:trigger Housed(rep, seg, x)} | x in rep :: Housed(rep, seg, x)
    ensures Connected(c, MergedReps(rep, seg, seg[t], seg[t] + 1, rho), num)
  {
    var rep' := MergedReps(rep, seg, seg[t], seg[t] + 1, rho);
    forall x, y | x in num && y in num && rep'[x] == rep'[y] ensures Reach(c, x, y) {
      assert Housed(rep, seg, x) && Housed(rep, seg, y);
      if x in seg && seg[x] >= seg[t] {
        ReachRound(c, rep, seg, stage, pending, num, tree, done, s, t, x);
        ReachRound(c, rep, seg, stage, pending, num, tree, done, s, t, y);
        ReachTrans(c, x, t, y);
      }
    }
  }

  // ---------------------------------------------------------------- the whole step

  /** A back edge that meets the bottom of its component keeps the invariants. */
  lemma CollapseKeeps(c: Start, st: State, s: Site, t: int, loc': map<int, Loc>, rc': map<int, int>, rho: int)
    requires Inv(c, st) && OnTop(c, st, s, t) && t in st.seg && t in st.num
    requires Merging(st.loc, st.rep, st.rc, st.seg, st.pending, st.seg[t], st.seg[t] + 1, loc', rc', rho)
    ensures 0 <= st.seg[t] < |st.pending| && Inv(c, Collapsed(st, st.seg[t], rho, loc', rc'))
  {
    hide Good, Mirrors, Coloured, Stacked, Aged, Classed, Directed, Settled, Waiting, Covered, Counted, Finals, Connected;
    hide Merging;
    var j := st.seg[t];
    Basics(c, st);
    MergedFacts(st.loc, st.rep, st.rc, st.seg, st.pending, j, loc', rc', rho);
    AllHoused(c, st);
    var to := Collapsed(st, j, rho, loc', rc');
    assert Mirrors(to.loc, to.rep);
    assert Coloured(c, to.loc, to.rep, to.rc, to.seg, to.stage, to.num) by {
      ColouredCollapsed(c, st.loc, st.rep, st.rc, st.seg, st.stage, st.num, st.pending, j, loc', rc', rho);
    }
    assert Waiting(c, to.dfs, to.from, to.done) && Covered(c, to.dfs, to.from, to.num, to.done)
           && Stacked(to.seg, to.pending, Posts(to.dfs)) by {
      PopPre(c, st.dfs, st.from, st.num, st.done);
      StackedCollapsed(st.seg, st.pending, Posts(st.dfs), j);
    }
    assert Aged(to.seg, to.pending, to.num, to.clock) by {
      AgedCollapsed(st.seg, st.pending, st.num, st.clock, j);
    }
    assert Classed(to.rep, to.seg, to.stage) by {
      ClassedCollapsed(st.rep, st.seg, st.stage, j, rho);
    }
    assert Directed(c, to.seg, to.pending, to.num, to.tree, to.done) by {
      DirectedCollapsed(c, st.seg, st.pending, st.num, st.tree, st.done, j, s, t);
    }
    assert Counted(c, to.rep, to.rc, to.seg, to.pending, to.done) by {
      CountedCollapsed(c, st.loc, st.rep, st.rc, st.seg, st.pending, st.done, j, loc', rc', rho, s, t);
    }
    assert Finals(c, to.rep, to.rc, to.stage) by {
      FinalsCollapsed(c, st.rep, st.rc, st.seg, st.stage, j, rho, rc');
    }
    assert Connected(c, to.rep, to.num) by {
      ConnectedCollapsed(c, st.rep, st.seg, st.stage, st.pending, st.num, st.tree, st.done, s, t, rho);
    }
  }

  lemma MergedFacts(
    loc: map<int, Loc>, rep: map<int, int>, rc: map<int, int>, seg: map<int, int>, pending: seq<int>, j: int,
    loc': map<int, Loc>, rc': map<int, int>, rho: int)
    requires Merging(loc, rep, rc, seg, pending, j, j + 1, loc', rc', rho)
    ensures 0 <= j < |pending| && rho in seg && seg[rho] >= j && rc'.Keys == rc.Keys
    ensures Mirrors(loc', MergedReps(rep, seg, j, j + 1, rho))
    ensures forall y | y in rc && !Joining(seg, j, j + 1, y) :: rc'[y] == rc[y]
  {
  }
}
