/**
 Each turn of the freezing search keeps its invariants.
 */
module FreezeSteps {
  import opened Collections
  import opened UnionFind
  import opened Freezing

  // ---------------------------------------------------------------- the top of the stack

  /** The newest header on the path belongs to the topmost component. */
  lemma NewestOnTop(seg: map<int, int>, pending: seq<int>, path: seq<int>)
    requires Stacked(seg, pending, path) && path != []
    ensures pending != [] && path[|path| - 1] in seg && seg[path[|path| - 1]] == |pending| - 1
  {
    var x, b := path[|path| - 1], pending[|pending| - 1];
    assert x in seg;
    var a :| 0 <= a < |path| && path[a] == b;
  }

  /** The bookkeeping in plain terms. */
  lemma Basics(c: Start, st: State)
    requires Coloured(c, st.loc, st.rep, st.rc, st.seg, st.stage, st.num) && Stacked(st.seg, st.pending, Posts(st.dfs))
    ensures st.seg.Keys !! st.stage.Keys && st.num.Keys == st.seg.Keys + st.stage.Keys && st.num.Keys <= c.loc.Keys
    ensures st.loc.Keys == c.loc.Keys && st.rep.Keys == c.loc.Keys && st.rc.Keys == c.loc.Keys
    ensures forall x | x in st.num :: Local(c, x)
    ensures forall x | x in st.seg :: 0 <= st.seg[x] < |st.pending|
    ensures forall j | 0 <= j < |st.pending| :: st.pending[j] in st.seg && st.seg[st.pending[j]] == j
    ensures forall x, y | x in st.seg && y in st.stage :: st.rep[x] != st.rep[y]
  {
    forall x, y | x in st.seg && y in st.stage ensures st.rep[x] != st.rep[y] {
      assert RootedAt(st.loc, st.rep, st.seg, x, Pending) && RootedAt(st.loc, st.rep, st.stage, y, Immutable);
    }
  }

  /** Field `s` is on top of the stack and leads to `t`. */
  ghost predicate OnTop(c: Start, st: State, s: Site, t: int) {
    && st.dfs != [] && |st.from| == |st.dfs| && st.dfs[|st.dfs| - 1] == Pre(t) && st.from[|st.dfs| - 1] == s
    && s !in st.done && Leads(c.g, s, t) && t in c.loc
    && s.x in st.seg && st.pending != [] && st.seg[s.x] == |st.pending| - 1
    && s.x in st.num
  }

  lemma TopSite(c: Start, st: State)
    requires Good(c) && Coloured(c, st.loc, st.rep, st.rc, st.seg, st.stage, st.num)
    requires Stacked(st.seg, st.pending, Posts(st.dfs)) && Waiting(c, st.dfs, st.from, st.done)
    requires st.dfs != [] && st.dfs[|st.dfs| - 1].Pre?
    ensures OnTop(c, st, st.from[|st.dfs| - 1], st.dfs[|st.dfs| - 1].h)
  {
    var n := |st.dfs| - 1;
    assert Waits(c, st.dfs, st.from, st.done, n);
    assert Posts(st.dfs) == Posts(st.dfs[..n]);
    NewestOnTop(st.seg, st.pending, Posts(st.dfs));
  }

  /** Taking a `Pre` entry off the stack and counting its field as dealt with. */
  lemma PopPre(c: Start, dfs: seq<Mark>, from: seq<Site>, num: map<int, int>, done: set<Site>)
    requires Waiting(c, dfs, from, done) && Covered(c, dfs, from, num, done) && dfs != [] && dfs[|dfs| - 1].Pre?
    ensures var n := |dfs| - 1;
      && Waiting(c, dfs[..n], from[..n], done + {from[n]}) && Covered(c, dfs[..n], from[..n], num, done + {from[n]})
      && Posts(dfs[..n]) == Posts(dfs)
  {
    var n := |dfs| - 1;
    forall k | 0 <= k < n ensures Waits(c, dfs[..n], from[..n], done + {from[n]}, k) {
      assert Waits(c, dfs, from, done, k);
      assert dfs[..n][..k] == dfs[..k];
    }
    forall s | IsSite(c.g, s) && s.x in num ensures s in done + {from[n]} || Queued(dfs[..n], from[..n], s) {
      if s !in done + {from[n]} {
        var k :| 0 <= k < |dfs| && k < |from| && dfs[k].Pre? && from[k] == s;
        assert k < n && dfs[..n][k] == dfs[k] && from[..n][k] == from[k];
      }
    }
  }

  lemma IntoOneMore(g: map<int, seq<Ref>>, done: set<Site>, s: Site, t: int, xs: set<int>)
    requires Leads(g, s, t) && s !in done
    ensures |Into(g, done + {s}, xs)| == |Into(g, done, xs)| + One(t in xs)
  {
    SizeWithout(Into(g, done + {s}, xs), s);
    assert Into(g, done + {s}, xs) - {s} == Into(g, done, xs);
  }

  // ---------------------------------------------------------------- a field that leads out of the search

  function Skipped(st: State): State
    requires |st.dfs| == |st.from| && st.dfs != []
  {
    var n := |st.dfs| - 1;
    st.(dfs := st.dfs[..n], from := st.from[..n], done := st.done + {st.from[n]})
  }

  lemma SkipCounts(
    c: Start, rep: map<int, int>, rc: map<int, int>, seg: map<int, int>, pending: seq<int>, done: set<Site>, s: Site, t: int)
    requires Counted(c, rep, rc, seg, pending, done) && Leads(c.g, s, t) && s !in done && t !in seg
    ensures Counted(c, rep, rc, seg, pending, done + {s})
  {
    forall j | 0 <= j < |pending| ensures CountAt(c, rep, rc, seg, pending, done + {s}, j) {
      assert CountAt(c, rep, rc, seg, pending, done, j);
      IntoOneMore(c.g, done, s, t, Segment(seg, j));
    }
  }

  lemma SkipDirected(
    c: Start, seg: map<int, int>, pending: seq<int>, num: map<int, int>, tree: map<int, Site>, done: set<Site>,
    s: Site, t: int)
    requires Directed(c, seg, pending, num, tree, done) && Leads(c.g, s, t) && s.x in num
    requires Forward(seg, pending, tree, s, t) && (Local(c, t) ==> t in num)
    ensures Directed(c, seg, pending, num, tree, done + {s})
  {
    forall j | 0 < j < |pending| ensures TreeAt(c, seg, pending, tree, done + {s}, j) {
      assert TreeAt(c, seg, pending, tree, done, j);
    }
  }

  /** An edge to a finished component, to a heap region or to what was frozen before. */
  lemma SkipKeeps(c: Start, st: State)
    requires Inv(c, st) && st.dfs != [] && st.dfs[|st.dfs| - 1].Pre?
    requires var t := st.dfs[|st.dfs| - 1].h; t !in st.seg && (Local(c, t) ==> t in st.num)
    ensures Inv(c, Skipped(st))
  {
    hide Good, Mirrors, Coloured, Stacked, Aged, Classed, Directed, Settled, Waiting, Covered, Counted, Finals, Connected;
    Basics(c, st);
    TopSite(c, st);
    var n := |st.dfs| - 1;
    var s, t := st.from[n], st.dfs[n].h;
    PopPre(c, st.dfs, st.from, st.num, st.done);
    SkipCounts(c, st.rep, st.rc, st.seg, st.pending, st.done, s, t);
    SkipDirected(c, st.seg, st.pending, st.num, st.tree, st.done, s, t);
  }

  // ---------------------------------------------------------------- path compression

  lemma ColouredCompressed(
    c: Start, loc: map<int, Loc>, rep: map<int, int>, rc: map<int, int>, seg: map<int, int>, stage: map<int, int>,
    num: map<int, int>, loc': map<int, Loc>)
    requires Coloured(c, loc, rep, rc, seg, stage, num) && loc'.Keys == loc.Keys
    requires forall x | x in loc :: loc'[x] == loc[x] || (loc'[x].SccPtr? && loc[x].SccPtr?)
    ensures Coloured(c, loc', rep, rc, seg, stage, num)
  {
    forall x | x in loc && x !in num ensures UntouchedAt(c, loc', rep, rc, num, x) {
      assert UntouchedAt(c, loc, rep, rc, num, x);
      var r := rep[x];
      assert loc[x].SccPtr? ==> loc[r] == Immutable;
    }
    forall x | x in seg ensures RootedAt(loc', rep, seg, x, Pending) {
      assert RootedAt(loc, rep, seg, x, Pending);
      var r := rep[x];
      assert loc[r] == Pending;
    }
    forall x | x in stage ensures RootedAt(loc', rep, stage, x, Immutable) {
      assert RootedAt(loc, rep, stage, x, Immutable);
      var r := rep[x];
      assert loc[r] == Immutable;
    }
  }

  lemma CompressKeeps(c: Start, st: State, loc': map<int, Loc>)
    requires Inv(c, st) && Compressed(st.loc, loc')
    ensures Inv(c, st.(loc := loc'))
  {
    hide Good, Coloured, Stacked, Aged, Classed, Directed, Settled, Waiting, Covered, Counted, Finals, Connected;
    CompressedAlike(st.loc, loc');
    ColouredCompressed(c, st.loc, st.rep, st.rc, st.seg, st.stage, st.num, loc');
  }

  // ---------------------------------------------------------------- leaving a header

  lemma PopPost(c: Start, dfs: seq<Mark>, from: seq<Site>, num: map<int, int>, done: set<Site>)
    requires Waiting(c, dfs, from, done) && Covered(c, dfs, from, num, done) && dfs != [] && dfs[|dfs| - 1].Post?
    ensures |from| == |dfs|
    ensures var n := |dfs| - 1;
      && Waiting(c, dfs[..n], from[..n], done) && Covered(c, dfs[..n], from[..n], num, done)
      && Posts(dfs) == Posts(dfs[..n]) + [dfs[n].h]
  {
    var n := |dfs| - 1;
    forall k | 0 <= k < n ensures Waits(c, dfs[..n], from[..n], done, k) {
      assert Waits(c, dfs, from, done, k);
      assert dfs[..n][..k] == dfs[..k];
    }
    forall s | IsSite(c.g, s) && s.x in num ensures s in done || Queued(dfs[..n], from[..n], s) {
      if s !in done {
        var k :| 0 <= k < |dfs| && k < |from| && dfs[k].Pre? && from[k] == s;
        assert k < n && dfs[..n][k] == dfs[k] && from[..n][k] == from[k];
      }
    }
  }

  function Left(st: State): State
    requires |st.dfs| == |st.from| && st.dfs != []
  {
    var n := |st.dfs| - 1;
    st.(dfs := st.dfs[..n], from := st.from[..n])
  }

  lemma StackedBelow(seg: map<int, int>, pending: seq<int>, path: seq<int>, h: int)
    requires Stacked(seg, pending, path + [h]) && (pending == [] || pending[|pending| - 1] != h)
    ensures Stacked(seg, pending, path)
  {
    var whole := path + [h];
    assert whole[|path|] == h;
    forall j | 0 <= j < |pending| ensures pending[j] in path {
      assert pending[j] in whole;
      var b := pending[|pending| - 1];
      var a :| 0 <= a < |whole| && whole[a] == b;
      assert seg[whole[a]] <= seg[whole[|path|]];
    }
    assert forall a | 0 <= a < |path| :: whole[a] == path[a];
  }

  /** A header that is not the bottom of a component: its component is still open. */
  lemma LeaveKeeps(c: Start, st: State)
    requires Inv(c, st) && st.dfs != [] && st.dfs[|st.dfs| - 1].Post?
    requires st.pending == [] || st.pending[|st.pending| - 1] != st.dfs[|st.dfs| - 1].h
    ensures Inv(c, Left(st))
  {
    hide Good, Mirrors, Coloured, Stacked, Aged, Classed, Directed, Settled, Waiting, Covered, Counted, Finals, Connected;
    var n := |st.dfs| - 1;
    PopPost(c, st.dfs, st.from, st.num, st.done);
    StackedBelow(st.seg, st.pending, Posts(st.dfs[..n]), st.dfs[n].h);
  }

  // ---------------------------------------------------------------- finishing a component

  ghost function Below(seg: map<int, int>, k: int): map<int, int> {
    map x | x in seg && seg[x] < k :: seg[x]
  }

  ghost function Finished(seg: map<int, int>, stage: map<int, int>, k: int, clock: int): map<int, int> {
    map x | x in stage.Keys + Segment(seg, k) :: if x in stage then stage[x] else clock
  }

  ghost function Completed(st: State): State
    requires |st.dfs| == |st.from| && st.dfs != [] && st.pending != [] && st.pending[|st.pending| - 1] in st.rep
  {
    var n, k := |st.dfs| - 1, |st.pending| - 1;
    st.(dfs := st.dfs[..n], from := st.from[..n], pending := st.pending[..k],
        loc := st.loc[st.rep[st.pending[k]] := Immutable],
        seg := Below(st.seg, k), stage := Finished(st.seg, st.stage, k, st.clock), clock := st.clock + 1)
  }

  /** No member of the topmost component is being searched any more. */
  lemma AllSearched(
    c: Start, dfs: seq<Mark>, from: seq<Site>, seg: map<int, int>, pending: seq<int>, num: map<int, int>, done: set<Site>,
    path: seq<int>, s: Site)
    requires pending != [] && Stacked(seg, pending, path + [pending[|pending| - 1]])
    requires Waiting(c, dfs, from, done) && Covered(c, dfs, from, num, done) && Posts(dfs) == path
    requires IsSite(c.g, s) && s.x in num && s.x in seg && seg[s.x] == |pending| - 1
    ensures s in done
  {
    if s !in done {
      var k :| 0 <= k < |dfs| && k < |from| && dfs[k].Pre? && from[k] == s;
      assert Waits(c, dfs, from, done, k);
      PostsPrefix(dfs, k);
      assert s.x in Posts(dfs[..k]);
      OthersBelow(seg, pending, path);
    }
  }

  /** Below the bottom of a component the path belongs to other components. */
  lemma OthersBelow(seg: map<int, int>, pending: seq<int>, path: seq<int>)
    requires pending != [] && Stacked(seg, pending, path + [pending[|pending| - 1]])
    ensures forall x | x in path :: x in seg && seg[x] < |pending| - 1
  {
    var whole := path + [pending[|pending| - 1]];
    forall x | x in path ensures x in seg && seg[x] < |pending| - 1 {
      var a :| 0 <= a < |path| && path[a] == x;
      assert whole[a] == x && whole[|path|] == pending[|pending| - 1];
    }
  }

  lemma {:induction false} PostsPrefix(dfs: seq<Mark>, k: int)
    requires 0 <= k <= |dfs|
    ensures forall x | x in Posts(dfs[..k]) :: x in Posts(dfs)
    decreases |dfs| - k
  {
    if k < |dfs| {
      PostsPrefix(dfs, k + 1);
      assert dfs[..k + 1][..k] == dfs[..k];
    } else {
      assert dfs[..k] == dfs;
    }
  }

  lemma StackedWithoutTop(seg: map<int, int>, pending: seq<int>, path: seq<int>)
    requires pending != [] && Stacked(seg, pending, path + [pending[|pending| - 1]])
    ensures Stacked(Below(seg, |pending| - 1), pending[..|pending| - 1], path)
  {
    var k := |pending| - 1;
    var whole := path + [pending[k]];
    assert whole[|path|] == pending[k];
    forall a | 0 <= a < |path| ensures path[a] in Below(seg, k) {
      assert whole[a] == path[a];
    }
    forall j | 0 <= j < k ensures pending[j] in path {
      assert pending[j] in whole;
    }
    forall a, b | 0 <= a < b < |path|
      ensures path[a] != path[b] && seg[path[a]] <= seg[path[b]] && (path[b] in pending[..k] ==> seg[path[a]] < seg[path[b]])
    {
      assert whole[a] == path[a] && whole[b] == path[b];
    }
  }

  lemma AgedWithoutTop(seg: map<int, int>, pending: seq<int>, num: map<int, int>, clock: int)
    requires pending != [] && Aged(seg, pending, num, clock)
    ensures Aged(Below(seg, |pending| - 1), pending[..|pending| - 1], num, clock + 1)
  {
    var k := |pending| - 1;
    forall x | x in Below(seg, k) ensures AgedAt(Below(seg, k), pending[..k], num, x) {
      assert AgedAt(seg, pending, num, x);
    }
  }

  lemma MirrorsCompleted(loc: map<int, Loc>, rep: map<int, int>, b: int)
    requires Mirrors(loc, rep) && b in rep
    ensures Mirrors(loc[rep[b] := Immutable], rep) && rep[rep[b]] == rep[b]
  {
    var loc' := loc[rep[b] := Immutable];
    forall x | x in loc ensures Upward(loc') && Rep(loc', x) == Rep(loc, x) {
      RelabelledRep(loc, Rep(loc, b), Immutable, x);
    }
    assert forall x | x in rep :: rep[x] == Reps(loc')[x];
  }

  lemma ColouredCompleted(
    c: Start, loc: map<int, Loc>, rep: map<int, int>, rc: map<int, int>, seg: map<int, int>, stage: map<int, int>,
    num: map<int, int>, k: int, b: int, clock: int)
    requires Coloured(c, loc, rep, rc, seg, stage, num) && Classed(rep, seg, stage) && Mirrors(loc, rep)
    requires b in seg && seg[b] == k && forall x | x in seg :: seg[x] <= k
    ensures Coloured(c, loc[rep[b] := Immutable], rep, rc, Below(seg, k), Finished(seg, stage, k, clock), num)
  {
    hide Mirrors, Classed;
    assert RootedAt(loc, rep, seg, b, Pending);
    RootInSegment(loc, rep, seg, stage, b);
    var loc', seg', stage' := loc[rep[b] := Immutable], Below(seg, k), Finished(seg, stage, k, clock);
    KeysCompleted(seg, stage, num, k, clock);
    forall x | x in loc' && x !in num ensures UntouchedAt(c, loc', rep, rc, num, x) {
      assert UntouchedAt(c, loc, rep, rc, num, x);
    }
    forall x | x in seg' ensures RootedAt(loc', rep, seg', x, Pending) {
      assert RootedAt(loc, rep, seg, x, Pending);
      RootInSegment(loc, rep, seg, stage, x);
    }
    forall x | x in stage' ensures RootedAt(loc', rep, stage', x, Immutable) {
      if x in stage {
        assert RootedAt(loc, rep, stage, x, Immutable);
      } else {
        assert seg[x] == k;
        SameSegment(rep, seg, stage, x, b);
      }
    }
  }

  lemma SameSegment(rep: map<int, int>, seg: map<int, int>, stage: map<int, int>, x: int, y: int)
    requires Classed(rep, seg, stage) && x in seg && y in seg
    ensures rep[x] == rep[y] <==> seg[x] == seg[y]
  {
  }

  /** The root of an open class lies in the segment of its members. */
  lemma RootInSegment(loc: map<int, Loc>, rep: map<int, int>, seg: map<int, int>, stage: map<int, int>, x: int)
    requires Classed(rep, seg, stage) && Mirrors(loc, rep) && x in seg && RootedAt(loc, rep, seg, x, Pending)
    ensures rep[x] in rep && rep[rep[x]] == rep[x] && seg[rep[x]] == seg[x]
  {
    assert rep[x] == Rep(loc, x);
  }

  lemma KeysCompleted(seg: map<int, int>, stage: map<int, int>, num: map<int, int>, k: int, clock: int)
    requires seg.Keys !! stage.Keys && num.Keys == seg.Keys + stage.Keys && forall x | x in seg :: seg[x] <= k
    ensures Below(seg, k).Keys !! Finished(seg, stage, k, clock).Keys
    ensures num.Keys == Below(seg, k).Keys + Finished(seg, stage, k, clock).Keys
  {
    forall x ensures x in num <==> x in Below(seg, k) || x in Finished(seg, stage, k, clock) {
      assert x in num <==> x in seg || x in stage;
    }
  }

  lemma ClassedCompleted(c: Start, rep: map<int, int>, seg: map<int, int>, stage: map<int, int>, k: int, clock: int)
    requires Classed(rep, seg, stage) && Settled(c, stage, clock) && seg.Keys !! stage.Keys
    requires forall x, y | x in seg && y in stage :: rep[x] != rep[y]
    ensures Classed(rep, Below(seg, k), Finished(seg, stage, k, clock))
  {
  }

  // ---------------------------------------------------------------- counts of a finished component

  /** Of the fields dealt with that enter the topmost component, only the one that discovered it starts outside. */
  lemma EntersOnce(
    c: Start, seg: map<int, int>, stage: map<int, int>, pending: seq<int>, num: map<int, int>, tree: map<int, Site>,
    done: set<Site>, clock: int, k: int)
    requires Good(c) && pending != [] && k == |pending| - 1 && forall x | x in seg :: 0 <= seg[x] <= k
    requires Directed(c, seg, pending, num, tree, done) && Settled(c, stage, clock)
    requires seg.Keys !! stage.Keys && num.Keys == seg.Keys + stage.Keys && forall x | x in num :: Local(c, x)
    requires forall j | 0 <= j < |pending| :: pending[j] in seg && seg[pending[j]] == j
    requires forall s | IsSite(c.g, s) && s.x in seg && seg[s.x] == k :: s in done
    ensures |Into(c.g, done, Segment(seg, k))| == |Inside(c.g, Segment(seg, k))| + One(k > 0)
  {
    var xs, b := Segment(seg, k), pending[k];
    if k > 0 {
      assert TreeAt(c, seg, pending, tree, done, k);
      var s0 := tree[b];
      forall s ensures s in Into(c.g, done, xs) - {s0} <==> s in Inside(c.g, xs) {
        EntersFrom(c, seg, stage, pending, num, tree, done, clock, k, s);
      }
      assert Into(c.g, done, xs) - {s0} == Inside(c.g, xs);
      SizeWithout(Into(c.g, done, xs), s0);
    } else {
      forall s ensures s in Into(c.g, done, xs) <==> s in Inside(c.g, xs) {
        EntersFrom(c, seg, stage, pending, num, tree, done, clock, k, s);
      }
      assert Into(c.g, done, xs) == Inside(c.g, xs);
    }
  }

  lemma EntersFrom(
    c: Start, seg: map<int, int>, stage: map<int, int>, pending: seq<int>, num: map<int, int>, tree: map<int, Site>,
    done: set<Site>, clock: int, k: int, s: Site)
    requires Good(c) && 0 <= k < |pending| && forall x | x in seg :: 0 <= seg[x] <= k
    requires Directed(c, seg, pending, num, tree, done) && Settled(c, stage, clock)
    requires seg.Keys !! stage.Keys && num.Keys == seg.Keys + stage.Keys && forall x | x in num :: Local(c, x)
    requires forall s | IsSite(c.g, s) && s.x in seg && seg[s.x] == k :: s in done
    ensures s in Inside(c.g, Segment(seg, k)) ==> s in Into(c.g, done, Segment(seg, k))
    ensures s in Into(c.g, done, Segment(seg, k)) ==>
      || s in Inside(c.g, Segment(seg, k))
      || (k > 0 && pending[k] in tree && tree[pending[k]] == s)
  {
    if s in Into(c.g, done, Segment(seg, k)) {
      var t := c.g[s.x][s.i].target;
      assert Leads(c.g, s, t);
      assert Forward(seg, pending, tree, s, t);
      assert s == Edge(s.x, s.i);
      assert s in AllSites(c.g);
    }
  }

  lemma CountedCompleted(
    c: Start, rep: map<int, int>, rc: map<int, int>, seg: map<int, int>, pending: seq<int>, done: set<Site>)
    requires pending != [] && Counted(c, rep, rc, seg, pending, done)
    ensures Counted(c, rep, rc, Below(seg, |pending| - 1), pending[..|pending| - 1], done)
  {
    var k := |pending| - 1;
    forall j | 0 <= j < k ensures CountAt(c, rep, rc, Below(seg, k), pending[..k], done, j) {
      assert CountAt(c, rep, rc, seg, pending, done, j);
      assert Segment(Below(seg, k), j) == Segment(seg, j);
    }
  }

  lemma CountOf(
    c: Start, rep: map<int, int>, rc: map<int, int>, seg: map<int, int>, pending: seq<int>, done: set<Site>, j: int)
    requires Counted(c, rep, rc, seg, pending, done) && 0 <= j < |pending|
    ensures CountAt(c, rep, rc, seg, pending, done, j)
  {
  }

  lemma FinalsCompleted(
    c: Start, rep: map<int, int>, rc: map<int, int>, seg: map<int, int>, stage: map<int, int>,
    pending: seq<int>, done: set<Site>, k: int, clock: int)
    requires Classed(rep, seg, stage) && Finals(c, rep, rc, stage) && seg.Keys !! stage.Keys
    requires k == |pending| - 1 && CountAt(c, rep, rc, seg, pending, done, k) && pending[k] in seg && seg[pending[k]] == k
    requires |Into(c.g, done, Segment(seg, k))| == |Inside(c.g, Segment(seg, k))| + One(k > 0)
    requires forall x, y | x in seg && y in stage :: rep[x] != rep[y]
    ensures Finals(c, rep, rc, Finished(seg, stage, k, clock))
  {
    var stage', b := Finished(seg, stage, k, clock), pending[k];
    forall r | r in stage' && rep[r] == r ensures FinalAt(c, rep, rc, stage', r) {
      ClassCompleted(rep, seg, stage, k, clock, r);
      if r in stage {
        assert FinalAt(c, rep, rc, stage, r);
      } else {
        assert rep[r] == rep[b];
      }
    }
  }

  lemma ClassCompleted(rep: map<int, int>, seg: map<int, int>, stage: map<int, int>, k: int, clock: int, r: int)
    requires Classed(rep, seg, stage) && seg.Keys !! stage.Keys
    requires forall x, y | x in seg && y in stage :: rep[x] != rep[y]
    requires r in Finished(seg, stage, k, clock) && rep[r] == r
    ensures Class(rep, Finished(seg, stage, k, clock), r) == if r in stage then Class(rep, stage, r) else Segment(seg, k)
  {
    var xs := Class(rep, Finished(seg, stage, k, clock), r);
    if r in stage {
      forall x ensures x in xs <==> x in Class(rep, stage, r) {
      }
    } else {
      forall x ensures x in xs <==> x in Segment(seg, k) {
      }
    }
  }

  lemma DirectedCompleted(
    c: Start, seg: map<int, int>, pending: seq<int>, num: map<int, int>, tree: map<int, Site>, done: set<Site>)
    requires pending != [] && Directed(c, seg, pending, num, tree, done)
    ensures Directed(c, Below(seg, |pending| - 1), pending[..|pending| - 1], num, tree, done)
  {
    var k := |pending| - 1;
    forall j | 0 < j < k ensures TreeAt(c, Below(seg, k), pending[..k], tree, done, j) {
      assert TreeAt(c, seg, pending, tree, done, j);
    }
    forall s, t | s in done && Leads(c.g, s, t) ensures Forward(Below(seg, k), pending[..k], tree, s, t) {
      assert Forward(seg, pending, tree, s, t);
    }
  }

  lemma SettledCompleted(
    c: Start, seg: map<int, int>, stage: map<int, int>, pending: seq<int>, num: map<int, int>, tree: map<int, Site>,
    done: set<Site>, clock: int, k: int)
    requires Settled(c, stage, clock) && Directed(c, seg, pending, num, tree, done)
    requires k == |pending| - 1 && forall x | x in seg :: 0 <= seg[x] <= k
    requires seg.Keys !! stage.Keys && num.Keys == seg.Keys + stage.Keys
    requires forall s | IsSite(c.g, s) && s.x in seg && seg[s.x] == k :: s in done
    ensures Settled(c, Finished(seg, stage, k, clock), clock + 1)
  {
    var stage' := Finished(seg, stage, k, clock);
    forall s, t | Leads(c.g, s, t) && s.x in stage' && Local(c, t) ensures t in stage' && stage'[t] <= stage'[s.x] {
      if s.x !in stage {
        assert Forward(seg, pending, tree, s, t);
      }
    }
  }

  /** The bottom of a component is left: the component is complete. */
  lemma CompleteKeeps(c: Start, st: State)
    requires Inv(c, st) && st.dfs != [] && st.dfs[|st.dfs| - 1].Post?
    requires st.pending != [] && st.pending[|st.pending| - 1] == st.dfs[|st.dfs| - 1].h
    ensures Inv(c, Completed(st))
  {
    hide Good, Mirrors, Coloured, Stacked, Aged, Classed, Directed, Settled, Waiting, Covered, Counted, Finals, Connected;
    var n, k := |st.dfs| - 1, |st.pending| - 1;
    var b := st.pending[k];
    PopPost(c, st.dfs, st.from, st.num, st.done);
    StackedWithoutTop(st.seg, st.pending, Posts(st.dfs[..n]));
    assert b in st.rep by {
      Basics(c, st);
    }
    var to := Completed(st);
    assert Mirrors(to.loc, to.rep) && Coloured(c, to.loc, to.rep, to.rc, to.seg, to.stage, to.num) by {
      Basics(c, st);
      MirrorsCompleted(st.loc, st.rep, b);
      ColouredCompleted(c, st.loc, st.rep, st.rc, st.seg, st.stage, st.num, k, b, st.clock);
    }
    assert Aged(to.seg, to.pending, to.num, to.clock) && Directed(c, to.seg, to.pending, to.num, to.tree, to.done) by {
      AgedWithoutTop(st.seg, st.pending, st.num, st.clock);
      DirectedCompleted(c, st.seg, st.pending, st.num, st.tree, st.done);
    }
    assert Classed(to.rep, to.seg, to.stage) by {
      Basics(c, st);
      ClassedCompleted(c, st.rep, st.seg, st.stage, k, st.clock);
    }
    CompleteCounts(c, st);
  }

  lemma CompleteCounts(c: Start, st: State)
    requires Inv(c, st) && st.dfs != [] && st.dfs[|st.dfs| - 1].Post?
    requires st.pending != [] && st.pending[|st.pending| - 1] == st.dfs[|st.dfs| - 1].h
    ensures var k := |st.pending| - 1;
      var stage' := Finished(st.seg, st.stage, k, st.clock);
      && Settled(c, stage', st.clock + 1)
      && Counted(c, st.rep, st.rc, Below(st.seg, k), st.pending[..k], st.done)
      && Finals(c, st.rep, st.rc, stage')
  {
    hide Good, Mirrors, Coloured, Stacked, Aged, Classed, Directed, Settled, Waiting, Covered, Counted, Finals, Connected;
    var n, k := |st.dfs| - 1, |st.pending| - 1;
    PopPost(c, st.dfs, st.from, st.num, st.done);
    assert forall s | IsSite(c.g, s) && s.x in st.seg && st.seg[s.x] == k :: s in st.done by {
      Basics(c, st);
      TopSearched(c, st.dfs[..n], st.from[..n], st.seg, st.pending, st.num, st.done);
    }
    assert Settled(c, Finished(st.seg, st.stage, k, st.clock), st.clock + 1) by {
      Basics(c, st);
      SettledCompleted(c, st.seg, st.stage, st.pending, st.num, st.tree, st.done, st.clock, k);
    }
    assert Counted(c, st.rep, st.rc, Below(st.seg, k), st.pending[..k], st.done) by {
      CountedCompleted(c, st.rep, st.rc, st.seg, st.pending, st.done);
    }
    assert Finals(c, st.rep, st.rc, Finished(st.seg, st.stage, k, st.clock)) by {
      Basics(c, st);
      EntersOnce(c, st.seg, st.stage, st.pending, st.num, st.tree, st.done, st.clock, k);
      CountOf(c, st.rep, st.rc, st.seg, st.pending, st.done, k);
      FinalsCompleted(c, st.rep, st.rc, st.seg, st.stage, st.pending, st.done, k, st.clock);
    }
  }

  lemma TopSearched(
    c: Start, dfs: seq<Mark>, from: seq<Site>, seg: map<int, int>, pending: seq<int>, num: map<int, int>, done: set<Site>)
    requires pending != [] && Stacked(seg, pending, Posts(dfs) + [pending[|pending| - 1]])
    requires Waiting(c, dfs, from, done) && Covered(c, dfs, from, num, done) && seg.Keys <= num.Keys
    ensures forall s | IsSite(c.g, s) && s.x in seg && seg[s.x] == |pending| - 1 :: s in done
  {
    forall s | IsSite(c.g, s) && s.x in seg && seg[s.x] == |pending| - 1 ensures s in done {
      AllSearched(c, dfs, from, seg, pending, num, done, Posts(dfs), s);
    }
  }

  // ---------------------------------------------------------------- discovering a header

  /** The locations that `trace_fields` follows. */
  predicate Searched(l: Loc) {
    l.SccPtr? || l.Pending? || l.InRegion?
  }

  /** `trace_fields` puts a field's target on the stack. */
  predicate Pushed(g: map<int, seq<Ref>>, loc: map<int, Loc>, t: int, s: Site) {
    s.x == t && IsSite(g, s) && g[s.x][s.i].To? && g[s.x][s.i].target in loc && Searched(loc[g[s.x][s.i].target])
  }

  /** The entries for the fields that are put on the stack, in field order. */
  function Kept(loc: map<int, Loc>, fields: seq<Ref>): seq<Mark> {
    if fields == [] then []
    else
      var n := |fields| - 1;
      if fields[n].To? && fields[n].target in loc && Searched(loc[fields[n].target])
      then Kept(loc, fields[..n]) + [Pre(fields[n].target)]
      else Kept(loc, fields[..n])
  }

  ghost predicate Traced(g: map<int, seq<Ref>>, loc: map<int, Loc>, t: int, kids: seq<Mark>, links: seq<Site>) {
    && |kids| == |links| && t in g && kids == Kept(loc, g[t])
    && (forall i | 0 <= i < |kids| :: kids[i].Pre? && Leads(g, links[i], kids[i].h) && links[i].x == t)
    && (forall i, j | 0 <= i < j < |links| :: links[i] != links[j])
    && (forall s :: s in links <==> Pushed(g, loc, t, s))
  }

  ghost function Dropped(g: map<int, seq<Ref>>, loc: map<int, Loc>, t: int): set<Site> {
    set s | s in AllSites(g) && s.x == t && !Pushed(g, loc, t, s)
  }

  ghost function Discovered(c: Start, st: State, t: int, kids: seq<Mark>, links: seq<Site>): State
    requires |st.dfs| == |st.from| && st.dfs != []
  {
    var n := |st.dfs| - 1;
    var loc' := st.loc[t := Pending];
    st.(loc := loc', dfs := st.dfs[..n] + [Post(t)] + kids, from := st.from[..n] + [st.from[n]] + links,
        pending := st.pending + [t], seg := st.seg[t := |st.pending|], num := st.num[t := st.clock],
        tree := st.tree[t := st.from[n]], done := st.done + {st.from[n]} + Dropped(c.g, loc', t), clock := st.clock + 1)
  }

  /** A header that the search has not met. */
  ghost predicate Fresh(c: Start, st: State, t: int) {
    t in st.loc && t !in st.num && Local(c, t)
  }

  lemma FreshRoot(c: Start, st: State, t: int)
    requires Inv(c, st) && Fresh(c, st, t)
    ensures st.loc[t] == c.loc[t] && t in st.rep && st.rep[t] == t && t in st.rc && t in c.rc && st.rc[t] == c.rc[t]
  {
    hide Good, Stacked, Aged, Classed, Directed, Settled, Waiting, Covered, Counted, Finals, Connected;
    assert UntouchedAt(c, st.loc, st.rep, st.rc, st.num, t);
  }

  lemma MirrorsPending(loc: map<int, Loc>, rep: map<int, int>, t: int)
    requires Mirrors(loc, rep) && t in loc && !loc[t].SccPtr?
    ensures Mirrors(loc[t := Pending], rep)
  {
    forall x | x in loc ensures Upward(loc[t := Pending]) && Rep(loc[t := Pending], x) == Rep(loc, x) {
      RelabelledRep(loc, t, Pending, x);
    }
    assert forall x | x in rep :: rep[x] == Reps(loc[t := Pending])[x];
  }

  lemma ColouredDiscovered(
    c: Start, loc: map<int, Loc>, rep: map<int, int>, rc: map<int, int>, seg: map<int, int>, stage: map<int, int>,
    num: map<int, int>, t: int, j: int, clock: int)
    requires Coloured(c, loc, rep, rc, seg, stage, num) && Mirrors(loc, rep)
    requires t in loc && t !in num && Local(c, t) && rep[t] == t && loc[t] == c.loc[t]
    ensures Coloured(c, loc[t := Pending], rep, rc, seg[t := j], stage, num[t := clock])
  {
    hide Mirrors;
    var loc', seg', num' := loc[t := Pending], seg[t := j], num[t := clock];
    KeysDiscovered(seg, stage, num, t, j, clock);
    forall x | x in loc' && x !in num' ensures UntouchedAt(c, loc', rep, rc, num', x) {
      UntouchedStill(c, loc, rep, rc, num, t, clock, x);
    }
    forall x | x in seg' ensures RootedAt(loc', rep, seg', x, Pending) {
      assert x != t ==> RootedAt(loc, rep, seg, x, Pending);
    }
    forall x | x in stage ensures RootedAt(loc', rep, stage, x, Immutable) {
      assert RootedAt(loc, rep, stage, x, Immutable);
    }
  }

  lemma KeysDiscovered(seg: map<int, int>, stage: map<int, int>, num: map<int, int>, t: int, j: int, clock: int)
    requires seg.Keys !! stage.Keys && num.Keys == seg.Keys + stage.Keys && t !in num
    ensures seg[t := j].Keys !! stage.Keys && num[t := clock].Keys == seg[t := j].Keys + stage.Keys
  {
  }

  lemma UntouchedStill(
    c: Start, loc: map<int, Loc>, rep: map<int, int>, rc: map<int, int>, num: map<int, int>, t: int, clock: int, x: int)
    requires Mirrors(loc, rep) && UntouchedAt(c, loc, rep, rc, num, x)
    requires t in loc && loc[t].InRegion? && x != t
    ensures UntouchedAt(c, loc[t := Pending], rep, rc, num[t := clock], x)
  {
    assert rep[x] == Rep(loc, x);
  }

  lemma StackedDiscovered(seg: map<int, int>, pending: seq<int>, path: seq<int>, t: int)
    requires Stacked(seg, pending, path) && t !in seg
    ensures Stacked(seg[t := |pending|], pending + [t], path + [t])
  {
    var seg', path' := seg[t := |pending|], path + [t];
    forall a, b | 0 <= a < b < |path'|
      ensures path'[a] != path'[b] && seg'[path'[a]] <= seg'[path'[b]]
      ensures path'[b] in pending + [t] ==> seg'[path'[a]] < seg'[path'[b]]
    {
      assert path[a] in seg;
    }
    forall j | 0 <= j < |pending + [t]| ensures (pending + [t])[j] in path' {
      assert path'[|path|] == t;
    }
  }

  lemma AgedDiscovered(seg: map<int, int>, pending: seq<int>, num: map<int, int>, clock: int, t: int)
    requires Aged(seg, pending, num, clock) && t !in seg && t !in num
    ensures Aged(seg[t := |pending|], pending + [t], num[t := clock], clock + 1)
  {
    var seg', pending', num' := seg[t := |pending|], pending + [t], num[t := clock];
    forall x | x in seg' ensures AgedAt(seg', pending', num', x) {
      assert x != t ==> AgedAt(seg, pending, num, x);
    }
    forall i, j | 0 <= i < j < |pending'| ensures num'[pending'[i]] < num'[pending'[j]] {
      assert pending[i] in num && (j < |pending| ==> pending[j] in num);
      assert pending'[i] == pending[i] && (if j < |pending| then pending'[j] == pending[j] else pending'[j] == t);
    }
  }

  lemma ClassedDiscovered(rep: map<int, int>, seg: map<int, int>, stage: map<int, int>, t: int, j: int)
    requires Classed(rep, seg, stage) && t in rep && rep[t] == t
    requires forall x | x in seg :: rep[x] != t && seg[x] < j
    ensures Classed(rep, seg[t := j], stage)
  {
  }

  lemma PostsPush(dfs: seq<Mark>, t: int, kids: seq<Mark>)
    requires forall i | 0 <= i < |kids| :: kids[i].Pre?
    ensures Posts(dfs + [Post(t)] + kids) == Posts(dfs) + [t]
    decreases |kids|
  {
    var all := dfs + [Post(t)] + kids;
    if kids == [] {
      assert all[..|dfs|] == dfs;
    } else {
      var m := |kids| - 1;
      PostsPush(dfs, t, kids[..m]);
      assert all[..|all| - 1] == dfs + [Post(t)] + kids[..m];
    }
  }

  lemma WaitingDiscovered(
    c: Start, dfs: seq<Mark>, from: seq<Site>, num: map<int, int>, done: set<Site>, loc': map<int, Loc>, t: int, s: Site,
    kids: seq<Mark>, links: seq<Site>)
    requires Waiting(c, dfs, from, done) && dfs != [] && dfs[|dfs| - 1].Pre? && from[|dfs| - 1] == s
    requires Traced(c.g, loc', t, kids, links) && t !in num && s.x != t
    requires forall s | s in done :: s.x in num
    requires forall k | 0 <= k < |dfs| && dfs[k].Pre? :: from[k].x in num
    ensures var n := |dfs| - 1;
      Waiting(c, dfs[..n] + [Post(t)] + kids, from[..n] + [s] + links, done + {s} + Dropped(c.g, loc', t))
  {
    var n := |dfs| - 1;
    var dfs', from', done' := dfs[..n] + [Post(t)] + kids, from[..n] + [s] + links, done + {s} + Dropped(c.g, loc', t);
    forall k | 0 <= k < |dfs'| ensures Waits(c, dfs', from', done', k) {
      if k < n {
        assert Waits(c, dfs, from, done, k);
        assert dfs'[..k] == dfs[..k] && dfs'[k] == dfs[k] && from'[k] == from[k];
      } else if k > n {
        var i := k - n - 1;
        assert dfs'[k] == kids[i] && from'[k] == links[i];
        assert links[i] in links;
        assert dfs'[..k] == dfs[..n] + [Post(t)] + kids[..i];
        PostsPush(dfs[..n], t, kids[..i]);
      }
    }
    forall k, l | 0 <= k < l < |dfs'| && dfs'[k].Pre? && dfs'[l].Pre? ensures from'[k] != from'[l] {
      if l < n {
        assert dfs[k].Pre? && dfs[l].Pre?;
      } else if k < n < l {
        assert dfs[k].Pre? && from'[k].x in num;
      }
    }
  }

  lemma CoveredDiscovered(
    c: Start, dfs: seq<Mark>, from: seq<Site>, num: map<int, int>, done: set<Site>, loc': map<int, Loc>, t: int, s: Site,
    kids: seq<Mark>, links: seq<Site>, clock: int)
    requires Covered(c, dfs, from, num, done) && dfs != [] && |from| == |dfs| && from[|dfs| - 1] == s
    requires Traced(c.g, loc', t, kids, links)
    ensures var n := |dfs| - 1;
      Covered(c, dfs[..n] + [Post(t)] + kids, from[..n] + [s] + links, num[t := clock], done + {s} + Dropped(c.g, loc', t))
  {
    var n := |dfs| - 1;
    var dfs', from', done' := dfs[..n] + [Post(t)] + kids, from[..n] + [s] + links, done + {s} + Dropped(c.g, loc', t);
    forall s' | IsSite(c.g, s') && s'.x in num[t := clock] ensures s' in done' || Queued(dfs', from', s') {
      if s' !in done' {
        if s'.x == t {
          assert s' == Edge(s'.x, s'.i);
          assert s' in AllSites(c.g) && s' in links;
          var i :| 0 <= i < |links| && links[i] == s';
          assert dfs'[n + 1 + i].Pre? && from'[n + 1 + i] == s';
        } else {
          var k :| 0 <= k < |dfs| && k < |from| && dfs[k].Pre? && from[k] == s';
          assert k < n && dfs'[k].Pre? && from'[k] == s';
        }
      }
    }
  }

  /** Open headers are linked or pending. */
  lemma OpenLooks(
    c: Start, loc: map<int, Loc>, rep: map<int, int>, rc: map<int, int>, seg: map<int, int>, stage: map<int, int>,
    num: map<int, int>, u: int)
    requires Mirrors(loc, rep) && Coloured(c, loc, rep, rc, seg, stage, num) && u in seg
    ensures loc[u].SccPtr? || loc[u].Pending?
  {
    assert RootedAt(loc, rep, seg, u, Pending);
    assert rep[u] == Rep(loc, u);
  }

  /** Frame-local headers that have not been met are in their regions. */
  lemma UnmetLooks(
    c: Start, loc: map<int, Loc>, rep: map<int, int>, rc: map<int, int>, seg: map<int, int>, stage: map<int, int>,
    num: map<int, int>, u: int)
    requires Coloured(c, loc, rep, rc, seg, stage, num) && u in loc && u !in num && Local(c, u)
    ensures loc[u].InRegion?
  {
    assert UntouchedAt(c, loc, rep, rc, num, u);
  }

  /** What `trace_fields` leaves out leads to nothing that is open or still to be met. */
  lemma DroppedLeads(
    c: Start, loc: map<int, Loc>, rep: map<int, int>, rc: map<int, int>, seg: map<int, int>, stage: map<int, int>,
    num: map<int, int>, t: int, s: Site, u: int)
    requires Mirrors(loc, rep) && Coloured(c, loc, rep, rc, seg, stage, num) && Good(c)
    requires t in loc && s in Dropped(c.g, loc[t := Pending], t) && Leads(c.g, s, u)
    ensures u != t && u !in seg && (Local(c, u) ==> u in num)
  {
    assert u in loc && !Pushed(c.g, loc[t := Pending], t, s);
    hide Good, Mirrors, Coloured;
    if u in seg {
      OpenLooks(c, loc, rep, rc, seg, stage, num, u);
    } else if Local(c, u) && u !in num {
      UnmetLooks(c, loc, rep, rc, seg, stage, num, u);
    }
  }

  lemma DirectedDiscovered(
    c: Start, seg: map<int, int>, pending: seq<int>, num: map<int, int>, tree: map<int, Site>, done: set<Site>,
    dropped: set<Site>, s: Site, t: int, clock: int)
    requires Directed(c, seg, pending, num, tree, done) && Leads(c.g, s, t) && s.x in seg && s.x in num
    requires pending != [] && seg[s.x] == |pending| - 1 && t !in num && Local(c, t)
    requires seg.Keys <= num.Keys && forall j | 0 <= j < |pending| :: pending[j] in seg
    requires forall s | s in dropped :: IsSite(c.g, s) && s.x == t
    requires forall s, u | s in dropped && Leads(c.g, s, u) :: u != t && u !in seg && (Local(c, u) ==> u in num)
    ensures Directed(c, seg[t := |pending|], pending + [t], num[t := clock], tree[t := s], done + {s} + dropped)
  {
    var seg', pending', num', tree', done' :=
      seg[t := |pending|], pending + [t], num[t := clock], tree[t := s], done + {s} + dropped;
    forall s', u | s' in done' && Leads(c.g, s', u) ensures Forward(seg', pending', tree', s', u) && (Local(c, u) ==> u in num') {
      if s' in done {
        assert Forward(seg, pending, tree, s', u);
      }
    }
    forall j | 0 < j < |pending'| ensures TreeAt(c, seg', pending', tree', done', j) {
      if j < |pending| {
        assert TreeAt(c, seg, pending, tree, done, j);
        assert pending'[j] == pending[j];
      }
    }
  }

  lemma CountedDiscovered(
    c: Start, rep: map<int, int>, rc: map<int, int>, seg: map<int, int>, pending: seq<int>,
    done: set<Site>, dropped: set<Site>, s: Site, t: int)
    requires Counted(c, rep, rc, seg, pending, done) && pending != []
    requires Leads(c.g, s, t) && s !in done && t !in seg
    requires forall s | s in done :: !Leads(c.g, s, t)
    requires t in rep && rep[t] == t && t in rc && t in c.rc && rc[t] == c.rc[t]
    requires forall x | x in seg :: seg[x] < |pending|
    requires forall s, u | s in dropped && Leads(c.g, s, u) :: u != t && u !in seg
    ensures Counted(c, rep, rc, seg[t := |pending|], pending + [t], done + {s} + dropped)
  {
    var seg', pending', done' := seg[t := |pending|], pending + [t], done + {s} + dropped;
    forall j | 0 <= j < |pending'| ensures CountAt(c, rep, rc, seg', pending', done', j) {
      if j < |pending| {
        assert CountAt(c, rep, rc, seg, pending, done, j);
        assert Segment(seg', j) == Segment(seg, j);
        IntoAlike(c.g, done, done', Segment(seg, j), seg, s, t, dropped);
      } else {
        forall x ensures x in Segment(seg', j) <==> x == t {
        }
        assert Segment(seg', j) == {t};
        SumOne(c, t);
        IntoNew(c.g, done, s, t, dropped);
      }
    }
  }

  lemma IntoAlike(
    g: map<int, seq<Ref>>, done: set<Site>, done': set<Site>, xs: set<int>, seg: map<int, int>, s: Site, t: int,
    dropped: set<Site>)
    requires done' == done + {s} + dropped && xs <= seg.Keys && t !in seg && Leads(g, s, t)
    requires forall s, u | s in dropped && Leads(g, s, u) :: u !in seg
    ensures Into(g, done', xs) == Into(g, done, xs)
  {
    forall s' ensures s' in Into(g, done', xs) <==> s' in Into(g, done, xs) {
      if s' in Into(g, done', xs) {
        assert Leads(g, s', g[s'.x][s'.i].target);
      }
    }
  }

  lemma IntoNew(g: map<int, seq<Ref>>, done: set<Site>, s: Site, t: int, dropped: set<Site>)
    requires Leads(g, s, t) && (forall s | s in done :: !Leads(g, s, t))
    requires forall s, u | s in dropped && Leads(g, s, u) :: u != t
    ensures Into(g, done + {s} + dropped, {t}) == {s}
  {
    forall s' ensures s' in Into(g, done + {s} + dropped, {t}) <==> s' == s {
      if s' in Into(g, done + {s} + dropped, {t}) {
        assert Leads(g, s', t);
      }
    }
  }

  lemma SumOne(c: Start, t: int)
    requires t in c.rc
    ensures Sum(c, {t}) == c.rc[t]
  {
    assert {t} * c.rc.Keys == {t};
    TotalOne(c.rc, {t}, t);
    assert {t} - {t} == {};
  }

  lemma ConnectedDiscovered(
    c: Start, loc: map<int, Loc>, rep: map<int, int>, rc: map<int, int>, seg: map<int, int>, stage: map<int, int>,
    num: map<int, int>, s: Site, t: int, clock: int)
    requires Connected(c, rep, num) && Coloured(c, loc, rep, rc, seg, stage, num)
    requires Leads(c.g, s, t) && s.x in num && t !in num && Local(c, t) && t in rep && rep[t] == t
    ensures Connected(c, rep, num[t := clock])
  {
    ReachSelf(c, t);
    ReachEdge(c, s, s.x, t);
    ReachTrans(c, c.root, s.x, t);
    forall x | x in num ensures rep[x] != t {
      assert x in seg ==> RootedAt(loc, rep, seg, x, Pending);
      assert x in stage ==> RootedAt(loc, rep, stage, x, Immutable);
    }
  }

  /** A header met for the first time opens a component of its own. */
  lemma DiscoverKeeps(c: Start, st: State, t: int, kids: seq<Mark>, links: seq<Site>)
    requires Inv(c, st) && st.dfs != [] && st.dfs[|st.dfs| - 1] == Pre(t) && Fresh(c, st, t)
    requires Traced(c.g, st.loc[t := Pending], t, kids, links)
    ensures Inv(c, Discovered(c, st, t, kids, links))
  {
    hide Good, Mirrors, Coloured, Stacked, Aged, Classed, Directed, Settled, Waiting, Covered, Counted, Finals, Connected;
    FreshRoot(c, st, t);
    TopSite(c, st);
    hide Traced, Dropped;
    var n := |st.dfs| - 1;
    var s := st.from[n];
    var to := Discovered(c, st, t, kids, links);
    var dropped := Dropped(c.g, st.loc[t := Pending], t);
    assert Mirrors(to.loc, to.rep) && Coloured(c, to.loc, to.rep, to.rc, to.seg, to.stage, to.num) by {
      Basics(c, st);
      MirrorsPending(st.loc, st.rep, t);
      ColouredDiscovered(c, st.loc, st.rep, st.rc, st.seg, st.stage, st.num, t, |st.pending|, st.clock);
    }
    assert Stacked(to.seg, to.pending, Posts(to.dfs)) && Waiting(c, to.dfs, to.from, to.done)
           && Covered(c, to.dfs, to.from, to.num, to.done) by {
      DiscoverQueues(c, st, t, s, kids, links);
    }
    assert Aged(to.seg, to.pending, to.num, to.clock) && Classed(to.rep, to.seg, to.stage) by {
      Basics(c, st);
      AgedDiscovered(st.seg, st.pending, st.num, st.clock, t);
      RootsAreMet(c, st.loc, st.rep, st.rc, st.seg, st.stage, st.num, t);
      ClassedDiscovered(st.rep, st.seg, st.stage, t, |st.pending|);
    }
    DiscoverEdges(c, st, t, s);
    assert Settled(c, to.stage, to.clock) by {
      SettledLater(c, st.stage, st.clock);
    }
    ConnectedDiscovered(c, st.loc, st.rep, st.rc, st.seg, st.stage, st.num, s, t, st.clock);
  }

  lemma SettledLater(c: Start, stage: map<int, int>, clock: int)
    requires Settled(c, stage, clock)
    ensures Settled(c, stage, clock + 1)
  {
  }

  lemma RootsAreMet(
    c: Start, loc: map<int, Loc>, rep: map<int, int>, rc: map<int, int>, seg: map<int, int>, stage: map<int, int>,
    num: map<int, int>, t: int)
    requires Coloured(c, loc, rep, rc, seg, stage, num) && t !in num
    ensures forall x | x in seg :: rep[x] != t
  {
    forall x | x in seg ensures rep[x] != t {
      assert RootedAt(loc, rep, seg, x, Pending);
    }
  }

  lemma FromMet(c: Start, st: State)
    requires Stacked(st.seg, st.pending, Posts(st.dfs)) && Waiting(c, st.dfs, st.from, st.done)
    ensures |st.from| == |st.dfs| && forall k | 0 <= k < |st.dfs| && st.dfs[k].Pre? :: st.from[k].x in st.seg
  {
    forall k | 0 <= k < |st.dfs| && st.dfs[k].Pre? ensures st.from[k].x in st.seg {
      assert Waits(c, st.dfs, st.from, st.done, k);
      PostsPrefix(st.dfs, k);
      assert st.from[k].x in Posts(st.dfs);
    }
  }

  lemma DoneMet(
    c: Start, seg: map<int, int>, pending: seq<int>, num: map<int, int>, tree: map<int, Site>, done: set<Site>, t: int)
    requires Directed(c, seg, pending, num, tree, done) && t !in num && Local(c, t)
    ensures forall s | s in done :: s.x in num && !Leads(c.g, s, t)
  {
  }

  lemma KidsArePre(g: map<int, seq<Ref>>, loc: map<int, Loc>, t: int, kids: seq<Mark>, links: seq<Site>)
    requires Traced(g, loc, t, kids, links)
    ensures forall i | 0 <= i < |kids| :: kids[i].Pre?
  {
  }

  lemma DroppedSites(g: map<int, seq<Ref>>, loc: map<int, Loc>, t: int)
    ensures forall s | s in Dropped(g, loc, t) :: IsSite(g, s) && s.x == t
  {
  }

  lemma DiscoverQueues(c: Start, st: State, t: int, s: Site, kids: seq<Mark>, links: seq<Site>)
    requires Inv(c, st) && OnTop(c, st, s, t) && Fresh(c, st, t)
    requires Traced(c.g, st.loc[t := Pending], t, kids, links)
    ensures var to := Discovered(c, st, t, kids, links);
      && Stacked(to.seg, to.pending, Posts(to.dfs)) && Waiting(c, to.dfs, to.from, to.done)
      && Covered(c, to.dfs, to.from, to.num, to.done)
  {
    hide Good, Mirrors, Coloured, Stacked, Aged, Classed, Directed, Settled, Waiting, Covered, Counted, Finals, Connected;
    hide Traced;
    var n := |st.dfs| - 1;
    KidsArePre(c.g, st.loc[t := Pending], t, kids, links);
    assert Stacked(st.seg[t := |st.pending|], st.pending + [t], Posts(st.dfs[..n] + [Post(t)] + kids)) by {
      Basics(c, st);
      PopPre(c, st.dfs, st.from, st.num, st.done);
      PostsPush(st.dfs[..n], t, kids);
      StackedDiscovered(st.seg, st.pending, Posts(st.dfs), t);
    }
    FromMet(c, st);
    DoneMet(c, st.seg, st.pending, st.num, st.tree, st.done, t);
    assert st.seg.Keys <= st.num.Keys by {
      Basics(c, st);
    }
    WaitingDiscovered(c, st.dfs, st.from, st.num, st.done, st.loc[t := Pending], t, s, kids, links);
    CoveredDiscovered(c, st.dfs, st.from, st.num, st.done, st.loc[t := Pending], t, s, kids, links, st.clock);
  }

  lemma DiscoverEdges(c: Start, st: State, t: int, s: Site)
    requires Inv(c, st) && OnTop(c, st, s, t) && Fresh(c, st, t)
    ensures var dropped := Dropped(c.g, st.loc[t := Pending], t);
      var seg', pending', done' := st.seg[t := |st.pending|], st.pending + [t], st.done + {s} + dropped;
      && Directed(c, seg', pending', st.num[t := st.clock], st.tree[t := s], done')
      && Counted(c, st.rep, st.rc, seg', pending', done')
  {
    hide Good, Mirrors, Coloured, Stacked, Aged, Classed, Directed, Settled, Waiting, Covered, Counted, Finals, Connected;
    hide Dropped;
    var dropped := Dropped(c.g, st.loc[t := Pending], t);
    DroppedSites(c.g, st.loc[t := Pending], t);
    Basics(c, st);
    forall s, u | s in dropped && Leads(c.g, s, u) ensures u != t && u !in st.seg && (Local(c, u) ==> u in st.num) {
      DroppedLeads(c, st.loc, st.rep, st.rc, st.seg, st.stage, st.num, t, s, u);
    }
    DirectedDiscovered(c, st.seg, st.pending, st.num, st.tree, st.done, dropped, s, t, st.clock);
    assert Counted(c, st.rep, st.rc, st.seg[t := |st.pending|], st.pending + [t], st.done + {s} + dropped) by {
      FreshRoot(c, st, t);
      DoneMet(c, st.seg, st.pending, st.num, st.tree, st.done, t);
      CountedDiscovered(c, st.rep, st.rc, st.seg, st.pending, st.done, dropped, s, t);
    }
  }
}
