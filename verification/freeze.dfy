/**
 Freezing a frame-local object graph (vbci/freeze.cc:104-168): an iterative path-based search for
 strongly connected components, fused with the union-find and the transfer of reference counts.
 This file holds the state of the search and its invariants.
 */
module Freezing {
  import opened UnionFind

  datatype Ref = Null | To(target: int)

  /** A field of a header. */
  datatype Site = Edge(x: int, i: int)

  /** An entry of the `dfs` stack; `Post` is the pointer with its lowest bit set. */
  datatype Mark = Pre(h: int) | Post(h: int)

  /** What freezing starts from: fields, locations and counts of all headers, and the frame-local regions. */
  datatype Start = Start(g: map<int, seq<Ref>>, loc: map<int, Loc>, rc: map<int, int>, frames: set<int>, root: int)

  predicate IsSite(g: map<int, seq<Ref>>, s: Site) {
    s.x in g && 0 <= s.i < |g[s.x]|
  }

  predicate Leads(g: map<int, seq<Ref>>, s: Site, t: int) {
    IsSite(g, s) && g[s.x][s.i] == To(t)
  }

  predicate Local(c: Start, x: int) {
    x in c.loc && c.loc[x].InRegion? && c.loc[x].region in c.frames
  }

  ghost predicate Good(c: Start) {
    && Upward(c.loc) && c.rc.Keys == c.loc.Keys && c.g.Keys == c.loc.Keys
    && (forall s, t | Leads(c.g, s, t) :: t in c.loc)
    && (forall x | x in c.loc :: !c.loc[x].Pending?)
    && (forall x {:trigger Rep(c.loc, x)} | x in c.loc && c.loc[x].SccPtr? :: c.loc[Rep(c.loc, x)].Immutable?)
    && Local(c, c.root)
  }

  // ---------------------------------------------------------------- reachability

  predicate Adjacent(c: Start, s: Site, a: int, b: int) {
    s.x == a && Leads(c.g, s, b) && Local(c, a) && Local(c, b)
  }

  ghost predicate Next(c: Start, a: int, b: int) {
    exists s :: Adjacent(c, s, a, b)
  }

  ghost predicate Walk(c: Start, w: seq<int>) {
    && w != [] && (forall i | 0 <= i < |w| :: Local(c, w[i]))
    && forall i | 0 <= i < |w| - 1 :: Next(c, w[i], w[i + 1])
  }

  /** `b` can be reached from `a` through frame-local headers. */
  ghost predicate Reach(c: Start, a: int, b: int) {
    exists w :: Walk(c, w) && w[0] == a && w[|w| - 1] == b
  }

  lemma ReachSelf(c: Start, a: int)
    requires Local(c, a)
    ensures Reach(c, a, a)
  {
    assert Walk(c, [a]);
  }

  lemma ReachEdge(c: Start, s: Site, a: int, b: int)
    requires Adjacent(c, s, a, b)
    ensures Reach(c, a, b)
  {
    assert Next(c, a, b);
    assert Walk(c, [a, b]);
  }

  lemma ReachTrans(c: Start, a: int, b: int, d: int)
    requires Reach(c, a, b) && Reach(c, b, d)
    ensures Reach(c, a, d)
  {
    var u :| Walk(c, u) && u[0] == a && u[|u| - 1] == b;
    var w :| Walk(c, w) && w[0] == b && w[|w| - 1] == d;
    var uw := u + w[1..];
    forall i | 0 <= i < |uw| - 1 ensures Next(c, uw[i], uw[i + 1]) {
      if i < |u| - 1 {
        assert uw[i] == u[i] && uw[i + 1] == u[i + 1];
      } else {
        assert uw[i] == w[i - |u| + 1] && uw[i + 1] == w[i - |u| + 2];
      }
    }
    assert Walk(c, uw);
  }

  ghost predicate Mutual(c: Start, a: int, b: int) {
    Reach(c, a, b) && Reach(c, b, a)
  }

  // ---------------------------------------------------------------- the state of the search

  /**
   `dfs`, `pending`, `loc` and `rc` are the program's, and `rep` gives the representatives that `loc` encodes.
   The rest records the search: `from` gives the
   field behind each `Pre` entry; `seg` the component under construction that an open header belongs to,
   counted from the bottom of `pending`; `stage` the component that a finished header went with; `num`
   the order of discovery; `tree` the field through which a header was discovered; `done` the fields
   that have been dealt with.
   */
  datatype State = State(
    loc: map<int, Loc>, rep: map<int, int>, rc: map<int, int>, dfs: seq<Mark>, pending: seq<int>,
    from: seq<Site>, seg: map<int, int>, stage: map<int, int>, num: map<int, int>, tree: map<int, Site>,
    done: set<Site>, clock: int)

  /** The headers whose fields are being searched, oldest first. */
  ghost function Posts(dfs: seq<Mark>): seq<int> {
    if dfs == [] then []
    else
      var n := |dfs| - 1;
      if dfs[n].Post? then Posts(dfs[..n]) + [dfs[n].h] else Posts(dfs[..n])
  }

  ghost predicate Mirrors(loc: map<int, Loc>, rep: map<int, int>) {
    Upward(loc) && rep == Reps(loc)
  }

  /** Untouched headers are as they were; open classes have a pending root, finished ones an immutable root. */
  ghost predicate Coloured(
    c: Start, loc: map<int, Loc>, rep: map<int, int>, rc: map<int, int>, seg: map<int, int>, stage: map<int, int>,
    num: map<int, int>)
  {
    && loc.Keys == c.loc.Keys && rep.Keys == c.loc.Keys && rc.Keys == c.loc.Keys
    && c.rc.Keys == c.loc.Keys && num.Keys <= c.loc.Keys
    && seg.Keys !! stage.Keys && num.Keys == seg.Keys + stage.Keys
    && (forall x | x in num :: Local(c, x))
    && (forall x {:trigger UntouchedAt(c, loc, rep, rc, num, x)} | x in loc && x !in num :: UntouchedAt(c, loc, rep, rc, num, x))
    && (forall x {:trigger RootedAt(loc, rep, seg, x, Pending)} | x in seg :: RootedAt(loc, rep, seg, x, Pending))
    && (forall x {:trigger RootedAt(loc, rep, stage, x, Immutable)} | x in stage :: RootedAt(loc, rep, stage, x, Immutable))
  }

  ghost predicate UntouchedAt(
    c: Start, loc: map<int, Loc>, rep: map<int, int>, rc: map<int, int>, num: map<int, int>, x: int)
  {
    && x in loc && x in c.loc && x in rc && x in c.rc && x in rep
    && rc[x] == c.rc[x] && rep[x] !in num && (loc[x] == c.loc[x] || (loc[x].SccPtr? && c.loc[x].SccPtr?))
    && (loc[x].SccPtr? ==> rep[x] in loc && loc[rep[x]] == Immutable)
  }

  ghost predicate RootedAt(loc: map<int, Loc>, rep: map<int, int>, xs: map<int, int>, x: int, l: Loc) {
    && x in rep && rep[x] in xs && rep[x] in loc && loc[rep[x]] == l
  }

  /** The components under construction are stacked along the search path. */
  ghost predicate Stacked(seg: map<int, int>, pending: seq<int>, path: seq<int>) {
    && (forall x | x in seg :: 0 <= seg[x] < |pending|)
    && (forall j | 0 <= j < |pending| :: pending[j] in seg && seg[pending[j]] == j && pending[j] in path)
    && (forall a | 0 <= a < |path| :: path[a] in seg)
    && (forall a, b | 0 <= a < b < |path| ::
          && path[a] != path[b] && seg[path[a]] <= seg[path[b]]
          && (path[b] in pending ==> seg[path[a]] < seg[path[b]]))
  }

  ghost predicate AgedAt(seg: map<int, int>, pending: seq<int>, num: map<int, int>, x: int) {
    && x in seg && x in num && 0 <= seg[x] < |pending| && pending[seg[x]] in num
    && (x == pending[seg[x]] || num[pending[seg[x]]] < num[x])
  }

  /** The bottom of a component under construction is its oldest member. */
  ghost predicate Aged(seg: map<int, int>, pending: seq<int>, num: map<int, int>, clock: int) {
    && (forall x | x in num :: num[x] < clock)
    && (forall x {:trigger AgedAt(seg, pending, num, x)} | x in seg :: AgedAt(seg, pending, num, x))
    && (forall j | 0 <= j < |pending| :: pending[j] in num)
    && (forall i, j | 0 <= i < j < |pending| :: num[pending[i]] < num[pending[j]])
  }

  /** The union-find classes are the components under construction, and the finished ones. */
  ghost predicate Classed(rep: map<int, int>, seg: map<int, int>, stage: map<int, int>) {
    && seg.Keys <= rep.Keys && stage.Keys <= rep.Keys
    && (forall x, y | x in seg && y in seg :: rep[x] == rep[y] <==> seg[x] == seg[y])
    && (forall x, y | x in stage && y in stage :: rep[x] == rep[y] <==> stage[x] == stage[y])
  }

  /** A field dealt with stays inside its component or is the one that led to the next component. */
  ghost predicate Forward(seg: map<int, int>, pending: seq<int>, tree: map<int, Site>, s: Site, t: int) {
    s.x in seg && t in seg ==>
      || seg[s.x] == seg[t]
      || (seg[t] == seg[s.x] + 1 && 0 <= seg[t] < |pending| && pending[seg[t]] == t && t in tree && tree[t] == s)
  }

  ghost predicate TreeAt(
    c: Start, seg: map<int, int>, pending: seq<int>, tree: map<int, Site>, done: set<Site>, j: int)
  {
    && 0 < j < |pending|
    && var t := pending[j];
       t in tree && tree[t] in done && Leads(c.g, tree[t], t) && tree[t].x in seg && seg[tree[t].x] == j - 1
  }

  ghost predicate Directed(
    c: Start, seg: map<int, int>, pending: seq<int>, num: map<int, int>, tree: map<int, Site>, done: set<Site>)
  {
    && (forall s | s in done :: IsSite(c.g, s) && s.x in num)
    && (forall s, t | s in done && Leads(c.g, s, t) :: Forward(seg, pending, tree, s, t) && (Local(c, t) ==> t in num))
    && (forall j {:trigger TreeAt(c, seg, pending, tree, done, j)} | 0 < j < |pending| ::
          TreeAt(c, seg, pending, tree, done, j))
  }

  /** Finished headers lead to headers that finished with them or before. */
  ghost predicate Settled(c: Start, stage: map<int, int>, clock: int) {
    && (forall x | x in stage :: stage[x] < clock)
    && (forall s, t | Leads(c.g, s, t) && s.x in stage && Local(c, t) :: t in stage && stage[t] <= stage[s.x])
  }

  /** Every `Pre` entry stands for a field of the nearest header below it that is being searched. */
  ghost predicate Waits(c: Start, dfs: seq<Mark>, from: seq<Site>, done: set<Site>, k: int) {
    && 0 <= k < |dfs| && k < |from|
    && (dfs[k].Pre? ==>
          && from[k] !in done && Leads(c.g, from[k], dfs[k].h)
          && Posts(dfs[..k]) != [] && from[k].x == Posts(dfs[..k])[|Posts(dfs[..k])| - 1])
  }

  ghost predicate Queued(dfs: seq<Mark>, from: seq<Site>, s: Site) {
    exists k :: 0 <= k < |dfs| && k < |from| && dfs[k].Pre? && from[k] == s
  }

  ghost predicate Waiting(c: Start, dfs: seq<Mark>, from: seq<Site>, done: set<Site>) {
    && |from| == |dfs|
    && (forall k {:trigger Waits(c, dfs, from, done, k)} | 0 <= k < |dfs| :: Waits(c, dfs, from, done, k))
    && (forall k, l | 0 <= k < l < |dfs| && dfs[k].Pre? && dfs[l].Pre? :: from[k] != from[l])
  }

  ghost predicate Covered(c: Start, dfs: seq<Mark>, from: seq<Site>, num: map<int, int>, done: set<Site>) {
    forall s | IsSite(c.g, s) && s.x in num :: s in done || Queued(dfs, from, s)
  }

  // ---------------------------------------------------------------- counts

  ghost function Segment(seg: map<int, int>, j: int): set<int> {
    set x | x in seg && seg[x] == j
  }

  /** The fields in `ss` that lead into `xs`. */
  ghost function Into(g: map<int, seq<Ref>>, ss: set<Site>, xs: set<int>): set<Site> {
    set s | s in ss && IsSite(g, s) && g[s.x][s.i].To? && g[s.x][s.i].target in xs
  }

  ghost function AllSites(g: map<int, seq<Ref>>): set<Site> {
    set x, i | x in g && 0 <= i < |g[x]| :: Edge(x, i)
  }

  /** The fields of members of `xs` that lead to members of `xs`. */
  ghost function Inside(g: map<int, seq<Ref>>, xs: set<int>): set<Site> {
    set s | s in AllSites(g) && s.x in xs && g[s.x][s.i].To? && g[s.x][s.i].target in xs
  }

  function One(b: bool): int { if b then 1 else 0 }

  ghost function Sum(c: Start, xs: set<int>): int {
    Total(c.rc, xs * c.rc.Keys)
  }

  /** The representative of a component under construction holds its members' counts less the fields dealt with that enter it. */
  ghost predicate CountAt(
    c: Start, rep: map<int, int>, rc: map<int, int>, seg: map<int, int>, pending: seq<int>, done: set<Site>, j: int)
  {
    && 0 <= j < |pending| && pending[j] in rep && rep[pending[j]] in rc
    && rc[rep[pending[j]]] == Sum(c, Segment(seg, j)) - |Into(c.g, done, Segment(seg, j))| + One(j > 0)
  }

  ghost predicate Counted(
    c: Start, rep: map<int, int>, rc: map<int, int>, seg: map<int, int>, pending: seq<int>, done: set<Site>)
  {
    forall j {:trigger CountAt(c, rep, rc, seg, pending, done, j)} | 0 <= j < |pending| ::
      CountAt(c, rep, rc, seg, pending, done, j)
  }

  ghost function Class(rep: map<int, int>, stage: map<int, int>, r: int): set<int> {
    set x | x in stage && x in rep && rep[x] == r
  }

  /** A finished component's count: what its members had, less the fields inside it. */
  ghost predicate FinalAt(c: Start, rep: map<int, int>, rc: map<int, int>, stage: map<int, int>, r: int) {
    && r in rc
    && rc[r] == Sum(c, Class(rep, stage, r)) - |Inside(c.g, Class(rep, stage, r))|
  }

  ghost predicate Finals(c: Start, rep: map<int, int>, rc: map<int, int>, stage: map<int, int>) {
    && stage.Keys <= rep.Keys
    && forall r {:trigger FinalAt(c, rep, rc, stage, r)} | r in stage && rep[r] == r :: FinalAt(c, rep, rc, stage, r)
  }

  // ---------------------------------------------------------------- connectedness

  ghost predicate Connected(c: Start, rep: map<int, int>, num: map<int, int>) {
    && num.Keys <= rep.Keys
    && (forall x | x in num :: Reach(c, c.root, x))
    && (forall x, y | x in num && y in num && rep[x] == rep[y] :: Reach(c, x, y))
  }

  ghost predicate Inv(c: Start, st: State) {
    && Good(c) && Mirrors(st.loc, st.rep)
    && Coloured(c, st.loc, st.rep, st.rc, st.seg, st.stage, st.num)
    && Stacked(st.seg, st.pending, Posts(st.dfs))
    && Aged(st.seg, st.pending, st.num, st.clock)
    && Classed(st.rep, st.seg, st.stage)
    && Directed(c, st.seg, st.pending, st.num, st.tree, st.done)
    && Settled(c, st.stage, st.clock)
    && Waiting(c, st.dfs, st.from, st.done)
    && Covered(c, st.dfs, st.from, st.num, st.done)
    && Counted(c, st.rep, st.rc, st.seg, st.pending, st.done)
    && Finals(c, st.rep, st.rc, st.stage)
    && Connected(c, st.rep, st.num)
  }
}
