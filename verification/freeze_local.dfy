/**
 `freeze_local` as a whole (vbci/freeze.cc:104-168), and what it leaves behind.
 */
module FreezeLocals {
  import opened UnionFind
  import opened Freezing
  import opened FreezeSteps
  import opened FreezeCollapse
  import opened FreezeOrder

  // ---------------------------------------------------------------- the start

  lemma ColouredAtFirst(c: Start)
    requires Good(c)
    ensures Coloured(c, c.loc, Reps(c.loc), c.rc, map[], map[], map[])
  {
    forall x | x in c.loc ensures UntouchedAt(c, c.loc, Reps(c.loc), c.rc, map[], x) {
    }
  }

  /** The state after the root has been discovered. */
  ghost function Begun(c: Start, kids: seq<Mark>, links: seq<Site>): State
    requires Good(c)
  {
    var loc' := c.loc[c.root := Pending];
    State(loc', Reps(c.loc), c.rc, [Post(c.root)] + kids, [c.root], [Edge(c.root, -1)] + links,
      map[c.root := 0], map[], map[c.root := 0], map[], Dropped(c.g, loc', c.root), 1)
  }

  lemma BeginColours(c: Start)
    requires Good(c)
    ensures Mirrors(c.loc[c.root := Pending], Reps(c.loc))
    ensures Coloured(c, c.loc[c.root := Pending], Reps(c.loc), c.rc, map[c.root := 0], map[], map[c.root := 0])
    ensures Classed(Reps(c.loc), map[c.root := 0], map[])
  {
    ColouredAtFirst(c);
    MirrorsPending(c.loc, Reps(c.loc), c.root);
    ColouredDiscovered(c, c.loc, Reps(c.loc), c.rc, map[], map[], map[], c.root, 0, 0);
  }

  lemma BeginWaiting(c: Start, loc': map<int, Loc>, kids: seq<Mark>, links: seq<Site>)
    requires Traced(c.g, loc', c.root, kids, links)
    ensures Waiting(c, [Post(c.root)] + kids, [Edge(c.root, -1)] + links, Dropped(c.g, loc', c.root))
  {
    var dfs, from, done := [Post(c.root)] + kids, [Edge(c.root, -1)] + links, Dropped(c.g, loc', c.root);
    forall k | 0 <= k < |dfs| ensures Waits(c, dfs, from, done, k) {
      if k > 0 {
        assert links[k - 1] in links;
        PostsPush([], c.root, kids[..k - 1]);
        assert [] + [Post(c.root)] + kids[..k - 1] == dfs[..k];
      }
    }
  }

  lemma BeginCovered(c: Start, loc': map<int, Loc>, kids: seq<Mark>, links: seq<Site>)
    requires Traced(c.g, loc', c.root, kids, links)
    ensures Covered(c, [Post(c.root)] + kids, [Edge(c.root, -1)] + links, map[c.root := 0], Dropped(c.g, loc', c.root))
  {
    var dfs, from, done := [Post(c.root)] + kids, [Edge(c.root, -1)] + links, Dropped(c.g, loc', c.root);
    forall s | IsSite(c.g, s) && s.x == c.root ensures s in done || Queued(dfs, from, s) {
      if s !in done {
        assert s == Edge(s.x, s.i);
        assert s in AllSites(c.g) && s in links;
        var i :| 0 <= i < |links| && links[i] == s;
        assert dfs[1 + i].Pre? && from[1 + i] == s;
      }
    }
  }

  lemma BeginStack(root: int, kids: seq<Mark>)
    requires forall i | 0 <= i < |kids| :: kids[i].Pre?
    ensures Stacked(map[root := 0], [root], Posts([Post(root)] + kids)) && Aged(map[root := 0], [root], map[root := 0], 1)
  {
    hide Posts;
    BeginPosts(root, kids);
    var seg := map[root := 0];
    assert AgedAt(seg, [root], seg, root);
    assert forall x | x in seg :: x == root;
  }

  lemma BeginPosts(root: int, kids: seq<Mark>)
    requires forall i | 0 <= i < |kids| :: kids[i].Pre?
    ensures Posts([Post(root)] + kids) == [root]
  {
    PostsPush([], root, kids);
    assert [] + [Post(root)] + kids == [Post(root)] + kids;
    assert Posts([]) + [root] == [root];
  }

  lemma BeginEdges(c: Start)
    requires Good(c)
    ensures var seg, done := map[c.root := 0], Dropped(c.g, c.loc[c.root := Pending], c.root);
      && Directed(c, seg, [c.root], map[c.root := 0], map[], done)
      && Counted(c, Reps(c.loc), c.rc, seg, [c.root], done)
      && Finals(c, Reps(c.loc), c.rc, map[]) && Settled(c, map[], 1)
      && Connected(c, Reps(c.loc), map[c.root := 0])
  {
    var seg, rep := map[c.root := 0], Reps(c.loc);
    var done := Dropped(c.g, c.loc[c.root := Pending], c.root);
    ColouredAtFirst(c);
    assert Mirrors(c.loc, rep);
    assert rep[c.root] == c.root;
    hide Good, Mirrors, Coloured;
    DroppedSites(c.g, c.loc[c.root := Pending], c.root);
    forall s, u | s in done && Leads(c.g, s, u) ensures u != c.root && !Local(c, u) {
      DroppedLeads(c, c.loc, rep, c.rc, map[], map[], map[], c.root, s, u);
    }
    hide Dropped;
    ReachSelf(c, c.root);
    assert CountAt(c, rep, c.rc, seg, [c.root], done, 0) by {
      assert Segment(seg, 0) == {c.root};
      SumOne(c, c.root);
      forall s ensures s !in Into(c.g, done, {c.root}) {
        assert s in Into(c.g, done, {c.root}) ==> Leads(c.g, s, c.root);
      }
      assert Into(c.g, done, {c.root}) == {};
    }
  }

  lemma BeginKeeps(c: Start, kids: seq<Mark>, links: seq<Site>)
    requires Good(c) && Traced(c.g, c.loc[c.root := Pending], c.root, kids, links)
    ensures Inv(c, Begun(c, kids, links))
  {
    hide Good, Mirrors, Coloured, Stacked, Aged, Classed, Directed, Settled, Waiting, Covered, Counted, Finals, Connected;
    hide Traced, Dropped;
    var loc' := c.loc[c.root := Pending];
    BeginColours(c);
    KidsArePre(c.g, loc', c.root, kids, links);
    BeginStack(c.root, kids);
    BeginWaiting(c, loc', kids, links);
    BeginCovered(c, loc', kids, links);
    BeginEdges(c);
  }

  /** What `trace_fields` leaves out would be passed over. */
  lemma {:induction false} KeptThins(
    c: Start, loc: map<int, Loc>, rep: map<int, int>, rc: map<int, int>, seg: map<int, int>, stage: map<int, int>,
    num: map<int, int>, t: int, j: int, s: Sweep, n: nat)
    requires Mirrors(loc, rep) && Coloured(c, loc, rep, rc, seg, stage, num) && Good(c)
    requires t in loc && t in c.g && n <= |c.g[t]|
    requires s.seg == seg[t := j] && forall x | x in num :: x in s.met
    ensures Thins(c, s, Kids(c.g[t][..n]), Kept(loc[t := Pending], c.g[t][..n]))
  {
    hide Good, Mirrors, Coloured;
    if n > 0 {
      KeptThins(c, loc, rep, rc, seg, stage, num, t, j, s, n - 1);
      assert c.g[t][..n][..n - 1] == c.g[t][..n - 1];
      if c.g[t][n - 1].To? {
        var u, all := c.g[t][n - 1].target, Kids(c.g[t][..n]);
        assert all == Kids(c.g[t][..n - 1]) + [Pre(u)] && all[..|all| - 1] == Kids(c.g[t][..n - 1]);
        var site := Edge(t, n - 1);
        if Pushed(c.g, loc[t := Pending], t, site) {
          var kept := Kept(loc[t := Pending], c.g[t][..n]);
          assert kept[..|kept| - 1] == Kept(loc[t := Pending], c.g[t][..n - 1]);
        } else {
          assert site in AllSites(c.g) && Leads(c.g, site, u);
          DroppedLeads(c, loc, rep, rc, seg, stage, num, t, site, u);
        }
      }
    }
  }

  lemma BeginFollows(c: Start, kids: seq<Mark>)
    requires Good(c) && c.root in c.g && kids == Kept(c.loc[c.root := Pending], c.g[c.root])
    ensures var dfs, s := [Post(c.root)] + kids, AtFirst(c.root);
      Follows(c, dfs, [c.root], map[c.root := 0], map[c.root := 0], Advance(c, s).(dfs := dfs))
  {
    hide Kept, Kids, Thins;
    ColouredAtFirst(c);
    var s := AtFirst(c.root);
    assert Local(c, c.root) && Mirrors(c.loc, Reps(c.loc));
    assert Advance(c, s).seg == map[c.root := 0];
    KeptThins(c, c.loc, Reps(c.loc), c.rc, map[], map[], map[], c.root, 0, Advance(c, s), |c.g[c.root]|);
    assert c.g[c.root][..|c.g[c.root]|] == c.g[c.root];
    hide Good, Mirrors, Coloured, Advance;
    FollowDiscover(c, s.dfs, [], map[], map[], s, c.root, 0, kids);
    assert s.dfs[..|s.dfs| - 1] + [Post(c.root)] + kids == [Post(c.root)] + kids;
    assert [] + [c.root] == [c.root];
  }

  // ---------------------------------------------------------------- one turn

  /** What the representative's location says of a header. */
  lemma Sorted(c: Start, st: State, h: int)
    requires Inv(c, st) && h in st.loc
    ensures h in st.rep && st.rep[h] in st.loc && Rep(st.loc, h) == st.rep[h]
    ensures var l := st.loc[st.rep[h]];
      && (l.Pending? <==> h in st.seg)
      && (l.Immutable? ==> h !in st.seg && (Local(c, h) ==> h in st.num))
      && (l.InRegion? ==> st.rep[h] == h && h !in st.num && st.loc[h] == c.loc[h])
      && (!l.Pending? && !l.Immutable? && !l.InRegion? ==> h !in st.seg && !Local(c, h))
      && (OnHeap(c, h) ==> l.InRegion?)
  {
    hide Stacked, Aged, Classed, Directed, Settled, Waiting, Covered, Counted, Finals, Connected;
    assert st.rep[h] == Reps(st.loc)[h];
    if h in st.seg {
      assert RootedAt(st.loc, st.rep, st.seg, h, Pending);
    } else if h in st.stage {
      assert RootedAt(st.loc, st.rep, st.stage, h, Immutable);
    } else {
      assert UntouchedAt(c, st.loc, st.rep, st.rc, st.num, h);
    }
  }

  /** `trace_fields`: the targets that may need searching go on the stack, in field order. */
  method TraceFields(g: map<int, seq<Ref>>, loc: map<int, Loc>, t: int) returns (kids: seq<Mark>, ghost links: seq<Site>)
    requires t in g && forall s, u | Leads(g, s, u) :: u in loc
    ensures Traced(g, loc, t, kids, links)
  {
    kids, links := [], [];
    var fields := g[t];
    for i := 0 to |fields|
      invariant |kids| == |links| && kids == Kept(loc, fields[..i])
      invariant forall k | 0 <= k < |kids| :: kids[k].Pre? && Leads(g, links[k], kids[k].h) && links[k].x == t
      invariant forall k, l | 0 <= k < l < |links| :: links[k] != links[l]
      invariant forall s :: s in links <==> Pushed(g, loc, t, s) && s.i < i
    {
      assert fields[..i + 1][..i] == fields[..i];
      if fields[i].To? {
        ghost var s := Edge(t, i);
        assert Leads(g, s, fields[i].target);
        if Searched(loc[fields[i].target]) {
          kids, links := kids + [Pre(fields[i].target)], links + [s];
        }
      }
    }
    assert fields[..|fields|] == fields;
  }

  /** A header in a heap region. */
  predicate OnHeap(c: Start, t: int) {
    t in c.loc && c.loc[t].InRegion? && c.loc[t].region !in c.frames
  }

  /** The heap headers set aside for `freeze` are those that the fields dealt with lead to. */
  ghost predicate Gathered(c: Start, done: set<Site>, heapRoots: seq<int>) {
    forall t :: t in heapRoots <==> OnHeap(c, t) && exists s :: s in done && Leads(c.g, s, t)
  }

  /** Headers that have been met have left their regions. */
  ghost predicate Unlisted(
    c: Start, num: map<int, int>, first: map<int, set<int>>, members: map<int, set<int>>)
  {
    && members.Keys == first.Keys
    && forall r | r in first :: members[r] == first[r] - num.Keys
  }

  /** Regions list the headers that are located in them. */
  ghost predicate Listed(loc: map<int, Loc>, members: map<int, set<int>>) {
    && (forall x | x in loc && loc[x].InRegion? :: loc[x].region in members && x in members[loc[x].region])
    && (forall r, x | r in members && x in members[r] :: x in loc && loc[x] == InRegion(r))
  }

  /** The memory and the stacks are those of the ghost state, and of the search that ignores addresses. */
  ghost predicate Shows(
    c: Start, st: State, sw: Sweep, m: Memory, first: map<int, set<int>>, dfs: seq<Mark>, pending: seq<int>,
    heapRoots: seq<int>)
    reads m
  {
    && Inv(c, st) && c.root in st.num && Follows(c, dfs, pending, st.seg, st.num, sw)
    && m.Valid() && m.loc == st.loc && m.rc == st.rc && dfs == st.dfs && pending == st.pending
    && Gathered(c, st.done, heapRoots) && Unlisted(c, st.num, first, m.members)
  }

  /** A header whose component holds a header that is met later and has a higher address. */
  ghost predicate Overtaken(c: Start, b: int, y: int) {
    Before(c, b, y) && b < y && Mutual(c, b, y)
  }

  /** The representative of a component under construction is its highest member. */
  lemma HighestIsRep(c: Start, st: State, t: int)
    requires Inv(c, st) && t in st.seg && t in st.rep && 0 <= st.seg[t] < |st.pending|
    ensures st.rep[t] == st.pending[st.seg[t]] <==> HighestBottom(st.seg, st.pending, st.seg[t])
  {
    hide Good, Coloured, Stacked, Aged, Directed, Settled, Waiting, Covered, Counted, Finals, Connected;
    RootOf(c, st, t);
    Basics(c, st);
    forall x | x in st.seg && st.seg[x] == st.seg[t] ensures x <= st.rep[t] {
      assert st.rep[x] == Reps(st.loc)[x] == Rep(st.loc, x);
    }
  }

  /** A component whose bottom is not its highest member holds a younger header with a higher address. */
  lemma NotHighest(c: Start, st: State, sw: Sweep, t: int)
    requires Inv(c, st) && t in st.seg && Follows(c, st.dfs, st.pending, st.seg, st.num, sw)
    requires 0 <= st.seg[t] < |st.pending| && !HighestBottom(st.seg, st.pending, st.seg[t])
    ensures exists b, y :: Overtaken(c, b, y)
  {
    hide Good, Mirrors, Coloured, Stacked, Directed, Settled, Waiting, Covered, Counted, Finals, Follows;
    var b := st.pending[st.seg[t]];
    var y :| y in st.seg && st.seg[y] == st.seg[t] && b < y;
    Basics(c, st);
    assert AgedAt(st.seg, st.pending, st.num, y);
    assert st.rep[y] == st.rep[b];
    assert Reach(c, b, y) && Reach(c, y, b);
    MetInOrder(c, st.dfs, st.pending, st.seg, st.num, sw, b, y);
    assert Overtaken(c, b, y);
  }

  ghost function Unmet(c: Start, num: map<int, int>): set<int> {
    set x | x in c.loc && Local(c, x) && x !in num
  }

  /** A `Post` entry: the header is left, and with its bottom the component is completed. */
  method TurnPost(m: Memory, h: int, dfs: seq<Mark>, pending: seq<int>, heapRoots: seq<int>, ghost c: Start,
    ghost st: State, ghost sw: Sweep, ghost first: map<int, set<int>>)
    returns (dfs': seq<Mark>, pending': seq<int>, ghost st': State, ghost sw': Sweep)
    requires Shows(c, st, sw, m, first, dfs, pending, heapRoots) && dfs != [] && dfs[|dfs| - 1] == Post(h)
    modifies m`loc, m`rc
    ensures Shows(c, st', sw', m, first, dfs', pending', heapRoots)
    ensures dfs' == dfs[..|dfs| - 1] && st'.num == st.num
  {
    hide Good, Mirrors, Coloured, Stacked, Aged, Classed, Directed, Settled, Waiting, Covered, Counted, Finals, Connected;
    hide Unlisted, Gathered;
    var n := |dfs| - 1;
    dfs', pending', sw' := dfs[..n], pending, Advance(c, sw);
    FollowPost(c, dfs, pending, st.seg, st.num, sw);
    assert |st.from| == |st.dfs| by {
      PopPost(c, st.dfs, st.from, st.num, st.done);
    }
    if pending != [] && pending[|pending| - 1] == h {
      pending' := pending[..|pending| - 1];
      st' := CompleteTop(m, h, c, st);
    } else {
      LeaveKeeps(c, st);
      st' := Left(st);
    }
  }

  /** Mark the representative of the topmost component as immutable. */
  method CompleteTop(m: Memory, h: int, ghost c: Start, ghost st: State) returns (ghost st': State)
    requires Inv(c, st) && m.Valid() && m.loc == st.loc && m.rc == st.rc
    requires |st.from| == |st.dfs| && st.dfs != [] && st.dfs[|st.dfs| - 1] == Post(h)
    requires st.pending != [] && st.pending[|st.pending| - 1] == h
    modifies m`loc, m`rc
    ensures Inv(c, st') && m.Valid() && m.loc == st'.loc && m.rc == st'.rc
    ensures st'.dfs == st.dfs[..|st.dfs| - 1] && st'.pending == st.pending[..|st.pending| - 1]
    ensures st'.done == st.done && st'.num == st.num && st'.seg == Below(st.seg, |st.pending| - 1)
  {
    hide Good, Mirrors, Coloured, Stacked, Aged, Classed, Directed, Settled, Waiting, Covered, Counted, Finals, Connected;
    hide Upward, Compressed;
    assert h in st.loc && h in st.rep by {
      Basics(c, st);
    }
    assert m.Valid();
    var rep := m.Find(h);
    ghost var mid := st.(loc := m.loc);
    CompressKeeps(c, st, m.loc);
    CompleteKeeps(c, mid);
    assert rep == mid.rep[h] && rep in m.rc by {
      Sorted(c, mid, h);
    }
    m.loc := m.loc[rep := Immutable];
    m.rc := m.rc[rep := m.rc[rep]];
    st' := Completed(mid);
    Mirrored(st'.loc, st'.rep);
  }

  lemma Mirrored(loc: map<int, Loc>, rep: map<int, int>)
    requires Mirrors(loc, rep)
    ensures Upward(loc)
  {
  }

  lemma GatheredMore(c: Start, done: set<Site>, heapRoots: seq<int>, s: Site, t: int)
    requires Gathered(c, done, heapRoots) && Leads(c.g, s, t)
    ensures Gathered(c, done + {s}, if OnHeap(c, t) then heapRoots + [t] else heapRoots)
  {
    var more := if OnHeap(c, t) then heapRoots + [t] else heapRoots;
    forall u ensures u in more <==> OnHeap(c, u) && exists s' :: s' in done + {s} && Leads(c.g, s', u) {
      if OnHeap(c, u) && exists s' :: s' in done && Leads(c.g, s', u) {
        var s' :| s' in done && Leads(c.g, s', u);
        assert s' in done + {s};
      }
      if u == t {
        assert s in done + {s} && Leads(c.g, s, u);
      }
    }
  }

  lemma GatheredDropped(c: Start, done: set<Site>, heapRoots: seq<int>, dropped: set<Site>)
    requires Gathered(c, done, heapRoots) && forall s, u | s in dropped && Leads(c.g, s, u) :: !OnHeap(c, u)
    ensures Gathered(c, done + dropped, heapRoots)
  {
    forall u ensures u in heapRoots <==> OnHeap(c, u) && exists s' :: s' in done + dropped && Leads(c.g, s', u) {
      if exists s' :: s' in done && Leads(c.g, s', u) {
        var s' :| s' in done && Leads(c.g, s', u);
        assert s' in done + dropped;
      }
    }
  }

  /** Heap headers are still where they were. */
  lemma HeapLooks(
    c: Start, loc: map<int, Loc>, rep: map<int, int>, rc: map<int, int>, seg: map<int, int>, stage: map<int, int>,
    num: map<int, int>, u: int)
    requires Coloured(c, loc, rep, rc, seg, stage, num) && OnHeap(c, u)
    ensures u in loc && loc[u] == c.loc[u] && !Local(c, u)
  {
    assert UntouchedAt(c, loc, rep, rc, num, u);
  }

  /** So their fields are not left out. */
  lemma HeapPushed(c: Start, st: State, t: int, s: Site, u: int)
    requires Inv(c, st) && Fresh(c, st, t) && s in Dropped(c.g, st.loc[t := Pending], t) && Leads(c.g, s, u)
    ensures !OnHeap(c, u)
  {
    hide Good, Coloured, Mirrors, Stacked, Aged, Classed, Directed, Settled, Waiting, Covered, Counted, Finals, Connected;
    assert !Pushed(c.g, st.loc[t := Pending], t, s);
    if OnHeap(c, u) {
      HeapLooks(c, st.loc, st.rep, st.rc, st.seg, st.stage, st.num, u);
    }
  }

  /** The entry's header is in a component under construction. */
  method TurnBack(m: Memory, t: int, rep: int, dfs: seq<Mark>, pending: seq<int>, heapRoots: seq<int>,
    ghost c: Start, ghost st: State, ghost sw: Sweep, ghost first: map<int, set<int>>)
    returns (ok: bool, pending': seq<int>, ghost st': State, ghost sw': Sweep)
    requires Shows(c, st, sw, m, first, dfs, pending, heapRoots) && dfs != [] && dfs[|dfs| - 1] == Pre(t)
    requires t in st.seg && t in st.rep && rep == st.rep[t]
    modifies m`loc, m`rc
    ensures ok ==> Shows(c, st', sw', m, first, dfs[..|dfs| - 1], pending', heapRoots) && st'.num == st.num
    ensures !ok ==> !Whole(c).sound && exists b, y :: Overtaken(c, b, y)
  {
    hide Good, Mirrors, Coloured, Stacked, Aged, Classed, Directed, Settled, Waiting, Covered, Counted, Finals, Connected;
    hide Unlisted, Gathered, Upward, Merging, Overtaken, Follows, HighestBottom;
    TopSite(c, st);
    ghost var s := st.from[|dfs| - 1];
    Basics(c, st);
    RootOf(c, st, t);
    ghost var rho;
    ok, pending', rho := Collapse(m, pending, rep, c, st, t);
    HighestIsRep(c, st, t);
    FollowBack(c, dfs, pending, st.seg, st.num, sw, t);
    st', sw' := st, Advance(c, sw);
    if ok {
      CollapseKeeps(c, st, s, t, m.loc, m.rc, rho);
      st' := Collapsed(st, st.seg[t], rho, m.loc, m.rc);
      LocalNotHeap(c, t);
      GatheredMore(c, st.done, heapRoots, s, t);
    } else {
      NotHighest(c, st, sw, t);
    }
  }

  lemma LocalNotHeap(c: Start, t: int)
    requires Local(c, t)
    ensures !OnHeap(c, t)
  {
  }

  /** The entry's header is met for the first time. */
  method TurnDiscover(m: Memory, g: map<int, seq<Ref>>, t: int, dfs: seq<Mark>, pending: seq<int>, heapRoots: seq<int>,
    ghost c: Start, ghost st: State, ghost sw: Sweep, ghost first: map<int, set<int>>)
    returns (dfs': seq<Mark>, pending': seq<int>, ghost st': State, ghost sw': Sweep)
    requires Shows(c, st, sw, m, first, dfs, pending, heapRoots) && dfs != [] && dfs[|dfs| - 1] == Pre(t)
    requires g == c.g && Fresh(c, st, t) && Listed(c.loc, first)
    requires t in m.loc && m.loc[t].InRegion? && m.loc[t] == c.loc[t] && m.loc[t].region in m.members
    modifies m`loc, m`rc, m`members
    ensures Shows(c, st', sw', m, first, dfs', pending', heapRoots)
    ensures st'.num.Keys == st.num.Keys + {t}
  {
    hide Good, Mirrors, Coloured, Stacked, Aged, Classed, Directed, Settled, Waiting, Covered, Counted, Finals, Connected;
    hide Gathered, Upward, Dropped, Traced, Follows;
    TopSite(c, st);
    ghost var s := st.from[|dfs| - 1];
    UnlistOne(c, st.num, st.clock, first, m.members, t);
    TargetsKnown(c, st);
    ghost var links;
    var kids;
    kids, links := Enter(m, g, t);
    pending' := pending + [t];
    dfs' := dfs[..|dfs| - 1] + [Post(t)] + kids;
    DiscoverKeeps(c, st, t, kids, links);
    st' := Discovered(c, st, t, kids, links);
    Mirrored(st'.loc, st'.rep);
    DiscoverGathers(c, st, heapRoots, s, t);
    DiscoverFollows(c, st, sw, t, kids);
    sw' := Advance(c, sw).(dfs := dfs');
  }

  /** Take the header out of its region, mark it as pending and trace its fields. */
  method Enter(m: Memory, g: map<int, seq<Ref>>, t: int) returns (kids: seq<Mark>, ghost links: seq<Site>)
    requires t in m.loc && m.loc[t].InRegion? && m.loc[t].region in m.members
    requires t in g && forall s, u | Leads(g, s, u) :: u in m.loc
    modifies m`loc, m`members
    ensures m.loc == old(m.loc)[t := Pending] && Traced(g, m.loc, t, kids, links)
    ensures var r := old(m.loc)[t].region; m.members == old(m.members)[r := old(m.members)[r] - {t}]
  {
    m.members := m.members[m.loc[t].region := m.members[m.loc[t].region] - {t}];
    m.loc := m.loc[t := Pending];
    kids, links := TraceFields(g, m.loc, t);
  }

  lemma DiscoverFollows(c: Start, st: State, sw: Sweep, t: int, kids: seq<Mark>)
    requires Inv(c, st) && Fresh(c, st, t) && Follows(c, st.dfs, st.pending, st.seg, st.num, sw)
    requires st.dfs != [] && st.dfs[|st.dfs| - 1] == Pre(t) && t in c.g && kids == Kept(st.loc[t := Pending], c.g[t])
    ensures Placed(sw) && sw.dfs == st.dfs
    ensures var dfs' := st.dfs[..|st.dfs| - 1] + [Post(t)] + kids;
      Follows(c, dfs', st.pending + [t], st.seg[t := |st.pending|], st.num[t := st.clock], Advance(c, sw).(dfs := dfs'))
  {
    hide Good, Mirrors, Coloured, Stacked, Classed, Directed, Settled, Waiting, Covered, Counted, Finals, Connected;
    hide Kept, Kids, Thins, Local;
    Basics(c, st);
    AdvanceMeets(c, st.dfs, st.pending, st.seg, st.num, sw, t);
    KeptThins(c, st.loc, st.rep, st.rc, st.seg, st.stage, st.num, t, |st.pending|, Advance(c, sw), |c.g[t]|);
    assert c.g[t][..|c.g[t]|] == c.g[t];
    hide Advance, Follows;
    FollowDiscover(c, st.dfs, st.pending, st.seg, st.num, sw, t, st.clock, kids);
  }

  lemma DiscoverGathers(c: Start, st: State, heapRoots: seq<int>, s: Site, t: int)
    requires Inv(c, st) && Fresh(c, st, t) && Gathered(c, st.done, heapRoots) && Leads(c.g, s, t)
    ensures Gathered(c, st.done + {s} + Dropped(c.g, st.loc[t := Pending], t), heapRoots)
  {
    hide Good, Coloured, Mirrors, Stacked, Aged, Classed, Directed, Settled, Waiting, Covered, Counted, Finals, Connected;
    hide Gathered, Dropped;
    LocalNotHeap(c, t);
    GatheredMore(c, st.done, heapRoots, s, t);
    ghost var dropped := Dropped(c.g, st.loc[t := Pending], t);
    forall s, u | s in dropped && Leads(c.g, s, u) ensures !OnHeap(c, u) {
      HeapPushed(c, st, t, s, u);
    }
    GatheredDropped(c, st.done + {s}, heapRoots, dropped);
  }

  lemma TargetsKnown(c: Start, st: State)
    requires Inv(c, st)
    ensures st.loc.Keys == c.g.Keys && forall s, u | Leads(c.g, s, u) :: u in st.loc
  {
    hide Mirrors, Stacked, Aged, Classed, Directed, Settled, Waiting, Covered, Counted, Finals, Connected;
  }

  lemma UnlistOne(
    c: Start, num: map<int, int>, clock: int, first: map<int, set<int>>, members: map<int, set<int>>, t: int)
    requires Unlisted(c, num, first, members) && Listed(c.loc, first) && t in c.loc && c.loc[t].InRegion?
    requires c.loc[t].region in members
    ensures var r := c.loc[t].region;
      Unlisted(c, num[t := clock], first, members[r := members[r] - {t}])
  {
    var r := c.loc[t].region;
    var after := members[r := members[r] - {t}];
    forall q | q in first ensures after[q] == first[q] - num[t := clock].Keys {
      assert members[q] == first[q] - num.Keys;
      assert q != r ==> t !in first[q];
    }
  }

  /** An entry that leads to something finished, frozen before, or to a heap region. */
  lemma TurnSkip(c: Start, st: State, heapRoots: seq<int>, t: int)
    requires Inv(c, st) && st.dfs != [] && st.dfs[|st.dfs| - 1] == Pre(t) && t !in st.seg && (Local(c, t) ==> t in st.num)
    requires Gathered(c, st.done, heapRoots)
    ensures |st.from| == |st.dfs| && Inv(c, Skipped(st))
    ensures Gathered(c, Skipped(st).done, if OnHeap(c, t) then heapRoots + [t] else heapRoots)
  {
    hide Good, Mirrors, Coloured, Stacked, Aged, Classed, Directed, Settled, Waiting, Covered, Counted, Finals, Connected;
    hide Gathered;
    TopSite(c, st);
    SkipKeeps(c, st);
    GatheredMore(c, st.done, heapRoots, st.from[|st.dfs| - 1], t);
  }

  /** A `Pre` entry: what its representative's location says decides. */
  method TurnPre(m: Memory, g: map<int, seq<Ref>>, frames: set<int>, h: int, dfs: seq<Mark>, pending: seq<int>,
    heapRoots: seq<int>, ghost c: Start, ghost st: State, ghost sw: Sweep, ghost first: map<int, set<int>>)
    returns (ok: bool, dfs': seq<Mark>, pending': seq<int>, heapRoots': seq<int>, ghost st': State, ghost sw': Sweep)
    requires Shows(c, st, sw, m, first, dfs, pending, heapRoots) && dfs != [] && dfs[|dfs| - 1] == Pre(h)
    requires g == c.g && frames == c.frames && Listed(c.loc, first)
    modifies m
    ensures ok ==> Shows(c, st', sw', m, first, dfs', pending', heapRoots')
    ensures ok ==> (st'.num.Keys == st.num.Keys && |dfs'| < |dfs|) || Progress(c, st, st')
    ensures !ok ==> !Whole(c).sound && exists b, y :: Overtaken(c, b, y)
  {
    hide Good, Mirrors, Coloured, Stacked, Aged, Classed, Directed, Settled, Waiting, Covered, Counted, Finals, Connected;
    hide Gathered, Unlisted, Overtaken, Upward, Follows, Compressed, Listed, Local, OnHeap;
    TopSite(c, st);
    Basics(c, st);
    var rep := m.Find(h);
    ghost var mid := st.(loc := m.loc);
    CompressKeeps(c, st, m.loc);
    Sorted(c, mid, h);
    var repLoc := m.loc[rep];
    ok, dfs', pending', heapRoots' := true, dfs[..|dfs| - 1], pending, heapRoots;
    if repLoc.Pending? {
      ok, pending', st', sw' := TurnBack(m, h, rep, dfs, pending, heapRoots, c, mid, sw, first);
      return;
    }
    if repLoc.InRegion? && repLoc.region in frames {
      IsFresh(c, mid, h);
      RegionListed(c, mid.num, first, m.members, h);
      dfs', pending', st', sw' := TurnDiscover(m, g, h, dfs, pending, heapRoots, c, mid, sw, first);
      return;
    }
    NotFresh(c, h);
    TurnSkip(c, mid, heapRoots, h);
    if repLoc.InRegion? {
      heapRoots' := heapRoots + [h];
    }
    FollowSkip(c, dfs, pending, st.seg, st.num, sw, h);
    st', sw' := Skipped(mid), Advance(c, sw);
  }

  /** A header has been met. */
  ghost predicate Progress(c: Start, st: State, to: State) {
    exists t :: Fresh(c, st, t) && to.num.Keys == st.num.Keys + {t}
  }

  lemma IsFresh(c: Start, st: State, h: int)
    requires h in st.loc && h !in st.num && h in c.loc && c.loc[h].InRegion? && c.loc[h].region in c.frames
    ensures Fresh(c, st, h)
  {
  }

  lemma RegionListed(c: Start, num: map<int, int>, first: map<int, set<int>>, members: map<int, set<int>>, h: int)
    requires Unlisted(c, num, first, members) && Listed(c.loc, first) && h in c.loc && c.loc[h].InRegion?
    ensures c.loc[h].region in members
  {
  }

  lemma NotFresh(c: Start, h: int)
    requires h in c.loc
    ensures Local(c, h) <==> c.loc[h].InRegion? && c.loc[h].region in c.frames
    ensures OnHeap(c, h) <==> c.loc[h].InRegion? && c.loc[h].region !in c.frames
  {
  }

  /** One turn of the loop. */
  method Turn(m: Memory, g: map<int, seq<Ref>>, frames: set<int>, dfs: seq<Mark>, pending: seq<int>, heapRoots: seq<int>,
    ghost c: Start, ghost st: State, ghost sw: Sweep, ghost first: map<int, set<int>>)
    returns (ok: bool, dfs': seq<Mark>, pending': seq<int>, heapRoots': seq<int>, ghost st': State, ghost sw': Sweep)
    requires Shows(c, st, sw, m, first, dfs, pending, heapRoots) && dfs != []
    requires g == c.g && frames == c.frames && Listed(c.loc, first)
    modifies m
    ensures ok ==> Shows(c, st', sw', m, first, dfs', pending', heapRoots')
    ensures ok ==> (st'.num.Keys == st.num.Keys && |dfs'| < |dfs|) || Progress(c, st, st')
    ensures !ok ==> !Whole(c).sound && exists b, y :: Overtaken(c, b, y)
  {
    hide Good, Mirrors, Coloured, Stacked, Aged, Classed, Directed, Settled, Waiting, Covered, Counted, Finals, Connected;
    hide Gathered, Unlisted, Overtaken, Upward, Follows;
    var mark := dfs[|dfs| - 1];
    ok, dfs', pending', heapRoots', st', sw' := true, dfs[..|dfs| - 1], pending, heapRoots, st, sw;
    if mark.Post? {
      dfs', pending', st', sw' := TurnPost(m, mark.h, dfs, pending, heapRoots, c, st, sw, first);
      return;
    }
    ok, dfs', pending', heapRoots', st', sw' := TurnPre(m, g, frames, mark.h, dfs, pending, heapRoots, c, st, sw, first);
  }

  // ---------------------------------------------------------------- what the search leaves behind

  /** The frame-local headers that the root reaches. */
  ghost function Reached(c: Start): set<int> {
    set x | x in c.loc && Reach(c, c.root, x)
  }

  /** The strongly connected component of `r`. */
  ghost function Component(c: Start, r: int): set<int> {
    set x | x in Reached(c) && Mutual(c, x, r)
  }

  /** Every reached header is frozen, its class is its component, and the count of the class is exact. */
  ghost predicate Frozen(c: Start, loc: map<int, Loc>, rc: map<int, int>) {
    && Upward(loc) && loc.Keys == c.loc.Keys && rc.Keys == c.loc.Keys
    && (forall x | x in Reached(c) :: x in loc && Rep(loc, x) in Reached(c) && loc[Rep(loc, x)].Immutable?)
    && (forall x, y | x in Reached(c) && y in Reached(c) :: Rep(loc, x) == Rep(loc, y) <==> Mutual(c, x, y))
    && (forall r | r in Reached(c) && Rep(loc, r) == r ::
          rc[r] == Sum(c, Component(c, r)) - |Inside(c.g, Component(c, r))|)
  }

  /** Nothing else changes but for path compression. */
  ghost predicate Spared(c: Start, loc: map<int, Loc>, rc: map<int, int>) {
    && loc.Keys == c.loc.Keys && rc.Keys == c.loc.Keys && c.rc.Keys == c.loc.Keys
    && forall x | x in c.loc && x !in Reached(c) ::
         rc[x] == c.rc[x] && (loc[x] == c.loc[x] || (loc[x].SccPtr? && c.loc[x].SccPtr?))
  }

  lemma {:induction false} WalkSettles(c: Start, stage: map<int, int>, clock: int, w: seq<int>, i: nat)
    requires Settled(c, stage, clock) && Walk(c, w) && i < |w| && w[0] in stage
    ensures w[i] in stage && stage[w[i]] <= stage[w[0]]
    decreases i
  {
    if i > 0 {
      WalkSettles(c, stage, clock, w, i - 1);
      assert Next(c, w[i - 1], w[i - 1 + 1]);
      var s :| Adjacent(c, s, w[i - 1], w[i]);
      assert Leads(c.g, s, w[i]);
    }
  }

  lemma ReachSettles(c: Start, stage: map<int, int>, clock: int, a: int, b: int)
    requires Settled(c, stage, clock) && Reach(c, a, b) && a in stage
    ensures b in stage && stage[b] <= stage[a]
  {
    var w :| Walk(c, w) && w[0] == a && w[|w| - 1] == b;
    WalkSettles(c, stage, clock, w, |w| - 1);
  }

  lemma FirstOnPath(seg: map<int, int>, pending: seq<int>, path: seq<int>)
    requires Stacked(seg, pending, path) && pending != []
    ensures pending[0] in path
  {
  }

  /** With nothing left to do every component is finished. */
  lemma AllFinished(c: Start, st: State)
    requires Inv(c, st) && st.dfs == []
    ensures st.seg == map[] && st.num.Keys == st.stage.Keys
  {
    hide Good, Mirrors, Coloured, Stacked, Aged, Classed, Directed, Settled, Waiting, Covered, Counted, Finals, Connected;
    assert Posts(st.dfs) == [];
    if st.pending != [] {
      FirstOnPath(st.seg, st.pending, Posts(st.dfs));
    }
    Basics(c, st);
    forall x ensures x !in st.seg {
    }
    assert st.seg.Keys == {};
  }

  lemma FinishedIsReached(c: Start, st: State)
    requires Inv(c, st) && st.dfs == [] && c.root in st.num
    ensures st.stage.Keys == Reached(c) && st.num.Keys == Reached(c)
  {
    hide Good, Mirrors, Aged, Classed, Directed, Settled, Waiting, Covered, Counted, Finals;
    AllFinished(c, st);
    forall x ensures x in st.stage <==> x in Reached(c) {
      if x in st.stage {
        assert Reach(c, c.root, x);
        Basics(c, st);
      }
      if x in Reached(c) {
        ReachSettles(c, st.stage, st.clock, c.root, x);
      }
    }
  }

  lemma ClassIsMutual(c: Start, st: State, x: int, y: int)
    requires Inv(c, st) && x in st.stage && y in st.stage
    ensures x in st.rep && y in st.rep && (st.rep[x] == st.rep[y] <==> Mutual(c, x, y))
  {
    hide Good, Mirrors, Coloured, Stacked, Aged, Directed, Settled, Waiting, Covered, Counted, Finals;
    Basics(c, st);
    if st.rep[x] == st.rep[y] {
      assert Reach(c, x, y) && Reach(c, y, x);
    }
    if Mutual(c, x, y) {
      ReachSettles(c, st.stage, st.clock, x, y);
      ReachSettles(c, st.stage, st.clock, y, x);
    }
  }

  lemma ClassIsComponent(c: Start, st: State, r: int)
    requires Inv(c, st) && st.dfs == [] && c.root in st.num && r in st.stage && r in st.rep && st.rep[r] == r
    ensures Class(st.rep, st.stage, r) == Component(c, r)
  {
    hide Good, Mirrors, Coloured, Stacked, Aged, Classed, Directed, Settled, Waiting, Covered, Counted, Finals, Connected;
    FinishedIsReached(c, st);
    forall x ensures x in Class(st.rep, st.stage, r) <==> x in Component(c, r) {
      if x in st.stage {
        ClassIsMutual(c, st, x, r);
      }
    }
  }

  lemma FinishedRoots(c: Start, st: State)
    requires Inv(c, st) && st.dfs == [] && c.root in st.num
    ensures forall x | x in Reached(c) :: x in st.loc && Rep(st.loc, x) in Reached(c) && st.loc[Rep(st.loc, x)].Immutable?
  {
    hide Good, Stacked, Aged, Classed, Directed, Settled, Waiting, Covered, Counted, Connected, Finals, Reached;
    FinishedIsReached(c, st);
    forall x | x in Reached(c) ensures x in st.loc && Rep(st.loc, x) in Reached(c) && st.loc[Rep(st.loc, x)].Immutable? {
      assert RootedAt(st.loc, st.rep, st.stage, x, Immutable);
    }
  }

  lemma FinishedCounts(c: Start, st: State, r: int)
    requires Inv(c, st) && st.dfs == [] && c.root in st.num && r in Reached(c) && r in st.loc && Rep(st.loc, r) == r
    ensures st.rc.Keys == c.loc.Keys && r in st.rc
    ensures st.rc[r] == Sum(c, Component(c, r)) - |Inside(c.g, Component(c, r))|
  {
    hide Good, Stacked, Aged, Classed, Directed, Settled, Waiting, Covered, Counted, Connected;
    hide Reached, Component, UntouchedAt, RootedAt;
    FinishedIsReached(c, st);
    ClassIsComponent(c, st, r);
    assert FinalAt(c, st.rep, st.rc, st.stage, r);
  }

  lemma FinishedSpares(c: Start, st: State)
    requires Inv(c, st) && st.dfs == [] && c.root in st.num
    ensures Spared(c, st.loc, st.rc)
  {
    hide Good, Stacked, Aged, Classed, Directed, Settled, Waiting, Covered, Counted, Connected, Finals, Reached, RootedAt;
    FinishedIsReached(c, st);
    forall x | x in c.loc && x !in Reached(c)
      ensures st.rc[x] == c.rc[x] && (st.loc[x] == c.loc[x] || (st.loc[x].SccPtr? && c.loc[x].SccPtr?))
    {
      assert UntouchedAt(c, st.loc, st.rep, st.rc, st.num, x);
    }
  }

  lemma FinishedFrozen(c: Start, st: State)
    requires Inv(c, st) && st.dfs == [] && c.root in st.num
    ensures Frozen(c, st.loc, st.rc) && Spared(c, st.loc, st.rc)
  {
    hide Good, Stacked, Aged, Classed, Directed, Settled, Waiting, Covered, Counted, Connected, Finals;
    hide Reached, Component, Mutual, Spared, UntouchedAt, RootedAt, Inside, Sum, Reach, Local, Next, Adjacent;
    FinishedIsReached(c, st);
    FinishedRoots(c, st);
    FinishedSpares(c, st);
    assert forall x | x in st.loc :: Rep(st.loc, x) == st.rep[x];
    forall x, y | x in Reached(c) && y in Reached(c) ensures Rep(st.loc, x) == Rep(st.loc, y) <==> Mutual(c, x, y) {
      ClassIsMutual(c, st, x, y);
    }
    forall r | r in Reached(c) && Rep(st.loc, r) == r
      ensures st.rc[r] == Sum(c, Component(c, r)) - |Inside(c.g, Component(c, r))|
    {
      FinishedCounts(c, st, r);
    }
  }

  // ---------------------------------------------------------------- the whole operation

  lemma FewerUnmet(c: Start, st: State, to: State)
    requires Progress(c, st, to) && st.loc.Keys == c.loc.Keys
    ensures Unmet(c, to.num) < Unmet(c, st.num)
  {
    var t :| Fresh(c, st, t) && to.num.Keys == st.num.Keys + {t};
    assert t in Unmet(c, st.num) && t !in Unmet(c, to.num);
  }

  lemma SameUnmet(c: Start, a: map<int, int>, b: map<int, int>)
    requires a.Keys == b.Keys
    ensures Unmet(c, a) == Unmet(c, b)
  {
    forall x ensures x in Unmet(c, a) <==> x in Unmet(c, b) {
      assert x in a <==> x in b;
    }
  }

  /** The first turn, which always discovers the root. */
  method Begin(m: Memory, g: map<int, seq<Ref>>, root: int, ghost c: Start)
    returns (dfs: seq<Mark>, ghost st: State, ghost sw: Sweep)
    requires Good(c) && m.Valid() && m.loc == c.loc && m.rc == c.rc && g == c.g && root == c.root && Listed(c.loc, m.members)
    modifies m
    ensures Shows(c, st, sw, m, old(m.members), dfs, [root], [])
  {
    hide Good, Mirrors, Coloured, Stacked, Aged, Classed, Directed, Settled, Waiting, Covered, Counted, Finals, Connected;
    hide Dropped, Unlisted, Gathered, Listed, Upward, Local, Follows, Advance, Kept;
    RootListed(c, m.members);
    NoneUnlisted(c, m.members);
    UnlistOne(c, map[], 0, m.members, m.members, root);
    ghost var links;
    var kids;
    kids, links := Enter(m, g, root);
    dfs := [Post(root)] + kids;
    BeginKeeps(c, kids, links);
    BeginGathers(c);
    BeginFollows(c, kids);
    st, sw := Begun(c, kids, links), Advance(c, AtFirst(root)).(dfs := dfs);
    Mirrored(st.loc, st.rep);
  }

  lemma RootListed(c: Start, members: map<int, set<int>>)
    requires Good(c) && Listed(c.loc, members)
    ensures c.root in c.loc && c.loc[c.root].InRegion? && c.loc[c.root].region in members
    ensures c.root in c.g && forall s, u | Leads(c.g, s, u) :: u in c.loc
  {
  }

  lemma NoneUnlisted(c: Start, members: map<int, set<int>>)
    ensures Unlisted(c, map[], members, members)
  {
  }

  lemma BeginGathers(c: Start)
    requires Good(c)
    ensures Gathered(c, Dropped(c.g, c.loc[c.root := Pending], c.root), [])
  {
    forall s, u | s in Dropped(c.g, c.loc[c.root := Pending], c.root) && Leads(c.g, s, u) ensures !OnHeap(c, u) {
      assert u in c.loc;
      assert !Pushed(c.g, c.loc[c.root := Pending], c.root, s);
    }
  }

  /**
   `freeze_local`, up to the list of heap headers that it hands to `freeze`.  When it runs to its end the
   union-find classes are the strongly connected components of the frame-local headers that the root
   reaches, each with an immutable representative whose count is the sum of its members' counts less the
   fields inside the component.  It fails, in the assertion of `scc_union`, exactly when some back edge of the
   search enters a component under construction whose bottom does not have its highest address; it cannot fail
   if no header is met before one of its own component that has a higher address.
   */
  method FreezeLocal(m: Memory, g: map<int, seq<Ref>>, root: int, frames: set<int>)
    returns (ok: bool, heapRoots: seq<int>)
    requires m.Valid() && Good(Start(g, m.loc, m.rc, frames, root)) && Listed(m.loc, m.members)
    modifies m
    ensures var c := old(Start(g, m.loc, m.rc, frames, root));
      && (ok ==>
            && Frozen(c, m.loc, m.rc) && Spared(c, m.loc, m.rc)
            && (forall x :: x in Whole(c).met <==> x in Reached(c))
            && m.members.Keys == old(m.members).Keys
            && (forall r | r in m.members :: m.members[r] == old(m.members)[r] - Reached(c))
            && (forall t :: t in heapRoots <==> OnHeap(c, t) && exists s: Site :: s.x in Reached(c) && Leads(c.g, s, t)))
      && (ok <==> Whole(c).sound)
      && ((forall b, y | Before(c, b, y) && Mutual(c, b, y) :: y < b) ==> ok)
  {
    hide Mirrors, Coloured, Stacked, Aged, Classed, Directed, Settled, Waiting, Covered, Counted, Finals, Connected;
    hide Gathered, Unlisted, Frozen, Spared;
    ghost var c, first := Start(g, m.loc, m.rc, frames, root), m.members;
    var dfs;
    ghost var st, sw;
    dfs, st, sw := Begin(m, g, root, c);
    var pending := [root];
    heapRoots := [];
    while dfs != []
      invariant Shows(c, st, sw, m, first, dfs, pending, heapRoots)
      decreases Unmet(c, st.num), |dfs|
    {
      ghost var before := st;
      ok, dfs, pending, heapRoots, st, sw := Turn(m, g, frames, dfs, pending, heapRoots, c, st, sw, first);
      if !ok {
        return;
      }
      Decreases(c, before, st);
    }
    ok := true;
    FinishedFrozen(c, st);
    Delivered(c, st, first, m.members, heapRoots);
    AllMet(c, st, sw);
  }

  lemma AllMet(c: Start, st: State, sw: Sweep)
    requires Inv(c, st) && st.dfs == [] && c.root in st.num && Follows(c, st.dfs, st.pending, st.seg, st.num, sw)
    ensures Whole(c).sound && forall x :: x in Whole(c).met <==> x in Reached(c)
  {
    hide Good, Mirrors, Coloured, Stacked, Aged, Classed, Directed, Settled, Waiting, Covered, Counted, Finals, Connected;
    FinishedIsReached(c, st);
    assert Whole(c) == sw;
    hide Reached;
    forall x ensures x in sw.met <==> x in st.num {
    }
  }

  lemma Decreases(c: Start, st: State, to: State)
    requires Inv(c, st)
    ensures to.num.Keys == st.num.Keys ==> Unmet(c, to.num) == Unmet(c, st.num)
    ensures Progress(c, st, to) ==> Unmet(c, to.num) < Unmet(c, st.num)
  {
    hide Good, Mirrors, Stacked, Aged, Classed, Directed, Settled, Waiting, Covered, Counted, Finals, Connected;
    hide Progress, Unmet;
    if to.num.Keys == st.num.Keys {
      SameUnmet(c, to.num, st.num);
    }
    if Progress(c, st, to) {
      FewerUnmet(c, st, to);
    }
  }

  lemma Delivered(c: Start, st: State, first: map<int, set<int>>, members: map<int, set<int>>, heapRoots: seq<int>)
    requires Inv(c, st) && st.dfs == [] && c.root in st.num
    requires Gathered(c, st.done, heapRoots) && Unlisted(c, st.num, first, members)
    ensures members.Keys == first.Keys && forall r | r in members :: members[r] == first[r] - Reached(c)
    ensures forall t :: t in heapRoots <==> OnHeap(c, t) && exists s: Site :: s.x in Reached(c) && Leads(c.g, s, t)
  {
    hide Good, Mirrors, Coloured, Stacked, Aged, Classed, Settled, Waiting, Counted, Finals, Connected;
    FinishedIsReached(c, st);
    hide Reached;
    forall t ensures t in heapRoots <==> OnHeap(c, t) && exists s: Site :: s.x in Reached(c) && Leads(c.g, s, t) {
      if exists s :: s in st.done && Leads(c.g, s, t) {
        var s :| s in st.done && Leads(c.g, s, t);
        assert s.x in st.num;
      }
      if exists s: Site :: s.x in Reached(c) && Leads(c.g, s, t) {
        var s: Site :| s.x in Reached(c) && Leads(c.g, s, t);
        assert IsSite(c.g, s) && s.x in st.num;
        assert s in st.done;
      }
    }
  }

  /** 30 leads to 10, 10 to 20, and 20 to 30 and twice to 10; all are in one frame-local region. */
  function Circles(): Start {
    Start(map[10 := [To(20)], 20 := [To(30), To(10), To(10)], 30 := [To(10)]],
      map[10 := InRegion(0), 20 := InRegion(0), 30 := InRegion(0)], map[10 := 3, 20 := 1, 30 := 2], {0}, 30)
  }

  lemma CirclesAreGood()
    ensures Good(Circles())
  {
    var c := Circles();
    assert forall x | x in c.loc :: c.loc[x] == InRegion(0);
  }

  /** The first four turns of the search. */
  ghost function Circling(k: nat): Sweep {
    if k == 0 then AtFirst(30)
    else if k == 1 then Sweep([Post(30), Pre(10)], [30], map[30 := 0], [30], true)
    else if k == 2 then Sweep([Post(30), Post(10), Pre(20)], [30, 10], map[30 := 0, 10 := 1], [30, 10], true)
    else if k == 3 then
      Sweep([Post(30), Post(10), Post(20), Pre(30), Pre(10), Pre(10)], [30, 10, 20],
        map[30 := 0, 10 := 1, 20 := 2], [30, 10, 20], true)
    else
      Sweep([Post(30), Post(10), Post(20), Pre(30), Pre(10)], [30, 10],
        map[30 := 0, 10 := 1, 20 := 1], [30, 10, 20], true)
  }

  lemma Meeting(k: nat)
    requires k < 3
    ensures Placed(Circling(k)) && Circling(k).dfs != [] && Advance(Circles(), Circling(k)) == Circling(k + 1)
  {
    var c, s := Circles(), Circling(k);
    var n := |s.dfs| - 1;
    KidsOfThree(To(30), To(10), To(10));
    KidsOfOne(To(10));
    KidsOfOne(To(20));
    hide Kids;
    assert s.dfs[n].Pre? && s.dfs[n].h == if k == 0 then 30 else if k == 1 then 10 else 20;
    assert Local(c, s.dfs[n].h);
  }

  lemma FirstCircle()
    ensures Circles().root == 30 && Placed(Circling(3)) && Advance(Circles(), Circling(3)) == Circling(4)
  {
  }

  lemma SecondCircle()
    ensures Placed(Circling(4)) && !Advance(Circles(), Circling(4)).sound
  {
    var s := Circling(4);
    assert s.dfs[|s.dfs| - 1] == Pre(10) && 10 in s.seg && s.seg[10] == 1;
    assert 20 in s.seg && s.seg[20] == 1 && s.pending[1] == 10;
    assert !HighestBottom(s.seg, s.pending, 1);
  }

  /** The headers are met in this order, and the second circle enters the component of 10 and 20. */
  lemma CirclesAreUnsound()
    ensures !Whole(Circles()).sound && [30, 10, 20] <= Whole(Circles()).met
  {
    hide Circles, Advance;
    Meeting(0);
    Meeting(1);
    Meeting(2);
    FirstCircle();
    SecondCircle();
  }

  lemma KidsOfOne(a: Ref)
    requires a.To?
    ensures Kids([a]) == [Pre(a.target)]
  {
    assert [a][..0] == [];
  }

  lemma KidsOfThree(a: Ref, b: Ref, d: Ref)
    requires a.To? && b.To? && d.To?
    ensures Kids([a, b, d]) == [Pre(a.target), Pre(b.target), Pre(d.target)]
  {
    var s: seq<Ref> := [a, b, d];
    assert s[..2] == [a, b] && [a, b][..1] == [a];
    KidsOfOne(a);
    assert Kids([a, b]) == Kids([a]) + [Pre(b.target)];
    assert Kids(s) == Kids([a, b]) + [Pre(d.target)];
  }

  lemma CirclesConnect()
    ensures Mutual(Circles(), 30, 10) && Mutual(Circles(), 30, 20)
  {
    var c := Circles();
    assert Local(c, 10) && Local(c, 20) && Local(c, 30);
    assert Adjacent(c, Edge(30, 0), 30, 10) && Adjacent(c, Edge(10, 0), 10, 20) && Adjacent(c, Edge(20, 0), 20, 30);
    hide Circles, Adjacent, Reach;
    ReachEdge(c, Edge(30, 0), 30, 10);
    ReachEdge(c, Edge(10, 0), 10, 20);
    ReachEdge(c, Edge(20, 0), 20, 30);
    ReachTrans(c, 30, 10, 20);
    ReachTrans(c, 10, 20, 30);
    ReachTrans(c, 20, 30, 10);
  }

  /** 30 is met before the other members of its component, and they have lower addresses. */
  lemma CirclesMeetFirst()
    ensures forall x | Local(Circles(), x) && x != 30 ::
      Before(Circles(), 30, x) && x < 30 && Mutual(Circles(), 30, x)
  {
    hide Whole, Mutual;
    CirclesAreUnsound();
    CirclesConnect();
    var met := Whole(Circles()).met;
    assert [30, 10, 20] == met[..3];
    assert met[0] == 30 && met[1] == 10 && met[2] == 20;
    assert forall x | Local(Circles(), x) :: x in Circles().loc;
  }

  /**
   A root that is met first and has the highest address is not enough.  With 30 leading to 10, 10 to 20, and
   20 back to 10 twice before it leads back to 30, the first back edge makes 20 the representative of 10 and
   20, and the second one asks for the union of 10 with itself.
   */
  method OldestHighestIsNotEnough(m: Memory) returns (ok: bool)
    requires m.loc == Circles().loc && m.rc == Circles().rc && m.members == map[0 := {10, 20, 30}]
    modifies m
    ensures !ok
    ensures forall x | Local(Circles(), x) && x != 30 ::
      Before(Circles(), 30, x) && x < 30 && Mutual(Circles(), 30, x)
  {
    hide Good, Whole, Before, Mutual, Frozen, Spared, Reached, OnHeap, Leads, Upward, Local;
    CirclesAreGood();
    CirclesAreUnsound();
    CirclesMeetFirst();
    var heapRoots;
    ok, heapRoots := FreezeLocal(m, Circles().g, 30, {0});
  }
}
