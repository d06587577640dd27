/**
 The order in which `freeze_local` meets headers, and when it can be carried through, as functions of what
 it starts from (vbci/freeze.cc:104-168).  No address is looked at except to ask, at a back edge, whether
 the bottom of the component it enters is the highest member.
 */
module FreezeOrder {
  import opened UnionFind
  import opened Freezing
  import opened FreezeSteps
  import opened FreezeCollapse

  /**
   The search without union-find: `dfs` and `pending` are its two stacks, `seg` numbers the component under
   construction that an open header belongs to, `met` lists the headers in the order of discovery, and
   `sound` says that every back edge so far entered a component whose bottom has its highest address.
   */
  datatype Sweep = Sweep(dfs: seq<Mark>, pending: seq<int>, seg: map<int, int>, met: seq<int>, sound: bool)

  ghost predicate Placed(s: Sweep) {
    forall x | x in s.seg :: 0 <= s.seg[x] < |s.pending|
  }

  /** The bottom of component `j` has the highest address of its members. */
  ghost predicate HighestBottom(seg: map<int, int>, pending: seq<int>, j: int) {
    0 <= j < |pending| && forall x | x in seg && seg[x] == j :: x <= pending[j]
  }

  /** An entry for every field that holds a reference, in field order. */
  function Kids(fields: seq<Ref>): seq<Mark> {
    if fields == [] then []
    else
      var n := |fields| - 1;
      if fields[n].To? then Kids(fields[..n]) + [Pre(fields[n].target)] else Kids(fields[..n])
  }

  ghost function Unseen(c: Start, met: seq<int>): set<int> {
    set x | x in c.loc && Local(c, x) && x !in met
  }

  /** Take the last entry: leave a header, close a circle, pass over a header, or meet it. */
  ghost function Advance(c: Start, s: Sweep): (s': Sweep)
    requires Placed(s) && s.dfs != []
    ensures Placed(s')
  {
    var n := |s.dfs| - 1;
    var h := s.dfs[n].h;
    if s.dfs[n].Post? then
      if s.pending != [] && s.pending[|s.pending| - 1] == h then
        s.(dfs := s.dfs[..n], pending := s.pending[..|s.pending| - 1], seg := Below(s.seg, |s.pending| - 1))
      else s.(dfs := s.dfs[..n])
    else if h in s.seg then
      var j := s.seg[h];
      s.(dfs := s.dfs[..n], pending := s.pending[..j + 1], seg := Lowered(s.seg, j),
         sound := s.sound && HighestBottom(s.seg, s.pending, j))
    else if !Local(c, h) || h in s.met then s.(dfs := s.dfs[..n])
    else
      s.(dfs := s.dfs[..n] + [Post(h)] + if h in c.g then Kids(c.g[h]) else [],
         pending := s.pending + [h], seg := s.seg[h := |s.pending|], met := s.met + [h])
  }

  lemma AdvanceShrinks(c: Start, s: Sweep)
    requires Placed(s) && s.dfs != []
    ensures (Advance(c, s).met == s.met && |Advance(c, s).dfs| < |s.dfs|) || Unseen(c, Advance(c, s).met) < Unseen(c, s.met)
  {
    var h := s.dfs[|s.dfs| - 1].h;
    if Advance(c, s).met != s.met {
      assert h in Unseen(c, s.met) && h !in Unseen(c, Advance(c, s).met);
    }
  }

  ghost function Search(c: Start, s: Sweep): (r: Sweep)
    requires Placed(s)
    ensures r.dfs == [] && s.met <= r.met && (r.sound ==> s.sound)
    decreases Unseen(c, s.met), |s.dfs|
  {
    if s.dfs == [] then s
    else
      AdvanceShrinks(c, s);
      Search(c, Advance(c, s))
  }

  ghost function AtFirst(root: int): Sweep {
    Sweep([Pre(root)], [], map[], [], true)
  }

  /** The whole search. */
  ghost function Whole(c: Start): Sweep {
    Search(c, AtFirst(c.root))
  }

  /** `b` is met before `y`. */
  ghost predicate Before(c: Start, b: int, y: int) {
    exists i, j :: 0 <= i < j < |Whole(c).met| && Whole(c).met[i] == b && Whole(c).met[j] == y
  }

  // ---------------------------------------------------------------- entries that do not matter

  /** A header that is passed over now and ever after. */
  ghost predicate Idle(c: Start, s: Sweep, h: int) {
    h !in s.seg && (!Local(c, h) || h in s.met)
  }

  ghost function Without(dfs: seq<Mark>, i: int): seq<Mark>
    requires 0 <= i < |dfs|
  {
    dfs[..i] + dfs[i + 1..]
  }

  lemma AdvanceWithout(c: Start, s: Sweep, i: int)
    requires Placed(s) && 0 <= i < |s.dfs| - 1 && s.dfs[i].Pre? && Idle(c, s, s.dfs[i].h)
    ensures var s1 := Advance(c, s);
      && i < |s1.dfs| && s1.dfs[i] == s.dfs[i] && Idle(c, s1, s.dfs[i].h)
      && Advance(c, s.(dfs := Without(s.dfs, i))) == s1.(dfs := Without(s1.dfs, i))
  {
    var n := |s.dfs| - 1;
    var t := s.(dfs := Without(s.dfs, i));
    assert t.dfs[n - 1] == s.dfs[n];
    assert t.dfs[..n - 1] == Without(s.dfs[..n], i);
    var h := s.dfs[n].h;
    var more := [Post(h)] + if h in c.g then Kids(c.g[h]) else [];
    assert Without(s.dfs[..n] + more, i) == Without(s.dfs[..n], i) + more;
    assert s.dfs[..n] + [Post(h)] + (if h in c.g then Kids(c.g[h]) else []) == s.dfs[..n] + more;
    assert t.dfs[..n - 1] + [Post(h)] + (if h in c.g then Kids(c.g[h]) else []) == t.dfs[..n - 1] + more;
  }

  /** An entry for such a header can be left out. */
  lemma {:induction false} SearchWithout(c: Start, s: Sweep, i: int)
    requires Placed(s) && 0 <= i < |s.dfs| && s.dfs[i].Pre? && Idle(c, s, s.dfs[i].h)
    ensures Search(c, s) == Search(c, s.(dfs := Without(s.dfs, i)))
    decreases Unseen(c, s.met), |s.dfs|
  {
    AdvanceShrinks(c, s);
    if i == |s.dfs| - 1 {
      assert Advance(c, s) == s.(dfs := Without(s.dfs, i));
    } else {
      AdvanceWithout(c, s, i);
      SearchWithout(c, Advance(c, s), i);
    }
  }

  /** `kept` is `all` without some of the entries for such headers. */
  ghost predicate Thins(c: Start, s: Sweep, all: seq<Mark>, kept: seq<Mark>)
    decreases |all|
  {
    if all == [] then kept == []
    else
      var n, k := |all| - 1, |kept| - 1;
      || (k >= 0 && kept[k] == all[n] && Thins(c, s, all[..n], kept[..k]))
      || (all[n].Pre? && Idle(c, s, all[n].h) && Thins(c, s, all[..n], kept))
  }

  lemma {:induction false} SearchThinned(c: Start, s: Sweep, base: seq<Mark>, all: seq<Mark>, kept: seq<Mark>, tail: seq<Mark>)
    requires Placed(s) && Thins(c, s, all, kept)
    ensures Search(c, s.(dfs := base + all + tail)) == Search(c, s.(dfs := base + kept + tail))
    decreases |all|
  {
    if all == [] {
    } else {
      var n, k := |all| - 1, |kept| - 1;
      assert base + all + tail == base + all[..n] + ([all[n]] + tail);
      if k >= 0 && kept[k] == all[n] && Thins(c, s, all[..n], kept[..k]) {
        SearchThinned(c, s, base, all[..n], kept[..k], [all[n]] + tail);
        assert base + kept + tail == base + kept[..k] + ([all[n]] + tail);
      } else {
        var whole, at := base + all + tail, |base| + n;
        SearchWithout(c, s.(dfs := whole), at);
        assert Without(whole, at) == base + all[..n] + tail;
        SearchThinned(c, s, base, all[..n], kept, tail);
      }
    }
  }

  // ---------------------------------------------------------------- the program's search

  /** `met` lists what `num` numbers, in this order. */
  ghost predicate Lists(met: seq<int>, num: map<int, int>) {
    && (forall i | 0 <= i < |met| :: met[i] in num) && (forall x | x in num :: x in met)
    && (forall i, j | 0 <= i < j < |met| :: num[met[i]] < num[met[j]])
  }

  /** The program's stacks stand where the sweep stands, and every back edge so far was sound. */
  ghost predicate Follows(
    c: Start, dfs: seq<Mark>, pending: seq<int>, seg: map<int, int>, num: map<int, int>, s: Sweep)
  {
    && Placed(s) && s.dfs == dfs && s.pending == pending && s.seg == seg && s.sound
    && Lists(s.met, num) && Search(c, s) == Whole(c)
  }

  /** Leaving a header, and with the bottom its component. */
  lemma FollowPost(c: Start, dfs: seq<Mark>, pending: seq<int>, seg: map<int, int>, num: map<int, int>, s: Sweep)
    requires Follows(c, dfs, pending, seg, num, s) && dfs != [] && dfs[|dfs| - 1].Post?
    ensures Placed(s) && s.dfs == dfs
    ensures var n, k := |dfs| - 1, |pending| - 1;
      if pending != [] && pending[k] == dfs[n].h
      then Follows(c, dfs[..n], pending[..k], Below(seg, k), num, Advance(c, s))
      else Follows(c, dfs[..n], pending, seg, num, Advance(c, s))
  {
  }

  lemma FollowBack(c: Start, dfs: seq<Mark>, pending: seq<int>, seg: map<int, int>, num: map<int, int>, s: Sweep, t: int)
    requires Follows(c, dfs, pending, seg, num, s) && dfs != [] && dfs[|dfs| - 1] == Pre(t) && t in seg
    ensures Placed(s) && s.dfs == dfs
    ensures 0 <= seg[t] < |pending|
    ensures HighestBottom(seg, pending, seg[t]) ==>
      Follows(c, dfs[..|dfs| - 1], pending[..seg[t] + 1], Lowered(seg, seg[t]), num, Advance(c, s))
    ensures !HighestBottom(seg, pending, seg[t]) ==> !Whole(c).sound
  {
  }

  lemma FollowSkip(c: Start, dfs: seq<Mark>, pending: seq<int>, seg: map<int, int>, num: map<int, int>, s: Sweep, t: int)
    requires Follows(c, dfs, pending, seg, num, s) && dfs != [] && dfs[|dfs| - 1] == Pre(t)
    requires t !in seg && (Local(c, t) ==> t in num)
    ensures Placed(s) && s.dfs == dfs
    ensures Follows(c, dfs[..|dfs| - 1], pending, seg, num, Advance(c, s))
  {
  }

  lemma AdvanceMeets(c: Start, dfs: seq<Mark>, pending: seq<int>, seg: map<int, int>, num: map<int, int>, s: Sweep, t: int)
    requires Follows(c, dfs, pending, seg, num, s) && dfs != [] && dfs[|dfs| - 1] == Pre(t)
    requires t !in seg && t !in num && Local(c, t)
    ensures Placed(s) && s.dfs == dfs && Advance(c, s).seg == seg[t := |pending|]
    ensures forall x | x in num :: x in Advance(c, s).met
  {
  }

  lemma FollowDiscover(
    c: Start, dfs: seq<Mark>, pending: seq<int>, seg: map<int, int>, num: map<int, int>, s: Sweep, t: int, clock: int,
    kids: seq<Mark>)
    requires Follows(c, dfs, pending, seg, num, s) && dfs != [] && dfs[|dfs| - 1] == Pre(t)
    requires t !in seg && t !in num && Local(c, t) && t in c.g && forall x | x in num :: num[x] < clock
    requires Thins(c, Advance(c, s), Kids(c.g[t]), kids)
    ensures Placed(s) && s.dfs == dfs
    ensures var dfs' := dfs[..|dfs| - 1] + [Post(t)] + kids;
      Follows(c, dfs', pending + [t], seg[t := |pending|], num[t := clock], Advance(c, s).(dfs := dfs'))
  {
    hide Thins;
    var s1, base := Advance(c, s), dfs[..|dfs| - 1] + [Post(t)];
    assert s1 == Sweep(base + Kids(c.g[t]), pending + [t], seg[t := |pending|], s.met + [t], true);
    hide Advance;
    assert Search(c, s1.(dfs := base + kids)) == Whole(c) by {
      SearchThinned(c, s1, base, Kids(c.g[t]), kids, []);
      assert base + Kids(c.g[t]) + [] == s1.dfs;
      assert base + kids + [] == base + kids;
      assert s1 == s1.(dfs := s1.dfs);
    }
    hide Search, Whole;
    MetLater(num, s.met, t, clock);
  }

  lemma MetLater(num: map<int, int>, met: seq<int>, t: int, clock: int)
    requires Lists(met, num) && t !in num && forall x | x in num :: num[x] < clock
    ensures Lists(met + [t], num[t := clock])
  {
    var met' := met + [t];
    assert forall i | 0 <= i < |met| :: met'[i] == met[i];
    assert met'[|met|] == t;
    assert forall x | x in met :: x in met';
  }

  /** What was met earlier in the search comes earlier in the whole of it. */
  lemma MetInOrder(
    c: Start, dfs: seq<Mark>, pending: seq<int>, seg: map<int, int>, num: map<int, int>, s: Sweep, b: int, y: int)
    requires Follows(c, dfs, pending, seg, num, s) && b in num && y in num && num[b] < num[y]
    ensures Before(c, b, y)
  {
    var all := Whole(c).met;
    assert s.met <= all;
    var i :| 0 <= i < |s.met| && s.met[i] == b;
    var j :| 0 <= j < |s.met| && s.met[j] == y;
    assert all[i] == b && all[j] == y;
  }
}
