/**
 The two-phase collector (vbci/collect.cc:61-170) over regions with explicit header sets
 (vbci/region_rc.cc:43-82).  Finalizers may do anything that ends in further calls of `collect`.
 */
module Collection {
  import opened Collections

  datatype Item = HeaderItem(h: int) | RegionItem(r: int)

  /** What happens to objects, in order.  Freeing a region frees the headers it still lists. */
  datatype Event = Finalize(h: int) | FreeHeader(h: int) | FreeRegion(r: int, listed: set<int>)

  // ---------------------------------------------------------------- what a log says

  predicate Finalized(log: seq<Event>, h: int) {
    Finalize(h) in log
  }

  /** Event `e` frees header `h`. */
  predicate Frees(e: Event, h: int) {
    e == FreeHeader(h) || (e.FreeRegion? && h in e.listed)
  }

  ghost predicate Freed(log: seq<Event>, h: int) {
    exists i :: 0 <= i < |log| && Frees(log[i], h)
  }

  predicate Deletes(e: Event, r: int) {
    e.FreeRegion? && e.r == r
  }

  ghost predicate Deleted(log: seq<Event>, r: int) {
    exists i :: 0 <= i < |log| && Deletes(log[i], r)
  }

  /**
   No header is finalized twice or freed twice, no region object is deleted twice, no header is freed before
   it is finalized, and a region object is deleted only when every header that ever belonged to it is gone or goes with it.
   */
  ghost predicate Orderly(home: map<int, int>, log: seq<Event>) {
    && (forall i, j | 0 <= i < j < |log| && log[i].Finalize? :: log[j] != log[i])
    && (forall i, j, h | 0 <= i < j < |log| && Frees(log[i], h) :: !Frees(log[j], h))
    && (forall i, j, r | 0 <= i < j < |log| && Deletes(log[i], r) :: !Deletes(log[j], r))
    && (forall i, h | 0 <= i < |log| && Frees(log[i], h) :: Finalized(log[..i], h))
    && (forall i, h | 0 <= i < |log| && log[i].FreeRegion? && h in home && home[h] == log[i].r && h !in log[i].listed ::
          Freed(log[..i], h))
  }

  predicate Split(batch: seq<Event>, p: int, q: int) {
    && 0 <= p <= q <= |batch|
    && (forall i | 0 <= i < p :: batch[i].Finalize?)
    && (forall i | p <= i < q :: batch[i].FreeHeader?)
    && (forall i | q <= i < |batch| :: batch[i].FreeRegion?)
  }

  /** First finalizations, then headers are freed, then regions; and all that was finalized is freed. */
  ghost predicate TwoPhase(batch: seq<Event>) {
    && (exists p, q :: Split(batch, p, q))
    && forall h :: Finalized(batch, h) <==> Freed(batch, h)
  }

  lemma FreedMore(log: seq<Event>, e: Event, h: int)
    ensures Freed(log + [e], h) <==> Freed(log, h) || Frees(e, h)
    ensures Deleted(log + [e], h) <==> Deleted(log, h) || Deletes(e, h)
  {
    var more := log + [e];
    if Deleted(log, h) {
      var i :| 0 <= i < |log| && Deletes(log[i], h);
      assert Deletes(more[i], h);
    }
    if Deletes(e, h) {
      assert Deletes(more[|log|], h);
    }
    if Deleted(more, h) {
      var i :| 0 <= i < |more| && Deletes(more[i], h);
      assert i < |log| ==> Deletes(log[i], h);
    }
    if Freed(log, h) {
      var i :| 0 <= i < |log| && Frees(log[i], h);
      assert Frees(more[i], h);
    }
    if Frees(e, h) {
      assert Frees(more[|log|], h);
    }
    if Freed(more, h) {
      var i :| 0 <= i < |more| && Frees(more[i], h);
      assert i < |log| ==> Frees(log[i], h);
    }
  }

  lemma OrderlyMore(home: map<int, int>, log: seq<Event>, e: Event)
    requires Orderly(home, log)
    requires e.Finalize? ==> e !in log
    requires forall h | Frees(e, h) :: Finalized(log, h) && !Freed(log, h)
    requires e.FreeRegion? ==> !Deleted(log, e.r) && forall h | h in home && home[h] == e.r && h !in e.listed :: Freed(log, h)
    ensures Orderly(home, log + [e])
  {
    var more := log + [e];
    assert more[..|log|] == log;
    assert forall i | 0 <= i < |log| :: more[i] == log[i] && more[..i] == log[..i];
  }

  // ---------------------------------------------------------------- the collector's state

  /**
   The collector's fields, and the log.  `hdel` and `rdel` are what is still to be freed, with the item in
   hand; `todo` is what that item has still to finalize.
   */
  datatype State = State(
    home: map<int, int>, headers: map<int, set<int>>, finalizing: set<int>,
    worklist: seq<Item>, todo: set<int>, hdel: seq<int>, rdel: seq<int>, log: seq<Event>)

  predicate Distinct<T(==)>(s: seq<T>) {
    forall i, j | 0 <= i < j < |s| :: s[i] != s[j]
  }

  /** Listed headers are at home; items are of known headers and regions and in the right place. */
  ghost predicate Shaped(s: State) {
    && Distinct(s.worklist) && Distinct(s.hdel) && Distinct(s.rdel)
    && (forall h | h in s.home :: s.home[h] in s.headers)
    && (forall r, h | r in s.headers && h in s.headers[r] :: h in s.home && s.home[h] == r)
    && (forall h | HeaderItem(h) in s.worklist || h in s.hdel :: h in s.home && h !in s.headers[s.home[h]])
    && (forall h | h in s.hdel :: HeaderItem(h) !in s.worklist)
    && (forall r | RegionItem(r) in s.worklist || r in s.rdel :: r in s.headers && r in s.finalizing)
    && (forall r | r in s.rdel :: RegionItem(r) !in s.worklist)
    && (forall h | h in s.todo :: Doomed(s, h) && (h in s.headers[s.home[h]] ==> s.home[h] in s.finalizing))
  }

  /** Whether a header's finalization has been reached: its own item, or its region's, has been taken. */
  predicate Taken(s: State, h: int) {
    && h in s.home && s.home[h] in s.headers && h !in s.todo
    && if h in s.headers[s.home[h]] then s.home[h] in s.finalizing && RegionItem(s.home[h]) !in s.worklist
       else HeaderItem(h) !in s.worklist
  }

  /** Whether it still waits to be freed. */
  predicate Doomed(s: State, h: int) {
    && h in s.home && s.home[h] in s.headers
    && if h in s.headers[s.home[h]] then s.home[h] in s.rdel else h in s.hdel
  }

  /** What the log says of header `h`, and of region `h`. */
  ghost predicate TrackedAt(s: State, h: int) {
    && (Finalized(s.log, h) <==> Taken(s, h))
    && (Freed(s.log, h) <==> Taken(s, h) && !Doomed(s, h))
    && (Deleted(s.log, h) <==> h in s.headers && h in s.finalizing && RegionItem(h) !in s.worklist && h !in s.rdel)
  }

  ghost predicate Tracked(s: State) {
    forall h {:trigger TrackedAt(s, h)} :: TrackedAt(s, h)
  }

  ghost predicate Consistent(s: State) {
    Shaped(s) && Tracked(s) && Orderly(s.home, s.log)
  }

  /** The items that could still be taken up. */
  ghost function Open(s: State): set<Item> {
    (set r | r in s.headers && r !in s.finalizing :: RegionItem(r)) +
    (set h | h in s.home && s.home[h] in s.headers && s.home[h] !in s.finalizing && h in s.headers[s.home[h]] :: HeaderItem(h))
  }

  predicate Known(s: State, item: Item) {
    if item.HeaderItem? then item.h in s.home else item.r in s.headers
  }

  /** The state once `item` has been taken up. */
  function Taking(s: State, item: Item): State
    requires Known(s, item) && (item.HeaderItem? ==> s.home[item.h] in s.headers)
  {
    match item
    case HeaderItem(h) =>
      var r := s.home[h];
      s.(headers := s.headers[r := s.headers[r] - {h}], worklist := s.worklist + [item])
    case RegionItem(r) => s.(finalizing := s.finalizing + {r}, worklist := s.worklist + [item])
  }

  lemma TakingShapes(s: State, item: Item)
    requires Shaped(s) && Known(s, item) && item in Open(s)
    ensures item !in s.worklist && Shaped(Taking(s, item)) && Open(Taking(s, item)) < Open(s)
  {
    var to := Taking(s, item);
    assert item !in s.worklist;
    assert item !in Open(to) && Open(to) <= Open(s);
  }

  lemma TakenIsNotOpen(s: State, item: Item)
    requires Shaped(s) && Known(s, item)
    ensures item in Open(s) ==> item !in Open(Taking(s, item))
  {
  }

  lemma TakingTracks(s: State, item: Item)
    requires Shaped(s) && Tracked(s) && Known(s, item) && item in Open(s)
    ensures Tracked(Taking(s, item))
  {
    var to := Taking(s, item);
    forall h ensures TrackedAt(to, h) {
      assert TrackedAt(s, h);
      assert Taken(to, h) == Taken(s, h);
    }
  }

  lemma TakingKeeps(s: State, item: Item)
    requires Consistent(s) && Known(s, item) && item in Open(s)
    ensures Consistent(Taking(s, item)) && Open(Taking(s, item)) < Open(s)
  {
    TakingShapes(s, item);
    TakingTracks(s, item);
  }

  /** The oldest item, in hand: everything it stands for is still to be finalized. */
  function InHand(s: State): State
    requires s.worklist != [] && (s.worklist[0].RegionItem? ==> s.worklist[0].r in s.headers)
  {
    match s.worklist[0]
    case HeaderItem(h) => s.(worklist := s.worklist[1..], todo := {h}, hdel := s.hdel + [h])
    case RegionItem(r) => s.(worklist := s.worklist[1..], todo := s.headers[r], rdel := s.rdel + [r])
  }

  lemma InHandShapes(s: State)
    requires Shaped(s) && s.worklist != [] && s.todo == {}
    ensures Known(s, s.worklist[0]) && s.worklist[0] !in s.worklist[1..] && Shaped(InHand(s))
  {
    hide Distinct;
    TailItems(s.worklist);
    match s.worklist[0] {
      case HeaderItem(h) => OneMoreItem(s.hdel, h);
      case RegionItem(r) => OneMoreItem(s.rdel, r);
    }
  }

  lemma TailItems<T>(s: seq<T>)
    requires Distinct(s) && s != []
    ensures Distinct(s[1..]) && s[0] in s && s[0] !in s[1..] && forall x :: x in s <==> x == s[0] || x in s[1..]
  {
  }

  lemma OneMoreItem<T>(s: seq<T>, x: T)
    requires Distinct(s)
    ensures x !in s ==> Distinct(s + [x])
    ensures forall y :: y in s + [x] <==> y == x || y in s
  {
  }

  lemma InHandKeeps(s: State)
    requires Consistent(s) && s.worklist != [] && s.todo == {}
    ensures Known(s, s.worklist[0]) && Consistent(InHand(s)) && Open(InHand(s)) == Open(s)
  {
    hide Orderly;
    InHandShapes(s);
    var item, to := s.worklist[0], InHand(s);
    assert item in s.worklist && forall x :: x in s.worklist <==> x == item || x in to.worklist;
    forall h ensures TrackedAt(to, h) {
      assert TrackedAt(s, h);
    }
  }

  function FinalizedOne(s: State, h: int): State {
    s.(todo := s.todo - {h}, log := s.log + [Finalize(h)])
  }

  lemma FinalizeKeeps(s: State, h: int)
    requires Consistent(s) && h in s.todo
    requires if h in s.headers[s.home[h]] then RegionItem(s.home[h]) !in s.worklist else HeaderItem(h) !in s.worklist
    ensures Consistent(FinalizedOne(s, h)) && Open(FinalizedOne(s, h)) == Open(s)
  {
    var to := FinalizedOne(s, h);
    assert TrackedAt(s, h);
    OrderlyMore(s.home, s.log, Finalize(h));
    forall x ensures TrackedAt(to, x) {
      assert TrackedAt(s, x);
      FreedMore(s.log, Finalize(h), x);
    }
  }

  function FreedOne(s: State): State
    requires s.hdel != []
  {
    s.(hdel := s.hdel[1..], log := s.log + [FreeHeader(s.hdel[0])])
  }

  lemma FreeHeaderKeeps(s: State)
    requires Consistent(s) && s.hdel != [] && s.todo == {} && s.worklist == []
    ensures Consistent(FreedOne(s))
  {
    var h, to := s.hdel[0], FreedOne(s);
    assert h in s.hdel && h !in to.hdel;
    assert forall x :: x in s.hdel <==> x == h || x in to.hdel;
    assert TrackedAt(s, h);
    OrderlyMore(s.home, s.log, FreeHeader(h));
    forall x ensures TrackedAt(to, x) {
      assert TrackedAt(s, x);
      FreedMore(s.log, FreeHeader(h), x);
    }
  }

  function ReleasedOne(s: State): State
    requires s.rdel != [] && s.rdel[0] in s.headers
  {
    s.(rdel := s.rdel[1..], log := s.log + [FreeRegion(s.rdel[0], s.headers[s.rdel[0]])])
  }

  lemma ReleaseKeeps(s: State)
    requires Consistent(s) && s.rdel != [] && s.hdel == [] && s.todo == {} && s.worklist == []
    ensures s.rdel[0] in s.headers && Consistent(ReleasedOne(s))
  {
    var r := s.rdel[0];
    assert r in s.rdel;
    var to, e := ReleasedOne(s), FreeRegion(r, s.headers[r]);
    assert forall x :: x in s.rdel <==> x == r || x in to.rdel;
    assert r !in to.rdel;
    forall h | Frees(e, h) ensures Finalized(s.log, h) && !Freed(s.log, h) {
      assert TrackedAt(s, h);
    }
    forall h | h in s.home && s.home[h] == r && h !in e.listed ensures Freed(s.log, h) {
      assert TrackedAt(s, h);
    }
    assert TrackedAt(s, r);
    OrderlyMore(s.home, s.log, e);
    forall x ensures TrackedAt(to, x) {
      assert TrackedAt(s, x);
      FreedMore(s.log, e, x);
    }
  }

  // ---------------------------------------------------------------- batches

  lemma FinalizedSplits(a: seq<Event>, b: seq<Event>, h: int)
    ensures Finalized(a + b, h) <==> Finalized(a, h) || Finalized(b, h)
    ensures Freed(a + b, h) <==> Freed(a, h) || Freed(b, h)
  {
    if Freed(a, h) {
      var i :| 0 <= i < |a| && Frees(a[i], h);
      assert Frees((a + b)[i], h);
    }
    if Freed(b, h) {
      var i :| 0 <= i < |b| && Frees(b[i], h);
      assert Frees((a + b)[|a| + i], h);
    }
    if Freed(a + b, h) {
      var i :| 0 <= i < |a + b| && Frees((a + b)[i], h);
      assert if i < |a| then Frees(a[i], h) else Frees(b[i - |a|], h);
    }
  }

  /** Between two idle states, what is finalized is what is freed. */
  lemma IdleBatch(s: State, to: State, batch: seq<Event>)
    requires Consistent(s) && s.worklist == [] && s.todo == {} && s.hdel == [] && s.rdel == []
    requires Consistent(to) && to.worklist == [] && to.todo == {} && to.hdel == [] && to.rdel == []
    requires to.home == s.home && to.log == s.log + batch
    ensures forall h :: Finalized(batch, h) <==> Freed(batch, h)
  {
    forall h ensures Finalized(batch, h) <==> Freed(batch, h) {
      assert TrackedAt(s, h) && TrackedAt(to, h);
      FinalizedSplits(s.log, batch, h);
      NotTwice(to.home, s.log, batch, h);
    }
  }

  lemma NotTwice(home: map<int, int>, a: seq<Event>, b: seq<Event>, h: int)
    requires Orderly(home, a + b)
    ensures Finalized(a, h) ==> !Finalized(b, h)
    ensures Freed(a, h) ==> !Freed(b, h)
  {
    var all := a + b;
    if Finalized(a, h) {
      var i :| 0 <= i < |a| && a[i] == Finalize(h);
      assert all[i] == Finalize(h);
      forall j | 0 <= j < |b| ensures b[j] != Finalize(h) {
        assert all[|a| + j] == b[j];
      }
    }
    if Freed(a, h) {
      var i :| 0 <= i < |a| && Frees(a[i], h);
      assert Frees(all[i], h);
      forall j | 0 <= j < |b| ensures !Frees(b[j], h) {
        assert all[|a| + j] == b[j];
      }
    }
  }

  // ---------------------------------------------------------------- what the finalizers ask for

  /** Item `it` asks for the finalization of header `h`. */
  predicate Covers(home: map<int, int>, it: Item, h: int) {
    it == HeaderItem(h) || (h in home && it == RegionItem(home[h]))
  }

  /** `it` is what the batch was started with, or an object finalized at a position in `[b, n)` asked for it. */
  ghost predicate AskedBy(calls: int -> seq<Item>, first: Item, log: seq<Event>, b: int, n: int, it: Item) {
    it == first || exists j :: b <= j < n && AsksAt(calls, log, j, it)
  }

  predicate AsksAt(calls: int -> seq<Item>, log: seq<Event>, j: int, it: Item) {
    0 <= j < |log| && log[j].Finalize? && it in calls(log[j].h)
  }

  /** The finalization at position `i`, if it is one, was asked for before. */
  ghost predicate Reasoned(home: map<int, int>, calls: int -> seq<Item>, first: Item, log: seq<Event>, b: int, i: int) {
    0 <= i < |log| && (log[i].Finalize? ==> exists it :: Covers(home, it, log[i].h) && AskedBy(calls, first, log, b, i, it))
  }

  /** Every finalization of the batch was asked for by the first item or by an earlier finalization. */
  ghost predicate Causal(home: map<int, int>, calls: int -> seq<Item>, first: Item, batch: seq<Event>) {
    forall i {:trigger Reasoned(home, calls, first, batch, 0, i)} | 0 <= i < |batch| :: Reasoned(home, calls, first, batch, 0, i)
  }

  /** What the finalization at position `i` asked for has been taken up. */
  ghost predicate AnsweredAt(calls: int -> seq<Item>, s: State, i: int) {
    0 <= i < |s.log| && (s.log[i].Finalize? ==> forall it | it in calls(s.log[i].h) :: it !in Open(s))
  }

  /** Since position `b` of the log: everything finalized or waiting was asked for, and everything asked for was taken up. */
  ghost predicate Driven(calls: int -> seq<Item>, first: Item, b: int, s: State) {
    && 0 <= b <= |s.log|
    && (forall i {:trigger Reasoned(s.home, calls, first, s.log, b, i)} | b <= i < |s.log| ::
          Reasoned(s.home, calls, first, s.log, b, i))
    && (forall it | it in s.worklist :: AskedBy(calls, first, s.log, b, |s.log|, it))
    && (forall i {:trigger AnsweredAt(calls, s, i)} | b <= i < |s.log| :: AnsweredAt(calls, s, i))
  }

  lemma AskedLater(calls: int -> seq<Item>, first: Item, log: seq<Event>, more: seq<Event>, b: int, n: int, it: Item)
    requires log <= more && n <= |log| && AskedBy(calls, first, log, b, n, it)
    ensures AskedBy(calls, first, more, b, n, it)
  {
    if it != first {
      var j :| b <= j < n && AsksAt(calls, log, j, it);
      assert AsksAt(calls, more, j, it);
    }
  }

  lemma ReasonedLater(
    home: map<int, int>, calls: int -> seq<Item>, first: Item, log: seq<Event>, more: seq<Event>, b: int, i: int)
    requires log <= more && 0 <= i < |log| && Reasoned(home, calls, first, log, b, i)
    ensures Reasoned(home, calls, first, more, b, i)
  {
    if log[i].Finalize? {
      var it :| Covers(home, it, log[i].h) && AskedBy(calls, first, log, b, i, it);
      AskedLater(calls, first, log, more, b, i, it);
    }
  }

  /** One more finalization, asked for by `it`, whose own requests have been taken up. */
  lemma DrivenMore(calls: int -> seq<Item>, first: Item, b: int, s: State, to: State, h: int, it: Item)
    requires Driven(calls, first, b, s) && AskedBy(calls, first, s.log, b, |s.log|, it) && Covers(s.home, it, h)
    requires to.home == s.home && to.log == s.log + [Finalize(h)] && Open(to) <= Open(s)
    requires forall x | x in to.worklist :: x in s.worklist || x in calls(h)
    requires forall x | x in calls(h) :: x !in Open(to)
    ensures Driven(calls, first, b, to)
  {
    hide Covers, Open;
    var n := |s.log|;
    forall i | b <= i < |to.log| ensures Reasoned(to.home, calls, first, to.log, b, i) && AnsweredAt(calls, to, i) {
      if i < n {
        assert Reasoned(s.home, calls, first, s.log, b, i) && AnsweredAt(calls, s, i);
        ReasonedLater(s.home, calls, first, s.log, to.log, b, i);
      } else {
        AskedLater(calls, first, s.log, to.log, b, n, it);
      }
    }
    forall x | x in to.worklist ensures AskedBy(calls, first, to.log, b, |to.log|, x) {
      if x in calls(h) {
        assert AsksAt(calls, to.log, n, x);
      } else {
        AskedLater(calls, first, s.log, to.log, b, n, x);
        AskedWider(calls, first, to.log, b, n, n + 1, x);
      }
    }
  }

  lemma AskedWider(calls: int -> seq<Item>, first: Item, log: seq<Event>, b: int, n: int, m: int, it: Item)
    requires n <= m && AskedBy(calls, first, log, b, n, it)
    ensures AskedBy(calls, first, log, b, m, it)
  {
  }

  lemma DrivenAtFirst(calls: int -> seq<Item>, first: Item, s: State)
    requires forall it | it in s.worklist :: it == first
    ensures Driven(calls, first, |s.log|, s)
  {
  }

  lemma DrivenInHand(calls: int -> seq<Item>, first: Item, b: int, s: State)
    requires Consistent(s) && s.worklist != [] && s.todo == {} && Driven(calls, first, b, s)
    ensures Known(s, s.worklist[0]) && Driven(calls, first, b, InHand(s))
    ensures AskedBy(calls, first, s.log, b, |s.log|, s.worklist[0])
  {
    hide AskedBy, Reasoned, Consistent;
    InHandKeeps(s);
    assert s.worklist[0] in s.worklist;
    forall i | b <= i < |s.log| ensures AnsweredAt(calls, InHand(s), i) {
      assert AnsweredAt(calls, s, i);
    }
    forall it | it in InHand(s).worklist ensures it in s.worklist {
    }
  }

  /** The second phase finalizes nothing. */
  lemma DrivenFreed(calls: int -> seq<Item>, first: Item, b: int, s: State, to: State)
    requires Driven(calls, first, b, s) && to.home == s.home && to.worklist == [] && Open(to) == Open(s) && s.log <= to.log
    requires forall i | |s.log| <= i < |to.log| :: !to.log[i].Finalize?
    ensures Driven(calls, first, b, to)
  {
    forall i | b <= i < |to.log| ensures Reasoned(to.home, calls, first, to.log, b, i) && AnsweredAt(calls, to, i) {
      if i < |s.log| {
        assert Reasoned(s.home, calls, first, s.log, b, i) && AnsweredAt(calls, s, i);
        ReasonedLater(s.home, calls, first, s.log, to.log, b, i);
      }
    }
  }

  /** When nothing waits, what is not open is gone. */
  lemma IdleIsGone(s: State, item: Item)
    requires Consistent(s) && s.worklist == [] && s.todo == {} && s.hdel == [] && s.rdel == []
    requires Known(s, item) && item !in Open(s)
    ensures Gone(s.home, s.log, item)
  {
    hide Orderly;
    match item {
      case HeaderItem(h) =>
        assert TrackedAt(s, h);
      case RegionItem(r) =>
        assert TrackedAt(s, r);
        forall h | h in s.home && s.home[h] == r ensures Freed(s.log, h) {
          assert TrackedAt(s, h);
        }
    }
  }

  /** What the finalizers of a batch asked for is gone, and nothing else was finalized. */
  lemma DrivenBatch(calls: int -> seq<Item>, first: Item, old': seq<Event>, batch: seq<Event>, s: State)
    requires Consistent(s) && s.worklist == [] && s.todo == {} && s.hdel == [] && s.rdel == []
    requires s.log == old' + batch && Driven(calls, first, |old'|, s)
    requires forall h, i | h in s.home && 0 <= i < |calls(h)| :: Known(s, calls(h)[i])
    ensures Causal(s.home, calls, first, batch)
    ensures forall h, i | Finalized(batch, h) && 0 <= i < |calls(h)| :: Gone(s.home, s.log, calls(h)[i])
  {
    var b := |old'|;
    forall i | 0 <= i < |batch| ensures Reasoned(s.home, calls, first, batch, 0, i) {
      assert Reasoned(s.home, calls, first, s.log, b, b + i) && batch[i] == s.log[b + i];
      if batch[i].Finalize? {
        var it :| Covers(s.home, it, batch[i].h) && AskedBy(calls, first, s.log, b, b + i, it);
        AskedInBatch(calls, first, old', batch, i, it);
      }
    }
    forall h, i | Finalized(batch, h) && 0 <= i < |calls(h)| ensures Gone(s.home, s.log, calls(h)[i]) {
      var j :| 0 <= j < |batch| && batch[j] == Finalize(h);
      assert s.log[b + j] == Finalize(h);
      assert AnsweredAt(calls, s, b + j);
      assert TrackedAt(s, h) && Finalized(s.log, h);
      IdleIsGone(s, calls(h)[i]);
    }
  }

  lemma AskedInBatch(calls: int -> seq<Item>, first: Item, old': seq<Event>, batch: seq<Event>, i: int, it: Item)
    requires 0 <= i <= |batch| && AskedBy(calls, first, old' + batch, |old'|, |old'| + i, it)
    ensures AskedBy(calls, first, batch, 0, i, it)
  {
    if it != first {
      var j :| |old'| <= j < |old'| + i && AsksAt(calls, old' + batch, j, it);
      assert AsksAt(calls, batch, j - |old'|, it);
    }
  }

  // ---------------------------------------------------------------- the collector

  class Collector {
    /** The region of every region-owned header, and the headers each region lists. */
    const home: map<int, int>
    var headers: map<int, set<int>>
    var finalizing: set<int>

    var worklist: seq<Item>
    var headersToDelete: seq<int>
    var regionsToDelete: seq<int>
    var inCollection: bool

    ghost var log: seq<Event>

    /** The fields, given what is in hand. */
    ghost function Snap(log: seq<Event>, todo: set<int>, hdel: seq<int>, rdel: seq<int>): State
      reads this
    {
      State(home, headers, finalizing, worklist, todo, hdel, rdel, log)
    }

    ghost predicate Shows(s: State)
      reads this
    {
      Consistent(s) && s == Snap(log, s.todo, s.hdel, s.rdel)
    }

    ghost predicate Idle()
      reads this
    {
      && Shows(Snap(log, {}, [], [])) && worklist == [] && headersToDelete == [] && regionsToDelete == []
      && !inCollection
    }

    constructor (regions: map<int, set<int>>, homes: map<int, int>)
      requires forall h | h in homes :: homes[h] in regions && h in regions[homes[h]]
      requires forall r, h | r in regions && h in regions[r] :: h in homes && homes[h] == r
      ensures Idle() && log == [] && headers == regions && home == homes && finalizing == {}
    {
      home, headers, finalizing := homes, regions, {};
      worklist, headersToDelete, regionsToDelete, inCollection := [], [], [], false;
      log := [];
    }

    // -------------------------------------------------------------- region_rc.cc

    /** `RegionRC::remove`. */
    method Remove(r: int, h: int) returns (removed: bool)
      requires r in headers
      modifies `headers
      ensures removed == (h in old(headers)[r]) && headers == old(headers)[r := old(headers)[r] - {h}]
    {
      removed := h in headers[r];
      headers := headers[r := headers[r] - {h}];
    }

    /** `RegionRC::begin_finalizing`. */
    method BeginFinalizing(r: int) returns (began: bool)
      modifies `finalizing
      ensures began == (r !in old(finalizing)) && finalizing == old(finalizing) + {r}
    {
      began := r !in finalizing;
      finalizing := finalizing + {r};
    }

    // -------------------------------------------------------------- collect

    /** `collect` up to the drain: take an item up, unless its region is being finalized or it was taken before. */
    method Enqueue(item: Item, ghost s: State) returns (taken: bool, ghost to: State)
      requires Shows(s) && Known(s, item)
      modifies `headers, `finalizing, `worklist
      ensures Shows(to) && (taken <==> item in Open(s))
      ensures item in Open(s) ==> to == Taking(s, item) && Open(to) < Open(s)
      ensures item !in Open(s) ==> to == s
    {
      taken, to := false, s;
      if item in Open(s) {
        TakingKeeps(s, item);
        to := Taking(s, item);
      }
      match item {
        case HeaderItem(h) =>
          var r := home[h];
          if r in finalizing {
            return;
          }
          var removed := Remove(r, h);
          if !removed {
            assert old(headers)[r] - {h} == old(headers)[r];
            assert headers == old(headers);
            return;
          }
        case RegionItem(r) =>
          var began := BeginFinalizing(r);
          if !began {
            assert finalizing == old(finalizing);
            return;
          }
      }
      worklist := worklist + [item];
      taken := true;
    }

    /** Finalize a header; its finalizer and the fields it drops make the calls of `collect` in `calls`. */
    method FinalizeHeader(h: int, calls: seq<Item>, ghost s: State) returns (ghost to: State)
      requires Shows(s) && h in s.todo && forall i | 0 <= i < |calls| :: Known(s, calls[i])
      requires if h in s.headers[s.home[h]] then RegionItem(s.home[h]) !in s.worklist else HeaderItem(h) !in s.worklist
      modifies `headers, `finalizing, `worklist, `log
      ensures Shows(to) && SameHand(s, to, h) && log == old(log) + [Finalize(h)]
      ensures Open(to) <= Open(s) && (Open(to) == Open(s) ==> to.worklist == s.worklist)
      ensures forall x | x in to.worklist :: x in s.worklist || x in calls
      ensures forall x | x in calls :: x !in Open(to)
    {
      hide Shaped, Tracked, Orderly;
      FinalizeKeeps(s, h);
      log := log + [Finalize(h)];
      to := FinalizedOne(s, h);
      for i := 0 to |calls|
        invariant Shows(to) && SameHand(s, to, h) && log == old(log) + [Finalize(h)]
        invariant Open(to) <= Open(s) && (Open(to) == Open(s) ==> to.worklist == s.worklist)
        invariant forall x | x in to.worklist :: x in s.worklist || x in calls
        invariant forall k | 0 <= k < i :: calls[k] !in Open(to)
      {
        var taken;
        TakenIsNotOpen(to, calls[i]);
        taken, to := Enqueue(calls[i], to);
      }
    }

    /** `RegionRC::finalize_contents`: the listed headers, in any order; the list does not change meanwhile. */
    method FinalizeContents(r: int, calls: int -> seq<Item>, ghost s: State, ghost first: Item, ghost b: int) returns (ghost to: State)
      requires Shows(s) && r in headers && r in finalizing && RegionItem(r) !in worklist && s.todo == headers[r]
      requires forall h, i | h in home && 0 <= i < |calls(h)| :: Known(s, calls(h)[i])
      requires Driven(calls, first, b, s) && AskedBy(calls, first, s.log, b, |s.log|, RegionItem(r))
      modifies `headers, `finalizing, `worklist, `log
      ensures Shows(to) && to.todo == {} && Later(s, to)
      ensures OnlyFinalizes(old(log), log) && Driven(calls, first, b, to)
    {
      hide Tracked, Orderly, Driven, AskedBy;
      to := s;
      var todo := headers[r];
      ghost var listed := headers[r];
      while todo != {}
        invariant Shows(to) && to.todo == todo <= listed && Later(s, to)
        invariant r in headers && headers[r] == listed && r in finalizing && RegionItem(r) !in worklist
        invariant OnlyFinalizes(old(log), log)
        invariant Driven(calls, first, b, to) && AskedBy(calls, first, log, b, |log|, RegionItem(r))
        decreases todo
      {
        ghost var some := Pick(todo);
        var h :| h in todo;
        ghost var was := to;
        KnownLater(s, to, calls(h));
        assert h in listed && home[h] == r;
        to := FinalizeHeader(h, calls(h), to);
        LaterStep(s, was, to, h);
        DrivenMore(calls, first, b, was, to, h, RegionItem(r));
        AskedLater(calls, first, was.log, log, b, |was.log|, RegionItem(r));
        AskedWider(calls, first, log, b, |was.log|, |log|, RegionItem(r));
        todo := todo - {h};
      }
    }

    /** One turn of phase 1: the oldest item is finalized and goes on the list of its kind. */
    method Turn(calls: int -> seq<Item>, ghost s: State, ghost first: Item, ghost b: int) returns (ghost to: State)
      requires Shows(s) && s.todo == {} && s.hdel == headersToDelete && s.rdel == regionsToDelete && worklist != []
      requires forall h, i | h in home && 0 <= i < |calls(h)| :: Known(s, calls(h)[i])
      requires Driven(calls, first, b, s)
      modifies `headers, `finalizing, `worklist, `log, `headersToDelete, `regionsToDelete
      ensures Shows(to) && to.todo == {} && to.hdel == headersToDelete && to.rdel == regionsToDelete
      ensures to.home == s.home && Shrunk(s, to)
      ensures Open(to) < Open(s) || (Open(to) == Open(s) && |to.worklist| < |s.worklist|)
      ensures OnlyFinalizes(old(log), log) && Driven(calls, first, b, to)
    {
      hide Tracked, Orderly, Driven, AskedBy;
      DrivenInHand(calls, first, b, s);
      InHandKeeps(s);
      var n := worklist[0];
      worklist := worklist[1..];
      ghost var hand := InHand(s);
      match n {
        case HeaderItem(h) =>
          KnownLater(s, hand, calls(h));
          to := FinalizeHeader(h, calls(h), hand);
          DrivenMore(calls, first, b, hand, to, h, n);
          assert to.todo == {};
          headersToDelete := headersToDelete + [h];
        case RegionItem(r) =>
          to := FinalizeContents(r, calls, hand, first, b);
          regionsToDelete := regionsToDelete + [r];
      }
    }

    /** Phase 1: finalize until nothing is left to do. */
    method FinalizeAll(calls: int -> seq<Item>, ghost s: State, ghost first: Item, ghost b: int) returns (ghost to: State)
      requires Shows(s) && s.todo == {} && s.hdel == headersToDelete && s.rdel == regionsToDelete
      requires forall h, i | h in home && 0 <= i < |calls(h)| :: Known(s, calls(h)[i])
      requires Driven(calls, first, b, s)
      modifies `headers, `finalizing, `worklist, `log, `headersToDelete, `regionsToDelete
      ensures Shows(to) && to.todo == {} && to.hdel == headersToDelete && to.rdel == regionsToDelete
      ensures Driven(calls, first, b, to)
      ensures worklist == [] && to.home == s.home && Shrunk(s, to) && OnlyFinalizes(old(log), log)
      ensures Open(to) <= Open(s)
    {
      to := s;
      while worklist != []
        invariant Shows(to) && to.todo == {} && to.hdel == headersToDelete && to.rdel == regionsToDelete
        invariant to.home == s.home && Shrunk(s, to) && OnlyFinalizes(old(log), log) && Driven(calls, first, b, to)
        invariant Open(to) <= Open(s)
        decreases Open(to), |to.worklist|
      {
        forall h | h in home ensures forall i | 0 <= i < |calls(h)| :: Known(to, calls(h)[i]) {
          KnownLater(s, to, calls(h));
        }
        to := Turn(calls, to, first, b);
      }
    }

    /** `rfree`: the header is not listed any more, so only its memory goes. */
    method FreeHeaders(ghost s: State) returns (ghost to: State)
      requires Shows(s) && s.todo == {} && s.hdel == headersToDelete && worklist == []
      modifies `headers, `log
      ensures Shows(to) && to == s.(hdel := [], log := log)
      ensures old(log) <= log && forall i | |old(log)| <= i < |log| :: log[i].FreeHeader?
    {
      to := s;
      for i := 0 to |headersToDelete|
        invariant Shows(to) && to == s.(hdel := headersToDelete[i..], log := log)
        invariant old(log) <= log && forall i | |old(log)| <= i < |log| :: log[i].FreeHeader?
      {
        var h := headersToDelete[i];
        assert h in to.hdel;
        FreeHeaderKeeps(to);
        assert headers[home[h]] - {h} == headers[home[h]];
        headers := headers[home[h] := headers[home[h]] - {h}];
        log := log + [FreeHeader(h)];
        to := FreedOne(to);
      }
    }

    /** `release_dead_objects`: the headers still listed, and the region object. */
    method ReleaseRegions(ghost s: State) returns (ghost to: State)
      requires Shows(s) && s.todo == {} && s.hdel == [] && s.rdel == regionsToDelete && worklist == []
      modifies `log
      ensures Shows(to) && to == s.(rdel := [], log := log)
      ensures old(log) <= log && forall i | |old(log)| <= i < |log| :: log[i].FreeRegion?
    {
      to := s;
      for i := 0 to |regionsToDelete|
        invariant Shows(to) && to == s.(rdel := regionsToDelete[i..], log := log)
        invariant old(log) <= log && forall i | |old(log)| <= i < |log| :: log[i].FreeRegion?
      {
        var r := regionsToDelete[i];
        assert r in to.rdel;
        ReleaseKeeps(to);
        log := log + [FreeRegion(r, headers[r])];
        to := ReleasedOne(to);
      }
    }

    /** `drain_work_list`: phase 1, then phase 2.  Freeing memory takes up no new items, so one round is enough. */
    method Drain(calls: int -> seq<Item>, ghost s: State, ghost first: Item) returns (ghost to: State, ghost p: int, ghost q: int)
      requires Shows(s) && s.todo == {} && s.hdel == headersToDelete == [] && s.rdel == regionsToDelete == []
      requires forall h, i | h in home && 0 <= i < |calls(h)| :: Known(s, calls(h)[i])
      requires forall it | it in s.worklist :: it == first
      modifies this
      ensures Idle() && to == Snap(log, {}, [], []) && to.home == s.home && Shrunk(s, to) && Open(to) <= Open(s)
      ensures old(log) <= log && Split(log[|old(log)|..], p, q) && Driven(calls, first, |old(log)|, to)
    {
      hide Driven, Reasoned, AnsweredAt, Shaped, Tracked, Orderly;
      inCollection := true;
      DrivenAtFirst(calls, first, s);
      to := FinalizeAll(calls, s, first, |log|);
      ghost var l1, mid := log, to;
      to := FreeHeaders(to);
      ghost var l2 := log;
      to := ReleaseRegions(to);
      headersToDelete := [];
      regionsToDelete := [];
      inCollection := false;
      DrivenFreed(calls, first, |old(log)|, mid, to);
      Phases(old(log), l1, l2, log);
      p, q := |l1| - |old(log)|, |l2| - |old(log)|;
    }

    /**
     `collect` outside a collection, for any finalizers: one two-phase batch, after which nothing is left to
     do.  The item asked for is gone, and so is everything that the finalizers of the batch asked for;
     nothing was finalized that none of these asked for.
     */
    method Collect(item: Item, calls: int -> seq<Item>) returns (ghost batch: seq<Event>)
      requires Idle() && Known(Snap(log, {}, [], []), item)
      requires forall h, i | h in home && 0 <= i < |calls(h)| :: Known(Snap(log, {}, [], []), calls(h)[i])
      modifies this
      ensures Idle() && log == old(log) + batch && TwoPhase(batch) && Orderly(home, log)
      ensures Gone(home, log, item)
      ensures forall h, i | Finalized(batch, h) && 0 <= i < |calls(h)| :: Gone(home, log, calls(h)[i])
      ensures Causal(home, calls, item, batch)
      ensures item !in old(Open(Snap(log, {}, [], []))) ==> batch == []
    {
      hide Shaped, Tracked, Orderly, Finalized, Freed, Gone, Driven, Causal, Reasoned;
      ghost var s := Snap(log, {}, [], []);
      ghost var to, p, q;
      var taken;
      TakenIsNotOpen(s, item);
      taken, to := Enqueue(item, s);
      batch := [];
      if taken {
        ghost var mid := to;
        forall h | h in home ensures forall i | 0 <= i < |calls(h)| :: Known(mid, calls(h)[i]) {
          KnownLater(s, mid, calls(h));
        }
        to, p, q := Drain(calls, mid, item);
        batch := log[|old(log)|..];
      } else {
        DrivenAtFirst(calls, item, s);
        assert Split(batch, 0, 0);
      }
      assert log == old(log) + batch;
      IdleBatch(s, to, batch);
      forall h | h in home ensures forall i | 0 <= i < |calls(h)| :: Known(to, calls(h)[i]) {
        KnownLater(s, to, calls(h));
      }
      KnownLater(s, to, [item]);
      assert [item][0] == item;
      IdleIsGone(to, item);
      DrivenBatch(calls, item, old(log), batch, to);
    }
  }

  /** Headers are only ever taken off the lists, and regions stay in finalization. */
  ghost predicate Shrunk(s: State, to: State) {
    && to.headers.Keys == s.headers.Keys && s.finalizing <= to.finalizing
    && forall r | r in s.headers :: r in to.headers && to.headers[r] <= s.headers[r]
  }

  /** What was to be collected has been freed. */
  ghost predicate Gone(home: map<int, int>, log: seq<Event>, item: Item) {
    match item
    case HeaderItem(h) => Freed(log, h)
    case RegionItem(r) => Deleted(log, r) && forall h | h in home && home[h] == r :: Freed(log, h)
  }

  ghost predicate OnlyFinalizes(before: seq<Event>, after: seq<Event>) {
    before <= after && forall i | |before| <= i < |after| :: after[i].Finalize?
  }

  /** What finalizations may do besides finishing the item in hand. */
  ghost predicate Later(s: State, to: State) {
    && to.home == s.home && Shrunk(s, to)
    && (forall r | r in s.finalizing && r in s.headers :: to.headers[r] == s.headers[r])
    && to.hdel == s.hdel && to.rdel == s.rdel
    && s.worklist <= to.worklist && (forall item | item in to.worklist && item !in s.worklist :: item in Open(s))
    && Open(to) <= Open(s) && (Open(to) == Open(s) ==> to.worklist == s.worklist)
  }

  lemma LaterStep(s: State, mid: State, to: State, h: int)
    requires Later(s, mid) && SameHand(mid, to, h)
    requires Open(to) <= Open(mid) && (Open(to) == Open(mid) ==> to.worklist == mid.worklist)
    ensures Later(s, to)
  {
    assert forall item | item in to.worklist && item !in s.worklist :: item in Open(s);
  }

  lemma KnownLater(s: State, to: State, calls: seq<Item>)
    requires to.home == s.home && to.headers.Keys == s.headers.Keys && forall i | 0 <= i < |calls| :: Known(s, calls[i])
    ensures forall i | 0 <= i < |calls| :: Known(to, calls[i])
  {
    assert forall r :: r in s.headers.Keys <==> r in s.headers;
    assert forall r :: r in to.headers.Keys <==> r in to.headers;
  }

  /** The item in hand is the same, `h` has been finalized, and nothing that is being finalized has changed. */
  ghost predicate SameHand(s: State, to: State, h: int) {
    && to.home == s.home && Shrunk(s, to)
    && (forall r | r in s.finalizing && r in s.headers :: to.headers[r] == s.headers[r])
    && to.todo == s.todo - {h} && to.hdel == s.hdel && to.rdel == s.rdel
    && s.worklist <= to.worklist
    && (forall item | item in to.worklist && item !in s.worklist :: item in Open(s))
  }

  lemma Phases(l0: seq<Event>, l1: seq<Event>, l2: seq<Event>, l3: seq<Event>)
    requires OnlyFinalizes(l0, l1) && l1 <= l2 <= l3
    requires forall i | |l1| <= i < |l2| :: l2[i].FreeHeader?
    requires forall i | |l2| <= i < |l3| :: l3[i].FreeRegion?
    ensures l0 <= l3 && Split(l3[|l0|..], |l1| - |l0|, |l2| - |l0|)
  {
    var batch := l3[|l0|..];
    forall i | 0 <= i < |batch|
      ensures i < |l1| - |l0| ==> batch[i].Finalize?
      ensures |l1| - |l0| <= i < |l2| - |l0| ==> batch[i].FreeHeader?
      ensures |l2| - |l0| <= i ==> batch[i].FreeRegion?
    {
      assert batch[i] == l3[|l0| + i];
    }
  }
}
