/**
 The interpreter's chunked stack (vbci/stack.h, vbci/stack.cc): allocation, save and restore, and the
 walker that finds the headers again.

 A cell stands for what a header read at that offset would show: a sentinel, or a header of some size.
 Memory that is not in use shows anything.
 */
module Stacks {

  const CHUNK: int := 1024
  const ALIGN: int := 8
  const HEADER: int := 16

  function AlignUp(n: nat): (r: nat)
    ensures n <= r < n + ALIGN && r % ALIGN == 0
  {
    (n + (ALIGN - 1)) / ALIGN * ALIGN
  }

  datatype Cell = Sentinel | Head(size: nat)

  datatype Idx = Idx(chunk: nat, offset: nat)

  /** A live allocation. */
  datatype Block = Block(chunk: nat, offset: nat, size: nat)

  function End(b: Block): Idx {
    Idx(b.chunk, b.offset + AlignUp(b.size))
  }

  function Begin(b: Block): Idx {
    Idx(b.chunk, b.offset)
  }

  predicate AtMost(a: Idx, b: Idx) {
    a.chunk < b.chunk || (a.chunk == b.chunk && a.offset <= b.offset)
  }

  /** Where the stack stands after the allocations `live`. */
  function TopOf(live: seq<Block>): Idx {
    if live == [] then Idx(0, 0) else End(live[|live| - 1])
  }

  // ---------------------------------------------------------------- the layout

  /** A walker at `at` sees that the chunk holds no more. */
  predicate Ends(mem: seq<seq<Cell>>, at: Idx) {
    && at.chunk < |mem| && |mem[at.chunk]| == CHUNK && at.offset <= CHUNK
    && (CHUNK - at.offset < HEADER || mem[at.chunk][at.offset] == Sentinel)
  }

  /** `b` lies directly at `at`, or at the start of the next chunk behind an end. */
  predicate Follows(mem: seq<seq<Cell>>, at: Idx, b: Block) {
    Begin(b) == at || (Begin(b) == Idx(at.chunk + 1, 0) && Ends(mem, at))
  }

  predicate Placed(mem: seq<seq<Cell>>, b: Block) {
    && b.chunk < |mem| && |mem[b.chunk]| == CHUNK
    && b.offset % ALIGN == 0 && HEADER <= b.size && b.offset + AlignUp(b.size) <= CHUNK
    && mem[b.chunk][b.offset] == Head(b.size)
  }

  ghost predicate LaidOut(mem: seq<seq<Cell>>, live: seq<Block>) {
    && (forall i | 0 <= i < |live| :: Placed(mem, live[i]))
    && (forall i | 0 <= i < |live| :: Follows(mem, TopOf(live[..i]), live[i]))
  }

  lemma LaidOutPrefix(mem: seq<seq<Cell>>, live: seq<Block>, n: nat)
    requires LaidOut(mem, live) && n <= |live|
    ensures LaidOut(mem, live[..n])
  {
    forall i | 0 <= i < n ensures Follows(mem, TopOf(live[..n][..i]), live[..n][i]) {
      assert live[..n][..i] == live[..i];
    }
  }

  /** Blocks lie one after the other. */
  lemma {:induction false} Ordered(mem: seq<seq<Cell>>, live: seq<Block>, i: nat, j: nat)
    requires LaidOut(mem, live) && i < j <= |live|
    ensures AtMost(End(live[i]), TopOf(live[..j]))
    ensures j < |live| ==> AtMost(End(live[i]), Begin(live[j]))
    decreases j
  {
    assert live[..j][j - 1] == live[j - 1];
    if i < j - 1 {
      Ordered(mem, live, i, j - 1);
    }
    if j < |live| {
      assert Follows(mem, TopOf(live[..j]), live[j]);
    }
  }

  /** Live blocks are aligned, inside one chunk, and do not overlap. */
  lemma BlocksApart(mem: seq<seq<Cell>>, live: seq<Block>, i: nat, j: nat)
    requires LaidOut(mem, live) && i < j < |live|
    ensures live[i].offset % ALIGN == 0 && live[i].offset + AlignUp(live[i].size) <= CHUNK
    ensures live[i].chunk == live[j].chunk ==> live[i].offset + live[i].size <= live[j].offset
  {
    Ordered(mem, live, i, j);
    assert Placed(mem, live[i]);
  }

  /** Cells that hold live headers and ends are more than a header's length before the top. */
  predicate Settled(top: Idx, c: int, o: int) {
    c < top.chunk || (c == top.chunk && o + HEADER <= top.offset)
  }

  /** What is written at the top and beyond disturbs nothing live. */
  lemma Undisturbed(mem: seq<seq<Cell>>, mem': seq<seq<Cell>>, live: seq<Block>)
    requires LaidOut(mem, live) && |mem| <= |mem'|
    requires forall c | 0 <= c < |mem| :: |mem'[c]| == |mem[c]|
    requires forall c, o | 0 <= c < |mem| && 0 <= o < |mem[c]| && Settled(TopOf(live), c, o) :: mem'[c][o] == mem[c][o]
    ensures LaidOut(mem', live)
  {
    assert live[..|live|] == live;
    forall i | 0 <= i < |live| ensures Placed(mem', live[i]) && Follows(mem', TopOf(live[..i]), live[i]) {
      assert Placed(mem, live[i]) && Follows(mem, TopOf(live[..i]), live[i]);
      Ordered(mem, live, i, |live|);
    }
  }

  /** Memory `mem'` differs from `mem` only by a write of `len` bytes at `at`. */
  predicate Wrote(mem: seq<seq<Cell>>, mem': seq<seq<Cell>>, at: Idx, len: nat) {
    && |mem'| == |mem| && at.chunk < |mem|
    && (forall c | 0 <= c < |mem| && c != at.chunk :: mem'[c] == mem[c])
    && |mem'[at.chunk]| == |mem[at.chunk]|
    && forall o | 0 <= o < |mem[at.chunk]| && (o + HEADER <= at.offset || at.offset + len <= o) ::
         mem'[at.chunk][o] == mem[at.chunk][o]
  }

  lemma WroteAbove(mem: seq<seq<Cell>>, mem': seq<seq<Cell>>, live: seq<Block>, at: Idx, len: nat)
    requires LaidOut(mem, live) && Wrote(mem, mem', at, len) && AtMost(TopOf(live), at)
    ensures LaidOut(mem', live)
  {
    Undisturbed(mem, mem', live);
  }

  lemma WroteHeader(mem: seq<seq<Cell>>, mem': seq<seq<Cell>>, live: seq<Block>, b: Block)
    requires LaidOut(mem, live) && Wrote(mem, mem', Begin(b), AlignUp(b.size)) && Follows(mem, TopOf(live), b)
    requires |mem[b.chunk]| == CHUNK && b.offset % ALIGN == 0 && HEADER <= b.size && b.offset + AlignUp(b.size) <= CHUNK
    requires mem'[b.chunk][b.offset] == Head(b.size)
    ensures LaidOut(mem', live + [b])
  {
    WroteAbove(mem, mem', live, Begin(b), AlignUp(b.size));
    OneMore(mem', live, b);
  }

  /** One more block. */
  lemma OneMore(mem: seq<seq<Cell>>, live: seq<Block>, b: Block)
    requires LaidOut(mem, live) && Placed(mem, b) && Follows(mem, TopOf(live), b)
    ensures LaidOut(mem, live + [b])
  {
    var more := live + [b];
    forall i | 0 <= i < |more| ensures Placed(mem, more[i]) && Follows(mem, TopOf(more[..i]), more[i]) {
      if i < |live| {
        assert more[..i] == live[..i];
      } else {
        assert more[..i] == live;
      }
    }
  }

  // ---------------------------------------------------------------- the stack

  class Stack {
    var chunks: seq<array<Cell>>
    var top: Idx

    /** The allocations made and not given back, oldest first. */
    ghost var live: seq<Block>

    ghost function Mem(): (mem: seq<seq<Cell>>)
      reads this`chunks, chunks
      ensures |mem| == |chunks| && forall c | 0 <= c < |chunks| :: mem[c] == chunks[c][..]
    {
      var cs := chunks;
      seq(|cs|, c requires 0 <= c < |cs| reads cs => cs[c][..])
    }

    ghost predicate Valid()
      reads this, chunks
    {
      && (forall c | 0 <= c < |chunks| :: chunks[c].Length == CHUNK)
      && (forall c, d | 0 <= c < d < |chunks| :: chunks[c] != chunks[d])
      && top == TopOf(live) && LaidOut(Mem(), live)
    }

    constructor ()
      ensures Valid() && live == [] && fresh(chunks)
    {
      chunks, top, live := [], Idx(0, 0), [];
    }

    method Save() returns (idx: Idx)
      requires Valid()
      ensures idx == TopOf(live)
    {
      idx := top;
    }

    /** Back to a saved place: the allocations made since are given back. */
    method Restore(idx: Idx, ghost n: nat)
      requires Valid() && n <= |live| && idx == TopOf(live[..n])
      modifies this
      ensures Valid() && live == old(live)[..n] && chunks == old(chunks)
    {
      hide LaidOut, Follows, Placed;
      LaidOutPrefix(Mem(), live, n);
      top := idx;
      live := live[..n];
    }

    /**
     Write a header at `at`, and anything in the `len` bytes from there: what later reads show at offsets
     that overlap these bytes is arbitrary.
     */
    static method Put(chunk: array<Cell>, at: nat, len: nat, cell: Cell, junk: int -> Cell)
      requires chunk.Length == CHUNK && at + len <= CHUNK && HEADER <= len
      modifies chunk
      ensures chunk[at] == cell
      ensures forall o | 0 <= o < CHUNK && (o + HEADER <= at || at + len <= o) :: chunk[o] == old(chunk[o])
    {
      forall o | 0 <= o < CHUNK && at < o + HEADER && o < at + len {
        chunk[o] := junk(o);
      }
      chunk[at] := cell;
    }

    /** The chunk is full for this allocation: leave a sentinel if there is room, and go on in the next chunk. */
    method NextChunk(junk: int -> Cell)
      requires Valid() && top.offset <= CHUNK && (live != [] ==> top.chunk < |chunks|) && live != []
      modifies this`top, chunks
      ensures unchanged(`chunks) && unchanged(`live) && top == Idx(old(top).chunk + 1, 0)
      ensures forall c | 0 <= c < |chunks| :: chunks[c].Length == CHUNK
      ensures LaidOut(Mem(), live) && Ends(Mem(), old(top))
    {
      hide LaidOut, Follows, Placed;
      ghost var before := Mem();
      var remaining := CHUNK - top.offset;
      if remaining >= HEADER {
        Put(chunks[top.chunk], top.offset, HEADER, Sentinel, junk);
      }
      Undisturbed(before, Mem(), live);
      top := Idx(top.chunk + 1, 0);
    }

    /** A chunk that has never been used, with whatever it holds. */
    method AddChunk(blank: int -> Cell)
      requires (forall c | 0 <= c < |chunks| :: chunks[c].Length == CHUNK) && LaidOut(Mem(), live)
      requires forall c, d | 0 <= c < d < |chunks| :: chunks[c] != chunks[d]
      modifies this`chunks
      ensures |chunks| == |old(chunks)| + 1 && chunks[..|old(chunks)|] == old(chunks) && fresh(chunks[|old(chunks)|])
      ensures forall c | 0 <= c < |chunks| :: chunks[c].Length == CHUNK
      ensures forall c, d | 0 <= c < d < |chunks| :: chunks[c] != chunks[d]
      ensures LaidOut(Mem(), live)
      ensures forall at: Idx | Ends(old(Mem()), at) :: Ends(Mem(), at)
    {
      ghost var before := Mem();
      var chunk := new Cell[CHUNK](i => blank(i));
      chunks := chunks + [chunk];
      assert forall c | 0 <= c < |before| :: Mem()[c] == before[c];
      Undisturbed(before, Mem(), live);
    }

    /**
     `alloc`, followed by the header that every caller writes: too large a size is refused, anything else
     becomes the newest live allocation, whatever the memory held before and whatever the rest of the block
     is filled with.
     */
    method Push(size: nat, junk: int -> Cell, blank: int -> Cell) returns (ok: bool, b: Block)
      requires Valid() && HEADER <= size
      modifies this, chunks
      ensures Valid() && ok == (AlignUp(size) <= CHUNK)
      ensures ok ==> live == old(live) + [b] && b.size == size
      // it begins where the stack stood, or in the next chunk if it would not fit in this one
      ensures ok ==> Begin(b) == Place(old(top), AlignUp(size)) && top == Idx(b.chunk, b.offset + AlignUp(size))
      ensures ok ==> |chunks| == if b.chunk < |old(chunks)| then |old(chunks)| else |old(chunks)| + 1
      ensures !ok ==> live == old(live) && top == old(top) && chunks == old(chunks)
      ensures forall c | 0 <= c < |chunks| :: chunks[c] in old(chunks) || fresh(chunks[c])
    {
      hide LaidOut, Follows, Ends, Placed;
      var aligned := AlignUp(size);
      b := Block(top.chunk, top.offset, size);
      if aligned > CHUNK {
        return false, b;
      }
      Room(aligned, junk, blank);
      b := Block(top.chunk, top.offset, size);
      FollowsAnySize(Mem(), TopOf(live), b, size);
      PutHeader(b, aligned, junk);
      return true, b;
    }

    /** Make room for `aligned` bytes at the top: in this chunk, in the next one, or in a new one. */
    method Room(aligned: nat, junk: int -> Cell, blank: int -> Cell)
      requires Valid() && aligned <= CHUNK
      modifies this`top, this`chunks, chunks
      ensures live == old(live) && top.chunk < |chunks| && top.offset + aligned <= CHUNK && top.offset % ALIGN == 0
      ensures top == Place(old(top), aligned)
      ensures |chunks| == if top.chunk < |old(chunks)| then |old(chunks)| else |old(chunks)| + 1
      ensures forall c | 0 <= c < |chunks| :: chunks[c].Length == CHUNK
      ensures forall c, d | 0 <= c < d < |chunks| :: chunks[c] != chunks[d]
      ensures forall c | 0 <= c < |chunks| :: chunks[c] in old(chunks) || fresh(chunks[c])
      ensures LaidOut(Mem(), live) && Follows(Mem(), TopOf(live), Block(top.chunk, top.offset, 0))
    {
      hide LaidOut, Placed, Ends, Follows;
      TopInside(Mem(), live);
      ghost var was := top;
      if top.offset + aligned > CHUNK {
        NextChunk(junk);
      }
      assert live != [] && top != was ==> Ends(Mem(), was);
      if top.chunk >= |chunks| {
        AddChunk(blank);
        top := Idx(|chunks| - 1, 0);
      }
      FollowsTop(Mem(), was, top);
    }

    method PutHeader(b: Block, aligned: nat, junk: int -> Cell)
      requires (forall c | 0 <= c < |chunks| :: chunks[c].Length == CHUNK) && LaidOut(Mem(), live)
      requires forall c, d | 0 <= c < d < |chunks| :: chunks[c] != chunks[d]
      requires Follows(Mem(), TopOf(live), b) && b.chunk < |chunks| && top == Begin(b)
      requires HEADER <= b.size && aligned == AlignUp(b.size) && b.offset + aligned <= CHUNK && b.offset % ALIGN == 0
      modifies this, chunks
      ensures Valid() && live == old(live) + [b] && chunks == old(chunks) && top == Idx(b.chunk, b.offset + aligned)
    {
      hide LaidOut, Follows, Ends, Placed;
      ghost var before := Mem();
      Put(chunks[b.chunk], b.offset, aligned, Head(b.size), junk);
      assert Wrote(before, Mem(), Begin(b), aligned);
      WroteHeader(before, Mem(), live, b);
      top := Idx(b.chunk, b.offset + aligned);
      live := live + [b];
      assert live[|live| - 1] == b;
    }

    /** Walk one chunk from `from` up to `limit`. */
    method WalkChunk(c: nat, from: nat, limit: nat, end: Idx, before: seq<Block>, ghost n: nat, ghost k0: nat)
      returns (visited: seq<Block>, ghost k: nat)
      requires Valid() && end == top && c < |chunks| && c <= end.chunk && limit == (if c == end.chunk then end.offset else CHUNK)
      requires n <= k0 <= |live| && before == live[n..k0] && from <= limit
      requires At(Mem(), live, k0, Idx(c, from))
      ensures k0 <= k <= |live| && visited == live[n..k]
      ensures if c == end.chunk then k == |live| else At(Mem(), live, k, Idx(c + 1, 0))
    {
      hide LaidOut, Follows, Ends, Placed, At;
      visited, k := before, k0;
      var offset := from;
      while offset < limit
        invariant offset <= limit && k0 <= k <= |live| && visited == live[n..k]
        invariant At(Mem(), live, k, Idx(c, offset))
        decreases limit - offset
      {
        AtMore(Mem(), live, k, Idx(c, offset), limit);
        var remaining := limit - offset;
        if remaining < HEADER {
          break;
        }
        var h := chunks[c][offset];
        if h.Sentinel? {
          break;
        }
        visited := visited + [Block(c, offset, h.size)];
        offset := offset + AlignUp(h.size);
        AtNext(Mem(), live, k);
        k := k + 1;
      }
      if offset >= limit {
        AtLimit(Mem(), live, k, Idx(c, offset), limit);
      }
    }

    /**
     `visit_headers`: from where the stack stood after the first `n` live allocations to where it stands now,
     the walker visits exactly the allocations made since, once each and in order.
     */
    method VisitHeaders(start: Idx, end: Idx, ghost n: nat) returns (visited: seq<Block>)
      requires Valid() && n <= |live| && start == TopOf(live[..n]) && end == top
      ensures visited == live[n..]
    {
      hide LaidOut, Follows, Ends, Placed, At;
      visited := [];
      ghost var k := n;
      var c := start.chunk;
      TopInside(Mem(), live);
      StartsAt(Mem(), live, n);
      while c <= end.chunk && c < |chunks|
        invariant c <= end.chunk + 1 && n <= k <= |live| && visited == live[n..k]
        invariant start.chunk <= c && (c == start.chunk ==> At(Mem(), live, k, start))
        invariant start.chunk < c <= end.chunk ==> At(Mem(), live, k, Idx(c, 0))
        invariant c > end.chunk ==> k == |live|
      {
        var offset := if c == start.chunk then start.offset else 0;
        var limit := if c == end.chunk then end.offset else CHUNK;
        if offset < limit {
          visited, k := WalkChunk(c, offset, limit, end, visited, n, k);
        } else {
          AtLimit(Mem(), live, k, Idx(c, offset), limit);
        }
        c := c + 1;
      }
      if c <= end.chunk {
        NoChunk(Mem(), live);
      }
    }
  }

  /** Where the next `aligned` bytes go. */
  function Place(top: Idx, aligned: nat): Idx {
    if top.offset + aligned <= CHUNK then top else Idx(top.chunk + 1, 0)
  }

  // ---------------------------------------------------------------- the walker's place

  /** The walker stands at `at`, with allocation number `k` next. */
  ghost predicate At(mem: seq<seq<Cell>>, live: seq<Block>, k: nat, at: Idx) {
    && k <= |live| && AtMost(at, TopOf(live))
    && (if k == |live| then at == TopOf(live) else Follows(mem, at, live[k]))
  }

  lemma FollowsTop(mem: seq<seq<Cell>>, was: Idx, at: Idx)
    requires at == was || (at == Idx(was.chunk + 1, 0) && Ends(mem, was))
    ensures Follows(mem, was, Block(at.chunk, at.offset, 0))
  {
  }

  lemma FollowsAnySize(mem: seq<seq<Cell>>, at: Idx, b: Block, size: nat)
    requires Follows(mem, at, Block(b.chunk, b.offset, 0))
    ensures Follows(mem, at, b)
  {
  }

  lemma TopInside(mem: seq<seq<Cell>>, live: seq<Block>)
    requires LaidOut(mem, live)
    ensures TopOf(live).offset <= CHUNK && TopOf(live).offset % ALIGN == 0
    ensures live != [] ==> TopOf(live).chunk < |mem| && |mem[TopOf(live).chunk]| == CHUNK
    ensures live == [] ==> TopOf(live) == Idx(0, 0)
  {
    hide Follows;
    if live != [] {
      assert Placed(mem, live[|live| - 1]);
    }
  }

  lemma StartsAt(mem: seq<seq<Cell>>, live: seq<Block>, n: nat)
    requires LaidOut(mem, live) && n <= |live|
    ensures At(mem, live, n, TopOf(live[..n])) && AtMost(TopOf(live[..n]), TopOf(live))
  {
    assert live[..|live|] == live;
    if 0 < n {
      Ordered(mem, live, n - 1, |live|);
      assert live[..n][n - 1] == live[n - 1];
    }
  }

  /** What the walker reads before its limit. */
  lemma AtMore(mem: seq<seq<Cell>>, live: seq<Block>, k: nat, at: Idx, limit: nat)
    requires LaidOut(mem, live) && At(mem, live, k, at) && at.chunk < |mem| && at.offset < limit
    requires limit == (if at.chunk == TopOf(live).chunk then TopOf(live).offset else CHUNK)
    ensures k < |live| && |mem[at.chunk]| == CHUNK && limit <= CHUNK
    ensures Begin(live[k]) == at ==>
      && live[k].size >= HEADER && live[k] == Block(at.chunk, at.offset, live[k].size)
      && limit - at.offset >= HEADER && mem[at.chunk][at.offset] == Head(live[k].size)
      && at.offset + AlignUp(live[k].size) <= limit
    ensures Begin(live[k]) != at ==>
      && at.chunk < TopOf(live).chunk && Begin(live[k]) == Idx(at.chunk + 1, 0)
      && (limit - at.offset < HEADER || mem[at.chunk][at.offset] == Sentinel)
    ensures Begin(live[k]) != at ==> At(mem, live, k, Idx(at.chunk + 1, 0))
  {
    assert live[..|live|] == live;
    TopInside(mem, live);
    assert Placed(mem, live[k]);
    Ordered(mem, live, k, |live|);
  }

  lemma AtNext(mem: seq<seq<Cell>>, live: seq<Block>, k: nat)
    requires LaidOut(mem, live) && k < |live|
    ensures At(mem, live, k + 1, End(live[k]))
  {
    StartsAt(mem, live, k + 1);
    assert live[..k + 1][k] == live[k];
  }

  /** At the limit of a chunk the next allocation, if any, starts the next chunk. */
  lemma AtLimit(mem: seq<seq<Cell>>, live: seq<Block>, k: nat, at: Idx, limit: nat)
    requires LaidOut(mem, live) && At(mem, live, k, at) && at.offset >= limit
    requires limit == (if at.chunk == TopOf(live).chunk then TopOf(live).offset else CHUNK)
    ensures at.chunk == TopOf(live).chunk ==> k == |live|
    ensures at.chunk < TopOf(live).chunk ==>
      k < |live| && Begin(live[k]) == Idx(at.chunk + 1, 0) && At(mem, live, k, Idx(at.chunk + 1, 0))
  {
    assert live[..|live|] == live;
    if k < |live| {
      assert Placed(mem, live[k]);
      Ordered(mem, live, k, |live|);
    }
  }

  /** Only an empty stack has no chunk where its top is. */
  lemma NoChunk(mem: seq<seq<Cell>>, live: seq<Block>)
    requires LaidOut(mem, live)
    ensures TopOf(live).chunk >= |mem| ==> live == []
  {
    TopInside(mem, live);
  }
}
