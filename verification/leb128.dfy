/**
 Variable-length integers: the emitter's encoders (virc/vbc/emitter.cc:42-79) and the loader's decoders
 (vbci/program.h:94-124).  Words are 64 bits wide; a bitwise or of disjoint bits is written as a sum.
 */
module Leb128 {

  const WORD: int := 0x1_0000_0000_0000_0000

  type Byte = b: int | 0 <= b < 256

  function Pow128(k: nat): (p: nat)
    ensures p > 0
  {
    if k == 0 then 1 else 128 * Pow128(k - 1)
  }

  /** The number that the low seven bits of each byte spell, lowest first. */
  function Meaning(bytes: seq<Byte>): (m: nat)
    decreases |bytes|
  {
    if bytes == [] then 0
    else
      var n := |bytes| - 1;
      Meaning(bytes[..n]) + Placed(bytes[n] % 128, n)
  }

  /** Seven bits, shifted to the place of byte `k`. */
  function Placed(x: nat, k: nat): nat {
    x * Pow128(k)
  }

  lemma {:induction false} MeaningBound(bytes: seq<Byte>)
    ensures Meaning(bytes) < Pow128(|bytes|)
    decreases |bytes|
  {
    if bytes != [] {
      var n := |bytes| - 1;
      MeaningBound(bytes[..n]);
      DigitBound(bytes[n] % 128, Pow128(n));
    }
  }

  lemma DigitBound(x: int, p: nat)
    requires 0 <= x <= 127
    ensures 0 <= x * p <= 127 * p
  {
  }

  lemma {:induction false} PowGrows(k: nat, n: nat)
    requires k <= n
    ensures Pow128(k) <= Pow128(n)
    decreases n - k
  {
    if k < n {
      PowGrows(k + 1, n);
    }
  }

  lemma {:induction false} MeaningFirst(b: Byte, rest: seq<Byte>)
    ensures Meaning([b] + rest) == b % 128 + 128 * Meaning(rest)
    decreases |rest|
  {
    var all := [b] + rest;
    if rest == [] {
      assert all[..0] == [];
    } else {
      var n := |rest| - 1;
      assert all[..n + 1] == [b] + rest[..n];
      MeaningFirst(b, rest[..n]);
      assert all[n + 1] == rest[n];
      var x, p := rest[n] % 128, Pow128(n);
      assert x * (128 * p) == 128 * (x * p);
    }
  }

  // ---------------------------------------------------------------- encoding

  /** `operator<<` for `uleb`. */
  function Encode(v: nat): (bytes: seq<Byte>)
  {
    if v > 0x7F then [v % 128 + 128] + Encode(v / 128) else [v]
  }

  method AppendUleb(b: seq<Byte>, u: nat) returns (r: seq<Byte>)
    ensures r == b + Encode(u)
  {
    var value := u;
    r := b;
    while value > 0x7F
      invariant b + Encode(u) == r + Encode(value)
    {
      r := r + [value % 128 + 128];
      value := value / 128;
    }
    r := r + [value];
  }

  /** All bytes but the last announce more. */
  predicate Chained(bytes: seq<Byte>) {
    && bytes != []
    && (forall i | 0 <= i < |bytes| - 1 :: bytes[i] >= 128)
    && bytes[|bytes| - 1] < 128
  }

  /** The encoding means what was encoded, and ends where it says. */
  lemma {:induction false} EncodeMeans(v: nat)
    ensures Meaning(Encode(v)) == v && Chained(Encode(v))
    decreases v
  {
    hide Meaning, Placed, Pow128;
    if v > 0x7F {
      EncodeMeans(v / 128);
      MeaningFirst(v % 128 + 128, Encode(v / 128));
    } else {
      MeaningOne(v);
    }
  }

  lemma MeaningOne(b: Byte)
    ensures Meaning([b]) == b % 128
  {
    var bytes := [b];
    assert bytes[..0] == [];
    assert Pow128(0) == 1;
  }

  lemma {:induction false} EncodeLength(v: nat, k: nat)
    requires k >= 1 && v < Pow128(k)
    ensures |Encode(v)| <= k
    decreases k
  {
    if v > 0x7F {
      assert k > 1 && Pow128(k) == 128 * Pow128(k - 1);
      EncodeLength(v / 128, k - 1);
    }
  }

  lemma Ninth()
    ensures Pow128(9) == 0x8000_0000_0000_0000 && Pow128(10) == 128 * Pow128(9)
  {
    assert Pow128(3) == 128 * Pow128(2) && Pow128(2) == 128 * Pow128(1);
    assert Pow128(5) == 128 * Pow128(4) && Pow128(4) == 128 * Pow128(3);
    assert Pow128(7) == 128 * Pow128(6) && Pow128(6) == 128 * Pow128(5);
    assert Pow128(8) == 128 * Pow128(7);
  }

  // ---------------------------------------------------------------- decoding

  /** What one call of `uleb` takes: up to ten bytes, ending at the first that announces no more. */
  predicate Chunk(bytes: seq<Byte>) {
    && 1 <= |bytes| <= 10
    && (forall i | 0 <= i < |bytes| - 1 :: bytes[i] >= 128)
    && (bytes[|bytes| - 1] < 128 || |bytes| == 10)
  }

  predicate Takes(from: seq<Byte>, pc: int, end: int) {
    0 <= pc < end <= |from| && Chunk(from[pc..end])
  }

  lemma TakesOnce(from: seq<Byte>, pc: int, a: int, b: int)
    requires Takes(from, pc, a) && Takes(from, pc, b)
    ensures a == b
  {
    if a < b {
      TakesShorter(from, pc, a, b);
    } else if b < a {
      TakesShorter(from, pc, b, a);
    }
  }

  lemma TakesShorter(from: seq<Byte>, pc: int, a: int, b: int)
    requires 0 <= pc < a < b <= |from| && Chunk(from[pc..b])
    ensures !Chunk(from[pc..a])
  {
    assert from[pc..a][a - pc - 1] == from[pc..b][a - pc - 1];
  }

  /** What the decoder has accumulated before byte `pc`. */
  predicate Reads(from: seq<Byte>, start: nat, pc: nat, value: nat) {
    && start <= pc <= |from|
    && value == Meaning(from[start..pc]) % WORD
    && (pc - start < 10 ==> value == Meaning(from[start..pc]))
  }

  /** All bytes from `start` up to `pc` announce more. */
  predicate Goes(from: seq<Byte>, start: nat, pc: nat) {
    start <= pc <= |from| && forall i | 0 <= i < pc - start :: from[start..pc][i] >= 128
  }

  lemma ReadsNext(from: seq<Byte>, start: nat, pc: nat, value: nat)
    requires Reads(from, start, pc, value) && pc < |from| && pc - start < 10
    ensures Reads(from, start, pc + 1, value + Placed(from[pc] % 128, pc - start) % WORD)
  {
    hide Meaning, Placed;
    assert from[start..pc + 1] == from[start..pc] + [from[pc]];
    Widen(from[start..pc], from[pc]);
  }

  lemma GoesNext(from: seq<Byte>, start: nat, pc: nat)
    requires Goes(from, start, pc) && pc < |from| && pc - start < 10
    ensures from[pc] >= 128 ==> Goes(from, start, pc + 1)
    ensures from[pc] < 128 || pc - start == 9 ==> Takes(from, start, pc + 1)
  {
    assert from[start..pc + 1] == from[start..pc] + [from[pc]];
  }

  lemma ReadsNothing(from: seq<Byte>, start: nat)
    requires start <= |from|
    ensures Reads(from, start, start, 0) && Goes(from, start, start)
  {
    assert Meaning(from[start..start]) == 0;
  }

  /** `uleb`: on truncated input `at` throws, and `ok` is false. */
  method Uleb(from: seq<Byte>, start: nat) returns (ok: bool, value: nat, pc: nat)
    ensures ok ==> Takes(from, start, pc) && value == Meaning(from[start..pc]) % WORD
    ensures !ok ==> forall end :: !Takes(from, start, end)
  {
    hide Reads, Goes, Placed, Meaning, Takes;
    value, pc := 0, start;
    if start > |from| {
      NothingThere(from, start);
      return false, value, pc;
    }
    ReadsNothing(from, start);
    for k := 0 to 10
      invariant pc == start + k <= |from|
      invariant Reads(from, start, pc, value)
      invariant k < 10 ==> Goes(from, start, pc)
      invariant k == 10 ==> Takes(from, start, pc)
    {
      if pc >= |from| {
        forall end ensures !Takes(from, start, end) {
          NoEnd(from, start, end);
        }
        return false, value, pc;
      }
      var b := from[pc];
      ReadsNext(from, start, pc, value);
      GoesNext(from, start, pc);
      value := value + Placed(b % 128, k) % WORD;
      pc := pc + 1;
      if b < 128 {
        HasRead(from, start, pc, value);
        return true, value, pc;
      }
    }
    HasRead(from, start, pc, value);
    ok := true;
  }

  lemma HasRead(from: seq<Byte>, start: nat, pc: nat, value: nat)
    requires Reads(from, start, pc, value)
    ensures start <= pc <= |from| && value == Meaning(from[start..pc]) % WORD
  {
  }

  lemma NothingThere(from: seq<Byte>, start: nat)
    requires start > |from|
    ensures forall end :: !Takes(from, start, end)
  {
  }

  lemma NoEnd(from: seq<Byte>, start: nat, end: int)
    requires |from| < start + 10 && Goes(from, start, |from|)
    ensures !Takes(from, start, end)
  {
    if 0 <= start < end <= |from| {
      assert from[start..end][end - start - 1] == from[start..|from|][end - start - 1];
    }
  }

  /** Adding a byte's bits at their place, cut to a word. */
  lemma Widen(bytes: seq<Byte>, b: Byte)
    requires |bytes| < 10
    ensures var chunk := Placed(b % 128, |bytes|) % WORD;
      && Meaning(bytes) + chunk == Meaning(bytes + [b]) % WORD
      && (|bytes| < 9 ==> Meaning(bytes) + chunk == Meaning(bytes + [b]))
  {
    hide Meaning, Placed, Pow128;
    var k := |bytes|;
    MeaningLast(bytes, b);
    if k < 9 {
      NotYetFull(bytes + [b]);
      assert Placed(b % 128, k) <= Meaning(bytes + [b]);
      Small(Placed(b % 128, k));
      Small(Meaning(bytes + [b]));
    } else {
      NotYetFull(bytes);
      NinthPlace(b % 128);
      TopBits(Meaning(bytes), b % 128);
    }
  }

  lemma MeaningLast(bytes: seq<Byte>, b: Byte)
    ensures Meaning(bytes + [b]) == Meaning(bytes) + Placed(b % 128, |bytes|)
  {
    assert (bytes + [b])[..|bytes|] == bytes;
  }

  lemma NotYetFull(bytes: seq<Byte>)
    requires |bytes| <= 9
    ensures Meaning(bytes) < 0x8000_0000_0000_0000
  {
    MeaningBound(bytes);
    PowGrows(|bytes|, 9);
    Ninth();
  }

  lemma NinthPlace(x: nat)
    ensures Placed(x, 9) == x * 0x8000_0000_0000_0000
  {
    Ninth();
  }

  lemma Small(x: nat)
    requires x < WORD
    ensures x % WORD == x
  {
  }

  /** Of the tenth byte only one bit fits. */
  lemma TopBits(m: nat, x: nat)
    requires m < 0x8000_0000_0000_0000
    ensures m + x * 0x8000_0000_0000_0000 % WORD == (m + x * 0x8000_0000_0000_0000) % WORD
  {
    var q, b := x / 2, x % 2;
    assert x * 0x8000_0000_0000_0000 == b * 0x8000_0000_0000_0000 + WORD * q;
    WholeWords(b * 0x8000_0000_0000_0000, q);
    WholeWords(m + b * 0x8000_0000_0000_0000, q);
  }

  lemma WholeWords(u: nat, q: nat)
    requires u < WORD
    ensures (u + WORD * q) % WORD == u
    decreases q
  {
    if q > 0 {
      WholeWords(u, q - 1);
      assert u + WORD * q == u + WORD * (q - 1) + WORD;
    }
  }

  // ---------------------------------------------------------------- round trips

  /** A decoder at the start of an encoded word reads that word and stops behind it. */
  lemma UlebRoundTrip(before: seq<Byte>, v: nat, rest: seq<Byte>)
    requires v < WORD
    ensures var all := before + Encode(v) + rest;
      var start, end := |before|, |before| + |Encode(v)|;
      && end <= start + 10 && Takes(all, start, end) && Meaning(all[start..end]) % WORD == v
  {
    var all := before + Encode(v) + rest;
    EncodeMeans(v);
    Ninth();
    EncodeLength(v, 10);
    assert all[|before|..|before| + |Encode(v)|] == Encode(v);
    Small(v);
  }

  function EncodeAll(vs: seq<nat>): (bytes: seq<Byte>) {
    if vs == [] then [] else Encode(vs[0]) + EncodeAll(vs[1..])
  }

  lemma EncodeNext(vs: seq<nat>, i: nat)
    requires i < |vs|
    ensures EncodeAll(vs[i..]) == Encode(vs[i]) + EncodeAll(vs[i + 1..])
  {
    assert vs[i..][1..] == vs[i + 1..];
  }

  /** One `uleb` in front of a written word. */
  method ReadNext(from: seq<Byte>, start: nat, ghost before: seq<Byte>, ghost v: nat, ghost rest: seq<Byte>)
    returns (ok: bool, value: nat, pc: nat)
    requires from == before + Encode(v) + rest && start == |before| && v < WORD
    ensures ok && value == v && pc == start + |Encode(v)| && pc <= start + 10
  {
    hide Encode, Meaning, Takes;
    UlebRoundTrip(before, v, rest);
    ok, value, pc := Uleb(from, start);
    assert ok by {
      assert Takes(from, start, start + |Encode(v)|);
    }
    TakesOnce(from, start, pc, start + |Encode(v)|);
  }

  /** Repeated `uleb` returns the words that were written and consumes exactly their bytes. */
  method ReadAll(from: seq<Byte>, start: nat, ghost before: seq<Byte>, ghost vs: seq<nat>, n: nat, ghost rest: seq<Byte>)
    returns (ok: bool, values: seq<nat>, pc: nat)
    requires from == before + EncodeAll(vs) + rest && start == |before| && n == |vs|
    requires forall i | 0 <= i < |vs| :: vs[i] < WORD
    ensures ok && values == vs && pc == start + |EncodeAll(vs)| && pc <= start + 10 * n
  {
    hide Encode;
    ok, values, pc := true, [], start;
    ghost var done := before;
    var v0;
    for i := 0 to n
      invariant ok && values == vs[..i] && pc == |done| <= start + 10 * i
      invariant done + EncodeAll(vs[i..]) + rest == from && |done| + |EncodeAll(vs[i..])| == start + |EncodeAll(vs)|
    {
      ghost var v := vs[i];
      EncodeNext(vs, i);
      ok, v0, pc := ReadNext(from, pc, done, v, EncodeAll(vs[i + 1..]) + rest);
      values := values + [v0];
      done := done + Encode(v);
    }
  }

  // ---------------------------------------------------------------- signed words

  predicate Signed(s: int) { -0x8000_0000_0000_0000 <= s < 0x8000_0000_0000_0000 }

  /** The bits of a signed word, and back. */
  function Bits(s: int): nat
    requires Signed(s)
  {
    s % WORD
  }

  function FromBits(u: nat): int {
    if u < 0x8000_0000_0000_0000 then u else u - WORD
  }

  /** Exclusive or with a mask of sixty-four equal bits. */
  function XorMask(u: nat, mask: bool): nat
    requires u < WORD
  {
    if mask then WORD - 1 - u else u
  }

  /** `operator<<` for `sleb`: the bits shifted left, against the sign. */
  function Zigzag(s: int): nat
    requires Signed(s)
  {
    XorMask(2 * Bits(s) % WORD, s < 0)
  }

  /** `sleb`: the bits shifted right, against the lowest one. */
  function Unzigzag(value: nat): int
    requires value < WORD
  {
    FromBits(XorMask(value / 2, value % 2 == 1))
  }

  /** Zigzag is a bijection between signed and unsigned words, and small magnitudes get small codes. */
  lemma ZigzagRoundTrip(s: int)
    requires Signed(s)
    ensures Zigzag(s) < WORD && Unzigzag(Zigzag(s)) == s
    ensures forall t | Signed(t) && -t <= s < t :: Zigzag(s) < 2 * t
  {
    if s < 0 {
      assert Bits(s) == s + WORD;
      assert 2 * Bits(s) == 2 * s + WORD + WORD;
      Small(2 * s + WORD);
    } else {
      Small(s);
      Small(2 * s);
    }
  }

  lemma UnzigzagRoundTrip(value: nat)
    requires value < WORD
    ensures Signed(Unzigzag(value)) && Zigzag(Unzigzag(value)) == value
  {
    var s := Unzigzag(value);
    if value % 2 == 1 {
      assert s == -(value / 2) - 1;
    } else {
      assert s == value / 2;
    }
    ZigzagRoundTrip(s);
  }
}
