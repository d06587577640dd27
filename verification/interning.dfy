/**
 Interning of types into the emitted table (virc/model/compilation.cc `type_id`): children first,
 union members sorted and without repetition, one entry per distinct type.
 */
module Interning {
  import opened IRTypes
  import opened RuntimeTypes
  import opened CompileTimeRunTime

  // ---------------------------------------------------------------- sorted member lists

  predicate Ascending(ids: seq<TypeId>) {
    forall i, j | 0 <= i < j < |ids| :: ids[i] < ids[j]
  }

  /** `std::sort` followed by `std::unique`. */
  function SortedUnique(ids: seq<TypeId>): (r: seq<TypeId>)
    ensures Ascending(r) && forall x :: x in r <==> x in ids
  {
    if ids == [] then [] else InsertOnce(ids[0], SortedUnique(ids[1..]))
  }

  function InsertOnce(id: TypeId, ids: seq<TypeId>): (r: seq<TypeId>)
    requires Ascending(ids)
    ensures Ascending(r) && forall x :: x in r <==> x == id || x in ids
  {
    if ids == [] then [id]
    else if id < ids[0] then [id] + ids
    else if id == ids[0] then ids
    else
      FirstIsLeast(ids);
      var rest := InsertOnce(id, ids[1..]);
      AscendingCons(ids[0], rest);
      [ids[0]] + rest
  }

  lemma FirstIsLeast(ids: seq<TypeId>)
    requires Ascending(ids) && ids != []
    ensures forall x | x in ids[1..] :: ids[0] < x
    ensures forall x :: x in ids <==> x == ids[0] || x in ids[1..]
  {
    forall x | x in ids[1..] ensures ids[0] < x {
      var k :| 0 <= k < |ids[1..]| && ids[1..][k] == x;
      assert x == ids[k + 1];
    }
  }

  lemma AscendingCons(x: TypeId, rest: seq<TypeId>)
    requires Ascending(rest) && forall y | y in rest :: x < y
    ensures Ascending([x] + rest)
  {
    forall i, j | 0 <= i < j < |rest| + 1 ensures ([x] + rest)[i] < ([x] + rest)[j] {
      assert rest[j - 1] in rest;
    }
  }

  lemma {:induction false} AscendingUnique(a: seq<TypeId>, b: seq<TypeId>)
    requires Ascending(a) && Ascending(b)
    requires forall x :: x in a <==> x in b
    ensures a == b
  {
    assert (a != [] ==> a[0] in b) && (b != [] ==> b[0] in a);
    if a != [] {
      assert a[0] == b[0];
      forall x ensures x in a[1..] <==> x in b[1..] {
        assert x in a <==> x == a[0] || x in a[1..];
        assert x in b <==> x == b[0] || x in b[1..];
      }
      AscendingUnique(a[1..], b[1..]);
    }
  }

  // ---------------------------------------------------------------- tables

  /** No two entries are equal and every union's members ascend. */
  predicate Interned(p: Program) {
    && (forall i, j | 0 <= i < j < |p.types| :: p.types[i] != p.types[j])
    && (forall i | 0 <= i < |p.types| :: p.types[i].tag == UnionTag ==> Ascending(p.types[i].children))
  }

  /** `q` has all entries of `p`, at the same ids. */
  predicate Extends(p: Program, q: Program) {
    p.minComplex == q.minComplex && p.types <= q.types
  }

  lemma ExtendsEntry(p: Program, q: Program, id: TypeId)
    requires p.WellFormed() && q.WellFormed() && Extends(p, q) && p.ValidId(id)
    ensures q.ValidId(id)
    ensures id != DYNAMIC_TYPE_ID && p.IsComplex(id) ==> q.Complex(id) == p.Complex(id)
  {
  }

  /** What an entry stands for does not change when the table grows. */
  lemma {:induction false} DenotesExtends(p: Program, q: Program, id: TypeId, t: IRType)
    requires p.WellFormed() && q.WellFormed() && Extends(p, q) && Denotes(p, id, t)
    ensures Denotes(q, id, t)
    decreases t, 1
  {
    ExtendsEntry(p, q, id);
    match t
    case Array(u) => DenotesExtends(p, q, p.Complex(id).children[0], u);
    case Cown(u) => DenotesExtends(p, q, p.Complex(id).children[0], u);
    case Ref(u) => DenotesExtends(p, q, p.Complex(id).children[0], u);
    case Tuple(us) =>
      forall i | 0 <= i < |us| ensures Denotes(q, q.Complex(id).children[i], us[i]) {
        DenotesExtends(p, q, p.Complex(id).children[i], us[i]);
      }
    case Union(us) => UnionExtends(p, q, id, t);
    case _ =>
  }

  lemma {:induction false} UnionExtends(p: Program, q: Program, id: TypeId, t: IRType)
    requires p.WellFormed() && q.WellFormed() && Extends(p, q) && Denotes(p, id, t) && t.Union?
    requires q.ValidId(id) && q.Complex(id) == p.Complex(id)
    ensures Denotes(q, id, t)
    decreases t, 0
  {
    forall i | 0 <= i < |t.parts| ensures HasEntry(q, id, t.parts[i], t) {
      var k := EntryOf(p, id, t, i);
      DenotesExtends(p, q, p.Complex(id).children[k], t.parts[i]);
    }
    forall k | 0 <= k < |p.Complex(id).children| ensures HasMember(q, id, k, t.parts, t) {
      var i := MemberOf(p, id, t, k);
      DenotesExtends(p, q, p.Complex(id).children[k], t.parts[i]);
    }
  }

  /** What one entry stands for is alike. */
  lemma {:induction false} SameEntryAlike(p: Program, id: TypeId, l: IRType, r: IRType)
    requires p.WellFormed() && Denotes(p, id, l) && Denotes(p, id, r)
    ensures Alike(l, r)
    decreases l, 1
  {
    match l
    case Array(u) => SameEntryAlike(p, p.Complex(id).children[0], u, r.of);
    case Cown(u) => SameEntryAlike(p, p.Complex(id).children[0], u, r.of);
    case Ref(u) => SameEntryAlike(p, p.Complex(id).children[0], u, r.of);
    case Tuple(us) =>
      forall i | 0 <= i < |us| ensures Alike(us[i], r.parts[i]) {
        SameEntryAlike(p, p.Complex(id).children[i], us[i], r.parts[i]);
      }
    case Union(us) => SameUnionAlike(p, id, l, r);
    case _ =>
  }

  lemma {:induction false} SameUnionAlike(p: Program, id: TypeId, l: IRType, r: IRType)
    requires p.WellFormed() && Denotes(p, id, l) && Denotes(p, id, r) && l.Union?
    ensures Alike(l, r)
    decreases l, 0
  {
    var us, vs := l.parts, r.parts;
    forall i | 0 <= i < |us| ensures AmongRight(us[i], vs) {
      var k := EntryOf(p, id, l, i);
      var j := MemberOf(p, id, r, k);
      SameEntryAlike(p, p.Complex(id).children[k], us[i], vs[j]);
    }
    forall j | 0 <= j < |vs| ensures AmongLeft(l, vs[j]) {
      var k := EntryOf(p, id, r, j);
      var i := MemberOf(p, id, l, k);
      SameEntryAlike(p, p.Complex(id).children[k], us[i], vs[j]);
    }
  }

  /** In an interned table alike types share an entry. */
  lemma {:induction false} AlikeEntry(p: Program, a: TypeId, b: TypeId, l: IRType, r: IRType)
    requires p.WellFormed() && Interned(p) && Denotes(p, a, l) && Denotes(p, b, r) && Alike(l, r)
    ensures a == b
    decreases l, 1
  {
    match l
    case Array(u) => AlikeEntry(p, p.Complex(a).children[0], p.Complex(b).children[0], u, r.of);
      assert p.Complex(a) == p.Complex(b);
    case Cown(u) => AlikeEntry(p, p.Complex(a).children[0], p.Complex(b).children[0], u, r.of);
      assert p.Complex(a) == p.Complex(b);
    case Ref(u) => AlikeEntry(p, p.Complex(a).children[0], p.Complex(b).children[0], u, r.of);
      assert p.Complex(a) == p.Complex(b);
    case Tuple(us) =>
      forall i | 0 <= i < |us| ensures p.Complex(a).children[i] == p.Complex(b).children[i] {
        AlikeEntry(p, p.Complex(a).children[i], p.Complex(b).children[i], us[i], r.parts[i]);
      }
      assert p.Complex(a) == p.Complex(b);
    case Union(us) =>
      AlikeMembers(p, a, b, l, r);
      AscendingUnique(p.Complex(a).children, p.Complex(b).children);
      assert p.Complex(a) == p.Complex(b);
    case _ =>
  }

  lemma {:induction false} AlikeMembers(p: Program, a: TypeId, b: TypeId, l: IRType, r: IRType)
    requires p.WellFormed() && Interned(p) && Denotes(p, a, l) && Denotes(p, b, r) && Alike(l, r) && l.Union?
    ensures forall x :: x in p.Complex(a).children <==> x in p.Complex(b).children
    decreases l, 0
  {
    var cs, ds := p.Complex(a).children, p.Complex(b).children;
    forall k | 0 <= k < |cs| ensures cs[k] in ds {
      var i := MemberOf(p, a, l, k);
      assert AmongRight(l.parts[i], r.parts);
      var j :| 0 <= j < |r.parts| && Alike(l.parts[i], r.parts[j]);
      var m := EntryOf(p, b, r, j);
      AlikeEntry(p, cs[k], ds[m], l.parts[i], r.parts[j]);
    }
    forall m | 0 <= m < |ds| ensures ds[m] in cs {
      var j := MemberOf(p, b, r, m);
      assert AmongLeft(l, r.parts[j]);
      var i :| 0 <= i < |l.parts| && Alike(l.parts[i], r.parts[j]);
      var k := EntryOf(p, a, l, i);
      AlikeEntry(p, cs[k], ds[m], l.parts[i], r.parts[j]);
    }
  }

  /** In an interned table two types share an entry exactly if they are the same up to the order of union members. */
  lemma OneEntry(p: Program, a: TypeId, b: TypeId, l: IRType, r: IRType)
    requires p.WellFormed() && Interned(p) && Denotes(p, a, l) && Denotes(p, b, r)
    ensures a == b <==> Alike(l, r)
  {
    if a == b {
      SameEntryAlike(p, a, l, r);
    }
    if Alike(l, r) {
      AlikeEntry(p, a, b, l, r);
    }
  }

  // ---------------------------------------------------------------- the interpreter's check on an interned table

  /** `Program::subtype` on the entries is `RTSubtype` on the types they stand for. */
  lemma {:induction false} SubtypeIsRTSubtype(p: Program, l: IRType, r: IRType, sub: TypeId, super: TypeId)
    requires p.WellFormed() && Interned(p) && Denotes(p, sub, l) && Denotes(p, super, r)
    ensures p.Subtype(sub, super) <==> RTSubtype(l, r)
    decreases Depth(l) + Depth(r), 2
  {
    OneEntry(p, sub, super, l, r);
    if r.Dyn? || l.Dyn? || Alike(l, r) {
    } else if l.Union? {
      UnionBelow(p, l, r, sub, super);
    } else if r.Union? {
      BelowUnion(p, l, r, sub, super);
    } else {
      ComplexRelated(p, l, r, sub, super);
    }
  }

  lemma {:induction false} UnionBelow(p: Program, l: IRType, r: IRType, sub: TypeId, super: TypeId)
    requires p.WellFormed() && Interned(p) && Denotes(p, sub, l) && Denotes(p, super, r)
    requires sub != super && !r.Dyn? && !Alike(l, r) && l.Union?
    ensures p.Subtype(sub, super) <==> RTSubtype(l, r)
    decreases Depth(l) + Depth(r), 1
  {
    var us, cs := l.parts, p.Complex(sub).children;
    p.ChildrenRank(sub);
    forall i | 0 <= i < |us|
      ensures exists k | 0 <= k < |cs| :: p.Subtype(cs[k], super) == RTSubtype(us[i], r)
    {
      DepthPart(us, i);
      var k := EntryOf(p, sub, l, i);
      SubtypeIsRTSubtype(p, us[i], r, cs[k], super);
    }
    forall k | 0 <= k < |cs|
      ensures exists i | 0 <= i < |us| :: p.Subtype(cs[k], super) == RTSubtype(us[i], r)
    {
      var i := MemberOf(p, sub, l, k);
      SubtypeIsRTSubtype(p, us[i], r, cs[k], super);
    }
  }

  lemma {:induction false} BelowUnion(p: Program, l: IRType, r: IRType, sub: TypeId, super: TypeId)
    requires p.WellFormed() && Interned(p) && Denotes(p, sub, l) && Denotes(p, super, r)
    requires sub != super && !l.Dyn? && !Alike(l, r) && !l.Union? && r.Union?
    ensures p.Subtype(sub, super) <==> RTSubtype(l, r)
    decreases Depth(l) + Depth(r), 1
  {
    var vs, ds := r.parts, p.Complex(super).children;
    p.ChildrenRank(super);
    forall j | 0 <= j < |vs|
      ensures exists k | 0 <= k < |ds| :: p.Subtype(sub, ds[k]) == RTSubtype(l, vs[j])
    {
      DepthPart(vs, j);
      var k := EntryOf(p, super, r, j);
      SubtypeIsRTSubtype(p, l, vs[j], sub, ds[k]);
    }
    forall k | 0 <= k < |ds|
      ensures exists j | 0 <= j < |vs| :: p.Subtype(sub, ds[k]) == RTSubtype(l, vs[j])
    {
      var j := MemberOf(p, super, r, k);
      SubtypeIsRTSubtype(p, l, vs[j], sub, ds[k]);
    }
  }

  lemma {:induction false} ComplexRelated(p: Program, l: IRType, r: IRType, sub: TypeId, super: TypeId)
    requires p.WellFormed() && Interned(p) && Denotes(p, sub, l) && Denotes(p, super, r)
    requires sub != super && !l.Dyn? && !r.Dyn? && !Alike(l, r) && !l.Union? && !r.Union?
    ensures p.Subtype(sub, super) <==> RTSubtype(l, r)
    decreases Depth(l) + Depth(r), 1
  {
    if l.Tuple? && (r.Tuple? || r.Array?) {
      p.ChildrenRank(sub);
      p.ChildrenRank(super);
      var cs, ds := p.Complex(sub).children, p.Complex(super).children;
      if r.Array? || |cs| == |ds| {
        forall i | 0 <= i < |l.parts|
          ensures var u, d := if r.Array? then r.of else r.parts[i], if r.Array? then ds[0] else ds[i];
            p.Subtype(cs[i], d) <==> RTSubtype(l.parts[i], u)
        {
          DepthPart(l.parts, i);
          if r.Tuple? {
            DepthPart(r.parts, i);
          }
          SubtypeIsRTSubtype(
            p, l.parts[i], if r.Array? then r.of else r.parts[i], cs[i], if r.Array? then ds[0] else ds[i]);
        }
      }
    } else if (l.Array? && r.Array?) || (l.Cown? && r.Cown?) || (l.Ref? && r.Ref?) {
      p.ChildrenRank(sub);
      p.ChildrenRank(super);
      var c, d := p.Complex(sub).children[0], p.Complex(super).children[0];
      SubtypeIsRTSubtype(p, l.of, r.of, c, d);
      SubtypeIsRTSubtype(p, r.of, l.of, d, c);
    }
  }

  // ---------------------------------------------------------------- the compiler's table

  lemma AppendEntry(p: Program, info: ComplexType)
    requires p.WellFormed() && Interned(p) && p.minComplex + |p.types| < DYNAMIC_TYPE_ID
    requires info.tag in {ArrayTag, CownTag, RefTag} ==> |info.children| == 1
    requires info.tag == UnionTag ==> Ascending(info.children)
    requires forall c | c in info.children :: p.ValidId(c)
    requires info !in p.types
    ensures var q := p.(types := p.types + [info]);
      q.WellFormed() && Interned(q)
  {
    var q := p.(types := p.types + [info]);
    forall i | 0 <= i < |q.types| ensures q.WellFormedEntry(i) {
      if i < |p.types| {
        assert p.WellFormedEntry(i);
      } else {
        assert forall k | 0 <= k < |info.children| :: info.children[k] in info.children;
      }
    }
  }

  /** Every class mentioned has been given an id. */
  predicate KnownClasses(t: IRType, minComplex: TypeId)
    decreases t
  {
    match t
    case Prim(i) => i < NUM_PRIMITIVES
    case Class(c) => NUM_PRIMITIVES + c < minComplex
    case Array(u) => KnownClasses(u, minComplex)
    case Cown(u) => KnownClasses(u, minComplex)
    case Ref(u) => KnownClasses(u, minComplex)
    case Tuple(us) => forall i | 0 <= i < |us| :: KnownClasses(us[i], minComplex)
    case Union(us) => forall i | 0 <= i < |us| :: KnownClasses(us[i], minComplex)
    case Dyn => true
  }

  /** The index gives each entry its id, and knows nothing else. */
  ghost predicate Indexed(types: seq<ComplexType>, infoIds: map<ComplexType, TypeId>, minComplex: TypeId) {
    && (forall i | 0 <= i < |types| :: types[i] in infoIds && infoIds[types[i]] == minComplex + i)
    && (forall info | info in infoIds :: exists i | 0 <= i < |types| :: types[i] == info)
  }

  lemma IndexAppend(types: seq<ComplexType>, infoIds: map<ComplexType, TypeId>, minComplex: TypeId, info: ComplexType)
    requires Indexed(types, infoIds, minComplex) && info !in infoIds && minComplex + |types| < DYNAMIC_TYPE_ID
    ensures Indexed(types + [info], infoIds[info := minComplex + |types|], minComplex)
  {
    var more, ids := types + [info], infoIds[info := minComplex + |types|];
    assert more[|types|] == info;
    forall known | known in ids ensures exists i | 0 <= i < |more| :: more[i] == known {
      if known != info {
        var i :| 0 <= i < |types| && types[i] == known;
        assert more[i] == known;
      }
    }
  }

  class Compilation {
    const minComplex: TypeId
    var types: seq<ComplexType>
    var infoIds: map<ComplexType, TypeId>

    ghost predicate Valid()
      reads this
    {
      && Table().WellFormed()
      && Interned(Table())
      && Indexed(types, infoIds, minComplex)
    }

    function Table(): Program
      reads this
    {
      Program(minComplex, types)
    }

    constructor (classes: nat)
      requires NUM_PRIMITIVES + classes <= DYNAMIC_TYPE_ID
      ensures Valid() && types == [] && minComplex == NUM_PRIMITIVES + classes
    {
      minComplex := NUM_PRIMITIVES + classes;
      types := [];
      infoIds := map[];
    }

    /** The id of `info`: the one it already has, or the next free one. */
    method Intern(info: ComplexType) returns (id: TypeId)
      requires Valid() && minComplex + |types| < DYNAMIC_TYPE_ID
      requires info.tag in {ArrayTag, CownTag, RefTag} ==> |info.children| == 1
      requires info.tag == UnionTag ==> Ascending(info.children)
      requires forall c | c in info.children :: Table().ValidId(c)
      modifies this
      ensures Valid() && Extends(old(Table()), Table()) && |types| <= |old(types)| + 1
      ensures Table().ValidId(id) && Table().IsComplex(id) && id != DYNAMIC_TYPE_ID && Table().Complex(id) == info
      ensures types == if info in old(infoIds) then old(types) else old(types) + [info]
    {
      if info in infoIds {
        id := infoIds[info];
        return;
      }
      id := |types| + minComplex;
      assert info !in types;
      AppendEntry(Table(), info);
      IndexAppend(types, infoIds, minComplex, info);
      infoIds := infoIds[info := id];
      types := types + [info];
    }

    /** The id of a type; the types inside it are interned first. */
    method TypeIdOf(t: IRType) returns (id: TypeId)
      requires Valid() && KnownClasses(t, minComplex)
      requires minComplex + |types| + Depth(t) <= DYNAMIC_TYPE_ID
      modifies this
      ensures Valid() && Extends(old(Table()), Table()) && |types| <= |old(types)| + Depth(t)
      ensures Denotes(Table(), id, t)
      decreases Depth(t), 0
    {
      match t
      case Dyn => id := DYNAMIC_TYPE_ID;
      case Prim(i) => id := i;
      case Class(c) => id := c + NUM_PRIMITIVES;
      case Array(u) => id := WrappedId(ArrayTag, u, t);
      case Cown(u) => id := WrappedId(CownTag, u, t);
      case Ref(u) => id := WrappedId(RefTag, u, t);
      case Union(us) =>
        var ids := TypeIdsOf(us);
        ghost var before := Table();
        id := Intern(ComplexType(UnionTag, SortedUnique(ids)));
        UnionEntry(before, Table(), id, ids, t);
      case Tuple(us) =>
        var ids := TypeIdsOf(us);
        ghost var before := Table();
        id := Intern(ComplexType(TupleTag, ids));
        forall i | 0 <= i < |us| ensures Denotes(Table(), ids[i], us[i]) {
          DenotesExtends(before, Table(), ids[i], us[i]);
        }
    }

    method WrappedId(tag: TypeTag, u: IRType, ghost t: IRType) returns (id: TypeId)
      requires Valid() && KnownClasses(u, minComplex)
      requires (tag == ArrayTag && t == Array(u)) || (tag == CownTag && t == Cown(u)) || (tag == RefTag && t == Ref(u))
      requires minComplex + |types| + Depth(t) <= DYNAMIC_TYPE_ID
      modifies this
      ensures Valid() && Extends(old(Table()), Table()) && |types| <= |old(types)| + Depth(t)
      ensures Denotes(Table(), id, t)
      decreases Depth(u), 1
    {
      var child := TypeIdOf(u);
      ghost var before := Table();
      id := Intern(ComplexType(tag, [child]));
      DenotesExtends(before, Table(), child, u);
    }

    method TypeIdsOf(ts: seq<IRType>) returns (ids: seq<TypeId>)
      requires Valid() && forall i | 0 <= i < |ts| :: KnownClasses(ts[i], minComplex)
      requires minComplex + |types| + DepthAll(ts) <= DYNAMIC_TYPE_ID
      modifies this
      ensures Valid() && Extends(old(Table()), Table()) && |types| <= |old(types)| + DepthAll(ts)
      ensures |ids| == |ts| && forall i | 0 <= i < |ts| :: Denotes(Table(), ids[i], ts[i])
      decreases DepthAll(ts), 1, |ts|
    {
      if ts == [] {
        return [];
      }
      var first := TypeIdOf(ts[0]);
      ghost var before := Table();
      var rest := TypeIdsOf(ts[1..]);
      ids := [first] + rest;
      DenotesExtends(before, Table(), first, ts[0]);
    }
  }

  lemma UnionEntry(p: Program, q: Program, id: TypeId, ids: seq<TypeId>, t: IRType)
    requires p.WellFormed() && q.WellFormed() && Extends(p, q) && t.Union? && |ids| == |t.parts|
    requires forall i | 0 <= i < |ids| :: Denotes(p, ids[i], t.parts[i])
    requires q.ValidId(id) && q.IsComplex(id) && id != DYNAMIC_TYPE_ID
    requires q.Complex(id) == ComplexType(UnionTag, SortedUnique(ids))
    ensures Denotes(q, id, t)
  {
    var cs := q.Complex(id).children;
    forall i | 0 <= i < |ids| ensures Denotes(q, ids[i], t.parts[i]) {
      DenotesExtends(p, q, ids[i], t.parts[i]);
    }
    forall i | 0 <= i < |t.parts| ensures HasEntry(q, id, t.parts[i], t) {
      assert ids[i] in cs;
      var k :| 0 <= k < |cs| && cs[k] == ids[i];
    }
    forall k | 0 <= k < |cs| ensures HasMember(q, id, k, t.parts, t) {
      assert cs[k] in ids;
      var i :| 0 <= i < |ids| && ids[i] == cs[k];
    }
  }

  /**
   End to end: two types interned one after the other get ids on which the interpreter computes `RTSubtype`,
   and accepts what the compiler has accepted.
   */
  method CompileAndCheck(c: Compilation, l: IRType, r: IRType) returns (sub: TypeId, super: TypeId)
    requires c.Valid() && KnownClasses(l, c.minComplex) && KnownClasses(r, c.minComplex)
    requires c.minComplex + |c.types| + Depth(l) + Depth(r) <= DYNAMIC_TYPE_ID
    modifies c
    ensures c.Valid() && c.Table().ValidId(sub) && c.Table().ValidId(super)
    ensures c.Table().Subtype(sub, super) <==> RTSubtype(l, r)
    ensures sub == super <==> Alike(l, r)
    ensures NoDynInUnions(l) && NoDynInUnions(r) && IRSubtype(l, r) ==> c.Table().Subtype(sub, super)
    ensures Unmixed(l, r) && c.Table().Subtype(sub, super) ==> IRSubtype(l, r)
  {
    sub := c.TypeIdOf(l);
    ghost var before := c.Table();
    super := c.TypeIdOf(r);
    DenotesExtends(before, c.Table(), sub, l);
    BothChecks(c.Table(), l, r, sub, super);
  }

  lemma BothChecks(p: Program, l: IRType, r: IRType, sub: TypeId, super: TypeId)
    requires p.WellFormed() && Interned(p) && Denotes(p, sub, l) && Denotes(p, super, r)
    ensures p.Subtype(sub, super) <==> RTSubtype(l, r)
    ensures sub == super <==> Alike(l, r)
    ensures NoDynInUnions(l) && NoDynInUnions(r) && IRSubtype(l, r) ==> p.Subtype(sub, super)
    ensures Unmixed(l, r) && p.Subtype(sub, super) ==> IRSubtype(l, r)
  {
    SubtypeIsRTSubtype(p, l, r, sub, super);
    OneEntry(p, sub, super, l, r);
    if NoDynInUnions(l) && NoDynInUnions(r) && IRSubtype(l, r) {
      CompileTimeSound(p, l, r, sub, super);
    }
    if Unmixed(l, r) && p.Subtype(sub, super) {
      RunTimeSound(p, l, r, sub, super);
    }
  }
}
