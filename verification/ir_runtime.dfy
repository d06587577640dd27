/**
 The compiler's subtype check against the interpreter's: interning of types into the table that is
 emitted (virc/model/compilation.cc `type_id`), and the relation between `IRSubtype` and
 `Program::subtype` (vbci/program.cc) on the result.
 */
module CompileTimeRunTime {
  import opened IRTypes
  import opened RuntimeTypes

  // ---------------------------------------------------------------- types as table entries

  /** Entry `id` of the table stands for `t`; a union's members may be merged and reordered. */
  ghost predicate Denotes(p: Program, id: TypeId, t: IRType)
    requires p.WellFormed()
    decreases t, 1
  {
    && p.ValidId(id)
    && match t
       case Dyn => id == DYNAMIC_TYPE_ID
       case Prim(i) => id == i && i < NUM_PRIMITIVES
       case Class(c) => id == NUM_PRIMITIVES + c && id < p.minComplex
       case Array(u) => p.HasTag(id, ArrayTag) && DenotesWrapped(p, id, u, t)
       case Cown(u) => p.HasTag(id, CownTag) && DenotesWrapped(p, id, u, t)
       case Ref(u) => p.HasTag(id, RefTag) && DenotesWrapped(p, id, u, t)
       case Tuple(us) => p.HasTag(id, TupleTag) && DenotesTuple(p, id, us, t)
       case Union(us) => p.HasTag(id, UnionTag) && DenotesUnion(p, id, us, t)
  }

  ghost predicate DenotesWrapped(p: Program, id: TypeId, u: IRType, t: IRType)
    requires p.WellFormed() && p.ValidId(id) && id != DYNAMIC_TYPE_ID && p.IsComplex(id) && u < t
    decreases t, 0
  {
    |p.Complex(id).children| == 1 && Denotes(p, p.Complex(id).children[0], u)
  }

  ghost predicate DenotesTuple(p: Program, id: TypeId, us: seq<IRType>, t: IRType)
    requires p.WellFormed() && p.ValidId(id) && id != DYNAMIC_TYPE_ID && p.IsComplex(id) && t == Tuple(us)
    decreases t, 0
  {
    var cs := p.Complex(id).children;
    |cs| == |us| && forall i | 0 <= i < |us| :: Denotes(p, cs[i], us[i])
  }

  ghost predicate DenotesUnion(p: Program, id: TypeId, us: seq<IRType>, t: IRType)
    requires p.WellFormed() && p.ValidId(id) && id != DYNAMIC_TYPE_ID && p.IsComplex(id) && t == Union(us)
    decreases t, 0
  {
    && (forall i {:trigger HasEntry(p, id, us[i], t)} | 0 <= i < |us| :: HasEntry(p, id, us[i], t))
    && (forall k {:trigger HasMember(p, id, k, us, t)} | 0 <= k < |p.Complex(id).children| :: HasMember(p, id, k, us, t))
  }

  ghost predicate HasEntry(p: Program, id: TypeId, u: IRType, t: IRType)
    requires p.WellFormed() && p.ValidId(id) && id != DYNAMIC_TYPE_ID && p.IsComplex(id) && u < t
    decreases u, 2
  {
    var cs := p.Complex(id).children;
    exists k | 0 <= k < |cs| :: Denotes(p, cs[k], u)
  }

  ghost predicate HasMember(p: Program, id: TypeId, k: nat, us: seq<IRType>, t: IRType)
    requires p.WellFormed() && p.ValidId(id) && id != DYNAMIC_TYPE_ID && p.IsComplex(id) && t == Union(us)
    requires k < |p.Complex(id).children|
    decreases t, 0, 0
  {
    exists i | 0 <= i < |us| :: Denotes(p, p.Complex(id).children[k], us[i])
  }

  /** The entry of a union member. */
  lemma EntryOf(p: Program, id: TypeId, t: IRType, i: nat) returns (k: nat)
    requires p.WellFormed() && t.Union? && Denotes(p, id, t) && i < |t.parts|
    ensures k < |p.Complex(id).children| && Denotes(p, p.Complex(id).children[k], t.parts[i])
  {
    assert HasEntry(p, id, t.parts[i], t);
    var cs := p.Complex(id).children;
    k :| 0 <= k < |cs| && Denotes(p, cs[k], t.parts[i]);
  }

  /** A union member with a given entry. */
  lemma MemberOf(p: Program, id: TypeId, t: IRType, k: nat) returns (i: nat)
    requires p.WellFormed() && t.Union? && Denotes(p, id, t) && k < |p.Complex(id).children|
    ensures i < |t.parts| && Denotes(p, p.Complex(id).children[k], t.parts[i]) && Depth(t.parts[i]) < Depth(t)
  {
    assert HasMember(p, id, k, t.parts, t);
    var us := t.parts;
    i :| 0 <= i < |us| && Denotes(p, p.Complex(id).children[k], us[i]);
    DepthPart(t.parts, i);
  }

  // ---------------------------------------------------------------- the interpreter's relation on types

  /** The same type, but for order and repetition in unions. */
  predicate Alike(l: IRType, r: IRType)
    decreases l, 2
  {
    match l
    case Array(u) => r.Array? && Alike(u, r.of)
    case Cown(u) => r.Cown? && Alike(u, r.of)
    case Ref(u) => r.Ref? && Alike(u, r.of)
    case Tuple(us) => r.Tuple? && |us| == |r.parts| && forall i | 0 <= i < |us| :: Alike(us[i], r.parts[i])
    case Union(us) =>
      && r.Union?
      && (forall i | 0 <= i < |us| :: AmongRight(us[i], r.parts))
      && (forall j | 0 <= j < |r.parts| :: AmongLeft(l, r.parts[j]))
    case _ => l == r
  }

  predicate AmongRight(u: IRType, vs: seq<IRType>)
    decreases u, 3
  {
    exists j | 0 <= j < |vs| :: Alike(u, vs[j])
  }

  predicate AmongLeft(l: IRType, v: IRType)
    requires l.Union?
    decreases l, 0
  {
    exists i | 0 <= i < |l.parts| :: Alike(l.parts[i], v)
  }

  /**
   Dyn is above everything and below nothing else, alike types are below each other, unions are decomposed, wrappers
   are invariant and tuples covariant; a tuple is below an array if all its elements are below the array's.
   */
  predicate RTSubtype(l: IRType, r: IRType)
    decreases Depth(l) + Depth(r), 1
  {
    if r.Dyn? then true
    else if l.Dyn? then false
    else if Alike(l, r) then true
    else if l.Union? then forall i | 0 <= i < |l.parts| :: DepthPart(l.parts, i); RTSubtype(l.parts[i], r)
    else if r.Union? then exists i | 0 <= i < |r.parts| :: DepthPart(r.parts, i); RTSubtype(l, r.parts[i])
    else RTAxiom(l, r)
  }

  predicate RTAxiom(l: IRType, r: IRType)
    decreases Depth(l) + Depth(r), 0
  {
    match r
    case Array(u) =>
      || (l.Array? && RTSubtype(l.of, u) && RTSubtype(u, l.of))
      || (l.Tuple? && forall i | 0 <= i < |l.parts| :: DepthPart(l.parts, i); RTSubtype(l.parts[i], u))
    case Cown(u) => l.Cown? && RTSubtype(l.of, u) && RTSubtype(u, l.of)
    case Ref(u) => l.Ref? && RTSubtype(l.of, u) && RTSubtype(u, l.of)
    case Tuple(us) =>
      && l.Tuple?
      && |l.parts| == |us|
      && (forall i | 0 <= i < |us| ::
            DepthPart(l.parts, i);
            DepthPart(us, i);
            RTSubtype(l.parts[i], us[i]))
    case _ => false
  }

  // ---------------------------------------------------------------- compile time against run time

  predicate DynLeaf(t: IRType)
    decreases t
  {
    t.Dyn? || (t.Union? && exists i | 0 <= i < |t.parts| :: DynLeaf(t.parts[i]))
  }

  /** No union inside `t` has the dynamic type among its alternatives. */
  predicate NoDynInUnions(t: IRType)
    decreases t
  {
    match t
    case Array(u) => NoDynInUnions(u)
    case Cown(u) => NoDynInUnions(u)
    case Ref(u) => NoDynInUnions(u)
    case Tuple(us) => forall i | 0 <= i < |us| :: NoDynInUnions(us[i])
    case Union(us) => !DynLeaf(t) && forall i | 0 <= i < |us| :: NoDynInUnions(us[i])
    case _ => true
  }

  /** Only the dynamic type itself is above the dynamic type. */
  lemma {:induction false} AboveDyn(r: IRType)
    requires IRSubtype(Dyn, r)
    ensures DynLeaf(r)
    decreases Depth(r)
  {
    if r.Union? {
      var i :| 0 <= i < |r.parts| && IRSubtype(Dyn, r.parts[i]);
      DepthPart(r.parts, i);
      AboveDyn(r.parts[i]);
    }
  }

  /** What the compiler accepts, the interpreter accepts. */
  lemma {:induction false} CompileTimeSound(p: Program, l: IRType, r: IRType, sub: TypeId, super: TypeId)
    requires p.WellFormed() && Denotes(p, sub, l) && Denotes(p, super, r)
    requires NoDynInUnions(l) && NoDynInUnions(r)
    requires IRSubtype(l, r)
    ensures p.Subtype(sub, super)
    decreases Depth(l) + Depth(r), 1
  {
    if super == DYNAMIC_TYPE_ID || sub == super {
    } else if l.Union? {
      var cs := p.Complex(sub).children;
      p.ChildrenRank(sub);
      forall k | 0 <= k < |cs| ensures p.Subtype(cs[k], super) {
        var i := MemberOf(p, sub, l, k);
        CompileTimeSound(p, l.parts[i], r, cs[k], super);
      }
    } else if r.Union? {
      var i :| 0 <= i < |r.parts| && IRSubtype(l, r.parts[i]);
      SoundIntoUnion(p, l, r, sub, super, i);
    } else if r.Tuple? {
      SoundTuple(p, l, r, sub, super);
    } else if r.Array? || r.Cown? || r.Ref? {
      p.ChildrenRank(sub);
      p.ChildrenRank(super);
      var c, d := p.Complex(sub).children[0], p.Complex(super).children[0];
      CompileTimeSound(p, l.of, r.of, c, d);
      CompileTimeSound(p, r.of, l.of, d, c);
    }
  }

  lemma {:induction false} SoundIntoUnion(p: Program, l: IRType, r: IRType, sub: TypeId, super: TypeId, i: nat)
    requires p.WellFormed() && Denotes(p, sub, l) && Denotes(p, super, r)
    requires NoDynInUnions(l) && NoDynInUnions(r)
    requires !l.Union? && r.Union? && i < |r.parts| && IRSubtype(l, r.parts[i])
    ensures p.Subtype(sub, super)
    decreases Depth(l) + Depth(r), 0
  {
    if l.Dyn? {
      AboveDyn(r.parts[i]);
    }
    var k := EntryOf(p, super, r, i);
    p.ChildrenRank(super);
    DepthPart(r.parts, i);
    CompileTimeSound(p, l, r.parts[i], sub, p.Complex(super).children[k]);
  }

  lemma {:induction false} SoundTuple(p: Program, l: IRType, r: IRType, sub: TypeId, super: TypeId)
    requires p.WellFormed() && Denotes(p, sub, l) && Denotes(p, super, r)
    requires NoDynInUnions(l) && NoDynInUnions(r)
    requires l.Tuple? && r.Tuple? && IRSubtype(l, r)
    ensures p.Subtype(sub, super)
    decreases Depth(l) + Depth(r), 0
  {
    p.ChildrenRank(sub);
    p.ChildrenRank(super);
    var cs, ds := p.Complex(sub).children, p.Complex(super).children;
    forall i | 0 <= i < |r.parts| ensures p.Subtype(cs[i], ds[i]) {
      DepthPart(l.parts, i);
      DepthPart(r.parts, i);
      CompileTimeSound(p, l.parts[i], r.parts[i], cs[i], ds[i]);
    }
  }

  predicate NoArrays(t: IRType)
    decreases t
  {
    match t
    case Array(_) => false
    case Cown(u) => NoArrays(u)
    case Ref(u) => NoArrays(u)
    case Tuple(us) => forall i | 0 <= i < |us| :: NoArrays(us[i])
    case Union(us) => forall i | 0 <= i < |us| :: NoArrays(us[i])
    case _ => true
  }

  predicate NoTuples(t: IRType)
    decreases t
  {
    match t
    case Tuple(_) => false
    case Array(u) => NoTuples(u)
    case Cown(u) => NoTuples(u)
    case Ref(u) => NoTuples(u)
    case Union(us) => forall i | 0 <= i < |us| :: NoTuples(us[i])
    case _ => true
  }

  /** Nowhere in the two types can a tuple meet an array. */
  predicate Unmixed(l: IRType, r: IRType) {
    (NoArrays(l) && NoArrays(r)) || (NoTuples(l) && NoTuples(r))
  }

  /** Two types with the same table entry are equivalent to the compiler. */
  lemma {:induction false} SameEntry(p: Program, id: TypeId, l: IRType, r: IRType)
    requires p.WellFormed() && Denotes(p, id, l) && Denotes(p, id, r)
    ensures IRSubtype(l, r)
    decreases Depth(l) + Depth(r), 1
  {
    match l
    case Union(us) => SameUnion(p, id, l, r);
    case Tuple(us) => SameTuple(p, id, l, r);
    case Array(u) => SameWrapped(p, id, l, r);
    case Cown(u) => SameWrapped(p, id, l, r);
    case Ref(u) => SameWrapped(p, id, l, r);
    case _ =>
  }

  lemma {:induction false} SameUnion(p: Program, id: TypeId, l: IRType, r: IRType)
    requires p.WellFormed() && Denotes(p, id, l) && Denotes(p, id, r)
    requires l.Union?
    ensures IRSubtype(l, r)
    decreases Depth(l) + Depth(r), 0
  {
    assert r.Union?;
    forall i | 0 <= i < |l.parts| ensures IRSubtype(l.parts[i], r) {
      SameMember(p, id, l, r, i);
    }
  }

  lemma {:induction false} SameMember(p: Program, id: TypeId, l: IRType, r: IRType, i: nat)
    requires p.WellFormed() && Denotes(p, id, l) && Denotes(p, id, r)
    requires l.Union? && r.Union? && i < |l.parts|
    ensures IRSubtype(l.parts[i], r)
    decreases Depth(l) + Depth(r), 0, 0
  {
    DepthPart(l.parts, i);
    var k := EntryOf(p, id, l, i);
    var j := MemberOf(p, id, r, k);
    SameEntry(p, p.Complex(id).children[k], l.parts[i], r.parts[j]);
    IntoUnion(l.parts[i], r.parts, j);
  }

  lemma {:induction false} SameTuple(p: Program, id: TypeId, l: IRType, r: IRType)
    requires p.WellFormed() && Denotes(p, id, l) && Denotes(p, id, r)
    requires l.Tuple?
    ensures IRSubtype(l, r)
    decreases Depth(l) + Depth(r), 0
  {
    forall i | 0 <= i < |l.parts| ensures IRSubtype(l.parts[i], r.parts[i]) {
      DepthPart(l.parts, i);
      DepthPart(r.parts, i);
      SameEntry(p, p.Complex(id).children[i], l.parts[i], r.parts[i]);
    }
  }

  lemma {:induction false} SameWrapped(p: Program, id: TypeId, l: IRType, r: IRType)
    requires p.WellFormed() && Denotes(p, id, l) && Denotes(p, id, r)
    requires l.Array? || l.Cown? || l.Ref?
    ensures IRSubtype(l, r)
    decreases Depth(l) + Depth(r), 0
  {
    SameEntry(p, p.Complex(id).children[0], l.of, r.of);
    SameEntry(p, p.Complex(id).children[0], r.of, l.of);
  }

  /** Without arrays, or without tuples, the interpreter accepts nothing the compiler would not. */
  lemma {:induction false} RunTimeSound(p: Program, l: IRType, r: IRType, sub: TypeId, super: TypeId)
    requires p.WellFormed() && Denotes(p, sub, l) && Denotes(p, super, r)
    requires Unmixed(l, r)
    requires p.Subtype(sub, super)
    ensures IRSubtype(l, r)
    decreases Depth(l) + Depth(r), 1
  {
    if sub == super {
      SameEntry(p, sub, l, r);
    } else if l.Union? {
      p.ChildrenRank(sub);
      forall i | 0 <= i < |l.parts| ensures IRSubtype(l.parts[i], r) {
        DepthPart(l.parts, i);
        var k := EntryOf(p, sub, l, i);
        if super != DYNAMIC_TYPE_ID {
          assert p.Subtype(p.Complex(sub).children[k], super);
        }
        RunTimeSound(p, l.parts[i], r, p.Complex(sub).children[k], super);
      }
    } else if r.Union? {
      RunTimeIntoUnion(p, l, r, sub, super);
    } else if r.Tuple? {
      RunTimeTuple(p, l, r, sub, super);
    } else if r.Array? || r.Cown? || r.Ref? {
      p.ChildrenRank(sub);
      p.ChildrenRank(super);
      RunTimeSound(p, l.of, r.of, p.Complex(sub).children[0], p.Complex(super).children[0]);
      RunTimeSound(p, r.of, l.of, p.Complex(super).children[0], p.Complex(sub).children[0]);
    }
  }

  lemma {:induction false} RunTimeIntoUnion(p: Program, l: IRType, r: IRType, sub: TypeId, super: TypeId)
    requires p.WellFormed() && Denotes(p, sub, l) && Denotes(p, super, r)
    requires Unmixed(l, r)
    requires !l.Union? && r.Union? && sub != super && p.Subtype(sub, super)
    ensures IRSubtype(l, r)
    decreases Depth(l) + Depth(r), 0
  {
    var cs := p.Complex(super).children;
    p.ChildrenRank(super);
    var k :| 0 <= k < |cs| && p.Subtype(sub, cs[k]);
    var i := MemberOf(p, super, r, k);
    RunTimeSound(p, l, r.parts[i], sub, cs[k]);
  }

  lemma {:induction false} RunTimeTuple(p: Program, l: IRType, r: IRType, sub: TypeId, super: TypeId)
    requires p.WellFormed() && Denotes(p, sub, l) && Denotes(p, super, r)
    requires Unmixed(l, r)
    requires !l.Union? && r.Tuple? && sub != super && p.Subtype(sub, super)
    ensures IRSubtype(l, r)
    decreases Depth(l) + Depth(r), 0
  {
    p.ChildrenRank(sub);
    p.ChildrenRank(super);
    var cs, ds := p.Complex(sub).children, p.Complex(super).children;
    forall i | 0 <= i < |r.parts| ensures IRSubtype(l.parts[i], r.parts[i]) {
      DepthPart(l.parts, i);
      DepthPart(r.parts, i);
      RunTimeSound(p, l.parts[i], r.parts[i], cs[i], ds[i]);
    }
  }

  /** The two checks are the same relation on types without Dyn inside unions, if they hold no arrays or no tuples. */
  lemma ChecksAgree(p: Program, l: IRType, r: IRType, sub: TypeId, super: TypeId)
    requires p.WellFormed() && Denotes(p, sub, l) && Denotes(p, super, r)
    requires NoDynInUnions(l) && NoDynInUnions(r) && Unmixed(l, r)
    ensures IRSubtype(l, r) <==> p.Subtype(sub, super)
  {
    if IRSubtype(l, r) {
      CompileTimeSound(p, l, r, sub, super);
    }
    if p.Subtype(sub, super) {
      RunTimeSound(p, l, r, sub, super);
    }
  }

  /** Dyn inside a union: the compiler accepts what the interpreter rejects. */
  lemma DynInUnionDiffers() returns (p: Program, sub: TypeId, super: TypeId)
    ensures p.WellFormed() && Denotes(p, sub, Dyn) && Denotes(p, super, Union([Dyn]))
    ensures IRSubtype(Dyn, Union([Dyn])) && !p.Subtype(sub, super)
  {
    p := Program(NUM_PRIMITIVES, [ComplexType(UnionTag, [DYNAMIC_TYPE_ID])]);
    sub, super := DYNAMIC_TYPE_ID, NUM_PRIMITIVES;
    assert p.WellFormedEntry(0);
    assert Denotes(p, p.Complex(super).children[0], [Dyn][0]);
    assert HasEntry(p, super, [Dyn][0], Union([Dyn]));
    assert HasMember(p, super, 0, [Dyn], Union([Dyn]));
    assert IRSubtype(Dyn, [Dyn][0]);
  }

  /** A tuple against an array: the interpreter accepts what the compiler rejects, if the elements fit. */
  lemma TupleAsArrayDiffers() returns (p: Program, sub: TypeId, super: TypeId, other: TypeId)
    ensures p.WellFormed() && Denotes(p, sub, Tuple([Prim(2)]))
    ensures Denotes(p, super, Array(Prim(2))) && !IRSubtype(Tuple([Prim(2)]), Array(Prim(2))) && p.Subtype(sub, super)
    ensures Denotes(p, other, Array(Prim(1))) && !p.Subtype(sub, other)
  {
    p := Program(NUM_PRIMITIVES, [ComplexType(TupleTag, [2]), ComplexType(ArrayTag, [2]), ComplexType(ArrayTag, [1])]);
    sub, super, other := NUM_PRIMITIVES, NUM_PRIMITIVES + 1, NUM_PRIMITIVES + 2;
    assert p.WellFormedEntry(0) && p.WellFormedEntry(1) && p.WellFormedEntry(2);
    assert p.Complex(sub).children[0] == 2 && !p.Subtype(2, 1);
  }
}
