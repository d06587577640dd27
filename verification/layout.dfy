/**
 Slot layouts and values in slots (vbci/program.cc `layout_type_id`, vbci/value.cc `to_addr` and
 `from_addr`).  The layout of a slot is computed from its declared type alone; a store only checks
 that the value's own type is a run-time subtype of it.
 */
module Layouts {
  import opened RuntimeTypes

  /** How a live value is tagged, and also how a slot is laid out; see vbci/value_type.h. */
  datatype ValueType =
    | Prim(index: nat)
    | Object | Array | Cown
    | RegisterRef | FieldRef | ArrayRef | CownRef
    | Function | Error
    | Dyn | Invalid

  /** A layout, or the error raised for a union without members. */
  datatype Layout = Rep(valueType: ValueType) | BadType

  /** `Program::layout_type_id`. */
  function LayoutOf(p: Program, id: TypeId): Layout
    requires p.WellFormed() && p.ValidId(id)
    decreases p.Rank(id), 0
  {
    if id == DYNAMIC_TYPE_ID then Rep(Dyn)
    else if id < NUM_PRIMITIVES then Rep(Prim(id))
    else if id < p.minComplex then Rep(Object)
    else
      match p.Complex(id).tag
      case ArrayTag => Rep(Array)
      case CownTag => Rep(Cown)
      case RefTag => Rep(Dyn)
      case TupleTag => Rep(Array)
      case UnionTag => UnionLayout(p, id)
  }

  /** `Program::layout_union_type`: the common layout of the members, or a whole value. */
  function UnionLayout(p: Program, id: TypeId): Layout
    requires p.WellFormed() && p.ValidId(id) && p.IsUnion(id)
    decreases p.Rank(id), 0, 0
  {
    if p.Complex(id).children == [] then BadType
    else
      p.ChildrenRank(id);
      var rep := LayoutOf(p, p.Complex(id).children[0]);
      if rep.BadType? then BadType else MembersFrom(p, id, 1, rep)
  }

  /** The scan of the members from position `i` on, given the layout of the first. */
  function MembersFrom(p: Program, id: TypeId, i: nat, rep: Layout): Layout
    requires p.WellFormed() && p.ValidId(id) && p.IsUnion(id)
    requires 0 < i <= |p.Complex(id).children|
    decreases p.Rank(id), 0, 0, |p.Complex(id).children| - i
  {
    var cs := p.Complex(id).children;
    if i == |cs| then rep
    else
      p.ChildrenRank(id);
      var next := LayoutOf(p, cs[i]);
      if next.BadType? then BadType
      else if next != rep then Rep(Dyn)
      else MembersFrom(p, id, i + 1, rep)
  }

  lemma {:induction false} MembersAgree(p: Program, id: TypeId, i: nat, rep: Layout, k: nat)
    requires p.WellFormed() && p.ValidId(id) && p.IsUnion(id)
    requires 0 < i <= k < |p.Complex(id).children| && rep.Rep?
    requires MembersFrom(p, id, i, rep).Rep?
    ensures p.ValidId(p.Complex(id).children[k])
    ensures MembersFrom(p, id, i, rep) in {Rep(Dyn), LayoutOf(p, p.Complex(id).children[k])}
    decreases k - i
  {
    p.ChildrenRank(id);
    var next := LayoutOf(p, p.Complex(id).children[i]);
    if next == rep && i < k {
      MembersAgree(p, id, i + 1, rep, k);
    } else if next == rep {
      MembersKeep(p, id, i + 1, rep);
    }
  }

  lemma {:induction false} MembersKeep(p: Program, id: TypeId, i: nat, rep: Layout)
    requires p.WellFormed() && p.ValidId(id) && p.IsUnion(id)
    requires 0 < i <= |p.Complex(id).children|
    ensures MembersFrom(p, id, i, rep) in {rep, Rep(Dyn), BadType}
    decreases |p.Complex(id).children| - i
  {
    p.ChildrenRank(id);
    if i < |p.Complex(id).children| {
      MembersKeep(p, id, i + 1, rep);
    }
  }

  /** A union that has a layout stores whole values unless every member has that very layout. */
  lemma UnionLayoutCoversMembers(p: Program, id: TypeId, k: nat)
    requires p.WellFormed() && p.ValidId(id) && p.IsUnion(id)
    requires LayoutOf(p, id).Rep? && k < |p.Complex(id).children|
    ensures p.ValidId(p.Complex(id).children[k])
    ensures LayoutOf(p, id) in {Rep(Dyn), LayoutOf(p, p.Complex(id).children[k])}
  {
    p.ChildrenRank(id);
    assert LayoutOf(p, id) == UnionLayout(p, id) by {
      assert id >= NUM_PRIMITIVES;
    }
    var rep := LayoutOf(p, p.Complex(id).children[0]);
    if k == 0 {
      MembersKeep(p, id, 1, rep);
    } else {
      MembersAgree(p, id, 1, rep, k);
    }
  }

  function MemberLayout(p: Program, id: TypeId, k: nat): Layout
    requires p.WellFormed() && p.ValidId(id) && p.IsUnion(id) && k < |p.Complex(id).children|
  {
    p.ChildRank(id, k);
    LayoutOf(p, p.Complex(id).children[k])
  }

  /** All members before the `k`-th have the layout of the first. */
  ghost predicate SameBefore(p: Program, id: TypeId, k: nat)
    requires p.WellFormed() && p.ValidId(id) && p.IsUnion(id) && k <= |p.Complex(id).children|
  {
    forall j | 0 <= j < k :: MemberLayout(p, id, j) == MemberLayout(p, id, 0)
  }

  /** The `k`-th member is malformed, and none before it has settled that whole values are stored. */
  ghost predicate Spoils(p: Program, id: TypeId, k: nat)
    requires p.WellFormed() && p.ValidId(id) && p.IsUnion(id) && k < |p.Complex(id).children|
  {
    MemberLayout(p, id, k).BadType? && SameBefore(p, id, k)
  }

  lemma {:induction false} MembersScanned(p: Program, id: TypeId, i: nat)
    requires p.WellFormed() && p.ValidId(id) && p.IsUnion(id) && 0 < i <= |p.Complex(id).children|
    requires SameBefore(p, id, i) && MemberLayout(p, id, 0).Rep?
    ensures MembersFrom(p, id, i, MemberLayout(p, id, 0)).BadType? <==>
      exists k | i <= k < |p.Complex(id).children| :: Spoils(p, id, k)
    ensures forall x | x != Dyn ::
      MembersFrom(p, id, i, MemberLayout(p, id, 0)) == Rep(x) <==>
        forall k | 0 <= k < |p.Complex(id).children| :: MemberLayout(p, id, k) == Rep(x)
    decreases |p.Complex(id).children| - i
  {
    var n, rep := |p.Complex(id).children|, MemberLayout(p, id, 0);
    if i < n {
      p.ChildRank(id, i);
      var next := MemberLayout(p, id, i);
      if next == rep {
        MembersScanned(p, id, i + 1);
      } else {
        assert next.BadType? ==> Spoils(p, id, i);
        forall k | i < k < n ensures !Spoils(p, id, k) {
        }
      }
    }
  }

  /**
   A union is malformed exactly if it has no members or a malformed one is met before two that differ, and has a
   layout other than that of whole values exactly if it is the layout of every member.
   */
  lemma UnionLayoutExact(p: Program, id: TypeId)
    requires p.WellFormed() && p.ValidId(id) && p.IsUnion(id)
    ensures var n := |p.Complex(id).children|;
      && (LayoutOf(p, id).BadType? <==> n == 0 || exists k | 0 <= k < n :: Spoils(p, id, k))
      && (forall x | x != Dyn ::
            LayoutOf(p, id) == Rep(x) <==> n > 0 && forall k | 0 <= k < n :: MemberLayout(p, id, k) == Rep(x))
  {
    var n := |p.Complex(id).children|;
    assert LayoutOf(p, id) == UnionLayout(p, id) by {
      assert id >= NUM_PRIMITIVES;
    }
    if n > 0 {
      p.ChildRank(id, 0);
      if MemberLayout(p, id, 0).Rep? {
        MembersScanned(p, id, 1);
      } else {
        assert Spoils(p, id, 0);
      }
    }
  }

  /** `m` is an alternative of `id` once nested unions are flattened. */
  ghost predicate Alternative(p: Program, id: TypeId, m: TypeId)
    requires p.WellFormed() && p.ValidId(id)
    decreases p.Rank(id)
  {
    if p.IsUnion(id) then exists k | 0 <= k < |p.Complex(id).children| :: NestedAlternative(p, id, k, m)
    else m == id
  }

  ghost predicate NestedAlternative(p: Program, id: TypeId, k: nat, m: TypeId)
    requires p.WellFormed() && p.ValidId(id) && p.IsUnion(id) && k < |p.Complex(id).children|
    decreases p.Rank(id), 0
  {
    p.ChildRank(id, k);
    Alternative(p, p.Complex(id).children[k], m)
  }

  /** No union in `id` is without members. */
  ghost predicate Populated(p: Program, id: TypeId)
    requires p.WellFormed() && p.ValidId(id)
    decreases p.Rank(id)
  {
    p.IsUnion(id) ==>
      && p.Complex(id).children != []
      && forall k | 0 <= k < |p.Complex(id).children| :: p.ChildRank(id, k); Populated(p, p.Complex(id).children[k])
  }

  /** All alternatives have layout `x`. */
  ghost predicate AllLaidOut(p: Program, id: TypeId, x: ValueType)
    requires p.WellFormed() && p.ValidId(id)
  {
    forall m | Alternative(p, id, m) :: p.ValidId(m) && LayoutOf(p, m) == Rep(x)
  }

  lemma NestedLaidOut(p: Program, id: TypeId, x: ValueType)
    requires p.WellFormed() && p.ValidId(id) && p.IsUnion(id)
    ensures var cs := p.Complex(id).children;
      AllLaidOut(p, id, x) <==> forall k | 0 <= k < |cs| :: p.ValidId(cs[k]) && AllLaidOut(p, cs[k], x)
  {
    var cs := p.Complex(id).children;
    p.ChildrenRank(id);
    if AllLaidOut(p, id, x) {
      forall k, m | 0 <= k < |cs| && Alternative(p, cs[k], m) ensures p.ValidId(m) && LayoutOf(p, m) == Rep(x) {
        assert NestedAlternative(p, id, k, m);
        assert Alternative(p, id, m);
      }
    }
    if forall k | 0 <= k < |cs| :: AllLaidOut(p, cs[k], x) {
      forall m | Alternative(p, id, m) ensures p.ValidId(m) && LayoutOf(p, m) == Rep(x) {
        assert p.IsUnion(id) && Alternative(p, id, m);
        var k :| 0 <= k < |p.Complex(id).children| && NestedAlternative(p, id, k, m);
        assert AllLaidOut(p, cs[k], x);
      }
    }
  }

  /** A slot holds something other than whole values exactly if all alternatives of its type have that very layout. */
  lemma {:induction false} PackedExactly(p: Program, id: TypeId, x: ValueType)
    requires p.WellFormed() && p.ValidId(id) && x != Dyn
    ensures LayoutOf(p, id) == Rep(x) <==>
      Populated(p, id) && AllLaidOut(p, id, x)
    decreases p.Rank(id)
  {
    if p.IsUnion(id) {
      var cs := p.Complex(id).children;
      p.ChildrenRank(id);
      UnionLayoutExact(p, id);
      forall k | 0 <= k < |cs|
        ensures MemberLayout(p, id, k) == Rep(x) <==> Populated(p, cs[k]) && AllLaidOut(p, cs[k], x)
      {
        PackedExactly(p, cs[k], x);
      }
      NestedLaidOut(p, id, x);
    }
  }

  /** A slot that admits values of type `s` is laid out as `s` itself or holds whole values. */
  lemma {:induction false} LayoutAgrees(p: Program, s: TypeId, t: TypeId)
    requires p.WellFormed() && p.ValidId(s) && p.ValidId(t) && !p.IsUnion(s)
    requires p.Subtype(s, t) && LayoutOf(p, t).Rep?
    ensures LayoutOf(p, t) in {Rep(Dyn), LayoutOf(p, s)}
    decreases p.Rank(t)
  {
    if t != DYNAMIC_TYPE_ID && s != t && p.IsUnion(t) {
      var cs := p.Complex(t).children;
      p.ChildrenRank(t);
      var k :| 0 <= k < |cs| && p.Subtype(s, cs[k]);
      UnionLayoutCoversMembers(p, t, k);
      if LayoutOf(p, t) != Rep(Dyn) {
        LayoutAgrees(p, s, cs[k]);
      }
    }
  }

  // ---------------------------------------------------------------- values in slots

  /** A live value: a tag, a 64-bit payload (for objects, arrays and cowns an address), an index, a flag. */
  datatype Value = Value(tag: ValueType, payload: nat, idx: nat, readonly: bool)

  /** `sizeof(Object)` and `sizeof(Array)`: a slot points just past the header. */
  datatype Sizes = Sizes(objectHeader: nat, arrayHeader: nat) {
    predicate Positive() { objectHeader > 0 && arrayHeader > 0 }
  }

  /** What a slot holds. */
  datatype Slot = Empty | Bits(bits: nat) | Pointer(address: nat) | Whole(value: Value)

  /** `Value::to_addr`. */
  function ToAddr(z: Sizes, t: ValueType, v: Value): Slot {
    match t
    case Prim(0) => Empty
    case Prim(_) => Bits(v.payload)
    case Object => Pointer(v.payload + z.objectHeader)
    case Array => Pointer(v.payload + z.arrayHeader)
    case Cown => Pointer(v.payload)
    case _ => Whole(v)
  }

  /** `Value::from_addr` on a slot written through layout `t`. */
  function FromAddr(z: Sizes, t: ValueType, s: Slot): Value
    requires ToAddrShape(z, t, s)
  {
    match t
    case Prim(0) => Value(t, 0, 0, false)
    case Prim(_) => Value(t, s.bits, 0, false)
    case Object => if s.address == 0 then Value(Invalid, 0, 0, false) else Value(t, s.address - z.objectHeader, 0, false)
    case Array => if s.address == 0 then Value(Invalid, 0, 0, false) else Value(t, s.address - z.arrayHeader, 0, false)
    case Cown => if s.address == 0 then Value(Invalid, 0, 0, false) else Value(t, s.address, 0, false)
    case _ => s.value
  }

  /** A slot of layout `t`: zeroed, or holding what some value was written as. */
  predicate ToAddrShape(z: Sizes, t: ValueType, s: Slot) {
    match t
    case Prim(0) => true
    case Prim(_) => s.Bits?
    case Object => s.Pointer? && (s.address == 0 || s.address >= z.objectHeader)
    case Array => s.Pointer? && (s.address == 0 || s.address >= z.arrayHeader)
    case Cown => s.Pointer?
    case _ => s.Whole?
  }

  /** Tag and dynamic type of a live value fit together, as `Value::type_id` reports them. */
  predicate Typed(p: Program, v: Value, id: TypeId)
    requires p.WellFormed()
  {
    && p.ValidId(id)
    && match v.tag
       case Prim(i) => id == i && i < NUM_PRIMITIVES && (i == 0 ==> v.payload == 0) && v.idx == 0 && !v.readonly
       case Object => NUM_PRIMITIVES <= id < p.minComplex && v.idx == 0
       case Array => (p.HasTag(id, ArrayTag) || p.HasTag(id, TupleTag)) && v.idx == 0
       case Cown => p.HasTag(id, CownTag) && v.idx == 0
       case RegisterRef => p.HasTag(id, RefTag)
       case FieldRef => p.HasTag(id, RefTag)
       case ArrayRef => p.HasTag(id, RefTag)
       case CownRef => p.HasTag(id, RefTag)
       case Function => id == DYNAMIC_TYPE_ID
       case Error => id == DYNAMIC_TYPE_ID
       case Invalid => id == DYNAMIC_TYPE_ID
       case Dyn => false
  }

  lemma TypedLayout(p: Program, v: Value, id: TypeId)
    requires p.WellFormed() && Typed(p, v, id)
    ensures !p.IsUnion(id)
    ensures v.tag.Prim? || v.tag in {Object, Array, Cown} ==> LayoutOf(p, id) == Rep(v.tag)
    ensures LayoutOf(p, id) == Rep(Dyn) <==> id == DYNAMIC_TYPE_ID || p.HasTag(id, RefTag)
    ensures v.tag in {RegisterRef, FieldRef, ArrayRef, CownRef, Function, Error, Invalid} ==> LayoutOf(p, id) == Rep(Dyn)
  {
  }

  /**
   A value that passes the store's type check is read back unchanged exactly when the slot holds
   whole values, or the value is neither read-only nor a null cown.
   */
  lemma StoreRoundTrip(p: Program, z: Sizes, v: Value, id: TypeId, t: TypeId)
    requires p.WellFormed() && z.Positive() && Typed(p, v, id) && p.ValidId(t)
    requires p.Subtype(id, t) && LayoutOf(p, t).Rep?
    ensures var rep := LayoutOf(p, t).valueType;
      && ToAddrShape(z, rep, ToAddr(z, rep, v))
      && (FromAddr(z, rep, ToAddr(z, rep, v)) == v <==>
            rep == Dyn || (!v.readonly && !(v.tag == Cown && v.payload == 0)))
  {
    TypedLayout(p, v, id);
    LayoutAgrees(p, id, t);
  }
}
