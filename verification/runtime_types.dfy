/**
 Run-time types of the interpreter: the type table and `Program::subtype` (vbci/program.cc).
 */
module RuntimeTypes {

  type TypeId = nat

  /** `uint32_t(-1)`: the id of the dynamic type. */
  const DYNAMIC_TYPE_ID: TypeId := 0xFFFF_FFFF

  /** None, Bool, I8 .. U64, ILong, ULong, ISize, USize, F32, F64, Ptr. */
  const NUM_PRIMITIVES: nat := 17

  datatype TypeTag = ArrayTag | CownTag | RefTag | UnionTag | TupleTag

  datatype ComplexType = ComplexType(tag: TypeTag, children: seq<TypeId>)

  /** Ids below `minComplex` are primitives and classes, the ids from there on index `types`. */
  datatype Program = Program(minComplex: TypeId, types: seq<ComplexType>) {

    predicate IsComplex(id: TypeId) { id >= minComplex }

    predicate ValidId(id: TypeId) { id == DYNAMIC_TYPE_ID || id < minComplex + |types| }

    /** Every child precedes its parent and wrappers have one child, as the emitter lays tables out. */
    predicate WellFormed() {
      && NUM_PRIMITIVES <= minComplex
      && minComplex + |types| <= DYNAMIC_TYPE_ID
      && (forall i | 0 <= i < |types| :: WellFormedEntry(i))
    }

    predicate WellFormedEntry(i: nat)
      requires i < |types|
    {
      && (types[i].tag in {ArrayTag, CownTag, RefTag} ==> |types[i].children| == 1)
      && (forall k | 0 <= k < |types[i].children| ::
            types[i].children[k] == DYNAMIC_TYPE_ID || types[i].children[k] < minComplex + i)
    }

    function Complex(id: TypeId): ComplexType
      requires IsComplex(id) && id < minComplex + |types|
    {
      types[id - minComplex]
    }

    predicate HasTag(id: TypeId, tag: TypeTag)
      requires ValidId(id)
    {
      IsComplex(id) && id != DYNAMIC_TYPE_ID && Complex(id).tag == tag
    }

    predicate IsUnion(id: TypeId)
      requires ValidId(id)
    {
      HasTag(id, UnionTag)
    }

    /** Height of an id in the table: children are strictly lower. */
    function Rank(id: TypeId): nat {
      if id == DYNAMIC_TYPE_ID || id < minComplex then 0 else 1 + id - minComplex
    }

    lemma ChildRank(id: TypeId, k: nat)
      requires WellFormed() && ValidId(id) && id != DYNAMIC_TYPE_ID && IsComplex(id)
      requires k < |Complex(id).children|
      ensures ValidId(Complex(id).children[k]) && Rank(Complex(id).children[k]) < Rank(id)
    {
      assert WellFormedEntry(id - minComplex);
    }

    lemma ChildrenRank(id: TypeId)
      requires WellFormed() && ValidId(id) && id != DYNAMIC_TYPE_ID && IsComplex(id)
      ensures var cs := Complex(id).children;
        forall k | 0 <= k < |cs| :: ValidId(cs[k]) && Rank(cs[k]) < Rank(id)
    {
      forall k | 0 <= k < |Complex(id).children|
        ensures ValidId(Complex(id).children[k]) && Rank(Complex(id).children[k]) < Rank(id)
      {
        ChildRank(id, k);
      }
    }

    lemma WrapperArity(id: TypeId)
      requires WellFormed() && ValidId(id)
      requires HasTag(id, ArrayTag) || HasTag(id, CownTag) || HasTag(id, RefTag)
      ensures |Complex(id).children| == 1
    {
      assert WellFormedEntry(id - minComplex);
    }

    /** `Program::subtype`. */
    predicate Subtype(sub: TypeId, super: TypeId)
      requires WellFormed() && ValidId(sub) && ValidId(super)
      decreases Rank(sub) + Rank(super)
    {
      if super == DYNAMIC_TYPE_ID then true
      else if sub == DYNAMIC_TYPE_ID then false
      else if sub == super then true
      else if IsUnion(sub) then
        var cs := Complex(sub).children;
        forall i | 0 <= i < |cs| :: ChildRank(sub, i); Subtype(cs[i], super)
      else if IsUnion(super) then
        var cs := Complex(super).children;
        exists i | 0 <= i < |cs| :: ChildRank(super, i); Subtype(sub, cs[i])
      else if IsComplex(sub) then
        IsComplex(super) && SubtypeComplex(sub, super)
      else
        false
    }

    /** The cases for two distinct entries that are arrays, cowns, references or tuples. */
    predicate SubtypeComplex(sub: TypeId, super: TypeId)
      requires WellFormed() && ValidId(sub) && ValidId(super)
      requires sub != DYNAMIC_TYPE_ID && super != DYNAMIC_TYPE_ID && IsComplex(sub) && IsComplex(super)
      requires !IsUnion(sub) && !IsUnion(super)
      decreases Rank(sub) + Rank(super), 0
    {
      var s, t := Complex(sub), Complex(super);
      if s.tag == TupleTag && t.tag == TupleTag then
        && |s.children| == |t.children|
        && (forall i | 0 <= i < |s.children| ::
              ChildRank(sub, i);
              ChildRank(super, i);
              Subtype(s.children[i], t.children[i]))
      else if s.tag == TupleTag && t.tag == ArrayTag then
        WrapperArity(super);
        ChildRank(super, 0);
        forall i | 0 <= i < |s.children| :: ChildRank(sub, i); Subtype(s.children[i], t.children[0])
      else if s.tag != t.tag then false
      else
        WrapperArity(sub);
        WrapperArity(super);
        ChildRank(sub, 0);
        ChildRank(super, 0);
        Subtype(s.children[0], t.children[0]) && Subtype(t.children[0], s.children[0])
    }

    // ---------------------------------------------------------------- a preorder

    lemma SubtypeReflexive(id: TypeId)
      requires WellFormed() && ValidId(id)
      ensures Subtype(id, id)
    {
    }

    /** Below a type that is neither dynamic nor a union, a union is judged by its children. */
    lemma {:induction false} SubtypeTransitive(a: TypeId, b: TypeId, c: TypeId)
      requires WellFormed() && ValidId(a) && ValidId(b) && ValidId(c)
      requires Subtype(a, b) && Subtype(b, c)
      ensures Subtype(a, c)
      decreases Rank(a) + Rank(b) + Rank(c)
    {
      if c == DYNAMIC_TYPE_ID || a == b || b == c || a == c {
      } else if IsUnion(a) {
        var cs := Complex(a).children;
        forall i | 0 <= i < |cs| ensures ValidId(cs[i]) && Subtype(cs[i], c) {
          ChildRank(a, i);
          SubtypeTransitive(cs[i], b, c);
        }
      } else if IsUnion(b) {
        var cs := Complex(b).children;
        ChildrenRank(b);
        var i :| 0 <= i < |cs| && Subtype(a, cs[i]);
        SubtypeTransitive(a, cs[i], c);
      } else if IsUnion(c) {
        var cs := Complex(c).children;
        ChildrenRank(c);
        var i :| 0 <= i < |cs| && Subtype(b, cs[i]);
        SubtypeTransitive(a, b, cs[i]);
      } else {
        TransitiveComplex(a, b, c);
      }
    }

    lemma {:induction false} TransitiveComplex(a: TypeId, b: TypeId, c: TypeId)
      requires WellFormed() && ValidId(a) && ValidId(b) && ValidId(c)
      requires a != DYNAMIC_TYPE_ID && b != DYNAMIC_TYPE_ID && c != DYNAMIC_TYPE_ID
      requires IsComplex(a) && IsComplex(b) && IsComplex(c)
      requires !IsUnion(a) && !IsUnion(b) && !IsUnion(c)
      requires SubtypeComplex(a, b) && SubtypeComplex(b, c)
      ensures SubtypeComplex(a, c)
      decreases Rank(a) + Rank(b) + Rank(c), 0
    {
      var x, y, z := Complex(a).children, Complex(b).children, Complex(c).children;
      if Complex(a).tag == TupleTag {
        if Complex(b).tag == ArrayTag {
          WrapperArity(b);
          ChildRank(b, 0);
        }
        if Complex(c).tag == ArrayTag {
          WrapperArity(c);
          ChildRank(c, 0);
        }
        forall i | 0 <= i < |x|
          ensures var u := if Complex(c).tag == TupleTag then z[i] else z[0];
            ValidId(x[i]) && ValidId(u) && Subtype(x[i], u)
        {
          var u := if Complex(c).tag == TupleTag then z[i] else z[0];
          var v := if Complex(b).tag == TupleTag then y[i] else y[0];
          ChildRank(a, i);
          ChildRank(b, if Complex(b).tag == TupleTag then i else 0);
          ChildRank(c, if Complex(c).tag == TupleTag then i else 0);
          SubtypeTransitive(x[i], v, u);
        }
      } else {
        WrapperArity(a);
        WrapperArity(b);
        WrapperArity(c);
        ChildRank(a, 0);
        ChildRank(b, 0);
        ChildRank(c, 0);
        SubtypeTransitive(x[0], y[0], z[0]);
        SubtypeTransitive(z[0], y[0], x[0]);
      }
    }
  }
}
