/**
 Structural equality of parsed arrays and objects (`element_eq`) and the `==` operators of
 the Array and Object views built on it. Comparison is positional: arrays element by
 element, objects member by member in document order, so the same members in another order
 are unequal. The left element decides the static type; the right one must be readable as
 that type or the pair is unequal.
 */
module Equality {
  import opened Elements
  import opened Conversions

  /** The per-pair predicate handed to `std::equal`: a Null on the left matches only a Null;
      any other left value reads the right one as its own static type and compares. */
  function ElementEq(conv: Conversion, a: Json, b: Json): (r: bool)
    ensures a.Null? ==> (r <==> b.Null?)
    // a right-hand value that cannot be read as the left's type is unequal, never an error
    ensures !a.Null? && conv(TagOf(a), b).None? ==> !r
    decreases a, 2
  {
    match a
    case Null => b.Null?
    case Arr(xs) =>
      (match conv(ArrayTag, b)
       case Some(Arr(ys)) => ArrayEq(conv, xs, ys)
       case _ => false)
    case Obj(xs) =>
      (match conv(ObjectTag, b)
       case Some(Obj(ys)) => ObjectEq(conv, xs, ys)
       case _ => false)
    case _ =>
      (match conv(TagOf(a), b)
       case Some(v) => a == v
       case None => false)
  }

  /** `element_eq(array, array)`: equal sizes, then every position matches. */
  function ArrayEq(conv: Conversion, xs: seq<Json>, ys: seq<Json>): (r: bool)
    ensures r <==> |xs| == |ys| && forall i :: 0 <= i < |xs| ==> ElementEq(conv, xs[i], ys[i])
    decreases xs, 1
  {
    |xs| == |ys| && ElementsEqual(conv, xs, ys)
  }

  /** The `std::equal` walk over two arrays of the same length. */
  function ElementsEqual(conv: Conversion, xs: seq<Json>, ys: seq<Json>): (r: bool)
    requires |xs| == |ys|
    ensures r <==> forall i :: 0 <= i < |xs| ==> ElementEq(conv, xs[i], ys[i])
    decreases xs, 0
  {
    if |xs| == 0 then true
    else
      ElementEq(conv, xs[0], ys[0]) && ElementsEqual(conv, xs[1..], ys[1..])
  }

  /** `element_eq(object, object)`: equal sizes, then at every position the same key and
      matching values. */
  function ObjectEq(conv: Conversion, xs: seq<Member>, ys: seq<Member>): (r: bool)
    ensures r <==> |xs| == |ys| && forall i :: 0 <= i < |xs| ==> MemberEq(conv, xs[i], ys[i])
    decreases xs, 1
  {
    |xs| == |ys| && MembersEqual(conv, xs, ys)
  }

  predicate MemberEq(conv: Conversion, x: Member, y: Member)
    decreases x, 3
  {
    x.key == y.key && ElementEq(conv, x.value, y.value)
  }

  /** The `std::equal` walk over two objects of the same size. */
  function MembersEqual(conv: Conversion, xs: seq<Member>, ys: seq<Member>): (r: bool)
    requires |xs| == |ys|
    ensures r <==> forall i :: 0 <= i < |xs| ==> MemberEq(conv, xs[i], ys[i])
    decreases xs, 0
  {
    if |xs| == 0 then true
    else
      MemberEq(conv, xs[0], ys[0]) && MembersEqual(conv, xs[1..], ys[1..])
  }

  /** `array_element::operator==`: a size check in front of `element_eq`, which checks the
      size again; the outer check never changes the answer. */
  function ArrayViewEq(conv: Conversion, lhs: seq<Json>, rhs: seq<Json>): (r: bool)
    ensures |lhs| != |rhs| ==> !r
    ensures r <==> |lhs| == |rhs| && forall i :: 0 <= i < |lhs| ==> ElementEq(conv, lhs[i], rhs[i])
  {
    if |lhs| != |rhs| then false else ArrayEq(conv, lhs, rhs)
  }

  /** `object_element::operator==`, the same shape over members. */
  function ObjectViewEq(conv: Conversion, lhs: seq<Member>, rhs: seq<Member>): (r: bool)
    ensures |lhs| != |rhs| ==> !r
    ensures r <==> |lhs| == |rhs| && forall i :: 0 <= i < |lhs| ==>
                     lhs[i].key == rhs[i].key && ElementEq(conv, lhs[i].value, rhs[i].value)
  {
    if |lhs| != |rhs| then false else ObjectEq(conv, lhs, rhs)
  }

  /** Every parsed tree equals itself, whatever the library's cross-numeric reads do. */
  lemma {:induction false} ElementEqReflexive(conv: Conversion, a: Json)
    requires Lawful(conv)
    ensures ElementEq(conv, a, a)
    decreases a
  {
    assert conv(TagOf(a), a) == Some(a);
    match a
    case Arr(xs) =>
      forall i | 0 <= i < |xs|
        ensures ElementEq(conv, xs[i], xs[i])
      {
        ElementEqReflexive(conv, xs[i]);
      }
    case Obj(xs) =>
      forall i | 0 <= i < |xs|
        ensures MemberEq(conv, xs[i], xs[i])
      {
        ElementEqReflexive(conv, xs[i].value);
      }
    case _ =>
  }

  /** When the library reads only matching tags, element equality is exactly equality of the
      trees: in particular it is then symmetric and transitive. */
  lemma {:induction false} StrictEqIsIdentity(a: Json, b: Json)
    ensures ElementEq(StrictGet, a, b) <==> a == b
    decreases a
  {
    match a
    case Arr(xs) =>
      if b.Arr? && |xs| == |b.elems| {
        var ys := b.elems;
        forall i | 0 <= i < |xs|
          ensures ElementEq(StrictGet, xs[i], ys[i]) <==> xs[i] == ys[i]
        {
          StrictEqIsIdentity(xs[i], ys[i]);
        }
        if ElementEq(StrictGet, a, b) {
          assert xs == ys;
        }
      }
    case Obj(xs) =>
      if b.Obj? && |xs| == |b.members| {
        var ys := b.members;
        forall i | 0 <= i < |xs|
          ensures MemberEq(StrictGet, xs[i], ys[i]) <==> xs[i] == ys[i]
        {
          StrictEqIsIdentity(xs[i].value, ys[i].value);
        }
        if ElementEq(StrictGet, a, b) {
          assert xs == ys;
        }
      }
    case _ =>
  }

  /** Equal elements have the same tag, or both are numbers: a Null, a string, a boolean or
      a container never equals anything of another kind. */
  lemma ElementEqTagCompatible(conv: Conversion, a: Json, b: Json)
    requires Lawful(conv)
    requires ElementEq(conv, a, b)
    ensures TagOf(a) == TagOf(b) || (IsNumeric(TagOf(a)) && IsNumeric(TagOf(b)))
  {
    if !a.Null? {
      var v := conv(TagOf(a), b);
      assert v.Some?;
      assert TagOf(v.value) == TagOf(a);
    }
  }

  /** `{"a":1,"b":2}` and `{"b":2,"a":1}` differ, while each equals itself: member order is
      part of an object's identity. */
  lemma ObjectOrderMatters(conv: Conversion, k1: string, v1: Json, k2: string, v2: Json)
    requires Lawful(conv)
    requires k1 != k2
    ensures !ObjectViewEq(conv, [Member(k1, v1), Member(k2, v2)], [Member(k2, v2), Member(k1, v1)])
    ensures ObjectViewEq(conv, [Member(k1, v1), Member(k2, v2)], [Member(k1, v1), Member(k2, v2)])
  {
    ElementEqReflexive(conv, v1);
    ElementEqReflexive(conv, v2);
    var xs := [Member(k1, v1), Member(k2, v2)];
    assert MemberEq(conv, xs[0], xs[0]) && MemberEq(conv, xs[1], xs[1]);
  }
}
