/**
 The Array and Object views: indexing, key lookup, pointer lookup and the projections of
 an object. Every lookup that lands on an array or object disambiguates it into a new view,
 which takes one more reference to the parser. The projections (`keys`, `values`, `items`,
 iteration) are materialized into Python values and take no reference.
 */
module Views {
  import opened Elements
  import opened Errors
  import opened Pointers
  import opened Documents

  /** The element lookup of `array_element::operator[]`: a negative index is moved up by the
      size once, and an index still out of range after that fails with the index the
      caller wrote. */
  function Index(view: seq<Json>, i: int): (r: Result<Json>)
    ensures r.Ok? <==> -|view| <= i < |view|
    ensures 0 <= i < |view| ==> r == Ok(view[i])
    ensures -|view| <= i < 0 ==> r == Ok(view[|view| + i])
    ensures r.Err? ==> r.error == IndexError(IntArg(i))
  {
    var adjusted := if i < 0 then i + |view| else i;
    if 0 <= adjusted < |view| then Ok(view[adjusted]) else Err(IndexError(IntArg(i)))
  }

  /** A negative index and its non-negative counterpart name the same element, and the
      first index below the wrap-around range reports itself. */
  lemma NegativeIndexWrapsOnce(view: seq<Json>, i: int)
    requires 0 <= i < ArraySize(view)
    ensures Index(view, i - ArraySize(view)) == Index(view, i) == Ok(view[i])
    ensures Index(view, -(ArraySize(view) as int) - 1) == Err(IndexError(IntArg(-(ArraySize(view) as int) - 1)))
  {
  }

  /** Keeps the parser as it was when a lookup fails. */
  function Answer(p: Parser, found: Result<Json>): (r: Reply)
    ensures found.Err? ==> r == Reply(Err(found.error), p)
    ensures found.Ok? ==> r == Disambiguate(p, found.value)
  {
    match found
    case Ok(e) => Disambiguate(p, e)
    case Err(error) => Reply(Err(error), p)
  }

  /** `array[i]` in Python. */
  function ArrayGetItem(p: Parser, view: seq<Json>, i: int): (r: Reply)
    ensures r.result.Ok? <==> -|view| <= i < |view|
    ensures r.result.Err? ==> r == Reply(Err(IndexError(IntArg(i))), p)
    ensures r.result.Ok? ==> Shown(r.result.value) == view[if i < 0 then |view| + i else i]
    ensures r.result.Ok? ==> r.parser.doc == p.doc && r.parser.views == p.views + (if IsView(r.result.value) then 1 else 0)
  {
    Answer(p, Index(view, i))
  }

  /** `object[key]` in Python: the first member with that key. A missing key is simdjson's
      own failure. */
  function ObjectGetItem(p: Parser, view: seq<Member>, key: string): (r: Reply)
    ensures r.result.Ok? <==> exists k :: 0 <= k < |view| && view[k].key == key
    ensures r.result.Err? ==> r == Reply(Err(NoSuchField(key)), p)
    ensures r.result.Ok? ==>
              exists k :: && 0 <= k < |view| && view[k].key == key
                          && Shown(r.result.value) == view[k].value
                          && (forall j :: 0 <= j < k ==> view[j].key != key)
    ensures r.result.Ok? ==> r.parser.doc == p.doc && r.parser.views == p.views + (if IsView(r.result.value) then 1 else 0)
  {
    match FindMember(view, key)
    case Some(k) => Answer(p, Ok(view[k].value))
    case None => Answer(p, Err(NoSuchField(key)))
  }

  /** `object.at(pointer)`: whichever segment fails, the error is a KeyError carrying the
      whole pointer. */
  function ObjectAt(p: Parser, view: seq<Member>, pointer: string): (r: Reply)
    ensures r.result.Err? <==> ResolvePointer(Obj(view), pointer).None?
    ensures r.result.Err? ==> r == Reply(Err(KeyError(pointer)), p)
    ensures r.result.Ok? ==> Shown(r.result.value) == ResolvePointer(Obj(view), pointer).value
    ensures r.result.Ok? ==> r.parser.doc == p.doc && r.parser.views == p.views + (if IsView(r.result.value) then 1 else 0)
  {
    match ResolvePointer(Obj(view), pointer)
    case Some(e) => Answer(p, Ok(e))
    case None => Answer(p, Err(KeyError(pointer)))
  }

  /** `array.at(pointer)`: whichever segment fails, the error is an IndexError carrying the
      whole pointer. */
  function ArrayAt(p: Parser, view: seq<Json>, pointer: string): (r: Reply)
    ensures r.result.Err? <==> ResolvePointer(Arr(view), pointer).None?
    ensures r.result.Err? ==> r == Reply(Err(IndexError(TextArg(pointer))), p)
    ensures r.result.Ok? ==> Shown(r.result.value) == ResolvePointer(Arr(view), pointer).value
    ensures r.result.Ok? ==> r.parser.doc == p.doc && r.parser.views == p.views + (if IsView(r.result.value) then 1 else 0)
  {
    match ResolvePointer(Arr(view), pointer)
    case Some(e) => Answer(p, Ok(e))
    case None => Answer(p, Err(IndexError(TextArg(pointer))))
  }

  /** `len(object)`: as many as the keys, values and items the projections list. */
  function ObjectSize(view: seq<Member>): (n: nat)
    ensures n == |Keys(view)| == |Values(view)| == |Items(view)|
  {
    |view|
  }

  /** `len(array)`: the indices `array[i]` accepts are exactly `-n <= i < n`. */
  function ArraySize(view: seq<Json>): (n: nat)
    ensures forall i :: Index(view, i).Ok? <==> -(n as int) <= i < n
  {
    |view|
  }

  /** `object.keys()`: the keys in document order, duplicates kept. */
  function Keys(view: seq<Member>): (ks: seq<string>)
    ensures |ks| == |view|
    ensures forall i :: 0 <= i < |view| ==> ks[i] == view[i].key
  {
    if |view| == 0 then [] else [view[0].key] + Keys(view[1..])
  }

  /** `object.values()`: the values in document order. */
  function Values(view: seq<Member>): (vs: seq<Json>)
    ensures |vs| == |view|
    ensures forall i :: 0 <= i < |view| ==> vs[i] == view[i].value
  {
    if |view| == 0 then [] else [view[0].value] + Values(view[1..])
  }

  /** `object.items()`: `(key, value)` pairs in document order. */
  function Items(view: seq<Member>): (kvs: seq<(string, Json)>)
    ensures |kvs| == |view|
    ensures forall i :: 0 <= i < |view| ==> kvs[i] == (view[i].key, view[i].value)
  {
    if |view| == 0 then [] else [(view[0].key, view[0].value)] + Items(view[1..])
  }

  /** The three projections line up: `keys()[i]` and `values()[i]` are the two halves of
      `items()[i]`, and the object can be rebuilt from them. */
  lemma {:induction false} ProjectionsAgree(view: seq<Member>)
    ensures |Keys(view)| == |Values(view)| == |Items(view)| == ObjectSize(view)
    ensures forall i :: 0 <= i < |view| ==> Items(view)[i] == (Keys(view)[i], Values(view)[i])
    ensures Rebuild(Keys(view), Values(view)) == view
  {
    var ks, vs := Keys(view), Values(view);
    assert forall i :: 0 <= i < |view| ==> Rebuild(ks, vs)[i] == view[i];
  }

  /** The members named by parallel key and value sequences. */
  function Rebuild(ks: seq<string>, vs: seq<Json>): (ms: seq<Member>)
    requires |ks| == |vs|
    ensures |ms| == |ks|
    ensures forall i :: 0 <= i < |ks| ==> ms[i] == Member(ks[i], vs[i])
  {
    if |ks| == 0 then [] else [Member(ks[0], vs[0])] + Rebuild(ks[1..], vs[1..])
  }

  /** `for key in object`: the iterator walks the members and yields each key. */
  method IterateKeys(view: seq<Member>) returns (yielded: seq<string>)
    ensures yielded == Keys(view)
  {
    yielded := [];
    var i := 0;
    while i < |view|
      invariant 0 <= i <= |view|
      invariant |yielded| == i
      invariant forall j :: 0 <= j < i ==> yielded[j] == view[j].key
    {
      yielded := yielded + [view[i].key];
      i := i + 1;
    }
  }

  /** The error kind belongs to the receiver, not to the segment that failed: a bad array
      index under an Object view is a KeyError, and a missing key under an Array view is an
      IndexError, each carrying the whole pointer. */
  lemma PointerErrorsFollowReceiver(p: Parser, obj: seq<Member>, arr: seq<Json>,
                                    prefix: string, seg: string)
    ensures && ResolvePointer(Obj(obj), prefix).Some?
            && ResolvePointer(Obj(obj), prefix).value.Arr?
            && ResolvePointer(ResolvePointer(Obj(obj), prefix).value, seg).None?
            ==> ObjectAt(p, obj, prefix + "/" + seg) == Reply(Err(KeyError(prefix + "/" + seg)), p)
    ensures && ResolvePointer(Arr(arr), prefix).Some?
            && ResolvePointer(Arr(arr), prefix).value.Obj?
            && ResolvePointer(ResolvePointer(Arr(arr), prefix).value, seg).None?
            ==> ArrayAt(p, arr, prefix + "/" + seg) == Reply(Err(IndexError(TextArg(prefix + "/" + seg))), p)
  {
    PointerConcat(Obj(obj), prefix, seg);
    PointerConcat(Arr(arr), prefix, seg);
  }
}
