/**
 The typed read `element.get(T&)` that simdjson offers: it either yields the element as a
 value of the requested static type or reports an error. Which cross-numeric reads succeed
 (int64 from uint64, double from an integer, ...) is the library's own business, so the
 conversion is a parameter constrained only by the laws every simdjson release keeps.
 */
module Conversions {
  import opened Elements

  /** `conv(t, j)` reads `j` as a value of static type `t`, or fails with `None`. */
  type Conversion = (Tag, Json) -> Option<Json>

  /** Reading an element as its own type gives the element back; a successful read has the
      requested type; the only reads across tags are between the numeric tags. */
  ghost predicate Lawful(conv: Conversion) {
    && (forall j: Json :: conv(TagOf(j), j) == Some(j))
    && (forall t: Tag, j: Json :: conv(t, j).Some? ==> TagOf(conv(t, j).value) == t)
    && (forall t: Tag, j: Json :: conv(t, j).Some? && t != TagOf(j) ==> IsNumeric(t) && IsNumeric(TagOf(j)))
  }

  /** The conversion that only ever succeeds on a matching tag. */
  function StrictGet(t: Tag, j: Json): (r: Option<Json>)
    ensures r.Some? <==> TagOf(j) == t
    ensures r.Some? ==> r.value == j
  {
    if TagOf(j) == t then Some(j) else None
  }

  lemma StrictGetIsLawful()
    ensures Lawful(StrictGet)
  {
  }
}
