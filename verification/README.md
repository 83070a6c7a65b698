# libpy_simdjson: views, liveness guard and structural equality

This project models the navigation, ownership and equality layer that libpy_simdjson
builds on top of the simdjson DOM (`libpy_simdjson/parser.cc`). The model covers:

- The parsed DOM. It is a closed datatype `Json` (`elements.dfy`): Null, Bool, Int64,
  UInt64, Double, String, Array and Object. Object members stay in document order and keep
  duplicate keys.
- simdjson's typed read `element.get(T&)` (`conversions.dfy`). It is a parameter
  `Conversion` restricted by `Lawful`:
  - reading an element as its own tag returns the element unchanged;
  - a successful read has the requested tag;
  - the only reads across tags are between numeric tags.
  
  `StrictGet` is one lawful instance.
- `element_eq` and the `==` operators of `Array` and `Object` (`equality.dfy`). Comparison
  is positional and size-checked. The left element's static type decides how the right
  element is read.
- The `parser` object and its liveness guard (`documents.dfy`). The state is the current
  tree plus a count of live views, and `UseCount` is `1 + views`. This covers
  `disambiguate_result`, `parser::load`/`loads`, module-level `load`/`loads`, and releasing
  a view.
- The pointer resolver behind `at` (`pointers.dfy`). A pointer is split at each '/'. Each
  segment is then resolved in turn: first-match key lookup on an object, a decimal index
  on an array, failure on a scalar.
- The view operations (`views.dfy`):
  - `array[i]` with negative wrap-around;
  - `object[key]`;
  - `Object.at` and `Array.at`, whose error kind is decided by the receiver;
  - `keys`, `values`, `items`, `len` and key iteration.

Every operation that can fail returns a `Result` whose errors are the Python exceptions
the binding raises, with the same argument. Every operation that may create a view returns
a `Reply`, which pairs the result with the parser state after the operation.

Behaviour of the code that a reader might not expect:

- **Pointer error kind.** `Object.at` raises `KeyError` and `Array.at` raises `IndexError`,
  whichever segment fails (parser.cc:305-323). So a bad array index below an Object view is
  a `KeyError`, not an `IndexError`. See `Views.PointerErrorsFollowReceiver`.
- **Pointer syntax.** Pointers have no leading '/': `"array/0"`, as in the tests. This is
  not the syntax of section 5 of RFC 6901. A leading '/' would make the first segment the
  empty key.
- **Mixed numeric tags.** Equality reads the right element through `get()`. So an Int64 and
  a UInt64 can compare equal when the library converts one to the other, and a tag
  mismatch alone does not make two numbers unequal. The model does not claim symmetry
  across numeric tags.
- **Object order.** Object equality is positional, so the same members in another order are
  unequal. See `Equality.ObjectOrderMatters`.

## Model

| member | source | states |
|---|---|---|
| `Equality.ElementEq` | libpy_simdjson/parser.cc:99-110 | A Null on the left equals the right element exactly when the right element is Null. A non-null left element whose partner cannot be read as the left's static type compares unequal; this is never an error. |
| `Equality.ArrayEq` | libpy_simdjson/parser.cc:96-112 | Two arrays are equal iff they have the same length and every position holds a matching pair. |
| `Equality.ElementsEqual` | libpy_simdjson/parser.cc:98-111 | The front-to-back `std::equal` walk over equal-length arrays is true iff every position matches. |
| `Equality.ObjectEq` | libpy_simdjson/parser.cc:114-132 | Two objects are equal iff they have the same size and, at every index, the same key and matching values. Keys are compared by position, not as a map. |
| `Equality.MembersEqual` | libpy_simdjson/parser.cc:116-131 | The `std::equal` walk over members is true iff every position has an equal key and a matching value. |
| `Equality.ArrayViewEq` | libpy_simdjson/parser.cc:251-257 | `Array ==` is false on different sizes. Otherwise it is true iff every position matches; the extra size check never changes the answer. |
| `Equality.ObjectViewEq` | libpy_simdjson/parser.cc:211-217 | `Object ==` is false on different sizes. Otherwise it is true iff every position has the same key and a matching value. |
| `Equality.ElementEqReflexive` | libpy_simdjson/parser.cc:96-132 | Under any lawful conversion, every tree equals itself. |
| `Equality.StrictEqIsIdentity` | libpy_simdjson/parser.cc:89-132 | When reads succeed only on matching tags, element equality coincides with equality of the trees. It is then symmetric and transitive. |
| `Equality.ElementEqTagCompatible` | libpy_simdjson/parser.cc:99-110 | Equal elements have the same tag or are both numeric. So a Null, bool, string, array or object on the right matches only its own kind. |
| `Equality.ObjectOrderMatters` | libpy_simdjson/parser.cc:114-132 | Swapping two members with different keys gives an unequal object, while the original equals itself. |
| `Conversions.StrictGetIsLawful` | libpy_simdjson/parser.cc:104-107 | The exact-tag read satisfies the conversion laws the equality proofs rely on. |
| `Documents.Disambiguate` | libpy_simdjson/parser.cc:260-271 | The result shows exactly the given element. It is a view iff the element is an array or object. A view adds one to the parser's use count; a scalar leaves the count and the tree alone. |
| `Documents.Reparse` | libpy_simdjson/parser.cc:273-299 | With live views, the result is the "cannot reparse while live objects exist from a prior parse" ValueError and the parser is unchanged. Otherwise it succeeds iff the document parses, and a parse error carries the parser's message and creates no view. On success the tree is the new root, and the use count is 2 for a container root and 1 for a scalar root. |
| `Documents.LoadFresh` | libpy_simdjson/parser.cc:340-346 | A fresh parser always passes the guard. Module-level `load`/`loads` succeed iff the document parses, and otherwise fail with the parser's own message. |
| `Documents.Release` | libpy_simdjson/parser.cc:222-227 | Dropping a view lowers the use count by one and keeps the tree. |
| `Documents.ReleaseAll` | libpy_simdjson/parser.cc:162-167 | Dropping every view leaves a parser with the same tree and no live view, so its use count is back to 1. |
| `Documents.ReleasingEveryViewUnblocksReparse` | libpy_simdjson/parser.cc:273-277 | After every view is released, reparsing a valid document succeeds. |
| `Documents.ViewBlocksReparseUntilReleased` | libpy_simdjson/parser.cc:287-299 | A parse that returns an Array view makes the next parse fail with the guard error, whatever it would read. Once that view is released, the next parse goes through. |
| `Documents.FailedParseDoesNotBlock` | libpy_simdjson/parser.cc:287-299 | A parse error creates no view, so the next parse of a valid document on the same parser succeeds. |
| `Documents.LoadingTwiceGivesEqualViews` | libpy_simdjson/tests/test_object.py:70-75 | Two module-level loads of the same document give views (or scalars) that compare equal. |
| `Pointers.FindSlash` | libpy_simdjson/parser.cc:305-313 | The resolver that `at` calls cuts the pointer at its first '/'. This finds that position, or reports that there is no '/'. |
| `Pointers.Split` | libpy_simdjson/parser.cc:305-323 | A pointer has at least one segment, and no segment contains '/'. |
| `Pointers.JoinSplit` | libpy_simdjson/parser.cc:305-323 | Joining the segments with '/' gives back the pointer. |
| `Pointers.SplitJoin` | libpy_simdjson/parser.cc:305-323 | Splitting a join of '/'-free segments gives back the segments. |
| `Pointers.SplitConcat` | libpy_simdjson/parser.cc:305-323 | The segments of `p + "/" + q` are the segments of `p` followed by those of `q`. |
| `Pointers.ParseIndexOfDecimal` | libpy_simdjson/tests/test_array.py:19-20 | The decimal spelling of every natural number is accepted as an array segment and denotes that number. |
| `Pointers.ParseIndexCanonical` | libpy_simdjson/tests/test_object.py:60-63 | An accepted array segment is the canonical decimal spelling of its index, so leading zeros and signs are never accepted. |
| `Pointers.ParseIndex` | libpy_simdjson/parser.cc:315-322 | An array segment is accepted iff it is a non-empty run of decimal digits whose first digit is '0' only when it is the whole segment; "0" is index 0. `ParseIndexOfDecimal` and `ParseIndexCanonical` pin the accepted segments to exactly the decimal spellings of the naturals, each denoting its number. |
| `Pointers.FindMember` | libpy_simdjson/parser.cc:301-303 | Key lookup returns the first member with that key, and nothing iff no member has it. |
| `Pointers.Step` | libpy_simdjson/parser.cc:305-323 | One segment against one element: on an object it is found iff some member has that key, and then it is the first such member's value; on an array it is found iff the segment is an accepted index below the size, and then it is that element; a scalar has nothing below it. |
| `Pointers.Resolve` | libpy_simdjson/parser.cc:305-323 | The empty path finds the element itself, a one-segment path is one `Step`, and below a scalar only the empty path resolves. `ResolveAppend` pins down the rest: a longer path is its prefix followed by its remainder. |
| `Pointers.ResolvePointer` | libpy_simdjson/parser.cc:305-323 | Every pointer, even the empty one, names at least one segment, so `at` on a scalar never finds anything. A pointer without '/' is a single `Step`. |
| `Pointers.ResolveAppend` | libpy_simdjson/parser.cc:305-323 | Resolving a concatenation of segment lists resolves the first list, then resolves the second from the element it found. A failure anywhere stays a failure. |
| `Pointers.PointerConcat` | libpy_simdjson/tests/test_object.py:60-63 | Resolving `p/q` is resolving `p` and then `q` from the element found. |
| `Pointers.SingleSegment` | libpy_simdjson/tests/test_array.py:19-20 | A '/'-free pointer performs a single lookup. On an object it finds something iff some member has that key, and then it returns the value of the first such member; on an array it finds the element at that decimal index. On a scalar it finds nothing. |
| `Views.Index` | libpy_simdjson/parser.cc:325-338 | Lookup succeeds iff `-size <= i < size`. It returns element `i` for non-negative `i` and element `size + i` for negative `i`. Otherwise it raises IndexError with the original `i`. |
| `Views.NegativeIndexWrapsOnce` | libpy_simdjson/parser.cc:325-338 | `arr[i - size]` and `arr[i]` give the same element. `arr[-size - 1]` fails and reports `-size - 1`. |
| `Views.ArrayGetItem` | libpy_simdjson/parser.cc:325-338 | `array[i]` shows the wrapped element. On success it keeps the parser's tree and adds one live view exactly when the element is a container. On failure it leaves the parser as it was. |
| `Views.ObjectGetItem` | libpy_simdjson/parser.cc:301-303 | `object[key]` succeeds iff some member has the key. It shows the value of the first such member, keeps the parser's tree and adds one live view exactly when that value is a container. Otherwise it is a lookup failure with the parser unchanged. |
| `Views.ObjectAt` | libpy_simdjson/parser.cc:305-313 | `Object.at` fails iff the pointer does not resolve. The failure is a KeyError with the whole pointer and the parser unchanged. On success it shows the resolved element, keeps the parser's tree and adds one live view exactly when that element is a container. |
| `Views.ArrayAt` | libpy_simdjson/parser.cc:315-323 | `Array.at` fails iff the pointer does not resolve. The failure is an IndexError with the whole pointer and the parser unchanged. On success it shows the resolved element, keeps the parser's tree and adds one live view exactly when that element is a container. |
| `Views.PointerErrorsFollowReceiver` | libpy_simdjson/parser.cc:305-323 | A bad array index below an Object view raises KeyError. A missing key below an Array view raises IndexError. |
| `Views.ObjectSize` | libpy_simdjson/parser.cc:199-201 | `len(object)` equals the number of keys, values and items the projections list. |
| `Views.ArraySize` | libpy_simdjson/parser.cc:237-239 | `len(array)` is `n` exactly when the indices `array[i]` accepts are `-n <= i < n`. |
| `Views.Keys` | libpy_simdjson/parser.cc:178-187 | `keys()` has one entry per member, and entry `i` is the key of member `i`. |
| `Views.Values` | libpy_simdjson/parser.cc:189-193 | `values()` has one entry per member, and entry `i` is the value of member `i`. |
| `Views.Items` | libpy_simdjson/parser.cc:173-175 | `items()` has one `(key, value)` pair per member, in document order. |
| `Views.ProjectionsAgree` | libpy_simdjson/tests/test_object.py:14-53 | `keys()`, `values()` and `items()` all have length `len()`. `items()[i]` is `(keys()[i], values()[i])`, and keys and values together rebuild the object. |
| `Views.IterateKeys` | libpy_simdjson/parser.cc:203-209 | Iterating an Object yields exactly `keys()`, in order. |

## Left out

- The simdjson tokenizer and DOM builder. A parse is given as a `ParseOutcome`: a tree, or
  an error message.
- File I/O in `load`. A file that cannot be read is a `Malformed` outcome carrying
  simdjson's message.
- The typed read `get()` across numeric tags (int64 and uint64, integer to double). It is
  library-defined, so it is the `Conversion` parameter with laws, not a fixed function.
- Double arithmetic and rounding. A double is the real number it denotes. Parsed JSON
  holds only finite doubles, where `==` is equality of values.
- The pointer grammar inside simdjson. The model does not unescape `~0`/`~1`, so keys are
  looked up as written. It does not model the 64-bit wrap-around of very long digit runs
  in an array segment. The `-` segment is rejected as a non-digit, which matches simdjson.
- The Python exception raised by `object[key]` for a missing key. It comes from simdjson's
  implicit result conversion, so it is `NoSuchField`.
- Python binding glue:
  - the `to_object` specialisations;
  - `as_dict`/`as_list` materialisation;
  - the `as_static_type` "Unexpected element_type" branch, which a closed tag set never
    reaches;
  - `LIBPY_AUTOMODULE`, `__simdjson_version__`, and the `comparisons` other than `==`.
- Array iteration. It yields the array's elements in order, materialised, so it is the
  view's element sequence itself and has no member of its own.
- The conversion of a Python integer to `std::ptrdiff_t` before `array[i]`, which can raise
  OverflowError. `Views.Index` takes an unbounded integer.
- More than one parser at a time. The state machine tracks one parser. Equality never looks
  at the parser a view belongs to.
- How libpy passes the shared pointer into `Parser.load`. The model assumes it passes a
  reference, so the caller's handle counts once. That matches the guard `use_count() > 1`.
- The tree after a failed parse. simdjson's document is unusable after an error, so the
  model records no tree. The guard guarantees that no view was live.
- Type-specialised count/index-of search over arrays. `parser.cc` contains no such code.
