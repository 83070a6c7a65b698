/**
 The `parser` object and its liveness guard. A parser holds the tree of its latest
 successful parse; every Array or Object view handed out keeps a shared reference to the
 parser, so the parser's use count is the caller's own handle plus one per live view.
 `load`/`loads` refuse to parse again while that count is above one, so no view can ever
 point into a tree that a later parse has replaced.
 */
module Documents {
  import opened Elements
  import opened Errors
  import opened Conversions
  import opened Equality

  /** The parser: the tree of the last successful parse (none before the first parse or
      after a failed one) and the number of views that still reference it. */
  datatype Parser = Parser(doc: Option<Json>, views: nat)

  /** `use_count()` of the parser's shared pointer: the handle `load` is called through, and
      one copy inside each live view. */
  function UseCount(p: Parser): nat {
    1 + p.views
  }

  /** A parser as `std::make_shared<parser>()` creates it. */
  function NewParser(): Parser {
    Parser(None, 0)
  }

  const ReparseMessage: string := "cannot reparse while live objects exist from a prior parse"

  /** What simdjson's `parse`/`load` reports: a tree, or an error with its message (file
      errors of `load` included). The tokenizer itself is not modelled. */
  datatype ParseOutcome = Parsed(root: Json) | Malformed(message: string)

  /** What the binding hands to Python: a scalar materialized at once, or a view that holds
      the parser. */
  datatype Value =
    | Scalar(json: Json)
    | ArrayView(elems: seq<Json>)
    | ObjectView(members: seq<Member>)

  predicate IsView(v: Value) {
    v.ArrayView? || v.ObjectView?
  }

  /** The element a value shows to its reader. */
  function Shown(v: Value): Json {
    match v
    case Scalar(j) => j
    case ArrayView(xs) => Arr(xs)
    case ObjectView(ms) => Obj(ms)
  }

  /** The answer of one operation together with the parser state after it. */
  datatype Reply = Reply(result: Result<Value>, parser: Parser)

  /** `disambiguate_result`: an array becomes an Array view and an object an Object view,
      each taking a reference to the parser; every other tag becomes a plain scalar. */
  function Disambiguate(p: Parser, e: Json): (r: Reply)
    ensures r.result.Ok? && Shown(r.result.value) == e
    ensures IsView(r.result.value) <==> IsContainer(e)
    ensures r.parser.doc == p.doc
    ensures UseCount(r.parser) == UseCount(p) + (if IsContainer(e) then 1 else 0)
  {
    match e
    case Arr(xs) => Reply(Ok(ArrayView(xs)), Parser(p.doc, p.views + 1))
    case Obj(ms) => Reply(Ok(ObjectView(ms)), Parser(p.doc, p.views + 1))
    case _ => Reply(Ok(Scalar(e)), p)
  }

  /** `parser::load` and `parser::loads`: the guard first, then the parse, then
      disambiguation of the root. */
  function Reparse(p: Parser, outcome: ParseOutcome): (r: Reply)
    // the guard runs before any parsing and leaves the parser as it was
    ensures p.views > 0 ==> r == Reply(Err(ValueError(ReparseMessage)), p)
    ensures p.views == 0 ==> (r.result.Ok? <==> outcome.Parsed?)
    ensures p.views == 0 && outcome.Malformed? ==>
              r.result == Err(ValueError(outcome.message)) && r.parser.views == 0
    ensures r.result.Ok? ==> r.parser.doc == Some(outcome.root) && Shown(r.result.value) == outcome.root
    ensures r.result.Ok? ==> UseCount(r.parser) == (if IsContainer(outcome.root) then 2 else 1)
  {
    if UseCount(p) > 1 then
      Reply(Err(ValueError(ReparseMessage)), p)
    else
      match outcome
      case Malformed(message) => Reply(Err(ValueError(message)), Parser(None, p.views))
      case Parsed(root) => Disambiguate(Parser(Some(root), p.views), root)
  }

  /** The module-level `load`/`loads`: a fresh parser, used once. */
  function LoadFresh(outcome: ParseOutcome): (r: Reply)
    // the guard never fires on a fresh parser: the only failure is the parser's own
    ensures r.result.Ok? <==> outcome.Parsed?
    ensures outcome.Malformed? ==> r.result == Err(ValueError(outcome.message))
    ensures r.result.Ok? ==> Shown(r.result.value) == outcome.root
  {
    Reparse(NewParser(), outcome)
  }

  /** A view is dropped: its shared pointer goes away. */
  function Release(p: Parser): (r: Parser)
    requires p.views > 0
    ensures UseCount(r) == UseCount(p) - 1 && r.doc == p.doc
  {
    Parser(p.doc, p.views - 1)
  }

  /** Drops every live view, one at a time. */
  function ReleaseAll(p: Parser): (r: Parser)
    ensures r == Parser(p.doc, 0) && UseCount(r) == 1
    decreases p.views
  {
    if p.views == 0 then p else ReleaseAll(Release(p))
  }

  /** Once every view is released the guard lets a parse through, and a parse of a valid
      document then succeeds. */
  lemma ReleasingEveryViewUnblocksReparse(p: Parser, root: Json)
    ensures Reparse(ReleaseAll(p), Parsed(root)).result.Ok?
  {
  }

  /** The whole life cycle on one parser: a parse that returns an array view blocks the next
      parse, whatever it would read, and releasing that view unblocks it. */
  lemma ViewBlocksReparseUntilReleased(xs: seq<Json>, next: ParseOutcome)
    ensures var first := Reparse(NewParser(), Parsed(Arr(xs)));
            && first.result == Ok(ArrayView(xs))
            && Reparse(first.parser, next) == Reply(Err(ValueError(ReparseMessage)), first.parser)
            && Reparse(Release(first.parser), next).result.Ok? == next.Parsed?
  {
  }

  /** A parse error creates no view, so the same parser can parse again straight away. */
  lemma FailedParseDoesNotBlock(p: Parser, message: string, root: Json)
    requires p.views == 0
    ensures Reparse(p, Malformed(message)).result == Err(ValueError(message))
    ensures Reparse(Reparse(p, Malformed(message)).parser, Parsed(root)).result.Ok?
  {
  }

  /** Two loads of the same document give views that compare equal. */
  lemma LoadingTwiceGivesEqualViews(conv: Conversion, root: Json)
    requires Lawful(conv)
    ensures var a, b := LoadFresh(Parsed(root)).result, LoadFresh(Parsed(root)).result;
            && a.Ok? && b.Ok?
            && (root.Arr? ==> a.value.ArrayView? && ArrayViewEq(conv, a.value.elems, b.value.elems))
            && (root.Obj? ==> a.value.ObjectView? && ObjectViewEq(conv, a.value.members, b.value.members))
            && ElementEq(conv, Shown(a.value), Shown(b.value))
  {
    ElementEqReflexive(conv, root);
    assert conv(TagOf(root), root) == Some(root);
  }
}
