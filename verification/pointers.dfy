/**
 The pointer resolver behind `Object.at` and `Array.at`. A pointer is cut at every '/' into
 segments, with no leading '/' (`"array/0"` addresses element 0 of the member `array`).
 Each segment is resolved against the current element: a key on an object (the first
 member with that key), a decimal index on an array, and nothing on a scalar.
 */
module Pointers {
  import opened Elements

  /** The position of the first '/' in `s`, if any. */
  function FindSlash(s: string): (r: Option<nat>)
    ensures r.None? <==> '/' !in s
    ensures r.Some? ==> r.value < |s| && s[r.value] == '/'
    ensures r.Some? ==> forall i :: 0 <= i < r.value ==> s[i] != '/'
  {
    if |s| == 0 then None
    else if s[0] == '/' then Some(0)
    else
      match FindSlash(s[1..])
      case None => None
      case Some(k) => Some(k + 1)
  }

  /** A '/' with none before it is the one `FindSlash` finds. */
  lemma FirstSlash(s: string, k: nat)
    requires k < |s| && s[k] == '/'
    requires forall i :: 0 <= i < k ==> s[i] != '/'
    ensures FindSlash(s) == Some(k)
  {
    assert s[k] in s;
  }

  /** Glues segments back together with '/' between them. */
  function Join(segs: seq<string>): string
    requires |segs| >= 1
  {
    if |segs| == 1 then segs[0] else segs[0] + "/" + Join(segs[1..])
  }

  /** The segments of a pointer: the text before the first '/', then the segments of the
      rest. Every pointer, the empty one included, has at least one segment. */
  function Split(s: string): (segs: seq<string>)
    ensures |segs| >= 1
    ensures forall i :: 0 <= i < |segs| ==> '/' !in segs[i]
    decreases |s|
  {
    match FindSlash(s)
    case None => [s]
    case Some(k) =>
      assert forall i :: 0 <= i < k ==> s[..k][i] == s[i];
      [s[..k]] + Split(s[k + 1..])
  }

  /** Joining the segments gives the pointer back: splitting loses nothing. */
  lemma {:induction false} JoinSplit(s: string)
    ensures Join(Split(s)) == s
    decreases |s|
  {
    var r := FindSlash(s);
    if r.Some? {
      var k := r.value;
      var rest := s[k + 1..];
      var segs := Split(s);
      assert segs == [s[..k]] + Split(rest);
      assert segs[0] == s[..k];
      assert segs[1..] == Split(rest);
      JoinSplit(rest);
      assert Join(segs) == s[..k] + "/" + rest;
      assert s == s[..k] + "/" + rest;
    }
  }

  lemma FindSlashAfterSegment(x: string, y: string)
    requires '/' !in x
    ensures FindSlash(x + "/" + y) == Some(|x|)
  {
    var s := x + "/" + y;
    assert forall i :: 0 <= i < |x| ==> s[i] == x[i];
    FirstSlash(s, |x|);
  }

  /** Splitting undoes joining, for segments without a '/'. */
  lemma {:induction false} SplitJoin(segs: seq<string>)
    requires |segs| >= 1
    requires forall i :: 0 <= i < |segs| ==> '/' !in segs[i]
    ensures Split(Join(segs)) == segs
    decreases |segs|
  {
    if |segs| == 1 {
      assert FindSlash(segs[0]).None?;
    } else {
      var head, tail := segs[0], Join(segs[1..]);
      var s := head + "/" + tail;
      assert Join(segs) == s;
      FindSlashAfterSegment(head, tail);
      assert s[..|head|] == head;
      assert s[|head| + 1..] == tail;
      assert Split(s) == [head] + Split(tail);
      SplitJoin(segs[1..]);
      assert [head] + segs[1..] == segs;
    }
  }

  /** A pointer that starts with a '/'-free segment splits into that segment and the rest. */
  lemma SplitAfterSegment(x: string, y: string)
    requires '/' !in x
    ensures Split(x + "/" + y) == [x] + Split(y)
  {
    var s := x + "/" + y;
    FindSlashAfterSegment(x, y);
    assert s[..|x|] == x;
    assert s[|x| + 1..] == y;
  }

  /** Cutting a pointer at its first '/'. */
  lemma CutAtFirstSlash(p: string) returns (head: string, rest: string)
    requires '/' in p
    ensures '/' !in head && p == head + "/" + rest
  {
    var k := FindSlash(p).value;
    head, rest := p[..k], p[k + 1..];
    assert forall i :: 0 <= i < k ==> head[i] == p[i];
    assert p == head + "/" + rest;
  }

  /** Joining two pointers with a '/' concatenates their segment lists. */
  lemma {:induction false} SplitConcat(p: string, q: string)
    ensures Split(p + "/" + q) == Split(p) + Split(q)
    decreases |p|
  {
    if '/' !in p {
      SplitAfterSegment(p, q);
      assert Split(p) == [p];
    } else {
      var head, rest := CutAtFirstSlash(p);
      calc {
        Split(p + "/" + q);
        { assert p + "/" + q == head + "/" + (rest + "/" + q); }
        Split(head + "/" + (rest + "/" + q));
        { SplitAfterSegment(head, rest + "/" + q); }
        [head] + Split(rest + "/" + q);
        { SplitConcat(rest, q); }
        [head] + (Split(rest) + Split(q));
        ([head] + Split(rest)) + Split(q);
        { SplitAfterSegment(head, rest); }
        Split(p) + Split(q);
      }
    }
  }

  predicate IsDigit(c: char) {
    '0' <= c <= '9'
  }

  predicate AllDigits(s: string) {
    forall i :: 0 <= i < |s| ==> IsDigit(s[i])
  }

  function DigitValue(c: char): nat
    requires IsDigit(c)
  {
    (c as int) - ('0' as int)
  }

  function DigitChar(d: nat): (c: char)
    requires d < 10
    ensures IsDigit(c) && DigitValue(c) == d
  {
    (('0' as int) + d) as char
  }

  /** The value of a digit string read left to right, `acc * 10 + digit` at each step. */
  function DigitsValue(s: string): nat
    requires AllDigits(s)
  {
    if |s| == 0 then 0 else DigitsValue(s[..|s| - 1]) * 10 + DigitValue(s[|s| - 1])
  }

  /** An array segment: a non-empty run of decimal digits, with no leading zero. Anything
      else (a sign, '-', the empty segment) does not address an element. */
  function ParseIndex(seg: string): (r: Option<nat>)
    ensures r.Some? <==> |seg| > 0 && AllDigits(seg) && (seg[0] == '0' ==> |seg| == 1)
    ensures seg == "0" ==> r == Some(0)
  {
    assert seg == "0" ==> seg[0] == '0' && DigitsValue(seg) == DigitsValue(seg[..0]) * 10 + DigitValue('0');
    if |seg| == 0 || !AllDigits(seg) || (|seg| > 1 && seg[0] == '0') then None
    else Some(DigitsValue(seg))
  }

  /** The canonical decimal spelling of `n`. */
  function ToDecimal(n: nat): (s: string)
    ensures |s| >= 1
    decreases n
  {
    if n < 10 then [DigitChar(n)] else ToDecimal(n / 10) + [DigitChar(n % 10)]
  }

  lemma {:induction false} ToDecimalShape(n: nat)
    ensures AllDigits(ToDecimal(n))
    ensures |ToDecimal(n)| > 1 ==> ToDecimal(n)[0] != '0'
    ensures DigitsValue(ToDecimal(n)) == n
    decreases n
  {
    if n >= 10 {
      ToDecimalShape(n / 10);
      var s := ToDecimal(n);
      assert s[..|s| - 1] == ToDecimal(n / 10);
      assert s[0] == ToDecimal(n / 10)[0];
    }
  }

  /** Every natural number's decimal spelling parses back to it. */
  lemma ParseIndexOfDecimal(n: nat)
    ensures ParseIndex(ToDecimal(n)) == Some(n)
  {
    ToDecimalShape(n);
  }

  /** A segment that parses as an index is the canonical spelling of that index, so distinct
      accepted segments address distinct elements. */
  lemma {:induction false} ParseIndexCanonical(seg: string)
    requires ParseIndex(seg).Some?
    ensures ToDecimal(ParseIndex(seg).value) == seg
    decreases |seg|
  {
    var n := ParseIndex(seg).value;
    var last := seg[|seg| - 1];
    var init := seg[..|seg| - 1];
    assert seg == init + [last];
    assert n == DigitsValue(init) * 10 + DigitValue(last);
    assert DigitChar(DigitValue(last)) == last;
    if |seg| == 1 {
      assert init == [];
    } else {
      assert init[0] == seg[0];
      assert ParseIndex(init) == Some(DigitsValue(init));
      ParseIndexCanonical(init);
      var v := DigitsValue(init);
      assert ToDecimal(0) == ['0'];
      assert v != 0;
      assert n / 10 == v && n % 10 == DigitValue(last);
      assert ToDecimal(n) == ToDecimal(v) + [DigitChar(DigitValue(last))];
    }
  }

  /** The first member whose key is `key`, as simdjson's linear key search finds it. */
  function FindMember(ms: seq<Member>, key: string): (r: Option<nat>)
    ensures r.Some? ==> r.value < |ms| && ms[r.value].key == key
    ensures r.Some? ==> forall j :: 0 <= j < r.value ==> ms[j].key != key
    ensures r.None? <==> forall j :: 0 <= j < |ms| ==> ms[j].key != key
  {
    if |ms| == 0 then None
    else if ms[0].key == key then Some(0)
    else
      match FindMember(ms[1..], key)
      case None => None
      case Some(k) => Some(k + 1)
  }

  /** Resolves one segment against one element. */
  function Step(j: Json, seg: string): (r: Option<Json>)
    ensures !IsContainer(j) ==> r.None?
    ensures j.Obj? ==> (r.Some? <==> exists k :: 0 <= k < |j.members| && j.members[k].key == seg)
    ensures j.Obj? && r.Some? ==>
              exists k :: && 0 <= k < |j.members| && j.members[k].key == seg
                          && r.value == j.members[k].value
                          && (forall i :: 0 <= i < k ==> j.members[i].key != seg)
    ensures j.Arr? ==> (r.Some? <==> ParseIndex(seg).Some? && ParseIndex(seg).value < |j.elems|)
    ensures j.Arr? && r.Some? ==> r.value == j.elems[ParseIndex(seg).value]
  {
    match j
    case Obj(ms) =>
      (match FindMember(ms, seg)
       case Some(k) => Some(ms[k].value)
       case None => None)
    case Arr(xs) =>
      (match ParseIndex(seg)
       case Some(n) => if n < |xs| then Some(xs[n]) else None
       case None => None)
    case _ => None
  }

  /** Resolves the segments one at a time; the first segment that does not resolve ends
      the walk with nothing. */
  function Resolve(j: Json, segs: seq<string>): (r: Option<Json>)
    ensures |segs| == 0 ==> r == Some(j)
    ensures !IsContainer(j) ==> (r.Some? <==> |segs| == 0)
    ensures |segs| == 1 ==> r == Step(j, segs[0])
    decreases |segs|
  {
    if |segs| == 0 then Some(j)
    else
      match Step(j, segs[0])
      case None => None
      case Some(c) => Resolve(c, segs[1..])
  }

  /** `at(pointer)`: every pointer, even the empty one, names at least one segment, so a
      scalar never resolves. */
  function ResolvePointer(j: Json, pointer: string): (r: Option<Json>)
    ensures !IsContainer(j) ==> r.None?
    ensures '/' !in pointer ==> r == Step(j, pointer)
  {
    assert '/' !in pointer ==> FindSlash(pointer).None? && Split(pointer) == [pointer];
    Resolve(j, Split(pointer))
  }

  /** Continues a resolution that may already have failed. */
  function Then(o: Option<Json>, segs: seq<string>): Option<Json> {
    match o
    case None => None
    case Some(c) => Resolve(c, segs)
  }

  /** Resolving a longer path is resolving its prefix and then the rest from there. */
  lemma {:induction false} ResolveAppend(j: Json, s1: seq<string>, s2: seq<string>)
    ensures Resolve(j, s1 + s2) == Then(Resolve(j, s1), s2)
    decreases |s1|
  {
    if |s1| == 0 {
      assert s1 + s2 == s2;
    } else {
      assert (s1 + s2)[0] == s1[0];
      assert (s1 + s2)[1..] == s1[1..] + s2;
      match Step(j, s1[0])
      case None =>
      case Some(c) => ResolveAppend(c, s1[1..], s2);
    }
  }

  /** `at("p/q")` is `at("p")` followed by `at("q")` on what it found. */
  lemma PointerConcat(j: Json, p: string, q: string)
    ensures ResolvePointer(j, p + "/" + q) == Then(ResolvePointer(j, p), Split(q))
  {
    SplitConcat(p, q);
    ResolveAppend(j, Split(p), Split(q));
  }

  /** A pointer with no '/' is a single lookup: the first member with that key on an object,
      the element at that decimal index on an array, nothing on a scalar. */
  lemma SingleSegment(j: Json, seg: string)
    requires '/' !in seg
    ensures j.Obj? ==> (ResolvePointer(j, seg).Some? <==> exists k :: 0 <= k < |j.members| && j.members[k].key == seg)
    ensures j.Arr? ==> (ResolvePointer(j, seg).Some? <==> ParseIndex(seg).Some? && ParseIndex(seg).value < |j.elems|)
    ensures j.Arr? && ParseIndex(seg).Some? && ParseIndex(seg).value < |j.elems| ==>
              ResolvePointer(j, seg) == Some(j.elems[ParseIndex(seg).value])
    ensures j.Obj? && FindMember(j.members, seg).Some? ==>
              ResolvePointer(j, seg) == Some(j.members[FindMember(j.members, seg).value].value)
    ensures !IsContainer(j) ==> ResolvePointer(j, seg).None?
  {
  }
}
