/** The stack-safe generation of the engine, src/simple/index.js: the same
    primitives and combinators, construction-time validation of regular
    expressions and promoted inners, and `seq` and `times` that walk an
    explicit stack of iterator frames instead of recursing. */
module StackSafe {
  import opened Records
  import opened Search
  import Simple

  // ---------------------------------------------------------------------
  // Primitives

  const Nothing: Matcher := (s: Text, i: nat) => []

  /** EMPTY, written out: the empty string, in place, at every offset. */
  const Empty: Matcher := (s: Text, i: nat) => [Record(i, Str([]))]

  const Chr: Matcher := (s: Text, i: nat) =>
    if i < |s| then [Record(i + 1, Str(Substr(s, i, 1)))] else []

  /** One Unicode character: a high surrogate with the low surrogate after
      it, or any other single code unit. */
  const Unicode: Matcher := (s: Text, i: nat) =>
    if i < |s| then
      var first := s[i];
      if 0xD800 <= first <= 0xDBFF then
        if i + 1 < |s| then
          var second := s[i + 1];
          if 0xDC00 <= second <= 0xDFFF then [Record(i + 1 + 1, Str([first, second]))] else []
        else []
      else [Record(i + 1, Str([first]))]
    else []

  function Fixed(needle: Text): Matcher
  {
    (s: Text, i: nat) =>
      if Substr(s, i, |needle|) == needle then [Record(i + |needle|, Str(needle))] else []
  }

  lemma PrimitivesAgree(needle: Text)
    ensures Same(Empty, Simple.Empty) && Same(Chr, Simple.Chr) && Same(Nothing, Simple.Nothing)
    ensures Same(Fixed(needle), Simple.Fixed(needle))
  {
    forall s: Text, i: nat ensures Empty(s, i) == Simple.Empty(s, i) {
      Simple.EmptyMatches(s, i);
    }
  }

  /** A high surrogate followed by any low surrogate, DFFF included, is one
      character; an unpaired high surrogate is none; any other code unit,
      a lone low surrogate too, is a character of its own. */
  lemma UnicodeMatches(s: Text, i: nat)
    ensures i >= |s| ==> Unicode(s, i) == []
    ensures i < |s| && !Simple.IsHigh(s[i]) ==> Unicode(s, i) == [Record(i + 1, Str([s[i]]))]
    ensures i + 1 < |s| && Simple.IsHigh(s[i]) && Simple.IsLow(s[i + 1])
            ==> Unicode(s, i) == [Record(i + 2, Str(s[i..i + 2]))]
    ensures i < |s| && Simple.IsHigh(s[i]) && !(i + 1 < |s| && Simple.IsLow(s[i + 1]))
            ==> Unicode(s, i) == []
  {
    if i + 1 < |s| {
      assert s[i..i + 2] == [s[i], s[i + 1]];
    }
  }

  /** The two generations of UNICODE part only on a high surrogate followed by DFFF. */
  lemma UnicodeDiffersOnlyAtLastLowSurrogate(s: Text, i: nat)
    ensures Unicode(s, i) != Simple.Unicode(s, i)
            <==> i + 1 < |s| && Simple.IsHigh(s[i]) && s[i + 1] == 0xDFFF
  {
    if i + 1 < |s| && Simple.IsHigh(s[i]) && s[i + 1] == 0xDFFF {
      assert |Unicode(s, i)| == 1;
    }
  }

  // ---------------------------------------------------------------------
  // Regular expressions: construction-time checks

  /** What matching a RegExp reports: the matched text and the capture groups. */
  datatype Captures = Captures(whole: Text, groups: seq<Text>)

  /** A RegExp object as far as the engine looks at it: its global flag, its
      source text, and what the JavaScript engine's matching against it
      returns for a string (`None` for `null`). */
  datatype RegExp = RegExp(global: bool, source: Text, exec: Text -> Option<Captures>)

  /** The source starts with `^`. */
  predicate Anchored(source: Text)
  {
    |source| > 0 && source[0] == 0x5E
  }

  function CaptureValues(c: Captures): (v: Value)
    ensures v.List? && |v.items| == 1 + |c.groups| && v.items[0] == Str(c.whole)
  {
    List([Str(c.whole)] + seq(|c.groups|, k requires 0 <= k < |c.groups| => Str(c.groups[k])))
  }

  /** `regex(regExp)`: a global RegExp is refused first, then one whose
      source is not anchored; both before any matching. */
  function Regex(re: RegExp): (r: Result<Matcher>)
    ensures r.Err? <==> re.global || !Anchored(re.source)
    ensures re.global ==> r.Err? && r.message == "Can't use a global RegExp"
    ensures !re.global && !Anchored(re.source)
            ==> r.Err? && r.message == "RegExp must be anchored at the start of the substring"
    ensures r.Ok? ==> forall s: Text, i: nat :: |r.value(s, i)| <= 1
  {
    if re.global then Err("Can't use a global RegExp")
    else if !Anchored(re.source) then Err("RegExp must be anchored at the start of the substring")
    else
      Ok((s: Text, i: nat) =>
           match re.exec(SubstringFrom(s, i))
           case None => []
           case Some(c) => [Record(i + |c.whole|, CaptureValues(c))])
  }

  /** `/^a/g` is refused for being global although it is anchored. */
  lemma GlobalCheckedFirst(exec: Text -> Option<Captures>)
    ensures Regex(RegExp(true, [0x5E, 0x61], exec)) == Err("Can't use a global RegExp")
  {
  }

  // ---------------------------------------------------------------------
  // Promotion and alternation

  /** What a combinator accepts where a matcher is expected. */
  datatype Inner = Lit(text: Text) | Pattern(re: RegExp) | Fn(m: Matcher)

  /** A string becomes `fixed`, a RegExp becomes `regex` (which may throw),
      anything else is used as it is. */
  function Promote(x: Inner): (r: Result<Matcher>)
    ensures x.Lit? ==> r == Ok(Fixed(x.text))
    ensures x.Pattern? ==> r == Regex(x.re)
    ensures x.Fn? ==> r == Ok(x.m)
  {
    match x
    case Lit(t) => Ok(Fixed(t))
    case Pattern(re) => Regex(re)
    case Fn(m) => Ok(m)
  }

  /** `xs[k]` is the first inner whose promotion throws, with `message`. */
  predicate FirstFailure(xs: seq<Inner>, k: nat, message: string)
  {
    k < |xs| && Promote(xs[k]).Err? && message == Promote(xs[k]).message
    && forall n :: 0 <= n < k ==> Promote(xs[n]).Ok?
  }

  lemma FirstFailureShift(xs: seq<Inner>, k: nat, message: string)
    requires xs != [] && Promote(xs[0]).Ok? && FirstFailure(xs[1..], k, message)
    ensures FirstFailure(xs, k + 1, message)
  {
    forall n | 0 < n < k + 1 ensures Promote(xs[n]).Ok? {
      assert xs[n] == xs[1..][n - 1];
    }
    assert xs[k + 1] == xs[1..][k];
  }

  /** `inners.map(promote)`: all promoted in order, or the first error thrown. */
  function PromoteAll(xs: seq<Inner>): (r: Result<seq<Matcher>>)
    ensures r.Ok? <==> forall k :: 0 <= k < |xs| ==> Promote(xs[k]).Ok?
    ensures r.Ok? ==> |r.value| == |xs| && forall k :: 0 <= k < |xs| ==> r.value[k] == Promote(xs[k]).value
    ensures r.Err? ==> exists k: nat :: FirstFailure(xs, k, r.message)
  {
    if xs == [] then Ok([])
    else
      match Promote(xs[0])
      case Err(e) =>
        assert FirstFailure(xs, 0, e);
        Err(e)
      case Ok(m) =>
        match PromoteAll(xs[1..])
        case Err(e) =>
          var k: nat :| FirstFailure(xs[1..], k, e);
          FirstFailureShift(xs, k, e);
          Err(e)
        case Ok(ms) =>
          assert forall k :: 0 < k < |xs| ==> xs[k] == xs[1..][k - 1];
          Ok([m] + ms)
  }

  /** `or(inners)`: every promoted inner's records at the same offset, in
      list order; an inner that cannot be promoted makes `or` fail with its
      message. */
  function Or(inners: seq<Inner>): (r: Result<Matcher>)
    ensures r.Ok? <==> PromoteAll(inners).Ok?
    ensures r.Err? ==> r.message == PromoteAll(inners).message
    ensures r.Ok? ==> forall s: Text, i: nat :: r.value(s, i) == Simple.OrAll(PromoteAll(inners).value, s, i)
  {
    match PromoteAll(inners)
    case Err(e) => Err(e)
    case Ok(ms) => Ok((s: Text, i: nat) => Simple.OrAll(ms, s, i))
  }

  /** The separator, EMPTY when none is given, promoted. */
  function SepOf(separator: Option<Inner>): (r: Result<Matcher>)
    ensures separator.None? ==> r == Ok(Empty)
    ensures separator.Some? ==> r == Promote(separator.value)
  {
    if separator.None? then Ok(Empty) else Promote(separator.value)
  }

  // ---------------------------------------------------------------------
  // Stack-based sequence

  /** The elements as the walk sees them: the first as it is, each later one
      behind the separator. */
  function Wrap(elems: seq<Matcher>, sep: Matcher): (w: seq<Matcher>)
    ensures |w| == |elems|
    ensures |elems| > 0 ==> w[0] == elems[0]
    ensures forall k :: 0 < k < |elems| ==> w[k] == Then(sep, elems[k])
  {
    seq(|elems|, k requires 0 <= k < |elems| => if k == 0 then elems[0] else Then(sep, elems[k]))
  }

  /** Frame `d` of the stack iterates `wrapped[d]`; a record is reported
      exactly when the stack is full. */
  function WalkPlan(wrapped: seq<Matcher>, s: Text): (p: Plan)
    ensures Finite(p)
  {
    Plan((d: nat, j: nat) => if d < |wrapped| then wrapped[d](s, j) else [],
         |wrapped|, Some(|wrapped|), |s|)
  }

  /** `seq(inners, separator)`. With no elements it matches once, empty, in
      place, whatever the separator; otherwise the separator is promoted
      before the elements. */
  function Seq(inners: seq<Inner>, separator: Option<Inner>): (r: Result<Matcher>)
    ensures |inners| == 0 ==> r.Ok? && forall s: Text, i: nat :: r.value(s, i) == [Record(i, List([]))]
    ensures |inners| > 0 ==> (r.Ok? <==> SepOf(separator).Ok? && PromoteAll(inners).Ok?)
    ensures r.Err? ==> r.message == if SepOf(separator).Err? then SepOf(separator).message else PromoteAll(inners).message
  {
    if |inners| == 0 then Ok((s: Text, i: nat) => [Record(i, List([]))])
    else
      match SepOf(separator)
      case Err(e) => Err(e)
      case Ok(sep) =>
        match PromoteAll(inners)
        case Err(e) => Err(e)
        case Ok(elems) =>
          var wrapped := Wrap(elems, sep);
          Ok((s: Text, i: nat) => Tree(WalkPlan(wrapped, s), i, []))
  }

  /** The generator of a non-empty `seq`: pop an exhausted frame, otherwise
      take its next record and report the full stack or push the next
      element's frame, until the stack is empty. */
  method SeqWalk(wrapped: seq<Matcher>, s: Text, i: nat) returns (out: seq<Record>)
    requires |wrapped| > 0
    ensures out == Tree(WalkPlan(wrapped, s), i, [])
  {
    ghost var p := WalkPlan(wrapped, s);
    PushStep(p, i, []);
    var stack := [Frame(wrapped[0](s, i), 0)];
    out := [];
    while |stack| > 0
      invariant Linked(p, i, stack) && |stack| <= |wrapped|
      invariant out + Pending(p, i, stack) == Tree(p, i, [])
      decreases Work(p, i, stack)
    {
      var frame := stack[|stack| - 1];
      if frame.pos == |frame.recs| {
        PopStep(p, i, stack);
        stack := stack[..|stack| - 1];
      } else {
        LinkedDepth(p, i, stack);
        var value := frame.recs[frame.pos];
        if |stack| == |wrapped| {
          EmitStep(p, i, stack);
          ghost var pending := Pending(p, i, stack);
          stack := stack[|stack| - 1 := Frame(frame.recs, frame.pos + 1)];
          var record := Record(value.j, List(PathOf(stack)));
          assert pending == [record] + Pending(p, i, stack);
          assert out + pending == (out + [record]) + Pending(p, i, stack);
          out := out + [record];
        } else {
          DescendStep(p, i, stack);
          stack := stack[|stack| - 1 := Frame(frame.recs, frame.pos + 1)];
          assert wrapped[|stack|](s, value.j) == p.kids(|stack|, value.j);
          stack := stack + [Frame(wrapped[|stack|](s, value.j), 0)];
        }
      }
    }
  }

  // ---------------------------------------------------------------------
  // Stack-based bounded repetition

  /** The first frame iterates `first`, every later one `nonFirst` (the
      separator, then `inner`); lists from `min` copies on are reported. */
  function TimesPlan(first: Matcher, nonFirst: Matcher, min: nat, max: Option<nat>, s: Text): Plan
  {
    Plan((d: nat, j: nat) => if d == 0 then first(s, j) else nonFirst(s, j), min, max, |s|)
  }

  ghost predicate Terminates(first: Matcher, nonFirst: Matcher, max: Option<nat>)
  {
    max.None? ==> Advancing(first) && Advancing(nonFirst)
  }

  lemma TimesPlanFinite(first: Matcher, nonFirst: Matcher, min: nat, max: Option<nat>, s: Text)
    requires Terminates(first, nonFirst, max)
    ensures Finite(TimesPlan(first, nonFirst, min, max, s))
  {
    var p := TimesPlan(first, nonFirst, min, max, s);
    forall d: nat, j: nat, k | 0 <= k < |p.kids(d, j)| ensures Fits(p, j, p.kids(d, j)[k]) {
      if d == 0 {
        assert p.kids(d, j) == first(s, j);
      } else {
        assert p.kids(d, j) == nonFirst(s, j);
      }
    }
  }

  /** Unbounded repetition ends when every copy consumes input and the
      separator never moves backwards. */
  ghost predicate Terminating(inner: Inner, separator: Option<Inner>, max: Option<nat>)
  {
    max.None? && Promote(inner).Ok? && SepOf(separator).Ok?
    ==> Advancing(Promote(inner).value) && Monotone(SepOf(separator).value)
  }

  /** `times(inner, min, max, separator)`, `max` None standing for Infinity.
      `max = 0` matches once, empty, in place, before anything is promoted;
      otherwise the separator is promoted before `inner`. */
  function Times(inner: Inner, min: nat, max: Option<nat>, separator: Option<Inner>): (r: Result<Matcher>)
    requires Terminating(inner, separator, max)
    ensures max == Some(0) ==> r.Ok? && forall s: Text, i: nat :: r.value(s, i) == [Record(i, List([]))]
    ensures max != Some(0) ==> (r.Ok? <==> SepOf(separator).Ok? && Promote(inner).Ok?)
    ensures r.Err? ==> r.message == if SepOf(separator).Err? then SepOf(separator).message else Promote(inner).message
  {
    if max == Some(0) then Ok((s: Text, i: nat) => [Record(i, List([]))])
    else
      match SepOf(separator)
      case Err(e) => Err(e)
      case Ok(sep) =>
        match Promote(inner)
        case Err(e) => Err(e)
        case Ok(m) =>
          var nonFirst := Then(sep, m);
          assert Terminates(m, nonFirst, max) by {
            if max.None? { ThenAdvancing(sep, m); }
          }
          Ok((s: Text, i: nat) =>
               TimesPlanFinite(m, nonFirst, min, max, s);
               Tree(TimesPlan(m, nonFirst, min, max, s), i, []))
  }

  /** Every list `times` reports holds at most `max` copies, and at least
      `min` unless `max = 0` cut the walk short. */
  lemma TimesCounts(inner: Inner, min: nat, max: Option<nat>, separator: Option<Inner>, s: Text, i: nat, r: Record)
    requires Terminating(inner, separator, max)
    requires Times(inner, min, max, separator).Ok?
    requires r in Times(inner, min, max, separator).value(s, i)
    ensures r.v.List?
    ensures max != Some(0) ==> min <= |r.v.items|
    ensures max.Some? ==> |r.v.items| <= max.value
  {
    if max != Some(0) {
      var m := Promote(inner).value;
      var sep := SepOf(separator).value;
      if max.None? { ThenAdvancing(sep, m); }
      TimesPlanFinite(m, Then(sep, m), min, max, s);
      var p := TimesPlan(m, Then(sep, m), min, max, s);
      assert Times(inner, min, max, separator).value(s, i) == Tree(p, i, []);
      TreeShape(p, i, [], r);
    }
  }

  /** With `min = 0` the first record is the empty list, in place: a node is
      reported before it is extended. */
  lemma TimesStartsEmpty(inner: Inner, max: Option<nat>, separator: Option<Inner>, s: Text, i: nat)
    requires Terminating(inner, separator, max)
    requires Times(inner, 0, max, separator).Ok?
    ensures |Times(inner, 0, max, separator).value(s, i)| > 0
    ensures Times(inner, 0, max, separator).value(s, i)[0] == Record(i, List([]))
  {
    if max != Some(0) {
      var m := Promote(inner).value;
      var sep := SepOf(separator).value;
      if max.None? { ThenAdvancing(sep, m); }
      TimesPlanFinite(m, Then(sep, m), 0, max, s);
      var p := TimesPlan(m, Then(sep, m), 0, max, s);
      assert Times(inner, 0, max, separator).value(s, i) == Tree(p, i, []);
    }
  }

  function Star(inner: Inner, separator: Option<Inner>): Result<Matcher>
    requires Terminating(inner, separator, None)
  {
    Times(inner, 0, None, separator)
  }

  function Plus(inner: Inner, separator: Option<Inner>): Result<Matcher>
    requires Terminating(inner, separator, None)
  {
    Times(inner, 1, None, separator)
  }

  /** Still to be reported, and so still to be walked, at the head of the
      outer loop of `times`: the subtree of the node the stack stands for,
      then what is pending below it. */
  ghost function Progress(p: Plan, i: nat, stack: seq<Frame>): nat
    requires Finite(p) && Linked(p, i, stack) && Advanced(stack)
  {
    if stack == [] then Size(p, i, []) + 1
    else Work(p, i, stack) + Size(p, StartOf(i, stack), PathOf(stack))
  }

  /** The inner loop of `times`: advance the top frame to its next record,
      popping frames that are exhausted; an empty result means the walk is
      over. */
  method Backtrack(ghost p: Plan, i: nat, stack: seq<Frame>) returns (next: seq<Frame>)
    requires Finite(p) && Linked(p, i, stack)
    ensures Linked(p, i, next) && Advanced(next) && |next| <= |stack|
    ensures next == [] ==> Pending(p, i, stack) == []
    ensures next != [] ==> Pending(p, i, stack) == Tree(p, StartOf(i, next), PathOf(next)) + Pending(p, i, next)
    ensures next != [] ==> Work(p, i, next) + Size(p, StartOf(i, next), PathOf(next)) < Work(p, i, stack)
  {
    next := stack;
    while true
      invariant Linked(p, i, next) && |next| <= |stack|
      invariant Pending(p, i, next) == Pending(p, i, stack)
      invariant Work(p, i, next) <= Work(p, i, stack)
      decreases Work(p, i, next)
    {
      if |next| == 0 {
        return;
      }
      var frame := next[|next| - 1];
      if frame.pos < |frame.recs| {
        AdvanceStep(p, i, next);
        next := next[|next| - 1 := Frame(frame.recs, frame.pos + 1)];
        return;
      }
      PopStep(p, i, next);
      next := next[..|next| - 1];
    }
  }

  /** One pass of the outer loop of `times` up to the backtracking. On the
      first pass (empty stack) report the empty list when `min = 0` and open
      the first frame; on a later pass report the list the stack holds when
      it has `min` to `max` values, and push a frame while below `max`. */
  method Visit(ghost p: Plan, first: Matcher, nonFirst: Matcher, min: nat, max: Option<nat>, s: Text, i: nat,
               stack: seq<Frame>, out: seq<Record>)
    returns (next: seq<Frame>, out': seq<Record>)
    requires p == TimesPlan(first, nonFirst, min, max, s) && max != Some(0)
    requires Finite(p) && Linked(p, i, stack) && Advanced(stack)
    ensures Linked(p, i, next)
    ensures out' + Pending(p, i, next) == out + Tree(p, StartOf(i, stack), PathOf(stack)) + Pending(p, i, stack)
    ensures Work(p, i, next) == Work(p, i, stack) + Size(p, StartOf(i, stack), PathOf(stack))
  {
    var report := VisitReport(p, min, max, i, stack);
    next := VisitOpen(p, first, nonFirst, min, max, s, i, stack);
    out' := out + report;
    ExpandStep(p, i, stack, report, next);
    Regroup(out, report, Tree(p, StartOf(i, stack), PathOf(stack)), Pending(p, i, stack), Pending(p, i, next));
  }

  lemma Regroup(out: seq<Record>, report: seq<Record>, tree: seq<Record>, before: seq<Record>, after: seq<Record>)
    requires tree + before == report + after
    ensures (out + report) + after == out + tree + before
  {
    assert (out + report) + after == out + (report + after);
    assert out + tree + before == out + (tree + before);
  }

  /** The record for the node the stack stands for, when it holds enough copies. */
  method VisitReport(ghost p: Plan, min: nat, max: Option<nat>, i: nat, stack: seq<Frame>)
    returns (report: seq<Record>)
    requires p.min == min && p.max == max && max != Some(0)
    requires Linked(p, i, stack) && Advanced(stack)
    ensures report == if p.min <= |stack| then [Record(StartOf(i, stack), List(PathOf(stack)))] else []
  {
    report := [];
    if |stack| == 0 {
      assert StartOf(i, stack) == i && PathOf(stack) == [];
      if min == 0 {
        report := [Record(i, List([]))];
      }
    } else {
      var j := Cur(stack[|stack| - 1]).j;
      LinkedDepth(p, i, stack);
      if min <= |stack| && (max.None? || |stack| <= max.value) {
        report := [Record(j, List(PathOf(stack)))];
      }
    }
  }

  /** The frame for the next copy, opened while fewer than `max` are held:
      the first copy unled, every later one behind the separator. */
  method VisitOpen(ghost p: Plan, first: Matcher, nonFirst: Matcher, min: nat, max: Option<nat>, s: Text, i: nat,
                   stack: seq<Frame>)
    returns (next: seq<Frame>)
    requires p == TimesPlan(first, nonFirst, min, max, s) && max != Some(0)
    requires Advanced(stack)
    ensures next == if Below(p, |stack|) then stack + [Frame(p.kids(|stack|, StartOf(i, stack)), 0)] else stack
  {
    if |stack| == 0 {
      assert StartOf(i, stack) == i;
      assert Below(p, 0) && first(s, i) == p.kids(0, i);
      next := stack + [Frame(first(s, i), 0)];
    } else {
      var j := Cur(stack[|stack| - 1]).j;
      assert j == StartOf(i, stack) && Below(p, |stack|) == Simple.Less(|stack|, max);
      next := stack;
      if Simple.Less(|stack|, max) {
        assert p.kids(|stack|, j) == nonFirst(s, j);
        next := stack + [Frame(nonFirst(s, j), 0)];
      }
    }
  }

  method TimesWalk(first: Matcher, nonFirst: Matcher, min: nat, max: Option<nat>, s: Text, i: nat)
    returns (out: seq<Record>)
    requires max != Some(0) && Terminates(first, nonFirst, max)
    ensures Finite(TimesPlan(first, nonFirst, min, max, s))
    ensures out == Tree(TimesPlan(first, nonFirst, min, max, s), i, [])
  {
    TimesPlanFinite(first, nonFirst, min, max, s);
    ghost var p := TimesPlan(first, nonFirst, min, max, s);
    var stack: seq<Frame> := [];
    out := [];
    assert StartOf(i, stack) == i && PathOf(stack) == [];
    while true
      invariant Linked(p, i, stack) && Advanced(stack)
      invariant max.Some? ==> |stack| <= max.value
      invariant out + Tree(p, StartOf(i, stack), PathOf(stack)) + Pending(p, i, stack) == Tree(p, i, [])
      decreases Progress(p, i, stack)
    {
      ghost var size := Size(p, StartOf(i, stack), PathOf(stack));
      ghost var work := Work(p, i, stack);
      stack, out := Visit(p, first, nonFirst, min, max, s, i, stack, out);
      ghost var pending := Pending(p, i, stack);
      assert out + pending == Tree(p, i, []);
      assert Work(p, i, stack) == work + size;
      stack := Backtrack(p, i, stack);
      if |stack| == 0 {
        assert out == out + pending;
        return;
      }
      LinkedDepth(p, i, stack);
      Rejoin(out, pending, Tree(p, StartOf(i, stack), PathOf(stack)), Pending(p, i, stack), Tree(p, i, []));
    }
  }

  lemma Rejoin(out: seq<Record>, pending: seq<Record>, tree: seq<Record>, rest: seq<Record>, all: seq<Record>)
    requires out + pending == all && pending == tree + rest
    ensures out + tree + rest == all
  {
    assert out + tree + rest == out + (tree + rest);
  }

  // ---------------------------------------------------------------------
  // Transforms and late-bound references (no promotion in this generation)

  function Map(inner: Matcher, f: Value -> Value): Matcher
  {
    (s: Text, i: nat) => MapRecords(inner(s, i), f)
  }

  function Filter(inner: Matcher, keep: Value -> bool): Matcher
  {
    (s: Text, i: nat) => FilterRecords(inner(s, i), keep)
  }

  /** `map` keeps every record's end offset and replaces its value by `f` of it. */
  lemma MapKeepsOffsets(inner: Matcher, f: Value -> Value, s: Text, i: nat)
    ensures |Map(inner, f)(s, i)| == |inner(s, i)|
    ensures forall k :: 0 <= k < |inner(s, i)| ==>
              Map(inner, f)(s, i)[k] == Record(inner(s, i)[k].j, f(inner(s, i)[k].v))
  {
  }

  /** `filter` keeps exactly the records whose value passes, in their order. */
  lemma FilterKeepsPassing(inner: Matcher, keep: Value -> bool, s: Text, i: nat, r: Record)
    ensures r in Filter(inner, keep)(s, i) <==> r in inner(s, i) && keep(r.v)
    ensures Subsequence(Filter(inner, keep)(s, i), inner(s, i))
  {
    FilterRecordsMember(inner(s, i), keep, r);
    FilterRecordsSubsequence(inner(s, i), keep);
  }

  /** `resolve(open)` unfolded `fuel` times: `open` applied to references
      that stand for the rule set unfolded one time fewer. */
  function Closed(open: (string -> Matcher) -> map<string, Matcher>, fuel: nat): map<string, Matcher>
    decreases fuel
  {
    if fuel == 0 then open((name: string) => Nothing)
    else
      var below := Closed(open, fuel - 1);
      open((name: string) => Simple.RefTo(below, name))
  }

  /** A `map` around the referenced rule is seen through the reference. */
  lemma MapSeenThroughRef(open: (string -> Matcher) -> map<string, Matcher>, a: string, b: string,
                          inner: Matcher, f: Value -> Value, fuel: nat, s: Text, i: nat)
    requires forall ref: string -> Matcher :: a in open(ref) && b in open(ref) && open(ref)[b] == ref(a)
    requires forall ref: string -> Matcher :: open(ref)[a] == Map(inner, f)
    ensures Closed(open, fuel + 1)[b](s, i) == MapRecords(inner(s, i), f)
  {
    var below := Closed(open, fuel);
    var ref := (name: string) => Simple.RefTo(below, name);
    assert open(ref)[b] == ref(a);
    if fuel == 0 {
      assert a in open((name: string) => Nothing) && open((name: string) => Nothing)[a] == Map(inner, f);
    } else {
      var ref' := (name: string) => Simple.RefTo(Closed(open, fuel - 1), name);
      assert a in open(ref') && open(ref')[a] == Map(inner, f);
    }
  }

  /** A `map` around the reference itself transforms the referenced rule's records. */
  lemma MapAroundRef(open: (string -> Matcher) -> map<string, Matcher>, a: string, b: string,
                     f: Value -> Value, fuel: nat, s: Text, i: nat)
    requires forall ref: string -> Matcher :: a in open(ref) && b in open(ref) && open(ref)[b] == Map(ref(a), f)
    ensures Closed(open, fuel + 1)[b](s, i) == MapRecords(Closed(open, fuel)[a](s, i), f)
  {
    var below := Closed(open, fuel);
    var ref := (name: string) => Simple.RefTo(below, name);
    assert open(ref)[b] == Map(ref(a), f);
    if fuel == 0 {
      assert a in open((name: string) => Nothing);
    } else {
      var ref' := (name: string) => Simple.RefTo(Closed(open, fuel - 1), name);
      assert a in open(ref');
    }
  }

  // ---------------------------------------------------------------------
  // Agreement with the recursive generation

  /** The recursive generation's counterpart of an inner that is not a RegExp. */
  function Plain(x: Inner): Simple.Inner
    requires !x.Pattern?
  {
    if x.Lit? then Simple.Lit(x.text) else Simple.Fn(x.m)
  }

  predicate NoPatterns(xs: seq<Inner>)
  {
    forall k :: 0 <= k < |xs| ==> !xs[k].Pattern?
  }

  function PlainAll(xs: seq<Inner>): (ys: seq<Simple.Inner>)
    requires NoPatterns(xs)
    ensures |ys| == |xs| && forall k :: 0 <= k < |xs| ==> ys[k] == Plain(xs[k])
  {
    seq(|xs|, k requires 0 <= k < |xs| => Plain(xs[k]))
  }

  function PlainSep(separator: Option<Inner>): Option<Simple.Inner>
    requires separator.Some? ==> !separator.value.Pattern?
  {
    if separator.None? then None else Some(Plain(separator.value))
  }

  /** Promoting a string or a matcher cannot fail, and gives what the
      recursive generation gives. */
  lemma PromoteAgrees(x: Inner)
    requires !x.Pattern?
    ensures Promote(x).Ok? && Same(Promote(x).value, Simple.Promote(Plain(x)))
  {
    if x.Lit? {
      PrimitivesAgree(x.text);
    }
  }

  /** Alternatives that match alike at `(s, i)` give the same `or` there. */
  lemma {:induction false} OrAllSame(ms: seq<Matcher>, ms': seq<Matcher>, s: Text, i: nat)
    requires |ms| == |ms'| && forall k :: 0 <= k < |ms| ==> ms[k](s, i) == ms'[k](s, i)
    ensures Simple.OrAll(ms, s, i) == Simple.OrAll(ms', s, i)
  {
    if ms != [] {
      assert forall k :: 0 <= k < |ms| - 1 ==> ms[1..][k] == ms[k + 1] && ms'[1..][k] == ms'[k + 1];
      OrAllSame(ms[1..], ms'[1..], s, i);
    }
  }

  /** Without RegExps, the stack-safe `or` builds and enumerates exactly what
      the recursive generation's `or` does. */
  lemma OrAgreesWithSimple(inners: seq<Inner>, s: Text, i: nat)
    requires NoPatterns(inners)
    ensures Or(inners).Ok?
    ensures Or(inners).value(s, i) == Simple.Or(PlainAll(inners))(s, i)
  {
    forall k | 0 <= k < |inners|
      ensures Promote(inners[k]).Ok? && Same(Promote(inners[k]).value, Simple.Promote(Plain(inners[k])))
    {
      PromoteAgrees(inners[k]);
    }
    var ms := PromoteAll(inners).value;
    var ms' := Simple.PromoteAll(PlainAll(inners));
    forall k | 0 <= k < |ms|
      ensures ms[k](s, i) == ms'[k](s, i)
    {
      assert Same(Promote(inners[k]).value, Simple.Promote(Plain(inners[k])));
    }
    OrAllSame(ms, ms', s, i);
  }

  lemma SepAgrees(separator: Option<Inner>)
    requires separator.Some? ==> !separator.value.Pattern?
    ensures SepOf(separator).Ok? && Same(SepOf(separator).value, Simple.SepOf(PlainSep(separator)))
  {
    PrimitivesAgree([]);
    if separator.Some? {
      PromoteAgrees(separator.value);
    }
  }

  /** Ahead of the first element or copy there is nothing to match. */
  lemma FirstUnled(m: Matcher, m': Matcher)
    requires Same(m, m')
    ensures Same(m, Then(Simple.Lead(0, Simple.Empty), m'))
  {
    forall s: Text, i: nat ensures Simple.Empty(s, i) == [Record(i, Str([]))] {
      Simple.EmptyMatches(s, i);
    }
    ThenNeutral(Simple.Empty, m');
  }

  /** On inners without RegExps, the stack walk of a non-empty `seq` lists
      the same records, in the same order, as the recursion of simple.js. */
  lemma SeqAgreesWithSimple(inners: seq<Inner>, separator: Option<Inner>, s: Text, i: nat)
    requires |inners| > 0 && NoPatterns(inners)
    requires separator.Some? ==> !separator.value.Pattern?
    ensures Seq(inners, separator).Ok? && Simple.Seq(PlainAll(inners), PlainSep(separator)).Ok?
    ensures Seq(inners, separator).value(s, i) == Simple.Seq(PlainAll(inners), PlainSep(separator)).value(s, i)
  {
    SepAgrees(separator);
    var sep := SepOf(separator).value;
    var elems := PromoteAll(inners).value;
    var sep' := Simple.SepOf(PlainSep(separator));
    var elems' := Simple.PromoteAll(PlainAll(inners));
    var p := WalkPlan(Wrap(elems, sep), s);
    var q := Simple.SeqPlan(elems', sep', s);
    forall d: nat, k: nat ensures p.kids(d, k) == q.kids(d, k) {
      if d < |elems| {
        PromoteAgrees(inners[d]);
        assert Same(elems[d], elems'[d]);
        assert p.kids(d, k) == Wrap(elems, sep)[d](s, k);
        assert q.kids(d, k) == Then(Simple.Lead(d, sep'), elems'[d])(s, k);
        if d == 0 {
          FirstUnled(elems[0], elems'[0]);
          assert Wrap(elems, sep)[0] == elems[0];
        } else {
          assert Simple.Lead(d, sep') == sep';
          ThenSame(sep, sep', elems[d], elems'[d]);
          assert Wrap(elems, sep)[d] == Then(sep, elems[d]);
        }
      } else {
        assert p.kids(d, k) == [] == q.kids(d, k);
      }
    }
    TreeCongruent(p, q, i, []);
    Simple.SeqFromIsTree(elems', sep', s, i, []);
    assert Seq(inners, separator).value(s, i) == Tree(p, i, []);
  }

  /** Matchers handed over as they are: what an inner list becomes once promoted. */
  function Fns(ms: seq<Matcher>): (xs: seq<Inner>)
    ensures |xs| == |ms| && NoPatterns(xs)
    ensures forall k :: 0 <= k < |ms| ==> xs[k] == Fn(ms[k])
  {
    seq(|ms|, k requires 0 <= k < |ms| => Fn(ms[k]))
  }

  lemma {:induction false} PromoteFns(ms: seq<Matcher>)
    ensures PromoteAll(Fns(ms)) == Ok(ms)
  {
    if ms != [] {
      assert Fns(ms)[1..] == Fns(ms[1..]);
      PromoteFns(ms[1..]);
      assert Promote(Fns(ms)[0]) == Ok(ms[0]);
      assert ms == [ms[0]] + ms[1..];
    }
  }

  /** With RegExps among the inners, a `seq` that builds enumerates what
      simple.js's `seq` does over the promoted inners and separator. */
  lemma SeqAgreesPromoted(inners: seq<Inner>, separator: Option<Inner>, s: Text, i: nat)
    requires |inners| > 0 && PromoteAll(inners).Ok? && SepOf(separator).Ok?
    ensures Seq(inners, separator).Ok?
    ensures Seq(inners, separator).value(s, i)
            == Simple.Seq(PlainAll(Fns(PromoteAll(inners).value)), Some(Simple.Fn(SepOf(separator).value))).value(s, i)
  {
    var ms := PromoteAll(inners).value;
    var sep := SepOf(separator).value;
    PromoteFns(ms);
    SeqAgreesWithSimple(Fns(ms), Some(Fn(sep)), s, i);
    assert Seq(inners, separator).value(s, i) == Seq(Fns(ms), Some(Fn(sep))).value(s, i);
  }

  /** With no elements the stack-safe `seq` accepts a separator and matches
      the empty list in place, where simple.js refuses to build. */
  lemma SeqOfNoneWithSeparator(separator: Inner)
    requires !separator.Pattern?
    ensures Seq([], Some(separator)).Ok?
    ensures Simple.Seq([], Some(Plain(separator))) == Err("Not well-defined less than 1 inner")
  {
  }

  /** The two walks of `times` agree when their copies and separators do. */
  lemma TimesPlansAgree(m: Matcher, m': Matcher, sep: Matcher, sep': Matcher,
                        min: nat, max: Option<nat>, s: Text, i: nat)
    requires Same(m, m') && Same(sep, sep')
    requires Simple.Terminates(m', sep', max)
    ensures Terminates(m, Then(sep, m), max)
    ensures Finite(TimesPlan(m, Then(sep, m), min, max, s))
    ensures Tree(TimesPlan(m, Then(sep, m), min, max, s), i, [])
            == Simple.TimesFrom(m', sep', min, max, s, i, [])
  {
    SameLaws(m, m');
    SameLaws(sep, sep');
    if max.None? {
      ThenAdvancing(sep, m);
    }
    var nonFirst := Then(sep, m);
    TimesPlanFinite(m, nonFirst, min, max, s);
    var p := TimesPlan(m, nonFirst, min, max, s);
    var q := Simple.TimesPlan(m', sep', min, max, s);
    Simple.TimesPlanFinite(m', sep', min, max, s);
    forall d: nat, k: nat ensures p.kids(d, k) == q.kids(d, k) {
      assert q.kids(d, k) == Then(Simple.Lead(d, sep'), m')(s, k);
      if d == 0 {
        FirstUnled(m, m');
        assert Simple.Lead(0, sep') == Simple.Lead(0, Simple.Empty);
        assert p.kids(d, k) == m(s, k);
      } else {
        ThenSame(sep, Simple.Lead(d, sep'), m, m');
        assert p.kids(d, k) == nonFirst(s, k);
      }
    }
    TreeCongruent(p, q, i, []);
    Simple.TimesFromIsTree(m', sep', min, max, s, i, []);
  }

  /** On inners without RegExps, and where simple.js builds a matcher at
      all, the stack walk of `times` with `max > 0` lists the same records,
      in the same order, as the recursion of simple.js. */
  lemma TimesAgreesWithSimple(inner: Inner, min: nat, max: Option<nat>, separator: Option<Inner>, s: Text, i: nat)
    requires !inner.Pattern? && (separator.Some? ==> !separator.value.Pattern?)
    requires max != Some(0) && !(separator.Some? && min < 1) && inner != Lit([])
    requires Simple.Terminates(Simple.Promote(Plain(inner)), Simple.SepOf(PlainSep(separator)), max)
    ensures Terminating(inner, separator, max)
    ensures Times(inner, min, max, separator).Ok?
    ensures Simple.Times(Plain(inner), min, max, PlainSep(separator)).Ok?
    ensures Times(inner, min, max, separator).value(s, i)
            == Simple.Times(Plain(inner), min, max, PlainSep(separator)).value(s, i)
  {
    PromoteAgrees(inner);
    SepAgrees(separator);
    var m := Promote(inner).value;
    var sep := SepOf(separator).value;
    var m' := Simple.Promote(Plain(inner));
    var sep' := Simple.SepOf(PlainSep(separator));
    TimesPlansAgree(m, m', sep, sep', min, max, s, i);
    SameLaws(m, m');
    SameLaws(sep, sep');
    assert Terminating(inner, separator, max);
    assert Times(inner, min, max, separator).value(s, i) == Tree(TimesPlan(m, Then(sep, m), min, max, s), i, []);
    assert Simple.Times(Plain(inner), min, max, PlainSep(separator)).value(s, i)
           == Simple.TimesFrom(m', sep', min, max, s, i, []);
  }

  /** With a RegExp inner or separator, a `times` that builds enumerates
      what simple.js's `times` does over the promoted inner and separator,
      wherever simple.js accepts those. */
  lemma TimesAgreesPromoted(inner: Inner, min: nat, max: Option<nat>, separator: Option<Inner>, s: Text, i: nat)
    requires Promote(inner).Ok? && SepOf(separator).Ok?
    requires max != Some(0) && !(separator.Some? && min < 1)
    requires Simple.Terminates(Promote(inner).value, SepOf(separator).value, max)
    ensures Terminating(inner, separator, max)
    ensures Times(inner, min, max, separator).Ok?
    ensures Times(inner, min, max, separator).value(s, i)
            == Simple.Times(Simple.Fn(Promote(inner).value), min, max,
                            if separator.Some? then Some(Simple.Fn(SepOf(separator).value)) else None).value(s, i)
  {
    var m := Promote(inner).value;
    var sep := SepOf(separator).value;
    var sepIn := if separator.Some? then Some(Fn(sep)) else None;
    TimesAgreesWithSimple(Fn(m), min, max, sepIn, s, i);
    assert Times(inner, min, max, separator).value(s, i) == Times(Fn(m), min, max, sepIn).value(s, i);
  }

  /** `max = 0` matches the empty list in place whatever `min` is; simple.js
      reports it only when `min = 0`. */
  lemma TimesMaxZero(inner: Inner, min: nat, s: Text, i: nat)
    requires !inner.Pattern? && inner != Lit([])
    ensures Times(inner, min, Some(0), None).Ok?
    ensures Times(inner, min, Some(0), None).value(s, i) == [Record(i, List([]))]
    ensures Simple.Times(Plain(inner), min, Some(0), None).Ok?
    ensures Simple.Times(Plain(inner), min, Some(0), None).value(s, i)
            == if min == 0 then [Record(i, List([]))] else []
  {
  }

  /** A bounded `times` of the empty string builds here, since there is no
      `!inner` check; simple.js refuses it with 'huh'. */
  lemma TimesOfEmptyString(min: nat, max: nat, separator: Option<Inner>)
    requires separator.Some? ==> !separator.value.Pattern? && 1 <= min
    ensures Terminating(Lit([]), separator, Some(max))
    ensures Times(Lit([]), min, Some(max), separator).Ok?
    ensures Simple.Times(Simple.Lit([]), min, Some(max), PlainSep(separator)) == Err("huh")
  {
    if separator.Some? {
      PromoteAgrees(separator.value);
    }
  }

  /** A separator with no required copies is accepted here, bounded or not,
      and the walk starts with the empty list; simple.js refuses it. */
  lemma TimesWithSeparatorFromZero(inner: Inner, max: Option<nat>, separator: Inner, s: Text, i: nat)
    requires !inner.Pattern? && !separator.Pattern?
    requires Terminating(inner, Some(separator), max)
    ensures Times(inner, 0, max, Some(separator)).Ok?
    ensures |Times(inner, 0, max, Some(separator)).value(s, i)| > 0
    ensures Times(inner, 0, max, Some(separator)).value(s, i)[0] == Record(i, List([]))
    ensures Simple.Times(Plain(inner), 0, max, Some(Plain(separator))) == Err("Not well-defined for less than 1 copy")
  {
    PromoteAgrees(inner);
    PromoteAgrees(separator);
    TimesStartsEmpty(inner, max, Some(separator), s, i);
  }

  /** A separator with `star` is accepted here and refused by simple.js; the
      walk reports the empty list first. */
  lemma StarWithSeparator(inner: Inner, separator: Inner, s: Text, i: nat)
    requires !inner.Pattern? && !separator.Pattern?
    requires Terminating(inner, Some(separator), None)
    ensures Star(inner, Some(separator)).Ok?
    ensures Star(inner, Some(separator)).value(s, i)[0] == Record(i, List([]))
    ensures Simple.Times(Plain(inner), 0, None, Some(Plain(separator))) == Err("Not well-defined for less than 1 copy")
  {
    TimesWithSeparatorFromZero(inner, None, separator, s, i);
  }
}
