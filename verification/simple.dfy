/** The recursive reference semantics of src/simple.js: every matcher is a
    generator function of (string, i), and `seq` and `times` recurse through
    a local `recurse` over fresh lists of element values. */
module Simple {
  import opened Records
  import opened Search

  // ---------------------------------------------------------------------
  // Primitives

  const Nothing: Matcher := (s: Text, i: nat) => []

  /** One code unit. */
  const Chr: Matcher := (s: Text, i: nat) =>
    if i < |s| then [Record(i + 1, Str(Substr(s, i, 1)))] else []

  predicate IsHigh(c: CodeUnit) { 0xD800 <= c <= 0xDBFF }

  predicate IsLow(c: CodeUnit) { 0xDC00 <= c <= 0xDFFF }

  /** One Unicode character: a surrogate pair, or any other single code unit.
      As written, the second unit of a pair must lie below 0xDFFF. */
  const Unicode: Matcher := (s: Text, i: nat) =>
    if i < |s| then
      var first := s[i];
      if 0xD800 <= first <= 0xDBFF then
        if i + 1 < |s| then
          var second := s[i + 1];
          if 0xDC00 <= second < 0xDFFF then [Record(i + 1 + 1, Str([first, second]))] else []
        else []
      else [Record(i + 1, Str([first]))]
    else []

  /** The literal `needle`. */
  function Fixed(needle: Text): Matcher
  {
    (s: Text, i: nat) =>
      if Substr(s, i, |needle|) == needle then [Record(i + |needle|, Str(needle))] else []
  }

  const Empty: Matcher := Fixed([])

  /** What a combinator accepts where a matcher is expected: a string, or a
      generator function. */
  datatype Inner = Lit(text: Text) | Fn(m: Matcher)

  /** A string becomes `fixed` of it; anything else is used as it is. */
  function Promote(x: Inner): Matcher
  {
    match x
    case Lit(t) => Fixed(t)
    case Fn(m) => m
  }

  function PromoteAll(xs: seq<Inner>): (ms: seq<Matcher>)
    ensures |ms| == |xs|
    ensures forall k :: 0 <= k < |xs| ==> ms[k] == Promote(xs[k])
  {
    seq(|xs|, k requires 0 <= k < |xs| => Promote(xs[k]))
  }

  lemma FixedMatches(needle: Text, s: Text, i: nat)
    requires i <= |s|
    ensures Fixed(needle)(s, i)
            == if i + |needle| <= |s| && s[i..i + |needle|] == needle
               then [Record(i + |needle|, Str(needle))] else []
  {
    if i + |needle| <= |s| {
      SubstrIsSlice(s, i, |needle|);
    } else if i < |s| {
      assert |Substr(s, i, |needle|)| == |s| - i < |needle|;
    }
  }

  /** EMPTY matches at every offset, the end of the input and beyond included. */
  lemma EmptyMatches(s: Text, i: nat)
    ensures Empty(s, i) == [Record(i, Str([]))]
  {
  }

  lemma ChrMatches(s: Text, i: nat)
    ensures Chr(s, i) == if i < |s| then [Record(i + 1, Str([s[i]]))] else []
  {
    if i < |s| {
      assert Substr(s, i, 1) == s[i..i + 1] == [s[i]];
    }
  }

  lemma UnicodeMatches(s: Text, i: nat)
    ensures i >= |s| ==> Unicode(s, i) == []
    ensures i < |s| && !IsHigh(s[i]) ==> Unicode(s, i) == [Record(i + 1, Str([s[i]]))]
    ensures i + 1 < |s| && IsHigh(s[i]) && 0xDC00 <= s[i + 1] < 0xDFFF
            ==> Unicode(s, i) == [Record(i + 2, Str(s[i..i + 2]))]
    ensures i < |s| && IsHigh(s[i]) && !(i + 1 < |s| && 0xDC00 <= s[i + 1] < 0xDFFF)
            ==> Unicode(s, i) == []
  {
    if i + 1 < |s| {
      assert s[i..i + 2] == [s[i], s[i + 1]];
    }
  }

  /** The pair 0xDBFF 0xDFFF (U+10FFFF) is well formed, yet UNICODE as written
      does not match it: the strict comparison leaves out the last low surrogate. */
  lemma UnicodeRejectsLastLowSurrogate()
    ensures IsHigh(0xDBFF) && IsLow(0xDFFF)
    ensures Unicode([0xDBFF, 0xDFFF], 0) == []
  {
  }

  // ---------------------------------------------------------------------
  // Alternation

  /** Each matcher's records at the same offset, in list order. */
  function OrAll(ms: seq<Matcher>, s: Text, i: nat): seq<Record>
  {
    if ms == [] then [] else ms[0](s, i) + OrAll(ms[1..], s, i)
  }

  function Or(inners: seq<Inner>): Matcher
  {
    var ms := PromoteAll(inners);
    (s: Text, i: nat) => OrAll(ms, s, i)
  }

  lemma {:induction false} OrAllAppend(a: seq<Matcher>, b: seq<Matcher>, s: Text, i: nat)
    ensures OrAll(a + b, s, i) == OrAll(a, s, i) + OrAll(b, s, i)
  {
    if a == [] {
      assert a + b == b;
    } else {
      assert (a + b)[1..] == a[1..] + b;
      OrAllAppend(a[1..], b, s, i);
    }
  }

  /** `or([a, b])` is all of `a`'s records followed by all of `b`'s. */
  lemma OrPair(a: Inner, b: Inner, s: Text, i: nat)
    ensures Or([a, b])(s, i) == Promote(a)(s, i) + Promote(b)(s, i)
  {
    var ms := PromoteAll([a, b]);
    assert ms[0] == Promote(a) && ms[1..][0] == Promote(b);
    assert ms[1..][1..] == [];
    assert OrAll(ms[1..], s, i) == Promote(b)(s, i) + OrAll(ms[1..][1..], s, i);
    assert Or([a, b])(s, i) == OrAll(ms, s, i);
  }

  /** A record is produced by `or` exactly when some alternative produces it. */
  lemma {:induction false} OrAllMember(ms: seq<Matcher>, s: Text, i: nat, r: Record)
    ensures r in OrAll(ms, s, i) <==> exists k :: 0 <= k < |ms| && r in ms[k](s, i)
  {
    if ms != [] {
      OrAllMember(ms[1..], s, i, r);
      if r in OrAll(ms[1..], s, i) {
        var k :| 0 <= k < |ms[1..]| && r in ms[1..][k](s, i);
        assert ms[1..][k] == ms[k + 1];
      }
      if exists k :: 0 <= k < |ms| && r in ms[k](s, i) {
        var k :| 0 <= k < |ms| && r in ms[k](s, i);
        if k > 0 { assert ms[1..][k - 1] == ms[k]; }
      }
    }
  }

  /** Identical alternatives are not merged: `or(['a', 'a'])` on "a" gives two records. */
  lemma OrKeepsDuplicates()
    ensures Or([Lit([0x61]), Lit([0x61])])([0x61], 0)
            == [Record(1, Str([0x61])), Record(1, Str([0x61]))]
  {
    OrPair(Lit([0x61]), Lit([0x61]), [0x61], 0);
    FixedMatches([0x61], [0x61], 0);
  }

  // ---------------------------------------------------------------------
  // Sequence with separator

  /** What precedes element `d`: nothing before the first, the separator
      before every other. */
  function Lead(d: nat, sep: Matcher): Matcher
  {
    if d == 0 then Empty else sep
  }

  lemma LeadLaws(d: nat, sep: Matcher)
    ensures Monotone(sep) ==> Monotone(Lead(d, sep))
    ensures Sound(sep) ==> Sound(Lead(d, sep))
  {
    FixedSound([]);
  }

  /** `recurse(string, i, matches)`: with `|matches|` elements matched up to
      offset `i`, every way to match the remaining elements. */
  function SeqFrom(elems: seq<Matcher>, sep: Matcher, s: Text, i: nat, matches: seq<Value>): seq<Record>
    requires |matches| <= |elems|
    decreases |elems| - |matches|, 2, 0
  {
    if |matches| < |elems| then
      SeqSeps(elems, sep, s, matches, Lead(|matches|, sep)(s, i))
    else [Record(i, List(matches))]
  }

  /** The loop over the separator's records (the separator's value ignored). */
  function SeqSeps(elems: seq<Matcher>, sep: Matcher, s: Text, matches: seq<Value>, seps: seq<Record>): seq<Record>
    requires |matches| < |elems|
    decreases |elems| - |matches|, 1, |seps|
  {
    if seps == [] then []
    else SeqElems(elems, sep, s, matches, elems[|matches|](s, seps[0].j))
         + SeqSeps(elems, sep, s, matches, seps[1..])
  }

  /** The loop over the next element's records. */
  function SeqElems(elems: seq<Matcher>, sep: Matcher, s: Text, matches: seq<Value>, rs: seq<Record>): seq<Record>
    requires |matches| < |elems|
    decreases |elems| - |matches|, 0, |rs|
  {
    if rs == [] then []
    else SeqFrom(elems, sep, s, rs[0].j, matches + [rs[0].v])
         + SeqElems(elems, sep, s, matches, rs[1..])
  }

  /** `seq(inners, separator)`: a separator with no elements is a construction error. */
  function Seq(inners: seq<Inner>, separator: Option<Inner>): (r: Result<Matcher>)
    ensures r.Err? <==> separator.Some? && |inners| == 0
    ensures r.Err? ==> r.message == "Not well-defined less than 1 inner"
  {
    if separator.Some? && |inners| < 1 then Err("Not well-defined less than 1 inner")
    else
      var sep := SepOf(separator);
      var elems := PromoteAll(inners);
      Ok((s: Text, i: nat) => SeqFrom(elems, sep, s, i, []))
  }

  /** The walk `seq` performs: element `d` is preceded by the separator
      unless it is the first, and only complete lists are reported. */
  function SeqPlan(elems: seq<Matcher>, sep: Matcher, s: Text): (p: Plan)
    ensures Finite(p)
  {
    Plan((d: nat, j: nat) =>
           if d < |elems| then Then(Lead(d, sep), elems[d])(s, j) else [],
         |elems|, Some(|elems|), |s|)
  }

  lemma {:induction false} SeqFromIsTree(elems: seq<Matcher>, sep: Matcher, s: Text, i: nat, vs: seq<Value>)
    requires |vs| <= |elems|
    ensures SeqFrom(elems, sep, s, i, vs) == Tree(SeqPlan(elems, sep, s), i, vs)
    decreases |elems| - |vs|, 2, 0
  {
    var p := SeqPlan(elems, sep, s);
    if |vs| < |elems| {
      var first := Lead(|vs|, sep);
      SeqSepsIsForest(elems, sep, s, i, vs, first(s, i));
      assert p.kids(|vs|, i) == Then(first, elems[|vs|])(s, i) == Bind(elems[|vs|], s, first(s, i));
    }
  }

  lemma {:induction false} SeqSepsIsForest(elems: seq<Matcher>, sep: Matcher, s: Text, i: nat, vs: seq<Value>, seps: seq<Record>)
    requires |vs| < |elems|
    ensures SeqSeps(elems, sep, s, vs, seps) == Forest(SeqPlan(elems, sep, s), i, vs, Bind(elems[|vs|], s, seps))
    decreases |elems| - |vs|, 1, |seps|
  {
    var p := SeqPlan(elems, sep, s);
    if seps != [] {
      var head := elems[|vs|](s, seps[0].j);
      SeqElemsIsForest(elems, sep, s, i, vs, head);
      SeqSepsIsForest(elems, sep, s, i, vs, seps[1..]);
      ForestAppend(p, i, vs, head, Bind(elems[|vs|], s, seps[1..]));
    }
  }

  lemma {:induction false} SeqElemsIsForest(elems: seq<Matcher>, sep: Matcher, s: Text, i: nat, vs: seq<Value>, rs: seq<Record>)
    requires |vs| < |elems|
    ensures SeqElems(elems, sep, s, vs, rs) == Forest(SeqPlan(elems, sep, s), i, vs, rs)
    decreases |elems| - |vs|, 0, |rs|
  {
    if rs != [] {
      SeqFromIsTree(elems, sep, s, rs[0].j, vs + [rs[0].v]);
      SeqElemsIsForest(elems, sep, s, i, vs, rs[1..]);
    }
  }

  /** Every record of `seq` is a list with one value per element. */
  lemma SeqShape(inners: seq<Inner>, separator: Option<Inner>, s: Text, i: nat, r: Record)
    requires Seq(inners, separator).Ok?
    requires r in Seq(inners, separator).value(s, i)
    ensures r.v.List? && |r.v.items| == |inners|
  {
    var sep := SepOf(separator);
    var elems := PromoteAll(inners);
    SeqFromIsTree(elems, sep, s, i, []);
    TreeShape(SeqPlan(elems, sep, s), i, [], r);
  }

  /** The values in a `seq` record are element values: the `k`th is what
      element `k` matched from some offset, never a separator's value. */
  lemma SeqHoldsElementValues(inners: seq<Inner>, separator: Option<Inner>, s: Text, i: nat, r: Record, k: nat)
    requires Seq(inners, separator).Ok?
    requires r in Seq(inners, separator).value(s, i)
    requires k < |inners|
    ensures r.v.List? && |r.v.items| == |inners|
    ensures exists j: nat, c :: c in Promote(inners[k])(s, j) && c.v == r.v.items[k]
  {
    var sep := SepOf(separator);
    var elems := PromoteAll(inners);
    var p := SeqPlan(elems, sep, s);
    SeqShape(inners, separator, s, i, r);
    SeqFromIsTree(elems, sep, s, i, []);
    TreeValue(p, i, [], r, k);
    var j', c :| c in p.kids(k, j') && c.v == r.v.items[k];
    var first := Lead(k, sep);
    var n :| 0 <= n < |p.kids(k, j')| && p.kids(k, j')[n] == c;
    assert p.kids(k, j') == Then(first, elems[k])(s, j') == Bind(elems[k], s, first(s, j'));
    BindAt(elems[k], s, first(s, j'), n);
  }

  /** With no elements and no separator, `seq` matches once, empty, in place. */
  lemma SeqOfNothing(s: Text, i: nat)
    ensures Seq([], None).Ok? && Seq([], None).value(s, i) == [Record(i, List([]))]
  {
    var elems := PromoteAll([]);
    assert elems == [];
    assert Seq([], None).value(s, i) == SeqFrom(elems, Empty, s, i, []);
  }

  /** The first element is matched right at the start offset: nothing, not
      even the separator, comes before it. */
  lemma SeqStartsWithFirstElement(inners: seq<Inner>, separator: Option<Inner>, s: Text, i: nat)
    requires Seq(inners, separator).Ok? && |inners| > 0
    ensures Seq(inners, separator).value(s, i)
            == SeqElems(PromoteAll(inners), SepOf(separator), s, [], Promote(inners[0])(s, i))
  {
    var sep := SepOf(separator);
    var elems := PromoteAll(inners);
    var ms := elems[0](s, i);
    assert elems[0] == Promote(inners[0]);
    assert Seq(inners, separator).value(s, i) == SeqFrom(elems, sep, s, i, [])
           == SeqSeps(elems, sep, s, [], Lead(0, sep)(s, i));
    assert Empty(s, i) == [Record(i, Str([]))];
    assert Empty(s, i)[1..] == [];
    assert SeqSeps(elems, sep, s, [], Empty(s, i))
           == SeqElems(elems, sep, s, [], ms) + SeqSeps(elems, sep, s, [], []);
  }

  // ---------------------------------------------------------------------
  // Bounded repetition with separator

  predicate Less(n: nat, max: Option<nat>)
  {
    max.None? || n < max.value
  }

  function Bound(max: Option<nat>, n: nat): nat
  {
    if max.Some? && n <= max.value then max.value - n else 0
  }

  function GapTo(len: nat, j: nat): nat
  {
    if j <= len then len - j else 0
  }

  /** What unbounded repetition needs in order to end: each copy consumes
      input and the separator never moves backwards. */
  ghost predicate Terminates(inner: Matcher, sep: Matcher, max: Option<nat>)
  {
    max.None? ==> Advancing(inner) && Monotone(sep)
  }

  lemma EmptyMonotone()
    ensures Monotone(Empty)
  {
  }

  /** `recurse(string, i, matches)` of `times`: report the current list when it
      is long enough, then extend it by one more copy while below `max`. */
  function TimesFrom(inner: Matcher, sep: Matcher, min: nat, max: Option<nat>, s: Text, i: nat, matches: seq<Value>): seq<Record>
    requires Terminates(inner, sep, max)
    decreases Bound(max, |matches|), GapTo(|s|, i), 2, 0
  {
    (if min <= |matches| then [Record(i, List(matches))] else [])
    + (if Less(|matches|, max)
       then
         LeadLaws(|matches|, sep);
         TimesSeps(inner, sep, min, max, s, i, matches, Lead(|matches|, sep)(s, i))
       else [])
  }

  function TimesSeps(inner: Matcher, sep: Matcher, min: nat, max: Option<nat>, s: Text, i: nat, matches: seq<Value>, seps: seq<Record>): seq<Record>
    requires Terminates(inner, sep, max) && Less(|matches|, max)
    requires max.None? ==> forall k :: 0 <= k < |seps| ==> i <= seps[k].j
    decreases Bound(max, |matches|), GapTo(|s|, i), 1, |seps|
  {
    if seps == [] then []
    else TimesElems(inner, sep, min, max, s, i, matches, inner(s, seps[0].j))
         + TimesSeps(inner, sep, min, max, s, i, matches, seps[1..])
  }

  function TimesElems(inner: Matcher, sep: Matcher, min: nat, max: Option<nat>, s: Text, i: nat, matches: seq<Value>, rs: seq<Record>): seq<Record>
    requires Terminates(inner, sep, max) && Less(|matches|, max)
    requires max.None? ==> forall k :: 0 <= k < |rs| ==> i < rs[k].j <= |s|
    decreases Bound(max, |matches|), GapTo(|s|, i), 0, |rs|
  {
    if rs == [] then []
    else TimesFrom(inner, sep, min, max, s, rs[0].j, matches + [rs[0].v])
         + TimesElems(inner, sep, min, max, s, i, matches, rs[1..])
  }

  function SepOf(separator: Option<Inner>): Matcher
  {
    if separator.None? then Empty else Promote(separator.value)
  }

  /** The arguments `times` either rejects at construction or can enumerate
      to the end. */
  ghost predicate Accepted(inner: Inner, min: nat, max: Option<nat>, separator: Option<Inner>)
  {
    || (separator.Some? && min < 1)
    || (inner.Lit? && inner.text == [])
    || Terminates(Promote(inner), SepOf(separator), max)
  }

  /** `times(inner, min, max, separator)`, `max` None standing for Infinity.
      A separator with `min < 1` is a construction error, and so is a falsy
      `inner`, which among the accepted values is only the empty string. */
  function Times(inner: Inner, min: nat, max: Option<nat>, separator: Option<Inner>): (r: Result<Matcher>)
    requires Accepted(inner, min, max, separator)
    ensures r.Err? <==> (separator.Some? && min < 1) || (inner.Lit? && inner.text == [])
    ensures separator.Some? && min < 1 ==> r == Err("Not well-defined for less than 1 copy")
    ensures !(separator.Some? && min < 1) && inner.Lit? && inner.text == [] ==> r == Err("huh")
  {
    if separator.Some? && min < 1 then Err("Not well-defined for less than 1 copy")
    else if inner.Lit? && inner.text == [] then Err("huh")
    else
      var m := Promote(inner);
      var sep := SepOf(separator);
      Ok((s: Text, i: nat) => TimesFrom(m, sep, min, max, s, i, []))
  }

  function Star(inner: Inner): Result<Matcher>
    requires inner == Lit([]) || Advancing(Promote(inner))
  {
    EmptyMonotone();
    Times(inner, 0, None, None)
  }

  function Plus(inner: Inner, separator: Option<Inner>): Result<Matcher>
    requires inner == Lit([]) || (Advancing(Promote(inner)) && Monotone(SepOf(separator)))
  {
    Times(inner, 1, None, separator)
  }

  /** The empty string is falsy, so repeating it is rejected at construction,
      however unbounded the repetition. */
  lemma EmptyStringRepetition(min: nat, max: Option<nat>, separator: Option<Inner>)
    requires separator.Some? ==> 1 <= min
    ensures Times(Lit([]), min, max, separator) == Err("huh")
    ensures Star(Lit([])) == Err("huh")
    ensures Plus(Lit([]), separator) == Err("huh")
  {
  }

  /** A separator with fewer than one copy is rejected before anything is
      asked of the inner, whether or not it could be repeated. */
  lemma SeparatorNeedsOneCopy(inner: Inner, max: Option<nat>, separator: Inner)
    ensures Times(inner, 0, max, Some(separator)) == Err("Not well-defined for less than 1 copy")
  {
  }

  /** The walk `times` performs: copy `d` is preceded by the separator unless
      it is the first; lists from `min` copies on are reported. */
  function TimesPlan(inner: Matcher, sep: Matcher, min: nat, max: Option<nat>, s: Text): Plan
  {
    Plan((d: nat, j: nat) => Then(Lead(d, sep), inner)(s, j), min, max, |s|)
  }

  lemma TimesPlanFinite(inner: Matcher, sep: Matcher, min: nat, max: Option<nat>, s: Text)
    requires Terminates(inner, sep, max)
    ensures Finite(TimesPlan(inner, sep, min, max, s))
  {
    var p := TimesPlan(inner, sep, min, max, s);
    if max.None? {
      forall d: nat, j: nat, k | 0 <= k < |p.kids(d, j)| ensures Fits(p, j, p.kids(d, j)[k]) {
        LeadLaws(d, sep);
        ThenAdvancing(Lead(d, sep), inner);
        assert p.kids(d, j) == Then(Lead(d, sep), inner)(s, j);
      }
    }
  }

  lemma {:induction false} TimesFromIsTree(inner: Matcher, sep: Matcher, min: nat, max: Option<nat>, s: Text, i: nat, vs: seq<Value>)
    requires Terminates(inner, sep, max)
    ensures Finite(TimesPlan(inner, sep, min, max, s))
    ensures TimesFrom(inner, sep, min, max, s, i, vs) == Tree(TimesPlan(inner, sep, min, max, s), i, vs)
    decreases Bound(max, |vs|), GapTo(|s|, i), 2, 0
  {
    TimesPlanFinite(inner, sep, min, max, s);
    var p := TimesPlan(inner, sep, min, max, s);
    if Less(|vs|, max) {
      LeadLaws(|vs|, sep);
      var first := Lead(|vs|, sep);
      TimesSepsIsForest(inner, sep, min, max, s, i, vs, first(s, i));
      assert p.kids(|vs|, i) == Then(first, inner)(s, i) == Bind(inner, s, first(s, i));
    }
  }

  lemma {:induction false} TimesSepsIsForest(inner: Matcher, sep: Matcher, min: nat, max: Option<nat>, s: Text, i: nat, vs: seq<Value>, seps: seq<Record>)
    requires Terminates(inner, sep, max) && Less(|vs|, max)
    requires max.None? ==> forall k :: 0 <= k < |seps| ==> i <= seps[k].j
    ensures Finite(TimesPlan(inner, sep, min, max, s))
    ensures max.None? ==> forall k :: 0 <= k < |Bind(inner, s, seps)| ==> i < Bind(inner, s, seps)[k].j <= |s|
    ensures TimesSeps(inner, sep, min, max, s, i, vs, seps)
            == Forest(TimesPlan(inner, sep, min, max, s), i, vs, Bind(inner, s, seps))
    decreases Bound(max, |vs|), GapTo(|s|, i), 1, |seps|
  {
    TimesPlanFinite(inner, sep, min, max, s);
    var p := TimesPlan(inner, sep, min, max, s);
    if seps != [] {
      var head := inner(s, seps[0].j);
      TimesElemsIsForest(inner, sep, min, max, s, i, vs, head);
      TimesSepsIsForest(inner, sep, min, max, s, i, vs, seps[1..]);
      ForestAppend(p, i, vs, head, Bind(inner, s, seps[1..]));
    }
  }

  lemma {:induction false} TimesElemsIsForest(inner: Matcher, sep: Matcher, min: nat, max: Option<nat>, s: Text, i: nat, vs: seq<Value>, rs: seq<Record>)
    requires Terminates(inner, sep, max) && Less(|vs|, max)
    requires max.None? ==> forall k :: 0 <= k < |rs| ==> i < rs[k].j <= |s|
    ensures Finite(TimesPlan(inner, sep, min, max, s))
    ensures TimesElems(inner, sep, min, max, s, i, vs, rs)
            == Forest(TimesPlan(inner, sep, min, max, s), i, vs, rs)
    decreases Bound(max, |vs|), GapTo(|s|, i), 0, |rs|
  {
    TimesPlanFinite(inner, sep, min, max, s);
    if rs != [] {
      TimesFromIsTree(inner, sep, min, max, s, rs[0].j, vs + [rs[0].v]);
      TimesElemsIsForest(inner, sep, min, max, s, i, vs, rs[1..]);
    }
  }

  /** Every record of `times` is a list of `min` to `max` copies. */
  lemma TimesCounts(inner: Inner, min: nat, max: Option<nat>, separator: Option<Inner>, s: Text, i: nat, r: Record)
    requires Terminates(Promote(inner), SepOf(separator), max)
    requires Times(inner, min, max, separator).Ok?
    requires r in Times(inner, min, max, separator).value(s, i)
    ensures r.v.List? && min <= |r.v.items|
    ensures max.Some? ==> |r.v.items| <= max.value
  {
    var m := Promote(inner);
    var sep := SepOf(separator);
    TimesFromIsTree(m, sep, min, max, s, i, []);
    TreeShape(TimesPlan(m, sep, min, max, s), i, [], r);
  }

  /** With `min = 0` the first record is the empty list, in place. */
  lemma TimesStartsEmpty(inner: Inner, max: Option<nat>, separator: Option<Inner>, s: Text, i: nat)
    requires Terminates(Promote(inner), SepOf(separator), max)
    requires Times(inner, 0, max, separator).Ok?
    ensures |Times(inner, 0, max, separator).value(s, i)| > 0
    ensures Times(inner, 0, max, separator).value(s, i)[0] == Record(i, List([]))
  {
  }

  /** `star` always reports the empty list first. */
  lemma StarStartsEmpty(inner: Inner, s: Text, i: nat)
    requires Advancing(Promote(inner))
    requires Star(inner).Ok?
    ensures |Star(inner).value(s, i)| > 0 && Star(inner).value(s, i)[0] == Record(i, List([]))
  {
    EmptyMonotone();
    TimesStartsEmpty(inner, None, None, s, i);
  }

  // ---------------------------------------------------------------------
  // Optional, transforms

  /** `maybe(inner)`: the empty match first, then every match of `inner`. */
  function Maybe(inner: Inner): Matcher
  {
    var m := Promote(inner);
    (s: Text, i: nat) => Empty(s, i) + m(s, i)
  }

  lemma MaybeMatches(inner: Inner, s: Text, i: nat)
    ensures Maybe(inner)(s, i) == [Record(i, Str([]))] + Promote(inner)(s, i)
  {
  }

  function Map(inner: Inner, f: Value -> Value): Matcher
  {
    var m := Promote(inner);
    (s: Text, i: nat) => MapRecords(m(s, i), f)
  }

  function Filter(inner: Inner, keep: Value -> bool): Matcher
  {
    var m := Promote(inner);
    (s: Text, i: nat) => FilterRecords(m(s, i), keep)
  }

  /** `map` keeps every record's end offset and replaces its value by `f` of it. */
  lemma MapKeepsOffsets(inner: Inner, f: Value -> Value, s: Text, i: nat)
    ensures |Map(inner, f)(s, i)| == |Promote(inner)(s, i)|
    ensures forall k :: 0 <= k < |Promote(inner)(s, i)| ==>
              Map(inner, f)(s, i)[k] == Record(Promote(inner)(s, i)[k].j, f(Promote(inner)(s, i)[k].v))
  {
  }

  /** `filter` keeps exactly the records whose value passes, in their order. */
  lemma FilterKeepsPassing(inner: Inner, keep: Value -> bool, s: Text, i: nat, r: Record)
    ensures r in Filter(inner, keep)(s, i) <==> r in Promote(inner)(s, i) && keep(r.v)
    ensures Subsequence(Filter(inner, keep)(s, i), Promote(inner)(s, i))
  {
    FilterRecordsMember(Promote(inner)(s, i), keep, r);
    FilterRecordsSubsequence(Promote(inner)(s, i), keep);
  }

  // ---------------------------------------------------------------------
  // Sound matchers: from an offset inside the input every record ends
  // between that offset and the end of the input.

  lemma FixedSound(needle: Text)
    ensures Sound(Fixed(needle))
  {
    forall s: Text, i: nat | i <= |s| && |Fixed(needle)(s, i)| > 0
      ensures i + |needle| <= |s|
    {
      FixedMatches(needle, s, i);
    }
  }

  lemma FixedAdvancing(needle: Text)
    requires |needle| > 0
    ensures Advancing(Fixed(needle))
  {
    forall s: Text, i: nat | |Fixed(needle)(s, i)| > 0
      ensures i + |needle| <= |s|
    {
      if i <= |s| {
        FixedMatches(needle, s, i);
      }
    }
  }

  lemma PrimitivesSound()
    ensures Sound(Nothing) && Sound(Chr) && Sound(Unicode) && Sound(Empty)
    ensures Advancing(Chr) && Advancing(Unicode)
  {
    FixedSound([]);
  }

  lemma {:induction false} OrAllSound(ms: seq<Matcher>, s: Text, i: nat, k: nat)
    requires forall n :: 0 <= n < |ms| ==> Sound(ms[n])
    requires k < |OrAll(ms, s, i)|
    ensures i <= OrAll(ms, s, i)[k].j && (i <= |s| ==> OrAll(ms, s, i)[k].j <= |s|)
  {
    var head := ms[0](s, i);
    if k < |head| {
      assert OrAll(ms, s, i)[k] == head[k];
    } else {
      assert OrAll(ms, s, i)[k] == OrAll(ms[1..], s, i)[k - |head|];
      OrAllSound(ms[1..], s, i, k - |head|);
    }
  }

  lemma OrSound(inners: seq<Inner>)
    requires forall n :: 0 <= n < |inners| ==> Sound(Promote(inners[n]))
    ensures Sound(Or(inners))
  {
    forall s: Text, i: nat, k | 0 <= k < |Or(inners)(s, i)|
      ensures i <= Or(inners)(s, i)[k].j && (i <= |s| ==> Or(inners)(s, i)[k].j <= |s|)
    {
      OrAllSound(PromoteAll(inners), s, i, k);
    }
  }

  lemma TimesSound(inner: Inner, min: nat, max: Option<nat>, separator: Option<Inner>)
    requires Sound(Promote(inner)) && Sound(SepOf(separator))
    requires Terminates(Promote(inner), SepOf(separator), max)
    requires Times(inner, min, max, separator).Ok?
    ensures Sound(Times(inner, min, max, separator).value)
  {
    var m := Promote(inner);
    var sep := SepOf(separator);
    var t := Times(inner, min, max, separator).value;
    forall s: Text, i: nat, k | 0 <= k < |t(s, i)|
      ensures i <= t(s, i)[k].j && (i <= |s| ==> t(s, i)[k].j <= |s|)
    {
      var p := TimesPlan(m, sep, min, max, s);
      TimesFromIsTree(m, sep, min, max, s, i, []);
      forall d: nat, j: nat, c: Record | c in p.kids(d, j)
        ensures j <= c.j && (j <= p.len ==> c.j <= p.len)
      {
        var n :| 0 <= n < |p.kids(d, j)| && p.kids(d, j)[n] == c;
        LeadLaws(d, sep);
        ThenSound(Lead(d, sep), m);
        assert p.kids(d, j) == Then(Lead(d, sep), m)(s, j);
      }
      TreeBounds(p, i, [], t(s, i)[k]);
    }
  }

  lemma SeqSound(inners: seq<Inner>, separator: Option<Inner>)
    requires forall n :: 0 <= n < |inners| ==> Sound(Promote(inners[n]))
    requires Sound(SepOf(separator))
    requires Seq(inners, separator).Ok?
    ensures Sound(Seq(inners, separator).value)
  {
    var elems := PromoteAll(inners);
    var sep := SepOf(separator);
    var t := Seq(inners, separator).value;
    forall s: Text, i: nat, k | 0 <= k < |t(s, i)|
      ensures i <= t(s, i)[k].j && (i <= |s| ==> t(s, i)[k].j <= |s|)
    {
      var p := SeqPlan(elems, sep, s);
      SeqFromIsTree(elems, sep, s, i, []);
      forall d: nat, j: nat, c: Record | c in p.kids(d, j)
        ensures j <= c.j && (j <= p.len ==> c.j <= p.len)
      {
        var n :| 0 <= n < |p.kids(d, j)| && p.kids(d, j)[n] == c;
        LeadLaws(d, sep);
        ThenSound(Lead(d, sep), elems[d]);
        assert p.kids(d, j) == Then(Lead(d, sep), elems[d])(s, j);
      }
      TreeBounds(p, i, [], t(s, i)[k]);
    }
  }

  // ---------------------------------------------------------------------
  // Late-bound rule references

  /** `ref(name)`: at call time, whatever the closed rule set has for `name`. */
  function RefTo(closed: map<string, Matcher>, name: string): Matcher
  {
    (s: Text, i: nat) => if name in closed then closed[name](s, i) else []
  }

  function PromoteRules(rules: map<string, Inner>): (closed: map<string, Matcher>)
    ensures closed.Keys == rules.Keys
    ensures forall name :: name in rules ==> closed[name] == Promote(rules[name])
  {
    map name | name in rules :: Promote(rules[name])
  }

  /** `resolve(open)` unfolded `fuel` times: the rules `open` builds when each
      `ref(name)` stands for the rule set unfolded one time fewer (and for
      NOTHING at the bottom). */
  function Closed(open: (string -> Matcher) -> map<string, Inner>, fuel: nat): map<string, Matcher>
    decreases fuel
  {
    if fuel == 0 then PromoteRules(open((name: string) => Nothing))
    else
      var below := Closed(open, fuel - 1);
      PromoteRules(open((name: string) => RefTo(below, name)))
  }

  /** A rule defined as `ref(a)` matches exactly as rule `a` does. */
  lemma RefDelegates(open: (string -> Matcher) -> map<string, Inner>, a: string, b: string, fuel: nat, s: Text, i: nat)
    requires forall ref: string -> Matcher :: a in open(ref) && b in open(ref) && open(ref)[b] == Fn(ref(a))
    ensures Closed(open, fuel + 1)[b](s, i) == Closed(open, fuel)[a](s, i)
  {
    var below := Closed(open, fuel);
    var ref := (name: string) => RefTo(below, name);
    assert open(ref)[b] == Fn(ref(a));
    assert a in below by {
      if fuel == 0 {
        assert a in open((name: string) => Nothing);
      } else {
        var ref' := (name: string) => RefTo(Closed(open, fuel - 1), name);
        assert a in open(ref');
      }
    }
  }

  /** A `map` around the referenced rule is seen through the reference. */
  lemma MapSeenThroughRef(open: (string -> Matcher) -> map<string, Inner>, a: string, b: string,
                          inner: Inner, f: Value -> Value, fuel: nat, s: Text, i: nat)
    requires forall ref: string -> Matcher :: a in open(ref) && b in open(ref) && open(ref)[b] == Fn(ref(a))
    requires forall ref: string -> Matcher :: open(ref)[a] == Fn(Map(inner, f))
    ensures Closed(open, fuel + 1)[b](s, i) == MapRecords(Promote(inner)(s, i), f)
  {
    RefDelegates(open, a, b, fuel, s, i);
    if fuel == 0 {
      assert open((name: string) => Nothing)[a] == Fn(Map(inner, f));
    } else {
      var ref' := (name: string) => RefTo(Closed(open, fuel - 1), name);
      assert open(ref')[a] == Fn(Map(inner, f));
    }
  }

  /** A `map` around the reference itself transforms the referenced rule's records. */
  lemma MapAroundRef(open: (string -> Matcher) -> map<string, Inner>, a: string, b: string,
                     f: Value -> Value, fuel: nat, s: Text, i: nat)
    requires forall ref: string -> Matcher :: a in open(ref) && b in open(ref) && open(ref)[b] == Fn(Map(Fn(ref(a)), f))
    ensures Closed(open, fuel + 1)[b](s, i) == MapRecords(Closed(open, fuel)[a](s, i), f)
  {
    var below := Closed(open, fuel);
    var ref := (name: string) => RefTo(below, name);
    assert open(ref)[b] == Fn(Map(Fn(ref(a)), f));
    assert a in below by {
      if fuel == 0 {
        assert a in open((name: string) => Nothing);
      } else {
        var ref' := (name: string) => RefTo(Closed(open, fuel - 1), name);
        assert a in open(ref');
      }
    }
  }
}
