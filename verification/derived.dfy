/** The combinators src/main.js builds out of `seq`, `star` and `map`
    (`plus`, `wseq`, `wplus`), and how main.js's own `seq` and `star` relate
    to the recursive reference semantics of simple.js. */
module Derived {
  import opened Records
  import opened Search
  import Simple
  import StackSafe
  import opened Iterators

  /** The simple.js inners standing for the matchers `ms`. */
  function Fns(ms: seq<Matcher>): (xs: seq<Simple.Inner>)
    ensures |xs| == |ms| && forall k :: 0 <= k < |ms| ==> xs[k] == Simple.Fn(ms[k])
  {
    seq(|ms|, k requires 0 <= k < |ms| => Simple.Fn(ms[k]))
  }

  /** `([separator, inner]) => inner`; the values it is applied to are
      always lists of two. */
  const Second: Value -> Value := (v: Value) => if v.List? && |v.items| == 2 then v.items[1] else v

  /** `([first, rest]) => [first].concat(rest)`; the values it is applied to
      are always lists of two. */
  const Joined: Value -> Value :=
    (v: Value) => if v.List? && |v.items| == 2 then Prepended(v.items[0])(v.items[1]) else v

  /** `plus(inner)`: one `inner`, then `star(inner)`, joined into one list. */
  function Plus(inner: Matcher): Matcher
    requires Advancing(inner)
  {
    StackSafe.Map(Seq([inner, Star(inner)]), Joined)
  }

  /** `seq([separator, inner]).map(([separator, inner]) => inner)`. */
  function Behind(separator: Matcher, inner: Matcher): Matcher
  {
    StackSafe.Map(Seq([separator, inner]), Second)
  }

  /** `wseq(inners, separator)`: every element after the first is matched
      behind the separator, whose value is dropped. */
  function WSeq(inners: seq<Matcher>, separator: Matcher): (r: Result<Matcher>)
    ensures r.Err? <==> |inners| == 0
    ensures r.Err? ==> r.message == "Not well-defined for 0 inners"
  {
    if |inners| == 0 then Err("Not well-defined for 0 inners")
    else Ok(Seq(Wrapped(inners, separator)))
  }

  /** The elements of `wseq`: the first as it is, each later one behind the
      separator. */
  function Wrapped(inners: seq<Matcher>, separator: Matcher): (w: seq<Matcher>)
    ensures |w| == |inners|
    ensures |inners| > 0 ==> w[0] == inners[0]
    ensures forall k :: 0 < k < |inners| ==> w[k] == Behind(separator, inners[k])
  {
    seq(|inners|, k requires 0 <= k < |inners| => if k == 0 then inners[0] else Behind(separator, inners[k]))
  }

  /** `wplus(inner, separator)`: one `inner`, then any number of copies
      behind the separator, joined into one list. */
  function WPlus(inner: Matcher, separator: Matcher): Matcher
    requires Advancing(inner) && Monotone(separator)
  {
    BehindIsThen(separator, inner);
    ThenAdvancing(separator, inner);
    SameLaws(Behind(separator, inner), Then(separator, inner));
    StackSafe.Map(Seq([inner, Star(Behind(separator, inner))]), Joined)
  }

  // ---------------------------------------------------------------------
  // Sequences of two

  function PairedWith(first: Value): Value -> Value
  {
    (second: Value) => List([first, second])
  }

  /** For each record `r` of the first element, in order, each record of
      `b` from where `r` ends, paired with `r`'s value. */
  function Pairs(b: Matcher, s: Text, rs: seq<Record>): seq<Record>
  {
    if rs == [] then [] else MapRecords(b(s, rs[0].j), PairedWith(rs[0].v)) + Pairs(b, s, rs[1..])
  }

  lemma {:induction false} PairLast(a: Matcher, b: Matcher, s: Text, j: nat, first: Value, cs: seq<Record>)
    ensures Forest(StackSafe.WalkPlan([a, b], s), j, [first], cs) == MapRecords(cs, PairedWith(first))
    decreases |cs|
  {
    var p := StackSafe.WalkPlan([a, b], s);
    if cs != [] {
      var c := cs[0];
      assert [first] + [c.v] == [first, c.v];
      assert Tree(p, c.j, [first, c.v]) == [Record(c.j, List([first, c.v]))];
      PairLast(a, b, s, j, first, cs[1..]);
    }
  }

  lemma {:induction false} PairFirst(a: Matcher, b: Matcher, s: Text, i: nat, rs: seq<Record>)
    ensures Forest(StackSafe.WalkPlan([a, b], s), i, [], rs) == Pairs(b, s, rs)
    decreases |rs|
  {
    var p := StackSafe.WalkPlan([a, b], s);
    if rs != [] {
      var r := rs[0];
      assert [] + [r.v] == [r.v];
      assert p.kids(1, r.j) == b(s, r.j);
      PairLast(a, b, s, r.j, r.v, b(s, r.j));
      assert Tree(p, r.j, [r.v]) == Forest(p, r.j, [r.v], b(s, r.j));
      PairFirst(a, b, s, i, rs[1..]);
    }
  }

  /** `seq([a, b])` pairs each record of `a` with each record of `b` that
      follows it, `a` as the outer loop. */
  lemma SeqOfTwo(a: Matcher, b: Matcher, s: Text, i: nat)
    ensures Seq([a, b])(s, i) == Pairs(b, s, a(s, i))
  {
    var p := StackSafe.WalkPlan([a, b], s);
    assert p.kids(0, i) == a(s, i);
    PairFirst(a, b, s, i, a(s, i));
  }

  /** Dropping the first of each pair leaves the second element's records
      from every end of the first: the first element matched, then ignored. */
  lemma {:induction false} SecondOfPairs(b: Matcher, s: Text, rs: seq<Record>)
    ensures MapRecords(Pairs(b, s, rs), Second) == Bind(b, s, rs)
  {
    if rs != [] {
      var cs := b(s, rs[0].j);
      var paired := MapRecords(cs, PairedWith(rs[0].v));
      assert MapRecords(paired, Second) == cs by {
        forall k | 0 <= k < |cs| ensures MapRecords(paired, Second)[k] == cs[k] {
          assert paired[k] == Record(cs[k].j, List([rs[0].v, cs[k].v]));
        }
      }
      MapRecordsAppend(paired, Pairs(b, s, rs[1..]), Second);
      SecondOfPairs(b, s, rs[1..]);
    }
  }

  /** What `wseq` and `wplus` put behind the separator enumerates as the
      inner matched after the separator. */
  lemma BehindIsThen(separator: Matcher, inner: Matcher)
    ensures Same(Behind(separator, inner), Then(separator, inner))
  {
    forall s: Text, i: nat ensures Behind(separator, inner)(s, i) == Then(separator, inner)(s, i) {
      SeqOfTwo(separator, inner, s, i);
      SecondOfPairs(inner, s, separator(s, i));
    }
  }

  // ---------------------------------------------------------------------
  // Agreement with simple.js

  /** `EMPTY` ahead of a matcher changes nothing. */
  lemma Unled(d: nat, sep: Matcher, m: Matcher, s: Text, j: nat)
    requires d == 0 || sep == Simple.Empty
    ensures Then(Simple.Lead(d, sep), m)(s, j) == m(s, j)
  {
    forall s: Text, i: nat ensures Simple.Empty(s, i) == [Record(i, Str([]))] {
      Simple.EmptyMatches(s, i);
    }
    ThenNeutral(Simple.Empty, m);
    assert Simple.Lead(d, sep) == Simple.Empty;
  }

  /** main.js's `seq` enumerates as simple.js's `seq` without separator. */
  lemma SeqAgreesWithSimple(inners: seq<Matcher>, s: Text, i: nat)
    ensures Simple.Seq(Fns(inners), None).Ok?
    ensures Seq(inners)(s, i) == Simple.Seq(Fns(inners), None).value(s, i)
  {
    var elems := Simple.PromoteAll(Fns(inners));
    var p := StackSafe.WalkPlan(inners, s);
    var q := Simple.SeqPlan(elems, Simple.Empty, s);
    forall d: nat, k: nat ensures p.kids(d, k) == q.kids(d, k) {
      if d < |inners| {
        assert elems[d] == inners[d];
        Unled(d, Simple.Empty, inners[d], s, k);
      }
    }
    TreeCongruent(p, q, i, []);
    Simple.SeqFromIsTree(elems, Simple.Empty, s, i, []);
    assert Simple.Seq(Fns(inners), None).value(s, i) == Simple.SeqFrom(elems, Simple.Empty, s, i, []);
  }

  /** main.js's `star` enumerates as simple.js's `star`. */
  lemma StarAgreesWithSimple(inner: Matcher, s: Text, i: nat)
    requires Advancing(inner)
    ensures Simple.Star(Simple.Fn(inner)).Ok?
    ensures Star(inner)(s, i) == Simple.Star(Simple.Fn(inner)).value(s, i)
  {
    Simple.EmptyMonotone();
    var p := StarPlan(inner, s);
    var q := Simple.TimesPlan(inner, Simple.Empty, 0, None, s);
    Simple.TimesPlanFinite(inner, Simple.Empty, 0, None, s);
    forall d: nat, k: nat ensures p.kids(d, k) == q.kids(d, k) {
      Unled(d, Simple.Empty, inner, s, k);
    }
    TreeCongruent(p, q, i, []);
    Simple.TimesFromIsTree(inner, Simple.Empty, 0, None, s, i, []);
    assert Simple.Star(Simple.Fn(inner)).value(s, i) == Simple.TimesFrom(inner, Simple.Empty, 0, None, s, i, []);
  }

  /** main.js's `star` yields the empty list at `i` before anything else. */
  lemma StarStartsEmpty(inner: Matcher, s: Text, i: nat)
    requires Advancing(inner)
    ensures |Star(inner)(s, i)| > 0 && Star(inner)(s, i)[0] == Record(i, List([]))
  {
    StarAgreesWithSimple(inner, s, i);
    Simple.StarStartsEmpty(Simple.Fn(inner), s, i);
  }

  /** Joining each pair of a first copy and the list `star` made after it
      gives the subtrees of a walk that counts copies from one. */
  lemma {:induction false} JoinedPairs(x: Matcher, q: Plan, s: Text, j: nat, rs: seq<Record>)
    requires Advancing(x) && Finite(q)
    requires q.max.None? && q.min == 1 && q.len == |s|
    requires forall d: nat, k: nat :: 0 < d ==> q.kids(d, k) == x(s, k)
    requires forall k :: 0 <= k < |rs| ==> Fits(q, j, rs[k])
    ensures MapRecords(Pairs(Star(x), s, rs), Joined) == Forest(q, j, [], rs)
    decreases |rs|
  {
    if rs != [] {
      var r := rs[0];
      var p := StarPlan(x, s);
      var rest := Star(x)(s, r.j);
      var paired := MapRecords(rest, PairedWith(r.v));
      assert MapRecords(paired, Joined) == MapRecords(rest, Prepended(r.v)) by {
        forall k | 0 <= k < |rest| ensures MapRecords(paired, Joined)[k] == MapRecords(rest, Prepended(r.v))[k] {
          assert paired[k] == Record(rest[k].j, List([r.v, rest[k].v]));
        }
      }
      forall d: nat, k: nat ensures q.kids(d + 1, k) == p.kids(d, k) {
        assert p.kids(d, k) == x(s, k);
      }
      TreeShift(p, q, r.j, [], r.v);
      assert [r.v] + [] == [] + [r.v];
      assert Fits(q, j, r);
      JoinedPairs(x, q, s, j, rs[1..]);
      MapRecordsAppend(paired, Pairs(Star(x), s, rs[1..]), Joined);
    }
  }

  /** main.js's `plus` enumerates as simple.js's `plus` without separator:
      at least one copy, lists in depth-first order. */
  lemma PlusAgreesWithSimple(inner: Matcher, s: Text, i: nat)
    requires Advancing(inner)
    ensures Simple.Plus(Simple.Fn(inner), None).Ok?
    ensures Plus(inner)(s, i) == Simple.Plus(Simple.Fn(inner), None).value(s, i)
  {
    Simple.EmptyMonotone();
    var q := Simple.TimesPlan(inner, Simple.Empty, 1, None, s);
    Simple.TimesPlanFinite(inner, Simple.Empty, 1, None, s);
    forall d: nat, k: nat ensures q.kids(d, k) == inner(s, k) {
      Unled(d, Simple.Empty, inner, s, k);
    }
    JoinedPairs(inner, q, s, i, inner(s, i));
    SeqOfTwo(inner, Star(inner), s, i);
    Simple.TimesFromIsTree(inner, Simple.Empty, 1, None, s, i, []);
    assert Tree(q, i, []) == Forest(q, i, [], q.kids(0, i));
    assert Simple.Plus(Simple.Fn(inner), None).value(s, i) == Simple.TimesFrom(inner, Simple.Empty, 1, None, s, i, []);
  }

  /** main.js's `wplus` enumerates as simple.js's `plus` with the separator. */
  lemma WPlusAgreesWithSimple(inner: Matcher, separator: Matcher, s: Text, i: nat)
    requires Advancing(inner) && Monotone(separator)
    ensures Simple.Plus(Simple.Fn(inner), Some(Simple.Fn(separator))).Ok?
    ensures WPlus(inner, separator)(s, i) == Simple.Plus(Simple.Fn(inner), Some(Simple.Fn(separator))).value(s, i)
  {
    var x := Behind(separator, inner);
    BehindIsThen(separator, inner);
    ThenAdvancing(separator, inner);
    SameLaws(x, Then(separator, inner));
    var q := Simple.TimesPlan(inner, separator, 1, None, s);
    Simple.TimesPlanFinite(inner, separator, 1, None, s);
    forall d: nat, k: nat | 0 < d ensures q.kids(d, k) == x(s, k) {
      assert Simple.Lead(d, separator) == separator;
    }
    Unled(0, separator, inner, s, i);
    JoinedPairs(x, q, s, i, inner(s, i));
    SeqOfTwo(inner, Star(x), s, i);
    Simple.TimesFromIsTree(inner, separator, 1, None, s, i, []);
    assert Tree(q, i, []) == Forest(q, i, [], q.kids(0, i));
    assert Simple.Plus(Simple.Fn(inner), Some(Simple.Fn(separator))).value(s, i)
           == Simple.TimesFrom(inner, separator, 1, None, s, i, []);
  }

  /** main.js's `wseq` enumerates as simple.js's `seq` with the separator. */
  lemma WSeqAgreesWithSimple(inners: seq<Matcher>, separator: Matcher, s: Text, i: nat)
    requires |inners| > 0
    ensures WSeq(inners, separator).Ok? && Simple.Seq(Fns(inners), Some(Simple.Fn(separator))).Ok?
    ensures WSeq(inners, separator).value(s, i) == Simple.Seq(Fns(inners), Some(Simple.Fn(separator))).value(s, i)
  {
    var elems := Simple.PromoteAll(Fns(inners));
    var w := Wrapped(inners, separator);
    var p := StackSafe.WalkPlan(w, s);
    var q := Simple.SeqPlan(elems, separator, s);
    forall d: nat, k: nat ensures p.kids(d, k) == q.kids(d, k) {
      if d < |inners| {
        assert elems[d] == inners[d];
        assert p.kids(d, k) == w[d](s, k);
        if d == 0 {
          Unled(0, separator, inners[0], s, k);
        } else {
          BehindIsThen(separator, inners[d]);
          assert Simple.Lead(d, separator) == separator;
        }
      }
    }
    TreeCongruent(p, q, i, []);
    Simple.SeqFromIsTree(elems, separator, s, i, []);
    assert Simple.Seq(Fns(inners), Some(Simple.Fn(separator))).value(s, i)
           == Simple.SeqFrom(elems, separator, s, i, []);
  }

  // ---------------------------------------------------------------------
  // Consequences

  /** `plus` yields only non-empty lists. */
  lemma PlusNonEmpty(inner: Matcher, s: Text, i: nat, r: Record)
    requires Advancing(inner)
    requires r in Plus(inner)(s, i)
    ensures r.v.List? && |r.v.items| >= 1
  {
    Simple.EmptyMonotone();
    PlusAgreesWithSimple(inner, s, i);
    Simple.TimesCounts(Simple.Fn(inner), 1, None, None, s, i, r);
  }

  /** `wplus` yields only non-empty lists. */
  lemma WPlusNonEmpty(inner: Matcher, separator: Matcher, s: Text, i: nat, r: Record)
    requires Advancing(inner) && Monotone(separator)
    requires r in WPlus(inner, separator)(s, i)
    ensures r.v.List? && |r.v.items| >= 1
  {
    WPlusAgreesWithSimple(inner, separator, s, i);
    Simple.TimesCounts(Simple.Fn(inner), 1, None, Some(Simple.Fn(separator)), s, i, r);
  }

  /** Every list `wseq` yields holds one value of each element and nothing
      of the separator: item `k` is a value `inners[k]` matches somewhere. */
  lemma WSeqHoldsElementValues(inners: seq<Matcher>, separator: Matcher, s: Text, i: nat, r: Record, k: nat)
    requires |inners| > 0 && k < |inners|
    requires r in WSeq(inners, separator).value(s, i)
    ensures r.v.List? && |r.v.items| == |inners|
    ensures exists j: nat, c :: c in inners[k](s, j) && c.v == r.v.items[k]
  {
    WSeqAgreesWithSimple(inners, separator, s, i);
    Simple.SeqHoldsElementValues(Fns(inners), Some(Simple.Fn(separator)), s, i, r, k);
  }
}
