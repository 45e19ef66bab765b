/** The shared vocabulary of the matching engine: texts, match records,
    matchers, and the laws a well-behaved matcher obeys. */
module Records {

  /** A UTF-16 code unit. JavaScript strings are sequences of these, so a
      lone surrogate is an ordinary element of a text. */
  type CodeUnit = x: int | 0 <= x < 0x1_0000

  type Text = seq<CodeUnit>

  /** The payload of a match: a slice of the input for the primitives, a list
      of element values for sequence and repetition, or whatever `map` made. */
  datatype Value = Str(text: Text) | List(items: seq<Value>)

  /** One way to match: the offset `j` where the match ends, and its value. */
  datatype Record = Record(j: nat, v: Value)

  /** A matcher takes the input and a start offset and lists every way to
      match a prefix of the input from that offset, in enumeration order. */
  type Matcher = (Text, nat) -> seq<Record>

  datatype Option<T> = None | Some(value: T)

  /** A construction-time outcome: a value, or the message of the thrown Error. */
  datatype Result<T> = Ok(value: T) | Err(message: string)

  function Min(a: nat, b: nat): nat { if a <= b then a else b }

  /** `String.prototype.substr(start, length)` for non-negative arguments:
      the part of `s` from `start` of at most `length` units, empty past the end. */
  function Substr(s: Text, start: nat, length: nat): (r: Text)
    ensures |r| <= length
  {
    if start >= |s| then [] else s[start..Min(start + length, |s|)]
  }

  lemma SubstrIsSlice(s: Text, start: nat, length: nat)
    requires start + length <= |s|
    ensures Substr(s, start, length) == s[start..start + length]
  {
    if start == |s| { assert length == 0; }
  }

  /** `String.prototype.substring(start)`: everything from `start` on. */
  function SubstringFrom(s: Text, start: nat): Text
  {
    if start >= |s| then [] else s[start..]
  }

  /** For each record of `rs`, in order, every record of `m` from that
      record's end offset: the nested `for...of` loop over a first matcher's
      records and a second matcher's records. */
  function Bind(m: Matcher, s: Text, rs: seq<Record>): seq<Record>
  {
    if rs == [] then [] else m(s, rs[0].j) + Bind(m, s, rs[1..])
  }

  lemma {:induction false} BindAppend(m: Matcher, s: Text, a: seq<Record>, b: seq<Record>)
    ensures Bind(m, s, a + b) == Bind(m, s, a) + Bind(m, s, b)
  {
    if a == [] {
      assert a + b == b;
    } else {
      assert (a + b)[1..] == a[1..] + b;
      BindAppend(m, s, a[1..], b);
    }
  }

  /** `inner` preceded by `sep`, the separator's value dropped. */
  function Then(sep: Matcher, inner: Matcher): Matcher
  {
    (s: Text, i: nat) => Bind(inner, s, sep(s, i))
  }

  /** The values of the records that end exactly at `n`, in order: the
      full-length parses when `n` is the length of the input. */
  function FullValues(rs: seq<Record>, n: nat): (vs: seq<Value>)
    ensures |vs| <= |rs|
  {
    if rs == [] then []
    else (if rs[0].j == n then [rs[0].v] else []) + FullValues(rs[1..], n)
  }

  lemma {:induction false} FullValuesAppend(a: seq<Record>, b: seq<Record>, n: nat)
    ensures FullValues(a + b, n) == FullValues(a, n) + FullValues(b, n)
  {
    if a == [] {
      assert a + b == b;
    } else {
      var h := if a[0].j == n then [a[0].v] else [];
      assert (a + b)[0] == a[0];
      assert (a + b)[1..] == a[1..] + b;
      assert FullValues(a + b, n) == h + FullValues(a[1..] + b, n);
      FullValuesAppend(a[1..], b, n);
      assert h + (FullValues(a[1..], n) + FullValues(b, n)) == (h + FullValues(a[1..], n)) + FullValues(b, n);
    }
  }

  /** A value is a full value exactly when some record carries it and ends at `n`. */
  lemma {:induction false} FullValuesMember(rs: seq<Record>, n: nat, v: Value)
    ensures v in FullValues(rs, n) <==> Record(n, v) in rs
  {
    if rs != [] {
      FullValuesMember(rs[1..], n, v);
      assert rs == [rs[0]] + rs[1..];
    }
  }

  /** A matcher never moves backwards. */
  ghost predicate Monotone(m: Matcher)
  {
    forall s: Text, i: nat, k :: 0 <= k < |m(s, i)| ==> i <= m(s, i)[k].j
  }

  /** A matcher never moves backwards and, from an offset inside the input,
      never ends past the end of the input. */
  ghost predicate Sound(m: Matcher)
  {
    forall s: Text, i: nat, k :: 0 <= k < |m(s, i)| ==>
      i <= m(s, i)[k].j && (i <= |s| ==> m(s, i)[k].j <= |s|)
  }

  /** Every match consumes at least one code unit and stays inside the input:
      the condition under which unbounded repetition terminates. */
  ghost predicate Advancing(m: Matcher)
  {
    forall s: Text, i: nat, k :: 0 <= k < |m(s, i)| ==> i < m(s, i)[k].j <= |s|
  }

  /** Each record of a Bind is a record of `m` at the end of one of `rs`. */
  lemma {:induction false} BindAt(m: Matcher, s: Text, rs: seq<Record>, k: nat)
    requires k < |Bind(m, s, rs)|
    ensures exists a, b :: 0 <= a < |rs| && 0 <= b < |m(s, rs[a].j)|
                           && Bind(m, s, rs)[k] == m(s, rs[a].j)[b]
  {
    var head := m(s, rs[0].j);
    if k < |head| {
      assert Bind(m, s, rs)[k] == head[k];
    } else {
      assert Bind(m, s, rs)[k] == Bind(m, s, rs[1..])[k - |head|];
      BindAt(m, s, rs[1..], k - |head|);
      var a, b :| 0 <= a < |rs[1..]| && 0 <= b < |m(s, rs[1..][a].j)|
                  && Bind(m, s, rs[1..])[k - |head|] == m(s, rs[1..][a].j)[b];
      assert rs[1..][a] == rs[a + 1];
    }
  }

  lemma ThenSound(sep: Matcher, inner: Matcher)
    requires Sound(sep) && Sound(inner)
    ensures Sound(Then(sep, inner))
  {
    forall s: Text, i: nat, k | 0 <= k < |Then(sep, inner)(s, i)|
      ensures i <= Then(sep, inner)(s, i)[k].j
      ensures i <= |s| ==> Then(sep, inner)(s, i)[k].j <= |s|
    {
      BindAt(inner, s, sep(s, i), k);
    }
  }

  lemma ThenMonotone(sep: Matcher, inner: Matcher)
    requires Monotone(sep) && Monotone(inner)
    ensures Monotone(Then(sep, inner))
  {
    forall s: Text, i: nat, k | 0 <= k < |Then(sep, inner)(s, i)|
      ensures i <= Then(sep, inner)(s, i)[k].j
    {
      BindAt(inner, s, sep(s, i), k);
    }
  }

  lemma ThenAdvancing(sep: Matcher, inner: Matcher)
    requires Monotone(sep) && Advancing(inner)
    ensures Advancing(Then(sep, inner))
  {
    forall s: Text, i: nat, k | 0 <= k < |Then(sep, inner)(s, i)|
      ensures i < Then(sep, inner)(s, i)[k].j <= |s|
    {
      BindAt(inner, s, sep(s, i), k);
    }
  }

  /** Two matchers that enumerate the same records everywhere. */
  ghost predicate Same(a: Matcher, b: Matcher)
  {
    forall s: Text, i: nat :: a(s, i) == b(s, i)
  }

  /** The laws are properties of what a matcher enumerates. */
  lemma SameLaws(a: Matcher, b: Matcher)
    requires Same(a, b)
    ensures Monotone(a) <==> Monotone(b)
    ensures Sound(a) <==> Sound(b)
    ensures Advancing(a) <==> Advancing(b)
  {
    assert forall s: Text, i: nat :: a(s, i) == b(s, i);
  }

  lemma {:induction false} BindSame(a: Matcher, b: Matcher, s: Text, rs: seq<Record>)
    requires Same(a, b)
    ensures Bind(a, s, rs) == Bind(b, s, rs)
  {
    if rs != [] {
      assert a(s, rs[0].j) == b(s, rs[0].j);
      BindSame(a, b, s, rs[1..]);
    }
  }

  lemma ThenSame(sep: Matcher, sep': Matcher, inner: Matcher, inner': Matcher)
    requires Same(sep, sep') && Same(inner, inner')
    ensures Same(Then(sep, inner), Then(sep', inner'))
  {
    forall s: Text, i: nat ensures Then(sep, inner)(s, i) == Then(sep', inner')(s, i) {
      assert sep(s, i) == sep'(s, i);
      BindSame(inner, inner', s, sep(s, i));
    }
  }

  /** Behind a matcher that only matches the empty string in place, `inner`
      enumerates as it does alone. */
  lemma ThenNeutral(sep: Matcher, inner: Matcher)
    requires forall s: Text, i: nat :: sep(s, i) == [Record(i, Str([]))]
    ensures Same(Then(sep, inner), inner)
  {
    forall s: Text, i: nat ensures Then(sep, inner)(s, i) == inner(s, i) {
      assert sep(s, i) == [Record(i, Str([]))];
      assert sep(s, i)[1..] == [];
      assert Bind(inner, s, sep(s, i)) == inner(s, i) + Bind(inner, s, []);
    }
  }

  lemma {:induction false} MapRecordsAppend(a: seq<Record>, b: seq<Record>, f: Value -> Value)
    ensures MapRecords(a + b, f) == MapRecords(a, f) + MapRecords(b, f)
  {
    if a == [] {
      assert a + b == b;
    } else {
      assert (a + b)[1..] == a[1..] + b;
      MapRecordsAppend(a[1..], b, f);
    }
  }

  /** `map`: each record keeps its end offset, its value goes through `f`. */
  function MapRecords(rs: seq<Record>, f: Value -> Value): (out: seq<Record>)
    ensures |out| == |rs|
    ensures forall k :: 0 <= k < |rs| ==> out[k] == Record(rs[k].j, f(rs[k].v))
  {
    if rs == [] then [] else [Record(rs[0].j, f(rs[0].v))] + MapRecords(rs[1..], f)
  }

  /** `[first].concat(rest)`: `first` ahead of the items of `rest` when it
      is a list, ahead of `rest` itself when it is not. */
  function Prepended(first: Value): Value -> Value
  {
    (rest: Value) => List([first] + if rest.List? then rest.items else [rest])
  }

  /** `filter`: the records whose value passes `keep`, unchanged and in order. */
  function FilterRecords(rs: seq<Record>, keep: Value -> bool): seq<Record>
  {
    if rs == [] then []
    else (if keep(rs[0].v) then [rs[0]] else []) + FilterRecords(rs[1..], keep)
  }

  lemma {:induction false} FilterRecordsAppend(a: seq<Record>, b: seq<Record>, keep: Value -> bool)
    ensures FilterRecords(a + b, keep) == FilterRecords(a, keep) + FilterRecords(b, keep)
  {
    if a == [] {
      assert a + b == b;
    } else {
      var h := if keep(a[0].v) then [a[0]] else [];
      assert (a + b)[0] == a[0];
      assert (a + b)[1..] == a[1..] + b;
      assert FilterRecords(a + b, keep) == h + FilterRecords(a[1..] + b, keep);
      FilterRecordsAppend(a[1..], b, keep);
      assert h + (FilterRecords(a[1..], keep) + FilterRecords(b, keep))
             == (h + FilterRecords(a[1..], keep)) + FilterRecords(b, keep);
    }
  }

  /** A record survives the filter exactly when it was enumerated and passes. */
  lemma {:induction false} FilterRecordsMember(rs: seq<Record>, keep: Value -> bool, r: Record)
    ensures r in FilterRecords(rs, keep) <==> r in rs && keep(r.v)
  {
    if rs != [] {
      FilterRecordsMember(rs[1..], keep, r);
      assert rs == [rs[0]] + rs[1..];
    }
  }

  /** Filtering keeps the order: what passes, in the order enumerated, is a
      subsequence of the input. */
  lemma {:induction false} FilterRecordsSubsequence(rs: seq<Record>, keep: Value -> bool)
    ensures Subsequence(FilterRecords(rs, keep), rs)
  {
    if rs != [] {
      FilterRecordsSubsequence(rs[1..], keep);
      var out := FilterRecords(rs, keep);
      if keep(rs[0].v) {
        assert out == [rs[0]] + FilterRecords(rs[1..], keep);
        assert out[1..] == FilterRecords(rs[1..], keep);
      } else {
        assert out == FilterRecords(rs[1..], keep);
      }
    }
  }

  /** `a` is `b` with some elements left out, the rest in their order. */
  predicate Subsequence<T(==)>(a: seq<T>, b: seq<T>)
  {
    if b == [] then a == []
    else (a != [] && a[0] == b[0] && Subsequence(a[1..], b[1..])) || Subsequence(a, b[1..])
  }
}
