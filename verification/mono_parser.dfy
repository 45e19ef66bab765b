/** src/mono-parser.js: parse the whole input and insist on exactly one
    full-length parse. */
module MonoParsing {
  import opened Records

  /** `MonoParser(inner)(s)`: walks `inner`'s records from offset 0, skipping
      those that do not end at the end of the input. The value of the only
      full-length record is the result; none is an error, and a second one is
      an error raised as soon as it is reached. `consumed` counts the records
      taken from the enumeration before returning or raising. */
  method MonoParse(inner: Matcher, s: Text) returns (r: Result<Value>, consumed: nat)
    ensures consumed <= |inner(s, 0)|
    ensures var full := FullValues(inner(s, 0), |s|);
      && (|full| == 0 ==> r == Err("Expected 1 result, got 0") && consumed == |inner(s, 0)|)
      && (|full| == 1 ==> r == Ok(full[0]) && consumed == |inner(s, 0)|)
      && (|full| >= 2 ==> r == Err("Expected 1 result, got at least 2"))
    ensures |FullValues(inner(s, 0), |s|)| >= 2 ==>
      && 0 < consumed
      && inner(s, 0)[consumed - 1].j == |s|
      && |FullValues(inner(s, 0)[..consumed], |s|)| == 2
  {
    var recs := inner(s, 0);
    var first: Option<Value> := None;
    var k := 0;
    while k < |recs|
      invariant 0 <= k <= |recs|
      invariant |FullValues(recs[..k], |s|)| <= 1
      invariant first.None? <==> |FullValues(recs[..k], |s|)| == 0
      invariant first.Some? ==> first.value == FullValues(recs[..k], |s|)[0]
    {
      var record := recs[k];
      assert recs[..k + 1] == recs[..k] + [record];
      FullValuesAppend(recs[..k], [record], |s|);
      assert FullValues([record], |s|) == if record.j == |s| then [record.v] else [];
      if record.j != |s| {
        k := k + 1;
        continue;
      }
      if first.Some? {
        FullValuesPrefix(recs, k + 1, |s|);
        return Err("Expected 1 result, got at least 2"), k + 1;
      }
      first := Some(record.v);
      k := k + 1;
    }
    assert recs[..k] == recs;
    if first.None? {
      return Err("Expected 1 result, got 0"), k;
    }
    return Ok(first.value), k;
  }

  /** The full-length values of a prefix are a prefix of the full-length
      values, so a second one in a prefix is a second one overall. */
  lemma {:induction false} FullValuesPrefix(rs: seq<Record>, k: nat, n: nat)
    requires k <= |rs|
    ensures |FullValues(rs[..k], n)| <= |FullValues(rs, n)|
    ensures FullValues(rs[..k], n) == FullValues(rs, n)[..|FullValues(rs[..k], n)|]
  {
    assert rs == rs[..k] + rs[k..];
    FullValuesAppend(rs[..k], rs[k..], n);
  }
}
