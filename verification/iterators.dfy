/** The oldest generation of the engine, src/main.js: every matcher called
    on (string, i) returns an iterator object whose `next()` runs a small
    state machine over variables of its closure. Each such iterator is a
    class here. Its ghost `Remaining()` is what it has still to hand out.
    `Next()` hands out the head of it and leaves the tail, and the
    constructor ties the whole enumeration to a reference definition. */
module Iterators {
  import opened Records
  import opened Search
  import Simple
  import StackSafe

  /** What `next()` returns: a value, or `None` for `{done: true}`. */
  function Head<T>(xs: seq<T>): Option<T>
  {
    if xs == [] then None else Some(xs[0])
  }

  function Tail<T>(xs: seq<T>): seq<T>
  {
    if xs == [] then [] else xs[1..]
  }

  // ---------------------------------------------------------------------
  // Primitives

  /** `chr(string, i)`. */
  class ChrIterator {
    const s: Text
    const i: nat
    var done: bool

    ghost function Remaining(): seq<Record>
      reads this
    {
      if done then [] else Simple.Chr(s, i)
    }

    constructor(s: Text, i: nat)
      ensures this.s == s && this.i == i
      ensures Remaining() == Simple.Chr(s, i)
    {
      this.s := s;
      this.i := i;
      done := false;
    }

    method Next() returns (r: Option<Record>)
      modifies this
      ensures r == Head(old(Remaining())) && Remaining() == Tail(old(Remaining()))
      ensures r.None? ==> done
    {
      while !done
        invariant Remaining() == old(Remaining())
        decreases if done then 0 else 1
      {
        done := true;
        if i < |s| {
          return Some(Record(i + 1, Str(Substr(s, i, 1))));
        }
      }
      r := None;
    }
  }

  /** `1 << 10`, the size of each surrogate range. */
  const Range: int := 0x400
  const High: int := 0xD800
  const Low: int := 0xDC00

  /** `unicode(string, i)`: a unit in [High, High + Range) needs one in
      [Low, Low + Range) after it. These are the inclusive ranges of the
      stack-safe generation. */
  class UnicodeIterator {
    const s: Text
    const i: nat
    var done: bool

    ghost function Remaining(): seq<Record>
      reads this
    {
      if done then [] else StackSafe.Unicode(s, i)
    }

    constructor(s: Text, i: nat)
      ensures this.s == s && this.i == i
      ensures Remaining() == StackSafe.Unicode(s, i)
    {
      this.s := s;
      this.i := i;
      done := false;
    }

    method Next() returns (r: Option<Record>)
      modifies this
      ensures r == Head(old(Remaining())) && Remaining() == Tail(old(Remaining()))
      ensures r.None? ==> done
    {
      while !done
        invariant Remaining() == old(Remaining())
        decreases if done then 0 else 1
      {
        done := true;
        var first: Option<CodeUnit> := if i < |s| then Some(s[i]) else None;
        var second: Option<CodeUnit> := if i + 1 < |s| then Some(s[i + 1]) else None;
        if first.Some? {
          if High <= first.value < High + Range {
            if second.Some? && Low <= second.value < Low + Range {
              SubstrIsSlice(s, i, 1 + 1);
              assert s[i..i + 2] == [s[i], s[i + 1]];
              return Some(Record(i + 1 + 1, Str(Substr(s, i, 1 + 1))));
            }
          } else {
            SubstrIsSlice(s, i, 1);
            assert s[i..i + 1] == [s[i]];
            return Some(Record(i + 1, Str(Substr(s, i, 1))));
          }
        }
      }
      r := None;
    }
  }

  /** `fixed(needle)(string, i)`. */
  class FixedIterator {
    const needle: Text
    const s: Text
    const i: nat
    var done: bool

    ghost function Remaining(): seq<Record>
      reads this
    {
      if done then [] else Simple.Fixed(needle)(s, i)
    }

    constructor(needle: Text, s: Text, i: nat)
      ensures this.needle == needle && this.s == s && this.i == i
      ensures Remaining() == Simple.Fixed(needle)(s, i)
    {
      this.needle := needle;
      this.s := s;
      this.i := i;
      done := false;
    }

    method Next() returns (r: Option<Record>)
      modifies this
      ensures r == Head(old(Remaining())) && Remaining() == Tail(old(Remaining()))
      ensures r.None? ==> done
    {
      while !done
        invariant Remaining() == old(Remaining())
        decreases if done then 0 else 1
      {
        done := true;
        if Substr(s, i, |needle|) == needle {
          return Some(Record(i + |needle|, Str(needle)));
        }
      }
      r := None;
    }
  }

  // ---------------------------------------------------------------------
  // Alternation

  /** The alternatives from the `k`th on: the `k`th, then those after it. */
  lemma OrAllFrom(ms: seq<Matcher>, k: nat, s: Text, i: nat)
    requires k < |ms|
    ensures Simple.OrAll(ms[k..], s, i) == ms[k](s, i) + Simple.OrAll(ms[k + 1..], s, i)
  {
    assert ms[k..][1..] == ms[k + 1..];
  }

  /** Taking the head off the first part of a concatenation. */
  lemma Uncons<T>(rest: seq<T>, x: T, tail: seq<T>, later: seq<T>)
    requires rest == [x] + tail
    ensures rest + later == [x] + (tail + later)
  {
  }

  /** `or(inners)(string, i)`: `innerId` walks the alternatives from -1 on;
      `current` is the current alternative's iterator (the closure's
      `iterator`), absent between two. */
  class OrIterator {
    const inners: seq<Matcher>
    const s: Text
    const i: nat
    var done: bool
    var innerId: int
    var current: Option<Frame>

    ghost predicate Valid()
      reads this
    {
      -1 <= innerId <= |inners| && (done <==> innerId == |inners|)
      && (current.Some? ==> 0 <= innerId < |inners| && current.value.recs == inners[innerId](s, i)
                             && current.value.pos <= |current.value.recs|)
    }

    /** The rest of the current alternative, then every later one. */
    ghost function Remaining(): seq<Record>
      reads this
      requires Valid()
    {
      if done then []
      else
        (if current.Some? then current.value.recs[current.value.pos..] else [])
        + Simple.OrAll(inners[innerId + 1..], s, i)
    }

    constructor(inners: seq<Matcher>, s: Text, i: nat)
      ensures this.inners == inners && this.s == s && this.i == i
      ensures Valid() && Remaining() == Simple.OrAll(inners, s, i)
    {
      this.inners := inners;
      this.s := s;
      this.i := i;
      done := false;
      innerId := -1;
      current := None;
      new;
      assert inners[0..] == inners;
    }

    /** How far the iterator is from exhausting the alternatives. */
    ghost function Distance(): nat
      reads this
      requires Valid()
    {
      2 * (|inners| - innerId) + (if current.Some? then 1 else 0)
    }

    /** Since a call of `next()` began at alternative `id0` (`spent` when its
        iterator had nothing left), with `innerId` now `id` and the current
        iterator `cur`: `innerId` has not gone back; it has moved on only past
        a spent iterator; and every alternative opened since and left, or
        open and fresh, yielded nothing. */
    ghost predicate Progressed(id0: int, spent: bool, id: int, cur: Option<Frame>)
    {
      && -1 <= id0 <= id <= |inners|
      && (id0 < id || cur.None? ==> spent)
      && (id0 == id && cur.Some? && cur.value.pos == |cur.value.recs| ==> spent)
      && (forall k :: id0 < k < id ==> inners[k](s, i) == [])
      && (id0 < id && cur.Some? ==> cur.value.pos == 0)
      && (id0 < id < |inners| && cur.None? ==> inners[id](s, i) == [])
    }

    /** What holds when that call hands out `x`: it comes from alternative
        `id`, reached as `Progressed` says. */
    ghost predicate Settled(id0: int, spent: bool, id: int, x: Record)
    {
      && 0 <= id < |inners| && x in inners[id](s, i)
      && -1 <= id0 <= id
      && (id0 < id ==> spent)
      && (forall k :: id0 < k < id ==> inners[k](s, i) == [])
    }

    /** Handing out the record at `it.pos` of alternative `id`. */
    lemma PulledRecord(id0: int, spent: bool, id: int, it: Frame)
      requires Progressed(id0, spent, id, Some(it))
      requires 0 <= id < |inners| && it.recs == inners[id](s, i) && it.pos < |it.recs|
      ensures Settled(id0, spent, id, it.recs[it.pos])
    {
    }

    /** Dropping the exhausted iterator of alternative `id`. */
    lemma DroppedSpent(id0: int, spent: bool, id: int, it: Frame)
      requires Progressed(id0, spent, id, Some(it))
      requires 0 <= id < |inners| && it.recs == inners[id](s, i) && it.pos == |it.recs|
      ensures Progressed(id0, spent, id, None)
    {
    }

    /** Opening alternative `id + 1`, or finishing past the last. */
    lemma OpenedNext(id0: int, spent: bool, id: int, cur: Option<Frame>)
      requires Progressed(id0, spent, id, None) && id < |inners|
      requires cur.Some? ==> cur.value.pos == 0
      requires cur.Some? <==> id + 1 < |inners|
      ensures Progressed(id0, spent, id + 1, cur)
    {
    }

    /** `innerId` never goes back; it moves past an alternative only once
        that alternative's iterator is exhausted, and every alternative it
        opens and leaves within one call yielded nothing. A record handed
        out comes from the alternative `innerId` names. */
    method Next() returns (r: Option<Record>)
      requires Valid()
      modifies this
      ensures Valid()
      ensures r == Head(old(Remaining())) && Remaining() == Tail(old(Remaining()))
      ensures r.None? ==> done
      ensures old(innerId) <= innerId
      ensures old(innerId) < innerId && old(current).Some? ==> old(current).value.pos == |old(current).value.recs|
      ensures forall k :: old(innerId) < k < innerId ==> inners[k](s, i) == []
      ensures r.Some? ==> 0 <= innerId < |inners| && r.value in inners[innerId](s, i)
    {
      ghost var id0 := innerId;
      ghost var spent := current.None? || current.value.pos == |current.value.recs|;
      while !done
        invariant Valid() && Remaining() == old(Remaining())
        invariant Progressed(id0, spent, innerId, current)
        decreases Distance()
      {
        r := Step(id0, spent);
        if r.Some? {
          assert Settled(id0, spent, innerId, r.value);
          return;
        }
      }
      assert Progressed(id0, spent, innerId, current);
      r := None;
    }

    /** One pass of the loop of `next()`: hand out the current alternative's
        next record, or drop an exhausted alternative, or open the next one. */
    method Step(ghost id0: int, ghost spent: bool) returns (r: Option<Record>)
      requires Valid() && !done && Progressed(id0, spent, innerId, current)
      modifies this
      ensures Valid()
      ensures r.Some? ==> old(Remaining()) == [r.value] + Remaining() && Settled(id0, spent, innerId, r.value)
      ensures r.None? ==> Remaining() == old(Remaining()) && Distance() < old(Distance())
                          && Progressed(id0, spent, innerId, current)
    {
      ghost var id := innerId;
      if current.Some? {
        ghost var it := current.value;
        r := Pull();
        if r.Some? {
          PulledRecord(id0, spent, id, it);
        } else {
          DroppedSpent(id0, spent, id, it);
        }
      } else {
        Open();
        OpenedNext(id0, spent, id, current);
        r := None;
      }
    }

    /** Ask the current alternative's iterator for its next record. */
    method Pull() returns (r: Option<Record>)
      requires Valid() && !done && current.Some?
      modifies this
      ensures Valid()
      ensures r.Some? ==> old(Remaining()) == [r.value] + Remaining()
      ensures r.None? ==> Remaining() == old(Remaining()) && Distance() < old(Distance())
      ensures innerId == old(innerId)
      ensures r.Some? ==> old(current).value.pos < |old(current).value.recs|
                          && r.value == old(current).value.recs[old(current).value.pos]
      ensures r.None? ==> current.None? && old(current).value.pos == |old(current).value.recs|
    {
      ghost var later := Simple.OrAll(inners[innerId + 1..], s, i);
      var it := current.value;
      ghost var rest := it.recs[it.pos..];
      assert old(Remaining()) == rest + later;
      if it.pos == |it.recs| {
        current := None;
        assert rest == [];
        assert Remaining() == later;
        r := None;
      } else {
        var x := it.recs[it.pos];
        ghost var tail := it.recs[it.pos + 1..];
        assert rest == [x] + tail;
        Uncons(rest, x, tail, later);
        current := Some(Frame(it.recs, it.pos + 1));
        assert Valid();
        assert Remaining() == tail + later;
        r := Some(x);
      }
    }

    /** Move on to the next alternative, or finish after the last. */
    method Open()
      requires Valid() && !done && current.None?
      modifies this
      ensures Valid()
      ensures Remaining() == old(Remaining()) && Distance() < old(Distance())
      ensures innerId == old(innerId) + 1 && (current.Some? <==> innerId < |inners|)
      ensures current.Some? ==> current.value.pos == 0
    {
      innerId := innerId + 1;
      if innerId < |inners| {
        OrAllFrom(inners, innerId, s, i);
        current := Some(Frame(inners[innerId](s, i), 0));
        assert current.value.recs[0..] == inners[innerId](s, i);
      } else {
        assert inners[innerId..] == [];
        done := true;
      }
    }
  }

  // ---------------------------------------------------------------------
  // Sequence and repetition: the depth-first walk with `depth` and `stack`

  /** `seq(inners)`: the walk of `WalkPlan(inners, s)`, where element `d`
      is matched from the end of element `d - 1`'s current value and a list
      is reported when every element has one. */
  function Seq(inners: seq<Matcher>): Matcher
  {
    (s: Text, i: nat) => Tree(StackSafe.WalkPlan(inners, s), i, [])
  }

  /** The walk of `star(inner)`: every copy matched by `inner` from the end
      of the last, every node reported before it is extended. */
  function StarPlan(inner: Matcher, s: Text): (p: Plan)
    ensures Advancing(inner) ==> Finite(p)
  {
    Plan((d: nat, j: nat) => inner(s, j), 0, None, |s|)
  }

  /** `star(inner)`. It ends only when every match of `inner` consumes input. */
  function Star(inner: Matcher): Matcher
    requires Advancing(inner)
  {
    (s: Text, i: nat) => Tree(StarPlan(inner, s), i, [])
  }

  /** Ask the top frame's iterator for its next record: store it as the
      frame's value and go one deeper, or pop the exhausted frame and go one
      shallower. */
  method PullTop(ghost p: Plan, i: nat, stack: seq<Frame>) returns (next: seq<Frame>, advanced: bool)
    requires Finite(p) && Linked(p, i, stack) && stack != []
    ensures Linked(p, i, next)
    ensures advanced ==> |next| == |stack| && Advanced(next)
                         && Pending(p, i, stack) == Tree(p, StartOf(i, next), PathOf(next)) + Pending(p, i, next)
                         && Work(p, i, stack) == 2 + Size(p, StartOf(i, next), PathOf(next)) + Work(p, i, next)
    ensures !advanced ==> next == stack[..|stack| - 1]
                          && Pending(p, i, stack) == Pending(p, i, next)
                          && Work(p, i, stack) == 1 + Work(p, i, next)
  {
    var top := stack[|stack| - 1];
    if top.pos == |top.recs| {
      PopStep(p, i, stack);
      next := stack[..|stack| - 1];
      advanced := false;
    } else {
      AdvanceStep(p, i, stack);
      next := stack[|stack| - 1 := Frame(top.recs, top.pos + 1)];
      advanced := true;
    }
  }

  /** `seq(inners)(string, i)`. `depth` is the element being worked on:
      frames below it hold a current value; when `depth == |stack|` the node
      those values form is next, otherwise the top frame is next asked for a
      record; `depth == -1` means finished. */
  class SeqIterator {
    const inners: seq<Matcher>
    const s: Text
    const i: nat
    var stack: seq<Frame>
    var done: bool
    var depth: int

    ghost function Walk(): (p: Plan)
      ensures Finite(p)
    {
      StackSafe.WalkPlan(inners, s)
    }

    ghost predicate Valid()
      reads this
    {
      -1 <= depth <= |stack| <= |inners| && |stack| - 1 <= depth
      && Linked(Walk(), i, stack)
      && (depth == |stack| ==> Advanced(stack))
      && (done ==> depth == -1)
    }

    ghost function Remaining(): seq<Record>
      reads this
      requires Valid()
    {
      if done then []
      else
        (if depth == |stack| then Tree(Walk(), StartOf(i, stack), PathOf(stack)) else [])
        + Pending(Walk(), i, stack)
    }

    ghost function Distance(): nat
      reads this
      requires Valid()
    {
      if done then 0
      else
        1 + Work(Walk(), i, stack)
        + (if depth == |stack| then 1 + Size(Walk(), StartOf(i, stack), PathOf(stack)) else 0)
    }

    constructor(inners: seq<Matcher>, s: Text, i: nat)
      ensures this.inners == inners && this.s == s && this.i == i
      ensures Valid() && Remaining() == Seq(inners)(s, i)
    {
      this.inners := inners;
      this.s := s;
      this.i := i;
      stack := [];
      done := false;
      depth := 0;
      new;
      assert StartOf(i, stack) == i && PathOf(stack) == [];
    }

    method Next() returns (r: Option<Record>)
      requires Valid()
      modifies this
      ensures Valid()
      ensures r == Head(old(Remaining())) && Remaining() == Tail(old(Remaining()))
      ensures r.None? ==> done
    {
      while !done
        invariant Valid() && Remaining() == old(Remaining())
        decreases Distance()
      {
        r := Step();
        if r.Some? {
          return;
        }
      }
      r := None;
    }

    /** One pass of the loop of `next()`. */
    method Step() returns (r: Option<Record>)
      requires Valid() && !done
      modifies this
      ensures Valid()
      ensures r.Some? ==> old(Remaining()) == [r.value] + Remaining()
      ensures r.None? ==> Remaining() == old(Remaining()) && Distance() < old(Distance())
    {
      if depth == -1 {
        done := true;
        r := None;
      } else if depth == |inners| {
        r := Emit();
      } else if depth < |stack| {
        Pull();
        r := None;
      } else {
        Push();
        r := None;
      }
    }

    /** Every element has a value: report the list and step back. */
    method Emit() returns (r: Option<Record>)
      requires Valid() && !done && depth == |inners|
      modifies this
      ensures Valid()
      ensures r.Some? && old(Remaining()) == [r.value] + Remaining()
    {
      ghost var p := Walk();
      ghost var pending := Pending(p, i, stack);
      var value := Record(StartOf(i, stack), List(PathOf(stack)));
      assert |stack| == |inners| == p.min && !Below(p, |stack|);
      TreeLeaf(p, StartOf(i, stack), PathOf(stack));
      assert old(Remaining()) == [value] + pending;
      depth := depth - 1;
      assert Remaining() == [] + pending;
      r := Some(value);
    }

    method Pull()
      requires Valid() && !done && 0 <= depth < |stack|
      modifies this
      ensures Valid()
      ensures Remaining() == old(Remaining()) && Distance() < old(Distance())
    {
      var advanced;
      stack, advanced := PullTop(Walk(), i, stack);
      depth := if advanced then depth + 1 else depth - 1;
    }

    /** Open the iterator of element `depth` where the values so far end. */
    method Push()
      requires Valid() && !done && 0 <= depth == |stack| < |inners|
      modifies this
      ensures Valid()
      ensures Remaining() == old(Remaining()) && Distance() < old(Distance())
    {
      var j := if depth == 0 then i else Cur(stack[|stack| - 1]).j;
      assert j == StartOf(i, stack);
      PushStep(Walk(), i, stack);
      assert Tree(Walk(), j, PathOf(stack)) == Forest(Walk(), j, PathOf(stack), Walk().kids(|stack|, j));
      stack := stack + [Frame(inners[depth](s, j), 0)];
    }
  }

    /** Reporting the list a star's frames hold and opening the iterator of
      the next copy where it ends keeps everything else pending. */
  lemma StarOpens(inner: Matcher, s: Text, i: nat, stack: seq<Frame>)
    requires Advancing(inner) && Linked(StarPlan(inner, s), i, stack) && Advanced(stack)
    ensures var p := StarPlan(inner, s);
            var j := StartOf(i, stack);
            var next := stack + [Frame(inner(s, j), 0)];
            && j == (if stack == [] then i else Cur(stack[|stack| - 1]).j)
            && Linked(p, i, next)
            && Tree(p, j, PathOf(stack)) + Pending(p, i, stack) == [Record(j, List(PathOf(stack)))] + Pending(p, i, next)
            && Work(p, i, next) == Work(p, i, stack) + Size(p, j, PathOf(stack))
  {
    var p := StarPlan(inner, s);
    var j := StartOf(i, stack);
    assert p.min == 0 && p.max.None?;
    assert p.kids(|stack|, j) == inner(s, j);
    ExpandStep(p, i, stack, [Record(j, List(PathOf(stack)))], stack + [Frame(inner(s, j), 0)]);
  }

/** `star(inner)(string, i)`. As for `seq`, except that reaching a new
      node reports it at once and opens the iterator for the next copy. */
  class StarIterator {
    const inner: Matcher
    const s: Text
    const i: nat
    var stack: seq<Frame>
    var done: bool
    var depth: int

    ghost function Walk(): Plan
    {
      StarPlan(inner, s)
    }

    ghost predicate Valid()
      reads this
    {
      Advancing(inner) && Finite(Walk())
      && -1 <= depth <= |stack| && |stack| - 1 <= depth
      && Linked(Walk(), i, stack)
      && (depth == |stack| ==> Advanced(stack))
      && (done ==> depth == -1)
    }

    ghost function Remaining(): seq<Record>
      reads this
      requires Valid()
    {
      if done then []
      else
        (if depth == |stack| then Tree(Walk(), StartOf(i, stack), PathOf(stack)) else [])
        + Pending(Walk(), i, stack)
    }

    ghost function Distance(): nat
      reads this
      requires Valid()
    {
      if done then 0
      else
        1 + Work(Walk(), i, stack)
        + (if depth == |stack| then 1 + Size(Walk(), StartOf(i, stack), PathOf(stack)) else 0)
    }

    constructor(inner: Matcher, s: Text, i: nat)
      requires Advancing(inner)
      ensures this.inner == inner && this.s == s && this.i == i
      ensures Valid() && Remaining() == Star(inner)(s, i)
    {
      this.inner := inner;
      this.s := s;
      this.i := i;
      stack := [];
      done := false;
      depth := 0;
      new;
      assert StartOf(i, stack) == i && PathOf(stack) == [];
    }

    method Next() returns (r: Option<Record>)
      requires Valid()
      modifies this
      ensures Valid()
      ensures r == Head(old(Remaining())) && Remaining() == Tail(old(Remaining()))
      ensures r.None? ==> done
    {
      while !done
        invariant Valid() && Remaining() == old(Remaining())
        decreases Distance()
      {
        r := Step();
        if r.Some? {
          return;
        }
      }
      r := None;
    }

    /** One pass of the loop of `next()`. */
    method Step() returns (r: Option<Record>)
      requires Valid() && !done
      modifies this
      ensures Valid()
      ensures r.Some? ==> old(Remaining()) == [r.value] + Remaining()
      ensures r.None? ==> Remaining() == old(Remaining()) && Distance() < old(Distance())
    {
      if depth == -1 {
        done := true;
        r := None;
      } else if depth < |stack| {
        var advanced;
        stack, advanced := PullTop(Walk(), i, stack);
        depth := if advanced then depth + 1 else depth - 1;
        r := None;
      } else {
        r := Expand();
      }
    }

    /** Report the list the frames hold and open the next copy's iterator
        where that list ends. */
    method Expand() returns (r: Option<Record>)
      requires Valid() && !done && 0 <= depth == |stack|
      modifies this
      ensures Valid()
      ensures r.Some? && old(Remaining()) == [r.value] + Remaining()
    {
      ghost var before := stack;
      var value := Record(StartOf(i, stack), List(PathOf(stack)));
      var j := if depth == 0 then i else Cur(stack[|stack| - 1]).j;
      StarOpens(inner, s, i, stack);
      stack := stack + [Frame(inner(s, j), 0)];
      assert old(Remaining()) == Tree(Walk(), StartOf(i, before), PathOf(before)) + Pending(Walk(), i, before);
      assert Remaining() == [] + Pending(Walk(), i, stack);
      r := Some(value);
    }
  }

  // ---------------------------------------------------------------------
  // Transforms and the full-length parser: one inner iterator each

  /** `inner.map(f)(string, i)`. The inner iterator is the list `recs` it
      enumerates and the count `pos` it has handed out. */
  class MapIterator {
    const f: Value -> Value
    const recs: seq<Record>
    var pos: nat
    var done: bool

    ghost predicate Valid()
      reads this
    {
      pos <= |recs|
    }

    ghost function Remaining(): seq<Record>
      reads this
      requires Valid()
    {
      if done then [] else MapRecords(recs[pos..], f)
    }

    constructor(inner: Matcher, f: Value -> Value, s: Text, i: nat)
      ensures Valid() && Remaining() == MapRecords(inner(s, i), f)
    {
      this.f := f;
      recs := inner(s, i);
      pos := 0;
      done := false;
      new;
      assert recs[0..] == recs;
    }

    method Next() returns (r: Option<Record>)
      requires Valid()
      modifies this
      ensures Valid()
      ensures r == Head(old(Remaining())) && Remaining() == Tail(old(Remaining()))
      ensures r.None? ==> done
    {
      while !done
        invariant Valid() && Remaining() == old(Remaining())
        decreases if done then 0 else 1 + |recs| - pos
      {
        if pos == |recs| {
          done := true;
        } else {
          var result := recs[pos];
          assert recs[pos..][1..] == recs[pos + 1..];
          pos := pos + 1;
          return Some(Record(result.j, f(result.v)));
        }
      }
      r := None;
    }
  }

  /** `inner.filter(keep)(string, i)`: failing records are skipped inside
      the loop. */
  class FilterIterator {
    const keep: Value -> bool
    const recs: seq<Record>
    var pos: nat
    var done: bool

    ghost predicate Valid()
      reads this
    {
      pos <= |recs|
    }

    ghost function Remaining(): seq<Record>
      reads this
      requires Valid()
    {
      if done then [] else FilterRecords(recs[pos..], keep)
    }

    constructor(inner: Matcher, keep: Value -> bool, s: Text, i: nat)
      ensures Valid() && Remaining() == FilterRecords(inner(s, i), keep)
    {
      this.keep := keep;
      recs := inner(s, i);
      pos := 0;
      done := false;
      new;
      assert recs[0..] == recs;
    }

    method Next() returns (r: Option<Record>)
      requires Valid()
      modifies this
      ensures Valid()
      ensures r == Head(old(Remaining())) && Remaining() == Tail(old(Remaining()))
      ensures r.None? ==> done
    {
      while !done
        invariant Valid() && Remaining() == old(Remaining())
        decreases if done then 0 else 1 + |recs| - pos
      {
        if pos == |recs| {
          done := true;
        } else {
          var result := recs[pos];
          assert recs[pos..][1..] == recs[pos + 1..];
          pos := pos + 1;
          if keep(result.v) {
            return Some(result);
          }
        }
      }
      r := None;
    }
  }

  /** `Parser(inner)(string)`: the values of the records from offset 0 that
      end at the end of the string; partial parses are skipped. */
  class ParserIterator {
    const n: nat
    const recs: seq<Record>
    var pos: nat
    var done: bool

    ghost predicate Valid()
      reads this
    {
      pos <= |recs|
    }

    ghost function Remaining(): seq<Value>
      reads this
      requires Valid()
    {
      if done then [] else FullValues(recs[pos..], n)
    }

    constructor(inner: Matcher, s: Text)
      ensures Valid() && Remaining() == FullValues(inner(s, 0), |s|)
    {
      n := |s|;
      recs := inner(s, 0);
      pos := 0;
      done := false;
      new;
      assert recs[0..] == recs;
    }

    method Next() returns (r: Option<Value>)
      requires Valid()
      modifies this
      ensures Valid()
      ensures r == Head(old(Remaining())) && Remaining() == Tail(old(Remaining()))
      ensures r.None? ==> done
    {
      while !done
        invariant Valid() && Remaining() == old(Remaining())
        decreases if done then 0 else 1 + |recs| - pos
      {
        if pos == |recs| {
          done := true;
        } else {
          var result := recs[pos];
          assert recs[pos..][1..] == recs[pos + 1..];
          pos := pos + 1;
          if result.j == n {
            return Some(result.v);
          }
        }
      }
      r := None;
    }
  }
}
