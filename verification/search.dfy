/** Depth-first enumeration with an explicit stack of frames.

    Sequence and repetition both walk a tree: a node at depth `d` stands for
    `d` elements matched so far, its children are the ways to match element
    `d` from where the node ends. `Tree` is that walk written recursively;
    the rest of the module describes the same walk when it is driven by a
    stack of inner iterators, so that a loop which pushes, advances and pops
    frames can be proved to produce exactly `Tree`'s records. */
module Search {
  import opened Records

  /** The shape of a walk: `kids(d, j)` lists the ways to match element `d`
      from offset `j`; a node at depth `d` is reported when `min <= d` and
      expanded while `d < max` (no `max` means no bound); `len` is the length
      of the input, which bounds an unbounded walk. */
  datatype Plan = Plan(kids: (nat, nat) -> seq<Record>, min: nat, max: Option<nat>, len: nat)

  predicate Below(p: Plan, d: nat)
  {
    p.max.None? || d < p.max.value
  }

  /** A child record that keeps an unbounded walk finite. */
  predicate Fits(p: Plan, j: nat, r: Record)
  {
    p.max.Some? || j < r.j <= p.len
  }

  /** The walk is finite: it is bounded, or every child advances inside the input. */
  ghost predicate Finite(p: Plan)
  {
    forall d: nat, j: nat, k :: 0 <= k < |p.kids(d, j)| ==> Fits(p, j, p.kids(d, j)[k])
  }

  function Rank(p: Plan, d: nat): nat
  {
    if p.max.Some? && d <= p.max.value then p.max.value - d else 0
  }

  function Gap(p: Plan, j: nat): nat
  {
    if j <= p.len then p.len - j else 0
  }

  /** Every record of the subtree of the node that ends at `j` with element
      values `vs`, the node itself first, then its children's subtrees in order. */
  function Tree(p: Plan, j: nat, vs: seq<Value>): seq<Record>
    requires Finite(p)
    decreases Rank(p, |vs|), Gap(p, j), 1, 0
  {
    (if p.min <= |vs| then [Record(j, List(vs))] else [])
    + (if Below(p, |vs|) then Forest(p, j, vs, p.kids(|vs|, j)) else [])
  }

  /** The subtrees of the children `rs` of the node (`j`, `vs`), in order. */
  function Forest(p: Plan, j: nat, vs: seq<Value>, rs: seq<Record>): seq<Record>
    requires Finite(p) && Below(p, |vs|)
    requires forall k :: 0 <= k < |rs| ==> Fits(p, j, rs[k])
    decreases Rank(p, |vs|), Gap(p, j), 0, |rs|
  {
    if rs == [] then []
    else
      assert Fits(p, j, rs[0]);
      Tree(p, rs[0].j, vs + [rs[0].v]) + Forest(p, j, vs, rs[1..])
  }

  lemma {:induction false} ForestAppend(p: Plan, j: nat, vs: seq<Value>, a: seq<Record>, b: seq<Record>)
    requires Finite(p) && Below(p, |vs|)
    requires forall k :: 0 <= k < |a| ==> Fits(p, j, a[k])
    requires forall k :: 0 <= k < |b| ==> Fits(p, j, b[k])
    ensures Forest(p, j, vs, a + b) == Forest(p, j, vs, a) + Forest(p, j, vs, b)
    decreases |a|
  {
    if a == [] {
      assert a + b == b;
    } else {
      assert (a + b)[0] == a[0];
      assert (a + b)[1..] == a[1..] + b;
      ForestAppend(p, j, vs, a[1..], b);
    }
  }

  /** Two plans that agree on every child list walk the same tree. */
  lemma {:induction false} TreeCongruent(p: Plan, q: Plan, j: nat, vs: seq<Value>)
    requires Finite(p) && Finite(q)
    requires p.min == q.min && p.max == q.max && p.len == q.len
    requires forall d: nat, k: nat :: p.kids(d, k) == q.kids(d, k)
    ensures Tree(p, j, vs) == Tree(q, j, vs)
    decreases Rank(p, |vs|), Gap(p, j), 1, 0
  {
    if Below(p, |vs|) {
      ForestCongruent(p, q, j, vs, p.kids(|vs|, j));
    }
  }

  lemma {:induction false} ForestCongruent(p: Plan, q: Plan, j: nat, vs: seq<Value>, rs: seq<Record>)
    requires Finite(p) && Finite(q)
    requires p.min == q.min && p.max == q.max && p.len == q.len
    requires forall d: nat, k: nat :: p.kids(d, k) == q.kids(d, k)
    requires Below(p, |vs|)
    requires forall k :: 0 <= k < |rs| ==> Fits(p, j, rs[k])
    ensures Forest(p, j, vs, rs) == Forest(q, j, vs, rs)
    decreases Rank(p, |vs|), Gap(p, j), 0, |rs|
  {
    if rs != [] {
      TreeCongruent(p, q, rs[0].j, vs + [rs[0].v]);
      ForestCongruent(p, q, j, vs, rs[1..]);
    }
  }

  /** A walk that expands copies from depth 1 on as another expands them
      from depth 0 reports, below a first value `v0`, the other walk's
      records with `v0` put ahead of each list. */
  lemma {:induction false} TreeShift(p: Plan, q: Plan, j: nat, vs: seq<Value>, v0: Value)
    requires Finite(p) && Finite(q)
    requires p.max.None? && q.max.None? && q.min == p.min + 1 && q.len == p.len
    requires forall d: nat, k: nat :: q.kids(d + 1, k) == p.kids(d, k)
    ensures Tree(q, j, [v0] + vs) == MapRecords(Tree(p, j, vs), Prepended(v0))
    decreases Rank(p, |vs|), Gap(p, j), 1, 0
  {
    var ws := [v0] + vs;
    assert q.kids(|ws|, j) == p.kids(|vs|, j);
    assert Prepended(v0)(List(vs)) == List(ws);
    assert forall k :: 0 <= k < |p.kids(|vs|, j)| ==> Fits(p, j, p.kids(|vs|, j)[k]);
    ForestShift(p, q, j, vs, v0, p.kids(|vs|, j));
    var head := if p.min <= |vs| then [Record(j, List(vs))] else [];
    MapRecordsAppend(head, Forest(p, j, vs, p.kids(|vs|, j)), Prepended(v0));
  }

  lemma {:induction false} ForestShift(p: Plan, q: Plan, j: nat, vs: seq<Value>, v0: Value, rs: seq<Record>)
    requires Finite(p) && Finite(q)
    requires p.max.None? && q.max.None? && q.min == p.min + 1 && q.len == p.len
    requires forall d: nat, k: nat :: q.kids(d + 1, k) == p.kids(d, k)
    requires forall k :: 0 <= k < |rs| ==> Fits(p, j, rs[k]) && Fits(q, j, rs[k])
    ensures Forest(q, j, [v0] + vs, rs) == MapRecords(Forest(p, j, vs, rs), Prepended(v0))
    decreases Rank(p, |vs|), Gap(p, j), 0, |rs|
  {
    if rs != [] {
      assert Fits(p, j, rs[0]) && Fits(q, j, rs[0]);
      assert [v0] + vs + [rs[0].v] == [v0] + (vs + [rs[0].v]);
      TreeShift(p, q, rs[0].j, vs + [rs[0].v], v0);
      ForestShift(p, q, j, vs, v0, rs[1..]);
      MapRecordsAppend(Tree(p, rs[0].j, vs + [rs[0].v]), Forest(p, j, vs, rs[1..]), Prepended(v0));
    }
  }

  /** Every record of a subtree is a list that extends the node's values, of
      a length from `min` up to `max`. */
  lemma {:induction false} TreeShape(p: Plan, j: nat, vs: seq<Value>, r: Record)
    requires Finite(p)
    requires p.max.Some? ==> |vs| <= p.max.value
    requires r in Tree(p, j, vs)
    ensures r.v.List? && |vs| <= |r.v.items| && r.v.items[..|vs|] == vs
    ensures p.min <= |r.v.items|
    ensures p.max.Some? ==> |r.v.items| <= p.max.value
    decreases Rank(p, |vs|), Gap(p, j), 1, 0
  {
    if r !in (if p.min <= |vs| then [Record(j, List(vs))] else []) {
      ForestShape(p, j, vs, p.kids(|vs|, j), r);
    }
  }

  lemma {:induction false} ForestShape(p: Plan, j: nat, vs: seq<Value>, rs: seq<Record>, r: Record)
    requires Finite(p) && Below(p, |vs|)
    requires forall k :: 0 <= k < |rs| ==> Fits(p, j, rs[k])
    requires r in Forest(p, j, vs, rs)
    ensures r.v.List? && |vs| < |r.v.items| && r.v.items[..|vs|] == vs
    ensures p.min <= |r.v.items|
    ensures p.max.Some? ==> |r.v.items| <= p.max.value
    decreases Rank(p, |vs|), Gap(p, j), 0, |rs|
  {
    if r in Tree(p, rs[0].j, vs + [rs[0].v]) {
      TreeShape(p, rs[0].j, vs + [rs[0].v], r);
      assert r.v.items[..|vs|] == r.v.items[..|vs| + 1][..|vs|];
    } else {
      ForestShape(p, j, vs, rs[1..], r);
    }
  }

  /** Past the node's own values, the `k`th value of a record in the subtree
      is the value of a child record at depth `k`. */
  lemma {:induction false} TreeValue(p: Plan, j: nat, vs: seq<Value>, r: Record, k: nat)
    requires Finite(p)
    requires p.max.Some? ==> |vs| <= p.max.value
    requires r in Tree(p, j, vs)
    requires r.v.List? && |vs| <= k < |r.v.items|
    ensures exists j': nat, c :: c in p.kids(k, j') && c.v == r.v.items[k]
    decreases Rank(p, |vs|), Gap(p, j), 1, 0
  {
    if Below(p, |vs|) && r in Forest(p, j, vs, p.kids(|vs|, j)) {
      ForestValue(p, j, vs, p.kids(|vs|, j), r, k);
    }
  }

  lemma {:induction false} ForestValue(p: Plan, j: nat, vs: seq<Value>, rs: seq<Record>, r: Record, k: nat)
    requires Finite(p) && Below(p, |vs|)
    requires forall n :: 0 <= n < |rs| ==> Fits(p, j, rs[n])
    requires forall n :: 0 <= n < |rs| ==> rs[n] in p.kids(|vs|, j)
    requires r in Forest(p, j, vs, rs)
    requires r.v.List? && |vs| <= k < |r.v.items|
    ensures exists j': nat, c :: c in p.kids(k, j') && c.v == r.v.items[k]
    decreases Rank(p, |vs|), Gap(p, j), 0, |rs|
  {
    var c := rs[0];
    if r in Tree(p, c.j, vs + [c.v]) {
      if k == |vs| {
        TreeShape(p, c.j, vs + [c.v], r);
        assert r.v.items[k] == r.v.items[..|vs| + 1][k] == c.v;
        assert c in p.kids(k, j);
      } else {
        TreeValue(p, c.j, vs + [c.v], r, k);
      }
    } else {
      ForestValue(p, j, vs, rs[1..], r, k);
    }
  }

  /** The end offsets of a subtree never lie before the node when no child
      moves backwards, and stay inside the input when the node does. */
  lemma {:induction false} TreeBounds(p: Plan, j: nat, vs: seq<Value>, r: Record)
    requires Finite(p)
    requires forall d: nat, k: nat, c: Record :: c in p.kids(d, k) ==> k <= c.j && (k <= p.len ==> c.j <= p.len)
    requires r in Tree(p, j, vs)
    ensures j <= r.j && (j <= p.len ==> r.j <= p.len)
    decreases Rank(p, |vs|), Gap(p, j), 1, 0
  {
    if r !in (if p.min <= |vs| then [Record(j, List(vs))] else []) {
      ForestBounds(p, j, vs, p.kids(|vs|, j), r);
    }
  }

  lemma {:induction false} ForestBounds(p: Plan, j: nat, vs: seq<Value>, rs: seq<Record>, r: Record)
    requires Finite(p) && Below(p, |vs|)
    requires forall d: nat, k: nat, c: Record :: c in p.kids(d, k) ==> k <= c.j && (k <= p.len ==> c.j <= p.len)
    requires forall k :: 0 <= k < |rs| ==> Fits(p, j, rs[k]) && j <= rs[k].j && (j <= p.len ==> rs[k].j <= p.len)
    requires r in Forest(p, j, vs, rs)
    ensures j <= r.j && (j <= p.len ==> r.j <= p.len)
    decreases Rank(p, |vs|), Gap(p, j), 0, |rs|
  {
    if r in Tree(p, rs[0].j, vs + [rs[0].v]) {
      TreeBounds(p, rs[0].j, vs + [rs[0].v], r);
    } else {
      ForestBounds(p, j, vs, rs[1..], r);
    }
  }

  // ---------------------------------------------------------------------
  // The same walk driven by a stack of frames.

  /** An inner iterator: the records it enumerates and how many of them it
      has handed out; its current value is the last one handed out. */
  datatype Frame = Frame(recs: seq<Record>, pos: nat)

  predicate Started(f: Frame)
  {
    0 < f.pos <= |f.recs|
  }

  /** The frame's current value (the `value` the source stores in a frame). */
  function Cur(f: Frame): Record
    requires Started(f)
  {
    f.recs[f.pos - 1]
  }

  predicate Advanced(stack: seq<Frame>)
  {
    forall k :: 0 <= k < |stack| ==> Started(stack[k])
  }

  /** Where the node above the frames `below` ends: the start offset when
      there are none, otherwise the end of the top frame's current value. */
  function StartOf(i: nat, below: seq<Frame>): nat
    requires Advanced(below)
  {
    if below == [] then i else Cur(below[|below| - 1]).j
  }

  /** The current values of the frames, bottom first. */
  function PathOf(below: seq<Frame>): (vs: seq<Value>)
    requires Advanced(below)
    ensures |vs| == |below|
  {
    seq(|below|, k requires 0 <= k < |below| => Cur(below[k]).v)
  }

  /** Each frame enumerates the children of the node formed by the current
      values beneath it, and sits at a depth the plan expands. */
  ghost predicate Linked(p: Plan, i: nat, stack: seq<Frame>)
    decreases |stack|
  {
    stack == [] ||
    (var below := stack[..|stack| - 1];
     var top := stack[|stack| - 1];
     Linked(p, i, below) && Advanced(below) && Below(p, |below|)
     && top.pos <= |top.recs| && top.recs == p.kids(|below|, StartOf(i, below)))
  }

  lemma LinkedFits(p: Plan, i: nat, stack: seq<Frame>)
    requires Finite(p) && Linked(p, i, stack) && stack != []
    ensures var top := stack[|stack| - 1];
            forall k :: 0 <= k < |top.recs[top.pos..]| ==>
              Fits(p, StartOf(i, stack[..|stack| - 1]), top.recs[top.pos..][k])
  {
    var top := stack[|stack| - 1];
    forall k | 0 <= k < |top.recs[top.pos..]|
      ensures Fits(p, StartOf(i, stack[..|stack| - 1]), top.recs[top.pos..][k])
    {
      assert top.recs[top.pos..][k] in top.recs;
    }
  }

  /** Everything still to be reported once the top frame is next asked for a
      record: the rest of each frame's children's subtrees, top frame first. */
  ghost function Pending(p: Plan, i: nat, stack: seq<Frame>): seq<Record>
    requires Finite(p) && Linked(p, i, stack)
    decreases |stack|
  {
    if stack == [] then []
    else
      var below := stack[..|stack| - 1];
      var top := stack[|stack| - 1];
      LinkedFits(p, i, stack);
      Forest(p, StartOf(i, below), PathOf(below), top.recs[top.pos..]) + Pending(p, i, below)
  }

  /** An upper bound on the steps a walk of the subtree takes: one per frame
      it opens and two per record handed out. */
  ghost function Size(p: Plan, j: nat, vs: seq<Value>): nat
    requires Finite(p)
    decreases Rank(p, |vs|), Gap(p, j), 1, 0
  {
    if Below(p, |vs|) then 1 + ForestWork(p, j, vs, p.kids(|vs|, j)) else 0
  }

  ghost function ForestWork(p: Plan, j: nat, vs: seq<Value>, rs: seq<Record>): nat
    requires Finite(p) && Below(p, |vs|)
    requires forall k :: 0 <= k < |rs| ==> Fits(p, j, rs[k])
    decreases Rank(p, |vs|), Gap(p, j), 0, |rs|
  {
    if rs == [] then 0
    else
      assert Fits(p, j, rs[0]);
      2 + Size(p, rs[0].j, vs + [rs[0].v]) + ForestWork(p, j, vs, rs[1..])
  }

  /** The steps still to take for the frames on the stack. */
  ghost function Work(p: Plan, i: nat, stack: seq<Frame>): nat
    requires Finite(p) && Linked(p, i, stack)
    decreases |stack|
  {
    if stack == [] then 0
    else
      var below := stack[..|stack| - 1];
      var top := stack[|stack| - 1];
      LinkedFits(p, i, stack);
      1 + ForestWork(p, StartOf(i, below), PathOf(below), top.recs[top.pos..]) + Work(p, i, below)
  }

  /** Popping an exhausted top frame loses nothing still to be reported. */
  lemma PopStep(p: Plan, i: nat, stack: seq<Frame>)
    requires Finite(p) && Linked(p, i, stack) && stack != []
    requires stack[|stack| - 1].pos == |stack[|stack| - 1].recs|
    ensures Linked(p, i, stack[..|stack| - 1])
    ensures Pending(p, i, stack) == Pending(p, i, stack[..|stack| - 1])
    ensures Work(p, i, stack) == 1 + Work(p, i, stack[..|stack| - 1])
  {
  }

  /** Taking the top frame's next record makes that record's node the next
      thing to report: the node's subtree, then what was pending after it. */
  lemma AdvanceStep(p: Plan, i: nat, stack: seq<Frame>)
    requires Finite(p) && stack != [] && Linked(p, i, stack)
    requires stack[|stack| - 1].pos < |stack[|stack| - 1].recs|
    ensures var top := stack[|stack| - 1];
            var next := stack[|stack| - 1 := Frame(top.recs, top.pos + 1)];
            Linked(p, i, next) && Advanced(next)
            && StartOf(i, next) == top.recs[top.pos].j
            && PathOf(next) == PathOf(stack[..|stack| - 1]) + [top.recs[top.pos].v]
            && Pending(p, i, stack) == Tree(p, StartOf(i, next), PathOf(next)) + Pending(p, i, next)
            && Work(p, i, stack) == 2 + Size(p, StartOf(i, next), PathOf(next)) + Work(p, i, next)
  {
    var below := stack[..|stack| - 1];
    var top := stack[|stack| - 1];
    var next := stack[|stack| - 1 := Frame(top.recs, top.pos + 1)];
    assert next[..|next| - 1] == below;
    assert next[|next| - 1] == Frame(top.recs, top.pos + 1);
    assert Advanced(next) by {
      forall k | 0 <= k < |next| ensures Started(next[k]) {
        if k < |below| { assert next[k] == below[k]; }
      }
    }
    assert PathOf(next) == PathOf(below) + [top.recs[top.pos].v];
    var rs := top.recs[top.pos..];
    assert rs[0] == top.recs[top.pos];
    assert rs[1..] == top.recs[top.pos + 1..];
    LinkedFits(p, i, stack);
  }

  /** Opening a frame for the children of the node above the stack. */
  lemma PushStep(p: Plan, i: nat, stack: seq<Frame>)
    requires Finite(p) && Linked(p, i, stack) && Advanced(stack) && Below(p, |stack|)
    ensures var next := stack + [Frame(p.kids(|stack|, StartOf(i, stack)), 0)];
            Linked(p, i, next)
            && Pending(p, i, next)
               == Forest(p, StartOf(i, stack), PathOf(stack), p.kids(|stack|, StartOf(i, stack)))
                  + Pending(p, i, stack)
            && Work(p, i, next) == Size(p, StartOf(i, stack), PathOf(stack)) + Work(p, i, stack)
  {
    var next := stack + [Frame(p.kids(|stack|, StartOf(i, stack)), 0)];
    assert next[..|next| - 1] == stack;
    var top := next[|next| - 1];
    assert top.recs[top.pos..] == top.recs;
  }

  /** Advancing the top frame onto a node at the plan's fixed depth: that
      node is reported and nothing is pushed. */
  lemma EmitStep(p: Plan, i: nat, stack: seq<Frame>)
    requires Finite(p) && stack != [] && Linked(p, i, stack)
    requires stack[|stack| - 1].pos < |stack[|stack| - 1].recs|
    requires p.max == Some(|stack|) && p.min <= |stack|
    ensures var top := stack[|stack| - 1];
            var next := stack[|stack| - 1 := Frame(top.recs, top.pos + 1)];
            Linked(p, i, next) && Advanced(next)
            && Pending(p, i, stack) == [Record(top.recs[top.pos].j, List(PathOf(next)))] + Pending(p, i, next)
            && Work(p, i, next) < Work(p, i, stack)
  {
    AdvanceStep(p, i, stack);
  }

  /** Advancing the top frame onto a node that is not reported: the frame
      for its children is pushed. */
  lemma DescendStep(p: Plan, i: nat, stack: seq<Frame>)
    requires Finite(p) && stack != [] && Linked(p, i, stack)
    requires stack[|stack| - 1].pos < |stack[|stack| - 1].recs|
    requires |stack| < p.min && Below(p, |stack|)
    ensures var top := stack[|stack| - 1];
            var next := stack[|stack| - 1 := Frame(top.recs, top.pos + 1)];
            var deeper := next + [Frame(p.kids(|next|, top.recs[top.pos].j), 0)];
            Linked(p, i, deeper)
            && Pending(p, i, stack) == Pending(p, i, deeper)
            && Work(p, i, deeper) < Work(p, i, stack)
  {
    var top := stack[|stack| - 1];
    var next := stack[|stack| - 1 := Frame(top.recs, top.pos + 1)];
    var j := top.recs[top.pos].j;
    AdvanceStep(p, i, stack);
    var vs := PathOf(next);
    assert StartOf(i, next) == j && |vs| == |next| == |stack|;
    assert Tree(p, j, vs) == Forest(p, j, vs, p.kids(|next|, j));
    PushStep(p, i, next);
    var deeper := next + [Frame(p.kids(|next|, j), 0)];
    assert Pending(p, i, deeper) == Forest(p, j, vs, p.kids(|next|, j)) + Pending(p, i, next);
    assert Pending(p, i, stack) == Tree(p, j, vs) + Pending(p, i, next);
  }

  /** At the node the stack stands for: report it when it is deep enough,
      then open the frame for its children while the plan expands it. */
  lemma ExpandStep(p: Plan, i: nat, stack: seq<Frame>, report: seq<Record>, next: seq<Frame>)
    requires Finite(p) && Linked(p, i, stack) && Advanced(stack)
    requires report == if p.min <= |stack| then [Record(StartOf(i, stack), List(PathOf(stack)))] else []
    requires next == if Below(p, |stack|) then stack + [Frame(p.kids(|stack|, StartOf(i, stack)), 0)] else stack
    ensures Linked(p, i, next)
    ensures Tree(p, StartOf(i, stack), PathOf(stack)) + Pending(p, i, stack) == report + Pending(p, i, next)
    ensures Work(p, i, next) == Work(p, i, stack) + Size(p, StartOf(i, stack), PathOf(stack))
  {
    if Below(p, |stack|) {
      ExpandPush(p, i, stack, report, next);
    } else {
      TreeLeaf(p, StartOf(i, stack), PathOf(stack));
    }
  }

  /** A node at the plan's bound: only itself, and no steps below it. */
  lemma TreeLeaf(p: Plan, j: nat, vs: seq<Value>)
    requires Finite(p) && !Below(p, |vs|)
    ensures Tree(p, j, vs) == if p.min <= |vs| then [Record(j, List(vs))] else []
    ensures Size(p, j, vs) == 0
  {
  }

  lemma ExpandPush(p: Plan, i: nat, stack: seq<Frame>, report: seq<Record>, next: seq<Frame>)
    requires Finite(p) && Linked(p, i, stack) && Advanced(stack) && Below(p, |stack|)
    requires report == if p.min <= |stack| then [Record(StartOf(i, stack), List(PathOf(stack)))] else []
    requires next == stack + [Frame(p.kids(|stack|, StartOf(i, stack)), 0)]
    ensures Linked(p, i, next)
    ensures Tree(p, StartOf(i, stack), PathOf(stack)) + Pending(p, i, stack) == report + Pending(p, i, next)
    ensures Work(p, i, next) == Work(p, i, stack) + Size(p, StartOf(i, stack), PathOf(stack))
  {
    var j := StartOf(i, stack);
    var vs := PathOf(stack);
    TreeUnfold(p, j, vs);
    PushStep(p, i, stack);
    Splice(Tree(p, j, vs), report, Forest(p, j, vs, p.kids(|stack|, j)), Pending(p, i, stack), Pending(p, i, next));
  }

  /** A node's records ahead of what was pending are its own record ahead of
      its children's subtrees and what was pending. */
  lemma Splice(tree: seq<Record>, report: seq<Record>, forest: seq<Record>, before: seq<Record>, after: seq<Record>)
    requires tree == report + forest && after == forest + before
    ensures tree + before == report + after
  {
  }

  /** A node that the plan expands: itself when deep enough, then its children. */
  lemma TreeUnfold(p: Plan, j: nat, vs: seq<Value>)
    requires Finite(p) && Below(p, |vs|)
    ensures Tree(p, j, vs)
            == (if p.min <= |vs| then [Record(j, List(vs))] else []) + Forest(p, j, vs, p.kids(|vs|, j))
  {
  }

  /** A linked stack never holds more frames than the plan's bound. */
  lemma LinkedDepth(p: Plan, i: nat, stack: seq<Frame>)
    requires Linked(p, i, stack) && stack != []
    ensures Below(p, |stack| - 1)
  {
  }
}
