/**
  Splitting a path list into batches whose joined length stays under a budget.
  Source: experiments/lift-harness/src/gate.ts, chunk.
 */
module Batching {
  import opened CodeUnits

  function Cost(batch: seq<Text>): nat {
    if batch == [] then 0 else Cost(batch[..|batch| - 1]) + |batch[|batch| - 1]| + 1
  }

  function Concat(parts: seq<seq<Text>>): seq<Text> {
    if parts == [] then [] else parts[0] + Concat(parts[1..])
  }

  /** The batches still to be produced, the current one being cur. */
  function Batches(files: seq<Text>, cur: seq<Text>, budget: int): seq<seq<Text>> {
    if files == [] then
      if cur == [] then [] else [cur]
    else if cur != [] && Cost(cur) + |files[0]| + 1 > budget then
      [cur] + Batches(files[1..], [files[0]], budget)
    else Batches(files[1..], cur + [files[0]], budget)
  }

  lemma {:induction false} CostGrows(cur: seq<Text>, f: Text)
    ensures Cost(cur + [f]) == Cost(cur) + |f| + 1
  {
    assert (cur + [f])[..|cur|] == cur;
  }

  /** As the source runs it: one pass, closing a batch when the next path would exceed the budget. */
  method Chunk(files: seq<Text>, budget: int) returns (out: seq<seq<Text>>)
    ensures out == Batches(files, [], budget)
  {
    out := [];
    var cur: seq<Text>, len: nat := [], 0;
    for i := 0 to |files|
      invariant len == Cost(cur)
      invariant out + Batches(files[i..], cur, budget) == Batches(files, [], budget)
    {
      var f := files[i];
      assert files[i..][0] == f && files[i..][1..] == files[i + 1..];
      if cur != [] && len + |f| + 1 > budget {
        assert out + ([cur] + Batches(files[i + 1..], [f], budget)) ==
               out + [cur] + Batches(files[i + 1..], [f], budget);
        out, cur, len := out + [cur], [], 0;
      }
      CostGrows(cur, f);
      assert [] + [f] == [f];
      cur, len := cur + [f], len + |f| + 1;
    }
    if cur != [] { out := out + [cur]; }
  }

  // ---------------------------------------------------------------- lossless, within budget

  /** What chunk promises of each batch. */
  predicate WithinBudget(batch: seq<Text>, budget: int) {
    batch != [] && (|batch| >= 2 ==> Cost(batch) <= budget)
  }

  lemma {:induction false} BatchesLossless(files: seq<Text>, cur: seq<Text>, budget: int)
    requires cur == [] || WithinBudget(cur, budget)
    ensures Concat(Batches(files, cur, budget)) == cur + files
    ensures forall k :: 0 <= k < |Batches(files, cur, budget)| ==> WithinBudget(Batches(files, cur, budget)[k], budget)
  {
    if files == [] {
      assert cur + files == cur;
      if cur != [] { assert Concat([cur]) == cur; }
    } else {
      var f, rest := files[0], files[1..];
      Shift(cur, f, rest, files);
      CostGrows(cur, f);
      if cur != [] && Cost(cur) + |f| + 1 > budget {
        BatchesLossless(rest, [f], budget);
        ConcatCons(cur, Batches(rest, [f], budget));
      } else {
        BatchesLossless(rest, cur + [f], budget);
      }
    }
  }

  lemma {:induction false} Shift(cur: seq<Text>, f: Text, rest: seq<Text>, files: seq<Text>)
    requires files == [f] + rest
    ensures cur + files == cur + [f] + rest == cur + ([f] + rest)
  {
  }

  lemma {:induction false} ConcatCons(cur: seq<Text>, more: seq<seq<Text>>)
    ensures Concat([cur] + more) == cur + Concat(more)
  {
    assert ([cur] + more)[1..] == more;
  }

  /** Nothing is lost, reordered or repeated; no batch is empty; and a batch of several paths is within
      budget. A single path over the budget travels alone. */
  lemma {:induction false} ChunkLossless(files: seq<Text>, budget: int)
    ensures Concat(Batches(files, [], budget)) == files
    ensures forall k :: 0 <= k < |Batches(files, [], budget)| ==> WithinBudget(Batches(files, [], budget)[k], budget)
  {
    BatchesLossless(files, [], budget);
    assert [] + files == files;
  }

  // ---------------------------------------------------------------- which split it is

  /** Each batch is closed only because the path after it no longer fits. */
  ghost predicate Greedy(parts: seq<seq<Text>>, budget: int) {
    |parts| >= 2 ==>
      parts[1] != [] && Cost(parts[0] + [parts[1][0]]) > budget && Greedy(parts[1..], budget)
  }

  ghost predicate AllWithin(parts: seq<seq<Text>>, budget: int) {
    forall k :: 0 <= k < |parts| ==> WithinBudget(parts[k], budget)
  }

  lemma {:induction false} BatchesGreedy(files: seq<Text>, cur: seq<Text>, budget: int)
    ensures Greedy(Batches(files, cur, budget), budget)
    ensures cur != [] ==> Batches(files, cur, budget) != [] && cur <= Batches(files, cur, budget)[0]
  {
    if files != [] {
      var f := files[0];
      CostGrows(cur, f);
      if cur != [] && Cost(cur) + |f| + 1 > budget {
        BatchesGreedy(files[1..], [f], budget);
        var more := Batches(files[1..], [f], budget);
        assert ([cur] + more)[1..] == more && more[0][0] == f;
      } else {
        BatchesGreedy(files[1..], cur + [f], budget);
      }
    }
  }

  lemma {:induction false} TailGreedy(parts: seq<seq<Text>>, budget: int)
    requires parts != [] && AllWithin(parts, budget) && Greedy(parts, budget)
    ensures AllWithin(parts[1..], budget) && Greedy(parts[1..], budget)
    ensures Concat(parts) == parts[0] + Concat(parts[1..])
  {
    var rest := parts[1..];
    forall k | 0 <= k < |rest| ensures WithinBudget(rest[k], budget) { assert rest[k] == parts[k + 1]; }
  }

  /** The first batches of two such splits of one list are one batch. */
  lemma {:induction false} FirstNotLonger(a: seq<seq<Text>>, b: seq<seq<Text>>, budget: int)
    requires a != [] && b != [] && Concat(a) == Concat(b)
    requires AllWithin(a, budget) && Greedy(a, budget) && AllWithin(b, budget)
    ensures |b[0]| <= |a[0]|
  {
    var x, y, all := a[0], b[0], Concat(a);
    assert x == all[..|x|] && y == all[..|y|];
    LongerCosts(all, |x| + 1, |y|);
    if |a| == 1 {
      assert Concat(a[1..]) == [];
    } else {
      assert Concat(a[1..]) == a[1] + Concat(a[1..][1..]);
      assert all[..|x| + 1] == x + [a[1][0]];
    }
  }

  lemma {:induction false} LongerCosts(all: seq<Text>, n: nat, m: nat)
    ensures n <= m <= |all| ==> Cost(all[..n]) <= Cost(all[..m])
  {
    if n <= m <= |all| { CostOfPrefixes(all, n, m); }
  }

  lemma {:induction false} NothingSplits(parts: seq<seq<Text>>, budget: int)
    requires AllWithin(parts, budget)
    ensures Concat(parts) == [] <==> parts == []
  {
    if parts != [] { assert WithinBudget(parts[0], budget); }
  }

  /** The batches are the only split of the list that is lossless, within budget and greedy. */
  lemma {:induction false} GreedyUnique(a: seq<seq<Text>>, b: seq<seq<Text>>, budget: int)
    requires Concat(a) == Concat(b)
    requires AllWithin(a, budget) && Greedy(a, budget) && AllWithin(b, budget) && Greedy(b, budget)
    ensures a == b
  {
    NothingSplits(a, budget);
    NothingSplits(b, budget);
    if a != [] {
      FirstNotLonger(a, b, budget);
      FirstNotLonger(b, a, budget);
      TailGreedy(a, budget);
      TailGreedy(b, budget);
      assert a[0] == Concat(a)[..|a[0]|] && b[0] == Concat(b)[..|b[0]|];
      assert Concat(a[1..]) == Concat(a)[|a[0]|..] && Concat(b[1..]) == Concat(b)[|b[0]|..];
      GreedyUnique(a[1..], b[1..], budget);
      assert a == [a[0]] + a[1..] && b == [b[0]] + b[1..];
    }
  }

  /** Chunk answers a split exactly when it loses nothing, keeps the budget and closes no batch early. */
  lemma {:induction false} ChunkExactly(files: seq<Text>, budget: int, parts: seq<seq<Text>>)
    ensures parts == Batches(files, [], budget) <==>
            Concat(parts) == files && AllWithin(parts, budget) && Greedy(parts, budget)
  {
    ChunkLossless(files, budget);
    BatchesGreedy(files, [], budget);
    if Concat(parts) == files && AllWithin(parts, budget) && Greedy(parts, budget) {
      GreedyUnique(parts, Batches(files, [], budget), budget);
    }
  }

  // ---------------------------------------------------------------- no split does better

  /** A split into parts that all fit, empty parts allowed. */
  ghost predicate Fits(parts: seq<seq<Text>>, budget: int) {
    forall k :: 0 <= k < |parts| ==> Cost(parts[k]) <= budget
  }

  lemma {:induction false} CostOfPrefix(a: seq<Text>, n: nat)
    requires n <= |a|
    ensures Cost(a[..n]) <= Cost(a)
    decreases |a|
  {
    if n < |a| {
      CostOfPrefix(a[..|a| - 1], n);
      assert a[..|a| - 1][..n] == a[..n];
    } else {
      assert a[..n] == a;
    }
  }

  lemma {:induction false} CostOfPrefixes(all: seq<Text>, n: nat, m: nat)
    requires n <= m <= |all|
    ensures Cost(all[..n]) <= Cost(all[..m])
  {
    assert all[..m][..n] == all[..n];
    CostOfPrefix(all[..m], n);
  }

  lemma {:induction false} CostOfSuffix(a: seq<Text>, n: nat)
    requires n <= |a|
    ensures Cost(a[n..]) <= Cost(a)
    decreases |a|
  {
    if n < |a| {
      CostOfSuffix(a[..|a| - 1], n);
      assert a[n..][..|a[n..]| - 1] == a[..|a| - 1][n..];
    }
  }

  /** Leave out the first n paths of a split. */
  function DropPaths(parts: seq<seq<Text>>, n: nat): seq<seq<Text>>
    requires n <= |Concat(parts)|
  {
    if parts == [] then []
    else if n <= |parts[0]| then [parts[0][n..]] + parts[1..]
    else DropPaths(parts[1..], n - |parts[0]|)
  }

  lemma {:induction false} DropPathsSplits(parts: seq<seq<Text>>, n: nat, budget: int)
    requires n <= |Concat(parts)| && Fits(parts, budget)
    ensures Concat(DropPaths(parts, n)) == Concat(parts)[n..]
    ensures Fits(DropPaths(parts, n), budget) && |DropPaths(parts, n)| <= |parts|
  {
    if parts != [] {
      if n <= |parts[0]| {
        CostOfSuffix(parts[0], n);
        assert ([parts[0][n..]] + parts[1..])[1..] == parts[1..];
        assert Concat(parts)[n..] == parts[0][n..] + Concat(parts[1..]);
      } else {
        DropPathsSplits(parts[1..], n - |parts[0]|, budget);
        assert Concat(parts)[n..] == Concat(parts[1..])[n - |parts[0]|..];
      }
    }
  }

  /** However the current batch and what follows are split within budget, as many parts are needed. */
  lemma {:induction false} BatchesFewest(files: seq<Text>, cur: seq<Text>, budget: int, parts: seq<seq<Text>>)
    requires Concat(parts) == cur + files && Fits(parts, budget)
    ensures |Batches(files, cur, budget)| <= |parts|
    decreases |files|
  {
    if files != [] {
      var f, rest := files[0], files[1..];
      CostGrows(cur, f);
      if cur != [] && Cost(cur) + |f| + 1 > budget {
        var first := parts[0];
        var all := cur + files;
        assert first == all[..|first|] && all[..|cur| + 1] == cur + [f];
        if |cur| + 1 <= |first| { CostOfPrefixes(all, |cur| + 1, |first|); }
        var left := |cur| - |first|;
        assert Concat(parts[1..]) == all[|first|..];
        DropPathsSplits(parts[1..], left, budget);
        assert all[|first|..][left..] == files == [f] + rest;
        BatchesFewest(rest, [f], budget, DropPaths(parts[1..], left));
      } else {
        assert cur + [f] + rest == cur + files;
        BatchesFewest(rest, cur + [f], budget, parts);
      }
    }
  }

  /** When every path fits, the batches all fit and no order-preserving split within budget uses fewer. */
  lemma {:induction false} ChunkOptimal(files: seq<Text>, budget: int, parts: seq<seq<Text>>)
    requires Concat(parts) == files && Fits(parts, budget)
    requires forall i :: 0 <= i < |files| ==> |files[i]| + 1 <= budget
    ensures Fits(Batches(files, [], budget), budget)
    ensures |Batches(files, [], budget)| <= |parts|
  {
    assert [] + files == files;
    BatchesFewest(files, [], budget, parts);
    ChunkLossless(files, budget);
    var out := Batches(files, [], budget);
    forall k | 0 <= k < |out| ensures Cost(out[k]) <= budget {
      if |out[k]| == 1 {
        var i := InConcat(out, k);
        SoloCost(out[k], files[i]);
      }
    }
  }

  lemma {:induction false} SoloCost(batch: seq<Text>, f: Text)
    requires |batch| == 1 && batch[0] == f
    ensures Cost(batch) == |f| + 1
  {
    assert batch[..0] == [];
  }

  lemma {:induction false} InConcat(parts: seq<seq<Text>>, k: nat) returns (i: nat)
    requires k < |parts| && |parts[k]| == 1
    ensures i < |Concat(parts)| && Concat(parts)[i] == parts[k][0]
  {
    if k == 0 {
      i := 0;
    } else {
      var j := InConcat(parts[1..], k - 1);
      i := |parts[0]| + j;
    }
  }
}
