/**
  The measures of a reading: one contribution per piece of evidence, combined in a product of reducers. What
  comes out never depends on the order the evidence came in.
  Source: experiments/lift-harness/src/rung/Algebra.ts.
 */
module Measures {
  import opened CodeUnits
  import opened SortedTexts

  /** indeterminate is below v4 and pre-v4, and both are below mixed. */
  datatype Generation = Indeterminate | V4 | PreV4 | Mixed

  function Join(l: Generation, r: Generation): Generation {
    if l == r then l else if l.Indeterminate? then r else if r.Indeterminate? then l else Mixed
  }

  datatype Contribution = Contribution(
    constructHits: nat, portsIn: nat, portsOut: nat, wiringHits: nat,
    v4Only: seq<Text>, preV4: seq<Text>, legacyModules: seq<Text>, offUniverse: seq<Text>,
    generation: Generation)

  /** The carrier's invariant: the lists are sorted and without repetition. */
  predicate Valid(c: Contribution) {
    Ascends(c.v4Only) && Ascends(c.preV4) && Ascends(c.legacyModules) && Ascends(c.offUniverse)
  }

  const NOTHING := Contribution(0, 0, 0, 0, [], [], [], [], Indeterminate)

  // ---------------------------------------------------------------- sorted sets

  /** The union of two sorted lists, as a linear merge. */
  function Union(l: seq<Text>, r: seq<Text>): seq<Text>
    decreases |l| + |r|
  {
    if l == [] then r
    else if r == [] || Less(l[0], r[0]) then [l[0]] + Union(l[1..], r)
    else if Less(r[0], l[0]) then [r[0]] + Union(l, r[1..])
    else [l[0]] + Union(l[1..], r[1..])
  }

  /** As the source merges, moving two indices. */
  method MergeSorted(l: seq<Text>, r: seq<Text>) returns (out: seq<Text>)
    ensures out == Union(l, r)
  {
    out := [];
    var i, j := 0, 0;
    while i < |l| || j < |r|
      invariant i <= |l| && j <= |r| && out + Union(l[i..], r[j..]) == Union(l, r)
      decreases |l| - i + |r| - j
    {
      MergeStep(out, l, r, i, j);
      if j >= |r| || (i < |l| && Less(l[i], r[j])) {
        out, i := out + [l[i]], i + 1;
      } else if i >= |l| || Less(r[j], l[i]) {
        out, j := out + [r[j]], j + 1;
      } else {
        out, i, j := out + [l[i]], i + 1, j + 1;
      }
    }
  }

  lemma {:induction false} MergeStep(out: seq<Text>, l: seq<Text>, r: seq<Text>, i: nat, j: nat)
    requires i <= |l| && j <= |r| && (i < |l| || j < |r|)
    ensures out + Union(l[i..], r[j..]) ==
            if j >= |r| || (i < |l| && Less(l[i], r[j])) then out + [l[i]] + Union(l[i + 1..], r[j..])
            else if i >= |l| || Less(r[j], l[i]) then out + [r[j]] + Union(l[i..], r[j + 1..])
            else out + [l[i]] + Union(l[i + 1..], r[j + 1..])
  {
    assert i < |l| ==> l[i..][0] == l[i] && l[i..][1..] == l[i + 1..];
    assert j < |r| ==> r[j..][0] == r[j] && r[j..][1..] == r[j + 1..];
    if i >= |l| { UnionEmpty(r[j..]); UnionEmpty(r[j + 1..]); assert r[j..] == [r[j]] + r[j + 1..]; }
  }

  lemma {:induction false} UnionEmpty(r: seq<Text>)
    ensures Union([], r) == r
  {
  }

  predicate Below(x: Text, s: seq<Text>) {
    forall i :: 0 <= i < |s| ==> Less(x, s[i])
  }

  lemma {:induction false} Prepend(x: Text, u: seq<Text>)
    requires Ascends(u) && Below(x, u)
    ensures Ascends([x] + u) && Elems([x] + u) == Elems(u) + {x}
  {
  }

  lemma {:induction false} BelowList(x: Text, s: seq<Text>)
    requires Ascends(s) && (s != [] ==> Less(x, s[0]))
    ensures Below(x, s)
  {
    forall i | 0 <= i < |s| ensures Less(x, s[i]) {
      if i > 0 { LessTransitive(x, s[0], s[i]); }
    }
  }

  lemma {:induction false} BelowElems(x: Text, u: seq<Text>, a: seq<Text>, b: seq<Text>)
    requires Elems(u) == Elems(a) + Elems(b) && Below(x, a) && Below(x, b)
    ensures Below(x, u)
  {
    forall i | 0 <= i < |u| ensures Less(x, u[i]) {
      assert u[i] in Elems(u);
      if u[i] in Elems(a) {
        var k :| 0 <= k < |a| && a[k] == u[i];
      } else {
        var k :| 0 <= k < |b| && b[k] == u[i];
      }
    }
  }

  /** Taking the least head off one or both lists. */
  lemma {:induction false} UnionHead(x: Text, a: seq<Text>, b: seq<Text>)
    requires Ascends(Union(a, b)) && Elems(Union(a, b)) == Elems(a) + Elems(b) && Below(x, a) && Below(x, b)
    ensures Ascends([x] + Union(a, b)) && Elems([x] + Union(a, b)) == Elems(a) + Elems(b) + {x}
  {
    BelowElems(x, Union(a, b), a, b);
    Prepend(x, Union(a, b));
  }

  lemma {:induction false} OwnTail(s: seq<Text>)
    requires Ascends(s) && s != []
    ensures Ascends(s[1..]) && Below(s[0], s[1..]) && Elems(s) == Elems(s[1..]) + {s[0]}
  {
    TailElems(s);
  }

  /** A merge of sorted lists is the sorted list of the union. */
  lemma {:induction false} UnionIs(l: seq<Text>, r: seq<Text>)
    requires Ascends(l) && Ascends(r)
    ensures Ascends(Union(l, r)) && Elems(Union(l, r)) == Elems(l) + Elems(r)
    decreases |l| + |r|
  {
    if l == [] {
    } else if r == [] || Less(l[0], r[0]) {
      OwnTail(l);
      UnionIs(l[1..], r);
      BelowList(l[0], r);
      UnionHead(l[0], l[1..], r);
    } else if Less(r[0], l[0]) {
      OwnTail(r);
      UnionIs(l, r[1..]);
      BelowList(r[0], l);
      UnionHead(r[0], l, r[1..]);
    } else {
      LessTotal(l[0], r[0]);
      OwnTail(l);
      OwnTail(r);
      UnionIs(l[1..], r[1..]);
      UnionHead(l[0], l[1..], r[1..]);
    }
  }

  /** Union is commutative, associative and idempotent on sorted lists, with the empty list as identity. */
  lemma {:induction false} UnionLaws(a: seq<Text>, b: seq<Text>, c: seq<Text>)
    requires Ascends(a) && Ascends(b) && Ascends(c)
    ensures Union(a, b) == Union(b, a) && Union(a, a) == a && Union([], a) == a == Union(a, [])
    ensures Union(Union(a, b), c) == Union(a, Union(b, c))
  {
    UnionIs(a, b);
    UnionIs(b, a);
    UnionIs(a, a);
    UnionIs(a, []);
    UnionIs(b, c);
    UnionIs(Union(a, b), c);
    UnionIs(a, Union(b, c));
    AscendingListUnique(Union(a, b), Union(b, a));
    AscendingListUnique(Union(a, a), a);
    AscendingListUnique(Union(a, []), a);
    AscendingListUnique(Union(Union(a, b), c), Union(a, Union(b, c)));
  }

  // ---------------------------------------------------------------- the product

  function Combine(l: Contribution, r: Contribution): Contribution {
    Contribution(l.constructHits + r.constructHits, l.portsIn + r.portsIn, l.portsOut + r.portsOut,
                 l.wiringHits + r.wiringHits, Union(l.v4Only, r.v4Only), Union(l.preV4, r.preV4),
                 Union(l.legacyModules, r.legacyModules), Union(l.offUniverse, r.offUniverse),
                 Join(l.generation, r.generation))
  }

  lemma {:induction false} CombineValid(l: Contribution, r: Contribution)
    requires Valid(l) && Valid(r)
    ensures Valid(Combine(l, r))
  {
    UnionIs(l.v4Only, r.v4Only);
    UnionIs(l.preV4, r.preV4);
    UnionIs(l.legacyModules, r.legacyModules);
    UnionIs(l.offUniverse, r.offUniverse);
  }

  lemma {:induction false} CombineLaws(a: Contribution, b: Contribution, c: Contribution)
    requires Valid(a) && Valid(b) && Valid(c)
    ensures Combine(a, b) == Combine(b, a)
    ensures Combine(NOTHING, a) == a == Combine(a, NOTHING)
    ensures Combine(Combine(a, b), c) == Combine(a, Combine(b, c))
  {
    UnionLaws(a.v4Only, b.v4Only, c.v4Only);
    UnionLaws(a.preV4, b.preV4, c.preV4);
    UnionLaws(a.legacyModules, b.legacyModules, c.legacyModules);
    UnionLaws(a.offUniverse, b.offUniverse, c.offUniverse);
  }

  /** The reading: one combineAll over the evidence, from nothing, left to right. */
  function CombineAll(cs: seq<Contribution>): Contribution {
    if cs == [] then NOTHING else Combine(CombineAll(cs[..|cs| - 1]), cs[|cs| - 1])
  }

  predicate AllValid(cs: seq<Contribution>) {
    forall i :: 0 <= i < |cs| ==> Valid(cs[i])
  }

  lemma {:induction false} CombineAllValid(cs: seq<Contribution>)
    requires AllValid(cs)
    ensures Valid(CombineAll(cs))
  {
    if cs != [] {
      CombineAllValid(cs[..|cs| - 1]);
      CombineValid(CombineAll(cs[..|cs| - 1]), cs[|cs| - 1]);
    }
  }

  /** Splitting the evidence and combining the parts is combining the whole. */
  lemma {:induction false} SplitIsWhole(a: seq<Contribution>, b: seq<Contribution>)
    requires AllValid(a) && AllValid(b)
    ensures CombineAll(a + b) == Combine(CombineAll(a), CombineAll(b))
  {
    CombineAllValid(a);
    if b == [] {
      assert a + b == a;
      CombineLaws(CombineAll(a), NOTHING, NOTHING);
    } else {
      var front, last := b[..|b| - 1], b[|b| - 1];
      assert (a + b)[..|a + b| - 1] == a + front;
      SplitIsWhole(a, front);
      CombineAllValid(front);
      CombineLaws(CombineAll(a), CombineAll(front), last);
    }
  }

  /** Evidence in another order combines to the same. */
  lemma {:induction false} OrderNeverShows(cs: seq<Contribution>, others: seq<Contribution>)
    requires AllValid(cs) && multiset(cs) == multiset(others)
    ensures CombineAll(cs) == CombineAll(others)
    decreases |cs|
  {
    if cs == [] {
      assert |multiset(others)| == 0;
    } else {
      var front, last := cs[..|cs| - 1], cs[|cs| - 1];
      assert cs == front + [last];
      assert last in multiset(others);
      var j :| 0 <= j < |others| && others[j] == last;
      SameMembers(cs, others);
      WithoutOne(front, last, others, j);
      OrderNeverShows(front, others[..j] + others[j + 1..]);
      MoveLast(others[..j], last, others[j + 1..]);
    }
  }

  lemma {:induction false} WithoutOne(front: seq<Contribution>, last: Contribution, others: seq<Contribution>, j: nat)
    requires j < |others| && others[j] == last && multiset(front + [last]) == multiset(others)
    ensures others == others[..j] + [last] + others[j + 1..]
    ensures multiset(front) == multiset(others[..j] + others[j + 1..])
  {
    var a, b := others[..j], others[j + 1..];
    assert others == a + [last] + b;
    assert multiset(others) == multiset(a) + multiset{last} + multiset(b);
    assert multiset(front) == multiset(front + [last]) - multiset{last};
  }

  lemma {:induction false} SameMembers(cs: seq<Contribution>, others: seq<Contribution>)
    requires AllValid(cs) && multiset(cs) == multiset(others)
    ensures AllValid(others)
  {
    forall i | 0 <= i < |others| ensures Valid(others[i]) {
      assert others[i] in multiset(cs);
      var k :| 0 <= k < |cs| && cs[k] == others[i];
    }
  }

  lemma {:induction false} MoveLast(a: seq<Contribution>, x: Contribution, b: seq<Contribution>)
    requires AllValid(a + [x] + b)
    ensures CombineAll(a + [x] + b) == Combine(CombineAll(a + b), x)
  {
    var all := a + [x] + b;
    assert AllValid(a) by { forall i | 0 <= i < |a| ensures Valid(a[i]) { assert all[i] == a[i]; } }
    assert AllValid(b) by { forall i | 0 <= i < |b| ensures Valid(b[i]) { assert all[|a| + 1 + i] == b[i]; } }
    assert all[|a|] == x;
    var ca, cb := CombineAll(a), CombineAll(b);
    CombineAllValid(a);
    CombineAllValid(b);
    SplitIsWhole(a, b);
    SplitIsWhole(a + [x], b);
    assert (a + [x])[..|a|] == a;
    CombineLaws(ca, x, cb);
    CombineLaws(ca, cb, x);
    CombineLaws(cb, x, x);
  }

  // ---------------------------------------------------------------- what the totals say

  function Counts(c: Contribution): (r: seq<nat>)
    ensures |r| == 4
  {
    [c.constructHits, c.portsIn, c.portsOut, c.wiringHits]
  }

  function Lists(c: Contribution): (r: seq<seq<Text>>)
    ensures |r| == 4
  {
    [c.v4Only, c.preV4, c.legacyModules, c.offUniverse]
  }

  /** The k-th count, over all the evidence. */
  function Total(cs: seq<Contribution>, k: nat): nat
    requires k < 4
  {
    if cs == [] then 0 else Counts(cs[0])[k] + Total(cs[1..], k)
  }

  /** Some piece of evidence shows this generation, alone or beside the other. */
  ghost predicate Shows(cs: seq<Contribution>, g: Generation) {
    exists i :: 0 <= i < |cs| && (cs[i].generation == g || cs[i].generation.Mixed?)
  }

  ghost predicate Listed(cs: seq<Contribution>, k: nat, t: Text)
    requires k < 4
  {
    exists i :: 0 <= i < |cs| && t in Lists(cs[i])[k]
  }

  /** Every list holds what some piece of evidence lists. */
  ghost predicate ListsAll(cs: seq<Contribution>, c: Contribution) {
    forall k, t :: 0 <= k < 4 ==> (t in Lists(c)[k] <==> Listed(cs, k, t))
  }

  /** Mixed exactly when both generations were shown, and otherwise the one that was. */
  ghost predicate ShowsAll(cs: seq<Contribution>, g: Generation) {
    g == if Shows(cs, V4) then if Shows(cs, PreV4) then Mixed else V4
         else if Shows(cs, PreV4) then PreV4 else Indeterminate
  }

  lemma {:induction false} TotalLast(cs: seq<Contribution>, k: nat)
    requires k < 4 && cs != []
    ensures Total(cs, k) == Total(cs[..|cs| - 1], k) + Counts(cs[|cs| - 1])[k]
  {
    if |cs| > 1 {
      TotalLast(cs[1..], k);
      assert cs[1..][..|cs[1..]| - 1] == cs[..|cs| - 1][1..];
    }
  }

  lemma {:induction false} ListedLast(cs: seq<Contribution>, k: nat, t: Text)
    requires k < 4 && cs != []
    ensures Listed(cs, k, t) <==> Listed(cs[..|cs| - 1], k, t) || t in Lists(cs[|cs| - 1])[k]
  {
    if Listed(cs[..|cs| - 1], k, t) {
      var i :| 0 <= i < |cs| - 1 && t in Lists(cs[..|cs| - 1][i])[k];
      assert cs[i] == cs[..|cs| - 1][i];
    }
    if Listed(cs, k, t) {
      var i :| 0 <= i < |cs| && t in Lists(cs[i])[k];
      if i < |cs| - 1 { assert cs[..|cs| - 1][i] == cs[i]; }
    }
  }

  lemma {:induction false} ShowsLast(cs: seq<Contribution>, g: Generation)
    requires cs != []
    ensures Shows(cs, g) <==>
            Shows(cs[..|cs| - 1], g) || cs[|cs| - 1].generation == g || cs[|cs| - 1].generation.Mixed?
  {
    var front := cs[..|cs| - 1];
    if Shows(front, g) {
      var i :| 0 <= i < |front| && (front[i].generation == g || front[i].generation.Mixed?);
      assert cs[i] == front[i];
    }
    if Shows(cs, g) {
      var i :| 0 <= i < |cs| && (cs[i].generation == g || cs[i].generation.Mixed?);
      if i < |cs| - 1 { assert front[i] == cs[i]; }
    }
  }

  lemma {:induction false} CombineLists(l: Contribution, r: Contribution, k: nat, t: Text)
    requires Valid(l) && Valid(r) && k < 4
    ensures t in Lists(Combine(l, r))[k] <==> t in Lists(l)[k] || t in Lists(r)[k]
  {
    var a, b := Lists(l)[k], Lists(r)[k];
    UnionIs(a, b);
    assert Lists(Combine(l, r))[k] == Union(a, b);
    assert t in Union(a, b) <==> t in Elems(Union(a, b));
  }

  lemma {:induction false} CountsAreTotals(cs: seq<Contribution>, k: nat)
    requires k < 4
    ensures Counts(CombineAll(cs))[k] == Total(cs, k)
  {
    if cs != [] {
      CountsAreTotals(cs[..|cs| - 1], k);
      TotalLast(cs, k);
    }
  }

  lemma {:induction false} ListsAreUnions(cs: seq<Contribution>, k: nat, t: Text)
    requires AllValid(cs) && k < 4
    ensures t in Lists(CombineAll(cs))[k] <==> Listed(cs, k, t)
  {
    if cs != [] {
      var front, last := cs[..|cs| - 1], cs[|cs| - 1];
      ListsAreUnions(front, k, t);
      CombineAllValid(front);
      ListedLast(cs, k, t);
      CombineLists(CombineAll(front), last, k, t);
    }
  }

  lemma {:induction false} GenerationShown(cs: seq<Contribution>)
    ensures ShowsAll(cs, CombineAll(cs).generation)
  {
    if cs != [] {
      GenerationShown(cs[..|cs| - 1]);
      ShowsLast(cs, V4);
      ShowsLast(cs, PreV4);
    }
  }

  /** What the totals of a reading are: every count is the sum of the evidence's counts, every list the sorted
      union of its lists, and the generation mixed exactly when both kinds of evidence occur. */
  lemma {:induction false} TotalsExactly(cs: seq<Contribution>)
    requires AllValid(cs)
    ensures var all := CombineAll(cs);
            && (forall k :: 0 <= k < 4 ==> Counts(all)[k] == Total(cs, k))
            && Valid(all) && ListsAll(cs, all) && ShowsAll(cs, all.generation)
  {
    CombineAllValid(cs);
    forall k | 0 <= k < 4 ensures Counts(CombineAll(cs))[k] == Total(cs, k) { CountsAreTotals(cs, k); }
    forall k, t | 0 <= k < 4 ensures t in Lists(CombineAll(cs))[k] <==> Listed(cs, k, t) { ListsAreUnions(cs, k, t); }
    GenerationShown(cs);
  }
}
