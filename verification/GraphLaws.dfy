/**
  What the order of the module graph means: imports go forward, the cycles are exactly what an import cycle
  reaches, and the order depends on nothing but the files and who imports whom.
 */
module GraphLaws {
  import opened CodeUnits
  import opened SortedTexts
  import opened Graph

  // ---------------------------------------------------------------- forward imports

  /** Every importer of an emitted file is emitted before it. */
  lemma {:induction false} ImporterEarlier(files: seq<File>, order: seq<Path>, k: nat, p: Path) returns (j: nat)
    requires Greedy(files, order) && k < |order| && Imports(files, p, order[k])
    ensures j < k && order[j] == p
  {
    assert LeastReady(files, Elems(order[..k]), order[k]);
    assert p in Elems(order[..k]);
    j :| 0 <= j < |order[..k]| && order[..k][j] == p;
  }

  /** Between emitted files every import goes forward. */
  lemma {:induction false} ImportsForward(files: seq<File>, order: seq<Path>, i: nat, k: nat)
    requires Greedy(files, order) && Distinct(order) && i < |order| && k < |order|
    requires Imports(files, order[i], order[k])
    ensures i < k
  {
    var j := ImporterEarlier(files, order, k, order[i]);
  }

  /** The whole order, cycles appended, is each file once. */
  lemma {:induction false} OrderIsPermutation(files: seq<File>, prefix: seq<Path>, cycles: seq<Path>)
    requires Ordered(files, prefix, cycles)
    ensures Distinct(prefix + cycles) && Elems(prefix + cycles) == Paths(files)
  {
    var order := prefix + cycles;
    forall i, j | 0 <= i < j < |order| ensures order[i] != order[j] {
      if i >= |prefix| {
        LessTotal(order[i], order[j]);
      } else if j >= |prefix| {
        assert order[i] in Elems(prefix) && order[j] in Elems(cycles);
      }
    }
    forall d ensures d in Elems(order) <==> d in Elems(prefix) + Elems(cycles) {
    }
  }

  // ---------------------------------------------------------------- cycles

  /** Each path imports the next. */
  ghost predicate IsWalk(files: seq<File>, w: seq<Path>) {
    w != [] && forall i :: 0 <= i < |w| - 1 ==> Step(files, w, i)
  }

  ghost predicate Step(files: seq<File>, w: seq<Path>, i: nat)
    requires i + 1 < |w|
  {
    Imports(files, w[i], w[i + 1])
  }

  /** A walk of one import or more that comes back. */
  ghost predicate IsCycle(files: seq<File>, w: seq<Path>) {
    IsWalk(files, w) && |w| >= 2 && w[0] == w[|w| - 1]
  }

  /** A file reached, by imports, from a file on an import cycle. */
  ghost predicate FromCycle(files: seq<File>, d: Path) {
    exists c, w :: IsCycle(files, c) && Reaches(files, w, c[0], d)
  }

  ghost predicate Reaches(files: seq<File>, w: seq<Path>, a: Path, b: Path) {
    IsWalk(files, w) && w[0] == a && w[|w| - 1] == b
  }

  /** A walk into an emitted file was emitted in the order it is walked. */
  lemma {:induction false} WalkEmitted(files: seq<File>, order: seq<Path>, w: seq<Path>, k: nat) returns (j: nat)
    requires Greedy(files, order) && IsWalk(files, w) && k < |order| && order[k] == w[|w| - 1]
    ensures j < |order| && order[j] == w[0] && j + |w| - 1 <= k
    decreases |w|
  {
    if |w| == 1 {
      j := k;
    } else {
      var n := |w| - 1;
      assert Step(files, w, n - 1);
      var k' := ImporterEarlier(files, order, k, w[n - 1]);
      var front := w[..n];
      forall i | 0 <= i < |front| - 1 ensures Step(files, front, i) { assert Step(files, w, i); }
      j := WalkEmitted(files, order, front, k');
    }
  }

  /** So nothing a cycle reaches is emitted. */
  lemma {:induction false} CycleNotEmitted(files: seq<File>, order: seq<Path>, d: Path)
    requires Greedy(files, order) && Distinct(order) && FromCycle(files, d)
    ensures d !in order
  {
    var c, w :| IsCycle(files, c) && Reaches(files, w, c[0], d);
    if d in order {
      var k :| 0 <= k < |order| && order[k] == d;
      var j := WalkEmitted(files, order, w, k);
      var i := WalkEmitted(files, order, c, j);
    }
  }

  /** What is left over always has an importer that is left over. */
  lemma {:induction false} LeftImporter(files: seq<File>, order: seq<Path>, d: Path) returns (p: Path)
    requires Exhausted(files, order) && d in Paths(files) && d !in order
    ensures Imports(files, p, d) && p in Paths(files) && p !in order
  {
    assert !Ready(files, Elems(order), d);
    p :| Imports(files, p, d) && p !in Elems(order);
    var i :| 0 <= i < |files| && files[i].path == p && d in files[i].imports;
    assert files[i] in files;
  }

  /** Walking back from a file left over can go on as long as one likes. */
  lemma {:induction false} BackWalk(files: seq<File>, order: seq<Path>, d: Path, n: nat) returns (w: seq<Path>)
    requires Exhausted(files, order) && d in Paths(files) && d !in order
    ensures IsWalk(files, w) && |w| == n + 1 && w[n] == d
    ensures forall i :: 0 <= i < |w| ==> w[i] in Paths(files) - Elems(order)
  {
    if n == 0 {
      w := [d];
    } else {
      var rest := BackWalk(files, order, d, n - 1);
      var p := LeftImporter(files, order, rest[0]);
      w := [p] + rest;
      forall i | 0 <= i < |w| - 1 ensures Step(files, w, i) {
        if i > 0 { assert Step(files, rest, i - 1); }
      }
    }
  }

  lemma {:induction false} DistinctSize(w: seq<Path>)
    requires Distinct(w)
    ensures |Elems(w)| == |w|
  {
    if w != [] {
      var front := w[..|w| - 1];
      DistinctSize(front);
      assert w == front + [w[|w| - 1]];
      AppendElems(front, w[|w| - 1]);
      assert w[|w| - 1] !in Elems(front);
    }
  }

  lemma {:induction false} SubsetSize(a: set<Path>, b: set<Path>)
    requires a <= b
    ensures |a| <= |b|
  {
    assert b == a + (b - a);
  }

  /** More places than paths: one stands twice. */
  lemma {:induction false} Repeats(w: seq<Path>, u: set<Path>) returns (i: nat, j: nat)
    requires |w| > |u| && forall k :: 0 <= k < |w| ==> w[k] in u
    ensures i < j < |w| && w[i] == w[j]
  {
    if Distinct(w) {
      DistinctSize(w);
      SubsetSize(Elems(w), u);
      assert false;
    }
    i, j :| 0 <= i < j < |w| && w[i] == w[j];
  }

  lemma {:induction false} PartWalk(files: seq<File>, w: seq<Path>, i: nat, j: nat)
    requires IsWalk(files, w) && i < j <= |w|
    ensures IsWalk(files, w[i..j])
  {
    var part := w[i..j];
    forall k | 0 <= k < |part| - 1 ensures Step(files, part, k) {
      assert Step(files, w, i + k);
    }
  }

  /** So everything left over is reached from a cycle. */
  lemma {:induction false} LeftFromCycle(files: seq<File>, order: seq<Path>, d: Path)
    requires Exhausted(files, order) && d in Paths(files) && d !in order
    ensures FromCycle(files, d)
  {
    var u := Paths(files) - Elems(order);
    var w := BackWalk(files, order, d, |u|);
    var i, j := Repeats(w, u);
    PartWalk(files, w, i, j + 1);
    PartWalk(files, w, i, |w|);
    var c, rest := w[i..j + 1], w[i..];
    assert w[i..|w|] == rest;
    assert IsCycle(files, c) && Reaches(files, rest, c[0], d);
  }

  /** The cycles of the graph are exactly the files that an import cycle reaches. */
  lemma {:induction false} CyclesExact(files: seq<File>, prefix: seq<Path>, cycles: seq<Path>, d: Path)
    requires Ordered(files, prefix, cycles) && d in Paths(files)
    ensures d in cycles <==> FromCycle(files, d)
  {
    assert d in cycles <==> d in Elems(cycles);
    if d in prefix {
      assert d in Elems(prefix);
      if FromCycle(files, d) { CycleNotEmitted(files, prefix, d); }
    } else {
      LeftFromCycle(files, prefix, d);
    }
  }

  // ---------------------------------------------------------------- the order is the least, and the only one

  /** The same files, importing one another alike: listed in another order, or with imports repeated. */
  ghost predicate SameGraph(files: seq<File>, others: seq<File>) {
    Paths(files) == Paths(others) && forall p, d :: Imports(files, p, d) <==> Imports(others, p, d)
  }

  lemma {:induction false} SameReady(files: seq<File>, others: seq<File>, done: set<Path>, d: Path)
    requires SameGraph(files, others)
    ensures Ready(files, done, d) <==> Ready(others, done, d)
  {
  }

  lemma {:induction false} SameLeast(files: seq<File>, others: seq<File>, done: set<Path>, x: Path, y: Path)
    requires SameGraph(files, others) && LeastReady(files, done, x) && LeastReady(others, done, y)
    ensures x == y
  {
    SameReady(files, others, done, x);
    SameReady(files, others, done, y);
    LessTotal(x, y);
  }

  lemma {:induction false} SamePrefix(files: seq<File>, others: seq<File>, a: seq<Path>, b: seq<Path>, k: nat)
    requires SameGraph(files, others) && Greedy(files, a) && Greedy(others, b) && k <= |a| && k <= |b|
    ensures a[..k] == b[..k]
  {
    if k > 0 {
      SamePrefix(files, others, a, b, k - 1);
      assert LeastReady(files, Elems(a[..k - 1]), a[k - 1]) && LeastReady(others, Elems(b[..k - 1]), b[k - 1]);
      SameLeast(files, others, Elems(a[..k - 1]), a[k - 1], b[k - 1]);
      assert a[..k] == a[..k - 1] + [a[k - 1]] && b[..k] == b[..k - 1] + [b[k - 1]];
    }
  }

  /** One greedy order does not go on where the other is exhausted. */
  lemma {:induction false} NoLonger(files: seq<File>, others: seq<File>, a: seq<Path>, b: seq<Path>)
    requires SameGraph(files, others) && Greedy(files, a) && Greedy(others, b) && Exhausted(others, b)
    ensures |a| <= |b|
  {
    if |b| < |a| {
      SamePrefix(files, others, a, b, |b|);
      assert b[..|b|] == b;
      assert LeastReady(files, Elems(a[..|b|]), a[|b|]);
      SameReady(files, others, Elems(b), a[|b|]);
    }
  }

  /** The order is a function of the graph: neither the order the files come in nor repeated imports show. */
  lemma {:induction false} OrderUnique(files: seq<File>, prefix: seq<Path>, cycles: seq<Path>,
                                       others: seq<File>, prefix': seq<Path>, cycles': seq<Path>)
    requires SameGraph(files, others) && Ordered(files, prefix, cycles) && Ordered(others, prefix', cycles')
    ensures prefix == prefix' && cycles == cycles'
  {
    NoLonger(files, others, prefix, prefix');
    NoLonger(others, files, prefix', prefix);
    SamePrefix(files, others, prefix, prefix', |prefix|);
    assert prefix[..|prefix|] == prefix && prefix'[..|prefix'|] == prefix';
    AscendingListUnique(cycles, cycles');
  }

  /** An importers-first order, greedy or not. */
  ghost predicate ImportersFirst(files: seq<File>, t: seq<Path>) {
    forall k :: 0 <= k < |t| ==> Ready(files, Elems(t[..k]), t[k])
  }

  /** Of all importers-first orders of the files it emits, the graph's is the lexicographically least: any
      other has, where it first differs, a greater path. */
  lemma {:induction false} OrderLeast(files: seq<File>, order: seq<Path>, t: seq<Path>) returns (k: nat)
    requires Greedy(files, order) && ImportersFirst(files, t) && Elems(t) == Elems(order) && Distinct(order) &&
        Distinct(t)
    requires t != order
    ensures k < |order| && k < |t| && t[..k] == order[..k] && Less(order[k], t[k])
  {
    DistinctSize(order);
    DistinctSize(t);
    k := 0;
    while k < |order| && t[k] == order[k]
      invariant k <= |order| == |t| && t[..k] == order[..k]
    {
      assert t[..k + 1] == t[..k] + [t[k]] && order[..k + 1] == order[..k] + [order[k]];
      k := k + 1;
    }
    assert order[..|order|] == order && t[..|t|] == t;
    assert LeastReady(files, Elems(order[..k]), order[k]);
    assert Ready(files, Elems(t[..k]), t[k]);
  }
}
