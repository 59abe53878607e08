/**
  The module graph: Kahn's algorithm with a sorted ready list, importers first.
  Source: experiments/lift-harness/src/graph.ts, buildGraph.

  Module resolution is an input: each file comes with the paths its imports resolve to. An import may stand
  several times, and a path outside the project is an external one.
 */
module Graph {
  import opened CodeUnits
  import opened SortedTexts

  type Path = Text

  datatype File = File(path: Path, imports: seq<Path>)

  // ---------------------------------------------------------------- the graph

  function Paths(files: seq<File>): set<Path> { set f | f in files :: f.path }

  predicate DistinctPaths(files: seq<File>) {
    forall i, j :: 0 <= i < j < |files| ==> files[i].path != files[j].path
  }

  /** One project file imports another. */
  ghost predicate Imports(files: seq<File>, p: Path, d: Path) {
    d in Paths(files) && exists i :: 0 <= i < |files| && files[i].path == p && d in files[i].imports
  }

  /** Not emitted yet, and every importer is. */
  ghost predicate Ready(files: seq<File>, done: set<Path>, d: Path) {
    d in Paths(files) && d !in done && forall p :: Imports(files, p, d) ==> p in done
  }

  /** Each file is emitted when it is ready, and is the least that is. */
  ghost predicate Greedy(files: seq<File>, order: seq<Path>) {
    forall k :: 0 <= k < |order| ==> LeastReady(files, Elems(order[..k]), order[k])
  }

  ghost predicate LeastReady(files: seq<File>, done: set<Path>, x: Path) {
    Ready(files, done, x) && forall d :: Ready(files, done, d) ==> d == x || Less(x, d)
  }

  ghost predicate Exhausted(files: seq<File>, order: seq<Path>) {
    forall d :: !Ready(files, Elems(order), d)
  }

  // ---------------------------------------------------------------- counting imports

  function Occurrences(s: seq<Path>, d: Path): nat { multiset(s)[d] }

  /** How many imports of d stand in files not yet emitted. */
  function Pending(files: seq<File>, done: set<Path>, d: Path): nat {
    if files == [] then 0
    else (if files[0].path in done then 0 else Occurrences(files[0].imports, d)) + Pending(files[1..], done, d)
  }

  lemma {:induction false} PendingZero(files: seq<File>, done: set<Path>, d: Path)
    ensures Pending(files, done, d) == 0 <==>
            forall i :: 0 <= i < |files| ==> files[i].path in done || d !in files[i].imports
  {
    if files != [] {
      PendingZero(files[1..], done, d);
      assert forall i :: 1 <= i < |files| ==> files[1..][i - 1] == files[i];
    }
  }

  /** A file is ready exactly when no import of it is pending. */
  lemma {:induction false} ReadyIsZero(files: seq<File>, done: set<Path>, d: Path)
    requires d in Paths(files) && d !in done
    ensures Ready(files, done, d) <==> Pending(files, done, d) == 0
  {
    PendingZero(files, done, d);
    if Pending(files, done, d) != 0 {
      var i :| 0 <= i < |files| && files[i].path !in done && d in files[i].imports;
      assert Imports(files, files[i].path, d);
    }
  }

  lemma {:induction false} PendingSame(files: seq<File>, done: set<Path>, p: Path, d: Path)
    requires forall i :: 0 <= i < |files| ==> files[i].path != p
    ensures Pending(files, done + {p}, d) == Pending(files, done, d)
  {
    if files != [] { PendingSame(files[1..], done, p, d); }
  }

  /** Emitting a file takes its imports off the count. */
  lemma {:induction false} PendingEmit(files: seq<File>, done: set<Path>, i: nat, d: Path)
    requires DistinctPaths(files) && i < |files| && files[i].path !in done
    ensures Pending(files, done, d) ==
            Pending(files, done + {files[i].path}, d) + Occurrences(files[i].imports, d)
  {
    if i == 0 {
      PendingSame(files[1..], done, files[0].path, d);
    } else {
      PendingEmit(files[1..], done, i - 1, d);
      assert files[1..][i - 1] == files[i];
    }
  }

  // ---------------------------------------------------------------- the algorithm

  /** The imports that stay inside the project, duplicates and all. */
  function Internal(imports: seq<Path>, project: set<Path>): seq<Path> {
    if imports == [] then []
    else Internal(imports[..|imports| - 1], project) +
         (if imports[|imports| - 1] in project then [imports[|imports| - 1]] else [])
  }

  lemma {:induction false} InternalCounts(imports: seq<Path>, project: set<Path>, d: Path)
    ensures d in project ==> Occurrences(Internal(imports, project), d) == Occurrences(imports, d)
    ensures d in Internal(imports, project) ==> d in project && d in imports
  {
    if imports != [] {
      var front, last := imports[..|imports| - 1], imports[|imports| - 1];
      InternalCounts(front, project, d);
      assert imports == front + [last];
    }
  }

  /** The sorted project-internal dependencies of each file. */
  ghost predicate LocalDeps(files: seq<File>, local: map<Path, seq<Path>>) {
    && local.Keys == Paths(files)
    && forall i :: 0 <= i < |files| ==> local[files[i].path] == Sort(Internal(files[i].imports, Paths(files)))
  }

  /** The ready list is the files not emitted whose count is zero, in order. */
  ghost predicate ReadyList(ready: seq<Path>, project: set<Path>, done: set<Path>, remaining: map<Path, int>) {
    && remaining.Keys == project && Ascends(ready)
    && forall d :: d in Elems(ready) <==> d in project && d !in done && remaining[d] == 0
  }

  /** The counts after a file is emitted but its last dependencies are still to be taken off. */
  ghost predicate Counted(files: seq<File>, done: set<Path>, remaining: map<Path, int>, left: seq<Path>) {
    && remaining.Keys == Paths(files)
    && forall d :: d in Paths(files) ==> remaining[d] == Pending(files, done, d) + Occurrences(left, d)
  }

  lemma {:induction false} OneTaken(files: seq<File>, done: set<Path>, remaining: map<Path, int>, left: seq<Path>)
    requires Counted(files, done, remaining, left) && left != [] && left[0] in Paths(files)
    ensures remaining[left[0]] >= 1
    ensures Counted(files, done, remaining[left[0] := remaining[left[0]] - 1], left[1..])
  {
    assert left == [left[0]] + left[1..];
  }

  lemma {:induction false} OneReady(ready: seq<Path>, project: set<Path>, done: set<Path>, remaining: map<Path, int>,
                                    d: Path)
    requires ReadyList(ready, project, done, remaining) && d in project && d !in done && remaining[d] >= 1
    ensures var next := remaining[d := remaining[d] - 1];
            ReadyList(if next[d] == 0 then Insert(d, ready) else ready, project, done, next)
  {
    assert d !in Elems(ready);
    InsertElems(d, ready);
    InsertAscends(d, ready);
  }

  /** The inner loop: take an emitted file's imports off the counts, and queue what became ready. */
  method TakeOff(files: seq<File>, ghost done: set<Path>, deps: seq<Path>, ready0: seq<Path>, remaining0: map<Path,
                 int>)
    returns (ready: seq<Path>, remaining: map<Path, int>)
    requires Counted(files, done, remaining0, deps) && ReadyList(ready0, Paths(files), done, remaining0)
    requires forall i :: 0 <= i < |deps| ==> deps[i] in Paths(files) && deps[i] !in done
    ensures Counted(files, done, remaining, []) && ReadyList(ready, Paths(files), done, remaining)
  {
    ready, remaining := ready0, remaining0;
    for j := 0 to |deps|
      invariant Counted(files, done, remaining, deps[j..]) && ReadyList(ready, Paths(files), done, remaining)
    {
      var d := deps[j];
      OneTaken(files, done, remaining, deps[j..]);
      OneReady(ready, Paths(files), done, remaining, d);
      assert deps[j..][1..] == deps[j + 1..];
      remaining := remaining[d := remaining[d] - 1];
      if remaining[d] == 0 { ready := Insert(d, ready); }
    }
  }

  /** What the outer loop keeps. */
  ghost predicate Kahn(files: seq<File>, order: seq<Path>, ready: seq<Path>, remaining: map<Path, int>) {
    var done := Elems(order);
    && Distinct(order) && done <= Paths(files) && Greedy(files, order)
    && Counted(files, done, remaining, []) && ReadyList(ready, Paths(files), done, remaining)
    && forall d :: d in done ==> Pending(files, done, d) == 0
  }

  lemma {:induction false} ReadyFiles(files: seq<File>, done: set<Path>, ready: seq<Path>, remaining: map<Path, int>,
                                      d: Path)
    requires Counted(files, done, remaining, []) && ReadyList(ready, Paths(files), done, remaining)
    ensures d in ready <==> Ready(files, done, d)
  {
    assert d in ready <==> d in Elems(ready);
    if d in Paths(files) && d !in done { ReadyIsZero(files, done, d); }
  }

  /** The head of the ready list is the least ready file, so emitting it stays greedy. */
  lemma {:induction false} HeadEmits(files: seq<File>, order: seq<Path>, ready: seq<Path>, remaining: map<Path, int>)
    requires Kahn(files, order, ready, remaining) && ready != []
    ensures LeastReady(files, Elems(order), ready[0])
    ensures Greedy(files, order + [ready[0]]) && Distinct(order + [ready[0]])
    ensures Elems(order + [ready[0]]) == Elems(order) + {ready[0]}
  {
    var p, next := ready[0], order + [ready[0]];
    ReadyFiles(files, Elems(order), ready, remaining, p);
    forall d | Ready(files, Elems(order), d) ensures d == p || Less(p, d) {
      ReadyFiles(files, Elems(order), ready, remaining, d);
      HeadLeast(ready, d);
    }
    forall k | 0 <= k < |next| ensures LeastReady(files, Elems(next[..k]), next[k]) {
      assert next[..k] == order[..k];
      if k == |order| { assert order[..k] == order; }
    }
  }

  /** The file a path names. */
  lemma {:induction false} FileOf(files: seq<File>, p: Path) returns (i: nat)
    requires p in Paths(files)
    ensures i < |files| && files[i].path == p
  {
    var f :| f in files && f.path == p;
    i :| 0 <= i < |files| && files[i] == f;
  }

  /** Before its imports are taken off, an emitted file leaves the counts as they stand. */
  lemma {:induction false} HeadCounts(files: seq<File>, order: seq<Path>, ready: seq<Path>, remaining: map<Path, int>,
                                      local: map<Path, seq<Path>>)
    requires DistinctPaths(files) && LocalDeps(files, local)
    requires Kahn(files, order, ready, remaining) && ready != []
    ensures var p := ready[0];
            var done := Elems(order) + {p};
            && p in local && Counted(files, done, remaining, local[p])
            && ReadyList(ready[1..], Paths(files), done, remaining)
            && (forall i :: 0 <= i < |local[p]| ==> local[p][i] in Paths(files) && local[p][i] !in done)
            && (forall d :: d in done ==> Pending(files, done, d) == 0)
  {
    var p, done := ready[0], Elems(order);
    var done' := done + {p};
    assert p in Elems(ready);
    var i := FileOf(files, p);
    var internal := Internal(files[i].imports, Paths(files));
    Sorted(internal);
    forall d | d in Paths(files) ensures remaining[d] == Pending(files, done', d) + Occurrences(local[p], d) {
      PendingEmit(files, done, i, d);
      InternalCounts(files[i].imports, Paths(files), d);
    }
    TailElems(ready);
    forall k | 0 <= k < |local[p]| ensures local[p][k] in Paths(files) && local[p][k] !in done' {
      var d := local[p][k];
      assert d in multiset(local[p]);
      InternalCounts(files[i].imports, Paths(files), d);
      PendingEmit(files, done, i, d);
    }
    NothingPending(files, done, i);
  }

  lemma {:induction false} NothingPending(files: seq<File>, done: set<Path>, i: nat)
    requires i < |files| && DistinctPaths(files) && files[i].path !in done
    requires Pending(files, done, files[i].path) == 0
    requires forall d :: d in done ==> Pending(files, done, d) == 0
    ensures forall d :: d in done + {files[i].path} ==> Pending(files, done + {files[i].path}, d) == 0
  {
    forall d | d in done + {files[i].path} ensures Pending(files, done + {files[i].path}, d) == 0 {
      PendingEmit(files, done, i, d);
    }
  }

  /** The paths in file order that satisfy a test, given as the set of those that do. */
  function Keeping(files: seq<File>, kept: set<Path>): seq<Path> {
    if files == [] then []
    else Keeping(files[..|files| - 1], kept) +
         (if files[|files| - 1].path in kept then [files[|files| - 1].path] else [])
  }

  lemma {:induction false} PathsAppend(front: seq<File>, last: File)
    ensures Paths(front + [last]) == Paths(front) + {last.path}
  {
    var files := front + [last];
    forall d ensures d in Paths(files) <==> d in Paths(front) + {last.path} {
      if d in Paths(files) {
        var f :| f in files && f.path == d;
      }
      if d in Paths(front) {
        var f :| f in front && f.path == d;
        assert f in files;
      }
      if d == last.path { assert files[|front|] == last; }
    }
  }

  lemma {:induction false} KeepingElems(files: seq<File>, kept: set<Path>)
    ensures Elems(Keeping(files, kept)) == Paths(files) * kept
  {
    if files != [] {
      var front, last := files[..|files| - 1], files[|files| - 1];
      KeepingElems(front, kept);
      assert files == front + [last];
      PathsAppend(front, last);
      AppendElems(Keeping(front, kept), last.path);
      assert Keeping(files, kept) == Keeping(front, kept) + (if last.path in kept then [last.path] else []);
    }
  }

  lemma {:induction false} KeepingDistinct(files: seq<File>, kept: set<Path>)
    requires DistinctPaths(files)
    ensures Distinct(Keeping(files, kept))
  {
    if files != [] {
      var front, last := files[..|files| - 1], files[|files| - 1];
      KeepingDistinct(front, kept);
      KeepingElems(front, kept);
      assert last.path !in Elems(Keeping(front, kept));
    }
  }

  /** The kept paths, sorted. */
  lemma {:induction false} KeepingSorted(files: seq<File>, kept: set<Path>)
    requires DistinctPaths(files)
    ensures Ascends(Sort(Keeping(files, kept))) && Elems(Sort(Keeping(files, kept))) == Paths(files) * kept
  {
    KeepingElems(files, kept);
    KeepingDistinct(files, kept);
    Sorted(Keeping(files, kept));
  }

  lemma {:induction false} PendingAppend(front: seq<File>, last: File, d: Path)
    ensures Pending(front + [last], {}, d) == Pending(front, {}, d) + Occurrences(last.imports, d)
  {
    if front == [] {
      assert [] + [last] == [last];
    } else {
      PendingAppend(front[1..], last, d);
      assert (front + [last])[1..] == front[1..] + [last];
    }
  }

  /** The first pass: fan-in with multiplicity, and each file's sorted internal dependencies. */
  method CountImports(files: seq<File>) returns (fanIn: map<Path, int>, local: map<Path, seq<Path>>)
    requires DistinctPaths(files)
    ensures Counted(files, {}, fanIn, []) && LocalDeps(files, local)
  {
    var project := Paths(files);
    fanIn := map p | p in project :: 0;
    local := map[];
    for i := 0 to |files|
      invariant fanIn.Keys == project && local.Keys == Paths(files[..i])
      invariant forall d :: d in project ==> fanIn[d] == Pending(files[..i], {}, d)
      invariant forall k :: 0 <= k < i ==>
                  files[k].path in local && local[files[k].path] == Sort(Internal(files[k].imports, project))
    {
      var loc: seq<Path>;
      CountedNext(files, project, i, fanIn);
      fanIn, loc := CountOne(files[i].imports, project, fanIn);
      LocalNext(files, project, i, local);
      local := local[files[i].path := Sort(loc)];
    }
    assert files[..|files|] == files;
  }

  lemma {:induction false} CountedNext(files: seq<File>, project: set<Path>, i: nat, fanIn: map<Path, int>)
    requires i < |files| && fanIn.Keys == project
    requires forall d :: d in project ==> fanIn[d] == Pending(files[..i], {}, d)
    ensures forall d :: d in project ==>
              fanIn[d] + Occurrences(Internal(files[i].imports, project), d) == Pending(files[..i + 1], {}, d)
  {
    assert files[..i + 1] == files[..i] + [files[i]];
    forall d | d in project
      ensures fanIn[d] + Occurrences(Internal(files[i].imports, project), d) == Pending(files[..i + 1], {}, d)
    {
      PendingAppend(files[..i], files[i], d);
      InternalCounts(files[i].imports, project, d);
    }
  }

  lemma {:induction false} LocalNext(files: seq<File>, project: set<Path>, i: nat, local: map<Path, seq<Path>>)
    requires DistinctPaths(files) && i < |files| && local.Keys == Paths(files[..i])
    requires forall k :: 0 <= k < i ==>
               files[k].path in local && local[files[k].path] == Sort(Internal(files[k].imports, project))
    ensures var next := local[files[i].path := Sort(Internal(files[i].imports, project))];
            && next.Keys == Paths(files[..i + 1])
            && forall k :: 0 <= k < i + 1 ==>
                 files[k].path in next && next[files[k].path] == Sort(Internal(files[k].imports, project))
  {
    assert files[..i + 1] == files[..i] + [files[i]];
    PathsAppend(files[..i], files[i]);
  }

  method CountOne(imports: seq<Path>, project: set<Path>, fanIn0: map<Path, int>)
    returns (fanIn: map<Path, int>, loc: seq<Path>)
    requires fanIn0.Keys == project
    ensures fanIn.Keys == project && loc == Internal(imports, project)
    ensures forall d :: d in project ==> fanIn[d] == fanIn0[d] + Occurrences(loc, d)
  {
    fanIn, loc := fanIn0, [];
    for j := 0 to |imports|
      invariant fanIn.Keys == project && loc == Internal(imports[..j], project)
      invariant forall d :: d in project ==> fanIn[d] == fanIn0[d] + Occurrences(loc, d)
    {
      var resolved := imports[j];
      assert imports[..j + 1][..j] == imports[..j];
      if resolved in project {
        loc := loc + [resolved];
        fanIn := fanIn[resolved := fanIn[resolved] + 1];
      }
    }
    assert imports[..|imports|] == imports;
  }

  /** What the graph promises of its order: an acyclic prefix emitted greedily until nothing is ready, then
      the files left over, sorted. */
  ghost predicate Ordered(files: seq<File>, prefix: seq<Path>, cycles: seq<Path>) {
    && Distinct(prefix) && Elems(prefix) <= Paths(files) && Greedy(files, prefix) && Exhausted(files, prefix)
    && Ascends(cycles) && Elems(cycles) == Paths(files) - Elems(prefix)
  }

  method BuildGraph(files: seq<File>)
    returns (fanIn: map<Path, int>, local: map<Path, seq<Path>>, order: seq<Path>, cycles: seq<Path>, roots: seq<Path>)
    requires DistinctPaths(files)
    ensures Counted(files, {}, fanIn, []) && LocalDeps(files, local)
    ensures |cycles| <= |order| && order[|order| - |cycles|..] == cycles
    ensures Ordered(files, order[..|order| - |cycles|], cycles)
    ensures Ascends(roots) && forall d :: d in Elems(roots) <==> Ready(files, {}, d)
  {
    fanIn, local := CountImports(files);
    var zero := set p | p in fanIn && fanIn[p] == 0;
    roots := Sort(Keeping(files, zero));
    KeepingSorted(files, zero);
    RootsReady(files, fanIn, roots);
    var prefix := Emit(files, fanIn, local, roots);
    var left := set p | p in fanIn && p !in prefix;
    cycles := Sort(Keeping(files, left));
    KeepingSorted(files, left);
    LeftOver(files, prefix, left);
    order := prefix + cycles;
    Parted(prefix, cycles);
    assert order[..|order| - |cycles|] == prefix;
  }

  lemma {:induction false} RootsReady(files: seq<File>, fanIn: map<Path, int>, roots: seq<Path>)
    requires Counted(files, {}, fanIn, []) && Ascends(roots)
    requires Elems(roots) == Paths(files) * set p | p in fanIn && fanIn[p] == 0
    ensures ReadyList(roots, Paths(files), {}, fanIn)
    ensures forall d :: d in Elems(roots) <==> Ready(files, {}, d)
  {
    forall d ensures d in Elems(roots) <==> Ready(files, {}, d) {
      if d in Paths(files) { ReadyIsZero(files, {}, d); }
    }
  }

  lemma {:induction false} LeftOver(files: seq<File>, order: seq<Path>, left: set<Path>)
    requires left == set p | p in Paths(files) && p !in order
    ensures Paths(files) * left == Paths(files) - Elems(order)
  {
  }

  lemma {:induction false} Parted(a: seq<Path>, b: seq<Path>)
    ensures (a + b)[..|a|] == a && (a + b)[|a|..] == b
  {
  }

  /** The outer loop. A path is queued once, so the guard against emitting it twice never fires. */
  method Emit(files: seq<File>, fanIn: map<Path, int>, local: map<Path, seq<Path>>, roots: seq<Path>)
    returns (order: seq<Path>)
    requires DistinctPaths(files) && LocalDeps(files, local)
    requires Counted(files, {}, fanIn, []) && ReadyList(roots, Paths(files), {}, fanIn)
    ensures Distinct(order) && Elems(order) <= Paths(files) && Greedy(files, order) && Exhausted(files, order)
  {
    var remaining, ready := fanIn, roots;
    var seen: set<Path> := {};
    order := [];
    assert Elems(order) == {};
    while ready != []
      invariant seen == Elems(order) && Kahn(files, order, ready, remaining)
      decreases |Paths(files) - seen|, |ready|
    {
      var p := ready[0];
      HeadEmits(files, order, ready, remaining);
      HeadCounts(files, order, ready, remaining, local);
      ghost var order0 := order;
      ready := ready[1..];
      if p !in seen {
        Fewer(Paths(files), seen, p);
        seen := seen + {p};
        order := order + [p];
        ready, remaining := TakeOff(files, seen, local[p], ready, remaining);
        KahnStep(files, order, ready, remaining, seen);
      }
    }
    forall d ensures !Ready(files, Elems(order), d) {
      ReadyFiles(files, Elems(order), ready, remaining, d);
    }
  }

  lemma {:induction false} Fewer(all: set<Path>, seen: set<Path>, p: Path)
    requires p in all && p !in seen
    ensures |all - (seen + {p})| < |all - seen|
  {
    assert all - seen == (all - (seen + {p})) + {p};
  }

  lemma {:induction false} KahnStep(files: seq<File>, order: seq<Path>, ready: seq<Path>, remaining: map<Path, int>,
                                    done: set<Path>)
    requires done == Elems(order) && Distinct(order) && done <= Paths(files) && Greedy(files, order)
    requires Counted(files, done, remaining, []) && ReadyList(ready, Paths(files), done, remaining)
    requires forall d :: d in done ==> Pending(files, done, d) == 0
    ensures Kahn(files, order, ready, remaining)
  {
  }
}
