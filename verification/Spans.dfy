/**
  The sieve's spans, the maximal runs of anchored lines, and the ordered merge that gives each span its hits.
  Source: experiments/lift-harness/src/rung/Sieve.ts, captureSpans; experiments/lift-harness/src/rung/Reader.ts,
  the join at the end of read.

  Whether a line is anchored and how it scores are inputs here.
 */
module Spans {
  import opened Outcomes
  import opened Hits
  import opened CodeUnits
  import opened Mask
  import opened SourceLines

  /** A line as the sieve reads it. */
  datatype Rec = Rec(anchored: bool, score: real, depth: nat)

  datatype Span = Span(lineStart: nat, lineEnd: nat, byteStart: nat, byteEnd: nat,
                       score: real, fired: bool, depthStart: nat, depthMax: nat)

  /** The run being read. */
  datatype Run = Run(lineStart: nat, score: real, depthStart: nat, depthMax: nat)

  function Max(a: real, b: real): real { if a < b then b else a }
  function MaxDepth(a: nat, b: nat): nat { if a < b then b else a }

  // ---------------------------------------------------------------- what a span is

  /** Lines a to b, b excluded, are anchored and no run reaches further either way. */
  ghost predicate IsRun(recs: seq<Rec>, a: int, b: int) {
    && 0 <= a < b <= |recs|
    && (forall i :: a <= i < b ==> recs[i].anchored)
    && (a > 0 ==> !recs[a - 1].anchored) && (b < |recs| ==> !recs[b].anchored)
  }

  function TopScore(recs: seq<Rec>, a: nat, b: nat): real
    requires a < b <= |recs|
  {
    if b == a + 1 then recs[a].score else Max(TopScore(recs, a, b - 1), recs[b - 1].score)
  }

  function TopDepth(recs: seq<Rec>, a: nat, b: nat): nat
    requires a < b <= |recs|
  {
    if b == a + 1 then recs[a].depth else MaxDepth(TopDepth(recs, a, b - 1), recs[b - 1].depth)
  }

  /** The span of lines a to b, b excluded. */
  function SpanOf(recs: seq<Rec>, raw: seq<Text>, threshold: real, a: nat, b: nat): Span
    requires a < b <= |recs| == |raw|
  {
    StartsAscend(raw, 0, b);
    var score := TopScore(recs, a, b);
    Span(a + 1, b, Start(raw, a), Start(raw, b) - 1, score, score > threshold, recs[a].depth, TopDepth(recs, a, b))
  }

  lemma {:induction false} TopScoreIsMax(recs: seq<Rec>, a: nat, b: nat)
    requires a < b <= |recs|
    ensures exists i :: a <= i < b && recs[i].score == TopScore(recs, a, b)
    ensures forall i :: a <= i < b ==> recs[i].score <= TopScore(recs, a, b)
  {
    if b > a + 1 {
      TopScoreIsMax(recs, a, b - 1);
      var i :| a <= i < b - 1 && recs[i].score == TopScore(recs, a, b - 1);
      assert recs[i].score == TopScore(recs, a, b) || recs[b - 1].score == TopScore(recs, a, b);
    } else {
      assert recs[a].score == TopScore(recs, a, b);
    }
  }

  lemma {:induction false} TopDepthIsMax(recs: seq<Rec>, a: nat, b: nat)
    requires a < b <= |recs|
    ensures exists i :: a <= i < b && recs[i].depth == TopDepth(recs, a, b)
    ensures forall i :: a <= i < b ==> recs[i].depth <= TopDepth(recs, a, b)
  {
    if b > a + 1 {
      TopDepthIsMax(recs, a, b - 1);
      var i :| a <= i < b - 1 && recs[i].depth == TopDepth(recs, a, b - 1);
      assert recs[i].depth == TopDepth(recs, a, b) || recs[b - 1].depth == TopDepth(recs, a, b);
    } else {
      assert recs[a].depth == TopDepth(recs, a, b);
    }
  }

  /** What a span says of its lines: the greatest score and depth among them, the depth they start at, and that
      some line scores above the threshold exactly when it fired. */
  lemma {:induction false} SpanMeans(recs: seq<Rec>, raw: seq<Text>, threshold: real, a: nat, b: nat)
    requires a < b <= |recs| == |raw|
    ensures var s := SpanOf(recs, raw, threshold, a, b);
            && s.lineStart == a + 1 && s.lineEnd == b && s.depthStart == recs[a].depth
            && (exists i :: a <= i < b && recs[i].score == s.score)
            && (exists i :: a <= i < b && recs[i].depth == s.depthMax)
            && (forall i :: a <= i < b ==> recs[i].score <= s.score && recs[i].depth <= s.depthMax)
            && (s.fired <==> exists i :: a <= i < b && recs[i].score > threshold)
  {
    TopScoreIsMax(recs, a, b);
    TopDepthIsMax(recs, a, b);
    var i :| a <= i < b && recs[i].score == TopScore(recs, a, b);
  }

  /** And where it stands: between its two offsets the text has exactly its lines, up to the last newline. */
  lemma {:induction false} SpanIsItsLines(recs: seq<Rec>, raw: seq<Text>, threshold: real, a: nat, b: nat)
    requires a < b <= |recs| == |raw|
    ensures var s := SpanOf(recs, raw, threshold, a, b);
            && s.byteStart == |Flat(raw[..a])| && s.byteStart <= s.byteEnd < |Flat(raw)|
            && Flat(raw)[s.byteStart..s.byteEnd] + [NEWLINE] == Flat(raw[a..b])
  {
    StartIsLength(raw, a);
    StartIsLength(raw, b);
    StartsAscend(raw, a, b);
    FlatAppend(raw[..b], raw[b..]);
    assert raw == raw[..b] + raw[b..];
    FlatAppend(raw[..a], raw[a..b]);
    assert raw[..b] == raw[..a] + raw[a..b];
    FlatEnds(raw[a..b]);
    var x, y, z := Flat(raw[..a]), Flat(raw[a..b]), Flat(raw[b..]);
    assert Flat(raw) == x + y + z;
    SliceMiddle(x, y, z);
  }

  lemma {:induction false} SliceMiddle(x: Text, y: Text, z: Text)
    requires y != [] && y[|y| - 1] == NEWLINE
    ensures (x + y + z)[|x|..|x| + |y| - 1] + [NEWLINE] == y
  {
    assert (x + y + z)[|x|..|x| + |y| - 1] == y[..|y| - 1];
  }

  lemma {:induction false} FlatAppend(x: seq<Text>, y: seq<Text>)
    ensures Flat(x + y) == Flat(x) + Flat(y)
  {
    if x == [] {
      assert x + y == y;
    } else {
      FlatAppend(x[1..], y);
      assert (x + y)[1..] == x[1..] + y;
      Reassociate(x[0] + [NEWLINE], Flat(x[1..]), Flat(y));
    }
  }

  lemma {:induction false} FlatEnds(lines: seq<Text>)
    requires lines != []
    ensures Flat(lines) != [] && Flat(lines)[|Flat(lines)| - 1] == NEWLINE
  {
    if |lines| > 1 {
      FlatEnds(lines[1..]);
      var head, rest := lines[0] + [NEWLINE], Flat(lines[1..]);
      assert (head + rest)[|head + rest| - 1] == rest[|rest| - 1];
    } else {
      assert Flat(lines) == lines[0] + [NEWLINE] + [];
    }
  }

  lemma {:induction false} StartIsLength(lines: seq<Text>, li: nat)
    requires li <= |lines|
    ensures Start(lines, li) == |Flat(lines[..li])|
  {
    FlatLength(lines[..li]);
    StartOfFront(lines, li, li);
  }

  lemma {:induction false} StartOfFront(lines: seq<Text>, n: nat, li: nat)
    requires li <= n <= |lines|
    ensures Start(lines[..n], li) == Start(lines, li)
  {
    if li > 0 { StartOfFront(lines, n, li - 1); }
  }

  /** The spans are those of runs, one after the other with a line between. */
  ghost predicate Spanned(recs: seq<Rec>, raw: seq<Text>, threshold: real, spans: seq<Span>)
    requires |recs| == |raw|
  {
    && (forall k :: 0 <= k < |spans| ==> IsSpan(recs, raw, threshold, spans[k]))
    && (forall j, k :: 0 <= j < k < |spans| ==> spans[j].lineEnd + 1 < spans[k].lineStart)
  }

  ghost predicate IsSpan(recs: seq<Rec>, raw: seq<Text>, threshold: real, s: Span)
    requires |recs| == |raw|
  {
    IsRun(recs, s.lineStart - 1, s.lineEnd) && s == SpanOf(recs, raw, threshold, s.lineStart - 1, s.lineEnd)
  }

  /** Line i, counted from 0, is inside one of the spans. */
  ghost predicate Inside(spans: seq<Span>, i: int) {
    exists k :: 0 <= k < |spans| && spans[k].lineStart <= i + 1 <= spans[k].lineEnd
  }

  /** Every anchored line before line i is inside one of the spans. */
  ghost predicate Covers(recs: seq<Rec>, spans: seq<Span>, i: nat)
    requires i <= |recs|
  {
    forall j {:trigger Inside(spans, j)} :: 0 <= j < i && recs[j].anchored ==> Inside(spans, j)
  }

  /** Before line i every run has ended, with its span. */
  ghost predicate Idle(recs: seq<Rec>, raw: seq<Text>, threshold: real, i: nat, spans: seq<Span>)
    requires |recs| == |raw| && i <= |recs|
  {
    && Spanned(recs, raw, threshold, spans) && (forall k :: 0 <= k < |spans| ==> spans[k].lineEnd <= i)
    && Covers(recs, spans, i)
  }

  /** Before line i a run is open since line a, and every earlier one has its span. */
  ghost predicate Reading(recs: seq<Rec>, raw: seq<Text>, threshold: real, i: nat, spans: seq<Span>, run: Run)
    requires |recs| == |raw| && i <= |recs|
  {
    && 1 <= run.lineStart <= i
    && var a := run.lineStart - 1;
    && Idle(recs, raw, threshold, a, spans) && (forall k :: 0 <= k < |spans| ==> spans[k].lineEnd < a)
    && (forall j :: a <= j < i ==> recs[j].anchored) && (a > 0 ==> !recs[a - 1].anchored)
    && run == Run(a + 1, TopScore(recs, a, i), recs[a].depth, TopDepth(recs, a, i))
  }

  /** What has been read before line i. */
  ghost predicate ReadTo(recs: seq<Rec>, raw: seq<Text>, threshold: real, i: nat, spans: seq<Span>, open: Option<Run>)
    requires |recs| == |raw| && i <= |recs|
  {
    match open
    case None =>
      && Idle(recs, raw, threshold, i, spans) && (i > 0 ==> !recs[i - 1].anchored)
      && forall k :: 0 <= k < |spans| ==> spans[k].lineEnd < i
    case Some(run) => Reading(recs, raw, threshold, i, spans, run)
  }

  /** Ends the run at a line. */
  method Close(recs: seq<Rec>, raw: seq<Text>, threshold: real, offsets: seq<nat>, open: Run, lastLine: nat)
    returns (s: Span)
    requires |recs| == |raw| && 1 <= open.lineStart <= lastLine <= |recs|
    requires |offsets| == |raw| + 1 && forall i :: 0 <= i <= |raw| ==> offsets[i] == Start(raw, i)
    requires open.score == TopScore(recs, open.lineStart - 1, lastLine)
    requires open.depthStart == recs[open.lineStart - 1].depth
    requires open.depthMax == TopDepth(recs, open.lineStart - 1, lastLine)
    ensures s == SpanOf(recs, raw, threshold, open.lineStart - 1, lastLine)
  {
    StartsAscend(raw, 0, lastLine);
    if lastLine < |raw| { StartsAscend(raw, lastLine, |raw|); }
    var length := offsets[|raw|] - 1;
    var end := offsets[lastLine] - 1;
    s := Span(open.lineStart, lastLine, offsets[open.lineStart - 1], if end < length then end else length,
              open.score, open.score > threshold, open.depthStart, open.depthMax);
  }

  lemma {:induction false} SpannedMore(recs: seq<Rec>, raw: seq<Text>, threshold: real, spans: seq<Span>, s: Span)
    requires |recs| == |raw| && Spanned(recs, raw, threshold, spans) && IsSpan(recs, raw, threshold, s)
    requires forall k :: 0 <= k < |spans| ==> spans[k].lineEnd + 1 < s.lineStart
    ensures Spanned(recs, raw, threshold, spans + [s])
  {
    var next := spans + [s];
    forall k | 0 <= k < |next| ensures IsSpan(recs, raw, threshold, next[k]) {
      if k < |spans| { assert IsSpan(recs, raw, threshold, spans[k]); }
    }
  }

  lemma {:induction false} InsideMore(spans: seq<Span>, s: Span, j: int)
    requires Inside(spans, j) || s.lineStart <= j + 1 <= s.lineEnd
    ensures Inside(spans + [s], j)
  {
    var next := spans + [s];
    if Inside(spans, j) {
      var k :| 0 <= k < |spans| && spans[k].lineStart <= j + 1 <= spans[k].lineEnd;
      assert next[k] == spans[k];
    } else {
      assert next[|spans|] == s;
    }
  }

  /** The run read so far is closed before an unanchored line, or at the end. */
  lemma {:induction false} ClosedSpan(recs: seq<Rec>, raw: seq<Text>, threshold: real, i: nat, spans: seq<Span>,
                                      run: Run, s: Span)
    requires |recs| == |raw| && i <= |recs| && Reading(recs, raw, threshold, i, spans, run)
    requires i < |recs| ==> !recs[i].anchored
    requires s == SpanOf(recs, raw, threshold, run.lineStart - 1, i)
    ensures Spanned(recs, raw, threshold, spans + [s]) && Covers(recs, spans + [s], i)
    ensures forall k :: 0 <= k < |spans + [s]| ==> (spans + [s])[k].lineEnd <= i
  {
    var a := run.lineStart - 1;
    assert IsRun(recs, a, i);
    SpannedMore(recs, raw, threshold, spans, s);
    forall j | 0 <= j < i && recs[j].anchored ensures Inside(spans + [s], j) {
      if j < a { assert Inside(spans, j); }
      InsideMore(spans, s, j);
    }
  }

  /** As the source scans: extend the open run while lines are anchored, close it when one is not. */
  method CaptureSpans(recs: seq<Rec>, raw: seq<Text>, threshold: real) returns (spans: seq<Span>)
    requires |recs| == |raw|
    ensures Spanned(recs, raw, threshold, spans)
    ensures Covers(recs, spans, |recs|)
  {
    var offsets := Offsets(raw);
    spans := [];
    var open: Option<Run> := None;
    for i := 0 to |recs|
      invariant ReadTo(recs, raw, threshold, i, spans, open)
    {
      spans, open := ReadLine(recs, raw, threshold, offsets, i, spans, open);
    }
    if open.Some? {
      var s := Close(recs, raw, threshold, offsets, open.value, |recs|);
      ClosedSpan(recs, raw, threshold, |recs|, spans, open.value, s);
      spans := spans + [s];
    }
    assert Covers(recs, spans, |recs|);
  }

  lemma {:induction false} SkippedLine(recs: seq<Rec>, raw: seq<Text>, threshold: real, i: nat, spans: seq<Span>,
                                       next: nat)
    requires |recs| == |raw| && i < |recs| && next == i + 1 && !recs[i].anchored
    requires Spanned(recs, raw, threshold, spans) && Covers(recs, spans, i)
    requires forall k :: 0 <= k < |spans| ==> spans[k].lineEnd <= i
    ensures ReadTo(recs, raw, threshold, next, spans, None)
  {
  }

  lemma {:induction false} StartedRun(recs: seq<Rec>, raw: seq<Text>, threshold: real, i: nat, spans: seq<Span>,
                                      next: nat)
    requires |recs| == |raw| && i < |recs| && next == i + 1 && recs[i].anchored
    requires ReadTo(recs, raw, threshold, i, spans, None)
    ensures ReadTo(recs, raw, threshold, next, spans, Some(Run(next, recs[i].score, recs[i].depth, recs[i].depth)))
  {
  }

  lemma {:induction false} ExtendedRun(recs: seq<Rec>, raw: seq<Text>, threshold: real, i: nat, spans: seq<Span>,
                                       run: Run, next: nat, longer: Run)
    requires |recs| == |raw| && i < |recs| && next == i + 1 && recs[i].anchored
    requires ReadTo(recs, raw, threshold, i, spans, Some(run))
    requires longer == run.(score := Max(run.score, recs[i].score), depthMax := MaxDepth(run.depthMax, recs[i].depth))
    ensures ReadTo(recs, raw, threshold, next, spans, Some(longer))
  {
    assert TopScore(recs, run.lineStart - 1, next) == longer.score;
    assert TopDepth(recs, run.lineStart - 1, next) == longer.depthMax;
  }

  method Offsets(raw: seq<Text>) returns (offsets: seq<nat>)
    ensures |offsets| == |raw| + 1 && forall i :: 0 <= i <= |raw| ==> offsets[i] == Start(raw, i)
  {
    offsets := [0];
    for i := 0 to |raw|
      invariant |offsets| == i + 1 && forall k :: 0 <= k <= i ==> offsets[k] == Start(raw, k)
    {
      offsets := offsets + [offsets[|offsets| - 1] + |raw[i]| + 1];
    }
  }

  method ReadLine(recs: seq<Rec>, raw: seq<Text>, threshold: real, offsets: seq<nat>, i: nat,
                  spans0: seq<Span>, open0: Option<Run>) returns (spans: seq<Span>, open: Option<Run>)
    requires |recs| == |raw| && i < |recs| && ReadTo(recs, raw, threshold, i, spans0, open0)
    requires |offsets| == |raw| + 1 && forall k :: 0 <= k <= |raw| ==> offsets[k] == Start(raw, k)
    ensures ReadTo(recs, raw, threshold, i + 1, spans, open)
  {
    spans, open := spans0, open0;
    var r, line := recs[i], i + 1;
    if !r.anchored {
      if open.Some? {
        var s := Close(recs, raw, threshold, offsets, open.value, line - 1);
        ClosedSpan(recs, raw, threshold, i, spans, open.value, s);
        spans, open := spans + [s], None;
      }
      SkippedLine(recs, raw, threshold, i, spans, i + 1);
    } else if open.None? {
      StartedRun(recs, raw, threshold, i, spans, i + 1);
      open := Some(Run(line, r.score, r.depth, r.depth));
    } else {
      ghost var run := open.value;
      open := Some(open.value.(score := Max(open.value.score, r.score),
                               depthMax := MaxDepth(open.value.depthMax, r.depth)));
      ExtendedRun(recs, raw, threshold, i, spans, run, i + 1, open.value);
    }
  }

  // ---------------------------------------------------------------- byte ranges

  /** The byte ranges of the spans ascend and never touch. */
  ghost predicate Disjoint(spans: seq<Span>) {
    && (forall k :: 0 <= k < |spans| ==> spans[k].byteStart <= spans[k].byteEnd)
    && (forall j, k :: 0 <= j < k < |spans| ==> spans[j].byteEnd < spans[k].byteStart)
  }

  lemma {:induction false} SpansDisjoint(recs: seq<Rec>, raw: seq<Text>, threshold: real, spans: seq<Span>)
    requires |recs| == |raw| && Spanned(recs, raw, threshold, spans)
    ensures Disjoint(spans)
  {
    forall k | 0 <= k < |spans| ensures spans[k].byteStart <= spans[k].byteEnd {
      assert IsSpan(recs, raw, threshold, spans[k]);
      StartsAscend(raw, spans[k].lineStart - 1, spans[k].lineEnd);
    }
    forall j, k | 0 <= j < k < |spans| ensures spans[j].byteEnd < spans[k].byteStart {
      assert IsSpan(recs, raw, threshold, spans[j]) && IsSpan(recs, raw, threshold, spans[k]);
      StartsAscend(raw, spans[j].lineEnd, spans[k].lineStart - 1);
    }
  }

  /** The spans are the runs, each once: a run is the span of its lines, and of no other span. */
  lemma {:induction false} EveryRunOnce(recs: seq<Rec>, raw: seq<Text>, threshold: real, spans: seq<Span>, a: nat,
                                        b: nat)
    requires |recs| == |raw| && Spanned(recs, raw, threshold, spans) && IsRun(recs, a, b)
    requires Covers(recs, spans, |recs|)
    ensures exists k :: 0 <= k < |spans| && spans[k] == SpanOf(recs, raw, threshold, a, b)
    ensures forall j, k :: 0 <= j < k < |spans| ==> spans[j] != spans[k]
  {
    assert recs[a].anchored;
    assert Inside(spans, a);
    var k :| 0 <= k < |spans| && spans[k].lineStart <= a + 1 <= spans[k].lineEnd;
    var s := spans[k];
    assert IsSpan(recs, raw, threshold, s);
    RunsMeet(recs, a, b, s.lineStart - 1, s.lineEnd);
  }

  /** Two runs with a line in common are one. */
  lemma {:induction false} RunsMeet(recs: seq<Rec>, a: nat, b: nat, c: nat, d: nat)
    requires IsRun(recs, a, b) && IsRun(recs, c, d) && c <= a < d
    ensures a == c && b == d
  {
  }

  // ---------------------------------------------------------------- the join

  /** The hits of a span, inclusive at both ends. */
  function HitsIn(sorted: seq<Hit>, s: Span): seq<Hit> { Between(sorted, s.byteStart - 1, s.byteEnd) }

  /** The ordered merge as the source runs it: two indices over the sorted hits, never going back. */
  method JoinHits(spans: seq<Span>, sorted: seq<Hit>) returns (constructs: seq<seq<Hit>>)
    requires Disjoint(spans) && Sorted(sorted)
    ensures |constructs| == |spans| && forall k :: 0 <= k < |spans| ==> constructs[k] == HitsIn(sorted, spans[k])
  {
    constructs := [];
    var i := 0;
    for k := 0 to |spans|
      invariant |constructs| == k && i == if k == 0 then 0 else Upto(sorted, spans[k - 1].byteEnd + 1)
      invariant forall m :: 0 <= m < k ==> constructs[m] == HitsIn(sorted, spans[m])
    {
      if k > 0 { UptoMonotone(sorted, spans[k - 1].byteEnd + 1, spans[k].byteStart); }
      var taken: seq<Hit>;
      taken, i := TakeSpan(sorted, spans[k], i);
      constructs := constructs + [taken];
    }
  }

  method TakeSpan(sorted: seq<Hit>, s: Span, from: nat) returns (taken: seq<Hit>, j: nat)
    requires Sorted(sorted) && s.byteStart <= s.byteEnd && from <= Upto(sorted, s.byteStart)
    ensures taken == HitsIn(sorted, s) && j == Upto(sorted, s.byteEnd + 1)
  {
    RangeSlice(sorted, s.byteStart, s.byteEnd);
    var i := Advance(sorted, from, s.byteStart);
    j := Advance(sorted, i, s.byteEnd + 1);
    taken := sorted[i..j];
  }

  /** Move an index past the hits before a byte. */
  method Advance(sorted: seq<Hit>, from: nat, x: nat) returns (i: nat)
    requires Sorted(sorted) && from <= Upto(sorted, x)
    ensures i == Upto(sorted, x)
  {
    i := from;
    UptoSplits(sorted, x);
    while i < |sorted| && sorted[i].byteStart < x
      invariant i <= Upto(sorted, x)
    {
      i := i + 1;
    }
  }

  /** The reading's spans with their constructs: the sieve's spans are what the merge needs, so each gets
      exactly the hits whose byte lies in it. */
  method ReadSpans(recs: seq<Rec>, raw: seq<Text>, threshold: real, sorted: seq<Hit>)
    returns (spans: seq<Span>, constructs: seq<seq<Hit>>)
    requires |recs| == |raw| && Sorted(sorted)
    ensures Spanned(recs, raw, threshold, spans)
    ensures Covers(recs, spans, |recs|)
    ensures |constructs| == |spans| && forall k :: 0 <= k < |spans| ==> constructs[k] == HitsIn(sorted, spans[k])
  {
    spans := CaptureSpans(recs, raw, threshold);
    SpansDisjoint(recs, raw, threshold, spans);
    constructs := JoinHits(spans, sorted);
  }
}
