/**
  The page's replay: bracket events interleaved with captures.
  Source: experiments/lift-harness/src/page.ts, renderPage.

  An interval is an object the source keeps on its stack and in its per-line lists at once; here it is the
  entry of `intervals` its id names, and the stack holds ids. What the page draws is not part of this model.
 */
module BracketReplay {
  import opened Outcomes
  import opened CodeUnits
  import opened Mask
  import opened SourceLines
  import opened Hits

  /** closeLine is -1 while the interval is open. */
  datatype Interval = Interval(openLine: nat, openByte: nat, char_: Unit, closeLine: int, captures: seq<Hit>)

  predicate IsOpen(c: Unit) { c == OPEN_ROUND || c == OPEN_SQUARE || c == OPEN_CURLY }
  predicate IsClose(c: Unit) { c == CLOSE_ROUND || c == CLOSE_SQUARE || c == CLOSE_CURLY }

  // ---------------------------------------------------------------- what the replay is to compute

  /** The bracket that closes what is open at some depth, reading on from a position: brackets are counted,
      their kinds are not compared. */
  function CloseFrom(text: Text, at: nat, depth: nat): Option<nat>
    requires at <= |text|
    decreases |text| - at
  {
    if at == |text| then None
    else if IsOpen(text[at]) then CloseFrom(text, at + 1, depth + 1)
    else if IsClose(text[at]) then
      if depth == 0 then Some(at) else CloseFrom(text, at + 1, depth - 1)
    else CloseFrom(text, at + 1, depth)
  }

  /** Where the interval opened at a position closes, if it does. */
  function CloseOf(text: Text, open: nat): Option<nat>
    requires open < |text|
  {
    CloseFrom(text, open + 1, 0)
  }

  /** The positions before b where a bracket opens, in order. */
  function Opens(text: Text, b: nat): (r: seq<nat>)
    requires b <= |text|
    ensures forall k :: 0 <= k < |r| ==> r[k] < b
  {
    if b == 0 then [] else Opens(text, b - 1) + (if IsOpen(text[b - 1]) then [b - 1] else [])
  }

  /** The position is on that line, lines being numbered from 1. */
  predicate OnLine(lines: seq<Text>, line: int, byte: nat) {
    1 <= line <= |lines| && Start(lines, line - 1) <= byte < Start(lines, line)
  }

  // ---------------------------------------------------------------- what the replay keeps

  /** The intervals are the brackets opened so far, in order, each on its line. */
  ghost predicate Opened(lines: seq<Text>, text: Text, b: nat, intervals: seq<Interval>) {
    && b <= |text| && |intervals| == |Opens(text, b)|
    && forall k :: 0 <= k < |intervals| ==>
         && intervals[k].openByte == Opens(text, b)[k] && intervals[k].char_ == text[intervals[k].openByte]
         && OnLine(lines, intervals[k].openLine, intervals[k].openByte)
  }

  /** A closed interval has its line and exactly the hits it encloses. */
  ghost predicate Closed(lines: seq<Text>, text: Text, hits: seq<Hit>, iv: Interval) {
    && iv.openByte < |text| && CloseOf(text, iv.openByte).Some?
    && var c := CloseOf(text, iv.openByte).value;
       OnLine(lines, iv.closeLine, c) && iv.captures == Between(hits, iv.openByte, c)
  }

  /** Where the captures of stack entry i end so far: at the next entry's bracket, or at the hits seen. */
  ghost function Reach(hits: seq<Hit>, h: nat, intervals: seq<Interval>, stack: seq<nat>, i: nat): nat
    requires i < |stack| && forall j :: 0 <= j < |stack| ==> stack[j] < |intervals|
  {
    if i == |stack| - 1 then h else Upto(hits, intervals[stack[i + 1]].openByte + 1)
  }

  /** Stack entry i waits for its close at the depth above it, with every hit since its bracket. */
  ghost predicate Waiting(text: Text, hits: seq<Hit>, b: nat, h: nat, intervals: seq<Interval>, stack: seq<nat>,
                          i: nat)
    requires b <= |text| && h <= |hits| && i < |stack|
    requires forall j :: 0 <= j < |stack| ==> stack[j] < |intervals|
  {
    var iv, end := intervals[stack[i]], Reach(hits, h, intervals, stack, i);
    && iv.closeLine == -1 && iv.openByte < b
    && CloseOf(text, iv.openByte) == CloseFrom(text, b, |stack| - 1 - i)
    && Upto(hits, iv.openByte + 1) <= end <= |hits| && iv.captures == hits[Upto(hits, iv.openByte + 1)..end]
  }

  /** The state of the replay: brackets before b are in, hits before h are in. */
  ghost predicate Inv(lines: seq<Text>, text: Text, hits: seq<Hit>, b: nat, h: nat,
                      intervals: seq<Interval>, stack: seq<nat>)
  {
    && Opened(lines, text, b, intervals) && h <= |hits|
    && (forall i :: 0 <= i < |stack| ==> stack[i] < |intervals|)
    && (forall i, j :: 0 <= i < j < |stack| ==> stack[i] < stack[j])
    && (forall i :: 0 <= i < |stack| ==> Waiting(text, hits, b, h, intervals, stack, i))
    && (forall k :: 0 <= k < |intervals| && k !in stack ==> Closed(lines, text, hits, intervals[k]))
  }

  /** What a hit makes of the intervals: the top of the stack captures it, if there is one. */
  function Captured(intervals: seq<Interval>, stack: seq<nat>, more: seq<Hit>): seq<Interval>
    requires forall i :: 0 <= i < |stack| ==> stack[i] < |intervals|
  {
    if stack == [] then intervals
    else
      var top := stack[|stack| - 1];
      intervals[top := intervals[top].(captures := intervals[top].captures + more)]
  }

  lemma {:induction false} CapturedWaiting(text: Text, hits: seq<Hit>, b: nat, h: nat, intervals: seq<Interval>,
                                           stack: seq<nat>,
                        h': nat, i: nat)
    requires b <= |text| && h <= h' <= |hits| && i < |stack|
    requires forall j :: 0 <= j < |stack| ==> stack[j] < |intervals|
    requires forall j, k :: 0 <= j < k < |stack| ==> stack[j] < stack[k]
    requires Waiting(text, hits, b, h, intervals, stack, i)
    ensures Waiting(text, hits, b, h', Captured(intervals, stack, hits[h..h']), stack, i)
  {
    if i == |stack| - 1 {
      var lo := Upto(hits, intervals[stack[i]].openByte + 1);
      Stitch(hits, lo, h, h');
    } else {
      assert stack[i] < stack[|stack| - 1];
    }
  }

  /** Capturing changes no bracket, and nothing that is not on top of the stack. */
  lemma {:induction false} CapturedShape(intervals: seq<Interval>, stack: seq<nat>, more: seq<Hit>, k: nat)
    requires (forall i :: 0 <= i < |stack| ==> stack[i] < |intervals|) && k < |intervals|
    ensures |Captured(intervals, stack, more)| == |intervals|
    ensures SameBracket(intervals, Captured(intervals, stack, more), k)
    ensures k !in stack ==> Captured(intervals, stack, more)[k] == intervals[k]
  {
    if stack != [] && k !in stack { assert k != stack[|stack| - 1]; }
  }

  lemma {:induction false} CapturedKept(lines: seq<Text>, text: Text, hits: seq<Hit>, b: nat, h: nat,
                     intervals: seq<Interval>, stack: seq<nat>, h': nat)
    requires Inv(lines, text, hits, b, h, intervals, stack) && h <= h' <= |hits|
    ensures Inv(lines, text, hits, b, h', Captured(intervals, stack, hits[h..h']), stack)
  {
    var next := Captured(intervals, stack, hits[h..h']);
    forall k | 0 <= k < |intervals|
      ensures SameBracket(intervals, next, k) && (k !in stack ==> next[k] == intervals[k])
    {
      CapturedShape(intervals, stack, hits[h..h'], k);
    }
    forall i | 0 <= i < |stack| ensures Waiting(text, hits, b, h', next, stack, i) {
      CapturedWaiting(text, hits, b, h, intervals, stack, h', i);
    }
  }

  lemma {:induction false} OpenedOne(lines: seq<Text>, text: Text, b: nat, intervals: seq<Interval>, iv: Interval)
    requires Opened(lines, text, b, intervals) && b < |text| && IsOpen(text[b])
    requires iv.openByte == b && iv.char_ == text[b] && OnLine(lines, iv.openLine, b)
    ensures Opened(lines, text, b + 1, intervals + [iv])
  {
  }

  lemma {:induction false} OpenWaiting(text: Text, hits: seq<Hit>, b: nat, h: nat, intervals: seq<Interval>,
                                       stack: seq<nat>,
                    iv: Interval, i: nat)
    requires b < |text| && IsOpen(text[b]) && h == Upto(hits, b + 1) && i <= |stack|
    requires iv.openByte == b && iv.closeLine == -1 && iv.captures == []
    requires forall j :: 0 <= j < |stack| ==> stack[j] < |intervals|
    requires i < |stack| ==> Waiting(text, hits, b, h, intervals, stack, i)
    ensures Waiting(text, hits, b + 1, h, intervals + [iv], stack + [|intervals|], i)
  {
  }

  lemma {:induction false} OpenClosed(lines: seq<Text>, text: Text, hits: seq<Hit>,
                                      intervals: seq<Interval>, stack: seq<nat>, iv: Interval)
    requires forall k :: 0 <= k < |intervals| && k !in stack ==> Closed(lines, text, hits, intervals[k])
    ensures forall k :: 0 <= k < |intervals + [iv]| && k !in stack + [|intervals|] ==>
              Closed(lines, text, hits, (intervals + [iv])[k])
  {
    var next, pushed := intervals + [iv], stack + [|intervals|];
    forall k | 0 <= k < |next| && k !in pushed ensures Closed(lines, text, hits, next[k]) {
      assert pushed[|stack|] == |intervals|;
      assert forall j :: 0 <= j < |stack| ==> pushed[j] == stack[j];
      assert next[k] == intervals[k];
    }
  }

  lemma {:induction false} OpenStack(stack: seq<nat>, bound: nat, pushed: seq<nat>)
    requires pushed == stack + [bound]
    requires forall i :: 0 <= i < |stack| ==> stack[i] < bound
    requires forall i, j :: 0 <= i < j < |stack| ==> stack[i] < stack[j]
    ensures forall i :: 0 <= i < |pushed| ==> pushed[i] < bound + 1
    ensures forall i, j :: 0 <= i < j < |pushed| ==> pushed[i] < pushed[j]
  {
  }

  lemma {:induction false} OpenKept(lines: seq<Text>, text: Text, hits: seq<Hit>, b: nat, h: nat,
                                    intervals: seq<Interval>, stack: seq<nat>, iv: Interval,
                                    b': nat, next: seq<Interval>, pushed: seq<nat>)
    requires Inv(lines, text, hits, b, h, intervals, stack)
    requires b < |text| && IsOpen(text[b]) && h == Upto(hits, b + 1)
    requires iv.openByte == b && iv.char_ == text[b] && iv.closeLine == -1 && iv.captures == []
    requires OnLine(lines, iv.openLine, b)
    requires b' == b + 1 && next == intervals + [iv] && pushed == stack + [|intervals|]
    ensures Inv(lines, text, hits, b', h, next, pushed)
  {
    OpenedOne(lines, text, b, intervals, iv);
    OpenStack(stack, |intervals|, pushed);
    forall i | 0 <= i < |pushed| ensures Waiting(text, hits, b', h, next, pushed, i) {
      OpenWaiting(text, hits, b, h, intervals, stack, iv, i);
    }
    OpenClosed(lines, text, hits, intervals, stack, iv);
  }

  /** The intervals after a closing bracket took the top off the stack: it gets its line, and its parent its
      captures. */
  function Popped(intervals: seq<Interval>, stack: seq<nat>, line: nat): seq<Interval>
    requires stack != [] && forall i :: 0 <= i < |stack| ==> stack[i] < |intervals|
  {
    var top, rest := stack[|stack| - 1], stack[..|stack| - 1];
    Captured(intervals[top := intervals[top].(closeLine := line)], rest, intervals[top].captures)
  }

  lemma {:induction false} CloseWaiting(text: Text, hits: seq<Hit>, b: nat, h: nat, intervals: seq<Interval>,
                                        stack: seq<nat>,
                     line: nat, i: nat)
    requires b < |text| && IsClose(text[b]) && h <= |hits| && i < |stack| - 1
    requires forall j :: 0 <= j < |stack| ==> stack[j] < |intervals|
    requires forall j, k :: 0 <= j < k < |stack| ==> stack[j] < stack[k]
    requires Waiting(text, hits, b, h, intervals, stack, i)
    requires Waiting(text, hits, b, h, intervals, stack, |stack| - 1)
    ensures Waiting(text, hits, b + 1, h, Popped(intervals, stack, line), stack[..|stack| - 1], i)
  {
    var n, next := |stack| - 1, Popped(intervals, stack, line);
    var top := intervals[stack[n]];
    assert stack[i] < stack[n];
    assert next[stack[i]].openByte == intervals[stack[i]].openByte;
    if i == n - 1 {
      var lo, mid := Upto(hits, intervals[stack[i]].openByte + 1), Upto(hits, top.openByte + 1);
      Stitch(hits, lo, mid, h);
    } else {
      assert stack[i] < stack[n - 1] && stack[i + 1] < stack[n];
      assert next[stack[i + 1]].openByte == intervals[stack[i + 1]].openByte;
    }
  }

  /** Popping changes no bracket, only the top's line and its parent's captures. */
  lemma {:induction false} PoppedShape(intervals: seq<Interval>, stack: seq<nat>, line: nat, k: nat)
    requires stack != [] && forall i :: 0 <= i < |stack| ==> stack[i] < |intervals|
    requires forall i, j :: 0 <= i < j < |stack| ==> stack[i] < stack[j]
    requires k < |intervals|
    ensures |Popped(intervals, stack, line)| == |intervals|
    ensures var iv := Popped(intervals, stack, line)[k];
            && iv.openByte == intervals[k].openByte && iv.openLine == intervals[k].openLine
            && iv.char_ == intervals[k].char_
    ensures k == stack[|stack| - 1] ==>
              Popped(intervals, stack, line)[k] == intervals[k].(closeLine := line)
    ensures k !in stack ==> Popped(intervals, stack, line)[k] == intervals[k]
  {
    var n := |stack| - 1;
    assert n > 0 ==> stack[n - 1] < stack[n];
    if k !in stack { assert k != stack[n] && (n > 0 ==> k != stack[n - 1]); }
  }

  lemma {:induction false} TopCloses(lines: seq<Text>, text: Text, hits: seq<Hit>, b: nat, h: nat,
                  intervals: seq<Interval>, stack: seq<nat>, line: nat)
    requires b < |text| && stack != [] && Sorted(hits) && h <= |hits|
    requires forall i :: 0 <= i < |stack| ==> stack[i] < |intervals|
    requires Waiting(text, hits, b, h, intervals, stack, |stack| - 1)
    requires IsClose(text[b]) && h == Upto(hits, b + 1) && OnLine(lines, line, b)
    ensures Closed(lines, text, hits, intervals[stack[|stack| - 1]].(closeLine := line))
  {
    var iv := intervals[stack[|stack| - 1]];
    assert iv.openByte < b && iv.captures == hits[Upto(hits, iv.openByte + 1)..h];
    assert CloseOf(text, iv.openByte) == Some(b) by { assert CloseFrom(text, b, 0) == Some(b); }
    BetweenSlice(hits, iv.openByte, b);
    ClosedIs(lines, text, hits, iv.(closeLine := line), b);
  }

  lemma {:induction false} ClosedIs(lines: seq<Text>, text: Text, hits: seq<Hit>, iv: Interval, c: nat)
    requires iv.openByte < |text| && CloseOf(text, iv.openByte) == Some(c)
    requires OnLine(lines, iv.closeLine, c) && iv.captures == Between(hits, iv.openByte, c)
    ensures Closed(lines, text, hits, iv)
  {
  }

  lemma {:induction false} CloseOpened(lines: seq<Text>, text: Text, b: nat, intervals: seq<Interval>,
                                       stack: seq<nat>, line: nat)
    requires Opened(lines, text, b, intervals) && stack != [] && b < |text| && !IsOpen(text[b])
    requires forall i :: 0 <= i < |stack| ==> stack[i] < |intervals|
    requires forall i, j :: 0 <= i < j < |stack| ==> stack[i] < stack[j]
    ensures Opened(lines, text, b + 1, Popped(intervals, stack, line))
  {
    var next := Popped(intervals, stack, line);
    forall k | 0 <= k < |intervals| ensures SameBracket(intervals, next, k) {
      PoppedShape(intervals, stack, line, k);
    }
  }

  lemma {:induction false} RestClosed(lines: seq<Text>, text: Text, hits: seq<Hit>, intervals: seq<Interval>,
                                      stack: seq<nat>, line: nat)
    requires stack != [] && forall i :: 0 <= i < |stack| ==> stack[i] < |intervals|
    requires forall i, j :: 0 <= i < j < |stack| ==> stack[i] < stack[j]
    requires forall k :: 0 <= k < |intervals| && k !in stack ==> Closed(lines, text, hits, intervals[k])
    requires Closed(lines, text, hits, intervals[stack[|stack| - 1]].(closeLine := line))
    ensures forall k :: 0 <= k < |Popped(intervals, stack, line)| && k !in stack[..|stack| - 1] ==>
              Closed(lines, text, hits, Popped(intervals, stack, line)[k])
  {
    var next := Popped(intervals, stack, line);
    forall k | 0 <= k < |next| && k !in stack[..|stack| - 1] ensures Closed(lines, text, hits, next[k]) {
      PoppedShape(intervals, stack, line, k);
      if k != stack[|stack| - 1] { NotElsewhere(stack, k); }
    }
  }

  lemma {:induction false} RestWaiting(text: Text, hits: seq<Hit>, b: nat, h: nat, intervals: seq<Interval>,
                                       stack: seq<nat>, line: nat,
                    b': nat, next: seq<Interval>, rest: seq<nat>)
    requires b < |text| && IsClose(text[b]) && h <= |hits| && stack != []
    requires forall i :: 0 <= i < |stack| ==> stack[i] < |intervals|
    requires forall i, j :: 0 <= i < j < |stack| ==> stack[i] < stack[j]
    requires forall i :: 0 <= i < |stack| ==> Waiting(text, hits, b, h, intervals, stack, i)
    requires b' == b + 1 && next == Popped(intervals, stack, line) && rest == stack[..|stack| - 1]
    ensures forall i :: 0 <= i < |rest| ==> Waiting(text, hits, b', h, next, rest, i)
  {
    forall i | 0 <= i < |rest| ensures Waiting(text, hits, b', h, next, rest, i) {
      CloseWaiting(text, hits, b, h, intervals, stack, line, i);
    }
  }

  lemma {:induction false} RestStack(stack: seq<nat>, rest: seq<nat>, bound: nat)
    requires stack != [] && rest == stack[..|stack| - 1]
    requires forall i :: 0 <= i < |stack| ==> stack[i] < bound
    requires forall i, j :: 0 <= i < j < |stack| ==> stack[i] < stack[j]
    ensures forall i :: 0 <= i < |rest| ==> rest[i] < bound
    ensures forall i, j :: 0 <= i < j < |rest| ==> rest[i] < rest[j]
  {
  }

  lemma {:induction false} CloseKept(lines: seq<Text>, text: Text, hits: seq<Hit>, b: nat, h: nat,
                  intervals: seq<Interval>, stack: seq<nat>, line: nat,
                  b': nat, next: seq<Interval>, rest: seq<nat>)
    requires Inv(lines, text, hits, b, h, intervals, stack) && stack != [] && Sorted(hits)
    requires b < |text| && IsClose(text[b]) && h == Upto(hits, b + 1) && OnLine(lines, line, b)
    requires b' == b + 1 && next == Popped(intervals, stack, line) && rest == stack[..|stack| - 1]
    ensures Inv(lines, text, hits, b', h, next, rest)
  {
    RestStack(stack, rest, |intervals|);
    CloseOpened(lines, text, b, intervals, stack, line);
    RestWaiting(text, hits, b, h, intervals, stack, line, b', next, rest);
    TopCloses(lines, text, hits, b, h, intervals, stack, line);
    RestClosed(lines, text, hits, intervals, stack, line);
  }

  /** Entry k is the same bracket in both. */
  ghost predicate SameBracket(a: seq<Interval>, b: seq<Interval>, k: nat) {
    && k < |a| && k < |b|
    && b[k].openByte == a[k].openByte && b[k].openLine == a[k].openLine && b[k].char_ == a[k].char_
  }

  lemma {:induction false} NotElsewhere(stack: seq<nat>, k: nat)
    requires stack != [] && k !in stack[..|stack| - 1] && k != stack[|stack| - 1]
    ensures k !in stack
  {
    assert stack == stack[..|stack| - 1] + [stack[|stack| - 1]];
  }

  /** Anything else, and a closing bracket with nothing open, changes nothing. */
  lemma {:induction false} OtherKept(lines: seq<Text>, text: Text, hits: seq<Hit>, b: nat, h: nat,
                  intervals: seq<Interval>, stack: seq<nat>)
    requires Inv(lines, text, hits, b, h, intervals, stack)
    requires b < |text| && !IsOpen(text[b]) && (IsClose(text[b]) ==> stack == [])
    ensures Inv(lines, text, hits, b + 1, h, intervals, stack)
  {
    var b' := b + 1;
    forall i | 0 <= i < |stack| ensures Waiting(text, hits, b', h, intervals, stack, i) {
      assert Waiting(text, hits, b, h, intervals, stack, i);
    }
  }

  // ---------------------------------------------------------------- the replay

  function Filed(hitsAt: map<nat, seq<Hit>>, line: nat): seq<Hit> {
    if line in hitsAt then hitsAt[line] else []
  }

  function FileAll(hitsAt: map<nat, seq<Hit>>, line: nat, more: seq<Hit>): map<nat, seq<Hit>> {
    if more == [] then hitsAt else hitsAt[line := Filed(hitsAt, line) + more]
  }

  /** The intervals and the stack of those that are open. */
  datatype Held = Held(intervals: seq<Interval>, stack: seq<nat>)

  predicate Stacked(st: Held) {
    && (forall i :: 0 <= i < |st.stack| ==> st.stack[i] < |st.intervals|)
    && (forall i, j :: 0 <= i < j < |st.stack| ==> st.stack[i] < st.stack[j])
  }

  /** What one character makes of them: open an interval, close the top one, or nothing. */
  function AfterBracket(c: Unit, byte: nat, line: nat, st: Held): (next: Held)
    requires Stacked(st)
    ensures Stacked(next)
  {
    if IsOpen(c) then
      Held(st.intervals + [Interval(line, byte, c, -1, [])], st.stack + [|st.intervals|])
    else if IsClose(c) && st.stack != [] then
      PoppedShape(st.intervals, st.stack, line, st.stack[|st.stack| - 1]);
      RestStack(st.stack, st.stack[..|st.stack| - 1], |st.intervals|);
      Held(Popped(st.intervals, st.stack, line), st.stack[..|st.stack| - 1])
    else st
  }

  /** The hits at one byte. */
  function HitsAt(hits: seq<Hit>, b: nat): seq<Hit>
    requires Sorted(hits)
  {
    UptoMonotone(hits, b, b + 1);
    hits[Upto(hits, b)..Upto(hits, b + 1)]
  }

  /** One byte: its hits first, then its bracket. */
  function AfterByte(c: Unit, byte: nat, line: nat, more: seq<Hit>, st: Held): (next: Held)
    requires Stacked(st)
    ensures Stacked(next)
  {
    AfterBracket(c, byte, line, Held(Captured(st.intervals, st.stack, more), st.stack))
  }

  /** What the replay holds after b bytes. */
  function HeldAt(lines: seq<Text>, hits: seq<Hit>, b: nat): (st: Held)
    requires Sorted(hits) && b <= |Flat(lines)|
    ensures Stacked(st)
  {
    if b == 0 then Held([], [])
    else AfterByte(Flat(lines)[b - 1], b - 1, LineOf(lines, b - 1), HitsAt(hits, b - 1), HeldAt(lines, hits, b - 1))
  }

  lemma {:induction false} BracketKept(lines: seq<Text>, text: Text, hits: seq<Hit>, b: nat, h: nat, line: nat,
                    st: Held, next: Held, b': nat)
    requires Sorted(hits) && Stacked(st) && Inv(lines, text, hits, b, h, st.intervals, st.stack)
    requires b < |text| && OnLine(lines, line, b) && h == Upto(hits, b + 1) && b' == b + 1
    requires next == AfterBracket(text[b], b, line, st)
    ensures Inv(lines, text, hits, b', h, next.intervals, next.stack)
  {
    if IsOpen(text[b]) {
      OpenKept(lines, text, hits, b, h, st.intervals, st.stack, Interval(line, b, text[b], -1, []),
               b', next.intervals, next.stack);
    } else if IsClose(text[b]) && st.stack != [] {
      CloseKept(lines, text, hits, b, h, st.intervals, st.stack, line, b', next.intervals, next.stack);
    } else {
      OtherKept(lines, text, hits, b, h, st.intervals, st.stack);
    }
  }

  /** One byte keeps the invariant. */
  lemma {:induction false} ByteKept(lines: seq<Text>, text: Text, hits: seq<Hit>, b: nat, line: nat,
                                    st: Held, next: Held, b': nat)
    requires Sorted(hits) && Stacked(st) && b' == b + 1
    requires Inv(lines, text, hits, b, Upto(hits, b), st.intervals, st.stack)
    requires b < |text| && OnLine(lines, line, b)
    requires next == AfterByte(text[b], b, line, HitsAt(hits, b), st)
    ensures Inv(lines, text, hits, b', Upto(hits, b'), next.intervals, next.stack)
  {
    UptoMonotone(hits, b, b');
    var h := Upto(hits, b');
    CapturedKept(lines, text, hits, b, Upto(hits, b), st.intervals, st.stack, h);
    var captured := Held(Captured(st.intervals, st.stack, HitsAt(hits, b)), st.stack);
    BracketKept(lines, text, hits, b, h, line, captured, next, b');
  }

  lemma {:induction false} HeldStart(lines: seq<Text>, text: Text, hits: seq<Hit>)
    ensures Inv(lines, text, hits, 0, Upto(hits, 0), [], [])
  {
    assert Opens(text, 0) == [];
  }

  lemma {:induction false} HeldStep(lines: seq<Text>, hits: seq<Hit>, b: nat, b': nat)
    requires Sorted(hits) && b' == b + 1 <= |Flat(lines)|
    requires Inv(lines, Flat(lines), hits, b, Upto(hits, b), HeldAt(lines, hits, b).intervals, HeldAt(lines, hits,
        b).stack)
    ensures Inv(lines, Flat(lines), hits, b', Upto(hits, b'), HeldAt(lines, hits, b').intervals,
                HeldAt(lines, hits, b').stack)
  {
    LineOfIs(lines, b);
    HeldNext(lines, hits, b);
    ByteKept(lines, Flat(lines), hits, b, LineOf(lines, b), HeldAt(lines, hits, b), HeldAt(lines, hits, b'), b');
  }

  /** The invariant holds after every byte. */
  lemma {:induction false} HeldKept(lines: seq<Text>, hits: seq<Hit>, b: nat)
    requires Sorted(hits) && b <= |Flat(lines)|
    ensures Inv(lines, Flat(lines), hits, b, Upto(hits, b), HeldAt(lines, hits, b).intervals, HeldAt(lines, hits,
        b).stack)
  {
    if b == 0 {
      HeldStart(lines, Flat(lines), hits);
    } else {
      HeldKept(lines, hits, b - 1);
      HeldStep(lines, hits, b - 1, b);
    }
  }

  /** What is filed under a line, once the first h hits have been seen and this is the current line. */
  ghost function Expected(lines: seq<Text>, hits: seq<Hit>, line: nat, h: nat, l: nat): seq<Hit>
    requires 1 <= line <= |lines| && Upto(hits, Start(lines, line - 1)) <= h <= |hits| && Sorted(hits)
  {
    if 1 <= l < line then OfLine(lines, hits, l)
    else if l == line then hits[Upto(hits, Start(lines, line - 1))..h]
    else []
  }

  /** The hits whose byte is on a line, in order. */
  function OfLine(lines: seq<Text>, hits: seq<Hit>, line: nat): seq<Hit>
    requires 1 <= line <= |lines|
  {
    Between(hits, Start(lines, line - 1) - 1, Start(lines, line) - 1)
  }

  ghost predicate FiledTo(lines: seq<Text>, hits: seq<Hit>, hitsAt: map<nat, seq<Hit>>, line: nat, h: nat) {
    && Sorted(hits) && 1 <= line <= |lines| && Upto(hits, Start(lines, line - 1)) <= h <= |hits|
    && forall l: nat :: Filed(hitsAt, l) == Expected(lines, hits, line, h, l)
  }

  lemma {:induction false} FiledAfter(hitsAt: map<nat, seq<Hit>>, line: nat, more: seq<Hit>, l: nat)
    ensures Filed(FileAll(hitsAt, line, more), l) == if l == line then Filed(hitsAt, line) + more else Filed(hitsAt, l)
  {
    if more == [] { assert Filed(hitsAt, line) + more == Filed(hitsAt, line); }
  }

  lemma {:induction false} ExpectedMore(lines: seq<Text>, hits: seq<Hit>, line: nat, h0: nat, h: nat, l: nat)
    requires 1 <= line <= |lines| && Upto(hits, Start(lines, line - 1)) <= h0 <= h <= |hits| && Sorted(hits)
    ensures Expected(lines, hits, line, h, l) ==
            if l == line then Expected(lines, hits, line, h0, l) + hits[h0..h] else Expected(lines, hits, line, h0, l)
  {
    if l == line { Stitch(hits, Upto(hits, Start(lines, line - 1)), h0, h); }
  }

  lemma {:induction false} FiledKept(lines: seq<Text>, hits: seq<Hit>, hitsAt: map<nat, seq<Hit>>, line: nat,
                                     h0: nat, h: nat)
    requires FiledTo(lines, hits, hitsAt, line, h0) && h0 <= h <= |hits|
    ensures FiledTo(lines, hits, FileAll(hitsAt, line, hits[h0..h]), line, h)
  {
    var next := FileAll(hitsAt, line, hits[h0..h]);
    forall l: nat ensures Filed(next, l) == Expected(lines, hits, line, h, l) {
      FiledAfter(hitsAt, line, hits[h0..h], l);
      ExpectedMore(lines, hits, line, h0, h, l);
      assert Filed(hitsAt, l) == Expected(lines, hits, line, h0, l);
    }
  }

  lemma {:induction false} FiledNext(lines: seq<Text>, hits: seq<Hit>, hitsAt: map<nat, seq<Hit>>, line: nat, h: nat)
    requires FiledTo(lines, hits, hitsAt, line, h) && h == Upto(hits, Start(lines, line))
    ensures Filed(hitsAt, line) == OfLine(lines, hits, line)
    ensures line < |lines| ==> FiledTo(lines, hits, hitsAt, line + 1, h)
  {
    assert Filed(hitsAt, line) == Expected(lines, hits, line, h, line);
    LineSlice(lines, hits, line);
    if line < |lines| {
      forall l: nat ensures Filed(hitsAt, l) == Expected(lines, hits, line + 1, h, l) {
        assert Filed(hitsAt, l) == Expected(lines, hits, line, h, l);
      }
    }
  }

  lemma {:induction false} LineSlice(lines: seq<Text>, hits: seq<Hit>, line: nat)
    requires 1 <= line <= |lines| && Sorted(hits)
    ensures Upto(hits, Start(lines, line - 1)) <= Upto(hits, Start(lines, line))
    ensures OfLine(lines, hits, line) == hits[Upto(hits, Start(lines, line - 1))..Upto(hits, Start(lines, line))]
  {
    RangeSlice(hits, Start(lines, line - 1), Start(lines, line) - 1);
  }

  // ---------------------------------------------------------------- the whole page

  /** Every interval is a bracket of the text; it is closed exactly when something closes it, and then holds
      exactly the hits it encloses, nested ones included, in order. */
  ghost predicate Replayed(lines: seq<Text>, text: Text, hits: seq<Hit>, intervals: seq<Interval>) {
    && Opened(lines, text, |text|, intervals)
    && forall k :: 0 <= k < |intervals| ==>
         if CloseOf(text, intervals[k].openByte).Some? then Closed(lines, text, hits, intervals[k])
         else intervals[k].closeLine == -1
  }

  /** What is filed after b bytes. */
  function FilingAt(lines: seq<Text>, hits: seq<Hit>, b: nat): map<nat, seq<Hit>>
    requires Sorted(hits) && b <= |Flat(lines)|
  {
    if b == 0 then map[]
    else FileAll(FilingAt(lines, hits, b - 1), LineOf(lines, b - 1), HitsAt(hits, b - 1))
  }

  lemma {:induction false} HeldNext(lines: seq<Text>, hits: seq<Hit>, b: nat)
    requires Sorted(hits) && b < |Flat(lines)|
    ensures HeldAt(lines, hits, b + 1) ==
            AfterByte(Flat(lines)[b], b, LineOf(lines, b), HitsAt(hits, b), HeldAt(lines, hits, b))
    ensures FilingAt(lines, hits, b + 1) == FileAll(FilingAt(lines, hits, b), LineOf(lines, b), HitsAt(hits, b))
  {
  }

  /** What the replay computes: every bracket of the text is an interval on its line; it is closed exactly
      when something closes it, and then holds exactly the hits it encloses, those of nested intervals
      included, in order. The brackets may be mismatched in any way. */
  lemma {:induction false} ReplayExact(lines: seq<Text>, hits: seq<Hit>)
    requires Sorted(hits)
    ensures var st := HeldAt(lines, hits, |Flat(lines)|);
            && Replayed(lines, Flat(lines), hits, st.intervals)
            && forall k :: 0 <= k < |st.intervals| ==>
                 (k in st.stack <==> CloseOf(Flat(lines), st.intervals[k].openByte).None?)
  {
    var st, text := HeldAt(lines, hits, |Flat(lines)|), Flat(lines);
    HeldKept(lines, hits, |text|);
    ReplayDone(lines, text, hits, Upto(hits, |text|), st.intervals, st.stack);
  }

  lemma {:induction false} FilingKept(lines: seq<Text>, hits: seq<Hit>, b: nat)
    requires Sorted(hits) && b < |Flat(lines)|
    ensures FiledTo(lines, hits, FilingAt(lines, hits, b), LineOf(lines, b), Upto(hits, b))
  {
    LineOfIs(lines, b);
    if b == 0 {
      FilingStart(lines, hits);
    } else {
      FilingKept(lines, hits, b - 1);
      FilingStep(lines, hits, b - 1, b);
    }
  }

  lemma {:induction false} FilingStep(lines: seq<Text>, hits: seq<Hit>, b: nat, b': nat)
    requires Sorted(hits) && b' == b + 1 < |Flat(lines)|
    requires FiledTo(lines, hits, FilingAt(lines, hits, b), LineOf(lines, b), Upto(hits, b))
    ensures FiledTo(lines, hits, FilingAt(lines, hits, b'), LineOf(lines, b'), Upto(hits, b'))
  {
    FilingByte(lines, hits, b);
    LineOfIs(lines, b');
    LineOfNext(lines, b);
    FilingOnward(lines, hits, FilingAt(lines, hits, b'), LineOf(lines, b), LineOf(lines, b'), b');
  }

  lemma {:induction false} FilingOnward(lines: seq<Text>, hits: seq<Hit>, hitsAt: map<nat, seq<Hit>>, line: nat,
                                        next: nat, b: nat)
    requires FiledTo(lines, hits, hitsAt, line, Upto(hits, b)) && next <= |lines|
    requires next == if b == Start(lines, line) then line + 1 else line
    ensures FiledTo(lines, hits, hitsAt, next, Upto(hits, b))
  {
    if next == line + 1 { FiledNext(lines, hits, hitsAt, line, Upto(hits, b)); }
  }

  lemma {:induction false} FilingByte(lines: seq<Text>, hits: seq<Hit>, b: nat)
    requires Sorted(hits) && b < |Flat(lines)|
    requires FiledTo(lines, hits, FilingAt(lines, hits, b), LineOf(lines, b), Upto(hits, b))
    ensures FiledTo(lines, hits, FilingAt(lines, hits, b + 1), LineOf(lines, b), Upto(hits, b + 1))
  {
    UptoMonotone(hits, b, b + 1);
    HeldNext(lines, hits, b);
    FiledKept(lines, hits, FilingAt(lines, hits, b), LineOf(lines, b), Upto(hits, b), Upto(hits, b + 1));
  }

  lemma {:induction false} FilingStart(lines: seq<Text>, hits: seq<Hit>)
    requires Sorted(hits) && lines != [] && LineOf(lines, 0) == 1
    ensures FiledTo(lines, hits, map[], 1, Upto(hits, 0))
  {
    assert Upto(hits, 0) == 0;
    forall l: nat ensures Filed(map[], l) == Expected(lines, hits, 1, 0, l) {
      assert hits[0..0] == [];
    }
  }

  /** Each hit of the text is filed under exactly the line it is on: under every line, its hits in order, and
      nothing under anything else. */
  lemma {:induction false} FilingExact(lines: seq<Text>, hits: seq<Hit>)
    requires Sorted(hits)
    ensures forall l: nat ::
              Filed(FilingAt(lines, hits, |Flat(lines)|), l) ==
              if 1 <= l <= |lines| then OfLine(lines, hits, l) else []
  {
    if lines != [] {
      var end := |Flat(lines)|;
      LastByte(lines, end);
      FilingKept(lines, hits, end - 1);
      FilingLast(lines, hits, end - 1, end);
    }
  }

  lemma {:induction false} LastByte(lines: seq<Text>, end: nat)
    requires lines != [] && end == |Flat(lines)|
    ensures end >= 1 && end == Start(lines, |lines|) && LineOf(lines, end - 1) == |lines|
  {
    var last := |lines| - 1;
    FlatLength(lines);
    LineOfAt(lines, last, |lines[last]|);
  }

  lemma {:induction false} FilingLast(lines: seq<Text>, hits: seq<Hit>, b: nat, end: nat)
    requires Sorted(hits) && lines != [] && end == b + 1 == Start(lines, |lines|) && end <= |Flat(lines)|
    requires LineOf(lines, b) == |lines|
    requires FiledTo(lines, hits, FilingAt(lines, hits, b), LineOf(lines, b), Upto(hits, b))
    ensures forall l: nat ::
              Filed(FilingAt(lines, hits, end), l) == if 1 <= l <= |lines| then OfLine(lines, hits, l) else []
  {
    FilingByte(lines, hits, b);
    FilingEnds(lines, hits, FilingAt(lines, hits, end), end);
  }

  lemma {:induction false} FilingEnds(lines: seq<Text>, hits: seq<Hit>, hitsAt: map<nat, seq<Hit>>, end: nat)
    requires lines != [] && end == Start(lines, |lines|) && FiledTo(lines, hits, hitsAt, |lines|, Upto(hits, end))
    ensures forall l: nat :: Filed(hitsAt, l) == if 1 <= l <= |lines| then OfLine(lines, hits, l) else []
  {
    FiledNext(lines, hits, hitsAt, |lines|, Upto(hits, end));
    FiledLast(lines, hits, hitsAt, Upto(hits, end));
  }

  lemma {:induction false} FiledLast(lines: seq<Text>, hits: seq<Hit>, hitsAt: map<nat, seq<Hit>>, h: nat)
    requires lines != [] && FiledTo(lines, hits, hitsAt, |lines|, h)
    requires Filed(hitsAt, |lines|) == OfLine(lines, hits, |lines|)
    ensures forall l: nat :: Filed(hitsAt, l) == if 1 <= l <= |lines| then OfLine(lines, hits, l) else []
  {
    forall l: nat ensures Filed(hitsAt, l) == if 1 <= l <= |lines| then OfLine(lines, hits, l) else [] {
      assert Filed(hitsAt, l) == Expected(lines, hits, |lines|, h, l);
    }
  }

  lemma {:induction false} ReplayDone(lines: seq<Text>, text: Text, hits: seq<Hit>, h: nat,
                                      intervals: seq<Interval>, stack: seq<nat>)
    requires Inv(lines, text, hits, |text|, h, intervals, stack)
    ensures Replayed(lines, text, hits, intervals)
    ensures forall k :: 0 <= k < |intervals| ==> (k in stack <==> CloseOf(text, intervals[k].openByte).None?)
  {
    forall k | 0 <= k < |intervals|
      ensures if CloseOf(text, intervals[k].openByte).Some? then Closed(lines, text, hits, intervals[k])
              else intervals[k].closeLine == -1
      ensures k in stack <==> CloseOf(text, intervals[k].openByte).None?
    {
      if k in stack {
        var i :| 0 <= i < |stack| && stack[i] == k;
        assert Waiting(text, hits, |text|, h, intervals, stack, i);
      }
    }
  }

  /** Bracket k of the text is closed by none. */
  predicate Unclosed(text: Text, intervals: seq<Interval>, k: int) {
    0 <= k < |intervals| && intervals[k].openByte < |text| && CloseOf(text, intervals[k].openByte).None?
  }

  /** What a bracket that nothing closes holds: the hits up to the next such bracket, or to the end. */
  ghost predicate HoldsToNext(text: Text, hits: seq<Hit>, intervals: seq<Interval>, k: int)
    requires Unclosed(text, intervals, k)
  {
    var iv := intervals[k];
    && (forall j :: k < j && Unclosed(text, intervals, j) && (forall i :: k < i < j ==> !Unclosed(text, intervals, i))
          ==> iv.captures == Between(hits, iv.openByte, intervals[j].openByte))
    && ((forall j :: k < j ==> !Unclosed(text, intervals, j)) ==>
          iv.captures == Between(hits, iv.openByte, |text| - 1))
  }

  /** A bracket that nothing closes never gives its captures up, and never takes those of another. */
  lemma {:induction false} UnclosedExact(lines: seq<Text>, hits: seq<Hit>, k: int)
    requires Sorted(hits)
    ensures var st, text := HeldAt(lines, hits, |Flat(lines)|), Flat(lines);
            Unclosed(text, st.intervals, k) ==> HoldsToNext(text, hits, st.intervals, k)
  {
    var st, text := HeldAt(lines, hits, |Flat(lines)|), Flat(lines);
    HeldKept(lines, hits, |text|);
    ReplayDone(lines, text, hits, Upto(hits, |text|), st.intervals, st.stack);
    if Unclosed(text, st.intervals, k) { UnclosedHolds(lines, text, hits, st.intervals, st.stack, k); }
  }

  lemma {:induction false} UnclosedHolds(lines: seq<Text>, text: Text, hits: seq<Hit>, intervals: seq<Interval>,
                                         stack: seq<nat>, k: int)
    requires Sorted(hits) && Inv(lines, text, hits, |text|, Upto(hits, |text|), intervals, stack)
    requires forall j :: 0 <= j < |intervals| ==> (j in stack <==> CloseOf(text, intervals[j].openByte).None?)
    requires Unclosed(text, intervals, k)
    ensures HoldsToNext(text, hits, intervals, k)
  {
    var i :| 0 <= i < |stack| && stack[i] == k;
    HoldsReach(lines, text, hits, intervals, stack, i);
    if i + 1 < |stack| { assert stack[i] < stack[i + 1] && Unclosed(text, intervals, stack[i + 1]); }
    forall j | k < j && Unclosed(text, intervals, j) && (forall l :: k < l < j ==> !Unclosed(text, intervals, l))
      ensures intervals[k].captures == Between(hits, intervals[k].openByte, intervals[j].openByte)
    {
      NextOnStack(text, intervals, stack, i, j);
    }
  }

  lemma {:induction false} HoldsReach(lines: seq<Text>, text: Text, hits: seq<Hit>, intervals: seq<Interval>,
                                      stack: seq<nat>, i: nat)
    requires Sorted(hits) && Inv(lines, text, hits, |text|, Upto(hits, |text|), intervals, stack)
    requires i < |stack|
    ensures var iv := intervals[stack[i]];
            iv.captures == Between(hits, iv.openByte, if i + 1 < |stack| then intervals[stack[i + 1]].openByte
                                                      else |text| - 1)
  {
    var k := stack[i];
    assert Waiting(text, hits, |text|, Upto(hits, |text|), intervals, stack, i);
    if i + 1 < |stack| {
      OpensAscend(text, |text|, k, stack[i + 1]);
      BetweenSlice(hits, intervals[k].openByte, intervals[stack[i + 1]].openByte);
    } else {
      BetweenSlice(hits, intervals[k].openByte, |text| - 1);
    }
  }

  lemma {:induction false} NextOnStack(text: Text, intervals: seq<Interval>, stack: seq<nat>, i: nat, j: int)
    requires forall a, b :: 0 <= a < b < |stack| ==> stack[a] < stack[b]
    requires forall a :: 0 <= a < |stack| ==> Unclosed(text, intervals, stack[a])
    requires i < |stack| && stack[i] < j && j in stack
    requires forall l :: stack[i] < l < j ==> !Unclosed(text, intervals, l)
    ensures i + 1 < |stack| && stack[i + 1] == j
  {
    var a :| 0 <= a < |stack| && stack[a] == j;
  }

  lemma {:induction false} OpensAscend(text: Text, b: nat, k: nat, j: nat)
    requires b <= |text| && k < j < |Opens(text, b)|
    ensures Opens(text, b)[k] < Opens(text, b)[j]
  {
    if j < |Opens(text, b - 1)| { OpensAscend(text, b - 1, k, j); }
  }

  /** On a page the lines are those of the source and of its masked text. They are aligned, as the replay
      needs them, exactly when no backslash inside a string or template ends the source or stands right
      before a newline. The text replayed is then the masked source, whose brackets are those of the
      source's code. */
  lemma {:induction false} PageAligned(source: Text)
    ensures SameLengths(Split(source), Split(Masked(source, Code))) <==> forall i: nat :: !Swallows(source, Code, i)
    ensures Flat(Split(Masked(source, Code))) == Masked(source, Code) + [NEWLINE]
  {
    ShapeKept(source, Code);
    SameShapeSplits(source, Masked(source, Code));
    FlatSplit(Masked(source, Code));
  }
}
