/**
  The replay as the source runs it, over lines and bytes with its stack and its hit cursor.
  Source: experiments/lift-harness/src/page.ts, renderPage.
 */
module PageReplay {
  import opened CodeUnits
  import opened SourceLines
  import opened Hits
  import opened BracketReplay

  lemma {:induction false} CapturedMore(intervals: seq<Interval>, stack: seq<nat>, a: seq<Hit>, hit: Hit)
    requires forall i :: 0 <= i < |stack| ==> stack[i] < |intervals|
    ensures Captured(Captured(intervals, stack, a), stack, [hit]) == Captured(intervals, stack, a + [hit])
  {
    if stack != [] {
      var top := stack[|stack| - 1];
      assert intervals[top].captures + a + [hit] == intervals[top].captures + (a + [hit]);
    }
  }

  lemma {:induction false} FiledMore(hitsAt: map<nat, seq<Hit>>, line: nat, a: seq<Hit>, hit: Hit)
    ensures FileAll(FileAll(hitsAt, line, a), line, [hit]) == FileAll(hitsAt, line, a + [hit])
  {
    assert Filed(hitsAt, line) + a + [hit] == Filed(hitsAt, line) + (a + [hit]);
    assert a == [] ==> a + [hit] == [hit];
  }

  /** Take the hits at one byte: file each under the line and give it to the top of the stack, if any. */
  method TakeHits(hits: seq<Hit>, byte: nat, line: nat, h0: nat,
                  intervals0: seq<Interval>, stack: seq<nat>, hitsAt0: map<nat, seq<Hit>>)
    returns (h: nat, intervals: seq<Interval>, hitsAt: map<nat, seq<Hit>>)
    requires Sorted(hits) && h0 == Upto(hits, byte)
    requires forall i :: 0 <= i < |stack| ==> stack[i] < |intervals0|
    ensures h0 <= h == Upto(hits, byte + 1)
    ensures intervals == Captured(intervals0, stack, hits[h0..h])
    ensures hitsAt == FileAll(hitsAt0, line, hits[h0..h])
  {
    h, intervals, hitsAt := h0, intervals0, hitsAt0;
    ghost var taken: seq<Hit> := [];
    NothingCaptured(intervals, stack);
    while h < |hits| && hits[h].byteStart == byte
      invariant h0 <= h <= |hits| && taken == hits[h0..h]
      invariant forall k :: h0 <= k < h ==> hits[k].byteStart == byte
      invariant intervals == Captured(intervals0, stack, taken)
      invariant hitsAt == FileAll(hitsAt0, line, taken)
    {
      CapturedMore(intervals0, stack, taken, hits[h]);
      FiledMore(hitsAt0, line, taken, hits[h]);
      taken := taken + [hits[h]];
      hitsAt := hitsAt[line := Filed(hitsAt, line) + [hits[h]]];
      if stack != [] {
        var top := stack[|stack| - 1];
        intervals := intervals[top := intervals[top].(captures := intervals[top].captures + [hits[h]])];
      }
      h := h + 1;
    }
    TakenAll(hits, byte, h0, h);
  }

  lemma {:induction false} NothingCaptured(intervals: seq<Interval>, stack: seq<nat>)
    requires forall i :: 0 <= i < |stack| ==> stack[i] < |intervals|
    ensures Captured(intervals, stack, []) == intervals
  {
    if stack != [] {
      var iv := intervals[stack[|stack| - 1]];
      assert iv.captures + [] == iv.captures;
    }
  }

  lemma {:induction false} TakenAll(hits: seq<Hit>, byte: nat, h0: nat, h: nat)
    requires Sorted(hits) && h0 == Upto(hits, byte) && h0 <= h <= |hits|
    requires forall k :: h0 <= k < h ==> hits[k].byteStart == byte
    requires h == |hits| || hits[h].byteStart != byte
    ensures h == Upto(hits, byte + 1)
  {
    UptoSplits(hits, byte);
    UptoSplits(hits, byte + 1);
    UptoMonotone(hits, byte, byte + 1);
    var u := Upto(hits, byte + 1);
    assert h < |hits| ==> hits[h].byteStart > byte;
    assert u < |hits| ==> hits[u].byteStart > byte;
  }

  method TakeBracket(c: Unit, byte: nat, line: nat, intervals0: seq<Interval>, stack0: seq<nat>)
    returns (intervals: seq<Interval>, stack: seq<nat>)
    requires Stacked(Held(intervals0, stack0))
    ensures Held(intervals, stack) == AfterBracket(c, byte, line, Held(intervals0, stack0))
  {
    intervals, stack := intervals0, stack0;
    if IsOpen(c) {
      stack := stack + [|intervals|];
      intervals := intervals + [Interval(line, byte, c, -1, [])];
    } else if IsClose(c) && stack != [] {
      var top := stack[|stack| - 1];
      stack := stack[..|stack| - 1];
      intervals := intervals[top := intervals[top].(closeLine := line)];
      if stack != [] {
        var parent := stack[|stack| - 1];
        assert parent < top;
        intervals :=
          intervals[parent := intervals[parent].(captures := intervals[parent].captures + intervals[top].captures)];
      }
    }
  }

  /** As the source runs it: line by line, byte by byte, the newline's place included. */
  method Replay(raw: seq<Text>, masked: seq<Text>, hits: seq<Hit>)
    returns (st: Held, hitsAt: map<nat, seq<Hit>>)
    requires SameLengths(raw, masked) && Sorted(hits)
    ensures st == HeldAt(masked, hits, |Flat(masked)|)
    ensures hitsAt == FilingAt(masked, hits, |Flat(masked)|)
  {
    st, hitsAt := Held([], []), map[];
    var h, base := 0, 0;
    FlatLength(masked);
    NoneBefore(hits);
    for li := 0 to |masked|
      invariant base == Start(masked, li) && At(masked, hits, base, h, st, hitsAt)
    {
      LineFits(masked, li);
      h, st, hitsAt := ReplayLine(masked, li, hits, h, base, st, hitsAt);
      base := base + |raw[li]| + 1;
    }
  }

  /** The replay is where it should be after b bytes. */
  ghost predicate At(masked: seq<Text>, hits: seq<Hit>, b: nat, h: nat, st: Held, hitsAt: map<nat, seq<Hit>>) {
    && Sorted(hits) && b <= |Flat(masked)| && h == Upto(hits, b)
    && st == HeldAt(masked, hits, b) && hitsAt == FilingAt(masked, hits, b)
  }

  method ReplayLine(masked: seq<Text>, li: nat, hits: seq<Hit>, h0: nat, base: nat,
                    st0: Held, hitsAt0: map<nat, seq<Hit>>)
    returns (h: nat, st: Held, hitsAt: map<nat, seq<Hit>>)
    requires li < |masked| && base == Start(masked, li) && At(masked, hits, base, h0, st0, hitsAt0)
    ensures At(masked, hits, base + |masked[li]| + 1, h, st, hitsAt)
  {
    h, st, hitsAt := h0, st0, hitsAt0;
    for ci := 0 to |masked[li]| + 1
      invariant At(masked, hits, base + ci, h, st, hitsAt)
    {
      h, st, hitsAt := ReplayByte(masked, li, ci, hits, h, base + ci, st, hitsAt);
    }
  }

  /** One byte further, in terms of the line it is on. */
  lemma {:induction false} NextByte(lines: seq<Text>, li: nat, ci: nat, hits: seq<Hit>, byte: nat)
    requires li < |lines| && ci <= |lines[li]| && Sorted(hits) && byte == Start(lines, li) + ci
    ensures byte < |Flat(lines)|
    ensures HeldAt(lines, hits, byte + 1) ==
            AfterByte(CharAt(lines[li], ci), byte, li + 1, HitsAt(hits, byte), HeldAt(lines, hits, byte))
    ensures FilingAt(lines, hits, byte + 1) == FileAll(FilingAt(lines, hits, byte), li + 1, HitsAt(hits, byte))
  {
    FlatAt(lines, li, ci);
    LineOfAt(lines, li, ci);
    HeldNext(lines, hits, byte);
  }

  /** The character at one place of a line, the newline being at its end. */
  function CharAt(text: Text, ci: nat): Unit
    requires ci <= |text|
  {
    if ci < |text| then text[ci] else NEWLINE
  }

  /** One byte of a line: its hits first, then its bracket; at the newline there is none. */
  method ReplayByte(masked: seq<Text>, li: nat, ci: nat, hits: seq<Hit>, h0: nat, byte: nat,
                    st0: Held, hitsAt0: map<nat, seq<Hit>>)
    returns (h: nat, st: Held, hitsAt: map<nat, seq<Hit>>)
    requires li < |masked| && ci <= |masked[li]| && byte == Start(masked, li) + ci
    requires At(masked, hits, byte, h0, st0, hitsAt0)
    ensures At(masked, hits, byte + 1, h, st, hitsAt)
  {
    var intervals, stack, text, line := st0.intervals, st0.stack, masked[li], li + 1;
    h, intervals, hitsAt := TakeHits(hits, byte, line, h0, intervals, stack, hitsAt0);
    if ci < |text| {
      intervals, stack := TakeBracket(text[ci], byte, line, intervals, stack);
    }
    st := Held(intervals, stack);
    NextByte(masked, li, ci, hits, byte);
  }
}
