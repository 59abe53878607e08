/**
  The receipts seam and the drain that chains its pages.
  Sources: library/effects/src/cas/WordLog.ts (the page and its cursor) and
  library/effects/bin/cli/history.ts (`drainFrom`).
 */
module WordDrain {
  import opened Outcomes
  import opened TrunkModel
  import opened TrunkFold
  import opened TrunkFoldLaws

  /** The cap on one page, and the bound when a caller names none. */
  const PAGE_LIMIT: nat := 10_000

  datatype Refusal = BadLimit(limit: int)

  /** A negative mark reads from the start. */
  function FlooredMark(mark: int): nat {
    if mark < 0 then 0 else mark
  }

  /** How many receipts a page may hold for the bound a caller gave. */
  function BoundedLimit(limit: Option<int>): Result<nat, Refusal> {
    match limit
    case None => Ok(PAGE_LIMIT)
    case Some(n) =>
      if n < 1 then Err(BadLimit(n))
      else Ok(if n < PAGE_LIMIT then n else PAGE_LIMIT)
  }

  /** A non-empty page's cursor is where to resume; an empty page owes the word's end. */
  function CursorOf(mark: nat, page: nat, length: nat): nat {
    if page > 0 then mark + page else length
  }

  /** One page of the word from a mark, at most `bound` receipts. */
  function PageOf(w: seq<Receipt>, from: nat, bound: nat): WordHistory {
    var lo := if from < |w| then from else |w|;
    var hi := if lo + bound < |w| then lo + bound else |w|;
    WordHistory(CursorOf(from, hi - lo, |w|), w[lo..hi])
  }

  function Since(w: seq<Receipt>, mark: int, limit: Option<int>): Result<WordHistory, Refusal> {
    match BoundedLimit(limit)
    case Err(e) => Err(e)
    case Ok(bound) => Ok(PageOf(w, FlooredMark(mark), bound))
  }

  /** Every answered page is a slice the fold can take: it starts at or before the mark, a mark below zero
      read as zero, and ends at its own cursor. A bound below one is the only refusal. */
  lemma {:induction false} SinceAnswersASlice(w: seq<Receipt>, mark: int, limit: Option<int>)
    ensures Since(w, mark, limit).Err? <==> limit.Some? && limit.value < 1
    ensures Since(w, mark, limit).Ok? ==>
              exists s: nat :: s <= FlooredMark(mark) && IsSlice(w, Since(w, mark, limit).value, s)
    ensures Since(w, mark, limit).Ok? ==>
              (Since(w, mark, limit).value.word == [] <==> FlooredMark(mark) >= |w|)
  {
    if Since(w, mark, limit).Ok? {
      var s: nat := if FlooredMark(mark) < |w| then FlooredMark(mark) else |w|;
      assert IsSlice(w, Since(w, mark, limit).value, s);
    }
  }

  /** A page starts at the mark and holds as many receipts as its caller's bound, the cap and the word allow. */
  lemma {:induction false} SinceHoldsItsBound(w: seq<Receipt>, mark: int, limit: Option<int>)
    requires Since(w, mark, limit).Ok?
    ensures var page, from := Since(w, mark, limit).value, FlooredMark(mark);
            var left := if from < |w| then |w| - from else 0;
            var bound := if limit.Some? && limit.value < PAGE_LIMIT then limit.value else PAGE_LIMIT;
            && |page.word| == (if left < bound then left else bound)
            && forall k :: 0 <= k < |page.word| ==> page.word[k] == w[from + k]
  {
  }

  // ---------------------------------------------------------------- polling a growing word

  /** A client that polls with its own mark while the word grows and shrinks: at each poll the store
      holds the first lens[i] receipts. */
  function Poll(w: seq<Receipt>, m: Model, lens: seq<nat>): Model
    requires forall i :: 0 <= i < |lens| ==> lens[i] <= |w|
    decreases |lens|
  {
    if lens == [] then m
    else
      var page := PageOf(w[..lens[0]], FlooredMark(m.mark), PAGE_LIMIT);
      Poll(w, Folded(m, page), lens[1..])
  }

  /** A page of what the store holds is a slice of the whole word. */
  lemma {:induction false} HeldPageIsSlice(w: seq<Receipt>, length: nat, mark: nat, bound: nat) returns (s: nat)
    requires length <= |w| && bound >= 1
    ensures s <= mark && IsSlice(w, PageOf(w[..length], mark, bound), s)
  {
    s := if mark < length then mark else length;
    var hi := if s + bound < length then s + bound else length;
    SliceOfPrefix(w, s, hi, length);
    assert PageOf(w[..length], mark, bound).word == w[s..hi];
  }

  lemma {:induction false} SliceOfPrefix(w: seq<Receipt>, lo: nat, hi: nat, length: nat)
    requires lo <= hi <= length <= |w|
    ensures w[..length][lo..hi] == w[lo..hi]
  {
  }

  /** The largest page end polled, or where the client already was. */
  function Reach(w: seq<Receipt>, m: Model, h: nat, lens: seq<nat>): nat
    requires forall i :: 0 <= i < |lens| ==> lens[i] <= |w|
    decreases |lens|
  {
    if lens == [] then h
    else
      var page := PageOf(w[..lens[0]], FlooredMark(m.mark), PAGE_LIMIT);
      Reach(w, Folded(m, page), if page.next > h then page.next else h, lens[1..])
  }

  /** However the polls fall, and after any truncation of the store, the carrier is the word's up to the
      largest page end polled. */
  lemma {:induction false} PollingTracksWord(w: seq<Receipt>, m: Model, h: nat, lens: seq<nat>)
    requires IsWord(w) && Agrees(m, w, h)
    requires forall i :: 0 <= i < |lens| ==> lens[i] <= |w|
    ensures h <= Reach(w, m, h, lens) <= |w| && Agrees(Poll(w, m, lens), w, Reach(w, m, h, lens))
    decreases |lens|
  {
    if lens != [] {
      var page := PageOf(w[..lens[0]], FlooredMark(m.mark), PAGE_LIMIT);
      var s := HeldPageIsSlice(w, lens[0], FlooredMark(m.mark), PAGE_LIMIT);
      FoldSliceAgrees(m, w, h, s, page);
      PollingTracksWord(w, Folded(m, page), if page.next > h then page.next else h, lens[1..]);
    }
  }

  /** A poll that finds the store shorter than the mark is refused as a truncation: the mark goes back to the
      store's length, and no column moves. One that finds it at the mark or longer is taken. */
  lemma {:induction false} OnePoll(w: seq<Receipt>, m: Model, h: nat, n: nat)
    requires IsWord(w) && Agrees(m, w, h) && n <= |w|
    ensures var m' := Poll(w, m, [n]);
            && Agrees(m', w, if m'.mark > h then m'.mark else h)
            && (n < m.mark ==> m' == Model(Refused(Truncated), n, m.columns))
            && (n >= m.mark ==> m'.status == Live &&
                                m'.mark == if m.mark + PAGE_LIMIT < n then m.mark + PAGE_LIMIT else n)
  {
    var page := PageOf(w[..n], m.mark, PAGE_LIMIT);
    var s := HeldPageIsSlice(w, n, m.mark, PAGE_LIMIT);
    FoldSliceAgrees(m, w, h, s, page);
    assert Poll(w, m, [n]) == Poll(w, Folded(m, page), []);
  }

  lemma {:induction false} PollFirst(w: seq<Receipt>, m: Model, n: nat, lens: seq<nat>)
    requires n <= |w| && forall i :: 0 <= i < |lens| ==> lens[i] <= |w|
    ensures Poll(w, m, [n] + lens) == Poll(w, Poll(w, m, [n]), lens)
  {
    assert ([n] + lens)[1..] == lens;
    assert Poll(w, m, [n]) == Poll(w, Folded(m, PageOf(w[..n], FlooredMark(m.mark), PAGE_LIMIT)), []);
  }

  /** Polling follows the store: while it holds n receipts, more or fewer than the client ever reached, enough
      polls bring the mark to n and the status to live. The carrier is then that of everything ever reached. */
  lemma {:induction false} PollingCatchesUp(w: seq<Receipt>, m: Model, h: nat, n: nat, polls: nat)
    requires IsWord(w) && Agrees(m, w, h) && n <= |w|
    requires polls * PAGE_LIMIT >= n - m.mark && polls >= (if n < m.mark then 2 else 1)
    ensures var m' := Poll(w, m, seq(polls, _ => n));
            m'.mark == n && m'.status == Live && Agrees(m', w, if n > h then n else h)
    decreases polls
  {
    OnePoll(w, m, h, n);
    var m1 := Poll(w, m, [n]);
    var rest: seq<nat> := seq(polls - 1, _ => n);
    assert seq(polls, _ => n) == [n] + rest;
    PollFirst(w, m, n, rest);
    if polls > 1 { PollingCatchesUp(w, m1, if m1.mark > h then m1.mark else h, n, polls - 1); }
  }

  lemma {:induction false} PollAppend(w: seq<Receipt>, m: Model, a: seq<nat>, b: seq<nat>)
    requires forall i :: 0 <= i < |a| ==> a[i] <= |w|
    requires forall i :: 0 <= i < |b| ==> b[i] <= |w|
    ensures Poll(w, m, a + b) == Poll(w, Poll(w, m, a), b)
    decreases |a|
  {
    if a == [] {
      assert a + b == b;
    } else {
      PollAppend(w, Folded(m, PageOf(w[..a[0]], FlooredMark(m.mark), PAGE_LIMIT)), a[1..], b);
      assert (a + b)[1..] == a[1..] + b;
    }
  }

  /** And a client that followed a truncated store back follows it again when it grows. */
  lemma {:induction false} PollingFollowsBackAndOn(w: seq<Receipt>, m: Model, h: nat, n: nat, n': nat, polls: nat,
                                                   polls': nat)
    requires IsWord(w) && Agrees(m, w, h) && n <= n' <= |w|
    requires polls >= 2 && polls * PAGE_LIMIT >= n - m.mark && polls' >= 1 && polls' * PAGE_LIMIT >= n' - n
    ensures var m' := Poll(w, m, seq(polls, _ => n) + seq(polls', _ => n'));
            m'.mark == n' && m'.status == Live && Agrees(m', w, if n' > h then n' else h)
  {
    PollingCatchesUp(w, m, h, n, polls);
    var back := Poll(w, m, seq(polls, _ => n));
    PollingCatchesUp(w, back, if n > h then n else h, n', polls');
    PollAppend(w, m, seq(polls, _ => n), seq(polls', _ => n'));
  }

  lemma {:induction false} FoldSliceAgrees(m: Model, w: seq<Receipt>, h: nat, s: nat, page: WordHistory)
    requires IsWord(w) && Agrees(m, w, h) && IsSlice(w, page, s) && s <= m.mark
    ensures Agrees(Folded(m, page), w, if page.next > h then page.next else h)
  {
    assert page == WordHistory(page.next, w[s..page.next]);
    FoldStepAgrees(m, w, h, s, page.next);
  }

  // ---------------------------------------------------------------- the drain

  /** The lengths the word has at the pulls of a drain: it may grow, and the last length stays. */
  predicate Growing(lens: seq<nat>, limit: nat) {
    lens != [] && (forall i :: 0 <= i < |lens| ==> lens[i] <= limit) &&
    forall i, j :: 0 <= i < j < |lens| ==> lens[i] <= lens[j]
  }

  function Later(lens: seq<nat>): seq<nat>
    requires lens != []
  {
    if |lens| == 1 then lens else lens[1..]
  }

  lemma {:induction false} LaterGrows(lens: seq<nat>, limit: nat)
    requires Growing(lens, limit)
    ensures Growing(Later(lens), limit) && lens[0] <= Later(lens)[0]
    ensures forall n :: n in Later(lens) ==> n in lens
  {
  }

  /** What the word holds from one index to another. */
  function Between(w: seq<Receipt>, from: nat, to: nat): seq<Receipt>
    requires to <= |w|
  {
    if from < to then w[from..to] else []
  }

  /** A page of a prefix either ends it or is the next piece of the word, and moves past its start. */
  lemma {:induction false} PageAdvances(w: seq<Receipt>, from: nat, bound: nat, length: nat)
    requires bound >= 1 && length <= |w|
    ensures var page := PageOf(w[..length], from, bound);
            && (page.word == [] <==> from >= length) && |page.word| <= bound
            && (from >= length ==> page.next == length)
            && (from < length ==> from < page.next <= length && page.word == w[from..page.next])
  {
    var lo := if from < length then from else length;
    var hi := if lo + bound < length then lo + bound else length;
    SliceOfPrefix(w, lo, hi, length);
  }

  /** The pages the drain pulls, in order, ending with the page that stops it. */
  function DrainPages(w: seq<Receipt>, at: int, bound: nat, lens: seq<nat>): (pages: seq<WordHistory>)
    requires bound >= 1 && Growing(lens, |w|)
    ensures pages != []
    decreases |w| - FlooredMark(at)
  {
    var page := PageOf(w[..lens[0]], FlooredMark(at), bound);
    if page.word == [] || page.next <= at then [page]
    else
      PageAdvances(w, FlooredMark(at), bound, lens[0]);
      LaterGrows(lens, |w|);
      [page] + DrainPages(w, page.next, bound, Later(lens))
  }

  function Flatten(pages: seq<WordHistory>): seq<Receipt> {
    if pages == [] then [] else pages[0].word + Flatten(pages[1..])
  }

  /** The one document a drain prints: all receipts, and the last page's cursor. */
  function Document(pages: seq<WordHistory>): WordHistory
    requires pages != []
  {
    WordHistory(pages[|pages| - 1].next, Flatten(pages))
  }

  lemma {:induction false} DocumentCons(page: WordHistory, rest: seq<WordHistory>)
    requires rest != []
    ensures Document([page] + rest) == WordHistory(Document(rest).next, page.word + Document(rest).word)
  {
    assert ([page] + rest)[1..] == rest;
  }

  /** Whether a page stops the drain. */
  predicate Stops(page: WordHistory, at: int) { page.word == [] || page.next <= at }

  lemma {:induction false} StopsAtEnd(w: seq<Receipt>, at: int, bound: nat, lens: seq<nat>) returns (page: WordHistory)
    requires bound >= 1 && Growing(lens, |w|)
    ensures page == PageOf(w[..lens[0]], FlooredMark(at), bound) && |page.word| <= bound
    ensures Stops(page, at) <==> FlooredMark(at) >= lens[0]
    ensures Stops(page, at) ==> page == WordHistory(lens[0], [])
    ensures !Stops(page, at) ==>
              FlooredMark(at) < page.next <= lens[0] && page.word == w[FlooredMark(at)..page.next]
  {
    page := PageOf(w[..lens[0]], FlooredMark(at), bound);
    PageAdvances(w, FlooredMark(at), bound, lens[0]);
  }

  /** The drain's first turn: it stops, or goes on from the page's cursor. */
  lemma {:induction false} DrainTurn(w: seq<Receipt>, at: int, bound: nat, lens: seq<nat>, page: WordHistory)
    requires bound >= 1 && Growing(lens, |w|) && page == PageOf(w[..lens[0]], FlooredMark(at), bound)
    ensures Stops(page, at) ==> DrainPages(w, at, bound, lens) == [page]
    ensures !Stops(page, at) ==>
              && Growing(Later(lens), |w|) && 0 <= page.next <= Later(lens)[0]
              && DrainPages(w, at, bound, lens) == [page] + DrainPages(w, page.next, bound, Later(lens))
              && var rest := Document(DrainPages(w, page.next, bound, Later(lens)));
                 Document(DrainPages(w, at, bound, lens)) == WordHistory(rest.next, page.word + rest.word)
  {
    if !Stops(page, at) {
      var _ := StopsAtEnd(w, at, bound, lens);
      LaterGrows(lens, |w|);
      DocumentCons(page, DrainPages(w, page.next, bound, Later(lens)));
    }
  }

  lemma {:induction false} DocumentOne(page: WordHistory)
    ensures Document([page]) == page
  {
    assert Flatten([page][1..]) == [] && page.word + [] == page.word;
  }

  /** The drain as the source runs it: pull, push into the accumulator, resume at the page's cursor. */
  method DrainFrom(w: seq<Receipt>, mark: int, bound: nat, lens: seq<nat>) returns (history: WordHistory)
    requires bound >= 1 && Growing(lens, |w|)
    ensures history == Document(DrainPages(w, mark, bound, lens))
    ensures history.next in lens && (FlooredMark(mark) <= lens[0] ==> lens[0] <= history.next)
    ensures history.word == Between(w, FlooredMark(mark), history.next)
  {
    history := Pull(w, mark, bound, lens, []);
    DrainIsSnapshot(w, mark, bound, lens);
    assert [] + history.word == history.word;
  }

  method Pull(w: seq<Receipt>, at: int, bound: nat, lens: seq<nat>, word: seq<Receipt>) returns (history: WordHistory)
    requires bound >= 1 && Growing(lens, |w|)
    ensures var document := Document(DrainPages(w, at, bound, lens));
            history == WordHistory(document.next, word + document.word)
    decreases |w| - FlooredMark(at)
  {
    var page := PageOf(w[..lens[0]], FlooredMark(at), bound);
    var _ := StopsAtEnd(w, at, bound, lens);
    DrainTurn(w, at, bound, lens, page);
    var grown := word + page.word;
    if page.word == [] || page.next <= at {
      DocumentOne(page);
      history := WordHistory(page.next, grown);
    } else {
      history := Pull(w, page.next, bound, Later(lens), grown);
      Regroup(word, page.word, Document(DrainPages(w, page.next, bound, Later(lens))).word);
    }
  }

  lemma {:induction false} Regroup(a: seq<Receipt>, b: seq<Receipt>, c: seq<Receipt>)
    ensures a + b + c == a + (b + c)
  {
  }

  /** What a drain prints of a moving word is a snapshot: the receipts from the mark to the cursor, the cursor
      being a length the word had, no shorter than at the first pull. Of a word that does not move it is
      everything from the mark on. */
  lemma {:induction false} DrainIsSnapshot(w: seq<Receipt>, at: int, bound: nat, lens: seq<nat>)
    requires bound >= 1 && Growing(lens, |w|)
    ensures var pages := DrainPages(w, at, bound, lens);
            var document := Document(pages);
            && document.next in lens && (FlooredMark(at) <= lens[0] ==> lens[0] <= document.next)
            && document.word == Between(w, FlooredMark(at), document.next)
            && forall k :: 0 <= k < |pages| ==> |pages[k].word| <= bound
    decreases |w| - FlooredMark(at)
  {
    var from := FlooredMark(at);
    var page := StopsAtEnd(w, at, bound, lens);
    DrainTurn(w, at, bound, lens, page);
    if Stops(page, at) {
      DocumentOne(page);
    } else {
      LaterGrows(lens, |w|);
      DrainIsSnapshot(w, page.next, bound, Later(lens));
      BetweenJoins(w, from, page.next, Document(DrainPages(w, page.next, bound, Later(lens))).next);
    }
  }

  lemma {:induction false} BetweenJoins(w: seq<Receipt>, from: nat, mid: nat, to: nat)
    requires from <= mid <= to <= |w|
    ensures Between(w, from, mid) + Between(w, mid, to) == Between(w, from, to)
  {
  }

  function FoldPages(m: Model, pages: seq<WordHistory>): Model
    decreases |pages|
  {
    if pages == [] then m else FoldPages(Folded(m, pages[0]), pages[1..])
  }

  /** Folding the drain's pages one by one is folding the one drained document, growth or not. */
  lemma {:induction false} DrainFoldsAsOneDocument(m: Model, w: seq<Receipt>, at: int, bound: nat, lens: seq<nat>)
    requires IsWord(w) && bound >= 1 && Growing(lens, |w|) && m.mark <= FlooredMark(at)
    ensures FoldPages(m, DrainPages(w, at, bound, lens)) == Folded(m, Document(DrainPages(w, at, bound, lens)))
    decreases |w| - FlooredMark(at)
  {
    var page := StopsAtEnd(w, at, bound, lens);
    DrainTurn(w, at, bound, lens, page);
    if Stops(page, at) {
      DocumentOne(page);
      assert FoldPages(m, [page]) == FoldPages(Folded(m, page), []);
    } else {
      var rest := DrainPages(w, page.next, bound, Later(lens));
      FoldFirst(m, page, rest);
      DrainFoldsAsOneDocument(Folded(m, page), w, page.next, bound, Later(lens));
      DrainIsSnapshot(w, page.next, bound, Later(lens));
      SeqsApart(w, FlooredMark(at), page.next, Document(rest).next);
      IncrementalEqualsBatch(m, page, Document(rest));
    }
  }

  lemma {:induction false} FoldFirst(m: Model, page: WordHistory, rest: seq<WordHistory>)
    ensures FoldPages(m, [page] + rest) == FoldPages(Folded(m, page), rest)
  {
    assert ([page] + rest)[1..] == rest;
  }

  lemma {:induction false} SeqsApart(w: seq<Receipt>, from: nat, mid: nat, to: nat)
    requires IsWord(w) && from <= mid <= to <= |w|
    ensures forall r :: r in w[from..mid] ==> r.seqNo < mid
    ensures forall r :: r in Between(w, mid, to) ==> mid <= r.seqNo
  {
  }
}
