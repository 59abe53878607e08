/**
  What the fold means: the carrier is a cache of the word.

  A word is the whole admission history: its i-th receipt carries seq i. Pages are slices of it,
  delivered in any order the seam allows: again, overlapping, or after a rewind of the mark.
 */
module TrunkFoldLaws {
  import opened Outcomes
  import opened TrunkModel
  import opened TrunkFold

  // ---------------------------------------------------------------- the door

  /** A page the fold may be given: a receipt index, ascending seqs, real addresses. */
  ghost predicate WellFormedPage(p: WordHistory) {
    && p.next >= 0
    && Ascending(p.word)
    && forall r :: r in p.word ==> r.seqNo >= 0 && IsAddress(r.address)
  }

  /** Position i is the first receipt of the page at fault, and `reason` is its fault. */
  ghost predicate FirstFaultAt(word: seq<Receipt>, i: nat, reason: Reason) {
    && i < |word|
    && Ascending(word[..i])
    && (forall r :: r in word[..i] ==> r.seqNo >= 0 && IsAddress(r.address))
    && var previous := if i == 0 then -1 else word[i - 1].seqNo;
       if word[i].seqNo <= previous then reason == OutOfOrder(word[i].seqNo, previous)
       else !IsAddress(word[i].address) && reason == BadAddress(word[i].seqNo)
  }

  lemma {:induction false} FirstFaultLocated(word: seq<Receipt>, done: nat) returns (i: nat)
    requires done <= |word|
    requires Ascending(word[..done])
    requires forall r :: r in word[..done] ==> r.seqNo >= 0 && IsAddress(r.address)
    ensures
      var previous := if done == 0 then -1 else word[done - 1].seqNo;
      match FirstFault(word[done..], previous)
      case None => Ascending(word) && forall r :: r in word ==> r.seqNo >= 0 && IsAddress(r.address)
      case Some(reason) => FirstFaultAt(word, i, reason)
    decreases |word| - done
  {
    i := done;
    var previous := if done == 0 then -1 else word[done - 1].seqNo;
    if done == |word| {
      assert word[..done] == word;
    } else {
      var fault := FaultOf(word[done], previous);
      assert word[done..][0] == word[done];
      if fault.Some? {
        assert FirstFault(word[done..], previous) == fault;
        assert FirstFaultAt(word, done, fault.value);
      } else {
        assert word[..done + 1] == word[..done] + [word[done]];
        assert word[done..][1..] == word[done + 1..];
        i := FirstFaultLocated(word, done + 1);
      }
    }
  }

  /** The door accepts exactly the well-formed pages, unchanged, and names the first fault of the rest. */
  lemma {:induction false} DoorAcceptsExactlyWellFormed(input: Option<WordHistory>)
    ensures Door(input).Accepted? <==> input.Some? && WellFormedPage(input.value)
    ensures Door(input).Accepted? ==> Door(input).history == input.value
    ensures input.Some? && input.value.next >= 0 && Door(input).Malformed? ==>
              exists i: nat :: FirstFaultAt(input.value.word, i, Door(input).reason)
    ensures input.None? ==> Door(input) == Malformed(NotAHistory)
    ensures input.Some? && input.value.next < 0 ==> Door(input) == Malformed(NegativeNext(input.value.next))
  {
    if input.Some? && input.value.next >= 0 {
      var word := input.value.word;
      assert word[..0] == [] && word[0..] == word;
      var i := FirstFaultLocated(word, 0);
      if FirstFault(word, -1).Some? {
        var r := word[i];
        assert r in word;
        if i > 0 { assert word[i - 1] in word; }
      }
    }
  }

  // ---------------------------------------------------------------- bounded tails

  lemma {:induction false} LastKAppend<T>(a: seq<T>, b: seq<T>, k: nat)
    ensures LastK(LastK(a, k) + b, k) == LastK(a + b, k)
  {
  }

  lemma {:induction false} RevisionOfLastK(s: seq<Receipt>, k: nat)
    requires k > 0
    ensures RevisionOf(LastK(s, k)) == RevisionOf(s)
  {
  }

  /** A carrier grown twice is the carrier grown once by everything, despite the cut at each merge. */
  lemma {:induction false} GrownTwice(c: Column, a: seq<Receipt>, b: seq<Receipt>)
    ensures Grown(Grown(c, a), b) == Grown(c, a + b)
  {
    LastKAppend(c.tail + a, b, K_CARRIER);
    assert c.tail + a + b == c.tail + (a + b);
  }

  // ---------------------------------------------------------------- the word of one lane

  /** The receipts of a word that belong to one lane, in order. */
  function LaneWord(word: seq<Receipt>, col: nat): seq<Receipt> {
    if word == [] then []
    else
      var rest := LaneWord(word[..|word| - 1], col);
      var r := word[|word| - 1];
      if LaneOf(r) == col then rest + [r] else rest
  }

  /** A lane's carrier computed afresh from the whole word. */
  function Fresh(word: seq<Receipt>, col: nat): Column {
    var lane := LaneWord(word, col);
    Column(|lane|, RevisionOf(lane), LastK(lane, K_CARRIER))
  }

  /** An admission history: receipt i has seq i and a well-formed address. */
  ghost predicate IsWord(w: seq<Receipt>) {
    forall i :: 0 <= i < |w| ==> w[i].seqNo == i && IsAddress(w[i].address)
  }

  lemma {:induction false} LaneWordSplit(w: seq<Receipt>, h: nat, n: nat, col: nat)
    requires h <= n <= |w|
    ensures LaneWord(w[..n], col) == LaneWord(w[..h], col) + LaneWord(w[h..n], col)
    decreases n
  {
    if h == n {
      assert w[h..n] == [];
    } else {
      LaneWordSplit(w, h, n - 1, col);
      assert w[..n][..n - 1] == w[..n - 1];
      assert w[h..n][..n - 1 - h] == w[h..n - 1];
    }
  }

  /** A lane's revision lies between its newest receipt and the end of the word. */
  lemma {:induction false} RevisionBounds(w: seq<Receipt>, h: nat, col: nat)
    requires IsWord(w) && h <= |w|
    ensures -1 <= RevisionOf(LaneWord(w[..h], col)) < h
    ensures forall i :: 0 <= i < h && LaneOf(w[i]) == col ==> i <= RevisionOf(LaneWord(w[..h], col))
  {
    if h > 0 {
      RevisionBounds(w, h - 1, col);
      assert w[..h][..h - 1] == w[..h - 1];
    }
  }

  // ---------------------------------------------------------------- the fold refines the word

  /** The carrier agrees with the first h receipts of the word, and the mark is not past them. */
  ghost predicate Agrees(m: Model, w: seq<Receipt>, h: nat) {
    && h <= |w|
    && 0 <= m.mark <= h
    && |m.columns| == LANE_COUNT
    && forall col: nat :: col < LANE_COUNT ==> m.columns[col] == Fresh(w[..h], col)
  }

  /** For a receipt of the word, the two guards together decide exactly whether it is new. */
  lemma {:induction false} AdmitsExactlyNew(m: Model, w: seq<Receipt>, h: nat, i: nat)
    requires IsWord(w) && Agrees(m, w, h) && i < |w|
    ensures Admits(m, w[i]) <==> i >= h
  {
    var col := LaneOf(w[i]);
    RevisionBounds(w, h, col);
  }

  lemma {:induction false} BucketLast(m: Model, w: seq<Receipt>, s: nat, n: nat, col: nat)
    requires s < n <= |w|
    ensures Bucket(m, w[s..n], col) ==
            Bucket(m, w[s..n - 1], col) +
            (if LaneOf(w[n - 1]) == col && Admits(m, w[n - 1]) then [w[n - 1]] else [])
  {
    assert w[s..n][..n - 1 - s] == w[s..n - 1];
  }

  lemma {:induction false} LaneWordLast(w: seq<Receipt>, h: nat, n: nat, col: nat)
    requires h < n <= |w|
    ensures LaneWord(w[h..n], col) ==
            LaneWord(w[h..n - 1], col) + (if LaneOf(w[n - 1]) == col then [w[n - 1]] else [])
  {
    assert w[h..n][..n - 1 - h] == w[h..n - 1];
  }

  lemma {:induction false} BucketByNewness(m: Model, w: seq<Receipt>, h: nat, s: nat, n: nat, col: nat)
    requires s <= h && s <= n <= |w|
    requires forall i :: s <= i < n ==> (Admits(m, w[i]) <==> i >= h)
    ensures Bucket(m, w[s..n], col) == if n <= h then [] else LaneWord(w[h..n], col)
    decreases n
  {
    if s == n {
      assert w[s..n] == [];
    } else {
      BucketByNewness(m, w, h, s, n - 1, col);
      BucketLast(m, w, s, n, col);
      if n <= h {
        assert !Admits(m, w[n - 1]);
      } else {
        LaneWordLast(w, h, n, col);
        assert Admits(m, w[n - 1]);
        if n - 1 == h { assert LaneWord(w[h..n - 1], col) == []; }
        assert Bucket(m, w[s..n - 1], col) == LaneWord(w[h..n - 1], col);
      }
    }
  }

  /** Of a slice that starts at or before the mark, the guards admit exactly what lies past h. */
  lemma {:induction false} BucketIsNewSuffix(m: Model, w: seq<Receipt>, h: nat, s: nat, n: nat, col: nat)
    requires IsWord(w) && Agrees(m, w, h) && col < LANE_COUNT
    requires s <= m.mark && s <= n <= |w|
    ensures Bucket(m, w[s..n], col) == if n <= h then [] else LaneWord(w[h..n], col)
  {
    forall i | s <= i < n ensures Admits(m, w[i]) <==> i >= h {
      AdmitsExactlyNew(m, w, h, i);
    }
    BucketByNewness(m, w, h, s, n, col);
  }

  /** One delivered slice keeps the agreement, at the larger of the old reach and the page's end. */
  lemma {:induction false} FoldStepAgrees(m: Model, w: seq<Receipt>, h: nat, s: nat, n: nat)
    requires IsWord(w) && Agrees(m, w, h)
    requires s <= m.mark && s <= n <= |w|
    ensures Agrees(Folded(m, WordHistory(n, w[s..n])), w, if n > h then n else h)
  {
    var page := WordHistory(n, w[s..n]);
    if n >= m.mark {
      forall col: nat | col < LANE_COUNT
        ensures FoldedColumn(m, page.word, col) == Fresh(w[..if n > h then n else h], col)
      {
        BucketIsNewSuffix(m, w, h, s, n, col);
        if n > h {
          LaneWordSplit(w, h, n, col);
          var old_ := LaneWord(w[..h], col);
          var new_ := LaneWord(w[h..n], col);
          LastKAppend(old_, new_, K_CARRIER);
          RevisionOfLastK(old_ + new_, K_CARRIER);
          if new_ == [] {
            assert old_ + new_ == old_;
          }
        }
      }
    }
  }

  /** A run: documents arrive one after another. */
  function Run(m: Model, docs: seq<Option<WordHistory>>): Model
    decreases |docs|
  {
    if docs == [] then m else Run(FoldedDocument(m, docs[0]), docs[1..])
  }

  /** The mark is the `next` of the last accepted document, whatever it was before; nothing else moves it. */
  ghost predicate MarkFollows(docs: seq<Option<WordHistory>>, before: int, mark: int) {
    || (mark == before && forall k :: 0 <= k < |docs| ==> Door(docs[k]).Malformed?)
    || exists i :: 0 <= i < |docs| && Door(docs[i]).Accepted? && docs[i].value.next == mark &&
                   forall k :: i < k < |docs| ==> Door(docs[k]).Malformed?
  }

  /** How a run stands after its last document: a malformed one moves nothing and is surfaced; an accepted one
      moves the mark to its own `next`, ahead or back; and when that is back, the page is refused as a
      truncation and no column moves. */
  ghost predicate Stands(before: Model, doc: Option<WordHistory>, after: Model) {
    match Door(doc)
    case Malformed(reason) => after == Model(Refused(reason), before.mark, before.columns)
    case Accepted(page) =>
      && after.mark == page.next
      && (after.status == Refused(Truncated) <==> page.next < before.mark)
      && (after.status == Live <==> page.next >= before.mark)
      && (page.next < before.mark ==> after.columns == before.columns)
  }

  lemma {:induction false} RunLast(m: Model, docs: seq<Option<WordHistory>>)
    requires docs != []
    ensures Run(m, docs) == FoldedDocument(Run(m, docs[..|docs| - 1]), docs[|docs| - 1])
    decreases |docs|
  {
    if |docs| > 1 {
      RunLast(FoldedDocument(m, docs[0]), docs[1..]);
      assert docs[1..][..|docs| - 2] == docs[..|docs| - 1][1..];
    }
  }

  lemma {:induction false} RunMarks(m: Model, docs: seq<Option<WordHistory>>)
    ensures MarkFollows(docs, m.mark, Run(m, docs).mark)
    ensures docs != [] ==> Stands(Run(m, docs[..|docs| - 1]), docs[|docs| - 1], Run(m, docs))
    decreases |docs|
  {
    if docs != [] {
      var front, last := docs[..|docs| - 1], docs[|docs| - 1];
      RunLast(m, docs);
      RunMarks(m, front);
      LastStands(Run(m, front), last);
      if Door(last).Accepted? {
        DoorAcceptsExactlyWellFormed(last);
        assert docs[|docs| - 1].value.next == Run(m, docs).mark;
      } else if i :| 0 <= i < |front| && Door(front[i]).Accepted? && front[i].value.next == Run(m, front).mark &&
                     forall k :: i < k < |front| ==> Door(front[k]).Malformed? {
        assert docs[i] == front[i];
        forall k | i < k < |docs| ensures Door(docs[k]).Malformed? {
          if k < |front| { assert docs[k] == front[k]; }
        }
      } else {
        forall k | 0 <= k < |docs| ensures Door(docs[k]).Malformed? {
          if k < |front| { assert docs[k] == front[k]; }
        }
      }
    }
  }

  lemma {:induction false} LastStands(before: Model, doc: Option<WordHistory>)
    ensures Stands(before, doc, FoldedDocument(before, doc))
  {
  }

  /** The document is the word's slice from s to its own `next`. */
  ghost predicate IsSlice(w: seq<Receipt>, p: WordHistory, s: nat) {
    s <= p.next <= |w| && p.word == w[s..p.next]
  }

  /** Every document is refused at the door, or is a slice that starts at or before the mark then held. */
  ghost predicate Delivered(w: seq<Receipt>, m: Model, docs: seq<Option<WordHistory>>)
    decreases |docs|
  {
    docs != [] ==>
      && (Door(docs[0]).Accepted? ==> exists s: nat :: s <= m.mark && IsSlice(w, docs[0].value, s))
      && Delivered(w, FoldedDocument(m, docs[0]), docs[1..])
  }

  /** The largest mark any accepted document of the run reached. */
  function HighWater(docs: seq<Option<WordHistory>>, h: nat): nat {
    if docs == [] then h
    else
      var reach: nat := match Door(docs[0])
                        case Accepted(p) => if p.next > h then p.next else h
                        case Malformed(_) => h;
      HighWater(docs[1..], reach)
  }

  lemma {:induction false} RunAgrees(w: seq<Receipt>, m: Model, h: nat, docs: seq<Option<WordHistory>>)
    requires IsWord(w) && Agrees(m, w, h) && Delivered(w, m, docs)
    ensures Agrees(Run(m, docs), w, HighWater(docs, h))
    decreases |docs|
  {
    if docs != [] {
      var m' := FoldedDocument(m, docs[0]);
      match Door(docs[0]) {
        case Malformed(_) =>
          RunAgrees(w, m', h, docs[1..]);
        case Accepted(p) =>
          DoorAcceptsExactlyWellFormed(docs[0]);
          var s: nat :| s <= m.mark && IsSlice(w, p, s);
          FoldStepAgrees(m, w, h, s, p.next);
          RunAgrees(w, m', if p.next > h then p.next else h, docs[1..]);
      }
    }
  }

  lemma {:induction false} EmptyModelAgrees(w: seq<Receipt>)
    ensures Agrees(EMPTY_MODEL, w, 0)
  {
    assert w[..0] == [];
  }

  /** From the empty model, after any delivery of slices of one word with malformed documents mixed in,
      every lane holds exactly what a fresh fold of the word up to the high water would hold. */
  lemma {:induction false} FoldRefinesWord(w: seq<Receipt>, docs: seq<Option<WordHistory>>)
    requires IsWord(w) && Delivered(w, EMPTY_MODEL, docs)
    ensures HighWater(docs, 0) <= |w|
    ensures |Run(EMPTY_MODEL, docs).columns| == LANE_COUNT
    ensures forall col: nat :: col < LANE_COUNT ==>
              Run(EMPTY_MODEL, docs).columns[col] == Fresh(w[..HighWater(docs, 0)], col)
    ensures 0 <= Run(EMPTY_MODEL, docs).mark <= HighWater(docs, 0)
  {
    EmptyModelAgrees(w);
    RunAgrees(w, EMPTY_MODEL, 0, docs);
  }

  /** Nothing is lost or counted twice: the lane counts of a word add up to its length. */
  lemma {:induction false} LaneCountsPartition(w: seq<Receipt>)
    ensures TotalCount(seq(LANE_COUNT, col requires 0 <= col < LANE_COUNT => Fresh(w, col))) == |w|
  {
    LaneCountsFrom(w, 0);
    var columns := seq(LANE_COUNT, col requires 0 <= col < LANE_COUNT => Fresh(w, col));
    assert columns[0..] == columns;
    LanesFromZero(w);
  }

  /** How many receipts of a word belong to lane `from` or later. */
  function LanesFrom(w: seq<Receipt>, from: nat): nat {
    if w == [] then 0
    else LanesFrom(w[..|w| - 1], from) + if LaneOf(w[|w| - 1]) >= from then 1 else 0
  }

  lemma {:induction false} LanesFromZero(w: seq<Receipt>)
    ensures LanesFrom(w, 0) == |w|
    ensures LanesFrom(w, LANE_COUNT) == 0
  {
    if w != [] { LanesFromZero(w[..|w| - 1]); }
  }

  lemma {:induction false} LanesFromStep(w: seq<Receipt>, from: nat)
    ensures LanesFrom(w, from) == |LaneWord(w, from)| + LanesFrom(w, from + 1)
  {
    if w != [] { LanesFromStep(w[..|w| - 1], from); }
  }

  lemma {:induction false} LaneCountsFrom(w: seq<Receipt>, from: nat)
    requires from <= LANE_COUNT
    ensures var columns := seq(LANE_COUNT, col requires 0 <= col < LANE_COUNT => Fresh(w, col));
            TotalCount(columns[from..]) == LanesFrom(w, from)
    decreases LANE_COUNT - from
  {
    var columns := seq(LANE_COUNT, col requires 0 <= col < LANE_COUNT => Fresh(w, col));
    if from == LANE_COUNT {
      LanesFromZero(w);
    } else {
      LaneCountsFrom(w, from + 1);
      LanesFromStep(w, from);
      assert columns[from..][1..] == columns[from + 1..];
    }
  }

  // ---------------------------------------------------------------- incremental equals batch

  lemma {:induction false} BucketAppend(m: Model, a: seq<Receipt>, b: seq<Receipt>, col: nat)
    ensures Bucket(m, a + b, col) == Bucket(m, a, col) + Bucket(m, b, col)
  {
    if b == [] {
      assert a + b == a;
    } else {
      BucketAppend(m, a, b[..|b| - 1], col);
      assert (a + b)[..|a + b| - 1] == a + b[..|b| - 1];
    }
  }

  lemma {:induction false} BucketMembers(m: Model, word: seq<Receipt>, col: nat)
    ensures forall r :: r in Bucket(m, word, col) ==> r in word && Admits(m, r) && LaneOf(r) == col
  {
    if word != [] { BucketMembers(m, word[..|word| - 1], col); }
  }

  /** Folding page a does not change which later receipts the guards admit. */
  lemma {:induction false} GuardUnmoved(m: Model, a: WordHistory, word: seq<Receipt>, col: nat)
    requires col < |m.columns| && m.mark <= a.next
    requires forall r :: r in a.word ==> r.seqNo < a.next
    requires forall r :: r in word ==> a.next <= r.seqNo
    ensures Bucket(Folded(m, a), word, col) == Bucket(m, word, col)
  {
    if word != [] {
      GuardUnmoved(m, a, word[..|word| - 1], col);
      var r := word[|word| - 1];
      assert r in word;
      BucketMembers(m, a.word, col);
      var added := Bucket(m, a.word, col);
      if added != [] {
        var newest := added[|added| - 1];
        assert newest in added;
        RevisionOfLastK(m.columns[col].tail + added, K_CARRIER);
      }
    }
  }

  lemma {:induction false} ColumnIncrementalEqualsBatch(m: Model, a: WordHistory, b: WordHistory, col: nat)
    requires col < |m.columns| && m.mark <= a.next
    requires forall r :: r in a.word ==> r.seqNo < a.next
    requires forall r :: r in b.word ==> a.next <= r.seqNo
    ensures FoldedColumn(Folded(m, a), b.word, col) == FoldedColumn(m, a.word + b.word, col)
  {
    var added := Bucket(m, a.word, col);
    var more := Bucket(m, b.word, col);
    BucketAppend(m, a.word, b.word, col);
    GuardUnmoved(m, a, b.word, col);
    GrownTwice(m.columns[col], added, more);
    if added == [] {
      assert added + more == more;
    } else if more == [] {
      assert added + more == added;
    }
  }

  /** Two adjacent pages folded one by one leave the model one fold of their concatenation leaves. */
  lemma {:induction false} IncrementalEqualsBatch(m: Model, a: WordHistory, b: WordHistory)
    requires m.mark <= a.next <= b.next
    requires forall r :: r in a.word ==> r.seqNo < a.next
    requires forall r :: r in b.word ==> a.next <= r.seqNo
    ensures Folded(Folded(m, a), b) == Folded(m, ConcatPages(a, b))
  {
    var m' := Folded(m, a);
    forall col: nat | col < |m.columns|
      ensures FoldedColumn(m', b.word, col) == FoldedColumn(m, a.word + b.word, col)
    {
      ColumnIncrementalEqualsBatch(m, a, b, col);
    }
    assert Folded(m', b).columns == Folded(m, ConcatPages(a, b)).columns;
  }

  // ---------------------------------------------------------------- valid in, valid out

  lemma {:induction false} BucketAscends(m: Model, word: seq<Receipt>, col: nat)
    requires Ascending(word)
    ensures Ascending(Bucket(m, word, col))
  {
    if word != [] {
      var front := word[..|word| - 1];
      BucketAscends(m, front, col);
      BucketMembers(m, front, col);
      var rest := Bucket(m, front, col);
      forall i | 0 <= i < |rest| ensures rest[i].seqNo < word[|word| - 1].seqNo {
        assert rest[i] in front;
      }
    }
  }

  /** The fold keeps the carrier invariant on every page the door lets through. */
  lemma {:induction false} ValidInValidOut(m: Model, input: Option<WordHistory>)
    requires Valid(m)
    ensures Valid(FoldedDocument(m, input))
  {
    DoorAcceptsExactlyWellFormed(input);
    if Door(input).Accepted? && input.value.next >= m.mark {
      forall col: nat | col < LANE_COUNT
        ensures ValidColumn(FoldedColumn(m, input.value.word, col), col)
      {
        BucketAscends(m, input.value.word, col);
        BucketMembers(m, input.value.word, col);
        GrownValid(m.columns[col], Bucket(m, input.value.word, col), col);
      }
    }
  }

  lemma {:induction false} GrownValid(c: Column, added: seq<Receipt>, col: nat)
    requires ValidColumn(c, col) && Ascending(added)
    requires forall r :: r in added ==> LaneOf(r) == col && r.seqNo > c.tailRevision
    ensures ValidColumn(Grown(c, added), col)
  {
    var merged := c.tail + added;
    forall i, j | 0 <= i < j < |merged| ensures merged[i].seqNo < merged[j].seqNo {
      if i < |c.tail| <= j {
        assert merged[j] in added;
        if i < |c.tail| - 1 { assert c.tail[i].seqNo < c.tail[|c.tail| - 1].seqNo; }
      }
    }
    RevisionOfLastK(merged, K_CARRIER);
  }
}
