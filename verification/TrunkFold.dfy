/**
  The seq-guarded fold: pages of the word into the trunk's carrier.
  Source: experiments/workbench/src/trunk/fold.ts.

  The methods follow the source's loops; each is proved against a function on values, and
  TrunkFoldLaws states what those functions mean for the word.
 */
module TrunkFold {
  import opened Outcomes
  import opened TrunkModel

  datatype Decoded = Accepted(history: WordHistory) | Malformed(reason: Reason)

  predicate IsLowerHex(c: char) {
    '0' <= c <= '9' || 'a' <= c <= 'f'
  }

  /** 64 lowercase hex digits. */
  predicate IsAddress(a: string) {
    |a| == 64 && forall i :: 0 <= i < |a| ==> IsLowerHex(a[i])
  }

  /** What the door checks of a receipt that follows seq `previous`. */
  function FaultOf(r: Receipt, previous: int): Option<Reason> {
    if r.seqNo <= previous then Some(OutOfOrder(r.seqNo, previous))
    else if !IsAddress(r.address) then Some(BadAddress(r.seqNo))
    else None
  }

  /** The first thing wrong with a page's word, reading from the front. */
  function FirstFault(word: seq<Receipt>, previous: int): Option<Reason> {
    if word == [] then None
    else if FaultOf(word[0], previous).Some? then FaultOf(word[0], previous)
    else FirstFault(word[1..], word[0].seqNo)
  }

  function Door(input: Option<WordHistory>): Decoded {
    match input
    case None => Malformed(NotAHistory)
    case Some(history) =>
      if history.next < 0 then Malformed(NegativeNext(history.next))
      else match FirstFault(history.word, -1)
           case Some(reason) => Malformed(reason)
           case None => Accepted(history)
  }

  /** The door, as the source runs it. `None` is input the generated schema rejects. */
  method DecodeHistory(input: Option<WordHistory>) returns (d: Decoded)
    ensures d == Door(input)
  {
    if input.None? {
      return Malformed(NotAHistory);
    }
    var history := input.value;
    if history.next < 0 {
      return Malformed(NegativeNext(history.next));
    }
    var previous := -1;
    for i := 0 to |history.word|
      invariant FirstFault(history.word, -1) == FirstFault(history.word[i..], previous)
    {
      var receipt := history.word[i];
      if receipt.seqNo <= previous {
        return Malformed(OutOfOrder(receipt.seqNo, previous));
      }
      if !IsAddress(receipt.address) {
        return Malformed(BadAddress(receipt.seqNo));
      }
      previous := receipt.seqNo;
    }
    return Accepted(history);
  }

  /** Concatenation of two adjacent pages. */
  function ConcatPages(a: WordHistory, b: WordHistory): WordHistory {
    WordHistory(b.next, a.word + b.word)
  }

  /** A column after the receipts a page adds to it, cut back to the carrier bound. */
  function Grown(column: Column, added: seq<Receipt>): Column {
    var tail := LastK(column.tail + added, K_CARRIER);
    Column(column.count + |added|, RevisionOf(tail), tail)
  }

  /** What both `continue`s of the loop let through. */
  predicate Admits(m: Model, r: Receipt) {
    && r.seqNo >= m.mark
    && LaneOf(r) < |m.columns|
    && r.seqNo > m.columns[LaneOf(r)].tailRevision
  }

  /** The receipts of a word that pass the guards into one lane. */
  function Bucket(m: Model, word: seq<Receipt>, col: nat): seq<Receipt> {
    if word == [] then []
    else
      var r := word[|word| - 1];
      var rest := Bucket(m, word[..|word| - 1], col);
      if LaneOf(r) == col && Admits(m, r) then rest + [r] else rest
  }

  function FoldedColumn(m: Model, word: seq<Receipt>, col: nat): Column
    requires col < |m.columns|
  {
    var added := Bucket(m, word, col);
    if added == [] then m.columns[col] else Grown(m.columns[col], added)
  }

  /** The model after a page: refused and surfaced when the page ends below the mark. */
  function Folded(m: Model, page: WordHistory): Model {
    if page.next < m.mark then Model(Refused(Truncated), page.next, m.columns)
    else Model(Live, page.next,
               seq(|m.columns|, col requires 0 <= col < |m.columns| => FoldedColumn(m, page.word, col)))
  }

  /** The fold as the source runs it: one pass over the page filling a map of buckets. */
  method FoldPage(m: Model, page: WordHistory) returns (m': Model)
    ensures m' == Folded(m, page)
  {
    if page.next < m.mark {
      return Model(Refused(Truncated), page.next, m.columns);
    }
    var admitted: map<nat, seq<Receipt>> := map[];
    for i := 0 to |page.word|
      invariant forall col: nat ::
          col in admitted <==> Bucket(m, page.word[..i], col) != []
      invariant forall col: nat ::
          col in admitted ==> col < |m.columns| && admitted[col] == Bucket(m, page.word[..i], col)
    {
      var receipt := page.word[i];
      assert page.word[..i + 1][..i] == page.word[..i];
      if receipt.seqNo < m.mark { continue; }
      var col := LaneOf(receipt);
      if col >= |m.columns| || receipt.seqNo <= m.columns[col].tailRevision { continue; }
      if col !in admitted {
        admitted := admitted[col := [receipt]];
      } else {
        admitted := admitted[col := admitted[col] + [receipt]];
      }
    }
    assert page.word[..|page.word|] == page.word;
    var columns := m.columns;
    if admitted != map[] {
      columns := seq(|m.columns|, col requires 0 <= col < |m.columns| =>
        if col in admitted then Grown(m.columns[col], admitted[col]) else m.columns[col]);
    } else {
      forall col: nat ensures col !in admitted {}
    }
    m' := Model(Live, page.next, columns);
    assert m'.columns == Folded(m, page).columns;
  }

  /** Decode, then fold; a malformed document moves neither the mark nor a column. */
  function FoldedDocument(m: Model, input: Option<WordHistory>): Model {
    match Door(input)
    case Malformed(reason) => Model(Refused(reason), m.mark, m.columns)
    case Accepted(history) => Folded(m, history)
  }

  method FoldDocument(m: Model, input: Option<WordHistory>) returns (m': Model)
    ensures m' == FoldedDocument(m, input)
  {
    var decoded := DecodeHistory(input);
    if decoded.Malformed? {
      m' := Model(Refused(decoded.reason), m.mark, m.columns);
    } else {
      m' := FoldPage(m, decoded.history);
    }
  }
}
