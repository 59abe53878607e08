/**
  The trunk's vocabulary: lanes, the tag classifier, receipts, pages and the carrier.
  Source: experiments/workbench/src/trunk/model.ts.
 */
module TrunkModel {

  /** How many receipts one lane's carrier holds. */
  const K_CARRIER: nat := 512

  /** The individuated span of a first paint. */
  const WINDOW: nat := 30

  const LANE_COUNT: nat := 16

  datatype LaneId =
    | Schema | Git | Cont | Agent
    | Step
    | Manifest | Tree | File
    | Context | Entry | Value | Annotation | Query | Result
    | Chunk
    | Unregistered

  /** Where a lane sits in the ruled order. */
  function LaneIndex(lane: LaneId): (col: nat)
    ensures col < LANE_COUNT
  {
    match lane
    case Schema => 0 case Git => 1 case Cont => 2 case Agent => 3
    case Step => 4
    case Manifest => 5 case Tree => 6 case File => 7
    case Context => 8 case Entry => 9 case Value => 10
    case Annotation => 11 case Query => 12 case Result => 13
    case Chunk => 14
    case Unregistered => 15
  }

  /** The classifier of the generated tag registry; every other tag lands in the residue lane. */
  function LaneOfTag(tag: int): LaneId {
    match tag
    case 1 => Value
    case 8 => Chunk
    case 9 => Tree
    case 10 => Manifest
    case 11 => File
    case 12 => Entry
    case 13 => Context
    case 14 => Step
    case 15 => Cont
    case 65 => Annotation
    case 71 => Git
    case 73 => Agent
    case 81 => Query
    case 82 => Result
    case 83 => Schema
    case _ => Unregistered
  }

  /** The column a receipt belongs to. */
  function LaneOf(r: Receipt): (col: nat)
    ensures col < LANE_COUNT
  {
    LaneIndex(LaneOfTag(r.tag))
  }

  /** One admission: `seqNo` is its zero-based index in the word. */
  datatype Receipt = Receipt(address: string, at: int, seqNo: int, size: int, tag: int)

  /** One page of the word: receipts from a mark, and the mark to resume from. */
  datatype WordHistory = WordHistory(next: int, word: seq<Receipt>)

  /** One lane's bounded snapshot: every receipt ever folded is counted, the last few are held. */
  datatype Column = Column(count: int, tailRevision: int, tail: seq<Receipt>)

  /** Why a document was refused. */
  datatype Reason =
    | NotAHistory
    | NegativeNext(next: int)
    | OutOfOrder(seqNo: int, previous: int)
    | BadAddress(seqNo: int)
    | Truncated

  datatype Status = Idle | Loading | Live | Refused(reason: Reason)

  datatype Model = Model(status: Status, mark: int, columns: seq<Column>)

  const EMPTY_COLUMN: Column := Column(0, -1, [])

  const EMPTY_MODEL: Model := Model(Idle, 0, seq(LANE_COUNT, _ => EMPTY_COLUMN))

  /** The sum of column counts: every receipt ever folded. */
  function TotalCount(columns: seq<Column>): int {
    if columns == [] then 0 else columns[0].count + TotalCount(columns[1..])
  }

  /** The last k elements, or everything when there are no more than k. */
  function LastK<T>(s: seq<T>, k: nat): seq<T> {
    if |s| > k then s[|s| - k..] else s
  }

  /** The revision a tail names: its last seq, or -1 when nothing is held. */
  function RevisionOf(tail: seq<Receipt>): int {
    if tail == [] then -1 else tail[|tail| - 1].seqNo
  }

  /** Sequence numbers strictly ascending: the order of admission. */
  ghost predicate Ascending(word: seq<Receipt>) {
    forall i, j :: 0 <= i < j < |word| ==> word[i].seqNo < word[j].seqNo
  }

  /** The carrier invariant of one lane. */
  ghost predicate ValidColumn(c: Column, col: nat) {
    && c.count >= 0
    && |c.tail| == (if c.count < K_CARRIER then c.count else K_CARRIER)
    && Ascending(c.tail)
    && (forall r :: r in c.tail ==> LaneOf(r) == col)
    && c.tailRevision == RevisionOf(c.tail)
  }

  /** The carrier invariant of a model. */
  ghost predicate Valid(m: Model) {
    && |m.columns| == LANE_COUNT
    && (forall col: nat :: col < LANE_COUNT ==> ValidColumn(m.columns[col], col))
    && m.mark >= 0
  }
}
