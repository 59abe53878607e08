/**
  The placement: index space, no pixels. One strip over a column's aggregated rows, one square per
  individuated row.
  Source: experiments/workbench/src/trunk/placement.ts.
 */
module TrunkPlacement {
  import opened Outcomes
  import opened TrunkModel
  import opened TrunkFold
  import opened TrunkFoldLaws

  datatype Op =
    | Square(col: nat, row: int, address: string)
    | Strip(col: nat, fromRow: int, count: int)

  /** The frozen partition: floor[col] is the first individuated row of that column. */
  datatype Doi = Doi(span: int, floor: seq<nat>)

  const INITIAL_DOI: Doi := Doi(WINDOW, seq(LANE_COUNT, _ => 0))

  function Max(a: int, b: int): int { if a >= b then a else b }
  function Min(a: int, b: int): int { if a <= b then a else b }

  /** The only producer of a partition: a cut. */
  function CutDoi(columns: seq<Column>, visible: int): Doi {
    Doi(visible, seq(|columns|, col requires 0 <= col < |columns| => Max(0, columns[col].count - visible)))
  }

  function StartRow(op: Op): int { if op.Square? then op.row else op.fromRow }

  function Covered(op: Op): int { if op.Square? then 1 else op.count }

  function OpTotal(ops: seq<Op>): int {
    if ops == [] then 0 else OpTotal(ops[..|ops| - 1]) + Covered(ops[|ops| - 1])
  }

  /** A partition with no floor for a column individuates all of it. */
  function FloorAt(doi: Doi, col: nat): nat {
    if col < |doi.floor| then doi.floor[col] else 0
  }

  /** The floor a column is painted at: no square may claim a row the carrier no longer holds. */
  function PaintedFloor(column: Column, asked: nat): int {
    Max(Min(asked, column.count), column.count - |column.tail|)
  }

  /** The squares of rows lo..hi whose receipts are held. */
  function Squares(column: Column, col: nat, lo: int, hi: int): seq<Op>
    decreases hi - lo
  {
    if hi <= lo then []
    else
      var rest := Squares(column, col, lo, hi - 1);
      var slot := hi - 1 - (column.count - |column.tail|);
      if 0 <= slot < |column.tail| then rest + [Square(col, hi - 1, column.tail[slot].address)] else rest
  }

  /** The aggregated rows below a floor, as one strip. */
  function StripBelow(col: nat, floor: int): seq<Op> {
    if floor > 0 then [Strip(col, 0, floor)] else []
  }

  function ColumnOps(column: Column, col: nat, asked: nat): seq<Op> {
    if column.count == 0 then []
    else
      var floor := PaintedFloor(column, asked);
      StripBelow(col, floor) + Squares(column, col, floor, column.count)
  }

  /** The full placement of the first n columns. */
  function OpsOf(columns: seq<Column>, doi: Doi, n: nat): seq<Op>
    requires n <= |columns|
  {
    if n == 0 then []
    else OpsOf(columns, doi, n - 1) + ColumnOps(columns[n - 1], n - 1, FloorAt(doi, n - 1))
  }

  function Placement(m: Model, doi: Doi): seq<Op> {
    OpsOf(m.columns, doi, |m.columns|)
  }

  /** The placement as the source builds it: one column after another appended to one list. */
  method PlacementOf(m: Model, doi: Doi) returns (ops: seq<Op>)
    ensures ops == Placement(m, doi)
  {
    ops := [];
    for col := 0 to |m.columns|
      invariant ops == OpsOf(m.columns, doi, col)
    {
      ops := PushColumn(ops, m.columns[col], col, doi);
    }
  }

  method PushColumn(before: seq<Op>, column: Column, col: nat, doi: Doi) returns (ops: seq<Op>)
    ensures ops == before + ColumnOps(column, col, FloorAt(doi, col))
  {
    ops := before;
    if column.count == 0 { return; }
    var carrierBase := column.count - |column.tail|;
    var asked := Min(if col < |doi.floor| then doi.floor[col] else 0, column.count);
    var floor := Max(asked, carrierBase);
    if floor > 0 {
      ops := ops + [Strip(col, 0, floor)];
    }
    assert ops == before + StripBelow(col, floor);
    var row := floor;
    while row < column.count
      invariant floor <= row <= column.count
      invariant ops == before + StripBelow(col, floor) + Squares(column, col, floor, row)
    {
      var slot := row - carrierBase;
      if 0 <= slot < |column.tail| {
        ops := ops + [Square(col, row, column.tail[slot].address)];
      }
      row := row + 1;
    }
  }

  // ---------------------------------------------------------------- canonical order and exact cover

  /** a comes before b and ends before b starts: column ascending, then rows ascending. */
  ghost predicate Before(a: Op, b: Op) {
    a.col < b.col || (a.col == b.col && StartRow(a) + Covered(a) <= StartRow(b))
  }

  ghost predicate Canonical(ops: seq<Op>) {
    && (forall i, j :: 0 <= i < j < |ops| ==> Before(ops[i], ops[j]))
    && forall i :: 0 <= i < |ops| ==> StartRow(ops[i]) >= 0 && Covered(ops[i]) >= 1
  }

  predicate Covers(op: Op, col: nat, row: int) {
    op.col == col && StartRow(op) <= row < StartRow(op) + Covered(op)
  }

  /** How many ops of a placement cover a row. */
  function CoverCount(ops: seq<Op>, col: nat, row: int): nat {
    if ops == [] then 0
    else CoverCount(ops[..|ops| - 1], col, row) + if Covers(ops[|ops| - 1], col, row) then 1 else 0
  }

  lemma {:induction false} CoverCountAppend(a: seq<Op>, b: seq<Op>, col: nat, row: int)
    ensures CoverCount(a + b, col, row) == CoverCount(a, col, row) + CoverCount(b, col, row)
  {
    if b == [] {
      assert a + b == a;
    } else {
      CoverCountAppend(a, b[..|b| - 1], col, row);
      assert (a + b)[..|a + b| - 1] == a + b[..|b| - 1];
    }
  }

  lemma {:induction false} OpTotalAppend(a: seq<Op>, b: seq<Op>)
    ensures OpTotal(a + b) == OpTotal(a) + OpTotal(b)
  {
    if b == [] {
      assert a + b == a;
    } else {
      OpTotalAppend(a, b[..|b| - 1]);
      assert (a + b)[..|a + b| - 1] == a + b[..|b| - 1];
    }
  }

  /** One square per row, in order, each naming the receipt the carrier holds for that row. */
  lemma {:induction false} SquaresExact(column: Column, col: nat, lo: int, hi: int)
    requires 0 <= column.count - |column.tail| <= lo <= hi <= column.count
    ensures var s := Squares(column, col, lo, hi);
            && |s| == hi - lo
            && forall i :: 0 <= i < |s| ==>
                 s[i] == Square(col, lo + i, column.tail[lo + i - (column.count - |column.tail|)].address)
    decreases hi - lo
  {
    if lo < hi {
      SquaresExact(column, col, lo, hi - 1);
    }
  }

  lemma {:induction false} SquaresCount(column: Column, col: nat, lo: int, hi: int, c: nat, row: int)
    requires 0 <= column.count - |column.tail| <= lo <= hi <= column.count
    ensures OpTotal(Squares(column, col, lo, hi)) == hi - lo
    ensures CoverCount(Squares(column, col, lo, hi), c, row) == if c == col && lo <= row < hi then 1 else 0
    decreases hi - lo
  {
    if lo < hi {
      SquaresCount(column, col, lo, hi - 1, c, row);
      var rest := Squares(column, col, lo, hi - 1);
      var s := Squares(column, col, lo, hi);
      assert s[..|s| - 1] == rest;
    }
  }

  lemma {:induction false} OneOp(op: Op, c: nat, row: int)
    ensures OpTotal([op]) == Covered(op)
    ensures CoverCount([op], c, row) == if Covers(op, c, row) then 1 else 0
  {
    assert [op][..0] == [];
  }

  /** A column's ops tile its rows: canonical order, and each row exactly once. */
  lemma {:induction false} ColumnOpsCount(column: Column, col: nat, asked: nat, c: nat, row: int)
    requires ValidColumn(column, col)
    ensures OpTotal(ColumnOps(column, col, asked)) == column.count
    ensures CoverCount(ColumnOps(column, col, asked), c, row) ==
            if c == col && 0 <= row < column.count then 1 else 0
  {
    if column.count > 0 {
      var floor := PaintedFloor(column, asked);
      var strip := StripBelow(col, floor);
      var squares := Squares(column, col, floor, column.count);
      SquaresCount(column, col, floor, column.count, c, row);
      OpTotalAppend(strip, squares);
      CoverCountAppend(strip, squares, c, row);
      if floor > 0 { OneOp(strip[0], c, row); }
    }
  }

  lemma {:induction false} ColumnOpsCanonical(column: Column, col: nat, asked: nat)
    requires ValidColumn(column, col)
    ensures Canonical(ColumnOps(column, col, asked))
    ensures forall i :: 0 <= i < |ColumnOps(column, col, asked)| ==> ColumnOps(column, col, asked)[i].col == col
  {
    if column.count > 0 {
      SquaresExact(column, col, PaintedFloor(column, asked), column.count);
    }
  }

  lemma {:induction false} OpsCanonical(m: Model, doi: Doi, n: nat)
    requires Valid(m) && n <= LANE_COUNT
    ensures Canonical(OpsOf(m.columns, doi, n))
    ensures forall i :: 0 <= i < |OpsOf(m.columns, doi, n)| ==> OpsOf(m.columns, doi, n)[i].col < n
    decreases n
  {
    if n > 0 {
      OpsCanonical(m, doi, n - 1);
      ColumnOpsCanonical(m.columns[n - 1], n - 1, FloorAt(doi, n - 1));
    }
  }

  lemma {:induction false} OpsCount(m: Model, doi: Doi, n: nat, c: nat, row: int)
    requires Valid(m) && n <= LANE_COUNT
    ensures CoverCount(OpsOf(m.columns, doi, n), c, row) ==
            if c < n && 0 <= row < m.columns[c].count then 1 else 0
    ensures OpTotal(OpsOf(m.columns, doi, n)) + TotalCount(m.columns[n..]) == TotalCount(m.columns)
    decreases n
  {
    if n == 0 {
      assert m.columns[0..] == m.columns;
    } else {
      OpsCount(m, doi, n - 1, c, row);
      var front := OpsOf(m.columns, doi, n - 1);
      var last := ColumnOps(m.columns[n - 1], n - 1, FloorAt(doi, n - 1));
      ColumnOpsCount(m.columns[n - 1], n - 1, FloorAt(doi, n - 1), c, row);
      OpTotalAppend(front, last);
      CoverCountAppend(front, last, c, row);
      assert m.columns[n - 1..][1..] == m.columns[n..];
    }
  }

  /** Under any partition, every row ever admitted is painted by exactly one op and nothing else is,
      the ops come in canonical order, and they add up to the receipts folded. */
  lemma {:induction false} ExactlyOnceCover(m: Model, doi: Doi)
    requires Valid(m)
    ensures Canonical(Placement(m, doi))
    ensures forall c: nat, row :: CoverCount(Placement(m, doi), c, row) ==
                                  if c < LANE_COUNT && 0 <= row < m.columns[c].count then 1 else 0
    ensures OpTotal(Placement(m, doi)) == TotalCount(m.columns)
  {
    OpsCanonical(m, doi, LANE_COUNT);
    assert m.columns[LANE_COUNT..] == [];
    OpsCount(m, doi, LANE_COUNT, 0, 0);
    forall c: nat, row: int
      ensures CoverCount(Placement(m, doi), c, row) ==
              if c < LANE_COUNT && 0 <= row < m.columns[c].count then 1 else 0
    {
      OpsCount(m, doi, LANE_COUNT, c, row);
    }
  }

  // ---------------------------------------------------------------- exact individuation

  /** A row gets its own square when it is at or above the floor and the carrier still holds its receipt. */
  predicate Individuated(column: Column, asked: nat, row: int) {
    asked <= row < column.count && column.count - |column.tail| <= row
  }

  /** What is painted of a column: one square for each individuated row, with the address held for it, and one
      strip for all rows that are not, if there are any. */
  ghost predicate OpOfColumn(column: Column, col: nat, asked: nat, op: Op) {
    match op
    case Square(c, row, address) =>
      && c == col && |column.tail| <= column.count && Individuated(column, asked, row)
      && address == column.tail[row - (column.count - |column.tail|)].address
    case Strip(c, fromRow, count) =>
      && c == col && fromRow == 0 && 0 < count <= column.count
      && forall row :: 0 <= row < column.count ==> (row < count <==> !Individuated(column, asked, row))
  }

  lemma {:induction false} StripOfColumn(column: Column, col: nat, asked: nat, op: Op)
    requires ValidColumn(column, col) && column.count > 0 && op.Strip?
    ensures op in StripBelow(col, PaintedFloor(column, asked)) <==> OpOfColumn(column, col, asked, op)
  {
    var floor := PaintedFloor(column, asked);
    assert forall row :: 0 <= row < column.count ==> (row < floor <==> !Individuated(column, asked, row));
    if OpOfColumn(column, col, asked, op) {
      assert op.count - 1 < op.count && !Individuated(column, asked, op.count - 1);
      if op.count < column.count { assert Individuated(column, asked, op.count); }
    }
  }

  lemma {:induction false} SquareOfColumn(column: Column, col: nat, asked: nat, op: Op)
    requires ValidColumn(column, col) && column.count > 0 && op.Square?
    ensures op in Squares(column, col, PaintedFloor(column, asked), column.count) <==>
            OpOfColumn(column, col, asked, op)
  {
    var floor := PaintedFloor(column, asked);
    SquaresExact(column, col, floor, column.count);
    var s := Squares(column, col, floor, column.count);
    if OpOfColumn(column, col, asked, op) { assert s[op.row - floor] == op; }
  }

  lemma {:induction false} ColumnOpsExactly(column: Column, col: nat, asked: nat, op: Op)
    requires ValidColumn(column, col)
    ensures op in ColumnOps(column, col, asked) <==> OpOfColumn(column, col, asked, op)
  {
    if column.count > 0 {
      var floor := PaintedFloor(column, asked);
      SquaresExact(column, col, floor, column.count);
      if op.Strip? { StripOfColumn(column, col, asked, op); } else { SquareOfColumn(column, col, asked, op); }
    }
  }

  /** Which ops a placement has: with the canonical order, what it is. */
  lemma {:induction false} PlacementExactly(m: Model, doi: Doi, op: Op)
    requires Valid(m)
    ensures op in Placement(m, doi) <==>
            op.col < LANE_COUNT && OpOfColumn(m.columns[op.col], op.col, FloorAt(doi, op.col), op)
  {
    OpsExactly(m, doi, LANE_COUNT, op);
  }

  lemma {:induction false} OpsExactly(m: Model, doi: Doi, n: nat, op: Op)
    requires Valid(m) && n <= LANE_COUNT
    ensures op in OpsOf(m.columns, doi, n) <==>
            op.col < n && OpOfColumn(m.columns[op.col], op.col, FloorAt(doi, op.col), op)
    decreases n
  {
    if n > 0 {
      OpsExactly(m, doi, n - 1, op);
      ColumnOpsExactly(m.columns[n - 1], n - 1, FloorAt(doi, n - 1), op);
    }
  }

  /** After a cut a column shows, one by one, the newest rows the cut lets through and the carrier holds. */
  lemma {:induction false} CutShowsNewest(m: Model, visible: nat, col: nat, row: int)
    requires Valid(m) && col < LANE_COUNT
    ensures var c := m.columns[col];
            (exists address :: Square(col, row, address) in Placement(m, CutDoi(m.columns, visible))) <==>
            c.count - Min(visible, |c.tail|) <= row < c.count
  {
    var c, doi := m.columns[col], CutDoi(m.columns, visible);
    if c.count - Min(visible, |c.tail|) <= row < c.count {
      SquareAfterCut(m, visible, col, row, c.tail[row - (c.count - |c.tail|)].address);
    }
    if address :| Square(col, row, address) in Placement(m, doi) {
      SquareAfterCut(m, visible, col, row, address);
    }
  }

  lemma {:induction false} SquareAfterCut(m: Model, visible: nat, col: nat, row: int, address: string)
    requires Valid(m) && col < LANE_COUNT
    ensures var c := m.columns[col];
            Square(col, row, address) in Placement(m, CutDoi(m.columns, visible)) <==>
            c.count - Min(visible, |c.tail|) <= row < c.count &&
            c.tail[row - (c.count - |c.tail|)].address == address
  {
    PlacementExactly(m, CutDoi(m.columns, visible), Square(col, row, address));
    assert FloorAt(CutDoi(m.columns, visible), col) == Max(0, m.columns[col].count - visible);
  }

  // ---------------------------------------------------------------- true addresses

  lemma {:induction false} FreshIsValid(w: seq<Receipt>, col: nat)
    requires IsWord(w)
    ensures ValidColumn(Fresh(w, col), col)
  {
    LaneWordOrdered(w, col);
    RevisionOfLastK(LaneWord(w, col), K_CARRIER);
  }

  lemma {:induction false} LaneWordOrdered(w: seq<Receipt>, col: nat)
    requires IsWord(w)
    ensures Ascending(LaneWord(w, col))
    ensures forall r :: r in LaneWord(w, col) ==> r in w && LaneOf(r) == col && r.seqNo < |w|
  {
    if w != [] {
      LaneWordOrdered(w[..|w| - 1], col);
    }
  }

  /** A square names the receipt its lane holds at its row. */
  predicate Addressed(w: seq<Receipt>, op: Op) {
    op.Square? ==> 0 <= op.row < |LaneWord(w, op.col)| && op.address == LaneWord(w, op.col)[op.row].address
  }

  ghost predicate AllAddressed(w: seq<Receipt>, ops: seq<Op>) {
    forall op :: op in ops ==> Addressed(w, op)
  }

  lemma {:induction false} AddressedAppend(w: seq<Receipt>, a: seq<Op>, b: seq<Op>)
    requires AllAddressed(w, a) && AllAddressed(w, b)
    ensures AllAddressed(w, a + b)
  {
  }

  /** The square at row r of a reachable column carries the address of the r-th receipt ever admitted. */
  lemma {:induction false} ColumnAddresses(w: seq<Receipt>, col: nat, asked: nat)
    requires IsWord(w)
    ensures AllAddressed(w, ColumnOps(Fresh(w, col), col, asked))
  {
    FreshIsValid(w, col);
    var column := Fresh(w, col);
    if column.count > 0 {
      var floor := PaintedFloor(column, asked);
      SquaresExact(column, col, floor, column.count);
      assert AllAddressed(w, Squares(column, col, floor, column.count));
      AddressedAppend(w, StripBelow(col, floor), Squares(column, col, floor, column.count));
    }
  }

  /** What holds of the ops of every column holds of all ops. */
  lemma {:induction false} EveryOp(columns: seq<Column>, doi: Doi, n: nat, good: Op -> bool)
    requires n <= |columns|
    requires forall c: nat :: c < n ==> AllGood(ColumnOps(columns[c], c, FloorAt(doi, c)), good)
    ensures AllGood(OpsOf(columns, doi, n), good)
  {
    if n > 0 {
      EveryOp(columns, doi, n - 1, good);
      assert AllGood(ColumnOps(columns[n - 1], n - 1, FloorAt(doi, n - 1)), good);
    }
  }

  ghost predicate AllGood(ops: seq<Op>, good: Op -> bool) {
    forall op :: op in ops ==> good(op)
  }

  lemma {:induction false} OpsAddresses(columns: seq<Column>, w: seq<Receipt>, doi: Doi, n: nat)
    requires n <= |columns|
    requires forall c: nat :: c < n ==> AllAddressed(w, ColumnOps(columns[c], c, FloorAt(doi, c)))
    ensures AllAddressed(w, OpsOf(columns, doi, n))
  {
    var good := (op: Op) => Addressed(w, op);
    forall c: nat | c < n ensures AllGood(ColumnOps(columns[c], c, FloorAt(doi, c)), good) {
      assert AllAddressed(w, ColumnOps(columns[c], c, FloorAt(doi, c)));
    }
    EveryOp(columns, doi, n, good);
  }

  /** For every model a run can reach and any partition: exactly-once cover, and every square names the
      receipt the word holds at its row. */
  lemma {:induction false} ReachablePlacement(w: seq<Receipt>, docs: seq<Option<WordHistory>>, doi: Doi)
    requires IsWord(w) && Delivered(w, EMPTY_MODEL, docs)
    ensures var m := Run(EMPTY_MODEL, docs);
            var held := w[..HighWaterOf(w, docs)];
            && Valid(m)
            && OpTotal(Placement(m, doi)) == |held|
            && (forall c: nat, row :: CoverCount(Placement(m, doi), c, row) ==
                                      if c < LANE_COUNT && 0 <= row < |LaneWord(held, c)| then 1 else 0)
            && AllAddressed(held, Placement(m, doi))
  {
    FoldRefinesWord(w, docs);
    PlacementOfFresh(Run(EMPTY_MODEL, docs), w[..HighWaterOf(w, docs)], doi);
  }

  /** The placement of the columns computed afresh from a word. */
  lemma {:induction false} PlacementOfFresh(m: Model, held: seq<Receipt>, doi: Doi)
    requires IsWord(held) && |m.columns| == LANE_COUNT && m.mark >= 0
    requires forall col: nat :: col < LANE_COUNT ==> m.columns[col] == Fresh(held, col)
    ensures Valid(m) && OpTotal(Placement(m, doi)) == |held| && AllAddressed(held, Placement(m, doi))
    ensures forall c: nat, row :: CoverCount(Placement(m, doi), c, row) ==
                                  if c < LANE_COUNT && 0 <= row < |LaneWord(held, c)| then 1 else 0
  {
    forall col: nat | col < LANE_COUNT ensures ValidColumn(m.columns[col], col) {
      FreshIsValid(held, col);
    }
    ExactlyOnceCover(m, doi);
    forall c: nat | c < LANE_COUNT ensures AllAddressed(held, ColumnOps(m.columns[c], c, FloorAt(doi, c))) {
      ColumnAddresses(held, c, FloorAt(doi, c));
    }
    OpsAddresses(m.columns, held, doi, LANE_COUNT);
    assert TotalCount(m.columns) == |held| by {
      LaneCountsPartition(held);
      assert m.columns == seq(LANE_COUNT, col requires 0 <= col < LANE_COUNT => Fresh(held, col));
    }
  }

  /** Of a model a run reaches, the squares are exactly those of the rows at or above the floor among the last
      512 of each lane, each with the address of the receipt the word has there. */
  lemma {:induction false} ReachableSquares(w: seq<Receipt>, docs: seq<Option<WordHistory>>, doi: Doi, col: nat,
                                            row: int, address: string)
    requires IsWord(w) && Delivered(w, EMPTY_MODEL, docs)
    ensures var lane := LaneWord(w[..HighWaterOf(w, docs)], col);
            Square(col, row, address) in Placement(Run(EMPTY_MODEL, docs), doi) <==>
            && col < LANE_COUNT && FloorAt(doi, col) <= row < |lane| && |lane| - K_CARRIER <= row
            && address == lane[row].address
  {
    ReachablePlacement(w, docs, doi);
    FoldRefinesWord(w, docs);
    PlacementExactly(Run(EMPTY_MODEL, docs), doi, Square(col, row, address));
  }

  /** The reach of a delivered run, as an index of its word. */
  function HighWaterOf(w: seq<Receipt>, docs: seq<Option<WordHistory>>): (h: nat)
    requires IsWord(w) && Delivered(w, EMPTY_MODEL, docs)
    ensures h <= |w|
  {
    FoldRefinesWord(w, docs);
    HighWater(docs, 0)
  }

  // ---------------------------------------------------------------- the extension law

  /** A cut grants each column at most what it has: every floor lies at or below the count. */
  ghost predicate CutAtOrBefore(doi: Doi, columns: seq<Column>) {
    |doi.floor| == |columns| && forall col :: 0 <= col < |columns| ==> doi.floor[col] <= columns[col].count
  }

  lemma {:induction false} CutDoiIsCut(m: Model, visible: nat)
    requires Valid(m)
    ensures CutAtOrBefore(CutDoi(m.columns, visible), m.columns)
  {
  }

  /** A column after some further receipts. */
  function GrewBy(c: Column, added: seq<Receipt>): Column {
    if added == [] then c else Grown(c, added)
  }

  /** Whatever documents arrive, a column only ever grows. */
  lemma {:induction false} RunGrows(m: Model, docs: seq<Option<WordHistory>>, col: nat)
    returns (added: seq<Receipt>)
    requires col < |m.columns|
    ensures |Run(m, docs).columns| == |m.columns|
    ensures Run(m, docs).columns[col] == GrewBy(m.columns[col], added)
    decreases |docs|
  {
    if docs == [] {
      added := [];
    } else {
      var m' := FoldedDocument(m, docs[0]);
      var first: seq<Receipt> := match Door(docs[0])
                   case Malformed(_) => []
                   case Accepted(p) => if p.next < m.mark then [] else Bucket(m, p.word, col);
      assert m'.columns[col] == GrewBy(m.columns[col], first);
      var rest := RunGrows(m', docs[1..], col);
      added := first + rest;
      GrownTwice(m.columns[col], first, rest);
      if first == [] { assert added == rest; } else if rest == [] { assert added == first; }
    }
  }

  predicate CarrierExhaustedAt(column: Column, floor: nat) {
    column.count - floor > |column.tail|
  }

  /** While the carrier still reaches down to the floor, growth appends squares and moves nothing. */
  lemma {:induction false} ColumnExtends(c: Column, added: seq<Receipt>, col: nat, floor: nat)
    requires ValidColumn(c, col) && floor <= c.count
    requires !CarrierExhaustedAt(GrewBy(c, added), floor)
    ensures var c2 := GrewBy(c, added);
            ColumnOps(c2, col, floor) == ColumnOps(c, col, floor) + Squares(c2, col, c.count, c2.count)
  {
    var c2 := GrewBy(c, added);
    if added == [] {
      assert Squares(c2, col, c.count, c2.count) == [];
    } else {
      SquaresGrow(c, added, col, floor);
      HeldColumnOps(c, col, floor);
      HeldColumnOps(c2, col, floor);
      OpsRegroup(StripBelow(col, floor), Squares(c, col, floor, c.count), Squares(c2, col, c.count, c2.count));
    }
  }

  lemma {:induction false} OpsRegroup(a: seq<Op>, b: seq<Op>, c: seq<Op>)
    ensures a + (b + c) == a + b + c
  {
  }

  /** When the carrier reaches the floor, the column is painted at that floor. */
  lemma {:induction false} HeldColumnOps(c: Column, col: nat, floor: nat)
    requires |c.tail| <= c.count && floor <= c.count && !CarrierExhaustedAt(c, floor)
    ensures ColumnOps(c, col, floor) == StripBelow(col, floor) + Squares(c, col, floor, c.count)
  {
  }

  lemma {:induction false} ColumnOpsBelowCount(c: Column, col: nat, floor: nat)
    requires ValidColumn(c, col)
    ensures forall i :: 0 <= i < |ColumnOps(c, col, floor)| ==>
              ColumnOps(c, col, floor)[i].col == col && StartRow(ColumnOps(c, col, floor)[i]) < c.count
  {
    if c.count > 0 { SquaresExact(c, col, PaintedFloor(c, floor), c.count); }
  }

  lemma {:induction false} SquaresSplit(c: Column, col: nat, lo: int, mid: int, hi: int)
    requires lo <= mid <= hi
    ensures Squares(c, col, lo, hi) == Squares(c, col, lo, mid) + Squares(c, col, mid, hi)
    decreases hi - mid
  {
    if mid == hi {
      assert Squares(c, col, mid, hi) == [];
    } else {
      SquaresSplit(c, col, lo, mid, hi - 1);
    }
  }

  /** The receipt a carrier holds for a row. */
  function Held(c: Column, row: int): Receipt
    requires 0 <= row - (c.count - |c.tail|) < |c.tail|
  {
    c.tail[row - (c.count - |c.tail|)]
  }

  /** Both carriers hold these rows, and agree on them. */
  ghost predicate HoldAlike(c: Column, c2: Column, lo: int, hi: int) {
    && c.count - |c.tail| <= lo && hi <= c.count && c2.count - |c2.tail| <= lo && hi <= c2.count
    && forall row :: lo <= row < hi ==> Held(c2, row) == Held(c, row)
  }

  lemma {:induction false} SquaresAlike(c: Column, c2: Column, col: nat, lo: int, hi: int)
    requires lo <= hi && HoldAlike(c, c2, lo, hi)
    ensures Squares(c2, col, lo, hi) == Squares(c, col, lo, hi)
    decreases hi - lo
  {
    if lo < hi {
      SquaresAlike(c, c2, col, lo, hi - 1);
      assert Held(c2, hi - 1) == Held(c, hi - 1);
    }
  }

  lemma {:induction false} SquaresGrow(c: Column, added: seq<Receipt>, col: nat, floor: nat)
    requires ValidColumn(c, col) && floor <= c.count
    requires !CarrierExhaustedAt(Grown(c, added), floor)
    ensures var c2 := Grown(c, added);
            Squares(c2, col, floor, c2.count) ==
            Squares(c, col, floor, c.count) + Squares(c2, col, c.count, c2.count)
  {
    var c2 := Grown(c, added);
    GrownHolds(c, added, floor);
    SquaresAlike(c, c2, col, floor, c.count);
    SquaresSplit(c2, col, floor, c.count, c2.count);
  }

  /** Growth slides the carrier and changes no row it keeps. */
  lemma {:induction false} GrownHolds(c: Column, added: seq<Receipt>, floor: nat)
    requires |c.tail| <= c.count && |c.tail| <= K_CARRIER && (c.count > |c.tail| ==> |c.tail| == K_CARRIER)
    requires floor <= c.count && !CarrierExhaustedAt(Grown(c, added), floor)
    ensures HoldAlike(c, Grown(c, added), floor, c.count)
  {
    var c2, merged := Grown(c, added), c.tail + added;
    LastKAt(merged, K_CARRIER);
    forall row | floor <= row < c.count ensures Held(c2, row) == Held(c, row) {
      var i := row - (c2.count - |c2.tail|);
      assert merged[i + (|merged| - |c2.tail|)] == c.tail[row - (c.count - |c.tail|)];
    }
  }

  lemma {:induction false} LastKAt(s: seq<Receipt>, k: nat)
    ensures |LastK(s, k)| == (if |s| <= k then |s| else k)
    ensures forall i :: 0 <= i < |LastK(s, k)| ==> LastK(s, k)[i] == s[i + (|s| - |LastK(s, k)|)]
  {
  }

  /** The ops that start below the given counts, in order. */
  function KeepBelow(ops: seq<Op>, columns: seq<Column>): seq<Op> {
    if ops == [] then []
    else
      var op := ops[|ops| - 1];
      var rest := KeepBelow(ops[..|ops| - 1], columns);
      if op.col < |columns| && StartRow(op) < columns[op.col].count then rest + [op] else rest
  }

  lemma {:induction false} KeepBelowAppend(a: seq<Op>, b: seq<Op>, columns: seq<Column>)
    ensures KeepBelow(a + b, columns) == KeepBelow(a, columns) + KeepBelow(b, columns)
  {
    if b == [] {
      assert a + b == a;
    } else {
      KeepBelowAppend(a, b[..|b| - 1], columns);
      assert (a + b)[..|a + b| - 1] == a + b[..|b| - 1];
    }
  }

  lemma {:induction false} KeepBelowAll(ops: seq<Op>, columns: seq<Column>)
    requires forall i :: 0 <= i < |ops| ==> ops[i].col < |columns| && StartRow(ops[i]) < columns[ops[i].col].count
    ensures KeepBelow(ops, columns) == ops
  {
    if ops != [] {
      var front, last := ops[..|ops| - 1], ops[|ops| - 1];
      assert forall i :: 0 <= i < |front| ==> front[i] == ops[i];
      KeepBelowAll(front, columns);
      assert KeepBelow(ops, columns) == front + [last];
    }
  }

  lemma {:induction false} KeepBelowNone(ops: seq<Op>, columns: seq<Column>)
    requires forall i :: 0 <= i < |ops| ==> ops[i].col < |columns| && StartRow(ops[i]) >= columns[ops[i].col].count
    ensures KeepBelow(ops, columns) == []
  {
    if ops != [] {
      KeepBelowNone(ops[..|ops| - 1], columns);
    }
  }

  /** An op starts below its column's count, or is a square at or above it. */
  predicate BelowOrSquare(op: Op, columns: seq<Column>) {
    op.col < |columns| && (StartRow(op) < columns[op.col].count || op.Square?)
  }

  ghost predicate AllBelowOrSquare(ops: seq<Op>, columns: seq<Column>) {
    forall i :: 0 <= i < |ops| ==> BelowOrSquare(ops[i], columns)
  }

  lemma {:induction false} AppendBelowOrSquare(a: seq<Op>, b: seq<Op>, columns: seq<Column>)
    requires AllBelowOrSquare(a, columns) && AllBelowOrSquare(b, columns)
    ensures AllBelowOrSquare(a + b, columns)
  {
  }

  /** A column that grew: its old ops are the ones that start below the old count. */
  lemma {:induction false} ColumnKeeps(columns: seq<Column>, col: nat, added: seq<Receipt>, floor: nat)
    requires col < |columns| && ValidColumn(columns[col], col) && floor <= columns[col].count
    requires !CarrierExhaustedAt(GrewBy(columns[col], added), floor)
    ensures var grown := ColumnOps(GrewBy(columns[col], added), col, floor);
            && KeepBelow(grown, columns) == ColumnOps(columns[col], col, floor)
            && AllBelowOrSquare(grown, columns)
  {
    var c, c2 := columns[col], GrewBy(columns[col], added);
    ColumnExtends(c, added, col, floor);
    var kept, new_ := ColumnOps(c, col, floor), Squares(c2, col, c.count, c2.count);
    ColumnOpsBelowCount(c, col, floor);
    KeepBelowAll(kept, columns);
    GrewByHolds(c, added, floor);
    SquaresExact(c2, col, c.count, c2.count);
    KeepBelowNone(new_, columns);
    KeepBelowAppend(kept, new_, columns);
    AppendBelowOrSquare(kept, new_, columns);
  }

  lemma {:induction false} GrewByHolds(c: Column, added: seq<Receipt>, floor: nat)
    requires |c.tail| <= c.count && |c.tail| <= K_CARRIER && (c.count > |c.tail| ==> |c.tail| == K_CARRIER)
    requires floor <= c.count && !CarrierExhaustedAt(GrewBy(c, added), floor)
    ensures var c2 := GrewBy(c, added);
            0 <= c2.count - |c2.tail| <= c.count <= c2.count
  {
    if added != [] { GrownHolds(c, added, floor); }
  }

  lemma {:induction false} OpsExtend(m: Model, docs: seq<Option<WordHistory>>, doi: Doi, n: nat)
    requires Valid(m) && n <= LANE_COUNT
    requires CutAtOrBefore(doi, m.columns)
    requires |Run(m, docs).columns| == |m.columns|
    requires forall col: nat :: col < LANE_COUNT ==>
               !CarrierExhaustedAt(Run(m, docs).columns[col], FloorAt(doi, col))
    ensures KeepBelow(OpsOf(Run(m, docs).columns, doi, n), m.columns) == OpsOf(m.columns, doi, n)
    ensures AllBelowOrSquare(OpsOf(Run(m, docs).columns, doi, n), m.columns)
    decreases n
  {
    if n > 0 {
      OpsExtend(m, docs, doi, n - 1);
      var added := RunGrows(m, docs, n - 1);
      ColumnKeeps(m.columns, n - 1, added, FloorAt(doi, n - 1));
      var front := OpsOf(Run(m, docs).columns, doi, n - 1);
      var column := ColumnOps(Run(m, docs).columns[n - 1], n - 1, FloorAt(doi, n - 1));
      KeepBelowAppend(front, column, m.columns);
      AppendBelowOrSquare(front, column, m.columns);
    }
  }

  lemma {:induction false} BelowIsKept(ops: seq<Op>, columns: seq<Column>, i: nat)
    requires i < |ops| && ops[i].col < |columns| && StartRow(ops[i]) < columns[ops[i].col].count
    ensures ops[i] in KeepBelow(ops, columns)
  {
    if i < |ops| - 1 { BelowIsKept(ops[..|ops| - 1], columns, i); }
  }
}
