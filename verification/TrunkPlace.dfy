/**
  Where pixels are born: the edge-snapping map into device rectangles, the disjointness sweep, and
  the epoch terminators.
  Source: experiments/workbench/src/trunk/place.ts.
 */
module TrunkPlace {
  import opened Outcomes
  import opened TrunkModel
  import opened TrunkFoldLaws
  import opened TrunkPlacement

  const SQUARE_CSS: int := 12
  const PITCH_CSS: int := 15
  const LANE_CSS: int := 12
  const GUTTER_INTRA_CSS: int := 15
  const GUTTER_CLASS_CSS: int := 30
  const GUTTER_UNREGISTERED_CSS: int := 45
  const OVERDRAW_CSS: real := 300.0
  const DRIFT_CSS: real := 200.0

  /** Columns at which a class gutter replaces an intra gutter. */
  const CLASS_STARTS: seq<nat> := [0, 4, 5, 8, 14, 15]

  datatype Viewport = Viewport(widthCss: real, heightCss: real, originYCss: real)

  /** Device pixels: integers, all four. */
  datatype Rect = Rect(x: int, y: int, w: int, h: int, of_: Op)

  function GutterBefore(col: nat): int {
    if col == LaneIndex(Unregistered) then GUTTER_UNREGISTERED_CSS
    else if col in CLASS_STARTS then GUTTER_CLASS_CSS
    else GUTTER_INTRA_CSS
  }

  /** The left edge of a lane; a column no lane has sits at 0. */
  function ColumnOriginCss(col: nat): int {
    if col == 0 || col >= LANE_COUNT then 0
    else ColumnOriginCss(col - 1) + LANE_CSS + GutterBefore(col)
  }

  /** A row's document band, anchored at the baseline and growing upward. */
  function RowTopCss(row: int): int { 0 - row * PITCH_CSS - SQUARE_CSS }
  function RowBottomCss(row: int): int { 0 - row * PITCH_CSS }

  function TopCss(op: Op): int { RowTopCss(StartRow(op) + Covered(op) - 1) }
  function BottomCss(op: Op): int { RowBottomCss(StartRow(op)) }

  /** Round half up. */
  function Round(x: real): int { (x + 0.5).Floor }

  function Snap(css: real, dpr: real): int { Round(css * dpr) }

  /** The two maps from css to device pixels. */
  function XDev(dpr: real): int -> int {
    (xCss: int) => Snap(xCss as real, dpr)
  }

  function YDev(v: Viewport, dpr: real): int -> int {
    (yCss: int) => Snap(yCss as real - v.originYCss, dpr)
  }

  /** Culling keeps what comes within the overdraw band of the viewport. */
  predicate Visible(op: Op, v: Viewport) {
    && !((BottomCss(op) as real) < v.originYCss - OVERDRAW_CSS)
    && !((TopCss(op) as real) > v.originYCss + v.heightCss + OVERDRAW_CSS)
  }

  /** Snapped at the edges, never at the size. */
  function RectOf(op: Op, xdev: int -> int, ydev: int -> int): Rect {
    var x := xdev(ColumnOriginCss(op.col));
    var y := ydev(TopCss(op));
    Rect(x, y, xdev(ColumnOriginCss(op.col) + LANE_CSS) - x, ydev(BottomCss(op)) - y, op)
  }

  /** The visible ops under two device maps. */
  function Painted(ops: seq<Op>, v: Viewport, xdev: int -> int, ydev: int -> int): seq<Rect> {
    if ops == [] then []
    else
      var rest := Painted(ops[..|ops| - 1], v, xdev, ydev);
      var op := ops[|ops| - 1];
      if Visible(op, v) then rest + [RectOf(op, xdev, ydev)] else rest
  }

  function Placed(ops: seq<Op>, v: Viewport, dpr: real): seq<Rect> {
    Painted(ops, v, XDev(dpr), YDev(v, dpr))
  }

  /** The map as the source runs it. */
  method Place(ops: seq<Op>, v: Viewport, dpr: real) returns (rects: seq<Rect>)
    ensures rects == Placed(ops, v, dpr)
  {
    var visibleTopCss := v.originYCss - OVERDRAW_CSS;
    var visibleBottomCss := v.originYCss + v.heightCss + OVERDRAW_CSS;
    var xdev, ydev := XDev(dpr), YDev(v, dpr);
    rects := [];
    for i := 0 to |ops|
      invariant rects == Painted(ops[..i], v, xdev, ydev)
    {
      var op := ops[i];
      assert ops[..i + 1][..i] == ops[..i];
      if (BottomCss(op) as real) < visibleTopCss || (TopCss(op) as real) > visibleBottomCss { continue; }
      var originCss := ColumnOriginCss(op.col);
      var x := xdev(originCss);
      var y := ydev(TopCss(op));
      rects := rects + [Rect(x, y, xdev(originCss + LANE_CSS) - x, ydev(BottomCss(op)) - y, op)];
    }
    assert ops[..|ops|] == ops;
  }

  // ---------------------------------------------------------------- disjoint paint

  /** Two rectangles share an interior point. Abutting is not overlapping. */
  predicate Overlap(a: Rect, b: Rect) {
    a.x < b.x + b.w && b.x < a.x + a.w && a.y < b.y + b.h && b.y < a.y + a.h
  }

  ghost predicate PairwiseDisjoint(rects: seq<Rect>) {
    forall i, j :: 0 <= i < j < |rects| ==> !Overlap(rects[i], rects[j])
  }

  ghost predicate Monotone(f: int -> int) {
    forall a, b :: a <= b ==> f(a) <= f(b)
  }

  lemma {:induction false} SnapMonotone(a: real, b: real, dpr: real)
    requires a <= b && dpr > 0.0
    ensures Snap(a, dpr) <= Snap(b, dpr)
  {
    assert a * dpr <= b * dpr;
  }

  /** Rounding the edges keeps their order, at every positive device ratio. */
  lemma {:induction false} DeviceMapsMonotone(v: Viewport, dpr: real)
    requires dpr > 0.0
    ensures Monotone(XDev(dpr)) && Monotone(YDev(v, dpr))
  {
    forall a: int, b: int | a <= b ensures XDev(dpr)(a) <= XDev(dpr)(b) {
      SnapMonotone(a as real, b as real, dpr);
    }
    forall a: int, b: int | a <= b ensures YDev(v, dpr)(a) <= YDev(v, dpr)(b) {
      SnapMonotone(a as real - v.originYCss, b as real - v.originYCss, dpr);
    }
  }

  /** The lanes are laid out from 0 to 507 css: each 12 wide, with 45 before the residue lane, 30 before the
      first lane of a class, and 15 before any other. */
  lemma {:induction false} LanesLaidOut(col: nat)
    requires 0 < col < LANE_COUNT
    ensures ColumnOriginCss(0) == 0 && ColumnOriginCss(LANE_COUNT - 1) + LANE_CSS == 507
    ensures ColumnOriginCss(col) - (ColumnOriginCss(col - 1) + LANE_CSS) ==
            if col == LaneIndex(Unregistered) then 45
            else if col in {LaneIndex(Step), LaneIndex(Manifest), LaneIndex(Context), LaneIndex(Chunk)} then 30
            else 15
  {
    LastLane();
  }

  lemma {:induction false} LastLane()
    ensures ColumnOriginCss(LANE_COUNT - 1) == 495
  {
    assert ColumnOriginCss(3) == 81;
    assert ColumnOriginCss(6) == 192;
    assert ColumnOriginCss(9) == 288;
    assert ColumnOriginCss(12) == 369;
  }

  /** Lanes do not touch: each ends before the next begins. */
  lemma {:induction false} LanesApart(a: nat, b: nat)
    requires a < b < LANE_COUNT
    ensures ColumnOriginCss(a) + LANE_CSS <= ColumnOriginCss(b)
    decreases b
  {
    if a < b - 1 { LanesApart(a, b - 1); }
  }

  /** Ops in canonical order paint apart under any monotone device maps. */
  lemma {:induction false} BeforePaintsApart(a: Op, b: Op, xdev: int -> int, ydev: int -> int)
    requires Before(a, b) && a.col < LANE_COUNT && b.col < LANE_COUNT
    requires Monotone(xdev) && Monotone(ydev)
    ensures !Overlap(RectOf(a, xdev, ydev), RectOf(b, xdev, ydev))
  {
    if a.col < b.col {
      LanesApart(a.col, b.col);
    } else {
      assert BottomCss(b) <= TopCss(a);
    }
  }

  lemma {:induction false} PaintedApart(ops: seq<Op>, v: Viewport, xdev: int -> int, ydev: int -> int)
    requires Canonical(ops) && Monotone(xdev) && Monotone(ydev)
    requires forall i :: 0 <= i < |ops| ==> ops[i].col < LANE_COUNT
    ensures PairwiseDisjoint(Painted(ops, v, xdev, ydev))
    ensures forall i :: 0 <= i < |Painted(ops, v, xdev, ydev)| ==>
              exists k :: 0 <= k < |ops| && Painted(ops, v, xdev, ydev)[i] == RectOf(ops[k], xdev, ydev)
  {
    if ops != [] {
      var front := ops[..|ops| - 1];
      PaintedApart(front, v, xdev, ydev);
      LastPaintsApart(ops, front, Painted(front, v, xdev, ydev), xdev, ydev);
    }
  }

  lemma {:induction false} LastPaintsApart(ops: seq<Op>, front: seq<Op>, rest: seq<Rect>, xdev: int -> int,
                                           ydev: int -> int)
    requires Canonical(ops) && Monotone(xdev) && Monotone(ydev) && ops != [] && front == ops[..|ops| - 1]
    requires forall i :: 0 <= i < |ops| ==> ops[i].col < LANE_COUNT
    requires forall i :: 0 <= i < |rest| ==>
               exists k :: 0 <= k < |front| && rest[i] == RectOf(front[k], xdev, ydev)
    ensures forall i :: 0 <= i < |rest| ==>
              && !Overlap(rest[i], RectOf(ops[|ops| - 1], xdev, ydev))
              && exists k :: 0 <= k < |ops| && rest[i] == RectOf(ops[k], xdev, ydev)
  {
    var op := ops[|ops| - 1];
    forall i | 0 <= i < |rest|
      ensures !Overlap(rest[i], RectOf(op, xdev, ydev))
      ensures exists k :: 0 <= k < |ops| && rest[i] == RectOf(ops[k], xdev, ydev)
    {
      var k :| 0 <= k < |front| && rest[i] == RectOf(front[k], xdev, ydev);
      assert ops[k] == front[k];
      BeforePaintsApart(ops[k], op, xdev, ydev);
    }
  }

  /** Every placement of a valid model paints disjointly, under any partition, viewport and ratio. */
  lemma {:induction false} EveryPlacementPaintsDisjointly(m: Model, doi: Doi, v: Viewport, dpr: real)
    requires Valid(m) && dpr > 0.0
    ensures PairwiseDisjoint(Placed(Placement(m, doi), v, dpr))
  {
    OpsCanonical(m, doi, LANE_COUNT);
    DeviceMapsMonotone(v, dpr);
    PaintedApart(Placement(m, doi), v, XDev(dpr), YDev(v, dpr));
  }

  // ---------------------------------------------------------------- the sweep

  /** The sort's order: left edge, then top edge. */
  predicate SortsFirst(a: Rect, b: Rect) {
    a.x < b.x || (a.x == b.x && a.y <= b.y)
  }

  function Insert(r: Rect, rects: seq<Rect>): seq<Rect> {
    if rects == [] || SortsFirst(r, rects[0]) then [r] + rects
    else [rects[0]] + Insert(r, rects[1..])
  }

  /** The rectangles in sweep order; ties keep their given order. */
  function ToSorted(rects: seq<Rect>): seq<Rect> {
    if rects == [] then [] else Insert(rects[0], ToSorted(rects[1..]))
  }

  ghost predicate Sorted(rects: seq<Rect>) {
    forall i, j :: 0 <= i < j < |rects| ==> SortsFirst(rects[i], rects[j])
  }

  ghost predicate ApartFrom(r: Rect, rects: seq<Rect>) {
    forall i :: 0 <= i < |rects| ==> !Overlap(r, rects[i])
  }

  lemma {:induction false} InsertPermutes(r: Rect, rects: seq<Rect>)
    ensures multiset(Insert(r, rects)) == multiset(rects) + multiset{r}
  {
    if rects != [] && !SortsFirst(r, rects[0]) {
      InsertPermutes(r, rects[1..]);
      assert rects == [rects[0]] + rects[1..];
    }
  }

  lemma {:induction false} InsertSorts(r: Rect, rects: seq<Rect>)
    requires Sorted(rects)
    ensures Sorted(Insert(r, rects))
  {
    if rects != [] && !SortsFirst(r, rects[0]) {
      var tail := Insert(r, rects[1..]);
      InsertSorts(r, rects[1..]);
      InsertPermutes(r, rects[1..]);
      forall j | 0 <= j < |tail| ensures SortsFirst(rects[0], tail[j]) {
        assert tail[j] in multiset(tail);
        assert tail[j] == r || tail[j] in rects[1..];
      }
    }
  }

  lemma {:induction false} InsertApart(a: Rect, r: Rect, rects: seq<Rect>)
    ensures ApartFrom(a, Insert(r, rects)) <==> !Overlap(a, r) && ApartFrom(a, rects)
  {
    if rects == [] || SortsFirst(r, rects[0]) {
      ApartCons(a, r, rects);
    } else {
      InsertApart(a, r, rects[1..]);
      ApartCons(a, rects[0], Insert(r, rects[1..]));
      ApartCons(a, rects[0], rects[1..]);
      assert rects == [rects[0]] + rects[1..];
    }
  }

  lemma {:induction false} InsertDisjoint(r: Rect, rects: seq<Rect>)
    ensures PairwiseDisjoint(Insert(r, rects)) <==> PairwiseDisjoint(rects) && ApartFrom(r, rects)
  {
    if rects == [] || SortsFirst(r, rects[0]) {
      DisjointCons(r, rects);
    } else {
      var head, rest := rects[0], rects[1..];
      InsertDisjoint(r, rest);
      InsertApart(head, r, rest);
      DisjointCons(head, Insert(r, rest));
      DisjointCons(head, rest);
      ApartCons(r, head, rest);
      OverlapSymmetric(head, r);
      assert rects == [head] + rest;
    }
  }

  lemma {:induction false} OverlapSymmetric(a: Rect, b: Rect)
    ensures Overlap(a, b) <==> Overlap(b, a)
  {
  }

  lemma {:induction false} ApartCons(a: Rect, r: Rect, rects: seq<Rect>)
    ensures ApartFrom(a, [r] + rects) <==> !Overlap(a, r) && ApartFrom(a, rects)
  {
    var all := [r] + rects;
    if ApartFrom(a, all) {
      assert !Overlap(a, all[0]);
      forall i | 0 <= i < |rects| ensures !Overlap(a, rects[i]) { assert all[i + 1] == rects[i]; }
    }
  }

  lemma {:induction false} DisjointCons(r: Rect, rects: seq<Rect>)
    ensures PairwiseDisjoint([r] + rects) <==> PairwiseDisjoint(rects) && ApartFrom(r, rects)
  {
    var all := [r] + rects;
    if PairwiseDisjoint(all) {
      forall i | 0 <= i < |rects| ensures !Overlap(r, rects[i]) { assert !Overlap(all[0], all[i + 1]); }
      forall i, j | 0 <= i < j < |rects| ensures !Overlap(rects[i], rects[j]) {
        assert !Overlap(all[i + 1], all[j + 1]);
      }
    }
  }

  /** Sorting permutes the rectangles and keeps whether any pair overlaps. */
  lemma {:induction false} ToSortedKeeps(rects: seq<Rect>)
    ensures Sorted(ToSorted(rects))
    ensures multiset(ToSorted(rects)) == multiset(rects)
    ensures forall a :: ApartFrom(a, ToSorted(rects)) <==> ApartFrom(a, rects)
    ensures PairwiseDisjoint(ToSorted(rects)) <==> PairwiseDisjoint(rects)
  {
    if rects != [] {
      var sorted := ToSorted(rects[1..]);
      ToSortedKeeps(rects[1..]);
      InsertPermutes(rects[0], sorted);
      InsertSorts(rects[0], sorted);
      InsertDisjoint(rects[0], sorted);
      assert rects == [rects[0]] + rects[1..];
      DisjointCons(rects[0], rects[1..]);
      forall a ensures ApartFrom(a, ToSorted(rects)) <==> ApartFrom(a, rects) {
        InsertApart(a, rects[0], sorted);
        ApartCons(a, rects[0], rects[1..]);
      }
    }
  }

  /** The sweep, with its early break, decides exactly whether every pair is apart. */
  method IsDisjoint(rects: seq<Rect>) returns (disjoint: bool)
    ensures disjoint <==> PairwiseDisjoint(rects)
  {
    var sorted := ToSorted(rects);
    ToSortedKeeps(rects);
    for i := 0 to |sorted|
      invariant forall k, j :: 0 <= k < i && k < j < |sorted| ==> !Overlap(sorted[k], sorted[j])
    {
      var a := sorted[i];
      var j := i + 1;
      while j < |sorted|
        invariant i < j <= |sorted|
        invariant forall k :: i < k < j ==> !Overlap(a, sorted[k])
      {
        var b := sorted[j];
        if b.x >= a.x + a.w {
          assert forall k :: j <= k < |sorted| ==> sorted[k].x >= b.x;
          break;
        }
        if a.x < b.x + b.w && a.y < b.y + b.h && b.y < a.y + a.h {
          assert Overlap(sorted[i], sorted[j]);
          return false;
        }
        j := j + 1;
      }
      assert forall k :: i < k < |sorted| ==> !Overlap(a, sorted[k]);
    }
    return true;
  }

  // ---------------------------------------------------------------- epochs

  datatype Epoch = Epoch(viewport: Viewport, dpr: real, theme: string, classifierRevision: int, doi: Doi)

  datatype Terminator = Resize | Dpr | ScrollDrift | Theme | Classifier | Cut | Carrier

  /** The order they are reported in. */
  function Rank(t: Terminator): nat {
    match t
    case Resize => 0 case Dpr => 1 case ScrollDrift => 2 case Theme => 3 case Classifier => 4 case Cut => 5
    case Carrier => 6
  }

  predicate SameFloor(before: Doi, after: Doi) {
    before.floor == after.floor
  }

  predicate CarrierExhausted(doi: Doi, columns: seq<Column>) {
    exists col :: 0 <= col < |columns| && CarrierExhaustedAt(columns[col], FloorAt(doi, col))
  }

  function Abs(x: real): real { if x < 0.0 then -x else x }

  function Ends(before: Epoch, after: Epoch, columns: seq<Column>, t: Terminator): bool {
    match t
    case Resize => before.viewport.widthCss != after.viewport.widthCss ||
                   before.viewport.heightCss != after.viewport.heightCss
    case Dpr => before.dpr != after.dpr
    case ScrollDrift => Abs(after.viewport.originYCss - before.viewport.originYCss) >= DRIFT_CSS
    case Theme => before.theme != after.theme
    case Classifier => before.classifierRevision != after.classifierRevision
    case Cut => !SameFloor(before.doi, after.doi)
    case Carrier => CarrierExhausted(after.doi, columns)
  }

  /** What ends an epoch: each terminator is reported exactly when its own condition holds. */
  method Terminators(before: Epoch, after: Epoch, m: Model) returns (out: seq<Terminator>)
    ensures forall t :: t in out <==> Ends(before, after, m.columns, t)
    ensures forall i, j :: 0 <= i < j < |out| ==> Rank(out[i]) < Rank(out[j])
  {
    var a, b := before.viewport, after.viewport;
    out := Report(before, after, m, [], Resize, a.widthCss != b.widthCss || a.heightCss != b.heightCss);
    out := Report(before, after, m, out, Dpr, before.dpr != after.dpr);
    out := Report(before, after, m, out, ScrollDrift, Abs(b.originYCss - a.originYCss) >= DRIFT_CSS);
    out := Report(before, after, m, out, Theme, before.theme != after.theme);
    out := Report(before, after, m, out, Classifier, before.classifierRevision != after.classifierRevision);
    out := Report(before, after, m, out, Cut, !SameFloor(before.doi, after.doi));
    out := Report(before, after, m, out, Carrier, CarrierExhausted(after.doi, m.columns));
    AllReported(before, after, m.columns, out);
  }

  /** What has been reported once the first n terminators have been looked at. */
  ghost predicate Reported(before: Epoch, after: Epoch, columns: seq<Column>, out: seq<Terminator>, n: nat) {
    && (forall t :: t in out <==> Rank(t) < n && Ends(before, after, columns, t))
    && forall i, j :: 0 <= i < j < |out| ==> Rank(out[i]) < Rank(out[j])
  }

  method Report(before: Epoch, after: Epoch, m: Model, out: seq<Terminator>, t: Terminator, ends: bool)
    returns (out': seq<Terminator>)
    requires Reported(before, after, m.columns, out, Rank(t)) && ends == Ends(before, after, m.columns, t)
    ensures Reported(before, after, m.columns, out', Rank(t) + 1)
  {
    out' := if ends then out + [t] else out;
    forall u ensures u in out' <==> Rank(u) < Rank(t) + 1 && Ends(before, after, m.columns, u) {
      assert Rank(u) == Rank(t) ==> u == t;
    }
  }

  lemma {:induction false} AllReported(before: Epoch, after: Epoch, columns: seq<Column>, out: seq<Terminator>)
    requires Reported(before, after, columns, out, 7)
    ensures forall t :: t in out <==> Ends(before, after, columns, t)
    ensures forall i, j :: 0 <= i < j < |out| ==> Rank(out[i]) < Rank(out[j])
  {
    forall t ensures t in out <==> Ends(before, after, columns, t) { assert Rank(t) < 7; }
  }

  /** An unchanged epoch reports nothing exactly while every carrier still reaches its floor. The comment
      above `terminators` promises that it always reports nothing. */
  lemma {:induction false} UnchangedEpochEnds(e: Epoch, columns: seq<Column>)
    ensures (forall t :: !Ends(e, e, columns, t)) <==> !CarrierExhausted(e.doi, columns)
  {
    if CarrierExhausted(e.doi, columns) {
      assert Ends(e, e, columns, Carrier);
    } else {
      forall t: Terminator ensures !Ends(e, e, columns, t) {
        match t { case _ => }
      }
    }
  }

  /** A word of one lane. */
  function OneLane(n: nat): seq<Receipt> {
    seq(n, i => Receipt(seq(64, _ => '0'), 0, i, 0, 0))
  }

  lemma {:induction false} OneLaneWord(n: nat)
    ensures IsWord(OneLane(n)) && LaneWord(OneLane(n), LaneIndex(Unregistered)) == OneLane(n)
  {
    if n > 0 {
      OneLaneWord(n - 1);
      assert OneLane(n)[..n - 1] == OneLane(n - 1);
      assert OneLane(n) == OneLane(n - 1) + [OneLane(n)[n - 1]];
    }
  }

  /** The comment fails on a model a fold reaches: one page of one receipt more than a carrier holds, all of
      one lane, under the partition a first paint starts from. */
  lemma {:induction false} UnchangedEpochCanEnd(e: Epoch)
    requires e.doi == INITIAL_DOI
    ensures var docs := [Some(WordHistory(K_CARRIER + 1, OneLane(K_CARRIER + 1)))];
            && IsWord(OneLane(K_CARRIER + 1)) && Delivered(OneLane(K_CARRIER + 1), EMPTY_MODEL, docs)
            && Ends(e, e, Run(EMPTY_MODEL, docs).columns, Carrier)
  {
    var n := K_CARRIER + 1;
    var w := OneLane(n);
    var page := WordHistory(n, w);
    var docs := [Some(page)];
    OneLaneWord(n);
    assert w[0..n] == w && w[..n] == w;
    DoorAcceptsExactlyWellFormed(docs[0]);
    assert IsSlice(w, page, 0);
    assert docs[1..] == [];
    assert HighWater(docs, 0) == n;
    FoldRefinesWord(w, docs);
    var residue := LaneIndex(Unregistered);
    assert CarrierExhaustedAt(Run(EMPTY_MODEL, docs).columns[residue], FloorAt(e.doi, residue));
  }

  /** Between cuts growth only extends: whatever documents arrived, if neither `cut` nor `carrier` ended
      the epoch, the old ops are the new ones that start below the old counts, unchanged and in order,
      and everything else is a square at or above its column's old count. */
  lemma {:induction false} ExtensionLaw(m: Model, docs: seq<Option<WordHistory>>, before: Epoch, after: Epoch)
    requires Valid(m) && CutAtOrBefore(before.doi, m.columns)
    requires !Ends(before, after, Run(m, docs).columns, Cut)
    requires !Ends(before, after, Run(m, docs).columns, Carrier)
    ensures var old_ := Placement(m, before.doi);
            var grown := Placement(Run(m, docs), after.doi);
            && KeepBelow(grown, m.columns) == old_
            && (forall op :: op in old_ ==> op in grown)
            && (forall op :: op in grown && op !in old_ ==>
                  op.Square? && op.col < LANE_COUNT && op.row >= m.columns[op.col].count)
  {
    var m' := Run(m, docs);
    var _ := RunGrows(m, docs, 0);
    assert before.doi.floor == after.doi.floor;
    assert forall col: nat :: col < LANE_COUNT ==> !CarrierExhaustedAt(m'.columns[col], FloorAt(after.doi, col));
    SameFloorSameOps(m.columns, before.doi, after.doi, LANE_COUNT);
    GrowthKeeps(m, docs, after.doi);
  }

  lemma {:induction false} GrowthKeeps(m: Model, docs: seq<Option<WordHistory>>, doi: Doi)
    requires Valid(m) && CutAtOrBefore(doi, m.columns) && |Run(m, docs).columns| == |m.columns|
    requires forall col: nat :: col < LANE_COUNT ==>
               !CarrierExhaustedAt(Run(m, docs).columns[col], FloorAt(doi, col))
    ensures var old_, grown := Placement(m, doi), Placement(Run(m, docs), doi);
            && KeepBelow(grown, m.columns) == old_
            && (forall op :: op in old_ ==> op in grown)
            && (forall op :: op in grown && op !in old_ ==>
                  op.Square? && op.col < LANE_COUNT && op.row >= m.columns[op.col].count)
  {
    OpsExtend(m, docs, doi, LANE_COUNT);
    var old_, grown := Placement(m, doi), Placement(Run(m, docs), doi);
    KeepBelowSubset(grown, m.columns);
    forall op | op in grown && op !in old_
      ensures op.Square? && op.col < LANE_COUNT && op.row >= m.columns[op.col].count
    {
      var i :| 0 <= i < |grown| && grown[i] == op;
      assert BelowOrSquare(grown[i], m.columns);
      if StartRow(op) < m.columns[op.col].count { BelowIsKept(grown, m.columns, i); }
    }
  }

  lemma {:induction false} SameFloorSameOps(columns: seq<Column>, a: Doi, b: Doi, n: nat)
    requires a.floor == b.floor && n <= |columns|
    ensures OpsOf(columns, a, n) == OpsOf(columns, b, n)
  {
    if n > 0 {
      SameFloorSameOps(columns, a, b, n - 1);
      assert FloorAt(a, n - 1) == FloorAt(b, n - 1);
    }
  }

  lemma {:induction false} KeepBelowSubset(ops: seq<Op>, columns: seq<Column>)
    ensures forall op :: op in KeepBelow(ops, columns) ==> op in ops
  {
    if ops != [] { KeepBelowSubset(ops[..|ops| - 1], columns); }
  }

  /** Painting is a filter over one arithmetic: an op in view paints its own rectangle, and no other
      rectangle is painted. */
  lemma {:induction false} PaintedIsFilter(ops: seq<Op>, v: Viewport, xdev: int -> int, ydev: int -> int)
    ensures forall op :: op in ops && Visible(op, v) ==> RectOf(op, xdev, ydev) in Painted(ops, v, xdev, ydev)
    ensures forall r :: r in Painted(ops, v, xdev, ydev) ==>
              r.of_ in ops && Visible(r.of_, v) && r == RectOf(r.of_, xdev, ydev)
  {
    if ops != [] {
      PaintedIsFilter(ops[..|ops| - 1], v, xdev, ydev);
      assert ops == ops[..|ops| - 1] + [ops[|ops| - 1]];
    }
  }

  // ---------------------------------------------------------------- what is painted

  /** An integer nearest to x; of two, the upper. */
  predicate RoundsTo(x: real, n: int) { n as real - 0.5 <= x < n as real + 0.5 }

  /** A css height in the band an op fills, and in a window. */
  predicate InBand(op: Op, y: real) {
    0.0 - ((StartRow(op) + Covered(op)) * PITCH_CSS) as real + (PITCH_CSS - SQUARE_CSS) as real <= y &&
    y <= 0.0 - (StartRow(op) * PITCH_CSS) as real
  }

  predicate InWindow(topCss: real, bottomCss: real, y: real) { topCss <= y <= bottomCss }

  /** An op's band meets a window. */
  ghost predicate Meets(op: Op, topCss: real, bottomCss: real) {
    exists y :: InBand(op, y) && InWindow(topCss, bottomCss, y)
  }

  /** The op's band meets what a viewport overdraws; what it shows. */
  ghost predicate MeetsOverdraw(op: Op, v: Viewport) {
    Meets(op, v.originYCss - OVERDRAW_CSS, v.originYCss + v.heightCss + OVERDRAW_CSS)
  }

  ghost predicate MeetsScreen(op: Op, v: Viewport) {
    Meets(op, v.originYCss, v.originYCss + v.heightCss)
  }

  lemma {:induction false} BandEdges(op: Op)
    ensures TopCss(op) as real ==
            0.0 - ((StartRow(op) + Covered(op)) * PITCH_CSS) as real + (PITCH_CSS - SQUARE_CSS) as real
    ensures BottomCss(op) as real == 0.0 - (StartRow(op) * PITCH_CSS) as real
    ensures Covered(op) >= 1 ==> TopCss(op) < BottomCss(op)
  {
  }

  lemma {:induction false} MeetsWhen(op: Op, topCss: real, bottomCss: real)
    requires Covered(op) >= 1 && topCss <= bottomCss
    ensures Meets(op, topCss, bottomCss) <==> BottomCss(op) as real >= topCss && TopCss(op) as real <= bottomCss
  {
    BandEdges(op);
    if BottomCss(op) as real >= topCss && TopCss(op) as real <= bottomCss {
      var y := if TopCss(op) as real >= topCss then TopCss(op) as real else topCss;
      assert InBand(op, y) && InWindow(topCss, bottomCss, y);
    }
  }

  /** Where a css length is on the device, measured from an origin. */
  function Device(css: int, originCss: real, dpr: real): real { (css as real - originCss) * dpr }

  /** A rectangle stands at the rounded edges of its op's lane and band: a lane 12 css wide, row 0 on the
      baseline, 15 css a row of which 12 are filled. */
  ghost predicate StandsAt(r: Rect, v: Viewport, dpr: real) {
    var left, bottom := ColumnOriginCss(r.of_.col), 0 - StartRow(r.of_) * 15;
    var top := bottom - (Covered(r.of_) - 1) * 15 - 12;
    && RoundsTo(Device(left, 0.0, dpr), r.x) && RoundsTo(Device(left + 12, 0.0, dpr), r.x + r.w)
    && RoundsTo(Device(top, v.originYCss, dpr), r.y) && RoundsTo(Device(bottom, v.originYCss, dpr), r.y + r.h)
  }

  lemma {:induction false} SnapRounds(css: int, originCss: real, dpr: real, n: int)
    ensures RoundsTo(Device(css, originCss, dpr), n) <==> n == Snap(css as real - originCss, dpr)
  {
  }

  /** That is where the painting loop puts it, and nowhere else. */
  lemma {:induction false} RectStands(r: Rect, v: Viewport, dpr: real)
    ensures StandsAt(r, v, dpr) <==> r == RectOf(r.of_, XDev(dpr), YDev(v, dpr))
  {
    var left, bottom := ColumnOriginCss(r.of_.col), BottomCss(r.of_);
    var top := TopCss(r.of_);
    assert top == bottom - (Covered(r.of_) - 1) * 15 - 12;
    SnapRounds(left, 0.0, dpr, r.x);
    SnapRounds(left + 12, 0.0, dpr, r.x + r.w);
    SnapRounds(top, v.originYCss, dpr, r.y);
    SnapRounds(bottom, v.originYCss, dpr, r.y + r.h);
    EdgesOf(r.of_, v, dpr, left, top, bottom);
  }

  lemma {:induction false} EdgesOf(op: Op, v: Viewport, dpr: real, left: int, top: int, bottom: int)
    requires left == ColumnOriginCss(op.col) && top == TopCss(op) && bottom == BottomCss(op)
    ensures var r := RectOf(op, XDev(dpr), YDev(v, dpr));
            && r.of_ == op
            && r.x == Snap(left as real - 0.0, dpr) && r.x + r.w == Snap((left + 12) as real - 0.0, dpr)
            && r.y == Snap(top as real - v.originYCss, dpr) && r.y + r.h == Snap(bottom as real - v.originYCss, dpr)
  {
    assert left as real - 0.0 == left as real && (left + 12) as real - 0.0 == (left + 12) as real;
  }

  /** What is painted: exactly the ops whose bands meet the overdrawn viewport, each at its rounded edges. */
  lemma {:induction false} PlacedExactly(ops: seq<Op>, v: Viewport, dpr: real, r: Rect)
    requires v.heightCss >= 0.0 && Covered(r.of_) >= 1
    ensures r in Placed(ops, v, dpr) <==> r.of_ in ops && MeetsOverdraw(r.of_, v) && StandsAt(r, v, dpr)
  {
    PaintedIsFilter(ops, v, XDev(dpr), YDev(v, dpr));
    MeetsWhen(r.of_, v.originYCss - OVERDRAW_CSS, v.originYCss + v.heightCss + OVERDRAW_CSS);
    RectStands(r, v, dpr);
  }

  /** And in the order of the ops, none twice. */
  lemma {:induction false} PlacedInOrder(ops: seq<Op>, v: Viewport, xdev: int -> int, ydev: int -> int, i: nat, j: nat)
    returns (a: nat, b: nat)
    requires i < j < |Painted(ops, v, xdev, ydev)|
    ensures a < b < |ops|
    ensures Painted(ops, v, xdev, ydev)[i].of_ == ops[a] && Painted(ops, v, xdev, ydev)[j].of_ == ops[b]
  {
    var front := ops[..|ops| - 1];
    var rest := Painted(front, v, xdev, ydev);
    if j < |rest| {
      a, b := PlacedInOrder(front, v, xdev, ydev, i, j);
    } else {
      a := PaintedOf(front, v, xdev, ydev, i);
      b := |ops| - 1;
    }
  }

  lemma {:induction false} PaintedOf(ops: seq<Op>, v: Viewport, xdev: int -> int, ydev: int -> int, i: nat)
    returns (a: nat)
    requires i < |Painted(ops, v, xdev, ydev)|
    ensures a < |ops| && Painted(ops, v, xdev, ydev)[i].of_ == ops[a]
  {
    var front := ops[..|ops| - 1];
    if i < |Painted(front, v, xdev, ydev)| { a := PaintedOf(front, v, xdev, ydev, i); } else { a := |ops| - 1; }
  }

  /** Why the overdraw is more than the drift: while no terminator is reported, everything the screen shows was
      painted when the epoch began, at the size and the ratio the screen still has. */
  lemma {:induction false} EpochShowsWhatItPainted(before: Epoch, after: Epoch, columns: seq<Column>, ops: seq<Op>,
                                                   op: Op)
    requires forall t :: !Ends(before, after, columns, t)
    requires before.viewport.heightCss >= 0.0 && op in ops && Covered(op) >= 1 && MeetsScreen(op, after.viewport)
    ensures exists r: Rect :: r.of_ == op && r in Placed(ops, before.viewport, before.dpr) &&
                        StandsAt(r, before.viewport, after.dpr)
    ensures before.viewport.widthCss == after.viewport.widthCss
  {
    assert !Ends(before, after, columns, Resize) && !Ends(before, after, columns, ScrollDrift);
    assert !Ends(before, after, columns, Dpr);
    var v, v' := before.viewport, after.viewport;
    MeetsWhen(op, v'.originYCss, v'.originYCss + v'.heightCss);
    MeetsWhen(op, v.originYCss - OVERDRAW_CSS, v.originYCss + v.heightCss + OVERDRAW_CSS);
    var r := RectOf(op, XDev(before.dpr), YDev(v, before.dpr));
    RectStands(r, v, before.dpr);
    PlacedExactly(ops, v, before.dpr, r);
  }

  /** A silent epoch: nothing it depends on changed but the scroll origin, by less than the drift allowed, and
      every carrier reaches its floor. */
  lemma {:induction false} SilentEpoch(before: Epoch, after: Epoch, columns: seq<Column>)
    ensures (forall t :: !Ends(before, after, columns, t)) <==>
            && before.dpr == after.dpr && before.theme == after.theme
            && before.classifierRevision == after.classifierRevision && before.doi.floor == after.doi.floor
            && before.viewport == after.viewport.(originYCss := before.viewport.originYCss)
            && -200.0 < after.viewport.originYCss - before.viewport.originYCss < 200.0
            && forall col :: 0 <= col < |columns| ==>
                 columns[col].count - FloorAt(after.doi, col) <= |columns[col].tail|
  {
    if forall t :: !Ends(before, after, columns, t) {
      assert !Ends(before, after, columns, Resize) && !Ends(before, after, columns, Dpr);
      assert !Ends(before, after, columns, ScrollDrift) && !Ends(before, after, columns, Theme);
      assert !Ends(before, after, columns, Classifier) && !Ends(before, after, columns, Cut);
      assert !Ends(before, after, columns, Carrier);
    } else {
      var t :| Ends(before, after, columns, t);
      if t == Carrier { var col :| 0 <= col < |columns| && CarrierExhaustedAt(columns[col], FloorAt(after.doi, col)); }
    }
  }

  // ---------------------------------------------------------------- scrolling

  /** Every whole css edge is k device pixels higher at the second viewport. */
  ghost predicate Shifts(v: Viewport, v': Viewport, dpr: real, k: int) {
    forall y: int :: YDev(v', dpr)(y) == YDev(v, dpr)(y) - k
  }

  /** Where every edge moves by one number of pixels, scrolling only translates: a rectangle painted at one
      viewport is painted, moved by those pixels, at every other that shows its op. */
  lemma {:induction false} ScrollTranslates(ops: seq<Op>, v: Viewport, v': Viewport, dpr: real, k: int)
    requires Shifts(v, v', dpr, k)
    ensures forall r :: r in Placed(ops, v, dpr) && Visible(r.of_, v') ==> r.(y := r.y - k) in Placed(ops, v', dpr)
  {
    PaintedIsFilter(ops, v, XDev(dpr), YDev(v, dpr));
    PaintedIsFilter(ops, v', XDev(dpr), YDev(v', dpr));
    forall r | r in Placed(ops, v, dpr) && Visible(r.of_, v') ensures r.(y := r.y - k) in Placed(ops, v', dpr) {
      assert RectOf(r.of_, XDev(dpr), YDev(v', dpr)) == r.(y := r.y - k);
    }
  }

  function Ceil(x: real): int { 0 - (0.0 - x).Floor }

  /** Where an origin puts the device grid, in q-ths of a pixel, at a ratio of p/q. */
  function Phase(originCss: real, p: int, q: int): int {
    Ceil(originCss * p as real - q as real / 2.0)
  }

  predicate Bezout(p: int, q: int, a: int, b: int) { a * p + b * q == 1 }

  /** The ratio p/q in lowest terms. */
  ghost predicate LowestTerms(dpr: real, p: int, q: int) {
    q > 0 && dpr * q as real == p as real && exists a, b :: Bezout(p, q, a, b)
  }

  lemma {:induction false} DivIs(n: int, q: int, m: int)
    requires q > 0 && m * q <= n < m * q + q
    ensures n / q == m
  {
    var d := n / q - m;
    assert n == n / q * q + n % q;
    assert d * q < q && d * q > -q;
  }

  /** An edge at ratio p/q, in whole numbers. */
  lemma {:induction false} EdgeAt(y: int, originCss: real, dpr: real, p: int, q: int)
    requires q > 0 && dpr * q as real == p as real
    ensures Snap(y as real - originCss, dpr) == (y * p - Phase(originCss, p, q)) / q
  {
    var x := (y as real - originCss) * dpr + 0.5;
    var edge := x.Floor;
    var t := originCss * p as real - q as real / 2.0;
    assert x * q as real == (y * p) as real - t by {
      assert x * q as real == (y as real - originCss) * (dpr * q as real) + q as real / 2.0;
      assert (y as real - originCss) * p as real == (y * p) as real - originCss * p as real;
    }
    Scaled(edge, x, q);
    Ceiled(y * p - edge * q, t);
    Ceiled(y * p - edge * q - q, t);
    DivIs(y * p - Phase(originCss, p, q), q, edge);
  }

  lemma {:induction false} Scaled(n: int, x: real, q: int)
    requires q > 0 && n as real <= x < n as real + 1.0
    ensures (n * q) as real <= x * q as real < (n * q + q) as real
  {
    RealProduct(n, q);
    RealProduct(n + 1, q);
    Stretched(n as real, x, q as real);
    Stretched(x, n as real + 1.0, q as real);
    assert (n + 1) * q == n * q + q;
  }

  lemma {:induction false} RealProduct(n: int, q: int)
    ensures (n * q) as real == n as real * q as real
  {
  }

  lemma {:induction false} Stretched(a: real, b: real, w: real)
    requires w > 0.0 && a <= b
    ensures a * w <= b * w
    ensures a < b ==> a * w < b * w
  {
    assert (b - a) * w == b * w - a * w;
    if a < b { assert (b - a) * w > 0.0; }
  }

  lemma {:induction false} Ceiled(n: int, t: real)
    ensures n as real >= t <==> n >= Ceil(t)
  {
  }

  /** A whole number of pixels moves every edge alike. */
  lemma {:induction false} MovedAlike(n: int, q: int, k: int)
    requires q > 0
    ensures (n - k * q) / q == n / q - k
  {
    assert n == n / q * q + n % q;
    assert (n / q - k) * q == n / q * q - k * q;
    DivIs(n - k * q, q, n / q - k);
  }

  /** Two edges, one right below a pixel boundary and one on it, that a step of d leaves as far apart. */
  lemma {:induction false} BothMoveBy(q: int, d: int, m: int, m': int, k: int)
    requires q > 0 && (m * q + 0 - d) / q == m - k && (m' * q + (q - 1) - d) / q == m' - k
    ensures d == k * q
  {
    var n, n' := m * q - d, m' * q + q - 1 - d;
    assert n == n / q * q + n % q && n' == n' / q * q + n' % q;
    assert (m - k) * q == m * q - k * q && (m' - k) * q == m' * q - k * q;
  }

  /** An edge at any distance r from the grid. */
  lemma {:induction false} OnGrid(p: int, q: int, c: int, r: int) returns (y: int, m: int)
    requires exists a, b :: Bezout(p, q, a, b)
    ensures y * p - c == m * q + r
  {
    var a, b :| Bezout(p, q, a, b);
    y, m := a * (c + r), -(b * (c + r));
    assert y * p == (c + r) * (a * p);
    assert (c + r) * (1 - b * q) == c + r - (b * (c + r)) * q;
  }

  lemma {:induction false} EdgesAt(v: Viewport, dpr: real, p: int, q: int)
    requires q > 0 && dpr * q as real == p as real
    ensures forall y: int :: YDev(v, dpr)(y) == (y * p - Phase(v.originYCss, p, q)) / q
  {
    forall y: int ensures YDev(v, dpr)(y) == (y * p - Phase(v.originYCss, p, q)) / q {
      EdgeAt(y, v.originYCss, dpr, p, q);
    }
  }

  lemma {:induction false} PhasesShift(v: Viewport, v': Viewport, dpr: real, p: int, q: int, k: int)
    requires q > 0 && dpr * q as real == p as real
    requires Phase(v'.originYCss, p, q) == Phase(v.originYCss, p, q) + k * q
    ensures Shifts(v, v', dpr, k)
  {
    EdgesAt(v, dpr, p, q);
    EdgesAt(v', dpr, p, q);
    forall y: int ensures YDev(v', dpr)(y) == YDev(v, dpr)(y) - k {
      MovedAlike(y * p - Phase(v.originYCss, p, q), q, k);
    }
  }

  lemma {:induction false} ShiftIsPhases(v: Viewport, v': Viewport, dpr: real, p: int, q: int, k: int)
    requires LowestTerms(dpr, p, q) && Shifts(v, v', dpr, k)
    ensures Phase(v'.originYCss, p, q) == Phase(v.originYCss, p, q) + k * q
  {
    var c, d := Phase(v.originYCss, p, q), Phase(v'.originYCss, p, q) - Phase(v.originYCss, p, q);
    var y, m := OnGrid(p, q, c, 0);
    var y', m' := OnGrid(p, q, c, q - 1);
    MovedEdge(v, v', dpr, p, q, k, y, m, 0);
    MovedEdge(v, v', dpr, p, q, k, y', m', q - 1);
    BothMoveBy(q, d, m, m', k);
  }

  /** An edge r past the grid moves like every other. */
  lemma {:induction false} MovedEdge(v: Viewport, v': Viewport, dpr: real, p: int, q: int, k: int, y: int, m: int,
                                     r: int)
    requires q > 0 && dpr * q as real == p as real && Shifts(v, v', dpr, k) && 0 <= r < q
    requires y * p - Phase(v.originYCss, p, q) == m * q + r
    ensures var d := Phase(v'.originYCss, p, q) - Phase(v.originYCss, p, q);
            (m * q + r - d) / q == m - k
  {
    EdgeAt(y, v.originYCss, dpr, p, q);
    EdgeAt(y, v'.originYCss, dpr, p, q);
    assert YDev(v', dpr)(y) == YDev(v, dpr)(y) - k;
    DivIs(m * q + r, q, m);
  }

  /** At ratio p/q scrolling only translates exactly when the origins' phases differ by whole pixels. */
  lemma {:induction false} ScrollExactly(v: Viewport, v': Viewport, dpr: real, p: int, q: int)
    requires LowestTerms(dpr, p, q)
    ensures (exists k :: Shifts(v, v', dpr, k)) <==>
            (Phase(v'.originYCss, p, q) - Phase(v.originYCss, p, q)) % q == 0
  {
    var d := Phase(v'.originYCss, p, q) - Phase(v.originYCss, p, q);
    if d % q == 0 {
      assert d == d / q * q;
      PhasesShift(v, v', dpr, p, q, d / q);
    }
    if k :| Shifts(v, v', dpr, k) {
      ShiftIsPhases(v, v', dpr, p, q, k);
      DivIs(d, q, k);
      assert d == d / q * q + d % q;
    }
  }

  /** So origins a whole number of device pixels apart always translate, */
  lemma {:induction false} WholePixelsShift(v: Viewport, v': Viewport, dpr: real, k: int)
    requires (v'.originYCss - v.originYCss) * dpr == k as real
    ensures Shifts(v, v', dpr, k)
  {
    forall y: int ensures YDev(v', dpr)(y) == YDev(v, dpr)(y) - k {
      assert (y as real - v'.originYCss) * dpr == (y as real - v.originYCss) * dpr - k as real;
    }
  }

  /** and at a whole ratio all origins do. */
  lemma {:induction false} WholeRatioShifts(v: Viewport, v': Viewport, dpr: real, p: int)
    requires dpr == p as real
    ensures exists k :: Shifts(v, v', dpr, k)
  {
    assert Bezout(p, 1, 0, 1);
    ScrollExactly(v, v', dpr, p, 1);
  }

  /** Otherwise it may not: at ratio 3/2, a scroll of a third of a css pixel makes a
      strip of two rows one pixel taller. */
  lemma {:induction false} ScrollCanReshape(v: Viewport, v': Viewport)
    requires v.originYCss == 0.0 && v'.originYCss == 1.0 / 3.0
    ensures RectOf(Strip(0, 0, 2), XDev(1.5), YDev(v, 1.5)).h == 40
    ensures RectOf(Strip(0, 0, 2), XDev(1.5), YDev(v', 1.5)).h == 41
  {
  }

  /** Growth moves nothing on screen: under the extension law's premises, at a fixed viewport and ratio,
      every rectangle painted before is painted again. */
  lemma {:induction false} GrowthMovesNothing(m: Model, docs: seq<Option<WordHistory>>, before: Epoch, after: Epoch)
    requires Valid(m) && CutAtOrBefore(before.doi, m.columns)
    requires !Ends(before, after, Run(m, docs).columns, Cut)
    requires !Ends(before, after, Run(m, docs).columns, Carrier)
    requires before.viewport == after.viewport && before.dpr == after.dpr
    ensures forall r :: r in Placed(Placement(m, before.doi), before.viewport, before.dpr) ==>
                        r in Placed(Placement(Run(m, docs), after.doi), after.viewport, after.dpr)
  {
    ExtensionLaw(m, docs, before, after);
    var xdev, ydev := XDev(after.dpr), YDev(after.viewport, after.dpr);
    PaintedIsFilter(Placement(m, before.doi), after.viewport, xdev, ydev);
    PaintedIsFilter(Placement(Run(m, docs), after.doi), after.viewport, xdev, ydev);
  }
}
