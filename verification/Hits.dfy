/** Construct hits by the byte they start at, and the slices of a sorted list of them. */
module Hits {
  datatype Hit = Hit(byteStart: nat, construct: string)

  predicate Sorted(hits: seq<Hit>) {
    |hits| <= 1 || (hits[0].byteStart <= hits[1].byteStart && Sorted(hits[1..]))
  }

  /** The hits after lo and up to hi, in order. */
  function Between(hits: seq<Hit>, lo: int, hi: int): seq<Hit> {
    if hits == [] then []
    else (if lo < hits[0].byteStart <= hi then [hits[0]] else []) + Between(hits[1..], lo, hi)
  }

  function Upto(hits: seq<Hit>, x: nat): (n: nat)
    ensures n <= |hits|
  {
    if hits == [] || hits[0].byteStart >= x then 0 else 1 + Upto(hits[1..], x)
  }

  lemma {:induction false} FirstLeast(hits: seq<Hit>)
    requires Sorted(hits)
    ensures forall k :: 0 <= k < |hits| ==> hits[0].byteStart <= hits[k].byteStart
  {
    if |hits| > 1 {
      FirstLeast(hits[1..]);
      forall k | 0 <= k < |hits| ensures hits[0].byteStart <= hits[k].byteStart {
        if k > 0 { assert hits[k] == hits[1..][k - 1]; }
      }
    }
  }

  lemma {:induction false} UptoSplits(hits: seq<Hit>, x: nat)
    requires Sorted(hits)
    ensures forall k :: 0 <= k < |hits| ==> (k < Upto(hits, x) <==> hits[k].byteStart < x)
  {
    if hits != [] {
      if hits[0].byteStart < x {
        UptoSplits(hits[1..], x);
      } else {
        FirstLeast(hits);
      }
    }
  }

  lemma {:induction false} UptoMonotone(hits: seq<Hit>, x: nat, y: nat)
    requires Sorted(hits) && x <= y
    ensures Upto(hits, x) <= Upto(hits, y)
  {
    UptoSplits(hits, x);
    UptoSplits(hits, y);
    var v := Upto(hits, y);
    assert v < |hits| ==> hits[v].byteStart >= y;
  }

  lemma {:induction false} SliceShift(hits: seq<Hit>, u: nat, v: nat)
    requires u <= v < |hits|
    ensures hits[1 + u..1 + v] == hits[1..][u..v]
  {
    var a, b := hits[1 + u..1 + v], hits[1..][u..v];
    forall k | 0 <= k < v - u ensures a[k] == b[k] { assert a[k] == hits[1 + u + k]; }
  }

  lemma {:induction false} SliceFirst(hits: seq<Hit>, v: nat)
    requires v < |hits|
    ensures hits[0..1 + v] == [hits[0]] + hits[1..][0..v]
  {
  }

  lemma {:induction false} BetweenSlice(hits: seq<Hit>, lo: nat, hi: nat)
    requires Sorted(hits) && lo <= hi
    ensures Upto(hits, lo + 1) <= Upto(hits, hi + 1)
    ensures Between(hits, lo, hi) == hits[Upto(hits, lo + 1)..Upto(hits, hi + 1)]
  {
    UptoMonotone(hits, lo + 1, hi + 1);
    if hits != [] {
      BetweenSlice(hits[1..], lo, hi);
      var u, v := Upto(hits[1..], lo + 1), Upto(hits[1..], hi + 1);
      if hits[0].byteStart <= lo {
        SliceShift(hits, u, v);
      } else if hits[0].byteStart <= hi {
        assert hits[1..] == [] || hits[1..][0].byteStart >= lo + 1;
        SliceFirst(hits, v);
      } else {
        assert hits[1..] == [] || hits[1..][0].byteStart >= hi + 1;
      }
    }
  }

  lemma {:induction false} BetweenFirst(hits: seq<Hit>, hi: nat)
    requires Sorted(hits)
    ensures Between(hits, -1, hi) == hits[..Upto(hits, hi + 1)]
  {
    if hits != [] {
      BetweenFirst(hits[1..], hi);
      var v := Upto(hits[1..], hi + 1);
      if hits[0].byteStart <= hi {
        SliceFirst(hits, v);
      } else {
        assert hits[1..] == [] || hits[1..][0].byteStart >= hi + 1;
      }
    }
  }

  /** The hits of a byte range, both ends included, as one slice. */
  lemma {:induction false} RangeSlice(hits: seq<Hit>, lo: nat, hi: nat)
    requires Sorted(hits) && lo <= hi + 1
    ensures Upto(hits, lo) <= Upto(hits, hi + 1)
    ensures Between(hits, lo - 1, hi) == hits[Upto(hits, lo)..Upto(hits, hi + 1)]
  {
    UptoMonotone(hits, lo, hi + 1);
    if lo == 0 {
      BetweenFirst(hits, hi);
      assert Upto(hits, 0) == 0;
    } else {
      BetweenSlice(hits, lo - 1, hi);
    }
  }

  lemma {:induction false} Stitch(hits: seq<Hit>, lo: nat, mid: nat, hi: nat)
    requires lo <= mid <= hi <= |hits|
    ensures hits[lo..mid] + hits[mid..hi] == hits[lo..hi]
  {
  }

  lemma {:induction false} NoneBefore(hits: seq<Hit>)
    ensures Upto(hits, 0) == 0
  {
  }
}
