/** Lists of strings in the host's order, and the sets they stand for. */
module SortedTexts {
  import opened CodeUnits

  function Insert(x: Text, sorted: seq<Text>): seq<Text> {
    if sorted == [] || Less(x, sorted[0]) then [x] + sorted else [sorted[0]] + Insert(x, sorted[1..])
  }

  function Sort(s: seq<Text>): seq<Text> {
    if s == [] then [] else Insert(s[0], Sort(s[1..]))
  }

  predicate Ascends(s: seq<Text>) {
    forall i, j :: 0 <= i < j < |s| ==> Less(s[i], s[j])
  }

  function Elems(s: seq<Text>): set<Text> { set x | x in s }

  predicate Distinct(s: seq<Text>) {
    forall i, j :: 0 <= i < j < |s| ==> s[i] != s[j]
  }

  lemma {:induction false} InsertKeeps(x: Text, sorted: seq<Text>)
    ensures multiset(Insert(x, sorted)) == multiset(sorted) + multiset{x}
  {
    if sorted != [] && !Less(x, sorted[0]) {
      InsertKeeps(x, sorted[1..]);
      assert sorted == [sorted[0]] + sorted[1..];
    }
  }

  lemma {:induction false} InsertElems(x: Text, sorted: seq<Text>)
    ensures Elems(Insert(x, sorted)) == Elems(sorted) + {x}
  {
    InsertKeeps(x, sorted);
    forall y ensures y in Elems(Insert(x, sorted)) <==> y in Elems(sorted) + {x} {
      assert y in Insert(x, sorted) <==> y in multiset(Insert(x, sorted));
      assert y in sorted <==> y in multiset(sorted);
    }
  }

  lemma {:induction false} InsertAscends(x: Text, sorted: seq<Text>)
    requires Ascends(sorted) && x !in sorted
    ensures Ascends(Insert(x, sorted))
  {
    if sorted == [] {
    } else if Less(x, sorted[0]) {
      forall j | 0 <= j < |sorted| ensures Less(x, sorted[j]) {
        if j > 0 { LessTransitive(x, sorted[0], sorted[j]); }
      }
    } else {
      var rest := Insert(x, sorted[1..]);
      LessTotal(x, sorted[0]);
      InsertAscends(x, sorted[1..]);
      InsertElems(x, sorted[1..]);
      forall j | 0 <= j < |rest| ensures Less(sorted[0], rest[j]) {
        assert rest[j] in Elems(rest);
        if rest[j] != x {
          var k :| 0 <= k < |sorted| - 1 && sorted[1..][k] == rest[j];
          assert sorted[k + 1] == rest[j];
        }
      }
    }
  }

  lemma {:induction false} SortPermutes(s: seq<Text>)
    ensures multiset(Sort(s)) == multiset(s)
  {
    if s != [] {
      SortPermutes(s[1..]);
      InsertKeeps(s[0], Sort(s[1..]));
      assert s == [s[0]] + s[1..];
    }
  }

  lemma {:induction false} SameElems(a: seq<Text>, b: seq<Text>)
    requires multiset(a) == multiset(b)
    ensures Elems(a) == Elems(b)
  {
    forall x ensures x in a <==> x in b {
      assert x in a <==> x in multiset(a);
      assert x in b <==> x in multiset(b);
    }
  }

  lemma {:induction false} SortAscends(s: seq<Text>)
    requires Distinct(s)
    ensures Ascends(Sort(s))
  {
    if s != [] {
      var head, rest := s[0], s[1..];
      SortAscends(rest);
      SortPermutes(rest);
      SameElems(Sort(rest), rest);
      assert head !in rest && head !in Elems(Sort(rest));
      InsertAscends(head, Sort(rest));
    }
  }

  lemma {:induction false} Sorted(s: seq<Text>)
    ensures Elems(Sort(s)) == Elems(s) && multiset(Sort(s)) == multiset(s)
    ensures Distinct(s) ==> Ascends(Sort(s))
  {
    SortPermutes(s);
    SameElems(Sort(s), s);
    if Distinct(s) { SortAscends(s); }
  }

  /** The head of an ascending list is its least. */
  lemma {:induction false} HeadLeast(s: seq<Text>, x: Text)
    requires Ascends(s) && x in s
    ensures x == s[0] || Less(s[0], x)
  {
    var i :| 0 <= i < |s| && s[i] == x;
  }

  /** A set of strings has one ascending list. */
  lemma {:induction false} AscendingListUnique(a: seq<Text>, b: seq<Text>)
    requires Ascends(a) && Ascends(b) && Elems(a) == Elems(b)
    ensures a == b
  {
    assert a != [] ==> a[0] in Elems(a);
    assert b != [] ==> b[0] in Elems(b);
    if a != [] {
      HeadLeast(a, b[0]);
      HeadLeast(b, a[0]);
      LessTotal(a[0], b[0]);
      TailElems(a);
      TailElems(b);
      AscendingListUnique(a[1..], b[1..]);
    }
  }

  lemma {:induction false} TailElems(a: seq<Text>)
    requires a != [] && Ascends(a)
    ensures Elems(a[1..]) == Elems(a) - {a[0]} && Ascends(a[1..])
  {
    assert a == [a[0]] + a[1..];
    forall i | 0 <= i < |a| - 1 ensures a[1..][i] != a[0] { LessTotal(a[0], a[i + 1]); }
  }

  lemma {:induction false} AppendElems(s: seq<Text>, x: Text)
    ensures Elems(s + [x]) == Elems(s) + {x} && s + [] == s
  {
  }
}
