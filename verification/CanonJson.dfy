/**
  Canonical JSON: keys sorted at every level. Its text is the plain serialization of the value with its keys
  sorted, and two values share it exactly when they are equal up to the order of keys.
  Source: experiments/lift-harness/src/contract.ts.
 */
module CanonJson {
  import opened CodeUnits
  import opened Decimal
  import opened JsonText

  // ---------------------------------------------------------------- sorting by key

  function InsertByKey<V>(e: Keyed<V>, sorted: seq<Keyed<V>>): seq<Keyed<V>> {
    if sorted == [] || Less(e.key, sorted[0].key) then [e] + sorted
    else [sorted[0]] + InsertByKey(e, sorted[1..])
  }

  function SortByKey<V>(es: seq<Keyed<V>>): seq<Keyed<V>> {
    if es == [] then [] else InsertByKey(es[0], SortByKey(es[1..]))
  }

  predicate Ascending<V>(es: seq<Keyed<V>>) {
    forall i, j :: 0 <= i < j < |es| ==> Less(es[i].key, es[j].key)
  }

  predicate DistinctKeys<V>(es: seq<Keyed<V>>) {
    forall i, j :: 0 <= i < j < |es| ==> es[i].key != es[j].key
  }

  lemma {:induction false} InsertKeeps<V>(e: Keyed<V>, sorted: seq<Keyed<V>>)
    ensures multiset(InsertByKey(e, sorted)) == multiset(sorted) + multiset{e}
  {
    if sorted == [] || Less(e.key, sorted[0].key) {
    } else {
      InsertKeeps(e, sorted[1..]);
      assert sorted == [sorted[0]] + sorted[1..];
    }
  }

  lemma {:induction false} SortKeeps<V>(es: seq<Keyed<V>>)
    ensures multiset(SortByKey(es)) == multiset(es)
  {
    if es != [] {
      SortKeeps(es[1..]);
      InsertKeeps(es[0], SortByKey(es[1..]));
      assert es == [es[0]] + es[1..];
    }
  }

  lemma {:induction false} InsertAscends<V>(e: Keyed<V>, sorted: seq<Keyed<V>>)
    requires Ascending(sorted) && forall i :: 0 <= i < |sorted| ==> sorted[i].key != e.key
    ensures Ascending(InsertByKey(e, sorted))
  {
    if sorted == [] {
    } else if Less(e.key, sorted[0].key) {
      forall j | 0 <= j < |sorted| ensures Less(e.key, sorted[j].key) {
        if j > 0 { LessTransitive(e.key, sorted[0].key, sorted[j].key); }
      }
    } else {
      var rest := InsertByKey(e, sorted[1..]);
      InsertAscends(e, sorted[1..]);
      InsertKeeps(e, sorted[1..]);
      LessTotal(e.key, sorted[0].key);
      forall j | 0 <= j < |rest| ensures Less(sorted[0].key, rest[j].key) {
        assert rest[j] in multiset(rest);
        if rest[j] != e {
          assert rest[j] in sorted[1..];
        }
      }
    }
  }

  lemma {:induction false} SortAscends<V>(es: seq<Keyed<V>>)
    requires DistinctKeys(es)
    ensures Ascending(SortByKey(es))
  {
    if es != [] {
      var rest := SortByKey(es[1..]);
      SortAscends(es[1..]);
      SortKeeps(es[1..]);
      forall i | 0 <= i < |rest| ensures rest[i].key != es[0].key {
        assert rest[i] in multiset(rest);
        assert rest[i] in es[1..];
        var k :| 0 <= k < |es[1..]| && es[1..][k] == rest[i];
        assert es[k + 1] == rest[i];
      }
      InsertAscends(es[0], rest);
    }
  }

  /** Entries with ascending keys are determined by which they are: whatever sort was used gives this one. */
  lemma {:induction false} AscendingUnique<V>(a: seq<Keyed<V>>, b: seq<Keyed<V>>)
    requires Ascending(a) && Ascending(b)
    requires forall e :: e in a <==> e in b
    ensures a == b
  {
    SameEmptiness(a, b);
    if a != [] {
      assert a[0] in b;
      var j :| 0 <= j < |b| && b[j] == a[0];
      assert b[0] in a;
      var i :| 0 <= i < |a| && a[i] == b[0];
      HeadsAgree(a, b, i, j);
      forall e ensures e in a[1..] <==> e in b[1..] { TailMembers(a, b, e); }
      AscendingUnique(a[1..], b[1..]);
      assert a == [a[0]] + a[1..] && b == [b[0]] + b[1..];
    }
  }

  lemma {:induction false} SameEmptiness<V>(a: seq<Keyed<V>>, b: seq<Keyed<V>>)
    requires forall e :: e in a <==> e in b
    ensures a == [] <==> b == []
  {
    if a != [] { assert a[0] in a; }
    if b != [] { assert b[0] in b; }
  }

  lemma {:induction false} HeadsAgree<V>(a: seq<Keyed<V>>, b: seq<Keyed<V>>, i: nat, j: nat)
    requires Ascending(a) && Ascending(b) && i < |a| && j < |b| && a[i] == b[0] && b[j] == a[0]
    ensures a[0] == b[0]
  {
    LessTotal(a[0].key, b[0].key);
  }

  lemma {:induction false} TailMembers<V>(a: seq<Keyed<V>>, b: seq<Keyed<V>>, e: Keyed<V>)
    requires a != [] && b != [] && a[0] == b[0] && Ascending(a) && Ascending(b)
    requires e in a <==> e in b
    ensures e in a[1..] <==> e in b[1..]
  {
    LessTotal(a[0].key, a[0].key);
    assert a == [a[0]] + a[1..] && b == [b[0]] + b[1..];
    assert a[0] !in a[1..] && b[0] !in b[1..];
  }

  // ---------------------------------------------------------------- the canonical text

  /** As the source prints it: arrays in order, an object's members sorted by key, anything else plainly. */
  function Canon(v: Json): Text
    decreases v, 1
  {
    match v
    case JArr(items) => [LBRACKET] + Join(CanonItems(items)) + [RBRACKET]
    case JObj(fields) => [LBRACE] + Join(Members(SortByKey(CanonFields(fields)))) + [RBRACE]
    case _ => Print(v)
  }

  function CanonItems(items: seq<Json>): seq<Text>
    decreases items, 0
  {
    if items == [] then [] else [Canon(items[0])] + CanonItems(items[1..])
  }

  function CanonFields(fields: seq<Keyed<Json>>): seq<Keyed<Text>>
    decreases fields, 0
  {
    if fields == [] then [] else [Keyed(fields[0].key, Canon(fields[0].value))] + CanonFields(fields[1..])
  }

  function Members(es: seq<Keyed<Text>>): seq<Text> {
    if es == [] then [] else [Member(es[0].key, es[0].value)] + Members(es[1..])
  }

  /** The value with its keys sorted at every level. */
  function Normal(v: Json): Json
    decreases v, 1
  {
    match v
    case JArr(items) => JArr(NormalItems(items))
    case JObj(fields) => JObj(SortByKey(NormalFields(fields)))
    case _ => v
  }

  function NormalItems(items: seq<Json>): (r: seq<Json>)
    ensures |r| == |items| && forall i :: 0 <= i < |items| ==> r[i] == Normal(items[i])
    decreases items, 0
  {
    if items == [] then [] else [Normal(items[0])] + NormalItems(items[1..])
  }

  function NormalFields(fields: seq<Keyed<Json>>): (r: seq<Keyed<Json>>)
    ensures |r| == |fields|
    ensures forall i :: 0 <= i < |fields| ==> r[i] == Keyed(fields[i].key, Normal(fields[i].value))
    decreases fields, 0
  {
    if fields == [] then [] else [Keyed(fields[0].key, Normal(fields[0].value))] + NormalFields(fields[1..])
  }

  function PrintValues(es: seq<Keyed<Json>>): seq<Keyed<Text>> {
    if es == [] then [] else [Keyed(es[0].key, Print(es[0].value))] + PrintValues(es[1..])
  }

  lemma {:induction false} InsertPrinted(e: Keyed<Json>, sorted: seq<Keyed<Json>>)
    ensures PrintValues(InsertByKey(e, sorted)) == InsertByKey(Keyed(e.key, Print(e.value)), PrintValues(sorted))
  {
    if sorted == [] || Less(e.key, sorted[0].key) {
      assert ([e] + sorted)[1..] == sorted;
    } else {
      InsertPrinted(e, sorted[1..]);
      var rest := InsertByKey(e, sorted[1..]);
      assert ([sorted[0]] + rest)[1..] == rest;
    }
  }

  lemma {:induction false} SortPrinted(es: seq<Keyed<Json>>)
    ensures PrintValues(SortByKey(es)) == SortByKey(PrintValues(es))
  {
    if es != [] {
      SortPrinted(es[1..]);
      InsertPrinted(es[0], SortByKey(es[1..]));
    }
  }

  lemma {:induction false} MembersPrinted(es: seq<Keyed<Json>>)
    ensures Members(PrintValues(es)) == PrintFields(es)
  {
    if es != [] { MembersPrinted(es[1..]); }
  }

  /** The canonical text is the plain text of the value with its keys sorted. */
  lemma {:induction false} CanonIsPrintOfNormal(v: Json)
    ensures Canon(v) == Print(Normal(v))
    decreases v, 1
  {
    match v
    case JArr(items) => CanonItemsPrinted(items);
    case JObj(fields) =>
      CanonFieldsPrinted(fields);
      SortPrinted(NormalFields(fields));
      MembersPrinted(SortByKey(NormalFields(fields)));
    case _ =>
  }

  lemma {:induction false} CanonItemsPrinted(items: seq<Json>)
    ensures CanonItems(items) == PrintItems(NormalItems(items))
    decreases items, 0
  {
    if items != [] {
      CanonIsPrintOfNormal(items[0]);
      CanonItemsPrinted(items[1..]);
      assert NormalItems(items)[1..] == NormalItems(items[1..]);
    }
  }

  lemma {:induction false} CanonFieldsPrinted(fields: seq<Keyed<Json>>)
    ensures CanonFields(fields) == PrintValues(NormalFields(fields))
    decreases fields, 0
  {
    if fields != [] {
      CanonIsPrintOfNormal(fields[0].value);
      CanonFieldsPrinted(fields[1..]);
      assert NormalFields(fields)[1..] == NormalFields(fields[1..]);
    }
  }

  // ---------------------------------------------------------------- equal up to key order

  /** No object in the value has a key twice. */
  ghost predicate Proper(v: Json)
    decreases v
  {
    match v
    case JArr(items) => forall i :: 0 <= i < |items| ==> Proper(items[i])
    case JObj(fields) => DistinctKeys(fields) && forall i :: 0 <= i < |fields| ==> Proper(fields[i].value)
    case _ => true
  }

  /** Equal up to the order of keys, at every level. */
  ghost predicate Equivalent(v: Json, w: Json)
    decreases v, 1
  {
    match v
    case JArr(items) => w.JArr? && EquivalentItems(items, w.items)
    case JObj(fields) =>
      w.JObj? && EquivalentFields(fields, w.fields) && forall j :: 0 <= j < |w.fields| ==>
          HasKey(fields, w.fields[j].key)
    case _ => v == w
  }

  ghost predicate EquivalentItems(a: seq<Json>, b: seq<Json>)
    decreases a, 0
  {
    |a| == |b| && forall i :: 0 <= i < |a| ==> Equivalent(a[i], b[i])
  }

  /** Every member of the first has an equivalent one under its key in the second. */
  ghost predicate EquivalentFields(a: seq<Keyed<Json>>, b: seq<Keyed<Json>>)
    decreases a, 0
  {
    forall i :: 0 <= i < |a| ==> exists j :: 0 <= j < |b| && EquivalentField(a[i], b[j])
  }

  ghost predicate EquivalentField(e: Keyed<Json>, f: Keyed<Json>)
    decreases e, 2
  {
    e.key == f.key && Equivalent(e.value, f.value)
  }

  ghost predicate HasKey(fields: seq<Keyed<Json>>, key: Text) {
    exists i :: 0 <= i < |fields| && fields[i].key == key
  }

  lemma {:induction false} SortedMembers<V>(es: seq<Keyed<V>>, e: Keyed<V>)
    ensures e in SortByKey(es) <==> e in es
  {
    SortKeeps(es);
    assert e in SortByKey(es) <==> e in multiset(SortByKey(es));
    assert e in es <==> e in multiset(es);
  }

  /** Values that normalize alike are equivalent. */
  lemma {:induction false} NormalEquivalent(v: Json, w: Json)
    requires Normal(v) == Normal(w)
    ensures Equivalent(v, w)
    decreases v, 1
  {
    match v
    case JArr(items) => NormalEquivalentItems(items, w.items);
    case JObj(fields) =>
      NormalEquivalentFields(fields, w.fields);
      forall j | 0 <= j < |w.fields| ensures HasKey(fields, w.fields[j].key) {
        var i := Partner(w.fields, fields, j);
      }
    case _ =>
  }

  lemma {:induction false} NormalEquivalentItems(a: seq<Json>, b: seq<Json>)
    requires NormalItems(a) == NormalItems(b)
    ensures EquivalentItems(a, b)
    decreases a, 0
  {
    forall i | 0 <= i < |a| ensures Equivalent(a[i], b[i]) {
      assert NormalItems(a)[i] == NormalItems(b)[i];
      NormalEquivalent(a[i], b[i]);
    }
  }

  lemma {:induction false} NormalEquivalentFields(a: seq<Keyed<Json>>, b: seq<Keyed<Json>>)
    requires SortByKey(NormalFields(a)) == SortByKey(NormalFields(b))
    ensures EquivalentFields(a, b)
    decreases a, 0
  {
    forall i | 0 <= i < |a|
      ensures exists j :: 0 <= j < |b| && EquivalentField(a[i], b[j])
    {
      var j := Partner(a, b, i);
      NormalEquivalent(a[i].value, b[j].value);
      assert EquivalentField(a[i], b[j]);
    }
  }

  /** Where a member went, when two objects normalize alike. */
  lemma {:induction false} Partner(fields: seq<Keyed<Json>>, others: seq<Keyed<Json>>, i: nat) returns (j: nat)
    requires SortByKey(NormalFields(fields)) == SortByKey(NormalFields(others)) && i < |fields|
    ensures j < |others| && others[j].key == fields[i].key
    ensures Normal(fields[i].value) == Normal(others[j].value)
  {
    var e := NormalFields(fields)[i];
    SortedMembers(NormalFields(fields), e);
    SortedMembers(NormalFields(others), e);
    j :| 0 <= j < |NormalFields(others)| && NormalFields(others)[j] == e;
  }

  /** Equivalent values normalize alike, when no key stands twice. */
  lemma {:induction false} EquivalentNormal(v: Json, w: Json)
    requires Equivalent(v, w) && Proper(v) && Proper(w)
    ensures Normal(v) == Normal(w)
    decreases v, 1
  {
    match v
    case JArr(items) =>
      forall i | 0 <= i < |items| ensures NormalItems(items)[i] == NormalItems(w.items)[i] {
        EquivalentNormal(items[i], w.items[i]);
      }
    case JObj(fields) =>
      forall i | 0 <= i < |fields| ensures NormalFields(fields)[i] in NormalFields(w.fields) {
        var j := EquivalentMember(fields, w.fields, i);
      }
      forall j | 0 <= j < |w.fields| ensures NormalFields(w.fields)[j] in NormalFields(fields) {
        assert HasKey(fields, w.fields[j].key);
        var i :| 0 <= i < |fields| && fields[i].key == w.fields[j].key;
        var j' := EquivalentMember(fields, w.fields, i);
        assert j' == j;
      }
      SameSorted(NormalFields(fields), NormalFields(w.fields));
    case _ =>
  }

  lemma {:induction false} EquivalentMember(a: seq<Keyed<Json>>, b: seq<Keyed<Json>>, i: nat) returns (j: nat)
    requires EquivalentFields(a, b) && i < |a|
    requires forall k :: 0 <= k < |a| ==> Proper(a[k].value)
    requires forall k :: 0 <= k < |b| ==> Proper(b[k].value)
    ensures j < |b| && b[j].key == a[i].key && NormalFields(b)[j] == NormalFields(a)[i]
    decreases a, 0
  {
    var e := a[i];
    j :| 0 <= j < |b| && EquivalentField(e, b[j]);
    EquivalentNormal(e.value, b[j].value);
  }

  lemma {:induction false} SameSorted(a: seq<Keyed<Json>>, b: seq<Keyed<Json>>)
    requires DistinctKeys(a) && DistinctKeys(b)
    requires forall i :: 0 <= i < |a| ==> a[i] in b
    requires forall j :: 0 <= j < |b| ==> b[j] in a
    ensures SortByKey(a) == SortByKey(b)
  {
    SortAscends(a);
    SortAscends(b);
    forall e ensures e in SortByKey(a) <==> e in SortByKey(b) {
      SortedMembers(a, e);
      SortedMembers(b, e);
    }
    AscendingUnique(SortByKey(a), SortByKey(b));
  }

  /** Canonical texts are equal exactly when the sorted values are. */
  lemma {:induction false} CanonNormal(v: Json, w: Json)
    ensures Canon(v) == Canon(w) <==> Normal(v) == Normal(w)
  {
    CanonIsPrintOfNormal(v);
    CanonIsPrintOfNormal(w);
    if Canon(v) == Canon(w) { PrintInjective(Normal(v), Normal(w)); }
  }

  /** Two values share their canonical text exactly when they are equal up to the order of keys. */
  lemma {:induction false} CanonExact(v: Json, w: Json)
    requires Proper(v) && Proper(w)
    ensures Canon(v) == Canon(w) <==> Equivalent(v, w)
  {
    CanonNormal(v, w);
    if Normal(v) == Normal(w) { NormalEquivalent(v, w); }
    if Equivalent(v, w) { EquivalentNormal(v, w); }
  }

  // ---------------------------------------------------------------- the texts, spelled out

  lemma {:induction false} ScalarsSpelled()
    ensures Canon(JNull) == Ascii("null") && Canon(JNum(-10)) == Ascii("-10")
    ensures Canon(JBool(true)) == Ascii("true") && Canon(JBool(false)) == Ascii("false")
  {
    assert ToDecimal(1) == "1";
    assert ToDecimal(10) == "10";
  }

  lemma {:induction false} PairJoined(a: Text, b: Text)
    ensures Join([a, b]) == a + [COMMA] + b
  {
    assert [a, b][1..] == [b];
    assert Tail([b][1..]) == [];
    assert Tail([b]) == [COMMA] + b + [];
  }

  lemma {:induction false} ListSpelled(x: Json, y: Json)
    ensures Canon(JArr([x, y])) == [LBRACKET] + (Canon(x) + [COMMA] + Canon(y)) + [RBRACKET]
  {
    assert [x, y][1..] == [y];
    assert CanonItems([y][1..]) == [];
    assert CanonItems([y]) == [Canon(y)];
    PairJoined(Canon(x), Canon(y));
  }

  lemma {:induction false} TwoSorted(a: Keyed<Text>, b: Keyed<Text>)
    requires Less(a.key, b.key)
    ensures SortByKey([b, a]) == [a, b]
    ensures Members([a, b]) == [Member(a.key, a.value), Member(b.key, b.value)]
  {
    LessTotal(a.key, b.key);
    assert [b, a][1..] == [a] && [a][1..] == [] && [a, b][1..] == [b] && [b][1..] == [];
    assert SortByKey([a]) == [a];
    assert InsertByKey(b, [a]) == [a] + InsertByKey(b, []);
    assert Members([b]) == [Member(b.key, b.value)];
  }

  lemma {:induction false} ObjectSpelled(j: Text, x: Json, k: Text, y: Json)
    requires Less(j, k)
    ensures Canon(JObj([Keyed(k, y), Keyed(j, x)])) ==
            [LBRACE] + (Quote(j) + [COLON] + Canon(x) + [COMMA] + (Quote(k) + [COLON] + Canon(y))) + [RBRACE]
  {
    var fields := [Keyed(k, y), Keyed(j, x)];
    var a, b := Keyed(j, Canon(x)), Keyed(k, Canon(y));
    assert fields[1..] == [Keyed(j, x)];
    assert CanonFields([Keyed(j, x)]) == [a];
    assert CanonFields(fields) == [b, a];
    TwoSorted(a, b);
    PairJoined(Member(j, a.value), Member(k, b.value));
  }
}
