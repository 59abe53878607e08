/**
  The agreement gate: two engines agree on a file exactly when their verdict lists do, declaration by
  declaration, in order, and in everything but the byte position of a refusal.
  Source: experiments/lift-harness/src/contract.ts, experiments/lift-harness/src/gate.ts.
 */
module Gate {
  import opened Outcomes
  import opened CodeUnits
  import opened JsonText
  import opened CanonJson

  /** A verdict as it crosses the process boundary. */
  datatype WireRef = WireRef(source: nat, expectedTag: nat)
  datatype WireInstruction =
    WireInstruction(index: nat, version: nat, tag: nat, payloadHex: Text, refs: seq<WireRef>)
  datatype WireVerdict =
    | WireLift(name: Text, storeBinder: Text, instructions: seq<WireInstruction>, helperUnpinned: bool)
    | WireRefusal(name: Text, code: Text, detail: Text, pos: Option<int>)

  /** Member names that are ASCII and all different. */
  predicate MemberNames(names: seq<string>) {
    && (forall i :: 0 <= i < |names| ==> IsAscii(names[i]))
    && (forall i, j :: 0 <= i < j < |names| ==> names[i] != names[j])
  }

  /** The object with these members. */
  function Record(names: seq<string>, values: seq<Json>): Json
    requires MemberNames(names) && |names| == |values|
  {
    JObj(seq(|names|, i requires 0 <= i < |names| => Keyed(Ascii(names[i]), values[i])))
  }

  const REF_NAMES := ["source", "expectedTag"]
  const INSTRUCTION_NAMES := ["index", "version", "tag", "payloadHex", "refs"]
  const LIFT_NAMES := ["kind", "name", "storeBinder", "instructions", "helperUnpinned"]
  const REFUSAL_NAMES := ["kind", "name", "code", "detail"]

  lemma {:induction false} NamesDiffer()
    ensures MemberNames(REF_NAMES) && MemberNames(INSTRUCTION_NAMES)
    ensures MemberNames(LIFT_NAMES) && MemberNames(REFUSAL_NAMES)
  {
    Initials(REF_NAMES, "se");
    Initials(INSTRUCTION_NAMES, "ivtpr");
    Initials(LIFT_NAMES, "knsih");
    Initials(REFUSAL_NAMES, "kncd");
  }

  lemma {:induction false} Initials(names: seq<string>, initials: string)
    requires |names| == |initials|
    requires forall i :: 0 <= i < |names| ==> IsAscii(names[i]) && names[i] != [] && names[i][0] == initials[i]
    requires forall i, j :: 0 <= i < j < |initials| ==> initials[i] != initials[j]
    ensures MemberNames(names)
  {
  }

  function RefValues(r: WireRef): seq<Json> { [JNum(r.source), JNum(r.expectedTag)] }

  function RefJson(r: WireRef): Json {
    NamesDiffer();
    Record(REF_NAMES, RefValues(r))
  }

  function RefsJson(refs: seq<WireRef>): seq<Json> {
    seq(|refs|, i requires 0 <= i < |refs| => RefJson(refs[i]))
  }

  function InstructionValues(instr: WireInstruction): seq<Json> {
    [JNum(instr.index), JNum(instr.version), JNum(instr.tag), JStr(instr.payloadHex), JArr(RefsJson(instr.refs))]
  }

  function InstructionJson(instr: WireInstruction): Json {
    NamesDiffer();
    Record(INSTRUCTION_NAMES, InstructionValues(instr))
  }

  function InstructionsJson(instrs: seq<WireInstruction>): seq<Json> {
    seq(|instrs|, i requires 0 <= i < |instrs| => InstructionJson(instrs[i]))
  }

  function LiftValues(v: WireVerdict): seq<Json>
    requires v.WireLift?
  {
    [JStr(Ascii("lifted")), JStr(v.name), JStr(v.storeBinder), JArr(InstructionsJson(v.instructions)),
     JBool(v.helperUnpinned)]
  }

  /** Everything but the position. */
  function RefusalValues(v: WireVerdict): seq<Json>
    requires v.WireRefusal?
  {
    [JStr(Ascii("refusal")), JStr(v.name), JStr(v.code), JStr(v.detail)]
  }

  /** What a verdict key is the canonical text of: the whole lift, or the refusal without its position. */
  function KeyJson(v: WireVerdict): Json {
    NamesDiffer();
    if v.WireLift? then Record(LIFT_NAMES, LiftValues(v)) else Record(REFUSAL_NAMES, RefusalValues(v))
  }

  function VerdictKey(v: WireVerdict): Text { Canon(KeyJson(v)) }

  function KeyList(vs: seq<WireVerdict>): Json {
    JArr(seq(|vs|, i requires 0 <= i < |vs| => JStr(VerdictKey(vs[i]))))
  }

  /** The gate's comparison of two engines' verdicts on one file. */
  predicate Agrees(ck: seq<WireVerdict>, ox: seq<WireVerdict>) {
    Canon(KeyList(ck)) == Canon(KeyList(ox))
  }

  predicate SameButPosition(v: WireVerdict, w: WireVerdict) {
    if v.WireRefusal? && w.WireRefusal? then v.(pos := None) == w.(pos := None) else v == w
  }

  // ---------------------------------------------------------------- records

  lemma {:induction false} RecordKeys(names: seq<string>, values: seq<Json>)
    requires MemberNames(names) && |names| == |values|
    ensures DistinctKeys(Record(names, values).fields)
  {
    var fields := Record(names, values).fields;
    forall i, j | 0 <= i < j < |fields| ensures fields[i].key != fields[j].key {
      if fields[i].key == fields[j].key { AsciiInjective(names[i], names[j]); }
    }
  }

  /** Records that normalize alike agree on every member both have. */
  lemma {:induction false} MembersEqual(names: seq<string>, values: seq<Json>, others: seq<string>,
                                        otherValues: seq<Json>, i: nat, j: nat)
    requires MemberNames(names) && |names| == |values| && MemberNames(others) && |others| == |otherValues|
    requires Normal(Record(names, values)) == Normal(Record(others, otherValues))
    requires i < |names| && j < |others| && names[i] == others[j]
    ensures Normal(values[i]) == Normal(otherValues[j])
  {
    RecordKeys(others, otherValues);
    var m := Partner(Record(names, values).fields, Record(others, otherValues).fields, i);
    assert m == j;
  }

  lemma {:induction false} RecordsEqual(names: seq<string>, values: seq<Json>, others: seq<Json>)
    requires MemberNames(names) && |names| == |values| == |others|
    requires Normal(Record(names, values)) == Normal(Record(names, others))
    ensures forall i :: 0 <= i < |names| ==> Normal(values[i]) == Normal(others[i])
  {
    forall i | 0 <= i < |names| ensures Normal(values[i]) == Normal(others[i]) {
      MembersEqual(names, values, names, others, i, i);
    }
  }

  lemma {:induction false} ListsNormal(a: seq<Json>, b: seq<Json>)
    ensures NormalItems(a) == NormalItems(b) <==>
            |a| == |b| && forall i :: 0 <= i < |a| ==> Normal(a[i]) == Normal(b[i])
  {
    if NormalItems(a) == NormalItems(b) {
      forall i | 0 <= i < |a| ensures Normal(a[i]) == Normal(b[i]) {
        assert NormalItems(a)[i] == NormalItems(b)[i];
      }
    }
  }

  lemma {:induction false} RefEqual(r: WireRef, t: WireRef)
    requires Normal(RefJson(r)) == Normal(RefJson(t))
    ensures r == t
  {
    NamesDiffer();
    var a, b := RefValues(r), RefValues(t);
    RecordsEqual(REF_NAMES, a, b);
    assert Normal(a[0]) == Normal(b[0]) && Normal(a[1]) == Normal(b[1]);
  }

  lemma {:induction false} InstructionEqual(instr: WireInstruction, other: WireInstruction)
    requires Normal(InstructionJson(instr)) == Normal(InstructionJson(other))
    ensures instr == other
  {
    NamesDiffer();
    var a, b := InstructionValues(instr), InstructionValues(other);
    RecordsEqual(INSTRUCTION_NAMES, a, b);
    assert Normal(a[0]) == Normal(b[0]) && Normal(a[1]) == Normal(b[1]) && Normal(a[2]) == Normal(b[2]);
    assert Normal(a[3]) == Normal(b[3]) && Normal(a[4]) == Normal(b[4]);
    ListsNormal(RefsJson(instr.refs), RefsJson(other.refs));
    forall i | 0 <= i < |instr.refs| ensures instr.refs[i] == other.refs[i] {
      assert Normal(RefsJson(instr.refs)[i]) == Normal(RefsJson(other.refs)[i]);
      RefEqual(instr.refs[i], other.refs[i]);
    }
  }

  // ---------------------------------------------------------------- verdicts

  lemma {:induction false} LiftsEqual(v: WireVerdict, w: WireVerdict)
    requires v.WireLift? && w.WireLift? && Normal(KeyJson(v)) == Normal(KeyJson(w))
    ensures v == w
  {
    NamesDiffer();
    var a, b := LiftValues(v), LiftValues(w);
    RecordsEqual(LIFT_NAMES, a, b);
    assert Normal(a[1]) == Normal(b[1]) && Normal(a[2]) == Normal(b[2]);
    assert Normal(a[3]) == Normal(b[3]) && Normal(a[4]) == Normal(b[4]);
    ListsNormal(InstructionsJson(v.instructions), InstructionsJson(w.instructions));
    forall i | 0 <= i < |v.instructions| ensures v.instructions[i] == w.instructions[i] {
      assert Normal(InstructionsJson(v.instructions)[i]) == Normal(InstructionsJson(w.instructions)[i]);
      InstructionEqual(v.instructions[i], w.instructions[i]);
    }
  }

  lemma {:induction false} RefusalsEqual(v: WireVerdict, w: WireVerdict)
    requires v.WireRefusal? && w.WireRefusal? && Normal(KeyJson(v)) == Normal(KeyJson(w))
    ensures v.(pos := None) == w.(pos := None)
  {
    NamesDiffer();
    var a, b := RefusalValues(v), RefusalValues(w);
    RecordsEqual(REFUSAL_NAMES, a, b);
    assert Normal(a[1]) == Normal(b[1]) && Normal(a[2]) == Normal(b[2]) && Normal(a[3]) == Normal(b[3]);
  }

  lemma {:induction false} KindsDiffer(v: WireVerdict, w: WireVerdict)
    requires v.WireLift? && w.WireRefusal?
    ensures Normal(KeyJson(v)) != Normal(KeyJson(w))
  {
    NamesDiffer();
    var a, b := LiftValues(v), RefusalValues(w);
    assert Normal(a[0]) != Normal(b[0]) by { assert |Ascii("lifted")| != |Ascii("refusal")|; }
    if Normal(KeyJson(v)) == Normal(KeyJson(w)) {
      MembersEqual(LIFT_NAMES, a, REFUSAL_NAMES, b, 0, 0);
    }
  }

  /** A verdict key says everything about a verdict but where a refusal stands. */
  lemma {:induction false} VerdictKeyExact(v: WireVerdict, w: WireVerdict)
    ensures VerdictKey(v) == VerdictKey(w) <==> SameButPosition(v, w)
  {
    CanonNormal(KeyJson(v), KeyJson(w));
    if Normal(KeyJson(v)) == Normal(KeyJson(w)) {
      match (v, w)
      case (WireLift(_, _, _, _), WireLift(_, _, _, _)) => LiftsEqual(v, w);
      case (WireRefusal(_, _, _, _), WireRefusal(_, _, _, _)) => RefusalsEqual(v, w);
      case (WireLift(_, _, _, _), WireRefusal(_, _, _, _)) => KindsDiffer(v, w);
      case (WireRefusal(_, _, _, _), WireLift(_, _, _, _)) => KindsDiffer(w, v);
    }
  }

  /** The gate passes a file exactly when the two engines gave the same verdicts in the same order, positions
      aside: no reordering and no difference of detail can hide. */
  lemma {:induction false} GateExact(ck: seq<WireVerdict>, ox: seq<WireVerdict>)
    ensures Agrees(ck, ox) <==>
            |ck| == |ox| && forall i :: 0 <= i < |ck| ==> SameButPosition(ck[i], ox[i])
  {
    var a, b := KeyList(ck), KeyList(ox);
    CanonNormal(a, b);
    forall i | 0 <= i < |ck| && i < |ox|
      ensures Normal(a.items[i]) == Normal(b.items[i]) <==> SameButPosition(ck[i], ox[i])
    {
      VerdictKeyExact(ck[i], ox[i]);
    }
    ListsNormal(a.items, b.items);
  }
}
