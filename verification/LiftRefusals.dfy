/**
  Why the recognizer refuses: exactly the first fault of a declaration, in reading order.
  Source: experiments/lift-harness/src/lift.ts.

  A fault is described on the syntax, without the recognizer: each part of a declaration has a list of checks
  in the order they are made, each with the code its failure is given.
 */
module LiftRefusals {
  import opened Outcomes
  import opened TsAst
  import opened Recognizer

  datatype Check = Check(fault: bool, code: Code)

  /** The code of the first check that fails. */
  ghost predicate FirstFault(checks: seq<Check>, code: Code) {
    exists k :: 0 <= k < |checks| && checks[k] == Check(true, code) && forall j :: 0 <= j < k ==> !checks[j].fault
  }

  ghost predicate Faultless(checks: seq<Check>) {
    forall k :: 0 <= k < |checks| ==> !checks[k].fault
  }

  // ---------------------------------------------------------------- spines

  /** A plain member chain of these names; parentheses do not show. */
  predicate NamesSpine(e: Expr, names: seq<string>)
    decreases e
  {
    match e
    case Paren(inner) => NamesSpine(inner, names)
    case Ident(text) => names == [text]
    case PropAccess(object_, member, false) =>
      |names| >= 2 && names[|names| - 1] == member && NamesSpine(object_, names[..|names| - 1])
    case _ => false
  }

  lemma {:induction false} ChainIsSpine(e: Expr, names: seq<string>)
    ensures Chain(e) == Some(names) <==> NamesSpine(e, names)
    decreases e
  {
    match e
    case Paren(inner) => ChainIsSpine(inner, names);
    case PropAccess(object_, member, false) =>
      ChainNonEmpty(object_);
      if names != [] {
        ChainIsSpine(object_, names[..|names| - 1]);
        assert names == names[..|names| - 1] + [names[|names| - 1]];
      }
      if Chain(object_).Some? {
        var front := Chain(object_).value;
        assert (front + [member])[..|front|] == front;
      }
    case _ =>
  }

  /** The next expression inward along a spine. */
  function Inward(e: Expr): Option<Expr> {
    match e
    case Paren(inner) => Some(inner)
    case PropAccess(object_, _, _) => Some(object_)
    case ElemAccess(base, _, _) => Some(base)
    case Call(callee, _, _) => Some(callee)
    case _ => None
  }

  function Along(e: Expr, k: nat): Option<Expr> {
    if k == 0 then Some(e)
    else match Inward(e) case None => None case Some(next) => Along(next, k - 1)
  }

  /** A link with `?.`, or a `!`. */
  predicate MarkedLink(e: Expr) {
    match e
    case NonNull(_) => true
    case PropAccess(_, _, questionDot) => questionDot
    case ElemAccess(_, _, questionDot) => questionDot
    case Call(_, _, questionDot) => questionDot
    case _ => false
  }

  predicate MarkedAt(e: Expr, k: nat) { Along(e, k).Some? && MarkedLink(Along(e, k).value) }

  lemma {:induction false} OptionalIsMarked(e: Expr)
    ensures Optional(e) <==> exists k: nat :: MarkedAt(e, k)
    decreases e
  {
    if Inward(e).Some? { OptionalIsMarked(Inward(e).value); }
    forall k: nat | MarkedAt(e, k) ensures Optional(e) {
      if k > 0 { assert MarkedAt(Inward(e).value, k - 1); }
    }
    if MarkedLink(e) {
      assert MarkedAt(e, 0);
    } else if Optional(e) {
      var k: nat :| MarkedAt(Inward(e).value, k);
      assert MarkedAt(e, k + 1);
    }
  }

  // ---------------------------------------------------------------- the checks of a node literal

  function PropsIn(e: Expr): seq<Prop> { if e.Object? then e.props else [] }

  /** What a key ends up with; a key that is not there has no initializer worth reading. */
  function Effective(props: seq<Prop>, key: string): Expr {
    match Lookup(props, key) case Some(init) => init case None => OtherExpr
  }

  predicate NotNat32(e: Expr) { !(e.Numeric? && IsCanonicalNat(e.raw)) }

  /** An object of plain assignments under exactly these keys. */
  function ObjectChecks(e: Expr, keys: set<string>): seq<Check> {
    [Check(!e.Object?, NodeShape),
     Check(exists i :: 0 <= i < |PropsIn(e)| && PropsIn(e)[i].OtherProp?, NodeShape),
     Check(Keys(PropsIn(e)) != keys, NodeShape)]
  }

  function RefChecks(el: Expr, binders: seq<string>): seq<Check> {
    var id := Effective(PropsIn(el), "id");
    ObjectChecks(el, {"id", "expectedTag"}) +
    [Check(!id.Ident?, ArgDynamic),
     Check(id.Ident? && id.text !in binders, RefUnbound),
     Check(NotNat32(Effective(PropsIn(el), "expectedTag")), ArgDynamic)]
  }

  function RefsChecks(elements: seq<Expr>, binders: seq<string>): seq<Check> {
    if elements == [] then [] else RefChecks(elements[0], binders) + RefsChecks(elements[1..], binders)
  }

  function KindChecks(kind: Expr): seq<Check> {
    ObjectChecks(kind, {"version", "tag"}) +
    [Check(NotNat32(Effective(PropsIn(kind), "version")), ArgDynamic),
     Check(NotNat32(Effective(PropsIn(kind), "tag")), ArgDynamic)]
  }

  /** A payload is the helper called on one string literal of the payload domain. */
  predicate HexCall(e: Expr) { e.Call? && e.callee == Ident("hex") && |e.args| == 1 }

  /** A byte string in lower-case hexadecimal. */
  function InHex(bytes: seq<nat>): string
    requires forall i :: 0 <= i < |bytes| ==> bytes[i] < 256
  {
    if bytes == [] then ""
    else ["0123456789abcdef"[bytes[0] / 16], "0123456789abcdef"[bytes[0] % 16]] + InHex(bytes[1..])
  }

  ghost predicate SpellsBytes(text: string) {
    exists bytes: seq<nat> :: (forall i :: 0 <= i < |bytes| ==> bytes[i] < 256) && InHex(bytes) == text
  }

  function HexDigitValue(c: char): nat {
    if '0' <= c <= '9' then (c - '0') as nat else if 'a' <= c <= 'f' then (c - 'a') as nat + 10 else 0
  }

  lemma {:induction false} HexDigits(c: char)
    requires IsLowerHex(c)
    ensures HexDigitValue(c) < 16 && "0123456789abcdef"[HexDigitValue(c)] == c
  {
  }

  lemma {:induction false} HexOfBytes(bytes: seq<nat>)
    requires forall i :: 0 <= i < |bytes| ==> bytes[i] < 256
    ensures IsPayloadHex(InHex(bytes))
  {
    if bytes != [] {
      HexOfBytes(bytes[1..]);
      var rest, text := InHex(bytes[1..]), InHex(bytes);
      forall i | 0 <= i < |text| ensures IsLowerHex(text[i]) {
        if i >= 2 { assert text[i] == rest[i - 2]; }
      }
    }
  }

  lemma {:induction false} BytesOfHex(text: string) returns (bytes: seq<nat>)
    requires IsPayloadHex(text)
    ensures (forall i :: 0 <= i < |bytes| ==> bytes[i] < 256) && InHex(bytes) == text
  {
    bytes := [];
    if text != [] {
      var rest := text[2..];
      assert forall i :: 0 <= i < |rest| ==> rest[i] == text[i + 2];
      var more := BytesOfHex(rest);
      HexDigits(text[0]);
      HexDigits(text[1]);
      var byte := HexDigitValue(text[0]) * 16 + HexDigitValue(text[1]);
      bytes := [byte] + more;
      assert bytes[1..] == more && byte / 16 == HexDigitValue(text[0]) && byte % 16 == HexDigitValue(text[1]);
      assert text == [text[0], text[1]] + rest;
    }
  }

  /** The payload domain is the spellings of byte strings. */
  lemma {:induction false} PayloadIsBytes(text: string)
    ensures IsPayloadHex(text) <==> SpellsBytes(text)
  {
    if IsPayloadHex(text) { var bytes := BytesOfHex(text); }
    if SpellsBytes(text) {
      var bytes: seq<nat> :| (forall i :: 0 <= i < |bytes| ==> bytes[i] < 256) && InHex(bytes) == text;
      HexOfBytes(bytes);
    }
  }

  function PayloadChecks(payload: Expr): seq<Check> {
    [Check(!HexCall(payload), ArgDynamic),
     Check(HexCall(payload) && !payload.args[0].StrLit?, ArgDynamic),
     Check(HexCall(payload) && payload.args[0].StrLit? && !IsPayloadHex(payload.args[0].value), ArgDynamic)]
  }

  function NodeChecks(arg: Expr, binders: seq<string>): seq<Check> {
    var refs := Effective(PropsIn(arg), "refs");
    [Check(arg.Arrow? || arg.Function?, ArgClosure)] + ObjectChecks(arg, {"kind", "payload", "refs"}) +
    KindChecks(Effective(PropsIn(arg), "kind")) + PayloadChecks(Effective(PropsIn(arg), "payload")) +
    [Check(!refs.ArrayLit?, ArgDynamic)] + RefsChecks(if refs.ArrayLit? then refs.elements else [], binders)
  }

  // ---------------------------------------------------------------- the checks of a statement

  /** What a binding yields, as `yield*` of something. */
  function Operand(st: Stmt): Option<Expr> {
    if !st.VarStmt? || |st.decls| != 1 then None
    else match st.decls[0].initializer
         case Some(Yield(true, Some(op))) => Some(op)
         case _ => None
  }

  function CalleeNames(op: Expr): seq<string> {
    if op.Call? && Chain(op.callee).Some? then Chain(op.callee).value else []
  }

  function OperandOf(st: Stmt): Expr { match Operand(st) case Some(op) => op case None => OtherExpr }

  /** The checks of a binding up to its node. */
  function OwnChecks(st: Stmt, binders: seq<string>, store: string, imports: set<string>): seq<Check>
    requires st.VarStmt?
  {
    var op := OperandOf(st);
    var names := CalleeNames(op);
    var foreign := names == [] || names[0] != store || |names| != 2;
    [Check(|st.decls| != 1, StmtShape),
     Check(|st.decls| == 1 && st.decls[0].binder.PatternBinder?, BindShape),
     Check(Operand(st).None?, StmtShape),
     Check(Optional(op), StmtShape),
     Check(!op.Call?, YieldPosition),
     Check(names == [], StmtShape),
     Check(|names| == 2 && names[0] in binders, AnswerHigherOrder),
     Check(foreign && names != [] && names[0] in imports, OpUnknown),
     Check(foreign, OpReceiver),
     Check(|names| == 2 && names[1] != "put", OpUnknown),
     Check(op.Call? && |op.args| != 1, NodeShape)]
  }

  function BindingChecks(st: Stmt, binders: seq<string>, store: string, imports: set<string>): seq<Check>
    requires st.VarStmt?
  {
    var op := OperandOf(st);
    OwnChecks(st, binders, store, imports) +
    NodeChecks(if op.Call? && |op.args| == 1 then op.args[0] else OtherExpr, binders)
  }

  /** The return is last, and is exactly the binders, in order. */
  function ReturnChecks(st: Stmt, last: bool, binders: seq<string>): seq<Check>
    requires st.ReturnStmt?
  {
    var listed := st.returned.Some? && st.returned.value.ArrayLit?;
    [Check(!last, StmtShape),
     Check(st.returned.Some? && st.returned.value.Yield?, FailNotDocumented),
     Check(!listed, ReturnShape),
     Check(listed && st.returned.value.elements !=
                    seq(|binders|, k requires 0 <= k < |binders| => Ident(binders[k])), ReturnShape)]
  }

  /** The names that the statements before i bind. */
  function BoundBefore(stmts: seq<Stmt>, i: nat): seq<string>
    requires i <= |stmts|
  {
    if i == 0 then []
    else BoundBefore(stmts, i - 1) +
         (if stmts[i - 1].VarStmt? && |stmts[i - 1].decls| == 1 && stmts[i - 1].decls[0].binder.NameBinder?
          then [stmts[i - 1].decls[0].binder.name] else [])
  }

  function StatementChecks(stmts: seq<Stmt>, i: nat, store: string, imports: set<string>): seq<Check>
    requires i < |stmts|
  {
    match stmts[i]
    case IfStmt => [Check(true, Branch)]
    case LoopStmt => [Check(true, Loop)]
    case TryStmt => [Check(true, Handler)]
    case VarStmt(_, _) => BindingChecks(stmts[i], BoundBefore(stmts, i), store, imports)
    case ReturnStmt(_) => ReturnChecks(stmts[i], i == |stmts| - 1, BoundBefore(stmts, i))
    case ExprStmt(e) => [Check(e.Yield?, YieldPosition), Check(!e.Yield?, StmtShape)]
    case OtherStmt => [Check(true, StmtShape)]
  }

  /** Every statement before i is a binding without fault. */
  ghost predicate FaultlessBefore(stmts: seq<Stmt>, i: nat, store: string, imports: set<string>) {
    i <= |stmts| &&
    forall k :: 0 <= k < i ==> stmts[k].VarStmt? && Faultless(StatementChecks(stmts, k, store, imports))
  }

  /** The body is at fault in statement i with this code, every statement before it being a binding without
      fault; or it is bindings to its end, and has no return. */
  ghost predicate BodyFaultAt(stmts: seq<Stmt>, i: nat, store: string, imports: set<string>, code: Code) {
    FaultlessBefore(stmts, i, store, imports) &&
    if i == |stmts| then code == ReturnShape else FirstFault(StatementChecks(stmts, i, store, imports), code)
  }

  // ---------------------------------------------------------------- the checks of a declaration's frame

  function SpineIn(decl: Expr): Expr {
    if !decl.Arrow? then decl
    else match decl.arrowBody case ExprBody(result) => result case BlockBody => OtherExpr
  }

  function StoreIn(decl: Expr): string {
    if decl.Arrow? && |decl.arrowParams| == 1 && decl.arrowParams[0].IdentParam?
    then decl.arrowParams[0].name else ""
  }

  predicate RunsGenerator(call: Expr) {
    call.Call? && call.args != [] && call.args[0].Function? && call.args[0].generator
  }

  function BodyIn(decl: Expr): seq<Stmt> {
    var call := Unparen(SpineIn(decl));
    if RunsGenerator(call) then call.args[0].body else []
  }

  function FrameChecks(decl: Expr, imports: set<string>): seq<Check> {
    var call := Unparen(SpineIn(decl));
    var names := CalleeNames(call);
    [Check(decl.Arrow? && |decl.arrowParams| != 1, ParamShape),
     Check(decl.Arrow? && |decl.arrowParams| == 1 && decl.arrowParams[0].PatternParam?, ParamShape),
     Check(decl.Arrow? && decl.arrowBody.BlockBody?, SpineEscape),
     Check(Optional(SpineIn(decl)), StmtShape),
     Check(!call.Call?, SpineEscape),
     Check(names == [] || names[0] !in imports || names[|names| - 1] != "gen", SpineEscape),
     Check(!RunsGenerator(call), SpineEscape)]
  }

  // ---------------------------------------------------------------- lists of checks

  lemma {:induction false} FaultIn(checks: seq<Check>, k: nat)
    requires k < |checks| && checks[k].fault && forall j :: 0 <= j < k ==> !checks[j].fault
    ensures forall code :: FirstFault(checks, code) <==> code == checks[k].code
    ensures !Faultless(checks)
  {
    assert checks[k] == Check(true, checks[k].code);
  }

  /** What a list of checks answers: nothing, or its first fault's code. */
  ghost predicate Answers<T>(checks: seq<Check>, r: Result<T, Code>) {
    && (r.Ok? <==> Faultless(checks))
    && forall code :: r == Err(code) <==> FirstFault(checks, code)
  }

  lemma {:induction false} FaultlessAnswers<T>(checks: seq<Check>, r: Result<T, Code>)
    requires r.Ok? && Faultless(checks)
    ensures Answers(checks, r)
  {
  }

  lemma {:induction false} FaultAnswers<T>(checks: seq<Check>, k: nat, r: Result<T, Code>)
    requires k < |checks| && checks[k].fault && r == Err(checks[k].code)
    requires forall j :: 0 <= j < k ==> !checks[j].fault
    ensures Answers(checks, r)
  {
    FaultIn(checks, k);
  }

  /** A first list at fault decides; after a faultless one the second does. */
  lemma {:induction false} AnswersThen<T, U>(a: seq<Check>, b: seq<Check>, first: Result<T, Code>, r: Result<U, Code>)
    requires Answers(a, first)
    requires first.Err? ==> r == Err(first.error)
    requires first.Ok? ==> Answers(b, r)
    ensures Answers(a + b, r)
  {
    if first.Err? {
      assert FirstFault(a, first.error);
      var k :| 0 <= k < |a| && a[k] == Check(true, first.error) && forall j :: 0 <= j < k ==> !a[j].fault;
      assert (a + b)[k] == a[k] && forall j :: 0 <= j < k ==> (a + b)[j] == a[j];
      FaultAnswers(a + b, k, r);
    } else if r.Err? {
      assert FirstFault(b, r.error);
      var k :| 0 <= k < |b| && b[k] == Check(true, r.error) && forall j :: 0 <= j < k ==> !b[j].fault;
      assert (a + b)[|a| + k] == b[k];
      forall j | 0 <= j < |a| + k ensures !(a + b)[j].fault {
        if j < |a| { assert (a + b)[j] == a[j]; } else { assert (a + b)[j] == b[j - |a|]; }
      }
      FaultAnswers(a + b, |a| + k, r);
    } else {
      forall j | 0 <= j < |a + b| ensures !(a + b)[j].fault {
        if j < |a| { assert (a + b)[j] == a[j]; } else { assert (a + b)[j] == b[j - |a|]; }
      }
    }
  }

  lemma {:induction false} AnswersAlike<T, U>(checks: seq<Check>, r: Result<T, Code>, r': Result<U, Code>)
    requires Answers(checks, r)
    requires r.Ok? <==> r'.Ok?
    requires r.Err? ==> r' == Err(r.error)
    ensures Answers(checks, r')
  {
    forall code ensures r' == Err(code) <==> FirstFault(checks, code) {
      assert r == Err(code) <==> FirstFault(checks, code);
    }
  }

  /** Forget what was read, keep whether it was. */
  function Outcome<T>(r: Result<T, Code>): Result<bool, Code> {
    match r case Ok(_) => Ok(true) case Err(code) => Err(code)
  }

  function Unless(fault: bool, code: Code): Result<bool, Code> { if fault then Err(code) else Ok(true) }

  function AndThen<T>(first: Result<bool, Code>, then_: Result<T, Code>): Result<bool, Code> {
    if first.Err? then first else Outcome(then_)
  }

  lemma {:induction false} OneCheck(fault: bool, code: Code)
    ensures Answers([Check(fault, code)], Unless(fault, code))
  {
    var checks := [Check(fault, code)];
    if fault { FaultAnswers(checks, 0, Unless(fault, code)); }
  }

  /** Two parts of a reading, each answered by its checks. */
  lemma {:induction false} BothAnswer<T>(a: seq<Check>, b: seq<Check>, first: Result<bool, Code>,
                                         then_: Result<T, Code>)
    requires Answers(a, first)
    requires first.Ok? ==> Answers(b, then_)
    ensures Answers(a + b, AndThen(first, then_))
  {
    if first.Ok? { AnswersAlike(b, then_, AndThen(first, then_)); }
    AnswersThen(a, b, first, AndThen(first, then_));
  }

  // ---------------------------------------------------------------- the node literal

  function ReadObject(e: Expr, keys: set<string>): Result<bool, Code> {
    Unless(!(e.Object? && AllAssignments(e.props) && Keys(e.props) == keys), NodeShape)
  }

  lemma {:induction false} ObjectAnswers(e: Expr, keys: set<string>)
    ensures Answers(ObjectChecks(e, keys), ReadObject(e, keys))
  {
    var checks, r := ObjectChecks(e, keys), ReadObject(e, keys);
    if !e.Object? {
      FaultAnswers(checks, 0, r);
    } else if !AllAssignments(e.props) {
      FaultAnswers(checks, 1, r);
    } else if Keys(e.props) != keys {
      FaultAnswers(checks, 2, r);
    }
  }

  lemma {:induction false} EffectiveIs(props: seq<Prop>, key: string)
    requires key in Keys(props)
    ensures Lookup(props, key) == Some(Effective(props, key))
  {
    LookupFinds(props, key);
  }

  lemma {:induction false} RefAnswers(el: Expr, binders: seq<string>)
    ensures Answers(RefChecks(el, binders), Outcome(ParseRef(el, binders)))
  {
    var keys := {"id", "expectedTag"};
    var read := ReadObject(el, keys);
    ObjectAnswers(el, keys);
    var r := Outcome(ParseRef(el, binders));
    var id, tag := Effective(PropsIn(el), "id"), Effective(PropsIn(el), "expectedTag");
    var rest := [Check(!id.Ident?, ArgDynamic), Check(id.Ident? && id.text !in binders, RefUnbound),
                 Check(NotNat32(tag), ArgDynamic)];
    if read.Ok? {
      EffectiveIs(el.props, "id");
      EffectiveIs(el.props, "expectedTag");
      if !id.Ident? {
        FaultAnswers(rest, 0, r);
      } else if IndexOf(binders, id.text).None? {
        FaultAnswers(rest, 1, r);
      } else if NotNat32(tag) {
        FaultAnswers(rest, 2, r);
      }
    }
    AnswersThen(ObjectChecks(el, keys), rest, read, r);
  }

  lemma {:induction false} RefsAnswers(elements: seq<Expr>, binders: seq<string>)
    ensures Answers(RefsChecks(elements, binders), Outcome(ParseRefs(elements, binders)))
  {
    if elements != [] {
      RefAnswers(elements[0], binders);
      RefsAnswers(elements[1..], binders);
      AnswersThen(RefChecks(elements[0], binders), RefsChecks(elements[1..], binders),
                  Outcome(ParseRef(elements[0], binders)), Outcome(ParseRefs(elements, binders)));
    }
  }

  lemma {:induction false} KindAnswers(kind: Expr)
    ensures Answers(KindChecks(kind), Outcome(ParseKind(kind)))
  {
    var keys := {"version", "tag"};
    var read := ReadObject(kind, keys);
    ObjectAnswers(kind, keys);
    var r := Outcome(ParseKind(kind));
    var version, tag := Effective(PropsIn(kind), "version"), Effective(PropsIn(kind), "tag");
    var rest := [Check(NotNat32(version), ArgDynamic), Check(NotNat32(tag), ArgDynamic)];
    if read.Ok? {
      EffectiveIs(kind.props, "version");
      EffectiveIs(kind.props, "tag");
      if NotNat32(version) { FaultAnswers(rest, 0, r); } else if NotNat32(tag) { FaultAnswers(rest, 1, r); }
    }
    AnswersThen(ObjectChecks(kind, keys), rest, read, r);
  }

  lemma {:induction false} PayloadAnswers(payload: Expr)
    ensures Answers(PayloadChecks(payload), Outcome(ParsePayload(payload)))
  {
    var checks, r := PayloadChecks(payload), Outcome(ParsePayload(payload));
    if !HexCall(payload) {
      FaultAnswers(checks, 0, r);
    } else if !payload.args[0].StrLit? {
      FaultAnswers(checks, 1, r);
    } else if !IsPayloadHex(payload.args[0].value) {
      FaultAnswers(checks, 2, r);
    }
  }

  /** The node literal is refused for the first of its checks that fails. */
  lemma {:induction false} NodeAnswers(arg: Expr, binders: seq<string>)
    ensures Answers(NodeChecks(arg, binders), Outcome(ParseNode(arg, binders)))
  {
    var keys := {"kind", "payload", "refs"};
    var closure := arg.Arrow? || arg.Function?;
    var kind, payload, refs := Effective(PropsIn(arg), "kind"), Effective(PropsIn(arg), "payload"),
                               Effective(PropsIn(arg), "refs");
    var elements := if refs.ArrayLit? then refs.elements else [];
    OneCheck(closure, ArgClosure);
    ObjectAnswers(arg, keys);
    KindAnswers(kind);
    PayloadAnswers(payload);
    OneCheck(!refs.ArrayLit?, ArgDynamic);
    RefsAnswers(elements, binders);
    var a := [Check(closure, ArgClosure)];
    var r1 := Unless(closure, ArgClosure);
    BothAnswer(a, ObjectChecks(arg, keys), r1, ReadObject(arg, keys));
    var r2 := AndThen(r1, ReadObject(arg, keys));
    BothAnswer(a + ObjectChecks(arg, keys), KindChecks(kind), r2, Outcome(ParseKind(kind)));
    var r3 := AndThen(r2, Outcome(ParseKind(kind)));
    var b := a + ObjectChecks(arg, keys) + KindChecks(kind);
    BothAnswer(b, PayloadChecks(payload), r3, Outcome(ParsePayload(payload)));
    var r4 := AndThen(r3, Outcome(ParsePayload(payload)));
    var c := b + PayloadChecks(payload);
    BothAnswer(c, [Check(!refs.ArrayLit?, ArgDynamic)], r4, Unless(!refs.ArrayLit?, ArgDynamic));
    var r5 := AndThen(r4, Unless(!refs.ArrayLit?, ArgDynamic));
    BothAnswer(c + [Check(!refs.ArrayLit?, ArgDynamic)], RefsChecks(elements, binders), r5,
               Outcome(ParseRefs(elements, binders)));
    NodeByParts(arg, binders, kind, payload, refs, elements);
  }

  lemma {:induction false} NodeByParts(arg: Expr, binders: seq<string>, kind: Expr, payload: Expr, refs: Expr,
                                       elements: seq<Expr>)
    requires kind == Effective(PropsIn(arg), "kind") && payload == Effective(PropsIn(arg), "payload")
    requires refs == Effective(PropsIn(arg), "refs") && elements == if refs.ArrayLit? then refs.elements else []
    ensures var r2 := AndThen(Unless(arg.Arrow? || arg.Function?, ArgClosure),
                              ReadObject(arg, {"kind", "payload", "refs"}));
            var r4 := AndThen(AndThen(r2, Outcome(ParseKind(kind))), Outcome(ParsePayload(payload)));
            Outcome(ParseNode(arg, binders)) ==
            AndThen(AndThen(r4, Unless(!refs.ArrayLit?, ArgDynamic)), Outcome(ParseRefs(elements, binders)))
  {
    if arg.Object? && AllAssignments(arg.props) && Keys(arg.props) == {"kind", "payload", "refs"} {
      EffectiveIs(arg.props, "kind");
      EffectiveIs(arg.props, "payload");
      EffectiveIs(arg.props, "refs");
    }
  }

  // ---------------------------------------------------------------- statements

  /** A binding up to its node. */
  function ReadBinding(st: Stmt, binders: seq<string>, store: string, imports: set<string>): Result<bool, Code>
    requires st.VarStmt?
  {
    if |st.decls| != 1 then Err(StmtShape)
    else if st.decls[0].binder.PatternBinder? then Err(BindShape)
    else if Operand(st).None? then Err(StmtShape)
    else
      var op := OperandOf(st);
      var names := CalleeNames(op);
      if Optional(op) then Err(StmtShape)
      else if !op.Call? then Err(YieldPosition)
      else if names == [] then Err(StmtShape)
      else if |names| == 2 && names[0] in binders then Err(AnswerHigherOrder)
      else if names[0] != store || |names| != 2 then Err(if names[0] in imports then OpUnknown else OpReceiver)
      else if names[1] != "put" then Err(OpUnknown)
      else Unless(|op.args| != 1, NodeShape)
  }

  /** Which of a binding's own checks fails first. */
  function FailedCheck(st: Stmt, binders: seq<string>, store: string, imports: set<string>): nat
    requires st.VarStmt?
  {
    var op := OperandOf(st);
    var names := CalleeNames(op);
    if |st.decls| != 1 then 0
    else if st.decls[0].binder.PatternBinder? then 1
    else if Operand(st).None? then 2
    else if Optional(op) then 3
    else if !op.Call? then 4
    else if names == [] then 5
    else if |names| == 2 && names[0] in binders then 6
    else if names[0] != store || |names| != 2 then if names[0] in imports then 7 else 8
    else if names[1] != "put" then 9
    else if |op.args| != 1 then 10
    else 11
  }

  lemma {:induction false} OwnAnswers(st: Stmt, binders: seq<string>, store: string, imports: set<string>)
    requires st.VarStmt?
    ensures Answers(OwnChecks(st, binders, store, imports), ReadBinding(st, binders, store, imports))
  {
    var checks, r := OwnChecks(st, binders, store, imports), ReadBinding(st, binders, store, imports);
    var k := FailedCheck(st, binders, store, imports);
    assert forall j :: 0 <= j < k && j < 11 ==> !checks[j].fault;
    if k < 11 { FaultAnswers(checks, k, r); }
  }

  lemma {:induction false} ReadThenNode(st: Stmt, binders: seq<string>, store: string, imports: set<string>)
    requires st.VarStmt?
    ensures ReadBinding(st, binders, store, imports).Err? ==>
              Outcome(ParseBinding(st, binders, store, imports)) == ReadBinding(st, binders, store, imports)
    ensures ReadBinding(st, binders, store, imports).Ok? ==>
              && OperandOf(st).Call? && |OperandOf(st).args| == 1
              && Outcome(ParseBinding(st, binders, store, imports)) ==
                 Outcome(ParseNode(OperandOf(st).args[0], binders))
  {
    if OperandOf(st).Call? { ChainNonEmpty(OperandOf(st).callee); }
  }

  /** A binding is refused for the first of its checks that fails. */
  lemma {:induction false} BindingAnswers(st: Stmt, binders: seq<string>, store: string, imports: set<string>)
    requires st.VarStmt?
    ensures Answers(BindingChecks(st, binders, store, imports), Outcome(ParseBinding(st, binders, store, imports)))
  {
    var op := OperandOf(st);
    var arg := if op.Call? && |op.args| == 1 then op.args[0] else OtherExpr;
    OwnAnswers(st, binders, store, imports);
    ReadThenNode(st, binders, store, imports);
    NodeAnswers(arg, binders);
    AnswersThen(OwnChecks(st, binders, store, imports), NodeChecks(arg, binders),
                ReadBinding(st, binders, store, imports), Outcome(ParseBinding(st, binders, store, imports)));
  }

  /** What the body partition makes of one statement, the binders before it given. */
  function ReadStatement(stmts: seq<Stmt>, i: nat, binders: seq<string>, store: string, imports: set<string>)
    : Result<bool, Code>
    requires i < |stmts|
  {
    match stmts[i]
    case VarStmt(_, _) => Outcome(ParseBinding(stmts[i], binders, store, imports))
    case _ => Outcome(Partition(stmts, i, Body(binders, []), store, imports))
  }

  lemma {:induction false} ReturnAnswers(st: Stmt, last: bool, binders: seq<string>, r: Result<bool, Code>)
    requires st.ReturnStmt?
    requires r == if !last then Err(StmtShape)
                  else match ParseReturn(st, binders) case Some(code) => Err(code) case None => Ok(true)
    ensures Answers(ReturnChecks(st, last, binders), r)
  {
    var checks := ReturnChecks(st, last, binders);
    var listed := st.returned.Some? && st.returned.value.ArrayLit?;
    var idents := seq(|binders|, k requires 0 <= k < |binders| => Ident(binders[k]));
    if !last {
      FaultAnswers(checks, 0, r);
    } else if st.returned.Some? && st.returned.value.Yield? {
      FaultAnswers(checks, 1, r);
    } else if !listed {
      FaultAnswers(checks, 2, r);
    } else {
      var elements := st.returned.value.elements;
      assert elements == idents <==>
             !(|elements| != |binders| || exists k :: 0 <= k < |elements| && elements[k] != Ident(binders[k]));
      if elements != idents { FaultAnswers(checks, 3, r); }
    }
  }

  lemma {:induction false} StatementAnswers(stmts: seq<Stmt>, i: nat, store: string, imports: set<string>)
    requires i < |stmts|
    ensures Answers(StatementChecks(stmts, i, store, imports),
                    ReadStatement(stmts, i, BoundBefore(stmts, i), store, imports))
  {
    var r := ReadStatement(stmts, i, BoundBefore(stmts, i), store, imports);
    var checks := StatementChecks(stmts, i, store, imports);
    match stmts[i]
    case VarStmt(_, _) => BindingAnswers(stmts[i], BoundBefore(stmts, i), store, imports);
    case ReturnStmt(_) => ReturnAnswers(stmts[i], i == |stmts| - 1, BoundBefore(stmts, i), r);
    case ExprStmt(e) => FaultAnswers(checks, if e.Yield? then 0 else 1, r);
    case _ => FaultAnswers(checks, 0, r);
  }

  // ---------------------------------------------------------------- the body

  ghost predicate BodyFault(stmts: seq<Stmt>, store: string, imports: set<string>, code: Code) {
    exists i: nat :: BodyFaultAt(stmts, i, store, imports, code)
  }

  function ReadAt(stmts: seq<Stmt>, i: nat, store: string, imports: set<string>): Result<bool, Code>
    requires i < |stmts|
  {
    ReadStatement(stmts, i, BoundBefore(stmts, i), store, imports)
  }

  /** Everything before i is a binding that was read. */
  ghost predicate ReadsUpTo(stmts: seq<Stmt>, i: nat, store: string, imports: set<string>) {
    i <= |stmts| && forall k :: 0 <= k < i ==> stmts[k].VarStmt? && ReadAt(stmts, k, store, imports).Ok?
  }

  ghost predicate StopsAt(stmts: seq<Stmt>, i: nat, store: string, imports: set<string>, code: Code) {
    ReadsUpTo(stmts, i, store, imports) &&
    if i == |stmts| then code == ReturnShape else ReadAt(stmts, i, store, imports) == Err(code)
  }

  /** The partition reads bindings until something stops it. */
  lemma {:induction false} PartitionStops(stmts: seq<Stmt>, i: nat, b: Body, store: string, imports: set<string>)
    returns (j: nat)
    requires ReadsUpTo(stmts, i, store, imports) && b.binders == BoundBefore(stmts, i)
    ensures EndsAt(stmts, j, store, imports, Partition(stmts, i, b, store, imports))
    decreases |stmts| - i
  {
    j := i;
    if i == |stmts| {
      PartitionRunsOut(stmts, b, store, imports);
    } else if stmts[i].VarStmt? && ReadAt(stmts, i, store, imports).Ok? {
      PartitionStep(stmts, i, b, store, imports);
      ReadsOneMore(stmts, i, store, imports);
      j := PartitionStops(stmts, i + 1, Collect(b, ParseBinding(stmts[i], b.binders, store, imports).value), store,
                          imports);
    } else {
      PartitionStopped(stmts, i, b, store, imports);
    }
  }

  /** The partition came to statement j and answered there, or ran past the last statement. */
  ghost predicate EndsAt(stmts: seq<Stmt>, j: nat, store: string, imports: set<string>, p: Result<Body, Code>) {
    ReadsUpTo(stmts, j, store, imports) &&
    if j == |stmts| then p == Err(ReturnShape)
    else !(stmts[j].VarStmt? && ReadAt(stmts, j, store, imports).Ok?) && Outcome(p) == ReadAt(stmts, j, store, imports)
  }

  lemma {:induction false} ReadsOneMore(stmts: seq<Stmt>, i: nat, store: string, imports: set<string>)
    requires ReadsUpTo(stmts, i, store, imports) && i < |stmts|
    requires stmts[i].VarStmt? && ReadAt(stmts, i, store, imports).Ok?
    ensures ReadsUpTo(stmts, i + 1, store, imports)
  {
  }

  lemma {:induction false} PartitionRunsOut(stmts: seq<Stmt>, b: Body, store: string, imports: set<string>)
    requires ReadsUpTo(stmts, |stmts|, store, imports)
    ensures EndsAt(stmts, |stmts|, store, imports, Partition(stmts, |stmts|, b, store, imports))
  {
  }

  lemma {:induction false} PartitionStopped(stmts: seq<Stmt>, i: nat, b: Body, store: string, imports: set<string>)
    requires ReadsUpTo(stmts, i, store, imports) && i < |stmts| && b.binders == BoundBefore(stmts, i)
    requires !(stmts[i].VarStmt? && ReadAt(stmts, i, store, imports).Ok?)
    ensures EndsAt(stmts, i, store, imports, Partition(stmts, i, b, store, imports))
  {
  }

  lemma {:induction false} BoundOneMore(stmts: seq<Stmt>, i: nat, binders: seq<string>, store: string,
                                        imports: set<string>)
    requires i < |stmts| && binders == BoundBefore(stmts, i)
    requires stmts[i].VarStmt? && ParseBinding(stmts[i], binders, store, imports).Ok?
    ensures BoundBefore(stmts, i + 1) == binders + [ParseBinding(stmts[i], binders, store, imports).value.name]
  {
    ReadThenNode(stmts[i], binders, store, imports);
  }

  lemma {:induction false} PartitionStep(stmts: seq<Stmt>, i: nat, b: Body, store: string, imports: set<string>)
    requires i < |stmts| && b.binders == BoundBefore(stmts, i)
    requires stmts[i].VarStmt? && ReadAt(stmts, i, store, imports).Ok?
    ensures ParseBinding(stmts[i], b.binders, store, imports).Ok?
    ensures Collect(b, ParseBinding(stmts[i], b.binders, store, imports).value).binders == BoundBefore(stmts, i + 1)
    ensures Partition(stmts, i, b, store, imports) ==
            Partition(stmts, i + 1, Collect(b, ParseBinding(stmts[i], b.binders, store, imports).value), store, imports)
  {
    BoundOneMore(stmts, i, b.binders, store, imports);
  }

  /** It is stopped in one place, so it answers a code exactly when something stops it with that code. */
  lemma {:induction false} BodyStops(stmts: seq<Stmt>, store: string, imports: set<string>, code: Code)
    ensures Partition(stmts, 0, Body([], []), store, imports) == Err(code) <==>
            exists i: nat :: StopsAt(stmts, i, store, imports, code)
  {
    var p := Partition(stmts, 0, Body([], []), store, imports);
    var j := PartitionStops(stmts, 0, Body([], []), store, imports);
    EndStops(stmts, j, store, imports, code, p);
    if i: nat :| StopsAt(stmts, i, store, imports, code) { StopsOnce(stmts, i, j, store, imports, code, p); }
  }

  lemma {:induction false} EndStops(stmts: seq<Stmt>, j: nat, store: string, imports: set<string>, code: Code,
                                    p: Result<Body, Code>)
    requires EndsAt(stmts, j, store, imports, p)
    ensures p == Err(code) <==> StopsAt(stmts, j, store, imports, code)
  {
  }

  lemma {:induction false} StopsOnce(stmts: seq<Stmt>, i: nat, j: nat, store: string, imports: set<string>,
                                     code: Code, p: Result<Body, Code>)
    requires StopsAt(stmts, i, store, imports, code) && EndsAt(stmts, j, store, imports, p)
    ensures i == j
  {
    NoStopBefore(stmts, i, j, store, imports, code);
  }

  lemma {:induction false} NoStopBefore(stmts: seq<Stmt>, i: nat, j: nat, store: string, imports: set<string>,
                                        code: Code)
    ensures i < j && ReadsUpTo(stmts, j, store, imports) ==> !StopsAt(stmts, i, store, imports, code)
  {
    if i < j && ReadsUpTo(stmts, j, store, imports) { assert ReadAt(stmts, i, store, imports).Ok?; }
  }

  /** What stops the partition is what is at fault. */
  lemma {:induction false} StopIsFault(stmts: seq<Stmt>, i: nat, store: string, imports: set<string>, code: Code)
    ensures StopsAt(stmts, i, store, imports, code) <==> BodyFaultAt(stmts, i, store, imports, code)
  {
    if i <= |stmts| { ReadsAreFaultless(stmts, i, store, imports); }
    if i < |stmts| { StatementAnswers(stmts, i, store, imports); }
  }

  lemma {:induction false} ReadsAreFaultless(stmts: seq<Stmt>, i: nat, store: string, imports: set<string>)
    requires i <= |stmts|
    ensures ReadsUpTo(stmts, i, store, imports) <==> FaultlessBefore(stmts, i, store, imports)
  {
    forall k: nat | k < i
      ensures ReadAt(stmts, k, store, imports).Ok? <==> Faultless(StatementChecks(stmts, k, store, imports))
    {
      StatementAnswers(stmts, k, store, imports);
    }
  }

  /** The body is refused with a code exactly when it has a fault of that code. */
  lemma {:induction false} BodyRefused(stmts: seq<Stmt>, store: string, imports: set<string>, code: Code)
    ensures Partition(stmts, 0, Body([], []), store, imports) == Err(code) <==>
            BodyFault(stmts, store, imports, code)
  {
    BodyStops(stmts, store, imports, code);
    forall i: nat ensures StopsAt(stmts, i, store, imports, code) <==> BodyFaultAt(stmts, i, store, imports, code) {
      StopIsFault(stmts, i, store, imports, code);
    }
  }

  lemma {:induction false} NotBoth(checks: seq<Check>, code: Code)
    requires Faultless(checks)
    ensures !FirstFault(checks, code)
  {
  }

  // ---------------------------------------------------------------- the declaration

  lemma {:induction false} FrameAnswers(decl: Expr, imports: set<string>)
    ensures Answers(FrameChecks(decl, imports), Outcome(Unwrap(decl, imports)))
    ensures Unwrap(decl, imports).Ok? ==>
              var frame := Unwrap(decl, imports).value;
              frame.storeBinder == StoreIn(decl) && GeneratorBody(frame.generator) == BodyIn(decl)
  {
    var checks, r := FrameChecks(decl, imports), Outcome(Unwrap(decl, imports));
    var call := Unparen(SpineIn(decl));
    if call.Call? { ChainNonEmpty(call.callee); }
    var names := CalleeNames(call);
    if decl.Arrow? && |decl.arrowParams| != 1 {
      FaultAnswers(checks, 0, r);
    } else if decl.Arrow? && decl.arrowParams[0].PatternParam? {
      FaultAnswers(checks, 1, r);
    } else if decl.Arrow? && decl.arrowBody.BlockBody? {
      FaultAnswers(checks, 2, r);
    } else if Optional(SpineIn(decl)) {
      FaultAnswers(checks, 3, r);
    } else if !call.Call? {
      FaultAnswers(checks, 4, r);
    } else if names == [] || names[0] !in imports || names[|names| - 1] != "gen" {
      FaultAnswers(checks, 5, r);
    } else if !RunsGenerator(call) {
      FaultAnswers(checks, 6, r);
    }
  }

  /** A declaration is refused with a code if and only if that is the code of its first fault: of its frame, or,
      under a faultless frame, of the first statement that is not a faultless binding. */
  lemma {:induction false} RefusedExactly(name: string, decl: Expr, imports: set<string>, code: Code)
    ensures Lift(name, decl, imports) == Refused(name, code) <==>
            || FirstFault(FrameChecks(decl, imports), code)
            || (Faultless(FrameChecks(decl, imports)) && BodyFault(BodyIn(decl), StoreIn(decl), imports, code))
  {
    FrameAnswers(decl, imports);
    if Unwrap(decl, imports).Ok? {
      BodyRefused(BodyIn(decl), StoreIn(decl), imports, code);
      NotBoth(FrameChecks(decl, imports), code);
    } else {
      assert Outcome(Unwrap(decl, imports)) == Err(Unwrap(decl, imports).error);
    }
  }

  /** And accepted, under its own name and with its store parameter's, if and only if nothing is at fault. */
  lemma {:induction false} AcceptedExactly(name: string, decl: Expr, imports: set<string>)
    ensures Lift(name, decl, imports).Lifted? <==>
            && (forall code :: !FirstFault(FrameChecks(decl, imports), code))
            && (forall code :: !BodyFault(BodyIn(decl), StoreIn(decl), imports, code))
    ensures var v := Lift(name, decl, imports);
            && v.name == name
            && (v.Lifted? ==> v.storeBinder == StoreIn(decl) && (v.helperUnpinned <==> v.instructions != []))
  {
    FrameAnswers(decl, imports);
    var v := Lift(name, decl, imports);
    if v.Refused? {
      RefusedExactly(name, decl, imports, v.code);
    } else {
      forall code ensures !FirstFault(FrameChecks(decl, imports), code) {
        RefusedExactly(name, decl, imports, code);
      }
      forall code ensures !BodyFault(BodyIn(decl), StoreIn(decl), imports, code) {
        RefusedExactly(name, decl, imports, code);
      }
    }
  }
}
