/**
  The recognizer: one candidate declaration to a straight-line store program, or a classified refusal.
  Source: experiments/lift-harness/src/lift.ts (with the literal domains of contract.ts).

  A refusal carries its code; the detail string and the byte position are not part of this model.
 */
module Recognizer {
  import opened Outcomes
  import opened TsAst
  import opened Decimal

  datatype Code =
    | ParamShape | SpineEscape | YieldPosition | BindShape | StmtShape | OpReceiver | OpUnknown
    | Branch | Loop | Handler | ReturnShape | NodeShape | ArgDynamic | ArgClosure
    | RefUnbound | AnswerHigherOrder | FailNotDocumented

  /** An answer reference, resolved to the index of the instruction that gives it. */
  datatype Ref = Ref(source: nat, expectedTag: nat)

  /** One linear store operation of a lifted program. */
  datatype Instruction = Instruction(index: nat, version: nat, tag: nat, payloadHex: string, refs: seq<Ref>)

  datatype Verdict =
    | Lifted(name: string, storeBinder: string, instructions: seq<Instruction>, helperUnpinned: bool)
    | Refused(name: string, code: Code)

  /** The width a recognized numeric literal must fit: 32 bits. */
  const NAT_LIMIT: nat := 0x1_0000_0000

  predicate IsCanonicalNat(raw: string) {
    IsCanonical(raw) && NatOf(raw) < NAT_LIMIT
  }

  predicate IsLowerHex(c: char) { '0' <= c <= '9' || 'a' <= c <= 'f' }

  /** Lowercase even-length hex; the empty payload is admissible. */
  predicate IsPayloadHex(text: string) {
    |text| % 2 == 0 && forall i :: 0 <= i < |text| ==> IsLowerHex(text[i])
  }

  // ---------------------------------------------------------------- spines

  function Unparen(e: Expr): Expr {
    if e.Paren? then Unparen(e.inner) else e
  }

  lemma {:induction false} UnparenSmaller(e: Expr)
    ensures !Unparen(e).Paren?
    ensures Unparen(e) == e || Unparen(e) < e
  {
    if e.Paren? { UnparenSmaller(e.inner); }
  }

  /** A plain member chain as names, head first; parentheses are transparent, `?.` is not a chain. */
  function Chain(e: Expr): Option<seq<string>>
    decreases e
  {
    match e
    case Paren(inner) => Chain(inner)
    case PropAccess(object_, member, questionDot) =>
      if questionDot then None
      else (match Chain(object_)
            case None => None
            case Some(parts) => Some(parts + [member]))
    case Ident(text) => Some([text])
    case _ => None
  }

  lemma {:induction false} ChainOfUnparen(e: Expr)
    ensures Chain(Unparen(e)) == Chain(e)
  {
    if e.Paren? { ChainOfUnparen(e.inner); }
  }

  lemma {:induction false} ChainNonEmpty(e: Expr)
    ensures Chain(e).Some? ==> |Chain(e).value| >= 1
  {
    match e
    case Paren(inner) => ChainNonEmpty(inner);
    case PropAccess(object_, _, _) => ChainNonEmpty(object_);
    case _ =>
  }

  /** The chain as the source collects it, moving a cursor inward and prepending names. */
  method ChainParts(n: Expr) returns (r: Option<seq<string>>)
    ensures r == Chain(n)
  {
    var parts: seq<string> := [];
    var cur := Unparen(n);
    ChainOfUnparen(n);
    UnparenSmaller(n);
    assert Chain(cur).Some? ==> Chain(cur).value + parts == Chain(cur).value;
    while cur.PropAccess?
      invariant !cur.Paren?
      invariant Chain(n) == match Chain(cur) case None => None case Some(head) => Some(head + parts)
      decreases cur
    {
      if cur.questionDot { return None; }
      parts := [cur.member] + parts;
      var inner := cur.object_;
      UnparenSmaller(inner);
      ChainOfUnparen(inner);
      ghost var outer := cur;
      cur := Unparen(inner);
      if Chain(cur).Some? {
        var head := Chain(cur).value;
        assert head + [outer.member] + parts[1..] == head + parts;
      }
    }
    if !cur.Ident? { return None; }
    r := Some([cur.text] + parts);
  }

  /** `?.` or `!` anywhere in a recognized spine. */
  function Optional(e: Expr): bool {
    match e
    case Paren(inner) => Optional(inner)
    case NonNull(_) => true
    case PropAccess(object_, _, questionDot) => questionDot || Optional(object_)
    case ElemAccess(base, _, questionDot) => questionDot || Optional(base)
    case Call(callee, _, questionDot) => questionDot || Optional(callee)
    case _ => false
  }

  method SpineOptional(e: Expr) returns (r: bool)
    ensures r == Optional(e)
  {
    var cur := e;
    while true
      invariant Optional(cur) == Optional(e)
      decreases cur
    {
      if cur.Paren? {
        cur := cur.inner;
      } else if cur.NonNull? {
        return true;
      } else if cur.PropAccess? {
        if cur.questionDot { return true; }
        cur := cur.object_;
      } else if cur.ElemAccess? {
        if cur.questionDot { return true; }
        cur := cur.base;
      } else if cur.Call? {
        if cur.questionDot { return true; }
        cur := cur.callee;
      } else {
        return false;
      }
    }
  }

  // ---------------------------------------------------------------- the closed node literal

  predicate AllAssignments(props: seq<Prop>) {
    forall i :: 0 <= i < |props| ==> props[i].Assignment?
  }

  function Keys(props: seq<Prop>): set<string> {
    if props == [] then {}
    else Keys(props[..|props| - 1]) + (if props[|props| - 1].Assignment? then {props[|props| - 1].key} else {})
  }

  /** The initializer a key ends up with: the last assignment wins. */
  function Lookup(props: seq<Prop>, key: string): Option<Expr> {
    if props == [] then None
    else
      var last := props[|props| - 1];
      if last.Assignment? && last.key == key then Some(last.init) else Lookup(props[..|props| - 1], key)
  }

  lemma {:induction false} LookupFinds(props: seq<Prop>, key: string)
    ensures Lookup(props, key).Some? <==> key in Keys(props)
    ensures Lookup(props, key).Some? ==>
              exists i :: 0 <= i < |props| && props[i] == Assignment(key, Lookup(props, key).value)
  {
    if props != [] {
      var front, last := props[..|props| - 1], props[|props| - 1];
      LookupFinds(front, key);
      if last.Assignment? && last.key == key {
        assert props[|props| - 1] == last;
      } else if Lookup(front, key).Some? {
        var i :| 0 <= i < |front| && front[i] == Assignment(key, Lookup(front, key).value);
        assert props[i] == front[i];
      }
    }
  }

  function IntOf(e: Expr): Result<nat, Code> {
    if !e.Numeric? then Err(ArgDynamic)
    else if !IsCanonicalNat(e.raw) then Err(ArgDynamic)
    else Ok(NatOf(e.raw))
  }

  function IndexOf(binders: seq<string>, name: string): Option<nat>
    ensures IndexOf(binders, name).Some? ==>
              IndexOf(binders, name).value < |binders| && binders[IndexOf(binders, name).value] == name
    ensures IndexOf(binders, name).None? ==> name !in binders
  {
    if binders == [] then None
    else if binders[0] == name then Some(0)
    else match IndexOf(binders[1..], name)
         case None => None
         case Some(i) => Some(i + 1)
  }

  /** One entry of `refs`: an identifier bound earlier, and the tag it is expected to have. */
  function ParseRef(el: Expr, binders: seq<string>): Result<Ref, Code> {
    if !el.Object? || !AllAssignments(el.props) then Err(NodeShape)
    else if Keys(el.props) != {"expectedTag", "id"} then Err(NodeShape)
    else
      LookupFinds(el.props, "id");
      LookupFinds(el.props, "expectedTag");
      var idE := Lookup(el.props, "id").value;
      if !idE.Ident? then Err(ArgDynamic)
      else match IndexOf(binders, idE.text)
           case None => Err(RefUnbound)
           case Some(source) =>
             match IntOf(Lookup(el.props, "expectedTag").value)
             case Err(e) => Err(e)
             case Ok(tag) => Ok(Ref(source, tag))
  }

  function ParseRefs(elements: seq<Expr>, binders: seq<string>): Result<seq<Ref>, Code> {
    if elements == [] then Ok([])
    else match ParseRef(elements[0], binders)
         case Err(e) => Err(e)
         case Ok(r) =>
           match ParseRefs(elements[1..], binders)
           case Err(e) => Err(e)
           case Ok(rest) => Ok([r] + rest)
  }

  datatype Kind = Kind(version: nat, tag: nat)

  function ParseKind(kind: Expr): Result<Kind, Code> {
    if !kind.Object? || !AllAssignments(kind.props) then Err(NodeShape)
    else if Keys(kind.props) != {"tag", "version"} then Err(NodeShape)
    else
      LookupFinds(kind.props, "version");
      LookupFinds(kind.props, "tag");
      match IntOf(Lookup(kind.props, "version").value)
      case Err(e) => Err(e)
      case Ok(version) =>
        match IntOf(Lookup(kind.props, "tag").value)
        case Err(e) => Err(e)
        case Ok(tag) => Ok(Kind(version, tag))
  }

  function ParsePayload(payload: Expr): Result<string, Code> {
    if !payload.Call? || payload.callee != Ident("hex") || |payload.args| != 1 then Err(ArgDynamic)
    else if !payload.args[0].StrLit? then Err(ArgDynamic)
    else if !IsPayloadHex(payload.args[0].value) then Err(ArgDynamic)
    else Ok(payload.args[0].value)
  }

  datatype Fields = Fields(version: nat, tag: nat, payloadHex: string, refs: seq<Ref>)

  /** The closed node literal, with answer references resolved to indices; checks in the source's order. */
  function ParseNode(arg: Expr, binders: seq<string>): Result<Fields, Code> {
    if arg.Arrow? || arg.Function? then Err(ArgClosure)
    else if !arg.Object? || !AllAssignments(arg.props) then Err(NodeShape)
    else if Keys(arg.props) != {"kind", "payload", "refs"} then Err(NodeShape)
    else
      LookupFinds(arg.props, "kind");
      LookupFinds(arg.props, "payload");
      LookupFinds(arg.props, "refs");
      match ParseKind(Lookup(arg.props, "kind").value)
      case Err(e) => Err(e)
      case Ok(kind) =>
        match ParsePayload(Lookup(arg.props, "payload").value)
        case Err(e) => Err(e)
        case Ok(payloadHex) =>
          var refsE := Lookup(arg.props, "refs").value;
          if !refsE.ArrayLit? then Err(ArgDynamic)
          else match ParseRefs(refsE.elements, binders)
               case Err(e) => Err(e)
               case Ok(refs) => Ok(Fields(kind.version, kind.tag, payloadHex, refs))
  }

  // ---------------------------------------------------------------- the frame

  /** The generator a candidate unwraps to, and the name its store parameter binds. */
  datatype Frame = Frame(storeBinder: string, generator: Expr)

  function Unwrap(decl: Expr, bindings: set<string>): Result<Frame, Code> {
    if decl.Arrow? then
      if |decl.arrowParams| != 1 || !decl.arrowParams[0].IdentParam? then Err(ParamShape)
      else if decl.arrowBody.BlockBody? then Err(SpineEscape)
      else UnwrapGen(decl.arrowParams[0].name, decl.arrowBody.result, bindings)
    else UnwrapGen("", decl, bindings)
  }

  function UnwrapGen(storeBinder: string, spine: Expr, bindings: set<string>): Result<Frame, Code> {
    if Optional(spine) then Err(StmtShape)
    else
      var genCall := Unparen(spine);
      if !genCall.Call? then Err(SpineEscape)
      else
        ChainNonEmpty(genCall.callee);
        match Chain(genCall.callee)
        case None => Err(SpineEscape)
        case Some(parts) =>
          if parts[0] !in bindings || parts[|parts| - 1] != "gen" then Err(SpineEscape)
          else if genCall.args == [] || !genCall.args[0].Function? || !genCall.args[0].generator then Err(SpineEscape)
          else Ok(Frame(storeBinder, genCall.args[0]))
  }

  // ---------------------------------------------------------------- the body

  /** `const a = yield* store.put(node)`: the binder and the parsed node. */
  datatype Binding = Binding(name: string, fields: Fields)

  function ParseBinding(st: Stmt, binders: seq<string>, storeBinder: string, bindings: set<string>)
    : Result<Binding, Code>
    requires st.VarStmt?
  {
    if |st.decls| != 1 then Err(StmtShape)
    else
      var d := st.decls[0];
      if d.binder.PatternBinder? then Err(BindShape)
      else if d.initializer.None? || !d.initializer.value.Yield? || !d.initializer.value.delegate ||
              d.initializer.value.yielded.None? then Err(StmtShape)
      else
        var op := d.initializer.value.yielded.value;
        if Optional(op) then Err(StmtShape)
        else if !op.Call? then Err(YieldPosition)
        else match Chain(op.callee)
             case None => Err(StmtShape)
             case Some(parts) =>
               ChainNonEmpty(op.callee);
               if |parts| == 2 && parts[0] in binders then Err(AnswerHigherOrder)
               else if parts[0] != storeBinder || |parts| != 2 then
                 if parts[0] in bindings then Err(OpUnknown) else Err(OpReceiver)
               else if parts[1] != "put" then Err(OpUnknown)
               else if |op.args| != 1 then Err(NodeShape)
               else match ParseNode(op.args[0], binders)
                    case Err(e) => Err(e)
                    case Ok(fields) => Ok(Binding(d.binder.name, fields))
  }

  /** The return must be exactly the binders, in order, dense. */
  function ParseReturn(st: Stmt, binders: seq<string>): Option<Code>
    requires st.ReturnStmt?
  {
    if st.returned.Some? && st.returned.value.Yield? then Some(FailNotDocumented)
    else if st.returned.None? || !st.returned.value.ArrayLit? then Some(ReturnShape)
    else
      var elements := st.returned.value.elements;
      if |elements| != |binders| || exists k :: 0 <= k < |elements| && elements[k] != Ident(binders[k])
      then Some(ReturnShape)
      else None
  }

  /** What the body partition has collected. */
  datatype Body = Body(binders: seq<string>, instructions: seq<Instruction>)

  function Collect(b: Body, binding: Binding): Body {
    Body(b.binders + [binding.name],
         b.instructions + [Instruction(|b.binders|, binding.fields.version, binding.fields.tag,
                                       binding.fields.payloadHex, binding.fields.refs)])
  }

  /** The body partition from statement i on, statements consumed in order. */
  function Partition(stmts: seq<Stmt>, i: nat, b: Body, storeBinder: string, bindings: set<string>)
    : Result<Body, Code>
    requires i <= |stmts|
    decreases |stmts| - i
  {
    if i == |stmts| then Err(ReturnShape)
    else match stmts[i]
         case IfStmt => Err(Branch)
         case LoopStmt => Err(Loop)
         case TryStmt => Err(Handler)
         case VarStmt(_, _) =>
           (match ParseBinding(stmts[i], b.binders, storeBinder, bindings)
            case Err(e) => Err(e)
            case Ok(binding) => Partition(stmts, i + 1, Collect(b, binding), storeBinder, bindings))
         case ReturnStmt(_) =>
           if i != |stmts| - 1 then Err(StmtShape)
           else (match ParseReturn(stmts[i], b.binders)
                 case Some(code) => Err(code)
                 case None => Ok(b))
         case ExprStmt(e) => if e.Yield? then Err(YieldPosition) else Err(StmtShape)
         case OtherStmt => Err(StmtShape)
  }

  function Lift(name: string, decl: Expr, bindings: set<string>): Verdict {
    match Unwrap(decl, bindings)
    case Err(code) => Refused(name, code)
    case Ok(frame) =>
      match Partition(GeneratorBody(frame.generator), 0, Body([], []), frame.storeBinder, bindings)
      case Err(code) => Refused(name, code)
      case Ok(b) => Lifted(name, frame.storeBinder, b.instructions, b.instructions != [])
  }

  function GeneratorBody(generator: Expr): seq<Stmt> {
    if generator.Function? then generator.body else []
  }

  /** The checks of one binding statement, in the source's order. */
  method LiftBinding(st: Stmt, binders: seq<string>, storeBinder: string, bindings: set<string>)
    returns (r: Result<Binding, Code>)
    requires st.VarStmt?
    ensures r == ParseBinding(st, binders, storeBinder, bindings)
  {
    if |st.decls| != 1 { return Err(StmtShape); }
    var d := st.decls[0];
    if d.binder.PatternBinder? { return Err(BindShape); }
    if d.initializer.None? || !d.initializer.value.Yield? || !d.initializer.value.delegate ||
       d.initializer.value.yielded.None? {
      return Err(StmtShape);
    }
    var op := d.initializer.value.yielded.value;
    var optional := SpineOptional(op);
    if optional { return Err(StmtShape); }
    if !op.Call? { return Err(YieldPosition); }
    var parts := ChainParts(op.callee);
    ChainNonEmpty(op.callee);
    if parts.None? { return Err(StmtShape); }
    if |parts.value| == 2 && parts.value[0] in binders { return Err(AnswerHigherOrder); }
    if parts.value[0] != storeBinder || |parts.value| != 2 {
      return Err(if parts.value[0] in bindings then OpUnknown else OpReceiver);
    }
    if parts.value[1] == "load" { return Err(OpUnknown); }
    if parts.value[1] != "put" { return Err(OpUnknown); }
    if |op.args| != 1 { return Err(NodeShape); }
    var node := ParseNode(op.args[0], binders);
    if node.Err? { return Err(node.error); }
    r := Ok(Binding(d.binder.name, node.value));
  }

  /** The loop over the statements. */
  method LiftBody(name: string, stmts: seq<Stmt>, storeBinder: string, bindings: set<string>) returns (v: Verdict)
    ensures v == match Partition(stmts, 0, Body([], []), storeBinder, bindings)
                 case Err(code) => Refused(name, code)
                 case Ok(b) => Lifted(name, storeBinder, b.instructions, b.instructions != [])
  {
    var binders: seq<string> := [];
    var instructions: seq<Instruction> := [];
    var helperUnpinned := false;
    for i := 0 to |stmts|
      invariant Partition(stmts, 0, Body([], []), storeBinder, bindings) ==
                Partition(stmts, i, Body(binders, instructions), storeBinder, bindings)
      invariant helperUnpinned == (instructions != [])
    {
      var st := stmts[i];
      match st {
        case IfStmt => return Refused(name, Branch);
        case LoopStmt => return Refused(name, Loop);
        case TryStmt => return Refused(name, Handler);
        case VarStmt(_, _) =>
          var binding := LiftBinding(st, binders, storeBinder, bindings);
          if binding.Err? { return Refused(name, binding.error); }
          var fields := binding.value.fields;
          helperUnpinned := true;
          instructions := instructions +
            [Instruction(|binders|, fields.version, fields.tag, fields.payloadHex, fields.refs)];
          binders := binders + [binding.value.name];
        case ReturnStmt(_) =>
          if i != |stmts| - 1 { return Refused(name, StmtShape); }
          var refusal := ParseReturn(st, binders);
          if refusal.Some? { return Refused(name, refusal.value); }
          return Lifted(name, storeBinder, instructions, helperUnpinned);
        case ExprStmt(e) =>
          return Refused(name, if e.Yield? then YieldPosition else StmtShape);
        case OtherStmt => return Refused(name, StmtShape);
      }
    }
    return Refused(name, ReturnShape);
  }

  /** The recognizer as the source runs it: unwrap, then one loop over the statements. */
  method LiftDecl(name: string, decl: Expr, bindings: set<string>) returns (v: Verdict)
    ensures v == Lift(name, decl, bindings)
  {
    var storeBinder := "";
    var genCall := decl;
    if decl.Arrow? {
      if |decl.arrowParams| != 1 { return Refused(name, ParamShape); }
      if !decl.arrowParams[0].IdentParam? { return Refused(name, ParamShape); }
      storeBinder := decl.arrowParams[0].name;
      if decl.arrowBody.BlockBody? { return Refused(name, SpineEscape); }
      genCall := decl.arrowBody.result;
    }
    var optional := SpineOptional(genCall);
    if optional { return Refused(name, StmtShape); }
    genCall := Unparen(genCall);
    if !genCall.Call? { return Refused(name, SpineEscape); }
    var callee := ChainParts(genCall.callee);
    ChainNonEmpty(genCall.callee);
    if callee.None? || callee.value[0] !in bindings || callee.value[|callee.value| - 1] != "gen" {
      return Refused(name, SpineEscape);
    }
    if genCall.args == [] || !genCall.args[0].Function? || !genCall.args[0].generator {
      return Refused(name, SpineEscape);
    }
    v := LiftBody(name, genCall.args[0].body, storeBinder, bindings);
  }

  // ---------------------------------------------------------------- what every lift satisfies

  /** Instruction i has index i and refers only to earlier answers, with every number in 32 bits and the
      payload in the hex domain. */
  ghost predicate StraightLine(instructions: seq<Instruction>) {
    forall i :: 0 <= i < |instructions| ==>
      && instructions[i].index == i
      && instructions[i].version < NAT_LIMIT && instructions[i].tag < NAT_LIMIT
      && IsPayloadHex(instructions[i].payloadHex)
      && forall k :: 0 <= k < |instructions[i].refs| ==>
           instructions[i].refs[k].source < i && instructions[i].refs[k].expectedTag < NAT_LIMIT
  }

  lemma {:induction false} RefsBounded(elements: seq<Expr>, binders: seq<string>)
    requires ParseRefs(elements, binders).Ok?
    ensures var refs := ParseRefs(elements, binders).value;
            && |refs| == |elements|
            && forall k :: 0 <= k < |refs| ==> refs[k].source < |binders| && refs[k].expectedTag < NAT_LIMIT
  {
    if elements != [] { RefsBounded(elements[1..], binders); }
  }

  lemma {:induction false} ParsedNodeBounded(arg: Expr, binders: seq<string>)
    requires ParseNode(arg, binders).Ok?
    ensures var f := ParseNode(arg, binders).value;
            && f.version < NAT_LIMIT && f.tag < NAT_LIMIT && IsPayloadHex(f.payloadHex)
            && forall k :: 0 <= k < |f.refs| ==> f.refs[k].source < |binders| && f.refs[k].expectedTag < NAT_LIMIT
  {
    LookupFinds(arg.props, "kind");
    LookupFinds(arg.props, "payload");
    LookupFinds(arg.props, "refs");
    RefsBounded(Lookup(arg.props, "refs").value.elements, binders);
  }

  lemma {:induction false} PartitionStraightLine(
      stmts: seq<Stmt>, i: nat, b: Body, storeBinder: string, bindings: set<string>)
    requires i <= |stmts| && |b.binders| == |b.instructions| && StraightLine(b.instructions)
    requires Partition(stmts, i, b, storeBinder, bindings).Ok?
    ensures var done := Partition(stmts, i, b, storeBinder, bindings).value;
            && |done.binders| == |done.instructions| && StraightLine(done.instructions)
            && b.binders <= done.binders && b.instructions <= done.instructions
    decreases |stmts| - i
  {
    if stmts[i].VarStmt? {
      var binding := ParseBinding(stmts[i], b.binders, storeBinder, bindings).value;
      ParsedNodeBounded(stmts[i].decls[0].initializer.value.yielded.value.args[0], b.binders);
      PartitionStraightLine(stmts, i + 1, Collect(b, binding), storeBinder, bindings);
    }
  }

  /** Every accepted lift is a straight-line program: names have died into backward indices. */
  lemma {:induction false} AcceptedLiftIsStraightLine(name: string, decl: Expr, bindings: set<string>)
    requires Lift(name, decl, bindings).Lifted?
    ensures StraightLine(Lift(name, decl, bindings).instructions)
  {
    var frame := Unwrap(decl, bindings).value;
    PartitionStraightLine(GeneratorBody(frame.generator), 0, Body([], []), frame.storeBinder, bindings);
  }
}
