/**
  What a declaration does to a store, and what its lifted instructions do.

  The store is any state with any `put` that may fail. The source language's scope rules are part of the
  meaning: names hide outer names, reading a `const` before it is initialized throws, as does calling what is
  not a function. Evaluation follows the language's order and has three ends: a value, a throw, or a form
  whose effect is not modelled, of which nothing is claimed. The recognizer looks at none of that, so it
  accepts some declarations whose meaning is not that of their instructions.
 */
module LiftMeaning {
  import opened Outcomes
  import opened Decimal
  import opened TsAst
  import opened Recognizer

  type Addr = int

  /** A node as the store receives it. */
  datatype RefInput = RefInput(id: Addr, expectedTag: nat)
  datatype NodeInput = NodeInput(version: nat, tag: nat, payloadHex: string, refs: seq<RefInput>)

  /** What a put leaves and answers; the error of a failed one. */
  datatype PutResult<S> = PutResult(state: S, answer: Result<Addr, int>)

  /** How a run ends: with its word, with the store's failure, by throwing, or in something not modelled. */
  datatype Outcome<S> =
    | Done(state: S, word: seq<Addr>)
    | Failed(state: S, error: int)
    | Threw(state: S)
    | Strayed(state: S)

  /** What evaluating answers: a value, a throw, or no claim. */
  datatype Reading<T> = Got(value: T) | Throws | Strays

  // ---------------------------------------------------------------- the lifted program

  /** Execute instructions in order, each reference replaced by the answer at its index. */
  function Exec<S>(instructions: seq<Instruction>, put: (S, NodeInput) -> PutResult<S>, s: S, answers: seq<Addr>)
    : Outcome<S>
    requires forall i :: 0 <= i < |instructions| ==>
               forall k :: 0 <= k < |instructions[i].refs| ==> instructions[i].refs[k].source < |answers| + i
    decreases |instructions|
  {
    if instructions == [] then Done(s, answers)
    else
      var step := put(s, InputOf(instructions[0], answers));
      match step.answer
      case Err(e) => Failed(step.state, e)
      case Ok(a) => Exec(instructions[1..], put, step.state, answers + [a])
  }

  function InputOf(instr: Instruction, answers: seq<Addr>): NodeInput
    requires forall k :: 0 <= k < |instr.refs| ==> instr.refs[k].source < |answers|
  {
    NodeInput(instr.version, instr.tag, instr.payloadHex, ResolveRefs(instr.refs, answers))
  }

  function ResolveRefs(refs: seq<Ref>, answers: seq<Addr>): (r: seq<RefInput>)
    requires forall k :: 0 <= k < |refs| ==> refs[k].source < |answers|
  {
    seq(|refs|, k requires 0 <= k < |refs| => RefInput(answers[refs[k].source], refs[k].expectedTag))
  }

  // ---------------------------------------------------------------- evaluating an expression

  datatype Value =
    | VUndefined
    | VNull
    | VBool(truth: bool)
    | VNumber(raw: string)
    | VString(text: string)
    | VAddress(addr: Addr)
    | VStore
    | VHexHelper
    | VBytes(hex: string)
    | VObject(fields: map<string, Value>)
    | VArray(items: seq<Value>)
    | VFunction

  /** The names a generator's block can read: the block's binders and what the initialized ones hold, the
      generator's parameters, its own name, the arrow's store parameter, and the name of the declaration. */
  datatype Scope = Scope(params: seq<string>, declared: seq<string>, hoisted: set<string>, self: string,
                         store: string, rest: bool, own: string, bound: map<string, Value>)

  /** A name read in a scope. The generator is called without arguments, so its parameters hold nothing; the
      free name `hex` is the helper; no identifier is empty; any other free name is not modelled. */
  function Resolve(scope: Scope, name: string): Reading<Value> {
    if name in scope.bound then Got(scope.bound[name])
    else if name in scope.declared && name !in scope.hoisted then Throws
    else if name in scope.declared || name in scope.params then Got(VUndefined)
    else if name == "" then Throws
    else if name == scope.self then Got(VFunction)
    else if name == scope.store then Got(if scope.rest then VArray([VStore]) else VStore)
    else if name == "hex" && name != scope.own then Got(VHexHelper)
    else Strays
  }

  /** Evaluate an expression, parts in order; the first part that does not give a value decides. */
  function Eval(e: Expr, scope: Scope): Reading<Value>
    decreases e, 1
  {
    match e
    case Ident(text) => Resolve(scope, text)
    case Numeric(raw) => Got(VNumber(raw))
    case StrLit(value) => Got(VString(value))
    case NullLit => Got(VNull)
    case BoolLit(truth) => Got(VBool(truth))
    case Paren(inner) => Eval(inner, scope)
    case NonNull(operand) => Eval(operand, scope)
    case Object(props) =>
      (match EvalProps(props, scope)
       case Got(fields) => Got(VObject(fields))
       case Throws => Throws
       case Strays => Strays)
    case ArrayLit(elements) =>
      (match EvalAll(elements, scope)
       case Got(items) => Got(VArray(items))
       case Throws => Throws
       case Strays => Strays)
    case PropAccess(_, _, _) => if Cut(e, scope) then Got(VUndefined) else Strays
    case ElemAccess(_, _, _) => if Cut(e, scope) then Got(VUndefined) else Strays
    case Call(callee, args, _) =>
      if Cut(e, scope) then Got(VUndefined)
      else (match Eval(callee, scope)
       case Got(f) =>
         (match EvalAll(args, scope)
          case Got(values) => Apply(f, values)
          case Throws => Throws
          case Strays => Strays)
       case Throws => Throws
       case Strays => Strays)
    case _ => Strays
  }

  predicate Nullish(r: Reading<Value>) { r == Got(VUndefined) || r == Got(VNull) }

  /** An optional chain is cut where a link marked `?.` meets a nullish value: nothing of it after that link is
      evaluated, and the whole of it is undefined. Parentheses end a chain. */
  predicate Cut(e: Expr, scope: Scope)
    decreases e, 0
  {
    match e
    case NonNull(operand) => Cut(operand, scope)
    case PropAccess(object_, _, questionDot) => Cut(object_, scope) || (questionDot && Nullish(Eval(object_, scope)))
    case ElemAccess(base, _, questionDot) => Cut(base, scope) || (questionDot && Nullish(Eval(base, scope)))
    case Call(callee, _, questionDot) => Cut(callee, scope) || (questionDot && Nullish(Eval(callee, scope)))
    case _ => false
  }

  /** The helper takes one string of the payload domain; other functions, and what the helper does with
      anything else, are not modelled; calling any other value throws. */
  function Apply(f: Value, args: seq<Value>): Reading<Value> {
    if f == VHexHelper then
      if |args| == 1 && args[0].VString? && IsPayloadHex(args[0].text) then Got(VBytes(args[0].text)) else Strays
    else if f == VFunction then Strays
    else Throws
  }

  /** Every initializer is evaluated, in order; a later key overwrites an earlier one. A `__proto__` key
      sets no property, and is not modelled. */
  function EvalProps(props: seq<Prop>, scope: Scope): Reading<map<string, Value>>
    decreases props, 0
  {
    if props == [] then Got(map[])
    else
      var last := props[|props| - 1];
      match EvalProps(props[..|props| - 1], scope)
      case Throws => Throws
      case Strays => Strays
      case Got(fields) =>
        if last.OtherProp? || last.key == "__proto__" then Strays
        else match Eval(last.init, scope)
             case Throws => Throws
             case Strays => Strays
             case Got(v) => Got(fields[last.key := v])
  }

  function EvalAll(es: seq<Expr>, scope: Scope): Reading<seq<Value>>
    decreases es, 0
  {
    if es == [] then Got([])
    else match Eval(es[0], scope)
         case Throws => Throws
         case Strays => Strays
         case Got(v) =>
           match EvalAll(es[1..], scope)
           case Throws => Throws
           case Strays => Strays
           case Got(rest) => Got([v] + rest)
  }

  // ---------------------------------------------------------------- what the store accepts

  function NatValue(v: Value): Option<nat> {
    if v.VNumber? && IsCanonicalNat(v.raw) then Some(NatOf(v.raw)) else None
  }

  function RefValue(v: Value): Option<RefInput> {
    if !v.VObject? || v.fields.Keys != {"id", "expectedTag"} || !v.fields["id"].VAddress? then None
    else match NatValue(v.fields["expectedTag"])
         case None => None
         case Some(tag) => Some(RefInput(v.fields["id"].addr, tag))
  }

  function RefValues(items: seq<Value>): Option<seq<RefInput>> {
    if items == [] then Some([])
    else match (RefValue(items[0]), RefValues(items[1..]))
         case (Some(r), Some(rest)) => Some([r] + rest)
         case _ => None
  }

  /** The node a value denotes, when it has a node's shape. */
  function NodeValue(v: Value): Option<NodeInput> {
    if !v.VObject? || v.fields.Keys != {"kind", "payload", "refs"} then None
    else
      var kind, payload, refs := v.fields["kind"], v.fields["payload"], v.fields["refs"];
      if !kind.VObject? || kind.fields.Keys != {"version", "tag"} || !payload.VBytes? || !refs.VArray? then None
      else match (NatValue(kind.fields["version"]), NatValue(kind.fields["tag"]), RefValues(refs.items))
           case (Some(version), Some(tag), Some(inputs)) => Some(NodeInput(version, tag, payload.hex, inputs))
           case _ => None
  }

  // ---------------------------------------------------------------- running the body

  /** The names a block declares, in order, and those that `var` declares. */
  function Declared(stmts: seq<Stmt>): seq<string> { DeclaredFrom(stmts, 0) }

  function DeclaredFrom(stmts: seq<Stmt>, i: nat): seq<string>
    requires i <= |stmts|
    decreases |stmts| - i
  {
    if i == |stmts| then [] else DeclaredBy(stmts[i]) + DeclaredFrom(stmts, i + 1)
  }

  function DeclaredBy(st: Stmt): seq<string> {
    if st.VarStmt? && |st.decls| == 1 && st.decls[0].binder.NameBinder? then [st.decls[0].binder.name] else []
  }

  /** A statement that declares a name by `const` or `let`. */
  predicate DeclaresLexically(st: Stmt) {
    DeclaredBy(st) != [] && st.kind != Hoisted
  }

  function HoistedNames(stmts: seq<Stmt>): set<string> {
    set i: nat, name | i < |stmts| && name in DeclaredBy(stmts[i]) && stmts[i].kind == Hoisted :: name
  }

  /** The put a call asks for, once its receiver and its argument are evaluated. A member of `undefined`
      throws at once; what is no method throws when it is called, after the argument was evaluated. */
  function Asked(receiver: Reading<Value>, arg: Reading<Value>): Reading<NodeInput> {
    match receiver
    case Throws => Throws
    case Strays => Strays
    case Got(r) =>
      if r == VUndefined then Throws
      else match arg
           case Throws => Throws
           case Strays => Strays
           case Got(v) =>
             if r != VStore then Throws
             else match NodeValue(v) case None => Strays case Some(node) => Got(node)
  }

  /** The put a binding statement asks for. */
  function PutArgument(st: Stmt, scope: Scope): Reading<NodeInput> {
    if !st.VarStmt? || |st.decls| != 1 then Strays
    else match st.decls[0].initializer
         case Some(Yield(true, Some(Call(callee, args, false)))) =>
           (match Unparen(callee)
            case PropAccess(object_, member, false) =>
              if member == "put" && |args| == 1 then Asked(Eval(object_, scope), Eval(args[0], scope)) else Strays
            case _ => Strays)
         case _ => Strays
  }

  /** Run the body from statement i: each binding yields one put, which may end the run. */
  function Run<S>(stmts: seq<Stmt>, i: nat, scope: Scope, put: (S, NodeInput) -> PutResult<S>, s: S): Outcome<S>
    requires i <= |stmts|
    decreases |stmts| - i
  {
    if i == |stmts| then Strayed(s)
    else match stmts[i]
         case VarStmt(_, decls) =>
           (match PutArgument(stmts[i], scope)
            case Throws => Threw(s)
            case Strays => Strayed(s)
            case Got(node) =>
              var step := put(s, node);
              match step.answer
              case Err(e) => Failed(step.state, e)
              case Ok(a) =>
                if decls[0].binder.PatternBinder? then Strayed(step.state)
                else
                  var scope' := scope.(bound := scope.bound[decls[0].binder.name := VAddress(a)]);
                  Run(stmts, i + 1, scope', put, step.state))
         case ReturnStmt(Some(ArrayLit(elements))) =>
           (match EvalAll(elements, scope)
            case Got(items) =>
              if forall k :: 0 <= k < |items| ==> items[k].VAddress?
              then Done(s, seq(|items|, k requires 0 <= k < |items| => items[k].addr)) else Strayed(s)
            case Throws => Threw(s)
            case Strays => Strayed(s))
         case _ => Strayed(s)
  }

  // ---------------------------------------------------------------- running a declaration

  /** A declaration taken apart: the name it is declared under, its store parameter, the chain it calls and
      the chain's head, how many arguments it calls it with, and the first of them. */
  datatype Program = Program(own: string, store: string, rest: bool, asyncArrow: bool, head: string,
                             callee: seq<string>, argCount: nat, generator: Expr)

  function ProgramOf(own: string, decl: Expr): Option<Program> {
    match decl
    case Arrow(asyncArrow, params, ExprBody(spine)) =>
      if |params| != 1 || !params[0].IdentParam? then None
      else SpineOf(Program(own, params[0].name, params[0].form == Rest, asyncArrow, "", [], 0, OtherExpr), spine)
    case Arrow(_, _, _) => None
    case _ => SpineOf(Program(own, "", false, false, "", [], 0, OtherExpr), decl)
  }

  function SpineOf(p: Program, spine: Expr): Option<Program> {
    var call := Unparen(spine);
    if !call.Call? || call.questionDot || call.args == [] then None
    else
      ChainNonEmpty(call.callee);
      match Chain(call.callee)
      case None => None
      case Some(parts) =>
        Some(p.(head := parts[0], callee := parts, argCount := |call.args|, generator := call.args[0]))
  }

  predicate Distinct(names: seq<string>) {
    forall i, j :: 0 <= i < j < |names| ==> names[i] != names[j]
  }

  /** The names of plain parameters; a pattern stands for no name. */
  function ParamNames(params: seq<Param>): seq<string> {
    seq(|params|, i requires 0 <= i < |params| => if params[i].IdentParam? then params[i].name else "")
  }

  /** What a file imports: the names bound to values, and the chains from them that denote the library's `gen`. */
  datatype Imports = Imports(values: set<string>, runners: set<seq<string>>)

  /** The chain that is called is one of those that run a generator, it gets nothing but the generator, and the
      generator has nothing in its head or its bindings that the model leaves out. */
  predicate Familiar(p: Program, imports: Imports) {
    && p.callee in imports.runners && p.argCount == 1
    && p.generator.Function? && p.generator.generator && !p.generator.asyncFunction
    && (forall i :: 0 <= i < |p.generator.params| ==>
          p.generator.params[i].IdentParam? && p.generator.params[i].form == Plain)
    && forall i :: 0 <= i < |p.generator.body| ==>
         p.generator.body[i].VarStmt? ==> p.generator.body[i].kind != Marked
  }

  /** The names that strict code, and so every module, may not bind. */
  const RESERVED: set<string> := {
    "arguments", "await", "eval", "implements", "interface", "let", "package", "private", "protected", "public",
    "static", "yield"
  }

  /** The names a declaration is declared under, calls, takes, and declares. */
  function BoundNames(p: Program): seq<string>
    requires p.generator.Function?
  {
    [p.own, p.head, p.store, p.generator.self] + ParamNames(p.generator.params) + Declared(p.generator.body)
  }

  /** A parameter is named twice, or something else in the function declares a name that `const` or `let` does. */
  predicate Redeclares(params: seq<string>, stmts: seq<Stmt>) {
    || !Distinct(params)
    || (exists i :: 0 <= i < |stmts| && DeclaresLexically(stmts[i]) && DeclaredBy(stmts[i])[0] in params)
    || exists i, j :: 0 <= i < |stmts| && 0 <= j < |stmts| && i != j &&
                      DeclaresLexically(stmts[i]) && DeclaredBy(stmts[i]) == DeclaredBy(stmts[j])
  }

  /** The early errors a declaration can make with its names. Such a program never starts. */
  predicate EarlyError(p: Program)
    requires p.generator.Function?
  {
    (exists i :: 0 <= i < |BoundNames(p)| && BoundNames(p)[i] in RESERVED) ||
    Redeclares(ParamNames(p.generator.params), p.generator.body)
  }

  function StartScope(p: Program): Scope
    requires p.generator.Function?
  {
    Scope(ParamNames(p.generator.params), Declared(p.generator.body), HoistedNames(p.generator.body),
          p.generator.self, p.store, p.rest, p.own, map[])
  }

  /** Run a declaration on a store. The recognizer takes every chain from an import to a member named `gen`
      for one that runs a generator. The chain is read under the store parameter: a store has no such member,
      so calling it throws, once the arguments were evaluated. A declaration that takes an import's name never
      starts, or calls itself. */
  function RunDecl<S>(own: string, decl: Expr, imports: Imports,
                      put: (S, NodeInput) -> PutResult<S>, s: S): Outcome<S>
  {
    match ProgramOf(own, decl)
    case None => Strayed(s)
    case Some(p) =>
      if p.asyncArrow then Strayed(s)
      else if p.own == p.head || p.own in imports.values then Threw(s)
      else if p.head == p.store then (if p.argCount == 1 && p.generator.Function? then Threw(s) else Strayed(s))
      else if !Familiar(p, imports) then Strayed(s)
      else if EarlyError(p) then Threw(s)
      else Run(p.generator.body, 0, StartScope(p), put, s)
  }
}
