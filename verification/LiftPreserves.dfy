/**
  A hygienic declaration the recognizer accepts means what its instructions do, on every store.
 */
module LiftPreserves {
  import opened Outcomes
  import opened TsAst
  import opened Recognizer
  import opened LiftMeaning
  import opened LiftLaws

  // ---------------------------------------------------------------- shape of an accepted body

  /** Statement i is a binding the recognizer parses, in the scope of the binders before it, to instruction i. */
  predicate Binds(stmts: seq<Stmt>, done: Body, storeBinder: string, bindings: set<string>, i: nat) {
    && i < |stmts| && i < |done.binders| && i < |done.instructions| && stmts[i].VarStmt?
    && var parsed := ParseBinding(stmts[i], done.binders[..i], storeBinder, bindings);
    && parsed.Ok? && parsed.value.name == done.binders[i]
    && var f := parsed.value.fields;
       done.instructions[i] == Instruction(i, f.version, f.tag, f.payloadHex, f.refs)
  }

  /** A body is its bindings, one binder and one instruction each, and then the return of the binders. */
  predicate Shaped(stmts: seq<Stmt>, done: Body, storeBinder: string, bindings: set<string>) {
    var n := |done.binders|;
    && |stmts| == n + 1 && |done.instructions| == n
    && (forall i :: 0 <= i < n ==> Binds(stmts, done, storeBinder, bindings, i))
    && stmts[n].ReturnStmt? && ParseReturn(stmts[n], done.binders).None?
  }

  /** One more binding, and the earlier statements bind as they did. */
  lemma {:induction false} BindsOneMore(stmts: seq<Stmt>, b: Body, storeBinder: string, bindings: set<string>)
    returns (b': Body)
    requires var i := |b.binders|; i == |b.instructions| && i < |stmts| && stmts[i].VarStmt?
    requires ParseBinding(stmts[|b.binders|], b.binders, storeBinder, bindings).Ok?
    requires forall k :: 0 <= k < |b.binders| ==> Binds(stmts, b, storeBinder, bindings, k)
    ensures b' == Collect(b, ParseBinding(stmts[|b.binders|], b.binders, storeBinder, bindings).value)
    ensures |b'.binders| == |b'.instructions| == |b.binders| + 1
    ensures forall k :: 0 <= k < |b'.binders| ==> Binds(stmts, b', storeBinder, bindings, k)
  {
    b' := Collect(b, ParseBinding(stmts[|b.binders|], b.binders, storeBinder, bindings).value);
    forall k | 0 <= k < |b'.binders| ensures Binds(stmts, b', storeBinder, bindings, k) {
      assert b'.binders[..k] == b.binders[..k];
      if k < |b.binders| {
        assert Binds(stmts, b, storeBinder, bindings, k);
      } else {
        assert b.binders[..k] == b.binders;
      }
    }
  }

  /** What the recognizer accepts is shaped like what it returns. */
  lemma {:induction false} AcceptedShaped(stmts: seq<Stmt>, storeBinder: string, bindings: set<string>)
    requires Partition(stmts, 0, Body([], []), storeBinder, bindings).Ok?
    ensures Shaped(stmts, Partition(stmts, 0, Body([], []), storeBinder, bindings).value, storeBinder, bindings)
  {
    var done := Partition(stmts, 0, Body([], []), storeBinder, bindings).value;
    var b, i := Body([], []), 0;
    while stmts[i].VarStmt?
      invariant i < |stmts| && |b.binders| == |b.instructions| == i
      invariant Partition(stmts, i, b, storeBinder, bindings) == Ok(done)
      invariant forall k :: 0 <= k < i ==> Binds(stmts, b, storeBinder, bindings, k)
      decreases |stmts| - i
    {
      b := BindsOneMore(stmts, b, storeBinder, bindings);
      i := i + 1;
    }
  }

  /** And every shaped body is accepted, as exactly what shapes it. */
  lemma {:induction false} ShapedAccepted(
      stmts: seq<Stmt>, i: nat, done: Body, storeBinder: string, bindings: set<string>)
    requires Shaped(stmts, done, storeBinder, bindings) && i <= |done.binders|
    ensures Partition(stmts, i, Body(done.binders[..i], done.instructions[..i]), storeBinder, bindings) == Ok(done)
    decreases |stmts| - i
  {
    var b := Body(done.binders[..i], done.instructions[..i]);
    if i == |done.binders| {
      assert b == done;
    } else {
      assert Binds(stmts, done, storeBinder, bindings, i);
      ShapedStep(stmts, i, done, storeBinder, bindings);
      ShapedAccepted(stmts, i + 1, done, storeBinder, bindings);
    }
  }

  lemma {:induction false} ShapedStep(stmts: seq<Stmt>, i: nat, done: Body, storeBinder: string, bindings: set<string>)
    requires Binds(stmts, done, storeBinder, bindings, i)
    ensures Partition(stmts, i, Body(done.binders[..i], done.instructions[..i]), storeBinder, bindings) ==
            Partition(stmts, i + 1, Body(done.binders[..i + 1], done.instructions[..i + 1]), storeBinder, bindings)
  {
    var b := Body(done.binders[..i], done.instructions[..i]);
    var binding := ParseBinding(stmts[i], b.binders, storeBinder, bindings).value;
    assert Collect(b, binding) == Body(done.binders[..i + 1], done.instructions[..i + 1]);
  }

  lemma {:induction false} BindsDeclares(
      stmts: seq<Stmt>, done: Body, storeBinder: string, bindings: set<string>, i: nat)
    requires Shaped(stmts, done, storeBinder, bindings) && i < |done.binders|
    ensures DeclaredBy(stmts[i]) == [done.binders[i]]
  {
    assert Binds(stmts, done, storeBinder, bindings, i);
  }

  lemma {:induction false} ShapedDeclares(
      stmts: seq<Stmt>, i: nat, done: Body, storeBinder: string, bindings: set<string>)
    requires Shaped(stmts, done, storeBinder, bindings) && i <= |done.binders|
    ensures DeclaredFrom(stmts, i) == done.binders[i..]
    decreases |stmts| - i
  {
    if i == |done.binders| {
      assert DeclaredFrom(stmts, i + 1) == [];
    } else {
      BindsDeclares(stmts, done, storeBinder, bindings, i);
      ShapedDeclares(stmts, i + 1, done, storeBinder, bindings);
      assert done.binders[i..] == [done.binders[i]] + done.binders[i + 1..];
    }
  }

  lemma {:induction false} LongChain(e: Expr)
    requires e.PropAccess? && Chain(e).Some?
    ensures |Chain(e).value| >= 2
  {
    ChainNonEmpty(e.object_);
  }

  /** A one-name chain is that name, whatever the parentheses around it. */
  lemma {:induction false} SoloChain(e: Expr, x: string, scope: Scope)
    requires Chain(e) == Some([x])
    ensures Eval(e, scope) == Resolve(scope, x)
  {
    match e
    case Paren(inner) => SoloChain(inner, x, scope);
    case PropAccess(object_, member, _) =>
      LongChain(e);
      assert false;
    case _ =>
  }

  /** The two-name chain `store.put`, taken apart. */
  lemma {:induction false} PairChain(e: Expr, x: string, y: string, scope: Scope)
    requires Chain(e) == Some([x, y])
    ensures Unparen(e).PropAccess? && !Unparen(e).questionDot && Unparen(e).member == y
    ensures Eval(Unparen(e).object_, scope) == Resolve(scope, x)
  {
    ChainOfUnparen(e);
    UnparenSmaller(e);
    var u := Unparen(e);
    var head := Chain(u.object_).value;
    assert (head + [u.member])[|head|] == u.member && head == (head + [u.member])[..|head|] == [x, y][..1] == [x];
    SoloChain(u.object_, x, scope);
  }

  // ---------------------------------------------------------------- one statement

  /** Inside the block the store parameter and the helper are what they look like exactly when the names
      are clear. */
  lemma {:induction false} NamesClearMeans(p: Program, names: seq<string>, answers: seq<Addr>)
    requires p.generator.Function? && |answers| <= |names| && Distinct(names)
    ensures var scope := ScopeAt(p, names, answers);
            NamesClear(p, names) <==>
            Resolve(scope, p.store) == Got(VStore) && Resolve(scope, "hex") == Got(VHexHelper)
  {
    BoundHolds(names, answers);
    var bound := Bound(names, answers);
    forall x | x in bound ensures bound[x].VAddress? {
      var k :| 0 <= k < |answers| && x == names[k];
    }
  }

  /** The payload is called without `?.`. */
  predicate PlainPayload(arg: Expr) {
    arg.Object? && match Lookup(arg.props, "payload") case Some(Call(_, _, questionDot)) => !questionDot case _ => true
  }

  lemma {:induction false} PayloadNeedsHex(payload: Expr, scope: Scope)
    requires ParsePayload(payload).Ok? && Resolve(scope, "hex") != Got(VHexHelper)
    ensures Eval(payload, scope).Got? ==> payload.questionDot && !Eval(payload, scope).value.VBytes?
  {
    PayloadCut(payload, scope);
    var f, values := Resolve(scope, "hex"), EvalAll(payload.args, scope);
    assert Eval(payload.callee, scope) == f;
    if f.Got? && values.Got? { assert !Apply(f.value, values.value).Got?; }
  }

  /** Without the helper no accepted node literal gives a node: its payload is called in vain. */
  lemma {:induction false} NodeNeedsHex(arg: Expr, binders: seq<string>, scope: Scope)
    requires ParseNode(arg, binders).Ok? && Resolve(scope, "hex") != Got(VHexHelper)
    ensures Eval(arg, scope).Got? ==> NodeValue(Eval(arg, scope).value).None?
    ensures PlainPayload(arg) ==> !Eval(arg, scope).Got?
  {
    var kind, payload, refs := ParsedNodeParts(arg, binders);
    EvalPropsByLookup(arg.props, scope);
    assert "payload" in Keys(arg.props);
    PayloadNeedsHex(payload, scope);
  }

  /** The put an accepted binding statement asks for. */
  lemma {:induction false} BindingParts(st: Stmt, binders: seq<string>, storeBinder: string, bindings: set<string>,
                                        scope: Scope)
    returns (arg: Expr)
    requires st.VarStmt? && ParseBinding(st, binders, storeBinder, bindings).Ok?
    ensures |st.decls| == 1 &&
        st.decls[0].binder == NameBinder(ParseBinding(st, binders, storeBinder, bindings).value.name)
    ensures arg == PutArg(st)
    ensures ParseNode(arg, binders) == Ok(ParseBinding(st, binders, storeBinder, bindings).value.fields)
    ensures PutArgument(st, scope) == Asked(Resolve(scope, storeBinder), Eval(arg, scope))
  {
    arg := PutArg(st);
    var op := st.decls[0].initializer.value.yielded.value;
    var parts := Chain(op.callee).value;
    assert parts == [parts[0], parts[1]];
    PairChain(op.callee, storeBinder, "put", scope);
  }

  lemma {:induction false} HoldsEarlier(p: Program, names: seq<string>, answers: seq<Addr>)
    requires p.generator.Function? && |answers| <= |names| && Distinct(names)
    ensures Holds(ScopeAt(p, names, answers), names[..|answers|], answers)
  {
    BoundHolds(names, answers);
  }

  /** The put of statement i with placeholders for the earlier answers: known before anything runs. */
  function StaticPut(p: Program, names: seq<string>, i: nat): Reading<NodeInput>
    requires p.generator.Function? && i < |p.generator.body| && i <= |names|
  {
    PutArgument(p.generator.body[i], StaticScope(p, names, i))
  }

  /** Statement i puts the node its parsed fields describe, or throws, or leaves the model: which, is known
      beforehand. */
  lemma {:induction false} StatementPuts(p: Program, names: seq<string>, answers: seq<Addr>, bindings: set<string>)
    requires p.generator.Function? && Distinct(names)
    requires |answers| < |names| && |answers| < |p.generator.body|
    requires p.generator.body[|answers|].VarStmt?
    requires ParseBinding(p.generator.body[|answers|], names[..|answers|], p.store, bindings).Ok?
    ensures var i := |answers|;
            var st := p.generator.body[i];
            var f := ParseBinding(st, names[..i], p.store, bindings).value.fields;
            var asked := PutArgument(st, ScopeAt(p, names, answers));
            && (forall k :: 0 <= k < |f.refs| ==> f.refs[k].source < i)
            && if NamesClear(p, names) && StatementHygienic(p, names, i)
               then asked == Got(NodeInput(f.version, f.tag, f.payloadHex, ResolveRefs(f.refs, answers)))
               else asked == if StaticPut(p, names, i).Throws? then Throws else Strays
  {
    var i := |answers|;
    var scope := ScopeAt(p, names, answers);
    var arg := BindingParts(p.generator.body[i], names[..i], p.store, bindings, scope);
    ParsedNodeBounded(arg, names[..i]);
    NamesClearMeans(p, names, answers);
    if !NamesClear(p, names) {
      if Resolve(scope, p.store) == Got(VStore) { NodeNeedsHex(arg, names[..i], scope); }
      ThrowIsStatic(p, names, answers, bindings);
    } else {
      HoldsEarlier(p, names, answers);
      NodeEvaluatesWhen(arg, names[..i], scope, answers);
      OverriddenStatic(p, names, answers, arg);
      if Eval(arg, scope).Got? {
        NodeEvaluatesTo(arg, names[..i], scope, answers);
      } else {
        ThrowIsStatic(p, names, answers, bindings);
      }
    }
  }

  /** Whether a binding throws does not depend on the answers. */
  lemma {:induction false} ThrowIsStatic(p: Program, names: seq<string>, answers: seq<Addr>, bindings: set<string>)
    requires p.generator.Function? && Distinct(names)
    requires |answers| < |names| && |answers| < |p.generator.body|
    requires p.generator.body[|answers|].VarStmt?
    requires ParseBinding(p.generator.body[|answers|], names[..|answers|], p.store, bindings).Ok?
    ensures PutArgument(p.generator.body[|answers|], ScopeAt(p, names, answers)).Throws? <==>
            StaticPut(p, names, |answers|).Throws?
  {
    var i := |answers|;
    var a, b := ScopeAt(p, names, answers), StaticScope(p, names, i);
    var arg := BindingParts(p.generator.body[i], names[..i], p.store, bindings, a);
    var _ := BindingParts(p.generator.body[i], names[..i], p.store, bindings, b);
    ScopesAlike(p, names, answers);
    ResolveAlike(p.store, a, b);
    EvalAlike(arg, a, b);
  }

  /** Whether the overwritten initializers evaluate does not depend on the answers. */
  lemma {:induction false} OverriddenStatic(p: Program, names: seq<string>, answers: seq<Addr>, arg: Expr)
    requires p.generator.Function? && Distinct(names) && |answers| <= |names|
    ensures AllEvaluate(NodeOverridden(arg), ScopeAt(p, names, answers)) <==>
            AllEvaluate(NodeOverridden(arg), StaticScope(p, names, |answers|))
  {
    ScopesAlike(p, names, answers);
    var es := NodeOverridden(arg);
    var a, b := ScopeAt(p, names, answers), StaticScope(p, names, |answers|);
    forall k | 0 <= k < |es| ensures Eval(es[k], a).Got? <==> Eval(es[k], b).Got? {
      EvalAlike(es[k], a, b);
    }
  }

  // ---------------------------------------------------------------- the return

  function Addresses(answers: seq<Addr>): seq<Value> {
    seq(|answers|, k requires 0 <= k < |answers| => VAddress(answers[k]))
  }

  lemma {:induction false} EvalNames(elements: seq<Expr>, scope: Scope, answers: seq<Addr>)
    requires |elements| == |answers|
    requires forall k :: 0 <= k < |elements| ==> Eval(elements[k], scope) == Got(VAddress(answers[k]))
    ensures EvalAll(elements, scope) == Got(Addresses(answers))
  {
    if elements == [] {
      assert Addresses(answers) == [];
    } else {
      EvalNames(elements[1..], scope, answers[1..]);
      assert Addresses(answers) == [VAddress(answers[0])] + Addresses(answers[1..]);
    }
  }

  lemma {:induction false} RunReturn<S>(stmts: seq<Stmt>, i: nat, scope: Scope, answers: seq<Addr>,
                                        put: (S, NodeInput) -> PutResult<S>, s: S)
    requires i < |stmts| && stmts[i].ReturnStmt? && stmts[i].returned.Some? && stmts[i].returned.value.ArrayLit?
    requires EvalAll(stmts[i].returned.value.elements, scope) == Got(Addresses(answers))
    ensures Run(stmts, i, scope, put, s) == Done(s, answers)
  {
    var items := Addresses(answers);
    assert seq(|items|, k requires 0 <= k < |items| => items[k].addr) == answers;
  }

  /** An accepted return gives back the answers, in order. */
  lemma {:induction false} ReturnGives<S>(p: Program, names: seq<string>, answers: seq<Addr>,
                                          put: (S, NodeInput) -> PutResult<S>, s: S)
    requires p.generator.Function? && Distinct(names) && |answers| == |names| < |p.generator.body|
    requires p.generator.body[|answers|].ReturnStmt? && ParseReturn(p.generator.body[|answers|], names).None?
    ensures Run(p.generator.body, |answers|, ScopeAt(p, names, answers), put, s) == Done(s, answers)
  {
    var scope := ScopeAt(p, names, answers);
    var elements := p.generator.body[|answers|].returned.value.elements;
    assert names[..|answers|] == names;
    HoldsEarlier(p, names, answers);
    forall k | 0 <= k < |elements| ensures Eval(elements[k], scope) == Got(VAddress(answers[k])) {
      assert elements[k] == Ident(names[k]);
    }
    EvalNames(elements, scope, answers);
    RunReturn(p.generator.body, |answers|, scope, answers, put, s);
  }

  // ---------------------------------------------------------------- the whole body

  /** What the proofs below walk through: an accepted body whose binders are distinct. */
  ghost predicate Accepted(p: Program, done: Body, bindings: set<string>) {
    && p.generator.Function? && Distinct(done.binders) && StraightLine(done.instructions)
    && Shaped(p.generator.body, done, p.store, bindings)
  }

  // ---------------------------------------------------------------- preservation

  lemma {:induction false} StraightLineRuns(instructions: seq<Instruction>, i: nat)
    requires StraightLine(instructions) && i <= |instructions|
    ensures forall j :: 0 <= j < |instructions[i..]| ==>
              forall k :: 0 <= k < |instructions[i..][j].refs| ==> instructions[i..][j].refs[k].source < i + j
  {
    forall j | 0 <= j < |instructions[i..]|
      ensures forall k :: 0 <= k < |instructions[i..][j].refs| ==> instructions[i..][j].refs[k].source < i + j
    {
      assert instructions[i..][j] == instructions[i + j];
    }
  }

  /** Running a binding statement whose put is known: ask the store, then go on with its answer bound. */
  lemma {:induction false} RunStatement<S>(stmts: seq<Stmt>, i: nat, scope: Scope, node: NodeInput, name: string,
                        put: (S, NodeInput) -> PutResult<S>, s: S)
    requires i < |stmts| && stmts[i].VarStmt? && PutArgument(stmts[i], scope) == Got(node)
    requires |stmts[i].decls| == 1 && stmts[i].decls[0].binder == NameBinder(name)
    ensures Run(stmts, i, scope, put, s) ==
            var step := put(s, node);
            if step.answer.Err? then Failed(step.state, step.answer.error)
            else Run(stmts, i + 1, scope.(bound := scope.bound[name := VAddress(step.answer.value)]), put, step.state)
  {
  }

  lemma {:induction false} RunNothing<S>(stmts: seq<Stmt>, i: nat, scope: Scope, put: (S, NodeInput) -> PutResult<S>,
                                         s: S)
    requires i < |stmts| && stmts[i].VarStmt? && !PutArgument(stmts[i], scope).Got?
    ensures Run(stmts, i, scope, put, s) == if PutArgument(stmts[i], scope).Throws? then Threw(s) else Strayed(s)
  {
  }

  /** Execute what is left of a straight-line program once the first |answers| of it are answered. */
  function ExecFrom<S>(instructions: seq<Instruction>, put: (S, NodeInput) -> PutResult<S>, s: S, answers: seq<Addr>)
    : Outcome<S>
    requires StraightLine(instructions) && |answers| <= |instructions|
  {
    StraightLineRuns(instructions, |answers|);
    Exec(instructions[|answers|..], put, s, answers)
  }

  lemma {:induction false} ExecFromStart<S>(instructions: seq<Instruction>, put: (S, NodeInput) -> PutResult<S>, s: S)
    requires StraightLine(instructions)
    ensures Exec(instructions, put, s, []) == ExecFrom(instructions, put, s, [])
  {
    assert instructions[0..] == instructions;
  }

  lemma {:induction false} ExecFromStep<S>(instructions: seq<Instruction>, answers: seq<Addr>,
                           put: (S, NodeInput) -> PutResult<S>, s: S)
    requires StraightLine(instructions) && |answers| < |instructions|
    ensures forall k :: 0 <= k < |instructions[|answers|].refs| ==> instructions[|answers|].refs[k].source < |answers|
    ensures ExecFrom(instructions, put, s, answers) ==
            var step := put(s, InputOf(instructions[|answers|], answers));
            if step.answer.Err? then Failed(step.state, step.answer.error)
            else ExecFrom(instructions, put, step.state, answers + [step.answer.value])
  {
    var i := |answers|;
    StraightLineRuns(instructions, i);
    StraightLineRuns(instructions, i + 1);
    assert instructions[i..][0] == instructions[i] && instructions[i..][1..] == instructions[i + 1..];
  }

  /** The bindings that something unhygienic stands in. */
  ghost function Flaws(p: Program, names: seq<string>): set<nat>
    requires p.generator.Function? && |names| <= |p.generator.body|
  {
    set k: nat | k < |names| && !(NamesClear(p, names) && StatementHygienic(p, names, k))
  }

  lemma {:induction false} SoundAsks(p: Program, done: Body, bindings: set<string>, answers: seq<Addr>)
    requires Accepted(p, done, bindings) && |answers| < |done.binders|
    requires |answers| !in Flaws(p, done.binders)
    ensures |answers| < |p.generator.body| && p.generator.body[|answers|].VarStmt?
    ensures var decls := p.generator.body[|answers|].decls;
            |decls| == 1 && decls[0].binder == NameBinder(done.binders[|answers|])
    ensures forall k :: 0 <= k < |done.instructions[|answers|].refs| ==>
              done.instructions[|answers|].refs[k].source < |answers|
    ensures PutArgument(p.generator.body[|answers|], ScopeAt(p, done.binders, answers)) ==
            Got(InputOf(done.instructions[|answers|], answers))
  {
    assert Binds(p.generator.body, done, p.store, bindings, |answers|);
    StatementPuts(p, done.binders, answers, bindings);
  }

  /** A binding nothing unhygienic stands in asks the store for its instruction's node, then goes on with
      the answer bound. */
  lemma {:induction false} SoundStatement<S>(p: Program, done: Body, bindings: set<string>, answers: seq<Addr>,
                          put: (S, NodeInput) -> PutResult<S>, s: S) returns (step: PutResult<S>)
    requires Accepted(p, done, bindings) && |answers| < |done.binders|
    requires |answers| !in Flaws(p, done.binders)
    ensures forall k :: 0 <= k < |done.instructions[|answers|].refs| ==>
              done.instructions[|answers|].refs[k].source < |answers|
    ensures step == put(s, InputOf(done.instructions[|answers|], answers))
    ensures Run(p.generator.body, |answers|, ScopeAt(p, done.binders, answers), put, s) ==
            if step.answer.Err? then Failed(step.state, step.answer.error)
            else Run(p.generator.body, |answers| + 1,
                     ScopeAt(p, done.binders, answers + [step.answer.value]), put, step.state)
  {
    var i, stmts := |answers|, p.generator.body;
    SoundAsks(p, done, bindings, answers);
    var node := InputOf(done.instructions[i], answers);
    RunStatement(stmts, i, ScopeAt(p, done.binders, answers), node, done.binders[i], put, s);
    step := put(s, node);
    if step.answer.Ok? { BoundExtends(done.binders, answers, step.answer.value); }
  }

  lemma {:induction false} FlawedStatement<S>(p: Program, done: Body, bindings: set<string>, answers: seq<Addr>,
                           put: (S, NodeInput) -> PutResult<S>, s: S)
    requires Accepted(p, done, bindings) && |answers| < |done.binders|
    requires |answers| in Flaws(p, done.binders)
    ensures Run(p.generator.body, |answers|, ScopeAt(p, done.binders, answers), put, s) ==
            if StaticPut(p, done.binders, |answers|).Throws? then Threw(s) else Strayed(s)
  {
    assert Binds(p.generator.body, done, p.store, bindings, |answers|);
    StatementPuts(p, done.binders, answers, bindings);
    RunNothing(p.generator.body, |answers|, ScopeAt(p, done.binders, answers), put, s);
  }

  /** One statement and one instruction: the same put, and the same way on. */
  lemma {:induction false} BothStep<S>(p: Program, done: Body, bindings: set<string>, answers: seq<Addr>,
                                       put: (S, NodeInput) -> PutResult<S>, s: S) returns (step: PutResult<S>)
    requires Accepted(p, done, bindings) && |answers| < |done.binders| == |done.instructions|
    requires Flaws(p, done.binders) == {}
    ensures Run(p.generator.body, |answers|, ScopeAt(p, done.binders, answers), put, s) ==
            if step.answer.Err? then Failed(step.state, step.answer.error)
            else Run(p.generator.body, |answers| + 1,
                     ScopeAt(p, done.binders, answers + [step.answer.value]), put, step.state)
    ensures ExecFrom(done.instructions, put, s, answers) ==
            if step.answer.Err? then Failed(step.state, step.answer.error)
            else ExecFrom(done.instructions, put, step.state, answers + [step.answer.value])
  {
    step := SoundStatement(p, done, bindings, answers, put, s);
    ExecFromStep(done.instructions, answers, put, s);
  }

  lemma {:induction false} BothEnd<S>(p: Program, done: Body, bindings: set<string>, answers: seq<Addr>,
                                      put: (S, NodeInput) -> PutResult<S>, s: S)
    requires Accepted(p, done, bindings) && |answers| == |done.binders| == |done.instructions|
    ensures Run(p.generator.body, |answers|, ScopeAt(p, done.binders, answers), put, s) == Done(s, answers)
    ensures ExecFrom(done.instructions, put, s, answers) == Done(s, answers)
  {
    ReturnGives(p, done.binders, answers, put, s);
    assert done.instructions[|answers|..] == [];
  }

  /** A hygienic body does what its instructions do: both ask the store for the same nodes in the same
      order, from any statement on, to the return or to the first failure. */
  lemma {:induction false} RunFollows<S>(p: Program, done: Body, bindings: set<string>, answers: seq<Addr>,
                                         put: (S, NodeInput) -> PutResult<S>, s: S)
    requires Accepted(p, done, bindings) && Flaws(p, done.binders) == {}
    requires |answers| <= |done.binders| == |done.instructions|
    ensures Run(p.generator.body, |answers|, ScopeAt(p, done.binders, answers), put, s) ==
            ExecFrom(done.instructions, put, s, answers)
    decreases |done.binders| - |answers|
  {
    if |answers| == |done.binders| {
      BothEnd(p, done, bindings, answers, put, s);
    } else {
      var step := BothStep(p, done, bindings, answers, put, s);
      if step.answer.Ok? { RunFollows(p, done, bindings, answers + [step.answer.value], put, step.state); }
    }
  }

  ghost predicate NeverFails<S(!new)>(put: (S, NodeInput) -> PutResult<S>) {
    forall s, node :: put(s, node).answer.Ok?
  }

  /** How a body ends is how its first flawed binding ends, when no put fails first. */
  lemma {:induction false} RunStopsAt<S(!new)>(p: Program, done: Body, bindings: set<string>, bad: nat,
                           put: (S, NodeInput) -> PutResult<S>, s0: S)
    requires Accepted(p, done, bindings) && NeverFails(put)
    requires bad in Flaws(p, done.binders) && forall k :: 0 <= k < bad ==> k !in Flaws(p, done.binders)
    ensures var end := Run(p.generator.body, 0, ScopeAt(p, done.binders, []), put, s0);
            if StaticPut(p, done.binders, bad).Throws? then end.Threw? else end.Strayed?
  {
    var stmts, s, answers := p.generator.body, s0, [];
    while |answers| < bad
      invariant |answers| <= bad
      invariant Run(stmts, 0, ScopeAt(p, done.binders, []), put, s0) ==
                Run(stmts, |answers|, ScopeAt(p, done.binders, answers), put, s)
    {
      var step := SoundStatement(p, done, bindings, answers, put, s);
      s, answers := step.state, answers + [step.answer.value];
    }
    FlawedStatement(p, done, bindings, answers, put, s);
  }

  /** Instructions never throw, and a store that never fails gives them all an answer. */
  lemma {:induction false} ExecFinishes<S(!new)>(
      instructions: seq<Instruction>, answers: seq<Addr>, put: (S, NodeInput) -> PutResult<S>, s: S)
    requires forall i :: 0 <= i < |instructions| ==>
               forall k :: 0 <= k < |instructions[i].refs| ==> instructions[i].refs[k].source < |answers| + i
    ensures !Exec(instructions, put, s, answers).Threw? && !Exec(instructions, put, s, answers).Strayed?
    ensures NeverFails(put) ==> Exec(instructions, put, s, answers).Done?
    decreases |instructions|
  {
    if instructions != [] {
      var step := put(s, InputOf(instructions[0], answers));
      if step.answer.Ok? { ExecFinishes(instructions[1..], answers + [step.answer.value], put, step.state); }
    }
  }

  lemma {:induction false} NotOptional(e: Expr)
    requires !Optional(e)
    ensures !Optional(Unparen(e))
  {
    if e.Paren? { NotOptional(e.inner); }
  }

  /** An accepted declaration is a program, with the store parameter and the generator that was unwrapped. */
  lemma {:induction false} AcceptedProgram(own: string, decl: Expr, bindings: set<string>) returns (p: Program)
    requires Unwrap(decl, bindings).Ok?
    ensures ProgramOf(own, decl) == Some(p) && p.own == own && p.argCount >= 1 && p.head in bindings
    ensures Unwrap(decl, bindings) == Ok(Frame(p.store, p.generator)) && p.generator.Function?
  {
    var frame := Unwrap(decl, bindings).value;
    var spine := if decl.Arrow? then decl.arrowBody.result else decl;
    NotOptional(spine);
    p := SpineOf(if decl.Arrow?
                 then Program(own, frame.storeBinder, decl.arrowParams[0].form == Rest, decl.asyncArrow, "", [], 0,
                              OtherExpr)
                 else Program(own, "", false, false, "", [], 0, OtherExpr), spine).value;
  }

  /** An accepted declaration, opened. */
  lemma {:induction false} AcceptedStart(own: string, decl: Expr, bindings: set<string>)
    returns (p: Program, done: Body)
    requires Lift(own, decl, bindings).Lifted?
    ensures ProgramOf(own, decl) == Some(p) && p.generator.Function?
    ensures Lift(own, decl, bindings).instructions == done.instructions && StraightLine(done.instructions)
    ensures done.binders == Declared(p.generator.body) && |done.binders| <= |p.generator.body|
    ensures Shaped(p.generator.body, done, p.store, bindings)
    ensures Distinct(done.binders) ==> Accepted(p, done, bindings)
  {
    p := AcceptedProgram(own, decl, bindings);
    var stmts := GeneratorBody(p.generator);
    done := Partition(stmts, 0, Body([], []), p.store, bindings).value;
    AcceptedShaped(stmts, p.store, bindings);
    ShapedDeclares(stmts, 0, done, p.store, bindings);
    AcceptedLiftIsStraightLine(own, decl, bindings);
    assert done.binders[0..] == done.binders;
  }

  /** Where the generator is plainly run, running the declaration is running its body. */
  lemma {:induction false} RunsItsBody<S>(own: string, decl: Expr, imports: Imports,
                                          put: (S, NodeInput) -> PutResult<S>, s: S)
    requires ProgramOf(own, decl).Some? && Plainly(ProgramOf(own, decl).value, imports)
    ensures var p := ProgramOf(own, decl).value;
            RunDecl(own, decl, imports, put, s) ==
            if EarlyError(p) then Threw(s)
            else Run(p.generator.body, 0, ScopeAt(p, Declared(p.generator.body), []), put, s)
  {
    var p := ProgramOf(own, decl).value;
    assert StartScope(p) == ScopeAt(p, Declared(p.generator.body), []);
  }

  lemma {:induction false} HygienicFlawless(p: Program, imports: Imports)
    requires Hygienic(p, imports) && |Declared(p.generator.body)| <= |p.generator.body|
    ensures Flaws(p, Declared(p.generator.body)) == {}
  {
  }

  /** Lifting preserves meaning: on every store, under every put, failing or not, a hygienic declaration the
      recognizer accepts ends exactly as its instructions do: same state, same word, same failure. */
  lemma {:induction false} LiftPreservesMeaning<S>(own: string, decl: Expr, bindings: set<string>,
                                imports: Imports, put: (S, NodeInput) -> PutResult<S>, s: S)
    requires Lift(own, decl, bindings).Lifted?
    requires ProgramOf(own, decl).Some? && Hygienic(ProgramOf(own, decl).value, imports)
    ensures StraightLine(Lift(own, decl, bindings).instructions)
    ensures RunDecl(own, decl, imports, put, s) == Exec(Lift(own, decl, bindings).instructions, put, s, [])
  {
    var p, done := AcceptedStart(own, decl, bindings);
    HygienicFlawless(p, imports);
    RunsItsBody(own, decl, imports, put, s);
    RunFollows(p, done, bindings, [], put, s);
    ExecFromStart(done.instructions, put, s);
  }
}
