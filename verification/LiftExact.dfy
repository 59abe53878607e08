/**
  Which accepted declarations mean their instructions: what becomes of each is known before it runs.
 */
module LiftExact {
  import opened Outcomes
  import opened TsAst
  import opened Recognizer
  import opened LiftMeaning
  import opened LiftLaws
  import opened LiftPreserves

  /** What becomes of a declaration: it does what its instructions do; it throws; it declares a name twice
      by `var`, so that one answer is lost; or it does something that is not modelled. */
  datatype Fate = Keeps | Breaks | Rebinds | Leaves

  /** A binding with nothing unhygienic in it. */
  predicate Clean(p: Program, names: seq<string>, i: nat)
    requires p.generator.Function? && i < |names| <= |p.generator.body|
  {
    NamesClear(p, names) && StatementHygienic(p, names, i)
  }

  function BindingFate(p: Program, names: seq<string>, i: nat): Fate
    requires p.generator.Function? && i < |names| <= |p.generator.body|
  {
    if Clean(p, names, i) then Keeps else if StaticPut(p, names, i).Throws? then Breaks else Leaves
  }

  function BindingFates(p: Program, names: seq<string>): seq<Fate>
    requires p.generator.Function? && |names| <= |p.generator.body|
  {
    seq(|names|, i requires 0 <= i < |names| => BindingFate(p, names, i))
  }

  /** The fate of a body is that of its first binding that does not keep. */
  function FirstFate(fates: seq<Fate>): Fate {
    if fates == [] then Keeps else if fates[0] != Keeps then fates[0] else FirstFate(fates[1..])
  }

  lemma {:induction false} FirstFound(fates: seq<Fate>) returns (bad: nat)
    ensures bad <= |fates| && forall k :: 0 <= k < bad ==> fates[k] == Keeps
    ensures bad == |fates| ==> FirstFate(fates) == Keeps
    ensures bad < |fates| ==> fates[bad] != Keeps && FirstFate(fates) == fates[bad]
  {
    if fates == [] || fates[0] != Keeps {
      bad := 0;
    } else {
      var k := FirstFound(fates[1..]);
      bad := k + 1;
    }
  }

  function FateOf(p: Program, imports: Imports): Fate {
    if p.asyncArrow then Leaves
    else if p.own == p.head || p.own in imports.values then Breaks
    else if p.head == p.store then (if p.argCount == 1 && p.generator.Function? then Breaks else Leaves)
    else if !Familiar(p, imports) then Leaves
    else if EarlyError(p) then Breaks
    else if !Distinct(Declared(p.generator.body)) then Rebinds
    else
      DeclaresAtMost(p.generator.body, 0);
      FirstFate(BindingFates(p, Declared(p.generator.body)))
  }

  lemma {:induction false} DeclaresAtMost(stmts: seq<Stmt>, i: nat)
    requires i <= |stmts|
    ensures |DeclaredFrom(stmts, i)| <= |stmts| - i
    decreases |stmts| - i
  {
    if i < |stmts| { DeclaresAtMost(stmts, i + 1); }
  }

  /** A declaration keeps its meaning exactly when it is hygienic. */
  lemma {:induction false} KeepsIsHygienic(p: Program, imports: Imports)
    ensures FateOf(p, imports) == Keeps <==> Hygienic(p, imports)
  {
    if Plainly(p, imports) && Distinct(Declared(p.generator.body)) {
      DeclaresAtMost(p.generator.body, 0);
      AllKeep(p, Declared(p.generator.body));
    }
  }

  lemma {:induction false} AllKeep(p: Program, names: seq<string>)
    requires p.generator.Function? && |names| <= |p.generator.body|
    ensures FirstFate(BindingFates(p, names)) == Keeps <==>
            (names != [] ==> NamesClear(p, names)) && forall i :: 0 <= i < |names| ==> StatementHygienic(p, names, i)
  {
    var fates := BindingFates(p, names);
    var bad := FirstFound(fates);
    if bad == |names| {
      forall i | 0 <= i < |names| ensures NamesClear(p, names) && StatementHygienic(p, names, i) {
        assert fates[i] == BindingFate(p, names, i);
      }
    } else {
      assert fates[bad] == BindingFate(p, names, bad);
    }
  }

  // ---------------------------------------------------------------- throwing and leaving

  lemma {:induction false} BodyFate<S(!new)>(p: Program, done: Body, bindings: set<string>,
                                             put: (S, NodeInput) -> PutResult<S>, s: S)
    requires Accepted(p, done, bindings) && NeverFails(put)
    ensures var fate := FirstFate(BindingFates(p, done.binders));
            && (fate == Breaks ==> Run(p.generator.body, 0, ScopeAt(p, done.binders, []), put, s).Threw?)
            && (fate == Leaves ==> Run(p.generator.body, 0, ScopeAt(p, done.binders, []), put, s).Strayed?)
  {
    var fates := BindingFates(p, done.binders);
    var bad := FirstFound(fates);
    forall k | 0 <= k < bad ensures k !in Flaws(p, done.binders) {
      assert fates[k] == BindingFate(p, done.binders, k);
    }
    if bad < |fates| {
      assert fates[bad] == BindingFate(p, done.binders, bad);
      RunStopsAt(p, done, bindings, bad, put, s);
    }
  }

  /** Before the body is run: what is decided by the declaration's own form. */
  lemma {:induction false} FateUnlessPlain<S(!new)>(own: string, decl: Expr, imports: Imports,
                                                    put: (S, NodeInput) -> PutResult<S>, s: S)
    requires ProgramOf(own, decl).Some? && !Plainly(ProgramOf(own, decl).value, imports)
    ensures FateOf(ProgramOf(own, decl).value, imports) in {Breaks, Leaves}
    ensures RunDecl(own, decl, imports, put, s) ==
            if FateOf(ProgramOf(own, decl).value, imports) == Breaks then Threw(s) else Strayed(s)
  {
  }

  /** On a store that never fails, what breaks throws and what leaves the model is seen to, where the
      instructions run to the end. */
  lemma {:induction false} FateDecides<S(!new)>(own: string, decl: Expr, bindings: set<string>,
                                imports: Imports, put: (S, NodeInput) -> PutResult<S>, s: S)
    requires Lift(own, decl, bindings).Lifted? && ProgramOf(own, decl).Some? && NeverFails(put)
    ensures StraightLine(Lift(own, decl, bindings).instructions)
    ensures Exec(Lift(own, decl, bindings).instructions, put, s, []).Done?
    ensures var fate := FateOf(ProgramOf(own, decl).value, imports);
            && (fate == Breaks ==> RunDecl(own, decl, imports, put, s).Threw?)
            && (fate == Leaves ==> RunDecl(own, decl, imports, put, s).Strayed?)
  {
    var p, done := AcceptedStart(own, decl, bindings);
    ExecFinishes(done.instructions, [], put, s);
    if Plainly(p, imports) {
      RunsItsBody(own, decl, imports, put, s);
      if Distinct(done.binders) { BodyFate(p, done, bindings, put, s); }
    } else {
      FateUnlessPlain(own, decl, imports, put, s);
    }
  }

  // ---------------------------------------------------------------- rebinding

  lemma {:induction false} EvalAllAt(es: seq<Expr>, scope: Scope)
    requires EvalAll(es, scope).Got?
    ensures |EvalAll(es, scope).value| == |es|
    ensures forall k :: 0 <= k < |es| ==> Eval(es[k], scope) == Got(EvalAll(es, scope).value[k])
  {
    if es != [] { EvalAllAt(es[1..], scope); }
  }

  /** A body that returns one name at two places returns one address there. */
  lemma {:induction false} RunRepeats<S>(stmts: seq<Stmt>, i: nat, elements: seq<Expr>, a: nat, b: nat, scope: Scope,
                                         put: (S, NodeInput) -> PutResult<S>, s: S)
    requires i < |stmts| && stmts[|stmts| - 1] == ReturnStmt(Some(ArrayLit(elements)))
    requires forall k :: i <= k < |stmts| - 1 ==> stmts[k].VarStmt?
    requires a < |elements| && b < |elements| && elements[a] == elements[b]
    ensures var end := Run(stmts, i, scope, put, s);
            end.Done? ==> |end.word| == |elements| && end.word[a] == end.word[b]
    decreases |stmts| - i
  {
    if i == |stmts| - 1 {
      if EvalAll(elements, scope).Got? { EvalAllAt(elements, scope); }
    } else if PutArgument(stmts[i], scope).Got? {
      var step := put(s, PutArgument(stmts[i], scope).value);
      if step.answer.Ok? && stmts[i].decls[0].binder.NameBinder? {
        var scope' := scope.(bound := scope.bound[stmts[i].decls[0].binder.name := VAddress(step.answer.value)]);
        RunRepeats(stmts, i + 1, elements, a, b, scope', put, step.state);
      }
    }
  }

  /** A store that never fails and never answers an address twice: its state is the next address. */
  ghost predicate AnswersFresh(put: (int, NodeInput) -> PutResult<int>) {
    forall s, node :: put(s, node) == PutResult(s + 1, Ok(s))
  }

  lemma {:induction false} FreshAnswers(instructions: seq<Instruction>, put: (int, NodeInput) -> PutResult<int>,
                                        s: int, answers: seq<Addr>)
    requires AnswersFresh(put)
    requires forall i :: 0 <= i < |instructions| ==>
               forall k :: 0 <= k < |instructions[i].refs| ==> instructions[i].refs[k].source < |answers| + i
    requires forall i, j :: 0 <= i < j < |answers| ==> answers[i] < answers[j]
    requires forall i :: 0 <= i < |answers| ==> answers[i] < s
    ensures var end := Exec(instructions, put, s, answers);
            && end.Done? && |end.word| == |answers| + |instructions|
            && forall i, j :: 0 <= i < j < |end.word| ==> end.word[i] < end.word[j]
    decreases |instructions|
  {
    if instructions != [] {
      assert put(s, InputOf(instructions[0], answers)) == PutResult(s + 1, Ok(s));
      FreshAnswers(instructions[1..], put, s + 1, answers + [s]);
    }
  }

  lemma {:induction false} BodyRepeats<S>(p: Program, done: Body, bindings: set<string>, a: nat, b: nat,
                                          put: (S, NodeInput) -> PutResult<S>, s: S)
    requires p.generator.Function? && Shaped(p.generator.body, done, p.store, bindings)
    requires a < b < |done.binders| && done.binders[a] == done.binders[b]
    ensures var end := Run(p.generator.body, 0, ScopeAt(p, done.binders, []), put, s);
            end.Done? ==> |end.word| == |done.binders| && end.word[a] == end.word[b]
  {
    var stmts := p.generator.body;
    var elements := stmts[|done.binders|].returned.value.elements;
    assert elements[a] == Ident(done.binders[a]) && elements[b] == Ident(done.binders[b]);
    forall k | 0 <= k < |stmts| - 1 ensures stmts[k].VarStmt? {
      assert Binds(stmts, done, p.store, bindings, k);
    }
    RunRepeats(stmts, 0, elements, a, b, ScopeAt(p, done.binders, []), put, s);
  }

  lemma {:induction false} BodyDiffers(p: Program, done: Body, bindings: set<string>,
                                       put: (int, NodeInput) -> PutResult<int>, s: int)
    requires p.generator.Function? && Shaped(p.generator.body, done, p.store, bindings) && AnswersFresh(put)
    requires StraightLine(done.instructions) && !Distinct(done.binders)
    ensures Run(p.generator.body, 0, ScopeAt(p, done.binders, []), put, s) != Exec(done.instructions, put, s, [])
  {
    var a: nat, b: nat :| a < b < |done.binders| && done.binders[a] == done.binders[b];
    BodyRepeats(p, done, bindings, a, b, put, s);
    FreshAnswers(done.instructions, put, s, []);
    var word := Exec(done.instructions, put, s, []).word;
    assert word[a] < word[b];
  }

  /** Some name is declared twice and nothing forbids it: `var` declares it. */
  predicate Twice(p: Program)
    requires p.generator.Function?
  {
    !EarlyError(p) && !Distinct(Declared(p.generator.body))
  }

  lemma {:induction false} RebindsIsTwice(p: Program, imports: Imports)
    ensures FateOf(p, imports) == Rebinds <==> Plainly(p, imports) && Twice(p)
  {
    if Plainly(p, imports) && !Twice(p) && Distinct(Declared(p.generator.body)) {
      DeclaresAtMost(p.generator.body, 0);
      NeverRebinds(p, Declared(p.generator.body));
    }
  }

  lemma {:induction false} NeverRebinds(p: Program, names: seq<string>)
    requires p.generator.Function? && |names| <= |p.generator.body|
    ensures FirstFate(BindingFates(p, names)) != Rebinds
  {
    var bad := FirstFound(BindingFates(p, names));
  }

  /** A name that `var` declares twice holds one of two answers, and the instructions give both. */
  lemma {:induction false} RebindsDiffers(own: string, decl: Expr, bindings: set<string>, imports: Imports,
                                          put: (int, NodeInput) -> PutResult<int>, s: int)
    requires Lift(own, decl, bindings).Lifted? && ProgramOf(own, decl).Some? && AnswersFresh(put)
    requires Plainly(ProgramOf(own, decl).value, imports) && Twice(ProgramOf(own, decl).value)
    ensures StraightLine(Lift(own, decl, bindings).instructions)
    ensures RunDecl(own, decl, imports, put, s) != Exec(Lift(own, decl, bindings).instructions, put, s, [])
  {
    var p, done := AcceptedStart(own, decl, bindings);
    BodyDiffers(p, done, bindings, put, s);
    RunsItsBody(own, decl, imports, put, s);
  }

  // ---------------------------------------------------------------- exactly

  /** Of the accepted declarations that stay inside the model, exactly the hygienic ones mean their
      instructions: those do on every store, and a store of fresh addresses tells all the others apart from
      theirs. */
  lemma {:induction false} MeaningKeptExactly(own: string, decl: Expr, bindings: set<string>,
                                              imports: Imports,
                                              put: (int, NodeInput) -> PutResult<int>, s: int)
    requires Lift(own, decl, bindings).Lifted? && ProgramOf(own, decl).Some? && AnswersFresh(put)
    requires FateOf(ProgramOf(own, decl).value, imports) != Leaves
    ensures StraightLine(Lift(own, decl, bindings).instructions)
    ensures Hygienic(ProgramOf(own, decl).value, imports) <==>
            RunDecl(own, decl, imports, put, s) == Exec(Lift(own, decl, bindings).instructions, put, s, [])
  {
    var p := ProgramOf(own, decl).value;
    KeepsIsHygienic(p, imports);
    RebindsIsTwice(p, imports);
    if Hygienic(p, imports) {
      LiftPreservesMeaning(own, decl, bindings, imports, put, s);
    } else if Plainly(p, imports) && Twice(p) {
      RebindsDiffers(own, decl, bindings, imports, put, s);
    } else {
      forall s, node ensures put(s, node).answer.Ok? {
        assert put(s, node) == PutResult(s + 1, Ok(s));
      }
      FateDecides(own, decl, bindings, imports, put, s);
    }
  }

  // ---------------------------------------------------------------- what can leave the model

  predicate NoneStrays(es: seq<Expr>, scope: Scope) {
    forall i :: 0 <= i < |es| ==> !Eval(es[i], scope).Strays?
  }

  lemma {:induction false} NoneStraysAppend(a: seq<Expr>, b: seq<Expr>, scope: Scope)
    ensures NoneStrays(a + b, scope) <==> NoneStrays(a, scope) && NoneStrays(b, scope)
  {
    if NoneStrays(a + b, scope) {
      forall i | 0 <= i < |a| ensures !Eval(a[i], scope).Strays? { assert (a + b)[i] == a[i]; }
      forall i | 0 <= i < |b| ensures !Eval(b[i], scope).Strays? { assert (a + b)[|a| + i] == b[i]; }
    }
  }

  /** An object literal strays only in an initializer it keeps or in one it overwrites. */
  lemma {:induction false} PropsStay(props: seq<Prop>, scope: Scope)
    requires AllAssignments(props) && "__proto__" !in Keys(props)
    requires NoneStrays(Overridden(props), scope)
    requires forall key :: key in Keys(props) && Lookup(props, key).Some? ==>
               !Eval(Lookup(props, key).value, scope).Strays?
    ensures !EvalProps(props, scope).Strays?
  {
    if props != [] {
      var front, last := props[..|props| - 1], props[|props| - 1];
      var lost := Lookup(front, last.key);
      var extra := if lost.Some? then [lost.value] else [];
      assert Overridden(props) == Overridden(front) + extra;
      NoneStraysAppend(Overridden(front), extra, scope);
      forall key | key in Keys(front) && Lookup(front, key).Some?
        ensures !Eval(Lookup(front, key).value, scope).Strays?
      {
        if key == last.key { assert extra[0] == lost.value; } else { assert Lookup(props, key) == Lookup(front, key); }
      }
      PropsStay(front, scope);
      assert last.key in Keys(props) && Lookup(props, last.key) == Some(last.init);
    }
  }

  lemma {:induction false} KindStays(kind: Expr, scope: Scope)
    requires ParseKind(kind).Ok? && NoneStrays(Overridden(kind.props), scope)
    ensures !Eval(kind, scope).Strays?
  {
    LookupFinds(kind.props, "version");
    LookupFinds(kind.props, "tag");
    PropsStay(kind.props, scope);
  }

  lemma {:induction false} RefStays(el: Expr, binders: seq<string>, scope: Scope, answers: seq<Addr>)
    requires ParseRef(el, binders).Ok? && Holds(scope, binders, answers) && NoneStrays(Overridden(el.props), scope)
    ensures !Eval(el, scope).Strays?
  {
    LookupFinds(el.props, "id");
    LookupFinds(el.props, "expectedTag");
    PropsStay(el.props, scope);
  }

  lemma {:induction false} RefsStay(elements: seq<Expr>, binders: seq<string>, scope: Scope, answers: seq<Addr>)
    requires ParseRefs(elements, binders).Ok? && Holds(scope, binders, answers)
    requires NoneStrays(OverriddenInEntries(elements), scope)
    ensures !EvalAll(elements, scope).Strays?
  {
    if elements != [] {
      var _, _ := ParseRefsCons(elements, binders);
      NoneStraysAppend(Overridden(elements[0].props), OverriddenInEntries(elements[1..]), scope);
      RefStays(elements[0], binders, scope, answers);
      RefsStay(elements[1..], binders, scope, answers);
    }
  }

  /** The helper's name does not reach the declaration's or the generator's own, so what it reads is modelled. */
  predicate HelperKnown(p: Program, names: seq<string>)
    requires p.generator.Function?
  {
    "hex" in names || "hex" in ParamNames(p.generator.params) ||
    (p.generator.self != "hex" && (p.store == "hex" || p.own != "hex"))
  }

  lemma {:induction false} HelperRead(p: Program, names: seq<string>, answers: seq<Addr>)
    requires p.generator.Function? && |answers| <= |names| && Distinct(names) && HelperKnown(p, names)
    ensures var r := Resolve(ScopeAt(p, names, answers), "hex"); !r.Strays? && r != Got(VFunction)
  {
    BoundHolds(names, answers);
    var bound := Bound(names, answers);
    if "hex" in bound { var k :| 0 <= k < |answers| && "hex" == names[k]; }
  }

  lemma {:induction false} PayloadStays(payload: Expr, scope: Scope)
    requires ParsePayload(payload).Ok?
    requires !Resolve(scope, "hex").Strays? && Resolve(scope, "hex") != Got(VFunction)
    ensures !Eval(payload, scope).Strays?
  {
    PayloadCut(payload, scope);
    assert payload.args == [payload.args[0]];
    EvalAllOne(payload.args[0], scope);
  }

  lemma {:induction false} NodeStays(arg: Expr, binders: seq<string>, scope: Scope, answers: seq<Addr>)
    requires ParseNode(arg, binders).Ok? && Holds(scope, binders, answers)
    requires !Resolve(scope, "hex").Strays? && Resolve(scope, "hex") != Got(VFunction)
    requires NoneStrays(NodeOverridden(arg), scope)
    ensures !Eval(arg, scope).Strays?
  {
    var kind, payload, refs := ParsedNodeParts(arg, binders);
    var a, b, c := Overridden(arg.props), Overridden(kind.props), OverriddenInEntries(refs.elements);
    assert NodeOverridden(arg) == a + b + c;
    NoneStraysAppend(a + b, c, scope);
    NoneStraysAppend(a, b, scope);
    assert !Eval(kind, scope).Strays? by { KindStays(kind, scope); }
    assert !Eval(payload, scope).Strays? by { PayloadStays(payload, scope); }
    assert !Eval(refs, scope).Strays? by { RefsStay(refs.elements, binders, scope, answers); }
    PropsStay(arg.props, scope);
  }

  lemma {:induction false} GotMeansNode(arg: Expr, binders: seq<string>, scope: Scope, answers: seq<Addr>)
    requires ParseNode(arg, binders).Ok? && Holds(scope, binders, answers)
    requires PlainPayload(arg) && Eval(arg, scope).Got?
    ensures Resolve(scope, "hex") == Got(VHexHelper) && NodeValue(Eval(arg, scope).value).Some?
  {
    if Resolve(scope, "hex") == Got(VHexHelper) {
      NodeEvaluatesTo(arg, binders, scope, answers);
    } else {
      NodeNeedsHex(arg, binders, scope);
    }
  }

  /** A binding leaves the model only through an initializer it overwrites. */
  lemma {:induction false} BindingStays(p: Program, done: Body, bindings: set<string>, i: nat)
    requires Accepted(p, done, bindings) && i < |done.binders| && HelperKnown(p, done.binders)
    requires !Clean(p, done.binders, i) && PlainPayload(PutArg(p.generator.body[i]))
    requires NoneStrays(NodeOverridden(PutArg(p.generator.body[i])), StaticScope(p, done.binders, i))
    ensures StaticPut(p, done.binders, i).Throws?
  {
    var names, zeros, scope := done.binders, seq(i, _ => 0), StaticScope(p, done.binders, i);
    assert Binds(p.generator.body, done, p.store, bindings, i);
    var arg := BindingParts(p.generator.body[i], names[..i], p.store, bindings, scope);
    AskedKnown(p, names, zeros, arg);
    NotCleanIsBroken(p, names, zeros, bindings);
  }

  lemma {:induction false} NotCleanIsBroken(p: Program, names: seq<string>, zeros: seq<Addr>, bindings: set<string>)
    requires p.generator.Function? && Distinct(names) && |zeros| < |names| <= |p.generator.body|
    requires zeros == seq(|zeros|, _ => 0) && p.generator.body[|zeros|].VarStmt?
    requires ParseBinding(p.generator.body[|zeros|], names[..|zeros|], p.store, bindings).Ok?
    requires !Clean(p, names, |zeros|)
    ensures StaticPut(p, names, |zeros|).Throws? || StaticPut(p, names, |zeros|).Strays?
  {
    StatementPuts(p, names, zeros, bindings);
  }

  lemma {:induction false} ArgumentKnown(p: Program, names: seq<string>, zeros: seq<Addr>, arg: Expr)
    requires p.generator.Function? && Distinct(names) && |zeros| <= |names| && HelperKnown(p, names)
    requires ParseNode(arg, names[..|zeros|]).Ok? && NoneStrays(NodeOverridden(arg), ScopeAt(p, names, zeros))
    ensures !Eval(arg, ScopeAt(p, names, zeros)).Strays?
  {
    HoldsEarlier(p, names, zeros);
    HelperRead(p, names, zeros);
    NodeStays(arg, names[..|zeros|], ScopeAt(p, names, zeros), zeros);
  }

  lemma {:induction false} AskedKnown(p: Program, names: seq<string>, zeros: seq<Addr>, arg: Expr)
    requires p.generator.Function? && Distinct(names) && |zeros| <= |names| && HelperKnown(p, names)
    requires ParseNode(arg, names[..|zeros|]).Ok? && PlainPayload(arg)
    requires NoneStrays(NodeOverridden(arg), ScopeAt(p, names, zeros))
    ensures var scope := ScopeAt(p, names, zeros); !Asked(Resolve(scope, p.store), Eval(arg, scope)).Strays?
  {
    var scope := ScopeAt(p, names, zeros);
    ArgumentKnown(p, names, zeros, arg);
    HoldsEarlier(p, names, zeros);
    NamesClearMeans(p, names, zeros);
    if Resolve(scope, p.store) == Got(VStore) && Eval(arg, scope).Got? {
      GotMeansNode(arg, names[..|zeros|], scope, zeros);
    }
  }

  /** So a declaration that plainly runs its generator leaves the model only through an overwritten
      initializer that does, through a helper's name that the declaration or its generator takes, or through a
      payload called with `?.`. */
  lemma {:induction false} LeavesOnlyByOverwriting(own: string, decl: Expr, bindings: set<string>,
                                                   imports: Imports)
    requires Lift(own, decl, bindings).Lifted? && ProgramOf(own, decl).Some?
    requires var p := ProgramOf(own, decl).value;
             && Plainly(p, imports) && HelperKnown(p, Declared(p.generator.body))
             && forall i :: 0 <= i < |Declared(p.generator.body)| && i < |p.generator.body| ==>
                  PlainPayload(PutArg(p.generator.body[i])) &&
                  NoneStrays(NodeOverridden(PutArg(p.generator.body[i])),
                             StaticScope(p, Declared(p.generator.body), i))
    ensures FateOf(ProgramOf(own, decl).value, imports) != Leaves
  {
    var p, done := AcceptedStart(own, decl, bindings);
    if FateOf(p, imports) == Leaves {
      var fates := BindingFates(p, done.binders);
      var bad := FirstFound(fates);
      assert fates[bad] == BindingFate(p, done.binders, bad);
      BindingStays(p, done, bindings, bad);
    }
  }
}
