/**
  Declarations the recognizer accepts and what becomes of them: one for each way of not meaning its
  instructions.
 */
module LiftWitness {
  import opened Outcomes
  import opened TsAst
  import opened Recognizer
  import opened LiftMeaning
  import opened LiftLaws
  import opened LiftPreserves
  import opened LiftExact
  import opened LiftRoundTrip

  /** One put of an empty node. */
  const ONE_PUT: seq<Instruction> := [Instruction(0, 0, 8, "", [])]

  /** The file imports the library, and nothing under the declaration's name. */
  predicate Usual(imports: Imports) { GEN in imports.runners && "f" !in imports.values }

  /** The names these declarations use may be bound. */
  lemma {:induction false} UsualNames()
    ensures "f" !in RESERVED && "store" !in RESERVED && "Effect" !in RESERVED && "a" !in RESERVED && "" !in RESERVED
  {
  }

  /** The recognizer accepts a binder named after the helper. Such a block hides the helper from its own
      first statement, so the program throws where its one instruction would have been executed. */
  lemma {:induction false} BinderNamedHex<S(!new)>(bindings: set<string>, imports: Imports,
                                                   put: (S, NodeInput) -> PutResult<S>, s: S)
    requires "Effect" in bindings && Usual(imports) && NeverFails(put)
    ensures Named(ONE_PUT, ["hex"])
    ensures var decl := PrintDecl(ONE_PUT, ["hex"], "store");
            && Lift("f", decl, bindings) == Lifted("f", "store", ONE_PUT, true)
            && RunDecl("f", decl, imports, put, s).Threw? && Exec(ONE_PUT, put, s, []).Done?
  {
    assert ["hex"][0] == "hex" && "store" != "hex" && "f" != "hex";
    LiftUndoesPrint("f", ONE_PUT, ["hex"], "store", bindings);
    PrintedRuns("f", ONE_PUT, ["hex"], "store", bindings, imports, put, s);
  }

  /** And a store parameter named after the library, from which `gen` is then read. */
  lemma {:induction false} StoreNamedEffect<S(!new)>(bindings: set<string>, imports: Imports,
                                                     put: (S, NodeInput) -> PutResult<S>, s: S)
    requires "Effect" in bindings && Usual(imports) && NeverFails(put)
    ensures Named(ONE_PUT, ["a"])
    ensures var decl := PrintDecl(ONE_PUT, ["a"], "Effect");
            && Lift("f", decl, bindings) == Lifted("f", "Effect", ONE_PUT, true)
            && RunDecl("f", decl, imports, put, s).Threw? && Exec(ONE_PUT, put, s, []).Done?
  {
    assert "Effect" != "a" && "f" != "hex";
    LiftUndoesPrint("f", ONE_PUT, ["a"], "Effect", bindings);
    PrintedRuns("f", ONE_PUT, ["a"], "Effect", bindings, imports, put, s);
  }

  /** And names that strict code may not bind, for a binder or for the store. Such a program never starts. */
  lemma {:induction false} StrictNames<S(!new)>(bindings: set<string>, imports: Imports,
                                                put: (S, NodeInput) -> PutResult<S>, s: S)
    requires "Effect" in bindings && Usual(imports) && NeverFails(put)
    ensures Named(ONE_PUT, ["eval"]) && Named(ONE_PUT, ["a"]) && Exec(ONE_PUT, put, s, []).Done?
    ensures var decl := PrintDecl(ONE_PUT, ["eval"], "store");
            && Lift("f", decl, bindings) == Lifted("f", "store", ONE_PUT, true)
            && RunDecl("f", decl, imports, put, s).Threw?
    ensures var decl := PrintDecl(ONE_PUT, ["a"], "arguments");
            && Lift("f", decl, bindings) == Lifted("f", "arguments", ONE_PUT, true)
            && RunDecl("f", decl, imports, put, s).Threw?
  {
    assert ["eval"][0] == "eval" && "eval" in RESERVED && "arguments" in RESERVED;
    assert "store" != "eval" && "arguments" != "a";
    LiftUndoesPrint("f", ONE_PUT, ["eval"], "store", bindings);
    PrintedRuns("f", ONE_PUT, ["eval"], "store", bindings, imports, put, s);
    LiftUndoesPrint("f", ONE_PUT, ["a"], "arguments", bindings);
    PrintedRuns("f", ONE_PUT, ["a"], "arguments", bindings, imports, put, s);
  }

  // ---------------------------------------------------------------- overwriting

  function Payload(): Expr { Call(Ident("hex"), [StrLit("")], false) }

  /** A node whose payload was something else first. */
  function TwicePaid(first: Expr): Expr {
    Object([Assignment("payload", first), Assignment("kind", PrintKind(0, 8)), Assignment("payload", Payload()),
            Assignment("refs", ArrayLit([]))])
  }

  function PutOf(kind: DeclKind, name: string, node: Expr): Stmt {
    VarStmt(kind, [Declarator(NameBinder(name), Some(Yield(true, Some(
              Call(PropAccess(Ident("store"), "put", false), [node], false)))))])
  }

  function DeclOf(body: seq<Stmt>): Expr {
    Arrow(false, [IdentParam("store", Plain)],
          ExprBody(Call(PropAccess(Ident("Effect"), "gen", false), [Function(false, true, "", [], body)], false)))
  }

  function AsProgram(body: seq<Stmt>): Program {
    Program("f", "store", false, false, "Effect", GEN, 1, Function(false, true, "", [], body))
  }

  lemma {:induction false} DeclTakenApart(body: seq<Stmt>, bindings: set<string>)
    requires "Effect" in bindings
    ensures ProgramOf("f", DeclOf(body)) == Some(AsProgram(body))
    ensures Unwrap(DeclOf(body), bindings) == Ok(Frame("store", Function(false, true, "", [], body)))
  {
    var callee := PropAccess(Ident("Effect"), "gen", false);
    assert Chain(callee) == Some(["Effect"] + ["gen"]) && !Optional(callee);
    assert ["Effect"] + ["gen"] == GEN && GEN[0] == "Effect";
    var spine := DeclOf(body).arrowBody.result;
    assert spine.args == [Function(false, true, "", [], body)];
    assert ProgramOf("f", DeclOf(body)) == SpineOf(Program("f", "store", false, false, "", [], 0, OtherExpr), spine);
  }

  /** Four assignments of which the third overwrites the first. */
  lemma {:induction false} FourKeys(a: Prop, b: Prop, c: Prop, d: Prop)
    requires a.Assignment? && b.Assignment? && c.Assignment? && d.Assignment?
    requires a.key == c.key && a.key != b.key && a.key != d.key && b.key != d.key
    ensures Keys([a, b, c, d]) == {a.key, b.key, d.key} && Overridden([a, b, c, d]) == [a.init]
    ensures Lookup([a, b, c, d], b.key) == Some(b.init) && Lookup([a, b, c, d], c.key) == Some(c.init)
    ensures Lookup([a, b, c, d], d.key) == Some(d.init)
  {
    TwoKeys(a, b);
    TwoKept(a, b);
    assert [a, b, c][..2] == [a, b] && [a, b, c, d][..3] == [a, b, c];
    assert Keys([a, b, c]) == {a.key, b.key};
    LookupFinds([a, b, c], d.key);
    assert Overridden([a, b, c]) == [] + [a.init];
    assert Overridden([a, b, c, d]) == [a.init] + [];
  }

  lemma {:induction false} TwicePaidParses(first: Expr, binders: seq<string>)
    ensures ParseNode(TwicePaid(first), binders) == Ok(Fields(0, 8, "", []))
    ensures NodeOverridden(TwicePaid(first)) == [first]
  {
    FourKeys(Assignment("payload", first), Assignment("kind", PrintKind(0, 8)), Assignment("payload", Payload()),
             Assignment("refs", ArrayLit([])));
    TwoKept(Assignment("version", PrintNat(0)), Assignment("tag", PrintNat(8)));
    ParsePrintedKind(0, 8);
    assert ParsePayload(Payload()) == Ok("");
    assert ParseRefs([], binders) == Ok([]);
  }

  /** A payload that gives no value ends the literal it is overwritten in. */
  lemma {:induction false} TwicePaidStops(first: Expr, scope: Scope)
    requires !Eval(first, scope).Got?
    ensures SameEnd(Eval(TwicePaid(first), scope), Eval(first, scope))
  {
    var props := TwicePaid(first).props;
    var a := Assignment("payload", first);
    assert props[..1] == [a] && [a][..0] == [];
    assert SameEnd(EvalProps([a], scope), Eval(first, scope));
    StoppedEarly(props, 1, scope);
  }

  lemma {:induction false} PutOfParses(kind: DeclKind, name: string, node: Expr, f: Fields, binders: seq<string>,
                                       bindings: set<string>)
    requires ParseNode(node, binders) == Ok(f) && "store" !in binders
    ensures ParseBinding(PutOf(kind, name, node), binders, "store", bindings) == Ok(Binding(name, f))
  {
    var callee := StorePutChain("store");
    var op := PutOf(kind, name, node).decls[0].initializer.value.yielded.value;
    assert op.args == [node];
  }

  /** A body whose one put overwrites an initializer. */
  function OverwritingBody(first: Expr): seq<Stmt> {
    [PutOf(Lexical, "a", TwicePaid(first)), ReturnStmt(Some(ArrayLit([Ident("a")])))]
  }

  /** What the first binding's literal can read. */
  function FirstNames(): Scope { Scope([], ["a"], {}, "", "store", false, "f", map[]) }

  function FateOfReading(r: Reading<Value>): Fate {
    match r case Got(_) => Keeps case Throws => Breaks case Strays => Leaves
  }

  /** An overwritten initializer that is accepted, with its fate. */
  ghost predicate Sorted(first: Expr, bindings: set<string>, imports: Imports, fate: Fate) {
    && Lift("f", DeclOf(OverwritingBody(first)), bindings) == Lifted("f", "store", ONE_PUT, true)
    && ProgramOf("f", DeclOf(OverwritingBody(first))) == Some(AsProgram(OverwritingBody(first)))
    && FateOf(AsProgram(OverwritingBody(first)), imports) == fate
  }

  /** Whatever a later key overwrites is accepted unread, and decides what becomes of the declaration: it
      keeps its meaning if that initializer gives a value, as `true` does, throws if it throws, and may do
      anything if it is not modelled, as with a further `yield*`. */
  lemma {:induction false} OverwrittenDecides(first: Expr, bindings: set<string>, imports: Imports)
    requires "Effect" in bindings && Usual(imports)
    ensures Sorted(first, bindings, imports, FateOfReading(Eval(first, FirstNames())))
  {
    OverwritingAccepted(first, bindings);
    OverwrittenFate(first, OverwritingBody(first), imports);
  }

  lemma {:induction false} OverwritingAccepted(first: Expr, bindings: set<string>)
    requires "Effect" in bindings
    ensures Lift("f", DeclOf(OverwritingBody(first)), bindings) == Lifted("f", "store", ONE_PUT, true)
    ensures ProgramOf("f", DeclOf(OverwritingBody(first))) == Some(AsProgram(OverwritingBody(first)))
  {
    OverwritingShaped(first, bindings);
    ShapedLifted(OverwritingBody(first), Body(["a"], ONE_PUT), bindings);
    DeclTakenApart(OverwritingBody(first), bindings);
  }

  lemma {:induction false} OverwritingShaped(first: Expr, bindings: set<string>)
    ensures Shaped(OverwritingBody(first), Body(["a"], ONE_PUT), "store", bindings)
  {
    var body, done := OverwritingBody(first), Body(["a"], ONE_PUT);
    TwicePaidParses(first, []);
    PutOfParses(Lexical, "a", TwicePaid(first), Fields(0, 8, "", []), [], bindings);
    assert ["a"][..0] == [];
    assert Binds(body, done, "store", bindings, 0);
    assert ParseReturn(body[1], ["a"]).None?;
  }

  lemma {:induction false} ShapedLifted(body: seq<Stmt>, done: Body, bindings: set<string>)
    requires Shaped(body, done, "store", bindings) && "Effect" in bindings
    ensures Lift("f", DeclOf(body), bindings) == Lifted("f", "store", done.instructions, done.instructions != [])
  {
    ShapedAccepted(body, 0, done, "store", bindings);
    assert done.binders[..0] == [] && done.instructions[..0] == [];
    DeclTakenApart(body, bindings);
  }

  lemma {:induction false} OptionalReads(args: seq<Expr>, more: seq<Expr>, scope: Scope)
    ensures Eval(Call(NullLit, args, true), scope) == Got(VUndefined)
    ensures Eval(Call(Call(NullLit, args, true), more, false), scope) == Got(VUndefined)
    ensures Eval(Call(Paren(Call(NullLit, args, true)), [], false), scope) == Throws
  {
    var cut := Call(NullLit, args, true);
    assert Eval(NullLit, scope) == Got(VNull);
    assert Cut(cut, scope) && Cut(Call(cut, more, false), scope);
    assert !Cut(Paren(cut), scope) && Eval(Paren(cut), scope) == Got(VUndefined);
  }

  /** An overwritten `null?.()`, and any further call on what it answers, gives `undefined`: nothing of an
      optional chain past a nullish value runs, and the declaration keeps its meaning. In parentheses the
      chain has ended, and what it answered is called in vain. */
  lemma {:induction false} OptionalCalls(args: seq<Expr>, more: seq<Expr>, bindings: set<string>, imports: Imports)
    requires "Effect" in bindings && Usual(imports)
    ensures Sorted(Call(NullLit, args, true), bindings, imports, Keeps)
    ensures Sorted(Call(Call(NullLit, args, true), more, false), bindings, imports, Keeps)
    ensures Sorted(Call(Paren(Call(NullLit, args, true)), [], false), bindings, imports, Breaks)
  {
    OptionalReads(args, more, FirstNames());
    OverwrittenDecides(Call(NullLit, args, true), bindings, imports);
    OverwrittenDecides(Call(Call(NullLit, args, true), more, false), bindings, imports);
    OverwrittenDecides(Call(Paren(Call(NullLit, args, true)), [], false), bindings, imports);
  }

  lemma {:induction false} DeclaresOnce(first: Expr, body: seq<Stmt>)
    requires body == OverwritingBody(first)
    ensures Declared(body) == ["a"] && !EarlyError(AsProgram(body))
  {
    assert DeclaredFrom(body, 2) == [] && DeclaredFrom(body, 1) == [];
    NothingMisnamed(body);
    assert DeclaredBy(body[1]) == [];
  }

  /** A body that declares nothing but `a` binds no name it may not bind. */
  lemma {:induction false} NothingMisnamed(body: seq<Stmt>)
    requires forall i :: 0 <= i < |Declared(body)| ==> Declared(body)[i] == "a"
    ensures ParamNames(AsProgram(body).generator.params) == []
    ensures EarlyError(AsProgram(body)) <==> Redeclares([], body)
  {
    UsualNames();
    assert BoundNames(AsProgram(body)) == ["f", "Effect", "store", ""] + Declared(body);
  }

  lemma {:induction false} CallsPlainly(body: seq<Stmt>, imports: Imports)
    requires Usual(imports) && forall i :: 0 <= i < |body| ==> body[i].VarStmt? ==> body[i].kind != Marked
    ensures Plainly(AsProgram(body), imports) && ParamNames(AsProgram(body).generator.params) == []
  {
  }

  lemma {:induction false} OneBindingFate(p: Program, imports: Imports)
    requires Plainly(p, imports) && !EarlyError(p)
    requires |Declared(p.generator.body)| == 1 && p.generator.body != []
    ensures FateOf(p, imports) == BindingFate(p, Declared(p.generator.body), 0)
  {
    DeclaresAtMost(p.generator.body, 0);
    assert Distinct(Declared(p.generator.body));
    var fates := BindingFates(p, Declared(p.generator.body));
    assert |fates| == 1 && fates[0] == BindingFate(p, Declared(p.generator.body), 0);
    var bad := FirstFound(fates);
  }

  lemma {:induction false} OverwrittenFate(first: Expr, body: seq<Stmt>, imports: Imports)
    requires Usual(imports)
    requires body == OverwritingBody(first)
    ensures FateOf(AsProgram(body), imports) ==
            FateOfReading(Eval(first, FirstNames()))
  {
    DeclaresOnce(first, body);
    CallsPlainly(body, imports);
    OneBindingFate(AsProgram(body), imports);
    OverwrittenBinding(first, body);
  }

  lemma {:induction false} OverwrittenBinding(first: Expr, body: seq<Stmt>)
    requires body == OverwritingBody(first)
    ensures BindingFate(AsProgram(body), ["a"], 0) ==
            FateOfReading(Eval(first, FirstNames()))
  {
    var scope := FirstNames();
    FirstScope(body);
    PutOfAsks(first, scope);
    assert AllEvaluate([first], scope) <==> Eval(first, scope).Got? by { assert [first][0] == first; }
    if !Eval(first, scope).Got? { TwicePaidStops(first, scope); }
  }

  lemma {:induction false} PutOfAsks(first: Expr, scope: Scope)
    ensures var st := PutOf(Lexical, "a", TwicePaid(first));
            && NodeOverridden(PutArg(st)) == [first]
            && PutArgument(st, scope) == Asked(Resolve(scope, "store"), Eval(TwicePaid(first), scope))
  {
    TwicePaidParses(first, []);
    PutOfParses(Lexical, "a", TwicePaid(first), Fields(0, 8, "", []), [], {});
    var arg := BindingParts(PutOf(Lexical, "a", TwicePaid(first)), [], "store", {}, scope);
    assert arg == TwicePaid(first);
  }

  lemma {:induction false} FirstScope(body: seq<Stmt>)
    requires |body| == 2 && DeclaredBy(body[1]) == [] && DeclaresLexically(body[0])
    ensures StaticScope(AsProgram(body), ["a"], 0) == FirstNames()
    ensures NamesClear(AsProgram(body), ["a"])
  {
    assert ParamNames(AsProgram(body).generator.params) == [] && HoistedNames(body) == {};
  }

  // ---------------------------------------------------------------- declaring twice

  function Node(tag: nat): Expr { PrintNode(Fields(0, tag, "", []), []) }

  lemma {:induction false} NodeParses(tag: nat, binders: seq<string>)
    requires tag < NAT_LIMIT
    ensures ParseNode(Node(tag), binders) == Ok(Fields(0, tag, "", []))
  {
    ParsePrintedNode(Fields(0, tag, "", []), [], 0);
    var payload := Call(Ident("hex"), [StrLit("")], false);
    assert PrintRefs([], []) == [];
    ThreeKeys(Assignment("kind", PrintKind(0, tag)), Assignment("payload", payload), Assignment("refs", ArrayLit([])));
    assert ParseRefs([], binders) == Ok([]);
  }

  function TwiceBody(): seq<Stmt> {
    [PutOf(Hoisted, "a", Node(8)), PutOf(Hoisted, "a", Node(9)),
     ReturnStmt(Some(ArrayLit([Ident("a"), Ident("a")])))]
  }

  lemma {:induction false} TwiceShaped(bindings: set<string>) returns (done: Body)
    ensures done == Body(["a", "a"], [Instruction(0, 0, 8, "", []), Instruction(1, 0, 9, "", [])])
    ensures Shaped(TwiceBody(), done, "store", bindings)
  {
    done := Body(["a", "a"], [Instruction(0, 0, 8, "", []), Instruction(1, 0, 9, "", [])]);
    assert done.binders[..0] == [] && done.binders[..1] == ["a"];
    assert Binds(TwiceBody(), done, "store", bindings, 0) by {
      NodeParses(8, []);
      PutOfParses(Hoisted, "a", Node(8), Fields(0, 8, "", []), [], bindings);
    }
    assert Binds(TwiceBody(), done, "store", bindings, 1) by {
      NodeParses(9, ["a"]);
      PutOfParses(Hoisted, "a", Node(9), Fields(0, 9, "", []), ["a"], bindings);
    }
    assert ParseReturn(TwiceBody()[2], done.binders).None?;
  }

  /** The recognizer accepts one name for two answers when `var` declares it; the program returns one of
      them twice. */
  lemma {:induction false} VarTwice(bindings: set<string>, imports: Imports)
    requires "Effect" in bindings && Usual(imports)
    ensures Lift("f", DeclOf(TwiceBody()), bindings) ==
            Lifted("f", "store", [Instruction(0, 0, 8, "", []), Instruction(1, 0, 9, "", [])], true)
    ensures ProgramOf("f", DeclOf(TwiceBody())) == Some(AsProgram(TwiceBody()))
    ensures FateOf(AsProgram(TwiceBody()), imports) == Rebinds
  {
    var done := TwiceShaped(bindings);
    ShapedLifted(TwiceBody(), done, bindings);
    DeclTakenApart(TwiceBody(), bindings);
    ShapedDeclares(TwiceBody(), 0, done, "store", bindings);
    TwiceRebinds(imports, done);
  }

  lemma {:induction false} TwiceRebinds(imports: Imports, done: Body)
    requires Usual(imports) && DeclaredFrom(TwiceBody(), 0) == done.binders[0..] && done.binders == ["a", "a"]
    ensures FateOf(AsProgram(TwiceBody()), imports) == Rebinds
  {
    TwiceDeclares(done);
    CallsPlainly(TwiceBody(), imports);
    RebindsIsTwice(AsProgram(TwiceBody()), imports);
  }

  lemma {:induction false} TwiceDeclares(done: Body)
    requires DeclaredFrom(TwiceBody(), 0) == done.binders[0..] && done.binders == ["a", "a"]
    ensures Twice(AsProgram(TwiceBody()))
  {
    NothingLexical();
    HoistedTwice(TwiceBody());
  }

  lemma {:induction false} NothingLexical()
    ensures forall i :: 0 <= i < |TwiceBody()| ==> !DeclaresLexically(TwiceBody()[i])
  {
  }

  lemma {:induction false} HoistedTwice(body: seq<Stmt>)
    requires Declared(body) == ["a", "a"] && forall i :: 0 <= i < |body| ==> !DeclaresLexically(body[i])
    ensures Twice(AsProgram(body))
  {
    NothingMisnamed(body);
    assert Declared(body)[0] == Declared(body)[1];
  }
}
