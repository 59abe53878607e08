/**
  Lifting undoes printing: a straight-line program written out in the emitted shape is recognized as exactly
  itself, and with fresh names it runs as itself too.
  Source: experiments/lift-harness/examples/blobTree32.ts (the shape), experiments/lift-harness/src/lift.ts.
 */
module LiftRoundTrip {
  import opened Outcomes
  import opened Decimal
  import opened TsAst
  import opened Recognizer
  import opened LiftMeaning
  import opened LiftLaws
  import opened LiftPreserves
  import opened LiftExact

  function PrintNat(n: nat): Expr { Numeric(ToDecimal(n)) }

  function PrintRef(r: Ref, names: seq<string>): Expr
    requires r.source < |names|
  {
    Object([Assignment("id", Ident(names[r.source])), Assignment("expectedTag", PrintNat(r.expectedTag))])
  }

  function PrintRefs(refs: seq<Ref>, names: seq<string>): seq<Expr>
    requires forall k :: 0 <= k < |refs| ==> refs[k].source < |names|
  {
    if refs == [] then [] else [PrintRef(refs[0], names)] + PrintRefs(refs[1..], names)
  }

  function PrintKind(version: nat, tag: nat): Expr {
    Object([Assignment("version", PrintNat(version)), Assignment("tag", PrintNat(tag))])
  }

  function PrintNode(f: Fields, names: seq<string>): Expr
    requires forall k :: 0 <= k < |f.refs| ==> f.refs[k].source < |names|
  {
    Object([Assignment("kind", PrintKind(f.version, f.tag)),
            Assignment("payload", Call(Ident("hex"), [StrLit(f.payloadHex)], false)),
            Assignment("refs", ArrayLit(PrintRefs(f.refs, names)))])
  }

  function FieldsOf(instr: Instruction): Fields { Fields(instr.version, instr.tag, instr.payloadHex, instr.refs) }

  function PutCall(instr: Instruction, names: seq<string>, store: string): Expr
    requires forall k :: 0 <= k < |instr.refs| ==> instr.refs[k].source < |names|
  {
    Call(PropAccess(Ident(store), "put", false), [PrintNode(FieldsOf(instr), names)], false)
  }

  function PrintPut(instr: Instruction, names: seq<string>, store: string): Stmt
    requires instr.index < |names| && forall k :: 0 <= k < |instr.refs| ==> instr.refs[k].source < |names|
  {
    VarStmt(Lexical,
            [Declarator(NameBinder(names[instr.index]), Some(Yield(true, Some(PutCall(instr, names, store)))))])
  }

  function Idents(names: seq<string>): seq<Expr> {
    seq(|names|, i requires 0 <= i < |names| => Ident(names[i]))
  }

  /** Every index and every reference names a binder. */
  ghost predicate Named(instructions: seq<Instruction>, names: seq<string>) {
    |instructions| == |names| && StraightLine(instructions)
  }

  function PrintBody(instructions: seq<Instruction>, names: seq<string>, store: string): seq<Stmt>
    requires Named(instructions, names)
  {
    seq(|instructions|, i requires 0 <= i < |instructions| => PrintPut(instructions[i], names, store)) +
    [ReturnStmt(Some(ArrayLit(Idents(names))))]
  }

  function PrintGenerator(instructions: seq<Instruction>, names: seq<string>, store: string): Expr
    requires Named(instructions, names)
  {
    Function(false, true, "", [], PrintBody(instructions, names, store))
  }

  function PrintDecl(instructions: seq<Instruction>, names: seq<string>, store: string): Expr
    requires Named(instructions, names)
  {
    Arrow(false, [IdentParam(store, Plain)],
          ExprBody(Call(PropAccess(Ident("Effect"), "gen", false), [PrintGenerator(instructions, names, store)],
                        false)))
  }

  // ---------------------------------------------------------------- parsing what was printed

  lemma {:induction false} IndexOfDistinct(names: seq<string>, j: nat, i: nat)
    requires j < i <= |names| && Distinct(names)
    ensures IndexOf(names[..i], names[j]) == Some(j)
  {
    var found := IndexOf(names[..i], names[j]);
    assert names[..i][j] == names[j];
    assert found.Some? && names[..i][found.value] == names[found.value];
  }

  lemma {:induction false} ParsePrintedNat(n: nat)
    requires n < NAT_LIMIT
    ensures IntOf(PrintNat(n)) == Ok(n)
  {
    ReadPrinted(n);
  }

  /** An object literal of two assignments under different keys. */
  lemma {:induction false} TwoKeys(a: Prop, b: Prop)
    requires a.Assignment? && b.Assignment? && a.key != b.key
    ensures Keys([a, b]) == {a.key, b.key}
    ensures Lookup([a, b], a.key) == Some(a.init) && Lookup([a, b], b.key) == Some(b.init)
  {
    assert [a, b][..1] == [a] && [a][..0] == [];
    assert Keys([a]) == {a.key};
  }

  lemma {:induction false} ParsePrintedRef(r: Ref, names: seq<string>, i: nat)
    requires r.source < i <= |names| && Distinct(names) && r.expectedTag < NAT_LIMIT
    ensures ParseRef(PrintRef(r, names), names[..i]) == Ok(r)
  {
    TwoKeys(Assignment("id", Ident(names[r.source])), Assignment("expectedTag", PrintNat(r.expectedTag)));
    IndexOfDistinct(names, r.source, i);
    ParsePrintedNat(r.expectedTag);
  }

  lemma {:induction false} ParsePrintedRefs(refs: seq<Ref>, names: seq<string>, i: nat)
    requires i <= |names| && Distinct(names)
    requires forall k :: 0 <= k < |refs| ==> refs[k].source < i && refs[k].expectedTag < NAT_LIMIT
    ensures ParseRefs(PrintRefs(refs, names), names[..i]) == Ok(refs)
  {
    if refs != [] {
      ParsePrintedRef(refs[0], names, i);
      ParsePrintedRefs(refs[1..], names, i);
      var printed := PrintRefs(refs, names);
      assert printed[0] == PrintRef(refs[0], names) && printed[1..] == PrintRefs(refs[1..], names);
      assert refs == [refs[0]] + refs[1..];
    }
  }

  lemma {:induction false} ParsePrintedKind(version: nat, tag: nat)
    requires version < NAT_LIMIT && tag < NAT_LIMIT
    ensures ParseKind(PrintKind(version, tag)) == Ok(Kind(version, tag))
  {
    TwoKeys(Assignment("version", PrintNat(version)), Assignment("tag", PrintNat(tag)));
    ParsePrintedNat(version);
    ParsePrintedNat(tag);
  }

  lemma {:induction false} ThreeKeys(a: Prop, b: Prop, c: Prop)
    requires a.Assignment? && b.Assignment? && c.Assignment? && a.key != b.key && a.key != c.key && b.key != c.key
    ensures Keys([a, b, c]) == {a.key, b.key, c.key}
    ensures Lookup([a, b, c], a.key) == Some(a.init) && Lookup([a, b, c], b.key) == Some(b.init)
    ensures Lookup([a, b, c], c.key) == Some(c.init)
  {
    assert [a, b, c][..2] == [a, b];
    TwoKeys(a, b);
  }

  lemma {:induction false} ParsePrintedNode(f: Fields, names: seq<string>, i: nat)
    requires i <= |names| && Distinct(names)
    requires f.version < NAT_LIMIT && f.tag < NAT_LIMIT && IsPayloadHex(f.payloadHex)
    requires forall k :: 0 <= k < |f.refs| ==> f.refs[k].source < i && f.refs[k].expectedTag < NAT_LIMIT
    ensures ParseNode(PrintNode(f, names), names[..i]) == Ok(f)
  {
    var payload := Call(Ident("hex"), [StrLit(f.payloadHex)], false);
    ThreeKeys(Assignment("kind", PrintKind(f.version, f.tag)), Assignment("payload", payload),
              Assignment("refs", ArrayLit(PrintRefs(f.refs, names))));
    ParsePrintedKind(f.version, f.tag);
    ParsePrintedRefs(f.refs, names, i);
    assert ParsePayload(payload) == Ok(f.payloadHex);
  }

  lemma {:induction false} StorePutChain(store: string) returns (callee: Expr)
    ensures callee == PropAccess(Ident(store), "put", false)
    ensures !Optional(callee) && Chain(callee).Some? && |Chain(callee).value| == 2
    ensures Chain(callee).value[0] == store && Chain(callee).value[1] == "put"
  {
    callee := PropAccess(Ident(store), "put", false);
    assert Chain(callee) == Some([store] + ["put"]);
  }

  lemma {:induction false} ParsePrintedPut(instructions: seq<Instruction>, names: seq<string>, store: string,
                                           bindings: set<string>, i: nat)
    requires Named(instructions, names) && Distinct(names) && store !in names && i < |names|
    ensures ParseBinding(PrintPut(instructions[i], names, store), names[..i], store, bindings) ==
            Ok(Binding(names[i], FieldsOf(instructions[i])))
  {
    var callee := StorePutChain(store);
    ParsePrintedNode(FieldsOf(instructions[i]), names, i);
    assert PutCall(instructions[i], names, store).args == [PrintNode(FieldsOf(instructions[i]), names)];
  }

  /** Lifting undoes printing. */
  lemma {:induction false} LiftUndoesPrint(name: string, instructions: seq<Instruction>, names: seq<string>,
                                           store: string,
                        bindings: set<string>)
    requires Named(instructions, names) && Distinct(names) && store !in names && "Effect" in bindings
    ensures Unwrap(PrintDecl(instructions, names, store), bindings) ==
            Ok(Frame(store, PrintGenerator(instructions, names, store)))
    ensures Lift(name, PrintDecl(instructions, names, store), bindings) ==
            Lifted(name, store, instructions, instructions != [])
  {
    PrintedUnwraps(instructions, names, store, bindings);
    PrintedShaped(instructions, names, store, bindings);
    var stmts, done := PrintBody(instructions, names, store), Body(names, instructions);
    ShapedAccepted(stmts, 0, done, store, bindings);
    assert names[..0] == [] && instructions[..0] == [];
  }

  lemma {:induction false} PrintedUnwraps(instructions: seq<Instruction>, names: seq<string>, store: string,
                                          bindings: set<string>)
    requires Named(instructions, names) && "Effect" in bindings
    ensures Unwrap(PrintDecl(instructions, names, store), bindings) ==
            Ok(Frame(store, PrintGenerator(instructions, names, store)))
  {
    var callee := PropAccess(Ident("Effect"), "gen", false);
    assert Chain(callee) == Some(["Effect"] + ["gen"]) && !Optional(callee);
    var parts := Chain(callee).value;
    assert parts[0] == "Effect" && parts[|parts| - 1] == "gen";
  }

  lemma {:induction false} PrintedShaped(instructions: seq<Instruction>, names: seq<string>, store: string,
                                         bindings: set<string>)
    requires Named(instructions, names) && Distinct(names) && store !in names
    ensures Shaped(PrintBody(instructions, names, store), Body(names, instructions), store, bindings)
  {
    var stmts, done := PrintBody(instructions, names, store), Body(names, instructions);
    forall i | 0 <= i < |names| ensures Binds(stmts, done, store, bindings, i) {
      ParsePrintedPut(instructions, names, store, bindings, i);
    }
    assert ParseReturn(stmts[|names|], names).None?;
  }

  /** The chain a printed declaration calls. */
  const GEN: seq<string> := ["Effect", "gen"]

  /** A printed declaration, taken apart. */
  function PrintedAs(own: string, instructions: seq<Instruction>, names: seq<string>, store: string): Program
    requires Named(instructions, names)
  {
    Program(own, store, false, false, "Effect", GEN, 1, PrintGenerator(instructions, names, store))
  }

  lemma {:induction false} PrintedProgram(own: string, instructions: seq<Instruction>, names: seq<string>,
                                          store: string)
    requires Named(instructions, names)
    ensures ProgramOf(own, PrintDecl(instructions, names, store)) ==
            Some(PrintedAs(own, instructions, names, store))
  {
    var callee := PropAccess(Ident("Effect"), "gen", false);
    assert Chain(callee) == Some(["Effect"] + ["gen"]);
    assert ["Effect"] + ["gen"] == GEN && GEN[0] == "Effect";
    var spine := PrintDecl(instructions, names, store).arrowBody.result;
    assert spine.args == [PrintGenerator(instructions, names, store)];
    assert ProgramOf(own, PrintDecl(instructions, names, store)) ==
           SpineOf(Program(own, store, false, false, "", [], 0, OtherExpr), spine);
  }

  lemma {:induction false} PrintedDeclares(instructions: seq<Instruction>, names: seq<string>, store: string)
    requires Named(instructions, names) && Distinct(names) && store !in names
    ensures Declared(PrintBody(instructions, names, store)) == names
    ensures !Redeclares([], PrintBody(instructions, names, store))
  {
    PrintedShaped(instructions, names, store, {});
    ShapedDeclares(PrintBody(instructions, names, store), 0, Body(names, instructions), store, {});
    assert names[0..] == names;
    PrintedOnce(instructions, names, store);
  }

  lemma {:induction false} PrintedOnce(instructions: seq<Instruction>, names: seq<string>, store: string)
    requires Named(instructions, names) && Distinct(names)
    ensures !Redeclares([], PrintBody(instructions, names, store))
  {
    var stmts := PrintBody(instructions, names, store);
    forall i, j | 0 <= i < |stmts| && 0 <= j < |stmts| && i != j && DeclaresLexically(stmts[i])
      ensures DeclaredBy(stmts[i]) != DeclaredBy(stmts[j])
    {
      if j < |names| { assert DeclaredBy(stmts[i]) == [names[i]] && DeclaredBy(stmts[j]) == [names[j]]; }
    }
  }

  lemma {:induction false} PrintedPlainly(own: string, instructions: seq<Instruction>, names: seq<string>,
                                          store: string, imports: Imports)
    requires Named(instructions, names) && GEN in imports.runners && store != "Effect"
    requires own != "Effect" && own !in imports.values
    ensures Plainly(PrintedAs(own, instructions, names, store), imports)
    ensures ParamNames(PrintGenerator(instructions, names, store).params) == []
  {
  }

  lemma {:induction false} PrintedOverwritesNothing(own: string, instructions: seq<Instruction>, names: seq<string>,
                                                    store: string, i: nat)
    requires Named(instructions, names) && i < |names|
    ensures NodeOverridden(PutArg(PrintBody(instructions, names, store)[i])) == []
    ensures StatementHygienic(PrintedAs(own, instructions, names, store), names, i)
  {
    NothingOverridden(FieldsOf(instructions[i]), names);
    var st := PrintBody(instructions, names, store)[i];
    assert st == PrintPut(instructions[i], names, store);
    assert PutArg(st) == PrintNode(FieldsOf(instructions[i]), names);
  }

  /** A printed program hides what it uses: the library under its own name or its store's, or, if it puts
      anything, the helper or the store itself. Or its own name is taken by another import. */
  predicate Hides(own: string, names: seq<string>, store: string, imports: Imports) {
    own == "Effect" || own in imports.values || store == "Effect" ||
    (names != [] && (store in {"", "hex"} || "hex" in names))
  }

  /** It binds a name that may not be bound. */
  predicate Misnames(own: string, names: seq<string>, store: string) {
    own in RESERVED || store in RESERVED || exists i :: 0 <= i < |names| && names[i] in RESERVED
  }

  lemma {:induction false} PrintedEarlyError(own: string, instructions: seq<Instruction>, names: seq<string>,
                                             store: string)
    requires Named(instructions, names) && Distinct(names) && store !in names
    ensures EarlyError(PrintedAs(own, instructions, names, store)) <==> Misnames(own, names, store)
  {
    var p := PrintedAs(own, instructions, names, store);
    PrintedDeclares(instructions, names, store);
    assert ParamNames(p.generator.params) == [];
    assert "Effect" !in RESERVED && "" !in RESERVED;
    var head := [own, "Effect", store, ""];
    assert BoundNames(p) == head + names;
    assert head[0] == own && head[2] == store;
    if Misnames(own, names, store) {
      var i :| own in RESERVED || store in RESERVED || (0 <= i < |names| && names[i] in RESERVED);
      assert (head + names)[0] == own && (head + names)[2] == store;
      if 0 <= i < |names| { assert (head + names)[4 + i] == names[i]; }
    }
  }

  lemma {:induction false} PrintedHygienic(own: string, instructions: seq<Instruction>, names: seq<string>,
                                           store: string, imports: Imports)
    requires Named(instructions, names) && Distinct(names) && store !in names && GEN in imports.runners
    requires !Hides(own, names, store, imports) && !Misnames(own, names, store) && (own != "hex" || names == [])
    ensures Hygienic(PrintedAs(own, instructions, names, store), imports)
  {
    PrintedDeclares(instructions, names, store);
    PrintedPlainly(own, instructions, names, store, imports);
    PrintedEarlyError(own, instructions, names, store);
    forall i | 0 <= i < |names| ensures StatementHygienic(PrintedAs(own, instructions, names, store), names, i) {
      PrintedOverwritesNothing(own, instructions, names, store, i);
    }
  }

  /** What is hidden is missed by the first binding, which throws; what is misnamed never starts. */
  lemma {:induction false} HiddenBreaks(own: string, instructions: seq<Instruction>, names: seq<string>,
                                        store: string, imports: Imports)
    requires Named(instructions, names) && Distinct(names) && store !in names && GEN in imports.runners
    requires Hides(own, names, store, imports) || Misnames(own, names, store)
    ensures FateOf(PrintedAs(own, instructions, names, store), imports) == Breaks
  {
    if own != "Effect" && own !in imports.values && store != "Effect" {
      PrintedDeclares(instructions, names, store);
      PrintedPlainly(own, instructions, names, store, imports);
      PrintedEarlyError(own, instructions, names, store);
      if !Misnames(own, names, store) { HiddenFirst(own, instructions, names, store); }
    }
  }

  lemma {:induction false} HiddenFirst(own: string, instructions: seq<Instruction>, names: seq<string>, store: string)
    requires Named(instructions, names) && Distinct(names) && store !in names && names != []
    requires store in {"", "hex"} || "hex" in names
    ensures FirstFate(BindingFates(PrintedAs(own, instructions, names, store), names)) == Breaks
  {
    var p, done := PrintedAs(own, instructions, names, store), Body(names, instructions);
    PrintedShaped(instructions, names, store, {});
    PrintedOverwritesNothing(own, instructions, names, store, 0);
    if store == "" {
      assert Binds(p.generator.body, done, store, {}, 0);
      var arg := BindingParts(p.generator.body[0], names[..0], store, {}, StaticScope(p, names, 0));
    } else {
      BindingStays(p, done, {}, 0);
    }
    assert BindingFates(p, names)[0] == BindingFate(p, names, 0) == Breaks;
  }

  lemma {:induction false} StoppedEarly(props: seq<Prop>, n: nat, scope: Scope)
    requires n <= |props| && !EvalProps(props[..n], scope).Got?
    ensures EvalProps(props, scope) == EvalProps(props[..n], scope)
  {
    if n == |props| {
      assert props[..n] == props;
    } else {
      assert props[..|props| - 1][..n] == props[..n];
      StoppedEarly(props[..|props| - 1], n, scope);
    }
  }

  /** A printed node strays where its helper does. */
  lemma {:induction false} HelperStrays(f: Fields, names: seq<string>, scope: Scope)
    requires forall k :: 0 <= k < |f.refs| ==> f.refs[k].source < |names|
    requires f.version < NAT_LIMIT && f.tag < NAT_LIMIT && IsPayloadHex(f.payloadHex)
    requires Resolve(scope, "hex").Strays?
    ensures Eval(PrintNode(f, names), scope).Strays?
  {
    var kind := PrintKind(f.version, f.tag);
    var a, b := Assignment("kind", kind), Assignment("payload", Call(Ident("hex"), [StrLit(f.payloadHex)], false));
    ParsePrintedKind(f.version, f.tag);
    TwoKept(Assignment("version", PrintNat(f.version)), Assignment("tag", PrintNat(f.tag)));
    KindEvaluates(kind, scope);
    var props := PrintNode(f, names).props;
    assert props[..2] == [a, b] && [a, b][..1] == [a] && [a][..0] == [];
    PayloadCut(b.init, scope);
    assert Eval(b.init, scope).Strays?;
    assert EvalProps([a], scope).Got?;
    assert EvalProps([a, b], scope).Strays?;
    StoppedEarly(props, 2, scope);
  }

  /** A declaration named like the helper calls itself for it. */
  lemma {:induction false} NamedHexLeaves(instructions: seq<Instruction>, names: seq<string>, store: string,
                                          imports: Imports)
    requires Named(instructions, names) && Distinct(names) && store !in names && GEN in imports.runners
    requires !Hides("hex", names, store, imports) && !Misnames("hex", names, store) && names != []
    ensures FateOf(PrintedAs("hex", instructions, names, store), imports) == Leaves
  {
    var p, done := PrintedAs("hex", instructions, names, store), Body(names, instructions);
    PrintedDeclares(instructions, names, store);
    PrintedPlainly("hex", instructions, names, store, imports);
    PrintedEarlyError("hex", instructions, names, store);
    PrintedShaped(instructions, names, store, {});
    FirstLeaves(p, done, FieldsOf(instructions[0]), names);
  }

  lemma {:induction false} FirstStrays(p: Program, done: Body, f: Fields, names: seq<string>)
    requires Accepted(p, done, {}) && names == done.binders && names != [] && p.own == "hex" && p.generator.self == ""
    requires ParamNames(p.generator.params) == [] && "hex" !in names && p.store !in names && !p.rest
    requires p.store != "" && p.store != "hex"
    requires forall k :: 0 <= k < |f.refs| ==> f.refs[k].source < |names|
    requires f.version < NAT_LIMIT && f.tag < NAT_LIMIT && IsPayloadHex(f.payloadHex)
    requires PutArg(p.generator.body[0]) == PrintNode(f, names)
    ensures StaticPut(p, names, 0).Strays?
  {
    var scope := StaticScope(p, names, 0);
    assert Binds(p.generator.body, done, p.store, {}, 0);
    var arg := BindingParts(p.generator.body[0], names[..0], p.store, {}, scope);
    HelperStrays(f, names, scope);
    assert Resolve(scope, p.store) == Got(VStore);
  }

  lemma {:induction false} FirstLeaves(p: Program, done: Body, f: Fields, names: seq<string>)
    requires Accepted(p, done, {}) && names == done.binders && names != [] && p.own == "hex" && p.generator.self == ""
    requires ParamNames(p.generator.params) == [] && "hex" !in names && p.store !in names && !p.rest
    requires p.store != "" && p.store != "hex"
    requires forall k :: 0 <= k < |f.refs| ==> f.refs[k].source < |names|
    requires f.version < NAT_LIMIT && f.tag < NAT_LIMIT && IsPayloadHex(f.payloadHex)
    requires PutArg(p.generator.body[0]) == PrintNode(f, names)
    ensures FirstFate(BindingFates(p, names)) == Leaves
  {
    FirstStrays(p, done, f, names);
    assert BindingFates(p, names)[0] == BindingFate(p, names, 0) == Leaves;
  }

  /** What becomes of a printed program is read off its names. */
  lemma {:induction false} PrintedFate(own: string, instructions: seq<Instruction>, names: seq<string>,
                                       store: string, imports: Imports)
    requires Named(instructions, names) && Distinct(names) && store !in names && GEN in imports.runners
    ensures FateOf(PrintedAs(own, instructions, names, store), imports) ==
            if Hides(own, names, store, imports) || Misnames(own, names, store) then Breaks
            else if own == "hex" && names != [] then Leaves
            else Keeps
  {
    if Hides(own, names, store, imports) || Misnames(own, names, store) {
      HiddenBreaks(own, instructions, names, store, imports);
    } else if own == "hex" && names != [] {
      NamedHexLeaves(instructions, names, store, imports);
    } else {
      PrintedHygienic(own, instructions, names, store, imports);
      KeepsIsHygienic(PrintedAs(own, instructions, names, store), imports);
    }
  }

  /** A printed program does what its instructions do, on every store, unless it hides what it uses or binds
      what may not be bound; then it throws where they run to the end. Named like the helper it uses, it
      leaves the model. */
  lemma {:induction false} PrintedRuns<S(!new)>(own: string, instructions: seq<Instruction>, names: seq<string>,
                                          store: string, bindings: set<string>, imports: Imports,
                                          put: (S, NodeInput) -> PutResult<S>, s: S)
    requires Named(instructions, names) && Distinct(names) && store !in names
    requires "Effect" in bindings && GEN in imports.runners
    ensures var broken := Hides(own, names, store, imports) || Misnames(own, names, store);
            var end := RunDecl(own, PrintDecl(instructions, names, store), imports, put, s);
            && (!broken && (own != "hex" || names == []) ==> end == Exec(instructions, put, s, []))
            && (broken && NeverFails(put) ==> end.Threw? && Exec(instructions, put, s, []).Done?)
            && (!broken && own == "hex" && names != [] && NeverFails(put) ==> end.Strayed?)
  {
    var decl := PrintDecl(instructions, names, store);
    LiftUndoesPrint(own, instructions, names, store, bindings);
    PrintedProgram(own, instructions, names, store);
    PrintedFate(own, instructions, names, store, imports);
    KeepsIsHygienic(PrintedAs(own, instructions, names, store), imports);
    if Hygienic(PrintedAs(own, instructions, names, store), imports) {
      LiftPreservesMeaning(own, decl, bindings, imports, put, s);
    } else if NeverFails(put) {
      FateDecides(own, decl, bindings, imports, put, s);
    }
  }

  /** What is printed overwrites nothing. */
  lemma {:induction false} NothingOverridden(f: Fields, names: seq<string>)
    requires forall k :: 0 <= k < |f.refs| ==> f.refs[k].source < |names|
    ensures NodeOverridden(PrintNode(f, names)) == []
  {
    var payload := Call(Ident("hex"), [StrLit(f.payloadHex)], false);
    var kind, refs := PrintKind(f.version, f.tag), ArrayLit(PrintRefs(f.refs, names));
    ThreeKeys(Assignment("kind", kind), Assignment("payload", payload), Assignment("refs", refs));
    ThreeKept(Assignment("kind", kind), Assignment("payload", payload), Assignment("refs", refs));
    TwoKept(Assignment("version", PrintNat(f.version)), Assignment("tag", PrintNat(f.tag)));
    RefsKept(f.refs, names);
  }

  lemma {:induction false} TwoKept(a: Prop, b: Prop)
    requires a.Assignment? && b.Assignment? && a.key != b.key
    ensures Overridden([a, b]) == []
  {
    assert [a, b][..1] == [a] && [a][..0] == [];
    assert Overridden([a]) == [];
    assert Lookup([a], b.key) == None;
  }

  lemma {:induction false} ThreeKept(a: Prop, b: Prop, c: Prop)
    requires a.Assignment? && b.Assignment? && c.Assignment? && a.key != b.key && a.key != c.key && b.key != c.key
    ensures Overridden([a, b, c]) == []
  {
    assert [a, b, c][..2] == [a, b];
    TwoKept(a, b);
    TwoKeys(a, b);
    LookupFinds([a, b], c.key);
  }

  lemma {:induction false} RefsKept(refs: seq<Ref>, names: seq<string>)
    requires forall k :: 0 <= k < |refs| ==> refs[k].source < |names|
    ensures OverriddenInEntries(PrintRefs(refs, names)) == []
  {
    if refs != [] {
      var printed := PrintRefs(refs, names);
      assert printed[0] == PrintRef(refs[0], names) && printed[1..] == PrintRefs(refs[1..], names);
      TwoKept(Assignment("id", Ident(names[refs[0].source])), Assignment("expectedTag", PrintNat(refs[0].expectedTag)));
      RefsKept(refs[1..], names);
    }
  }
}
