/**
  What the recognizer does not look at, the condition under which that does not matter, and what an accepted
  node literal evaluates to.
 */
module LiftLaws {
  import opened Outcomes
  import opened TsAst
  import opened Recognizer
  import opened LiftMeaning

  // ---------------------------------------------------------------- what the recognizer does not look at

  /** The initializers an object literal evaluates and then overwrites. */
  function Overridden(props: seq<Prop>): seq<Expr> {
    if props == [] then []
    else
      var front, last := props[..|props| - 1], props[|props| - 1];
      Overridden(front) +
      (if last.Assignment? && Lookup(front, last.key).Some? then [Lookup(front, last.key).value] else [])
  }

  function OverriddenInEntries(elements: seq<Expr>): seq<Expr> {
    if elements == [] then []
    else (if elements[0].Object? then Overridden(elements[0].props) else []) + OverriddenInEntries(elements[1..])
  }

  /** Every overwritten initializer of a put argument: in the node, its kind, and its references. */
  function NodeOverridden(arg: Expr): seq<Expr> {
    if !arg.Object? then []
    else
      var kind, refs := Lookup(arg.props, "kind"), Lookup(arg.props, "refs");
      Overridden(arg.props) +
      (if kind.Some? && kind.value.Object? then Overridden(kind.value.props) else []) +
      (if refs.Some? && refs.value.ArrayLit? then OverriddenInEntries(refs.value.elements) else [])
  }

  predicate AllEvaluate(es: seq<Expr>, scope: Scope) {
    forall i :: 0 <= i < |es| ==> Eval(es[i], scope).Got?
  }

  /** What the binders hold once the first |answers| of them are initialized. */
  function Bound(names: seq<string>, answers: seq<Addr>): map<string, Value>
    requires |answers| <= |names|
    decreases |answers|
  {
    if answers == [] then map[]
    else
      var n := |answers| - 1;
      Bound(names, answers[..n])[names[n] := VAddress(answers[n])]
  }

  function ScopeAt(p: Program, names: seq<string>, answers: seq<Addr>): Scope
    requires |answers| <= |names| && p.generator.Function?
  {
    Scope(ParamNames(p.generator.params), names, HoistedNames(p.generator.body), p.generator.self, p.store, p.rest,
          p.own, Bound(names, answers))
  }

  /** The scope of statement i with a placeholder for each earlier answer: known before anything runs. */
  function StaticScope(p: Program, names: seq<string>, i: nat): Scope
    requires i <= |names| && p.generator.Function?
  {
    ScopeAt(p, names, seq(i, _ => 0))
  }

  /** The store parameter and the helper mean themselves inside the block. */
  predicate NamesClear(p: Program, names: seq<string>)
    requires p.generator.Function?
  {
    var params, self := ParamNames(p.generator.params), p.generator.self;
    && p.store != "" && p.store != "hex" && !p.rest
    && p.store !in params && p.store !in names && p.store != self
    && "hex" !in params && "hex" !in names && "hex" != self && "hex" != p.own
  }

  function PutArg(st: Stmt): Expr {
    if st.VarStmt? && |st.decls| == 1 && st.decls[0].initializer.Some? &&
       st.decls[0].initializer.value.Yield? && st.decls[0].initializer.value.yielded.Some? &&
       st.decls[0].initializer.value.yielded.value.Call? &&
       |st.decls[0].initializer.value.yielded.value.args| == 1
    then st.decls[0].initializer.value.yielded.value.args[0] else OtherExpr
  }

  /** Statement i overwrites only initializers that give a value where they stand. */
  predicate StatementHygienic(p: Program, names: seq<string>, i: nat)
    requires p.generator.Function? && i < |p.generator.body| && i <= |names|
  {
    AllEvaluate(NodeOverridden(PutArg(p.generator.body[i])), StaticScope(p, names, i))
  }

  /** The declaration calls a runner on its generator, and the runner is not hidden. */
  predicate Plainly(p: Program, imports: Imports) {
    !p.asyncArrow && p.own != p.head && p.own !in imports.values && p.head != p.store && Familiar(p, imports)
  }

  /** What a caller can check of a candidate before running it: it plainly runs its generator; no name is
      declared twice; if anything is put, the store parameter and the helper are not hidden; and every
      initializer an object literal overwrites gives a value. */
  predicate Hygienic(p: Program, imports: Imports) {
    && Plainly(p, imports)
    && var names := Declared(p.generator.body);
    && !EarlyError(p) && Distinct(names)
    && (names != [] ==> NamesClear(p, names))
    && forall i :: 0 <= i < |names| && i < |p.generator.body| ==> StatementHygienic(p, names, i)
  }

  // ---------------------------------------------------------------- scopes

  lemma {:induction false} BoundHolds(names: seq<string>, answers: seq<Addr>)
    requires |answers| <= |names| && Distinct(names)
    ensures Bound(names, answers).Keys == set k | 0 <= k < |answers| :: names[k]
    ensures forall k :: 0 <= k < |answers| ==>
              names[k] in Bound(names, answers) && Bound(names, answers)[names[k]] == VAddress(answers[k])
    decreases |answers|
  {
    if answers != [] { BoundHolds(names, answers[..|answers| - 1]); }
  }

  lemma {:induction false} BoundExtends(names: seq<string>, answers: seq<Addr>, a: Addr)
    requires |answers| < |names|
    ensures Bound(names, answers + [a]) == Bound(names, answers)[names[|answers|] := VAddress(a)]
  {
    assert (answers + [a])[..|answers|] == answers;
  }

  /** Two values no form of the fragment can tell apart by more than the addresses inside. */
  predicate Alike(v: Value, w: Value) {
    v == w || (v.VAddress? && w.VAddress?) || (v.VObject? && w.VObject?) || (v.VArray? && w.VArray?)
  }

  ghost predicate AlikeScopes(a: Scope, b: Scope) {
    && a.(bound := map[]) == b.(bound := map[])
    && a.bound.Keys == b.bound.Keys
    && forall x :: x in a.bound ==> a.bound[x].VAddress? && b.bound[x].VAddress?
  }

  /** Two readings that end the same way. */
  predicate SameEnd<T, U>(a: Reading<T>, b: Reading<U>) {
    (a.Got? <==> b.Got?) && (a.Throws? <==> b.Throws?)
  }

  /** How an expression ends never depends on which addresses were answered. */
  lemma {:induction false} EvalAlike(e: Expr, a: Scope, b: Scope)
    requires AlikeScopes(a, b)
    ensures SameEnd(Eval(e, a), Eval(e, b))
    ensures Eval(e, a).Got? ==> Alike(Eval(e, a).value, Eval(e, b).value)
    decreases e, 1
  {
    match e
    case Ident(text) => ResolveAlike(text, a, b);
    case Paren(inner) => EvalAlike(inner, a, b);
    case NonNull(operand) => EvalAlike(operand, a, b);
    case Object(_) => LiteralAlike(e, a, b);
    case ArrayLit(_) => LiteralAlike(e, a, b);
    case PropAccess(_, _, _) => CutAlike(e, a, b);
    case ElemAccess(_, _, _) => CutAlike(e, a, b);
    case Call(_, _, _) => CallAlike(e, a, b);
    case _ =>
  }

  lemma {:induction false} LiteralAlike(e: Expr, a: Scope, b: Scope)
    requires AlikeScopes(a, b) && (e.Object? || e.ArrayLit?)
    ensures SameEnd(Eval(e, a), Eval(e, b))
    ensures Eval(e, a).Got? ==> Alike(Eval(e, a).value, Eval(e, b).value)
    decreases e, 0
  {
    if e.Object? { EvalPropsAlike(e.props, a, b); } else { EvalAllAlike(e.elements, a, b); }
  }

  lemma {:induction false} CutAlike(e: Expr, a: Scope, b: Scope)
    requires AlikeScopes(a, b)
    ensures Cut(e, a) == Cut(e, b)
    decreases e, 0, 0
  {
    match e
    case NonNull(operand) => CutAlike(operand, a, b);
    case PropAccess(object_, _, _) => LinkAlike(object_, a, b);
    case ElemAccess(base, _, _) => LinkAlike(base, a, b);
    case Call(callee, _, _) => LinkAlike(callee, a, b);
    case _ =>
  }

  lemma {:induction false} LinkAlike(e: Expr, a: Scope, b: Scope)
    requires AlikeScopes(a, b)
    ensures Cut(e, a) == Cut(e, b) && Nullish(Eval(e, a)) == Nullish(Eval(e, b))
    decreases e, 2
  {
    CutAlike(e, a, b);
    EvalAlike(e, a, b);
  }

  lemma {:induction false} CallAlike(e: Expr, a: Scope, b: Scope)
    requires AlikeScopes(a, b) && e.Call?
    ensures Eval(e, a) == Eval(e, b)
    decreases e, 0, 1
  {
    CutAlike(e, a, b);
    EvalAlike(e.callee, a, b);
    EvalAllAlike(e.args, a, b);
    var f, args := Eval(e.callee, a), EvalAll(e.args, a);
    if f.Got? && args.Got? {
      ApplyAlike(f.value, Eval(e.callee, b).value, args.value, EvalAll(e.args, b).value);
    }
  }

  lemma {:induction false} ResolveAlike(name: string, a: Scope, b: Scope)
    requires AlikeScopes(a, b)
    ensures SameEnd(Resolve(a, name), Resolve(b, name))
    ensures Resolve(a, name).Got? ==> Alike(Resolve(a, name).value, Resolve(b, name).value)
  {
    assert name in a.bound ==> name in b.bound;
  }

  lemma {:induction false} ApplyAlike(f: Value, g: Value, values: seq<Value>, others: seq<Value>)
    requires Alike(f, g) && |values| == |others|
    requires forall i :: 0 <= i < |values| ==> Alike(values[i], others[i])
    ensures Apply(f, values) == Apply(g, others)
  {
  }

  lemma {:induction false} EvalPropsAlike(props: seq<Prop>, a: Scope, b: Scope)
    requires AlikeScopes(a, b)
    ensures SameEnd(EvalProps(props, a), EvalProps(props, b))
    decreases props, 0
  {
    if props != [] {
      EvalPropsAlike(props[..|props| - 1], a, b);
      var last := props[|props| - 1];
      if last.Assignment? { EvalAlike(last.init, a, b); }
    }
  }

  lemma {:induction false} EvalAllAlike(es: seq<Expr>, a: Scope, b: Scope)
    requires AlikeScopes(a, b)
    ensures SameEnd(EvalAll(es, a), EvalAll(es, b))
    ensures EvalAll(es, a).Got? ==>
              && |EvalAll(es, a).value| == |EvalAll(es, b).value| == |es|
              && forall i :: 0 <= i < |es| ==> Alike(EvalAll(es, a).value[i], EvalAll(es, b).value[i])
    decreases es, 0
  {
    if es != [] {
      EvalAlike(es[0], a, b);
      EvalAllAlike(es[1..], a, b);
    }
  }

  lemma {:induction false} ScopesAlike(p: Program, names: seq<string>, answers: seq<Addr>)
    requires p.generator.Function? && |answers| <= |names| && Distinct(names)
    ensures AlikeScopes(ScopeAt(p, names, answers), StaticScope(p, names, |answers|))
  {
    BoundHolds(names, answers);
    BoundHolds(names, seq(|answers|, _ => 0));
  }

  // ---------------------------------------------------------------- object literals

  ghost predicate LookupsEvaluate(props: seq<Prop>, scope: Scope) {
    forall key :: key in Keys(props) ==> Lookup(props, key).Some? && Eval(Lookup(props, key).value, scope).Got?
  }

  /** One more assignment adds one initializer to evaluate, whichever it overwrites. */
  lemma {:induction false} OneMoreAssignment(front: seq<Prop>, key: string, init: Expr, scope: Scope)
    ensures var props := front + [Assignment(key, init)];
            AllEvaluate(Overridden(props), scope) && LookupsEvaluate(props, scope) <==>
            AllEvaluate(Overridden(front), scope) && LookupsEvaluate(front, scope) && Eval(init, scope).Got?
  {
    var props := front + [Assignment(key, init)];
    assert props[..|props| - 1] == front;
    LookupFinds(front, key);
    var lost := Lookup(front, key);
    var extra := if lost.Some? then [lost.value] else [];
    assert Overridden(props) == Overridden(front) + extra;
    AllEvaluateAppend(Overridden(front), extra, scope);
    assert Keys(props) == Keys(front) + {key};
    assert Lookup(props, key) == Some(init);
    forall other | other != key ensures Lookup(props, other) == Lookup(front, other) {
    }
    if AllEvaluate(extra, scope) && lost.Some? {
      assert Eval(extra[0], scope).Got?;
    }
  }

  /** An object literal evaluates exactly when its effective and its overwritten initializers all do, and
      then it holds the effective ones. */
  lemma {:induction false} EvalPropsByLookup(props: seq<Prop>, scope: Scope)
    requires AllAssignments(props) && "__proto__" !in Keys(props)
    ensures EvalProps(props, scope).Got? <==>
            AllEvaluate(Overridden(props), scope) && LookupsEvaluate(props, scope)
    ensures EvalProps(props, scope).Got? ==>
            && EvalProps(props, scope).value.Keys == Keys(props)
            && forall key :: key in Keys(props) ==>
                 Got(EvalProps(props, scope).value[key]) == Eval(Lookup(props, key).value, scope)
  {
    if props != [] {
      var front, last := props[..|props| - 1], props[|props| - 1];
      EvalPropsByLookup(front, scope);
      OneMoreAssignment(front, last.key, last.init, scope);
      assert props == front + [last];
    }
  }

  lemma {:induction false} AllEvaluateAppend(a: seq<Expr>, b: seq<Expr>, scope: Scope)
    ensures AllEvaluate(a + b, scope) <==> AllEvaluate(a, scope) && AllEvaluate(b, scope)
  {
    if AllEvaluate(a + b, scope) {
      forall i | 0 <= i < |a| ensures Eval(a[i], scope).Got? { assert (a + b)[i] == a[i]; }
      forall i | 0 <= i < |b| ensures Eval(b[i], scope).Got? { assert (a + b)[|a| + i] == b[i]; }
    }
  }

  // ---------------------------------------------------------------- the node literal

  /** The binders a parser has seen hold these answers. */
  ghost predicate Holds(scope: Scope, binders: seq<string>, answers: seq<Addr>) {
    && |binders| == |answers|
    && forall j :: 0 <= j < |binders| ==> Resolve(scope, binders[j]) == Got(VAddress(answers[j]))
  }

  lemma {:induction false} IntEvaluates(e: Expr, scope: Scope)
    requires IntOf(e).Ok?
    ensures Eval(e, scope) == Got(VNumber(e.raw)) && NatValue(VNumber(e.raw)) == Some(IntOf(e).value)
  {
  }

  lemma {:induction false} RefEvaluates(el: Expr, binders: seq<string>, scope: Scope, answers: seq<Addr>)
    requires ParseRef(el, binders).Ok? && Holds(scope, binders, answers)
    ensures Eval(el, scope).Got? <==> AllEvaluate(Overridden(el.props), scope)
    ensures Eval(el, scope).Got? ==>
              var r := ParseRef(el, binders).value;
              r.source < |answers| &&
              RefValue(Eval(el, scope).value) == Some(RefInput(answers[r.source], r.expectedTag))
  {
    LookupFinds(el.props, "id");
    LookupFinds(el.props, "expectedTag");
    var tagE := Lookup(el.props, "expectedTag").value;
    IntEvaluates(tagE, scope);
    EvalPropsByLookup(el.props, scope);
    forall key | key in Keys(el.props)
      ensures Lookup(el.props, key).Some? && Eval(Lookup(el.props, key).value, scope).Got?
    {
      assert key == "id" || key == "expectedTag";
    }
    assert LookupsEvaluate(el.props, scope);
    if Eval(el, scope).Got? {
      assert "id" in Keys(el.props) && "expectedTag" in Keys(el.props);
    }
  }

  lemma {:induction false} ResolveRefsCons(r: Ref, rest: seq<Ref>, answers: seq<Addr>)
    requires r.source < |answers| && forall k :: 0 <= k < |rest| ==> rest[k].source < |answers|
    ensures forall k :: 0 <= k < |[r] + rest| ==> ([r] + rest)[k].source < |answers|
    ensures ResolveRefs([r] + rest, answers) ==
            [RefInput(answers[r.source], r.expectedTag)] + ResolveRefs(rest, answers)
  {
  }

  lemma {:induction false} EvalAllCons(es: seq<Expr>, scope: Scope)
    requires es != []
    ensures EvalAll(es, scope).Got? <==> Eval(es[0], scope).Got? && EvalAll(es[1..], scope).Got?
    ensures EvalAll(es, scope).Got? ==>
              EvalAll(es, scope).value == [Eval(es[0], scope).value] + EvalAll(es[1..], scope).value
  {
  }

  lemma {:induction false} RefValuesCons(v: Value, vs: seq<Value>, r: RefInput, rs: seq<RefInput>)
    requires RefValue(v) == Some(r) && RefValues(vs) == Some(rs)
    ensures RefValues([v] + vs) == Some([r] + rs)
  {
    assert ([v] + vs)[1..] == vs;
  }

  /** The references of an accepted literal evaluate exactly when what they overwrite does. */
  lemma {:induction false} RefsEvaluateWhen(elements: seq<Expr>, binders: seq<string>, scope: Scope, answers: seq<Addr>)
    requires ParseRefs(elements, binders).Ok? && Holds(scope, binders, answers)
    ensures EvalAll(elements, scope).Got? <==> AllEvaluate(OverriddenInEntries(elements), scope)
  {
    if elements != [] {
      RefEvaluates(elements[0], binders, scope, answers);
      RefsEvaluateWhen(elements[1..], binders, scope, answers);
      AllEvaluateAppend(Overridden(elements[0].props), OverriddenInEntries(elements[1..]), scope);
      EvalAllCons(elements, scope);
    }
  }

  lemma {:induction false} ParseRefsCons(elements: seq<Expr>, binders: seq<string>) returns (r: Ref, rs: seq<Ref>)
    requires elements != [] && ParseRefs(elements, binders).Ok?
    ensures ParseRef(elements[0], binders) == Ok(r) && ParseRefs(elements[1..], binders) == Ok(rs)
    ensures ParseRefs(elements, binders) == Ok([r] + rs)
  {
    r, rs := ParseRef(elements[0], binders).value, ParseRefs(elements[1..], binders).value;
  }

  /** And then they are the answers their names are bound to. */
  lemma {:induction false} RefsEvaluateTo(elements: seq<Expr>, binders: seq<string>, scope: Scope, answers: seq<Addr>)
    requires ParseRefs(elements, binders).Ok? && Holds(scope, binders, answers) && EvalAll(elements, scope).Got?
    ensures forall k :: 0 <= k < |ParseRefs(elements, binders).value| ==>
              ParseRefs(elements, binders).value[k].source < |answers|
    ensures RefValues(EvalAll(elements, scope).value) ==
            Some(ResolveRefs(ParseRefs(elements, binders).value, answers))
  {
    if elements == [] {
      assert ResolveRefs([], answers) == [];
    } else {
      var r, rs := ParseRefsCons(elements, binders);
      EvalAllCons(elements, scope);
      RefEvaluates(elements[0], binders, scope, answers);
      RefsEvaluateTo(elements[1..], binders, scope, answers);
      ResolveRefsCons(r, rs, answers);
      RefValuesCons(Eval(elements[0], scope).value, EvalAll(elements[1..], scope).value,
                    RefInput(answers[r.source], r.expectedTag), ResolveRefs(rs, answers));
    }
  }

  lemma {:induction false} KindEvaluates(kind: Expr, scope: Scope)
    requires ParseKind(kind).Ok?
    ensures Eval(kind, scope).Got? <==> AllEvaluate(Overridden(kind.props), scope)
    ensures Eval(kind, scope).Got? ==>
              var v := Eval(kind, scope).value;
              && v.VObject? && v.fields.Keys == {"version", "tag"}
              && NatValue(v.fields["version"]) == Some(ParseKind(kind).value.version)
              && NatValue(v.fields["tag"]) == Some(ParseKind(kind).value.tag)
  {
    LookupFinds(kind.props, "version");
    LookupFinds(kind.props, "tag");
    IntEvaluates(Lookup(kind.props, "version").value, scope);
    IntEvaluates(Lookup(kind.props, "tag").value, scope);
    EvalPropsByLookup(kind.props, scope);
    forall key | key in Keys(kind.props)
      ensures Lookup(kind.props, key).Some? && Eval(Lookup(kind.props, key).value, scope).Got?
    {
      assert key == "version" || key == "tag";
    }
    assert LookupsEvaluate(kind.props, scope);
    if Eval(kind, scope).Got? {
      assert "version" in Keys(kind.props) && "tag" in Keys(kind.props);
    }
  }

  lemma {:induction false} EvalAllOne(e: Expr, scope: Scope)
    ensures EvalAll([e], scope) ==
            match Eval(e, scope) case Got(v) => Got([v]) case Throws => Throws case Strays => Strays
  {
    assert [e][1..] == [];
    var none: seq<Value> := [];
    assert EvalAll([e][1..], scope) == Got(none);
    if Eval(e, scope).Got? { assert [Eval(e, scope).value] + none == [Eval(e, scope).value]; }
  }

  lemma {:induction false} PayloadCut(payload: Expr, scope: Scope)
    requires ParsePayload(payload).Ok?
    ensures Cut(payload, scope) <==> payload.questionDot && Nullish(Resolve(scope, "hex"))
  {
    assert Eval(payload.callee, scope) == Resolve(scope, "hex") && !Cut(payload.callee, scope);
  }

  lemma {:induction false} PayloadEvaluates(payload: Expr, scope: Scope)
    requires ParsePayload(payload).Ok? && Resolve(scope, "hex") == Got(VHexHelper)
    ensures Eval(payload, scope) == Got(VBytes(ParsePayload(payload).value))
  {
    PayloadCut(payload, scope);
    assert payload.args == [payload.args[0]];
    EvalAllOne(payload.args[0], scope);
  }

  /** The three initializers an accepted node literal ends up with, each accepted by its own parser. */
  lemma {:induction false} ParsedNodeParts(arg: Expr, binders: seq<string>) returns (kind: Expr, payload: Expr,
                                           refs: Expr)
    requires ParseNode(arg, binders).Ok?
    ensures arg.Object? && AllAssignments(arg.props) && Keys(arg.props) == {"kind", "payload", "refs"}
    ensures Lookup(arg.props, "kind") == Some(kind) && kind.Object? && ParseKind(kind).Ok?
    ensures Lookup(arg.props, "payload") == Some(payload) && ParsePayload(payload).Ok?
    ensures Lookup(arg.props, "refs") == Some(refs) && refs.ArrayLit? && ParseRefs(refs.elements, binders).Ok?
    ensures ParseNode(arg, binders) ==
            Ok(Fields(ParseKind(kind).value.version, ParseKind(kind).value.tag, ParsePayload(payload).value,
                      ParseRefs(refs.elements, binders).value))
  {
    LookupFinds(arg.props, "kind");
    LookupFinds(arg.props, "payload");
    LookupFinds(arg.props, "refs");
    kind, payload, refs := Lookup(arg.props, "kind").value, Lookup(arg.props, "payload").value,
                           Lookup(arg.props, "refs").value;
  }

  lemma {:induction false} ObjectEvaluates(e: Expr, scope: Scope)
    requires e.Object? && AllAssignments(e.props) && "__proto__" !in Keys(e.props)
    ensures Eval(e, scope).Got? <==> AllEvaluate(Overridden(e.props), scope) && LookupsEvaluate(e.props, scope)
  {
    EvalPropsByLookup(e.props, scope);
  }

  /** An accepted node literal evaluates exactly when what it overwrites does. */
  lemma {:induction false} NodeEvaluatesWhen(arg: Expr, binders: seq<string>, scope: Scope, answers: seq<Addr>)
    requires ParseNode(arg, binders).Ok? && Holds(scope, binders, answers)
    requires Resolve(scope, "hex") == Got(VHexHelper)
    ensures Eval(arg, scope).Got? <==> AllEvaluate(NodeOverridden(arg), scope)
  {
    var kind, payload, refs := ParsedNodeParts(arg, binders);
    assert Eval(kind, scope).Got? <==> AllEvaluate(Overridden(kind.props), scope) by { KindEvaluates(kind, scope); }
    assert Eval(payload, scope).Got? by { PayloadEvaluates(payload, scope); }
    assert EvalAll(refs.elements, scope).Got? <==> AllEvaluate(OverriddenInEntries(refs.elements), scope) by {
      RefsEvaluateWhen(refs.elements, binders, scope, answers);
    }
    NodeParts(arg, scope);
    ObjectEvaluates(arg, scope);
  }

  /** When it evaluates, it is the node the parsed fields describe, each reference replaced by the answer
      its name is bound to. */
  lemma {:induction false} NodeEvaluatesTo(arg: Expr, binders: seq<string>, scope: Scope, answers: seq<Addr>)
    requires ParseNode(arg, binders).Ok? && Holds(scope, binders, answers)
    requires Resolve(scope, "hex") == Got(VHexHelper) && Eval(arg, scope).Got?
    ensures forall k :: 0 <= k < |ParseNode(arg, binders).value.refs| ==>
              ParseNode(arg, binders).value.refs[k].source < |answers|
    ensures var f := ParseNode(arg, binders).value;
            NodeValue(Eval(arg, scope).value) ==
            Some(NodeInput(f.version, f.tag, f.payloadHex, ResolveRefs(f.refs, answers)))
  {
    var kind, payload, refs := ParsedNodeParts(arg, binders);
    EvalPropsByLookup(arg.props, scope);
    assert "kind" in Keys(arg.props) && "payload" in Keys(arg.props) && "refs" in Keys(arg.props);
    var fields := EvalProps(arg.props, scope).value;
    var f := ParseNode(arg, binders).value;
    var k := fields["kind"];
    assert k.VObject? && k.fields.Keys == {"version", "tag"} && NatValue(k.fields["version"]) == Some(f.version) &&
           NatValue(k.fields["tag"]) == Some(f.tag) by {
      assert Eval(kind, scope) == Got(k);
      KindEvaluates(kind, scope);
    }
    assert fields["payload"] == VBytes(f.payloadHex) by {
      assert Eval(payload, scope) == Got(fields["payload"]);
      PayloadEvaluates(payload, scope);
    }
    RefsBounded(refs.elements, binders);
    var items := RefsFieldIs(refs, binders, scope, answers, fields["refs"]);
    NodeFromParts(fields, Kind(f.version, f.tag), f.payloadHex, items, ResolveRefs(f.refs, answers));
  }

  lemma {:induction false} RefsFieldIs(refs: Expr, binders: seq<string>, scope: Scope, answers: seq<Addr>, field: Value)
    returns (items: seq<Value>)
    requires refs.ArrayLit? && ParseRefs(refs.elements, binders).Ok? && Holds(scope, binders, answers)
    requires Eval(refs, scope) == Got(field)
    ensures forall k :: 0 <= k < |ParseRefs(refs.elements, binders).value| ==>
              ParseRefs(refs.elements, binders).value[k].source < |answers|
    ensures field == VArray(items)
    ensures RefValues(items) == Some(ResolveRefs(ParseRefs(refs.elements, binders).value, answers))
  {
    items := field.items;
    RefsEvaluateTo(refs.elements, binders, scope, answers);
  }

  lemma {:induction false} NodeFromParts(fields: map<string, Value>, kind: Kind, payloadHex: string, items: seq<Value>,
                      inputs: seq<RefInput>)
    requires fields.Keys == {"kind", "payload", "refs"}
    requires fields["kind"].VObject? && fields["kind"].fields.Keys == {"version", "tag"}
    requires NatValue(fields["kind"].fields["version"]) == Some(kind.version)
    requires NatValue(fields["kind"].fields["tag"]) == Some(kind.tag)
    requires fields["payload"] == VBytes(payloadHex)
    requires fields["refs"] == VArray(items) && RefValues(items) == Some(inputs)
    ensures NodeValue(VObject(fields)) == Some(NodeInput(kind.version, kind.tag, payloadHex, inputs))
  {
  }

  lemma {:induction false} NodeParts(arg: Expr, scope: Scope)
    requires arg.Object? && Keys(arg.props) == {"kind", "payload", "refs"}
    requires Lookup(arg.props, "kind").Some? && Lookup(arg.props, "kind").value.Object?
    requires Lookup(arg.props, "refs").Some? && Lookup(arg.props, "refs").value.ArrayLit?
    requires Lookup(arg.props, "payload").Some? && Eval(Lookup(arg.props, "payload").value, scope).Got?
    requires var kind := Lookup(arg.props, "kind").value;
             Eval(kind, scope).Got? <==> AllEvaluate(Overridden(kind.props), scope)
    requires var elements := Lookup(arg.props, "refs").value.elements;
             EvalAll(elements, scope).Got? <==> AllEvaluate(OverriddenInEntries(elements), scope)
    ensures AllEvaluate(NodeOverridden(arg), scope) <==>
            AllEvaluate(Overridden(arg.props), scope) && LookupsEvaluate(arg.props, scope)
  {
    var kind, refs := Lookup(arg.props, "kind").value, Lookup(arg.props, "refs").value;
    var a, b, c := Overridden(arg.props), Overridden(kind.props), OverriddenInEntries(refs.elements);
    assert NodeOverridden(arg) == a + b + c;
    AllEvaluateAppend(a + b, c, scope);
    AllEvaluateAppend(a, b, scope);
    assert "kind" in Keys(arg.props) && "refs" in Keys(arg.props);
    if AllEvaluate(NodeOverridden(arg), scope) {
      forall key | key in Keys(arg.props)
        ensures Lookup(arg.props, key).Some? && Eval(Lookup(arg.props, key).value, scope).Got?
      {
        assert key == "kind" || key == "payload" || key == "refs";
      }
    }
  }
}
