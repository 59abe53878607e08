/**
  The fragment of the TypeScript syntax tree the recognizer looks at, with the marks it does not look at but
  that change what a program does. Every other node kind is a single catch-all. The recognizer refuses the
  catch-all wherever it reads one; an initializer that a later key of its literal overwrites it never reads.
 */
module TsAst {
  import opened Outcomes

  datatype Expr =
    | Ident(text: string)
    | Numeric(raw: string)
    | StrLit(value: string)
    | Paren(inner: Expr)
    | NonNull(operand: Expr)
    | PropAccess(object_: Expr, member: string, questionDot: bool)
    | ElemAccess(base: Expr, index: Expr, questionDot: bool)
    | Call(callee: Expr, args: seq<Expr>, questionDot: bool)
    | Object(props: seq<Prop>)
    | ArrayLit(elements: seq<Expr>)
    | Arrow(asyncArrow: bool, arrowParams: seq<Param>, arrowBody: ArrowBody)
    | Function(asyncFunction: bool, generator: bool, self: string, params: seq<Param>, body: seq<Stmt>)
    | Yield(delegate: bool, yielded: Option<Expr>)
    | NullLit
    | BoolLit(truth: bool)
    | OtherExpr

  /** An object literal's member: `name: initializer`, or any other form. */
  datatype Prop = Assignment(key: string, init: Expr) | OtherProp

  datatype ParamForm = Plain | Defaulted | Rest

  datatype Param = IdentParam(name: string, form: ParamForm) | PatternParam

  datatype ArrowBody = ExprBody(result: Expr) | BlockBody

  /** How a variable statement declares: by `const` or `let`, by `var`, or by `using` or with a modifier. */
  datatype DeclKind = Lexical | Hoisted | Marked

  /** A binder is a name or a pattern. */
  datatype Binder = NameBinder(name: string) | PatternBinder

  datatype Declarator = Declarator(binder: Binder, initializer: Option<Expr>)

  datatype Stmt =
    | IfStmt
    | LoopStmt
    | TryStmt
    | VarStmt(kind: DeclKind, decls: seq<Declarator>)
    | ReturnStmt(returned: Option<Expr>)
    | ExprStmt(expr: Expr)
    | OtherStmt
}
