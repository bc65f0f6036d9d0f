/** The constant-type catalogue, the parse tree the external parser hands to
    the builder (only the shape the builder reads), and the AST the builder
    produces. */
module Ast {
  import opened Common

  /** CONSTANT_TYPE: the kinds a literal constant can have. The order of the
      first six is the promotion order I8 < I16 < I32 < I64 < FLOAT < DOUBLE. */
  datatype ConstantType = I8 | I16 | I32 | I64 | FLOAT | DOUBLE | STRING | CHAR

  /** The enumerator's integer value. */
  function Ordinal(t: ConstantType): nat
  {
    match t
    case I8 => 0
    case I16 => 1
    case I32 => 2
    case I64 => 3
    case FLOAT => 4
    case DOUBLE => 5
    case STRING => 6
    case CHAR => 7
  }

  /** `CONSTANT_TYPE::_COUNT`. */
  const COUNT: nat := 8

  /** `type <= CONSTANT_TYPE::I64`: the integer kinds. */
  predicate AtMostI64(t: ConstantType) { Ordinal(t) <= Ordinal(I64) }

  // ---------------------------------------------------------------------
  // Parse tree

  /** The alternatives of a `basicLit` parse node, with the token's text. */
  datatype Literal =
    | IntegerLit(text: string)
    | FloatingLit(text: string)
    | RuneLit(text: string)
    | StringLit(text: string)
    | NoLiteral

  /** The operator token of a binary `expression` node. */
  datatype OperatorToken = PLUS | MINUS | STAR | SLASH | PERCENT | OtherOperator

  /** Which sign token the `unaryOp` of a `unaryExpr` holds. */
  datatype UnaryToken = UnaryMinus | UnaryPlus | OtherUnary

  datatype Expr =
    | BinaryExpr(op: OperatorToken, left: Expr, right: Expr)
    | UnaryExpr(sign: UnaryToken, operand: Expr)
    | BasicLit(lit: Literal)
    | OperandName(name: string)
    | NoExpr    // a parse node whose visit yields nothing

  /** A rule context's own flags: ANTLR skips an empty or errored entry. */
  datatype Entry<T> = Entry(isEmpty: bool, errored: bool, content: T)

  datatype ParamDecl = ParamDecl(name: string, typeName: string)

  datatype VarDefCtx = VarDefCtx(line: int, name: string, typeName: string, init: Option<seq<Expr>>)

  datatype Statement =
    | VarDefStmt(def: VarDefCtx)
    | AssignmentStmt(target: string, values: seq<Expr>)
    | ReturnStmt(values: seq<Expr>)
    | ExprStmt(expr: Expr)

  datatype FunctionDefCtx = FunctionDefCtx(
    line: int, name: string, returnType: string,
    paramsLine: int, params: seq<Entry<ParamDecl>>,
    body: seq<Entry<Statement>>)

  datatype TopLevel = FunctionDecl(fn: FunctionDefCtx) | GlobalVarDecl(def: VarDefCtx) | OtherDecl

  // ---------------------------------------------------------------------
  // AST

  datatype BinaryOperation = ADD | SUB | MUL | DIV | MOD

  /** Identity of a variable definition, by which a resolved reference
      points at it (the source holds a shared pointer instead). */
  datatype DefKey = DefKey(file: string, line: int, name: string)

  datatype VarRef = Unresolved(name: string) | Resolved(target: DefKey)

  datatype Node =
    | Constant(ctype: ConstantType, value: string)
    | BinaryOp(op: BinaryOperation, left: Node, right: Node)
    | Return(result: Option<Node>)
    | VariableRef(ref: VarRef)
    | Assign(target: VarRef, source: Option<Node>)
    | VariableDef(def: VarDef)
    | FunctionDef(fn: FunctionDefNode)

  datatype VarDef = VarDef(
    file: string, line: int, name: string, varType: string,
    isGlobal: bool, assignment: Option<Node>)
  {
    function Key(): DefKey { DefKey(file, line, name) }
  }

  datatype FunctionDefNode = FunctionDefNode(
    file: string, line: int, name: string, returnType: string,
    params: seq<VarDef>, block: seq<Node>)
}
