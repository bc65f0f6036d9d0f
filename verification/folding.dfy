/** Literal classification (`visitBasicLit`), the literal branch of
    `visitUnaryExpr`, and eager constant folding in `visitExpression`. */
module Folding {
  import opened Common
  import opened Ast
  import Int64
  import Decimal
  import Visiting

  /** `GetResultType(op, right, left, overflow)`: its body is not part of
      this model, so the builder receives it as a parameter. It sees the
      two operand constants whole, values included. */
  type ResultTypeOf = (BinaryOperation, Node, Node) -> ConstantType

  /** The double-precision folding branch (`stod`, double arithmetic,
      `to_string(double)`) on the left and right literal texts: the text of
      the result, or nothing when `stod` throws. */
  type FloatFold = (BinaryOperation, string, string) -> Option<string>

  const U8_MAX: int := 0xff
  const U16_MAX: int := 0xffff
  const U32_MAX: int := 0xffff_ffff

  // ---------------------------------------------------------------------
  // visitBasicLit

  /** The integer-literal type test as written: `good()` is asked after
      the extraction, whose reaching the end of the text also clears it. */
  function ClassifyIntegerAsWritten(text: string): Option<ConstantType>
  {
    var x := Decimal.ExtractUnsigned(text);
    if x.value <= U8_MAX then Some(I8)
    else if x.value <= U16_MAX then Some(I16)
    else if x.value <= U32_MAX then Some(I32)
    else if x.Good() then Some(I64)
    else None
  }

  /** The integer-literal type test as intended: a value above the 32-bit
      range is I64 unless the extraction failed (it did not fit 64 bits). */
  function ClassifyInteger(text: string): Option<ConstantType>
  {
    var x := Decimal.ExtractUnsigned(text);
    if x.value <= U8_MAX then Some(I8)
    else if x.value <= U16_MAX then Some(I16)
    else if x.value <= U32_MAX then Some(I32)
    else if !x.fail then Some(I64)
    else None
  }

  /** The largest value a constant type's unsigned range holds. */
  function UnsignedLimit(t: ConstantType): int
    requires AtMostI64(t)
  {
    match t
    case I8 => U8_MAX
    case I16 => U16_MAX
    case I32 => U32_MAX
    case I64 => Decimal.UINT64_MAX
  }

  /** A floating literal: a trailing `f` or `F` is dropped and makes it FLOAT,
      otherwise it is DOUBLE with its text unchanged. */
  function ClassifyFloating(text: string): (ConstantType, string)
  {
    if text != [] && (text[|text| - 1] == 'f' || text[|text| - 1] == 'F')
    then (FLOAT, text[..|text| - 1])
    else (DOUBLE, text)
  }

  /** `visitBasicLit`. Positions are not part of the node model. */
  function VisitBasicLit(lit: Literal): (r: Visit<Node>)
    ensures r.Built? ==> r.node.Constant?
    ensures lit.IntegerLit? ==>
              r == match ClassifyInteger(lit.text) case Some(t) => Built(Constant(t, lit.text)) case None => Null
    ensures lit.FloatingLit? ==> r == Built(Constant(ClassifyFloating(lit.text).0, ClassifyFloating(lit.text).1))
    ensures lit.RuneLit? ==> r == Built(Constant(CHAR, lit.text))
    ensures lit.StringLit? ==> r == Built(Constant(STRING, lit.text))
  {
    match lit
    case IntegerLit(text) =>
      (match ClassifyInteger(text)
       case Some(t) => Built(Constant(t, text))
       case None => Null)
    case FloatingLit(text) =>
      var (t, value) := ClassifyFloating(text);
      Built(Constant(t, value))
    case RuneLit(text) => Built(Constant(CHAR, text))
    case StringLit(text) => Built(Constant(STRING, text))
    case NoLiteral => Null
  }

  // ---------------------------------------------------------------------
  // visitExpression

  function OperationOf(tok: OperatorToken): Option<BinaryOperation>
  {
    match tok
    case PLUS => Some(ADD)
    case MINUS => Some(SUB)
    case STAR => Some(MUL)
    case SLASH => Some(DIV)
    case PERCENT => Some(MOD)
    case OtherOperator => None
  }

  /** The mathematical value of `left op right` with C++ integer division. */
  function Exact(op: BinaryOperation, left: int, right: int): int
    requires op in {DIV, MOD} ==> right != 0
  {
    match op
    case ADD => left + right
    case SUB => left - right
    case MUL => left * right
    case DIV => Int64.TruncDiv(left, right)
    case MOD => Int64.TruncMod(left, right)
  }

  /** The 64-bit signed evaluation the builder performs, operands in the
      order the source writes them; undefined behaviour is a fault. */
  function EvalInt64(op: BinaryOperation, left: int, right: int): Visit<int>
  {
    match op
    case ADD => Checked(right + left)
    case SUB => Checked(left - right)
    case MUL => Checked(right * left)
    case DIV => if right == 0 then Fault(DivisionByZero) else Checked(Int64.TruncDiv(left, right))
    case MOD =>
      if right == 0 then Fault(DivisionByZero)
      else if left == Int64.MIN && right == -1 then Fault(SignedOverflow)
      else Checked(Int64.TruncMod(left, right))
  }

  function Checked(v: int): Visit<int>
  {
    if Int64.InRange(v) then Built(v) else Fault(SignedOverflow)
  }

  /** The node kinds an expression visit can build. */
  predicate ExprShaped(n: Node)
  {
    n.Constant? || n.BinaryOp? || n.VariableRef?
  }

  /** The runtime-operation path: an unevaluated `BinaryOperationNode`, or
      nothing for an operator outside the five arithmetic ones. */
  function RuntimeNode(tok: OperatorToken, left: Node, right: Node): (r: Visit<Node>)
    ensures r.Built? ==> r.node.BinaryOp? && r.node.left == left && r.node.right == right
  {
    match OperationOf(tok)
    case Some(op) => Built(BinaryOp(op, left, right))
    case None => Null
  }

  /** The folding path for two non-STRING constants. */
  function FoldConstants(tok: OperatorToken, left: Node, right: Node,
                         resultType: ResultTypeOf, floatFold: FloatFold): (r: Visit<Node>)
    requires left.Constant? && right.Constant?
    ensures r.Built? ==> ExprShaped(r.node)
  {
    match OperationOf(tok)
    case None => Built(Constant(I64, ""))
    case Some(op) =>
      var t := resultType(op, right, left);
      if AtMostI64(t) then
        match (Decimal.Stoll(right.value), Decimal.Stoll(left.value))
        case (InvalidArgument, _) => Fault(InvalidNumber)
        case (OutOfRange, _) => Fault(NumberOutOfRange)
        case (Parsed(_), InvalidArgument) => Fault(InvalidNumber)
        case (Parsed(_), OutOfRange) => Fault(NumberOutOfRange)
        case (Parsed(r), Parsed(l)) =>
          (match EvalInt64(op, l, r)
           case Built(v) => Built(Constant(t, Decimal.IntText(v)))
           case Fault(why) => Fault(why)
           case Null => Null)
      else if op == MOD then RuntimeNode(tok, left, right)
      else
        match floatFold(op, left.value, right.value)
        case Some(text) => Built(Constant(t, text))
        case None => Fault(FloatConversion)
  }

  /** A binary expression whose two operands were visited. */
  function Binary(tok: OperatorToken, left: Node, right: Node,
                  resultType: ResultTypeOf, floatFold: FloatFold): (r: Visit<Node>)
    ensures r.Built? ==> ExprShaped(r.node)
  {
    if left.Constant? && right.Constant? && left.ctype != STRING && right.ctype != STRING
    then FoldConstants(tok, left, right, resultType, floatFold)
    else RuntimeNode(tok, left, right)
  }

  /** The literal branch of `visitUnaryExpr`: a minus sign is prepended to
      the constant's text; any other operator returns it unchanged. A
      non-constant operand reaches the dereference of a null node. */
  function Unary(sign: UnaryToken, operand: Visit<Node>): (r: Visit<Node>)
    ensures r.Built? ==> r.node.Constant?
  {
    match operand
    case Built(Constant(t, v)) =>
      if sign == UnaryMinus then Built(Constant(t, "-" + v)) else operand
    case Fault(why) => operand
    case _ => Fault(NullDereference)
  }

  /** Visiting an expression parse node. The right operand is visited
      before the left one. */
  function BuildExpr(e: Expr, resultType: ResultTypeOf, floatFold: FloatFold): (r: Visit<Node>)
    ensures r.Built? ==> ExprShaped(r.node)
  {
    match e
    case BinaryExpr(tok, l, r) =>
      (match BuildExpr(r, resultType, floatFold)
       case Fault(why) => Fault(why)
       case Null =>
         var left := BuildExpr(l, resultType, floatFold);
         if left.Fault? then left else Null
       case Built(right) =>
         (match BuildExpr(l, resultType, floatFold)
          case Fault(why) => Fault(why)
          case Null => Null
          case Built(left) => Binary(tok, left, right, resultType, floatFold)))
    case UnaryExpr(sign, operand) => Unary(sign, BuildExpr(operand, resultType, floatFold))
    case BasicLit(lit) => VisitBasicLit(lit)
    case OperandName(name) => Built(VariableRef(Unresolved(name)))
    case NoExpr => Null
  }

  /** Visiting an expression list: the last expression that built a node. */
  function BuildExprList(es: seq<Expr>, resultType: ResultTypeOf, floatFold: FloatFold): Visit<Node>
  {
    Visiting.Fold(seq(|es|, i requires 0 <= i < |es| =>
      Visiting.Rule(1, false, false, BuildExpr(es[i], resultType, floatFold))))
  }
}
