/** What the builder's literal typing and constant folding guarantee. */
module FoldingProperties {
  import opened Common
  import opened Ast
  import opened Folding
  import Int64
  import Decimal

  /** The narrowest integer constant type whose unsigned range holds `v`. */
  function NarrowestFor(v: nat): Option<ConstantType>
  {
    if v <= U8_MAX then Some(I8)
    else if v <= U16_MAX then Some(I16)
    else if v <= U32_MAX then Some(I32)
    else if v <= Decimal.UINT64_MAX then Some(I64)
    else None
  }

  /** `NarrowestFor` is what its name says: its type holds the value, no
      narrower integer type does, and only values beyond 64 bits have none. */
  lemma NarrowestIsLeast(v: nat)
    ensures NarrowestFor(v).Some? <==> v <= Decimal.UINT64_MAX
    ensures NarrowestFor(v).Some? ==>
              var t := NarrowestFor(v).value;
              && AtMostI64(t) && v <= UnsignedLimit(t)
              && forall u :: AtMostI64(u) && Ordinal(u) < Ordinal(t) ==> v > UnsignedLimit(u)
  {
    if NarrowestFor(v).Some? {
      var t := NarrowestFor(v).value;
      forall u | AtMostI64(u) && Ordinal(u) < Ordinal(t)
        ensures v > UnsignedLimit(u)
      {
        assert u in {I8, I16, I32};
      }
    }
  }

  /** A decimal integer literal gets the narrowest type whose unsigned range
      holds its value; a value beyond 64 bits produces no node type. */
  lemma IntegerLiteralType(text: string)
    requires text != [] && Decimal.AllDigits(text)
    ensures ClassifyInteger(text) == NarrowestFor(Decimal.DigitsValue(text))
  {
    Decimal.ExtractDigits(text);
  }

  /** Below 2^32 the code as written and the intended classification agree. */
  lemma AsWrittenAgreesUpTo32Bits(text: string)
    requires text != [] && Decimal.AllDigits(text)
    requires Decimal.DigitsValue(text) <= U32_MAX
    ensures ClassifyIntegerAsWritten(text) == ClassifyInteger(text)
  {
    Decimal.ExtractDigits(text);
  }

  /** As written, every decimal literal above 2^32 - 1 yields no node: the
      extraction consumed the whole token, so `good()` is false even though
      the value fits 64 bits. */
  lemma AsWrittenDropsWideLiterals(text: string)
    requires text != [] && Decimal.AllDigits(text)
    requires U32_MAX < Decimal.DigitsValue(text) <= Decimal.UINT64_MAX
    ensures ClassifyIntegerAsWritten(text) == None
    ensures ClassifyInteger(text) == Some(I64)
    ensures VisitBasicLit(IntegerLit(text)) == Built(Constant(I64, text))
  {
    Decimal.ExtractDigits(text);
  }

  /** The concrete literal 5000000000 (between 2^32 and 2^63). */
  lemma AsWrittenDropsFiveBillion()
    ensures ClassifyIntegerAsWritten("5000000000") == None
    ensures ClassifyInteger("5000000000") == Some(I64)
  {
    var s := "5000000000";
    assert Decimal.DigitsValue(s[..1]) == 5;
    assert s[..2][..1] == s[..1] && Decimal.DigitsValue(s[..2]) == 50;
    assert s[..3][..2] == s[..2] && Decimal.DigitsValue(s[..3]) == 500;
    assert s[..4][..3] == s[..3] && Decimal.DigitsValue(s[..4]) == 5000;
    assert s[..5][..4] == s[..4] && Decimal.DigitsValue(s[..5]) == 50000;
    assert s[..6][..5] == s[..5] && Decimal.DigitsValue(s[..6]) == 500000;
    assert s[..7][..6] == s[..6] && Decimal.DigitsValue(s[..7]) == 5000000;
    assert s[..8][..7] == s[..7] && Decimal.DigitsValue(s[..8]) == 50000000;
    assert s[..9][..8] == s[..8] && Decimal.DigitsValue(s[..9]) == 500000000;
    assert s[..9] == s[..|s| - 1] && Decimal.DigitsValue(s) == 5000000000;
    AsWrittenDropsWideLiterals(s);
  }

  /** A floating literal is FLOAT exactly when it ends in `f` or `F`, and
      then only that suffix is dropped; otherwise it is DOUBLE, unchanged. */
  lemma FloatingLiteralType(text: string)
    ensures var (t, value) := ClassifyFloating(text);
            && (t == FLOAT <==> text != [] && text[|text| - 1] in {'f', 'F'})
            && (t == FLOAT ==> text == value + [text[|text| - 1]])
            && (t != FLOAT ==> t == DOUBLE && value == text)
  {
  }

  /** Two numeric constants whose texts `stoll` reads and whose result
      type is an integer kind fold to the 64-bit evaluation of their values,
      written back with `to_string`. */
  lemma FoldsParsedOperands(tok: OperatorToken, left: Node, right: Node,
                            resultType: ResultTypeOf, floatFold: FloatFold, l: int, r: int)
    requires left.Constant? && right.Constant? && left.ctype != STRING && right.ctype != STRING
    requires OperationOf(tok).Some?
    requires AtMostI64(resultType(OperationOf(tok).value, right, left))
    requires Decimal.Stoll(left.value) == Decimal.Parsed(l) && Decimal.Stoll(right.value) == Decimal.Parsed(r)
    ensures var op := OperationOf(tok).value;
            Binary(tok, left, right, resultType, floatFold) ==
              match EvalInt64(op, l, r)
              case Built(v) => Built(Constant(resultType(op, right, left), Decimal.IntText(v)))
              case Fault(why) => Fault(why)
              case Null => Null
  {
  }

  /** Without undefined behaviour the 64-bit evaluation is the exact C++
      result. */
  lemma EvaluatesExactly(op: BinaryOperation, l: int, r: int)
    requires op in {DIV, MOD} ==> r != 0
    requires op == MOD ==> !(l == Int64.MIN && r == -1)
    requires Int64.InRange(Exact(op, l, r))
    ensures EvalInt64(op, l, r) == Built(Exact(op, l, r))
  {
    assert op == MUL ==> r * l == l * r;
  }

  /** When the result type is an integer kind and no undefined behaviour
      occurs, folding produces a constant of that type whose text is the
      decimal form of the exact C++ result, and reading the text back with
      `stoll` gives that result. */
  lemma FoldedIntegerValue(tok: OperatorToken, left: Node, right: Node,
                           resultType: ResultTypeOf, floatFold: FloatFold, l: int, r: int)
    requires left.Constant? && right.Constant? && left.ctype != STRING && right.ctype != STRING
    requires OperationOf(tok).Some?
    requires AtMostI64(resultType(OperationOf(tok).value, right, left))
    requires Decimal.Stoll(left.value) == Decimal.Parsed(l) && Decimal.Stoll(right.value) == Decimal.Parsed(r)
    requires OperationOf(tok).value in {DIV, MOD} ==> r != 0
    requires OperationOf(tok).value == MOD ==> !(l == Int64.MIN && r == -1)
    requires Int64.InRange(Exact(OperationOf(tok).value, l, r))
    ensures var op := OperationOf(tok).value;
            var v := Exact(op, l, r);
            && Binary(tok, left, right, resultType, floatFold)
                 == Built(Constant(resultType(op, right, left), Decimal.IntText(v)))
            && Decimal.Stoll(Decimal.IntText(v)) == Decimal.Parsed(v)
  {
    var op := OperationOf(tok).value;
    FoldsParsedOperands(tok, left, right, resultType, floatFold, l, r);
    EvaluatesExactly(op, l, r);
    Decimal.StollOfIntText(Exact(op, l, r));
  }

  /** Undefined behaviour in the 64-bit evaluation becomes a fault: a zero
      divisor, or a result outside the signed 64-bit range. */
  lemma FoldingFaults(tok: OperatorToken, left: Node, right: Node,
                      resultType: ResultTypeOf, floatFold: FloatFold, l: int, r: int)
    requires left.Constant? && right.Constant? && left.ctype != STRING && right.ctype != STRING
    requires OperationOf(tok).Some?
    requires AtMostI64(resultType(OperationOf(tok).value, right, left))
    requires Decimal.Stoll(left.value) == Decimal.Parsed(l) && Decimal.Stoll(right.value) == Decimal.Parsed(r)
    ensures var op := OperationOf(tok).value;
            var result := Binary(tok, left, right, resultType, floatFold);
            && (op in {DIV, MOD} && r == 0 ==> result == Fault(DivisionByZero))
            && (op in {ADD, SUB, MUL} && !Int64.InRange(Exact(op, l, r)) ==> result == Fault(SignedOverflow))
            && (op == DIV && r != 0 && !Int64.InRange(Exact(op, l, r)) ==> result == Fault(SignedOverflow))
            && (op == MOD && l == Int64.MIN && r == -1 ==> result == Fault(SignedOverflow))
  {
    var op := OperationOf(tok).value;
    FoldsParsedOperands(tok, left, right, resultType, floatFold, l, r);
    assert op == MUL ==> r * l == l * r;
  }

  /** A STRING operand, or an operand that is not a constant, is never
      folded: the result is an operation node over the two subtrees. */
  lemma NoFoldingWithoutTwoNumericConstants(tok: OperatorToken, left: Node, right: Node,
                                            resultType: ResultTypeOf, floatFold: FloatFold)
    requires !left.Constant? || !right.Constant? || left.ctype == STRING || right.ctype == STRING
    ensures OperationOf(tok).Some? ==>
              Binary(tok, left, right, resultType, floatFold) == Built(BinaryOp(OperationOf(tok).value, left, right))
    ensures OperationOf(tok).None? ==> Binary(tok, left, right, resultType, floatFold) == Null
  {
  }

  /** A `%` whose result type is above I64 is not folded. */
  lemma ModAboveI64IsRuntime(left: Node, right: Node, resultType: ResultTypeOf, floatFold: FloatFold)
    requires left.Constant? && right.Constant? && left.ctype != STRING && right.ctype != STRING
    requires !AtMostI64(resultType(MOD, right, left))
    ensures Binary(PERCENT, left, right, resultType, floatFold) == Built(BinaryOp(MOD, left, right))
  {
  }

  /** Above I64 every operator but `%` takes the double-precision branch:
      its text becomes the constant's value, and a `stod` failure aborts
      the build. */
  lemma DoubleFoldBranch(tok: OperatorToken, left: Node, right: Node,
                         resultType: ResultTypeOf, floatFold: FloatFold)
    requires left.Constant? && right.Constant? && left.ctype != STRING && right.ctype != STRING
    requires OperationOf(tok).Some? && OperationOf(tok).value != MOD
    requires !AtMostI64(resultType(OperationOf(tok).value, right, left))
    ensures var op := OperationOf(tok).value;
            var folded := floatFold(op, left.value, right.value);
            && (folded.None? ==> Binary(tok, left, right, resultType, floatFold) == Fault(FloatConversion))
            && (folded.Some? ==>
                  Binary(tok, left, right, resultType, floatFold) == Built(Constant(resultType(op, right, left), folded.value)))
  {
  }

  /** Unary minus prepends `-` to the text of any literal and keeps its
      type; unary plus returns the constant untouched. On the decimal text
      of a positive 64-bit value, `stoll` reads the negated text as the
      negated value. */
  lemma NegatedLiteral(t: ConstantType, text: string, n: int)
    ensures Unary(UnaryMinus, Built(Constant(t, text))) == Built(Constant(t, "-" + text))
    ensures Unary(UnaryPlus, Built(Constant(t, text))) == Built(Constant(t, text))
    ensures text == Decimal.IntText(n) && 0 < n <= Int64.MAX ==> Decimal.Stoll("-" + text) == Decimal.Parsed(-n)
  {
    if text == Decimal.IntText(n) && 0 < n <= Int64.MAX {
      assert text == Decimal.NaturalText(n);
      assert Decimal.IntText(-n) == "-" + text;
      Decimal.StollOfIntText(-n);
    }
  }

  /** A literal up to 255 is an I8 constant that reads back as its value. */
  lemma SmallLiteral(n: nat)
    requires n <= U8_MAX
    ensures VisitBasicLit(IntegerLit(Decimal.NaturalText(n))) == Built(Constant(I8, Decimal.NaturalText(n)))
    ensures Decimal.Stoll(Decimal.NaturalText(n)) == Decimal.Parsed(n)
  {
    Decimal.DigitsValueOfText(n);
    IntegerLiteralType(Decimal.NaturalText(n));
    Decimal.StollOfIntText(n);
  }

  /** The sum of two literals of at most 255 folds to the decimal text of
      their sum, typed by whatever `GetResultType` chooses; `1 + 2` folds
      to "3". */
  lemma FoldsSmallSum(a: nat, b: nat, resultType: ResultTypeOf, floatFold: FloatFold)
    requires a <= U8_MAX && b <= U8_MAX
    requires AtMostI64(resultType(ADD, Constant(I8, Decimal.NaturalText(b)), Constant(I8, Decimal.NaturalText(a))))
    ensures BuildExpr(BinaryExpr(PLUS, BasicLit(IntegerLit(Decimal.NaturalText(a))),
                                       BasicLit(IntegerLit(Decimal.NaturalText(b)))), resultType, floatFold)
            == Built(Constant(resultType(ADD, Constant(I8, Decimal.NaturalText(b)), Constant(I8, Decimal.NaturalText(a))),
                              Decimal.IntText(a + b)))
  {
    SmallLiteral(a);
    SmallLiteral(b);
    var left, right := Constant(I8, Decimal.NaturalText(a)), Constant(I8, Decimal.NaturalText(b));
    FoldedIntegerValue(PLUS, left, right, resultType, floatFold, a, b);
    BuiltOperands(PLUS, BasicLit(IntegerLit(Decimal.NaturalText(a))), BasicLit(IntegerLit(Decimal.NaturalText(b))),
                  left, right, resultType, floatFold);
  }

  /** A binary expression whose operands both build is the `Binary` of the
      built operands. */
  lemma BuiltOperands(tok: OperatorToken, l: Expr, r: Expr, left: Node, right: Node,
                      resultType: ResultTypeOf, floatFold: FloatFold)
    requires BuildExpr(l, resultType, floatFold) == Built(left)
    requires BuildExpr(r, resultType, floatFold) == Built(right)
    ensures BuildExpr(BinaryExpr(tok, l, r), resultType, floatFold) == Binary(tok, left, right, resultType, floatFold)
  {
  }
}
