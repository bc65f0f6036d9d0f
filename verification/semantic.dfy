/** The semantic analyser: its own AST of types and expressions, the
    structural type comparison, the partial static typing of expressions,
    and the analyser object that walks prototypes, variable definitions and
    function blocks while recording symbols and errors. */
module Semantic {
  import opened Common
  import opened ScopeTable

  /** Where a node sits in the source file. */
  datatype Position = Position(line: int, column: int, file: string)

  // ---------------------------------------------------------------------
  // Types

  datatype TypeId = VoidId | BoolId | PointerId | ArrayId | IntegerId | FloatingPointId | StructId

  /** `AstType`: a pointer or array has a child type node, a number has a
      bit size, and an integer also a signedness. */
  datatype AstType =
    | Void
    | Bool
    | Pointer(child: TypeNode)
    | Array(child: TypeNode)
    | Integer(bitSize: nat, isSigned: bool)
    | FloatingPoint(bitSize: nat)
    | Struct(name: string)

  /** A type node: a type together with the position it was written at. */
  datatype TypeNode = TypeNode(pos: Position, ty: AstType)

  function Id(t: AstType): TypeId
  {
    match t
    case Void => VoidId
    case Bool => BoolId
    case Pointer(_) => PointerId
    case Array(_) => ArrayId
    case Integer(_, _) => IntegerId
    case FloatingPoint(_) => FloatingPointId
    case Struct(_) => StructId
  }

  /** Structural equality of types, ignoring where they were written. */
  predicate SameType(a: AstType, b: AstType)
  {
    match (a, b)
    case (Pointer(c), Pointer(d)) => SameType(c.ty, d.ty)
    case (Array(c), Array(d)) => SameType(c.ty, d.ty)
    case (Pointer(_), _) => false
    case (Array(_), _) => false
    case (_, Pointer(_)) => false
    case (_, Array(_)) => false
    case _ => a == b
  }

  /** The pairs `check_type` handles: comparing two struct types, at the
      top or under matching pointers and arrays, reaches its unreachable
      branch. */
  predicate Comparable(t0: TypeNode, t1: TypeNode)
  {
    Id(t0.ty) == Id(t1.ty) ==>
      match t1.ty
      case Struct(_) => false
      case Pointer(c1) => Comparable(t0.ty.child, c1)
      case Array(c1) => Comparable(t0.ty.child, c1)
      case _ => true
  }

  // ---------------------------------------------------------------------
  // Errors

  /** The diagnostics the analyser reports; their message texts are not
      part of this model. */
  datatype Message =
    | StructsUnsupported
    | GlobalNeedInitializer(name: string)
    | TypesSizeMismatch
    | IntegersSignMismatch
    | TypesMismatch

  /** An error record: always of severity ERROR, at a node's position. */
  datatype Error = Error(pos: Position, msg: Message)

  /** Recording an error appends it to the analyser's list. */
  function Reported(errors: seq<Error>, e: Error): (r: seq<Error>)
    ensures |r| == |errors| + 1 && r[..|errors|] == errors && r[|errors|] == e
  {
    errors + [e]
  }

  /** Recording an error as `add_semantic_error` is written: the record is
      built and then dropped. */
  function ReportedAsWritten(errors: seq<Error>, e: Error): seq<Error>
  {
    errors
  }

  /** As written, recording never grows the error list, so a caller that
      compares the list's size before and after never observes an error. */
  lemma ReportedAsWrittenIsLost(errors: seq<Error>, e: Error)
    ensures |ReportedAsWritten(errors, e)| == |errors|
    ensures ReportedAsWritten(errors, e) != Reported(errors, e)
  {
    assert |Reported(errors, e)| == |errors| + 1;
  }

  /** `check_type(type_node0, type_node1)`: the diagnostics comparing two
      types, each reported at the first type's node. */
  function TypeDiagnostics(t0: TypeNode, t1: TypeNode): seq<Error>
    requires Comparable(t0, t1)
  {
    if Id(t1.ty) == Id(t0.ty) then
      match t1.ty
      case Void => []
      case Bool => []
      case Pointer(c1) => TypeDiagnostics(t0.ty.child, c1)
      case Array(c1) => TypeDiagnostics(t0.ty.child, c1)
      case Integer(size1, signed1) =>
        (if size1 != t0.ty.bitSize then [Error(t0.pos, TypesSizeMismatch)] else []) +
        (if signed1 != t0.ty.isSigned then [Error(t0.pos, IntegersSignMismatch)] else [])
      case FloatingPoint(size1) =>
        if size1 != t0.ty.bitSize then [Error(t0.pos, TypesSizeMismatch)] else []
      case Struct(_) => assert false; []
    else [Error(t0.pos, TypesMismatch)]
  }

  /** Two comparable types produce no diagnostic exactly when they are
      structurally identical. */
  lemma {:induction false} NoDiagnosticsIffSame(t0: TypeNode, t1: TypeNode)
    requires Comparable(t0, t1)
    ensures TypeDiagnostics(t0, t1) == [] <==> SameType(t0.ty, t1.ty)
  {
    if Id(t1.ty) == Id(t0.ty) {
      match t1.ty
      case Pointer(c1) => NoDiagnosticsIffSame(t0.ty.child, c1);
      case Array(c1) => NoDiagnosticsIffSame(t0.ty.child, c1);
      case Integer(size1, signed1) =>
        if size1 != t0.ty.bitSize {
          assert TypeDiagnostics(t0, t1)[0].msg == TypesSizeMismatch;
        } else if signed1 != t0.ty.isSigned {
          assert TypeDiagnostics(t0, t1)[0].msg == IntegersSignMismatch;
        }
      case _ =>
    }
  }

  /** At most two diagnostics come out of one comparison, and a generic
      mismatch is always reported alone. */
  lemma {:induction false} DiagnosticsShape(t0: TypeNode, t1: TypeNode)
    requires Comparable(t0, t1)
    ensures |TypeDiagnostics(t0, t1)| <= 2
    ensures forall e :: e in TypeDiagnostics(t0, t1) && e.msg == TypesMismatch ==> |TypeDiagnostics(t0, t1)| == 1
    decreases t0, 1
  {
    if Id(t1.ty) == Id(t0.ty) {
      match t1.ty
      case Pointer(c1) => DiagnosticsShapeUnder(t0, t1);
      case Array(c1) => DiagnosticsShapeUnder(t0, t1);
      case _ =>
    }
  }

  /** The pointer and array case of `DiagnosticsShape`. */
  lemma {:induction false} DiagnosticsShapeUnder(t0: TypeNode, t1: TypeNode)
    requires Comparable(t0, t1) && Id(t0.ty) == Id(t1.ty) && (t1.ty.Pointer? || t1.ty.Array?)
    ensures |TypeDiagnostics(t0, t1)| <= 2
    ensures forall e :: e in TypeDiagnostics(t0, t1) && e.msg == TypesMismatch ==> |TypeDiagnostics(t0, t1)| == 1
    decreases t0, 0
  {
    var c0, c1 := t0.ty.child, t1.ty.child;
    assert TypeDiagnostics(t0, t1) == TypeDiagnostics(c0, c1);
    DiagnosticsShape(c0, c1);
  }

  // ---------------------------------------------------------------------
  // Expressions

  datatype BinaryExprType =
    | ASSIGN | EQUALS | NOT_EQUALS | GREATER | LESS | GREATER_OR_EQUALS | LESS_OR_EQUALS
    | OtherBinaryOp

  datatype UnaryExprType = NOT | RET | OtherUnaryOp

  /** The analyser's AST nodes, with only the fields the analyser reads. */
  datatype AstNode =
    | FuncProto(pos: Position, name: string, returnType: TypeNode)
    | VarDef(pos: Position, name: string, varType: TypeNode, initializer: Option<AstNode>)
    | BinaryExpr(pos: Position, binOp: BinaryExprType, op1: AstNode, op2: AstNode)
    | UnaryExpr(pos: Position, op: UnaryExprType, expr: AstNode)
    | FuncCallExpr(pos: Position, fnName: string)
    | OtherNode(pos: Position)

  /** `is_ret_stmnt`. */
  predicate IsReturnStatement(n: AstNode)
  {
    n.UnaryExpr? && n.op == RET
  }

  predicate IsComparison(op: BinaryExprType)
  {
    op in {EQUALS, NOT_EQUALS, GREATER, LESS, GREATER_OR_EQUALS, LESS_OR_EQUALS}
  }

  /** What `get_expr_type` yields: a type, nothing, or a path this model
      makes no claim about (another binary operator falling into the unary
      case, and function calls). */
  datatype ExprType = Typed(t: AstType) | NoType | Unmodelled

  function GetExprType(e: AstNode): ExprType
  {
    match e
    case BinaryExpr(_, op, _, op2) =>
      if op == ASSIGN then GetExprType(op2)
      else if IsComparison(op) then Typed(Bool)
      else Unmodelled
    case UnaryExpr(_, op, x) =>
      if op == NOT then Typed(Bool) else GetExprType(x)
    case FuncCallExpr(_, _) => Unmodelled
    case _ => NoType
  }

  /** The expression an assignment or a non-NOT unary operator passes its
      type through from, followed to the end. */
  function TypeSource(e: AstNode): AstNode
  {
    match e
    case BinaryExpr(_, op, _, op2) => if op == ASSIGN then TypeSource(op2) else e
    case UnaryExpr(_, op, x) => if op == NOT then e else TypeSource(x)
    case _ => e
  }

  /** The only type `get_expr_type` knows is `bool`, and it knows it exactly
      for a comparison or a NOT reached through assignments and other unary
      operators. */
  lemma {:induction false} ExprTypeIsBool(e: AstNode)
    ensures GetExprType(e).Typed? ==> GetExprType(e).t == Bool
    ensures GetExprType(e).Typed? <==>
              var s := TypeSource(e);
              (s.BinaryExpr? && IsComparison(s.binOp)) || (s.UnaryExpr? && s.op == NOT)
  {
    match e
    case BinaryExpr(_, op, _, op2) =>
      if op == ASSIGN { ExprTypeIsBool(op2); }
    case UnaryExpr(_, op, x) =>
      if op != NOT { ExprTypeIsBool(x); }
    case _ =>
  }

  // ---------------------------------------------------------------------
  // Block bookkeeping

  /** The bindings a function block adds to the current scope: each local
      definition without an initializer, in order, first binding winning. */
  function BindLocals(m: map<string, Symbol<AstNode>>, stmts: seq<AstNode>): map<string, Symbol<AstNode>>
  {
    if stmts == [] then m
    else
      var s := stmts[|stmts| - 1];
      var before := BindLocals(m, stmts[..|stmts| - 1]);
      if s.VarDef? && s.initializer.None? then Bind(before, Symbol(s.name, VARIABLE, s)) else before
  }

  /** After a block, a name is bound exactly when it was bound before or
      some local definition without initializer defines it; earlier bindings
      are kept. */
  lemma {:induction false} BindLocalsBinds(m: map<string, Symbol<AstNode>>, stmts: seq<AstNode>, key: string)
    ensures key in BindLocals(m, stmts) <==>
              key in m || exists i :: 0 <= i < |stmts| && stmts[i].VarDef? && stmts[i].initializer.None? && stmts[i].name == key
    ensures key in m ==> BindLocals(m, stmts)[key] == m[key]
  {
    if stmts != [] {
      var n := |stmts| - 1;
      BindLocalsBinds(m, stmts[..n], key);
      if exists i :: 0 <= i < n && stmts[..n][i].VarDef? && stmts[..n][i].initializer.None? && stmts[..n][i].name == key {
        var i :| 0 <= i < n && stmts[..n][i].VarDef? && stmts[..n][i].initializer.None? && stmts[..n][i].name == key;
        assert stmts[i] == stmts[..n][i];
      }
      forall i | 0 <= i < n
        ensures stmts[i] == stmts[..n][i]
      {
      }
    }
  }

  // ---------------------------------------------------------------------
  // The analyser

  class SemanticAnalyzer {
    /** The scope being analysed. */
    var symbolTable: Table<AstNode>
    const globalSymbolTable: Table<AstNode>
    var errors: seq<Error>

    ghost predicate Valid()
      reads this
    {
      symbolTable.Linked() && globalSymbolTable.Linked()
    }

    constructor(global: Table<AstNode>)
      requires global.Linked()
      ensures Valid() && symbolTable == global && globalSymbolTable == global && errors == []
    {
      symbolTable := global;
      globalSymbolTable := global;
      errors := [];
    }

    /** `add_semantic_error`, with the record appended as the block rule
        requires. */
    method AddSemanticError(pos: Position, msg: Message)
      modifies this
      ensures errors == Reported(old(errors), Error(pos, msg))
      ensures symbolTable == old(symbolTable)
    {
      errors := errors + [Error(pos, msg)];
    }

    /** `analizeFuncProto`: a struct return type is reported and rejected;
        any other prototype binds the function in the current scope and
        enters a new child scope named after it. */
    method AnalyzeFuncProto(node: AstNode) returns (ok: bool)
      requires node.FuncProto? && Valid()
      modifies this, symbolTable
      ensures Valid()
      ensures ok <==> !node.returnType.ty.Struct?
      ensures !ok ==> errors == Reported(old(errors), Error(node.returnType.pos, StructsUnsupported)) &&
                      symbolTable == old(symbolTable) &&
                      symbolTable.symbols == old(symbolTable.symbols) &&
                      symbolTable.children == old(symbolTable.children)
      ensures ok ==> errors == old(errors) &&
                     old(symbolTable).symbols == Bind(old(symbolTable.symbols), Symbol(node.name, FUNCTION, node)) &&
                     fresh(symbolTable) && symbolTable.parent == old(symbolTable) &&
                     symbolTable.name == node.name && symbolTable.symbols == map[] &&
                     old(symbolTable).children == old(symbolTable.children) + [symbolTable]
    {
      var retType := node.returnType;
      if retType.ty.Struct? {
        AddSemanticError(retType.pos, StructsUnsupported);
        return false;
      }
      symbolTable.AddSymbol(node.name, FUNCTION, node);
      symbolTable := symbolTable.CreateChild(node.name);
      return true;
    }

    /** `analizeVarDef`: a global needs an initializer and is bound in the
        global scope; a local with an initializer is rejected without a
        report, and one without is bound in the current scope. */
    method AnalyzeVarDef(node: AstNode, isGlobal: bool) returns (ok: bool)
      requires node.VarDef?
      modifies this, symbolTable, globalSymbolTable
      ensures symbolTable == old(symbolTable)
      ensures ok <==> (isGlobal == node.initializer.Some?)
      ensures errors == if isGlobal && node.initializer.None?
                        then Reported(old(errors), Error(node.pos, GlobalNeedInitializer(node.name)))
                        else old(errors)
      ensures var target := if isGlobal then globalSymbolTable else symbolTable;
              target.symbols == (if ok then Bind(old(target.symbols), Symbol(node.name, VARIABLE, node))
                                 else old(target.symbols))
      ensures var other := if isGlobal then symbolTable else globalSymbolTable;
              other != (if isGlobal then globalSymbolTable else symbolTable) ==> other.symbols == old(other.symbols)
      ensures symbolTable.children == old(symbolTable.children)
      ensures globalSymbolTable.children == old(globalSymbolTable.children)
    {
      if isGlobal {
        if node.initializer.None? {
          AddSemanticError(node.pos, GlobalNeedInitializer(node.name));
          return false;
        }
        globalSymbolTable.AddSymbol(node.name, VARIABLE, node);
        return true;
      }
      if node.initializer.Some? {
        return false;
      }
      symbolTable.AddSymbol(node.name, VARIABLE, node);
      return true;
    }

    /** `analizeFuncBlock`: every variable definition of the block is
        analysed as a local, in order; the block is accepted exactly when
        no error was recorded meanwhile. Local definitions never report, so
        every block is accepted. */
    method AnalyzeFuncBlock(statements: seq<AstNode>) returns (ok: bool)
      requires Valid()
      modifies this, symbolTable, globalSymbolTable
      ensures Valid()
      ensures ok <==> |errors| == |old(errors)|
      ensures ok && errors == old(errors)
      ensures symbolTable == old(symbolTable)
      ensures symbolTable.symbols == BindLocals(old(symbolTable.symbols), statements)
      ensures symbolTable != globalSymbolTable ==> globalSymbolTable.symbols == old(globalSymbolTable.symbols)
      ensures symbolTable.children == old(symbolTable.children)
      ensures globalSymbolTable.children == old(globalSymbolTable.children)
    {
      var errorsBefore := |errors|;
      var i := 0;
      while i < |statements|
        invariant 0 <= i <= |statements|
        invariant Valid() && symbolTable == old(symbolTable) && errors == old(errors)
        invariant symbolTable.symbols == BindLocals(old(symbolTable.symbols), statements[..i])
        invariant symbolTable != globalSymbolTable ==> globalSymbolTable.symbols == old(globalSymbolTable.symbols)
        invariant symbolTable.children == old(symbolTable.children)
        invariant globalSymbolTable.children == old(globalSymbolTable.children)
      {
        assert statements[..i + 1][..i] == statements[..i];
        var stmt := statements[i];
        if IsReturnStatement(stmt) {
          // The return type check is disabled, so the expression's type
          // is computed and not used.
          var exprType := GetExprType(stmt.expr);
        }
        if stmt.VarDef? {
          var accepted := AnalyzeVarDef(stmt, false);
        }
        i := i + 1;
      }
      assert statements[..i] == statements;
      var errorsAfter := |errors|;
      ok := errorsBefore == errorsAfter;
    }

    /** `check_type`: appends the diagnostics of comparing the two types. */
    method CheckType(t0: TypeNode, t1: TypeNode)
      requires Comparable(t0, t1)
      modifies this
      ensures errors == old(errors) + TypeDiagnostics(t0, t1)
      ensures symbolTable == old(symbolTable)
      decreases t0
    {
      if t1.ty.Struct? == false && Id(t1.ty) == Id(t0.ty) {
        if t1.ty.Void? || t1.ty.Bool? {
          return;
        }
        if t1.ty.Pointer? || t1.ty.Array? {
          CheckType(t0.ty.child, t1.ty.child);
          return;
        }
        if t1.ty.Integer? {
          if t1.ty.bitSize != t0.ty.bitSize {
            AddSemanticError(t0.pos, TypesSizeMismatch);
          }
          if t1.ty.isSigned != t0.ty.isSigned {
            AddSemanticError(t0.pos, IntegersSignMismatch);
          }
          return;
        }
        if t1.ty.bitSize != t0.ty.bitSize {
          AddSemanticError(t0.pos, TypesSizeMismatch);
        }
        return;
      }
      AddSemanticError(t0.pos, TypesMismatch);
    }

    /** `resolve_function`: walks from the current scope outward along the
        parent links and returns the data of the first binding of the name. */
    method ResolveFunction(name: string) returns (r: Option<AstNode>)
      requires Valid()
      ensures r == (match Lookup(BindingsAlong(symbolTable.Path()), name)
                    case Some(s) => Some(s.data)
                    case None => None)
    {
      ghost var path := symbolTable.Path();
      ghost var scopes := BindingsAlong(path);
      ghost var k := 0;
      var curr: Table?<AstNode> := symbolTable;
      while curr != null
        invariant 0 <= k <= |path|
        invariant curr == null <==> k == |path|
        invariant curr != null ==> curr.Linked() && curr.Path() == path[k..]
        invariant Lookup(scopes, name) == Lookup(scopes[k..], name)
        decreases |path| - k
      {
        assert path[k] == curr;
        assert scopes[k] == curr.symbols;
        assert scopes[k..][1..] == scopes[k + 1..];
        assert path[k + 1..] == curr.ancestors;
        var found := curr.HasChild(name);
        if found {
          var symbol := curr.GetChild(name);
          return Some(symbol.value.data);
        }
        curr := curr.parent;
        k := k + 1;
      }
      r := None;
    }
  }
}
