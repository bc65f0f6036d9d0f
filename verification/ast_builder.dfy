/** The bookkeeping of `AstBuilder`: the scope it is in, the parameter and
    statement lists it fills in source order, the symbols it records, and
    the program node it collects top-level results into. */
module Builder {
  import opened Common
  import opened Ast
  import opened ScopeTable
  import Folding

  /** What visiting a statement depends on besides its parse node: the file
      name, whether the current scope is the global one, and the two
      external folding helpers. */
  datatype Env = Env(file: string, isGlobal: bool,
                     resultType: Folding.ResultTypeOf, floatFold: Folding.FloatFold)

  /** A null visit result leaves a node pointer empty. */
  function Present(v: Visit<Node>): (r: Option<Node>)
    ensures r.Some? <==> v.Built?
    ensures r.Some? ==> r.value == v.node
  {
    if v.Built? then Some(v.node) else None
  }

  // ---------------------------------------------------------------------
  // List visitors: empty and errored entries are skipped

  predicate Usable<T>(e: Entry<T>)
  {
    !e.isEmpty && !e.errored
  }

  /** The contents of the entries a list visitor keeps, in source order. */
  function Kept<T>(es: seq<Entry<T>>): (r: seq<T>)
    ensures |r| <= |es|
  {
    if es == [] then []
    else
      var last := es[|es| - 1];
      Kept(es[..|es| - 1]) + (if Usable(last) then [last.content] else [])
  }

  /** Keeping distributes over concatenation: the kept entries of a list
      stay in their source order. */
  lemma {:induction false} KeptAppend<T>(a: seq<Entry<T>>, b: seq<Entry<T>>)
    ensures Kept(a + b) == Kept(a) + Kept(b)
    decreases |b|
  {
    if b == [] {
      assert a + b == a;
    } else {
      var n := |b| - 1;
      assert (a + b)[..|a + b| - 1] == a + b[..n];
      KeptAppend(a, b[..n]);
    }
  }

  /** A value is kept exactly when some usable entry holds it. */
  lemma {:induction false} KeptMembers<T>(es: seq<Entry<T>>, x: T)
    ensures x in Kept(es) <==> exists i :: 0 <= i < |es| && Usable(es[i]) && es[i].content == x
    decreases |es|
  {
    if es != [] {
      var n := |es| - 1;
      KeptMembers(es[..n], x);
      if x in Kept(es[..n]) {
        var i :| 0 <= i < n && Usable(es[..n][i]) && es[..n][i].content == x;
        assert es[i] == es[..n][i];
      } else {
        forall i | 0 <= i < n && Usable(es[i])
          ensures es[i].content != x
        {
          assert es[..n][i] == es[i];
        }
      }
    }
  }

  /** When no entry is empty or errored, every entry is kept. */
  lemma {:induction false} KeptAllUsable<T>(es: seq<Entry<T>>)
    requires forall i :: 0 <= i < |es| ==> Usable(es[i])
    ensures |Kept(es)| == |es|
    ensures forall i :: 0 <= i < |es| ==> Kept(es)[i] == es[i].content
    decreases |es|
  {
    if es != [] {
      KeptAllUsable(es[..|es| - 1]);
    }
  }

  // ---------------------------------------------------------------------
  // Parameters

  /** A parameter definition: the line is that of the whole parameter list. */
  function ParamDef(file: string, line: int, p: ParamDecl): VarDef
  {
    VarDef(file, line, p.name, p.typeName, false, None)
  }

  // ---------------------------------------------------------------------
  // Statements

  /** `visitVarDef` without its effect on the scope. */
  function VarDefNode(env: Env, ctx: VarDefCtx): (r: Visit<VarDef>)
    ensures !r.Null?
    ensures r.Fault? <==>
              ctx.init.Some? && Folding.BuildExprList(ctx.init.value, env.resultType, env.floatFold).Fault?
    ensures r.Built? ==> r.node.name == ctx.name && r.node.varType == ctx.typeName &&
                         r.node.line == ctx.line && r.node.file == env.file &&
                         r.node.isGlobal == env.isGlobal
    ensures r.Built? ==> (r.node.assignment.Some? <==> ctx.init.Some?)
    ensures r.Built? && ctx.init.Some? ==>
              r.node.assignment == Some(Assign(Resolved(r.node.Key()),
                Present(Folding.BuildExprList(ctx.init.value, env.resultType, env.floatFold))))
  {
    var def := VarDef(env.file, ctx.line, ctx.name, ctx.typeName, env.isGlobal, None);
    match ctx.init
    case None => Built(def)
    case Some(es) =>
      var v := Folding.BuildExprList(es, env.resultType, env.floatFold);
      if v.Fault? then Fault(v.why)
      else Built(def.(assignment := Some(Assign(Resolved(def.Key()), Present(v)))))
  }

  /** What visiting one statement yields. */
  function StatementNode(env: Env, s: Statement): (r: Visit<Node>)
    ensures r.Built? && r.node.VariableDef? ==> s.VarDefStmt? && r.node.def.name == s.def.name
  {
    match s
    case VarDefStmt(ctx) =>
      (match VarDefNode(env, ctx)
       case Built(def) => Built(VariableDef(def))
       case Fault(why) => Fault(why)
       case Null => Null)
    case AssignmentStmt(target, values) =>
      var v := Folding.BuildExprList(values, env.resultType, env.floatFold);
      if v.Fault? then Fault(v.why) else Built(Assign(Unresolved(target), Present(v)))
    case ReturnStmt(values) =>
      var v := Folding.BuildExprList(values, env.resultType, env.floatFold);
      if v.Fault? then Fault(v.why) else Built(Return(Present(v)))
    case ExprStmt(e) => Folding.BuildExpr(e, env.resultType, env.floatFold)
  }

  /** The results of the statements a statement list visits, in order. */
  function Results(env: Env, body: seq<Entry<Statement>>): (r: seq<Visit<Node>>)
    ensures |r| == |Kept(body)|
  {
    if body == [] then []
    else
      var last := body[|body| - 1];
      Results(env, body[..|body| - 1]) + (if Usable(last) then [StatementNode(env, last.content)] else [])
  }

  lemma {:induction false} ResultsAppend(env: Env, a: seq<Entry<Statement>>, b: seq<Entry<Statement>>)
    ensures Results(env, a + b) == Results(env, a) + Results(env, b)
    decreases |b|
  {
    if b == [] {
      assert a + b == a;
    } else {
      var n := |b| - 1;
      assert (a + b)[..|a + b| - 1] == a + b[..n];
      ResultsAppend(env, a, b[..n]);
    }
  }

  // ---------------------------------------------------------------------
  // Collecting results

  /** The nodes collected so far, the bindings of the current scope, and
      the fault that ended the walk, if any. */
  datatype Progress = Progress(nodes: seq<Node>, symbols: map<string, Symbol<Node>>, fault: Option<FaultKind>)

  function Start(symbols: map<string, Symbol<Node>>): Progress
  {
    Progress([], symbols, None)
  }

  /** One visit result: a built node is pushed, and a variable definition
      also binds its name in the current scope; a null result is dropped;
      a fault ends the walk. */
  function Step(p: Progress, r: Visit<Node>): Progress
  {
    if p.fault.Some? then p
    else
      match r
      case Null => p
      case Fault(why) => p.(fault := Some(why))
      case Built(n) =>
        Progress(p.nodes + [n],
                 if n.VariableDef? then Bind(p.symbols, Symbol(n.def.name, VARIABLE, n)) else p.symbols,
                 None)
  }

  function Run(p: Progress, rs: seq<Visit<Node>>): Progress
  {
    if rs == [] then p else Step(Run(p, rs[..|rs| - 1]), rs[|rs| - 1])
  }

  /** The nodes built among some results, in order. */
  function BuiltNodes(rs: seq<Visit<Node>>): (ns: seq<Node>)
    ensures |ns| <= |rs|
  {
    if rs == [] then []
    else BuiltNodes(rs[..|rs| - 1]) + (if rs[|rs| - 1].Built? then [rs[|rs| - 1].node] else [])
  }

  lemma {:induction false} RunAppend(p: Progress, a: seq<Visit<Node>>, b: seq<Visit<Node>>)
    ensures Run(p, a + b) == Run(Run(p, a), b)
    decreases |b|
  {
    if b == [] {
      assert a + b == a;
    } else {
      var n := |b| - 1;
      assert (a + b)[..|a + b| - 1] == a + b[..n];
      RunAppend(p, a, b[..n]);
    }
  }

  /** After a fault nothing more is collected or bound. */
  lemma {:induction false} RunFaulted(p: Progress, rs: seq<Visit<Node>>)
    requires p.fault.Some?
    ensures Run(p, rs) == p
    decreases |rs|
  {
    if rs != [] {
      RunFaulted(p, rs[..|rs| - 1]);
    }
  }

  /** The walk over a prefix one longer takes one more step. */
  lemma RunPrefixStep(p: Progress, rs: seq<Visit<Node>>, i: nat)
    requires i < |rs|
    ensures Run(p, rs[..i + 1]) == Step(Run(p, rs[..i]), rs[i])
  {
    var upto := rs[..i + 1];
    assert upto[..|upto| - 1] == rs[..i] && upto[|upto| - 1] == rs[i];
  }

  /** A step that does not fault appends the built node, if any, and binds
      what a step from the same bindings binds. */
  lemma StepFrom(p: Progress, r: Visit<Node>)
    requires p.fault.None? && !r.Fault?
    ensures Step(p, r) == Progress(p.nodes + (if r.Built? then [r.node] else []), Step(Start(p.symbols), r).symbols, None)
  {
  }

  /** The walk over one more result, when it does not fault. */
  lemma RunAdvances(p: Progress, rs: seq<Visit<Node>>, i: nat, nodes: seq<Node>,
                    symbols: map<string, Symbol<Node>>)
    requires i < |rs| && !rs[i].Fault?
    requires Run(p, rs[..i]) == Progress(nodes, symbols, None)
    ensures Run(p, rs[..i + 1])
            == Progress(nodes + (if rs[i].Built? then [rs[i].node] else []), Step(Start(symbols), rs[i]).symbols, None)
  {
    RunPrefixStep(p, rs, i);
    StepFrom(Run(p, rs[..i]), rs[i]);
  }

  /** The walk over all results, when the next one faults. */
  lemma RunStops(p: Progress, rs: seq<Visit<Node>>, i: nat, nodes: seq<Node>,
                 symbols: map<string, Symbol<Node>>)
    requires i < |rs| && rs[i].Fault?
    requires Run(p, rs[..i]) == Progress(nodes, symbols, None)
    ensures Run(p, rs) == Progress(nodes, symbols, Some(rs[i].why))
  {
    RunPrefixStep(p, rs, i);
    RunPrefixFaulted(p, rs, i + 1);
  }

  /** Once the walk over a prefix has faulted, the rest changes nothing. */
  lemma RunPrefixFaulted(p: Progress, rs: seq<Visit<Node>>, j: nat)
    requires j <= |rs| && Run(p, rs[..j]).fault.Some?
    ensures Run(p, rs) == Run(p, rs[..j])
  {
    assert rs == rs[..j] + rs[j..];
    RunAppend(p, rs[..j], rs[j..]);
    RunFaulted(Run(p, rs[..j]), rs[j..]);
  }

  /** A statement list whose first `j` entries already ended in a fault
      collects nothing more. */
  lemma {:induction false} FaultEndsBlock(env: Env, p: Progress, body: seq<Entry<Statement>>, j: nat)
    requires j <= |body| && Run(p, Results(env, body[..j])).fault.Some?
    ensures Run(p, Results(env, body)) == Run(p, Results(env, body[..j]))
  {
    assert body == body[..j] + body[j..];
    ResultsAppend(env, body[..j], body[j..]);
    RunAppend(p, Results(env, body[..j]), Results(env, body[j..]));
    RunFaulted(Run(p, Results(env, body[..j])), Results(env, body[j..]));
  }

  /** Taking one more entry of a statement list: a usable entry adds one
      step, any other entry adds nothing. */
  lemma RunNext(env: Env, p: Progress, body: seq<Entry<Statement>>, i: nat)
    requires i < |body|
    ensures Run(p, Results(env, body[..i + 1])) ==
              if Usable(body[i]) then Step(Run(p, Results(env, body[..i])), StatementNode(env, body[i].content))
              else Run(p, Results(env, body[..i]))
  {
    var upto := body[..i + 1];
    assert upto[..|upto| - 1] == body[..i] && upto[|upto| - 1] == body[i];
    var before := Results(env, body[..i]);
    assert Results(env, upto) == before + (if Usable(body[i]) then [StatementNode(env, body[i].content)] else []);
    if Usable(body[i]) {
      var x := StatementNode(env, body[i].content);
      var rs := before + [x];
      assert rs[..|rs| - 1] == before && rs[|rs| - 1] == x;
      assert Run(p, rs) == Step(Run(p, before), x);
    } else {
      assert Results(env, upto) == before;
    }
  }

  /** Without a fault, the walk pushes exactly the built nodes, in their
      source order; it ends in a fault exactly when some result is one. */
  lemma {:induction false} RunCollects(p: Progress, rs: seq<Visit<Node>>)
    requires p.fault.None?
    ensures Run(p, rs).fault.None? <==> forall i :: 0 <= i < |rs| ==> !rs[i].Fault?
    ensures Run(p, rs).fault.None? ==> Run(p, rs).nodes == p.nodes + BuiltNodes(rs)
    decreases |rs|
  {
    if rs != [] {
      var n := |rs| - 1;
      RunCollects(p, rs[..n]);
      if Run(p, rs[..n]).fault.Some? {
        var i :| 0 <= i < n && rs[..n][i].Fault?;
        assert rs[i] == rs[..n][i];
      } else {
        forall i | 0 <= i < n ensures !rs[i].Fault? {
          assert rs[i] == rs[..n][i];
        }
      }
    }
  }

  /** Nodes are only ever appended, and a binding once made is never
      replaced: the first definition of a name wins. */
  lemma {:induction false} RunKeepsEarlier(p: Progress, rs: seq<Visit<Node>>)
    ensures p.nodes <= Run(p, rs).nodes
    ensures p.symbols.Keys <= Run(p, rs).symbols.Keys
    ensures forall k :: k in p.symbols ==> Run(p, rs).symbols[k] == p.symbols[k]
    decreases |rs|
  {
    if rs != [] {
      RunKeepsEarlier(p, rs[..|rs| - 1]);
    }
  }

  // ---------------------------------------------------------------------
  // Functions and top-level declarations

  /** `visitFunctionDef`'s node: its body is visited in a fresh scope that
      is never the global one. */
  function FunctionNode(file: string, ctx: FunctionDefCtx,
                        resultType: Folding.ResultTypeOf, floatFold: Folding.FloatFold): (r: Visit<Node>)
    ensures !r.Null?
    ensures var body := Run(Start(map[]), Results(Env(file, false, resultType, floatFold), ctx.body));
            && (r.Fault? <==> body.fault.Some?)
            && (r.Fault? ==> r.why == body.fault.value)
            && (r.Built? ==> r.node.FunctionDef?)
            && (r.Built? ==> var f := r.node.fn;
                  && f.file == file && f.line == ctx.line
                  && f.name == ctx.name && f.returnType == ctx.returnType
                  && |f.params| == |Kept(ctx.params)|
                  && (forall i :: 0 <= i < |f.params| ==> f.params[i] == ParamDef(file, ctx.paramsLine, Kept(ctx.params)[i]))
                  && f.block == body.nodes)
  {
    var body := Run(Start(map[]), Results(Env(file, false, resultType, floatFold), ctx.body));
    if body.fault.Some? then Fault(body.fault.value)
    else
      var ps := Kept(ctx.params);
      Built(FunctionDef(FunctionDefNode(file, ctx.line, ctx.name, ctx.returnType,
                                        seq(|ps|, i requires 0 <= i < |ps| => ParamDef(file, ctx.paramsLine, ps[i])),
                                        body.nodes)))
  }

  /** Local definitions in a function body are never marked global. */
  lemma {:induction false} LocalsAreNotGlobal(file: string, ctx: FunctionDefCtx,
                                              resultType: Folding.ResultTypeOf, floatFold: Folding.FloatFold)
    requires FunctionNode(file, ctx, resultType, floatFold).Built?
    ensures forall n :: n in FunctionNode(file, ctx, resultType, floatFold).node.fn.block && n.VariableDef? ==>
              !n.def.isGlobal
  {
    var env := Env(file, false, resultType, floatFold);
    var rs := Results(env, ctx.body);
    RunCollects(Start(map[]), rs);
    BuiltNodesDefs(env, ctx.body);
  }

  /** Every variable definition a statement list builds carries the
      environment's global flag. */
  lemma {:induction false} BuiltNodesDefs(env: Env, body: seq<Entry<Statement>>)
    ensures forall n :: n in BuiltNodes(Results(env, body)) && n.VariableDef? ==> n.def.isGlobal == env.isGlobal
    decreases |body|
  {
    if body != [] {
      var n := |body| - 1;
      var last := body[n];
      BuiltNodesDefs(env, body[..n]);
      var rs := Results(env, body);
      var pre := Results(env, body[..n]);
      if Usable(last) {
        assert rs == pre + [StatementNode(env, last.content)];
        assert rs[..|rs| - 1] == pre;
      } else {
        assert rs == pre;
      }
    }
  }

  /** What visiting one child of the source file yields. */
  function TopLevelNode(env: Env, d: TopLevel): Visit<Node>
  {
    match d
    case FunctionDecl(ctx) => FunctionNode(env.file, ctx, env.resultType, env.floatFold)
    case GlobalVarDecl(ctx) => StatementNode(env, VarDefStmt(ctx))
    case OtherDecl => Null
  }

  function TopLevelResults(env: Env, ds: seq<TopLevel>): (rs: seq<Visit<Node>>)
    ensures |rs| == |ds|
    ensures forall i :: 0 <= i < |ds| ==> rs[i] == TopLevelNode(env, ds[i])
  {
    seq(|ds|, i requires 0 <= i < |ds| => TopLevelNode(env, ds[i]))
  }

  /** The function definitions among the top-level declarations, in order. */
  function FunctionDecls(ds: seq<TopLevel>): (fs: seq<FunctionDefCtx>)
    ensures |fs| <= |ds|
  {
    if ds == [] then []
    else FunctionDecls(ds[..|ds| - 1]) + (if ds[|ds| - 1].FunctionDecl? then [ds[|ds| - 1].fn] else [])
  }

  lemma FunctionDeclsStep(ds: seq<TopLevel>, i: nat)
    requires i < |ds|
    ensures FunctionDecls(ds[..i + 1]) == FunctionDecls(ds[..i]) + (if ds[i].FunctionDecl? then [ds[i].fn] else [])
  {
    assert ds[..i + 1][..i] == ds[..i];
  }

  // ---------------------------------------------------------------------
  // The builder

  class AstBuilder {
    const fileName: string
    const resultType: Folding.ResultTypeOf
    const floatFold: Folding.FloatFold
    const globalScope: Table<Node>
    var currentScope: Table<Node>
    /** The children of the program node. */
    var program: seq<Node>

    ghost predicate Valid()
      reads this
    {
      currentScope.Linked() && globalScope.Linked()
    }

    function Environment(): Env
      reads this
    {
      Env(fileName, currentScope == globalScope, resultType, floatFold)
    }

    constructor(fileName: string, resultType: Folding.ResultTypeOf, floatFold: Folding.FloatFold)
      ensures Valid() && fresh(globalScope) && currentScope == globalScope
      ensures globalScope.symbols == map[] && globalScope.children == [] && program == []
      ensures this.fileName == fileName && this.resultType == resultType && this.floatFold == floatFold
    {
      this.fileName := fileName;
      this.resultType := resultType;
      this.floatFold := floatFold;
      var g := new Table.Root("global");
      globalScope := g;
      currentScope := g;
      program := [];
    }

    /** `visitParameters`: one definition per usable parameter entry, in
        source order. The parameters are not bound in any scope. */
    method VisitParameters(ctx: FunctionDefCtx) returns (params: seq<VarDef>)
      ensures |params| == |Kept(ctx.params)|
      ensures forall i :: 0 <= i < |params| ==> params[i] == ParamDef(fileName, ctx.paramsLine, Kept(ctx.params)[i])
    {
      params := [];
      var i := 0;
      while i < |ctx.params|
        invariant 0 <= i <= |ctx.params|
        invariant |params| == |Kept(ctx.params[..i])|
        invariant forall j :: 0 <= j < |params| ==> params[j] == ParamDef(fileName, ctx.paramsLine, Kept(ctx.params[..i])[j])
      {
        assert ctx.params[..i + 1][..i] == ctx.params[..i];
        var entry := ctx.params[i];
        if Usable(entry) {
          params := params + [ParamDef(fileName, ctx.paramsLine, entry.content)];
        }
        i := i + 1;
      }
      assert ctx.params[..i] == ctx.params;
    }

    /** `visitVarDef`: the definition is global exactly when the current
        scope is the global one, and its name is bound in the current scope
        unless visiting the initializer failed. */
    method VisitVarDef(ctx: VarDefCtx) returns (r: Visit<Node>)
      modifies currentScope
      ensures r == StatementNode(Environment(), VarDefStmt(ctx))
      ensures r.Built? ==> r.node.def.isGlobal == (currentScope == globalScope)
      ensures r.Built? ==> currentScope.symbols == Bind(old(currentScope.symbols), Symbol(ctx.name, VARIABLE, r.node))
      ensures r.Fault? ==> currentScope.symbols == old(currentScope.symbols)
      ensures currentScope.children == old(currentScope.children)
    {
      var isGlobal := currentScope == globalScope;
      var def := VarDef(fileName, ctx.line, ctx.name, ctx.typeName, isGlobal, None);
      if ctx.init.Some? {
        var v := Folding.BuildExprList(ctx.init.value, resultType, floatFold);
        if v.Fault? {
          return Fault(v.why);
        }
        def := def.(assignment := Some(Assign(Resolved(def.Key()), Present(v))));
      }
      r := Built(VariableDef(def));
      currentScope.AddSymbol(def.name, VARIABLE, r.node);
    }

    /** Visiting one statement of a statement list. */
    method VisitStatement(s: Statement) returns (r: Visit<Node>)
      modifies currentScope
      ensures r == StatementNode(Environment(), s)
      ensures currentScope.symbols == Step(Start(old(currentScope.symbols)), r).symbols
      ensures currentScope.children == old(currentScope.children)
    {
      if s.VarDefStmt? {
        r := VisitVarDef(s.def);
      } else {
        r := StatementNode(Environment(), s);
      }
    }

    /** `visitStatementList`: the usable statements are visited in order,
        every statement that yields a node is pushed, and a fault ends the
        visit. */
    method VisitStatementList(body: seq<Entry<Statement>>) returns (r: Visit<seq<Node>>)
      modifies currentScope
      ensures var p := Run(Start(old(currentScope.symbols)), Results(Environment(), body));
              currentScope.symbols == p.symbols &&
              r == (if p.fault.Some? then Fault(p.fault.value) else Built(p.nodes))
      ensures currentScope.children == old(currentScope.children)
    {
      ghost var start := Start(currentScope.symbols);
      ghost var env := Environment();
      var nodes: seq<Node> := [];
      var i := 0;
      while i < |body|
        invariant 0 <= i <= |body|
        invariant Environment() == env
        invariant Run(start, Results(env, body[..i])) == Progress(nodes, currentScope.symbols, None)
        invariant currentScope.children == old(currentScope.children)
      {
        RunNext(env, start, body, i);
        var entry := body[i];
        if Usable(entry) {
          var s := VisitStatement(entry.content);
          if s.Fault? {
            FaultEndsBlock(env, start, body, i + 1);
            return Fault(s.why);
          }
          if s.Built? {
            nodes := nodes + [s.node];
          }
        }
        i := i + 1;
      }
      assert body[..i] == body;
      r := Built(nodes);
    }

    /** `visitFunctionDef`: the body is visited in a new child of the
        current scope, and the current scope is restored afterwards; a fault
        while visiting the body leaves the builder in the child scope. */
    method VisitFunctionDef(ctx: FunctionDefCtx) returns (r: Visit<Node>)
      requires Valid()
      modifies this, currentScope
      ensures Valid()
      ensures r == FunctionNode(fileName, ctx, resultType, floatFold)
      ensures !r.Fault? ==> currentScope == old(currentScope)
      ensures r.Fault? ==> currentScope.parent == old(currentScope) && fresh(currentScope)
      ensures program == old(program)
      ensures old(currentScope).symbols == old(currentScope.symbols)
      ensures |old(currentScope).children| == |old(currentScope.children)| + 1
      ensures old(currentScope).children[..|old(currentScope.children)|] == old(currentScope.children)
      ensures var child := old(currentScope).children[|old(currentScope.children)|];
              fresh(child) && child.name == ctx.name && child.parent == old(currentScope) &&
              child.symbols == Run(Start(map[]), Results(Env(fileName, false, resultType, floatFold), ctx.body)).symbols
    {
      var outer := currentScope;
      var child := currentScope.CreateChild(ctx.name);
      currentScope := child;
      assert child != globalScope;
      var params := VisitParameters(ctx);
      var block := VisitStatementList(ctx.body);
      if block.Fault? {
        return Fault(block.why);
      }
      currentScope := child.parent;
      ghost var ps := Kept(ctx.params);
      assert params == seq(|ps|, i requires 0 <= i < |ps| => ParamDef(fileName, ctx.paramsLine, ps[i]));
      r := Built(FunctionDef(FunctionDefNode(fileName, ctx.line, ctx.name, ctx.returnType, params, block.node)));
    }

    /** The symbols a function body binds in its own scope. */
    function BodySymbols(ctx: FunctionDefCtx): map<string, Symbol<Node>>
    {
      Run(Start(map[]), Results(Env(fileName, false, resultType, floatFold), ctx.body)).symbols
    }

    /** `scopes` are the scopes of the functions `fs`, in order: children of
        `parent`, named after them and holding their bodies' bindings. */
    ghost predicate ScopesOf(scopes: seq<Table<Node>>, fs: seq<FunctionDefCtx>, parent: Table<Node>)
      reads scopes
    {
      && |scopes| == |fs|
      && forall j :: 0 <= j < |scopes| ==>
           scopes[j].name == fs[j].name && scopes[j].parent == parent && scopes[j].symbols == BodySymbols(fs[j])
    }

    /** A function's scope appended after the scopes of earlier functions. */
    lemma ScopesOfAppend(scopes: seq<Table<Node>>, fs: seq<FunctionDefCtx>, parent: Table<Node>,
                         scope: Table<Node>, ctx: FunctionDefCtx)
      requires ScopesOf(scopes, fs, parent)
      requires scope.name == ctx.name && scope.parent == parent && scope.symbols == BodySymbols(ctx)
      ensures ScopesOf(scopes + [scope], fs + [ctx], parent)
    {
    }

    /** Visiting one child of the source file (a function definition, a
        global variable definition, or anything else, which builds nothing)
        and appending the node it builds to the program. The scopes `created`
        of the functions `fs` visited before stay as they were, and a function
        definition's scope joins them. */
    method VisitTopLevel(d: TopLevel, ghost created: seq<Table<Node>>, ghost fs: seq<FunctionDefCtx>)
      returns (r: Visit<Node>)
      requires Valid()
      requires ScopesOf(created, fs, currentScope) && currentScope !in created
      modifies this, currentScope
      ensures Valid()
      ensures r == TopLevelNode(old(Environment()), d)
      ensures program == old(program) + (if r.Built? then [r.node] else [])
      ensures !r.Fault? ==> currentScope == old(currentScope)
      ensures old(currentScope).symbols == Step(Start(old(currentScope.symbols)), r).symbols
      ensures |old(currentScope).children| >= |old(currentScope.children)|
      ensures old(currentScope).children[..|old(currentScope.children)|] == old(currentScope.children)
      ensures var added := old(currentScope).children[|old(currentScope.children)|..];
              && ScopesOf(created + added, fs + (if d.FunctionDecl? then [d.fn] else []), old(currentScope))
              && old(currentScope) !in created + added
    {
      ghost var outer := currentScope;
      match d {
        case FunctionDecl(ctx) =>
          r := VisitFunctionDef(ctx);
          ghost var scope := outer.children[|old(outer.children)|];
          assert outer.children[|old(outer.children)|..] == [scope];
          ScopesOfAppend(created, fs, outer, scope, ctx);
        case GlobalVarDecl(ctx) =>
          r := VisitVarDef(ctx);
          assert outer.children[|old(outer.children)|..] == [];
          assert created + [] == created;
        case OtherDecl =>
          r := Null;
          assert created + outer.children[|old(outer.children)|..] == created;
      }
      if r.Built? {
        program := program + [r.node];
      }
    }

    /** The state after visiting the first `i` children of the source file
        from a scope `outer` whose symbols started as `start`'s: the program
        grew by the walk's nodes, `outer` holds its bindings, and each
        function visited has appended its own scope to `outer`'s children. */
    ghost predicate Walked(decls: seq<TopLevel>, i: nat, env: Env, start: Progress, outer: Table<Node>,
                           program0: seq<Node>, children0: seq<Table<Node>>)
      reads this, outer, outer.children
    {
      && i <= |decls|
      && Valid() && currentScope == outer && Environment() == env
      && |program| >= |program0| && program[..|program0|] == program0
      && |outer.children| >= |children0| && outer.children[..|children0|] == children0
      && Run(start, TopLevelResults(env, decls)[..i]) == Progress(program[|program0|..], outer.symbols, None)
      && ScopesOf(outer.children[|children0|..], FunctionDecls(decls[..i]), outer)
      && outer !in outer.children[|children0|..]
    }

    /** One step of `visitSourceFile`'s walk: the next child is visited.
        Unless it faults, the walk has advanced by one child; if it faults,
        the walk is over with that fault. */
    method VisitNext(decls: seq<TopLevel>, i: nat, ghost env: Env, ghost start: Progress, ghost outer: Table<Node>,
                     ghost program0: seq<Node>, ghost children0: seq<Table<Node>>) returns (r: Visit<Node>)
      requires i < |decls| && Walked(decls, i, env, start, outer, program0, children0)
      modifies this, outer
      ensures r == TopLevelNode(env, decls[i])
      ensures !r.Fault? ==> Walked(decls, i + 1, env, start, outer, program0, children0)
      ensures r.Fault? ==>
                var p := Run(start, TopLevelResults(env, decls));
                && Valid() && program == program0 + p.nodes && outer.symbols == p.symbols && p.fault == Some(r.why)
                && |outer.children| >= |children0| && outer.children[..|children0|] == children0
    {
      ghost var rs := TopLevelResults(env, decls);
      ghost var created := outer.children[|children0|..];
      ghost var collected := program[|program0|..];
      ghost var symbols := outer.symbols;
      ghost var before := outer.children;
      assert before == children0 + created;
      assert program == program0 + collected;
      r := VisitTopLevel(decls[i], created, FunctionDecls(decls[..i]));
      ghost var added := outer.children[|before|..];
      assert outer.children == children0 + (created + added);
      if r.Fault? {
        RunStops(start, rs, i, collected, symbols);
        return;
      }
      RunAdvances(start, rs, i, collected, symbols);
      FunctionDeclsStep(decls, i);
      assert program[|program0|..] == collected + (if r.Built? then [r.node] else []);
    }

    /** `visitSourceFile`: every child of the source file is visited in
        order and every non-null result is appended to the program. A
        function definition appends its scope to the current scope's
        children. */
    method VisitSourceFile(decls: seq<TopLevel>) returns (fault: Option<FaultKind>)
      requires Valid()
      modifies this, currentScope
      ensures Valid()
      ensures var p := Run(Start(old(currentScope.symbols)), TopLevelResults(old(Environment()), decls));
              program == old(program) + p.nodes && old(currentScope).symbols == p.symbols &&
              fault == p.fault
      ensures fault.None? ==> currentScope == old(currentScope)
      ensures |old(currentScope).children| >= |old(currentScope.children)|
      ensures old(currentScope).children[..|old(currentScope.children)|] == old(currentScope.children)
      ensures fault.None? ==>
                ScopesOf(currentScope.children[|old(currentScope.children)|..], FunctionDecls(decls), currentScope)
    {
      ghost var env := Environment();
      ghost var start := Start(currentScope.symbols);
      ghost var outer := currentScope;
      assert TopLevelResults(env, decls)[..0] == [] && decls[..0] == [];
      assert program[|program|..] == [] && outer.children[|outer.children|..] == [];
      var i := 0;
      while i < |decls|
        invariant Walked(decls, i, env, start, outer, old(program), old(outer.children))
        modifies this, outer
      {
        var r := VisitNext(decls, i, env, start, outer, old(program), old(outer.children));
        if r.Fault? {
          return Some(r.why);
        }
        i := i + 1;
      }
      assert TopLevelResults(env, decls)[..i] == TopLevelResults(env, decls) && decls[..i] == decls;
      fault := None;
    }
  }
}
