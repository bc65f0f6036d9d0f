# LlamaLang front end: literal typing, constant folding, scopes and semantic checks

This project models the core of the LlamaLang compiler front end in Dafny and
proves properties of that model. It covers these parts:

- **The AST builder** (`AstBuilder`).
  - It classifies literals into constant types (`I8` … `I64`, `FLOAT`, `DOUBLE`, `CHAR`, `STRING`).
  - It folds binary expressions over two numeric constants eagerly. The arithmetic is 64-bit signed, and the values travel as decimal text through `stoll` and `std::to_string`.
  - It negates literals.
  - It keeps the function scope current while a function definition is visited.
  - It binds variable definitions in the current scope.
  - It collects parameters, statements and top-level declarations in source order.
  - It aggregates child results the way the parse-tree visitor does.
- **The scope table and the semantic analyzer.**
  - Scopes form a tree. A name's first binding in a scope wins.
  - Function lookup walks outward along the parent links.
  - The analyzer has rules for function prototypes, for global and local variable definitions, and for function blocks.
  - It compares types structurally and reports distinct diagnostics.
  - It computes the partial static type of expressions.
- **Catalogue code.**
  - The values and aliases of the `PRIMITIVE_TYPE` enumeration.
  - The lazily filled constant-type name table behind `GetConstantTypeName`.
  - The driver's default module configuration, and the key/value dispatch that reads an `llang.module` descriptor over it.

The files:

- `common.dfy`: the `Visit` outcome of a visit. It is `Null`, `Built(node)`, or `Fault(why)`. `Fault` stands for undefined behaviour or a thrown exception in the C++ code.
- `int64.dfy`: C++'s truncating `/` and `%`, written out.
- `decimal.dfy`: the text functions. These are `stoll`, `std::to_string` and `istream >> uint64_t`.
- `ast.dfy`: the parse tree and the AST, both as datatypes.
- `visiting.dfy`: `visitChildren`, `shouldVisitNextChild` and `aggregateResult`.
- `folding.dfy` and `folding_properties.dfy`: `visitBasicLit`, `visitExpression` and `visitUnaryExpr`, and their properties.
- `scope_table.dfy`: the `Table` class.
- `ast_builder.dfy`: the builder's bookkeeping, as functions and as the `AstBuilder` class.
- `semantic.dfy`: the `SemanticAnalyzer` class, `check_type`, `get_expr_type` and `is_ret_stmnt`.
- `primitives.dfy`, `constant_node.dfy`, `module_config.dfy`: the catalogue code.

Some operations depend on things these files do not define, and they take those as parameters:

- `GetResultType` is the `resultType` parameter. It receives the operation and the two operand nodes (right, then left), values included.
- The double-precision folding branches are the `floatFold` parameter. It receives the operation and the two operand texts and returns the folded text, or nothing when `stod` throws on an operand. Nothing is then a `FloatConversion` fault.
- `fs::canonical` is the `canonical` parameter of the descriptor reader.

## Model

| member | source | states |
|---|---|---|
| Visiting.VisitChildren | src/ast/AstBuilder.cpp:392-405 | The loop over the children computes the fold of `aggregateResult` over exactly the children `shouldVisitNextChild` admits. |
| Visiting.NullWhenAllNull | src/ast/AstBuilder.cpp:392-424 | The aggregated result is null exactly when every visited child returned null. |
| Visiting.BuiltIsLastNonNull | src/ast/AstBuilder.cpp:419-424 | A non-null aggregate is the result of some visited child, and every visited child after it returned null. |
| Visiting.FaultIsFinal | src/ast/AstBuilder.cpp:392-405 | Once a child's visit faults, no later child changes the outcome. |
| FoldingProperties.NarrowestIsLeast | src/ast/AstBuilder.cpp:345-350 | The chosen integer type holds the value, no narrower integer type does, and only values beyond 64 bits get none. |
| FoldingProperties.IntegerLiteralType | src/ast/AstBuilder.cpp:339-357 | A decimal integer literal is typed with the narrowest of I8/I16/I32/I64 whose unsigned range holds its value, and no node is produced beyond 64 bits (corrected `good()` test). |
| FoldingProperties.AsWrittenAgreesUpTo32Bits | src/ast/AstBuilder.cpp:339-350 | Up to 2^32-1, the classification as written gives the same type as the corrected one. |
| FoldingProperties.AsWrittenDropsWideLiterals | src/ast/AstBuilder.cpp:351-355 | As written, every literal between 2^32 and 2^64-1 gets no type because the stream has reached its end, while the corrected builder gives an I64 constant that keeps the literal text. |
| FoldingProperties.AsWrittenDropsFiveBillion | src/ast/AstBuilder.cpp:351-355 | The literal 5000000000 is dropped as written and is I64 when corrected. |
| FoldingProperties.SmallLiteral | src/ast/AstBuilder.cpp:345-357 | A literal up to 255 becomes an I8 constant whose text `stoll` reads back as its value. |
| FoldingProperties.FloatingLiteralType | src/ast/AstBuilder.cpp:358-368 | A floating literal is FLOAT exactly when it ends in `f` or `F`, and then only that character is stripped. Otherwise it is DOUBLE with the text unchanged. |
| FoldingProperties.FoldedIntegerValue | src/ast/AstBuilder.cpp:150-214 | For an integer result type and no undefined behaviour, folding yields a constant of that type. Its text is the decimal text of the exact C++ result: ADD and MUL commutative, SUB `left - right`, DIV truncating toward zero, MOD with the sign of the dividend. `stoll` reads that text back as the same value. |
| FoldingProperties.EvaluatesExactly | src/ast/AstBuilder.cpp:150-214 | Without a zero divisor, `MIN % -1` or overflow, the 64-bit evaluation is the exact C++ result. |
| FoldingProperties.FoldingFaults | src/ast/AstBuilder.cpp:150-214 | A zero divisor, a result outside the signed 64-bit range, or `MIN % -1` is undefined behaviour in the evaluation and gives a fault. |
| FoldingProperties.NoFoldingWithoutTwoNumericConstants | src/ast/AstBuilder.cpp:138-143 | A non-constant or STRING operand is never folded. The result is the operation node of the token's operation over the two unevaluated subtrees, or null when the token is no binary operator (lines 223-250). |
| FoldingProperties.ModAboveI64IsRuntime | src/ast/AstBuilder.cpp:207-219 | A `%` whose computed result type is above I64 is not folded and becomes a runtime MOD node. |
| FoldingProperties.DoubleFoldBranch | src/ast/AstBuilder.cpp:150-205 | When `GetResultType` gives a type above I64, every operator except `%` folds in double precision: a `stod` failure on an operand aborts the build with a fault, and otherwise the constant has that type and the folded text. |
| FoldingProperties.NegatedLiteral | src/ast/AstBuilder.cpp:315-320 | Unary minus on any constant prepends `-` to its text and keeps its type; unary plus returns the constant untouched. On the decimal text of a positive 64-bit value, `stoll` reads the negated text as the negated value. |
| FoldingProperties.FoldsSmallSum | src/ast/AstBuilder.cpp:131-221 | For literals `a`, `b` of at most 255, `a + b` builds the decimal text of the exact sum, typed by `GetResultType` (so `1 + 2` builds "3"). |
| Folding.VisitBasicLit | src/ast/AstBuilder.cpp:336-390 | A literal visit builds only constant nodes. An integer literal keeps its text and takes the type `ClassifyInteger` gives it, or builds nothing when it has none. A floating literal takes the type and text `ClassifyFloating` gives it. A rune literal is a CHAR constant and a string literal a STRING constant, both with their text unchanged (corrected classification, see Findings). |
| Folding.Unary | src/ast/AstBuilder.cpp:312-321 | The unary visit yields a constant or nothing built: the literal branch returns the constant. |
| Folding.RuntimeNode | src/ast/AstBuilder.cpp:223-250 | The runtime path builds an operation node whose left and right subtrees are the two operands unchanged. |
| Folding.BuildExpr | src/ast/AstBuilder.cpp:131-257 | A built expression is a constant, an operation node or a variable reference. (corrected, see Findings) |
| Int64.TruncDivMod | src/ast/AstBuilder.cpp:193-214 | C++ truncating division and remainder satisfy the division identity. The remainder is smaller than the divisor in magnitude and never has the opposite sign of the dividend. |
| Decimal.StollOfIntText | src/ast/AstBuilder.cpp:150-214 | `stoll` of `std::to_string(n)` is `n` for every 64-bit `n`: the round trip folding relies on. |
| Decimal.ExtractNaturalText | src/ast/AstBuilder.cpp:340-342 | Extracting a `uint64_t` from the decimal text of any value in range stores that value, does not fail and reaches the end of the stream. |
| Decimal.ExtractDigits | src/ast/AstBuilder.cpp:340-342 | Extracting from an all-digit token stores its value, or the maximum with the fail bit when it is too wide, and always sets end-of-file. |
| Builder.KeptMembers | src/ast/AstBuilder.cpp:74-76 | An entry's content is kept exactly when some entry holding it is neither empty nor errored. |
| Builder.KeptAllUsable | src/ast/AstBuilder.cpp:100-102 | When no entry is empty or errored, every entry is kept in order. |
| Builder.KeptAppend | src/ast/AstBuilder.cpp:100-109 | Filtering preserves order: the kept entries of a concatenation are the concatenation of the kept entries. |
| Builder.VarDefNode | src/ast/AstBuilder.cpp:259-281 | A variable definition is never null and faults exactly when its initializer faults. It carries the file, line, name, type and the global flag of its scope. It has an assignment exactly when it has an initializer, and the assignment's left side is a reference resolved to this same definition. (corrected, see Findings) |
| Builder.StatementNode | src/ast/AstBuilder.cpp:259-281 | Only a variable-definition statement yields a variable definition node, with that statement's name. |
| Builder.RunCollects | src/ast/AstBuilder.cpp:100-111 | Collecting statement results faults exactly when some statement's visit faults. Otherwise the node list is the built results in order, with nulls skipped. |
| Builder.RunKeepsEarlier | src/ast/AstBuilder.cpp:100-111 | Collecting never drops an earlier node or rebinds an earlier symbol. |
| Builder.FaultEndsBlock | src/ast/AstBuilder.cpp:100-111 | After a fault, the remaining statements change nothing. |
| Builder.LocalsAreNotGlobal | src/ast/AstBuilder.cpp:266 | A definition inside a function body is never marked global. |
| Builder.BuiltNodesDefs | src/ast/AstBuilder.cpp:266 | Every variable definition built in a scope carries that scope's global flag. |
| Builder.FunctionNode | src/ast/AstBuilder.cpp:32-55 | A function definition is never null, and it faults exactly when its body's walk faults, with that fault. A built definition has the file, line, name and return type of its declaration, one parameter per kept parameter declaration, in order and at the parameter list's line, and the body's collected nodes as its block. (corrected, see Findings) |
| Builder.AstBuilder.VisitParameters | src/ast/AstBuilder.cpp:68-88 | The parameters are the non-empty, non-errored declarations, in order, each with the file, the list's line, its name and its type. (corrected, see Findings) |
| Builder.AstBuilder.VisitVarDef | src/ast/AstBuilder.cpp:259-281 | `isGlobal` is true exactly when the current scope is the global scope. A built definition is bound in the current scope with first-binding-wins semantics. Nothing else in the scope changes. (corrected, see Findings) |
| Builder.AstBuilder.VisitStatement | src/ast/AstBuilder.cpp:104-107 | A statement's visit is that statement's node, and it binds what the node defines. (corrected, see Findings) |
| Builder.AstBuilder.VisitStatementList | src/ast/AstBuilder.cpp:95-112 | The statement list is the collected results of the usable statements, in order, and the scope ends with their bindings. (corrected, see Findings) |
| Builder.AstBuilder.VisitFunctionDef | src/ast/AstBuilder.cpp:32-55 | A new child scope named after the function is appended to the current scope, and it holds the body's bindings. When the visit completes, the current scope is again the one on entry and the entering scope's symbols are unchanged. (corrected, see Findings) |
| Builder.AstBuilder.VisitSourceFile | src/ast/AstBuilder.cpp:17-30 | The program gains every non-null top-level result, in order, after what it held, and the current scope gains the global variables' bindings. The current scope is unchanged unless a fault intervenes. Its earlier children stay; without a fault, one child scope per function definition is appended, in order, named after the function, with the current scope as parent and the function body's bindings. (corrected, see Findings) |
| Builder.AstBuilder.VisitTopLevel | src/ast/AstBuilder.cpp:17-30 | One top-level declaration is visited as a function or global variable definition, or builds nothing; its node is appended to the program. A function definition appends its scope after the scopes of the earlier functions, which stay as they were. (corrected, see Findings) |
| ScopeTable.Bind | src/semantic_analyzer.cpp:29-32 | Binding never overwrites. A name already bound keeps its first binding and nothing changes. A new name is bound to the symbol, and every other binding is kept. |
| ScopeTable.Table.AddSymbol | src/semantic_analyzer.cpp:29-32 | `add_symbol` applies that binding to the table's symbols and leaves its children alone. |
| ScopeTable.Table.CreateChild | src/semantic_analyzer.cpp:10-12 | A fresh, empty child with the given name and this table as parent is appended to the children. Its path is itself followed by this table's path. |
| ScopeTable.Table.HasChild | src/semantic_analyzer.cpp:14-16 | True exactly when the name is bound in this table. |
| ScopeTable.Table.GetChild | src/semantic_analyzer.cpp:18-23 | The name's symbol when it is bound. Otherwise nothing: `symbols.at` throws for a name that is not bound. |
| ScopeTable.LookupInnermost | src/semantic_analyzer.cpp:151-162 | The lookup along a chain of scopes finds nothing exactly when no scope binds the name. Otherwise it finds the binding of the innermost scope that has one. |
| Semantic.SemanticAnalyzer.ResolveFunction | src/semantic_analyzer.cpp:151-162 | The walk along the parent links returns the data of the innermost binding on the current table's chain, or null when there is none. |
| Semantic.SemanticAnalyzer.AnalyzeFuncProto | src/semantic_analyzer.cpp:34-52 | A Struct return type records one error, returns false, and leaves the tables alone. Otherwise the function is bound as FUNCTION in the current table, and the current table becomes a fresh child named after it whose parent is the old table. (corrected, see Findings) |
| Semantic.SemanticAnalyzer.AnalyzeVarDef | src/semantic_analyzer.cpp:74-103 | Succeeds exactly when "global" and "has an initializer" agree. A global without an initializer records one error. A success binds a VARIABLE in the global table (global) or the current table (local). A failure binds nothing. (corrected, see Findings) |
| Semantic.SemanticAnalyzer.AnalyzeFuncBlock | src/semantic_analyzer.cpp:54-72 | Returns true exactly when the error count did not grow. Every variable definition of the block is analysed as a local, in order, and the current table ends with their bindings. Neither table gains or loses a child, and the global table keeps its symbols when it is not the current one. (corrected, see Findings) |
| Semantic.BindLocalsBinds | src/semantic_analyzer.cpp:57-71 | After a block, a name is bound exactly when it was bound before or some initializer-free definition in the block declares it. Earlier bindings are kept. |
| Semantic.SemanticAnalyzer.CheckType | src/semantic_analyzer.cpp:109-149 | Exactly the structural diagnostics of the two types are appended to the errors. (corrected, see Findings) |
| Semantic.NoDiagnosticsIffSame | src/semantic_analyzer.cpp:109-149 | Two types draw no diagnostic exactly when they are structurally identical, ignoring positions. |
| Semantic.DiagnosticsShape | src/semantic_analyzer.cpp:109-149 | At most two diagnostics are reported, and a generic type mismatch is only ever reported alone. |
| Semantic.ExprTypeIsBool | src/semantic_analyzer.cpp:186-211 | An expression has a static type only when the expression its type comes from is a comparison or a NOT. That type is `bool`. Assignments pass their right operand's type on, and other unary operators pass their operand's type on. |
| Semantic.SemanticAnalyzer.AddSemanticError | src/semantic_analyzer.cpp:164-184 | One error record with the node's position is appended to the errors (corrected behaviour, see Findings). |
| Semantic.Reported | src/semantic_analyzer.cpp:164-184 | The appended list holds the old errors followed by the new one. |
| Semantic.ReportedAsWrittenIsLost | src/semantic_analyzer.cpp:180-183 | As written, the record is built but never stored: the error count does not change. |
| Primitives.PrimitiveValues | src/Primitives.hpp:13-41 | VOID=0, BOOL=1, INT8…INT64 are 2-5, SCHAR=INT8, CHAR=INT64+1 followed by WCHAR and UCHAR, BYTE=UINT8=CHAR, UINT16=WCHAR, UINT32=UCHAR, and UINT64, FLOAT32, FLOAT64 are 9-11. |
| Primitives.PrimitiveLayout | src/Primitives.hpp:13-41 | The enumeration takes exactly the twelve values 0-11, with signed integers below unsigned ones and those below the floats. |
| ConstantTypeNames.NameTable.GetConstantTypeName | src/ast/ConstantNode.cpp:9-24 | The first call fills the table and sets `init`. Later calls leave the table unchanged. Every call returns the slot of the index, or fails past `_COUNT`. |
| ConstantTypeNames.NamesOfTypes | src/ast/ConstantNode.cpp:15-23 | I8, I16, I32, I64, FLOAT, DOUBLE and STRING read back their enumerator names. CHAR, never stored, reads back the empty string. |
| ConstantTypeNames.FilledSlots | src/ast/ConstantNode.cpp:13-22 | The filled table is the empty table with the seven names stored at their enumerators' indices. |
| ModuleConfiguration.DefaultConfig | src/main.cpp:48-53 | The source folder is the current directory, the module name is its last path component, the type is EXE and export info is off. |
| ModuleConfiguration.LastComponent | src/main.cpp:50 | The module name is the longest slash-free suffix of the directory path: the whole path when it has no slash, otherwise everything after its last slash. |
| ModuleConfiguration.KeyOf | src/main.cpp:81-82 | A key token is cut at its first `:`. Without a `:` the whole token is the key. |
| ModuleConfiguration.KeyOfPrefix | src/main.cpp:81-82 | Colon-free text followed by a colon is cut exactly there. |
| ModuleConfiguration.ColonSuffixIgnored | src/main.cpp:81-89 | `module_name:anything` sets the module name like `module_name`. |
| ModuleConfiguration.ApplyPair | src/main.cpp:84-102 | `src_folder` stores the canonical path and `module_name` the value verbatim. `export_mod_info` is true exactly for "true". `type` maps EXE/DLL/LIB and keeps the old type otherwise. Every other field is unchanged. |
| ModuleConfiguration.PairsOf | src/main.cpp:74-79 | Tokens are read as key/value pairs in order. A key with no token after it is read with an empty value. |
| ModuleConfiguration.ParseModuleFile | src/main.cpp:70-104 | The loop applies every pair of the descriptor to the configuration, in order. |
| ModuleConfiguration.LastPairWins | src/main.cpp:74-103 | Each field ends as set by the last pair for its key, or keeps its starting value. Later pairs override earlier ones and unknown keys are ignored. |
| ModuleConfiguration.UnknownKeyIgnored | src/main.cpp:84-102 | A pair whose key is none of the four changes no field. |
| ModuleConfiguration.SecondPairOverrides | src/main.cpp:84-102 | A second pair for the same key overrides the first, unless it names an unknown module type. |
| ModuleConfiguration.DanglingKey | src/main.cpp:74-79 | A descriptor ending in a lone `module_name` key empties the module name. |

## Left out

- `src/IR.hpp` (LLVM lowering) is not part of this model. Every operation there is a call into the LLVM library.
- The double-precision folding branches use `stod`, double arithmetic and `to_string(double)`. They are the `floatFold` parameter. The model claims only that a `stod` failure aborts the fold with a fault and that otherwise the folded text becomes the constant's value; nothing is claimed about which texts `stod` accepts or about the double arithmetic.
- `GetResultType` is not part of this model. It is the `resultType` parameter and sees both operand nodes, so a result type that depends on the operands' values is covered. Its `checkOverflow` out-argument is never read by the caller and is not modelled. The claims depend only on whether its result is at most I64.
- `Table::remove_last_child` erases `end()`, which is undefined behaviour, so it is not modelled.
- The non-literal branch of `visitUnaryExpr`: its node construction is commented out, so it dereferences a null pointer. It is modelled as a `NullDereference` fault.
- `get_expr_type` falls through from the binary `default` case into the unary case and reads the binary node as a unary one (`src/semantic_analyzer.cpp:201-210`), and on a call to a name nothing binds it dereferences a null function node (`src/semantic_analyzer.cpp:212-214`). Both are undefined behaviour. `Semantic.GetExprType` gives the `Unmodelled` outcome there, and nothing is claimed about that outcome.
- Semantic.SemanticAnalyzer.AnalyzeFuncBlock: the returned expression's type is computed and discarded, so the model accepts a block whose `return` reaches one of those two undefined paths (such as `return a + b;`, or `return f();` with `f` unbound) with the same result and bindings as any other block. The C++ behaviour on such a block is undefined, and the model does not capture it.
- The analyzer's members (`AnalyzeFuncProto`, `AnalyzeVarDef`, `CheckType`, `AnalyzeFuncBlock`) run on the corrected `AddSemanticError`, which appends the record, and the builder's members (`BuildExpr`, `VarDefNode`, `FunctionNode` and the `AstBuilder` methods) run on the corrected `ClassifyInteger`. As written, the analyzer records no error, and a literal between 2^32 and 2^64-1 builds nothing. The Findings table gives both halves.
- `antlrcpp::Any`, `dynamic_cast`, `CastNode` and the parse contexts are replaced by datatypes. A type test of an `Any` becomes a constructor test.
- `main`'s own I/O is left out: `getcwd`, the directory scan for `llang.config`, the log file, `Compiler::compile` and the "Invalid module type" console line. `fs::canonical` is a parameter, and its exceptions are not modelled.
- `ModuleConfiguration.ParseModuleFile` takes the descriptor as a token sequence. Stream tokenisation and the stream-state tests of the loop condition are not modelled. A descriptor that ends in whitespace makes the C++ loop run once more with an empty key and value. That extra pass changes nothing, so it is not modelled.
- `Semantic.SemanticAnalyzer.AddSemanticError`: the `snprintf` formatting of the message text is not modelled. A message is a datatype value.
- `Semantic.TypeDiagnostics` and `Semantic.SemanticAnalyzer.CheckType` require `Comparable`, which excludes the Struct/Struct pair. The source marks that case `UNREACHEABLE`.
- The builder's scope class (`addChild`, `addSymbol`, `Parent`) is not part of this model. The builder reuses the analyzer's `Table` with the same first-binding-wins insertion. The builder binds the function's scope but not its name, as in `visitFunctionDef`.
- The `CONSTANT_TYPE` enumeration's declaration is not part of this model. Its order is taken as I8, I16, I32, I64, FLOAT, DOUBLE, STRING, CHAR, with `_COUNT` = 8. `GetEnumClassValueName` is taken to return the plain enumerator name.
- `GetConstantTypeName`'s static `init` flag and vector are fields of a `NameTable` object.
- Parameters are always built with `isGlobal` false.
- The `AstBuilder` constructor's body is not part of this model. It is taken to start with the current scope equal to the global scope.
- A binary expression whose token is none of the five operators yields a null `binOpNode`. It is modelled as `Null`.
- `visitOperandName` and `visitAssignment` build unresolved references (`SetAsNotFound`). They are modelled as `VariableRef(Unresolved(name))`.
- Source positions on expression nodes are not modelled.
- Primitives' `Exists`, `Get` and `GetName` are declared in `src/Primitives.hpp` but their definitions are not part of this model.

## Findings

| source | as written | input that shows it | evidently intended | confidence | as-written member | corrected member |
|---|---|---|---|---|---|---|
| src/ast/AstBuilder.cpp:351 | After `textStream >> number` consumes the whole literal, the stream's end-of-file bit is set, so `good()` is false and every literal above 2^32-1 yields no node. | the literal `5000000000` | a literal that fits 64 bits is typed I64; only one the extraction rejects yields no node | not executed | Folding.ClassifyIntegerAsWritten, FoldingProperties.AsWrittenDropsWideLiterals, FoldingProperties.AsWrittenDropsFiveBillion | Folding.ClassifyInteger, FoldingProperties.IntegerLiteralType |
| src/semantic_analyzer.cpp:180-183 | `add_semantic_error` builds the `Error` record but never appends it to `errors`, so no semantic error is ever recorded and `analizeFuncBlock`'s error-count test always succeeds. | a global variable definition without an initializer | the record is appended to `errors` | not executed | Semantic.ReportedAsWritten, Semantic.ReportedAsWrittenIsLost | Semantic.Reported, Semantic.SemanticAnalyzer.AddSemanticError |
