# stream-lang code generation, modelled in Dafny

stream-lang is a small functional language for stream processing. Its compiler
turns a parsed program into a *functional model* (variables, functions, arrays
defined by index patterns, with scopes and reference counts). It then turns that
into a *polyhedral model*: statements over integer iteration domains, affine
access patterns between statements, and a circular buffer for each statement.
Two backends emit code for one statement instance. One emits LLVM IR; the other
emits a C++ syntax tree. A third translator turns the loop nest CLooG scans out of
the schedule into C++ loops, guards and calls.

The project models these parts:

- `PolyModel` (poly_model.dfy): the statements, affine access patterns and
  primitive operations the backends read, and the lookup of a statement by name.
- `LlvmFromModel` (llvm_from_model.dfy): the LLVM backend. This covers the
  in-place transposition of an index, row-major flattening, slice sizes, the
  circular-buffer offset and the buffer descriptor's phase. It also covers the
  affine access, the lowering of expressions to floating-point instructions, and
  the store that each statement instance emits. The IR builder is a class whose
  basic blocks change in place.
- `CppAst` (cpp_ast.dfy): the C++ syntax tree, an evaluator for its integer and
  boolean fragment, and the statement-list stack of the code builder (a class).
- `CppFromPolyhedral` (cpp_from_polyhedral.dfy): the C++ backend. This covers how
  expressions, primitive operations, conditionals, input and buffer accesses, and
  whole statements are lowered into the builder.
- `CppFromCloog` (cpp_from_cloog.dfy): the CLooG-to-C++ translator. This covers
  the integer expressions, reductions, equations, guards, `for` loops, user
  statements and statement lists. The model gives each its meaning and proves
  what the generated C++ computes.
- `FunctionalGen` (functional_gen.dfy): the generator of the functional model.
  It keeps a name stack, a binding stack, an array stack, a scope stack and a
  lexical context. Identifiers, arrays and scopes live in arenas (sequences
  indexed by position) that only grow.
- `PhModelGen` (ph_model_gen.dfy): `index_of`, the position of an array variable
  in an isl space.
- `Common` (common.dfy): `Result`/`Option`, C's truncating division and
  remainder, and decimal rendering of naturals.

Each imperative routine is a method over a class's fields. It is proved against
a specification function. The properties the code relies on are lemmas about
those functions.

## Model

| member | source | states |
|---|---|---|
| PolyModel.FindStatement | cpp/cpp_from_polyhedral.cpp:16-24 | returns the position of the first statement with the given name |
| PolyModel.TranslationImage | polyhedral/llvm_from_model.cpp:246-269 | a translation access pattern maps every index coordinate to that coordinate plus its shift |
| PolyModel.AffineSumAdditive | polyhedral/llvm_from_model.cpp:246-269 | the linear part of an access pattern is additive in the index |
| LlvmFromModel.TransposedElements | polyhedral/llvm_from_model.cpp:236-244 | transposition moves the chosen coordinate to the front, shifts the earlier coordinates one place right, and leaves the later ones in place |
| LlvmFromModel.TransposedInjective | polyhedral/llvm_from_model.cpp:236-244 | two indexes with equal transpositions are equal |
| LlvmFromModel.Generator.Transpose | polyhedral/llvm_from_model.cpp:236-244 | rotates the array in place, so that its new contents are the transposition of its old contents |
| LlvmFromModel.FlatIsRowMajor | polyhedral/llvm_from_model.cpp:271-288 | the flat index equals the row-major sum of each coordinate times the product of the later extents |
| LlvmFromModel.FlatIgnoresFirstExtent | polyhedral/llvm_from_model.cpp:271-288 | the flat index does not depend on the first extent |
| LlvmFromModel.FlatBounds | polyhedral/llvm_from_model.cpp:271-288 | an index inside the box flattens into the slab of its first coordinate: at least index[0]×P and below (index[0]+1)×P, where P is the product of the later extents |
| LlvmFromModel.UnflattenFlat | polyhedral/llvm_from_model.cpp:271-288 | unflattening recovers every in-box index from its flat index |
| LlvmFromModel.FlatUnflatten | polyhedral/llvm_from_model.cpp:271-288 | for positive later extents, flattening the unflattened offset gives the offset back, so every offset has an index |
| LlvmFromModel.Generator.FlatIndex | polyhedral/llvm_from_model.cpp:271-288 | the multiply-add loop returns the flat index of the index in the extents |
| LlvmFromModel.SliceSizeAllInfinite | polyhedral/llvm_from_model.cpp:152-158 | the slice of a domain whose every extent is infinite has size 1 |
| LlvmFromModel.SliceSizeConcat | polyhedral/llvm_from_model.cpp:152-158 | the slice size of a concatenation of domains is the product of their slice sizes |
| LlvmFromModel.SliceSizeTransposed | polyhedral/llvm_from_model.cpp:152-158 | moving the infinite stream dimension to the front leaves the slice size unchanged |
| LlvmFromModel.SliceSizeOfFinite | polyhedral/llvm_from_model.cpp:152-158 | when every extent is finite, the slice size is the product of the extents |
| LlvmFromModel.Generator.FiniteSliceSize | polyhedral/llvm_from_model.cpp:152-158 | the loop that skips infinite extents returns the slice size |
| LlvmFromModel.SRemProperties | polyhedral/llvm_from_model.cpp:193-199 | srem by a non-zero divisor keeps the sign of the dividend and stays below the divisor in magnitude; for a non-negative dividend and a positive divisor it equals the mathematical remainder |
| LlvmFromModel.SRemNoAlias | polyhedral/llvm_from_model.cpp:193-199 | two non-negative offsets closer than the buffer length have different srem values |
| LlvmFromModel.BufferOffsetInRange | polyhedral/llvm_from_model.cpp:152-199 | the offset is defined exactly when the slice size and the buffer size are non-zero; for a non-negative dividend it is non-negative and below the magnitude of slice size × buffer size |
| LlvmFromModel.TransposedInBox | polyhedral/llvm_from_model.cpp:144-207 | a point of the statement's storage box lies, once transposed, in the box of the transposed extents |
| LlvmFromModel.StreamSliceSize | polyhedral/llvm_from_model.cpp:144-207 | with an unbounded storage dimension, the slice size is the product of the extents that follow the storage coordinate in storage order |
| LlvmFromModel.CloseOffsets | polyhedral/llvm_from_model.cpp:144-207 | two flat indexes in slabs fewer than buffer-size slabs apart differ by less than the buffer's element count, and both dividends of the srem are non-negative |
| LlvmFromModel.BufferSlotsDistinct | polyhedral/llvm_from_model.cpp:144-207 | the circular buffer never aliases: two points of an unbounded stream whose storage coordinates are fewer than buffer-size steps apart reach the same slot only if they are the same point |
| LlvmFromModel.SameOffsetSameFlat | polyhedral/llvm_from_model.cpp:144-207 | under the same conditions, equal buffer offsets imply equal flat indexes |
| LlvmFromModel.StreamGeometry | polyhedral/llvm_from_model.cpp:144-207 | a point of a stream's box, in storage order, lies in the transposed box with the storage coordinate first, and the slice size is the product of the remaining extents |
| LlvmFromModel.Generator.MappedIndex | polyhedral/llvm_from_model.cpp:246-269 | the loop returns the affine image of the index under the access pattern |
| LlvmFromModel.Generator.TransposedFlatIndex | polyhedral/llvm_from_model.cpp:165-169 | copies and transposes the index and returns the flat index of the element in storage order |
| LlvmFromModel.Generator.StatementIndexAsWritten | polyhedral/llvm_from_model.cpp:290-295 | as written, the distance from the statement's position back to the start: never positive, and zero only for the first statement |
| LlvmFromModel.Generator.AsWrittenIndexMissesDescriptors | polyhedral/llvm_from_model.cpp:290-295 | for every statement after the first, the as-written index selects no buffer descriptor |
| LlvmFromModel.Generator.StatementIndexReadsOwnPhase | polyhedral/llvm_from_model.cpp:173-189 | with the corrected index, each statement reads its own buffer descriptor's phase |
| LlvmFromModel.Generator.BufferAddressInjective | polyhedral/llvm_from_model.cpp:144-207 | two buffer accesses reach the same element only for the same statement and, for points of an unbounded stream fewer than bufferSize steps apart, only at the same point |
| LlvmFromModel.Generator.GenerateBufferAccess | polyhedral/llvm_from_model.cpp:144-207 | returns the buffer address of the statement at the index: its descriptor and the slot of the element after phase and wrap-around |
| LlvmFromModel.Generator.GenerateInputAccess | polyhedral/llvm_from_model.cpp:209-234 | returns the input's element at the flat index of the transposed index |
| LlvmFromModel.Generator.OperandValuesOkIff | polyhedral/llvm_from_model.cpp:118-142 | lowering the operands succeeds exactly when every operand is lowerable |
| LlvmFromModel.Generator.ExprValueOkIff | polyhedral/llvm_from_model.cpp:92-142 | an expression lowers without an exception exactly when it is built from the four arithmetic intrinsics, statement reads and constants |
| LlvmFromModel.Generator.GenerateExpression | polyhedral/llvm_from_model.cpp:92-116 | returns the value the expression denotes at the index, or the "Unexpected expression type." error |
| LlvmFromModel.Generator.GenerateIntrinsic | polyhedral/llvm_from_model.cpp:118-142 | lowers the operands left to right, passing the first error on, then emits the instruction of the operator |
| LlvmFromModel.Generator.StatementStoreTarget | polyhedral/llvm_from_model.cpp:60-90 | every statement stores into its own buffer element; an input statement stores the input element it loads; any other statement's store succeeds exactly when its expression is lowerable |
| LlvmFromModel.Generator.GenerateStatement | polyhedral/llvm_from_model.cpp:60-90 | does nothing for a statement without an expression. Otherwise it drops the period coordinate, sets the insertion block and appends exactly the statement's store to it, or fails with the lowering error and leaves the blocks unchanged |
| LlvmFromModel.Generator.GenerateNamedStatement | polyhedral/llvm_from_model.cpp:50-58 | generates the first statement with the given name, with the effect of GenerateStatement |
| CppAst.TempNamesDistinct | cpp/cpp_from_polyhedral.cpp:133-136 | temporaries declared at different counts get different names |
| CppFromPolyhedral.ConditionalElseAssignsThenValue | cpp/cpp_from_polyhedral.cpp:150-153 | as written, the else block ends by assigning the then-value to the temporary, so when the two values differ the if differs from the corrected one |
| CppFromPolyhedral.ConditionalAsWrittenFalsePath | cpp/cpp_from_polyhedral.cpp:150-153 | as written, on a false condition the temporary ends up holding the then value; for `false ? 1 : 0` it holds 1 where the corrected if gives 0 |
| CppFromPolyhedral.ConditionalIf | cpp/cpp_from_polyhedral.cpp:140-158 | corrected: an if whose then- and else-parts are both blocks |
| CppFromPolyhedral.ConditionalIfValue | cpp/cpp_from_polyhedral.cpp:140-158 | running the corrected if runs the code of the branch its condition selects, then leaves the temporary holding that branch's value and every other variable as that code left it |
| CppFromPolyhedral.CombineOkIff | cpp/cpp_from_polyhedral.cpp:175-243 | combining the lowered operands of a non-logical, non-conditional operation succeeds exactly when the backend implements the operation; otherwise the error is "not implemented" or "unexpected primitive" with the operator's name |
| CppFromPolyhedral.MappedSumValue | cpp/cpp_from_polyhedral.cpp:269-298 | the emitted sum of coefficient × index terms evaluates to the affine sum |
| CppFromPolyhedral.MappedIndexValues | cpp/cpp_from_polyhedral.cpp:269-298 | every emitted index expression evaluates to the matching coordinate of the affine image |
| CppFromPolyhedral.IteratorValue | cpp/cpp_from_polyhedral.cpp:70-79 | an iterator reference evaluates to the matching index coordinate |
| CppFromPolyhedral.Generator.LowerOkIff | cpp/cpp_from_polyhedral.cpp:53-112 | lowering an expression succeeds exactly when it is in the supported fragment, and the temporary counter never decreases |
| CppFromPolyhedral.Generator.LowerPrimitiveOkIff | cpp/cpp_from_polyhedral.cpp:114-244 | lowering a primitive succeeds exactly when the primitive is in the supported fragment, and the temporary counter never decreases |
| CppFromPolyhedral.Generator.LowerAllOkIff | cpp/cpp_from_polyhedral.cpp:168-173 | lowering an operand list succeeds exactly when every operand is supported |
| CppFromPolyhedral.Generator.StraightEmitsNothing | cpp/cpp_from_polyhedral.cpp:114-244 | an expression without conditionals lowers without emitting a statement or declaring a temporary |
| CppFromPolyhedral.Generator.StatementStoresOwnElement | cpp/cpp_from_polyhedral.cpp:26-51 | a statement without an expression is an error. Successful code ends with an assignment to the statement's own buffer element. An input statement's code is exactly the copy of the input element. Any other statement has code exactly when its expression is supported |
| CppFromPolyhedral.Generator.GenerateExpression | cpp/cpp_from_polyhedral.cpp:53-112 | returns the lowered expression and appends exactly the statements lowering emits to the builder's current list, or fails with the lowering error |
| CppFromPolyhedral.Generator.GeneratePrimitive | cpp/cpp_from_polyhedral.cpp:114-244 | dispatches to the logical, conditional or operation lowering, with that lowering's result and emitted statements |
| CppFromPolyhedral.Generator.GenerateLogic | cpp/cpp_from_polyhedral.cpp:119-130 | lowers both operands and joins them with C's logical and or logical or |
| CppFromPolyhedral.Generator.GenerateOperation | cpp/cpp_from_polyhedral.cpp:168-243 | lowers the operands in order, then combines them: negation, division cast to double for integers, binary operators and library calls |
| CppFromPolyhedral.Generator.GenerateOperands | cpp/cpp_from_polyhedral.cpp:168-173 | lowers the operands left to right and returns their expressions, having appended exactly the statements they emit; the first operand that cannot be lowered is the error |
| CppFromPolyhedral.Generator.GenerateConditional | cpp/cpp_from_polyhedral.cpp:131-163 | declares a fresh temporary, emits the corrected if that assigns it, and returns the temporary |
| CppFromPolyhedral.Generator.GenerateIf | cpp/cpp_from_polyhedral.cpp:140-160 | builds both branches in pushed lists and appends the if to the enclosing list, leaving the builder's stack depth unchanged |
| CppFromPolyhedral.Generator.GenerateBranch | cpp/cpp_from_polyhedral.cpp:143-155 | collects a branch's statements plus its assignment in a pushed list and pops it |
| CppFromPolyhedral.Generator.GenerateInputAccess | cpp/cpp_from_polyhedral.cpp:246-254 | accesses the input parameter at the index |
| CppFromPolyhedral.Generator.GenerateBufferAccess | cpp/cpp_from_polyhedral.cpp:256-267 | accesses the statement's own buffer at the index |
| CppFromPolyhedral.Generator.MappedIndex | cpp/cpp_from_polyhedral.cpp:269-298 | the loop returns one expression per output dimension, each of which evaluates to that coordinate of the affine image |
| CppFromPolyhedral.Generator.GenerateStatement | cpp/cpp_from_polyhedral.cpp:26-51 | appends the statement's code to the builder: the lowering's statements and then the store into its own element |
| CppFromPolyhedral.Generator.GenerateNamedStatement | cpp/cpp_from_polyhedral.cpp:16-24 | generates the first statement with the given name |
| CppFromCloog.BinaryAsWrittenAlwaysFails | cpp/cpp_from_cloog.cpp:184-208 | as written, every binary CLooG expression throws, because the switch cases fall through to the default |
| CppFromCloog.BinaryToCpp | cpp/cpp_from_cloog.cpp:192-205 | corrected: an exact division becomes /, a modulo becomes %, and floor or ceiling division fails |
| CppFromCloog.ExprToCppOkIff | cpp/cpp_from_cloog.cpp:164-240 | translation succeeds exactly for expressions without floor or ceiling division and with known reductions |
| CppFromCloog.ReduceToCppOkIff | cpp/cpp_from_cloog.cpp:209-236 | a reduction translates exactly when its operator is known and its elements translate |
| CppFromCloog.ExprToCppValue | cpp/cpp_from_cloog.cpp:164-240 | for an expression without modulo, the generated C++ evaluates to the CLooG value |
| CppFromCloog.ReduceToCppValue | cpp/cpp_from_cloog.cpp:209-236 | the nested min, max or sum computes the reduction's value |
| CppFromCloog.ModuloAgreesOnNonNegative | cpp/cpp_from_cloog.cpp:200-202 | C's % equals the mathematical modulo when the dividend is non-negative and the divisor positive |
| CppFromCloog.ModuloDiffersOnNegative | cpp/cpp_from_cloog.cpp:200-202 | exhibits a negative dividend for which C's % and the mathematical modulo differ |
| CppFromCloog.EquationToCppValue | cpp/cpp_from_cloog.cpp:242-257 | for sides without modulo, the generated comparison evaluates to the truth of the equation |
| CppFromCloog.ConjunctionValue | cpp/cpp_from_cloog.cpp:109-119 | the && chain is true exactly when every equation holds |
| CppFromCloog.GuardConditionValue | cpp/cpp_from_cloog.cpp:109-123 | the guard condition is true exactly when the guard has equations and all of them hold |
| CppFromCloog.CloogTranslator.IndexExprsElements | cpp/cpp_from_cloog.cpp:263-274 | each substitution of a user statement translates to the matching C++ index expression |
| CppFromCloog.CloogTranslator.ListToCppElements | cpp/cpp_from_cloog.cpp:41-50 | a statement list translates element by element, in order |
| CppFromCloog.CloogTranslator.ForLoopMeaning | cpp/cpp_from_cloog.cpp:133-162 | the generated for loop declares an int iterator with the lower bound's value, runs while the iterator is at most the upper bound, and steps by the loop's stride |
| CppFromCloog.CloogTranslator.ProcessExpr | cpp/cpp_from_cloog.cpp:164-240 | returns the translation of a CLooG expression or its error |
| CppFromCloog.CloogTranslator.ProcessReduction | cpp/cpp_from_cloog.cpp:209-236 | the loop returns the translation of the reduction (0 for no elements, otherwise the elements folded left into sums, min or max calls) or its first error |
| CppFromCloog.CloogTranslator.ProcessEquation | cpp/cpp_from_cloog.cpp:242-257 | returns the comparison of the equation's two sides under its sign |
| CppFromCloog.CloogTranslator.ProcessGuardCondition | cpp/cpp_from_cloog.cpp:109-123 | the loop over the equations returns their conjunction |
| CppFromCloog.CloogTranslator.ProcessList | cpp/cpp_from_cloog.cpp:41-50 | the loop appends the translation of each statement in order, and stops at the first error |
| CppFromCloog.CloogTranslator.ProcessUser | cpp/cpp_from_cloog.cpp:259-299 | translates the substitutions, passes them to the statement callback and adds the comment |
| CppFromCloog.CloogTranslator.ProcessIndexes | cpp/cpp_from_cloog.cpp:260-273 | the loop translates the substitutions in order, returning their C++ index expressions or the first error, without touching the builder |
| CppFromCloog.CloogTranslator.ProcessUserCode | cpp/cpp_from_cloog.cpp:275-298 | with a statement callback, a block holding what the callback emits for the name and index, or the callback's error; without one, the comment naming the statement and its index |
| CppFromCloog.CloogTranslator.RenderComment | cpp/cpp_from_cloog.cpp:284-297 | the loop writes the statement name, then each index expression followed by a comma, in parentheses |
| CppFromCloog.CloogTranslator.ProcessStmt | cpp/cpp_from_cloog.cpp:52-162 | dispatches on the CLooG statement kind, with the result that translation defines |
| CppFromCloog.CloogTranslator.Generate | cpp/cpp_from_cloog.cpp:36-39 | translates the root statement list into the builder's current list |
| FunctionalGen.ImplicitVarNamesDistinct | frontend/functional_gen.cpp:481-491 | implicit array variables get distinct names |
| FunctionalGen.ConstantExpr | frontend/functional_gen.cpp:169-181 | a constant translates exactly when it is a boolean, integer, real or complex value; any other constant is the invalid-constant error |
| FunctionalGen.LookupSpec | frontend/functional_gen.cpp:186-196 | lookup fails exactly when no scope binds the name; otherwise it finds the innermost binding |
| FunctionalGen.Generator.QualifiedName | frontend/functional_gen.cpp:655-662 | the loop returns the enclosing names, each followed by a dot, then the name |
| FunctionalGen.Generator.Bind | frontend/functional_gen.cpp:114-119 | fails exactly when the innermost scope already binds the name; otherwise it binds the name there |
| FunctionalGen.Generator.BindAll | frontend/functional_gen.cpp:346-356 | succeeds exactly when the names are distinct and none is already bound in the innermost scope, and then binds each name to its id |
| FunctionalGen.Generator.NewVar | frontend/functional_gen.cpp:110-113 | appends the variable and returns its id |
| FunctionalGen.Generator.DoIdentifier | frontend/functional_gen.cpp:186-211 | fails exactly when the name is unbound. Otherwise it returns a reference to the innermost binding, counts the reference, and marks the variable recursive when it is referenced from inside its own definition |
| FunctionalGen.Generator.DoQualifiedId | frontend/functional_gen.cpp:212-233 | fails exactly when no earlier module exports the member under the imported module name; otherwise it returns a counted reference to it |
| FunctionalGen.Generator.DoArraySelfRef | frontend/functional_gen.cpp:234-244 | fails exactly outside an array; otherwise it refers to the innermost array and marks it recursive |
| FunctionalGen.Generator.DoExpr | frontend/functional_gen.cpp:153-288 | restores every stack and the context on success, only adds variables, arrays and scopes and only appends to scopes, rejects program roots and unsupported nodes, and returns a translation of the node: each node kind gives its own kind of expression with each child translated by the corresponding child, and applying a built-in name gives that primitive without translating the callee |
| FunctionalGen.Generator.DoScopedExpr | frontend/functional_gen.cpp:153-288 | a binding expression, a local scope or a lambda translates to its own node kind over translated parts, with every stack restored |
| FunctionalGen.Generator.DoArrayExpr | frontend/functional_gen.cpp:234-280 | a self-reference, array definition, enumeration, concatenation, application or size query translates to its own node kind over translated parts, with every stack restored |
| FunctionalGen.Generator.DoExprList | frontend/functional_gen.cpp:591-617 | one result per element, each translating the element at the same position |
| FunctionalGen.Generator.DoBindingExpr | frontend/functional_gen.cpp:290-299 | a reference to the newly bound variable, whose definition translates the binding |
| FunctionalGen.Generator.DoLocalScope | frontend/functional_gen.cpp:301-314 | the result translates the body expression, and each local binding has an identifier appended to the innermost functional scope, under its qualified name and with its translated definition |
| FunctionalGen.Generator.NewParams | frontend/functional_gen.cpp:329-339 | creates one function variable per parameter, with consecutive ids and qualified names |
| FunctionalGen.Generator.OpenFunction | frontend/functional_gen.cpp:329-356 | fails with "already bound" exactly when parameters repeat; creates one function variable per parameter, binds them in a fresh name scope and pushes a fresh functional scope |
| FunctionalGen.Generator.MakeFunc | frontend/functional_gen.cpp:324-364 | fails with "already bound" on repeated parameters; otherwise it returns a function over fresh parameter variables in a fresh scope, whose body translates the function body |
| FunctionalGen.Generator.DeclareBinding | frontend/functional_gen.cpp:110-128 | fails exactly when the innermost scope already binds the name; otherwise it creates the qualified variable, binds it, and appends its id to the innermost functional scope |
| FunctionalGen.Generator.BindingBody | frontend/functional_gen.cpp:130-148 | a binding with parameters is defined as the function of those parameters, any other binding as the translation of its body |
| FunctionalGen.Generator.DoDefinition | frontend/functional_gen.cpp:130-148 | a binding with parameters becomes a function of them, one without becomes its translated expression |
| FunctionalGen.Generator.DoBinding | frontend/functional_gen.cpp:104-151 | fails on a name already bound in the innermost scope; otherwise it binds a fresh qualified variable, appends its id to the innermost functional scope and defines it by the translation of the binding |
| FunctionalGen.Generator.DoBindings | frontend/functional_gen.cpp:89-96 | every binding of the list has an identifier appended to the innermost functional scope, under its qualified name and with its translated definition |
| FunctionalGen.Generator.DoPrimitive | frontend/functional_gen.cpp:366-382 | the primitive applied to the translations of the operands, in order |
| FunctionalGen.Generator.DoArrayApply | frontend/functional_gen.cpp:570-589 | the application of the translated array to the translated arguments, in order |
| FunctionalGen.Generator.DoArraySize | frontend/functional_gen.cpp:271-280 | the size query of the translated array, with the translated dimension exactly when one is given |
| FunctionalGen.Generator.DoFuncApply | frontend/functional_gen.cpp:619-653 | a call of a built-in name is that primitive over the translated arguments, and its callee is not translated; any other call applies the translated callee to the translated arguments |
| FunctionalGen.Generator.DeclareRanges | frontend/functional_gen.cpp:433-445 | declares one array variable per declared range, named by position and ranging over the translation of that range |
| FunctionalGen.Generator.OpenArray | frontend/functional_gen.cpp:428-431 | creates an empty array with its own new scope and pushes it |
| FunctionalGen.Generator.DoArrayDef | frontend/functional_gen.cpp:424-453 | returns the new array; its body translates each pattern in order, and declared ranges give it the index variables i0, i1, ... over the translated ranges |
| FunctionalGen.Generator.FillArray | frontend/functional_gen.cpp:447-451 | stores as the array's body one translated pattern per source pattern, in order, then pops the array; index variables already declared stay as they were and no other array's variables change |
| FunctionalGen.Generator.DoArrayPatterns | frontend/functional_gen.cpp:455-466 | one result per pattern, each translating the pattern at the same position; index variables the array already has are kept |
| FunctionalGen.Generator.DeclareImplicitVars | frontend/functional_gen.cpp:481-491 | gives the innermost array n implicit variables |
| FunctionalGen.Generator.DescribeIndexes | frontend/functional_gen.cpp:501-526 | fails exactly when some index is neither an identifier nor an integer constant. Otherwise it describes each index and creates a fresh, bounded array variable for each identifier |
| FunctionalGen.Generator.PatternIndexes | frontend/functional_gen.cpp:481-526 | fails with the index-count error exactly when the array already has variables and the count differs; the first pattern declares the implicit variables |
| FunctionalGen.Generator.DoArrayPattern | frontend/functional_gen.cpp:468-552 | translates the pattern: each name index becomes a fresh array variable of that name and each integer index a fixed index, then the domains when given and the body; an array without index variables gets one implicit variable per index |
| FunctionalGen.Generator.BindPattern | frontend/functional_gen.cpp:528-549 | the pattern keeps the described indexes, has domains exactly when the source pattern has them, and translates its domains and body; the name environment is restored |
| FunctionalGen.Generator.BindIndexVars | frontend/functional_gen.cpp:528-541 | binds the names of the index variables in the innermost scope, in order: it fails with "already bound" exactly when two of them share a name or one is bound in that scope already; otherwise each name is bound to its own index variable |
| FunctionalGen.Generator.DoPatternBody | frontend/functional_gen.cpp:544-549 | translates the domains exactly when the pattern has them, then the body |
| FunctionalGen.Generator.DoArrayDomains | frontend/functional_gen.cpp:554-568 | a case expression translating each (domain, value) pair, in order |
| FunctionalGen.Generator.DoDomainCase | frontend/functional_gen.cpp:562-565 | a (domain, value) pair becomes the pair of their translations |
| FunctionalGen.Generator.GenerateModule | frontend/functional_gen.cpp:64-102 | rejects a root that is not a program; otherwise every top-level binding has an identifier among the returned ids, under its qualified name and with its translated definition (the returned ids also include those of nested let bindings and binding expressions, which push no functional scope) |
| FunctionalGen.Generator.GenerateInModule | frontend/functional_gen.cpp:46-53 | generates a program under the module's imports; each top-level binding is named module.member when the module is named and member otherwise (after the enclosing names); restores the name stack and imports |
| FunctionalGen.Generator.RecordIds | frontend/functional_gen.cpp:55-56 | keeps every earlier exported id and exports each new binding under its qualified name |
| FunctionalGen.Generator.ExportModule | frontend/functional_gen.cpp:53-56 | generates one module and records each of its top-level bindings under its name; earlier records are kept, and each new record names an identifier of that name |
| FunctionalGen.Generator.Generate | frontend/functional_gen.cpp:42-62 | every module must be a program; each binding of every module but the last is exported as module.member and each of the last as member; earlier exports are never replaced, and every new export names an identifier of that name |
| PhModelGen.IndexOf | frontend/ph_model_gen.hpp:39-48 | returns the position of the first occurrence of the variable, and -1 exactly when it does not occur |

## Left out

- The LLVM generator's constructor (polyhedral/llvm_from_model.cpp:12-48) builds LLVM types and a function signature through the LLVM API. The model takes the statements and the descriptors' phases as parameters instead.
- LLVM's own IR construction is modelled as the values and stores it produces. The instructions it emits to compute the phase and offset are not modelled one by one.
- Integer widths are not modelled, so 32- and 64-bit wrap-around in the generated code is not captured. Floating-point values are symbolic literals.
- The user-statement callback of the CLooG translator is a pure function parameter. The printer and file output of the C++ backend are not modelled.
- CLooG expression kinds and statement kinds outside the enumerations (the unreachable `default` branches) are not modelled.
- context.hpp is not part of this model. Its `bind` is modelled from its uses: it fails exactly when the innermost scope already binds the name, with an "already bound" message.
- The C++ builder's implementation header is not part of this model. Its push, pop, add and new_var are modelled from their uses in the two C++ generators.
- Shared pointers to identifiers, arrays and scopes become indices into arenas that only grow. Aliasing through pointers is therefore not modelled.
- Generate tells modules apart by position rather than by pointer identity.
- The evaluation order of domain and value in do_array_domains is unspecified in C++. The model evaluates the domain first.
- After an exception the generator's stacks are left as they are. The model only promises that the state stays well formed and that the arenas have only grown.
- FunctionalGen.Generator.MakeFunc: the source asserts that the parameter list is non-empty. The model accepts an empty list.
- FunctionalGen.Generator.DoExpr: the translation relation fixes each result's kind and children. It does not fix which variable a name refers to, or what an array definition contains. DoIdentifier, DoQualifiedId and DoArrayDef state those, but only for a single call.
- Several `assert`s in the source abort the program, and some of its reads are undefined behaviour outside their range. In the model these are preconditions that exclude those inputs instead:
  - `Flattenable` and `Addressable`: the non-negative extents and buffer size that flat_index and generate_buffer_access assert.
  - CppFromPolyhedral.Generator.WellFormed: each primitive has at least its operation's operand count; an input access names an existing parameter; an iterator access names a coordinate of the index; a statement access names an existing statement through a valid access pattern whose input dimension is the index's, and the function has a parameter to hold the state.
  - LlvmFromModel.Generator.WellFormed: an arithmetic intrinsic has two operands; a statement access names an existing statement through a valid access pattern whose input dimension is the index's and whose image can address that statement's buffer (`Addressable`).
  - `|scopeStack| > 0`: the non-empty functional scope stack that do_binding asserts.
- PolyModel.PrimOpName: the `operator<<` that prints a primitive operation into the "Unexpected primitive op: " error (cpp/cpp_from_polyhedral.cpp:241) is not part of this model. The names are chosen here, so the model fixes that error's prefix but not the operation text that follows it.
- The verbose printing of the generators and the driver (main.cpp) are not modelled.

## Findings

Each row's behaviour as written is modelled by its own member, with a lemma that exhibits the
discrepancy. The generator methods use the corrected definition.

| source | as written | input that shows it | evidently intended | confidence | as-written member | corrected member |
|---|---|---|---|---|---|---|
| polyhedral/llvm_from_model.cpp:290-295 | `std::distance(stmt_ref, begin)` is the negated position of the statement | any statement but the first, e.g. position 1 gives index -1 | the position `std::distance(begin, stmt_ref)`, so that each statement reads its own buffer descriptor | not executed | LlvmFromModel.Generator.AsWrittenIndexMissesDescriptors | LlvmFromModel.Generator.StatementIndexReadsOwnPhase |
| cpp/cpp_from_polyhedral.cpp:150-153 | the else branch assigns `true_expr` | `false ? 1 : 0`: the temporary ends up 1 | the else branch assigns `false_expr` | not executed | CppFromPolyhedral.ConditionalAsWrittenFalsePath | CppFromPolyhedral.ConditionalIfValue |
| cpp/cpp_from_cloog.cpp:192-205 | the `div` and `mod` cases have no `break` and fall through to the throwing default | any CLooG binary expression, e.g. `i / 2` or `i % 2` | `div` yields `/` and `mod` yields `%` | not executed | CppFromCloog.BinaryAsWrittenAlwaysFails | CppFromCloog.BinaryToCpp |
