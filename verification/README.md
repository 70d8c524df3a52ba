# Verified model of the Rúnar conformance tooling

This project models the parts of the Rúnar repository whose job is to find disagreement between
compilers, SDKs and inventories, and proves what those parts promise about themselves.

- **Program generators and the reducer.** The spend-shape generator picks values, predicts a
  post-state and renders a contract; the model renders an abstract contract, runs it with an
  evaluator (`ShapeLang`) and proves that run and prediction agree for every stream of random draws.
  The ANF generator is a mutable context that every emitter extends (`AnfGenerator`); its output keeps a
  typing and scoping discipline under which evaluation never gets stuck (`Anf`). The reducer
  (`AnfReducer`) shrinks such programs, and the discipline survives every reduction (`AnfFuzzing`).
- **Text and language transformations.** Operand swapping by scanning parentheses (`Metamorphic`), on the
  contracts it is run on (`GeneratedContracts`) and on operand lists (`OperandLists`), globs compiled to
  regular expressions with a parser and a semantics for the emitted syntax (`Glob`), and canonical JSON
  trees (`CanonJson`).
- **Codecs.** The transaction writer and reader (`TxCodec`) and the place of every byte they agree on
  (`TxLayout`), the state section and slot lengths
  (`StateCodec`), both over a shared module of bytes and little-endian numbers (`Hex`), and the
  int64 guards (`Overflow`).
- **State machines and matching.** The concurrency limiter (`Limiter`), the line-framed RPC client
  (`Daemon`, `DaemonFraming`, `DaemonRequests`, `DaemonAnswers`) and the reconciliation of test skips (`SkipAudit`), its
  pairing in every order of skips and rows (`SkipAuditOrders`) and as a whole (`SkipAuditDrift`).

`Wrappers`, `Collections`, `Numbers` and `Text` hold what the components share.

Classes and methods with loops follow the source where it changes state; each is tied to a
specification function or transition system, and the theorems are about those. The pseudo-random
generators are an arbitrary stream of draws (`Prng`), so a statement about every stream holds for every
seed. Shifts and bitwise operators are an arbitrary total function. Errors the source throws are
values of a result type.

Where the code and its own documentation disagree, the model follows the code, and the difference
is a theorem:

- reducing a program with duplicate binding names can put a use before its definition, although the
  comment says existence implies order (`ResultsStayOrderedIff`);
- a loop that reads the inner result outside but has no inner bound is rendered as a single loop while
  the model counts one inner iteration (`ModelMeetsRendering`); the shipped table has no such family;
- a double star in a glob stops at line terminators, although it is documented as any suffix
  (`DocumentedIffOneLine`);
- an operand list with one bare commutative operator is swapped as a whole, although the comment rules
  it out (`MishandledIff`);
- the canonical form is not always stable (`IdempotentIffStable`), number tokens beyond the double range
  share the form of null and of each other (`OverflowCollides`), a long integer with an exponent is kept
  apart from its digits (`ExponentSpellingDiffers`), and a member named `__proto__` is lost, because
  assigning it on a plain object sets the prototype (`ProtoCollides`); `ReadingsAgreeIff` says which trees
  are concerned;
- a task that throws while it is started keeps its slot (`DrainedIffFewThrow`) and can swallow another
  task's answer (`UnansweredIffStartsThrower`);
- stopping the daemon client leaves requests pending (`StoppedStaysPending`, `ExitDrainsIff`);
- line drift alone is not always forgiven by the skip audit: a skip that lands on the documented line of
  another row takes it (`DriftOntoDocumentedLine`, `PureDriftCleanIff`), and an ambiguous snippet can take the
  row of another skip (`AmbiguousDriftReported`, `AlwaysCleanIff`);
- the multiplication guard misses one pair (`MulIsExactExcept`).

Check the whole project with `dafny verify dfyconfig.toml`.

## Model

| member | source | states |
|---|---|---|
| `SpendShapes.BuildShape` | conformance/fuzzer/spend-shapes.ts:663-927 | For every stream of draws and every well-formed family, spending the rendered contract with the picked call is accepted exactly when the intent is accept, and then its one output carries the expected value of every field in order; the renamed and the arm-swapped variants give the same verdict and outputs for all deployments and all calls; which locals each arm rebinds follows the arm style |
| `SpendShapes.GenerateShapes` | conformance/fuzzer/spend-shapes.ts:652-661 | Case i is drawn from family i modulo the table, and every case of every run has the predicted verdict and outputs, equivalent variants, its family's intent and everything its family pins of slots and fields |
| `SpendShapes.ShippedFamiliesOk` | conformance/fuzzer/spend-shapes.ts:503-573 | The whole shipped family table meets what the generator needs: pins of the pinned type, at least two locals for a two-local loop, an inner bound wherever the outer body reads the inner result |
| `SpendShapes.PickSlots` | conformance/fuzzer/spend-shapes.ts:668-674 | Slots are named s0, s1, ... with values of their types; given slot types and values are taken position by position, and otherwise there are as many slots as given or at most two |
| `SpendShapes.PickFields` | conformance/fuzzer/spend-shapes.ts:692-718 | Exactly k fields named f0, f1, ... with values of their types; field 0 carries the pinned value; loop fields are integers |
| `SpendShapes.PickP0` | conformance/fuzzer/spend-shapes.ts:735-744 | The picked p0 makes the branch condition come out as picked, and is a step of 1 to 6 for a loop |
| `SpendShapes.PickArgs` | conformance/fuzzer/spend-shapes.ts:745-750 | One argument per parameter, p0 first, each of its parameter's type |
| `SpendShapes.ArmValue` | conformance/fuzzer/spend-shapes.ts:775-785 | An arm's expression evaluates to the value the model records, and has the field's type |
| `SpendShapes.PickArms` | conformance/fuzzer/spend-shapes.ts:787-839 | The domain of each of the four arm maps is exactly the one of the arm style and split, and every entry is sound |
| `SpendShapes.Predict` | conformance/fuzzer/spend-shapes.ts:841-875 | The expected state is the loop's arithmetic or whatever the taken arm assigns, with untouched locals keeping their field |
| `ShapeRender.RenderShape` | conformance/fuzzer/spend-shapes.ts:1000-1107 | Pushing the parts one by one gives the rendered contract of the options |
| `ShapeRender.RenderedOnAnyCall` | conformance/fuzzer/spend-shapes.ts:1000-1107 | On every deployment of the declared types and every call with an integer first, the rendered contract rejects exactly when the guard fails or some slot was not deployed with its picked value, and otherwise outputs what the generator's arithmetic predicts for the deployed fields and that call |
| `ShapeRender.RenderedMeetsPrediction` | conformance/fuzzer/spend-shapes.ts:841-894 | Running the rendered contract from its initial fields on the picked arguments rejects exactly when the guard is the rejecting one, and otherwise outputs exactly the predicted values: all five arm styles, both polarities and all six loop styles |
| `ShapeRender.SwapPreservesSpend` | conformance/fuzzer/spend-shapes.ts:896-906 | Exchanging the arms under the negated condition preserves the verdict and the outputs for all arguments and all states, picked or not |
| `ShapeRender.RenamePreservesRendered` | conformance/fuzzer/spend-shapes.ts:934-936 | Renaming the locals of a rendered contract preserves the verdict and the outputs for all arguments and all states |
| `ShapeRename.RenamePreservesSpend` | conformance/fuzzer/spend-shapes.ts:934-936 | Renaming l<n> to ml<n> preserves the meaning of any contract of the language whose other names cannot be captured |
| `ShapeRename.RenameCaptures` | conformance/fuzzer/spend-shapes.ts:929-936 | A contract that already uses a name ml<n> shows that the renaming can capture, so the restriction is needed |
| `ShapeLoops.ModelLoop` | conformance/fuzzer/spend-shapes.ts:613-645 | The array walk over the nested loops ends in the closed form for every style, bound, step and initial values |
| `ShapeLoops.ClosedForms` | conformance/fuzzer/spend-shapes.ts:613-645 | The closed forms spelled out, with N(N+1)/2 for cross reads, N(N-1)/2 for read-before, and inner * outer(outer+1)/2 for outer reads |
| `ShapeLoops.RunLoop` | conformance/fuzzer/spend-shapes.ts:969-998 | Executing the rendered, possibly nested, loop leaves the carried locals in the same closed form and everything else unchanged |
| `ShapeLoops.ModelMeetsRendering` | conformance/fuzzer/spend-shapes.ts:613-645 | Model and rendered loop agree on all inputs exactly when it is not an outer read without an inner bound and with at least one outer iteration, which the renderer emits as a single loop |
| `StateCodec.Num2BinLE8` | conformance/fuzzer/spend-shapes.ts:399-411 | The hex of the eight little-endian bytes of the sign-magnitude word: magnitude modulo 2^64 with the top bit forced for a negative number |
| `StateCodec.IntegerBytes` | conformance/fuzzer/spend-shapes.ts:399-411 | Byte k of an encoded integer is the digit of its magnitude for 256^k, the lowest first, and only the top bit of the last byte tells a negative number |
| `StateCodec.PrefixBytes` | conformance/fuzzer/spend-shapes.ts:379-393 | The length prefix of a byte string as bytes: the length up to 75, 0x4c and one byte up to 255, 0x4d and two bytes, the lower first, up to 65535 |
| `StateCodec.BooleanByte` | conformance/fuzzer/spend-shapes.ts:376-378 | A truth value is one byte, 1 or 0 |
| `StateCodec.Num2BinFaithful` | conformance/fuzzer/spend-shapes.ts:399-411 | Reading the eight bytes back as a script number gives n exactly when |n| < 2^63 |
| `StateCodec.EncodeStateSectionHex` | conformance/fuzzer/spend-shapes.ts:367-396 | The loop over the fields yields the concatenated field encodings, with all three length-prefix branches |
| `StateCodec.FieldRoundTrip` | conformance/fuzzer/spend-shapes.ts:373-393 | A field is read back, with whatever follows it left over, exactly when its value is representable: |n| < 2^63, 33-byte keys, strings under 65536 bytes |
| `StateCodec.SectionRoundTrip` | conformance/fuzzer/spend-shapes.ts:367-396 | A left-to-right decoder undoes the encoder on a whole section exactly when every value in it is representable |
| `StateCodec.EncodingInjective` | conformance/fuzzer/spend-shapes.ts:367-396 | Two states of the same fields with the same encoding are the same state |
| `StateCodec.BigintSlotLength` | conformance/fuzzer/spend-shapes.ts:319-334 | One for -1 to 16; otherwise one more than the least byte count L with |n| < 2^(8L-1) |
| `StateCodec.LeastIsShortest` | conformance/fuzzer/spend-shapes.ts:319-334 | That L is the length of the shortest little-endian sign-magnitude number of value n: one exists and none is shorter |
| `StateCodec.SlotLengthMonotone` | conformance/fuzzer/spend-shapes.ts:319-334 | Past the single-opcode range the length never shrinks as |n| grows and does not depend on the sign |
| `StateCodec.SlotLengthIsMinimalPush` | conformance/fuzzer/spend-shapes.ts:325-342 | The bigint branch is the minimal push length exactly when the payload fits a direct push of 75 bytes |
| `Anf.BodySound` | conformance/fuzzer/anf-differential.ts:347-546 | A body that keeps the generator's discipline never gets stuck in the evaluator for any arguments, property values and bit operators, and leaves every binding with its type |
| `Anf.ProgramSound` | conformance/fuzzer/anf-differential.ts:559-637 | No method of a disciplined program gets stuck: no type confusion, zero divisor or negative shift |
| `AnfGenerator.GenContext.constructor` | conformance/fuzzer/anf-differential.ts:579-585 | A fresh context is empty and keeps the discipline |
| `AnfGenerator.GenContext.FreshName` | conformance/fuzzer/anf-differential.ts:229-233 | Names are t0, t1, ... in order |
| `AnfGenerator.GenContext.PushRef` | conformance/fuzzer/anf-differential.ts:237-241 | A checked scalar is appended to the body and to the pool of operands |
| `AnfGenerator.GenContext.PushStmt` | conformance/fuzzer/anf-differential.ts:245-248 | A checked statement is appended to the body and never becomes an operand |
| `AnfGenerator.GenContext.PriorOf` | conformance/fuzzer/anf-differential.ts:257-261 | An available scalar of the type, or none exactly when the pool has none |
| `AnfGenerator.GenContext.EmitConst` | conformance/fuzzer/anf-differential.ts:263-270 | Appends one constant of the type, within -1024 to 1024 for integers |
| `AnfGenerator.GenContext.Ensure` | conformance/fuzzer/anf-differential.ts:272-278 | An available scalar of the type; nothing is emitted if one was there |
| `AnfGenerator.GenContext.TwoDistinct` | conformance/fuzzer/anf-differential.ts:347-362 | Two available scalars of the type with different names, whatever is drawn |
| `AnfGenerator.GenContext.EmitBinOp` | conformance/fuzzer/anf-differential.ts:300-333 | Appends an operator of the requested kind over two distinct typed operands and keeps the discipline |
| `AnfGenerator.GenContext.EmitNonZeroConst` | conformance/fuzzer/anf-differential.ts:370-376 | Appends a literal of magnitude 1 to 20 |
| `AnfGenerator.GenContext.EmitDivModOp` | conformance/fuzzer/anf-differential.ts:379-390 | Appends a division or remainder whose right operand is a nonzero literal |
| `AnfGenerator.GenContext.EmitShiftAmount` | conformance/fuzzer/anf-differential.ts:400-405 | Appends a literal of 0 to 7 |
| `AnfGenerator.GenContext.EmitShiftOp` | conformance/fuzzer/anf-differential.ts:398-414 | Appends a shift whose amount is a non-negative literal |
| `AnfGenerator.GenContext.EmitUnaryOp` | conformance/fuzzer/anf-differential.ts:429-451 | Appends a negation or complement of an integer, or a logical not of a boolean |
| `AnfGenerator.GenContext.EmitLoadParam` | conformance/fuzzer/anf-differential.ts:453-462 | Appends a load of a declared parameter with its type |
| `AnfGenerator.GenContext.EmitLoadProp` | conformance/fuzzer/anf-differential.ts:464-473 | Appends a load of a declared property with its type |
| `AnfGenerator.GenContext.EmitCallAbs` | conformance/fuzzer/anf-differential.ts:475-484 | Appends abs of an available integer |
| `AnfGenerator.GenContext.EmitArrayLiteral` | conformance/fuzzer/anf-differential.ts:486-516 | Appends one to three fresh constants and a literal of exactly them, so its elements are distinct |
| `AnfGenerator.GenContext.EmitUpdateProp` | conformance/fuzzer/anf-differential.ts:518-532 | Appends an assignment of an available value of the property's type |
| `AnfGenerator.GenContext.EmitAssert` | conformance/fuzzer/anf-differential.ts:534-546 | Appends an assert of an available boolean, computing one when there is none |
| `AnfGenerator.GenContext.EmitOne` | conformance/fuzzer/anf-differential.ts:593-616 | Each of the fifteen choices appends what it stands for, falling back to a constant without parameters or properties, and keeps the discipline |
| `AnfGenerator.GenContext.EmitBody` | conformance/fuzzer/anf-differential.ts:587-622 | A body of at least three bindings that keeps the discipline and ends in an assert |
| `AnfGenerator.GenerateProgram` | conformance/fuzzer/anf-differential.ts:559-637 | For every stream of draws: unique names t0, t1, ..., every operand an earlier scalar of the right type, distinct operands and elements, nonzero literal divisors, non-negative literal shifts, a closing assert, methods verify, m1, m2, ..., parameters p0, p1, ..., writable integer properties prop0, prop1, ... without initial value, counts within the options |
| `AnfGenerator.GeneratedNeverStuck` | conformance/fuzzer/anf-differential.ts:559-637 | No generated method gets stuck for any parameter values, property values and bit operators |
| `AnfReducer.IsWellFormed` | conformance/fuzzer/reduce.ts:133-149 | The nested loops decide exactly the existence-only well-formedness predicate |
| `AnfReducer.ReadsItsReferences` | conformance/fuzzer/reduce.ts:89-124 | What a binding evaluates to, and whether it gets stuck, depends on nothing but the bindings, the parameter and the property that its references name, and it gets stuck when one of them is missing |
| `AnfReducer.DeletionCandidates` | conformance/fuzzer/reduce.ts:167-198 | The candidates are the results of exactly all single-item deletions, in the order bindings, params, properties, methods |
| `AnfReducer.FirstKept` | conformance/fuzzer/reduce.ts:222-229 | One pass keeps exactly the first deletion, in the order bindings, parameters, properties, methods, that leaves the program well-formed and interesting, and none exactly when none does; it asks the predicate at most once per item |
| `AnfReducer.ReduceAnfProgram` | conformance/fuzzer/reduce.ts:212-231 | Terminates; the result is one function of program and predicate, which keeps the first helpful deletion until none helps; it is reached by kept deletions only, stays interesting and well-formed if the input was, is locally minimal, and costs at most 1 + n(n+1)/2 predicate calls; an uninteresting input comes back unchanged |
| `AnfReducer.ResultsStayOrderedIff` | conformance/fuzzer/reduce.ts:126-149 | What the reducer returns for an ordered and well-formed program is ordered under every predicate exactly when no method body refers to a name that is defined before the reference and again at it or later |
| `AnfReducer.ReductionsStayOrderedIff` | conformance/fuzzer/reduce.ts:126-149 | The same condition for the program after every kept deletion on the way |
| `AnfReducer.ExistenceImpliesOrder` | conformance/fuzzer/reduce.ts:126-132 | The condition for one step: existence implies order for every single deletion from an ordered body exactly when no binding is redefined after a use that only it serves |
| `AnfReducer.DuplicateNamesBreakOrder` | conformance/fuzzer/reduce.ts:126-132 | With duplicate names a well-formed deletion can put a body out of order |
| `AnfReducer.ReductionKeepsOrder` | conformance/fuzzer/reduce.ts:126-149 | The case of the generated programs: unique names survive every reduction, and with them the order |
| `AnfReducer.ReductionKeepsOk` | conformance/fuzzer/reduce.ts:212-231 | Reducing a typed program under any predicate ends in a typed program |
| `AnfReducer.ReducedNeverStuck` | conformance/fuzzer/reduce.ts:212-231 | No method of a reduced typed program gets stuck |
| `AnfReducer.OkResolves` | conformance/fuzzer/reduce.ts:133-149 | A typed program has its definitions before its uses and passes the existence check |
| `AnfFuzzing.ReducedFindingsRun` | conformance/fuzzer/reduce.ts:212-231 | Generator and reducer together: a generated program reduced under any predicate resolves, keeps its order and never gets stuck |
| `Metamorphic.MatchParen` | conformance/fuzzer/metamorphic.ts:180-190 | The position of the parenthesis that brings the depth to zero, or -1 |
| `Metamorphic.SwapTopLevel` | conformance/fuzzer/metamorphic.ts:198-223 | The sides of the operator change places exactly when one top-level operator is found and it is commutative |
| `Metamorphic.CommutesIff` | conformance/fuzzer/metamorphic.ts:174-177 | An operator that the scan recognises commutes on all values exactly when it is listed as commutative |
| `Metamorphic.ReorderParens` | conformance/fuzzer/metamorphic.ts:226-246 | The scan with its recursion computes the specified rewriting of every string, balanced or not |
| `Metamorphic.ReorderPrinted` | conformance/fuzzer/metamorphic.ts:226-246 | On the printed text of any fully parenthesised expression, with any operator words and any word before a group, and in any context to its right, the result is the print of the tree with every commutative node's operands exchanged; operators the scan does not know stay as they are |
| `Metamorphic.ReorderSource` | conformance/fuzzer/metamorphic.ts:226-257 | The same for a whole source whose parentheses all belong to such expressions and to typed parameter lists, which are copied |
| `Metamorphic.ReorderTwice` | conformance/fuzzer/metamorphic.ts:226-257 | Applying the transform twice gives the source back |
| `GeneratedContracts.ReorderGenerated` | packages/runar-testing/src/fuzzer/generator.ts:445-545 | On the text of every contract that the two generators feeding the transform can produce, the result is the text of the same contract with exchanged operands in its assert statements; applying it again restores the text; and every check has the same value in every environment |
| `GeneratedContracts.ArithWellFormed` | packages/runar-testing/src/fuzzer/generator.ts:115-183 | Every integer expression of the generator, shifts, bitwise operators and the chained shape included, is a fully parenthesised one |
| `GeneratedContracts.ConditionWellFormed` | packages/runar-testing/src/fuzzer/generator.ts:188-225 | So is every condition |
| `Metamorphic.SwapPreservesValue` | conformance/fuzzer/metamorphic.ts:248-254 | The exchanged tree has the same value in every environment; operators the scan does not know mean whatever the environment says |
| `Metamorphic.SwapPreservesLazyValue` | conformance/fuzzer/metamorphic.ts:248-254 | Under short-circuit evaluation too, whenever no operand fails; that is sufficient, not necessary |
| `Metamorphic.FailingOperandExposed` | conformance/fuzzer/metamorphic.ts:248-254 | A skipped operand that fails is exposed by the exchange, so the condition cannot be dropped altogether |
| `Metamorphic.ReorderPermutes` | conformance/fuzzer/metamorphic.ts:226-246 | On every string at all the length and the multiset of characters are kept |
| `OperandLists.MishandledIff` | conformance/fuzzer/metamorphic.ts:192-223 | A list of solid texts and bare infixes is changed exactly when one operand is an infix with a known operator, that operator is commutative, and the text before it differs from the text after it |
| `OperandLists.OneBareSwaps` | conformance/fuzzer/metamorphic.ts:192-223 | Then everything before the operator, earlier operands included, and everything after it change places |
| `OperandLists.NeverTheOperandAlone` | conformance/fuzzer/metamorphic.ts:192-223 | A changed list of two operands or more is never the list with that operand exchanged in its place |
| `Glob.GlobToRegExp` | conformance/scripts/wire-format-pr-audit.ts:656-679 | The loop with its look-ahead emits the anchored text of the glob's tokens |
| `Glob.TextParses` | conformance/scripts/wire-format-pr-audit.ts:656-679 | The emitted text is well-formed regular-expression syntax and parses to the intended expression: escapes are right and no literal is taken for a quantifier |
| `Glob.PatternMatchesGlob` | conformance/scripts/wire-format-pr-audit.ts:656-679 | The compiled pattern matches a path exactly when the direct recursive glob matcher accepts it |
| `Glob.SingleMeans` | conformance/scripts/wire-format-pr-audit.ts:656-679 | A question mark takes one character other than a slash, a character that is no wildcard takes itself, and the empty glob takes the empty path only, as compiled and as documented |
| `Glob.StarMeans` | conformance/scripts/wire-format-pr-audit.ts:656-679 | A lone star takes any run of characters without a slash, and then the rest of the glob must match, as compiled and as documented |
| `Glob.TwoStarsMean` | conformance/scripts/wire-format-pr-audit.ts:656-679 | A double star that no slash follows takes any run of characters without a line terminator; as documented, any text |
| `Glob.LeadingDirs` | conformance/scripts/wire-format-pr-audit.ts:648-655 | A leading double star and slash stands for zero or more nonempty directory names, as compiled and as documented |
| `Glob.DocumentedIffOneLine` | conformance/scripts/wire-format-pr-audit.ts:648-655 | The compiled matcher agrees with the documented meaning, in which a double star takes any suffix, on all globs exactly for the paths without a line terminator |
| `Glob.PlainGlobIsItself` | conformance/scripts/wire-format-pr-audit.ts:656-679 | A glob without wildcards matches only itself |
| `Glob.MatchesAnyGlob` | conformance/scripts/wire-format-pr-audit.ts:691-693 | True exactly when some glob of the list matches |
| `CanonJson.Canonicalize` | conformance/runner/runner.ts:1844-1887 | The recursion that revives leaves and fills sorted objects computes the canonical form |
| `CanonJson.FormOfInteger` | conformance/runner/runner.ts:1844-1872 | An integer token becomes a number up to 2^53 - 1 in size and beyond that its digits with an n |
| `CanonJson.BigintTexts` | conformance/runner/runner.ts:1864-1870 | A string is taken for an integer exactly when it is a nonempty run of digits and an n, perhaps with a minus in front |
| `CanonJson.BigintReads` | conformance/runner/runner.ts:1864-1870 | Such a string is taken for the integer its digits and sign spell |
| `CanonJson.KeyOrder` | conformance/runner/runner.ts:1875-1887 | Array indices come first, in the order of their values; other keys are in the order of the first character in which they differ, a prefix before what it begins |
| `CanonJson.SameFormIffSameMeaning` | conformance/runner/runner.ts:1804-1821 | Two trees have the same canonical form exactly when they mean the same as coded: equal up to member order, overridden duplicates, source locations and the two spellings of integers, with members named `__proto__` ignored, overflowing number tokens taken for null, and integers beyond 2^53 - 1 spelled with an exponent or fraction apart from their digits |
| `CanonJson.SameFormAsDocumented` | conformance/runner/runner.ts:1804-1821 | As documented, with none of these three exceptions or with any of them, for trees that keep nothing the exceptions concern |
| `CanonJson.ReadingsAgreeIff` | conformance/runner/runner.ts:1804-1821 | Each exception changes what a tree means exactly when the tree keeps something it concerns: a `__proto__` member, an overflowing token, a long integer with an exponent or fraction |
| `CanonJson.OverflowCollides` | conformance/runner/runner.ts:1844-1872 | Number tokens beyond the double range, of either sign, share the form of null although they mean three different things |
| `CanonJson.ProtoCollides` | conformance/runner/runner.ts:1875-1887 | An object with a member named `__proto__`, whatever its value, shares the form of the object without it although they mean different things |
| `CanonJson.IntegersNeverCollide` | conformance/runner/runner.ts:1844-1872 | Distinct integers never share a form, on either side of 2^53 - 1 |
| `CanonJson.SpellingsAgree` | conformance/runner/runner.ts:1864-1870 | A number token and the n-suffixed string of one integer have one form |
| `CanonJson.SortedUnique` | conformance/runner/runner.ts:1875-1887 | Sorted entries are determined by what each key is mapped to |
| `CanonJson.ExponentSpellingDiffers` | conformance/runner/runner.ts:1850-1863 | On a single token: an integral number spelled with an exponent or fraction shares the form of its digits exactly up to 2^53 - 1 |
| `CanonJson.IdempotentIffStable` | conformance/runner/runner.ts:1815-1823 | Canonicalising the printed canonical form changes nothing exactly when no kept leaf of the input is a number token with a fraction or exponent whose double prints as a run of digits beyond 2^53 - 1 |
| `CanonJson.NotAlwaysIdempotent` | conformance/runner/runner.ts:1815-1823 | The number token 1e20 is such a case |
| `TxCodec.BuildUnsignedTx` | conformance/sdk-bip143/generate-fixtures.ts:116-136 | Succeeds exactly when counts, amounts and script lengths are in range, and then yields the whole transaction text; half a byte of a script of odd length counts in comparing its length and is dropped in writing it |
| `TxLayout.BuiltIsLaidOut` | conformance/sdk-bip143/generate-fixtures.ts:89-136 | Of a built transaction: the first four bytes are version 1, every count, txid byte, index, sequence, amount and script byte stands at its offset with numbers low byte first and txids reversed, the last four bytes are the lock time, and nothing lies between the last output and them |
| `TxCodec.ParseInputs` | conformance/sdk-bip143/generate-fixtures.ts:432-454 | The moving-cursor loop computes the specified reading, errors included |
| `TxCodec.ParseOutputs` | conformance/sdk-bip143/generate-fixtures.ts:456-479 | The same for outputs, after stepping over the inputs |
| `TxCodec.VarintRoundTrip` | conformance/sdk-bip143/generate-fixtures.ts:481-487 | At any offset of any buffer, a written length below 2^32 is read back and the cursor stops right behind it |
| `TxCodec.ParseInputsOfBuilt` | conformance/sdk-bip143/generate-fixtures.ts:432-454 | Parsing a built transaction returns its inputs, with index and sequence reduced to 32 bits; every read is inside the buffer |
| `TxCodec.ParseOutputsOfBuilt` | conformance/sdk-bip143/generate-fixtures.ts:456-479 | Parsing a built transaction returns exactly its outputs |
| `TxCodec.UnchangedIffFits` | conformance/sdk-bip143/generate-fixtures.ts:89-93 | The inputs come back unchanged exactly when every index and sequence fits 32 bits |
| `TxCodec.BuildAndParse` | conformance/sdk-bip143/generate-fixtures.ts:116-136 | The round trip on the methods themselves |
| `Limiter.ConcurrencyLimiter.constructor` | conformance/runner/runner.ts:2067-2069 | Nothing in flight, nothing waiting |
| `Limiter.ConcurrencyLimiter.SubmitTask` | conformance/runner/runner.ts:2075-2086 | Starts the task below the cap, queues it otherwise |
| `Limiter.ConcurrencyLimiter.SettleTask` | conformance/runner/runner.ts:2070-2082 | Frees the slot, starts the first waiting task, and answers the outer promise unless that start threw |
| `Limiter.Replay` | conformance/runner/runner.ts:2067-2088 | Any legal run of submits and settlements leaves the object in the state of the transition system |
| `Limiter.AlwaysSafe` | conformance/runner/runner.ts:2067-2088 | In every interleaving and for every cap: in-flight within the cap, a waiting task only while every slot is taken, starts in submission order, submitted = waiting + in-flight + done, no task done twice |
| `Limiter.DrainedIffFewThrow` | conformance/runner/runner.ts:2067-2088 | Once all started tasks have settled, nothing is left waiting exactly when nothing was submitted or fewer tasks than there are slots threw among all submitted but the last |
| `Limiter.AnsweredExactly` | conformance/runner/runner.ts:2070-2086 | The tasks that get an answer are exactly those that threw when they were submitted and those whose settlement started no task that throws; one that waited and then throws never gets any |
| `Limiter.AnsweredOnce` | conformance/runner/runner.ts:2070-2086 | No task is answered twice |
| `Limiter.UnansweredIffStartsThrower` | conformance/runner/runner.ts:2070-2082 | A settled task is left without its answer exactly when its settlement started a waiting task that threw |
| `Limiter.IdleMeansDrained` | conformance/runner/runner.ts:2067-2088 | A task left waiting means as many started tasks threw as there are slots; if none threw, everything submitted is done and answered |
| `Limiter.ThrowingTasksLeak` | conformance/runner/runner.ts:2077-2082 | The smallest runs with a task left waiting and with a swallowed answer |
| `Daemon.JavaDaemon.constructor` | conformance/runner/java-daemon.ts:36-65 | A fresh client: empty buffer, no banner, ids from 1 |
| `Daemon.JavaDaemon.OnLine` | conformance/runner/java-daemon.ts:98-108 | Skips blank lines, takes the first other line as the banner signal, drops it only if it announces the daemon |
| `Daemon.JavaDaemon.OnStdout` | conformance/runner/java-daemon.ts:94-110 | The loop over newlines drains the buffer as specified, stopping where a line crashes the callback |
| `Daemon.JavaDaemon.HandleLine` | conformance/runner/java-daemon.ts:112-132 | A reply settles the pending request it names and nothing else; a JSON null throws |
| `Daemon.JavaDaemon.FailAll` | conformance/runner/java-daemon.ts:134-142 | Rejects every pending request in insertion order, clears the table, and rejects a banner still awaited |
| `Daemon.JavaDaemon.SendRequest` | conformance/runner/java-daemon.ts:159-207 | Issues the next id; a failed write settles it at once |
| `Daemon.JavaDaemon.OnTimeout` | conformance/runner/java-daemon.ts:184-189 | Settles the request only if it is still pending |
| `Daemon.JavaDaemon.OnClose` | conformance/runner/java-daemon.ts:66-70 | Fails everything unless the client was stopped |
| `DaemonFraming.ChunkingIrrelevant` | conformance/runner/java-daemon.ts:94-110 | However stdout is split into chunks, the same lines are handled, the same requests settled and the same text stays buffered |
| `DaemonFraming.RunFraming` | conformance/runner/java-daemon.ts:94-110 | After every legal run, however chunks, sends, timeouts, errors and closes interleave, the lines handled, and whether the first of them was seen, depend on the whole output alone, and unless a line crashed the callback the buffer is the text after its last newline |
| `DaemonFraming.LinesAndRest` | conformance/runner/java-daemon.ts:95-99 | Lines and rest recompose the text, and neither contains a newline |
| `DaemonRequests.AlwaysConsistent` | conformance/runner/java-daemon.ts:94-208 | Over every run of chunks, sends, timeouts, write failures, errors, closes and stops: each request is settled at most once, is pending exactly while issued and unsettled, and every reply went to the request its line named |
| `DaemonAnswers.SettledExactly` | conformance/runner/java-daemon.ts:113-208 | In every run a settlement is there exactly when a handled line carried that reply while its request was pending, its timer ran out while it was pending, the write that sent it failed, or the process failed while it was pending |
| `DaemonAnswers.SettledIsOver` | conformance/runner/java-daemon.ts:113-208 | A settled request is pending no more and has no second settlement |
| `DaemonAnswers.HeardIsHandled` | conformance/runner/java-daemon.ts:94-111 | The lines in which replies are looked for are the lines the client handles |
| `DaemonAnswers.NextIdCounts` | conformance/runner/java-daemon.ts:156-160 | Requests are numbered from 1 in the order in which they are sent |
| `DaemonAnswers.BannerOutcome` | conformance/runner/java-daemon.ts:72-142 | In every legal run the banner promise is rejected exactly when its timer ran out or the process failed before the first line that is not blank, waits while there is neither, and is resolved otherwise |
| `DaemonRequests.ExitDrainsIff` | conformance/runner/java-daemon.ts:66-70 | A run that ends with the exit of the process leaves no request pending exactly when the client was never stopped or none was pending before |
| `DaemonRequests.StoppedStaysPending` | conformance/runner/java-daemon.ts:210-231 | A request pending in a stopped client stays unsettled over every continuation without output, a process error or its own timeout, although stop is documented to reject it |
| `DaemonRequests.StopStrandsARequest` | conformance/runner/java-daemon.ts:210-231 | A concrete run that ends with such a request |
| `SkipAudit.Reconcile` | scripts/audit-test-skips.py:387-410 | The nested loops with their flags report exactly the unpaired skips and unused rows of the greedy assignment over what exact lines leave |
| `SkipAudit.GreedyTakesFirst` | scripts/audit-test-skips.py:396-405 | Each skip takes the first row that matches it and that no earlier skip has taken, and none exactly when there is none |
| `SkipAudit.SkipsInOrder` | scripts/audit-test-skips.py:387-395 | What the exact-line step leaves of a list of skips is what it leaves of its parts, in their order |
| `SkipAudit.SkipAlone` | scripts/audit-test-skips.py:387-395 | It leaves a skip exactly when its line is not documented |
| `SkipAudit.RowsInOrder` | scripts/audit-test-skips.py:387-395 | The same for rows |
| `SkipAudit.RowAlone` | scripts/audit-test-skips.py:387-395 | It leaves a row exactly when no skip is on its line |
| `SkipAudit.GreedyIsPairing` | scripts/audit-test-skips.py:396-405 | Each row is used at most once and only with a skip it matches |
| `SkipAudit.CountsAddUp` | scripts/audit-test-skips.py:396-410 | Orphans + pairs = skips left over, stales + pairs = rows left over |
| `SkipAudit.OrphansMatchNoStale` | scripts/audit-test-skips.py:399-410 | No orphan with a snippet matches a stale row |
| `SkipAudit.AtLeastHalf` | scripts/audit-test-skips.py:397-405 | The pairing is at least half as large as any pairing whatsoever |
| `SkipAudit.OptimalWhenUnambiguous` | scripts/audit-test-skips.py:359-366 | If no snippet matches two rows, no pairing is larger |
| `SkipAuditDrift.AlwaysCleanIff` | scripts/audit-test-skips.py:387-410 | On any skips and rows, exact lines included: nothing is reported, however they are listed, exactly when what the exact-line step leaves can be paired off and any two skips left that share a matching row match the same rows left |
| `SkipAuditDrift.PureDriftCleanIff` | scripts/audit-test-skips.py:359-366 | When all skips and rows can be paired off and skips that share a row match the same rows, so that only lines have moved: nothing is reported, as listed or in any order, exactly when around every matching pair as many skips stand on documented lines as rows are documented on live lines |
| `SkipAuditDrift.DriftOntoDocumentedLine` | scripts/audit-test-skips.py:359-366 | Two unambiguous skips that move down by ten lines are reported as an orphan and a stale row, because the first lands on the documented line of the second |
| `SkipAuditOrders.ForgivenIffClustered` | scripts/audit-test-skips.py:396-410 | Pairing by snippet alone, over the lists that the exact-line step hands it: nothing is left over, in every order of skips and rows, exactly when they can be paired off and any two skips that share a matching row match the same rows |
| `SkipAuditOrders.NothingIffPerfect` | scripts/audit-test-skips.py:396-410 | Nothing is reported exactly when the greedy assignment pairs every skip and uses every row |
| `SkipAudit.AmbiguousDriftReported` | scripts/audit-test-skips.py:359-366 | With an ambiguous snippet, skips that merely moved can be reported as an orphan and a stale row |
| `Overflow.AddIsExact` | packages/runar-go/overflow.go:21-28 | For every pair of int64 values: the exact sum, or a panic exactly when it does not fit |
| `Overflow.MulIsExactExcept` | packages/runar-go/overflow.go:9-18 | The exact product, or a panic exactly when it does not fit, for every pair except (-1, MinInt64) and only that one |
| `Overflow.MulMissesOnePair` | packages/runar-go/overflow.go:9-18 | For that pair the wrapped MinInt64 is returned; with the operands exchanged the guard panics |

## Left out

- The compilers, the SDKs, the script interpreter, the sighash preimage and signatures: library calls or not part of this model.
- The text of rendered contracts: contracts are rendered as syntax trees, so indentation, literals' spelling and the regular expression that renames locals in text are not modelled; the renaming is on the tree.
- Tags, ids and file names of generated shapes, and the non-integer branches of the slot length, which disagree with `conformance/sdk-vertical/matrix.ts` on one-byte strings.
- The arithmetic of the PRNG and the sampling library: an arbitrary bounded stream of draws instead.
- Aliasing between a reduced program and its clones: programs are values, so `structuredClone` is the identity.
- `collectLocals`, the local renaming and the dead-code insertion of `metamorphic.ts`: scanning of source text by regular expressions.
- Glob.PatternMatchesGlob: characters are code points, so a question mark takes a whole character outside the basic plane.
- CanonJson.Canonicalize: keys sort by code point rather than by code unit, which changes the order of some keys but not which trees are the same.
- The cache of compiled globs.
- Parsing and printing of JSON text: trees with number tokens instead; the digits that an unsafe double prints with are a parameter. Texts that do not parse are returned as they are by the source.
- TxCodec.ParseOutputsOfBuilt: amounts are integers, and reading one rounds to the nearest 53-bit number; the round trip asks that an amount be such a number, as every integer held in a JavaScript number is.
- Process start and exit, standard error, wall-clock time: timers and process ends are events. The refusal of `compile` after a stop comes before any id is issued and is not modelled.
- Grouping of skips and rows by file, the sorting and printing of reports, and the comparison of a snippet with a row, which is a parameter.
- Report formatting, exit codes, exception files and the other decision functions of these scripts.
- How `generator.ts` draws names, repeats included: any identifiers are allowed for contracts, methods, properties and parameters.
