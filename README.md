# Constant folding and propagation passes over JVM bytecode

This project models the method-level rewrite passes of a small optimiser
for JVM class files, built on the BCEL library. Each pass walks one
method's instruction list and rewrites it in place:

- **SimpleFolder** has three rewrites. It folds `const const arith` into
  one push, folds `const conv` into one push, and resolves
  `const [const] [lcmp|fcmp|dcmp] if` by deleting one arm: the arm that
  its own comparison rules out, which is not always the arm the JVM would
  skip (see below).
- **ConstantPropagator** learns `push; store` facts as it sweeps. It
  replaces a load of a known variable with a push of its value, unless a
  loop closed by a backward goto changes the variable.
- **ConstantFolder** is an earlier variant with two passes. The first
  learns constant variables. The second replaces their loads and folds
  int arithmetic.
- **ConstantVarFolder** is another variant. For each of sixteen
  `LDC LDC op` patterns it folds the matched windows, then runs a handler
  sweep over a stack of known numbers and writes the method back, so the
  sweep runs sixteen times over the same stack and variables.
- **Optimiser** holds what the passes share: `attemptDelete`, which
  deletes one handle or a range and moves the branches that targeted them
  onto a replacement, and the entry point `optimiseMethod`.
- **Utils** and **CmpEvaluator** are the classification tables and the
  comparison evaluator the passes use.

The instruction list is a sequence of handles. Each handle has a stable
identity and one instruction. Branches target identities, and a handle's
position is its index in the list. Lists the passes edit are classes
(`InstructionList`, `ConstantPool`, `Propagator`, `VariableState`,
`HandlerState`) whose methods are proved equal to value-level
specification functions. The properties are proved about those functions.

Java `int` and `long` arithmetic wraps modulo 2^32 and 2^64, and division
truncates toward zero (section 6.5 of the Java Virtual Machine
Specification). `intValue()` narrowing keeps the low 32 bits (section
5.1.3 of the Java Language Specification). Exceptions that escape a
handler (NullPointerException, ClassCastException, ArithmeticException,
IllegalArgumentException, and BCEL's ClassGenException for a branch
written out without a target, or checked by `setPositions(true)` with a
target outside the list) are explicit results.
`setPositions(true)`, which ends every `attemptDelete`, is modelled by
`PositionsCheck`: it throws exactly when some branch targets nothing or a
handle no longer in the list (`PositionsCheckIsClosure`).

Behaviour kept as written, where it differs from what the JVM would do:

- SimpleFolder's if-resolution compares the top of the stack against the
  operand below it (or against nothing, for a zero test) and, when the
  comparison holds, keeps the fall-through arm. So `iconst_0; ifeq B`
  keeps the arm before B, where the JVM would jump to B, and an
  `if_icmpxx` is decided with its operands swapped. `ZeroTestVerdict`,
  `TwoOperandTestVerdict`, `TakenIfKeepsFallThrough` and
  `ZeroTestKeepsFallThrough` state this.
- SimpleFolder's taken if-resolution rebinds the deleted handles to the
  handle after the if. When the jump target directly follows the goto
  after the if, that handle is the goto, which is deleted with the span;
  if another branch targeted the span, it is left on the deleted goto,
  `setPositions(true)` throws, and the handler returns false with the if,
  the goto and the span gone and the operands kept
  (`TakenPlanDetachedGoto`, `DetachedGotoAbandons`).
- ConstantFolder's second loop rebinds a branch into a replaced load to
  the load's predecessor only after `delete` has unlinked the load, that
  is, to null. Writing the method out then throws ClassGenException and
  the method is never replaced. `CountingLoopAborts` shows it for
  `i = 10; while (i < 20) i++;`, where the loop's `goto` targets the load.
- ConstantFolder's first pass forgets a stored variable unless the store
  follows a BIPUSH, because of the operator precedence in its condition.
  Only BIPUSH stores survive that pass.
- ConstantVarFolder registers its sixteen arithmetic handlers in hash-map
  order, and each accepts every arithmetic instruction. The first one
  handles every arithmetic instruction with its single operation.
- ConstantVarFolder's handler sweep starts from an empty stack and no known
  variables. `EmptySweepOnlyDropsGotos` proves that it never learns
  anything: the only handles it can delete are gotos to the next handle.
  It needs only an empty stack and no variables, and it ends with both
  still empty, so it holds for each of the sixteen sweeps in turn.

## Model

| member | source | states |
|---|---|---|
| Bytecode.WrapInt | src/comp0012/main/SimpleFolder.java:154-174 | the int result is congruent to the exact value modulo 2^32 and equals it when it fits in 32 bits |
| Bytecode.WrapLong | src/comp0012/main/SimpleFolder.java:154-174 | the long result is congruent to the exact value modulo 2^64 and equals it when it fits |
| Bytecode.TruncDiv | src/comp0012/main/SimpleFolder.java:220-237 | Java's quotient: the remainder is smaller than the divisor and takes the sign of the dividend |
| Bytecode.IntValue | src/comp0012/main/CmpEvaluator.java:98-99 | `intValue()` is defined for int and long; an int is itself, and a long keeps its low 32 bits |
| Bytecode.LongValue | src/comp0012/main/CmpEvaluator.java:100-101 | `longValue()` of an int or a long is the same number |
| Bytecode.ConstantPool.Add | src/comp0012/main/Utils.java:62-73 | `addInteger`/`addLong`/...: the entry is appended and its index returned |
| Utils.ExtractConstant | src/comp0012/main/Utils.java:34-60 | a value only for constant instructions; push constants give their operand; LDC of an int or float entry and LDC2_W of a long or double entry give that entry's value; a missing entry or one of another kind (a String or Class) gives none |
| Utils.GetConstantPushInstruction | src/comp0012/main/Utils.java:62-73 | appends one pool entry, returns LDC2_W or LDC of it, and the instruction extracts back to the input |
| Utils.PushRoundTrip | src/comp0012/main/Utils.java:62-73 | extracting the chosen push from the extended pool yields the pushed number |
| Utils.ExtractConstantStable | src/comp0012/main/Utils.java:34-60 | appending to the pool does not change what an existing instruction extracts |
| Utils.ExtractArithmeticType | src/comp0012/main/Utils.java:75-85 | INT/LONG/FLOAT/DOUBLE for exactly those four types, OTHER otherwise; agrees with `convertToOurTypes` |
| Utils.ExtractArithmeticOperationType | src/comp0012/main/Utils.java:106-138 | ADD/SUB/MUL/DIV by operation, whatever the kind; everything else is OTHER |
| Utils.ExtractComparisonType | src/comp0012/main/Utils.java:159-199 | a zero comparison exactly for IFEQ..IFLE; IF_ACMPEQ and IF_ACMPNE are EQUAL and NOT_EQUAL; OTHER exactly for IFNULL and IFNONNULL |
| Utils.ComparisonTypeMeansCondition | src/comp0012/main/Utils.java:159-199 | for every int condition, the kind it maps to decides two ints (IF_ICMPxx) or one int against zero (IFxx) exactly as the condition does in section 6.5 of the JVM Specification |
| Utils.AdjustCmpTypeBecauseItsSpecial | src/comp0012/main/Utils.java:212-229 | the result is never a zero comparison, and a non-zero kind is unchanged (so the map is idempotent) |
| Utils.AdjustMatchesTwoOperandTest | src/comp0012/main/Utils.java:167-193 | adjusting the kind of IFxx gives the kind of IF_ICMPxx with the same relation |
| Utils.ZeroComparisonIsComparisonWithZero | src/comp0012/main/CmpEvaluator.java:22-41 | a zero comparison gives the verdict of its two-operand form against an int zero |
| Utils.TypeOf | src/comp0012/main/SimpleFolder.java:268-278 | ICONST is int, BIPUSH byte, SIPUSH short; branches have no type |
| Utils.ConstantTypeMatchesValue | src/comp0012/main/SimpleFolder.java:268-278 | a constant instruction's type is its value's type, except BIPUSH and SIPUSH |
| CmpEvaluator.ConvertToOurTypes | src/comp0012/main/CmpEvaluator.java:47-59 | each numeric type maps to its arithmetic type; every other type maps to OTHER |
| CmpEvaluator.BestTypeIsWidest | src/comp0012/main/CmpEvaluator.java:61-84 | for two numeric types, the wider one in the order int < long < float < double |
| CmpEvaluator.BestTypeOfOneType | src/comp0012/main/CmpEvaluator.java:62-66 | with no second type, or the same type twice, the type's own arithmetic type |
| CmpEvaluator.BestTypeSymmetric | src/comp0012/main/CmpEvaluator.java:61-84 | the comparison type does not depend on the order of the operand types |
| CmpEvaluator.BestTypeOfSmallTypes | src/comp0012/main/CmpEvaluator.java:61-84 | two different non-numeric types (byte and short) compare as int; one alone gives OTHER |
| CmpEvaluator.IntegralValue | src/comp0012/main/CmpEvaluator.java:91-105 | an operand has an integral value exactly when it is an int or a long |
| CmpEvaluator.PerformComparison | src/comp0012/main/CmpEvaluator.java:6-45 | OTHER, a missing second operand of a two-operand test, and an OTHER comparison type all throw; float and double comparisons are undecided |
| CmpEvaluator.IntegralVerdictIsRelation | src/comp0012/main/CmpEvaluator.java:6-45 | on two ints or two longs each kind's verdict is its relation (EQUAL is `=`, LESS is `<`, and so on, `number1` on the left); a zero kind compares its one operand with 0 |
| CmpEvaluator.NotEqualNegatesEqual | src/comp0012/main/CmpEvaluator.java:18-25 | NOT_EQUAL and NOT_EQUAL_ZERO are the negations of EQUAL and EQUAL_ZERO |
| CmpEvaluator.ZeroComparisonIgnoresSecond | src/comp0012/main/CmpEvaluator.java:22-41 | a zero comparison does not depend on the second operand |
| CmpEvaluator.IntegralComparisonsAreTotalOrder | src/comp0012/main/CmpEvaluator.java:91-169 | exactly one of LESS, EQUAL and GREATER holds; LESS(a,b) is GREATER(b,a); the non-strict tests negate the strict ones |
| Optimiser.Retarget | src/comp0012/main/Optimiser.java:58-71 | each handle keeps its place and identity; only a branch into a lost handle changes, and only its target |
| Optimiser.RemoveSpan | src/comp0012/main/Optimiser.java:45-56 | with distinct identities, removing a span's identities removes exactly that span |
| Optimiser.ExciseIds | src/comp0012/main/Optimiser.java:30-43 | a deletion drops exactly the deleted identities and keeps the others distinct |
| Optimiser.ExciseOneShifts | src/comp0012/main/Optimiser.java:30-43 | deleting one handle shifts every later handle down by one position |
| Optimiser.ExciseTwice | src/comp0012/main/Optimiser.java:30-43 | two deletions with one replacement are one deletion of both sets |
| Optimiser.RetargetLostOnly | src/comp0012/main/Optimiser.java:58-64 | rebinding only the exception's lost targets equals rebinding every branch into the deleted handles |
| Optimiser.ExciseKeepsClosed | src/comp0012/main/Optimiser.java:30-43 | with a live replacement outside the deleted handles, no branch is left dangling |
| Optimiser.ExciseClosedIff | src/comp0012/main/Optimiser.java:34-43 | from a closed list, a deletion leaves every branch target in the list iff the replacement is a kept handle of the list or no kept branch targeted a deleted handle |
| Optimiser.InsertKeepsClosed | src/comp0012/main/SimpleFolder.java:85 | inserting a handle that is not a branch leaves every branch target in the list |
| Optimiser.PositionsCheckIsClosure | src/comp0012/main/Optimiser.java:42 | `setPositions(true)` passes iff every branch targets a handle in the list; otherwise it throws NullPointerException or ClassGenException |
| Optimiser.PositionsAfterDelete | src/comp0012/main/Optimiser.java:34-43 | after a deletion from a closed list, `setPositions(true)` passes iff the replacement is a kept handle or no kept branch lost its target |
| Optimiser.InstructionList.Insert | src/comp0012/main/SimpleFolder.java:85 | a fresh handle just before the position; the rest unchanged |
| Optimiser.InstructionList.Append | src/comp0012/main/ConstantPropagator.java:50 | a fresh handle just after the position; the rest unchanged |
| Optimiser.InstructionList.Delete | src/comp0012/main/Optimiser.java:36-40 | removes the inclusive range and reports the removed handles a kept branch still targets |
| Optimiser.InstructionList.UpdateTargeters | src/comp0012/main/Optimiser.java:60-64 | every branch into the target now points at the replacement; nothing else changes |
| Optimiser.ResetTargets | src/comp0012/main/Optimiser.java:58-71 | with a replacement, the branches into the lost targets follow it; without one, the list is unchanged |
| Optimiser.AttemptDelete | src/comp0012/main/Optimiser.java:34-43 | a null handle changes nothing and raises nothing; otherwise the handle goes, its branches follow the replacement, and `raised` is what `setPositions(true)` throws on the new list |
| Optimiser.AttemptDeleteRange | src/comp0012/main/Optimiser.java:45-56 | a null end changes nothing and raises nothing; otherwise the inclusive range goes, its branches follow the replacement, and `raised` is what `setPositions(true)` throws on the new list |
| Optimiser.DeleteAndReset | src/comp0012/main/Optimiser.java:37-41 | the try block shared by both overloads (also :50-54): `delete` and, on a lost target, `resetTargets` are one deletion with rebinding; the `setPositions(true)` after it is the `raised` of AttemptDelete and AttemptDeleteRange |
| SimpleFolder.PerformAddition | src/comp0012/main/SimpleFolder.java:154-174 | int and long sums wrap; a cast of the wrong kind throws ClassCastException; OTHER adds nothing |
| SimpleFolder.PerformSubtraction | src/comp0012/main/SimpleFolder.java:176-196 | `number1 - number2` with wrap; the top of the stack is the subtrahend |
| SimpleFolder.PerformMultiplication | src/comp0012/main/SimpleFolder.java:198-218 | int and long products wrap; wrong kinds throw |
| SimpleFolder.PerformDivision | src/comp0012/main/SimpleFolder.java:220-237 | truncating `number1 / number2`; an int or long zero divisor throws ArithmeticException |
| SimpleFolder.PerformArithmeticOperation | src/comp0012/main/SimpleFolder.java:133-152 | an OTHER operation adds no pool entry |
| SimpleFolder.HandleArithmeticInstruction | src/comp0012/main/SimpleFolder.java:95-128 | the outcome, list and pool are those of the arithmetic plan, and every branch target stays in the list, so no `setPositions(true)` of its deletions throws |
| SimpleFolder.ReplaceArithmetic | src/comp0012/main/SimpleFolder.java:113-125 | the push goes in before the operation, then the operation and both operands go, rebinding to the push; every branch target stays in the list |
| SimpleFolder.DeleteThree | src/comp0012/main/SimpleFolder.java:123-125 | three `attemptDelete`s with one kept replacement are one deletion of all three, and none of their `setPositions(true)` throws |
| SimpleFolder.ArithmeticFoldShape | src/comp0012/main/SimpleFolder.java:113-127 | a fold replaces the three handles with one push in their place; the length drops by 2 |
| SimpleFolder.ArithmeticFoldValue | src/comp0012/main/SimpleFolder.java:101-121 | the push loads `number1 op number2`, with the deeper operand first |
| SimpleFolder.HandleConversion | src/comp0012/main/SimpleFolder.java:56-90 | the outcome, list and pool are those of the conversion plan, and every branch target stays in the list |
| SimpleFolder.ReplaceConversion | src/comp0012/main/SimpleFolder.java:85-88 | the push goes in before the conversion, then both handles go, rebinding to the push; every branch target stays in the list |
| SimpleFolder.ConversionFoldShape | src/comp0012/main/SimpleFolder.java:56-90 | a conversion fold replaces two handles with one push; the length drops by 1 |
| SimpleFolder.ConversionFoldValue | src/comp0012/main/SimpleFolder.java:67-83 | L2I keeps the low 32 bits of a long; I2L widens an int |
| SimpleFolder.CheckIf | src/comp0012/main/SimpleFolder.java:239-283 | a decided check reads one operand, two, or a three-valued comparison and its two, directly below the if; otherwise it declines or throws |
| SimpleFolder.CheckIfVerdict | src/comp0012/main/SimpleFolder.java:246-285 | the verdict is `performComparison` of the kind on the handle below the if (`number1`) and the one below that (`number2`, absent for a zero test); after a three-valued comparison, on the two below it, typed by it |
| SimpleFolder.ZeroTestVerdict | src/comp0012/main/SimpleFolder.java:246-285 | after `iconst a`, IFxx is decided as `a cond 0`, the JVM's own test |
| SimpleFolder.TwoOperandTestVerdict | src/comp0012/main/SimpleFolder.java:246-285 | after `iconst deeper; iconst top`, IF_ICMPxx is decided as `top cond deeper`: the JVM's test with its operands swapped |
| SimpleFolder.TakenIfKeepsFallThrough | src/comp0012/main/SimpleFolder.java:284-313 | a holding verdict whose rewrite completes keeps exactly the handles outside the operands-to-if span and the goto-to-target span, so the fall-through arm survives; branches move to the handle after the if |
| SimpleFolder.UntakenIfKeepsTarget | src/comp0012/main/SimpleFolder.java:284-313 | a failing verdict keeps exactly the handles outside the span from the operands to the jump target; branches move to the target |
| SimpleFolder.ZeroTestKeepsFallThrough | src/comp0012/main/SimpleFolder.java:239-313 | for `iconst_0; ifeq B; A; goto E; B; E`, where the JVM runs B, the folding keeps A and E and deletes the constant, the if, the goto and B |
| SimpleFolder.OperandStop | src/comp0012/main/SimpleFolder.java:307-313 | the operand deletions run down from the if and stop at the first whose `setPositions(true)` throws; when none throws, every operand goes |
| SimpleFolder.TakenPlanDetachedGoto | src/comp0012/main/SimpleFolder.java:290-297 | when the jump target directly follows the goto after the if, the replacement is that goto; if a kept branch targets the deleted span, the handler gives up after the span with every operand still in place |
| SimpleFolder.IfPlanKeepsClosed | src/comp0012/main/SimpleFolder.java:284-318 | a completed if-resolution leaves every branch target in the list; an abandoned one leaves a branch on a deleted handle, the `setPositions(true)` that threw |
| SimpleFolder.DetachedGotoAbandons | src/comp0012/main/SimpleFolder.java:284-318 | for `iconst_1; ifne B; goto E; B: nop; E: return; goto B` the handler returns false, and the sweep stops there as an abandoned rewrite |
| SimpleFolder.DetachedGotoDecided | src/comp0012/main/SimpleFolder.java:284-318 | in that body the `ifne` is decided to branch and the if, the goto and B are deleted before the exception |
| SimpleFolder.DetachedGotoLeftList | src/comp0012/main/Optimiser.java:58-64 | in that body the last goto is left on the deleted goto, a handle outside the list |
| SimpleFolder.IfAbandonChanges | src/comp0012/main/SimpleFolder.java:293-318 | an abandoned if-resolution has already deleted the if, so the list it leaves differs from the one the sweep began with |
| SimpleFolder.HandleIfInstruction | src/comp0012/main/SimpleFolder.java:239-319 | the outcome and list are those of the if plan, whose kept arms the lemmas above state; an abandoned plan returns false with the part done before the exception |
| SimpleFolder.FoldJump | src/comp0012/main/SimpleFolder.java:284-314 | the rewrite after the verdict is the plan of that verdict, completed or abandoned |
| SimpleFolder.ResolveTakenJump | src/comp0012/main/SimpleFolder.java:288-313 | a true verdict declines without a goto before the target, is unmodelled for a backward span, and otherwise rewrites, or declines when a deletion throws |
| SimpleFolder.FoldTakenJump | src/comp0012/main/SimpleFolder.java:290-313 | the if, the span from the goto to its target, and the operands go, rebinding to the handle after the if; `caught` iff a `setPositions(true)` threw, with the list as the deletions before it left it |
| SimpleFolder.FoldUntakenJump | src/comp0012/main/SimpleFolder.java:301-313 | a false verdict deletes from the deepest operand through the handle before the jump target, rebinding to the target |
| SimpleFolder.DeleteTakenBranch | src/comp0012/main/SimpleFolder.java:293-297 | the two deletions of a taken jump are one deletion of the if and the goto span; it raises iff the replacement went with the span and a kept branch targeted the span |
| SimpleFolder.DeleteJumpingIf | src/comp0012/main/SimpleFolder.java:296 | deleting the if, rebinding to the handle after it, which stays, never throws |
| SimpleFolder.DeleteOperands | src/comp0012/main/SimpleFolder.java:307-313 | the three-valued comparison and the operands go as one span, up to the first deletion that throws; it raises iff one did |
| SimpleFolder.DeleteNumbers | src/comp0012/main/SimpleFolder.java:310-313 | `handle1`, then `handle2` unless the test is against zero, go up to the first deletion that throws |
| SimpleFolder.DeleteBelow | src/comp0012/main/SimpleFolder.java:307-313 | one operand's `attemptDelete` adds it to the deleted span, and raises iff a kept branch is left on a deleted handle |
| SimpleFolder.DeleteRangeAt | src/comp0012/main/SimpleFolder.java:297 | the range form of `attemptDelete` on a span given by positions; `raised` is what `setPositions(true)` throws on the new list |
| SimpleFolder.SweepIsFirstApplicable | src/comp0012/main/SimpleFolder.java:37-48 | the sweep declines iff every handler declines; otherwise it is the first handler that does not |
| SimpleFolder.Dispatch | src/comp0012/main/SimpleFolder.java:38-47 | conversions, then arithmetic, then ifs; other instructions are skipped |
| SimpleFolder.PlanAtAbandonChanges | src/comp0012/main/SimpleFolder.java:38-47 | only an if-resolution is abandoned, and an abandoned one has changed the list |
| SimpleFolder.OptimiseMethod | src/comp0012/main/SimpleFolder.java:33-50 | at most one rewrite per call; the outcome, list and pool are those of the sweep plan; a sweep that meets an abandoned rewrite stops there, unmodelled |
| ConstantPropagator.UpdateConstantStore | src/comp0012/main/ConstantPropagator.java:103-111 | a constant before a store records its value; any other instruction forgets the variable; other variables unchanged |
| ConstantPropagator.FactsAreLastStores | src/comp0012/main/ConstantPropagator.java:23-31 | a variable is known iff its last store follows a constant, and it holds that constant |
| ConstantPropagator.LastLoop | src/comp0012/main/ConstantPropagator.java:64-82 | a loop starts before the load and ends at a later goto |
| ConstantPropagator.LastLoopIsLastBackwardGoto | src/comp0012/main/ConstantPropagator.java:70-85 | no loop iff no later goto jumps back before the load; otherwise the last such goto |
| ConstantPropagator.IsInLoopAndChanges | src/comp0012/main/ConstantPropagator.java:64-101 | true iff the last backward goto's span holds a store or IINC to the variable |
| ConstantPropagator.FirstPropagation | src/comp0012/main/ConstantPropagator.java:23-35 | a propagation found from `k` lies at or after `k`; FirstPropagationIsFirst states which one it is |
| ConstantPropagator.FirstPropagationIsFirst | src/comp0012/main/ConstantPropagator.java:23-35 | none iff no position allows one; otherwise the first position that does, with its fact |
| ConstantPropagator.PropagationReplacesLoad | src/comp0012/main/ConstantPropagator.java:48-52 | the push takes the load's place, the length is kept, and the push loads the value |
| ConstantPropagator.Propagator.AttemptProp | src/comp0012/main/ConstantPropagator.java:40-53 | succeeds iff the load is not a goto target, its variable is known and no loop changes it; otherwise nothing changes; every branch target stays in the list, so its `setPositions(true)` passes |
| ConstantPropagator.Propagator.OptimiseMethod | src/comp0012/main/ConstantPropagator.java:17-38 | facts reset; performed iff a propagation exists; the list is the first propagation's result, and every branch target is in it, so `setPositions(true)` at :36 passes |
| ConstantPropagator.Propagator.Visit | src/comp0012/main/ConstantPropagator.java:24-34 | one iteration keeps the facts up to date and stops at the first propagation |
| ConstantPropagator.Propagator.PropagateAt | src/comp0012/main/ConstantPropagator.java:32-34 | a success is the sweep's propagation; a refusal moves the sweep on |
| ConstantPropagator.PropagateHere | src/comp0012/main/ConstantPropagator.java:32-34 | a success at the first position tried is the sweep's result |
| ConstantFolder.GetConstantValue | src/comp0012/main/ConstantFolder.java:179-200 | BIPUSH, SIPUSH, LDC and LDC2_W give their number; everything else gives null |
| ConstantFolder.ConstantLoadFor | src/comp0012/main/ConstantFolder.java:228-255 | ICONST for -1..5, else BIPUSH for a byte, else SIPUSH for a short, else LDC; LCONST for 0 and 1, else LDC2_W |
| ConstantFolder.ConstantLoadRoundTrip | src/comp0012/main/ConstantFolder.java:228-255 | whichever instruction is chosen pushes the value back |
| ConstantFolder.CreateConstantLoadInstruction | src/comp0012/main/ConstantFolder.java:228-255 | the chosen instruction, the grown pool, and the round trip |
| ConstantFolder.FirstPassKeepsBipushStores | src/comp0012/main/ConstantFolder.java:110-136 | a variable is known iff its last store follows a BIPUSH, with that BIPUSH's value |
| ConstantFolder.IdentifyConstantVariables | src/comp0012/main/ConstantFolder.java:109-136 | the first loop computes the first-pass map |
| ConstantFolder.FirstPassKnowsInts | src/comp0012/main/ConstantFolder.java:109-136 | the first pass leaves only int values |
| ConstantFolder.DeleteCatching | src/comp0012/main/ConstantFolder.java:152-162 | a catching delete shortens the list by one; DeleteCatchingIds states which handles shift and which targets change |
| ConstantFolder.DeleteCatchingAt | src/comp0012/main/ConstantFolder.java:152-162 | a target is lost iff a branch still targets the handle; the list is the catching delete |
| ConstantFolder.DeleteCatchingIds | src/comp0012/main/ConstantFolder.java:152-162 | later handles shift down by one; only branch targets can change |
| ConstantFolder.DeleteCatchingCutsOff | src/comp0012/main/ConstantFolder.java:155-161 | after a delete with a null replacement, nothing targets the deleted handle |
| ConstantFolder.LoadStep | src/comp0012/main/ConstantFolder.java:145-164 | replacing a known load keeps the length; LoadStepReplacesLoad states the push that takes the load's place |
| ConstantFolder.ReplaceLoad | src/comp0012/main/ConstantFolder.java:148-162 | the state after the replacement is that of the load step |
| ConstantFolder.InsertReplacing | src/comp0012/main/ConstantFolder.java:152-162 | `insert` then a catching `delete` of the old handle |
| ConstantFolder.LoadStepReplacesLoad | src/comp0012/main/ConstantFolder.java:145-164 | the load's place holds a fresh push of the value; nothing targets the load |
| ConstantFolder.LoadStepKeepsOthers | src/comp0012/main/ConstantFolder.java:145-164 | every other handle keeps its identity and, unless a branch, its instruction |
| ConstantFolder.FoldOperand | src/comp0012/main/ConstantFolder.java:285-305 | an int LDC, BIPUSH or SIPUSH operand, agreeing with `extractConstant` |
| ConstantFolder.FoldStep | src/comp0012/main/ConstantFolder.java:267-343 | a fold that continues resumes after the folded operation; FoldReplacesOperation states the push of the result that replaces the three handles |
| ConstantFolder.FoldDeletes | src/comp0012/main/ConstantFolder.java:322-338 | the deletions resume at the handle after the operation |
| ConstantFolder.TryFoldConstantOperation | src/comp0012/main/ConstantFolder.java:267-343 | an escaping exception stops with the state as it stands; otherwise the fold step's state |
| ConstantFolder.ReplaceOperation | src/comp0012/main/ConstantFolder.java:322-338 | the try block gives the state of the fold's deletions |
| ConstantFolder.FoldReplacesOperation | src/comp0012/main/ConstantFolder.java:307-330 | without lost targets, the three handles become one push of `second op first` wrapped to 32 bits; the length drops by 2 |
| ConstantFolder.ReplaceThree | src/comp0012/main/ConstantFolder.java:324-330 | the push takes the place of the three handles; nothing targets the operation |
| ConstantFolder.SweepStep | src/comp0012/main/ConstantFolder.java:140-170 | a visit resumes at the handle that followed the visited one |
| ConstantFolder.StepKeepsNext | src/comp0012/main/ConstantFolder.java:141-169 | `nextHandle` is still at the position the visit reports |
| ConstantFolder.ReplaceAndFold | src/comp0012/main/ConstantFolder.java:138-170 | the second loop ends as the second pass does, aborted by an exception or finished |
| ConstantFolder.Optimized | src/comp0012/main/ConstantFolder.java:89-177 | the method is reported optimised only when no branch is left without a target, since `setPositions` and `getMethod` throw otherwise |
| ConstantFolder.OptimizeMethod | src/comp0012/main/ConstantFolder.java:89-177 | abstract, native, code-less and list-less methods are untouched; otherwise the two passes, then an exception when the second loop throws or a branch was left without a target |
| ConstantFolder.LoadStepDangles | src/comp0012/main/ConstantFolder.java:150-161 | replacing a load that a branch targets leaves that branch targeting null |
| ConstantFolder.SweepStepKeepsDangling | src/comp0012/main/ConstantFolder.java:140-170 | a visit deletes only loads, fold operands and arithmetic, so a branch without a target keeps none |
| ConstantFolder.SecondPassKeepsDangling | src/comp0012/main/ConstantFolder.java:138-170 | once a branch is without a target, it stays so to the end of the second loop |
| ConstantFolder.CountingLoopKnowsCounter | src/comp0012/main/ConstantFolder.java:109-136 | in `i = 10; while (i < 20) i++;` the first pass takes `i` to be 10, since IINC is not a store |
| ConstantFolder.CountingLoopAborts | src/comp0012/main/ConstantFolder.java:138-175 | optimising that loop leaves its `goto` targeting null and ends in ClassGenException |
| ConstantFolder.SecondPassWithoutArith | src/comp0012/main/ConstantFolder.java:138-170 | without arithmetic the second loop finishes, keeps the length and only grows the pool |
| ConstantFolder.SecondPassKeepsHandle | src/comp0012/main/ConstantFolder.java:138-170 | without arithmetic, a handle that is neither a branch nor a known load stays |
| ConstantFolder.SecondPassPushesValue | src/comp0012/main/ConstantFolder.java:145-163 | without arithmetic, every known load ends up pushing its variable's value |
| ConstantFolder.SecondPassReplacesLoads | src/comp0012/main/ConstantFolder.java:138-170 | the two facts above for the whole second pass |
| ConstantFolder.VisitWithoutArith | src/comp0012/main/ConstantFolder.java:140-169 | one visit of a non-arithmetic handle replaces a known load and leaves everything else |
| ConstantVarFolder.OperationFor | src/comp0012/main/ConstantVarFolder.java:349-367 | each add, subtract, multiply and divide opcode gets the operation of its own operator |
| ConstantVarFolder.Perform | src/comp0012/main/ConstantVarFolder.java:47-113 | `y op x` for same-kind operands with wrap; different kinds throw IllegalArgumentException; an int or long zero divisor throws ArithmeticException |
| ConstantVarFolder.PerformIsFoldOfSwappedOperands | src/comp0012/main/ConstantVarFolder.java:47-113 | `perform(x, y)` is SimpleFolder's fold of `y` and `x` |
| ConstantVarFolder.SubtractionAntisymmetric | src/comp0012/main/ConstantVarFolder.java:81-96 | swapping integral operands negates the difference modulo the width |
| ConstantVarFolder.ComputeFoldedResult | src/comp0012/main/ConstantVarFolder.java:522-564 | `a op b` of the opcode's kind with wrap; a null operand, an unknown opcode or a zero divisor gives no fold |
| ConstantVarFolder.FoldedResultAgreesWithPerform | src/comp0012/main/ConstantVarFolder.java:522-564 | on same-kind operands it equals the registered operation's `perform(b, a)`; on a zero divisor it declines where `perform` throws |
| ConstantVarFolder.GetNumber | src/comp0012/main/ConstantVarFolder.java:508-519 | a number only for LDC and LDC2_W, agreeing with `extractConstant` |
| ConstantVarFolder.FoldMatch | src/comp0012/main/ConstantVarFolder.java:416-449 | no fold leaves everything unchanged; a fold appends the pool entry and replaces the window |
| ConstantVarFolder.ReplaceWindow | src/comp0012/main/ConstantVarFolder.java:426-447 | insert before the window, then delete the window, rebinding to the push |
| ConstantVarFolder.FoldMatchReplacesWindow | src/comp0012/main/ConstantVarFolder.java:426-447 | the three handles become one push of the result; the length drops by 2 |
| ConstantVarFolder.ConstantIffSetAndNeverModified | src/comp0012/main/ConstantVarFolder.java:206-233 | a variable is constant iff a value was set and it was never marked modified; its value is the last one set |
| ConstantVarFolder.VariableState.SetConstant | src/comp0012/main/ConstantVarFolder.java:215-219 | ignored for a modified variable |
| ConstantVarFolder.VariableState.MarkModified | src/comp0012/main/ConstantVarFolder.java:221-224 | the variable is modified and loses its value |
| ConstantVarFolder.VariableState.GetValue | src/comp0012/main/ConstantVarFolder.java:226-228 | the stored value, or null |
| ConstantVarFolder.VariableState.IsConstant | src/comp0012/main/ConstantVarFolder.java:230-232 | a constant variable is never a modified one |
| ConstantVarFolder.DeleteInstruction | src/comp0012/main/ConstantVarFolder.java:116-140 | branches into the handle move to its successor, then the handle is unlinked |
| ConstantVarFolder.DeleteInstructionRebinds | src/comp0012/main/ConstantVarFolder.java:117-131 | the length drops by one; only branches into the deleted handle change, and they target its successor |
| ConstantVarFolder.RedundantGotoDeletionKeepsClosed | src/comp0012/main/ConstantVarFolder.java:314-320 | deleting a goto to the next handle leaves no branch dangling |
| ConstantVarFolder.HandleArithmetic | src/comp0012/main/ConstantVarFolder.java:158-201 | the arithmetic handler changes the state as the arithmetic step says |
| ConstantVarFolder.HandleLoad | src/comp0012/main/ConstantVarFolder.java:277-298 | the load handler changes the state as the load step says |
| ConstantVarFolder.HandleStore | src/comp0012/main/ConstantVarFolder.java:246-263 | the store handler changes the state as the store step says |
| ConstantVarFolder.HandleGoto | src/comp0012/main/ConstantVarFolder.java:312-321 | the goto handler changes the state as the goto step says |
| ConstantVarFolder.InsertPush | src/comp0012/main/ConstantVarFolder.java:286-296 | a push through a new pool entry, then `deleteInstruction` of the handle |
| ConstantVarFolder.ArithmeticStepReplaces | src/comp0012/main/ConstantVarFolder.java:177-192 | on success the stack shrinks by one with the result on top, and the push in the instruction's place loads it |
| ConstantVarFolder.ArithmeticStepThrows | src/comp0012/main/ConstantVarFolder.java:166-200 | when `perform` throws, nothing is inserted and the two operands stay popped |
| ConstantVarFolder.LoadStepReplaces | src/comp0012/main/ConstantVarFolder.java:279-297 | a known load becomes a push of its value, which also goes on the stack |
| ConstantVarFolder.StoreStepRecords | src/comp0012/main/ConstantVarFolder.java:248-262 | on a non-empty stack the store goes whatever was popped, and a popped number is recorded |
| ConstantVarFolder.VisitKeepsOthers | src/comp0012/main/ConstantVarFolder.java:452-470 | a visit deletes no handle other than the visited one |
| ConstantVarFolder.HandlerSweep | src/comp0012/main/ConstantVarFolder.java:452-470 | the loop over the snapshot ends in the state of the sweep function |
| ConstantVarFolder.VisitHandle | src/comp0012/main/ConstantVarFolder.java:453-469 | IINC marks the variable modified; otherwise the first handler that accepts the instruction runs |
| ConstantVarFolder.VisitFromEmpty | src/comp0012/main/ConstantVarFolder.java:452-470 | from an empty stack and no variables, a visit learns nothing and deletes at most a goto |
| ConstantVarFolder.EmptySweepOnlyDropsGotos | src/comp0012/main/ConstantVarFolder.java:389-470 | the sweep as the method starts it keeps the stack and variables empty, the pool unchanged, and every non-branch handle |
| Driver.FoldingResult | src/comp0012/main/SimpleFolder.java:49 | a regenerated method iff a rewrite happened, null iff every handler declined |
| Driver.OptimiseMethod | src/comp0012/main/Optimiser.java:17-28 | no list returns the method unchanged; otherwise the pass's own `optimiseMethod`, with an abandoned rewrite of the folder halting as unmodelled |

## Left out

- Class-file parsing and writing (`ClassParser`, `ClassGen`, `optimize`, `write`, `dump`) are I/O. They are not part of this model.
- All console output (`System.out`, `System.err`, `printStackTrace`, `Utils.debug`) is diagnostics only.
- Float and double values are terms (`Fp`) that the model never evaluates. A step whose outcome depends on evaluating one ends in an explicit `Unmodelled(FloatingPoint)` or `NeedsFloat` result and changes nothing. This covers a float comparison, an F2I conversion, a float divisor test and `intValue` of a float. NaN handling is not modelled, and neither is the float and double branch of `createConstantLoadInstruction`.
- Bytecode.ConstantPool.Add: always appends. BCEL's `addInteger` and the other adders reuse an equal existing entry; the pushed value is the same either way.
- Byte offsets and max-stack and max-locals recomputation (`setMaxStack`, `setMaxLocals`) are left out, because positions are list indices here.
- `setPositions(true)` is modelled as `PositionsCheck` in the `attemptDelete`s (Optimiser.java:42 and :55). SimpleFolder and ConstantPropagator, which use them, are proved never to leave a branch outside the list, except in the abandoned if-resolution of `TakenPlanDetachedGoto`, where the exception is caught. ConstantPropagator's own `setPositions(true)` at ConstantPropagator.java:36 passes by `Propagator.OptimiseMethod`'s closure clause. Only ConstantFolder models the exception of its `setPositions()` and `getMethod()` (ConstantFolder.java:171-175), for a branch without a target (`Dangling`).
- `getMethod()` at SimpleFolder.java:50 and at ConstantPropagator.java:37 is not modelled: what it would throw is not part of either pass's outcome.
- PositionsCheck: BCEL checks that a branch's target instruction is in the list, and the model checks the target handle. The two differ only for a detached handle that holds an instruction also in the list; the only detached target the model can produce is a goto, which BCEL does not share.
- SimpleFolder.OptimiseMethod: when an if-resolution is abandoned, the source's sweep goes on over the rest of its snapshot on the partly rewritten list. The model stops there with `Unmodelled(AbandonedRewrite)`, with the list as the abandoned resolution left it, and does not follow the rest of that sweep.
- DeleteCatchingAt: only if and goto instructions count as targeters, so ConstantFolder.DeleteCatching and ConstantFolder.OptimizeMethod do not see line-number entries (`LineNumberGen`), local-variable ranges or switch targets. A deleted load that only such an entry targets also throws `TargetLostException` in BCEL, and its null rebinding then fails; the model does not capture that failure. Switches are opaque instructions here.
- Exception-table targeters are left out. `InstructionUtils.deleteInstruction`'s catch block, which nulls the remaining targeters, therefore never applies: every branch has already been moved to the successor.
- BCEL's `InstructionFinder` regex search and ConstantVarFolder's loop over its sixteen patterns are left out. `FoldMatch` models the fold of one matched window on the current list, and `HandlerSweep` models the sweep that follows each pattern's matches. The per-pattern `setPositions`, `getMethod` and `replaceMethod` are not modelled.
- ConstantVarFolder.HandleArithmetic: the handler's operation is a parameter. Which of the sixteen registered operations the hash map yields first depends on `Class` hash codes the source does not fix.
- SimpleFolder.HandleIfInstruction: an if whose jump target, or whose else-goto's target, lies before it would make BCEL delete a reversed or already deleted range. The model reports `Unmodelled(BackwardJump)` and changes nothing.
- The reflection hacks in `Utils` (`getSimpleName` with `enum.valueOf`) are replaced by a direct opcode datatype.
- The fixpoint driver that calls `optimiseMethod` with growing iteration numbers is not part of this model.
- The `iteration` argument and the class-name strings of `Optimiser.optimiseMethod` are unused, and are left out.
