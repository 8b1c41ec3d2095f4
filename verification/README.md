# Proofs about Kint

Kint finds integer errors in C programs. It works on LLVM's SSA form: whole-program passes propagate
function pointers, taint and value ranges; function passes rewrite overflow idioms and insert checks;
and an encoder turns values and paths into bit-vector formulas for an SMT solver, whose answers become
warnings. This project models that core in Dafny and proves what its results mean, for every bit width
and every function, program, run or iteration.

Bit vectors are natural numbers below `Pow2(n)`; `n` is always a parameter.

## The files

| file | part of Kint |
|---|---|
| `BitVec.dfy`, `Terms.dfy` | fixed-width arithmetic; solver expressions, when the solver rejects them, and their values |
| `Solver.dfy` | the solver object with its reference count, and the shift encoding of the Boolector back end |
| `CRange.dfy`, `RangeMetadata.dfy` | wrapped ranges, and the constraint assumed from a written range |
| `SSA.dfy` | SSA functions, dominance, and their runs: states, steps, executions |
| `ValueEncoding.dfy`, `ValueGen.dfy` | the formula of a value, and the memoising encoder that builds it |
| `PathEncoding.dfy`, `PathSoundness.dfy`, `PathGen.dfy` | the path predicate of a block, what it means for paths and runs, and the memoising encoder |
| `Checkers.dfy`, `Examples.dfy` | `CmpSat` and `IntSat`, from the encoders to the verdict; runs at which the verdicts can be seen |
| `CallGraph.dfy`, `RangePass.dfy`, `Taint.dfy`, `FiniteSets.dfy` | the three whole-program fixpoint passes |
| `Rewriting.dfy` | when a rewritten function has the executions of the original one |
| `OverflowIdiom.dfy`, `OverflowSimplify.dfy`, `CmpOverflow.dfy`, `IdealShift.dfy` | the rewrites and the threshold checker |
| `IntRewrite.dfy` | where checks are placed, and what they test |

The encoders, the passes and the solver are classes with the fields Kint's classes have (`Cache`,
`FuncPtrs`, `IntRanges`, `Changes`, `GTS`, `VTS`, ...). Each method is proved against a function of its
inputs or of the old state, or against a relation to it; the lemmas are about these.

A function's values and blocks are numbered so that non-PHI operands have smaller numbers than their
users, and edges that are not back edges lead to larger numbers. This states the acyclicity of both
graphs and is what the recursions of the encoders descend on.

## Where the code deviates

The code is modelled as it is. Where it does not do what it is for, a lemma says exactly when, and
another gives an input:

- A switch one of whose cases leads to the default block, and a branch with two equal successors, get a
  terminator guard that is too strong (`TermGuardMeaning`). `EqualSuccessorsExample` is a run into such a
  block whose guard is false, where `CmpSat` calls a condition always true that is false in the run. The
  statements about runs therefore ask that a run takes no edge in this way (`Regular`); a function
  without these shapes has no other runs (`WellShapedRunCovered`).
- The Boolector encoding of an arithmetic right shift loses the sign at widths that are not powers of
  two (`ShiftInRange`, `ShiftEncodingExact`, `GuardedShiftIsMathematical`; `OddWidthExample`). The
  statements about runs ask that no shift available in the block does (`ShiftsAgree`).
- `OverflowIdiom` turns `x > C / y` with `C = 2^k - 1` into a test that is true at `x == 0 && y > C`, and
  for `C == 0` asks LLVM for a type of zero bits (`ReplacementMeaning`, `InvalidTypeExactly`). Outside of
  that the pass keeps all executions (`OverflowIdioms.PassKeepsExecutions`); `DeviationExample` is one it
  loses.
- `OverflowSimplify` makes a signed multiplication by -1 overflow for every operand but the smallest
  number. For a subtraction from a constant it compares `L` where its own comment says `R`
  (src/OverflowSimplify.cc:179-184); `SSubMeaning` says when that goes wrong. Outside of these the pass
  keeps all executions (`OverflowSimplify.PassKeepsExecutions`); `DeviationExamples` has both shapes.
- `CmpOverflow` reports `UMAX / b - a` also when that subtraction has wrapped around, and then the
  constant lies on the other side of the threshold (`MisplacedOffset`, `WrappedOffsetExample`).
- The taint pass ends when no identifier is new, which can be before every value is tainted
  (`NotClosed`). It does reach a closed state in every program in which results are computed before they
  are read (`Ordered`, a condition on the program text): no PHI reads over a back edge, and a value that
  casts are looked through is itself such a cast (`ClosedAfterRound`, `TaintPass.Run`). The converse does
  not hold: a program out of order is closed too when nothing in it is a source
  (`NothingWithoutSources`), or when the taint happens to arrive by another way.
- An array check with an index type too narrow for the bound compares with the bound cut off
  (`LevelCheckExact`, `CutOffBoundExamples`).

## Model

| member | source | states |
|---|---|---|
| `PathSoundness.RunsSatisfyGuards` | src/PathGen.cc:31-71 | At the end of every execution, of any length, whose steps the guards account for, the current values satisfy the path predicate of the current block. Those are the steps along edges of a distinguished shape, from values whose shifts the encoding gets right; without a dominator tree they take no back edge, and with one, every step into a loop header counts. |
| `PathSoundness.WellShapedRunCovered` | src/PathGen.cc:31-71 | In a function with neither degenerate terminators nor odd-width arithmetic shifts, those are all executions with a dominator tree, and without one all that take no back edge. |
| `PathSoundness.StepKeepsInvariant` | src/PathGen.cc:42-68 | Every such step keeps true: the values available in the block agree with their definitions, and the guards of all dominators of the block hold. |
| `PathSoundness.InitialInvariant` | src/PathGen.cc:35-40 | The invariant holds when execution starts in the entry block, whose guard is true. |
| `PathSoundness.GuardCarries` | src/PathGen.cc:42-48 | The guard of a dominator that is numbered below the entered block stays true although the step changes values; this is why falling back to the common dominator is sound for loops. |
| `PathSoundness.EnteredGuardHolds` | src/PathGen.cc:49-68 | The edge an execution takes opens the disjunct of its predecessor, so the guard of the entered block holds. |
| `SSA.StepConsistent` | src/PathGen.cc:31-71 | After a step, every value whose definition dominates the new block still agrees with its operands. |
| `PathSoundness.GuardIffOpenPath` | src/PathGen.cc:49-70 | When back edges are skipped, the guard of a block is true under an assignment if and only if some path of forward edges from the entry is open under it, in every function. |
| `PathSoundness.GuardIffOpenChain` | src/PathGen.cc:31-71 | With a dominator tree, the guard of a block is true under an assignment if and only if a chain leads from the entry to the block: over open edges, and into a block that a back edge enters from the nearest block that dominates all its predecessors. |
| `PathSoundness.GuardIffLed` | src/PathGen.cc:42-68 | One link of that chain. |
| `PathEncoding.TermGuardMeaning` | src/PathGen.cc:102-165 | A terminator's guard holds exactly when the terminator chooses the block, except exactly on the two degenerate shapes. |
| `PathEncoding.SwitchGuardMeaning` | src/PathGen.cc:132-165 | For a switch: the cases that lead to the block, or the negation of all cases for the default. |
| `PathEncoding.CasesMeaning` | src/PathGen.cc:138-161 | The disjunction built by the loop over the cases holds exactly when one of the cases taken into account has the value of the condition. |
| `PathEncoding.PhiGuardMeaning` | src/PathGen.cc:78-100 | The PHI guard holds exactly when every PHI of the block with an analysable operand for the edge, that is not undef, has the value of that operand. |
| `PathEncoding.EdgeGuardMeaning` | src/PathGen.cc:57-59 | Terminator and PHI guard together hold exactly when the edge is open: chosen, by a shape that the guard distinguishes, with PHIs that agree. |
| `PathEncoding.GuardUpToMeaning` | src/PathGen.cc:49-68 | The disjunction over the predecessors holds exactly when one of them has an open edge and a true guard. |
| `PathEncoding.CommonDominatorDominates` | src/PathGen.cc:23-29 | The folded nearest common dominator dominates every predecessor. |
| `PathEncoding.CommonDominatorNearest` | src/PathGen.cc:23-29 | Whatever dominates all predecessors dominates the folded dominator. |
| `PathEncoding.CommonDominatorUnique` | src/PathGen.cc:23-29 | It is the one block that dominates all predecessors and is dominated by everything that does. |
| `PathEncoding.CommonDominatorBelow` | src/PathGen.cc:42-48 | It is numbered below the block, so the recursion through it ends. |
| `PathGens.PathGen.Get` | src/PathGen.cc:31-71 | The memoising encoder returns the path predicate whatever was cached before, keeps the cache right, leaves exactly one solver reference for every cache entry, and has asserted the range conditions of exactly the values it visits. |
| `PathGens.PathGen.Disjunction` | src/PathGen.cc:49-68 | The loop over the predecessors computes the disjunction, and its caller holds the only reference to it. |
| `PathGens.PathGen.VisitPredecessor` | src/PathGen.cc:53-67 | One predecessor is skipped or joined; all intermediate references are released. |
| `PathGens.PathGen.FindCommonDominator` | src/PathGen.cc:23-29 | The loop computes the nearest common dominator of all predecessors. |
| `PathGens.PathGen.HasBackedgeInto` | src/PathGen.cc:44-47 | True if and only if a back edge enters the block. |
| `PathGens.PathGen.GetTermGuard` | src/PathGen.cc:102-113 | Builds the terminator guard; one new reference. |
| `PathGens.PathGen.GetBranchGuard` | src/PathGen.cc:115-130 | The conditional branch, with the count right whether or not the condition is negated. |
| `PathGens.PathGen.GetCasesGuard` | src/PathGen.cc:132-165 | The loop over the switch cases builds the disjunction and releases every intermediate expression. |
| `PathGens.PathGen.GetPHIGuard` | src/PathGen.cc:78-100 | The loop over the PHIs builds the conjunction and releases every intermediate expression. |
| `PathGens.PathGen.Delete` | src/PathGen.cc:18-21 | Destruction releases exactly the references of the cache: what is left are the other owners' references. |
| `ValueEncoding.EncMeaning` | src/ValueGen.cc:304-315 | At every block that a value's definition dominates, the formula of the value, under the current values of arguments, loads, calls and PHIs, evaluates to the value, if the arithmetic shifts available there have their sign. |
| `ValueEncoding.LeavesDecide` | src/ValueGen.cc:304-315 | So any assignment that gives the leaves the values of a run gives the formula of a value the value of the run, whatever it says of computed values. |
| `ValueEncoding.OperationMeaning` | src/ValueGen.cc:72-115 | The same for binary operators, comparisons and selects, from the operands. |
| `ValueEncoding.ShiftEncodingExact` | src/ValueGen.cc:72-90 | Given its operands, the formula of a shift has the value of the shift if and only if it is not an arithmetic one that loses its sign. |
| `ValueEncoding.CastMeaning` | src/ValueGen.cc:55-70 | The same for truncation and extensions. |
| `ValueEncoding.ExtractMeaning` | src/ValueGen.cc:117-159 | The two parts of an overflow intrinsic are its wrapped result and its overflow bit. |
| `ValueEncoding.GepSplit` | src/ValueGen.cc:165-227 | After every index, the symbolic part plus the constant part is, modulo 2^PtrSize, the plain sum of base, field offsets and scaled indices. |
| `ValueEncoding.GepMeaning` | src/ValueGen.cc:165-227 | The formula of an address has the value of the address. |
| `ValueEncoding.ConstIndexMeaning` | src/ValueGen.cc:177-194 | A constant index, skipped when zero, adds its field offset or its sign-extended or truncated multiple to the constant part. |
| `ValueEncoding.ScaledIndexMeaning` | src/ValueGen.cc:195-210 | A variable index, resized to the pointer width, adds its signed value times the element size. |
| `ValueEncoding.EncShaped` | src/ValueGen.cc:21-283 | Formulas are well typed, and their variables are leaves (arguments, PHIs, loads, calls, and what is not computed from anything analysable) available at the home of the encoded value. |
| `ValueGens.ValueGen.Get` | src/ValueGen.cc:304-315 | The memoising encoder returns the formula whatever was cached before, leaves exactly one reference for every cache entry, and has then asserted the range conditions of exactly the value and what it is computed from. |
| `ValueGens.ValueGen.Analyze` | src/ValueGen.cc:25-53 | Every kind of value is encoded as its formula, with one new reference and the range assertions of exactly that value. |
| `ValueGens.ValueGen.VisitTrunc` | src/ValueGen.cc:55-58 | The low bits of the operand; one new reference. |
| `ValueGens.ValueGen.VisitZExt` | src/ValueGen.cc:60-64 | Zero extension; one new reference. |
| `ValueGens.ValueGen.VisitSExt` | src/ValueGen.cc:66-70 | Sign extension; one new reference. |
| `ValueGens.ValueGen.VisitBitCast` | src/ValueGen.cc:229-237 | The operand itself with one more reference, or a fresh variable if the operand is not analysable. |
| `ValueGens.ValueGen.VisitPtrToInt` | src/ValueGen.cc:239-250 | Extension, low bits, or the operand itself with one more reference. |
| `ValueGens.ValueGen.VisitBinaryOperator` | src/ValueGen.cc:72-90 | Binary operators, with their references. |
| `ValueGens.ValueGen.VisitICmp` | src/ValueGen.cc:92-107 | The comparison of the formulas of both operands; one new reference. |
| `ValueGens.ValueGen.VisitSelect` | src/ValueGen.cc:109-115 | Selects, with their references. |
| `ValueGens.ValueGen.VisitOverflow` | src/ValueGen.cc:117-159 | Parts of overflow intrinsics, with their references. |
| `ValueGens.ValueGen.VisitInstruction` | src/ValueGen.cc:37-43 | Anything else is a fresh variable under its annotated ranges. |
| `ValueGens.ValueGen.VisitGep` | src/ValueGen.cc:165-227 | Address computations, with their references. |
| `ValueGens.ValueGen.AccumulateIndices` | src/ValueGen.cc:168-216 | The loop over the indices computes both parts and holds a reference to the symbolic one only. |
| `ValueGens.ValueGen.Delete` | src/ValueGen.cc:289-292 | Destruction releases exactly the references of the cache. |
| `ValueGens.RangesHold` | src/ValueGen.cc:37-43 | Everything asserted while encoding a value is true of every execution that stays inside the annotated ranges. |
| `ValueGens.RangesExact` | src/ValueGen.cc:37-43 | The conditions asserted with a value hold exactly if every variable of its formula lies in the ranges annotated for it. |
| `ValueGens.VarsOfParts` | src/ValueGen.cc:21-283 | The formula of a computed value has exactly the variables of its operands' formulas. |
| `PathGens.GuardRangesHold` | src/PathGen.cc:31-71 | So is everything asserted while encoding a path predicate. |
| `PathGens.GuardRangesCover` | src/PathGen.cc:31-71 | And what is asserted with a path predicate puts every variable of it into its annotated ranges. |
| `Checkers.CheckBranch` | src/CmpSat.cc:60-87 | The verdict is the one of two queries under exactly the range assertions of the two encodings. A branch reported always false (true) has a false (true) condition in every execution that arrives there and whose steps the guards account for. The solver is destroyed without a reference left. |
| `Checkers.VerdictSound` | src/CmpSat.cc:60-87 | The semantic half of that: an unsatisfiable query refutes the condition for all these executions. |
| `Checkers.VerdictInEnv` | src/CmpSat.cc:60-87 | The same for any assignment inside the annotated ranges that satisfies the path predicate. |
| `Checkers.CompleteVerdict` | src/CmpSat.cc:60-87 | With a sound and complete solver, a branch whose condition has one value under everything that satisfies its path predicate and the annotated ranges is reported, and as that value if the block can be reached at all. |
| `Checkers.FormulasAtEnd` | src/CmpSat.cc:60-87 | At the end of such an execution, the formula of an available value has its value, and the path predicate is true. |
| `Checkers.WellShapedArrives` | src/CmpSat.cc:60-87 | In a function with neither degenerate terminators nor odd-width arithmetic shifts these are all executions. |
| `Checkers.Decide` | src/CmpSat.cc:68-82 | The two queries in order, each released after use. |
| `Checkers.QueryAndRelease` | src/CmpSat.cc:68-70 | The answer is the solver's for exactly this query, and the count is unchanged. |
| `Checkers.UnsatMeansFalse` | src/CmpSat.cc:68-82 | UNSAT under the range assertions means false under the values of any execution. |
| `Checkers.QueryBug` | src/IntSat.cc:110-148 | The answer is the solver's to exactly this question. UNSAT means that no open forward path and no forward execution makes the bug condition true, including executions that divide by zero in that block; all references are returned. |
| `Checkers.UnsatIsHarmless` | src/IntSat.cc:110-119 | The part about executions: none that arrives at the check has a true bug condition. |
| `Checkers.CompleteAnswer` | src/IntSat.cc:110-119 | And a complete solver refutes a condition that nothing within the ranges and the path predicate makes true. |
| `Checkers.ReportStep` | src/IntSat.cc:85-108 | One more call reports its condition if the solver says SAT and no earlier call has reported it, and otherwise nothing. |
| `Checkers.IntSat.Check` | src/IntSat.cc:85-108 | One call of int.sat: constant conditions, reported conditions, and calls without location or bug name are skipped; otherwise a report is made if and only if the answer is SAT. |
| `Checkers.IntSat.RunOnFunction` | src/IntSat.cc:74-83 | A call with a location, a bug name and a condition that is not constant is reported if its condition is satisfiable and no earlier such call has the same condition; nothing else is reported; and a call whose condition the solver refutes is harmless on forward executions. |
| `Examples.EqualSuccessorsExample` | src/PathGen.cc:115-130 | A function that branches with two equal successors, and an execution into the block with a false guard, where a sound and complete solver makes CmpSat say that the false condition is always true. |
| `Examples.TreeValid` | src/PathGen.cc:23-29 | The nearest common dominators of that function. |
| `Examples.NestedExample` | src/CmpSat.cc:60-87 | `if (x < 5) { if (x > 10) ... }`: with a sound and complete solver the inner condition is reported as always false. |
| `Examples.DivisionExample` | src/IntRewrite.cc:250-267 | A function that divides by its argument has an execution that arrives at the check with a zero divisor, so the check is not harmless and no sound solver refutes it. |
| `Solver.ShiftMeaning` | src/SMTBoolector.cc:229-261 | The widened shift by the low log2 bits is the shift modulo the next power of two, and for arithmetic shifts at other widths a logical one. |
| `Solver.ShiftInRange` | src/SMTBoolector.cc:229-261 | For amounts below the width it is the shift if and only if it is not the case of a negative number shifted right arithmetically, by a positive amount, at a width that is not a power of two. |
| `Solver.OddWidthExample` | src/SMTBoolector.cc:229-261 | In 3 bits, -4 shifted right by 1: the encoding gives 2, the shift -2. |
| `Solver.AshrIsLshr` | src/SMTBoolector.cc:259-261 | Arithmetic and logical right shift agree exactly on non-negative numbers and for amount 0. |
| `Solver.GuardedShiftIsMathematical` | src/IdealShift.cc:43-65 | Behind the select of IdealShift the encoded shift is the mathematical one for every amount, with the same exact exception. |
| `Solver.SMTSolver.Shift` | src/SMTBoolector.cc:229-249 | Builds that term and hands out one reference; every intermediate expression is released. |
| `RangeMetadata.RangeTermMeaning` | src/ValueGen.cc:317-356 | The condition assumed for a pair of bounds holds exactly in the wrapped interval, in the cases of a zero lower bound, a zero upper bound, ordered and wrapped bounds. |
| `RangeMetadata.MetadataRoundTrip` | src/Range.cc:522-530 | The constraints assumed from what was written for a range hold exactly for its members; empty and full ranges write nothing. |
| `RangeMetadata.AddRangeConstraints` | src/ValueGen.cc:317-356 | The loop assumes one condition for every non-degenerate pair, and returns all references. |
| `CRanges.DifferentSets` | src/CRange.h:37-42 | Ranges with different bounds are different sets, so comparing bounds detects growth. |
| `RangePasses.SafeUnionGrows` | src/CRange.h:28-42 | match and safeUnion keep the width and lose nothing of the old range, also for operands of different widths. |
| `RangePasses.SafeUnionCovers` | src/CRange.h:28-42 | And every value of the added range, zero-extended or truncated to the width of the old one, gets in. |
| `RangePasses.ApplyGrows` | src/Range.cc:27-54 | unionRange loses nothing of the map, whatever range is added. |
| `RangePasses.ApplyAbsorbs` | src/Range.cc:27-54 | The added range, if not empty, is in the map afterwards, and nothing else has changed. |
| `RangePasses.FullStays` | src/Range.cc:488-493 | An identifier widened to the full range never changes again. |
| `RangePasses.DifferencesAdd` | src/Range.cc:47-53 | Identifiers changed over two growing steps are those changed in either: no change is undone. |
| `RangePasses.RangePass.Union` | src/Range.cc:27-54 | The result and the change set record exactly the identifiers whose range became different; the added range is in the map, united with what was there; no other identifier changes. |
| `RangePasses.RangePass.UpdateRangeFor` | src/Range.cc:467-479 | A sweep over a function reports a change exactly when some range differs afterwards. |
| `RangePasses.StepsAbsorbed` | src/Range.cc:467-479 | If a sweep over a function changes nothing, every range that one of its steps adds is already in the map. |
| `RangePasses.ModuleAbsorbed` | src/Range.cc:495-500 | The same for a module. |
| `RangePasses.RangePass.Sweep` | src/Range.cc:495-500 | The same for a module; the change set is the set of differences, all of them keys of the map. |
| `RangePasses.RangePass.Widen` | src/Range.cc:488-493 | Exactly the changed identifiers become full; the lookup never misses; the whole new map. |
| `RangePasses.RangePass.Round` | src/Range.cc:486-501 | One iteration widens only past the limit and then sweeps, and keeps the progress measure: past the limit every changed identifier is a new full one. |
| `RangePasses.RangePass.DoModulePass` | src/Range.cc:481-503 | Ends after at most MaxIterations sweeps plus one for every identifier; one more sweep changes nothing; the result says whether anything changed; a module that settles within the limit is only swept, never widened. |
| `RangePasses.RangePass.RunOnce` | src/IntGlobal.cc:65-75 | The counter is zero if and only if no range changed, and then every module is closed. |
| `RangePasses.RangePass.Run` | src/IntGlobal.cc:51-77 | Over all rounds every range only grows; the iteration ends; at the end one more sweep of any module changes no range, and every range that any step of any function adds is in the range of its identifier. |
| `CallGraph.FoundSplit` | src/CallGraph.cc:71-139 | What findFunctions finds from a value is what it is itself, and what is found from its operands once it is visited. |
| `CallGraph.ResolveMeaning` | src/CallGraph.cc:71-139 | What each kind of value resolves to: a declared function to its definition if there is one, an argument or load to what its identifier holds, a direct call to what its callee returns, casts, PHIs and selects to what their operands do. |
| `CallGraph.CallGraphPass.FindFunctions` | src/CallGraph.cc:71-139 | Terminates on cyclic PHI and select graphs, adds exactly the functions reachable through PHI, select and cast operands outside of the visited set, and returns whether the set grew; what a value is by itself is `ResolveMeaning`. |
| `CallGraph.CallGraphPass.FindInOperands` | src/CallGraph.cc:99-113 | The loop over incoming values, each with its own copy of the visited set. |
| `CallGraph.CallGraphPass.Merge` | src/CallGraph.cc:51-63 | Union into an entry; changed exactly if something was new. |
| `CallGraph.ResolveMonotone` | src/CallGraph.cc:66-139 | What a value resolves to grows with the map. |
| `CallGraph.RulesFound` | src/CallGraph.cc:141-194 | A solution has, in every identifier, the initial facts, and whatever a stored, returned or passed value resolves to. |
| `CallGraph.FlowMapIsSolution` | src/CallGraph.cc:141-194 | What is derivable by the rules (initial facts; stores, returns and arguments; loads, arguments, calls, casts, PHIs and selects) is a solution. |
| `CallGraph.LeastIsFlow` | src/CallGraph.cc:141-194 | So the least solution holds exactly what is derivable, for identifiers and for values. |
| `CallGraph.CallGraphPass.Propagate` | src/CallGraph.cc:146-160 | Functions found for a value go to the entry of an identifier, which is itself the set that grows; the map stays below every solution; unchanged means the rule holds. |
| `CallGraph.CallGraphPass.RunOnCall` | src/CallGraph.cc:161-191 | Arguments go to the parameters of all callees. |
| `CallGraph.CallGraphPass.RunOnInst` | src/CallGraph.cc:145-191 | Every rule of an instruction: the map grows, stays below every solution, and satisfies the instruction if unchanged. |
| `CallGraph.CallGraphPass.RunOnFunction` | src/CallGraph.cc:141-194 | The same for a function body. |
| `CallGraph.CallGraphPass.DoModulePass` | src/CallGraph.cc:228-237 | Ends with all rules of the module satisfied; the result says whether the map changed. |
| `CallGraph.CallGraphPass.RunOnce` | src/IntGlobal.cc:65-75 | One round over the modules; unchanged means that all rules of all modules hold. |
| `CallGraph.CallGraphPass.Run` | src/IntGlobal.cc:51-85 | The iteration ends in the least map that contains the initial facts and satisfies every store, return and argument rule: exactly what flows to each identifier by these rules. Each call site's callees are exactly the functions that flow to the value called. |
| `CallGraph.CallGraphPass.FinalizeInst` | src/CallGraph.cc:213-226 | The callees of a call site are merged into its entry. |
| `CallGraph.OrderIndependent` | src/IntGlobal.cc:61-77 | The result does not depend on the order of modules, functions or instructions. |
| `Taints.DerivedStep` | src/Taint.cc:37-59 | A description carried along a propagation step stays connected to its source. |
| `Taints.TaintDerived` | src/Taint.cc:37-59 | What getTaint answers, from the value, the value under its casts, the callees' results or the identifier, is connected by a chain of steps to sources with these descriptions; so is what it stores. |
| `Taints.TaintMeaning` | src/Taint.cc:37-59 | What getTaint answers: what is stored for the value, or else for the value under its casts, or else every description of its identifier and of its callees' results. |
| `Taints.LookedMeaning` | src/Taint.cc:37-59 | What a value was told from identifiers is stored for it, and asking changes nothing else. |
| `Taints.GatherKeeps` | src/Taint.cc:120-126 | The union over the operands, each asked in the state the previous one left. |
| `Taints.MarkKeeps` | src/Taint.cc:66-84 | An annotation marks its value's identifier and those of all fields as sources, and nothing else. |
| `Taints.PassCalleesKeeps` | src/Taint.cc:99-116 | A call passes taint to the parameters of every callee that is neither variadic nor built in, and only to those. |
| `Taints.PropagateKeeps` | src/Taint.cc:97-135 | An instruction taints everything its already tainted operands or arguments flow into. |
| `Taints.RunInstKeeps` | src/Taint.cc:91-136 | One instruction keeps the invariant: no description set is empty, every description is connected to a source carrying it, only marked identifiers are sources. |
| `Taints.RoundReaches` | src/Taint.cc:157-167 | One round over all modules marks all annotated identifiers and reaches every direct target of what was tainted before it. |
| `Taints.AddIdHolds` | src/IntGlobal.h:60-68 | Added descriptions join those the identifier had; nothing is lost. |
| `Taints.MarkHolds` | src/Taint.cc:66-84 | An annotated value and all identifiers it marks have its description and what the value had before. |
| `Taints.RunInstDelivers` | src/Taint.cc:91-136 | All descriptions that the operands or arguments of an instruction answer are in its value and the identifier stored to, or in the parameters. |
| `Taints.RoundDelivers` | src/Taint.cc:157-167 | And they are still there at the end of the round. |
| `Taints.RoundCarries` | src/Taint.cc:157-167 | The descriptions stored for a value before a round are, after it, at everything an instruction lets flow from it. |
| `Taints.ResultInTime` | src/Taint.cc:91-136 | In an ordered program, in a round that taints no new identifier, a result that is tainted at the end was tainted when its instruction had been visited. |
| `Taints.ReadInTime` | src/Taint.cc:120-126 | So was what an instruction reads, when the instruction was visited. |
| `Taints.AfterVisit` | src/Taint.cc:91-136 | After the visit of its instruction, a round changes what is stored for a result only by looking it up. |
| `Taints.ClosedAfterRound` | src/Taint.cc:157-167 | After such a round, everything that an instruction lets flow from something tainted is tainted. |
| `Taints.NothingWithoutSources` | src/Taint.cc:66-84 | Without annotations nothing is ever tainted, in whatever order. |
| `Taints.TaintMap.AddIdentifier` | src/IntGlobal.h:60-68 | Adds descriptions and the source flag to one identifier and keeps what it had; new exactly when the identifier had no description; the empty identifier is ignored. |
| `Taints.TaintMap.AddValue` | src/IntGlobal.h:39-44 | Adds descriptions to a value and keeps what it had. |
| `Taints.TaintMap.GetIdentifier` | src/IntGlobal.h:52-59 | The descriptions of an identifier, none for the empty one. |
| `Taints.TaintMap.IsSource` | src/IntGlobal.h:69-76 | The source flag of an identifier. |
| `Taints.AddIdIsNew` | src/IntGlobal.h:60-68 | While no stored set is empty, the flag says exactly whether the set of tainted identifiers grew. |
| `Taints.TaintPass.GetTaint` | src/Taint.cc:37-59 | The answer in the source's order of precedence, and exactly the state the query leaves. |
| `Taints.TaintPass.CheckTaintSource` | src/Taint.cc:66-84 | Marks the sources in place; changed exactly when an identifier is new. |
| `Taints.TaintPass.PassToCallee` | src/Taint.cc:112-115 | The loop over the arguments. |
| `Taints.TaintPass.RunOnOperands` | src/Taint.cc:120-135 | Operands to value, stored identifier or function result. |
| `Taints.TaintPass.RunOnInst` | src/Taint.cc:91-136 | The whole new state of both maps, and an exact change flag. |
| `Taints.TaintPass.RunOnFunction` | src/Taint.cc:87-138 | The same for a function. |
| `Taints.TaintPass.DoModulePass` | src/Taint.cc:157-167 | Ends; every changed sweep has tainted a new identifier; an unchanged result means exactly one sweep was made. |
| `Taints.TaintPass.Run` | src/IntGlobal.cc:51-77 | The run ends after at most as many changed sweeps as there are identifiers; the invariant holds; the sources are exactly the marked identifiers, and each has the description of every annotation that marks it; everything that flows from what was tainted before the closing round is tainted; all descriptions answered at a visit in that round are where it puts them, and so are all descriptions stored before it; and in an ordered program everything that flows from anything tainted is tainted. |
| `Taints.NotClosed` | src/Taint.cc:157-167 | A function, its results used before they are computed, on which the pass stops with a tainted operand and an untainted user. |
| `OverflowIdioms.ProductOverflow` | src/OverflowIdiom.cc:99-108 | `x != (x * y) / y` in n bits if and only if the product overflows, for y != 0. |
| `OverflowIdioms.NarrowOverflow` | src/OverflowIdiom.cc:117-130 | The narrow test for `C = 2^k - 1` is `x * y > C` except exactly at `x == 0` and `y > C`. |
| `OverflowIdioms.WideOverflow` | src/OverflowIdiom.cc:131-138 | The product at twice the width is exact. |
| `OverflowIdioms.MatchCmpMeaning` | src/OverflowIdiom.cc:95-143 | A direct match has the value of the comparison if and only if it is not the deviating shape. |
| `OverflowIdioms.MatchesExactly` | src/OverflowIdiom.cc:43-143 | Exactly these comparisons are matched: `x == x * y / y` and `!=` in either order, `x > c / y` and `<=`, `c / y < x` and `>=`. |
| `OverflowIdioms.InvalidTypeExactly` | src/OverflowIdiom.cc:117-119 | The zero-bit type is asked for exactly for `x > 0 / y`. |
| `OverflowIdioms.WithInverseMeaning` | src/OverflowIdiom.cc:53-61 | The same through the inverse predicate and the xor. |
| `OverflowIdioms.ReplacementMeaning` | src/OverflowIdiom.cc:43-61 | The same through swapped operands: the value all uses are replaced with is the comparison's, exactly outside of the deviation. |
| `OverflowIdioms.PassKeepsExecutions` | src/OverflowIdiom.cc:70-93 | Of the executions that divide by nothing zero in a match, the rewritten function has exactly those of the original one in which no match deviates. |
| `OverflowIdioms.DeviationExample` | src/OverflowIdiom.cc:117-130 | 8 bits, `x > 15 / y` at 0 and 16: the comparison is false and the replacement true, and the rewritten function does not have this execution of the original one. |
| `OverflowIdioms.RunOnFunction` | src/OverflowIdiom.cc:70-93 | Exactly the matching comparisons are replaced, in place; changed exactly if there was one. |
| `Rewriting.SameExecutions` | src/OverflowIdiom.cc:70-93 | A pass that replaces values keeps all executions along which its replacements agree, given what they rely on, if that is available wherever the replaced value is. |
| `OverflowSimplify.CanonicalOrder` | src/OverflowSimplify.cc:79-110 | canonicalize is idempotent, and calls that differ in the order of differently named operands become the same call. |
| `OverflowSimplify.SAddMeaning` | src/OverflowSimplify.cc:123-143 | The signed threshold test for both signs of the constant is the overflow bit. |
| `OverflowSimplify.SSubMeaning` | src/OverflowSimplify.cc:159-190 | The overflow bit for a constant on the right; for one on the left exactly outside of the deviation. |
| `OverflowSimplify.SMulMeaning` | src/OverflowSimplify.cc:205-237 | The two truncated quotients bound the factor for both signs of the constant; wrong exactly for -1 and any factor but the smallest number. |
| `OverflowSimplify.UMulMeaning` | src/OverflowSimplify.cc:239-257 | The quotient test is the overflow bit, also for factor 0. |
| `OverflowSimplify.SimplifyMeaning` | src/OverflowSimplify.cc:112-257 | What replaces a call has the wrapped result always, and its overflow bit if and only if the call is not one of the two deviating shapes. |
| `OverflowSimplify.ReplacedExactly` | src/OverflowSimplify.cc:79-257 | Exactly the unsigned subtractions and the calls with a constant operand are replaced; the others stay the same call, the commutative ones with their operands ordered by name. |
| `OverflowSimplify.AfterMeaning` | src/OverflowSimplify.cc:112-257 | The call as the program has it, with its values, becomes an instruction that gives the intrinsic's value exactly where the call does not deviate. |
| `OverflowSimplify.PassKeepsExecutions` | src/OverflowSimplify.cc:44-77 | The rewritten function has exactly the executions of the original one in which no replaced call deviates. |
| `OverflowSimplify.DeviationExamples` | src/OverflowSimplify.cc:174-228 | Both deviations occur at 8 bits. |
| `OverflowSimplify.SimplifyAt` | src/OverflowSimplify.cc:112-121 | One intrinsic is replaced or reordered in place. |
| `OverflowSimplify.RunOnFunction` | src/OverflowSimplify.cc:44-77 | Every intrinsic is simplified and nothing else touched; changed exactly if an instruction differs. |
| `CmpOverflows.ExactThreshold` | src/CmpOverflow.cc:121-122 | `a + x * b` does not wrap around if and only if `x <= (UMAX - a) / b`. |
| `CmpOverflows.ForgottenOffset` | src/CmpOverflow.cc:123-125 | A constant reported as `UMAX / b` lies above the threshold and already wraps around. |
| `CmpOverflows.MisplacedOffset` | src/CmpOverflow.cc:126-128 | One reported as `UMAX / b - a` lies below it exactly if the subtraction does not wrap, and above it exactly if it does. |
| `CmpOverflows.WrappedOffsetExample` | src/CmpOverflow.cc:126-128 | 8 bits, `200 + x * 3`: 141 is reported as too small, and 200 + 141 * 3 has wrapped around. |
| `CmpOverflows.CollectedFrom` | src/CmpOverflow.cc:64-91 | Every recorded x was an argument `a + x * b` with the recorded numbers. |
| `CmpOverflows.CollectedLast` | src/CmpOverflow.cc:64-91 | And the last argument of the form `a + x * b` is the one recorded for x. |
| `CmpOverflows.FlattenSplit` | src/CmpOverflow.cc:33-47 | The arguments of every call are looked at, after those of the calls before it. |
| `CmpOverflows.ReportMeaning` | src/CmpOverflow.cc:93-130 | A report concerns a value passed to a call, and the constant is on the wrong side of that value's threshold as described, at the value's own width. |
| `CmpOverflows.ReportsExactly` | src/CmpOverflow.cc:93-130 | A constant compared with such an x, on either side, is reported if and only if it is `UMAX / b` or `UMAX / b - a` and not the threshold, and as which of the two. |
| `CmpOverflows.NotReported` | src/CmpOverflow.cc:93-130 | Comparisons of anything else are not reported. |
| `CmpOverflows.CmpOverflow.Collect` | src/CmpOverflow.cc:64-91 | The loop over the arguments; later ones replace earlier ones for the same x. |
| `CmpOverflows.CmpOverflow.RunOnFunction` | src/CmpOverflow.cc:33-47 | All calls are collected before any comparison is classified, each at its own width, and the map is empty afterwards. |
| `IdealShifts.RenamedComputes` | src/IdealShift.cc:64-64 | An instruction whose uses of the shift are replaced computes what it did with the select's value in place of the shift's. |
| `IdealShifts.OversizedIsIdeal` | src/IdealShift.cc:52-58 | The value chosen for oversized amounts is that of the mathematical shift. |
| `IdealShifts.GuardedComputes` | src/IdealShift.cc:49-65 | Whatever LLVM gives an oversized shift, the select has the ideal value. |
| `IdealShifts.StepSound` | src/IdealShift.cc:43-65 | Whenever the function with one shift wrapped enters a block, so does the function in which that shift is ideal, with the values its readers see. |
| `IdealShifts.StepComplete` | src/IdealShift.cc:43-65 | And the other way, whatever the wrapped function's registers held before. |
| `IdealShifts.ShowRun` | src/IdealShift.cc:43-65 | So each whole execution with the shift ideal, around any loops, is shown by one of the wrapped function through the same blocks. |
| `IdealShifts.IdealShift.ReplaceAllUsesWith` | src/IdealShift.cc:64-64 | All operands of all instructions are renamed. |
| `IdealShifts.IdealShift.WrapShift` | src/IdealShift.cc:47-66 | Compare, sign and select are inserted after the shift, and only the select still reads the shift. |
| `IdealShifts.IdealShift.RunOnFunction` | src/IdealShift.cc:28-69 | The rewritten function has exactly the executions of the original one, through the same blocks, with every shift by a variable amount ideal, and with exactly those wrapped; changed exactly if one was. |
| `IntRewrites.OrderIrrelevant` | src/IntRewrite.cc:212-240 | Where checks go depends on who uses what, not on the order of the use lists. |
| `IntRewrites.ObserversExactly` | src/IntRewrite.cc:212-240 | An observer of a result is what is at the end of a chain of uses with nothing observable in between. |
| `IntRewrites.PointsExactly` | src/IntRewrite.cc:212-246 | The check is at the operation if and only if some observer is in its block or in one it does not dominate, and otherwise in exactly the blocks of the observers. |
| `IntRewrites.AllSeen` | src/IntRewrite.cc:213-240 | When the worklist is empty, no observable user forces an early check and exactly the blocks of all observable users have been found. |
| `IntRewrites.DeferredAvailable` | src/IntRewrite.cc:225-231 | A deferred check is in the block of an observer, which the definition strictly dominates. |
| `IntRewrites.EveryObserverIsChecked` | src/IntRewrite.cc:203-247 | Every path into the block of an observer is covered by a check at the operation, or passes the operation and is checked at the end of that block. |
| `IntRewrites.IntRewrite.LookAtUsers` | src/IntRewrite.cc:215-239 | The loop over the users of one value. |
| `IntRewrites.IntRewrite.Search` | src/IntRewrite.cc:203-240 | The worklist terminates, and bails out if and only if some observable user reachable through non-observable used users is in the same block or in a block that is not dominated. |
| `IntRewrites.IntRewrite.InsertDeferred` | src/IntRewrite.cc:242-246 | One check for each block found, in whatever order the set is walked. |
| `IntRewrites.IntRewrite.InsertOverflowCheck` | src/IntRewrite.cc:177-248 | Skipped for pointer differences; eager for flagged signed operations unless -fwrapv, which drops the flag; otherwise exactly at the demanded points. |
| `IntRewrites.QuotientFits` | src/IntRewrite.cc:254-264 | A truncated quotient is representable unless it is the smallest number by -1. |
| `IntRewrites.DivCheckExact` | src/IntRewrite.cc:250-267 | The inserted condition holds exactly when the division is undefined or its quotient not representable. |
| `IntRewrites.ShiftCheckExact` | src/IntRewrite.cc:269-276 | The condition holds exactly for oversized amounts; where it does not, the solver's shift is the shift. |
| `IntRewrites.LevelCheckExact` | src/IntRewrite.cc:282-296 | The comparison with the bound is exactly "outside of the array" when the bound fits the index type as a signed number, and otherwise exactly for the stated indices. |
| `IntRewrites.BoundMeaning` | src/IntRewrite.cc:290-294 | An array of two or more elements is bounded by their number, a shorter one by the largest signed 32-bit number. |
| `IntRewrites.CutOffBoundExamples` | src/IntRewrite.cc:282-296 | In 8 bits, a negative index passes the check of an array of unknown size, and a valid index of an array of 300 elements does not. |
| `IntRewrites.InsertArrayCheck` | src/IntRewrite.cc:278-305 | The loop over the levels builds a condition that holds if and only if the check of some array level does; nothing is inserted without one. |

## Left out

- LLVM and the solver library are contracts: operations on bit vectors, nearest common dominators, back edges (without them the graph is acyclic and every block reachable), `ConstantRange::unionWith` (contains both operands) and `zextOrTrunc` (gives the width asked for, and contains every value brought to it), `isSafeToSpeculativelyExecute` and loop exits (the observable users), scalar evolution.
- The solver may answer anything but a wrong UNSAT; `decide` stands for it. Timeouts and the fork around each query are not modelled.
- Division by zero and shifts by the width or more are undefined in LLVM. In an execution of the model a division by zero gives what the theory of bit vectors gives it, and a shift the amount modulo the next power of two, so that executions go on and the inserted checks speak about them.
- An undef value is one fixed value of its type, except that an undef PHI operand may be anything.
- PathSoundness.RunsSatisfyGuards: says nothing after a step along an edge of a degenerate shape that the guard does not distinguish, or from values for which an arithmetic shift loses its sign; there it is false (`EqualSuccessorsExample`, `OddWidthExample`). The same holds of what `Checkers` says about executions.
- ValueEncoding.EncMeaning: asks that no arithmetic shift available in the block loses its sign; for the shift itself `ShiftEncodingExact` has both directions.
- RangePasses.RangePass.Run: does not say that the ranges contain the values of a program: several transfer functions are marked imprecise in the source (src/Range.cc:202-209, src/Range.cc:377-383). A sweep is any deterministic function of the global and local ranges that writes global ranges through `unionRange`.
- Taints.TaintPass.Run: claims a fixpoint of taint only for ordered programs; others may stop short (`NotClosed`).
- Taints.RoundDelivers: the descriptions are those answered when the instruction is visited; asking a value under its casts can later replace the descriptions pulled from its identifier, so that a later visit may answer fewer.
- CmpOverflows.ReportMeaning: `checkXY` always returns NULL and is not modelled; A and B are those of the recorded argument, at the width of x.
- IntRewrites.IntRewrite.InsertOverflowCheck: the intrinsic call and the extracted bit are created before the search and are represented by the operation and its signedness.
- IdealShifts.IdealShift.RunOnFunction: which block is entered next is left open, so executions are those through any sequence of blocks; vector shifts, which the pass skips, are ordinary instructions.
- CallGraph.CallGraphPass.Run: the facts collected from initializers (src/CallGraph.cc:18-49) are the map the run starts from.
- Checkers.IntSat.RunOnFunction: the text of a report, its taint classification and the printed model are not modelled.
- OverflowIdioms.RunOnFunction: removal of the replaced instructions and of redundant zero checks. `OverflowIdioms.PassKeepsExecutions` speaks about executions in which the divisor of a match is not zero; LLVM leaves the others undefined.
- Structure layouts are lists of field offsets; vectors, aggregates and floating point values are not analysable, as in the source.
- `LoadRewrite.cc` (ignores aliasing on purpose), `CmpTautology.cc`, the Z3 and Sonolar back ends, `Annotation.cc`, `IntLibcalls.cc`, `Diagnostic.cc`, command lines, bitcode reading and writing.
