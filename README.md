# LocalOpts peephole rewriter, modelled in Dafny

This project models `LocalOpts`, an LLVM module pass that runs a peephole
rewriter over each basic block. The rewriter scans the block's instructions
once, front to back, and applies three rules:

- **Algebraic identity.** An `add` or `sub` with the constant 0 as an
  operand is replaced by its other operand.
- **Multi-instruction fold.** `b = a + k; c = b - k` (or `- k` then `+ k`)
  makes `c` a synonym of `a`.
- **Strength reduction.** `x * 2` becomes `x << 1`.

Each rewrite redirects every use of the instruction
(`replaceAllUsesWith`), puts the instruction on a deletion list and
increments one of three counters. When the scan ends, every listed
instruction that passes `isSafeToRemove` is erased. `runOnFunction` and
`runOnModule` run the rewriter over every block and every function and OR
together the results.

The model has two layers:

- `IR.dfy` and `Rules.dfy` state the rewriter as functions over an IR of
  values. A function body is a sequence of blocks plus the next identity
  its allocator will hand out. An instruction is either a binary operation
  with two operands or some other instruction with a list of operands.
  `replaceAllUsesWith` is substitution across the whole function.
  `IRBuilder::CreateShl` inserts a fresh `shl` before a position, or folds
  a constant operand.
- `LocalOpts.dfy` is the pass itself: a class with the three counter
  fields, and methods that loop the way the C++ loops. Each method is
  proved equal to its specification function. The scan loop carries the
  invariant that the rest of the scan (`Rules.ScanFrom`) from the current
  state gives the final state. The deletion loop carries the invariant that
  the block so far is the deletion function applied to the list so far.

`RuleLemmas.dfy`, `Deletion.dfy`, `ScanLemmas.dfy` and `Semantics.dfy`
prove what the rewriter does:

- what each rule redirects, enqueues and counts;
- that the deletions erase exactly the listed instructions that pass
  `isSafeToRemove`, keeping the rest in order;
- that nothing listed still has a user when the deletions run, for SSA
  input;
- that each replacement value equals the replaced instruction's value in
  w-bit wrap-around arithmetic, or that it does not, for `sub(0, x)`.

Behaviour of the code that a quick reading may miss, which the model
reproduces:

- **`sub(0, x)` is rewritten.** The code tests operand 0 of a `sub` for
  zero just as it does for an `add`, so `0 - x` is rewritten to `x`.
  `Semantics.SubZeroMinuendChangesValue` shows that this changes the
  value.
- **Both Add/Sub rules can fire on one instruction.** The fold is tried
  even after the identity rule has fired on the same instruction. Both
  counters then rise and the instruction is listed twice
  (`RuleLemmas.IdentityThenFold`).
- **`runOnBasicBlock` always returns true**, whether or not a rule fired.
- **The deletion loop erases a listed instruction whenever
  `isSafeToRemove` holds of it** (LocalOpts.cpp:110). That call looks at
  the instruction alone, not at its users. `ScanLemmas.RunBlockSound`
  proves that, on SSA input, no listed instruction has a user when the
  deletions start.

## Model

| member | source | states |
|---|---|---|
| `LocalOptsPass.LocalOpts.constructor` | optimizer/LocalOpts.cpp:36-38 | all three counters start at zero |
| `LocalOptsPass.LocalOpts.RunOnBasicBlock` | optimizer/LocalOpts.cpp:40-114 | the new function and counters are exactly those of the scan-then-delete specification `Rules.RunBlock`, and the result is always true |
| `LocalOptsPass.LocalOpts.AlgebraicIdentity` | optimizer/LocalOpts.cpp:53-67 | the operand loop, with its early break, computes exactly the identity rule: operand 0 then operand 1 is compared with the constant 0, uses are redirected to the other operand, one enqueue, one algebraic count |
| `LocalOptsPass.LocalOpts.MultiInstFold` | optimizer/LocalOpts.cpp:68-82 | the fold test and rewrite compute exactly `Rules.FoldRule` on the instruction as the identity rule left it |
| `LocalOptsPass.LocalOpts.StrengthReduction` | optimizer/LocalOpts.cpp:85-104 | the operand loop computes exactly `Rules.StrengthRule`, including where the iterator ends up after an inserted shl |
| `LocalOptsPass.LocalOpts.RunOnFunction` | optimizer/LocalOpts.cpp:115-122 | blocks are rewritten in order with the counters carried across; the result is true iff the function has a block |
| `LocalOptsPass.LocalOpts.RunOnModule` | optimizer/LocalOpts.cpp:25-33 | functions are rewritten in order with the counters carried across; the result is true iff some function has a block |
| `LocalOptsPass.LocalOpts.Counters` | optimizer/LocalOpts.cpp:123-129 | the three counter values that dumpInformation reports, in its order |
| `Rules.IdentityReplacement` | optimizer/LocalOpts.cpp:54-66 | the identity test matches iff some operand is the constant 0, and then picks the other operand of the first zero operand |
| `Rules.Complementary` | optimizer/LocalOpts.cpp:74 | the opcodes are Add and Sub in either order; that this is the test at line 74 is `Rules.OpcodeSumIsComplementary` |
| `Rules.OpcodeSumIsComplementary` | optimizer/LocalOpts.cpp:74 | at line 74, where inst is an Add or a Sub, the opcode-sum test holds iff J is a binary instruction with the other of the two opcodes, for any opcode numbering in which only Add has Add's number and only Sub has Sub's |
| `Rules.StrengthOperand` | optimizer/LocalOpts.cpp:87-95 | the strength test matches iff some operand is the constant 2, and then picks the other operand of the first such operand |
| `Rules.IdentityRule` | optimizer/LocalOpts.cpp:54-67 | the identity rule only rewrites operands: every instruction keeps its place, identity and opcode, and the iterator does not move |
| `Rules.FoldRule` | optimizer/LocalOpts.cpp:69-82 | the fold only rewrites operands: every instruction keeps its place, identity and opcode, and the iterator does not move |
| `Rules.FoldPartner` | optimizer/LocalOpts.cpp:69-74 | a partner found for the fold is an instruction of the function |
| `Rules.StrengthRule` | optimizer/LocalOpts.cpp:85-104 | strength reduction plus iter++ consumes exactly one instruction of the block, whether or not a shl was inserted |
| `Rules.Step` | optimizer/LocalOpts.cpp:43-107 | one turn of the scan consumes one original instruction, only appends to the deletion list, never lowers a counter, and raises the counter total by exactly the number of entries it enqueues |
| `Rules.ScanFrom` | optimizer/LocalOpts.cpp:43-107 | the scan ends with the iterator at the end of the block, and the counter total rises by exactly the number of entries enqueued |
| `Rules.Scan` | optimizer/LocalOpts.cpp:42-107 | the scan from an empty deletion list ends at the end of the block, never lowers a counter, and raises the counter total by the length of the deletion list |
| `Rules.EraseIfSafe` | optimizer/LocalOpts.cpp:110-112 | one turn of the deletion loop erases at most one instruction, never one of another identity, and nothing when the identity is not in the block |
| `Rules.Drain` | optimizer/LocalOpts.cpp:109-112 | the deletion loop keeps only instructions of the block, and keeps every instruction whose identity is not listed |
| `Rules.RunBlock` | optimizer/LocalOpts.cpp:40-114 | runOnBasicBlock keeps the number of blocks |
| `Rules.RunBlocks` | optimizer/LocalOpts.cpp:115-122 | runOnFunction keeps the number of blocks |
| `Rules.RunFunctions` | optimizer/LocalOpts.cpp:25-33 | runOnModule keeps the number of functions |
| `IR.Rauw` | optimizer/LocalOpts.cpp:62 | replaceAllUsesWith leaves every instruction in its place with its identity and opcode |
| `IR.SubstInstr` | optimizer/LocalOpts.cpp:62 | substitution in one instruction keeps its identity and opcode, leaves no use of x (unless v is x), and introduces no operand other than v |
| `IR.RauwBlock` | optimizer/LocalOpts.cpp:62 | replaceAllUsesWith on one block keeps every instruction in place with its identity and opcode |
| `IR.IndexFromSameShape` | optimizer/LocalOpts.cpp:62 | after operands are rewritten, an instruction is found at the same position in its block |
| `IR.LocateFromSameShape` | optimizer/LocalOpts.cpp:62 | after operands are rewritten, an instruction is found at the same place in the function |
| `IR.LocateRauw` | optimizer/LocalOpts.cpp:62-71 | after replaceAllUsesWith, the instruction behind an operand is found where it was before |
| `IR.RauwClears` | optimizer/LocalOpts.cpp:62 | after replaceAllUsesWith(v) on x, with v not x, no instruction anywhere in the function uses x |
| `IR.RauwKeepsUnused` | optimizer/LocalOpts.cpp:77 | an instruction without users keeps none across a later replaceAllUsesWith whose replacement is not it |
| `IR.RauwNoop` | optimizer/LocalOpts.cpp:77 | replaceAllUsesWith on an instruction that has no users changes nothing |
| `IR.RauwWellFormed` | optimizer/LocalOpts.cpp:98 | replaceAllUsesWith with an allocated value keeps every identity and operand allocated |
| `IR.RauwRanked` | optimizer/LocalOpts.cpp:98 | replaceAllUsesWith with a value ranked no higher than the replaced instruction keeps the function acyclic |
| `IR.SubstUses` | optimizer/LocalOpts.cpp:62 | after substitution an instruction uses y only if it used y before (and y is not the replaced x) or y is the replacement; a user of x uses the replacement |
| `IR.CreateShlBefore` | optimizer/LocalOpts.cpp:96-97 | the new shl of x by 1 has the next fresh identity and sits at the builder's position; the instructions before and after it and all other blocks are unchanged |
| `IR.CreateShl` | optimizer/LocalOpts.cpp:96-97 | the block grows by one instruction exactly when the shifted operand is not a constant (a constant is folded) |
| `IR.CreateShlAt` | optimizer/LocalOpts.cpp:96-97 | where each instruction of the function sits after the shl is inserted |
| `IR.CreateShlIds` | optimizer/LocalOpts.cpp:96-97 | the inserted shl adds exactly its fresh identity to the block |
| `IR.CreateShlRedirects` | optimizer/LocalOpts.cpp:96-98 | every former user of the Mul, followed to its new place, uses the shl after the redirect |
| `IR.SameShapeIds` | optimizer/LocalOpts.cpp:62 | rewriting operands keeps the block's set of identities |
| `IR.IndexFrom` | optimizer/LocalOpts.cpp:109-112 | finds the first position at or after k holding the given identity, and None iff there is none |
| `IR.LocateFrom` | optimizer/LocalOpts.cpp:71 | finds an instruction with the given identity from block bi on, and None iff there is none |
| `IR.Locate` | optimizer/LocalOpts.cpp:71 | the instruction behind an operand, found in the function, or None iff no instruction has that identity |
| `RuleLemmas.IdentityStep` | optimizer/LocalOpts.cpp:53-82 | an Add or Sub with a zero operand: every use goes to the other operand (operand 0's zero wins) and the instruction has no users left; the algebraic counter rises by one; the fold then fires iff op1 is the 0 and op0 is an instruction J of the other opcode whose op1 is 0, and the instruction is enqueued twice with the fold counter up by one if it does, once with the fold counter unchanged if not |
| `RuleLemmas.FoldStep` | optimizer/LocalOpts.cpp:68-82 | b = a ± k; c = b ∓ k: every use of c goes to a, c has no users left, b is untouched, c (not b) is enqueued, and the fold counter rises by one |
| `RuleLemmas.StrengthStep` | optimizer/LocalOpts.cpp:85-104 | x * 2 with x not a constant: the new function is exactly the shl inserted before the Mul followed by replaceAllUsesWith, so nothing else changes; the shl of x by 1 sits just before the Mul, every former user of the Mul uses the shl, the Mul has no users left and is enqueued, the strength counter rises by one, and the iterator passes both |
| `RuleLemmas.StrengthPlacesShl` | optimizer/LocalOpts.cpp:93-99 | the placement half of the above: the new function is insertion then redirect; shl, then Mul, the Mul unused, one enqueue, one count |
| `RuleLemmas.StrengthRedirects` | optimizer/LocalOpts.cpp:97-98 | the redirect half of the above: every former user of the Mul uses the shl |
| `RuleLemmas.StrengthFoldsConstant` | optimizer/LocalOpts.cpp:93-99 | c * 2 with c a constant: the builder inserts nothing, every use goes to the constant 2c, the Mul is enqueued and counted, and the iterator moves on by one |
| `RuleLemmas.QuietStep` | optimizer/LocalOpts.cpp:47-105 | a turn of the scan only advances the iterator iff no rule matches the instruction |
| `RuleLemmas.IdentityThenFold` | optimizer/LocalOpts.cpp:53-82 | for every c = b ± 0 whose operand b is a ∓ 0: the identity rule redirects c's uses to b and the fold then fires as well, so c is enqueued twice and both the algebraic and the fold counter rise by one |
| `RuleLemmas.IdentityThenFoldDoubleCounts` | optimizer/LocalOpts.cpp:53-82 | an instance of `IdentityThenFold`: on c = b + 0 with b = a - 0, c is enqueued twice, both counters rise, and c's users are left on b |
| `RuleLemmas.SubstInstrNoop` | optimizer/LocalOpts.cpp:62 | replaceAllUsesWith leaves an instruction that does not use x unchanged |
| `Deletion.Keep` | optimizer/LocalOpts.cpp:108-112 | the block after the deletions holds only instructions of the block before |
| `Deletion.KeepMembers` | optimizer/LocalOpts.cpp:108-112 | an instruction survives the deletions iff it was in the block and is not both enqueued and safe to remove |
| `Deletion.KeepAbsent` | optimizer/LocalOpts.cpp:108-112 | enqueueing an identity the block does not hold erases nothing |
| `Deletion.IndexFromCons` | optimizer/LocalOpts.cpp:109-112 | looking for x past a first instruction of another identity finds it one place further on |
| `Deletion.EraseIfSafeCons` | optimizer/LocalOpts.cpp:109-112 | erasing x leaves a first instruction of another identity in front |
| `Deletion.EraseIfSafeKeep` | optimizer/LocalOpts.cpp:109-112 | one more turn of the deletion loop is one more identity in the filter |
| `Deletion.DrainIsKeep` | optimizer/LocalOpts.cpp:108-112 | the deletion loop, in enqueue order, erases exactly the enqueued instructions that pass isSafeToRemove, once each however often they were enqueued, and keeps the rest in order |
| `Deletion.KeepNothing` | optimizer/LocalOpts.cpp:108-112 | an empty deletion list leaves the block as it is |
| `ScanLemmas.RauwEnqueueKeepsInv` | optimizer/LocalOpts.cpp:62-63 | redirecting an instruction's uses and then enqueueing it keeps the scan invariant: everything enqueued is an instruction of the block without users |
| `ScanLemmas.IdentityKeepsInv` | optimizer/LocalOpts.cpp:54-67 | the identity rule keeps the scan invariant |
| `ScanLemmas.FoldKeepsInv` | optimizer/LocalOpts.cpp:69-82 | the fold keeps the scan invariant |
| `ScanLemmas.StrengthKeepsInv` | optimizer/LocalOpts.cpp:85-104 | strength reduction keeps the scan invariant under a ranking in which an inserted shl takes the Mul's rank |
| `ScanLemmas.ShlKeepsInv` | optimizer/LocalOpts.cpp:96-99 | inserting the shl, redirecting to it and enqueueing the Mul keeps the scan invariant |
| `ScanLemmas.ShlInsertKeepsInv` | optimizer/LocalOpts.cpp:96-97 | inserting the shl keeps identities distinct and allocated, the function acyclic and the enqueued instructions unused |
| `ScanLemmas.ShlInsertInstrs` | optimizer/LocalOpts.cpp:96-97 | after the shl is inserted, no instruction uses an enqueued one and every instruction ranks above what it uses |
| `ScanLemmas.StepKeepsInv` | optimizer/LocalOpts.cpp:43-107 | one turn of the scan keeps the scan invariant |
| `ScanLemmas.ScanKeepsInv` | optimizer/LocalOpts.cpp:43-107 | the scan invariant holds when the scan ends |
| `ScanLemmas.StepKeepsIds` | optimizer/LocalOpts.cpp:43-107 | a turn of the scan erases no instruction of the block |
| `ScanLemmas.ScanKeepsIds` | optimizer/LocalOpts.cpp:43-108 | nothing is erased before the scan is over |
| `ScanLemmas.RunBlockSound` | optimizer/LocalOpts.cpp:40-114 | on SSA input: the scan erases nothing; every enqueued instruction belongs to the block and has no user; the counter total rises by the length of the deletion list; the deletions erase exactly the enqueued safe-to-remove instructions, keep the rest in order and touch no other block; no instruction refers to an enqueued one afterwards |
| `ScanLemmas.KeepKeepsUnused` | optimizer/LocalOpts.cpp:108-112 | erasing instructions gives no instruction a new user |
| `Semantics.IdentityPreservesValue` | optimizer/LocalOpts.cpp:53-66 | x + 0, 0 + x and x - 0 have the value of the replacement the rule picks, in w-bit arithmetic |
| `Semantics.SubZeroMinuendChangesValue` | optimizer/LocalOpts.cpp:51-66 | the rule rewrites 0 - x to x, which changes the value when x is 1 at any width of two bits or more |
| `Semantics.FoldPreservesValue` | optimizer/LocalOpts.cpp:68-80 | (a + k) - k and (a - k) + k equal a, so the fold's replacement has c's value whenever b has its own |
| `Semantics.FoldArith` | optimizer/LocalOpts.cpp:68-80 | the wrap-around arithmetic behind the fold, for either opcode order |
| `Semantics.AddThenSub` | optimizer/LocalOpts.cpp:68 | (a + k) - k == a modulo 2^w |
| `Semantics.SubThenAdd` | optimizer/LocalOpts.cpp:68 | (a - k) + k == a modulo 2^w |
| `Semantics.StrengthPreservesValue` | optimizer/LocalOpts.cpp:86-97 | the shl of x by 1 has the value of x * 2 at every width |
| `Semantics.StrengthFoldPreservesValue` | optimizer/LocalOpts.cpp:86-97 | the folded constant 2c has the value of c * 2 at every width |
| `Semantics.DoubleMod` | optimizer/LocalOpts.cpp:86 | doubling commutes with reduction modulo m |

## Left out

- Pass registration, the pass ID, the constructor's base-class call and `getAnalysisUsage` (lines 13-24 and 132-135) are framework plumbing. They have no behaviour to model.
- `dumpInformation` (lines 123-129) only prints the counters to the output stream. The model exposes the counter values through `LocalOpts.Counters()` instead of printing them.
- `isSafeToRemove` belongs to LLVM and is not part of this model. It is a parameter of type `Instr -> bool`, so every result is stated for any answer it gives.
- `replaceAllUsesWith` is modelled by its effect, substitution across the whole function. LLVM's use lists, and uses from outside the function (metadata, constant expressions), are not modelled.
- Instructions are values that carry an identity, and erasure removes by identity. Aliasing between LLVM objects, one instruction reached through several references, is not captured.
- Constants are untyped naturals compared by value, which stands for their zero-extended value. Integer types and `getZExtValue` on constants wider than 64 bits are not modelled.
- IR.CreateShl: the folded constant is 2c, not truncated to the operand's width. A later rule would therefore not recognise a fold that wraps around to 0 or 2 as that constant.
- LocalOptsPass.LocalOpts.constructor: the counters are unbounded `nat`s. The source's `int` counters would overflow after 2^31 rewrites, and that overflow is not modelled.
- The source reads an instruction already erased when it is listed twice: the identity rule and the fold both fire, and the instruction was safe to remove. The second `isSafeToRemove` call is then a use after free. The model skips an identity that is no longer in the block.
- ScanLemmas.RunBlockSound assumes SSA form without cycles through non-phi instructions. A ranking in which every binary instruction ranks above the instructions it uses stands for this. Only binary instructions are ranked, so phis and other instructions may use anything. Their uses are redirected too, because `replaceAllUsesWith` reaches every block.
- Idempotence of a second run is not claimed because the code does not have it. Blocks are scanned in layout order, and a block laid out earlier may use an instruction of a later block that dominates it. Take block B1 with `c = sub(b, 5)` and a later block B2 with `e = add(a, 5); b = add(e, 0)`. When the scan reaches `c`, its operand `b` has op1 0, not 5, so the fold does not fire. The identity rule then rewrites `b` in B2 and `c` becomes `sub(e, 5)`. Only a second run folds `c` to `a`.
- Semantic preservation is proved rule by rule (the `Semantics` lemmas), not as an evaluation of a whole block. The model has no evaluator for phis, memory or control flow.
- Poison values are not modelled. The only shift the rewriter builds is by 1. At width 1 that shift is poison in LLVM, while `x * 2` is 0. The model's shl gives 0 there, so `Semantics.StrengthPreservesValue` does not see the difference at width 1.
