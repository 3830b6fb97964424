# Verified models of the White Rabbit switch sources

Dafny 4.11 models of the hardest parts of this repository, with proofs of what
they are for.

- **The configuration engine** (`scripts/kconfig`). A three-valued expression
  language (n < m < y) with an optimising rewriter that works in place on shared
  trees; a memoised evaluator over a symbol graph with user values, defaults,
  selects and choices; a dependency-cycle checker; the restructuring of the menu
  tree; and the printer and reader of `.config`.
- **The USB network driver's buffer protocol** (`kernel/asix_usb/axusbnet.c`), as
  interleaved steps of submission, completion, unlinking, transmission and the
  bottom half.
- **The dependency fixer** (`scripts/basic/fixdep.c`): a word-at-a-time scan and a
  buffer used as a set.
- **The clock source** (`kernel/wr_clocksource/wr_clocksource.c`): modular and
  overflow arithmetic.

`dafny verify dfyconfig.toml` checks everything.

## How it is modelled

A `struct expr *` is a value of the datatype `Expr`; a `struct expr **` is a path
into the root of a heap object, so two pointers into one tree alias as they do in
C. A *well-formed valuation* gives each bool symbol n or y, each tristate symbol a
string that agrees with its value, and the constants y, m and n their own values;
it is defined once (`Exprs`) and all rewriting results are stated for every such
valuation. Constants have no type. `WellFormedExists` exhibits a well-formed
valuation for every choice of values. Where a negated `<` or `<=` is complemented the
operands must be orderable; `NegatedComparison` shows that this is exactly what is
needed.

The menu tree is a table of `parent`, `next` and `list` links that the methods
overwrite; the forest it represents is ghost, and so is the log of what has happened to
its entries, by which the dependencies and members collected on the way are related to
the finished entries. The symbol table is a class whose
fields `curr`, `visible`, `valid` and so on are overwritten; the recursive
definition of a value (`Value`) is the specification. A choice with its members is
a table of its own (`Choices`), because its evaluation is re-entrant.

The driver model (`UsbNet`) takes the region under a queue lock, or one unlocked
access to an skb's control block, as a step. A step does what the code does also
where that would be wrong (freed memory reads as garbage, counts may go negative,
a skb can be dropped), so the safety results are not built in. `UsbDelivery` follows
single frames through the runs.

Text is a sequence of bytes; a C string in a buffer ends at its first NUL, and the
reader cuts and unescapes its line buffer in place. Machine widths are written out
in `ClockSource`.

## What turned out not to hold

- `expr_trans_compare(e, !=, n)` underclaims below a negation of m
  (`TransCompareNegatedMod`). It computes the test of a two-valued reading of e
  (`TransCompareReads`) and is right if and only if it is not the case that e is m and
  reads as n (`TransCompareExact`). For that reason nesting by the order test can put
  a visible entry under an invisible one (`NestNegatedMod`); `NestMeans` says exactly
  when it does.
- The order relations compare the strings of tristate symbols, and the string m comes
  before n: `CompareOrderWithTri` says exactly when they order the values,
  `ModBelowNo` is an instance where they do not.
- `expr_trans_bool` does not keep the promoted value outside negation normal form
  (`TransBoolNeedsNormal`); `TransBoolExact` says exactly when it does.
- When a choice is y exactly one member is y only if no invisible member is made y
  by a default of its own, read with the choice at y (`ExactlyOneMember` gives the
  exact condition, `MemberDefaultFails` a choice that fails it).
- The return value of `sym_check_deps` is no verdict: the outermost call returns NULL
  also when it has reported a cycle (`CheckDeps`). The reports are (`CheckTable`).
- A value out of range is accepted when it is the current one; it is stored, but
  nothing is recalculated. What is stored agrees with the table if and only if the
  symbol is invisible or the value is at most the greater of its visibility and its
  reverse dependency (`SetAndRead`, `SetSameExact`); otherwise the next calculation
  gives the greater of these two (`SetSameSelf`), as in `SetSameFails`.
- `rx_complete` marks a runt frame `rx_cleanup`, but `defer_bh` overwrites the mark
  with `rx_done` (`RuntProcessed`). The mark of `unlink_urbs` that it has replaced is
  lost: `UnlinkSeen` says exactly when rx_complete still finds one, and
  `RuntResubmitted` is a run in which an URB being unlinked is submitted again.
- `wrcs_read` misses whole seconds when it is called too rarely; `ExactAdvance`
  says exactly when it is right, `MissedSecond` is an instance where it is not.
- `clocks_calc_mult_shift` can leave its search without a fit; `CalcMultShift` says
  exactly when, and what it then returns; in `NoShiftFits` that converts all to 0.

## Model

| member | source | states |
|---|---|---|
| `Exprs.WellFormedExists` | scripts/kconfig/expr.c:917-953 | Well-formed valuations exist, with any values for the tristate symbols and any but m for the bool ones: the results below speak about something |
| `Exprs.CompareByString` | scripts/kconfig/expr.c:955-994 | With a bool or tristate operand the numeric comparison is never taken: for all six relations the result is that of comparing the two strings by strcmp |
| `Exprs.CompareWithTri` | scripts/kconfig/expr.c:955-994 | Comparing a bool or tristate symbol with y, m or n by = or != compares its value with 2, 1 or 0 |
| `Exprs.CompareOrderWithTri` | scripts/kconfig/expr.c:955-994 | For <, <=, > and >= that is so if and only if it is not m against n: the strings are ordered m < n < y |
| `Exprs.ModBelowNo` | scripts/kconfig/expr.c:955-994 | A tristate symbol that is m compares less than n |
| `Exprs.CompareNumbers` | scripts/kconfig/expr.c:967-976 | Two operands that parse as numbers are compared as numbers by each relation, modulo 2^64 if one is hexadecimal |
| `Exprs.CompareStrings` | scripts/kconfig/expr.c:962-972 | In all other cases equality is that of the strings, and the order that of strcmp, or n if an operand cannot be parsed at all |
| `Exprs.StrCmpOrders` | scripts/kconfig/expr.c:967-968 | strcmp orders by the first place at which two strings differ, a prefix first |
| `Exprs.PutEquiv` | scripts/kconfig/expr.c:141-173 | Overwriting a node in place through a pointer to it with an equivalent one leaves the whole tree equivalent |
| `ExprEquality.YnSound` | scripts/kconfig/expr.c:246-327 | The constant-folding pass keeps the value in every well-formed valuation |
| `ExprEquality.YnRemovesConstants` | scripts/kconfig/expr.c:246-327 | It leaves no constant operand, is the identity on exactly the trees without one, and strictly shrinks all others |
| `ExprEquality.ElimEqFactors` | scripts/kconfig/expr.c:141-173 | One common value c exists with e1 = reduced e1 op c and e2 = reduced e2 op c |
| `ExprEquality.EliminateEqReflectsOrder` | scripts/kconfig/expr.c:175-195 | If the reduced first expression is at most the reduced second in a valuation, so were the originals, also when both passes run |
| `ExprEquality.ElimEqExhausts` | scripts/kconfig/expr.c:141-173 | The elimination only replaces operands by the neutral constant, and goes on until no operand of one side compares equal to one of the other, y and n excepted |
| `ExprEquality.EliminateEqComplete` | scripts/kconfig/expr.c:175-195 | From x && p and p, in either order, it leaves y of p, unless n is an operand of p |
| `ExprEquality.ExprEqSound` | scripts/kconfig/expr.c:200-244 | Expressions that compare equal have the same value in every well-formed valuation |
| `ExprEquality.ExprEqReflexive` | scripts/kconfig/expr.c:200-244 | Every expression compares equal to itself, and/or trees with constants included |
| `ExprEquality.Rewriter.EliminateYn` | scripts/kconfig/expr.c:246-327 | The in-place pass on the tree in any slot computes the folded tree there and changes nothing outside it |
| `ExprEquality.Rewriter.EliminateEqAt` | scripts/kconfig/expr.c:141-173 | The in-place elimination on two trees computes the reduced pair in the two slots |
| `ExprEquality.Rewriter.EliminateCommon` | scripts/kconfig/expr.c:175-195 | The in-place expr_eliminate_eq computes the pair that reflects order |
| `ExprEquality.Rewriter.TestEq` | scripts/kconfig/expr.c:200-244 | The imperative comparison decides exactly ExprEq, on copies, and restores the global counter |
| `ExprDuplicates.JoinOrSound` | scripts/kconfig/expr.c:361-423 | Whatever the or-join returns equals the or of its operands in every well-formed valuation |
| `ExprDuplicates.JoinAndSound` | scripts/kconfig/expr.c:425-517 | Whatever the and-join returns equals the and of its operands |
| `ExprDuplicates.JoinEqualUnequalSound` | scripts/kconfig/expr.c:469-483 | The joins of an equality and an inequality test on one symbol equal their and |
| `ExprDuplicates.JoinExact` | scripts/kconfig/expr.c:361-517 | Two operands are joined if and only if they compare equal or are one of the pairs the two functions list, in either order |
| `ExprDuplicates.JoinShapeKept` | scripts/kconfig/expr.c:361-517 | A join is no larger than its operands, is no node of the joined spine, and keeps negation normal form |
| `ExprDuplicates.LeafValue` | scripts/kconfig/expr.c:519-569 | The value of an and/or spine is a leaf joined with the spine in which that leaf is neutral |
| `ExprDuplicates.JoinStep` | scripts/kconfig/expr.c:553-569 | Joining two different leaves of one tree in place keeps its value, size bound and normal form, and leaves a neutral constant on the spine |
| `ExprDuplicates.SilentMeans` | scripts/kconfig/expr.c:519-569 | A settled tree is one in which no two different leaves of a spine join |
| `ExprDuplicates.SettledNoTwins` | scripts/kconfig/expr.c:519-569 | In a settled tree no two different operands of one spine, at any depth, are the same, compare equal or are such a pair |
| `ExprDuplicates.NoTwinsSettled` | scripts/kconfig/expr.c:519-569 | And only such trees are settled |
| `ExprDuplicates.EliminateDups1` | scripts/kconfig/expr.c:519-569 | With both pointers in one tree: the pass computes `Pass` in the slot and counts its joins; it keeps every value, and if it joined nothing it changed nothing and no pair joins |
| `ExprDuplicates.EliminateDups` | scripts/kconfig/expr.c:571-592 | The fixpoint loop ends and computes `Deduplicated`; the result is equivalent in every well-formed valuation, no larger, without two operands that have to be joined, in normal form if the input was, unchanged if the input was settled, and trans_count is restored |
| `ExprNormalisation.NegatedComparison` | scripts/kconfig/expr.c:678-693 | Replacing a negated order comparison by its complement is right if and only if the operands can be ordered |
| `ExprNormalisation.NoOtherOrderable` | scripts/kconfig/expr.c:885-915 | Comparisons can always be ordered if no operand has an unparsable type |
| `ExprNormalisation.TransformTestSound` | scripts/kconfig/expr.c:616-659 | Rewriting a test of a bool symbol against y, m or n keeps the value |
| `ExprNormalisation.TransformSound` | scripts/kconfig/expr.c:594-749 | expr_transform keeps the value in every well-formed valuation with orderable comparisons |
| `ExprNormalisation.TransformNormal` | scripts/kconfig/expr.c:594-749 | Its result is in negation normal form: not only above plain symbols, no bool symbol compared with a constant |
| `ExprNormalisation.TransformFixesNormal` | scripts/kconfig/expr.c:594-749 | It leaves every normal form alone |
| `ExprNormalisation.TransformIdempotent` | scripts/kconfig/expr.c:594-749 | Applying it twice is applying it once |
| `ExprNormalisation.TransformAt` | scripts/kconfig/expr.c:594-749 | The in-place rewriting of the tree in a slot ends (De Morgan steps grow the tree) and computes the transformed tree there and nothing else |
| `ExprNormalisation.TransformNot` | scripts/kconfig/expr.c:660-742 | The negation case in place, after its operand was transformed |
| `ExprNormalisation.TransBoolPromotes` | scripts/kconfig/expr.c:332-356 | On negation normal form expr_trans_bool keeps the value up to reading m as y |
| `ExprNormalisation.TransBoolNeedsNormal` | scripts/kconfig/expr.c:332-356 | Without normal form it does not: a concrete expression and valuation |
| `ExprNormalisation.TransBoolReads` | scripts/kconfig/expr.c:332-356 | For every e the result has the value of e with each test FOO != n of a tristate FOO read as FOO, which is the value of e wherever it is not m |
| `ExprNormalisation.TransBoolTestless` | scripts/kconfig/expr.c:332-356 | Nowhere in the result is a tristate symbol tested for being other than n |
| `ExprNormalisation.TransBoolExact` | scripts/kconfig/expr.c:332-356 | So for every e the promoted value is kept if and only if it is not the case that e is n and reads as m |
| `ExprNormalisation.TransBoolAt` | scripts/kconfig/expr.c:332-356 | The in-place version computes the same tree |
| `ExprNormalisation.TransCompareReads` | scripts/kconfig/expr.c:808-871 | For every typed e, the test of e against k, y or n, is y exactly when the comparison holds of the two-valued reading of e, in which a negation is y or n only |
| `ExprNormalisation.TransCompareExact` | scripts/kconfig/expr.c:808-871 | So the test is right if and only if it is not the case that e is m and reads as k |
| `ExprNormalisation.ReadingNear` | scripts/kconfig/expr.c:808-871 | Reading and value differ at most where the value is m, and then the reading is k |
| `ExprNormalisation.TransCompareSound` | scripts/kconfig/expr.c:808-871 | In particular it is right for every e with negations of two-valued operands only |
| `ExprNormalisation.TransCompareBound` | scripts/kconfig/expr.c:808-871 | The test e != n is never y where e is n, for every typed e |
| `ExprNormalisation.TransCompareNegatedMod` | scripts/kconfig/expr.c:839-840 | Below a negation of m it is n although the expression is m: a concrete input |
| `ExprNormalisation.DependsSound` | scripts/kconfig/expr.c:779-806 | If e depends on the symbol and the symbol is n, e is n |
| `ExprNormalisation.DependsExact` | scripts/kconfig/expr.c:779-806 | An expression depends on the symbol if and only if one of its and-ed operands is the symbol, its test against y or m by =, or against n by != |
| `ExprNormalisation.ContainsExact` | scripts/kconfig/expr.c:751-777 | A symbol is found if and only if it occurs somewhere, alone or in a comparison |
| `ExprNormalisation.EvalAgrees` | scripts/kconfig/expr.c:751-777 | A symbol the syntactic search does not find has no influence on the value |
| `MenuDependencies.Conjoin` | scripts/kconfig/menu.c:315-331 | The combined condition is the and of the two in every valuation, up to m read as y for non-tristate symbols, and normal; no two of its operands have to be joined, and for non-tristate symbols no test against n is left |
| `MenuDependencies.NotNoTest` | scripts/kconfig/menu.c:342-344 | The reduced test that a prompt is not n, `NotNoForm`: in normal form, without duplicates, of the same value, and the transformed test itself if that has no duplicates |
| `MenuDependencies.ShouldNest` | scripts/kconfig/menu.c:347-361 | An entry is nested if and only if its condition mentions the symbol and it depends on the symbol or the elimination of what the two reduced tests have in common leaves y of the parent's (`Nests`) |
| `MenuDependencies.NestSound` | scripts/kconfig/menu.c:347-361 | Whatever is nested mentions the symbol, and in every valuation it depends on the symbol or its test implies the one of the parent prompt |
| `MenuDependencies.NestComplete` | scripts/kconfig/menu.c:347-361 | A condition that mentions the symbol and whose reduced test is that of the prompt and-ed with anything is accepted, unless n is an operand of the prompt's |
| `MenuDependencies.NestMeans` | scripts/kconfig/menu.c:341-366 | A nested entry that depends on the parent symbol and is not n has a parent symbol that is not n; one nested by the order test and not n has a parent prompt that is not n if and only if the prompt is not n where the condition is m and reads as n |
| `MenuDependencies.NestNegatedMod` | scripts/kconfig/menu.c:352-361 | Where a condition negates an m the code nests an entry that can be visible under an invisible parent: a concrete input |
| `MenuFinalisation.PropagateInto` | scripts/kconfig/menu.c:314-338 | One child gets the conjoined conditions, property by property, reduced as far as the rewriting goes, and keeps its shape |
| `MenuFinalisation.SelectsRegistered` | scripts/kconfig/menu.c:332-336 | Every select of the entry is an alternative in its target's reverse dependency, and no earlier one is lost |
| `MenuFinalisation.MenuTable.Propagate` | scripts/kconfig/menu.c:308-338 | The loop over the children propagates into each child exactly once, in order, and touches no other entry; the reverse dependencies are those its selects make (`RevOf`) |
| `MenuFinalisation.PropagateEntered` | scripts/kconfig/menu.c:308-338 | After it every child is gated by what encloses it: its condition is live only if the parent's is |
| `MenuFinalisation.MenuTable.FinalizeList` | scripts/kconfig/menu.c:339-340 | Finalizing the children one after the other keeps their pre-order list and all links outside |
| `MenuFinalisation.MenuTable.Absorb` | scripts/kconfig/menu.c:341-374 | Taking the following siblings that depend on the entry keeps the pre-order list, relinks lists and parents consistently; every entry taken was accepted by the test of `ShouldNest`, and the first one left was not |
| `MenuFinalisation.MenuTable.TakeSiblings` | scripts/kconfig/menu.c:367-371 | The three pointer writes turn the prefix of the sibling list into the list of the entry |
| `MenuFinalisation.MenuTable.Hoist` | scripts/kconfig/menu.c:416-420 | Every entry of a block gets the outer parent; the last one is found |
| `MenuFinalisation.MenuTable.AdoptMember` | scripts/kconfig/menu.c:376-414 | A choice member is registered at the end of its choice's list, its conditions only narrow, and if only the choice is tristate they are n wherever the choice is not y |
| `MenuFinalisation.AdoptedNarrows` | scripts/kconfig/menu.c:398-407 | The added test on the choice never makes an entry live that was not |
| `MenuFinalisation.AdoptedFenced` | scripts/kconfig/menu.c:398-408 | The added test makes every condition of a member that is not tristate n wherever its tristate choice is not y, and the entry gets a choice property |
| `MenuFinalisation.MenuTable.Flatten` | scripts/kconfig/menu.c:375-425 | The result is exactly the list with every promptless block spliced in behind its entry, in the same pre-order, parents consistent, all other links untouched |
| `MenuFinalisation.FlattenedDeep` | scripts/kconfig/menu.c:415-424 | The flattened list has the same pre-order, and if everything below its entries was flat it is flat at every depth: no entry has a block below it without a prompt text |
| `MenuFinalisation.FlattenedExplained` | scripts/kconfig/menu.c:415-424 | Every entry of the flattened list is below its new parent through a chain of entries without prompt text, each below the one before because it was from the start or because the code decided to nest it there (`Nested`) |
| `MenuFinalisation.MenuTable.AbsorbSiblings` | scripts/kconfig/menu.c:346-366 | The loop that takes siblings ends at the first one the test does not accept, or at the end of the list |
| `MenuFinalisation.MenuTable.FlattenOne` | scripts/kconfig/menu.c:415-424 | One splice |
| `MenuFinalisation.MenuTable.Finalize` | scripts/kconfig/menu.c:282-444 | One call on any forest: it ends, keeps the pre-order list, leaves a well-linked forest that is flat at every depth below the entry and in which the place of every entry is explained, touches no link or entry outside, finalizes every entry of the trees it takes and looks at every list that is left, the dependencies and members being those that makes, and all its entries stay gated |
| `MenuFinalisation.MenuTable.Leave` | scripts/kconfig/menu.c:439-443 | The end of a call adds the prompt up to m to the reverse dependency of a symbol that is not optional, and keeps everything else |
| `MenuFinalisation.MenuTable.AddDirect` | scripts/kconfig/menu.c:373 | The condition of an entry without a list is added to the direct dependency of its symbol |
| `MenuFinalisation.RevAtLeast` | scripts/kconfig/menu.c:332-336 | Every select of an entry that has been propagated into, and the prompt up to m of every finished entry of a symbol that is not optional, is at most the reverse dependency, also after the conditions have been narrowed |
| `MenuFinalisation.RevAtMost` | scripts/kconfig/menu.c:439-443 | In every valuation a reverse dependency is n or at most one of these selects or prompts |
| `MenuFinalisation.DirAtLeast` | scripts/kconfig/menu.c:373 | The condition of a finished entry without a list, if it has one, is at most the direct dependency of its symbol |
| `MenuFinalisation.DirAtMost` | scripts/kconfig/menu.c:373 | And in every valuation a direct dependency is at most one of these conditions |
| `MenuFinalisation.MembersListed` | scripts/kconfig/menu.c:409-413 | Each choice lists its members once, and exactly the symbols whose choice it is |
| `MenuFinalisation.MembersStay` | scripts/kconfig/menu.c:409-413 | Members keep their choice and their place in its list |
| `MenuFinalisation.MemberFenced` | scripts/kconfig/menu.c:376-414 | Every member comes from an entry seen in the list of an entry of its choice, with the added tests |
| `MenuFinalisation.FinalizeRoot` | scripts/kconfig/menu.c:282-444 | The whole run from the root menu, for any conditions: the same entries in the same pre-order, links and parent pointers consistent, no block anywhere below an entry without prompt text; the reverse dependencies are exactly the selects and the prompts of symbols that are not optional (`RevRight`), the direct ones exactly the conditions of entries without a list (`DirRight`), and the members of choices exactly the entries in their lists, behind the test of a tristate choice where that is needed (`MembersRight`); every entry is below its parent because it was originally, or because the code decided to nest it there, or by hoisting through entries without prompt text for which that holds; and in every valuation with orderable comparisons each entry is live only under its original enclosing conditions |
| `MenuFinalisation.NestedMeans` | scripts/kconfig/menu.c:341-414 | An entry found nested in the finished forest mentions the symbol of the entry it was nested under; without the tests of tristate choices put before them since, the two finished conditions are accepted and justify the nesting in every valuation |
| `MenuFinalisation.NestedExact` | scripts/kconfig/menu.c:341-414 | Without tristate choices an entry counts as nested under another if and only if the code accepts their two finished conditions |
| `ConfWriting.Advance` | scripts/kconfig/confdata.c:809-823 | From any entry the next, list and parent pointers lead to its pre-order successor, or past the end |
| `ConfWriting.Climb` | scripts/kconfig/confdata.c:816-823 | The inner loop ends at the closest ancestor with a following sibling |
| `ConfWriting.ConfWriter.Walk` | scripts/kconfig/confdata.c:790-823 | The stackless walk ends and visits exactly the pre-order list below the root, each entry once |
| `ConfWriting.FirstVisitsOnce` | scripts/kconfig/confdata.c:800-807 | Exactly the flagged symbols met are written, none twice |
| `ConfWriting.FinalizeAndWrite` | scripts/kconfig/confdata.c:790-823 | After finalisation of any menu table the flagged symbols are written in the order of the original entries, each once |
| `SymbolValues.ComputeBelow` | scripts/kconfig/symbol.c:209-261 | The value computed for a symbol depends only on symbols of lower rank |
| `SymbolValues.ValueSolves` | scripts/kconfig/symbol.c:327-474 | The unmemoised recursion solves the equations of the whole table |
| `SymbolValues.ValueUnique` | scripts/kconfig/symbol.c:327-474 | It is the only solution |
| `SymbolValues.ValueRange` | scripts/kconfig/symbol.c:416-417 | A bool symbol is never m, and no symbol is when modules are off |
| `SymbolValues.ValuesWellFormed` | scripts/kconfig/symbol.c:773-795 | The table's values form a well-formed valuation, the hypothesis of every rewriting result |
| `SymbolValues.RevDepHonoured` | scripts/kconfig/symbol.c:414-417 | Every symbol is at least its reverse dependency, up to promotion |
| `SymbolValues.SelectHonoured` | scripts/kconfig/menu.c:332-336 | Every select of an entry registered in the reverse dependencies, as FinalizeRoot leaves all of them, is honoured: the target is at least the selecting symbol limited by the condition of the select |
| `SymbolValues.UserValue` | scripts/kconfig/symbol.c:380-417 | A visible user-set symbol is max(min(user value, visibility), reverse dependency), with m made y where it is no value |
| `SymbolValues.VisibleIs` | scripts/kconfig/symbol.c:220-236 | A symbol is as visible as the most visible of its prompts, with m made y where m is no value |
| `SymbolValues.DependenciesAre` | scripts/kconfig/symbol.c:245-261 | The values of reverse and direct dependency, m being kept exactly for a tristate symbol with modules on; no direct dependency is y |
| `SymbolValues.DefaultIs` | scripts/kconfig/symbol.c:115-125 | The defaults give the value of the first one with a condition that is not n, limited by that condition; n if there is none |
| `SymbolValues.DefaultValue` | scripts/kconfig/symbol.c:394-417 | A symbol that is invisible or has no user value is the greater of its reverse dependency and what that default gives, with m made y where m is no value |
| `SymbolValues.NotForNothing` | scripts/kconfig/symbol.c:380-417 | A symbol that is not n is selected, or visible and wanted by the user, or has a default that says so |
| `SymbolValues.InvisibleValue` | scripts/kconfig/symbol.c:380-392 | The value of an invisible symbol is the same for all user values, and without one |
| `SymbolValues.SetThenRead` | scripts/kconfig/symbol.c:487-540 | A value in range, once stored, is the value the table then gives |
| `SymbolValues.RangeExact` | scripts/kconfig/symbol.c:487-504 | A value is in range if and only if the symbol takes it on when set to it, and does not whatever it is set to |
| `SymbolValues.SetUserBelow` | scripts/kconfig/symbol.c:506-540 | Storing a user value affects no symbol of lower or equal rank but its own |
| `SymbolValues.SetSameSelf` | scripts/kconfig/symbol.c:380-417 | A symbol set to its current value keeps it if it is invisible or the value is at most the greater of its visibility and reverse dependency, and otherwise becomes the greater of the two |
| `SymbolValues.SetSameValue` | scripts/kconfig/symbol.c:506-540 | In the first case no symbol changes its value, whether or not the value is in range |
| `SymbolValues.SetSameExact` | scripts/kconfig/symbol.c:506-540 | And only then: the exact condition for storing the current value without any change |
| `SymbolValues.SetSameFails` | scripts/kconfig/symbol.c:506-540 | A tristate symbol with prompt m and default y is y; setting it to y is out of range and makes it m |
| `SymbolTables.SymbolTable.ExprCalc` | scripts/kconfig/expr.c:917-953 | Memoised evaluation of an expression: on an acyclic table it returns its value, and only calculates more symbols |
| `SymbolTables.SymbolTable.CompareCalc` | scripts/kconfig/expr.c:955-994 | The comparison after calculating both symbols |
| `SymbolTables.SymbolTable.CalcVisibility` | scripts/kconfig/symbol.c:209-261 | The memoised visibility, dir_dep and rev_dep of a symbol are those of the recursive definition |
| `SymbolTables.SymbolTable.CalcTri` | scripts/kconfig/symbol.c:380-424 | The rest of the calculation gives the recursive definition's value |
| `SymbolTables.SymbolTable.SymCalc` | scripts/kconfig/symbol.c:327-474 | sym_calc_value ends on every dependency graph because VALID is set first, keeps all finished symbols, and on an acyclic table gives the unique value |
| `SymbolTables.SymbolTable.CalcInOrder` | scripts/kconfig/symbol.c:327-474 | Any list of symbols in any order: each has its one value afterwards |
| `SymbolTables.SymbolTable.ClearAllValid` | scripts/kconfig/symbol.c:476-485 | Nothing is calculated afterwards, and no user value is lost |
| `SymbolTables.SymbolTable.SetTristateValue` | scripts/kconfig/symbol.c:506-540 | Refused exactly when the value is out of range and not the current one; otherwise stored; everything is invalid exactly if the value is a new one; on an acyclic table all that stays valid is right if and only if the value was not the current one or the condition of SetSameExact holds of the stored fields |
| `SymbolTables.SymbolTable.SetAndRead` | scripts/kconfig/symbol.c:487-540 | Whatever value is accepted is the value read back, also one out of range that is accepted because it is the current one; everything stored is right afterwards if and only if the value was refused, was a new one, or is the old one under the condition of SetSameExact |
| `DependencyCheck.OrderedAcyclic` | scripts/kconfig/symbol.c:1203-1235 | A dependency order of all symbols that depend on anything excludes every cycle |
| `DependencyCheck.Checker.PrintRecursive` | scripts/kconfig/symbol.c:1094-1166 | The segment reported, from the repeated symbol to the top of the stack, is a genuine dependency cycle |
| `DependencyCheck.Checker.CheckExprDeps` | scripts/kconfig/symbol.c:1168-1200 | All symbols of the expression are followed unless a cycle is met |
| `DependencyCheck.Checker.CheckSymDeps` | scripts/kconfig/symbol.c:1203-1235 | All of a symbol's reverse dependencies, properties and conditions are followed |
| `DependencyCheck.Checker.CheckDeps` | scripts/kconfig/symbol.c:1274-1306 | Without a report the symbol and all it depends on are in dependency order; a symbol returned is on the stack of calls, so that the outermost call returns NULL whatever has been reported |
| `DependencyCheck.Checker.CheckAll` | scripts/kconfig/symbol.c:1274-1306 | The same over all symbols |
| `DependencyCheck.CheckTable` | scripts/kconfig/symbol.c:1274-1306 | Nothing is reported if and only if the graph is acyclic; everything reported is a cycle |
| `CheckedTables.OrderRanks` | scripts/kconfig/symbol.c:1274-1306 | A dependency order ranks the table, so the values are defined |
| `CheckedTables.DerivedCovers` | scripts/kconfig/symbol.c:1203-1235 | The checker follows every symbol in the prompts, defaults with their values, and dependencies that the calculation reads from the same properties |
| `CheckedTables.SolutionExists` | scripts/kconfig/symbol.c:327-474 | An acyclic table has a solution |
| `CheckedTables.CheckAndCalc` | scripts/kconfig/symbol.c:1274-1306 | Check, then calculate in any order: the check passes exactly without cycles, and then the values are the unique solution |
| `Choices.VisibleTwoValued` | scripts/kconfig/symbol.c:209-261 | While the choice is y a member is fully visible or not at all |
| `Choices.MemberVisibleIs` | scripts/kconfig/symbol.c:220-236 | A member is visible if and only if one of its prompts is y, or m without being a tristate member's under a y choice; visible at m only as a tristate member with modules on |
| `Choices.OwnTriIs` | scripts/kconfig/symbol.c:380-417 | The choice's own value: the user's, limited by the visibility, and at least the reverse dependency; no default counts |
| `Choices.ChoiceTriIs` | scripts/kconfig/symbol.c:319-325 | A choice that is y of its own is n if no member is visible, and keeps its value otherwise |
| `Choices.ChosenPreferred` | scripts/kconfig/symbol.c:269-325 | The chosen member is the user's pick if that is visible; otherwise that of the first default with a condition that is not n and a visible member; otherwise the first visible member; otherwise none |
| `Choices.ChosenShown` | scripts/kconfig/symbol.c:269-325 | The member chosen is visible, and one is chosen unless none is visible |
| `Choices.MembersOfChosen` | scripts/kconfig/symbol.c:373-400 | While the choice is y the chosen member is y, other visible ones n, and an invisible one is what its defaults, whose conditions read the choice at y, say |
| `Choices.OpenMember` | scripts/kconfig/symbol.c:373-400 | While the choice is not y a fully visible member is n, one visible at m with a user value is that up to m, and all others are what their defaults say |
| `Choices.TypedIs` | scripts/kconfig/symbol.c:416-417 | m stays m only for a tristate member with modules on |
| `Choices.ExactlyOneMember` | scripts/kconfig/symbol.c:373-400 | Exactly one member is y if and only if no invisible member is made y by a default of its own, read with the choice at y |
| `Choices.NoMemberDefaults` | scripts/kconfig/symbol.c:269-325 | Without member defaults exactly one member is y |
| `Choices.MemberDefaultFails` | scripts/kconfig/symbol.c:394-399 | With one, two members can be y: a concrete choice of two members, the default under the condition menu_finalize gives every property of a member |
| `Choices.ChoiceCalc.CalcVisibility` | scripts/kconfig/symbol.c:209-261 | A member's visibility, with the choice calculated on the way |
| `Choices.ChoiceCalc.ChooseMember` | scripts/kconfig/symbol.c:295-325 | The choice has all members' visibilities calculated and picks one, or becomes n |
| `Choices.ChoiceCalc.Choose` | scripts/kconfig/symbol.c:269-325 | The user's pick if visible, else the first visible default, else the first visible member |
| `Choices.ChoiceCalc.CalcChoice` | scripts/kconfig/symbol.c:443-445 | The re-entrant calculation of the choice ends with its final value |
| `Choices.ChoiceCalc.CalcDefault` | scripts/kconfig/symbol.c:115-125 | The first default that applies, limited by its condition, read with the choice's value; condition or value calculate the choice if they read it |
| `Choices.ChoiceCalc.CalcMember` | scripts/kconfig/symbol.c:368-400 | Calculating a member gives its final value, whether the choice has been calculated before, by a prompt, by a default, or not at all |
| `Choices.ChoiceCalc.CalcAll` | scripts/kconfig/symbol.c:327-474 | Any interleaving of choice and members ends with everything calculated and final |
| `Choices.EvaluateChoice` | scripts/kconfig/symbol.c:295-474 | The values do not depend on the order; when the choice is y a member that is visible or without defaults is y exactly if it is the preferred one, which is the user's pick if that is visible |
| `UsbNet.StepKeeps` | kernel/asix_usb/axusbnet.c:279-638 | Every step of every activity keeps the ownership invariant |
| `UsbNet.RunKeeps` | kernel/asix_usb/axusbnet.c:279-638 | So it holds in every state of every run |
| `UsbNet.OnePlace` | kernel/asix_usb/axusbnet.c:279-305 | Each skb is on one queue, in one activity's hands, delivered or freed: exactly one of these |
| `UsbNet.DoneKnown` | kernel/asix_usb/axusbnet.c:1168-1189 | Everything on done is tx_done, rx_done or rx_cleanup |
| `UsbNet.NeverBogus` | kernel/asix_usb/axusbnet.c:1186-1187 | The branch for a bogus state cannot be taken |
| `UsbNet.NothingDangles` | kernel/asix_usb/axusbnet.c:594-638 | No activity, queue, control block or transfer in flight points to freed memory, so unlink_urbs can never use a freed URB |
| `UsbNet.QueuesIntact` | kernel/asix_usb/axusbnet.c:279-305 | defer_bh finds the skb on the queue it takes it from, and no URB is submitted while in flight |
| `UsbNet.FreedForGood` | kernel/asix_usb/axusbnet.c:1180-1184 | No step counts an URB that was freed |
| `UsbNet.FreedOnce` | kernel/asix_usb/axusbnet.c:1180-1184 | Once freed an URB stays freed for the rest of the run |
| `UsbNet.NoLeak` | kernel/asix_usb/axusbnet.c:1168-1189 | When all activities have ended and the queues are empty every URB is freed and every skb was delivered or freed once |
| `UsbNet.FrameDelivered` | kernel/asix_usb/axusbnet.c:329-549 | The model is not empty: a run exists in which a frame is received, delivered, and its URB freed |
| `UsbNet.OnQueue` | kernel/asix_usb/axusbnet.c:460-545 | An skb whose completion is running is on its queue whenever nobody holds the lock |
| `UsbNet.CompleteRxKeeps` | kernel/asix_usb/axusbnet.c:451-462 | The start of rx_complete, which takes the URB out of the skb without the lock |
| `UsbNet.JudgeKeeps` | kernel/asix_usb/axusbnet.c:464-520 | Its verdict, including the branch that puts the URB back |
| `UsbNet.DeferRxKeeps` | kernel/asix_usb/axusbnet.c:279-305 | defer_bh for a received skb |
| `UsbNet.DeferTxKeeps` | kernel/asix_usb/axusbnet.c:1049-1051 | defer_bh for a sent skb |
| `UsbNet.MarkKeeps` | kernel/asix_usb/axusbnet.c:600-613 | unlink_urbs marks the first skb not yet marked |
| `UsbNet.GetUrbKeeps` | kernel/asix_usb/axusbnet.c:614-625 | It takes a reference before it releases the lock |
| `UsbNet.PutUrbKeeps` | kernel/asix_usb/axusbnet.c:626-634 | It drops the reference |
| `UsbNet.SubmitKeeps` | kernel/asix_usb/axusbnet.c:387-412 | rx_submit and start_xmit submit under the lock |
| `UsbNet.RejectKeeps` | kernel/asix_usb/axusbnet.c:419-422 | A rejected URB and its skb are freed |
| `UsbNet.XmitUrbKeeps` | kernel/asix_usb/axusbnet.c:1098-1112 | start_xmit fills the control block |
| `UsbNet.HandleFreeKeeps` | kernel/asix_usb/axusbnet.c:1181-1185 | The bottom half frees URB and skb |
| `UsbNet.MarkStays` | kernel/asix_usb/axusbnet.c:279-305 | Until its defer_bh a received skb stays on rxq, and it loses the mark of unlink_urbs exactly by a step that judges its frame a runt |
| `UsbNet.DeferredOnce` | kernel/asix_usb/axusbnet.c:279-305 | No received skb is deferred twice in a run |
| `UsbNet.UnlinkSeen` | kernel/asix_usb/axusbnet.c:536-546 | In every run: rx_complete finds its skb marked for unlinking if and only if some step has marked it and no later one has judged its frame a runt; without an unlink seen the URB can be resubmitted |
| `UsbNet.RuntProcessed` | kernel/asix_usb/axusbnet.c:466-536 | However the steps interleave, a frame judged a runt is deferred as rx_done, by the activity that judged it, with its URB |
| `UsbNet.RuntResubmitted` | kernel/asix_usb/axusbnet.c:466-473 | An explicit run from the start shows it: an URB marked for unlinking receives a runt frame and is submitted again |
| `UsbDelivery.DeliveredAccepted` | kernel/asix_usb/axusbnet.c:464-549 | In every run: what reaches the network stack was judged good, or a runt, by its completion before |
| `UsbDelivery.JudgedOnce` | kernel/asix_usb/axusbnet.c:464-536 | No received frame is judged twice |
| `UsbDelivery.RejectedNotDelivered` | kernel/asix_usb/axusbnet.c:475-521 | A frame judged lost is never delivered |
| `UsbDelivery.RejectedFreed` | kernel/asix_usb/axusbnet.c:1181-1185 | The bottom half frees its skb, and the URB if that was put back |
| `UsbDelivery.SentNotDelivered` | kernel/asix_usb/axusbnet.c:1049-1051 | An skb to be sent is never delivered as a received frame |
| `UsbDelivery.AcceptedProcessed` | kernel/asix_usb/axusbnet.c:1174-1180 | The first thing the bottom half does with an accepted frame is to process it |
| `UsbDelivery.UnlinkedFreed` | kernel/asix_usb/axusbnet.c:538-546 | If rx_complete finds its skb marked for unlinking, the next thing it does is to free the URB |
| `UsbDelivery.MarkedOnce` | kernel/asix_usb/axusbnet.c:600-613 | No received skb is marked for unlinking twice without a runt frame in between |
| `UsbDelivery.MarksFirst` | kernel/asix_usb/axusbnet.c:600-613 | unlink_urbs marks the first skb of the queue that has not been marked |
| `UsbDelivery.BlockedEnds` | kernel/asix_usb/axusbnet.c:488-511 | When the device has stopped, rx_complete ends with its defer_bh: it does not submit the URB again |
| `UsbDelivery.BlockedFreed` | kernel/asix_usb/axusbnet.c:507-511 | The bottom half frees that URB with the skb |
| `UsbDelivery.FirstComeFirstServed` | kernel/asix_usb/axusbnet.c:279-305 | The bottom half takes the skbs in the order of their completion |
| `ConfigFiles.EscapeStringValue` | scripts/kconfig/symbol.c:928-969 | The built string is the escaped one and fills the allocated buffer exactly |
| `ConfigFiles.EscapedSize` | scripts/kconfig/symbol.c:928-948 | The counting loop gives the length of the result and its terminator |
| `ConfigFiles.UnescapeEscape` | scripts/kconfig/symbol.c:928-969 | Unescaping what was escaped gives the string back, whatever follows the closing quote |
| `ConfigFiles.Unquote` | scripts/kconfig/confdata.c:158-172 | The in-place memmove loop replaces the text by the string it stands for, and fails exactly when no unescaped quote ends it |
| `ConfigFiles.SetSymVal` | scripts/kconfig/confdata.c:126-194 | The outcome for every type and text: rejected, left alone, or the value set |
| `ConfigFiles.StringValid` | scripts/kconfig/symbol.c:565-606 | Exactly the decimal numbers without leading zeros, and the hexadecimal numbers with or without 0x, are valid |
| `ConfigFiles.IntExact` | scripts/kconfig/symbol.c:572-584 | The valid texts of an int symbol are the decimal notations of the natural numbers, perhaps after a minus |
| `ConfigFiles.HexExact` | scripts/kconfig/symbol.c:585-593 | Those of a hex symbol are one or more hexadecimal digits, perhaps after 0x or 0X |
| `ConfigFiles.SetValExact` | scripts/kconfig/confdata.c:130-189 | Of a bool or tristate symbol only the first letter counts, and no other letter is accepted; a number must be valid |
| `ConfigFiles.SetQuotedExact` | scripts/kconfig/confdata.c:161-189 | A quoted text is the string it was escaped from, whatever follows |
| `ConfigFiles.ReadOk` | scripts/kconfig/confdata.c:289-375 | Whatever is in a file, no symbol gets a value that its type does not allow |
| `ConfigFiles.LineChangesOne` | scripts/kconfig/confdata.c:314-375 | One line changes at most one symbol, which exists and is named in it |
| `ConfigFiles.UnsetLine` | scripts/kconfig/confdata.c:317-348 | A line "# CONFIG_name is not set", whatever follows, makes a bool or tristate symbol n |
| `ConfigFiles.TrimExact` | scripts/kconfig/confdata.c:350-359 | A value ends at the line end and the carriage return before it |
| `ConfigFiles.LineRoundTrip` | scripts/kconfig/confdata.c:487-508 | Reading the line printed for a symbol sets that symbol to its value and nothing else |
| `ConfigFiles.ReadPrinted` | scripts/kconfig/confdata.c:314-375 | Reading all printed lines applies them in order |
| `ConfigFiles.ConfigRoundTrip` | scripts/kconfig/confdata.c:629-648 | For distinct names and valid values reading restores every value, and no other symbol has one |
| `ConfigFiles.ConfReader.ReadLine` | scripts/kconfig/confdata.c:314-375 | One line, cut up in its buffer, has exactly the specified effect on the table |
| `ConfigFiles.ConfReader.ReadSimple` | scripts/kconfig/confdata.c:289-375 | All values are dropped first, then the file is read line by line |
| `ConfigFiles.GetLine` | scripts/kconfig/confdata.c:217-249 | The next line, with its newline if it has one |
| `ConfigFiles.TrimAt` | scripts/kconfig/confdata.c:350-359 | The line end, and a carriage return before it, are cut off |
| `ConfigFiles.WriteSymbol` | scripts/kconfig/confdata.c:629-648 | The printed line of one symbol |
| `ConfigFiles.WriteAndRead` | scripts/kconfig/confdata.c:629-648 | Writing and reading back through the two imperative halves restores every value |
| `DependencyFixer.FoundIsUsed` | scripts/basic/fixdep.c:223-254 | A word found at an offset is among the words used |
| `DependencyFixer.UsesAre` | scripts/basic/fixdep.c:223-254 | A word is used if and only if CONFIG_ and that word stand at some offset, ending within the file |
| `DependencyFixer.WordUsed` | scripts/basic/fixdep.c:240-252 | The word at an offset is the identifier after CONFIG_ that ends within the file, less _MODULE at its end; CONFIG_MODULE is no use of anything |
| `DependencyFixer.UsedIsWord` | scripts/basic/fixdep.c:240-252 | Nothing else is used |
| `DependencyFixer.StandsIfIn` | scripts/basic/fixdep.c:165-176 | A recorded word stands between newlines in the buffer |
| `DependencyFixer.InIfStands` | scripts/basic/fixdep.c:165-176 | What stands between newlines in the buffer is a recorded word |
| `DependencyFixer.Recorder.IsDefinedConfig` | scripts/basic/fixdep.c:165-176 | The buffer search decides exactly whether the word was recorded |
| `DependencyFixer.Recorder.GrowConfig` | scripts/basic/fixdep.c:149-158 | The buffer has the room asked for and keeps its contents |
| `DependencyFixer.Recorder.DefineConfig` | scripts/basic/fixdep.c:181-188 | The word and a newline are appended |
| `DependencyFixer.Recorder.ClearConfig` | scripts/basic/fixdep.c:193-197 | Afterwards no word is recorded |
| `DependencyFixer.Recorder.UseConfig` | scripts/basic/fixdep.c:202-221 | A word is recorded and its path printed the first time only |
| `DependencyFixer.WordStep` | scripts/basic/fixdep.c:223-235 | Every occurrence covers exactly one aligned word, so scanning words finds the occurrences of the byte search, in order, once |
| `DependencyFixer.Recorder.ParseConfigFile` | scripts/basic/fixdep.c:223-254 | The aligned scan records and prints exactly what the naive search at every offset from 1 on would, whatever lies behind the file |
| `DependencyFixer.FirstUsesOnce` | scripts/basic/fixdep.c:202-221 | Exactly the words used and not seen before are printed, each once |
| `DependencyFixer.FixTarget` | scripts/basic/fixdep.c:299-337 | Over all files of a target each word is printed once, in order of first use |
| `ClockSource.Wrcs.Read` | kernel/wr_clocksource/wr_clocksource.c:119-158 | One read computes the next clock state and its reading in 32-bit arithmetic, negative counters included |
| `ClockSource.Advance` | kernel/wr_clocksource/wr_clocksource.c:136-157 | A reading advances by the ticks since the last one, less whole seconds, modulo 2^32 |
| `ClockSource.ExactAdvance` | kernel/wr_clocksource/wr_clocksource.c:136-157 | It is exact if and only if the whole seconds since the last read are a multiple of 2^32 ticks |
| `ClockSource.MissedSecond` | kernel/wr_clocksource/wr_clocksource.c:136-157 | A clock read at its start and a second later reads 0 both times |
| `ClockSource.Wrcs.ReadAll` | kernel/wr_clocksource/wr_clocksource.c:119-158 | Reads less than a second apart differ by the true number of ticks modulo 2^32, over any run |
| `ClockSource.RoomMeans` | kernel/wr_clocksource/wr_clocksource.c:195-203 | The first loop leaves the number of bits the range allows the multiplier |
| `ClockSource.RoomTight` | kernel/wr_clocksource/wr_clocksource.c:195-203 | One bit more would overflow 64 bits |
| `ClockSource.CalcMultShift` | kernel/wr_clocksource/wr_clocksource.c:189-218 | The largest shift in 1..32 that fits, with its multiplier; shift 0 and the truncated multiplier of shift 1 exactly when shift 1 does not fit |
| `ClockSource.NoShiftFits` | kernel/wr_clocksource/wr_clocksource.c:205-218 | From 1 to 2^31 no shift from 1 on fits; what is returned is 0, although the multiplier for shift 0 would have fitted |
| `ClockSource.FitsMono` | kernel/wr_clocksource/wr_clocksource.c:205-215 | If a shift fits so does every smaller one |
| `ClockSource.FittingConverts` | kernel/wr_clocksource/wr_clocksource.c:189-218 | The multiplier fits 32 bits, cycles * mult stays below 2^64 for every count within maxsec, and the error is at most from/2 per cycle |
| `ClockSource.MultFor` | kernel/wr_clocksource/wr_clocksource.c:209-212 | The rounded multiplier for one shift; the largest intermediate result, before the division, stays below 2^64 |

## Left out

- FinalizeRoot: the condition of an entry is related to its enclosing menus' original conditions; that choice members can gain one more test (`AdoptMember`) makes this one-directional for members of tristate choices. The decision to nest an entry speaks of the two conditions without such tests; how many there are is not stated.
- ReadAll: the counter is not negative; `Read` models the negative branch and its offset, but no property of it is stated.
- ConfigRoundTrip: the comment lines of `conf_write` (heading and menu titles) are not part of the file read back, and choice values are not.
- EvaluateChoice: choice members that a select targets, and the clearing of the choice's user flag in `sym_calc_choice`, are not modelled; a member condition that reads another member of the same choice sees a fixed value.
- CheckTable: choice symbols and their members (`sym_check_choice_deps`) are not part of the graph.
- Expressions: E_LIST, E_RANGE and E_NONE nodes, freeing and sharing of nodes, printing, expr_simplify_unmet_dep.
- Numbers inside comparisons: which strings parse, and to what, is part of the valuation.
- Symbols of unknown, string, int or hex type: their values are fixed while a table of bool and tristate symbols is calculated, as is the value of the modules symbol.
- SYMBOL_WRITE: which symbols are flagged for writing is an input of the walk.
- SYMBOL_CHANGED, MENU_CHANGED, SYMBOL_NEED_SET_CHOICE_VALUES, warnings, random configurations, environment symbols and configuration file names.
- menu_set_type: types are known before finalisation.
- The Kconfig grammar and all front ends: user interface.
- Opening, growing and renaming files: files are sequences of bytes; a short line is compared with CONFIG_ only as far as it goes.
- fixdep: the fixed size of the path buffer, overflow of int counters, and the reading of dependency files (which file names are skipped).
- axusbnet: the host controller's own URB references, statistics, throttling, event work and the throttling of queues; rx_fixup and tx_fixup accept or reject freely.
- Termination of the driver's loops under interleaving.
- wr_clocksource: registration, the timer, and the statistics.
- kernel/wr_nic, kernel/wr_pstats, kernel/coht_vic, kernel/wr_rtu, kernel/wrs_devices, kernel/wbgen-regs, usb-loader, userspace: device access whose correctness rests on hardware, or thin wrappers.
