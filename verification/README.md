# Infinity OS: verified models

Dafny models of the parts of Infinity OS with the most involved invariants, and
proofs about them: the dlmalloc allocator of the user library, the Kconfig
expression rewriter with its menu and dependency code, the SMP call protocol,
the handle tables, module loader and timers of the kernel, and the block reads
of the boot loader. `dafny verify dfyconfig.toml` checks everything. Two small
modules are shared: `Options` and `Digraph`.

## What is modelled

**Allocator** (`MallocBits`, `MallocSizes`, `MallocTrie`, `MallocBins`,
`MallocLayout`, `Malloc`, `MallocRuns`). One segment of a 64-bit build. Memory
is a map from addresses to head and foot words; ghost sets say where chunks
start. Small bins are lists, treebins are bitwise tries whose nodes carry a ring
of equally large chunks, bin maps are 32-bit numbers, and unsigned arithmetic
wraps explicitly. `Heap` performs malloc and free step by step. Its invariant:
the chunks tile the segment, boundary tags describe the neighbours, no two free
chunks touch, and the index has exactly the free chunks other than dv.

**Kconfig expressions** (`KconfigExpr`, `KconfigEq`, `KconfigTransform`,
`KconfigDups`). Values are n, m and y; conjunction is minimum, disjunction
maximum, negation 2 - x. Boolean symbols take only n and y. The duplicate
elimination works on two slots of one shared tree: `ExprTree` holds the tree
and the global transformation counter, slots are paths. Its second half uses a
law of two-valued logic, so the whole loop keeps every value except m; the exact
condition and a counterexample are lemmas. The same goes for comparisons with
negation in `expr_trans_compare`.

**Kconfig menus, dependency check and strings** (`KconfigForest`, `KconfigMenu`,
`KconfigCycles`, `KconfigStrings`). Menu entries are linked by list,
next and parent pointers, kept as maps; a ghost forest says what they mean. The
outcomes of the dependency tests in `menu_finalize` are an arbitrary input. The
cycle check marks symbols as being checked and checked, as the C code does.
String values are unescaped in the line buffer, an array.

**SMP calls** (`SmpCall`, `SmpInvariant`, `SmpTheorems`, `SmpSends`). A state
machine over any number of CPUs with one step for each region under a lock and
each atomic operation: sending with a shared pool, spinning on an empty pool
while handling incoming calls, posting, interrupts that are sent only when
needed, handlers, acknowledgements through a counter on the sender's stack, and
release. A run is any sequence of enabled steps.

**Kernel objects** (`Handles`, `Modules`, `Timers`). Handle tables with bitmap,
flags and callbacks, and the reference counts behind them, where retaining a
handle that has been freed does not bring it back; the retry loop of the module
loader with its recursion stack; the timer queue with the device that is armed
for it. The clock never goes back; time is not bounded.

**Block reads** (`Disk`). A disk has its own driver, which may fail at any time,
or is a partition of another disk.

Calls into code that is not modelled are parameters or arbitrary choices: user
memory writes, driver results, init functions, timer functions, dependency tests
and the passing of time.

## Model

| member | source | states |
|---|---|---|
| `KconfigExpr.CompareIsTri` | 3rdparty/kconfig/expr.c:943-982 | comparing a bool, tristate or built-in symbol with y, m or n as text is comparing tristate values |
| `KconfigExpr.QuotedDiffers` | 3rdparty/kconfig/expr.c:943-982 | two different constant symbols never compare equal as text |
| `KconfigEq.EliminateYnValue` | 3rdparty/kconfig/expr.c:236-317 | constant folding keeps the value under every assignment of n, m and y |
| `KconfigEq.EliminateYnFolds` | 3rdparty/kconfig/expr.c:236-317 | afterwards no operand is a constant y or n; the number of operands drops exactly when there was one, and otherwise nothing changes |
| `KconfigEq.CancelEqFactors` | 3rdparty/kconfig/expr.c:135-167 | cancelling common operands factors both expressions over one and the same common value |
| `KconfigEq.CancelBothSound` | 3rdparty/kconfig/expr.c:169-189 | equality and order of what is left imply equality and order of the original values |
| `KconfigEq.ExprEqSound` | 3rdparty/kconfig/expr.c:194-234 | if expr_eq says yes, the two values are equal under every three-valued assignment |
| `KconfigEq.ExprEqReflexive` | 3rdparty/kconfig/expr.c:194-234 | expr_eq says yes for an expression and itself, although it works by cancelling |
| `KconfigEq.ExprEqKey` | 3rdparty/kconfig/expr.c:194-234 | without y and n as operands, expr_eq says yes if and only if the two differ only in nesting and order of the operands of AND and OR, at any depth |
| `KconfigEq.ExprEqReorders` | 3rdparty/kconfig/expr.c:208-218 | in particular it does not see the order and the grouping of operands |
| `KconfigEq.ExprEqOperands` | 3rdparty/kconfig/expr.c:208-218 | for chains of symbols, negated symbols and comparisons it compares the operands as multisets |
| `KconfigEq.EliminateEqKeys` | 3rdparty/kconfig/expr.c:135-189 | each side keeps exactly the operands that the other does not have, counted with repetitions |
| `KconfigEq.EliminateEqImplies` | 3rdparty/kconfig/menu.c:303-309 | when the second expression cancels to y, the first one implies it: the test that makes an entry a sub-entry |
| `KconfigEq.ExtractEqFactors` | 3rdparty/kconfig/expr.c:853-880 | each step of the extraction moves a common factor of both sides to the accumulator |
| `KconfigEq.ExtractFactors` | 3rdparty/kconfig/expr.c:831-851 | both expressions are the extracted part combined with their own rest |
| `KconfigEq.ExtractKeys` | 3rdparty/kconfig/expr.c:831-880 | exactly the common operands are extracted and the others left, counted with repetitions; a side becomes the neutral constant if and only if the other has all its operands |
| `KconfigTransform.TransformValue` | 3rdparty/kconfig/expr.c:641-776 | expr_transform keeps the value under every assignment; its recursion on its own output ends, by a weight |
| `KconfigTransform.TransformNormalises` | 3rdparty/kconfig/expr.c:641-776 | in the result NOT stands only before symbols other than y, m and n, and no comparison has a boolean symbol on the left and y, m or n on the right |
| `KconfigTransform.TransformFullyNormalIff` | 3rdparty/kconfig/expr.c:641-776 | the result also has no negated quoted constant and no y, m or n on the left of a boolean symbol if and only if the input has no quoted constant below an odd number of negations and no such comparison |
| `KconfigTransform.TransformLeaves` | 3rdparty/kconfig/expr.c:641-776 | one input of each kind that is left as it is |
| `KconfigTransform.TransformFixpoint` | 3rdparty/kconfig/expr.c:641-776 | an expression is of that form if and only if expr_transform leaves it alone |
| `KconfigTransform.TransCompareExact` | 3rdparty/kconfig/expr.c:882-941 | for y and n the result has exactly the truth of the comparison, read with m as the other constant at each leaf |
| `KconfigTransform.TransCompareFaithfulIff` | 3rdparty/kconfig/expr.c:882-941 | it is the comparison of the real value whenever that value is not m, and when it is m exactly if the reading differs from the constant; always so without NOT or without m |
| `KconfigTransform.TransCompareModWitness` | 3rdparty/kconfig/expr.c:882-941 | with NOT and a symbol that is m it is not |
| `KconfigTransform.TransCompareModIff` | 3rdparty/kconfig/expr.c:882-941 | against m it is right if and only if the expression is a symbol or comparison below an even number of NOT, or a junction, negated or not, that is n |
| `KconfigTransform.TransCompareNullIff` | 3rdparty/kconfig/expr.c:882-941 | for a missing expression, which stands for y, the result is right if and only if the constant is not m |
| `KconfigTransform.TransBoolKeepsVisibility` | 3rdparty/kconfig/symbol.c:190-202 | on a transformed expression expr_trans_bool keeps whether the value is n, hence the promoted visibility of a symbol that is not tristate |
| `KconfigTransform.TransBoolRemovesTests` | 3rdparty/kconfig/expr.c:322-346 | no test against n is left on a symbol, and expressions without one are unchanged |
| `KconfigTransform.TransBoolNeedsTransform` | 3rdparty/kconfig/expr.c:322-346 | on an expression that is not transformed the visibility can change |
| `KconfigDups.JoinValue` | 3rdparty/kconfig/expr.c:351-507 | a joined pair has the value of the conjunction or disjunction of the two, under every assignment |
| `KconfigDups.JoinShape` | 3rdparty/kconfig/expr.c:351-507 | a join has no more operands than the first of the pair and stays an operand |
| `KconfigDups.JoinFinds` | 3rdparty/kconfig/expr.c:351-507 | the pairs that the join is meant to find are found: copies, exhaustive and contradictory comparisons of a tristate symbol |
| `KconfigDups.JoinFindsRepeated` | 3rdparty/kconfig/expr.c:351-507 | operands that differ only in nesting and order are joined to one of them |
| `KconfigDups.JoinFindsSymbol` | 3rdparty/kconfig/expr.c:351-507 | found in both orders: a symbol together with a test for y, not n or not m, and a boolean symbol or its negation |
| `KconfigDups.JoinedValue` | 3rdparty/kconfig/expr.c:509-559 | writing the join into one slot and the neutral constant into the other keeps the value of the chain |
| `KconfigDups.ContradictionExact` | 3rdparty/kconfig/expr.c:561-615 | cutting an operand to the dominating constant keeps the value of the chain if and only if that value is not m |
| `KconfigDups.ContradictsIff` | 3rdparty/kconfig/expr.c:579-610 | a chain in the form of expr_transform is cut if and only if the negations of all its operands are operands of the other side, for both junctions |
| `KconfigDups.NegatedContradicts` | 3rdparty/kconfig/expr.c:579-610 | in particular next to its own negation |
| `KconfigDups.ContradictionModWitness` | 3rdparty/kconfig/expr.c:561-615 | a chain with value m that has value n after the cut |
| `KconfigDups.TwoValuedKept` | 3rdparty/kconfig/expr.c:617-639 | what is kept unless the value is m is kept under every assignment without m |
| `KconfigDups.ExprTree.EliminateDups1` | 3rdparty/kconfig/expr.c:509-559 | on two slots of one tree: only the chain changes, by joins that keep its value; the counter grows exactly when a join was made; ends because operands get fewer |
| `KconfigDups.ExprTree.JoinOperands` | 3rdparty/kconfig/expr.c:509-559 | the same for two operands, with the duplicates inside the first one removed before |
| `KconfigDups.ExprTree.EliminateDups2` | 3rdparty/kconfig/expr.c:561-615 | on two slots of one tree: only cuts of contradicting operands, counted |
| `KconfigDups.ExprTree.CutOperand` | 3rdparty/kconfig/expr.c:561-615 | the same for one operand and one node of its chain |
| `KconfigDups.ExprTree.EliminateDups` | 3rdparty/kconfig/expr.c:617-639 | the whole loop ends; the value is kept unless it is m, and the form of expr_transform is kept; no pair that could be joined or cut is left; operands do not get more; the global counter is restored |
| `KconfigDups.CombineDeps` | 3rdparty/kconfig/menu.c:264-266 | an inherited dependency and an own one become one that has the value of both unless that is m, in the form of expr_transform if the inherited one was, with nothing left to join or cut |
| `KconfigDups.FinalizeVisible` | 3rdparty/kconfig/menu.c:264-280 | the visibility of a property has the value of parent, entry and own condition together unless that is m; for a symbol that is not tristate it is n exactly when that is n, and no test against n is left |
| `KconfigForest.HoistPre` | 3rdparty/kconfig/menu.c:362-371 | moving sub-entries of promptless entries up keeps the pre-order |
| `KconfigForest.HoistPrompted` | 3rdparty/kconfig/menu.c:362-371 | afterwards every entry with sub-entries has a prompt |
| `KconfigForest.HoistKeeps` | 3rdparty/kconfig/menu.c:362-371 | an entry with a prompt keeps exactly what is below it |
| `KconfigForest.TakesLongestRun` | 3rdparty/kconfig/menu.c:295-315 | an entry takes the longest run of following siblings for which the tests hold |
| `KconfigForest.Arranged` | 3rdparty/kconfig/menu.c:231-391 | the arrangement on forests keeps the pre-order |
| `KconfigMenu.MenuTree.Finalize` | 3rdparty/kconfig/menu.c:231-391 | ends, and for all outcomes of its dependency tests the pointers hold exactly the arrangement defined on forests; the pre-order of the entries is kept, all parent links are right, all sub-entries prompted, and no other entry is touched |
| `KconfigMenu.MenuTree.FinalizeKids` | 3rdparty/kconfig/menu.c:288-289 | the loop over the sub-entries, whose next pointers change under way, arranges each of them |
| `KconfigMenu.MenuTree.Absorb` | 3rdparty/kconfig/menu.c:290-321 | the following siblings that the tests put below the entry become its sub-entries, arranged, in order and with the right parent |
| `KconfigMenu.MenuTree.AbsorbAll` | 3rdparty/kconfig/menu.c:295-315 | the loop over the siblings: what is taken, what is left and the last one taken |
| `KconfigMenu.MenuTree.HoistKids` | 3rdparty/kconfig/menu.c:322-372 | the sub-entries are exactly the hoisted ones |
| `KconfigMenu.MenuTree.HoistOne` | 3rdparty/kconfig/menu.c:362-371 | the pointer surgery for one promptless entry |
| `KconfigMenu.MenuTree.Walk` | 3rdparty/kconfig/confdata.c:465-543 | the walk along list, next and parent pointers visits every entry once, in pre-order, and ends |
| `KconfigMenu.MenuTree.Climb` | 3rdparty/kconfig/confdata.c:535-542 | the way up ends at the next entry in pre-order or after the last one |
| `KconfigMenu.MenuTree.FinalizeAndWalk` | 3rdparty/kconfig/zconf.tab.c:2242 | however the menus were rearranged, the configuration is written in the order of the source text |
| `Digraph.TopologicalHasNoCycle` | 3rdparty/kconfig/symbol.c:859-895 | an order in which everything comes after what it depends on excludes cycles reachable from its members |
| `KconfigCycles.Checker.CheckDeps` | 3rdparty/kconfig/symbol.c:859-895 | ends; a symbol that is returned is on the stack and lies on a cycle; without an error the symbol is finished after all it depends on; with an empty stack nothing is returned |
| `KconfigCycles.Checker.CheckSymDeps` | 3rdparty/kconfig/symbol.c:800-823 | the same for all dependencies of a symbol |
| `KconfigCycles.Checker.CheckExpr` | 3rdparty/kconfig/symbol.c:769-797 | the same for all symbols of an expression |
| `KconfigCycles.Checker.CheckAll` | 3rdparty/kconfig/zconf.tab.c:2243-2246 | the error count grows if and only if the dependencies lead from one of the symbols into a cycle |
| `KconfigCycles.UsesOccur` | 3rdparty/kconfig/symbol.c:769-797 | the symbols that are looked at are exactly those whose renaming changes the expression |
| `KconfigCycles.UsesDecide` | 3rdparty/kconfig/symbol.c:769-797 | they decide its value: two assignments that agree on them give the same |
| `KconfigCycles.DepsOccur` | 3rdparty/kconfig/symbol.c:800-823 | a symbol depends on exactly the symbols that occur in its reverse dependency, a default value or the condition of a property, where choices and selects do not count |
| `KconfigCycles.DepsDecide` | 3rdparty/kconfig/symbol.c:800-823 | its dependencies decide the value of each of these expressions |
| `KconfigCycles.NegatedCycle` | 3rdparty/kconfig/symbol.c:769-823 | two symbols that depend on each other's negation are a recursive dependency |
| `KconfigStrings.RoundTrip` | 3rdparty/kconfig/confdata.c:502-516 | decoding the escaped string gives the string back, whatever follows the closing quote |
| `KconfigStrings.EscapeIsInjective` | 3rdparty/kconfig/confdata.c:502-516 | different strings are written differently |
| `KconfigStrings.EscapeLength` | 3rdparty/kconfig/confdata.c:502-516 | quotes and backslashes take one character more, all others none |
| `KconfigStrings.WriteString` | 3rdparty/kconfig/confdata.c:502-516 | the loop over stretches without special characters writes the escaped string |
| `KconfigStrings.UnescapeInPlace` | 3rdparty/kconfig/confdata.c:124-137 | the in-place loop finds the closing quote if there is one and leaves the decoded C string in the buffer; also when the last character is a backslash, where the loop steps over the moved terminator and stops at the old one |
| `KconfigStrings.DropFirst` | 3rdparty/kconfig/confdata.c:132 | moving the rest of the string down by one, the terminator included |
| `KconfigStrings.LineRoundTrip` | 3rdparty/kconfig/confdata.c:254-283 | a string without line end comes back from its line |
| `KconfigStrings.ReadString` | 3rdparty/kconfig/confdata.c:254-283 | reading a line for a string symbol that fits the buffer gives exactly the string it assigns, or none |
| `KconfigStrings.WriteAndRead` | 3rdparty/kconfig/confdata.c:254-283 | writing a string value and reading the line back in place gives the string |
| `MallocBits.LeastBitIsLowest` | 3rdparty/lib/dlmalloc.c:2782 | x & -x is the lowest set bit |
| `MallocBits.LeftBitsAbove` | 3rdparty/lib/dlmalloc.c:2785 | left_bits of one bit selects exactly the bits above it |
| `MallocBits.Bit2IdxInverts` | 3rdparty/lib/dlmalloc.c:2820-2828 | the portable bit-to-index computation inverts idx2bit |
| `MallocSizes.TreeIndexBrackets` | 3rdparty/lib/dlmalloc.c:2733-2764 | compute_tree_index puts every large size between the smallest sizes of its bin and of the next |
| `MallocSizes.TreeIndexIsBin` | 3rdparty/lib/dlmalloc.c:2733-2749 | the shifts and masks compute the bin defined by doubling |
| `MallocSizes.BinOrder` | 3rdparty/lib/dlmalloc.c:2733-2749 | larger bins hold larger sizes |
| `MallocSizes.SharedPrefix` | 3rdparty/lib/dlmalloc.c:2757-2759 | all sizes of a bin share the leading bits that the walk skips |
| `MallocSizes.WalkBits` | 3rdparty/lib/dlmalloc.c:3499-3503 | the walk variable shows the bits of the size one after the other |
| `MallocTrie.InsertOk` | 3rdparty/lib/dlmalloc.c:3484-3533 | insertion keeps the trie: shared prefixes, unique sizes, one ring per size |
| `MallocTrie.InsertCount` | 3rdparty/lib/dlmalloc.c:3484-3533 | insertion adds exactly the one chunk |
| `MallocTrie.UnlinkOk` | 3rdparty/lib/dlmalloc.c:3552-3621 | removal keeps the trie, also when a node is replaced by a leaf below it |
| `MallocTrie.UnlinkCount` | 3rdparty/lib/dlmalloc.c:3552-3621 | removal takes away exactly the one chunk |
| `MallocTrie.LeastSizeIsLeast` | 3rdparty/lib/dlmalloc.c:4223-4230 | the walk that goes left whenever possible meets the smallest size of the trie |
| `MallocTrie.SeenOrRight` | 3rdparty/lib/dlmalloc.c:4194-4211 | a size that fits is at the node, on the way of nb, or not below the smallest of the untaken right subtree |
| `MallocTrie.RightOfIsLarger` | 3rdparty/lib/dlmalloc.c:4204-4207 | every size in a right subtree left behind is larger than all that come later on the way |
| `MallocBins.Bins.InsertSmall` | 3rdparty/lib/dlmalloc.c:3411-3427 | the chunk becomes the first of its list, the map bit says that the list is not empty, and exactly this chunk is added |
| `MallocBins.Bins.UnlinkSmall` | 3rdparty/lib/dlmalloc.c:3430-3447 | exactly this chunk is taken out, and the map bit is cleared when it was the last |
| `MallocBins.Bins.UnlinkFirstSmall` | 3rdparty/lib/dlmalloc.c:3450-3464 | the same for the first chunk of a list |
| `MallocBins.Bins.InsertLarge` | 3rdparty/lib/dlmalloc.c:3484-3533 | the trie of the right bin gets exactly this chunk, all bins stay tries, the map bit is set |
| `MallocBins.InsertByBits` | 3rdparty/lib/dlmalloc.c:3499-3532 | the descent along the bits builds the inserted trie, within the bits that are left |
| `MallocBins.Bins.UnlinkLarge` | 3rdparty/lib/dlmalloc.c:3552-3621 | exactly this chunk leaves its bin, and the map bit is cleared when the bin becomes empty |
| `MallocBins.ReplaceByLeaf` | 3rdparty/lib/dlmalloc.c:3566-3592 | the leaf found by going right first is cut off and takes the place of the node |
| `MallocBins.BetterFit` | 3rdparty/lib/dlmalloc.c:4196-4201 | the unsigned comparison of remainders selects exactly the better fits |
| `MallocBins.BestAlongBits` | 3rdparty/lib/dlmalloc.c:4190-4212 | the first loop: the best node on the way and the deepest untaken right subtree cover everything that fits |
| `MallocBins.BestAlongLeft` | 3rdparty/lib/dlmalloc.c:4223-4230 | the second loop finds the smallest of a subtree |
| `MallocBins.NextBin` | 3rdparty/lib/dlmalloc.c:4213-4221 | the bin-map search finds the lowest marked bin above a given one |
| `MallocBins.Bins.BestLarge` | 3rdparty/lib/dlmalloc.c:4184-4230 | the result is a smallest chunk of all treebins that fits; none if and only if none fits |
| `MallocBins.Bins.LeastLarge` | 3rdparty/lib/dlmalloc.c:4255-4271 | the result is a smallest chunk of all treebins |
| `MallocBins.Bins.RemainderlessBin` | 3rdparty/lib/dlmalloc.c:4623-4628 | the bin of the request or the next one, if one of them is not empty |
| `MallocBins.Bins.NextSmallBin` | 3rdparty/lib/dlmalloc.c:4639-4647 | the next small bin that is not empty |
| `MallocLayout.TakeFrontSound` | 3rdparty/lib/dlmalloc.c:4241-4245 | splitting a free chunk keeps the tiling and the boundary tags |
| `MallocLayout.TakeWholeSound` | 3rdparty/lib/dlmalloc.c:4239-4240 | taking a whole free chunk does, too |
| `MallocLayout.TakeTopSound` | 3rdparty/lib/dlmalloc.c:4702-4711 | so does splitting top |
| `MallocLayout.MergeSound` | 3rdparty/lib/dlmalloc.c:4755-4806 | joining a freed chunk with its free neighbours keeps the tiling, the tags, and that no two free chunks border on each other |
| `MallocLayout.MergeTopSound` | 3rdparty/lib/dlmalloc.c:4776-4787 | so does giving it to top |
| `MallocLayout.ByteInChunk` | 3rdparty/lib/dlmalloc.c:3129-3140 | every byte of the segment below top belongs to a chunk |
| `MallocLayout.ChunksApart` | 3rdparty/lib/dlmalloc.c:3129-3140 | no two chunks overlap, and all lie in the segment |
| `MallocLayout.AllFreeIsTop` | 3rdparty/lib/dlmalloc.c:4724-4831 | when nothing is in use, the segment is one piece again |
| `Malloc.Heap.constructor` | 3rdparty/lib/dlmalloc.c:3725-3748 | a new segment is one top chunk with an empty index |
| `Malloc.Heap.ReplaceDv` | 3rdparty/lib/dlmalloc.c:3470-3479 | the old dv goes to its small bin |
| `Malloc.Heap.UseDv` | 3rdparty/lib/dlmalloc.c:4682-4700 | dv is used from its front; what is left is dv, or there is none |
| `Malloc.Heap.RequestSizeIsLeast` | 3rdparty/lib/dlmalloc.c:2094-2102 | the padded size is the least aligned chunk size with room for the request and its overhead |
| `Malloc.Decision` | 3rdparty/lib/dlmalloc.c:4232-4233 | the unsigned comparison with dv takes the chunk exactly when it is strictly tighter or dv is too small |
| `Malloc.Heap.BestBinned` | 3rdparty/lib/dlmalloc.c:4184-4233 | a best fit of all free chunks, or none if dv fits at least as well or nothing fits |
| `Malloc.Heap.TmallocLarge` | 3rdparty/lib/dlmalloc.c:4184-4252 | serves a large request with it, what is left goes to the index and dv stays; or leaves everything as it is |
| `Malloc.Heap.TmallocSmall` | 3rdparty/lib/dlmalloc.c:4255-4290 | serves a small request with the smallest chunk of all treebins; what is left of it is the new dv, or dv stays if nothing is left |
| `Malloc.Heap.Remainderless` | 3rdparty/lib/dlmalloc.c:4623-4637 | a small request takes a chunk without remainder if there is one |
| `Malloc.Heap.Malloc` | 3rdparty/lib/dlmalloc.c:4588-4722 | fails if and only if neither a free chunk nor top has room, then changing nothing; otherwise there is exactly one more live chunk, of size at least nb and below nb plus a minimal chunk, chosen by the rules; top is used only when no free chunk fits; of the free chunks one is used and at most its rest is new; dv becomes its own rest, the rest of a chunk taken for a small request that dv was too small for, or stays; the index stays exactly the free chunks other than dv and top |
| `Malloc.Heap.Free` | 3rdparty/lib/dlmalloc.c:4724-4831 | the checks never fail; exactly this chunk stops being live; it ends up in one free chunk with its free neighbours, or in top, and no other free chunk changes; dv is that chunk if it contains the old dv, nothing if that went to top, and else as before |
| `MallocRuns.BlocksApart` | 3rdparty/lib/dlmalloc.c:2087-2088 | the memory of two live requests does not overlap |
| `MallocRuns.BlockApartFromHead` | 3rdparty/lib/dlmalloc.c:2087-2088 | nor does it touch the head of any chunk |
| `MallocRuns.Run` | 3rdparty/lib/dlmalloc.c:4588-4831 | over any sequence of requests and releases: a request fails exactly when there is no room and is otherwise answered with memory that no outstanding block touches; the live chunks are exactly those of the outstanding blocks, the segment keeps its size, and when all is released it is one piece again |
| `MallocRuns.Step` | 3rdparty/lib/dlmalloc.c:4588-4831 | the same for one request or release |
| `SmpInvariant.InvInit` | source/kernel/smp.c:351-379 | the initial state satisfies the invariant |
| `SmpInvariant.InvStep` | source/kernel/smp.c:62-348 | every atomic step of every CPU keeps it, for any number of CPUs |
| `SmpInvariant.InvRun` | source/kernel/smp.c:62-348 | so does every run |
| `SmpTheorems.ExactlyOnePlace` | source/kernel/smp.c:62-157 | each call structure is in exactly one of pool, one queue and one handler, or only held by its one sender |
| `SmpTheorems.NoDuplicates` | source/kernel/smp.c:62-177 | no structure is twice in the pool or in a queue |
| `SmpTheorems.CountIsHolds` | source/kernel/smp.c:97-157 | the reference count is the number of holds of destination and sender |
| `SmpTheorems.CountersStayLive` | source/kernel/smp.c:340-348 | whenever a counter on a sender's stack can be decremented, that sender is still before the end of its wait loop and cannot leave it yet, and the call has not been acknowledged before |
| `SmpTheorems.AcknowledgedExactlyOnce` | source/kernel/smp.c:130-152 | when the handler is done, a synchronous call has been acknowledged exactly once and no other one at all |
| `SmpTheorems.LeavesAfterAllAcks` | source/kernel/smp.c:236-256 | a sender leaves its wait only when nothing owes it an acknowledgement, with the status that was delivered |
| `SmpTheorems.NoLostCall` | source/kernel/smp.c:115-177 | a non-empty queue is announced, and an announced one has an interrupt pending or a handler running |
| `SmpTheorems.NoDeadlock` | source/kernel/smp.c:66-87 | in every state that is not quiet some step other than idle spinning is enabled, also with an empty pool |
| `SmpTheorems.WorkDecreases` | source/kernel/smp.c:62-348 | every step but idle spinning and a new send reduces the work that is left |
| `SmpTheorems.IdleSpinReturns` | source/kernel/smp.c:66-87 | an idle spin round changes nothing |
| `SmpTheorems.RunsComplete` | source/kernel/smp.c:62-348 | runs without new sends are no longer than that work plus twice their idle spins, and only idle spinning is left exactly when all is quiet |
| `SmpTheorems.QuietMeansPooled` | source/kernel/smp.c:97-107 | when all is quiet, every structure is back in the pool with count 0 |
| `SmpSends.SendReachesAll` | source/kernel/smp.c:202-322 | in every run after its start a send has queued a prefix of its destinations, in order; when it is over, exactly one call to each of them, and if it was synchronous each has acknowledged once |
| `SmpSends.BroadcastReachesAll` | source/kernel/smp.c:275-322 | a broadcast that is over has called every running CPU but its own, and none else |
| `SmpSends.HandledInOrder` | source/kernel/smp.c:124-177 | in every run a CPU handles its calls in the order in which they were queued, and leaves none out |
| `SmpSends.InterruptsAreNeeded` | source/kernel/smp.c:162-177 | a CPU gets no needless interrupt: after the first at most one for each time its queue was found empty |
| `SmpSends.StatusIsAnswer` | source/kernel/smp.c:130-256 | the status that a synchronous sender reads is the one its destination acknowledged with, or else what the called function returned |
| `Modules.Loader.constructor` | source/kernel/module.c:447-457 | the kernel is ready, all boot modules are loaded, nothing is referenced |
| `Modules.Loader.Find` | source/kernel/module.c:135-145 | finds a module exactly when it is in the list |
| `Modules.Loader.CheckDeps` | source/kernel/module.c:207-223 | the first dependency that is missing or not ready, a bad name, or that all are ready |
| `Modules.Loader.FinishModule` | source/kernel/module.c:192-254 | init runs only when all dependencies are ready, and for every outcome at most once and after those of its dependencies; the state is changed exactly as the status says; name and dependency are set exactly when a dependency is not ready, not when relocation or init itself answers that a library is missing |
| `Modules.Loader.Attempt` | source/kernel/module.c:469-486 | what one try leads to: a dependency to finish, or an outcome that the modules explain |
| `Modules.Loader.AddReferences` | source/kernel/module.c:241-247 | one reference for each occurrence of a dependency |
| `Modules.OccurrencesCount` | source/kernel/module.c:241-247 | counted in the list of dependencies with repetitions |
| `Modules.Loader.FinishBoot` | source/kernel/module.c:464-487 | ends; the modules in state DEPS are exactly those on the stack, also at a fatal; for every outcome inits have run once each and in order; each fatal is explained by a missing module, a cycle, a broken module, or one whose own code answers that a library is missing: then a cycle is reported if a dependency had to be finished first, and an unset variable is read if none had to |
| `Modules.Loader.InitAll` | source/kernel/module.c:530-542 | all modules become ready if and only if the dependencies are complete and acyclic and no module fails; a reported cycle is a cycle if no module's own code answers that a library is missing; for every outcome each init has run at most once and after its dependencies |
| `Modules.MisledByInit` | source/kernel/module.c:464-487 | modules without a cycle for which one is reported |
| `Handles.FirstZero` | source/kernel/object.c:218-220 | the first clear bit |
| `Handles.Objects.Create` | source/kernel/object.c:131-139 | a new handle has one reference |
| `Handles.Objects.Attach` | source/kernel/object.c:209-245 | the first free slot holds the handle; a full table or a failed write changes nothing |
| `Handles.Objects.Open` | source/kernel/object.c:375-390 | a handle that cannot be attached is gone again |
| `Handles.Objects.Lookup` | source/kernel/object.c:181-201 | a lookup takes a reference; a failed one changes nothing |
| `Handles.Objects.Release` | source/kernel/object.c:163-172 | one reference less, and the handle is freed with the last one |
| `Handles.Objects.Detach` | source/kernel/object.c:261-288 | the slot is empty, one reference is released, and the handle is freed with the last one; the callbacks of the slot are removed |
| `Handles.Objects.Duplicate` | source/kernel/object.c:1149-1204 | all statuses; the destination, emptied before, holds the same handle without flags; the tables stay consistent if and only if it is not the last reference that is duplicated onto its own slot |
| `Handles.OwnSlot` | source/kernel/object.c:1149-1204 | such a call: a handle is opened and duplicated onto its own slot, which then holds a freed handle |
| `Handles.Objects.SetFlags` | source/kernel/object.c:1097-1125 | inheritable only for transferrable handles |
| `Handles.Objects.Register` | source/kernel/object.c:1008-1034 | a callback takes a reference; a slot, type or wait function that refuses it leaves all counts as they were |
| `Handles.ArgStatusMeans` | source/kernel/object.c:972-984 | arguments are accepted if and only if all five checks pass, and each error tells which one failed |
| `Handles.Objects.Callback` | source/kernel/object.c:967-1050 | the status in all cases; bad arguments change nothing, otherwise the callback of the thread for this event is updated, removed or registered, and no other changes |
| `Handles.Objects.Unregister` | source/kernel/object.c:250-256 | removing a callback does not release its reference |
| `Handles.Objects.ThreadCleanup` | source/kernel/object.c:644-655 | exactly the callbacks of the thread are removed |
| `Handles.InheritableIsBit0` | source/kernel/include/kernel/object.h:52 | the flag is bit 0 |
| `Handles.Objects.InheritInto` | source/kernel/object.c:447-479 | when a handle is inherited, with which flags, and why not |
| `Handles.Objects.CreateMapped` | source/kernel/object.c:502-509 | the pairs before the first one that cannot be inherited are inherited and nothing else is; the status is that of the first failure, in terms of the parent table and the map |
| `Handles.Objects.InheritAll` | source/kernel/object.c:510-518 | the child has exactly the inheritable handles, or for a clone the transferrable ones |
| `Handles.Objects.ProcessCreate` | source/kernel/object.c:493-526 | both ways, exactly the mapped or the inheritable handles, and none at all for count 0 |
| `Handles.Objects.ProcessExec` | source/kernel/object.c:538-622 | a failure is that of the first pair that cannot be inherited and leaves table, counts and calls unchanged; otherwise the table is exactly the mapped or inheritable handles without callbacks, detached and attached again |
| `Handles.Objects.Rollback` | source/kernel/object.c:569-576 | a failed map releases exactly what was taken |
| `Handles.Objects.Cleanup` | source/kernel/object.c:411-438 | a process that ends without callbacks gives back exactly one reference for each slot |
| `Handles.Objects.References` | source/kernel/object.c:209-288 | the count is slots, live callbacks, references held elsewhere and callbacks removed; it is the first three if and only if no callback of the handle was ever removed |
| `Handles.Leak` | source/kernel/object.c:250-256 | a callback is registered and removed and the handle closed: one reference is left that nothing holds |
| `Handles.Step` | source/kernel/object.c:131-655 | what each operation does to tables, counts and references, and that it keeps them consistent if and only if it is not the last reference that is duplicated onto its own slot |
| `Handles.Run` | source/kernel/object.c:131-655 | every run is a sequence of these steps from empty tables; at its end bitmap bit is occupancy, inheritable only on occupied transferrable slots, attach minus detach calls are the slots, and the count is exact; a run goes on until such a duplicate |
| `Timers.InsertSorted` | source/kernel/time.c:192-206 | inserting before the first later target keeps the list sorted, ties in start order |
| `Timers.ExpiredOk` | source/kernel/time.c:231-237 | in a sorted list the expired timers are a prefix |
| `Timers.Queue.StartUnsafe` | source/kernel/time.c:185-206 | the timer gets its target and its place |
| `Timers.Queue.Prepare` | source/kernel/time.c:139-142 | the device is armed for the first target, or 1 ns from now if that has passed |
| `Timers.Queue.Start` | source/kernel/time.c:294-328 | a timer that was stopped is added in order, with its length and mode, as one new start that waits; the device is never armed later than the first target, or 1 ns after arming when that was overdue; if it was set exactly for the first timer, and off without timers, it still is |
| `Timers.Queue.Stop` | source/kernel/time.c:333-366 | exactly this timer is removed, on this CPU or another, and the device is still in time; on this CPU it stays exact, for another CPU it is not touched |
| `Timers.Queue.FireAll` | source/kernel/time.c:230-253 | the loop with the next timer looked up in advance |
| `Timers.Queue.Tick` | source/kernel/time.c:217-277 | exactly the timers due at the sampled time fire, once each and in order, and exactly their starts become fired, with their targets; periodic ones are back with their restart time plus their period as target, other targets are unchanged; only later targets are left; preemption as their functions ask; afterwards the device is exact |
| `Timers.Queue.Fates` | source/kernel/time.c:185-366 | each start of a timer has fired once and not before its target, waits with a target after the last tick, or was stopped before it fired |
| `Timers.Step` | source/kernel/time.c:185-366 | one start, stop or tick does exactly this |
| `Timers.StartsFireInTime` | source/kernel/time.c:185-366 | in every run a start has, at each later moment, fired once and not before its time plus length, waits with a target after the last tick, or was stopped |
| `Timers.TickCounts` | source/kernel/time.c:230-253 | a tick adds one firing of each timer that is due and none of any other, and one start if the timer is periodic |
| `Timers.Lifetime` | source/kernel/time.c:217-328 | in every run a timer that is started and not touched again: a periodic one stays in the list and has been started once more for each firing; any other one is not started again, fires at most once, and is in the list if and only if it has not fired |
| `Timers.Run` | source/kernel/time.c:185-366 | every run is a sequence of these steps under a clock that does not go back; at each moment every start has fired in time, waits or was stopped |
| `Disk.ReadShifted` | 3rdparty/LAOS/source/disk.c:121-124 | when each of the two is beyond the end, and that a read of a partition and one of its parent, shifted by the first block, succeed and deliver the same bytes whenever the driver serves all requests |
| `Disk.AddPartition` | 3rdparty/LAOS/source/disk.c:143-158 | the result is a disk whose blocks are a piece of its parent if and only if it ends inside it; add_partition itself does not check |
| `Disk.AcceptedIsInside` | 3rdparty/LAOS/source/partitions/msdos.c:40-50 | a partition record that is accepted ends inside its disk unless the 32-bit end wraps around; on disks of less than 2^32 blocks exactly then |
| `Disk.AcceptedIff` | 3rdparty/LAOS/source/partitions/msdos.c:40-50 | without wrap-around the accepted records are exactly the used ones with a proper boot flag that begin and end inside the disk |
| `Disk.ReadWrapped` | 3rdparty/LAOS/source/partitions/msdos.c:40-50 | a record that is accepted because its end wraps around, on every driver's disk of more than one and less than 2^32 blocks: reading one byte of the partition asks the driver for the block behind the end |
| `Disk.ReadBlocks` | 3rdparty/LAOS/source/disk.c:121-124 | through any number of partitions exactly one request reaches the driver, for the shifted blocks; it succeeds if and only if the driver serves it, and then delivers the bytes of the disk |
| `Disk.ReadHead` | 3rdparty/LAOS/source/disk.c:76-87 | the partial transfer up to a block boundary, or all of it; it fails only with the driver |
| `Disk.ReadAligned` | 3rdparty/LAOS/source/disk.c:88-109 | full blocks and the rest, requested in order up to the block of the last byte or the first failure of the driver |
| `Disk.Read` | 3rdparty/LAOS/source/disk.c:49-113 | beyond the end exactly when the range leaves the disk, failed exactly when the driver fails a request, otherwise exactly the bytes from offset to offset plus count; nothing else in the buffer changes in any case; the blocks from that of the first byte to that of the last are requested once each and in order, up to the first failure, all inside the driver's disk |

## Left out

- System allocation, trimming, memory mapping, several segments, mspaces, footers and locks of the allocator: a request that does not fit fails.
- Assembly and compiler-builtin variants of the allocator's bit macros: the portable forms are modelled.
- The parent pointers of treebin nodes and the fd and bk pointers of rings and small bins: tries and rings are values, updated along a path.
- realloc, calloc, memalign and statistics of the allocator.
- In-place updates of the expression functions other than duplicate elimination: they are functions on trees, so sharing of nodes between expressions is not captured.
- List and range nodes, string, int and hex comparisons by order, and choice groups of Kconfig.
- The order of menu entries and the rewriting of their dependencies are modelled apart: `menu_finalize` on links takes the outcomes of the tests as given; reverse dependencies and choices are not modelled.
- KconfigStrings.ReadString: assignments of string symbols only; tristate, int and hex values are not modelled.
- The lexer, parser, user interfaces and file handling of Kconfig.
- SMP calls from a handler, and the boot of secondary CPUs.
- Waiting for several events at once and the delivery of events to threads.
- Locks of handle tables and timers: each locked region is one step.
- Reading, mapping and relocating module images, and loading modules after boot; what a read of an unset variable leads to.
- Timers.Queue.Tick: does not model timer functions that start or stop timers of this CPU, which would wait for the lock that timer_tick holds, or the overflow of 64-bit times.
- Disk.Read: does not model disks without a read operation, or the overflow of 64-bit offsets.
- Reading partition tables, other than the check of one record.
- Everything else in the kernel, the loader and the tools: mostly plumbing, tables and text output.
