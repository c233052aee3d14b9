# Proofs about seven algorithms of GCC 4.3

A Dafny model of seven self-contained parts of the compiler, each proved to do what its comments and assertions promise.

- **Sparse bitmaps** (`gcc/bitmap.c`, `gcc/bitmap.h`): sets of bit numbers as doubly linked lists of 128-bit elements, with a
  search cursor and a shared list of lists of free elements. The lists are real linked objects and the operations rewrite them
  in place. What a list means is the sequence of its entries (`Contents`), what that sequence means is the set of bit
  numbers it `Has`; equal sets have equal sequences. Files `Bitmap*.dfy`.
- **Basic-block reordering** (`gcc/bb-reorder.c`): traces are collected in rounds, loops rotated, traces connected through `aux`.
  What weights and sizes decide is given as functions, so every result holds whatever they are, and the results say where a trace
  stops and what follows what in terms of them. Files `BlockChains`, `BlockReorder`, `TraceConnection`.
- **Alias oracle and alias sets** (`gcc/alias.c`): the recursive comparison of two addresses with a semantics in which symbols and
  labels are objects of their own, and the table of subset relations. Files `AddressRtx`, `AliasOracle`,
  `AliasMasks`, `AliasSets`.
- **Automatic increments** (`gcc/auto-inc-dec.c`): a backward scan of a block that merges additions of constants and registers into
  memory references. Meaning is given by running a block on an arbitrary machine. Files `AutoIncTable`, `AutoIncBlock`, `AutoIncPass`.
- **Branch target registers** (`gcc/bt-load.c`): reaching definitions, the lists that attach uses to them, live ranges and moving
  a definition up the dominators. Files `ReachingDefs`, `BtrUses`, `LiveRanges`.
- **Powers with integer exponents** (`gcc/builtins.c`): the power tree, the cost and the expansion. Files `PowiTable`,
  `PowiExpansion`.
- **Pool allocator** (`gcc/alloc-pool.c`). File `AllocPool`.

## Model

| member | source | states |
|---|---|---|
| TraceConnection.ReorderBasicBlocks | gcc/bb-reorder.c:1879-1924 | following `aux` from the first trace visits every block reachable from the entry exactly once; every other block visited is a copy of a reachable one; a single entry block that was also next in the chain stays first; when blocks are partitioned the layout changes between hot and cold at most once |
| TraceConnection.VerifyHotColdBlockGrouping | gcc/bb-reorder.c:1845-1873 | reports an error exactly when the layout changes partition more than once |
| TraceConnection.ConnectTraces | gcc/bb-reorder.c:898-1153 | every trace is connected exactly once, the first trace stays first, and with partitioning all traces of the first partition come before all of the other; over the state it is given, a trace that can fall into some later trace of the partition being connected falls into the very next one, and where a run starts with another trace than the first, every later trace of that partition that can fall into it is reached from it by falls all the way |
| TraceConnection.FindPredecessors | gcc/bb-reorder.c:955-996 | each trace put in front falls into the one behind it, and no trace left of the partition falls into the foremost, unless that is the first trace of all |
| TraceConnection.FindSuccessors | gcc/bb-reorder.c:1000-1136 | from the given trace on each one that can fall into a trace left of the partition falls into the next; each next one is fallen into or stands behind a copy; the last can fall into none left, and without partitioning either ends with a copy or has no copyable edge that is worth it |
| BlockReorder.FindTraces | gcc/bb-reorder.c:225-287 | after all rounds both heaps are empty, the traces are disjoint chains of one partition each that hold every reachable block, and each trace went on as long as it could: its last block has no suitable edge to a block that was left to it or to a later trace, or the best one leads to a block better duplicated, or the best edge of one of its blocks leads back into it |
| BlockReorder.FindTraces1Round | gcc/bb-reorder.c:429-751 | one round keeps the traces disjoint chains that went on as long as they could and every reachable block visited or seeded in a heap; each new trace has a block found hot enough for the round, each block left was found not hot enough, and the last round leaves nothing in the heap |
| BlockReorder.SelectSuccessor | gcc/bb-reorder.c:497-552 | an edge is selected if and only if there is a suitable one and the best leads to a block not better duplicated; the best is a suitable edge that no suitable one behind it beats and that beats one in front of it if there is any |
| BlockReorder.PushSuccessors | gcc/bb-reorder.c:554-616 | exactly the unvisited successors but for the selected edge join the heaps, each in the heap of the next round if and only if the first edge that brings it there is unlikely and it is not hot enough |
| BlockReorder.TraceStep | gcc/bb-reorder.c:477-713 | the trace goes on to where the first accepted detour or else the best edge leads exactly when that edge leads to an unvisited block; it ends at a dead end, or as the loop the best edge closes demands |
| BlockReorder.EndAtLoop | gcc/bb-reorder.c:620-661 | a loop that runs often and is not at the function's start is rotated, a header worth it is copied behind a block with one successor, and otherwise nothing changes |
| BlockReorder.FindLoopEnd | gcc/bb-reorder.c:295-362 | finds a block of the loop if and only if some block of it has an edge that can fall out of the trace, and one with an edge to an unvisited block or to the start of a trace whenever there is such an edge |
| BlockReorder.RotateLoop | gcc/bb-reorder.c:293-404 | the last trace is turned round inside its loop: it keeps each of its blocks once and gains at most one fresh copy of the header, exactly when the only way into the loop from the block in front is worth one; it ends with a block control can best leave it from, and stays as it was exactly when there is none; all other traces and all earlier visited marks stay |
| BlockReorder.TurnedKeeps | gcc/bb-reorder.c:355-404 | a chain turned round at any block of its loop has the same blocks, as often as before, besides the extra ones |
| BlockReorder.CopyBb | gcc/bb-reorder.c:758-805 | duplicating a block makes one block with a new index, redirects one edge to it, and keeps what is reachable and what each copy is a copy of |
| BitmapList.Obstack.Allocate | gcc/bitmap.c:191-238 | hands out a zeroed element, the first of the free ones if there is one and else a new one, and takes nothing else off the list of lists |
| BitmapList.Obstack.PushList | gcc/bitmap.c:243-287 | a tail of any length becomes free in one step: the free elements grow by exactly that tail |
| BitmapList.Bitmap.ElementFree | gcc/bitmap.c:158-186 | exactly one element leaves the list and becomes free, the links stay consistent, the cursor moves to a neighbour if it was there |
| BitmapList.Bitmap.ClearFrom | gcc/bitmap.c:243-287 | keeps just the elements before the given one, loses none, and says exactly where the cursor then is |
| BitmapList.Bitmap.InsertAfter | gcc/bitmap.c:467-495 | puts one zero element of the given index at the given place and leaves the cursor |
| BitmapList.Bitmap.FindBit | gcc/bitmap.c:540-584 | from any cursor position finds the element of the bit if there is one; otherwise the cursor is at the nearest element and no element has that index |
| BitmapList.Bitmap.ElementLink | gcc/bitmap.c:410-460 | wherever the cursor was, a new element goes to the one place that keeps the list in increasing order |
| BitmapBits.BitmapSetBit | gcc/bitmap.c:608-624 | adds exactly one member to the set and keeps the whole invariant |
| BitmapBits.BitmapClearBit | gcc/bitmap.c:589-603 | removes exactly one member, and an element that becomes zero |
| BitmapBits.BitmapBitP | gcc/bitmap.c:629-643 | answers membership; only the cursor changes |
| BitmapRange.BitmapSetRange | gcc/bitmap.c:1092-1188 | adds exactly the bits from start to start + count, over any gaps between elements |
| BitmapRange.BitmapClearRange | gcc/bitmap.c:1192-1314 | removes exactly the bits from start to start + count and every element left zero |
| BitmapEntries.MergeComputes | gcc/bitmap.c:787-840 | merging two sorted lists entry by entry is the set operation, sorted and without zero elements |
| BitmapEntries.Canonical | gcc/bitmap.c:1670-1687 | two well-formed lists with the same members are the same list |
| BitmapMerge.BitmapCopy | gcc/bitmap.c:500-532 | the destination becomes the same set, in elements of its own |
| BitmapMerge.BitmapAnd | gcc/bitmap.c:787-840 | overwrites whatever list the destination held with exactly the intersection, invariant and cursor included |
| BitmapMerge.BitmapXor | gcc/bitmap.c:1534-1606 | overwrites the destination with exactly the symmetric difference, invariant and cursor included |
| BitmapMerge.BitmapIor | gcc/bitmap.c:1448-1490 | overwrites the destination with exactly the union; the result tells whether its set changed; the cursor is right afterwards exactly when the operands and the cursor before do not strand it |
| BitmapMerge.FirstNotStranded | gcc/bitmap.c:1481-1488 | a cursor at the first element is never stranded |
| BitmapMerge.StrandedExample | gcc/bitmap.c:1481-1488 | a destination with two elements and the cursor at the second is left with a cursor outside its list |
| BitmapMerge.OthersKept | gcc/bitmap.c:136-287 | an operation on one bitmap leaves every other bitmap of the obstack valid, unchanged and disjoint from it and from the free elements |
| BitmapMerge.BitmapEqualP | gcc/bitmap.c:1670-1687 | equality of the lists, which is equality of the sets |
| BitmapDifference.BitmapAndCompl | gcc/bitmap.c:926-1034 | overwrites the destination with exactly a without b; the result tells whether its set changed |
| BitmapDifference.BitmapIorAndCompl | gcc/bitmap.c:1748-1847 | overwrites the destination with exactly a together with b without kill; the result tells whether its set changed; the cursor is right exactly when a shortcut is taken or it is not stranded |
| BitmapInto.BitmapAndInto | gcc/bitmap.c:845-887 | intersects in place, freeing elements on the way, invariant and cursor included |
| BitmapInto.BitmapAndComplInto | gcc/bitmap.c:1039-1088 | removes a set in place and tells whether anything changed |
| BitmapInto.BitmapComplAndInto | gcc/bitmap.c:1319-1383 | replaces a by b without a, in place |
| BitmapInto.BitmapIorInto | gcc/bitmap.c:1495-1529 | adds a set in place and tells whether anything changed |
| BitmapInto.BitmapXorInto | gcc/bitmap.c:1611-1663 | takes the symmetric difference in place, inserting and freeing elements |
| BitmapQuery.BitmapIntersectP | gcc/bitmap.c:1692-1715 | true exactly when there is a common member |
| BitmapQuery.BitmapIntersectComplP | gcc/bitmap.c:1720-1742 | true exactly when some member of the first is not in the second |
| BitmapIterator.ExecuteIfSetInBitmap | gcc/bitmap.h:559-562 | the loop yields exactly the members from the start bit on, each once, in increasing order |
| BitmapIterator.ExecuteIfAndInBitmap | gcc/bitmap.h:569-573 | the loop yields exactly the common members from the start bit on, each once, in increasing order |
| BitmapIterator.ExecuteIfAndComplInBitmap | gcc/bitmap.h:580-584 | the loop yields exactly the members of the first set but not the second from the start bit on, each once, in increasing order |
| BitmapIterator.BmpIterSet | gcc/bitmap.h:391-431 | reports the least member not yet passed, or that there is none |
| BitmapIterator.BmpIterAnd | gcc/bitmap.h:438-498 | the same for the intersection, skipping elements only one bitmap has |
| BitmapIterator.BmpIterAndCompl | gcc/bitmap.h:505-552 | the same for the difference, with the words of the second bitmap masked out |
| BitmapIterator.BmpIterSetInit | gcc/bitmap.h:222-258 | starts so that nothing from the start bit on is passed over, even with no element there |
| BitmapIterator.BmpIterAndInit | gcc/bitmap.h:264-326 | the same for the intersection |
| BitmapIterator.BmpIterAndComplInit | gcc/bitmap.h:332-374 | the same for the difference |
| AliasOracle.SideEffectsEvaluated | gcc/alias.c:1583-1614 | the address computed for any reference of a series is the one that reference accesses, whatever was added to or taken from the register before |
| AddressRtx.EqualSound | gcc/alias.c:1211-1343 | addresses found equal have equal values under every assignment of registers |
| AddressRtx.EqualIffSorted | gcc/alias.c:1211-1343 | addresses without known register values are found equal if and only if they are the same once the operands of sums, products and ANDs are put in order, whatever that order is |
| AddressRtx.CanonSame | gcc/alias.c:1167-1202 | the canonical form has the same value and is again a plain address |
| AddressRtx.CanonReplaces | gcc/alias.c:1167-1202 | no term of a canonical sum is a register of known value, and canonicalising again changes nothing |
| AddressRtx.PlusConstantFolds | gcc/explow.c:78-196 | a constant added to a register, symbol or label with any number of constants leaves one constant, or none if they cancel |
| AddressRtx.PlusConstantSame | gcc/explow.c:78-196 | folding a constant into an address adds exactly that constant |
| AliasOracle.MemrefsConflictGranular | gcc/alias.c:1635-1799 | when sizes, distance and the constants of both addresses are multiples of one number that every scale factor divides, a denied conflict means that no byte of one reference is a byte of the other, whatever the registers hold |
| AliasOracle.MemrefsConflictSound | gcc/alias.c:1635-1799 | the same whenever every division that was made on the way was exact and by a positive factor |
| AliasOracle.MemrefsConflictExact | gcc/alias.c:1635-1799 | for addresses made of one base and any constants, also below a common factor with exact divisions, and for all symbols, labels and numbers with constants, of known sizes: a conflict is told of if and only if some byte of one reference is a byte of the other, under every assignment |
| AliasOracle.ObjectsApart | gcc/alias.c:1769-1797 | references to different symbols, to different labels, to a symbol and a label, or to one of these and a number never conflict, whatever constants are added |
| AliasOracle.GranularExact | gcc/alias.c:1736-1741 | with such a common number every division on the way is exact |
| AliasOracle.UnknownSizeConflicts | gcc/alias.c:1623-1625 | a reference of unknown size conflicts with everything |
| AliasOracle.DivisionExactIff | gcc/alias.c:1736-1741 | dividing sizes and distance by a factor misses no overlap exactly when the factor is positive and divides all three |
| AliasOracle.TruncationMissesConflict | gcc/alias.c:1736-1741 | two four-byte references that share three bytes are denied a conflict |
| AliasMasks.IndeterminateConflicts | gcc/alias.c:1627-1629 | a reference that may go beyond its size, given as a negative size, conflicts with everything, as long as no address has a scale factor |
| AliasMasks.FirstConflicts | gcc/alias.c:1748-1757 | an address that an AND rounds down conflicts with every reference smaller than what it is rounded to |
| AliasMasks.SecondConflicts | gcc/alias.c:1748-1768 | so does one that is the second of the two |
| AliasMasks.BothConflict | gcc/alias.c:1748-1757 | two different addresses that are both rounded down always conflict |
| AliasMasks.MaskedSound | gcc/alias.c:1748-1757 | a denied conflict means that no byte of the reference rounded down is one of the other, if that is aligned as the code assumes and the first is no larger than what it is rounded to |
| AliasMasks.FirstExact | gcc/alias.c:1748-1757 | with a reference that is not smaller, for addresses made of one base and constants or fixed ones, a conflict is told of if and only if it touches the address before rounding |
| AliasMasks.SecondSound | gcc/alias.c:1748-1768 | a denied conflict with a second address that is rounded down means that the reference, when it is not smaller, does not touch the address before rounding |
| AliasMasks.SecondExact | gcc/alias.c:1748-1768 | as for the first address: a conflict if and only if the reference touches the second address before rounding |
| AliasSets.BottomUpExact | gcc/alias.c:693-738 | recorded bottom-up, the children of every set are exactly its nonzero descendants, and zero is noted exactly when it is one |
| AliasSets.RecordExactIff | gcc/alias.c:693-738 | one more pair keeps the table exact if and only if every set that has the superset below it already knows the subset |
| AliasSets.LateEdgeMissed | gcc/alias.c:693-738 | recording two below one and then three below two leaves three unknown to one |
| AliasSets.AliasTable.RecordAliasSubset | gcc/alias.c:693-738 | the table afterwards is the specified one, for equal, zero and other subsets |
| AliasSets.AliasTable.NewAliasSet | gcc/alias.c:666-677 | a number not used before, with no entry, or zero without strict aliasing |
| AliasSets.ConflictIff | gcc/alias.c:297-344 | two sets conflict exactly when they are equal, one is zero or has zero below it, or one descends from the other |
| AliasSets.ConflictSymmetric | gcc/alias.c:317-344 | the order of the two sets does not matter |
| AutoIncTable.InitDecisionTable | gcc/auto-inc-dec.c:220-330 | every entry is the best increment the machine has for where the reference points, before or after the addition, and nothing where neither fits |
| AutoIncTable.DecisionMeans | gcc/auto-inc-dec.c:220-330 | for an offset that is none, the constant added, its opposite or the register added, an entry accesses the same address and adds the same amount |
| AutoIncTable.StatesAreNotEnough | gcc/auto-inc-dec.c:942-950 | without the comparison of the constants an entry would access another address |
| AutoIncBlock.PreAddSame | gcc/auto-inc-dec.c:550-567 | an addition to another register before the reference and a move with an incrementing reference run alike from every state |
| AutoIncBlock.PreIncSame | gcc/auto-inc-dec.c:574-580 | an increment before the reference, by a constant or a register left alone, and an incrementing reference run alike from every state |
| AutoIncBlock.PostIncSame | gcc/auto-inc-dec.c:569-580 | an increment after the reference and an incrementing reference run alike from every state |
| AutoIncBlock.PostAddSame | gcc/auto-inc-dec.c:582-604 | an addition to another register after the reference and a move with a reference through that register run alike from every state |
| AutoIncPass.FindAddress | gcc/auto-inc-dec.c:905-991 | succeeds exactly when the register stands in the instruction once besides what is added to it, as the base of an address whose offset fits |
| AutoIncPass.CandidateSound | gcc/auto-inc-dec.c:1005-1287 | whichever order the operands of the reference and of the addition are tried in, what is found behind the reference may be moved to it: the result is not mentioned in between and no operand is set, and the register to be incremented is the right one but for a register added to its own result |
| AutoIncPass.FindsConst | gcc/auto-inc-dec.c:1005-1170 | with exact tables, behind a reference through a register and a constant the next addition to the register is found if and only if the register stands in the reference alone, the operands are set neither by the reference nor in between, the result is not mentioned in between, and the constant is none, the one added or its opposite |
| AutoIncPass.FindsPair | gcc/auto-inc-dec.c:1005-1287 | behind a reference to the sum of two registers an addition is found if and only if the one found by the first register is of these two and may be moved, or it is of others and the one found by the second may be; and it is that one |
| AutoIncPass.UseIsFound | gcc/auto-inc-dec.c:1402-1437 | before a reference an addition finds its use if and only if the first mention of its result uses it and no register added is set before that or used before it |
| AutoIncPass.TryMerge | gcc/auto-inc-dec.c:644-893 | an addition is merged if and only if the machine has an increment for these operands and the address it makes is accepted; it then does what the two did |
| AutoIncPass.BehindExact | gcc/auto-inc-dec.c:1115-1152 | whatever the search behind a reference may return, the merge it leads to runs alike if and only if the register incremented is the result of the addition |
| AutoIncPass.BeforeExact | gcc/auto-inc-dec.c:1402-1437 | an addition of another register that the pass merges into a later reference runs alike if and only if no move just in front of that reference sets the register added |
| AutoIncPass.PostRegisterMisses | gcc/auto-inc-dec.c:1115-1152 | a reference to *b followed by a += b is merged into a reference that adds b to itself, and a is lost |
| AutoIncPass.FirstMerge | gcc/auto-inc-dec.c:1193-1245 | a reference to *(a + q) followed by b <- a + q is merged, with a move in front of it |
| AutoIncPass.SecondCandidate | gcc/auto-inc-dec.c:1402-1437 | with the entries that merge leaves, the way from an increment by b to the reference is taken to be free |
| AutoIncPass.PreRegisterMisses | gcc/auto-inc-dec.c:1402-1437 | merging that increment accesses another address, because b is already another value behind the move |
| AutoIncPass.MergeBefore | gcc/auto-inc-dec.c:1398-1447 | merging an addition of a constant, or of a register to the addition's own result, into a later reference keeps what the block does and what the tables of next uses, additions and definitions say, when the way to the reference is free of the register added |
| AutoIncPass.MergeAfter | gcc/auto-inc-dec.c:1448-1454 | merging a later addition of a constant or a register into a reference keeps what the block does and the tables, and one addition is gone |
| AutoIncPass.MergeInBlock | gcc/auto-inc-dec.c:1368-1495 | for any function that accepts merges, from every state of every machine, the rewritten block accesses the same addresses in the same order and leaves the same registers and memory, and no merge that would be found and accepted is left in it; this is for every block, but on a machine that modifies addresses by registers after the access not with \*b in front of a += b, and on one that does so before it not with \*a between a += b and b <- c + d |
| AutoIncPass.NoneLeftBehind | gcc/auto-inc-dec.c:1368-1495 | where no merge is left, no addition that joins a reference with a constant in front of it is accepted there |
| AutoIncPass.NoneLeftInFront | gcc/auto-inc-dec.c:1368-1495 | nor is one that fits the next use of its result behind it |
| ReachingDefs.ComputeDefsUsesAndGen | gcc/bt-load.c:447-612 | the definitions by register, and per block what its instructions leave live from nothing and what they overwrite |
| ReachingDefs.ComputeKill | gcc/bt-load.c:615-632 | a block kills exactly the definitions of the registers its instructions overwrite |
| ReachingDefs.BlockActs | gcc/bt-load.c:635-645 | the instructions of a block act on any set of definitions by one set taken away and one added |
| ReachingDefs.ComputeOut | gcc/bt-load.c:635-662 | terminates with exactly the definitions that some path of blocks carries, instruction by instruction, to each block's end |
| BtrUses.LinkUse | gcc/bt-load.c:734-761 | one use joins the lists of all definitions found, in order of their numbers, and all of these are marked ambiguous when there is more than one |
| BtrUses.LinkBtrUses | gcc/bt-load.c:665-775 | every use is attached to the tracked definitions of its registers, and each unambiguous definition's list runs through its uses |
| BtrUses.AttachedExact | gcc/bt-load.c:689-733 | what is attached to a use is exactly what reaches it if and only if, of the registers it uses that any definition could bring to it, the linking pass drops before it just those that are overwritten there |
| BtrUses.AttachedCovers | gcc/bt-load.c:689-773 | without that condition nothing that reaches the use is missed, unless a call has left the function before it |
| BtrUses.LeftExact | gcc/bt-load.c:483-583 | of one register either pass leaves the last definition in front, or what came before if there is none, and nothing once it has dropped the register behind that |
| BtrUses.AlikeFromAll | gcc/bt-load.c:689-773 | whatever reaches the first of some instructions, the linking pass leaves the definitions of a register that are live behind the last, if and only if it drops the register exactly when it is overwritten with no definition following |
| BtrUses.BlockageMissed | gcc/bt-load.c:511-527 | a definition killed by a blockage is still attached to the use behind it |
| BtrUses.ReachesByPath | gcc/bt-load.c:635-645 | reaching an instruction means that some path leaves the definition live there |
| BtrUses.UnambiguousWeb | gcc/bt-load.c:665-775 | of the uses before which the pass drops what it should, the list of a definition left unambiguous holds exactly those it reaches, each of them reached by it alone |
| BtrUses.BuildBtrDefUseWebs | gcc/bt-load.c:778-811 | from instructions to lists: the sets at the block ends are exact and every use is linked |
| LiveRanges.AugmentLiveRange | gcc/bt-load.c:900-981 | terminates, adds exactly the blocks between the range and the new block, keeps the range closed towards predecessors and dominated by its head, which the new block becomes if it is above, and adds exactly the registers live in what was added |
| LiveRanges.WaysStayInside | gcc/bt-load.c:887-898 | no way from the definition to a block of its range leaves the range |
| LiveRanges.BtrDefLiveRange | gcc/bt-load.c:1011-1052 | a live range that holds all uses; the registers live in its other blocks, and in the definition's own block or only at its end as the mode asks, but for the definition's own register; at the ends of the other blocks too when the range is new; and no register that is live nowhere in the range |
| LiveRanges.ChooseBtr | gcc/bt-load.c:986-1003 | the first allocatable register not used, or none exactly when all are used |
| LiveRanges.ChosenIsFree | gcc/bt-load.c:1353-1362 | a register chosen after the range has grown upwards is live in no block of it but for the definition's own marks, nor at the end of the new head or of any block new in the range |
| LiveRanges.MoveBtrDef | gcc/bt-load.c:1147-1233 | is only called with a register free for the whole range; afterwards exactly the blocks of the new range and their ends are marked with it, and the old marks are gone where nothing else needs them |
| LiveRanges.MigrateBtrDef | gcc/bt-load.c:1272-1393 | the definition goes up its dominators from one block to the next that is not complex and cheaper, or as cheap when used near by at first, and each time holds a free register; it stops only when it is cheap enough, no such block is above it, or every register is live in the range grown to the next one or has been its own on the way; the result is true exactly when it moved and the last was not the reason; its range still holds every use |
| PowiTable.SplitsAll | gcc/builtins.c:2724-2758 | every entry splits a power into two smaller ones, an even power in half |
| PowiTable.TableBound | gcc/builtins.c:2697-2704 | no power in the table needs more than two products a binary digit, less two or three |
| PowiExpansion.PowiLookupCost | gcc/builtins.c:2767-2777 | the cost is the number of powers needed that were not marked, and just these are marked |
| PowiExpansion.PowiCost | gcc/builtins.c:2784-2820 | the cost is the number of different powers that x to the n is made from, and at most two a binary digit less two |
| PowiExpansion.StepsBound | gcc/builtins.c:2697-2704 | the amortised bound: windows that share digit powers never exceed two products a digit |
| PowiExpansion.ExpandPowi1 | gcc/builtins.c:2827-2862 | the register returned holds the power, every register is set once before its use, and one product is emitted for each power not yet in the cache |
| PowiExpansion.ExpandPowi | gcc/builtins.c:2869-2891 | emits exactly as many products as PowiCost says, although one works from the lowest bits up and the other from the exponent down |
| PowiExpansion.ExpansionComputes | gcc/builtins.c:2869-2891 | the products compute x to the n, or its reciprocal for negative n, from any contents of the registers |
| PowiExpansion.ExpandBuiltinPowi | gcc/builtins.c:3032-3087 | for every 64-bit exponent the call is expanded unless size matters and the exponent is not trivial: the default limit is never reached |
| AllocPool.Pool.constructor | gcc/alloc-pool.c:119-182 | the element size is the least multiple of eight that holds a list header and the size asked for |
| AllocPool.Pool.PoolAlloc | gcc/alloc-pool.c:240-311 | hands out an element not in use, the last one returned if there is one and else one never handed out; a block is got only when no element is free; free and allocated counters stay exact |
| AllocPool.Pool.PoolFree | gcc/alloc-pool.c:315-338 | exactly the given element is no longer in use, and it is the next to be handed out |
| AllocPool.Pool.EmptyAllocPool | gcc/alloc-pool.c:186-212 | gives every block back to the system once and nothing else, and all counters are zero |
| AllocPool.FreeAllocPoolIfEmpty | gcc/alloc-pool.c:229-236 | gives the pool up if and only if no element is in use |
| AllocPool.LiveApart | gcc/alloc-pool.c:240-311 | any two elements in use are in different blocks or do not overlap |
| AllocPool.LiveInside | gcc/alloc-pool.c:265-297 | every element in use lies inside one block of the pool with its whole length |

## Findings

Five promises do not hold of the code as it is. Each has an input that shows it and the condition under which the promise is met;
where that is not exact the row says so.

| promise | input | when it holds |
|---|---|---|
| `bitmap_ior` and `bitmap_ior_and_compl` leave a usable cursor (gcc/bitmap.c:1481-1488, gcc/bitmap.c:1837-1844) | destination with elements 1 and 2 and the cursor at 2, operands {element 5} and nothing: `BitmapMerge.StrandedExample` | exactly when the cursor is not `Stranded` by the result, which depends on the operands, the old list and the old cursor only: `BitmapMerge.BitmapIor`; it always holds with the cursor at the first element (`FirstNotStranded`) |
| `memrefs_conflict_p` denies a conflict only for disjoint references (gcc/alias.c:1736-1741) | 4 bytes at 4(r+1) and 4 bytes at 4r+3: `AliasOracle.TruncationMissesConflict` | for one scaled comparison exactly when the factor is positive and divides both sizes and the distance: `AliasOracle.DivisionExactIff`; for whole addresses `AllGranular` is enough, but not necessary: `AliasOracle.MemrefsConflictGranular` |
| `link_btr_uses` attaches only definitions that reach the use (gcc/bt-load.c:689-773) | a definition, a blockage and a use: `BtrUses.BlockageMissed` | for every use exactly when, of each register it uses that has a definition before it in the block or one that reaches the block, the linking pass drops the definitions before the use if and only if they are overwritten there: `BtrUses.AttachedExact`, from `BtrUses.AlikeFromAll` |
| `merge_in_block` keeps the meaning of a block (gcc/auto-inc-dec.c:1115-1152, gcc/auto-inc-dec.c:1402-1437) | `*b; a += b` on a machine that modifies an address by a register after the access: `AutoIncPass.PostRegisterMisses`; `x += b; *(a + q), *x; b <- a + q` on one that does so before: `AutoIncPass.PreRegisterMisses` | for each merge exactly when, behind a reference, the register incremented is the result of the addition (`AutoIncPass.BehindExact`) and, before one, no move just in front of the reference sets the register added (`AutoIncPass.BeforeExact`); for whole blocks it is enough, but not necessary, that neither pattern of the input stands in them: `AutoIncPass.MergeInBlock` |
| `record_alias_subset` keeps the children of every set complete (gcc/alias.c:693-738) | pair (1, 2), then (2, 3): `AliasSets.LateEdgeMissed` | exactly when every set with the superset among its children already has what is added: `AliasSets.RecordExactIff`; always so bottom-up: `AliasSets.BottomUpExact` |

In addition the comment at gcc/bb-reorder.c:233-237 speaks of an extra round when blocks are partitioned, but the code always runs
`N_ROUNDS - 1` rounds; the model follows the code.

## Left out

- AutoIncPass.MergeInBlock: blocks with \*b in front of a += b, or with \*a between a += b and b <- c + d, are excepted on the machines that could merge these, because the code does not keep the meaning of some of them; references of one instruction all read the registers before it; modes of registers are left out.
- AutoIncPass.TryMerge: cost, validity of the new instruction, notes of dead registers and the debug counter are a given function of the instruction, the reference, the new address and the addition.
- AutoIncPass.MergeInBlocks: the tables of next uses start empty for each block instead of being cleaned lazily; references inside bit-field extractions do not occur.
- AutoIncPass.ScanInsn: the three arrays of next uses, next additions and next definitions are one array of triples.
- AliasOracle.MemrefsConflictSound: addresses with AND are not among these, but see the module AliasMasks; integers are unbounded and modes are not truncated to; comparison by pointer is comparison of structure.
- AliasMasks.MaskedSound: an AND inside a sum, under a factor or with something that is no constant is decided as in the code but not given a meaning; that the other reference is aligned is what the code assumes.
- AliasOracle.Truncated: a scale factor of zero, by which the code would divide, is given the quotient zero; then a conflict is reported.
- AddressRtx.CanonRtx: VALUE expressions, find_base_value and what is known of memory; a register carries the value known for it. HIGH and LO_SUM stand for the address they are part of.
- AliasSets.AliasTable.RecordAliasSubset: get_alias_set and the tree types that decide which pairs are recorded.
- BitmapList.Bitmap.FindBit: bit numbers and indices are unbounded naturals, and a word has 64 bits.
- BitmapIterator.BmpIterSet: the iterator is a value that is passed on instead of a structure updated in place.
- BitmapInto.BitmapIorInto: bitmap_ior_and_compl_into, which makes a temporary bitmap, is left out.
- BitmapBits.BitmapSetBit: bitmap_hash, bitmap_count_bits, bitmap_first_set_bit and bitmap_single_bit_set_p are left out, and so are printing, statistics and the free list of collected memory.
- BlockReorder.FindTraces: probabilities, frequencies, counts, thresholds and sizes are given functions of the flow graph, the block and the edge; bb_to_key is left out, the heaps are sets from which any block may come next; the fields aux, visited and the block data are passed on as values.
- BlockReorder.FindLoopEnd: among edges out of the loop that are all preferred, or all not, the choice by frequency and count is open.
- TraceConnection.FindPredecessors: among the traces that fall into the foremost one the choice by probability and length is open.
- TraceConnection.FindSuccessors: among the traces the last one falls into, and among the blocks that may be copied, the choice by probability and length is open.
- BlockReorder.CopyBb: duplicate_block is a new index with the edges of the old block.
- TraceConnection.ReorderBasicBlocks: relinking the insn chain, crossing jumps, labels and barriers are left out.
- BtrUses.LinkBtrUses: the flag for other uses in the block is given; a use attached to several definitions shares its link, so only lists of unambiguous definitions are promised.
- ReachingDefs.ComputeDefsUsesAndGen: live registers at block boundaries and the groups of definitions with the same source are left out.
- LiveRanges.BtrDefLiveRange: definitions that do not dominate one of their uses are left out.
- LiveRanges.AugmentLiveRange: the fixed size of the worklist, and the bitmap the range is kept in, which is a set here.
- LiveRanges.MigrateBtrDef: combine_btr_defs, the emission of instructions, latencies and the queue in migrate_btr_defs are left out.
- PowiExpansion.ExpandPowi: products and the reciprocal are over real numbers; the magnitude of the least exponent does not overflow.
- AllocPool.Pool.PoolAlloc: memory got from the system is a new object of the right size, and the words the pool writes into it are two maps; checking of pool numbers, statistics and what callers store in elements are left out.
