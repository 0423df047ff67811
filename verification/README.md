# A verified model of the compiler's and the C library's cores

This project models eight self-contained parts of the repository and proves what they are for.
`dafny verify dfyconfig.toml` checks everything.

**Heap** (`HeapLayout`, `HeapMemory`, `HeapSteps`, `HeapProofs`, `Heap`, `HeapTheorems`).
Memory is an array of header-sized units indexed by address, written in place by `malloc`,
`free` and `realloc`: headers with `next` and `size`, and payload bytes. A ghost sequence of
blocks, free or live, says how they tile what `sbrk` gave; `Inv` ties it to the links found by
walking memory. Addresses are counted in units; the base of the free list lies below the heap.
The system's answers to requests for memory are a parameter, so that it is exact which calls
succeed. A request whose byte count wraps around ends in `stray`: the state is that from which
the code goes on to write a header where it has no memory.

**Folder** (`Bits`, `Cc1Tree`, `FoldArith`, `Fold`, `FoldMeaning`, `FoldForms`,
`FoldConstants`, `FoldProofs`, `FoldTheorem`, `FoldExact`, `FoldSigned`, `FoldEffect`,
`FoldAddress`, `Simplifier`). Expression trees of the front end and every arm of the
simplifier. Trees get a meaning: a value modulo the width of their type, and the trace of their
assignments and calls. The main theorem covers trees over unsigned types of 1, 2, 4 or 8 bytes,
conditions of a signed type that are 0 or 1, assignments, increments, calls, casts, `&&`, `||`,
`!`, `?:` and the comma. Three arms of the code do not keep the meaning; `StepExact` says
exactly when a turn of the loop does, and `Guarded` is the condition, checked at each node with
its children simplified, under which whole trees are safe. For constants, signed or not, every
operator is compared with its mathematical result (`SignedFolds`, `UnsignedFolds`); what an
operator does not need is gone after a turn (`NeutralGone` and the lemmas beside it); and the
arms for `&`, `*` and fields keep the object they reach.

**Intermediate form** (`Numerals`, `IrPrinter`, `IrParser`, `IrTranslation`, `IrRoundTrip`,
`IrStack`, `IrTokens`). The front end prints expressions as tab-separated postfix tokens,
character by character; the back end splits the line and rebuilds trees on a stack of 50
elements. The reference is `Translate`, written without mentioning tokens. A tree needs exactly
`Need` slots: the type of an operator goes through the stack as well.

**Calendar** (`Calendar`, `CalendarCivil`, `CalendarCode`). `mktime`, `gmtime` and their
helpers around the table whose February entry they rewrite, against closed forms for days and
weekdays. `CalendarCivil` counts the days by another rule, from March and without a table. The
year limit is that of the 64-bit targets, 9999.

**Symbol tables** (`Chains`, `Cc1Scopes`, `Cc1Tables`, `Cc1Order`, `Cc1States`, `Cc1Lookups`,
`Cc1Requests`, `Cc1Symbols`, `Cc2Symbols`). Hash chains and lists in memory, linked by
addresses; scopes as what lookups see. The front end's table is the main one, with the general
unlinking loop that builds without assertions run. The code asserts that a popped symbol is the
first of its chain; that holds for a whole block if and only if the block's symbols are in
order, and it stays so if and only if each declaration keeps a guard that its caller can check.

**Integers as text** (`Integers`, `IntegersText`, with `Numerals`). `strtol`, `strtoul`, their
digit table, and the number formatting of the printf family. `IntegersText` says by the parts
of a text what is read of it; every text has these parts.

**Sorting and pools** (`QSort`, `Pool`). `qsort` on the bytes of elements of any size, with any
comparison function. The code computes the length of the right part from a variable it has not
set; what it finds there is a parameter. With the right values the array is sorted, for every
total preorder; with other values that stay in the range it is permuted; and for any wrong
value there is an input that is left unsorted or whose range is left. The pool threads its free
list through the free cells of its arenas.

Findings that the proofs made precise: `malloc` and `realloc` ask `morecore` for units whose
byte count wraps to 0 for sizes from 2^64 - 31 to 2^64 - 18 (`RequestBytesExact`,
`StrayLoses`); comparisons with the constant on the left are negated instead of mirrored
(`SwapExact`, `SwapFails`); `x % 1` becomes 1 (`ModOneExact`, `ModOneFails`); `0 << e` drops
the effects of `e` (`ZeroShiftExact`, `ZeroShiftFails`); signed `%` by a power of two and
narrowing casts are right exactly under the conditions of `SignedRemainderExact` and
`NarrowingExact`; the guards of subtraction, multiplication and division fail at the minimum
(`SubIExact`, `MulIExact`, `DivIExact`), and that of left shifts, which computes `1 << r` in 32
bits, from counts of 31 on (`ShiftExact`); the overflow tests of `norm` look at the wrong end
of the range (`NormExact`); `mktime` is wrong before 1970 (`MkTimeExact`); symbols declared in
another order than they were made break the front end's assertion (`InstallOutOfOrder`);
`qsort` fails some input of three elements whatever one value its variable holds
(`StaleFails`).

## Model

| member | source | states |
|---|---|---|
| `Heap.Heap.PrevChunk` | src/libc/stdlib/malloc.c:23-38 | from any `_freep` the walk ends at the only node below the block with no node between them |
| `Heap.Heap.Free` | src/libc/stdlib/malloc.c:44-73 | the block leaves the owned set, joins its free neighbours (the heap stays fully coalesced), and every other owned block keeps header and payload |
| `Heap.Heap.Sbrk` | src/libc/stdlib/malloc.c:75-94 | grows the memory exactly when the address space and the system admit it; old units are kept |
| `Heap.Heap.MoreCore` | src/libc/stdlib/malloc.c:96-116 | at least `n` units become a free block exactly when the system grants them; nothing changes when it refuses; strays exactly when the byte count wrapped and is granted |
| `Heap.Heap.Malloc` | src/libc/stdlib/malloc.c:133-167 | ends from any state; succeeds exactly if a free block fits or the system grants one growth; strays exactly for a wrapped size that no free block fits; the new block is disjoint from all owned ones, which are kept |
| `Heap.Heap.Realloc` | src/libc/stdlib/realloc.c:9-80 | succeeds in place exactly if the block is large enough or the memory above it is free and enough, else exactly if `malloc` does; the first min(old payload, nbytes) bytes equal, all other blocks kept, invariant kept; on failure nothing changes |
| `Heap.Heap.Shrink` | src/libc/stdlib/realloc.c:34-41 | splits the tail off and frees it |
| `Heap.Heap.Extend` | src/libc/stdlib/realloc.c:43-68 | grows into the following free block if and only if one starts at the block's end and the two are large enough |
| `Heap.Heap.Move` | src/libc/stdlib/realloc.c:70-79 | another block with the payload, the old one freed, exactly when `malloc` succeeds |
| `HeapProofs.RequestBytesExact` | src/libc/stdlib/malloc.c:103-105 | the byte count asked of `sbrk` is right if and only if the size is outside one small interval below 2^64, where it wraps to 0 |
| `HeapProofs.NodeBelowUnique` | src/libc/stdlib/malloc.c:28-36 | only one node of the free list has the place the walk looks for |
| `HeapTheorems.EveryUnitHasOneOwner` | src/libc/stdlib/malloc.c:44-167 | free and live blocks tile the memory from `sbrk`: each unit has exactly one owner |
| `HeapTheorems.FreeNodes` | src/libc/stdlib/malloc.c:56-70 | the nodes are exactly the free blocks, and no free block ends where another starts |
| `HeapTheorems.OneRisingCycle` | src/libc/stdlib/malloc.c:18-72 | the free list is one cycle through base and `_freep`, rising in address but for one wrap |
| `HeapTheorems.StrayLoses` | src/libc/stdlib/malloc.c:107-111 | a header written after a wrapped request announces a block that no valid heap with that memory has |
| `HeapTheorems.Session` | src/libc/stdlib/malloc.c:44-167 | after any run of malloc, free, realloc and stores, the heap is valid, the program owns exactly the blocks it got and did not give back, each holds the bytes last stored in it, and all calls that make sense are served if the system never refuses and the address space is large enough; a run that strays ends at a call whose size wraps |
| `HeapMemory.FieldsApart` | src/libc/stdlib/malloc.h:4-12 | a header is eight bytes for each field; writing a field or a byte leaves the others |
| `FoldArith.AddIExact` | src/cmd/cc/cc1/fold.c:14-30 | additions are folded exactly when the sum fits |
| `FoldArith.SubIExact` | src/cmd/cc/cc1/fold.c:50-54 | the subtraction guard is exact but for one right operand |
| `FoldArith.MulIExact` | src/cmd/cc/cc1/fold.c:62-78 | the multiplication guard is exact but for the minimum of an 8-byte type times a negative operand |
| `FoldArith.DivIExact` | src/cmd/cc/cc1/fold.c:98-108 | the division guard is exact but for one pair of operands |
| `Bits.WordBits` | src/cmd/cc/cc1/fold.c:207-209 | the bitwise operators, bit by bit |
| `FoldSigned.LshIExact` | src/cmd/cc/cc1/fold.c:125-133 | what the guard of a left shift accepts, its `1 << r` being a 32-bit number |
| `FoldSigned.ShiftExact` | src/cmd/cc/cc1/fold.c:125-133 | that is whether the shifted value fits, but for the operands listed |
| `FoldSigned.SignedFolds` | src/cmd/cc/cc1/fold.c:145-194 | for every operator over constants of any signed type: the node becomes a constant exactly if the operator has a result and the type has it, but for the operands that the guards misjudge; the constant is the mathematical result in 64 bits, and simplifying leaves it |
| `FoldEffect.UnsignedFolds` | src/cmd/cc/cc1/fold.c:196-236 | every operator over constants of any unsigned type or pointers becomes the constant that is the mathematical result modulo the width, unless it divides by 0 or shifts by 64 or more |
| `FoldEffect.CastFolds` | src/cmd/cc/cc1/fold.c:318-366 | a cast of a constant between integer types is computed |
| `FoldEffect.NeutralGone` | src/cmd/cc/cc1/fold.c:574-622 | a constant on the right that changes no value of the type is gone after a turn |
| `FoldEffect.ZeroProduct` | src/cmd/cc/cc1/fold.c:598-607 | a product with 0 is left for its effects only |
| `FoldEffect.ConstantMoves` | src/cmd/cc/cc1/fold.c:500-528 | a constant on the left of an operator that commutes moves to the right |
| `FoldEffect.ConstantsJoin` | src/cmd/cc/cc1/fold.c:692-715 | of (x op c) op d for such an operator, one constant is left |
| `FoldEffect.LogicDecided` | src/cmd/cc/cc1/fold.c:543-573 | a constant operand of `&&` or `\|\|` decides or goes |
| `FoldEffect.DoubleGone` | src/cmd/cc/cc1/fold.c:379-441 | two negations or complements are none, nor are `&` and `*` that undo each other |
| `FoldEffect.BranchSelected` | src/cmd/cc/cc1/fold.c:644-665 | a constant condition selects its branch |
| `FoldAddress.FoldUnaryKeepsPlace` | src/cmd/cc/cc1/fold.c:371-442 | &*p, *&x and &s.f reach the object they reached; the address of a field becomes a sum |
| `FoldAddress.FieldAddressKept` | src/cmd/cc/cc1/fold.c:399-442 | after a whole turn the address of a field is a sum or a constant, the same in the width of its type |
| `Fold.StepDescends` | src/cmd/cc/cc1/fold.c:718-770 | each turn of the loop that changes the operator shrinks the tree, or moves a constant to the right, or goes down in rank |
| `FoldConstants.CmpNodeMeans` | src/cmd/cc/cc1/expr.c:37-59 | the comparisons with 0, 1 and all ones find exactly those values of the type |
| `FoldConstants.FoldUIntMeans` | src/cmd/cc/cc1/fold.c:196-236 | folding unsigned constants with a computing or comparing operator gives its value modulo the width |
| `FoldProofs.NeverAborts` | src/cmd/cc/cc1/fold.c:481-489 | no tree of the model reaches the fold's `abort`, which signed enumeration constants do |
| `FoldProofs.FoldedKeeps` | src/cmd/cc/cc1/fold.c:444-498 | folding constants keeps type, value and effects |
| `FoldProofs.CommutedKeeps` | src/cmd/cc/cc1/fold.c:500-528 | moving a constant to the right keeps them, for all operators but the ordering comparisons |
| `FoldProofs.AssociatedKeeps` | src/cmd/cc/cc1/fold.c:692-715 | regrouping (x op c) op y keeps them |
| `FoldProofs.IdentityLogic` | src/cmd/cc/cc1/fold.c:543-573 | the neutral and absorbing operands of `&&` and `\|\|` |
| `FoldProofs.IdentityArithmetic` | src/cmd/cc/cc1/fold.c:574-622 | the neutral and absorbing operands of arithmetic, effects included |
| `FoldProofs.ReducedKeeps` | src/cmd/cc/cc1/fold.c:669-690 | x % 2^n becomes x & 2^n - 1 |
| `FoldProofs.FoldUnaryKeeps` | src/cmd/cc/cc1/fold.c:371-442 | double negations cancel, casts of constants are computed |
| `FoldProofs.FoldTernaryKeeps` | src/cmd/cc/cc1/fold.c:644-665 | a constant condition selects its branch |
| `FoldTheorem.StepKeeps` | src/cmd/cc/cc1/fold.c:727-766 | one turn of the loop keeps type, value and effects where no failing arm fires |
| `FoldTheorem.SimplifyKeeps` | src/cmd/cc/cc1/fold.c:718-792 | for every tree, every world and every trace: the simplified tree has the same type, the same value modulo 2^w and the same effects in the same order |
| `FoldExact.StepExact` | src/cmd/cc/cc1/fold.c:727-766 | one turn keeps value and effects if and only if none of the three failing arms fires, or the run suits it |
| `FoldExact.SwapExact` | src/cmd/cc/cc1/fold.c:510-515 | a swapped comparison keeps its value exactly when its operands differ |
| `FoldExact.SwapFails` | src/cmd/cc/cc1/fold.c:510-515 | simplifying any such comparison of a variable breaks it in some run |
| `FoldExact.ModOneExact` | src/cmd/cc/cc1/fold.c:618-621 | x % 1 is 0, and becomes 1 |
| `FoldExact.ModOneFails` | src/cmd/cc/cc1/fold.c:618-621 | simplifying x % 1 of a variable breaks it in every run |
| `FoldExact.ZeroShiftExact` | src/cmd/cc/cc1/fold.c:574-584 | shifting 0 keeps the effects exactly when the count has none |
| `FoldExact.ZeroShiftFails` | src/cmd/cc/cc1/fold.c:574-584 | simplifying 0 << (v = 0) loses its assignment in every run |
| `FoldExact.SignedRemainderExact` | src/cmd/cc/cc1/fold.c:676-683 | the mask is C's remainder exactly for non-negative x or a remainder of 0 |
| `FoldExact.ReducedSignedExact` | src/cmd/cc/cc1/fold.c:669-690 | so it is for the node that the arm leaves of any % by a power of two |
| `FoldExact.NarrowingExact` | src/cmd/cc/cc1/fold.c:344-352 | a cast to a narrow signed type is canonical exactly when the sign bit is set or no higher bit is |
| `Simplifier.IsPower2` | src/cmd/cc/cc1/expr.c:11-35 | counting ones tells the powers of two |
| `Simplifier.XSimplify` | src/cmd/cc/cc1/fold.c:718-785 | the loop ends, computes `Simplify`, and keeps the meaning of every guarded tree; `Simplify` on signed constants is `SignedFolds` |
| `IrPrinter.Emitter.EmitNode` | src/cmd/cc/cc1/code.c:161-166 | appends the text of the tree to the stream |
| `IrPrinter.Emitter.EmitBin` | src/cmd/cc/cc1/code.c:465-479 | operands first, then the operator, with its type |
| `IrPrinter.Emitter.EmitCast` | src/cmd/cc/cc1/code.c:455-463 | casts to void print nothing |
| `IrPrinter.Emitter.EmitBuilt` | src/cmd/cc/cc1/code.c:481-490 | builtins print their name before the token that uses it |
| `IrPrinter.Emitter.EmitSym` | src/cmd/cc/cc1/code.c:192-251 | variables by class and number, constants by their low bits in hexadecimal |
| `IrRoundTrip.PrintedTokenized` | src/libc/string/strtok.c:5-24 | splitting what was printed gives the tokens of the tree |
| `IrRoundTrip.ConstantRoundTrip` | src/cmd/cc/cc2/parser.c:213-239 | a printed constant is read back as its value in its type |
| `IrRoundTrip.Parses` | src/cmd/cc/cc2/parser.c:290-301 | from any stack the tokens of a tree leave that stack and its translation, if and only if the stack is deep enough |
| `IrRoundTrip.PopCallOf` | src/cmd/cc/cc2/parser.c:445-461 | popping the parameters of a call links them from the first to the last |
| `IrRoundTrip.RoundTrip` | src/cmd/cc/cc2/parser.c:145-301 | printing then parsing gives the translated tree, or a stack overflow exactly when the tree needs more than 50 slots |
| `IrRoundTrip.PrintedUnambiguous` | src/cmd/cc/cc1/code.c:465-490 | trees that print alike are the same tree to the back end |
| `IrTokens.TokensOfLine` | src/libc/string/strtok.c:5-24 | the tokens are the line without its tabs and newlines, none of them empty |
| `IrTokens.TokensApart` | src/libc/string/strtok.c:5-24 | a tab or newline separates tokens |
| `IrTokens.SymbolToken` | src/cmd/cc/cc2/parser.c:51-58 | every storage class selects its kind of operand, and a number of 65535 or more is refused |
| `IrTokens.TokenActs` | src/cmd/cc/cc2/parser.c:45-140 | which tokens have an action, and that any other ends the expression |
| `IrTokens.BuiltinToken` | src/cmd/cc/cc2/parser.c:463-495 | the operation and operands that each name selects, and the names refused |
| `IrTokens.EveryOperator` | src/cmd/cc/cc1/code.c:22-57 | every operator of the front end occurs in a tree that can be printed |
| `IrTokens.LettersCovered` | src/cmd/cc/cc1/code.c:192-214 | so do all type letters and storage classes that the parser knows, but labels |
| `IrTokens.AtoiStops` | src/cmd/cc/cc2/parser.c:177-193 | the number of a token ends with its digits |
| `IrTranslation.ParamsInOrder` | src/cmd/cc/cc2/parser.c:451-460 | the back end's parameter list is in the order of the source |
| `IrStack.LineRoundTrip` | src/cmd/cc/cc2/parser.c:303-328 | a printed expression is read back as one statement exactly when the line fits and the stack is deep enough |
| `IrStack.Parser.PushElem` | src/cmd/cc/cc2/parser.c:145-151 | pushes, or reports that the stack is full |
| `IrStack.Parser.PopTree` | src/cmd/cc/cc2/parser.c:153-159 | pops, or reports that the stack is empty |
| `IrStack.Parser.ReadType` | src/cmd/cc/cc2/parser.c:201-211 | the type passes through the stack, which must have room for it |
| `IrStack.Parser.ReadHex` | src/cmd/cc/cc2/parser.c:232-235 | the value of the hexadecimal digits modulo the word |
| `IrStack.Parser.ParseConstantToken` | src/cmd/cc/cc2/parser.c:213-239 | pushes the constant or string that a token denotes |
| `IrStack.Parser.ParseAssignToken` | src/cmd/cc/cc2/parser.c:241-273 | recovers the operator that an assignment compounds |
| `IrStack.Parser.ParseTernaryToken` | src/cmd/cc/cc2/parser.c:275-288 | regroups the operands of ?: |
| `IrStack.Parser.ParseCallToken` | src/cmd/cc/cc2/parser.c:445-461 | collects any number of parameters |
| `IrStack.Parser.ParseBuiltinToken` | src/cmd/cc/cc2/parser.c:463-495 | one or two operands by the name on the stack |
| `IrStack.Parser.ParseBinaryToken` | src/cmd/cc/cc2/parser.c:497-506 | pops right then left |
| `IrStack.Parser.ParseUnaryToken` | src/cmd/cc/cc2/parser.c:434-443 | pops the operand |
| `IrStack.Parser.Eval` | src/cmd/cc/cc2/parser.c:290-301 | runs the actions of the tokens in order |
| `IrStack.Tokenize` | src/libc/string/strtok.c:5-24 | the loop computes the tokens of the line |
| `IrStack.Transmit` | src/cmd/cc/cc2/parser.c:303-328 | emitter and parser together: the translation arrives if and only if the line has at most 4094 characters and the tree needs at most 50 slots |
| `Calendar.YearLength` | src/libc/time/_daysyear.c:3-11 | a year's length is what the closed form of days grows by |
| `Calendar.NewYearWeekday` | src/libc/time/_newyear.c:4-15 | the closed form is the weekday counted from the epoch |
| `Calendar.CanonicalUnique` | src/libc/time/mktime.c:88-97 | canonical fields are determined by their instant |
| `Calendar.CarriedKeeps` | src/libc/time/mktime.c:44-47 | the carries keep the instant |
| `Calendar.NormExact` | src/libc/time/mktime.c:13-26 | the overflow tests are right exactly when both ends of the range are far enough, for multiples below zero with their own margins |
| `CalendarCivil.MonthStarts` | src/libc/time/_daysyear.c:1-11 | the days before each month: 31, 59, 90, 120, 151, 181, 212, 243, 273, 304, 334, 365, and one more from March on in leap years |
| `CalendarCivil.CivilDay` | src/libc/time/_daysyear.c:1-11 | the table and the rule counted from March give every date the same day |
| `CalendarCivil.CivilTime` | src/libc/time/mktime.c:88-97 | canonical fields are those of that rule, and their instant is its count |
| `CalendarCivil.AcceptedExact` | src/libc/time/mktime.c:44-86 | the times accepted are those whose carries are, from January 1, 1900, to December 31, 9999 |
| `CalendarCode.Norm` | src/libc/time/mktime.c:8-31 | one carry: quotient and remainder rounding down |
| `CalendarCode.TimeTable.Normalize` | src/libc/time/mktime.c:33-98 | succeeds exactly for the accepted times; keeps the instant, makes every field canonical, leaves February right for the year |
| `CalendarCode.TimeTable.FindDate` | src/libc/time/mktime.c:60-86 | the day loops end at the month of the day, or fail exactly outside the calendar |
| `CalendarCode.TimeTable.SysTime` | src/libc/arch/posix/_systime.c:5-22 | seconds since the epoch, less what years before 1970 would take away |
| `CalendarCode.TimeTable.MkTime` | src/libc/time/mktime.c:100-106 | normalizes and counts, or gives -1; by the rule without a table: the fields are the date of the given seconds, and from 1970 on the result is their count |
| `CalendarCode.TimeTable.GmTime` | src/libc/time/gmtime.c:7-39 | canonical fields of that instant from the epoch on, by the rule without a table as well; for earlier ones fields that still denote it |
| `CalendarCode.MkTimeExact` | src/libc/arch/posix/_systime.c:11-12 | the result is the instant if and only if the instant is not before the epoch |
| `CalendarCode.SecondsRoundTrip` | src/libc/time/mktime.c:100-106 | mktime(gmtime(t)) = t if and only if t is from the epoch to the end of the last year |
| `CalendarCode.FieldsRoundTrip` | src/libc/time/gmtime.c:7-39 | gmtime(mktime(tm)) gives the normalized fields, all of them |
| `Cc1Scopes.BlockRestores` | src/cmd/cc/cc1/symbol.c:109-193 | any balanced run inside a block, closed, gives back the scopes and every lookup |
| `Cc1Symbols.SymbolTable.PushCtx` | src/cmd/cc/cc1/symbol.c:109-115 | one block deeper, nothing else; fails past the limit of nesting |
| `Cc1Symbols.SymbolTable.NewSym` | src/cmd/cc/cc1/symbol.c:210-237 | a symbol of the current block at the head of the list, in no chain |
| `Cc1Symbols.SymbolTable.LinkHash` | src/cmd/cc/cc1/symbol.c:239-252 | the symbol becomes the first of its chain, depths keep falling; the block stays in order if and only if no newer symbol with that hash is declared |
| `Cc1Symbols.SymbolTable.Lookup` | src/cmd/cc/cc1/symbol.c:278-306 | a declared symbol of the innermost block that declares one of the name in that name space (or a keyword, or a type name in the space of a structure), if and only if there is one; else a new one on request |
| `Cc1Symbols.SymbolTable.Install` | src/cmd/cc/cc1/symbol.c:308-317 | the symbol itself, a new one in the current block, or none if the block has one; lookups that want it answer it from then on, all others what they answered; only linking the symbol itself can break the order |
| `Cc1Lookups.FoundAnswers` | src/cmd/cc/cc1/symbol.c:278-306 | the first match of a chain is a symbol of the innermost block that has one; none only if no declared symbol matches |
| `Cc1Lookups.AddedFound` | src/cmd/cc/cc1/symbol.c:239-252 | what declaring a symbol changes of the answers |
| `Cc1Symbols.GenHash` | src/libscc/genhash.c:1-11 | the loop computes the hash |
| `Cc1Symbols.SymbolTable.UnlinkHash` | src/cmd/cc/cc1/symbol.c:95-107 | takes a symbol out of its chain, wherever it is, if it is declared; tells whether the assertion holds |
| `Cc1Symbols.SymbolTable.KillSym` | src/cmd/cc/cc1/symbol.c:117-144 | unlinks and frees the newest symbol of the block; the block was in order if and only if it is now and the assertion held |
| `Cc1Symbols.SymbolTable.PopCtx` | src/cmd/cc/cc1/symbol.c:146-193 | frees exactly the symbols of the block and leaves the chains of the outer ones; every symbol is the first of its chain in its turn if and only if the block is in order |
| `Cc1Symbols.SymbolTable.Block` | src/cmd/cc/cc1/symbol.c:109-317 | gets to its end if and only if the requests are balanced; then restores every lookup and the symbols in memory, and all assertions on the way hold if and only if each declaration kept the order |
| `Cc1Symbols.InstallOutOfOrder` | src/cmd/cc/cc1/symbol.c:103-103 | in a new block of any table, two declarations after which closing the block breaks the assertion |
| `Cc1Order.FirstExactly` | src/cmd/cc/cc1/symbol.c:158-169 | the asserted condition holds for every symbol that closing a block frees if and only if the block's symbols are in order |
| `Cc1Order.LeadsExactly` | src/cmd/cc/cc1/symbol.c:159-164 | the guard says exactly when the linked symbol comes before the others of its block |
| `Cc1Order.TakenOrder` | src/cmd/cc/cc1/symbol.c:158-168 | the newest symbol leaves chains that are in order if and only if it was the first and the rest are |
| `Cc1Requests.SparesClosed` | src/cmd/cc/cc1/symbol.c:158-169 | closing a block gives back the symbols from before it |
| `Cc2Symbols.Symbols.GetSym` | src/cmd/cc/cc2/symbol.c:58-94 | the one symbol in scope with the number, or a new one, local inside a function, that carries the next running number; while the counter has not overflowed all symbols carry different ones |
| `Cc2Symbols.Symbols.Insert` | src/cmd/cc/cc2/symbol.c:75-89 | linked at the end of the locals and at the front of its chain, with the running number |
| `Cc2Symbols.Symbols.PopCtx` | src/cmd/cc/cc2/symbol.c:32-56 | overwriting chain heads backwards leaves exactly the chains of the globals |
| `Cc2Symbols.Symbols.RunFunction` | src/cmd/cc/cc2/symbol.c:26-94 | every request gets its symbol, if and only if the numbers are in range and the new symbols can be numbered; different symbols carry different running numbers; at the end the table and the memory are as before |
| `Cc2Symbols.OneSymbolPerNumber` | src/cmd/cc/cc2/symbol.c:58-94 | two requests get one symbol if and only if they ask for one number, which is not that of temporaries |
| `Integers.Strtoul` | src/libc/stdlib/strtoul.c:11-61 | the value of the longest run of digits, negated modulo 2^64, or ULONG_MAX and a range error exactly when it does not fit, the end then at the first digit too many |
| `Integers.Strtol` | src/libc/stdlib/strtol.c:11-64 | the signed value, clamped at both ends with a range error exactly when it does not fit |
| `IntegersText.Reads` | src/libc/stdlib/strtol.c:21-47 | of blanks, sign, prefix, digits and a rest: the number of the digits in their base, clamped or negated, and where it ends, for both functions |
| `IntegersText.Split` | src/libc/stdlib/strtoul.c:21-47 | every text has such parts |
| `Integers.NumToStr` | src/libc/stdio/vfprintf.c:73-101 | the buffer ends with sign, prefix, zeros and digits |
| `Integers.UnsignedRoundTrip` | src/libc/stdio/vfprintf.c:73-101 | strtoul reads back what was written, in its base, or in base 0 where the form shows the base |
| `Integers.SignedRoundTrip` | src/libc/stdlib/strtol.c:11-64 | strtol reads back what was written, LONG_MIN included |
| `Integers.PlaceInTable` | src/libc/stdlib/_dtoi.c:7-16 | the digit values are the places in the table |
| `Numerals.NumeralRoundTrip` | src/libc/stdio/vfprintf.c:80-84 | the digits written for a number have its value |
| `Numerals.NumeralShortest` | src/libc/stdio/vfprintf.c:80-84 | without zeros in front |
| `QSort.SwapBytes` | src/libc/stdlib/qsort.c:16-24 | two elements are exchanged whole, no other byte changes |
| `QSort.Swap` | src/libc/stdlib/qsort.c:44-54 | exchanging the bytes exchanges the elements of the array |
| `QSort.UpFromStops` | src/libc/stdlib/qsort.c:45-47 | the scan ends at the first element not below the pivot, or at the end of the range |
| `QSort.DownFromStops` | src/libc/stdlib/qsort.c:49-51 | the scan ends at the last element not above the pivot, or at the pivot |
| `QSort.SplitKeeps` | src/libc/stdlib/qsort.c:40-57 | a partition permutes the range, nothing above the pivot before it and nothing below after it, whatever the comparison does |
| `QSort.SortKeeps` | src/libc/stdlib/qsort.c:31-71 | a run that stays in its range permutes it and touches nothing else; nested calls are no deeper than the logarithm of n + 1 |
| `QSort.SortStays` | src/libc/stdlib/qsort.c:60-70 | a run stays in its range if the values found fit |
| `QSort.SortOrders` | src/libc/stdlib/qsort.c:31-71 | with the right values the range is sorted, for every total preorder |
| `QSort.ConditionsMean` | src/libc/stdlib/qsort.c:62-62 | which values fit and which are right, as bounds on the value |
| `QSort.IntendedRight` | src/libc/stdlib/qsort.c:61-62 | the length of the left part is right, and any value between it and the end fits |
| `QSort.SortsExactly` | src/libc/stdlib/qsort.c:60-81 | all arrays are sorted if and only if the variable holds a right value in every call, wherever its range is |
| `QSort.WrongFails` | src/libc/stdlib/qsort.c:62-62 | a wrong value leaves a range of one form unsorted, or leaves the range |
| `QSort.LaterFails` | src/libc/stdlib/qsort.c:60-70 | a wrong value at a later range fails the sort of a longer array |
| `QSort.StaleFails` | src/libc/stdlib/qsort.c:62-62 | whatever one value the variable holds, three elements that the sort fails |
| `QSort.XQSort` | src/libc/stdlib/qsort.c:31-71 | the code on the bytes runs as specified, and stops before a call that would leave its range |
| `QSort.QSort` | src/libc/stdlib/qsort.c:73-81 | stays in the array, permutes it, sorts it and nests within the logarithm, under those conditions on the values |
| `QSort.DepthBound` | src/libc/stdlib/qsort.c:26-30 | recursing on the smaller part halves it |
| `Pool.Alloc.NewArena` | src/libscc/alloc.c:44-63 | all cells of the arena are linked, disjoint from each other and from all others |
| `Pool.Alloc.New` | src/libscc/alloc.c:91-102 | a cell that is not live; a new arena only when none is free |
| `Pool.Alloc.Delete` | src/libscc/alloc.c:104-111 | the cell is the first to be given again |
| `Pool.ArenaAdded` | src/libscc/alloc.c:44-63 | live and free cells stay nmemb times the number of arenas, without overlap |

## Left out

- Malloc: after a request strays, what the stray header does to other memory.
- Sbrk: what the system answers is a parameter.
- SimplifyKeeps: trees with a failing arm are excluded by `Guarded`; the exact condition is given for each turn (`StepExact`), not for whole trees.
- XSimplify: trees are values, so that freeing nodes, sharing and the symbol whose constant `reduce` decrements are not modelled; the arms that change a node return it changed.
- NormExact: INT_MIN, which the code negates.
- Norm: arithmetic is unbounded, so that overflow inside the carry is not modelled.
- CmpNodeMeans: pointers, and values the code never compares with.
- FoldUIntMeans: logic and unary operators, which `FoldedKeeps` and `FoldUnaryKeeps` cover.
- Folded: a constant of a signed enumeration type, on which the code aborts, stays as it is.
- EmitSym: symbols of compound literals.
- Eval: the tokens of statements end the run as an error.
- GmTime: the zone name and offset.
- PrintedTokenized: tokens of declarations, initializers and statements; strings other than constants.
- ReadId: a sign or space before the number of a symbol, which the printer never writes.
- UnlinkHash: labels and macros, which have their own tables.
- KillSym: symbols other than the newest of the current block.
- PopCtx: labels, and the re-lookup of a token read ahead.
- Install: flags that are set or cleared later, so that a new symbol is never a type name.
- GetSym: `calloc` gives the address; the names and types of symbols.
- Strtoul: `strtoll` and `strtoimax`.
- NumToStr: precisions whose prefix or sign would leave the buffer.
- Folding of floating-point constants: the limits table for floats is a placeholder.
- SignedFolds: one operator over constants; trees with signed variables have no meaning in the model.
- FieldAddressKept: constant pointers of a type that is no pointer type.
- Shift counts of the type's width or more, and division by zero: undefined in the source language, so nothing is claimed of them.
- Delete: cells that are not live, which the code does not check.
- `pack` and `unpack`; the layout of structures.
- ctype, locale and the string functions.
- All code around files, processes, signals and system calls.
