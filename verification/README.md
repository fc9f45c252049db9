# Verification of the hard core of the labs and the kernel build tools

This project models, in Dafny, the parts of the repository that are hardest to get right, and
proves what they are for. Every imperative part is a method on classes or arrays with the fields
of the source, proved against a specification; the theorems are about the specifications.

* **Division by a constant** (`Words`, `Div64`). `__div64_const32` picks a 64-bit reciprocal, tests
  it on a single dividend and takes one of three branches. The branches are proved exact for
  every divisor and dividend, including why one test dividend is enough, why the reduction by
  the low set bit is exact, and why no partial sum loses a carry.
* **unifdef** (`UnifdefMachine`, `UnifdefMeaning`, `UnifdefRuns`, `UnifdefRemoves`, `UnifdefProcess`,
  `UnifdefExpr`, `UnifdefExprMeaning`, `UnifdefExprReads`, `UnifdefGrammar`, `UnifdefNumbers`,
  `UnifdefParse`). The transition table is proved to
  preserve what a preprocessor keeps (section 6.10.1 of ISO/IEC 9899:1999), by simulation
  against a reference preprocessor of input and output, and to take out exactly what is known. The expression evaluator is proved
  against an unambiguous grammar and its values in every world, with the exact condition on the
  numbers used.
* **kallsyms** (`Tokens`, `Kallsyms`). The in-place pair substitution is proved to round-trip,
  with exact incremental counts, although the search window runs past the symbol; the table is the
  one that replaces the most frequent pair in every turn.
* **asn1_compiler** (`Asn1Layout`, `Asn1Ranking`, `Asn1List`, `Asn1State`, `Asn1Render`,
  `Asn1Shapes`, `Asn1Loops`). The two-pass layout
  with the worklist whose links survive the first pass: both passes count the same entries, and
  every jump lands, those of the loops too, for exactly the grammars whose rendering ends.
* **recordmcount** (`RecordFile`, `RecordAppend`, `RecordSift`, `RecordMcount`,
  `RecordResolve`, `RecordLink`). The virtual file refines one
  growable array; the appended sections are found by a reader, and
  each call resolves to its address; the buffers are left
  only by files too large for the 32-bit sum of sizes.
* **Vrange** (`Vrange`). The clocked machine of lab 1, at the level of calls of `eval`: function
  and exact timing over all input traces.
* **Atomics** (`Atomic`): linearizability of the cmpxchg loops, and what they add up to. **Exception tables**
  (`SortExtable`): sorting relative addresses. **Lab 2** (`Chat`, `Framebuffer`): the chat
  window, the input line, and the character drawing. **pnmtologo** (`Logo`): the packed logos
  give back every pixel. `Wrappers` and `Sequences` hold what they share.

Notes on where code and intent differ; the model follows the code.

* unifdef -n writes `#line` with `printf`, to standard output, also when -o names a file. So
  without -b the numbers in that file are wrong whenever a kept line follows a deleted one:
  `UnifdefRuns.LineNumbers` is the exact condition, `UnifdefRuns.NumberingFails` a file.
* unifdef keeps the numbers of an expression in an `int` and ignores suffixes, where C has
  `intmax_t` and `uintmax_t`. So some `#if` lines with numbers beyond `int`, or with an unsigned
  constant and a negative -D value, are decided wrongly: `UnifdefNumbers.RightIff` says for which
  numbers this cannot happen, `UnifdefNumbers.TwoTo32IsFalse` and the lemmas after it are lines
  for which it does. `Config.wideLong` tells hosts with a 64-bit `long` from others.
* The comment in `__div64_const32` says that its reduction tries to clear bit 31 of the
  multiplier. When no shift does, it sets the bit even if it was clear: `Div64.ReductionSetsBit31`.
* `sift_rel_mcount` compares `mcountsym`, 0 until a call was seen, with the symbol of each
  relocation, so relocations against symbol 0 before the first call are recorded as calls:
  `RecordSift.OnlyCallsIff`. Once set it does not change, so a second name of mcount in the same
  section is missed: `RecordSift.AllCallsIff`.
* The one header written for the new relocations has the entry size of the last traced section, but
  each relocation is written in the size of its own. In a file that mixes `Elf_Rel` and `Elf_Rela`
  they are not found in steps of that size: `RecordMcount.EntriesAtIff`, `RecordMcount.MixedSizesLost`.
* `old_r_offset` is static, so on MIPS the last relocation of one file can hide the first call of
  the next file on the command line: `RecordSift.EarlierFileHidesCall`.
* The comment before unifdef's transition functions says that directives over several lines are
  handled if they do not change between printing and dropping. An unknown `#elif` behind false
  branches is handled although it does, and a false one there is refused although it does not:
  `UnifdefRemoves.ComplaintsAre`.
* `uwrite` treats a write that ends exactly at the end of the map, with nothing appended before,
  as a failure. `append_func` meets this exactly for an empty name table.
* `lab1/collatz.sv` stops at 0, but the generated `Vrange.cpp` does not contain this; the model
  follows `Vrange.cpp`, where a run over 0 never ends: `Vrange.ZeroNeverReaches`.
* `totrelsz` is 32 bits wide. For files whose traced relocations add up to 2^32 bytes or more the
  buffers can be too small: `RecordSift.WorstCaseFits`, `RecordSift.TwoHugeOverrun`. The model
  then ends with `Overrun`.

Preconditions that come from the source or from its callers: `div64` divisors are not 0; kallsyms
symbols contain no NUL; in an ASN.1 grammar every cycle of the references reached from the root passes
through an out-of-line element (otherwise the first pass does not end: `Asn1Ranking.RenderableIff`), and
lists of children that the renderer dereferences are not empty; constants of `#if` lines are constants of C, and a -D
value that is a number stands for that number; the relocations of a traced section have at least the size
of `Elf_Rel`, and their symbols and types fit `r_info`; directives with the same text say the same; the object file read by `append_func`
holds its own headers and names; exception
tables hold whole entries; a character cell lies inside a line of the framebuffer.

## Model

| member | source | states |
|---|---|---|
| `Div64.ArchXprod64` | lab3/usr/src/linux-headers-4.19.0/include/asm-generic/div64.h:175-209 | the result is floor(((bias ? m : 0) + m*n) / 2^64) for all 64-bit m and n and both biases: every carry out of 64 bits is captured, and where the code takes no carry none can occur |
| `Div64.LowColumn` | lab3/usr/src/linux-headers-4.19.0/include/asm-generic/div64.h:183-192 | the low column of the product, with the carry of the biased sum |
| `Div64.CrossColumn` | lab3/usr/src/linux-headers-4.19.0/include/asm-generic/div64.h:194-204 | the middle column; without bits 63 and 31 of m the sum does not overflow |
| `Div64.OverflowBitsClear` | lab3/usr/src/linux-headers-4.19.0/include/asm-generic/div64.h:185-198 | the mask of bits 63 and 31 is clear exactly when both halves of m are below 2^31 |
| `Div64.OneTestDecides` | lab3/usr/src/linux-headers-4.19.0/include/asm-generic/div64.h:90-109 | the rounded-up multiplier divides the one dividend floor((2^64-1)/b)*b - 1 correctly if and only if it divides every 64-bit dividend correctly |
| `Div64.UnbiasedExact` | lab3/usr/src/linux-headers-4.19.0/include/asm-generic/div64.h:122-146 | if the rounding error r of the multiplier m satisfies floor((2^64-1)/b)*r < m, as the test finds, m divides every 64-bit n exactly |
| `Div64.BiasRescues` | lab3/usr/src/linux-headers-4.19.0/include/asm-generic/div64.h:109-121 | when the test fails, n*m + m with the rounded-down multiplier divides every n exactly |
| `Div64.BiasedExact` | lab3/usr/src/linux-headers-4.19.0/include/asm-generic/div64.h:109-121 | the same, from the error bound of the rounded-down multiplier |
| `Div64.MersenneExact` | lab3/usr/src/linux-headers-4.19.0/include/asm-generic/div64.h:103-108 | for an odd part o that divides 2^64 - 1, (n*m + m) / 2^64 with m = (2^64-1)/o is n / o for every n |
| `Div64.MagicLowBit` | lab3/usr/src/linux-headers-4.19.0/include/asm-generic/div64.h:128-143 | the multiplier is its low set bit, a power of two no greater than p, times an odd number |
| `Div64.ReductionShift` | lab3/usr/src/linux-headers-4.19.0/include/asm-generic/div64.h:128-143 | with t zeros below the lowest set bit of m, the shift picked from `___bits` is the largest of 1 to t that leaves bit 31 of m clear, or t if none does |
| `Div64.ReductionSetsBit31` | lab3/usr/src/linux-headers-4.19.0/include/asm-generic/div64.h:128-143 | b = 75 is not a special case and passes the test, so its multiplier is reduced; no shift leaves bit 31 clear, and the macro shifts by one although bit 31 was clear before the shift: it is set afterwards |
| `Div64.CommonReductionExact` | lab3/usr/src/linux-headers-4.19.0/include/asm-generic/div64.h:137-143 | m and p are both multiples of the power of two taken out, that of the best shift, which is never more than p |
| `Div64.ReducedQuotient` | lab3/usr/src/linux-headers-4.19.0/include/asm-generic/div64.h:137-143 | dividing m and p by a common factor keeps floor(n*m / 2^64 / p) |
| `Div64.HighProduct` | lab3/usr/src/linux-headers-4.19.0/include/asm-generic/div64.h:93-99 | the compile-time product is floor(m*x / 2^64), the carry included |
| `Div64.RoundedUpMagic` | lab3/usr/src/linux-headers-4.19.0/include/asm-generic/div64.h:86-88 | the two statements compute ceil(p * 2^64 / b) in 64 bits |
| `Div64.RoundedDownMagic` | lab3/usr/src/linux-headers-4.19.0/include/asm-generic/div64.h:119-121 | the two statements compute floor(p * 2^64 / b) |
| `Div64.TestMagic` | lab3/usr/src/linux-headers-4.19.0/include/asm-generic/div64.h:90-109 | the outcome of the test: floor(m*x / 2^64 / p) is x / b for the one test dividend x |
| `Div64.Reduce` | lab3/usr/src/linux-headers-4.19.0/include/asm-generic/div64.h:128-143 | m and p are divided by the same power of two, that of the best shift, which leaves p positive |
| `Div64.Div64Const32` | lab3/usr/src/linux-headers-4.19.0/include/asm-generic/div64.h:69-162 | n / b for every 64-bit n and every divisor from 1 to 2^32 - 1, through all three branches |
| `Div64.LowWordRemainder` | lab3/usr/src/linux-headers-4.19.0/include/asm-generic/div64.h:232-234 | the remainder computed from low words is n mod b |
| `Div64.IsPowerOfTwo` | lab3/usr/src/linux-headers-4.19.0/include/asm-generic/div64.h:223-226 | masking and shifting is division for exactly the powers of two |
| `Div64.DoDiv` | lab3/usr/src/linux-headers-4.19.0/include/asm-generic/div64.h:219-241 | quotient and remainder for every n and base, or the call of `__div64_32` in exactly the one remaining case |
| `UnifdefMeaning.MeaningPreserved` | lab3/usr/src/linux-headers-4.19.0/scripts/unifdef.c:458-596 | for every accepted file and every truth assignment that agrees with the known conditions, a preprocessor keeps the same plain lines of the output as of the input, in the same order, and finds both well nested; `#elif` edited to `#if`, `#else` and `#endif` included |
| `UnifdefMeaning.StepMirrors` | lab3/usr/src/linux-headers-4.19.0/scripts/unifdef.c:424-502 | one line keeps the simulation between the machine and preprocessors of input and output |
| `UnifdefMeaning.RunMirrors` | lab3/usr/src/linux-headers-4.19.0/scripts/unifdef.c:584-596 | the simulation over whole runs |
| `UnifdefMeaning.MoveMirrors` | lab3/usr/src/linux-headers-4.19.0/scripts/unifdef.c:427-456 | the simulation for `#elif` and `#else`, with their edits |
| `UnifdefMeaning.OpenMirrors` | lab3/usr/src/linux-headers-4.19.0/scripts/unifdef.c:439-451 | the simulation for the first directive of a group |
| `UnifdefMeaning.CloseMirrors` | lab3/usr/src/linux-headers-4.19.0/scripts/unifdef.c:433-438 | the simulation for `#endif` |
| `UnifdefRuns.AcceptsExactlyWellNested` | lab3/usr/src/linux-headers-4.19.0/scripts/unifdef.c:458-542 | without dodgy lines exactly the files nested well and at most 63 deep are accepted, whatever is known about their conditions |
| `UnifdefRuns.NoAbort` | lab3/usr/src/linux-headers-4.19.0/scripts/unifdef.c:508-547 | no run reaches an `abort`: it ends at the end of the file or with a complaint |
| `UnifdefRuns.StepSound` | lab3/usr/src/linux-headers-4.19.0/scripts/unifdef.c:508-547 | the state at a depth is IS_OUTSIDE exactly at depth 0, and `nest` is never called at the last level without the complaint |
| `UnifdefRuns.StepFlushesOnce` | lab3/usr/src/linux-headers-4.19.0/scripts/unifdef.c:552-578 | every accepted line reaches `flushline` exactly once, with one edit |
| `UnifdefRuns.LineNumbers` | lab3/usr/src/linux-headers-4.19.0/scripts/unifdef.c:552-578 | the output selects input lines in order, and their original numbers are visible exactly if deleted lines are blanked, or `#line` reaches the output, or the plan for the input deletes no line before one it keeps |
| `UnifdefRuns.NumbersKeptIff` | lab3/usr/src/linux-headers-4.19.0/scripts/unifdef.c:552-578 | options keep the line numbers of every file if and only if they say -b, or -n without -o |
| `UnifdefRuns.NumberingFails` | lab3/usr/src/linux-headers-4.19.0/scripts/unifdef.c:558-573 | a three-line file that gets a wrong number under all other options, -n together with -o among them, as the directive goes to standard output |
| `UnifdefRemoves.RemovesAllKnown` | lab3/usr/src/linux-headers-4.19.0/scripts/unifdef.c:460-503 | what an accepted file becomes: no directive whose condition is known is left as it stands, and others are rewritten only as they may be; a plain line is left out exactly if what is known of the conditions around it rules it out; and the exit status is 1 exactly if a line was left out |
| `UnifdefRemoves.StepGuessed` | lab3/usr/src/linux-headers-4.19.0/scripts/unifdef.c:460-503 | after every line the states on the stack say what can be known of each open group from its directives |
| `UnifdefRemoves.MoveFits` | lab3/usr/src/linux-headers-4.19.0/scripts/unifdef.c:460-503 | the same for each directive that continues a group |
| `UnifdefRemoves.PrintsIfMayBeLive` | lab3/usr/src/linux-headers-4.19.0/scripts/unifdef.c:424-425 | lines are printed exactly in the blocks that may be live |
| `UnifdefRemoves.ComplaintsAre` | lab3/usr/src/linux-headers-4.19.0/scripts/unifdef.c:417-422 | a directive is complained about exactly if it is out of place, or spread over several lines and of a kind refused then; and by which message |
| `UnifdefRemoves.DodgyShares` | lab3/usr/src/linux-headers-4.19.0/scripts/unifdef.c:404-412 | wherever a directive spread over several lines is accepted, its further lines share its fate |
| `UnifdefRemoves.IgnoresAsMarked` | lab3/usr/src/linux-headers-4.19.0/scripts/unifdef.c:447-449 | comments are ignored exactly inside groups that begin with the test of a symbol given with -i, up to the first `#elif` |
| `UnifdefProcess.Unifdef.FlushLine` | lab3/usr/src/linux-headers-4.19.0/scripts/unifdef.c:552-578 | writes or deletes the line as the specification does |
| `UnifdefProcess.Unifdef.Transition` | lab3/usr/src/linux-headers-4.19.0/scripts/unifdef.c:417-456 | every transition function on the arrays and counters equals its specification |
| `UnifdefProcess.Unifdef.Process` | lab3/usr/src/linux-headers-4.19.0/scripts/unifdef.c:584-596 | the driver's loop on the mutable state ends for the reason of the specified run and leaves all variables as that run does |
| `UnifdefExpr.EvUnary` | lab3/usr/src/linux-headers-4.19.0/scripts/unifdef.c:824-907 | the cursor-advancing innermost evaluator agrees with its specification in verdict, value and rest, numbers going through `strtol` into an `int` |
| `UnifdefExpr.EvTable` | lab3/usr/src/linux-headers-4.19.0/scripts/unifdef.c:912-944 | the same for the table-driven loop; a stale `*valp` is never observed |
| `UnifdefExpr.IfEval` | lab3/usr/src/linux-headers-4.19.0/scripts/unifdef.c:951-962 | the decision for an `#if` line is the specified one |
| `UnifdefExprMeaning.JudgeSound` | lab3/usr/src/linux-headers-4.19.0/scripts/unifdef.c:746-777 | if the numbers of the line compare in `int` as in C, a known verdict of an expression is its value in every world the command line allows, although unknown symbols may be anything |
| `UnifdefExprMeaning.TableFinds` | lab3/usr/src/linux-headers-4.19.0/scripts/unifdef.c:802-944 | on the tokens of any expression of a level the evaluator gives the verdict of that expression: C precedence, left associativity, parentheses |
| `UnifdefExprReads.TableReads` | lab3/usr/src/linux-headers-4.19.0/scripts/unifdef.c:802-944 | whatever the evaluator accepts is the token string of an expression of its level, with that verdict |
| `UnifdefExprReads.UnaryReads` | lab3/usr/src/linux-headers-4.19.0/scripts/unifdef.c:824-907 | the same for the innermost evaluator |
| `UnifdefExprReads.DecisionSound` | lab3/usr/src/linux-headers-4.19.0/scripts/unifdef.c:951-962 | a decided `#if` whose numbers compare in `int` as in C has that truth value for every assignment to the unknown symbols |
| `UnifdefExprReads.DecisionComplete` | lab3/usr/src/linux-headers-4.19.0/scripts/unifdef.c:951-962 | every expression the evaluator can take is decided exactly by its verdict, or not at all if it has no symbol and -k is not given |
| `UnifdefExprReads.StrictDecidesLess` | lab3/usr/src/linux-headers-4.19.0/scripts/unifdef.c:768-777 | whatever -K decides, the default mode decides the same way |
| `UnifdefExprReads.TableDecidesLess` | lab3/usr/src/linux-headers-4.19.0/scripts/unifdef.c:768-944 | the same for the evaluator on any token string |
| `UnifdefExprReads.DecidesForced` | lab3/usr/src/linux-headers-4.19.0/scripts/unifdef.c:746-777 | by default an operator gives a value exactly if every replacement of its unknown operands gives that value |
| `UnifdefExprReads.StrictDecidesKnown` | lab3/usr/src/linux-headers-4.19.0/scripts/unifdef.c:746-748 | with -K it gives a value exactly if both operands are known, and the same one |
| `UnifdefExprReads.KnownIffDetermined` | lab3/usr/src/linux-headers-4.19.0/scripts/unifdef.c:873-897 | a constant, a symbol or `defined` of one is known exactly if it has one value in all worlds the command line allows |
| `UnifdefExprReads.ClosingIs` | lab3/usr/src/linux-headers-4.19.0/scripts/unifdef.c:1084-1103 | macro arguments end at the parenthesis that closes the first one, if there is one |
| `UnifdefExprReads.ReadIs` | lab3/usr/src/linux-headers-4.19.0/scripts/unifdef.c:855-892 | what `strtol` and the assignment to an `int` make of every number, for a `long` of 32 or 64 bits |
| `UnifdefNumbers.RightIff` | lab3/usr/src/linux-headers-4.19.0/scripts/unifdef.c:855-892 | for any set of constants and any -D values: all lines over them are decided rightly if and only if all numbers in use, 0 and 1 included, compare in the evaluator's `int` as in C |
| `UnifdefNumbers.RightIffFit` | lab3/usr/src/linux-headers-4.19.0/scripts/unifdef.c:855-892 | for a file that may use every constant of type `int`, no -D value being below `int`: all lines are decided rightly if and only if all other constants and -D values fit `int`, and no unsigned constant can meet a negative -D value |
| `UnifdefNumbers.FittingLineKept` | lab3/usr/src/linux-headers-4.19.0/scripts/unifdef.c:855-892 | the same condition for a single line is enough for its decision |
| `UnifdefNumbers.TwoTo32IsFalse` | lab3/usr/src/linux-headers-4.19.0/scripts/unifdef.c:855 | with a `long` of 64 bits and -k, `#if 4294967296` is taken to be false |
| `UnifdefNumbers.FiveNotBelowTwoTo31` | lab3/usr/src/linux-headers-4.19.0/scripts/unifdef.c:855-892 | with -DX=5, `#if X < 0x80000000` is taken to be false |
| `UnifdefNumbers.MinusOneBelowOneUnsigned` | lab3/usr/src/linux-headers-4.19.0/scripts/unifdef.c:855-892 | with -DX=-1, `#if X < 1u` is taken to be true, although C compares unsigned |
| `UnifdefParse.ClassifiedConsistent` | lab3/usr/src/linux-headers-4.19.0/scripts/unifdef.c:676-712 | if the numbers of a decided expression survive `int`, the type given to a directive agrees with what a compiler finds in any world the command line allows |
| `UnifdefParse.IfDefDecidedIff` | lab3/usr/src/linux-headers-4.19.0/scripts/unifdef.c:676-692 | `#ifdef` and `#ifndef` are left undecided exactly if worlds the command line allows disagree on the symbol; only symbols given with -i make the ignoring types |
| `UnifdefParse.DecidedClassified` | lab3/usr/src/linux-headers-4.19.0/scripts/unifdef.c:693-696 | the type of an `#if` or `#elif` is unknown exactly if its expression is not decided |
| `UnifdefParse.UnifdefCorrect` | lab3/usr/src/linux-headers-4.19.0/scripts/unifdef.c:639-740 | from command line and file to compiler, if the numbers of the decided expressions survive `int`: the same plain lines are kept of the output as of the file, in every allowed world |
| `UnifdefGrammar.TableBuilt` | lab3/usr/src/linux-headers-4.19.0/scripts/unifdef.c:802-944 | a parser that builds expressions gives back every expression of the grammar, at every level |
| `UnifdefGrammar.ParseUnique` | lab3/usr/src/linux-headers-4.19.0/scripts/unifdef.c:802-823 | the grammar is unambiguous: no tokens are those of two expressions |
| `UnifdefParse.TruthExists` | lab3/usr/src/linux-headers-4.19.0/scripts/unifdef.c:676-712 | in every world there are truth values for all directives of any file in which a text stands for one directive, as the main result asks for: it speaks of every such file |
| `Tokens.ReplaceKeepsText` | lab3/usr/src/linux-headers-4.19.0/scripts/kallsyms.c:509-548 | replacing a pair by the code of its slot keeps the expansion |
| `Tokens.ReplaceRemoves` | lab3/usr/src/linux-headers-4.19.0/scripts/kallsyms.c:509-548 | afterwards the pair occurs nowhere |
| `Tokens.ReplaceAllShortens` | lab3/usr/src/linux-headers-4.19.0/scripts/kallsyms.c:509-548 | if the pair occurred, the total length strictly drops |
| `Tokens.CompressRound` | lab3/usr/src/linux-headers-4.19.0/scripts/kallsyms.c:574-593 | a round keeps the invariant: tokens are characters or codes handed out earlier, code 0 is last, every symbol expands to its text |
| `Tokens.AddPairKeepsText` | lab3/usr/src/linux-headers-4.19.0/scripts/kallsyms.c:585-588 | filling a slot no symbol uses keeps all expansions |
| `Tokens.PairInUse` | lab3/usr/src/linux-headers-4.19.0/scripts/kallsyms.c:581-588 | the chosen pair consists of codes in use, neither of them 0, so a search never matches the NULs behind a symbol |
| `Tokens.GreedyNext` | lab3/usr/src/linux-headers-4.19.0/scripts/kallsyms.c:574-593 | a round keeps that every pair was the best one when it was handed out, and that the symbols are those with all these pairs replaced in turn |
| `Tokens.GreedyUnique` | lab3/usr/src/linux-headers-4.19.0/scripts/kallsyms.c:568-594 | the symbols determine the table: only one table has all characters, the best pair in each turn, and no turn left out |
| `Tokens.GreedyShortens` | lab3/usr/src/linux-headers-4.19.0/scripts/kallsyms.c:571-593 | symbols of two codes or more take fewer bytes afterwards, because the slot of code 0 is free for a pair |
| `Tokens.TokenTableLookup` | lab3/usr/src/linux-headers-4.19.0/scripts/kallsyms.c:299-322 | in the emitted table the string at a code's index is the full expansion of the code |
| `Tokens.LookUpExpands` | lab3/usr/src/linux-headers-4.19.0/scripts/kallsyms.c:299-322 | one level of lookup in the fully expanded table gives the original symbol |
| `Kallsyms.FindToken` | lab3/usr/src/linux-headers-4.19.0/scripts/kallsyms.c:496-505 | the first position of the pair, or none |
| `Kallsyms.MoveDown` | lab3/usr/src/linux-headers-4.19.0/scripts/kallsyms.c:532 | the `memmove` by one byte, in place |
| `Kallsyms.ReplaceAt` | lab3/usr/src/linux-headers-4.19.0/scripts/kallsyms.c:529-532 | one substitution with a window that is too long: the bytes behind the symbol stay zero |
| `Kallsyms.ReplaceLoop` | lab3/usr/src/linux-headers-4.19.0/scripts/kallsyms.c:526-543 | the do-while loop computes the simultaneous left-to-right replacement, although `size` is not reduced for the deleted byte |
| `Kallsyms.ReplaceInPlace` | lab3/usr/src/linux-headers-4.19.0/scripts/kallsyms.c:509-548 | buffer and length of a symbol hold its replacement and zeros behind |
| `Kallsyms.LearnSymbol` | lab3/usr/src/linux-headers-4.19.0/scripts/kallsyms.c:462-468 | every count rises by the adjacent positions in the symbol |
| `Kallsyms.ForgetSymbol` | lab3/usr/src/linux-headers-4.19.0/scripts/kallsyms.c:471-477 | every count falls by them |
| `Kallsyms.Compressor.CompressSymbols` | lab3/usr/src/linux-headers-4.19.0/scripts/kallsyms.c:509-548 | all symbols are replaced and `token_profit` is again exactly the number of adjacent positions over all of them |
| `Kallsyms.Compressor.FindBestToken` | lab3/usr/src/linux-headers-4.19.0/scripts/kallsyms.c:551-565 | the first of the pairs of maximal count |
| `Kallsyms.Compressor.HandOutBest` | lab3/usr/src/linux-headers-4.19.0/scripts/kallsyms.c:581-591 | a free slot gets the first pair of maximal count, which is replaced in all symbols |
| `Kallsyms.Compressor.OptimizeSlot` | lab3/usr/src/linux-headers-4.19.0/scripts/kallsyms.c:574-593 | one round keeps the counts, the table and the texts, hands out the best pair, and never lengthens the symbols; it ends the loop only if no pair is left |
| `Kallsyms.Compressor.OptimizeResult` | lab3/usr/src/linux-headers-4.19.0/scripts/kallsyms.c:568-594 | at the end every pair was the best in its turn, all slots are in use or no pair is left, and every symbol expands to its text |
| `Kallsyms.Compressor.InsertRealSymbolsInTable` | lab3/usr/src/linux-headers-4.19.0/scripts/kallsyms.c:597-611 | the table holds exactly the characters of the symbols |
| `Kallsyms.Compressor.OptimizeTokenTable` | lab3/usr/src/linux-headers-4.19.0/scripts/kallsyms.c:613-626 | from any symbols without NUL: each compressed symbol expands to the original; the pairs handed out are the best in each turn until there is none or no slot; the total length drops if any symbol has two codes; it fails exactly without symbols |
| `Kallsyms.Compressor.constructor` | lab3/usr/src/linux-headers-4.19.0/scripts/kallsyms.c:62-72 | the state before the first symbol: tables apart from each other and from the symbols, all counts 0, so that the main result can be used |
| `Kallsyms.Compressor.ExpandEntry` | lab3/usr/src/linux-headers-4.19.0/scripts/kallsyms.c:299-322 | the expander, run on a compressed symbol of the table with the tables the compression leaves, writes the symbol as it was read |
| `Kallsyms.CompressAndExpand` | lab3/usr/src/linux-headers-4.19.0/scripts/kallsyms.c:613-626 | reading, compressing and expanding any symbols without NUL that fit the result gives back all of them, in order; it fails exactly without symbols |
| `Kallsyms.Compressor.ExpandSymbol` | lab3/usr/src/linux-headers-4.19.0/scripts/kallsyms.c:299-322 | the recursive expander ends, writes exactly the expansion and a NUL, and returns its length |
| `Asn1Ranking.RenderableIff` | lab3/usr/src/linux-headers-4.19.0/scripts/asn1_compiler.c:1396-1615 | rendering from the root can end, for whatever reason, if and only if every call reached has the child it needs and no call reached makes itself again before a jump |
| `Asn1Ranking.RenderableSound` | lab3/usr/src/linux-headers-4.19.0/scripts/asn1_compiler.c:1443-1615 | a grammar that can be rendered has no such cycle and no such missing child in reach |
| `Asn1Ranking.SoundRenderable` | lab3/usr/src/linux-headers-4.19.0/scripts/asn1_compiler.c:1443-1615 | without them, the longest chain of calls from each call shows that rendering ends |
| `Asn1Shapes.PrimitiveShape` | lab3/usr/src/linux-headers-4.19.0/scripts/asn1_compiler.c:1456-1530 | a primitive element, entry by entry |
| `Asn1Shapes.AnyShape` | lab3/usr/src/linux-headers-4.19.0/scripts/asn1_compiler.c:1464-1472 | ANY, entry by entry |
| `Asn1Shapes.OverrideShape` | lab3/usr/src/linux-headers-4.19.0/scripts/asn1_compiler.c:1474-1476 | an element that overrides a tag renders its child with it, and nothing else |
| `Asn1Shapes.ReferenceShape` | lab3/usr/src/linux-headers-4.19.0/scripts/asn1_compiler.c:1488-1536 | a reference: opcode and tag or, without a tag of its own, the tag passed on; the referenced element; its action |
| `Asn1Shapes.ChoiceShape` | lab3/usr/src/linux-headers-4.19.0/scripts/asn1_compiler.c:1601-1608 | a choice: every alternative as its own tag, failure behind them unless it may be skipped, its action |
| `Asn1Shapes.SequenceShape` | lab3/usr/src/linux-headers-4.19.0/scripts/asn1_compiler.c:1549-1558 | an inline sequence: opcode, tag, all children, the end, its action |
| `Asn1Loops.OutOfLineShape` | lab3/usr/src/linux-headers-4.19.0/scripts/asn1_compiler.c:1443-1453 | a sequence or a loop used more than once, or that may be skipped, is opcode, tag and a jump to its body |
| `Asn1Loops.InlineLoopShape` | lab3/usr/src/linux-headers-4.19.0/scripts/asn1_compiler.c:1576-1587 | an inline loop: opcode, tag, its first child, the end, the jump back over exactly what stands between, its action |
| `Asn1Loops.BodyShape` | lab3/usr/src/linux-headers-4.19.0/scripts/asn1_compiler.c:1407-1436 | a body: all children, the end, for a loop the jump back to the start, its action, a return |
| `Asn1Layout.OpsUnique` | lab3/usr/src/linux-headers-4.19.0/scripts/asn1_compiler.c:1443-1615 | what an element renders to does not depend on the argument why rendering ends |
| `Asn1Layout.MachineUnique` | lab3/usr/src/linux-headers-4.19.0/scripts/asn1_compiler.c:1360-1381 | nor does the whole machine, the order of its out-of-line elements included |
| `Asn1Layout.ScheduleExists` | lab3/usr/src/linux-headers-4.19.0/scripts/asn1_compiler.c:1396-1438 | every grammar has one order in which its out-of-line elements are found; the list empties after as many bodies |
| `Asn1Layout.BodyAt` | lab3/usr/src/linux-headers-4.19.0/scripts/asn1_compiler.c:1396-1438 | the body of each out-of-line element stands, once, at the index noted for it |
| `Asn1Layout.JumpsFound` | lab3/usr/src/linux-headers-4.19.0/scripts/asn1_compiler.c:1534-1581 | every element that is jumped to is on the list |
| `Asn1Layout.JumpsLand` | lab3/usr/src/linux-headers-4.19.0/scripts/asn1_compiler.c:1534-1581 | a jump emitted with these indices leads to the body of its element |
| `Asn1List.EnqueueThreaded` | lab3/usr/src/linux-headers-4.19.0/scripts/asn1_compiler.c:1544-1548 | appending through `render_list_p` keeps the list, with stale links behind it in the second pass |
| `Asn1List.DequeueThreaded` | lab3/usr/src/linux-headers-4.19.0/scripts/asn1_compiler.c:1402-1405 | taking the first element off follows a stale link only to the element found next |
| `Asn1List.SecondThreaded` | lab3/usr/src/linux-headers-4.19.0/scripts/asn1_compiler.c:1368-1369 | clearing ELEMENT_RENDERED but not `render_next` leaves a list the second pass can start from |
| `Asn1List.ElementList.Enqueue` | lab3/usr/src/linux-headers-4.19.0/scripts/asn1_compiler.c:1544-1548 | the flag, the list and the tail pointer after an element is found |
| `Asn1List.ElementList.Dequeue` | lab3/usr/src/linux-headers-4.19.0/scripts/asn1_compiler.c:1402-1405 | the list after an element is taken off |
| `Asn1List.ElementList.ClearRendered` | lab3/usr/src/linux-headers-4.19.0/scripts/asn1_compiler.c:1368-1369 | the state between the passes |
| `Asn1Render.Renderer.RenderOpcode` | lab3/usr/src/linux-headers-4.19.0/scripts/asn1_compiler.c:1268-1280 | an entry is counted in both passes and emitted in the second |
| `Asn1Render.Renderer.RenderJump` | lab3/usr/src/linux-headers-4.19.0/scripts/asn1_compiler.c:1539-1548 | an out-of-line element becomes a jump to its index and is put on the list once |
| `Asn1Render.Renderer.RenderElement` | lab3/usr/src/linux-headers-4.19.0/scripts/asn1_compiler.c:1443-1615 | rendering an element counts, emits and finds what its specification says, in either pass |
| `Asn1Render.Renderer.RenderBody` | lab3/usr/src/linux-headers-4.19.0/scripts/asn1_compiler.c:1407-1436 | the body of an out-of-line element |
| `Asn1Render.Renderer.RenderOutOfLineList` | lab3/usr/src/linux-headers-4.19.0/scripts/asn1_compiler.c:1396-1438 | the worklist loop ends, every found element rendered exactly once, its index noted |
| `Asn1Render.Renderer.Render` | lab3/usr/src/linux-headers-4.19.0/scripts/asn1_compiler.c:1360-1381 | both passes, for every grammar whose root can be rendered: the machine is the root and every body once, with each index where that body starts; pass 2 agrees with pass 1 entry by entry and the list empties |
| `Asn1Render.Renderer.constructor` | lab3/usr/src/linux-headers-4.19.0/scripts/asn1_compiler.c:1360-1364 | nothing is rendered and nothing linked, which is what the first pass starts from |
| `Asn1Render.RenderGrammar` | lab3/usr/src/linux-headers-4.19.0/scripts/asn1_compiler.c:1296-1381 | every grammar without such a cycle or missing child is rendered to its machine by a new renderer |
| `Asn1Loops.RenderedLoopsLand` | lab3/usr/src/linux-headers-4.19.0/scripts/asn1_compiler.c:1576-1587 | in the rendered machine the tag of every loop is followed by a jump out of line, or by exactly the entries of its child, its end, and a `_jump_target` that is the index of the first of these entries |
| `Asn1Loops.RenderedBodyLoopsLand` | lab3/usr/src/linux-headers-4.19.0/scripts/asn1_compiler.c:1406-1431 | the body of every out-of-line loop consists from its entry index on of exactly the entries of its children, its end, and a `_jump_target` that is that index |
| `Asn1Loops.OnlyLoopsJumpBack` | lab3/usr/src/linux-headers-4.19.0/scripts/asn1_compiler.c:1421-1586 | nothing else jumps back |
| `Asn1Render.RenderedJumpsLand` | lab3/usr/src/linux-headers-4.19.0/scripts/asn1_compiler.c:1360-1381 | in the rendered machine every `_jump_target` of an out-of-line element is the index where its body starts |
| `RecordFile.WrittenKeeps` | lab3/usr/src/linux-headers-4.19.0/scripts/recordmcount.c:126-161 | on one growable array a write changes nothing outside its range |
| `RecordFile.SplitWrite` | lab3/usr/src/linux-headers-4.19.0/scripts/recordmcount.c:134-158 | a write split between map and append buffer is the ideal write |
| `RecordFile.VirtualFile.Seek` | lab3/usr/src/linux-headers-4.19.0/scripts/recordmcount.c:94-113 | the new position, or failure exactly for one before the file |
| `RecordFile.VirtualFile.Write` | lab3/usr/src/linux-headers-4.19.0/scripts/recordmcount.c:126-161 | map and append buffer together are the growable array after a plain write; it fails exactly when the write ends at the end of the map and nothing was appended before |
| `RecordFile.VirtualFile.WriteFile` | lab3/usr/src/linux-headers-4.19.0/scripts/recordmcount.c:310-347 | the file written is one the ideal allows, or nothing if nothing was updated |
| `RecordAppend.WordReads` | lab3/usr/src/linux-headers-4.19.0/scripts/recordmcount.c:351-394 | a word stored in the target's byte order is read back |
| `RecordAppend.AppendParts` | lab3/usr/src/linux-headers-4.19.0/scripts/recordmcount.h:204-251 | the writes of `append_func` leave names, headers, locations and relocations at their places without overlap, and the rest of the file as it was |
| `RecordAppend.AppendFunc` | lab3/usr/src/linux-headers-4.19.0/scripts/recordmcount.h:178-252 | the finished file; it fails exactly if the old name table is empty |
| `RecordAppend.SectionsFound` | lab3/usr/src/linux-headers-4.19.0/scripts/recordmcount.h:178-252 | in any finished file a reader finds the header table by e_shoff, with two more headers; the new name table through the header e_shstrndx names, with its new offset and size; the locations and the relocations through the two last headers, their names in the name table found, and in these headers the types, flags, alignment and entry sizes, the link and the section number that the relocations need |
| `RecordAppend.CopiedNamesSame` | lab3/usr/src/linux-headers-4.19.0/scripts/recordmcount.h:199-208 | the copied names are those of the input, unless its name table contains its own header, which is changed before |
| `RecordAppend.AppendAndWrite` | lab3/usr/src/linux-headers-4.19.0/scripts/recordmcount.h:178-252 | `append_func` and then writing the file: a reader of what is written finds the name table, both sections and their names |
| `RecordSift.NeverOverflows` | lab3/usr/src/linux-headers-4.19.0/scripts/recordmcount.h:304-347 | over all traced sections the new relocations stay below the sum of the section sizes and the slots below half of it; entry k points at slot k |
| `RecordSift.WorstCaseFits` | lab3/usr/src/linux-headers-4.19.0/scripts/recordmcount.h:483-511 | when every relocation is a call, what is recorded fits the buffer sized by the 32-bit sum exactly if the sum stays below 2^32 |
| `RecordSift.RecordedIff` | lab3/usr/src/linux-headers-4.19.0/scripts/recordmcount.h:325-344 | with one name for mcount, recorded are the calls and the relocations against symbol 0 before the first call, but on MIPS none that is 4 bytes behind the one before it |
| `RecordSift.OnlyCallsIff` | lab3/usr/src/linux-headers-4.19.0/scripts/recordmcount.h:325-344 | only calls of mcount are recorded if and only if no relocation against symbol 0 precedes the first of them, on MIPS unless it is 4 bytes behind the one before it |
| `RecordSift.EarlierFileHidesCall` | lab3/usr/src/linux-headers-4.19.0/scripts/recordmcount.h:164-176 | on MIPS, `old_r_offset` is kept from file to file: a section whose first call is missed after a file that ends 4 bytes below it |
| `RecordSift.EarlyZeroRecorded` | lab3/usr/src/linux-headers-4.19.0/scripts/recordmcount.h:321-329 | a section whose first relocation, against symbol 0, is recorded as a call |
| `RecordSift.AllCallsIff` | lab3/usr/src/linux-headers-4.19.0/scripts/recordmcount.h:254-276 | all calls are recorded if and only if the section names mcount by one symbol and, on MIPS, no call is 4 bytes behind the one before it |
| `RecordSift.SecondNameMissed` | lab3/usr/src/linux-headers-4.19.0/scripts/recordmcount.h:325-329 | a section with two names of mcount, whose second call is not recorded |
| `RecordResolve.RecordResolves` | lab3/usr/src/linux-headers-4.19.0/scripts/recordmcount.h:325-344 | in order and without others, every call picked has a slot and a relocation against its base symbol, of the type of the target; linked anywhere, the word is the address of the call plus `mcount_adjust`, modulo the width of an address; with an addend the slot is 0 |
| `RecordResolve.AddressLinks` | lab3/usr/src/linux-headers-4.19.0/scripts/recordmcount.h:330-331 | the address relative to the base symbol gives back the address of the call and the adjustment |
| `RecordSift.ExceedsOnlyLarge` | lab3/usr/src/linux-headers-4.19.0/scripts/recordmcount.h:517-522 | the buffers are left only by files with 4 GiB of traced relocations or more |
| `RecordSift.TwoHugeOverrun` | lab3/usr/src/linux-headers-4.19.0/scripts/recordmcount.h:483-522 | two sections of 2 GiB of calls: the sum in 32 bits is 0 and the first call is written behind the buffers |
| `RecordSift.Buffers.Put` | lab3/usr/src/linux-headers-4.19.0/scripts/recordmcount.h:330-343 | one slot and one relocation, inside both buffers exactly if there is room for the relocation |
| `RecordSift.Buffers.Sift` | lab3/usr/src/linux-headers-4.19.0/scripts/recordmcount.h:304-347 | the loop over a section records what is specified, the MIPS filter included, exactly if that fits |
| `RecordSift.Buffers.NopMcount` | lab3/usr/src/linux-headers-4.19.0/scripts/recordmcount.h:354-402 | the other user of the MIPS filter: where it leaves `old_r_offset`, for either option, with its early return |
| `RecordSift.TotRelSize` | lab3/usr/src/linux-headers-4.19.0/scripts/recordmcount.h:483-498 | the size in 32 bits, or the early success for a file that has `__mcount_loc` |
| `RecordSift.DoFunc` | lab3/usr/src/linux-headers-4.19.0/scripts/recordmcount.h:502-541 | all sections of any file, after any files before it: the record of all calls in the buffers sized beforehand, which are left exactly if the record needs more than the 32-bit sum; and the `old_r_offset` the next file starts with |
| `RecordMcount.RecordFound` | lab3/usr/src/linux-headers-4.19.0/scripts/recordmcount.h:178-252 | the record in the file written: slot k stands k words behind the offset of the first new header; the relocations stand one after the other behind that of the second, whose entry size is read, and are found in steps of it if and only if all have that size |
| `RecordMcount.EntriesAtIff` | lab3/usr/src/linux-headers-4.19.0/scripts/recordmcount.h:239-248 | relocations written one after the other, each in the size of its section, are found in steps of one entry size if and only if all have that size |
| `RecordMcount.MixedSizesLost` | lab3/usr/src/linux-headers-4.19.0/scripts/recordmcount.h:529-541 | a file with one traced section of `Elf_Rel` and one of `Elf_Rela`: both calls are recorded, and no entry size fits both |
| `RecordLink.EntryRead` | lab3/usr/src/linux-headers-4.19.0/scripts/recordmcount.h:332-336 | offset, symbol, type and addend of a relocation are read back from its bytes, in the forms of both widths and of 64-bit MIPS |
| `RecordLink.FileResolves` | lab3/usr/src/linux-headers-4.19.0/scripts/recordmcount.h:178-252 | the file written, read as a linker does: behind the two new headers stand a slot and a relocation for each call picked, and relocating gives the address of that call plus `mcount_adjust` |
| `RecordMcount.RecordCalls` | lab3/usr/src/linux-headers-4.19.0/scripts/recordmcount.h:502-553 | from the sections to the file, for any mix of sections with `Elf_Rel` and `Elf_Rela`: every call recorded is found in the file written, with its slot and its relocation, by the entry size of the header exactly if the last traced section has the size of all recorded; a file without calls is not written |
| `Vrange.Vrange.Delayed` | lab1/obj_dir/Vrange.cpp:117-157 | the delayed control registers |
| `Vrange.Vrange.Sequent` | lab1/obj_dir/Vrange.cpp:87-176 | a rising edge on the registers and the memory |
| `Vrange.Vrange.EvalModel` | lab1/obj_dir/Vrange.cpp:29-83 | one call of `eval`, with the initialization of the first |
| `Vrange.StepIs` | lab1/obj_dir/Vrange.cpp:183-209 | the next term: half of an even number, three times an odd one and one, in 32 bits |
| `Vrange.ThreeTakesEight` | lab1/obj_dir/Vrange.cpp:183-209 | the sequence of 3 has eight terms |
| `Vrange.BusyEdge` | lab1/obj_dir/Vrange.cpp:105-176 | one edge of a run: the next term, the write, the next word or the end |
| `Vrange.AlwaysTracked` | lab1/obj_dir/Vrange.cpp:87-176 | at any time the model is idle or on a run from the number latched last |
| `Vrange.WhenDoneRises` | lab1/obj_dir/Vrange.cpp:127-166 | whatever `go` and `start` do: when `done` rises, each of the sixteen words is the number of terms, mod 2^16, of the 32-bit Collatz sequence from the latched number plus its index |
| `Vrange.DoneExactly` | lab1/obj_dir/Vrange.cpp:87-176 | if the sixteen sequences reach 1 with lengths L_i, `done` rises exactly sum(L_i + 2) edges after the one that took `go`, and no sooner |
| `Vrange.NeverDone` | lab1/obj_dir/Vrange.cpp:87-176 | if one of them never reaches 1, `done` never rises |
| `Vrange.ZeroNeverReaches` | lab1/obj_dir/Vrange.cpp:110-117 | 0 never reaches 1, so no run that starts at 0 or passes 2^32 - 1 ends |
| `Vrange.MemoryFixed` | lab1/obj_dir/Vrange.cpp:121-125 | between runs the memory does not change |
| `Vrange.ReadBack` | lab1/obj_dir/Vrange.cpp:109 | between runs a word is read by its address in `start` |
| `Atomic.Linearizable` | lab3/usr/src/linux-headers-4.19.0/include/asm-generic/atomic.h:40-72 | for any number of threads, programs and interleavings the counter and all replies, both computed from the thread's local value, are those of the calls run one at a time, each between its begin and its return, in the order of their successful steps |
| `Atomic.Conserved` | lab3/usr/src/linux-headers-4.19.0/include/asm-generic/atomic.h:40-73 | if all threads only add, subtract and read, the counter is at any time what it was plus what the completed calls add, modulo 2^32, for every interleaving |
| `Atomic.BitsOf` | lab3/usr/src/linux-headers-4.19.0/include/asm-generic/atomic.h:117-163 | and, or and xor, bit by bit |
| `Atomic.RepliesAre` | lab3/usr/src/linux-headers-4.19.0/include/asm-generic/atomic.h:40-73 | `_return` replies with the value left, `fetch` with the value found, the plain operation with none |
| `Atomic.StepFits` | lab3/usr/src/linux-headers-4.19.0/include/asm-generic/atomic.h:40-72 | one read or cmpxchg step of one thread keeps this: the comparison makes the local value current when it is used |
| `Atomic.FailureMeansProgress` | lab3/usr/src/linux-headers-4.19.0/include/asm-generic/atomic.h:46-47 | a failed cmpxchg means a call of another thread took effect since the value was read |
| `SortExtable.AbsoluteRelative` | lab3/usr/src/linux-headers-4.19.0/scripts/sortextable.c:212-265 | normalizing and denormalizing are inverse, mod 2^32 |
| `SortExtable.AbsoluteIsAddress` | lab3/usr/src/linux-headers-4.19.0/scripts/sortextable.c:241-254 | made absolute, every word is the address it stands for, counted from the start of the table |
| `SortExtable.SignedIs` | lab3/usr/src/linux-headers-4.19.0/scripts/sortextable.c:200-210 | the comparison takes words for the signed numbers they are |
| `SortExtable.QSort` | lab3/usr/src/linux-headers-4.19.0/scripts/sortextable.c:227 | the sort the C library promises: a permutation in ascending order |
| `SortExtable.InsertKeeps` | lab3/usr/src/linux-headers-4.19.0/scripts/sortextable.c:200-210 | insertion keeps the signed order of `compare_relative_table` and the entries |
| `SortExtable.SortRelativeTable` | lab3/usr/src/linux-headers-4.19.0/scripts/sortextable.c:241-265 | the absolute entries of the table, as a multiset, are those of before, in ascending signed order of their first word |
| `SortExtable.X86SortRelativeTable` | lab3/usr/src/linux-headers-4.19.0/scripts/sortextable.c:212-239 | the same for entries of three words |
| `Chat.WrappedKeeps` | lab2/lab2.c:254-302 | wrapping loses only line ends, and no line is wider than the screen |
| `Chat.WrappedBreaks` | lab2/lab2.c:254-302 | the breaks are at the newlines and after exactly every 64 characters of a line, nowhere else; a remainder is a row of its own, at a newline even if it is empty |
| `Chat.Window.Flush` | lab2/lab2.c:256-271 | one more line; when the window is full it scrolls |
| `Chat.Window.ChatPrintLine` | lab2/lab2.c:245-302 | the window holds exactly the last 20 lines of the log of all wrapped messages |
| `Chat.ArrowsUndo` | lab2/lab2.c:166-175 | the arrows change no text, undo each other away from the ends, and do nothing there |
| `Chat.ArrowsMove` | lab2/lab2.c:166-175 | what is typed after an arrow stands one place further to its side |
| `Chat.BackspaceUndoes` | lab2/lab2.c:191-217 | Backspace undoes an inserted character |
| `Chat.TypedStands` | lab2/lab2.c:203-217 | what is typed at the cursor stands there |
| `Chat.Editor.Press` | lab2/lab2.c:159-217 | every key edits buffer, length and cursor as the ideal line, with a NUL behind it |
| `Chat.Editor.Send` | lab2/lab2.c:462-490 | Enter sends the line and a newline and clears it |
| `Logo.PackByte` | lab3/usr/src/linux-headers-4.19.0/scripts/pnmtologo.c:300-303 | up to eight pixels become a byte, the first in the highest bit |
| `Logo.WriteLogoMono` | lab3/usr/src/linux-headers-4.19.0/scripts/pnmtologo.c:283-309 | fails exactly for other colours than black and white; else a reader finds every pixel, rows taking ceil(w/8) bytes |
| `Logo.PackNibbles` | lab3/usr/src/linux-headers-4.19.0/scripts/pnmtologo.c:333-345 | two pixels a byte, the last alone if the width is odd |
| `Logo.ConsoleColors` | lab3/usr/src/linux-headers-4.19.0/scripts/pnmtologo.c:51-68 | the sixteen colours are those of their numbers' bits, 6 being brown |
| `Logo.WriteLogoVga16` | lab3/usr/src/linux-headers-4.19.0/scripts/pnmtologo.c:311-349 | fails exactly for other than the console colours; else a reader finds every pixel, rows taking ceil(w/2) bytes |
| `Logo.BuildClut` | lab3/usr/src/linux-headers-4.19.0/scripts/pnmtologo.c:356-368 | the palette: no duplicates, all colours of the image, at most 224 |
| `Logo.WriteLogoClut224` | lab3/usr/src/linux-headers-4.19.0/scripts/pnmtologo.c:351-395 | fails exactly for more than 224 colours; else every byte is an index plus 32 that selects the original colour of the palette written |
| `Framebuffer.PutLine` | lab2/fbputchar.c:80-109 | one line of a character: each font bit becomes two pixels |
| `Framebuffer.PutChar` | lab2/fbputchar.c:71-112 | the 32 by 16 pixels of the cell show the character and no other byte changes |
| `Framebuffer.PixelShown` | lab2/fbputchar.c:71-112 | pixel (y, x) is white exactly if font bit (y/2, x/2) is set |
| `Framebuffer.CellsApart` | lab2/fbputchar.c:75-78 | different cells of a row share no byte, for any line length that holds them |
| `Framebuffer.PutString` | lab2/fbputchar.c:118-122 | every character of a string ends up in its own cell, and nothing else changes |

## Left out

- unifdef: comments, strings and line splitting of `skipcomment` and `fgets`; directives are tokens and lines are classified. The options -B, -c, -s, -S and -t.
- unifdef: `defined` followed by no name, and other token strings the evaluator accepts without giving them a meaning, are one kind of expression with an unknown value.
- unifdef: closing and renaming the output file at the end.
- Div64.DoDiv: `__div64_32` is an external function and is not part of this model; the model says exactly when it is called.
- Kallsyms.Compressor.OptimizeTokenTable: `symbol_valid` is applied beforehand, and the counters are unbounded integers.
- Kallsyms.Compressor.ExpandSymbol: data is a sequence and the result array is large enough; the emitted table's text format is not modelled.
- asn1_compiler: the tokeniser, the parser and the SET type, for which the renderer exits. Opcode names and tags are abstracted to the elements they are made from; `render_more`, which writes comments only.
- recordmcount: reading and mapping files; the bytes and relocations that `make_nop` and `nop_mcount` change, apart from `old_r_offset`; and `find_secsym_ndx`, whose result is part of a section. `realloc` and `malloc` do not fail.
- recordmcount: reading the section headers and symbols from the bytes of the file; `RecordSift` takes them as values.
- RecordMcount.RecordCalls: traced relocation sections whose entry size is neither that of `Elf_Rel` nor that of `Elf_Rela`, which no reader could take apart.
- RecordSift.DoFunc: what memory holds once the program has written behind its buffers.
- RecordAppend.SectionsFound: files whose new offsets, sizes or section numbers do not fit their fields and would wrap: an address, 32 bits for the place of a name, 16 bits for the number of sections.
- RecordSift.Buffers.Sift: which symbols are named like mcount is part of a section; names are not compared character by character.
- Vrange: the trace files and debugging checks. Registers are grouped into records of the two design parts.
- Atomic.Linearizable: memory ordering beyond the interleaving of whole reads and cmpxchg steps, and the variant without CONFIG_SMP.
- SortExtable.SortRelativeTable: words are values; reading and writing them in the target's byte order is not modelled, nor the other sorts of the tool.
- Chat: sockets, threads and their unlocked races, the drawing of rows and cursor, the key repeat filter and `hid_to_ascii`.
- Framebuffer.PutChar: characters from 128 on, for which the font has no bytes; the contents of the font.
- Logo: reading the image file, the text of the output and the grey-scale writer, which copies one component.
- All other headers, labs' testbenches, scripts and drivers: declarations and plumbing.
