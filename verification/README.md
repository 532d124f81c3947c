# Verified models of the AC compiler's hard parts

AC is a language with a compiler that goes from source to a flat IR and on to several backends. This project models
its most intricate logic in Dafny 4.11 and proves what that logic promises. `dafny verify dfyconfig.toml` checks
everything.

- **The AArch64 code generator** (`Arm*.dfy`, `Simulation.dfy`, `Structured*.dfy`). A small machine, the integer and
  list IR, the emitter with its pending temp, slots, label stacks and hidden loop temps, and a whole-run simulation:
  over every run, finished or not, the emitted code passes where the IR passes and shows what it shows, with or without
  temps kept in registers, and the flat IF/FOR markers compute what the nested program computes. `ArmOperators` says what
  each operator of the IR computes, in plain arithmetic, `ArmBalance` for which programs a compile succeeds,
  `ArmVariables` which variables have slots, `ArmKept` which temps need none, `ArmCalls` where temp elision is wrong.
  The emitter is class `Compiler`; `ArmCodegen` is its state as a value.
- **Branch fixups** (`Fixups.dfy`), the machine on the patched words (`ArmWords.dfy`), and the **float pre-scan**
  (`FloatScan.dfy`).
- **Runtime routines the backend emits**: decimal printing of doubles (`FloatText.dfy`, `FloatPrint.dfy`, and
  `FloatRead.dfy`, which reads the text on its own), the wildcard matcher (`Glob.dfy`), the chunked allocator
  (`Alloc.dfy`), lists (`ListHeap.dfy`), dictionaries (`DictHeap.dfy`), integers and text (`IntText.dfy`), texts in
  memory (`CText.dfy`).
- **The Pratt parser** (`Pratt*.dfy`) with its error recovery: a missing token is reported, what stands in front of the
  next line or statement is dropped, and the parse goes on until one error too many is thrown. Functions, the grammar of
  what is read and how many errors it costs, exactness and printing, when the parser never ends (`PrattJam`), a one-pass
  check that rules that out (`PrattNeat`), and the parser object. `PrattLayers` is the language once more, as a grammar
  with one layer for each set of operators, written apart from the parser's precedence table.
- **The string evaluator** (`Eval*.dfy`): the grammar and its value, exactness, and the routines with their shared
  cursor.
- **The symbol table** (`Symbols.dfy`) and **both cache files** (`Wire.dfy`, `IrCache.dfy`, `IrCacheRun.dfy`,
  `AccCache.dfy`); `Formats.dfy` writes out a small file of each format byte by byte.
- **Imports and exports** (`ExportClosure.dfy`, `Imports.dfy`, `ImportsRun.dfy`): the needed-names worklist and the
  recursive injection. `ImportTree` is what importing leaves in a program, said of the tree of files followed.
- **The archive** (`ParallelZip.dfy`): every interleaving of the worker pool, the framing and its reader.
- Shared definitions: `Numbers.dfy`, `Options.dfy`, `Sequences.dfy`.

Methods carry the loops and state changes of the source and are tied by their `ensures` to functions; the lemmas are
about those functions.

## What the proofs found

- A constructor call or a list-returning library call runs the allocator before it loads its arguments. An argument that
  temp elision keeps in a register is overwritten there, and the callee gets the size of the new block
  (`ArmCalls.SumLost` is an input, `ArmCalls.ArgumentsExact` says exactly when elision is right).
- A call's argument loop in the parser consumes nothing and reports nothing at a ']' or '}', at a ':', and at the end of
  a line or block, and never ends there. Matching brackets do not help: in `f((1 2))` the missing ')' behind the 1 is
  reported and looked for up to the end of the line, where the argument loop of f then stands
  (`PrattJam.ResyncExample`; `OpenCallExample`, `OpenIndexExample` and `PrattExact.ArgLoopExample` are other inputs).
  `PrattJam.NeverEndsExactly` says on which token lists this happens, errors and their recovery included, and
  `PrattNeat.NeatEnds` gives a check on the tokens that rules it out.
- A plus sign where an operand is missing is read as a name, since the lexer makes an identifier of it: `1 * +` is an
  expression, and `+(3)` a call (`PrattExact.OperandMissing`, `TimesPlus`, `SumPlus`).
- Of the eight type names that may follow ';' in a tuple, `short`, `mini` and `atomic` are always refused: the lexer
  makes keywords of them, and the parser asks for an identifier (`Pratt.TypeName` keeps the other five).
- The loop that counts a range's numbers misses the end when the first number past it does not fit 64 bits
  (`ListHeap.CountsExactly`, `WrapExample`).
- The float pre-scan does not look at LOAD_VAR: a float variable loaded into a temp leaves the temp unmarked
  (`FloatScan.MarksCoverExactly`, `LoadExample`).
- `eval` accepts any character that cannot continue a group as its closing parenthesis, and reads a missing operand at
  the end of the text as 0 (`EvalExact.AnyCloser`, and the grammar behind `EvaluatesExactly`).
- ADR words are not range checked: they reach their label exactly within one megabyte (`Fixups.AdrDecodes`).
- The text of -2^63 is no numeral, since its digits come out below '0'; read back it is still -2^63, so the round trip
  holds for every 64-bit integer (`IntText.RoundTrip`, `NumeralUnlessSmallest`).
- The distance operator (xsub) gives the distance and one more only where the difference of its operands fits: further
  apart the difference wraps first (`ArmOperators.DistanceExact`).
- A zero-length range has capacity 0, which doubling never changes (`ListHeap.ZeroStaysZero`).
- A constant of a type other than int, float, string or bool comes back from the IR cache with no type, strings lose all
  but their length mod 65536, and legacy operands, comments, line numbers and some program flags are not stored
  (`IrCache.LoadedWhole` says exactly when nothing is lost).
- A syntax tree node with 256 attributes or 65536 children writes a count that does not fit, and does not read back
  (`AccCache.LoadSaved`).
- An archived file of 2^32 bytes or more is rejected on reading unless its size is a multiple of 2^32, where the stored
  size is 0 and nothing is compared (`ParallelZip.ReadsBack`, `SizeChecked`).

## Model

| member | source | states |
|---|---|---|
| ArmCorrect.EmittedCodeRefinesIr | ac-compiler/src/exp_arm.cpp:2030-2330 | for every balanced program of the integer and list instructions, every eligible set of register-held temps and every run, finished or not: for each n the machine stands, in order, at the code of the IR positions 0 to n with the IR's text, heap and variables; what it prints after any number of steps the IR prints too; it halts exactly when the IR ends, with its result |
| ArmCorrect.ElidableIsEligible | ac-compiler/src/exp_arm.cpp:577-597 | the temps the scan picks (used once, by the instruction right after their last definition) are eligible, however often they are defined and wherever control can jump in |
| ArmCorrect.ElisionPreservesMeaning | ac-compiler/src/exp_arm.cpp:1446-1578 | code with elidable temps kept in registers and code that stores every temp pass through the same sequence of IR positions, so they take the same branches, and agree at each on text, heap and every variable the program mentions, on runs that never end too; they halt on the same starts with the same result |
| ArmCorrect.SameVariables | ac-compiler/src/exp_arm.cpp:729-736 | with and without register-held temps the variables that have a slot are exactly those the program mentions |
| ArmVariables.SlotsCover | ac-compiler/src/exp_arm.cpp:729-736 | after a whole compile a variable has a slot exactly when some instruction reads or writes it, loop variables included |
| ArmVariables.OthersKept | ac-compiler/src/exp_arm.cpp:2030-2330 | a variable the program does not mention keeps its value through every run |
| ArmKept.KeptHasNoSlot | ac-compiler/src/exp_arm.cpp:1553-1578 | a temp with one definition, used once by the instruction behind it, has no slot in the finished program: nothing stores it to memory or loads it from there |
| ArmBalance.CompilesExactly | ac-compiler/src/exp_arm.cpp:2098-2180 | a compile raises no bracket or label error exactly when every ELSE, END and FOR_END has its opener, every IF and FOR is closed and every jump label is there, whatever temps are kept |
| ArmCalls.CallRun | ac-compiler/src/exp_arm.cpp:2746-2760 | on the machine the code of a constructor or list-returning call hands over every argument as the program computed it, but for a temp still held in a register: the callee gets what the allocator left there |
| ArmCalls.ArgumentsExact | ac-compiler/src/exp_arm.cpp:4717-4730 | keeping temps in registers is right at such a call, on all starts, exactly when the call reads none of the kept temps |
| ArmCalls.BlockSizePassed | ac-compiler/src/exp_arm.cpp:2746-2757 | a kept temp among the arguments never arrives: the size of the new block does |
| ArmCalls.SumLost | ac-compiler/src/exp_arm.cpp:2746-2757 | t = a + b followed by a one-field constructor on t: the scan keeps t, and the constructor gets 8, whatever a and b are |
| ArmCompiler.ComputeElidableTemps | ac-compiler/src/exp_arm.cpp:577-597 | the three maps and the filter give exactly the temps used once in all, by the instruction behind their last definition |
| ArmCompiler.Compiler.EnsureSpilled | ac-compiler/src/exp_arm.cpp:1446-1455 | a pending value goes to its own slot and nothing else changes |
| ArmCompiler.Compiler.ProtectPending | ac-compiler/src/exp_arm.cpp:1460-1465 | a pending value in the register about to be written moves to the relocation register, any other stays |
| ArmCompiler.Compiler.LoadOperand | ac-compiler/src/exp_arm.cpp:1494-1552 | the pending temp is moved or already there and is consumed; an integer constant, a variable or another temp is loaded past it |
| ArmCompiler.Compiler.StoreResult | ac-compiler/src/exp_arm.cpp:1553-1578 | an elidable temp becomes pending where it is after an older one is spilled; any other temp or variable goes to its slot |
| ArmCompiler.Compiler.SlotOf | ac-compiler/src/exp_arm.cpp:729-736 | first use takes the next slot number, later uses the same one |
| ArmSim.LoadOk | ac-compiler/src/exp_arm.cpp:1494-1552 | run on the machine, the loading code leaves the operand's value in the register and keeps the relation between slots, pending register and IR state |
| ArmSim.StoreOk | ac-compiler/src/exp_arm.cpp:1553-1578 | run on the machine, the storing code leaves the machine related to the IR state with the result set |
| ArmSim.ProtectOk | ac-compiler/src/exp_arm.cpp:1460-1465 | moving the pending value loses no live value |
| ArmOps.UnOk | ac-compiler/src/exp_arm.cpp:1635-1639 | each one-operand sequence leaves the IR operator's value in its register |
| ArmOps.ModOk | ac-compiler/src/exp_arm.cpp:1685-1701 | the emitted remainder sequence computes the floored modulus of any two words and traps exactly on 0 |
| ArmOps.IndexOk | ac-compiler/src/exp_arm.cpp:3130-3164 | the emitted address arithmetic reads the element the IR names, negative indices counted from the end |
| ArmOperators.ArithmeticExact | ac-compiler/src/exp_arm.cpp:2246-2280 | the sums, differences and products of the IR are those of the integers modulo 2^64 |
| ArmOperators.ShiftsExact | ac-compiler/src/exp_arm.cpp:2343-2350 | a shift to the left multiplies modulo 2^64, a shift to the right drops the low bits and fills with zeros; the amount is the low six bits |
| ArmOperators.LogicExact | ac-compiler/src/exp_arm.cpp:2327-2338 | and, or and exclusive or work on each of the 64 bits alone |
| ArmOperators.QuotientExact | ac-compiler/src/exp_arm.cpp:2286-2301 | the integer quotient is rounded toward zero and traps exactly on 0; -2^63 by -1 gives -2^63 |
| ArmOperators.ModulusExact | ac-compiler/src/exp_arm.cpp:1685-1701 | the modulus differs from the dividend by a multiple of the divisor, has the divisor's sign and is smaller, and traps exactly on 0 |
| ArmOperators.DistanceExact | ac-compiler/src/exp_arm.cpp:2314-2326 | the distance operator gives the magnitude of the difference and one more, modulo 2^64, exactly when the difference lies between -2^63 and 2^63 |
| ArmOperators.TruthExact | ac-compiler/src/exp_arm.cpp:1641-1661 | the comparisons, signed, and the truth operators give 1 or 0, nonzero operands counting as true |
| ArmOperators.ComplementExact | ac-compiler/src/exp_arm.cpp:2339-2342 | the complement turns every bit over |
| ArmOperators.IndexExact | ac-compiler/src/exp_arm.cpp:3130-3164 | an index from minus the length up to the length reads the element it names from either end |
| ArmOperators.StoreExact | ac-compiler/src/exp_arm.cpp:3130-3164 | storing at such an index changes that element of the list and nothing else in memory |
| ArmOperators.JumpExact | ac-compiler/src/exp_arm.cpp:2184-2194 | a jump goes behind its label: always, when the operand is zero, or when it is not |
| ArmCompiler.Compiler.CompileIfBegin | ac-compiler/src/exp_arm.cpp:2090-2097 | two fresh labels go on the IF stack and the test branches to the else label |
| ArmCompiler.Compiler.CompileIfElse | ac-compiler/src/exp_arm.cpp:2098-2104 | the true branch jumps to the end label, the else label is placed here; an ELSE without an IF is an error |
| ArmCompiler.Compiler.CompileIfEnd | ac-compiler/src/exp_arm.cpp:2105-2113 | the end label, and the else label when no ELSE placed it, are placed here and the IF leaves the stack |
| ArmCompiler.Compiler.CompileFor | ac-compiler/src/exp_arm.cpp:2149-2168 | a list FOR, its list and index in two hidden temps, tests the length anew at its head and sets its variable to the next element |
| ArmCompiler.Compiler.CompileForEnd | ac-compiler/src/exp_arm.cpp:2169-2180 | the index goes up by one, control returns to the head, and the loop leaves the stack |
| ArmCompiler.Compiler.CompileInstr | ac-compiler/src/exp_arm.cpp:2030-2330 | each integer and list instruction changes the emitter exactly as the specification function says |
| ArmCompiler.Compiler.Compile | ac-compiler/src/exp_arm.cpp:5415-5424 | the compile raises no bracket or label error exactly for balanced programs, and then its code follows every run of the IR from every related start |
| ArmCorrect.BranchSim | ac-compiler/src/exp_arm.cpp:2184-2194 | a conditional branch on the machine goes where the IR goes, through the resolved labels |
| ArmLayout.StacksMatch | ac-compiler/src/exp_arm.cpp:2090-2183 | at every instruction the emitter's IF and FOR stacks are the brackets open in the IR, with their labels and cells |
| Structured.PassOver | ac-compiler/src/exp_arm.cpp:2090-2183 | after the markers of a nested program the same IFs and FORs are open as before them |
| StructuredRun.EveryTreeBalanced | ac-compiler/src/exp_arm.cpp:2090-2183 | every nesting of IFs and FORs flattens to markers that the label stacks compile without an error |
| StructuredRun.FlatComputesTree | ac-compiler/src/exp_arm.cpp:2090-2183 | for every nesting of IFs and list FORs and every run: the flat markers pass through every point the tree reaches, with its text, heap, fault, variables and temps, print nothing else, and stop exactly when the tree does; a list's length is read anew each turn |
| StructuredRun.MachineComputesTree | ac-compiler/src/exp_arm.cpp:2090-2183 | the machine code of every nested program, elidable temps kept in registers, passes through every point the tree reaches, prints nothing else, halts exactly when the tree ends and then shows its result; nothing is assumed about labels or brackets |
| Fixups.LongBranchDecodes | ac-compiler/src/exp_arm.cpp:5475-5484 | a B or BL word whose distance passes the checks decodes, with sign extension, to its label |
| Fixups.ShortBranchDecodes | ac-compiler/src/exp_arm.cpp:5479-5487 | a CBZ, CBNZ or B.cond word that passes the checks decodes to its label and keeps its register or condition |
| Fixups.AdrDecodes | ac-compiler/src/exp_arm.cpp:5488-5493 | an ADR word, which has no range check, decodes to its label exactly when the label is within one megabyte |
| Fixups.ReachExactly | ac-compiler/src/exp_arm.cpp:5475-5482 | some word at a branch's place means a branch to the label exactly when the distance is a multiple of 4 from -2^27 up to 2^27 for B and BL, from -2^20 up to 2^20 for the others |
| Fixups.CheckExact | ac-compiler/src/exp_arm.cpp:5468-5482 | the check refuses exactly the fixups without a label, off by part of an instruction, or out of reach of every word, and says which of these it is |
| Fixups.KnownWords | ac-compiler/src/exp_arm.cpp:5483-5493 | seven branch words as an assembler for the architecture writes them, forward and backward |
| Fixups.ResolveFixups | ac-compiler/src/exp_arm.cpp:5468-5495 | the pass goes on to the end exactly when every label is there, a whole number of instructions away and, ADR apart, in reach of some word; then every fixed word decodes to its label and no other byte has changed; otherwise it stops at the first other fixup, with the error that fits |
| ArmWords.SameRuns | ac-compiler/src/exp_arm.cpp:5468-5495 | a machine that takes its branches from the patched words, decoded at their own addresses, runs step for step as the one that takes them from the label table |
| ArmWords.ConditionCodes | ac-compiler/src/exp_arm.cpp:5485-5487 | the condition codes hold, on the flags that a comparison of two words leaves, exactly when the signed comparison does |
| ArmWords.PatchBranches | ac-compiler/src/exp_arm.cpp:5468-5495 | the pass over an image's branches raises no error exactly when every branch has its label within 2^27 bytes, or 2^20 for conditional ones, and then the words run as the labels say; otherwise the error is that of the first other branch |
| ArmWords.WordsFollowIr | ac-compiler/src/exp_arm.cpp:5415-5495 | from the IR to the words: where the pass raises no error on a balanced program, the patched words follow the IR over every run, temps kept in registers |
| ArmWords.PatchProgram | ac-compiler/src/exp_arm.cpp:5415-5495 | the pass run on a balanced program's code, where it raises no error, leaves words that follow the IR from every related start |
| FloatScan.Scanner.PreScan | ac-compiler/src/exp_arm.cpp:1006-1053 | the repeated pass ends with the least set that holds the start and is closed under the transfer rules |
| FloatScan.Scanner.MarkIfNew | ac-compiler/src/exp_arm.cpp:1010-1015 | a reference is added once, and literal-named variables never |
| FloatScan.MarksCoverExactly | ac-compiler/src/exp_arm.cpp:1006-1053 | no path through any loop or branch gives a float to an unmarked reference, exactly when no LOAD_VAR takes a marked reference to an unmarked one; the scan does not look at LOAD_VAR |
| FloatScan.LoadExample | ac-compiler/src/exp_arm.cpp:1006-1053 | a float variable loaded into a temp: the scan ends without marking the temp, which then holds a float |
| FloatScan.MarksAreReached | ac-compiler/src/exp_arm.cpp:1006-1053 | every marked reference holds a float on some path: the marks are exact |
| FloatScan.ScanAgrees | ac-compiler/src/exp_arm.cpp:1016-1050 | loads apart, the scan takes the result of an instruction for a float exactly when the instruction gives one, as said without the scan's rules |
| FloatText.DigitsExact | ac-compiler/src/exp_arm.cpp:3884-3903 | the extracted digits are the exact leading decimal digits of the fraction and the rest is what remains |
| FloatText.NoOverflow | ac-compiler/src/exp_arm.cpp:3890-3903 | ten times the remaining fraction always fits an unsigned 64-bit register when the shift is at most 60 |
| FloatText.SixteenSignificant | ac-compiler/src/exp_arm.cpp:3905-3954 | a fraction with integer part 0 keeps 16 digits from its first nonzero one on, within the buffer |
| FloatText.NearestValue | ac-compiler/src/exp_arm.cpp:3956-4001 | the rounded number is the exact value to the nearest unit of the last kept place, halves up, carry included |
| FloatText.TextReadsBack | ac-compiler/src/exp_arm.cpp:4003-4117 | the digits in front of and behind the point denote exactly the rounded number, and the fraction ends in no zero |
| FloatRead.KeptIsSixteenth | ac-compiler/src/exp_arm.cpp:3815-3836 | the last kept place is that of the sixteenth significant digit, with 16 less its digits for a nonzero integer part, and none when these are 16 or more |
| FloatRead.PrintedShows | ac-compiler/src/exp_arm.cpp:3905-4117 | the text, read as sign, digits, point and digits, is the number rounded to the nearest unit of its sixteenth significant digit; a minus sign stands first exactly when the number is negative, no 0 stands in front of another digit, and a whole number gets .0 exactly outside display mode |
| FloatPrint.Budget | ac-compiler/src/exp_arm.cpp:3815-3836 | the digit budget is 16 less the digits of the integer part |
| FloatPrint.BitsExact | ac-compiler/src/exp_arm.cpp:3853-3867 | a normal fraction below 1 is the mantissa with its leading 1 over 2 to the shift, exactly, and below 1 |
| FloatPrint.FractionScaled | ac-compiler/src/exp_arm.cpp:3853-3880 | what is printed is the fraction itself from the biased exponent 1015 on, below that the next multiple of 2^-52 under it; the shift is at most 60 and the scaled fraction below 2 to the shift |
| FloatPrint.Extract | ac-compiler/src/exp_arm.cpp:3884-3903 | the loop fills the buffer with the digits of the fraction |
| FloatPrint.Carry | ac-compiler/src/exp_arm.cpp:3976-4000 | adding one at the last kept place ripples through nines and out into the integer part exactly when all are nines |
| FloatPrint.Round | ac-compiler/src/exp_arm.cpp:3956-4001 | the kept digits and the integer part become the rounded number |
| FloatPrint.PrintFloat | ac-compiler/src/exp_arm.cpp:3764-4117 | the bytes left in the buffer, read as sign, digits, point and digits, are the sign and the value of the integer part and the scaled fraction, rounded at the sixteenth significant digit, in display mode or not, with room for the newline |
| CText.StrEq | ac-compiler/src/exp_arm.cpp:4523-4542 | the loop returns 1 exactly when the two NUL-terminated texts are equal |
| CText.TextUnique | ac-compiler/src/exp_arm.cpp:4523-4542 | an address holds one text, so the comparison's result is a fact of the memory alone |
| Glob.GlobIsMatch | ac-compiler/src/exp_arm.cpp:4785-4832 | the recursive matcher agrees with the definition: substrings for the % signs that make the whole subject |
| Glob.NextStar | ac-compiler/src/exp_arm.cpp:4785-4832 | going back to the latest % only is enough: an earlier one never needs to take more |
| Glob.WildcardMatch | ac-compiler/src/exp_arm.cpp:4785-4832 | the one-pass loop returns 1 exactly when some assignment of substrings to the % signs makes the whole subject, and it ends |
| Alloc.AllocatedSafe | ac-compiler/src/exp_arm.cpp:4619-4667 | one request keeps every block inside one mapped chunk and clear of all others, across chunk switches and for any size |
| Alloc.AllocatedZero | ac-compiler/src/exp_arm.cpp:4619-4667 | one request's block is all zeros, whatever was mapped, handed out and written before, and the older blocks keep their bytes |
| Alloc.MapsWhenFull | ac-compiler/src/exp_arm.cpp:4619-4667 | a new chunk is mapped exactly when the block does not fit behind what is used of the last one; it has 16 MB, or the fewest pages that hold a larger block |
| Alloc.RunSafe | ac-compiler/src/exp_arm.cpp:4619-4667 | over any run each request has a block of its size inside one chunk and no two blocks overlap |
| Alloc.EveryBlockZero | ac-compiler/src/exp_arm.cpp:4619-4667 | over any run of requests and of writes inside the blocks they returned, the next block is all zeros |
| Alloc.Allocator.Alloc | ac-compiler/src/exp_arm.cpp:4619-4667 | the block returned is clear of every earlier block and reads as zeros; no byte of an earlier block changes |
| ListHeap.Memory.Append | ac-compiler/src/exp_arm.cpp:4940-5005 | from capacity at least 1 the result holds the old list and the value, length within capacity, and only its own block is written |
| ListHeap.Memory.CopyElements | ac-compiler/src/exp_arm.cpp:4966-4978 | the copy loop moves every element and nothing else |
| ListHeap.Memory.NewLiteral | ac-compiler/src/exp_arm.cpp:2976-2985 | a literal's block has capacity at least 4 and holds its elements |
| ListHeap.Memory.NewRange | ac-compiler/src/exp_arm.cpp:1784-1854 | a range's block holds every number from start in steps up to the end and no other, upward or downward, with capacity equal to its count, 0 included |
| ListHeap.CountExact | ac-compiler/src/exp_arm.cpp:1807-1826 | the count is exact: its numbers lie before the end and the next one does not, for every step |
| ListHeap.CountsExactly | ac-compiler/src/exp_arm.cpp:1807-1826 | the counting loop ends with that count exactly when the first number past the end still fits a 64-bit register; otherwise the register wraps and the loop goes on |
| ListHeap.WrapExample | ac-compiler/src/exp_arm.cpp:1807-1826 | from 2^63 - 4 to 2^63 - 1 in steps of 2 the loop misses the end |
| ListHeap.CountRange | ac-compiler/src/exp_arm.cpp:1800-1826 | the counting loop, in 64-bit arithmetic, returns the count |
| ListHeap.Memory.AppendAll | ac-compiler/src/exp_arm.cpp:4940-5005 | appending any sequence of values leaves the list with all of them, within its capacity and in a block it was given, and copies at most two elements an append on top of those it started with |
| ListHeap.ZeroStaysZero | ac-compiler/src/exp_arm.cpp:1828-1834 | a list of capacity 0 never grows, so the precondition of append is needed |
| DictHeap.SetIsUpdate | ac-compiler/src/exp_arm.cpp:4337-4399 | setting keeps keys distinct and is the map update, except that a new key is dropped at full capacity |
| DictHeap.RunIsMap | ac-compiler/src/exp_arm.cpp:4337-4399 | any run of sets with no more distinct keys than the capacity makes the map it writes |
| DictHeap.Scan | ac-compiler/src/exp_arm.cpp:4237-4284 | the scan stops at the key's pair, or at the number of pairs when the key is missing |
| DictHeap.DictHas | ac-compiler/src/exp_arm.cpp:4237-4284 | returns 1 exactly when the key is in the map |
| DictHeap.DictGet | ac-compiler/src/exp_arm.cpp:4285-4336 | returns the key's value, and flags a missing key |
| DictHeap.DictSet | ac-compiler/src/exp_arm.cpp:4337-4399 | the block afterwards is that of the map update, or unchanged when a new key meets a full dictionary |
| IntText.RoundTrip | ac-compiler/src/exp_arm.cpp:4156-4233 | text and back is the identity on all 64-bit integers, the smallest one included |
| IntText.NumeralUnlessSmallest | ac-compiler/src/exp_arm.cpp:4156-4198 | the text is a decimal numeral exactly when the integer is not -2^63 |
| IntText.TextIsDecimal | ac-compiler/src/exp_arm.cpp:4156-4198 | for every other integer the text is its numeral in base ten, a minus sign exactly when it is negative, and no 0 in front |
| IntText.ReadExact | ac-compiler/src/exp_arm.cpp:4199-4233 | any text, numeral or not, reads as its value in base ten modulo 2^64, negated behind a minus sign |
| IntText.IntToCstr | ac-compiler/src/exp_arm.cpp:4156-4198 | the routine with its allocation: n's text stands NUL-terminated in a block of its own, because a new block reads as zeros; older blocks keep their bytes |
| IntText.WriteCstr | ac-compiler/src/exp_arm.cpp:4162-4196 | the text ends at the 31st byte of the block and is terminated exactly when the block's last byte was 0 |
| IntText.CstrToInt | ac-compiler/src/exp_arm.cpp:4199-4233 | the loop returns what the text reads as, wrap-around included |
| IntText.ThereAndBack | ac-compiler/src/exp_arm.cpp:4156-4233 | both routines together, on the heap in any state the allocator can leave it in, return the integer |
| PrattGrammar.Accepts | ac-compiler/src/parser.cpp:219-491 | every string of the precedence grammar, missing and dropped tokens included, is read as the grammar's tree, what follows is left alone, and as many errors are reported as the grammar counts |
| PrattExact.ParsesExactly | ac-compiler/src/parser.cpp:801-859 | the parser returns a tree, with so many errors left before one is thrown, exactly when the grammar derives that tree and that number of errors from the tokens consumed or dropped |
| PrattLayers.LayersParsed | ac-compiler/src/parser.cpp:126-216 | the same language as a layered grammar, from or, xor, and, the three bitwise ones, comparisons, sums and products up to the power, which groups to the right; signs take a power, not takes everything above and; the parser returns exactly the trees and errors that it derives |
| PrattLayers.WholeIs | ac-compiler/src/parser.cpp:126-216 | a phrase of the layers stands in front of a token exactly when the precedence grammar allows it there |
| PrattLayers.Grouping | ac-compiler/src/parser.cpp:126-216 | for every two infix operators and any three operands: `x op1 y op2 z` groups to the right when the second is of a tighter layer or both are powers, and to the left otherwise |
| PrattExact.OperandMissing | ac-compiler/src/parser.cpp:401-491 | of the binary operators where an operand is missing, minus apart, the plus sign alone is read, as a name with its brackets; every other one is reported and stays, with no tree |
| PrattExact.TimesPlus | ac-compiler/src/parser.cpp:401-491 | `1 * +` at the end of a line parses to a product with the name `+` |
| PrattExact.SumPlus | ac-compiler/src/parser.cpp:401-491 | of `a + + b` the sum of a and the name `+` is read, and b is left |
| PrattExact.Unambiguous | ac-compiler/src/parser.cpp:126-216 | no string of the grammar has two trees or two counts of errors |
| PrattExact.PrintReadsBack | ac-compiler/src/parser.cpp:126-216 | every tree printed with the parentheses its place needs is read back as the same tree, without an error, before any token that cannot continue it |
| PrattExact.ParensNeeded | ac-compiler/src/parser.cpp:126-216 | a spelling of the tree without outer parentheses exists only where the printer writes none |
| PrattExact.ArgLoopStuck | ac-compiler/src/parser.cpp:446-459 | a turn of the call-argument loop consumes nothing and reports nothing exactly at a ']' or '}', at a ':', or at the end of a line or block |
| PrattExact.ArgLoopExample | ac-compiler/src/parser.cpp:446-459 | a name, an opening parenthesis and a ']' are an input on which the parser never ends |
| PrattJam.NeverEndsExactly | ac-compiler/src/parser.cpp:446-459 | the parser never ends exactly when its tokens begin with a grammar's way into a call's argument list, at any depth and behind any expressions, reported errors and dropped tokens included, a ']', '}', ':' or the end of a line or block comes next, and fewer errors were reported than end the parse |
| PrattJam.OpenCallExample | ac-compiler/src/parser.cpp:446-459 | an opening parenthesis, a call opened with one argument, and the end of the line: the parser never ends |
| PrattJam.ResyncExample | ac-compiler/src/parser.cpp:100-107 | `f((1 2))` at the end of a line: the missing ')' is reported, the parse takes up again at the end of the line inside the argument list of f, and never ends |
| PrattJam.OpenIndexExample | ac-compiler/src/parser.cpp:460-467 | `f(a[1` at the end of a line: the missing ']' is reported, and the argument list of f never ends |
| PrattNeat.NeatEnds | ac-compiler/src/parser.cpp:446-459 | tokens in which operands and operators alternate, brackets of the modelled forms are closed by their own kind, and no line or block ends inside brackets: the parser ends, and a tree it returns comes without an error |
| PrattParser.Parser.ParseExpression | ac-compiler/src/parser.cpp:801-859 | the loop over operators, with the ternary behind it, moves the cursor and counts errors as the grammar says, with the same outcome |
| PrattParser.Parser.ReadPrefix | ac-compiler/src/parser.cpp:219-491 | atoms, unary operators at their own binding levels and groups are read as the grammar says; a token at which no expression starts is reported and stays |
| PrattParser.Parser.ReadInfix | ac-compiler/src/parser.cpp:623-748 | one operator and its right operand, right-associative for the power operator only |
| PrattParser.Parser.ReadGroup | ac-compiler/src/parser.cpp:283-323 | parentheses give the inner expression, a tuple for more elements, also when the closing one is missing and reported |
| PrattParser.Parser.ReadArgs | ac-compiler/src/parser.cpp:446-459 | arguments up to the closing parenthesis or the end of the file, past reported errors, or the turn that never ends |
| PrattParser.Parser.Expect | ac-compiler/src/parser.cpp:100-107 | the wanted token is consumed; a missing one is reported, thrown if it is one error too many, and otherwise the cursor stands at the next end of a line or block or the next statement |
| PrattParser.Parser.Synchronize | ac-compiler/src/parser.cpp:60-77 | the cursor moves to the first token that ends a line or block or starts a statement, and no further |
| PrattParser.ParsePrinted | ac-compiler/src/parser.cpp:801-859 | the parser object run on a printed tree returns that tree, whatever number of errors it allows |
| EvalExact.EvaluatesExactly | ac-compiler/include/eval_prelude.hpp:41-146 | a value is returned exactly for the texts of the grammar, spaces anywhere between parts, and it is the grammar's value over the reals, x/0 = 0 |
| EvalExact.ComputesWorth | ac-compiler/include/eval_prelude.hpp:95-117 | one step of a term multiplies, divides, and gives 0 for a division by 0 |
| EvalExact.BalancedEvaluates | ac-compiler/include/eval_prelude.hpp:41-146 | every arithmetic text with balanced parentheses evaluates to its value |
| EvalExact.AnyCloser | ac-compiler/include/eval_prelude.hpp:46-52 | any character that cannot continue a group closes it, not only a closing parenthesis |
| EvalExact.TreeEvaluates | ac-compiler/include/eval_prelude.hpp:30-146 | any arithmetic tree printed with any spacing evaluates to the tree's value, left-associatively |
| EvalRun.EvalFactor | ac-compiler/include/eval_prelude.hpp:41-93 | the routine moves the shared cursor and returns or aborts as the specification says |
| EvalRun.EvalTerm | ac-compiler/include/eval_prelude.hpp:95-117 | the routine reads a term as the specification does, whose value is that of the grammar |
| EvalRun.EvalExpr | ac-compiler/include/eval_prelude.hpp:119-137 | terms added and subtracted from the left, the cursor behind them |
| EvalRun.EvalStr | ac-compiler/include/eval_prelude.hpp:139-146 | returns for exactly the texts of the grammar, their value, and aborts on all others |
| Symbols.OneLiveId | ac-compiler/include/ir.hpp:361-408 | in every reachable table a name has at most one live id in a scope |
| Symbols.InternRefines | ac-compiler/include/ir.hpp:361-377 | interning is binding in the innermost map, with the next id when the name is new there |
| Symbols.EnterRefines | ac-compiler/include/ir.hpp:453-455 | entering a scope pushes an empty map |
| Symbols.ExitRefines | ac-compiler/include/ir.hpp:458-471 | leaving a scope pops the innermost map, and does nothing at the global one |
| Symbols.LookupRefines | ac-compiler/include/ir.hpp:392-408 | lookup returns the innermost binding |
| Symbols.RunRefines | ac-compiler/include/ir.hpp:361-471 | over any run of the three operations the table is a stack of maps, and ids and names never change |
| Symbols.ReachableRefines | ac-compiler/include/ir.hpp:361-471 | every table reached from the empty one is the stack of maps that the same operations make |
| Symbols.ScopeRestores | ac-compiler/include/ir.hpp:453-471 | a well-nested enter ... exit restores every lookup |
| Symbols.SymbolTable.InternSymbol | ac-compiler/include/ir.hpp:361-377 | the scan over the name's ids and the append give the specified table and id |
| Symbols.SymbolTable.LookupName | ac-compiler/include/ir.hpp:392-408 | the loop from the current scope outward returns the specified id or -1 |
| Symbols.SymbolTable.LookupAnyScope | ac-compiler/include/ir.hpp:432-436 | the backward scan returns the last id ever given to the name |
| Symbols.SymbolTable.RestoreSymbol | ac-compiler/include/ir.hpp:383-388 | the symbol gets the next id without any search |
| Symbols.SymbolTable.EnterScope | ac-compiler/include/ir.hpp:453-455 | only the depth changes |
| Symbols.SymbolTable.ExitScope | ac-compiler/include/ir.hpp:458-471 | the ids of the left scope are erased from every name's list |
| IrCache.LoadSaved | ac-compiler/src/ir_cache.hpp:126-267 | loading a saved program gives exactly what the file keeps of it, and nothing when the key differs or a count exceeds the loader's limit |
| IrCache.LoadedWhole | ac-compiler/src/ir_cache.hpp:45-120 | the loaded program equals the saved one, symbols restored in order, exactly when no string, list, value type or unsaved field was cut |
| IrCache.TruncatedRefused | ac-compiler/src/ir_cache.hpp:187-267 | a saved file cut short anywhere loads as nothing |
| IrCache.BackInstr | ac-compiler/src/ir_cache.hpp:61-74 | an instruction reads back with its first 255 operands and attributes, its result type and strings up to their length field |
| IrCache.BackFunction | ac-compiler/src/ir_cache.hpp:150-165 | a function reads back with its counters, parameters and code, or is refused above the code limit |
| IrCache.RestoredIds | ac-compiler/src/ir_cache.hpp:205-215 | every symbol keeps its id, and a name lists all ids it ever had |
| IrCache.RestoredLookup | ac-compiler/src/ir_cache.hpp:205-215 | after any run of scopes, a scope-0 lookup in the restored table agrees with the saved table |
| IrCacheRun.SaveIrCache | ac-compiler/src/ir_cache.hpp:126-184 | the writer's loops append exactly the specified bytes |
| IrCacheRun.WriteInstr | ac-compiler/src/ir_cache.hpp:61-74 | one instruction is appended, counts clipped at 255 |
| IrCacheRun.ReadInstr | ac-compiler/src/ir_cache.hpp:109-120 | one instruction is read at the cursor, and once the stream has failed it stays failed whatever values are read |
| IrCacheRun.ReadSymbols | ac-compiler/src/ir_cache.hpp:205-215 | each symbol is restored into the table as it is read |
| IrCacheRun.ReadSections | ac-compiler/src/ir_cache.hpp:217-259 | four sections are read by name and added to what the earlier ones held; an unknown name is refused |
| IrCacheRun.LoadIrCache | ac-compiler/src/ir_cache.hpp:187-267 | the loader returns exactly what the bytes hold, null for a bad or short file even though it reads on with arbitrary values after the end |
| Wire.Reader.Str | ac-compiler/src/ir_cache.hpp:84-87 | a 16-bit length and that many bytes, or a failed stream |
| Wire.BackStr | ac-compiler/src/ir_cache.hpp:41-43 | a string reads back as its first length mod 65536 bytes |
| Wire.LeExact | ac-compiler/src/ir_cache.hpp:41-43 | byte i of an integer is its i-th digit in base 256 |
| Formats.InstrBytes | ac-compiler/src/ir_cache.hpp:61-74 | an instruction byte by byte: opcode, result, operands and attributes under 8-bit counts, result type |
| Formats.FunctionBytes | ac-compiler/src/ir_cache.hpp:150-165 | a function byte by byte: names, return type, counters, generator flag, parameters, code |
| Formats.SectionBytes | ac-compiler/src/ir_cache.hpp:143-180 | the four sections byte by byte: each with its name, a 32-bit count and its items, empty ones included |
| Formats.ProgramBytes | ac-compiler/src/ir_cache.hpp:126-184 | a small saved program byte by byte: magic, version 19, hash, settings, symbols, the four sections by name, counters |
| AccCache.LoadSaved | ac-compiler/src/acc_cache.hpp:56-66 | a saved tree loads as what is kept of it exactly when every node has fewer than 256 attributes and 65536 children |
| AccCache.LoadedWhole | ac-compiler/src/acc_cache.hpp:56-99 | loading gives the tree itself exactly when its counts fit and it has no null child, mark, or long string |
| AccCache.OtherKey | ac-compiler/src/acc_cache.hpp:102-118 | a tree saved under another key is not loaded |
| Formats.TreeBytes | ac-compiler/src/acc_cache.hpp:56-75 | a small saved tree byte by byte: magic, version 10, key, and each node with its type, value, attributes and children that are there |
| AccCache.SerializeNode | ac-compiler/src/acc_cache.hpp:56-66 | the recursive writer appends exactly the specified bytes, null children skipped |
| AccCache.DeserializeNode | ac-compiler/src/acc_cache.hpp:88-99 | the recursive reader returns the tree at the cursor and moves behind it, or the file runs out |
| AccCache.SaveCache | ac-compiler/src/acc_cache.hpp:68-75 | magic, version, key and tree |
| AccCache.LoadCache | ac-compiler/src/acc_cache.hpp:102-118 | the tree behind a head with the right magic, version and key |
| ExportClosure.WordsExact | ac-compiler/src/main.cpp:664-672 | the words scanned out of an attribute are its maximal runs of letters, digits and underscores |
| ExportClosure.NeededLeast | ac-compiler/src/main.cpp:651-681 | the needed names are the least set over the exported ones closed under mentions of definitions |
| ImportTree.MentionsExact | ac-compiler/src/main.cpp:661-674 | the mentions of a tree are the names that stand in it, as a value of a node or a word of an attribute at any depth |
| ExportClosure.Closure.Close | ac-compiler/src/main.cpp:651-681 | the worklist ends with the exported names and exactly the definitions reachable through mentions |
| ExportClosure.Closure.Mention | ac-compiler/src/main.cpp:658-660 | a definition's name enters the set once and then waits |
| ExportClosure.Closure.Refs | ac-compiler/src/main.cpp:661-674 | the walk mentions every value and every attribute word of the tree |
| Imports.WalkExact | ac-compiler/src/main.cpp:571-642 | each readable file is followed once, imported by the program or an earlier followed file, and the files seen are exactly those imported on the way |
| Imports.ImportsReach | ac-compiler/src/main.cpp:571-642 | over any graph, cyclic or not, the files seen are those at the end of a chain of imports |
| Imports.ReportedCycle | ac-compiler/src/main.cpp:581-598 | a reported cycle is real: the file imports itself over some chain |
| Imports.CycleReported | ac-compiler/src/main.cpp:581-642 | a cycle is reported exactly when some file reached imports itself over some chain |
| Imports.SelectedExact | ac-compiler/src/main.cpp:682-693 | a definition goes to the importer exactly when the file is a LIB file, exports nothing by name, or needs it |
| ImportTree.NeededExact | ac-compiler/src/main.cpp:646-681 | a definition is needed exactly when a chain of uses leads to it from an exported name, through the last definition of each name |
| ImportTree.InjectBuilds | ac-compiler/src/main.cpp:510-709 | importing arranges every file of the tree as follows: its own items in order with its import lines marked, what its imports hand on behind them in order, and their variables behind the header lines and in front of all else |
| ImportTree.DefinitionsExact | ac-compiler/src/main.cpp:682-698 | a definition is in the program after importing exactly when it is the program's own, or one of a followed file that every file on the way hands on |
| ImportTree.VariablesExact | ac-compiler/src/main.cpp:688-709 | a variable is there exactly when it is the program's own, or one of a followed file that every file on the way hands on, marked as exported |
| ImportsRun.ScanExports | ac-compiler/src/main.cpp:624-636 | the exported names and whether there is any export, from the file before its own imports |
| ImportsRun.Select | ac-compiler/src/main.cpp:646-693 | the loop passes on imports, selected definitions and exported variables in file order |
| ImportsRun.Importer.ImportOne | ac-compiler/src/main.cpp:562-695 | one import line: seen, unreadable or followed, with the import stack restored and what the file hands on in order |
| ImportsRun.Importer.InjectModules | ac-compiler/src/main.cpp:510-709 | the whole traversal terminates and restores the import stack; some tree of the files followed, each readable file seen for the first time in it once, says what is in the program afterwards, and where |
| ParallelZip.RunSafe | library/ilib/aczip/aczip.cpp:143-155 | in every interleaving no index is held by two workers, and one given out is held or stored with its own file's bytes |
| ParallelZip.ClaimedOnce | library/ilib/aczip/aczip.cpp:147-154 | the shared counter gives out each number once, in order |
| ParallelZip.ParallelIsSequential | library/ilib/aczip/aczip.cpp:143-159 | however workers interleave, when all are joined the slots equal the plain loop's |
| ParallelZip.StepProgress | library/ilib/aczip/aczip.cpp:149-155 | each action of an unfinished worker is one of a number fixed at the start, so the pool always joins |
| ParallelZip.StartWork | library/ilib/aczip/aczip.cpp:143-155 | that number is two actions for each file and one for each worker |
| ParallelZip.ReadsBack | library/ilib/aczip/aczip.cpp:161-194 | an archive made by any pool reads back as the same (path, data) list, up to the first file whose 32-bit size is neither its own nor 0, which is an error |
| ParallelZip.SizeChecked | library/ilib/aczip/aczip.cpp:171-194 | an archive record with any 32-bit number in its size field is taken out, and the reader goes on, exactly when the number is 0 or the file's length; otherwise the reader stops there and names the file |
| ParallelZip.DamagedArchive | library/ilib/aczip/aczip.cpp:174-194 | whatever the records hold and whatever codec reads them, the reader takes out the files in front of the first record that does not decompress, or not to its size, and names what is wrong; past them it reports what is missing |
| Formats.ArchiveBytes | library/ilib/aczip/aczip.cpp:161-172 | a small archive byte by byte: magic, count, and for each file its path, size and compressed bytes under 32-bit lengths |
| ParallelZip.Archiver.Act | library/ilib/aczip/aczip.cpp:149-154 | one atomic action of a worker |
| ParallelZip.Archiver.Parallel | library/ilib/aczip/aczip.cpp:143-155 | with an arbitrary scheduler the pool ends with the sequential slots |
| ParallelZip.Archiver.OneByOne | library/ilib/aczip/aczip.cpp:156-159 | the plain loop fills the slots in order |
| ParallelZip.Compress | library/ilib/aczip/aczip.cpp:138-172 | the archive bytes are the same in parallel and in sequence |
| ParallelZip.Decompress | library/ilib/aczip/aczip.cpp:174-194 | the reader's cursor loop gives the specified files and first error |

## Left out

Code generator
- Operands and operators on strings, floats and dictionaries, string-mode and range FOR, calls, RETURN, try/catch and generators are not in the modelled IR.
- Constructor calls (`ac-compiler/src/exp_arm.cpp:2746-2757`) and list-returning library calls (`ac-compiler/src/exp_arm.cpp:4722-4728`) are outside the instructions of `ArmIr`, since temp elision is wrong there; `ArmCalls` models them up to the branch to the callee. The callee and what is read back from it are left out.
- ArmCorrect.EmittedCodeRefinesIr: covers the instructions of `ArmIr`. Creating a generator (`ac-compiler/src/exp_arm.cpp:3476-3504`) allocates before it loads its arguments, as the calls of `ArmCalls` do, and is left out too.
- ArmCompiler.Compiler.LoadOperand: variables named by a literal, object fields, and constants that are strings or floats are left out.
- ArmCompiler.Compiler.StoreResult: stores to object fields are left out.
- ArmCompiler.Compiler.CompileFor: a FOR over a string is left out.
- ArmCompiler.Compiler.CompileInstr: the opcodes for strings, floats, dictionaries, calls, tries and generators are left out.
- ArmCompiler.Compiler.Compile: reports missing openers, closers and labels; a branch that is too far is an error of the fixup pass, in `Fixups`.
- Variables named by a literal, and field access by dotted names, are not variables of the model.
- One machine instruction stands for one emitter call (a 64-bit immediate is four words), slots and the list heap are separate address spaces, and the print and trap routines are primitives that clobber X0 to X17.
- The exit sequence behind the main program is the end of the machine run.
- Temp ids in a program are not negative, loop variables are variables, and hidden temps start where the emitter starts them.

Fixups and pre-scan
- The bitwise OR of disjoint instruction fields is written as a sum, and the code buffer is under 8 GB.
- FloatScan.Scanner.PreScan: covers the opcodes of the pre-scan itself; marks set while code is emitted, at a LOAD_VAR among others, and the hints for parameters, are not modelled.

Runtime routines
- FloatPrint.PrintFloat: starts from the integer part and the fraction m/2^sh; `FloatPrint.FractionScaled` says what m and sh are for the bits of a fraction below 1. Splitting the value into the two parts, values beyond 64-bit integers, the newline, the write call and the copy to a fresh string are left out.
- Alloc.Allocator.Alloc: the kernel's mapping is a parameter that is fresh and zero-filled; a failing mapping is left out, and addresses and sizes are under 2^62.
- ListHeap.Memory.NewRange: asks that the first number past the end fits 64 bits; `ListHeap.CountsExactly` shows what happens otherwise.
- ListHeap.Memory.AppendAll: where a new block lies is a parameter, clear of the list's current block, as `Alloc.RunSafe` gives it.
- DictHeap.DictSet: keys are pointers to texts in byte memory that does not change; the block is in word memory.

Parser and evaluator
- Dotted names, list and dictionary literals, indexed calls, conversions, f-strings and built-in call forms; where one starts, the outcome is `Outside`.
- Of the errors only their number is kept; that something was thrown is one outcome, whether it was the last error allowed or a missing operand.
- PrattNeat.NeatEnds: goes one way. Typed tuples, empty parentheses and unmodelled forms are refused by the check although the parser may end on them.
- PrattExact.PrintReadsBack: a typed tuple of one element can be written only with an empty element after it, so trees with one are outside `Good`.
- Arithmetic in the evaluator is over the reals, and an abort is a flag that stops all later routines.

Tables and caches
- Symbols.RunRefines: `setType`, which changes a symbol's type and no lookup, and `clear` are left out.
- IrCache.LoadSaved: the file name, the hash function and the clock are left out; lists are shorter than 2^32.
- AccCache.LoadCache: a file that ends inside the tree is refused; the source has no test at the end and returns a tree of values it never read.
- AccCache.DeserializeNode: stops where the file runs out; the source goes on with values it never read.
- Doubles are their 64-bit patterns, and enumerators are the byte that is stored.

Imports and archive
- ImportsRun.Importer.InjectModules: rewriting of elib and clib imports, path syntax, lexing and parsing are the given file system; only whether and where a file is read, and what it holds, matters.
- Imports.ImportsReach: assumes the same of spellings as CycleReported.
- Imports.CycleReported: assumes that two spellings of one file import the same files, which symbolic links to directories can break.
- ParallelZip.Decompress: returns the files taken out; path cleaning and writing them to disk are left out. zlib is any codec, with inversion assumed where a result needs it.
- Process running, options, ELF writing, other backends, library tables and error texts have no part here.
