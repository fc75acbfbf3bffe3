# CC64, modelled and proved

CC64 is a C17 compiler and linker for a 64-bit target. This project models the
parts of it that have to preserve meaning, and proves that they do, or says
exactly when they do not.

**From a function body to machine code.** `Ast` and `Statements` give typed
expression trees and statements the meaning of C17: integers in the range of their
type, pointers as addresses, byte memory, and a fuel that only bounds how far a run is
followed. Two things end a meaning: what C leaves undefined, and, apart from it, the
values C defines and the generated code gets wrong (`Departs`), which `Conversions` and
`Deviations` show to be exactly those. Every tree and statement the parser builds from
pointers and integers other than `_Bool` is covered; a theorem about a run speaks of the
values that run comes to. `LowerNode` and `LowerStmt` turn them into the intermediate form, a flat list of labels, branches and
jumps over expression trees (`Ir`, `FlatIr`). `Codegen` and `GenFlat` turn that into
instructions for a small machine (`Machine`) with eleven registers, flags, a stack of
words and memory, which rejects what the processor would reject, including a call
with a misaligned stack. `NodeCorrect`, `StmtCorrect`, `CodegenCorrect` and `Compiled`
show that each step keeps the meaning, and `EndToEnd` composes them. `Lowerer`,
`Encoder` and `Compiler` hold the same transformations as the source writes them:
classes whose counters, break and continue targets and code buffers are updated
step by step, each method proved against the function above. `Lowerable` says for which
bodies the lowering succeeds: every case lies in a switch, and no switch has a value or a
default twice. `LabelCounts`,
`StmtCounts`, `Functions`, `Resolved` and `Closed` prove that every jump has exactly
one label; `Patching` and `Assembly` carry this down to the bytes.

**Calls and frames.** `Abi` places arguments in registers and on the stack, `Frame`
lays out the objects below the frame pointer, `Prologue` stores the parameters there,
and `Calls` follows a call from the caller's registers and stack through the callee's
frame and body to the value returned.

**Objects and linking.** `Records`, `Strings`, `ObjectFile`, `ObjectWriter` and
`ObjectReader` write and read object files; `ObjectRoundTrip`, `ObjectAccepted` and
`ObjectRecovered` prove that reading undoes writing, and `Format` says byte by byte where
every field lies. `Crc` is their checksum. `Layout`, `Symbols`, `Linker`, `Linking` and
`LinkerRun` link them, `Links` says exactly when that succeeds; `Loading` and
`LinkedImage` say what the image is after loading at any address.

**Numbers.** `Rounding` defines the nearest encoding of an exact fraction
(section 4.3.1 of IEEE 754-2019). `Wide`, `Assemble`, `Decimal`, `DecimalText`,
`DecimalRounding` and `Narrowing` compare with it what the conversions compute, and
`Closeness` bounds what the steps of a large or small exponent may lose.

**Front end and storage.** `Precedence` parses expressions, and `Grammar` holds the
productions of sections 6.5.5 to 6.5.14 of C17 that it is compared with. `Expressions`
computes the conditions of `#if`, `Conditionals` selects groups of lines, `Macros` expands
macros, and `MacroCalls` says, position by position, what a call expands to. `Arena` is
the allocator with marks and releases.

A step that the source takes by changing state is a method or a class method here;
its `ensures` ties the new state to a function, and the lemmas are about that
function. Files are sequences of bytes, source text a sequence of characters.

## Model

| member | source | states |
|---|---|---|
| EndToEnd.FunctionReturns | src/backend/encoder.c:2754-2778 | Of a body that is well typed, in which everything jumped to is there once, every case lies in a switch and no switch has a case twice: if C gives a run a return, and the run comes to none of the values the code gets wrong, the compiled code stops after finitely many steps with the value, extended from the return type, in RAX, and with the memory the body left |
| EndToEnd.FunctionDiverges | src/ir/lower.c:1510-1551 | If such a run goes on for ever, so does the compiled code, after every number of steps |
| Calls.PassedIsDelivered | src/backend/encoder.c:591-802 | The words a call passes in registers and on the stack are those the prologue takes delivery of |
| Calls.CallReturns | src/backend/encoder.c:1936-2036 | From a call to its value: after the prologue every parameter means the value passed, brought to its type, and when the body returns from there, so does the code, and a caller for whom the call stands for that goes on with that value and memory |
| StmtCorrect.ListCorrect | src/ir/lower.c:1297-1504 | Run from where its code starts, a lowered statement list ends with the store and the outcome of the structured semantics: falling off the end, break and continue at the enclosing labels, goto, case labels, return; looked through for a label, it finds the label where the statements have it. Initialisers and assignments may narrow |
| StmtCorrect.SwitchCorrect | src/ir/lower.c:1392-1443 | A switch with nesting, fall-through and default goes to the case C selects at the promoted type of its condition, unless the code selects another (SwitchDeviates), and a continue in it passes on to its loop |
| NodeCorrect.Correct | src/ir/lower.c:635-972 | Where C gives a tree a value and the code does not depart from it, the lowered tree evaluates to it, with the same memory and without a trap, and values stay in the range of their type |
| NodeCorrect.AssignedCorrect | src/backend/encoder.c:931-961 | Whatever the types of its sides, an assignment leaves the memory C says; its register holds the right side unconverted |
| NodeCorrect.EffectCorrect | src/ir/lower.c:1312-1316 | Where nobody looks at the value, as in expression statements, initialisers, for steps and left of a comma, memory is right for every assignment, narrowing or not |
| Ir.StoreConverts | src/backend/encoder.c:248-259 | Storing a value stores it converted to the type of the object |
| CodegenCorrect.GenCorrect | src/backend/encoder.c:1780-1841 | At any stack depth, the code for a well-formed tree leaves in RAX the value extended from its width and signedness, memory as the tree leaves it and the stack as it was, and faults where the tree traps |
| CodegenCorrect.FinishCall | src/backend/encoder.c:591-802 | From the pushed arguments on: the call is made with the stack 16-aligned and the callee sees every register and stack argument; afterwards the stack is what it was below them |
| CodegenSteps.ComparePass | src/backend/encoder.c:214-228 | The chosen condition code decides the comparison of the typed values for all six operators and both signednesses |
| Words.TruncatingDivision | src/backend/encoder.c:1002-1023 | Quotient and remainder as the divide instruction gives them satisfy C's identity, bound and sign rule |
| Compiled.RunMirrored | src/backend/encoder.c:1900-1914 | The machine code of a flat list follows every run of the list, step by step |
| Compiler.CompileFunction | src/backend/encoder.c:2754-2778 | Where no target is defined twice, succeeds exactly when every case and default lies in a switch, no switch has two cases of one value or two defaults, and the labels do not run out; it then produces the code that the end-to-end theorems are about |
| Lowerable.LowersWhen | src/ir/lower.c:1091-1140 | The lowering of a body whose targets are defined at most once succeeds exactly when every case and default lies in a switch and, of any two cases of one switch, neither the values are the same nor both are defaults |
| Lowerer.Lowerer.LowerOneStatement | src/ir/lower.c:1297-1488 | With its counter, break and continue fields updated in place, the lowering makes the list and the labels LowerStmt defines, whose success Lowerable.LowersWhen states, restores both targets, and otherwise fails only for want of labels |
| Lowerer.Lowerer.LowerExpr | src/ir/lower.c:635-972 | Makes the tree LowerNode defines and hands out its labels |
| Lowerer.Lowerer.CollectCases | src/ir/lower.c:1091-1140 | Enters the case labels of a switch in order, with fresh labels |
| Encoder.Encoder.EncodeExpr | src/backend/encoder.c:1780-1841 | Appends exactly the code Codegen defines for the tree at the current depth and brings the depth counter back |
| Encoder.Encoder.EncodeCall | src/backend/encoder.c:591-802 | The same for a call, with the padding that aligns the stack taken from the running counter |
| Encoder.Encoder.EncodeSwitch | src/backend/encoder.c:1438-1456 | Appends the comparison chain in table order and the jump to the default |
| Encoder.Encoder.EncodeFunction | src/backend/encoder.c:2754-2778 | Appends the code of the whole list and the epilogue |
| Functions.FunctionLabelsUnique | src/ir/lower.c:94-101 | No label is defined twice in an accepted function, those inside expressions included |
| Closed.JumpsHaveOneLabel | src/backend/encoder.c:368-383 | Every jump in the code of an accepted function goes to a label the code defines exactly once |
| Patching.CodeBuffer.DefineLabel | src/backend/encoder.c:409-414 | Binds the label to the end of the code and no other label |
| Patching.CodeBuffer.ResolveLabels | src/backend/encoder.c:385-407 | Fails exactly when a fixup's label is undefined or its displacement is too long; otherwise every field holds the displacement and no byte outside the fields has changed |
| Assembly.Assemble | src/backend/encoder.c:55-80 | Whatever bytes ordinary instructions have, the buffer holds them with a fixup for each jump, and each label is bound to the offset where it was emitted |
| Assembly.GoalBound | src/backend/encoder.c:337-366 | In an accepted function the goal of every fixup stands at one place in the code |
| Assembly.AssembleFunction | src/backend/encoder.c:337-414 | An unresolved label cannot occur: every fixup's goal is defined, assembling fails exactly when a displacement needs more than 32 bits, and otherwise every field is the label's offset less that of the byte after the field |
| Deviations.PlusDeviates | src/ir/lower.c:916-945 | Unary plus yields its operand exactly when the operand is its own negative |
| Conversions.Unconverted | src/parser/parser.c:1048-1056 | A value of any type is passed on as one of another exactly when its signed or unsigned reading, as the type asks, is in range |
| Deviations.AssignDeviates | src/backend/encoder.c:951-960 | The value of an assignment is C's exactly when the right side passes as one of the target's type; memory is C's always |
| Deviations.PassesInRange | src/parser/parser.c:1048-1056 | Passing is being in the range of the target, except for an unsigned 64-bit value and a signed target |
| Deviations.AssignExample | src/backend/encoder.c:951-960 | With `unsigned char c`, `c = 300` has the value 300 where C has 44, and stores 44 in both |
| Conversions.MixedTest | src/parser/parser.c:1175-1185 | For all six comparisons and any two operand types: the generated comparison is C's exactly when the stated condition on types and values holds |
| Deviations.TestDeviates | src/parser/parser.c:1175-1185 | The same for the lowered comparison of any two trees |
| Deviations.MixedExamples | src/parser/parser.c:1175-1185 | `-1 < 1u` and `4294967295u == -1` come out wrong |
| Deviations.BranchDeviates | src/parser/parser.c:1746-1782 | A branch of `?:` is passed on converted to the type of the whole exactly when it passes as one of that type |
| Conversions.MixedDivision | src/backend/encoder.c:1224-1248 | `/=` and `%=` for any target and any common type: C's result exactly when the stated condition on types and values holds |
| Deviations.UpdateDeviates | src/ir/lower.c:758-805 | The same for the lowered assignment, stored value and memory included |
| Deviations.DivisionExample | src/parser/parser.c:1801-1831 | An unsigned char 200 divided in place by -1 becomes 0 where C has 56 |
| Deviations.SwitchDeviates | src/ir/lower.c:1073-1089 | The code selects the case C selects exactly when the first it finds lies, as C converts it, in the condition's own type, or when it finds none |
| Deviations.WideSwitch | src/ir/lower.c:1073-1089 | A condition as wide as int always selects as C does |
| Deviations.SwitchExample | src/ir/lower.c:1416-1418 | An `unsigned char` 0 goes to `case 256` in the generated code and past it in C |
| Abi.AggregateClasses | src/backend/abi.c:27-118 | Of the scalars the walk sees, which are all members however deep but not the elements of arrays of scalars: an object has eightbytes exactly when it is complete, no larger than two and no seen scalar crosses a boundary; an eightbyte is a vector one exactly when a seen floating scalar and no other seen scalar lies in it |
| Abi.IntegerArguments | src/backend/abi.c:154-234 | Of up to 64 integer and pointer arguments the first six take the registers in order and the others consecutive stack words |
| Abi.SlotsApart | src/backend/abi.c:134-234 | No register and no stack byte belongs to two arguments, whatever their types |
| Abi.StackTiled | src/backend/abi.c:154-234 | Stack slots lie in argument order without a gap from 0 on |
| Abi.StackOnlyWhenFull | src/backend/abi.c:134-152 | An argument that is passed in registers where it can be goes to the stack only when its own registers are not free: a floating scalar when all eight vector ones are taken, any other scalar when all six general ones are, others when there is too little room in one of the files they need; it then takes none |
| Abi.ArgumentPlaced | src/backend/abi.c:134-234 | For every type and every argument list: the classes of an argument in registers are those of its type, the number of each register is the count of eightbytes of its class in registers before it, plus one general register for a memory result, and an argument with classes is on the stack exactly when its own files lack room |
| Abi.FloatingArgument | src/backend/abi.c:213-221 | A float or double is in the vector register of the number of vector eightbytes before it, while that is below 8 |
| Abi.AssignArguments | src/backend/abi.c:154-234 | The loop fills the slots of the caller as the placement says, which ArgumentPlaced characterises, and refuses exactly when an argument does not fit the convention |
| Frame.AssignFrame | src/ir/lower.c:199-392 | Fails exactly when some object does not fit under what was laid out before it; otherwise every parameter, local and temporary has an object of its own below the frame pointer, at an offset that is a multiple of its own alignment whenever its size is one, and the frame is a multiple of 16 |
| Frame.AlignedOffset | src/ir/lower.c:191-216 | What starts at a multiple of its alignment, or of 8 for a smaller one, lies at an aligned offset |
| Frame.AddressAligned | src/backend/encoder.c:1936-1950 | From a 16-aligned frame pointer an aligned offset is an aligned address |
| Frame.FrameFits | src/ir/lower.c:191-216 | A frame whose sizes and alignments sum below the address space is laid out |
| Frame.ObjectsApart | src/ir/lower.c:252-367 | Two objects of a frame share no byte and lie between the frame's end and the frame pointer |
| Frame.ArgumentsMeet | src/ir/lower.c:285-317 | The callee looks for every integer argument where the caller put it |
| Prologue.EmitStores | src/backend/encoder.c:1936-2002 | Emits the stores of the register parameters, in order |
| Prologue.ParametersHeld | src/backend/encoder.c:1936-2002 | After the prologue every parameter, read at its place in the frame, is the value the caller passed brought to the parameter's type |
| Strings.NameReadBack | src/backend/object.c:193-231 | From the offset handed out for a name, including one handed out again, the table reads that name up to its terminator |
| Strings.StringTable.Add | src/backend/object.c:193-231 | Adds a name exactly when it is not there yet, and gives the offset of its entry |
| ObjectWriter.SymbolOrder | src/backend/object.c:268-283 | The comparison is a total order, equal only on symbols that are the same and defined alike |
| ObjectWriter.OrderIs | src/backend/object.c:268-283 | The order goes by binding, then name, byte by byte with the shorter first, then value, section, kind and size, and puts what is undefined first |
| ObjectWriter.SortRelocations | src/backend/object.c:285-481 | Sorts a section's relocations by offset and symbol, in place, keeping each as often as it was there |
| ObjectWriter.ObjectBuilder.AddRelocation | src/backend/object.c:107-140 | Accepts a relocation exactly when kind, width and place agree, and enters its symbol as undefined only when the table has no match |
| ObjectWriter.ObjectBuilder.Write | src/backend/object.c:285-481 | The file is that of the object the builder stands for, and is refused exactly when a limit of the format is exceeded |
| ObjectWriter.LayOut | src/backend/object.c:320-470 | Filling the parts at moving cursors gives the specified file |
| Format.HeaderBytes | src/backend/object.c:370-465 | Each field of the header of a written file by its byte offset and width, and its value |
| Format.SectionBytes | src/backend/object.c:370-465 | The same for a section record |
| Format.SymbolBytes | src/backend/object.c:370-465 | The same for a symbol record |
| Format.RelocationBytes | src/backend/object.c:370-465 | The same for a relocation record |
| Format.LowestFirst | src/backend/object.c:142-159 | Numbers are written lowest byte first |
| ObjectReader.ReadObject | src/linker/linker.c:185-418 | The reader's loops make every check of the specification, in its order of precedence |
| ObjectReader.BurstRefused | src/linker/linker.c:185-418 | An accepted file in which anything changes, within four consecutive bytes anywhere, is refused |
| ObjectRecovered.ReadWritten | src/linker/linker.c:185-418 | A written file is accepted exactly when the linker's own demands on sections are met, and gives back sections, payloads, relocations and symbols |
| Crc.BurstDetected | src/backend/object.c:161-171 | Buffers of equal length that differ only within four consecutive bytes have different checksums |
| Crc.PolynomialTerms | src/backend/object.c:161-171 | The polynomial is that of section 8 of RFC 1952, term by term |
| Crc.CheckValue | src/backend/object.c:161-171 | The checksum of the letter a is e8b7be43 |
| Crc.FieldLeftOut | src/backend/object.c:173-182 | The file checksum does not depend on bytes 68 to 71 |
| Crc.FileBurstDetected | src/linker/linker.c:165-175 | A burst outside that field shows in the file checksum |
| Crc.ComputeFileCrc | src/backend/object.c:173-182 | Computes that checksum and leaves the buffer as it was |
| Linking.ReadChecked | src/linker/linker.c:185-418 | Whatever bytes the reader accepts, the object is fit to link |
| Linking.MergeLinkable | src/linker/linker.c:843-998 | Objects that are fit to link are so together |
| Layout.SectionsApart | src/linker/linker.c:906-984 | Placed sections never overlap |
| Layout.AfterStub | src/linker/linker.c:741-778 | No section lies on the entry trampoline |
| Layout.OffsetAligned | src/linker/linker.c:906-984 | Each section starts at a multiple of its alignment, less than one alignment past the end of what precedes it in its output |
| Layout.BaseAligned | src/linker/linker.c:485-502 | The outputs start at multiples of 16, 16, 8 and 8, each less than that past the end of the one before |
| Layout.SectionAligned | src/linker/linker.c:906-984 | In the image a section is aligned whenever its alignment divides that of its output |
| Symbols.ResolvedNames | src/linker/linker.c:518-577 | Every name stands for its first non-common definition, else for its largest common symbol |
| Symbols.ResolvesWhen | src/linker/linker.c:518-577 | Resolution succeeds exactly when every symbol is admissible |
| Symbols.CommonsApart | src/linker/linker.c:518-577 | Common symbols have room of their own, past every section, at multiples of 8 |
| Links.CommonPlaced | src/linker/linker.c:518-577 | A common symbol starts less than 8 bytes past the end of what was placed before it |
| Links.MemoryEnds | src/linker/linker.c:741-841 | The memory of the image ends with its last common symbol, or its last section |
| Linker.CheckedAddExact | src/linker/linker.c:579-604 | For values below 2^63 the sum is exact, and refused exactly when it is not in 0..2^63-1 |
| LinkedImage.FieldLoaded | src/linker/linker.c:628-739 | Loaded at any address, each relocated field holds its symbol and addend: relative fields lead there, data slots hold the address, section fields the offset |
| LinkedImage.ByteLoaded | tools/inspect_image.py:76-102 | Every other byte of a section appears unchanged at its place, and sections without contents are zero |
| LinkedImage.EntryLoaded | src/linker/linker.c:843-998 | Wherever the image is loaded, the trampoline calls the startup routine |
| Loading.FixedSlots | tools/inspect_image.py:76-102 | The loader's pass leaves the biased value in every slot of the table and changes nothing else |
| LinkerRun.RelocationTable.Append | src/linker/linker.c:606-626 | Inserts in place into the sorted table |
| LinkerRun.ApplyRelocations | src/linker/linker.c:628-739 | Patches the payload and fills the table as the specification says, or gives the first error |
| LinkerRun.LinkUnit | src/linker/linker.c:741-841 | Placement, resolution, patching and flattening give the specified image or its error |
| Links.LinksWhen | src/linker/linker.c:741-841 | Linking succeeds exactly when every symbol is admissible and resolves, every relocation can be applied, main and the startup routine are defined, the trampoline reaches it, and the image takes no more than 16 MB |
| LinkerRun.LinkObjects | src/linker/linker.c:843-998 | Refuses the link when any file is refused, and otherwise makes the payload and the relocation table of the merged objects |
| Wide.ShiftLeft | src/frontend/numeric.c:62-81 | The 128-bit shift keeps every bit that stays below 2^128 |
| Wide.Divide | src/frontend/numeric.c:92-115 | The restoring division gives the exact quotient and remainder |
| Wide.Multiply | src/frontend/numeric.c:118-136 | The product is exact |
| Wide.Normalize | src/frontend/numeric.c:144-164 | Keeps the top 64 bits and adjusts the scale; the sticky flag hears of the dropped bits all but the topmost, and of the kept bits too when the upper word is full |
| Assemble.AssembleDouble | src/frontend/numeric.c:171-221 | Computes the rounding step, and fails exactly when its magnitude is not finite |
| Assemble.AssembledNearest | src/frontend/numeric.c:171-221 | With the sticky flag standing for an exact remainder below the dropped bits, the step gives the nearest encoding, ties to even, normal, subnormal or carrying over, and is finite exactly below the overflow threshold |
| Decimal.ScanDigits | src/frontend/numeric.c:223-303 | Reads digits into the significand and counts those of the fraction |
| DecimalText.LiteralRead | src/frontend/numeric.c:223-303 | A constant with any number of digits is read as the number its first 19 digits write, at the place where they stand, with a flag for what was cut off, or refused for its exponent |
| DecimalText.KeptBounds | src/frontend/numeric.c:223-303 | What is cut off is less than one of the last digit read, and nothing up to 19 digits |
| DecimalText.Vanishes | src/frontend/numeric.c:223-303 | A constant is read as zero, and becomes zero, exactly when its first 19 digits are zeros, whatever follows |
| DecimalRounding.DecimalToDouble | src/frontend/numeric.c:223-341 | What is read of a constant becomes, if nothing was cut off, the nearest encoding for exponents -27 to -1, and for 0 to 19 unless a tie is lost; for every exponent it becomes the nearest encoding of a number that differs from it by no more than the allowance, 212 parts in 2^62 at most up to exponent 4000, and is refused exactly when that number reaches the overflow threshold |
| Closeness.Final | src/frontend/numeric.c:297-341 | If the number in hand after the steps is short of the exact one by n parts in 2^62, what is rounded is short of it by no more than n and above it by no more than one |
| Closeness.Divided | src/frontend/numeric.c:314-341 | A division step loses no more than one part in 2^62 |
| Closeness.Normalized | src/frontend/numeric.c:144-164 | Nor does bringing a product back to one word |
| DecimalRounding.ZerosHeard | src/frontend/numeric.c:223-303 | If only zeros were cut off, fractions are correctly rounded exactly when the quotient is no exact tie above an even encoding |
| DecimalRounding.FractionRounds | src/frontend/numeric.c:314-341 | Every fraction of a 64-bit significand by a power of ten up to 27 is correctly rounded |
| DecimalRounding.WholeRounds | src/frontend/numeric.c:304-313 | Every product below 2^127 is correctly rounded exactly when no tie is lost, and a lost one is given the encoding just below the nearest |
| DecimalText.MisroundedConstant | src/frontend/numeric.c:144-164 | `9.72309e24` is converted one encoding too low |
| DecimalText.VanishedConstant | src/frontend/numeric.c:223-262 | `0.00000000000000000001` becomes 0 |
| DecimalText.TiePassed | src/frontend/numeric.c:252-262 | `9007199254740993.0000` becomes 2^53 + 2, and the nearest, ties to even, is 2^53 |
| Narrowing.NarrowedNearest | src/frontend/numeric.c:343-386 | From 2^-126 up, narrowing is nearest with ties to even, and infinity from the overflow threshold on |
| Narrowing.NarrowedBelow | src/frontend/numeric.c:343-386 | Below 2^-126 narrowing is nearest exactly when no half is lost: the part cut off is below a half, or a half above an even significand, or so near the next number that the rounding to 24 bits reaches it; otherwise the encoding just below the nearest comes out |
| Narrowing.LostHalf | src/frontend/numeric.c:378-382 | 3 * 2^-150 becomes 2^-149, and the nearest, ties to even, is 2^-148 |
| Narrowing.WidenedExact | src/frontend/numeric.c:388-420 | Widening is exact, subnormals included |
| Narrowing.NarrowWidened | src/frontend/numeric.c:343-420 | Narrowing undoes widening for every number and infinity; a NaN becomes a quiet NaN |
| Precedence.RoundTrip | src/parser/parser.c:1695-1744 | Parsing the minimally parenthesised tokens of any tree consumes them all and gives back that tree |
| Grammar.ParsesGrammar | src/parser/parser.c:1695-1744 | Parsing consumes all the tokens and makes a tree exactly when the grammar of C17, one production for each of its ten levels, derives that tree from them |
| Grammar.Unambiguous | src/parser/parser.c:1695-1744 | That grammar derives at most one tree from any tokens |
| Grammar.ValuesGrammar | src/frontend/preprocessor.c:1453-1500 | The condition parser consumes all the tokens and gives a value exactly when it is that of a tree the grammar derives from them |
| Precedence.BinaryWellFormed | src/parser/parser.c:1732-1744 | Whatever tokens are parsed, the tree that comes out is one that printing accepts |
| Expressions.PrintedValue | src/frontend/preprocessor.c:1374-1500 | On the printed tokens of any tree the computing twin gives the tree's 64-bit value with nothing left over, and fails exactly when some subtree divides by zero |
| Expressions.BinaryValue | src/frontend/preprocessor.c:1469-1500 | On any tokens, computing while climbing gives the value of the tree that climbing builds |
| Expressions.ComputeIsMeant | src/frontend/preprocessor.c:1249-1303 | Where C gives an operator a value on two 64-bit operands, the code computes it, except exactly for a shift of a signed operand by an unsigned one |
| Expressions.EagerAgrees | src/frontend/preprocessor.c:1249-1303 | Where C gives a condition a value, the code computes it, and the value of every operand C comes to, exactly when no subtree divides by zero and C comes to no shift of a signed operand by an unsigned one |
| Expressions.EagerUnlessDivision | src/frontend/preprocessor.c:1469-1500 | Without such a shift the value is C's exactly when no subtree divides by zero |
| Expressions.ShiftExample | src/frontend/preprocessor.c:1295-1296 | `(1 << 1u) - 3 < 0` comes out false |
| Expressions.SignedExact | src/frontend/preprocessor.c:1249-1303 | Signed operations are exact whenever the result is a 64-bit signed number |
| Expressions.ValueParser.BinaryLevel | src/frontend/preprocessor.c:1469-1500 | The climbing loop over positions computes that function of the remaining tokens |
| Conditionals.SourceMeaning | src/frontend/preprocessor.c:955-1040 | The flag stack passes on exactly the lines whose enclosing chains all chose their group: the first true condition, else the #else |
| Conditionals.ReachableLinked | src/frontend/preprocessor.c:847-850 | In every reachable state each entry's parent flag is the active flag of the entry below |
| Conditionals.ActiveThroughout | src/frontend/preprocessor.c:847-850 | Then a line is passed on exactly when every group around it is active |
| Conditionals.OneGroup | src/frontend/preprocessor.c:998-1030 | Once a chain that has had a true group comes to another #elif or #else, it is inactive and no line is passed on until its own #endif, whatever directives follow and however they nest |
| Conditionals.AcceptsNested | src/frontend/preprocessor.c:955-1040 | The accepted lists of directives in which #else comes last in its conditional are exactly the flattenings of nested text |
| Conditionals.SecondElse | src/frontend/preprocessor.c:1015-1030 | A second #else is accepted |
| Conditionals.Process | src/frontend/preprocessor.c:1126-1207 | The loop over a source's lines gives that result, and reports an unfinished conditional |
| Macros.ExpandNested | src/frontend/preprocessor.c:493-600 | Every token passed on comes out of distinct macros, so none expands inside itself and nesting never exceeds the number of macros; the measure is the set of macros not hidden |
| Macros.ExpandComplete | src/frontend/preprocessor.c:71-132 | An object-like macro's name is passed on only out of that macro's own expansion |
| Macros.DepthSuffices | src/frontend/preprocessor.c:511-523 | With fewer than 64 macro names the depth error cannot occur |
| Macros.DepthRunsOut | src/frontend/preprocessor.c:511-523 | A chain of n macros is refused for its depth exactly when n is at least 64, and otherwise ends in its last name |
| Macros.ArgumentUnexpanded | src/frontend/preprocessor.c:391-459 | With `#define f(x) x`, `f(f(1))` leaves `f(1)` |
| Macros.ExpandRange | src/frontend/preprocessor.c:511-600 | The loop gives that expansion, which MacroCalls characterises token by token, for macros without # and ## and apart from the predefined names |
| MacroCalls.BodySubstituted | src/frontend/preprocessor.c:391-459 | A substituted body is one piece for each of its tokens: argument k where the token is the k-th parameter and of no earlier one, the token itself elsewhere |
| MacroCalls.CallRead | src/frontend/preprocessor.c:207-315 | Arguments written with commas between them, each balanced and without a comma of its own outside parentheses, are read back in order, and the call ends after its parenthesis |
| MacroCalls.CallExpands | src/frontend/preprocessor.c:511-600 | A call becomes the expansion of that body inside the macro, followed by the expansion of what is left |
| MacroCalls.ObjectExpands | src/frontend/preprocessor.c:511-600 | An object-like name becomes the expansion of its body inside the macro, followed by the expansion of what is left |
| MacroCalls.TokenPasses | src/frontend/preprocessor.c:511-600 | What is no macro name, or hidden, or a function-like name without a parenthesis is passed on as it is |
| MacroCalls.PlainText | src/frontend/preprocessor.c:511-600 | Input without macro names is passed on token for token |
| MacroCalls.FindNewest | src/frontend/preprocessor.c:71-132 | The macro of a name is the newest one defined |
| MacroCalls.OrderKept | src/frontend/preprocessor.c:391-459 | With `#define SUB(a, b) a - b`, `SUB(5, 3)` becomes `5 - 3` |
| MacroCalls.EmptyLastArgument | src/frontend/preprocessor.c:207-315 | With two parameters, `SUB(5,)` is refused for the number of its arguments |
| Arena.Arena.Alloc | src/common/arena.c:56-92 | Gives out a piece of the size rounded up to 16, at the end of the newest block if it has room and else at the start of a new one, exactly when the rounded size is within the limit and the address space; otherwise nothing changes |
| Arena.Arena.TakeMark | src/common/arena.c:103-115 | Remembers the newest block, its use and the total |
| Arena.Arena.Release | src/common/arena.c:120-136 | Every piece that was out at the mark stays as it was, in a block that has not been freed, no other stays, and the total is again their sum |
| Arena.PieceGiven | src/common/arena.c:56-92 | A new piece is 16-aligned and touches no other, and the total stays within the limit |
| Arena.ReleasedOk | src/common/arena.c:120-136 | After a release in last-in-first-out order all of this still holds, with the chain cut below the kept block |

## Findings

Where the modelled code does not do what C17 or IEEE 754-2019 asks, the model follows
the code, and the lemma named here says for which inputs it goes wrong.

- **Unary plus** falls to the default of the operator switch and is lowered to a
  negation (`src/ir/lower.c:941`): `+1` is -1. `Deviations.PlusDeviates`,
  `Deviations.PlusOne`.
- **Comparisons** do not convert their operands to a common type
  (`src/parser/parser.c:1175-1185`), and the left operand's signedness decides:
  `-1 < 1u` is true and `4294967295u == -1` is false. `Conversions.MixedTest`,
  `Deviations.TestDeviates`, `Deviations.MixedExamples`.
- **Branches of `?:`** are not converted to the common type
  (`src/parser/parser.c:1746-1782`): a negative `int` beside an `unsigned int` is passed
  on sign-extended. `Deviations.BranchDeviates`.
- **The value of an assignment.** The parser widens the right side of an assignment or an
  initialiser but never narrows it (`src/parser/parser.c:1052-1055`), and the store leaves
  it in the register as it is (`src/backend/encoder.c:951-960`): with `unsigned char c`,
  `int x = (c = 300);` makes `x` 300, and C says 44. What is stored is right.
  `Deviations.AssignDeviates`, `Deviations.AssignExample`.
- **Cases of a narrow switch** are converted to the condition's own type and not to its
  promoted one (`src/ir/lower.c:1073-1089`, `src/ir/lower.c:1416-1418`): an
  `unsigned char` 0 goes to `case 256`. `Deviations.SwitchDeviates`,
  `Deviations.SwitchExample`.
- **Compound division and remainder** divide in the target's type and signedness
  (`src/backend/encoder.c:1224-1248`), not in the common one. `Conversions.MixedDivision`,
  `Deviations.UpdateDeviates`, `Deviations.DivisionExample`.
- **A lost tie.** When a product needs more than 64 bits, the sticky flag does not hear
  the topmost of the bits dropped (`src/frontend/numeric.c:150`). A constant goes wrong
  exactly when that bit is the only one dropped and the kept bits lie half-way above an
  even encoding: the value is past the middle and is rounded down. `9.72309e24` becomes
  0x452015e387b66aae, and the nearest is 0x452015e387b66aaf.
  `DecimalRounding.WholeRounds`, `DecimalText.MisroundedConstant`. With a full upper
  word the flag also listens to bits that are kept (`src/frontend/numeric.c:153-155`);
  no constant of at most 19 digits and one step of scaling gets there.
- **Leading zeros** of a constant count among its 19 digits
  (`src/frontend/numeric.c:242-262`): `0.00000000000000000001` becomes 0.
  `DecimalText.Vanishes`, `DecimalText.VanishedConstant`.
- **Zeros after the nineteenth digit** count as something cut off
  (`src/frontend/numeric.c:246-268`) and break a tie: `9007199254740993.0000` becomes
  9007199254740994, and without its last zero 9007199254740992, which is right.
  `DecimalRounding.ZerosHeard`, `DecimalText.TiePassed`.
- **Narrowing to a subnormal** rounds to 24 bits and then cuts off the rest
  (`src/frontend/numeric.c:378-382`): 3 * 2^-150 becomes 2^-149, where the nearest is
  2^-148. `Narrowing.NarrowedBelow`, `Narrowing.LostHalf`.
- **`&&` and `||` in conditions** compute both sides
  (`src/frontend/preprocessor.c:1249-1303`), so `0 && 1 / 0` is an error.
  `Expressions.EagerUnlessDivision`, `Expressions.GuardedDivision`.
- **Shifts in conditions** come out unsigned when either operand is
  (`src/frontend/preprocessor.c:1295-1296`), and in C only when the left one is:
  `(1 << 1u) - 3 < 0` is false. `Expressions.EagerAgrees`, `Expressions.ShiftExample`.
- **A second #else**, and an #elif after #else, are accepted.
  `Conditionals.AcceptsNested`, `Conditionals.SecondElse`.
- **Macro depth.** A chain of 64 macros or more, which C expands, is refused
  (`src/frontend/preprocessor.c:516-520`). `Macros.DepthRunsOut`.
- **Macro arguments** are not expanded before they are put into the body
  (`src/frontend/preprocessor.c:391-459`): with `#define f(x) x`, `f(f(1))` leaves `f(1)`,
  and C says 1. `Macros.ArgumentUnexpanded`.
- **An empty last argument** is not counted (`src/frontend/preprocessor.c:207-315`): with
  `#define SUB(a, b) a - b`, `SUB(5,)` is refused, and C has two arguments there.
  `MacroCalls.EmptyLastArgument`.
- **Eightbytes.** The elements of an array of scalars are not looked at
  (`src/backend/abi.c:57-71`), so `struct { float f; int b[1]; }` has a vector eightbyte
  that holds an int. `Abi.AggregateClasses` counts scalars as the code does.
- **Objects the linker refuses.** The writer can write files whose sections share a
  name, or are otherwise outside what the linker takes; `ObjectRecovered.ReadWritten`
  gives the condition.

## Left out

- Input and output, the driver, diagnostic texts, source files and includes: files are byte sequences and errors are numbers.
- Type checking: that trees have the conversions the parser inserts is a precondition, as are matched gotos and a loop or switch around every break and continue. Evaluation order is the code's, left to right.
- NodeCorrect.Correct: a value the code gets wrong ends what is said of a run even where a later conversion or test would make up for it, as in `if (c = 300)`.
- StmtCorrect.SwitchCorrect: the values of case constants are given; the code computes them in unsigned 64-bit arithmetic (`src/ir/lower.c:1002-1071`), which is not modelled.
- Floating-point and vector code, 128-bit integers, aggregate values in expressions, `_Bool` conversions and static initialisers in the code generator.
- Aggregates as arguments in generated calls; their placement is modelled in Abi, their pushing is not. Copying the variadic save area, the startup routine and the runtime stubs.
- Calls.CallReturns: the callee of a call within a body is an arbitrary function from target, arguments and memory to a result and memory, shared by both meanings; that it is what some compiled callee computes is a premise, and that the pushed words are in memory where the callee reads them is another, the stack of the model being apart from memory.
- Instruction encodings: Assembly takes the bytes of ordinary instructions as a parameter; only jumps and labels have theirs.
- Abi.AggregateClasses: the walk over members is a pair of functions over a tree of fields, in which a union is a record with all fields at one offset; the source recurses through a type graph.
- Frame.AssignFrame: alignments that are not powers of two are rounded to multiples, and nothing is said of their alignment; where the variadic area or the final rounding comes near the end of the address space the source wraps around, and the model refuses.
- ObjectWriter.LayOut: the file is built piece after piece; the source fills a zeroed buffer of the final size.
- ObjectWriter.ObjectBuilder.Write: the library sort is a parameter, required to give a permutation of the symbols in order; growth of the arrays is not modelled.
- LinkerRun.LinkObjects: objects are merged end to end with shifted indices before one link, where the source keeps an array of objects; the header bytes of the written image are not modelled.
- DecimalRounding.DecimalToDouble: where an exponent takes several steps the result is the nearest encoding of a number very close to the one read, which need not be nearest to that one.
- Macros.ExpandComplete: nothing is said of the names of function-like macros.
- Macros.ExpandRange: stringizing and pasting, `__FILE__` and `__LINE__`, the token limit and rescanning together with the rest of the source are not modelled; arguments are collected by functions.
- Conditionals.SourceMeaning: whether a condition holds is an arbitrary function of the condition; other directives are lines.
- Expressions.PrintedValue: `?:` and `defined` are not modelled, and the quotient of the least number by -1 wraps around, where the behaviour of the source's own division is undefined.
- Precedence.RoundTrip: casts, calls and postfix operators are leaves, and assignment and `?:` are outside the ten levels.
- Arena.Arena.Alloc: blocks are records of capacity and use; the bytes in them, and running out of system memory, are not modelled.
- The lexer, declarations, the symbol tables of the parser and string and character literals.
