# C28x lifter, decoder and scanners: a Dafny model

This project models the Binary Ninja plugin for the TI TMS320C28x and proves that it does what
the processor manual (SPRU430F) says.

* **The lifter** turns a decoded instruction into low-level IL by appending to a mutable builder.
  `IlBuilder.ILFunction` is that builder; every arm is a method that appends instructions, creates
  and marks labels in the source's order, and is proved to emit exactly one structured block.
  `Il` and `IlCode` give the IL its meaning: registers with sub-register aliasing, byte memory,
  the flags N, Z, C, V and TC, temporaries, branches and labels. An expression is a tree that is
  evaluated when the instruction holding it runs. `flag:C` is carry-out for an addition and
  borrow for a subtraction, as the comments of the lifter say of Binary Ninja's default. Flags that
  Binary Ninja derives in a way the source does not show (V everywhere, C outside additions and
  subtractions) come from an arbitrary oracle.
* **The machine** (`Machine`) is the step function of SPRU430F: word-addressed memory, a 16-bit
  stack pointer in words, the hardware's own carry bit, which is clear on borrow, and the mode bits
  of ST0 and ST1. Pushing and popping ST0 and ST1 stores and loads the live bits. Rows that depend
  on a mode are those of the modes cl2000 leaves (SXM set, OVM clear, products unshifted, PAGE0
  clear), and `Simulation.ModesServe` asks for those modes where such a row runs.
* **The registers and memory** (`Storage`, `Halves`) are pinned by the laws of their parts: which half
  of which register each name is, its width, what shares bytes with it, and the byte order of memory.
* **The simulation** (`Relation`, `Sim*`, `Simulation`, `StraightLine`, `WholeRun`, `Traces`) relates the
  two and proves that emitted code, jumps and labels included, follows the machine over whole
  runs. A record of what is known of the flags travels along: it says whether `flag:C` is at the
  moment the hardware bit, its inverse, or neither.
* **The outcomes** (`Outcomes`) of sums, maxima and absolute values are stated as plain numbers.
* **The idioms** (`Division`, `ShortDivision`, `MultiWord`, `DotProduct`, `StackNesting`,
  `StackRuns`, `WideShift`) start from any IL state with a valid stack pointer and prove what number the
  emitted code of a whole instruction sequence computes.
* **The limits** (`Limits`, `StatusLimits`, `UnsignedBranch`, `UnnamedFields`) say exactly when
  emitted code and machine part ways. `Stepping` and `BranchEdges` say what the emitted code does with
  operands and conditions that the simulation leaves out: `*XARn++` and `*--XARn`, branches without a
  target or a condition, and the overflow codes.
* **The decode table** (`Rows`, `RowProblems`, `Table`, `Selection`, `Decoder`, `RoundTrip`,
  `BranchTarget`, `LocFields`) models the build script's validation, sort and 256-bucket index, the
  decoder's sweeps, operand extraction, addressing modes, kinds of branch and targets, for an
  arbitrary row list. `Selection` says of every row list and all bytes which row decoding finds,
  without the table; `RowProblems` says what the validation rejects, without its masks.
* **Helpers**: the interval index (`Intervals`), the flash scanners (`FlashScan`) and the
  instruction text templates (`Template`, and `WrittenTemplate` for templates built from texts and
  holes).

## What the proofs found

* MOVL loc32,ACC,COND (isa/instructions/mov.yaml:1373) declares no `lift:`, so it reaches the generic
  MOV arm, which reads the condition operand as the value and marks the instruction unimplemented.
  It is lifted rightly exactly when its condition is false: `Limits.ConditionalMovlExact`, and
  `Limits.ConditionalMovlFails` for an input.
* ADDCL and ADDCU need `flag:C` in the hardware's own sense, SUBBL and SBBU inverted. Which of the
  two it is after a line of instructions can be read off the line (an addition or SETC/CLRC leaves
  the first, a subtraction or compare the second, a move keeps it). When it is the one the
  instruction needs, the emitted code leaves the machine's ACC from every state; when it is the
  other one, from no state: `Limits.CarryExact`. The comment above the addition arm says that
  addition needs no such care; after a subtraction it does, `Limits.AddAfterSubtractFails`.
* The source does not settle how HI, HIS, LO and LOS read `flag:C`. The lifter emits flag conditions
  (rust/src/lifter/branch.rs:286-296); rust/src/arch.rs:713-714 says which flags each needs, the
  semantic flag groups of rust/src/arch.rs:750-753 spell the comparison out as "C set means no
  borrow", and the role of C (rust/src/arch.rs:327) is the plain carry, under which a set flag after
  a compare means a borrow. The model leaves the choice open (`Il.CARRY_SENSE`), and what is said of
  these four codes holds for both. Under the first reading a compare followed by a branch on HIS or
  LO always goes to the wrong address, and on HI or LOS unless the operands are equal:
  `UnsignedBranch.CompareAndBranch`. Under the second the same is true after an addition:
  `UnsignedBranch.AddAndBranch`. Neither serves both: `UnsignedBranch.NeitherSenseServes`.
  For GT, GEQ, LT and LEQ the model assumes what rust/src/arch.rs:711-712 says, that they read N and Z
  and not V; a default resolution of signed comparisons by the role of V (rust/src/arch.rs:328)
  could read it differently.
* The plugin's ST0 and ST1 are plain registers that no flag write touches. POP ST0 leaves the IL's
  flags as they were, so it is right exactly when bits 2 to 5 of the popped word are the TC, C, Z and
  N there are: `StatusLimits.PopStatusExact`, `StatusLimits.PopStatusFails`. PUSH of ST0 and ST1,
  alone or with T and DP, stores that register, and is right exactly when it has the live bits:
  `StatusLimits.PushStatusExact`, `StatusLimits.CurrentExactly`, `StatusLimits.CurrentModesExactly`.
* The plugin's SP is a byte address. As the operand `@SP` (field 0xAD) it is read and written as it
  is, without the factor of two, and right exactly for zero: `UnnamedFields.SpReadExactly`,
  `UnnamedFields.SpWriteExactly`.
* RB has four bytes in isa/registers.yaml:94 and two in rust/src/arch.rs:246-259. With the two, PUSH RB
  and POP RB move SP by one word where the machine moves it by two, and never end as the machine does:
  `StatusLimits.RbNeverMatches`, and `StatusLimits.RbMovesOneWord` for what they do.
* isa/reference/spru430f.yaml:2583-2587 gives POP T:ST0 as T = [SP], ST0 = [SP+1], which is not the
  inverse of its own PUSH T:ST0 (:2745-2748). The machine takes the inverse, as the lifter does.
  isa/flags.yaml:30-35 gives PM two bits and OVC bits 14:9; ST0 in section 2.4 of SPRU430F has PM in
  bits 9:7 and OVC in 15:10, and a three-bit PM is what isa/reference/spru430f.yaml:1624 loads.
* Reading `*XARn++` loads the cell after the one addressed: `Limits.PostIncReadsNextCell`, and
  `Limits.PostIncFails` for an input.
* 16 SUBCU leave quotient and remainder exactly when the numerator is not the divisor shifted left
  by fewer than 16 places; otherwise the remainder equals the divisor: `ShortDivision.ShortDivision`,
  and `ShortDivision.OneByOne` for 1 / 1.
* Validation looks for stray opcode bits only inside the format, so a 16-bit row with a higher
  opcode bit passes and can never match: `RoundTrip.MatchableExactly`, `RoundTrip.UnmatchableRow`.
  It also accepts a field that is a whole 32-bit word. Extraction shifts a one by 32 for it
  (core/c28x-core/src/types.rs:82): a release build wraps the shift and reads the field as zero,
  `RoundTrip.ExtractExactly` and `RoundTrip.WholeWordReadsZero`; a build with overflow checks panics.
* isa/registers.yaml gives SP two bytes and rust/src/arch.rs:246-259 four. The model of the IL follows
  the code.

## Model

| member | source | states |
|---|---|---|
| IlCode.RunEmitted | rust/src/lifter/arith.rs:40-94 | Running flat code with its labels and gotos from the place a block was emitted is executing the block, then what follows it |
| IlCode.EmittedStable | rust/src/lifter/branch.rs:22-37 | Appending more code and marking further labels never changes code already emitted |
| Lifter.Lift | rust/src/lifter/mod.rs:26-55 | The builder ends with exactly the instruction's block appended: its effect, gated by its condition operand unless it is a branch |
| Lifter.EmitConditional | rust/src/lifter/mod.rs:142-165 | The effect is emitted between a branch on the condition and the label it skips to |
| Lifter.EmitCondBranch | rust/src/lifter/branch.rs:22-37 | A jump to the target under the condition, falling through otherwise |
| Lifter.LiftBranch | rust/src/lifter/branch.rs:39-94 | Unconditional, conditional and unresolvable branches emit a jump, a guarded jump or a nop |
| LiftOperands.ReadLoc | rust/src/lifter/mod.rs:196-239 | Returns the operand's expression, having appended only its pointer step |
| LiftOperands.WriteLoc | rust/src/lifter/mod.rs:242-303 | Appends the pointer step before the store of `*--XARn`, the one store or register write, and the step after that of `*XARn++` |
| Stepping.PostIncWrite | rust/src/lifter/mod.rs:272-302 | After the emitted write of `*XARn++` the bytes of the value are at twice the old XARn, XARn is one cell higher, and no other register but its low half has changed, for both widths and any value |
| Stepping.PreDecWrite | rust/src/lifter/mod.rs:257-275 | After that of `*--XARn` XARn is one cell lower and the value, evaluated after the step, is in the cell it then names |
| Stepping.PreDecRead | rust/src/lifter/mod.rs:209-227 | The emitted read of `*--XARn` leaves XARn one cell lower and gives the cell it then names |
| Stepping.PostIncRead | rust/src/lifter/mod.rs:225-240 | That of `*XARn++` leaves XARn one cell higher and gives the cell after the addressed one |
| Stepping.PostIncStore | rust/src/lifter/mod.rs:242-303 | The lifted MOVL `*XARn++`,ACC stores ACC where XARn points and leaves it two words on |
| Stepping.PreDecStore | rust/src/lifter/mod.rs:242-303 | The lifted MOVL `*--XARn`,ACC stores ACC two words before that, and leaves XARn there |
| LiftArith.Lift | rust/src/lifter/arith.rs:27-510 | Emits the arithmetic arms, the three-way SUBCU and SUBCUL included, with fresh labels |
| LiftMisc.Lift | rust/src/lifter/arith.rs:515-678 | Emits compare, test, negate, ABS, ABSTC and NEGTC |
| LiftMov.Lift | rust/src/lifter/mov.rs:267-693 | Emits the moves, the declared ones of lifter/generic.rs included |
| LiftStack.Lift | rust/src/lifter/mov.rs:13-222 | Emits every PUSH and POP arm, pairs and rebuilt high halves included |
| LiftMultiply.Lift | rust/src/lifter/multiply.rs:96-304 | Emits accumulate, load of T and product in that order, then the XAR7 step |
| LiftSystem.Lift | rust/src/lifter/system.rs:27-150 | Emits the SETC/CLRC flag loop and the MAX/MIN select |
| LiftSystem.LiftLsl64 | rust/src/lifter/shift.rs:45-90 | Emits the two register writes that share one shifted expression |
| Relation.AddressSame | rust/src/lifter/mod.rs:306-357 | The byte address of a plain memory operand is exactly twice its word address |
| Relation.ReadLocSame | rust/src/lifter/mod.rs:196-239 | Reading a plain operand in the IL gives the machine's value |
| Relation.WriteLocSame | rust/src/lifter/mod.rs:242-303 | Writing a plain operand in the IL changes registers and memory as the machine does |
| Halves.Wholes | rust/src/arch.rs:229-267 | ACC, P and XT are AH, PH and T times 2^16 plus AL, PL and TL, and ARn is XARn modulo 2^16 |
| Halves.HighWritten | rust/src/arch.rs:229-267 | A write of AH, PH or T replaces the upper half of the whole and keeps the lower |
| Halves.LowWritten | rust/src/arch.rs:229-267 | A write of AL, PL, TL or ARn replaces the lower half and keeps the upper |
| Halves.Cut | rust/src/arch.rs:246-259 | Which registers keep 32 bits of what is written to them and which 16 |
| Halves.OnlySharing | rust/src/arch.rs:229-267 | The registers a write can be seen in, listed for every register; no other changes |
| Halves.SignedIs | rust/src/lifter/arith.rs:122-130 | The signed reading of a value is the one number in the signed range of its width that is congruent to it |
| Halves.LoadIsLittleEndian | rust/src/lifter/mod.rs:196-239 | A load gives v if and only if the bytes at the rising addresses are those of v, the lowest first |
| Halves.StoreIsLittleEndian | rust/src/lifter/mod.rs:242-303 | After a store the bytes at the rising addresses are those of the value |
| Storage.ReadWritten | rust/src/arch.rs:229-267 | A register or part of one read after a write gives the truncated value |
| Storage.ReadUntouched | rust/src/arch.rs:229-267 | A write changes no register that shares no byte with it |
| Storage.WriteBack | rust/src/arch.rs:229-267 | Writing back what was read changes nothing |
| Storage.WriteTwice | rust/src/arch.rs:229-267 | The last of two writes to a part wins |
| Storage.OperandReadBack | rust/src/lifter/mod.rs:196-357 | Writing any plain loc operand and reading it back gives the truncated value |
| Storage.OperandWriteIsLocal | rust/src/lifter/mod.rs:242-357 | A write to a plain operand leaves non-overlapping registers and all other bytes alone |
| Operands.PlainFields | core/c28x-core/src/operands.rs:35-231 | Which of the 256 operand fields are free of side effects, for loc16 and loc32 |
| LocFields.Register16ComesBack | core/c28x-core/src/operands.rs:35-58 | Each of AR0 to AR7, AH, AL, PH, PL, T and SP, encoded by a table written the other way, decodes as a loc16 to that register |
| LocFields.Register32ComesBack | core/c28x-core/src/operands.rs:60-85 | Each of XAR0 to XAR7, ACC, P and XT likewise as a loc32, ACC and P from two fields |
| LocFields.MemoryComesBack | core/c28x-core/src/operands.rs:88-231 | Every mode with every pointer and offset it can have decodes to that mode, pointer and offset, for both widths |
| LocFields.OtherFields | core/c28x-core/src/operands.rs:88-231 | What the remaining fields decode to |
| LocFields.FieldComesBack | core/c28x-core/src/decoder.rs:167-298 | A loc operand of an encoded word holds its field and is resolved by the table of its own width; no other operand is resolved |
| LocFields.RegisterOperand | core/c28x-core/src/decoder.rs:167-298 | So an operand encoded as a register decodes to that register |
| LocFields.MemoryOperand | core/c28x-core/src/decoder.rs:167-298 | And one encoded as an addressing mode to that mode, pointer and offset |
| UnnamedFields.UnnamedRead | rust/src/lifter/mod.rs:306-357 | The ten fields that name no pointer load from address zero and move nothing |
| UnnamedFields.UnnamedWrite | rust/src/lifter/mod.rs:306-357 | And store to address zero |
| UnnamedFields.SpReadExactly | rust/src/lifter/mod.rs:202-206 | Field 0xAD reads twice SP modulo 2^16, which is the machine's SP if and only if that is zero |
| UnnamedFields.SpWriteExactly | rust/src/lifter/mod.rs:251-256 | Written through it, the plugin's SP stands for the value if and only if that is zero |
| Instructions.ArithOperands | isa/instructions/arithmetic.yaml:5-716 | Which arithmetic rows take a 16-bit location, a 32-bit one, and a constant of which range |
| SimArith.ArithOk | rust/src/lifter/arith.rs:27-510 | Every modelled arithmetic arm leaves registers, memory, carry and TC as the machine does |
| SimArith.SubculOk | rust/src/lifter/arith.rs:62-94 | The emitted SUBCUL takes the machine's branch and leaves its ACC and P |
| SimArith.SubcuOk | rust/src/lifter/arith.rs:43-61 | The emitted SUBCU takes the machine's branch and leaves its ACC |
| Outcomes.AccIs | rust/src/lifter/arith.rs:122-341 | The emitted ADD, SUB, ADDU, SUBU, ADDL and SUBL leave in ACC its sum or difference with the operand modulo 2^32, signed for ADD and SUB |
| Outcomes.OperandIs | rust/src/lifter/arith.rs:98-482 | INC, DEC, ADDL, SUBL and SUBRL leave in their operand, for any plain one, the number counted, added, taken away, or ACC less it, modulo its width |
| SimMisc.MiscOk | rust/src/lifter/arith.rs:515-678 | Compare, test, negate, ABS, ABSTC and NEGTC follow the machine |
| Outcomes.AbsIs | rust/src/lifter/arith.rs:631-663 | ABS leaves the absolute value of the signed ACC, and -2^31 as it is |
| SimMov.MovOk | rust/src/lifter/mov.rs:267-693 | The moves follow the machine and keep the carry |
| SimStack.StackOk | rust/src/lifter/mov.rs:13-222 | Every push and pop that the plugin's registers can follow does as the machine, while SP stays inside 16 bits; of N, Z and C nothing is claimed after a POP ST0 |
| SimMultiply.MacOk | rust/src/lifter/multiply.rs:254-304 | The old P is accumulated and the new T multiplied, as the machine orders them |
| SimMultiply.MultiplyOk | rust/src/lifter/multiply.rs:96-304 | The MAC and MPYA rows follow the machine |
| SimSystem.SelectOk | rust/src/lifter/system.rs:27-68 | MAXL, MINL, MAXCUL and MINCUL keep or replace the register as the comparison says |
| Outcomes.LargerIs | rust/src/lifter/system.rs:27-68 | MAXL and MINL leave the larger or smaller of ACC and the operand as signed numbers, MAXCUL and MINCUL that of P as unsigned |
| SimSystem.ModeValue | rust/src/lifter/system.rs:84-104 | The emitted SETC and CLRC write OVM, TC and C for mask bits 1, 2 and 3, and nothing else |
| SimSystem.ModeOk | rust/src/lifter/system.rs:84-104 | SETC and CLRC set exactly TC, C and OVM of their mask, for any mask, as the machine does |
| SimSystem.SystemOk | rust/src/lifter/system.rs:84-150 | SETC and CLRC, MAX, MIN and LSL64 follow the machine |
| Simulation.FlagCondValue | rust/src/lifter/branch.rs:269-297 | A known condition code evaluates in the IL to the machine's decision |
| Simulation.GatedOk | rust/src/lifter/mod.rs:142-165 | A false condition leaves the state unchanged, a true one runs the effect |
| Simulation.BranchOk | rust/src/lifter/branch.rs:22-94 | A branch is taken, to the resolved target, exactly when the machine takes it |
| BranchEdges.UnresolvedFallsThrough | rust/src/lifter/branch.rs:39-94 | A branch without a target, or B, SB or BF without a condition, falls through and changes nothing |
| BranchEdges.BranchIsTaken | rust/src/lifter/branch.rs:39-94 | With a target, LB always jumps, and B, SB and BF under UNC, under NOV and OV as the IL's V flag says, and under no code above UNC |
| BranchEdges.GateIsOpen | rust/src/lifter/mod.rs:142-165 | Any other row with such a code runs its effect under UNC, and by V under NOV and OV; under a code above UNC it is refused |
| Simulation.InsnOk | rust/src/lifter/mod.rs:26-165 | One lifted instruction ends as the machine's step does, in a related state |
| StraightLine.LiftAll | rust/src/lifter/mod.rs:26-55 | Lifting a list of instructions one after the other into a builder, whatever it holds, leaves exactly the code that the theorems about emitted code take as given |
| StraightLine.StaysEmitted | rust/src/lifter/mod.rs:26-55 | Code lifted for one instruction survives the lifting of all later ones |
| StraightLine.LineSimulates | rust/src/lifter/mod.rs:26-165 | The blocks of a line of instructions, gated moves included, run in order follow the machine |
| StraightLine.SafeLineRun | rust/src/lifter/mod.rs:26-165 | And so does the flat code emitted for the line, from related states |
| StraightLine.RunIsLine | rust/src/lifter/mod.rs:26-55 | The flat code of a line runs as its blocks one after the other |
| StraightLine.EasyRun | rust/src/lifter/mod.rs:26-140 | The emitted code of any line that neither moves SP nor consumes a carry follows the machine from any IL state with a valid SP |
| WholeRun.IlStepOk | rust/src/lifter/mod.rs:26-165 | Running one instruction's flat code, between its first IL instruction and the next one's, ends at the machine's next program counter in a related state |
| WholeRun.RunSimulates | rust/src/lifter/mod.rs:26-165 | Over any number of steps of any program, branches included, the emitted IL reaches the machine's program counter in a related state |
| Traces.Lockstep | rust/src/lifter/mod.rs:26-165 | Such a run goes through two traces of the same length, each step the step of the instruction at the program counter, which are at the same place in related states after every instruction and end early only where there is none |
| Limits.CarryExact | rust/src/lifter/arith.rs:372-422 | After any safe line whose carry sense is known, the emitted ADDCL, ADDCU, SUBBL or SBBU leaves the machine's ACC from every state if that sense is the one it reads, and from none if it is the other |
| Limits.AddAfterSubtractFails | rust/src/lifter/arith.rs:401-422 | SUBL ACC,XAR0 then ADDCL ACC,XAR0 with ACC = 1 and XAR0 = 0 ends with another ACC than the machine's |
| UnsignedBranch.BranchExactly | rust/src/lifter/branch.rs:22-37 | An instruction and a branch on HI, HIS, LO or LOS: the emitted code reaches the machine's program counter if and only if the carry it left has the sense the condition reads, or Z decides |
| UnsignedBranch.CompareAndBranch | rust/src/arch.rs:704-758 | After CMPL, for every operand and state: right if and only if a set flag is read as borrow, or the condition is HI or LOS and ACC equals the operand |
| UnsignedBranch.AddAndBranch | rust/src/arch.rs:704-758 | After ADDL: right if and only if a set flag is read as no borrow, or the condition is HI or LOS and the sum is zero |
| UnsignedBranch.NeitherSenseServes | rust/src/arch.rs:323-331 | With ACC = 1 and XAR0 = 0, one of the two branches on HIS goes wrong under either reading |
| Limits.ConditionalMovlExact | rust/src/lifter/mov.rs:646-690 | The lifted conditional MOVL is right if and only if its condition is false |
| Limits.ConditionalMovlFails | rust/src/lifter/mov.rs:646-690 | MOVL @XAR0,ACC,EQ with Z set does not end as the machine does |
| Limits.PostIncReadsNextCell | rust/src/lifter/mod.rs:196-239 | A post-increment read loads from the stepped pointer |
| Limits.PostIncLoad | rust/src/lifter/mod.rs:196-239 | The lifted MOVL ACC,*XARn++ leaves the long word after the addressed one in ACC, which is the addressed one if and only if the two are equal |
| Limits.PostIncFails | rust/src/lifter/mod.rs:196-239 | With XAR0 = 0 and a 1 at word 2, it loads 1 and not the 0 at word 0 |
| StatusLimits.PopStatusExact | rust/src/lifter/mov.rs:126-182 | The lifted POP ST0 and POP T:ST0 end as the machine does if and only if bits 2 to 5 of the popped word are the TC, C, Z and N there are |
| StatusLimits.PopStatusFails | rust/src/lifter/mov.rs:126-129 | With Z set and 0 on the stack, POP ST0 does not end as the machine does |
| StatusLimits.PushStatusExact | rust/src/lifter/mov.rs:69-125 | The lifted PUSH of ST0, ST1, T:ST0 and DP:ST1 ends as the machine does if and only if the status register has the live bits |
| StatusLimits.CurrentExactly | isa/flags.yaml:4-35 | For ST0 those are SXM, OVM, TC, C, Z and N in bits 0 to 5, and PM |
| StatusLimits.CurrentModesExactly | isa/flags.yaml:37-49 | For ST1 those are INTM, DBGM, PAGE0 and VMAP in bits 0 to 3 |
| StatusLimits.RbMovesOneWord | rust/src/lifter/mov.rs:183-190 | What the lifted PUSH RB and POP RB do instead: they push and pop the one word of the plugin's 16-bit RB |
| StatusLimits.RbNeverMatches | rust/src/lifter/mov.rs:183-190 | The lifted PUSH RB and POP RB never end as the machine does |
| Division.LongDivisionSteps | rust/src/lifter/arith.rs:62-94 | After any number of emitted SUBCUL steps, quotient bits times divisor and the pair conserve the shifted dividend, and ACC stays below the divisor |
| Division.UnsignedDivision | rust/src/lifter/arith.rs:62-94 | On the machine, 32 steps divide ACC:P and leave XT, TC, memory and every other register alone |
| Division.LongDivision | rust/src/lifter/arith.rs:62-94 | 32 emitted steps divide ACC:P: dividend = P * d + ACC with ACC < d |
| Division.LongDivisionFrame | rust/src/lifter/arith.rs:62-94 | And any number of emitted steps leaves XT, TC, every other register and memory as they were |
| Division.SignedDivision | rust/src/lifter/arith.rs:628-678 | The emitted signed idiom gives the quotient truncated toward zero modulo 2^32 and the remainder of the magnitudes, for every numerator and non-zero denominator |
| ShortDivision.ShortDivision | rust/src/lifter/arith.rs:43-61 | 16 emitted SUBCU conserve num = AL * d + AH with AH <= d, and are quotient and remainder if and only if num is not d shifted left |
| ShortDivision.SixteenSteps | rust/src/lifter/arith.rs:43-61 | The division the strict test performs, for all 16-bit operands |
| ShortDivision.OneByOne | rust/src/lifter/arith.rs:43-61 | The emitted 16 SUBCU started with ACC = 1 and AR0 = 1 end with AL = 0 and AH = 1 |
| MultiWord.MultiWordSum | rust/src/lifter/arith.rs:372-422 | n emitted passes of MOVL, ADDCL or SUBBL, MOVL and three ADDB leave the 32n-bit sum or difference with the carry or borrow in flag:C |
| MultiWord.MultiWordFrame | rust/src/lifter/mov.rs:562-575 | And change no word outside the destination array |
| MultiWord.BodySafe | rust/src/lifter/arith.rs:235-248 | The carry survives MOVL and ADDB XARn between two digits |
| DotProduct.DotProductIsSum | rust/src/lifter/multiply.rs:254-304 | n emitted MACs, pointer steps and a last ADDL leave the signed dot product modulo 2^32 in ACC |
| StackNesting.BracketRestores | rust/src/lifter/mov.rs:68-222 | On the machine, the POP after well-bracketed code gives back all its PUSH saved, status bits included, SP and the stack below, for every arm and for PUSH and POP of a loc16 register |
| StackNesting.FlagsRestored | isa/reference/spru430f.yaml:2551-2587 | So PUSH ST0 and POP ST0 keep the machine's N, Z, C, TC, SXM and OVM over any bracketed code |
| StackNesting.LiftedBracketRestores | rust/src/lifter/mov.rs:13-222 | The registers, SP and memory below SP likewise in the emitted IL, at any nesting depth |
| StackNesting.WholeXarsRestored | rust/src/lifter/mov.rs:194-222 | AR1H:AR0H around AR1:AR0 restores all of XAR0 and XAR1 on the machine |
| StackNesting.LiftedXarsRestored | rust/src/lifter/mov.rs:194-222 | And in the emitted IL, with SP and the memory below it |
| StackRuns.RunRestores | rust/src/lifter/mov.rs:13-222 | On the machine, the same of a PUSH and POP around any run of the program, loops and branches included |
| StackRuns.LiftedRunRestores | rust/src/lifter/mov.rs:13-222 | The emitted IL of such a run reaches the machine's program counter with the saved registers, SP and memory below SP as they were |
| WideShift.Lsl64IsShift | rust/src/lifter/shift.rs:45-90 | The emitted LSL64 by 1 to 16 multiplies the 64-bit pair by the power of two, modulo 2^64 |
| Rows.ValidateOperands | core/c28x-core/build.rs:199-235 | Reports exactly the reversed, outside, inside-mask and overlapping fields of a row |
| Rows.Validate | core/c28x-core/build.rs:157-235 | Reports exactly the problems there are, each if and only if it is one |
| RowProblems.ProblemsAre | core/c28x-core/build.rs:157-235 | What each problem is in bits and places: an opcode bit the mask lacks, a mask bit beyond the format, a field whose every bit the mask has, two fields with a place in common, and so on, each if and only if |
| Rows.FieldsApart | core/c28x-core/build.rs:199-235 | The fields of a clean row are pairwise disjoint |
| Table.Order | core/c28x-core/build.rs:340-354 | The sorted rows are all the rows, by mask bits and then by source order |
| Table.MostSpecificWins | core/c28x-core/build.rs:340-354 | No matching row has more mask bits than the selected one, which is first in the source among equals |
| Selection.MatchesExactly | core/c28x-core/src/decoder.rs:84-117 | A row matches if and only if its objmode is absent or the decoder's and every bit of the mask has the opcode's value in the word, with no opcode bit outside the mask |
| Selection.SpecificityIs | core/c28x-core/build.rs:340-354 | The sort key of a row is the number of places where its mask has a bit |
| Selection.ScanSelects | core/c28x-core/src/decoder.rs:84-117 | A table finds a row if and only if one of its format fits, and then the one with the most mask bits, first in the source among equals |
| Selection.DecodeSelects | core/c28x-core/src/decoder.rs:42-82 | So for all bytes: the 16-bit row selected by the first word; if none fits and four bytes are there, the 32-bit row selected by the long word; otherwise nothing |
| Table.SourceTableHolds | core/c28x-core/build.rs:340-343 | The table of a format holds the source rows of that format and no other, so a row that is neither 16 nor 32 bits is in neither |
| Table.FormatWins | core/c28x-core/build.rs:340-354 | Over the source rows of a format, the scan finds a matching row that no other matching one stands ahead of |
| Table.StricterMaskBeats | core/c28x-core/build.rs:340-354 | A row always beats a matching row whose mask it properly contains |
| Table.GroupByTopByte | core/c28x-core/build.rs:694-715 | Every top byte's group holds exactly the rows that can match it, in table order |
| Table.WriteLookupTable | core/c28x-core/build.rs:688-768 | The flat index is the buckets one after the other and each slot its start and length |
| Table.TryMatch | core/c28x-core/src/decoder.rs:84-117 | Scanning one bucket returns exactly what a scan of the whole table returns |
| Decoder.Decode | core/c28x-core/src/decoder.rs:42-82 | The indexed decoder returns the instruction that full scans of the two tables find, or none |
| Decoder.Generate | core/c28x-core/build.rs:340-354 | The generated tables are the source rows filtered by format, sorted and indexed, as the decoder expects them if and only if the flat indices fit 16 bits |
| Decoder.DecodeSource | core/c28x-core/src/decoder.rs:42-82 | Validated source rows, generated and decoded with, give what full scans find |
| Decoder.Build | core/c28x-core/src/decoder.rs:119-165 | All operands in order, the branch type and the target |
| Decoder.ResolveTarget | core/c28x-core/src/decoder.rs:335-376 | The target of the first operand that names one |
| Decoder.DecodeIgnoresRest | core/c28x-core/src/decoder.rs:42-82 | A two-byte instruction does not depend on later bytes, no instruction on bytes after the fourth |
| Decoder.ShortRowWins | core/c28x-core/src/decoder.rs:49-62 | Whenever a 16-bit source row matches, the decoder yields the most specific one |
| Decoder.LongRowWins | core/c28x-core/src/decoder.rs:64-81 | A 32-bit row is chosen when no 16-bit row matches |
| Decoder.SignExtendIs | core/c28x-core/src/types.rs:86-91 | Sign extension is the two's complement reading of the field |
| RoundTrip.OperandsComeBack | core/c28x-core/src/decoder.rs:167-298 | Encoding in-range values and decoding the bytes gives every value back, and the word still matches the row |
| RoundTrip.ShortRowDecodes | core/c28x-core/src/decoder.rs:42-62 | The bytes of an encoded 16-bit row decode to that row unless a row ahead of it matches |
| RoundTrip.LongRowDecodes | core/c28x-core/src/decoder.rs:64-81 | And those of a 32-bit row when no 16-bit row matches the first word |
| RoundTrip.LongComesBack | core/c28x-core/src/decoder.rs:63-67 | The high word laid out first and read back gives the 32-bit word |
| RoundTrip.MatchableExactly | core/c28x-core/build.rs:171-177 | A clean row matches some word of its format if and only if its opcode fits the format |
| RoundTrip.UnmatchableRow | core/c28x-core/build.rs:171-177 | A 16-bit row with opcode 0x10000 and an empty mask is clean, and no word matches it |
| RoundTrip.ExtractExactly | core/c28x-core/src/types.rs:81-84 | Extraction yields the field if and only if it is narrower than 32 bits or the word is zero |
| RoundTrip.WholeWordReadsZero | core/c28x-core/src/types.rs:81-84 | A row with a field of bits 31 to 0 is clean, and the field reads as zero from every word |
| BranchTarget.KindIs | core/c28x-core/src/decoder.rs:300-320 | The kind of branch for every row and word, each kind if and only if: a conditional jump is unconditional exactly when its last condition field holds 0xF |
| BranchTarget.ConditionComesBack | core/c28x-core/src/decoder.rs:300-320 | A conditional jump whose last condition was encoded as UNC is unconditional, any other conditional |
| BranchTarget.FirstTargetIs | core/c28x-core/src/decoder.rs:335-376 | The operand that decides is the first that is a 22-bit immediate, a signed 8- or 16-bit one, or any of these in the two PMA rows |
| BranchTarget.NoTarget | core/c28x-core/src/decoder.rs:335-376 | A row that does not branch, or has no such operand, has no target |
| BranchTarget.RelativeTargetComesBack | core/c28x-core/src/decoder.rs:335-376 | For every offset encoded in the first such operand the target is that many words behind the instruction, none before zero or strictly inside the instruction |
| BranchTarget.AbsoluteTargetComesBack | core/c28x-core/src/decoder.rs:335-376 | For every address encoded, in 22 bits or unsigned in the two PMA rows, the target is that address doubled |
| BranchTarget.TargetsAreSound | core/c28x-core/src/decoder.rs:131-152 | A resolved target is even and not strictly inside the instruction |
| Intervals.Merge | binja/tools.py:199-205 | The merged ranges are ordered and separate and cover the same addresses |
| Intervals.Covered | binja/tools.py:192-211 | covered(addr) if and only if some range has start <= addr < end, for any ranges |
| FlashScan.FlashView.MarkPatternRuns | binja/flash.py:292-328 | Marks exactly the maximal runs of the word that are long enough, each once and disjoint |
| FlashScan.FlashView.FindPointerTables | binja/flash.py:394-452 | Reports exactly the maximal aligned runs of four or more pointers; adds twice the value of each of their cells where that may be executed, once per cell and in cell order; counts every cell once |
| FlashScan.TargetsOnce | binja/flash.py:430-442 | The functions added for reported tables have, in order, a cell of a table that holds half of each, and every cell whose doubled value may be executed is one of these |
| FlashScan.PointerTest | binja/flash.py:411-427 | A cell is a pointer if and only if its value fits 22 bits and twice it lies in the file's flash, in numbers and in bytes |
| FlashScan.LongIsLittleEndian | binja/flash.py:417-420 | A cell's value has the four bytes, the lowest first |
| FlashScan.CellIs | binja/flash.py:305-312 | A word equals the padding word if and only if its two bytes are the low and the high byte of it |
| FlashScan.NextRun | binja/flash.py:305-326 | Taking the run at the cursor keeps the list of runs exact up to its end |
| Template.TokensAreLossless | core/c28x-core/src/text.rs:217-234 | Cutting a template into literals and holes loses nothing, for any string |
| Template.Tokenise | core/c28x-core/src/text.rs:208-238 | The shrinking loop yields the slots of those tokens |
| Template.Pieces | core/c28x-core/src/text.rs:240-263 | The printed pieces are the mnemonic and the line of the slots |
| Template.RenderText | core/c28x-core/src/text.rs:180-268 | The rendered line is that of the chosen layout's slots |
| Template.TextIsSubstitution | core/c28x-core/src/text.rs:180-268 | For any layout the line is the mnemonic, one space and the layout with every hole replaced by its operand, or by nothing when there is no such operand |
| Template.EmptyLayoutLists | core/c28x-core/src/text.rs:209-216 | Without a layout the line is the mnemonic alone, or followed by all operands separated by commas |
| WrittenTemplate.HoleParses | core/c28x-core/src/text.rs:223-231 | `{i}` prints operand i plainly, and `{i:style}` prints it in that style, cut at the first colon, for every number of 64 bits and every style |
| WrittenTemplate.NumberlessPrintsNothing | core/c28x-core/src/text.rs:223-231 | A hole without a number prints nothing |
| WrittenTemplate.DecimalExactly | core/c28x-core/src/text.rs:192-194 | The decimal of a number is the only digit string of that value without a leading zero |
| WrittenTemplate.TokensComeBack | core/c28x-core/src/text.rs:217-234 | Tokenising written-out tokens gives them back |
| WrittenTemplate.SlotsComeBack | core/c28x-core/src/text.rs:208-238 | A layout written from texts and operands is read back slot for slot |
| WrittenTemplate.HoleIsSlot | core/c28x-core/src/text.rs:192-194 | And has a hole for an operand if and only if one of its slots prints it |
| WrittenTemplate.RenderedParts | core/c28x-core/src/text.rs:240-263 | Slots are printed one behind the other |
| WrittenTemplate.OneForm | core/c28x-core/src/text.rs:180-268 | A template of one layout prints the mnemonic, one space, and the texts and operands in order |
| WrittenTemplate.TwoForms | core/c28x-core/src/text.rs:180-268 | One of two layouts prints the one behind the bar if and only if every operand that only the one before it prints is zero |
| Template.MentionsIsHole | core/c28x-core/src/text.rs:192-194 | Searching for a bracketed number finds exactly the templates with a hole for that operand |
| Template.FormsExactly | core/c28x-core/src/text.rs:191 | The forms are (long, short) if and only if the template is long, " | " and short, and no bar stands earlier |
| Template.NoForms | core/c28x-core/src/text.rs:191-207 | There is one form if and only if there is no bar, and then it is the template |
| Template.ShortFormExactly | core/c28x-core/src/text.rs:186-207 | For any long and short that the first bar separates, the short one is chosen if and only if every operand that only the long one has is zero, and the long one otherwise |

## Left out

- Binary Ninja's FFI, registration, views, tasks, loading of COFF and ELF files, the command line tool and the validation scripts.
- The rows of the lifter other than those in `Instructions`: FPU arithmetic, BANZ, calls and returns, rotates, 64-bit right shifts, saturation, intrinsics.
- SimArith.ArithOk: V, OVM and the overflow counter are not claimed, because how Binary Ninja derives V is not in the source; the overflow conditions are therefore never safe. What rows do with SXM clear, OVM set or products shifted is not modelled: the machine records those modes and `Simulation.ModesServe` excludes them.
- SimMisc.MiscOk: N after a compare and the carry after a negate are not claimed; C after ABS is not either.
- SimSystem.SystemOk: INTM, DBGM, PAGE0, VMAP and SXM have no IL counterpart; the machine sets them and the IL does not.
- SimStack.StackOk: PUSH ST0 and PUSH T:ST0 are left to `StatusLimits.PushStatusExact`, PUSH and POP RB to `StatusLimits.RbNeverMatches`; V and OVC in a stored ST0 are the ones last loaded. POP ST0 needs the popped TC to be the one there is, and PUSH ST1 a register with the live mode bits.
- SimMov.MovOk: N and Z after MOV ACC,loc16, and after a store to a register, are not claimed.
- Simulation.FlagCondValue: the overflow codes are excluded, because V is not derived in the source (`BranchEdges` says what they do by the IL's own V), and HI, HIS, LO and LOS need a carry in the sense that `Il.CARRY_SENSE` stands for; `UnsignedBranch` says what happens otherwise.
- Simulation.BranchOk: the same codes are excluded.
- Simulation.InsnOk: so are they here, and an instruction that consumes a carry of unknown or opposite sense; `Limits` says what happens then.
- WholeRun.IlStepOk: as Simulation.InsnOk.
- StraightLine.LineSimulates: a line holds no branch; programs with branches are in `WholeRun`.
- StackNesting.LiftedBracketRestores: bodies are lines, gated moves included; bodies that branch are `StackRuns.LiftedRunRestores`.
- Relation.AddressSame: operands that step a pointer, name SP or resolve to no pointer are excluded; `Operands.PlainFields` lists them, and `Stepping` and `UnnamedFields` say what is emitted for them. The IL's 32-bit byte addresses give 31-bit word addresses, where the hardware bus has 22 bits.
- Relation.ReadLocSame: 32-bit accesses at odd word addresses are taken as they stand; the hardware aligns them.
- Bits of ST1 other than INTM, DBGM, PAGE0 and VMAP: they are the ones last loaded; the rows that set them (EALLOW, SETC OBJMODE and the like) are not modelled.
- WholeRun.RunSimulates: the stack pointer must stay inside 16 bits and operands relative to it above zero, instruction by instruction, and a carry must be in the convention it is consumed in; overflow conditions are not decided; `Limits` and `UnsignedBranch` say what happens otherwise. Rows that carry a register in their name or in an `ax` or `arn` field have it as a parameter. RPT is copies of the repeated instruction. BIO is always asserted.
- The instruction-level dispatch by semantic type: identifiers are grouped as the dispatch groups them.
- The `lift:` block check of the build script, YAML parsing and the generated names, mnemonics and flag-name tables.
- The library sorts, hash maps and `bisect_right` are the functions they compute; the sorts are written as insertions.
- RoundTrip.ExtractExactly: is about a release build; a build with overflow checks panics on a 32-bit field.
- Decoder.Build: display names of operands and the addition of a bias beyond 32 bits are not modelled.
- FlashScan.FlashView.MarkPatternRuns: defining a data variable never fails and reads are never short; addresses are relative to the base.
- Template.Pieces: how a single operand is printed in its style is a parameter.
