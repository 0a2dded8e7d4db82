/** The C28x as SPRU430F describes it, for the modelled instructions: word-addressed memory, a
    16-bit stack pointer in words, the hardware's own carry bit (clear on borrow), and the mode
    bits. Arithmetic is that of the modes `Assumed`; elsewhere these rows are not the hardware's. */
module Machine {
  import opened Registers
  import opened Operands
  import opened Instructions
  import Il
  import Bits

  type Words = map<nat, nat>

  /** Size of the word address space that the IL's 32-bit byte addresses can name. */
  const WORD_SPACE: nat := 0x8000_0000

  /** The mode bits of ST0 (SXM, OVM, PM) and ST1 (INTM, DBGM, PAGE0, VMAP). */
  datatype Modes = Modes(sxm: bool, ovm: bool, pm: nat, intm: bool, dbgm: bool, page0: bool, vmap: bool)

  datatype Status = Status(n: bool, z: bool, c: bool, tc: bool, modes: Modes)

  /** N, Z, C, TC and the modes are live in `status`. The register file holds the words last
      loaded into ST0 and ST1, of which only the other bits still count. RB is 32 bits wide. */
  datatype Machine = Machine(regs: RegFile, sp: nat, mem: Words, status: Status, rb: nat)

  /** The PM field that shifts products by nothing. */
  const UNSHIFTED: nat := 1

  /** The modes cl2000 leaves: sign extension, no saturation, products unshifted, and fields
      0x40-0x7F relative to SP. The rows below are those of these modes. */
  predicate Assumed(m: Modes) {
    m.sxm && !m.ovm && m.pm == UNSHIFTED && !m.page0
  }

  function Word(mem: Words, addr: nat): (v: nat)
    ensures v < 0x1_0000
  {
    Wrap(if addr in mem then mem[addr] else 0, 2)
  }

  /** 16 or 32 bits of memory at a word address, low word first. */
  function ReadWords(mem: Words, addr: nat, size: nat): (v: nat)
    ensures v < Modulus(size)
  {
    if size == 2 then Word(mem, addr % WORD_SPACE)
    else if size == 4 then Word(mem, addr % WORD_SPACE) + 0x1_0000 * Word(mem, (addr + 1) % WORD_SPACE)
    else 0
  }

  function WriteWords(mem: Words, addr: nat, size: nat, v: nat): Words {
    if size == 2 then mem[addr % WORD_SPACE := v % 0x1_0000]
    else if size == 4 then mem[addr % WORD_SPACE := v % 0x1_0000][(addr + 1) % WORD_SPACE := v / 0x1_0000 % 0x1_0000]
    else mem
  }

  // ---- Operands ----

  /** The word address a memory operand names. */
  function WordAddress(r: ResolvedOperand, ms: Machine): nat {
    match r.mode
    case DpDirect => (ReadReg(ms.regs, DP) * 0x40 + r.offset) % WORD_SPACE
    case SpRelative => if ms.sp >= r.offset then ms.sp - r.offset else 0
    case IndirectAr0 =>
      if r.xarIndex.None? then 0
      else (ReadReg(ms.regs, XAR(r.xarIndex.value)) + ReadReg(ms.regs, AR(0))) % WORD_SPACE
    case IndirectAr1 =>
      if r.xarIndex.None? then 0
      else (ReadReg(ms.regs, XAR(r.xarIndex.value)) + ReadReg(ms.regs, AR(1))) % WORD_SPACE
    case RegisterDirect => 0
    case _ =>
      if r.xarIndex.None? then 0
      else (ReadReg(ms.regs, XAR(r.xarIndex.value)) + r.offset) % WORD_SPACE
  }

  predicate NamesRegister(r: ResolvedOperand) {
    r.mode.RegisterDirect? && r.register.Some?
  }

  function ReadLoc(r: ResolvedOperand, size: nat, ms: Machine): nat {
    if NamesRegister(r) then ReadReg(ms.regs, r.register.value)
    else ReadWords(ms.mem, WordAddress(r, ms), size)
  }

  function WriteLoc(r: ResolvedOperand, size: nat, v: nat, ms: Machine): Machine {
    if NamesRegister(r) then ms.(regs := WriteReg(ms.regs, r.register.value, v))
    else ms.(mem := WriteWords(ms.mem, WordAddress(r, ms), size, v))
  }

  function Value(op: Operand, size: nat, ms: Machine): nat {
    match op
    case Loc16(loc) => ReadLoc(loc, 2, ms)
    case Loc32(loc) => ReadLoc(loc, 4, ms)
    case Immediate(value) => Wrap(value, size)
    case Condition(_) => 0
  }

  function StoreOperand(op: Operand, size: nat, v: nat, ms: Machine): Machine {
    match op
    case Loc16(loc) => WriteLoc(loc, size, v, ms)
    case Loc32(loc) => WriteLoc(loc, size, v, ms)
    case _ => ms
  }

  /** The first operand; a row that needs one and has none does not occur. */
  function First(ops: seq<Operand>): Operand {
    if ops == [] then Immediate(0) else ops[0]
  }

  function PutReg(ms: Machine, r: Register, v: nat): Machine {
    ms.(regs := WriteReg(ms.regs, r, v))
  }

  // ---- The ALU ----

  /** N and Z of a result `size` bytes wide. */
  function Judge(s: Status, v: nat, size: nat): Status {
    s.(n := 2 * v >= Modulus(size), z := v == 0)
  }

  /** Status after the exact sum or difference `total`: carry on overflow of a sum, no borrow
      of a difference. */
  function AluStatus(s: Status, total: int, size: nat, subtract: bool): Status {
    Judge(s, Wrap(total, size), size).(c := if subtract then total >= 0 else total >= Modulus(size))
  }

  function AluInto(ms: Machine, r: Register, total: int, subtract: bool): Machine {
    PutReg(ms, r, Wrap(total, 4)).(status := AluStatus(ms.status, total, 4, subtract))
  }

  // ---- Arithmetic ----

  // SUBCU and SUBCUL keep C here, where SPRU430F lists it as affected. Nothing is claimed of C
  // afterwards either.

  /** temp(32:0) = ACC << 1 - [loc16] << 16; if temp > 0 then ACC = temp(31:0) + 1 else ACC <<= 1. */
  function Subcu(ms: Machine, d: nat): Machine {
    var acc := ReadReg(ms.regs, ACC);
    var temp := 2 * acc - 0x1_0000 * d;
    var result := if temp > 0 then Wrap(temp + 1, 4) else Wrap(2 * acc, 4);
    PutReg(ms, ACC, result).(status := Judge(ms.status, result, 4))
  }

  /** temp(32:0) = ACC << 1 + P(31) - [loc32]; if temp >= 0 then ACC = temp(31:0), P = (P << 1) + 1
      else ACC:P <<= 1. */
  function Subcul(ms: Machine, d: nat): Machine {
    var acc, p := ReadReg(ms.regs, ACC), ReadReg(ms.regs, P);
    var doubled := 2 * acc + p / 0x8000_0000;
    var temp := doubled - d;
    var acc' := if temp >= 0 then Wrap(temp, 4) else Wrap(doubled, 4);
    var p' := if temp >= 0 then Wrap(2 * p + 1, 4) else Wrap(2 * p, 4);
    PutReg(PutReg(ms, ACC, acc'), P, p').(status := Judge(ms.status, acc', 4))
  }

  /** The 32-bit pattern added to or subtracted from ACC or P. As SXM set has it. */
  function SourceValue(id: ArithId, op: Operand, ms: Machine): nat {
    var v := Value(op, 4, ms);
    if id.ADD_ACC_LOC16? || id.SUB_ACC_LOC16? then Wrap(Il.Signed(v, 2), 4) else v
  }

  predicate IsSum(id: ArithId) {
    match id
    case INC_LOC16 => true
    case ADD_ACC_LOC16 => true
    case ADDB_ACC_CONST8 => true
    case ADDL_ACC_LOC32 => true
    case ADDL_LOC32_ACC => true
    case ADDUL_P_LOC32 => true
    case ADDB_SP_CONST7 => true
    case ADDB_XARN_CONST7(_) => true
    case ADDU_ACC_LOC16 => true
    case ADDCU_ACC_LOC16 => true
    case ADDCL_ACC_LOC32 => true
    case _ => false
  }

  /** The exact result of the rows whose destination is the operand. */
  function StoredTotal(id: ArithId, v: nat, acc: nat): int {
    match id
    case INC_LOC16 => v + 1
    case DEC_LOC16 => v - 1
    case ADDL_LOC32_ACC => v + acc
    case SUBL_LOC32_ACC => v - acc
    case _ => acc - v
  }

  predicate IntoOperand(id: ArithId) {
    id.INC_LOC16? || id.DEC_LOC16? || id.ADDL_LOC32_ACC? || id.SUBL_LOC32_ACC? || id.SUBRL_LOC32_ACC?
  }

  function ArithStored(id: ArithId, op: Operand, ms: Machine): Machine {
    var size := ArithWidth(id);
    var total := StoredTotal(id, Value(op, size, ms), ReadReg(ms.regs, ACC));
    StoreOperand(op, size, Wrap(total, size), ms).(status := AluStatus(ms.status, total, size, !IsSum(id)))
  }

  /** ACC = ACC + src + C and ACC = ACC - src - ~C. */
  function CarryTotal(id: ArithId, acc: nat, src: nat, c: bool): int {
    if id.ADDCU_ACC_LOC16? || id.ADDCL_ACC_LOC32? then acc + src + Bool(c)
    else acc - src - Bool(!c)
  }

  predicate UsesCarry(id: ArithId) {
    id.SBBU_ACC_LOC16? || id.SUBBL_ACC_LOC32? || id.ADDCU_ACC_LOC16? || id.ADDCL_ACC_LOC32?
  }

  function ArithRegister(id: ArithId, src: nat, ms: Machine): Machine {
    if UsesCarry(id) then
      AluInto(ms, ACC, CarryTotal(id, ReadReg(ms.regs, ACC), src, ms.status.c), !IsSum(id))
    else
      var r := if id.ADDUL_P_LOC32? || id.SUBUL_P_LOC32? then P else ACC;
      var v := ReadReg(ms.regs, r);
      AluInto(ms, r, if IsSum(id) then v + src else v - src, !IsSum(id))
  }

  function ArithEffect(id: ArithId, op: Operand, ms: Machine): Machine {
    if id.SUBCU_ACC_LOC16? then Subcu(ms, Value(op, 2, ms))
    else if id.SUBCUL_ACC_LOC32? then Subcul(ms, Value(op, 4, ms))
    else if IntoOperand(id) then ArithStored(id, op, ms)
    else if id.ADDB_SP_CONST7? then ms.(sp := Wrap(ms.sp + Value(op, 2, ms), 2))
    else if id.SUBB_SP_CONST7? then ms.(sp := Wrap(ms.sp - Value(op, 2, ms), 2))
    else if id.ADDB_XARN_CONST7? then
      PutReg(ms, XAR(id.xar), Wrap(ReadReg(ms.regs, XAR(id.xar)) + Value(op, 4, ms), 4))
    else if id.SUBB_XARN_CONST7? then
      PutReg(ms, XAR(id.xar), Wrap(ReadReg(ms.regs, XAR(id.xar)) - Value(op, 4, ms), 4))
    else ArithRegister(id, SourceValue(id, op, ms), ms)
  }

  // ---- Compare, negate, absolute value (as OVM clear has them: no saturation) ----

  // N after CMPL, MAX and MIN is taken of the wrapped difference here, where SPRU430F takes it of
  // the exact one. Nothing is claimed of N afterwards, so neither reading shows in a result.

  function NegateAcc(ms: Machine): Machine {
    var result := Wrap(0 - ReadReg(ms.regs, ACC), 4);
    PutReg(ms, ACC, result).(status := Judge(ms.status, result, 4).(c := result == 0))
  }

  function MiscEffect(id: MiscId, ops: seq<Operand>, ms: Machine): Machine {
    var acc := ReadReg(ms.regs, ACC);
    var kept := ms.(status := Judge(ms.status, acc, 4).(c := false));
    match id
    case CMPL_ACC_LOC32 =>
      ms.(status := AluStatus(ms.status, acc - Value(First(ops), 4, ms), 4, true))
    case TEST_ACC => ms.(status := Judge(ms.status, acc, 4))
    case NEG_ACC => NegateAcc(ms)
    case ABS_ACC => if acc >= 0x8000_0000 then NegateAcc(ms) else kept
    case ABSTC_ACC =>
      if acc >= 0x8000_0000 then
        var neg := NegateAcc(ms);
        neg.(status := neg.status.(tc := !ms.status.tc))
      else kept
    case NEGTC_ACC => if ms.status.tc then NegateAcc(ms) else kept
  }

  // ---- Moves ----

  function LoadAcc(ms: Machine, v: nat): Machine {
    PutReg(ms, ACC, v).(status := Judge(ms.status, v, 4))
  }

  function MovEffect(id: MovId, ops: seq<Operand>, ms: Machine): Machine {
    var op := First(ops);
    match id
    case MOVL_ACC_LOC32 => LoadAcc(ms, Value(op, 4, ms))
    case MOVL_P_ACC => PutReg(ms, P, ReadReg(ms.regs, ACC))
    case MOVB_ACC_CONST8 => LoadAcc(ms, Value(op, 1, ms))
    case MOV_ACC_LOC16 => PutReg(ms, ACC, Wrap(Il.Signed(Value(op, 2, ms), 2), 4))
    case MOV_REG_LOC(reg) => PutReg(ms, reg, Value(op, reg.Size(), ms))
    case MOV_LOC_REG(reg) => StoreOperand(op, reg.Size(), ReadReg(ms.regs, reg), ms)
    case MOV_LOC16_AX_COND(reg) => StoreOperand(op, 2, ReadReg(ms.regs, reg), ms)
    case MOVB_LOC16_CONST8_COND => if |ops| < 2 then ms else StoreOperand(op, 2, Value(ops[1], 2, ms), ms)
    case MOVL_LOC32_ACC_COND => StoreOperand(op, 4, ReadReg(ms.regs, ACC), ms)
  }

  // ---- Status words ----

  function Bool(b: bool): nat { if b then 1 else 0 }

  /** The bit of a word that weighs `weight`. */
  predicate BitAt(w: nat, weight: nat)
    requires weight > 0
  {
    w / weight % 2 == 1
  }

  /** ST0: SXM, OVM, TC, C, Z and N from bit 0 up, PM in bits 9:7. V and OVC are the ones last
      loaded; arithmetic does not keep them here. */
  function StatusWord(w: nat, s: Status): nat {
    Bool(s.modes.sxm) + 2 * Bool(s.modes.ovm) + 4 * Bool(s.tc) + 8 * Bool(s.c) + 16 * Bool(s.z) + 32 * Bool(s.n)
    + 0x40 * (w / 0x40 % 2) + 0x80 * (s.modes.pm % 8) + 0x400 * (w / 0x400)
  }

  function LoadStatus(s: Status, w: nat): Status {
    Status(BitAt(w, 32), BitAt(w, 16), BitAt(w, 8), BitAt(w, 4),
           s.modes.(sxm := BitAt(w, 1), ovm := BitAt(w, 2), pm := w / 0x80 % 8))
  }

  /** ST1: INTM, DBGM, PAGE0 and VMAP in the low four bits. */
  function ModeWord(w: nat, m: Modes): nat {
    Bool(m.intm) + 2 * Bool(m.dbgm) + 4 * Bool(m.page0) + 8 * Bool(m.vmap) + 0x10 * (w / 0x10)
  }

  function LoadModes(m: Modes, w: nat): Modes {
    m.(intm := BitAt(w, 1), dbgm := BitAt(w, 2), page0 := BitAt(w, 4), vmap := BitAt(w, 8))
  }

  /** Bytes a register takes on the stack. */
  function Width(r: Register): (w: nat)
    ensures w == 2 || w == 4
  {
    if r == RB then 4 else r.Size()
  }

  /** What a register holds, status bits included. */
  function Live(r: Register, ms: Machine): nat {
    if r == ST0 then StatusWord(ReadReg(ms.regs, ST0), ms.status)
    else if r == ST1 then ModeWord(ReadReg(ms.regs, ST1), ms.status.modes)
    else if r == RB then Wrap(ms.rb, 4)
    else ReadReg(ms.regs, r)
  }

  /** Loading a status word loads the bits. */
  function LoadLive(ms: Machine, r: Register, v: nat): Machine {
    if r == RB then ms.(rb := v)
    else
      PutReg(ms, r, v).(status := if r == ST0 then LoadStatus(ms.status, v)
                                  else if r == ST1 then ms.status.(modes := LoadModes(ms.status.modes, v))
                                  else ms.status)
  }

  // ---- Stack ----

  /** [SP] = v; SP += size in words. */
  function Push(ms: Machine, size: nat, v: nat): Machine {
    ms.(mem := WriteWords(ms.mem, ms.sp, size, v), sp := Wrap(ms.sp + size / 2, 2))
  }

  function Lower(ms: Machine, size: nat): Machine { ms.(sp := Wrap(ms.sp - size / 2, 2)) }

  function PushReg(ms: Machine, r: Register): Machine { Push(ms, Width(r), Live(r, ms)) }

  /** SP -= size in words; r = [SP]. */
  function PopReg(ms: Machine, r: Register): Machine {
    var low := Lower(ms, Width(r));
    LoadLive(low, r, ReadWords(low.mem, low.sp, Width(r)))
  }

  function PushHigh(ms: Machine, r: Register): Machine { Push(ms, 2, ReadReg(ms.regs, r) / 0x1_0000) }

  function PopHigh(ms: Machine, r: Register): Machine {
    var low := Lower(ms, 2);
    PutReg(low, r, ReadReg(ms.regs, r) % 0x1_0000 + 0x1_0000 * ReadWords(low.mem, low.sp, 2))
  }

  function PushArm(arm: StackArm, ms: Machine): Machine {
    match arm
    case ArmST0 => PushReg(ms, ST0)
    case ArmST1 => PushReg(ms, ST1)
    case ArmDP => PushReg(ms, DP)
    case ArmRPC => PushReg(ms, RPC)
    case ArmIFR => PushReg(ms, IFR)
    case ArmDBGIER => PushReg(ms, DBGIER)
    case ArmP => PushReg(ms, P)
    case ArmXT => PushReg(ms, XT)
    case ArmRB => PushReg(ms, RB)
    case AR1_AR0 => PushReg(PushReg(ms, AR(0)), AR(1))
    case AR3_AR2 => PushReg(PushReg(ms, AR(2)), AR(3))
    case AR5_AR4 => PushReg(PushReg(ms, AR(4)), AR(5))
    case DP_ST1 => PushReg(PushReg(ms, ST1), DP)
    case T_ST0 => PushReg(PushReg(ms, ST0), T)
    case AR1H_AR0H => PushHigh(PushHigh(ms, XAR(0)), XAR(1))
  }

  function PopArm(arm: StackArm, ms: Machine): Machine {
    match arm
    case ArmST0 => PopReg(ms, ST0)
    case ArmST1 => PopReg(ms, ST1)
    case ArmDP => PopReg(ms, DP)
    case ArmRPC => PopReg(ms, RPC)
    case ArmIFR => PopReg(ms, IFR)
    case ArmDBGIER => PopReg(ms, DBGIER)
    case ArmP => PopReg(ms, P)
    case ArmXT => PopReg(ms, XT)
    case ArmRB => PopReg(ms, RB)
    case AR1_AR0 => PopReg(PopReg(ms, AR(1)), AR(0))
    case AR3_AR2 => PopReg(PopReg(ms, AR(3)), AR(2))
    case AR5_AR4 => PopReg(PopReg(ms, AR(5)), AR(4))
    case DP_ST1 => PopReg(PopReg(ms, DP), ST1)
    case T_ST0 => PopReg(PopReg(ms, T), ST0)
    case AR1H_AR0H => PopHigh(PopHigh(ms, XAR(1)), XAR(0))
  }

  /** Words an arm moves. */
  function ArmWords(arm: StackArm): nat {
    match arm
    case ArmRB => 2
    case ArmRPC => 2
    case ArmP => 2
    case ArmXT => 2
    case AR1_AR0 => 2
    case AR3_AR2 => 2
    case AR5_AR4 => 2
    case DP_ST1 => 2
    case T_ST0 => 2
    case AR1H_AR0H => 2
    case _ => 1
  }

  function StackEffect(id: StackId, ops: seq<Operand>, ms: Machine): Machine {
    match id
    case PUSH(arm) => PushArm(arm, ms)
    case POP(arm) => PopArm(arm, ms)
    case PUSH_LOC16 => Push(ms, 2, Value(First(ops), 2, ms))
    case POP_LOC16 =>
      var low := Lower(ms, 2);
      StoreOperand(First(ops), 2, ReadWords(low.mem, low.sp, 2), low)
  }

  // ---- Multiply-accumulate ----

  /** ACC = ACC + P; T = [loc16]; P = signed T * signed factor. Products unshifted. */
  function Mac(ms: Machine, t: nat, factor: nat): Machine {
    var acc, p := ReadReg(ms.regs, ACC), ReadReg(ms.regs, P);
    var added := AluInto(ms, ACC, acc + p, false);
    PutReg(PutReg(added, T, t), P, Wrap(Il.Signed(t, 2) * Il.Signed(factor, 2), 4))
  }

  function MultiplyEffect(id: MultiplyId, ops: seq<Operand>, ms: Machine): Machine {
    var added := AluInto(ms, ACC, ReadReg(ms.regs, ACC) + ReadReg(ms.regs, P), false);
    var t := Value(First(ops), 2, added);
    match id
    case MPYA_P_LOC16_CONST16 => if |ops| < 2 then ms else Mac(ms, t, Value(ops[1], 2, ms))
    case MAC_P_LOC16_XAR7 => Mac(ms, t, ProgramWord(ms))
    case MAC_P_LOC16_XAR7_POSTINC =>
      var done := Mac(ms, t, ProgramWord(ms));
      PutReg(done, XAR(7), Wrap(ReadReg(done.regs, XAR(7)) + 1, 4))
  }

  /** Program and data space are one. */
  function ProgramWord(ms: Machine): nat {
    ReadWords(ms.mem, ReadReg(ms.regs, XAR(7)), 2)
  }

  // ---- Status bits, maximum and minimum, 64-bit shift ----

  /** The mode bits that SETC and CLRC name by bits 0, 1 and 4 to 7 of their mask. */
  function SetModes(m: Modes, mask: nat, on: bool): Modes {
    Modes(if Bits.Bit(mask, 0) then on else m.sxm, if Bits.Bit(mask, 1) then on else m.ovm, m.pm,
          if Bits.Bit(mask, 4) then on else m.intm, if Bits.Bit(mask, 5) then on else m.dbgm,
          if Bits.Bit(mask, 6) then on else m.page0, if Bits.Bit(mask, 7) then on else m.vmap)
  }

  function SetMode(ms: Machine, mask: nat, on: bool): Machine {
    var s := ms.status.(modes := SetModes(ms.status.modes, mask, on));
    var s1 := if Bits.Bit(mask, 2) then s.(tc := on) else s;
    ms.(status := if Bits.Bit(mask, 3) then s1.(c := on) else s1)
  }

  function Select(ms: Machine, r: Register, v: nat, keep: bool): Machine {
    if keep then ms else PutReg(ms, r, v)
  }

  /** Flags of r - operand; the accumulator forms also set the carry. */
  function Max(ms: Machine, r: Register, v: nat, keep: bool, carry: bool): Machine {
    var total := ReadReg(ms.regs, r) - v;
    var s := AluStatus(ms.status, total, 4, true);
    Select(ms, r, v, keep).(status := if carry then s else s.(c := ms.status.c))
  }

  function ShiftPair(ms: Machine, k: nat): Machine {
    var pair := ReadReg(ms.regs, ACC) * 0x1_0000_0000 + ReadReg(ms.regs, P);
    var shifted := Wrap(Bits.Shl(pair, k), 8);
    PutReg(PutReg(ms, ACC, shifted / 0x1_0000_0000), P, shifted % 0x1_0000_0000)
  }

  function SystemEffect(id: SystemId, op: Operand, ms: Machine): Machine {
    var acc, p := ReadReg(ms.regs, ACC), ReadReg(ms.regs, P);
    match id
    case SETC_MODE => SetMode(ms, Value(op, 1, ms), true)
    case CLRC_MODE => SetMode(ms, Value(op, 1, ms), false)
    case MAXL_ACC_LOC32 =>
      var v := Value(op, 4, ms); Max(ms, ACC, v, Il.Signed(acc, 4) >= Il.Signed(v, 4), true)
    case MINL_ACC_LOC32 =>
      var v := Value(op, 4, ms); Max(ms, ACC, v, Il.Signed(acc, 4) <= Il.Signed(v, 4), true)
    case MAXCUL_P_LOC32 => var v := Value(op, 4, ms); Max(ms, P, v, p >= v, false)
    case MINCUL_P_LOC32 => var v := Value(op, 4, ms); Max(ms, P, v, p <= v, false)
    case LSL64_ACC_P_SHIFT => ShiftPair(ms, Value(op, 8, ms))
  }

  // ---- Conditions and whole instructions ----

  /** A 4-bit condition on the hardware status bits; the overflow codes read as false here and
      are excluded where this is used. BIO is always asserted. */
  predicate Holds(code: nat, s: Status) {
    match code
    case 0x0 => !s.z
    case 0x1 => s.z
    case 0x2 => !s.z && !s.n
    case 0x3 => !s.n
    case 0x4 => s.n
    case 0x5 => s.z || s.n
    case 0x6 => s.c && !s.z
    case 0x7 => s.c
    case 0x8 => !s.c
    case 0x9 => !s.c || s.z
    case 0xC => !s.tc
    case 0xD => s.tc
    case 0xE => true
    case 0xF => true
    case _ => false
  }

  function Effect(insn: DecodedInstruction, ms: Machine): Machine {
    match insn.id
    case Arith(id) => ArithEffect(id, First(insn.operands), ms)
    case Misc(id) => MiscEffect(id, insn.operands, ms)
    case Mov(id) => MovEffect(id, insn.operands, ms)
    case Stack(id) => StackEffect(id, insn.operands, ms)
    case Multiply(id) => MultiplyEffect(id, insn.operands, ms)
    case System(id) => SystemEffect(id, First(insn.operands), ms)
    case Branch(_) => ms
  }

  /** The condition an instruction carries, unconditional when it has none. */
  function ConditionOf(ops: seq<Operand>): nat {
    if ops == [] then 0xF
    else if ops[0].Condition? then ops[0].code
    else ConditionOf(ops[1..])
  }

  datatype StepResult = Next(ms: Machine) | Taken(target: nat, ms: Machine)

  function Step(insn: DecodedInstruction, ms: Machine): StepResult {
    var holds := Holds(ConditionOf(insn.operands), ms.status);
    if insn.id.Branch? then
      (if holds && insn.target.Some? then Taken(insn.target.value, ms) else Next(ms))
    else if holds then Next(Effect(insn, ms))
    else Next(ms)
  }
}
