/** The low-level IL the lifter emits: expressions, instructions and their meaning.

    An expression is a tree that is evaluated when the instruction holding it runs, in the
    state of that moment. Values are unsigned and already reduced to their width. */
module Il {
  import opened Registers
  import Bits

  datatype Flag = N | Z | C | V | TC | OVM

  /** Named sets of flags an expression writes. */
  datatype FlagWrite = All | NZ | NZCV | WriteTC | NZC | NZV {
    function FlagsWritten(): set<Flag> {
      match this
      case All => {N, Z, C, V}
      case NZCV => {N, Z, C, V}
      case NZ => {N, Z}
      case WriteTC => {TC}
      case NZC => {N, Z, C}
      case NZV => {N, Z, V}
    }
  }

  /** Flag conditions. The architecture names the flags each one reads: Z, N and Z, N, C, C and Z,
      V. The signed ones are taken to read N and Z alone, as it says, and not V as a default
      resolution of signed comparisons would. */
  datatype FlagCondition = E | NE | SLT | SGE | SGT | SLE | UGE | ULT | UGT | ULE | O | NO

  /** How the unsigned conditions read C: set when there was no borrow, as the architecture's
      flag groups spell them out, or set when there was one, as its plain carry role suggests. */
  datatype CarrySense = SetMeansNoBorrow | SetMeansBorrow

  /** Which of the two Binary Ninja applies is not in the source. The constant is left without a
      value, so that every result holds for either. */
  const CARRY_SENSE: CarrySense

  /** C as an unsigned condition reads it. */
  predicate NoBorrow(c: bool) { c == CARRY_SENSE.SetMeansNoBorrow? }

  datatype Flags = Flags(n: bool, z: bool, c: bool, v: bool, tc: bool, ovm: bool) {
    function Get(f: Flag): bool {
      match f
      case N => n
      case Z => z
      case C => c
      case V => v
      case TC => tc
      case OVM => ovm
    }

    function Set(f: Flag, b: bool): Flags {
      match f
      case N => this.(n := b)
      case Z => this.(z := b)
      case C => this.(c := b)
      case V => this.(v := b)
      case TC => this.(tc := b)
      case OVM => this.(ovm := b)
    }

    predicate Holds(cond: FlagCondition) {
      match cond
      case E => z
      case NE => !z
      case SLT => n
      case SGE => !n
      case SGT => !z && !n
      case SLE => z || n
      case UGE => NoBorrow(c)
      case ULT => !NoBorrow(c)
      case UGT => NoBorrow(c) && !z
      case ULE => !NoBorrow(c) || z
      case O => v
      case NO => !v
    }
  }

  datatype BinOp = AddOp | SubOp | MulOp | AndOp | OrOp | XorOp | LslOp | LsrOp
  datatype CmpOp = Eq | Sge | Sgt | Slt | Sle | Uge | Ule

  datatype Expr =
    | EConst(size: nat, value: int)
    | EReg(size: nat, reg: Register)
    | ETemp(size: nat, index: nat)
    | EFlag(flag: Flag)
    | ECond(cond: FlagCondition)
    | ELoad(size: nat, addr: Expr)
    | EBin(op: BinOp, size: nat, left: Expr, right: Expr)
    | EAdc(size: nat, left: Expr, right: Expr, carry: Expr)
    | ESbb(size: nat, left: Expr, right: Expr, borrow: Expr)
    | ENeg(size: nat, arg: Expr)
    | ENot(size: nat, arg: Expr)
    | EZx(size: nat, arg: Expr)
    | ESx(size: nat, arg: Expr)
    | ELow(size: nat, arg: Expr)
    | ECmp(cmp: CmpOp, size: nat, left: Expr, right: Expr)
    | EFlagged(arg: Expr, written: FlagWrite)

  /** The width an expression was built with. */
  function SizeOf(e: Expr): nat {
    match e
    case EFlag(_) => 0
    case ECond(_) => 0
    case ECmp(_, _, _, _) => 0
    case EFlagged(arg, _) => SizeOf(arg)
    case _ => e.size
  }

  function Bool(b: bool): (v: nat)
    ensures v < 2
  {
    if b then 1 else 0
  }

  /** Two's complement reading of a value `size` bytes wide. */
  function Signed(v: nat, size: nat): int {
    if 2 * v >= Modulus(size) then v - Modulus(size) else v
  }

  // ---- Machine state of the IL ----

  type Temps = map<nat, nat>

  /** Byte-addressed memory; a byte that was never written reads as zero. */
  type Memory = map<nat, nat>

  const ADDRESS_SPACE: nat := 0x1_0000_0000

  datatype State = State(regs: RegFile, temps: Temps, mem: Memory, flags: Flags)

  function Byte(mem: Memory, addr: nat): (b: nat)
    ensures b < 0x100
  {
    (if addr in mem then mem[addr] else 0) % 0x100
  }

  /** Little-endian 16-bit read; addresses wrap at the end of the address space. */
  function Half(mem: Memory, addr: nat): (v: nat)
    ensures v < 0x1_0000
  {
    Byte(mem, addr % ADDRESS_SPACE) + 0x100 * Byte(mem, (addr + 1) % ADDRESS_SPACE)
  }

  function LoadBytes(mem: Memory, addr: nat, size: nat): (v: nat)
    ensures v < Modulus(size)
  {
    hide Modulus, Half;
    if size == 2 then Half(mem, addr)
    else if size == 4 then Half(mem, addr) + 0x1_0000 * Half(mem, addr + 2)
    else 0
  }

  function StoreHalf(mem: Memory, addr: nat, v: nat): Memory {
    mem[addr % ADDRESS_SPACE := v % 0x100][(addr + 1) % ADDRESS_SPACE := v / 0x100 % 0x100]
  }

  function StoreBytes(mem: Memory, addr: nat, size: nat, v: nat): Memory {
    if size == 2 then StoreHalf(mem, addr, v)
    else if size == 4 then StoreHalf(StoreHalf(mem, addr, v), addr + 2, v / 0x1_0000)
    else mem
  }

  // ---- Expressions ----

  function Apply(op: BinOp, a: nat, b: nat): int {
    match op
    case AddOp => a + b
    case SubOp => a - b
    case MulOp => a * b
    case AndOp => Bits.And(a, b)
    case OrOp => Bits.Or(a, b)
    case XorOp => Bits.Xor(a, b)
    case LslOp => Bits.Shl(a, b)
    case LsrOp => Bits.Shr(a, b)
  }

  predicate Compare(cmp: CmpOp, size: nat, a: nat, b: nat) {
    match cmp
    case Eq => a == b
    case Sge => Signed(a, size) >= Signed(b, size)
    case Sgt => Signed(a, size) > Signed(b, size)
    case Slt => Signed(a, size) < Signed(b, size)
    case Sle => Signed(a, size) <= Signed(b, size)
    case Uge => a >= b
    case Ule => a <= b
  }

  /** The value of an expression, reduced to its width. */
  function Eval(e: Expr, st: State): (v: nat)
    ensures v < Modulus(SizeOf(e))
    decreases e, 1
  {
    Wrap(Raw(e, st), SizeOf(e))
  }

  /** The value before it is reduced. */
  function Raw(e: Expr, st: State): int
    decreases e, 0
  {
    hide *;
    match e
    case EConst(_, value) => value
    case EReg(_, reg) => ReadReg(st.regs, reg)
    case ETemp(_, index) => if index in st.temps then st.temps[index] else 0
    case EFlag(flag) => Bool(st.flags.Get(flag))
    case ECond(cond) => Bool(st.flags.Holds(cond))
    case ELoad(size, addr) => LoadBytes(st.mem, Eval(addr, st), size)
    case EBin(op, _, left, right) => Apply(op, Eval(left, st), Eval(right, st))
    case EAdc(_, left, right, carry) => Eval(left, st) + Eval(right, st) + Eval(carry, st)
    case ESbb(_, left, right, borrow) => Eval(left, st) - Eval(right, st) - Eval(borrow, st)
    case ENeg(_, arg) => 0 - Eval(arg, st)
    case ENot(size, arg) => Modulus(size) - 1 - Eval(arg, st)
    case EZx(_, arg) => Eval(arg, st)
    case ESx(_, arg) => Signed(Eval(arg, st), SizeOf(arg))
    case ELow(_, arg) => Eval(arg, st)
    case ECmp(cmp, size, left, right) => Bool(Compare(cmp, size, Eval(left, st), Eval(right, st)))
    case EFlagged(arg, _) => Eval(arg, st)
  }

  // ---- Flags ----

  /** What Binary Ninja derives for a flag when the sources do not say: any function of the
      flag, the flagged expression and the state it is evaluated in. */
  type Oracle = (Flag, Expr, State) -> bool

  /** Carry-out of an addition, borrow of a subtraction, otherwise the oracle's choice. */
  predicate CarryOf(op: Expr, st: State, o: Oracle) {
    hide *;
    match op
    case EBin(AddOp, size, a, b) => Eval(a, st) + Eval(b, st) >= Modulus(size)
    case EBin(SubOp, size, a, b) => Eval(a, st) < Eval(b, st)
    case EAdc(size, a, b, c) => Eval(a, st) + Eval(b, st) + Eval(c, st) >= Modulus(size)
    case ESbb(size, a, b, c) => Eval(a, st) < Eval(b, st) + Eval(c, st)
    case _ => o(C, op, st)
  }

  predicate FlagValue(f: Flag, op: Expr, st: State, o: Oracle) {
    hide *;
    match f
    case N => 2 * Eval(op, st) >= Modulus(SizeOf(op))
    case Z => Eval(op, st) == 0
    case C => CarryOf(op, st, o)
    case _ => o(f, op, st)
  }

  function WriteFlags(written: FlagWrite, op: Expr, st: State, o: Oracle): Flags {
    var w := written.FlagsWritten();
    Flags(if N in w then FlagValue(N, op, st, o) else st.flags.n,
          if Z in w then FlagValue(Z, op, st, o) else st.flags.z,
          if C in w then FlagValue(C, op, st, o) else st.flags.c,
          if V in w then FlagValue(V, op, st, o) else st.flags.v,
          if TC in w then FlagValue(TC, op, st, o) else st.flags.tc,
          st.flags.ovm)
  }

  /** The flags after evaluating `e`. A flag write is attached to the expression itself or
      to the operand that a narrowing of it wraps; the lifter builds no other shape. */
  function FlagsAfter(e: Expr, st: State, o: Oracle): Flags {
    match e
    case EFlagged(op, written) => WriteFlags(written, op, st, o)
    case EBin(_, _, EFlagged(op, written), _) => WriteFlags(written, op, st, o)
    case ELow(_, EFlagged(op, written)) => WriteFlags(written, op, st, o)
    case _ => st.flags
  }

  // ---- Expression builders, one per method of the IL function ----

  function Const(size: nat, value: int): (e: Expr)
    ensures SizeOf(e) == size
    ensures forall st: State :: Eval(e, st) == Wrap(value, size)
  {
    hide Wrap, Modulus, Signed, Compare, ReadReg, LoadBytes;
    EConst(size, value)
  }

  function Reg(size: nat, r: Register): (e: Expr)
    ensures SizeOf(e) == size
    ensures forall st: State :: Eval(e, st) == Wrap(ReadReg(st.regs, r), size)
  {
    hide Wrap, Modulus, Signed, Compare, ReadReg, LoadBytes;
    EReg(size, r)
  }

  function Temp(size: nat, index: nat): (e: Expr)
    ensures SizeOf(e) == size
    ensures forall st: State :: index in st.temps ==> Eval(e, st) == Wrap(st.temps[index], size)
  {
    hide Wrap, Modulus, Signed, Compare, ReadReg, LoadBytes;
    ETemp(size, index)
  }

  function FlagOf(flag: Flag): (e: Expr)
    ensures SizeOf(e) == 0
    ensures forall st: State :: Eval(e, st) == Bool(st.flags.Get(flag))
  {
    hide Wrap, Modulus, Signed, Compare, ReadReg, LoadBytes;
    EFlag(flag)
  }

  function Load(size: nat, addr: Expr): (e: Expr)
    ensures SizeOf(e) == size
    ensures forall st: State :: Eval(e, st) == LoadBytes(st.mem, Eval(addr, st), size)
  {
    hide Wrap, Modulus, Signed, Compare, ReadReg, LoadBytes;
    ELoad(size, addr)
  }

  function Add(size: nat, a: Expr, b: Expr): (e: Expr)
    ensures SizeOf(e) == size
    ensures forall st: State :: Eval(e, st) == Wrap(Eval(a, st) + Eval(b, st), size)
    ensures forall st: State, o: Oracle :: CarryOf(e, st, o) == (Eval(a, st) + Eval(b, st) >= Modulus(size))
  {
    hide Wrap, Modulus, Signed, Compare, ReadReg, LoadBytes;
    EBin(AddOp, size, a, b)
  }

  function Sub(size: nat, a: Expr, b: Expr): (e: Expr)
    ensures SizeOf(e) == size
    ensures forall st: State :: Eval(e, st) == Wrap(Eval(a, st) - Eval(b, st), size)
    ensures forall st: State, o: Oracle :: CarryOf(e, st, o) == (Eval(a, st) < Eval(b, st))
  {
    hide Wrap, Modulus, Signed, Compare, ReadReg, LoadBytes;
    EBin(SubOp, size, a, b)
  }

  function Mul(size: nat, a: Expr, b: Expr): (e: Expr)
    ensures SizeOf(e) == size
    ensures forall st: State :: Eval(e, st) == Wrap(Eval(a, st) * Eval(b, st), size)
  {
    hide Wrap, Modulus, Signed, Compare, ReadReg, LoadBytes;
    EBin(MulOp, size, a, b)
  }

  function And(size: nat, a: Expr, b: Expr): (e: Expr)
    ensures SizeOf(e) == size
    ensures forall st: State :: Eval(e, st) == Wrap(Bits.And(Eval(a, st), Eval(b, st)), size)
  {
    hide Wrap, Modulus, Signed, Compare, ReadReg, LoadBytes;
    EBin(AndOp, size, a, b)
  }

  function Or(size: nat, a: Expr, b: Expr): (e: Expr)
    ensures SizeOf(e) == size
    ensures forall st: State :: Eval(e, st) == Wrap(Bits.Or(Eval(a, st), Eval(b, st)), size)
  {
    hide Wrap, Modulus, Signed, Compare, ReadReg, LoadBytes;
    EBin(OrOp, size, a, b)
  }

  function Xor(size: nat, a: Expr, b: Expr): (e: Expr)
    ensures SizeOf(e) == size
    ensures forall st: State :: Eval(e, st) == Wrap(Bits.Xor(Eval(a, st), Eval(b, st)), size)
  {
    hide Wrap, Modulus, Signed, Compare, ReadReg, LoadBytes;
    EBin(XorOp, size, a, b)
  }

  function Lsl(size: nat, a: Expr, b: Expr): (e: Expr)
    ensures SizeOf(e) == size
    ensures forall st: State :: Eval(e, st) == Wrap(Bits.Shl(Eval(a, st), Eval(b, st)), size)
  {
    hide Wrap, Modulus, Signed, Compare, ReadReg, LoadBytes;
    EBin(LslOp, size, a, b)
  }

  function Lsr(size: nat, a: Expr, b: Expr): (e: Expr)
    ensures SizeOf(e) == size
    ensures forall st: State :: Eval(e, st) == Wrap(Bits.Shr(Eval(a, st), Eval(b, st)), size)
  {
    hide Wrap, Modulus, Signed, Compare, ReadReg, LoadBytes;
    EBin(LsrOp, size, a, b)
  }

  function Adc(size: nat, a: Expr, b: Expr, carry: Expr): (e: Expr)
    ensures SizeOf(e) == size
    ensures forall st: State :: Eval(e, st) == Wrap(Eval(a, st) + Eval(b, st) + Eval(carry, st), size)
    ensures forall st: State, o: Oracle :: CarryOf(e, st,
            o) == (Eval(a, st) + Eval(b, st) + Eval(carry, st) >= Modulus(size))
  {
    hide Wrap, Modulus, Signed, Compare, ReadReg, LoadBytes;
    EAdc(size, a, b, carry)
  }

  function Sbb(size: nat, a: Expr, b: Expr, borrow: Expr): (e: Expr)
    ensures SizeOf(e) == size
    ensures forall st: State :: Eval(e, st) == Wrap(Eval(a, st) - Eval(b, st) - Eval(borrow, st), size)
    ensures forall st: State, o: Oracle :: CarryOf(e, st, o) == (Eval(a, st) < Eval(b, st) + Eval(borrow, st))
  {
    hide Wrap, Modulus, Signed, Compare, ReadReg, LoadBytes;
    ESbb(size, a, b, borrow)
  }

  function Neg(size: nat, a: Expr): (e: Expr)
    ensures SizeOf(e) == size
    ensures forall st: State :: Eval(e, st) == Wrap(0 - Eval(a, st), size)
  {
    hide Wrap, Modulus, Signed, Compare, ReadReg, LoadBytes;
    ENeg(size, a)
  }

  function Not(size: nat, a: Expr): (e: Expr)
    ensures SizeOf(e) == size
    ensures forall st: State :: Eval(e, st) == Wrap(Modulus(size) - 1 - Eval(a, st), size)
  {
    hide Wrap, Modulus, Signed, Compare, ReadReg, LoadBytes;
    ENot(size, a)
  }

  function Zx(size: nat, a: Expr): (e: Expr)
    ensures SizeOf(e) == size
    ensures forall st: State :: Eval(e, st) == Wrap(Eval(a, st), size)
  {
    hide Wrap, Modulus, Signed, Compare, ReadReg, LoadBytes;
    EZx(size, a)
  }

  function Sx(size: nat, a: Expr): (e: Expr)
    ensures SizeOf(e) == size
    ensures forall st: State :: Eval(e, st) == Wrap(Signed(Eval(a, st), SizeOf(a)), size)
  {
    hide Wrap, Modulus, Signed, Compare, ReadReg, LoadBytes;
    ESx(size, a)
  }

  function Low(size: nat, a: Expr): (e: Expr)
    ensures SizeOf(e) == size
    ensures forall st: State :: Eval(e, st) == Wrap(Eval(a, st), size)
  {
    hide Wrap, Modulus, Signed, Compare, ReadReg, LoadBytes;
    ELow(size, a)
  }

  function Cmp(cmp: CmpOp, size: nat, a: Expr, b: Expr): (e: Expr)
    ensures SizeOf(e) == 0
    ensures forall st: State :: Eval(e, st) == Bool(Compare(cmp, size, Eval(a, st), Eval(b, st)))
  {
    hide Wrap, Modulus, Signed, Compare, ReadReg, LoadBytes;
    ECmp(cmp, size, a, b)
  }

  function WithFlags(a: Expr, written: FlagWrite): (e: Expr)
    ensures SizeOf(e) == SizeOf(a)
    ensures forall st: State :: Eval(e, st) == Eval(a, st)
  {
    hide Wrap, Modulus, Signed, Compare, ReadReg, LoadBytes;
    EFlagged(a, written)
  }
}
