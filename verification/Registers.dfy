/** The register file of the Binary Ninja plugin: the parent/size/offset table and the
    reads and writes of sub-registers that it induces. */
module Registers {

  /** Index of an auxiliary register, XAR0-XAR7. */
  type Index = n: nat | n < 8

  /** Architectural registers. The numbered families are one constructor each. */
  datatype Register =
    | ACC | AH | AL
    | XAR(n: Index) | AR(n: Index)
    | P | PH | PL
    | XT | T | TL
    | SP | DP | PC | RPC | ST0 | ST1 | IER | IFR | DBGIER
    | FPU(n: Index) | STF | RB
  {
    /** The full-width register this one is a part of; itself when it is not a part. */
    function Parent(): Register {
      match this
      case AH => ACC
      case AL => ACC
      case AR(n) => XAR(n)
      case PH => P
      case PL => P
      case T => XT
      case TL => XT
      case _ => this
    }

    /** Width in bytes. */
    function Size(): (s: nat)
      ensures s == 2 || s == 4
    {
      match this
      case ACC => 4
      case P => 4
      case XT => 4
      case PC => 4
      case RPC => 4
      case XAR(_) => 4
      case FPU(_) => 4
      case STF => 4
      case SP => 4
      case _ => 2
    }

    /** Byte offset inside the parent. */
    function Offset(): nat {
      match this
      case AH => 2
      case PH => 2
      case T => 2
      case _ => 0
    }

    predicate IsFull() { Parent() == this }
  }

  /** One more than the largest value of `size` bytes; size 0 is the IL's boolean width. */
  function Modulus(size: nat): (m: nat)
    ensures m > 0
    ensures size == 0 ==> m == 2
    ensures size == 1 ==> m == 0x100
    ensures size == 2 ==> m == 0x1_0000
    ensures size == 4 ==> m == 0x1_0000_0000
    ensures size == 8 ==> m == 0x1_0000_0000_0000_0000
  {
    if size == 0 then 2
    else if size == 1 then 0x100
    else if size == 2 then 0x1_0000
    else if size == 4 then 0x1_0000_0000
    else 0x1_0000_0000_0000_0000
  }

  /** `v` reduced to `size` bytes. */
  function Wrap(v: int, size: nat): (r: nat)
    ensures r < Modulus(size)
    ensures 0 <= v < Modulus(size) ==> r == v
  {
    if size == 0 then v % 2
    else if size == 1 then v % 0x100
    else if size == 2 then v % 0x1_0000
    else if size == 4 then v % 0x1_0000_0000
    else v % 0x1_0000_0000_0000_0000
  }

  /** Register contents. A register that was never written reads as zero. */
  type RegFile = map<Register, nat>

  function Full(regs: RegFile, r: Register): (v: nat)
    ensures v < Modulus(r.Size())
  {
    Wrap(if r in regs then regs[r] else 0, r.Size())
  }

  function ReadReg(regs: RegFile, r: Register): (v: nat)
    ensures v < Modulus(r.Size())
  {
    var whole := Full(regs, r.Parent());
    if r.IsFull() then whole
    else if r.Offset() == 2 then whole / 0x1_0000
    else whole % 0x1_0000
  }

  function WriteReg(regs: RegFile, r: Register, v: nat): RegFile {
    var whole := Full(regs, r.Parent());
    var narrow := Wrap(v, r.Size());
    if r.IsFull() then regs[r := narrow]
    else if r.Offset() == 2 then regs[r.Parent() := whole % 0x1_0000 + narrow * 0x1_0000]
    else regs[r.Parent() := whole / 0x1_0000 * 0x1_0000 + narrow]
  }
}
