/** The loc16/loc32 operand field and the addressing modes it stands for. */
module Operands {
  import opened Wrappers
  import opened Registers

  datatype AddressingMode =
    | DpDirect | SpRelative
    | Indirect | IndirectPostInc | IndirectPreDec | IndirectAr0 | IndirectAr1
    | RegisterDirect

  datatype ResolvedOperand = Resolved(
    mode: AddressingMode,
    register: Option<Register>,
    xarIndex: Option<Index>,
    offset: nat)

  function RegDirect(r: Register): ResolvedOperand {
    Resolved(RegisterDirect, Some(r), None, 0)
  }

  function DecodeLoc16(field: nat): ResolvedOperand
    requires field < 0x100
  {
    if 0xA0 <= field <= 0xA7 then RegDirect(AR(field - 0xA0))
    else if field == 0xA8 then RegDirect(AH)
    else if field == 0xA9 then RegDirect(AL)
    else if field == 0xAA then RegDirect(PH)
    else if field == 0xAB then RegDirect(PL)
    else if field == 0xAC then RegDirect(T)
    else if field == 0xAD then RegDirect(SP)
    else DecodeLocCommon(field)
  }

  function DecodeLoc32(field: nat): ResolvedOperand
    requires field < 0x100
  {
    if 0xA0 <= field <= 0xA7 then RegDirect(XAR(field - 0xA0))
    else if field == 0xA8 || field == 0xA9 then RegDirect(ACC)
    else if field == 0xAA || field == 0xAB then RegDirect(P)
    else if field == 0xAC then RegDirect(XT)
    else DecodeLocCommon(field)
  }

  function DecodeLocCommon(field: nat): ResolvedOperand
    requires field < 0x100
  {
    var category := field / 0x40;
    var n: Index := field % 8;
    if category == 0 then Resolved(DpDirect, None, None, field % 0x40)
    else if category == 1 then Resolved(SpRelative, None, None, field % 0x40)
    else if category == 2 then
      var subMode := field / 8;
      if subMode == 0x10 then Resolved(IndirectPostInc, None, Some(n), 0)
      else if subMode == 0x11 then Resolved(IndirectPreDec, None, Some(n), 0)
      else if subMode == 0x12 then Resolved(IndirectAr0, None, Some(n), 0)
      else if subMode == 0x13 then Resolved(IndirectAr1, None, Some(n), 0)
      else if subMode == 0x15 && n == 6 then Resolved(Indirect, None, None, 0)
      else if subMode == 0x15 && n == 7 then Resolved(Indirect, None, None, 0)
      else if subMode == 0x16 then Resolved(Indirect, None, Some(n), 0)
      else if subMode == 0x17 then Resolved(Indirect, None, None, 0)
      else Resolved(Indirect, None, Some(n), 0)
    else Resolved(Indirect, None, Some(n), field / 8 % 8)
  }

  /** Operands read and written without moving a pointer: a register of the operand's own
      width other than SP, a DP or SP page, or an auxiliary register plus a displacement. */
  predicate Plain(r: ResolvedOperand, size: nat) {
    r.offset < 0x1_0000 &&
    match r.mode
    case DpDirect => true
    case SpRelative => true
    case Indirect => r.xarIndex.Some?
    case IndirectAr0 => r.xarIndex.Some?
    case IndirectAr1 => r.xarIndex.Some?
    case RegisterDirect => r.register.Some? && r.register.value != SP && r.register.value.Size() == size
    case IndirectPostInc => false
    case IndirectPreDec => false
  }

  /** Which of the 256 fields are plain. The rest step a pointer (0x80-0x8F), name SP or the
      SP of a later sub-mode (0xAD), or resolve to no pointer at all. */
  lemma PlainFields(field: nat)
    requires field < 0x100
    ensures Plain(DecodeLoc16(field), 2) <==>
            field < 0x80 || 0x90 <= field <= 0xAC || 0xB0 <= field <= 0xB7 || 0xC0 <= field
    ensures Plain(DecodeLoc32(field), 4) <==>
            field < 0x80 || 0x90 <= field <= 0xAD || 0xB0 <= field <= 0xB7 || 0xC0 <= field
  {}
}
