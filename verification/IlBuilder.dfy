/** The mutable IL function the lifter appends to. */
module IlBuilder {
  import opened Wrappers
  import opened IlCode

  class ILFunction {
    var code: Code

    constructor ()
      ensures code == Code([], [])
    {
      code := Code([], []);
    }

    method Append(insn: Insn)
      modifies this
      ensures code == Code(old(code).insns + [insn], old(code).marks)
      ensures insn.IsPlain() ==> Emits(old(code), code, Do(insn, End))
      ensures insn.Unimplemented? ==> Emits(old(code), code, Refuse(End))
    {
      if insn.IsPlain() { EmitsDo(code, insn); }
      if insn.Unimplemented? { EmitsRefuse(code); }
      code := code.(insns := code.insns + [insn]);
    }

    method NewLabel() returns (l: Label)
      modifies this
      ensures l == |old(code).marks|
      ensures code == Code(old(code).insns, old(code).marks + [None])
    {
      l := |code.marks|;
      code := code.(marks := code.marks + [None]);
    }

    method MarkLabel(l: Label)
      requires l < |code.marks| && code.marks[l].None?
      modifies this
      ensures code == Code(old(code).insns, old(code).marks[l := Some(|old(code).insns|)])
    {
      code := code.(marks := code.marks[l := Some(|code.insns|)]);
    }
  }

  /** Two plain instructions in a row. */
  method EmitTwo(il: ILFunction, a: Insn, b: Insn)
    requires a.IsPlain() && b.IsPlain()
    modifies il
    ensures Emits(old(il.code), il.code, Two(a, b))
    ensures il.code.marks == old(il.code).marks
  {
    hide Emits;
    ghost var c0 := il.code;
    il.Append(a);
    ghost var c1 := il.code;
    il.Append(b);
    EmitsAppend(c0, c1, il.code, Do(a, End), Do(b, End));
  }
}
