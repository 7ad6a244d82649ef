/** The generators and the interpreter as they work: appending to a code buffer, updating registers in place. */
module Sse4aGenerator {
  import opened Basics
  import opened Quadword
  import opened X86
  import opened Sse4aPatches

  class CodeGenerator {
    var code: Code

    constructor ()
      ensures code == []
    {
      code := [];
    }

    method Emit(i: Instr)
      modifies this
      ensures code == old(code) + [i]
    {
      code := code + [i];
    }
  }

  /** What `Protect` emits before and after the body. */
  function Entry(regs: seq<Reg>): Code {
    [LeaRsp(-RED_ZONE)] + ([Pushfq] + Pushes(regs))
  }

  function Pushes(regs: seq<Reg>): Code {
    if regs == [] then [] else [Push(regs[0])] + Pushes(regs[1..])
  }

  function Exit(regs: seq<Reg>): Code {
    Pops(regs) + ([Popfq] + [LeaRsp(RED_ZONE)])
  }

  function Pops(regs: seq<Reg>): Code {
    if regs == [] then [] else Pops(regs[1..]) + [Pop(regs[0])]
  }

  lemma {:induction false} GuardedFlat(regs: seq<Reg>, body: Code)
    ensures Guarded(regs, body) == Pushes(regs) + body + Pops(regs)
  {
    if regs != [] {
      GuardedFlat(regs[1..], body);
      Regroup([Push(regs[0])], Pushes(regs[1..]), body, Pops(regs[1..]), [Pop(regs[0])]);
    }
  }

  lemma Regroup(a: Code, b: Code, c: Code, d: Code, e: Code)
    ensures a + (b + c + d) + e == (a + b) + c + (d + e)
  {
  }

  lemma ProtectFlat(regs: seq<Reg>, body: Code, start: Code)
    ensures start + Protect(regs, body) == start + Entry(regs) + body + Exit(regs)
  {
    GuardedFlat(regs, body);
    var push, pop := Pushes(regs), Pops(regs);
    Regroup([Pushfq], push, body, pop, [Popfq]);
    Regroup([LeaRsp(-RED_ZONE)], [Pushfq] + push, body, pop + [Popfq], [LeaRsp(RED_ZONE)]);
    Associate(pop, [Popfq], [LeaRsp(RED_ZONE)]);
    Associate(start, Entry(regs) + body, Exit(regs));
    Associate(start, Entry(regs), body);
  }

  lemma Associate(a: Code, b: Code, c: Code)
    ensures a + (b + c) == a + b + c
  {
  }

  /** Skip the red zone and save the flags and the scratch registers. */
  method Enter(regs: seq<Reg>, c: CodeGenerator)
    modifies c
    ensures c.code == old(c.code) + Entry(regs)
  {
    c.Emit(LeaRsp(-RED_ZONE));
    c.Emit(Pushfq);
    Save(regs, c);
  }

  method Save(regs: seq<Reg>, c: CodeGenerator)
    modifies c
    ensures c.code == old(c.code) + Pushes(regs)
  {
    if regs != [] {
      c.Emit(Push(regs[0]));
      Save(regs[1..], c);
    }
  }

  method Leave(regs: seq<Reg>, c: CodeGenerator)
    modifies c
    ensures c.code == old(c.code) + Exit(regs)
  {
    hide Pops;
    Restore(regs, c);
    c.Emit(Popfq);
    c.Emit(LeaRsp(RED_ZONE));
  }

  method Restore(regs: seq<Reg>, c: CodeGenerator)
    modifies c
    ensures c.code == old(c.code) + Pops(regs)
  {
    if regs != [] {
      Restore(regs[1..], c);
      c.Emit(Pop(regs[0]));
    }
  }

  /** The mask constant of the immediate forms. */
  method ImmediateMask(len: bv64, idx: bv64) returns (mask: bv64)
    ensures mask == WideMask(len, idx)
  {
    hide Count, DecW, ShlBy;
    var length := Count(len);
    if length == 0 {
      length := 64;
      mask := ONES;
    } else {
      mask := DecW(ShlBy(1, length));
    }
    if length + Count(idx) > 64 {
      mask := ONES;
    }
  }

  method EmitExtrqImmediateBody(dst: nat, len: bv64, idx: bv64, c: CodeGenerator)
    modifies c
    ensures c.code == old(c.code) + ExtrqImmediateBody(dst, len, idx)
  {
    hide Count, WideMask;
    var mask := ImmediateMask(len, idx);
    c.Emit(MovFromXmm(Rax, dst));
    if Count(idx) != 0 {
      c.Emit(ShrImm(Rax, idx));
    }
    c.Emit(MovImm(Rcx, mask));
    c.Emit(And(Rax, Rcx));
    c.Emit(MovToXmm(dst, Rax));
  }

  method EmitExtrqShift(dst: nat, c: CodeGenerator)
    modifies c
    ensures c.code == old(c.code) + ExtrqShift(dst)
  {
    hide Count;
    c.Emit(ShrImm(Rax, 8));
    c.Emit(AndImm(Rax, 0x3F));
    c.Emit(Mov(Rcx, Rax));
    c.Emit(MovFromXmm(Rax, dst));
    c.Emit(ShrCl(Rax));
    c.Emit(And(Rax, Rdx));
    c.Emit(MovToXmm(dst, Rax));
  }

  method EmitMask(m: Reg, c: CodeGenerator)
    modifies c
    ensures c.code == old(c.code) + MaskCode(m)
  {
    hide Count;
    c.Emit(MovImm(m, 1));
    c.Emit(ShlCl(m));
    c.Emit(Dec(m));
  }

  /** A conditional, instruction by instruction. */
  lemma FlatBranch(start: Code, nonzero: Code, zero: Instr)
    ensures start + Branch(nonzero, [zero], LENGTH_ZERO, END)
         == start + [Jz(LENGTH_ZERO)] + nonzero + [Jmp(END)] + [Mark(LENGTH_ZERO)] + [zero] + [Mark(END)]
  {
  }

  lemma FlatBody(start: Code, i: Instr, j: Instr, k: Instr, branch: Code, rest: Code)
    ensures start + ([i] + ([j] + ([k] + (branch + rest)))) == start + [i] + [j] + [k] + branch + rest
  {
  }

  method EmitExtrqRegisterBody(dst: nat, src: nat, c: CodeGenerator)
    modifies c
    ensures c.code == old(c.code) + ExtrqRegisterBody(dst, src)
  {
    hide Branch, MaskCode, ExtrqShift;
    ghost var start := c.code;
    c.Emit(MovFromXmm(Rax, src));
    c.Emit(Mov(Rcx, Rax));
    c.Emit(AndImm(Rcx, 0x3F));
    ghost var tested := c.code;
    c.Emit(Jz(LENGTH_ZERO));
    EmitMask(Rdx, c);
    c.Emit(Jmp(END));
    c.Emit(Mark(LENGTH_ZERO));
    c.Emit(MovImm(Rdx, ONES));
    c.Emit(Mark(END));
    FlatBranch(tested, MaskCode(Rdx), MovImm(Rdx, ONES));
    ghost var branch := Branch(MaskCode(Rdx), [MovImm(Rdx, ONES)], LENGTH_ZERO, END);
    EmitExtrqShift(dst, c);
    FlatBody(start, MovFromXmm(Rax, src), Mov(Rcx, Rax), AndImm(Rcx, 0x3F), branch, ExtrqShift(dst));
  }

  method EmitInsertqImmediateBody(dst: nat, src: nat, len: bv64, idx: bv64, c: CodeGenerator)
    modifies c
    ensures c.code == old(c.code) + InsertqImmediateBody(dst, src, len, idx)
  {
    hide Count, WideMask, ShlBy, NotW;
    var mask := ImmediateMask(len, idx);
    c.Emit(MovFromXmm(Rax, src));
    c.Emit(MovFromXmm(Rcx, dst));
    c.Emit(MovImm(Rdx, mask));
    c.Emit(And(Rax, Rdx));
    c.Emit(ShlImm(Rax, idx));
    mask := NotW(ShlBy(mask, Count(idx)));
    c.Emit(MovImm(Rdx, mask));
    c.Emit(And(Rcx, Rdx));
    c.Emit(Or(Rcx, Rax));
    c.Emit(MovToXmm(dst, Rcx));
  }

  method EmitInsertqShift(dst: nat, c: CodeGenerator)
    modifies c
    ensures c.code == old(c.code) + InsertqShift(dst)
  {
    hide Count;
    c.Emit(MovCl(Rdx));
    c.Emit(ShlCl(Rbx));
    c.Emit(Not(Rbx));
    c.Emit(ShlCl(Rax));
    c.Emit(MovFromXmm(Rcx, dst));
    c.Emit(And(Rcx, Rbx));
    c.Emit(Or(Rcx, Rax));
    c.Emit(MovToXmm(dst, Rcx));
  }

  method EmitInsertqIndex(dst: nat, src: nat, c: CodeGenerator)
    modifies c
    ensures c.code == old(c.code) + InsertqIndex(dst, src)
  {
    hide InsertqShift;
    c.Emit(ShrImm(Rdx, 8));
    c.Emit(AndImm(Rdx, 0x3F));
    c.Emit(MovFromXmm(Rax, src));
    c.Emit(And(Rax, Rbx));
    EmitInsertqShift(dst, c);
  }

  method EmitInsertqRegisterBody(dst: nat, src: nat, c: CodeGenerator)
    modifies c
    ensures c.code == old(c.code) + InsertqRegisterBody(dst, src)
  {
    hide Branch, MaskCode, InsertqIndex;
    ghost var start := c.code;
    c.Emit(MovHighFromXmm(Rdx, src));
    c.Emit(Mov(Rbx, Rdx));
    c.Emit(AndImm(Rbx, 0x3F));
    ghost var tested := c.code;
    c.Emit(Jz(LENGTH_ZERO));
    c.Emit(MovCl(Rbx));
    EmitMask(Rbx, c);
    Associate(tested + [Jz(LENGTH_ZERO)], [MovCl(Rbx)], MaskCode(Rbx));
    c.Emit(Jmp(END));
    c.Emit(Mark(LENGTH_ZERO));
    c.Emit(MovImm(Rbx, ONES));
    c.Emit(Mark(END));
    FlatBranch(tested, [MovCl(Rbx)] + MaskCode(Rbx), MovImm(Rbx, ONES));
    ghost var branch := Branch([MovCl(Rbx)] + MaskCode(Rbx), [MovImm(Rbx, ONES)], LENGTH_ZERO, END);
    EmitInsertqIndex(dst, src, c);
    FlatBody(start, MovHighFromXmm(Rdx, src), Mov(Rbx, Rdx), AndImm(Rbx, 0x3F), branch, InsertqIndex(dst, src));
  }

  method EmitExtrqImmediate(dst: nat, len: bv64, idx: bv64, c: CodeGenerator)
    modifies c
    ensures c.code == old(c.code) + Protect([Rax, Rcx], ExtrqImmediateBody(dst, len, idx))
  {
    hide Protect, ExtrqImmediateBody, Entry, Exit;
    ProtectFlat([Rax, Rcx], ExtrqImmediateBody(dst, len, idx), c.code);
    Enter([Rax, Rcx], c);
    EmitExtrqImmediateBody(dst, len, idx, c);
    Leave([Rax, Rcx], c);
  }

  method EmitExtrqRegister(dst: nat, src: nat, c: CodeGenerator)
    modifies c
    ensures c.code == old(c.code) + Protect([Rax, Rcx, Rdx], ExtrqRegisterBody(dst, src))
  {
    hide Protect, ExtrqRegisterBody, Entry, Exit;
    ProtectFlat([Rax, Rcx, Rdx], ExtrqRegisterBody(dst, src), c.code);
    Enter([Rax, Rcx, Rdx], c);
    EmitExtrqRegisterBody(dst, src, c);
    Leave([Rax, Rcx, Rdx], c);
  }

  method EmitInsertqImmediate(dst: nat, src: nat, len: bv64, idx: bv64, c: CodeGenerator)
    modifies c
    ensures c.code == old(c.code) + Protect([Rax, Rcx, Rdx], InsertqImmediateBody(dst, src, len, idx))
  {
    hide Protect, InsertqImmediateBody, Entry, Exit;
    ProtectFlat([Rax, Rcx, Rdx], InsertqImmediateBody(dst, src, len, idx), c.code);
    Enter([Rax, Rcx, Rdx], c);
    EmitInsertqImmediateBody(dst, src, len, idx, c);
    Leave([Rax, Rcx, Rdx], c);
  }

  method EmitInsertqRegister(dst: nat, src: nat, c: CodeGenerator)
    modifies c
    ensures c.code == old(c.code) + Protect([Rax, Rcx, Rdx, Rbx], InsertqRegisterBody(dst, src))
  {
    hide Protect, InsertqRegisterBody, Entry, Exit;
    ProtectFlat([Rax, Rcx, Rdx, Rbx], InsertqRegisterBody(dst, src), c.code);
    Enter([Rax, Rcx, Rdx, Rbx], c);
    EmitInsertqRegisterBody(dst, src, c);
    Leave([Rax, Rcx, Rdx, Rbx], c);
  }

  /** `ok` is false, and nothing is emitted, where the generator's assertions fail. */
  method GenerateEXTRQ(ops: seq<Operand>, c: CodeGenerator) returns (ok: bool)
    requires |ops| >= 3
    modifies c
    ensures ok <==> ExtrqCode(ops).Some?
    ensures c.code == old(c.code) + if ok then ExtrqCode(ops).value else []
  {
    hide ExtrqImmediateBody, ExtrqRegisterBody, Protect, LengthField;
    ok := false;
    if !ops[0].XmmOperand? { return; }
    var immediateForm := ops[1].Immediate? && ops[2].Immediate?;
    if immediateForm {
      EmitExtrqImmediate(ops[0].x, LengthField(ops[1].v), LengthField(ops[2].v), c);
    } else {
      if !(ops[1].XmmOperand? && ops[0].x < 16 && ops[1].x < 16) { return; }
      EmitExtrqRegister(ops[0].x, ops[1].x, c);
    }
    ok := true;
  }

  method GenerateINSERTQ(ops: seq<Operand>, c: CodeGenerator) returns (ok: bool)
    requires |ops| >= 4
    modifies c
    ensures ok <==> InsertqCode(ops).Some?
    ensures c.code == old(c.code) + if ok then InsertqCode(ops).value else []
  {
    hide InsertqImmediateBody, InsertqRegisterBody, Protect, LengthField;
    ok := false;
    if !ops[0].XmmOperand? || !ops[1].XmmOperand? { return; }
    var immediateForm := ops[2].Immediate? && ops[3].Immediate?;
    if immediateForm {
      EmitInsertqImmediate(ops[0].x, ops[1].x, LengthField(ops[2].v), LengthField(ops[3].v), c);
    } else {
      if !(ops[2].Unused? && ops[3].Unused?) { return; }
      EmitInsertqRegister(ops[0].x, ops[1].x, c);
    }
    ok := true;
  }

  /** The interpreter on the saved vector registers; `handled` is false where it rejects the bytes. */
  method TryExecuteIllegalInstruction(bytes: seq<bv8>, xmm: array<Xmm>) returns (handled: bool)
    requires |bytes| == 4 && xmm.Length == 16
    modifies xmm
    ensures handled <==> TryExecute(bytes, old(xmm[..])).Some?
    ensures xmm[..] == if handled then TryExecute(bytes, old(xmm[..])).value else old(xmm[..])
  {
    hide Count, AndW, ShrBy, ShlBy, DecW, NotW, OrW;
    handled := (bytes[0] == 0x66 || bytes[0] == 0xF2) && bytes[1] == 0x0F && bytes[2] == 0x79 && bytes[3] >> 6 == 3;
    if !handled { return; }
    var dst, src := RegisterNumber(bytes[3] >> 3), RegisterNumber(bytes[3]);
    var extract := bytes[0] == 0x66;
    var lowSrc, lowDst := xmm[src].lo, xmm[dst].lo;
    var control := if extract then lowSrc else xmm[src].hi;
    var length, mask := AndW(control, 0x3F), ONES;
    if Count(length) != 0 {
      mask := DecW(ShlBy(1, Count(length)));
    }
    var index := AndW(ShrBy(control, 8), 0x3F);
    if extract {
      lowDst := ShrBy(lowDst, Count(index));
      lowDst := AndW(lowDst, mask);
    } else {
      lowSrc := AndW(lowSrc, mask);
      lowDst := AndW(lowDst, NotW(ShlBy(mask, Count(index))));
      lowDst := OrW(lowDst, ShlBy(lowSrc, Count(index)));
    }
    xmm[dst] := Xmm(lowDst, 0);
  }
}
