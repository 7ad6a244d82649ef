/**
 The SSE4a instructions EXTRQ and INSERTQ on processors without them: the code that `GenerateEXTRQ` and
 `GenerateINSERTQ` emit, and the interpreter `TryExecuteIllegalInstruction`, against the definition of the
 two instructions in Volume 4 of the AMD64 Architecture Programmer's Manual.
 */
module Sse4aPatches {
  import opened Basics
  import opened Quadword
  import opened X86
  import BigEndian

  // ----- the instructions, bit by bit

  /** A length field of 0 stands for 64. */
  function FieldLength(len: bv64): nat {
    if Count(len) == 0 then 64 else Count(len)
  }

  /** EXTRQ: the field of `len` bits at `idx`, zero-extended. */
  ghost predicate IsExtracted(src: bv64, len: bv64, idx: bv64, r: bv64) {
    forall i :: 0 <= i < 64 ==>
      (Bit(r, i) <==> i < FieldLength(len) && i + Count(idx) < 64 && Bit(src, i + Count(idx)))
  }

  /** INSERTQ: the low `len` bits of `src` replace the field of `dst` at `idx`. */
  ghost predicate IsInserted(dst: bv64, src: bv64, len: bv64, idx: bv64, r: bv64) {
    forall i :: 0 <= i < 64 ==>
      (Bit(r, i) <==>
         if Count(idx) <= i < Count(idx) + FieldLength(len) then Bit(src, i - Count(idx)) else Bit(dst, i))
  }

  // ----- the interpreter

  function Mask(len: bv64): bv64 {
    if Count(len) == 0 then ONES else DecW(ShlBy(1, Count(len)))
  }

  function Extract(x: bv64, mask: bv64, idx: bv64): bv64 {
    AndW(ShrBy(x, Count(idx)), mask)
  }

  function Insert(dst: bv64, src: bv64, mask: bv64, idx: bv64): bv64 {
    OrW(AndW(dst, NotW(ShlBy(mask, Count(idx)))), ShlBy(AndW(src, mask), Count(idx)))
  }

  function LengthField(w: bv64): bv64 {
    AndW(w, 0x3F)
  }

  function IndexField(w: bv64): bv64 {
    AndW(ShrBy(w, 8), 0x3F)
  }

  /** EXTRQ and INSERTQ as `TryExecuteIllegalInstruction` computes them from register operands. */
  function ExtrqRegister(dst: Xmm, src: Xmm): Xmm {
    Xmm(Extract(dst.lo, Mask(LengthField(src.lo)), IndexField(src.lo)), 0)
  }

  function InsertqRegister(dst: Xmm, src: Xmm): Xmm {
    Xmm(Insert(dst.lo, src.lo, Mask(LengthField(src.hi)), IndexField(src.hi)), 0)
  }

  lemma MaskBit(len: bv64, i: nat)
    requires i < 64
    ensures Bit(Mask(len), i) <==> i < FieldLength(len)
  {
    if Count(len) == 0 { OnesBit(i); } else { PredPowerBit(Count(len), i); }
  }

  // ----- the formulas meet the definitions

  /** A mask that is right wherever a shifted-in bit can be. */
  ghost predicate MaskFits(mask: bv64, len: bv64, idx: bv64) {
    forall i :: 0 <= i && i + Count(idx) < 64 ==> (Bit(mask, i) <==> i < FieldLength(len))
  }

  lemma ExtractMeets(x: bv64, mask: bv64, len: bv64, idx: bv64)
    requires MaskFits(mask, len, idx)
    ensures IsExtracted(x, len, idx, Extract(x, mask, idx))
  {
    hide Bit, Count, AndW;
    forall i | 0 <= i < 64
      ensures Bit(Extract(x, mask, idx), i) <==> i < FieldLength(len) && i + Count(idx) < 64 && Bit(x, i + Count(idx))
    {
      AndBit(ShrBy(x, Count(idx)), mask, i);
      ShrBit(x, Count(idx), i);
      if i + Count(idx) >= 64 { HighBit(x, i + Count(idx)); }
    }
  }

  lemma InsertMeets(dst: bv64, src: bv64, mask: bv64, len: bv64, idx: bv64)
    requires MaskFits(mask, len, idx)
    ensures IsInserted(dst, src, len, idx, Insert(dst, src, mask, idx))
  {
    hide Bit, Count, AndW, OrW, NotW, ShlBy, FieldLength;
    var k := Count(idx);
    var hole, field := ShlBy(mask, k), ShlBy(AndW(src, mask), k);
    forall i | 0 <= i < 64
      ensures Bit(Insert(dst, src, mask, idx), i) <==> if k <= i < k + FieldLength(len) then Bit(src, i - k) else Bit(dst, i)
    {
      OrBit(AndW(dst, NotW(hole)), field, i);
      AndBit(dst, NotW(hole), i);
      NotBit(hole, i);
      ShlBit(mask, k, i);
      ShlBit(AndW(src, mask), k, i);
      if i >= k { AndBit(src, mask, i - k); }
    }
  }

  /** The mask of the immediate forms: all ones once the field reaches past bit 63. */
  function WideMask(len: bv64, idx: bv64): bv64 {
    if FieldLength(len) + Count(idx) > 64 then ONES else Mask(len)
  }

  lemma MasksFit(len: bv64, idx: bv64)
    ensures MaskFits(Mask(len), len, idx) && MaskFits(WideMask(len, idx), len, idx)
  {
    hide Bit, Count;
    forall i | 0 <= i && i + Count(idx) < 64
      ensures Bit(Mask(len), i) <==> i < FieldLength(len)
      ensures Bit(WideMask(len, idx), i) <==> i < FieldLength(len)
    {
      MaskBit(len, i);
      OnesBit(i);
    }
  }

  /** The definitions determine the result. */
  lemma ExtractedUnique(src: bv64, len: bv64, idx: bv64, r: bv64, r': bv64)
    requires IsExtracted(src, len, idx, r) && IsExtracted(src, len, idx, r')
    ensures r == r'
  {
    BitsDetermine(r, r');
  }

  lemma InsertedUnique(dst: bv64, src: bv64, len: bv64, idx: bv64, r: bv64, r': bv64)
    requires IsInserted(dst, src, len, idx, r) && IsInserted(dst, src, len, idx, r')
    ensures r == r'
  {
    BitsDetermine(r, r');
  }

  // ----- the generators

  datatype Operand = XmmOperand(x: nat) | Immediate(v: bv64) | OtherRegister | Unused

  const LENGTH_ZERO: Label := 0
  const END: Label := 1

  /** The code for EXTRQ; `None` where an assertion of the generator fails. */
  function ExtrqCode(ops: seq<Operand>): Option<Code>
    requires |ops| >= 3
  {
    if !ops[0].XmmOperand? then None
    else if ops[1].Immediate? && ops[2].Immediate? then
      Some(Protect([Rax, Rcx], ExtrqImmediateBody(ops[0].x, LengthField(ops[1].v), LengthField(ops[2].v))))
    else if ops[1].XmmOperand? && ops[0].x < 16 && ops[1].x < 16 then
      Some(Protect([Rax, Rcx, Rdx], ExtrqRegisterBody(ops[0].x, ops[1].x)))
    else None
  }

  function ExtrqImmediateBody(dst: nat, len: bv64, idx: bv64): Code {
    var masked: Code := [MovImm(Rcx, WideMask(len, idx))] + ([And(Rax, Rcx)] + [MovToXmm(dst, Rax)]);
    [MovFromXmm(Rax, dst)] + if Count(idx) != 0 then [ShrImm(Rax, idx)] + masked else masked
  }

  /** From a length in `cl` (not zero) to its mask in `m`. */
  function MaskCode(m: Reg): Code {
    [MovImm(m, 1)] + ([ShlCl(m)] + [Dec(m)])
  }

  function ExtrqRegisterBody(dst: nat, src: nat): Code {
    [MovFromXmm(Rax, src)] + ([Mov(Rcx, Rax)] + ([AndImm(Rcx, 0x3F)]
    + (Branch(MaskCode(Rdx), [MovImm(Rdx, ONES)], LENGTH_ZERO, END) + ExtrqShift(dst))))
  }

  function ExtrqShift(dst: nat): Code {
    [ShrImm(Rax, 8)] + ([AndImm(Rax, 0x3F)] + ([Mov(Rcx, Rax)]
    + ([MovFromXmm(Rax, dst)] + ([ShrCl(Rax)] + ([And(Rax, Rdx)] + [MovToXmm(dst, Rax)])))))
  }

  /** The code for INSERTQ; `None` where an assertion of the generator fails. */
  function InsertqCode(ops: seq<Operand>): Option<Code>
    requires |ops| >= 4
  {
    if !ops[0].XmmOperand? || !ops[1].XmmOperand? then None
    else if ops[2].Immediate? && ops[3].Immediate? then
      Some(Protect([Rax, Rcx, Rdx],
                   InsertqImmediateBody(ops[0].x, ops[1].x, LengthField(ops[2].v), LengthField(ops[3].v))))
    else if ops[2].Unused? && ops[3].Unused? then
      Some(Protect([Rax, Rcx, Rdx, Rbx], InsertqRegisterBody(ops[0].x, ops[1].x)))
    else None
  }

  function InsertqImmediateBody(dst: nat, src: nat, len: bv64, idx: bv64): Code {
    var mask := WideMask(len, idx);
    [MovFromXmm(Rax, src)] + ([MovFromXmm(Rcx, dst)] + ([MovImm(Rdx, mask)] + ([And(Rax, Rdx)] + ([ShlImm(Rax, idx)]
    + ([MovImm(Rdx, NotW(ShlBy(mask, Count(idx))))] + ([And(Rcx, Rdx)] + ([Or(Rcx, Rax)] + [MovToXmm(dst, Rcx)])))))))
  }

  function InsertqRegisterBody(dst: nat, src: nat): Code {
    [MovHighFromXmm(Rdx, src)] + ([Mov(Rbx, Rdx)] + ([AndImm(Rbx, 0x3F)]
    + (Branch([MovCl(Rbx)] + MaskCode(Rbx), [MovImm(Rbx, ONES)], LENGTH_ZERO, END) + InsertqIndex(dst, src))))
  }

  function InsertqIndex(dst: nat, src: nat): Code {
    [ShrImm(Rdx, 8)] + ([AndImm(Rdx, 0x3F)] + ([MovFromXmm(Rax, src)] + ([And(Rax, Rbx)] + InsertqShift(dst))))
  }

  function InsertqShift(dst: nat): Code {
    [MovCl(Rdx)] + ([ShlCl(Rbx)] + ([Not(Rbx)] + ([ShlCl(Rax)]
    + ([MovFromXmm(Rcx, dst)] + ([And(Rcx, Rbx)] + ([Or(Rcx, Rax)] + [MovToXmm(dst, Rcx)]))))))
  }

  // ----- what the bodies compute

  lemma ExtrqImmediateRuns(dst: nat, len: bv64, idx: bv64, p: Machine, v: View, fl: FlagEffect) returns (w: View)
    requires dst < |v.xmm|
    ensures Exec(ExtrqImmediateBody(dst, len, idx), In(p, v), fl) == Some(In(p, w))
    ensures w == v.(rax := w.rax, rcx := w.rcx, flags := w.flags,
                    xmm := v.xmm[dst := Xmm(Extract(v.xmm[dst].lo, WideMask(len, idx), idx), 0)])
  {
    hide Exec, In, AndW, ShrBy, ShlBy, Count, WideMask;
    var mask := WideMask(len, idx);
    var c4: Code := [MovToXmm(dst, Rax)];
    var c3 := [And(Rax, Rcx)] + c4;
    var c2 := [MovImm(Rcx, mask)] + c3;
    var c1 := if Count(idx) != 0 then [ShrImm(Rax, idx)] + c2 else c2;
    assert ExtrqImmediateBody(dst, len, idx) == [MovFromXmm(Rax, dst)] + c1;
    var v1 := RunMovFromXmm(Rax, dst, c1, p, v, fl);
    var v2 := v1;
    if Count(idx) != 0 {
      v2 := RunShiftImm(Rax, idx, false, c2, p, v1, fl);
    } else {
      ShrNone(v1.rax);
    }
    assert v2.rax == ShrBy(v.xmm[dst].lo, Count(idx));
    var v3 := RunMovImm(Rcx, mask, c3, p, v2, fl);
    var v4 := RunAnd(Rax, Rcx, c4, p, v3, fl);
    w := RunMovToXmm(dst, Rax, p, v4, fl);
  }

  /** Only the last of two values put into a register is seen. */
  lemma PutTwice(v: View, m: Reg, x: bv64, y: bv64, flags: bv64)
    ensures var v' := Put(v, m, x).(flags := flags);
            && At(v', m) == x && (m != Rcx ==> v'.rcx == v.rcx)
            && Put(v', m, y) == Put(v, m, y).(flags := flags)
    ensures Put(v, m, x).(flags := v.flags) == Put(v, m, x)
  {
    match m { case Rax => case Rcx => case Rdx => case Rbx => }
  }

  /** `mov m, 1; shl m, cl; dec m` builds the mask for the length in `cl`. */
  lemma MaskCodeRuns(m: Reg, c: Code, p: Machine, v: View, fl: FlagEffect) returns (w: View)
    requires m != Rcx
    ensures Exec(MaskCode(m) + c, In(p, v), fl) == Exec(c, In(p, w), fl)
    ensures w == Put(v, m, DecW(ShlBy(1, Count(AndW(v.rcx, 0xFF))))).(flags := w.flags)
  {
    hide Exec, In, AndW, ShrBy, ShlBy, Count, DecW, Put, At;
    var c2 := [Dec(m)] + c;
    var c1 := [ShlCl(m)] + c2;
    assert MaskCode(m) + c == [MovImm(m, 1)] + c1;
    var v1 := RunMovImm(m, 1, c1, p, v, fl);
    PutTwice(v, m, 1, Shifted(1, AndW(v.rcx, 0xFF), true), v.flags);
    var v2 := RunShiftCl(m, true, c2, p, v1, fl);
    var shifted := ShlBy(1, Count(AndW(v.rcx, 0xFF)));
    PutTwice(v, m, shifted, DecW(shifted), v2.flags);
    w := RunDec(m, c, p, v2, fl);
  }

  lemma CountAnd(w: bv64, m: bv64)
    requires m & 0x3F == 0x3F
    ensures Count(AndW(w, m)) == Count(w)
  {
    var z := AndW(w, m);
    assert z & 1 == w & 1 && z & 2 == w & 2 && z & 4 == w & 4 && z & 8 == w & 8 && z & 16 == w & 16 && z & 32 == w & 32;
  }

  lemma CountZero(w: bv64)
    ensures AndW(w, 0x3F) == 0 <==> Count(w) == 0
  {
    assert w & 0x3F == 0 <==> w & 1 == 0 && w & 2 == 0 && w & 4 == 0 && w & 8 == 0 && w & 16 == 0 && w & 32 == 0;
  }

  lemma CountLowByte(x: bv64, y: bv64)
    ensures Count(LowByte(x, y)) == Count(y)
  {
    var z := LowByte(x, y);
    assert z & 1 == y & 1 && z & 2 == y & 2 && z & 4 == y & 4 && z & 8 == y & 8 && z & 16 == y & 16 && z & 32 == y & 32;
  }

  lemma CountEight()
    ensures Count(8) == 8
  {
  }

  /** The mask part of the register form of EXTRQ: from the length in `rcx` to the mask in `rdx`. */
  lemma ExtrqMaskRuns(len: bv64, c: Code, p: Machine, v: View, fl: FlagEffect) returns (w: View)
    requires v.rcx == len && len == LengthField(len) && (v.flags & ZF != 0 <==> len == 0)
    ensures Exec(Branch(MaskCode(Rdx), [MovImm(Rdx, ONES)], LENGTH_ZERO, END) + c, In(p, v), fl) == Exec(c, In(p, w), fl)
    ensures w == v.(rdx := Mask(len), flags := w.flags)
  {
    hide Exec, In, AndW, ShrBy, ShlBy, Count, DecW, Branch;
    RunBranch(MaskCode(Rdx), [MovImm(Rdx, ONES)], LENGTH_ZERO, END, c, p, v, fl);
    CountZero(len);
    if len == 0 {
      w := RunMovImm(Rdx, ONES, c, p, v, fl);
    } else {
      hide MaskCode;
      CountAnd(len, 0xFF);
      w := MaskCodeRuns(Rdx, c, p, v, fl);
    }
  }

  /** The mask part of the register form of INSERTQ: from the length in `rbx` to the mask in `rbx`. */
  lemma InsertqMaskRuns(len: bv64, c: Code, p: Machine, v: View, fl: FlagEffect) returns (w: View)
    requires v.rbx == len && len == LengthField(len) && (v.flags & ZF != 0 <==> len == 0)
    ensures Exec(Branch([MovCl(Rbx)] + MaskCode(Rbx), [MovImm(Rbx, ONES)], LENGTH_ZERO, END) + c, In(p, v), fl)
         == Exec(c, In(p, w), fl)
    ensures w == v.(rbx := Mask(len), rcx := w.rcx, flags := w.flags)
  {
    hide Exec, In, AndW, ShrBy, ShlBy, Count, DecW, Branch;
    RunBranch([MovCl(Rbx)] + MaskCode(Rbx), [MovImm(Rbx, ONES)], LENGTH_ZERO, END, c, p, v, fl);
    CountZero(len);
    if len == 0 {
      w := RunMovImm(Rbx, ONES, c, p, v, fl);
    } else {
      hide MaskCode, LowByte;
      assert [MovCl(Rbx)] + MaskCode(Rbx) + c == [MovCl(Rbx)] + (MaskCode(Rbx) + c);
      var v1 := RunMovCl(Rbx, MaskCode(Rbx) + c, p, v, fl);
      CountAnd(v1.rcx, 0xFF);
      CountLowByte(v.rcx, len);
      w := MaskCodeRuns(Rbx, c, p, v1, fl);
    }
  }

  lemma FieldAgain(w: bv64)
    ensures LengthField(LengthField(w)) == LengthField(w)
  {
  }

  lemma ExtrqRegisterRuns(dst: nat, src: nat, p: Machine, v: View, fl: FlagEffect) returns (w: View)
    requires dst < |v.xmm| && src < |v.xmm|
    ensures Exec(ExtrqRegisterBody(dst, src), In(p, v), fl) == Some(In(p, w))
    ensures w == v.(rax := w.rax, rcx := w.rcx, rdx := w.rdx, flags := w.flags,
                    xmm := v.xmm[dst := ExtrqRegister(v.xmm[dst], v.xmm[src])])
  {
    hide Exec, In, AndW, ShrBy, ShlBy, Count, Branch, MaskCode, Mask;
    var x, rest := v.xmm[src].lo, ExtrqShift(dst);
    var branch := Branch(MaskCode(Rdx), [MovImm(Rdx, ONES)], LENGTH_ZERO, END);
    var c2 := [AndImm(Rcx, 0x3F)] + (branch + rest);
    var c1 := [Mov(Rcx, Rax)] + c2;
    assert ExtrqRegisterBody(dst, src) == [MovFromXmm(Rax, src)] + c1;
    var v1 := RunMovFromXmm(Rax, src, c1, p, v, fl);
    var v2 := RunMov(Rcx, Rax, c2, p, v1, fl);
    var v3 := RunAndImm(Rcx, 0x3F, branch + rest, p, v2, fl);
    FieldAgain(x);
    var v4 := ExtrqMaskRuns(LengthField(x), rest, p, v3, fl);
    w := ExtrqShiftRuns(dst, x, Mask(LengthField(x)), p, v4, fl);
  }

  lemma ExtrqShiftRuns(dst: nat, x: bv64, mask: bv64, p: Machine, v: View, fl: FlagEffect) returns (w: View)
    requires dst < |v.xmm| && v.rax == x && v.rdx == mask
    ensures Exec(ExtrqShift(dst), In(p, v), fl) == Some(In(p, w))
    ensures w == v.(rax := w.rax, rcx := w.rcx, flags := w.flags,
                    xmm := v.xmm[dst := Xmm(Extract(v.xmm[dst].lo, mask, IndexField(x)), 0)])
  {
    hide Exec, In, AndW, ShrBy, ShlBy, Count;
    var c6: Code := [MovToXmm(dst, Rax)];
    var c5 := [And(Rax, Rdx)] + c6;
    var c4 := [ShrCl(Rax)] + c5;
    var c3 := [MovFromXmm(Rax, dst)] + c4;
    var c2 := [Mov(Rcx, Rax)] + c3;
    var c1 := [AndImm(Rax, 0x3F)] + c2;
    CountEight();
    var v1 := RunShiftImm(Rax, 8, false, c1, p, v, fl);
    var v2 := RunAndImm(Rax, 0x3F, c2, p, v1, fl);
    assert v2.rax == IndexField(x);
    var v3 := RunMov(Rcx, Rax, c3, p, v2, fl);
    var v4 := RunMovFromXmm(Rax, dst, c4, p, v3, fl);
    CountAnd(IndexField(x), 0xFF);
    var v5 := RunShiftCl(Rax, false, c5, p, v4, fl);
    var v6 := RunAnd(Rax, Rdx, c6, p, v5, fl);
    w := RunMovToXmm(dst, Rax, p, v6, fl);
  }

  lemma InsertqImmediateRuns(dst: nat, src: nat, len: bv64, idx: bv64, p: Machine, v: View, fl: FlagEffect)
    returns (w: View)
    requires dst < |v.xmm| && src < |v.xmm|
    ensures Exec(InsertqImmediateBody(dst, src, len, idx), In(p, v), fl) == Some(In(p, w))
    ensures w == v.(rax := w.rax, rcx := w.rcx, rdx := w.rdx, flags := w.flags,
                    xmm := v.xmm[dst := Xmm(Insert(v.xmm[dst].lo, v.xmm[src].lo, WideMask(len, idx), idx), 0)])
  {
    hide Exec, In, AndW, OrW, NotW, ShrBy, ShlBy, Count, WideMask;
    var mask := WideMask(len, idx);
    var hole := NotW(ShlBy(mask, Count(idx)));
    var c8: Code := [MovToXmm(dst, Rcx)];
    var c7 := [Or(Rcx, Rax)] + c8;
    var c6 := [And(Rcx, Rdx)] + c7;
    var c5 := [MovImm(Rdx, hole)] + c6;
    var c4 := [ShlImm(Rax, idx)] + c5;
    var c3 := [And(Rax, Rdx)] + c4;
    var c2 := [MovImm(Rdx, mask)] + c3;
    var c1 := [MovFromXmm(Rcx, dst)] + c2;
    var v1 := RunMovFromXmm(Rax, src, c1, p, v, fl);
    var v2 := RunMovFromXmm(Rcx, dst, c2, p, v1, fl);
    var v3 := RunMovImm(Rdx, mask, c3, p, v2, fl);
    var v4 := RunAnd(Rax, Rdx, c4, p, v3, fl);
    var v5 := RunShiftImm(Rax, idx, true, c5, p, v4, fl);
    var v6 := RunMovImm(Rdx, hole, c6, p, v5, fl);
    var v7 := RunAnd(Rcx, Rdx, c7, p, v6, fl);
    var v8 := RunOr(Rcx, Rax, c8, p, v7, fl);
    w := RunMovToXmm(dst, Rcx, p, v8, fl);
  }

  lemma InsertqRegisterRuns(dst: nat, src: nat, p: Machine, v: View, fl: FlagEffect) returns (w: View)
    requires dst < |v.xmm| && src < |v.xmm|
    ensures Exec(InsertqRegisterBody(dst, src), In(p, v), fl) == Some(In(p, w))
    ensures w == v.(rax := w.rax, rcx := w.rcx, rdx := w.rdx, rbx := w.rbx, flags := w.flags,
                    xmm := v.xmm[dst := InsertqRegister(v.xmm[dst], v.xmm[src])])
  {
    hide Exec, In, AndW, OrW, NotW, ShrBy, ShlBy, Count, Branch, MaskCode, Mask;
    var x, rest := v.xmm[src].hi, InsertqIndex(dst, src);
    var branch := Branch([MovCl(Rbx)] + MaskCode(Rbx), [MovImm(Rbx, ONES)], LENGTH_ZERO, END);
    var c2 := [AndImm(Rbx, 0x3F)] + (branch + rest);
    var c1 := [Mov(Rbx, Rdx)] + c2;
    assert InsertqRegisterBody(dst, src) == [MovHighFromXmm(Rdx, src)] + c1;
    var v1 := RunMovHighFromXmm(Rdx, src, c1, p, v, fl);
    var v2 := RunMov(Rbx, Rdx, c2, p, v1, fl);
    var v3 := RunAndImm(Rbx, 0x3F, branch + rest, p, v2, fl);
    FieldAgain(x);
    var v4 := InsertqMaskRuns(LengthField(x), rest, p, v3, fl);
    w := InsertqIndexRuns(dst, src, x, Mask(LengthField(x)), p, v4, fl);
  }

  lemma InsertqIndexRuns(dst: nat, src: nat, x: bv64, mask: bv64, p: Machine, v: View, fl: FlagEffect) returns (w: View)
    requires dst < |v.xmm| && src < |v.xmm| && v.rdx == x && v.rbx == mask
    ensures Exec(InsertqIndex(dst, src), In(p, v), fl) == Some(In(p, w))
    ensures w == v.(rax := w.rax, rcx := w.rcx, rdx := w.rdx, rbx := w.rbx, flags := w.flags,
                    xmm := v.xmm[dst := Xmm(Insert(v.xmm[dst].lo, v.xmm[src].lo, mask, IndexField(x)), 0)])
  {
    hide Exec, In, AndW, OrW, NotW, ShrBy, ShlBy, Count, InsertqShift;
    var rest := InsertqShift(dst);
    var c3 := [And(Rax, Rbx)] + rest;
    var c2 := [MovFromXmm(Rax, src)] + c3;
    var c1 := [AndImm(Rdx, 0x3F)] + c2;
    CountEight();
    var v1 := RunShiftImm(Rdx, 8, false, c1, p, v, fl);
    var v2 := RunAndImm(Rdx, 0x3F, c2, p, v1, fl);
    var v3 := RunMovFromXmm(Rax, src, c3, p, v2, fl);
    var v4 := RunAnd(Rax, Rbx, rest, p, v3, fl);
    w := InsertqShiftRuns(dst, v.xmm[src].lo, mask, IndexField(x), p, v4, fl);
  }

  lemma InsertqShiftRuns(dst: nat, y: bv64, mask: bv64, idx: bv64, p: Machine, v: View, fl: FlagEffect) returns (w: View)
    requires dst < |v.xmm| && v.rdx == idx && v.rbx == mask && v.rax == AndW(y, mask)
    ensures Exec(InsertqShift(dst), In(p, v), fl) == Some(In(p, w))
    ensures w == v.(rax := w.rax, rcx := w.rcx, rbx := w.rbx, flags := w.flags,
                    xmm := v.xmm[dst := Xmm(Insert(v.xmm[dst].lo, y, mask, idx), 0)])
  {
    hide Exec, In, AndW, OrW, NotW, ShrBy, ShlBy, Count, LowByte;
    var c7: Code := [MovToXmm(dst, Rcx)];
    var c6 := [Or(Rcx, Rax)] + c7;
    var c5 := [And(Rcx, Rbx)] + c6;
    var c4 := [MovFromXmm(Rcx, dst)] + c5;
    var c3 := [ShlCl(Rax)] + c4;
    var c2 := [Not(Rbx)] + c3;
    var c1 := [ShlCl(Rbx)] + c2;
    var v1 := RunMovCl(Rdx, c1, p, v, fl);
    CountAnd(v1.rcx, 0xFF);
    CountLowByte(v.rcx, idx);
    var v2 := RunShiftCl(Rbx, true, c2, p, v1, fl);
    var v3 := RunNot(Rbx, c3, p, v2, fl);
    var v4 := RunShiftCl(Rax, true, c4, p, v3, fl);
    var v5 := RunMovFromXmm(Rcx, dst, c5, p, v4, fl);
    var v6 := RunAnd(Rcx, Rbx, c6, p, v5, fl);
    var v7 := RunOr(Rcx, Rax, c7, p, v6, fl);
    w := RunMovToXmm(dst, Rcx, p, v7, fl);
  }

  // ----- the emitted code and the definitions

  lemma ExtrqMeets(x: bv64, len: bv64, idx: bv64)
    ensures IsExtracted(x, len, idx, Extract(x, WideMask(LengthField(len), LengthField(idx)), LengthField(idx)))
  {
    hide Extract, WideMask, Mask, Count, IsExtracted;
    MasksFit(LengthField(len), LengthField(idx));
    ExtractMeets(x, WideMask(LengthField(len), LengthField(idx)), LengthField(len), LengthField(idx));
    SameFieldExtracted(x, len, idx, Extract(x, WideMask(LengthField(len), LengthField(idx)), LengthField(idx)));
  }

  lemma SameFieldExtracted(x: bv64, len: bv64, idx: bv64, r: bv64)
    requires IsExtracted(x, LengthField(len), LengthField(idx), r)
    ensures IsExtracted(x, len, idx, r)
  {
    hide Count, AndW, Bit;
    CountAnd(len, 0x3F);
    CountAnd(idx, 0x3F);
  }

  lemma InsertqMeets(dst: bv64, src: bv64, len: bv64, idx: bv64)
    ensures IsInserted(dst, src, len, idx, Insert(dst, src, WideMask(LengthField(len), LengthField(idx)), LengthField(idx)))
  {
    hide Insert, WideMask, Mask, Count, IsInserted;
    MasksFit(LengthField(len), LengthField(idx));
    InsertMeets(dst, src, WideMask(LengthField(len), LengthField(idx)), LengthField(len), LengthField(idx));
    SameFieldInserted(dst, src, len, idx, Insert(dst, src, WideMask(LengthField(len), LengthField(idx)), LengthField(idx)));
  }

  lemma SameFieldInserted(dst: bv64, src: bv64, len: bv64, idx: bv64, r: bv64)
    requires IsInserted(dst, src, LengthField(len), LengthField(idx), r)
    ensures IsInserted(dst, src, len, idx, r)
  {
    hide Count, AndW, Bit;
    CountAnd(len, 0x3F);
    CountAnd(idx, 0x3F);
  }

  /**
   Immediate form of EXTRQ, for every length and index: the extracted field with the upper half cleared,
   and nothing else that a program can see. Widening the mask for fields past bit 63 changes no result.
   */
  lemma EmittedExtrqImmediate(dst: nat, len: bv64, idx: bv64, s: Machine, fl: FlagEffect) returns (r: Machine, q: bv64)
    requires dst < |s.xmm|
    ensures ExtrqCode([XmmOperand(dst), Immediate(len), Immediate(idx)]).Some?
    ensures Exec(ExtrqCode([XmmOperand(dst), Immediate(len), Immediate(idx)]).value, s, fl) == Some(r)
    ensures OnlyXmm(s, r, s.xmm[dst := Xmm(q, 0)], 24) && IsExtracted(s.xmm[dst].lo, len, idx, q)
    ensures q == Extract(s.xmm[dst].lo, Mask(LengthField(len)), LengthField(idx))
  {
    hide Exec, In, Extract, WideMask, LengthField, ExtrqImmediateBody, IsExtracted, Protect, OnlyXmm, Mask;
    var l, i, p := LengthField(len), LengthField(idx), Entered([Rax, Rcx], s);
    EnteredSees([Rax, Rcx], s);
    var w := ExtrqImmediateRuns(dst, l, i, p, Seen(p), fl);
    r := RunProtected([Rax, Rcx], ExtrqImmediateBody(dst, l, i), s, w, fl);
    q := Extract(s.xmm[dst].lo, WideMask(l, i), i);
    ExtrqMeets(s.xmm[dst].lo, len, idx);
    WideningExtract(s.xmm[dst].lo, l, i);
  }

  lemma EnteredSees(regs: seq<Reg>, s: Machine)
    ensures Seen(Entered(regs, s)) == Seen(s)
  {
    PushAllKeeps(regs, PushValue(s.(rsp := s.rsp - RED_ZONE), s.flags));
  }

  lemma WideningExtract(x: bv64, len: bv64, idx: bv64)
    ensures Extract(x, WideMask(len, idx), idx) == Extract(x, Mask(len), idx)
  {
    hide Extract, WideMask, Mask, IsExtracted;
    MasksFit(len, idx);
    ExtractMeets(x, WideMask(len, idx), len, idx);
    ExtractMeets(x, Mask(len), len, idx);
    ExtractedUnique(x, len, idx, Extract(x, WideMask(len, idx), idx), Extract(x, Mask(len), idx));
  }

  lemma WideningInsert(dst: bv64, src: bv64, len: bv64, idx: bv64)
    ensures Insert(dst, src, WideMask(len, idx), idx) == Insert(dst, src, Mask(len), idx)
  {
    hide Insert, WideMask, Mask, IsInserted;
    MasksFit(len, idx);
    InsertMeets(dst, src, WideMask(len, idx), len, idx);
    InsertMeets(dst, src, Mask(len), len, idx);
    InsertedUnique(dst, src, len, idx, Insert(dst, src, WideMask(len, idx), idx), Insert(dst, src, Mask(len), idx));
  }

  lemma EmittedInsertqImmediate(dst: nat, src: nat, len: bv64, idx: bv64, s: Machine, fl: FlagEffect)
    returns (r: Machine, q: bv64)
    requires dst < |s.xmm| && src < |s.xmm|
    ensures InsertqCode([XmmOperand(dst), XmmOperand(src), Immediate(len), Immediate(idx)]).Some?
    ensures Exec(InsertqCode([XmmOperand(dst), XmmOperand(src), Immediate(len), Immediate(idx)]).value, s, fl) == Some(r)
    ensures OnlyXmm(s, r, s.xmm[dst := Xmm(q, 0)], 32) && IsInserted(s.xmm[dst].lo, s.xmm[src].lo, len, idx, q)
    ensures q == Insert(s.xmm[dst].lo, s.xmm[src].lo, Mask(LengthField(len)), LengthField(idx))
  {
    hide Exec, In, Insert, WideMask, LengthField, InsertqImmediateBody, IsInserted, Protect, OnlyXmm, Mask;
    var l, i, p := LengthField(len), LengthField(idx), Entered([Rax, Rcx, Rdx], s);
    EnteredSees([Rax, Rcx, Rdx], s);
    var w := InsertqImmediateRuns(dst, src, l, i, p, Seen(p), fl);
    r := RunProtected([Rax, Rcx, Rdx], InsertqImmediateBody(dst, src, l, i), s, w, fl);
    q := Insert(s.xmm[dst].lo, s.xmm[src].lo, WideMask(l, i), i);
    InsertqMeets(s.xmm[dst].lo, s.xmm[src].lo, len, idx);
    WideningInsert(s.xmm[dst].lo, s.xmm[src].lo, l, i);
  }

  // ----- the interpreter and the register forms

  /** Three bits of a ModRM byte as a register number. */
  function RegisterNumber(b: bv8): (n: nat)
    ensures n < 8
  {
    (if b & 1 != 0 then 1 else 0) + (if b & 2 != 0 then 2 else 0) + (if b & 4 != 0 then 4 else 0)
  }

  /** `TryExecuteIllegalInstruction`: the vector registers afterwards; `None` when the bytes are not handled. */
  function TryExecute(bytes: seq<bv8>, xmm: seq<Xmm>): Option<seq<Xmm>>
    requires |bytes| == 4 && |xmm| == 16
  {
    var dst, src := RegisterNumber(bytes[3] >> 3), RegisterNumber(bytes[3]);
    if (bytes[0] != 0x66 && bytes[0] != 0xF2) || bytes[1] != 0x0F || bytes[2] != 0x79 || bytes[3] >> 6 != 3 then None
    else if bytes[0] == 0x66 then Some(xmm[dst := ExtrqRegister(xmm[dst], xmm[src])])
    else Some(xmm[dst := InsertqRegister(xmm[dst], xmm[src])])
  }

  /** The two instructions as defined, with length and index taken from a register. */
  lemma InterpreterMeets(dst: Xmm, src: Xmm)
    ensures ExtrqRegister(dst, src).hi == 0 && InsertqRegister(dst, src).hi == 0
    ensures IsExtracted(dst.lo, src.lo, ShrBy(src.lo, 8), ExtrqRegister(dst, src).lo)
    ensures IsInserted(dst.lo, src.lo, src.hi, ShrBy(src.hi, 8), InsertqRegister(dst, src).lo)
  {
    hide IsExtracted, IsInserted, WideMask, Mask, Insert, Extract, ShrBy, LengthField, IndexField;
    ExtrqMeets(dst.lo, src.lo, ShrBy(src.lo, 8));
    WideningExtract(dst.lo, LengthField(src.lo), IndexField(src.lo));
    IndexIsField(src.lo);
    InsertqMeets(dst.lo, src.lo, src.hi, ShrBy(src.hi, 8));
    WideningInsert(dst.lo, src.lo, LengthField(src.hi), IndexField(src.hi));
    IndexIsField(src.hi);
  }

  lemma IndexIsField(w: bv64)
    ensures LengthField(ShrBy(w, 8)) == IndexField(w)
  {
  }

  // ----- the encoding, byte by byte

  /** The ModRM byte of two registers: 3, the `reg` field and the `rm` field. */
  function ModRm(reg: nat, rm: nat): bv8
    requires reg < 8 && rm < 8
  {
    (0xC0 + 8 * reg + rm) as bv8
  }

  lemma ModRmFields(reg: nat, rm: nat)
    requires reg < 8 && rm < 8
    ensures ModRm(reg, rm) >> 6 == 3 && RegisterNumber(ModRm(reg, rm) >> 3) == reg && RegisterNumber(ModRm(reg, rm)) == rm
  {
    var b := ModRm(reg, rm);
    ModRmNumber(reg, rm);
    TopField(b);
    FieldsNumber(b);
    hide RegisterNumber, ModRm;
  }

  lemma ModRmNumber(reg: nat, rm: nat)
    requires reg < 8 && rm < 8
    ensures ModRm(reg, rm) as int == 0xC0 + 8 * reg + rm
  {
    BigEndian.ByteNumber(0xC0 + 8 * reg + rm);
  }

  lemma TopField(b: bv8)
    requires b as int >= 0xC0
    ensures b >> 6 == 3
  {
  }

  lemma ModRmOfFields(b: bv8)
    requires b >> 6 == 3
    ensures b == ModRm(RegisterNumber(b >> 3), RegisterNumber(b))
  {
    FieldsNumber(b);
    hide RegisterNumber;
    assert (b as int) as bv8 == b;
  }

  lemma FieldsNumber(b: bv8)
    requires b >> 6 == 3
    ensures b as int == 0xC0 + 8 * RegisterNumber(b >> 3) + RegisterNumber(b)
  {
  }

  /** The bits of `r` are the `len` bits of `x` from `idx` on, and zeros; 0 stands for 64. */
  ghost predicate FieldOf(x: bv64, len: nat, idx: nat, r: bv64) {
    forall i :: 0 <= i < 64 ==>
      (Bit(r, i) <==> i < (if len == 0 then 64 else len) && i + idx < 64 && Bit(x, i + idx))
  }

  /** The bits of `r` are those of `x`, but `len` bits from `idx` on are the lowest of `y`. */
  ghost predicate FieldReplaced(x: bv64, y: bv64, len: nat, idx: nat, r: bv64) {
    forall i :: 0 <= i < 64 ==>
      (Bit(r, i) <==> if idx <= i < idx + (if len == 0 then 64 else len) then Bit(y, i - idx) else Bit(x, i))
  }

  lemma FieldNumbers(w: bv64)
    ensures Count(w) == (w & 0x3F) as int && Count(ShrBy(w, 8)) == ((w >> 8) & 0x3F) as int
  {
    hide Count;
    ShrEight(w);
    CountValue(w);
    CountValue(w >> 8);
  }

  lemma Executes(dst: nat, src: nat, b: bv8, xmm: seq<Xmm>)
    requires |xmm| == 16 && b >> 6 == 3 && dst == RegisterNumber(b >> 3) && src == RegisterNumber(b)
    ensures TryExecute([0x66, 0x0F, 0x79, b], xmm) == Some(xmm[dst := ExtrqRegister(xmm[dst], xmm[src])])
    ensures TryExecute([0xF2, 0x0F, 0x79, b], xmm) == Some(xmm[dst := InsertqRegister(xmm[dst], xmm[src])])
  {
    hide RegisterNumber, ExtrqRegister, InsertqRegister;
  }

  /** 66 0F 79 /r is EXTRQ: `dst` becomes the field of itself that bits 0-5 and 8-13 of `src` name. */
  lemma DecodesExtrq(dst: nat, src: nat, xmm: seq<Xmm>) returns (r: seq<Xmm>)
    requires dst < 8 && src < 8 && |xmm| == 16
    ensures TryExecute([0x66, 0x0F, 0x79, ModRm(dst, src)], xmm) == Some(r)
    ensures |r| == 16 && r[dst].hi == 0 && forall k :: 0 <= k < 16 && k != dst ==> r[k] == xmm[k]
    ensures FieldOf(xmm[dst].lo, (xmm[src].lo & 0x3F) as nat, ((xmm[src].lo >> 8) & 0x3F) as nat, r[dst].lo)
  {
    hide ModRm, RegisterNumber, TryExecute, ExtrqRegister, InsertqRegister, ShrBy, Count, IsExtracted, IsInserted, FieldOf;
    ModRmFields(dst, src);
    Executes(dst, src, ModRm(dst, src), xmm);
    r := xmm[dst := ExtrqRegister(xmm[dst], xmm[src])];
    InterpreterMeets(xmm[dst], xmm[src]);
    ExtractedField(xmm[dst].lo, xmm[src].lo, ShrBy(xmm[src].lo, 8), r[dst].lo);
    FieldNumbers(xmm[src].lo);
  }

  lemma ExtractedField(x: bv64, len: bv64, idx: bv64, r: bv64)
    requires IsExtracted(x, len, idx, r)
    ensures FieldOf(x, Count(len), Count(idx), r)
  {
    hide Bit, Count;
  }

  lemma InsertedField(x: bv64, y: bv64, len: bv64, idx: bv64, r: bv64)
    requires IsInserted(x, y, len, idx, r)
    ensures FieldReplaced(x, y, Count(len), Count(idx), r)
  {
    hide Bit, Count;
  }

  /** F2 0F 79 /r is INSERTQ: bits 0-5 and 8-13 of the upper half of `src` name the field, its lower half the bits. */
  lemma DecodesInsertq(dst: nat, src: nat, xmm: seq<Xmm>) returns (r: seq<Xmm>)
    requires dst < 8 && src < 8 && |xmm| == 16
    ensures TryExecute([0xF2, 0x0F, 0x79, ModRm(dst, src)], xmm) == Some(r)
    ensures |r| == 16 && r[dst].hi == 0 && forall k :: 0 <= k < 16 && k != dst ==> r[k] == xmm[k]
    ensures FieldReplaced(xmm[dst].lo, xmm[src].lo, (xmm[src].hi & 0x3F) as nat, ((xmm[src].hi >> 8) & 0x3F) as nat, r[dst].lo)
  {
    hide ModRm, RegisterNumber, TryExecute, ExtrqRegister, InsertqRegister, ShrBy, Count, IsExtracted, IsInserted, FieldReplaced;
    ModRmFields(dst, src);
    Executes(dst, src, ModRm(dst, src), xmm);
    r := xmm[dst := InsertqRegister(xmm[dst], xmm[src])];
    InterpreterMeets(xmm[dst], xmm[src]);
    InsertedField(xmm[dst].lo, xmm[src].lo, xmm[src].hi, ShrBy(xmm[src].hi, 8), r[dst].lo);
    FieldNumbers(xmm[src].hi);
  }

  /** No other bytes are handled. */
  lemma DecodesNothingElse(bytes: seq<bv8>, xmm: seq<Xmm>) returns (dst: nat, src: nat)
    requires |bytes| == 4 && |xmm| == 16 && TryExecute(bytes, xmm).Some?
    ensures dst < 8 && src < 8 && (bytes == [0x66, 0x0F, 0x79, ModRm(dst, src)] || bytes == [0xF2, 0x0F, 0x79, ModRm(dst, src)])
  {
    dst, src := RegisterNumber(bytes[3] >> 3), RegisterNumber(bytes[3]);
    ModRmOfFields(bytes[3]);
    hide RegisterNumber, ModRm;
  }

  /** Register form of EXTRQ, for every operand value, also when both operands are one register. */
  lemma EmittedExtrqRegister(dst: nat, src: nat, other: Operand, s: Machine, fl: FlagEffect) returns (r: Machine)
    requires dst < 16 && src < 16 && |s.xmm| == 16
    ensures ExtrqCode([XmmOperand(dst), XmmOperand(src), other]).Some?
    ensures Exec(ExtrqCode([XmmOperand(dst), XmmOperand(src), other]).value, s, fl) == Some(r)
    ensures OnlyXmm(s, r, s.xmm[dst := ExtrqRegister(s.xmm[dst], s.xmm[src])], 32)
  {
    hide Exec, In, ExtrqRegister, ExtrqRegisterBody, Protect, OnlyXmm;
    var p := Entered([Rax, Rcx, Rdx], s);
    EnteredSees([Rax, Rcx, Rdx], s);
    var w := ExtrqRegisterRuns(dst, src, p, Seen(p), fl);
    r := RunProtected([Rax, Rcx, Rdx], ExtrqRegisterBody(dst, src), s, w, fl);
  }

  lemma EmittedInsertqRegister(dst: nat, src: nat, s: Machine, fl: FlagEffect) returns (r: Machine)
    requires dst < |s.xmm| && src < |s.xmm|
    ensures InsertqCode([XmmOperand(dst), XmmOperand(src), Unused, Unused]).Some?
    ensures Exec(InsertqCode([XmmOperand(dst), XmmOperand(src), Unused, Unused]).value, s, fl) == Some(r)
    ensures OnlyXmm(s, r, s.xmm[dst := InsertqRegister(s.xmm[dst], s.xmm[src])], 40)
  {
    hide Exec, In, InsertqRegister, InsertqRegisterBody, Protect, OnlyXmm;
    var p := Entered([Rax, Rcx, Rdx, Rbx], s);
    EnteredSees([Rax, Rcx, Rdx, Rbx], s);
    var w := InsertqRegisterRuns(dst, src, p, Seen(p), fl);
    r := RunProtected([Rax, Rcx, Rdx, Rbx], InsertqRegisterBody(dst, src), s, w, fl);
  }

  /** The code emitted for a register-form instruction. */
  function Emitted(bytes: seq<bv8>): Option<Code>
    requires |bytes| == 4
  {
    var dst, src := XmmOperand(RegisterNumber(bytes[3] >> 3)), XmmOperand(RegisterNumber(bytes[3]));
    if bytes[0] == 0x66 then ExtrqCode([dst, src, Unused]) else InsertqCode([dst, src, Unused, Unused])
  }

  /** Whatever the interpreter handles, the emitted code does the same, on every machine. */
  lemma EmittedMatchesInterpreter(bytes: seq<bv8>, s: Machine, fl: FlagEffect) returns (r: Machine)
    requires |bytes| == 4 && |s.xmm| == 16 && TryExecute(bytes, s.xmm).Some?
    ensures Emitted(bytes).Some? && Exec(Emitted(bytes).value, s, fl) == Some(r)
    ensures OnlyXmm(s, r, TryExecute(bytes, s.xmm).value, if bytes[0] == 0x66 then 32 else 40)
  {
    hide Exec, OnlyXmm, ExtrqRegister, InsertqRegister, ExtrqCode, InsertqCode;
    var dst, src := RegisterNumber(bytes[3] >> 3), RegisterNumber(bytes[3]);
    if bytes[0] == 0x66 {
      r := EmittedExtrqRegister(dst, src, Unused, s, fl);
    } else {
      r := EmittedInsertqRegister(dst, src, s, fl);
    }
  }
}
