/**
 The part of x86-64 that the instruction patches use: four general registers, the stack pointer, the
 flags, the vector registers and byte-addressed memory, and code with forward jumps.
 */
module X86 {
  import opened Basics
  import opened Quadword

  datatype Reg = Rax | Rcx | Rdx | Rbx

  datatype Xmm = Xmm(lo: bv64, hi: bv64)

  /** Byte-addressed; stack addresses are plain integers and do not wrap around. */
  type Memory = int -> bv8

  /** `others` are the general registers the patches never name. */
  datatype Machine = Machine(
    rax: bv64, rcx: bv64, rdx: bv64, rbx: bv64, rsp: int, others: seq<bv64>,
    xmm: seq<Xmm>, flags: bv64, mem: Memory)

  type Label = nat

  datatype Instr =
    | LeaRsp(disp: int)
    | Pushfq
    | Popfq
    | Push(r: Reg)
    | Pop(r: Reg)
    | MovFromXmm(r: Reg, x: nat)
    | MovHighFromXmm(r: Reg, x: nat)
    | MovToXmm(x: nat, r: Reg)
    | Mov(d: Reg, s: Reg)
    | MovImm(d: Reg, imm: bv64)
    | MovCl(s: Reg)
    | And(d: Reg, s: Reg)
    | AndImm(d: Reg, imm: bv64)
    | Or(d: Reg, s: Reg)
    | Not(d: Reg)
    | Dec(d: Reg)
    | ShrImm(d: Reg, n: bv64)
    | ShlImm(d: Reg, n: bv64)
    | ShrCl(d: Reg)
    | ShlCl(d: Reg)
    | Jz(target: Label)
    | Jmp(target: Label)
    | Mark(name: Label)

  type Code = seq<Instr>

  /** What an arithmetic instruction makes of the flags other than the zero flag, in any state of the machine. */
  type FlagEffect = (Instr, Machine) -> bv64

  const ZF: bv64 := 0x40

  // ----- registers and memory

  function Get(s: Machine, r: Reg): bv64 {
    match r case Rax => s.rax case Rcx => s.rcx case Rdx => s.rdx case Rbx => s.rbx
  }

  function Set(s: Machine, r: Reg, v: bv64): Machine {
    match r
    case Rax => s.(rax := v)
    case Rcx => s.(rcx := v)
    case Rdx => s.(rdx := v)
    case Rbx => s.(rbx := v)
  }

  /** Byte `k` of a quadword, lowest first. */
  function ByteOf(v: bv64, k: int): bv8
    requires 0 <= k < 8
  {
    if k == 0 then (v & 0xFF) as bv8 else if k == 1 then ((v >> 8) & 0xFF) as bv8
    else if k == 2 then ((v >> 16) & 0xFF) as bv8 else if k == 3 then ((v >> 24) & 0xFF) as bv8
    else if k == 4 then ((v >> 32) & 0xFF) as bv8 else if k == 5 then ((v >> 40) & 0xFF) as bv8
    else if k == 6 then ((v >> 48) & 0xFF) as bv8 else ((v >> 56) & 0xFF) as bv8
  }

  function Store64(m: Memory, a: int, v: bv64): Memory {
    (x: int) => if a <= x < a + 8 then ByteOf(v, x - a) else m(x)
  }

  function Join(b0: bv8, b1: bv8, b2: bv8, b3: bv8, b4: bv8, b5: bv8, b6: bv8, b7: bv8): bv64 {
    (b0 as bv64) | ((b1 as bv64) << 8) | ((b2 as bv64) << 16) | ((b3 as bv64) << 24)
    | ((b4 as bv64) << 32) | ((b5 as bv64) << 40) | ((b6 as bv64) << 48) | ((b7 as bv64) << 56)
  }

  function Load64(m: Memory, a: int): bv64 {
    Join(m(a), m(a + 1), m(a + 2), m(a + 3), m(a + 4), m(a + 5), m(a + 6), m(a + 7))
  }

  // ----- execution

  /** The flags after a result: the zero flag says whether it is zero. */
  function FlagsAfter(others: bv64, result: bv64): bv64 {
    (others & !ZF) | if result == 0 then ZF else 0
  }

  /** An arithmetic instruction: write the result and set the flags from it. */
  function Alu(s: Machine, others: bv64, d: Reg, v: bv64): Machine {
    Set(s, d, v).(flags := FlagsAfter(others, v))
  }

  /** A shift by `n` modulo 64; a shift by nothing leaves the flags alone. */
  function Shift(s: Machine, others: bv64, d: Reg, n: bv64, left: bool): Machine {
    var k := Count(n);
    if k == 0 then s else Alu(s, others, d, if left then ShlBy(Get(s, d), k) else ShrBy(Get(s, d), k))
  }

  /** Effect of an instruction that does not jump. */
  function Step(i: Instr, s: Machine, fl: FlagEffect): Machine {
    match i
    case LeaRsp(disp) => s.(rsp := s.rsp + disp)
    case Pushfq => PushValue(s, s.flags)
    case Popfq => s.(flags := Load64(s.mem, s.rsp), rsp := s.rsp + 8)
    case Push(r) => PushValue(s, Get(s, r))
    case Pop(r) => Set(s.(rsp := s.rsp + 8), r, Load64(s.mem, s.rsp))
    case MovFromXmm(r, x) => if x < |s.xmm| then Set(s, r, s.xmm[x].lo) else s
    case MovHighFromXmm(r, x) => if x < |s.xmm| then Set(s, r, s.xmm[x].hi) else s
    case MovToXmm(x, r) => if x < |s.xmm| then s.(xmm := s.xmm[x := Xmm(Get(s, r), 0)]) else s
    case Mov(d, r) => Set(s, d, Get(s, r))
    case MovImm(d, imm) => Set(s, d, imm)
    case MovCl(r) => s.(rcx := LowByte(s.rcx, Get(s, r)))
    case And(d, r) => Alu(s, fl(i, s), d, AndW(Get(s, d), Get(s, r)))
    case AndImm(d, imm) => Alu(s, fl(i, s), d, AndW(Get(s, d), imm))
    case Or(d, r) => Alu(s, fl(i, s), d, OrW(Get(s, d), Get(s, r)))
    case Not(d) => Set(s, d, NotW(Get(s, d)))
    case Dec(d) => Alu(s, fl(i, s), d, DecW(Get(s, d)))
    case ShrImm(d, n) => Shift(s, fl(i, s), d, n, false)
    case ShlImm(d, n) => Shift(s, fl(i, s), d, n, true)
    case ShrCl(d) => Shift(s, fl(i, s), d, AndW(s.rcx, 0xFF), false)
    case ShlCl(d) => Shift(s, fl(i, s), d, AndW(s.rcx, 0xFF), true)
    case Jz(_) => s
    case Jmp(_) => s
    case Mark(_) => s
  }

  /** `x` with its low byte taken from `y`. */
  function LowByte(x: bv64, y: bv64): bv64 {
    (x & !0xFF) | (y & 0xFF)
  }

  function PushValue(s: Machine, v: bv64): Machine {
    s.(rsp := s.rsp - 8, mem := Store64(s.mem, s.rsp - 8, v))
  }

  /** The code behind label `l`, searching forward. */
  function SkipTo(c: Code, l: Label): (r: Option<Code>)
    ensures r.Some? ==> |r.value| < |c|
  {
    if c == [] then None
    else if c[0] == Mark(l) then Some(c[1..])
    else SkipTo(c[1..], l)
  }

  /** Run code to its end; `None` for a jump that is not forward to a label in it. */
  function Exec(c: Code, s: Machine, fl: FlagEffect): Option<Machine>
    decreases |c|
  {
    if c == [] then Some(s)
    else
      match c[0]
      case Jmp(l) =>
        var t := SkipTo(c[1..], l);
        if t.None? then None else Exec(t.value, s, fl)
      case Jz(l) =>
        if s.flags & ZF != 0 then
          var t := SkipTo(c[1..], l);
          if t.None? then None else Exec(t.value, s, fl)
        else Exec(c[1..], s, fl)
      case i => Exec(c[1..], Step(i, s, fl), fl)
  }

  // ----- composing code

  predicate Straight(c: Code) {
    forall k :: 0 <= k < |c| ==> !c[k].Jz? && !c[k].Jmp? && !c[k].Mark?
  }

  /** Straight-line code as a plain function on machines. */
  function Block(c: Code, s: Machine, fl: FlagEffect): Machine {
    if c == [] then s else Block(c[1..], Step(c[0], s, fl), fl)
  }

  lemma {:induction false} ExecStraight(c: Code, d: Code, s: Machine, fl: FlagEffect)
    requires Straight(c)
    ensures Exec(c + d, s, fl) == Exec(d, Block(c, s, fl), fl)
    decreases |c|
  {
    if c == [] {
      assert c + d == d;
    } else {
      assert (c + d)[0] == c[0] && (c + d)[1..] == c[1..] + d;
      ExecStraight(c[1..], d, Step(c[0], s, fl), fl);
    }
  }

  lemma {:induction false} SkipAppend(c: Code, d: Code, l: Label)
    requires SkipTo(c, l).Some?
    ensures SkipTo(c + d, l) == Some(SkipTo(c, l).value + d)
  {
    assert (c + d)[0] == c[0] && (c + d)[1..] == c[1..] + d;
    if c[0] != Mark(l) {
      SkipAppend(c[1..], d, l);
    }
  }

  lemma {:induction false} SkipStraight(c: Code, d: Code, l: Label)
    requires Straight(c)
    ensures SkipTo(c + [Mark(l)] + d, l) == Some(d)
  {
    var all := c + [Mark(l)] + d;
    if c == [] {
      assert all[0] == Mark(l) && all[1..] == d;
    } else {
      assert all[0] == c[0] && all[1..] == c[1..] + [Mark(l)] + d;
      SkipStraight(c[1..], d, l);
    }
  }

  /** Code that runs to its end on its own can be followed by anything. */
  lemma {:induction false} ExecAppend(c: Code, d: Code, s: Machine, fl: FlagEffect)
    requires Exec(c, s, fl).Some?
    ensures Exec(c + d, s, fl) == Exec(d, Exec(c, s, fl).value, fl)
    decreases |c|
  {
    if c == [] {
      assert c + d == d;
    } else {
      assert (c + d)[0] == c[0] && (c + d)[1..] == c[1..] + d;
      if c[0].Jmp? || (c[0].Jz? && s.flags & ZF != 0) {
        SkipAppend(c[1..], d, c[0].target);
        ExecAppend(SkipTo(c[1..], c[0].target).value, d, s, fl);
      } else if c[0].Jz? {
        ExecAppend(c[1..], d, s, fl);
      } else {
        ExecAppend(c[1..], d, Step(c[0], s, fl), fl);
      }
    }
  }

  /** `jz z; nonzero; jmp e; z: zero; e:` is a conditional. */
  function Branch(nonzero: Code, zero: Code, z: Label, e: Label): Code {
    [Jz(z)] + nonzero + [Jmp(e), Mark(z)] + zero + [Mark(e)]
  }

  lemma ExecBranch(nonzero: Code, zero: Code, z: Label, e: Label, s: Machine, fl: FlagEffect)
    requires Straight(nonzero) && Straight(zero) && z != e
    ensures Exec(Branch(nonzero, zero, z, e), s, fl)
         == Some(if s.flags & ZF != 0 then Block(zero, s, fl) else Block(nonzero, s, fl))
  {
    if s.flags & ZF != 0 { TakenBranch(nonzero, zero, z, e, s, fl); } else { FallThrough(nonzero, zero, z, e, s, fl); }
  }

  lemma TakenBranch(nonzero: Code, zero: Code, z: Label, e: Label, s: Machine, fl: FlagEffect)
    requires Straight(nonzero) && Straight(zero) && s.flags & ZF != 0
    ensures Exec(Branch(nonzero, zero, z, e), s, fl) == Some(Block(zero, s, fl))
  {
    var c, d: Code := Branch(nonzero, zero, z, e), zero + [Mark(e)];
    var t: Code := nonzero + [Jmp(e)] + [Mark(z)] + d;
    assert c[0] == Jz(z) && c[1..] == t;
    SkipPast(nonzero, d, z, e);
    ExecStraight(zero, [Mark(e)], s, fl);
    ExecMark(e, Block(zero, s, fl), fl);
  }

  lemma FallThrough(nonzero: Code, zero: Code, z: Label, e: Label, s: Machine, fl: FlagEffect)
    requires Straight(nonzero) && Straight(zero) && z != e && s.flags & ZF == 0
    ensures Exec(Branch(nonzero, zero, z, e), s, fl) == Some(Block(nonzero, s, fl))
  {
    var c, after: Code := Branch(nonzero, zero, z, e), [Mark(z)] + zero + [Mark(e)];
    hide Exec, Block, SkipTo;
    assert c == [Jz(z)] + (nonzero + ([Jmp(e)] + after));
    ExecNotZero(z, nonzero + ([Jmp(e)] + after), s, fl);
    ExecEmpty(Block(nonzero, s, fl), fl);
    ExecStraight(nonzero, [Jmp(e)] + after, s, fl);
    SkipZero(zero, z, e);
    ExecJump(e, after, Block(nonzero, s, fl), fl);
  }

  lemma ExecNotZero(l: Label, c: Code, s: Machine, fl: FlagEffect)
    requires s.flags & ZF == 0
    ensures Exec([Jz(l)] + c, s, fl) == Exec(c, s, fl)
  {
    assert ([Jz(l)] + c)[0] == Jz(l) && ([Jz(l)] + c)[1..] == c;
  }

  lemma ExecEmpty(s: Machine, fl: FlagEffect)
    ensures Exec([], s, fl) == Some(s)
  {
  }

  lemma SkipZero(zero: Code, z: Label, e: Label)
    requires Straight(zero) && z != e
    ensures SkipTo([Mark(z)] + zero + [Mark(e)], e) == Some([])
  {
    var after: Code := [Mark(z)] + zero + [Mark(e)];
    assert after[0] == Mark(z) && after[1..] == zero + [Mark(e)] + [];
    SkipStraight(zero, [], e);
  }

  lemma ExecJump(l: Label, c: Code, s: Machine, fl: FlagEffect)
    requires SkipTo(c, l).Some?
    ensures Exec([Jmp(l)] + c, s, fl) == Exec(SkipTo(c, l).value, s, fl)
  {
    assert ([Jmp(l)] + c)[0] == Jmp(l) && ([Jmp(l)] + c)[1..] == c;
  }

  lemma ExecMark(l: Label, s: Machine, fl: FlagEffect)
    ensures Exec([Mark(l)], s, fl) == Some(s)
  {
    var c: Code := [Mark(l)];
    assert c[0] == Mark(l) && c[1..] == [];
  }

  lemma SkipPast(c: Code, d: Code, z: Label, e: Label)
    requires Straight(c)
    ensures SkipTo(c + [Jmp(e)] + [Mark(z)] + d, z) == Some(d)
    decreases |c|
  {
    var all := c + [Jmp(e)] + [Mark(z)] + d;
    if c == [] {
      assert all[0] == Jmp(e) && all[1..][0] == Mark(z) && all[1..][1..] == d;
    } else {
      assert all[0] == c[0] && all[1..] == c[1..] + [Jmp(e)] + [Mark(z)] + d;
      SkipPast(c[1..], d, z, e);
    }
  }

  // ----- saving and restoring

  /** `s'` has the stack pointer of `s`, and memory changed at most in the `d` bytes below it. */
  ghost predicate Below(s: Machine, s': Machine, d: nat) {
    s'.rsp == s.rsp && forall x: int :: !(s.rsp - d <= x < s.rsp) ==> s'.mem(x) == s.mem(x)
  }

  lemma JoinBytes(v: bv64)
    ensures Join(ByteOf(v, 0), ByteOf(v, 1), ByteOf(v, 2), ByteOf(v, 3),
                 ByteOf(v, 4), ByteOf(v, 5), ByteOf(v, 6), ByteOf(v, 7)) == v
  {
  }

  lemma LoadStore(m: Memory, a: int, v: bv64)
    ensures Load64(Store64(m, a, v), a) == v
  {
    JoinBytes(v);
  }

  /** A pushed value is still there after code that only touches the stack below it. */
  lemma PushedValueKept(s: Machine, v: bv64, s2: Machine, d: nat)
    requires Below(PushValue(s, v), s2, d)
    ensures Load64(s2.mem, s2.rsp) == v
    ensures s2.rsp + 8 == s.rsp
    ensures forall x: int :: !(s.rsp - (d + 8) <= x < s.rsp) ==> s2.mem(x) == s.mem(x)
  {
    var s1 := PushValue(s, v);
    LoadStore(s.mem, s1.rsp, v);
  }

  /** Code between a push and the matching pop: the register comes back, the rest is the inner code's. */
  lemma ExecPushPop(r: Reg, c: Code, s: Machine, s2: Machine, d: nat, fl: FlagEffect)
    requires Exec(c, PushValue(s, Get(s, r)), fl) == Some(s2) && Below(PushValue(s, Get(s, r)), s2, d)
    ensures Exec([Push(r)] + c + [Pop(r)], s, fl) == Some(Set(s2.(rsp := s.rsp), r, Get(s, r)))
    ensures Below(s, Set(s2.(rsp := s.rsp), r, Get(s, r)), d + 8)
  {
    hide Exec, Load64, Store64;
    ExecWrapped(Push(r), c, Pop(r), s, s2, fl);
    PushedValueKept(s, Get(s, r), s2, d);
    PoppedBelow(s, s2, r, Get(s, r), d);
    hide Below;
  }

  lemma PoppedBelow(s: Machine, s2: Machine, r: Reg, v: bv64, d: nat)
    requires forall x: int :: !(s.rsp - (d + 8) <= x < s.rsp) ==> s2.mem(x) == s.mem(x)
    ensures Below(s, Set(s2.(rsp := s.rsp), r, v), d + 8)
  {
    var s3 := Set(s2.(rsp := s.rsp), r, v);
    assert s3.mem == s2.mem && s3.rsp == s.rsp;
  }

  lemma ExecPushPopFlags(c: Code, s: Machine, s2: Machine, d: nat, fl: FlagEffect)
    requires Exec(c, PushValue(s, s.flags), fl) == Some(s2) && Below(PushValue(s, s.flags), s2, d)
    ensures Exec([Pushfq] + c + [Popfq], s, fl) == Some(s2.(rsp := s.rsp, flags := s.flags))
    ensures Below(s, s2.(rsp := s.rsp, flags := s.flags), d + 8)
  {
    hide Exec, Load64, Store64, Get, Set, Alu, Shift;
    ExecWrapped(Pushfq, c, Popfq, s, s2, fl);
    PushedValueKept(s, s.flags, s2, d);
  }

  lemma ExecWrapped(i: Instr, c: Code, j: Instr, s: Machine, s2: Machine, fl: FlagEffect)
    requires Straight([i]) && Straight([j])
    requires Exec(c, Step(i, s, fl), fl) == Some(s2)
    ensures Exec([i] + c + [j], s, fl) == Some(Step(j, s2, fl))
  {
    BlockOne(i, s, fl);
    BlockOne(j, s2, fl);
    ExecStraight([i], c + [j], s, fl);
    assert [i] + c + [j] == [i] + (c + [j]);
    ExecAppend(c, [j], Step(i, s, fl), fl);
    ExecStraight([j], [], s2, fl);
    assert [j] + [] == [j];
  }

  lemma BlockOne(i: Instr, s: Machine, fl: FlagEffect)
    ensures Block([i], s, fl) == Step(i, s, fl)
  {
  }

  // ----- protecting a code sequence

  /** Push the registers in order, run `body`, pop them in the opposite order. */
  function Guarded(regs: seq<Reg>, body: Code): Code {
    if regs == [] then body else [Push(regs[0])] + Guarded(regs[1..], body) + [Pop(regs[0])]
  }

  function PushAll(regs: seq<Reg>, s: Machine): Machine {
    if regs == [] then s else PushAll(regs[1..], PushValue(s, Get(s, regs[0])))
  }

  /** `t` with the listed registers and the stack pointer of `s`. */
  function Restored(regs: seq<Reg>, t: Machine, s: Machine): Machine {
    t.(rsp := s.rsp,
       rax := if Rax in regs then s.rax else t.rax, rcx := if Rcx in regs then s.rcx else t.rcx,
       rdx := if Rdx in regs then s.rdx else t.rdx, rbx := if Rbx in regs then s.rbx else t.rbx)
  }

  lemma InCons(q: Reg, regs: seq<Reg>)
    requires regs != []
    ensures q in regs <==> q == regs[0] || q in regs[1..]
  {
  }

  lemma RestoredStep(regs: seq<Reg>, t: Machine, s: Machine, s1: Machine)
    requires regs != [] && s1 == s.(rsp := s1.rsp, mem := s1.mem)
    ensures Set(Restored(regs[1..], t, s1).(rsp := s.rsp), regs[0], Get(s, regs[0])) == Restored(regs, t, s)
  {
    InCons(Rax, regs);
    InCons(Rcx, regs);
    InCons(Rdx, regs);
    InCons(Rbx, regs);
  }

  lemma {:induction false} ExecGuarded(regs: seq<Reg>, body: Code, s: Machine, t: Machine, fl: FlagEffect)
    requires Exec(body, PushAll(regs, s), fl) == Some(t)
    requires t.rsp == PushAll(regs, s).rsp && t.mem == PushAll(regs, s).mem
    ensures Exec(Guarded(regs, body), s, fl) == Some(Restored(regs, t, s))
    ensures Below(s, Restored(regs, t, s), 8 * |regs|)
    decreases |regs|
  {
    hide Exec, Below, Store64;
    if regs == [] {
      NothingBelow(s, Restored(regs, t, s));
    } else {
      var r, s1 := regs[0], PushValue(s, Get(s, regs[0]));
      ExecGuarded(regs[1..], body, s1, t, fl);
      ExecPushPop(r, Guarded(regs[1..], body), s, Restored(regs[1..], t, s1), 8 * |regs[1..]|, fl);
      RestoredStep(regs, t, s, s1);
    }
  }

  lemma NothingBelow(s: Machine, t: Machine)
    requires t.rsp == s.rsp && t.mem == s.mem
    ensures Below(s, t, 0)
  {
  }

  const RED_ZONE: int := 128

  /** Skip the red zone, save flags and registers, run `body`, put everything back. */
  function Protect(regs: seq<Reg>, body: Code): Code {
    [LeaRsp(-RED_ZONE)] + ([Pushfq] + Guarded(regs, body) + [Popfq]) + [LeaRsp(RED_ZONE)]
  }

  /** The machine that `body` sees inside `Protect`. */
  function Entered(regs: seq<Reg>, s: Machine): Machine {
    PushAll(regs, PushValue(s.(rsp := s.rsp - RED_ZONE), s.flags))
  }

  /** Everything as before except the vector registers and `d` bytes below the 128 of the red zone. */
  ghost predicate OnlyXmm(s: Machine, r: Machine, xmm: seq<Xmm>, d: nat) {
    && r == s.(xmm := xmm, mem := r.mem)
    && forall x: int :: !(s.rsp - 128 - d <= x < s.rsp - 128) ==> r.mem(x) == s.mem(x)
  }

  ghost predicate OnlyRegs(regs: seq<Reg>, p: Machine, t: Machine) {
    && t.rsp == p.rsp && t.mem == p.mem && t.others == p.others
    && (Rax in regs || t.rax == p.rax) && (Rcx in regs || t.rcx == p.rcx)
    && (Rdx in regs || t.rdx == p.rdx) && (Rbx in regs || t.rbx == p.rbx)
  }

  lemma {:induction false} PushAllKeeps(regs: seq<Reg>, s: Machine)
    ensures PushAll(regs, s) == s.(rsp := PushAll(regs, s).rsp, mem := PushAll(regs, s).mem)
    decreases |regs|
  {
    if regs != [] { PushAllKeeps(regs[1..], PushValue(s, Get(s, regs[0]))); }
  }

  lemma RestoredAll(regs: seq<Reg>, t: Machine, s: Machine, p: Machine)
    requires OnlyRegs(regs, p, t) && p == s.(rsp := p.rsp, mem := p.mem)
    ensures Restored(regs, t, s) == s.(xmm := t.xmm, mem := t.mem, flags := t.flags)
  {
  }

  /** A protected body changes nothing a program can see except the vector registers. */
  lemma ExecProtect(regs: seq<Reg>, body: Code, s: Machine, t: Machine, fl: FlagEffect) returns (r: Machine)
    requires Exec(body, Entered(regs, s), fl) == Some(t)
    requires OnlyRegs(regs, Entered(regs, s), t)
    ensures Exec(Protect(regs, body), s, fl) == Some(r)
    ensures OnlyXmm(s, r, t.xmm, 8 * (|regs| + 1))
  {
    var s0 := s.(rsp := s.rsp - RED_ZONE);
    var s1 := PushValue(s0, s.flags);
    PushAllKeeps(regs, s1);
    hide Store64, OnlyXmm;
    RestoredAll(regs, t, s1, Entered(regs, s));
    hide Exec, Store64, Restored, PushAll, Guarded, Get, Set, Alu, Shift;
    ExecGuarded(regs, body, s1, t, fl);
    var s2 := Restored(regs, t, s1);
    ExecPushPopFlags(Guarded(regs, body), s0, s2, 8 * |regs|, fl);
    var s3 := s2.(rsp := s0.rsp, flags := s.flags);
    ExecWrapped(LeaRsp(-RED_ZONE), [Pushfq] + Guarded(regs, body) + [Popfq], LeaRsp(RED_ZONE), s, s3, fl);
    r := s3.(rsp := s3.rsp + RED_ZONE);
    NothingSeen(s, s0, r, t.xmm, 8 * (|regs| + 1));
  }

  lemma NothingSeen(s: Machine, s0: Machine, r: Machine, xmm: seq<Xmm>, d: nat)
    requires s0 == s.(rsp := s.rsp - RED_ZONE) && r == s.(xmm := xmm, mem := r.mem)
    requires Below(s0, r.(rsp := s0.rsp), d)
    ensures OnlyXmm(s, r, xmm, d)
  {
  }

  // ----- running a body one instruction at a time

  lemma ExecCons(i: Instr, c: Code, s: Machine, fl: FlagEffect)
    requires Straight([i])
    ensures Exec([i] + c, s, fl) == Exec(c, Step(i, s, fl), fl)
  {
    hide Step;
    BlockOne(i, s, fl);
    ExecStraight([i], c, s, fl);
  }

  /** What the instructions between saving and restoring work on. */
  datatype View = View(rax: bv64, rcx: bv64, rdx: bv64, rbx: bv64, flags: bv64, xmm: seq<Xmm>)

  function Seen(s: Machine): View {
    View(s.rax, s.rcx, s.rdx, s.rbx, s.flags, s.xmm)
  }

  function In(s: Machine, v: View): Machine {
    s.(rax := v.rax, rcx := v.rcx, rdx := v.rdx, rbx := v.rbx, flags := v.flags, xmm := v.xmm)
  }

  function At(v: View, r: Reg): bv64 {
    match r case Rax => v.rax case Rcx => v.rcx case Rdx => v.rdx case Rbx => v.rbx
  }

  function Put(v: View, r: Reg, w: bv64): View {
    match r
    case Rax => v.(rax := w)
    case Rcx => v.(rcx := w)
    case Rdx => v.(rdx := w)
    case Rbx => v.(rbx := w)
  }

  /** `d` receives `r`; the flags are unspecified except for the zero flag. */
  predicate Computes(v: View, d: Reg, r: bv64, w: View) {
    w == Put(v, d, r).(flags := w.flags) && (w.flags & ZF != 0 <==> r == 0)
  }

  lemma InPut(s: Machine, v: View, d: Reg, r: bv64)
    ensures Get(In(s, v), d) == At(v, d) && Set(In(s, v), d, r) == In(s, Put(v, d, r))
  {
  }

  lemma InAlu(s: Machine, v: View, others: bv64, d: Reg, r: bv64) returns (w: View)
    ensures Alu(In(s, v), others, d, r) == In(s, w) && Computes(v, d, r, w)
  {
    hide FlagsAfter;
    ZeroFlag(others, r);
    w := Put(v, d, r).(flags := FlagsAfter(others, r));
  }

  lemma ZeroFlag(others: bv64, result: bv64)
    ensures FlagsAfter(others, result) & ZF != 0 <==> result == 0
  {
  }

  /** A write to `d` that leaves the flags alone. */
  lemma RunSet(i: Instr, d: Reg, r: bv64, c: Code, s: Machine, v: View, fl: FlagEffect) returns (w: View)
    requires Straight([i]) && Step(i, In(s, v), fl) == Set(In(s, v), d, r)
    ensures w == Put(v, d, r) && Exec([i] + c, In(s, v), fl) == Exec(c, In(s, w), fl)
  {
    hide Exec, Step, In, Set;
    w := Put(v, d, r);
    InPut(s, v, d, r);
    ExecCons(i, c, In(s, v), fl);
  }

  lemma RunAlu(i: Instr, d: Reg, r: bv64, c: Code, s: Machine, v: View, fl: FlagEffect) returns (w: View)
    requires Straight([i]) && Step(i, In(s, v), fl) == Alu(In(s, v), fl(i, In(s, v)), d, r)
    ensures Computes(v, d, r, w) && Exec([i] + c, In(s, v), fl) == Exec(c, In(s, w), fl)
  {
    hide Exec, Step, In, Alu, Computes;
    w := InAlu(s, v, fl(i, In(s, v)), d, r);
    ExecCons(i, c, In(s, v), fl);
  }

  lemma RunShift(i: Instr, d: Reg, n: bv64, left: bool, c: Code, s: Machine, v: View, fl: FlagEffect) returns (w: View)
    requires Straight([i]) && Step(i, In(s, v), fl) == Shift(In(s, v), fl(i, In(s, v)), d, n, left)
    ensures w == Put(v, d, Shifted(At(v, d), n, left)).(flags := w.flags)
    ensures Exec([i] + c, In(s, v), fl) == Exec(c, In(s, w), fl)
  {
    hide Exec, Step, In, Alu, Count, ShlBy, ShrBy;
    ExecCons(i, c, In(s, v), fl);
    InPut(s, v, d, 0);
    if Count(n) == 0 {
      w := v;
      ShiftNone(At(v, d));
    } else {
      w := InAlu(s, v, fl(i, In(s, v)), d, Shifted(At(v, d), n, left));
    }
  }

  function Shifted(x: bv64, n: bv64, left: bool): bv64 {
    if left then ShlBy(x, Count(n)) else ShrBy(x, Count(n))
  }

  lemma ShiftNone(x: bv64)
    ensures ShlBy(x, 0) == x && ShrBy(x, 0) == x
  {
  }

  lemma RunMovFromXmm(d: Reg, x: nat, c: Code, s: Machine, v: View, fl: FlagEffect) returns (w: View)
    requires x < |v.xmm|
    ensures w == Put(v, d, v.xmm[x].lo)
    ensures Exec([MovFromXmm(d, x)] + c, In(s, v), fl) == Exec(c, In(s, w), fl)
  {
    hide Exec, Put, Set;
    w := RunSet(MovFromXmm(d, x), d, v.xmm[x].lo, c, s, v, fl);
  }

  lemma RunMovHighFromXmm(d: Reg, x: nat, c: Code, s: Machine, v: View, fl: FlagEffect) returns (w: View)
    requires x < |v.xmm|
    ensures w == Put(v, d, v.xmm[x].hi)
    ensures Exec([MovHighFromXmm(d, x)] + c, In(s, v), fl) == Exec(c, In(s, w), fl)
  {
    hide Exec, Put, Set;
    w := RunSet(MovHighFromXmm(d, x), d, v.xmm[x].hi, c, s, v, fl);
  }

  lemma RunMovToXmm(x: nat, r: Reg, s: Machine, v: View, fl: FlagEffect) returns (w: View)
    requires x < |v.xmm|
    ensures w == v.(xmm := v.xmm[x := Xmm(At(v, r), 0)])
    ensures Exec([MovToXmm(x, r)], In(s, v), fl) == Some(In(s, w))
  {
    hide Exec;
    w := v.(xmm := v.xmm[x := Xmm(At(v, r), 0)]);
    ExecCons(MovToXmm(x, r), [], In(s, v), fl);
    assert [MovToXmm(x, r)] + [] == [MovToXmm(x, r)];
    InPut(s, v, r, 0);
    ExecEmpty(In(s, w), fl);
  }

  lemma RunMov(d: Reg, r: Reg, c: Code, s: Machine, v: View, fl: FlagEffect) returns (w: View)
    ensures w == Put(v, d, At(v, r))
    ensures Exec([Mov(d, r)] + c, In(s, v), fl) == Exec(c, In(s, w), fl)
  {
    hide Exec, Put, Set, Get, At, In;
    InPut(s, v, r, 0);
    w := RunSet(Mov(d, r), d, At(v, r), c, s, v, fl);
  }

  lemma RunMovImm(d: Reg, imm: bv64, c: Code, s: Machine, v: View, fl: FlagEffect) returns (w: View)
    ensures w == Put(v, d, imm)
    ensures Exec([MovImm(d, imm)] + c, In(s, v), fl) == Exec(c, In(s, w), fl)
  {
    hide Exec, Put, Set, In;
    w := RunSet(MovImm(d, imm), d, imm, c, s, v, fl);
  }

  lemma RunMovCl(r: Reg, c: Code, s: Machine, v: View, fl: FlagEffect) returns (w: View)
    ensures w == v.(rcx := LowByte(v.rcx, At(v, r)))
    ensures Exec([MovCl(r)] + c, In(s, v), fl) == Exec(c, In(s, w), fl)
  {
    hide Exec, Get, At, LowByte;
    InPut(s, v, r, 0);
    w := RunSet(MovCl(r), Rcx, LowByte(v.rcx, At(v, r)), c, s, v, fl);
  }

  lemma RunAnd(d: Reg, r: Reg, c: Code, s: Machine, v: View, fl: FlagEffect) returns (w: View)
    ensures Computes(v, d, AndW(At(v, d), At(v, r)), w)
    ensures Exec([And(d, r)] + c, In(s, v), fl) == Exec(c, In(s, w), fl)
  {
    hide Exec, Get, At, Alu, AndW, In, Set, Computes;
    InPut(s, v, d, 0);
    InPut(s, v, r, 0);
    w := RunAlu(And(d, r), d, AndW(At(v, d), At(v, r)), c, s, v, fl);
  }

  lemma RunAndImm(d: Reg, imm: bv64, c: Code, s: Machine, v: View, fl: FlagEffect) returns (w: View)
    ensures Computes(v, d, AndW(At(v, d), imm), w)
    ensures Exec([AndImm(d, imm)] + c, In(s, v), fl) == Exec(c, In(s, w), fl)
  {
    hide Exec, Get, At, Alu, AndW, In, Set, Computes;
    InPut(s, v, d, 0);
    w := RunAlu(AndImm(d, imm), d, AndW(At(v, d), imm), c, s, v, fl);
  }

  lemma RunOr(d: Reg, r: Reg, c: Code, s: Machine, v: View, fl: FlagEffect) returns (w: View)
    ensures Computes(v, d, OrW(At(v, d), At(v, r)), w)
    ensures Exec([Or(d, r)] + c, In(s, v), fl) == Exec(c, In(s, w), fl)
  {
    hide Exec, Get, At, Alu, OrW, In, Set, Computes;
    InPut(s, v, d, 0);
    InPut(s, v, r, 0);
    w := RunAlu(Or(d, r), d, OrW(At(v, d), At(v, r)), c, s, v, fl);
  }

  lemma RunNot(d: Reg, c: Code, s: Machine, v: View, fl: FlagEffect) returns (w: View)
    ensures w == Put(v, d, NotW(At(v, d)))
    ensures Exec([Not(d)] + c, In(s, v), fl) == Exec(c, In(s, w), fl)
  {
    hide Exec, Get, At, NotW, In, Set, Put;
    InPut(s, v, d, 0);
    w := RunSet(Not(d), d, NotW(At(v, d)), c, s, v, fl);
  }

  lemma RunDec(d: Reg, c: Code, s: Machine, v: View, fl: FlagEffect) returns (w: View)
    ensures Computes(v, d, DecW(At(v, d)), w)
    ensures Exec([Dec(d)] + c, In(s, v), fl) == Exec(c, In(s, w), fl)
  {
    hide Exec, Get, At, Alu, DecW, In, Set, Computes;
    InPut(s, v, d, 0);
    w := RunAlu(Dec(d), d, DecW(At(v, d)), c, s, v, fl);
  }

  lemma StepShl(m: Machine, fl: FlagEffect, d: Reg)
    ensures Step(ShlCl(d), m, fl) == Shift(m, fl(ShlCl(d), m), d, AndW(m.rcx, 0xFF), true)
  {
    hide Shift, Alu, Get, Set, PushValue, Load64, LowByte, AndW, OrW, NotW, DecW;
  }

  lemma StepShr(m: Machine, fl: FlagEffect, d: Reg)
    ensures Step(ShrCl(d), m, fl) == Shift(m, fl(ShrCl(d), m), d, AndW(m.rcx, 0xFF), false)
  {
    hide Shift, Alu, Get, Set, PushValue, Load64, LowByte, AndW, OrW, NotW, DecW;
  }

  lemma StepShlImm(m: Machine, fl: FlagEffect, d: Reg, n: bv64)
    ensures Step(ShlImm(d, n), m, fl) == Shift(m, fl(ShlImm(d, n), m), d, n, true)
  {
    hide Shift, Alu, Get, Set, PushValue, Load64, LowByte, AndW, OrW, NotW, DecW;
  }

  lemma StepShrImm(m: Machine, fl: FlagEffect, d: Reg, n: bv64)
    ensures Step(ShrImm(d, n), m, fl) == Shift(m, fl(ShrImm(d, n), m), d, n, false)
  {
    hide Shift, Alu, Get, Set, PushValue, Load64, LowByte, AndW, OrW, NotW, DecW;
  }

  /** A shift by the low byte of `rcx`. */
  lemma RunShiftCl(d: Reg, left: bool, c: Code, s: Machine, v: View, fl: FlagEffect) returns (w: View)
    ensures w == Put(v, d, Shifted(At(v, d), AndW(v.rcx, 0xFF), left)).(flags := w.flags)
    ensures Exec([if left then ShlCl(d) else ShrCl(d)] + c, In(s, v), fl) == Exec(c, In(s, w), fl)
  {
    assert In(s, v).rcx == v.rcx;
    hide Exec, Step, In, Shift, Shifted, Put, AndW;
    StepShl(In(s, v), fl, d);
    StepShr(In(s, v), fl, d);
    w := RunShift(if left then ShlCl(d) else ShrCl(d), d, AndW(v.rcx, 0xFF), left, c, s, v, fl);
  }

  lemma RunShiftImm(d: Reg, n: bv64, left: bool, c: Code, s: Machine, v: View, fl: FlagEffect) returns (w: View)
    ensures w == Put(v, d, Shifted(At(v, d), n, left)).(flags := w.flags)
    ensures Exec([if left then ShlImm(d, n) else ShrImm(d, n)] + c, In(s, v), fl) == Exec(c, In(s, w), fl)
  {
    hide Exec, Step, In, Shift, Shifted, Put;
    StepShlImm(In(s, v), fl, d, n);
    StepShrImm(In(s, v), fl, d, n);
    w := RunShift(if left then ShlImm(d, n) else ShrImm(d, n), d, n, left, c, s, v, fl);
  }

  lemma RunBranch(nonzero: Code, zero: Code, z: Label, e: Label, c: Code, s: Machine, v: View, fl: FlagEffect)
    requires Straight(nonzero) && Straight(zero) && z != e
    ensures Exec(Branch(nonzero, zero, z, e) + c, In(s, v), fl)
         == Exec((if v.flags & ZF != 0 then zero else nonzero) + c, In(s, v), fl)
  {
    var taken := if v.flags & ZF != 0 then zero else nonzero;
    assert In(s, v).flags == v.flags;
    hide Exec, Block, Branch, In;
    ExecBranch(nonzero, zero, z, e, In(s, v), fl);
    ExecAppend(Branch(nonzero, zero, z, e), c, In(s, v), fl);
    ExecStraight(taken, c, In(s, v), fl);
  }

  /** A protected body as a change of the view. */
  lemma RunProtected(regs: seq<Reg>, body: Code, s: Machine, w: View, fl: FlagEffect) returns (r: Machine)
    requires var p := Entered(regs, s); Exec(body, In(p, Seen(p)), fl) == Some(In(p, w))
    requires (Rax in regs || w.rax == s.rax) && (Rcx in regs || w.rcx == s.rcx)
    requires (Rdx in regs || w.rdx == s.rdx) && (Rbx in regs || w.rbx == s.rbx)
    ensures Exec(Protect(regs, body), s, fl) == Some(r)
    ensures OnlyXmm(s, r, w.xmm, 8 * (|regs| + 1))
  {
    hide Exec, Protect, OnlyXmm;
    var p := Entered(regs, s);
    PushAllKeeps(regs, PushValue(s.(rsp := s.rsp - RED_ZONE), s.flags));
    assert In(p, Seen(p)) == p;
    r := ExecProtect(regs, body, s, In(p, w), fl);
  }
}
