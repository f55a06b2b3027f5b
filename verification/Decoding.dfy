/** Which opcodes `disasm.py` decodes and how many words it reads behind them: those of the
    instructions of `Assembly`, and theirs. */
module Decoding {
  import opened Assembly
  import opened Opcodes

  // ------------------------------------------------------------- what is decoded

  predicate LowOnly(e: bv16) { e & 0xFFC0 == 0 }

  predicate LowClear(b: bv16) { b & 0x3F == 0 }

  lemma LowBits(o: Operand, width: Width)
    requires Suits(o, width)
    ensures Mode(Low(o)) == ModeOf(o) && Reg(Low(o)) == RegOf(o) && LowOnly(Low(o))
    ensures ModeOf(o) < 8 && RegOf(o) < 8
    ensures (Mode(Low(o)) == 0 <==> o.Data?) && (Mode(Low(o)) == 1 <==> o.Address?)
    ensures Low(o) == 0x3C <==> if width == Long then o.Immediate32? else o.Immediate16?
  {
  }

  lemma HighBits(b: bv16, e: bv16)
    requires LowClear(b) && LowOnly(e)
    ensures Mode(WithLow(b, e)) == Mode(e) && Reg(WithLow(b, e)) == Reg(e)
  {
  }

  lemma OperandBytes(o: Operand, width: Width)
    requires Suits(o, width)
    ensures EaBytes(ModeOf(o), RegOf(o), Bits(width)) == 2 * |WordsOf(o)|
  {
  }

  /** The decoder reads the words of the operand in the low bits. */
  lemma ReadsOperand(b: bv16, o: Operand, width: Width)
    requires LowClear(b) && Suits(o, width)
    ensures Ea(WithLow(b, Low(o)), Bits(width)) == 2 * |WordsOf(o)|
  {
    hide *;
    LowBits(o, width);
    OperandBytes(o, width);
    HighBits(b, Low(o));
    EaIs(WithLow(b, Low(o)), Bits(width));
  }

  lemma EaIs(op: bv16, size: bv16)
    ensures Ea(op, size) == EaBytes(Mode(op), Reg(op), size)
  {
  }

  predicate Decodes(i: Instruction) {
    PlanOf(Opcode(i)) == Known(2 * |Extra(i)|)
  }

  lemma BarePlan(k: BareKind)
    ensures PlanOf(BareOpcode(k)) == Known(0)
  {
    hide Ea, Plan4Sized, Plan0, PlanMove, Plan5, PlanBranch, Plan8, PlanAddSub, PlanB, PlanC, PlanShift;
  }

  lemma BareDecodes(k: BareKind)
    ensures Decodes(Bare(k))
  {
    BarePlan(k);
    hide PlanOf, BareOpcode;
  }

  lemma UnlkUspPlans(r: Three)
    ensures PlanOf(WithLow(0x4E58, r)) == PlanOf(WithLow(0x4E60, r)) == PlanOf(WithLow(0x4E68, r)) == Known(0)
  {
    hide Ea, Plan4Sized, Plan0, PlanMove, Plan5, PlanBranch, Plan8, PlanAddSub, PlanB, PlanC, PlanShift;
  }

  lemma SwapExtPlans(r: Three)
    ensures PlanOf(WithLow(0x4840, r)) == PlanOf(WithLow(0x4880, r)) == PlanOf(WithLow(0x48C0, r)) == Known(0)
    ensures PlanOf(WithLow(0x49C0, r)) == Known(0)
  {
    hide Ea, Plan4Sized, Plan0, PlanMove, Plan5, PlanBranch, Plan8, PlanAddSub, PlanB, PlanC, PlanShift;
  }

  lemma OnRegDecodes(k: RegKind, r: Three)
    ensures Decodes(OnReg(k, r))
  {
    hide PlanOf, WithLow, Low, Suits, ModeOf, RegOf, WordsOf;
    UnlkUspPlans(r);
    SwapExtPlans(r);
  }

  lemma TrapDecodes(v: Four)
    ensures Decodes(Trap(v))
  {
    hide Ea, Plan4Sized, Plan0, PlanMove, Plan5, PlanBranch, Plan8, PlanAddSub, PlanB, PlanC, PlanShift;
  }

  lemma LinkDecodes(r: Three, d: word)
    ensures Decodes(Link(r, d))
  {
    hide Ea, Plan4Sized, Plan0, PlanMove, Plan5, PlanBranch, Plan8, PlanAddSub, PlanB, PlanC, PlanShift;
  }

  lemma StopDecodes(v: word)
    ensures Decodes(Stop(v))
  {
    hide Ea, Plan4Sized, Plan0, PlanMove, Plan5, PlanBranch, Plan8, PlanAddSub, PlanB, PlanC, PlanShift;
  }

  /** The opcodes of the one-operand instructions are none of those tested before them. */
  lemma UnaryIsSized(k: UnaryKind, w: Width, e: bv16)
    requires LowOnly(e)
    ensures var op := WithLow(Sized(UnaryOpcode(k), w), e); Top(op) == 4 && Plan4(op) == Plan4Sized(op)
  {
    hide Plan4Sized, Ea;
  }

  lemma SizedPlan(k: UnaryKind, w: Width, e: bv16)
    requires LowOnly(e)
    ensures var op := WithLow(Sized(UnaryOpcode(k), w), e); Plan4Sized(op) == Known(Ea(op, Bits(w)))
  {
    hide Ea;
  }

  lemma UnaryPlan(k: UnaryKind, w: Width, e: bv16)
    requires LowOnly(e)
    ensures var op := WithLow(Sized(UnaryOpcode(k), w), e); PlanOf(op) == Known(Ea(op, Bits(w)))
  {
    UnaryIsSized(k, w, e);
    SizedPlan(k, w, e);
    hide Ea, Top, Match, Plan4, Plan4Sized, Sized, WithLow, UnaryOpcode, LowOnly;
  }

  lemma JumpPlans(e: bv16)
    requires LowOnly(e)
    ensures PlanOf(WithLow(0x4E80, e)) == Known(Ea(WithLow(0x4E80, e), 2))
            && PlanOf(WithLow(0x4EC0, e)) == Known(Ea(WithLow(0x4EC0, e), 2))
  {
    hide Ea, Plan4Sized, Plan0, PlanMove, Plan5, PlanBranch, Plan8, PlanAddSub, PlanB, PlanC, PlanShift;
  }

  lemma PeaPlan(e: bv16)
    requires LowOnly(e) && Mode(e) != 0
    ensures PlanOf(WithLow(0x4840, e)) == Known(Ea(WithLow(0x4840, e), 2))
  {
    hide Ea, Plan4Sized, Plan0, PlanMove, Plan5, PlanBranch, Plan8, PlanAddSub, PlanB, PlanC, PlanShift;
  }

  lemma NbcdPlan(e: bv16)
    requires LowOnly(e)
    ensures PlanOf(WithLow(0x4800, e)) == Known(Ea(WithLow(0x4800, e), 0))
  {
    hide Ea, Plan0, PlanMove, Plan5, PlanBranch, Plan8, PlanAddSub, PlanB, PlanC, PlanShift;
  }

  lemma TasPlan(e: bv16)
    requires LowOnly(e) && e != 0x3C
    ensures PlanOf(WithLow(0x4AC0, e)) == Known(Ea(WithLow(0x4AC0, e), 0))
  {
    hide Ea, Plan0, PlanMove, Plan5, PlanBranch, Plan8, PlanAddSub, PlanB, PlanC, PlanShift;
  }

  lemma FromSrPlan(e: bv16)
    requires LowOnly(e)
    ensures PlanOf(WithLow(0x40C0, e)) == Known(Ea(WithLow(0x40C0, e), 1))
  {
    hide Ea, Plan0, PlanMove, Plan5, PlanBranch, Plan8, PlanAddSub, PlanB, PlanC, PlanShift;
  }

  lemma ToSrPlan(e: bv16)
    requires LowOnly(e)
    ensures PlanOf(WithLow(0x46C0, e)) == Known(Ea(WithLow(0x46C0, e), 1))
  {
    hide Ea, Plan0, PlanMove, Plan5, PlanBranch, Plan8, PlanAddSub, PlanB, PlanC, PlanShift;
  }

  lemma EaPlan(k: EaKind, e: bv16)
    requires LowOnly(e) && (k == Pea ==> Mode(e) != 0) && (k == Tas ==> e != 0x3C)
    ensures var op := WithLow(EaOpcode(k), e); PlanOf(op) == Known(Ea(op, Bits(EaWidth(k))))
  {
    hide PlanOf, Ea, Mode;
    match k
    case Pea => PeaPlan(e);
    case Jsr => JumpPlans(e);
    case Jmp => JumpPlans(e);
    case Nbcd => NbcdPlan(e);
    case Tas => TasPlan(e);
    case FromSr => FromSrPlan(e);
    case ToSr => ToSrPlan(e);
  }

  lemma LeaPlan(e: bv16, r: Three)
    requires LowOnly(e) && !(r == 4 && Mode(e) == 0)
    ensures var op := WithLow(WithReg(0x41C0, r), e); PlanOf(op) == Known(Ea(op, 2))
  {
    hide Ea, Plan4Sized, Plan0, PlanMove, Plan5, PlanBranch, Plan8, PlanAddSub, PlanB, PlanC, PlanShift;
  }

  lemma ChkPlan(e: bv16, r: Three)
    requires LowOnly(e)
    ensures var op := WithLow(WithReg(0x4180, r), e); PlanOf(op) == Known(Ea(op, 1))
  {
    hide Ea, Plan4Sized, Plan0, PlanMove, Plan5, PlanBranch, Plan8, PlanAddSub, PlanB, PlanC, PlanShift;
  }

  lemma RegField(b: bv16, r: Three, e: bv16)
    requires b & 0x0E3F == 0 && LowOnly(e)
    ensures var op := WithLow(WithReg(b, r), e);
            Top(op) == Top(b) && OpMode(op) == OpMode(b) && Size(op) == Size(b) && Mode(op) == Mode(e)
            && Reg(op) == Reg(e)
  {
  }

  lemma OtherEaReg(k: EaRegKind)
    requires k != Lea && k != Chk
    ensures var b := EaRegOpcode(k);
            && b & 0x0E3F == 0
            && Top(b) == (match k case DivU => 8 case DivS => 8 case MulU => 12 case MulS => 12
                          case AddaW => 13 case AddaL => 13 case CmpaW => 11 case CmpaL => 11 case _ => 9)
            && OpMode(b) == (match k case DivU => 3 case MulU => 3 case AddaW => 3 case SubaW => 3 case CmpaW => 3
                             case _ => 7)
  {
  }

  /** What the decoder does with operation modes 3 and 7 in the groups with a register. */
  lemma EaToRegPlanIs(op: bv16)
    requires OpMode(op) == 3 || OpMode(op) == 7
    ensures Top(op) == 8 || Top(op) == 12 ==> PlanOf(op) == Known(Ea(op, 1))
    ensures Top(op) == 9 || Top(op) == 13 || Top(op) == 11 ==>
              PlanOf(op) == Known(Ea(op, if OpMode(op) == 3 then 1 else 2))
  {
    hide Match, Top, Mode, Reg, Size, OpMode, Sub, Ea, Plan0, PlanMove, Plan4, Plan5, PlanBranch, PlanShift;
  }

  lemma EaRegPlan(k: EaRegKind, e: bv16, r: Three)
    requires LowOnly(e) && !(k == Lea && r == 4 && Mode(e) == 0)
    ensures var op := WithLow(WithReg(EaRegOpcode(k), r), e); PlanOf(op) == Known(Ea(op, Bits(EaRegWidth(k))))
  {
    if k != Lea && k != Chk { OtherEaReg(k); }
    hide PlanOf, Ea, Mode, Top, OpMode, WithLow, WithReg, LowOnly, Size, Reg;
    if k == Lea {
      LeaPlan(e, r);
    } else if k == Chk {
      ChkPlan(e, r);
    } else {
      RegField(EaRegOpcode(k), r, e);
      EaToRegPlanIs(WithLow(WithReg(EaRegOpcode(k), r), e));
    }
  }

  lemma MoveMPlan(toRegs: Bit, w: Width, e: bv16)
    requires w != Byte && LowOnly(e) && (Mode(e) == 0 ==> toRegs == 1)
    ensures var op := WithLow(MoveMOpcode(toRegs, w), e);
            PlanOf(op) == Known(2 + Ea(op, Bits(w)))
  {
    hide Ea, Plan4Sized, Plan0, PlanMove, Plan5, PlanBranch, Plan8, PlanAddSub, PlanB, PlanC, PlanShift;
  }

  lemma MoveBits(w: Width, mode: Three, r: Three, e: bv16)
    requires LowOnly(e)
    ensures var op := WithLow(MoveTarget(w, mode, r), e);
            && (Top(op) == 1 || Top(op) == 2 || Top(op) == 3) && MoveSize(op) == Bits(w)
            && OpMode(op) == mode && Sub(op) == r && Mode(op) == Mode(e) && Reg(op) == Reg(e)
  {
  }

  lemma MovePPlan(m: Three, d: Three, r: Three)
    requires m >= 4
    ensures PlanOf(0x0008 | (d << 9) | (m << 6) | r) == Known(2)
  {
  }

  lemma BitPlans(d: Three, op: Two, e: bv16)
    requires LowOnly(e)
    ensures var i := WithLow(WithKind(WithReg(0x0100, d), op), e); Mode(e) != 1 ==> PlanOf(i) == Known(Ea(i, 0))
    ensures var i := WithLow(WithKind(0x0800, op), e); PlanOf(i) == Known(2 + Ea(i, 0))
  {
    hide Ea, ImmediateOrStatus;
  }

  lemma ImmediateBits(k: ImmediateKind, w: Width, e: bv16)
    requires LowOnly(e)
    ensures var op := WithLow(Sized(ImmediateOpcode(k), w), e);
            && Top(op) == 0 && Match(op, 0x0100, 0) && Size(op) == Bits(w)
            && Sub(op) == ImmediateOpcode(k) >> 9
            && ((op == 0x003C || op == 0x007C || op == 0x023C || op == 0x027C || op == 0x0A3C || op == 0x0A7C)
                ==> e == 0x3C && w != Long && HasStatusForm(k))
  {
  }

  lemma ImmediatePlan(k: ImmediateKind, w: Width, e: bv16)
    requires LowOnly(e) && !(HasStatusForm(k) && e == 0x3C && w != Long)
    ensures var op := WithLow(Sized(ImmediateOpcode(k), w), e);
            PlanOf(op) == Known((if w == Long then 4 else 2) + Ea(op, Bits(w)))
  {
    ImmediateBits(k, w, e);
    assert ImmediateOpcode(k) >> 9 ==
           match k case Ori => 0 case Andi => 1 case Subi => 2 case Addi => 3 case Eori => 5 case Cmpi => 6;
    hide Ea, Top, Match, Size, Sub;
  }

  lemma StatusPlan(k: ImmediateKind, sr: Bit)
    requires HasStatusForm(k)
    ensures PlanOf(ImmediateOpcode(k) | 0x3C | (sr << 6)) == Known(2)
  {
    assert sr == 0 || sr == 1;
  }

  lemma QuickBits(sub: Bit, d: Three, w: Width, e: bv16)
    requires LowOnly(e)
    ensures var op := WithLow(Sized(WithFlag(WithReg(0x5000, d), sub), w), e); Top(op) == 5 && Size(op) == Bits(w)
  {
  }

  lemma ConditionBits(cc: Four, e: bv16)
    requires LowOnly(e)
    ensures var op := WithLow(WithCondition(0x50C0, cc), e); Top(op) == 5 && Size(op) == 3 && Mode(op) == Mode(e)
  {
  }

  lemma DbccPlan(cc: Four, r: Three)
    ensures PlanOf(0x50C8 | (cc << 8) | r) == Known(2)
  {
  }

  lemma BranchPlan(cc: Four, d: Eight)
    ensures var op := 0x6000 | (cc << 8) | d; PlanOf(op) == Known(if d == 0 then 2 else if d == 0xFF then 4 else 0)
  {
  }

  lemma MoveQPlan(d: Three, v: Eight)
    ensures PlanOf(0x7000 | (d << 9) | v) == Known(0)
  {
  }

  lemma EmulatedPlan(line: Bit, low: Twelve)
    ensures PlanOf(WithLow(if line == 1 then 0xF000 else 0xA000, low)) == Known(0)
  {
  }

  lemma ShiftPlans(k: Three, left: Bit, w: Width, e: bv16)
    requires LowOnly(e)
    ensures var op := WithLow(WithFlag(WithReg(0xE0C0, k), left), e); PlanOf(op) == Known(Ea(op, 1))
    ensures PlanOf(WithLow(Sized(WithFlag(WithReg(0xE000, k), left), w), e)) == Known(0)
  {
    hide Ea;
  }

  lemma BinaryBits(b: bv16, d: Three, toEa: Bit, w: Width, e: bv16)
    requires b & 0x0FFF == 0 && LowOnly(e)
    ensures var op := WithLow(Sized(WithFlag(WithReg(b, d), toEa), w), e);
            && Top(op) == b >> 12 && Size(op) == Bits(w) && Mode(op) == Mode(e)
            && OpMode(op) == (toEa << 2) | Bits(w)
  {
  }

  /** The group of each, and the operation mode of the two directions. */
  lemma BinaryGroup(k: BinaryKind, toEa: Bit, w: Width)
    ensures BinaryOpcode(k) & 0x0FFF == 0
    ensures BinaryOpcode(k) >> 12 == match k case OrKind => 8 case AndKind => 12 case AddKind => 13 case SubKind => 9
    ensures (toEa << 2) | Bits(w) == if toEa == 1 then 4 + Bits(w) else Bits(w)
  {
  }

  lemma BinaryPlanIs(op: bv16, w: Width)
    requires Size(op) == Bits(w) && (OpMode(op) == Bits(w) || OpMode(op) == 4 + Bits(w))
    requires OpMode(op) == 4 + Bits(w) ==>
               && !(Mode(op) == 0 && (Top(op) != 8 || w == Byte) && (Top(op) != 12 || w != Long))
               && !(Mode(op) == 1 && (Top(op) != 8 || w == Byte))
    requires Top(op) == 8 || Top(op) == 12 || Top(op) == 13 || Top(op) == 9
    ensures PlanOf(op) == Known(Ea(op, Bits(w)))
  {
    hide Ea, Top, Match, Size, OpMode, Mode, Plan0, PlanMove, Plan4, Plan5, PlanBranch, PlanB, PlanShift;
  }

  lemma BinaryPlan(k: BinaryKind, d: Three, toEa: Bit, w: Width, e: bv16)
    requires LowOnly(e)
    requires toEa == 1 ==> !(Mode(e) == 0 && (k != OrKind || w == Byte) && (k != AndKind || w != Long))
    requires toEa == 1 ==> !(Mode(e) == 1 && (k != OrKind || w == Byte))
    ensures var op := WithLow(Sized(WithFlag(WithReg(BinaryOpcode(k), d), toEa), w), e);
            PlanOf(op) == Known(Ea(op, Bits(w)))
  {
    hide *;
    BinaryGroup(k, toEa, w);
    BinaryBits(BinaryOpcode(k), d, toEa, w, e);
    BinaryPlanIs(WithLow(Sized(WithFlag(WithReg(BinaryOpcode(k), d), toEa), w), e), w);
  }

  lemma CompareBits(d: Three, toEa: Bit, w: Width, e: bv16)
    requires LowOnly(e)
    ensures var op := WithLow(Sized(WithFlag(WithReg(0xB000, d), toEa), w), e);
            && Top(op) == 11 && Mode(op) == Mode(e) && OpMode(op) == (if toEa == 1 then 4 + Bits(w) else Bits(w))
    ensures WithLow(Sized(WithReg(0xB000, d), w), e) == WithLow(Sized(WithFlag(WithReg(0xB000, d), 0), w), e)
    ensures WithLow(Sized(WithReg(0xB100, d), w), e) == WithLow(Sized(WithFlag(WithReg(0xB000, d), 1), w), e)
  {
  }

  lemma ComparePlans(w: Width, d: Three, e: bv16)
    requires LowOnly(e)
    ensures var op := WithLow(Sized(WithReg(0xB000, d), w), e); PlanOf(op) == Known(Ea(op, Bits(w)))
    ensures var op := WithLow(Sized(WithReg(0xB100, d), w), e);
            PlanOf(op) == Known(if Mode(e) == 1 then 0 else Ea(op, Bits(w)))
  {
    CompareBits(d, 0, w, e);
    CompareBits(d, 1, w, e);
    hide Ea, Top, Match, Size, OpMode, Mode;
  }

  lemma CmpMPlan(w: Width, y: Three, x: Three)
    ensures PlanOf(WithLow(Sized(WithReg(0xB108, x), w), y)) == Known(0)
  {
    hide Ea, Plan4;
  }

  lemma DecimalPlans(m: Bit, y: Three, x: Three)
    ensures PlanOf(WithLow(WithReg(0x8100, x), (m << 3) | y)) == Known(0)
    ensures PlanOf(WithLow(WithReg(0xC100, x), (m << 3) | y)) == Known(0)
  {
    hide Ea, Plan4;
  }

  lemma ExtendedPlans(w: Width, m: Bit, y: Three, x: Three)
    ensures PlanOf(WithLow(Sized(WithReg(0x9100, x), w), (m << 3) | y)) == Known(0)
    ensures PlanOf(WithLow(Sized(WithReg(0xD100, x), w), (m << 3) | y)) == Known(0)
  {
    hide Ea, Plan4;
  }

  lemma ExchangePlan(k: ExchangeKind, x: Three, y: Three)
    ensures PlanOf(WithLow(WithReg(ExchangeOpcode(k), x), y)) == Known(0)
  {
    hide Ea, Plan4;
  }

  lemma QuickPlan(sub: Bit, d: Three, w: Width, e: bv16)
    requires LowOnly(e)
    ensures var op := WithLow(Sized(WithFlag(WithReg(0x5000, d), sub), w), e); PlanOf(op) == Known(Ea(op, Bits(w)))
  {
    QuickBits(sub, d, w, e);
    hide Ea, Top, Match, Size;
  }

  lemma ConditionPlan(cc: Four, e: bv16)
    requires LowOnly(e) && Mode(e) != 1
    ensures var op := WithLow(WithCondition(0x50C0, cc), e); PlanOf(op) == Known(Ea(op, 0))
  {
    ConditionBits(cc, e);
    hide Ea, Top, Match, Size, Mode;
  }

  /** An instruction with an operand in its low bits and so many words in front of its. */
  lemma WithOperand(i: Instruction, b: bv16, ea: Operand, w: Width, front: nat)
    requires LowClear(b) && Suits(ea, w)
    requires Opcode(i) == WithLow(b, Low(ea)) && |Extra(i)| == front + |WordsOf(ea)|
    requires PlanOf(WithLow(b, Low(ea))) == Known(2 * front + Ea(WithLow(b, Low(ea)), Bits(w)))
    ensures Decodes(i)
  {
    hide *;
    ReadsOperand(b, ea, w);
    DecodesIs(i);
    KnownIs(2 * front + Ea(WithLow(b, Low(ea)), Bits(w)));
  }

  lemma DecodesIs(i: Instruction)
    ensures Decodes(i) <==> PlanOf(Opcode(i)) == Known(2 * |Extra(i)|)
  {
    hide PlanOf, Opcode, Extra;
  }

  lemma KnownIs(n: nat)
    ensures Known(n) == Plan(true, n)
  {
  }

  lemma ByteIsZero()
    ensures Bits(Byte) == 0 && Bits(Word) == 1 && Bits(Long) == 2
  {
  }

  lemma UnaryForm(k: UnaryKind, w: Width, ea: Operand)
    requires Proper(Unary(k, w, ea))
    ensures Opcode(Unary(k, w, ea)) == WithLow(Sized(UnaryOpcode(k), w), Low(ea))
    ensures LowClear(Sized(UnaryOpcode(k), w)) && Suits(ea, w) && |Extra(Unary(k, w, ea))| == |WordsOf(ea)|
  {
    hide Low, Suits, WordsOf;
  }

  lemma UnaryDecodes(k: UnaryKind, w: Width, ea: Operand)
    requires Proper(Unary(k, w, ea))
    ensures Decodes(Unary(k, w, ea))
  {
    hide *;
    UnaryForm(k, w, ea);
    LowBits(ea, w);
    UnaryPlan(k, w, Low(ea));
    WithOperand(Unary(k, w, ea), Sized(UnaryOpcode(k), w), ea, w, 0);
  }

  lemma EaForm(k: EaKind, ea: Operand)
    requires Proper(OnEa(k, ea))
    ensures Opcode(OnEa(k, ea)) == WithLow(EaOpcode(k), Low(ea))
    ensures LowClear(EaOpcode(k)) && Suits(ea, EaWidth(k)) && |Extra(OnEa(k, ea))| == |WordsOf(ea)|
    ensures (k == Pea ==> !ea.Data?) && (k == Tas ==> EaWidth(k) == Byte && !ea.Immediate16?)
  {
    hide Low, Suits, WordsOf;
  }

  lemma EaDecodes(k: EaKind, ea: Operand)
    requires Proper(OnEa(k, ea))
    ensures Decodes(OnEa(k, ea))
  {
    hide *;
    EaForm(k, ea);
    LowBits(ea, EaWidth(k));
    EaPlan(k, Low(ea));
    WithOperand(OnEa(k, ea), EaOpcode(k), ea, EaWidth(k), 0);
  }

  lemma EaRegForm(k: EaRegKind, ea: Operand, r: Three)
    requires Proper(EaToReg(k, ea, r))
    ensures Opcode(EaToReg(k, ea, r)) == WithLow(WithReg(EaRegOpcode(k), r), Low(ea))
    ensures LowClear(WithReg(EaRegOpcode(k), r)) && Suits(ea, EaRegWidth(k))
            && |Extra(EaToReg(k, ea, r))| == |WordsOf(ea)|
    ensures k == Lea && ea.Data? ==> r != 4
  {
    hide Low, Suits, WordsOf;
  }

  lemma EaRegDecodes(k: EaRegKind, ea: Operand, r: Three)
    requires Proper(EaToReg(k, ea, r))
    ensures Decodes(EaToReg(k, ea, r))
  {
    hide *;
    EaRegForm(k, ea, r);
    LowBits(ea, EaRegWidth(k));
    EaRegPlan(k, Low(ea), r);
    WithOperand(EaToReg(k, ea, r), WithReg(EaRegOpcode(k), r), ea, EaRegWidth(k), 0);
  }

  lemma MoveMForm(d: Bit, w: Width, mask: word, ea: Operand)
    requires Proper(MoveM(d, w, mask, ea))
    ensures Opcode(MoveM(d, w, mask, ea)) == WithLow(MoveMOpcode(d, w), Low(ea))
    ensures LowClear(MoveMOpcode(d, w)) && Suits(ea, w) && |Extra(MoveM(d, w, mask, ea))| == 1 + |WordsOf(ea)|
    ensures w != Byte && (ea.Data? ==> d == 1)
  {
    hide Low, Suits, WordsOf;
  }

  lemma MoveMDecodes(d: Bit, w: Width, mask: word, ea: Operand)
    requires Proper(MoveM(d, w, mask, ea))
    ensures Decodes(MoveM(d, w, mask, ea))
  {
    hide *;
    MoveMForm(d, w, mask, ea);
    LowBits(ea, w);
    MoveMPlan(d, w, Low(ea));
    WithOperand(MoveM(d, w, mask, ea), MoveMOpcode(d, w), ea, w, 1);
  }

  lemma BitByRegForm(op: Two, d: Three, ea: Operand)
    requires Proper(BitByReg(op, d, ea))
    ensures Opcode(BitByReg(op, d, ea)) == WithLow(WithKind(WithReg(0x0100, d), op), Low(ea))
    ensures LowClear(WithKind(WithReg(0x0100, d), op)) && Suits(ea, Byte)
            && |Extra(BitByReg(op, d, ea))| == |WordsOf(ea)|
    ensures !ea.Address?
  {
    hide Low, Suits, WordsOf;
  }

  lemma BitByRegDecodes(op: Two, d: Three, ea: Operand)
    requires Proper(BitByReg(op, d, ea))
    ensures Decodes(BitByReg(op, d, ea))
  {
    hide *;
    BitByRegForm(op, d, ea);
    LowBits(ea, Byte);
    BitPlans(d, op, Low(ea));
    ByteIsZero();
    WithOperand(BitByReg(op, d, ea), WithKind(WithReg(0x0100, d), op), ea, Byte, 0);
  }

  lemma BitByNumberForm(op: Two, n: word, ea: Operand)
    requires Proper(BitByNumber(op, n, ea))
    ensures Opcode(BitByNumber(op, n, ea)) == WithLow(WithKind(0x0800, op), Low(ea))
    ensures LowClear(WithKind(0x0800, op)) && Suits(ea, Byte) && |Extra(BitByNumber(op, n, ea))| == 1 + |WordsOf(ea)|
  {
    hide Low, Suits, WordsOf;
  }

  lemma BitByNumberDecodes(op: Two, n: word, ea: Operand)
    requires Proper(BitByNumber(op, n, ea))
    ensures Decodes(BitByNumber(op, n, ea))
  {
    hide *;
    BitByNumberForm(op, n, ea);
    LowBits(ea, Byte);
    BitPlans(0, op, Low(ea));
    ByteIsZero();
    WithOperand(BitByNumber(op, n, ea), WithKind(0x0800, op), ea, Byte, 1);
  }

  lemma ImmediateForm(k: ImmediateKind, w: Width, v: seq<word>, ea: Operand)
    requires Proper(WithImmediate(k, w, v, ea))
    ensures Opcode(WithImmediate(k, w, v, ea)) == WithLow(Sized(ImmediateOpcode(k), w), Low(ea))
    ensures LowClear(Sized(ImmediateOpcode(k), w)) && Suits(ea, w)
            && |Extra(WithImmediate(k, w, v, ea))| == |v| + |WordsOf(ea)|
    ensures |v| == (if w == Long then 2 else 1) && !(HasStatusForm(k) && ea.Immediate16?)
  {
    hide Low, Suits, WordsOf;
  }

  lemma ImmediateDecodes(k: ImmediateKind, w: Width, v: seq<word>, ea: Operand)
    requires Proper(WithImmediate(k, w, v, ea))
    ensures Decodes(WithImmediate(k, w, v, ea))
  {
    hide *;
    ImmediateForm(k, w, v, ea);
    LowBits(ea, w);
    ImmediatePlan(k, w, Low(ea));
    WithOperand(WithImmediate(k, w, v, ea), Sized(ImmediateOpcode(k), w), ea, w, |v|);
  }

  lemma QuickForm(sub: Bit, d: Three, w: Width, ea: Operand)
    requires Proper(Quick(sub, d, w, ea))
    ensures Opcode(Quick(sub, d, w, ea)) == WithLow(Sized(WithFlag(WithReg(0x5000, d), sub), w), Low(ea))
    ensures LowClear(Sized(WithFlag(WithReg(0x5000, d), sub), w)) && Suits(ea, w)
            && |Extra(Quick(sub, d, w, ea))| == |WordsOf(ea)|
  {
    hide Low, Suits, WordsOf;
  }

  lemma QuickDecodes(sub: Bit, d: Three, w: Width, ea: Operand)
    requires Proper(Quick(sub, d, w, ea))
    ensures Decodes(Quick(sub, d, w, ea))
  {
    hide *;
    QuickForm(sub, d, w, ea);
    LowBits(ea, w);
    QuickPlan(sub, d, w, Low(ea));
    WithOperand(Quick(sub, d, w, ea), Sized(WithFlag(WithReg(0x5000, d), sub), w), ea, w, 0);
  }

  lemma SccForm(cc: Four, ea: Operand)
    requires Proper(Scc(cc, ea))
    ensures Opcode(Scc(cc, ea)) == WithLow(WithCondition(0x50C0, cc), Low(ea))
    ensures LowClear(WithCondition(0x50C0, cc)) && Suits(ea, Byte) && |Extra(Scc(cc, ea))| == |WordsOf(ea)|
    ensures !ea.Address?
  {
    hide Low, Suits, WordsOf;
  }

  lemma SccDecodes(cc: Four, ea: Operand)
    requires Proper(Scc(cc, ea))
    ensures Decodes(Scc(cc, ea))
  {
    hide *;
    SccForm(cc, ea);
    LowBits(ea, Byte);
    ConditionPlan(cc, Low(ea));
    ByteIsZero();
    WithOperand(Scc(cc, ea), WithCondition(0x50C0, cc), ea, Byte, 0);
  }

  lemma BinaryForm(k: BinaryKind, toEa: Bit, w: Width, ea: Operand, d: Three)
    requires Proper(Binary(k, toEa, w, ea, d))
    ensures Opcode(Binary(k, toEa, w, ea, d)) == WithLow(Sized(WithFlag(WithReg(BinaryOpcode(k), d), toEa), w), Low(ea))
    ensures LowClear(Sized(WithFlag(WithReg(BinaryOpcode(k), d), toEa), w)) && Suits(ea, w)
            && |Extra(Binary(k, toEa, w, ea, d))| == |WordsOf(ea)|
    ensures toEa == 1 ==>
              !((ea.Data? && (k != OrKind || w == Byte) && (k != AndKind || w != Long))
                || (ea.Address? && (k != OrKind || w == Byte)))
  {
    hide Low, Suits, WordsOf;
  }

  lemma BinaryDecodes(k: BinaryKind, toEa: Bit, w: Width, ea: Operand, d: Three)
    requires Proper(Binary(k, toEa, w, ea, d))
    ensures Decodes(Binary(k, toEa, w, ea, d))
  {
    hide *;
    BinaryForm(k, toEa, w, ea, d);
    LowBits(ea, w);
    BinaryPlan(k, d, toEa, w, Low(ea));
    WithOperand(Binary(k, toEa, w, ea, d), Sized(WithFlag(WithReg(BinaryOpcode(k), d), toEa), w), ea, w, 0);
  }

  lemma CmpForm(w: Width, ea: Operand, d: Three)
    requires Proper(Cmp(w, ea, d))
    ensures Opcode(Cmp(w, ea, d)) == WithLow(Sized(WithReg(0xB000, d), w), Low(ea))
    ensures LowClear(Sized(WithReg(0xB000, d), w)) && Suits(ea, w) && |Extra(Cmp(w, ea, d))| == |WordsOf(ea)|
  {
    hide Low, Suits, WordsOf;
  }

  lemma CmpDecodes(w: Width, ea: Operand, d: Three)
    requires Proper(Cmp(w, ea, d))
    ensures Decodes(Cmp(w, ea, d))
  {
    hide *;
    CmpForm(w, ea, d);
    LowBits(ea, w);
    ComparePlans(w, d, Low(ea));
    WithOperand(Cmp(w, ea, d), Sized(WithReg(0xB000, d), w), ea, w, 0);
  }

  lemma EorForm(w: Width, d: Three, ea: Operand)
    requires Proper(Eor(w, d, ea))
    ensures Opcode(Eor(w, d, ea)) == WithLow(Sized(WithReg(0xB100, d), w), Low(ea))
    ensures LowClear(Sized(WithReg(0xB100, d), w)) && Suits(ea, w) && |Extra(Eor(w, d, ea))| == |WordsOf(ea)|
    ensures !ea.Address?
  {
    hide Low, Suits, WordsOf;
  }

  lemma EorDecodes(w: Width, d: Three, ea: Operand)
    requires Proper(Eor(w, d, ea))
    ensures Decodes(Eor(w, d, ea))
  {
    hide *;
    EorForm(w, d, ea);
    LowBits(ea, w);
    ComparePlans(w, d, Low(ea));
    WithOperand(Eor(w, d, ea), Sized(WithReg(0xB100, d), w), ea, w, 0);
  }

  lemma ShiftEaForm(k: Three, left: Bit, ea: Operand)
    requires Proper(ShiftEa(k, left, ea))
    ensures Opcode(ShiftEa(k, left, ea)) == WithLow(WithFlag(WithReg(0xE0C0, k), left), Low(ea))
    ensures LowClear(WithFlag(WithReg(0xE0C0, k), left)) && Suits(ea, Word)
            && |Extra(ShiftEa(k, left, ea))| == |WordsOf(ea)|
  {
    hide Low, Suits, WordsOf;
  }

  lemma ShiftEaDecodes(k: Three, left: Bit, ea: Operand)
    requires Proper(ShiftEa(k, left, ea))
    ensures Decodes(ShiftEa(k, left, ea))
  {
    hide *;
    ShiftEaForm(k, left, ea);
    LowBits(ea, Word);
    ShiftPlans(k, left, Byte, Low(ea));
    ByteIsZero();
    WithOperand(ShiftEa(k, left, ea), WithFlag(WithReg(0xE0C0, k), left), ea, Word, 0);
  }

  lemma MovePlanIs(op: bv16)
    requires Top(op) == 1 || Top(op) == 2 || Top(op) == 3
    ensures OpMode(op) != 1 ==>
              PlanOf(op) == Known(EaBytes(Mode(op), Reg(op), MoveSize(op)) + EaBytes(OpMode(op), Sub(op), MoveSize(op)))
    ensures OpMode(op) == 1 && MoveSize(op) != 0 ==> PlanOf(op) == Known(EaBytes(Mode(op), Reg(op), MoveSize(op)))
  {
    hide Top, Mode, Reg, OpMode, Sub, MoveSize, EaBytes;
  }

  lemma MoveForm(w: Width, s: Operand, t: Operand)
    requires Proper(Move(w, s, t))
    ensures Opcode(Move(w, s, t)) == WithLow(MoveTarget(w, ModeOf(t), RegOf(t)), Low(s))
    ensures Suits(s, w) && Suits(t, w) && ModeOf(t) != 1
    ensures |Extra(Move(w, s, t))| == |WordsOf(s)| + |WordsOf(t)|
  {
    hide Low, RegOf, WordsOf, MoveOpcode, Suits;
  }

  lemma MoveDecodes(w: Width, s: Operand, t: Operand)
    requires Proper(Move(w, s, t))
    ensures Decodes(Move(w, s, t))
  {
    hide *;
    MoveForm(w, s, t);
    LowBits(s, w);
    LowBits(t, w);
    MoveBits(w, ModeOf(t), RegOf(t), Low(s));
    OperandBytes(s, w);
    OperandBytes(t, w);
    MovePlanIs(Opcode(Move(w, s, t)));
    DecodesIs(Move(w, s, t));
  }

  lemma MoveAForm(w: Width, s: Operand, r: Three)
    requires Proper(MoveA(w, s, r))
    ensures Opcode(MoveA(w, s, r)) == WithLow(MoveTarget(w, 1, r), Low(s))
    ensures Suits(s, w) && Bits(w) != 0 && |Extra(MoveA(w, s, r))| == |WordsOf(s)|
  {
    hide Low, WordsOf, MoveOpcode, Suits;
  }

  lemma MoveADecodes(w: Width, s: Operand, r: Three)
    requires Proper(MoveA(w, s, r))
    ensures Decodes(MoveA(w, s, r))
  {
    hide *;
    MoveAForm(w, s, r);
    LowBits(s, w);
    MoveBits(w, 1, r, Low(s));
    OperandBytes(s, w);
    MovePlanIs(Opcode(MoveA(w, s, r)));
    DecodesIs(MoveA(w, s, r));
  }

  lemma BranchForms(cc: Four)
    ensures 0x6000 | (cc << 8) == 0x6000 | (cc << 8) | 0 && 0x60FF | (cc << 8) == 0x6000 | (cc << 8) | 0xFF
  {
  }

  lemma SixIsLow(e: Six)
    ensures LowOnly(e)
  {
  }

  lemma MovePDecodes(m: Three, d: Three, r: Three, x: word)
    requires m >= 4
    ensures Decodes(MoveP(m, d, r, x))
  {
    hide PlanOf, Low, LowOnly, Suits, ModeOf, RegOf, WordsOf, Bits, WithLow, Sized, WithReg, WithFlag;
    MovePPlan(m, d, r);
  }

  lemma ToStatusDecodes(k: ImmediateKind, sr: Bit, v: word)
    requires HasStatusForm(k)
    ensures Decodes(ToStatus(k, sr, v))
  {
    hide PlanOf, Low, LowOnly, Suits, ModeOf, RegOf, WordsOf, Bits, WithLow, Sized, WithReg, WithFlag;
    StatusPlan(k, sr);
  }

  lemma DbccDecodes(cc: Four, r: Three, d: word)
    ensures Decodes(DBcc(cc, r, d))
  {
    hide PlanOf, Low, LowOnly, Suits, ModeOf, RegOf, WordsOf, Bits, WithLow, Sized, WithReg, WithFlag;
    DbccPlan(cc, r);
  }

  lemma MoveQDecodes(d: Three, v: Eight)
    ensures Decodes(MoveQ(d, v))
  {
    hide PlanOf, Low, LowOnly, Suits, ModeOf, RegOf, WordsOf, Bits, WithLow, Sized, WithReg, WithFlag;
    MoveQPlan(d, v);
  }

  lemma CmpMDecodes(w: Width, y: Three, x: Three)
    ensures Decodes(CmpM(w, y, x))
  {
    hide PlanOf, Low, LowOnly, Suits, ModeOf, RegOf, WordsOf, Bits, WithLow, Sized, WithReg, WithFlag;
    CmpMPlan(w, y, x);
  }

  lemma DecimalDecodes(add: Bit, m: Bit, y: Three, x: Three)
    ensures Decodes(Decimal(add, m, y, x))
  {
    hide PlanOf, Low, LowOnly, Suits, ModeOf, RegOf, WordsOf, Bits, WithLow, Sized, WithReg, WithFlag;
    DecimalPlans(m, y, x);
  }

  lemma ExtendedDecodes(add: Bit, w: Width, m: Bit, y: Three, x: Three)
    ensures Decodes(Extended(add, w, m, y, x))
  {
    hide PlanOf, Low, LowOnly, Suits, ModeOf, RegOf, WordsOf, Bits, WithLow, Sized, WithReg, WithFlag;
    ExtendedPlans(w, m, y, x);
  }

  lemma ExgDecodes(k: ExchangeKind, x: Three, y: Three)
    ensures Decodes(Exg(k, x, y))
  {
    hide PlanOf, Low, LowOnly, Suits, ModeOf, RegOf, WordsOf, Bits, WithLow, Sized, WithReg, WithFlag;
    ExchangePlan(k, x, y);
  }

  lemma EmulatedDecodes(line: Bit, low: Twelve)
    ensures Decodes(Emulated(line, low))
  {
    hide PlanOf, Low, LowOnly, Suits, ModeOf, RegOf, WordsOf, Bits, WithLow, Sized, WithReg, WithFlag;
    EmulatedPlan(line, low);
  }

  lemma ShiftRegDecodes(c: Three, left: Bit, w: Width, rest: Six)
    ensures Decodes(ShiftReg(c, left, w, rest))
  {
    hide PlanOf, Low, LowOnly, Suits, ModeOf, RegOf, WordsOf, Bits, WithLow, Sized, WithReg, WithFlag;
    SixIsLow(rest);
    ShiftPlans(c, left, w, rest);
  }

  lemma BranchSDecodes(cc: Four, d: Eight)
    requires d != 0 && d != 0xFF
    ensures Decodes(BranchS(cc, d))
  {
    hide PlanOf, Low, LowOnly, Suits, ModeOf, RegOf, WordsOf, Bits, WithLow, Sized, WithReg, WithFlag;
    BranchPlan(cc, d);
  }

  lemma BranchWDecodes(cc: Four, d: word)
    ensures Decodes(BranchW(cc, d))
  {
    hide PlanOf, Low, LowOnly, Suits, ModeOf, RegOf, WordsOf, Bits, WithLow, Sized, WithReg, WithFlag;
    BranchForms(cc);
    BranchPlan(cc, 0);
  }

  lemma BranchLDecodes(cc: Four, hi: word, lo: word)
    ensures Decodes(BranchL(cc, hi, lo))
  {
    hide PlanOf, Low, LowOnly, Suits, ModeOf, RegOf, WordsOf, Bits, WithLow, Sized, WithReg, WithFlag;
    BranchForms(cc);
    BranchPlan(cc, 0xFF);
  }

  /** Every proper instruction is decoded, with the words it was assembled with. */
  lemma InstructionDecodes(i: Instruction)
    requires Proper(i)
    ensures PlanOf(Opcode(i)) == Known(2 * |Extra(i)|)
  {
    hide *;
    ProperForms(i);
    DecodesIs(i);
    if i.Bare? {
      BareDecodes(i.bare);
    } else if i.OnReg? {
      OnRegDecodes(i.reg, i.r);
    } else if i.Trap? {
      TrapDecodes(i.vector);
    } else if i.Stop? {
      StopDecodes(i.status);
    } else if i.Link? {
      LinkDecodes(i.r, i.d);
    } else if i.Unary? {
      UnaryDecodes(i.unary, i.width, i.ea);
    } else if i.OnEa? {
      EaDecodes(i.one, i.ea);
    } else if i.EaToReg? {
      EaRegDecodes(i.kind, i.ea, i.r);
    } else if i.MoveM? {
      MoveMDecodes(i.toRegs, i.width, i.mask, i.ea);
    } else if i.Move? {
      MoveDecodes(i.width, i.source, i.target);
    } else if i.MoveA? {
      MoveADecodes(i.width, i.source, i.r);
    } else if i.MoveP? {
      MovePDecodes(i.opmode, i.data, i.r, i.d);
    } else if i.BitByReg? {
      BitByRegDecodes(i.op, i.data, i.ea);
    } else if i.BitByNumber? {
      BitByNumberDecodes(i.op, i.number, i.ea);
    } else if i.WithImmediate? {
      ImmediateDecodes(i.imm, i.width, i.value, i.ea);
    } else if i.ToStatus? {
      ToStatusDecodes(i.imm, i.sr, i.v);
    } else if i.Quick? {
      QuickDecodes(i.sub, i.data, i.width, i.ea);
    } else if i.Scc? {
      SccDecodes(i.cc, i.ea);
    } else if i.DBcc? {
      DbccDecodes(i.cc, i.r, i.offset);
    } else if i.BranchS? {
      BranchSDecodes(i.cc, i.short);
    } else if i.BranchW? {
      BranchWDecodes(i.cc, i.offset);
    } else if i.BranchL? {
      BranchLDecodes(i.cc, i.hi, i.lo);
    } else if i.MoveQ? {
      MoveQDecodes(i.data, i.short);
    } else if i.Binary? {
      BinaryDecodes(i.binary, i.toEa, i.width, i.ea, i.data);
    } else if i.Cmp? {
      CmpDecodes(i.width, i.ea, i.data);
    } else if i.Eor? {
      EorDecodes(i.width, i.data, i.ea);
    } else if i.CmpM? {
      CmpMDecodes(i.width, i.y, i.x);
    } else if i.Decimal? {
      DecimalDecodes(i.add, i.memory, i.y, i.x);
    } else if i.Extended? {
      ExtendedDecodes(i.add, i.width, i.memory, i.y, i.x);
    } else if i.Exg? {
      ExgDecodes(i.exchange, i.x, i.y);
    } else if i.ShiftEa? {
      ShiftEaDecodes(i.shift, i.left, i.ea);
    } else if i.ShiftReg? {
      ShiftRegDecodes(i.count, i.left, i.width, i.rest);
    } else {
      EmulatedDecodes(i.line, i.low);
    }
  }

  lemma ProperForms(i: Instruction)
    requires Proper(i)
    ensures (i.MoveP? ==> i.opmode >= 4) && (i.ToStatus? ==> HasStatusForm(i.imm))
    ensures i.BranchS? ==> i.short != 0 && i.short != 0xFF
  {
    hide Suits, IsOtherBinary, HasStatusForm;
  }

  // --------------------------------------------- what is decoded is an instruction

  /** The instruction is proper and these are its opcode and its words. */
  predicate Encodes(i: Instruction, op: bv16, ws: seq<word>) {
    Proper(i) && Opcode(i) == op && Extra(i) == ws
  }

  function WidthOf(size: bv16): Width {
    if size == 0 then Byte else if size == 1 then Word else Long
  }

  function OperandFor(mode: Three, reg: Three, ws: seq<word>): Operand
    requires |ws| <= 2
  {
    if mode == 0 then Data(reg)
    else if mode == 1 then Address(reg)
    else if mode == 2 then Indirect(reg)
    else if mode == 3 then PostIncrement(reg)
    else if mode == 4 then PreDecrement(reg)
    else if mode == 5 && |ws| == 1 then Displaced(reg, ws[0])
    else if mode == 6 && |ws| == 1 then Indexed(reg, ws[0])
    else if reg == 0 && |ws| == 1 then AbsoluteShort(ws[0])
    else if reg == 1 && |ws| == 2 then AbsoluteLong(ws[0], ws[1])
    else if reg == 2 && |ws| == 1 then PcDisplaced(ws[0])
    else if reg == 3 && |ws| == 1 then PcIndexed(ws[0])
    else if reg == 4 && |ws| == 1 then Immediate16(ws[0])
    else if reg == 4 && |ws| == 2 then Immediate32(ws[0], ws[1])
    else Reserved(reg)
  }

  lemma OperandIs(mode: Three, reg: Three, w: Width, ws: seq<word>)
    requires 2 * |ws| == EaBytes(mode, reg, Bits(w))
    ensures var o := OperandFor(mode, reg, ws);
            && Suits(o, w) && ModeOf(o) == mode && RegOf(o) == reg && WordsOf(o) == ws
            && (o.Data? <==> mode == 0) && (o.Address? <==> mode == 1)
            && (o.Immediate16? <==> mode == 7 && reg == 4 && w != Long)
  {
  }

  lemma LowIs(op: bv16, o: Operand)
    requires ModeOf(o) == Mode(op) && RegOf(o) == Reg(op)
    ensures Low(o) == op & 0x3F
  {
    hide ModeOf, RegOf;
  }

  lemma FieldsFit(op: bv16)
    ensures Mode(op) < 8 && Reg(op) < 8 && Sub(op) < 8 && OpMode(op) < 8 && Size(op) < 4
  {
  }

  /** The operand in the low bits of an opcode. */
  lemma OperandAt(op: bv16, w: Width, ws: seq<word>) returns (o: Operand)
    requires 2 * |ws| == Ea(op, Bits(w))
    ensures Suits(o, w) && WordsOf(o) == ws && Low(o) == op & 0x3F
    ensures (o.Data? <==> Mode(op) == 0) && (o.Address? <==> Mode(op) == 1)
    ensures o.Immediate16? <==> Mode(op) == 7 && Reg(op) == 4 && w != Long
  {
    hide *;
    FieldsFit(op);
    EaIs(op, Bits(w));
    o := OperandFor(Mode(op), Reg(op), ws);
    OperandIs(Mode(op), Reg(op), w, ws);
    LowIs(op, o);
  }

  function Flag(op: bv16): bv16 { (op >> 8) & 1 }

  lemma FlagFits(op: bv16)
    ensures Flag(op) < 2
  {
  }

  lemma UnaryIs(k: UnaryKind, w: Width, ea: Operand)
    requires Suits(ea, w)
    ensures Encodes(Unary(k, w, ea), WithLow(Sized(UnaryOpcode(k), w), Low(ea)), WordsOf(ea))
  {
    hide Suits, Low, WordsOf, WithLow, Sized, WithFlag, WithReg, WithKind, WithCondition;
  }

  lemma OnEaIs(k: EaKind, ea: Operand)
    requires Suits(ea, EaWidth(k)) && (k == Pea ==> !ea.Data?) && (k == Tas ==> !ea.Immediate16?)
    ensures Encodes(OnEa(k, ea), WithLow(EaOpcode(k), Low(ea)), WordsOf(ea))
  {
    hide Suits, Low, WordsOf, WithLow, Sized, WithFlag, WithReg, WithKind, WithCondition;
  }

  lemma EaToRegIs(k: EaRegKind, ea: Operand, r: Three)
    requires Suits(ea, EaRegWidth(k)) && (k == Lea && ea.Data? ==> r != 4)
    ensures Encodes(EaToReg(k, ea, r), WithLow(WithReg(EaRegOpcode(k), r), Low(ea)), WordsOf(ea))
  {
    hide Suits, Low, WordsOf, WithLow, Sized, WithFlag, WithReg, WithKind, WithCondition;
  }

  lemma MoveMIs(d: Bit, w: Width, mask: word, ea: Operand)
    requires w != Byte && Suits(ea, w) && (ea.Data? ==> d == 1)
    ensures Encodes(MoveM(d, w, mask, ea), WithLow(MoveMOpcode(d, w), Low(ea)), [mask] + WordsOf(ea))
  {
    hide Suits, Low, WordsOf, WithLow, Sized, WithFlag, WithReg, WithKind, WithCondition;
  }

  lemma BitByRegIs(op: Two, d: Three, ea: Operand)
    requires Suits(ea, Byte) && !ea.Address?
    ensures Encodes(BitByReg(op, d, ea), WithLow(WithKind(WithReg(0x0100, d), op), Low(ea)), WordsOf(ea))
  {
    hide Suits, Low, WordsOf, WithLow, Sized, WithFlag, WithReg, WithKind, WithCondition;
  }

  lemma BitByNumberIs(op: Two, n: word, ea: Operand)
    requires Suits(ea, Byte)
    ensures Encodes(BitByNumber(op, n, ea), WithLow(WithKind(0x0800, op), Low(ea)), [n] + WordsOf(ea))
  {
    hide Suits, Low, WordsOf, WithLow, Sized, WithFlag, WithReg, WithKind, WithCondition;
  }

  lemma WithImmediateIs(k: ImmediateKind, w: Width, v: seq<word>, ea: Operand)
    requires |v| == (if w == Long then 2 else 1) && Suits(ea, w) && !(HasStatusForm(k) && ea.Immediate16?)
    ensures Encodes(WithImmediate(k, w, v, ea), WithLow(Sized(ImmediateOpcode(k), w), Low(ea)), v + WordsOf(ea))
  {
    hide Suits, Low, WordsOf, WithLow, Sized, WithFlag, WithReg, WithKind, WithCondition;
  }

  lemma QuickIs(sub: Bit, d: Three, w: Width, ea: Operand)
    requires Suits(ea, w)
    ensures Encodes(Quick(sub, d, w, ea), WithLow(Sized(WithFlag(WithReg(0x5000, d), sub), w), Low(ea)), WordsOf(ea))
  {
    hide Suits, Low, WordsOf, WithLow, Sized, WithFlag, WithReg, WithKind, WithCondition;
  }

  lemma SccIs(cc: Four, ea: Operand)
    requires Suits(ea, Byte) && !ea.Address?
    ensures Encodes(Scc(cc, ea), WithLow(WithCondition(0x50C0, cc), Low(ea)), WordsOf(ea))
  {
    hide Suits, Low, WordsOf, WithLow, Sized, WithFlag, WithReg, WithKind, WithCondition;
  }

  lemma CmpIs(w: Width, ea: Operand, d: Three)
    requires Suits(ea, w)
    ensures Encodes(Cmp(w, ea, d), WithLow(Sized(WithReg(0xB000, d), w), Low(ea)), WordsOf(ea))
  {
    hide Suits, Low, WordsOf, WithLow, Sized, WithFlag, WithReg, WithKind, WithCondition;
  }

  lemma EorIs(w: Width, d: Three, ea: Operand)
    requires Suits(ea, w) && !ea.Address?
    ensures Encodes(Eor(w, d, ea), WithLow(Sized(WithReg(0xB100, d), w), Low(ea)), WordsOf(ea))
  {
    hide Suits, Low, WordsOf, WithLow, Sized, WithFlag, WithReg, WithKind, WithCondition;
  }

  lemma ShiftEaIs(k: Three, left: Bit, ea: Operand)
    requires Suits(ea, Word)
    ensures Encodes(ShiftEa(k, left, ea), WithLow(WithFlag(WithReg(0xE0C0, k), left), Low(ea)), WordsOf(ea))
  {
    hide Suits, Low, WordsOf, WithLow, Sized, WithFlag, WithReg, WithKind, WithCondition;
  }

  lemma MoveAIs(w: Width, ea: Operand, r: Three)
    requires w != Byte && Suits(ea, w)
    ensures Encodes(MoveA(w, ea, r), WithLow(MoveTarget(w, 1, r), Low(ea)), WordsOf(ea))
  {
    hide Suits, Low, WordsOf, WithLow, Sized, WithFlag, WithReg, WithKind, WithCondition;
  }

  lemma BinaryIs(k: BinaryKind, toEa: Bit, w: Width, ea: Operand, d: Three)
    requires Suits(ea, w)
    requires toEa == 1 ==> !(ea.Data? && (k != OrKind || w == Byte) && (k != AndKind || w != Long))
    requires toEa == 1 ==> !(ea.Address? && (k != OrKind || w == Byte))
    ensures Encodes(Binary(k, toEa, w, ea, d),
                    WithLow(Sized(WithFlag(WithReg(BinaryOpcode(k), d), toEa), w), Low(ea)), WordsOf(ea))
  {
    hide Suits, Low, WordsOf, WithLow, Sized, WithFlag, WithReg, BinaryOpcode;
  }

  lemma MovePIs(m: Three, d: Three, r: Three, x: word)
    requires m >= 4
    ensures Encodes(MoveP(m, d, r, x), 0x0008 | (d << 9) | (m << 6) | r, [x])
  {
    hide Suits, Low, WordsOf, WithLow, Sized, WithFlag, WithReg;
  }

  lemma ToStatusIs(k: ImmediateKind, sr: Bit, v: word)
    requires HasStatusForm(k)
    ensures Encodes(ToStatus(k, sr, v), ImmediateOpcode(k) | 0x3C | (sr << 6), [v])
  {
    hide Suits, Low, WordsOf, WithLow, Sized, WithFlag, WithReg;
  }

  lemma DBccIs(cc: Four, r: Three, d: word)
    ensures Encodes(DBcc(cc, r, d), 0x50C8 | (cc << 8) | r, [d])
  {
    hide Suits, Low, WordsOf, WithLow, Sized, WithFlag, WithReg;
  }

  lemma MoveQIs(d: Three, v: Eight)
    ensures Encodes(MoveQ(d, v), 0x7000 | (d << 9) | v, [])
  {
    hide Suits, Low, WordsOf, WithLow, Sized, WithFlag, WithReg;
  }

  lemma EmulatedIs(line: Bit, low: Twelve)
    ensures Encodes(Emulated(line, low), WithLow(if line == 1 then 0xF000 else 0xA000, low), [])
  {
    hide Suits, Low, WordsOf, WithLow, Sized, WithFlag, WithReg;
  }

  lemma ShiftRegIs(c: Three, left: Bit, w: Width, rest: Six)
    ensures Encodes(ShiftReg(c, left, w, rest), WithLow(Sized(WithFlag(WithReg(0xE000, c), left), w), rest), [])
  {
    hide Suits, Low, WordsOf, WithLow, Sized, WithFlag, WithReg;
  }

  lemma CmpMIs(w: Width, y: Three, x: Three)
    ensures Encodes(CmpM(w, y, x), WithLow(Sized(WithReg(0xB108, x), w), y), [])
  {
    hide Suits, Low, WordsOf, WithLow, Sized, WithFlag, WithReg;
  }

  lemma DecimalIs(add: Bit, m: Bit, y: Three, x: Three)
    ensures Encodes(Decimal(add, m, y, x), WithLow(WithReg(if add == 1 then 0xC100 else 0x8100, x), (m << 3) | y), [])
  {
    hide Suits, Low, WordsOf, WithLow, Sized, WithFlag, WithReg;
  }

  lemma ExtendedIs(add: Bit, w: Width, m: Bit, y: Three, x: Three)
    ensures Encodes(Extended(add, w, m, y, x),
                    WithLow(Sized(WithReg(if add == 1 then 0xD100 else 0x9100, x), w), (m << 3) | y), [])
  {
    hide Suits, Low, WordsOf, WithLow, Sized, WithFlag, WithReg;
  }

  lemma ExgIs(k: ExchangeKind, x: Three, y: Three)
    ensures Encodes(Exg(k, x, y), WithLow(WithReg(ExchangeOpcode(k), x), y), [])
  {
    hide Suits, Low, WordsOf, WithLow, Sized, WithFlag, WithReg;
  }

  lemma OnRegIs(k: RegKind, r: Three)
    ensures Encodes(OnReg(k, r), WithLow(RegOpcode(k), r), [])
  {
    hide Suits, Low, WordsOf, WithLow, Sized, WithFlag, WithReg;
  }

  lemma LinkIs(r: Three, d: word)
    ensures Encodes(Link(r, d), 0x4E50 | r, [d])
  {
    hide Suits, Low, WordsOf, WithLow, Sized, WithFlag, WithReg;
  }

  lemma TrapIs(v: Four)
    ensures Encodes(Trap(v), 0x4E40 | v, [])
  {
    hide Suits, Low, WordsOf, WithLow, Sized, WithFlag, WithReg;
  }

  lemma UnaryFromBits(k: UnaryKind, op: bv16)
    requires Match(op, 0xFF00, UnaryOpcode(k)) && Size(op) != 3
    ensures op == WithLow(Sized(UnaryOpcode(k), WidthOf(Size(op))), op & 0x3F)
    ensures Bits(WidthOf(Size(op))) == Size(op)
  {
  }

  lemma UnaryAt(k: UnaryKind, op: bv16, ws: seq<word>) returns (i: Instruction)
    requires Match(op, 0xFF00, UnaryOpcode(k)) && Size(op) != 3 && 2 * |ws| == Ea(op, Size(op))
    ensures Encodes(i, op, ws)
  {
    hide *;
    FieldsFit(op);
    FlagFits(op);
    UnaryFromBits(k, op);
    var o := OperandAt(op, WidthOf(Size(op)), ws);
    UnaryIs(k, WidthOf(Size(op)), o);
    i := Unary(k, WidthOf(Size(op)), o);
  }

  lemma EaFromBits(k: EaKind, op: bv16)
    requires Match(op, 0xFFC0, EaOpcode(k))
    requires (k == Pea ==> Mode(op) != 0) && (k == Tas ==> op != 0x4AFC)
    ensures op == WithLow(EaOpcode(k), op & 0x3F)
    ensures k == Tas ==> !(Mode(op) == 7 && Reg(op) == 4)
  {
  }

  lemma EaAt(k: EaKind, op: bv16, ws: seq<word>) returns (i: Instruction)
    requires Match(op, 0xFFC0, EaOpcode(k)) && 2 * |ws| == Ea(op, Bits(EaWidth(k)))
    requires (k == Pea ==> Mode(op) != 0) && (k == Tas ==> op != 0x4AFC)
    ensures Encodes(i, op, ws)
  {
    hide *;
    FieldsFit(op);
    FlagFits(op);
    EaFromBits(k, op);
    var o := OperandAt(op, EaWidth(k), ws);
    OnEaIs(k, o);
    i := OnEa(k, o);
  }

  lemma EaRegFromBits(k: EaRegKind, op: bv16)
    requires Match(op, 0xF1C0, EaRegOpcode(k))
    requires !(k == Lea && Mode(op) == 0 && Sub(op) == 4)
    ensures op == WithLow(WithReg(EaRegOpcode(k), Sub(op)), op & 0x3F)
  {
  }

  lemma EaRegAt(k: EaRegKind, op: bv16, ws: seq<word>) returns (i: Instruction)
    requires Match(op, 0xF1C0, EaRegOpcode(k)) && 2 * |ws| == Ea(op, Bits(EaRegWidth(k)))
    requires !(k == Lea && Mode(op) == 0 && Sub(op) == 4)
    ensures Encodes(i, op, ws)
  {
    hide *;
    FieldsFit(op);
    FlagFits(op);
    EaRegFromBits(k, op);
    var o := OperandAt(op, EaRegWidth(k), ws);
    EaToRegIs(k, o, Sub(op));
    i := EaToReg(k, o, Sub(op));
  }

  lemma MoveMFromBits(op: bv16)
    requires Match(op, 0xFB80, 0x4880)
    requires Mode(op) == 0 ==> !Match(op, 0x0400, 0)
    ensures Bits(Word) == 1 && Bits(Long) == 2
    ensures var d := (op >> 10) & 1;
            && d < 2 && (Match(op, 0x0400, 0) <==> d == 0)
            && op == WithLow(MoveMOpcode(d, if Match(op, 0x0040, 0) then Word else Long), op & 0x3F)
  {
  }

  lemma MoveMAt(op: bv16, ws: seq<word>) returns (i: Instruction)
    requires Match(op, 0xFB80, 0x4880) && 2 * |ws| == 2 + Ea(op, if Match(op, 0x0040, 0) then 1 else 2)
    requires Mode(op) == 0 ==> !Match(op, 0x0400, 0)
    ensures Encodes(i, op, ws)
  {
    hide *;
    FieldsFit(op);
    FlagFits(op);
    MoveMFromBits(op);
    assert ws == [ws[0]] + ws[1..];
    var o := OperandAt(op, if Match(op, 0x0040, 0) then Word else Long, ws[1..]);
    MoveMIs((op >> 10) & 1, if Match(op, 0x0040, 0) then Word else Long, ws[0], o);
    i := MoveM((op >> 10) & 1, if Match(op, 0x0040, 0) then Word else Long, ws[0], o);
  }

  lemma BitByRegFromBits(op: bv16)
    requires Top(op) == 0 && !Match(op, 0x0100, 0) && Mode(op) != 1
    ensures op == WithLow(WithKind(WithReg(0x0100, Sub(op)), Size(op)), op & 0x3F)
    ensures Bits(Byte) == 0
  {
  }

  lemma BitByRegAt(op: bv16, ws: seq<word>) returns (i: Instruction)
    requires Top(op) == 0 && !Match(op, 0x0100, 0) && Mode(op) != 1 && 2 * |ws| == Ea(op, 0)
    ensures Encodes(i, op, ws)
  {
    hide *;
    FieldsFit(op);
    FlagFits(op);
    BitByRegFromBits(op);
    var o := OperandAt(op, Byte, ws);
    BitByRegIs(Size(op), Sub(op), o);
    i := BitByReg(Size(op), Sub(op), o);
  }

  lemma BitByNumberFromBits(op: bv16)
    requires Top(op) == 0 && Match(op, 0x0100, 0) && Sub(op) == 4
    ensures op == WithLow(WithKind(0x0800, Size(op)), op & 0x3F)
    ensures Bits(Byte) == 0
  {
  }

  lemma BitByNumberAt(op: bv16, ws: seq<word>) returns (i: Instruction)
    requires Top(op) == 0 && Match(op, 0x0100, 0) && Sub(op) == 4 && 2 * |ws| == 2 + Ea(op, 0)
    ensures Encodes(i, op, ws)
  {
    hide *;
    FieldsFit(op);
    FlagFits(op);
    BitByNumberFromBits(op);
    assert ws == [ws[0]] + ws[1..];
    var o := OperandAt(op, Byte, ws[1..]);
    BitByNumberIs(Size(op), ws[0], o);
    i := BitByNumber(Size(op), ws[0], o);
  }

  lemma ImmediateFromBits(k: ImmediateKind, op: bv16)
    requires Top(op) == 0 && Match(op, 0x0100, 0) && Sub(op) == ImmediateOpcode(k) >> 9 && Size(op) != 3
    requires HasStatusForm(k) ==> op != ImmediateOpcode(k) | 0x3C && op != ImmediateOpcode(k) | 0x7C
    ensures op == WithLow(Sized(ImmediateOpcode(k), WidthOf(Size(op))), op & 0x3F)
    ensures Bits(WidthOf(Size(op))) == Size(op)
    ensures Mode(op) == 7 && Reg(op) == 4 ==> Size(op) == 2 || !HasStatusForm(k)
    ensures ImmediateBytes(Size(op)) == (if Size(op) == 2 then 4 else 2)
            && (WidthOf(Size(op)) == Long <==> Size(op) == 2)
  {
  }

  lemma ImmediateAt(k: ImmediateKind, op: bv16, ws: seq<word>) returns (i: Instruction)
    requires Top(op) == 0 && Match(op, 0x0100, 0) && Sub(op) == ImmediateOpcode(k) >> 9 && Size(op) != 3
    requires 2 * |ws| == ImmediateBytes(Size(op)) + Ea(op, Size(op))
    requires HasStatusForm(k) ==> op != ImmediateOpcode(k) | 0x3C && op != ImmediateOpcode(k) | 0x7C
    ensures Encodes(i, op, ws)
  {
    hide *;
    FieldsFit(op);
    FlagFits(op);
    ImmediateFromBits(k, op);
    assert var n := if Size(op) == 2 then 2 else 1; ws == ws[..n] + ws[n..];
    var o := OperandAt(op, WidthOf(Size(op)), ws[if Size(op) == 2 then 2 else 1..]);
    WithImmediateIs(k, WidthOf(Size(op)), ws[..if Size(op) == 2 then 2 else 1], o);
    i := WithImmediate(k, WidthOf(Size(op)), ws[..if Size(op) == 2 then 2 else 1], o);
  }

  lemma QuickFromBits(op: bv16)
    requires Top(op) == 5 && Size(op) != 3
    ensures op == WithLow(Sized(WithFlag(WithReg(0x5000, Sub(op)), Flag(op)), WidthOf(Size(op))), op & 0x3F)
    ensures Bits(WidthOf(Size(op))) == Size(op)
  {
  }

  lemma QuickAt(op: bv16, ws: seq<word>) returns (i: Instruction)
    requires Top(op) == 5 && Size(op) != 3 && 2 * |ws| == Ea(op, Size(op))
    ensures Encodes(i, op, ws)
  {
    hide *;
    FieldsFit(op);
    FlagFits(op);
    QuickFromBits(op);
    var o := OperandAt(op, WidthOf(Size(op)), ws);
    QuickIs(Flag(op), Sub(op), WidthOf(Size(op)), o);
    i := Quick(Flag(op), Sub(op), WidthOf(Size(op)), o);
  }

  lemma SccFromBits(op: bv16)
    requires Top(op) == 5 && Size(op) == 3 && Mode(op) != 1
    ensures var cc := (op >> 8) & 15; cc < 16 && op == WithLow(WithCondition(0x50C0, cc), op & 0x3F)
    ensures Bits(Byte) == 0
  {
  }

  lemma SccAt(op: bv16, ws: seq<word>) returns (i: Instruction)
    requires Top(op) == 5 && Size(op) == 3 && Mode(op) != 1 && 2 * |ws| == Ea(op, 0)
    ensures Encodes(i, op, ws)
  {
    hide *;
    FieldsFit(op);
    FlagFits(op);
    SccFromBits(op);
    var o := OperandAt(op, Byte, ws);
    SccIs((op >> 8) & 15, o);
    i := Scc((op >> 8) & 15, o);
  }

  lemma BinaryFromBits(k: BinaryKind, op: bv16)
    requires Top(op) == BinaryOpcode(k) >> 12 && Size(op) != 3
    requires OpMode(op) >= 4 ==> !(Mode(op) == 0 && (k != OrKind || Size(op) == 0) && (k != AndKind || Size(op) != 2))
    requires OpMode(op) >= 4 ==> !(Mode(op) == 1 && (k != OrKind || Size(op) == 0))
    ensures op == WithLow(Sized(WithFlag(WithReg(BinaryOpcode(k), Sub(op)), Flag(op)), WidthOf(Size(op))), op & 0x3F)
    ensures Bits(WidthOf(Size(op))) == Size(op)
    ensures Flag(op) == 1 <==> OpMode(op) >= 4
    ensures (WidthOf(Size(op)) == Byte <==> Size(op) == 0) && (WidthOf(Size(op)) == Long <==> Size(op) == 2)
  {
  }

  lemma BinaryAt(k: BinaryKind, op: bv16, ws: seq<word>) returns (i: Instruction)
    requires Top(op) == BinaryOpcode(k) >> 12 && Size(op) != 3 && 2 * |ws| == Ea(op, Size(op))
    requires OpMode(op) >= 4 ==> !(Mode(op) == 0 && (k != OrKind || Size(op) == 0) && (k != AndKind || Size(op) != 2))
    requires OpMode(op) >= 4 ==> !(Mode(op) == 1 && (k != OrKind || Size(op) == 0))
    ensures Encodes(i, op, ws)
  {
    hide *;
    FieldsFit(op);
    FlagFits(op);
    BinaryFromBits(k, op);
    var o := OperandAt(op, WidthOf(Size(op)), ws);
    BinaryIs(k, Flag(op), WidthOf(Size(op)), o, Sub(op));
    i := Binary(k, Flag(op), WidthOf(Size(op)), o, Sub(op));
  }

  lemma CmpFromBits(op: bv16)
    requires Top(op) == 11 && OpMode(op) < 3
    ensures op == WithLow(Sized(WithReg(0xB000, Sub(op)), WidthOf(OpMode(op))), op & 0x3F)
    ensures Bits(WidthOf(OpMode(op))) == OpMode(op)
  {
  }

  lemma CmpAt(op: bv16, ws: seq<word>) returns (i: Instruction)
    requires Top(op) == 11 && OpMode(op) < 3 && 2 * |ws| == Ea(op, OpMode(op))
    ensures Encodes(i, op, ws)
  {
    hide *;
    FieldsFit(op);
    FlagFits(op);
    CmpFromBits(op);
    var o := OperandAt(op, WidthOf(OpMode(op)), ws);
    CmpIs(WidthOf(OpMode(op)), o, Sub(op));
    i := Cmp(WidthOf(OpMode(op)), o, Sub(op));
  }

  lemma EorFromBits(op: bv16)
    requires Top(op) == 11 && 4 <= OpMode(op) < 7 && Mode(op) != 1
    ensures op == WithLow(Sized(WithReg(0xB100, Sub(op)), WidthOf(OpMode(op) - 4)), op & 0x3F)
    ensures Bits(WidthOf(OpMode(op) - 4)) == OpMode(op) - 4
  {
  }

  lemma EorAt(op: bv16, ws: seq<word>) returns (i: Instruction)
    requires Top(op) == 11 && 4 <= OpMode(op) < 7 && Mode(op) != 1 && 2 * |ws| == Ea(op, OpMode(op) - 4)
    ensures Encodes(i, op, ws)
  {
    hide *;
    FieldsFit(op);
    FlagFits(op);
    EorFromBits(op);
    var o := OperandAt(op, WidthOf(OpMode(op) - 4), ws);
    EorIs(WidthOf(OpMode(op) - 4), Sub(op), o);
    i := Eor(WidthOf(OpMode(op) - 4), Sub(op), o);
  }

  lemma ShiftEaFromBits(op: bv16)
    requires Top(op) == 14 && Size(op) == 3
    ensures op == WithLow(WithFlag(WithReg(0xE0C0, Sub(op)), Flag(op)), op & 0x3F)
    ensures Bits(Word) == 1
  {
  }

  lemma ShiftEaAt(op: bv16, ws: seq<word>) returns (i: Instruction)
    requires Top(op) == 14 && Size(op) == 3 && 2 * |ws| == Ea(op, 1)
    ensures Encodes(i, op, ws)
  {
    hide *;
    FieldsFit(op);
    FlagFits(op);
    ShiftEaFromBits(op);
    var o := OperandAt(op, Word, ws);
    ShiftEaIs(Sub(op), Flag(op), o);
    i := ShiftEa(Sub(op), Flag(op), o);
  }

  lemma MoveAFromBits(op: bv16)
    requires 1 <= Top(op) <= 3 && OpMode(op) == 1 && MoveSize(op) != 0
    ensures op == WithLow(MoveTarget(WidthOf(MoveSize(op)), 1, Sub(op)), op & 0x3F)
    ensures Bits(WidthOf(MoveSize(op))) == MoveSize(op) && WidthOf(MoveSize(op)) != Byte
  {
  }

  lemma MoveAAt(op: bv16, ws: seq<word>) returns (i: Instruction)
    requires 1 <= Top(op) <= 3 && OpMode(op) == 1 && MoveSize(op) != 0 && 2 * |ws| == Ea(op, MoveSize(op))
    ensures Encodes(i, op, ws)
  {
    hide *;
    FieldsFit(op);
    FlagFits(op);
    MoveAFromBits(op);
    var o := OperandAt(op, WidthOf(MoveSize(op)), ws);
    MoveAIs(WidthOf(MoveSize(op)), o, Sub(op));
    i := MoveA(WidthOf(MoveSize(op)), o, Sub(op));
  }

  lemma MovePFromBits(op: bv16)
    requires Top(op) == 0 && !Match(op, 0x0100, 0) && Mode(op) == 1
    ensures OpMode(op) >= 4
    ensures op == 0x0008 | (Sub(op) << 9) | (OpMode(op) << 6) | Reg(op)
  {
  }

  lemma MovePAt(op: bv16, ws: seq<word>) returns (i: Instruction)
    requires Top(op) == 0 && !Match(op, 0x0100, 0) && Mode(op) == 1 && |ws| == 1
    ensures Encodes(i, op, ws)
  {
    hide *;
    FieldsFit(op);
    FlagFits(op);
    assert [ws[0]] == ws;
    MovePFromBits(op);
    MovePIs(OpMode(op), Sub(op), Reg(op), ws[0]);
    i := MoveP(OpMode(op), Sub(op), Reg(op), ws[0]);
  }

  lemma ToStatusAt(k: ImmediateKind, sr: Bit, op: bv16, ws: seq<word>) returns (i: Instruction)
    requires HasStatusForm(k) && op == ImmediateOpcode(k) | 0x3C | (sr << 6) && |ws| == 1
    ensures Encodes(i, op, ws)
  {
    hide *;
    FieldsFit(op);
    FlagFits(op);
    assert [ws[0]] == ws;
    ToStatusIs(k, sr, ws[0]);
    i := ToStatus(k, sr, ws[0]);
  }

  lemma DbccFromBits(op: bv16)
    requires Top(op) == 5 && Size(op) == 3 && Mode(op) == 1
    ensures var cc := (op >> 8) & 15; cc < 16 && op == 0x50C8 | (cc << 8) | Reg(op)
  {
  }

  lemma DbccAt(op: bv16, ws: seq<word>) returns (i: Instruction)
    requires Top(op) == 5 && Size(op) == 3 && Mode(op) == 1 && |ws| == 1
    ensures Encodes(i, op, ws)
  {
    hide *;
    FieldsFit(op);
    FlagFits(op);
    assert [ws[0]] == ws;
    DbccFromBits(op);
    DBccIs((op >> 8) & 15, Reg(op), ws[0]);
    i := DBcc((op >> 8) & 15, Reg(op), ws[0]);
  }

  lemma MoveQFromBits(op: bv16)
    requires Top(op) == 7 && Match(op, 0x0100, 0)
    ensures op & 0xFF < 0x100 && op == 0x7000 | (Sub(op) << 9) | (op & 0xFF)
  {
  }

  lemma MoveQAt(op: bv16, ws: seq<word>) returns (i: Instruction)
    requires Top(op) == 7 && Match(op, 0x0100, 0) && ws == []
    ensures Encodes(i, op, ws)
  {
    hide *;
    FieldsFit(op);
    FlagFits(op);
    MoveQFromBits(op);
    MoveQIs(Sub(op), op & 0xFF);
    i := MoveQ(Sub(op), op & 0xFF);
  }

  lemma EmulatedFromBits(op: bv16)
    requires (Top(op) == 10 || Top(op) == 15)
    ensures op & 0xFFF < 0x1000 && op == WithLow(if Top(op) == 15 then 0xF000 else 0xA000, op & 0xFFF)
  {
  }

  lemma EmulatedAt(op: bv16, ws: seq<word>) returns (i: Instruction)
    requires (Top(op) == 10 || Top(op) == 15) && ws == []
    ensures Encodes(i, op, ws)
  {
    hide *;
    FieldsFit(op);
    FlagFits(op);
    EmulatedFromBits(op);
    EmulatedIs(if Top(op) == 15 then 1 else 0, op & 0xFFF);
    i := Emulated(if Top(op) == 15 then 1 else 0, op & 0xFFF);
  }

  lemma ShiftRegFromBits(op: bv16)
    requires Top(op) == 14 && Size(op) != 3
    ensures op & 0x3F < 64
            && op == WithLow(Sized(WithFlag(WithReg(0xE000, Sub(op)), Flag(op)), WidthOf(Size(op))), op & 0x3F)
  {
  }

  lemma ShiftRegAt(op: bv16, ws: seq<word>) returns (i: Instruction)
    requires Top(op) == 14 && Size(op) != 3 && ws == []
    ensures Encodes(i, op, ws)
  {
    hide *;
    FieldsFit(op);
    FlagFits(op);
    ShiftRegFromBits(op);
    ShiftRegIs(Sub(op), Flag(op), WidthOf(Size(op)), op & 0x3F);
    i := ShiftReg(Sub(op), Flag(op), WidthOf(Size(op)), op & 0x3F);
  }

  lemma CmpMFromBits(op: bv16)
    requires Top(op) == 11 && 4 <= OpMode(op) < 7 && Mode(op) == 1
    ensures op == WithLow(Sized(WithReg(0xB108, Sub(op)), WidthOf(OpMode(op) - 4)), Reg(op))
  {
  }

  lemma CmpMAt(op: bv16, ws: seq<word>) returns (i: Instruction)
    requires Top(op) == 11 && 4 <= OpMode(op) < 7 && Mode(op) == 1 && ws == []
    ensures Encodes(i, op, ws)
  {
    hide *;
    FieldsFit(op);
    FlagFits(op);
    CmpMFromBits(op);
    CmpMIs(WidthOf(OpMode(op) - 4), Reg(op), Sub(op));
    i := CmpM(WidthOf(OpMode(op) - 4), Reg(op), Sub(op));
  }

  lemma DecimalFromBits(op: bv16)
    requires (Top(op) == 8 || Top(op) == 12) && OpMode(op) == 4 && Mode(op) < 2
    ensures op == WithLow(WithReg(if Top(op) == 12 then 0xC100 else 0x8100, Sub(op)), (Mode(op) << 3) | Reg(op))
  {
  }

  lemma DecimalAt(op: bv16, ws: seq<word>) returns (i: Instruction)
    requires (Top(op) == 8 || Top(op) == 12) && OpMode(op) == 4 && Mode(op) < 2 && ws == []
    ensures Encodes(i, op, ws)
  {
    hide *;
    FieldsFit(op);
    FlagFits(op);
    DecimalFromBits(op);
    DecimalIs(if Top(op) == 12 then 1 else 0, Mode(op), Reg(op), Sub(op));
    i := Decimal(if Top(op) == 12 then 1 else 0, Mode(op), Reg(op), Sub(op));
  }

  lemma ExtendedFromBits(op: bv16)
    requires (Top(op) == 9 || Top(op) == 13) && 4 <= OpMode(op) < 7 && Mode(op) < 2
    ensures op == WithLow(Sized(WithReg(if Top(op) == 13 then 0xD100 else 0x9100, Sub(op)), WidthOf(OpMode(op) - 4)),
                          (Mode(op) << 3) | Reg(op))
  {
  }

  lemma ExtendedAt(op: bv16, ws: seq<word>) returns (i: Instruction)
    requires (Top(op) == 9 || Top(op) == 13) && 4 <= OpMode(op) < 7 && Mode(op) < 2 && ws == []
    ensures Encodes(i, op, ws)
  {
    hide *;
    FieldsFit(op);
    FlagFits(op);
    ExtendedFromBits(op);
    ExtendedIs(if Top(op) == 13 then 1 else 0, WidthOf(OpMode(op) - 4), Mode(op), Reg(op), Sub(op));
    i := Extended(if Top(op) == 13 then 1 else 0, WidthOf(OpMode(op) - 4), Mode(op), Reg(op), Sub(op));
  }

  lemma ExgFromBits(k: ExchangeKind, op: bv16)
    requires Match(op, 0xF1F8, ExchangeOpcode(k))
    ensures op == WithLow(WithReg(ExchangeOpcode(k), Sub(op)), Reg(op))
  {
  }

  lemma ExgAt(k: ExchangeKind, op: bv16, ws: seq<word>) returns (i: Instruction)
    requires Match(op, 0xF1F8, ExchangeOpcode(k)) && ws == []
    ensures Encodes(i, op, ws)
  {
    hide *;
    FieldsFit(op);
    FlagFits(op);
    ExgFromBits(k, op);
    ExgIs(k, Sub(op), Reg(op));
    i := Exg(k, Sub(op), Reg(op));
  }

  lemma OnRegFromBits(k: RegKind, op: bv16)
    requires Match(op, 0xFFF8, RegOpcode(k))
    ensures op == WithLow(RegOpcode(k), Reg(op))
  {
  }

  lemma OnRegAt(k: RegKind, op: bv16, ws: seq<word>) returns (i: Instruction)
    requires Match(op, 0xFFF8, RegOpcode(k)) && ws == []
    ensures Encodes(i, op, ws)
  {
    hide *;
    FieldsFit(op);
    FlagFits(op);
    OnRegFromBits(k, op);
    OnRegIs(k, Reg(op));
    i := OnReg(k, Reg(op));
  }

  lemma LinkFromBits(op: bv16)
    requires Match(op, 0xFFF8, 0x4E50)
    ensures op == 0x4E50 | Reg(op)
  {
  }

  lemma LinkAt(op: bv16, ws: seq<word>) returns (i: Instruction)
    requires Match(op, 0xFFF8, 0x4E50) && |ws| == 1
    ensures Encodes(i, op, ws)
  {
    hide *;
    FieldsFit(op);
    FlagFits(op);
    assert [ws[0]] == ws;
    LinkFromBits(op);
    LinkIs(Reg(op), ws[0]);
    i := Link(Reg(op), ws[0]);
  }

  lemma TrapFromBits(op: bv16)
    requires Match(op, 0xFFF0, 0x4E40)
    ensures op & 15 < 16 && op == 0x4E40 | (op & 15)
  {
  }

  lemma TrapAt(op: bv16, ws: seq<word>) returns (i: Instruction)
    requires Match(op, 0xFFF0, 0x4E40) && ws == []
    ensures Encodes(i, op, ws)
  {
    hide *;
    FieldsFit(op);
    FlagFits(op);
    TrapFromBits(op);
    TrapIs(op & 15);
    i := Trap(op & 15);
  }

  lemma BareAt(k: BareKind) returns (i: Instruction)
    ensures Encodes(i, BareOpcode(k), [])
  {
    i := Bare(k);
  }

  lemma StopAt(ws: seq<word>) returns (i: Instruction)
    requires |ws| == 1
    ensures Encodes(i, 0x4E72, ws)
  {
    i := Stop(ws[0]);
  }

  lemma BranchFromBits(op: bv16)
    requires Top(op) == 6
    ensures var cc, d := (op >> 8) & 15, op & 0xFF;
            && cc < 16 && d < 0x100 && op == 0x6000 | (cc << 8) | d
            && (d == 0 ==> op == 0x6000 | (cc << 8)) && (d == 0xFF ==> op == 0x60FF | (cc << 8))
            && (Match(op, 0x00FF, 0) <==> d == 0) && (Match(op, 0x00FF, 0x00FF) <==> d == 0xFF)
  {
  }

  lemma BranchAt(op: bv16, ws: seq<word>) returns (i: Instruction)
    requires Top(op) == 6 && 2 * |ws| == PlanBranch(op).ext
    ensures Encodes(i, op, ws)
  {
    BranchFromBits(op);
    var cc, d := (op >> 8) & 15, op & 0xFF;
    hide Match, Top;
    if d == 0 {
      i := BranchW(cc, ws[0]);
    } else if d == 0xFF {
      i := BranchL(cc, ws[0], ws[1]);
    } else {
      i := BranchS(cc, d);
    }
  }

  lemma MoveOpcodeIs(op: bv16)
    requires 1 <= Top(op) <= 3
    ensures MoveOpcode(WidthOf(MoveSize(op))) == Top(op) << 12 && Bits(WidthOf(MoveSize(op))) == MoveSize(op)
  {
    hide Top;
  }

  lemma MoveFields(op: bv16)
    ensures op == ((Top(op) << 12) | (Sub(op) << 9) | (OpMode(op) << 6)) | (op & 0x3F)
  {
  }

  lemma MoveFromBits(op: bv16)
    requires 1 <= Top(op) <= 3
    ensures var w := WidthOf(MoveSize(op));
            Bits(w) == MoveSize(op) && op == WithLow(MoveTarget(w, OpMode(op), Sub(op)), op & 0x3F)
  {
    MoveOpcodeIs(op);
    MoveFields(op);
    hide Top, Sub, OpMode, MoveSize, WidthOf, MoveOpcode, Bits;
  }

  lemma MoveIs(w: Width, s: Operand, t: Operand)
    requires Suits(s, w) && Suits(t, w) && !t.Address?
    ensures Encodes(Move(w, s, t), WithLow(MoveTarget(w, ModeOf(t), RegOf(t)), Low(s)), WordsOf(s) + WordsOf(t))
  {
    hide Suits, Low, WordsOf, WithLow, MoveTarget, ModeOf, RegOf;
  }

  lemma MoveAt(op: bv16, ws: seq<word>) returns (i: Instruction)
    requires 1 <= Top(op) <= 3 && OpMode(op) != 1
    requires 2 * |ws| == Ea(op, MoveSize(op)) + EaBytes(OpMode(op), Sub(op), MoveSize(op))
    ensures Encodes(i, op, ws)
  {
    hide *;
    FieldsFit(op);
    MoveFromBits(op);
    var w, n := WidthOf(MoveSize(op)), Ea(op, MoveSize(op)) / 2;
    EvenEa(op, MoveSize(op));
    EvenBytes(OpMode(op), Sub(op), MoveSize(op));
    var s := OperandAt(op, w, ws[..n]);
    OperandIs(OpMode(op), Sub(op), w, ws[n..]);
    var t := OperandFor(OpMode(op), Sub(op), ws[n..]);
    MoveIs(w, s, t);
    assert ws[..n] + ws[n..] == ws;
    i := Move(w, s, t);
  }

  lemma EvenBytes(mode: bv16, reg: bv16, size: bv16)
    ensures EaBytes(mode, reg, size) % 2 == 0
  {
  }

  lemma EvenEa(op: bv16, size: bv16)
    ensures Ea(op, size) % 2 == 0
  {
    hide Mode, Reg;
  }

  // The groups, by the branches of the decoder.

  lemma StatusOrImmediateAt(k: ImmediateKind, op: bv16, ws: seq<word>) returns (i: Instruction)
    requires HasStatusForm(k) && Top(op) == 0 && Match(op, 0x0100, 0) && Sub(op) == ImmediateOpcode(k) >> 9
    requires var p := ImmediateOrStatus(op, ImmediateOpcode(k) | 0x3C, ImmediateOpcode(k) | 0x7C);
             p.known && 2 * |ws| == p.ext
    ensures Encodes(i, op, ws)
  {
    assert ImmediateOpcode(k) | 0x3C | (0 << 6) == ImmediateOpcode(k) | 0x3C;
    assert ImmediateOpcode(k) | 0x3C | (1 << 6) == ImmediateOpcode(k) | 0x7C;
    hide Top, Match, Sub, Size, Ea, ImmediateBytes, ImmediateOpcode, Encodes;
    if op == ImmediateOpcode(k) | 0x3C {
      i := ToStatusAt(k, 0, op, ws);
    } else if op == ImmediateOpcode(k) | 0x7C {
      i := ToStatusAt(k, 1, op, ws);
    } else {
      i := ImmediateAt(k, op, ws);
    }
  }

  lemma ImmediateCodes()
    ensures ImmediateOpcode(Ori) >> 9 == 0 && ImmediateOpcode(Andi) >> 9 == 1 && ImmediateOpcode(Subi) >> 9 == 2
    ensures ImmediateOpcode(Addi) >> 9 == 3 && ImmediateOpcode(Eori) >> 9 == 5 && ImmediateOpcode(Cmpi) >> 9 == 6
    ensures ImmediateOpcode(Ori) | 0x3C == 0x003C && ImmediateOpcode(Ori) | 0x7C == 0x007C
    ensures ImmediateOpcode(Andi) | 0x3C == 0x023C && ImmediateOpcode(Andi) | 0x7C == 0x027C
    ensures ImmediateOpcode(Eori) | 0x3C == 0x0A3C && ImmediateOpcode(Eori) | 0x7C == 0x0A7C
    ensures HasStatusForm(Ori) && HasStatusForm(Andi) && HasStatusForm(Eori)
    ensures !HasStatusForm(Subi) && !HasStatusForm(Addi) && !HasStatusForm(Cmpi)
  {
  }

  lemma Group0At(op: bv16, ws: seq<word>) returns (i: Instruction)
    requires Top(op) == 0 && Plan0(op).known && 2 * |ws| == Plan0(op).ext
    ensures Encodes(i, op, ws)
  {
    ImmediateCodes();
    hide Top, Match, Sub, Size, Mode, Ea, ImmediateBytes, ImmediateOpcode, ImmediateOrStatus, HasStatusForm, Encodes;
    if !Match(op, 0x0100, 0) {
      if Mode(op) == 1 { i := MovePAt(op, ws); } else { i := BitByRegAt(op, ws); }
    } else if Sub(op) == 0 {
      i := StatusOrImmediateAt(Ori, op, ws);
    } else if Sub(op) == 1 {
      i := StatusOrImmediateAt(Andi, op, ws);
    } else if Sub(op) == 2 {
      i := ImmediateAt(Subi, op, ws);
    } else if Sub(op) == 3 {
      i := ImmediateAt(Addi, op, ws);
    } else if Sub(op) == 6 {
      i := ImmediateAt(Cmpi, op, ws);
    } else if Sub(op) == 4 {
      i := BitByNumberAt(op, ws);
    } else {
      i := StatusOrImmediateAt(Eori, op, ws);
    }
  }

  lemma GroupMoveAt(op: bv16, ws: seq<word>) returns (i: Instruction)
    requires 1 <= Top(op) <= 3 && PlanMove(op).known && 2 * |ws| == PlanMove(op).ext
    ensures Encodes(i, op, ws)
  {
    hide Top, Sub, OpMode, MoveSize, Ea, EaBytes, Encodes;
    if OpMode(op) == 1 { i := MoveAAt(op, ws); } else { i := MoveAt(op, ws); }
  }

  lemma Group5At(op: bv16, ws: seq<word>) returns (i: Instruction)
    requires Top(op) == 5 && 2 * |ws| == Plan5(op).ext
    ensures Encodes(i, op, ws)
  {
    hide Top, Size, Mode, Ea, Encodes;
    if Size(op) != 3 {
      i := QuickAt(op, ws);
    } else if Mode(op) == 1 {
      i := DbccAt(op, ws);
    } else {
      i := SccAt(op, ws);
    }
  }

  lemma GroupCodes()
    ensures BinaryOpcode(OrKind) >> 12 == 8 && BinaryOpcode(AndKind) >> 12 == 12
    ensures BinaryOpcode(AddKind) >> 12 == 13 && BinaryOpcode(SubKind) >> 12 == 9
  {
  }

  /** Operation modes and sizes are the same bits. */
  lemma ModeAndSize(op: bv16)
    ensures OpMode(op) < 8 && Size(op) < 4
    ensures Size(op) == if OpMode(op) >= 4 then OpMode(op) - 4 else OpMode(op)
  {
  }

  lemma EaRegMasks(op: bv16)
    ensures Top(op) == 8 ==>
              (OpMode(op) == 3 <==> Match(op, 0xF1C0, 0x80C0)) && (OpMode(op) == 7 <==> Match(op, 0xF1C0, 0x81C0))
    ensures Top(op) == 12 ==>
              (OpMode(op) == 3 <==> Match(op, 0xF1C0, 0xC0C0)) && (OpMode(op) == 7 <==> Match(op, 0xF1C0, 0xC1C0))
    ensures Top(op) == 13 ==>
              (OpMode(op) == 3 <==> Match(op, 0xF1C0, 0xD0C0)) && (OpMode(op) == 7 <==> Match(op, 0xF1C0, 0xD1C0))
    ensures Top(op) == 9 ==>
              (OpMode(op) == 3 <==> Match(op, 0xF1C0, 0x90C0)) && (OpMode(op) == 7 <==> Match(op, 0xF1C0, 0x91C0))
    ensures Top(op) == 11 ==>
              (OpMode(op) == 3 <==> Match(op, 0xF1C0, 0xB0C0)) && (OpMode(op) == 7 <==> Match(op, 0xF1C0, 0xB1C0))
  {
  }

  lemma ExchangeMasks(op: bv16)
    requires Top(op) == 12
    ensures OpMode(op) == 5 && Mode(op) == 0 ==> Match(op, 0xF1F8, ExchangeOpcode(DataData))
    ensures OpMode(op) == 5 && Mode(op) == 1 ==> Match(op, 0xF1F8, ExchangeOpcode(AddressAddress))
    ensures OpMode(op) == 6 && Mode(op) == 1 ==> Match(op, 0xF1F8, ExchangeOpcode(DataAddress))
  {
  }

  lemma Group8At(op: bv16, ws: seq<word>) returns (i: Instruction)
    requires Top(op) == 8 && 2 * |ws| == Plan8(op).ext
    ensures Encodes(i, op, ws)
  {
    GroupCodes();
    ModeAndSize(op);
    EaRegMasks(op);
    hide Top, Match, Sub, Size, Mode, OpMode, Ea, BinaryOpcode, Encodes;
    if OpMode(op) == 3 {
      i := EaRegAt(DivU, op, ws);
    } else if OpMode(op) == 7 {
      i := EaRegAt(DivS, op, ws);
    } else if OpMode(op) == 4 && (Mode(op) == 0 || Mode(op) == 1) {
      i := DecimalAt(op, ws);
    } else {
      i := BinaryAt(OrKind, op, ws);
    }
  }

  lemma GroupAddAt(op: bv16, ws: seq<word>) returns (i: Instruction)
    requires (Top(op) == 9 || Top(op) == 13) && 2 * |ws| == PlanAddSub(op).ext
    ensures Encodes(i, op, ws)
  {
    GroupCodes();
    ModeAndSize(op);
    EaRegMasks(op);
    hide Top, Match, Sub, Size, Mode, OpMode, Ea, BinaryOpcode, Encodes;
    if OpMode(op) == 3 {
      i := EaRegAt(if Top(op) == 13 then AddaW else SubaW, op, ws);
    } else if OpMode(op) == 7 {
      i := EaRegAt(if Top(op) == 13 then AddaL else SubaL, op, ws);
    } else if OpMode(op) >= 4 && (Mode(op) == 0 || Mode(op) == 1) {
      i := ExtendedAt(op, ws);
    } else {
      i := BinaryAt(if Top(op) == 13 then AddKind else SubKind, op, ws);
    }
  }

  lemma GroupBAt(op: bv16, ws: seq<word>) returns (i: Instruction)
    requires Top(op) == 11 && 2 * |ws| == PlanB(op).ext
    ensures Encodes(i, op, ws)
  {
    ModeAndSize(op);
    EaRegMasks(op);
    hide Top, Match, Sub, Size, Mode, OpMode, Ea, Encodes;
    if OpMode(op) == 3 {
      i := EaRegAt(CmpaW, op, ws);
    } else if OpMode(op) == 7 {
      i := EaRegAt(CmpaL, op, ws);
    } else if OpMode(op) < 3 {
      i := CmpAt(op, ws);
    } else if Mode(op) == 1 {
      i := CmpMAt(op, ws);
    } else {
      i := EorAt(op, ws);
    }
  }

  lemma GroupCAt(op: bv16, ws: seq<word>) returns (i: Instruction)
    requires Top(op) == 12 && 2 * |ws| == PlanC(op).ext
    ensures Encodes(i, op, ws)
  {
    GroupCodes();
    ModeAndSize(op);
    EaRegMasks(op);
    ExchangeMasks(op);
    hide Top, Match, Sub, Size, Mode, OpMode, Ea, BinaryOpcode, ExchangeOpcode, Encodes;
    if OpMode(op) == 3 {
      i := EaRegAt(MulU, op, ws);
    } else if OpMode(op) == 7 {
      i := EaRegAt(MulS, op, ws);
    } else if OpMode(op) == 4 && (Mode(op) == 0 || Mode(op) == 1) {
      i := DecimalAt(op, ws);
    } else if OpMode(op) == 5 && Mode(op) == 0 {
      i := ExgAt(DataData, op, ws);
    } else if OpMode(op) == 5 && Mode(op) == 1 {
      i := ExgAt(AddressAddress, op, ws);
    } else if OpMode(op) == 6 && Mode(op) == 1 {
      i := ExgAt(DataAddress, op, ws);
    } else {
      i := BinaryAt(AndKind, op, ws);
    }
  }

  lemma GroupShiftAt(op: bv16, ws: seq<word>) returns (i: Instruction)
    requires Top(op) == 14 && 2 * |ws| == PlanShift(op).ext
    ensures Encodes(i, op, ws)
  {
    hide Top, Size, Ea, Encodes;
    if Size(op) == 3 { i := ShiftEaAt(op, ws); } else { i := ShiftRegAt(op, ws); }
  }

  lemma BareCodes()
    ensures BareOpcode(Reset) == 0x4E70 && BareOpcode(Nop) == 0x4E71 && BareOpcode(Rte) == 0x4E73
    ensures BareOpcode(Rts) == 0x4E75 && BareOpcode(Trapv) == 0x4E76 && BareOpcode(Rtr) == 0x4E77
    ensures BareOpcode(Illegal) == 0x4AFC
  {
  }

  lemma EaCodes()
    ensures EaOpcode(Pea) == 0x4840 && EaOpcode(Jsr) == 0x4E80 && EaOpcode(Jmp) == 0x4EC0 && EaOpcode(Nbcd) == 0x4800
    ensures EaOpcode(Tas) == 0x4AC0 && EaOpcode(FromSr) == 0x40C0 && EaOpcode(ToSr) == 0x46C0
    ensures Bits(EaWidth(Pea)) == Bits(EaWidth(Jsr)) == Bits(EaWidth(Jmp)) == 2
    ensures Bits(EaWidth(Nbcd)) == Bits(EaWidth(Tas)) == 0 && Bits(EaWidth(FromSr)) == Bits(EaWidth(ToSr)) == 1
    ensures EaRegOpcode(Lea) == 0x41C0 && EaRegOpcode(Chk) == 0x4180
    ensures Bits(EaRegWidth(Lea)) == 2 && Bits(EaRegWidth(Chk)) == 1
  {
  }

  /** What is left of a mask when a narrower one before it did not match. */
  lemma Group4Masks(op: bv16)
    ensures Match(op, 0xFFF0, 0x4E60) ==> Match(op, 0xFFF8, RegOpcode(ToUsp)) || Match(op, 0xFFF8, RegOpcode(FromUsp))
    ensures Match(op, 0xFFC0, 0x4840) && !Match(op, 0xFFF8, 0x4840) ==> Mode(op) != 0
    ensures Match(op, 0xFB80, 0x4880) && !Match(op, 0xFFF8, 0x4880) && !Match(op, 0xFFF8, 0x48C0) && Mode(op) == 0 ==>
              !Match(op, 0x0400, 0)
    ensures Match(op, 0xF1C0, 0x41C0) && !Match(op, 0xFFF8, 0x49C0) ==> !(Mode(op) == 0 && Sub(op) == 4)
    ensures RegOpcode(Unlk) == 0x4E58 && RegOpcode(Swap) == 0x4840 && RegOpcode(ExtW) == 0x4880
    ensures RegOpcode(ExtL) == 0x48C0 && RegOpcode(ExtbL) == 0x49C0
  {
  }

  lemma Group4At(op: bv16, ws: seq<word>) returns (i: Instruction)
    requires Top(op) == 4 && Plan4(op).known && 2 * |ws| == Plan4(op).ext
    ensures Encodes(i, op, ws)
  {
    BareCodes();
    EaCodes();
    Group4Masks(op);
    hide Top, Match, Sub, Size, Mode, OpMode, Ea, BareOpcode, EaOpcode, RegOpcode, EaRegOpcode, EaWidth, EaRegWidth;
    hide Bits;
    hide Plan4Sized, Encodes;
    if op == 0x4E70 {
      i := BareAt(Reset);
    } else if op == 0x4E71 {
      i := BareAt(Nop);
    } else if op == 0x4E72 {
      i := StopAt(ws);
    } else if op == 0x4E73 {
      i := BareAt(Rte);
    } else if op == 0x4E75 {
      i := BareAt(Rts);
    } else if op == 0x4E76 {
      i := BareAt(Trapv);
    } else if op == 0x4E77 {
      i := BareAt(Rtr);
    } else if op == 0x4AFC {
      i := BareAt(Illegal);
    } else if Match(op, 0xFFF0, 0x4E40) {
      i := TrapAt(op, ws);
    } else if Match(op, 0xFFF8, 0x4E50) {
      i := LinkAt(op, ws);
    } else if Match(op, 0xFFF8, 0x4E58) {
      i := OnRegAt(Unlk, op, ws);
    } else if Match(op, 0xFFF0, 0x4E60) {
      i := OnRegAt(if Match(op, 0xFFF8, RegOpcode(ToUsp)) then ToUsp else FromUsp, op, ws);
    } else if Match(op, 0xFFF8, 0x4840) {
      i := OnRegAt(Swap, op, ws);
    } else if Match(op, 0xFFC0, 0x4840) {
      i := EaAt(Pea, op, ws);
    } else if Match(op, 0xFFF8, 0x4880) {
      i := OnRegAt(ExtW, op, ws);
    } else if Match(op, 0xFFF8, 0x48C0) {
      i := OnRegAt(ExtL, op, ws);
    } else if Match(op, 0xFFF8, 0x49C0) {
      i := OnRegAt(ExtbL, op, ws);
    } else if Match(op, 0xFB80, 0x4880) {
      i := MoveMAt(op, ws);
    } else if Match(op, 0xF1C0, 0x41C0) {
      i := EaRegAt(Lea, op, ws);
    } else if Match(op, 0xF1C0, 0x4180) {
      i := EaRegAt(Chk, op, ws);
    } else if Match(op, 0xFFC0, 0x4E80) {
      i := EaAt(Jsr, op, ws);
    } else if Match(op, 0xFFC0, 0x4EC0) {
      i := EaAt(Jmp, op, ws);
    } else {
      i := SizedAt(op, ws);
    }
  }

  lemma SizedMasks(op: bv16)
    ensures Match(op, 0xFF00, 0x4A00) && Size(op) == 3 ==> Match(op, 0xFFC0, 0x4AC0)
    ensures Match(op, 0xFF00, 0x4000) && Size(op) == 3 ==> Match(op, 0xFFC0, 0x40C0)
    ensures Match(op, 0xFF00, 0x4600) && Size(op) == 3 ==> Match(op, 0xFFC0, 0x46C0)
  {
  }

  lemma StatusMasks(op: bv16)
    ensures Match(op, 0xFFC0, 0x44C0) ==> Match(op, 0xFF00, 0x4400)
    ensures Match(op, 0xFFC0, 0x46C0) ==> Match(op, 0xFF00, 0x4600)
    ensures Match(op, 0xFFC0, 0x40C0) ==> Match(op, 0xFF00, 0x4000)
  {
  }

  lemma UnaryCodes()
    ensures UnaryOpcode(Negx) == 0x4000 && UnaryOpcode(Clr) == 0x4200 && UnaryOpcode(Neg) == 0x4400
    ensures UnaryOpcode(Not) == 0x4600 && UnaryOpcode(Tst) == 0x4A00
  {
  }

  lemma SizedAt(op: bv16, ws: seq<word>) returns (i: Instruction)
    requires op != 0x4AFC && Plan4Sized(op).known && 2 * |ws| == Plan4Sized(op).ext
    ensures Encodes(i, op, ws)
  {
    EaCodes();
    SizedMasks(op);
    StatusMasks(op);
    UnaryCodes();
    hide Match, Size, Mode, Ea, EaOpcode, EaWidth, EaRegOpcode, EaRegWidth, UnaryOpcode, Bits, Encodes;
    if Match(op, 0xFF00, 0x4A00) {
      if Size(op) == 3 { i := EaAt(Tas, op, ws); } else { i := UnaryAt(Tst, op, ws); }
    } else if Match(op, 0xFF00, 0x4400) {
      i := UnaryAt(Neg, op, ws);
    } else if Match(op, 0xFF00, 0x4200) {
      i := UnaryAt(Clr, op, ws);
    } else if Match(op, 0xFF00, 0x4000) {
      if Size(op) == 3 { i := EaAt(FromSr, op, ws); } else { i := UnaryAt(Negx, op, ws); }
    } else if Match(op, 0xFF00, 0x4600) {
      if Size(op) == 3 { i := EaAt(ToSr, op, ws); } else { i := UnaryAt(Not, op, ws); }
    } else {
      i := EaAt(Nbcd, op, ws);
    }
  }

  lemma TopFits(op: bv16)
    ensures Top(op) < 16
  {
  }

  /** Whatever the decoder takes as an instruction is one, with the words it reads. */
  lemma DecodedIsInstruction(op: bv16, ws: seq<word>) returns (i: Instruction)
    requires PlanOf(op).known && 2 * |ws| == PlanOf(op).ext
    ensures Encodes(i, op, ws)
  {
    TopFits(op);
    hide Top, Match, Plan0, PlanMove, Plan4, Plan5, PlanBranch, Plan8, PlanAddSub, PlanB, PlanC, PlanShift, Encodes;
    var top := Top(op);
    if top == 0 {
      i := Group0At(op, ws);
    } else if top == 1 || top == 2 || top == 3 {
      i := GroupMoveAt(op, ws);
    } else if top == 4 {
      i := Group4At(op, ws);
    } else if top == 5 {
      i := Group5At(op, ws);
    } else if top == 6 {
      i := BranchAt(op, ws);
    } else if top == 7 {
      i := MoveQAt(op, ws);
    } else if top == 8 {
      i := Group8At(op, ws);
    } else if top == 9 || top == 13 {
      i := GroupAddAt(op, ws);
    } else if top == 11 {
      i := GroupBAt(op, ws);
    } else if top == 12 {
      i := GroupCAt(op, ws);
    } else if top == 14 {
      i := GroupShiftAt(op, ws);
    } else {
      i := EmulatedAt(op, ws);
    }
  }
}
