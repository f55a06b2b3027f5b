/** How the 68k decoder of `disasm.py` reads an opcode: which words are instructions and
    how many extension bytes each takes. Every decision depends on the opcode alone. */
module Opcodes {

  // Fields of the opcode word, named so that proofs can leave the bits alone.

  predicate Match(op: bv16, mask: bv16, value: bv16) { op & mask == value }

  function Top(op: bv16): bv16 { (op >> 12) & 15 }
  function Mode(op: bv16): bv16 { (op >> 3) & 7 }
  function Reg(op: bv16): bv16 { op & 7 }
  function Size(op: bv16): bv16 { (op >> 6) & 3 }
  function OpMode(op: bv16): bv16 { (op >> 6) & 7 }
  function Sub(op: bv16): bv16 { (op >> 9) & 7 }

  /** The extension bytes of an effective address. */
  function EaBytes(mode: bv16, reg: bv16, size: bv16): (n: nat)
    ensures n == 0 || n == 2 || n == 4
  {
    if mode == 5 || mode == 6 then 2
    else if mode == 7 then
      if reg == 0 || reg == 2 || reg == 3 then 2
      else if reg == 1 then 4
      else if reg == 4 then (if size == 0 || size == 1 then 2 else 4)
      else 0
    else 0
  }

  /** The address in the low six bits. */
  function Ea(op: bv16, size: bv16): (n: nat)
    ensures n == 0 || n == 2 || n == 4
  {
    EaBytes(Mode(op), Reg(op), size)
  }

  /** Whether the opcode is decoded, and how many bytes are read after it first. */
  datatype Plan = Plan(known: bool, ext: nat)

  predicate Fits(p: Plan) { p.ext <= 8 && p.ext % 2 == 0 }

  const UNKNOWN: Plan := Plan(false, 0)

  function Known(ext: nat): Plan { Plan(true, ext) }

  function ImmediateBytes(size: bv16): (n: nat)
    ensures n == 2 || n == 4
  {
    if size == 0 || size == 1 then 2 else 4
  }

  function Immediate(op: bv16): Plan {
    if Size(op) == 3 then UNKNOWN else Known(ImmediateBytes(Size(op)) + Ea(op, Size(op)))
  }

  /** ORI, ANDI and EORI: the forms on the status registers take one word. */
  function ImmediateOrStatus(op: bv16, ccr: bv16, sr: bv16): Plan {
    if Size(op) == 3 then UNKNOWN else if op == ccr || op == sr then Known(2) else Immediate(op)
  }

  function Plan0(op: bv16): Plan {
    if !Match(op, 0x0100, 0) then (if Mode(op) == 1 then Known(2) else Known(Ea(op, 0)))
    else if Sub(op) == 0 then ImmediateOrStatus(op, 0x003C, 0x007C)
    else if Sub(op) == 1 then ImmediateOrStatus(op, 0x023C, 0x027C)
    else if Sub(op) == 2 || Sub(op) == 3 || Sub(op) == 6 then Immediate(op)
    else if Sub(op) == 4 then Known(2 + Ea(op, 0))
    else if Sub(op) == 5 then ImmediateOrStatus(op, 0x0A3C, 0x0A7C)
    else UNKNOWN
  }

  function MoveSize(op: bv16): bv16 {
    if Top(op) == 1 then 0 else if Top(op) == 3 then 1 else 2
  }

  function PlanMove(op: bv16): Plan {
    var size := MoveSize(op);
    if OpMode(op) == 1 then Plan(size != 0, Ea(op, size))
    else Known(Ea(op, size) + EaBytes(OpMode(op), Sub(op), size))
  }

  function Plan4(op: bv16): Plan {
    if op == 0x4E70 || op == 0x4E71 then Known(0)
    else if op == 0x4E72 then Known(2)
    else if op == 0x4E73 || op == 0x4E75 || op == 0x4E76 || op == 0x4E77 || op == 0x4AFC then Known(0)
    else if Match(op, 0xFFF0, 0x4E40) then Known(0)
    else if Match(op, 0xFFF8, 0x4E50) then Known(2)
    else if Match(op, 0xFFF8, 0x4E58) || Match(op, 0xFFF0, 0x4E60) || Match(op, 0xFFF8, 0x4840) then Known(0)
    else if Match(op, 0xFFC0, 0x4840) then Known(Ea(op, 2))
    else if Match(op, 0xFFF8, 0x4880) || Match(op, 0xFFF8, 0x48C0) || Match(op, 0xFFF8, 0x49C0) then Known(0)
    else if Match(op, 0xFB80, 0x4880) then Known(2 + Ea(op, if Match(op, 0x0040, 0) then 1 else 2))
    else if Match(op, 0xF1C0, 0x41C0) then Known(Ea(op, 2))
    else if Match(op, 0xF1C0, 0x4180) then Known(Ea(op, 1))
    else if Match(op, 0xFFC0, 0x4E80) || Match(op, 0xFFC0, 0x4EC0) then Known(Ea(op, 2))
    else Plan4Sized(op)
  }

  /** The one-operand instructions, with what the size field 3 stands for. */
  function Plan4Sized(op: bv16): Plan {
    if Match(op, 0xFF00, 0x4A00) then Known(Ea(op, if Size(op) == 3 then 0 else Size(op)))
    else if Match(op, 0xFF00, 0x4400) || Match(op, 0xFF00, 0x4200) then
      if Size(op) == 3 then UNKNOWN else Known(Ea(op, Size(op)))
    else if Match(op, 0xFF00, 0x4000) || Match(op, 0xFF00, 0x4600) then
      Known(Ea(op, if Size(op) == 3 then 1 else Size(op)))
    else if Match(op, 0xFFC0, 0x4800) then Known(Ea(op, 0))
    else if Match(op, 0xFFC0, 0x44C0) || Match(op, 0xFFC0, 0x46C0) || Match(op, 0xFFC0, 0x40C0) then Known(Ea(op, 1))
    else UNKNOWN
  }

  function Plan5(op: bv16): Plan {
    if Size(op) == 3 then (if Mode(op) == 1 then Known(2) else Known(Ea(op, 0)))
    else Known(Ea(op, Size(op)))
  }

  function PlanBranch(op: bv16): Plan {
    if Match(op, 0x00FF, 0) then Known(2) else if Match(op, 0x00FF, 0x00FF) then Known(4) else Known(0)
  }

  function Plan8(op: bv16): Plan {
    if OpMode(op) == 3 || OpMode(op) == 7 then Known(Ea(op, 1))
    else if OpMode(op) == 4 && (Mode(op) == 0 || Mode(op) == 1) then Known(0)
    else Known(Ea(op, Size(op)))
  }

  function PlanAddSub(op: bv16): Plan {
    if OpMode(op) == 3 then Known(Ea(op, 1))
    else if OpMode(op) == 7 then Known(Ea(op, 2))
    else if (OpMode(op) == 4 || OpMode(op) == 5 || OpMode(op) == 6) && (Mode(op) == 0 || Mode(op) == 1) then Known(0)
    else Known(Ea(op, Size(op)))
  }

  function PlanB(op: bv16): Plan {
    if OpMode(op) == 3 then Known(Ea(op, 1))
    else if OpMode(op) == 7 then Known(Ea(op, 2))
    else if OpMode(op) < 3 then Known(Ea(op, OpMode(op)))
    else if Mode(op) == 1 then Known(0)
    else Known(Ea(op, OpMode(op) - 4))
  }

  function PlanC(op: bv16): Plan {
    if OpMode(op) == 3 || OpMode(op) == 7 then Known(Ea(op, 1))
    else if OpMode(op) == 4 && (Mode(op) == 0 || Mode(op) == 1) then Known(0)
    else if OpMode(op) == 5 && (Mode(op) == 0 || Mode(op) == 1) then Known(0)
    else if OpMode(op) == 6 && Mode(op) == 1 then Known(0)
    else Known(Ea(op, Size(op)))
  }

  function PlanShift(op: bv16): Plan {
    if Size(op) == 3 then Known(Ea(op, 1)) else Known(0)
  }

  /** What is done with an opcode: at most eight bytes follow it. */
  function PlanOf(op: bv16): Plan {
    var top := Top(op);
    if top == 0 then Plan0(op)
    else if top == 1 || top == 2 || top == 3 then PlanMove(op)
    else if top == 4 then Plan4(op)
    else if top == 5 then Plan5(op)
    else if top == 6 then PlanBranch(op)
    else if top == 7 then (if Match(op, 0x0100, 0) then Known(0) else UNKNOWN)
    else if top == 8 then Plan8(op)
    else if top == 9 || top == 13 then PlanAddSub(op)
    else if top == 11 then PlanB(op)
    else if top == 12 then PlanC(op)
    else if top == 14 then PlanShift(op)
    else Known(0)
  }

  // --------------------------------------------------------------- at most ten bytes

  lemma ImmediateFits(op: bv16)
    ensures Fits(Immediate(op))
  {
    hide Match, Top, Mode, Reg, Size, OpMode, Sub, EaBytes;
  }

  lemma ImmediateOrStatusFits(op: bv16, ccr: bv16, sr: bv16)
    ensures Fits(ImmediateOrStatus(op, ccr, sr))
  {
    hide Match, Top, Mode, Reg, Size, OpMode, Sub, EaBytes;
    ImmediateFits(op);
  }

  lemma Plan0Fits(op: bv16)
    ensures Fits(Plan0(op))
  {
    hide Match, Top, Mode, Reg, Size, OpMode, Sub, EaBytes;
    ImmediateFits(op);
    hide ImmediateOrStatus;
    ImmediateOrStatusFits(op, 0x003C, 0x007C);
    ImmediateOrStatusFits(op, 0x023C, 0x027C);
    ImmediateOrStatusFits(op, 0x0A3C, 0x0A7C);
  }

  lemma PlanMoveFits(op: bv16)
    ensures Fits(PlanMove(op))
  {
    hide Match, Top, Mode, Reg, Size, OpMode, Sub, EaBytes;
  }

  lemma Plan4SizedFits(op: bv16)
    ensures Fits(Plan4Sized(op))
  {
    hide Match, Top, Mode, Reg, Size, OpMode, Sub, EaBytes;
  }

  lemma Plan4Fits(op: bv16)
    ensures Fits(Plan4(op))
  {
    hide Match, Top, Mode, Reg, Size, OpMode, Sub, EaBytes;
    hide Plan4Sized;
    Plan4SizedFits(op);
  }

  lemma Plan5Fits(op: bv16)
    ensures Fits(Plan5(op))
  {
    hide Match, Top, Mode, Reg, Size, OpMode, Sub, EaBytes;
  }

  lemma PlanBranchFits(op: bv16)
    ensures Fits(PlanBranch(op))
  {
    hide Match, Top, Mode, Reg, Size, OpMode, Sub, EaBytes;
  }

  lemma Plan8Fits(op: bv16)
    ensures Fits(Plan8(op))
  {
    hide Match, Top, Mode, Reg, Size, OpMode, Sub, EaBytes;
  }

  lemma PlanAddSubFits(op: bv16)
    ensures Fits(PlanAddSub(op))
  {
    hide Match, Top, Mode, Reg, Size, OpMode, Sub, EaBytes;
  }

  lemma PlanBFits(op: bv16)
    ensures Fits(PlanB(op))
  {
    hide Match, Top, Mode, Reg, Size, OpMode, Sub, EaBytes;
  }

  lemma PlanCFits(op: bv16)
    ensures Fits(PlanC(op))
  {
    hide Match, Top, Mode, Reg, Size, OpMode, Sub, EaBytes;
  }

  lemma PlanShiftFits(op: bv16)
    ensures Fits(PlanShift(op))
  {
    hide Match, Top, Mode, Reg, Size, OpMode, Sub, EaBytes;
  }

  /** No instruction has more than eight bytes after its opcode, and all come in words. */
  lemma PlanFits(op: bv16)
    ensures Fits(PlanOf(op))
  {
    hide Match, Top, Plan0, PlanMove, Plan4, Plan5, PlanBranch, Plan8, PlanAddSub, PlanB, PlanC, PlanShift;
    Plan0Fits(op);
    PlanMoveFits(op);
    Plan4Fits(op);
    Plan5Fits(op);
    PlanBranchFits(op);
    Plan8Fits(op);
    PlanAddSubFits(op);
    PlanBFits(op);
    PlanCFits(op);
    PlanShiftFits(op);
  }

  // ------------------------------------------------------------------- calls

  /** dbg_next_after_call of debugger.c: the length it gives a subroutine call, or 0 for
      any other instruction. */
  function CallLength(op: bv16): nat {
    if Match(op, 0xFF00, 0x6100) then
      if Match(op, 0x00FF, 0) then 4 else if Match(op, 0x00FF, 0x00FF) then 6 else 2
    else if Match(op, 0xFFC0, 0x4E80) then
      if Mode(op) == 5 || Mode(op) == 6 then 4
      else if Mode(op) == 7 && (Reg(op) == 0 || Reg(op) == 2 || Reg(op) == 3) then 4
      else if Mode(op) == 7 && Reg(op) == 1 then 6
      else 2
    else 0
  }

  lemma BranchIsCall(op: bv16)
    ensures Match(op, 0xFF00, 0x6100) ==> Top(op) == 6 && !Match(op, 0xFFC0, 0x4E80)
  {
  }

  /** A call by effective address is none of the opcodes tested before it. */
  lemma JumpIsCall(op: bv16)
    ensures Match(op, 0xFFC0, 0x4E80) ==> Top(op) == 4 && PlanOf(op) == Known(Ea(op, 2))
  {
    if Match(op, 0xFFC0, 0x4E80) {
      assert Top(op) == 4;
      assert op != 0x4E70 && op != 0x4E71 && op != 0x4E72 && op != 0x4E73;
      assert op != 0x4E75 && op != 0x4E76 && op != 0x4E77;
    }
  }

  lemma LongImmediateJump(op: bv16)
    requires Match(op, 0xFFC0, 0x4E80)
    ensures Mode(op) == 7 && Reg(op) == 4 <==> op == 0x4EBC
  {
  }

  /** The debugger's step-over and the disassembler give a call the same length, except
      the one opcode 0x4EBC, a jump to an immediate operand. */
  lemma CallLengthsAgree(op: bv16)
    requires CallLength(op) != 0
    ensures PlanOf(op).known && (CallLength(op) == 2 + PlanOf(op).ext <==> op != 0x4EBC)
  {
    BranchIsCall(op);
    JumpIsCall(op);
    if Match(op, 0xFFC0, 0x4E80) { LongImmediateJump(op); }
    assert Match(0x4EBC, 0xFF00, 0x6100) == false;
    hide Match, Top, Mode, Reg, Plan4, PlanMove;
  }
}
