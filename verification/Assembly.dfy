/** The 68000 instructions and their encodings, as the instruction set has them and
    independently of the decoder of `disasm.py`. */
module Assembly {
  import opened Bytes

  type word = x: int | 0 <= x < 0x10000

  // Fields of an opcode.

  type Bit = x: bv16 | x < 2
  type Two = x: bv16 | x < 4
  type Three = x: bv16 | x < 8
  type Four = x: bv16 | x < 16
  type Eight = x: bv16 | x < 0x100
  type Twelve = x: bv16 | x < 0x1000

  datatype Width = Byte | Word | Long

  /** An operand with its extension words; `Reserved` is mode 7 with a register above 4. */
  datatype Operand =
    | Data(r: Three)                    // Dn
    | Address(r: Three)                 // An
    | Indirect(r: Three)                // (An)
    | PostIncrement(r: Three)           // (An)+
    | PreDecrement(r: Three)            // -(An)
    | Displaced(r: Three, d: word)      // d16(An)
    | Indexed(r: Three, x: word)        // d8(An,Xn)
    | AbsoluteShort(a: word)            // xxx.W
    | AbsoluteLong(hi: word, lo: word)  // xxx.L
    | PcDisplaced(d: word)              // d16(PC)
    | PcIndexed(x: word)                // d8(PC,Xn)
    | Immediate16(v: word)              // #xxx of a byte or a word
    | Immediate32(hi: word, lo: word)   // #xxx of a long
    | Reserved(r: Three)

  datatype BareKind = Reset | Nop | Rte | Rts | Trapv | Rtr | Illegal
  datatype RegKind = Unlk | Swap | ExtW | ExtL | ExtbL | ToUsp | FromUsp
  datatype UnaryKind = Negx | Clr | Neg | Not | Tst
  datatype EaKind = Pea | Jsr | Jmp | Nbcd | Tas | FromSr | ToSr
  datatype EaRegKind = Lea | Chk | DivU | DivS | MulU | MulS | AddaW | AddaL | SubaW | SubaL | CmpaW | CmpaL
  datatype BinaryKind = OrKind | AndKind | AddKind | SubKind
  datatype ImmediateKind = Ori | Andi | Subi | Addi | Eori | Cmpi
  datatype ExchangeKind = DataData | AddressAddress | DataAddress

  datatype Instruction =
    | Bare(bare: BareKind)
    | OnReg(reg: RegKind, r: Three)
    | Trap(vector: Four)
    | Stop(status: word)
    | Link(r: Three, d: word)
    | Unary(unary: UnaryKind, width: Width, ea: Operand)
    | OnEa(one: EaKind, ea: Operand)
    | EaToReg(kind: EaRegKind, ea: Operand, r: Three)
    | MoveM(toRegs: Bit, width: Width, mask: word, ea: Operand)
    | Move(width: Width, source: Operand, target: Operand)
    | MoveA(width: Width, source: Operand, r: Three)
    | MoveP(opmode: Three, data: Three, r: Three, d: word)
    | BitByReg(op: Two, data: Three, ea: Operand)
    | BitByNumber(op: Two, number: word, ea: Operand)
    | WithImmediate(imm: ImmediateKind, width: Width, value: seq<word>, ea: Operand)
    | ToStatus(imm: ImmediateKind, sr: Bit, v: word)
    | Quick(sub: Bit, data: Three, width: Width, ea: Operand)
    | Scc(cc: Four, ea: Operand)
    | DBcc(cc: Four, r: Three, offset: word)
    | BranchS(cc: Four, short: Eight)
    | BranchW(cc: Four, offset: word)
    | BranchL(cc: Four, hi: word, lo: word)
    | MoveQ(data: Three, short: Eight)
    | Binary(binary: BinaryKind, toEa: Bit, width: Width, ea: Operand, data: Three)
    | Cmp(width: Width, ea: Operand, data: Three)
    | Eor(width: Width, data: Three, ea: Operand)
    | CmpM(width: Width, y: Three, x: Three)
    | Decimal(add: Bit, memory: Bit, y: Three, x: Three)                   // SBCD, ABCD
    | Extended(add: Bit, width: Width, memory: Bit, y: Three, x: Three)    // SUBX, ADDX
    | Exg(exchange: ExchangeKind, x: Three, y: Three)
    | ShiftEa(shift: Three, left: Bit, ea: Operand)
    | ShiftReg(count: Three, left: Bit, width: Width, rest: Six)           // count or register, kind, Dn
    | Emulated(line: Bit, low: Twelve)                                     // the A and F lines

  type Six = x: bv16 | x < 64

  // ----------------------------------------------------------------- the encoding

  function Bits(width: Width): bv16 {
    match width
    case Byte => 0
    case Word => 1
    case Long => 2
  }

  function ModeOf(o: Operand): bv16 {
    match o
    case Data(_) => 0
    case Address(_) => 1
    case Indirect(_) => 2
    case PostIncrement(_) => 3
    case PreDecrement(_) => 4
    case Displaced(_, _) => 5
    case Indexed(_, _) => 6
    case _ => 7
  }

  function RegOf(o: Operand): bv16 {
    match o
    case AbsoluteShort(_) => 0
    case AbsoluteLong(_, _) => 1
    case PcDisplaced(_) => 2
    case PcIndexed(_) => 3
    case Immediate16(_) => 4
    case Immediate32(_, _) => 4
    case _ => o.r
  }

  function WordsOf(o: Operand): seq<word> {
    match o
    case Displaced(_, d) => [d]
    case Indexed(_, x) => [x]
    case AbsoluteShort(a) => [a]
    case AbsoluteLong(hi, lo) => [hi, lo]
    case PcDisplaced(d) => [d]
    case PcIndexed(x) => [x]
    case Immediate16(v) => [v]
    case Immediate32(hi, lo) => [hi, lo]
    case _ => []
  }

  /** The operand is one of the width: a long immediate has two words. */
  predicate Suits(o: Operand, width: Width) {
    && (o.Immediate16? ==> width != Long) && (o.Immediate32? ==> width == Long)
    && (o.Reserved? ==> o.r > 4)
  }

  /** The six bits of an operand. */
  function Low(o: Operand): bv16 { (ModeOf(o) << 3) | RegOf(o) }

  function BareOpcode(k: BareKind): bv16 {
    match k
    case Reset => 0x4E70
    case Nop => 0x4E71
    case Rte => 0x4E73
    case Rts => 0x4E75
    case Trapv => 0x4E76
    case Rtr => 0x4E77
    case Illegal => 0x4AFC
  }

  function RegOpcode(k: RegKind): bv16 {
    match k
    case Unlk => 0x4E58
    case Swap => 0x4840
    case ExtW => 0x4880
    case ExtL => 0x48C0
    case ExtbL => 0x49C0
    case ToUsp => 0x4E60
    case FromUsp => 0x4E68
  }

  function UnaryOpcode(k: UnaryKind): bv16 {
    match k
    case Negx => 0x4000
    case Clr => 0x4200
    case Neg => 0x4400
    case Not => 0x4600
    case Tst => 0x4A00
  }

  function EaOpcode(k: EaKind): bv16 {
    match k
    case Pea => 0x4840
    case Jsr => 0x4E80
    case Jmp => 0x4EC0
    case Nbcd => 0x4800
    case Tas => 0x4AC0
    case FromSr => 0x40C0
    case ToSr => 0x46C0
  }

  function EaWidth(k: EaKind): Width {
    match k
    case Nbcd => Byte
    case Tas => Byte
    case FromSr => Word
    case ToSr => Word
    case _ => Long
  }

  function EaRegOpcode(k: EaRegKind): bv16 {
    match k
    case Lea => 0x41C0
    case Chk => 0x4180
    case DivU => 0x80C0
    case DivS => 0x81C0
    case MulU => 0xC0C0
    case MulS => 0xC1C0
    case AddaW => 0xD0C0
    case AddaL => 0xD1C0
    case SubaW => 0x90C0
    case SubaL => 0x91C0
    case CmpaW => 0xB0C0
    case CmpaL => 0xB1C0
  }

  function EaRegWidth(k: EaRegKind): Width {
    if k == Lea || k == AddaL || k == SubaL || k == CmpaL then Long else Word
  }

  function BinaryOpcode(k: BinaryKind): bv16 {
    match k
    case OrKind => 0x8000
    case AndKind => 0xC000
    case AddKind => 0xD000
    case SubKind => 0x9000
  }

  function ImmediateOpcode(k: ImmediateKind): bv16 {
    match k
    case Ori => 0x0000
    case Andi => 0x0200
    case Subi => 0x0400
    case Addi => 0x0600
    case Eori => 0x0A00
    case Cmpi => 0x0C00
  }

  predicate HasStatusForm(k: ImmediateKind) { k == Ori || k == Andi || k == Eori }

  function ExchangeOpcode(k: ExchangeKind): bv16 {
    match k
    case DataData => 0xC140
    case AddressAddress => 0xC148
    case DataAddress => 0xC188
  }

  function MoveOpcode(width: Width): bv16 {
    match width
    case Byte => 0x1000
    case Word => 0x3000
    case Long => 0x2000
  }

  /** Fields above the operand: the size, a register in bits 9 to 11, bit 8, a condition. */
  function Sized(b: bv16, w: Width): bv16 { b | (Bits(w) << 6) }
  function WithReg(b: bv16, r: Three): bv16 { b | (r << 9) }
  function WithFlag(b: bv16, f: Bit): bv16 { b | (f << 8) }
  function WithCondition(b: bv16, cc: Four): bv16 { b | (cc << 8) }
  function WithKind(b: bv16, k: Two): bv16 { b | (k << 6) }

  /** The operand in the low six bits. */
  function WithLow(b: bv16, e: bv16): bv16 { b | e }

  function MoveMOpcode(toRegs: Bit, w: Width): bv16 { 0x4880 | (toRegs << 10) | (if w == Long then 0x40 else 0) }

  function MoveTarget(w: Width, mode: bv16, r: bv16): bv16 { MoveOpcode(w) | (r << 9) | (mode << 6) }

  function Opcode(i: Instruction): bv16 {
    match i
    case Bare(k) => BareOpcode(k)
    case OnReg(k, r) => WithLow(RegOpcode(k), r)
    case Trap(v) => 0x4E40 | v
    case Stop(_) => 0x4E72
    case Link(r, _) => 0x4E50 | r
    case Unary(k, w, ea) => WithLow(Sized(UnaryOpcode(k), w), Low(ea))
    case OnEa(k, ea) => WithLow(EaOpcode(k), Low(ea))
    case EaToReg(k, ea, r) => WithLow(WithReg(EaRegOpcode(k), r), Low(ea))
    case MoveM(toRegs, w, _, ea) => WithLow(MoveMOpcode(toRegs, w), Low(ea))
    case Move(w, s, t) => WithLow(MoveTarget(w, ModeOf(t), RegOf(t)), Low(s))
    case MoveA(w, s, r) => WithLow(MoveTarget(w, 1, r), Low(s))
    case MoveP(m, d, r, _) => 0x0008 | (d << 9) | (m << 6) | r
    case BitByReg(op, d, ea) => WithLow(WithKind(WithReg(0x0100, d), op), Low(ea))
    case BitByNumber(op, _, ea) => WithLow(WithKind(0x0800, op), Low(ea))
    case WithImmediate(k, w, _, ea) => WithLow(Sized(ImmediateOpcode(k), w), Low(ea))
    case ToStatus(k, sr, _) => ImmediateOpcode(k) | 0x3C | (sr << 6)
    case Quick(sub, d, w, ea) => WithLow(Sized(WithFlag(WithReg(0x5000, d), sub), w), Low(ea))
    case Scc(cc, ea) => WithLow(WithCondition(0x50C0, cc), Low(ea))
    case DBcc(cc, r, _) => 0x50C8 | (cc << 8) | r
    case BranchS(cc, d) => 0x6000 | (cc << 8) | d
    case BranchW(cc, _) => 0x6000 | (cc << 8)
    case BranchL(cc, _, _) => 0x60FF | (cc << 8)
    case MoveQ(d, v) => 0x7000 | (d << 9) | v
    case Binary(k, toEa, w, ea, d) => WithLow(Sized(WithFlag(WithReg(BinaryOpcode(k), d), toEa), w), Low(ea))
    case Cmp(w, ea, d) => WithLow(Sized(WithReg(0xB000, d), w), Low(ea))
    case Eor(w, d, ea) => WithLow(Sized(WithReg(0xB100, d), w), Low(ea))
    case CmpM(w, y, x) => WithLow(Sized(WithReg(0xB108, x), w), y)
    case Decimal(add, m, y, x) => WithLow(WithReg(if add == 1 then 0xC100 else 0x8100, x), (m << 3) | y)
    case Extended(add, w, m, y, x) =>
      WithLow(Sized(WithReg(if add == 1 then 0xD100 else 0x9100, x), w), (m << 3) | y)
    case Exg(k, x, y) => WithLow(WithReg(ExchangeOpcode(k), x), y)
    case ShiftEa(k, left, ea) => WithLow(WithFlag(WithReg(0xE0C0, k), left), Low(ea))
    case ShiftReg(c, left, w, rest) => WithLow(Sized(WithFlag(WithReg(0xE000, c), left), w), rest)
    case Emulated(line, low) => WithLow(if line == 1 then 0xF000 else 0xA000, low)
  }

  /** The words behind the opcode. */
  function Extra(i: Instruction): seq<word> {
    match i
    case Stop(v) => [v]
    case Link(_, d) => [d]
    case Unary(_, _, ea) => WordsOf(ea)
    case OnEa(_, ea) => WordsOf(ea)
    case EaToReg(_, ea, _) => WordsOf(ea)
    case MoveM(_, _, mask, ea) => [mask] + WordsOf(ea)
    case Move(_, s, t) => WordsOf(s) + WordsOf(t)
    case MoveA(_, s, _) => WordsOf(s)
    case MoveP(_, _, _, d) => [d]
    case BitByReg(_, _, ea) => WordsOf(ea)
    case BitByNumber(_, n, ea) => [n] + WordsOf(ea)
    case WithImmediate(_, _, v, ea) => v + WordsOf(ea)
    case ToStatus(_, _, v) => [v]
    case Quick(_, _, _, ea) => WordsOf(ea)
    case Scc(_, ea) => WordsOf(ea)
    case DBcc(_, _, d) => [d]
    case BranchW(_, d) => [d]
    case BranchL(_, hi, lo) => [hi, lo]
    case Binary(_, _, _, ea, _) => WordsOf(ea)
    case Cmp(_, ea, _) => WordsOf(ea)
    case Eor(_, _, ea) => WordsOf(ea)
    case ShiftEa(_, _, ea) => WordsOf(ea)
    case _ => []
  }

  /** The operand has the width its instruction gives it, and the encoding is not that of
      another instruction. */
  predicate Proper(i: Instruction) {
    match i
    case Unary(k, w, ea) => Suits(ea, w)
    case OnEa(k, ea) =>
      && Suits(ea, EaWidth(k))
      && (k == Pea ==> !ea.Data?) && (k == Tas ==> !ea.Immediate16?)
    case EaToReg(k, ea, r) => Suits(ea, EaRegWidth(k)) && (k == Lea && ea.Data? ==> r != 4)
    case MoveM(toRegs, w, _, ea) => w != Byte && Suits(ea, w) && (ea.Data? ==> toRegs == 1)
    case Move(w, s, t) => Suits(s, w) && Suits(t, w) && !t.Address?
    case MoveA(w, s, _) => w != Byte && Suits(s, w)
    case MoveP(m, _, _, _) => m >= 4
    case BitByReg(_, _, ea) => Suits(ea, Byte) && !ea.Address?
    case BitByNumber(_, _, ea) => Suits(ea, Byte)
    case WithImmediate(k, w, v, ea) =>
      |v| == (if w == Long then 2 else 1) && Suits(ea, w) && !(HasStatusForm(k) && ea.Immediate16?)
    case ToStatus(k, _, _) => HasStatusForm(k)
    case Quick(_, _, w, ea) => Suits(ea, w)
    case Scc(_, ea) => Suits(ea, Byte) && !ea.Address?
    case BranchS(_, d) => d != 0 && d != 0xFF
    case MoveQ(_, _) => true
    case Binary(k, toEa, w, ea, _) => Suits(ea, w) && (toEa == 1 ==> !IsOtherBinary(k, w, ea))
    case Cmp(w, ea, _) => Suits(ea, w)
    case Eor(w, _, ea) => Suits(ea, w) && !ea.Address?
    case ShiftEa(_, _, ea) => Suits(ea, Word)
    case _ => true
  }

  /** SBCD, ABCD, EXG, SUBX and ADDX take the place of register operands. */
  predicate IsOtherBinary(k: BinaryKind, w: Width, ea: Operand) {
    match k
    case OrKind => w == Byte && (ea.Data? || ea.Address?)
    case AndKind => if w == Long then ea.Address? else ea.Data? || ea.Address?
    case _ => ea.Data? || ea.Address?
  }

  function WordBytes(w: word): (s: seq<byte>)
    ensures |s| == 2
  {
    [w / 0x100, w % 0x100]
  }

  function OpcodeBytes(op: bv16): (s: seq<byte>)
    ensures |s| == 2
  {
    WordBytes(op as int)
  }

  function AllBytes(ws: seq<word>): (s: seq<byte>)
    ensures |s| == 2 * |ws|
  {
    if ws == [] then [] else WordBytes(ws[0]) + AllBytes(ws[1..])
  }

  /** The instruction in memory. */
  function Assemble(i: Instruction): (s: seq<byte>)
    ensures |s| == 2 + 2 * |Extra(i)|
  {
    OpcodeBytes(Opcode(i)) + AllBytes(Extra(i))
  }
}
