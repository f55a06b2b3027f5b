/** What `disassemble` (`disasm.py`) lists, in terms of the instructions of `Assembly`. */
module AssemblyListing {
  import opened Assembly
  import opened Bytes
  import opened Decoding
  import opened Disasm
  import opened Opcodes

  lemma WordBack(w: word)
    ensures WordAt(WordBytes(w), 0) == w
  {
  }

  lemma BytesBack(a: byte, b: byte)
    ensures WordBytes(WordAt([a, b], 0)) == [a, b]
  {
  }

  lemma OpcodeBack(op: bv16)
    ensures WordAt(OpcodeBytes(op), 0) as bv16 == op
  {
    WordBack(op as int);
    hide WordAt, WordBytes;
  }

  /** The opcode of an instruction in memory. */
  lemma OpcodeOf(data: seq<byte>, pos: nat, i: Instruction)
    requires pos <= |data| && Assemble(i) <= data[pos..]
    ensures pos + 2 <= |data| && OpcodeAt(data, pos) == Opcode(i)
  {
    hide Opcode, Extra, OpcodeBytes, AllBytes, WordAt;
    var s := Assemble(i);
    assert s[0] == data[pos..][0] == data[pos] && s[1] == data[pos..][1] == data[pos + 1];
    assert s[0] == OpcodeBytes(Opcode(i))[0] && s[1] == OpcodeBytes(Opcode(i))[1];
    OpcodeBack(Opcode(i));
    SameWord(OpcodeBytes(Opcode(i)), data, 0, pos);
  }

  function WordsAt(data: seq<byte>, pos: nat, n: nat): (ws: seq<word>)
    requires pos + 2 * n <= |data|
    ensures |ws| == n
    decreases n
  {
    if n == 0 then [] else [WordAt(data, pos)] + WordsAt(data, pos + 2, n - 1)
  }

  lemma {:induction false} BytesOfWords(data: seq<byte>, pos: nat, n: nat)
    requires pos + 2 * n <= |data|
    ensures AllBytes(WordsAt(data, pos, n)) == data[pos..pos + 2 * n]
    decreases n
  {
    hide WordAt, WordBytes;
    if n > 0 {
      BytesOfWords(data, pos + 2, n - 1);
      WordOfBytes(data, pos);
      var ws := WordsAt(data, pos, n);
      assert ws[1..] == WordsAt(data, pos + 2, n - 1);
      assert data[pos..pos + 2 * n] == data[pos..pos + 2] + data[pos + 2..pos + 2 + 2 * (n - 1)];
    }
  }

  lemma WordOfBytes(data: seq<byte>, pos: nat)
    requires pos + 2 <= |data|
    ensures WordBytes(WordAt(data, pos)) == data[pos..pos + 2]
  {
    BytesBack(data[pos], data[pos + 1]);
    SameWord([data[pos], data[pos + 1]], data, 0, pos);
    hide WordAt, WordBytes;
    assert data[pos..pos + 2] == [data[pos], data[pos + 1]];
  }

  /** A bit of a byte, as a number and as an opcode. */
  function Weight(k: nat): nat {
    if k == 0 then 1 else if k == 1 then 2 else if k == 2 then 4 else if k == 3 then 8
    else if k == 4 then 16 else if k == 5 then 32 else if k == 6 then 64 else if k == 7 then 128 else 256
  }

  function Mask(k: nat): bv16 {
    if k == 0 then 1 else if k == 1 then 2 else if k == 2 then 4 else if k == 3 then 8
    else if k == 4 then 16 else if k == 5 then 32 else if k == 6 then 64 else 128
  }

  function AddBit(x: bv16, k: nat): bv16 { x | Mask(k) }

  /** The number an opcode is. */
  predicate Spells(x: bv16, n: nat) { x as int == n }

  lemma SetBit(x: bv16, n: nat, k: nat)
    requires k < 8 && n < Weight(k) && Spells(x, n)
    ensures Spells(AddBit(x, k), n + Weight(k))
  {
  }

  lemma NoBits()
    ensures Spells(0, 0)
  {
  }

  lemma WeightDoubles(k: nat)
    requires k <= 8
    ensures Weight(0) == 1 && (k > 0 ==> Weight(k) == 2 * Weight(k - 1))
  {
  }

  /** Every byte is some bits. */
  lemma {:induction false} ByteBits(b: nat, k: nat) returns (x: bv16)
    requires k <= 8 && b < Weight(k)
    ensures Spells(x, b)
    decreases k
  {
    hide *;
    WeightDoubles(k);
    NoBits();
    if k == 0 {
      x := 0;
    } else if b < Weight(k - 1) {
      x := ByteBits(b, k - 1);
    } else {
      var y := ByteBits(b - Weight(k - 1), k - 1);
      SetBit(y, b - Weight(k - 1), k - 1);
      x := AddBit(y, k - 1);
    }
  }

  lemma TwoBytes(hi: bv16, h: nat, lo: bv16, l: nat)
    requires Spells(hi, h) && Spells(lo, l) && h < 0x100 && l < 0x100
    ensures Spells((hi << 8) | lo, 256 * h + l)
  {
    assert hi < 0x100 && lo < 0x100;
  }

  lemma SpelledIs(x: bv16, w: word)
    requires Spells(x, w)
    ensures OpcodeBytes(w as bv16) == WordBytes(w)
  {
    assert (x as int) as bv16 == x;
    hide WordBytes;
  }

  /** Every word is some opcode. */
  lemma WordAsOpcode(w: word)
    ensures OpcodeBytes(w as bv16) == WordBytes(w)
  {
    hide *;
    WeightOfByte();
    var hi := ByteBits(w / 256, 8);
    var lo := ByteBits(w % 256, 8);
    TwoBytes(hi, w / 256, lo, w % 256);
    SpelledIs((hi << 8) | lo, w);
  }

  lemma WeightOfByte()
    ensures Weight(8) == 256
  {
  }

  lemma OpcodeBytesAt(data: seq<byte>, pos: nat)
    requires pos + 2 <= |data|
    ensures OpcodeBytes(OpcodeAt(data, pos)) == data[pos..pos + 2]
  {
    WordOfBytes(data, pos);
    hide WordAt, WordBytes, OpcodeBytes;
    WordAsOpcode(WordAt(data, pos));
  }

  /** A proper instruction in memory is listed as one, with exactly its bytes. */
  lemma AssembledItem(data: seq<byte>, base: int, pos: nat, i: Instruction)
    requires Proper(i) && pos <= |data| && Assemble(i) <= data[pos..]
    ensures pos + 2 <= |data| && ItemAt(data, base, pos) == Item(base + pos, Hex(Assemble(i)), true)
    ensures ExtentAt(data, pos) == Extent(|Assemble(i)|, true, false)
  {
    hide Opcode, Extra, Assemble, OpcodeAt, PlanOf, Hex, Proper;
    OpcodeOf(data, pos, i);
    InstructionDecodes(i);
    var n := |Assemble(i)|;
    assert data[pos..pos + n] == data[pos..][..n] == Assemble(i);
  }

  lemma DecodedExtent(data: seq<byte>, pos: nat)
    requires pos + 2 <= |data| && ExtentAt(data, pos).decoded
    ensures var p := PlanOf(OpcodeAt(data, pos)); p.known && p.ext % 2 == 0 && pos + 2 + p.ext <= |data|
  {
    PlanFits(OpcodeAt(data, pos));
    hide OpcodeAt, PlanOf;
  }

  lemma Adjacent(data: seq<byte>, pos: nat, m: nat, n: nat)
    requires pos + m + n <= |data|
    ensures data[pos..pos + m] + data[pos + m..pos + m + n] <= data[pos..]
  {
    assert data[pos..pos + m] + data[pos + m..pos + m + n] == data[pos..][..m + n];
  }

  lemma EncodesIs(i: Instruction, op: bv16, ws: seq<word>)
    requires Encodes(i, op, ws)
    ensures Proper(i) && Assemble(i) == OpcodeBytes(op) + AllBytes(ws)
  {
    hide Proper, Opcode, Extra, OpcodeBytes, AllBytes;
  }

  /** The instruction an item is decoded as. */
  lemma ItemIsAssembled(data: seq<byte>, pos: nat) returns (i: Instruction)
    requires pos + 2 <= |data| && ExtentAt(data, pos).decoded
    ensures Proper(i) && Assemble(i) <= data[pos..]
  {
    hide *;
    DecodedExtent(data, pos);
    var op := OpcodeAt(data, pos);
    var n := PlanOf(op).ext / 2;
    var ws := WordsAt(data, pos + 2, n);
    i := DecodedIsInstruction(op, ws);
    EncodesIs(i, op, ws);
    BytesOfWords(data, pos + 2, n);
    OpcodeBytesAt(data, pos);
    Adjacent(data, pos, 2, 2 * n);
  }

  /** What is listed as an instruction, at every position of any data: an item is decoded if
      and only if a proper instruction starts there, and it has that instruction's bytes. */
  lemma DecodedIff(data: seq<byte>, base: int, pos: nat)
    requires pos + 2 <= |data|
    ensures ItemAt(data, base, pos).decoded <==> exists i :: Proper(i) && Assemble(i) <= data[pos..]
    ensures forall i :: Proper(i) && Assemble(i) <= data[pos..] ==>
              ItemAt(data, base, pos) == Item(base + pos, Hex(Assemble(i)), true)
  {
    ItemDecoded(data, base, pos);
    hide ExtentAt, ItemAt, Proper, Assemble, Hex;
    forall i | Proper(i) && Assemble(i) <= data[pos..]
      ensures ItemAt(data, base, pos) == Item(base + pos, Hex(Assemble(i)), true)
    {
      AssembledItem(data, base, pos, i);
    }
    if ExtentAt(data, pos).decoded {
      var i := ItemIsAssembled(data, pos);
    }
  }

  lemma ItemDecoded(data: seq<byte>, base: int, pos: nat)
    requires pos + 2 <= |data|
    ensures ItemAt(data, base, pos).decoded == ExtentAt(data, pos).decoded
  {
    ExtentFits(data, pos);
    hide ExtentAt, Hex;
  }

  /** The opcode of a byte move to an address register, which is no instruction. */
  function ByteToAddress(ea: Operand, r: Three): bv16 { WithLow(MoveTarget(Byte, 1, r), Low(ea)) }

  /** An instruction starts here, or a byte move to an address register, and the data ends
      before its last word. */
  ghost predicate NeedsMore(data: seq<byte>, pos: nat)
    requires pos <= |data|
  {
    || (exists i :: Proper(i) && OpcodeBytes(Opcode(i)) <= data[pos..] && pos + |Assemble(i)| > |data|)
    || (exists ea, r :: Suits(ea, Byte) && OpcodeBytes(ByteToAddress(ea, r)) <= data[pos..]
                        && pos + 2 + 2 * |WordsOf(ea)| > |data|)
  }

  lemma OpcodeInjective(a: bv16, b: bv16)
    requires OpcodeBytes(a) == OpcodeBytes(b)
    ensures a == b
  {
    OpcodeBack(a);
    OpcodeBack(b);
    hide OpcodeBytes, WordAt;
  }

  lemma OpcodeStarts(data: seq<byte>, pos: nat, op: bv16)
    requires pos + 2 <= |data|
    ensures OpcodeBytes(op) <= data[pos..] <==> OpcodeAt(data, pos) == op
  {
    hide *;
    OpcodeBytesAt(data, pos);
    assert data[pos..pos + 2] == data[pos..][..2];
    if OpcodeBytes(op) <= data[pos..] {
      assert OpcodeBytes(op) == data[pos..][..2];
      OpcodeInjective(op, OpcodeAt(data, pos));
    }
  }

  lemma ByteToAddressPlan(ea: Operand, r: Three)
    requires Suits(ea, Byte)
    ensures PlanOf(ByteToAddress(ea, r)) == Plan(false, 2 * |WordsOf(ea)|)
  {
    LowBits(ea, Byte);
    MoveBits(Byte, 1, r, Low(ea));
    OperandBytes(ea, Byte);
    hide Top, Mode, Reg, OpMode, Sub, MoveSize, EaBytes, Low, WithLow, MoveTarget, ModeOf, RegOf, WordsOf, LowOnly;
    assert Bits(Byte) == 0;
  }

  lemma ByteToAddressAt(op: bv16) returns (ea: Operand, r: Three)
    requires !PlanOf(op).known && PlanOf(op).ext > 0
    ensures Suits(ea, Byte) && op == ByteToAddress(ea, r)
  {
    RefusedAfterReading(op);
    PlanFits(op);
    hide *;
    FieldsFit(op);
    EvenEa(op, 0);
    ByteIsZero();
    ea := OperandAt(op, Byte, Zeros(Ea(op, 0) / 2));
    r := Sub(op);
    ByteMoveFromBits(op);
    ByteToAddressIs(ea, r);
  }

  lemma ByteToAddressIs(ea: Operand, r: Three)
    ensures ByteToAddress(ea, r) == WithLow(MoveTarget(Byte, 1, r), Low(ea))
  {
    hide Low, WithLow, MoveTarget;
  }

  lemma ByteMoveFromBits(op: bv16)
    requires Top(op) == 1 && OpMode(op) == 1
    ensures op == WithLow(MoveTarget(Byte, 1, Sub(op)), op & 0x3F)
  {
  }

  function Zeros(n: nat): (ws: seq<word>)
    ensures |ws| == n
  {
    seq(n, _ => 0)
  }

  lemma CutOffExtent(data: seq<byte>, pos: nat)
    requires pos + 2 <= |data|
    ensures ExtentAt(data, pos).truncated <==> pos + 2 + PlanOf(OpcodeAt(data, pos)).ext > |data|
    ensures !ExtentAt(data, pos).decoded ==> ExtentAt(data, pos).size == 2
  {
    hide PlanOf, OpcodeAt;
  }

  lemma NeedsMoreIff(data: seq<byte>, pos: nat)
    requires pos + 2 <= |data|
    ensures ExtentAt(data, pos).truncated <==> NeedsMore(data, pos)
  {
    CutOffExtent(data, pos);
    var op := OpcodeAt(data, pos);
    PlanFits(op);
    hide ExtentAt, OpcodeAt, OpcodeBytes, PlanOf, Opcode, Extra, Assemble, Proper, Suits, ByteToAddress, WordsOf;
    hide Encodes;
    forall i | Proper(i) && OpcodeBytes(Opcode(i)) <= data[pos..] && pos + |Assemble(i)| > |data|
      ensures pos + 2 + PlanOf(op).ext > |data|
    {
      OpcodeStarts(data, pos, Opcode(i));
      InstructionDecodes(i);
    }
    forall ea, r | Suits(ea, Byte) && OpcodeBytes(ByteToAddress(ea, r)) <= data[pos..]
                   && pos + 2 + 2 * |WordsOf(ea)| > |data|
      ensures pos + 2 + PlanOf(op).ext > |data|
    {
      OpcodeStarts(data, pos, ByteToAddress(ea, r));
      ByteToAddressPlan(ea, r);
    }
    if pos + 2 + PlanOf(op).ext > |data| {
      if PlanOf(op).known {
        var i := DecodedIsInstruction(op, Zeros(PlanOf(op).ext / 2));
        EncodesIs(i, op, Zeros(PlanOf(op).ext / 2));
        EncodedOpcode(i, op, Zeros(PlanOf(op).ext / 2));
        OpcodeStarts(data, pos, op);
      } else {
        var ea, r := ByteToAddressAt(op);
        ByteToAddressPlan(ea, r);
        OpcodeStarts(data, pos, op);
      }
    }
  }

  lemma EncodedOpcode(i: Instruction, op: bv16, ws: seq<word>)
    requires Encodes(i, op, ws)
    ensures Opcode(i) == op
  {
    hide Proper, Opcode, Extra;
  }

  /** The whole listing, without the decoder: an instruction is listed with its bytes and the
      listing goes on behind it; one that is cut off ends the listing as a word of data; any
      other word is listed as data, and the listing goes on behind the word. */
  lemma ListingMeans(data: seq<byte>, base: int, pos: nat, count: nat)
    requires pos + 2 <= |data| && count > 0
    ensures forall i :: Proper(i) && Assemble(i) <= data[pos..] ==>
              Listing(data, base, pos, count) ==
              [Item(base + pos, Hex(Assemble(i)), true)] + Listing(data, base, pos + |Assemble(i)|, count - 1)
    ensures NeedsMore(data, pos) ==>
              Listing(data, base, pos, count) == [Item(base + pos, Hex(data[pos..pos + 2]), false)]
    ensures !NeedsMore(data, pos) && !(exists i :: Proper(i) && Assemble(i) <= data[pos..]) ==>
              Listing(data, base, pos, count) ==
              [Item(base + pos, Hex(data[pos..pos + 2]), false)] + Listing(data, base, pos + 2, count - 1)
  {
    hide *;
    ListingUnfolds(data, base, pos, count);
    NeedsMoreIff(data, pos);
    DecodedIff(data, base, pos);
    ItemDecoded(data, base, pos);
    DataItem(data, base, pos);
    forall i | Proper(i) && Assemble(i) <= data[pos..]
      ensures Listing(data, base, pos, count) ==
              [Item(base + pos, Hex(Assemble(i)), true)] + Listing(data, base, pos + |Assemble(i)|, count - 1)
    {
      AssembledItem(data, base, pos, i);
    }
  }

  lemma DataItem(data: seq<byte>, base: int, pos: nat)
    requires pos + 2 <= |data|
    ensures ExtentAt(data, pos).truncated ==> !ExtentAt(data, pos).decoded
    ensures !ExtentAt(data, pos).decoded ==>
              ExtentAt(data, pos).size == 2
              && ItemAt(data, base, pos) == Item(base + pos, Hex(data[pos..pos + 2]), false)
  {
    hide PlanOf, OpcodeAt, Hex;
  }

  lemma FrontAndRest(s: seq<byte>, rest: seq<byte>)
    ensures s <= (s + rest)[0..] && (s + rest)[|s|..] == rest
  {
  }

  /** An assembled instruction is listed first, and then what follows it at its address. */
  lemma AssembledIsListed(i: Instruction, rest: seq<byte>, base: int, n: nat)
    requires Proper(i)
    ensures var s := Assemble(i);
            Listing(s + rest, base, 0, n + 1) == [Item(base, Hex(s), true)] + Listing(rest, base + |s|, 0, n)
  {
    hide *;
    var s := Assemble(i);
    FrontAndRest(s, rest);
    AssembledItem(s + rest, base, 0, i);
    ListingUnfolds(s + rest, base, 0, n + 1);
    ShiftFrom(s + rest, base, |s|, 0, n);
  }

  function AssembleAll(program: seq<Instruction>): seq<byte> {
    if program == [] then [] else Assemble(program[0]) + AssembleAll(program[1..])
  }

  /** One item an instruction, at its address. */
  function Items(program: seq<Instruction>, base: int): (items: seq<Item>)
    ensures |items| == |program|
  {
    if program == [] then []
    else [Item(base, Hex(Assemble(program[0])), true)] + Items(program[1..], base + |Assemble(program[0])|)
  }

  /** A whole program is listed instruction by instruction, and then what follows it. */
  lemma {:induction false} ProgramIsListed(program: seq<Instruction>, rest: seq<byte>, base: int, n: nat)
    requires forall k :: 0 <= k < |program| ==> Proper(program[k])
    ensures Listing(AssembleAll(program) + rest, base, 0, |program| + n) ==
            Items(program, base) + Listing(rest, base + |AssembleAll(program)|, 0, n)
    decreases |program|
  {
    hide *;
    ProgramUnfolds(program, rest, base);
    if program == [] {
      assert Items(program, base) + Listing(rest, base, 0, n) == Listing(rest, base, 0, n);
    } else {
      var i, more := program[0], program[1..];
      AssembledIsListed(i, AssembleAll(more) + rest, base, |more| + n);
      ProgramIsListed(more, rest, base + |Assemble(i)|, n);
      var s := Listing(rest, base + |AssembleAll(program)|, 0, n);
      Associative(Item(base, Hex(Assemble(i)), true), Items(more, base + |Assemble(i)|), s);
    }
  }

  lemma Associative(x: Item, a: seq<Item>, b: seq<Item>)
    ensures [x] + (a + b) == [x] + a + b
  {
  }

  lemma ProgramUnfolds(program: seq<Instruction>, rest: seq<byte>, base: int)
    ensures program == [] ==>
              AssembleAll(program) + rest == rest && Items(program, base) == [] && AssembleAll(program) == []
    ensures program != [] ==>
              var i, more := program[0], program[1..];
              && AssembleAll(program) + rest == Assemble(i) + (AssembleAll(more) + rest)
              && |AssembleAll(program)| == |Assemble(i)| + |AssembleAll(more)|
              && Items(program, base) == [Item(base, Hex(Assemble(i)), true)] + Items(more, base + |Assemble(i)|)
  {
    hide Assemble, Hex;
  }

  /** MOVE to CCR is tested only after NEG has turned its opcode down: it is never listed as
      an instruction, whatever its operand. */
  lemma MoveToCcrIsData(data: seq<byte>, base: int, pos: nat, ea: Operand)
    requires Suits(ea, Word)
    requires pos + 2 <= |data| && data[pos..pos + 2] == OpcodeBytes(WithLow(0x44C0, Low(ea)))
    ensures !ItemAt(data, base, pos).decoded && |ItemAt(data, base, pos).hex| == 4
  {
    var op := WithLow(0x44C0, Low(ea));
    LowBits(ea, Word);
    CcrPlan(Low(ea));
    assert data[pos..pos + 2][0] == data[pos] && data[pos..pos + 2][1] == data[pos + 1];
    OpcodeBack(op);
    hide OpcodeBytes, PlanOf, Hex, WordAt, Low, WithLow;
    SameWord(OpcodeBytes(op), data, 0, pos);
  }

  lemma CcrPlan(e: bv16)
    requires LowOnly(e)
    ensures PlanOf(WithLow(0x44C0, e)) == UNKNOWN
  {
    hide Ea, Plan0, PlanMove, Plan5, PlanBranch, Plan8, PlanAddSub, PlanB, PlanC, PlanShift;
  }
}
