/** `disasm.py`: a stream of big-endian words, the instruction decoder over it, and
    `disassemble`, which lists instructions one after the other. */
module Disasm {
  import opened Bytes
  import opened Opcodes
  import Text

  // ------------------------------------------------------------ what a listing is

  /** The big-endian word at a position. */
  function WordAt(data: seq<byte>, pos: nat): (w: nat)
    requires pos + 2 <= |data|
    ensures w < 0x10000
  {
    (data[pos] as int) * 0x100 + data[pos + 1]
  }

  function OpcodeAt(data: seq<byte>, pos: nat): bv16
    requires pos + 2 <= |data|
  {
    WordAt(data, pos) as bv16
  }

  /** bytes.hex().upper(). */
  function Hex(data: seq<byte>): (s: string)
    ensures |s| == 2 * |data|
  {
    if data == [] then [] else [Text.HexDigit(data[0] / 16), Text.HexDigit(data[0] % 16)] + Hex(data[1..])
  }

  predicate IsUpperHex(c: char) { '0' <= c <= '9' || 'A' <= c <= 'F' }

  lemma TwoDigits(b: byte)
    ensures var high, low := Text.HexDigit(b / 16), Text.HexDigit(b % 16);
            IsUpperHex(high) && IsUpperHex(low) && 16 * Text.HexValue(high) + Text.HexValue(low) == b
  {
  }

  /** Two upper-case digits for each byte, which spell it. */
  lemma {:induction false} HexSpells(data: seq<byte>, k: nat)
    requires k < |data|
    ensures var high, low := Hex(data)[2 * k], Hex(data)[2 * k + 1];
            IsUpperHex(high) && IsUpperHex(low) && 16 * Text.HexValue(high) + Text.HexValue(low) == data[k]
    decreases k
  {
    TwoDigits(data[0]);
    hide Text.HexDigit, Text.HexValue, IsUpperHex;
    if k > 0 {
      HexSpells(data[1..], k - 1);
      assert Hex(data)[2 * k] == Hex(data[1..])[2 * (k - 1)] && Hex(data)[2 * k + 1] == Hex(data[1..])[2 * (k - 1) + 1];
    }
  }

  /** A word in four hexadecimal digits. */
  function HexWord(w: nat): string
    requires w < 0x10000
  {
    [Text.HexDigit(w / 0x1000), Text.HexDigit(w / 0x100 % 16), Text.HexDigit(w / 16 % 16), Text.HexDigit(w % 16)]
  }

  /** One line: the address, the bytes in hexadecimal, and whether they were decoded as
      an instruction or are shown as data. */
  datatype Item = Item(addr: int, hex: string, decoded: bool)

  /** The length of the item at a position, and whether the listing stops after it. */
  datatype Extent = Extent(size: nat, decoded: bool, truncated: bool)

  function ExtentAt(data: seq<byte>, pos: nat): Extent
    requires pos + 2 <= |data|
  {
    var plan := PlanOf(OpcodeAt(data, pos));
    if pos + 2 + plan.ext > |data| then Extent(2, false, true)
    else if !plan.known then Extent(2, false, false)
    else Extent(2 + plan.ext, true, false)
  }

  lemma ExtentFits(data: seq<byte>, pos: nat)
    requires pos + 2 <= |data|
    ensures var e := ExtentAt(data, pos); 2 <= e.size <= 10 && e.size % 2 == 0 && pos + e.size <= |data|
  {
    hide OpcodeAt, PlanOf;
    PlanFits(OpcodeAt(data, pos));
  }

  function ItemAt(data: seq<byte>, base: int, pos: nat): Item
    requires pos + 2 <= |data|
  {
    var e := ExtentAt(data, pos);
    if pos + e.size <= |data| then Item(base + pos, Hex(data[pos..pos + e.size]), e.decoded)
    else Item(base + pos, [], false)
  }

  /** The listing from a position on, of at most count items. */
  function Listing(data: seq<byte>, base: int, pos: nat, count: nat): seq<Item>
    decreases count
  {
    if count == 0 || pos + 2 > |data| then []
    else
      var e := ExtentAt(data, pos);
      [ItemAt(data, base, pos)] + (if e.truncated then [] else Listing(data, base, pos + e.size, count - 1))
  }

  // ----------------------------------------------------------------- the decoder

  datatype Read<+T> = Got(value: T) | EndOfData {
    predicate IsFailure() { EndOfData? }

    function PropagateFailure<U>(): Read<U>
      requires EndOfData?
    {
      EndOfData
    }

    function Extract(): T
      requires Got?
    {
      value
    }
  }

  class Stream {
    const data: seq<byte>
    const base: int
    var pos: nat

    constructor (data: seq<byte>, base: int)
      ensures this.data == data && this.base == base && pos == 0
    {
      this.data := data;
      this.base := base;
      pos := 0;
    }

    /** From a position on, n bytes were read, or the data ended before that. */
    ghost predicate Took(start: nat, n: nat, got: bool)
      reads this`pos
    {
      && pos <= |data|
      && (got <==> start + n <= |data|)
      && (got ==> pos == start + n)
    }

    method Word() returns (r: Read<nat>)
      requires pos <= |data|
      modifies this`pos
      ensures Took(old(pos), 2, r.Got?)
      ensures r.Got? ==> r.value == WordAt(data, old(pos))
    {
      if pos + 2 > |data| { return EndOfData; }
      var w := WordAt(data, pos);
      pos := pos + 2;
      return Got(w);
    }

    method Long() returns (r: Read<nat>)
      requires pos <= |data|
      modifies this`pos
      ensures Took(old(pos), 4, r.Got?)
    {
      var hi :- Word();
      var lo :- Word();
      return Got(hi * 0x10000 + lo);
    }

    /** _decode_ea. */
    method DecodeEa(mode: bv16, reg: bv16, size: bv16) returns (r: Read<bool>)
      requires pos <= |data|
      modifies this`pos
      ensures Took(old(pos), EaBytes(mode, reg, size), r.Got?) && (r.Got? ==> r.value)
    {
      if mode == 5 || mode == 6 {
        var d16 :- Word();
      } else if mode == 7 {
        if reg == 0 || reg == 2 || reg == 3 {
          var ext :- Word();
        } else if reg == 1 {
          var addr :- Long();
        } else if reg == 4 {
          if size == 0 || size == 1 {
            var val :- Word();
          } else {
            var val :- Long();
          }
        }
      }
      return Got(true);
    }

    /** _decode_ea_from_word. */
    method EaFromWord(op: bv16, size: bv16) returns (r: Read<bool>)
      requires pos <= |data|
      modifies this`pos
      ensures Took(old(pos), Ea(op, size), r.Got?) && (r.Got? ==> r.value)
    {
      r := DecodeEa(Mode(op), Reg(op), size);
    }

    /** _decode_imm_op. */
    method ImmediateOp(op: bv16) returns (r: Read<bool>)
      requires pos <= |data| && Size(op) != 3
      modifies this`pos
      ensures Took(old(pos), Immediate(op).ext, r.Got?) && (r.Got? ==> r.value)
    {
      hide Ea, Size;
      if Size(op) == 0 || Size(op) == 1 {
        var imm :- Word();
      } else {
        var imm :- Long();
      }
      r := EaFromWord(op, Size(op));
    }

    /** The first part of ORI, ANDI and EORI. */
    method ImmediateOrStatusOp(op: bv16, ccr: bv16, sr: bv16) returns (r: Read<bool>)
      requires pos <= |data|
      modifies this`pos
      ensures var p := ImmediateOrStatus(op, ccr, sr); Took(old(pos), p.ext, r.Got?) && (r.Got? ==> r.value == p.known)
    {
      hide Ea, Size;
      if Size(op) == 3 { return Got(false); }
      if op == ccr || op == sr {
        var val :- Word();
        return Got(true);
      }
      r := ImmediateOp(op);
    }

    /** _decode_0000. */
    method Decode0(op: bv16) returns (r: Read<bool>)
      requires pos <= |data|
      modifies this`pos
      ensures var p := Plan0(op); Took(old(pos), p.ext, r.Got?) && (r.Got? ==> r.value == p.known)
    {
      hide Match, Mode, Size, Sub, Ea, ImmediateOrStatus;
      if !Match(op, 0x0100, 0) {
        if Mode(op) == 1 {
          var disp :- Word();
          return Got(true);
        }
        r := EaFromWord(op, 0);
        return;
      }
      if Sub(op) == 0 {
        r := ImmediateOrStatusOp(op, 0x003C, 0x007C);
      } else if Sub(op) == 1 {
        r := ImmediateOrStatusOp(op, 0x023C, 0x027C);
      } else if Sub(op) == 2 || Sub(op) == 3 || Sub(op) == 6 {
        if Size(op) == 3 { return Got(false); }
        r := ImmediateOp(op);
      } else if Sub(op) == 4 {
        var bit :- Word();
        r := EaFromWord(op, 0);
      } else if Sub(op) == 5 {
        r := ImmediateOrStatusOp(op, 0x0A3C, 0x0A7C);
      } else {
        r := Got(false);
      }
    }

    /** _decode_move: the source operand is read before MOVEA.B is turned down. */
    method DecodeMove(op: bv16) returns (r: Read<bool>)
      requires pos <= |data|
      modifies this`pos
      ensures var p := PlanMove(op); Took(old(pos), p.ext, r.Got?) && (r.Got? ==> r.value == p.known)
    {
      hide Mode, Reg, OpMode, Sub, MoveSize, EaBytes;
      var size := MoveSize(op);
      var src :- DecodeEa(Mode(op), Reg(op), size);
      if OpMode(op) == 1 { return Got(size != 0); }
      r := DecodeEa(OpMode(op), Sub(op), size);
    }

    /** _decode_0100, up to the jumps. */
    method Decode4(op: bv16) returns (r: Read<bool>)
      requires pos <= |data|
      modifies this`pos
      ensures var p := Plan4(op); Took(old(pos), p.ext, r.Got?) && (r.Got? ==> r.value == p.known)
    {
      hide Match, Ea, Plan4Sized;
      if op == 0x4E70 || op == 0x4E71 { return Got(true); }
      if op == 0x4E72 {
        var val :- Word();
        return Got(true);
      }
      if op == 0x4E73 || op == 0x4E75 || op == 0x4E76 || op == 0x4E77 || op == 0x4AFC { return Got(true); }
      if Match(op, 0xFFF0, 0x4E40) { return Got(true); }
      if Match(op, 0xFFF8, 0x4E50) {
        var disp :- Word();
        return Got(true);
      }
      if Match(op, 0xFFF8, 0x4E58) || Match(op, 0xFFF0, 0x4E60) || Match(op, 0xFFF8, 0x4840) { return Got(true); }
      if Match(op, 0xFFC0, 0x4840) {
        r := EaFromWord(op, 2);
        return;
      }
      if Match(op, 0xFFF8, 0x4880) || Match(op, 0xFFF8, 0x48C0) || Match(op, 0xFFF8, 0x49C0) { return Got(true); }
      if Match(op, 0xFB80, 0x4880) {
        var mask :- Word();
        r := EaFromWord(op, if Match(op, 0x0040, 0) then 1 else 2);
        return;
      }
      if Match(op, 0xF1C0, 0x41C0) {
        r := EaFromWord(op, 2);
      } else if Match(op, 0xF1C0, 0x4180) {
        r := EaFromWord(op, 1);
      } else if Match(op, 0xFFC0, 0x4E80) || Match(op, 0xFFC0, 0x4EC0) {
        r := EaFromWord(op, 2);
      } else {
        r := Decode4Sized(op);
      }
    }

    /** The rest of _decode_0100. */
    method Decode4Sized(op: bv16) returns (r: Read<bool>)
      requires pos <= |data|
      modifies this`pos
      ensures var p := Plan4Sized(op); Took(old(pos), p.ext, r.Got?) && (r.Got? ==> r.value == p.known)
    {
      hide Match, Size, Ea;
      if Match(op, 0xFF00, 0x4A00) {
        r := EaFromWord(op, if Size(op) == 3 then 0 else Size(op));
      } else if Match(op, 0xFF00, 0x4400) || Match(op, 0xFF00, 0x4200) {
        if Size(op) == 3 { return Got(false); }
        r := EaFromWord(op, Size(op));
      } else if Match(op, 0xFF00, 0x4000) || Match(op, 0xFF00, 0x4600) {
        r := EaFromWord(op, if Size(op) == 3 then 1 else Size(op));
      } else if Match(op, 0xFFC0, 0x4800) {
        r := EaFromWord(op, 0);
      } else if Match(op, 0xFFC0, 0x44C0) || Match(op, 0xFFC0, 0x46C0) || Match(op, 0xFFC0, 0x40C0) {
        r := EaFromWord(op, 1);
      } else {
        r := Got(false);
      }
    }

    /** _decode_0101. */
    method Decode5(op: bv16) returns (r: Read<bool>)
      requires pos <= |data|
      modifies this`pos
      ensures var p := Plan5(op); Took(old(pos), p.ext, r.Got?) && (r.Got? ==> r.value == p.known)
    {
      hide Mode, Size, Ea;
      if Size(op) == 3 {
        if Mode(op) == 1 {
          var disp :- Word();
          return Got(true);
        }
        r := EaFromWord(op, 0);
        return;
      }
      r := EaFromWord(op, Size(op));
    }

    /** _decode_branch. */
    method DecodeBranch(op: bv16) returns (r: Read<bool>)
      requires pos <= |data|
      modifies this`pos
      ensures var p := PlanBranch(op); Took(old(pos), p.ext, r.Got?) && (r.Got? ==> r.value == p.known)
    {
      hide Match;
      if Match(op, 0x00FF, 0) {
        var disp :- Word();
      } else if Match(op, 0x00FF, 0x00FF) {
        var disp :- Long();
      }
      return Got(true);
    }

    /** _decode_1000. */
    method Decode8(op: bv16) returns (r: Read<bool>)
      requires pos <= |data|
      modifies this`pos
      ensures var p := Plan8(op); Took(old(pos), p.ext, r.Got?) && (r.Got? ==> r.value == p.known)
    {
      hide Mode, OpMode, Size, Ea;
      if OpMode(op) == 3 || OpMode(op) == 7 {
        r := EaFromWord(op, 1);
        return;
      }
      if OpMode(op) == 4 && (Mode(op) == 0 || Mode(op) == 1) { return Got(true); }
      r := EaFromWord(op, Size(op));
    }

    /** _decode_addsub. */
    method DecodeAddSub(op: bv16) returns (r: Read<bool>)
      requires pos <= |data|
      modifies this`pos
      ensures var p := PlanAddSub(op); Took(old(pos), p.ext, r.Got?) && (r.Got? ==> r.value == p.known)
    {
      hide Mode, OpMode, Size, Ea;
      if OpMode(op) == 3 {
        r := EaFromWord(op, 1);
        return;
      }
      if OpMode(op) == 7 {
        r := EaFromWord(op, 2);
        return;
      }
      if OpMode(op) == 4 || OpMode(op) == 5 || OpMode(op) == 6 {
        if Mode(op) == 0 || Mode(op) == 1 { return Got(true); }
      }
      r := EaFromWord(op, Size(op));
    }

    /** _decode_1011. */
    method DecodeB(op: bv16) returns (r: Read<bool>)
      requires pos <= |data|
      modifies this`pos
      ensures var p := PlanB(op); Took(old(pos), p.ext, r.Got?) && (r.Got? ==> r.value == p.known)
    {
      hide Mode, OpMode, Ea;
      if OpMode(op) == 3 {
        r := EaFromWord(op, 1);
      } else if OpMode(op) == 7 {
        r := EaFromWord(op, 2);
      } else if OpMode(op) < 3 {
        r := EaFromWord(op, OpMode(op));
      } else if Mode(op) == 1 {
        r := Got(true);
      } else {
        r := EaFromWord(op, OpMode(op) - 4);
      }
    }

    /** _decode_1100. */
    method DecodeC(op: bv16) returns (r: Read<bool>)
      requires pos <= |data|
      modifies this`pos
      ensures var p := PlanC(op); Took(old(pos), p.ext, r.Got?) && (r.Got? ==> r.value == p.known)
    {
      hide Mode, OpMode, Size, Ea;
      if OpMode(op) == 3 || OpMode(op) == 7 {
        r := EaFromWord(op, 1);
        return;
      }
      if OpMode(op) == 4 && (Mode(op) == 0 || Mode(op) == 1) { return Got(true); }
      if OpMode(op) == 5 && (Mode(op) == 0 || Mode(op) == 1) { return Got(true); }
      if OpMode(op) == 6 && Mode(op) == 1 { return Got(true); }
      r := EaFromWord(op, Size(op));
    }

    /** _decode_shift. */
    method DecodeShift(op: bv16) returns (r: Read<bool>)
      requires pos <= |data|
      modifies this`pos
      ensures var p := PlanShift(op); Took(old(pos), p.ext, r.Got?) && (r.Got? ==> r.value == p.known)
    {
      hide Size, Ea;
      if Size(op) == 3 {
        r := EaFromWord(op, 1);
        return;
      }
      return Got(true);
    }

    /** The dispatch of _decode_one on the top four bits. */
    method Dispatch(op: bv16) returns (r: Read<bool>)
      requires pos <= |data|
      modifies this`pos
      ensures var p := PlanOf(op); Took(old(pos), p.ext, r.Got?) && (r.Got? ==> r.value == p.known)
    {
      hide Match, Top, Plan0, PlanMove, Plan4, Plan5, PlanBranch, Plan8, PlanAddSub, PlanB, PlanC, PlanShift;
      var top := Top(op);
      if top == 0 {
        r := Decode0(op);
      } else if top == 1 || top == 2 || top == 3 {
        r := DecodeMove(op);
      } else if top == 4 {
        r := Decode4(op);
      } else if top == 5 {
        r := Decode5(op);
      } else if top == 6 {
        r := DecodeBranch(op);
      } else if top == 7 {
        r := Got(Match(op, 0x0100, 0));
      } else if top == 8 {
        r := Decode8(op);
      } else if top == 9 || top == 13 {
        r := DecodeAddSub(op);
      } else if top == 11 {
        r := DecodeB(op);
      } else if top == 12 {
        r := DecodeC(op);
      } else if top == 14 {
        r := DecodeShift(op);
      } else {
        r := Got(true);
      }
    }

    /** _decode_one. */
    method DecodeOne() returns (r: Read<bool>)
      requires pos <= |data|
      modifies this`pos
      ensures if old(pos) + 2 > |data| then r.EndOfData?
              else var p := PlanOf(OpcodeAt(data, old(pos)));
                   Took(old(pos), 2 + p.ext, r.Got?) && (r.Got? ==> r.value == p.known)
    {
      hide PlanOf;
      var w :- Word();
      r := Dispatch(w as bv16);
    }
  }

  // -------------------------------------------------------------------- the listing

  lemma WordDigits(a: nat, b: nat)
    requires a < 0x100 && b < 0x100
    ensures var w := a * 0x100 + b;
            w / 0x1000 == a / 16 && w / 0x100 % 16 == a % 16 && w / 16 % 16 == b / 16 && w % 16 == b % 16
  {
    var w := a * 0x100 + b;
    assert w / 0x100 == a && w / 16 == a * 16 + b / 16;
    var x, y := a / 16, a % 16;
    assert a == x * 16 + y && w == x * 0x1000 + (y * 0x100 + b);
    var u, v := b / 16, b % 16;
    assert b == u * 16 + v && w == (a * 16 + u) * 16 + v;
  }

  lemma HexOfWord(data: seq<byte>, pos: nat)
    requires pos + 2 <= |data|
    ensures HexWord(WordAt(data, pos)) == Hex(data[pos..pos + 2])
  {
    hide Text.HexDigit;
    var a, b := data[pos], data[pos + 1];
    var s := data[pos..pos + 2];
    assert s[1..] == [b] && s[1..][1..] == [];
    assert Hex([b]) == [Text.HexDigit(b / 16), Text.HexDigit(b % 16)] + Hex([]);
    WordDigits(a, b);
  }

  lemma ListingNext(data: seq<byte>, base: int, pos: nat, count: nat)
    requires pos + 2 <= |data| && count > 0
    ensures var plan := PlanOf(OpcodeAt(data, pos));
            Listing(data, base, pos, count) ==
            if pos + 2 + plan.ext > |data| then [Item(base + pos, HexWord(WordAt(data, pos)), false)]
            else if !plan.known then
              [Item(base + pos, HexWord(WordAt(data, pos)), false)] + Listing(data, base, pos + 2, count - 1)
            else
              [Item(base + pos, Hex(data[pos..pos + 2 + plan.ext]), true)]
              + Listing(data, base, pos + 2 + plan.ext, count - 1)
  {
    hide OpcodeAt, PlanOf, Hex, HexWord, WordAt;
    HexOfWord(data, pos);
  }

  /** disassemble. */
  method Disassemble(data: seq<byte>, base: int, count: nat) returns (result: seq<Item>)
    ensures result == Listing(data, base, 0, count)
  {
    hide PlanOf, OpcodeAt, Hex, HexWord, WordAt, Listing;
    var s := new Stream(data, base);
    result := [];
    var left := count;
    while left > 0
      invariant s.data == data && s.base == base && s.pos <= |data|
      invariant result + Listing(data, base, s.pos, left) == Listing(data, base, 0, count)
    {
      if s.pos + 2 > |data| { break; }
      var addr, start := s.base + s.pos, s.pos;
      ListingNext(data, base, start, left);
      left := left - 1;
      var r := s.DecodeOne();
      if r.EndOfData? {
        s.pos := start;
        var w := s.Word();
        result := result + [Item(addr, HexWord(w.value), false)];
        return;
      }
      var item: Item;
      if !r.value {
        s.pos := start;
        var w := s.Word();
        item := Item(addr, HexWord(w.value), false);
      } else {
        item := Item(addr, Hex(data[start..s.pos]), true);
      }
      Regroup(result, [item], Listing(data, base, s.pos, left));
      result := result + [item];
    }
    ListingEnds(data, base, s.pos, left);
    assert result + [] == result;
  }

  lemma ListingEnds(data: seq<byte>, base: int, pos: nat, count: nat)
    requires count == 0 || pos + 2 > |data|
    ensures Listing(data, base, pos, count) == []
  {
  }

  // ----------------------------------------------------------------- main results

  /** Where a listing stops, and whether an instruction was cut off by the end of the
      data there. */
  function EndOf(data: seq<byte>, pos: nat, count: nat): nat
    decreases count
  {
    if count == 0 || pos + 2 > |data| then pos
    else
      var e := ExtentAt(data, pos);
      if e.truncated then pos + e.size else EndOf(data, pos + e.size, count - 1)
  }

  predicate CutOff(data: seq<byte>, pos: nat, count: nat)
    decreases count
  {
    if count == 0 || pos + 2 > |data| then false
    else
      var e := ExtentAt(data, pos);
      e.truncated || CutOff(data, pos + e.size, count - 1)
  }

  function Hexes(items: seq<Item>): string {
    if items == [] then [] else items[0].hex + Hexes(items[1..])
  }

  lemma {:induction false} HexAppend(a: seq<byte>, b: seq<byte>)
    ensures Hex(a + b) == Hex(a) + Hex(b)
    decreases |a|
  {
    hide Text.HexDigit;
    if a == [] {
      assert a + b == b;
    } else {
      assert (a + b)[1..] == a[1..] + b;
      HexAppend(a[1..], b);
    }
  }

  /** An item covers 2 to 10 bytes, an even number of them; one shown as data, 2. */
  predicate Sound(item: Item) {
    var size := |item.hex| / 2;
    |item.hex| == 2 * size && 2 <= size <= 10 && size % 2 == 0 && (!item.decoded ==> size == 2)
  }

  predicate Contiguous(items: seq<Item>, addr: int) {
    items == [] || (items[0].addr == addr && Contiguous(items[1..], addr + |items[0].hex| / 2))
  }

  lemma ItemIsSound(data: seq<byte>, base: int, pos: nat)
    requires pos + 2 <= |data|
    ensures var item := ItemAt(data, base, pos);
            && Sound(item) && item.addr == base + pos
            && |item.hex| == 2 * ExtentAt(data, pos).size
            && pos + ExtentAt(data, pos).size <= |data|
            && item.hex == Hex(data[pos..pos + ExtentAt(data, pos).size])
  {
    hide OpcodeAt, PlanOf, Hex;
    ExtentFits(data, pos);
  }

  lemma EmptyTiles(data: seq<byte>, base: int, pos: nat, count: nat)
    requires pos <= |data| && (count == 0 || pos + 2 > |data|)
    ensures Listing(data, base, pos, count) == [] && EndOf(data, pos, count) == pos
    ensures Contiguous([], base + pos) && Hexes([]) == Hex(data[pos..pos])
  {
    assert data[pos..pos] == [];
  }

  lemma Prepend(item: Item, rest: seq<Item>, addr: int)
    requires item.addr == addr && Sound(item) && Contiguous(rest, addr + |item.hex| / 2)
    requires forall k :: 0 <= k < |rest| ==> Sound(rest[k])
    ensures Contiguous([item] + rest, addr) && Hexes([item] + rest) == item.hex + Hexes(rest)
    ensures forall k :: 0 <= k < |[item] + rest| ==> Sound(([item] + rest)[k])
  {
    assert ([item] + rest)[1..] == rest;
    hide Sound;
  }

  lemma NothingFollows(addr: int)
    ensures Contiguous([], addr) && Hexes([]) == []
  {
  }

  lemma StepUnfolds(data: seq<byte>, pos: nat, count: nat)
    requires pos + 2 <= |data| && count > 0
    ensures var e := ExtentAt(data, pos);
            && 2 <= e.size && pos + e.size <= |data|
            && EndOf(data, pos, count) == (if e.truncated then pos + e.size else EndOf(data, pos + e.size, count - 1))
            && CutOff(data, pos, count) == (e.truncated || CutOff(data, pos + e.size, count - 1))
  {
    hide ExtentAt;
    ExtentFits(data, pos);
  }

  lemma ListingUnfolds(data: seq<byte>, base: int, pos: nat, count: nat)
    requires pos + 2 <= |data| && count > 0
    ensures Listing(data, base, pos, count) ==
            [ItemAt(data, base, pos)]
            + (if ExtentAt(data, pos).truncated then []
               else Listing(data, base, pos + ExtentAt(data, pos).size, count - 1))
  {
    hide ExtentAt, ItemAt;
  }

  lemma {:induction false} TilesFrom(data: seq<byte>, base: int, pos: nat, count: nat)
    requires pos <= |data|
    ensures var items := Listing(data, base, pos, count);
            var end := EndOf(data, pos, count);
            && pos <= end <= |data|
            && Contiguous(items, base + pos)
            && (forall k :: 0 <= k < |items| ==> Sound(items[k]))
            && Hexes(items) == Hex(data[pos..end])
            && |items| <= count
            && (|items| < count ==> CutOff(data, pos, count) || |data| - end < 2)
    decreases count
  {
    hide *;
    if count == 0 || pos + 2 > |data| {
      EmptyTiles(data, base, pos, count);
    } else {
      var item, e := ItemAt(data, base, pos), ExtentAt(data, pos);
      ItemIsSound(data, base, pos);
      StepUnfolds(data, pos, count);
      ListingUnfolds(data, base, pos, count);
      var next := pos + e.size;
      if e.truncated {
        NothingFollows(base + next);
        Prepend(item, [], base + pos);
        assert item.hex + [] == item.hex;
      } else {
        TilesFrom(data, base, next, count - 1);
        Prepend(item, Listing(data, base, next, count - 1), base + pos);
        HexJoins(data, pos, next, EndOf(data, pos, count));
      }
    }
  }

  lemma HexJoins(data: seq<byte>, i: nat, j: nat, k: nat)
    requires i <= j <= k <= |data|
    ensures Hex(data[i..k]) == Hex(data[i..j]) + Hex(data[j..k])
  {
    hide Hex;
    HexAppend(data[i..j], data[j..k]);
    assert data[i..j] + data[j..k] == data[i..k];
  }

  /** A listing tiles its input: its items follow each other from the base address, each
      covers an even number of bytes from 2 to 10, and together their hexadecimal text is
      that of a prefix of the data. It has count items unless the data runs out. */
  lemma ListingTiles(data: seq<byte>, base: int, count: nat)
    ensures var items := Listing(data, base, 0, count);
            var end := EndOf(data, 0, count);
            && end <= |data|
            && Contiguous(items, base)
            && (forall k :: 0 <= k < |items| ==> Sound(items[k]))
            && Hexes(items) == Hex(data[..end])
            && |items| <= count
            && (|items| < count ==> CutOff(data, 0, count) || |data| - end < 2)
  {
    hide Listing, EndOf, CutOff, Contiguous, Sound, Hexes, Hex;
    TilesFrom(data, base, 0, count);
    assert data[0..EndOf(data, 0, count)] == data[..EndOf(data, 0, count)];
  }

  lemma SameWord(data: seq<byte>, other: seq<byte>, pos: nat, pos': nat)
    requires pos + 2 <= |data| && pos' + 2 <= |other|
    requires data[pos] == other[pos'] && data[pos + 1] == other[pos' + 1]
    ensures WordAt(data, pos) == WordAt(other, pos')
  {
  }

  lemma SameOpcode(data: seq<byte>, other: seq<byte>, pos: nat, pos': nat)
    requires pos + 2 <= |data| && pos' + 2 <= |other|
    requires data[pos] == other[pos'] && data[pos + 1] == other[pos' + 1]
    ensures OpcodeAt(data, pos) == OpcodeAt(other, pos')
  {
    SameWord(data, other, pos, pos');
    hide WordAt;
  }

  /** How far the decoder reads for the first n items of a listing, not counting what it
      reads behind the last of them. */
  function Reach(data: seq<byte>, pos: nat, n: nat): nat
    decreases n
  {
    if n <= 1 || pos + 2 > |data| then 0
    else
      var far, rest := Ahead(data, pos), Reach(data, pos + ExtentAt(data, pos).size, n - 1);
      if far < rest then rest else far
  }

  /** Where the decoder has read to when it has seen the item at a position whole. */
  function Ahead(data: seq<byte>, pos: nat): nat
    requires pos + 2 <= |data|
  {
    pos + 2 + PlanOf(OpcodeAt(data, pos)).ext
  }

  /** Whether an item that was cut off is shown as data again when more bytes follow. */
  predicate StaysData(data: seq<byte>, pos: int, length: nat) {
    0 <= pos && pos + 2 <= |data| && PlanOf(OpcodeAt(data, pos)).known ==> Ahead(data, pos) > length
  }

  lemma ReachUnfolds(data: seq<byte>, pos: nat, n: nat, length: nat)
    requires pos + 2 <= |data|
    ensures n <= 1 ==> Reach(data, pos, n) == 0
    ensures n > 1 ==> (Reach(data, pos, n) <= length <==>
              Ahead(data, pos) <= length && Reach(data, pos + ExtentAt(data, pos).size, n - 1) <= length)
  {
    hide ExtentAt, Ahead;
  }

  lemma SameStart(data: seq<byte>, other: seq<byte>, pos: nat, end: nat)
    requires pos + 2 <= end <= |data| && end <= |other| && other[..end] == data[..end]
    ensures OpcodeAt(other, pos) == OpcodeAt(data, pos)
    ensures other[pos..end] == data[pos..end]
  {
    hide OpcodeAt;
    assert other[pos..end] == other[..end][pos..end] == data[..end][pos..end] == data[pos..end];
    assert other[pos] == other[pos..end][0] == data[pos..end][0] == data[pos];
    assert other[pos + 1] == other[pos..end][1] == data[pos..end][1] == data[pos + 1];
    SameOpcode(data, other, pos, pos);
  }

  /** With the same bytes under an item, the item is the same, and the listing stops after
      it if and only if the decoder could not read as far as it did before. */
  lemma ItemIsLocal(data: seq<byte>, other: seq<byte>, base: int, pos: nat, next: nat)
    requires pos + 2 <= |data| && !ExtentAt(data, pos).truncated && next == pos + ExtentAt(data, pos).size
    requires pos + 2 <= next <= |data| && next <= |other| && other[..next] == data[..next]
    ensures ItemAt(other, base, pos) == ItemAt(data, base, pos)
    ensures ExtentAt(other, pos).truncated <==> Ahead(data, pos) > |other|
    ensures Ahead(data, pos) <= |other| ==> ExtentAt(other, pos) == ExtentAt(data, pos)
  {
    hide PlanOf, OpcodeAt, Hex;
    SameStart(data, other, pos, next);
  }

  lemma CutOffSize(data: seq<byte>, pos: nat)
    requires pos + 2 <= |data| && ExtentAt(data, pos).truncated
    ensures ExtentAt(data, pos).size == 2
  {
    hide PlanOf, OpcodeAt;
  }

  lemma CutOffIsLocal(data: seq<byte>, other: seq<byte>, base: int, pos: nat)
    requires pos + 2 <= |data| && ExtentAt(data, pos).truncated
    requires pos + 2 <= |other| && other[..pos + 2] == data[..pos + 2]
    ensures ItemAt(other, base, pos) == ItemAt(data, base, pos) <==> StaysData(data, pos, |other|)
  {
    hide PlanOf, OpcodeAt, Hex;
    SameStart(data, other, pos, pos + 2);
  }

  /** What was listed depends on the bytes it covers and on how far the decoder read: other
      data with the same bytes up to the end of the listing is listed the same if and only
      if it is long enough for what was read before the last item, and a last item that was
      cut off is still not an instruction there. */
  lemma {:induction false} ListingIsLocal(data: seq<byte>, other: seq<byte>, base: int, pos: nat, count: nat)
    requires pos <= |data|
    requires var end := EndOf(data, pos, count); end <= |data| && end <= |other| && other[..end] == data[..end]
    ensures var items, end := Listing(data, base, pos, count), EndOf(data, pos, count);
            Listing(other, base, pos, |items|) == items <==>
            Reach(data, pos, |items|) <= |other| && (CutOff(data, pos, count) ==> StaysData(data, end - 2, |other|))
    decreases count
  {
    hide *;
    var items := Listing(data, base, pos, count);
    if count == 0 || pos + 2 > |data| {
      ListingEnds(data, base, pos, count);
      ListingEnds(other, base, pos, 0);
      NothingReached(data, pos, count);
    } else if ExtentAt(data, pos).truncated {
      StepUnfolds(data, pos, count);
      ListingUnfolds(data, base, pos, count);
      ListingUnfolds(other, base, pos, 1);
      ListingEnds(other, base, pos + ExtentAt(other, pos).size, 0);
      ReachUnfolds(data, pos, 1, |other|);
      CutOffSize(data, pos);
      CutOffIsLocal(data, other, base, pos);
      assert items == [ItemAt(data, base, pos)];
      assert Listing(other, base, pos, 1) == [ItemAt(other, base, pos)];
      assert [ItemAt(other, base, pos)][0] == ItemAt(other, base, pos);
    } else {
      StepUnfolds(data, pos, count);
      var next, end := pos + ExtentAt(data, pos).size, EndOf(data, pos, count);
      TilesFrom(data, base, next, count - 1);
      var rest := Listing(data, base, next, count - 1);
      ListingUnfolds(data, base, pos, count);
      assert other[..next] == other[..end][..next] == data[..end][..next] == data[..next];
      ItemIsLocal(data, other, base, pos, next);
      ListingIsLocal(data, other, base, next, count - 1);
      ListingUnfolds(other, base, pos, |items|);
      ReachUnfolds(data, pos, |items|, |other|);
      if rest == [] {
        if CutOff(data, next, count - 1) { CutOffIsListed(data, base, next, count - 1); }
        ListingEnds(other, base, next, 0);
      } else if !ExtentAt(other, pos).truncated {
        SameHead(ItemAt(data, base, pos), Listing(other, base, next, |rest|), rest);
      }
    }
  }

  lemma NothingReached(data: seq<byte>, pos: nat, count: nat)
    ensures Reach(data, pos, 0) == 0
    ensures count == 0 || pos + 2 > |data| ==> !CutOff(data, pos, count)
  {
  }

  lemma CutOffIsListed(data: seq<byte>, base: int, pos: nat, count: nat)
    requires CutOff(data, pos, count)
    ensures Listing(data, base, pos, count) != []
  {
    hide ExtentAt, ItemAt;
  }

  lemma SameHead<T>(x: T, a: seq<T>, b: seq<T>)
    ensures [x] + a == [x] + b <==> a == b
  {
    assert ([x] + a)[1..] == a && ([x] + b)[1..] == b;
  }

  /** The one kind of opcode that is refused only after bytes behind it were read. */
  lemma RefusedAfterReading(op: bv16)
    ensures !PlanOf(op).known && PlanOf(op).ext > 0 <==> Top(op) == 1 && OpMode(op) == 1 && Ea(op, 0) > 0
  {
    BranchesAreKnown(op);
    SumsAreKnown(op);
    ComparesAreKnown(op);
    Plan0RefusedAtOnce(op);
    Plan4RefusedAtOnce(op);
    hide Match, Top, Mode, Reg, OpMode, Sub, EaBytes, Ea;
    hide Plan0, Plan4, Plan5, PlanBranch, Plan8, PlanAddSub, PlanB, PlanC, PlanShift;
  }

  lemma BranchesAreKnown(op: bv16)
    ensures Plan5(op).known && PlanBranch(op).known && PlanShift(op).known
  {
    hide Match, Mode, Size, Ea;
  }

  lemma SumsAreKnown(op: bv16)
    ensures Plan8(op).known && PlanAddSub(op).known
  {
    hide Mode, Size, OpMode, Ea;
  }

  lemma ComparesAreKnown(op: bv16)
    ensures PlanB(op).known && PlanC(op).known
  {
    hide Mode, Size, OpMode, Ea;
  }

  lemma Plan0RefusedAtOnce(op: bv16)
    ensures !Plan0(op).known ==> Plan0(op).ext == 0
  {
    hide Match, Top, Mode, Reg, Size, OpMode, Sub, EaBytes, Ea, ImmediateOrStatus, Immediate;
    ImmediateRefusedAtOnce(op, 0x003C, 0x007C);
    ImmediateRefusedAtOnce(op, 0x023C, 0x027C);
    ImmediateRefusedAtOnce(op, 0x0A3C, 0x0A7C);
  }

  lemma Plan4RefusedAtOnce(op: bv16)
    ensures !Plan4(op).known ==> Plan4(op).ext == 0
  {
    hide Match, Top, Mode, Reg, Size, OpMode, Sub, EaBytes, Ea, Plan4Sized;
    SizedRefusedAtOnce(op);
  }

  lemma SizedRefusedAtOnce(op: bv16)
    ensures !Plan4Sized(op).known ==> Plan4Sized(op).ext == 0
  {
    hide Match, Mode, Reg, Size, EaBytes, Ea;
  }

  lemma ImmediateRefusedAtOnce(op: bv16, ccr: bv16, sr: bv16)
    ensures !ImmediateOrStatus(op, ccr, sr).known ==> ImmediateOrStatus(op, ccr, sr).ext == 0
    ensures !Immediate(op).known ==> Immediate(op).ext == 0
  {
    hide Size, Ea;
  }

  /** Listing m + n instructions is listing m and then n from where the first part
      stopped, unless that part ended in a cut-off instruction. */
  lemma {:induction false} SplitFrom(data: seq<byte>, base: int, pos: nat, m: nat, n: nat)
    ensures Listing(data, base, pos, m + n) ==
            Listing(data, base, pos, m)
            + (if CutOff(data, pos, m) then [] else Listing(data, base, EndOf(data, pos, m), n))
    decreases m
  {
    hide *;
    if m == 0 || pos + 2 > |data| {
      ListingEnds(data, base, pos, m);
      StopsHere(data, pos, m);
      if m > 0 {
        ListingEnds(data, base, pos, m + n);
        ListingEnds(data, base, pos, n);
      }
    } else {
      ListingUnfolds(data, base, pos, m);
      ListingUnfolds(data, base, pos, m + n);
      StepUnfolds(data, pos, m);
      if !ExtentAt(data, pos).truncated {
        SplitFrom(data, base, pos + ExtentAt(data, pos).size, m - 1, n);
      }
    }
  }

  lemma StopsHere(data: seq<byte>, pos: nat, count: nat)
    requires count == 0 || pos + 2 > |data|
    ensures EndOf(data, pos, count) == pos && !CutOff(data, pos, count)
  {
  }

  /** A listing from the middle is the listing of the rest at its address. */
  lemma {:induction false} ShiftFrom(data: seq<byte>, base: int, at: nat, pos: nat, count: nat)
    requires at <= |data|
    ensures Listing(data, base, at + pos, count) == Listing(data[at..], base + at, pos, count)
    decreases count
  {
    hide ExtentAt, ItemAt;
    var rest := data[at..];
    if count > 0 && at + pos + 2 <= |data| {
      ItemShifts(data, base, at, pos);
      ShiftFrom(data, base, at, pos + ExtentAt(rest, pos).size, count - 1);
    }
  }

  lemma ItemShifts(data: seq<byte>, base: int, at: nat, pos: nat)
    requires at + pos + 2 <= |data|
    ensures ExtentAt(data, at + pos) == ExtentAt(data[at..], pos)
    ensures ItemAt(data, base, at + pos) == ItemAt(data[at..], base + at, pos)
  {
    hide PlanOf, OpcodeAt, Hex;
    var rest := data[at..];
    SameOpcode(rest, data, pos, at + pos);
    var size := ExtentAt(rest, pos).size;
    if pos + size <= |rest| {
      assert rest[pos..pos + size] == data[at + pos..at + pos + size];
    }
  }

  /** Disassembling m + n instructions is disassembling m and then n of what is left, at
      its address, unless the first part ended in a cut-off instruction. */
  lemma ListingSplits(data: seq<byte>, base: int, m: nat, n: nat)
    ensures EndOf(data, 0, m) <= |data|
    ensures var end := EndOf(data, 0, m);
            Listing(data, base, 0, m + n) ==
            Listing(data, base, 0, m) + (if CutOff(data, 0, m) then [] else Listing(data[end..], base + end, 0, n))
  {
    hide Listing, EndOf, CutOff;
    ListingTiles(data, base, m);
    SplitFrom(data, base, 0, m, n);
    ShiftFrom(data, base, EndOf(data, 0, m), 0, n);
  }
}
