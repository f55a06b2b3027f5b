/** The checksum of `fs_checksum` (`fs_access.c`): a nibble-table CRC-32 computed
    over successive reads of a file, against the bit-at-a-time reflected CRC-32
    of RFC 1952, section 8. */
module Crc {

  const POLYNOMIAL: bv32 := 0xEDB88320

  // The word operations have names so that a proof can hide what they do to bits.

  function Xor(a: bv32, b: bv32): bv32 { a ^ b }

  function Wide(b: bv8): bv32 { b as bv32 }

  function Low(c: bv32): (n: bv32)
    ensures n < 16
  {
    c & 0x0F
  }

  function Drop1(c: bv32): bv32 { c >> 1 }

  function Drop4(c: bv32): bv32 { c >> 4 }

  function Drop8(c: bv32): bv32 { c >> 8 }

  function Raise1(c: bv32): bv32 { c << 1 }

  function Raise4(c: bv32): bv32 { c << 4 }

  function Odd(c: bv32): bool { c & 1 == 1 }

  function One(bit: bool): bv32 { if bit then 1 else 0 }

  function Join(bit: bool, rest: bv32): bv32 { One(bit) | (rest << 1) }

  /** One step of the reflected shift register. */
  function Shift(c: bv32): bv32 {
    if Odd(c) then Xor(Drop1(c), POLYNOMIAL) else Drop1(c)
  }

  function ShiftBy(c: bv32, n: nat): bv32
    decreases n
  {
    if n == 0 then c else ShiftBy(Shift(c), n - 1)
  }

  /** The register after one byte, bit by bit. */
  function Absorb(c: bv32, b: bv8): bv32 {
    ShiftBy(Xor(c, Wide(b)), 8)
  }

  function AbsorbAll(c: bv32, data: seq<bv8>): bv32
    decreases |data|
  {
    if data == [] then c else AbsorbAll(Absorb(c, data[0]), data[1..])
  }

  /** CRC-32 of RFC 1952, section 8. */
  function Crc32(data: seq<bv8>): bv32 {
    Xor(AbsorbAll(0xFFFFFFFF, data), 0xFFFFFFFF)
  }

  lemma {:induction false} AbsorbAllAppend(c: bv32, data: seq<bv8>, more: seq<bv8>)
    ensures AbsorbAll(c, data + more) == AbsorbAll(AbsorbAll(c, data), more)
    decreases |data|
  {
    if data == [] {
      assert data + more == more;
    } else {
      assert (data + more)[1..] == data[1..] + more;
      AbsorbAllAppend(Absorb(c, data[0]), data[1..], more);
    }
  }

  // ------------------------------------------------------------ nibble table

  const TABLE: seq<bv32> := [
    0x00000000, 0x1DB71064, 0x3B6E20C8, 0x26D930AC,
    0x76DC4190, 0x6B6B51F4, 0x4DB26158, 0x5005713C,
    0xEDB88320, 0xF00F9344, 0xD6D6A3E8, 0xCB61B38C,
    0x9B64C2B0, 0x86D3D2D4, 0xA00AE278, 0xBDBDF21C]

  function Entry(n: bv32): bv32
    requires n < 16
  {
    TABLE[n as int]
  }

  /** One line of the inner loop: a table lookup on the low nibble. */
  function Nibble(c: bv32, n: bv32): bv32 {
    Xor(Entry(Low(Xor(c, n))), Drop4(c))
  }

  function FourShifts(c: bv32): bv32 {
    Shift(Shift(Shift(Shift(c))))
  }

  lemma TableIsFourShifts(n: bv32)
    requires n < 16
    ensures Entry(n) == FourShifts(n)
  {
  }

  lemma XorCommutes(a: bv32, b: bv32)
    ensures Xor(a, b) == Xor(b, a)
  {
  }

  lemma XorRegroups(a: bv32, b: bv32, c: bv32)
    ensures Xor(Xor(a, b), c) == Xor(a, Xor(b, c))
  {
  }

  lemma XorSwaps(a: bv32, b: bv32, c: bv32)
    ensures Xor(Xor(a, b), c) == Xor(Xor(a, c), b)
  {
    hide *;
    XorRegroups(a, b, c);
    XorRegroups(a, c, b);
    XorCommutes(b, c);
  }

  // Data that is absorbed later can be mixed in now, higher up.

  lemma RaisedIsEven(c: bv32, w: bv32)
    ensures Odd(Xor(c, Raise1(w))) == Odd(c)
  {
  }

  lemma DropRaised(c: bv32, w: bv32)
    requires w < 0x8000_0000
    ensures Drop1(Xor(c, Raise1(w))) == Xor(Drop1(c), w)
  {
  }

  lemma ShiftPast(c: bv32, w: bv32)
    requires w < 0x8000_0000
    ensures Shift(Xor(c, Raise1(w))) == Xor(Shift(c), w)
  {
    hide Xor, Raise1, Drop1, Odd;
    RaisedIsEven(c, w);
    DropRaised(c, w);
    XorSwaps(Drop1(c), w, POLYNOMIAL);
  }

  lemma RaiseByOnes(w: bv32)
    requires w < 0x1000_0000
    ensures Raise4(w) == Raise1(Raise1(Raise1(Raise1(w))))
    ensures Raise1(w) < 0x8000_0000 && Raise1(Raise1(w)) < 0x8000_0000 && Raise1(Raise1(Raise1(w))) < 0x8000_0000
  {
  }

  lemma FourShiftsPast(c: bv32, w: bv32)
    requires w < 0x1000_0000
    ensures FourShifts(Xor(c, Raise4(w))) == Xor(FourShifts(c), w)
  {
    hide Shift, Xor, Raise1, Raise4;
    RaiseByOnes(w);
    ShiftPast(c, Raise1(Raise1(Raise1(w))));
    ShiftPast(Shift(c), Raise1(Raise1(w)));
    ShiftPast(Shift(Shift(c)), Raise1(w));
    ShiftPast(Shift(Shift(Shift(c))), w);
  }

  lemma NibbleParts(c: bv32)
    ensures c == Xor(Low(c), Raise4(Drop4(c))) && Drop4(c) < 0x1000_0000
  {
  }

  lemma FourShiftsByNibble(c: bv32)
    ensures FourShifts(c) == Xor(FourShifts(Low(c)), Drop4(c))
  {
    hide FourShifts, Xor, Low, Drop4, Raise4;
    NibbleParts(c);
    FourShiftsPast(Low(c), Drop4(c));
  }

  lemma FourShiftsByTable(c: bv32)
    ensures FourShifts(c) == Xor(Entry(Low(c)), Drop4(c))
  {
    hide FourShifts, Entry, Low, Xor, Drop4;
    FourShiftsByNibble(c);
    TableIsFourShifts(Low(c));
  }

  lemma ShiftByFour(c: bv32)
    ensures ShiftBy(c, 4) == FourShifts(c)
  {
    assert ShiftBy(c, 4) == ShiftBy(Shift(c), 3) == ShiftBy(Shift(Shift(c)), 2) by { hide Shift; }
  }

  lemma {:induction false} ShiftByAdd(c: bv32, m: nat, n: nat)
    ensures ShiftBy(c, m + n) == ShiftBy(ShiftBy(c, m), n)
    decreases m
  {
    hide Shift;
    if m > 0 { ShiftByAdd(Shift(c), m - 1, n); }
  }

  lemma ShiftByEight(c: bv32)
    ensures ShiftBy(c, 8) == FourShifts(FourShifts(c))
  {
    hide Shift, FourShifts;
    ShiftByAdd(c, 4, 4);
    ShiftByFour(c);
    ShiftByFour(FourShifts(c));
  }

  lemma Drop4Xor(a: bv32, b: bv32)
    ensures Drop4(Xor(a, b)) == Xor(Drop4(a), Drop4(b))
  {
  }

  lemma DropXor(e: bv32, c: bv32, w: bv32)
    ensures Xor(e, Drop4(Xor(c, w))) == Xor(Xor(e, Drop4(c)), Drop4(w))
  {
    hide *;
    Drop4Xor(c, w);
    XorRegroups(e, Drop4(c), Drop4(w));
  }

  lemma ByteEndsAtEight(mid: bv32, b: bv8)
    ensures Drop4(Xor(mid, Drop4(Wide(b)))) == Drop4(mid)
  {
  }

  /** Two table lookups are eight steps of the shift register. */
  lemma NibblesAbsorb(c: bv32, b: bv8)
    ensures Nibble(Nibble(c, Wide(b)), Drop4(Wide(b))) == Absorb(c, b)
  {
    hide FourShifts, Entry, ShiftBy, Shift, Xor, Low, Drop4, Wide;
    var w := Wide(b);
    var mid := Nibble(c, w);
    ShiftByEight(Xor(c, w));
    FourShiftsByTable(Xor(c, w));
    DropXor(Entry(Low(Xor(c, w))), c, w);
    FourShiftsByTable(Xor(mid, Drop4(w)));
    ByteEndsAtEight(mid, b);
  }

  datatype Outcome = Sum(crc: bv32, size: nat) | Failed

  function Flatten(chunks: seq<seq<bv8>>): seq<bv8> {
    if chunks == [] then [] else chunks[0] + Flatten(chunks[1..])
  }

  lemma {:induction false} FlattenAppend(chunks: seq<seq<bv8>>, r: seq<bv8>)
    ensures Flatten(chunks + [r]) == Flatten(chunks) + r
  {
    if chunks != [] {
      assert (chunks + [r])[1..] == chunks[1..] + [r];
      FlattenAppend(chunks[1..], r);
    }
  }

  /** The inner loop of fs_checksum: the register after one buffer of bytes. */
  method AbsorbChunk(start: bv32, chunk: seq<bv8>) returns (crc: bv32)
    ensures crc == AbsorbAll(start, chunk)
  {
    hide Nibble, Absorb, Xor, Drop4, Wide;
    crc := start;
    var i := 0;
    while i < |chunk|
      invariant i <= |chunk|
      invariant crc == AbsorbAll(start, chunk[..i])
    {
      ghost var before := crc;
      crc := Nibble(crc, Wide(chunk[i]));
      crc := Nibble(crc, Drop4(Wide(chunk[i])));
      NibblesAbsorb(before, chunk[i]);
      AbsorbNext(start, chunk, i);
      i := i + 1;
    }
    assert chunk[..i] == chunk;
  }

  lemma AbsorbNext(start: bv32, chunk: seq<bv8>, i: nat)
    requires i < |chunk|
    ensures AbsorbAll(start, chunk[..i + 1]) == Absorb(AbsorbAll(start, chunk[..i]), chunk[i])
  {
    hide Absorb;
    assert chunk[..i + 1] == chunk[..i] + [chunk[i]];
    AbsorbAllAppend(start, chunk[..i], [chunk[i]]);
    var c := AbsorbAll(start, chunk[..i]);
    assert AbsorbAll(c, [chunk[i]]) == AbsorbAll(Absorb(c, chunk[i]), []);
  }

  lemma AbsorbChunks(chunks: seq<seq<bv8>>, k: nat)
    requires k < |chunks|
    ensures AbsorbAll(0xFFFFFFFF, Flatten(chunks[..k + 1])) ==
            AbsorbAll(AbsorbAll(0xFFFFFFFF, Flatten(chunks[..k])), chunks[k])
    ensures |Flatten(chunks[..k + 1])| == |Flatten(chunks[..k])| + |chunks[k]|
  {
    hide Absorb;
    assert chunks[..k + 1] == chunks[..k] + [chunks[k]];
    FlattenAppend(chunks[..k], chunks[k]);
    AbsorbAllAppend(0xFFFFFFFF, Flatten(chunks[..k]), chunks[k]);
  }

  /** A size as a ULONG holds it. */
  function Wrap(n: nat): nat { n % 0x1_0000_0000 }

  lemma WrappedSum(n: nat, m: nat)
    ensures Wrap(Wrap(n) + m) == Wrap(n + m)
  {
    var q, r := n / 0x1_0000_0000, Wrap(n);
    assert n == q * 0x1_0000_0000 + r;
    hide Wrap;
    WholeWraps(q, r + m);
    assert q * 0x1_0000_0000 + (r + m) == n + m;
  }

  lemma WholeWraps(q: nat, x: nat)
    ensures Wrap(q * 0x1_0000_0000 + x) == Wrap(x)
  {
  }

  lemma NothingAbsorbed()
    ensures AbsorbAll(0xFFFFFFFF, Flatten([])) == 0xFFFFFFFF && Wrap(|Flatten([])|) == 0
  {
  }

  lemma Finished(data: seq<bv8>)
    ensures Crc32(data) == Xor(AbsorbAll(0xFFFFFFFF, data), 0xFFFFFFFF)
  {
    hide Xor, AbsorbAll;
  }

  /** fs_checksum over the successive positive results of Read and its last result,
      0 at the end of the file or negative on an error. */
  method FsChecksum(found: bool, chunks: seq<seq<bv8>>, last: int) returns (r: Outcome)
    requires last <= 0
    ensures r == if !found || last < 0 then Failed else Sum(Crc32(Flatten(chunks)), Wrap(|Flatten(chunks)|))
  {
    hide *;
    if !found { return Failed; }
    var crc: bv32 := 0xFFFFFFFF;
    var fileSize: nat := 0;
    var k := 0;
    NothingAbsorbed();
    assert chunks[..0] == [];
    while k < |chunks|
      invariant k <= |chunks|
      invariant crc == AbsorbAll(0xFFFFFFFF, Flatten(chunks[..k]))
      invariant fileSize == Wrap(|Flatten(chunks[..k])|)
    {
      AbsorbChunks(chunks, k);
      WrappedSum(|Flatten(chunks[..k])|, |chunks[k]|);
      crc := AbsorbChunk(crc, chunks[k]);
      fileSize := Wrap(fileSize + |chunks[k]|);
      k := k + 1;
    }
    assert chunks[..k] == chunks;
    Finished(Flatten(chunks));
    if last < 0 { return Failed; }
    return Sum(Xor(crc, 0xFFFFFFFF), fileSize);
  }

  // -------------------------------------------------------- error detection

  lemma HalvesInjective(x: bv32, y: bv32)
    requires Odd(x) == Odd(y) && Drop1(x) == Drop1(y)
    ensures x == y
  {
  }

  /** The polynomial's highest bit tells which way a register was shifted. */
  lemma ShiftShowsOdd(c: bv32)
    ensures Odd(c) <==> Shift(c) >= 0x8000_0000
  {
  }

  lemma ShiftInjective(x: bv32, y: bv32)
    requires Shift(x) == Shift(y)
    ensures x == y
  {
    ShiftShowsOdd(x);
    ShiftShowsOdd(y);
    hide Odd, Drop1, Xor;
    if Odd(x) { XorInjective(POLYNOMIAL, Drop1(x), Drop1(y)); }
    HalvesInjective(x, y);
  }

  lemma XorInjective(a: bv32, x: bv32, y: bv32)
    requires Xor(a, x) == Xor(a, y) || Xor(x, a) == Xor(y, a)
    ensures x == y
  {
  }

  lemma {:induction false} ShiftByInjective(x: bv32, y: bv32, n: nat)
    requires ShiftBy(x, n) == ShiftBy(y, n)
    ensures x == y
    decreases n
  {
    hide Shift;
    if n > 0 {
      ShiftByInjective(Shift(x), Shift(y), n - 1);
      ShiftInjective(x, y);
    }
  }

  /** Equal data keeps different registers different. */
  lemma {:induction false} AbsorbAllInjective(x: bv32, y: bv32, data: seq<bv8>)
    requires AbsorbAll(x, data) == AbsorbAll(y, data)
    ensures x == y
    decreases |data|
  {
    hide ShiftBy, Xor, Wide;
    if data != [] {
      AbsorbAllInjective(Absorb(x, data[0]), Absorb(y, data[0]), data[1..]);
      ShiftByInjective(Xor(x, Wide(data[0])), Xor(y, Wide(data[0])), 8);
      XorInjective(Wide(data[0]), x, y);
    }
  }

  // A file as bits: the lowest bit of each byte first.

  function LowestBits(w: bv32, n: nat): (bits: seq<bool>)
    ensures |bits| == n
    decreases n
  {
    if n == 0 then [] else [Odd(w)] + LowestBits(Drop1(w), n - 1)
  }

  function Bits(data: seq<bv8>): (bits: seq<bool>)
    ensures |bits| == 8 * |data|
  {
    if data == [] then [] else LowestBits(Wide(data[0]), 8) + Bits(data[1..])
  }

  function AbsorbBits(c: bv32, bits: seq<bool>): bv32
    decreases |bits|
  {
    if bits == [] then c else AbsorbBits(Shift(Xor(c, One(bits[0]))), bits[1..])
  }

  /** Bits as one word, the first lowest. */
  function Word(bits: seq<bool>): bv32 {
    if bits == [] then 0 else Join(bits[0], Word(bits[1..]))
  }

  /** Only the lowest n bits of w are set. */
  predicate Fits(w: bv32, n: nat)
    decreases n
  {
    if n == 0 then w == 0 else Fits(Drop1(w), n - 1)
  }

  lemma {:induction false} FitsWider(w: bv32, m: nat, n: nat)
    requires Fits(w, m) && m <= n
    ensures Fits(w, n)
    decreases n
  {
    hide Drop1;
    if m > 0 {
      FitsWider(Drop1(w), m - 1, n - 1);
    } else if n > 0 {
      DropZero();
      FitsWider(Drop1(w), 0, n - 1);
    }
  }

  lemma DropZero()
    ensures Drop1(0) == 0
  {
  }

  lemma EightDrops(w: bv32)
    ensures Drop1(Drop1(Drop1(Drop1(Drop1(Drop1(Drop1(Drop1(w)))))))) == Drop8(w)
  {
  }

  lemma FitsTwoMore(w: bv32, n: nat)
    ensures Fits(w, n + 2) <==> Fits(Drop1(Drop1(w)), n)
  {
    hide Drop1;
    assert Fits(w, n + 2) <==> Fits(Drop1(w), n + 1);
  }

  lemma FitsByte(w: bv32, n: nat)
    ensures Fits(w, n + 8) <==> Fits(Drop8(w), n)
  {
    hide *;
    var v := Drop1(Drop1(Drop1(Drop1(w))));
    FitsTwoMore(w, n + 6);
    FitsTwoMore(Drop1(Drop1(w)), n + 4);
    FitsTwoMore(v, n + 2);
    FitsTwoMore(Drop1(Drop1(v)), n);
    EightDrops(w);
  }

  lemma SevenDrops(w: bv32)
    requires Drop1(Drop1(Drop1(Drop1(Drop1(Drop1(Drop1(w))))))) == 0
    ensures w < 0x80
  {
  }

  lemma FitsSeven(w: bv32)
    requires Fits(w, 7)
    ensures w < 0x80
  {
    var v := Drop1(Drop1(Drop1(Drop1(w))));
    FitsTwoMore(w, 5);
    FitsTwoMore(Drop1(Drop1(w)), 3);
    FitsTwoMore(v, 1);
    assert Fits(Drop1(Drop1(v)), 1) ==> Drop1(Drop1(Drop1(v))) == 0;
    hide *;
    SevenDrops(w);
  }

  lemma ThreeBytes(w: bv32)
    requires Drop8(Drop8(Drop8(w))) < 0x80
    ensures w < 0x8000_0000
  {
  }

  /** Room for one more bit. */
  lemma FitsBelowTop(w: bv32)
    requires Fits(w, 31)
    ensures w < 0x8000_0000
  {
    hide Drop8, Fits;
    FitsByte(w, 23);
    FitsByte(Drop8(w), 15);
    FitsByte(Drop8(Drop8(w)), 7);
    FitsSeven(Drop8(Drop8(Drop8(w))));
    ThreeBytes(w);
  }

  lemma JoinedBits(one: bv32, rest: bv32)
    requires (one == 0 || one == 1) && rest < 0x8000_0000
    ensures (one | (rest << 1)) >> 1 == rest && (one | (rest << 1)) & 1 == one
  {
  }

  lemma DropJoin(bit: bool, rest: bv32)
    requires rest < 0x8000_0000
    ensures Drop1(Join(bit, rest)) == rest && Odd(Join(bit, rest)) == bit
  {
    JoinedBits(One(bit), rest);
  }

  lemma {:induction false} WordFits(bits: seq<bool>)
    requires |bits| <= 32
    ensures Fits(Word(bits), |bits|)
    ensures |bits| <= 31 ==> Word(bits) < 0x8000_0000
    decreases |bits|
  {
    hide Join, Drop1;
    if bits != [] {
      WordFits(bits[1..]);
      DropJoin(bits[0], Word(bits[1..]));
    }
    if |bits| <= 31 {
      FitsWider(Word(bits), |bits|, 31);
      FitsBelowTop(Word(bits));
    }
  }

  lemma {:induction false} WordInjective(u: seq<bool>, v: seq<bool>)
    requires |u| == |v| <= 32 && Word(u) == Word(v)
    ensures u == v
    decreases |u|
  {
    hide Join, Odd, Drop1;
    if u != [] {
      WordFits(u[1..]);
      WordFits(v[1..]);
      DropJoin(u[0], Word(u[1..]));
      DropJoin(v[0], Word(v[1..]));
      WordInjective(u[1..], v[1..]);
      assert u == [u[0]] + u[1..] && v == [v[0]] + v[1..];
    }
  }

  lemma JoinedIsXor(one: bv32, rest: bv32)
    requires one == 0 || one == 1
    ensures one | (rest << 1) == one ^ (rest << 1)
  {
  }

  lemma JoinIsXor(bit: bool, rest: bv32)
    ensures Join(bit, rest) == Xor(One(bit), Raise1(rest))
  {
    JoinedIsXor(One(bit), rest);
  }

  lemma MixHeadAndRest(c: bv32, bit: bool, rest: bv32)
    ensures Xor(c, Join(bit, rest)) == Xor(Xor(c, One(bit)), Raise1(rest))
  {
    hide *;
    JoinIsXor(bit, rest);
    XorRegroups(c, One(bit), Raise1(rest));
  }

  lemma XorZero(c: bv32)
    ensures Xor(c, 0) == c
  {
  }

  /** Absorbing up to 32 bits is one xor followed by a bijection. */
  lemma {:induction false} AbsorbWord(c: bv32, bits: seq<bool>)
    requires |bits| <= 32
    ensures AbsorbBits(c, bits) == ShiftBy(Xor(c, Word(bits)), |bits|)
    decreases |bits|
  {
    hide Shift, Xor, Join, One, Raise1;
    if bits == [] {
      XorZero(c);
    } else {
      var rest := Word(bits[1..]);
      WordFits(bits[1..]);
      AbsorbWord(Shift(Xor(c, One(bits[0]))), bits[1..]);
      MixHeadAndRest(c, bits[0], rest);
      ShiftPast(Xor(c, One(bits[0])), rest);
    }
  }

  /** Different bits in at most 32 places leave different registers. */
  lemma AbsorbBitsInjective(c: bv32, u: seq<bool>, v: seq<bool>)
    requires |u| == |v| <= 32 && AbsorbBits(c, u) == AbsorbBits(c, v)
    ensures u == v
  {
    hide AbsorbBits, ShiftBy, Xor, Word;
    AbsorbWord(c, u);
    AbsorbWord(c, v);
    ShiftByInjective(Xor(c, Word(u)), Xor(c, Word(v)), |u|);
    XorInjective(c, Word(u), Word(v));
    WordInjective(u, v);
  }

  lemma JoinHalves(w: bv32)
    ensures Join(Odd(w), Drop1(w)) == w
  {
  }

  lemma {:induction false} WordOfLowest(w: bv32, n: nat)
    requires Fits(w, n)
    ensures Word(LowestBits(w, n)) == w
    decreases n
  {
    hide Join, Odd, Drop1;
    if n > 0 {
      WordOfLowest(Drop1(w), n - 1);
      assert LowestBits(w, n)[1..] == LowestBits(Drop1(w), n - 1);
      JoinHalves(w);
    }
  }

  lemma DropByte(b: bv8)
    ensures Drop8(Wide(b)) == 0
  {
  }

  lemma WordOfByte(b: bv8)
    ensures Word(LowestBits(Wide(b), 8)) == Wide(b)
  {
    hide Word, LowestBits, Wide, Drop8;
    FitsByte(Wide(b), 0);
    DropByte(b);
    WordOfLowest(Wide(b), 8);
  }

  lemma {:induction false} AbsorbBitsAppend(c: bv32, bits: seq<bool>, more: seq<bool>)
    ensures AbsorbBits(c, bits + more) == AbsorbBits(AbsorbBits(c, bits), more)
    decreases |bits|
  {
    hide Shift, Xor, One;
    if bits == [] {
      assert bits + more == more;
    } else {
      assert (bits + more)[1..] == bits[1..] + more;
      AbsorbBitsAppend(Shift(Xor(c, One(bits[0]))), bits[1..], more);
    }
  }

  /** Absorbing bytes is absorbing their bits. */
  lemma {:induction false} AbsorbAllBits(c: bv32, data: seq<bv8>)
    ensures AbsorbAll(c, data) == AbsorbBits(c, Bits(data))
    decreases |data|
  {
    hide ShiftBy, Xor, Wide, LowestBits, Word;
    if data == [] {
      NoBits(c);
    } else {
      var byte := LowestBits(Wide(data[0]), 8);
      AbsorbAllBits(Absorb(c, data[0]), data[1..]);
      hide AbsorbBits;
      AbsorbWord(c, byte);
      WordOfByte(data[0]);
      AbsorbBitsAppend(c, byte, Bits(data[1..]));
    }
  }

  lemma NoBits(c: bv32)
    ensures AbsorbBits(c, []) == c
  {
  }

  lemma {:induction false} BitsAppend(data: seq<bv8>, more: seq<bv8>)
    ensures Bits(data + more) == Bits(data) + Bits(more)
    decreases |data|
  {
    hide LowestBits, Wide;
    if data == [] {
      assert data + more == more;
    } else {
      assert (data + more)[1..] == data[1..] + more;
      BitsAppend(data[1..], more);
    }
  }

  lemma WideInjective(a: bv8, b: bv8)
    requires Wide(a) == Wide(b)
    ensures a == b
  {
  }

  lemma {:induction false} BitsInjective(f: seq<bv8>, g: seq<bv8>)
    requires Bits(f) == Bits(g)
    ensures f == g
    decreases |f|
  {
    hide LowestBits, Wide, Word;
    assert |f| == |g|;
    if f != [] {
      assert Bits(f)[..8] == LowestBits(Wide(f[0]), 8) && Bits(g)[..8] == LowestBits(Wide(g[0]), 8);
      assert Bits(f)[8..] == Bits(f[1..]) && Bits(g)[8..] == Bits(g[1..]);
      WordOfByte(f[0]);
      WordOfByte(g[0]);
      WideInjective(f[0], g[0]);
      BitsInjective(f[1..], g[1..]);
      assert f == [f[0]] + f[1..] && g == [g[0]] + g[1..];
    }
  }

  lemma {:induction false} AbsorbSameBits(x: bv32, y: bv32, bits: seq<bool>)
    requires AbsorbBits(x, bits) == AbsorbBits(y, bits)
    ensures x == y
    decreases |bits|
  {
    hide Shift, Xor, One;
    if bits != [] {
      var a, b := Xor(x, One(bits[0])), Xor(y, One(bits[0]));
      AbsorbSameBits(Shift(a), Shift(b), bits[1..]);
      ShiftInjective(a, b);
      XorInjective(One(bits[0]), x, y);
    }
  }

  lemma SameSum(c: bv32, front: seq<bool>, u: seq<bool>, v: seq<bool>, back: seq<bool>)
    requires |u| == |v| <= 32
    requires AbsorbBits(c, front + (u + back)) == AbsorbBits(c, front + (v + back))
    ensures u == v
  {
    hide AbsorbBits;
    var d := AbsorbBits(c, front);
    AbsorbBitsAppend(c, front, u + back);
    AbsorbBitsAppend(c, front, v + back);
    AbsorbBitsAppend(d, u, back);
    AbsorbBitsAppend(d, v, back);
    AbsorbSameBits(AbsorbBits(d, u), AbsorbBits(d, v), back);
    AbsorbBitsInjective(d, u, v);
  }

  lemma SameCrcSameRegister(f: seq<bv8>, g: seq<bv8>)
    requires Crc32(f) == Crc32(g)
    ensures AbsorbBits(0xFFFFFFFF, Bits(f)) == AbsorbBits(0xFFFFFFFF, Bits(g))
  {
    hide AbsorbAll, AbsorbBits, Xor, Bits;
    XorInjective(0xFFFFFFFF, AbsorbAll(0xFFFFFFFF, f), AbsorbAll(0xFFFFFFFF, g));
    AbsorbAllBits(0xFFFFFFFF, f);
    AbsorbAllBits(0xFFFFFFFF, g);
  }

  lemma Parts<T>(s: seq<T>, at: nat, n: nat)
    requires at + n <= |s|
    ensures s == s[..at] + (s[at..at + n] + s[at + n..])
  {
  }

  /** Two files of equal length that differ only within 32 consecutive bits, wherever these
      start, never have the same checksum. */
  lemma BurstIsDetected(f: seq<bv8>, g: seq<bv8>, at: nat, n: nat)
    requires |f| == |g| && f != g && n <= 32 && at + n <= 8 * |f|
    requires forall k :: 0 <= k < 8 * |f| && !(at <= k < at + n) ==> Bits(f)[k] == Bits(g)[k]
    ensures Crc32(f) != Crc32(g)
  {
    hide Crc32, Bits, AbsorbBits;
    var a, b := Bits(f), Bits(g);
    if Crc32(f) == Crc32(g) {
      SameCrcSameRegister(f, g);
      Parts(a, at, n);
      Parts(b, at, n);
      assert a[..at] == b[..at] && a[at + n..] == b[at + n..];
      SameSum(0xFFFFFFFF, a[..at], a[at..at + n], b[at..at + n], a[at + n..]);
      BitsInjective(f, g);
      assert false;
    }
  }

  /** So do files that differ only within four or fewer consecutive bytes. */
  lemma ShortBurstIsDetected(f: seq<bv8>, g: seq<bv8>, at: nat, n: nat)
    requires |f| == |g| && f != g && n <= 4 && at + n <= |f|
    requires forall k :: 0 <= k < |f| && !(at <= k < at + n) ==> f[k] == g[k]
    ensures Crc32(f) != Crc32(g)
  {
    hide Crc32, Bits, AbsorbBits;
    Parts(f, at, n);
    Parts(g, at, n);
    assert f[..at] == g[..at] && f[at + n..] == g[at + n..];
    BitsAppend(f[..at], f[at..at + n] + f[at + n..]);
    BitsAppend(f[at..at + n], f[at + n..]);
    BitsAppend(g[..at], g[at..at + n] + g[at + n..]);
    BitsAppend(g[at..at + n], g[at + n..]);
    if Crc32(f) == Crc32(g) {
      SameCrcSameRegister(f, g);
      SameSum(0xFFFFFFFF, Bits(f[..at]), Bits(f[at..at + n]), Bits(g[at..at + n]), Bits(f[at + n..]));
      BitsInjective(f[at..at + n], g[at..at + n]);
      assert false;
    }
  }

  // ------------------------------------------------------------------- check value

  lemma ByteStep(c: bv32, b: bv8, d: bv32)
    requires d == FourShifts(FourShifts(Xor(c, Wide(b))))
    ensures Absorb(c, b) == d
  {
    hide Shift, FourShifts, ShiftBy;
    ShiftByEight(Xor(c, Wide(b)));
  }

  lemma ByteSteps()
    ensures Absorb(0xFFFFFFFF, 0x31) == 0x7C231048 && Absorb(0x7C231048, 0x32) == 0xB0ACBB32
    ensures Absorb(0xB0ACBB32, 0x33) == 0x77B79C2D && Absorb(0x77B79C2D, 0x34) == 0x641C1F5C
    ensures Absorb(0x641C1F5C, 0x35) == 0x340AC5E3 && Absorb(0x340AC5E3, 0x36) == 0xF68D2C9E
    ensures Absorb(0xF68D2C9E, 0x37) == 0xAFFC9660 && Absorb(0xAFFC9660, 0x38) == 0x651F2550
    ensures Absorb(0x651F2550, 0x39) == 0x340BC6D9
  {
    hide Absorb;
    ByteStep(0xFFFFFFFF, 0x31, 0x7C231048);
    ByteStep(0x7C231048, 0x32, 0xB0ACBB32);
    ByteStep(0xB0ACBB32, 0x33, 0x77B79C2D);
    ByteStep(0x77B79C2D, 0x34, 0x641C1F5C);
    ByteStep(0x641C1F5C, 0x35, 0x340AC5E3);
    ByteStep(0x340AC5E3, 0x36, 0xF68D2C9E);
    ByteStep(0xF68D2C9E, 0x37, 0xAFFC9660);
    ByteStep(0xAFFC9660, 0x38, 0x651F2550);
    ByteStep(0x651F2550, 0x39, 0x340BC6D9);
  }

  lemma AbsorbThree(c: bv32, a: bv8, b: bv8, d: bv8)
    ensures AbsorbAll(c, [a, b, d]) == Absorb(Absorb(Absorb(c, a), b), d)
  {
    hide Absorb;
    var two: seq<bv8>, one: seq<bv8> := [b, d], [d];
    assert [a, b, d][1..] == two && two[1..] == one && one[1..] == [];
    assert AbsorbAll(Absorb(Absorb(c, a), b), one) == Absorb(Absorb(Absorb(c, a), b), d);
    assert AbsorbAll(Absorb(c, a), two) == AbsorbAll(Absorb(Absorb(c, a), b), one);
  }

  /** The check value of the CRC-32 that zip and gzip use, for the digits 1 to 9. */
  lemma CheckValue()
    ensures Crc32([0x31, 0x32, 0x33] + [0x34, 0x35, 0x36] + [0x37, 0x38, 0x39]) == 0xCBF43926
  {
    ByteSteps();
    hide Absorb, AbsorbAll;
    AbsorbThree(0xFFFFFFFF, 0x31, 0x32, 0x33);
    AbsorbThree(0x77B79C2D, 0x34, 0x35, 0x36);
    AbsorbThree(0xF68D2C9E, 0x37, 0x38, 0x39);
    AbsorbAllAppend(0xFFFFFFFF, [0x31, 0x32, 0x33], [0x34, 0x35, 0x36]);
    AbsorbAllAppend(0xFFFFFFFF, [0x31, 0x32, 0x33] + [0x34, 0x35, 0x36], [0x37, 0x38, 0x39]);
  }
}
