/** Base64 of `b64.c`: `b64_encode` and `b64_decode`, against the bit strings of
    section 4 of RFC 4648. */
module Base64 {
  import opened Bytes

  const WORD: nat := 0x1_0000_0000

  // ------------------------------------------------------------------ bit strings

  /** The low `width` bits of v, most significant first. */
  function BitsOf(v: nat, width: nat): (r: seq<bool>)
    ensures |r| == width
  {
    if width == 0 then [] else BitsOf(v / 2, width - 1) + [v % 2 == 1]
  }

  /** The number a bit string spells. */
  function Number(bits: seq<bool>): nat {
    if bits == [] then 0 else 2 * Number(bits[..|bits| - 1]) + (if bits[|bits| - 1] then 1 else 0)
  }

  function Power(n: nat): (r: nat)
    ensures r > 0
  {
    if n == 0 then 1 else 2 * Power(n - 1)
  }

  lemma {:induction false} NumberOfBits(v: nat, width: nat)
    requires v < Power(width)
    ensures Number(BitsOf(v, width)) == v
  {
    if width > 0 {
      NumberOfBits(v / 2, width - 1);
      assert BitsOf(v, width)[..width - 1] == BitsOf(v / 2, width - 1);
    }
  }

  lemma {:induction false} NumberBound(bits: seq<bool>)
    ensures Number(bits) < Power(|bits|)
    decreases |bits|
  {
    if bits != [] { NumberBound(bits[..|bits| - 1]); }
  }

  lemma {:induction false} NumberAppend(a: seq<bool>, b: seq<bool>)
    ensures Number(a + b) == Number(a) * Power(|b|) + Number(b)
    decreases |b|
  {
    if b == [] {
      assert a + b == a;
    } else {
      var c := b[..|b| - 1];
      NumberAppend(a, c);
      assert (a + b)[..|a + b| - 1] == a + c;
      assert Number(a) * Power(|b|) == 2 * (Number(a) * Power(|c|));
    }
  }

  lemma {:induction false} NumberInjective(a: seq<bool>, b: seq<bool>)
    requires |a| == |b| && Number(a) == Number(b)
    ensures a == b
    decreases |a|
  {
    if a != [] {
      var n := |a| - 1;
      NumberInjective(a[..n], b[..n]);
      assert a == a[..n] + [a[n]] && b == b[..n] + [b[n]];
    }
  }

  function Octet(bits: seq<bool>): byte { Number(bits) % 0x100 }

  /** Whole bytes of a bit string; a rest of fewer than eight bits is dropped. */
  function Octets(bits: seq<bool>): (r: seq<byte>)
    ensures |r| == |bits| / 8
    decreases |bits|
  {
    if |bits| < 8 then [] else [Octet(bits[..8])] + Octets(bits[8..])
  }

  function ByteBits(data: seq<byte>): (r: seq<bool>)
    ensures |r| == 8 * |data|
  {
    if data == [] then [] else BitsOf(data[0], 8) + ByteBits(data[1..])
  }

  lemma OctetsFront(front: seq<bool>, rest: seq<bool>)
    requires |front| == 8
    ensures Octets(front + rest) == [Octet(front)] + Octets(rest)
  {
    hide Octet;
    assert (front + rest)[..8] == front && (front + rest)[8..] == rest;
  }

  lemma OctetOfByte(b: byte)
    ensures Octet(BitsOf(b, 8)) == b
  {
    assert Power(8) == 0x100;
    hide Number, BitsOf, Power;
    NumberOfBits(b, 8);
  }

  lemma {:induction false} OctetsOfBytes(data: seq<byte>, rest: seq<bool>)
    requires |rest| < 8
    ensures Octets(ByteBits(data) + rest) == data
    decreases |data|
  {
    hide *;
    if data == [] {
      NoOctets(rest);
    } else {
      OctetsOfBytes(data[1..], rest);
      OctetOfByte(data[0]);
      ByteBitsFront(data);
      OctetsFront(BitsOf(data[0], 8), ByteBits(data[1..]) + rest);
      assert ByteBits(data) + rest == BitsOf(data[0], 8) + (ByteBits(data[1..]) + rest);
      assert data == [data[0]] + data[1..];
    }
  }

  lemma NoOctets(rest: seq<bool>)
    requires |rest| < 8
    ensures Octets(ByteBits([]) + rest) == []
  {
    assert ByteBits([]) + rest == rest;
  }

  // -------------------------------------------------------------------- alphabet

  /** The alphabet string, in rows of eight. */
  function Row(k: nat): (r: string)
    requires k < 8
    ensures |r| == 8
  {
    match k
    case 0 => "ABCDEFGH"
    case 1 => "IJKLMNOP"
    case 2 => "QRSTUVWX"
    case 3 => "YZabcdef"
    case 4 => "ghijklmn"
    case 5 => "opqrstuv"
    case 6 => "wxyz0123"
    case _ => "456789+/"
  }

  function Symbol(v: nat): (c: char)
    requires v < 64
  {
    Row(v / 8)[v % 8]
  }

  /** The six-bit value of an alphabet character, or -1 for padding and noise. */
  function Value(c: char): (v: int)
    ensures -1 <= v < 64
  {
    if 'A' <= c <= 'Z' then c as int - 'A' as int
    else if 'a' <= c <= 'z' then c as int - 'a' as int + 26
    else if '0' <= c <= '9' then c as int - '0' as int + 52
    else if c == '+' then 62
    else if c == '/' then 63
    else -1
  }

  lemma ValueOfRow(k: nat)
    requires k < 8
    ensures forall j :: 0 <= j < 8 ==> Value(Row(k)[j]) == 8 * k + j
  {
    if k < 4 {
      EarlyRows(k);
    } else {
      LateRows(k);
    }
  }

  lemma EarlyRows(k: nat)
    requires k < 4
    ensures forall j :: 0 <= j < 8 ==> Value(Row(k)[j]) == 8 * k + j
  {
    match k
    case 0 => assert Row(0) == "ABCDEFGH";
    case 1 => assert Row(1) == "IJKLMNOP";
    case 2 => assert Row(2) == "QRSTUVWX";
    case _ => assert Row(3) == "YZabcdef";
  }

  lemma LateRows(k: nat)
    requires 4 <= k < 8
    ensures forall j :: 0 <= j < 8 ==> Value(Row(k)[j]) == 8 * k + j
  {
    match k
    case 4 => assert Row(4) == "ghijklmn";
    case 5 => assert Row(5) == "opqrstuv";
    case 6 => assert Row(6) == "wxyz0123";
    case _ => assert Row(7) == "456789+/";
  }

  lemma ValueOfSymbol(v: nat)
    requires v < 64
    ensures Value(Symbol(v)) == v
  {
    ValueOfRow(v / 8);
  }

  /** The alphabet characters of a text, in order. */
  function Kept(text: string): string {
    if text == [] then []
    else (if Value(text[0]) >= 0 then [text[0]] else []) + Kept(text[1..])
  }

  /** The bits of one character: six, or none for padding and noise. */
  function Sextet(c: char): seq<bool> {
    if Value(c) >= 0 then BitsOf(Value(c), 6) else []
  }

  /** Six bits for every alphabet character of a text. */
  function SextetBits(text: string): (r: seq<bool>)
    ensures |r| == 6 * |Kept(text)|
  {
    if text == [] then [] else Sextet(text[0]) + SextetBits(text[1..])
  }

  lemma SextetBitsFront(s: string)
    ensures s == [] ==> SextetBits(s) == []
    ensures s != [] ==> SextetBits(s) == Sextet(s[0]) + SextetBits(s[1..])
  {
    hide Sextet, Kept;
  }

  lemma {:induction false} SextetBitsAppend(a: string, b: string)
    ensures SextetBits(a + b) == SextetBits(a) + SextetBits(b)
    decreases |a|
  {
    hide *;
    SextetBitsFront(a);
    if a == [] {
      assert a + b == b;
    } else {
      SextetBitsFront(a + b);
      assert (a + b)[1..] == a[1..] + b;
      SextetBitsAppend(a[1..], b);
    }
  }

  lemma {:induction false} SextetBitsOfKept(text: string)
    ensures SextetBits(Kept(text)) == SextetBits(text)
    decreases |text|
  {
    if text != [] {
      SextetBitsOfKept(text[1..]);
      if Value(text[0]) >= 0 {
        assert Kept(text) == [text[0]] + Kept(text[1..]);
        assert Kept(text)[1..] == Kept(text[1..]);
      } else {
        assert Kept(text) == Kept(text[1..]);
      }
    }
  }

  // -------------------------------------------------------------------- encoding

  /** Three bytes as one number. */
  function Group(a: byte, b: byte, c: byte): (n: nat)
    ensures n < 0x100_0000
  {
    (a as int) * 0x10000 + (b as int) * 0x100 + c
  }

  /** The four symbols of a group, most significant first. */
  function Quad(n: nat): (s: string)
    requires n < 0x100_0000
    ensures |s| == 4
  {
    [Symbol(n / 0x40000 % 64), Symbol(n / 0x1000 % 64), Symbol(n / 0x40 % 64), Symbol(n % 64)]
  }

  function Tail(data: seq<byte>): (s: string)
    requires |data| < 3
    ensures |s| == (if data == [] then 0 else 4)
  {
    if |data| == 2 then Quad(Group(data[0], data[1], 0))[..3] + "="
    else if |data| == 1 then Quad(Group(data[0], 0, 0))[..2] + "=="
    else []
  }

  /** What the encoder writes before its terminating NUL. */
  function Encode(data: seq<byte>): string
    decreases |data|
  {
    if |data| < 3 then Tail(data)
    else Quad(Group(data[0], data[1], data[2])) + Encode(data[3..])
  }

  lemma {:induction false} EncodeLength(data: seq<byte>)
    ensures |Encode(data)| == (|data| + 2) / 3 * 4
    decreases |data|
  {
    hide Tail, Quad, Group;
    if |data| >= 3 { EncodeLength(data[3..]); }
  }

  lemma EncodeNext(data: seq<byte>, i: nat)
    requires i + 3 <= |data|
    ensures Encode(data[i..]) == Quad(Group(data[i], data[i + 1], data[i + 2])) + Encode(data[i + 3..])
  {
    assert data[i..][3..] == data[i + 3..];
  }

  /** b64_encode. */
  method B64Encode(data: seq<byte>, out: array<char>) returns (o: nat)
    requires (|data| + 2) / 3 * 4 + 1 <= out.Length
    modifies out
    ensures o == (|data| + 2) / 3 * 4
    ensures out[..o] == Encode(data) && out[o] == '\0'
    ensures forall j :: o < j < out.Length ==> out[j] == old(out[j])
  {
    hide Quad, Encode, Group;
    var i := 0;
    o := 0;
    var len := |data|;
    assert data[0..] == data;
    while i + 3 <= len
      invariant i <= len && 3 * o == 4 * i
      invariant out[..o] + Encode(data[i..]) == Encode(data)
      invariant forall j :: o <= j < out.Length ==> out[j] == old(out[j])
    {
      var n := Group(data[i], data[i + 1], data[i + 2]);
      EncodeNext(data, i);
      Regroup(out[..o], Quad(n), Encode(data[i + 3..]));
      GroupFits(i, o, len);
      PutSymbols(out, o, n, 4);
      o := o + 4;
      i := i + 3;
    }
    TailFits(i, o, len);
    o := PutTail(data, i, out, o);
    out[o] := '\0';
  }

  lemma GroupFits(i: nat, o: nat, len: nat)
    requires 3 * o == 4 * i && i + 3 <= len
    ensures o + 4 <= (len + 2) / 3 * 4
  {
  }

  lemma TailFits(i: nat, o: nat, len: nat)
    requires 3 * o == 4 * i && i <= len < i + 3
    ensures o + (if i == len then 0 else 4) == (len + 2) / 3 * 4
  {
  }

  /** The last group, of one or two bytes, with its padding. */
  method PutTail(data: seq<byte>, i: nat, out: array<char>, o: nat) returns (end: nat)
    requires i <= |data| < i + 3 && o + (if i == |data| then 0 else 4) <= out.Length
    modifies out
    ensures end == o + (if i == |data| then 0 else 4)
    ensures out[..end] == old(out[..o]) + Encode(data[i..])
    ensures forall j :: end <= j < out.Length ==> out[j] == old(out[j])
  {
    hide Quad, Group;
    end := o;
    if |data| - i == 1 {
      var n := Group(data[i], 0, 0);
      PutSymbols(out, o, n, 2);
      out[o + 2] := '=';
      out[o + 3] := '=';
      end := o + 4;
    } else if |data| - i == 2 {
      var n := Group(data[i], data[i + 1], 0);
      PutSymbols(out, o, n, 3);
      out[o + 3] := '=';
      end := o + 4;
    }
  }

  /** Writes the first k symbols of a group. */
  method PutSymbols(out: array<char>, o: nat, n: nat, k: nat)
    requires n < 0x100_0000 && 2 <= k <= 4 && o + k <= out.Length
    modifies out
    ensures out[..o + k] == old(out[..o]) + Quad(n)[..k]
    ensures forall j :: o + k <= j < out.Length ==> out[j] == old(out[j])
  {
    out[o] := Symbol(n / 0x40000 % 64);
    out[o + 1] := Symbol(n / 0x1000 % 64);
    if k > 2 { out[o + 2] := Symbol(n / 0x40 % 64); }
    if k > 3 { out[o + 3] := Symbol(n % 64); }
  }

  // ------------------------------------------------------------ what symbols mean

  function Zeros(n: nat): (r: seq<bool>)
    ensures |r| == n
    ensures forall k :: 0 <= k < n ==> !r[k]
  {
    if n == 0 then [] else [false] + Zeros(n - 1)
  }

  lemma SextetBitsOfSymbol(v: nat)
    requires v < 64
    ensures SextetBits([Symbol(v)]) == BitsOf(v, 6)
  {
    ValueOfSymbol(v);
    assert Sextet(Symbol(v)) == BitsOf(v, 6);
    hide Sextet, Symbol, Value, BitsOf;
    assert SextetBits([]) == [];
    assert [Symbol(v)][1..] == [];
  }

  function FourSextets(a: nat, b: nat, c: nat, d: nat): seq<bool> {
    BitsOf(a, 6) + (BitsOf(b, 6) + (BitsOf(c, 6) + BitsOf(d, 6)))
  }

  function ThreeOctets(a: nat, b: nat, c: nat): seq<bool> {
    BitsOf(a, 8) + (BitsOf(b, 8) + BitsOf(c, 8))
  }

  lemma NumberOfSextets(a: nat, b: nat, c: nat, d: nat)
    requires a < 64 && b < 64 && c < 64 && d < 64
    ensures Number(FourSextets(a, b, c, d)) == ((a * 64 + b) * 64 + c) * 64 + d
    ensures |FourSextets(a, b, c, d)| == 24
  {
    hide BitsOf, Number;
    var u, v, w, x := BitsOf(a, 6), BitsOf(b, 6), BitsOf(c, 6), BitsOf(d, 6);
    assert Power(6) == 64 && Power(12) == 4096 && Power(18) == 0x40000;
    NumberOfBits(a, 6);
    NumberOfBits(b, 6);
    NumberOfBits(c, 6);
    NumberOfBits(d, 6);
    NumberAppend(w, x);
    NumberAppend(v, w + x);
    NumberAppend(u, v + (w + x));
  }

  lemma NumberOfOctets(a: nat, b: nat, c: nat)
    requires a < 0x100 && b < 0x100 && c < 0x100
    ensures Number(ThreeOctets(a, b, c)) == (a * 0x100 + b) * 0x100 + c
    ensures |ThreeOctets(a, b, c)| == 24
  {
    hide BitsOf, Number;
    assert Power(8) == 0x100 && Power(16) == 0x10000;
    NumberOfBits(a, 8);
    NumberOfBits(b, 8);
    NumberOfBits(c, 8);
    NumberAppend(BitsOf(b, 8), BitsOf(c, 8));
    NumberAppend(BitsOf(a, 8), BitsOf(b, 8) + BitsOf(c, 8));
  }

  lemma CutAndJoin(n: nat)
    requires n < 0x100_0000
    ensures ((n / 0x40000 % 64 * 64 + n / 0x1000 % 64) * 64 + n / 0x40 % 64) * 64 + n % 64 == n
  {
    assert n / 0x40 / 64 == n / 0x1000;
    assert n / 0x1000 / 64 == n / 0x40000;
  }

  /** Four sextets carry the same bits as the three bytes they were cut from. */
  lemma GroupBits(a: byte, b: byte, c: byte)
    ensures var n := Group(a, b, c);
            FourSextets(n / 0x40000 % 64, n / 0x1000 % 64, n / 0x40 % 64, n % 64) == ThreeOctets(a, b, c)
  {
    var n := Group(a, b, c);
    assert n == (a as int * 0x100 + b as int) * 0x100 + c;
    CutAndJoin(n);
    hide *;
    NumberOfSextets(n / 0x40000 % 64, n / 0x1000 % 64, n / 0x40 % 64, n % 64);
    NumberOfOctets(a, b, c);
    NumberInjective(FourSextets(n / 0x40000 % 64, n / 0x1000 % 64, n / 0x40 % 64, n % 64), ThreeOctets(a, b, c));
  }

  lemma SextetBitsOfQuad(n: nat)
    requires n < 0x100_0000
    ensures SextetBits(Quad(n)) == FourSextets(n / 0x40000 % 64, n / 0x1000 % 64, n / 0x40 % 64, n % 64)
    ensures SextetBits(Quad(n)[..3]) ==
            BitsOf(n / 0x40000 % 64, 6) + (BitsOf(n / 0x1000 % 64, 6) + BitsOf(n / 0x40 % 64, 6))
    ensures SextetBits(Quad(n)[..2]) == BitsOf(n / 0x40000 % 64, 6) + BitsOf(n / 0x1000 % 64, 6)
  {
    var q := Quad(n);
    var a, b, c, d := q[0], q[1], q[2], q[3];
    assert q == [a] + ([b] + ([c] + [d])) && q[..3] == [a] + ([b] + [c]) && q[..2] == [a] + [b];
    SextetBitsOfSymbol(n / 0x40000 % 64);
    SextetBitsOfSymbol(n / 0x1000 % 64);
    SextetBitsOfSymbol(n / 0x40 % 64);
    SextetBitsOfSymbol(n % 64);
    hide *;
    SextetBitsAppend([c], [d]);
    SextetBitsAppend([b], [c] + [d]);
    SextetBitsAppend([a], [b] + ([c] + [d]));
    SextetBitsAppend([b], [c]);
    SextetBitsAppend([a], [b] + [c]);
    SextetBitsAppend([a], [b]);
  }

  lemma SextetBitsOfPadding(t: string, pad: string)
    requires pad == "=" || pad == "=="
    ensures SextetBits(t + pad) == SextetBits(t)
  {
    SextetBitsAppend(t, pad);
    assert SextetBits(pad[1..]) == [] by { assert SextetBits(pad[1..][..0]) == []; }
  }

  lemma ZeroBits()
    ensures BitsOf(0, 8) == Zeros(8)
  {
    assert Number(Zeros(8)) == 0 by { NumberOfZeros(8); }
    NumberOfBits(0, 8);
    NumberInjective(BitsOf(0, 8), Zeros(8));
  }

  lemma {:induction false} NumberOfZeros(n: nat)
    ensures Number(Zeros(n)) == 0
  {
    if n > 0 {
      NumberOfZeros(n - 1);
      assert Zeros(n)[..n - 1] == Zeros(n - 1);
    }
  }

  /** How many zero bits fill up the last symbol. */
  function Fill(len: nat): nat {
    match len % 3
    case 0 => 0
    case 1 => 4
    case _ => 2
  }

  /** The first eighteen, or twelve, bits of a short group. */
  lemma GroupPrefix(a: byte, b: byte)
    ensures var n := Group(a, b, 0);
            && BitsOf(n / 0x40000 % 64, 6) + (BitsOf(n / 0x1000 % 64, 6) + BitsOf(n / 0x40 % 64, 6))
               == BitsOf(a, 8) + (BitsOf(b, 8) + Zeros(2))
            && (b == 0 ==> BitsOf(n / 0x40000 % 64, 6) + BitsOf(n / 0x1000 % 64, 6) == BitsOf(a, 8) + Zeros(4))
  {
    var n := Group(a, b, 0);
    GroupBits(a, b, 0);
    ZeroBits();
    var bits := ThreeOctets(a, b, 0);
    var v, w, x, y := n / 0x40000 % 64, n / 0x1000 % 64, n / 0x40 % 64, n % 64;
    assert bits == FourSextets(v, w, x, y);
    assert bits == BitsOf(a, 8) + (BitsOf(b, 8) + Zeros(8));
    assert bits[..18] == BitsOf(v, 6) + (BitsOf(w, 6) + BitsOf(x, 6)) by { hide BitsOf, Group; }
    assert bits[..12] == BitsOf(v, 6) + BitsOf(w, 6) by { hide BitsOf, Group; }
    assert bits[..18] == BitsOf(a, 8) + (BitsOf(b, 8) + Zeros(2)) by { hide BitsOf, Group, FourSextets, ThreeOctets; }
    if b == 0 {
      assert bits[..12] == BitsOf(a, 8) + Zeros(4) by { hide BitsOf, Group, FourSextets, ThreeOctets; }
    }
  }

  lemma ShortByteBits(data: seq<byte>)
    ensures |data| == 1 ==> ByteBits(data) == BitsOf(data[0], 8)
    ensures |data| == 2 ==> ByteBits(data) == BitsOf(data[0], 8) + BitsOf(data[1], 8)
  {
    hide BitsOf;
    if |data| == 2 { assert data[1..][1..] == []; }
  }

  lemma TailBits(data: seq<byte>)
    requires |data| < 3
    ensures SextetBits(Tail(data)) == ByteBits(data) + Zeros(Fill(|data|))
  {
    ShortByteBits(data);
    hide SextetBits, BitsOf, Group, Quad, ByteBits, Zeros;
    if |data| == 0 {
      assert SextetBits([]) == [] && ByteBits([]) == [] && |Zeros(0)| == 0;
    } else {
      var a, b := data[0], if |data| == 2 then data[1] else 0;
      var n := Group(a, b, 0);
      SextetBitsOfQuad(n);
      GroupPrefix(a, b);
      if |data| == 2 {
        SextetBitsOfPadding(Quad(n)[..3], "=");
      } else {
        SextetBitsOfPadding(Quad(n)[..2], "==");
      }
    }
  }

  lemma FillOfRest(len: nat)
    requires len >= 3
    ensures Fill(len) == Fill(len - 3)
  {
  }

  lemma ByteBitsOfThree(data: seq<byte>)
    requires |data| >= 3
    ensures ByteBits(data) == ThreeOctets(data[0], data[1], data[2]) + ByteBits(data[3..])
  {
    hide BitsOf, ByteBits;
    ByteBitsFront(data);
    ByteBitsFront(data[1..]);
    ByteBitsFront(data[2..]);
    assert data[1..][1..] == data[2..] && data[2..][1..] == data[3..];
  }

  lemma ByteBitsFront(data: seq<byte>)
    requires data != []
    ensures ByteBits(data) == BitsOf(data[0], 8) + ByteBits(data[1..])
  {
  }

  /** Section 4 of RFC 4648: the symbols spell the bits of the data, filled up with
      zeros to whole symbols, and `=` fills up the last group of four. */
  lemma {:induction false} EncodeMeaning(data: seq<byte>)
    ensures SextetBits(Encode(data)) == ByteBits(data) + Zeros(Fill(|data|))
    decreases |data|
  {
    hide Tail, Quad, Group, Fill, Zeros, BitsOf;
    if |data| < 3 {
      TailBits(data);
    } else {
      var n := Group(data[0], data[1], data[2]);
      EncodeMeaning(data[3..]);
      assert Fill(|data|) == Fill(|data[3..]|) by { FillOfRest(|data|); }
      SextetBitsAppend(Quad(n), Encode(data[3..]));
      SextetBitsOfQuad(n);
      GroupBits(data[0], data[1], data[2]);
      ByteBitsOfThree(data);
    }
  }

  // -------------------------------------------------------------------- decoding

  /** What decoding means: the whole bytes of the bits the text spells. */
  function Decode(text: string): (r: seq<byte>)
    ensures |r| == 6 * |Kept(text)| / 8
  {
    Octets(SextetBits(text))
  }

  lemma EightLess(n: nat)
    requires n % 8 == 0 && n > 0
    ensures n >= 8 && (n - 8) % 8 == 0
  {
  }

  /** After whole bytes the rest is cut into bytes by itself. */
  lemma {:induction false} OctetsSplit(whole: seq<bool>, rest: seq<bool>)
    requires |whole| % 8 == 0
    ensures Octets(whole + rest) == Octets(whole) + Octets(rest)
    decreases |whole|
  {
    hide *;
    if whole == [] {
      NoOctetsOf([]);
      assert whole + rest == rest;
    } else {
      EightLess(|whole|);
      var front, more := whole[..8], whole[8..];
      OctetsSplit(more, rest);
      OctetsFront(front, more + rest);
      OctetsFront(front, more);
      assert whole == front + more && whole + rest == front + (more + rest);
    }
  }

  lemma NoOctetsOf(bits: seq<bool>)
    requires |bits| < 8
    ensures Octets(bits) == []
  {
  }

  /** Fewer than sixteen bits are one byte or none. */
  lemma OneOctet(bits: seq<bool>)
    requires 8 <= |bits| < 16
    ensures Octets(bits) == [Octet(bits[..8])]
  {
    NoOctetsOf(bits[8..]);
    hide Octet;
  }

  lemma OctetsAppend(bits: seq<bool>, more: seq<bool>)
    requires |bits| % 8 + |more| < 16
    ensures var at := |bits| / 8 * 8;
            Octets(bits + more) == Octets(bits) +
              (if |bits| % 8 + |more| < 8 then [] else [Octet((bits + more)[at..at + 8])])
  {
    hide *;
    var at := |bits| / 8 * 8;
    WholePart(|bits|);
    var whole, tail := bits[..at], bits[at..];
    assert bits == whole + tail && bits + more == whole + (tail + more);
    OctetsSplit(whole, tail);
    OctetsSplit(whole, tail + more);
    NoOctetsOf(tail);
    if |tail + more| < 8 {
      NoOctetsOf(tail + more);
    } else {
      OneOctet(tail + more);
      assert (tail + more)[..8] == (bits + more)[at..at + 8];
    }
  }

  lemma WholePart(n: nat)
    ensures n / 8 * 8 <= n && n - n / 8 * 8 == n % 8 && n / 8 * 8 % 8 == 0
  {
  }

  /** The eight bits above the last `low` ones, read off the number the string spells. */
  lemma MiddleByte(bits: seq<bool>, low: nat)
    requires low + 8 <= |bits|
    ensures Octet(bits[|bits| - low - 8..|bits| - low]) == Number(bits) / Power(low) % 0x100
  {
    var high, mid, rest := bits[..|bits| - low - 8], bits[|bits| - low - 8..|bits| - low], bits[|bits| - low..];
    assert bits == (high + mid) + rest;
    hide *;
    MiddleOfThree(high, mid, rest);
  }

  lemma MiddleOfThree(high: seq<bool>, mid: seq<bool>, rest: seq<bool>)
    requires |mid| == 8
    ensures Octet(mid) == Number((high + mid) + rest) / Power(|rest|) % 0x100
  {
    assert Power(8) == 0x100;
    assert Octet(mid) == Number(mid) % 0x100;
    hide *;
    NumberAppend(high + mid, rest);
    NumberAppend(high, mid);
    NumberBound(rest);
    NumberBound(mid);
    MiddleDigit(Number(high), Number(mid), Power(|rest|), Number(rest));
  }

  lemma MiddleDigit(h: nat, m: nat, p: nat, r: nat)
    requires m < 0x100 && r < p
    ensures ((h * 0x100 + m) * p + r) / p % 0x100 == m
  {
    DivideBack(h * 0x100 + m, p, r);
    ModuloBack(h, m);
  }

  lemma ModuloBack(h: nat, m: nat)
    requires m < 0x100
    ensures (h * 0x100 + m) % 0x100 == m
  {
  }

  lemma DivideBack(h: nat, p: nat, r: nat)
    requires r < p
    ensures (h * p + r) / p == h
  {
    var q := (h * p + r) / p;
    assert h * p + r == q * p + (h * p + r) % p;
    assert q < h ==> (q + 1) * p <= h * p;
    assert h < q ==> (h + 1) * p <= q * p;
  }

  lemma WrapBelowByte(q: nat, r: nat)
    ensures (q * WORD + r) % 0x100 == r % 0x100
  {
  }

  lemma WrapBelowQuarter(q: nat, r: nat)
    ensures (q * WORD + r) / 4 == q * 0x4000_0000 + r / 4
  {
  }

  lemma WrapBelowSixteenth(q: nat, r: nat)
    ensures (q * WORD + r) / 16 == q * 0x1000_0000 + r / 16
  {
  }

  lemma WrapBelowRest(q: nat, r: nat)
    ensures (q * WORD + r) / 64 == q * 0x400_0000 + r / 64
  {
  }

  lemma ModuloOfWhole(k: nat, r: nat)
    ensures (k * 0x100 + r) % 0x100 == r % 0x100
  {
  }

  /** Wrapping the accumulator to 32 bits changes nothing in the byte that is read. */
  lemma WrapIsHarmless(n: nat, low: nat)
    requires low == 0 || low == 2 || low == 4 || low == 6
    ensures n % WORD / Power(low) % 0x100 == n / Power(low) % 0x100
  {
    assert Power(0) == 1 && Power(2) == 4 && Power(4) == 16 && Power(6) == 64;
    hide Power;
    var q, r := n / WORD, n % WORD;
    assert n == q * WORD + r;
    if low == 0 {
      WrapBelowByte(q, r);
    } else if low == 2 {
      WrapBelowQuarter(q, r);
      ModuloOfWhole(q * 0x40_0000, r / 4);
    } else if low == 4 {
      WrapBelowSixteenth(q, r);
      ModuloOfWhole(q * 0x10_0000, r / 16);
    } else if low == 6 {
      WrapBelowRest(q, r);
      ModuloOfWhole(q * 0x4_0000, r / 64);
    }
  }

  function Shifted(acc: nat, v: nat): nat { (acc * 64 + v) % WORD }

  lemma ShiftedNumber(bits: seq<bool>, v: nat)
    requires v < 64
    ensures Shifted(Number(bits) % WORD, v) == Number(bits + BitsOf(v, 6)) % WORD
  {
    assert Power(6) == 64;
    hide Number, BitsOf, Power;
    NumberAppend(bits, BitsOf(v, 6));
    NumberOfBits(v, 6);
    ShiftWraps(Number(bits), v);
  }

  lemma ShiftWraps(n: nat, v: nat)
    ensures (n % WORD * 64 + v) % WORD == (n * 64 + v) % WORD
  {
    var q, r := n / WORD, n % WORD;
    assert n * 64 + v == q * 64 * WORD + (r * 64 + v);
    ModOfMultiple(q * 64, r * 64 + v);
  }

  lemma ModOfMultiple(k: nat, r: nat)
    ensures (k * WORD + r) % WORD == r % WORD
  {
  }

  /** b64_decode; acc wraps at 32 bits as a ULONG does. */
  method B64Decode(text: string, out: array<byte>) returns (o: nat)
    requires |Decode(text)| <= out.Length
    modifies out
    ensures o == 6 * |Kept(text)| / 8 && out[..o] == Decode(text)
    ensures forall j :: o <= j < out.Length ==> out[j] == old(out[j])
  {
    hide SextetBits, Octets, Number, BitsOf, Decode, Kept, Value, Shifted, Power;
    DecodeIs(text);
    o := 0;
    var acc: nat := 0;
    var bits := 0;
    var i := 0;
    ghost var spelt: seq<bool> := [];
    NothingSpelt();
    assert text[..0] == [];
    while i < |text|
      invariant i <= |text| && spelt == SextetBits(text[..i])
      invariant |spelt| == 8 * o + bits && (bits == 0 || bits == 2 || bits == 4 || bits == 6)
      invariant o <= out.Length && out[..o] == Octets(spelt)
      invariant acc == Number(spelt) % WORD
      invariant forall j :: o <= j < out.Length ==> out[j] == old(out[j])
    {
      var v := Value(text[i]);
      SextetBitsNext(text, i);
      PrefixFits(text, i + 1);
      i := i + 1;
      if v >= 0 {
        SymbolArrives(spelt, v, bits);
        spelt := spelt + BitsOf(v, 6);
        acc := Shifted(acc, v);
        bits := bits + 6;
        if bits >= 8 {
          bits := bits - 8;
          out[o] := acc / Power(bits) % 0x100;
          o := o + 1;
        }
      }
    }
    assert text[..i] == text;
  }

  /** Six more bits: the accumulator follows, and yields the next whole byte. */
  lemma SymbolArrives(spelt: seq<bool>, v: nat, bits: nat)
    requires v < 64 && |spelt| % 8 == bits && (bits == 0 || bits == 2 || bits == 4 || bits == 6)
    ensures var next := spelt + BitsOf(v, 6);
            && Number(next) % WORD == Shifted(Number(spelt) % WORD, v)
            && Octets(next) == Octets(spelt) +
               (if bits < 2 then [] else [Number(next) % WORD / Power(bits - 2) % 0x100])
  {
    hide *;
    var next := spelt + BitsOf(v, 6);
    ShiftedNumber(spelt, v);
    OctetsAppend(spelt, BitsOf(v, 6));
    if bits >= 2 {
      MiddleByte(next, bits - 2);
      WrapIsHarmless(Number(next), bits - 2);
      var at := |spelt| / 8 * 8;
      assert at == |next| - (bits - 2) - 8;
    }
  }

  lemma DecodeIs(text: string)
    ensures Decode(text) == Octets(SextetBits(text))
  {
  }

  lemma NothingSpelt()
    ensures SextetBits([]) == [] && Octets([]) == [] && Number([]) == 0 && 0 % WORD == 0
  {
  }

  lemma SextetBitsNext(text: string, i: nat)
    requires i < |text|
    ensures SextetBits(text[..i + 1]) ==
            SextetBits(text[..i]) + (if Value(text[i]) >= 0 then BitsOf(Value(text[i]), 6) else [])
  {
    assert Sextet(text[i]) == if Value(text[i]) >= 0 then BitsOf(Value(text[i]), 6) else [];
    hide Sextet;
    assert text[..i + 1] == text[..i] + [text[i]];
    SextetBitsAppend(text[..i], [text[i]]);
    assert SextetBits([text[i]][1..]) == [];
  }

  lemma PrefixFits(text: string, i: nat)
    requires i <= |text|
    ensures |Octets(SextetBits(text[..i]))| <= |Decode(text)|
  {
    SextetBitsAppend(text[..i], text[i..]);
    assert text == text[..i] + text[i..];
  }

  // ----------------------------------------------------------------- main results

  /** The text of an encoding: whole groups of four, alphabet characters only, except
      for one `=` for every two fill bits at the end. */
  lemma {:induction false} EncodeShape(data: seq<byte>)
    ensures |Encode(data)| == (|data| + 2) / 3 * 4
    ensures forall k :: 0 <= k < |Encode(data)| ==>
              if k < |Encode(data)| - Fill(|data|) / 2 then Value(Encode(data)[k]) >= 0 else Encode(data)[k] == '='
    decreases |data|
  {
    EncodeLength(data);
    if |data| < 3 {
      TailShape(data);
    } else {
      EncodeShape(data[3..]);
      QuadShape(Group(data[0], data[1], data[2]));
      FillOfRest(|data|);
      hide Group, Quad, Fill, Value;
    }
  }

  lemma QuadShape(n: nat)
    requires n < 0x100_0000
    ensures forall k :: 0 <= k < 4 ==> Value(Quad(n)[k]) >= 0
  {
    ValueOfSymbol(n / 0x40000 % 64);
    ValueOfSymbol(n / 0x1000 % 64);
    ValueOfSymbol(n / 0x40 % 64);
    ValueOfSymbol(n % 64);
    hide Symbol, Value;
  }

  lemma TailShape(data: seq<byte>)
    requires |data| < 3
    ensures forall k :: 0 <= k < |Tail(data)| ==>
              if k < |Tail(data)| - Fill(|data|) / 2 then Value(Tail(data)[k]) >= 0 else Tail(data)[k] == '='
  {
    if |data| == 2 {
      TailOfTwo(data);
      hide Tail, Value;
    } else if |data| == 1 {
      TailOfOne(data);
      hide Tail, Value;
    }
  }

  lemma TailOfTwo(data: seq<byte>)
    requires |data| == 2
    ensures Fill(2) == 2 && |Tail(data)| == 4
    ensures forall k :: 0 <= k < 4 ==> if k < 3 then Value(Tail(data)[k]) >= 0 else Tail(data)[k] == '='
  {
    hide *;
    TailIs(data);
    var n := Group(data[0], data[1], 0);
    QuadShape(n);
    ThreeAndPad(Quad(n));
  }

  lemma TailOfOne(data: seq<byte>)
    requires |data| == 1
    ensures Fill(1) == 4 && |Tail(data)| == 4
    ensures forall k :: 0 <= k < 4 ==> if k < 2 then Value(Tail(data)[k]) >= 0 else Tail(data)[k] == '='
  {
    hide *;
    TailIs(data);
    var n := Group(data[0], 0, 0);
    QuadShape(n);
    TwoAndPad(Quad(n));
  }

  lemma TailIs(data: seq<byte>)
    requires 1 <= |data| <= 2
    ensures Fill(1) == 4 && Fill(2) == 2
    ensures |data| == 2 ==> Tail(data) == Quad(Group(data[0], data[1], 0))[..3] + "="
    ensures |data| == 1 ==> Tail(data) == Quad(Group(data[0], 0, 0))[..2] + "=="
  {
    hide Quad, Group;
  }

  lemma ThreeAndPad(quad: string)
    requires |quad| == 4 && forall k :: 0 <= k < 4 ==> Value(quad[k]) >= 0
    ensures var s := quad[..3] + "=";
            forall k :: 0 <= k < 4 ==> if k < 3 then Value(s[k]) >= 0 else s[k] == '='
  {
    hide Value;
  }

  lemma TwoAndPad(quad: string)
    requires |quad| == 4 && forall k :: 0 <= k < 4 ==> Value(quad[k]) >= 0
    ensures var s := quad[..2] + "==";
            forall k :: 0 <= k < 4 ==> if k < 2 then Value(s[k]) >= 0 else s[k] == '='
  {
    hide Value;
  }

  /** Decoding gives the data back from any text with the same alphabet characters as
      its encoding: padding kept or dropped, noise inserted anywhere. */
  lemma RoundTrip(data: seq<byte>, text: string)
    requires Kept(text) == Kept(Encode(data))
    ensures Decode(text) == data
  {
    SextetBitsOfKept(text);
    SextetBitsOfKept(Encode(data));
    EncodeMeaning(data);
    hide SextetBits, Encode, Zeros, ByteBits, Octets;
    OctetsOfBytes(data, Zeros(Fill(|data|)));
  }

  /** The documented output size (inlen / 4) * 3 holds what every text of that length
      decodes to exactly when the length leaves at most one character over. */
  lemma DocumentedDecodeSize(inlen: nat)
    ensures (forall text: string | |text| == inlen :: |Decode(text)| <= inlen / 4 * 3) <==> inlen % 4 <= 1
  {
    if inlen % 4 <= 1 {
      forall text: string | |text| == inlen ensures |Decode(text)| <= inlen / 4 * 3 {
        KeptLength(text);
      }
    } else {
      AllKept(inlen);
      assert |Decode(Letters(inlen))| > inlen / 4 * 3;
    }
  }

  function Letters(n: nat): (s: string)
    ensures |s| == n
  {
    if n == 0 then [] else "A" + Letters(n - 1)
  }

  lemma {:induction false} AllKept(n: nat)
    ensures Kept(Letters(n)) == Letters(n)
  {
    if n > 0 {
      AllKept(n - 1);
      assert Letters(n)[1..] == Letters(n - 1);
    }
  }

  lemma {:induction false} KeptLength(text: string)
    ensures |Kept(text)| <= |text|
    decreases |text|
  {
    if text != [] { KeptLength(text[1..]); }
  }

  // ------------------------------------------------------------------ known values

  /** The alphabet of section 4 of RFC 4648: capitals, small letters, digits, + and /. */
  lemma Alphabet(v: nat)
    requires v < 64
    ensures Symbol(v) as int ==
            if v < 26 then 'A' as int + v
            else if v < 52 then 'a' as int + v - 26
            else if v < 62 then '0' as int + v - 52
            else if v == 62 then '+' as int else '/' as int
  {
    ValueOfSymbol(v);
    hide Symbol;
  }

  lemma QuadSpells(n: nat, a: nat, b: nat, c: nat, d: nat)
    requires a < 64 && b < 64 && c < 64 && d < 64 && n == ((a * 64 + b) * 64 + c) * 64 + d
    ensures n < 0x100_0000 && Quad(n) == [Symbol(a), Symbol(b), Symbol(c), Symbol(d)]
  {
    hide Symbol;
    assert n / 64 == (a * 64 + b) * 64 + c && n / 0x1000 == a * 64 + b && n / 0x40000 == a;
  }

  lemma QuadOfFoo()
    ensures Quad(Group(0x66, 0x6F, 0x6F)) == "Zm9v" && Quad(Group(0x62, 0x61, 0x72)) == "YmFy"
    ensures Quad(Group(0x66, 0x6F, 0)) == "Zm8A" && Quad(Group(0x66, 0, 0)) == "ZgAA"
  {
    QuadSpells(0x666F6F, 25, 38, 61, 47);
    QuadSpells(0x626172, 24, 38, 5, 50);
    QuadSpells(0x666F00, 25, 38, 60, 0);
    QuadSpells(0x660000, 25, 32, 0, 0);
    hide Quad, Symbol;
    Alphabet(0);
    Alphabet(5);
    Alphabet(24);
    Alphabet(25);
    Alphabet(32);
    Alphabet(38);
    Alphabet(47);
    Alphabet(50);
    Alphabet(60);
    Alphabet(61);
  }

  /** The encodings of f, fo, foo and foobar in section 10 of RFC 4648. */
  lemma KnownEncodings()
    ensures Encode([0x66]) == "Zg==" && Encode([0x66, 0x6F]) == "Zm8="
    ensures Encode([0x66, 0x6F, 0x6F]) == "Zm9v"
    ensures Encode([0x66, 0x6F, 0x6F] + [0x62, 0x61, 0x72]) == "Zm9vYmFy"
  {
    QuadOfFoo();
    hide Quad, Group;
    var foo: seq<byte>, bar: seq<byte> := [0x66, 0x6F, 0x6F], [0x62, 0x61, 0x72];
    assert foo[3..] == [] && bar[3..] == [] && (foo + bar)[3..] == bar;
    assert Encode([]) == [] && Encode(bar) == "YmFy" + Encode([]);
  }
}
