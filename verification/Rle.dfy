/** The packet run-length code of `rle_encode` (`gfx_inspector.c`) and its decoder
    `rle_decode` (`screenshot.py`). */
module Rle {
  import opened Bytes

  type Pixel = seq<byte>

  const LONGEST: nat := 128

  datatype Packet = Run(n: nat, p: Pixel) | Literal(ps: seq<Pixel>)

  // ------------------------------------------------------------ what packets mean

  function Copies(n: nat, p: Pixel): (r: seq<Pixel>)
    ensures |r| == n && forall k :: 0 <= k < n ==> r[k] == p
  {
    if n == 0 then [] else [p] + Copies(n - 1, p)
  }

  function PacketPixels(k: Packet): seq<Pixel> {
    match k
    case Run(n, p) => Copies(n, p)
    case Literal(ps) => ps
  }

  function PixelsOf(ks: seq<Packet>): seq<Pixel> {
    if ks == [] then [] else PacketPixels(ks[0]) + PixelsOf(ks[1..])
  }

  /** A header value as it is stored, truncated to a byte. */
  function Header(n: int): byte { n % 0x100 }

  /** The header byte and what follows it. */
  function PacketBytes(k: Packet): seq<byte> {
    match k
    case Run(n, p) => [Header(0x80 + n - 1)] + p
    case Literal(ps) => [Header(|ps| - 1)] + Flat(ps)
  }

  function Serial(ks: seq<Packet>): seq<byte> {
    if ks == [] then [] else PacketBytes(ks[0]) + Serial(ks[1..])
  }

  /** A packet its header can announce, over pixels of bpp bytes. */
  predicate Announced(k: Packet, bpp: nat) {
    match k
    case Run(n, p) => 1 <= n <= LONGEST && |p| == bpp
    case Literal(ps) => 1 <= |ps| <= LONGEST && Sized(ps, bpp)
  }

  predicate AllAnnounced(ks: seq<Packet>, bpp: nat) {
    forall i :: 0 <= i < |ks| ==> Announced(ks[i], bpp)
  }

  // --------------------------------------------------------------------- encoding

  /** How far the run at the front of px reaches, n pixels being known to. */
  function RunTo(px: seq<Pixel>, n: nat): (r: nat)
    requires 1 <= n <= |px| && n <= LONGEST
    ensures n <= r <= |px| && r <= LONGEST
    decreases |px| - n
  {
    if n < |px| && n < LONGEST && px[n] == px[0] then RunTo(px, n + 1) else n
  }

  /** Where a literal at the front of px stops: before two equal pixels. */
  function LiteralTo(px: seq<Pixel>, n: nat): (r: nat)
    requires 1 <= n <= |px| && n <= LONGEST
    ensures n <= r <= |px| && r <= LONGEST
    decreases |px| - n
  {
    if n < |px| && n < LONGEST && !(n + 1 < |px| && px[n] == px[n + 1]) then LiteralTo(px, n + 1) else n
  }

  function FirstPacket(px: seq<Pixel>): Packet
    requires px != []
  {
    if RunTo(px, 1) >= 2 then Run(RunTo(px, 1), px[0]) else Literal(px[..LiteralTo(px, 1)])
  }

  function Encode(px: seq<Pixel>): seq<Packet>
    decreases |px|
  {
    if px == [] then []
    else
      var k := FirstPacket(px);
      [k] + Encode(px[|PacketPixels(k)|..])
  }

  /** The bytes of an encoded row. */
  function EncodeBytes(src: seq<byte>, bpp: nat): seq<byte>
    requires bpp > 0
  {
    Serial(Encode(Split(src, bpp)))
  }

  /** pix_eq: whether the pixels at byte offsets a and b agree. */
  method PixEq(src: seq<byte>, a: nat, b: nat, bpp: nat) returns (same: bool)
    requires a + bpp <= |src| && b + bpp <= |src|
    ensures same <==> src[a..a + bpp] == src[b..b + bpp]
  {
    var i := 0;
    while i < bpp
      invariant i <= bpp
      invariant src[a..a + i] == src[b..b + i]
    {
      if src[a + i] != src[b + i] {
        assert src[a..a + bpp][i] != src[b..b + bpp][i];
        return false;
      }
      assert src[a..a + (i + 1)] == src[a..a + i] + [src[a + i]];
      assert src[b..b + (i + 1)] == src[b..b + i] + [src[b + i]];
      i := i + 1;
    }
    return true;
  }

  /** The pixel at an index is one stretch of the source. */
  lemma PixelAt(src: seq<byte>, bpp: nat, count: nat, i: nat)
    requires bpp > 0 && |src| == count * bpp && i < count
    ensures |Split(src, bpp)| == count
    ensures 0 <= i * bpp && i * bpp + bpp <= |src|
    ensures Split(src, bpp)[i] == src[i * bpp..i * bpp + bpp]
  {
    SplitStretch(src, bpp, count, i, i + 1);
    assert (i + 1) * bpp == i * bpp + bpp;
    var px := Split(src, bpp);
    assert px[i..i + 1] == [px[i]];
    assert Flat([px[i]]) == px[i] + Flat([]);
  }

  method RunLength(src: seq<byte>, count: nat, bpp: nat, ip: nat) returns (run: nat)
    requires bpp > 0 && |src| == count * bpp && ip < count
    ensures |Split(src, bpp)| == count
    ensures run == RunTo(Split(src, bpp)[ip..], 1)
  {
    ghost var px := Split(src, bpp);
    PixelAt(src, bpp, count, ip);
    run := 1;
    while ip + run < count && run < 128
      invariant ip + run <= count && 1 <= run <= LONGEST
      invariant RunTo(px[ip..], run) == RunTo(px[ip..], 1)
    {
      PixelAt(src, bpp, count, ip + run);
      var same := PixEq(src, (ip + run) * bpp, ip * bpp, bpp);
      if !same { return; }
      run := run + 1;
    }
  }

  method LiteralLength(src: seq<byte>, count: nat, bpp: nat, ip: nat) returns (lit: nat)
    requires bpp > 0 && |src| == count * bpp && ip < count
    ensures |Split(src, bpp)| == count
    ensures lit == LiteralTo(Split(src, bpp)[ip..], 1)
  {
    ghost var px := Split(src, bpp);
    PixelAt(src, bpp, count, ip);
    lit := 1;
    while ip + lit < count && lit < 128
      invariant ip + lit <= count && 1 <= lit <= LONGEST
      invariant LiteralTo(px[ip..], lit) == LiteralTo(px[ip..], 1)
    {
      if ip + lit + 1 < count {
        PixelAt(src, bpp, count, ip + lit);
        PixelAt(src, bpp, count, ip + lit + 1);
        var same := PixEq(src, (ip + lit) * bpp, (ip + lit + 1) * bpp, bpp);
        if same { return; }
      }
      lit := lit + 1;
    }
  }

  /** Writes a header and n source bytes after it. */
  method Put(out: array<byte>, op: nat, header: byte, src: seq<byte>, from: nat, n: nat) returns (end: nat)
    requires op + 1 + n <= out.Length && from + n <= |src|
    modifies out
    ensures end == op + 1 + n
    ensures out[..end] == old(out[..op]) + ([header] + src[from..from + n])
    ensures forall j :: end <= j < out.Length ==> out[j] == old(out[j])
  {
    out[op] := header;
    end := op + 1;
    var k := 0;
    while k < n
      invariant k <= n && end == op + 1 + k
      invariant out[..end] == old(out[..op]) + ([header] + src[from..from + k])
      invariant forall j :: end <= j < out.Length ==> out[j] == old(out[j])
    {
      out[end] := src[from + k];
      assert src[from..from + k + 1] == src[from..from + k] + [src[from + k]];
      end := end + 1;
      k := k + 1;
    }
  }

  lemma EncodeUnfolds(px: seq<Pixel>, k: Packet, n: nat)
    requires px != [] && k == FirstPacket(px) && n == |PacketPixels(k)| <= |px|
    ensures Encode(px) == [k] + Encode(px[n..])
  {
  }

  lemma SerialCons(k: Packet, ks: seq<Packet>)
    ensures Serial([k] + ks) == PacketBytes(k) + Serial(ks)
  {
    assert ([k] + ks)[1..] == ks;
  }

  lemma RunPacket(px: seq<Pixel>)
    requires px != [] && RunTo(px, 1) >= 2
    ensures var run := RunTo(px, 1);
            var k := Run(run, px[0]);
            && run <= |px| && k == FirstPacket(px) && |PacketPixels(k)| == run
            && PacketBytes(k) == [Header(0x80 + run - 1)] + px[0]
  {
    hide RunTo, LiteralTo, Header;
  }

  lemma LiteralPacket(px: seq<Pixel>)
    requires px != [] && RunTo(px, 1) < 2
    ensures var lit := LiteralTo(px, 1);
            && lit <= |px|
            && var k := Literal(px[..lit]);
               && k == FirstPacket(px) && |PacketPixels(k)| == lit
               && PacketBytes(k) == [Header(lit - 1)] + Flat(px[..lit])
  {
    hide RunTo, LiteralTo, Header, Flat;
  }

  lemma EncodeRun(px: seq<Pixel>)
    requires px != [] && RunTo(px, 1) >= 2
    ensures var run := RunTo(px, 1);
            Serial(Encode(px)) == [Header(0x80 + run - 1)] + px[0] + Serial(Encode(px[run..]))
  {
    hide *;
    var run := RunTo(px, 1);
    var k := Run(run, px[0]);
    RunPacket(px);
    EncodeUnfolds(px, k, run);
    SerialCons(k, Encode(px[run..]));
  }

  lemma EncodeLiteral(px: seq<Pixel>)
    requires px != [] && RunTo(px, 1) < 2
    ensures var lit := LiteralTo(px, 1);
            Serial(Encode(px)) == [Header(lit - 1)] + Flat(px[..lit]) + Serial(Encode(px[lit..]))
  {
    hide *;
    var lit := LiteralTo(px, 1);
    var k := Literal(px[..lit]);
    LiteralPacket(px);
    EncodeUnfolds(px, k, lit);
    SerialCons(k, Encode(px[lit..]));
  }

  /** A run packet at pixel ip, as source bytes under a header. */
  lemma RunStretch(src: seq<byte>, count: nat, bpp: nat, ip: nat)
    requires bpp > 0 && |src| == count * bpp && ip < count
    ensures |Split(src, bpp)| == count
    ensures var px := Split(src, bpp);
            var run := RunTo(px[ip..], 1);
            run >= 2 ==>
              && ip + run <= count
              && 0 <= ip * bpp && ip * bpp + bpp <= |src|
              && Serial(Encode(px[ip..])) ==
                 [Header(0x80 + run - 1)] + src[ip * bpp..ip * bpp + bpp] + Serial(Encode(px[ip + run..]))
  {
    hide Encode, Split, Serial, RunTo, Header;
    PixelAt(src, bpp, count, ip);
    var px := Split(src, bpp);
    var rest := px[ip..];
    var run := RunTo(rest, 1);
    if run >= 2 { EncodeRun(rest); }
    assert rest[run..] == px[ip + run..];
  }

  /** A literal packet at pixel ip, as source bytes under a header. */
  lemma LiteralStretch(src: seq<byte>, count: nat, bpp: nat, ip: nat, lit: nat)
    requires bpp > 0 && |src| == count * bpp && ip < count && |Split(src, bpp)| == count
    requires RunTo(Split(src, bpp)[ip..], 1) < 2
    requires lit == LiteralTo(Split(src, bpp)[ip..], 1) && ip + lit <= count
    ensures 0 <= ip * bpp && ip * bpp + lit * bpp <= |src|
    ensures Serial(Encode(Split(src, bpp)[ip..])) ==
            [Header(lit - 1)] + src[ip * bpp..ip * bpp + lit * bpp] + Serial(Encode(Split(src, bpp)[ip + lit..]))
  {
    hide *;
    EncodeLiteral(Split(src, bpp)[ip..]);
    SplitPart(src, bpp, count, ip, lit);
    assert Split(src, bpp)[ip..][lit..] == Split(src, bpp)[ip + lit..];
  }

  /** Puts the run packet at pixel ip. */
  method PutRun(src: seq<byte>, count: nat, bpp: nat, ip: nat, run: nat, out: array<byte>, op: nat,
                ghost total: seq<byte>)
    returns (end: nat)
    requires bpp > 0 && |src| == count * bpp && ip < count && |Split(src, bpp)| == count
    requires run == RunTo(Split(src, bpp)[ip..], 1) >= 2 && ip + run <= count
    requires op <= out.Length && |total| <= out.Length
    requires out[..op] + Serial(Encode(Split(src, bpp)[ip..])) == total
    modifies out
    ensures op <= end <= out.Length
    ensures out[..end] + Serial(Encode(Split(src, bpp)[ip + run..])) == total
    ensures forall j :: end <= j < out.Length ==> out[j] == old(out[j])
  {
    hide *;
    RunStretch(src, count, bpp, ip);
    ghost var packet := [Header(0x80 + run - 1)] + src[ip * bpp..ip * bpp + bpp];
    Regroup(out[..op], packet, Serial(Encode(Split(src, bpp)[ip + run..])));
    end := Put(out, op, Header(0x80 + run - 1), src, ip * bpp, bpp);
  }

  /** Puts the literal packet at pixel ip. */
  method PutLiteral(src: seq<byte>, count: nat, bpp: nat, ip: nat, lit: nat, out: array<byte>, op: nat,
                    ghost total: seq<byte>)
    returns (end: nat)
    requires bpp > 0 && |src| == count * bpp && ip < count && |Split(src, bpp)| == count
    requires RunTo(Split(src, bpp)[ip..], 1) < 2
    requires lit == LiteralTo(Split(src, bpp)[ip..], 1) && ip + lit <= count
    requires op <= out.Length && |total| <= out.Length
    requires out[..op] + Serial(Encode(Split(src, bpp)[ip..])) == total
    modifies out
    ensures op <= end <= out.Length
    ensures out[..end] + Serial(Encode(Split(src, bpp)[ip + lit..])) == total
    ensures forall j :: end <= j < out.Length ==> out[j] == old(out[j])
  {
    hide *;
    LiteralStretch(src, count, bpp, ip, lit);
    ghost var packet := [Header(lit - 1)] + src[ip * bpp..ip * bpp + lit * bpp];
    Regroup(out[..op], packet, Serial(Encode(Split(src, bpp)[ip + lit..])));
    end := Put(out, op, Header(lit - 1), src, ip * bpp, lit * bpp);
  }

  /** rle_encode: writes the packets of the first count pixels, and nothing past them. */
  method RleEncode(src: seq<byte>, count: nat, bpp: nat, out: array<byte>) returns (op: nat)
    requires bpp > 0 && |src| == count * bpp
    requires |EncodeBytes(src, bpp)| <= out.Length
    modifies out
    ensures op == |EncodeBytes(src, bpp)| && out[..op] == EncodeBytes(src, bpp)
    ensures forall j :: op <= j < out.Length ==> out[j] == old(out[j])
  {
    hide *;
    ghost var px, total := Split(src, bpp), EncodeBytes(src, bpp);
    WholeRow(src, bpp);
    SplitCounts(src, bpp, count);
    var ip := 0;
    op := 0;
    assert px[0..] == px;
    while ip < count
      invariant ip <= count && op <= out.Length
      invariant out[..op] + Serial(Encode(px[ip..])) == total
      invariant forall j :: op <= j < out.Length ==> out[j] == old(out[j])
    {
      var run := RunLength(src, count, bpp, ip);
      if run >= 2 {
        op := PutRun(src, count, bpp, ip, run, out, op, total);
        ip := ip + run;
      } else {
        var lit := LiteralLength(src, count, bpp, ip);
        op := PutLiteral(src, count, bpp, ip, lit, out, op, total);
        ip := ip + lit;
      }
    }
    assert px[ip..] == [];
    NothingLeft();
  }

  lemma NothingLeft()
    ensures Serial(Encode([])) == []
  {
  }

  lemma WholeRow(src: seq<byte>, bpp: nat)
    requires bpp > 0
    ensures EncodeBytes(src, bpp) == Serial(Encode(Split(src, bpp)))
  {
  }

  // --------------------------------------------------------------------- decoding

  function Take(s: seq<byte>, n: nat): seq<byte> { if n <= |s| then s[..n] else s }

  function Drop(s: seq<byte>, n: nat): seq<byte> { if n <= |s| then s[n..] else [] }

  /** How many bytes belong to a header, and what they stand for. */
  function Reach(hdr: byte, bpp: nat): nat {
    if hdr >= 0x80 then bpp else (hdr % 0x80 + 1) * bpp
  }

  function Expand(hdr: byte, body: seq<byte>): seq<byte> {
    if hdr >= 0x80 then Flat(Copies(hdr % 0x80 + 1, body)) else body
  }

  /** What a stream of packets stands for; a cut-off packet yields what is there. */
  function Decode(data: seq<byte>, bpp: nat): seq<byte>
    decreases |data|
  {
    if data == [] then []
    else
      var n := Reach(data[0], bpp);
      Expand(data[0], Take(data[1..], n)) + Decode(Drop(data[1..], n), bpp)
  }

  /** rle_decode. A Python slice stops at the end of the data. */
  method RleDecode(data: seq<byte>, bpp: nat) returns (out: seq<byte>)
    ensures out == Decode(data, bpp)
  {
    hide *;
    out := [];
    var i := 0;
    var n := |data|;
    AllIsLeft(data, bpp);
    while i < n
      invariant 0 <= i
      invariant out + Decode(Drop(data, i), bpp) == Decode(data, bpp)
    {
      var hdr := data[i];
      DecodeAt(data, i, bpp);
      HeaderMeans(hdr, Slice(data, i + 1, i + 1 + Reach(hdr, bpp)), bpp);
      ghost var tail := Decode(Drop(data, i + 1 + Reach(hdr, bpp)), bpp);
      i := i + 1;
      var count := hdr % 0x80 + 1;
      if hdr >= 0x80 {
        var pix := Slice(data, i, i + bpp);
        i := i + bpp;
        Regroup(out, Flat(Copies(count, pix)), tail);
        out := out + Flat(Copies(count, pix));
      } else {
        var nbytes := count * bpp;
        Regroup(out, Slice(data, i, i + nbytes), tail);
        out := out + Slice(data, i, i + nbytes);
        i := i + nbytes;
      }
    }
    NothingIsLeft(data, i, bpp);
    assert out + [] == out;
  }

  lemma AllIsLeft(data: seq<byte>, bpp: nat)
    ensures [] + Decode(Drop(data, 0), bpp) == Decode(data, bpp)
  {
    assert Drop(data, 0) == data;
    hide Decode;
  }

  lemma NothingIsLeft(data: seq<byte>, i: nat, bpp: nat)
    requires i >= |data|
    ensures Decode(Drop(data, i), bpp) == []
  {
    assert Drop(data, i) == [];
    DecodeNothing(bpp);
  }

  lemma HeaderMeans(hdr: byte, body: seq<byte>, bpp: nat)
    ensures hdr >= 0x80 ==> Reach(hdr, bpp) == bpp && Expand(hdr, body) == Flat(Copies(hdr % 0x80 + 1, body))
    ensures hdr < 0x80 ==> Reach(hdr, bpp) == (hdr % 0x80 + 1) * bpp && Expand(hdr, body) == body
  {
    hide Flat, Copies;
  }

  lemma DecodeNothing(bpp: nat)
    ensures Decode([], bpp) == []
  {
  }

  lemma DecodeUnfold(data: seq<byte>, bpp: nat)
    requires data != []
    ensures Decode(data, bpp) ==
            Expand(data[0], Take(data[1..], Reach(data[0], bpp))) + Decode(Drop(data[1..], Reach(data[0], bpp)), bpp)
  {
  }

  lemma SliceOfRest(data: seq<byte>, i: nat, n: nat)
    requires i < |data|
    ensures Drop(data, i) != [] && Drop(data, i)[0] == data[i]
    ensures Take(Drop(data, i)[1..], n) == Slice(data, i + 1, i + 1 + n)
    ensures Drop(Drop(data, i)[1..], n) == Drop(data, i + 1 + n)
  {
  }

  lemma DecodeAt(data: seq<byte>, i: nat, bpp: nat)
    requires i < |data|
    ensures Decode(Drop(data, i), bpp) ==
            Expand(data[i], Slice(data, i + 1, i + 1 + Reach(data[i], bpp)))
            + Decode(Drop(data, i + 1 + Reach(data[i], bpp)), bpp)
  {
    hide *;
    SliceOfRest(data, i, Reach(data[i], bpp));
    DecodeUnfold(Drop(data, i), bpp);
  }

  function Slice(s: seq<byte>, from: nat, to: nat): seq<byte>
    requires from <= to
  {
    Drop(Take(s, to), from)
  }

  lemma {:induction false} DecodeSerial(ks: seq<Packet>, bpp: nat)
    requires AllAnnounced(ks, bpp)
    ensures Decode(Serial(ks), bpp) == Flat(PixelsOf(ks))
    decreases |ks|
  {
    if ks != [] {
      var after := Serial(ks[1..]);
      assert Announced(ks[0], bpp);
      DecodeSerial(ks[1..], bpp);
      FlatAppend(PacketPixels(ks[0]), PixelsOf(ks[1..]));
      DecodeOne(ks[0], after, bpp);
    }
  }

  lemma RunHeaderReads(n: nat, p: Pixel, bpp: nat)
    requires 1 <= n <= LONGEST && |p| == bpp
    ensures Reach(Header(0x80 + n - 1), bpp) == bpp
    ensures Expand(Header(0x80 + n - 1), p) == Flat(Copies(n, p))
  {
    hide Flat, Copies;
  }

  lemma LiteralHeaderReads(ps: seq<Pixel>, bpp: nat)
    requires 1 <= |ps| <= LONGEST && Sized(ps, bpp)
    ensures Reach(Header(|ps| - 1), bpp) == |Flat(ps)|
    ensures Expand(Header(|ps| - 1), Flat(ps)) == Flat(ps)
  {
    FlatLength(ps, bpp);
    LiteralHeader(|ps|);
    hide Flat, Sized, Header, Expand;
    HeaderMeans(Header(|ps| - 1), Flat(ps), bpp);
  }

  lemma LiteralHeader(n: nat)
    requires 1 <= n <= LONGEST
    ensures Header(n - 1) == n - 1 < 0x80 && Header(n - 1) % 0x80 + 1 == n
  {
  }

  lemma HeaderReads(k: Packet, bpp: nat)
    requires Announced(k, bpp)
    ensures Reach(PacketBytes(k)[0], bpp) == |PacketBytes(k)| - 1
    ensures Expand(PacketBytes(k)[0], PacketBytes(k)[1..]) == Flat(PacketPixels(k))
  {
    match k
    case Run(n, p) =>
      RunHeaderReads(n, p, bpp);
      hide Header, Reach, Expand, Flat, Copies;
      assert PacketBytes(k)[1..] == p;
    case Literal(ps) =>
      LiteralHeaderReads(ps, bpp);
      hide Header, Reach, Expand, Flat, Sized;
      assert PacketBytes(k)[1..] == Flat(ps);
  }

  lemma DecodeFront(front: seq<byte>, after: seq<byte>, bpp: nat)
    requires front != [] && Reach(front[0], bpp) == |front| - 1
    ensures Decode(front + after, bpp) == Expand(front[0], front[1..]) + Decode(after, bpp)
  {
    hide Reach, Expand;
    var body := front[1..];
    var data := front + after;
    assert data[1..] == body + after;
    assert Take(body + after, |body|) == body && Drop(body + after, |body|) == after;
  }

  lemma DecodeOne(k: Packet, after: seq<byte>, bpp: nat)
    requires Announced(k, bpp)
    ensures Decode(PacketBytes(k) + after, bpp) == Flat(PacketPixels(k)) + Decode(after, bpp)
  {
    HeaderReads(k, bpp);
    assert |PacketBytes(k)| > 0;
    hide *;
    DecodeFront(PacketBytes(k), after, bpp);
  }

  // ------------------------------------------------------------ what the bytes mean

  /** A run of n pixels is the byte 127 + n and the pixel, a literal of n pixels the byte
      n - 1 and the pixels. */
  lemma PacketForms(k: Packet, bpp: nat)
    requires Announced(k, bpp)
    ensures k.Run? ==> PacketBytes(k) == [127 + k.n] + k.p
    ensures k.Literal? ==> PacketBytes(k) == [|k.ps| - 1] + Flat(k.ps)
  {
    hide Flat;
  }

  /** Any data, from its first byte: 128 or more repeats the next bpp bytes that often less 127,
      less than 128 copies one pixel more than it says; and where the data ends in between,
      what is there is repeated or copied. */
  lemma DecodeForms(header: byte, body: seq<byte>, rest: seq<byte>, bpp: nat)
    ensures var n := if header >= 128 then bpp else (header + 1) * bpp;
            var meaning := if header >= 128 then Flat(Copies(header - 127, body)) else body;
            && (|body| == n ==> Decode([header] + body + rest, bpp) == meaning + Decode(rest, bpp))
            && (|body| < n ==> Decode([header] + body, bpp) == meaning)
    ensures Decode([], bpp) == []
  {
    HeaderCounts(header);
    HeaderMeans(header, body, bpp);
    DecodeNothing(bpp);
    var front := [header] + body;
    assert front[1..] == body;
    hide *;
    if |body| == Reach(header, bpp) {
      DecodeFront(front, rest, bpp);
    } else if |body| < Reach(header, bpp) {
      DecodeUnfold(front, bpp);
      CutOff(body, Reach(header, bpp));
      assert Expand(header, body) + [] == Expand(header, body);
    }
  }

  lemma HeaderCounts(header: byte)
    ensures header % 0x80 + 1 == if header >= 128 then header - 127 else header + 1
  {
  }

  lemma CutOff(body: seq<byte>, n: nat)
    requires |body| < n
    ensures Take(body, n) == body && Drop(body, n) == []
  {
  }

  // ------------------------------------------------------------------ normal form

  function Head(k: Packet): Pixel
    requires k.Literal? ==> k.ps != []
  {
    match k
    case Run(_, p) => p
    case Literal(ps) => ps[0]
  }

  predicate Shaped(k: Packet) {
    match k
    case Run(n, p) => 2 <= n <= LONGEST
    case Literal(ps) => 1 <= |ps| <= LONGEST && forall j :: 0 <= j < |ps| - 1 ==> ps[j] != ps[j + 1]
  }

  /** What a packet leaves to the next one: a run goes on to 128 pixels or to its last
      copy, and a literal stops only at 128 pixels or before a run. */
  predicate Meets(k: Packet, next: Packet)
    requires Shaped(k) && Shaped(next)
  {
    match k
    case Run(n, p) => n < LONGEST ==> Head(next) != p
    case Literal(ps) => ps[|ps| - 1] != Head(next) && (|ps| < LONGEST ==> next.Run?)
  }

  predicate Normal(ks: seq<Packet>) {
    ks == [] || (Shaped(ks[0]) && Normal(ks[1..]) && (|ks| > 1 ==> Meets(ks[0], ks[1])))
  }

  lemma {:induction false} RunToIs(px: seq<Pixel>, m: nat, n: nat)
    requires 1 <= m <= n <= |px| && n <= LONGEST
    requires forall j :: m <= j < n ==> px[j] == px[0]
    requires n == LONGEST || n == |px| || px[n] != px[0]
    ensures RunTo(px, m) == n
    decreases n - m
  {
    if m < n { RunToIs(px, m + 1, n); }
  }

  lemma {:induction false} RunToMeaning(px: seq<Pixel>, m: nat)
    requires 1 <= m <= |px| && m <= LONGEST
    ensures var n := RunTo(px, m);
            && (forall j :: m <= j < n ==> px[j] == px[0])
            && (n == LONGEST || n == |px| || px[n] != px[0])
    decreases |px| - m
  {
    if m < |px| && m < LONGEST && px[m] == px[0] { RunToMeaning(px, m + 1); }
  }

  lemma {:induction false} LiteralToIs(px: seq<Pixel>, m: nat, n: nat)
    requires 1 <= m <= n <= |px| && n <= LONGEST
    requires forall j :: m <= j < n && j + 1 < |px| ==> px[j] != px[j + 1]
    requires n == LONGEST || n == |px| || (n + 1 < |px| && px[n] == px[n + 1])
    ensures LiteralTo(px, m) == n
    decreases n - m
  {
    if m < n { LiteralToIs(px, m + 1, n); }
  }

  lemma {:induction false} LiteralToMeaning(px: seq<Pixel>, m: nat)
    requires 1 <= m <= |px| && m <= LONGEST
    ensures var n := LiteralTo(px, m);
            && (forall j :: m <= j < n && j + 1 < |px| ==> px[j] != px[j + 1])
            && (n == LONGEST || n == |px| || (n + 1 < |px| && px[n] == px[n + 1]))
    decreases |px| - m
  {
    if m < |px| && m < LONGEST && !(m + 1 < |px| && px[m] == px[m + 1]) { LiteralToMeaning(px, m + 1); }
  }

  lemma FirstPacketFits(px: seq<Pixel>)
    requires px != []
    ensures var k := FirstPacket(px);
            && Shaped(k) && Head(k) == px[0]
            && 1 <= |PacketPixels(k)| <= |px| && PacketPixels(k) == px[..|PacketPixels(k)|]
  {
    RunToMeaning(px, 1);
    LiteralToMeaning(px, 1);
    var k := FirstPacket(px);
    if k.Literal? {
      assert k.ps[0] == px[0];
      forall j | 0 <= j < |k.ps| - 1 ensures k.ps[j] != k.ps[j + 1] {
        assert px[j] != px[j + 1];
      }
    }
  }

  lemma FirstPacketMeets(px: seq<Pixel>)
    requires px != [] && |PacketPixels(FirstPacket(px))| < |px|
    ensures Shaped(FirstPacket(px)) && Shaped(FirstPacket(px[|PacketPixels(FirstPacket(px))|..]))
    ensures Meets(FirstPacket(px), FirstPacket(px[|PacketPixels(FirstPacket(px))|..]))
  {
    var k := FirstPacket(px);
    var n := |PacketPixels(k)|;
    var rest := px[n..];
    FirstPacketFits(px);
    FirstPacketFits(rest);
    RunToMeaning(px, 1);
    LiteralToMeaning(px, 1);
    if k.Literal? {
      assert px[n - 1] != px[n];
      if n < LONGEST {
        assert rest[1] == px[n + 1] == px[n] == rest[0];
        RunToMeaning(rest, 1);
      }
    }
  }

  /** The encoder writes normal form, for every row. */
  lemma {:induction false} EncodeIsNormal(px: seq<Pixel>)
    ensures Normal(Encode(px)) && PixelsOf(Encode(px)) == px
    decreases |px|
  {
    hide FirstPacket, Shaped, Meets, Head, PacketPixels;
    if px != [] {
      var k := FirstPacket(px);
      FirstPacketFits(px);
      var rest := px[|PacketPixels(k)|..];
      EncodeIsNormal(rest);
      assert Encode(px) == [k] + Encode(rest);
      assert px == PacketPixels(k) + rest;
      if rest != [] { FirstPacketMeets(px); }
    }
  }

  /** Normal form determines its packets: it is what the encoder makes of the pixels. */
  lemma {:induction false} NormalIsEncode(ks: seq<Packet>)
    requires Normal(ks)
    ensures Encode(PixelsOf(ks)) == ks
    decreases |ks|
  {
    hide FirstPacket, Shaped, Meets, PacketPixels;
    if ks != [] {
      var rest := PixelsOf(ks[1..]);
      NormalIsEncode(ks[1..]);
      NormalFirst(ks);
      assert (PacketPixels(ks[0]) + rest)[|PacketPixels(ks[0])|..] == rest;
      assert ks == [ks[0]] + ks[1..];
    }
  }

  lemma NormalFront(ks: seq<Packet>)
    requires Normal(ks) && ks != []
    ensures PixelsOf(ks) != [] && PixelsOf(ks)[0] == Head(ks[0])
    ensures ks[0].Run? ==> |PixelsOf(ks)| >= 2 && PixelsOf(ks)[1] == ks[0].p
  {
  }

  lemma NormalFirst(ks: seq<Packet>)
    requires Normal(ks) && ks != []
    ensures PixelsOf(ks) != [] && FirstPacket(PixelsOf(ks)) == ks[0]
  {
    var px, rest := PixelsOf(ks), PixelsOf(ks[1..]);
    NormalFront(ks);
    if |ks| > 1 { NormalFront(ks[1..]); }
    if ks[0].Run? {
      RunFirst(ks[0].n, ks[0].p, rest);
    } else {
      LiteralFirst(ks[0].ps, rest);
    }
  }

  lemma RunFirst(n: nat, p: Pixel, rest: seq<Pixel>)
    requires 2 <= n <= LONGEST
    requires n < LONGEST && rest != [] ==> rest[0] != p
    ensures FirstPacket(Copies(n, p) + rest) == Run(n, p)
  {
    hide RunTo, LiteralTo;
    RunToIs(Copies(n, p) + rest, 1, n);
  }

  lemma LiteralFirst(ps: seq<Pixel>, rest: seq<Pixel>)
    requires Shaped(Literal(ps))
    requires rest != [] ==> ps[|ps| - 1] != rest[0]
    requires rest != [] && |ps| < LONGEST ==> |rest| >= 2 && rest[1] == rest[0]
    ensures FirstPacket(ps + rest) == Literal(ps)
  {
    hide RunTo, LiteralTo;
    var px := ps + rest;
    var n := |ps|;
    assert px[..n] == ps;
    assert |px| > n ==> px[n] == rest[0];
    assert |px| > n && n < LONGEST ==> rest[1] == px[n + 1];
    RunToIs(px, 1, 1);
    LiteralToIs(px, 1, n);
  }

  // ----------------------------------------------------------------- main results

  lemma {:induction false} NormalIsAnnounced(ks: seq<Packet>, bpp: nat)
    requires Normal(ks) && Sized(PixelsOf(ks), bpp)
    ensures AllAnnounced(ks, bpp)
    decreases |ks|
  {
    if ks != [] {
      var mine, rest := PacketPixels(ks[0]), PixelsOf(ks[1..]);
      assert PixelsOf(ks) == mine + rest;
      assert Normal(ks[1..]) && Shaped(ks[0]);
      hide PixelsOf, PacketPixels, Normal, Shaped, Announced;
      PartsSized(mine, rest, bpp);
      NormalIsAnnounced(ks[1..], bpp);
      ShapedIsAnnounced(ks[0], bpp);
      assert forall i :: 0 < i < |ks| ==> ks[i] == ks[1..][i - 1];
    }
  }

  lemma PartsSized(a: seq<Pixel>, b: seq<Pixel>, bpp: nat)
    requires Sized(a + b, bpp)
    ensures Sized(a, bpp) && Sized(b, bpp)
  {
    assert forall j :: 0 <= j < |a| ==> a[j] == (a + b)[j];
    assert forall j :: 0 <= j < |b| ==> b[j] == (a + b)[|a| + j];
  }

  lemma ShapedIsAnnounced(k: Packet, bpp: nat)
    requires Shaped(k) && Sized(PacketPixels(k), bpp)
    ensures Announced(k, bpp)
  {
    if k.Run? { assert PacketPixels(k)[0] == k.p; }
  }

  /** Decoding an encoded row returns it, for every count and pixel width. */
  lemma RoundTrip(src: seq<byte>, count: nat, bpp: nat)
    requires bpp > 0 && |src| == count * bpp
    ensures Decode(EncodeBytes(src, bpp), bpp) == src
  {
    hide Normal, AllAnnounced;
    var px := Split(src, bpp);
    EncodeIsNormal(px);
    NormalIsAnnounced(Encode(px), bpp);
    DecodeSerial(Encode(px), bpp);
    FlatOfSplit(src, bpp, count);
  }

  /** Re-encoding what a stream in normal form decodes to returns the stream. */
  lemma ReencodeNormal(ks: seq<Packet>, bpp: nat)
    requires bpp > 0 && Normal(ks) && Sized(PixelsOf(ks), bpp)
    ensures EncodeBytes(Decode(Serial(ks), bpp), bpp) == Serial(ks)
  {
    NormalIsAnnounced(ks, bpp);
    DecodeSerial(ks, bpp);
    SplitOfFlat(PixelsOf(ks), bpp);
    NormalIsEncode(ks);
  }

  // ------------------------------------------------------------------- size bound

  /** One byte for every 128 pixels begun. */
  function Headers(count: nat): nat { (count + 127) / 128 }

  /** One byte for every three pixels begun. */
  function Thirds(count: nat): nat { (count + 2) / 3 }

  lemma SerialSize(ks: seq<Packet>, bpp: nat)
    requires ks != [] && AllAnnounced(ks, bpp)
    ensures |Serial(ks)| == 1 + (if ks[0].Run? then bpp else |ks[0].ps| * bpp) + |Serial(ks[1..])|
    ensures |PixelsOf(ks)| == |PacketPixels(ks[0])| + |PixelsOf(ks[1..])|
    ensures AllAnnounced(ks[1..], bpp)
  {
    assert Announced(ks[0], bpp);
    if ks[0].Literal? { FlatLength(ks[0].ps, bpp); }
  }

  function WideRoom(count: nat, bpp: nat): nat { count * bpp + Headers(count) }

  /** A run of two or more wide pixels pays for its own header and one more. */
  lemma RunSaves(n: nat, rest: nat, bpp: nat)
    requires n >= 2 && bpp >= 2
    ensures 2 + bpp + WideRoom(rest, bpp) <= WideRoom(n + rest, bpp)
  {
    assert (n + rest) * bpp == n * bpp + rest * bpp;
    assert n * bpp >= 2 * bpp;
  }

  lemma LiteralCosts(l: nat, rest: nat, bpp: nat)
    ensures l * bpp + WideRoom(rest, bpp) <= WideRoom(l + rest, bpp)
    ensures l == LONGEST || (l > 0 && rest == 0) ==> 1 + l * bpp + WideRoom(rest, bpp) <= WideRoom(l + rest, bpp)
  {
    assert (l + rest) * bpp == l * bpp + rest * bpp;
  }

  lemma {:induction false} WideSize(ks: seq<Packet>, bpp: nat)
    requires bpp >= 2 && Normal(ks) && AllAnnounced(ks, bpp)
    ensures |Serial(ks)| <= WideRoom(|PixelsOf(ks)|, bpp)
    decreases |ks|
  {
    hide WideRoom, Serial, PixelsOf, AllAnnounced;
    if ks == [] {
      Nothing(bpp);
    } else {
      SerialSize(ks, bpp);
      WideSize(ks[1..], bpp);
      if ks[0].Run? {
        RunSaves(ks[0].n, |PixelsOf(ks[1..])|, bpp);
      } else {
        LiteralCosts(|ks[0].ps|, |PixelsOf(ks[1..])|, bpp);
        if |ks| == 1 {
          Nothing(bpp);
          assert ks[1..] == [];
        } else if |ks[0].ps| < LONGEST {
          SerialSize(ks[1..], bpp);
          WideSize(ks[1..][1..], bpp);
          RunSaves(ks[1].n, |PixelsOf(ks[1..][1..])|, bpp);
        }
      }
    }
  }

  lemma Nothing(bpp: nat)
    ensures Serial([]) == [] && PixelsOf([]) == [] && WideRoom(0, bpp) == 0
  {
  }

  lemma {:induction false} NarrowSize(ks: seq<Packet>)
    requires Normal(ks) && AllAnnounced(ks, 1)
    ensures |Serial(ks)| <= |PixelsOf(ks)| + Thirds(|PixelsOf(ks)|)
    decreases |ks|
  {
    if ks != [] {
      SerialSize(ks, 1);
      assert Shaped(ks[0]);
      if ks[0].Run? || |ks| == 1 || |ks[0].ps| == LONGEST {
        NarrowSize(ks[1..]);
      } else {
        SerialSize(ks[1..], 1);
        assert ks[1..][1..] == ks[2..];
        NarrowSize(ks[2..]);
      }
    }
  }

  /** The output of the encoder is bounded by one header byte for every 128 pixels
      begun, so by the size its comment documents, when pixels are two bytes or wider. */
  lemma DocumentedSizeSuffices(src: seq<byte>, count: nat, bpp: nat)
    requires bpp >= 2 && |src| == count * bpp
    ensures |EncodeBytes(src, bpp)| <= count * bpp + (count + 127) / 128 <= count * bpp + count / 128 + 1
  {
    var px := Split(src, bpp);
    EncodeIsNormal(px);
    NormalIsAnnounced(Encode(px), bpp);
    WideSize(Encode(px), bpp);
    SplitCounts(src, bpp, count);
  }

  predicate NoTwins(px: seq<Pixel>) {
    forall j :: 0 <= j < |px| - 1 ==> px[j] != px[j + 1]
  }

  lemma LiteralsOnlyFirst(px: seq<Pixel>, n: nat)
    requires NoTwins(px) && px != [] && n == (if |px| < LONGEST then |px| else LONGEST)
    ensures NoTwins(px[n..])
    ensures Encode(px) == [Literal(px[..n])] + Encode(px[n..])
  {
    TwinsStay(px, n);
    NoRunHere(px);
    NoRunsAhead(px, n);
    hide *;
    LiteralPacket(px);
    EncodeUnfolds(px, Literal(px[..n]), n);
  }

  lemma TwinsStay(px: seq<Pixel>, n: nat)
    requires NoTwins(px) && n <= |px|
    ensures NoTwins(px[n..])
  {
  }

  lemma NoRunHere(px: seq<Pixel>)
    requires NoTwins(px) && px != []
    ensures RunTo(px, 1) < 2
  {
    RunToIs(px, 1, 1);
    hide RunTo;
  }

  lemma NoRunsAhead(px: seq<Pixel>, n: nat)
    requires NoTwins(px) && px != [] && n == (if |px| < LONGEST then |px| else LONGEST)
    ensures LiteralTo(px, 1) == n
  {
    LiteralToIs(px, 1, n);
    hide LiteralTo;
  }

  lemma {:induction false} LiteralsOnlySize(px: seq<Pixel>, bpp: nat)
    requires Sized(px, bpp) && NoTwins(px)
    ensures |Serial(Encode(px))| == WideRoom(|px|, bpp)
    decreases |px|
  {
    if px == [] {
      NothingLeft();
    } else {
      var n := if |px| < LONGEST then |px| else LONGEST;
      assert Sized(px[..n], bpp) && Sized(px[n..], bpp);
      assert PacketBytes(Literal(px[..n])) == [Header(n - 1)] + Flat(px[..n]);
      assert n == LONGEST || |px[n..]| == 0;
      hide Encode, Serial, NoTwins, WideRoom, Sized, PacketBytes, Header, Flat;
      LiteralsOnlyFirst(px, n);
      LiteralsOnlySize(px[n..], bpp);
      SerialCons(Literal(px[..n]), Encode(px[n..]));
      FlatLength(px[..n], bpp);
      LiteralTakes(n, |px[n..]|, bpp);
    }
  }

  lemma LiteralTakes(n: nat, rest: nat, bpp: nat)
    requires n == LONGEST || (0 < n < LONGEST && rest == 0)
    ensures 1 + n * bpp + WideRoom(rest, bpp) == WideRoom(n + rest, bpp)
  {
    assert (n + rest) * bpp == n * bpp + rest * bpp;
  }

  /** The bound is met: a row without equal neighbours takes exactly that much. */
  lemma SizeBoundIsMet(src: seq<byte>, count: nat, bpp: nat)
    requires bpp > 0 && |src| == count * bpp
    requires NoTwins(Split(src, bpp))
    ensures |EncodeBytes(src, bpp)| == count * bpp + (count + 127) / 128
  {
    SplitCounts(src, bpp, count);
    LiteralsOnlySize(Split(src, bpp), bpp);
  }

  /** For one-byte pixels the bound is one header byte for every three pixels begun. */
  lemma NarrowRowSize(src: seq<byte>)
    ensures |EncodeBytes(src, 1)| <= |src| + (|src| + 2) / 3
  {
    var px := Split(src, 1);
    EncodeIsNormal(px);
    NormalIsAnnounced(Encode(px), 1);
    NarrowSize(Encode(px));
    SplitCounts(src, 1, |src|);
  }

  /** A row of one-byte pixels that costs the most: a single pixel and a pair, repeated. */
  function Costly(count: nat): (s: seq<byte>)
    ensures |s| == count
    ensures count > 0 ==> s[0] == 0
  {
    if count == 0 then [] else if count == 1 then [0] else if count == 2 then [0, 1]
    else [0, 1, 1] + Costly(count - 3)
  }

  lemma SplitOnes(s: seq<byte>, t: seq<byte>)
    requires |s| == 1
    ensures Split(s + t, 1) == [s] + Split(t, 1)
  {
    assert (s + t)[..1] == s && (s + t)[1..] == t;
  }

  lemma {:induction false} CostlySize(count: nat)
    ensures |EncodeBytes(Costly(count), 1)| == count + Thirds(count)
  {
    hide *;
    if count == 0 {
      CostlyNone();
    } else if count == 1 {
      CostlyOne();
    } else if count == 2 {
      CostlyPair([0], [1]);
    } else {
      CostlySize(count - 3);
      CostlyTriple(Costly(count - 3));
      CostlyNext(count);
    }
  }

  lemma CostlyNone()
    ensures |EncodeBytes(Costly(0), 1)| == 0 + Thirds(0)
  {
  }

  lemma CostlyOne()
    ensures |EncodeBytes(Costly(1), 1)| == 1 + Thirds(1)
  {
    var a: Pixel := [0];
    SplitOnes([0], []);
    assert a + [] == Costly(1);
    LiteralsOnlySize([a], 1);
  }

  lemma CostlyNext(count: nat)
    requires count >= 3
    ensures Costly(count) == [0, 1, 1] + Costly(count - 3) && Thirds(count) == Thirds(count - 3) + 1
  {
  }

  lemma CostlyPair(a: Pixel, b: Pixel)
    requires a == [0] && b == [1]
    ensures |EncodeBytes(Costly(2), 1)| == 2 + Thirds(2)
  {
    SplitOnes(a, b);
    SplitOnes(b, []);
    assert b + [] == b && a + b == Costly(2);
    assert Split(Costly(2), 1) == [a, b];
    assert a[0] != b[0];
    hide Split;
    LiteralsOnlySize([a, b], 1);
  }

  lemma CostlyTriple(rest: seq<byte>)
    requires rest != [] ==> rest[0] == 0
    ensures |EncodeBytes([0, 1, 1] + rest, 1)| == 4 + |EncodeBytes(rest, 1)|
  {
    var a, b: Pixel := [0], [1];
    var tail := Split(rest, 1);
    var px := Split([0, 1, 1] + rest, 1);
    assert px == [a, b, b] + tail by {
      SplitOnes([1], rest);
      SplitOnes([1], [1] + rest);
      SplitOnes([0], [1] + ([1] + rest));
      assert [0] + ([1] + ([1] + rest)) == [0, 1, 1] + rest;
    }
    assert a[0] != b[0];
    assert tail != [] ==> tail[0] == a by { if rest != [] { assert rest[..1] == [0]; } }
    TripleEncodes(a, b, tail);
    var ks := Encode(tail);
    SerialCons(Literal([a]), [Run(2, b)] + ks);
    SerialCons(Run(2, b), ks);
    assert Flat([a]) == a + Flat([]);
  }

  lemma TripleEncodes(a: Pixel, b: Pixel, tail: seq<Pixel>)
    requires a != b && (tail != [] ==> tail[0] == a)
    ensures Encode([a, b, b] + tail) == [Literal([a])] + ([Run(2, b)] + Encode(tail))
  {
    hide RunTo, LiteralTo;
    var px := [a, b, b] + tail;
    assert px == [a] + ([b, b] + tail);
    LiteralFirst([a], [b, b] + tail);
    assert px[1..] == [b, b] + tail;
    assert Copies(2, b) == [b, b];
    RunFirst(2, b, tail);
    assert ([b, b] + tail)[2..] == tail;
  }

  /** With one-byte pixels the documented size holds every row exactly up to three
      pixels; from four on some row needs more. */
  lemma DocumentedSizeForNarrowRows(count: nat)
    ensures (forall src: seq<byte> | |src| == count :: |EncodeBytes(src, 1)| <= count + count / 128 + 1)
            <==> count <= 3
  {
    if count <= 3 {
      forall src: seq<byte> | |src| == count ensures |EncodeBytes(src, 1)| <= count + count / 128 + 1 {
        NarrowRowSize(src);
      }
    } else {
      CostlySize(count);
      assert |EncodeBytes(Costly(count), 1)| > count + count / 128 + 1;
    }
  }

  /** An output area of the given size holds every row of count one-byte pixels exactly
      when it holds a third more than the row. */
  lemma NarrowRowFits(count: nat, room: nat)
    ensures (forall src: seq<byte> | |src| == count :: |EncodeBytes(src, 1)| <= room)
            <==> count + (count + 2) / 3 <= room
  {
    if count + (count + 2) / 3 <= room {
      forall src: seq<byte> | |src| == count ensures |EncodeBytes(src, 1)| <= room {
        NarrowRowSize(src);
      }
    } else {
      CostlySize(count);
      assert |EncodeBytes(Costly(count), 1)| > room;
    }
  }
}
