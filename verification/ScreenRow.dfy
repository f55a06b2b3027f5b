/** The SCRRLE lines of `gfx_handle_screenshot` (`gfx_inspector.c`): one row of a
    true-colour screen, run-length coded, base64 coded and sent as one protocol line. */
module ScreenRow {
  import opened Bytes
  import Rle
  import Base64
  import Text

  const MAX_WIDTH: nat := 1920
  const RGB_ROW: nat := MAX_WIDTH * 3
  const RLE_BUFFER: nat := MAX_WIDTH * 3 + MAX_WIDTH / 128 + 8
  const TEXT_BUFFER: nat := (MAX_WIDTH * 3 + MAX_WIDTH / 128 + 8) * 4 / 3 + 8
  const MAX_LINE: nat := 8192

  /** The RGB bytes of the first w pixels of a BGRA row. */
  function Rgb(src: seq<byte>, w: nat): (r: seq<byte>)
    requires 4 * w <= |src|
    ensures |r| == 3 * w
    ensures forall x :: 0 <= x < w ==>
              r[3 * x] == src[4 * x + 2] && r[3 * x + 1] == src[4 * x + 1] && r[3 * x + 2] == src[4 * x]
  {
    if w == 0 then [] else Rgb(src, w - 1) + [src[4 * w - 2], src[4 * w - 3], src[4 * w - 4]]
  }

  lemma NoPixels(src: seq<byte>)
    ensures Rgb(src, 0) == []
  {
  }

  lemma RgbNext(src: seq<byte>, x: nat)
    requires 4 * (x + 1) <= |src|
    ensures Rgb(src, x + 1) == Rgb(src, x) + [src[4 * x + 2], src[4 * x + 1], src[4 * x]]
  {
  }

  /** Everything after the row number of the line for a row of pixels. */
  function Payload(pixels: seq<byte>, bpp: nat): string
    requires bpp > 0
  {
    Base64.Encode(Rle.EncodeBytes(pixels, bpp))
  }

  function Line(row: nat, payload: string): string {
    "SCRRLE|" + Text.Print(row) + "|" + payload
  }

  /** The three buffers and the line hold every row of at most 1920 pixels. */
  lemma RowFits(pixels: seq<byte>, w: nat, row: nat)
    requires w <= MAX_WIDTH && |pixels| == 3 * w && row < 0x10000
    ensures |Rle.EncodeBytes(pixels, 3)| <= RLE_BUFFER
    ensures (|Rle.EncodeBytes(pixels, 3)| + 2) / 3 * 4 + 1 <= TEXT_BUFFER
    ensures |Line(row, Payload(pixels, 3))| + 1 <= MAX_LINE
  {
    Rle.DocumentedSizeSuffices(pixels, w, 3);
    Base64.EncodeLength(Rle.EncodeBytes(pixels, 3));
    assert Text.Ten(5) == 100000;
    Text.PrintLength(row, 5);
    hide Rle.EncodeBytes, Base64.Encode, Text.Print;
  }

  /** The static buffers of the true-colour path and the work on one row in them. */
  class RowBuffers {
    const rgbRow: array<byte>
    const rleBuf: array<byte>
    const rleText: array<char>

    ghost predicate Valid() {
      && rgbRow.Length == RGB_ROW && rleBuf.Length == RLE_BUFFER && rleText.Length == TEXT_BUFFER
      && rgbRow != rleBuf
    }

    constructor ()
      ensures Valid() && fresh(rgbRow) && fresh(rleBuf) && fresh(rleText)
    {
      rgbRow := new byte[RGB_ROW];
      rleBuf := new byte[RLE_BUFFER];
      rleText := new char[TEXT_BUFFER];
    }

    /** BGRA byte order to RGB. */
    method ConvertRow(src: seq<byte>, w: nat)
      requires Valid() && w <= MAX_WIDTH && 4 * w <= |src|
      modifies rgbRow
      ensures rgbRow[..3 * w] == Rgb(src, w)
    {
      var x := 0;
      NoPixels(src);
      hide Rgb;
      while x < w
        invariant x <= w
        invariant rgbRow[..3 * x] == Rgb(src, x)
      {
        rgbRow[x * 3] := src[x * 4 + 2];
        rgbRow[x * 3 + 1] := src[x * 4 + 1];
        rgbRow[x * 3 + 2] := src[x * 4];
        RgbNext(src, x);
        x := x + 1;
      }
    }

    /** Converts, codes and formats one row; wider screens are cut at 1920 pixels. */
    method SendRow(src: seq<byte>, width: nat, row: nat) returns (line: string)
      requires Valid() && 4 * width <= |src| && row < 0x10000
      modifies rgbRow, rleBuf, rleText
      ensures var w := if width > MAX_WIDTH then MAX_WIDTH else width;
              line == Line(row, Payload(Rgb(src, w), 3))
      ensures |line| + 1 <= MAX_LINE
    {
      hide Rle.EncodeBytes, Base64.Encode, Text.Print, Rgb;
      var w := width;
      if w > MAX_WIDTH { w := MAX_WIDTH; }
      ConvertRow(src, w);
      RowFits(Rgb(src, w), w, row);
      var rlen := Rle.RleEncode(rgbRow[..w * 3], w, 3, rleBuf);
      var n := Base64.B64Encode(rleBuf[..rlen], rleText);
      line := "SCRRLE|" + Text.Print(row) + "|" + rleText[..n];
    }
  }

  // ------------------------------------------------------------------- at the host

  lemma PayloadHasNoBar(pixels: seq<byte>, bpp: nat)
    requires bpp > 0
    ensures '|' !in Payload(pixels, bpp)
  {
    Base64.EncodeShape(Rle.EncodeBytes(pixels, bpp));
    assert Base64.Value('|') == -1;
    hide Rle.EncodeBytes, Base64.Encode, Base64.Value;
  }

  /** Splitting a line gives back its row number and payload. */
  lemma LineFields(pixels: seq<byte>, bpp: nat, row: nat)
    requires bpp > 0
    ensures var parts := Text.Split(Line(row, Payload(pixels, bpp)), '|');
            parts == ["SCRRLE", Text.Print(row), Payload(pixels, bpp)] && Text.Parse(parts[1]) == row
  {
    hide Payload, Text.Print, Text.Split;
    PayloadHasNoBar(pixels, bpp);
    Text.ParseOfPrint(row);
    var p, q := Text.Print(row), Payload(pixels, bpp);
    Text.SplitPlain(q, '|');
    Text.SplitFront(p, q, '|');
    Text.SplitFront("SCRRLE", p + ['|'] + q, '|');
    assert Line(row, q) == "SCRRLE" + ['|'] + (p + ['|'] + q);
  }

  /** A row of any width comes out of its line with its row number and, pixel by pixel, red,
      green and blue. */
  lemma RowArrives(src: seq<byte>, w: nat, row: nat)
    requires 4 * w <= |src|
    ensures var parts := Text.Split(Line(row, Payload(Rgb(src, w), 3)), '|');
            && |parts| == 3 && parts[0] == "SCRRLE" && Text.AllDigits(parts[1]) && Text.Parse(parts[1]) == row
            && var rgb := Rle.Decode(Base64.Decode(parts[2]), 3);
            && |rgb| == 3 * w
            && forall x :: 0 <= x < w ==>
                 rgb[3 * x] == src[4 * x + 2] && rgb[3 * x + 1] == src[4 * x + 1] && rgb[3 * x + 2] == src[4 * x]
  {
    LineFields(Rgb(src, w), 3, row);
    Base64.RoundTrip(Rle.EncodeBytes(Rgb(src, w), 3), Payload(Rgb(src, w), 3));
    Rle.RoundTrip(Rgb(src, w), w, 3);
  }

  // ----------------------------------------------------------- rows of pen indices

  const PEN_BUFFER: nat := 4096 + 64
  const PEN_TEXT: nat := 8200
  const MAX_PENS: nat := 4000

  /** In the path for one-byte pixels the coded row fits its 4160-byte buffer for every
      picture exactly up to 3120 pixels, short of the 4000 the path allows. */
  lemma PenRowFits(n: nat)
    ensures (forall pens: seq<byte> | |pens| == n :: |Rle.EncodeBytes(pens, 1)| <= PEN_BUFFER) <==> n <= 3120
  {
    Rle.NarrowRowFits(n, PEN_BUFFER);
  }

  /** The text buffer and the line hold every coded row of up to 4000 one-byte pixels. */
  lemma PenLineFits(pens: seq<byte>, row: nat)
    requires |pens| <= MAX_PENS && row < 0x10000
    ensures (|Rle.EncodeBytes(pens, 1)| + 2) / 3 * 4 + 1 <= PEN_TEXT
    ensures |Line(row, Payload(pens, 1))| + 1 <= MAX_LINE
  {
    Rle.NarrowRowSize(pens);
    Base64.EncodeLength(Rle.EncodeBytes(pens, 1));
    assert Text.Ten(5) == 100000;
    Text.PrintLength(row, 5);
    hide Rle.EncodeBytes, Base64.Encode, Text.Print;
  }
}
