/** Validated remote framebuffers in their two wire formats (crates/paper-protocol/src/framebuffer.rs).
    Mono1 rows are packed most significant bit first, 1 = black; Gray8 is one luminance byte per pixel. */
module Frames {
  import opened Machine
  import opened Arithmetic
  import opened Bits

  datatype PixelFormat = Mono1 | Gray8

  datatype PixelsError =
    | ZeroDimension(width: u16, height: u16)
    | PayloadSizeOverflow(width: u16, height: u16)
    | PayloadLength(expected: nat, actual: nat)
    | NonWhitePadding(row: u16, final: byte)

  datatype Frame = Frame(format: PixelFormat, width: u16, height: u16, pixels: seq<byte>)

  function Mono1Stride(width: u16): nat {
    DivCeil(width, 8)
  }

  function Stride(format: PixelFormat, width: u16): nat {
    match format
    case Mono1 => Mono1Stride(width)
    case Gray8 => width
  }

  /** `mono1_payload_len` and `gray8_payload_len`: a checked product on the given target. */
  function PayloadLen(t: Target, format: PixelFormat, width: u16, height: u16): Option<nat> {
    CheckedMul(Stride(format, width), height, t.UsizeMax())
  }

  /** The packed pixel at column x of the row that starts at byte `start`. */
  predicate BitAt(pixels: seq<byte>, start: nat, x: nat)
    requires start + x / 8 < |pixels|
  {
    Bit(pixels[start + x / 8], 7 - x % 8)
  }

  /** Sizes agree, and every unused bit of a row is white. */
  ghost predicate ValidMono1(width: u16, height: u16, pixels: seq<byte>) {
    && width > 0 && height > 0
    && |pixels| == RowStart(height, Mono1Stride(width))
    && forall y: nat :: y < height ==> WhitePadding(width, pixels, y)
  }

  ghost predicate WhitePadding(width: u16, pixels: seq<byte>, y: nat)
    requires width > 0
  {
    var start := RowStart(y, Mono1Stride(width));
    start + Mono1Stride(width) <= |pixels| &&
    forall x: nat :: width <= x < 8 * Mono1Stride(width) ==> !BitAt(pixels, start, x)
  }

  ghost predicate ValidGray8(width: u16, height: u16, pixels: seq<byte>) {
    width > 0 && height > 0 && |pixels| == RowStart(height, width)
  }

  ghost predicate ValidPixels(format: PixelFormat, width: u16, height: u16, pixels: seq<byte>) {
    match format
    case Mono1 => ValidMono1(width, height, pixels)
    case Gray8 => ValidGray8(width, height, pixels)
  }

  ghost predicate Valid(f: Frame) {
    ValidPixels(f.format, f.width, f.height, f.pixels)
  }

  /** The row loop of `validate_mono1_pixels`, from `row` on: the first row whose last byte has
      a set bit under the padding mask. */
  function FirstStainedRow(width: u16, height: u16, pixels: seq<byte>, row: nat): (r: Option<u16>)
    requires width > 0 && row <= height
    requires |pixels| == RowStart(height, Mono1Stride(width))
    ensures r.Some? ==> row <= r.value < height
    decreases height - row
  {
    if width % 8 == 0 || row == height then None
    else
      RowInside(width, height, row);
      if LowBits(pixels[RowStart(row + 1, Mono1Stride(width)) - 1], 8 - width % 8) != 0 then Some(row)
      else FirstStainedRow(width, height, pixels, row + 1)
  }

  lemma RowInside(width: u16, height: u16, row: nat)
    requires width > 0 && row < height
    ensures 0 < Mono1Stride(width)
    ensures RowStart(row + 1, Mono1Stride(width)) == RowStart(row, Mono1Stride(width)) + Mono1Stride(width)
    ensures RowStart(row, Mono1Stride(width)) + Mono1Stride(width) <= RowStart(height, Mono1Stride(width))
  {
    RowsOrdered(row, height, Mono1Stride(width));
  }

  function ValidateMono1(t: Target, width: u16, height: u16, pixels: seq<byte>): Result<nat, PixelsError> {
    if width == 0 || height == 0 then Err(ZeroDimension(width, height))
    else match PayloadLen(t, Mono1, width, height)
      case None => Err(PayloadSizeOverflow(width, height))
      case Some(expected) =>
        RowStartIsProduct(height, Mono1Stride(width));
        if |pixels| != expected then Err(PayloadLength(expected, |pixels|))
        else match FirstStainedRow(width, height, pixels, 0)
          case Some(row) =>
            RowInside(width, height, row);
            Err(NonWhitePadding(row, pixels[RowStart(row + 1, Mono1Stride(width)) - 1]))
          case None => Ok(Mono1Stride(width))
  }

  function ValidateGray8(t: Target, width: u16, height: u16, pixels: seq<byte>): Result<nat, PixelsError> {
    if width == 0 || height == 0 then Err(ZeroDimension(width, height))
    else match PayloadLen(t, Gray8, width, height)
      case None => Err(PayloadSizeOverflow(width, height))
      case Some(expected) =>
        if |pixels| != expected then Err(PayloadLength(expected, |pixels|))
        else Ok(width)
  }

  function Validate(t: Target, format: PixelFormat, width: u16, height: u16, pixels: seq<byte>)
    : Result<nat, PixelsError>
  {
    match format
    case Mono1 => ValidateMono1(t, width, height, pixels)
    case Gray8 => ValidateGray8(t, width, height, pixels)
  }

  /** No frame with 16-bit sides overflows a 32-bit `usize`, in either format. */
  lemma PayloadLenTotal(t: Target, format: PixelFormat, width: u16, height: u16)
    ensures PayloadLen(t, format, width, height) == Some(RowStart(height, Stride(format, width)))
  {
    var s := Stride(format, width);
    RowStartIsProduct(height, s);
    ProductMonotone(s, U16_MAX, height, U16_MAX);
  }

  /** Padding columns live in the row's last byte, below its used digits. */
  lemma PaddingColumn(width: u16, x: nat)
    requires width % 8 != 0 && width <= x < 8 * Mono1Stride(width)
    ensures x / 8 == Mono1Stride(width) - 1 && 7 - x % 8 < 8 - width % 8
  {
  }

  lemma PaddingDigit(width: u16, j: nat)
    requires width % 8 != 0 && j < 8 - width % 8
    ensures var x := 8 * Mono1Stride(width) - 1 - j;
            width <= x < 8 * Mono1Stride(width) && x / 8 == Mono1Stride(width) - 1 && 7 - x % 8 == j
  {
    var s := Mono1Stride(width);
    assert width == 8 * (s - 1) + width % 8;
    assert (8 * s - 1 - j) / 8 == s - 1;
  }

  /** The final byte passes the mask test exactly when the row's padding is white. */
  lemma PaddingByte(width: u16, pixels: seq<byte>, y: nat)
    requires width > 0 && RowStart(y, Mono1Stride(width)) + Mono1Stride(width) <= |pixels|
    ensures WhitePadding(width, pixels, y) <==>
            width % 8 == 0 || LowBits(pixels[RowStart(y, Mono1Stride(width)) + Mono1Stride(width) - 1],
                                      8 - width % 8) == 0
  {
    if width % 8 != 0 {
      LastByteTest(width, pixels, RowStart(y, Mono1Stride(width)));
    }
  }

  lemma LastByteTest(width: u16, pixels: seq<byte>, start: nat)
    requires width % 8 != 0 && start + Mono1Stride(width) <= |pixels|
    ensures LowBits(pixels[start + Mono1Stride(width) - 1], 8 - width % 8) == 0 <==>
            forall x: nat :: width <= x < 8 * Mono1Stride(width) ==> !BitAt(pixels, start, x)
  {
    var stride := Mono1Stride(width);
    var final, unused := pixels[start + stride - 1], 8 - width % 8;
    LowBitsZero(final, unused);
    if LowBits(final, unused) == 0 {
      forall x: nat | width <= x < 8 * stride
        ensures !BitAt(pixels, start, x)
      {
        PaddingColumn(width, x);
        assert !Bit(final, 7 - x % 8);
      }
    } else {
      var j: nat :| j < unused && Bit(final, j);
      PaddingDigit(width, j);
      assert BitAt(pixels, start, 8 * stride - 1 - j);
    }
  }

  lemma {:induction false} FirstStainedRowIsFirst(width: u16, height: u16, pixels: seq<byte>, row: nat)
    requires width > 0 && row <= height
    requires |pixels| == RowStart(height, Mono1Stride(width))
    ensures var r := FirstStainedRow(width, height, pixels, row);
            var limit := if r.Some? then r.value else height;
            && row <= limit <= height
            && (forall y: nat :: row <= y < limit ==> WhitePadding(width, pixels, y))
            && (r.Some? ==> r.value < height && !WhitePadding(width, pixels, r.value))
    decreases height - row
  {
    if row < height {
      RowInside(width, height, row);
      PaddingByte(width, pixels, row);
      FirstStainedRowIsFirst(width, height, pixels, row + 1);
    }
  }

  /** Acceptance is exactly validity, on both targets and in both formats, and the one rejection
      that names a row names the first stained one. The overflow error is never produced. */
  lemma ValidateIsValid(t: Target, format: PixelFormat, width: u16, height: u16, pixels: seq<byte>)
    ensures var r := Validate(t, format, width, height, pixels);
            && (r.Ok? <==> ValidPixels(format, width, height, pixels))
            && (r.Ok? ==> r.value == Stride(format, width))
            && (r.Err? ==> !r.error.PayloadSizeOverflow?)
            && (r.Err? && r.error.NonWhitePadding? ==>
                  && !WhitePadding(width, pixels, r.error.row)
                  && forall y: nat :: y < r.error.row ==> WhitePadding(width, pixels, y))
  {
    PayloadLenTotal(t, format, width, height);
    if format == Mono1 && width > 0 && height > 0 && |pixels| == RowStart(height, Mono1Stride(width)) {
      FirstStainedRowIsFirst(width, height, pixels, 0);
    }
  }

  /** What a picture is rejected for: an empty side, a wrong length, or a Mono1 row's stained padding, whose last
      byte is reported. */
  lemma RejectedFor(t: Target, format: PixelFormat, width: u16, height: u16, pixels: seq<byte>)
    ensures var r, length := Validate(t, format, width, height, pixels), RowStart(height, Stride(format, width));
            && (r == Err(ZeroDimension(width, height)) <==> width == 0 || height == 0)
            && (r == Err(PayloadLength(length, |pixels|)) <==> width > 0 && height > 0 && |pixels| != length)
            && (r.Err? && width > 0 && height > 0 && |pixels| == length ==>
                  && format.Mono1? && r.error.NonWhitePadding? && r.error.row < height
                  && var end := RowStart(r.error.row + 1, Mono1Stride(width));
                     0 < end <= |pixels| && r.error.final == pixels[end - 1])
  {
    hide RowStart, PayloadLen, FirstStainedRow, Mono1Stride;
    PayloadLenTotal(t, format, width, height);
    if format.Mono1? && width > 0 && height > 0 && |pixels| == RowStart(height, Mono1Stride(width)) {
      var row := FirstStainedRow(width, height, pixels, 0);
      if row.Some? {
        RowInside(width, height, row.value);
      }
    }
  }

  /** A pixel row lies inside the payload. */
  lemma RowInPayload(f: Frame, y: nat)
    requires Valid(f) && y < f.height
    ensures RowStart(y, Stride(f.format, f.width)) + Stride(f.format, f.width) <= |f.pixels|
  {
    RowsOrdered(y, f.height, Stride(f.format, f.width));
  }

  /** `Mono1Frame::pixel`: is the pixel black? */
  predicate Black(f: Frame, x: nat, y: nat)
    requires f.format.Mono1?
  {
    var start := RowStart(y, Mono1Stride(f.width));
    start + x / 8 < |f.pixels| && BitAt(f.pixels, start, x)
  }

  /** The luminance a pixel stands for: 0x00 and 0xff for Mono1, the byte itself for Gray8. */
  function Luminance(f: Frame, x: nat, y: nat): byte {
    match f.format
    case Mono1 => if Black(f, x, y) then 0x00 else 0xFF
    case Gray8 =>
      var i := RowStart(y, f.width) + x;
      if i < |f.pixels| then f.pixels[i] else 0
  }

  ghost predicate SamePicture(f: Frame, g: Frame) {
    && f.format == g.format && f.width == g.width && f.height == g.height
    && forall x: nat, y: nat :: x < f.width && y < f.height ==> Luminance(f, x, y) == Luminance(g, x, y)
  }

  /** Frames are canonical: equal pictures have equal bytes. */
  lemma PicturesDetermineBytes(f: Frame, g: Frame)
    requires Valid(f) && Valid(g)
    ensures SamePicture(f, g) <==> f == g
  {
    if SamePicture(f, g) {
      forall i: nat | i < |f.pixels|
        ensures i < |g.pixels| && f.pixels[i] == g.pixels[i]
      {
        var y, c := SplitOffset(i, Stride(f.format, f.width), f.height);
        SameByteAt(f, g, y, c);
      }
      assert f.pixels == g.pixels;
    }
  }

  lemma SameByteAt(f: Frame, g: Frame, y: nat, c: nat)
    requires Valid(f) && Valid(g) && SamePicture(f, g) && y < f.height && c < Stride(f.format, f.width)
    ensures var i := RowStart(y, Stride(f.format, f.width)) + c; i < |f.pixels| == |g.pixels| && f.pixels[i] == g.pixels[i]
  {
    RowInPayload(f, y);
    if f.format.Gray8? {
      assert Luminance(f, c, y) == Luminance(g, c, y);
    } else {
      var i := RowStart(y, Mono1Stride(f.width)) + c;
      var u, v := f.pixels[i], g.pixels[i];
      forall j: nat | j < 8
        ensures Bit(u, j) <==> Bit(v, j)
      {
        SameDigitAt(f, g, y, c, j);
      }
      SameByte(u, v);
    }
  }

  lemma SameDigitAt(f: Frame, g: Frame, y: nat, c: nat, j: nat)
    requires Valid(f) && Valid(g) && SamePicture(f, g) && f.format.Mono1?
    requires y < f.height && c < Mono1Stride(f.width) && j < 8
    requires RowStart(y, Mono1Stride(f.width)) + c < |f.pixels| == |g.pixels|
    ensures var i := RowStart(y, Mono1Stride(f.width)) + c; Bit(f.pixels[i], j) <==> Bit(g.pixels[i], j)
  {
    var start, x := RowStart(y, Mono1Stride(f.width)), 8 * c + 7 - j;
    assert x / 8 == c && 7 - x % 8 == j;
    assert BitAt(f.pixels, start, x) <==> BitAt(g.pixels, start, x) by {
      if x < f.width {
        assert Luminance(f, x, y) == Luminance(g, x, y);
      } else {
        assert WhitePadding(f.width, f.pixels, y) && WhitePadding(g.width, g.pixels, y);
      }
    }
  }
}
