/** The host's one-bit canvas (tools/paperspoon/src/mono_renderer.rs). */
module MonoCanvas {
  import opened Machine
  import opened Arithmetic
  import opened Bits
  import opened Frames
  import opened Raster
  import opened Painting

  /** Painting never stains the padding, so a valid picture stays one. */
  lemma PaintedStaysValid(width: u16, height: u16, a: seq<byte>, b: seq<byte>, black: bool, region: Region)
    requires ValidMono1(width, height, a) && Painted(Mono1, width, height, a, b, Ink(black), region)
    ensures ValidMono1(width, height, b)
  {
    forall y: nat | y < height
      ensures WhitePadding(width, b, y)
    {
      assert WhitePadding(width, a, y);
      RowsOrdered(y, height, Mono1Stride(width));
      forall x: nat | width <= x < 8 * Mono1Stride(width)
        ensures !BitAt(b, RowStart(y, Mono1Stride(width)), x)
      {
        assert DotPainted(Mono1, width, a, b, Ink(black), region, x, y);
      }
    }
  }

  /** One byte changed in one digit changes one dot. */
  lemma DotSet(width: u16, height: u16, before: seq<byte>, after: seq<byte>, black: bool, x: nat, y: nat, px: nat,
               py: nat)
    requires x < width && y < height && px < 8 * Mono1Stride(width) && py < height
    requires |before| == |after| == RowStart(height, Mono1Stride(width))
    requires var i := RowStart(y, Mono1Stride(width)) + x / 8;
             && i < |before|
             && after[i] == (if black then SetBit(before[i], 7 - x % 8) else ClearBit(before[i], 7 - x % 8))
             && forall k: nat :: k < |before| && k != i ==> after[k] == before[k]
    ensures DotPainted(Mono1, width, before, after, Ink(black), Box(x, y, x + 1, y + 1), px, py)
  {
    hide Bit, SetBit, ClearBit;
    var stride := Mono1Stride(width);
    var i := RowStart(y, stride) + x / 8;
    BitOfSetBit(before[i], 7 - x % 8, 7 - px % 8);
    BitOfClearBit(before[i], 7 - x % 8, 7 - px % 8);
    if RowStart(py, stride) + px / 8 == i {
      RowColumnUnique(py, px / 8, y, x / 8, stride);
    }
    hide RowStart;
  }

  class Canvas {
    const width: u16
    const height: u16
    const pixels: array<byte>

    /** Every canvas is a valid Mono1 picture at all times. */
    ghost predicate Valid()
      reads pixels
    {
      ValidMono1(width, height, pixels[..])
    }

    /** An all-white canvas; `new` refuses empty sizes before it gets here. */
    constructor (width: u16, height: u16)
      requires width > 0 && height > 0
      ensures Valid() && this.width == width && this.height == height && fresh(pixels)
      ensures forall x: nat, y: nat :: x < width && y < height ==> !Dot(width, pixels[..], x, y)
    {
      this.width, this.height := width, height;
      pixels := new byte[RowStart(height, Mono1Stride(width))](_ => 0);
      new;
      BlankIsValid(width, height, pixels[..]);
    }

    /** `set_pixel` */
    method SetPixel(x: u16, y: u16, black: bool) returns (inside: bool)
      requires Valid()
      modifies pixels
      ensures Valid() && (inside <==> x < width && y < height)
      ensures Painted(Mono1, width, height, old(pixels[..]), pixels[..], Ink(black), Box(x, y, x + 1, y + 1))
    {
      hide DotPainted;
      ghost var before := pixels[..];
      if x >= width || y >= height {
        OutsideIsNothing(Mono1, width, height, before, Ink(black), Box(x, y, x + 1, y + 1));
        return false;
      }
      RowsOrdered(y, height, Mono1Stride(width));
      RowStartIsProduct(y, Mono1Stride(width));
      var i := y * Mono1Stride(width) + x / 8;
      pixels[i] := DigitByte(pixels[i], 7 - x % 8, black);
      DotsSet(width, height, before, pixels[..], black, x, y);
      PaintedStaysValid(width, height, before, pixels[..], black, Box(x, y, x + 1, y + 1));
      inside := true;
    }

    /** `clear`: every visible pixel, and only those. */
    method Clear(black: bool)
      requires Valid()
      modifies pixels
      ensures Valid()
      ensures Painted(Mono1, width, height, old(pixels[..]), pixels[..], Ink(black), Box(0, 0, width, height))
    {
      hide RowStart, Painted, HighOnes;
      ghost var before := pixels[..];
      var stride := Mono1Stride(width);
      for i := 0 to pixels.Length
        invariant forall k: nat :: k < i ==> pixels[k] == if black then 0xFF else 0
      {
        pixels[i] := if black then 0xFF else 0;
      }
      if black && width % 8 != 0 {
        for row := 0 to height
          invariant forall k: nat :: k < pixels.Length ==>
            pixels[k] == if EndsRow(stride, row, k) then VisibleMask(width) else 0xFF
        {
          RowInside(width, height, row);
          RowStartIsProduct(row + 1, stride);
          assert RowEnd(stride, row) == (row + 1) * stride;
          pixels[(row + 1) * stride - 1] := VisibleMask(width);
        }
      }
      ClearedIsPainted(width, height, before, pixels[..], black);
      PaintedStaysValid(width, height, before, pixels[..], black, Box(0, 0, width, height));
    }

    /** `fill_rect` */
    method FillRect(x: u16, y: u16, w: u16, h: u16, black: bool)
      requires Valid()
      modifies pixels
      ensures Valid()
      ensures Painted(Mono1, width, height, old(pixels[..]), pixels[..], Ink(black), Filled(x, y, w, h))
    {
      ghost var before := pixels[..];
      assert pixels.Length == RowStart(height, Mono1Stride(width));
      hide Painted, Covers, SameOn, ValidMono1;
      var right: u32, bottom: u32 := Min(x + w, width), Min(y + h, height);
      var left, top := Min(x, right), Min(y, bottom);
      EmptyBox(Mono1, width, height, before, Ink(black), left, top, right, top);
      for row: int := top to bottom
        invariant Valid()
        invariant Painted(Mono1, width, height, before, pixels[..], Ink(black), Box(left, top, right, row))
      {
        ghost var above := pixels[..];
        EmptyBox(Mono1, width, height, above, Ink(black), left, row, left, row + 1);
        for column: int := left to right
          invariant Valid()
          invariant Painted(Mono1, width, height, above, pixels[..], Ink(black), Box(left, row, column, row + 1))
        {
          ghost var sofar := pixels[..];
          var _ := SetPixel(column, row, black);
          WiderRun(width, height, left, row, column);
          Extended(Mono1, width, height, above, sofar, pixels[..], Ink(black), Box(left, row, column, row + 1),
                   Box(column, row, column + 1, row + 1), Box(left, row, column + 1, row + 1));
        }
        TallerBox(width, height, left, top, right, row);
        Extended(Mono1, width, height, before, above, pixels[..], Ink(black), Box(left, top, right, row),
                 Box(left, row, right, row + 1), Box(left, top, right, row + 1));
      }
      ClippedBox(width, height, x, y, w, h);
      PaintedSame(Mono1, width, height, before, pixels[..], Ink(black), Box(left, top, right, bottom),
                  Filled(x, y, w, h));
    }

    /** `outline_rect`: the boundary of the true rectangle, despite the saturating coordinates. */
    method OutlineRect(x: u16, y: u16, w: u16, h: u16, black: bool)
      requires Valid()
      modifies pixels
      ensures Valid()
      ensures Painted(Mono1, width, height, old(pixels[..]), pixels[..], Ink(black), Boundary(x, y, w, h))
    {
      ghost var before := pixels[..];
      assert pixels.Length == RowStart(height, Mono1Stride(width));
      hide Painted, Covers, SameOn, ValidMono1;
      if w == 0 || h == 0 {
        NoBoundary(width, height, x, y, w, h);
        OutsideIsNothing(Mono1, width, height, before, Ink(black), Boundary(x, y, w, h));
        return;
      }
      FillRect(x, y, w, 1, black);
      ghost var drawn, edge := Filled(x, y, w, 1), Nothing;
      ghost var sofar := pixels[..];
      PaintedNothing(Mono1, width, height, sofar, Ink(black));
      if h > 1 {
        FillRect(x, SaturatingAdd(y, h - 1), w, 1, black);
        edge := Filled(x, SaturatingAdd(y, h - 1), w, 1);
      }
      PaintedBoth(Mono1, width, height, before, sofar, pixels[..], Ink(black), drawn, edge);
      drawn, edge, sofar := Union(drawn, edge), Nothing, pixels[..];
      PaintedNothing(Mono1, width, height, sofar, Ink(black));
      if h > 2 {
        FillRect(x, SaturatingAdd(y, 1), 1, h - 2, black);
        edge := Filled(x, SaturatingAdd(y, 1), 1, h - 2);
      }
      PaintedBoth(Mono1, width, height, before, sofar, pixels[..], Ink(black), drawn, edge);
      drawn, edge, sofar := Union(drawn, edge), Nothing, pixels[..];
      PaintedNothing(Mono1, width, height, sofar, Ink(black));
      if h > 2 && w > 1 {
        FillRect(SaturatingAdd(x, w - 1), SaturatingAdd(y, 1), 1, h - 2, black);
        edge := Filled(SaturatingAdd(x, w - 1), SaturatingAdd(y, 1), 1, h - 2);
      }
      PaintedBoth(Mono1, width, height, before, sofar, pixels[..], Ink(black), drawn, edge);
      EdgesAreBoundary(width, height, x, y, w, h, w > 1);
      PaintedSame(Mono1, width, height, before, pixels[..], Ink(black), Union(drawn, edge), Boundary(x, y, w, h));
    }

    /** The columns of one line of a glyph, skipped when the line is off the canvas. */
    method DrawLine(gx: nat, targetY: int, bits: byte, black: bool)
      requires Valid() && gx <= U16_MAX
      modifies pixels
      ensures Valid()
      ensures Painted(Mono1, width, height, old(pixels[..]), pixels[..], Ink(black),
                      Line(gx, bits, FONT_WIDTH, 1, targetY, targetY + 1))
    {
      ghost var before := pixels[..];
      assert pixels.Length == RowStart(height, Mono1Stride(width));
      hide Painted, Covers, SameOn, ValidMono1, Inked, RowStart;
      if targetY < 0 || targetY >= height {
        LineNothing(width, height, gx, bits, FONT_WIDTH, 1, targetY, targetY + 1);
        OutsideIsNothing(Mono1, width, height, before, Ink(black), Line(gx, bits, FONT_WIDTH, 1, targetY, targetY + 1));
        return;
      }
      LineNothing(width, height, gx, bits, 0, 1, targetY, targetY + 1);
      OutsideIsNothing(Mono1, width, height, before, Ink(black), Line(gx, bits, 0, 1, targetY, targetY + 1));
      for column: int := 0 to FONT_WIDTH
        invariant Valid()
        invariant Painted(Mono1, width, height, before, pixels[..], Ink(black),
                          Line(gx, bits, column, 1, targetY, targetY + 1))
      {
        ghost var drawn := Line(gx, bits, column, 1, targetY, targetY + 1);
        ghost var next := Line(gx, bits, column + 1, 1, targetY, targetY + 1);
        if !Inked(bits, column) {
          BlankStep(width, height, gx, bits, column, 1, targetY, targetY + 1);
          PaintedSame(Mono1, width, height, before, pixels[..], Ink(black), drawn, next);
        } else {
          ghost var sofar := pixels[..];
          var targetX: u32 := gx + column;
          UnitColumns(column);
          ghost var cell := Box(targetX, targetY, targetX + 1, targetY + 1);
          if targetX < width {
            var _ := SetPixel(targetX, targetY, black);
          } else {
            BoxOutside(width, height, cell);
            OutsideIsNothing(Mono1, width, height, sofar, Ink(black), cell);
          }
          InkedStep(width, height, gx, bits, column, 1, targetY, targetY + 1);
          Extended(Mono1, width, height, before, sofar, pixels[..], Ink(black), drawn, cell, next);
        }
      }
    }

    method DrawGlyph(gx: nat, top: int, rows: seq<byte>, black: bool)
      requires Valid() && gx <= U16_MAX && |rows| == FONT_HEIGHT
      modifies pixels
      ensures Valid()
      ensures Painted(Mono1, width, height, old(pixels[..]), pixels[..], Ink(black),
                      Glyph(gx, top, rows, GLYPH_LINES, 1))
    {
      ghost var before := pixels[..];
      assert pixels.Length == RowStart(height, Mono1Stride(width));
      hide Painted, Covers, SameOn, ValidMono1, RowStart;
      NothingDrawn(width, height, gx, top, rows, _ => [], 1);
      OutsideIsNothing(Mono1, width, height, before, Ink(black), Glyph(gx, top, rows, 0, 1));
      for sourceRow: int := 0 to FONT_HEIGHT
        invariant Valid()
        invariant Painted(Mono1, width, height, before, pixels[..], Ink(black),
                          Glyph(gx, top, rows, VERTICAL_SCALE * sourceRow, 1))
      {
        for repeat: int := 0 to VERTICAL_SCALE
          invariant Valid()
          invariant Painted(Mono1, width, height, before, pixels[..], Ink(black),
                            Glyph(gx, top, rows, VERTICAL_SCALE * sourceRow + repeat, 1))
        {
          ghost var sofar := pixels[..];
          var line := VERTICAL_SCALE * sourceRow + repeat;
          var targetY := top + sourceRow * VERTICAL_SCALE + repeat;
          DrawLine(gx, targetY, rows[sourceRow], black);
          UnitLine(top, line);
          GlyphStep(width, height, gx, top, rows, line, 1);
          Extended(Mono1, width, height, before, sofar, pixels[..], Ink(black), Glyph(gx, top, rows, line, 1),
                   Line(gx, rows[sourceRow], FONT_WIDTH, 1, targetY, targetY + 1), Glyph(gx, top, rows, line + 1, 1));
        }
      }
    }

    /** `draw_text`: the ideal raster of the text, as far as it is on the canvas. */
    method DrawText(x: u16, baseline: u16, text: seq<char>, font: Font, black: bool)
      requires Valid() && FontRows(font)
      modifies pixels
      ensures Valid()
      ensures Painted(Mono1, width, height, old(pixels[..]), pixels[..], Ink(black),
                      Text(x, baseline - (GLYPH_LINES - 1), font, text, 1))
    {
      ghost var before := pixels[..];
      assert pixels.Length == RowStart(height, Mono1Stride(width));
      hide Painted, Covers, SameOn, ValidMono1, RowStart;
      var top := baseline - (GLYPH_LINES - 1);
      var glyphX: u32 := x;
      NothingDrawn(width, height, x, top, [], font, 1);
      OutsideIsNothing(Mono1, width, height, before, Ink(black), Text(x, top, font, [], 1));
      var i := 0;
      assert text[..0] == [];
      PenStarts(x, 1);
      while i < |text|
        invariant 0 <= i <= |text| && glyphX == GlyphX(x, i, 1) && Valid()
        invariant glyphX < width + ADVANCE || i == 0
        invariant Painted(Mono1, width, height, before, pixels[..], Ink(black), Text(x, top, font, text[..i], 1))
      {
        if glyphX >= width {
          break;
        }
        ghost var sofar := pixels[..];
        DrawGlyph(glyphX, top, font(text[i]), black);
        TextStep(width, height, x, top, font, text, i, 1);
        Extended(Mono1, width, height, before, sofar, pixels[..], Ink(black), Text(x, top, font, text[..i], 1),
                 Glyph(glyphX, top, font(text[i]), GLYPH_LINES, 1), Text(x, top, font, text[..i + 1], 1));
        PenMoves(x, i, 1);
        glyphX := glyphX + ADVANCE;
        i := i + 1;
      }
      if i < |text| {
        TextEnds(width, height, x, top, font, text, i, 1);
        PaintedSame(Mono1, width, height, before, pixels[..], Ink(black), Text(x, top, font, text[..i], 1), Text(x,
            top, font, text, 1));
      } else {
        assert text[..i] == text;
      }
    }

    /** `into_frame`: validation of a canvas never fails. */
    method IntoFrame(t: Target) returns (r: Result<Frame, PixelsError>)
      requires Valid()
      ensures r == Ok(Frame(Mono1, width, height, pixels[..])) && Frames.Valid(r.value)
    {
      var checked := Validate(t, Mono1, width, height, pixels[..]);
      ValidateIsValid(t, Mono1, width, height, pixels[..]);
      assert checked.Ok?;
      r := Ok(Frame(Mono1, width, height, pixels[..]));
    }
  }

  /** `new`: only an empty size is refused; the payload size cannot overflow. */
  method NewCanvas(t: Target, width: u16, height: u16) returns (r: Result<Canvas, PixelsError>)
    ensures width == 0 || height == 0 ==> r == Err(ZeroDimension(width, height))
    ensures width > 0 && height > 0 ==> r.Ok? && fresh(r.value) && fresh(r.value.pixels)
    ensures r.Ok? ==> r.value.Valid() && r.value.width == width && r.value.height == height
    ensures r.Ok? ==> forall x: nat, y: nat :: x < width && y < height ==> !Dot(width, r.value.pixels[..], x, y)
  {
    if width == 0 || height == 0 {
      return Err(ZeroDimension(width, height));
    }
    PayloadLenTotal(t, Mono1, width, height);
    if PayloadLen(t, Mono1, width, height).None? {
      return Err(PayloadSizeOverflow(width, height));
    }
    var canvas := new Canvas(width, height);
    r := Ok(canvas);
  }

  /** `|= mask` or `&= !mask`, which stays a byte. */
  function DigitByte(b: byte, digit: nat, black: bool): (r: byte)
    requires digit < 8
    ensures r == if black then SetBit(b, digit) else ClearBit(b, digit)
  {
    ByteRange();
    SetBitBound(b, digit, 8);
    ClearBitBound(b, digit);
    if black then SetBit(b, digit) else ClearBit(b, digit)
  }

  lemma DotsSet(width: u16, height: u16, before: seq<byte>, after: seq<byte>, black: bool, x: nat, y: nat)
    requires x < width && y < height
    requires |before| == |after| == RowStart(height, Mono1Stride(width))
    requires var i := RowStart(y, Mono1Stride(width)) + x / 8;
             && i < |before|
             && after[i] == (if black then SetBit(before[i], 7 - x % 8) else ClearBit(before[i], 7 - x % 8))
             && forall k: nat :: k < |before| && k != i ==> after[k] == before[k]
    ensures Painted(Mono1, width, height, before, after, Ink(black), Box(x, y, x + 1, y + 1))
  {
    hide DotPainted, RowStart, SetBit, ClearBit;
    var point := Box(x, y, x + 1, y + 1);
    forall px: nat, py: nat | px < 8 * Mono1Stride(width) && py < height
      ensures DotPainted(Mono1, width, before, after, Ink(black), point, px, py)
    {
      DotSet(width, height, before, after, black, x, y, px, py);
    }
  }

  // ---------- Clearing ----------

  ghost predicate EndsRow(stride: nat, rows: nat, k: nat) {
    exists row: nat :: row < rows && k + 1 == RowEnd(stride, row)
  }

  function RowEnd(stride: nat, row: nat): nat {
    RowStart(row + 1, stride)
  }

  /** `u8::MAX << (8 - used_bits)` */
  function VisibleMask(width: u16): byte {
    BitOfHighOnes(8, 8 - width % 8, 0);
    ByteRange();
    HighOnes(8, 8 - width % 8)
  }

  lemma ClearedIsPainted(width: u16, height: u16, before: seq<byte>, after: seq<byte>, black: bool)
    requires ValidMono1(width, height, before) && |after| == |before|
    requires forall k: nat :: k < |after| ==>
      after[k] == if !black then 0
                  else if width % 8 != 0 && EndsRow(Mono1Stride(width), height, k) then VisibleMask(width) else 0xFF
    ensures Painted(Mono1, width, height, before, after, Ink(black), Box(0, 0, width, height))
  {
    var stride := Mono1Stride(width);
    var all := Box(0, 0, width, height);
    forall x: nat, y: nat | x < 8 * stride && y < height
      ensures DotPainted(Mono1, width, before, after, Ink(black), all, x, y)
    {
      ClearedDot(width, height, before, after, black, x, y);
    }
  }

  lemma ClearedDot(width: u16, height: u16, before: seq<byte>, after: seq<byte>, black: bool, x: nat, y: nat)
    requires ValidMono1(width, height, before) && |after| == |before|
    requires x < 8 * Mono1Stride(width) && y < height
    requires forall k: nat :: k < |after| ==>
      after[k] == if !black then 0
                  else if width % 8 != 0 && EndsRow(Mono1Stride(width), height, k) then VisibleMask(width) else 0xFF
    ensures DotPainted(Mono1, width, before, after, Ink(black), Box(0, 0, width, height), x, y)
  {
    var stride := Mono1Stride(width);
    var i := RowStart(y, stride) + x / 8;
    RowsOrdered(y, height, stride);
    EndsItsRow(stride, height, x / 8, y);
    PaddingIsWhite(width, height, before, x, y);
    hide Bit, VisibleMask, RowStart, EndsRow, ValidMono1, WhitePadding;
    ClearedByte(width, black, x, after[i]);
  }

  lemma PaddingIsWhite(width: u16, height: u16, pixels: seq<byte>, x: nat, y: nat)
    requires ValidMono1(width, height, pixels) && x < 8 * Mono1Stride(width) && y < height
    ensures x >= width ==> !Dot(width, pixels, x, y)
  {
    if x >= width {
      assert WhitePadding(width, pixels, y);
    }
  }

  /** The byte at column x / 8 of a cleared row shows the color exactly where x is visible. */
  lemma ClearedByte(width: u16, black: bool, x: nat, b: byte)
    requires x < 8 * Mono1Stride(width)
    requires b == if !black then 0
                  else if width % 8 != 0 && x / 8 == Mono1Stride(width) - 1 then VisibleMask(width) else 0xFF
    ensures Bit(b, 7 - x % 8) <==> black && x < width
  {
    ClearedDigits(width, x);
    hide Bit, VisibleMask;
  }

  /** The digits of the three bytes a cleared picture is made of. */
  lemma ClearedDigits(width: u16, x: nat)
    ensures !Bit(0, 7 - x % 8) && Bit(0xFF, 7 - x % 8)
    ensures Bit(VisibleMask(width), 7 - x % 8) <==> x % 8 < width % 8
  {
    ZeroHasNoBits(7 - x % 8);
    BitOfHighOnes(8, 8 - width % 8, 7 - x % 8);
    BitOfHighOnes(8, 0, 7 - x % 8);
    FullByte();
    hide Bit, HighOnes;
  }

  lemma FullByte()
    ensures HighOnes(8, 0) == 0xFF
  {
    assert HighOnes(4, 0) == 0xF;
    assert HighOnes(8, 0) == HighOnes(4, 0) * 16 + 0xF;
  }

  /** The byte at column c of row y ends its row exactly when c is the last column. */
  lemma EndsItsRow(stride: nat, height: nat, c: nat, y: nat)
    requires c < stride && y < height
    ensures EndsRow(stride, height, RowStart(y, stride) + c) <==> c == stride - 1
  {
    if row: nat :| row < height && RowStart(y, stride) + c + 1 == RowEnd(stride, row) {
      RowColumnUnique(y, c, row, stride - 1, stride);
    }
    if c == stride - 1 {
      assert RowStart(y, stride) + c + 1 == RowEnd(stride, y);
    }
  }

  lemma BlankIsValid(width: u16, height: u16, pixels: seq<byte>)
    requires width > 0 && height > 0 && |pixels| == RowStart(height, Mono1Stride(width))
    requires forall i: nat :: i < |pixels| ==> pixels[i] == 0
    ensures ValidMono1(width, height, pixels)
    ensures forall x: nat, y: nat :: !Dot(width, pixels, x, y)
  {
    forall x: nat, y: nat
      ensures !Dot(width, pixels, x, y)
    {
      ZeroHasNoBits(7 - x % 8);
    }
    forall y: nat | y < height
      ensures WhitePadding(width, pixels, y)
    {
      RowsOrdered(y, height, Mono1Stride(width));
      forall x: nat | width <= x < 8 * Mono1Stride(width)
        ensures !BitAt(pixels, RowStart(y, Mono1Stride(width)), x)
      {
        assert !Dot(width, pixels, x, y);
      }
    }
  }
}
