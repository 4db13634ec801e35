/** The host's eight-bit canvas (tools/paperspoon/src/gray_renderer.rs). */
module GrayCanvas {
  import opened Machine
  import opened Arithmetic
  import opened Frames
  import opened Raster
  import opened Painting
  import opened WirePayload
  import opened WireFraming

  lemma DotInside(width: u16, height: u16, x: nat, y: nat)
    requires x < width && y < height
    ensures RowStart(y, width) + x < RowStart(height, width)
  {
    RowsOrdered(y, height, width);
  }

  /** Filling a stretch of one row. */
  lemma RunFilled(width: u16, height: u16, before: seq<byte>, after: seq<byte>, luminance: byte,
                  left: nat, right: nat, row: nat)
    requires row < height && right <= width
    requires |before| == |after| == RowStart(height, width)
    requires forall k: nat :: k < |before| ==>
      after[k] == if RowStart(row, width) + left <= k < RowStart(row, width) + right then luminance else before[k]
    ensures Painted(Gray8, width, height, before, after, luminance, Box(left, row, right, row + 1))
  {
    var run := Box(left, row, right, row + 1);
    forall x: nat, y: nat | x < width && y < height
      ensures DotPainted(Gray8, width, before, after, luminance, run, x, y)
    {
      DotInside(width, height, x, y);
      if y < row {
        RowsOrdered(y, row, width);
      } else if row < y {
        RowsOrdered(row, y, width);
      }
    }
  }

  class Canvas {
    const width: u16
    const height: u16
    const pixels: array<byte>

    /** The buffer always fits, and always is a Gray8 picture of the canvas's size. */
    ghost predicate Valid() {
      width > 0 && height > 0 && pixels.Length == RowStart(height, width)
    }

    constructor (width: u16, height: u16)
      requires width > 0 && height > 0
      ensures Valid() && this.width == width && this.height == height && fresh(pixels)
      ensures forall i :: 0 <= i < pixels.Length ==> pixels[i] == 0xFF
    {
      this.width, this.height := width, height;
      pixels := new byte[RowStart(height, width)](_ => 0xFF);
    }

    /** `set_pixel` */
    method SetPixel(x: u16, y: u16, luminance: byte) returns (inside: bool)
      requires Valid()
      modifies pixels
      ensures inside <==> x < width && y < height
      ensures Painted(Gray8, width, height, old(pixels[..]), pixels[..], luminance, Box(x, y, x + 1, y + 1))
    {
      hide RowStart, DotPainted;
      ghost var before := pixels[..];
      if x >= width || y >= height {
        OutsideIsNothing(Gray8, width, height, before, luminance, Box(x, y, x + 1, y + 1));
        return false;
      }
      DotInside(width, height, x, y);
      RowStartIsProduct(y, width);
      pixels[y * width + x] := luminance;
      RunFilled(width, height, before, pixels[..], luminance, x, x + 1, y);
      inside := true;
    }

    /** `fill_rect`, a slice fill per row. */
    method FillRect(x: u16, y: u16, w: u16, h: u16, luminance: byte)
      requires Valid()
      modifies pixels
      ensures Painted(Gray8, width, height, old(pixels[..]), pixels[..], luminance, Filled(x, y, w, h))
    {
      hide Painted, Covers, SameOn, RowStart;
      ghost var before := pixels[..];
      var right: u32, bottom: u32 := Min(x + w, width), Min(y + h, height);
      var left, top := Min(x, width), Min(y, bottom);
      EmptyBox(Gray8, width, height, before, luminance, left, top, right, top);
      for row: int := top to bottom
        invariant Painted(Gray8, width, height, before, pixels[..], luminance, Box(left, top, right, row))
      {
        ghost var above := pixels[..];
        RowsOrdered(row, height, width);
        RowStartIsProduct(row, width);
        var start, end := row * width + left, row * width + right;
        for i := start to end
          invariant forall k: nat :: k < pixels.Length ==> pixels[k] == if start <= k < i then luminance else above[k]
        {
          pixels[i] := luminance;
        }
        RunFilled(width, height, above, pixels[..], luminance, left, right, row);
        TallerBox(width, height, left, top, right, row);
        Extended(Gray8, width, height, before, above, pixels[..], luminance, Box(left, top, right, row),
                 Box(left, row, right, row + 1), Box(left, top, right, row + 1));
      }
      ClippedRows(width, height, x, y, w, h);
      PaintedSame(Gray8, width, height, before, pixels[..], luminance, Box(left, top, right, bottom),
                  Filled(x, y, w, h));
    }

    /** `outline_rect`; unlike the one-bit canvas it draws the right edge of a one-pixel-wide outline twice. */
    method OutlineRect(x: u16, y: u16, w: u16, h: u16, luminance: byte)
      requires Valid()
      modifies pixels
      ensures Painted(Gray8, width, height, old(pixels[..]), pixels[..], luminance, Boundary(x, y, w, h))
    {
      hide Painted, Covers, SameOn, RowStart;
      ghost var before := pixels[..];
      if w == 0 || h == 0 {
        NoBoundary(width, height, x, y, w, h);
        OutsideIsNothing(Gray8, width, height, before, luminance, Boundary(x, y, w, h));
        return;
      }
      FillRect(x, y, w, 1, luminance);
      ghost var drawn, edge := Filled(x, y, w, 1), Nothing;
      ghost var sofar := pixels[..];
      PaintedNothing(Gray8, width, height, sofar, luminance);
      if h > 1 {
        FillRect(x, SaturatingAdd(y, h - 1), w, 1, luminance);
        edge := Filled(x, SaturatingAdd(y, h - 1), w, 1);
      }
      PaintedBoth(Gray8, width, height, before, sofar, pixels[..], luminance, drawn, edge);
      drawn, edge, sofar := Union(drawn, edge), Nothing, pixels[..];
      PaintedNothing(Gray8, width, height, sofar, luminance);
      if h > 2 {
        FillRect(x, SaturatingAdd(y, 1), 1, h - 2, luminance);
        edge := Filled(x, SaturatingAdd(y, 1), 1, h - 2);
      }
      PaintedBoth(Gray8, width, height, before, sofar, pixels[..], luminance, drawn, edge);
      drawn, edge, sofar := Union(drawn, edge), Nothing, pixels[..];
      PaintedNothing(Gray8, width, height, sofar, luminance);
      if h > 2 {
        FillRect(SaturatingAdd(x, w - 1), SaturatingAdd(y, 1), 1, h - 2, luminance);
        edge := Filled(SaturatingAdd(x, w - 1), SaturatingAdd(y, 1), 1, h - 2);
      }
      PaintedBoth(Gray8, width, height, before, sofar, pixels[..], luminance, drawn, edge);
      EdgesAreBoundary(width, height, x, y, w, h, true);
      PaintedSame(Gray8, width, height, before, pixels[..], luminance, Union(drawn, edge), Boundary(x, y, w, h));
    }

    /** The `scale` pixels of one inked column on one scan line. */
    method DrawCell(left: u32, targetY: u16, scale: u16, luminance: byte)
      requires Valid() && left + scale <= U32_MAX && targetY < height
      modifies pixels
      ensures Painted(Gray8, width, height, old(pixels[..]), pixels[..], luminance,
                      Box(left, targetY, left + scale, targetY + 1))
    {
      hide Painted, Covers, SameOn, RowStart;
      ghost var before := pixels[..];
      EmptyBox(Gray8, width, height, before, luminance, left, targetY, left, targetY + 1);
      for scaleX: int := 0 to scale
        invariant Painted(Gray8, width, height, before, pixels[..], luminance,
                          Box(left, targetY, left + scaleX, targetY + 1))
      {
        ghost var sofar := pixels[..];
        var targetX: u32 := left + scaleX;
        ghost var dot := Box(targetX, targetY, targetX + 1, targetY + 1);
        if targetX < width {
          var _ := SetPixel(targetX, targetY, luminance);
        } else {
          BoxOutside(width, height, dot);
          OutsideIsNothing(Gray8, width, height, sofar, luminance, dot);
        }
        WiderRun(width, height, left, targetY, targetX);
        Extended(Gray8, width, height, before, sofar, pixels[..], luminance, Box(left, targetY, targetX, targetY + 1),
                 dot,
                 Box(left, targetY, targetX + 1, targetY + 1));
      }
    }

    /** One scan line of one font row. */
    method DrawScan(gx: u32, targetY: u32, bits: byte, scale: u16, luminance: byte)
      requires Valid() && gx < width && scale > 0
      modifies pixels
      ensures Painted(Gray8, width, height, old(pixels[..]), pixels[..], luminance,
                      Line(gx, bits, FONT_WIDTH, scale, targetY, targetY + 1))
    {
      hide Painted, Covers, SameOn, RowStart, Inked;
      ghost var before := pixels[..];
      if targetY >= height {
        LineNothing(width, height, gx, bits, FONT_WIDTH, scale, targetY, targetY + 1);
        OutsideIsNothing(Gray8, width, height, before, luminance,
                         Line(gx, bits, FONT_WIDTH, scale, targetY, targetY + 1));
        return;
      }
      LineNothing(width, height, gx, bits, 0, scale, targetY, targetY + 1);
      OutsideIsNothing(Gray8, width, height, before, luminance, Line(gx, bits, 0, scale, targetY, targetY + 1));
      for column: int := 0 to FONT_WIDTH
        invariant Painted(Gray8, width, height, before, pixels[..], luminance,
                          Line(gx, bits, column, scale, targetY, targetY + 1))
      {
        ghost var drawn := Line(gx, bits, column, scale, targetY, targetY + 1);
        ghost var next := Line(gx, bits, column + 1, scale, targetY, targetY + 1);
        if !Inked(bits, column) {
          BlankStep(width, height, gx, bits, column, scale, targetY, targetY + 1);
          PaintedSame(Gray8, width, height, before, pixels[..], luminance, drawn, next);
        } else {
          ghost var sofar := pixels[..];
          ColumnAt(column, scale);
          var left: u32 := gx + column * scale;
          DrawCell(left, targetY, scale, luminance);
          InkedStep(width, height, gx, bits, column, scale, targetY, targetY + 1);
          Extended(Gray8, width, height, before, sofar, pixels[..], luminance, drawn,
                   Box(left, targetY, left + scale, targetY + 1), next);
        }
      }
    }

    /** The `scale` scan lines of one raster line. */
    method DrawLine(gx: u32, top: u32, bits: byte, scale: u16, luminance: byte)
      requires Valid() && gx < width && scale > 0 && top + scale <= U32_MAX
      modifies pixels
      ensures Painted(Gray8, width, height, old(pixels[..]), pixels[..], luminance,
                      Line(gx, bits, FONT_WIDTH, scale, top, top + scale))
    {
      hide Painted, Covers, SameOn, RowStart, Inked;
      ghost var before := pixels[..];
      LineNothing(width, height, gx, bits, FONT_WIDTH, scale, top, top);
      OutsideIsNothing(Gray8, width, height, before, luminance, Line(gx, bits, FONT_WIDTH, scale, top, top));
      for scaleY: int := 0 to scale
        invariant Painted(Gray8, width, height, before, pixels[..], luminance,
                          Line(gx, bits, FONT_WIDTH, scale, top, top + scaleY))
      {
        ghost var sofar := pixels[..];
        var targetY: u32 := top + scaleY;
        DrawScan(gx, targetY, bits, scale, luminance);
        LineTaller(width, height, gx, bits, scale, top, targetY);
        Extended(Gray8, width, height, before, sofar, pixels[..], luminance,
                 Line(gx, bits, FONT_WIDTH, scale, top, targetY),
                 Line(gx, bits, FONT_WIDTH, scale, targetY, targetY + 1),
                 Line(gx, bits, FONT_WIDTH, scale, top, targetY + 1));
      }
    }

    method DrawGlyph(gx: u32, y: u16, rows: seq<byte>, scale: u16, luminance: byte)
      requires Valid() && gx < width && scale > 0 && |rows| == FONT_HEIGHT
      modifies pixels
      ensures Painted(Gray8, width, height, old(pixels[..]), pixels[..], luminance,
                      Glyph(gx, y, rows, GLYPH_LINES, scale))
    {
      hide Painted, Covers, SameOn, RowStart;
      ghost var before := pixels[..];
      NothingDrawn(width, height, gx, y, rows, _ => [], scale);
      OutsideIsNothing(Gray8, width, height, before, luminance, Glyph(gx, y, rows, 0, scale));
      for sourceRow: int := 0 to FONT_HEIGHT
        invariant Painted(Gray8, width, height, before, pixels[..], luminance,
                          Glyph(gx, y, rows, VERTICAL_SCALE * sourceRow, scale))
      {
        for repeat: int := 0 to VERTICAL_SCALE
          invariant Painted(Gray8, width, height, before, pixels[..], luminance,
                            Glyph(gx, y, rows, VERTICAL_SCALE * sourceRow + repeat, scale))
        {
          ghost var sofar := pixels[..];
          var line := sourceRow * VERTICAL_SCALE + repeat;
          LineAt(y, line, scale);
          var top: u32 := y + line * scale;
          DrawLine(gx, top, rows[sourceRow], scale, luminance);
          GlyphStep(width, height, gx, y, rows, line, scale);
          Extended(Gray8, width, height, before, sofar, pixels[..], luminance, Glyph(gx, y, rows, line, scale),
                   Line(gx, rows[sourceRow], FONT_WIDTH, scale, top, top + scale), Glyph(gx, y, rows, line + 1, scale));
        }
      }
    }

    /** `draw_text`: at every origin and scale, zero counting as one, the ideal raster as far as it is on the
        canvas. */
    method DrawText(x: u16, y: u16, text: seq<char>, font: Font, scale: u16, luminance: byte)
      requires Valid() && FontRows(font)
      modifies pixels
      ensures Painted(Gray8, width, height, old(pixels[..]), pixels[..], luminance,
                      Text(x, y, font, text, Max(scale, 1)))
    {
      hide Painted, Covers, SameOn, RowStart;
      ghost var before := pixels[..];
      var s: u16 := Max(scale, 1);
      var glyphX: u32 := x;
      NothingDrawn(width, height, x, y, [], font, s);
      OutsideIsNothing(Gray8, width, height, before, luminance, Text(x, y, font, [], s));
      assert text[..0] == [];
      PenStarts(x, s);
      var i := 0;
      while i < |text|
        invariant 0 <= i <= |text| && glyphX == GlyphX(x, i, s)
        invariant Painted(Gray8, width, height, before, pixels[..], luminance, Text(x, y, font, text[..i], s))
      {
        if glyphX >= width {
          break;
        }
        ghost var sofar := pixels[..];
        DrawGlyph(glyphX, y, font(text[i]), s, luminance);
        TextStep(width, height, x, y, font, text, i, s);
        Extended(Gray8, width, height, before, sofar, pixels[..], luminance, Text(x, y, font, text[..i], s),
                 Glyph(glyphX, y, font(text[i]), GLYPH_LINES, s), Text(x, y, font, text[..i + 1], s));
        PenMoves(x, i, s);
        var advance: u32 := ADVANCE * s;
        glyphX := glyphX + advance;
        i := i + 1;
      }
      if i < |text| {
        TextEnds(width, height, x, y, font, text, i, s);
        PaintedSame(Gray8, width, height, before, pixels[..], luminance, Text(x, y, font, text[..i], s), Text(x, y,
            font, text, s));
      } else {
        assert text[..i] == text;
      }
    }
  }

  datatype CanvasError = EmptySize | PayloadTooLarge(length: nat) | AllocationFailed

  /** `new`: nonempty sizes whose frame fits one message; no product or sum overflows on either target. */
  method NewCanvas(t: Target, width: u16, height: u16, allocates: bool) returns (r: Result<Canvas, CanvasError>)
    ensures r.Ok? <==> width > 0 && height > 0 && FRAME_PREFIX_LEN + width * height <= MAX_PAYLOAD_LEN && allocates
    ensures r.Ok? ==> r.value.Valid() && r.value.width == width && r.value.height == height
    ensures r.Ok? ==> fresh(r.value) && fresh(r.value.pixels)
    ensures r.Ok? ==> forall i :: 0 <= i < r.value.pixels.Length ==> r.value.pixels[i] == 0xFF
  {
    if width == 0 || height == 0 {
      return Err(EmptySize);
    }
    PayloadLenTotal(t, Gray8, width, height);
    var pixelBytes := PayloadLen(t, Gray8, width, height);
    assert pixelBytes.Some?;
    var payloadBytes := CheckedAdd(FRAME_PREFIX_LEN, pixelBytes.value, t.UsizeMax());
    SumFits(t, width, height);
    assert payloadBytes.Some?;
    if payloadBytes.value > MAX_PAYLOAD_LEN {
      return Err(CanvasError.PayloadTooLarge(payloadBytes.value));
    }
    if !allocates {
      return Err(AllocationFailed);
    }
    var canvas := new Canvas(width, height);
    r := Ok(canvas);
  }

  lemma SumFits(t: Target, width: u16, height: u16)
    ensures FRAME_PREFIX_LEN + width * height <= t.UsizeMax()
  {
    ProductMonotone(width, U16_MAX, height, U16_MAX);
  }

  lemma ColumnAt(column: nat, scale: u16)
    requires column < FONT_WIDTH
    ensures RowStart(column, scale) == column * scale <= 5 * U16_MAX
    ensures RowStart(column + 1, scale) == column * scale + scale
  {
    RowStartIsProduct(column, scale);
    ProductMonotone(column, 5, scale, U16_MAX);
  }

  lemma LineAt(y: u16, line: nat, scale: u16)
    requires line < GLYPH_LINES
    ensures LineTop(y, line, scale) == y + line * scale <= 15 * U16_MAX
    ensures LineTop(y, line + 1, scale) == y + line * scale + scale
  {
    RowStartIsProduct(line, scale);
    ProductMonotone(line, 14, scale, U16_MAX);
  }

  /** Clipping on the left at the canvas instead of at the rectangle's right edge changes nothing either. */
  lemma ClippedRows(cw: u16, ch: u16, x: u16, y: u16, width: u16, height: u16)
    ensures var right, bottom := Min(x + width, cw), Min(y + height, ch);
            SameOn(cw, ch, Box(Min(x, cw), Min(y, bottom), right, bottom), Filled(x, y, width, height))
  {
  }
}
