/** Point sets drawn by the host's canvases: rectangles, their boundaries, and text in the 5x7 font
    (tools/paperspoon/src/font5x7.rs; the glyph table itself is a parameter). */
module Raster {
  import opened Machine
  import opened Arithmetic
  import opened Bits

  const FONT_WIDTH: nat := 5
  const FONT_HEIGHT: nat := 7
  const VERTICAL_SCALE: nat := 2
  const ADVANCE: nat := FONT_WIDTH + 1
  /** Raster lines of a glyph before scaling. */
  const GLYPH_LINES: nat := FONT_HEIGHT * VERTICAL_SCALE

  type Font = char -> seq<byte>

  ghost predicate FontRows(font: Font) {
    forall c: char :: |font(c)| == FONT_HEIGHT
  }

  datatype Region =
    | Nothing
    | Box(left: nat, top: int, right: nat, bottom: int)
    | Boundary(x: nat, y: nat, width: nat, height: nat)
    | Line(gx: nat, bits: byte, columns: nat, scale: nat, top: int, bottom: int)
    | Glyph(gx: nat, gy: int, rows: seq<byte>, lines: nat, scale: nat)
    | Text(x0: nat, gy: int, font: Font, text: seq<char>, scale: nat)
    | Union(a: Region, b: Region)

  /** Is the point in the region? */
  ghost predicate Covers(r: Region, px: nat, py: nat)
    decreases r
  {
    match r
    case Nothing => false
    case Box(left, top, right, bottom) => left <= px < right && top <= py < bottom
    case Boundary(x, y, width, height) =>
      && x <= px < x + width && y <= py < y + height
      && (px == x || px == x + width - 1 || py == y || py == y + height - 1)
    case Line(gx, bits, columns, scale, top, bottom) => LineCovers(gx, bits, columns, scale, top, bottom, px, py)
    case Glyph(gx, gy, rows, lines, scale) => GlyphCovers(gx, gy, rows, lines, scale, px, py)
    case Text(x0, gy, font, text, scale) => TextCovers(x0, gy, font, text, scale, px, py)
    case Union(a, b) => Covers(a, px, py) || Covers(b, px, py)
  }

  /** One font column of a line: `scale` pixels wide. */
  ghost predicate CellCovers(gx: nat, column: nat, scale: nat, top: int, bottom: int, px: nat, py: nat) {
    gx + RowStart(column, scale) <= px < gx + RowStart(column + 1, scale) && top <= py < bottom
  }

  /** The inked columns of one line of a glyph; digit 4 of its bits is the leftmost. */
  ghost predicate LineCovers(gx: nat, bits: byte, columns: nat, scale: nat, top: int, bottom: int, px: nat, py: nat) {
    exists column: nat :: column < columns && Inked(bits, column) && CellCovers(gx, column, scale, top, bottom, px, py)
  }

  predicate Inked(bits: byte, column: nat) {
    column < FONT_WIDTH && Bit(bits, FONT_WIDTH - 1 - column)
  }

  /** The top of a raster line. */
  function LineTop(gy: int, line: nat, scale: nat): int {
    gy + RowStart(line, scale)
  }

  /** Each row of the font is drawn on two lines, each `scale` pixels high. */
  ghost predicate GlyphCovers(gx: nat, gy: int, rows: seq<byte>, lines: nat, scale: nat, px: nat, py: nat) {
    exists line: nat :: line < lines && LineOfGlyphCovers(gx, gy, rows, line, scale, px, py)
  }

  ghost predicate LineOfGlyphCovers(gx: nat, gy: int, rows: seq<byte>, line: nat, scale: nat, px: nat, py: nat) {
    line / VERTICAL_SCALE < |rows|
    && LineCovers(gx, rows[line / VERTICAL_SCALE], FONT_WIDTH, scale, LineTop(gy, line, scale),
                  LineTop(gy, line + 1, scale),
                  px, py)
  }

  /** Glyphs are placed an advance apart. */
  ghost predicate TextCovers(x0: nat, gy: int, font: Font, text: seq<char>, scale: nat, px: nat, py: nat) {
    exists i: nat :: i < |text| && GlyphCovers(GlyphX(x0, i, scale), gy, font(text[i]), GLYPH_LINES, scale, px, py)
  }

  function GlyphX(x0: nat, i: nat, scale: nat): nat {
    x0 + RowStart(i, ADVANCE * scale)
  }

  /** The two regions hold the same points of a canvas. */
  ghost predicate SameOn(width: nat, height: nat, r: Region, s: Region) {
    forall px: nat, py: nat :: px < width && py < height ==> (Covers(r, px, py) <==> Covers(s, px, py))
  }

  /** A union is known by its parts. */
  lemma UnionIs(cw: nat, ch: nat, r: Region, s: Region, u: Region)
    requires forall px: nat, py: nat {:trigger Covers(u, px, py)} ::
      px < cw && py < ch ==> (Covers(u, px, py) <==> Covers(r, px, py) || Covers(s, px, py))
    ensures SameOn(cw, ch, Union(r, s), u)
  {
    forall px: nat, py: nat | px < cw && py < ch
      ensures Covers(Union(r, s), px, py) <==> Covers(u, px, py)
    {
    }
  }

  // ---------- Growing a region ----------

  lemma LineGrows(gx: nat, bits: byte, columns: nat, scale: nat, top: int, bottom: int, px: nat, py: nat)
    ensures LineCovers(gx, bits, columns + 1, scale, top, bottom, px, py) <==>
            LineCovers(gx, bits, columns, scale, top, bottom, px, py)
            || (Inked(bits, columns) && CellCovers(gx, columns, scale, top, bottom, px, py))
  {
    hide CellCovers, Inked;
    if LineCovers(gx, bits, columns + 1, scale, top, bottom, px, py) {
      var column: nat :| column < columns + 1 && Inked(bits, column) 
        && CellCovers(gx, column, scale, top, bottom, px, py);
      assert column < columns || column == columns;
    }
  }

  lemma GlyphGrows(gx: nat, gy: int, rows: seq<byte>, lines: nat, scale: nat, px: nat, py: nat)
    ensures GlyphCovers(gx, gy, rows, lines + 1, scale, px, py) <==>
            GlyphCovers(gx, gy, rows, lines, scale, px, py) || LineOfGlyphCovers(gx, gy, rows, lines, scale, px, py)
  {
    hide LineOfGlyphCovers;
    if GlyphCovers(gx, gy, rows, lines + 1, scale, px, py) {
      var line: nat :| line < lines + 1 && LineOfGlyphCovers(gx, gy, rows, line, scale, px, py);
      assert line < lines || line == lines;
    }
  }

  lemma TextGrows(x0: nat, gy: int, font: Font, text: seq<char>, n: nat, scale: nat, px: nat, py: nat)
    requires n < |text|
    ensures TextCovers(x0, gy, font, text[..n + 1], scale, px, py) <==>
            TextCovers(x0, gy, font, text[..n], scale, px, py)
            || GlyphCovers(GlyphX(x0, n, scale), gy, font(text[n]), GLYPH_LINES, scale, px, py)
  {
    hide GlyphCovers;
    var before, after := text[..n], text[..n + 1];
    if TextCovers(x0, gy, font, after, scale, px, py) {
      var i: nat :| i < |after| && GlyphCovers(GlyphX(x0, i, scale), gy, font(after[i]), GLYPH_LINES, scale, px, py);
      if i < n {
        assert after[i] == before[i];
      }
    }
    if TextCovers(x0, gy, font, before, scale, px, py) {
      var i: nat :| i < |before| && GlyphCovers(GlyphX(x0, i, scale), gy, font(before[i]), GLYPH_LINES, scale, px, py);
      assert after[i] == before[i];
    }
    assert after[n] == text[n];
  }

  lemma InkedStep(cw: nat, ch: nat, gx: nat, bits: byte, columns: nat, scale: nat, top: int, bottom: int)
    requires Inked(bits, columns)
    ensures SameOn(cw, ch, Union(Line(gx, bits, columns, scale, top, bottom),
                                 Box(gx + RowStart(columns, scale), top, gx + RowStart(columns + 1, scale), bottom)),
                   Line(gx, bits, columns + 1, scale, top, bottom))
  {
    hide Inked, LineCovers, RowStart, SameOn;
    var r := Line(gx, bits, columns, scale, top, bottom);
    var s := Box(gx + RowStart(columns, scale), top, gx + RowStart(columns + 1, scale), bottom);
    var u := Line(gx, bits, columns + 1, scale, top, bottom);
    forall px: nat, py: nat | px < cw && py < ch
      ensures Covers(u, px, py) <==> Covers(r, px, py) || Covers(s, px, py)
    {
      LineGrows(gx, bits, columns, scale, top, bottom, px, py);
    }
    UnionIs(cw, ch, r, s, u);
  }

  lemma BlankStep(cw: nat, ch: nat, gx: nat, bits: byte, columns: nat, scale: nat, top: int, bottom: int)
    requires !Inked(bits, columns)
    ensures SameOn(cw, ch, Line(gx, bits, columns, scale, top, bottom), Line(gx, bits, columns + 1, scale, top, bottom))
  {
    hide Inked, LineCovers, RowStart;
    forall px: nat, py: nat | px < cw && py < ch
      ensures LineCovers(gx, bits, columns + 1, scale, top, bottom, px, py) <==>
              LineCovers(gx, bits, columns, scale, top, bottom, px, py)
    {
      LineGrows(gx, bits, columns, scale, top, bottom, px, py);
    }
  }

  /** Scan lines of one raster line stack up. */
  lemma LineTaller(cw: nat, ch: nat, gx: nat, bits: byte, scale: nat, top: int, y: int)
    requires top <= y
    ensures SameOn(cw, ch, Union(Line(gx, bits, FONT_WIDTH, scale, top, y),
                                 Line(gx, bits, FONT_WIDTH, scale, y, y + 1)),
                   Line(gx, bits, FONT_WIDTH, scale, top, y + 1))
  {
    hide LineCovers, SameOn;
    var r := Line(gx, bits, FONT_WIDTH, scale, top, y);
    var s := Line(gx, bits, FONT_WIDTH, scale, y, y + 1);
    var u := Line(gx, bits, FONT_WIDTH, scale, top, y + 1);
    forall px: nat, py: nat | px < cw && py < ch
      ensures Covers(u, px, py) <==> Covers(r, px, py) || Covers(s, px, py)
    {
      LineSplit(gx, bits, scale, top, y, px, py);
    }
    UnionIs(cw, ch, r, s, u);
  }

  lemma LineSplit(gx: nat, bits: byte, scale: nat, top: int, y: int, px: nat, py: nat)
    requires top <= y
    ensures LineCovers(gx, bits, FONT_WIDTH, scale, top, y + 1, px, py) <==>
            LineCovers(gx, bits, FONT_WIDTH, scale, top, y, px, py)
            || LineCovers(gx, bits, FONT_WIDTH, scale, y, y + 1, px, py)
  {
    hide Inked, RowStart;
    if column: nat :| column < FONT_WIDTH && Inked(bits, column) && CellCovers(gx, column, scale, top, y + 1, px, py) {
      assert CellCovers(gx, column, scale, top, y, px, py) || CellCovers(gx, column, scale, y, y + 1, px, py);
    }
    if column: nat :| column < FONT_WIDTH && Inked(bits, column) && CellCovers(gx, column, scale, top, y, px, py) {
      assert CellCovers(gx, column, scale, top, y + 1, px, py);
    }
    if column: nat :| column < FONT_WIDTH && Inked(bits, column) && CellCovers(gx, column, scale, y, y + 1, px, py) {
      assert CellCovers(gx, column, scale, top, y + 1, px, py);
    }
  }

  /** A line of no height, of no columns, or off the canvas draws nothing. */
  lemma LineNothing(cw: nat, ch: nat, gx: nat, bits: byte, columns: nat, scale: nat, top: int, bottom: int)
    requires bottom <= top || columns == 0 || bottom <= 0 || ch <= top
    ensures SameOn(cw, ch, Nothing, Line(gx, bits, columns, scale, top, bottom))
  {
    hide Inked, RowStart;
  }

  lemma GlyphStep(cw: nat, ch: nat, gx: nat, gy: int, rows: seq<byte>, line: nat, scale: nat)
    requires line / VERTICAL_SCALE < |rows|
    ensures SameOn(cw, ch, Union(Glyph(gx, gy, rows, line, scale),
                                 Line(gx, rows[line / VERTICAL_SCALE], FONT_WIDTH, scale,
                                      LineTop(gy, line, scale), LineTop(gy, line + 1, scale))),
                   Glyph(gx, gy, rows, line + 1, scale))
  {
    hide LineCovers, GlyphCovers, LineTop, SameOn;
    var r := Glyph(gx, gy, rows, line, scale);
    var s := Line(gx, rows[line / VERTICAL_SCALE], FONT_WIDTH, scale, LineTop(gy, line, scale),
                  LineTop(gy, line + 1, scale));
    var u := Glyph(gx, gy, rows, line + 1, scale);
    forall px: nat, py: nat | px < cw && py < ch
      ensures Covers(u, px, py) <==> Covers(r, px, py) || Covers(s, px, py)
    {
      GlyphGrows(gx, gy, rows, line, scale, px, py);
    }
    UnionIs(cw, ch, r, s, u);
  }

  lemma TextStep(cw: nat, ch: nat, x0: nat, gy: int, font: Font, text: seq<char>, n: nat, scale: nat)
    requires n < |text|
    ensures SameOn(cw, ch, Union(Text(x0, gy, font, text[..n], scale),
                                 Glyph(GlyphX(x0, n, scale), gy, font(text[n]), GLYPH_LINES, scale)),
                   Text(x0, gy, font, text[..n + 1], scale))
  {
    hide GlyphCovers, TextCovers, GlyphX, SameOn;
    var r := Text(x0, gy, font, text[..n], scale);
    var s := Glyph(GlyphX(x0, n, scale), gy, font(text[n]), GLYPH_LINES, scale);
    var u := Text(x0, gy, font, text[..n + 1], scale);
    forall px: nat, py: nat | px < cw && py < ch
      ensures Covers(u, px, py) <==> Covers(r, px, py) || Covers(s, px, py)
    {
      TextGrows(x0, gy, font, text, n, scale, px, py);
    }
    UnionIs(cw, ch, r, s, u);
  }

  lemma NothingDrawn(cw: nat, ch: nat, gx: nat, gy: int, rows: seq<byte>, font: Font, scale: nat)
    ensures SameOn(cw, ch, Nothing, Glyph(gx, gy, rows, 0, scale))
    ensures SameOn(cw, ch, Nothing, Text(gx, gy, font, [], scale))
  {
  }

  // ---------- Where glyphs can be ----------

  lemma GlyphRightOf(gx: nat, gy: int, rows: seq<byte>, lines: nat, scale: nat, px: nat, py: nat)
    requires GlyphCovers(gx, gy, rows, lines, scale, px, py)
    ensures gx <= px
  {
  }

  /** Once the pen has left the canvas, nothing more of the text is on it. */
  lemma TextEnds(width: nat, height: nat, x0: nat, gy: int, font: Font, text: seq<char>, n: nat, scale: nat)
    requires n <= |text| && GlyphX(x0, n, scale) >= width
    ensures SameOn(width, height, Text(x0, gy, font, text[..n], scale), Text(x0, gy, font, text, scale))
  {
    forall px: nat, py: nat | px < width && py < height
      ensures TextCovers(x0, gy, font, text[..n], scale, px, py) <==> TextCovers(x0, gy, font, text, scale, px, py)
    {
      TextEndsAt(width, x0, gy, font, text, n, scale, px, py);
    }
  }

  lemma TextEndsAt(width: nat, x0: nat, gy: int, font: Font, text: seq<char>, n: nat, scale: nat, px: nat, py: nat)
    requires n <= |text| && GlyphX(x0, n, scale) >= width && px < width
    ensures TextCovers(x0, gy, font, text[..n], scale, px, py) <==> TextCovers(x0, gy, font, text, scale, px, py)
  {
    hide GlyphCovers;
    var before := text[..n];
    if TextCovers(x0, gy, font, before, scale, px, py) {
      var i: nat :| i < |before| && GlyphCovers(GlyphX(x0, i, scale), gy, font(before[i]), GLYPH_LINES, scale, px, py);
      assert text[i] == before[i];
    }
    if TextCovers(x0, gy, font, text, scale, px, py) {
      var i: nat :| i < |text| && GlyphCovers(GlyphX(x0, i, scale), gy, font(text[i]), GLYPH_LINES, scale, px, py);
      GlyphRightOf(GlyphX(x0, i, scale), gy, font(text[i]), GLYPH_LINES, scale, px, py);
      if i >= n {
        RowStartGrows(n, i, ADVANCE * scale);
        assert false;
      }
      assert before[i] == text[i];
    }
  }

  // ---------- Outlines ----------

  function SaturatingAdd(a: u16, b: u16): u16 {
    Min(a + b, U16_MAX)
  }

  /** `fill_rect`, clipped as the canvas clips it. */
  function Filled(x: u16, y: u16, width: u16, height: u16): Region {
    Box(x, y, x + width, y + height)
  }

  /** The four edges with the right edge drawn or not when it is the left one, in saturating arithmetic. */
  function Edges(x: u16, y: u16, width: u16, height: u16, right: bool): Region
    requires width > 0 && height > 0
  {
    var top := Filled(x, y, width, 1);
    var bottom := if height > 1 then Filled(x, SaturatingAdd(y, height - 1), width, 1) else Nothing;
    var left := if height > 2 then Filled(x, SaturatingAdd(y, 1), 1, height - 2) else Nothing;
    var rightEdge := if height > 2 && right then Filled(SaturatingAdd(x, width - 1), SaturatingAdd(y, 1), 1, height - 2)
                     else Nothing;
    Union(Union(Union(top, bottom), left), rightEdge)
  }

  /** On any canvas the edges drawn are the true boundary: what saturates lies outside. */
  lemma EdgesAreBoundary(cw: u16, ch: u16, x: u16, y: u16, width: u16, height: u16, right: bool)
    requires width > 0 && height > 0 && (width > 1 ==> right)
    ensures SameOn(cw, ch, Edges(x, y, width, height, right), Boundary(x, y, width, height))
  {
    forall px: nat, py: nat | px < cw && py < ch
      ensures Covers(Edges(x, y, width, height, right), px, py) <==> Covers(Boundary(x, y, width, height), px, py)
    {
      var edges := Edges(x, y, width, height, right);
      assert Covers(edges, px, py) <==> Covers(edges.a, px, py) || Covers(edges.b, px, py);
      assert Covers(edges.a, px, py) <==> Covers(edges.a.a, px, py) || Covers(edges.a.b, px, py);
      assert Covers(edges.a.a, px, py) <==> Covers(edges.a.a.a, px, py) || Covers(edges.a.a.b, px, py);
    }
  }

  // ---------- Rectangles ----------

  lemma WiderRun(cw: nat, ch: nat, left: nat, row: nat, column: nat)
    requires left <= column
    ensures SameOn(cw, ch, Union(Box(left, row, column, row + 1), Box(column, row, column + 1, row + 1)),
                   Box(left, row, column + 1, row + 1))
  {
    UnionIs(cw, ch, Box(left, row, column, row + 1), Box(column, row, column + 1, row + 1),
            Box(left, row, column + 1, row + 1));
  }

  lemma TallerBox(cw: nat, ch: nat, left: nat, top: nat, right: nat, row: nat)
    requires top <= row
    ensures SameOn(cw, ch, Union(Box(left, top, right, row), Box(left, row, right, row + 1)),
                   Box(left, top, right, row + 1))
  {
    UnionIs(cw, ch, Box(left, top, right, row), Box(left, row, right, row + 1), Box(left, top, right, row + 1));
  }

  /** Clipping a rectangle first changes nothing on the canvas. */
  lemma ClippedBox(cw: u16, ch: u16, x: u16, y: u16, width: u16, height: u16)
    ensures var right, bottom := Min(x + width, cw), Min(y + height, ch);
            SameOn(cw, ch, Box(Min(x, right), Min(y, bottom), right, bottom), Filled(x, y, width, height))
  {
  }

  lemma BoxOutside(cw: nat, ch: nat, box: Region)
    requires box.Box? && cw <= box.left
    ensures SameOn(cw, ch, Nothing, box)
  {
  }

  lemma NoBoundary(cw: nat, ch: nat, x: nat, y: nat, width: nat, height: nat)
    requires width == 0 || height == 0
    ensures SameOn(cw, ch, Nothing, Boundary(x, y, width, height))
  {
  }

  // ---------- The pen ----------

  lemma UnitColumns(column: nat)
    ensures RowStart(column, 1) == column && RowStart(column + 1, 1) == column + 1
  {
    RowStartIsProduct(column, 1);
    RowStartIsProduct(column + 1, 1);
  }

  lemma UnitLine(top: int, line: nat)
    ensures LineTop(top, line, 1) == top + line && LineTop(top, line + 1, 1) == top + line + 1
  {
    UnitColumns(line);
  }

  lemma PenStarts(x: nat, scale: nat)
    ensures GlyphX(x, 0, scale) == x
  {
  }

  lemma PenMoves(x: nat, i: nat, scale: nat)
    ensures GlyphX(x, i + 1, scale) == GlyphX(x, i, scale) + ADVANCE * scale
  {
  }

  // ---------- Text, pixel by pixel ----------

  /** Six cells of one scale make one advance. */
  lemma {:induction false} AdvanceCells(i: nat, scale: nat)
    ensures RowStart(i, ADVANCE * scale) == RowStart(ADVANCE * i, scale)
  {
    if i > 0 {
      AdvanceCells(i - 1, scale);
      RowStartAdd(ADVANCE * (i - 1), ADVANCE, scale);
      RowStartIsProduct(ADVANCE, scale);
    }
  }

  /** A point u whole cells and r pixels along is in cell c exactly when u is c. */
  lemma InCell(c: nat, u: nat, r: nat, scale: nat)
    requires r < scale
    ensures RowStart(c, scale) <= RowStart(u, scale) + r < RowStart(c + 1, scale) <==> u == c
  {
    if u < c {
      RowsOrdered(u, c, scale);
    } else if c < u {
      RowsOrdered(c, u, scale);
    }
  }

  lemma CellOfPoint(x0: nat, i: nat, column: nat, scale: nat, top: int, bottom: int, u: nat, r: nat, py: nat)
    requires r < scale
    ensures CellCovers(GlyphX(x0, i, scale), column, scale, top, bottom, x0 + RowStart(u, scale) + r, py) <==>
            u == ADVANCE * i + column && top <= py < bottom
  {
    GlyphCell(x0, i, column, scale);
    GlyphCell(x0, i, column + 1, scale);
    InCell(ADVANCE * i + column, u, r, scale);
    hide RowStart, GlyphX;
  }

  /** Where a glyph's column starts, counted in cells from the text's origin. */
  lemma GlyphCell(x0: nat, i: nat, column: nat, scale: nat)
    ensures GlyphX(x0, i, scale) + RowStart(column, scale) == x0 + RowStart(ADVANCE * i + column, scale)
  {
    AdvanceCells(i, scale);
    RowStartAdd(ADVANCE * i, column, scale);
    hide RowStart;
  }

  lemma LineOfPoint(gy: int, line: nat, scale: nat, v: nat, q: nat)
    requires q < scale
    ensures LineTop(gy, line, scale) <= gy + RowStart(v, scale) + q < LineTop(gy, line + 1, scale) <==> line == v
  {
    InCell(line, v, q, scale);
    hide RowStart;
  }

  /** Which pixels a text inks: none left of or above its origin, and of the others, the one u cells right and v
      cells below is glyph u / 6, column u % 6 (the sixth is the gap), font row v / 2. */
  lemma TextPixel(x0: nat, gy: int, font: Font, text: seq<char>, scale: nat, px: nat, py: nat)
    requires FontRows(font) && scale > 0
    ensures TextCovers(x0, gy, font, text, scale, px, py) <==>
            && x0 <= px && gy <= py
            && (var u, v := (px - x0) / scale, (py - gy) / scale;
                && u / ADVANCE < |text| && v < GLYPH_LINES && u % ADVANCE < FONT_WIDTH
                && Bit(font(text[u / ADVANCE])[v / VERTICAL_SCALE], FONT_WIDTH - 1 - u % ADVANCE))
  {
    if x0 <= px && gy <= py {
      CellAt(px - x0, scale);
      CellAt(py - gy, scale);
      TextCell(x0, gy, font, text, scale, (px - x0) / scale, (px - x0) % scale, (py - gy) / scale, (py - gy) % scale);
      hide RowStart, TextCovers, Inked;
    } else if TextCovers(x0, gy, font, text, scale, px, py) {
      TextStartsAtOrigin(x0, gy, font, text, scale, px, py);
      assert false;
    }
  }

  lemma CellAt(distance: nat, scale: nat)
    requires scale > 0
    ensures distance == RowStart(distance / scale, scale) + distance % scale && 0 <= distance % scale < scale
  {
    RowStartIsProduct(distance / scale, scale);
    hide RowStart;
  }

  lemma TextCell(x0: nat, gy: int, font: Font, text: seq<char>, scale: nat, u: nat, r: nat, v: nat, q: nat)
    requires FontRows(font) && r < scale && q < scale && gy + RowStart(v, scale) + q >= 0
    ensures TextCovers(x0, gy, font, text, scale, x0 + RowStart(u, scale) + r, gy + RowStart(v, scale) + q) <==>
            u / ADVANCE < |text| && v < GLYPH_LINES
            && Inked(font(text[u / ADVANCE])[v / VERTICAL_SCALE], u % ADVANCE)
  {
    if TextCovers(x0, gy, font, text, scale, x0 + RowStart(u, scale) + r, gy + RowStart(v, scale) + q) {
      CoveredIsInked(x0, gy, font, text, scale, u, r, v, q);
    } else if && u / ADVANCE < |text| && v < GLYPH_LINES
              && Inked(font(text[u / ADVANCE])[v / VERTICAL_SCALE], u % ADVANCE) {
      InkCovers(x0, gy, font, text, scale, u, r, v, q);
    }
  }

  lemma CoveredIsInked(x0: nat, gy: int, font: Font, text: seq<char>, scale: nat, u: nat, r: nat, v: nat, q: nat)
    requires FontRows(font) && r < scale && q < scale && gy + RowStart(v, scale) + q >= 0
    requires TextCovers(x0, gy, font, text, scale, x0 + RowStart(u, scale) + r, gy + RowStart(v, scale) + q)
    ensures u / ADVANCE < |text| && v < GLYPH_LINES
            && Inked(font(text[u / ADVANCE])[v / VERTICAL_SCALE], u % ADVANCE)
  {
    hide Inked, LineTop, RowStart, GlyphX, CellCovers;
    var px, py := x0 + RowStart(u, scale) + r, gy + RowStart(v, scale) + q;
    var i: nat :| i < |text| && GlyphCovers(GlyphX(x0, i, scale), gy, font(text[i]), GLYPH_LINES, scale, px, py);
    var line: nat :| line < GLYPH_LINES
      && LineOfGlyphCovers(GlyphX(x0, i, scale), gy, font(text[i]), line, scale, px, py);
    var bits := font(text[i])[line / VERTICAL_SCALE];
    var top, bottom := LineTop(gy, line, scale), LineTop(gy, line + 1, scale);
    var column: nat :| column < FONT_WIDTH && Inked(bits, column)
      && CellCovers(GlyphX(x0, i, scale), column, scale, top, bottom, px, py);
    CellOfPoint(x0, i, column, scale, top, bottom, u, r, py);
    LineOfPoint(gy, line, scale, v, q);
    InGlyph(u, i, column);
  }

  lemma InGlyph(u: nat, i: nat, column: nat)
    requires u == ADVANCE * i + column && column < FONT_WIDTH
    ensures u / ADVANCE == i && u % ADVANCE == column
  {
  }

  lemma OfGlyph(u: nat)
    ensures u == ADVANCE * (u / ADVANCE) + u % ADVANCE && u % ADVANCE < ADVANCE
  {
  }

  lemma InkCovers(x0: nat, gy: int, font: Font, text: seq<char>, scale: nat, u: nat, r: nat, v: nat, q: nat)
    requires FontRows(font) && r < scale && q < scale && gy + RowStart(v, scale) + q >= 0
    requires u / ADVANCE < |text| && v < GLYPH_LINES
    requires Inked(font(text[u / ADVANCE])[v / VERTICAL_SCALE], u % ADVANCE)
    ensures TextCovers(x0, gy, font, text, scale, x0 + RowStart(u, scale) + r, gy + RowStart(v, scale) + q)
  {
    OfGlyph(u);
    hide Inked, RowStart, TextCovers;
    CellInks(x0, gy, font, text, scale, u / ADVANCE, u % ADVANCE, u, r, v, q);
  }

  /** Column `column` of glyph i. */
  lemma CellInks(x0: nat, gy: int, font: Font, text: seq<char>, scale: nat, i: nat, column: nat, u: nat, r: nat, v: nat,
                 q: nat)
    requires FontRows(font) && r < scale && q < scale && gy + RowStart(v, scale) + q >= 0
    requires i < |text| && u == ADVANCE * i + column && v < GLYPH_LINES
    requires Inked(font(text[i])[v / VERTICAL_SCALE], column)
    ensures TextCovers(x0, gy, font, text, scale, x0 + RowStart(u, scale) + r, gy + RowStart(v, scale) + q)
  {
    hide LineTop, RowStart, GlyphX, CellCovers, Bit;
    var px, py := x0 + RowStart(u, scale) + r, gy + RowStart(v, scale) + q;
    var top, bottom := LineTop(gy, v, scale), LineTop(gy, v + 1, scale);
    CellOfPoint(x0, i, column, scale, top, bottom, u, r, py);
    LineOfPoint(gy, v, scale, v, q);
    assert LineCovers(GlyphX(x0, i, scale), font(text[i])[v / VERTICAL_SCALE], FONT_WIDTH, scale, top, bottom, px, py);
    assert LineOfGlyphCovers(GlyphX(x0, i, scale), gy, font(text[i]), v, scale, px, py);
  }

  lemma TextStartsAtOrigin(x0: nat, gy: int, font: Font, text: seq<char>, scale: nat, px: nat, py: nat)
    requires TextCovers(x0, gy, font, text, scale, px, py)
    ensures x0 <= px && gy <= py
  {
  }
}
