/** What it means to paint part of a frame's pixels in one color: the relation both canvases are specified by. */
module Painting {
  import opened Machine
  import opened Arithmetic
  import opened Bits
  import opened Frames
  import opened Raster

  /** The pixel or padding bit at column x of row y. */
  ghost predicate Dot(width: u16, pixels: seq<byte>, x: nat, y: nat) {
    var start := RowStart(y, Mono1Stride(width));
    start + x / 8 < |pixels| && BitAt(pixels, start, x)
  }

  /** A bit as a color: black is 1. */
  function Ink(black: bool): byte {
    if black then 1 else 0
  }

  /** The color at column x of row y. */
  ghost function ColorAt(format: PixelFormat, width: u16, pixels: seq<byte>, x: nat, y: nat): byte {
    match format
    case Mono1 => Ink(Dot(width, pixels, x, y))
    case Gray8 =>
      var i := RowStart(y, width) + x;
      if i < |pixels| then pixels[i] else 0
  }

  /** Columns stored per row, padding included. */
  function Columns(format: PixelFormat, width: u16): nat {
    match format
    case Mono1 => 8 * Mono1Stride(width)
    case Gray8 => width
  }

  function BufferLen(format: PixelFormat, width: u16, height: u16): nat {
    RowStart(height, Stride(format, width))
  }

  /** `after` is `before` with the canvas part of a region in one color; padding is as it was. */
  ghost predicate Painted(format: PixelFormat, width: u16, height: u16, before: seq<byte>, after: seq<byte>,
                          color: byte,
                          region: Region)
  {
    && |before| == |after| == BufferLen(format, width, height)
    && forall x: nat, y: nat :: x < Columns(format, width) && y < height ==>
         DotPainted(format, width, before, after, color, region, x, y)
  }

  ghost predicate DotPainted(format: PixelFormat, width: u16, before: seq<byte>, after: seq<byte>, color: byte,
                             region: Region, x: nat, y: nat)
  {
    ColorAt(format, width, after, x, y) ==
    if x < width && Covers(region, x, y) then color else ColorAt(format, width, before, x, y)
  }

  lemma PaintedNothing(format: PixelFormat, width: u16, height: u16, pixels: seq<byte>, color: byte)
    requires |pixels| == BufferLen(format, width, height)
    ensures Painted(format, width, height, pixels, pixels, color, Nothing)
  {
    hide ColorAt, BufferLen, Columns;
  }

  lemma PaintedBoth(format: PixelFormat, width: u16, height: u16, a: seq<byte>, b: seq<byte>, c: seq<byte>, color: byte,
                    r: Region, s: Region)
    requires Painted(format, width, height, a, b, color, r) && Painted(format, width, height, b, c, color, s)
    ensures Painted(format, width, height, a, c, color, Union(r, s))
  {
    hide ColorAt, BufferLen, Columns;
    forall x: nat, y: nat | x < Columns(format, width) && y < height
      ensures DotPainted(format, width, a, c, color, Union(r, s), x, y)
    {
      assert DotPainted(format, width, a, b, color, r, x, y) && DotPainted(format, width, b, c, color, s, x, y);
    }
  }

  /** Only the part of a region on the canvas matters. */
  lemma PaintedSame(format: PixelFormat, width: u16, height: u16, a: seq<byte>, b: seq<byte>, color: byte,
                    r: Region, s: Region)
    requires Painted(format, width, height, a, b, color, r) && SameOn(width, height, r, s)
    ensures Painted(format, width, height, a, b, color, s)
  {
    hide ColorAt, BufferLen, Columns, Covers;
    forall x: nat, y: nat | x < Columns(format, width) && y < height
      ensures DotPainted(format, width, a, b, color, s, x, y)
    {
      assert DotPainted(format, width, a, b, color, r, x, y);
    }
  }

  /** A region that misses the canvas is painted by doing nothing. */
  lemma OutsideIsNothing(format: PixelFormat, width: u16, height: u16, pixels: seq<byte>, color: byte, region: Region)
    requires |pixels| == BufferLen(format, width, height) && SameOn(width, height, Nothing, region)
    ensures Painted(format, width, height, pixels, pixels, color, region)
  {
    hide Painted, Covers, SameOn;
    PaintedNothing(format, width, height, pixels, color);
    PaintedSame(format, width, height, pixels, pixels, color, Nothing, region);
  }

  lemma EmptyBox(format: PixelFormat, width: u16, height: u16, pixels: seq<byte>, color: byte,
                 left: nat, top: nat, right: nat, bottom: nat)
    requires |pixels| == BufferLen(format, width, height) && (left >= right || top >= bottom)
    ensures Painted(format, width, height, pixels, pixels, color, Box(left, top, right, bottom))
  {
    OutsideIsNothing(format, width, height, pixels, color, Box(left, top, right, bottom));
  }

  /** Painting one region and then another paints what they make together. */
  lemma Extended(format: PixelFormat, width: u16, height: u16, a: seq<byte>, b: seq<byte>, c: seq<byte>, color: byte,
                 r: Region, s: Region, u: Region)
    requires Painted(format, width, height, a, b, color, r) && Painted(format, width, height, b, c, color, s)
    requires SameOn(width, height, Union(r, s), u)
    ensures Painted(format, width, height, a, c, color, u)
  {
    hide Painted, Covers, SameOn;
    PaintedBoth(format, width, height, a, b, c, color, r, s);
    PaintedSame(format, width, height, a, c, color, Union(r, s), u);
  }

  // ---------- The relation leaves nothing open ----------

  /** Every byte of the result is determined. */
  lemma PaintedDetermines(format: PixelFormat, width: u16, height: u16, before: seq<byte>, p: seq<byte>, q: seq<byte>,
                          color: byte, region: Region)
    requires Painted(format, width, height, before, p, color, region)
    requires Painted(format, width, height, before, q, color, region)
    ensures p == q
  {
    forall i: nat | i < |p|
      ensures p[i] == q[i]
    {
      var y, c := SplitOffset(i, Stride(format, width), height);
      SameByteAt(format, width, height, before, p, q, color, region, y, c);
    }
  }

  lemma SameByteAt(format: PixelFormat, width: u16, height: u16, before: seq<byte>, p: seq<byte>, q: seq<byte>,
                   color: byte, region: Region, y: nat, c: nat)
    requires Painted(format, width, height, before, p, color, region)
    requires Painted(format, width, height, before, q, color, region)
    requires y < height && c < Stride(format, width) && RowStart(y, Stride(format, width)) + c < |p|
    ensures var i := RowStart(y, Stride(format, width)) + c; p[i] == q[i]
  {
    var i := RowStart(y, Stride(format, width)) + c;
    if format.Gray8? {
      assert DotPainted(format, width, before, p, color, region, c, y);
      assert DotPainted(format, width, before, q, color, region, c, y);
    } else {
      var u, v := p[i], q[i];
      forall j: nat | j < 8
        ensures Bit(u, j) <==> Bit(v, j)
      {
        var x := 8 * c + (7 - j);
        assert x / 8 == c && 7 - x % 8 == j;
        SameDot(width, height, before, p, q, color, region, x, y);
      }
      SameByte(u, v);
    }
  }

  lemma SameDot(width: u16, height: u16, before: seq<byte>, p: seq<byte>, q: seq<byte>, color: byte, region: Region,
                x: nat, y: nat)
    requires Painted(Mono1, width, height, before, p, color, region)
    requires Painted(Mono1, width, height, before, q, color, region)
    requires x < 8 * Mono1Stride(width) && y < height && RowStart(y, Mono1Stride(width)) + x / 8 < |p|
    ensures BitAt(p, RowStart(y, Mono1Stride(width)), x) <==> BitAt(q, RowStart(y, Mono1Stride(width)), x)
  {
    hide Bit, RowStart, Covers;
    assert DotPainted(Mono1, width, before, p, color, region, x, y);
    assert DotPainted(Mono1, width, before, q, color, region, x, y);
    assert ColorAt(Mono1, width, p, x, y) == ColorAt(Mono1, width, q, x, y);
  }
}
