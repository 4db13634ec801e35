/** A pixel's way from the host's canvas to either panel. */
module PixelPath {
  import opened Machine
  import opened Arithmetic
  import opened Frames
  import Screen
  import opened X11Bitmap
  import opened MxcfbLayout
  import P = MxcfbPixels
  import Mapped = MxcfbMapped
  import C = Painting
  import opened WireReader
  import HostRuns
  import HostSender

  /** The dots of a canvas are the pixels of its frame. */
  lemma DotIsPixel(width: u16, height: u16, pixels: seq<byte>, x: nat, y: nat)
    requires ValidMono1(width, height, pixels) && x < width && y < height
    ensures RowStart(y, Mono1Stride(width)) + x / 8 < |pixels|
    ensures C.Dot(width, pixels, x, y) <==> BitAt(pixels, RowStart(y, Mono1Stride(width)), x)
    ensures Luminance(Frame(Mono1, width, height, pixels), x, y) == if C.Dot(width, pixels, x, y) then 0x00 else 0xFF
  {
    RowsOrdered(y, height, Mono1Stride(width));
  }

  /** An X server reads the canvas's dot from the prepared bitmap. */
  lemma DotOnServer(format: BitmapFormat, b: PreparedBitmap, pixels: seq<byte>, x: nat, y: nat)
    requires format.Valid() && ValidMono1(b.width, b.height, pixels) && Depicts(format, b, pixels)
    requires x < b.width && y < b.height
    ensures RowStart(y, b.stride) + ByteIndex(format, x) < |b.encoded|
    ensures X11Bit(format, b.encoded, RowStart(y, b.stride), x) <==> C.Dot(b.width, pixels, x, y)
  {
    StrideFacts(format, b.width);
    DotIsPixel(b.width, b.height, pixels, x, y);
    hide BitmapFormat.RowStride, ByteIndex, BitAt, X11Bit, ValidMono1, RowStart;
    assert RowAt(format, b.encoded, b.width, pixels, y);
    assert ReadsBack(format, b.encoded, RowStart(y, b.stride), x, b.width, pixels, RowStart(y, Mono1Stride(b.width)));
  }

  /** The panel's memory holds the canvas's dot as black or white. */
  lemma DotOnPanel(f: Frame, screen: Screen.ScreenLayout, spec: FramebufferSpec, before: seq<byte>, after: seq<byte>,
                   x: nat, y: nat)
    requires Valid(f) && f.format.Mono1? && P.Painted(f, screen, spec, before, after)
    requires f.width == screen.remoteViewport.width && f.height == screen.remoteViewport.height
    requires x < f.width && y < f.height
    ensures var i := P.RemoteArea(screen, spec).Offset(y) + x;
            i < |after| && after[i] == if C.Dot(f.width, f.pixels, x, y) then 0x00 else 0xFF
  {
    DotIsPixel(f.width, f.height, f.pixels, x, y);
    var a := P.RemoteArea(screen, spec);
    hide P.Area.Offset, ValidMono1, RowStart, C.Dot;
    assert P.RowShows(a, y, P.Shade(f), after);
    assert after[a.Offset(y) + x] == P.Shade(f)(x, y);
  }

  /** Whatever was drawn on the host's canvas, once encoded, is read back as it was, and once shown is on an X server
      and on the raw framebuffer alike: at every pixel both show the canvas's dot. */
  lemma PanelsAgree(t: Target, id: u64, width: u16, height: u16, pixels: seq<byte>, format: BitmapFormat,
                    b: PreparedBitmap, screen: Screen.ScreenLayout, spec: FramebufferSpec,
                    before: seq<byte>, after: seq<byte>, x: nat, y: nat)
    requires ValidMono1(width, height, pixels) && x < width && y < height
    requires format.Valid() && b.width == width && b.height == height
    requires width == screen.remoteViewport.width && height == screen.remoteViewport.height
    ensures var f := Frame(Mono1, width, height, pixels);
            var bytes := HostSender.EncodePicture(id, Some(f));
            && (bytes.Some? ==> FrameOutcome(t, bytes.value) == Ok(ReceivedFrame(id, f, bytes.value)))
            && (Depicts(format, b, pixels) ==>
                  && RowStart(y, b.stride) + ByteIndex(format, x) < |b.encoded|
                  && (X11Bit(format, b.encoded, RowStart(y, b.stride), x) <==> C.Dot(width, pixels, x, y)))
            && (P.Painted(f, screen, spec, before, after) ==>
                  var i := P.RemoteArea(screen, spec).Offset(y) + x;
                  i < |after| && after[i] == if C.Dot(width, pixels, x, y) then 0x00 else 0xFF)
  {
    hide FrameOutcome, HostSender.EncodePicture, P.Painted, Depicts, C.Dot, X11Bit, ByteIndex, ValidMono1, RowStart;
    var f := Frame(Mono1, width, height, pixels);
    assert Valid(f);
    var bytes := HostSender.EncodePicture(id, Some(f));
    if bytes.Some? {
      HostRuns.ReadBack(t, id, f, bytes.value);
    }
    if Depicts(format, b, pixels) {
      DotOnServer(format, b, pixels, x, y);
    }
    if P.Painted(f, screen, spec, before, after) {
      DotOnPanel(f, screen, spec, before, after, x, y);
    }
  }

  /** A Gray8 pixel is shown as it is: the panel's byte is the frame's. */
  lemma LevelOnPanel(f: Frame, screen: Screen.ScreenLayout, spec: FramebufferSpec, before: seq<byte>, after: seq<byte>,
                     x: nat, y: nat)
    requires Valid(f) && f.format.Gray8? && P.Painted(f, screen, spec, before, after)
    requires f.width == screen.remoteViewport.width && f.height == screen.remoteViewport.height
    requires x < f.width && y < f.height
    ensures y * f.width + x < |f.pixels|
    ensures var i := P.RemoteArea(screen, spec).Offset(y) + x; i < |after| && after[i] == f.pixels[y * f.width + x]
  {
    RowInPayload(f, y);
    RowStartIsProduct(y, f.width);
    var a := P.RemoteArea(screen, spec);
    hide P.Area.Offset, RowStart;
    assert P.RowShows(a, y, P.Shade(f), after);
    assert after[a.Offset(y) + x] == P.Shade(f)(x, y);
  }

  /** The strip likewise. */
  lemma ArtOnPanel(p: Mapped.SystemUiPixels, spec: FramebufferSpec, before: seq<byte>, after: seq<byte>, x: nat, y: nat)
    requires |p.bytes| == RowStart(p.region.height, p.region.width)
    requires P.Filled(Mapped.RectArea(p.region, spec), p.region.height, Mapped.StripValue(p), before, after)
    requires x < p.region.width && y < p.region.height
    ensures y * p.region.width + x < |p.bytes|
    ensures var i := Mapped.RectArea(p.region, spec).Offset(y) + x;
            i < |after| && after[i] == p.bytes[y * p.region.width + x]
  {
    Mapped.StripRow(p, y);
    RowStartIsProduct(y, p.region.width);
    var a := Mapped.RectArea(p.region, spec);
    hide P.Area.Offset, RowStart;
    assert P.RowShows(a, y, Mapped.StripValue(p), after);
    assert after[a.Offset(y) + x] == Mapped.StripValue(p)(x, y);
  }

  lemma GrayIsValid(width: u16, height: u16, pixels: seq<byte>)
    requires width > 0 && height > 0 && |pixels| == RowStart(height, width)
    ensures Valid(Frame(Gray8, width, height, pixels))
  {
  }

  /** Whatever levels the host's Gray8 canvas holds, once encoded, are read back as they were, and once shown the
      panel's byte at every pixel is the canvas's. */
  lemma LevelsArrive(t: Target, id: u64, width: u16, height: u16, pixels: seq<byte>, screen: Screen.ScreenLayout,
                     spec: FramebufferSpec, before: seq<byte>, after: seq<byte>, x: nat, y: nat)
    requires |pixels| == RowStart(height, width) && x < width && y < height
    requires width == screen.remoteViewport.width && height == screen.remoteViewport.height
    ensures var f := Frame(Gray8, width, height, pixels);
            var bytes := HostSender.EncodePicture(id, Some(f));
            && (bytes.Some? ==> FrameOutcome(t, bytes.value) == Ok(ReceivedFrame(id, f, bytes.value)))
            && RowStart(y, width) + x < |pixels|
            && (P.Painted(f, screen, spec, before, after) ==>
                  var i := P.RemoteArea(screen, spec).Offset(y) + x;
                  i < |after| && after[i] == pixels[RowStart(y, width) + x])
  {
    hide FrameOutcome, HostSender.EncodePicture, P.Painted, Valid, RowStart, P.Area.Offset;
    var f := Frame(Gray8, width, height, pixels);
    GrayIsValid(width, height, pixels);
    var bytes := HostSender.EncodePicture(id, Some(f));
    if bytes.Some? {
      HostRuns.ReadBack(t, id, f, bytes.value);
    }
    RowInPayload(f, y);
    RowStartIsProduct(y, width);
    if P.Painted(f, screen, spec, before, after) {
      LevelOnPanel(f, screen, spec, before, after, x, y);
    }
  }
}
