/** Converting a remote frame to native 8-bit framebuffer bytes, directly or through a staging buffer
    (src/mxcfb/pixels.rs). Both are specified by one relation on memories, `Painted`. */
module MxcfbPixels {
  import opened Machine
  import opened Arithmetic
  import opened Bits
  import opened Frames
  import opened Screen
  import opened MxcfbLayout

  /** A rectangle of native bytes: `height` runs of `width` bytes, `line` apart, starting at column
      `x` of line `y`. */
  datatype Area = Area(x: nat, y: nat, width: nat, height: nat, line: nat)
  {
    /** Byte offset of the area's row `row`. */
    function Offset(row: nat): nat {
      RowStart(y + row, line) + x
    }

    predicate RowHolds(row: nat, i: nat) {
      Offset(row) <= i < Offset(row) + width
    }

    /** Does memory offset i belong to one of the first `rows` rows? */
    ghost predicate Covers(rows: nat, i: nat) {
      exists row: nat :: row < rows && RowHolds(row, i)
    }

    ghost predicate Inside(length: nat) {
      x + width <= line && (height > 0 ==> Offset(height - 1) + width <= length)
    }
  }

  lemma RowInArea(a: Area, length: nat, row: nat)
    requires a.Inside(length) && row < a.height
    ensures a.Offset(row) + a.width <= length
  {
    if row < a.height - 1 {
      RowsOrdered(a.y + row, a.y + a.height - 1, a.line);
    }
  }

  lemma RowsApart(a: Area, r: nat, s: nat)
    requires a.x + a.width <= a.line && r < s
    ensures a.Offset(r) + a.width <= a.Offset(s)
  {
    RowsOrdered(a.y + r, a.y + s, a.line);
  }

  /** Memory after drawing: the area shows `value`, and nothing else has changed. */
  ghost predicate Filled(a: Area, rows: nat, value: (nat, nat) -> byte, before: seq<byte>, after: seq<byte>) {
    && |before| == |after|
    && (forall row: nat :: row < rows ==> RowShows(a, row, value, after))
    && (forall i: nat :: i < |after| && !a.Covers(rows, i) ==> after[i] == before[i])
  }

  ghost predicate RowShows(a: Area, row: nat, value: (nat, nat) -> byte, memory: seq<byte>) {
    && a.Offset(row) + a.width <= |memory|
    && forall column: nat :: column < a.width ==> memory[a.Offset(row) + column] == value(column, row)
  }

  /** The relation determines the new memory. */
  lemma FilledUnique(a: Area, value: (nat, nat) -> byte, before: seq<byte>, m: seq<byte>, n: seq<byte>)
    requires Filled(a, a.height, value, before, m) && Filled(a, a.height, value, before, n)
    ensures m == n
  {
    forall i: nat | i < |m|
      ensures m[i] == n[i]
    {
      if a.Covers(a.height, i) {
        var row: nat :| row < a.height && a.RowHolds(row, i);
        assert RowShows(a, row, value, m) && RowShows(a, row, value, n);
        var column := i - a.Offset(row);
        assert m[a.Offset(row) + column] == value(column, row) == n[a.Offset(row) + column];
      }
    }
  }

  /** Native bytes of the remote viewport. */
  function RemoteArea(screen: ScreenLayout, spec: FramebufferSpec): Area {
    var r := screen.remoteViewport;
    Area(spec.xoffset + r.x, spec.yoffset + r.y, r.width, r.height, spec.lineLength)
  }

  /** Native bytes of the device-owned strip. */
  function StripArea(screen: ScreenLayout, spec: FramebufferSpec): Area {
    var r := screen.systemUi;
    Area(spec.xoffset + r.x, spec.yoffset + r.y, r.width, r.height, spec.lineLength)
  }

  function Shade(f: Frame): (nat, nat) -> byte {
    (x: nat, y: nat) => Luminance(f, x, y)
  }

  /** `after` is `before` with the frame drawn in the remote viewport: each remote pixel has its Mono1
      endpoint or Gray8 level, every other byte is as it was. */
  ghost predicate Painted(f: Frame, screen: ScreenLayout, spec: FramebufferSpec, before: seq<byte>, after: seq<byte>) {
    var a := RemoteArea(screen, spec);
    Filled(a, a.height, Shade(f), before, after)
  }

  lemma PaintedUnique(f: Frame, screen: ScreenLayout, spec: FramebufferSpec, before: seq<byte>, m: seq<byte>,
                      n: seq<byte>)
    requires Painted(f, screen, spec, before, m) && Painted(f, screen, spec, before, n)
    ensures m == n
  {
    FilledUnique(RemoteArea(screen, spec), Shade(f), before, m, n);
  }

  // ---------- The checks of `blit_remote` ----------

  /** All layout and range checks, in the original's order and arithmetic. */
  function BlitChecks(t: Target, f: Frame, screen: ScreenLayout, spec: FramebufferSpec, memoryLen: nat)
    : Result<Area, FbError>
  {
    if !spec.FormatSupported() then Err(UnsupportedFormat)
    else if spec.visibleWidth != screen.width || spec.visibleHeight != screen.height then Err(ScreenMismatch)
    else
      var region := screen.remoteViewport;
      if f.width != region.width || f.height != region.height then Err(FrameMismatch)
      else if region.y + region.height > screen.systemUi.y then Err(OverlapsSystemUi)
      else match (CheckedAdd(spec.xoffset, spec.visibleWidth, U32_MAX),
                  CheckedAdd(spec.yoffset, spec.visibleHeight, U32_MAX))
        case (Some(right), Some(bottom)) =>
          if right > spec.virtualWidth || bottom > spec.virtualHeight then Err(OutsideVirtual)
          else VirtualChecks(t, screen, spec, memoryLen)
        case _ => Err(BoundsOverflow)
  }

  function VirtualChecks(t: Target, screen: ScreenLayout, spec: FramebufferSpec, memoryLen: nat): Result<Area, FbError> {
    match (ToUsize(t, spec.virtualWidth), ToUsize(t, spec.virtualHeight))
    case (Some(virtualWidth), Some(virtualHeight)) =>
      if spec.lineLength < virtualWidth then Err(ShortLine)
      else (match CheckedMul(spec.lineLength, virtualHeight, t.UsizeMax())
        case None => Err(ByteCountOverflow)
        case Some(virtualBytes) =>
          if virtualBytes > spec.memoryLen then Err(ExceedsMemory)
          else RangeChecks(t, screen, spec, memoryLen))
    case _ => Err(ByteCountOverflow)
  }

  function RangeChecks(t: Target, screen: ScreenLayout, spec: FramebufferSpec, memoryLen: nat): Result<Area, FbError> {
    var region := screen.remoteViewport;
    match (CheckedAdd(spec.xoffset, region.x, t.UsizeMax()), CheckedAdd(spec.yoffset, region.y, t.UsizeMax()))
    case (Some(firstX), Some(firstY)) =>
      if region.width == 0 || region.height == 0 then Err(EmptyViewport)
      else (match CheckedAdd(firstY, region.height - 1, t.UsizeMax())
        case None => Err(ByteCountOverflow)
        case Some(lastRow) =>
          match CheckedMul(lastRow, spec.lineLength, t.UsizeMax())
          case None => Err(ByteCountOverflow)
          case Some(product) =>
            if product + firstX > t.UsizeMax() || product + firstX + region.width > t.UsizeMax() then Err(ByteCountOverflow)
            else if product + firstX + region.width > spec.memoryLen || product + firstX + region.width > memoryLen
            then Err(OutOfMapping)
            else Ok(Area(firstX, firstY, region.width, region.height, spec.lineLength)))
    case _ => Err(ByteCountOverflow)
  }

  /** The same checks as plain statements about unbounded integers. */
  ghost predicate Drawable(f: Frame, screen: ScreenLayout, spec: FramebufferSpec, memoryLen: nat) {
    var region := screen.remoteViewport;
    && spec.FormatSupported()
    && spec.visibleWidth == screen.width && spec.visibleHeight == screen.height
    && f.width == region.width > 0 && f.height == region.height > 0
    && region.y + region.height <= screen.systemUi.y
    && spec.xoffset + spec.visibleWidth <= spec.virtualWidth <= spec.lineLength
    && spec.yoffset + spec.visibleHeight <= spec.virtualHeight
    && RowStart(spec.virtualHeight, spec.lineLength) <= spec.memoryLen
    && RemoteArea(screen, spec).Offset(region.height - 1) + region.width <= Min(spec.memoryLen, memoryLen)
  }

  /** On either target the checked arithmetic accepts exactly the drawable frames. */
  lemma BlitChecksExact(t: Target, f: Frame, screen: ScreenLayout, spec: FramebufferSpec, memoryLen: nat)
    requires spec.memoryLen <= t.UsizeMax() && Real(screen)
    ensures var r := BlitChecks(t, f, screen, spec, memoryLen);
            && (r.Ok? <==> Drawable(f, screen, spec, memoryLen))
            && (r.Ok? ==> r.value == RemoteArea(screen, spec))
  {
    hide VirtualChecks, RangeChecks, RowStart, Area.Offset;
    VirtualChecksExact(t, screen, spec, memoryLen);
    if && spec.visibleWidth == screen.width && spec.visibleHeight == screen.height
       && spec.xoffset + spec.visibleWidth <= spec.virtualWidth
       && spec.yoffset + spec.visibleHeight <= spec.virtualHeight {
      RangeChecksExact(t, screen, spec, memoryLen);
    }
  }

  lemma VirtualChecksExact(t: Target, screen: ScreenLayout, spec: FramebufferSpec, memoryLen: nat)
    requires spec.memoryLen <= t.UsizeMax()
    ensures var r := VirtualChecks(t, screen, spec, memoryLen);
            && (r.Ok? <==>
                  && spec.virtualWidth <= spec.lineLength
                  && RowStart(spec.virtualHeight, spec.lineLength) <= spec.memoryLen
                  && RangeChecks(t, screen, spec, memoryLen).Ok?)
            && (r.Ok? ==> r == RangeChecks(t, screen, spec, memoryLen))
  {
    RowStartIsProduct(spec.virtualHeight, spec.lineLength);
    hide RowStart, RangeChecks;
  }

  lemma RangeChecksExact(t: Target, screen: ScreenLayout, spec: FramebufferSpec, memoryLen: nat)
    requires spec.memoryLen <= t.UsizeMax() && Real(screen)
    requires spec.xoffset + screen.width <= U32_MAX && spec.yoffset + screen.height <= U32_MAX
    ensures var r := RangeChecks(t, screen, spec, memoryLen);
            var region := screen.remoteViewport;
            && (r.Ok? <==>
                  && region.width > 0 && region.height > 0
                  && RemoteArea(screen, spec).Offset(region.height - 1) + region.width
                     <= Min(spec.memoryLen, memoryLen))
            && (r.Ok? ==> r.value == RemoteArea(screen, spec))
  {
    var region := screen.remoteViewport;
    if region.height > 0 {
      RowStartIsProduct(spec.yoffset + region.y + (region.height - 1), spec.lineLength);
      hide RowStart;
    }
  }

  /** A layout as the constructor builds it. */
  ghost predicate Real(screen: ScreenLayout) {
    NewLayout(screen.width, screen.height) == Some(screen)
  }

  lemma DrawableInside(f: Frame, screen: ScreenLayout, spec: FramebufferSpec, memoryLen: nat)
    ensures Drawable(f, screen, spec, memoryLen) && Real(screen) ==> RemoteArea(screen, spec).Inside(memoryLen)
  {
  }

  // ---------- Drawing ----------

  /** One row of the copy loop: a Mono1 expansion or a Gray8 copy of the source row. */
  method DrawRow(f: Frame, row: nat, memory: array<byte>, start: nat)
    requires Valid(f) && row < f.height && start + f.width <= memory.Length
    modifies memory
    ensures forall c: nat :: c < f.width ==> memory[start + c] == Luminance(f, c, row)
    ensures forall i: nat :: i < start || start + f.width <= i < memory.Length ==> memory[i] == old(memory[i])
  {
    hide Bit;
    RowInPayload(f, row);
    var stride := Stride(f.format, f.width);
    var source := f.pixels[RowStart(row, stride)..][..stride];
    for column := 0 to f.width
      invariant forall i: nat :: start <= i < start + column ==> memory[i] == Luminance(f, i - start, row)
      invariant forall i: nat :: i < start || start + f.width <= i < memory.Length ==> memory[i] == old(memory[i])
    {
      match f.format {
        case Mono1 =>
          var black := Bit(source[column / 8], 7 - column % 8);
          memory[start + column] := if black then 0x00 else 0xFF;
        case Gray8 =>
          memory[start + column] := source[column];
      }
    }
    forall c: nat | c < f.width
      ensures memory[start + c] == Luminance(f, c, row)
    {
      var i := start + c;
      assert memory[i] == Luminance(f, i - start, row);
    }
  }

  /** `blit_remote`: succeeds exactly on drawable frames and paints them; a failure changes no byte. */
  method BlitRemote(t: Target, f: Frame, screen: ScreenLayout, spec: FramebufferSpec, memory: array<byte>)
    returns (r: Result<ScreenRect, FbError>)
    requires Valid(f) && spec.memoryLen <= t.UsizeMax()
    requires Real(screen)
    modifies memory
    ensures r.Ok? <==> Drawable(f, screen, spec, memory.Length)
    ensures r.Ok? ==> r.value == screen.remoteViewport && Painted(f, screen, spec, old(memory[..]), memory[..])
    ensures r.Err? ==> memory[..] == old(memory[..])
  {
    hide Luminance, Valid, RowStart, BlitChecks;
    BlitChecksExact(t, f, screen, spec, memory.Length);
    var checked := BlitChecks(t, f, screen, spec, memory.Length);
    if checked.Err? {
      return Err(checked.error);
    }
    var a := checked.value;
    DrawableInside(f, screen, spec, memory.Length);
    ghost var before := memory[..];
    for row := 0 to a.height
      invariant Filled(a, row, Shade(f), before, memory[..])
    {
      ghost var previous := memory[..];
      RowInArea(a, memory.Length, row);
      DrawRow(f, row, memory, a.Offset(row));
      FilledOneMore(a, row, Shade(f), before, previous, memory[..]);
    }
    r := Ok(screen.remoteViewport);
  }

  /** Drawing one further row extends the filled prefix. */
  lemma FilledOneMore(a: Area, row: nat, value: (nat, nat) -> byte, before: seq<byte>, previous: seq<byte>,
                      after: seq<byte>)
    requires a.x + a.width <= a.line && Filled(a, row, value, before, previous) && |previous| == |after|
    requires RowShows(a, row, value, after)
    requires forall i: nat :: i < |after| && !a.RowHolds(row, i) ==> after[i] == previous[i]
    ensures Filled(a, row + 1, value, before, after)
  {
    hide Area.Offset;
    forall r: nat | r < row + 1
      ensures RowShows(a, r, value, after)
    {
      if r < row {
        RowsApart(a, r, row);
        assert RowShows(a, r, value, previous);
      }
    }
    forall i: nat | i < |after| && !a.Covers(row + 1, i)
      ensures after[i] == before[i]
    {
      assert !a.RowHolds(row, i);
      assert !a.Covers(row, i);
    }
  }

  // ---------- Staging ----------

  /** Fully prepared native rows; only the rows of the area are ever exposed. */
  datatype PreparedRemote = PreparedRemote(
    region: ScreenRect, spec: FramebufferSpec, buffer: seq<byte>,
    firstOffset: nat, lineLength: nat, width: nat, height: nat)
  {
    function RowOffset(row: nat): nat {
      firstOffset + RowStart(row, lineLength)
    }

    ghost predicate InRange() {
      forall row: nat :: row < height ==> RowOffset(row) + width <= |buffer|
    }

    /** The iterator `rows`: an offset and the staged bytes at it. */
    function Row(row: nat): (nat, seq<byte>)
      requires row < height && InRange()
    {
      (RowOffset(row), buffer[RowOffset(row)..RowOffset(row) + width])
    }
  }

  /** The staged rows are exactly the frame in the remote area of a mapping of the spec's visible span. */
  ghost predicate Staged(p: PreparedRemote, f: Frame, screen: ScreenLayout, spec: FramebufferSpec) {
    var a := RemoteArea(screen, spec);
    && p.region == screen.remoteViewport && p.spec == spec
    && p.width == a.width && p.height == a.height && p.lineLength == a.line && p.firstOffset == a.Offset(0)
    && a.Inside(|p.buffer|)
    && forall row: nat :: row < a.height ==> RowShows(a, row, Shade(f), p.buffer)
  }

  lemma StagedOffset(a: Area, row: nat)
    ensures a.Offset(row) == a.Offset(0) + RowStart(row, a.line)
  {
    RowStartAdd(a.y, row, a.line);
  }

  lemma StagedInRange(p: PreparedRemote, f: Frame, screen: ScreenLayout, spec: FramebufferSpec)
    requires Staged(p, f, screen, spec)
    ensures p.InRange()
    ensures forall row: nat :: row < p.height ==> p.RowOffset(row) == RemoteArea(screen, spec).Offset(row)
  {
    var a := RemoteArea(screen, spec);
    forall row: nat | row < p.height
      ensures p.RowOffset(row) == a.Offset(row) && p.RowOffset(row) + p.width <= |p.buffer|
    {
      StagedOffset(a, row);
      RowInArea(a, |p.buffer|, row);
    }
  }

  /** `prepare_remote` accepts a frame when the mapping is the visible span and the frame is drawable. */
  ghost predicate Preparable(t: Target, f: Frame, screen: ScreenLayout, spec: FramebufferSpec, mappedLen: nat) {
    && 0 < mappedLen == RowStart(spec.yoffset + spec.visibleHeight, spec.lineLength)
    && spec.yoffset + spec.visibleHeight <= U32_MAX
    && mappedLen <= spec.memoryLen && mappedLen <= t.IsizeMax()
    && Drawable(f, screen, spec, mappedLen)
  }

  /** The visible byte span, as `prepare_remote` computes it. */
  function ExpectedLen(t: Target, spec: FramebufferSpec): Option<nat> {
    match CheckedAdd(spec.yoffset, spec.visibleHeight, U32_MAX)
    case None => None
    case Some(bottom) =>
      match ToUsize(t, bottom)
      case None => None
      case Some(rows) => CheckedMul(rows, spec.lineLength, t.UsizeMax())
  }

  lemma ExpectedLenExact(t: Target, spec: FramebufferSpec, mappedLen: nat)
    requires mappedLen <= t.UsizeMax()
    ensures ExpectedLen(t, spec) == Some(mappedLen) <==>
            spec.yoffset + spec.visibleHeight <= U32_MAX
            && mappedLen == RowStart(spec.yoffset + spec.visibleHeight, spec.lineLength)
  {
    RowStartIsProduct(spec.yoffset + spec.visibleHeight, spec.lineLength);
    hide RowStart;
  }

  /** The offset arithmetic after the staging blit. */
  function StagedOffsets(t: Target, screen: ScreenLayout, spec: FramebufferSpec, mappedLen: nat): Result<nat, FbError>
    requires screen.remoteViewport.height > 0
  {
    var region := screen.remoteViewport;
    match (CheckedAdd(spec.xoffset, region.x, t.UsizeMax()), CheckedAdd(spec.yoffset, region.y, t.UsizeMax()))
    case (Some(firstX), Some(firstY)) =>
      (match (CheckedMul(spec.lineLength, firstY, t.UsizeMax()),
              CheckedMul(spec.lineLength, region.height - 1, t.UsizeMax()))
       case (Some(line), Some(rest)) => StagedRange(t, line, firstX, rest, region.width, mappedLen)
       case _ => Err(ByteCountOverflow))
    case _ => Err(ByteCountOverflow)
  }

  /** Its sums, once the products are there. */
  function StagedRange(t: Target, line: nat, firstX: nat, rest: nat, width: nat, mappedLen: nat): Result<nat, FbError> {
    if line + firstX > t.UsizeMax() || rest + (line + firstX) + width > t.UsizeMax() then Err(ByteCountOverflow)
    else if rest + (line + firstX) + width > mappedLen then Err(OutOfMapping)
    else Ok(line + firstX)
  }

  /** After a successful blit the recomputed offsets never fail. */
  lemma StagedOffsetsSucceed(t: Target, f: Frame, screen: ScreenLayout, spec: FramebufferSpec, mappedLen: nat)
    requires Drawable(f, screen, spec, mappedLen) && spec.memoryLen <= t.UsizeMax() && Real(screen)
    ensures StagedOffsets(t, screen, spec, mappedLen) == Ok(RemoteArea(screen, spec).Offset(0))
  {
    hide RowStart, StagedOffsets, NewLayout;
    StagedWithin(t, screen, spec);
    StagedBytes(f, screen, spec, mappedLen);
    StagedSums(t, screen, spec, mappedLen);
  }

  lemma StagedSums(t: Target, screen: ScreenLayout, spec: FramebufferSpec, mappedLen: nat)
    requires screen.remoteViewport.height > 0
    requires spec.xoffset + screen.remoteViewport.x <= t.UsizeMax()
    requires spec.yoffset + screen.remoteViewport.y <= t.UsizeMax()
    requires RowStart(screen.remoteViewport.height - 1, spec.lineLength) + RemoteArea(screen, spec).Offset(0)
             + screen.remoteViewport.width <= Min(mappedLen, t.UsizeMax())
    ensures StagedOffsets(t, screen, spec, mappedLen) == Ok(RemoteArea(screen, spec).Offset(0))
  {
    hide RowStart, CheckedMul;
    var region := screen.remoteViewport;
    CheckedRows(spec.lineLength, spec.yoffset + region.y, t.UsizeMax());
    CheckedRows(spec.lineLength, region.height - 1, t.UsizeMax());
  }

  /** The last remote row, counted from the first one. */
  lemma StagedBytes(f: Frame, screen: ScreenLayout, spec: FramebufferSpec, mappedLen: nat)
    requires Drawable(f, screen, spec, mappedLen)
    ensures var region := screen.remoteViewport;
            region.height > 0
            && RowStart(region.height - 1, spec.lineLength) + RemoteArea(screen, spec).Offset(0) + region.width
               <= Min(spec.memoryLen, mappedLen)
  {
    StagedOffset(RemoteArea(screen, spec), screen.remoteViewport.height - 1);
    hide RowStart, FramebufferSpec.FormatSupported;
  }

  /** The first remote pixel's coordinates fit the target's words. */
  lemma StagedWithin(t: Target, screen: ScreenLayout, spec: FramebufferSpec)
    requires Real(screen) && spec.visibleWidth == screen.width && spec.visibleHeight == screen.height
    requires spec.xoffset + spec.visibleWidth <= spec.virtualWidth
    requires spec.yoffset + spec.visibleHeight <= spec.virtualHeight
    ensures spec.xoffset + screen.remoteViewport.x <= t.UsizeMax()
    ensures spec.yoffset + screen.remoteViewport.y <= t.UsizeMax()
  {
  }

  /** `prepare_remote`: stages every remote byte or fails before any framebuffer write. The outcome of
      the buffer reservation is arbitrary; nothing else can fail on a preparable frame. */
  method PrepareRemote(t: Target, f: Frame, screen: ScreenLayout, spec: FramebufferSpec, mappedLen: nat, reserves: bool)
    returns (r: Result<PreparedRemote, FbError>)
    requires Valid(f) && spec.memoryLen <= t.UsizeMax() && mappedLen <= t.UsizeMax()
    requires Real(screen)
    ensures r.Ok? <==> reserves && Preparable(t, f, screen, spec, mappedLen)
    ensures r.Ok? ==> Staged(r.value, f, screen, spec) && |r.value.buffer| == mappedLen
  {
    hide Luminance, Valid, RowStart, ExpectedLen, StagedOffsets;
    ExpectedLenExact(t, spec, mappedLen);
    if mappedLen == 0 {
      return Err(EmptyMapping);
    }
    var expected := ExpectedLen(t, spec);
    if expected != Some(mappedLen) {
      return Err(MappingMismatch);
    }
    if mappedLen > spec.memoryLen || mappedLen > t.IsizeMax() {
      return Err(MappingTooLarge);
    }
    if !reserves {
      return Err(AllocationFailed);
    }
    var buffer := new byte[mappedLen](_ => 0);
    var blit := BlitRemote(t, f, screen, spec, buffer);
    if blit.Err? {
      return Err(blit.error);
    }
    StagedOffsetsSucceed(t, f, screen, spec, mappedLen);
    var firstOffset := StagedOffsets(t, screen, spec, mappedLen);
    DrawableInside(f, screen, spec, mappedLen);
    var region := blit.value;
    r := Ok(PreparedRemote(region, spec, buffer[..], firstOffset.value, spec.lineLength, region.width, region.height));
  }
}
