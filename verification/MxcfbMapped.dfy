/** The shared framebuffer mapping as a byte array, and the two writers that own disjoint parts of it
    (src/mxcfb/mapped.rs). */
module MxcfbMapped {
  import opened Machine
  import opened Arithmetic
  import opened Frames
  import opened Screen
  import opened MxcfbLayout
  import opened MxcfbPixels

  datatype SystemUiPixels = SystemUiPixels(region: ScreenRect, stride: nat, bytes: seq<byte>)

  /** `map_visible` before its mmap call: the length to map. */
  function MapVisibleLen(t: Target, g: Geometry): Result<nat, FbError> {
    match VisibleMappingLen(t, g)
    case Err(e) => Err(e)
    case Ok(len) => if len > t.IsizeMax() then Err(MappingTooLarge) else Ok(len)
  }

  /** `check_range` */
  function CheckRange(t: Target, offset: nat, length: nat, mapped: nat): Result<(), FbError> {
    match CheckedAdd(offset, length, t.UsizeMax())
    case None => Err(OutOfMapping)
    case Some(end) => if end <= mapped then Ok(()) else Err(OutOfMapping)
  }

  /** Strip pixels cover exactly the local strip of the spec's screen. */
  ghost predicate StripShaped(p: SystemUiPixels, spec: FramebufferSpec) {
    && spec.visibleWidth <= U16_MAX && spec.visibleHeight <= U16_MAX
    && var screen := NewLayout(spec.visibleWidth, spec.visibleHeight);
       && screen.Some?
       && p.region == screen.value.systemUi && p.region.height == SYSTEM_UI_HEIGHT
       && p.stride == p.region.width && |p.bytes| == RowStart(p.region.height, p.region.width)
  }

  function StripValue(p: SystemUiPixels): (nat, nat) -> byte {
    (x: nat, y: nat) =>
      var i := RowStart(y, p.region.width) + x;
      if i < |p.bytes| then p.bytes[i] else 0
  }

  /** The area a rectangle of a spec's screen occupies. */
  function RectArea(r: ScreenRect, spec: FramebufferSpec): Area {
    Area(spec.xoffset + r.x, spec.yoffset + r.y, r.width, r.height, spec.lineLength)
  }

  class WritableFramebuffer {
    const t: Target
    const geometry: Geometry
    const bytes: array<byte>

    ghost predicate Valid() {
      GoodGeometry(geometry) && bytes.Length == RowStart(geometry.yoffset + geometry.yres, geometry.lineLength)
      && bytes.Length <= t.IsizeMax()
    }

    /** Takes over a live mapping of the visible span. */
    constructor (t: Target, geometry: Geometry, mapped: array<byte>)
      requires MapVisibleLen(t, geometry) == Ok(mapped.Length)
      ensures Valid() && this.t == t && this.geometry == geometry && this.bytes == mapped
    {
      MappingLenExact(t, geometry);
      this.t, this.geometry, this.bytes := t, geometry, mapped;
    }

    /** `write_at`: a bad range changes no byte. */
    method WriteAt(offset: nat, data: seq<byte>) returns (r: Result<(), FbError>)
      requires Valid()
      modifies bytes
      ensures r.Ok? <==> offset + |data| <= bytes.Length
      ensures forall i: nat :: i < bytes.Length ==>
        bytes[i] == if r.Ok? && offset <= i < offset + |data| then data[i - offset] else old(bytes[i])
      ensures r.Ok? ==> bytes[offset..offset + |data|] == data
    {
      r := CheckRange(t, offset, |data|, bytes.Length);
      if r.Err? {
        return;
      }
      for index := 0 to |data|
        invariant forall i: nat :: i < bytes.Length ==>
          bytes[i] == if offset <= i < offset + index then data[i - offset] else old(bytes[i])
      {
        bytes[offset + index] := data[index];
      }
    }

    /** `write_prepared`: copying the staged rows has the effect of drawing the staged frame directly. */
    method WritePrepared(p: PreparedRemote, ghost f: Frame,
                         ghost screen: ScreenLayout) returns (r: Result<ScreenRect, FbError>)
      requires Valid() && Staged(p, f, screen, p.spec)
      modifies bytes
      ensures r.Ok? <==> MatchesSpec(t, geometry, p.spec) && |p.buffer| == bytes.Length
      ensures r.Ok? ==> r.value == p.region && Painted(f, screen, p.spec, old(bytes[..]), bytes[..])
      ensures r.Err? ==> bytes[..] == old(bytes[..])
    {
      hide Luminance, RowStart, Area.Offset, GoodGeometry;
      if !MatchesSpec(t, geometry, p.spec) {
        return Err(GeometryMismatch);
      }
      if |p.buffer| != bytes.Length {
        return Err(LengthMismatch);
      }
      StagedInRange(p, f, screen, p.spec);
      for row := 0 to p.height {
        var checked := CheckRange(t, p.Row(row).0, |p.Row(row).1|, bytes.Length);
        if checked.Err? {
          return Err(OutOfMapping);
        }
      }
      ghost var a := RemoteArea(screen, p.spec);
      ghost var before := bytes[..];
      for row := 0 to p.height
        invariant Filled(a, row, Shade(f), before, bytes[..])
      {
        ghost var previous := bytes[..];
        assert RowShows(a, row, Shade(f), p.buffer);
        var (offset, staged) := p.Row(row);
        assert offset == a.Offset(row) && |staged| == a.width;
        var written := WriteAt(offset, staged);
        assert written.Ok?;
        CopiedRowShows(a, row, Shade(f), p.buffer, bytes[..], staged);
        FilledOneMore(a, row, Shade(f), before, previous, bytes[..]);
      }
      r := Ok(p.region);
    }

    /** `write_system_ui`: succeeds exactly when the pixels are shaped for the spec's strip, and then
        draws them there; a failure changes no byte. The reservation of the offset list is arbitrary. */
    method WriteSystemUi(p: SystemUiPixels, spec: FramebufferSpec, reserves: bool)
      returns (r: Result<ScreenRect, FbError>)
      requires Valid()
      modifies bytes
      ensures r.Ok? <==> spec.FormatSupported() && MatchesSpec(t, geometry, spec) && StripShaped(p, spec) && reserves
      ensures r.Ok? ==>
        && r.value == p.region
        && Filled(RectArea(p.region, spec), p.region.height, StripValue(p), old(bytes[..]), bytes[..])
      ensures r.Err? ==> bytes[..] == old(bytes[..])
    {
      hide Area.Offset, RowStart, StripValue;
      if !spec.FormatSupported() {
        return Err(UnsupportedFormat);
      }
      if !MatchesSpec(t, geometry, spec) {
        return Err(GeometryMismatch);
      }
      if spec.visibleWidth > U16_MAX || spec.visibleHeight > U16_MAX {
        return Err(CoordinatesTooLarge);
      }
      var screen := NewLayout(spec.visibleWidth, spec.visibleHeight);
      if screen.None? {
        return Err(EmptyScreen);
      }
      if p.region != screen.value.systemUi || p.region.height != SYSTEM_UI_HEIGHT {
        return Err(StripMismatch);
      }
      var width, height := p.region.width, p.region.height;
      var expected := CheckedMul(width, height, t.UsizeMax());
      StripLength(t, p.region);
      if p.stride != width || expected.None? || |p.bytes| != expected.value {
        return Err(LengthMismatch);
      }
      if !reserves {
        return Err(AllocationFailed);
      }
      StripInside(t, geometry, p.region, spec, bytes.Length);
      var offsets := StripOffsets(RectArea(p.region, spec));
      DrawStrip(RectArea(p.region, spec), p, offsets);
      r := Ok(p.region);
    }

    /** The checking pass of `write_system_ui`: every row's offset, all of them before the first store. */
    method StripOffsets(a: Area) returns (offsets: seq<nat>)
      requires Valid() && a.Inside(bytes.Length) && a.line > 0
      ensures |offsets| == a.height && forall k: nat :: k < a.height ==> offsets[k] == a.Offset(k)
    {
      hide Area.Offset, RowStart, GoodGeometry;
      offsets := [];
      for row := 0 to a.height
        invariant |offsets| == row
        invariant forall k: nat :: k < row ==> offsets[k] == a.Offset(k)
      {
        RowInArea(a, bytes.Length, row);
        StripOffsetExact(t, a, row, bytes.Length);
        var offset := StripOffset(t, a.x, a.y, row, a.line);
        var checked := CheckRange(t, offset.value, a.width, bytes.Length);
        assert checked.Ok?;
        offsets := offsets + [offset.value];
      }
    }

    /** The storing pass of `write_system_ui`. */
    method DrawStrip(a: Area, p: SystemUiPixels, offsets: seq<nat>)
      requires Valid() && a.Inside(bytes.Length)
      requires a.width == p.region.width && a.height == p.region.height
      requires |p.bytes| == RowStart(p.region.height, p.region.width)
      requires |offsets| == a.height && forall k: nat :: k < a.height ==> offsets[k] == a.Offset(k)
      modifies bytes
      ensures Filled(a, a.height, StripValue(p), old(bytes[..]), bytes[..])
    {
      hide Area.Offset, RowStart, GoodGeometry, StripValue;
      ghost var before := bytes[..];
      for row := 0 to a.height
        invariant Filled(a, row, StripValue(p), before, bytes[..])
      {
        ghost var previous := bytes[..];
        StripRow(p, row);
        RowInArea(a, bytes.Length, row);
        var source := p.bytes[RowStart(row, a.width)..RowStart(row, a.width) + a.width];
        var written := WriteAt(offsets[row], source);
        StripRowShows(a, p, row, source, bytes[..]);
        FilledOneMore(a, row, StripValue(p), before, previous, bytes[..]);
      }
    }
  }

  /** On a mapping of the spec's own geometry staging refuses exactly what drawing directly refuses. */
  lemma PreparableIsDrawable(t: Target, g: Geometry, f: Frame, screen: ScreenLayout, spec: FramebufferSpec, mapped: nat)
    requires GoodGeometry(g) && MatchesSpec(t, g, spec)
    requires mapped == RowStart(g.yoffset + g.yres, g.lineLength) && mapped <= t.IsizeMax()
    ensures Preparable(t, f, screen, spec, mapped) <==> Drawable(f, screen, spec, mapped)
  {
    MappingLenExact(t, g);
    hide RowStart, Drawable, VisibleMappingLen;
  }

  /** Staging a frame and copying its rows refines drawing it directly: on two copies of one mapping, with memory
      to stage in, both succeed or neither does, and they end in the same bytes. Without the memory, nothing is
      written; and for a mapping of another geometry either the staging or the copying is refused. */
  method StageOrDraw(fb: WritableFramebuffer, f: Frame, screen: ScreenLayout, spec: FramebufferSpec,
                     copy: array<byte>, reserves: bool)
    returns (staged: Result<ScreenRect, FbError>, drawn: Result<ScreenRect, FbError>)
    requires fb.Valid() && Frames.Valid(f) && spec.memoryLen <= fb.t.UsizeMax() && Real(screen)
    requires copy != fb.bytes && copy[..] == fb.bytes[..]
    modifies fb.bytes, copy
    ensures staged.Ok? <==> reserves && MatchesSpec(fb.t, fb.geometry, spec) && drawn.Ok?
    ensures staged.Ok? ==> staged == drawn && fb.bytes[..] == copy[..]
    ensures staged.Err? ==> fb.bytes[..] == old(fb.bytes[..])
  {
    hide Luminance, RowStart, GoodGeometry, Frames.Valid, Drawable, MatchesSpec, Painted, Preparable;
    ghost var before := fb.bytes[..];
    var prepared := PrepareRemote(fb.t, f, screen, spec, fb.bytes.Length, reserves);
    if prepared.Ok? {
      staged := fb.WritePrepared(prepared.value, f, screen);
    } else {
      staged := Err(prepared.error);
    }
    assert copy[..] == before;
    drawn := BlitRemote(fb.t, f, screen, spec, copy);
    if MatchesSpec(fb.t, fb.geometry, spec) {
      PreparableIsDrawable(fb.t, fb.geometry, f, screen, spec, copy.Length);
    }
    if staged.Ok? {
      PaintedUnique(f, screen, spec, before, fb.bytes[..], copy[..]);
    }
  }

  /** One row offset of the strip in checked pointer-sized arithmetic. */
  function StripOffset(t: Target, firstX: nat, firstY: nat, row: nat, line: nat): Option<nat> {
    match CheckedAdd(firstY, row, t.UsizeMax())
    case None => None
    case Some(y) =>
      match CheckedMul(y, line, t.UsizeMax())
      case None => None
      case Some(start) => CheckedAdd(start, firstX, t.UsizeMax())
  }

  lemma StripOffsetExact(t: Target, a: Area, row: nat, mapped: nat)
    requires a.Offset(row) + a.width <= mapped <= t.UsizeMax() && a.line > 0
    ensures StripOffset(t, a.x, a.y, row, a.line) == Some(a.Offset(row))
  {
    RowStartIsProduct(a.y + row, a.line);
    ProductMonotone(a.y + row, a.y + row, 1, a.line);
    hide RowStart;
  }

  lemma StripLength(t: Target, r: ScreenRect)
    ensures CheckedMul(r.width, r.height, t.UsizeMax()) == Some(RowStart(r.height, r.width))
  {
    RowStartIsProduct(r.height, r.width);
    ProductMonotone(r.width, U16_MAX, r.height, U16_MAX);
  }

  /** The strip of a matching spec lies inside the mapping. */
  lemma StripInside(t: Target, g: Geometry, region: ScreenRect, spec: FramebufferSpec, mapped: nat)
    requires GoodGeometry(g) && MatchesSpec(t, g, spec) && spec.bitsPerPixel == 8
    requires mapped == RowStart(g.yoffset + g.yres, g.lineLength)
    requires region.x + region.width <= spec.visibleWidth && 0 < region.height
    requires region.y + region.height <= spec.visibleHeight
    ensures RectArea(region, spec).Inside(mapped) && spec.lineLength > 0
  {
    var lastRow := spec.yoffset + region.y + (region.height - 1);
    RowsOrdered(lastRow, g.yoffset + g.yres, g.lineLength);
    hide RowStart;
  }

  lemma StripRow(p: SystemUiPixels, row: nat)
    requires |p.bytes| == RowStart(p.region.height, p.region.width) && row < p.region.height
    ensures RowStart(row, p.region.width) + p.region.width <= |p.bytes|
  {
    RowsOrdered(row, p.region.height, p.region.width);
  }

  lemma StripRowShows(a: Area, p: SystemUiPixels, row: nat, source: seq<byte>, memory: seq<byte>)
    requires a.width == p.region.width && RowStart(row, a.width) + a.width <= |p.bytes|
    requires source == p.bytes[RowStart(row, a.width)..RowStart(row, a.width) + a.width]
    requires a.Offset(row) + a.width <= |memory| && memory[a.Offset(row)..a.Offset(row) + a.width] == source
    ensures RowShows(a, row, StripValue(p), memory)
  {
    forall column: nat | column < a.width
      ensures memory[a.Offset(row) + column] == StripValue(p)(column, row)
    {
      assert memory[a.Offset(row)..a.Offset(row) + a.width][column] == source[column];
    }
  }

  lemma CopiedRowShows(a: Area, row: nat, value: (nat, nat) -> byte, staged: seq<byte>, memory: seq<byte>,
                       copied: seq<byte>)
    requires RowShows(a, row, value, staged) && |staged| == |memory|
    requires copied == staged[a.Offset(row)..a.Offset(row) + a.width]
    requires memory[a.Offset(row)..a.Offset(row) + a.width] == copied
    ensures RowShows(a, row, value, memory)
  {
    forall column: nat | column < a.width
      ensures memory[a.Offset(row) + column] == value(column, row)
    {
      assert memory[a.Offset(row)..a.Offset(row) + a.width][column] == staged[a.Offset(row) + column];
    }
  }
}
