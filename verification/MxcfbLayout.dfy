/** Kernel framebuffer metadata, its checked layout arithmetic and the update regions
    (src/mxcfb/metadata.rs, layout.rs and region.rs). */
module MxcfbLayout {
  import opened Machine
  import opened Arithmetic
  import opened Screen

  datatype FbError =
    | UnsupportedDriver | Rotated | CoordinatesTooLarge | EmptyScreen | TooShort
    | EmptyResolution | BoundsOverflow | OutsideVirtual | ShortLine | ByteCountOverflow | ExceedsMemory | EmptyMapping
    | UnsupportedFormat | ScreenMismatch | FrameMismatch | OverlapsSystemUi | EmptyViewport
    | MappingMismatch | MappingTooLarge | AllocationFailed | OutOfMapping
    | GeometryMismatch | LengthMismatch | StripMismatch | NoExitControl
    | EmptyRegion | OutsideVisible | RegionMismatch | SubmitFailed

  const FB_TYPE_PACKED_PIXELS: u32 := 0
  const FB_VISUAL_MONO10: u32 := 1
  const DRIVER_ID: seq<byte> := [104, 119, 116, 99, 111, 110, 95, 118, 50] // "hwtcon_v2"

  datatype FixedInfo = FixedInfo(id: seq<byte>, memLen: u32, kind: u32, visual: u32, lineLength: u32)

  datatype VariableInfo = VariableInfo(
    xres: u32, yres: u32, xresVirtual: u32, yresVirtual: u32, xoffset: u32, yoffset: u32,
    bitsPerPixel: u32, grayscale: u32, nonstd: u32, rotate: u32)

  datatype Geometry = Geometry(
    xres: u32, yres: u32, xresVirtual: u32, yresVirtual: u32, xoffset: u32, yoffset: u32,
    bitsPerPixel: u32, lineLength: u32, memLen: u32)

  datatype FramebufferSpec = FramebufferSpec(
    visibleWidth: u32, visibleHeight: u32, virtualWidth: u32, virtualHeight: u32, xoffset: u32, yoffset: u32,
    lineLength: nat, memoryLen: nat, kind: u32, visual: u32, bitsPerPixel: u32, grayscale: u32, nonstd: u32)
  {
    predicate FormatSupported() {
      && kind == FB_TYPE_PACKED_PIXELS && visual == FB_VISUAL_MONO10
      && bitsPerPixel == 8 && grayscale == 1 && nonstd == 0
    }
  }

  datatype FramebufferInfo = FramebufferInfo(geometry: Geometry, spec: FramebufferSpec, screen: ScreenLayout,
                                             mappingLen: nat)

  /** `usize::try_from(u32)` */
  function ToUsize(t: Target, v: u32): Option<nat> {
    if v <= t.UsizeMax() then Some(v) else None
  }

  /** `visible_mapping_len` */
  function VisibleMappingLen(t: Target, g: Geometry): Result<nat, FbError> {
    if g.xres == 0 || g.yres == 0 || g.bitsPerPixel == 0 then Err(EmptyResolution)
    else match (CheckedAdd(g.xoffset, g.xres, U32_MAX), CheckedAdd(g.yoffset, g.yres, U32_MAX))
      case (None, _) => Err(BoundsOverflow)
      case (_, None) => Err(BoundsOverflow)
      case (Some(right), Some(bottom)) =>
        if right > g.xresVirtual || bottom > g.yresVirtual then Err(OutsideVirtual)
        else match CheckedMul(g.xresVirtual, g.bitsPerPixel, U64_MAX)
          case None => Err(ByteCountOverflow)
          case Some(rowBits) =>
            match CheckedAdd(rowBits, 7, U64_MAX)
            case None => Err(ByteCountOverflow)
            case Some(rounded) =>
              if g.lineLength < rounded / 8 then Err(ShortLine)
              else MappedBytes(t, g, bottom)
  }

  /** The last third of `visible_mapping_len`, in pointer-sized arithmetic. */
  function MappedBytes(t: Target, g: Geometry, bottom: u32): Result<nat, FbError> {
    match (ToUsize(t, g.lineLength), ToUsize(t, g.yresVirtual), ToUsize(t, bottom), ToUsize(t, g.memLen))
    case (Some(line), Some(virtualHeight), Some(visibleBottom), Some(memLen)) =>
      (match CheckedMul(line, virtualHeight, t.UsizeMax())
       case None => Err(ByteCountOverflow)
       case Some(virtualBytes) =>
         if virtualBytes > memLen then Err(ExceedsMemory)
         else match CheckedMul(line, visibleBottom, t.UsizeMax())
           case None => Err(ByteCountOverflow)
           case Some(visibleBytes) => if visibleBytes == 0 then Err(EmptyMapping) else Ok(visibleBytes))
    case _ => Err(ByteCountOverflow)
  }

  /** The geometry as plain statements about unbounded integers. */
  ghost predicate GoodGeometry(g: Geometry) {
    && g.xres > 0 && g.yres > 0 && g.bitsPerPixel > 0
    && g.xoffset + g.xres <= g.xresVirtual
    && g.yoffset + g.yres <= g.yresVirtual
    && (g.xresVirtual * g.bitsPerPixel + 7) / 8 <= g.lineLength
    && RowStart(g.yresVirtual, g.lineLength) <= g.memLen
  }

  lemma MappedBytesExact(t: Target, g: Geometry, bottom: u32)
    requires 0 < bottom <= g.yresVirtual && g.lineLength > 0
    ensures MappedBytes(t, g, bottom).Ok? <==> RowStart(g.yresVirtual, g.lineLength) <= g.memLen
    ensures MappedBytes(t, g, bottom).Ok? ==>
      var len := MappedBytes(t, g, bottom).value;
      len == RowStart(bottom, g.lineLength) && 0 < len <= g.memLen
  {
    CheckedRows(g.lineLength, g.yresVirtual, t.UsizeMax());
    CheckedRows(g.lineLength, bottom, t.UsizeMax());
    RowStartGrows(bottom, g.yresVirtual, g.lineLength);
    RowsOrdered(0, bottom, g.lineLength);
    hide RowStart, CheckedMul;
    assert RowStart(0, g.lineLength) >= 0;
  }

  /** The checked product of a line and a number of rows is where the row after them starts. */
  lemma CheckedRows(line: nat, rows: nat, max: nat)
    ensures CheckedMul(line, rows, max) == if RowStart(rows, line) <= max then Some(RowStart(rows, line)) else None
  {
    RowStartIsProduct(rows, line);
    hide RowStart;
  }

  /** On either target the checked computation accepts exactly the good geometries: no rejection is an
      artefact of integer width, and the accepted length is the visible rows' byte count. */
  lemma MappingLenExact(t: Target, g: Geometry)
    ensures VisibleMappingLen(t, g).Ok? <==> GoodGeometry(g)
    ensures GoodGeometry(g) ==>
      var len := VisibleMappingLen(t, g).value;
      len == RowStart(g.yoffset + g.yres, g.lineLength) && 0 < len <= g.memLen
  {
    hide RowStart, MappedBytes;
    ProductMonotone(g.xresVirtual, U32_MAX, g.bitsPerPixel, U32_MAX);
    if && g.xres > 0 && g.yres > 0 && g.bitsPerPixel > 0
       && g.xoffset + g.xres <= g.xresVirtual && g.yoffset + g.yres <= g.yresVirtual {
      PositiveProduct(g.xresVirtual, g.bitsPerPixel);
      if g.lineLength > 0 {
        MappedBytesExact(t, g, g.yoffset + g.yres);
      }
    }
  }

  lemma PositiveProduct(a: nat, b: nat)
    requires a > 0 && b > 0
    ensures a * b > 0
  {
  }

  /** The driver name up to its first zero byte. */
  function DriverName(id: seq<byte>): seq<byte> {
    if id == [] || id[0] == 0 then [] else [id[0]] + DriverName(id[1..])
  }

  /** `FramebufferInfo::from_kernel` */
  function FromKernel(t: Target, fixed: FixedInfo, variable: VariableInfo): Result<FramebufferInfo, FbError> {
    if DriverName(fixed.id) != DRIVER_ID then Err(UnsupportedDriver)
    else if variable.rotate != 0 then Err(Rotated)
    else if variable.xres > I16_MAX || variable.yres > I16_MAX then Err(CoordinatesTooLarge)
    else match NewLayout(variable.xres, variable.yres)
      case None => Err(EmptyScreen)
      case Some(screen) =>
        if screen.systemUi.height != SYSTEM_UI_HEIGHT || screen.remoteViewport.height == 0 then Err(TooShort)
        else
          var geometry := Geometry(variable.xres, variable.yres, variable.xresVirtual, variable.yresVirtual,
                                   variable.xoffset, variable.yoffset, variable.bitsPerPixel,
                                   fixed.lineLength, fixed.memLen);
          match VisibleMappingLen(t, geometry)
          case Err(e) => Err(e)
          case Ok(mappingLen) =>
            match (ToUsize(t, fixed.lineLength), ToUsize(t, fixed.memLen))
            case (Some(line), Some(memLen)) =>
              var spec := FramebufferSpec(variable.xres, variable.yres, variable.xresVirtual, variable.yresVirtual,
                                          variable.xoffset, variable.yoffset, line, memLen, fixed.kind, fixed.visual,
                                          variable.bitsPerPixel, variable.grayscale, variable.nonstd);
              if !spec.FormatSupported() then Err(UnsupportedFormat)
              else Ok(FramebufferInfo(geometry, spec, screen, mappingLen))
            case _ => Err(ByteCountOverflow)
  }

  /** What every later stage relies on. */
  ghost predicate Consistent(t: Target, info: FramebufferInfo) {
    var s, g := info.spec, info.geometry;
    && s.FormatSupported()
    && NewLayout(info.screen.width, info.screen.height) == Some(info.screen)
    && s.visibleWidth == info.screen.width && s.visibleHeight == info.screen.height
    && info.screen.systemUi.height == SYSTEM_UI_HEIGHT && info.screen.remoteViewport.height > 0
    && s.xoffset + s.visibleWidth <= s.virtualWidth
    && s.yoffset + s.visibleHeight <= s.virtualHeight
    && s.virtualWidth <= s.lineLength
    && RowStart(s.virtualHeight, s.lineLength) <= s.memoryLen <= U32_MAX
    && info.mappingLen == RowStart(s.yoffset + s.visibleHeight, s.lineLength)
    && 0 < info.mappingLen <= s.memoryLen
    && MatchesSpec(t, g, s)
  }

  /** `matches_spec` */
  predicate MatchesSpec(t: Target, g: Geometry, s: FramebufferSpec) {
    && s.visibleWidth == g.xres && s.visibleHeight == g.yres
    && s.virtualWidth == g.xresVirtual && s.virtualHeight == g.yresVirtual
    && s.xoffset == g.xoffset && s.yoffset == g.yoffset
    && s.bitsPerPixel == g.bitsPerPixel
    && ToUsize(t, g.lineLength) == Some(s.lineLength)
    && ToUsize(t, g.memLen) == Some(s.memoryLen)
  }

  /** Accepted metadata is consistent on both targets. */
  lemma AcceptedIsConsistent(t: Target, fixed: FixedInfo, variable: VariableInfo)
    ensures var r := FromKernel(t, fixed, variable); r.Ok? ==> Consistent(t, r.value)
  {
    var r := FromKernel(t, fixed, variable);
    if r.Ok? {
      hide RowStart, VisibleMappingLen, DriverName;
      MappingLenExact(t, r.value.geometry);
    }
  }

  /** The driver's name is at the front, and ends there. */
  predicate NamesDriver(id: seq<byte>) {
    DRIVER_ID <= id && (|id| == |DRIVER_ID| || id[|DRIVER_ID|] == 0)
  }

  lemma {:induction false} NameIsPrefix(id: seq<byte>, name: seq<byte>)
    requires forall i :: 0 <= i < |name| ==> name[i] != 0
    ensures DriverName(id) == name <==> name <= id && (|id| == |name| || id[|name|] == 0)
  {
    if id != [] && id[0] != 0 && name != [] {
      NameIsPrefix(id[1..], name[1..]);
      if name[0] == id[0] {
        assert name == [name[0]] + name[1..] && id == [id[0]] + id[1..];
        assert name <= id <==> name[1..] <= id[1..];
      }
    }
  }

  /** Kernel metadata is accepted exactly when it names the driver, is not rotated, is no larger than the signed
      coordinates and tall enough for the strip and a row above it, has a good geometry and the one supported
      format; and then every field is the kernel's own. */
  lemma AcceptedExactly(t: Target, fixed: FixedInfo, v: VariableInfo)
    ensures var g := Geometry(v.xres, v.yres, v.xresVirtual, v.yresVirtual, v.xoffset, v.yoffset, v.bitsPerPixel,
                              fixed.lineLength, fixed.memLen);
            var r := FromKernel(t, fixed, v);
            && (r.Ok? <==>
                  && NamesDriver(fixed.id) && v.rotate == 0
                  && 0 < v.xres <= I16_MAX && SYSTEM_UI_HEIGHT < v.yres <= I16_MAX
                  && GoodGeometry(g)
                  && fixed.kind == FB_TYPE_PACKED_PIXELS && fixed.visual == FB_VISUAL_MONO10
                  && v.bitsPerPixel == 8 && v.grayscale == 1 && v.nonstd == 0)
            && (r.Ok? ==>
                  && r.value.geometry == g
                  && r.value.spec == FramebufferSpec(v.xres, v.yres, v.xresVirtual, v.yresVirtual, v.xoffset, v.yoffset,
                                                     fixed.lineLength, fixed.memLen, fixed.kind, fixed.visual,
                                                     v.bitsPerPixel, v.grayscale, v.nonstd)
                  && (r.value.screen.width, r.value.screen.height) == (v.xres, v.yres))
  {
    NameIsPrefix(fixed.id, DRIVER_ID);
    MappingLenExact(t, Geometry(v.xres, v.yres, v.xresVirtual, v.yresVirtual, v.xoffset, v.yoffset, v.bitsPerPixel,
                                fixed.lineLength, fixed.memLen));
    hide GoodGeometry, VisibleMappingLen, DriverName;
  }

  // ---------- Update regions ----------

  datatype UpdateRegion = UpdateRegion(top: u32, left: u32, width: u32, height: u32)

  function CheckedVisibleRegion(left: u32, top: u32, width: u32, height: u32, visibleWidth: u32, visibleHeight: u32)
    : Result<UpdateRegion, FbError>
  {
    if visibleWidth == 0 || visibleHeight == 0 then Err(EmptyScreen)
    else if width == 0 || height == 0 then Err(EmptyRegion)
    else match (CheckedAdd(left, width, U32_MAX), CheckedAdd(top, height, U32_MAX))
      case (Some(right), Some(bottom)) =>
        if right > visibleWidth || bottom > visibleHeight then Err(OutsideVisible)
        else Ok(UpdateRegion(top, left, width, height))
      case _ => Err(BoundsOverflow)
  }

  function RemoteUpdateRegion(screen: ScreenLayout, visibleWidth: u32, visibleHeight: u32): Result<UpdateRegion, FbError> {
    if screen.width != visibleWidth || screen.height != visibleHeight then Err(ScreenMismatch)
    else
      var remote := screen.remoteViewport;
      if remote.y + remote.height > screen.systemUi.y then Err(OverlapsSystemUi)
      else CheckedVisibleRegion(remote.x, remote.y, remote.width, remote.height, visibleWidth, visibleHeight)
  }

  function SystemUiUpdateRegion(screen: ScreenLayout, visibleWidth: u32, visibleHeight: u32)
    : Result<UpdateRegion, FbError>
  {
    if screen.width != visibleWidth || screen.height != visibleHeight then Err(ScreenMismatch)
    else if screen.systemUi.height != SYSTEM_UI_HEIGHT then Err(StripMismatch)
    else if screen.remoteViewport.y + screen.remoteViewport.height > screen.systemUi.y then Err(OverlapsSystemUi)
    else
      var local := screen.systemUi;
      CheckedVisibleRegion(local.x, local.y, local.width, local.height, visibleWidth, visibleHeight)
  }

  /** `ensure_matching_update_region` */
  predicate RegionMatches(rect: ScreenRect, region: UpdateRegion) {
    region.left == rect.x && region.top == rect.y && region.width == rect.width && region.height == rect.height
  }

  /** Both regions exist for consistent metadata, match the pixels' rectangle, pass the pre-ioctl check
      again, do not overlap, and together cover the whole visible screen. */
  lemma RegionsReady(t: Target, info: FramebufferInfo)
    requires Consistent(t, info)
    ensures var remote := RemoteUpdateRegion(info.screen, info.spec.visibleWidth, info.spec.visibleHeight);
            var local := SystemUiUpdateRegion(info.screen, info.spec.visibleWidth, info.spec.visibleHeight);
            && remote.Ok? && local.Ok?
            && RegionMatches(info.screen.remoteViewport, remote.value)
            && RegionMatches(info.screen.systemUi, local.value)
            && Submittable(remote.value, info.spec) && Submittable(local.value, info.spec)
            && remote.value.top + remote.value.height == local.value.top
            && remote.value.top == remote.value.left == local.value.left == 0
            && local.value.top + local.value.height == info.spec.visibleHeight
            && remote.value.width == local.value.width == info.spec.visibleWidth
  {
  }

  /** The region check `submit_update` repeats before its ioctl. */
  predicate Submittable(r: UpdateRegion, s: FramebufferSpec) {
    CheckedVisibleRegion(r.left, r.top, r.width, r.height, s.visibleWidth, s.visibleHeight).Ok?
  }
}
