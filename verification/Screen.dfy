/** Ownership of the screen: the remote viewport above, PaperPad's own strip below
    (src/ui/screen.rs and the geometry of src/ui/system.rs). */
module Screen {
  import opened Machine

  /** Height reserved for the device-owned strip. */
  const SYSTEM_UI_HEIGHT: u16 := 72
  const CELL_MARGIN: u16 := 20
  const CONNECTION_INDICATOR_DIAMETER: u16 := 24

  datatype PhysicalPoint = PhysicalPoint(x: i16, y: i16)

  datatype RemotePoint = RemotePoint(x: u16, y: u16)

  datatype ScreenRect = ScreenRect(x: u16, y: u16, width: u16, height: u16)
  {
    /** Half-open containment, computed in a wider signed type. */
    predicate Contains(p: PhysicalPoint) {
      x <= p.x < x + width && y <= p.y < y + height
    }

    /** `to_relative_point`; the casts to u16 cannot truncate inside the rectangle. */
    function ToRelative(p: PhysicalPoint): (r: Option<RemotePoint>)
      ensures r.Some? <==> Contains(p)
      ensures r.Some? ==> r.value.x == p.x - x && r.value.y == p.y - y && r.value.x < width && r.value.y < height
    {
      if p.x < x || p.y < y || p.x >= x + width || p.y >= y + height then None
      else Some(RemotePoint(p.x - x, p.y - y))
    }
  }

  datatype ScreenLayout = ScreenLayout(width: u16, height: u16, remoteViewport: ScreenRect, systemUi: ScreenRect)

  /** Sides are capped at the signed coordinate limit; a short window leaves an empty viewport. */
  function NewLayout(width: u16, height: u16): (r: Option<ScreenLayout>)
    ensures r.Some? <==> width > 0 && height > 0
    ensures r.Some? ==>
      var s := r.value;
      && s.width == Min(width, I16_MAX) && s.height == Min(height, I16_MAX)
      && s.remoteViewport.x == s.remoteViewport.y == s.systemUi.x == 0
      && s.remoteViewport.width == s.systemUi.width == s.width
      && s.systemUi.y == s.remoteViewport.height
      && s.remoteViewport.height + s.systemUi.height == s.height
      && s.systemUi.height == Min(s.height, SYSTEM_UI_HEIGHT)
  {
    if width == 0 || height == 0 then None
    else
      var w, h := Min(width, I16_MAX), Min(height, I16_MAX);
      var strip := Min(h, SYSTEM_UI_HEIGHT);
      Some(ScreenLayout(w, h, ScreenRect(0, 0, w, h - strip), ScreenRect(0, h - strip, w, strip)))
  }

  function RemoteViewportSize(size: (u16, u16)): (u16, u16) {
    match NewLayout(size.0, size.1)
    case None => (0, 0)
    case Some(s) => (s.remoteViewport.width, s.remoteViewport.height)
  }

  function ConnectionIndicatorBounds(width: u16, height: u16): Option<ScreenRect> {
    match NewLayout(width, height)
    case None => None
    case Some(s) =>
      var region := s.systemUi;
      var required := 3 * CELL_MARGIN + CONNECTION_INDICATOR_DIAMETER + 1;
      if region.height < SYSTEM_UI_HEIGHT || region.width < required || region.height < CONNECTION_INDICATOR_DIAMETER
      then None
      else Some(ScreenRect(CELL_MARGIN, region.y + (region.height - CONNECTION_INDICATOR_DIAMETER) / 2,
                           CONNECTION_INDICATOR_DIAMETER, CONNECTION_INDICATOR_DIAMETER))
  }

  function ExitBounds(width: u16, height: u16): Option<ScreenRect> {
    match NewLayout(width, height)
    case None => None
    case Some(s) =>
      var region := s.systemUi;
      if region.height < SYSTEM_UI_HEIGHT || region.width <= CELL_MARGIN * 2 then None
      else
        var left := match ConnectionIndicatorBounds(width, height)
          case Some(indicator) => indicator.x + indicator.width + CELL_MARGIN
          case None => CELL_MARGIN;
        if s.width <= left + CELL_MARGIN then None
        else Some(ScreenRect(left, region.y, s.width - left - CELL_MARGIN, region.height))
  }

  /** Exit exists exactly when the full strip fits and the screen is wider than two margins; it lies in
      the strip, inside the screen, clear of the indicator, and no point of it is remote. */
  lemma ExitBoundsOwnership(width: u16, height: u16, p: PhysicalPoint)
    ensures ExitBounds(width, height).Some? <==> height >= SYSTEM_UI_HEIGHT && width > 2 * CELL_MARGIN
    ensures ExitBounds(width, height).Some? ==>
      var s, e := NewLayout(width, height).value, ExitBounds(width, height).value;
      && e.width > 0 && e.y == s.systemUi.y && e.height == SYSTEM_UI_HEIGHT
      && e.x + e.width + CELL_MARGIN == s.width
      && e.x == (if s.width > 3 * CELL_MARGIN + CONNECTION_INDICATOR_DIAMETER
                 then 2 * CELL_MARGIN + CONNECTION_INDICATOR_DIAMETER else CELL_MARGIN)
      && (e.Contains(p) ==> s.systemUi.Contains(p) && !s.remoteViewport.Contains(p))
      && (var i := ConnectionIndicatorBounds(width, height);
          && (i.Some? <==> s.width > 3 * CELL_MARGIN + CONNECTION_INDICATOR_DIAMETER)
          && (i.Some? ==> i.value.x == CELL_MARGIN && i.value.width == i.value.height == CONNECTION_INDICATOR_DIAMETER
                          && i.value.y - e.y == (e.height - i.value.height) / 2)
          && (i.Some? ==>
                && s.systemUi.x <= i.value.x && i.value.x + i.value.width <= e.x
                && s.systemUi.y <= i.value.y && i.value.y + i.value.height <= s.height))
  {
  }
}
