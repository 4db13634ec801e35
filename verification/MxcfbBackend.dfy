/** The MXCFB display backend over arbitrary kernel outcomes (src/mxcfb/backend.rs, present.rs,
    update_request.rs and update_marker.rs): one call at a time, then whole runs. */
module MxcfbBackend {
  import opened Machine
  import opened Arithmetic
  import opened Frames
  import opened Screen
  import opened MxcfbLayout
  import opened MxcfbPixels
  import opened MxcfbMapped

  // ---------- Update markers ----------

  /** `next.wrapping_add(1).max(1)` */
  function NextMarker(m: u32): u32 {
    Max((m + 1) % 0x1_0000_0000, 1)
  }

  class UpdateMarkerSequence {
    var next: u32

    constructor FromSeed(seed: u32)
      ensures next == Max(seed, 1)
    {
      next := Max(seed, 1);
    }

    method Take() returns (marker: u32)
      modifies this
      ensures marker == old(next) && next == NextMarker(old(next))
    {
      marker := next;
      next := NextMarker(next);
    }
  }

  /** The marker handed out n steps after `m`. */
  function MarkerAt(m: u32, n: nat): u32 {
    if n == 0 then m else NextMarker(MarkerAt(m, n - 1))
  }

  /** Markers count through 1 .. 2^32 - 1 cyclically and never pass through zero. */
  lemma {:induction false} MarkerCycle(m: u32, n: nat)
    requires m != 0
    ensures MarkerAt(m, n) == (m - 1 + n) % U32_MAX + 1
  {
    hide NextMarker;
    if n == 0 {
      assert m - 1 < U32_MAX;
    } else {
      MarkerCycle(m, n - 1);
      CycleStep(m - 1 + (n - 1));
    }
  }

  lemma CycleStep(k: nat)
    ensures NextMarker(k % U32_MAX + 1) == (k + 1) % U32_MAX + 1
  {
    ModStep(k, U32_MAX);
  }

  /** Any 2^32 - 1 consecutive markers are nonzero and pairwise distinct. */
  lemma MarkersDistinct(m: u32, i: nat, j: nat)
    requires m != 0 && i < j < i + U32_MAX
    ensures MarkerAt(m, i) != 0 && MarkerAt(m, i) != MarkerAt(m, j)
  {
    MarkerCycle(m, i);
    MarkerCycle(m, j);
    if MarkerAt(m, i) == MarkerAt(m, j) {
      SameRemainder(m - 1 + i, m - 1 + j, U32_MAX);
    }
  }

  /** And that is as far as it goes: the one after that is the first again. */
  lemma MarkersRepeat(m: u32, i: nat)
    requires m != 0
    ensures MarkerAt(m, i + U32_MAX) == MarkerAt(m, i)
  {
    hide MarkerAt;
    MarkerCycle(m, i);
    MarkerCycle(m, i + U32_MAX);
    ModPeriod(m - 1 + i, U32_MAX);
  }

  // ---------- One call ----------

  datatype CachedFrame = CachedFrame(frameId: u64, frame: Frame)

  /** A request as the kernel gets it, the mapped memory at that moment, and its answer. */
  datatype Request = Request(marker: u32, region: UpdateRegion, memory: seq<byte>, accepted: bool)

  /** Everything a call can change. As history, `taken` lists the markers requests have consumed, oldest first,
      `handed` which of them, by position, were given to `submit`, and `requests` what was given with them. */
  datatype View = View(memory: seq<byte>, next: u32, cache: Option<CachedFrame>, taken: seq<u32>, handed: seq<nat>,
                       requests: seq<Request>)

  /** A call and the outcomes its surroundings chose: whether each allocation succeeds (for the strip its pixels
      and, after the marker is consumed, its row offsets), and whether the kernel accepts the update. */
  datatype Event =
    | Display(frameId: u64, frame: Frame, reservesCache: bool, reserves: bool, submitted: bool)
    | Redraw(reserves: bool, submitted: bool)
    | DrawSystemUi(connected: bool, art: seq<byte>, reserves: bool, reservesOffsets: bool, submitted: bool)

  predicate FillsViewport(info: FramebufferInfo, f: Frame) {
    f.width == info.screen.remoteViewport.width && f.height == info.screen.remoteViewport.height
  }

  /** The frame an event draws, if it gets as far as drawing one. */
  function Drawn(info: FramebufferInfo, v: View, e: Event): Option<CachedFrame> {
    match e
    case Display(id, f, reservesCache, reserves, _) =>
      if FillsViewport(info, f) && reservesCache && reserves then Some(CachedFrame(id, f)) else None
    case Redraw(reserves, _) => if reserves then v.cache else None
    case DrawSystemUi(_, _, _, _, _) => None
  }

  /** Does an event get as far as consuming a marker for the strip? */
  predicate RequestsStrip(info: FramebufferInfo, e: Event) {
    e.DrawSystemUi? && e.reserves && ExitBounds(info.screen.width, info.screen.height).Some?
  }

  /** A marker consumed for a strip that then cannot be written. */
  predicate WastesMarker(info: FramebufferInfo, e: Event) {
    RequestsStrip(info, e) && !e.reservesOffsets
  }

  /** The strip an event draws, if it gets as far as drawing one. */
  function DrawnStrip(info: FramebufferInfo, e: Event): Option<SystemUiPixels> {
    if RequestsStrip(info, e) && e.reservesOffsets then
      Some(SystemUiPixels(info.screen.systemUi, info.screen.systemUi.width, e.art))
    else None
  }

  /** On a screen wider than two margins a strip is drawn, as it was painted, whenever memory lasts; no call draws
      both areas, and only a frame of another size, a missing cache or a lack of memory keeps a frame back. */
  lemma WhatIsDrawn(t: Target, info: FramebufferInfo, v: View, e: Event)
    requires Consistent(t, info)
    ensures DrawnStrip(info, e).Some? <==>
            e.DrawSystemUi? && e.reserves && e.reservesOffsets && info.screen.width > 2 * CELL_MARGIN
    ensures DrawnStrip(info, e).Some? ==>
      DrawnStrip(info, e).value == SystemUiPixels(info.screen.systemUi, info.screen.systemUi.width, e.art)
    ensures Drawn(info, v, e).Some? <==>
            || (e.Display? && e.reservesCache && e.reserves
                && (e.frame.width, e.frame.height) == RemoteViewportSize((info.screen.width, info.screen.height)))
            || (e.Redraw? && e.reserves && v.cache.Some?)
    ensures e.Display? && Drawn(info, v, e).Some? ==> Drawn(info, v, e).value == CachedFrame(e.frameId, e.frame)
    ensures e.Redraw? && Drawn(info, v, e).Some? ==> Drawn(info, v, e) == v.cache
  {
    ExitBoundsOwnership(info.screen.width, info.screen.height, PhysicalPoint(0, 0));
    hide RowStart, ExitBounds;
  }

  /** Artwork of the right size for the strip. */
  ghost predicate WellFormed(info: FramebufferInfo, e: Event) {
    && (e.Display? ==> Valid(e.frame))
    && (e.DrawSystemUi? ==> |e.art| == RowStart(info.screen.systemUi.height, info.screen.systemUi.width))
  }

  /** Specification of one call: what is drawn where, which marker is consumed and whether it is handed on, and
      when the cache changes. */
  ghost predicate Step(info: FramebufferInfo, v: View, e: Event, w: View) {
    match (Drawn(info, v, e), DrawnStrip(info, e))
    case (Some(c), _) =>
      && Painted(c.frame, info.screen, info.spec, v.memory, w.memory)
      && Takes(v, w) && Asks(v, info.screen.remoteViewport, e.submitted, w)
      && w.cache == if e.Display? && e.submitted then Some(c) else v.cache
    case (None, Some(p)) =>
      && Filled(RectArea(p.region, info.spec), p.region.height, StripValue(p), v.memory, w.memory)
      && Takes(v, w) && Asks(v, info.screen.systemUi, e.submitted, w)
      && w.cache == v.cache
    case (None, None) =>
      if WastesMarker(info, e) then
        && Takes(v, w) && w.memory == v.memory && w.cache == v.cache && w.handed == v.handed
        && w.requests == v.requests
      else w == v
  }

  /** One marker is consumed. */
  predicate Takes(v: View, w: View) {
    w.next == NextMarker(v.next) && w.taken == v.taken + [v.next]
  }

  /** The marker just taken is handed to the kernel, which is asked to refresh exactly the rectangle, after the
      memory has been drawn. */
  predicate Asks(v: View, r: ScreenRect, accepted: bool, w: View) {
    && w.handed == v.handed + [|v.taken|]
    && w.requests == v.requests + [Request(v.next, UpdateRegion(r.y, r.x, r.width, r.height), w.memory, accepted)]
  }

  datatype SubmittedUpdate = SubmittedUpdate(marker: u32, region: ScreenRect)

  /** Consistent metadata makes every viewport-sized frame preparable, on both targets. */
  lemma FrameReady(t: Target, info: FramebufferInfo, f: Frame)
    requires Consistent(t, info) && info.mappingLen <= t.IsizeMax() && FillsViewport(info, f)
    ensures Preparable(t, f, info.screen, info.spec, info.mappingLen)
    ensures info.spec.memoryLen <= t.UsizeMax()
  {
    var lastRow := info.spec.yoffset + info.screen.remoteViewport.height - 1;
    RowsOrdered(lastRow, info.spec.yoffset + info.spec.visibleHeight, info.spec.lineLength);
    hide RowStart;
    assert RemoteArea(info.screen, info.spec).Offset(info.screen.remoteViewport.height - 1)
           == RowStart(lastRow, info.spec.lineLength) + info.spec.xoffset;
  }

  class MxcfbDisplayBackend {
    const t: Target
    const info: FramebufferInfo
    const mapping: WritableFramebuffer
    const markers: UpdateMarkerSequence
    var cache: Option<CachedFrame>
    ghost var taken: seq<u32>
    ghost var handed: seq<nat>
    ghost var requests: seq<Request>

    ghost predicate Valid()
      reads this, markers
    {
      && Consistent(t, info) && info.mappingLen <= t.IsizeMax()
      && mapping.Valid() && mapping.t == t && mapping.geometry == info.geometry
      && mapping.bytes.Length == info.mappingLen
      && markers.next != 0
      && (cache.Some? ==> Frames.Valid(cache.value.frame) && FillsViewport(info, cache.value.frame))
    }

    ghost function Now(): View
      reads this, markers, mapping.bytes
    {
      View(mapping.bytes[..], markers.next, cache, taken, handed, requests)
    }

    /** Opens the backend on accepted metadata and a mapping of the visible span. */
    constructor (t: Target, fixed: FixedInfo, variable: VariableInfo, mapped: array<byte>, seed: u32)
      requires FromKernel(t, fixed, variable).Ok?
      requires MapVisibleLen(t, FromKernel(t, fixed, variable).value.geometry) == Ok(mapped.Length)
      ensures Valid() && fresh(markers) && mapping.bytes == mapped && info == FromKernel(t, fixed, variable).value
      ensures Now() == View(mapped[..], Max(seed, 1), None, [], [], [])
    {
      hide RowStart, FromKernel;
      AcceptedIsConsistent(t, fixed, variable);
      var info := FromKernel(t, fixed, variable).value;
      MappingLenExact(t, info.geometry);
      this.t, this.info, this.cache, this.taken, this.handed, this.requests := t, info, None, [], [], [];
      mapping := new WritableFramebuffer(t, info.geometry, mapped);
      markers := new UpdateMarkerSequence.FromSeed(seed);
    }

    /** A request consumes the next marker. */
    method TakeMarker() returns (marker: u32)
      modifies this`taken, markers
      ensures marker == old(markers.next) && markers.next == NextMarker(old(markers.next))
      ensures taken == old(taken) + [marker]
    {
      marker := markers.Take();
      taken := taken + [marker];
    }

    /** `submit_update` for the marker consumed last: its own checks, then the kernel's arbitrary answer. */
    method Submit(region: UpdateRegion, marker: u32, kernel: bool) returns (accepted: bool)
      requires Valid() && taken != [] && taken[|taken| - 1] == marker
      modifies this`handed, this`requests
      ensures handed == old(handed) + [|taken| - 1]
      ensures requests == old(requests) + [Request(marker, region, mapping.bytes[..], accepted)]
      ensures accepted <==> marker != 0 && Submittable(region, info.spec) && kernel
    {
      accepted := marker != 0 && Submittable(region, info.spec) && kernel;
      handed := handed + [|taken| - 1];
      requests := requests + [Request(marker, region, mapping.bytes[..], accepted)];
    }

    /** `present_remote_with`: with memory to stage in, only the kernel can refuse a viewport-sized frame,
        and its refusal comes after the pixels and the marker are spent. */
    method PresentRemote(f: Frame, reserves: bool, kernel: bool) returns (r: Result<SubmittedUpdate, FbError>)
      requires Valid() && Frames.Valid(f) && FillsViewport(info, f)
      modifies this`taken, this`handed, this`requests, markers, mapping.bytes
      ensures Valid()
      ensures r.Ok? <==> reserves && kernel
      ensures r.Ok? ==> r.value == SubmittedUpdate(old(markers.next), info.screen.remoteViewport)
      ensures reserves ==>
        && Painted(f, info.screen, info.spec, old(mapping.bytes[..]), mapping.bytes[..])
        && Takes(old(Now()), Now()) && Asks(old(Now()), info.screen.remoteViewport, kernel, Now())
      ensures !reserves ==> Now() == old(Now())
    {
      hide Frames.Valid, Preparable, Painted, Staged, RemoteUpdateRegion, CheckedVisibleRegion, GoodGeometry, RowStart;
      FrameReady(t, info, f);
      var prepared := PrepareRemote(t, f, info.screen, info.spec, info.mappingLen, reserves);
      if prepared.Err? {
        return Err(prepared.error);
      }
      StagedFacts(prepared.value, f, info.screen, info.spec);
      RegionsReady(t, info);
      var region := RemoteUpdateRegion(info.screen, info.spec.visibleWidth, info.spec.visibleHeight);
      var marker := TakeMarker();
      assert RegionMatches(prepared.value.region, region.value);
      var written := mapping.WritePrepared(prepared.value, f, info.screen);
      assert written.Ok?;
      var accepted := Submit(region.value, marker, kernel);
      r := if accepted then Ok(SubmittedUpdate(marker, written.value)) else Err(SubmitFailed);
    }

    /** `display_remote_frame`: a frame of the wrong size is ignored; the cache follows only accepted
        submissions. */
    method DisplayRemoteFrame(frameId: u64, f: Frame, reservesCache: bool, reserves: bool, kernel: bool)
      requires Valid() && Frames.Valid(f)
      modifies this, markers, mapping.bytes
      ensures Valid()
      ensures Step(info, old(Now()), Display(frameId, f, reservesCache, reserves, kernel), Now())
    {
      hide Frames.Valid, Painted, RowStart, Consistent;
      if !FillsViewport(info, f) || !reservesCache {
        return;
      }
      var presented := PresentRemote(f, reserves, kernel);
      if presented.Ok? {
        cache := Some(CachedFrame(frameId, f));
      }
    }

    /** `redraw_cached_frame`: the cached payload is still a valid frame of the viewport's size. */
    method RedrawCachedFrame(reserves: bool, kernel: bool)
      requires Valid()
      modifies this`taken, this`handed, this`requests, markers, mapping.bytes
      ensures Valid()
      ensures Step(info, old(Now()), Redraw(reserves, kernel), Now())
    {
      hide Frames.Valid, Painted, RowStart, Consistent;
      if cache.None? {
        return;
      }
      var presented := PresentRemote(cache.value.frame, reserves, kernel);
    }

    /** `draw_system_ui`: fails exactly when there is no Exit control to draw, memory runs out or the kernel
        refuses. When it runs out for the row offsets the marker is gone and nothing else has happened. */
    method DrawSystemUiStrip(connected: bool, art: seq<byte>, reserves: bool, reservesOffsets: bool, kernel: bool)
      returns (r: Result<SubmittedUpdate, FbError>)
      requires Valid() && |art| == RowStart(info.screen.systemUi.height, info.screen.systemUi.width)
      modifies this`taken, this`handed, this`requests, markers, mapping.bytes
      ensures Valid()
      ensures r.Ok? <==>
        ExitBounds(info.screen.width, info.screen.height).Some? && reserves && reservesOffsets && kernel
      ensures r.Ok? ==>
        && r.value == SubmittedUpdate(old(markers.next), info.screen.systemUi)
        && Filled(StripArea(info.screen, info.spec), info.screen.systemUi.height,
                  StripValue(SystemUiPixels(info.screen.systemUi, info.screen.systemUi.width, art)),
                  old(mapping.bytes[..]), mapping.bytes[..])
        && Asks(old(Now()), info.screen.systemUi, true, Now())
      ensures Step(info, old(Now()), DrawSystemUi(connected, art, reserves, reservesOffsets, kernel), Now())
    {
      hide RowStart, SystemUiUpdateRegion, CheckedVisibleRegion, Filled, GoodGeometry, ExitBounds, StripValue;
      if ExitBounds(info.screen.width, info.screen.height).None? {
        return Err(NoExitControl);
      }
      if !reserves {
        return Err(AllocationFailed);
      }
      var pixels := SystemUiPixels(info.screen.systemUi, info.screen.systemUi.width, art);
      RegionsReady(t, info);
      var region := SystemUiUpdateRegion(info.screen, info.spec.visibleWidth, info.spec.visibleHeight);
      var marker := TakeMarker();
      assert RegionMatches(pixels.region, region.value);
      var written := mapping.WriteSystemUi(pixels, info.spec, reservesOffsets);
      if written.Err? {
        return Err(written.error);
      }
      var accepted := Submit(region.value, marker, kernel);
      r := if accepted then Ok(SubmittedUpdate(marker, written.value)) else Err(SubmitFailed);
    }
  }

  lemma StagedFacts(p: PreparedRemote, f: Frame, screen: ScreenLayout, spec: FramebufferSpec)
    requires Staged(p, f, screen, spec)
    ensures p.region == screen.remoteViewport && p.spec == spec
  {
  }

  // ---------- Whole runs ----------

  /** Views and events of a run: event i takes view i to view i + 1. */
  ghost predicate Run(info: FramebufferInfo, vs: seq<View>, es: seq<Event>) {
    && |vs| == |es| + 1
    && forall i :: 0 <= i < |es| ==> WellFormed(info, es[i]) && Step(info, vs[i], es[i], vs[i + 1])
  }

  ghost predicate Shows(a: Area, value: (nat, nat) -> byte, memory: seq<byte>) {
    forall row: nat :: row < a.height ==> RowShows(a, row, value, memory)
  }

  /** The two areas share no line. */
  lemma AreasDisjoint(t: Target, info: FramebufferInfo, i: nat)
    requires Consistent(t, info)
    ensures var remote, strip := RemoteArea(info.screen, info.spec), StripArea(info.screen, info.spec);
            !(remote.Covers(remote.height, i) && strip.Covers(strip.height, i))
  {
    hide RowStart;
    var remote, strip := RemoteArea(info.screen, info.spec), StripArea(info.screen, info.spec);
    if remote.Covers(remote.height, i) && strip.Covers(strip.height, i) {
      var r: nat :| r < remote.height && remote.RowHolds(r, i);
      var s: nat :| s < strip.height && strip.RowHolds(s, i);
      RowsOrdered(remote.y + r, strip.y + s, remote.line);
    }
  }

  /** Drawing one area leaves a disjoint one as it was. */
  lemma ShowsKept(a: Area, value: (nat, nat) -> byte, b: Area, drawn: (nat, nat) -> byte, before: seq<byte>,
                  after: seq<byte>)
    requires Shows(a, value, before) && Filled(b, b.height, drawn, before, after)
    requires forall i: nat :: !(a.Covers(a.height, i) && b.Covers(b.height, i))
    ensures Shows(a, value, after)
  {
    hide Area.Offset;
    forall row: nat | row < a.height
      ensures RowShows(a, row, value, after)
    {
      assert RowShows(a, row, value, before);
      forall column: nat | column < a.width
        ensures after[a.Offset(row) + column] == value(column, row)
      {
        var i := a.Offset(row) + column;
        assert a.RowHolds(row, i);
        assert a.Covers(a.height, i);
      }
    }
  }

  /** The frame most recently drawn in the remote viewport during a run. */
  ghost function LastDrawn(info: FramebufferInfo, vs: seq<View>, es: seq<Event>): Option<CachedFrame>
    requires |vs| == |es| + 1
  {
    if es == [] then None
    else
      var n := |es| - 1;
      match Drawn(info, vs[n], es[n])
      case Some(c) => Some(c)
      case None => LastDrawn(info, vs[..n + 1], es[..n])
  }

  ghost function LastStrip(info: FramebufferInfo, es: seq<Event>): Option<SystemUiPixels> {
    if es == [] then None
    else
      match DrawnStrip(info, es[|es| - 1])
      case Some(p) => Some(p)
      case None => LastStrip(info, es[..|es| - 1])
  }

  /** The last frame whose submission the kernel accepted, or what was cached before. */
  ghost function LastAccepted(info: FramebufferInfo, es: seq<Event>,
                              initial: Option<CachedFrame>): Option<CachedFrame> {
    if es == [] then initial
    else
      var e := es[|es| - 1];
      if e.Display? && FillsViewport(info, e.frame) && e.reservesCache && e.reserves && e.submitted
      then Some(CachedFrame(e.frameId, e.frame))
      else LastAccepted(info, es[..|es| - 1], initial)
  }

  /** Invariant of every run: the cache is the last accepted frame; the viewport shows the last drawn
      frame and the strip the last drawn strip, whatever happened in between; and bytes of neither area ever
      change. */
  lemma {:induction false} RunInvariant(t: Target, info: FramebufferInfo, vs: seq<View>, es: seq<Event>)
    requires Consistent(t, info) && Run(info, vs, es)
    ensures vs[|es|].cache == LastAccepted(info, es, vs[0].cache)
    ensures var c := LastDrawn(info, vs, es);
            c.Some? ==> Shows(RemoteArea(info.screen, info.spec), Shade(c.value.frame), vs[|es|].memory)
    ensures var p := LastStrip(info, es);
            p.Some? ==> Shows(StripArea(info.screen, info.spec), StripValue(p.value), vs[|es|].memory)
    ensures |vs[|es|].memory| == |vs[0].memory|
    ensures forall i: nat :: i < |vs[0].memory| && Neither(info, i) ==> vs[|es|].memory[i] == vs[0].memory[i]
  {
    if es != [] {
      var n := |es| - 1;
      RunInvariant(t, info, vs[..n + 1], es[..n]);
      StepInvariant(t, info, vs[n], es[n], vs[n + 1]);
      hide Shows, Neither, Step;
    }
  }

  /** Offset i belongs to neither drawn area: line padding, virtual lines above or columns beside. */
  ghost predicate Neither(info: FramebufferInfo, i: nat) {
    && !RemoteArea(info.screen, info.spec).Covers(info.screen.remoteViewport.height, i)
    && !StripArea(info.screen, info.spec).Covers(info.screen.systemUi.height, i)
  }

  lemma StepInvariant(t: Target, info: FramebufferInfo, v: View, e: Event, w: View)
    requires Consistent(t, info) && Step(info, v, e, w)
    ensures |w.memory| == |v.memory|
    ensures forall i: nat :: i < |v.memory| && Neither(info, i) ==> w.memory[i] == v.memory[i]
    ensures w.cache == if e.Display? && FillsViewport(info, e.frame) && e.reservesCache && e.reserves && e.submitted
                       then Some(CachedFrame(e.frameId, e.frame)) else v.cache
    ensures match Drawn(info, v, e)
            case Some(c) => Shows(RemoteArea(info.screen, info.spec), Shade(c.frame), w.memory)
            case None => forall f: Frame :: Shows(RemoteArea(info.screen, info.spec), Shade(f), v.memory) ==>
                                            Shows(RemoteArea(info.screen, info.spec), Shade(f), w.memory)
    ensures match DrawnStrip(info, e)
            case Some(p) => Shows(StripArea(info.screen, info.spec), StripValue(p), w.memory)
            case None => forall p :: Shows(StripArea(info.screen, info.spec), StripValue(p), v.memory) ==>
                                     Shows(StripArea(info.screen, info.spec), StripValue(p), w.memory)
  {
    hide RowStart, Area.Offset, RowShows, Luminance;
    var remote, strip := RemoteArea(info.screen, info.spec), StripArea(info.screen, info.spec);
    forall i: nat
      ensures !(remote.Covers(remote.height, i) && strip.Covers(strip.height, i))
    {
      AreasDisjoint(t, info, i);
    }
    match (Drawn(info, v, e), DrawnStrip(info, e)) {
      case (Some(c), _) =>
        forall p | Shows(strip, StripValue(p), v.memory)
          ensures Shows(strip, StripValue(p), w.memory)
        {
          ShowsKept(strip, StripValue(p), remote, Shade(c.frame), v.memory, w.memory);
        }
      case (None, Some(p)) =>
        forall f: Frame | Shows(remote, Shade(f), v.memory)
          ensures Shows(remote, Shade(f), w.memory)
        {
          ShowsKept(remote, Shade(f), strip, StripValue(p), v.memory, w.memory);
        }
      case (None, None) =>
    }
  }

  /** A redraw, even one the kernel refuses, leaves the viewport showing the last accepted frame. */
  lemma RedrawRestoresCache(t: Target, info: FramebufferInfo, vs: seq<View>, es: seq<Event>)
    requires Consistent(t, info) && Run(info, vs, es)
    requires es != [] && es[|es| - 1].Redraw? && es[|es| - 1].reserves
    ensures var accepted := LastAccepted(info, es, vs[0].cache);
            accepted.Some? ==>
              Shows(RemoteArea(info.screen, info.spec), Shade(accepted.value.frame), vs[|es|].memory)
  {
    RunInvariant(t, info, vs, es);
    hide Shows;
    var n := |es| - 1;
    assert Step(info, vs[n], es[n], vs[n + 1]);
    assert LastDrawn(info, vs, es) == if vs[n].cache.Some? then vs[n].cache else LastDrawn(info, vs[..n + 1], es[..n]);
  }

  /** Remote and strip drawing commute: either order gives the same memory. */
  lemma DrawingCommutes(t: Target, info: FramebufferInfo, f: Frame, p: SystemUiPixels,
                        m: seq<byte>, painted: seq<byte>, both: seq<byte>, stripped: seq<byte>, both': seq<byte>)
    requires Consistent(t, info) && p.region == info.screen.systemUi
    requires Painted(f, info.screen, info.spec, m, painted)
    requires Filled(StripArea(info.screen, info.spec), p.region.height, StripValue(p), painted, both)
    requires Filled(StripArea(info.screen, info.spec), p.region.height, StripValue(p), m, stripped)
    requires Painted(f, info.screen, info.spec, stripped, both')
    ensures both == both'
  {
    hide RowStart, Area.Offset, Luminance, StripValue;
    var remote, strip := RemoteArea(info.screen, info.spec), StripArea(info.screen, info.spec);
    forall i: nat | i < |both|
      ensures both[i] == both'[i]
    {
      AreasDisjoint(t, info, i);
      if remote.Covers(remote.height, i) {
        var row: nat :| row < remote.height && remote.RowHolds(row, i);
        SameShown(remote, row, Shade(f), painted, both', i);
      } else if strip.Covers(strip.height, i) {
        var row: nat :| row < strip.height && strip.RowHolds(row, i);
        SameShown(strip, row, StripValue(p), both, stripped, i);
      }
    }
  }

  lemma SameShown(a: Area, row: nat, value: (nat, nat) -> byte, m: seq<byte>, n: seq<byte>, i: nat)
    requires a.RowHolds(row, i) && RowShows(a, row, value, m) && RowShows(a, row, value, n)
    ensures i < |m| && i < |n| && m[i] == n[i]
  {
    var column := i - a.Offset(row);
    assert m[a.Offset(row) + column] == value(column, row) == n[a.Offset(row) + column];
  }

  // ---------- Markers over whole runs ----------

  /** The strips of a run that cost a marker and were not written. */
  function Wasted(info: FramebufferInfo, es: seq<Event>): nat {
    if es == [] then 0
    else Wasted(info, es[..|es| - 1]) + (if WastesMarker(info, es[|es| - 1]) then 1 else 0)
  }

  /** Whether a call hands a marker on. */
  predicate Hands(info: FramebufferInfo, v: View, e: Event) {
    Drawn(info, v, e).Some? || DrawnStrip(info, e).Some?
  }

  lemma StepMarkers(info: FramebufferInfo, v: View, e: Event, w: View)
    requires Step(info, v, e, w)
    ensures if Hands(info, v, e) || WastesMarker(info, e) then Takes(v, w) else w.next == v.next && w.taken == v.taken
    ensures w.handed == if Hands(info, v, e) then v.handed + [|v.taken|] else v.handed
    ensures !(Hands(info, v, e) && WastesMarker(info, e))
  {
    hide Painted, Filled, RectArea, StripValue, ExitBounds;
  }

  /** The markers taken are the sequence's, in order. */
  ghost predicate InSequence(first: u32, v: View) {
    v.next == MarkerAt(first, |v.taken|) && forall k: nat :: k < |v.taken| ==> v.taken[k] == MarkerAt(first, k)
  }

  /** Those handed on are some of them, in order. */
  ghost predicate InOrder(v: View) {
    && (forall i, j :: 0 <= i < j < |v.handed| ==> v.handed[i] < v.handed[j])
    && forall i :: 0 <= i < |v.handed| ==> v.handed[i] < |v.taken|
  }

  /** In every run requests take the sequence's markers in order, and hand on all of them but those whose strip
      could not be written for lack of memory. */
  lemma {:induction false} RunMarkers(info: FramebufferInfo, vs: seq<View>, es: seq<Event>)
    requires Run(info, vs, es) && vs[0].taken == [] && vs[0].handed == []
    ensures InSequence(vs[0].next, vs[|es|]) && InOrder(vs[|es|])
    ensures |vs[|es|].taken| == |vs[|es|].handed| + Wasted(info, es)
    decreases |es|
  {
    if es != [] {
      var n := |es| - 1;
      assert Step(info, vs[n], es[n], vs[n + 1]);
      hide Step, Hands, WastesMarker, NextMarker, Takes, InSequence, InOrder;
      RunMarkers(info, vs[..n + 1], es[..n]);
      StepMarkers(info, vs[n], es[n], vs[n + 1]);
      MarkersGrow(vs[0].next, vs[n], vs[n + 1], Hands(info, vs[n], es[n]), WastesMarker(info, es[n]));
    } else {
      hide Step;
    }
  }

  lemma MarkersGrow(first: u32, v: View, w: View, hands: bool, wastes: bool)
    requires InSequence(first, v) && InOrder(v) && !(hands && wastes)
    requires if hands || wastes then Takes(v, w) else w.next == v.next && w.taken == v.taken
    requires w.handed == if hands then v.handed + [|v.taken|] else v.handed
    ensures InSequence(first, w) && InOrder(w)
    ensures |w.taken| - |w.handed| == |v.taken| - |v.handed| + (if wastes then 1 else 0)
  {
    hide NextMarker;
  }

  /** Exactly when no marker was wasted, every request's marker was handed on. */
  lemma AllHanded(info: FramebufferInfo, vs: seq<View>, es: seq<Event>)
    requires Run(info, vs, es) && vs[0].taken == [] && vs[0].handed == []
    ensures Wasted(info, es) == 0 <==> vs[|es|].handed == seq(|vs[|es|].taken|, k => k)
  {
    RunMarkers(info, vs, es);
    hide Run, InSequence;
    var v := vs[|es|];
    if |v.handed| == |v.taken| {
      forall k | 0 <= k < |v.handed|
        ensures v.handed[k] == k
      {
        Squeezed(v.handed, |v.taken|, k);
      }
    }
  }

  /** An increasing sequence of n numbers below n leaves none out. */
  lemma {:induction false} Squeezed(s: seq<nat>, n: nat, k: nat)
    requires k < |s| == n && forall i, j :: 0 <= i < j < n ==> s[i] < s[j]
    requires forall i :: 0 <= i < n ==> s[i] < n
    ensures s[k] == k
  {
    AtLeast(s, k);
    AtMost(s, n, k);
  }

  lemma {:induction false} AtLeast(s: seq<nat>, k: nat)
    requires k < |s| && forall i, j :: 0 <= i < j < |s| ==> s[i] < s[j]
    ensures k <= s[k]
  {
    if k > 0 {
      AtLeast(s, k - 1);
    }
  }

  lemma {:induction false} AtMost(s: seq<nat>, n: nat, k: nat)
    requires k < |s| == n && forall i, j :: 0 <= i < j < n ==> s[i] < s[j]
    requires forall i :: 0 <= i < n ==> s[i] < n
    ensures s[k] <= k
    decreases n - k
  {
    if k + 1 < n {
      AtMost(s, n, k + 1);
    }
  }

  /** In any run the markers taken by any 2^32 - 1 consecutive requests are nonzero and distinct. */
  lemma TakenMarkersDistinct(info: FramebufferInfo, vs: seq<View>, es: seq<Event>, i: nat, j: nat)
    requires Run(info, vs, es) && vs[0].taken == [] && vs[0].handed == [] && vs[0].next != 0
    requires i < j < |vs[|es|].taken| && j - i < U32_MAX
    ensures vs[|es|].taken[i] != 0 && vs[|es|].taken[i] != vs[|es|].taken[j]
  {
    RunMarkers(info, vs, es);
    hide Run, InOrder;
    MarkersDistinct(vs[0].next, i, j);
  }

  /** So a marker handed to submit is nonzero, and differs from any handed on within the next 2^32 - 2 requests.
      Counted in hand-overs instead the bound is lower by the markers wasted between the two. */
  lemma HandedMarkersDistinct(info: FramebufferInfo, vs: seq<View>, es: seq<Event>, i: nat, j: nat)
    requires Run(info, vs, es) && vs[0].taken == [] && vs[0].handed == [] && vs[0].next != 0
    requires i < j < |vs[|es|].handed|
    ensures var v := vs[|es|];
            && v.handed[i] < v.handed[j] < |v.taken| && v.taken[v.handed[i]] != 0
            && (v.handed[j] - v.handed[i] < U32_MAX ==> v.taken[v.handed[i]] != v.taken[v.handed[j]])
            && (v.handed[j] - v.handed[i] == U32_MAX ==> v.taken[v.handed[i]] == v.taken[v.handed[j]])
            && j - i <= v.handed[j] - v.handed[i] <= j - i + Wasted(info, es)
  {
    RunMarkers(info, vs, es);
    hide Run;
    var v := vs[|es|];
    var a, b := v.handed[i], v.handed[j];
    MarkersNonzero(vs[0].next, a);
    if b - a < U32_MAX {
      MarkersDistinct(vs[0].next, a, b);
    } else if b - a == U32_MAX {
      MarkersRepeat(vs[0].next, a);
    }
    Spread(v.handed, |v.taken|, i, j);
  }

  lemma MarkersNonzero(m: u32, n: nat)
    requires m != 0
    ensures MarkerAt(m, n) != 0
  {
    MarkerCycle(m, n);
  }

  /** How far apart two members of an increasing sequence of numbers below a bound can be. */
  lemma {:induction false} Spread(s: seq<nat>, bound: nat, i: nat, j: nat)
    requires i < j < |s| && |s| <= bound
    requires (forall a, b :: 0 <= a < b < |s| ==> s[a] < s[b]) && forall a :: 0 <= a < |s| ==> s[a] < bound
    ensures j - i <= s[j] - s[i] <= j - i + (bound - |s|)
  {
    Apart(s, i, j);
    AtLeast(s, i);
    Apart(s, j, |s| - 1);
  }

  lemma {:induction false} Apart(s: seq<nat>, i: nat, j: nat)
    requires i <= j < |s| && forall a, b :: 0 <= a < b < |s| ==> s[a] < s[b]
    ensures j - i <= s[j] - s[i]
    decreases j
  {
    if i < j {
      Apart(s, i, j - 1);
    }
  }
}
