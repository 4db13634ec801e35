/** What the e-paper panel itself shows: the kernel copies an accepted update's region from the mapped memory
    as it was at that moment (src/mxcfb/present.rs, update_request.rs). */
module MxcfbPanel {
  import opened Machine
  import opened Frames
  import opened Screen
  import opened MxcfbLayout
  import opened MxcfbPixels
  import opened MxcfbMapped
  import opened MxcfbBackend

  /** The native bytes of an update region. */
  function RegionArea(r: UpdateRegion, spec: FramebufferSpec): Area {
    Area(spec.xoffset + r.left, spec.yoffset + r.top, r.width, r.height, spec.lineLength)
  }

  /** One refresh, if it was accepted. */
  ghost function Refreshed(spec: FramebufferSpec, panel: seq<byte>, q: Request): (after: seq<byte>)
    ensures |after| == |panel|
  {
    var area := RegionArea(q.region, spec);
    if !q.accepted then panel
    else
      seq(|panel|, i requires 0 <= i < |panel| =>
        if area.Covers(area.height, i) && i < |q.memory| then q.memory[i] else panel[i])
  }

  /** The panel after all requests, oldest first. */
  ghost function Panel(spec: FramebufferSpec, start: seq<byte>, requests: seq<Request>): (panel: seq<byte>)
    ensures |panel| == |start|
  {
    if requests == [] then start
    else Refreshed(spec, Panel(spec, start, requests[..|requests| - 1]), requests[|requests| - 1])
  }

  /** What a request makes of an area that was drawn just before it. */
  lemma RefreshedShows(spec: FramebufferSpec, panel: seq<byte>, q: Request, a: Area, value: (nat, nat) -> byte)
    requires q.accepted && RegionArea(q.region, spec) == a && |panel| == |q.memory| && Shows(a, value, q.memory)
    ensures Shows(a, value, Refreshed(spec, panel, q))
  {
    hide Area.Offset;
    var after := Refreshed(spec, panel, q);
    forall row: nat | row < a.height
      ensures RowShows(a, row, value, after)
    {
      assert RowShows(a, row, value, q.memory);
      forall column: nat | column < a.width
        ensures after[a.Offset(row) + column] == value(column, row)
      {
        assert a.RowHolds(row, a.Offset(row) + column);
        assert a.Covers(a.height, a.Offset(row) + column);
      }
    }
  }

  /** A refresh elsewhere leaves an area as it was. */
  lemma RefreshedKeeps(spec: FramebufferSpec, panel: seq<byte>, q: Request, a: Area, value: (nat, nat) -> byte)
    requires Shows(a, value, panel)
    requires var b := RegionArea(q.region, spec);
             forall i: nat :: !(a.Covers(a.height, i) && b.Covers(b.height, i))
    ensures Shows(a, value, Refreshed(spec, panel, q))
  {
    hide Area.Offset;
    var after := Refreshed(spec, panel, q);
    forall row: nat | row < a.height
      ensures RowShows(a, row, value, after)
    {
      assert RowShows(a, row, value, panel);
      forall column: nat | column < a.width
        ensures after[a.Offset(row) + column] == value(column, row)
      {
        assert a.RowHolds(row, a.Offset(row) + column);
        assert a.Covers(a.height, a.Offset(row) + column);
      }
    }
  }

  /** The frame of the last display or redraw whose update the kernel accepted. */
  ghost function LastRefreshed(info: FramebufferInfo, vs: seq<View>, es: seq<Event>): Option<Frame>
    requires |vs| == |es| + 1
  {
    if es == [] then None
    else
      var n := |es| - 1;
      match Drawn(info, vs[n], es[n])
      case Some(c) => if es[n].submitted then Some(c.frame) else LastRefreshed(info, vs[..n + 1], es[..n])
      case None => LastRefreshed(info, vs[..n + 1], es[..n])
  }

  ghost function LastRefreshedStrip(info: FramebufferInfo, es: seq<Event>): Option<SystemUiPixels> {
    if es == [] then None
    else
      var n := |es| - 1;
      match DrawnStrip(info, es[n])
      case Some(p) => if es[n].submitted then Some(p) else LastRefreshedStrip(info, es[..n])
      case None => LastRefreshedStrip(info, es[..n])
  }

  /** In every run the panel shows, in the viewport, the last frame whose update was accepted and, in the strip,
      the last strip whose update was accepted: whatever was drawn or refused since, and nothing else ever
      changes on it. */
  lemma {:induction false} PanelShows(t: Target, info: FramebufferInfo, vs: seq<View>, es: seq<Event>, start: seq<byte>)
    requires Consistent(t, info) && Run(info, vs, es) && vs[0].requests == [] && |start| == |vs[0].memory|
    ensures |vs[|es|].memory| == |start|
    ensures var panel := Panel(info.spec, start, vs[|es|].requests);
            && (var f := LastRefreshed(info, vs, es);
                f.Some? ==> Shows(RemoteArea(info.screen, info.spec), Shade(f.value), panel))
            && (var p := LastRefreshedStrip(info, es);
                p.Some? ==> Shows(StripArea(info.screen, info.spec), StripValue(p.value), panel))
            && forall i: nat :: i < |start| && Neither(info, i) ==> panel[i] == start[i]
    decreases |es|
  {
    if es != [] {
      var n := |es| - 1;
      PanelShows(t, info, vs[..n + 1], es[..n], start);
      assert Step(info, vs[n], es[n], vs[n + 1]);
      var c, p := Drawn(info, vs[n], es[n]), DrawnStrip(info, es[n]);
      if c.Some? {
        hide Step, Shows, Neither, Panel;
        PanelFrame(t, info, vs[n], es[n], vs[n + 1], start, c.value);
      } else if p.Some? {
        hide Step, Shows, Neither, Panel;
        PanelStrip(t, info, vs[n], es[n], vs[n + 1], start, p.value);
      } else {
        hide Shows, Neither, Panel;
      }
    }
  }

  /** One more request, as `Asks` hands it on. */
  lemma Asked(spec: FramebufferSpec, v: View, r: ScreenRect, accepted: bool, w: View, start: seq<byte>)
    requires Asks(v, r, accepted, w)
    ensures var q := Request(v.next, UpdateRegion(r.y, r.x, r.width, r.height), w.memory, accepted);
            && Panel(spec, start, w.requests) == Refreshed(spec, Panel(spec, start, v.requests), q)
            && RegionArea(q.region, spec) == RectArea(r, spec)
  {
    assert w.requests[..|v.requests|] == v.requests;
    hide Refreshed;
  }

  lemma PanelFrame(t: Target, info: FramebufferInfo, v: View, e: Event, w: View, start: seq<byte>, c: CachedFrame)
    requires Consistent(t, info) && Drawn(info, v, e) == Some(c) && Step(info, v, e, w) && |start| == |v.memory|
    ensures |w.memory| == |start|
    ensures var panel, after := Panel(info.spec, start, v.requests), Panel(info.spec, start, w.requests);
            && (if e.submitted then Shows(RemoteArea(info.screen, info.spec), Shade(c.frame), after) else after == panel)
            && (forall p :: Shows(StripArea(info.screen, info.spec), StripValue(p), panel) ==>
                            Shows(StripArea(info.screen, info.spec), StripValue(p), after))
            && forall i: nat :: i < |start| && Neither(info, i) ==> after[i] == panel[i]
  {
    var remote, strip := RemoteArea(info.screen, info.spec), StripArea(info.screen, info.spec);
    var panel := Panel(info.spec, start, v.requests);
    Asked(info.spec, v, info.screen.remoteViewport, e.submitted, w, start);
    var q := w.requests[|v.requests|];
    assert Shows(remote, Shade(c.frame), w.memory);
    hide Panel, Step, Area.Offset, Area.Covers, Consistent, Drawn;
    if e.submitted {
      RefreshedShows(info.spec, panel, q, remote, Shade(c.frame));
      hide Shows;
      forall p | Shows(strip, StripValue(p), panel)
        ensures Shows(strip, StripValue(p), Refreshed(info.spec, panel, q))
      {
        forall i: nat
          ensures !(strip.Covers(strip.height, i) && remote.Covers(remote.height, i))
        {
          AreasDisjoint(t, info, i);
        }
        RefreshedKeeps(info.spec, panel, q, strip, StripValue(p));
      }
    }
  }

  lemma PanelStrip(t: Target, info: FramebufferInfo, v: View, e: Event, w: View, start: seq<byte>, p: SystemUiPixels)
    requires Consistent(t, info) && Drawn(info, v, e).None? && DrawnStrip(info, e) == Some(p) && Step(info, v, e, w)
    requires |start| == |v.memory|
    ensures |w.memory| == |start|
    ensures var panel, after := Panel(info.spec, start, v.requests), Panel(info.spec, start, w.requests);
            && (if e.submitted then Shows(StripArea(info.screen, info.spec), StripValue(p), after) else after == panel)
            && (forall f: Frame :: Shows(RemoteArea(info.screen, info.spec), Shade(f), panel) ==>
                                   Shows(RemoteArea(info.screen, info.spec), Shade(f), after))
            && forall i: nat :: i < |start| && Neither(info, i) ==> after[i] == panel[i]
  {
    var remote, strip := RemoteArea(info.screen, info.spec), StripArea(info.screen, info.spec);
    var panel := Panel(info.spec, start, v.requests);
    Asked(info.spec, v, info.screen.systemUi, e.submitted, w, start);
    var q := w.requests[|v.requests|];
    assert Shows(strip, StripValue(p), w.memory);
    hide Panel, Step, Area.Offset, Area.Covers, Consistent, Drawn, DrawnStrip;
    if e.submitted {
      RefreshedShows(info.spec, panel, q, strip, StripValue(p));
      hide Shows;
      forall f: Frame | Shows(remote, Shade(f), panel)
        ensures Shows(remote, Shade(f), Refreshed(info.spec, panel, q))
      {
        forall i: nat
          ensures !(remote.Covers(remote.height, i) && strip.Covers(strip.height, i))
        {
          AreasDisjoint(t, info, i);
        }
        RefreshedKeeps(info.spec, panel, q, remote, Shade(f));
      }
    }
  }
}
