/** The X11 display backend's dimensions and cached frame (src/x11/backend.rs, src/display/cache.rs), with the
    server's answers arbitrary. */
module X11Display {
  import opened Machine
  import opened Frames
  import opened Screen
  import opened X11Bitmap
  import opened X11Upload
  import X11Server
  import opened Mailbox

  /** What is kept of the last frame uploaded: its metadata and its prepared bitmap. */
  datatype CachedFrame = CachedFrame(frameId: u64, width: u16, height: u16, stride: nat, bitmap: PreparedBitmap)

  datatype Shown =
    | FormatUnsupported
    | RenderUnavailable
    | PrepareFailed
    | Uploaded(chunks: nat)
    | UploadFailed(error: BlitError)

  class RemoteFrameCache {
    var current: Option<CachedFrame>

    constructor ()
      ensures current == None
    {
      current := None;
    }

    method Replace(frame: CachedFrame)
      modifies this
      ensures current == Some(frame)
    {
      current := Some(frame);
    }

    /** `invalidate_mismatched` */
    method InvalidateMismatched(viewport: (u16, u16)) returns (dropped: Option<CachedFrame>)
      modifies this
      ensures if old(current).Some? && (old(current).value.width, old(current).value.height) != viewport
              then dropped == old(current) && current == None
              else dropped == None && current == old(current)
    {
      dropped := None;
      if current.Some? && (current.value.width, current.value.height) != viewport {
        dropped, current := current, None;
      }
    }
  }

  /** What the server says to the requests of one upload. */
  datatype Answers = Answers(sends: nat -> bool, accepts: nat -> bool, flushes: bool)

  /** One attempt to put a frame on the window: how it ended, the requests issued, and the bitmap they were cut
      from, if there was one. */
  datatype Outcome = Outcome(shown: Shown, requests: seq<Request>, bitmap: Option<PreparedBitmap>)

  /** A bitmap is chunkable and reads back as the frame. */
  ghost predicate Faithful(adapter: Adapter, b: PreparedBitmap, f: Frame)
    requires adapter.Valid()
  {
    && f.format.Mono1? && b.width == f.width && b.height == f.height
    && Chunkable(adapter, b) && Depicts(adapter.format, b, f.pixels)
  }

  /** A frame is shown exactly when it is Mono1, there is an adapter, a request carries one of its rows, every
      chunk of its bitmap can be addressed, is sent and accepted, and the flush works. Until the first chunk that
      cannot be addressed or sent, the requests are the chunks in order, each in its place. */
  ghost predicate Attempted(adapter: Option<Adapter>, f: Frame, a: Answers, o: Outcome)
    requires adapter.Some? ==> adapter.value.Valid()
  {
    && (o.bitmap.Some? <==>
          && f.format.Mono1? && adapter.Some?
          && adapter.value.Carries(adapter.value.format.RowStride(f.width)))
    && (o.bitmap.Some? ==>
          Faithful(adapter.value, o.bitmap.value, f) && Issued(o.bitmap.value, a, o.shown, o.requests))
    && (o.bitmap.None? ==>
          && o.requests == []
          && o.shown == if f.format.Gray8? then FormatUnsupported
                        else if adapter.None? then RenderUnavailable else PrepareFailed)
  }

  /** The requests of one bitmap and how they end. */
  ghost predicate Issued(b: PreparedBitmap, a: Answers, shown: Shown, requests: seq<Request>)
    requires Whole(b)
  {
    var chunks := Chunks(b);
    && |requests| <= |chunks|
    && (forall k: nat :: k < |requests| ==>
          a.sends(k) && chunks[k].yOffset <= I16_MAX && requests[k] == Placed(b, (0, 0), chunks[k]))
    && (|requests| < |chunks| ==> !a.sends(|requests|) || chunks[|requests|].yOffset > I16_MAX)
    && (shown.Uploaded? || shown.UploadFailed?)
    && (shown.Uploaded? <==>
          |requests| == |chunks| && a.flushes && forall k: nat :: k < |requests| ==> a.accepts(k))
    && (shown.Uploaded? ==> shown.chunks == |requests|)
    && (shown == UploadFailed(DestinationOutOfRange) <==>
          |requests| < |chunks| && chunks[|requests|].yOffset > I16_MAX)
  }

  /** What an upload that worked has put on the window is the frame. */
  lemma UploadedShows(adapter: Adapter, b: PreparedBitmap, f: Frame, a: Answers, shown: Shown, requests: seq<Request>)
    requires adapter.Valid() && Faithful(adapter, b, f) && Issued(b, a, shown, requests) && shown.Uploaded?
    ensures f.format.Mono1? && X11Server.Shows(adapter.format, requests, f)
  {
    hide Chunks, Depicts, Chunkable, X11Server.Shows;
    X11Server.UploadShows(adapter, b, f, requests);
  }

  /** A picture no taller than a viewport is never out of the coordinate range. */
  lemma NeverOutOfRange(adapter: Adapter, b: PreparedBitmap, f: Frame, a: Answers, shown: Shown, requests: seq<Request>,
                        dimensions: (u16, u16))
    requires adapter.Valid() && Faithful(adapter, b, f) && Issued(b, a, shown, requests)
    requires (f.width, f.height) == RemoteViewportSize(dimensions)
    ensures shown != UploadFailed(DestinationOutOfRange)
  {
    ViewportInRange(dimensions);
    ChunkableIsWhole(adapter, b);
    hide Chunks, Depicts, Chunkable, RemoteViewportSize;
    if |requests| < |Chunks(b)| {
      DestinationsInRange(adapter, b, |requests|);
    }
  }

  /** What the server announced of its bitmaps and requests. */
  datatype Setup = Setup(byteOrder: ImageOrder, bitOrder: ImageOrder, unit: byte, pad: byte, maximumRequestBytes: nat)

  class X11DisplayBackend {
    const t: Target
    const adapter: Option<Adapter>
    var dimensions: (u16, u16)
    const cache: RemoteFrameCache
    /** The frame behind the cached bitmap. */
    ghost var picture: Frame

    ghost predicate Valid()
      reads this, cache
    {
      && (adapter.Some? ==> adapter.value.Valid())
      && (cache.current.Some? ==>
            var c := cache.current.value;
            && adapter.Some? && Faithful(adapter.value, c.bitmap, picture)
            && (c.width, c.height) == (picture.width, picture.height))
    }

    /** The cached frame has the size of the viewport of the current dimensions. */
    ghost predicate CacheFits()
      reads this, cache
    {
      cache.current.Some? ==> (cache.current.value.width, cache.current.value.height) == RemoteViewportSize(dimensions)
    }

    /** An unsupported setup leaves the display without frames, not without a display. */
    constructor (t: Target, setup: Setup, dimensions: (u16, u16))
      ensures Valid() && CacheFits() && this.dimensions == dimensions && cache.current == None && fresh(cache)
      ensures adapter.Some? <==>
        BitmapFormat(setup.byteOrder, setup.bitOrder, setup.unit, setup.pad).Valid()
        && setup.maximumRequestBytes > PUT_IMAGE_REQUEST_HEADER_BYTES
      ensures adapter.Some? ==>
        && adapter.value.format == BitmapFormat(setup.byteOrder, setup.bitOrder, setup.unit, setup.pad)
        && adapter.value.maximumRequestBytes == setup.maximumRequestBytes
    {
      var made := NewAdapter(setup.byteOrder, setup.bitOrder, setup.unit, setup.pad, setup.maximumRequestBytes);
      this.t, this.dimensions := t, dimensions;
      this.adapter := if made.Ok? then Some(made.value) else None;
      cache := new RemoteFrameCache();
    }

    /** `set_dimensions`: whatever was cached, what stays cached fits the new viewport. */
    method SetDimensions(size: (u16, u16)) returns (dropped: Option<CachedFrame>)
      requires Valid()
      modifies this, cache
      ensures Valid() && CacheFits() && dimensions == size && picture == old(picture)
      ensures dropped == if old(CacheFitsSize(size)) then None else old(cache.current)
      ensures cache.current == if dropped.Some? then None else old(cache.current)
    {
      hide Faithful, RemoteViewportSize;
      dimensions := size;
      dropped := cache.InvalidateMismatched(RemoteViewportSize(size));
    }

    ghost predicate CacheFitsSize(size: (u16, u16))
      reads cache
    {
      cache.current.Some? ==> (cache.current.value.width, cache.current.value.height) == RemoteViewportSize(size)
    }

    /** `display_remote_frame`: the cache follows successful uploads only, and holds what was uploaded. */
    method DisplayRemoteFrame(r: Received, a: Answers) returns (o: Outcome)
      requires Valid() && Frames.Valid(r.frame)
      modifies this, cache
      ensures Valid() && dimensions == old(dimensions)
      ensures Attempted(adapter, r.frame, a, o)
      ensures if o.shown.Uploaded? then
                && picture == r.frame
                && cache.current == Some(CachedFrame(r.frameId, r.frame.width, r.frame.height,
                                                     Mono1Stride(r.frame.width), o.bitmap.value))
              else cache.current == old(cache.current) && picture == old(picture)
    {
      hide Depicts, BitmapFormat.RowStride, Adapter.Carries, ValidMono1, Chunkable, Chunks;
      if r.frame.format != Mono1 {
        return Outcome(FormatUnsupported, [], None);
      }
      if adapter.None? {
        return Outcome(RenderUnavailable, [], None);
      }
      var prepared := Prepare(t, adapter.value, r.frame.width, r.frame.height, r.frame.pixels);
      if prepared.Err? {
        return Outcome(PrepareFailed, [], None);
      }
      var bitmap := prepared.value;
      ChunkableIsWhole(adapter.value, bitmap);
      var uploaded, requests, _ := Blit(bitmap, (0, 0), a.sends, a.accepts, a.flushes);
      o := Outcome(if uploaded.Ok? then Uploaded(uploaded.value) else UploadFailed(uploaded.error), requests,
                   Some(bitmap));
      if uploaded.Ok? {
        cache.Replace(CachedFrame(r.frameId, r.frame.width, r.frame.height, Stride(Mono1, r.frame.width), bitmap));
        picture := r.frame;
      }
    }

    /** `redraw_cached_frame`, `clears` saying whether the viewport could be cleared: the cached bitmap, all of it,
        in its place. */
    method RedrawCachedFrame(clears: bool, a: Answers) returns (o: Outcome)
      requires Valid()
      ensures if clears && cache.current.Some? then
                && o.bitmap == Some(cache.current.value.bitmap)
                && Faithful(adapter.value, o.bitmap.value, picture) && Issued(o.bitmap.value, a, o.shown, o.requests)
              else o == Outcome(RenderUnavailable, [], None)
    {
      hide Depicts, Adapter.Carries, Chunkable, Chunks;
      if !clears || adapter.None? || cache.current.None? {
        return Outcome(RenderUnavailable, [], None);
      }
      var bitmap := cache.current.value.bitmap;
      ChunkableIsWhole(adapter.value, bitmap);
      var uploaded, requests, _ := Blit(bitmap, (0, 0), a.sends, a.accepts, a.flushes);
      o := Outcome(if uploaded.Ok? then Uploaded(uploaded.value) else UploadFailed(uploaded.error), requests,
                   Some(bitmap));
    }
  }

  lemma ChunkableIsWhole(adapter: Adapter, b: PreparedBitmap)
    requires adapter.Valid() && Chunkable(adapter, b)
    ensures Whole(b)
  {
  }

  /** A viewport starts at the top left of the screen and never exceeds the signed coordinates. */
  lemma ViewportInRange(dimensions: (u16, u16))
    ensures RemoteViewportSize(dimensions).1 <= I16_MAX - SYSTEM_UI_HEIGHT
    ensures NewLayout(dimensions.0, dimensions.1).Some? ==>
      var v := NewLayout(dimensions.0, dimensions.1).value.remoteViewport;
      v.x == 0 && v.y == 0 && (v.width, v.height) == RemoteViewportSize(dimensions)
  {
  }
}
