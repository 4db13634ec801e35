/** What an X server's window shows after PutImage requests in XYBitmap format, the last request over a pixel
    deciding it (section 9 of the X Window System Protocol). */
module X11Server {
  import opened Machine
  import opened Arithmetic
  import opened Frames
  import opened X11Bitmap
  import opened X11Upload

  predicate Covers(q: Request, x: nat, y: nat) {
    q.x <= x < q.x + q.width && q.y <= y < q.y + q.rows
  }

  /** The pixel a request draws: its data are rows of the server's own layout. */
  predicate Draws(format: BitmapFormat, q: Request, x: nat, y: nat)
    requires format.Valid() && Covers(q, x, y)
  {
    var start := RowStart(y - q.y, format.RowStride(q.width));
    start + ByteIndex(format, x - q.x) < |q.data| && X11Bit(format, q.data, start, x - q.x)
  }

  /** Is the pixel black once the requests, oldest first, have been carried out? */
  predicate Blackened(format: BitmapFormat, requests: seq<Request>, x: nat, y: nat, before: bool)
    requires format.Valid()
  {
    if requests == [] then before
    else
      var n := |requests| - 1;
      if Covers(requests[n], x, y) then Draws(format, requests[n], x, y)
      else Blackened(format, requests[..n], x, y, before)
  }

  /** These requests put the picture in the top left corner of a window, whatever it showed, and nothing else. */
  ghost predicate Shows(format: BitmapFormat, requests: seq<Request>, f: Frame)
    requires format.Valid() && f.format.Mono1?
  {
    forall x: nat, y: nat, before: bool ::
      Blackened(format, requests, x, y, before) <==> if x < f.width && y < f.height then Black(f, x, y) else before
  }

  lemma {:induction false} OnlyRequest(format: BitmapFormat, requests: seq<Request>, x: nat, y: nat, before: bool, k: nat)
    requires format.Valid() && k < |requests| && Covers(requests[k], x, y)
    requires forall j :: 0 <= j < |requests| && Covers(requests[j], x, y) ==> j == k
    ensures Blackened(format, requests, x, y, before) == Draws(format, requests[k], x, y)
    decreases |requests|
  {
    var n := |requests| - 1;
    if k < n {
      assert forall j :: 0 <= j < n ==> requests[..n][j] == requests[j];
      OnlyRequest(format, requests[..n], x, y, before, k);
    }
  }

  lemma {:induction false} NoRequest(format: BitmapFormat, requests: seq<Request>, x: nat, y: nat, before: bool)
    requires format.Valid() && forall j :: 0 <= j < |requests| ==> !Covers(requests[j], x, y)
    ensures Blackened(format, requests, x, y, before) == before
    decreases |requests|
  {
    if requests != [] {
      NoRequest(format, requests[..|requests| - 1], x, y, before);
    }
  }

  /** All chunks of a bitmap, each in its place. */
  ghost predicate AllPlaced(b: PreparedBitmap, requests: seq<Request>)
    requires Whole(b)
  {
    && |requests| == |Chunks(b)|
    && forall k :: 0 <= k < |requests| ==>
         Chunks(b)[k].yOffset <= I16_MAX && requests[k] == Placed(b, (0, 0), Chunks(b)[k])
  }

  /** A complete upload shows the frame the bitmap was prepared from. */
  lemma UploadShows(adapter: Adapter, b: PreparedBitmap, f: Frame, requests: seq<Request>)
    requires adapter.Valid() && Chunkable(adapter, b) && Depicts(adapter.format, b, f.pixels)
    requires f.format.Mono1? && f.width == b.width && f.height == b.height && AllPlaced(b, requests)
    ensures Shows(adapter.format, requests, f)
  {
    hide Depicts, Chunks, AllPlaced, Blackened, Black, Chunkable;
    forall x: nat, y: nat, before: bool
      ensures Blackened(adapter.format, requests, x, y, before) <==>
              if x < f.width && y < f.height then Black(f, x, y) else before
    {
      if x < f.width && y < f.height {
        PixelShown(adapter, b, f, requests, x, y, before);
      } else {
        OutsideKept(adapter, b, requests, x, y, before);
      }
    }
  }

  lemma OutsideKept(adapter: Adapter, b: PreparedBitmap, requests: seq<Request>, x: nat, y: nat, before: bool)
    requires adapter.Valid() && Chunkable(adapter, b) && AllPlaced(b, requests)
    requires x >= b.width || y >= b.height
    ensures Blackened(adapter.format, requests, x, y, before) == before
  {
    hide Blackened, Chunks, RowStart;
    forall k | 0 <= k < |requests|
      ensures !Covers(requests[k], x, y)
    {
      ChunkInside(adapter, b, k);
    }
    NoRequest(adapter.format, requests, x, y, before);
  }

  lemma PixelShown(adapter: Adapter, b: PreparedBitmap, f: Frame, requests: seq<Request>, x: nat, y: nat, before: bool)
    requires adapter.Valid() && Chunkable(adapter, b) && Depicts(adapter.format, b, f.pixels)
    requires f.format.Mono1? && f.width == b.width && f.height == b.height && AllPlaced(b, requests)
    requires x < f.width && y < f.height
    ensures Blackened(adapter.format, requests, x, y, before) <==> Black(f, x, y)
  {
    var k := EveryRowUploadedOnce(adapter, b, f.pixels, y);
    DrawsFrame(adapter, b, f, Chunks(b)[k], x, y);
    hide Blackened, Draws, Chunks, RowDone, Black;
    OnlyRequest(adapter.format, requests, x, y, before, k);
  }

  /** A chunk that reads back draws the frame's pixels. */
  lemma DrawsFrame(adapter: Adapter, b: PreparedBitmap, f: Frame, c: Chunk, x: nat, y: nat)
    requires adapter.Valid() && Chunkable(adapter, b) && Depicts(adapter.format, b, f.pixels)
    requires f.format.Mono1? && f.width == b.width && x < f.width && c.yOffset <= y < c.yOffset + c.rows
    requires RowStart(y, Mono1Stride(b.width)) + Mono1Stride(b.width) <= |f.pixels|
    requires RowDone(adapter.format, c.data, RowStart(y - c.yOffset, b.stride), b.stride, b.width, f.pixels,
                     RowStart(y, Mono1Stride(b.width)))
    requires c.yOffset <= I16_MAX
    ensures Draws(adapter.format, Placed(b, (0, 0), c), x, y) <==> Black(f, x, y)
  {
    hide RowStart, BitAt, X11Bit, ByteIndex, BitmapFormat.RowStride, RowAt;
    StrideFacts(adapter.format, b.width);
    assert ReadsBack(adapter.format, c.data, RowStart(y - c.yOffset, b.stride), x, b.width, f.pixels,
                     RowStart(y, Mono1Stride(b.width)));
  }
}
