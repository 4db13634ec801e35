/** Cutting a prepared bitmap into whole-row PutImage requests and issuing them
    (src/x11/framebuffer.rs, `chunks`, `destination_y` and `blit`). */
module X11Upload {
  import opened Machine
  import opened Arithmetic
  import opened Frames
  import opened X11Bitmap

  datatype Chunk = Chunk(yOffset: u16, rows: u16, data: seq<byte>)

  datatype Request = Request(width: u16, rows: u16, x: i16, y: i16, data: seq<byte>)

  datatype BlitError = DestinationOutOfRange | SendFailed(yOffset: u16) | Rejected(yOffset: u16) | FlushFailed

  /** Whole rows, in a buffer of exactly `height` rows. */
  ghost predicate Whole(b: PreparedBitmap) {
    b.stride > 0 && b.rowsPerChunk > 0 && |b.encoded| == RowStart(b.height, b.stride)
  }

  /** `chunks`, from row `first` on; row numbers are truncated to 16 bits as the original casts them. */
  function ChunksFrom(b: PreparedBitmap, first: nat): seq<Chunk>
    requires Whole(b)
    decreases b.height - first
  {
    if first >= b.height then []
    else
      var rows := Min(b.rowsPerChunk, b.height - first);
      var start := RowStart(first, b.stride);
      RowStartAdd(first, rows, b.stride);
      RowStartGrows(first + rows, b.height, b.stride);
      [Chunk(first % 0x1_0000, rows % 0x1_0000, b.encoded[start..start + RowStart(rows, b.stride)])]
      + ChunksFrom(b, first + b.rowsPerChunk)
  }

  function Chunks(b: PreparedBitmap): seq<Chunk>
    requires Whole(b)
  {
    ChunksFrom(b, 0)
  }

  function Flatten(chunks: seq<Chunk>): seq<byte> {
    if chunks == [] then [] else chunks[0].data + Flatten(chunks[1..])
  }

  function TotalRows(chunks: seq<Chunk>): nat {
    if chunks == [] then 0 else chunks[0].rows + TotalRows(chunks[1..])
  }

  /** Length of a request: its header and its data padded to a 4-byte word. */
  function RequestBytes(c: Chunk): nat {
    PUT_IMAGE_REQUEST_HEADER_BYTES + DivCeil(|c.data|, 4) * 4
  }

  /** One chunk is a nonempty run of whole rows of the buffer and fits one request. */
  ghost predicate Fits(adapter: Adapter, b: PreparedBitmap, c: Chunk) {
    && 0 < c.rows && c.yOffset + c.rows <= b.height
    && RowStart(c.yOffset, b.stride) + RowStart(c.rows, b.stride) <= |b.encoded|
    && c.data == b.encoded[RowStart(c.yOffset, b.stride)..][..RowStart(c.rows, b.stride)]
    && RequestBytes(c) <= adapter.maximumRequestBytes
  }

  /** Chunks lie end to end from row `first` to the bottom. */
  ghost predicate Tiles(adapter: Adapter, b: PreparedBitmap, chunks: seq<Chunk>, first: nat) {
    if chunks == [] then first == b.height
    else
      && chunks[0].yOffset == first
      && Fits(adapter, b, chunks[0])
      && Tiles(adapter, b, chunks[1..], first + chunks[0].rows)
  }

  /** The cut is a partition: the data concatenate to the buffer, the row counts add up with nothing
      lost to 16-bit truncation, and every request fits the server's maximum. */
  lemma ChunksPartition(adapter: Adapter, b: PreparedBitmap)
    requires adapter.Valid() && Chunkable(adapter, b)
    ensures Tiles(adapter, b, Chunks(b), 0)
    ensures Flatten(Chunks(b)) == b.encoded
    ensures TotalRows(Chunks(b)) == b.height
  {
    ChunksTile(adapter, b, 0);
    TilesFlatten(adapter, b, Chunks(b), 0);
  }

  lemma {:induction false} ChunksTile(adapter: Adapter, b: PreparedBitmap, first: nat)
    requires adapter.Valid() && Chunkable(adapter, b) && first <= b.height
    ensures Tiles(adapter, b, ChunksFrom(b, first), first)
    decreases b.height - first
  {
    hide RequestBytes, Adapter.MaximumData;
    if first < b.height {
      var chunk := FirstChunkFits(adapter, b, first);
      if first + b.rowsPerChunk <= b.height {
        ChunksTile(adapter, b, first + b.rowsPerChunk);
      }
    }
  }

  lemma FirstChunkFits(adapter: Adapter, b: PreparedBitmap, first: nat) returns (chunk: Chunk)
    requires adapter.Valid() && Chunkable(adapter, b) && first < b.height
    ensures Fits(adapter, b, chunk) && chunk.yOffset == first
    ensures chunk.rows == Min(b.rowsPerChunk, b.height - first)
    ensures ChunksFrom(b, first) == [chunk] + ChunksFrom(b, first + b.rowsPerChunk)
  {
    hide RequestBytes, Adapter.MaximumData, RowStart;
    var rows := Min(b.rowsPerChunk, b.height - first);
    var start := RowStart(first, b.stride);
    ChunkBytes(adapter, b, first, rows);
    chunk := Chunk(first, rows, b.encoded[start..start + RowStart(rows, b.stride)]);
    PaddedFits(chunk, adapter);
    assert chunk.data == b.encoded[start..][..RowStart(rows, b.stride)];
  }

  lemma ChunkBytes(adapter: Adapter, b: PreparedBitmap, first: nat, rows: nat)
    requires adapter.Valid() && Chunkable(adapter, b) && first + rows <= b.height && rows <= b.rowsPerChunk
    ensures RowStart(first + rows, b.stride) == RowStart(first, b.stride) + RowStart(rows, b.stride) <= |b.encoded|
    ensures RowStart(rows, b.stride) <= adapter.MaximumData()
  {
    hide Adapter.MaximumData;
    RowStartAdd(first, rows, b.stride);
    RowStartGrows(first + rows, b.height, b.stride);
    RowStartGrows(rows, b.rowsPerChunk, b.stride);
    hide RowStart;
  }

  lemma PaddedFits(c: Chunk, adapter: Adapter)
    requires adapter.Valid() && |c.data| <= adapter.MaximumData()
    ensures RequestBytes(c) <= adapter.maximumRequestBytes
  {
  }

  lemma {:induction false} TilesFlatten(adapter: Adapter, b: PreparedBitmap, chunks: seq<Chunk>, first: nat)
    requires Whole(b) && Tiles(adapter, b, chunks, first)
    ensures first <= b.height && RowStart(first, b.stride) <= |b.encoded|
    ensures Flatten(chunks) == b.encoded[RowStart(first, b.stride)..]
    ensures TotalRows(chunks) == b.height - first
    decreases |chunks|
  {
    if chunks != [] {
      var c := chunks[0];
      RowStartAdd(first, c.rows, b.stride);
      TilesFlatten(adapter, b, chunks[1..], first + c.rows);
      var start, next := RowStart(first, b.stride), RowStart(first + c.rows, b.stride);
      assert b.encoded[start..] == b.encoded[start..next] + b.encoded[next..];
      assert c.data == b.encoded[start..next];
    }
  }

  /** The chunk holding row y. */
  lemma {:induction false} ChunkOfRow(adapter: Adapter, b: PreparedBitmap, chunks: seq<Chunk>, first: nat, y: nat)
    returns (k: nat)
    requires Tiles(adapter, b, chunks, first) && first <= y < b.height
    ensures k < |chunks| && chunks[k].yOffset <= y < chunks[k].yOffset + chunks[k].rows
    ensures Fits(adapter, b, chunks[k])
    ensures forall j :: 0 <= j < |chunks| && chunks[j].yOffset <= y < chunks[j].yOffset + chunks[j].rows ==> j == k
    decreases |chunks|
  {
    LaterChunks(adapter, b, chunks[1..], first + chunks[0].rows);
    if y < first + chunks[0].rows {
      k := 0;
    } else {
      k := ChunkOfRow(adapter, b, chunks[1..], first + chunks[0].rows, y);
      k := k + 1;
    }
  }

  lemma {:induction false} LaterChunks(adapter: Adapter, b: PreparedBitmap, chunks: seq<Chunk>, first: nat)
    requires Tiles(adapter, b, chunks, first)
    ensures forall c :: c in chunks ==> first <= c.yOffset
    decreases |chunks|
  {
    if chunks != [] {
      LaterChunks(adapter, b, chunks[1..], first + chunks[0].rows);
    }
  }

  /** Every row of the frame is uploaded by exactly one request, and the server, reading that request's
      data in its own layout, sees that row of the frame with its padding clear. */
  lemma EveryRowUploadedOnce(adapter: Adapter, b: PreparedBitmap, pixels: seq<byte>, y: nat) returns (k: nat)
    requires adapter.Valid() && Chunkable(adapter, b) && Depicts(adapter.format, b, pixels) && y < b.height
    ensures k < |Chunks(b)|
    ensures var c := Chunks(b)[k];
      && c.yOffset <= y < c.yOffset + c.rows
      && RowStart(y, Mono1Stride(b.width)) + Mono1Stride(b.width) <= |pixels|
      && RowDone(adapter.format, c.data, RowStart(y - c.yOffset, b.stride), b.stride, b.width, pixels,
                 RowStart(y, Mono1Stride(b.width)))
    ensures forall j :: 0 <= j < |Chunks(b)| && Chunks(b)[j].yOffset <= y < Chunks(b)[j].yOffset + Chunks(b)[j].rows
              ==> j == k
  {
    hide ChunksFrom, Mono1Stride, RowDone, Fits, Depicts;
    ChunksTile(adapter, b, 0);
    k := ChunkOfRow(adapter, b, Chunks(b), 0, y);
    RowInChunk(adapter, b, pixels, Chunks(b)[k], y);
  }

  lemma RowInChunk(adapter: Adapter, b: PreparedBitmap, pixels: seq<byte>, c: Chunk, y: nat)
    requires adapter.Valid() && Chunkable(adapter, b) && Depicts(adapter.format, b, pixels)
    requires Fits(adapter, b, c) && c.yOffset <= y < c.yOffset + c.rows && y < b.height
    ensures RowStart(y, Mono1Stride(b.width)) + Mono1Stride(b.width) <= |pixels|
    ensures RowDone(adapter.format, c.data, RowStart(y - c.yOffset, b.stride), b.stride, b.width, pixels,
                    RowStart(y, Mono1Stride(b.width)))
  {
    hide Mono1Stride, BitmapFormat.RowStride, RowDone, RequestBytes, Adapter.MaximumData;
    NonemptyRow(adapter.format, b.width);
    assert RowAt(adapter.format, b.encoded, b.width, pixels, y);
    RowStartAdd(c.yOffset, y - c.yOffset, b.stride);
    RowsOrdered(y - c.yOffset, c.rows, b.stride);
    hide RowStart;
    SliceReadsSame(adapter.format, b, pixels, c.data, RowStart(c.yOffset, b.stride), RowStart(y - c.yOffset, b.stride),
                   y);
  }

  lemma NonemptyRow(f: BitmapFormat, width: u16)
    ensures f.RowStride(width) > 0 ==> width > 0
  {
  }

  lemma SliceReadsSame(f: BitmapFormat, b: PreparedBitmap, pixels: seq<byte>, data: seq<byte>, origin: nat,
                       start: nat, y: nat)
    requires f.Valid() && b.width > 0 && b.stride == f.RowStride(b.width) && RowAt(f, b.encoded, b.width, pixels, y)
    requires origin + start == RowStart(y, b.stride) && start + b.stride <= |data| && origin + |data| <= |b.encoded|
    requires data == b.encoded[origin..][..|data|]
    ensures RowStart(y, Mono1Stride(b.width)) + Mono1Stride(b.width) <= |pixels|
    ensures RowDone(f, data, start, b.stride, b.width, pixels, RowStart(y, Mono1Stride(b.width)))
  {
    hide BitmapFormat.RowStride, ByteIndex, UnitStart, UnitsPerRow, BitAt;
    StrideFacts(f, b.width);
    var source := RowStart(y, Mono1Stride(b.width));
    forall x: nat | x < 8 * b.stride
      ensures ReadsBack(f, data, start, x, b.width, pixels, source)
    {
      ColumnInRow(f, b.stride, x);
      assert ReadsBack(f, b.encoded, origin + start, x, b.width, pixels, source);
      assert data[start + ByteIndex(f, x)] == b.encoded[origin + start + ByteIndex(f, x)];
    }
  }

  function DestinationY(origin: i16, rowOffset: u16): (r: Result<i16, BlitError>)
    ensures r.Ok? <==> origin + rowOffset <= I16_MAX
    ensures r.Ok? ==> r.value == origin + rowOffset
  {
    var y := origin + rowOffset;
    if y < 0x8000 then Ok(y) else Err(DestinationOutOfRange)
  }

  /** Where a chunk lands on the drawable. */
  function Placed(b: PreparedBitmap, origin: (i16, i16), c: Chunk): Request
    requires origin.1 + c.yOffset <= I16_MAX
  {
    Request(b.width, c.rows, origin.0, origin.1 + c.yOffset, c.data)
  }

  /** The first request the server refuses. */
  predicate FirstRefusal(accepts: nat -> bool, k: nat) {
    !accepts(k) && forall j: nat :: j < k ==> accepts(j)
  }

  /** `blit`: the server's answers are arbitrary. Every issued request is the next chunk in its place,
      every issued request is checked even after a failure, and success means all of them landed. */
  method Blit(b: PreparedBitmap, origin: (i16, i16), sends: nat -> bool, accepts: nat -> bool, flushes: bool)
    returns (r: Result<nat, BlitError>, requests: seq<Request>, checked: nat)
    requires Whole(b)
    ensures |requests| <= |Chunks(b)| && checked == |requests|
    ensures forall k :: 0 <= k < |requests| ==>
      origin.1 + Chunks(b)[k].yOffset <= I16_MAX && requests[k] == Placed(b, origin, Chunks(b)[k])
    ensures |requests| < |Chunks(b)| ==>
      !sends(|requests|) || origin.1 + Chunks(b)[|requests|].yOffset > I16_MAX
    ensures forall k: nat :: k < |requests| ==> sends(k)
    ensures r.Ok? <==>
      |requests| == |Chunks(b)| && flushes && forall k: nat :: k < |requests| ==> accepts(k)
    ensures r.Ok? ==> r.value == |Chunks(b)|
    ensures r == Err(DestinationOutOfRange) <==>
      |requests| < |Chunks(b)| && origin.1 + Chunks(b)[|requests|].yOffset > I16_MAX
    ensures forall y: u16 :: r == Err(SendFailed(y)) <==>
      && |requests| < |Chunks(b)| && origin.1 + Chunks(b)[|requests|].yOffset <= I16_MAX
      && Chunks(b)[|requests|].yOffset == y
    ensures forall y: u16 :: r == Err(Rejected(y)) <==>
      && |requests| == |Chunks(b)|
      && exists k: nat :: k < |requests| && FirstRefusal(accepts, k) && Chunks(b)[k].yOffset == y
    ensures r == Err(FlushFailed) <==>
      |requests| == |Chunks(b)| && !flushes && forall k: nat :: k < |requests| ==> accepts(k)
  {
    hide ChunksFrom;
    var chunks := Chunks(b);
    var firstError: Option<BlitError> := None;
    requests := [];
    while |requests| < |chunks|
      invariant |requests| <= |chunks|
      invariant firstError.None?
      invariant forall k: nat :: k < |requests| ==> sends(k)
      invariant forall k :: 0 <= k < |requests| ==>
        origin.1 + chunks[k].yOffset <= I16_MAX && requests[k] == Placed(b, origin, chunks[k])
    {
      var chunk := chunks[|requests|];
      var y := DestinationY(origin.1, chunk.yOffset);
      if y.Err? {
        firstError := Some(y.error);
        break;
      }
      if !sends(|requests|) {
        firstError := Some(SendFailed(chunk.yOffset));
        break;
      }
      requests := requests + [Request(b.width, chunk.rows, origin.0, y.value, chunk.data)];
    }
    checked := 0;
    while checked < |requests|
      invariant checked <= |requests|
      invariant firstError.None? <==>
        |requests| == |chunks| && forall k: nat :: k < checked ==> accepts(k)
      invariant |requests| < |chunks| ==>
        firstError == if origin.1 + chunks[|requests|].yOffset > I16_MAX then Some(DestinationOutOfRange)
                      else Some(SendFailed(chunks[|requests|].yOffset))
      invariant |requests| == |chunks| && firstError.Some? ==>
        exists k: nat :: k < checked && FirstRefusal(accepts, k) && firstError == Some(Rejected(chunks[k].yOffset))
    {
      if !accepts(checked) && firstError.None? {
        firstError := Some(Rejected(chunks[checked].yOffset));
      }
      checked := checked + 1;
    }
    if !flushes && firstError.None? {
      firstError := Some(FlushFailed);
    }
    r := if firstError.Some? then Err(firstError.value) else Ok(|requests|);
  }

  /** On a drawable that starts at the top, a picture no taller than the coordinate range never leaves it. */
  lemma DestinationsInRange(adapter: Adapter, b: PreparedBitmap, k: nat)
    requires adapter.Valid() && Chunkable(adapter, b) && b.height <= I16_MAX && k < |Chunks(b)|
    ensures Chunks(b)[k].yOffset <= I16_MAX
  {
    ChunksTile(adapter, b, 0);
    TileInside(adapter, b, Chunks(b), 0, k);
  }

  /** A chunk stays inside its picture. */
  lemma ChunkInside(adapter: Adapter, b: PreparedBitmap, k: nat)
    requires adapter.Valid() && Chunkable(adapter, b) && k < |Chunks(b)|
    ensures Chunks(b)[k].yOffset + Chunks(b)[k].rows <= b.height
  {
    ChunksTile(adapter, b, 0);
    TileFits(adapter, b, Chunks(b), 0, k);
  }

  lemma {:induction false} TileFits(adapter: Adapter, b: PreparedBitmap, chunks: seq<Chunk>, first: nat, k: nat)
    requires Tiles(adapter, b, chunks, first) && k < |chunks|
    ensures chunks[k].yOffset + chunks[k].rows <= b.height
    decreases |chunks|
  {
    if k > 0 {
      TileFits(adapter, b, chunks[1..], first + chunks[0].rows, k - 1);
    }
  }

  lemma {:induction false} TileInside(adapter: Adapter, b: PreparedBitmap, chunks: seq<Chunk>, first: nat, k: nat)
    requires Tiles(adapter, b, chunks, first) && k < |chunks|
    ensures chunks[k].yOffset < b.height
    decreases |chunks|
  {
    hide RequestBytes;
    if k > 0 {
      TileInside(adapter, b, chunks[1..], first + chunks[0].rows, k - 1);
    }
  }
}
