/** Re-laying Mono1 frames in an X server's bitmap layout and cutting them into PutImage requests
    (src/x11/framebuffer.rs). The target layout is the one of the X Window System Protocol,
    section 8 "Connection Setup" (image-byte-order and the bitmap-format fields). */
module X11Bitmap {
  import opened Machine
  import opened Arithmetic
  import opened Bits
  import opened Frames

  /** Bytes preceding image data in a core PutImage request. */
  const PUT_IMAGE_REQUEST_HEADER_BYTES := 24

  datatype ImageOrder = LsbFirst | MsbFirst | UnknownOrder(code: byte)

  datatype BitmapFormat = BitmapFormat(byteOrder: ImageOrder, bitOrder: ImageOrder, unitBits: nat, padBits: nat)
  {
    ghost predicate Valid() {
      && !byteOrder.UnknownOrder? && !bitOrder.UnknownOrder?
      && (unitBits == 8 || unitBits == 16 || unitBits == 32)
      && (padBits == 8 || padBits == 16 || padBits == 32)
      && unitBits <= padBits
    }

    /** Bytes per row, one case per supported padding. */
    function RowStride(width: u16): nat {
      if padBits == 8 then DivCeil(width, 8)
      else if padBits == 16 then DivCeil(width, 16) * 2
      else DivCeil(width, 32) * 4
    }

    lemma RowStrideFormula(width: u16)
      requires Valid()
      ensures RowStride(width) == DivCeil(width, padBits) * padBits / 8
    {
      if padBits == 8 {
      } else if padBits == 16 {
      } else {
        assert padBits == 32;
      }
    }
  }

  datatype AdapterError =
    | UnsupportedByteOrder
    | UnsupportedBitOrder
    | UnsupportedUnit(bits: byte)
    | UnsupportedPad(bits: byte)
    | UnitExceedsPad
    | RequestTooSmall
    | InvalidPixels(error: PixelsError)
    | RowExceedsRequest(maximumData: nat, stride: nat)

  datatype Adapter = Adapter(format: BitmapFormat, maximumRequestBytes: nat)
  {
    ghost predicate Valid() {
      format.Valid() && maximumRequestBytes > PUT_IMAGE_REQUEST_HEADER_BYTES
    }

    /** Data bytes one request can carry, rounded down to whole 4-byte words. */
    function MaximumData(): nat
      requires maximumRequestBytes >= PUT_IMAGE_REQUEST_HEADER_BYTES
    {
      (maximumRequestBytes - PUT_IMAGE_REQUEST_HEADER_BYTES) / 4 * 4
    }

    /** Can one PutImage request, its data padded to whole words, carry so many bytes? */
    predicate Carries(data: nat) {
      PUT_IMAGE_REQUEST_HEADER_BYTES + DivCeil(data, 4) * 4 <= maximumRequestBytes
    }

    lemma CarriesExact(data: nat)
      requires maximumRequestBytes >= PUT_IMAGE_REQUEST_HEADER_BYTES
      ensures Carries(data) <==> data <= MaximumData()
    {
    }
  }

  datatype PreparedBitmap =
    PreparedBitmap(width: u16, height: u16, stride: nat, rowsPerChunk: nat, encoded: seq<byte>)

  function NewFormat(byteOrder: ImageOrder, bitOrder: ImageOrder, unit: byte, pad: byte)
    : (r: Result<BitmapFormat, AdapterError>)
    ensures r.Ok? <==> BitmapFormat(byteOrder, bitOrder, unit, pad).Valid()
    ensures r.Ok? ==> r.value == BitmapFormat(byteOrder, bitOrder, unit, pad)
  {
    if byteOrder.UnknownOrder? then Err(UnsupportedByteOrder)
    else if bitOrder.UnknownOrder? then Err(UnsupportedBitOrder)
    else if unit != 8 && unit != 16 && unit != 32 then Err(UnsupportedUnit(unit))
    else if pad != 8 && pad != 16 && pad != 32 then Err(UnsupportedPad(pad))
    else if unit > pad then Err(UnitExceedsPad)
    else Ok(BitmapFormat(byteOrder, bitOrder, unit, pad))
  }

  function NewAdapter(byteOrder: ImageOrder, bitOrder: ImageOrder, unit: byte, pad: byte, maximumRequestBytes: nat)
    : (r: Result<Adapter, AdapterError>)
    ensures r.Ok? <==>
      BitmapFormat(byteOrder, bitOrder, unit, pad).Valid() && maximumRequestBytes > PUT_IMAGE_REQUEST_HEADER_BYTES
    ensures r.Ok? ==>
      r.value.Valid() && r.value == Adapter(BitmapFormat(byteOrder, bitOrder, unit, pad), maximumRequestBytes)
  {
    match NewFormat(byteOrder, bitOrder, unit, pad)
    case Err(e) => Err(e)
    case Ok(format) =>
      if maximumRequestBytes <= PUT_IMAGE_REQUEST_HEADER_BYTES then Err(RequestTooSmall)
      else Ok(Adapter(format, maximumRequestBytes))
  }

  // ---------- The X protocol's reading of a bitmap row ----------

  /** Scanline unit that holds column x. */
  function UnitOf(f: BitmapFormat, x: nat): nat
    requires f.Valid()
  {
    if f.unitBits == 8 then x / 8 else if f.unitBits == 16 then x / 16 else x / 32
  }

  /** Distance of column x from the left edge of its unit. */
  function OffsetOf(f: BitmapFormat, x: nat): (o: nat)
    requires f.Valid()
    ensures o < f.unitBits
  {
    if f.unitBits == 8 then x % 8 else if f.unitBits == 16 then x % 16 else x % 32
  }

  /** Column at a distance from the left edge of a unit. */
  function ColumnOf(f: BitmapFormat, unit: nat, offset: nat): (x: nat)
    requires f.Valid() && offset < f.unitBits
    ensures UnitOf(f, x) == unit && OffsetOf(f, x) == offset
  {
    (if f.unitBits == 8 then 8 * unit else if f.unitBits == 16 then 16 * unit else 32 * unit) + offset
  }

  /** First byte of a unit within its row. */
  function UnitStart(f: BitmapFormat, unit: nat): nat
    requires f.Valid()
  {
    if f.unitBits == 8 then unit else if f.unitBits == 16 then 2 * unit else 4 * unit
  }

  /** `stride / unit_bytes` */
  function UnitsPerRow(f: BitmapFormat, stride: nat): nat
    requires f.Valid()
  {
    if f.unitBits == 8 then stride else if f.unitBits == 16 then stride / 2 else stride / 4
  }

  /** Significance, within its scanline unit, of the pixel `offset` places from the unit's left edge. */
  function Significance(f: BitmapFormat, offset: nat): nat
    requires offset < f.unitBits
  {
    if f.bitOrder == LsbFirst then offset else f.unitBits - 1 - offset
  }

  /** Place, among the bytes of a unit, of the byte holding the digits of significance 8k..8k+7. */
  function BytePlace(f: BitmapFormat, k: nat): nat
    requires k < f.unitBits / 8
  {
    if f.byteOrder == LsbFirst then k else f.unitBits / 8 - 1 - k
  }

  /** Byte of the row that holds column x. */
  function ByteIndex(f: BitmapFormat, x: nat): nat
    requires f.Valid()
  {
    UnitStart(f, UnitOf(f, x)) + BytePlace(f, Significance(f, OffsetOf(f, x)) / 8)
  }

  /** The pixel a server reads at column x of the row starting at `start`. */
  predicate X11Bit(f: BitmapFormat, bytes: seq<byte>, start: nat, x: nat)
    requires f.Valid()
    requires start + ByteIndex(f, x) < |bytes|
  {
    Bit(bytes[start + ByteIndex(f, x)], Significance(f, OffsetOf(f, x)) % 8)
  }

  lemma StrideFacts(f: BitmapFormat, width: u16)
    requires f.Valid() && width > 0
    ensures var s := f.RowStride(width);
            && 0 < s <= 8192
            && UnitStart(f, UnitsPerRow(f, s)) == s
            && width <= 8 * s < width + f.padBits
  {
    PaddedStride(f, width);
    hide BitmapFormat.RowStride;
    var s := f.RowStride(width);
    if f.unitBits == 16 {
      assert s % 2 == 0;
    } else if f.unitBits == 32 {
      assert s % 4 == 0;
    }
  }

  /** A row is the least number of whole pads that holds the width. */
  lemma PaddedStride(f: BitmapFormat, width: u16)
    requires f.Valid() && width > 0
    ensures var s := f.RowStride(width);
            && 0 < s <= 8192 && width <= 8 * s < width + f.padBits
            && (f.padBits >= 16 ==> s % 2 == 0) && (f.padBits == 32 ==> s % 4 == 0)
  {
    if f.padBits == 8 {
      Bytes8(width);
    } else if f.padBits == 16 {
      Bytes16(width);
    } else {
      Bytes32(width);
    }
    hide DivCeil;
  }

  lemma Bytes8(width: u16)
    ensures width <= 8 * DivCeil(width, 8) < width + 8
  {
  }

  lemma Bytes16(width: u16)
    ensures width <= 16 * DivCeil(width, 16) < width + 16
  {
  }

  lemma Bytes32(width: u16)
    ensures width <= 32 * DivCeil(width, 32) < width + 32
  {
  }

  /** The pixel column x of a source row should have: the wire pixel, or white beyond the width. */
  predicate Wanted(width: u16, pixels: seq<byte>, source: nat, x: nat)
    requires source + Mono1Stride(width) <= |pixels|
  {
    x < width && BitAt(pixels, source, x)
  }

  /** Column x of the encoded row at `start` reads back as the source row at `source`. */
  ghost predicate ReadsBack(f: BitmapFormat, bytes: seq<byte>, start: nat, x: nat, width: u16, pixels: seq<byte>,
                            source: nat)
    requires f.Valid() && source + Mono1Stride(width) <= |pixels|
  {
    && start + ByteIndex(f, x) < |bytes|
    && (X11Bit(f, bytes, start, x) <==> Wanted(width, pixels, source, x))
  }

  ghost predicate UnitDone(f: BitmapFormat, bytes: seq<byte>, start: nat, unit: nat, width: u16, pixels: seq<byte>,
                           source: nat)
    requires f.Valid() && source + Mono1Stride(width) <= |pixels|
  {
    forall x: nat :: UnitOf(f, x) == unit ==> ReadsBack(f, bytes, start, x, width, pixels, source)
  }

  ghost predicate RowDone(f: BitmapFormat, bytes: seq<byte>, start: nat, stride: nat, width: u16, pixels: seq<byte>,
                          source: nat)
    requires f.Valid() && source + Mono1Stride(width) <= |pixels|
  {
    forall x: nat :: x < 8 * stride ==> ReadsBack(f, bytes, start, x, width, pixels, source)
  }

  /** Row y of a buffer reads back as row y of the frame, with every pad bit clear. */
  ghost predicate RowAt(f: BitmapFormat, bytes: seq<byte>, width: u16, pixels: seq<byte>, y: nat)
    requires f.Valid()
  {
    var source := RowStart(y, Mono1Stride(width));
    source + Mono1Stride(width) <= |pixels| &&
    RowDone(f, bytes, RowStart(y, f.RowStride(width)), f.RowStride(width), width, pixels, source)
  }

  /** A server reading the buffer sees exactly the Mono1 frame. */
  ghost predicate Depicts(f: BitmapFormat, b: PreparedBitmap, pixels: seq<byte>)
    requires f.Valid()
  {
    && b.stride == f.RowStride(b.width)
    && |b.encoded| == RowStart(b.height, b.stride)
    && forall y: nat :: y < b.height ==> RowAt(f, b.encoded, b.width, pixels, y)
  }

  // ---------- Encoding ----------

  /** Place in the unit of the pixel `k` places from its left edge, and the other way round. */
  function Mirror(unitBits: nat, bitOrder: ImageOrder, k: nat): nat
    requires k < unitBits
  {
    if bitOrder == LsbFirst then k else unitBits - 1 - k
  }

  /** The first `offset` pixels of the unit are in, and nothing else. */
  ghost predicate UnitHolds(acc: nat, pixels: seq<byte>, source: nat, width: u16, first: nat, unitBits: nat,
                            bitOrder: ImageOrder, offset: nat)
    requires source + Mono1Stride(width) <= |pixels|
  {
    forall k: nat :: k < unitBits ==>
      var o := Mirror(unitBits, bitOrder, k);
      (Bit(acc, k) <==> o < offset && Wanted(width, pixels, source, first + o))
  }

  /** One pixel more, its digit set if it is wanted. */
  lemma UnitHoldsMore(acc: nat, pixels: seq<byte>, source: nat, width: u16, first: nat, unitBits: nat,
                      bitOrder: ImageOrder, offset: nat)
    requires source + Mono1Stride(width) <= |pixels| && offset < unitBits
    requires UnitHolds(acc, pixels, source, width, first, unitBits, bitOrder, offset)
    ensures var next := if Wanted(width, pixels, source, first + offset)
                        then SetBit(acc, Mirror(unitBits, bitOrder, offset)) else acc;
            UnitHolds(next, pixels, source, width, first, unitBits, bitOrder, offset + 1)
  {
    hide Bit, SetBit, Wanted, Mono1Stride;
    var destination := Mirror(unitBits, bitOrder, offset);
    forall k: nat
      ensures Bit(SetBit(acc, destination), k) <==> k == destination || Bit(acc, k)
    {
      BitOfSetBit(acc, destination, k);
    }
  }

  method EncodeUnit(pixels: seq<byte>, source: nat, width: u16, first: nat, unitBits: nat, bitOrder: ImageOrder)
    returns (encoded: u32)
    requires source + Mono1Stride(width) <= |pixels|
    requires 0 < unitBits <= 32 && !bitOrder.UnknownOrder?
    ensures forall k: nat :: k < unitBits ==>
      (Bit(encoded, k) <==> Wanted(width, pixels, source, first + Mirror(unitBits, bitOrder, k)))
  {
    var acc: nat := 0;
    U32Range(unitBits);
    forall k: nat
      ensures !Bit(0, k)
    {
      ZeroHasNoBits(k);
    }
    hide Bit, SetBit, Pow2, Mono1Stride;
    for offset := 0 to unitBits
      invariant acc < Pow2(unitBits)
      invariant UnitHolds(acc, pixels, source, width, first, unitBits, bitOrder, offset)
    {
      hide UnitHolds, Wanted;
      UnitHoldsMore(acc, pixels, source, width, first, unitBits, bitOrder, offset);
      if !Wanted(width, pixels, source, first + offset) {
        continue;
      }
      var destination := if bitOrder == LsbFirst then offset else unitBits - 1 - offset;
      SetBitBound(acc, destination, unitBits);
      acc := SetBit(acc, destination);
    }
    encoded := acc;
  }

  lemma {:induction false} Pow2Monotone(m: nat, n: nat)
    requires m <= n
    ensures 0 < Pow2(m) <= Pow2(n)
    decreases n
  {
    if n > 0 {
      Pow2Monotone(Max(m - 1, 0), n - 1);
    }
  }

  lemma U32Range(n: nat)
    requires n <= 32
    ensures 0 < Pow2(n) <= 0x1_0000_0000
  {
    Pow2Monotone(n, 32);
    ByteRange();
    assert Pow2(12) == 16 * Pow2(8);
    assert Pow2(16) == 16 * Pow2(12);
    assert Pow2(20) == 16 * Pow2(16);
    assert Pow2(24) == 16 * Pow2(20);
    assert Pow2(28) == 16 * Pow2(24);
    assert Pow2(32) == 16 * Pow2(28);
  }

  /** Byte `index` of a unit of `count` bytes. */
  function UnitByte(unit: u32, count: nat, byteOrder: ImageOrder, index: nat): byte
    requires index < count
  {
    Octet(unit, (if byteOrder == LsbFirst then index else count - 1 - index) * 8)
  }

  method WriteUnit(unit: u32, destination: array<byte>, start: nat, count: nat, byteOrder: ImageOrder)
    requires start + count <= destination.Length && !byteOrder.UnknownOrder?
    modifies destination
    ensures forall i: nat :: start <= i < start + count ==>
      destination[i] == UnitByte(unit, count, byteOrder, i - start)
    ensures forall i: nat :: i < start || start + count <= i < destination.Length ==>
      destination[i] == old(destination[i])
  {
    for index := 0 to count
      invariant forall i: nat :: start <= i < start + index ==>
        destination[i] == UnitByte(unit, count, byteOrder, i - start)
      invariant forall i: nat :: i < start || start + count <= i < destination.Length ==>
        destination[i] == old(destination[i])
    {
      var significance := if byteOrder == LsbFirst then index else count - 1 - index;
      destination[start + index] := Octet(unit, significance * 8);
    }
  }

  /** What the two encoders put in a unit's bytes is what the protocol reads from them. */
  lemma UnitReadsBack(f: BitmapFormat, value: u32, bytes: seq<byte>, start: nat, unit: nat, width: u16,
                      pixels: seq<byte>, source: nat)
    requires f.Valid() && source + Mono1Stride(width) <= |pixels|
    requires start + UnitStart(f, unit) + f.unitBits / 8 <= |bytes|
    requires forall k: nat :: k < f.unitBits ==>
      (Bit(value, k) <==>
       Wanted(width, pixels, source, ColumnOf(f, unit, 0) + (if f.bitOrder == LsbFirst then k else f.unitBits - 1 - k)))
    requires forall i: nat :: start + UnitStart(f, unit) <= i < start + UnitStart(f, unit) + f.unitBits / 8 ==>
      bytes[i] == UnitByte(value, f.unitBits / 8, f.byteOrder, i - start - UnitStart(f, unit))
    ensures UnitDone(f, bytes, start, unit, width, pixels, source)
  {
    hide Bit, UnitByte, BitAt;
    forall x: nat | UnitOf(f, x) == unit
      ensures ReadsBack(f, bytes, start, x, width, pixels, source)
    {
      var offset := OffsetOf(f, x);
      assert x == ColumnOf(f, unit, 0) + offset;
      assert Bit(value, Significance(f, offset)) <==> Wanted(width, pixels, source, x);
      DigitStored(f, value, bytes, start + UnitStart(f, unit), offset);
    }
  }

  /** The digit of a pixel is found in the byte and place the protocol assigns to it. */
  lemma DigitStored(f: BitmapFormat, value: u32, bytes: seq<byte>, base: nat, offset: nat)
    requires f.Valid() && offset < f.unitBits
    requires base + f.unitBits / 8 <= |bytes|
    requires forall i: nat :: base <= i < base + f.unitBits / 8 ==>
      bytes[i] == UnitByte(value, f.unitBits / 8, f.byteOrder, i - base)
    ensures var s := Significance(f, offset);
            Bit(bytes[base + BytePlace(f, s / 8)], s % 8) <==> Bit(value, s)
  {
    hide Bit, Octet;
    var s := Significance(f, offset);
    BitOfOctet(value, 8 * (s / 8), s % 8);
  }

  lemma UnitKept(f: BitmapFormat, before: seq<byte>, after: seq<byte>, start: nat, unit: nat, limit: nat,
                 width: u16, pixels: seq<byte>, source: nat)
    requires f.Valid() && source + Mono1Stride(width) <= |pixels| && |before| == |after|
    requires unit < limit
    requires forall i: nat :: start <= i < start + UnitStart(f, limit) && i < |before| ==> before[i] == after[i]
    requires UnitDone(f, before, start, unit, width, pixels, source)
    ensures UnitDone(f, after, start, unit, width, pixels, source)
  {
    hide Bit, BitAt;
    forall x: nat | UnitOf(f, x) == unit
      ensures ReadsBack(f, after, start, x, width, pixels, source)
    {
      assert ReadsBack(f, before, start, x, width, pixels, source);
      assert ByteIndex(f, x) < UnitStart(f, limit);
    }
  }

  lemma UnitBytes(f: BitmapFormat, unit: nat)
    requires f.Valid()
    ensures UnitsPerRow(f, unit) == unit / (f.unitBits / 8)
    ensures unit * (f.unitBits / 8) == UnitStart(f, unit)
    ensures unit * f.unitBits == ColumnOf(f, unit, 0)
  {
    if f.unitBits == 8 {
    } else if f.unitBits == 16 {
    } else {
      assert f.unitBits == 32;
    }
  }

  /** The inner loop of `prepare`: one encoded row, in place. */
  method EncodeRow(f: BitmapFormat, width: u16, pixels: seq<byte>, source: nat, encoded: array<byte>, start: nat)
    requires f.Valid() && width > 0 && source + Mono1Stride(width) <= |pixels|
    requires start + f.RowStride(width) <= encoded.Length
    modifies encoded
    ensures RowDone(f, encoded[..], start, f.RowStride(width), width, pixels, source)
    ensures forall i: nat :: i < start || start + f.RowStride(width) <= i < encoded.Length ==>
      encoded[i] == old(encoded[i])
  {
    hide Bit, BitAt, UnitByte;
    var stride := f.RowStride(width);
    var unitBytes := f.unitBits / 8;
    var unitsPerRow := stride / unitBytes;
    StrideFacts(f, width);
    UnitBytes(f, stride);
    for unit := 0 to unitsPerRow
      invariant forall v: nat :: v < unit ==> UnitDone(f, encoded[..], start, v, width, pixels, source)
      invariant forall i: nat :: i < start || start + stride <= i < encoded.Length ==>
        encoded[i] == old(encoded[i])
    {
      ghost var before := encoded[..];
      UnitBytes(f, unit);
      UnitBytes(f, unit + 1);
      var value := EncodeUnit(pixels, source, width, unit * f.unitBits, f.unitBits, f.bitOrder);
      WriteUnit(value, encoded, start + unit * unitBytes, unitBytes, f.byteOrder);
      UnitReadsBack(f, value, encoded[..], start, unit, width, pixels, source);
      forall v: nat | v < unit
        ensures UnitDone(f, encoded[..], start, v, width, pixels, source)
      {
        UnitKept(f, before, encoded[..], start, v, unit, width, pixels, source);
      }
    }
    forall x: nat | x < 8 * stride
      ensures ReadsBack(f, encoded[..], start, x, width, pixels, source)
    {
      assert UnitDone(f, encoded[..], start, UnitOf(f, x), width, pixels, source);
    }
  }

  /** A row of whole units holds every column below eight times its length. */
  lemma ColumnInRow(f: BitmapFormat, stride: nat, x: nat)
    requires f.Valid() && UnitStart(f, UnitsPerRow(f, stride)) == stride && x < 8 * stride
    ensures ByteIndex(f, x) < stride
  {
    UnitInRow(f, stride, x);
    hide UnitStart, UnitsPerRow, UnitOf;
    assert BytePlace(f, Significance(f, OffsetOf(f, x)) / 8) < f.unitBits / 8;
  }

  lemma UnitInRow(f: BitmapFormat, stride: nat, x: nat)
    requires f.Valid() && UnitStart(f, UnitsPerRow(f, stride)) == stride && x < 8 * stride
    ensures UnitStart(f, UnitOf(f, x)) + f.unitBits / 8 <= stride
  {
    if f.unitBits == 8 {
    } else if f.unitBits == 16 {
      assert x / 16 < stride / 2;
    } else {
      assert x / 32 < stride / 4;
    }
  }

  lemma RowKept(f: BitmapFormat, before: seq<byte>, after: seq<byte>, start: nat, stride: nat, width: u16,
                pixels: seq<byte>, source: nat)
    requires f.Valid() && source + Mono1Stride(width) <= |pixels| && |before| == |after|
    requires UnitStart(f, UnitsPerRow(f, stride)) == stride
    requires forall i: nat :: start <= i < start + stride && i < |before| ==> before[i] == after[i]
    requires RowDone(f, before, start, stride, width, pixels, source)
    ensures RowDone(f, after, start, stride, width, pixels, source)
  {
    hide Bit, BitAt, ByteIndex, UnitStart, UnitsPerRow;
    forall x: nat | x < 8 * stride
      ensures ReadsBack(f, after, start, x, width, pixels, source)
    {
      ColumnInRow(f, stride, x);
      assert ReadsBack(f, before, start, x, width, pixels, source);
    }
  }

  /** The row loop of `prepare`. */
  method EncodeRows(f: BitmapFormat, width: u16, height: u16, pixels: seq<byte>) returns (encoded: array<byte>)
    requires f.Valid() && ValidMono1(width, height, pixels)
    ensures fresh(encoded) && encoded.Length == RowStart(height, f.RowStride(width))
    ensures forall y: nat :: y < height ==> RowAt(f, encoded[..], width, pixels, y)
  {
    hide Bit, RowDone, WhitePadding, DivCeil;
    var sourceStride, stride := Mono1Stride(width), f.RowStride(width);
    encoded := new byte[RowStart(height, stride)](_ => 0);
    for row := 0 to height
      invariant forall y: nat :: y < row ==> RowAt(f, encoded[..], width, pixels, y)
    {
      ghost var before := encoded[..];
      RowsOrdered(row, height, sourceStride);
      RowsOrdered(row, height, stride);
      EncodeRow(f, width, pixels, RowStart(row, sourceStride), encoded, RowStart(row, stride));
      forall y: nat | y < row
        ensures RowAt(f, encoded[..], width, pixels, y)
      {
        RowAtKept(f, before, encoded[..], width, pixels, y, row);
      }
    }
  }

  /** `prepare`: fails exactly when the frame is not a valid Mono1 frame or one row exceeds a request,
      and otherwise yields a buffer the server reads back as the frame. */
  method Prepare(t: Target, adapter: Adapter, width: u16, height: u16, pixels: seq<byte>)
    returns (r: Result<PreparedBitmap, AdapterError>)
    requires adapter.Valid()
    ensures r.Ok? <==> ValidMono1(width, height, pixels) && adapter.Carries(adapter.format.RowStride(width))
    ensures r.Ok? ==>
      && r.value.width == width && r.value.height == height
      && Depicts(adapter.format, r.value, pixels)
      && Chunkable(adapter, r.value)
      && |r.value.encoded| <= t.IsizeMax()
  {
    hide ValidateMono1, RowAt, ValidMono1, RowsThatFit, BitmapFormat.RowStride, UnitStart, Adapter.Carries,
         Adapter.MaximumData;
    ValidateIsValid(t, Mono1, width, height, pixels);
    var checked := Validate(t, Mono1, width, height, pixels);
    if checked.Err? {
      return Err(InvalidPixels(checked.error));
    }
    ValidSides(width, height, pixels);
    var f := adapter.format;
    var stride := f.RowStride(width);
    StrideFacts(f, width);
    var maximumData := adapter.MaximumData();
    var rowsPerChunk := RowsThatFit(maximumData, stride);
    RowsThatFitBounds(maximumData, stride);
    adapter.CarriesExact(stride);
    adapter.CarriesExact(RowStart(rowsPerChunk + 1, stride));
    if rowsPerChunk == 0 {
      return Err(RowExceedsRequest(maximumData, stride));
    }
    rowsPerChunk := Min(rowsPerChunk, U16_MAX);
    BufferFits(stride, height);
    var encoded := EncodeRows(f, width, height, pixels);
    r := Ok(PreparedBitmap(width, height, stride, rowsPerChunk, encoded[..]));
  }

  /** A chunk of `rowsPerChunk` rows is nonempty, countable in 16 bits, and fits a request; one more row would
      not. */
  ghost predicate Chunkable(adapter: Adapter, b: PreparedBitmap)
    requires adapter.Valid()
  {
    && b.stride > 0
    && 0 < b.rowsPerChunk <= U16_MAX
    && RowStart(b.rowsPerChunk, b.stride) <= adapter.MaximumData()
    && (b.rowsPerChunk < U16_MAX ==> !adapter.Carries(RowStart(b.rowsPerChunk + 1, b.stride)))
    && |b.encoded| == RowStart(b.height, b.stride)
  }

  lemma ValidSides(width: u16, height: u16, pixels: seq<byte>)
    requires ValidMono1(width, height, pixels)
    ensures width > 0 && height > 0
  {
  }

  function RowsThatFit(maximumData: nat, stride: nat): nat
    requires stride > 0
  {
    maximumData / stride
  }

  lemma RowsThatFitBounds(maximumData: nat, stride: nat)
    requires stride > 0
    ensures RowsThatFit(maximumData, stride) > 0 <==> stride <= maximumData
    ensures forall n: nat :: n <= RowsThatFit(maximumData, stride) ==> RowStart(n, stride) <= maximumData
    ensures RowStart(RowsThatFit(maximumData, stride) + 1, stride) > maximumData
  {
    var fit := RowsThatFit(maximumData, stride);
    RowStartIsProduct(fit, stride);
    forall n: nat | n <= fit
      ensures RowStart(n, stride) <= maximumData
    {
      RowStartIsProduct(n, stride);
      ProductMonotone(n, fit, stride, stride);
    }
  }

  lemma BufferFits(stride: nat, height: u16)
    requires stride <= 8192
    ensures RowStart(height, stride) <= 0x7FFF_FFFF
  {
    RowStartIsProduct(height, stride);
    ProductMonotone(height, U16_MAX, stride, 8192);
  }

  lemma RowAtKept(f: BitmapFormat, before: seq<byte>, after: seq<byte>, width: u16, pixels: seq<byte>, y: nat, row: nat)
    requires f.Valid() && width > 0 && |before| == |after| && y < row
    requires forall i: nat :: i < RowStart(row, f.RowStride(width)) && i < |before| ==> before[i] == after[i]
    requires RowAt(f, before, width, pixels, y)
    ensures RowAt(f, after, width, pixels, y)
  {
    var stride := f.RowStride(width);
    StrideFacts(f, width);
    RowsOrdered(y, row, stride);
    RowKept(f, before, after, RowStart(y, stride), stride, width, pixels, RowStart(y, Mono1Stride(width)));
  }

  // ---------- Agreement of byte order and bit order ----------

  /** When the two orders agree, a column's place depends on neither the unit nor the pad. */
  lemma AgreedPlace(f: BitmapFormat, x: nat)
    requires f.Valid() && f.byteOrder == f.bitOrder
    ensures ByteIndex(f, x) == x / 8
    ensures Significance(f, OffsetOf(f, x)) % 8 == if f.bitOrder == LsbFirst then x % 8 else 7 - x % 8
  {
    if f.unitBits == 8 {
    } else if f.unitBits == 16 {
    } else {
      assert f.unitBits == 32;
    }
  }

  /** A byte read under agreeing orders, digit by digit. */
  lemma AgreedDigit(f: BitmapFormat, bytes: seq<byte>, start: nat, stride: nat, width: u16, pixels: seq<byte>,
                    source: nat, c: nat, j: nat)
    requires f.Valid() && f.byteOrder == f.bitOrder && source + Mono1Stride(width) <= |pixels|
    requires RowDone(f, bytes, start, stride, width, pixels, source)
    requires c < stride && j < 8
    ensures start + c < |bytes|
    ensures Bit(bytes[start + c], j) <==>
            Wanted(width, pixels, source, 8 * c + (if f.bitOrder == LsbFirst then j else 7 - j))
  {
    var x := 8 * c + (if f.bitOrder == LsbFirst then j else 7 - j);
    AgreedPlace(f, x);
    assert ReadsBack(f, bytes, start, x, width, pixels, source);
  }

  /** Two readings of one source row under the same agreeing orders share every byte. */
  lemma AgreedByte(f: BitmapFormat, g: BitmapFormat, a: seq<byte>, b: seq<byte>, start: nat, stride: nat, width: u16,
                   pixels: seq<byte>, source: nat, c: nat)
    requires f.Valid() && g.Valid() && f.byteOrder == f.bitOrder == g.byteOrder == g.bitOrder
    requires source + Mono1Stride(width) <= |pixels| && c < stride
    requires RowDone(f, a, start, stride, width, pixels, source)
    requires RowDone(g, b, start, stride, width, pixels, source)
    ensures start + c < |a| && start + c < |b| && a[start + c] == b[start + c]
  {
    AgreedDigit(f, a, start, stride, width, pixels, source, c, 0);
    AgreedDigit(g, b, start, stride, width, pixels, source, c, 0);
    var u, v := a[start + c], b[start + c];
    forall j: nat | j < 8
      ensures Bit(u, j) <==> Bit(v, j)
    {
      AgreedDigit(f, a, start, stride, width, pixels, source, c, j);
      AgreedDigit(g, b, start, stride, width, pixels, source, c, j);
    }
    SameByte(u, v);
  }

  /** With byte order equal to bit order, the scanline unit does not affect the prepared bytes. */
  lemma UnitIndependent(f: BitmapFormat, g: BitmapFormat, a: PreparedBitmap, b: PreparedBitmap, pixels: seq<byte>)
    requires f.Valid() && g.Valid() && f.byteOrder == f.bitOrder && g == f.(unitBits := g.unitBits)
    requires a.width == b.width && a.height == b.height && ValidMono1(a.width, a.height, pixels)
    requires Depicts(f, a, pixels) && Depicts(g, b, pixels)
    ensures a.encoded == b.encoded
  {
    assert f.RowStride(a.width) == g.RowStride(a.width);
    forall i: nat | i < |a.encoded|
      ensures a.encoded[i] == b.encoded[i]
    {
      var y, c := SplitOffset(i, a.stride, a.height);
      assert RowAt(f, a.encoded, a.width, pixels, y) && RowAt(g, b.encoded, b.width, pixels, y);
      AgreedByte(f, g, a.encoded, b.encoded, RowStart(y, a.stride), a.stride, a.width, pixels, RowStart(y,
          Mono1Stride(a.width)), c);
    }
  }

  /** A server using the wire's own layout receives the wire's own bytes. */
  lemma WireLayoutIsIdentity(f: BitmapFormat, b: PreparedBitmap, pixels: seq<byte>)
    requires f.Valid() && f.byteOrder == f.bitOrder == MsbFirst && f.padBits == 8
    requires ValidMono1(b.width, b.height, pixels) && Depicts(f, b, pixels)
    ensures b.encoded == pixels
  {
    assert f.RowStride(b.width) == Mono1Stride(b.width);
    forall i: nat | i < |b.encoded|
      ensures b.encoded[i] == pixels[i]
    {
      var y, c := SplitOffset(i, b.stride, b.height);
      assert WhitePadding(b.width, pixels, y) && RowAt(f, b.encoded, b.width, pixels, y);
      WireByte(f, b.encoded, RowStart(y, b.stride), b.width, pixels, c);
    }
  }

  lemma WireByte(f: BitmapFormat, bytes: seq<byte>, start: nat, width: u16, pixels: seq<byte>, c: nat)
    requires f.Valid() && f.byteOrder == f.bitOrder == MsbFirst && width > 0
    requires start + Mono1Stride(width) <= |pixels| && c < Mono1Stride(width)
    requires RowDone(f, bytes, start, Mono1Stride(width), width, pixels, start)
    requires forall x: nat :: width <= x < 8 * Mono1Stride(width) ==> !BitAt(pixels, start, x)
    ensures start + c < |bytes| && bytes[start + c] == pixels[start + c]
  {
    AgreedDigit(f, bytes, start, Mono1Stride(width), width, pixels, start, c, 0);
    var u, v := bytes[start + c], pixels[start + c];
    forall j: nat | j < 8
      ensures Bit(u, j) <==> Bit(v, j)
    {
      AgreedDigit(f, bytes, start, Mono1Stride(width), width, pixels, start, c, j);
      WireDigit(width, pixels, start, c, j);
    }
    SameByte(u, v);
  }

  lemma WireDigit(width: u16, pixels: seq<byte>, start: nat, c: nat, j: nat)
    requires width > 0 && start + Mono1Stride(width) <= |pixels| && c < Mono1Stride(width) && j < 8
    requires forall x: nat :: width <= x < 8 * Mono1Stride(width) ==> !BitAt(pixels, start, x)
    ensures Wanted(width, pixels, start, 8 * c + (7 - j)) <==> Bit(pixels[start + c], j)
  {
    var x := 8 * c + (7 - j);
    assert x / 8 == c && 7 - x % 8 == j;
    assert x >= width ==> !BitAt(pixels, start, x);
  }
}
