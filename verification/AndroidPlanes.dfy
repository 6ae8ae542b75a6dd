/** The Android encoder's plane copies: camera planes at any row and pixel stride, to I420, to NV12. */
module AndroidPlanes {

  import opened Protocol
  import opened PixelLayouts

  /** A plane as its buffer stands: the first sample is at `start`. */
  datatype PlaneView = PlaneView(bytes: seq<U8>, start: nat, rowStride: nat, pixelStride: nat)

  /** The bytes one row takes up, from its first sample to its last. */
  function RowLength(pixelStride: nat, width: nat): int {
    if pixelStride == 1 then width else (width - 1) * pixelStride + 1
  }

  /** The camera's promise: every row fits its stride, and the buffer holds all rows. The last row may end
      before a full stride. */
  predicate Holds(p: PlaneView, width: nat, rows: nat) {
    && p.pixelStride >= 1
    && (rows > 0 ==> && 0 <= RowLength(p.pixelStride, width) <= p.rowStride
                     && p.start + (rows - 1) * p.rowStride + RowLength(p.pixelStride, width) <= |p.bytes|)
  }

  lemma SampleInside(p: PlaneView, width: nat, rows: nat, row: nat, column: nat)
    requires Holds(p, width, rows) && row < rows && column < width
    ensures column * p.pixelStride < RowLength(p.pixelStride, width)
    ensures p.start + row * p.rowStride + column * p.pixelStride < |p.bytes|
  {
    assert row * p.rowStride <= (rows - 1) * p.rowStride;
    assert column * p.pixelStride <= (width - 1) * p.pixelStride;
  }

  function Sample(p: PlaneView, width: nat, rows: nat, row: nat, column: nat): U8
    requires Holds(p, width, rows) && row < rows && column < width
  {
    SampleInside(p, width, rows, row, column);
    p.bytes[p.start + row * p.rowStride + column * p.pixelStride]
  }

  function SampleAt(p: PlaneView, width: nat, rows: nat, i: nat): U8
    requires Holds(p, width, rows) && i < rows * width
  {
    InRows(i, width, rows);
    hide Holds;
    Sample(p, width, rows, i / width, i % width)
  }

  /** All samples, row after row. */
  function PlaneSamples(p: PlaneView, width: nat, rows: nat): seq<U8>
    requires Holds(p, width, rows)
  {
    seq(rows * width, i requires 0 <= i < rows * width => SampleAt(p, width, rows, i))
  }

  function RowSamples(p: PlaneView, width: nat, rows: nat, row: nat): seq<U8>
    requires Holds(p, width, rows) && row < rows
  {
    seq(width, c requires 0 <= c < width => Sample(p, width, rows, row, c))
  }

  lemma HoldsFewer(p: PlaneView, width: nat, rows: nat, row: nat)
    requires Holds(p, width, rows) && row <= rows
    ensures Holds(p, width, row)
  {
    if row > 0 {
      assert (row - 1) * p.rowStride <= (rows - 1) * p.rowStride;
    }
  }

  lemma SamplesGrow(p: PlaneView, width: nat, rows: nat, row: nat)
    requires Holds(p, width, rows) && row < rows
    ensures Holds(p, width, row) && Holds(p, width, row + 1)
    ensures PlaneSamples(p, width, row + 1) == PlaneSamples(p, width, row) + RowSamples(p, width, rows, row)
  {
    hide Holds;
    HoldsFewer(p, width, rows, row);
    HoldsFewer(p, width, rows, row + 1);
    assert (row + 1) * width == row * width + width;
    forall i | 0 <= i < (row + 1) * width
      ensures PlaneSamples(p, width, row + 1)[i] == (PlaneSamples(p, width, row) + RowSamples(p, width, rows, row))[i]
    {
      if i >= row * width {
        RowOf(row, i - row * width, width);
      } else {
        InRows(i, width, row);
      }
    }
  }

  // ----- Copying a plane -----

  class PlaneProxy {
    const bytes: seq<U8>
    const rowStride: nat
    const pixelStride: nat
    var position: nat

    constructor (bytes: seq<U8>, position: nat, rowStride: nat, pixelStride: nat)
      ensures View() == PlaneView(bytes, position, rowStride, pixelStride)
    {
      this.bytes, this.position, this.rowStride, this.pixelStride := bytes, position, rowStride, pixelStride;
    }

    function View(): PlaneView
      reads this
    {
      PlaneView(bytes, position, rowStride, pixelStride)
    }

    /** Read `length` bytes and move past them. */
    method Get(rowData: array<U8>, length: nat)
      requires length <= rowData.Length && position + length <= |bytes|
      modifies `position, rowData
      ensures position == old(position) + length
      ensures rowData[..] == bytes[old(position)..position] + old(rowData[length..])
    {
      forall i | 0 <= i < length { rowData[i] := bytes[position + i]; }
      position := position + length;
    }
  }

  /** The width samples that stand `pixelStride` bytes apart in `rowData`, at `outOffset`. */
  method PutRow(rowData: array<U8>, pixelStride: nat, width: nat, output: array<U8>, outOffset: nat)
    requires rowData != output && outOffset + width <= output.Length
    requires forall c | 0 <= c < width :: 0 <= c * pixelStride < rowData.Length
    modifies output
    ensures forall c | 0 <= c < width :: output[outOffset + c] == rowData[c * pixelStride]
    ensures output[..outOffset] == old(output[..outOffset])
    ensures output[outOffset + width..] == old(output[outOffset + width..])
  {
    if pixelStride == 1 {
      assert width > 0 ==> 0 <= (width - 1) * pixelStride < rowData.Length;
      forall c | 0 <= c < width { output[outOffset + c] := rowData[c]; }
    } else {
      for col := 0 to width
        invariant forall c | 0 <= c < col :: output[outOffset + c] == rowData[c * pixelStride]
        invariant output[..outOffset] == old(output[..outOffset])
        invariant output[outOffset + width..] == old(output[outOffset + width..])
      {
        output[outOffset + col] := rowData[col * pixelStride];
      }
    }
  }

  /** Every sample of the plane lands in row order from `outputOffset` on; nothing else changes, and the buffer is
      left where it was. */
  method CopyPlane(plane: PlaneProxy, width: nat, height: nat, output: array<U8>, outputOffset: nat)
    requires Holds(plane.View(), width, height)
    requires outputOffset + height * width <= output.Length
    modifies plane`position, output
    ensures plane.position == old(plane.position)
    ensures output[..] == old(output[..outputOffset]) + PlaneSamples(plane.View(), width, height)
                          + old(output[outputOffset + height * width..])
  {
    hide Holds, PlaneSamples;
    ghost var p, before := plane.View(), output[..];
    var rowData := new U8[plane.rowStride](_ => 0);
    var outOffset, initialPosition := outputOffset, plane.position;
    NoSamples(p, width, height);
    ghost var end := Place(outputOffset, height, width);
    PlaceStarts(outputOffset, height, width);
    PlaceStarts(p.start, height, p.rowStride);
    hide Place;
    for row := 0 to height
      invariant outOffset == Place(outputOffset, row, width) <= end
      invariant row < height ==> plane.position == Place(p.start, row, p.rowStride)
      invariant Holds(p, width, row)
      invariant output[..outOffset] == before[..outputOffset] + PlaneSamples(p, width, row)
      invariant output[end..] == before[end..]
    {
      SamplesGrow(p, width, height, row);
      PlaceNext(outputOffset, row, width, height);
      CopyRow(plane, p, width, height, row, rowData, output, outOffset);
      outOffset := outOffset + width;
    }
    plane.position := initialPosition;
  }

  lemma NoSamples(p: PlaneView, width: nat, rows: nat)
    requires Holds(p, width, rows)
    ensures Holds(p, width, 0) && PlaneSamples(p, width, 0) == [] && 0 * width <= rows * width
  {
  }

  /** Where row `row` begins, for rows `pitch` apart. */
  function Place(base: nat, row: nat, pitch: nat): nat {
    base + row * pitch
  }

  lemma PlaceStarts(base: nat, height: nat, pitch: nat)
    ensures Place(base, 0, pitch) == base <= Place(base, height, pitch)
  {
    Distribute(0, height, pitch);
  }

  lemma PlaceNext(base: nat, row: nat, width: nat, height: nat)
    requires row < height
    ensures Place(base, row + 1, width) == Place(base, row, width) + width <= Place(base, height, width)
  {
    Distribute(row, 1, width);
    Distribute(row + 1, height - row - 1, width);
  }

  method CopyRow(plane: PlaneProxy, ghost p: PlaneView, width: nat, height: nat, row: nat, rowData: array<U8>,
                 output: array<U8>, outOffset: nat)
    requires p.bytes == plane.bytes && p.rowStride == plane.rowStride && p.pixelStride == plane.pixelStride
    requires Holds(p, width, height) && row < height && plane.position == Place(p.start, row, p.rowStride)
    requires rowData != output && rowData.Length == p.rowStride && outOffset + width <= output.Length
    modifies plane`position, rowData, output
    ensures row < height - 1 ==> plane.position == Place(p.start, row + 1, p.rowStride)
    ensures output[..outOffset + width] == old(output[..outOffset]) + RowSamples(p, width, height, row)
    ensures output[outOffset + width..] == old(output[outOffset + width..])
  {
    hide Holds, Sample;
    var length := ReadRow(plane, p, width, height, row, rowData);
    PutRow(rowData, plane.pixelStride, width, output, outOffset);
    assert output[..outOffset + width] == output[..outOffset] + output[outOffset..outOffset + width];
    assert output[outOffset..outOffset + width] == RowSamples(p, width, height, row);
    if row < height - 1 {
      plane.position := plane.position + plane.rowStride - length;
    }
  }

  method ReadRow(plane: PlaneProxy, ghost p: PlaneView, width: nat, ghost height: nat, ghost row: nat, rowData: array<U8>)
    returns (length: nat)
    requires p.bytes == plane.bytes && p.rowStride == plane.rowStride && p.pixelStride == plane.pixelStride
    requires Holds(p, width, height) && row < height && plane.position == Place(p.start, row, p.rowStride)
    requires rowData.Length == p.rowStride
    modifies plane`position, rowData
    ensures length <= plane.position && plane.position - length + p.rowStride == Place(p.start, row + 1, p.rowStride)
    ensures forall c | 0 <= c < width :: 0 <= c * p.pixelStride < rowData.Length
    ensures forall c | 0 <= c < width :: rowData[c * p.pixelStride] == Sample(p, width, height, row, c)
  {
    RowInside(p, width, height, row);
    hide Holds;
    ghost var start := plane.position;
    length := if plane.pixelStride == 1 then width else (width - 1) * plane.pixelStride + 1;
    plane.Get(rowData, length);
    forall c | 0 <= c < width
      ensures 0 <= c * p.pixelStride < rowData.Length
      ensures rowData[c * p.pixelStride] == Sample(p, width, height, row, c)
    {
      SampleInside(p, width, height, row, c);
      assert rowData[..][c * p.pixelStride] == p.bytes[start + c * p.pixelStride];
    }
  }

  lemma RowInside(p: PlaneView, width: nat, rows: nat, row: nat)
    requires Holds(p, width, rows) && row < rows
    ensures 0 <= RowLength(p.pixelStride, width) <= p.rowStride
    ensures p.start + row * p.rowStride + RowLength(p.pixelStride, width) <= |p.bytes|
    ensures (row + 1) * p.rowStride == row * p.rowStride + p.rowStride
  {
    assert row * p.rowStride <= (rows - 1) * p.rowStride;
  }

  /** Byte row * width + column of the copy is the sample at that row and column. */
  lemma SampleLands(p: PlaneView, width: nat, rows: nat, row: nat, column: nat) returns (place: nat, from: nat)
    requires Holds(p, width, rows) && row < rows && column < width
    ensures place == row * width + column && from == p.start + row * p.rowStride + column * p.pixelStride
    ensures place < |PlaneSamples(p, width, rows)| && from < |p.bytes|
    ensures PlaneSamples(p, width, rows)[place] == p.bytes[from]
  {
    place, from := row * width + column, p.start + row * p.rowStride + column * p.pixelStride;
    RowBounds(row, column, width, rows);
    RowOf(row, column, width);
    SampleInside(p, width, rows, row, column);
    hide Holds;
  }

  // ----- I420 -----

  function Zeros(n: nat): seq<U8> {
    seq(n, _ => 0)
  }

  lemma QuarterSize(width: nat, height: nat)
    ensures (height / 2) * (width / 2) <= width * height / 4
    ensures width % 2 == 0 && height % 2 == 0 ==> (height / 2) * (width / 2) == width * height / 4
  {
    var w, h := width / 2, height / 2;
    var a, b := width - 2 * w, height - 2 * h;
    assert width * height == 4 * (h * w) + (2 * (w * b) + 2 * (a * h) + a * b) by {
      assert width * height == (2 * w + a) * (2 * h + b);
    }
    assert w * b >= 0 && a * h >= 0 && a * b >= 0;
  }

  predicate ImageHolds(y: PlaneView, u: PlaneView, v: PlaneView, width: nat, height: nat) {
    Holds(y, width, height) && Holds(u, width / 2, height / 2) && Holds(v, width / 2, height / 2)
  }

  /** A chroma plane in its quarter of the buffer; an odd size leaves zeros behind it. */
  function Padded(p: PlaneView, width: nat, rows: nat, size: nat): (r: seq<U8>)
    requires Holds(p, width, rows) && rows * width <= size
    ensures |r| == size
  {
    PlaneSamples(p, width, rows) + Zeros(size - rows * width)
  }

  function I420(y: PlaneView, u: PlaneView, v: PlaneView, width: nat, height: nat): (r: seq<U8>)
    requires ImageHolds(y, u, v, width, height)
    ensures |r| == width * height + width * height / 4 * 2
  {
    QuarterSize(width, height);
    hide Holds, PlaneSamples, Padded;
    PlaneSamples(y, width, height) + Padded(u, width / 2, height / 2, width * height / 4)
    + Padded(v, width / 2, height / 2, width * height / 4)
  }

  method CopyPadded(plane: PlaneProxy, width: nat, height: nat, ghost size: nat, output: array<U8>, offset: nat)
    requires Holds(plane.View(), width, height) && height * width <= size && offset + size <= output.Length
    requires output[offset..] == Zeros(output.Length - offset)
    modifies plane`position, output
    ensures plane.position == old(plane.position)
    ensures output[..] == old(output[..offset]) + Padded(plane.View(), width, height, size)
                          + Zeros(output.Length - offset - size)
  {
    hide Holds, PlaneSamples;
    ghost var used := height * width;
    assert output[offset + used..] == output[offset..][used..];
    CopyPlane(plane, width, height, output, offset);
    assert Zeros(output.Length - offset)[used..] == Zeros(size - used) + Zeros(output.Length - offset - size);
  }

  method Yuv420888ToI420(y: PlaneProxy, u: PlaneProxy, v: PlaneProxy, width: nat, height: nat) returns (output: array<U8>)
    requires ImageHolds(y.View(), u.View(), v.View(), width, height)
    modifies y`position, u`position, v`position
    ensures y.View() == old(y.View()) && u.View() == old(u.View()) && v.View() == old(v.View())
    ensures fresh(output) && output[..] == I420(y.View(), u.View(), v.View(), width, height)
  {
    hide Holds, PlaneSamples, Padded;
    QuarterSize(width, height);
    output := CopyThree(y, u, v, width, height, width * height, width * height / 4);
  }

  method CopyThree(y: PlaneProxy, u: PlaneProxy, v: PlaneProxy, width: nat, height: nat, ySize: nat, uvSize: nat)
    returns (output: array<U8>)
    requires ImageHolds(y.View(), u.View(), v.View(), width, height)
    requires height * width == ySize && (height / 2) * (width / 2) <= uvSize
    modifies y`position, u`position, v`position
    ensures y.View() == old(y.View()) && u.View() == old(u.View()) && v.View() == old(v.View())
    ensures Holds(y.View(), width, height) && Holds(u.View(), width / 2, height / 2) && Holds(v.View(), width / 2, height / 2)
    ensures fresh(output) && output[..] == PlaneSamples(y.View(), width, height)
              + Padded(u.View(), width / 2, height / 2, uvSize) + Padded(v.View(), width / 2, height / 2, uvSize)
  {
    hide Holds, PlaneSamples, Padded;
    output := new U8[ySize + uvSize * 2](_ => 0);
    assert output[ySize..] == Zeros(uvSize * 2) && output[..0] == [];
    CopyPlane(y, width, height, output, 0);
    ghost var samples := PlaneSamples(y.View(), width, height);
    assert output[..] == samples + Zeros(uvSize * 2);
    assert output[..ySize] == samples && output[ySize..] == Zeros(uvSize * 2);
    CopyPadded(u, width / 2, height / 2, uvSize, output, ySize);
    assert output[ySize + uvSize..] == Zeros(uvSize);
    CopyPadded(v, width / 2, height / 2, uvSize, output, ySize + uvSize);
  }

  // ----- NV12 -----

  function Nv12(i420: seq<U8>, width: nat, height: nat): seq<U8>
    requires |i420| == width * height + width * height / 4 * 2
  {
    var ySize, uvSize := width * height, width * height / 4;
    i420[..ySize] + Interleave(i420[ySize..ySize + uvSize], i420[ySize + uvSize..])
  }

  method I420ToNv12(i420: array<U8>, width: nat, height: nat) returns (output: array<U8>)
    requires i420.Length == width * height + width * height / 4 * 2
    ensures fresh(output) && output[..] == Nv12(i420[..], width, height)
  {
    output := InterleaveFrom(i420, width * height, width * height / 4);
  }

  method InterleaveFrom(i420: array<U8>, ySize: nat, uvSize: nat) returns (output: array<U8>)
    requires i420.Length == ySize + uvSize * 2
    ensures fresh(output)
    ensures output[..] == i420[..ySize] + Interleave(i420[..][ySize..ySize + uvSize], i420[..][ySize + uvSize..])
  {
    hide Interleave;
    output := new U8[ySize + uvSize * 2](_ => 0);
    forall i | 0 <= i < ySize { output[i] := i420[i]; }
    InterleaveInto(i420, ySize, uvSize, output);
    InterleaveAt(output[ySize..], i420[..][ySize..ySize + uvSize], i420[..][ySize + uvSize..]);
    assert output[..] == output[..ySize] + output[ySize..];
  }

  method InterleaveInto(i420: array<U8>, ySize: nat, uvSize: nat, output: array<U8>)
    requires i420 != output && i420.Length == output.Length == ySize + uvSize * 2
    modifies output
    ensures output[..ySize] == old(output[..ySize])
    ensures forall k | 0 <= k < uvSize :: output[ySize + 2 * k] == i420[ySize + k]
    ensures forall k | 0 <= k < uvSize :: output[ySize + 2 * k + 1] == i420[ySize + uvSize + k]
  {
    var uIndex, vIndex, outIndex := ySize, ySize + uvSize, ySize;
    for i := 0 to uvSize
      invariant uIndex == ySize + i && vIndex == ySize + uvSize + i && outIndex == ySize + 2 * i
      invariant output[..ySize] == old(output[..ySize])
      invariant forall k | 0 <= k < i :: output[ySize + 2 * k] == i420[ySize + k]
      invariant forall k | 0 <= k < i :: output[ySize + 2 * k + 1] == i420[ySize + uvSize + k]
    {
      output[outIndex] := i420[uIndex];
      outIndex, uIndex := outIndex + 1, uIndex + 1;
      output[outIndex] := i420[vIndex];
      outIndex, vIndex := outIndex + 1, vIndex + 1;
    }
  }

  lemma InterleaveAt(uv: seq<U8>, u: seq<U8>, v: seq<U8>)
    requires |u| == |v| && |uv| == 2 * |u|
    requires forall k | 0 <= k < |u| :: uv[2 * k] == u[k] && uv[2 * k + 1] == v[k]
    ensures uv == Interleave(u, v)
  {
    forall i | 0 <= i < |uv| ensures uv[i] == Interleave(u, v)[i] {
      var k := i / 2;
      assert uv[2 * k] == u[k] && uv[2 * k + 1] == v[k];
    }
  }

  // ----- Capture and decode agree -----

  /** A camera plane and a decoder's plane show the same picture. */
  predicate SameSamples(p: PlaneView, d: Plane, width: nat, rows: nat)
    requires Holds(p, width, rows) && PlaneCovers(d, width, rows)
  {
    forall i | 0 <= i < rows * width :: SampleAt(p, width, rows, i) == VisibleByte(d.bytes, d.stride, width, rows, i)
  }

  lemma SamePlane(p: PlaneView, d: Plane, width: nat, rows: nat)
    requires Holds(p, width, rows) && PlaneCovers(d, width, rows) && SameSamples(p, d, width, rows)
    ensures PlaneSamples(p, width, rows) == VisibleBytes(d.bytes, d.stride, width, rows)
  {
    hide Holds, SampleAt, VisibleByte;
  }

  /** A plane without padding is its own visible part. */
  lemma TightRows(plane: seq<U8>, width: nat, rows: nat)
    requires width > 0 && |plane| == width * rows
    ensures VisibleBytes(plane, width, width, rows) == plane
  {
    forall i | 0 <= i < width * rows ensures VisibleByte(plane, width, width, rows, i) == plane[i] {
      InRows(i, width, rows);
    }
  }

  lemma PackedTight(f: Nv12Frame)
    requires Covers(f) && f.yStride == f.width == f.uvStride
    requires |f.yPlane| == f.width * f.height && |f.uvPlane| == f.width * (f.height / 2)
    ensures Packed(f) == f.yPlane + f.uvPlane
  {
    TightRows(f.yPlane, f.width, f.height);
    TightRows(f.uvPlane, f.width, f.height / 2);
  }

  lemma PlanarCovers(width: U32, height: U32, y: Plane, u: Plane, v: Plane)
    requires PlanesCover(width, height, y, u, v)
    ensures var f := PlanarNv12(width, height, y, u, v);
            Covers(f) && Packed(f) == f.yPlane + f.uvPlane
  {
    hide VisibleByte, Packed, Covers, PlaneCovers;
    HalfWidth(width, height / 2);
    TightPlanes(PlanarNv12(width, height, y, u, v));
    PackedTight(PlanarNv12(width, height, y, u, v));
  }

  lemma HalfWidth(width: nat, rows: nat)
    requires width % 2 == 0
    ensures 2 * (width / 2 * rows) == width * rows
  {
    assert width == 2 * (width / 2);
    assert 2 * (width / 2) * rows == 2 * (width / 2 * rows);
  }

  lemma TightPlanes(f: Nv12Frame)
    requires EvenSize(f.width, f.height) && f.yStride == f.width == f.uvStride
    requires |f.yPlane| == f.width * f.height && |f.uvPlane| == f.width * (f.height / 2)
    ensures Covers(f)
  {
  }

  /** Whatever their strides, the same picture gives the encoder and the packed decoder output the same NV12. */
  lemma CaptureMatchesDecode(width: U32, height: U32, y: PlaneView, u: PlaneView, v: PlaneView, dy: Plane, du: Plane, dv: Plane)
    requires ImageHolds(y, u, v, width, height) && PlanesCover(width, height, dy, du, dv)
    requires SameSamples(y, dy, width, height)
    requires SameSamples(u, du, width / 2, height / 2) && SameSamples(v, dv, width / 2, height / 2)
    ensures Covers(PlanarNv12(width, height, dy, du, dv))
    ensures Nv12(I420(y, u, v, width, height), width, height) == Packed(PlanarNv12(width, height, dy, du, dv))
  {
    hide Holds, SampleAt, VisibleByte, Packed, PlaneCovers, SameSamples, Interleave, Covers;
    QuarterSize(width, height);
    PlanarCovers(width, height, dy, du, dv);
    SamePlane(y, dy, width, height);
    SamePlane(u, du, width / 2, height / 2);
    SamePlane(v, dv, width / 2, height / 2);
    var i420, ySize, uvSize := I420(y, u, v, width, height), width * height, width * height / 4;
    assert i420[..ySize] == PlaneSamples(y, width, height);
    assert i420[ySize..ySize + uvSize] == PlaneSamples(u, width / 2, height / 2);
    assert i420[ySize + uvSize..] == PlaneSamples(v, width / 2, height / 2);
  }
}
