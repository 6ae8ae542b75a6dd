/** Pixel layouts: strided planes, packed NV12 and YUYV, as the desktop, the Windows filter and the Android
    encoder convert between them. Every conversion is stated by where each byte of the result comes from. */
module PixelLayouts {

  import opened Wrappers
  import opened Protocol

  const USIZE_MAX: nat := 0xFFFF_FFFF_FFFF_FFFF

  datatype Nv12Frame =
    Nv12Frame(width: U32, height: U32, yStride: nat, uvStride: nat, yPlane: seq<U8>, uvPlane: seq<U8>)

  datatype LayoutError = BadDimensions | BadPlaneLayout

  predicate EvenSize(width: nat, height: nat) {
    width > 0 && height > 0 && width % 2 == 0 && height % 2 == 0
  }

  /** The planes cover the visible area at their strides. */
  predicate Covers(f: Nv12Frame) {
    && EvenSize(f.width, f.height)
    && f.yStride >= f.width && f.uvStride >= f.width
    && f.yStride * f.height <= |f.yPlane|
    && f.uvStride * (f.height / 2) <= |f.uvPlane|
  }

  // ----- Index arithmetic -----

  lemma Distribute(a: nat, b: nat, width: nat)
    ensures (a + b) * width == a * width + b * width && width * (a + b) == width * a + width * b
    ensures b * width >= 0
  {
  }

  lemma RowBounds(row: nat, column: nat, width: nat, rows: nat)
    requires row < rows && column < width
    ensures 0 <= row * width + column < rows * width
  {
    Distribute(row, 1, width);
    Distribute(row + 1, rows - row - 1, width);
  }

  lemma SmallMultiple(d: int, width: int)
    requires width > 0 && -width < d * width < width
    ensures d == 0
  {
  }

  lemma RowOf(row: nat, column: nat, width: nat)
    requires column < width
    ensures (row * width + column) / width == row && (row * width + column) % width == column
  {
    var i := row * width + column;
    var q, r := i / width, i % width;
    assert i == q * width + r;
    assert (q - row) * width == q * width - row * width;
    SmallMultiple(q - row, width);
  }

  lemma InRows(i: nat, width: nat, rows: nat)
    requires width > 0 && i < rows * width
    ensures i / width < rows && i % width < width && i == i / width * width + i % width
  {
    assert (rows - i / width) * width > i % width;
  }

  /** A byte of the visible part of a strided plane lies inside the plane. */
  lemma Visible(i: nat, width: nat, rows: nat, stride: nat)
    requires width <= stride && i < width * rows
    ensures width > 0 && i / width < rows && i % width < width
    ensures i / width * stride + i % width < stride * rows
  {
    InRows(i, width, rows);
    RowBounds(i / width, i % width, stride, rows);
  }

  // ----- Copying rows -----

  /** The byte that row `i / width` and column `i % width` of a strided plane hold. */
  function VisibleByte(source: seq<U8>, stride: nat, width: nat, rows: nat, i: nat): U8
    requires width <= stride && stride * rows <= |source| && i < width * rows
  {
    Visible(i, width, rows, stride);
    source[i / width * stride + i % width]
  }

  /** The visible bytes of a strided plane, row after row. */
  function VisibleBytes(source: seq<U8>, stride: nat, width: nat, rows: nat): seq<U8>
    requires width <= stride && stride * rows <= |source|
  {
    seq(width * rows, i requires 0 <= i < width * rows => VisibleByte(source, stride, width, rows, i))
  }

  lemma VisibleByteAt(source: seq<U8>, stride: nat, width: nat, rows: nat, row: nat, column: nat)
    requires 0 < width <= stride && stride * rows <= |source| && row < rows && column < width
    ensures row * width + column < width * rows && row * stride + column < |source|
    ensures VisibleByte(source, stride, width, rows, row * width + column) == source[row * stride + column]
  {
    RowBounds(row, column, width, rows);
    RowBounds(row, column, stride, rows);
    RowOf(row, column, width);
  }

  lemma VisibleAt(source: seq<U8>, stride: nat, width: nat, rows: nat, row: nat, column: nat)
    requires width <= stride && stride * rows <= |source| && row < rows && column < width
    ensures row * width + column < |VisibleBytes(source, stride, width, rows)| && row * stride + column < |source|
    ensures VisibleBytes(source, stride, width, rows)[row * width + column] == source[row * stride + column]
  {
    VisibleByteAt(source, stride, width, rows, row, column);
    hide VisibleByte;
  }

  lemma VisibleBytesGrow(source: seq<U8>, stride: nat, width: nat, rows: nat)
    requires width <= stride && stride * (rows + 1) <= |source|
    ensures stride * rows + width <= |source| && stride * rows <= |source|
    ensures VisibleBytes(source, stride, width, rows + 1)
         == VisibleBytes(source, stride, width, rows) + source[stride * rows..stride * rows + width]
  {
    assert stride * (rows + 1) == stride * rows + stride && width * (rows + 1) == width * rows + width;
    var more, less := VisibleBytes(source, stride, width, rows + 1), VisibleBytes(source, stride, width, rows);
    var row := source[stride * rows..stride * rows + width];
    forall i | 0 <= i < width * (rows + 1) ensures more[i] == (less + row)[i] {
      if i < width * rows {
        assert VisibleByte(source, stride, width, rows + 1, i) == VisibleByte(source, stride, width, rows, i);
      } else {
        VisibleByteAt(source, stride, width, rows + 1, rows, i - width * rows);
        assert rows * width + (i - width * rows) == i;
      }
    }
  }

  lemma RowsFit(stride: nat, row: nat, rows: nat)
    requires row < rows
    ensures stride * (row + 1) <= stride * rows
  {
    Distribute(row + 1, rows - row - 1, stride);
  }

  method CopyPlaneRows(source: seq<U8>, stride: nat, width: nat, rows: nat) returns (r: Result<seq<U8>, LayoutError>)
    ensures r.Ok? <==> width <= stride && stride * rows <= USIZE_MAX && stride * rows <= |source|
    ensures r.Ok? ==> r.value == VisibleBytes(source, stride, width, rows)
    ensures r.Err? ==> r.error == BadPlaneLayout
  {
    if stride < width || stride * rows > USIZE_MAX || |source| < stride * rows {
      return Err(BadPlaneLayout);
    }
    var output := [];
    for row := 0 to rows
      invariant stride * row <= |source|
      invariant output == VisibleBytes(source, stride, width, row)
    {
      RowsFit(stride, row, rows);
      VisibleBytesGrow(source, stride, width, row);
      var start := row * stride;
      output := output + source[start..start + width];
    }
    return Ok(output);
  }

  // ----- Planar to NV12 -----

  function Interleave(u: seq<U8>, v: seq<U8>): (uv: seq<U8>)
    requires |u| == |v|
    ensures |uv| == 2 * |u|
  {
    seq(2 * |u|, i requires 0 <= i < 2 * |u| => if i % 2 == 0 then u[i / 2] else v[i / 2])
  }

  datatype Plane = Plane(bytes: seq<U8>, stride: nat)

  predicate PlaneCovers(p: Plane, width: nat, rows: nat) {
    0 < width <= p.stride && p.stride * rows <= USIZE_MAX && p.stride * rows <= |p.bytes|
  }

  predicate PlanesCover(width: nat, height: nat, y: Plane, u: Plane, v: Plane) {
    && EvenSize(width, height)
    && PlaneCovers(y, width, height)
    && PlaneCovers(u, width / 2, height / 2)
    && PlaneCovers(v, width / 2, height / 2)
  }

  function PlanarNv12(width: U32, height: U32, y: Plane, u: Plane, v: Plane): Nv12Frame
    requires PlanesCover(width, height, y, u, v)
  {
    Nv12Frame(width, height, width, width,
              VisibleBytes(y.bytes, y.stride, width, height),
              Interleave(VisibleBytes(u.bytes, u.stride, width / 2, height / 2),
                         VisibleBytes(v.bytes, v.stride, width / 2, height / 2)))
  }

  method PlanarToNv12(width: U32, height: U32, y: Plane, u: Plane, v: Plane) returns (r: Result<Nv12Frame, LayoutError>)
    ensures r.Ok? <==> PlanesCover(width, height, y, u, v)
    ensures r.Ok? ==> r.value == PlanarNv12(width, height, y, u, v)
    ensures r.Err? && !EvenSize(width, height) ==> r.error == BadDimensions
  {
    if width == 0 || height == 0 || width % 2 != 0 || height % 2 != 0 {
      return Err(BadDimensions);
    }
    var yPlane := CopyPlaneRows(y.bytes, y.stride, width, height);
    if yPlane.Err? { return Err(yPlane.error); }
    var uPlane := CopyPlaneRows(u.bytes, u.stride, width / 2, height / 2);
    if uPlane.Err? { return Err(uPlane.error); }
    var vPlane := CopyPlaneRows(v.bytes, v.stride, width / 2, height / 2);
    if vPlane.Err? { return Err(vPlane.error); }
    var uvPlane := [];
    for i := 0 to |uPlane.value|
      invariant uvPlane == Interleave(uPlane.value[..i], vPlane.value[..i])
    {
      uvPlane := uvPlane + [uPlane.value[i]];
      uvPlane := uvPlane + [vPlane.value[i]];
    }
    assert uPlane.value[..|uPlane.value|] == uPlane.value && vPlane.value[..|uPlane.value|] == vPlane.value;
    return Ok(Nv12Frame(width, height, width, width, yPlane.value, uvPlane));
  }

  /** Byte `i` of `a` is byte `j` of `b`. */
  ghost predicate SameByte(a: seq<U8>, i: int, b: seq<U8>, j: int) {
    0 <= i < |a| && 0 <= j < |b| && a[i] == b[j]
  }

  lemma VisibleSame(source: seq<U8>, stride: nat, width: nat, rows: nat, row: nat, column: nat)
    requires width <= stride && stride * rows <= |source| && row < rows && column < width
    ensures SameByte(VisibleBytes(source, stride, width, rows), row * width + column, source, row * stride + column)
  {
    VisibleAt(source, stride, width, rows, row, column);
    hide VisibleBytes;
  }

  lemma InterleaveSame(u: seq<U8>, v: seq<U8>, i: nat)
    requires |u| == |v| && i < |u|
    ensures SameByte(Interleave(u, v), 2 * i, u, i) && SameByte(Interleave(u, v), 2 * i + 1, v, i)
  {
  }

  /** Where each sample of a decoded picture goes: luma to its own place, and for each block of two by two pixels the
      first chroma sample to the even byte and the second to the odd byte after it. */
  lemma PlanarSample(width: U32, height: U32, y: Plane, u: Plane, v: Plane, row: nat, column: nat, r: nat, c: nat)
    requires PlanesCover(width, height, y, u, v)
    requires row < height && column < width && r < height / 2 && c < width / 2
    ensures var f := PlanarNv12(width, height, y, u, v);
            && f.width == width == f.yStride == f.uvStride && f.height == height
            && SameByte(f.yPlane, row * width + column, y.bytes, row * y.stride + column)
            && SameByte(f.uvPlane, r * width + 2 * c, u.bytes, r * u.stride + c)
            && SameByte(f.uvPlane, r * width + 2 * c + 1, v.bytes, r * v.stride + c)
  {
    var half, rows := width / 2, height / 2;
    VisibleSame(y.bytes, y.stride, width, height, row, column);
    VisibleSame(u.bytes, u.stride, half, rows, r, c);
    VisibleSame(v.bytes, v.stride, half, rows, r, c);
    var us, vs := VisibleBytes(u.bytes, u.stride, half, rows), VisibleBytes(v.bytes, v.stride, half, rows);
    InterleaveSame(us, vs, r * half + c);
    Distribute(half, half, r);
    assert 2 * (r * half + c) == r * width + 2 * c by { assert width == half + half; }
    hide VisibleBytes, Interleave;
  }

  // ----- Packed NV12 -----

  /** Luma rows, then chroma rows, without padding. */
  function Packed(f: Nv12Frame): seq<U8>
    requires Covers(f)
  {
    VisibleBytes(f.yPlane, f.yStride, f.width, f.height) + VisibleBytes(f.uvPlane, f.uvStride, f.width, f.height / 2)
  }

  /** Append the visible rows of a plane to `data`. */
  method AppendRows(data: seq<U8>, source: seq<U8>, stride: nat, width: nat, rows: nat) returns (more: seq<U8>)
    requires width <= stride && stride * rows <= |source|
    ensures more == data + VisibleBytes(source, stride, width, rows)
  {
    more := data;
    for row := 0 to rows
      invariant stride * row <= |source|
      invariant more == data + VisibleBytes(source, stride, width, row)
    {
      RowsFit(stride, row, rows);
      VisibleBytesGrow(source, stride, width, row);
      var start := row * stride;
      more := more + source[start..start + width];
    }
  }

  method PackedNv12(f: Nv12Frame) returns (r: Result<seq<U8>, LayoutError>)
    requires |f.yPlane| <= USIZE_MAX && |f.uvPlane| <= USIZE_MAX
    ensures r.Ok? <==> Covers(f)
    ensures r.Ok? ==> r.value == Packed(f)
  {
    var width, height := f.width, f.height;
    if width == 0 || height == 0 || width % 2 != 0 || height % 2 != 0 || f.yStride < width || f.uvStride < width {
      return Err(BadDimensions);
    }
    if f.yStride * height > USIZE_MAX || f.uvStride * (height / 2) > USIZE_MAX {
      return Err(BadPlaneLayout);
    }
    if |f.yPlane| < f.yStride * height || |f.uvPlane| < f.uvStride * (height / 2) {
      return Err(BadPlaneLayout);
    }
    var data := AppendRows([], f.yPlane, f.yStride, width, height);
    data := AppendRows(data, f.uvPlane, f.uvStride, width, height / 2);
    assert [] + VisibleBytes(f.yPlane, f.yStride, width, height) == VisibleBytes(f.yPlane, f.yStride, width, height);
    return Ok(data);
  }

  lemma JoinedSame(a: seq<U8>, b: seq<U8>, i: int, source: seq<U8>, j: int)
    ensures SameByte(a, i, source, j) ==> SameByte(a + b, i, source, j)
    ensures SameByte(b, i, source, j) ==> SameByte(a + b, |a| + i, source, j)
  {
  }

  /** Where each byte of a packed frame comes from. */
  lemma PackedByte(f: Nv12Frame, row: nat, column: nat, r: nat)
    requires Covers(f) && row < f.height && column < f.width && r < f.height / 2
    ensures |Packed(f)| == f.width * f.height + f.width * (f.height / 2)
    ensures SameByte(Packed(f), row * f.width + column, f.yPlane, row * f.yStride + column)
    ensures SameByte(Packed(f), f.width * f.height + (r * f.width + column), f.uvPlane, r * f.uvStride + column)
  {
    VisibleSame(f.yPlane, f.yStride, f.width, f.height, row, column);
    VisibleSame(f.uvPlane, f.uvStride, f.width, f.height / 2, r, column);
    var luma, chroma := VisibleBytes(f.yPlane, f.yStride, f.width, f.height), VisibleBytes(f.uvPlane, f.uvStride, f.width, f.height / 2);
    assert |luma| == f.width * f.height && |chroma| == f.width * (f.height / 2);
    hide VisibleBytes;
    JoinedSame(luma, chroma, row * f.width + column, f.yPlane, row * f.yStride + column);
    JoinedSame(luma, chroma, r * f.width + column, f.uvPlane, r * f.uvStride + column);
    hide SameByte, Covers;
  }
}
