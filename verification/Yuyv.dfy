/** NV12 to YUYV, written twice: by the desktop for Linux outputs and by the Windows filter. */
module Yuyv {

  import opened Wrappers
  import opened Protocol
  import opened PixelLayouts
  import FramePackets

  // ----- Samples -----

  function Luma(f: Nv12Frame, row: nat, column: nat): U8
    requires Covers(f) && row < f.height && column < f.width
  {
    RowBounds(row, column, f.yStride, f.height);
    f.yPlane[row * f.yStride + column]
  }

  /** Even columns hold U, odd ones V. */
  function Chroma(f: Nv12Frame, row: nat, column: nat): U8
    requires Covers(f) && row < f.height / 2 && column < f.width
  {
    RowBounds(row, column, f.uvStride, f.height / 2);
    f.uvPlane[row * f.uvStride + column]
  }

  lemma LumaAt(f: Nv12Frame, row: nat, column: nat)
    requires Covers(f) && row < f.height && column < f.width
    ensures row * f.yStride + column < |f.yPlane| && Luma(f, row, column) == f.yPlane[row * f.yStride + column]
  {
    RowBounds(row, column, f.yStride, f.height);
  }

  lemma ChromaAt(f: Nv12Frame, row: nat, column: nat)
    requires Covers(f) && row < f.height / 2 && column < f.width
    ensures row * f.uvStride + column < |f.uvPlane| && Chroma(f, row, column) == f.uvPlane[row * f.uvStride + column]
  {
    RowBounds(row, column, f.uvStride, f.height / 2);
  }

  // ----- The image -----

  /** Byte `k` of a YUYV row shows column `k / 2`: its luma at even places, and at odd places its chroma, which
      rows share in pairs. */
  function RowByte(f: Nv12Frame, row: nat, k: nat): U8
    requires Covers(f) && row < f.height && k < f.width * 2
  {
    if k % 2 == 0 then Luma(f, row, k / 2) else Chroma(f, row / 2, k / 2)
  }

  function ImageSize(f: Nv12Frame): nat {
    f.height * (f.width * 2)
  }

  lemma ByteInRow(f: Nv12Frame, i: nat)
    requires Covers(f) && i < ImageSize(f)
    ensures f.width > 0 && i / (f.width * 2) < f.height && i % (f.width * 2) < f.width * 2
  {
    InRows(i, f.width * 2, f.height);
  }

  function YuyvByte(f: Nv12Frame, i: nat): U8
    requires Covers(f) && i < ImageSize(f)
  {
    hide Covers, ImageSize;
    ByteInRow(f, i);
    RowByte(f, i / (f.width * 2), i % (f.width * 2))
  }

  /** The first `n` bytes of the image. */
  function YuyvPrefix(f: Nv12Frame, n: nat): seq<U8>
    requires Covers(f) && n <= ImageSize(f)
  {
    seq(n, i requires 0 <= i < n => YuyvByte(f, i))
  }

  function YuyvImage(f: Nv12Frame): seq<U8>
    requires Covers(f)
  {
    YuyvPrefix(f, ImageSize(f))
  }

  lemma YuyvByteAt(f: Nv12Frame, row: nat, k: nat)
    requires Covers(f) && row < f.height && k < f.width * 2
    ensures row * (f.width * 2) + k < ImageSize(f)
    ensures YuyvByte(f, row * (f.width * 2) + k) == RowByte(f, row, k)
  {
    hide RowByte;
    RowBounds(row, k, f.width * 2, f.height);
    RowOf(row, k, f.width * 2);
  }

  /** The four bytes of the macropixel at an even column: luma of its own row, chroma of row / 2. */
  lemma Macropixel(f: Nv12Frame, row: nat, column: nat)
    requires Covers(f) && row < f.height && column < f.width && column % 2 == 0
    ensures column + 1 < f.width
    ensures row * (f.width * 2) + 2 * column + 4 <= ImageSize(f)
    ensures var n := row * (f.width * 2) + 2 * column;
            && YuyvByte(f, n) == Luma(f, row, column)
            && YuyvByte(f, n + 1) == Chroma(f, row / 2, column)
            && YuyvByte(f, n + 2) == Luma(f, row, column + 1)
            && YuyvByte(f, n + 3) == Chroma(f, row / 2, column + 1)
  {
    hide YuyvByte, Luma, Chroma;
    YuyvByteAt(f, row, 2 * column);
    YuyvByteAt(f, row, 2 * column + 1);
    YuyvByteAt(f, row, 2 * column + 2);
    YuyvByteAt(f, row, 2 * column + 3);
  }

  /** Four more bytes of the image. */
  lemma PrefixGrows(f: Nv12Frame, row: nat, column: nat)
    requires Covers(f) && row < f.height && column < f.width && column % 2 == 0
    ensures column + 1 < f.width
    ensures row * (f.width * 2) + 2 * column + 4 <= ImageSize(f)
    ensures YuyvPrefix(f, row * (f.width * 2) + 2 * column + 4) ==
            YuyvPrefix(f, row * (f.width * 2) + 2 * column)
            + [Luma(f, row, column), Chroma(f, row / 2, column), Luma(f, row, column + 1), Chroma(f, row / 2, column + 1)]
  {
    hide YuyvByte, Luma, Chroma;
    Macropixel(f, row, column);
  }

  /** Where row `row` starts in the image and in the two planes. */
  predicate RowStarts(f: Nv12Frame, row: nat, start: nat, yStart: nat, uvStart: nat) {
    row < f.height && start == row * (f.width * 2) && yStart == row * f.yStride && uvStart == row / 2 * f.uvStride
  }

  /** The same, read at a row's offsets in the two planes. */
  lemma NextMacropixel(f: Nv12Frame, row: nat, column: nat, start: nat, yStart: nat, uvStart: nat)
    requires Covers(f) && RowStarts(f, row, start, yStart, uvStart) && column < f.width && column % 2 == 0
    ensures column + 1 < f.width && yStart + column + 1 < |f.yPlane| && uvStart + column + 1 < |f.uvPlane|
    ensures start + 2 * column + 4 <= ImageSize(f)
    ensures YuyvPrefix(f, start + 2 * column + 4) ==
            YuyvPrefix(f, start + 2 * column)
            + [f.yPlane[yStart + column], f.uvPlane[uvStart + column], f.yPlane[yStart + column + 1], f.uvPlane[uvStart + column + 1]]
  {
    hide YuyvPrefix, Luma, Chroma;
    PrefixGrows(f, row, column);
    LumaAt(f, row, column);
    LumaAt(f, row, column + 1);
    ChromaAt(f, row / 2, column);
    ChromaAt(f, row / 2, column + 1);
  }

  lemma NoBytes(f: Nv12Frame)
    requires Covers(f)
    ensures YuyvPrefix(f, 0) == []
  {
  }

  // ----- The desktop's converter -----

  class Nv12ToYuyvConverter {
    const width: U32
    const height: U32

    predicate Valid() {
      EvenSize(width, height)
    }

    constructor (width: U32, height: U32)
      requires EvenSize(width, height)
      ensures this.width == width && this.height == height && Valid()
    {
      this.width, this.height := width, height;
    }

    method Convert(f: Nv12Frame) returns (r: Result<seq<U8>, LayoutError>)
      requires Valid()
      requires |f.yPlane| <= USIZE_MAX && |f.uvPlane| <= USIZE_MAX && 2 * width * height <= USIZE_MAX
      ensures r.Ok? <==> f.width == width && f.height == height && Covers(f)
      ensures r.Ok? ==> r.value == YuyvImage(f)
      ensures r.Err? && f.width == width && f.height == height && f.yStride >= width && f.uvStride >= width ==>
                r.error == BadPlaneLayout
    {
      if f.width != width || f.height != height || f.yStride < width || f.uvStride < width {
        return Err(BadDimensions);
      }
      var requiredY, requiredUv := f.yStride * height, f.uvStride * (height / 2);
      if requiredY > USIZE_MAX || requiredUv > USIZE_MAX || |f.yPlane| < requiredY || |f.uvPlane| < requiredUv {
        return Err(BadPlaneLayout);
      }
      var data := ConvertRows(f);
      return Ok(data);
    }

    method ConvertRows(f: Nv12Frame) returns (data: seq<U8>)
      requires Covers(f) && f.width == width && f.height == height
      ensures data == YuyvImage(f)
    {
      hide YuyvPrefix, Covers;
      data := [];
      ghost var start := 0;
      NoBytes(f);
      for row := 0 to height
        invariant start == row * (width * 2) <= ImageSize(f)
        invariant data == YuyvPrefix(f, start)
      {
        data := ConvertColumns(f, row, row * f.yStride, row / 2 * f.uvStride, start, data);
        Distribute(row, 1, width * 2);
        start := start + 2 * width;
      }
    }

    method ConvertColumns(f: Nv12Frame, ghost row: nat, yRowStart: nat, uvRowStart: nat, ghost start: nat, before: seq<U8>)
      returns (data: seq<U8>)
      requires Covers(f) && f.width == width && RowStarts(f, row, start, yRowStart, uvRowStart)
      requires start <= ImageSize(f) && before == YuyvPrefix(f, start)
      ensures start + 2 * width <= ImageSize(f)
      ensures data == YuyvPrefix(f, start + 2 * width)
    {
      hide YuyvPrefix, Covers, ImageSize, RowStarts;
      data := before;
      var column := 0;
      while column < width
        invariant column <= width && column % 2 == 0
        invariant start + 2 * column <= ImageSize(f)
        invariant data == YuyvPrefix(f, start + 2 * column)
      {
        NextMacropixel(f, row, column, start, yRowStart, uvRowStart);
        data := data + [f.yPlane[yRowStart + column], f.uvPlane[uvRowStart + column],
                        f.yPlane[yRowStart + column + 1], f.uvPlane[uvRowStart + column + 1]];
        column := column + 2;
      }
    }
  }

  // ----- The Windows filter -----

  /** A packed payload, read as a frame whose rows have no padding. */
  function Tight(width: U32, height: U32, payload: seq<U8>): Nv12Frame
    requires width * height <= |payload|
  {
    Nv12Frame(width, height, width, width, payload[..width * height], payload[width * height..])
  }

  predicate HoldsNv12(width: nat, height: nat, payload: seq<U8>) {
    EvenSize(width, height) && width * height + width * height / 2 <= |payload|
  }

  lemma HalfRows(width: nat, height: nat)
    requires height % 2 == 0
    ensures width * height / 2 == width * (height / 2)
  {
    assert width * height == 2 * (width * (height / 2)) by {
      assert height == 2 * (height / 2);
      assert width * (2 * (height / 2)) == 2 * (width * (height / 2));
    }
  }

  lemma TightCovers(width: U32, height: U32, payload: seq<U8>)
    requires HoldsNv12(width, height, payload)
    ensures width * height <= |payload| && Covers(Tight(width, height, payload))
  {
    HalfRows(width, height);
  }

  const LONG_MAX: nat := 0x7FFF_FFFF

  /** A size as the 32-bit number the filter compares. */
  function LongCast(n: nat): int {
    var low := n % 0x1_0000_0000;
    if low > LONG_MAX then low - 0x1_0000_0000 else low
  }

  /** The comparison is right for every size below 2^31, and so for every frame the receiver accepts. */
  lemma ReceivedSizesAreCompared(width: nat, height: nat)
    requires (width, height) in FramePackets.RESOLUTIONS
    ensures LongCast(width * height * 2) == width * height * 2 <= LONG_MAX
  {
  }

  /** `destination` is the media sample's buffer, whose size is a 32-bit number. The filter relies on its comparison:
      a size that passes it fits. */
  method ConvertNv12ToYuy2(width: U32, height: U32, payload: seq<U8>, destination: array<U8>) returns (ok: bool)
    requires destination.Length <= LONG_MAX && width * height * 2 <= USIZE_MAX
    requires LongCast(width * height * 2) <= destination.Length ==> width * height * 2 <= destination.Length
    modifies destination
    ensures ok <==> HoldsNv12(width, height, payload) && height * (width * 2) <= destination.Length
    ensures !ok ==> destination[..] == old(destination[..])
    ensures ok ==> width * height <= |payload| && Covers(Tight(width, height, payload))
                   && destination[..] == YuyvImage(Tight(width, height, payload)) + old(destination[height * (width * 2)..])
  {
    hide YuyvImage, Covers;
    if destination.Length == 0 || width == 0 || height == 0 || width % 2 != 0 || height % 2 != 0 {
      ProductAtLeastTwo(width, height);
      return false;
    }
    var yPlaneSize := width * height;
    assert height * (width * 2) == yPlaneSize * 2;
    if |payload| < yPlaneSize + yPlaneSize / 2 || destination.Length < LongCast(yPlaneSize * 2) {
      return false;
    }
    TightCovers(width, height, payload);
    ConvertRows(width, height, payload, destination);
    return true;
  }

  method ConvertRows(width: U32, height: U32, payload: seq<U8>, destination: array<U8>)
    requires HoldsNv12(width, height, payload) && height * (width * 2) <= destination.Length
    requires width * height <= |payload| && Covers(Tight(width, height, payload))
    modifies destination
    ensures destination[..] == YuyvImage(Tight(width, height, payload)) + old(destination[height * (width * 2)..])
  {
    hide YuyvPrefix, HoldsNv12, Covers;
    ghost var f := Tight(width, height, payload);
    NoBytes(f);
    var start := 0;
    for row := 0 to height
      invariant start == row * (width * 2) <= ImageSize(f)
      invariant destination[..start] == YuyvPrefix(f, start)
      invariant destination[ImageSize(f)..] == old(destination[ImageSize(f)..])
    {
      ConvertColumns(f, width, payload, width * height, row * width, row / 2 * width, start, row, destination);
      Distribute(row, 1, width * 2);
      start := start + 2 * width;
    }
    assert destination[..] == destination[..height * (width * 2)] + destination[height * (width * 2)..];
  }

  lemma ProductAtLeastTwo(width: nat, height: nat)
    ensures EvenSize(width, height) ==> height * (width * 2) > 0
  {
  }

  method ConvertColumns(ghost f: Nv12Frame, width: U32, payload: seq<U8>, yPlaneSize: nat, yRowOffset: nat,
                        uvRowOffset: nat, dstRow: nat, ghost row: nat, destination: array<U8>)
    requires Covers(f) && RowStarts(f, row, dstRow, yRowOffset, uvRowOffset) && f.width == width
    requires yPlaneSize <= |payload| && f.yPlane == payload[..yPlaneSize] && f.uvPlane == payload[yPlaneSize..]
    requires dstRow <= ImageSize(f) <= destination.Length && destination[..dstRow] == YuyvPrefix(f, dstRow)
    modifies destination
    ensures dstRow + 2 * width <= ImageSize(f) && destination[..dstRow + 2 * width] == YuyvPrefix(f, dstRow + 2 * width)
    ensures destination[ImageSize(f)..] == old(destination[ImageSize(f)..])
  {
    hide YuyvPrefix, Covers, ImageSize, RowStarts;
    var column := 0;
    while column < width
      invariant column <= width && column % 2 == 0
      invariant dstRow + 2 * column <= ImageSize(f)
      invariant destination[..dstRow + 2 * column] == YuyvPrefix(f, dstRow + 2 * column)
      invariant destination[ImageSize(f)..] == old(destination[ImageSize(f)..])
    {
      NextMacropixel(f, row, column, dstRow, yRowOffset, uvRowOffset);
      var y0, y1 := payload[yRowOffset + column], payload[yRowOffset + column + 1];
      var u, v := payload[yPlaneSize + uvRowOffset + column], payload[yPlaneSize + uvRowOffset + column + 1];
      PutMacropixel(destination, dstRow + column * 2, y0, u, y1, v);
      column := column + 2;
    }
  }

  method PutMacropixel(destination: array<U8>, out: nat, y0: U8, u: U8, y1: U8, v: U8)
    requires out + 4 <= destination.Length
    modifies destination
    ensures destination[..out + 4] == old(destination[..out]) + [y0, u, y1, v]
    ensures forall i | out + 4 <= i <= destination.Length :: destination[i..] == old(destination[i..])
  {
    destination[out + 0] := y0;
    destination[out + 1] := u;
    destination[out + 2] := y1;
    destination[out + 3] := v;
  }

  // ----- Both agree -----

  lemma PackedParts(f: Nv12Frame)
    requires Covers(f)
    ensures f.width * f.height <= |Packed(f)|
    ensures Packed(f)[..f.width * f.height] == VisibleBytes(f.yPlane, f.yStride, f.width, f.height)
    ensures Packed(f)[f.width * f.height..] == VisibleBytes(f.uvPlane, f.uvStride, f.width, f.height / 2)
  {
    hide VisibleByte;
  }

  lemma TightLuma(width: U32, height: U32, payload: seq<U8>, row: nat, column: nat)
    requires width * height <= |payload| && Covers(Tight(width, height, payload)) && column < width && row < height
    ensures row * width + column < width * height
    ensures Luma(Tight(width, height, payload), row, column) == payload[row * width + column]
  {
    RowBounds(row, column, width, height);
    hide Covers;
  }

  lemma TightChroma(width: U32, height: U32, payload: seq<U8>, row: nat, column: nat)
    requires width * height <= |payload| && Covers(Tight(width, height, payload)) && column < width && row < height / 2
    ensures row * width + column < |payload| - width * height
    ensures Chroma(Tight(width, height, payload), row, column) == payload[width * height..][row * width + column]
  {
    ChromaAt(Tight(width, height, payload), row, column);
    hide Covers;
  }

  lemma LumaVisible(f: Nv12Frame, row: nat, column: nat)
    requires Covers(f) && column < f.width && row < f.height
    ensures var visible := VisibleBytes(f.yPlane, f.yStride, f.width, f.height);
            row * f.width + column < |visible| && visible[row * f.width + column] == Luma(f, row, column)
  {
    hide VisibleBytes, Luma;
    VisibleAt(f.yPlane, f.yStride, f.width, f.height, row, column);
    LumaAt(f, row, column);
  }

  lemma ChromaVisible(f: Nv12Frame, row: nat, column: nat)
    requires Covers(f) && column < f.width && row < f.height / 2
    ensures var visible := VisibleBytes(f.uvPlane, f.uvStride, f.width, f.height / 2);
            row * f.width + column < |visible| && visible[row * f.width + column] == Chroma(f, row, column)
  {
    hide VisibleBytes, Chroma;
    VisibleAt(f.uvPlane, f.uvStride, f.width, f.height / 2, row, column);
    ChromaAt(f, row, column);
  }

  lemma PackedLumaByte(f: Nv12Frame, row: nat, column: nat)
    requires Covers(f) && column < f.width && row < f.height
    ensures row * f.width + column < f.width * f.height <= |Packed(f)|
    ensures Packed(f)[row * f.width + column] == Luma(f, row, column)
  {
    RowBounds(row, column, f.width, f.height);
    hide Covers, VisibleBytes, Packed, Luma;
    PackedParts(f);
    LumaVisible(f, row, column);
    AtPrefix(Packed(f), f.width * f.height, row * f.width + column);
  }

  lemma AtPrefix(s: seq<U8>, n: nat, i: nat)
    requires i < n <= |s|
    ensures s[..n][i] == s[i]
  {
  }

  lemma PackedChromaByte(f: Nv12Frame, row: nat, column: nat)
    requires Covers(f) && column < f.width && row < f.height / 2
    ensures f.width * f.height <= |Packed(f)| && row * f.width + column < |Packed(f)| - f.width * f.height
    ensures Packed(f)[f.width * f.height..][row * f.width + column] == Chroma(f, row, column)
  {
    hide Covers, VisibleBytes, Packed, Chroma;
    PackedParts(f);
    ChromaVisible(f, row, column);
  }

  /** Packing keeps every sample. */
  lemma PackedSamples(f: Nv12Frame, row: nat, column: nat)
    requires Covers(f) && column < f.width && row < f.height
    ensures f.width * f.height <= |Packed(f)| && Covers(Tight(f.width, f.height, Packed(f)))
    ensures Luma(Tight(f.width, f.height, Packed(f)), row, column) == Luma(f, row, column)
    ensures Chroma(Tight(f.width, f.height, Packed(f)), row / 2, column) == Chroma(f, row / 2, column)
  {
    HalfRow(f, row);
    hide Packed, HoldsNv12, Luma, Chroma, Covers;
    PackedCovers(f);
    PackedLumaByte(f, row, column);
    PackedChromaByte(f, row / 2, column);
    TightLuma(f.width, f.height, Packed(f), row, column);
    TightChroma(f.width, f.height, Packed(f), row / 2, column);
  }

  lemma HalfRow(f: Nv12Frame, row: nat)
    requires Covers(f) && row < f.height
    ensures row / 2 < f.height / 2
  {
  }

  lemma PackedCovers(f: Nv12Frame)
    requires Covers(f)
    ensures |Packed(f)| == f.width * f.height + f.width * f.height / 2
    ensures HoldsNv12(f.width, f.height, Packed(f)) && f.width * f.height <= |Packed(f)|
    ensures Covers(Tight(f.width, f.height, Packed(f)))
  {
    hide VisibleByte;
    HalfRows(f.width, f.height);
    TightCovers(f.width, f.height, Packed(f));
  }

  lemma SameRowByte(f: Nv12Frame, row: nat, k: nat)
    requires Covers(f) && row < f.height && k < f.width * 2
    ensures f.width * f.height <= |Packed(f)| && Covers(Tight(f.width, f.height, Packed(f)))
    ensures RowByte(Tight(f.width, f.height, Packed(f)), row, k) == RowByte(f, row, k)
  {
    hide Luma, Chroma, Packed;
    PackedSamples(f, row, k / 2);
  }

  lemma SameSize(width: U32, height: U32, f: Nv12Frame, payload: seq<U8>)
    requires f.width == width && f.height == height && width * height <= |payload|
    ensures ImageSize(Tight(width, height, payload)) == ImageSize(f)
  {
  }

  /** Whatever the desktop's converter accepts can be packed, and the Windows filter turns the packed bytes into
      the same YUYV image. */
  lemma SameImage(f: Nv12Frame)
    requires Covers(f)
    ensures HoldsNv12(f.width, f.height, Packed(f)) && f.width * f.height <= |Packed(f)|
    ensures Covers(Tight(f.width, f.height, Packed(f)))
    ensures YuyvImage(Tight(f.width, f.height, Packed(f))) == YuyvImage(f)
  {
    hide Packed, RowByte, Covers, HoldsNv12, ImageSize;
    PackedCovers(f);
    SameSize(f.width, f.height, f, Packed(f));
    forall i | 0 <= i < ImageSize(f)
      ensures YuyvByte(Tight(f.width, f.height, Packed(f)), i) == YuyvByte(f, i)
    {
      ByteInRow(f, i);
      SameRowByte(f, i / (f.width * 2), i % (f.width * 2));
    }
  }
}
