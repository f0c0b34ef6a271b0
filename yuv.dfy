/** Repacking a YUV_420_888 camera image into one NV21 byte buffer: the Y
    plane row by row, then the chroma samples as interleaved V, U pairs. The
    planes' buffers are only read; the output array is filled in place. */
module YuvUtils {

  type byte = bv8

  /** One image plane: its buffer (read from position 0) and its strides. */
  datatype Plane = Plane(buffer: seq<byte>, rowStride: int, pixelStride: int)

  /** A YUV_420_888 image: the Y plane at full size and the U and V planes
      at half width and half height. */
  datatype Image = Image(width: nat, height: nat, y: Plane, u: Plane, v: Plane)

  /** Every sample of a `width` x `height` grid lies inside the buffer. */
  ghost predicate Covers(p: Plane, width: nat, height: nat) {
    && p.rowStride >= 0 && p.pixelStride >= 0
    && (width > 0 && height > 0 ==>
          (height - 1) * p.rowStride + (width - 1) * p.pixelStride < |p.buffer|)
  }

  ghost predicate WellFormed(img: Image) {
    && img.width > 0
    && Covers(img.y, img.width, img.height)
    && Covers(img.u, img.width / 2, img.height / 2)
    && Covers(img.v, img.width / 2, img.height / 2)
  }

  // ---------------------------------------------------------------------------
  // Index arithmetic

  lemma MulMono(a: int, b: int, c: int)
    requires 0 <= a <= b && c >= 0
    ensures 0 <= a * c <= b * c
  {
  }

  lemma SampleInPlane(p: Plane, width: nat, height: nat, row: nat, col: nat)
    requires Covers(p, width, height) && row < height && col < width
    ensures 0 <= row * p.rowStride + col * p.pixelStride < |p.buffer|
  {
    MulMono(row, height - 1, p.rowStride);
    MulMono(col, width - 1, p.pixelStride);
  }

  /** Position `row * width + col` of a row-major grid is sample (row, col). */
  lemma FlatIndex(row: nat, col: nat, width: nat)
    requires col < width
    ensures (row * width + col) / width == row && (row * width + col) % width == col
  {
    var k := row * width + col;
    var q, r := k / width, k % width;
    assert q * width + r == k && 0 <= r < width;
    if q > row {
      MulMono(row + 1, q, width);
    } else if q < row {
      MulMono(q + 1, row, width);
    }
  }

  /** A position of a `width` x `height` grid lies in a row below `height`. */
  lemma FlatBelow(k: nat, width: nat, height: nat)
    requires k < width * height
    ensures width > 0 && k / width < height && k % width < width
  {
    assert width > 0;
    var q := k / width;
    if q >= height {
      MulMono(height, q, width);
    }
  }

  lemma MulStep(a: int, b: int)
    ensures (a + 1) * b == a * b + b
  {
  }

  lemma RowFits(row: nat, col: nat, width: nat, height: nat)
    requires row < height && col <= width
    ensures row * width + col <= width * height
  {
    MulMono(row + 1, height, width);
  }

  // ---------------------------------------------------------------------------
  // What the output holds

  /** The byte `get(row * rowStride + col * pixelStride)` of a plane. */
  function Sample(p: Plane, width: nat, height: nat, row: nat, col: nat): byte
    requires Covers(p, width, height) && row < height && col < width
  {
    SampleInPlane(p, width, height, row, col);
    p.buffer[row * p.rowStride + col * p.pixelStride]
  }

  /** The `k`-th byte of the plane packed row after row without padding. */
  function Packed(p: Plane, width: nat, height: nat, k: nat): byte
    requires Covers(p, width, height) && k < width * height
  {
    FlatBelow(k, width, height);
    Sample(p, width, height, k / width, k % width)
  }

  /** Sample (row, col) is the packed byte `row * width + col`. */
  lemma PackedSample(p: Plane, width: nat, height: nat, row: nat, col: nat)
    requires Covers(p, width, height) && row < height && col < width
    ensures row * width + col < width * height
    ensures Packed(p, width, height, row * width + col) == Sample(p, width, height, row, col)
  {
    RowFits(row, col + 1, width, height);
    FlatIndex(row, col, width);
  }

  function YSize(img: Image): nat { img.width * img.height }

  /** `ySize + uvSize`, the length of the output. */
  function OutSize(img: Image): nat { img.width * img.height + img.width * img.height / 2 }

  /** Where the chroma loop stops writing. */
  function ChromaEnd(img: Image): nat { YSize(img) + 2 * ((img.width / 2) * (img.height / 2)) }

  /** The chroma pairs fit in the `uvSize` bytes reserved for them. */
  lemma ChromaFits(img: Image)
    ensures YSize(img) <= ChromaEnd(img) <= OutSize(img)
  {
    var w, h := img.width, img.height;
    var cw, ch := w / 2, h / 2;
    MulMono(2 * cw, w, 2 * ch);
    MulMono(2 * ch, h, w);
    assert 4 * (cw * ch) == (2 * cw) * (2 * ch);
    assert 4 * (cw * ch) <= w * h;
  }

  /** The NV21 byte at position `k`: Y samples, then V/U pairs, then any
      bytes left over (odd sizes) stay 0. */
  function Nv21At(img: Image, k: nat): byte
    requires WellFormed(img)
  {
    var cw, ch := img.width / 2, img.height / 2;
    if k < YSize(img) then Packed(img.y, img.width, img.height, k)
    else if k < ChromaEnd(img) then
      var j := (k - YSize(img)) / 2;
      if (k - YSize(img)) % 2 == 0 then Packed(img.v, cw, ch, j) else Packed(img.u, cw, ch, j)
    else 0
  }

  // ---------------------------------------------------------------------------
  // Layout properties

  /** Pixel (r, c) of the Y plane lands at `r * width + c`. */
  lemma YLayout(img: Image, r: nat, c: nat)
    requires WellFormed(img) && r < img.height && c < img.width
    ensures r * img.width + c < YSize(img)
    ensures Nv21At(img, r * img.width + c) == Sample(img.y, img.width, img.height, r, c)
  {
    RowFits(r, c + 1, img.width, img.height);
    FlatIndex(r, c, img.width);
    ChromaFits(img);
  }

  /** Chroma sample (r, c) is the pair at `ySize + 2 * (r * (width / 2) + c)`, V first. */
  lemma ChromaLayout(img: Image, r: nat, c: nat)
    requires WellFormed(img) && r < img.height / 2 && c < img.width / 2
    ensures var k := YSize(img) + 2 * (r * (img.width / 2) + c);
      && k + 1 < ChromaEnd(img) <= OutSize(img)
      && Nv21At(img, k) == Sample(img.v, img.width / 2, img.height / 2, r, c)
      && Nv21At(img, k + 1) == Sample(img.u, img.width / 2, img.height / 2, r, c)
  {
    var cw, ch := img.width / 2, img.height / 2;
    var j := r * cw + c;
    RowFits(r, c + 1, cw, ch);
    FlatIndex(r, c, cw);
    ChromaFits(img);
    assert (2 * j) / 2 == j && (2 * j) % 2 == 0;
    assert (2 * j + 1) / 2 == j && (2 * j + 1) % 2 == 1;
  }

  /** For even sizes the chroma pairs fill the output exactly. */
  lemma EvenSizesNoPadding(img: Image)
    requires img.width % 2 == 0 && img.height % 2 == 0
    ensures ChromaEnd(img) == OutSize(img)
  {
    var cw, ch := img.width / 2, img.height / 2;
    assert img.width * img.height == 4 * (cw * ch);
  }

  /** When a plane is tightly packed the packed bytes are the buffer's own
      first bytes: the block copy and the row-by-row copy agree. */
  lemma FastPathAgrees(p: Plane, width: nat, height: nat, k: nat)
    requires Covers(p, width, height) && k < width * height
    requires p.pixelStride == 1 && p.rowStride == width
    ensures k < |p.buffer| && Packed(p, width, height, k) == p.buffer[k]
  {
    FlatBelow(k, width, height);
    assert (k / width) * width + k % width == k;
  }

  // ---------------------------------------------------------------------------
  // The copying code

  /** `ByteBuffer.get(dst, offset, length)` from buffer position `srcPos`. */
  method BulkGet(src: seq<byte>, srcPos: nat, out: array<byte>, outPos: nat, len: nat)
    requires srcPos + len <= |src| && outPos + len <= out.Length
    modifies out
    ensures forall i :: outPos <= i < outPos + len ==> out[i] == src[srcPos + (i - outPos)]
    ensures forall i :: 0 <= i < out.Length && !(outPos <= i < outPos + len) ==> out[i] == old(out[i])
  {
    for n := 0 to len
      invariant forall i :: outPos <= i < outPos + n ==> out[i] == src[srcPos + (i - outPos)]
      invariant forall i :: 0 <= i < out.Length && !(outPos <= i < outPos + n) ==> out[i] == old(out[i])
    {
      out[outPos + n] := src[srcPos + n];
    }
  }

  /** One row of a plane, sample by sample (or in one block when the
      samples are adjacent), written to `out[outPos .. outPos + width]`. */
  method CopyRow(p: Plane, width: nat, height: nat, row: nat, out: array<byte>, outPos: nat)
    requires Covers(p, width, height) && width > 0 && row < height
    requires outPos + width <= out.Length
    modifies out
    ensures forall i :: outPos <= i < outPos + width ==> out[i] == Sample(p, width, height, row, i - outPos)
    ensures forall i :: 0 <= i < out.Length && !(outPos <= i < outPos + width) ==> out[i] == old(out[i])
  {
    var srcPos := row * p.rowStride;
    if p.pixelStride == 1 {
      SampleInPlane(p, width, height, row, width - 1);
      BulkGet(p.buffer, srcPos, out, outPos, width);
      return;
    }
    var pos := outPos;
    var col := 0;
    while col < width
      invariant 0 <= col <= width && pos == outPos + col
      invariant srcPos == row * p.rowStride + col * p.pixelStride
      invariant forall i :: outPos <= i < pos ==> out[i] == Sample(p, width, height, row, i - outPos)
      invariant forall i :: 0 <= i < out.Length && !(outPos <= i < pos) ==> out[i] == old(out[i])
    {
      SampleInPlane(p, width, height, row, col);
      out[pos] := p.buffer[srcPos];
      MulStep(col, p.pixelStride);
      pos := pos + 1;
      srcPos := srcPos + p.pixelStride;
      col := col + 1;
    }
  }

  /** The fast path of `copyPlane`: a tightly packed plane is copied as one block. */
  method CopyBlock(p: Plane, width: nat, height: nat, out: array<byte>, offset: nat)
    requires Covers(p, width, height) && width > 0
    requires p.pixelStride == 1 && p.rowStride == width
    requires offset + width * height <= out.Length
    modifies out
    ensures forall i :: offset <= i < offset + width * height ==> out[i] == Packed(p, width, height, i - offset)
    ensures forall i :: 0 <= i < out.Length && !(offset <= i < offset + width * height) ==> out[i] == old(out[i])
  {
    if height > 0 {
      SampleInPlane(p, width, height, height - 1, width - 1);
      MulStep(height - 1, width);
    }
    BulkGet(p.buffer, 0, out, offset, width * height);
    forall i | offset <= i < offset + width * height
      ensures out[i] == Packed(p, width, height, i - offset)
    {
      FastPathAgrees(p, width, height, i - offset);
    }
  }

  /** `copyPlane`: writes the plane, packed, to `out[offset ..]` and nothing else. */
  method CopyPlane(p: Plane, width: nat, height: nat, out: array<byte>, offset: nat)
    requires Covers(p, width, height) && width > 0
    requires offset + width * height <= out.Length
    modifies out
    ensures forall i :: offset <= i < offset + width * height ==> out[i] == Packed(p, width, height, i - offset)
    ensures forall i :: 0 <= i < out.Length && !(offset <= i < offset + width * height) ==> out[i] == old(out[i])
  {
    var outPos := offset;
    if p.pixelStride == 1 && p.rowStride == width {
      CopyBlock(p, width, height, out, outPos);
      return;
    }
    // row by row
    var row := 0;
    while row < height
      invariant 0 <= row <= height
      invariant outPos == offset + row * width && outPos <= offset + width * height
      invariant forall i :: offset <= i < outPos ==> out[i] == Packed(p, width, height, i - offset)
      invariant forall i :: 0 <= i < out.Length && !(offset <= i < outPos) ==> out[i] == old(out[i])
    {
      RowFits(row, width, width, height);
      CopyRow(p, width, height, row, out, outPos);
      forall i | outPos <= i < outPos + width
        ensures out[i] == Packed(p, width, height, i - offset)
      {
        assert i - offset == row * width + (i - outPos);
        PackedSample(p, width, height, row, i - outPos);
      }
      MulStep(row, width);
      outPos := outPos + width;
      row := row + 1;
    }
    assert height * width == width * height;
  }

  /** One row of chroma pairs, V then U, written from `pos`. */
  method CopyChromaRow(img: Image, row: nat, out: array<byte>, pos: nat)
    requires WellFormed(img) && row < img.height / 2
    requires pos == YSize(img) + 2 * (row * (img.width / 2))
    requires out.Length == OutSize(img) && pos + 2 * (img.width / 2) <= out.Length
    modifies out
    ensures forall k :: pos <= k < pos + 2 * (img.width / 2) ==> out[k] == Nv21At(img, k)
    ensures forall k :: 0 <= k < out.Length && !(pos <= k < pos + 2 * (img.width / 2)) ==> out[k] == old(out[k])
  {
    var chromaWidth, chromaHeight := img.width / 2, img.height / 2;
    var uRowPos := row * img.u.rowStride;
    var vRowPos := row * img.v.rowStride;
    var p := pos;
    for col := 0 to chromaWidth
      invariant p == pos + 2 * col
      invariant uRowPos == row * img.u.rowStride + col * img.u.pixelStride
      invariant vRowPos == row * img.v.rowStride + col * img.v.pixelStride
      invariant forall k :: pos <= k < p ==> out[k] == Nv21At(img, k)
      invariant forall k :: 0 <= k < out.Length && !(pos <= k < p) ==> out[k] == old(out[k])
    {
      ChromaLayout(img, row, col);
      SampleInPlane(img.u, chromaWidth, chromaHeight, row, col);
      SampleInPlane(img.v, chromaWidth, chromaHeight, row, col);
      // NV21 puts V before U
      out[p] := img.v.buffer[vRowPos];
      out[p + 1] := img.u.buffer[uRowPos];
      p := p + 2;
      MulStep(col, img.u.pixelStride);
      MulStep(col, img.v.pixelStride);
      uRowPos := uRowPos + img.u.pixelStride;
      vRowPos := vRowPos + img.v.pixelStride;
    }
  }

  /** The chroma part of `yuv420ToNv21`: with the Y bytes in place and the
      rest still 0, writes every V/U pair and leaves the padding at 0. */
  method CopyChroma(img: Image, out: array<byte>)
    requires WellFormed(img) && out.Length == OutSize(img)
    requires forall k :: 0 <= k < YSize(img) ==> out[k] == Nv21At(img, k)
    requires forall k :: YSize(img) <= k < out.Length ==> out[k] == 0
    modifies out
    ensures forall k :: 0 <= k < out.Length ==> out[k] == Nv21At(img, k)
  {
    var ySize := img.width * img.height;
    var chromaHeight, chromaWidth := img.height / 2, img.width / 2;
    ChromaFits(img);
    var pos := ySize;
    for row := 0 to chromaHeight
      invariant pos == ySize + 2 * (row * chromaWidth)
      invariant pos <= ChromaEnd(img)
      invariant forall k :: 0 <= k < pos ==> out[k] == Nv21At(img, k)
      invariant forall k :: pos <= k < out.Length ==> out[k] == 0
    {
      RowFits(row, chromaWidth, chromaWidth, chromaHeight);
      assert chromaWidth * chromaHeight == chromaHeight * chromaWidth;
      CopyChromaRow(img, row, out, pos);
      MulStep(row, chromaWidth);
      pos := pos + 2 * chromaWidth;
    }
    assert pos == ChromaEnd(img) by {
      assert chromaWidth * chromaHeight == chromaHeight * chromaWidth;
    }
  }

  /** `yuv420ToNv21`: a fresh array holding the NV21 bytes of the image. */
  method Yuv420ToNv21(img: Image) returns (out: array<byte>)
    requires WellFormed(img)
    ensures fresh(out)
    ensures out.Length == OutSize(img)
    ensures forall k :: 0 <= k < out.Length ==> out[k] == Nv21At(img, k)
  {
    var width, height := img.width, img.height;
    var ySize := width * height;
    var uvSize := width * height / 2;
    out := new byte[ySize + uvSize](_ => 0);
    CopyPlane(img.y, width, height, out, 0);
    CopyChroma(img, out);
  }
}
