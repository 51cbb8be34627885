/**
  The camera-frame repacking done by `MainActivity.YUV_420_888_to_NV21`.

  The routine copies the whole remaining content of the Y plane, then the whole V plane,
  then the whole U plane into one fresh array. It never reads a plane's row or pixel
  stride, and it never interleaves the two chroma planes.
*/
module YuvConvert {
  import opened Common

  /** One plane of a YUV_420_888 image: the bytes its buffer has remaining, and the
      strides the image declares for it. */
  datatype Plane = Plane(bytes: seq<Byte>, rowStride: int, pixelStride: int)

  /** A captured image: planes 0, 1 and 2 of the image are `y`, `u` and `v`. */
  datatype Image = Image(width: int, height: int, y: Plane, u: Plane, v: Plane)

  /** The three segments an output array is cut into, in output order. */
  datatype Segments = Segments(y: seq<Byte>, v: seq<Byte>, u: seq<Byte>)

  /** The array the converter returns for `image`. */
  function Nv21Of(image: Image): (nv21: seq<Byte>)
    ensures |nv21| == |image.y.bytes| + |image.u.bytes| + |image.v.bytes|
    ensures nv21[..|image.y.bytes|] == image.y.bytes
    ensures nv21[|image.y.bytes|..|image.y.bytes| + |image.v.bytes|] == image.v.bytes
    ensures nv21[|image.y.bytes| + |image.v.bytes|..] == image.u.bytes
  {
    image.y.bytes + image.v.bytes + image.u.bytes
  }

  /** Cuts an output array back into its Y, V and U segments, given the sizes of the
      first two; `None` when the array is too short for them. */
  function SplitNv21(nv21: seq<Byte>, ySize: nat, vSize: nat): (parts: Option<Segments>)
    ensures parts.Some? <==> ySize + vSize <= |nv21|
    ensures parts.Some? ==>
      && |parts.value.y| == ySize
      && |parts.value.v| == vSize
      && |parts.value.y| + |parts.value.v| + |parts.value.u| == |nv21|
  {
    if ySize + vSize <= |nv21| then
      Some(Segments(nv21[..ySize], nv21[ySize..ySize + vSize], nv21[ySize + vSize..]))
    else
      None
  }

  /** Splitting a converted image at its plane sizes recovers the three planes verbatim:
      the output is Y ++ V ++ U, with V before U. */
  lemma SplitAfterConvert(image: Image)
    ensures SplitNv21(Nv21Of(image), |image.y.bytes|, |image.v.bytes|)
         == Some(Segments(image.y.bytes, image.v.bytes, image.u.bytes))
  {
  }

  /** Any array that can be split is exactly the conversion of an image whose planes are
      the segments, so the layout loses nothing. */
  lemma ConvertAfterSplit(nv21: seq<Byte>, ySize: nat, vSize: nat, image: Image)
    requires SplitNv21(nv21, ySize, vSize).Some?
    requires var parts := SplitNv21(nv21, ySize, vSize).value;
      image.y.bytes == parts.y && image.v.bytes == parts.v && image.u.bytes == parts.u
    ensures Nv21Of(image) == nv21
  {
    var parts := SplitNv21(nv21, ySize, vSize).value;
    assert nv21 == parts.y + parts.v + parts.u;
  }

  /** The output depends on plane contents only: image size and plane strides are
      never read. */
  lemma ConversionIgnoresStrides(a: Image, b: Image)
    requires a.y.bytes == b.y.bytes && a.u.bytes == b.u.bytes && a.v.bytes == b.v.bytes
    ensures Nv21Of(a) == Nv21Of(b)
  {
  }

  /** A 4x4 frame with luma 0..15, U = [100..103] and V = [200..203] converts to the luma
      bytes, then all of V, then all of U; the chroma bytes are not paired up as V,U. */
  lemma FourByFourExample()
    ensures
      var luma := seq(16, i requires 0 <= i < 16 => i as Byte);
      var image := Image(4, 4, Plane(luma, 4, 1), Plane([100, 101, 102, 103], 2, 1),
                         Plane([200, 201, 202, 203], 2, 1));
      && Nv21Of(image) == luma + [200, 201, 202, 203, 100, 101, 102, 103]
      && Nv21Of(image) != luma + [200, 100, 201, 101, 202, 102, 203, 103]
  {
    var luma := seq(16, i requires 0 <= i < 16 => i as Byte);
    var planar := luma + [200, 201, 202, 203, 100, 101, 102, 103];
    var paired := luma + [200, 100, 201, 101, 202, 102, 203, 103];
    assert planar[17] != paired[17];
  }

  /** Copies `src` into `dst` from `offset` on, as `ByteBuffer.get(dst, offset, length)`
      does with a buffer's remaining bytes. */
  method CopyPlane(src: seq<Byte>, dst: array<Byte>, offset: nat)
    requires offset + |src| <= dst.Length
    modifies dst
    ensures forall k :: 0 <= k < |src| ==> dst[offset + k] == src[k]
    ensures forall k :: 0 <= k < dst.Length && !(offset <= k < offset + |src|) ==> dst[k] == old(dst[k])
  {
    var i := 0;
    while i < |src|
      invariant 0 <= i <= |src|
      invariant forall k :: 0 <= k < i ==> dst[offset + k] == src[k]
      invariant forall k :: 0 <= k < dst.Length && !(offset <= k < offset + i) ==> dst[k] == old(dst[k])
    {
      dst[offset + i] := src[i];
      i := i + 1;
    }
  }

  /** The converter as written: allocate one array of the summed plane sizes, then copy
      Y at 0, V at ySize and U at ySize + vSize. */
  method YuvToNv21(image: Image) returns (nv21: seq<Byte>)
    ensures nv21 == Nv21Of(image)
  {
    var y, u, v := image.y.bytes, image.u.bytes, image.v.bytes;
    var out := new Byte[|y| + |u| + |v|];
    CopyPlane(y, out, 0);
    CopyPlane(v, out, |y|);
    CopyPlane(u, out, |y| + |v|);
    nv21 := out[..];
    forall k | 0 <= k < |nv21|
      ensures nv21[k] == Nv21Of(image)[k]
    {
      if k < |y| {
        assert nv21[0 + k] == y[k];
      } else if k < |y| + |v| {
        assert nv21[|y| + (k - |y|)] == v[k - |y|];
      } else {
        assert nv21[|y| + |v| + (k - |y| - |v|)] == u[k - |y| - |v|];
      }
    }
  }
}
