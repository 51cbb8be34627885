/**
  The processed-frame slot of `native-opengl.cpp`: one global descriptor holding an RGBA
  buffer and its width and height, written by `update_processed_from_gray`, read by the
  buffer getter and reset by `nativeDestroyGL`.

  The three calls modelled here (update, buffer getter, destroy) hold the slot's mutex for
  their whole bodies, so each is one atomic step: a pure function from the old slot to the
  new one.
*/
module ProcessedSlot {
  import opened Common

  /** The slot: `buffer` is `None` when the C pointer is null. */
  datatype Slot = Slot(buffer: Option<seq<Byte>>, width: int, height: int)

  /** The slot at library load and after `nativeDestroyGL`. */
  const Empty: Slot := Slot(None, 0, 0)

  /** Bytes of an RGBA image of the given size, four per pixel. */
  function RgbaSize(width: int, height: int): int
  {
    width * height * 4
  }

  /** What the native code keeps true of the slot: non-negative dimensions, and a buffer,
      when present, of exactly four bytes per pixel. */
  predicate Valid(s: Slot)
  {
    && s.width >= 0 && s.height >= 0
    && (s.buffer.Some? ==> |s.buffer.value| == RgbaSize(s.width, s.height))
  }

  /** Grayscale expanded to RGBA: every gray byte becomes R = G = B = gray, A = 255. */
  function RgbaFromGray(gray: seq<Byte>): (rgba: seq<Byte>)
    ensures |rgba| == 4 * |gray|
    ensures forall j :: 0 <= j < |rgba| ==> rgba[j] == (if j % 4 == 3 then 255 else gray[j / 4])
  {
    if |gray| == 0 then []
    else [gray[0], gray[0], gray[0], 255] + RgbaFromGray(gray[1..])
  }

  /** The red channel of an RGBA buffer, one byte per whole pixel. */
  function RedChannel(rgba: seq<Byte>): (gray: seq<Byte>)
    ensures |gray| == |rgba| / 4
  {
    if |rgba| < 4 then [] else [rgba[0]] + RedChannel(rgba[4..])
  }

  /** The expansion loses nothing: the red channel gives the gray image back. */
  lemma {:induction false} RedChannelOfExpansion(gray: seq<Byte>)
    ensures RedChannel(RgbaFromGray(gray)) == gray
  {
    if |gray| > 0 {
      var rgba := RgbaFromGray(gray);
      assert rgba[4..] == RgbaFromGray(gray[1..]);
      RedChannelOfExpansion(gray[1..]);
      assert gray == [gray[0]] + gray[1..];
    }
  }

  /** Byte offsets within pixel `i` of a four-byte-per-pixel buffer. */
  lemma DivMod4(i: int)
    requires 0 <= i
    ensures (4 * i) / 4 == i && (4 * i + 1) / 4 == i && (4 * i + 2) / 4 == i && (4 * i + 3) / 4 == i
    ensures (4 * i) % 4 == 0 && (4 * i + 1) % 4 == 1 && (4 * i + 2) % 4 == 2 && (4 * i + 3) % 4 == 3
  {
  }

  /** Pixel `i` of the expansion is the four bytes gray[i], gray[i], gray[i], 255. */
  lemma PixelOfExpansion(gray: seq<Byte>, i: int)
    requires 0 <= i < |gray|
    ensures var rgba := RgbaFromGray(gray);
      && rgba[4 * i] == gray[i] && rgba[4 * i + 1] == gray[i] && rgba[4 * i + 2] == gray[i]
      && rgba[4 * i + 3] == 255
  {
    DivMod4(i);
  }

  /** The new slot, and whether the call freed and re-allocated the buffer. */
  datatype UpdateResult = UpdateResult(slot: Slot, reallocated: bool)

  /** What `update_processed_from_gray` demands of its caller: non-negative dimensions,
      at least width * height gray bytes, and an RGBA size that fits in a C `int`. */
  predicate UpdateArgsOk(gray: seq<Byte>, width: int, height: int)
  {
    0 <= width && 0 <= height && width * height <= |gray| && RgbaSize(width, height) <= IntMax
  }

  /** `update_processed_from_gray`. The buffer is re-allocated exactly when the slot is
      empty or its dimensions differ; afterwards the slot has the new dimensions and
      holds the first width * height gray bytes expanded to RGBA. */
  function UpdateFromGray(s: Slot, gray: seq<Byte>, width: int, height: int): (r: UpdateResult)
    requires Valid(s) && UpdateArgsOk(gray, width, height)
    ensures r.reallocated <==> s.buffer.None? || s.width != width || s.height != height
    ensures r.slot.width == width && r.slot.height == height
    ensures r.slot.buffer.Some? && |r.slot.buffer.value| == RgbaSize(width, height)
    ensures forall j :: 0 <= j < |r.slot.buffer.value| ==>
      r.slot.buffer.value[j] == (if j % 4 == 3 then 255 else gray[j / 4])
    ensures Valid(r.slot)
  {
    var reallocated := s.buffer.None? || s.width != width || s.height != height;
    UpdateResult(Slot(Some(RgbaFromGray(gray[..width * height])), width, height), reallocated)
  }

  /** The conversion loop: overwrites every byte of `target`, a buffer of four bytes per
      pixel, with the expansion of the first `n` gray bytes. */
  method FillFromGray(gray: seq<Byte>, n: nat, target: seq<Byte>) returns (buf: seq<Byte>)
    requires n <= |gray| && |target| == 4 * n
    ensures buf == RgbaFromGray(gray[..n])
  {
    buf := target;
    for i := 0 to n
      invariant |buf| == 4 * n
      invariant forall j :: 0 <= j < 4 * i ==> buf[j] == (if j % 4 == 3 then 255 else gray[j / 4])
    {
      var p := gray[i];
      buf := buf[4 * i := p][4 * i + 1 := p][4 * i + 2 := p][4 * i + 3 := 255];
    }
    var expected := RgbaFromGray(gray[..n]);
    assert forall j :: 0 <= j < |buf| ==> buf[j] == expected[j];
  }

  /** `update_processed_from_gray` step by step: `malloced` is what `malloc` hands back
      (contents unspecified). A reused buffer is written in place, and since the loop
      overwrites all of it, neither its old contents nor `malloced` show in the result. */
  method UpdateInPlace(s: Slot, gray: seq<Byte>, width: int, height: int, malloced: seq<Byte>)
    returns (r: UpdateResult)
    requires Valid(s) && UpdateArgsOk(gray, width, height)
    requires |malloced| == RgbaSize(width, height)
    ensures r == UpdateFromGray(s, gray, width, height)
  {
    var reallocate := s.buffer.None? || s.width != width || s.height != height;
    var target := if reallocate then malloced else s.buffer.value;
    var buf := FillFromGray(gray, width * height, target);
    r := UpdateResult(Slot(Some(buf), width, height), reallocate);
  }

  /** Repeating an update with the same gray image and size changes nothing and does not
      re-allocate. */
  lemma UpdateIdempotent(s: Slot, gray: seq<Byte>, width: int, height: int)
    requires Valid(s) && UpdateArgsOk(gray, width, height)
    ensures var first := UpdateFromGray(s, gray, width, height);
      var second := UpdateFromGray(first.slot, gray, width, height);
      second.slot == first.slot && !second.reallocated
  {
  }

  /** Latest wins: the slot after an update depends on that update's arguments only, not
      on anything written before. */
  lemma LatestWriteWins(s: Slot, t: Slot, gray: seq<Byte>, width: int, height: int)
    requires Valid(s) && Valid(t) && UpdateArgsOk(gray, width, height)
    ensures UpdateFromGray(s, gray, width, height).slot == UpdateFromGray(t, gray, width, height).slot
  {
  }

  /** `nativeGetProcessedFrameBuffer`: nothing when there is no buffer or a dimension is
      zero; otherwise a view of width * height * 4 bytes, which is the whole buffer. */
  function GetProcessedFrameBuffer(s: Slot): (r: Option<seq<Byte>>)
    requires Valid(s)
    ensures r.None? <==> s.buffer.None? || s.width == 0 || s.height == 0
    ensures r.Some? ==> |r.value| == RgbaSize(s.width, s.height) && r.value == s.buffer.value
  {
    if s.buffer.None? || s.width == 0 || s.height == 0 then None
    else Some(s.buffer.value[..RgbaSize(s.width, s.height)])
  }

  /** `nativeDestroyGL`: frees the buffer and zeroes both dimensions. */
  function DestroyGL(s: Slot): (r: Slot)
    ensures r.buffer.None? && r.width == 0 && r.height == 0
    ensures Valid(r)
  {
    Empty
  }

  /** After destroy, the buffer getter reports nothing, whatever the slot held. */
  lemma ReadAfterDestroy(s: Slot)
    ensures GetProcessedFrameBuffer(DestroyGL(s)).None?
  {
  }

  /** After an update with positive dimensions, the getter exposes exactly the expanded
      gray image. */
  lemma ReadAfterUpdate(s: Slot, gray: seq<Byte>, width: int, height: int)
    requires Valid(s) && UpdateArgsOk(gray, width, height) && width > 0 && height > 0
    ensures GetProcessedFrameBuffer(UpdateFromGray(s, gray, width, height).slot)
         == Some(RgbaFromGray(gray[..width * height]))
  {
  }
}
