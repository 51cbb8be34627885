/**
  `GLRenderer.onDrawFrame` as a state machine. The renderer's only state is the size it
  last allocated the texture at (`frameWidth`, `frameHeight`); a draw tick reads the
  processed-frame descriptor and yields the next state and the GL calls it makes, in order.

  GL itself is a small abstract machine over one texture, so that what a tick leaves in
  the texture can be stated.
*/
module Renderer {
  import opened Common
  import ProcessedSlot
  import Quad

  /** What `onDrawFrame` fetches: the buffer (or null), the width and the height. */
  datatype Descriptor = Descriptor(buffer: Option<seq<Byte>>, width: int, height: int)

  /** The three getter calls at the top of `onDrawFrame`, taken as one step: the buffer,
      width and height then describe one and the same frame. */
  function ReadDescriptor(s: ProcessedSlot.Slot): (d: Descriptor)
    requires ProcessedSlot.Valid(s)
    ensures d.width == s.width && d.height == s.height
    ensures Drawable(d) <==> s.buffer.Some? && s.width > 0 && s.height > 0
    ensures Drawable(d) ==> |d.buffer.value| == ProcessedSlot.RgbaSize(d.width, d.height)
    ensures d.buffer.Some? ==> d.buffer == s.buffer
  {
    Descriptor(ProcessedSlot.GetProcessedFrameBuffer(s), s.width, s.height)
  }

  /** The guard of the upload-and-draw block. */
  predicate Drawable(d: Descriptor)
  {
    d.buffer.Some? && d.width > 0 && d.height > 0
  }

  datatype RendererState = RendererState(frameWidth: int, frameHeight: int)

  /** The renderer as constructed: no texture storage allocated yet. */
  const Initial: RendererState := RendererState(0, 0)

  predicate SizeDiffers(st: RendererState, d: Descriptor)
  {
    st.frameWidth != d.width || st.frameHeight != d.height
  }

  datatype Topology = TriangleStrip

  /** The GL calls of one tick that matter to the model. Attribute set-up, the sampler
      uniform and `glUseProgram` are folded into `DrawArrays`, which carries the vertex
      data the attributes point at. */
  datatype GlCall =
    | Clear
    | BindTexture
    | TexImage2D(width: int, height: int, pixels: seq<Byte>)
    | TexSubImage2D(width: int, height: int, pixels: seq<Byte>)
    | DrawArrays(mode: Topology, first: int, count: int, vertices: seq<int>)
    | UnbindTexture

  predicate IsTextureCall(c: GlCall)
  {
    c.BindTexture? || c.TexImage2D? || c.TexSubImage2D? || c.UnbindTexture?
  }

  predicate Reallocates(calls: seq<GlCall>)
  {
    exists k :: 0 <= k < |calls| && calls[k].TexImage2D?
  }

  predicate UpdatesInPlace(calls: seq<GlCall>)
  {
    exists k :: 0 <= k < |calls| && calls[k].TexSubImage2D?
  }

  predicate Draws(calls: seq<GlCall>)
  {
    exists k :: 0 <= k < |calls| && calls[k].DrawArrays?
  }

  /** The next renderer state and the GL calls of one tick. */
  datatype Tick = Tick(state: RendererState, calls: seq<GlCall>)

  /** `onDrawFrame`. Every tick clears first. Without a drawable descriptor nothing else
      happens and the state is kept. With one, the texture is re-allocated exactly when
      the size differs from the recorded one, updated in place otherwise, and the quad is
      drawn once as a 4-vertex triangle strip after the upload; the recorded size becomes
      the descriptor's. */
  function DrawFrame(st: RendererState, d: Descriptor): (t: Tick)
    ensures |t.calls| > 0 && t.calls[0] == Clear
    ensures forall k :: 0 < k < |t.calls| ==> t.calls[k] != Clear
    ensures !Drawable(d) ==> t.state == st && t.calls == [Clear]
    ensures Drawable(d) ==> t.state == RendererState(d.width, d.height)
    ensures Reallocates(t.calls) <==> Drawable(d) && SizeDiffers(st, d)
    ensures UpdatesInPlace(t.calls) <==> Drawable(d) && !SizeDiffers(st, d)
    ensures Draws(t.calls) <==> Drawable(d)
    ensures forall i, j :: 0 <= i < j < |t.calls| && t.calls[i].DrawArrays? ==>
      !(t.calls[j].TexImage2D? || t.calls[j].TexSubImage2D? || t.calls[j].DrawArrays?)
    ensures forall i, j :: 0 <= i < j < |t.calls| && t.calls[j].TexImage2D? ==> !t.calls[i].TexSubImage2D?
    ensures forall i, j :: 0 <= i < j < |t.calls| && t.calls[j].TexSubImage2D? ==> !t.calls[i].TexImage2D?
    ensures forall k :: 0 <= k < |t.calls| && t.calls[k].DrawArrays? ==>
      t.calls[k] == DrawArrays(TriangleStrip, 0, Quad.VertexCount, Quad.VertexData)
  {
    if !Drawable(d) then
      Tick(st, [Clear])
    else
      var upload :=
        if SizeDiffers(st, d) then TexImage2D(d.width, d.height, d.buffer.value)
        else TexSubImage2D(st.frameWidth, st.frameHeight, d.buffer.value);
      var calls := [Clear, BindTexture, upload,
                    DrawArrays(TriangleStrip, 0, Quad.VertexCount, Quad.VertexData), UnbindTexture];
      assert calls[2] == upload && calls[3].DrawArrays?;
      Tick(RendererState(d.width, d.height), calls)
  }

  /** The first drawable frame after construction always re-allocates: the recorded size
      starts at 0 x 0 and a drawable frame has both sides positive. */
  lemma FirstDrawableFrameReallocates(d: Descriptor)
    requires Drawable(d)
    ensures Reallocates(DrawFrame(Initial, d).calls)
    ensures !UpdatesInPlace(DrawFrame(Initial, d).calls)
  {
  }

  /** Two drawable frames of the same size in a row: the second only updates in place,
      so there are never two re-allocations for one size. */
  lemma SameSizeTwiceUpdatesInPlace(st: RendererState, d1: Descriptor, d2: Descriptor)
    requires Drawable(d1) && Drawable(d2) && d1.width == d2.width && d1.height == d2.height
    ensures var second := DrawFrame(DrawFrame(st, d1).state, d2);
      UpdatesInPlace(second.calls) && !Reallocates(second.calls)
  {
  }

  /** A tick with nothing to draw neither touches the texture nor draws. */
  lemma EmptyTickOnlyClears(st: RendererState, d: Descriptor)
    requires !Drawable(d)
    ensures forall k :: 0 <= k < |DrawFrame(st, d).calls| ==>
      !IsTextureCall(DrawFrame(st, d).calls[k]) && !DrawFrame(st, d).calls[k].DrawArrays?
  {
  }

  // ---------------------------------------------------------------------------------
  // The texture the calls act on.

  datatype Texture = Texture(width: int, height: int, pixels: seq<Byte>)

  /** The texture `onSurfaceCreated` generates: a name with no storage. */
  const Unallocated: Texture := Texture(0, 0, [])

  /** One call's effect on the bound texture. `glTexImage2D` gives it new storage of the
      given size from the first width * height * 4 bytes of the pixels;
      `glTexSubImage2D` at (0, 0) over the whole texture replaces its contents. Anything
      else leaves it unchanged. */
  function Execute(tex: Texture, call: GlCall): Texture
  {
    match call
    case TexImage2D(w, h, px) =>
      if 0 <= w && 0 <= h && ProcessedSlot.RgbaSize(w, h) <= |px| then
        Texture(w, h, px[..ProcessedSlot.RgbaSize(w, h)])
      else tex
    case TexSubImage2D(w, h, px) =>
      if w == tex.width && h == tex.height && 0 <= w && 0 <= h && ProcessedSlot.RgbaSize(w, h) <= |px| then
        Texture(w, h, px[..ProcessedSlot.RgbaSize(w, h)])
      else tex
    case _ => tex
  }

  function ExecuteAll(tex: Texture, calls: seq<GlCall>): Texture
    decreases |calls|
  {
    if |calls| == 0 then tex else ExecuteAll(Execute(tex, calls[0]), calls[1..])
  }

  predicate IsUpload(c: GlCall)
  {
    c.TexImage2D? || c.TexSubImage2D?
  }

  /** Calls that upload nothing leave the texture as it was. */
  lemma {:induction false} NonUploadsKeepTexture(tex: Texture, calls: seq<GlCall>)
    requires forall k :: 0 <= k < |calls| ==> !IsUpload(calls[k])
    ensures ExecuteAll(tex, calls) == tex
    decreases |calls|
  {
    if |calls| > 0 {
      NonUploadsKeepTexture(tex, calls[1..]);
    }
  }

  /** A call list whose only upload is its third call acts on the texture as that
      upload alone, as every drawable tick's calls do. */
  lemma OnlyThirdCallUploads(tex: Texture, c: seq<GlCall>)
    requires |c| >= 3 && !IsUpload(c[0]) && !IsUpload(c[1])
    requires forall k :: 3 <= k < |c| ==> !IsUpload(c[k])
    ensures ExecuteAll(tex, c) == Execute(tex, c[2])
  {
    var loaded := Execute(tex, c[2]);
    NonUploadsKeepTexture(loaded, c[3..]);
    assert c[2..][1..] == c[3..];
    assert ExecuteAll(tex, c[2..]) == loaded;
    assert c[1..][1..] == c[2..];
    assert Execute(tex, c[1]) == tex;
    assert ExecuteAll(tex, c[1..]) == loaded;
    assert Execute(tex, c[0]) == tex;
  }

  /** The recorded size is the size of the texture's storage. */
  predicate InSync(st: RendererState, tex: Texture)
  {
    tex.width == st.frameWidth && tex.height == st.frameHeight
  }

  /** A freshly constructed renderer and a freshly generated texture agree: both 0 x 0. */
  lemma InSyncInitially()
    ensures InSync(Initial, Unallocated)
  {
  }

  /** `onSurfaceCreated` as written: a new GL context gets a new texture name with no
      storage, while `frameWidth` and `frameHeight` keep whatever size they last recorded.
      `GLSurfaceView` releases its context on pause, so this runs again on every resume
      with the old renderer object. */
  function SurfaceCreatedAsWritten(st: RendererState): (r: (RendererState, Texture))
    ensures r.0 == st && r.1 == Unallocated
    ensures InSync(r.0, r.1) <==> st == Initial
  {
    (st, Unallocated)
  }

  /** After the context is re-created with a size already recorded, the next frame of that
      same size only issues `glTexSubImage2D` on the storage-less texture: that upload
      fails, the texture stays empty and does not hold the slot's frame. */
  lemma StaleSizeAfterContextLoss(buf: seq<Byte>)
    requires |buf| == ProcessedSlot.RgbaSize(4, 4)
    ensures var created := SurfaceCreatedAsWritten(RendererState(4, 4));
      var t := DrawFrame(created.0, Descriptor(Some(buf), 4, 4));
      && !Reallocates(t.calls)
      && ExecuteAll(created.1, t.calls) == Unallocated
      && ExecuteAll(created.1, t.calls) != Texture(4, 4, buf)
  {
    var created := SurfaceCreatedAsWritten(RendererState(4, 4));
    var c := DrawFrame(created.0, Descriptor(Some(buf), 4, 4)).calls;
    OnlyThirdCallUploads(Unallocated, c);
  }

  /** `onSurfaceCreated` with the recorded size reset to 0 x 0 together with the new
      texture: the renderer and the texture agree again. */
  function SurfaceCreated(st: RendererState): (r: (RendererState, Texture))
    ensures InSync(r.0, r.1)
    ensures r.1 == Unallocated
  {
    (Initial, Unallocated)
  }

  /** After the corrected `onSurfaceCreated`, the first drawable frame re-allocates and
      leaves the texture holding exactly the slot's frame, whatever size was recorded
      before the context was lost. */
  lemma SurfaceCreatedThenTickMirrorsSlot(st: RendererState, s: ProcessedSlot.Slot)
    requires ProcessedSlot.Valid(s) && Drawable(ReadDescriptor(s))
    ensures var created := SurfaceCreated(st);
      var t := DrawFrame(created.0, ReadDescriptor(s));
      && Reallocates(t.calls)
      && ExecuteAll(created.1, t.calls) == Texture(s.width, s.height, s.buffer.value)
  {
    var created := SurfaceCreated(st);
    TickMirrorsSlot(created.0, created.1, s);
  }

  /** Every upload reads no more bytes than the buffer it is given holds. */
  predicate UploadsFit(calls: seq<GlCall>)
  {
    forall k :: 0 <= k < |calls| && (calls[k].TexImage2D? || calls[k].TexSubImage2D?) ==>
      0 <= calls[k].width && 0 <= calls[k].height
      && ProcessedSlot.RgbaSize(calls[k].width, calls[k].height) <= |calls[k].pixels|
  }

  /** A tick fed from the native slot keeps the texture in step with the recorded size,
      never uploads more bytes than the buffer has, and after a drawable tick the texture
      holds exactly the slot's current frame: its dimensions and every byte of its buffer.
      A tick with nothing to draw leaves the texture as it was. */
  lemma TickMirrorsSlot(st: RendererState, tex: Texture, s: ProcessedSlot.Slot)
    requires ProcessedSlot.Valid(s) && InSync(st, tex)
    ensures var t := DrawFrame(st, ReadDescriptor(s));
      var after := ExecuteAll(tex, t.calls);
      && UploadsFit(t.calls)
      && InSync(t.state, after)
      && (Drawable(ReadDescriptor(s)) ==>
            after == Texture(s.width, s.height, s.buffer.value))
      && (!Drawable(ReadDescriptor(s)) ==> after == tex)
  {
    var d := ReadDescriptor(s);
    var t := DrawFrame(st, d);
    if Drawable(d) {
      var buf := s.buffer.value;
      assert |buf| == ProcessedSlot.RgbaSize(s.width, s.height);
      assert buf[..ProcessedSlot.RgbaSize(s.width, s.height)] == buf;
      OnlyThirdCallUploads(tex, t.calls);
    } else {
      NonUploadsKeepTexture(tex, t.calls);
    }
  }

  // ---------------------------------------------------------------------------------
  // Runs of ticks.

  /** The renderer state after one tick per descriptor, in order. */
  function RunState(st: RendererState, ds: seq<Descriptor>): RendererState
  {
    if |ds| == 0 then st else DrawFrame(RunState(st, ds[..|ds| - 1]), ds[|ds| - 1]).state
  }

  /** The last drawable descriptor of a run, if any. */
  function LastDrawable(ds: seq<Descriptor>): Option<Descriptor>
  {
    if |ds| == 0 then None
    else if Drawable(ds[|ds| - 1]) then Some(ds[|ds| - 1])
    else LastDrawable(ds[..|ds| - 1])
  }

  /** The size the texture was last given before the run's end: that of the last drawable
      descriptor, or the starting size. */
  function LastSize(st: RendererState, ds: seq<Descriptor>): RendererState
  {
    match LastDrawable(ds)
    case None => st
    case Some(d) => RendererState(d.width, d.height)
  }

  /** How many ticks of a run re-allocate. */
  function ReallocationCount(st: RendererState, ds: seq<Descriptor>): nat
  {
    if |ds| == 0 then 0
    else
      var prefix := ds[..|ds| - 1];
      ReallocationCount(st, prefix)
        + (if Reallocates(DrawFrame(RunState(st, prefix), ds[|ds| - 1]).calls) then 1 else 0)
  }

  /** How many drawable descriptors of a run differ in size from the drawable descriptor
      before them (the first is compared with the starting size). */
  function SizeChangeCount(st: RendererState, ds: seq<Descriptor>): nat
  {
    if |ds| == 0 then 0
    else
      var prefix := ds[..|ds| - 1];
      var d := ds[|ds| - 1];
      SizeChangeCount(st, prefix)
        + (if Drawable(d) && LastSize(st, prefix) != RendererState(d.width, d.height) then 1 else 0)
  }

  /** After any run of ticks, the recorded size is that of the last drawable frame, or the
      starting size when no frame was drawable. */
  lemma {:induction false} RunRecordsLastDrawableSize(st: RendererState, ds: seq<Descriptor>)
    ensures RunState(st, ds) == LastSize(st, ds)
  {
    if |ds| > 0 {
      RunRecordsLastDrawableSize(st, ds[..|ds| - 1]);
    }
  }

  /** Over any run of ticks, the texture is re-allocated exactly as often as a drawable
      frame's size differs from the previous drawable frame's. */
  lemma {:induction false} ReallocationsAreSizeChanges(st: RendererState, ds: seq<Descriptor>)
    ensures ReallocationCount(st, ds) == SizeChangeCount(st, ds)
  {
    if |ds| > 0 {
      var prefix := ds[..|ds| - 1];
      ReallocationsAreSizeChanges(st, prefix);
      RunRecordsLastDrawableSize(st, prefix);
    }
  }

  /** From construction, 100 x 100, 100 x 100 and 200 x 150 frames re-allocate on the
      first and third ticks and update in place on the second. */
  lemma ResizeExample(b1: seq<Byte>, b2: seq<Byte>, b3: seq<Byte>)
    ensures var t1 := DrawFrame(Initial, Descriptor(Some(b1), 100, 100));
      var t2 := DrawFrame(t1.state, Descriptor(Some(b2), 100, 100));
      var t3 := DrawFrame(t2.state, Descriptor(Some(b3), 200, 150));
      && Reallocates(t1.calls) && UpdatesInPlace(t2.calls) && !Reallocates(t2.calls)
      && Reallocates(t3.calls) && t3.state == RendererState(200, 150)
  {
  }
}
