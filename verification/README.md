# Real-time edge-detection viewer: frame pipeline model

A Dafny model of the frame pipeline of an Android edge-detection viewer. It covers three
sequential pieces, each as pure functions over byte sequences and small records.

- **Capture** (`MainActivity.java`). This covers four operations:
  - repacking a YUV_420_888 camera image into one byte array (`YUV_420_888_to_NV21`);
  - choosing the back camera (`getBackCamera`);
  - the image-available callback, which converts, processes, requests a redraw and closes the image;
  - releasing the camera objects (`closeCamera`).
- **Processed-frame slot** (`native-opengl.cpp`). This is the one global (buffer, width,
  height) descriptor:
  - written by `update_processed_from_gray`, which expands grayscale to RGBA;
  - read by `nativeGetProcessedFrameBuffer`;
  - reset by `nativeDestroyGL`.
- **Renderer** (`GLRenderer.java`). `onDrawFrame` is a state machine over the recorded
  texture size (`frameWidth`, `frameHeight`). Each tick yields its GL calls as values. A small
  abstract texture shows what the calls leave on the GPU. The full-screen quad `VERTEX_DATA`
  is modelled too.

Files and modules:
- `common.dfy` (`Common`): `Byte`, `Option` and the 32-bit `int` bound.
- `yuv_convert.dfy` (`YuvConvert`): the image-to-array repacking.
- `capture.dfy` (`Capture`): camera choice, the image callback and camera release.
- `processed_slot.dfy` (`ProcessedSlot`): the native slot.
- `quad.dfy` (`Quad`): the vertex data.
- `renderer.dfy` (`Renderer`): the draw tick and the texture it acts on.

Modelling choices:
- Camera, JNI and GL calls are data. The callback returns a list of `Effect`s.
  `closeCamera` returns a list of `Release`s. A draw tick returns a list of `GlCall`s.
- `update_processed_from_gray`, `nativeGetProcessedFrameBuffer` and `nativeDestroyGL` hold
  the slot mutex for their whole bodies. Each is one atomic step: a function from the old
  slot to the new one. The width and height getters take no lock. `Renderer.ReadDescriptor`
  still reads all three values in one step.
- The bytes `malloc` returns are an arbitrary parameter of `ProcessedSlot.UpdateInPlace`.
  The proof shows they never reach the result.

**NV21 versus what the routine builds.** NV21 is the full Y plane followed by
interleaved V,U pairs. Despite its name, `YUV_420_888_to_NV21` copies all of Y, then all
of V, then all of U, and never reads a stride (MainActivity.java:306-316). The model
follows the code. `YuvConvert.FourByFourExample` takes a 4x4 frame with luma 0..15,
U = 100..103 and V = 200..203. The result is 0..15, 200..203, 100..103, not the NV21
layout 0..15, 200, 100, 201, 101, ...

## Model

| member | source | states |
|---|---|---|
| YuvConvert.Nv21Of | app/app/src/main/java/com/example/real_time_edge_detection_viewer/MainActivity.java:301-317 | the output has ySize + uSize + vSize bytes; its first ySize bytes are the Y plane, the next vSize the V plane, the rest the U plane, each verbatim |
| YuvConvert.SplitAfterConvert | app/app/src/main/java/com/example/real_time_edge_detection_viewer/MainActivity.java:310-316 | cutting the output at the Y and V plane sizes gives back Y, V and U unchanged, so V comes before U and nothing is interleaved |
| YuvConvert.ConvertAfterSplit | app/app/src/main/java/com/example/real_time_edge_detection_viewer/MainActivity.java:310-316 | any array long enough to cut at two sizes is exactly the output for the image whose planes are the three pieces, so the layout loses no byte |
| YuvConvert.ConversionIgnoresStrides | app/app/src/main/java/com/example/real_time_edge_detection_viewer/MainActivity.java:301-317 | images with the same plane bytes convert identically, whatever their strides or size |
| YuvConvert.FourByFourExample | app/app/src/main/java/com/example/real_time_edge_detection_viewer/MainActivity.java:310-316 | the 4x4 frame above converts to luma, then V 200..203, then U 100..103, and not to V,U pairs |
| YuvConvert.CopyPlane | app/app/src/main/java/com/example/real_time_edge_detection_viewer/MainActivity.java:312-314 | a bulk get writes the source bytes at the offset and leaves every other byte of the array as it was |
| YuvConvert.YuvToNv21 | app/app/src/main/java/com/example/real_time_edge_detection_viewer/MainActivity.java:301-317 | allocating the summed size and copying Y at 0, V at ySize and U at ySize + vSize yields exactly the Y ++ V ++ U layout |
| Capture.GetBackCamera | app/app/src/main/java/com/example/real_time_edge_detection_viewer/MainActivity.java:139-148 | returns the id of the first camera whose facing is BACK, skipping cameras with no facing; returns nothing if and only if no camera faces back |
| Capture.OnImageAvailable | app/app/src/main/java/com/example/real_time_edge_detection_viewer/MainActivity.java:217-231 | a null image causes no effect; otherwise, in order: one processing call with the converted bytes and the image's width and height, one redraw request, one close of that image |
| Capture.CallbackSummary | app/app/src/main/java/com/example/real_time_edge_detection_viewer/MainActivity.java:217-231 | one callback closes exactly the image it acquired, and processes and requests a redraw once if and only if it acquired one |
| Capture.EveryAcquiredImageClosedOnce | app/app/src/main/java/com/example/real_time_edge_detection_viewer/MainActivity.java:218-230 | over any run of callbacks, the images closed are exactly the images acquired, each once, in acquisition order |
| Capture.OneProcessAndRenderPerImage | app/app/src/main/java/com/example/real_time_edge_detection_viewer/MainActivity.java:218-228 | over any run of callbacks, the numbers of processing calls and of redraw requests both equal the number of acquired images |
| Capture.CloseFollowsProcessAndRender | app/app/src/main/java/com/example/real_time_edge_detection_viewer/MainActivity.java:221-230 | over any run of callbacks, every close is preceded immediately by a redraw request, and that by the processing of the converted bytes of the image being closed |
| Capture.CloseCamera | app/app/src/main/java/com/example/real_time_edge_detection_viewer/MainActivity.java:276-283 | session, device and reader are all absent afterwards; exactly the present ones are closed, each once, in the order session, device, reader |
| Capture.CloseCameraTwice | app/app/src/main/java/com/example/real_time_edge_detection_viewer/MainActivity.java:276-283 | a second call closes nothing, so the call is safe when everything is already null |
| ProcessedSlot.RgbaFromGray | app/app/src/main/cpp/native-opengl.cpp:39-45 | the expansion has four bytes per gray byte: byte j is 255 when j mod 4 = 3 and gray[j / 4] otherwise |
| ProcessedSlot.PixelOfExpansion | app/app/src/main/cpp/native-opengl.cpp:39-45 | for every pixel i, bytes 4i, 4i+1 and 4i+2 equal gray[i] and byte 4i+3 is 255 |
| ProcessedSlot.RedChannelOfExpansion | app/app/src/main/cpp/native-opengl.cpp:39-45 | the red channel of the expansion is the gray image again, so the expansion loses nothing |
| ProcessedSlot.UpdateFromGray | app/app/src/main/cpp/native-opengl.cpp:22-46 | re-allocates if and only if the slot was empty or its size differs; afterwards the slot has the new width and height and a buffer of 4 * width * height bytes holding the expanded gray image |
| ProcessedSlot.FillFromGray | app/app/src/main/cpp/native-opengl.cpp:38-45 | the conversion loop overwrites every byte of a 4n-byte buffer with the expansion of the first n gray bytes, whatever the buffer held before |
| ProcessedSlot.UpdateInPlace | app/app/src/main/cpp/native-opengl.cpp:22-46 | updating step by step gives the same slot and re-allocation flag as the model, whether the buffer is reused in place or newly allocated with unspecified contents |
| ProcessedSlot.UpdateIdempotent | app/app/src/main/cpp/native-opengl.cpp:22-46 | a second update with the same gray image and size leaves the slot unchanged and does not re-allocate |
| ProcessedSlot.LatestWriteWins | app/app/src/main/cpp/native-opengl.cpp:22-46 | the slot after an update depends only on that update's arguments, not on earlier frames |
| ProcessedSlot.GetProcessedFrameBuffer | app/app/src/main/cpp/native-opengl.cpp:51-63 | returns nothing if and only if there is no buffer or a dimension is zero; otherwise returns width * height * 4 bytes, which are the whole current buffer |
| ProcessedSlot.DestroyGL | app/app/src/main/cpp/native-opengl.cpp:90-105 | afterwards there is no buffer and width and height are 0 |
| ProcessedSlot.ReadAfterDestroy | app/app/src/main/cpp/native-opengl.cpp:96-104 | after destroy, the buffer getter returns nothing, whatever the slot held |
| ProcessedSlot.ReadAfterUpdate | app/app/src/main/cpp/native-opengl.cpp:22-63 | after an update with positive sides, the getter returns exactly the expanded gray image |
| Quad.QuadCoversSurface | app/app/src/main/java/com/example/real_time_edge_detection_viewer/GLRenderer.java:18-23 | the four positions are the four distinct corners of normalised device space, with vertices 0 and 3 opposite and vertices 1 and 2 opposite, so the strip's triangles (0, 1, 2) and (1, 2, 3) split the square along one diagonal and together cover the whole surface |
| Quad.TexCoordsFlipVertically | app/app/src/main/java/com/example/real_time_edge_detection_viewer/GLRenderer.java:18-23 | every vertex has s = (x + 1) / 2 and t = (1 - y) / 2, so the image is flipped vertically |
| Renderer.ReadDescriptor | app/app/src/main/cpp/native-opengl.cpp:51-77 | the descriptor's width and height are the slot's; it is drawable if and only if the slot has a buffer and both sides are positive, and then its buffer holds exactly width * height * 4 bytes, so buffer and dimensions describe the same frame |
| Renderer.InSyncInitially | app/app/src/main/java/com/example/real_time_edge_detection_viewer/GLRenderer.java:30-54 | a newly constructed renderer (0 x 0 recorded) and a newly generated texture with no storage agree |
| Renderer.SurfaceCreatedAsWritten | app/app/src/main/java/com/example/real_time_edge_detection_viewer/GLRenderer.java:42-55 | `onSurfaceCreated` as written gives a texture with no storage and keeps the recorded size, so the two agree only if the recorded size is 0 x 0 |
| Renderer.StaleSizeAfterContextLoss | app/app/src/main/java/com/example/real_time_edge_detection_viewer/GLRenderer.java:78-85 | with 4 x 4 recorded before the context is re-created, the next 4 x 4 frame does not re-allocate and its in-place upload leaves the texture empty |
| Renderer.SurfaceCreated | app/app/src/main/java/com/example/real_time_edge_detection_viewer/GLRenderer.java:42-55 | the corrected `onSurfaceCreated` also resets the recorded size to 0 x 0, so the recorded size and the new texture agree |
| Renderer.SurfaceCreatedThenTickMirrorsSlot | app/app/src/main/java/com/example/real_time_edge_detection_viewer/GLRenderer.java:63-108 | after the corrected `onSurfaceCreated`, the first drawable frame re-allocates and leaves the texture holding exactly the slot's frame |
| Renderer.DrawFrame | app/app/src/main/java/com/example/real_time_edge_detection_viewer/GLRenderer.java:63-108 | clears first and only once; without a non-null buffer and positive sides, does nothing else and keeps the state; otherwise re-allocates if and only if the size differs from the recorded one, updates in place otherwise, records the new size, and draws the 4-vertex triangle strip once, after the upload |
| Renderer.FirstDrawableFrameReallocates | app/app/src/main/java/com/example/real_time_edge_detection_viewer/GLRenderer.java:32-81 | from the initial 0 x 0 state, the first drawable frame always re-allocates |
| Renderer.SameSizeTwiceUpdatesInPlace | app/app/src/main/java/com/example/real_time_edge_detection_viewer/GLRenderer.java:78-85 | two drawable frames of the same size in a row: the second updates in place and does not re-allocate |
| Renderer.EmptyTickOnlyClears | app/app/src/main/java/com/example/real_time_edge_detection_viewer/GLRenderer.java:69-71 | a tick with nothing to draw makes no texture call and no draw |
| Renderer.TickMirrorsSlot | app/app/src/main/java/com/example/real_time_edge_detection_viewer/GLRenderer.java:71-85 | fed from the native slot, a tick never uploads more bytes than the buffer holds and keeps the texture's size equal to the recorded size; after a drawable tick the texture holds exactly the slot's frame, and otherwise it is untouched |
| Renderer.RunRecordsLastDrawableSize | app/app/src/main/java/com/example/real_time_edge_detection_viewer/GLRenderer.java:71-81 | after any run of ticks, the recorded size is that of the last drawable frame, or the starting size if there was none |
| Renderer.ReallocationsAreSizeChanges | app/app/src/main/java/com/example/real_time_edge_detection_viewer/GLRenderer.java:78-85 | over any run of ticks, the number of re-allocations equals the number of drawable frames whose size differs from the previous drawable frame's |
| Renderer.ResizeExample | app/app/src/main/java/com/example/real_time_edge_detection_viewer/GLRenderer.java:78-85 | 100 x 100, 100 x 100, then 200 x 150 from the initial state: re-allocate, update in place, re-allocate |

## Left out

- Camera2 and lifecycle plumbing is left out: `openCamera`, `startPreview`, the device and
  session state callbacks, `onCreate`, `onResume`, `onPause`, `onDestroy`, the background
  `HandlerThread` and the permission callback. It is framework I/O with no logic beyond the
  members above.
- `CameraAccessException` from the camera list or characteristics query is not modelled.
  The camera list is a plain sequence.
- The result of `nativeProcessFrame` is not modelled. In `native-lib.cpp` it only logs and
  releases the array. Nothing calls `update_processed_from_gray`, so the callback and the
  slot are not linked.
- Shader compile and link (`createProgram`, `compileShader`), the GLSL sources, `onSurfaceCreated`
  texture parameters and `onSurfaceChanged`'s viewport are left out. They are GL mechanics.
- Attribute enabling, the sampler uniform and `glUseProgram` are left out. The draw call
  carries the vertex data as one `DrawArrays` value.
- `Renderer.Execute` models `glTexSubImage2D` only when the region covers the whole
  texture. Otherwise it treats the call as a GL error. The renderer issues only whole-texture
  updates while the recorded size matches the texture (`Renderer.InSync`). The source breaks
  that after the GL context is re-created; see "## Findings".
- Renderer.TickMirrorsSlot: holds only from a state whose recorded size matches the texture.
  That is true at construction and after the corrected `Renderer.SurfaceCreated`, but not
  after the source's `onSurfaceCreated` on a resume.
- `GLSurfaceView` context loss is modelled only as a call of `onSurfaceCreated` that starts
  with a texture that has no storage. EGL itself is left out.
- Floating-point vertex data is left out. The quad values are all -1, 0 or 1 and are
  held as integers.
- Concurrency is left out. Each native call is one atomic step.
- `Renderer.ReadDescriptor` reads the buffer, width and height in one step. In the source,
  the width and height getters take no lock, so a read torn by a concurrent update is not
  modelled.
- JNI direct-buffer aliasing is left out: buffers are values. `malloc` failure is also left
  out.
- `ProcessedSlot.UpdateFromGray` requires width * height * 4 to fit in a 32-bit `int`.
  C signed overflow is undefined behaviour.
- YuvConvert.YuvToNv21: does not model a `NegativeArraySizeException` when ySize + uSize +
  vSize overflows a Java `int`. A 1280 x 720 frame is far below that bound.
- The log-only stubs `nativeInitGL`, `nativeOnResume` and `nativeOnPause` are left out.
- `web-viewer/dist/bundle.js` is left out. It is a DOM FPS counter: UI and timing.

## Findings

| source | as written | input that shows it | evidently intended | confidence | as-written member | corrected member |
|---|---|---|---|---|---|---|
| app/app/src/main/java/com/example/real_time_edge_detection_viewer/GLRenderer.java:32-33 | `onSurfaceCreated` (lines 43-55) makes a new texture with no storage, but `frameWidth`/`frameHeight` keep the old size. `GLSurfaceView.onPause` (MainActivity.java:247) releases the context by default, so this happens on every resume. | A 4 x 4 frame was drawn, the app is paused and resumed, and another 4 x 4 frame arrives. Only `glTexSubImage2D` runs, on a texture with no storage; it fails, and nothing is shown until the size changes. | Reset the recorded size to 0 x 0 whenever a new texture is generated, so the first frame in a new context re-allocates. | medium; not executed | Renderer.StaleSizeAfterContextLoss | Renderer.SurfaceCreated |
