/**
  The capture side of `MainActivity`: choosing the back camera, handling one
  "image available" callback, and releasing the camera objects on pause.

  Camera2 calls become data: the camera list is a sequence of (id, lens facing) pairs,
  and the callback's side effects are a list of `Effect` values in the order they happen.
*/
module Capture {
  import opened Common
  import opened YuvConvert

  /** The lens-facing value of a back camera (front is 0, external is 2). */
  const LensFacingBack: int := 1

  /** One camera id with its lens-facing characteristic, which a device may leave unset. */
  datatype CameraInfo = CameraInfo(id: string, lensFacing: Option<int>)

  predicate IsBackFacing(camera: CameraInfo) {
    camera.lensFacing == Some(LensFacingBack)
  }

  /** `getBackCamera`: the id of the first camera, in list order, whose lens faces back;
      `None` exactly when no camera does. Cameras with no facing value are skipped. */
  method GetBackCamera(cameras: seq<CameraInfo>) returns (found: Option<string>)
    ensures found.None? <==> forall k :: 0 <= k < |cameras| ==> !IsBackFacing(cameras[k])
    ensures found.Some? ==>
      exists k :: 0 <= k < |cameras| && IsBackFacing(cameras[k]) && cameras[k].id == found.value
                  && forall j :: 0 <= j < k ==> !IsBackFacing(cameras[j])
  {
    for i := 0 to |cameras|
      invariant forall j :: 0 <= j < i ==> !IsBackFacing(cameras[j])
    {
      if IsBackFacing(cameras[i]) {
        return Some(cameras[i].id);
      }
    }
    return None;
  }

  /** What the image-available callback does, in order. */
  datatype Effect =
    | Process(frame: seq<Byte>, width: int, height: int)  // the native processing call
    | RequestRender                                       // ask the GL view for one redraw
    | CloseImage(image: Image)                            // hand the image back to the reader

  /** The image-available callback, given what `acquireLatestImage` returned. */
  function OnImageAvailable(latest: Option<Image>): (effects: seq<Effect>)
    ensures latest.None? <==> effects == []
    ensures latest.Some? ==>
      && |effects| == 3
      && effects[0] == Process(Nv21Of(latest.value), latest.value.width, latest.value.height)
      && effects[1] == RequestRender
      && effects[2] == CloseImage(latest.value)
  {
    match latest
    case None => []
    case Some(image) =>
      [Process(Nv21Of(image), image.width, image.height), RequestRender, CloseImage(image)]
  }

  /** The effects of a run of callbacks, one per element of `events`. */
  function HandleAll(events: seq<Option<Image>>): seq<Effect>
  {
    if |events| == 0 then [] else OnImageAvailable(events[0]) + HandleAll(events[1..])
  }

  /** The images the callbacks actually acquired, in order. */
  function Acquired(events: seq<Option<Image>>): seq<Image>
  {
    if |events| == 0 then []
    else (if events[0].Some? then [events[0].value] else []) + Acquired(events[1..])
  }

  /** The images a trace closes, in order. */
  function Closed(trace: seq<Effect>): seq<Image>
  {
    if |trace| == 0 then []
    else (if trace[0].CloseImage? then [trace[0].image] else []) + Closed(trace[1..])
  }

  /** The number of processing calls in a trace. */
  function ProcessCount(trace: seq<Effect>): nat
  {
    if |trace| == 0 then 0 else (if trace[0].Process? then 1 else 0) + ProcessCount(trace[1..])
  }

  /** The number of redraw requests in a trace. */
  function RenderRequestCount(trace: seq<Effect>): nat
  {
    if |trace| == 0 then 0
    else (if trace[0].RequestRender? then 1 else 0) + RenderRequestCount(trace[1..])
  }

  lemma {:induction false} ClosedAppend(a: seq<Effect>, b: seq<Effect>)
    ensures Closed(a + b) == Closed(a) + Closed(b)
  {
    if |a| == 0 {
      assert a + b == b;
    } else {
      var ab := a + b;
      var first := if a[0].CloseImage? then [a[0].image] else [];
      assert ab[0] == a[0];
      assert ab[1..] == a[1..] + b;
      ClosedAppend(a[1..], b);
      calc {
        Closed(ab);
        first + Closed(a[1..] + b);
        first + (Closed(a[1..]) + Closed(b));
        (first + Closed(a[1..])) + Closed(b);
      }
    }
  }

  lemma {:induction false} CountsAppend(a: seq<Effect>, b: seq<Effect>)
    ensures ProcessCount(a + b) == ProcessCount(a) + ProcessCount(b)
    ensures RenderRequestCount(a + b) == RenderRequestCount(a) + RenderRequestCount(b)
  {
    if |a| == 0 {
      assert a + b == b;
    } else {
      assert (a + b)[1..] == a[1..] + b;
      CountsAppend(a[1..], b);
    }
  }

  /** One callback closes the image it acquired and processes and requests a redraw once
      for it; with no image it does none of these. */
  lemma CallbackSummary(latest: Option<Image>)
    ensures Closed(OnImageAvailable(latest)) == (if latest.Some? then [latest.value] else [])
    ensures ProcessCount(OnImageAvailable(latest)) == (if latest.Some? then 1 else 0)
    ensures RenderRequestCount(OnImageAvailable(latest)) == (if latest.Some? then 1 else 0)
  {
    var effects := OnImageAvailable(latest);
    if latest.Some? {
      var image := latest.value;
      var last := effects[2..];
      assert last == [CloseImage(image)] && last[1..] == [];
      assert Closed(last) == [image] && ProcessCount(last) == 0 && RenderRequestCount(last) == 0;
      assert effects[1..][1..] == last;
      assert effects[1..] == [RequestRender] + last;
    }
  }

  /** Over any run of callbacks, every acquired image is closed exactly once and in
      acquisition order, and nothing else is closed. */
  lemma {:induction false} EveryAcquiredImageClosedOnce(events: seq<Option<Image>>)
    ensures Closed(HandleAll(events)) == Acquired(events)
  {
    if |events| > 0 {
      var head := OnImageAvailable(events[0]);
      ClosedAppend(head, HandleAll(events[1..]));
      EveryAcquiredImageClosedOnce(events[1..]);
      CallbackSummary(events[0]);
    }
  }

  /** Over any run of callbacks, there are exactly as many processing calls and as many
      redraw requests as acquired images; a callback that acquires nothing does neither. */
  lemma {:induction false} OneProcessAndRenderPerImage(events: seq<Option<Image>>)
    ensures ProcessCount(HandleAll(events)) == |Acquired(events)|
    ensures RenderRequestCount(HandleAll(events)) == |Acquired(events)|
  {
    if |events| > 0 {
      var head := OnImageAvailable(events[0]);
      CountsAppend(head, HandleAll(events[1..]));
      OneProcessAndRenderPerImage(events[1..]);
      CallbackSummary(events[0]);
    }
  }

  /** Over any run of callbacks, each close is immediately preceded by the redraw request,
      and that by the processing of the very image being closed, converted, with its size. */
  lemma {:induction false} CloseFollowsProcessAndRender(events: seq<Option<Image>>, k: int)
    requires 0 <= k < |HandleAll(events)| && HandleAll(events)[k].CloseImage?
    ensures 2 <= k
    ensures HandleAll(events)[k - 1] == RequestRender
    ensures var image := HandleAll(events)[k].image;
      HandleAll(events)[k - 2] == Process(Nv21Of(image), image.width, image.height)
  {
    var head := OnImageAvailable(events[0]);
    var trace := HandleAll(events);
    assert trace == head + HandleAll(events[1..]);
    if k >= |head| {
      CloseFollowsProcessAndRender(events[1..], k - |head|);
    }
  }

  /** The camera objects `closeCamera` releases; each may be absent. */
  datatype CameraResources = CameraResources(session: Option<nat>, device: Option<nat>, reader: Option<nat>)

  const Released: CameraResources := CameraResources(None, None, None)

  /** One close call on a camera object, naming its handle. */
  datatype Release = CloseSession(handle: nat) | CloseDevice(handle: nat) | CloseReader(handle: nat)

  /** Position of each kind of close in `closeCamera`'s fixed order. */
  function ReleaseRank(r: Release): nat
  {
    match r
    case CloseSession(_) => 0
    case CloseDevice(_) => 1
    case CloseReader(_) => 2
  }

  function OpenCount(res: CameraResources): nat
  {
    (if res.session.Some? then 1 else 0) + (if res.device.Some? then 1 else 0)
      + (if res.reader.Some? then 1 else 0)
  }

  /** `closeCamera`: closes whichever of session, device and reader are present, in that
      order, and leaves all three absent. */
  function CloseCamera(res: CameraResources): (r: (CameraResources, seq<Release>))
    ensures r.0 == Released
    ensures |r.1| == OpenCount(res)
    ensures forall h: nat :: CloseSession(h) in r.1 <==> res.session == Some(h)
    ensures forall h: nat :: CloseDevice(h) in r.1 <==> res.device == Some(h)
    ensures forall h: nat :: CloseReader(h) in r.1 <==> res.reader == Some(h)
    ensures forall i, j :: 0 <= i < j < |r.1| ==> ReleaseRank(r.1[i]) < ReleaseRank(r.1[j])
  {
    var closeSession := if res.session.Some? then [CloseSession(res.session.value)] else [];
    var closeDevice := if res.device.Some? then [CloseDevice(res.device.value)] else [];
    var closeReader := if res.reader.Some? then [CloseReader(res.reader.value)] else [];
    (Released, closeSession + closeDevice + closeReader)
  }

  /** Closing twice is safe: the second call finds everything absent and closes nothing. */
  lemma CloseCameraTwice(res: CameraResources)
    ensures CloseCamera(CloseCamera(res).0) == (Released, [])
  {
  }
}
