/** The device side of the pipeline. A `VideoStreamer` reads frames from a
    capture until the first failed read (or, for a file, until the capture
    reports it is no longer open), runs the detector once per frame and
    hands `(frame, faces)` to the `FaceMessenger`. For every box `(x, y, w, h)`,
    in order, the messenger crops `image[y:y+h, x:x+w]`, encodes the crop and
    publishes it on its output channel at its guarantee level. Around the
    stream it connects, starts the network loop, streams, stops the loop and
    disconnects.

    The detector and the image encoder are opaque: they are function values
    fixed when the streamer and the messenger are built. The messaging
    client and the capture are in-memory fakes that log what is done to
    them. The streamer's callback is the messenger's `ProcessFaces`. */
module FaceDetection {
  import opened Wrappers

  newtype byte = x: int | 0 <= x < 256

  /** A frame or a crop of one: rows of pixels. */
  type Image<P> = seq<seq<P>>

  /** A face box `(x, y, w, h)` in pixels: left column, top row, width, height. */
  datatype Box = Box(x: int, y: int, w: int, h: int)

  // ---------------------------------------------------------------------
  // Cropping, with the semantics of a step-1 slice `s[lo:hi]`

  /** Where a slice bound lands in a sequence of length `n`: a negative
      bound counts from the end, and the result is clamped to `[0, n]`. */
  function SliceBound(i: int, n: nat): (r: nat)
    ensures r <= n
    ensures 0 <= i <= n ==> r == i
    ensures i > n ==> r == n
    ensures i + n < 0 ==> r == 0
    ensures i < 0 <= i + n ==> r == n + i
  {
    if i < 0 then (if i + n < 0 then 0 else i + n)
    else if i > n then n
    else i
  }

  /** `s[lo:hi]`: the elements from the normalised lower bound up to the
      normalised upper bound, or nothing if those cross. */
  function Slice<T>(s: seq<T>, lo: int, hi: int): (r: seq<T>)
    ensures |r| <= |s|
    ensures SliceBound(lo, |s|) + |r| <= |s|
    ensures |r| == if SliceBound(lo, |s|) < SliceBound(hi, |s|) then SliceBound(hi, |s|) - SliceBound(lo, |s|) else 0
    ensures 0 <= lo <= hi <= |s| ==> r == s[lo..hi]
  {
    var a, b := SliceBound(lo, |s|), SliceBound(hi, |s|);
    if a < b then s[a..b] else []
  }

  /** Element `k` of a slice is element `k` past the normalised lower bound. */
  lemma SliceElements<T>(s: seq<T>, lo: int, hi: int)
    ensures var r := Slice(s, lo, hi);
      forall k :: 0 <= k < |r| ==> r[k] == s[SliceBound(lo, |s|) + k]
  {
  }

  /** The same column slice `[lo:hi]` of every row, rows in order. */
  function SliceColumns<P>(rows: Image<P>, lo: int, hi: int): (c: Image<P>)
    ensures |c| == |rows|
    decreases |rows|
  {
    if rows == [] then [] else SliceColumns(rows[..|rows| - 1], lo, hi) + [Slice(rows[|rows| - 1], lo, hi)]
  }

  lemma {:induction false} SliceColumnsRows<P>(rows: Image<P>, lo: int, hi: int)
    ensures var c := SliceColumns(rows, lo, hi);
      forall i :: 0 <= i < |c| ==> c[i] == Slice(rows[i], lo, hi)
    decreases |rows|
  {
    if rows != [] {
      var init := rows[..|rows| - 1];
      SliceColumnsRows(init, lo, hi);
      var c, c0 := SliceColumns(rows, lo, hi), SliceColumns(init, lo, hi);
      forall i | 0 <= i < |c| ensures c[i] == Slice(rows[i], lo, hi) {
        if i < |init| {
          assert c[i] == c0[i] && init[i] == rows[i];
        }
      }
    }
  }

  /** `image[y:y+h, x:x+w]` for the box `(x, y, w, h)`: the row slice, then
      the same column slice of each of its rows. */
  function Crop<P>(image: Image<P>, box: Box): (c: Image<P>)
    ensures |c| <= |image|
    ensures SliceBound(box.y, |image|) + |c| <= |image|
    // a box from row `y >= 0` of height `h >= 0` keeps `min(h, H - y)` rows, none past the bottom
    ensures 0 <= box.y && 0 <= box.h ==> |c| == if box.y >= |image| then 0 else Min(box.h, |image| - box.y)
  {
    SliceColumns(Slice(image, box.y, box.y + box.h), box.x, box.x + box.w)
  }

  /** Row `i` of the crop is the column slice of image row `y' + i`, where
      `y'` is the normalised row bound. */
  lemma CropRows<P>(image: Image<P>, box: Box)
    ensures var c := Crop(image, box);
      forall i :: 0 <= i < |c| ==> c[i] == Slice(image[SliceBound(box.y, |image|) + i], box.x, box.x + box.w)
  {
    var y0 := SliceBound(box.y, |image|);
    var rows := Slice(image, box.y, box.y + box.h);
    var c := SliceColumns(rows, box.x, box.x + box.w);
    assert c == Crop(image, box);
    SliceElements(image, box.y, box.y + box.h);
    SliceColumnsRows(rows, box.x, box.x + box.w);
    forall i | 0 <= i < |c| ensures c[i] == Slice(image[y0 + i], box.x, box.x + box.w) {
      assert |rows| == |c|;
      assert rows[i] == image[y0 + i];
    }
  }

  /** For a box with a non-negative corner, every pixel of the crop is the
      image pixel at the same offset from that corner, however far the box
      overhangs the image. */
  lemma CropPixels<P>(image: Image<P>, box: Box, i: int, j: int)
    requires box.x >= 0 && box.y >= 0
    requires 0 <= i < |Crop(image, box)| && 0 <= j < |Crop(image, box)[i]|
    ensures box.y + i < |image| && box.x + j < |image[box.y + i]|
    ensures Crop(image, box)[i][j] == image[box.y + i][box.x + j]
  {
    var c := Crop(image, box);
    CropRows(image, box);
    assert SliceBound(box.y, |image|) == box.y;
    var row := image[box.y + i];
    assert c[i] == Slice(row, box.x, box.x + box.w);
    SliceElements(row, box.x, box.x + box.w);
    assert SliceBound(box.x, |row|) == box.x;
  }

  /** The smaller of two integers. */
  function Min(a: int, b: int): int {
    if a <= b then a else b
  }

  /** In a rectangular image of `width` columns, a box starting at column
      `x >= 0` with width `w >= 0` yields rows of `min(w, width - x)`
      pixels, and empty rows when it starts at or right of the last column. */
  lemma CropWidth<P>(image: Image<P>, width: nat, box: Box)
    requires Rectangular(image, width)
    requires 0 <= box.x && 0 <= box.w
    ensures var c := Crop(image, box);
      forall i :: 0 <= i < |c| ==> |c[i]| == if box.x >= width then 0 else Min(box.w, width - box.x)
  {
    var c := Crop(image, box);
    CropRows(image, box);
    forall i | 0 <= i < |c| ensures |c[i]| == if box.x >= width then 0 else Min(box.w, width - box.x) {
      var y0 := SliceBound(box.y, |image|);
      assert y0 + i < |image|;
      assert |image[y0 + i]| == width;
    }
  }

  /** Every row of `image` has `width` pixels. */
  predicate Rectangular<P>(image: Image<P>, width: nat) {
    forall r :: 0 <= r < |image| ==> |image[r]| == width
  }

  /** A box inside the image is cut out whole: `h` rows of `w` pixels, pixel
      `(i, j)` being `image[y + i][x + j]`. */
  lemma CropInside<P>(image: Image<P>, width: nat, box: Box)
    requires Rectangular(image, width)
    requires 0 <= box.x && 0 <= box.w && box.x + box.w <= width
    requires 0 <= box.y && 0 <= box.h && box.y + box.h <= |image|
    ensures |Crop(image, box)| == box.h
    ensures forall i :: 0 <= i < box.h ==> |Crop(image, box)[i]| == box.w
    ensures forall i, j :: 0 <= i < box.h && 0 <= j < box.w ==> Crop(image, box)[i][j] == image[box.y + i][box.x + j]
  {
    var c := Crop(image, box);
    CropRows(image, box);
    assert Slice(image, box.y, box.y + box.h) == image[box.y..box.y + box.h];
    assert |c| == box.h;
    forall i | 0 <= i < box.h ensures |c[i]| == box.w {
      assert |image[box.y + i]| == width;
      assert c[i] == Slice(image[box.y + i], box.x, box.x + box.w);
    }
    forall i, j | 0 <= i < box.h && 0 <= j < box.w ensures c[i][j] == image[box.y + i][box.x + j] {
      CropPixels(image, box, i, j);
    }
  }

  // ---------------------------------------------------------------------
  // The messaging client, as a fake that logs every request

  /** One request made of the messaging client. */
  datatype Event =
    | ConnectAsync(host: string, port: int)
    | LoopStart
    | LoopStop
    | Disconnect
    | Publish(channel: string, payload: seq<byte>, qos: int)

  class MessagingClient {
    var events: seq<Event>

    constructor ()
      ensures events == []
    {
      events := [];
    }

    method ConnectAsync(host: string, port: int)
      modifies this
      ensures events == old(events) + [Event.ConnectAsync(host, port)]
    {
      events := events + [Event.ConnectAsync(host, port)];
    }

    method LoopStart()
      modifies this
      ensures events == old(events) + [Event.LoopStart]
    {
      events := events + [Event.LoopStart];
    }

    method LoopStop()
      modifies this
      ensures events == old(events) + [Event.LoopStop]
    {
      events := events + [Event.LoopStop];
    }

    method Disconnect()
      modifies this
      ensures events == old(events) + [Event.Disconnect]
    {
      events := events + [Event.Disconnect];
    }

    method Publish(channel: string, payload: seq<byte>, qos: int)
      modifies this
      ensures events == old(events) + [Event.Publish(channel, payload, qos)]
    {
      events := events + [Event.Publish(channel, payload, qos)];
    }
  }

  // ---------------------------------------------------------------------
  // What the messenger publishes

  /** The publishes for one frame: one per box, in box order, each carrying
      the encoded crop of that box, on `channel` at `qos`. */
  function FacePublishes<P>(channel: string, qos: int, encode: Image<P> -> seq<byte>, image: Image<P>, faces: seq<Box>): (r: seq<Event>)
    ensures |r| == |faces|
    decreases |faces|
  {
    if faces == [] then []
    else FacePublishes(channel, qos, encode, image, faces[..|faces| - 1])
         + [Publish(channel, encode(Crop(image, faces[|faces| - 1])), qos)]
  }

  /** The `i`-th publish of a frame carries the encoded crop of its `i`-th box. */
  lemma {:induction false} FacePublishesAreCrops<P>(channel: string, qos: int, encode: Image<P> -> seq<byte>, image: Image<P>, faces: seq<Box>)
    ensures var r := FacePublishes(channel, qos, encode, image, faces);
      forall i :: 0 <= i < |faces| ==> r[i] == Publish(channel, encode(Crop(image, faces[i])), qos)
    decreases |faces|
  {
    if faces != [] {
      var init := faces[..|faces| - 1];
      FacePublishesAreCrops(channel, qos, encode, image, init);
      var r, r0 := FacePublishes(channel, qos, encode, image, faces), FacePublishes(channel, qos, encode, image, init);
      var last := Publish(channel, encode(Crop(image, faces[|faces| - 1])), qos);
      assert r == r0 + [last];
      forall i | 0 <= i < |faces| ensures r[i] == Publish(channel, encode(Crop(image, faces[i])), qos) {
        if i < |init| {
          assert r[i] == r0[i] && init[i] == faces[i];
        } else {
          assert i == |r0| && r[i] == last;
        }
      }
    }
  }

  /** The publishes for a run of callbacks, one frame after another. */
  function CallbackPublishes<P>(channel: string, qos: int, encode: Image<P> -> seq<byte>,
                                callbacks: seq<(Image<P>, seq<Box>)>): seq<Event>
    decreases |callbacks|
  {
    if callbacks == [] then []
    else
      var last := callbacks[|callbacks| - 1];
      CallbackPublishes(channel, qos, encode, callbacks[..|callbacks| - 1])
        + FacePublishes(channel, qos, encode, last.0, last.1)
  }

  /** A run of callbacks publishes only on `channel` at `qos`, one message
      per box of every frame; frames without boxes publish nothing. */
  lemma {:induction false} CallbackPublishesShape<P>(channel: string, qos: int, encode: Image<P> -> seq<byte>,
                                                   callbacks: seq<(Image<P>, seq<Box>)>)
    ensures var r := CallbackPublishes(channel, qos, encode, callbacks);
      && |r| == TotalFaces(callbacks)
      && forall i :: 0 <= i < |r| ==> r[i].Publish? && r[i].channel == channel && r[i].qos == qos
    decreases |callbacks|
  {
    if callbacks != [] {
      var init, last := callbacks[..|callbacks| - 1], callbacks[|callbacks| - 1];
      CallbackPublishesShape(channel, qos, encode, init);
      FacePublishesAreCrops(channel, qos, encode, last.0, last.1);
      var a: seq<Event>, b: seq<Event> := CallbackPublishes(channel, qos, encode, init), FacePublishes(channel, qos, encode, last.0, last.1);
      forall i | 0 <= i < |a + b| ensures (a + b)[i].Publish? && (a + b)[i].channel == channel && (a + b)[i].qos == qos {
        if i >= |a| {
          assert (a + b)[i] == b[i - |a|];
        }
      }
    }
  }

  /** Number of boxes over a run of callbacks. */
  function TotalFaces<P>(callbacks: seq<(Image<P>, seq<Box>)>): nat
    decreases |callbacks|
  {
    if callbacks == [] then 0 else TotalFaces(callbacks[..|callbacks| - 1]) + |callbacks[|callbacks| - 1].1|
  }

  /** The event log of one streaming session around the given publishes. */
  function SessionEvents(host: string, port: int, publishes: seq<Event>): seq<Event> {
    [ConnectAsync(host, port), LoopStart] + publishes + [LoopStop, Disconnect]
  }

  /** Number of occurrences of `e` in `events`. */
  function Occurrences(events: seq<Event>, e: Event): (n: nat)
    ensures n <= |events|
    decreases |events|
  {
    if events == [] then 0
    else Occurrences(events[..|events| - 1], e) + (if events[|events| - 1] == e then 1 else 0)
  }

  lemma {:induction false} OccurrencesAppend(a: seq<Event>, b: seq<Event>, e: Event)
    ensures Occurrences(a + b, e) == Occurrences(a, e) + Occurrences(b, e)
    decreases |b|
  {
    if b == [] {
      assert a + b == a;
    } else {
      assert (a + b)[..|a + b| - 1] == a + b[..|b| - 1];
      OccurrencesAppend(a, b[..|b| - 1], e);
    }
  }

  lemma {:induction false} OccurrencesAbsent(events: seq<Event>, e: Event)
    requires forall i :: 0 <= i < |events| ==> events[i] != e
    ensures Occurrences(events, e) == 0
    decreases |events|
  {
    if events != [] {
      OccurrencesAbsent(events[..|events| - 1], e);
    }
  }

  /** In a session around publishes only, the connect, loop start, loop
      stop and disconnect each happen exactly once, in that order, and every
      publish comes strictly after the loop start and before the loop stop. */
  lemma {:induction false} SessionOrder(host: string, port: int, publishes: seq<Event>)
    requires forall i :: 0 <= i < |publishes| ==> publishes[i].Publish?
    ensures var s := SessionEvents(host, port, publishes);
      && s[0] == ConnectAsync(host, port) && s[1] == LoopStart
      && s[|s| - 2] == LoopStop && s[|s| - 1] == Disconnect
      && Occurrences(s, ConnectAsync(host, port)) == 1
      && Occurrences(s, LoopStart) == 1
      && Occurrences(s, LoopStop) == 1
      && Occurrences(s, Disconnect) == 1
      && (forall k :: 0 <= k < |s| && s[k].Publish? ==> 1 < k < |s| - 2)
  {
    var head: seq<Event> := [ConnectAsync(host, port), LoopStart];
    var tail: seq<Event> := [LoopStop, Disconnect];
    var s := SessionEvents(host, port, publishes);
    assert s == head + publishes + tail;
    ControlOccurrences(head, publishes, tail, ConnectAsync(host, port));
    ControlOccurrences(head, publishes, tail, LoopStart);
    ControlOccurrences(head, publishes, tail, LoopStop);
    ControlOccurrences(head, publishes, tail, Disconnect);
    PairOccurrences(ConnectAsync(host, port), LoopStart);
    PairOccurrences(LoopStop, Disconnect);
  }

  /** A control event occurs in `head + publishes + tail` only where it
      occurs in `head` or `tail`. */
  lemma ControlOccurrences(head: seq<Event>, publishes: seq<Event>, tail: seq<Event>, e: Event)
    requires forall i :: 0 <= i < |publishes| ==> publishes[i].Publish?
    requires !e.Publish?
    ensures Occurrences(head + publishes + tail, e) == Occurrences(head, e) + Occurrences(tail, e)
  {
    OccurrencesAppend(head + publishes, tail, e);
    OccurrencesAppend(head, publishes, e);
    OccurrencesAbsent(publishes, e);
  }

  /** Occurrences in a two-event log. */
  lemma PairOccurrences(a: Event, b: Event)
    ensures forall e :: Occurrences([a, b], e) == (if a == e then 1 else 0) + (if b == e then 1 else 0)
  {
    assert [a, b][..1] == [a];
    assert [a][..0] == [];
  }

  // ---------------------------------------------------------------------
  // The capture, as a finite script of read results

  /** Where the video comes from: a device index or a file path. */
  datatype VideoInput = Device(index: int) | File(path: string)

  /** One scripted read: the frame it yields (`None` for a failed read) and
      whether the capture still reports itself open afterwards. */
  datatype Step<P> = Step(frame: Option<Image<P>>, openAfter: bool)

  class Capture<P> {
    var isOpen: bool
    var pending: seq<Step<P>>     // the reads still to come; past its end every read fails
    var releases: nat

    constructor (isOpen: bool, pending: seq<Step<P>>)
      ensures this.isOpen == isOpen && this.pending == pending
      ensures releases == 0
    {
      this.isOpen := isOpen;
      this.pending := pending;
      releases := 0;
    }

    method Read() returns (frame: Option<Image<P>>)
      modifies this
      ensures old(pending) == [] ==> frame == None && pending == [] && isOpen == old(isOpen)
      ensures old(pending) != [] ==>
        frame == old(pending)[0].frame && pending == old(pending)[1..] && isOpen == old(pending)[0].openAfter
      ensures releases == old(releases)
    {
      if pending == [] {
        frame := None;
      } else {
        frame := pending[0].frame;
        isOpen := pending[0].openAfter;
        pending := pending[1..];
      }
    }

    method Release()
      modifies this
      ensures releases == old(releases) + 1 && !isOpen && pending == old(pending)
    {
      releases := releases + 1;
      isOpen := false;
    }
  }

  /** The frames a stream delivers from a capture in state (`isOpen`,
      `steps`): while the loop condition holds (always for a device; while
      the capture reports open for a file), each successful read yields its
      frame, and the first failed read ends the stream. */
  function StreamedFrames<P>(isFile: bool, isOpen: bool, steps: seq<Step<P>>): (frames: seq<Image<P>>)
    ensures |frames| <= |steps|
    decreases |steps|
  {
    if isFile && !isOpen then []
    else if steps == [] then []
    else match steps[0].frame {
      case None => []
      case Some(f) => [f] + StreamedFrames(isFile, steps[0].openAfter, steps[1..])
    }
  }

  /** The stream is a prefix of the scripted reads, in read order: the
      `k`-th frame delivered is the frame of the `k`-th read. */
  lemma {:induction false} StreamedFramesAreReads<P>(isFile: bool, isOpen: bool, steps: seq<Step<P>>)
    ensures var frames := StreamedFrames(isFile, isOpen, steps);
      forall k :: 0 <= k < |frames| ==> steps[k].frame == Some(frames[k])
    decreases |steps|
  {
    if (!isFile || isOpen) && steps != [] && steps[0].frame.Some? {
      StreamedFramesAreReads(isFile, steps[0].openAfter, steps[1..]);
    }
  }

  /** The reads a stream leaves unconsumed: none is consumed once a file
      capture is closed; each delivered frame consumes its read, and the
      failed read that ends the stream is consumed too. */
  function StreamRest<P>(isFile: bool, isOpen: bool, steps: seq<Step<P>>): (rest: seq<Step<P>>)
    ensures |rest| <= |steps|
    decreases |steps|
  {
    if isFile && !isOpen then steps
    else if steps == [] then []
    else match steps[0].frame {
      case None => steps[1..]
      case Some(_) => StreamRest(isFile, steps[0].openAfter, steps[1..])
    }
  }

  /** A stream consumes one read per frame it delivers, plus at most the
      one failed read that ends it. */
  lemma {:induction false} StreamConsumes<P>(isFile: bool, isOpen: bool, steps: seq<Step<P>>)
    ensures |StreamedFrames(isFile, isOpen, steps)| <= |steps| - |StreamRest(isFile, isOpen, steps)|
                                                   <= |StreamedFrames(isFile, isOpen, steps)| + 1
    decreases |steps|
  {
    if (!isFile || isOpen) && steps != [] && steps[0].frame.Some? {
      StreamConsumes(isFile, steps[0].openAfter, steps[1..]);
    }
  }

  /** What a stream leaves is what follows the reads it consumed. */
  lemma {:induction false} StreamRestIsSuffix<P>(isFile: bool, isOpen: bool, steps: seq<Step<P>>)
    ensures var rest := StreamRest(isFile, isOpen, steps); rest == steps[|steps| - |rest|..]
    decreases |steps|
  {
    if isFile && !isOpen {
      assert StreamRest(isFile, isOpen, steps) == steps;
      assert steps[0..] == steps;
    } else if steps == [] {
      assert StreamRest(isFile, isOpen, steps) == [];
    } else if steps[0].frame.None? {
      assert StreamRest(isFile, isOpen, steps) == steps[1..];
    } else {
      var tail := steps[1..];
      StreamRestIsSuffix(isFile, steps[0].openAfter, tail);
      var rest := StreamRest(isFile, steps[0].openAfter, tail);
      assert StreamRest(isFile, isOpen, steps) == rest;
      assert rest == tail[|tail| - |rest|..];
      assert |steps| - |rest| == 1 + (|tail| - |rest|);
      assert tail[|tail| - |rest|..] == steps[|steps| - |rest|..];
    }
  }

  /** For a device, the stream is exactly the frames before the first
      failed read: every read before its end succeeded, and it stops at the
      first failed read, or at the end of the script, where every further
      read fails. */
  lemma {:induction false} DeviceStreamStopsAtFirstFailure<P>(isOpen: bool, steps: seq<Step<P>>)
    ensures var frames := StreamedFrames(false, isOpen, steps);
      && (forall k :: 0 <= k < |frames| ==> steps[k].frame.Some?)
      && (|frames| < |steps| ==> steps[|frames|].frame.None?)
    decreases |steps|
  {
    if steps != [] && steps[0].frame.Some? {
      DeviceStreamStopsAtFirstFailure(steps[0].openAfter, steps[1..]);
    }
  }

  /** For a file, nothing is delivered if the capture is not open at the
      start; every read before the stream's end succeeded, every read but
      the last left the capture open, and the stream ends at a failed read
      or right after a read that left the capture closed. */
  lemma {:induction false} FileStreamStopsWhenClosed<P>(isOpen: bool, steps: seq<Step<P>>)
    ensures !isOpen ==> StreamedFrames(true, isOpen, steps) == []
    ensures var frames := StreamedFrames(true, isOpen, steps);
      && (forall k :: 0 <= k < |frames| ==> steps[k].frame.Some?)
      && (forall k :: 0 <= k < |frames| - 1 ==> steps[k].openAfter)
      && (|frames| < |steps| && isOpen && (|frames| == 0 || steps[|frames| - 1].openAfter) ==> steps[|frames|].frame.None?)
    decreases |steps|
  {
    if isOpen && steps != [] && steps[0].frame.Some? {
      FileStreamStopsWhenClosed(steps[0].openAfter, steps[1..]);
      var rest := StreamedFrames(true, steps[0].openAfter, steps[1..]);
      if !steps[0].openAfter {
        assert rest == [];
      }
    }
  }

  /** What one stream from the given input and capture state delivers: each
      streamed frame with its detections. */
  function StreamDetections<P>(detector: Image<P> -> seq<Box>, input: VideoInput, isOpen: bool,
                               steps: seq<Step<P>>): seq<(Image<P>, seq<Box>)>
  {
    Detections(detector, StreamedFrames(input.File?, isOpen, steps))
  }

  /** Each frame paired with what the detector finds in it. */
  function Detections<P>(detector: Image<P> -> seq<Box>, frames: seq<Image<P>>): (d: seq<(Image<P>, seq<Box>)>)
    ensures |d| == |frames|
    decreases |frames|
  {
    if frames == [] then []
    else Detections(detector, frames[..|frames| - 1]) + [(frames[|frames| - 1], detector(frames[|frames| - 1]))]
  }

  /** The `k`-th callback gets the `k`-th frame and the detector's faces for it. */
  lemma {:induction false} DetectionsPairs<P>(detector: Image<P> -> seq<Box>, frames: seq<Image<P>>)
    ensures var d := Detections(detector, frames);
      forall k :: 0 <= k < |d| ==> d[k] == (frames[k], detector(frames[k]))
    decreases |frames|
  {
    if frames != [] {
      var init := frames[..|frames| - 1];
      DetectionsPairs(detector, init);
      var d, d0 := Detections(detector, frames), Detections(detector, init);
      forall k | 0 <= k < |d| ensures d[k] == (frames[k], detector(frames[k])) {
        if k < |init| {
          assert d[k] == d0[k] && init[k] == frames[k];
        }
      }
    }
  }

  // ---------------------------------------------------------------------
  // Streamer and messenger

  class VideoStreamer<P> {
    const videoInput: VideoInput
    const detector: Image<P> -> seq<Box>
    const capture: Capture<P>                  // what the video input opens

    constructor (detector: Image<P> -> seq<Box>, videoInput: VideoInput, capture: Capture<P>)
      ensures this.detector == detector && this.videoInput == videoInput && this.capture == capture
    {
      this.detector := detector;
      this.videoInput := videoInput;
      this.capture := capture;
    }

    /** Runs the frame loop, calling `handler.ProcessFaces` once per frame
        delivered, then releases the capture. A file capture that is not
        open is handed to a reopen call without the file's path, which
        raises: then `ok` is false, nothing is read, the client is untouched
        and the capture is not released. */
    method StartStream(handler: FaceMessenger<P>) returns (ok: bool)
      modifies capture, handler.client
      ensures ok <==> !(videoInput.File? && !old(capture.isOpen))
      ensures !ok ==> (handler.client.events == old(handler.client.events)
                       && capture.releases == old(capture.releases)
                       && capture.isOpen == old(capture.isOpen) && capture.pending == old(capture.pending))
      ensures ok ==> (handler.client.events == old(handler.client.events)
                        + CallbackPublishes(handler.outputChannel, handler.guaranteeLevel, handler.encode,
                            StreamDetections(detector, videoInput, old(capture.isOpen), old(capture.pending))))
      ensures ok ==> (capture.releases == old(capture.releases) + 1 && !capture.isOpen
                      && capture.pending == StreamRest(videoInput.File?, old(capture.isOpen), old(capture.pending)))
    {
      var inputIsFile := videoInput.File?;
      if inputIsFile && !capture.isOpen {
        return false;
      }
      ghost var frames := StreamedFrames(inputIsFile, capture.isOpen, capture.pending);
      ghost var rest := StreamRest(inputIsFile, capture.isOpen, capture.pending);
      ghost var done: seq<Image<P>> := [];
      ghost var events0 := handler.client.events;
      ghost var channel, qos, encode := handler.outputChannel, handler.guaranteeLevel, handler.encode;
      while !inputIsFile || capture.isOpen
        invariant done + StreamedFrames(inputIsFile, capture.isOpen, capture.pending) == frames
        invariant StreamRest(inputIsFile, capture.isOpen, capture.pending) == rest
        invariant handler.client.events == events0 + CallbackPublishes(channel, qos, encode, Detections(detector, done))
        invariant capture.releases == old(capture.releases)
        decreases |capture.pending|
      {
        ghost var isOpen0, pending0 := capture.isOpen, capture.pending;
        var frame := capture.Read();
        if frame.None? {
          assert StreamedFrames(inputIsFile, isOpen0, pending0) == [];
          assert StreamRest(inputIsFile, isOpen0, pending0) == capture.pending;
          break;
        }
        var faces := detector(frame.value);
        ghost var before := handler.client.events;
        handler.ProcessFaces(frame.value, faces);
        FramesStep(inputIsFile, isOpen0, pending0, done, frames);
        EventsStep(detector, channel, qos, encode, done, frame.value, events0, before, handler.client.events);
        done := done + [frame.value];
      }
      assert done == frames;
      assert Detections(detector, done) == StreamDetections(detector, videoInput, old(capture.isOpen), old(capture.pending));
      capture.Release();
      ok := true;
    }
  }

  /** One successful read inside the loop moves its frame from the rest of
      the stream to the frames done. */
  lemma FramesStep<P>(isFile: bool, isOpen: bool, steps: seq<Step<P>>, done: seq<Image<P>>, frames: seq<Image<P>>)
    requires !isFile || isOpen
    requires steps != [] && steps[0].frame.Some?
    requires done + StreamedFrames(isFile, isOpen, steps) == frames
    ensures (done + [steps[0].frame.value]) + StreamedFrames(isFile, steps[0].openAfter, steps[1..]) == frames
  {
    StreamedFramesStep(isFile, isOpen, steps);
    AppendInTurn(done, [steps[0].frame.value], StreamedFrames(isFile, steps[0].openAfter, steps[1..]),
                 done + [steps[0].frame.value], (done + [steps[0].frame.value]) + StreamedFrames(isFile, steps[0].openAfter, steps[1..]));
  }

  /** The client's log after the callback for one more frame `f`. */
  lemma EventsStep<P>(detector: Image<P> -> seq<Box>, channel: string, qos: int, encode: Image<P> -> seq<byte>,
                      done: seq<Image<P>>, f: Image<P>, events0: seq<Event>, before: seq<Event>, after: seq<Event>)
    requires before == events0 + CallbackPublishes(channel, qos, encode, Detections(detector, done))
    requires after == before + FacePublishes(channel, qos, encode, f, detector(f))
    ensures after == events0 + CallbackPublishes(channel, qos, encode, Detections(detector, done + [f]))
  {
    var d := Detections(detector, done);
    DetectionsSnoc(detector, done, f);
    CallbackPublishesSnoc(channel, qos, encode, d, (f, detector(f)));
    AppendInTurn(events0, CallbackPublishes(channel, qos, encode, d), FacePublishes(channel, qos, encode, f, detector(f)), before, after);
  }

  /** Appending two pieces to a log in turn appends their concatenation. */
  lemma AppendInTurn<T>(log0: seq<T>, a: seq<T>, b: seq<T>, middle: seq<T>, last: seq<T>)
    requires middle == log0 + a
    requires last == middle + b
    ensures last == log0 + (a + b)
  {
  }

  /** One more successful read adds its frame to the stream. */
  lemma StreamedFramesStep<P>(isFile: bool, isOpen: bool, steps: seq<Step<P>>)
    requires !isFile || isOpen
    requires steps != [] && steps[0].frame.Some?
    ensures StreamedFrames(isFile, isOpen, steps) == [steps[0].frame.value] + StreamedFrames(isFile, steps[0].openAfter, steps[1..])
    ensures StreamRest(isFile, isOpen, steps) == StreamRest(isFile, steps[0].openAfter, steps[1..])
  {
  }

  lemma DetectionsSnoc<P>(detector: Image<P> -> seq<Box>, frames: seq<Image<P>>, f: Image<P>)
    ensures Detections(detector, frames + [f]) == Detections(detector, frames) + [(f, detector(f))]
  {
    assert (frames + [f])[..|frames|] == frames;
  }

  /** One more callback adds the publishes of its frame at the end. */
  lemma CallbackPublishesSnoc<P>(channel: string, qos: int, encode: Image<P> -> seq<byte>,
                                 callbacks: seq<(Image<P>, seq<Box>)>, c: (Image<P>, seq<Box>))
    ensures CallbackPublishes(channel, qos, encode, callbacks + [c])
            == CallbackPublishes(channel, qos, encode, callbacks) + FacePublishes(channel, qos, encode, c.0, c.1)
  {
    assert (callbacks + [c])[..|callbacks|] == callbacks;
  }

  class FaceMessenger<P> {
    const client: MessagingClient
    var outputChannel: string
    var brokerHost: string
    var brokerPort: int
    const videoStreamer: VideoStreamer<P>
    var guaranteeLevel: int
    const encode: Image<P> -> seq<byte>       // the image encoder

    constructor (outputChannel: string, brokerHost: string, brokerPort: int, videoStreamer: VideoStreamer<P>,
                 client: MessagingClient, guaranteeLevel: int, encode: Image<P> -> seq<byte>)
      ensures this.outputChannel == outputChannel && this.brokerHost == brokerHost && this.brokerPort == brokerPort
      ensures this.videoStreamer == videoStreamer && this.client == client && this.guaranteeLevel == guaranteeLevel
      ensures this.encode == encode
    {
      this.outputChannel := outputChannel;
      this.brokerHost := brokerHost;
      this.brokerPort := brokerPort;
      this.videoStreamer := videoStreamer;
      this.client := client;
      this.guaranteeLevel := guaranteeLevel;
      this.encode := encode;
    }

    /** Crops, encodes and publishes every face of one frame, in box order;
        only the client's log changes. */
    method ProcessFaces(image: Image<P>, faces: seq<Box>)
      modifies client
      ensures client.events == old(client.events) + FacePublishes(outputChannel, guaranteeLevel, encode, image, faces)
    {
      for i := 0 to |faces|
        invariant client.events == old(client.events) + FacePublishes(outputChannel, guaranteeLevel, encode, image, faces[..i])
      {
        var cut := Crop(image, faces[i]);
        var png := encode(cut);
        client.Publish(outputChannel, png, guaranteeLevel);
        assert faces[..i + 1][..i] == faces[..i];
      }
      assert faces[..|faces|] == faces;
    }

    /** One streaming session: connect, start the network loop, stream,
        stop the loop, disconnect. When the stream raises, the loop is
        neither stopped nor disconnected. */
    method StreamMessages() returns (ok: bool)
      modifies client, videoStreamer.capture
      ensures ok <==> !(videoStreamer.videoInput.File? && !old(videoStreamer.capture.isOpen))
      ensures !ok ==> (client.events == old(client.events) + [ConnectAsync(brokerHost, brokerPort), LoopStart]
                       && videoStreamer.capture.releases == old(videoStreamer.capture.releases))
      ensures ok ==> (client.events == old(client.events) + SessionEvents(brokerHost, brokerPort,
                        CallbackPublishes(outputChannel, guaranteeLevel, encode,
                          StreamDetections(videoStreamer.detector, videoStreamer.videoInput, old(videoStreamer.capture.isOpen),
                                           old(videoStreamer.capture.pending)))))
      ensures ok ==> videoStreamer.capture.releases == old(videoStreamer.capture.releases) + 1
    {
      ghost var events0 := client.events;
      client.ConnectAsync(brokerHost, brokerPort);
      client.LoopStart();
      ghost var started := client.events;
      ok := videoStreamer.StartStream(this);
      if !ok {
        return;
      }
      ghost var publishes := client.events[|started|..];
      assert client.events == started + publishes;
      client.LoopStop();
      client.Disconnect();
      SessionLog(events0, brokerHost, brokerPort, publishes);
    }
  }

  /** The log built by a session: connect and loop start, the publishes, loop stop and disconnect. */
  lemma SessionLog(events0: seq<Event>, host: string, port: int, publishes: seq<Event>)
    ensures events0 + [ConnectAsync(host, port)] + [LoopStart] + publishes + [LoopStop] + [Disconnect]
            == events0 + SessionEvents(host, port, publishes)
  {
  }

  /** The test's four-by-four image, pixel `(i, j)` being `(4 i + j) / 100`. */
  function TestImage(): Image<real> {
    seq(4, i requires 0 <= i < 4 => seq(4, j requires 0 <= j < 4 => (4 * i + j) as real / 100.0))
  }

  /** The one-pixel crop at the corner of the test image. */
  lemma TestCropCorner()
    ensures Crop(TestImage(), Box(0, 0, 1, 1)) == [[0.0]]
  {
    var img := TestImage();
    assert Rectangular(img, 4);
    var c := Crop(img, Box(0, 0, 1, 1));
    CropInside(img, 4, Box(0, 0, 1, 1));
    assert |c| == 1 && |c[0]| == 1;
    assert c[0][0] == img[0][0] == 0.0;
    assert c[0] == [0.0];
  }

  /** The two-by-two crop at `(2, 2)` of the test image. */
  lemma TestCropCentre()
    ensures Crop(TestImage(), Box(2, 2, 2, 2)) == [[10.0 / 100.0, 11.0 / 100.0], [14.0 / 100.0, 15.0 / 100.0]]
  {
    var img := TestImage();
    assert Rectangular(img, 4);
    var c := Crop(img, Box(2, 2, 2, 2));
    CropInside(img, 4, Box(2, 2, 2, 2));
    assert |c| == 2 && |c[0]| == 2 && |c[1]| == 2;
    assert c[0][0] == img[2][2] && c[0][1] == img[2][3];
    assert c[1][0] == img[3][2] && c[1][1] == img[3][3];
    assert c[0] == [10.0 / 100.0, 11.0 / 100.0];
    assert c[1] == [14.0 / 100.0, 15.0 / 100.0];
  }

  /** Streaming the boxes `(0,0,1,1)` and `(2,2,2,2)` of the test image on
      channel "test" at level 0 publishes exactly two messages: the encoded
      one-pixel crop `[[0]]`, then the encoded crop `[[.10, .11], [.14, .15]]`. */
  lemma StreamFacesScenario(encode: Image<real> -> seq<byte>)
    ensures FacePublishes("test", 0, encode, TestImage(), [Box(0, 0, 1, 1), Box(2, 2, 2, 2)]) ==
      [Publish("test", encode([[0.0]]), 0),
       Publish("test", encode([[10.0 / 100.0, 11.0 / 100.0], [14.0 / 100.0, 15.0 / 100.0]]), 0)]
  {
    var faces := [Box(0, 0, 1, 1), Box(2, 2, 2, 2)];
    TestCropCorner();
    TestCropCentre();
    FacePublishesAreCrops("test", 0, encode, TestImage(), faces);
    var r := FacePublishes("test", 0, encode, TestImage(), faces);
    assert |r| == 2;
    assert r[0] == Publish("test", encode(Crop(TestImage(), faces[0])), 0);
    assert r[1] == Publish("test", encode(Crop(TestImage(), faces[1])), 0);
  }
}
