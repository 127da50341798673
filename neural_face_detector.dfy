/** The pure post-processing of the neural face detector. The network itself
    (graph loading, the session run, the resize of the input image) is not
    modelled: its outputs for one image, the per-detection scores and the
    normalised boxes `(ymin, xmin, ymax, xmax)`, are inputs here.

    Post-processing keeps, in order, the boxes whose paired score reaches
    the detection threshold (pairing boxes with scores as a zip does, so the
    shorter of the two lists bounds the result), and rescales each kept box
    by the ORIGINAL image's height and width into a pixel box
    `(x, y, w, h)`. Coordinates are exact reals. */
module NeuralFaceDetection {
  import opened FaceDetection

  /** A network box, normalised to the image: `(ymin, xmin, ymax, xmax)`. */
  datatype NetBox = NetBox(ymin: real, xmin: real, ymax: real, xmax: real)

  /** A face box in pixels `(x, y, w, h)`; the coordinates are not rounded. */
  datatype PixelBox = PixelBox(x: real, y: real, w: real, h: real)

  /** The detector's configuration: the network's input size and the score
      threshold. The input size is what the image is resized to before the
      network runs; that resize is not modelled, so only the threshold is
      read here. */
  datatype NeuralFaceDetector = NeuralFaceDetector(inputX: int, inputY: int, detectionThreshold: real)

  // ---------------------------------------------------------------------
  // The score filter

  /** The boxes whose paired score is at least `threshold`, in order; boxes
      and scores are paired position by position, up to the shorter one. */
  function KeepConfident(boxes: seq<NetBox>, scores: seq<real>, threshold: real): (r: seq<NetBox>)
    ensures |r| <= |boxes| && |r| <= |scores|
    decreases |boxes|
  {
    if boxes == [] || scores == [] then []
    else (if scores[0] >= threshold then [boxes[0]] else []) + KeepConfident(boxes[1..], scores[1..], threshold)
  }

  /** `a` is `b` with some elements dropped, the rest in their order. */
  predicate IsSubsequence<T(==)>(a: seq<T>, b: seq<T>)
    decreases |b|
  {
    a == [] || (b != [] && ((a[0] == b[0] && IsSubsequence(a[1..], b[1..])) || IsSubsequence(a, b[1..])))
  }

  /** Number of scores at least `threshold`. */
  function Confident(scores: seq<real>, threshold: real): (n: nat)
    ensures n <= |scores|
    decreases |scores|
  {
    if scores == [] then 0 else (if scores[0] >= threshold then 1 else 0) + Confident(scores[1..], threshold)
  }

  /** A box is kept exactly when it stands at a position, within both lists,
      whose score reaches the threshold. */
  lemma {:induction false} KeptIff(boxes: seq<NetBox>, scores: seq<real>, threshold: real, b: NetBox)
    ensures b in KeepConfident(boxes, scores, threshold) <==>
      exists i :: 0 <= i < |boxes| && i < |scores| && boxes[i] == b && scores[i] >= threshold
    decreases |boxes|
  {
    if boxes != [] && scores != [] {
      KeptIff(boxes[1..], scores[1..], threshold, b);
      var rest := KeepConfident(boxes[1..], scores[1..], threshold);
      if b in rest {
        var i :| 0 <= i < |boxes| - 1 && i < |scores| - 1 && boxes[1..][i] == b && scores[1..][i] >= threshold;
        assert boxes[i + 1] == b && scores[i + 1] >= threshold;
      }
      if exists i :: 0 <= i < |boxes| && i < |scores| && boxes[i] == b && scores[i] >= threshold {
        var i :| 0 <= i < |boxes| && i < |scores| && boxes[i] == b && scores[i] >= threshold;
        if i > 0 {
          assert boxes[1..][i - 1] == b && scores[1..][i - 1] >= threshold;
        }
      }
    }
  }

  /** The kept boxes keep their original order. */
  lemma {:induction false} KeptInOrder(boxes: seq<NetBox>, scores: seq<real>, threshold: real)
    ensures IsSubsequence(KeepConfident(boxes, scores, threshold), boxes)
    decreases |boxes|
  {
    if boxes != [] && scores != [] {
      KeptInOrder(boxes[1..], scores[1..], threshold);
      var rest := KeepConfident(boxes[1..], scores[1..], threshold);
      if scores[0] >= threshold {
        var r := KeepConfident(boxes, scores, threshold);
        assert r == [boxes[0]] + rest;
        assert r[0] == boxes[0] && r[1..] == rest;
        assert IsSubsequence(r[1..], boxes[1..]);
      } else {
        assert KeepConfident(boxes, scores, threshold) == rest;
      }
    }
  }

  /** As many boxes are kept as there are confident scores among the paired
      positions. */
  lemma {:induction false} KeptCount(boxes: seq<NetBox>, scores: seq<real>, threshold: real)
    ensures |boxes| <= |scores| ==> |KeepConfident(boxes, scores, threshold)| == Confident(scores[..|boxes|], threshold)
    ensures |scores| <= |boxes| ==> |KeepConfident(boxes, scores, threshold)| == Confident(scores, threshold)
    decreases |boxes|
  {
    if boxes != [] && scores != [] {
      KeptCount(boxes[1..], scores[1..], threshold);
      if |boxes| <= |scores| {
        assert scores[..|boxes|][1..] == scores[1..][..|boxes| - 1];
      }
    }
  }

  /** Filtering distributes over lists split at the same position. */
  lemma {:induction false} KeepConfidentAppend(b1: seq<NetBox>, s1: seq<real>, b2: seq<NetBox>, s2: seq<real>, threshold: real)
    requires |b1| == |s1|
    ensures KeepConfident(b1 + b2, s1 + s2, threshold) == KeepConfident(b1, s1, threshold) + KeepConfident(b2, s2, threshold)
    decreases |b1|
  {
    if b1 == [] {
      assert b1 + b2 == b2 && s1 + s2 == s2;
    } else {
      KeepConfidentAppend(b1[1..], s1[1..], b2, s2, threshold);
      assert (b1 + b2)[1..] == b1[1..] + b2;
      assert (s1 + s2)[1..] == s1[1..] + s2;
    }
  }

  /** Raising the threshold never adds a box: what a higher threshold keeps
      is a subsequence of what a lower one keeps. */
  lemma {:induction false} RaisedThresholdSubsequence(boxes: seq<NetBox>, scores: seq<real>, low: real, high: real)
    requires low <= high
    ensures IsSubsequence(KeepConfident(boxes, scores, high), KeepConfident(boxes, scores, low))
    decreases |boxes|
  {
    if boxes != [] && scores != [] {
      RaisedThresholdSubsequence(boxes[1..], scores[1..], low, high);
      var hi := KeepConfident(boxes[1..], scores[1..], high);
      var lo := KeepConfident(boxes[1..], scores[1..], low);
      if scores[0] >= high {
        assert ([boxes[0]] + hi)[1..] == hi && ([boxes[0]] + lo)[1..] == lo;
      } else if scores[0] >= low {
        var r := KeepConfident(boxes, scores, low);
        assert r == [boxes[0]] + lo && r[1..] == lo;
        assert KeepConfident(boxes, scores, high) == hi;
        assert IsSubsequence(hi, r[1..]);
      } else {
        assert KeepConfident(boxes, scores, high) == hi && KeepConfident(boxes, scores, low) == lo;
      }
    }
  }

  // ---------------------------------------------------------------------
  // Rescaling to pixels

  /** Scale `(ymin, xmin, ymax, xmax)` by `(H, W, H, W)` and reorder it to
      `(x, y, w, h)`. */
  function ToPixelBox(b: NetBox, imageHeight: int, imageWidth: int): PixelBox {
    var H, W := imageHeight as real, imageWidth as real;
    PixelBox(b.xmin * W, b.ymin * H, b.xmax * W - b.xmin * W, b.ymax * H - b.ymin * H)
  }

  /** The normalised box a pixel box of a `H`-by-`W` image stands for. */
  function FromPixelBox(p: PixelBox, imageHeight: int, imageWidth: int): NetBox
    requires imageHeight > 0 && imageWidth > 0
  {
    var H, W := imageHeight as real, imageWidth as real;
    NetBox(p.y / H, p.x / W, (p.y + p.h) / H, (p.x + p.w) / W)
  }

  /** Rescaling loses nothing for an image with a positive size. */
  lemma PixelBoxRoundTrip(b: NetBox, imageHeight: int, imageWidth: int)
    requires imageHeight > 0 && imageWidth > 0
    ensures FromPixelBox(ToPixelBox(b, imageHeight, imageWidth), imageHeight, imageWidth) == b
  {
    var H, W := imageHeight as real, imageWidth as real;
    assert (b.xmin * W) / W == b.xmin;
    assert (b.ymin * H) / H == b.ymin;
    assert (b.xmin * W + (b.xmax * W - b.xmin * W)) / W == b.xmax;
    assert (b.ymin * H + (b.ymax * H - b.ymin * H)) / H == b.ymax;
  }

  /** A box with `0 <= min <= max <= 1` on both axes. */
  predicate Normalized(b: NetBox) {
    0.0 <= b.ymin <= b.ymax <= 1.0 && 0.0 <= b.xmin <= b.xmax <= 1.0
  }

  /** `lo <= hi` in `[0, 1]`, scaled by `n >= 0`, gives `0 <= lo n`,
      `0 <= hi n - lo n` and `hi n <= n`. */
  lemma ScaleInterval(lo: real, hi: real, n: real)
    requires 0.0 <= lo <= hi <= 1.0 && 0.0 <= n
    ensures 0.0 <= lo * n && 0.0 <= hi * n - lo * n && lo * n + (hi * n - lo * n) <= n
  {
    assert hi * n - lo * n == (hi - lo) * n;
    assert n - hi * n == (1.0 - hi) * n;
  }

  /** A normalised box lands inside the image. */
  lemma PixelBoxInFrame(b: NetBox, imageHeight: nat, imageWidth: nat)
    requires Normalized(b)
    ensures var p := ToPixelBox(b, imageHeight, imageWidth);
      && 0.0 <= p.x && 0.0 <= p.w && p.x + p.w <= imageWidth as real
      && 0.0 <= p.y && 0.0 <= p.h && p.y + p.h <= imageHeight as real
  {
    ScaleInterval(b.xmin, b.xmax, imageWidth as real);
    ScaleInterval(b.ymin, b.ymax, imageHeight as real);
  }

  // ---------------------------------------------------------------------
  // get_faces

  /** The first two entries of the original image's shape: its number of
      rows, and the length of its first row (0 for an image without rows). */
  function Height<P>(image: Image<P>): nat {
    |image|
  }

  function Width<P>(image: Image<P>): nat {
    if image == [] then 0 else |image[0]|
  }

  /** The faces of one image, given the network's scores and boxes for it
      (computed on the image resized to the network's input size). The
      boxes are scaled by the shape of the original image. */
  function GetFaces<P>(d: NeuralFaceDetector, image: Image<P>, scores: seq<real>, boxes: seq<NetBox>): (faces: seq<PixelBox>)
    ensures |faces| <= |boxes| && |faces| <= |scores|
  {
    var kept := KeepConfident(boxes, scores, d.detectionThreshold);
    seq(|kept|, k requires 0 <= k < |kept| => ToPixelBox(kept[k], Height(image), Width(image)))
  }

  /** One face per kept box, in order: the `k`-th face is the `k`-th kept box
      rescaled, so that for an image with a positive size it maps back to
      that box. */
  lemma GetFacesAreKeptBoxes<P>(d: NeuralFaceDetector, image: Image<P>, scores: seq<real>, boxes: seq<NetBox>)
    ensures var faces, kept := GetFaces(d, image, scores, boxes), KeepConfident(boxes, scores, d.detectionThreshold);
      && |faces| == |kept|
      && (Height(image) > 0 && Width(image) > 0 ==>
            forall k :: 0 <= k < |faces| ==> FromPixelBox(faces[k], Height(image), Width(image)) == kept[k])
  {
    var faces, kept := GetFaces(d, image, scores, boxes), KeepConfident(boxes, scores, d.detectionThreshold);
    if Height(image) > 0 && Width(image) > 0 {
      forall k | 0 <= k < |faces| ensures FromPixelBox(faces[k], Height(image), Width(image)) == kept[k] {
        PixelBoxRoundTrip(kept[k], Height(image), Width(image));
      }
    }
  }

  /** As many faces as confident scores among the paired positions. */
  lemma GetFacesCount<P>(d: NeuralFaceDetector, image: Image<P>, scores: seq<real>, boxes: seq<NetBox>)
    ensures |boxes| <= |scores| ==> |GetFaces(d, image, scores, boxes)| == Confident(scores[..|boxes|], d.detectionThreshold)
    ensures |scores| <= |boxes| ==> |GetFaces(d, image, scores, boxes)| == Confident(scores, d.detectionThreshold)
  {
    KeptCount(boxes, scores, d.detectionThreshold);
  }

  /** With normalised network boxes, every face lies inside the original
      image of `width` columns. */
  lemma GetFacesInFrame<P>(d: NeuralFaceDetector, image: Image<P>, width: nat, scores: seq<real>, boxes: seq<NetBox>)
    requires Rectangular(image, width)
    requires forall i :: 0 <= i < |boxes| ==> Normalized(boxes[i])
    ensures var faces := GetFaces(d, image, scores, boxes);
      forall k :: 0 <= k < |faces| ==>
        && 0.0 <= faces[k].x && 0.0 <= faces[k].w && faces[k].x + faces[k].w <= width as real
        && 0.0 <= faces[k].y && 0.0 <= faces[k].h && faces[k].y + faces[k].h <= |image| as real
  {
    var kept := KeepConfident(boxes, scores, d.detectionThreshold);
    var faces := GetFaces(d, image, scores, boxes);
    if image != [] {
      assert Width(image) == width;
    }
    forall k | 0 <= k < |faces|
      ensures 0.0 <= faces[k].x && 0.0 <= faces[k].w && faces[k].x + faces[k].w <= width as real
      ensures 0.0 <= faces[k].y && 0.0 <= faces[k].h && faces[k].y + faces[k].h <= |image| as real
    {
      KeptIff(boxes, scores, d.detectionThreshold, kept[k]);
      PixelBoxInFrame(kept[k], Height(image), Width(image));
    }
  }
}
