# Face streaming pipeline: a verified model

This project models the core of a two-part face-streaming system.

- **Edge side.** A `VideoStreamer` reads frames from a video device or file. It runs a face detector on every frame and hands each `(frame, faces)` pair to a callback. The callback is `FaceMessenger._process_faces`. It crops every face box out of the frame, encodes the crop and publishes it on the messenger's output channel at its guarantee level. `stream_messages` wraps one stream in connect, loop start, loop stop and disconnect. A neural detector turns the network's normalised boxes into pixel boxes. It keeps only the boxes whose score reaches the threshold.
- **Cloud side.** A `ProcessingClient` subscribes to `<channel>/+`. It fixes one output bucket `<channel>-<id>` when it is built. It stores every inbound message through a `MessageSaver` under a fresh object name. The saver caches the buckets it has checked. On a cache miss it lists the provider's buckets, creates the bucket if none has exactly that name, and records it in the cache. It then always writes the object.

## Files

| file | module | contents |
|---|---|---|
| `object_storage.dfy` | `ObjectStorage` | an in-memory object-storage provider (`ObjectStore`): buckets, objects, and a log of every call |
| `message_saver.dfy` | `MessageSaving` | `Store`, the saver's specification over a `Sink` value (cache plus provider state); class `MessageSaver`, whose `StoreObject` is proved to behave as `Store` |
| `processing_client.dfy` | `Processing` | the subscription topic and output bucket names, class `ProcessingClient`, and `StoreAll`, which folds `Store` over a sequence of inbound messages |
| `face_detection.dfy` | `FaceDetection` | step-1 slice and crop semantics; a messaging client that logs every request; the video capture as a script of reads; `VideoStreamer` and `FaceMessenger` |
| `wrappers.dfy` | `Wrappers` | the `Option` type |
| `neural_face_detector.dfy` | `NeuralFaceDetection` | the score filter and the box rescaling of the neural detector, over exact reals |

Stateful source objects are classes, and their methods are proved against pure functions:

- `StoreObject` against `Store`.
- `OnMessage` against `Store`.
- `ProcessFaces` against `FacePublishes`.
- `StartStream` and `StreamMessages` against `StreamedFrames`, `Detections`, `CallbackPublishes` and `SessionEvents`.

The properties are lemmas about those functions.

Collaborators the model cannot see are replaced:

- **Image encoder and face detector.** These are function values fixed at construction.
- **Messaging client.** A log of events.
- **Video capture.** A finite script of read results. Past its end every read fails.
- **Object-storage provider.** Sets and maps with a call log.
- **Fresh identifiers.** The identifiers drawn with `uuid4` are parameters: `channelId` of the `ProcessingClient` constructor, and `objectName` of `OnMessage`.

## Model

| member | source | states |
|---|---|---|
| `ObjectStorage.ObjectStore.ListBuckets` | cloud_server/message_processor/message_processing/message_saver.py:39-40 | returns exactly the existing bucket names, changes no bucket or object, logs one listing |
| `ObjectStorage.ObjectStore.CreateBucket` | cloud_server/message_processor/message_processing/message_saver.py:41-45 | adds the bucket, leaves objects alone, logs the create with its location constraint |
| `ObjectStorage.ObjectStore.PutObject` | cloud_server/message_processor/message_processing/message_saver.py:49-51 | writes the object exactly when the bucket exists and otherwise reports NoSuchBucket and changes nothing; logs one put either way |
| `MessageSaving.Store` | cloud_server/message_processor/message_processing/message_saver.py:30-51 | afterwards the bucket is cached; the cache is append-only, gains at most this name and keeps names distinct; buckets only grow, and by this name at most; the write succeeds iff the bucket exists afterwards and stores exactly this object; the call log only grows; a cache backed by the provider stays backed and its write succeeds |
| `MessageSaving.StoreIssues` | cloud_server/message_processor/message_processing/message_saver.py:37-51 | the exact calls of one store: a cache hit issues only the Put; a miss on an existing bucket issues list then Put; a miss on a missing bucket issues list, Create(bucket, location), Put |
| `MessageSaving.StoreCallCounts` | cloud_server/message_processor/message_processing/message_saver.py:37-51 | one store issues exactly one Put; one listing iff the cache misses; one Create iff the name is neither cached nor listed; every Create carries the configured location |
| `MessageSaving.StoreTwiceCreatesOnce` | cloud_server/message_processor/message_processing/message_saver.py:28-51 | two stores into a bucket the provider lacks, on a fresh saver: calls are exactly list, create, put, put; one create, two puts, both writes succeed, and the cache holds the one name |
| `MessageSaving.ExistingBucketReused` | cloud_server/message_processor/message_processing/message_saver.py:39-48 | a bucket that already exists under exactly the requested name is reused: no create, buckets unchanged, the object lands in it |
| `MessageSaving.MessageSaver.constructor` | cloud_server/message_processor/message_processing/message_saver.py:27-28 | the saver keeps its location and starts with an empty cache |
| `MessageSaving.MessageSaver.StoreObject` | cloud_server/message_processor/message_processing/message_saver.py:30-51 | the outcome and the whole new state (cache, buckets, objects, call log) equal `Store` applied to the old state |
| `Processing.TopicChannel` | cloud_server/message_processor/message_processing/processing_client.py:20 | a channel is recovered only from a topic built from it; no channel yields a topic the function rejects |
| `Processing.TopicRoundTrip` | cloud_server/message_processor/message_processing/processing_client.py:20 | the channel is recovered from its subscription topic |
| `Processing.OutputBucketInjective` | cloud_server/message_processor/message_processing/processing_client.py:21-22 | with equal channel lengths or equal identifier lengths, two buckets are equal iff channel and identifier are |
| `Processing.SessionState` | cloud_server/message_processor/message_processing/processing_client.py:38-47 | over a run of messages the call log only grows, buckets only grow and only by the client's own, the cache gains nothing else, and after at least one message the bucket is cached |
| `Processing.SessionPuts` | cloud_server/message_processor/message_processing/processing_client.py:38-47 | a run of messages issues exactly one Put per message |
| `Processing.SessionPutsTargetBucket` | cloud_server/message_processor/message_processing/processing_client.py:38-47 | every Put of a run goes into the client's output bucket |
| `Processing.CachedSessionOnlyPuts` | cloud_server/message_processor/message_processing/processing_client.py:38-47 | once the bucket is cached, a run issues no listing and no create |
| `Processing.SessionCreatesAtMostOnce` | cloud_server/message_processor/message_processing/processing_client.py:38-47 | a whole run lists at most once and creates at most once; it creates nothing if the bucket was cached or already existed, and lists nothing if it was cached |
| `Processing.SessionStoresEveryMessage` | cloud_server/message_processor/message_processing/processing_client.py:38-47 | with a provider-backed cache and distinct object names, every message of a run is stored under its name in the bucket, and objects in every other bucket are untouched |
| `Processing.ProcessingClient.constructor` | cloud_server/message_processor/message_processing/processing_client.py:11-26 | keeps host, port and saver; topic is `SubscriptionTopic(channel)`; output bucket is `OutputBucket(channel, id)`; no subscription yet |
| `Processing.ProcessingClient.OnConnect` | cloud_server/message_processor/message_processing/processing_client.py:28-36 | on connection the client subscribes to its topic, once |
| `Processing.ProcessingClient.OnMessage` | cloud_server/message_processor/message_processing/processing_client.py:38-47 | exactly one store of this message, under the given object name, into the client's output bucket; the new saver and provider state is `Store` of the old |
| `FaceDetection.Slice` | edge_device/messenger/face_detection/messaging_client.py:124 | the slice has `b - a` elements, where `a` and `b` are the bounds normalised into `[0, n]` (a negative bound counting from the end), and none when `b <= a`; it fits after `a`; with bounds in range it is exactly `s[lo..hi]` |
| `FaceDetection.SliceElements` | edge_device/messenger/face_detection/messaging_client.py:124 | element `k` of a slice is the element `k` places past the normalised lower bound |
| `FaceDetection.SliceColumnsRows` | edge_device/messenger/face_detection/messaging_client.py:124 | slicing the columns of a block of rows slices each row alike and keeps the row order |
| `FaceDetection.Crop` | edge_device/messenger/face_detection/messaging_client.py:124 | the crop has no more rows than the image, and they fit below the normalised row bound; a box from row `y >= 0` of height `h >= 0` keeps `min(h, H - y)` rows, and none when `y >= H` |
| `FaceDetection.CropRows` | edge_device/messenger/face_detection/messaging_client.py:124 | `image[y:y+h, x:x+w]`: row `i` of the crop is the column slice `[x:x+w]` of image row `y' + i`, where `y'` is the normalised row bound |
| `FaceDetection.CropPixels` | edge_device/messenger/face_detection/messaging_client.py:124 | for a box with a non-negative corner, every crop pixel `(i, j)` is image pixel `(y + i, x + j)` |
| `FaceDetection.CropWidth` | edge_device/messenger/face_detection/messaging_client.py:124 | in a rectangular image of width `W`, a box from column `x >= 0` of width `w >= 0` keeps rows of `min(w, W - x)` pixels, and empty rows when `x >= W` |
| `FaceDetection.CropInside` | edge_device/messenger/face_detection/messaging_client.py:124 | a box inside a rectangular image is cut out whole: `h` rows of `w` pixels, pixel `(i, j)` being `image[y + i][x + j]` |
| `FaceDetection.MessagingClient.ConnectAsync` | edge_device/messenger/face_detection/messaging_client.py:14-17 | logs the connect request with host and port |
| `FaceDetection.MessagingClient.LoopStart` | edge_device/messenger/face_detection/messaging_client.py:24-27 | logs the loop start |
| `FaceDetection.MessagingClient.LoopStop` | edge_device/messenger/face_detection/messaging_client.py:29-32 | logs the loop stop |
| `FaceDetection.MessagingClient.Disconnect` | edge_device/messenger/face_detection/messaging_client.py:19-22 | logs the disconnect |
| `FaceDetection.MessagingClient.Publish` | edge_device/messenger/face_detection/messaging_client.py:34-47 | logs one publish of the payload on the channel at the guarantee level |
| `FaceDetection.FacePublishes` | edge_device/messenger/face_detection/messaging_client.py:120-130 | one publish per box, so no boxes means no publishes |
| `FaceDetection.FacePublishesAreCrops` | edge_device/messenger/face_detection/messaging_client.py:123-130 | the `i`-th publish carries the encoded crop of the `i`-th box, on the output channel at the guarantee level |
| `FaceDetection.CallbackPublishesShape` | edge_device/messenger/face_detection/messaging_client.py:123-130 | over a run of callbacks there is one publish per box of every frame, and all of them are on the output channel at the guarantee level |
| `FaceDetection.SessionOrder` | edge_device/messenger/face_detection/messaging_client.py:132-138 | a session logs connect, then loop start, then the publishes, then loop stop, then disconnect; each control event occurs exactly once; every publish lies strictly between loop start and loop stop |
| `FaceDetection.Capture.Read` | edge_device/messenger/face_detection/video_streamer.py:52 | a read yields the next scripted result and consumes it; past the end of the script it fails and changes nothing |
| `FaceDetection.Capture.Release` | edge_device/messenger/face_detection/video_streamer.py:58 | releasing closes the capture and counts one release |
| `FaceDetection.StreamedFrames` | edge_device/messenger/face_detection/video_streamer.py:49-56 | the stream delivers at most one frame per scripted read |
| `FaceDetection.StreamedFramesAreReads` | edge_device/messenger/face_detection/video_streamer.py:49-56 | the `k`-th frame delivered is the frame of the `k`-th read, so the stream is a prefix of the reads in read order |
| `FaceDetection.DeviceStreamStopsAtFirstFailure` | edge_device/messenger/face_detection/video_streamer.py:49-54 | from a device: every read before the stream's end succeeded, and the read at its end failed (or the script ran out) |
| `FaceDetection.StreamConsumes` | edge_device/messenger/face_detection/video_streamer.py:49-54 | a stream consumes one read per frame it delivers, plus at most the failed read that ends it |
| `FaceDetection.StreamRestIsSuffix` | edge_device/messenger/face_detection/video_streamer.py:49-54 | the reads a stream leaves are exactly the script after the ones it consumed |
| `FaceDetection.DetectionsPairs` | edge_device/messenger/face_detection/video_streamer.py:55-56 | the `k`-th callback gets the `k`-th streamed frame and the detector's faces for it |
| `FaceDetection.FileStreamStopsWhenClosed` | edge_device/messenger/face_detection/video_streamer.py:45-54 | from a file: nothing is delivered if the capture is closed at the start; every read before the stream's end succeeded and every read but the last left it open; the stream ends at a failed read, a closed capture or the end of the script |
| `FaceDetection.VideoStreamer.constructor` | edge_device/messenger/face_detection/video_streamer.py:22-33 | keeps the detector and the video input |
| `FaceDetection.VideoStreamer.StartStream` | edge_device/messenger/face_detection/video_streamer.py:35-58 | a file capture that is not open makes the call fail (`ok` false) before any read, with the client log and the capture untouched and no release; otherwise the callback runs once per streamed frame, in order, with that frame and the detector's faces for it, the client log gains exactly those callbacks' publishes, the capture is released once and ends closed, and it keeps exactly the reads the stream did not consume |
| `FaceDetection.FaceMessenger.constructor` | edge_device/messenger/face_detection/messaging_client.py:93-118 | keeps channel, host, port, streamer, client, guarantee level and encoder |
| `FaceDetection.FaceMessenger.ProcessFaces` | edge_device/messenger/face_detection/messaging_client.py:120-130 | the client log gains exactly `FacePublishes` for the frame, in box order, and nothing else |
| `FaceDetection.FaceMessenger.StreamMessages` | edge_device/messenger/face_detection/messaging_client.py:132-138 | when the stream succeeds, the client log gains exactly `SessionEvents` around the publishes of the streamed frames and the capture is released once; when it fails, the log gains only the connect and the loop start, with no loop stop, no disconnect and no release |
| `FaceDetection.StreamFacesScenario` | tests/test_face_detection.py:122-159 | boxes (0,0,1,1) and (2,2,2,2) of the 4x4 test image on channel "test" at level 0 give exactly two publishes: the encoded `[[0]]`, then the encoded `[[.10, .11], [.14, .15]]` |
| `NeuralFaceDetection.KeepConfident` | edge_device/messenger/face_detection/neural_face_detector.py:78-79 | no more boxes are kept than there are boxes, nor than there are scores (zip pairing) |
| `NeuralFaceDetection.KeptIff` | edge_device/messenger/face_detection/neural_face_detector.py:78-79 | a box is kept iff it stands at a position within both lists whose score is at least the threshold |
| `NeuralFaceDetection.KeptInOrder` | edge_device/messenger/face_detection/neural_face_detector.py:78-79 | the kept boxes are a subsequence of the boxes, so their order is kept |
| `NeuralFaceDetection.KeptCount` | edge_device/messenger/face_detection/neural_face_detector.py:78-79 | the number kept equals the number of confident scores among the paired positions |
| `NeuralFaceDetection.KeepConfidentAppend` | edge_device/messenger/face_detection/neural_face_detector.py:78-79 | filtering lists split at the same position is filtering the parts and concatenating |
| `NeuralFaceDetection.RaisedThresholdSubsequence` | edge_device/messenger/face_detection/neural_face_detector.py:78-79 | what a higher threshold keeps is a subsequence of what a lower one keeps |
| `NeuralFaceDetection.PixelBoxRoundTrip` | edge_device/messenger/face_detection/neural_face_detector.py:59-67 | for an image with a positive size, dividing the pixel box back out gives the network box |
| `NeuralFaceDetection.PixelBoxInFrame` | edge_device/messenger/face_detection/neural_face_detector.py:59-67 | a box with `0 <= min <= max <= 1` maps to `x, y, w, h >= 0` with `x + w <= W` and `y + h <= H` |
| `NeuralFaceDetection.GetFaces` | edge_device/messenger/face_detection/neural_face_detector.py:57-67 | no more faces than boxes or scores; the boxes are scaled by the original image's shape |
| `NeuralFaceDetection.GetFacesAreKeptBoxes` | edge_device/messenger/face_detection/neural_face_detector.py:59-67 | one face per kept box, in order, each mapping back to its kept box |
| `NeuralFaceDetection.GetFacesCount` | edge_device/messenger/face_detection/neural_face_detector.py:65-67 | as many faces as confident scores among the paired positions |
| `NeuralFaceDetection.GetFacesInFrame` | edge_device/messenger/face_detection/neural_face_detector.py:59-67 | with normalised network boxes, every face lies inside the original image: `x + w` within its width and `y + h` within its number of rows |

## Left out

- **Cloud SDK.** Construction of the storage client from an API key, resource name and endpoints is left out. The provider is the in-memory `ObjectStore`.
- **Provider errors.** The only provider error modelled is a put into a bucket that does not exist. It is returned as an `Outcome` rather than raised. Other failures are not modelled: network errors, authorisation, a create that collides with a bucket of another account, and the provider's limit on bucket-name length.
- **Bucket deletion.** Buckets are never deleted.
- **Bucket naming.** Buckets are matched by exact name and created under the requested name. There is no prefix matching and no random suffix.
- `Processing.ProcessingClient.OnMessage`: the body is a string, following the annotation at processing_client.py:42. paho hands `on_message` an `MQTTMessage` object, and lines 45-46 pass that object itself to the saver, not its `.payload`. What the storage client would make of such an object is not modelled.
- **Default arguments.** Defaults are not modelled: every constructor and call takes the value explicitly. These are `guarantee_level=0`, `video_input=0`, `detection_threshold=0.5` and the saver's `bucket_location='us-standard'`.
- **MQTT client.** The paho client itself is left out. So are `ProcessingClient.start` (connect, then `loop_forever`) and the callback wiring. `OnConnect` and `OnMessage` are the callbacks, called directly. Console output is dropped.
- **Fresh identifiers.** `uuid4()` is not modelled. The identifiers it would produce are parameters.
- **Messaging client.** `MqttClient` is replaced by the logging fake. Threads and the network loop are not modelled.
- **Teardown.** The source has no try/finally, so a failure inside the stream skips loop stop and disconnect. The model represents this for the failed reopen of a file capture: `StartStream` and `StreamMessages` return `ok` false. Other failures inside the stream are not represented, such as a detector error or an encoder error.
- **Default client.** The default `MqttClient()` argument is created once at definition time and shared. The model takes the client explicitly.
- **Encoder.** `cv.imencode` and `tobytes` are an opaque function from an image to bytes. Its success flag is ignored, as in the source.
  - `cv.imencode` rejects an empty image. So at messaging_client.py:125 a box wholly outside the frame, or with `w <= 0` or `h <= 0`, raises. The model instead publishes `encode` of the empty crop.
- **Box unpacking.** Boxes are `(x, y, w, h)` records. A face list entry without exactly four elements, which would fail to unpack, is not representable.
- **Video capture.** `cv.VideoCapture` is replaced by `Capture`, a script of reads.
  - The script is finite, so every modelled stream ends. In the source, a device whose reads never fail loops forever at video_streamer.py:49, and `stream_messages` never reaches the loop stop or the disconnect. The model covers only runs that end.
  - At video_streamer.py:47 a file capture that is not open gets `capture.open()` with no argument. OpenCV's `VideoCapture.open` takes a file name or a device index, so that call raises instead of retrying. The model has no `Capture.Open`: `StartStream` stops there with `ok` false, before the loop and without a release. This reading of OpenCV's interface is the model's assumption.
  - The source builds a new capture on every `start_stream`. The model uses the streamer's one capture object.
- **Callback.** The streamer's callback is fixed to `FaceMessenger.ProcessFaces`, because the model has no interfaces. The frames handed to it are seen only through the publishes they cause.
- `FaceDetection.VideoStreamer.StartStream`: a frame with no faces leaves no trace in the client log, so the contract cannot distinguish a callback with an empty face list from no callback.
- **Other detectors and entry points.** The cascade detectors and the command-line `main.py` programs of both sides are not part of this model.
- **Neural network.** Graph loading, the session run, image decoding and the resize to the network's input size are left out. The network's scores and boxes for one image are inputs.
- **Floating point.** Coordinates are exact reals. Floating-point rounding is not modelled.
- `NeuralFaceDetection.GetFaces`: the pixel boxes are reals. The source never converts them to integers, although it annotates its result as integer lists. A slice such as `image[y:y+h, x:x+w]` fed those boxes would fail, and that interaction is not modelled. The messenger's `Box` has integer fields.
