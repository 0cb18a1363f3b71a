# Plant camera server — a verified model

The camera script runs on an OpenMV board. It captures frames, finds green
(leaf), yellow (unhealthy leaf) and red (fruit) blobs, and reports what it
sees over a small HTTP/1.1 server:

- `/` serves the dashboard page;
- `/stream` serves an MJPEG stream (`multipart/x-mixed-replace`) of annotated frames;
- `/data` serves one JSON analysis of a fresh frame;
- every other path gets a 404.

This project models the script's two pieces of sequential logic and proves
their properties.

- **`process_image`** (module `PlantAnalyzer`, `analyzer.dfy`).
  - The blob detector's output is the input: three sequences of blobs, each a
    rectangle and an area.
  - `Analyze` computes the analysis result. `Draws` gives the rectangles the
    function outlines.
  - `ProcessImage` is the imperative routine. It draws on an `Image` object in
    place and returns the result. It is proved equal to those two functions.
  - The health ratio is an exact `real`.
- **`handle_client` and the per-client `try` of the accept loop** (module
  `CameraServer`, `server.dfy`).
  - Each socket and the camera are objects whose coming outcomes are fixed in
    advance. Each `sendall` succeeds or raises. Each `snapshot` yields a frame
    or raises. An exhausted trace counts as a failure.
  - `HandleClient`, `ServeClient` and `ServeAll` are proved against `Handle`, a
    function of the received request and those outcomes.
  - The protocol's properties are lemmas about `Handle` and about the stream
    run `RunStream`.
- **Supporting modules.**
  - `PyText` (`text.dfy`): Python's `str.split` on one character, including its
    empty tokens, and `str(n)`. Each comes with its inverse.
  - `HttpMessage` (`http.dfy`):
    - the response envelope of RFC 9112 sections 2.1 and 4: status line, header
      fields, empty line, body;
    - a parser that reads a response back, including its Content-Length
      (RFC 9110 section 8.6);
    - the multipart framing of the stream: the `--frame` delimiter of RFC 2046
      section 5.1.1, then part headers, then part bytes.

  Each response string that `handle_client` builds is proved equal to a
  structured response. That response is proved to read back as itself.

The stream's Content-Type in the script is
`multipart/x-mixed-replace;boundary=frame`, with no space before `boundary`.
The model keeps the script's exact bytes.

## Model

| member | source | states |
|---|---|---|
| PlantAnalyzer.SumAreas | cameraScript/main.py:409-416 | The summed area is 0 for no blobs and at least the area of every blob |
| PlantAnalyzer.SumAreasAppend | cameraScript/main.py:409-416 | The area sum over two lists is the sum of their sums |
| PlantAnalyzer.SumAreasAtLeast | cameraScript/main.py:402-404 | Blobs that pass the detector's area floor sum to at least count times that floor |
| PlantAnalyzer.HealthRatio | cameraScript/main.py:421-422 | The ratio is in [0,100]. It is 0 when green+yellow is 0, so there is no division by zero. Otherwise ratio*(green+yellow) = 100*green |
| PlantAnalyzer.Analyze | cameraScript/main.py:407-437 | plant_detected iff there are green blobs; fruit_detected iff there are red blobs; green_area and yellow_area are the area sums, 0 when empty; the ratio obeys HealthRatio's equation over those two areas only |
| PlantAnalyzer.Draws | cameraScript/main.py:407-428 | At most three outlines with distinct colours from the three marks. Each colour appears iff its class is non-empty, and it outlines that class's first blob |
| PlantAnalyzer.EmptyScene | cameraScript/main.py:407-437 | A frame with no blobs gives (false, 0, false, 0, 0) and draws nothing |
| PlantAnalyzer.RedNeverCounts | cameraScript/main.py:421-428 | Replacing the red blobs changes none of plant_detected, green_area, yellow_area or health_ratio |
| PlantAnalyzer.AllGreenIsHealthy | cameraScript/main.py:421-422 | Detected green and no yellow give ratio exactly 100 |
| PlantAnalyzer.SingleGreenBlob | cameraScript/main.py:400-437 | A frame with one 600-pixel green blob gives (true, 100, false, 600, 0) and one green outline around it |
| PlantAnalyzer.AllYellowIsUnhealthy | cameraScript/main.py:421-422 | No green gives ratio 0 |
| PlantAnalyzer.EqualAreasHalfHealthy | cameraScript/main.py:421-422 | Equal positive green and yellow areas give ratio exactly 50 |
| PlantAnalyzer.MoreGreenNotLessHealthy | cameraScript/main.py:407-422 | One more green blob never lowers the ratio |
| PlantAnalyzer.MoreYellowNotMoreHealthy | cameraScript/main.py:416-422 | One more yellow blob never raises the ratio |
| PlantAnalyzer.RatioMonotone | cameraScript/main.py:422 | The ratio is non-decreasing in green area |
| PlantAnalyzer.RatioAntitone | cameraScript/main.py:422 | The ratio is non-increasing in yellow area |
| PlantAnalyzer.Image.DrawRectangle | cameraScript/main.py:410-428 | Drawing appends exactly one outline to the image and changes nothing else |
| PlantAnalyzer.ProcessImage | cameraScript/main.py:400-437 | Returns Analyze of the frame's blobs and appends exactly Draws of them to the image, in green, yellow, red order |
| PyText.IndexOf | cameraScript/main.py:333-334 | None iff the character is absent; otherwise its first position |
| PyText.Split | cameraScript/main.py:333-334 | `s.split(c)`: at least one token, no token contains c, and joining the tokens with c gives back s |
| PyText.SplitCons | cameraScript/main.py:333-334 | The first separator ends the first token |
| PyText.SplitJoin | cameraScript/main.py:333-334 | Splitting a join of separator-free parts gives back exactly those parts |
| PyText.NatToString | cameraScript/main.py:387 | `str(n)` is a non-empty digit string with no leading zero |
| PyText.DecimalValueOfNatToString | cameraScript/main.py:369 | Reading `str(n)` back as decimal gives n |
| HttpMessage.ParseSerialize | cameraScript/main.py:342-396 | Every well-formed response parses back from its serialisation to exactly itself |
| HttpMessage.PageResponseText | cameraScript/main.py:342-344 | The structured reply `PageResponse(html)` serialises to `HTTP/1.1 200 OK`, `Content-Type: text/html`, an empty line, then the page |
| HttpMessage.DataResponseText | cameraScript/main.py:385-388 | The structured reply `DataResponse(json)` serialises to the status line, `Content-Type: application/json`, `Content-Length: str(len(json))`, an empty line, then the JSON |
| HttpMessage.NotFoundText | cameraScript/main.py:394-395 | The structured reply `NotFoundResponse()` serialises to exactly `HTTP/1.1 404 Not Found\r\n\r\n404 Not Found`, with no Content-Type field |
| HttpMessage.StreamHeadText | cameraScript/main.py:349-354 | The structured reply `StreamHead()` serialises to the status line, the multipart Content-Type, `Cache-Control: no-cache`, `Pragma: no-cache`, an empty line, and no body |
| HttpMessage.PageWellFormed | cameraScript/main.py:342-344 | The page reply is a well-formed response |
| HttpMessage.StreamHeadWellFormed | cameraScript/main.py:349-354 | The stream head is a well-formed response |
| HttpMessage.DataResponseFramed | cameraScript/main.py:384-390 | The data reply reads back with the JSON as its body, and its Content-Length is that body's length |
| HttpMessage.PartHeaderText | cameraScript/main.py:366-370 | `PartHeader(size)` is the `--frame` delimiter line, `Content-Type: image/jpeg`, `Content-Length: str(size)`, then an empty line |
| HttpMessage.PartWritesAt | cameraScript/main.py:366-372 | Write 2k is the part header announcing the size of JPEG k, and write 2k+1 is JPEG k itself |
| HttpMessage.PartWritesAppend | cameraScript/main.py:357-372 | The writes of consecutive frames are the writes of each frame in turn |
| HttpMessage.ParsePartWrites | cameraScript/main.py:366-372 | A multipart parser that cuts each part at its declared Content-Length recovers exactly the JPEGs sent, in order |
| CameraServer.FirstLine | cameraScript/main.py:333 | `request.split('\n')[0]` is a prefix of the request with no line feed, followed by a line feed or by the end |
| CameraServer.RequestPath | cameraScript/main.py:333-334 | No path iff the first line has no space (the index error at line 334). Otherwise the path holds no space and no line feed |
| CameraServer.RequestPathOf | cameraScript/main.py:333-334 | `<verb> <path>` followed by a space, a line feed or the end yields exactly that path |
| CameraServer.RouteOf | cameraScript/main.py:340-396 | Exact match: `/` gives the page, `/stream` the stream, `/data` the data; everything else is 404 |
| CameraServer.RoutesWellFormedRequest | cameraScript/main.py:333-334 | `GET /data HTTP/1.1` with header fields yields the path `/data` |
| CameraServer.QueryStringIsNotRouted | cameraScript/main.py:333-334 | `GET /data?x HTTP/1.1` yields `/data?x`, which routes to 404 |
| CameraServer.MissingVersionIsNotRouted | cameraScript/main.py:333-334 | `GET /` followed by CRLF yields the path `/\r`, which routes to 404 |
| CameraServer.DoubledSpaceIsNotRouted | cameraScript/main.py:333-334 | A doubled space yields the empty path, which routes to 404 |
| CameraServer.MalformedExample | cameraScript/main.py:334 | `GET` followed by CRLF has no path |
| CameraServer.RunStreamCaptures | cameraScript/main.py:357-359 | `RunStream`, the stream loop as a function: each iteration takes one snapshot, so a run that delivered n parts used n+1 snapshots, or all there were |
| CameraServer.RunStreamSends | cameraScript/main.py:366-372 | In `RunStream` each iteration uses at most two write outcomes and a delivered part exactly two. A run that delivered n parts used between 2n and 2n+2 of them, from the front of the trace |
| CameraServer.RunStreamStopsAtFirstFailure | cameraScript/main.py:356-374 | Every delivered part is the JPEG of the annotated frame of its iteration, and every earlier iteration succeeded. The iteration right after the last delivered part did not succeed |
| CameraServer.RunStreamTorn | cameraScript/main.py:357-374 | The stream ends torn (a part header out, its bytes not) exactly when the iteration right after the last delivered part captures a frame and sends its header, and then the JPEG write fails. The torn header announces that frame's JPEG size |
| CameraServer.Handle | cameraScript/main.py:326-396 | The handler up to its own close. A raising handler has written nothing. It raises ReceiveFailed iff the receive fails, and MalformedRequestLine iff the first line has no space. A capture fault only comes from `/data` with a failed snapshot. A write fault only comes from a failed first `sendall` |
| CameraServer.ReplyConsumes | cameraScript/main.py:345 | `Reply`, one `sendall` of a whole response: leaves the camera alone and uses up exactly one write outcome, the first (none if the trace is already exhausted) |
| CameraServer.DataSessionConsumes | cameraScript/main.py:376-390 | `DataSession`, the `/data` branch: takes exactly one snapshot, whatever happens next. It uses up exactly the first write outcome when the snapshot succeeds, and none when the snapshot raises |
| CameraServer.StreamSessionConsumes | cameraScript/main.py:347-374 | `StreamSession`, the `/stream` branch: uses up capture and write outcomes only from the front of their traces |
| CameraServer.HandleConsumes | cameraScript/main.py:326-396 | Only `/stream` and `/data` use the camera, and `/data` takes exactly one snapshot. The handler uses up outcomes only from the front of each trace |
| CameraServer.MalformedRequestWritesNothing | cameraScript/main.py:333-334 | A first line without a space raises before any write and consumes no capture |
| CameraServer.UnknownPathGets404 | cameraScript/main.py:392-396 | Any other path gets exactly one write, the 404 text, which parses back as the 404 response with no Content-Type |
| CameraServer.DataResponseIsFramed | cameraScript/main.py:376-390 | A served `/data` writes one response whose body is the JSON of the frame's analysis and whose Content-Length equals that body's length |
| CameraServer.StreamErrorsAreContained | cameraScript/main.py:347-374 | Once the stream head is sent, the handler returns normally. The head is the first write. The rest is the part writes of the run, plus at most one torn part header, and the parts parse back |
| CameraServer.Camera.Snapshot | cameraScript/main.py:359 | Consumes one capture outcome. A fresh, undrawn image of that frame, or none when the capture fails |
| CameraServer.Client.SendAll | cameraScript/main.py:345 | Consumes one write outcome and appends the data to the wire only on success |
| CameraServer.Client.Close | cameraScript/main.py:398 | Counts one close and leaves the wire alone |
| CameraServer.CaptureJpeg | cameraScript/main.py:359-365 | Consumes one capture. Yields the JPEG of the frame annotated by process_image, or nothing if the capture fails |
| CameraServer.SendPart | cameraScript/main.py:366-372 | Sends the part header. It sends the JPEG only if the header went out. The new wire and outcome trace are exact |
| CameraServer.StreamStep | cameraScript/main.py:357-374 | A pass that continues captured a frame and delivered exactly one more part, its annotated JPEG. It used up at least one capture. A pass that stops leaves exactly what the run says |
| CameraServer.StreamFrames | cameraScript/main.py:356-374 | The loop leaves exactly the writes, captures and outcomes that RunStream describes |
| CameraServer.SendPage | cameraScript/main.py:340-345 | The text built by the `+=` steps is the page response. It is on the wire iff the write succeeds |
| CameraServer.SendStreamHead | cameraScript/main.py:349-354 | The literal sent is the stream head. It is on the wire iff the write succeeds |
| CameraServer.SendJson | cameraScript/main.py:384-390 | The text built by the `+=` steps is the JSON response with its Content-Length. It is on the wire iff the write succeeds |
| CameraServer.SendNotFound | cameraScript/main.py:392-396 | The text built by the `+=` steps is the 404 response. It is on the wire iff the write succeeds |
| CameraServer.ServeStream | cameraScript/main.py:347-374 | Behaves as StreamSession: raises only if the head write fails |
| CameraServer.ServeData | cameraScript/main.py:376-390 | Behaves as DataSession: the capture error or write error propagates, otherwise there is one framed JSON reply |
| CameraServer.HandleClient | cameraScript/main.py:326-398 | Writes, exit, captures and write outcomes are exactly those of Handle. The socket is closed once on a normal return and not at all on a raise |
| CameraServer.ServeClient | cameraScript/main.py:449-453 | Whatever the handler does, the client is closed exactly once and its wire is Handle's writes |
| CameraServer.ServeAll | cameraScript/main.py:447-453 | Clients are served in order. Each is served as Handle prescribes, given the camera state the previous client left, and each is closed exactly once. A failing client does not stop the next |

## Left out

- `connect_wifi` and `start_server` (main.py:26-44, 317-324) are network association and socket set-up. They are not part of this model.
- `generate_html` (main.py:46-315) is a static template. It is a string parameter of the handler.
- The OpenMV calls `find_blobs`, `to_jpeg` and the sensor set-up are foreign library calls. The detector's result is the `Scene` an image carries, and `to_jpeg` is a function parameter. Blob rectangles and pixel data are opaque. The LAB colour thresholds (main.py:22-24) and the `pixels_threshold` floors (main.py:402-404) only steer the detector, so they are not modelled. The `area_threshold` floors are kept, as the bound the detector's blobs meet.
- `json.dumps` is a function parameter. The `fps` field that `/data` adds before serialising (main.py:381) is left out with the clock (main.py:337, 358, 378).
- PlantAnalyzer.Analyze: the health ratio is an exact real, not a float. Float rounding is not modelled.
- JPEG bytes and JSON text are sequences of characters, one per byte. Content-Length is their length.
- `recv(1024).decode('utf-8')` is the client's `received` value. `None` stands for any failure of the receive or the decode. Truncation at 1024 bytes is not modelled.
- CameraServer.Client.SendAll: a failing `sendall` is treated as having written nothing. A partial write before the error is not modelled.
- Exceptions from `process_image` or `to_jpeg` inside the stream loop are not modelled. Only capture and write failures end the loop.
- The outer `while True` loops are not modelled: Wi-Fi retry, the endless accept loop and the OSError recovery path (main.py:440-461). `ServeAll` covers a finite sequence of accepted clients.
- CameraServer.RunStream: an endless stream is not modelled. Capture outcomes are a finite trace, so every modelled stream ends.
- Logging (`print`) is left out.
