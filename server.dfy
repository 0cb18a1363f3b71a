/** The connection handler of the camera server (`handle_client`) and the
    per-client step of its accept loop. Sockets and the camera are objects
    whose coming outcomes are fixed in advance: each `sendall` either delivers
    its data or fails, each snapshot either yields a frame or fails. The
    handler is proved against `Handle`, a function of the request and those
    outcomes, and the properties of the protocol are lemmas about `Handle`. */
module CameraServer {
  import opened PyText
  import opened HttpMessage
  import opened PlantAnalyzer

  // ---------------------------------------------------------------------
  // Request line and routing

  /** The text before the first line feed (`request.split('\n')[0]`): a prefix
      of the request without a line feed, followed by one or by the end. */
  function FirstLine(request: string): (line: string)
    ensures '\n' !in line
    ensures |line| <= |request| && request[..|line|] == line
    ensures |line| < |request| ==> request[|line|] == '\n'
  {
    var parts := Split(request, '\n');
    JoinStartsWithHead(parts, '\n');
    if |parts| == 1 then parts[0]
    else
      assert request == parts[0] + ['\n'] + Join(parts[1..], '\n');
      parts[0]
  }

  /** The request path: the second space-separated token of the first line
      (`request_line.split(' ')[1]`), or None where that indexing raises. */
  function RequestPath(request: string): (path: Option<string>)
    ensures path.None? <==> ' ' !in FirstLine(request)
    ensures path.Some? ==> ' ' !in path.value && '\n' !in path.value
  {
    var line := FirstLine(request);
    var tokens := Split(line, ' ');
    if |tokens| >= 2 then
      assert line == tokens[0] + [' '] + Join(tokens[1..], ' ');
      assert line[|tokens[0]|] == ' ';
      JoinStartsWithHead(tokens[1..], ' ');
      var k := |tokens[0]| + 1;
      assert forall i :: 0 <= i < |tokens[1]| ==> tokens[1][i] == line[k + i];
      Some(tokens[1])
    else
      None
  }

  lemma JoinStartsWithHead(parts: seq<string>, sep: char)
    requires |parts| >= 1
    ensures |parts[0]| <= |Join(parts, sep)| && Join(parts, sep)[..|parts[0]|] == parts[0]
  {
  }

  /** The first token of `a + b` is `a` when `a` has no separator and `b` is empty or starts with one. */
  lemma SplitHead(a: string, b: string, sep: char)
    requires sep !in a
    requires b == [] || b[0] == sep
    ensures Split(a + b, sep)[0] == a
  {
    if b == [] {
      assert a + b == a;
      SplitNone(a, sep);
    } else {
      assert a + b == a + [sep] + b[1..];
      SplitCons(a, sep, b[1..]);
    }
  }

  /** A prefix without a line feed before a text without one stays on the first line. */
  lemma FirstLineNoBreak(a: string, b: string)
    requires '\n' !in a && '\n' !in b
    ensures FirstLine(a + b) == a + FirstLine(b)
  {
    SplitNone(b, '\n');
    assert '\n' !in a + b;
    SplitNone(a + b, '\n');
  }

  /** A prefix without a line feed before a line `x` stays on that line. */
  lemma FirstLineBreak(a: string, x: string, y: string)
    requires '\n' !in a && '\n' !in x
    ensures FirstLine(x + ['\n'] + y) == x
    ensures FirstLine(a + (x + ['\n'] + y)) == a + x
  {
    SplitCons(x, '\n', y);
    assert a + (x + ['\n'] + y) == (a + x) + ['\n'] + y;
    assert '\n' !in a + x;
    SplitCons(a + x, '\n', y);
  }

  lemma FirstLineAppend(a: string, b: string)
    requires '\n' !in a
    ensures FirstLine(a + b) == a + FirstLine(b)
  {
    var i := IndexOf(b, '\n');
    if i.None? {
      FirstLineNoBreak(a, b);
    } else {
      var x, y := b[..i.value], b[i.value + 1..];
      assert b == x + ['\n'] + y;
      FirstLineBreak(a, x, y);
    }
  }

  /** The first line of `<verb> <path><rest>` is `<verb> <path><tail>`, where
      `tail` is empty or starts at the next space. */
  lemma FirstLineOfRequest(verb: string, path: string, rest: string) returns (tail: string)
    requires ' ' !in verb && '\n' !in verb && ' ' !in path && '\n' !in path
    requires rest == [] || rest[0] == ' ' || rest[0] == '\n'
    ensures FirstLine(verb + " " + path + rest) == verb + [' '] + (path + tail)
    ensures tail == [] || tail[0] == ' '
  {
    var head := verb + " " + path;
    assert '\n' !in head;
    FirstLineAppend(head, rest);
    tail := FirstLine(rest);
    if rest != [] && rest[0] == '\n' {
      assert rest == [] + ['\n'] + rest[1..];
      SplitCons([], '\n', rest[1..]);
    }
    assert head + tail == verb + [' '] + (path + tail);
  }

  /** A request `<verb> <path><rest>`, where the path runs to the next space,
      to the line feed or to the end, has exactly that path. */
  lemma RequestPathOf(verb: string, path: string, rest: string)
    requires ' ' !in verb && '\n' !in verb && ' ' !in path && '\n' !in path
    requires rest == [] || rest[0] == ' ' || rest[0] == '\n'
    ensures RequestPath(verb + " " + path + rest) == Some(path)
  {
    var tail := FirstLineOfRequest(verb, path, rest);
    SplitCons(verb, ' ', path + tail);
    SplitHead(path, tail, ' ');
  }

  /** The four outcomes of dispatch. */
  datatype Route = Page | Stream | Data | NotFound

  /** Exact string match on the path; everything else is 404. */
  function RouteOf(path: string): (r: Route)
    ensures r == Page <==> path == "/"
    ensures r == Stream <==> path == "/stream"
    ensures r == Data <==> path == "/data"
  {
    if path == "/" then Page
    else if path == "/stream" then Stream
    else if path == "/data" then Data
    else NotFound
  }

  /** A well-formed request with headers reaches its handler. */
  lemma RoutesWellFormedRequest()
    ensures RequestPath("GET /data HTTP/1.1\r\n" + "Host: cam\r\n\r\n") == Some("/data")
  {
    var rest := " HTTP/1.1\r\n" + "Host: cam\r\n\r\n";
    assert "GET /data HTTP/1.1\r\n" + "Host: cam\r\n\r\n" == "GET" + " " + "/data" + rest;
    RequestPathOf("GET", "/data", rest);
  }

  /** A query string stays on the path, so `/data?x` is not routed. */
  lemma QueryStringIsNotRouted()
    ensures RequestPath("GET /data?x HTTP/1.1\r\n") == Some("/data?x")
    ensures RouteOf("/data?x") == NotFound
  {
    assert "GET /data?x HTTP/1.1\r\n" == "GET" + " " + "/data?x" + " HTTP/1.1\r\n";
    RequestPathOf("GET", "/data?x", " HTTP/1.1\r\n");
  }

  /** Without an HTTP version the CR stays on the path, so `GET /` is not routed. */
  lemma MissingVersionIsNotRouted()
    ensures RequestPath("GET /\r\n") == Some("/\r")
    ensures RouteOf("/\r") == NotFound
  {
    assert "GET /\r\n" == "GET" + " " + "/\r" + "\n";
    RequestPathOf("GET", "/\r", "\n");
  }

  /** A doubled space yields the empty path, which is not routed. */
  lemma DoubledSpaceIsNotRouted()
    ensures RequestPath("GET  / HTTP/1.1\r\n") == Some("")
    ensures RouteOf("") == NotFound
  {
    assert "GET  / HTTP/1.1\r\n" == "GET" + " " + "" + " / HTTP/1.1\r\n";
    RequestPathOf("GET", "", " / HTTP/1.1\r\n");
  }

  /** A first line without a space has no second token. */
  lemma MalformedExample()
    ensures RequestPath("GET\r\n") == None
  {
    assert "GET\r\n" == "GET\r" + ['\n'] + "";
    SplitCons("GET\r", '\n', "");
  }

  // ---------------------------------------------------------------------
  // Outcomes of the environment

  /** Outcome of one `sensor.snapshot()`: a frame, or an exception. */
  datatype Capture = Frame(scene: Scene) | CaptureError

  /** Why a handler raised. */
  datatype Fault = ReceiveFailed | MalformedRequestLine | CaptureFailed | WriteFailed

  /** How `handle_client` ended: by returning, or by raising into the accept loop. */
  datatype Exit = Returned | Raised(fault: Fault)

  /** `img.to_jpeg(quality)`: the encoded bytes of a frame with its annotations (one char per byte). */
  type Encoder = (Scene, seq<Draw>, nat) -> string

  /** `json.dumps` of an analysis result. */
  type Serializer = Analysis -> string

  const JpegQuality: nat := 70

  /** Whether the next outcome in a trace is a success; an exhausted trace fails. */
  predicate Next(outcomes: seq<bool>)
  {
    |outcomes| > 0 && outcomes[0]
  }

  /** A trace after one outcome is used up. */
  function Rest<T>(xs: seq<T>): seq<T>
  {
    if |xs| == 0 then [] else xs[1..]
  }

  function Captured(frames: seq<Capture>): bool
  {
    |frames| > 0 && frames[0].Frame?
  }

  /** The JPEG the stream sends for a captured scene: encoded after `process_image` drew on it. */
  function Encoded(scene: Scene, toJpeg: Encoder): string
  {
    toJpeg(scene, Draws(scene), JpegQuality)
  }

  // ---------------------------------------------------------------------
  // The stream loop as a function of its outcomes

  /** What a stream loop did: the JPEGs it delivered whole, the size announced by a
      part header whose bytes then failed to go out (if that is how it stopped),
      and the outcomes it left unused. */
  datatype StreamRun = StreamRun(parts: seq<string>, torn: Option<nat>, frames: seq<Capture>, pending: seq<bool>)

  function RunStream(frames: seq<Capture>, pending: seq<bool>, toJpeg: Encoder): StreamRun
    decreases |frames|
  {
    if !Captured(frames) then StreamRun([], None, Rest(frames), pending)
    else
      var jpeg := Encoded(frames[0].scene, toJpeg);
      if !Next(pending) then StreamRun([], None, frames[1..], Rest(pending))
      else if !Next(pending[1..]) then StreamRun([], Some(|jpeg|), frames[1..], Rest(pending[1..]))
      else
        var r := RunStream(frames[1..], pending[2..], toJpeg);
        r.(parts := [jpeg] + r.parts)
  }

  /** The writes a stream run delivered after the header block. */
  function StreamWrites(r: StreamRun): seq<string>
  {
    PartWrites(r.parts) + (if r.torn.Some? then [PartHeader(r.torn.value)] else [])
  }

  /** Iteration `k` of the stream loop gets a frame and delivers both its writes. */
  predicate StepSucceeds(frames: seq<Capture>, pending: seq<bool>, k: nat)
  {
    k < |frames| && frames[k].Frame? && 2 * k + 1 < |pending| && pending[2 * k] && pending[2 * k + 1]
  }

  /** Iteration `k + 1` of a run is iteration `k` of the run after its first frame. */
  lemma StepShift(frames: seq<Capture>, pending: seq<bool>, k: nat)
    requires |frames| > 0 && |pending| >= 2
    ensures StepSucceeds(frames[1..], pending[2..], k) <==> StepSucceeds(frames, pending, k + 1)
  {
    if k < |frames[1..]| {
      assert frames[1..][k] == frames[k + 1];
    }
    if 2 * k + 1 < |pending[2..]| {
      assert pending[2..][2 * k] == pending[2 * k + 2];
      assert pending[2..][2 * k + 1] == pending[2 * k + 3];
    }
  }

  /** The loop delivers frame after frame, each the JPEG of that frame's annotated
      scene, and stops at the first iteration whose capture or write fails. */
  lemma {:induction false} RunStreamStopsAtFirstFailure(frames: seq<Capture>, pending: seq<bool>, toJpeg: Encoder)
    ensures var r := RunStream(frames, pending, toJpeg);
            (forall k :: 0 <= k < |r.parts| ==>
               StepSucceeds(frames, pending, k) && r.parts[k] == Encoded(frames[k].scene, toJpeg))
            && !StepSucceeds(frames, pending, |r.parts|)
    decreases |frames|
  {
    var r := RunStream(frames, pending, toJpeg);
    if Captured(frames) && Next(pending) && Next(pending[1..]) {
      var r' := RunStream(frames[1..], pending[2..], toJpeg);
      RunStreamStopsAtFirstFailure(frames[1..], pending[2..], toJpeg);
      assert r.parts == [Encoded(frames[0].scene, toJpeg)] + r'.parts;
      forall k | 0 <= k < |r.parts|
        ensures StepSucceeds(frames, pending, k) && r.parts[k] == Encoded(frames[k].scene, toJpeg)
      {
        if k > 0 {
          StepShift(frames, pending, k - 1);
          assert r.parts[k] == r'.parts[k - 1];
          assert frames[1..][k - 1] == frames[k];
        }
      }
      StepShift(frames, pending, |r'.parts|);
    }
  }

  /** Iteration `k` of the stream loop gets a frame and sends its part header,
      and then the write of the JPEG bytes fails. */
  predicate TearsAt(frames: seq<Capture>, pending: seq<bool>, k: nat)
  {
    k < |frames| && frames[k].Frame? && 2 * k < |pending| && pending[2 * k]
    && !(2 * k + 1 < |pending| && pending[2 * k + 1])
  }

  /** Iteration `k + 1` of a run tears exactly when iteration `k` of the run after its first frame does. */
  lemma TearShift(frames: seq<Capture>, pending: seq<bool>, k: nat)
    requires |frames| > 0 && |pending| >= 2
    ensures TearsAt(frames[1..], pending[2..], k) <==> TearsAt(frames, pending, k + 1)
  {
    if k < |frames[1..]| {
      assert frames[1..][k] == frames[k + 1];
    }
    if 2 * k < |pending[2..]| {
      assert pending[2..][2 * k] == pending[2 * k + 2];
    }
    if 2 * k + 1 < |pending[2..]| {
      assert pending[2..][2 * k + 1] == pending[2 * k + 3];
    }
  }

  /** The stream ends torn (a part header out, its bytes not) exactly when the
      iteration right after the last delivered part captures a frame, sends its
      header and then fails to send the JPEG; the torn header announces that
      frame's JPEG size. */
  lemma {:induction false} RunStreamTorn(frames: seq<Capture>, pending: seq<bool>, toJpeg: Encoder)
    ensures var r := RunStream(frames, pending, toJpeg);
            (r.torn.Some? <==> TearsAt(frames, pending, |r.parts|))
            && (r.torn.Some? ==> r.torn.value == |Encoded(frames[|r.parts|].scene, toJpeg)|)
    decreases |frames|
  {
    var r := RunStream(frames, pending, toJpeg);
    if Captured(frames) && Next(pending) && Next(pending[1..]) {
      var r' := RunStream(frames[1..], pending[2..], toJpeg);
      RunStreamTorn(frames[1..], pending[2..], toJpeg);
      assert r.parts == [Encoded(frames[0].scene, toJpeg)] + r'.parts;
      assert r.torn == r'.torn;
      TearShift(frames, pending, |r'.parts|);
      if r.torn.Some? {
        assert frames[1..][|r'.parts|] == frames[|r.parts|];
      }
    } else if Captured(frames) && Next(pending) {
      assert r.parts == [];
      if |pending| > 1 {
        assert pending[1..][0] == pending[1];
      }
    }
  }

  /** Each iteration of the stream loop takes one snapshot: a run that delivered
      `n` parts used `n + 1` snapshots, or all there were. */
  lemma {:induction false} RunStreamCaptures(frames: seq<Capture>, pending: seq<bool>, toJpeg: Encoder)
    ensures var r := RunStream(frames, pending, toJpeg);
            |r.parts| <= |frames| && r.frames == Rest(frames[|r.parts|..])
    decreases |frames|
  {
    var r := RunStream(frames, pending, toJpeg);
    if Captured(frames) && Next(pending) && Next(pending[1..]) {
      var r' := RunStream(frames[1..], pending[2..], toJpeg);
      RunStreamCaptures(frames[1..], pending[2..], toJpeg);
      assert |r.parts| == |r'.parts| + 1 && r.frames == r'.frames;
      assert frames[1..][|r'.parts|..] == frames[|r.parts|..];
    } else {
      assert r.parts == [];
      assert frames[0..] == frames;
    }
  }

  /** Each iteration of the stream loop uses at most two write outcomes, and a
      delivered part exactly two: a run that delivered `n` parts used between
      `2n` and `2n + 2` of them, from the front of the trace. */
  lemma {:induction false} RunStreamSends(frames: seq<Capture>, pending: seq<bool>, toJpeg: Encoder)
    ensures var r := RunStream(frames, pending, toJpeg);
            IsSuffix(r.pending, pending)
            && 2 * |r.parts| <= |pending| - |r.pending| <= 2 * |r.parts| + 2
    decreases |frames|
  {
    var r := RunStream(frames, pending, toJpeg);
    if Captured(frames) && Next(pending) && Next(pending[1..]) {
      var r' := RunStream(frames[1..], pending[2..], toJpeg);
      RunStreamSends(frames[1..], pending[2..], toJpeg);
      assert |r.parts| == |r'.parts| + 1 && r.pending == r'.pending;
      assert pending[2..][|pending[2..]| - |r.pending|..] == pending[|pending| - |r.pending|..];
    } else {
      assert r.parts == [];
    }
  }

  /** A rest of a trace taken from position `n` on is a suffix of it. */
  lemma RestIsSuffix<T>(xs: seq<T>, n: nat)
    requires n <= |xs|
    ensures IsSuffix(Rest(xs[n..]), xs)
  {
    if n < |xs| {
      assert xs[n..][1..] == xs[n + 1..];
    }
  }

  // ---------------------------------------------------------------------
  // A whole connection as a function of its outcomes

  /** What handling one connection did: the writes delivered, how it ended, and
      the camera and socket outcomes it left unused. */
  datatype Session = Session(writes: seq<string>, exit: Exit, frames: seq<Capture>, pending: seq<bool>)

  /** One `sendall` of a whole response. */
  function Reply(response: string, frames: seq<Capture>, pending: seq<bool>): Session
  {
    if Next(pending) then Session([response], Returned, frames, pending[1..])
    else Session([], Raised(WriteFailed), frames, Rest(pending))
  }

  /** The `/data` branch: one snapshot, analysed, answered as JSON. */
  function DataSession(frames: seq<Capture>, pending: seq<bool>, toJson: Serializer): Session
  {
    if !Captured(frames) then Session([], Raised(CaptureFailed), Rest(frames), pending)
    else Reply(Serialize(DataResponse(toJson(Analyze(frames[0].scene)))), frames[1..], pending)
  }

  /** The `/stream` branch: the header block, then the stream loop, whose own
      failures are caught inside the branch. */
  function StreamSession(frames: seq<Capture>, pending: seq<bool>, toJpeg: Encoder): Session
  {
    if !Next(pending) then Session([], Raised(WriteFailed), frames, Rest(pending))
    else
      var run := RunStream(frames, pending[1..], toJpeg);
      Session([Serialize(StreamHead())] + StreamWrites(run), Returned, run.frames, run.pending)
  }

  /** `handle_client` up to the point where it closes the socket itself: receive,
      parse the path, dispatch, respond. */
  function Handle(received: Option<string>, frames: seq<Capture>, pending: seq<bool>,
                  html: string, toJson: Serializer, toJpeg: Encoder): (s: Session)
    ensures s.exit.Raised? ==> s.writes == []
    ensures s.exit == Raised(ReceiveFailed) <==> received.None?
    ensures s.exit == Raised(MalformedRequestLine) <==> received.Some? && RequestPath(received.value).None?
    ensures s.exit == Raised(CaptureFailed) ==>
              received.Some? && RequestPath(received.value) == Some("/data") && !Captured(frames)
    ensures s.exit == Raised(WriteFailed) ==> !Next(pending)
  {
    match received
    case None => Session([], Raised(ReceiveFailed), frames, pending)
    case Some(request) =>
      match RequestPath(request)
      case None => Session([], Raised(MalformedRequestLine), frames, pending)
      case Some(path) =>
        match RouteOf(path)
        case Page => Reply(Serialize(PageResponse(html)), frames, pending)
        case Stream => StreamSession(frames, pending, toJpeg)
        case Data => DataSession(frames, pending, toJson)
        case NotFound => Reply(Serialize(NotFoundResponse()), frames, pending)
  }

  /** A suffix of a trace: what is left after some outcomes were used up. */
  predicate IsSuffix<T(==)>(xs: seq<T>, ys: seq<T>)
  {
    |xs| <= |ys| && xs == ys[|ys| - |xs|..]
  }

  /** A reply leaves the camera alone and uses up at most one write outcome. */
  lemma ReplyConsumes(response: string, frames: seq<Capture>, pending: seq<bool>)
    ensures var s := Reply(response, frames, pending);
            s.frames == frames && s.pending == Rest(pending) && IsSuffix(s.pending, pending)
  {
  }

  /** `/data` takes exactly one snapshot and at most one write outcome. */
  lemma DataSessionConsumes(frames: seq<Capture>, pending: seq<bool>, toJson: Serializer)
    ensures var s := DataSession(frames, pending, toJson);
            s.frames == Rest(frames) && IsSuffix(s.frames, frames)
            && s.pending == (if Captured(frames) then Rest(pending) else pending)
            && IsSuffix(s.pending, pending)
  {
    if Captured(frames) {
      ReplyConsumes(Serialize(DataResponse(toJson(Analyze(frames[0].scene)))), frames[1..], pending);
    }
  }

  /** `/stream` uses up only outcomes, in order. */
  lemma StreamSessionConsumes(frames: seq<Capture>, pending: seq<bool>, toJpeg: Encoder)
    ensures var s := StreamSession(frames, pending, toJpeg);
            IsSuffix(s.frames, frames) && IsSuffix(s.pending, pending)
  {
    var s := StreamSession(frames, pending, toJpeg);
    if Next(pending) {
      var run := RunStream(frames, pending[1..], toJpeg);
      RunStreamCaptures(frames, pending[1..], toJpeg);
      RunStreamSends(frames, pending[1..], toJpeg);
      RestIsSuffix(frames, |run.parts|);
      assert s.frames == run.frames && s.pending == run.pending;
      assert pending[1..][|pending[1..]| - |s.pending|..] == pending[|pending| - |s.pending|..];
    }
  }

  /** The camera is used only by `/stream` and `/data`, and `/data` takes exactly
      one snapshot; the handler only ever uses up outcomes, in order. */
  lemma HandleConsumes(received: Option<string>, frames: seq<Capture>, pending: seq<bool>,
                       html: string, toJson: Serializer, toJpeg: Encoder)
    ensures var s := Handle(received, frames, pending, html, toJson, toJpeg);
            IsSuffix(s.frames, frames) && IsSuffix(s.pending, pending)
            && (s.frames != frames ==>
                  received.Some? && RequestPath(received.value) in {Some("/stream"), Some("/data")})
            && (received.Some? && RequestPath(received.value) == Some("/data") ==> s.frames == Rest(frames))
  {
    var s := Handle(received, frames, pending, html, toJson, toJpeg);
    assert frames[|frames| - |frames|..] == frames;
    assert pending[|pending| - |pending|..] == pending;
    if received.Some? && RequestPath(received.value).Some? {
      var path := RequestPath(received.value).value;
      match RouteOf(path)
      case Page =>
        ReplyConsumes(Serialize(PageResponse(html)), frames, pending);
      case Stream =>
        StreamSessionConsumes(frames, pending, toJpeg);
      case Data =>
        DataSessionConsumes(frames, pending, toJson);
      case NotFound =>
        ReplyConsumes(Serialize(NotFoundResponse()), frames, pending);
    }
  }

  /** A first line without a space fails at the path lookup, before any byte is written. */
  lemma MalformedRequestWritesNothing(request: string, frames: seq<Capture>, pending: seq<bool>,
                                      html: string, toJson: Serializer, toJpeg: Encoder)
    requires ' ' !in FirstLine(request)
    ensures Handle(Some(request), frames, pending, html, toJson, toJpeg)
         == Session([], Raised(MalformedRequestLine), frames, pending)
  {
  }

  /** Any unrouted path gets exactly `HTTP/1.1 404 Not Found\r\n\r\n404 Not Found`, with no Content-Type. */
  lemma UnknownPathGets404(request: string, frames: seq<Capture>, pending: seq<bool>,
                           html: string, toJson: Serializer, toJpeg: Encoder)
    requires RequestPath(request).Some?
    requires RequestPath(request).value !in {"/", "/stream", "/data"}
    requires Next(pending)
    ensures var s := Handle(Some(request), frames, pending, html, toJson, toJpeg);
            s.exit == Returned && s.writes == ["HTTP/1.1 404 Not Found\r\n\r\n" + "404 Not Found"]
            && ParseResponse(s.writes[0]) == Some(NotFoundResponse())
            && Lookup(NotFoundResponse().headers, "Content-Type").None?
  {
    var path := RequestPath(request).value;
    assert RouteOf(path) == NotFound;
    var s := Handle(Some(request), frames, pending, html, toJson, toJpeg);
    assert s == Reply(Serialize(NotFoundResponse()), frames, pending);
    NotFoundText();
    assert WellFormed(NotFoundResponse());
    ParseSerialize(NotFoundResponse());
  }

  /** A served `/data` request writes one response whose declared Content-Length
      is the length of the JSON body after the blank line, that body being the
      serialised analysis of the captured frame. */
  lemma DataResponseIsFramed(request: string, frames: seq<Capture>, pending: seq<bool>,
                             html: string, toJson: Serializer, toJpeg: Encoder)
    requires RequestPath(request) == Some("/data")
    requires Captured(frames) && Next(pending)
    ensures var s := Handle(Some(request), frames, pending, html, toJson, toJpeg);
            s.exit == Returned && |s.writes| == 1
            && ParseResponse(s.writes[0]).Some?
            && ParseResponse(s.writes[0]).value.body == toJson(Analyze(frames[0].scene))
            && ContentLength(ParseResponse(s.writes[0]).value.headers)
               == Some(|ParseResponse(s.writes[0]).value.body|)
  {
    DataResponseFramed(toJson(Analyze(frames[0].scene)));
  }

  /** Once the `/stream` header block is out, the handler returns normally whatever
      happens later: the header block is the first write and is not repeated,
      and the rest of the wire reads back as the JPEGs delivered, in order. */
  lemma StreamErrorsAreContained(request: string, frames: seq<Capture>, pending: seq<bool>,
                                 html: string, toJson: Serializer, toJpeg: Encoder)
    requires RequestPath(request) == Some("/stream")
    requires Next(pending)
    ensures var s := Handle(Some(request), frames, pending, html, toJson, toJpeg);
            var run := RunStream(frames, pending[1..], toJpeg);
            s.exit == Returned
            && s.writes[0] == Serialize(StreamHead())
            && s.writes[1..] == PartWrites(run.parts) + (if run.torn.Some? then [PartHeader(run.torn.value)] else [])
            && ParseParts(Concat(PartWrites(run.parts))) == Some(run.parts)
  {
    var run := RunStream(frames, pending[1..], toJpeg);
    ParsePartWrites(run.parts);
    var s := Handle(Some(request), frames, pending, html, toJson, toJpeg);
    assert s.writes == [Serialize(StreamHead())] + StreamWrites(run);
  }

  // ---------------------------------------------------------------------
  // The objects the handler works on

  /** The frame source; `frames` holds the outcomes of the coming snapshots. */
  class Camera {
    var frames: seq<Capture>

    constructor (frames: seq<Capture>)
      ensures this.frames == frames
    {
      this.frames := frames;
    }

    /** `sensor.snapshot()`: a fresh image, or null where the call raises. */
    method Snapshot() returns (img: Image?)
      modifies this
      ensures frames == Rest(old(frames))
      ensures img == null <==> !Captured(old(frames))
      ensures img != null ==> fresh(img) && img.scene == old(frames)[0].scene && img.drawn == []
    {
      if Captured(frames) {
        img := new Image(frames[0].scene);
      } else {
        img := null;
      }
      frames := Rest(frames);
    }
  }

  /** A client socket: what `recv(1024).decode()` yields (None where it raises),
      the outcomes of the coming `sendall` calls, what was delivered, and how
      often `close` was called. */
  class Client {
    const received: Option<string>
    var pending: seq<bool>
    var sent: seq<string>
    var closes: nat

    constructor (received: Option<string>, pending: seq<bool>)
      ensures this.received == received && this.pending == pending && sent == [] && closes == 0
    {
      this.received := received;
      this.pending := pending;
      sent := [];
      closes := 0;
    }

    /** `sendall`: delivers `data` or fails. */
    method SendAll(data: string) returns (ok: bool)
      modifies this
      ensures ok == Next(old(pending)) && pending == Rest(old(pending))
      ensures sent == if ok then old(sent) + [data] else old(sent)
      ensures closes == old(closes)
    {
      ok := Next(pending);
      if ok {
        sent := sent + [data];
      }
      pending := Rest(pending);
    }

    method Close()
      modifies this
      ensures closes == old(closes) + 1
      ensures sent == old(sent) && pending == old(pending)
    {
      closes := closes + 1;
    }
  }

  // ---------------------------------------------------------------------
  // The handler

  /** A stream run seen from the loop: the parts already delivered in front of the run still to come. */
  function After(done: seq<string>, r: StreamRun): StreamRun
  {
    r.(parts := done + r.parts)
  }

  /** One delivered frame moves from the run still to come to the parts already delivered. */
  lemma StreamAdvance(frames: seq<Capture>, pending: seq<bool>, toJpeg: Encoder, done: seq<string>)
    requires Captured(frames) && Next(pending) && Next(pending[1..])
    ensures After(done, RunStream(frames, pending, toJpeg))
         == After(done + [Encoded(frames[0].scene, toJpeg)], RunStream(frames[1..], pending[2..], toJpeg))
  {
    var c := Encoded(frames[0].scene, toJpeg);
    var r := RunStream(frames[1..], pending[2..], toJpeg);
    assert done + ([c] + r.parts) == (done + [c]) + r.parts;
  }

  /** When the next iteration fails, the run is over: it has used one capture
      outcome and up to two write outcomes, and it adds at most one torn part header
      to what was delivered. */
  lemma StreamEnds(frames: seq<Capture>, pending: seq<bool>, toJpeg: Encoder, done: seq<string>)
    requires !(Captured(frames) && Next(pending) && Next(pending[1..]))
    ensures var r := After(done, RunStream(frames, pending, toJpeg));
            r.frames == Rest(frames)
            && r.pending == (if !Captured(frames) then pending
                             else if Next(pending) then Rest(pending[1..]) else Rest(pending))
            && StreamWrites(r) == PartWrites(done)
                 + (if Captured(frames) && Next(pending) then [PartHeader(|Encoded(frames[0].scene, toJpeg)|)] else [])
  {
    assert done + [] == done;
  }

  /** A part header followed by its JPEG extends the delivered parts by that JPEG. */
  lemma DeliveredPart(sent0: seq<string>, done: seq<string>, jpeg: string)
    ensures sent0 + PartWrites(done) + [PartHeader(|jpeg|)] + [jpeg] == sent0 + PartWrites(done + [jpeg])
  {
    PartWritesAppend(done, [jpeg]);
    assert PartWrites([jpeg]) == [PartHeader(|jpeg|), jpeg];
  }

  /** What the stream loop knows between iterations: `done` is what it has delivered
      since `sent0`, and the rest of `run` is the run of the outcomes still to come. */
  predicate Streaming(client: Client, camera: Camera, toJpeg: Encoder,
                      run: StreamRun, sent0: seq<string>, done: seq<string>)
    reads client, camera
  {
    client.sent == sent0 + PartWrites(done)
    && run == After(done, RunStream(camera.frames, client.pending, toJpeg))
  }

  /** What the stream loop has done once it stopped: exactly the run. */
  predicate Stopped(client: Client, camera: Camera, run: StreamRun, sent0: seq<string>)
    reads client, camera
  {
    client.sent == sent0 + StreamWrites(run)
    && camera.frames == run.frames && client.pending == run.pending
  }

  /** One pass through the body of the stream loop: a frame is captured and sent
      as one part, or the first failure ends the stream. */
  method StreamStep(client: Client, camera: Camera, toJpeg: Encoder,
                    ghost run: StreamRun, ghost sent0: seq<string>, ghost done: seq<string>)
    returns (streaming: bool, ghost done': seq<string>)
    requires Streaming(client, camera, toJpeg, run, sent0, done)
    modifies client, camera
    ensures client.closes == old(client.closes) && |camera.frames| <= old(|camera.frames|)
    ensures streaming ==> Streaming(client, camera, toJpeg, run, sent0, done')
                          && |camera.frames| < old(|camera.frames|)
    ensures streaming ==> Captured(old(camera.frames))
                          && done' == done + [Encoded(old(camera.frames)[0].scene, toJpeg)]
    ensures !streaming ==> Stopped(client, camera, run, sent0)
  {
    ghost var frames1, pending1 := camera.frames, client.pending;
    done' := done;
    var cframe := CaptureJpeg(camera, toJpeg);
    if cframe.None? {
      StreamEnds(frames1, pending1, toJpeg, done);
      return false, done';
    }
    var delivered := SendPart(client, cframe.value);
    if delivered {
      StreamAdvance(frames1, pending1, toJpeg, done);
      DeliveredPart(sent0, done, cframe.value);
      done' := done + [cframe.value];
      streaming := true;
    } else {
      StreamEnds(frames1, pending1, toJpeg, done);
      assert client.sent == sent0 + (PartWrites(done)
               + (if Next(pending1) then [PartHeader(|cframe.value|)] else []));
      streaming := false;
    }
  }

  /** The MJPEG loop of `handle_client`: capture, annotate, encode, write a part,
      until a capture or a write fails; the failure ends the loop and goes no further. */
  method StreamFrames(client: Client, camera: Camera, toJpeg: Encoder)
    modifies client, camera
    ensures var run := RunStream(old(camera.frames), old(client.pending), toJpeg);
            client.sent == old(client.sent) + StreamWrites(run)
            && camera.frames == run.frames && client.pending == run.pending
    ensures client.closes == old(client.closes)
  {
    ghost var run := RunStream(camera.frames, client.pending, toJpeg);
    ghost var sent0 := client.sent;
    ghost var done: seq<string> := [];
    assert After(done, run) == run;
    var streaming := true;
    while streaming
      invariant client.closes == old(client.closes)
      invariant streaming ==> Streaming(client, camera, toJpeg, run, sent0, done)
      invariant !streaming ==> Stopped(client, camera, run, sent0)
      decreases |camera.frames| + (if streaming then 1 else 0)
    {
      streaming, done := StreamStep(client, camera, toJpeg, run, sent0, done);
    }
  }

  /** The first half of a stream iteration: snapshot, `process_image`, `to_jpeg(quality=70)`. */
  method CaptureJpeg(camera: Camera, toJpeg: Encoder) returns (cframe: Option<string>)
    modifies camera
    ensures camera.frames == Rest(old(camera.frames))
    ensures cframe.None? <==> !Captured(old(camera.frames))
    ensures cframe.Some? ==> cframe.value == Encoded(old(camera.frames)[0].scene, toJpeg)
  {
    var img := camera.Snapshot();
    if img == null {
      return None;
    }
    var _ := ProcessImage(img);
    assert img.drawn == Draws(img.scene);
    cframe := Some(toJpeg(img.scene, img.drawn, JpegQuality));
  }

  /** The second half of a stream iteration: the part header, then the JPEG;
      the JPEG is not sent once the header has failed. */
  method SendPart(client: Client, cframe: string) returns (delivered: bool)
    modifies client
    ensures delivered == (Next(old(client.pending)) && Next(old(client.pending)[1..]))
    ensures client.sent == old(client.sent)
              + (if Next(old(client.pending)) then [PartHeader(|cframe|)] else [])
              + (if delivered then [cframe] else [])
    ensures client.pending == if Next(old(client.pending)) then Rest(old(client.pending)[1..]) else Rest(old(client.pending))
    ensures client.closes == old(client.closes)
  {
    var header := "\r\n--frame\r\n" + "Content-Type: image/jpeg\r\n"
                   + "Content-Length: " + NatToString(|cframe|) + "\r\n\r\n";
    PartHeaderText(|cframe|);
    delivered := client.SendAll(header);
    if delivered {
      delivered := client.SendAll(cframe);
    }
  }

  /** The `/stream` branch of `handle_client`. */
  method ServeStream(client: Client, camera: Camera, toJpeg: Encoder) returns (exit: Exit)
    modifies client, camera
    ensures var s := StreamSession(old(camera.frames), old(client.pending), toJpeg);
            exit == s.exit && client.sent == old(client.sent) + s.writes
            && camera.frames == s.frames && client.pending == s.pending
    ensures client.closes == old(client.closes)
  {
    var ok := SendStreamHead(client);
    if !ok {
      return Raised(WriteFailed);
    }
    ghost var run := RunStream(camera.frames, client.pending, toJpeg);
    ghost var s := Session([Serialize(StreamHead())] + StreamWrites(run), Returned, run.frames, run.pending);
    assert StreamSession(old(camera.frames), old(client.pending), toJpeg) == s;
    StreamFrames(client, camera, toJpeg);
    assert client.sent == old(client.sent) + ([Serialize(StreamHead())] + StreamWrites(run));
    exit := Returned;
  }

  /** The `/` reply, built and sent as `handle_client` does it. */
  method SendPage(client: Client, html: string) returns (ok: bool)
    modifies client
    ensures ok == Next(old(client.pending)) && client.pending == Rest(old(client.pending))
    ensures client.sent == old(client.sent) + (if ok then [Serialize(PageResponse(html))] else [])
    ensures client.closes == old(client.closes)
  {
    var response := "HTTP/1.1 200 OK\r\n";
    response := response + "Content-Type: text/html\r\n\r\n";
    response := response + html;
    PageResponseText(html);
    ok := client.SendAll(response);
  }

  /** The header block that opens `/stream`, sent once. */
  method SendStreamHead(client: Client) returns (ok: bool)
    modifies client
    ensures ok == Next(old(client.pending)) && client.pending == Rest(old(client.pending))
    ensures client.sent == old(client.sent) + (if ok then [Serialize(StreamHead())] else [])
    ensures client.closes == old(client.closes)
  {
    StreamHeadText();
    ok := client.SendAll("HTTP/1.1 200 OK\r\n"
                         + "Content-Type: " + "multipart/x-mixed-replace;boundary=frame" + "\r\n"
                         + "Cache-Control: no-cache\r\n"
                         + "Pragma: no-cache\r\n\r\n");
  }

  /** The `/data` reply for a serialised analysis, built and sent as `handle_client` does it. */
  method SendJson(client: Client, jsonData: string) returns (ok: bool)
    modifies client
    ensures ok == Next(old(client.pending)) && client.pending == Rest(old(client.pending))
    ensures client.sent == old(client.sent) + (if ok then [Serialize(DataResponse(jsonData))] else [])
    ensures client.closes == old(client.closes)
  {
    var response := "HTTP/1.1 200 OK\r\n";
    response := response + "Content-Type: application/json\r\n";
    response := response + "Content-Length: " + NatToString(|jsonData|) + "\r\n\r\n";
    response := response + jsonData;
    DataResponseText(jsonData);
    ok := client.SendAll(response);
  }

  /** The reply to every other path, built and sent as `handle_client` does it. */
  method SendNotFound(client: Client) returns (ok: bool)
    modifies client
    ensures ok == Next(old(client.pending)) && client.pending == Rest(old(client.pending))
    ensures client.sent == old(client.sent) + (if ok then [Serialize(NotFoundResponse())] else [])
    ensures client.closes == old(client.closes)
  {
    var response := "HTTP/1.1 404 Not Found\r\n\r\n";
    response := response + "404 Not Found";
    NotFoundText();
    ok := client.SendAll(response);
  }

  /** The `/data` branch of `handle_client`. */
  method ServeData(client: Client, camera: Camera, toJson: Serializer) returns (exit: Exit)
    modifies client, camera
    ensures var s := DataSession(old(camera.frames), old(client.pending), toJson);
            exit == s.exit && client.sent == old(client.sent) + s.writes
            && camera.frames == s.frames && client.pending == s.pending
    ensures client.closes == old(client.closes)
  {
    var img := camera.Snapshot();
    if img == null {
      return Raised(CaptureFailed);
    }
    var data := ProcessImage(img);
    var jsonData := toJson(data);
    var ok := SendJson(client, jsonData);
    exit := if ok then Returned else Raised(WriteFailed);
  }

  /** `handle_client`: on a normal return it has closed the socket itself; a
      raised fault leaves the socket open for the accept loop to close. */
  method HandleClient(client: Client, camera: Camera, html: string, toJson: Serializer, toJpeg: Encoder)
    returns (exit: Exit)
    modifies client, camera
    ensures var s := Handle(client.received, old(camera.frames), old(client.pending), html, toJson, toJpeg);
            exit == s.exit && client.sent == old(client.sent) + s.writes
            && camera.frames == s.frames && client.pending == s.pending
    ensures client.closes == old(client.closes) + (if exit == Returned then 1 else 0)
  {
    if client.received.None? {
      return Raised(ReceiveFailed);
    }
    var request := client.received.value;
    var requestLine := Split(request, '\n')[0];
    var tokens := Split(requestLine, ' ');
    if |tokens| < 2 {
      return Raised(MalformedRequestLine);
    }
    var path := tokens[1];
    assert RequestPath(request) == Some(path);
    ghost var frames0, pending0 := camera.frames, client.pending;
    ghost var s := Handle(client.received, frames0, pending0, html, toJson, toJpeg);

    if path == "/" {
      assert s == Reply(Serialize(PageResponse(html)), frames0, pending0);
      var ok := SendPage(client, html);
      exit := if ok then Returned else Raised(WriteFailed);
    } else if path == "/stream" {
      assert s == StreamSession(frames0, pending0, toJpeg);
      exit := ServeStream(client, camera, toJpeg);
    } else if path == "/data" {
      assert s == DataSession(frames0, pending0, toJson);
      exit := ServeData(client, camera, toJson);
    } else {
      assert s == Reply(Serialize(NotFoundResponse()), frames0, pending0);
      var ok := SendNotFound(client);
      exit := if ok then Returned else Raised(WriteFailed);
    }
    assert exit == s.exit && client.sent == old(client.sent) + s.writes
           && camera.frames == s.frames && client.pending == s.pending;
    if exit == Returned {
      client.Close();
    }
  }

  /** One turn of the accept loop: a fault from the handler is caught and the
      socket closed, so every accepted client is closed exactly once and the loop
      goes on to the next. */
  method ServeClient(client: Client, camera: Camera, html: string, toJson: Serializer, toJpeg: Encoder)
    modifies client, camera
    ensures var s := Handle(client.received, old(camera.frames), old(client.pending), html, toJson, toJpeg);
            client.sent == old(client.sent) + s.writes
            && camera.frames == s.frames && client.pending == s.pending
    ensures client.closes == old(client.closes) + 1
  {
    var exit := HandleClient(client, camera, html, toJson, toJpeg);
    if exit.Raised? {
      client.Close();
    }
  }

  /** What the accept loop did with one client that started with `sent0` written
      and `pending0` to come, given what the camera had left when that client was
      accepted and what it had left afterwards. */
  predicate Served(c: Client, sent0: seq<string>, pending0: seq<bool>, closes0: nat,
                   before: seq<Capture>, after: seq<Capture>,
                   html: string, toJson: Serializer, toJpeg: Encoder)
    reads c
  {
    var s := Handle(c.received, before, pending0, html, toJson, toJpeg);
    c.sent == sent0 + s.writes && c.pending == s.pending
    && c.closes == closes0 + 1 && after == s.frames
  }

  /** The accept loop over a finite run of clients, served one after another in
      order of arrival; `cameraBefore[i]` is what the camera had left when client
      `i` was accepted. */
  method ServeAll(clients: seq<Client>, camera: Camera, html: string, toJson: Serializer, toJpeg: Encoder)
    returns (ghost cameraBefore: seq<seq<Capture>>)
    requires forall i, j :: 0 <= i < j < |clients| ==> clients[i] != clients[j]
    modifies clients, camera
    ensures |cameraBefore| == |clients| + 1
    ensures cameraBefore[0] == old(camera.frames) && cameraBefore[|clients|] == camera.frames
    ensures forall i :: 0 <= i < |clients| ==>
              Served(clients[i], old(clients[i].sent), old(clients[i].pending), old(clients[i].closes),
                     cameraBefore[i], cameraBefore[i + 1], html, toJson, toJpeg)
  {
    cameraBefore := [camera.frames];
    var i := 0;
    while i < |clients|
      invariant 0 <= i <= |clients|
      invariant |cameraBefore| == i + 1
      invariant cameraBefore[0] == old(camera.frames) && cameraBefore[i] == camera.frames
      invariant forall k :: 0 <= k < i ==>
                  Served(clients[k], old(clients[k].sent), old(clients[k].pending), old(clients[k].closes),
                         cameraBefore[k], cameraBefore[k + 1], html, toJson, toJpeg)
      invariant forall k :: i <= k < |clients| ==>
                  clients[k].sent == old(clients[k].sent) && clients[k].pending == old(clients[k].pending)
                  && clients[k].closes == old(clients[k].closes)
    {
      ServeClient(clients[i], camera, html, toJson, toJpeg);
      cameraBefore := cameraBefore + [camera.frames];
      i := i + 1;
    }
  }
}
