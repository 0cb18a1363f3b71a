/** The HTTP/1.1 messages the camera server writes, as structured values with
    the text they serialise to, and a reader for that text. The reader is the
    partner that shows the text is well framed: status line, header fields,
    blank line and body as in RFC 9112 sections 2.1 and 4, a Content-Length
    (RFC 9110 section 8.6) that matches the body, and multipart parts opened by
    the `--frame` delimiter of RFC 2046 section 5.1.1. */
module HttpMessage {
  import opened PyText

  datatype Header = Header(name: string, value: string)

  /** A response: its status line, its header fields in order, and its body. */
  datatype Response = Response(status: string, headers: seq<Header>, body: string)

  const CRLF: string := "\r\n"

  /** Each field as `name: value` followed by CRLF. */
  function HeaderLines(hs: seq<Header>): string
  {
    if |hs| == 0 then "" else hs[0].name + ": " + hs[0].value + CRLF + HeaderLines(hs[1..])
  }

  /** The header section: the field lines and the empty line that ends them. */
  function HeaderBlock(hs: seq<Header>): string
  {
    HeaderLines(hs) + CRLF
  }

  function Serialize(r: Response): string
  {
    r.status + CRLF + HeaderBlock(r.headers) + r.body
  }

  /** A field that reads back unambiguously: no colon or CR in its name, no CR in its value. */
  predicate WellFormedHeader(h: Header)
  {
    ':' !in h.name && '\r' !in h.name && '\r' !in h.value
  }

  predicate WellFormedHeaders(hs: seq<Header>)
  {
    forall i :: 0 <= i < |hs| ==> WellFormedHeader(hs[i])
  }

  predicate WellFormed(r: Response)
  {
    '\r' !in r.status && WellFormedHeaders(r.headers)
  }

  // ---------------------------------------------------------------------
  // Reading a response back

  /** Splits off the text before the first CR, provided that CR starts a CRLF. */
  function ReadLine(s: string): (r: Option<(string, string)>)
    ensures r.Some? ==> '\r' !in r.value.0 && s == r.value.0 + CRLF + r.value.1
  {
    match IndexOf(s, '\r')
    case None => None
    case Some(i) =>
      if i + 1 < |s| && s[i + 1] == '\n' then
        assert s == s[..i] + CRLF + s[i + 2..];
        Some((s[..i], s[i + 2..]))
      else None
  }

  lemma ReadLineOf(line: string, rest: string)
    requires '\r' !in line
    ensures ReadLine(line + CRLF + rest) == Some((line, rest))
  {
    var s := line + CRLF + rest;
    assert s == line + ['\r'] + ("\n" + rest);
    IndexOfAfter(line, '\r', "\n" + rest);
    assert s[..|line|] == line;
    assert s[|line| + 2..] == rest;
  }

  /** `name: value` split at the first colon, which must be followed by a space. */
  function ParseHeaderLine(line: string): (r: Option<Header>)
    ensures r.Some? ==> line == r.value.name + ": " + r.value.value && ':' !in r.value.name
  {
    match IndexOf(line, ':')
    case None => None
    case Some(i) =>
      if i + 1 < |line| && line[i + 1] == ' ' then
        assert line == line[..i] + ": " + line[i + 2..];
        Some(Header(line[..i], line[i + 2..]))
      else None
  }

  lemma ParseHeaderLineOf(h: Header)
    requires WellFormedHeader(h)
    ensures ParseHeaderLine(h.name + ": " + h.value) == Some(h)
  {
    var line := h.name + ": " + h.value;
    assert line == h.name + [':'] + (" " + h.value);
    IndexOfAfter(h.name, ':', " " + h.value);
    assert line[..|h.name|] == h.name;
    assert line[|h.name| + 2..] == h.value;
  }

  /** Reads field lines up to the empty line; yields the fields and what follows. */
  function ParseHeaders(s: string): (r: Option<(seq<Header>, string)>)
    ensures r.Some? ==> |r.value.1| < |s|
    decreases |s|
  {
    match ReadLine(s)
    case None => None
    case Some((line, rest)) =>
      if line == "" then Some(([], rest))
      else
        match ParseHeaderLine(line)
        case None => None
        case Some(h) =>
          match ParseHeaders(rest)
          case None => None
          case Some((hs, after)) => Some(([h] + hs, after))
  }

  /** A well-formed field line reads back as that field. */
  lemma FieldLineReads(h: Header, tail: string)
    requires WellFormedHeader(h)
    ensures var line := h.name + ": " + h.value;
            line != "" && ReadLine(line + CRLF + tail) == Some((line, tail)) && ParseHeaderLine(line) == Some(h)
  {
    var line := h.name + ": " + h.value;
    assert '\r' !in line && |line| >= 2;
    ReadLineOf(line, tail);
    ParseHeaderLineOf(h);
  }

  /** One field line of ParseHeaders, stated over its intermediate results. */
  lemma ParseHeadersStep(s: string, line: string, tail: string, h: Header, hs: seq<Header>, after: string)
    requires ReadLine(s) == Some((line, tail)) && line != ""
    requires ParseHeaderLine(line) == Some(h)
    requires ParseHeaders(tail) == Some((hs, after))
    ensures ParseHeaders(s) == Some(([h] + hs, after))
  {
  }

  /** The first field line of a header section, split off from the lines after it. */
  lemma HeaderBlockCons(hs: seq<Header>, rest: string)
    requires |hs| > 0
    ensures HeaderBlock(hs) + rest == (hs[0].name + ": " + hs[0].value) + CRLF + (HeaderBlock(hs[1..]) + rest)
  {
  }

  /** The header section reads back as the fields it was written from, leaving the rest untouched. */
  lemma {:induction false} ParseHeadersOf(hs: seq<Header>, rest: string)
    requires WellFormedHeaders(hs)
    ensures ParseHeaders(HeaderBlock(hs) + rest) == Some((hs, rest))
    decreases |hs|
  {
    if |hs| == 0 {
      assert HeaderBlock(hs) + rest == "" + CRLF + rest;
      ReadLineOf("", rest);
    } else {
      var h := hs[0];
      var line := h.name + ": " + h.value;
      var tail := HeaderBlock(hs[1..]) + rest;
      HeaderBlockCons(hs, rest);
      FieldLineReads(h, tail);
      assert WellFormedHeaders(hs[1..]);
      ParseHeadersOf(hs[1..], rest);
      ParseHeadersStep(HeaderBlock(hs) + rest, line, tail, h, hs[1..], rest);
      HeadTail(hs);
    }
  }

  function ParseResponse(s: string): Option<Response>
  {
    match ReadLine(s)
    case None => None
    case Some((status, rest)) =>
      match ParseHeaders(rest)
      case None => None
      case Some((hs, body)) => Some(Response(status, hs, body))
  }

  /** Every well-formed response reads back as itself: the envelope is unambiguous. */
  lemma ParseSerialize(r: Response)
    requires WellFormed(r)
    ensures ParseResponse(Serialize(r)) == Some(r)
  {
    var rest := HeaderBlock(r.headers) + r.body;
    assert Serialize(r) == r.status + CRLF + rest;
    ReadLineOf(r.status, rest);
    ParseHeadersOf(r.headers, r.body);
  }

  /** Value of the first field called `name`. */
  function Lookup(hs: seq<Header>, name: string): (r: Option<string>)
    ensures r.None? <==> forall i :: 0 <= i < |hs| ==> hs[i].name != name
    ensures r.Some? ==> exists i :: 0 <= i < |hs| && hs[i] == Header(name, r.value)
  {
    if |hs| == 0 then None
    else if hs[0].name == name then Some(hs[0].value)
    else
      var r := Lookup(hs[1..], name);
      assert forall i :: 1 <= i < |hs| ==> hs[i] == hs[1..][i - 1];
      r
  }

  /** The body length a header section announces, when it announces one in decimal. */
  function ContentLength(hs: seq<Header>): Option<nat>
  {
    match Lookup(hs, "Content-Length")
    case None => None
    case Some(v) => if |v| > 0 && IsDigits(v) then Some(DecimalValue(v)) else None
  }

  // ---------------------------------------------------------------------
  // The responses of the server

  /** `HTTP/1.1 <code> <reason>`, without its CRLF. */
  function StatusLine(code: nat, reason: string): string
  {
    "HTTP/1.1 " + NatToString(code) + " " + reason
  }

  function StatusOk(): string { StatusLine(200, "OK") }

  /** Reply to `/`: the dashboard page, no Content-Length (the connection close ends it). */
  function PageResponse(html: string): Response
  {
    Response(StatusOk(), [Header("Content-Type", "text/html")], html)
  }

  /** Reply to `/data`: the JSON telemetry with its length announced. */
  function DataResponse(json: string): Response
  {
    Response(StatusOk(), [Header("Content-Type", "application/json"),
                          Header("Content-Length", NatToString(|json|))], json)
  }

  /** Reply to every other path: a bare 404 with a short text body and no fields. */
  function NotFoundResponse(): Response
  {
    Response(StatusLine(404, "Not Found"), [], "404 Not Found")
  }

  /** Head of the `/stream` reply; its body is the sequence of parts that follows. */
  function StreamHead(): Response
  {
    Response(StatusOk(), [Header("Content-Type", "multipart/x-mixed-replace;boundary=frame"),
                          Header("Cache-Control", "no-cache"),
                          Header("Pragma", "no-cache")], "")
  }

  lemma StatusOkText()
    ensures StatusOk() == "HTTP/1.1 200 OK"
  {
    assert NatToString(200) == "200" by {
      assert NatToString(20) == "20" by { assert NatToString(2) == "2"; }
    }
  }

  lemma StatusNotFoundText()
    ensures StatusLine(404, "Not Found") == "HTTP/1.1 404 Not Found"
  {
    assert NatToString(404) == "404" by {
      assert NatToString(40) == "40" by { assert NatToString(4) == "4"; }
    }
  }

  lemma HeaderBlockOne(h: Header)
    ensures HeaderBlock([h]) == h.name + ": " + h.value + "\r\n\r\n"
  {
    assert [h][1..] == [];
    assert HeaderLines([h]) == h.name + ": " + h.value + CRLF + "";
    assert CRLF + "" + CRLF == "\r\n\r\n";
  }

  lemma HeaderBlockTwo(h1: Header, h2: Header)
    ensures HeaderBlock([h1, h2]) == h1.name + ": " + h1.value + "\r\n" + (h2.name + ": " + h2.value + "\r\n\r\n")
  {
    assert [h1, h2][1..] == [h2];
    HeaderBlockOne(h2);
  }

  /** The page reply is exactly the text `handle_client` assembles for `/`. */
  lemma PageResponseText(html: string)
    ensures Serialize(PageResponse(html))
         == "HTTP/1.1 200 OK\r\n" + "Content-Type: text/html\r\n\r\n" + html
  {
    StatusOkText();
    var hb := HeaderBlock([Header("Content-Type", "text/html")]);
    HeaderBlockOne(Header("Content-Type", "text/html"));
    assert hb == "Content-Type: text/html\r\n\r\n";
    assert Serialize(PageResponse(html)) == "HTTP/1.1 200 OK" + CRLF + hb + html;
  }

  lemma TwoFieldText(status: string, n1: string, v1: string, n2: string, v2: string, body: string)
    ensures Serialize(Response(status, [Header(n1, v1), Header(n2, v2)], body))
         == status + "\r\n" + (n1 + ": " + v1 + "\r\n") + (n2 + ": " + v2 + "\r\n\r\n") + body
  {
    HeaderBlockTwo(Header(n1, v1), Header(n2, v2));
  }

  /** The data reply is exactly the text `handle_client` assembles for `/data`. */
  lemma DataResponseText(json: string)
    ensures Serialize(DataResponse(json))
         == "HTTP/1.1 200 OK\r\n" + "Content-Type: application/json\r\n"
          + "Content-Length: " + NatToString(|json|) + "\r\n\r\n" + json
  {
    var n := NatToString(|json|);
    StatusOkText();
    TwoFieldText(StatusOk(), "Content-Type", "application/json", "Content-Length", n, json);
    LiteralSteps(n, json);
  }

  lemma LiteralSteps(n: string, json: string)
    ensures "HTTP/1.1 200 OK" + "\r\n" + ("Content-Type" + ": " + "application/json" + "\r\n")
            + ("Content-Length" + ": " + n + "\r\n\r\n") + json
         == "HTTP/1.1 200 OK\r\n" + "Content-Type: application/json\r\n"
            + "Content-Length: " + n + "\r\n\r\n" + json
  {
  }

  /** The 404 reply is exactly `HTTP/1.1 404 Not Found\r\n\r\n404 Not Found` and carries no Content-Type. */
  lemma NotFoundText()
    ensures Serialize(NotFoundResponse()) == "HTTP/1.1 404 Not Found\r\n\r\n" + "404 Not Found"
    ensures Lookup(NotFoundResponse().headers, "Content-Type").None?
  {
    StatusNotFoundText();
    assert HeaderBlock([]) == CRLF;
    assert Serialize(NotFoundResponse()) == "HTTP/1.1 404 Not Found" + CRLF + CRLF + "404 Not Found";
  }

  /** The stream head is exactly the header block `handle_client` sends once for `/stream`. */
  lemma StreamHeadText()
    ensures Serialize(StreamHead())
         == "HTTP/1.1 200 OK\r\n"
          + "Content-Type: " + "multipart/x-mixed-replace;boundary=frame" + "\r\n"
          + "Cache-Control: no-cache\r\n"
          + "Pragma: no-cache\r\n\r\n"
  {
    StatusOkText();
    var h1 := Header("Content-Type", "multipart/x-mixed-replace;boundary=frame");
    var h2 := Header("Cache-Control", "no-cache");
    var h3 := Header("Pragma", "no-cache");
    var l1 := "Content-Type: " + "multipart/x-mixed-replace;boundary=frame" + "\r\n";
    var l2 := "Cache-Control: no-cache\r\n";
    var l3 := "Pragma: no-cache\r\n\r\n";
    assert [h1, h2, h3][1..] == [h2, h3];
    HeaderBlockTwo(h2, h3);
    assert "Content-Type" + ": " == "Content-Type: ";
    assert h1.name + ": " + h1.value + CRLF == l1;
    assert h2.name + ": " + h2.value + "\r\n" == l2;
    assert h3.name + ": " + h3.value + "\r\n\r\n" == l3;
    assert HeaderBlock([h2, h3]) == l2 + l3;
    assert HeaderBlock([h1, h2, h3]) == l1 + HeaderBlock([h2, h3]);
    assert Serialize(StreamHead()) == "HTTP/1.1 200 OK" + CRLF + HeaderBlock([h1, h2, h3]) + "";
  }

  lemma StatusOkHasNoCr()
    ensures '\r' !in StatusOk()
  {
    StatusOkText();
  }

  lemma PairWellFormed(a: Header, b: Header)
    requires WellFormedHeader(a) && WellFormedHeader(b)
    ensures WellFormedHeaders([a, b])
  {
  }

  lemma PageWellFormed(html: string)
    ensures WellFormed(PageResponse(html))
  {
    StatusOkHasNoCr();
    ContentTypeWellFormed("text/html");
  }

  lemma ContentLengthWellFormed(n: string)
    requires IsDigits(n)
    ensures WellFormedHeader(Header("Content-Length", n))
  {
    DigitsHaveNoControl(n);
  }

  lemma DataWellFormed(json: string)
    ensures WellFormed(DataResponse(json))
  {
    StatusOkHasNoCr();
    var n := NatToString(|json|);
    ContentLengthWellFormed(n);
    ContentTypeWellFormed("application/json");
    PairWellFormed(Header("Content-Type", "application/json"), Header("Content-Length", n));
  }

  lemma MultipartTypeHasNoCr()
    ensures '\r' !in "multipart/x-mixed-replace;boundary=frame"
  {
    var v := "multipart/x-mixed-replace;boundary=frame";
    forall i | 0 <= i < |v| ensures v[i] != '\r' { }
  }

  lemma CacheControlWellFormed()
    ensures WellFormedHeader(Header("Cache-Control", "no-cache"))
  {
  }

  lemma PragmaWellFormed()
    ensures WellFormedHeader(Header("Pragma", "no-cache"))
  {
  }

  lemma ContentTypeWellFormed(v: string)
    requires '\r' !in v
    ensures WellFormedHeader(Header("Content-Type", v))
  {
  }

  lemma StreamHeadersWellFormed()
    ensures WellFormedHeaders(StreamHead().headers)
  {
    MultipartTypeHasNoCr();
    ContentTypeWellFormed("multipart/x-mixed-replace;boundary=frame");
    CacheControlWellFormed();
    PragmaWellFormed();
  }

  lemma StreamHeadWellFormed()
    ensures WellFormed(StreamHead())
  {
    StatusOkHasNoCr();
    StreamHeadersWellFormed();
  }

  lemma DataReadsBack(json: string)
    ensures ParseResponse(Serialize(DataResponse(json))) == Some(DataResponse(json))
  {
    DataWellFormed(json);
    ParseSerialize(DataResponse(json));
  }

  lemma DataContentLength(json: string)
    ensures ContentLength(DataResponse(json).headers) == Some(|json|)
  {
    var n := NatToString(|json|);
    var hs := DataResponse(json).headers;
    DecimalValueOfNatToString(|json|);
    assert |"Content-Type"| != |"Content-Length"|;
    assert hs[0].name != "Content-Length";
    assert hs[1..] == [Header("Content-Length", n)];
    assert Lookup(hs[1..], "Content-Length") == Some(n);
    assert Lookup(hs, "Content-Length") == Some(n);
  }

  /** The `/data` reply reads back as itself and its Content-Length equals the length of the body after the blank line. */
  lemma DataResponseFramed(json: string)
    ensures ParseResponse(Serialize(DataResponse(json))) == Some(DataResponse(json))
    ensures ContentLength(DataResponse(json).headers) == Some(|json|)
  {
    DataReadsBack(json);
    DataContentLength(json);
  }

  // ---------------------------------------------------------------------
  // Multipart parts of the MJPEG stream

  /** The delimiter that opens every part: CRLF, two hyphens, the boundary, CRLF. */
  const Delimiter: string := "\r\n--frame\r\n"

  function PartHeaders(size: nat): seq<Header>
  {
    [Header("Content-Type", "image/jpeg"), Header("Content-Length", NatToString(size))]
  }

  /** What is written before a JPEG of `size` bytes. */
  function PartHeader(size: nat): string
  {
    Delimiter + HeaderBlock(PartHeaders(size))
  }

  /** The part header is exactly the text the stream loop builds for each frame. */
  lemma PartHeaderText(size: nat)
    ensures PartHeader(size)
         == "\r\n--frame\r\n" + "Content-Type: image/jpeg\r\n"
          + "Content-Length: " + NatToString(size) + "\r\n\r\n"
  {
    var n := NatToString(size);
    HeaderBlockTwo(Header("Content-Type", "image/jpeg"), Header("Content-Length", n));
    assert Delimiter == "\r\n--frame\r\n";
    assert "Content-Type" + ": " + "image/jpeg" + "\r\n" == "Content-Type: image/jpeg\r\n";
    assert "Content-Length" + ": " + n + "\r\n\r\n" == "Content-Length: " + n + "\r\n\r\n";
  }

  /** Everything the writes put on the wire, in order. */
  function Concat(ws: seq<string>): string
  {
    if |ws| == 0 then "" else ws[0] + Concat(ws[1..])
  }

  lemma {:induction false} ConcatAppend(a: seq<string>, b: seq<string>)
    ensures Concat(a + b) == Concat(a) + Concat(b)
    decreases |a|
  {
    if |a| == 0 {
      assert a + b == b;
    } else {
      ConcatAppend(a[1..], b);
      assert (a + b)[1..] == a[1..] + b;
    }
  }

  /** The writes that deliver `jpegs` as parts: for each, its header, then its bytes. */
  function PartWrites(jpegs: seq<string>): (ws: seq<string>)
    ensures |ws| == 2 * |jpegs|
  {
    if |jpegs| == 0 then [] else [PartHeader(|jpegs[0]|), jpegs[0]] + PartWrites(jpegs[1..])
  }

  /** Write `2k` announces the size of JPEG `k`, and write `2k + 1` is that JPEG. */
  lemma {:induction false} PartWritesAt(jpegs: seq<string>, k: nat)
    requires k < |jpegs|
    ensures PartWrites(jpegs)[2 * k] == PartHeader(|jpegs[k]|)
    ensures PartWrites(jpegs)[2 * k + 1] == jpegs[k]
    decreases k
  {
    if k > 0 {
      PartWritesAt(jpegs[1..], k - 1);
      assert jpegs[1..][k - 1] == jpegs[k];
    }
  }

  lemma {:induction false} PartWritesAppend(a: seq<string>, b: seq<string>)
    ensures PartWrites(a + b) == PartWrites(a) + PartWrites(b)
    decreases |a|
  {
    if |a| == 0 {
      assert a + b == b;
    } else {
      var h := [PartHeader(|a[0]|), a[0]];
      PartWritesAppend(a[1..], b);
      assert (a + b)[1..] == a[1..] + b;
      assert (a + b)[0] == a[0];
      assert PartWrites(a + b) == h + PartWrites(a[1..] + b);
      assert PartWrites(a) == h + PartWrites(a[1..]);
      assert h + (PartWrites(a[1..]) + PartWrites(b)) == (h + PartWrites(a[1..])) + PartWrites(b);
    }
  }

  /** Reads a multipart body: each part must open with the delimiter and say how long it is. */
  function ParseParts(s: string): Option<seq<string>>
    decreases |s|
  {
    if |s| == 0 then Some([])
    else if |s| < |Delimiter| || s[..|Delimiter|] != Delimiter then None
    else
      match ParseHeaders(s[|Delimiter|..])
      case None => None
      case Some((hs, rest)) =>
        match ContentLength(hs)
        case None => None
        case Some(n) =>
          if n > |rest| then None
          else
            match ParseParts(rest[n..])
            case None => None
            case Some(ps) => Some([rest[..n]] + ps)
  }

  lemma PartHeadersWellFormed(size: nat)
    ensures WellFormedHeaders(PartHeaders(size))
  {
    var n := NatToString(size);
    ContentLengthWellFormed(n);
    ContentTypeWellFormed("image/jpeg");
    PairWellFormed(Header("Content-Type", "image/jpeg"), Header("Content-Length", n));
  }

  lemma PartContentLength(size: nat)
    ensures ContentLength(PartHeaders(size)) == Some(size)
  {
    var n := NatToString(size);
    var hs := PartHeaders(size);
    DecimalValueOfNatToString(size);
    assert "Content-Type" != "Content-Length";
    assert hs[1..] == [Header("Content-Length", n)];
    assert Lookup(hs[1..], "Content-Length") == Some(n);
    assert Lookup(hs, "Content-Length") == Some(n);
  }

  /** One step of ParseParts, stated over its intermediate results. */
  lemma ParsePartsStep(s: string, hs: seq<Header>, rest: string, ps: seq<string>)
    requires |Delimiter| <= |s| && s[..|Delimiter|] == Delimiter
    requires ParseHeaders(s[|Delimiter|..]) == Some((hs, rest))
    requires ContentLength(hs).Some? && ContentLength(hs).value <= |rest|
    requires ParseParts(rest[ContentLength(hs).value..]) == Some(ps)
    ensures ParseParts(s) == Some([rest[..ContentLength(hs).value]] + ps)
  {
  }

  /** A delimiter, a readable header section announcing `|j|`, then `j`, then readable parts. */
  lemma ParseFramedPart(hs: seq<Header>, j: string, more: string, ps: seq<string>)
    requires WellFormedHeaders(hs) && ContentLength(hs) == Some(|j|)
    requires ParseParts(more) == Some(ps)
    ensures ParseParts(Delimiter + (HeaderBlock(hs) + (j + more))) == Some([j] + ps)
  {
    var s := Delimiter + (HeaderBlock(hs) + (j + more));
    assert s[..|Delimiter|] == Delimiter;
    assert s[|Delimiter|..] == HeaderBlock(hs) + (j + more);
    ParseHeadersOf(hs, j + more);
    assert (j + more)[..|j|] == j;
    assert (j + more)[|j|..] == more;
    ParsePartsStep(s, hs, j + more, ps);
  }

  lemma Associate(a: string, b: string, c: string)
    ensures (a + b) + c == a + (b + c)
  {
  }

  /** One part followed by readable parts reads back as its JPEG followed by theirs. */
  lemma ParseOnePart(j: string, more: string, ps: seq<string>)
    requires ParseParts(more) == Some(ps)
    ensures ParseParts(PartHeader(|j|) + (j + more)) == Some([j] + ps)
  {
    var hs := PartHeaders(|j|);
    PartHeadersWellFormed(|j|);
    PartContentLength(|j|);
    ParseFramedPart(hs, j, more, ps);
    Associate(Delimiter, HeaderBlock(hs), j + more);
  }

  /** The parts of the stream read back as exactly the JPEGs that were sent, in order. */
  lemma {:induction false} ParsePartWrites(jpegs: seq<string>)
    ensures ParseParts(Concat(PartWrites(jpegs))) == Some(jpegs)
    decreases |jpegs|
  {
    if |jpegs| > 0 {
      var j := jpegs[0];
      var ws := PartWrites(jpegs);
      assert ws == [PartHeader(|j|), j] + PartWrites(jpegs[1..]);
      ConcatAppend([PartHeader(|j|), j], PartWrites(jpegs[1..]));
      assert Concat([PartHeader(|j|), j]) == PartHeader(|j|) + j;
      ParsePartWrites(jpegs[1..]);
      ParseOnePart(j, Concat(PartWrites(jpegs[1..])), jpegs[1..]);
      HeadTail(jpegs);
    }
  }
}
