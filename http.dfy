/** The request grammar, the route table and the responses of `handleConnection` in
    app/main.go, as pure functions of the byte stream and of the file store. The
    connection loop that applies them step by step is `Connection.ServeConnection`. */
module Http {
  import opened Wrappers
  import opened Bytes
  import opened BufferedReader

  /** Header names, lower-cased, to trimmed values; a later line overwrites an earlier one. */
  type Headers = map<Bytes, Bytes>

  /** The served directory: file name to contents. A name stands for the file
      `filepath.Join(directory, name)`. */
  type Store = map<Bytes, Bytes>

  datatype Request = Request(verb: Bytes, path: Bytes, headers: Headers, body: Bytes)

  const Get: Bytes := "GET"
  const Post: Bytes := "POST"
  const ContentLengthKey: Bytes := "content-length"
  const UserAgentKey: Bytes := "user-agent"
  const ConnectionKey: Bytes := "connection"

  /** A Go map read: the value under `k`, or the empty string when there is none. */
  function Lookup(h: Headers, k: Bytes): (v: Bytes)
    ensures v != [] ==> k in h
    ensures NormalHeaders(h) ==> Trimmed(v)
  {
    if k in h then h[k] else []
  }

  // ---------------------------------------------------------------------------
  // Headers

  /** The key a header line is stored under: its name trimmed, then lower-cased. The
      key has no upper-case letter and no white space at either end. */
  function HeaderName(name: Bytes): (key: Bytes)
    ensures NoUpper(key) && Trimmed(key)
  {
    var trimmed := TrimSpace(name);
    TrimSpaceTrimmed(name);
    ToLowerBytes(trimmed);
    ToLowerTrimmed(trimmed);
    ToLower(trimmed)
  }

  /** One header line, already stripped of its line end: split at the first colon; a
      line without a colon is skipped (`Properties.HeaderWithoutColon`). No key is ever removed. */
  function AddHeader(h: Headers, line: Bytes): (r: Headers)
    ensures h.Keys <= r.Keys
  {
    match CutColon(line)
    case None => h
    case Some((name, value)) => h[HeaderName(name) := TrimSpace(value)]
  }

  /** Header maps as the header loop builds them: every key is lower-case with no white
      space at either end, and every value is trimmed. */
  predicate NormalHeaders(h: Headers) {
    forall k :: k in h ==> NoUpper(k) && Trimmed(k) && Trimmed(h[k])
  }

  /** Adding a header line keeps the map normal. */
  lemma AddHeaderNormal(h: Headers, line: Bytes)
    requires NormalHeaders(h)
    ensures NormalHeaders(AddHeader(h, line))
  {
    match CutColon(line) {
      case None =>
      case Some((name, value)) =>
        TrimSpaceTrimmed(value);
    }
  }

  /** The header lines from `pos` to the first line that is empty once its trailing CR
      and LF bytes are removed, added to `acc`; the position after that empty line.
      None when the stream ends first. */
  function ReadHeaders(data: Bytes, pos: nat, acc: Headers): (r: Option<(Headers, nat)>)
    requires pos <= |data|
    ensures r.Some? ==> pos < r.value.1 <= |data|
    decreases |data| - pos
  {
    match LineEnd(data, pos)
    case None => None
    case Some(e) =>
      var line := TrimLineEnd(data[pos..e]);
      if line == [] then Some((acc, e))
      else ReadHeaders(data, e, AddHeader(acc, line))
  }

  /** The header loop keeps its map normal, so the headers of every request it reads
      have lower-case, trimmed names and trimmed values. */
  lemma {:induction false} ReadHeadersNormal(data: Bytes, pos: nat, acc: Headers)
    requires pos <= |data| && NormalHeaders(acc)
    ensures var r := ReadHeaders(data, pos, acc); r.Some? ==> NormalHeaders(r.value.0)
    decreases |data| - pos
  {
    match LineEnd(data, pos) {
      case None =>
      case Some(e) =>
        var line := TrimLineEnd(data[pos..e]);
        if line != [] {
          AddHeaderNormal(acc, line);
          ReadHeadersNormal(data, e, AddHeader(acc, line));
        }
    }
  }

  /** A header line that is not empty once trimmed is added, and the loop reads on. */
  lemma ReadHeadersGoesOn(data: Bytes, pos: nat, acc: Headers, e: nat)
    requires pos <= |data| && LineEnd(data, pos) == Some(e)
    requires TrimLineEnd(data[pos..e]) != []
    ensures ReadHeaders(data, pos, acc) == ReadHeaders(data, e, AddHeader(acc, TrimLineEnd(data[pos..e])))
  {
  }

  // ---------------------------------------------------------------------------
  // One request

  /** What reading one request from the stream gives: the stream ended inside the
      request line or the headers; the request is malformed (fewer than three words on
      the request line, or a body shorter than its Content-Length); a negative
      Content-Length, on which `make` panics; or the request and the position after it. */
  datatype Parse = Ended | Malformed | Panic | Parsed(request: Request, next: nat)

  /** A request line of three words leaves what follows it to the header loop. */
  lemma ReadRequestLine(data: Bytes, pos: nat, e: nat, verb: Bytes, path: Bytes, version: Bytes)
    requires pos <= |data| && LineEnd(data, pos) == Some(e)
    requires Fields(data[pos..e]) == [verb, path, version]
    ensures ReadRequest(data, pos) == AfterRequestLine([verb, path, version], data, e)
  {
  }

  /** Only the first two words of the request line matter: the version and any words
      after it are ignored. */
  lemma ExtraWordsIgnored(parts: seq<Bytes>, version: Bytes, data: Bytes, e: nat)
    requires e <= |data| && |parts| >= 3
    ensures AfterRequestLine(parts, data, e) == AfterRequestLine([parts[0], parts[1], version], data, e)
  {
  }

  /** A complete header block leaves what follows it to the body. */
  lemma AfterHeaders(verb: Bytes, path: Bytes, version: Bytes, data: Bytes, e: nat, h: Headers, p: nat)
    requires e <= |data| && ReadHeaders(data, e, map[]) == Some((h, p))
    ensures AfterRequestLine([verb, path, version], data, e) == WithBody(verb, path, h, data, p)
  {
  }

  /** How many body bytes a request with this method and these headers has: its
      `content-length` for a POST that carries one, and none otherwise. */
  function BodyLength(verb: Bytes, h: Headers): (n: int)
    ensures n != 0 ==> verb == Post && ContentLengthKey in h
    ensures -MaxInt64 - 1 <= n <= MaxInt64
  {
    if verb == Post && ContentLengthKey in h then ScanInt(h[ContentLengthKey]) else 0
  }

  /** The request at `pos`: the request line, the headers, then the body. */
  function ReadRequest(data: Bytes, pos: nat): (r: Parse)
    requires pos <= |data|
    ensures r.Parsed? ==> pos < r.next - |r.request.body| && r.next <= |data|
    ensures r.Parsed? ==> r.request.body == data[r.next - |r.request.body|..r.next]
    ensures r.Parsed? ==> |r.request.body| == BodyLength(r.request.verb, r.request.headers)
  {
    match LineEnd(data, pos)
    case None => Ended
    case Some(e) => AfterRequestLine(Fields(data[pos..e]), data, e)
  }

  /** Given the words of the request line, which ends at `e`: fewer than three is
      malformed; otherwise the first word is the method, the second the path, and the
      third and any further ones are ignored. */
  function AfterRequestLine(parts: seq<Bytes>, data: Bytes, e: nat): (r: Parse)
    requires e <= |data|
    ensures r.Parsed? ==> e < r.next - |r.request.body| && r.next <= |data|
    ensures r.Parsed? ==> r.request.body == data[r.next - |r.request.body|..r.next]
    ensures r.Parsed? ==> |r.request.body| == BodyLength(r.request.verb, r.request.headers)
  {
    if |parts| < 3 then Malformed
    else match ReadHeaders(data, e, map[])
      case None => Ended
      case Some((h, p)) => WithBody(parts[0], parts[1], h, data, p)
  }

  /** The body after the headers, which end at `p`: read only for method POST with a
      `content-length` header, and then exactly that many bytes; otherwise empty, and
      nothing more is consumed. */
  function WithBody(verb: Bytes, path: Bytes, h: Headers, data: Bytes, p: nat): (r: Parse)
    requires p <= |data|
    ensures r.Parsed? ==> r.request == Request(verb, path, h, r.request.body)
    ensures r.Parsed? ==> r.next == p + |r.request.body| <= |data|
    ensures r.Parsed? ==> r.request.body == data[p..r.next]
    ensures r.Parsed? ==> |r.request.body| == BodyLength(verb, h)
    ensures r == Malformed <==>
      verb == Post && ContentLengthKey in h && 0 <= ScanInt(h[ContentLengthKey]) && p + ScanInt(h[ContentLengthKey]) > |data|
    ensures r == Panic <==> verb == Post && ContentLengthKey in h && ScanInt(h[ContentLengthKey]) < 0
    ensures r != Ended
  {
    if verb == Post && ContentLengthKey in h then
      var n := ScanInt(h[ContentLengthKey]);
      if n < 0 then Panic
      else if p + n <= |data| then Parsed(Request(verb, path, h, data[p..p + n]), p + n)
      else Malformed
    else Parsed(Request(verb, path, h, []), p)
  }

  /** A POST whose Content-Length `n` the stream can supply: its body is the next `n`
      bytes, and the next request starts right after them. */
  lemma PostBody(path: Bytes, h: Headers, data: Bytes, p: nat, n: nat)
    requires p + n <= |data|
    requires ContentLengthKey in h && ScanInt(h[ContentLengthKey]) == n
    ensures WithBody(Post, path, h, data, p) == Parsed(Request(Post, path, h, data[p..p + n]), p + n)
  {
  }

  /** A POST whose Content-Length is more than the stream holds is malformed. */
  lemma ShortBody(path: Bytes, h: Headers, data: Bytes, p: nat)
    requires p <= |data|
    requires ContentLengthKey in h && 0 <= ScanInt(h[ContentLengthKey]) && p + ScanInt(h[ContentLengthKey]) > |data|
    ensures WithBody(Post, path, h, data, p) == Malformed
  {
  }

  /** Every request read from the stream has normal headers. */
  lemma ParsedHeadersNormal(data: Bytes, pos: nat)
    requires pos <= |data|
    ensures var r := ReadRequest(data, pos); r.Parsed? ==> NormalHeaders(r.request.headers)
  {
    match LineEnd(data, pos) {
      case None =>
      case Some(e) =>
        ReadHeadersNormal(data, e, map[]);
    }
  }

  // ---------------------------------------------------------------------------
  // Routes

  const EchoPrefix: Bytes := "/echo/"
  const FilesPrefix: Bytes := "/files/"

  datatype Route = Root | Echo(message: Bytes) | UserAgent | FileGet(name: Bytes) | FilePost(name: Bytes) | NoRoute

  /** The `switch` of `handleConnection`: the first of five cases that matches, else none. */
  function Dispatch(verb: Bytes, path: Bytes): (r: Route)
    ensures r == Root <==> verb == Get && path == "/"
    ensures r.Echo? <==> verb == Get && EchoPrefix <= path
    ensures r.Echo? ==> path == EchoPrefix + r.message
    ensures r == UserAgent <==> verb == Get && path == "/user-agent"
    ensures r.FileGet? <==> verb == Get && FilesPrefix <= path
    ensures r.FilePost? <==> verb == Post && FilesPrefix <= path
    ensures r.FileGet? || r.FilePost? ==> path == FilesPrefix + r.name
    ensures r == NoRoute <==>
      !(verb == Get && (path == "/" || EchoPrefix <= path || path == "/user-agent" || FilesPrefix <= path)) &&
      !(verb == Post && FilesPrefix <= path)
  {
    assert "/user-agent"[1] != EchoPrefix[1] && "/user-agent"[1] != FilesPrefix[1];
    assert EchoPrefix[1] != FilesPrefix[1];
    if verb == Get && path == "/" then Root
    else if verb == Get && EchoPrefix <= path then Echo(path[|EchoPrefix|..])
    else if verb == Get && path == "/user-agent" then UserAgent
    else if verb == Get && FilesPrefix <= path then FileGet(path[|FilesPrefix|..])
    else if verb == Post && FilesPrefix <= path then FilePost(path[|FilesPrefix|..])
    else NoRoute
  }

  // ---------------------------------------------------------------------------
  // Responses

  /** A status line's code and reason, header lines in the order written, and a body. */
  datatype Response = Response(status: Bytes, headers: seq<(Bytes, Bytes)>, body: Bytes)

  function HeaderLines(hs: seq<(Bytes, Bytes)>): Bytes {
    if hs == [] then [] else hs[0].0 + ": " + hs[0].1 + "\r\n" + HeaderLines(hs[1..])
  }

  /** The wire form: `HTTP/1.1 <status>` CRLF, each header as `Name: value` CRLF, an
      empty line, then the body with nothing after it. */
  function Serialize(r: Response): (wire: Bytes)
    ensures |wire| >= |r.body| && wire[|wire| - |r.body|..] == r.body
    ensures "HTTP/1.1 " <= wire
  {
    "HTTP/1.1 " + r.status + "\r\n" + HeaderLines(r.headers) + "\r\n" + r.body
  }

  /** Every Content-Length header the response carries gives the byte length of its body. */
  predicate WellFramed(r: Response) {
    forall i :: 0 <= i < |r.headers| && r.headers[i].0 == "Content-Length" ==>
      AllDigits(r.headers[i].1) && DigitsValue(r.headers[i].1) == |r.body|
  }

  const Ok: Response := Response("200 OK", [], [])
  const Created: Response := Response("201 Created", [], [])
  const BadRequest: Response := Response("400 Bad Request", [], [])
  const NotFound: Response := Response("404 Not Found", [], [])
  const ServerError: Response := Response("500 Internal Server Error", [], [])

  /** A 200 response carrying `body` with the given Content-Type and its length. */
  function Content(contentType: Bytes, body: Bytes): (r: Response)
    ensures WellFramed(r) && r.body == body
  {
    DecimalRoundTrip(|body|);
    Response("200 OK", [("Content-Type", contentType), ("Content-Length", Decimal(|body|))], body)
  }

  function Text(body: Bytes): Response {
    Content("text/plain", body)
  }

  function Octets(body: Bytes): Response {
    Content("application/octet-stream", body)
  }

  /** A response with no headers and no body is its status line and the empty line. */
  lemma StatusOnlyWire(r: Response)
    requires r.headers == [] && r.body == []
    ensures Serialize(r) == "HTTP/1.1 " + r.status + "\r\n\r\n"
  {
  }

  /** The header-less responses put on the wire the literals of `handleConnection`. */
  lemma OkWire()
    ensures Serialize(Ok) == "HTTP/1.1 200 OK\r\n\r\n"
  {
    StatusOnlyWire(Ok);
  }

  lemma CreatedWire()
    ensures Serialize(Created) == "HTTP/1.1 201 Created\r\n\r\n"
  {
    StatusOnlyWire(Created);
  }

  lemma BadRequestWire()
    ensures Serialize(BadRequest) == "HTTP/1.1 400 Bad Request\r\n\r\n"
  {
    StatusOnlyWire(BadRequest);
  }

  lemma NotFoundWire()
    ensures Serialize(NotFound) == "HTTP/1.1 404 Not Found\r\n\r\n"
  {
    StatusOnlyWire(NotFound);
  }

  lemma ServerErrorWire()
    ensures Serialize(ServerError) == "HTTP/1.1 500 Internal Server Error\r\n\r\n"
  {
    StatusOnlyWire(ServerError);
  }

  lemma TwoHeaderLines(a: (Bytes, Bytes), b: (Bytes, Bytes))
    ensures HeaderLines([a, b]) == a.0 + ": " + a.1 + "\r\n" + (b.0 + ": " + b.1 + "\r\n")
  {
    var hs := [a, b];
    assert hs[1..] == [b];
    var one: seq<(Bytes, Bytes)> := [b];
    assert one[1..] == [];
    var line: Bytes := b.0 + ": " + b.1 + "\r\n";
    assert HeaderLines(one) == line + HeaderLines([]);
    assert line + [] == line;
  }

  /** A 200 response with content is the format string of the echo, user-agent and
      file responses: the type, then the length in decimal, then the body verbatim. */
  lemma ContentWire(contentType: Bytes, body: Bytes)
    ensures Serialize(Content(contentType, body)) ==
      "HTTP/1.1 200 OK\r\nContent-Type: " + contentType + "\r\nContent-Length: " + Decimal(|body|) + "\r\n\r\n" + body
  {
    var d := Decimal(|body|);
    TwoHeaderLines(("Content-Type", contentType), ("Content-Length", d));
    LiteralsJoin(contentType, d, body);
  }

  lemma LiteralsJoin(t: Bytes, d: Bytes, body: Bytes)
    ensures "HTTP/1.1 " + "200 OK" + "\r\n" + ("Content-Type" + ": " + t + "\r\n" + ("Content-Length" + ": " + d + "\r\n")) + "\r\n" + body ==
      "HTTP/1.1 200 OK\r\nContent-Type: " + t + "\r\nContent-Length: " + d + "\r\n\r\n" + body
  {
    var p, q, r, s := "HTTP/1.1 " + "200 OK" + "\r\n", "Content-Type" + ": ", "\r\n", "Content-Length" + ": ";
    Regroup(p, q, t, r, s, d, body);
    assert p + q == "HTTP/1.1 200 OK\r\nContent-Type: ";
    assert r + s == "\r\nContent-Length: ";
    assert r + r == "\r\n\r\n";
  }

  lemma Regroup(p: Bytes, q: Bytes, t: Bytes, r: Bytes, s: Bytes, d: Bytes, body: Bytes)
    ensures p + (q + t + r + (s + d + r)) + r + body == (p + q) + t + (r + s) + d + (r + r) + body
  {
  }

  // ---------------------------------------------------------------------------
  // Handling one request

  /** What the loop does after writing the response: test the `connection` header, go
      on regardless (the `continue` after a missing file), or close (a failed write). */
  datatype After = CloseIfAsked | Continue | Close

  datatype Exchange = Exchange(response: Response, store: Store, after: After)

  /** The response to `req` and the store afterwards; `writeFails` says whether writing
      the file of a `POST /files/` request fails. */
  function Handle(req: Request, store: Store, writeFails: bool): (x: Exchange)
    ensures WellFramed(x.response)
    ensures x.store != store ==>
      req.verb == Post && FilesPrefix <= req.path && x.store == store[req.path[|FilesPrefix|..] := req.body]
    ensures x.after == Close <==> Dispatch(req.verb, req.path).FilePost? && writeFails
    ensures x.after == Continue <==>
      Dispatch(req.verb, req.path).FileGet? && Dispatch(req.verb, req.path).name !in store
  {
    match Dispatch(req.verb, req.path)
    case Root => Exchange(Ok, store, CloseIfAsked)
    case Echo(message) => Exchange(Text(message), store, CloseIfAsked)
    case UserAgent => Exchange(Text(Lookup(req.headers, UserAgentKey)), store, CloseIfAsked)
    case FileGet(name) =>
      if name in store then Exchange(Octets(store[name]), store, CloseIfAsked)
      else Exchange(NotFound, store, Continue)
    case FilePost(name) =>
      if writeFails then Exchange(ServerError, store, Close)
      else Exchange(Created, store[name := req.body], CloseIfAsked)
    case NoRoute => Exchange(NotFound, store, CloseIfAsked)
  }

  /** The request asks to close: its `connection` header, lower-cased, is `close`. */
  predicate AsksClose(h: Headers) {
    ToLower(Lookup(h, ConnectionKey)) == "close"
  }

  /** `Connection: close` closes in any letter case, and a request without a
      `Connection` header keeps the connection open. */
  lemma AsksCloseCases(h: Headers, value: Bytes)
    ensures ToLower(value) == "close" ==> AsksClose(h[ConnectionKey := value])
    ensures ConnectionKey !in h ==> !AsksClose(h)
  {
  }
}
