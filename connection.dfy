/** The per-connection loop of `handleConnection` (app/main.go): read a request, answer
    it, and either read the next request on the same stream or close. `Run` says what a
    whole connection does; `ServeConnection` is the loop itself, proved to do exactly that. */
module Connection {
  import opened Wrappers
  import opened Bytes
  import opened BufferedReader
  import opened Http

  /** Why the worker returned. */
  datatype CloseReason =
    | PeerClosed      // the stream ended inside a request line or the headers
    | BadRequestSent  // a 400 answered a malformed request
    | WriteFailed     // a 500 answered a failed file write
    | ClientClosed    // the request carried `Connection: close`
    | Shutdown        // the shutdown flag was seen at the top of the loop
    | Panicked        // a negative Content-Length made `make` panic

  /** Everything written to the connection, the file store afterwards, and why it closed. */
  datatype Session = Session(output: Bytes, store: Store, reason: CloseReason)

  function Prepend(wire: Bytes, s: Session): Session {
    Session(wire + s.output, s.store, s.reason)
  }

  /** Whether the shutdown flag reads as set at the top of iteration `k`, when it is
      first seen set at iteration `shutdownAt` (it is never cleared). */
  predicate ShutdownSeen(shutdownAt: Option<nat>, k: nat) {
    shutdownAt.Some? && shutdownAt.value <= k
  }

  /** What one iteration of the loop does once the shutdown flag reads as clear: the
      worker returns after writing `wire`, or it goes on reading at `next`. */
  datatype Step =
    | Stop(wire: Bytes, store: Store, reason: CloseReason)
    | Go(wire: Bytes, store: Store, next: nat)

  /** One iteration: read the request at `pos`, answer it, and return on a malformed
      request, a failed file write or `Connection: close`. A missing file goes on even
      when the client asked to close (the `continue` of the 404 branch). */
  function ServeRequest(data: Bytes, pos: nat, store: Store, writeFails: bool): (s: Step)
    requires pos <= |data|
    ensures s.Go? ==> pos < s.next <= |data|
  {
    match ReadRequest(data, pos)
    case Ended => Stop([], store, PeerClosed)
    case Malformed => Stop(Serialize(BadRequest), store, BadRequestSent)
    case Panic => Stop([], store, Panicked)
    case Parsed(req, next) =>
      var x := Handle(req, store, writeFails);
      var wire := Serialize(x.response);
      match x.after
      case Close => Stop(wire, x.store, WriteFailed)
      case Continue => Go(wire, x.store, next)
      case CloseIfAsked =>
        if AsksClose(req.headers) then Stop(wire, x.store, ClientClosed) else Go(wire, x.store, next)
  }

  /** The rest of the connection from cursor `pos` at loop iteration `k`. `shutdownAt`
      is where the worker first sees the shutdown flag set; `writeFails` holds the
      iterations whose file write fails. The worker stops for shutdown only once the flag
      is set, and for a failed write only if a write at this iteration or later fails. */
  function Run(data: Bytes, pos: nat, store: Store, k: nat, shutdownAt: Option<nat>, writeFails: set<nat>): (r: Session)
    requires pos <= |data|
    ensures r.reason == Shutdown ==> shutdownAt.Some?
    ensures r.reason == WriteFailed ==> exists j :: j in writeFails && k <= j
    decreases |data| - pos
  {
    if ShutdownSeen(shutdownAt, k) then Session([], store, Shutdown)
    else match ServeRequest(data, pos, store, k in writeFails)
      case Stop(wire, after, reason) => Session(wire, after, reason)
      case Go(wire, after, next) => Prepend(wire, Run(data, next, after, k + 1, shutdownAt, writeFails))
  }

  lemma PrependTwice(a: Bytes, b: Bytes, s: Session)
    ensures Prepend(a, Prepend(b, s)) == Prepend(a + b, s)
  {
    assert a + (b + s.output) == (a + b) + s.output;
  }

  /** Step 2 of `handleConnection`: the loop that reads header lines into the map
      `headers` in place until an empty line. `complete` is false when the stream ends
      first. */
  method ReadHeaderLines(reader: Reader) returns (headers: Headers, complete: bool)
    requires reader.Valid()
    modifies reader
    ensures reader.Valid()
    ensures complete <==> ReadHeaders(reader.data, old(reader.pos), map[]).Some?
    ensures complete ==> ReadHeaders(reader.data, old(reader.pos), map[]) == Some((headers, reader.pos))
  {
    ghost var data, start := reader.data, reader.pos;
    headers := map[];
    while true
      invariant reader.Valid() && reader.data == data && start <= reader.pos
      invariant ReadHeaders(data, reader.pos, headers) == ReadHeaders(data, start, map[])
      decreases |data| - reader.pos
    {
      var line, more := reader.ReadString();
      if !more {
        return headers, false;
      }
      line := TrimLineEnd(line);
      if line == [] {
        return headers, true;
      }
      match CutColon(line) {
        case Some((name, value)) =>
          headers := headers[HeaderName(name) := TrimSpace(value)];
        case None =>
      }
    }
  }

  /** Step 3 of `handleConnection`: the body, read only for a POST with a
      `content-length` header, and then exactly that many bytes. */
  method ReadBody(reader: Reader, verb: Bytes, path: Bytes, headers: Headers) returns (p: Parse)
    requires reader.Valid()
    modifies reader
    ensures reader.Valid()
    ensures p == WithBody(verb, path, headers, reader.data, old(reader.pos))
    ensures p.Parsed? ==> reader.pos == p.next
  {
    var body: Bytes := [];
    if verb == Post && ContentLengthKey in headers {
      var contentLength := ScanInt(headers[ContentLengthKey]);
      if contentLength < 0 {
        return Panic;
      }
      var full;
      body, full := reader.ReadFull(contentLength);
      if !full {
        return Malformed;
      }
    }
    return Parsed(Request(verb, path, headers, body), reader.pos);
  }

  /** Steps 1 to 3 of `handleConnection`: the request line, the header loop that fills
      `headers` in place, and the body. The result is `ReadRequest` at the cursor, and a
      parsed request leaves the cursor just after it. */
  method ReadOneRequest(reader: Reader) returns (p: Parse)
    requires reader.Valid()
    modifies reader
    ensures reader.Valid()
    ensures p == ReadRequest(reader.data, old(reader.pos))
    ensures p.Parsed? ==> reader.pos == p.next
  {
    ghost var data, start := reader.data, reader.pos;
    // Step 1: the request line
    var requestLine, ok := reader.ReadString();
    if !ok {
      return Ended;
    }
    ghost var lineEnd := reader.pos;
    var parts := Fields(requestLine);
    assert ReadRequest(data, start) == AfterRequestLine(parts, data, lineEnd);
    if |parts| < 3 {
      return Malformed;
    }
    var verb, path := parts[0], parts[1];
    // Step 2: the headers
    var headers, complete := ReadHeaderLines(reader);
    if !complete {
      return Ended;
    }
    assert ReadRequest(data, start) == WithBody(verb, path, headers, data, reader.pos);
    // Step 3: the body
    p := ReadBody(reader, verb, path, headers);
  }

  /** Step 4 of `handleConnection`, the route switch: the response to write, the store
      afterwards, and whether the loop closes, goes on, or goes on unless the client
      asked to close. It is the match of `Http.Handle` written as statements; the
      properties of the answers are proved about `Handle`, which this method equals. */
  method Respond(req: Request, store0: Store, writeFails: bool)
    returns (response: Response, store: Store, after: After)
    ensures Exchange(response, store, after) == Handle(req, store0, writeFails)
  {
    store := store0;
    after := CloseIfAsked;
    match Dispatch(req.verb, req.path) {
      case Root =>
        response := Ok;
      case Echo(message) =>
        response := Text(message);
      case UserAgent =>
        response := Text(Lookup(req.headers, UserAgentKey));
      case FileGet(name) =>
        if name in store {
          response := Octets(store[name]);
        } else {
          response, after := NotFound, Continue;
        }
      case FilePost(name) =>
        if writeFails {
          response, after := ServerError, Close;
        } else {
          store := store[name := req.body];
          response := Created;
        }
      case NoRoute =>
        response := NotFound;
    }
  }

  /** One iteration of the loop of `handleConnection` once the shutdown flag reads as
      clear: read a request and answer it, as `ServeRequest` says; when the loop goes
      on, the cursor is where the next request starts. */
  method ServeOne(reader: Reader, store0: Store, writeFails: bool) returns (s: Step)
    requires reader.Valid()
    modifies reader
    ensures reader.Valid()
    ensures s == ServeRequest(reader.data, old(reader.pos), store0, writeFails)
    ensures s.Go? ==> reader.pos == s.next
  {
    var p := ReadOneRequest(reader);
    match p {
      case Ended =>
        return Stop([], store0, PeerClosed);
      case Malformed =>
        return Stop(Serialize(BadRequest), store0, BadRequestSent);
      case Panic =>
        return Stop([], store0, Panicked);
      case Parsed(req, _) =>
    }
    var req := p.request;
    var response, store, after := Respond(req, store0, writeFails);
    var wire := Serialize(response);
    match after {
      case Close =>
        return Stop(wire, store, WriteFailed);
      case CloseIfAsked =>
        // close only if the request asked for it
        if AsksClose(req.headers) {
          return Stop(wire, store, ClientClosed);
        }
      case Continue =>
    }
    return Go(wire, store, reader.pos);
  }

  /** `handleConnection` on a connection whose client sends `data`: the output, the file
      store afterwards and the reason for closing are those `Run` gives. */
  method ServeConnection(data: Bytes, store0: Store, shutdownAt: Option<nat>, writeFails: set<nat>)
    returns (out: Bytes, store: Store, reason: CloseReason)
    ensures Session(out, store, reason) == Run(data, 0, store0, 0, shutdownAt, writeFails)
  {
    var reader := new Reader(data);
    out, store := [], store0;
    var k: nat := 0;
    while true
      invariant reader.Valid() && reader.data == data
      invariant Run(data, 0, store0, 0, shutdownAt, writeFails) ==
                Prepend(out, Run(data, reader.pos, store, k, shutdownAt, writeFails))
      decreases |data| - reader.pos
    {
      if ShutdownSeen(shutdownAt, k) {
        return out, store, Shutdown;
      }
      var s := ServeOne(reader, store, k in writeFails);
      match s {
        case Stop(wire, after, why) =>
          return out + wire, after, why;
        case Go(wire, after, _) =>
          PrependTwice(out, wire, Run(data, reader.pos, after, k + 1, shutdownAt, writeFails));
          out, store, k := out + wire, after, k + 1;
      }
    }
  }
}
