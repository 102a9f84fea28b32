/** The answers of `handleConnection` (app/main.go) and the lifetime of a connection:
    which bytes each kind of request puts on the wire, what becomes of the file store,
    and when the loop reads on or returns, one iteration at a time over
    `Connection.ServeRequest` and across a whole connection over `Connection.Run`. */
module Lifetime {
  import opened Wrappers
  import opened Bytes
  import opened BufferedReader
  import opened Http
  import opened Connection
  import opened Properties

  // ---------------------------------------------------------------------------
  // Routes and responses

  /** A request the route table does not match is answered 404 and changes nothing. */
  lemma UnroutedIsNotFound(req: Request, store: Store, writeFails: bool)
    requires Dispatch(req.verb, req.path) == NoRoute
    ensures var x := Handle(req, store, writeFails);
      Serialize(x.response) == "HTTP/1.1 404 Not Found\r\n\r\n" && x.store == store && x.after == CloseIfAsked
  {
    NotFoundWire();
  }

  /** Only GET and POST are routed: any other method is answered 404. */
  lemma OtherMethodNotFound(req: Request, store: Store, writeFails: bool)
    requires req.verb != Get && req.verb != Post
    ensures Serialize(Handle(req, store, writeFails).response) == "HTTP/1.1 404 Not Found\r\n\r\n"
  {
    UnroutedIsNotFound(req, store, writeFails);
  }

  /** `/echo` without its trailing slash is not the echo route. */
  lemma EchoWithoutSlashNotFound(h: Headers, body: Bytes, store: Store, writeFails: bool)
    ensures Serialize(Handle(Request(Get, "/echo", h, body), store, writeFails).response) ==
      "HTTP/1.1 404 Not Found\r\n\r\n"
  {
    assert !(EchoPrefix <= "/echo") && !(FilesPrefix <= "/echo");
    UnroutedIsNotFound(Request(Get, "/echo", h, body), store, writeFails);
  }

  /** The root answers 200 with no headers and no body. */
  lemma RootAnswer(h: Headers, body: Bytes, store: Store, writeFails: bool)
    ensures var x := Handle(Request(Get, "/", h, body), store, writeFails);
      Serialize(x.response) == "HTTP/1.1 200 OK\r\n\r\n" && x.store == store && x.after == CloseIfAsked
  {
    OkWire();
  }

  /** A GET of `/echo/` and a message takes the echo route with that message. */
  lemma EchoRoute(message: Bytes)
    ensures Dispatch(Get, EchoPrefix + message) == Echo(message)
  {
    var path := EchoPrefix + message;
    assert EchoPrefix <= path && path[|EchoPrefix|..] == message;
  }

  /** `/files/` and a name takes the file routes with that name, for GET and for POST. */
  lemma FileRoutes(name: Bytes)
    ensures Dispatch(Get, FilesPrefix + name) == FileGet(name)
    ensures Dispatch(Post, FilesPrefix + name) == FilePost(name)
  {
    var path := FilesPrefix + name;
    assert FilesPrefix <= path && path[|FilesPrefix|..] == name;
    assert path[1] == 'f' != EchoPrefix[1];
  }

  /** The echo route answers with the path after `/echo/`, verbatim, as plain text and
      with its length as the Content-Length. */
  lemma EchoAnswer(message: Bytes, h: Headers, body: Bytes, store: Store, writeFails: bool)
    ensures var x := Handle(Request(Get, EchoPrefix + message, h, body), store, writeFails);
      Serialize(x.response) == "HTTP/1.1 200 OK\r\nContent-Type: " + "text/plain" + "\r\nContent-Length: " +
        Decimal(|message|) + "\r\n\r\n" + message &&
      x.store == store && x.after == CloseIfAsked
  {
    EchoRoute(message);
    ContentWire("text/plain", message);
  }

  /** The user-agent route answers with the `user-agent` header's value as plain text. */
  lemma UserAgentAnswer(h: Headers, body: Bytes, store: Store, writeFails: bool)
    ensures var x := Handle(Request(Get, "/user-agent", h, body), store, writeFails);
      var agent := Lookup(h, UserAgentKey);
      Serialize(x.response) == "HTTP/1.1 200 OK\r\nContent-Type: " + "text/plain" + "\r\nContent-Length: " +
        Decimal(|agent|) + "\r\n\r\n" + agent &&
      x.store == store && x.after == CloseIfAsked
  {
    assert Dispatch(Get, "/user-agent") == UserAgent;
    ContentWire("text/plain", Lookup(h, UserAgentKey));
  }

  /** Without a `user-agent` header the body is empty and its length is 0. */
  lemma NoUserAgent(h: Headers, body: Bytes, store: Store, writeFails: bool)
    requires UserAgentKey !in h
    ensures Serialize(Handle(Request(Get, "/user-agent", h, body), store, writeFails).response) ==
      "HTTP/1.1 200 OK\r\nContent-Type: " + "text/plain" + "\r\nContent-Length: " + "0" + "\r\n\r\n"
  {
    UserAgentAnswer(h, body, store, writeFails);
    assert Decimal(0) == "0";
  }

  // ---------------------------------------------------------------------------
  // The file store

  /** A POST that writes its file stores the body under the name, replacing what was
      there, and answers 201. */
  lemma PostStores(name: Bytes, h: Headers, body: Bytes, store: Store)
    ensures var x := Handle(Request(Post, FilesPrefix + name, h, body), store, false);
      Serialize(x.response) == "HTTP/1.1 201 Created\r\n\r\n" &&
      x.store == store[name := body] && x.after == CloseIfAsked
  {
    FileRoutes(name);
    CreatedWire();
  }

  /** A POST whose write fails answers 500, stores nothing, and closes. */
  lemma WriteFailureAnswer(name: Bytes, h: Headers, body: Bytes, store: Store)
    ensures var x := Handle(Request(Post, FilesPrefix + name, h, body), store, true);
      Serialize(x.response) == "HTTP/1.1 500 Internal Server Error\r\n\r\n" &&
      x.store == store && x.after == Close
  {
    FileRoutes(name);
    ServerErrorWire();
  }

  /** A GET of a stored file answers 200 with its contents as octets and their length. */
  lemma GetStored(name: Bytes, h: Headers, body: Bytes, store: Store, writeFails: bool)
    requires name in store
    ensures var x := Handle(Request(Get, FilesPrefix + name, h, body), store, writeFails);
      Serialize(x.response) == "HTTP/1.1 200 OK\r\nContent-Type: " + "application/octet-stream" + "\r\nContent-Length: " +
        Decimal(|store[name]|) + "\r\n\r\n" + store[name] &&
      x.store == store && x.after == CloseIfAsked
  {
    FileRoutes(name);
    ContentWire("application/octet-stream", store[name]);
  }

  /** A GET of an absent file answers 404, leaves the store as it was, and goes on. */
  lemma GetMissing(name: Bytes, h: Headers, body: Bytes, store: Store, writeFails: bool)
    requires name !in store
    ensures var x := Handle(Request(Get, FilesPrefix + name, h, body), store, writeFails);
      Serialize(x.response) == "HTTP/1.1 404 Not Found\r\n\r\n" && x.store == store && x.after == Continue
  {
    FileRoutes(name);
    NotFoundWire();
  }

  /** What a POST stores, a later GET of the same name returns, whatever the store held. */
  lemma PostThenGet(name: Bytes, h: Headers, body: Bytes, h2: Headers, body2: Bytes, store: Store, writeFails: bool)
    ensures var stored := Handle(Request(Post, FilesPrefix + name, h, body), store, false).store;
      Handle(Request(Get, FilesPrefix + name, h2, body2), stored, writeFails).response == Octets(body)
  {
    PostStores(name, h, body, store);
    FileRoutes(name);
  }

  // ---------------------------------------------------------------------------
  // One iteration of the loop

  /** With no line feed left, the request line never completes: the worker returns
      without writing anything. */
  lemma EndOfStream(data: Bytes, pos: nat, store: Store, writeFails: bool)
    requires pos <= |data| && '\n' !in data[pos..]
    ensures ServeRequest(data, pos, store, writeFails) == Stop([], store, PeerClosed)
  {
    LineEndAtFirstLf(data, pos);
  }

  /** A complete request line and complete header lines, after which no line feed is
      left: the empty line that ends the header block never comes, and the worker returns
      without writing anything. With no header lines this is a stream that ends right
      after the request line. */
  lemma EndOfStreamInHeaders(data: Bytes, pos: nat, q: nat, verb: Bytes, path: Bytes, version: Bytes,
                             lines: seq<Bytes>, store: Store, writeFails: bool)
    requires Word(verb) && Word(path) && Word(version) && PlainLines(lines)
    requires At(data, pos, RequestLineText(verb, path, version) + HeaderLinesText(lines))
    requires q == pos + |RequestLineText(verb, path, version)| + |HeaderLinesText(lines)|
    requires q <= |data| && '\n' !in data[q..]
    ensures ServeRequest(data, pos, store, writeFails) == Stop([], store, PeerClosed)
  {
    var line, block := RequestLineText(verb, path, version), HeaderLinesText(lines);
    var e := pos + |line|;
    AtSplit(data, pos, line, block);
    ReadRequestLineText(data, pos, e, verb, path, version);
    ReadHeadersEnds(data, e, q, lines, map[]);
    assert ReadRequest(data, pos) == Ended;
  }

  /** A malformed request is answered with exactly a 400 status line, and the worker
      returns. */
  lemma MalformedAnswers400(data: Bytes, pos: nat, store: Store, writeFails: bool)
    requires pos <= |data| && ReadRequest(data, pos) == Malformed
    ensures ServeRequest(data, pos, store, writeFails) ==
      Stop("HTTP/1.1 400 Bad Request\r\n\r\n", store, BadRequestSent)
  {
    BadRequestWire();
  }

  /** A request line of fewer than three words is answered with exactly a 400 status
      line, and the worker returns. */
  lemma ShortLineAnswers400(data: Bytes, pos: nat, e: nat, store: Store, writeFails: bool)
    requires pos <= |data| && LineEnd(data, pos) == Some(e) && |Fields(data[pos..e])| < 3
    ensures ServeRequest(data, pos, store, writeFails) ==
      Stop("HTTP/1.1 400 Bad Request\r\n\r\n", store, BadRequestSent)
  {
    ShortRequestLine(data, pos, e);
    MalformedAnswers400(data, pos, store, writeFails);
  }

  /** A POST whose Content-Length is more than what is left of the stream is answered
      400, and the worker returns. */
  lemma ShortBodyAnswers400(data: Bytes, pos: nat, p: nat, path: Bytes, version: Bytes, lines: seq<Bytes>,
                            h: Headers, store: Store, writeFails: bool)
    requires Word(path) && Word(version) && PlainLines(lines)
    requires At(data, pos, HeadText(Post, path, version, lines))
    requires p == pos + |HeadText(Post, path, version, lines)|
    requires h == FoldHeaders(map[], lines)
    requires ContentLengthKey in h && 0 <= ScanInt(h[ContentLengthKey]) && p + ScanInt(h[ContentLengthKey]) > |data|
    ensures ServeRequest(data, pos, store, writeFails) ==
      Stop("HTTP/1.1 400 Bad Request\r\n\r\n", store, BadRequestSent)
  {
    assert Word(Post);
    ReadRequestText(data, pos, p, Post, path, version, lines);
    ShortBody(path, h, data, p);
    MalformedAnswers400(data, pos, store, writeFails);
  }

  /** A POST with a Content-Length the stream can supply gets exactly that many bytes as
      its body, and the next request starts right after them. */
  lemma PostBodyExact(data: Bytes, pos: nat, p: nat, path: Bytes, version: Bytes, lines: seq<Bytes>,
                      h: Headers, n: nat)
    requires Word(path) && Word(version) && PlainLines(lines)
    requires At(data, pos, HeadText(Post, path, version, lines))
    requires p == pos + |HeadText(Post, path, version, lines)|
    requires h == FoldHeaders(map[], lines)
    requires ContentLengthKey in h && ScanInt(h[ContentLengthKey]) == n && p + n <= |data|
    ensures ReadRequest(data, pos) == Parsed(Request(Post, path, h, data[p..p + n]), p + n)
  {
    assert Word(Post);
    ReadRequestText(data, pos, p, Post, path, version, lines);
    PostBody(path, h, data, p, n);
  }

  /** A GET has no body even when it declares one: what it declares stays in the stream,
      where the next request is read from. */
  lemma DeclaredBodyOfGetStays(data: Bytes, pos: nat, p: nat, path: Bytes, version: Bytes, lines: seq<Bytes>)
    requires Word(path) && Word(version) && PlainLines(lines)
    requires At(data, pos, HeadText(Get, path, version, lines))
    requires p == pos + |HeadText(Get, path, version, lines)|
    ensures p <= |data|
    ensures ReadRequest(data, pos) == Parsed(Request(Get, path, FoldHeaders(map[], lines), []), p)
  {
    assert Word(Get);
    ReadRequestText(data, pos, p, Get, path, version, lines);
  }

  /** After an answer that neither closes nor goes on regardless, the worker returns
      exactly when the request asked to close. */
  lemma ClosesOnlyIfAsked(data: Bytes, pos: nat, store: Store, writeFails: bool, req: Request, next: nat)
    requires pos <= |data| && ReadRequest(data, pos) == Parsed(req, next)
    requires Handle(req, store, writeFails).after == CloseIfAsked
    ensures var s := ServeRequest(data, pos, store, writeFails);
      var x := Handle(req, store, writeFails);
      s.wire == Serialize(x.response) && s.store == x.store &&
      (s.Stop? <==> AsksClose(req.headers)) &&
      (s.Stop? ==> s.reason == ClientClosed) &&
      (s.Go? ==> s.next == next)
  {
  }

  /** A GET of an absent file goes on to the next request even when it asked to close. */
  lemma MissIgnoresClose(data: Bytes, pos: nat, store: Store, writeFails: bool, req: Request, next: nat)
    requires pos <= |data| && ReadRequest(data, pos) == Parsed(req, next)
    requires Dispatch(req.verb, req.path).FileGet? && Dispatch(req.verb, req.path).name !in store
    ensures ServeRequest(data, pos, store, writeFails) == Go("HTTP/1.1 404 Not Found\r\n\r\n", store, next)
  {
    NotFoundWire();
  }

  /** A failed file write is answered 500 and the worker returns. */
  lemma WriteFailureStops(data: Bytes, pos: nat, store: Store, req: Request, next: nat)
    requires pos <= |data| && ReadRequest(data, pos) == Parsed(req, next)
    requires Dispatch(req.verb, req.path).FilePost?
    ensures ServeRequest(data, pos, store, true) ==
      Stop("HTTP/1.1 500 Internal Server Error\r\n\r\n", store, WriteFailed)
  {
    ServerErrorWire();
  }

  /** One iteration adds files or replaces their contents, and never removes one. */
  lemma StepKeepsFiles(data: Bytes, pos: nat, store: Store, writeFails: bool)
    requires pos <= |data|
    ensures store.Keys <= ServeRequest(data, pos, store, writeFails).store.Keys
  {
  }

  // ---------------------------------------------------------------------------
  // A whole connection

  /** Once the worker sees the shutdown flag it reads nothing more and writes nothing. */
  lemma ShutdownReadsNothing(data: Bytes, pos: nat, store: Store, k: nat, shutdownAt: Option<nat>, writeFails: set<nat>)
    requires pos <= |data| && ShutdownSeen(shutdownAt, k)
    ensures Run(data, pos, store, k, shutdownAt, writeFails) == Session([], store, Shutdown)
  {
  }

  /** A request that asks to close gets its one answer, and whatever the client sent
      after it is never read. */
  lemma CloseEndsConnection(data: Bytes, pos: nat, store: Store, k: nat, shutdownAt: Option<nat>,
                            writeFails: set<nat>, req: Request, next: nat)
    requires pos <= |data| && !ShutdownSeen(shutdownAt, k)
    requires ReadRequest(data, pos) == Parsed(req, next) && AsksClose(req.headers)
    requires Handle(req, store, k in writeFails).after == CloseIfAsked
    ensures var x := Handle(req, store, k in writeFails);
      Run(data, pos, store, k, shutdownAt, writeFails) == Session(Serialize(x.response), x.store, ClientClosed)
  {
    ClosesOnlyIfAsked(data, pos, store, k in writeFails, req, next);
  }

  /** A request that does not ask to close gets its answer, and the next request is read
      from the same stream right after it, with the store as this one left it. */
  lemma KeepAlive(data: Bytes, pos: nat, store: Store, k: nat, shutdownAt: Option<nat>,
                  writeFails: set<nat>, req: Request, next: nat)
    requires pos <= |data| && !ShutdownSeen(shutdownAt, k)
    requires ReadRequest(data, pos) == Parsed(req, next) && !AsksClose(req.headers)
    requires Handle(req, store, k in writeFails).after == CloseIfAsked
    ensures next <= |data|
    ensures var x := Handle(req, store, k in writeFails);
      Run(data, pos, store, k, shutdownAt, writeFails) ==
      Prepend(Serialize(x.response), Run(data, next, x.store, k + 1, shutdownAt, writeFails))
  {
    ClosesOnlyIfAsked(data, pos, store, k in writeFails, req, next);
  }

  /** Over a whole connection, files are added or replaced and never removed. */
  lemma {:induction false} RunKeepsFiles(data: Bytes, pos: nat, store: Store, k: nat, shutdownAt: Option<nat>,
                                         writeFails: set<nat>)
    requires pos <= |data|
    ensures store.Keys <= Run(data, pos, store, k, shutdownAt, writeFails).store.Keys
    decreases |data| - pos
  {
    if !ShutdownSeen(shutdownAt, k) {
      StepKeepsFiles(data, pos, store, k in writeFails);
      match ServeRequest(data, pos, store, k in writeFails)
      case Stop(_, _, _) =>
      case Go(_, after, next) =>
        RunKeepsFiles(data, next, after, k + 1, shutdownAt, writeFails);
    }
  }
}
