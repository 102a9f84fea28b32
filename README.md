# go-http-server: the connection engine, modelled in Dafny

This project models the core of a small HTTP/1.1 server written in Go (app/main.go), centred on its connection engine `handleConnection`.

`handleConnection` reads requests one after another from a client's byte stream, in four steps:
- it reads the request line and splits it into words;
- it reads header lines into a map until an empty line;
- for a `POST` with a `content-length`, it reads exactly that many body bytes;
- it picks the first of five routes that matches, writes a byte-exact response, and then closes the connection or reads the next request.

Around it sit two pieces of process-wide state:
- the user counters, which the accept loop raises and each worker's deferred exit lowers;
- the shutdown flag, which only the console command `quit` sets.

The model has these parts:

- `Bytes` (bytes.dfy) models the Go library calls the engine uses on request text:
  - `strings.Fields`, `strings.TrimSpace` and `strings.TrimRight(line, "\r\n")`;
  - `strings.ToLower` and `strings.SplitN(line, ":", 2)`;
  - `%d` as `fmt.Fprintf` prints it and as `fmt.Sscanf` scans it into a 64-bit `int`.
- `BufferedReader` (reader.dfy) is the `bufio.Reader` as a class.
  - It holds the immutable stream and a cursor.
  - `ReadString('\n')` and `io.ReadFull` are methods that move the cursor.
- `Http` (http.dfy) states what the engine computes as pure functions of the stream and the file store:
  - the request grammar, as `ReadRequest`;
  - the route table, as `Dispatch`;
  - the responses and their wire form, as `Serialize`;
  - one request's handling, as `Handle`.
- `Connection` (connection.dfy) is the worker loop itself.
  - These are imperative methods:
    - a cursor loop with a header map filled in place (`ReadHeaderLines`);
    - the body read (`ReadBody`);
    - the route switch (`Respond`);
    - one iteration (`ServeOne`);
    - the whole loop (`ServeConnection`).
  - Each method is proved equal to its specification: `ServeRequest` for one iteration and `Run` for a whole connection.
  - `Run` returns a `Session`: the bytes written, the store afterwards, and why the worker returned.
- `Properties` (properties.dfy) reads requests as a client writes them: three words and CRLF, header lines each with CRLF, then an empty line. It proves that:
  - the parser returns exactly those words;
  - the headers are the left fold of the header lines;
  - the body starts right after the empty line.
- `Lifetime` (lifetime.dfy) states the answers and the connection lifetime over `ServeRequest` and `Run`:
  - the exact bytes of each response;
  - what happens to the file store;
  - when the loop reads on and when it returns.
- `Server` (server.dfy) holds the shared state.
  - A `ServerState` class holds the counters and the flag. Its methods are the accept step, the deferred decrement and the console commands.
  - `HandleConnection` is the worker with its deferred exit.

Outside effects become parameters:
- The directory is a map from file name to contents.
- Whether the file write of the `k`-th request fails is the set `writeFails`.
- The iteration at which a worker first sees the shutdown flag set is `shutdownAt`.

Four behaviours of the code that are easy to misread:
- **Missing file.** A `GET /files/` of a missing file answers 404 and then `continue`s (app/main.go:160-161). It therefore skips the `Connection: close` test: such a request never closes the connection, even when it asks to (`Lifetime.MissIgnoresClose`).
- **Shutdown.** A worker tests the shutdown flag only at the top of its loop (app/main.go:90-92). It does not wait there: a keep-alive worker blocked reading its next request line (app/main.go:94) never reaches the test. Nothing waits for the workers either: `main` leaves its accept loop once it sees the flag (app/main.go:46-50 and 58-60) and the process ends, cutting off every worker wherever it is.
- **Content-Length values.** A Content-Length is not required to be a non-negative number:
  - a value `%d` cannot scan leaves the length 0, so the body is empty;
  - a negative value makes `make` panic, which the model records as the close reason `Panicked` with no output.
- **Header names.** A header name is trimmed, then lower-cased. For ASCII text this is the same as lower-casing first.

## Model

| member | source | states |
|---|---|---|
| Bytes.TrimLeftSpace | app/main.go:123 | never longer than its input |
| Bytes.TrimLeftSpaceDrops | app/main.go:123 | the result is a suffix of the input, everything dropped is white space, and it does not start with white space |
| Bytes.TrimRightSpace | app/main.go:123 | never longer than its input |
| Bytes.TrimRightSpaceDrops | app/main.go:123 | the result is a prefix of the input, everything dropped is white space, and it does not end with white space |
| Bytes.TrimSpace | app/main.go:123 | never longer than its input |
| Bytes.TrimSpaceIsSlice | app/main.go:123 | the trimmed text is a slice of the input with only white space cut off at either end, and it has no white space left at either end |
| Bytes.TrimSpaceTrimmed | app/main.go:123 | trimmed text has no white space at either end |
| Bytes.TrimLeftOfBlanks | app/main.go:191 | blanks before a text that starts with a non-blank are removed, and nothing else |
| Bytes.TrimRightOfBlanks | app/main.go:191 | blanks after a text that ends with a non-blank are removed, and nothing else |
| Bytes.TrimSpaceAround | app/main.go:191 | trimming white space around a word gives the word exactly |
| Bytes.TrimSpaceOfTrimmed | app/main.go:123 | text with no white space at its ends is unchanged |
| Bytes.TrimLineEnd | app/main.go:117 | the result is a prefix of the line, every byte removed is CR or LF, and the result does not end in CR or LF (the longest such cut) |
| Bytes.TrimLineEndOfCrLf | app/main.go:117 | a line sent with CRLF comes back as the line |
| Bytes.ToLower | app/main.go:182 | lower-casing keeps the length |
| Bytes.ToLowerBytes | app/main.go:123 | each byte is lower-cased in place and no upper-case letter is left |
| Bytes.ToLowerAppend | app/main.go:191 | lower-casing distributes over concatenation |
| Bytes.ToLowerIdempotent | app/main.go:182 | lower-casing twice is lower-casing once |
| Bytes.ToLowerTrimmed | app/main.go:123 | lower-casing text with no white space at either end leaves none there |
| Bytes.ToLowerOfLower | app/main.go:191 | text without upper-case letters is unchanged |
| Bytes.TokenLength | app/main.go:100 | the run it measures has no white space and is followed by white space or the end |
| Bytes.Fields | app/main.go:100 | every field is non-empty and holds no white space |
| Bytes.FieldsKeepEveryNonSpace | app/main.go:100 | the fields, joined, are exactly the non-space bytes of the line, in order |
| Bytes.RemoveSpaceAppend | app/main.go:100 | (helper) dropping white space distributes over concatenation |
| Bytes.RemoveSpaceOfNoSpace | app/main.go:100 | text without white space keeps every byte |
| Bytes.FieldsSkipSpace | app/main.go:100 | a leading blank adds no field |
| Bytes.FieldsToken | app/main.go:100 | a non-space run followed by a blank or the end is one field |
| Bytes.CutColon | app/main.go:121-122 | no split exactly when there is no colon; otherwise name, colon and value rebuild the line and the name has no colon |
| Bytes.CutColonAtFirst | app/main.go:121-123 | the split is at the first colon, so the value keeps later colons |
| Bytes.Decimal | app/main.go:149 | `%d` of a length is a non-empty digit string without leading zeros |
| Bytes.DecimalRoundTrip | app/main.go:149 | the printed digits denote the length printed |
| Bytes.DigitRun | app/main.go:132 | the run has only digits and is followed by a non-digit or the end |
| Bytes.ScanInt | app/main.go:131-132 | the scanned value fits a 64-bit `int`, and it is negative only for text that starts with `-` |
| Bytes.ScanIntOfDecimal | app/main.go:132 | a length printed with `%d` scans back to itself |
| BufferedReader.LineEnd | app/main.go:94 | a line, when there is one, ends after the cursor and within the stream |
| BufferedReader.LineEndAtFirstLf | app/main.go:94 | the line ends just after the first LF from the cursor; there is none exactly when no LF is left |
| BufferedReader.LineEndOf | app/main.go:94 | a line of LF-free text and an LF ends right after that LF |
| BufferedReader.Reader.constructor | app/main.go:87 | a new reader is at the start of the stream |
| BufferedReader.Reader.ReadString | app/main.go:94-98 | success exactly when an LF is left, and the line read includes it; at end of stream the cursor is at the end |
| BufferedReader.Reader.ReadFull | app/main.go:134-137 | success exactly when `n` bytes are left; the bytes are the next `n` and the cursor moves past them |
| Http.Lookup | app/main.go:152 | a Go map read: a non-empty value only for a key in the map, and a value read from a normal header map is trimmed; `Lifetime.NoUserAgent` shows the empty string of a missing key reaching the wire |
| Http.HeaderName | app/main.go:123 | the key a header is stored under has no upper-case letter and no white space at either end |
| Http.AddHeader | app/main.go:121-123 | adding a header line never removes a key; that a line without a colon changes nothing is `Properties.HeaderWithoutColon` |
| Http.AddHeaderNormal | app/main.go:121-123 | adding a header line keeps the map normal (`NormalHeaders`: every key is lower-case and trimmed, and every value is trimmed) |
| Http.ReadHeadersNormal | app/main.go:112-125 | the header loop keeps its map normal to the end of the block |
| Http.ParsedHeadersNormal | app/main.go:93-125 | every request read from the stream has normal headers |
| Http.ReadHeaders | app/main.go:112-125 | a complete header block ends after its start and within the stream |
| Http.ReadHeadersGoesOn | app/main.go:117-124 | a line that is non-empty once trimmed is added and the loop reads the next line |
| Http.ReadRequestLine | app/main.go:94-106 | a three-word request line hands the rest of the stream to the header loop |
| Http.ExtraWordsIgnored | app/main.go:100-106 | only the first two words matter: the version and any extra words are ignored |
| Http.BodyLength | app/main.go:128-133 | a body length other than 0 only for a POST with a `content-length` header, and always within 64 bits |
| Http.AfterHeaders | app/main.go:110-128 | a complete header block hands the rest of the stream to the body read |
| Http.ReadRequest | app/main.go:93-140 | a parsed request lies after the cursor, and its body is the bytes just before the next request, as long as `BodyLength` says |
| Http.AfterRequestLine | app/main.go:100-128 | the same for what follows the request line |
| Http.WithBody | app/main.go:127-140 | a body only for POST with `content-length`, exactly that many bytes; malformed exactly when fewer remain; panic exactly for a negative length; otherwise an empty body at the same position |
| Http.PostBody | app/main.go:129-134 | a POST whose length the stream can supply gets the next `n` bytes and the next request starts after them |
| Http.ShortBody | app/main.go:134-137 | a POST whose length exceeds what is left is malformed |
| Http.Dispatch | app/main.go:143-179 | each of the five routes is taken exactly when its test holds and no earlier one does; echo and file routes carry the path after their prefix; anything else is no route |
| Http.Serialize | app/main.go:145-178 | the wire form starts with `HTTP/1.1 ` and ends with the body, with nothing after it |
| Http.Content | app/main.go:147-165 | a content response is well framed: its Content-Length is the byte length of its body |
| Http.StatusOnlyWire | app/main.go:145 | a response without headers or body is its status line and an empty line |
| Http.OkWire | app/main.go:145 | the 200 without body is `HTTP/1.1 200 OK` CRLF CRLF |
| Http.CreatedWire | app/main.go:175 | the 201 is `HTTP/1.1 201 Created` CRLF CRLF |
| Http.BadRequestWire | app/main.go:102 | the 400 is `HTTP/1.1 400 Bad Request` CRLF CRLF |
| Http.NotFoundWire | app/main.go:160 | the 404 is `HTTP/1.1 404 Not Found` CRLF CRLF |
| Http.ServerErrorWire | app/main.go:172 | the 500 is `HTTP/1.1 500 Internal Server Error` CRLF CRLF |
| Http.TwoHeaderLines | app/main.go:149 | (helper) two headers are written one after the other, each as name, colon, value, CRLF |
| Http.ContentWire | app/main.go:149 | a 200 with content is the format string of the echo, user-agent and file answers: type, decimal length, empty line, body |
| Http.LiteralsJoin | app/main.go:149 | (helper) the pieces of a content response join into that format string |
| Http.Handle | app/main.go:143-179 | every answer is well framed; only a successful POST to `/files/` changes the store, by storing the body under the name; close exactly on a failed write; go on regardless exactly on a missing file |
| Http.AsksClose | app/main.go:182 | (predicate) the `connection` header lower-cases to `close` |
| Http.AsksCloseCases | app/main.go:182 | `close` in any letter case closes, and a request without a `connection` header stays open |
| Connection.ServeRequest | app/main.go:93-184 | an iteration that goes on has consumed at least one byte, and the next one starts within the stream |
| Connection.Run | app/main.go:89-185 | a whole connection: stops for shutdown only once the flag is set, and for a failed write only if some later write fails; `Connection.ServeConnection` is proved equal to it and the `Lifetime` lemmas state its answers |
| Connection.ReadHeaderLines | app/main.go:110-125 | the loop filling the header map in place completes exactly when `ReadHeaders` finds the empty line, with the same map and cursor |
| Connection.ReadBody | app/main.go:127-140 | the body read is `WithBody` at the cursor |
| Connection.ReadOneRequest | app/main.go:93-140 | reading a request is `ReadRequest` at the cursor, and a parsed request leaves the cursor right after it |
| Connection.Respond | app/main.go:142-179 | the route switch as statements gives exactly what `Handle` gives, so the properties proved of `Handle` hold of it |
| Connection.ServeOne | app/main.go:93-184 | one iteration is `ServeRequest`, and one that goes on leaves the cursor at the next request |
| Connection.ServeConnection | app/main.go:87-185 | output, store and close reason are those of `Run` over the whole stream |
| Properties.AtIsSlice | app/main.go:94 | (helper) text found byte by byte at a position is the slice there |
| Properties.AtSplit | app/main.go:94 | (helper) text found in two parts is found part by part |
| Properties.HeaderEnd | app/main.go:117-119 | a CRLF line is the empty line that ends the headers |
| Properties.CrLfLineEnd | app/main.go:113 | a line sent with CRLF ends right after the LF |
| Properties.HeaderLine | app/main.go:113-117 | a plain header line with CRLF is read as one line and trimmed back to itself |
| Properties.HeaderBlockStep | app/main.go:113-117 | the first line of a header block is read, then the block of the remaining lines |
| Properties.ReadHeaderText | app/main.go:112-125 | the header loop over a sent header block reads exactly that block and builds the fold of its lines |
| Properties.ReadHeadersEnds | app/main.go:112-116 | complete header lines followed by no line feed: the header loop reads them all and then fails for want of the empty line |
| Properties.HeaderAtFirstColon | app/main.go:121-123 | a header is stored under its trimmed, lower-cased name with its trimmed value, which keeps later colons |
| Properties.HeaderWithoutColon | app/main.go:121-122 | a line without a colon adds nothing |
| Properties.FoldHeadersAppend | app/main.go:112-125 | the last line is applied last |
| Properties.LaterHeaderWins | app/main.go:123 | of repeated header names the last line decides the value |
| Properties.FieldsWordSpace | app/main.go:100 | a word followed by a blank is one field |
| Properties.FieldsOfRequestLine | app/main.go:100 | a sent request line splits into exactly its three words |
| Properties.NoLineFeedInRequestLine | app/main.go:94 | a sent request line has its only LF at the end |
| Properties.ShortRequestLine | app/main.go:100-104 | fewer than three words is malformed, whatever follows |
| Properties.RequestLineStep | app/main.go:94-100 | a sent request line is read as one line and split into its three words |
| Properties.ReadRequestLineText | app/main.go:94-106 | the first word is the method and the second the path; what follows goes to the header loop |
| Properties.AfterHeaderText | app/main.go:110-128 | after a sent header block the headers are the fold of its lines and the body is read from its end |
| Properties.ReadRequestText | app/main.go:93-128 | a sent request is read as its method, path and folded headers, with the body read from right after the empty line |
| Lifetime.UnroutedIsNotFound | app/main.go:177-178 | an unrouted request is answered exactly 404 and changes nothing |
| Lifetime.OtherMethodNotFound | app/main.go:143-178 | any method but GET and POST is answered 404 |
| Lifetime.EchoWithoutSlashNotFound | app/main.go:147 | `/echo` without its slash is answered 404 |
| Lifetime.RootAnswer | app/main.go:144-145 | `GET /` is answered exactly `HTTP/1.1 200 OK` CRLF CRLF |
| Lifetime.EchoRoute | app/main.go:147-148 | `/echo/` and a message routes to the echo with that message |
| Lifetime.FileRoutes | app/main.go:155-168 | `/files/` and a name routes to the file GET or POST of that name |
| Lifetime.EchoAnswer | app/main.go:147-149 | the echo answer is exactly the format string with the message verbatim and its length |
| Lifetime.UserAgentAnswer | app/main.go:151-153 | the user-agent answer is exactly the format string with the header's value and its length |
| Lifetime.NoUserAgent | app/main.go:152-153 | without the header the answer has `Content-Length: 0` and an empty body |
| Lifetime.PostStores | app/main.go:167-175 | a POST that writes stores its body under the name, replacing any content, and answers exactly 201 |
| Lifetime.WriteFailureAnswer | app/main.go:170-173 | a failed write answers exactly 500, leaves the model's store unchanged and closes |
| Lifetime.GetStored | app/main.go:155-165 | a stored file is answered exactly with its bytes as octets and their length |
| Lifetime.GetMissing | app/main.go:158-161 | a missing file is answered exactly 404, the store is unchanged and the loop goes on |
| Lifetime.PostThenGet | app/main.go:155-175 | what a POST stores, a later GET of that name returns, whatever was there before |
| Lifetime.EndOfStream | app/main.go:94-98 | with no LF left the worker returns without writing |
| Lifetime.EndOfStreamInHeaders | app/main.go:113-116 | after a complete request line and any number of complete header lines, a stream with no line feed left (so no empty line) makes the worker return without writing |
| Lifetime.MalformedAnswers400 | app/main.go:101-104 | a malformed request is answered exactly 400 and the worker returns |
| Lifetime.ShortLineAnswers400 | app/main.go:100-104 | fewer than three words is answered exactly 400 and the worker returns |
| Lifetime.ShortBodyAnswers400 | app/main.go:134-137 | a POST body shorter than its Content-Length is answered exactly 400 and the worker returns |
| Lifetime.PostBodyExact | app/main.go:129-134 | a sent POST gets exactly `n` body bytes after the empty line and the next request starts after them |
| Lifetime.DeclaredBodyOfGetStays | app/main.go:128-140 | a GET has an empty body and the next request is read right after its headers, where its declared body is |
| Lifetime.ClosesOnlyIfAsked | app/main.go:181-184 | after an ordinary answer the worker returns exactly when the request asked to close |
| Lifetime.MissIgnoresClose | app/main.go:159-161 | a missing file goes on to the next request even when it asked to close |
| Lifetime.WriteFailureStops | app/main.go:171-173 | a failed write is answered exactly 500 and the worker returns |
| Lifetime.StepKeepsFiles | app/main.go:167-175 | one iteration never removes a file |
| Lifetime.ShutdownReadsNothing | app/main.go:90-92 | once the flag is seen the worker reads and writes nothing more |
| Lifetime.CloseEndsConnection | app/main.go:181-184 | a request asking to close gets its one answer and nothing after it is read |
| Lifetime.KeepAlive | app/main.go:89-185 | a request not asking to close gets its answer and the next request is read from the same stream, with the store as it left it |
| Lifetime.RunKeepsFiles | app/main.go:89-185 | over a whole connection no file is removed |
| Server.NormalizeCommand | app/main.go:191 | a normalised console line has no upper-case letter and no white space at either end |
| Server.ParseCommand | app/main.go:193-223 | an unknown command is reported as the non-empty, lower-case, trimmed line; which lines are `quit` and which are ignored is stated by `Server.ParseQuit` and `Server.BlankOnlyForSpace` |
| Server.BlankOnlyForSpace | app/main.go:216-218 | a console line is ignored exactly when it holds only white space |
| Server.QuitIgnoresCaseAndBlanks | app/main.go:191-204 | `quit` in any case with blanks around it is the quit command |
| Server.ParseQuit | app/main.go:191-204 | the command is quit exactly when the lower-cased, trimmed line is `quit` |
| Server.FirstQuit | app/main.go:190-207 | the index found holds `quit` and no line before it does; none means no line does |
| Server.FirstQuitAt | app/main.go:190-207 | the first `quit` is the one with none before it |
| Server.ServerState.constructor | app/main.go:18-21 | counters start at zero with the flag clear |
| Server.ServerState.Accept | app/main.go:45-72 | with the flag set nothing is accepted; otherwise the new user is numbered and both counters rise by one, so active never exceeds total |
| Server.ServerState.ConnClosed | app/main.go:81-85 | a worker's exit lowers active by one for that user and changes nothing else |
| Server.ServerState.Command | app/main.go:191-207 | the loop stops exactly on `quit`, which sets the flag; no command changes the counters |
| Server.ServerState.HandleCommands | app/main.go:188-224 | lines are read up to and including the first `quit`, or all of them; the flag is set exactly when there is a `quit` |
| Server.HandleConnection | app/main.go:80-92 | the worker does what `Run` says, returns at once when the flag is already set, sees it at iteration `k` exactly when the console lines handled meanwhile hold a `quit`, stops for shutdown only when the flag is set, and on every exit path lowers active exactly once |
| Server.ConnectAndLeave | app/main.go:71-85 | after `n` connections come and go, total is `n` and active is 0 |

## Left out

- Listening, accepting, accept deadlines and the classification of accept errors (app/main.go:37-68) are socket I/O and time. Of the accept loop, only its decision is kept: with the flag set, `Accept` accepts nothing.
- Goroutines and `sync/atomic` are left out. The counters and the flag are sequential state changed by explicit events. When a running worker first sees the flag is the parameter `shutdownAt`. `Server.HandleConnection` places the console lines handled during a connection between two iterations of its loop.
- Console output is left out: logging, the `status` and `help` text, the unknown-command message and the uptime from `time.Since`.
- `flag` and `os.Getenv` configuration is left out, and so is the serving directory itself.
- `os.ReadFile` and `os.WriteFile` are replaced by a map from name to contents and a per-request flag for a failed write. A read error of any kind is taken to mean the name is absent.
- Lifetime.WriteFailureAnswer: a failed write leaves the map unchanged, which is weaker than the file system. `os.WriteFile` truncates the file when it opens it, so a write or close that fails after the open leaves the file empty or partly written while the client gets the 500 of app/main.go:172. The model does not promise what a later GET of that name returns.
- The end of the process after `quit` is not modelled. `main` returns at most about 10 seconds after the flag is set (the accept deadline of app/main.go:54), and the process then ends without waiting for the workers. `shutdownAt`, `Run` and `Server.HandleConnection` describe only a worker that reaches the top of its loop before then; one cut off mid-read or mid-write is not described.
- `filepath.Join` path cleaning is left out. A path such as `/files/a/../b` is kept as the name `a/../b` and does not alias `b`.
- Failed writes to the connection are ignored by the code and not modelled.
- `Bytes.ToLower`: lower-cases ASCII letters only, not the Unicode case folding of `strings.ToLower`.
- `Bytes.IsSpace` has the six ASCII white-space bytes only. The same limit applies to `Bytes.TrimSpace` and `Bytes.Fields`: they do not recognise the Unicode spaces that `strings.TrimSpace` and `strings.Fields` also treat as white space.
- `Bytes.ScanInt`: models `%d` as an optional sign and a run of decimal digits. No digits, or a value outside 64 bits, leaves 0. This is all that `%d` accepts: base prefixes and `_` separators are read only by `%v`.
- A negative Content-Length makes `make` panic. An unrecovered panic in a goroutine ends the whole process. The model records only that this worker returns with no output (`Panicked`), and does not model the rest of the process ending.
- A Content-Length above the Go runtime's maximum allocation size also makes `make` panic, and one below it but beyond the memory available ends the process. Neither is modelled, because the limit depends on the platform: the model treats such a value like any other non-negative length, so the request is malformed when the stream is shorter.
- The path `/files/` gives the empty name, which `filepath.Join` turns into the directory itself, so the code can only answer 404 or 500 there. The model treats the empty name like any other: the caller models that write failing by putting the iteration in `writeFails`, and a GET of it then answers 404.
- A `Bytes.Byte` is a `char`, not a value limited to 0..255. Request text is read as bytes, and the model never produces a larger value from it, but the type does not say so; restricting the type made the verification of the wire-form lemmas too costly.
- The 64-bit limits of the counters `userCount` and `activeUsers` are not modelled.
- The token-size limit of the console's `bufio.Scanner` is not modelled: console lines are any sequence of lines.
- Connection.ServeRequest: its own contract states only that the cursor advances. What an iteration answers and when it stops is stated by the `Lifetime` lemmas about it.
- Bytes.TrimSpace, Bytes.TrimLeftSpace, Bytes.TrimRightSpace: their own contracts state only that the result is no longer than the input. What they remove is stated by `Bytes.TrimSpaceIsSlice`, `Bytes.TrimLeftSpaceDrops` and `Bytes.TrimRightSpaceDrops`.
- Bytes.ToLower: its own contract states only that the length is kept. The byte-by-byte meaning is stated by `Bytes.ToLowerBytes`.
- BufferedReader.LineEnd: its own contract states only the bounds of the line end. Where the line ends is stated by `BufferedReader.LineEndAtFirstLf`.
