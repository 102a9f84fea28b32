/** What `handleConnection` (app/main.go) promises about whole requests and whole
    connections, stated over the text a client sends: how a request is read, which
    response it gets, what the file store holds afterwards, and when the loop stops. */
module Properties {
  import opened Wrappers
  import opened Bytes
  import opened BufferedReader
  import opened Http
  import opened Connection

  // ---------------------------------------------------------------------------
  // Request text as a client writes it

  /** A word of the request line: non-empty, and one token from end to end. */
  predicate Word(w: Bytes) {
    w != [] && TokenLength(w) == |w|
  }

  /** A header line as sent, before its CRLF: not empty, no line feed in it, and not
      itself ending in a carriage return or line feed. */
  predicate PlainLine(l: Bytes) {
    l != [] && '\n' !in l && !IsLineEnd(l[|l| - 1])
  }

  /** Every line of a header block is plain. */
  predicate PlainLines(lines: seq<Bytes>) {
    lines == [] || (PlainLine(lines[0]) && PlainLines(lines[1..]))
  }

  /** The header block: each line followed by CRLF, then the empty line. */
  function HeaderText(lines: seq<Bytes>): Bytes {
    if lines == [] then "\r\n" else lines[0] + "\r\n" + HeaderText(lines[1..])
  }

  /** Complete header lines, each followed by CRLF, without the empty line that would
      end the block: what a stream holds when it ends inside the headers. */
  function HeaderLinesText(lines: seq<Bytes>): Bytes {
    if lines == [] then [] else lines[0] + "\r\n" + HeaderLinesText(lines[1..])
  }

  /** The header lines applied in order to `acc`, one `AddHeader` each: the reference
      meaning of the header loop. */
  function FoldHeaders(acc: Headers, lines: seq<Bytes>): Headers
    decreases |lines|
  {
    if lines == [] then acc else FoldHeaders(AddHeader(acc, lines[0]), lines[1..])
  }

  /** A request line with three words and CRLF. */
  function RequestLineText(verb: Bytes, path: Bytes, version: Bytes): Bytes {
    verb + " " + path + " " + version + "\r\n"
  }

  /** A request up to its body: the request line and the header block. */
  function HeadText(verb: Bytes, path: Bytes, version: Bytes, lines: seq<Bytes>): Bytes {
    RequestLineText(verb, path, version) + HeaderText(lines)
  }

  /** `data` holds `t` from `pos` on, byte by byte. */
  predicate At(data: Bytes, pos: nat, t: Bytes)
    decreases |t|
  {
    pos + |t| <= |data| && (t == [] || (data[pos] == t[0] && At(data, pos + 1, t[1..])))
  }

  /** `At` is the slice of `data` from `pos` being `t`. */
  lemma {:induction false} AtIsSlice(data: Bytes, pos: nat, t: Bytes)
    requires At(data, pos, t)
    ensures pos + |t| <= |data| && data[pos..pos + |t|] == t
    decreases |t|
  {
    if t != [] {
      AtIsSlice(data, pos + 1, t[1..]);
      assert data[pos..pos + |t|] == [data[pos]] + data[pos + 1..pos + |t|];
    }
  }

  /** Text that is there in two parts is there part by part. */
  lemma {:induction false} AtSplit(data: Bytes, pos: nat, a: Bytes, b: Bytes)
    requires At(data, pos, a + b)
    ensures At(data, pos, a) && At(data, pos + |a|, b)
    decreases |a|
  {
    if a == [] {
      assert a + b == b;
    } else {
      assert (a + b)[1..] == a[1..] + b;
      AtSplit(data, pos + 1, a[1..], b);
    }
  }

  // ---------------------------------------------------------------------------
  // Headers

  /** The empty line that ends the header block. */
  lemma HeaderEnd(data: Bytes, pos: nat)
    requires At(data, pos, "\r\n")
    ensures LineEnd(data, pos) == Some(pos + 2)
    ensures TrimLineEnd(data[pos..pos + 2]) == []
  {
    AtIsSlice(data, pos, "\r\n");
    LineEndOf(data, pos, "\r");
    TrimLineEndOfCrLf([]);
    assert data[pos..pos + 2] == [] + "\r\n";
  }

  /** A line ended by CRLF, with no line feed before: the line ends after the LF. */
  lemma CrLfLineEnd(data: Bytes, pos: nat, l: Bytes)
    requires pos + |l| + 2 <= |data| && data[pos..pos + |l| + 2] == l + "\r\n" && '\n' !in l
    ensures LineEnd(data, pos) == Some(pos + |l| + 2)
  {
    var w := l + "\r";
    assert w + "\n" == l + "\r\n";
    assert '\n' !in w by {
      assert forall i :: 0 <= i < |l| ==> w[i] == l[i];
    }
    LineEndOf(data, pos, w);
  }

  /** One header line and its CRLF, followed by `rest`. */
  lemma HeaderLine(data: Bytes, pos: nat, l: Bytes, rest: Bytes)
    requires PlainLine(l)
    requires At(data, pos, l + "\r\n" + rest)
    ensures LineEnd(data, pos) == Some(pos + |l| + 2)
    ensures TrimLineEnd(data[pos..pos + |l| + 2]) == l
    ensures At(data, pos + |l| + 2, rest)
  {
    AtSplit(data, pos, l + "\r\n", rest);
    AtIsSlice(data, pos, l + "\r\n");
    CrLfLineEnd(data, pos, l);
    TrimLineEndOfCrLf(l);
  }

  /** The first line of a non-empty header block is followed, after its CRLF, by the
      block of the remaining lines. */
  lemma HeaderBlockStep(data: Bytes, pos: nat, lines: seq<Bytes>)
    requires lines != [] && PlainLine(lines[0])
    requires At(data, pos, HeaderText(lines))
    ensures var e := pos + |lines[0]| + 2;
      e + |HeaderText(lines[1..])| == pos + |HeaderText(lines)| &&
      At(data, e, HeaderText(lines[1..])) &&
      LineEnd(data, pos) == Some(e) && TrimLineEnd(data[pos..e]) == lines[0]
  {
    HeaderLine(data, pos, lines[0], HeaderText(lines[1..]));
  }

  /** The header loop applied to a header block reads exactly that block, and the map
      it builds is the fold of `AddHeader` over the lines. */
  lemma {:induction false} ReadHeaderText(data: Bytes, pos: nat, lines: seq<Bytes>, acc: Headers)
    requires PlainLines(lines)
    requires At(data, pos, HeaderText(lines))
    ensures ReadHeaders(data, pos, acc) == Some((FoldHeaders(acc, lines), pos + |HeaderText(lines)|))
    decreases |lines|
  {
    if lines == [] {
      HeaderEnd(data, pos);
    } else {
      var e := pos + |lines[0]| + 2;
      HeaderBlockStep(data, pos, lines);
      ReadHeadersGoesOn(data, pos, acc, e);
      ReadHeaderText(data, e, lines[1..], AddHeader(acc, lines[0]));
    }
  }

  /** Header lines after which the stream holds no line feed, so no empty line: the
      header loop reads every one of them and then runs out of stream. */
  lemma {:induction false} ReadHeadersEnds(data: Bytes, pos: nat, q: nat, lines: seq<Bytes>, acc: Headers)
    requires PlainLines(lines)
    requires At(data, pos, HeaderLinesText(lines))
    requires q == pos + |HeaderLinesText(lines)| && q <= |data| && '\n' !in data[q..]
    ensures ReadHeaders(data, pos, acc) == None
    decreases |lines|
  {
    if lines == [] {
      LineEndAtFirstLf(data, pos);
    } else {
      var rest := HeaderLinesText(lines[1..]);
      var e := pos + |lines[0]| + 2;
      HeaderLine(data, pos, lines[0], rest);
      ReadHeadersGoesOn(data, pos, acc, e);
      ReadHeadersEnds(data, e, q, lines[1..], AddHeader(acc, lines[0]));
    }
  }

  /** A header line is split at its first colon only, so the value keeps any further
      colons; the name is trimmed and lower-cased and the value trimmed. */
  lemma HeaderAtFirstColon(h: Headers, name: Bytes, value: Bytes)
    requires ':' !in name
    ensures AddHeader(h, name + ":" + value) == h[ToLower(TrimSpace(name)) := TrimSpace(value)]
  {
    CutColonAtFirst(name, value);
  }

  /** A line without a colon adds nothing. */
  lemma HeaderWithoutColon(h: Headers, line: Bytes)
    requires ':' !in line
    ensures AddHeader(h, line) == h
  {
  }

  lemma {:induction false} FoldHeadersAppend(acc: Headers, lines: seq<Bytes>, l: Bytes)
    ensures FoldHeaders(acc, lines + [l]) == AddHeader(FoldHeaders(acc, lines), l)
    decreases |lines|
  {
    if lines != [] {
      assert (lines + [l])[1..] == lines[1..] + [l];
      FoldHeadersAppend(AddHeader(acc, lines[0]), lines[1..], l);
    }
  }

  /** Of two lines with the same header name, the later one wins: whatever came before,
      the last line decides the value. */
  lemma LaterHeaderWins(acc: Headers, lines: seq<Bytes>, name: Bytes, value: Bytes)
    requires ':' !in name
    ensures var h := FoldHeaders(acc, lines + [name + ":" + value]);
      ToLower(TrimSpace(name)) in h && h[ToLower(TrimSpace(name))] == TrimSpace(value)
  {
    FoldHeadersAppend(acc, lines, name + ":" + value);
    HeaderAtFirstColon(FoldHeaders(acc, lines), name, value);
  }

  // ---------------------------------------------------------------------------
  // The request line

  lemma FieldsWordSpace(w: Bytes, c: Byte, rest: Bytes)
    requires Word(w) && IsSpace(c)
    ensures Fields(w + ([c] + rest)) == [w] + Fields(rest)
  {
    assert w[..TokenLength(w)] == w;
    FieldsToken(w, [c] + rest);
    FieldsSkipSpace(c, rest);
  }

  lemma FieldsOfRequestLine(verb: Bytes, path: Bytes, version: Bytes)
    requires Word(verb) && Word(path) && Word(version)
    ensures Fields(RequestLineText(verb, path, version)) == [verb, path, version]
  {
    var lf: Bytes := ['\n'];
    FieldsSkipSpace('\n', []);
    assert Fields(lf) == [];
    FieldsWordSpace(version, '\r', lf);
    var t3 := version + (['\r'] + lf);
    FieldsWordSpace(path, ' ', t3);
    var t2 := path + ([' '] + t3);
    FieldsWordSpace(verb, ' ', t2);
    assert RequestLineText(verb, path, version) == verb + ([' '] + t2);
  }

  lemma NoLineFeedInRequestLine(verb: Bytes, path: Bytes, version: Bytes)
    requires Word(verb) && Word(path) && Word(version)
    ensures var t := RequestLineText(verb, path, version);
      t == (verb + " " + path + " " + version + "\r") + "\n" &&
      '\n' !in verb + " " + path + " " + version + "\r"
  {
    var w := verb + " " + path + " " + version + "\r";
    assert forall i :: 0 <= i < |w| ==> IsSpace(w[i]) || w[i] in verb || w[i] in path || w[i] in version;
    assert forall i :: 0 <= i < |w| ==> w[i] != '\n';
  }

  /** A request line with fewer than three words is malformed, whatever follows it. */
  lemma ShortRequestLine(data: Bytes, pos: nat, e: nat)
    requires pos <= |data|
    requires LineEnd(data, pos) == Some(e) && |Fields(data[pos..e])| < 3
    ensures ReadRequest(data, pos) == Malformed
  {
  }

  /** The request line, read as a line and split into its three words. */
  lemma RequestLineStep(data: Bytes, pos: nat, verb: Bytes, path: Bytes, version: Bytes)
    requires Word(verb) && Word(path) && Word(version)
    requires At(data, pos, RequestLineText(verb, path, version))
    ensures var e := pos + |RequestLineText(verb, path, version)|;
      LineEnd(data, pos) == Some(e) && Fields(data[pos..e]) == [verb, path, version]
  {
    AtIsSlice(data, pos, RequestLineText(verb, path, version));
    NoLineFeedInRequestLine(verb, path, version);
    LineEndOf(data, pos, verb + " " + path + " " + version + "\r");
    FieldsOfRequestLine(verb, path, version);
  }

  /** The request line of a request as a client writes it, which ends at `e`: its
      first word is the method and its second the path; the third is ignored. */
  lemma ReadRequestLineText(data: Bytes, pos: nat, e: nat, verb: Bytes, path: Bytes, version: Bytes)
    requires Word(verb) && Word(path) && Word(version)
    requires At(data, pos, RequestLineText(verb, path, version))
    requires e == pos + |RequestLineText(verb, path, version)|
    ensures e <= |data|
    ensures ReadRequest(data, pos) == AfterRequestLine([verb, path, version], data, e)
  {
    RequestLineStep(data, pos, verb, path, version);
    ReadRequestLine(data, pos, e, verb, path, version);
  }

  /** The header block after the request line, from `e` to `p`: the headers are the
      fold of its lines, and the body is read from `p` on. */
  lemma AfterHeaderText(data: Bytes, e: nat, p: nat, verb: Bytes, path: Bytes, version: Bytes, lines: seq<Bytes>)
    requires PlainLines(lines)
    requires At(data, e, HeaderText(lines))
    requires p == e + |HeaderText(lines)|
    ensures p <= |data|
    ensures AfterRequestLine([verb, path, version], data, e) ==
      WithBody(verb, path, FoldHeaders(map[], lines), data, p)
  {
    ReadHeaderText(data, e, lines, map[]);
    AfterHeaders(verb, path, version, data, e, FoldHeaders(map[], lines), p);
  }

  /** A request as a client writes it, whose head ends at `p`: three words, the header
      lines, CRLF. What is read is the first word as the method and the second as the
      path, the third is ignored, the headers are the fold of the lines, and the body is
      read from `p` on. */
  lemma ReadRequestText(data: Bytes, pos: nat, p: nat, verb: Bytes, path: Bytes, version: Bytes, lines: seq<Bytes>)
    requires Word(verb) && Word(path) && Word(version)
    requires PlainLines(lines)
    requires At(data, pos, HeadText(verb, path, version, lines))
    requires p == pos + |HeadText(verb, path, version, lines)|
    ensures p <= |data|
    ensures ReadRequest(data, pos) == WithBody(verb, path, FoldHeaders(map[], lines), data, p)
  {
    var e := pos + |RequestLineText(verb, path, version)|;
    AtSplit(data, pos, RequestLineText(verb, path, version), HeaderText(lines));
    ReadRequestLineText(data, pos, e, verb, path, version);
    AfterHeaderText(data, e, p, verb, path, version, lines);
  }
}
