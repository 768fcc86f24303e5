/** Receiving an HTTP/1.1 response: head, body framing, and whether the connection may be used again. */
module Http11Response {
  import opened Octets
  import opened HpackPrimitives
  import opened DynamicTable
  import opened StaticTable
  import opened HeaderBlock
  import opened RequestHeaders
  import opened Frames
  import opened ResponseSink
  import opened Http11Text
  import opened Http11Reader
  import opened Http11Body

  // ---------------------------------------------------------------- the head as text

  /** Fields beyond the limit are dropped. */
  function WithHeader(headers: seq<Entry>, e: Entry): (r: seq<Entry>) {
    if |headers| >= RESPONSE_HEADERS_MAX_SIZE then headers else headers + [e]
  }

  function SkipToken(s: seq<byte>): (r: seq<byte>) {
    if s != [] && !IsSpace(s[0]) then SkipToken(s[1..]) else s
  }

  predicate IsDigit(c: byte) {
    48 <= c <= 57
  }

  /** The three digits of a status line. */
  function StatusDigits(line: seq<byte>): (r: Option<seq<byte>>) {
    var s := CString(line);
    if |s| < 7 || s[..7] != Ascii("HTTP/1.") then None
    else
      var t := TrimLeft(SkipToken(s[7..]));
      if |t| >= 3 && IsDigit(t[0]) && IsDigit(t[1]) && IsDigit(t[2]) then Some(t[..3]) else None
  }

  /** A header line without a colon is skipped. */
  function FieldOf(line: seq<byte>): (r: Option<Entry>) {
    var s := CString(line);
    var k := IndexOf(s, 58);
    if k == |s| then None else Some(Entry(Trim(s[..k]), Trim(s[k + 1..])))
  }

  function WithLine(headers: seq<Entry>, line: seq<byte>): (r: seq<Entry>) {
    match FieldOf(line)
    case None => headers
    case Some(e) => WithHeader(headers, e)
  }

  datatype Head = Head(status: nat, headers: seq<Entry>, rest: seq<byte>)

  /** The header lines up to the empty line. */
  function TakeFields(status: nat, headers: seq<Entry>, u: seq<byte>, limit: nat): (r: Option<Head>)
    decreases |u|
  {
    match TakeLine(u, limit)
    case None => None
    case Some(line) =>
      if IsTrailerEnd(line.text) then Some(Head(status, headers, line.rest))
      else TakeFields(status, WithLine(headers, line.text), line.rest, limit)
  }

  /** The head at the front of the octets still to come, behind the headers already known. */
  function TakeHead(headers: seq<Entry>, u: seq<byte>, limit: nat): (r: Option<Head>) {
    match TakeLine(u, limit)
    case None => None
    case Some(line) =>
      match StatusDigits(line.text)
      case None => None
      case Some(digits) =>
        TakeFields(Value(digits, 10), WithHeader(headers, Entry(Ascii(":status"), digits)), line.rest, limit)
  }

  lemma {:induction false} FieldsAgree(status: nat, headers: seq<Entry>, t: seq<byte>, m: nat, n: nat)
    requires TakeFields(status, headers, t, m).Some? && TakeFields(status, headers, t, n).Some?
    ensures TakeFields(status, headers, t, m) == TakeFields(status, headers, t, n)
    decreases |t|
  {
    hide IsTrailerEnd, WithLine;
    var line := TakeLine(t, m).value;
    if !IsTrailerEnd(line.text) {
      FieldsAgree(status, WithLine(headers, line.text), line.rest, m, n);
    }
  }

  lemma HeadsAgree(headers: seq<Entry>, u: seq<byte>, m: nat, n: nat)
    requires TakeHead(headers, u, m).Some? && TakeHead(headers, u, n).Some?
    ensures TakeHead(headers, u, m) == TakeHead(headers, u, n)
  {
    hide StatusDigits, WithHeader, TakeFields;
    var line := TakeLine(u, m).value;
    var digits := StatusDigits(line.text).value;
    FieldsAgree(Value(digits, 10), WithHeader(headers, Entry(Ascii(":status"), digits)), line.rest, m, n);
  }

  lemma {:induction false} ChunkedAgree(u: seq<byte>, m: nat, n: nat)
    requires TakeChunked(u, m).Some? && TakeChunked(u, n).Some?
    ensures TakeChunked(u, m) == TakeChunked(u, n)
    decreases |u|
  {
    hide ChunkSize, TakeTrailers;
    var line := TakeLine(u, m).value;
    var size := ChunkSize(line.text);
    if size == 0 {
      BothTrailers(line.rest, m, n);
    } else {
      ChunkedAgree(TakeChunk(line.rest, size, m).value.rest, m, n);
    }
  }

  lemma BothTrailers(u: seq<byte>, m: nat, n: nat)
    requires TakeTrailers(u, m).Some? && TakeTrailers(u, n).Some?
    ensures TakeTrailers(u, m) == TakeTrailers(u, n)
  {
    if m <= n {
      TrailersMonotone(u, m, n);
    } else {
      TrailersMonotone(u, n, m);
    }
  }

  /** What stands behind a head is a suffix of the octets. */
  lemma HeadTakesFront(headers: seq<Entry>, u: seq<byte>, limit: nat)
    requires TakeHead(headers, u, limit).Some?
    ensures var rest := TakeHead(headers, u, limit).value.rest; |rest| <= |u| && rest == u[|u| - |rest|..]
  {
    hide TakeFields, StatusDigits, WithHeader, Ascii;
    var line := TakeLine(u, limit).value;
    var digits := StatusDigits(line.text).value;
    FieldsTakeFront(Value(digits, 10), WithHeader(headers, Entry(Ascii(":status"), digits)), line.rest, limit);
    SuffixOfSuffix(u, line.rest, TakeHead(headers, u, limit).value.rest);
  }

  lemma {:induction false} FieldsTakeFront(status: nat, headers: seq<Entry>, u: seq<byte>, limit: nat)
    requires TakeFields(status, headers, u, limit).Some?
    ensures var rest := TakeFields(status, headers, u, limit).value.rest; |rest| <= |u| && rest == u[|u| - |rest|..]
    decreases |u|
  {
    hide IsTrailerEnd, WithLine;
    var line := TakeLine(u, limit).value;
    if !IsTrailerEnd(line.text) {
      FieldsTakeFront(status, WithLine(headers, line.text), line.rest, limit);
      SuffixOfSuffix(u, line.rest, TakeFields(status, headers, u, limit).value.rest);
    }
  }

  lemma SuffixOfSuffix(u: seq<byte>, v: seq<byte>, w: seq<byte>)
    requires |w| <= |v| <= |u| && v == u[|u| - |v|..] && w == v[|v| - |w|..]
    ensures w == u[|u| - |w|..]
  {
  }

  // ---------------------------------------------------------------- framing

  datatype Framing = NoBody | Chunked | Length(n: nat) | BadLength | UntilClose

  /** The first field of a name, ignoring case. */
  function HeaderValue(headers: seq<Entry>, name: string): (r: Option<seq<byte>>) {
    if headers == [] then None
    else if Is(headers[0].name, name) then Some(headers[0].value)
    else HeaderValue(headers[1..], name)
  }

  method StreamHeaderValue(headers: seq<Entry>, name: string) returns (r: Option<seq<byte>>)
    ensures r == HeaderValue(headers, name)
  {
    var i := 0;
    assert headers[0..] == headers;
    while i < |headers|
      invariant i <= |headers| && HeaderValue(headers, name) == HeaderValue(headers[i..], name)
    {
      assert headers[i..][1..] == headers[i + 1..];
      if Is(headers[i].name, name) {
        return Some(headers[i].value);
      }
      i := i + 1;
    }
    r := None;
  }

  predicate HasToken(value: Option<seq<byte>>, token: string) {
    value.Some? && ContainsIgnoreCase(CString(value.value), token)
  }

  predicate IsBodyless(status: nat) {
    status == 204 || status == 304 || 100 <= status < 200
  }

  /** Bodyless responses, then chunked coding, then content-length, then until close. */
  function FramingOf(request: seq<byte>, status: nat, headers: seq<Entry>): (f: Framing) {
    if Is(request, "HEAD") || IsBodyless(status) then NoBody
    else if HasToken(HeaderValue(headers, "transfer-encoding"), "chunked") then Chunked
    else
      match HeaderValue(headers, "content-length")
      case None => UntilClose
      case Some(value) => if Strtol(value, 10) < 0 then BadLength else Length(Strtol(value, 10))
  }

  /** The body at the front of the octets still to come, when its framing tells where it ends. */
  function TakeBody(f: Framing, u: seq<byte>, limit: nat): (r: Option<Taken>) {
    match f
    case NoBody => Some(Taken([], u))
    case Chunked => TakeChunked(u, limit)
    case Length(n) => if n <= |u| then Some(Taken(u[..n], u[n..])) else None
    case BadLength => None
    case UntilClose => None
  }

  datatype Reply = Reply(headers: seq<Entry>, body: seq<byte>, rest: seq<byte>)

  /** The whole response at the front of the octets still to come. */
  function TakeReply(request: seq<byte>, u: seq<byte>, limit: nat): (r: Option<Reply>) {
    match TakeHead([], u, limit)
    case None => None
    case Some(head) =>
      match TakeBody(FramingOf(request, head.status, head.headers), head.rest, limit)
      case None => None
      case Some(taken) => Some(Reply(head.headers, taken.data, taken.rest))
  }

  // ---------------------------------------------------------------- reading the head

  /** classifyHeadError */
  function HeadError(err: int, cleanEof: bool, partial: bool): (e: Error)
    ensures e != NoError
  {
    if err == -2 then if partial then PartialContentAfterTimeout else NoContentAfterTimeout
    else if err == -1 || cleanEof then ReadingConnectionError
    else ReadingHttp11Failed
  }

  /** Reads header lines up to the empty line. */
  method ReadHeaderSection(reader: Reader, stream: Stream, ghost status: nat) returns (rc: int)
    requires reader.Valid()
    modifies reader, reader.buf, stream`headers
    ensures reader.Valid() && (reader.buf == old(reader.buf) || fresh(reader.buf)) && rc in {1, 0, -1, -2}
    ensures rc == 1 && old(reader.Lean(0)) ==> reader.Lean(0)
    ensures rc == 1 ==>
              TakeFields(status, old(stream.headers), old(reader.Unread()), |old(reader.Unread())|)
              == Some(Head(status, stream.headers, reader.Unread()))
    ensures old(reader.len) < MAX_HEADER_SECTION ==>
              TakeFields(status, old(stream.headers), old(reader.Unread()), LINE_MAX).Some? ==>
                rc == 1 && reader.len < MAX_HEADER_SECTION
    ensures |stream.headers| >= |old(stream.headers)|
  {
    hide TakeLine, IsTrailerEnd, FieldOf, Reader.Unread, Reader.Valid, Reader.Lean;
    ghost var u, h, small := reader.Unread(), stream.headers, reader.len < MAX_HEADER_SECTION;
    while true
      invariant reader.Valid() && (reader.buf == old(reader.buf) || fresh(reader.buf)) && |reader.Unread()| <= |u|
      invariant |stream.headers| >= |h| && (old(reader.Lean(0)) ==> reader.Lean(0))
      invariant TakeFields(status, h, u, |u|) == TakeFields(status, stream.headers, reader.Unread(), |u|)
      invariant small && TakeFields(status, h, u, LINE_MAX).Some? ==>
                  && TakeFields(status, stream.headers, reader.Unread(), LINE_MAX).Some?
                  && reader.len < MAX_HEADER_SECTION
      decreases |reader.Unread()|
    {
      ghost var t := reader.Unread();
      var line;
      rc, line := reader.ReadLine();
      if rc != 1 {
        return;
      }
      LinesAgree(t, |u|);
      if IsTrailerEnd(line) {
        return 1;
      }
      ParseHeaderLine(stream, line);
    }
  }

  method ParseHeaderLine(stream: Stream, line: seq<byte>)
    modifies stream`headers
    ensures stream.headers == WithLine(old(stream.headers), line)
  {
    var field := FieldOf(line);
    if field.Some? {
      AddStreamHeader(stream, field.value);
    }
  }

  method AddStreamHeader(stream: Stream, e: Entry)
    modifies stream`headers
    ensures stream.headers == WithHeader(old(stream.headers), e)
  {
    if |stream.headers| < RESPONSE_HEADERS_MAX_SIZE {
      stream.headers := stream.headers + [e];
    }
  }

  /** The status with the head in the stream's headers, or -1 with the stream's error set. */
  method ReadResponseHead(reader: Reader, stream: Stream) returns (status: int)
    requires reader.Valid() && stream.error == NoError
    modifies reader, reader.buf, stream`headers, stream`error
    ensures reader.Valid() && (reader.buf == old(reader.buf) || fresh(reader.buf)) && status >= -1
    ensures status >= 0 <==> stream.error == NoError
    ensures status >= 0 && old(reader.Lean(0)) ==> reader.Lean(0)
    ensures status >= 0 ==>
              TakeHead(old(stream.headers), old(reader.Unread()), |old(reader.Unread())|)
              == Some(Head(status, stream.headers, reader.Unread()))
    ensures old(reader.len) < MAX_HEADER_SECTION ==>
              TakeHead(old(stream.headers), old(reader.Unread()), LINE_MAX).Some? ==>
                status >= 0 && reader.len < MAX_HEADER_SECTION
    ensures status < 0 ==>
              var nothing := reader.eof && reader.err == 0 && stream.headers == []
                             && IndexOf(old(reader.Unread()), LF) == |old(reader.Unread())|;
              && stream.error == HeadError(reader.err, nothing, stream.headers != [] || stream.payload != [])
  {
    hide TakeFields, StatusDigits, Value, IndexOf, WithHeader, Ascii, StripCr, HeadError;
    hide Reader.Unread, Reader.Lean, Reader.Valid;
    ghost var u := reader.Unread();
    var lineRc, line := reader.ReadLine();
    status := -1;
    if lineRc == 1 {
      LinesAgree(u, |u|);
      var digits := StatusDigits(line);
      if digits.Some? {
        AddStreamHeader(stream, Entry(Ascii(":status"), digits.value));
        status := Value(digits.value, 10);
        ghost var h, v := stream.headers, reader.Unread();
        var rc := ReadHeaderSection(reader, stream, status);
        if rc == 1 {
          FieldsGrow(status, h, v, |v|, |u|);
          return;
        }
      }
    }
    status := -1;
    var cleanEof := lineRc == 0 && stream.headers == [];
    stream.error := HeadError(reader.err, cleanEof, stream.headers != [] || stream.payload != []);
  }

  lemma {:induction false} FieldsGrow(status: nat, headers: seq<Entry>, t: seq<byte>, m: nat, n: nat)
    requires TakeFields(status, headers, t, m).Some? && m <= n
    ensures TakeFields(status, headers, t, n) == TakeFields(status, headers, t, m)
    decreases |t|
  {
    hide IsTrailerEnd, WithLine;
    LimitGrows(t, m, n);
    var line := TakeLine(t, m).value;
    if !IsTrailerEnd(line.text) {
      FieldsGrow(status, WithLine(headers, line.text), line.rest, m, n);
    }
  }

  // ---------------------------------------------------------------- reading the body

  /** 0 and 1 both end a body normally; otherwise the stream carries an error afterwards. */
  method ClassifyBodyError(stream: Stream, rc: int) returns (r: int)
    requires rc in {1, 0, -1, -2}
    modifies stream`error
    ensures r == if rc == 1 || rc == 0 then rc else -1
    ensures stream.error == if rc < 0 && old(stream.error) == NoError then BodyError(rc, stream.headers, stream.payload)
                            else old(stream.error)
  {
    if rc == 1 || rc == 0 {
      return rc;
    }
    if stream.error == NoError {
      stream.error := BodyError(rc, stream.headers, stream.payload);
    }
    r := -1;
  }

  function BodyError(rc: int, headers: seq<Entry>, payload: seq<byte>): (e: Error)
    ensures e != NoError
  {
    if rc != -2 then ReadingHttp11Failed
    else if headers != [] || payload != [] then PartialContentAfterTimeout
    else NoContentAfterTimeout
  }

  lemma ErrorKeepsOnlyData(s0: StreamState, s: StreamState, t: StreamState)
    requires OnlyData(s0, s) && SinkIsSound(s)
    requires t == s.(error := t.error) && (t.error == s.error || (s.error == NoError && t.error != NoError))
    ensures OnlyData(s0, t) && SinkIsSound(t)
  {
  }

  /**
   How reading a body may end when everything is passed on: the body before and after, the octets u still to come
   before and the rest of them after, `early` of them buffered along with the head, whether the reader's buffer is
   still small, and the end code.
   */
  ghost predicate BodyEnds(f: Framing, u: seq<byte>, early: nat, small: bool, ending: int, rc: int, before: seq<byte>,
                           after: seq<byte>, rest: seq<byte>)
  {
    match f
    case NoBody => rc == 1 && after == before && rest == u
    case Chunked =>
      && (rc == 1 ==>
            var taken := TakeChunked(u, |u|);
            taken.Some? && after == before + taken.value.data && rest == taken.value.rest)
      && (small && ChunkedCut(u, LINE_MAX).Some? ==>
            rc == ending && after == before + ChunkedCut(u, LINE_MAX).value)
    case Length(n) =>
      if n <= |u| then rc == 1 && after == before + u[..n] && rest == u[n..] else rc == ending && after == before + u
    case BadLength => rc == -1
    case UntilClose => rc == ending && early <= |u| && after == before + u[early..]
  }

  /** The same, once errors and timeouts are the one code -1. */
  ghost predicate BodyClassified(f: Framing, u: seq<byte>, early: nat, small: bool, ending: int, rc: int,
                                 before: seq<byte>, after: seq<byte>, rest: seq<byte>)
  {
    || (rc >= 0 && BodyEnds(f, u, early, small, ending, rc, before, after, rest))
    || (rc == -1 && BodyEnds(f, u, early, small, ending, -1, before, after, rest))
    || (rc == -1 && BodyEnds(f, u, early, small, ending, -2, before, after, rest))
  }

  /** Reads the body by its framing. */
  method ReadFramedBody(request: seq<byte>, reader: Reader, stream: Stream, status: nat)
    returns (rc: int, untilClose: bool)
    requires reader.Valid() && SinkIsSound(stream.State())
    modifies reader, reader.buf, stream, stream.sink
    ensures reader.Valid() && (reader.buf == old(reader.buf) || fresh(reader.buf)) && rc in {1, 0, -1, -2}
    ensures OnlyData(old(stream.State()), stream.State()) && SinkIsSound(stream.State())
    ensures rc == 1 && old(reader.Lean(0)) ==> reader.Lean(0)
    ensures untilClose <==> FramingOf(request, status, old(stream.headers)).UntilClose?
    ensures PassesThrough(old(stream.State())) ==>
              && PassesThrough(stream.State()) && stream.State().error == old(stream.State()).error
              && BodyEnds(FramingOf(request, status, old(stream.headers)), old(reader.Unread()),
                          old(reader.len - reader.pos), old(reader.len) < MAX_HEADER_SECTION, reader.ending, rc,
                          Body(old(stream.State())), Body(stream.State()), reader.Unread())
    ensures PassesThrough(old(stream.State())) && old(reader.len) < MAX_HEADER_SECTION ==>
              TakeBody(FramingOf(request, status, old(stream.headers)), old(reader.Unread()), LINE_MAX).Some? ==>
                rc == 1
  {
    hide PassesThrough, Body, SinkIsSound, OnlyData, TakeChunked, Reader.Unread, Reader.Valid, Reader.Lean;
    hide HeaderValue, HasToken, Strtol, Is, Ascii, Concat, ChunkedCut;
    ghost var u := reader.Unread();
    assert u[..|u|] == u && 0 <= reader.len - reader.pos by { ReaderBounds(reader); }
    if Is(request, "HEAD") || IsBodyless(status) {
      OnlyDataRefl(stream.State());
      return 1, false;
    }
    var transferEncoding := StreamHeaderValue(stream.headers, "transfer-encoding");
    if HasToken(transferEncoding, "chunked") {
      rc := ReadChunkedBody(reader, stream);
      return rc, false;
    }
    var contentLength := StreamHeaderValue(stream.headers, "content-length");
    if contentLength == None {
      BehindBuffered(reader);
      rc := ReadUntilCloseBody(reader, stream);
      return rc, true;
    }
    var bodyLen := Strtol(contentLength.value, 10);
    if bodyLen < 0 {
      OnlyDataRefl(stream.State());
      return -1, false;
    }
    rc := ReadContentLengthBody(reader, stream, bodyLen);
    untilClose := false;
  }

  /** Reads the body its framing announces: 1 whole, 0 ended by the peer, -1 with an error on the stream. */
  method ReadResponseBody(request: seq<byte>, reader: Reader, stream: Stream, status: nat)
    returns (rc: int, untilClose: bool)
    requires reader.Valid() && SinkIsSound(stream.State())
    modifies reader, reader.buf, stream, stream.sink
    ensures reader.Valid() && (reader.buf == old(reader.buf) || fresh(reader.buf)) && rc in {1, 0, -1}
    ensures OnlyData(old(stream.State()), stream.State()) && SinkIsSound(stream.State())
    ensures rc == 1 && old(reader.Lean(0)) ==> reader.Lean(0)
    ensures untilClose <==> FramingOf(request, status, old(stream.headers)).UntilClose?
    ensures rc == -1 ==> stream.State().error != NoError
    ensures PassesThrough(old(stream.State())) ==>
              && PassesThrough(stream.State())
              && (rc >= 0 ==> stream.State().error == old(stream.State()).error)
              && BodyClassified(FramingOf(request, status, old(stream.headers)), old(reader.Unread()),
                                old(reader.len - reader.pos), old(reader.len) < MAX_HEADER_SECTION, reader.ending, rc,
                                Body(old(stream.State())), Body(stream.State()), reader.Unread())
    ensures PassesThrough(old(stream.State())) && old(reader.len) < MAX_HEADER_SECTION ==>
              TakeBody(FramingOf(request, status, old(stream.headers)), old(reader.Unread()), LINE_MAX).Some? ==>
                rc == 1
  {
    hide PassesThrough, Body, SinkIsSound, OnlyData, BodyEnds, TakeBody, FramingOf, BodyError;
    hide Reader.Unread, Reader.Valid, Reader.Lean;
    ghost var s0 := stream.State();
    var code;
    code, untilClose := ReadFramedBody(request, reader, stream, status);
    ghost var s := stream.State();
    rc := ClassifyBodyError(stream, code);
    ErrorKeepsOnlyData(s0, s, stream.State());
    ErrorKeepsPassing(s, stream.State());
  }

  lemma BehindBuffered(reader: Reader)
    requires reader.Valid()
    ensures 0 <= reader.len - reader.pos <= |reader.Unread()|
    ensures reader.Unread()[reader.len - reader.pos..] == Concat(reader.chunks)
  {
    hide Concat;
  }

  lemma ReaderBounds(reader: Reader)
    requires reader.Valid()
    ensures reader.pos <= reader.len
  {
  }

  lemma ErrorKeepsPassing(s: StreamState, t: StreamState)
    requires t == s.(error := t.error)
    ensures (PassesThrough(s) ==> PassesThrough(t)) && Body(t) == Body(s)
  {
  }

  // ---------------------------------------------------------------- which error is reported

  /** A head that does not come: a timeout, after something or after nothing; a lost or closed connection; bad text. */
  lemma HeadErrorIs(err: int, cleanEof: bool, partial: bool)
    ensures err == -2 && partial ==> HeadError(err, cleanEof, partial) == PartialContentAfterTimeout
    ensures err == -2 && !partial ==> HeadError(err, cleanEof, partial) == NoContentAfterTimeout
    ensures err != -2 && (err == -1 || cleanEof) ==> HeadError(err, cleanEof, partial) == ReadingConnectionError
    ensures err != -2 && err != -1 && !cleanEof ==> HeadError(err, cleanEof, partial) == ReadingHttp11Failed
  {
  }

  /** A body that breaks off: a timeout, after something or after nothing; anything else. */
  lemma BodyErrorIs(rc: int, headers: seq<Entry>, payload: seq<byte>)
    ensures rc == -2 && headers == [] && payload == [] ==> BodyError(rc, headers, payload) == NoContentAfterTimeout
    ensures rc == -2 && (headers != [] || payload != []) ==>
              BodyError(rc, headers, payload) == PartialContentAfterTimeout
    ensures rc != -2 ==> BodyError(rc, headers, payload) == ReadingHttp11Failed
  {
  }
}
