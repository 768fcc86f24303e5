/** Well-formed HTTP/1.1 responses (sections 4, 5 and 7.1 of RFC 9112) and what the reader makes of them. */
module Http11Message {
  import opened Octets
  import opened HpackPrimitives
  import opened DynamicTable
  import opened StaticTable
  import opened HeaderBlock
  import opened RequestHeaders
  import opened Http11Text
  import opened Http11Reader
  import opened Http11Body
  import opened Http11Response

  const CRLF: seq<byte> := [13, 10]

  // ---------------------------------------------------------------- lines

  /** A line the reader takes whole: text without a line feed, short enough. */
  ghost predicate IsLine(text: seq<byte>) {
    LF !in text && |text| + 1 < LINE_MAX
  }

  lemma LineOf(text: seq<byte>, rest: seq<byte>)
    requires IsLine(text)
    ensures TakeLine(text + CRLF + rest, LINE_MAX) == Some(Line(text, rest))
  {
    hide IndexOf;
    var u := text + CRLF + rest;
    var k := |text| + 1;
    assert forall j :: 0 <= j < |text| ==> u[j] == text[j] && text[j] in text;
    assert u[|text|] == CR && u[k] == LF;
    IndexOfIs(u, LF, k);
    assert u[..k] == text + [CR] && u[k + 1..] == rest;
    assert (text + [CR])[..|text|] == text;
  }

  lemma EmptyLineOf(rest: seq<byte>)
    ensures TakeLine(CRLF + rest, LINE_MAX) == Some(Line([], rest))
  {
    LineOf([], rest);
    assert [] + CRLF + rest == CRLF + rest;
  }

  // ---------------------------------------------------------------- chunked bodies

  datatype Chunk = Chunk(size: seq<byte>, ext: seq<byte>, data: seq<byte>)

  datatype Chunks = Chunks(chunks: seq<Chunk>, last: seq<byte>, lastExt: seq<byte>, trailers: seq<seq<byte>>)

  /** A size line in hexadecimal, with an extension. */
  ghost predicate IsSizeLine(digits: seq<byte>, ext: seq<byte>, size: nat) {
    && digits != [] && (forall c :: c in digits ==> DigitValue(c) < 16) && Value(digits, 16) == size <= LONG_MAX
    && IsExtension(ext) && 0 !in ext && IsLine(digits + ext)
  }

  ghost predicate IsChunk(c: Chunk) {
    c.data != [] && IsSizeLine(c.size, c.ext, |c.data|)
  }

  ghost predicate IsTrailer(line: seq<byte>) {
    IsLine(line) && line != [] && line[0] != 0
  }

  ghost predicate IsChunks(b: Chunks) {
    && (forall c :: c in b.chunks ==> IsChunk(c))
    && IsSizeLine(b.last, b.lastExt, 0)
    && (forall t :: t in b.trailers ==> IsTrailer(t))
  }

  function TrailersWire(trailers: seq<seq<byte>>): (w: seq<byte>) {
    if trailers == [] then CRLF else trailers[0] + CRLF + TrailersWire(trailers[1..])
  }

  function ChunksWire(chunks: seq<Chunk>, end: seq<byte>): (w: seq<byte>) {
    if chunks == [] then end
    else
      var c := chunks[0];
      c.size + c.ext + CRLF + (c.data + (CRLF + ChunksWire(chunks[1..], end)))
  }

  function EndWire(b: Chunks): (w: seq<byte>) {
    b.last + b.lastExt + CRLF + TrailersWire(b.trailers)
  }

  function ChunksData(chunks: seq<Chunk>): (d: seq<byte>) {
    if chunks == [] then [] else chunks[0].data + ChunksData(chunks[1..])
  }

  lemma {:induction false} TrailersTaken(trailers: seq<seq<byte>>, rest: seq<byte>)
    requires forall t :: t in trailers ==> IsTrailer(t)
    ensures TakeTrailers(TrailersWire(trailers) + rest, LINE_MAX) == Some(rest)
  {
    hide TakeLine;
    if trailers == [] {
      EmptyLineOf(rest);
    } else {
      var t := trailers[0];
      assert t in trailers && CString(t) != [];
      TrailersTaken(trailers[1..], rest);
      var more := TrailersWire(trailers[1..]) + rest;
      assert TrailersWire(trailers) + rest == t + CRLF + more;
      LineOf(t, more);
    }
  }

  lemma {:induction false} ChunksTaken(b: Chunks, chunks: seq<Chunk>, rest: seq<byte>)
    requires IsChunks(b) && forall c :: c in chunks ==> IsChunk(c)
    ensures TakeChunked(ChunksWire(chunks, EndWire(b)) + rest, LINE_MAX) == Some(Taken(ChunksData(chunks), rest))
    decreases |chunks|
  {
    hide TakeLine, ChunkSize, IsLine, TakeTrailers, IsExtension, Value, DigitValue;
    if chunks == [] {
      var after := TrailersWire(b.trailers) + rest;
      assert EndWire(b) + rest == (b.last + b.lastExt) + CRLF + after;
      LineOf(b.last + b.lastExt, after);
      ChunkSizeOfLine(b.last, b.lastExt);
      TrailersTaken(b.trailers, rest);
    } else {
      var c := chunks[0];
      assert c in chunks && IsChunk(c);
      var more := ChunksWire(chunks[1..], EndWire(b));
      SplitChunk(c, more, rest);
      LineOf(c.size + c.ext, c.data + (CRLF + (more + rest)));
      ChunkSizeOfLine(c.size, c.ext);
      EmptyLineOf(more + rest);
      ChunksTaken(b, chunks[1..], rest);
      var u := c.data + (CRLF + (more + rest));
      assert u[..|c.data|] == c.data && u[|c.data|..] == CRLF + (more + rest);
      assert TakeChunk(u, |c.data|, LINE_MAX) == Some(Taken(c.data, more + rest));
    }
  }

  lemma SplitChunk(c: Chunk, more: seq<byte>, rest: seq<byte>)
    ensures c.size + c.ext + CRLF + (c.data + (CRLF + more)) + rest
         == c.size + c.ext + CRLF + (c.data + (CRLF + (more + rest)))
  {
  }

  // ---------------------------------------------------------------- heads

  /** A header line: optional blanks surround the value. */
  datatype Field = Field(name: seq<byte>, before: seq<byte>, value: seq<byte>, after: seq<byte>)

  ghost predicate IsBlanks(s: seq<byte>) {
    forall c :: c in s ==> c == 32 || c == 9
  }

  ghost predicate IsField(f: Field) {
    && f.name != [] && (forall c :: c in f.name ==> c != 0 && c != 58 && !IsSpace(c))
    && IsBlanks(f.before) && IsBlanks(f.after)
    && 0 !in f.value && (f.value != [] ==> !IsSpace(f.value[0]) && !IsSpace(f.value[|f.value| - 1]))
    && IsLine(FieldLine(f))
  }

  function FieldLine(f: Field): (line: seq<byte>) {
    f.name + [58] + (f.before + f.value + f.after)
  }

  function FieldsWire(fields: seq<Field>): (w: seq<byte>) {
    if fields == [] then CRLF else FieldLine(fields[0]) + CRLF + FieldsWire(fields[1..])
  }

  function Entries(fields: seq<Field>): (r: seq<Entry>)
    ensures |r| == |fields|
  {
    if fields == [] then [] else [Entry(fields[0].name, fields[0].value)] + Entries(fields[1..])
  }

  lemma {:induction false} TrimLeftBlanks(blanks: seq<byte>, s: seq<byte>)
    requires IsBlanks(blanks)
    ensures TrimLeft(blanks + s) == TrimLeft(s)
  {
    if blanks == [] {
      assert blanks + s == s;
    } else {
      assert blanks[0] in blanks && (blanks + s)[1..] == blanks[1..] + s;
      assert forall c :: c in blanks[1..] ==> c in blanks;
      TrimLeftBlanks(blanks[1..], s);
    }
  }

  lemma TrimOws(before: seq<byte>, value: seq<byte>, after: seq<byte>)
    requires IsBlanks(before) && IsBlanks(after)
    requires value != [] ==> !IsSpace(value[0]) && !IsSpace(value[|value| - 1])
    ensures Trim(before + value + after) == value
  {
    assert before + value + after == before + (value + after);
    TrimLeftBlanks(before, value + after);
    if value == [] {
      assert value + after == after == after + [];
      TrimLeftBlanks(after, []);
    } else {
      TrimRightBlanks(value, after);
    }
  }

  lemma FieldOfLine(f: Field)
    requires IsField(f)
    ensures FieldOf(FieldLine(f)) == Some(Entry(f.name, f.value)) && !IsTrailerEnd(FieldLine(f))
  {
    hide IndexOf, IsLine, Trim, IsSpace;
    var s, v := FieldLine(f), f.before + f.value + f.after;
    NoNulInLine(f);
    CStringWhole(s);
    assert forall j :: 0 <= j < |f.name| ==> s[j] == f.name[j] && f.name[j] in f.name;
    IndexOfIs(s, 58, |f.name|);
    assert s[..|f.name|] == f.name && s[|f.name| + 1..] == v;
    TrimOws(f.before, f.value, f.after);
    assert f.name[0] in f.name && f.name[|f.name| - 1] in f.name;
    TrimOws([], f.name, []);
    assert [] + f.name + [] == f.name;
  }

  lemma NoNulInLine(f: Field)
    requires IsField(f)
    ensures 0 !in FieldLine(f) && FieldLine(f) != []
  {
  }

  lemma EmptyLineEnds()
    ensures IsTrailerEnd([])
  {
  }

  lemma FieldIsLine(f: Field)
    requires IsField(f)
    ensures IsLine(FieldLine(f))
  {
  }

  lemma FieldAdds(headers: seq<Entry>, f: Field)
    requires IsField(f) && |headers| < RESPONSE_HEADERS_MAX_SIZE
    ensures WithLine(headers, FieldLine(f)) == headers + [Entry(f.name, f.value)] && !IsTrailerEnd(FieldLine(f))
  {
    hide FieldOf, IsTrailerEnd, FieldLine, IsField;
    FieldOfLine(f);
  }

  lemma SplitLine(line: seq<byte>, more: seq<byte>, rest: seq<byte>)
    ensures line + CRLF + more + rest == line + CRLF + (more + rest)
  {
  }

  lemma JoinEntries(headers: seq<Entry>, e: Entry, more: seq<Entry>)
    ensures headers + [e] + more == headers + ([e] + more)
  {
  }

  lemma {:induction false} FieldsTaken(status: nat, headers: seq<Entry>, fields: seq<Field>, rest: seq<byte>)
    requires (forall f :: f in fields ==> IsField(f)) && |headers| + |fields| <= RESPONSE_HEADERS_MAX_SIZE
    ensures TakeFields(status, headers, FieldsWire(fields) + rest, LINE_MAX)
         == Some(Head(status, headers + Entries(fields), rest))
    decreases |fields|
  {
    hide TakeLine, WithLine, IsTrailerEnd, FieldLine, IsField, IsLine;
    if fields == [] {
      EmptyLineOf(rest);
      EmptyLineEnds();
      assert headers + [] == headers;
    } else {
      var f, later := fields[0], fields[1..];
      assert f in fields && forall g :: g in later ==> g in fields;
      FieldIsLine(f);
      FieldAdds(headers, f);
      var more, headers' := FieldsWire(later) + rest, headers + [Entry(f.name, f.value)];
      SplitLine(FieldLine(f), FieldsWire(later), rest);
      LineOf(FieldLine(f), more);
      FieldsTaken(status, headers', later, rest);
      JoinEntries(headers, Entry(f.name, f.value), Entries(later));
    }
  }

  // ---------------------------------------------------------------- whole responses

  datatype BodyForm = Empty | Plain(data: seq<byte>) | InChunks(chunked: Chunks)

  datatype Message = Message(minor: byte, status: seq<byte>, reason: seq<byte>, fields: seq<Field>, body: BodyForm)

  function StatusLine(m: Message): (line: seq<byte>) {
    Ascii("HTTP/1.") + [m.minor, 32] + (m.status + [32] + m.reason)
  }

  function Headers(m: Message): (h: seq<Entry>) {
    [Entry(Ascii(":status"), m.status)] + Entries(m.fields)
  }

  function BodyWire(b: BodyForm): (w: seq<byte>) {
    match b
    case Empty => []
    case Plain(data) => data
    case InChunks(c) => ChunksWire(c.chunks, EndWire(c))
  }

  function BodyData(b: BodyForm): (d: seq<byte>) {
    match b
    case Empty => []
    case Plain(data) => data
    case InChunks(c) => ChunksData(c.chunks)
  }

  function Wire(m: Message): (w: seq<byte>) {
    StatusLine(m) + CRLF + FieldsWire(m.fields) + BodyWire(m.body)
  }

  ghost predicate IsHead(m: Message) {
    && IsDigit(m.minor)
    && |m.status| == 3 && IsDigit(m.status[0]) && IsDigit(m.status[1]) && IsDigit(m.status[2])
    && 0 !in m.reason && IsLine(StatusLine(m))
    && |m.fields| < RESPONSE_HEADERS_MAX_SIZE && forall f :: f in m.fields ==> IsField(f)
  }

  /** 204, 304 or an informational status: no content follows, whatever the fields say (section 6.4.1 of RFC 9110). */
  predicate NoContentStatus(status: seq<byte>) {
    status == [50, 48, 52] || status == [51, 48, 52] || (|status| == 3 && status[0] == 49)
  }

  /** The body has the form its head announces (section 6.3 of RFC 9112). */
  ghost predicate BodyFits(request: seq<byte>, m: Message) {
    var bodyless := Is(request, "HEAD") || NoContentStatus(m.status);
    var chunked := HasToken(HeaderValue(Headers(m), "transfer-encoding"), "chunked");
    match m.body
    case Empty => bodyless
    case InChunks(c) => !bodyless && chunked && IsChunks(c)
    case Plain(data) =>
      && !bodyless && !chunked
      && var length := HeaderValue(Headers(m), "content-length");
         length.Some? && length.value != [] && (forall c :: c in length.value ==> IsDigit(c))
         && Value(length.value, 10) == |data| <= LONG_MAX
  }

  ghost predicate WellFormed(request: seq<byte>, m: Message) {
    IsHead(m) && BodyFits(request, m)
  }

  lemma StatusOfLine(m: Message)
    requires IsHead(m)
    ensures StatusDigits(StatusLine(m)) == Some(m.status)
  {
    hide IsLine, Ascii;
    var s, after := StatusLine(m), m.status + [32] + m.reason;
    assert 0 !in s by { assert 0 !in Ascii("HTTP/1.") by { PrefixHasNoNul(); } }
    CStringWhole(s);
    assert s[..7] == Ascii("HTTP/1.") && s[7..] == [m.minor, 32] + after;
    StatusBehindVersion(m.minor, after);
    hide TrimLeft, SkipToken, CString;
    assert after[..3] == m.status;
  }

  /** Behind the minor version and a blank stands the status. */
  lemma StatusBehindVersion(minor: byte, after: seq<byte>)
    requires IsDigit(minor) && after != [] && IsDigit(after[0])
    ensures TrimLeft(SkipToken([minor, 32] + after)) == after
  {
    var s := [minor, 32] + after;
    assert s[1..] == [32] + after && s[1..][1..] == after;
    assert SkipToken(s) == s[1..];
    assert TrimLeft(after) == after;
  }

  lemma PrefixHasNoNul()
    ensures 0 !in Ascii("HTTP/1.")
  {
    var s := "HTTP/1.";
    assert forall i :: 0 <= i < |s| ==> s[i] as int % 256 != 0;
  }

  lemma HeadTaken(m: Message, rest: seq<byte>)
    requires IsHead(m)
    ensures TakeHead([], StatusLine(m) + CRLF + FieldsWire(m.fields) + rest, LINE_MAX)
         == Some(Head(Value(m.status, 10), Headers(m), rest))
  {
    hide TakeLine, StatusDigits, StatusLine, TakeFields, Ascii, Value, IsField, IsDigit;
    var more := FieldsWire(m.fields) + rest;
    assert StatusLine(m) + CRLF + FieldsWire(m.fields) + rest == StatusLine(m) + CRLF + more;
    LineOf(StatusLine(m), more);
    StatusOfLine(m);
    var first := Entry(Ascii(":status"), m.status);
    assert WithHeader([], first) == [first];
    FieldsTaken(Value(m.status, 10), [first], m.fields, rest);
  }

  lemma ThreeDigits(status: seq<byte>)
    requires |status| == 3 && IsDigit(status[0]) && IsDigit(status[1]) && IsDigit(status[2])
    ensures Value(status, 10)
         == 100 * (status[0] as int - 48) + 10 * (status[1] as int - 48) + (status[2] as int - 48)
  {
    assert status[..2][..1] == status[..1] && status[..2][1] == status[1] && status[..1][..0] == [];
    assert Value(status[..1], 10) == status[0] as int - 48;
    assert Value(status[..2], 10) == 10 * (status[0] as int - 48) + (status[1] as int - 48);
  }

  /** The framing has no body exactly for these statuses, and for HEAD. */
  lemma NoContentIff(request: seq<byte>, m: Message)
    requires IsHead(m)
    ensures FramingOf(request, Value(m.status, 10), Headers(m)) == NoBody
       <==> Is(request, "HEAD") || NoContentStatus(m.status)
  {
    hide Is, HeaderValue, HasToken, Strtol, Value, Headers, IsField, IsLine, StatusLine;
    ThreeDigits(m.status);
  }

  /** A head of such a status, or in answer to HEAD, is the whole response, whatever its fields announce. */
  lemma HeadIsWhole(request: seq<byte>, m: Message, rest: seq<byte>)
    requires IsHead(m) && (Is(request, "HEAD") || NoContentStatus(m.status))
    ensures TakeReply(request, StatusLine(m) + CRLF + FieldsWire(m.fields) + rest, LINE_MAX)
         == Some(Reply(Headers(m), [], rest))
  {
    hide TakeHead, IsHead, Headers, FramingOf, Value, StatusLine, NoContentStatus, Is;
    HeadTaken(m, rest);
    NoContentIff(request, m);
  }

  lemma BodyTaken(request: seq<byte>, m: Message, rest: seq<byte>)
    requires IsHead(m) && BodyFits(request, m)
    ensures TakeBody(FramingOf(request, Value(m.status, 10), Headers(m)), BodyWire(m.body) + rest, LINE_MAX)
         == Some(Taken(BodyData(m.body), rest))
  {
    hide Headers, HeaderValue, HasToken, Is, Strtol, TakeChunked, Value, IsBodyless, IsField, IsLine, StatusLine;
    hide NoContentStatus;
    NoContentIff(request, m);
    match m.body {
      case Empty => {
        assert [] + rest == rest;
      }
      case InChunks(c) => {
        ChunksTaken(c, c.chunks, rest);
      }
      case Plain(data) => {
        StrtolOfDigits(HeaderValue(Headers(m), "content-length").value, 10);
        var u := data + rest;
        assert u[..|data|] == data && u[|data|..] == rest;
      }
    }
  }

  /** A well-formed response is read as its headers and exactly its body, up to exactly its end. */
  lemma MessageTaken(request: seq<byte>, m: Message, rest: seq<byte>)
    requires WellFormed(request, m)
    ensures TakeReply(request, Wire(m) + rest, LINE_MAX) == Some(Reply(Headers(m), BodyData(m.body), rest))
  {
    hide TakeHead, TakeBody, IsHead, BodyFits, Headers, FramingOf, Value, StatusLine;
    var w := StatusLine(m) + CRLF + FieldsWire(m.fields);
    assert Wire(m) + rest == w + (BodyWire(m.body) + rest);
    HeadTaken(m, BodyWire(m.body) + rest);
    BodyTaken(request, m, rest);
  }
}
