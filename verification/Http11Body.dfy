/** HTTP/1.1 body framing: chunked, by content length, and until the connection closes. */
module Http11Body {
  import opened Octets
  import opened HpackPrimitives
  import opened DynamicTable
  import opened Frames
  import opened ResponseSink
  import opened Http11Text
  import opened Http11Reader

  // ---------------------------------------------------------------- what the octets say

  /** Whether a line ends the trailer section. */
  predicate IsTrailerEnd(line: seq<byte>) {
    CString(line) == []
  }

  /** The octets behind the trailer section. */
  function TakeTrailers(u: seq<byte>, limit: nat): (r: Option<seq<byte>>)
    decreases |u|
  {
    match TakeLine(u, limit)
    case None => None
    case Some(line) => if IsTrailerEnd(line.text) then Some(line.rest) else TakeTrailers(line.rest, limit)
  }

  datatype Taken = Taken(data: seq<byte>, rest: seq<byte>)

  /** The data of a chunk, and the octets behind the line that ends it. */
  function TakeChunk(u: seq<byte>, size: nat, limit: nat): (r: Option<Taken>)
    ensures r.Some? ==> |r.value.rest| < |u| - size
  {
    if size > |u| then None
    else
      match TakeLine(u[size..], limit)
      case None => None
      case Some(crlf) => Some(Taken(u[..size], crlf.rest))
  }

  /** The chunked body at the front of the octets still to come. */
  function TakeChunked(u: seq<byte>, limit: nat): (r: Option<Taken>)
    decreases |u|
  {
    match TakeLine(u, limit)
    case None => None
    case Some(line) => AfterSize(ChunkSize(line.text), line.rest, limit)
  }

  function AfterSize(size: int, u: seq<byte>, limit: nat): (r: Option<Taken>)
    decreases |u|
  {
    if size < 0 then None
    else if size == 0 then
      match TakeTrailers(u, limit)
      case None => None
      case Some(rest) => Some(Taken([], rest))
    else
      match TakeChunk(u, size, limit)
      case None => None
      case Some(chunk) => Before(chunk.data, TakeChunked(chunk.rest, limit))
  }

  function Before(data: seq<byte>, more: Option<Taken>): (r: Option<Taken>) {
    match more
    case None => None
    case Some(taken) => Some(Taken(data + taken.data, taken.rest))
  }

  /** The octets still to come end within the trailer section. */
  predicate TrailersCut(u: seq<byte>, limit: nat)
    decreases |u|
  {
    || EndsInLine(u, limit)
    || (var line := TakeLine(u, limit);
        line.Some? && !IsTrailerEnd(line.value.text) && TrailersCut(line.value.rest, limit))
  }

  /** The data in front of the end, when the octets still to come end within the chunked body. */
  function ChunkedCut(u: seq<byte>, limit: nat): (r: Option<seq<byte>>)
    decreases |u|
  {
    if EndsInLine(u, limit) then Some([])
    else
      match TakeLine(u, limit)
      case None => None
      case Some(line) => CutAfterSize(ChunkSize(line.text), line.rest, limit)
  }

  function CutAfterSize(size: int, u: seq<byte>, limit: nat): (r: Option<seq<byte>>)
    decreases |u|
  {
    if size < 0 then None
    else if size == 0 then if TrailersCut(u, limit) then Some([]) else None
    else if size > |u| then Some(u)
    else if EndsInLine(u[size..], limit) then Some(u[..size])
    else
      match TakeChunk(u, size, limit)
      case None => None
      case Some(chunk) => match ChunkedCut(chunk.rest, limit)
                          case None => None
                          case Some(more) => Some(chunk.data + more)
  }

  /** A line found within a limit is found within every larger one. */
  lemma LimitGrows(u: seq<byte>, m: nat, n: nat)
    requires TakeLine(u, m).Some? && (m <= n || |u| <= n)
    ensures TakeLine(u, n) == TakeLine(u, m)
  {
  }

  lemma BeforeTwice(a: seq<byte>, b: seq<byte>, more: Option<Taken>)
    ensures Before(a, Before(b, more)) == Before(a + b, more)
  {
    if more.Some? {
      assert (a + b) + more.value.data == a + (b + more.value.data);
    }
  }

  // ---------------------------------------------------------------- reading it

  /** Consumes the trailers up to the empty line. */
  method ReadTrailers(reader: Reader) returns (rc: int)
    requires reader.Valid()
    modifies reader, reader.buf
    ensures reader.Valid() && (reader.buf == old(reader.buf) || fresh(reader.buf)) && rc in {1, 0, -1, -2}
    ensures rc == 1 && old(reader.Lean(0)) ==> reader.Lean(0)
    ensures rc == 1 ==> TakeTrailers(old(reader.Unread()), |old(reader.Unread())|) == Some(reader.Unread())
    ensures TakeTrailers(old(reader.Unread()), LINE_MAX).Some? && old(reader.len) < MAX_HEADER_SECTION ==>
              rc == 1 && reader.len < MAX_HEADER_SECTION
    ensures TrailersCut(old(reader.Unread()), LINE_MAX) && old(reader.len) < MAX_HEADER_SECTION ==> rc == reader.ending
  {
    hide TakeLine, EndsInLine, IsTrailerEnd, Reader.Unread, Reader.Valid, Reader.Lean;
    ghost var u, small := reader.Unread(), reader.len < MAX_HEADER_SECTION;
    while true
      invariant reader.Valid() && (reader.buf == old(reader.buf) || fresh(reader.buf)) && |reader.Unread()| <= |u|
      invariant old(reader.Lean(0)) ==> reader.Lean(0)
      invariant TakeTrailers(u, |u|) == TakeTrailers(reader.Unread(), |u|)
      invariant small && TakeTrailers(u, LINE_MAX).Some? ==>
                  TakeTrailers(reader.Unread(), LINE_MAX).Some? && reader.len < MAX_HEADER_SECTION
      invariant small && TrailersCut(u, LINE_MAX) ==>
                  TrailersCut(reader.Unread(), LINE_MAX) && reader.len < MAX_HEADER_SECTION
      decreases |reader.Unread()|
    {
      ghost var t := reader.Unread();
      var line;
      rc, line := reader.ReadLine();
      if rc != 1 {
        return;
      }
      LinesAgree(t, |u|);
      if IsTrailerEnd(line) {
        return 1;
      }
    }
  }

  /** The line that was read is the line both limits find, if they find one. */
  lemma LinesAgree(t: seq<byte>, n: nat)
    requires TakeLine(t, |t|).Some? && |t| <= n
    ensures TakeLine(t, n) == TakeLine(t, |t|)
    ensures TakeLine(t, LINE_MAX).Some? ==> TakeLine(t, LINE_MAX) == TakeLine(t, |t|)
    ensures !EndsInLine(t, LINE_MAX)
  {
  }

  /** One chunk's data and the line end behind it. */
  method ReadChunk(reader: Reader, stream: Stream, size: nat) returns (rc: int)
    requires reader.Valid() && SinkIsSound(stream.State())
    modifies reader, reader.buf, stream, stream.sink
    ensures reader.Valid() && (reader.buf == old(reader.buf) || fresh(reader.buf)) && rc in {1, 0, -1, -2}
    ensures OnlyData(old(stream.State()), stream.State()) && SinkIsSound(stream.State())
    ensures rc == 1 && old(reader.Lean(0)) ==> reader.Lean(0)
    ensures rc == 1 ==> |reader.Unread()| < |old(reader.Unread())|
    ensures PassesThrough(old(stream.State())) ==>
              && PassesThrough(stream.State()) && stream.State().error == old(stream.State()).error
              && (rc == 1 ==>
                    && size <= |old(reader.Unread())|
                    && TakeChunk(old(reader.Unread()), size, |old(reader.Unread())|)
                       == Some(Taken(old(reader.Unread())[..size], reader.Unread()))
                    && Body(stream.State()) == Body(old(stream.State())) + old(reader.Unread())[..size])
    ensures PassesThrough(old(stream.State())) && old(reader.len) < MAX_HEADER_SECTION ==>
              TakeChunk(old(reader.Unread()), size, LINE_MAX).Some? ==> rc == 1 && reader.len < MAX_HEADER_SECTION
    ensures PassesThrough(old(stream.State())) && old(reader.len) < MAX_HEADER_SECTION ==>
              var u := old(reader.Unread());
              && (size > |u| ==> rc == reader.ending && Body(stream.State()) == Body(old(stream.State())) + u)
              && (size <= |u| && EndsInLine(u[size..], LINE_MAX) ==>
                    rc == reader.ending && Body(stream.State()) == Body(old(stream.State())) + u[..size])
  {
    hide PassesThrough, Body, SinkIsSound, OnlyData, Stream.State, Reader.Unread, Reader.Valid, Reader.Lean, TakeLine;
    hide EndsInLine;
    ghost var u := reader.Unread();
    rc := reader.ReadBody(stream, size);
    if rc != 1 {
      return;
    }
    ghost var t := reader.Unread();
    var crlf;
    rc, crlf := reader.ReadLine();
    if rc == 1 {
      LinesAgree(t, |u|);
    }
  }

  /** 1 with the whole chunked body delivered, or the end code of the reader. */
  method ReadChunkedBody(reader: Reader, stream: Stream) returns (rc: int)
    requires reader.Valid() && SinkIsSound(stream.State())
    modifies reader, reader.buf, stream, stream.sink
    ensures reader.Valid() && (reader.buf == old(reader.buf) || fresh(reader.buf)) && rc in {1, 0, -1, -2}
    ensures OnlyData(old(stream.State()), stream.State()) && SinkIsSound(stream.State())
    ensures rc == 1 && old(reader.Lean(0)) ==> reader.Lean(0)
    ensures PassesThrough(old(stream.State())) ==>
              PassesThrough(stream.State()) && stream.State().error == old(stream.State()).error
    ensures PassesThrough(old(stream.State())) && rc == 1 ==>
              var taken := TakeChunked(old(reader.Unread()), |old(reader.Unread())|);
              && taken.Some? && reader.Unread() == taken.value.rest
              && Body(stream.State()) == Body(old(stream.State())) + taken.value.data
    ensures PassesThrough(old(stream.State())) && old(reader.len) < MAX_HEADER_SECTION ==>
              TakeChunked(old(reader.Unread()), LINE_MAX).Some? ==> rc == 1
    ensures PassesThrough(old(stream.State())) && old(reader.len) < MAX_HEADER_SECTION ==>
              var cut := ChunkedCut(old(reader.Unread()), LINE_MAX);
              cut.Some? ==> rc == reader.ending && Body(stream.State()) == Body(old(stream.State())) + cut.value
  {
    hide PassesThrough, Body, SinkIsSound, OnlyData, Stream.State, Reader.Unread, Reader.Valid, Reader.Lean;
    hide TakeLine, TakeTrailers, TrailersCut, TakeChunked, TakeChunk, ChunkSize, EndsInLine, ChunkedCut, Sofar;
    ghost var s0, u := stream.State(), reader.Unread();
    ghost var pass, small := PassesThrough(s0), reader.len < MAX_HEADER_SECTION;
    ghost var short := TakeChunked(u, LINE_MAX).Some? || ChunkedCut(u, LINE_MAX).Some?;
    ghost var acc: seq<byte> := [];
    OnlyDataRefl(s0);
    NothingYet(u, Body(s0));
    assert reader.ending <= 0 by { TransportEnds(reader); }
    while true
      invariant reader.Valid() && (reader.buf == old(reader.buf) || fresh(reader.buf)) && |reader.Unread()| <= |u|
      invariant OnlyData(s0, stream.State()) && SinkIsSound(stream.State())
      invariant old(reader.Lean(0)) ==> reader.Lean(0)
      invariant pass ==>
                  && PassesThrough(stream.State()) && stream.State().error == s0.error
                  && Body(stream.State()) == Body(s0) + acc && Sofar(u, reader.Unread(), acc)
      invariant pass && small && short ==> reader.len < MAX_HEADER_SECTION
      decreases |reader.Unread()|
    {
      ghost var t := reader.Unread();
      if pass {
        LineNeeded(u, t, acc);
      }
      var sizeLine;
      rc, sizeLine := reader.ReadLine();
      if rc != 1 {
        return;
      }
      var size := ChunkSize(sizeLine);
      ghost var v := reader.Unread();
      if pass {
        SizeNeeded(u, t, Line(sizeLine, v), size, acc);
      }
      if size < 0 {
        return -1;
      }
      if size == 0 {
        rc := ReadTrailers(reader);
        if rc == 1 && pass {
          LastChunk(u, t, Line(sizeLine, v), reader.Unread(), acc);
        }
        return;
      }
      ghost var s := stream.State();
      rc := ReadChunk(reader, stream, size);
      OnlyDataTransitive(s0, s, stream.State());
      Appending(Body(s0), acc, v);
      if rc != 1 {
        return;
      }
      if pass {
        Appending(Body(s0), acc, v[..size]);
        ChunkTaken(u, t, Line(sizeLine, v), size, reader.Unread(), acc);
        acc := acc + v[..size];
      }
    }
  }

  /** What of a chunked body u is left to read after `acc`: t, whether the body is whole or cut short. */
  ghost predicate Sofar(u: seq<byte>, t: seq<byte>, acc: seq<byte>) {
    && |t| <= |u| && TakeChunked(u, |u|) == Before(acc, TakeChunked(t, |u|))
    && (TakeChunked(u, LINE_MAX).Some? ==> TakeChunked(t, LINE_MAX).Some?)
    && (ChunkedCut(u, LINE_MAX).Some? ==>
          && ChunkedCut(t, LINE_MAX).Some?
          && ChunkedCut(u, LINE_MAX).value == acc + ChunkedCut(t, LINE_MAX).value)
  }

  lemma TransportEnds(reader: Reader)
    requires reader.Valid()
    ensures reader.ending <= 0
  {
  }

  lemma NothingYet(u: seq<byte>, body: seq<byte>)
    ensures Sofar(u, u, []) && body + [] == body
  {
    hide TakeChunked, ChunkedCut;
    BeforeNothing(TakeChunked(u, |u|), body);
    assert ChunkedCut(u, LINE_MAX).Some? ==>
        [] + ChunkedCut(u, LINE_MAX).value == ChunkedCut(u, LINE_MAX).value;
  }

  lemma Appending(body: seq<byte>, acc: seq<byte>, data: seq<byte>)
    ensures (body + acc) + data == body + (acc + data)
  {
  }

  /** A body that is cut short ends within the line at its front, or has that line. */
  lemma LineNeeded(u: seq<byte>, t: seq<byte>, acc: seq<byte>)
    requires Sofar(u, t, acc)
    ensures TakeChunked(u, LINE_MAX).Some? ==> TakeLine(t, LINE_MAX).Some?
    ensures ChunkedCut(u, LINE_MAX).Some? ==>
              if EndsInLine(t, LINE_MAX) then ChunkedCut(u, LINE_MAX).value == acc else TakeLine(t, LINE_MAX).Some?
  {
    hide EndsInLine, TakeLine, CutAfterSize, AfterSize;
    assert acc + [] == acc;
  }

  /** Behind the size, what is needed next: the trailers, or the chunk; a body may end within either. */
  lemma SizeNeeded(u: seq<byte>, t: seq<byte>, line: Line, size: int, acc: seq<byte>)
    requires Sofar(u, t, acc) && TakeLine(t, |t|) == Some(line) && size == ChunkSize(line.text)
    ensures TakeChunked(u, LINE_MAX).Some? ==>
              && size >= 0 && (size == 0 ==> TakeTrailers(line.rest, LINE_MAX).Some?)
              && (size > 0 ==> TakeChunk(line.rest, size, LINE_MAX).Some?)
    ensures ChunkedCut(u, LINE_MAX).Some? ==>
              var v, cut := line.rest, ChunkedCut(u, LINE_MAX).value;
              && size >= 0 && (size == 0 ==> TrailersCut(v, LINE_MAX) && cut == acc)
              && (size > |v| ==> cut == acc + v)
              && (0 < size <= |v| ==>
                    if EndsInLine(v[size..], LINE_MAX) then cut == acc + v[..size]
                    else TakeChunk(v, size, LINE_MAX).Some?)
  {
    hide EndsInLine, TakeLine, TakeTrailers, TrailersCut, TakeChunk, ChunkSize;
    LinesAgree(t, |t|);
    if TakeChunked(u, LINE_MAX).Some? {
      assert TakeChunked(t, LINE_MAX) == AfterSize(size, line.rest, LINE_MAX);
    }
    if ChunkedCut(u, LINE_MAX).Some? {
      assert ChunkedCut(t, LINE_MAX) == CutAfterSize(size, line.rest, LINE_MAX);
      assert acc + [] == acc;
    }
  }

  lemma LastChunk(u: seq<byte>, t: seq<byte>, line: Line, rest: seq<byte>, acc: seq<byte>)
    requires Sofar(u, t, acc) && TakeLine(t, |t|) == Some(line) && ChunkSize(line.text) == 0
    requires TakeTrailers(line.rest, |line.rest|) == Some(rest)
    ensures TakeChunked(u, |u|) == Some(Taken(acc, rest))
  {
    hide EndsInLine, TakeLine, TakeTrailers, ChunkSize, ChunkedCut;
    LinesAgree(t, |u|);
    TrailersAgree(line.rest, |u|);
    assert TakeChunked(t, |u|) == AfterSize(0, line.rest, |u|);
    BeforeLast(acc, rest);
  }

  lemma ChunkTaken(u: seq<byte>, t: seq<byte>, line: Line, size: int, rest: seq<byte>, acc: seq<byte>)
    requires Sofar(u, t, acc) && TakeLine(t, |t|) == Some(line) && size == ChunkSize(line.text)
    requires 0 < size <= |line.rest|
    requires TakeChunk(line.rest, size, |line.rest|) == Some(Taken(line.rest[..size], rest))
    ensures Sofar(u, rest, acc + line.rest[..size])
  {
    hide EndsInLine, TakeLine, TakeTrailers, TrailersCut, TakeChunk, ChunkSize, Before;
    var v := line.rest;
    LinesAgree(t, |u|);
    ChunksAgree(v, size, |u|);
    BeforeTwice(acc, v[..size], TakeChunked(rest, |u|));
    BeforeSome(v[..size], TakeChunked(rest, LINE_MAX));
    ChunkEndsLater(v, size);
    if TakeChunked(u, LINE_MAX).Some? {
      assert TakeChunked(t, LINE_MAX) == AfterSize(size, v, LINE_MAX);
    }
    assert TakeChunked(t, |u|) == AfterSize(size, v, |u|);
    if ChunkedCut(u, LINE_MAX).Some? {
      assert ChunkedCut(t, LINE_MAX) == CutAfterSize(size, v, LINE_MAX);
      var more := ChunkedCut(rest, LINE_MAX).value;
      assert acc + (v[..size] + more) == (acc + v[..size]) + more;
    }
  }

  lemma ChunkEndsLater(v: seq<byte>, size: nat)
    requires size <= |v| && TakeChunk(v, size, |v|).Some?
    ensures !EndsInLine(v[size..], LINE_MAX)
  {
  }

  lemma BeforeNothing(more: Option<Taken>, body: seq<byte>)
    ensures Before([], more) == more && body + [] == body
  {
    assert more.Some? ==> [] + more.value.data == more.value.data;
  }

  lemma BeforeLast(acc: seq<byte>, rest: seq<byte>)
    ensures Before(acc, Some(Taken([], rest))) == Some(Taken(acc, rest))
  {
    assert acc + [] == acc;
  }

  lemma BeforeSome(data: seq<byte>, more: Option<Taken>)
    ensures Before(data, more).Some? <==> more.Some?
  {
  }

  lemma ChunksAgree(t: seq<byte>, size: nat, n: nat)
    requires TakeChunk(t, size, |t|).Some? && |t| <= n
    ensures TakeChunk(t, size, n) == TakeChunk(t, size, |t|)
    ensures TakeChunk(t, size, LINE_MAX).Some? ==> TakeChunk(t, size, LINE_MAX) == TakeChunk(t, size, |t|)
  {
  }

  lemma {:induction false} TrailersAgree(t: seq<byte>, n: nat)
    requires |t| <= n && TakeTrailers(t, |t|).Some?
    ensures TakeTrailers(t, n) == TakeTrailers(t, |t|)
    decreases |t|
  {
    TrailersMonotone(t, |t|, n);
  }

  lemma {:induction false} TrailersMonotone(t: seq<byte>, m: nat, n: nat)
    requires TakeTrailers(t, m).Some? && m <= n
    ensures TakeTrailers(t, n) == TakeTrailers(t, m)
    decreases |t|
  {
    hide IsTrailerEnd;
    LimitGrows(t, m, n);
    var line := TakeLine(t, m).value;
    if !IsTrailerEnd(line.text) {
      TrailersMonotone(line.rest, m, n);
    }
  }

  /** 1 with exactly the announced octets delivered; a body the peer cuts short ends with the reader's end code. */
  method ReadContentLengthBody(reader: Reader, stream: Stream, bodyLen: nat) returns (rc: int)
    requires reader.Valid() && SinkIsSound(stream.State())
    modifies reader, reader.buf, stream, stream.sink
    ensures reader.Valid() && (reader.buf == old(reader.buf) || fresh(reader.buf)) && rc in {1, 0, -1, -2}
    ensures OnlyData(old(stream.State()), stream.State()) && SinkIsSound(stream.State())
    ensures rc == 1 && old(reader.Lean(0)) ==> reader.Lean(0)
    ensures PassesThrough(old(stream.State())) ==>
              var u := old(reader.Unread()); var n := if bodyLen <= |u| then bodyLen else |u|;
              && PassesThrough(stream.State()) && stream.State().error == old(stream.State()).error
              && rc == (if bodyLen <= |u| then 1 else reader.ending)
              && Body(stream.State()) == Body(old(stream.State())) + u[..n] && reader.Unread() == u[n..]
  {
    hide PassesThrough, Body, SinkIsSound, OnlyData, Stream.State, Reader.Unread, Reader.Valid, Reader.Lean;
    ghost var u := reader.Unread();
    assert u[..0] == [] && u[0..] == u && u[..|u|] == u && u[|u|..] == [];
    if bodyLen == 0 {
      OnlyDataRefl(stream.State());
      assert Body(stream.State()) + [] == Body(stream.State());
      return 1;
    }
    rc := reader.ReadBody(stream, bodyLen);
  }

  /**
   Reads from the transport itself until it ends. What the reader had buffered along with the head is left behind, so
   the body is whole exactly when nothing was.
   */
  method ReadUntilCloseBody(reader: Reader, stream: Stream) returns (rc: int)
    requires reader.Valid() && SinkIsSound(stream.State())
    modifies reader`chunks, stream, stream.sink
    ensures reader.Valid() && rc in {0, -1, -2}
    ensures OnlyData(old(stream.State()), stream.State()) && SinkIsSound(stream.State())
    ensures PassesThrough(old(stream.State())) ==>
              && PassesThrough(stream.State()) && stream.State().error == old(stream.State()).error
              && rc == reader.ending
              && Body(stream.State()) == Body(old(stream.State())) + Concat(old(reader.chunks))
              && (Body(stream.State()) == Body(old(stream.State())) + old(reader.Unread())
                  <==> reader.len == reader.pos)
  {
    hide PassesThrough, Body, SinkIsSound, OnlyData, Stream.State, Concat;
    ghost var s0, c0 := stream.State(), reader.chunks;
    ghost var pass := PassesThrough(s0);
    ghost var done: seq<byte> := [];
    OnlyDataRefl(s0);
    assert Body(s0) + [] == Body(s0) && Concat(c0) == [] + Concat(c0);
    while reader.chunks != []
      invariant reader.Valid()
      invariant OnlyData(s0, stream.State()) && SinkIsSound(stream.State())
      invariant Concat(c0) == done + Concat(reader.chunks)
      invariant pass ==>
                  && PassesThrough(stream.State()) && stream.State().error == s0.error
                  && Body(stream.State()) == Body(s0) + done
      decreases |reader.chunks|
    {
      var chunk := reader.chunks[0];
      ChunkMoves(reader.chunks, done, Body(s0));
      reader.chunks := reader.chunks[1..];
      BodyStep(s0, stream.State(), chunk);
      var keep := stream.AppendStreamPayload(chunk);
      done := done + chunk;
      if !keep {
        return -1;
      }
    }
    assert done + Concat([]) == done by { NothingToCome(done); }
    WholeIff(Body(s0), reader.buf[reader.pos..reader.len], done);
    rc := reader.ending;
  }

  lemma NothingToCome(done: seq<byte>)
    ensures done + Concat([]) == done
  {
  }

  lemma ChunkMoves(chunks: seq<seq<byte>>, done: seq<byte>, body: seq<byte>)
    requires chunks != []
    ensures done + Concat(chunks) == (done + chunks[0]) + Concat(chunks[1..])
    ensures (body + done) + chunks[0] == body + (done + chunks[0])
  {
  }

  lemma WholeIff(body: seq<byte>, buffered: seq<byte>, later: seq<byte>)
    ensures body + later == body + (buffered + later) <==> buffered == []
  {
    if buffered != [] {
      assert |body + (buffered + later)| > |body + later|;
    } else {
      assert buffered + later == later;
    }
  }
}
