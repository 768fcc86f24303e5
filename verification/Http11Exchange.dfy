/** One HTTP/1.1 exchange: what it calls, what it delivers, and whether the connection may be used again. */
module Http11Exchange {
  import opened Octets
  import opened HpackPrimitives
  import opened DynamicTable
  import opened StaticTable
  import opened RequestHeaders
  import opened Frames
  import opened ResponseSink
  import opened Http11Text
  import opened Http11Reader
  import opened Http11Body
  import opened Http11Response
  import opened Http11Message

  /** A pooled connection: what its transport is still to deliver, in which reads, and how it ends. */
  class HttpSession {
    var goingAway: bool
    var incoming: seq<seq<byte>>
    const ending: int

    ghost predicate Valid()
      reads this
    {
      ValidTransport(incoming, ending)
    }

    constructor (incoming: seq<seq<byte>>, ending: int)
      requires ValidTransport(incoming, ending)
      ensures Valid() && !goingAway && this.incoming == incoming && this.ending == ending
    {
      goingAway, this.incoming, this.ending := false, incoming, ending;
    }
  }

  /** The peer announced that it closes the connection. */
  predicate ClosedByPeer(headers: seq<Entry>) {
    HasToken(HeaderValue(headers, "connection"), "close")
  }

  /** One onHeaders with the headers, unless there is an error instead; then body calls; then one onComplete. */
  ghost predicate IsExchange(trace: seq<Event>, headers: seq<Entry>, error: Error) {
    exists i, n :: 0 <= i <= 1 && i <= n && |trace| == n + 1 && CallsAre(trace, i, n, headers, error)
  }

  ghost predicate CallsAre(trace: seq<Event>, i: nat, n: nat, headers: seq<Entry>, error: Error)
    requires i <= n && |trace| == n + 1
  {
    && (forall j :: 0 <= j < i ==> trace[j] == OnHeaders(headers))
    && (forall j :: i <= j < n ==> trace[j].OnData?)
    && (i == 0 ==> n == 0 && error != NoError)
    && trace[n] == OnComplete(error)
  }

  /** Nothing was called, or the headers were delivered and then only body. */
  ghost predicate Responded(s0: StreamState, s: StreamState) {
    || (s.sink == s0.sink && s.error != NoError && s.payload == s0.payload)
    || OnlyData(HeadersDelivered(s0.(headers := s.headers)), s)
  }

  lemma HeadersKeepErrors(s: StreamState)
    requires SinkIsSound(s)
    ensures SinkIsSound(HeadersDelivered(s))
  {
    hide SinkInv;
    HeadersDeliveredKeepsInv(s);
  }

  lemma TakingCancellation(s0: StreamState, s: StreamState)
    requires OnlyData(s0, s) && SinkIsSound(s)
    ensures OnlyData(s0, CancellationTaken(s).0) && SinkIsSound(CancellationTaken(s).0)
    ensures CancellationTaken(s).0.error == s.error && Body(CancellationTaken(s).0) == Body(s)
    ensures s.error == NoError ==> !CancellationTaken(s).1
  {
    hide SinkInv;
    CancellationKeepsInv(s);
  }

  /**
   What an exchange gets out of a transport's reads when everything is passed on. A response whose end its framing
   tells is delivered exactly, and the connection stays usable unless the peer announced its end; what the connection
   still holds afterwards are the reads not yet made, since the reader's buffer goes with the exchange. A body cut
   short of its content-length or within its chunks is an error exactly when the connection did not simply close, and
   keeps the connection in use otherwise. A body until the close is what the reads behind the head's bring.
   */
  ghost predicate Delivers(request: seq<byte>, chunks: seq<seq<byte>>, ending: int, s0: StreamState, s: StreamState,
                           left: seq<seq<byte>>, was: bool, now: bool)
  {
    var u := Concat(chunks);
    && (TakeReply(request, u, LINE_MAX).Some? ==>
          var reply := TakeReply(request, u, LINE_MAX).value;
          && s.error == NoError && s.headers == reply.headers && Body(s) == Body(s0) + reply.body
          && left == chunks[ReadsFor(chunks, |u| - |reply.rest|)..] && now == (was || ClosedByPeer(reply.headers)))
    && (TakeHead([], u, LINE_MAX).Some? ==>
          var head := TakeHead([], u, LINE_MAX).value;
          var f := FramingOf(request, head.status, head.headers);
          && (f.Length? && f.n > |head.rest| ==> CutShort(head, head.rest, ending, s0, s, was, now))
          && (f.Chunked? && ChunkedCut(head.rest, LINE_MAX).Some? ==>
                CutShort(head, ChunkedCut(head.rest, LINE_MAX).value, ending, s0, s, was, now))
          && (f.UntilClose? ==>
                && (s.error == NoError <==> ending == 0) && now
                && Body(s) == Body(s0) + Concat(chunks[ReadsFor(chunks, |u| - |head.rest|)..])))
  }

  /** All that came of the body is delivered; that there was to be more is an error only when the transport failed. */
  ghost predicate CutShort(head: Head, part: seq<byte>, ending: int, s0: StreamState, s: StreamState, was: bool,
                           now: bool)
  {
    && (s.error == NoError <==> ending == 0) && Body(s) == Body(s0) + part
    && now == (was || ending != 0 || ClosedByPeer(head.headers))
  }

  /** A body until the close is whole if and only if some read ended right behind the head. */
  lemma UntilCloseWholeIff(request: seq<byte>, chunks: seq<seq<byte>>, ending: int, s0: StreamState, s: StreamState,
                           left: seq<seq<byte>>, was: bool, now: bool, head: Head)
    requires Delivers(request, chunks, ending, s0, s, left, was, now) && ValidTransport(chunks, ending)
    requires TakeHead([], Concat(chunks), LINE_MAX) == Some(head)
    requires FramingOf(request, head.status, head.headers).UntilClose?
    ensures |head.rest| <= |Concat(chunks)|
    ensures Body(s) == Body(s0) + head.rest <==> EndsAtRead(chunks, |Concat(chunks)| - |head.rest|)
  {
    hide TakeReply, TakeHead, FramingOf, Body, ClosedByPeer, EndsAtRead, Concat, CutShort, ChunkedCut, ReadsFor;
    var u := Concat(chunks);
    HeadTakesFront([], u, LINE_MAX);
    LeftIsRestIff(chunks, |u| - |head.rest|);
    SamePrefix(Body(s0), head.rest, Concat(chunks[ReadsFor(chunks, |u| - |head.rest|)..]));
  }

  lemma SamePrefix(a: seq<byte>, b: seq<byte>, c: seq<byte>)
    ensures a + b == a + c <==> b == c
  {
    if a + b == a + c {
      assert b == (a + b)[|a|..] && c == (a + c)[|a|..];
    }
  }

  /**
   A well-formed response, however the transport cut it: its headers and exactly its body are delivered, and the
   connection stays usable unless its peer said otherwise. The connection is left exactly at the message's end if and
   only if some read of the transport ended there; otherwise what was read along with the message's end is lost.
   */
  lemma MessageDelivered(request: seq<byte>, m: Message, after: seq<byte>, chunks: seq<seq<byte>>, ending: int,
                         s0: StreamState, s: StreamState, left: seq<seq<byte>>, was: bool, now: bool)
    requires WellFormed(request, m) && Concat(chunks) == Wire(m) + after && ValidTransport(chunks, ending)
    requires Delivers(request, chunks, ending, s0, s, left, was, now)
    ensures s.error == NoError && s.headers == Headers(m) && Body(s) == Body(s0) + BodyData(m.body)
    ensures now == (was || ClosedByPeer(Headers(m)))
    ensures left == chunks[ReadsFor(chunks, |Wire(m)|)..]
    ensures Concat(left) == after <==> EndsAtRead(chunks, |Wire(m)|)
  {
    hide TakeReply, TakeHead, FramingOf, WellFormed, Wire, Headers, BodyData, Body, ClosedByPeer, EndsAtRead, Concat;
    MessageTaken(request, m, after);
    LeftIsRestIff(chunks, |Wire(m)|);
    assert (Wire(m) + after)[|Wire(m)|..] == after;
  }

  /** Its caller is told exactly its headers first. */
  lemma MessageIsTold(request: seq<byte>, m: Message, after: seq<byte>, chunks: seq<seq<byte>>, ending: int,
                      s0: StreamState, s: StreamState, left: seq<seq<byte>>, was: bool, now: bool, trace: seq<Event>)
    requires WellFormed(request, m) && Concat(chunks) == Wire(m) + after && ValidTransport(chunks, ending)
    requires Delivers(request, chunks, ending, s0, s, left, was, now) && IsExchange(trace, s.headers, s.error)
    ensures trace != [] && trace[0] == OnHeaders(Headers(m)) && trace[|trace| - 1] == OnComplete(NoError)
  {
    hide Delivers, WellFormed, Wire, Headers, Concat, ClosedByPeer, EndsAtRead;
    MessageDelivered(request, m, after, chunks, ending, s0, s, left, was, now);
  }

  /** One read brings a response and more: the more is lost, and the connection counts as usable all the same. */
  lemma BufferedRestIsLost(request: seq<byte>, m: Message, after: seq<byte>, ending: int, s0: StreamState,
                           s: StreamState, left: seq<seq<byte>>, was: bool, now: bool)
    requires WellFormed(request, m) && after != [] && ValidTransport([Wire(m) + after], ending)
    requires Delivers(request, [Wire(m) + after], ending, s0, s, left, was, now)
    ensures left == [] && Concat(left) != after && now == (was || ClosedByPeer(Headers(m)))
  {
    hide TakeReply, TakeHead, FramingOf, WellFormed, Wire, Headers, BodyData, Body, ClosedByPeer, Delivers;
    var chunks := [Wire(m) + after];
    assert chunks[1..] == [];
    assert Concat(chunks) == Wire(m) + after;
    MessageDelivered(request, m, after, chunks, ending, s0, s, left, was, now);
    assert |Wire(m)| > 0 by { WireIsNotEmpty(m); }
    assert ReadsFor(chunks, |Wire(m)|) == 1;
  }

  lemma WireIsNotEmpty(m: Message)
    ensures |Wire(m)| > 0
  {
    hide BodyWire, FieldsWire;
  }

  /** Receives one response; the reader and what it buffered end with it. */
  method ReceiveHttp11Response(session: HttpSession, request: seq<byte>, stream: Stream)
    requires session.Valid()
    requires stream.error == NoError && stream.headers == [] && SinkIsSound(stream.State())
    modifies session, stream, stream.sink
    ensures session.Valid()
    ensures SinkIsSound(stream.State()) && Responded(old(stream.State()), stream.State())
    ensures old(session.goingAway) ==> session.goingAway
    ensures PassesThrough(old(stream.State())) ==>
              Delivers(request, old(session.incoming), session.ending, old(stream.State()), stream.State(),
                       session.incoming, old(session.goingAway), session.goingAway)
  {
    hide PassesThrough, SinkIsSound, TakeHead, HeadersDelivered, ReadsFor, Responded, Delivers;
    hide Reader.Unread, Reader.Lean, Reader.Valid, HeadError, Concat, ValidTransport;
    ghost var s0, chunks, was := stream.State(), session.incoming, session.goingAway;
    var reader := new Reader(session.incoming, session.ending);
    var status := ReadResponseHead(reader, stream);
    if stream.error != NoError {
      session.goingAway := true;
      TransportStays(reader);
      session.incoming := reader.chunks;
      HeadFailed(s0, stream.State());
      NothingDelivered(request, chunks, session.ending, s0, stream.State(), session.incoming, was, true);
      return;
    }
    ReceiveBody(session, request, reader, stream, status, s0);
  }

  /** The rest of a response whose head has been read. */
  method ReceiveBody(session: HttpSession, request: seq<byte>, reader: Reader, stream: Stream, status: nat,
                     ghost s0: StreamState)
    requires reader.Valid() && reader.Lean(0) && reader.ending == session.ending
    requires stream.State() == s0.(headers := stream.headers) && s0.error == NoError && SinkIsSound(s0)
    requires TakeHead([], Concat(reader.source), |Concat(reader.source)|)
          == Some(Head(status, stream.headers, reader.Unread()))
    requires TakeHead([], Concat(reader.source), LINE_MAX).Some? ==> reader.len < MAX_HEADER_SECTION
    modifies session, reader, reader.buf, stream, stream.sink
    ensures session.Valid() && SinkIsSound(stream.State()) && Responded(s0, stream.State())
    ensures old(session.goingAway) ==> session.goingAway
    ensures PassesThrough(s0) ==>
              Delivers(request, reader.source, session.ending, s0, stream.State(), session.incoming,
                       old(session.goingAway), session.goingAway)
  {
    hide PassesThrough, Body, SinkIsSound, OnlyData, TakeHead, TakeBody, FramingOf, HeadersDelivered, ReadsFor;
    hide Reader.Unread, Reader.Lean, ClosedByPeer, BodyClassified, CancellationTaken, Concat, Delivers;
    hide ValidTransport, Reader.Valid, Responded;
    ghost var head, s1 := Head(status, stream.headers, reader.Unread()), stream.State();
    ghost var small, was := reader.len < MAX_HEADER_SECTION, session.goingAway;
    HeadRead(s0, s1);
    stream.DeliverResponseHeaders();
    ghost var s2, early := stream.State(), reader.len - reader.pos;
    BehindBuffered(reader);
    reader.ReadsMade();
    HeadersDelivery(s1);
    var rc, untilClose := ReadResponseBody(request, reader, stream, status);
    ghost var s3, rest := stream.State(), reader.Unread();
    TakingCancellation(s2, s3);
    OnlyDataKeepsHeaders(s2, s3);
    CloseSessionIfSingleUse(session, stream, untilClose, rc);
    HeadersThenData(s0, s1, stream.State());
    TransportStays(reader);
    session.incoming := reader.chunks;
    if PassesThrough(s0) {
      if rc == 1 {
        reader.ReadsMade();
      }
      BodyDelivered(request, reader.source, session.ending, s0, s3, head, small, early, rc, Body(s2), rest,
                    reader.chunks, was, session.goingAway);
      DeliversOf(request, reader.source, session.ending, s0, s3, stream.State(), session.incoming, was,
                 session.goingAway);
    }
  }

  lemma HeadersThenData(s0: StreamState, s1: StreamState, s: StreamState)
    requires s1 == s0.(headers := s1.headers) && s.headers == s1.headers && OnlyData(HeadersDelivered(s1), s)
    ensures Responded(s0, s)
  {
    hide OnlyData, HeadersDelivered;
  }

  lemma TransportStays(reader: Reader)
    requires reader.Valid()
    ensures ValidTransport(reader.chunks, reader.ending)
  {
  }

  /** Without a head there is no response to deliver. */
  lemma NothingDelivered(request: seq<byte>, chunks: seq<seq<byte>>, ending: int, s0: StreamState, s: StreamState,
                         left: seq<seq<byte>>, was: bool, now: bool)
    requires TakeHead([], Concat(chunks), LINE_MAX) == None
    ensures Delivers(request, chunks, ending, s0, s, left, was, now)
  {
  }

  /** The outcome is a matter of the error, the headers and the body. */
  lemma DeliversOf(request: seq<byte>, chunks: seq<seq<byte>>, ending: int, s0: StreamState, s: StreamState,
                   t: StreamState, left: seq<seq<byte>>, was: bool, now: bool)
    requires Delivers(request, chunks, ending, s0, s, left, was, now)
    requires t.error == s.error && t.headers == s.headers && Body(t) == Body(s)
    ensures Delivers(request, chunks, ending, s0, t, left, was, now)
  {
    hide Body, TakeReply, TakeHead, FramingOf, ClosedByPeer, ReadsFor, Concat;
  }

  lemma BodyDelivered(request: seq<byte>, chunks: seq<seq<byte>>, ending: int, s0: StreamState, s: StreamState,
                      head: Head, small: bool, early: nat, rc: int, before: seq<byte>, rest: seq<byte>,
                      left: seq<seq<byte>>, was: bool, now: bool)
    requires TakeHead([], Concat(chunks), |Concat(chunks)|) == Some(head)
    requires before == Body(s0) && s.headers == head.headers
    requires rc in {1, 0, -1} && ending in {0, -1, -2} && (rc >= 0 <==> s.error == NoError)
    requires rc == 1 ==> left == chunks[ReadsFor(chunks, |Concat(chunks)| - |rest|)..]
    requires early <= |head.rest|
    requires head.rest[early..] == Concat(chunks[ReadsFor(chunks, |Concat(chunks)| - |head.rest|)..])
    requires var f := FramingOf(request, head.status, head.headers);
             && BodyClassified(f, head.rest, early, small, ending, rc, before, Body(s), rest)
             && (TakeHead([], Concat(chunks), LINE_MAX).Some? ==> small)
             && (small && TakeBody(f, head.rest, LINE_MAX).Some? ==> rc == 1)
             && (now <==> was || f.UntilClose? || rc < 0 || ClosedByPeer(head.headers))
    ensures Delivers(request, chunks, ending, s0, s, left, was, now)
  {
    hide Body, TakeHead, TakeBody, FramingOf, ClosedByPeer, BodyClassified, ReadsFor, Concat, ChunkedCut;
    var u := Concat(chunks);
    if TakeHead([], u, LINE_MAX).Some? {
      HeadsAgree([], u, LINE_MAX, |u|);
    }
    BodyOutcome(FramingOf(request, head.status, head.headers), head.rest, early, small, ending, rc, before, Body(s),
                rest);
  }

  /** The connection is used again only when the whole body left it and nobody asked to close it. */
  method CloseSessionIfSingleUse(session: HttpSession, stream: Stream, untilClose: bool, bodyRc: int)
    modifies session`goingAway, stream.sink
    ensures stream.State() == CancellationTaken(old(stream.State())).0
    ensures session.goingAway <==>
              || old(session.goingAway) || untilClose || CancellationTaken(old(stream.State())).1 || bodyRc < 0
              || ClosedByPeer(stream.headers)
  {
    hide CancellationTaken, HasToken, HeaderValue;
    var cancelled := stream.TakeResponseCancellation();
    var connection := StreamHeaderValue(stream.headers, "connection");
    if untilClose || cancelled || bodyRc < 0 || HasToken(connection, "close") {
      session.goingAway := true;
    }
  }

  lemma HeadFailed(s0: StreamState, s: StreamState)
    requires s == s0.(headers := s.headers, error := s.error) && s0.error == NoError && s.error != NoError
    requires SinkIsSound(s0)
    ensures SinkIsSound(s) && Responded(s0, s)
  {
  }

  lemma HeadRead(s0: StreamState, s1: StreamState)
    requires s1 == s0.(headers := s1.headers)
    ensures SinkIsSound(s0) ==> SinkIsSound(s1)
    ensures (PassesThrough(s0) ==> PassesThrough(s1)) && Body(s1) == Body(s0)
  {
  }

  lemma HeadersDelivery(s1: StreamState)
    requires SinkIsSound(s1)
    ensures SinkIsSound(HeadersDelivered(s1)) && HeadersDelivered(s1).headers == s1.headers
    ensures PassesThrough(s1) ==>
              && PassesThrough(HeadersDelivered(s1)) && Body(HeadersDelivered(s1)) == Body(s1)
              && HeadersDelivered(s1).error == s1.error
  {
    hide PassesThrough, Body;
    HeadersKeepErrors(s1);
    if PassesThrough(s1) {
      HeadersKeepBody(s1);
    }
  }

  lemma OnlyDataKeepsHeaders(s: StreamState, t: StreamState)
    requires OnlyData(s, t)
    ensures t.headers == s.headers
  {
  }

  /** What the end of a body says when its framing told where it ends. */
  lemma BodyOutcome(f: Framing, u: seq<byte>, early: nat, small: bool, ending: int, rc: int, before: seq<byte>,
                    after: seq<byte>, rest: seq<byte>)
    requires rc in {1, 0, -1}
    ensures TakeBody(f, u, LINE_MAX).Some? ==> !f.UntilClose?
    ensures BodyClassified(f, u, early, small, ending, rc, before, after, rest) && rc == 1
            && TakeBody(f, u, LINE_MAX).Some? ==>
              var taken := TakeBody(f, u, LINE_MAX).value;
              after == before + taken.data && rest == taken.rest
    ensures BodyClassified(f, u, early, small, ending, rc, before, after, rest) && ending in {0, -1, -2} ==>
              var code := if ending == 0 then 0 else -1;
              && (f.Length? && f.n > |u| ==> after == before + u && rc == code)
              && (f.Chunked? && small && ChunkedCut(u, LINE_MAX).Some? ==>
                    after == before + ChunkedCut(u, LINE_MAX).value && rc == code)
              && (f.UntilClose? && early <= |u| ==> after == before + u[early..] && rc == code)
  {
    if f == Chunked && TakeChunked(u, LINE_MAX).Some? && TakeChunked(u, |u|).Some? {
      ChunkedAgree(u, LINE_MAX, |u|);
    }
    if f == NoBody {
      assert before + [] == before;
    }
  }

  lemma CompletionEndsExchange(s0: StreamState, s: StreamState, t: StreamState)
    requires s0.sink.Some? && s0.sink.value == NewSink(s0.sink.value.contract) && !s0.sink.value.contract.collecting
    requires SinkIsSound(s) && Responded(s0, s)
    requires t == Completed(s.(isEnded := true))
    ensures t.sink.Some? && t.sink.value.completed && IsExchange(t.sink.value.trace, t.headers, t.error)
  {
    var k := s.sink.value;
    var trace := t.sink.value.trace;
    assert trace == k.trace + [OnComplete(s.error)];
    if s.sink == s0.sink {
      assert CallsAre(trace, 0, 0, t.headers, t.error);
    } else {
      assert HeadersDelivered(s0.(headers := s.headers)).sink.value.trace == [OnHeaders(s.headers)];
      assert CallsAre(trace, 1, |k.trace|, t.headers, t.error);
    }
  }

  lemma CompletionKeepsResult(s: StreamState, t: StreamState)
    requires t == Completed(s.(isEnded := true))
    ensures t.error == s.error && t.headers == s.headers && t.isEnded
    ensures Body(t) == Body(s)
  {
    if s.sink.Some? {
      var k := s.sink.value;
      DataOfCall(k.trace, OnComplete(if k.error != NoError then k.error else s.error));
      assert DataOf(k.trace) + [] == DataOf(k.trace);
    }
  }

  lemma CompletionIsSound(s: StreamState, t: StreamState)
    requires SinkInv(s) && t == Completed(s.(isEnded := true))
    ensures SinkInv(t)
  {
    hide TraceInv;
    CompletedKeepsInv(s.(isEnded := true));
  }

  /** The exchange under the connection's write lock: send, receive, end the stream. */
  method HandleHttp11Request(session: HttpSession, request: seq<byte>, stream: Stream, sent: bool)
    returns (basketError: Error)
    requires session.Valid()
    requires stream.error == NoError && stream.headers == []
    requires stream.sink != null ==> stream.sink.State() == NewSink(stream.sink.contract)
    modifies session, stream, stream.sink
    ensures session.Valid() && stream.isEnded && basketError == stream.error
    ensures SinkInv(stream.State())
    ensures stream.sink != null && !stream.sink.contract.collecting ==>
              stream.sink.completed && IsExchange(stream.sink.trace, stream.headers, stream.error)
    ensures !sent ==> stream.error != NoError && session.goingAway && session.incoming == old(session.incoming)
    ensures sent && PassesThrough(old(stream.State())) ==>
              Delivers(request, old(session.incoming), session.ending, old(stream.State()), stream.State(),
                       session.incoming, old(session.goingAway), session.goingAway)
  {
    hide PassesThrough, Body, OnlyData, Delivers, HeadersDelivered, IsExchange, Concat, TraceInv, ValidTransport;
    ghost var s0, was, chunks := stream.State(), session.goingAway, session.incoming;
    FreshIsSound(s0);
    if sent {
      ReceiveHttp11Response(session, request, stream);
    } else {
      stream.error := SendingHttp11RequestFailed;
      session.goingAway := true;
    }
    ghost var s := stream.State();
    stream.isEnded := true;
    stream.CompleteResponseSink();
    CompletionKeepsResult(s, stream.State());
    CompletionIsSound(s, stream.State());
    if sent && PassesThrough(s0) {
      DeliversOf(request, chunks, session.ending, s0, s, stream.State(), session.incoming, was, session.goingAway);
    }
    if stream.sink != null && !stream.sink.contract.collecting {
      CompletionEndsExchange(s0, s, stream.State());
    }
    basketError := stream.error;
  }

  lemma FreshIsSound(s: StreamState)
    requires s.sink.Some? ==> s.sink.value == NewSink(s.sink.value.contract)
    ensures SinkIsSound(s)
  {
    if s.sink.Some? {
      NewSinkInv(s.sink.value.contract);
    }
  }

  // ---------------------------------------------------------------- an octet that is lost

  /** Status 204, without fields or body. */
  function NoContent(): (m: Message) {
    Message(49, [50, 48, 52], [], [], Empty)
  }

  lemma NoContentIs(request: seq<byte>)
    ensures WellFormed(request, NoContent()) && !ClosedByPeer(Headers(NoContent()))
    ensures Wire(NoContent()) == [72, 84, 84, 80, 47, 49, 46, 49, 32, 50, 48, 52, 32, 13, 10, 13, 10]
  {
    hide ContainsIgnoreCase, Is;
    var m := NoContent();
    assert StatusLine(m) == [72, 84, 84, 80, 47, 49, 46, 49, 32, 50, 48, 52, 32];
    assert IsDigit(49) && IsDigit(50) && IsDigit(48) && IsDigit(52);
    assert Value(m.status, 10) == 204 by { NoContentStatus(); }
    OtherName();
    assert Entries([]) == [] && Headers(m) == [Entry(Ascii(":status"), m.status)] && Headers(m)[1..] == [];
    assert HeaderValue(Headers(m), "connection") == None;
  }

  lemma NoContentStatus()
    ensures Value([50, 48, 52], 10) == 204
  {
    var s: seq<byte> := [50, 48, 52];
    assert s[..2] == [50, 48] && s[..2][..1] == [50] && s[..1][..0] == [];
    assert Value([50], 10) == 2;
    assert Value([50, 48], 10) == 20;
  }

  lemma OtherName()
    ensures !Is(Ascii(":status"), "connection")
  {
    assert |Ascii(":status")| == 7 && |Ascii("connection")| == 10;
  }

  /**
   An instance: one read brings a response without a body and the first octet of what follows. The exchange succeeds,
   nothing of that octet is left on the connection, and the connection counts as usable.
   */
  method ExchangeThatLosesAnOctet(request: seq<byte>) returns (session: HttpSession, stream: Stream)
    ensures stream.error == NoError && stream.headers == Headers(NoContent())
    ensures session.incoming == [] && !session.goingAway
  {
    hide Delivers, WellFormed, Wire, Headers, ClosedByPeer;
    var read: seq<byte> := [72, 84, 84, 80, 47, 49, 46, 49, 32, 50, 48, 52, 32, 13, 10, 13, 10, 88];
    NoContentIs(request);
    assert read == Wire(NoContent()) + [88];
    session := new HttpSession([read], 0);
    stream := new Stream(1, null);
    ghost var s0 := stream.State();
    var error := HandleHttp11Request(session, request, stream, true);
    BufferedRestIsLost(request, NoContent(), [88], 0, s0, stream.State(), session.incoming, false, session.goingAway);
    assert Concat([read]) == read by { assert [read][1..] == []; }
    MessageDelivered(request, NoContent(), [88], [read], 0, s0, stream.State(), session.incoming, false,
                     session.goingAway);
  }
}
