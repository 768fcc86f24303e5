/** The reader's handlers over the objects they update: a registered stream, the shared table, the session's queue. */
module ReaderDispatch {
  import opened Octets
  import opened HuffmanTable
  import opened HpackPrimitives
  import opened DynamicTable
  import opened HeaderBlock
  import opened Frames
  import opened HeaderFraming
  import opened FlowControl
  import opened ResponseSink
  import opened ReaderSession
  import opened Connection
  import Tree = HuffmanTree

  /** A registered stream with the header block it may be assembling. */
  class OpenStream {
    const stream: Stream
    var headerBlock: seq<byte>
    var awaitingContinuation: bool

    ghost function Contents(): (s: Slot)
      reads this, stream, stream.sink
    {
      Slot(stream.State(), headerBlock, awaitingContinuation)
    }

    constructor (stream: Stream)
      ensures this.stream == stream && Contents() == Slot(stream.State(), [], false)
    {
      this.stream := stream;
      headerBlock, awaitingContinuation := [], false;
    }

    /** HEADERS on this stream: decoded, or kept until the block is complete. */
    method HandleHeaders(t: CodeTable, nodes: array<Tree.Node>, ghost paths: seq<(nat, nat)>, ctx: HpackContext,
                         f: Frame)
      requires t == HuffmanCodes() && Tree.TreeOf(t, |t|, nodes[..], paths) && ctx.Valid()
      modifies this, stream, ctx, ctx.dynamicTable
      ensures ctx.Valid() && (ctx.dynamicTable == old(ctx.dynamicTable) || fresh(ctx.dynamicTable))
      ensures Headed(Contents(), ctx.Contents()) == HeadersFrameOn(old(Contents()), old(ctx.Contents()), f)
    {
      hide OnHeadersFrame, Tree.TreeOf, HpackContext.Valid, HpackContext.Contents;
      var headers, failed, block, awaiting :=
        HandleHeadersFrame(t, nodes, paths, ctx, f.payload, f.flags, true, stream.headers, false, headerBlock,
                           awaitingContinuation);
      stream.headers, headerBlock, awaitingContinuation := headers, block, awaiting;
      if failed {
        stream.error := DecodingHeadersFrameFailed;
      }
    }

    method HandleContinuationFrame(t: CodeTable, nodes: array<Tree.Node>, ghost paths: seq<(nat, nat)>,
                                   ctx: HpackContext, f: Frame)
      requires t == HuffmanCodes() && Tree.TreeOf(t, |t|, nodes[..], paths) && ctx.Valid()
      modifies this, stream, ctx, ctx.dynamicTable
      ensures ctx.Valid() && (ctx.dynamicTable == old(ctx.dynamicTable) || fresh(ctx.dynamicTable))
      ensures Headed(Contents(), ctx.Contents()) == ContinuationOn(old(Contents()), old(ctx.Contents()), f)
    {
      hide OnContinuation, Tree.TreeOf, HpackContext.Valid, HpackContext.Contents;
      var headers, failed, block, awaiting :=
        HandleContinuation(t, nodes, paths, ctx, f.payload, f.flags, stream.headers, stream.error != NoError,
                           headerBlock, awaitingContinuation);
      stream.headers, headerBlock, awaitingContinuation := headers, block, awaiting;
      if failed && stream.error == NoError {
        stream.error := DecodingHeadersFrameFailed;
      }
    }

    /** handleStreamFrame: one frame of this stream, then its END_HEADERS and END_STREAM flags. */
    method HandleStreamFrame(t: CodeTable, nodes: array<Tree.Node>, ghost paths: seq<(nat, nat)>, ctx: HpackContext,
                             f: Frame)
      requires StreamScoped(f.kind)
      requires t == HuffmanCodes() && Tree.TreeOf(t, |t|, nodes[..], paths) && ctx.Valid()
      modifies this, stream, stream.sink, ctx, ctx.dynamicTable
      ensures ctx.Valid() && (ctx.dynamicTable == old(ctx.dynamicTable) || fresh(ctx.dynamicTable))
      ensures Headed(Contents(), ctx.Contents()) == OnFrame(old(Contents()), old(ctx.Contents()), f)
    {
      hide HeadersFrameOn, ContinuationOn, Appended, HeadersDelivered, Tree.TreeOf, HpackContext.Valid;
      hide HpackContext.Contents;
      if f.kind == DATA {
        var keepReading := stream.AppendStreamPayload(f.payload);
      } else if f.kind == HEADERS {
        HandleHeaders(t, nodes, paths, ctx, f);
      } else if f.kind == CONTINUATION {
        HandleContinuationFrame(t, nodes, paths, ctx, f);
      } else {
        stream.error := if Http11RequiredCode(f) then Http11Required else RstStreamError;
        stream.isEnded := true;
      }
      if (f.kind == HEADERS || f.kind == CONTINUATION) && EndHeaders(f.flags) && stream.error == NoError {
        stream.DeliverResponseHeaders();
      }
      if f.kind != RST_STREAM && EndStream(f.flags) {
        stream.isEnded := true;
      }
    }

    /** endStreamReading */
    method EndStreamReading(f: Frame) returns (reading: StreamReading)
      modifies stream, stream.sink
      ensures Ended(stream.State(), reading) == EndReading(old(stream.State()), f)
      ensures Contents() == old(Contents()).(stream := stream.State())
    {
      hide Completed, CancellationTaken;
      reading := StreamReading(0, 0, false, f.kind == RST_STREAM);
      if stream.isEnded {
        stream.CompleteResponseSink();
        reading := reading.(ended := true);
      }
      if stream.sink == null {
        return;
      }
      reading := reading.(consumed := if f.kind == DATA then |f.payload| else 0);
      var cancelled := stream.TakeResponseCancellation();
      if !cancelled {
        return;
      }
      if !reading.ended {
        stream.isEnded := true;
        stream.CompleteResponseSink();
      }
      reading := reading.(cancelStreamId := stream.id);
    }

    /** The part of failAllStreams that ends one stream. */
    method Fail(onlyPending: bool, connError: Error)
      modifies stream, stream.sink
      ensures Contents() == FailedSlot(old(Contents()), onlyPending, connError)
    {
      hide Completed;
      if stream.isEnded || (onlyPending && stream.headers != []) {
        return;
      }
      stream.error := if connError != NoError then connError else ReadingConnectionError;
      stream.isEnded := true;
      stream.CompleteResponseSink();
    }
  }

  /** The session fields that say whether the connection may be used again, and why not. */
  class Status {
    var connError: Error
    var goingAway: bool

    constructor ()
      ensures connError == NoError && !goingAway
    {
      connError, goingAway := NoError, false;
    }

    /** A refused stream or a GOAWAY takes the connection out of use. */
    method GiveUp(error: Error)
      modifies this
      ensures connError == error && goingAway
    {
      connError, goingAway := error, true;
    }

    /** handleGoAwayFrame */
    method HandleGoAwayFrame(f: Frame)
      modifies this
      ensures var leaving := |f.payload| >= 8;
              && connError == (if leaving then GoAwayError(f.payload) else old(connError))
              && goingAway == (leaving || old(goingAway))
    {
      if |f.payload| >= 8 {
        GiveUp(GoAwayError(f.payload));
      }
    }
  }

  /** readerDispatch of a frame for a registered stream: stream, table, ledger, queue, and a refusal's consequences. */
  method DispatchStreamFrame(session: Session, status: Status, s: OpenStream, t: CodeTable, nodes: array<Tree.Node>,
                             ghost paths: seq<(nat, nat)>, ctx: HpackContext, f: Frame)
    requires StreamScoped(f.kind)
    requires t == HuffmanCodes() && Tree.TreeOf(t, |t|, nodes[..], paths) && ctx.Valid()
    requires session.Valid() && session.connWindowTarget <= CONNECTION_WINDOW_MAX
    modifies s, s.stream, s.stream.sink, ctx, ctx.dynamicTable
    modifies session, session.pendingStreamWindows, session.pendingWire, status
    ensures ctx.Valid() && session.Valid() && session.connWindowTarget <= CONNECTION_WINDOW_MAX
    ensures var h := OnFrame(old(s.Contents()), old(ctx.Contents()), f);
            var e := EndReading(h.slot.stream, f);
            && s.Contents() == h.slot.(stream := e.stream) && ctx.Contents() == h.table
            && session.Contents() == Stepped(old(session.Contents()), FlowControl.Reading(f.streamId, e.reading))
    ensures status.connError == if Http11RequiredCode(f) then Http11Required else old(status.connError)
    ensures status.goingAway == (Http11RequiredCode(f) || old(status.goingAway))
  {
    hide OnFrame, EndReading, Tree.TreeOf, HpackContext.Valid, HpackContext.Contents, Session.Valid, Session.Contents;
    hide Stepped;
    s.HandleStreamFrame(t, nodes, paths, ctx, f);
    if Http11RequiredCode(f) {
      status.GiveUp(Http11Required);
    }
    var reading := s.EndStreamReading(f);
    PutOnWire(session, f.streamId, reading);
  }

  /** What a reading leaves for the wire: credit, and a cancellation. */
  method PutOnWire(session: Session, streamId: nat, reading: StreamReading)
    requires session.Valid() && session.connWindowTarget <= CONNECTION_WINDOW_MAX
    modifies session, session.pendingStreamWindows, session.pendingWire
    ensures session.Valid() && session.connWindowTarget <= CONNECTION_WINDOW_MAX
    ensures session.Contents() == Stepped(old(session.Contents()), FlowControl.Reading(streamId, reading))
  {
    hide Session.Valid, Replenished;
    session.ReplenishStreamWindow(streamId, reading);
    if reading.cancelStreamId != 0 {
      session.QueueRstStream(reading.cancelStreamId);
    }
  }

  /** readerDispatch of SETTINGS and PING: what they are answered with joins the queue. */
  method AnswerConnectionFrame(session: Session, f: Frame)
    requires session.Valid()
    modifies session`pendingWire, session`pendingWireSize, session`queued, session.pendingWire
    ensures session.Valid()
    ensures session.Contents() == old(session.Contents()).(queued := old(session.queued) + Answers(f))
  {
    hide Session.Valid;
    if f.kind == SETTINGS && !Ack(f.flags) {
      AckForm();
      session.QueueControlFrame([0, 0, 0, SETTINGS, 1, 0, 0, 0, 0], SettingsAck);
    } else if f.kind == PING && !Ack(f.flags) && |f.payload| == 8 {
      EchoForm(f.payload);
      session.QueueControlFrame([0, 0, 8, PING, 1, 0, 0, 0, 0] + f.payload, PingAck(f.payload));
    } else {
      assert session.queued + [] == session.queued;
    }
  }

  lemma AckForm()
    ensures ValidFrame(SettingsAck) && FrameForm(SettingsAck) == [0, 0, 0, SETTINGS, 1, 0, 0, 0, 0]
  {
  }

  lemma EchoForm(payload: seq<byte>)
    requires |payload| == 8
    ensures ValidFrame(PingAck(payload))
    ensures FrameForm(PingAck(payload)) == [0, 0, 8, PING, 1, 0, 0, 0, 0] + payload
  {
  }
}
