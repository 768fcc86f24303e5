/** When a stream is over: exactly on the frames that end it, on a cancellation, or when it is failed. */
module StreamEnds {
  import opened Octets
  import opened HpackPrimitives
  import opened DynamicTable
  import opened HeaderBlock
  import opened Frames
  import opened HeaderFraming
  import opened FlowControl
  import opened StreamLedger
  import opened ResponseSink
  import opened Connection
  import opened SinkTraces

  // ---------------------------------------------------------------- what ends a stream

  /** END_STREAM on DATA, HEADERS or CONTINUATION, or RST_STREAM (sections 6.1, 6.2 and 6.4 of RFC 9113). */
  predicate EndsStream(f: Frame, id: nat) {
    f.streamId == id && (f.kind == 3 || ((f.kind == 0 || f.kind == 1 || f.kind == 9) && f.flags % 2 == 1))
  }

  /** The connection is lost, or the peer leaves before the stream has any headers. */
  ghost predicate Fails(c: Conn, e: Happening, id: nat) {
    && id in c.streams
    && (|| (e.Lost? && !c.busy)
        || (e.HandleFrame? && NextFrame(c).Some? && NextFrame(c).value.kind == 7
            && c.streams[id].stream.headers == []))
  }

  ghost predicate FailsWithin(c: Conn, events: seq<Happening>, id: nat)
    decreases |events|
  {
    events != [] && (Fails(c, events[0], id) || FailsWithin(Happened(c, events[0]), events[1..], id))
  }

  ghost predicate SomeEnds(fs: seq<Frame>, id: nat) {
    exists f :: f in fs && EndsStream(f, id)
  }

  /** What a step makes of a stream's end. */
  ghost predicate EndsAsMeant(s: StreamState, t: StreamState, now: bool) {
    && (t.isEnded <==> s.isEnded || now || Taken(t))
    && (Taken(s) ==> Taken(t))
  }

  lemma AppendedStaysOpen(s: StreamState, data: seq<byte>)
    ensures Appended(s, data).0.isEnded == s.isEnded && (Taken(Appended(s, data).0) <==> Taken(s))
  {
    hide Appended;
    AppendedKeepsLife(s, data);
  }

  lemma HeadersStayOpen(s: StreamState)
    ensures HeadersDelivered(s).isEnded == s.isEnded && (Taken(HeadersDelivered(s)) <==> Taken(s))
  {
  }

  lemma FrameEnds(slot: Slot, table: Table, f: Frame)
    requires StreamScoped(f.kind)
    ensures var s := OnFrame(slot, table, f).slot.stream;
            (s.isEnded <==> slot.stream.isEnded || EndsStream(f, f.streamId)) && (Taken(s) <==> Taken(slot.stream))
  {
    hide OnHeadersFrame, OnContinuation, Appended, HeadersDelivered;
    AppendedStaysOpen(slot.stream, f.payload);
    HeadersStayOpen(HeadersFrameOn(slot, table, f).slot.stream);
    HeadersStayOpen(ContinuationOn(slot, table, f).slot.stream);
  }

  lemma ReadingEnds(s: StreamState, f: Frame)
    requires Taken(s) ==> s.isEnded
    ensures EndsAsMeant(s, EndReading(s, f).stream, false)
  {
  }

  lemma DispatchEnds(c: Conn, f: Frame, id: nat)
    requires ConnectionInv(c) && id in c.streams
    ensures id in Dispatch(c, f).streams
    ensures EndsAsMeant(c.streams[id].stream, Dispatch(c, f).streams[id].stream,
                        EndsStream(f, id) || (f.kind == 7 && c.streams[id].stream.headers == []))
  {
    hide OnFrame, EndReading, Stepped, ScratchTable, GoAwayError, Completed, Answers, SinkInv, CancelsInv;
    var slot := c.streams[id];
    assert Taken(slot.stream) ==> slot.stream.isEnded;
    if StreamScoped(f.kind) && f.streamId == id {
      FrameEnds(slot, c.table, f);
      ReadingEnds(OnFrame(slot, c.table, f).slot.stream, f);
    } else if f.kind == GOAWAY {
      FailedSlotEnds(slot, true, Dispatch(c, f).connError);
    }
  }

  lemma FailedSlotEnds(slot: Slot, onlyPending: bool, connError: Error)
    requires Taken(slot.stream) ==> slot.stream.isEnded
    ensures EndsAsMeant(slot.stream, FailedSlot(slot, onlyPending, connError).stream,
                        !onlyPending || slot.stream.headers == [])
  {
  }

  lemma HappenedEnds(c: Conn, e: Happening, id: nat)
    requires ConnectionInv(c) && id in c.streams && e != Unregister(id)
    ensures id in Happened(c, e).streams
    ensures EndsAsMeant(c.streams[id].stream, Happened(c, e).streams[id].stream,
                        SomeEnds(FrameOf(c, e), id) || Fails(c, e, id))
  {
    hide Dispatch, ParseOne, Flushed, FailedSlot, SinkInv, CancelsInv, OpenSlot;
    var slot := c.streams[id];
    assert Taken(slot.stream) ==> slot.stream.isEnded;
    assert SomeEnds([], id) <==> false;
    if e.HandleFrame? && NextFrame(c).Some? {
      var f := NextFrame(c).value;
      DispatchEnds(c, f, id);
      assert f in [f] && forall g :: g in [f] ==> g == f;
    } else if e.Lost? && !c.busy {
      FailedSlotEnds(slot, false, c.connError);
    }
  }

  /**
   Over every run, whatever the cuts and whatever else happens between frames: a stream that stays registered is over if
   and only if it was before, one of its frames that end a stream was handled, it was cancelled, or it was failed.
   */
  lemma {:induction false} EndedIff(c: Conn, events: seq<Happening>, id: nat)
    requires ConnectionInv(c) && id in c.streams && Unregister(id) !in events
    requires After(c, events).nextId < 0x8000_0000
    ensures id in After(c, events).streams
    ensures var s, t := c.streams[id].stream, After(c, events).streams[id].stream;
            && (Taken(s) ==> Taken(t))
            && (t.isEnded <==>
                  || s.isEnded || (exists f :: f in FramesOf(c, events) && EndsStream(f, id))
                  || Taken(t) || FailsWithin(c, events, id))
    decreases |events|
  {
    hide ConnectionInv, Happened, FrameOf, Fails, EndsStream, Taken;
    EndedAlready(c, id);
    if events != [] {
      var e, rest := events[0], events[1..];
      assert e in events && forall g :: g in rest ==> g in events;
      NextIdGrowsAlways(Happened(c, e), rest);
      HappenedKeepsInv(c, e);
      HappenedEnds(c, e, id);
      EndedIff(Happened(c, e), rest, id);
      SomeOfBoth(FrameOf(c, e), FramesOf(Happened(c, e), rest), id);
      assert SomeEnds(FramesOf(c, events), id)
          <==> SomeEnds(FrameOf(c, e), id) || SomeEnds(FramesOf(Happened(c, e), rest), id);
    }
  }

  lemma EndedAlready(c: Conn, id: nat)
    requires ConnectionInv(c) && id in c.streams
    ensures Taken(c.streams[id].stream) ==> c.streams[id].stream.isEnded
  {
  }

  lemma SomeOfBoth(fs: seq<Frame>, gs: seq<Frame>, id: nat)
    ensures SomeEnds(fs + gs, id) <==> SomeEnds(fs, id) || SomeEnds(gs, id)
  {
    assert forall f :: f in fs + gs <==> f in fs || f in gs;
  }

  // ---------------------------------------------------------------- its callbacks end with it

  ghost predicate CompleteOnlyAt(trace: seq<Event>, i: nat) {
    forall j :: 0 <= j < |trace| ==> (trace[j].OnComplete? <==> j == i)
  }

  /** Exactly one of the calls is onComplete. */
  ghost predicate OneComplete(trace: seq<Event>) {
    exists i :: 0 <= i < |trace| && CompleteOnlyAt(trace, i)
  }

  lemma {:induction false} NoneComplete(trace: seq<Event>)
    ensures CountComplete(trace) == 0 <==> forall j :: 0 <= j < |trace| ==> !trace[j].OnComplete?
  {
    if trace != [] {
      NoneComplete(trace[..|trace| - 1]);
    }
  }

  lemma {:induction false} CountedOnce(trace: seq<Event>)
    requires CountComplete(trace) == 1
    ensures OneComplete(trace)
  {
    var n := |trace| - 1;
    var front := trace[..n];
    if trace[n].OnComplete? {
      NoneComplete(front);
      assert forall j :: 0 <= j < n ==> front[j] == trace[j];
      assert CompleteOnlyAt(trace, n);
    } else {
      CountedOnce(front);
      var i :| 0 <= i < |front| && CompleteOnlyAt(front, i);
      assert CompleteOnlyAt(trace, i) by {
        assert forall j :: 0 <= j < n ==> front[j] == trace[j];
      }
    }
  }

  /** A stream that was answered to its end, reset or failed has been told so, exactly once. */
  lemma EndedIsCompletedOnce(c: Conn, events: seq<Happening>, id: nat)
    requires ConnectionInv(c) && id in c.streams && Unregister(id) !in events
    requires After(c, events).nextId < 0x8000_0000
    requires (exists f :: f in FramesOf(c, events) && EndsStream(f, id)) || FailsWithin(c, events, id)
    ensures id in After(c, events).streams
    ensures var t := After(c, events).streams[id].stream;
            t.isEnded && (t.sink.Some? && !t.sink.value.contract.collecting ==> OneComplete(t.sink.value.trace))
  {
    hide After, FramesOf, FailsWithin, CancelsInv, EndsStream, OneComplete;
    EndedIff(c, events, id);
    RunKeepsSinks(c, events);
    var t := After(c, events).streams[id].stream;
    if t.sink.Some? && !t.sink.value.contract.collecting {
      EndedCountsOne(t);
      CountedOnce(t.sink.value.trace);
    }
  }

  lemma EndedCountsOne(s: StreamState)
    requires StreamInv(s) && s.isEnded && s.sink.Some? && !s.sink.value.contract.collecting
    ensures CountComplete(s.sink.value.trace) == 1
  {
    hide StoppedAt;
  }

  // ---------------------------------------------------------------- a stopped stream is reset

  /** A response that was given up has been reset, by one RST_STREAM with CANCEL; no other stream was. */
  ghost predicate ResetInv(c: Conn) {
    forall id :: id in c.streams ==>
      var s := c.streams[id].stream;
      && (s.sink.Some? && s.sink.value.cancelled ==> Taken(s))
      && Cancels(AllFrames(c.flow), id) == (if Taken(s) then 1 else 0)
  }

  lemma EndReadingResets(s: StreamState, f: Frame)
    requires s.sink.Some?
    ensures var t := EndReading(s, f).stream;
            && t.sink.Some? && (t.sink.value.cancelled ==> Taken(t))
            && (EndReading(s, f).reading.cancelStreamId == (if Taken(t) && !Taken(s) then s.id else 0))
  {
  }

  lemma DispatchResets(c: Conn, f: Frame)
    requires ConnectionInv(c) && ResetInv(c)
    ensures ResetInv(Dispatch(c, f))
  {
    hide OnFrame, EndReading, Stepped, ScratchTable, GoAwayError, StreamInv, Cancels, AllFrames, FailedSlot, CancelsInv;
    var d := Dispatch(c, f);
    if StreamScoped(f.kind) && f.streamId in c.streams {
      var id := f.streamId;
      var slot := c.streams[id];
      OpenStreamInv(slot.stream);
      FrameKeepsSink(slot, c.table, f);
      var s := OnFrame(slot, c.table, f).slot.stream;
      FrameEnds(slot, c.table, f);
      EndReadingKeepsInv(s, f);
      if s.sink.Some? {
        EndReadingResets(s, f);
      }
      forall other | other in c.streams
        ensures var t := d.streams[other].stream;
                && (t.sink.Some? && t.sink.value.cancelled ==> Taken(t))
                && Cancels(AllFrames(d.flow), other) == (if Taken(t) then 1 else 0)
      {
        CancelsAfterReading(c.flow, id, EndReading(s, f).reading, other);
      }
    } else if !StreamScoped(f.kind) {
      OtherResets(c, f);
    }
  }

  lemma OtherResets(c: Conn, f: Frame)
    requires ResetInv(c) && !StreamScoped(f.kind)
    ensures ResetInv(Dispatch(c, f))
  {
    hide GoAwayError, Cancels, AllFrames, FailedSlot;
    var d := Dispatch(c, f);
    forall id | id in c.streams
      ensures id in d.streams
      ensures var t := d.streams[id].stream;
              && (t.sink.Some? && t.sink.value.cancelled ==> Taken(t))
              && Cancels(AllFrames(d.flow), id) == (if Taken(t) then 1 else 0)
    {
      FailedSlotResets(c.streams[id], true, d.connError);
      if Answers(f) != [] {
        CancelsQueueOne(c.flow, Answers(f)[0], id);
      }
    }
  }

  lemma FailedSlotResets(slot: Slot, onlyPending: bool, connError: Error)
    ensures var s, t := slot.stream, FailedSlot(slot, onlyPending, connError).stream;
            && t.sink.Some? == s.sink.Some? && (Taken(t) <==> Taken(s))
            && (s.sink.Some? ==> t.sink.value.cancelled == s.sink.value.cancelled)
  {
  }

  lemma HappenedResets(c: Conn, e: Happening)
    requires ConnectionInv(c) && ResetInv(c)
    ensures ResetInv(Happened(c, e))
  {
    hide Dispatch, ParseOne, Flushed, FailedSlot, StreamInv, Cancels, AllFrames, OpenSlot;
    match e {
      case HandleFrame => {
        if NextFrame(c).Some? {
          DispatchResets(c, NextFrame(c).value);
        }
      }
      case EndBatch => {
        forall id | id in c.streams
          ensures Cancels(AllFrames(Flushed(c.flow)), id) == Cancels(AllFrames(c.flow), id)
        {
          CancelsAfterFlush(c.flow, id);
        }
      }
      case EnterStream(id, contract) => { OpenIsNotReset(id, contract); }
      case Lost => {
        forall id | id in c.streams
          ensures var s, t := c.streams[id].stream, FailedSlot(c.streams[id], false, c.connError).stream;
                  && t.sink.Some? == s.sink.Some? && (Taken(t) <==> Taken(s))
                  && (s.sink.Some? ==> t.sink.value.cancelled == s.sink.value.cancelled)
        {
          FailedSlotResets(c.streams[id], false, c.connError);
        }
      }
      case _ => { }
    }
  }

  lemma OpenIsNotReset(id: nat, contract: Option<Contract>)
    ensures var s := OpenSlot(id, contract).stream;
            !Taken(s) && (s.sink.Some? ==> !s.sink.value.cancelled)
  {
  }

  lemma {:induction false} RunResets(c: Conn, events: seq<Happening>)
    requires ConnectionInv(c) && ResetInv(c) && After(c, events).nextId < 0x8000_0000
    ensures ResetInv(After(c, events))
    decreases |events|
  {
    hide ConnectionInv, ResetInv, Happened;
    if events != [] {
      NextIdGrowsAlways(Happened(c, events[0]), events[1..]);
      HappenedKeepsInv(c, events[0]);
      HappenedResets(c, events[0]);
      RunResets(Happened(c, events[0]), events[1..]);
    }
  }

  /**
   Over every run from the start: a registered stream whose consumer stopped, or whose decoder failed, is over, and
   exactly one RST_STREAM names it; none names a stream that was not given up.
   */
  lemma StoppedIsReset(table: Table, events: seq<Happening>, id: nat)
    requires After(InitialConn(table), events).nextId < 0x8000_0000
    ensures var c := After(InitialConn(table), events);
            id in c.streams ==>
              var s := c.streams[id].stream;
              if s.sink.Some? && s.sink.value.cancelled then s.isEnded && Cancels(AllFrames(c.flow), id) == 1
              else Cancels(AllFrames(c.flow), id) == 0
  {
    hide After, Cancels, SinkInv, CancelsInv;
    InitialInv(table);
    RunKeepsSinks(InitialConn(table), events);
    RunResets(InitialConn(table), events);
    var c := After(InitialConn(table), events);
    if id in c.streams {
      TakenMeansCancelled(c.streams[id].stream);
    }
  }

  lemma TakenMeansCancelled(s: StreamState)
    requires SinkInv(s)
    ensures Taken(s) ==> s.sink.value.cancelled
  {
    hide StoppedAt;
  }

  /** Each of them is RST_STREAM with the error code CANCEL (section 7 of RFC 9113). */
  lemma CancelOctets(id: nat)
    requires 0 < id < 0x8000_0000
    ensures CancelFrame(id) == Frame(3, 0, id, [0, 0, 0, 8])
  {
  }

  // ---------------------------------------------------------------- why a stream ended

  /** Reset by the peer: HTTP_1_1_REQUIRED gives up the connection as well, every other code the stream only. */
  lemma ResetIsTold(c: Conn, f: Frame)
    requires f.kind == 3 && f.streamId in c.streams
    ensures var d := Dispatch(c, f);
            && f.streamId in d.streams
            && d.streams[f.streamId].stream.error
               == (if f.payload == [0, 0, 0, 13] then Http11Required else RstStreamError)
            && d.connError == (if f.payload == [0, 0, 0, 13] then Http11Required else c.connError)
            && d.goingAway == (c.goingAway || f.payload == [0, 0, 0, 13])
  {
    hide Completed, Stepped;
    var s := c.streams[f.streamId].stream;
    CompletionKeepsError(OnFrame(c.streams[f.streamId], c.table, f).slot.stream);
  }

  lemma CompletionKeepsError(s: StreamState)
    ensures Completed(s).error == s.error && Completed(s.(isEnded := true)).error == s.error
    ensures Completed(s).headers == s.headers && Completed(s).isEnded == s.isEnded
  {
  }

  /**
   The peer leaves: a stream that is open and has no headers yet fails with the reason the frame gives; the others stay
   as they are. A frame too short for a reason fails them with what the connection knew before.
   */
  lemma GoAwayIsTold(c: Conn, f: Frame, id: nat)
    requires f.kind == 7 && id in c.streams
    ensures id in Dispatch(c, f).streams
    ensures var s, t := c.streams[id].stream, Dispatch(c, f).streams[id].stream;
            if s.isEnded || s.headers != [] then t == s
            else
              && t.isEnded
              && t.error == if |f.payload| < 8 then
                              (if c.connError == NoError then ReadingConnectionError else c.connError)
                            else if f.payload[4..8] == [0, 0, 0, 4] then SettingsTimeout
                            else if f.payload[4..8] == [0, 0, 0, 13] then Http11Required
                            else GoAway
    ensures Dispatch(c, f).goingAway == (c.goingAway || |f.payload| >= 8)
  {
    hide Completed, Stepped;
    CompletionKeepsError(c.streams[id].stream);
    var s := c.streams[id].stream;
    var error := if Dispatch(c, f).connError != NoError then Dispatch(c, f).connError else ReadingConnectionError;
    CompletionKeepsError(s.(error := error, isEnded := true));
  }

  /** The connection is lost: every open stream fails, with what the connection knew, and it is given up. */
  lemma LossIsTold(c: Conn, id: nat)
    requires !c.busy && id in c.streams
    ensures id in Happened(c, Lost).streams && Happened(c, Lost).goingAway
    ensures var s, t := c.streams[id].stream, Happened(c, Lost).streams[id].stream;
            if s.isEnded then t == s
            else t.isEnded && t.error == if c.connError == NoError then ReadingConnectionError else c.connError
  {
    hide Completed;
    var s := c.streams[id].stream;
    var error := if c.connError != NoError then c.connError else ReadingConnectionError;
    CompletionKeepsError(s.(error := error, isEnded := true));
  }

  /** A frame that ends a stream is answered by onComplete with the sink's error, or else the stream's, at once. */
  lemma EndingIsTold(c: Conn, f: Frame)
    requires f.streamId in c.streams && EndsStream(f, f.streamId)
    requires var s := c.streams[f.streamId].stream;
             s.sink.Some? && !s.sink.value.contract.collecting && !s.sink.value.completed
    ensures f.streamId in Dispatch(c, f).streams && Dispatch(c, f).streams[f.streamId].stream.sink.Some?
    ensures var t := Dispatch(c, f).streams[f.streamId].stream;
            var k := t.sink.value;
            k.completed && k.trace != []
            && k.trace[|k.trace| - 1] == OnComplete(if k.error != NoError then k.error else t.error)
  {
    hide OnFrame, Stepped;
    var slot := c.streams[f.streamId];
    var s := OnFrame(slot, c.table, f).slot.stream;
    FrameEnds(slot, c.table, f);
    FrameKeepsCallbacks(slot, c.table, f);
    assert s.isEnded && s.sink.Some? && !s.sink.value.completed && !s.sink.value.contract.collecting;
  }

  lemma FrameKeepsCallbacks(slot: Slot, table: Table, f: Frame)
    ensures SameLife(slot.stream, OnFrame(slot, table, f).slot.stream)
  {
    hide OnHeadersFrame, OnContinuation, Appended, HeadersDelivered;
    AppendedKeepsLife(slot.stream, f.payload);
    HeadersKeepLife(HeadersFrameOn(slot, table, f).slot.stream);
    HeadersKeepLife(ContinuationOn(slot, table, f).slot.stream);
  }

  /** A header block that does not fit its frame, or cannot be decoded, is the stream's error. */
  lemma BadBlockIsTold(c: Conn, f: Frame)
    requires f.kind == 1 && f.streamId in c.streams
    requires Fragment(f.payload, f.flags) == None
          || (f.flags / 4 % 2 == 1
              && DecodeHeaders(Fragment(f.payload, f.flags).value,
                               Decoding(c.streams[f.streamId].stream.headers, c.table, false), true).failed)
    ensures f.streamId in Dispatch(c, f).streams
    ensures Dispatch(c, f).streams[f.streamId].stream.error == DecodingHeadersFrameFailed
  {
    hide DecodeHeaders, Fragment, Completed, Stepped, HeadersDelivered, CancellationTaken;
    var s := OnFrame(c.streams[f.streamId], c.table, f).slot.stream;
    assert s.error == DecodingHeadersFrameFailed;
    ReadingKeepsError(s, f);
  }

  lemma ReadingKeepsError(s: StreamState, f: Frame)
    ensures EndReading(s, f).stream.error == s.error
  {
  }

  /** Frames of any other kind change nothing. */
  lemma OtherFramesAreIgnored(c: Conn, f: Frame)
    requires f.kind !in {0, 1, 3, 4, 6, 7, 9}
    ensures Dispatch(c, f) == c
  {
  }

  // ---------------------------------------------------------------- room for streams

  lemma HappenedKeepsRoom(c: Conn, e: Happening)
    requires |c.streams.Keys| <= 256
    ensures |Happened(c, e).streams.Keys| <= 256
  {
    hide Dispatch, ParseOne, OpenSlot, GivenUp;
    if e.HandleFrame? && NextFrame(c).Some? {
      DispatchKeepsBuffer(c, NextFrame(c).value);
    } else if e.Unregister? {
      FewerKeys(Happened(c, e).streams.Keys, c.streams.Keys);
    } else if e.EnterStream? {
      assert c.streams[e.id := OpenSlot(e.id, e.sink)].Keys == c.streams.Keys + {e.id};
    } else if e.SendFailed? && e.id in c.streams {
      assert c.streams[e.id := GivenUp(c.streams[e.id])].Keys == c.streams.Keys;
    }
  }

  lemma FewerKeys(a: set<nat>, b: set<nat>)
    requires a <= b
    ensures |a| <= |b|
  {
    assert |b| == |a| + |b - a| by { assert b == a + (b - a); }
  }

  /** At no step of any run are more than 256 streams registered. */
  lemma {:induction false} RunKeepsRoom(c: Conn, events: seq<Happening>)
    requires |c.streams.Keys| <= 256
    ensures |After(c, events).streams.Keys| <= 256
    decreases |events|
  {
    hide Happened;
    if events != [] {
      HappenedKeepsRoom(c, events[0]);
      RunKeepsRoom(Happened(c, events[0]), events[1..]);
    }
  }

  /** A drawn identifier enters its stream if and only if fewer than 256 are registered; it is spent either way. */
  lemma EntersIff(c: Conn, id: nat, contract: Option<Contract>)
    requires id in c.allotted && id !in c.streams
    ensures var d := Happened(c, EnterStream(id, contract));
            (id in d.streams <==> |c.streams| < 256) && d.allotted == c.allotted - {id}
  {
  }
}
