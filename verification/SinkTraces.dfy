/** What every run of the reader keeps: callback sequences, cancellations, and streams that are over. */
module SinkTraces {
  import opened Octets
  import opened HpackPrimitives
  import opened DynamicTable
  import opened HeaderBlock
  import opened Frames
  import opened HeaderFraming
  import opened FlowControl
  import opened StreamLedger
  import opened ResponseSink
  import opened Connection

  /** An ended stream has completed its callbacks, and a cancelled one has ended. */
  ghost predicate StreamInv(s: StreamState) {
    && SinkInv(s)
    && (s.sink.Some? && s.isEnded ==> s.sink.value.completed)
    && (s.sink.Some? && s.sink.value.cancellationTaken ==> s.isEnded)
  }

  /** Nothing but the body, the headers call and the error moved. */
  ghost predicate SameLife(s: StreamState, t: StreamState) {
    && t.id == s.id && t.sink.Some? == s.sink.Some?
    && (s.sink.Some? ==>
          && t.sink.value.contract == s.sink.value.contract
          && t.sink.value.completed == s.sink.value.completed
          && t.sink.value.cancellationTaken == s.sink.value.cancellationTaken)
  }

  lemma {:induction false} ConsumedAllKeepsLife(s: StreamState, pieces: seq<seq<byte>>)
    requires s.sink.Some?
    ensures SameLife(s, ConsumedAll(s, pieces)) && ConsumedAll(s, pieces).isEnded == s.isEnded
    decreases |pieces|
  {
    if pieces != [] && !Stops(s, pieces[0]) {
      ConsumedAllKeepsLife(ResponseSink.Consumed(s, pieces[0]), pieces[1..]);
    }
  }

  lemma AppendedKeepsLife(s: StreamState, data: seq<byte>)
    ensures SameLife(s, Appended(s, data).0) && Appended(s, data).0.isEnded == s.isEnded
  {
    hide ConsumedAll, StopsWithin;
    if data != [] && s.sink.Some? && !s.sink.value.aborted {
      var produced := Produced(s.sink.value, data);
      ConsumedAllKeepsLife(s.(sink := Some(Fed(s.sink.value, data))), produced.pieces);
    }
  }

  lemma HeadersKeepLife(s: StreamState)
    ensures SameLife(s, HeadersDelivered(s)) && HeadersDelivered(s).isEnded == s.isEnded
  {
  }

  /** A frame keeps the sink's invariant and never revives a stream. */
  lemma FrameKeepsSink(slot: Slot, table: Table, f: Frame)
    requires SinkInv(slot.stream)
    ensures var s := OnFrame(slot, table, f).slot.stream;
            SinkInv(s) && SameLife(slot.stream, s) && (slot.stream.isEnded ==> s.isEnded)
  {
    hide OnHeadersFrame, OnContinuation, Appended, HeadersDelivered, TraceInv;
    AppendedKeepsInv(slot.stream, f.payload);
    AppendedKeepsLife(slot.stream, f.payload);
    var headed, continued := HeadersFrameOn(slot, table, f).slot.stream, ContinuationOn(slot, table, f).slot.stream;
    HeadersDeliveredKeepsInv(headed);
    HeadersKeepLife(headed);
    HeadersDeliveredKeepsInv(continued);
    HeadersKeepLife(continued);
  }

  /** Ending a reading completes what is over, and cancels at most once. */
  lemma EndReadingKeepsInv(s: StreamState, f: Frame)
    requires SinkInv(s) && (s.sink.Some? && s.sink.value.cancellationTaken ==> s.isEnded)
    ensures var e := EndReading(s, f);
            && StreamInv(e.stream) && e.stream.id == s.id && (s.isEnded ==> e.stream.isEnded)
            && (Dead(e.reading) && !e.reading.reset ==> e.stream.isEnded)
            && e.reading.cancelStreamId in {0, s.id}
            && (s.isEnded ==> Dead(e.reading))
            && (s.sink == None ==> e.reading.cancelStreamId == 0 && e.stream.sink == None)
            && (s.sink.Some? ==> e.stream.sink.Some?)
            && (s.sink.Some? && s.sink.value.cancellationTaken ==>
                  e.reading.cancelStreamId == 0 && e.stream.sink.value.cancellationTaken)
            && (e.reading.cancelStreamId != 0 ==> e.stream.sink.value.cancellationTaken)
            && (s.sink.Some? && e.reading.cancelStreamId == 0 && s.id != 0 ==>
                  e.stream.sink.value.cancellationTaken == s.sink.value.cancellationTaken)
  {
    hide TraceInv;
    CompletedKeepsInv(s);
    var s1 := if s.isEnded then Completed(s) else s;
    CancellationKeepsInv(s1);
    CompletedKeepsInv(CancellationTaken(s1).0.(isEnded := true));
  }

  lemma FailedSlotKeepsInv(slot: Slot, onlyPending: bool, connError: Error)
    requires StreamInv(slot.stream)
    ensures var s := FailedSlot(slot, onlyPending, connError).stream;
            && StreamInv(s) && s.id == slot.stream.id && (slot.stream.isEnded ==> s.isEnded)
            && s.sink.Some? == slot.stream.sink.Some?
            && (s.sink.Some? ==> s.sink.value.cancellationTaken == slot.stream.sink.value.cancellationTaken)
  {
    hide TraceInv;
    var error := if connError != NoError then connError else ReadingConnectionError;
    CompletedKeepsInv(slot.stream.(error := error, isEnded := true));
  }

  // ---------------------------------------------------------------- cancellations on the wire

  function Cancels(fs: seq<Frame>, id: nat): (n: nat) {
    if fs == [] then 0
    else
      var f := fs[|fs| - 1];
      Cancels(fs[..|fs| - 1], id) + (if f.kind == RST_STREAM && f.streamId == id then 1 else 0)
  }

  lemma {:induction false} CancelsAppend(fs: seq<Frame>, gs: seq<Frame>, id: nat)
    ensures Cancels(fs + gs, id) == Cancels(fs, id) + Cancels(gs, id)
  {
    if gs == [] {
      assert fs + gs == fs;
    } else {
      assert (fs + gs)[..|fs + gs| - 1] == fs + gs[..|gs| - 1];
      CancelsAppend(fs, gs[..|gs| - 1], id);
    }
  }

  lemma CancelsOne(f: Frame, id: nat)
    ensures Cancels([f], id) == if f.kind == RST_STREAM && f.streamId == id then 1 else 0
  {
    assert [f][..0] == [];
    assert Cancels([], id) == 0;
  }

  lemma CancelsQueueOne(f: Flow, g: Frame, id: nat)
    ensures Cancels(AllFrames(f.(queued := f.queued + [g])), id)
         == Cancels(AllFrames(f), id) + (if g.kind == RST_STREAM && g.streamId == id then 1 else 0)
  {
    assert f.written + (f.queued + [g]) == AllFrames(f) + [g];
    CancelsAppend(AllFrames(f), [g], id);
    CancelsOne(g, id);
  }

  /** The ledger itself queues window updates only. */
  lemma ReplenishedAddsUpdates(f: Flow, id: nat, r: StreamReading)
    ensures var f' := Replenished(f, id, r);
            && f'.written == f.written
            && (f'.queued == f.queued
                || exists n :: f'.queued == f.queued + [WindowUpdateFrame(id, n)])
  {
    hide WindowUpdateFrame, Find;
    var f1 := if r.consumed > 0 then Tuned(f.(pendingConn := U32(f.pendingConn + r.consumed)), r.consumed) else f;
    TuneTouchesConnOnly(f.(pendingConn := U32(f.pendingConn + r.consumed)), r.consumed);
    DiscardTouchesStreamsOnly(f1, id);
    var f2 := Credited(f1, id, r.consumed);
    if f2.queued != f1.queued {
      var n :| f2.queued == f1.queued + [WindowUpdateFrame(id, n)];
    }
  }

  lemma CancelsAfterReading(f: Flow, id: nat, r: StreamReading, other: nat)
    requires r.cancelStreamId in {0, id} && id < 0x8000_0000
    ensures Cancels(AllFrames(Stepped(f, Reading(id, r))), other)
         == Cancels(AllFrames(f), other) + (if r.cancelStreamId != 0 && other == id then 1 else 0)
  {
    hide Replenished, Cancels;
    ReplenishedAddsUpdates(f, id, r);
    var f1 := Replenished(f, id, r);
    if f1.queued != f.queued {
      var n :| f1.queued == f.queued + [WindowUpdateFrame(id, n)];
      CancelsQueueOne(f, WindowUpdateFrame(id, n), other);
      assert AllFrames(f1) == AllFrames(f.(queued := f.queued + [WindowUpdateFrame(id, n)]));
    } else {
      assert AllFrames(f1) == AllFrames(f);
    }
    CancelsQueueOne(f1, CancelFrame(r.cancelStreamId), other);
  }

  lemma CancelsAfterFlush(f: Flow, id: nat)
    ensures Cancels(AllFrames(Flushed(f)), id) == Cancels(AllFrames(f), id)
  {
    hide Cancels, BigEndian32;
    CancelsQueueOne(f, WindowUpdateFrame(0, f.pendingConn), id);
    var due := f.flushDue && f.pendingConn > 0;
    var f' := if due then f.(queued := f.queued + [WindowUpdateFrame(0, f.pendingConn)]) else f;
    assert AllFrames(Flushed(f)) == AllFrames(f');
  }

  // ---------------------------------------------------------------- the connection

  predicate Taken(s: StreamState) {
    s.sink.Some? && s.sink.value.cancellationTaken
  }

  ghost predicate SlotsInv(c: Conn) {
    && (forall id :: id in c.streams ==>
          StreamInv(c.streams[id].stream) && c.streams[id].stream.id == id && 0 < id < c.nextId)
    && (forall id :: id in c.allotted ==> 0 < id < c.nextId && id !in c.streams)
  }

  /** One RST_STREAM per taken cancellation, none for a stream that has not been entered. */
  ghost predicate CancelsInv(c: Conn) {
    forall id: nat :: Cancels(AllFrames(c.flow), id) <= CancelsAllowed(c, id)
  }

  ghost function CancelsAllowed(c: Conn, id: nat): (n: nat) {
    if id < c.nextId && id !in c.allotted && (id in c.streams ==> Taken(c.streams[id].stream)) then 1 else 0
  }

  ghost predicate ConnectionInv(c: Conn) {
    SlotsInv(c) && CancelsInv(c) && 0 < c.nextId < 0x8000_0000
  }

  lemma DispatchKnown(c: Conn, f: Frame)
    requires ConnectionInv(c) && StreamScoped(f.kind) && f.streamId in c.streams
    ensures ConnectionInv(Dispatch(c, f))
  {
    hide OnFrame, EndReading, Stepped, StreamInv, SinkInv, Cancels, AllFrames;
    var id := f.streamId;
    var slot := c.streams[id];
    OpenStreamInv(slot.stream);
    FrameKeepsSink(slot, c.table, f);
    var s := OnFrame(slot, c.table, f).slot.stream;
    EndReadingKeepsInv(s, f);
    var e := EndReading(s, f);
    forall other: nat
      ensures Cancels(AllFrames(Dispatch(c, f).flow), other)
           == Cancels(AllFrames(c.flow), other) + (if e.reading.cancelStreamId != 0 && other == id then 1 else 0)
    {
      CancelsAfterReading(c.flow, id, e.reading, other);
    }
  }

  lemma OpenStreamInv(s: StreamState)
    requires StreamInv(s)
    ensures SinkInv(s) && (s.sink.Some? && s.sink.value.cancellationTaken ==> s.isEnded)
  {
  }

  lemma FailedAllKeepsSlots(c: Conn, onlyPending: bool, connError: Error)
    requires SlotsInv(c) && CancelsInv(c)
    ensures var c' := c.(streams := FailedAll(c.streams, onlyPending, connError)); SlotsInv(c') && CancelsInv(c')
  {
    hide FailedSlot, StreamInv, Cancels, AllFrames;
    forall id | id in c.streams
      ensures var s := FailedSlot(c.streams[id], onlyPending, connError).stream;
              StreamInv(s) && s.id == id && (Taken(s) <==> Taken(c.streams[id].stream))
    {
      FailedSlotKeepsInv(c.streams[id], onlyPending, connError);
    }
  }

  lemma DispatchOther(c: Conn, f: Frame)
    requires ConnectionInv(c) && !(StreamScoped(f.kind) && f.streamId in c.streams)
    ensures ConnectionInv(Dispatch(c, f))
  {
    hide ScratchTable, StreamInv, Cancels, AllFrames, FailedAll, GoAwayError, Taken;
    if !StreamScoped(f.kind) {
      var leaving := f.kind == GOAWAY && |f.payload| >= 8;
      var connError := if leaving then GoAwayError(f.payload) else c.connError;
      var c1 := c.(connError := connError, goingAway := leaving || c.goingAway);
      var c2 := if Answers(f) == [] then c1 else c1.(flow := Stepped(c1.flow, Control(Answers(f)[0])));
      forall id: nat
        ensures Cancels(AllFrames(c2.flow), id) == Cancels(AllFrames(c.flow), id)
      {
        if Answers(f) != [] {
          CancelsQueueOne(c.flow, Answers(f)[0], id);
        }
      }
      assert SlotsInv(c2) && CancelsInv(c2);
      FailedAllKeepsSlots(c2, true, connError);
    }
  }

  lemma DispatchKeepsInv(c: Conn, f: Frame)
    requires ConnectionInv(c)
    ensures ConnectionInv(Dispatch(c, f))
  {
    hide Dispatch, ConnectionInv;
    if StreamScoped(f.kind) && f.streamId in c.streams {
      DispatchKnown(c, f);
    } else {
      DispatchOther(c, f);
    }
  }

  /** What is buffered is no part of the invariant. */
  lemma BufferApart(c: Conn, kept: seq<byte>, busy: bool)
    requires ConnectionInv(c)
    ensures ConnectionInv(c.(kept := kept, busy := busy))
  {
    hide StreamInv, Cancels, AllFrames, Taken;
    var d := c.(kept := kept, busy := busy);
    assert forall id: nat :: CancelsAllowed(d, id) == CancelsAllowed(c, id);
  }

  lemma EnterKeepsInv(c: Conn, id: nat, contract: Option<Contract>)
    requires ConnectionInv(c)
    ensures ConnectionInv(Happened(c, EnterStream(id, contract)))
  {
    hide StreamInv, Cancels, AllFrames, Taken, OpenSlot;
    RegisteredInv(id, contract);
    var d := Happened(c, EnterStream(id, contract));
    forall other: nat
      ensures CancelsAllowed(c, other) <= CancelsAllowed(d, other)
    {
    }
  }

  lemma HappenedKeepsInv(c: Conn, e: Happening)
    requires ConnectionInv(c) && Happened(c, e).nextId < 0x8000_0000
    ensures ConnectionInv(Happened(c, e))
  {
    match e {
      case Arrive(chunk) => { BufferApart(c, c.kept + chunk, true); }
      case HandleFrame => { TakeKeepsInv(c); }
      case EndBatch => { EndBatchKeepsInv(c); }
      case Allot => { AllotKeepsInv(c); }
      case EnterStream(id, contract) => { EnterKeepsInv(c, id, contract); }
      case SendFailed(id) => { GivingUpKeepsInv(c, id); }
      case Unregister(id) => { RemovalKeepsInv(c, id); }
      case Lost => {
        hide StreamInv, Cancels, AllFrames, FailedAll, Taken;
        FailedAllKeepsSlots(c, false, c.connError);
      }
    }
  }

  lemma TakeKeepsInv(c: Conn)
    requires ConnectionInv(c)
    ensures ConnectionInv(Happened(c, HandleFrame))
  {
    hide Dispatch, ParseOne, ConnectionInv;
    if NextFrame(c).Some? {
      var f, used := NextFrame(c).value, ParseOne(c.kept).value.used;
      DispatchKeepsInv(c, f);
      DispatchKeepsBuffer(c, f);
      BufferApart(Dispatch(c, f), c.kept[used..], c.busy);
    }
  }

  lemma EndBatchKeepsInv(c: Conn)
    requires ConnectionInv(c)
    ensures ConnectionInv(Happened(c, EndBatch))
  {
    hide Flushed, StreamInv, Cancels, AllFrames, Taken, ParseOne;
    forall id: nat
      ensures Cancels(AllFrames(Flushed(c.flow)), id) == Cancels(AllFrames(c.flow), id)
    {
      CancelsAfterFlush(c.flow, id);
    }
    var d := Happened(c, EndBatch);
    assert forall id: nat :: CancelsAllowed(d, id) == CancelsAllowed(c, id);
  }

  lemma AllotKeepsInv(c: Conn)
    requires ConnectionInv(c) && c.nextId + 2 < 0x8000_0000
    ensures ConnectionInv(Happened(c, Allot))
  {
    hide StreamInv, Cancels, AllFrames, Taken;
    var d := Happened(c, Allot);
    forall id: nat
      ensures Cancels(AllFrames(d.flow), id) <= CancelsAllowed(d, id)
    {
      assert Cancels(AllFrames(c.flow), id) <= CancelsAllowed(c, id);
    }
  }

  lemma RemovalKeepsInv(c: Conn, id: nat)
    requires ConnectionInv(c)
    ensures ConnectionInv(Happened(c, Unregister(id)))
  {
    hide StreamInv, Cancels, AllFrames, Taken;
    var d := Happened(c, Unregister(id));
    forall other: nat
      ensures CancelsAllowed(c, other) <= CancelsAllowed(d, other)
    {
    }
  }

  lemma GivingUpKeepsInv(c: Conn, id: nat)
    requires ConnectionInv(c)
    ensures ConnectionInv(Happened(c, SendFailed(id)))
  {
    hide StreamInv, Cancels, AllFrames, Taken, GivenUp;
    if id in c.streams {
      GivenUpKeepsInv(c.streams[id]);
      var d := Happened(c, SendFailed(id));
      forall other: nat
        ensures CancelsAllowed(c, other) == CancelsAllowed(d, other)
      {
      }
    }
  }

  lemma GivenUpKeepsInv(slot: Slot)
    requires StreamInv(slot.stream)
    ensures var s := GivenUp(slot).stream;
            StreamInv(s) && s.id == slot.stream.id && (Taken(s) <==> Taken(slot.stream))
  {
    hide TraceInv;
    CompletedKeepsInv(slot.stream);
  }

  lemma RegisteredInv(id: nat, contract: Option<Contract>)
    ensures StreamInv(OpenSlot(id, contract).stream) && OpenSlot(id, contract).stream.id == id
    ensures !Taken(OpenSlot(id, contract).stream)
  {
    if contract.Some? {
      NewSinkInv(contract.value);
    }
  }

  lemma InitialInv(table: Table)
    ensures ConnectionInv(InitialConn(table))
  {
    assert AllFrames(InitialFlow) == [];
  }

  lemma NextIdGrows(c: Conn, e: Happening)
    ensures Happened(c, e).nextId >= c.nextId
  {
    hide Dispatch, ParseOne;
    if e.HandleFrame? && NextFrame(c).Some? {
      DispatchKeepsBuffer(c, NextFrame(c).value);
    }
  }

  lemma {:induction false} NextIdGrowsAlways(c: Conn, events: seq<Happening>)
    ensures After(c, events).nextId >= c.nextId
    decreases |events|
  {
    hide Happened;
    if events != [] {
      NextIdGrows(c, events[0]);
      NextIdGrowsAlways(Happened(c, events[0]), events[1..]);
    }
  }

  /**
   Whatever frames arrive, in whatever reads, and whatever streams come and go between them: every stream's calls form
   a legal sequence, every ended stream has completed it, and at most one RST_STREAM is ever queued for a stream.
   */
  lemma {:induction false} RunKeepsSinks(c: Conn, events: seq<Happening>)
    requires ConnectionInv(c) && After(c, events).nextId < 0x8000_0000
    ensures ConnectionInv(After(c, events))
    decreases |events|
  {
    hide ConnectionInv, Happened;
    if events != [] {
      NextIdGrowsAlways(Happened(c, events[0]), events[1..]);
      HappenedKeepsInv(c, events[0]);
      RunKeepsSinks(Happened(c, events[0]), events[1..]);
    }
  }

  /** The same, read off any stream of a run from the start. */
  lemma SinkTracesAreLegal(table: Table, events: seq<Happening>, id: nat)
    requires After(InitialConn(table), events).nextId < 0x8000_0000
    ensures var c := After(InitialConn(table), events);
            && Cancels(AllFrames(c.flow), id) <= 1
            && (id in c.streams && c.streams[id].stream.sink.Some? ==>
                  var s, k := c.streams[id].stream, c.streams[id].stream.sink.value;
                  && CountHeaders(k.trace) <= 1 && CountComplete(k.trace) <= 1
                  && (forall i, j :: 0 <= i < j < |k.trace| && StoppedAt(k, i) ==> !k.trace[j].OnData?)
                  && (s.isEnded && !k.contract.collecting ==> CountComplete(k.trace) == 1))
  {
    hide After, Cancels, StoppedAt;
    InitialInv(table);
    RunKeepsSinks(InitialConn(table), events);
    var c := After(InitialConn(table), events);
    if id in c.streams {
      EmptyCounts();
      assert StreamInv(c.streams[id].stream);
    }
  }

  lemma EmptyCounts()
    ensures CountHeaders([]) == 0 && CountComplete([]) == 0
  {
  }
}
