/** Independence from read splitting and stream interleaving: each stream gets its own data, in order. */
module Demultiplexing {
  import opened Octets
  import opened HpackPrimitives
  import opened DynamicTable
  import opened HeaderBlock
  import opened Frames
  import opened HeaderFraming
  import opened FlowControl
  import opened ResponseSink
  import opened Connection

  // ---------------------------------------------------------------- read splitting

  /** Two connections that differ in what is buffered and what is still to be written only. */
  ghost predicate SameButReader(c: Conn, d: Conn) {
    c == d.(flow := c.flow, kept := c.kept, busy := c.busy)
  }

  lemma DispatchIgnoresReader(c: Conn, d: Conn, f: Frame)
    requires SameButReader(c, d)
    ensures SameButReader(Dispatch(c, f), Dispatch(d, f))
  {
    if StreamScoped(f.kind) {
      StreamFrameIgnoresReader(c, d, f);
    } else {
      OtherFrameIgnoresReader(c, d, f);
    }
  }

  lemma StreamFrameIgnoresReader(c: Conn, d: Conn, f: Frame)
    requires SameButReader(c, d) && StreamScoped(f.kind)
    ensures SameButReader(Dispatch(c, f), Dispatch(d, f))
  {
    hide OnFrame, EndReading, Stepped, ScratchTable, GoAwayError, Answers, FailedAll, Http11RequiredCode;
  }

  lemma OtherFrameIgnoresReader(c: Conn, d: Conn, f: Frame)
    requires SameButReader(c, d) && !StreamScoped(f.kind)
    ensures SameButReader(Dispatch(c, f), Dispatch(d, f))
  {
    hide OnFrame, EndReading, Stepped, ScratchTable, GoAwayError, Answers, FailedAll, Http11RequiredCode;
  }

  /** The reader alone: no stream comes or goes, and the connection stays. */
  ghost predicate ReaderOnly(events: seq<Happening>) {
    forall e :: e in events ==> e.Arrive? || e.HandleFrame? || e.EndBatch?
  }

  /** What the reader makes of the streams and the table is a matter of the frames it handles. */
  lemma {:induction false} RunIsItsFrames(c: Conn, d: Conn, events: seq<Happening>)
    requires ReaderOnly(events) && SameButReader(c, d)
    ensures SameButReader(After(c, events), DispatchAll(d, FramesOf(c, events)))
    decreases |events|
  {
    hide Dispatch, ParseOne, Flushed;
    if events != [] {
      var e := events[0];
      assert e in events && forall g :: g in events[1..] ==> g in events;
      if e.HandleFrame? && NextFrame(c).Some? {
        var f := NextFrame(c).value;
        DispatchIgnoresReader(c, d, f);
        RunIsItsFrames(Happened(c, e), Dispatch(d, f), events[1..]);
        assert ([f] + FramesOf(Happened(c, e), events[1..]))[1..] == FramesOf(Happened(c, e), events[1..]);
      } else {
        RunIsItsFrames(Happened(c, e), d, events[1..]);
        assert [] + FramesOf(Happened(c, e), events[1..]) == FramesOf(Happened(c, e), events[1..]);
      }
    }
  }

  /**
   However the octets are cut into reads, once all their frames are handled the streams, the table and the errors are
   the same, and so is what is kept.
   */
  lemma SplittingNeverMatters(c: Conn, events: seq<Happening>, others: seq<Happening>)
    requires ReaderOnly(events) && ReaderOnly(others) && Arrived(c, events) == Arrived(c, others)
    requires ParseOne(After(c, events).kept) == None && ParseOne(After(c, others).kept) == None
    ensures FramesOf(c, events) == FramesOf(c, others)
    ensures SameButReader(After(c, events), After(c, others)) && After(c, events).kept == After(c, others).kept
  {
    hide After, Parse, ParseOne, FramesOf, Arrived, DispatchAll;
    FramesOfRun(c, events);
    FramesOfRun(c, others);
    ParseIncomplete(After(c, events).kept);
    ParseIncomplete(After(c, others).kept);
    assert FramesOf(c, events) + [] == FramesOf(c, events) && FramesOf(c, others) + [] == FramesOf(c, others);
    RunIsItsFrames(c, c, events);
    RunIsItsFrames(c, c, others);
  }

  lemma ParseIncomplete(s: seq<byte>)
    requires ParseOne(s) == None
    ensures Parse(s) == Parsed([], s)
  {
    hide ParseOne;
  }

  // ---------------------------------------------------------------- bodies

  /** The payloads of a stream's own DATA frames, in order. */
  function DataFor(frames: seq<Frame>, id: nat): (body: seq<byte>) {
    if frames == [] then []
    else (if frames[0].kind == DATA && frames[0].streamId == id then frames[0].payload else [])
         + DataFor(frames[1..], id)
  }

  /** A frame passes its data on, unless the consumer has stopped. */
  lemma FramePassesOn(slot: Slot, table: Table, f: Frame)
    requires Undecoded(slot.stream)
    ensures PassedOn(slot.stream, OnFrame(slot, table, f).slot.stream, if f.kind == DATA then f.payload else [])
  {
    hide HeadersFrameOn, ContinuationOn, Appended, HeadersDelivered, PassedOn, Undecoded;
    var s, r := slot.stream, OnFrame(slot, table, f).slot.stream;
    if f.kind == DATA {
      AppendPassesOn(s, f.payload);
      EndMarkPassesNothing(s, Appended(s, f.payload).0, r, f.payload);
    } else if f.kind == HEADERS || f.kind == CONTINUATION {
      HeaderFramesMark(slot, table, f);
      var marked := if f.kind == HEADERS then HeadersFrameOn(slot, table, f).slot.stream
                    else ContinuationOn(slot, table, f).slot.stream;
      var told := if EndHeaders(f.flags) && marked.error == NoError then HeadersDelivered(marked) else marked;
      TellingPassesNothing(s, marked, told);
      EndMarkPassesNothing(s, told, r, []);
    } else {
      MarksPassNothing(s, r);
    }
  }

  lemma HeaderFramesMark(slot: Slot, table: Table, f: Frame)
    ensures var t := HeadersFrameOn(slot, table, f).slot.stream;
            t == slot.stream.(headers := t.headers, error := t.error)
    ensures var t := ContinuationOn(slot, table, f).slot.stream;
            t == slot.stream.(headers := t.headers, error := t.error)
  {
    hide OnHeadersFrame, OnContinuation;
  }

  lemma TellingPassesNothing(s: StreamState, marked: StreamState, told: StreamState)
    requires Undecoded(s) && marked == s.(headers := marked.headers, error := marked.error)
    requires told == marked || told == HeadersDelivered(marked)
    ensures PassedOn(s, told, [])
  {
    hide HeadersDelivered, PassedOn, Undecoded;
    MarksPassNothing(s, marked);
    PassedOnStaysUndecoded(s, marked, []);
    HeadersPassNothing(marked);
    if told != marked {
      PassedOnThrough(s, marked, told, [], []);
    }
  }

  lemma EndMarkPassesNothing(s: StreamState, t: StreamState, r: StreamState, data: seq<byte>)
    requires PassedOn(s, t, data) && r == t.(isEnded := r.isEnded)
    ensures PassedOn(s, r, data)
  {
    hide PassedOn, Undecoded;
    PassedOnStaysUndecoded(s, t, data);
    MarksPassNothing(t, r);
    PassedOnThrough(s, t, r, data, []);
  }

  lemma PassedOnStaysUndecoded(s: StreamState, t: StreamState, data: seq<byte>)
    requires PassedOn(s, t, data)
    ensures Undecoded(t) && data + [] == data
  {
  }

  lemma EndReadingPassesNothing(s: StreamState, f: Frame)
    requires Undecoded(s)
    ensures PassedOn(s, EndReading(s, f).stream, [])
  {
    hide Completed, PassedOn, Undecoded;
    var s1 := if s.isEnded then Completed(s) else s;
    CompletionPassesNothing(s);
    MarksPassNothing(s, s);
    PassedOnStaysUndecoded(s, s1, []);
    var s2 := CancellationTaken(s1).0;
    MarksPassNothing(s1, s2);
    PassedOnThrough(s, s1, s2, [], []);
    PassedOnStaysUndecoded(s, s2, []);
    var s3 := s2.(isEnded := true);
    MarksPassNothing(s2, s3);
    PassedOnThrough(s, s2, s3, [], []);
    PassedOnStaysUndecoded(s, s3, []);
    CompletionPassesNothing(s3);
    PassedOnThrough(s, s3, Completed(s3), [], []);
    MarksPassNothing(s, s);
  }

  lemma FailedSlotPassesNothing(slot: Slot, pending: bool, connError: Error)
    requires Undecoded(slot.stream)
    ensures PassedOn(slot.stream, FailedSlot(slot, pending, connError).stream, [])
  {
    hide Completed, PassedOn, Undecoded;
    var s := slot.stream;
    var t := s.(error := if connError != NoError then connError else ReadingConnectionError, isEnded := true);
    MarksPassNothing(s, s);
    MarksPassNothing(s, t);
    PassedOnStaysUndecoded(s, t, []);
    CompletionPassesNothing(t);
    PassedOnThrough(s, t, Completed(t), [], []);
  }

  lemma DispatchPassesOn(c: Conn, f: Frame, id: nat)
    requires id in c.streams && Undecoded(c.streams[id].stream)
    ensures id in Dispatch(c, f).streams
    ensures PassedOn(c.streams[id].stream, Dispatch(c, f).streams[id].stream,
                     if f.kind == DATA && f.streamId == id then f.payload else [])
  {
    hide OnFrame, EndReading, Stepped, ScratchTable, GoAwayError, FailedSlot, PassedOn, Undecoded;
    var slot := c.streams[id];
    MarksPassNothing(slot.stream, slot.stream);
    if StreamScoped(f.kind) && f.streamId == id {
      var now := if f.kind == DATA then f.payload else [];
      var s := OnFrame(slot, c.table, f).slot.stream;
      FramePassesOn(slot, c.table, f);
      PassedOnStaysUndecoded(slot.stream, s, now);
      EndReadingPassesNothing(s, f);
      PassedOnThrough(slot.stream, s, EndReading(s, f).stream, now, []);
    } else if !StreamScoped(f.kind) {
      FailedSlotPassesNothing(slot, true, Dispatch(c, f).connError);
    }
  }

  lemma {:induction false} DataForAppend(fs: seq<Frame>, gs: seq<Frame>, id: nat)
    ensures DataFor(fs + gs, id) == DataFor(fs, id) + DataFor(gs, id)
  {
    if fs == [] {
      assert fs + gs == gs;
    } else {
      assert (fs + gs)[1..] == fs[1..] + gs;
      DataForAppend(fs[1..], gs, id);
    }
  }

  lemma HappenedPassesOn(c: Conn, e: Happening, id: nat)
    requires id in c.streams && id !in c.allotted && id < c.nextId && Undecoded(c.streams[id].stream)
    requires e != Unregister(id)
    ensures var d := Happened(c, e);
            && id in d.streams && id !in d.allotted && id < d.nextId
            && PassedOn(c.streams[id].stream, d.streams[id].stream, DataFor(FrameOf(c, e), id))
  {
    hide Dispatch, ParseOne, Flushed, FailedSlot, PassedOn, Undecoded, OpenSlot;
    var s := c.streams[id].stream;
    MarksPassNothing(s, s);
    assert DataFor([], id) == [];
    if e.HandleFrame? && NextFrame(c).Some? {
      var f := NextFrame(c).value;
      DispatchPassesOn(c, f, id);
      DispatchKeepsBuffer(c, f);
      assert [f][1..] == [];
      var now := if f.kind == DATA && f.streamId == id then f.payload else [];
      assert now + [] == now;
    } else if e.SendFailed? {
      hide Completed;
      CompletionPassesNothing(s);
    } else if e.Lost? {
      FailedSlotPassesNothing(c.streams[id], false, c.connError);
    }
  }

  /** The payloads of the stream's DATA frames that arrive after its consumer stopped. */
  ghost function MissedFor(c: Conn, events: seq<Happening>, id: nat): (body: seq<byte>)
    decreases |events|
  {
    if events == [] then []
    else
      (if id in c.streams && Aborted(c.streams[id].stream) then DataFor(FrameOf(c, events[0]), id) else [])
      + MissedFor(Happened(c, events[0]), events[1..], id)
  }

  /**
   For every way of cutting the inbound octets into reads, whatever other streams come and go between frames, and
   whatever the consumer answers: the body of a stream that stays registered grows by a prefix of the payloads of its
   own DATA frames in order, and what it misses of them is what arrived after a verdict to stop.
   */
  lemma {:induction false} BodyUntilStopped(c: Conn, events: seq<Happening>, id: nat)
    requires id in c.streams && id !in c.allotted && id < c.nextId && Undecoded(c.streams[id].stream)
    requires Unregister(id) !in events
    ensures id in After(c, events).streams
    ensures var s, t := c.streams[id].stream, After(c, events).streams[id].stream;
            && Body(s) + DataFor(FramesOf(c, events), id) == Body(t) + MissedFor(c, events, id)
            && (Aborted(s) ==> Aborted(t) && MissedFor(c, events, id) == DataFor(FramesOf(c, events), id))
            && (!Aborted(t) ==> MissedFor(c, events, id) == [])
            && ((s.sink.Some? ==> NeverStops(s.sink.value.contract)) && !Aborted(s) ==> !Aborted(t))
    decreases |events|
  {
    hide Happened, Undecoded, Body, FrameOf, DataFor, NeverStops;
    var s := c.streams[id].stream;
    if events == [] {
      NoData(id);
    } else {
      var e, c1 := events[0], Happened(c, events[0]);
      assert e in events && forall g :: g in events[1..] ==> g in events;
      HappenedPassesOn(c, e, id);
      BodyUntilStopped(c1, events[1..], id);
      DataForAppend(FrameOf(c, e), FramesOf(c1, events[1..]), id);
      var now, later := DataFor(FrameOf(c, e), id), DataFor(FramesOf(c1, events[1..]), id);
      BodyGrows(Body(s), now, later, Body(After(c, events).streams[id].stream), MissedFor(c1, events[1..], id),
                Aborted(s), Body(c1.streams[id].stream));
    }
  }

  lemma BodyGrows(body: seq<byte>, now: seq<byte>, later: seq<byte>, after: seq<byte>, missed: seq<byte>, stopped: bool,
                  next: seq<byte>)
    requires next == body + (if stopped then [] else now) && next + later == after + missed
    requires stopped ==> missed == later
    ensures body + (now + later) == after + ((if stopped then now else []) + missed)
  {
    if stopped {
      assert body + [] == body;
      assert |next| == |after|;
      assert (next + later)[..|next|] == (after + missed)[..|after|];
      assert next == after;
    } else {
      assert [] + missed == missed;
      assert (body + now) + later == body + (now + later);
    }
  }

  /** The body is all of the stream's own DATA if and only if nothing of it arrived after a verdict to stop. */
  lemma BodyIsWholeIff(c: Conn, events: seq<Happening>, id: nat)
    requires id in c.streams && id !in c.allotted && id < c.nextId && Undecoded(c.streams[id].stream)
    requires Unregister(id) !in events
    ensures id in After(c, events).streams
    ensures var body, all := Body(After(c, events).streams[id].stream),
                             Body(c.streams[id].stream) + DataFor(FramesOf(c, events), id);
            body <= all && (body == all <==> MissedFor(c, events, id) == [])
  {
    hide After, Undecoded, Body, DataFor, FramesOf, MissedFor, NeverStops;
    BodyUntilStopped(c, events, id);
    var body, missed := Body(After(c, events).streams[id].stream), MissedFor(c, events, id);
    assert body + [] == body;
    if body + missed == body {
      assert |missed| == 0;
    }
  }

  /** For a consumer that never stops, it is all of it. */
  lemma BodyIsOwnDataInOrder(c: Conn, events: seq<Happening>, id: nat)
    requires id in c.streams && id !in c.allotted && id < c.nextId && PassesThrough(c.streams[id].stream)
    requires Unregister(id) !in events
    ensures var d := After(c, events);
            && id in d.streams
            && Body(d.streams[id].stream) == Body(c.streams[id].stream) + DataFor(FramesOf(c, events), id)
  {
    hide After, Body, DataFor, FramesOf, MissedFor;
    BodyUntilStopped(c, events, id);
    BodyIsWholeIff(c, events, id);
  }

  lemma NoData(id: nat)
    ensures DataFor([], id) == []
  {
  }

  // ---------------------------------------------------------------- padding

  /** DATA padding that fits its frame (section 6.1 of RFC 9113). */
  ghost predicate WellPadded(f: Frame) {
    f.kind == DATA && Padded(f.flags) ==> f.payload != [] && f.payload[0] < |f.payload|
  }

  /** The data a peer meant to send: what is left once padding is removed. */
  ghost function MeantData(f: Frame): (data: seq<byte>)
    requires WellPadded(f)
  {
    if f.kind == DATA && Padded(f.flags) then f.payload[1..|f.payload| - f.payload[0]] else f.payload
  }

  ghost function MeantFor(frames: seq<Frame>, id: nat): (body: seq<byte>)
    requires forall f :: f in frames ==> WellPadded(f)
  {
    if frames == [] then []
    else
      assert frames[0] in frames;
      (if frames[0].kind == DATA && frames[0].streamId == id then MeantData(frames[0]) else [])
      + MeantFor(frames[1..], id)
  }

  /** Padding is passed on as data: the body is the one meant exactly when none of its frames is padded. */
  lemma {:induction false} BodyIsMeantIffUnpadded(frames: seq<Frame>, id: nat)
    requires forall f :: f in frames ==> WellPadded(f)
    ensures |MeantFor(frames, id)| <= |DataFor(frames, id)|
    ensures DataFor(frames, id) == MeantFor(frames, id)
       <==> forall f :: f in frames && f.kind == DATA && f.streamId == id ==> !Padded(f.flags)
  {
    if frames != [] {
      var f := frames[0];
      assert WellPadded(f);
      BodyIsMeantIffUnpadded(frames[1..], id);
      assert forall g :: g in frames <==> g == f || g in frames[1..];
      var now := if f.kind == DATA && f.streamId == id then f.payload else [];
      var meant := if f.kind == DATA && f.streamId == id then MeantData(f) else [];
      assert |meant| <= |now|;
      if meant == now {
        assert DataFor(frames, id)[|now|..] == DataFor(frames[1..], id);
        assert MeantFor(frames, id)[|now|..] == MeantFor(frames[1..], id);
      } else {
        assert |meant| < |now|;
      }
    }
  }
}
