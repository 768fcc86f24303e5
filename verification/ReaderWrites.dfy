/** What a run of the reader puts on the wire: answers in arrival order, legal credit, nothing for a finished stream. */
module ReaderWrites {
  import opened Octets
  import opened HpackPrimitives
  import opened DynamicTable
  import opened Frames
  import opened FlowControl
  import opened StreamLedger
  import opened ReaderSession
  import opened ResponseSink
  import opened Connection
  import opened SinkTraces

  // ---------------------------------------------------------------- each frame is a step of the ledger

  /** What handling a frame does to the ledger. */
  ghost function StepOf(c: Conn, f: Frame): (steps: seq<Step>)
    ensures |steps| <= 1
  {
    if StreamScoped(f.kind) then
      if f.streamId in c.streams then
        [Reading(f.streamId, EndReading(OnFrame(c.streams[f.streamId], c.table, f).slot.stream, f).reading)]
      else []
    else if Answers(f) == [] then [] else [Control(Answers(f)[0])]
  }

  lemma DispatchSteps(c: Conn, f: Frame)
    ensures Dispatch(c, f).flow == if StepOf(c, f) == [] then c.flow else Stepped(c.flow, StepOf(c, f)[0])
  {
    hide OnFrame, EndReading, Stepped, ScratchTable, GoAwayError;
  }

  lemma StepIsValid(c: Conn, f: Frame)
    requires ConnectionInv(c) && ValidFrame(f)
    ensures (forall s :: s in StepOf(c, f) ==> ValidStep(s)) && FlowControl.Consumed(StepOf(c, f)) <= |f.payload|
  {
    hide OnFrame, EndReading, SinkInv, TraceInv, CancelsInv;
    if StreamScoped(f.kind) && f.streamId in c.streams {
      var slot := c.streams[f.streamId];
      assert StreamInv(slot.stream);
      FrameKeepsSink(slot, c.table, f);
      var s := OnFrame(slot, c.table, f).slot.stream;
      EndReadingKeepsInv(s, f);
      ConsumedIsPayload(s, f);
      assert StepOf(c, f)[1..] == [];
    }
  }

  lemma ConsumedIsPayload(s: StreamState, f: Frame)
    ensures EndReading(s, f).reading.consumed <= |f.payload|
  {
    hide Completed, CancellationTaken;
  }

  lemma NextFrameIsValid(c: Conn)
    requires NextFrame(c).Some?
    ensures ValidFrame(NextFrame(c).value)
    ensures |NextFrame(c).value.payload| < ParseOne(c.kept).value.used <= |c.kept|
  {
    hide ParseOne;
    ParsedFramesAreValid(c.kept);
    ParseUnfold(c.kept);
    assert NextFrame(c).value in Parse(c.kept).frames;
    FrameTakesMore(c.kept);
  }

  lemma FrameTakesMore(s: seq<byte>)
    requires ParseOne(s).Some?
    ensures |ParseOne(s).value.value.payload| < ParseOne(s).value.used <= |s|
  {
  }

  // ---------------------------------------------------------------- connection credit, end to end

  /** Inside a batch that may still consume `room` octets. */
  ghost predicate InBatch(f: Flow, consumed: nat, room: nat) {
    LedgerInv(f.streams)
    && exists k, start, batch :: 0 <= batch && batch + room <= BATCH_MAX && ConnInv(f, k, start, consumed, batch)
  }

  /** The books of a connection whose registered streams have consumed so much. */
  ghost predicate CreditInv(c: Conn, consumed: nat) {
    if c.busy then InBatch(c.flow, consumed, |c.kept|)
    else BetweenBatches(c.flow, consumed) && ParseOne(c.kept) == None
  }

  /** DATA octets consumed on registered streams at one step. */
  ghost function ConsumedNow(c: Conn, e: Happening): (n: nat) {
    if e.HandleFrame? && NextFrame(c).Some? then FlowControl.Consumed(StepOf(c, NextFrame(c).value)) else 0
  }

  /** The same over a run. */
  ghost function RegisteredOctets(c: Conn, events: seq<Happening>): (n: nat)
    decreases |events|
  {
    if events == [] then 0 else ConsumedNow(c, events[0]) + RegisteredOctets(Happened(c, events[0]), events[1..])
  }

  lemma ArrivalOpensBatch(c: Conn, chunk: seq<byte>, consumed: nat)
    requires BetweenBatches(c.flow, consumed) && ParseOne(c.kept) == None && |chunk| <= READ_MAX
    ensures InBatch(c.flow, consumed, |c.kept + chunk|)
  {
    hide ConnInv, LedgerInv;
    var k :| 0 <= k <= 9 && ConnInv(c.flow, k, c.flow.target, consumed, 0);
    KeptIsShort(c.kept);
    assert 0 + |c.kept + chunk| <= BATCH_MAX;
  }

  lemma KeptIsShort(s: seq<byte>)
    requires ParseOne(s) == None
    ensures |s| <= 0x100_0000 + 7
  {
  }

  lemma StepStaysInBatch(f: Flow, s: Step, consumed: nat, room: nat, rest: nat)
    requires InBatch(f, consumed, room) && ValidStep(s) && FlowControl.Consumed([s]) + rest <= room
    ensures InBatch(Stepped(f, s), consumed + FlowControl.Consumed([s]), rest)
  {
    hide ConnInv, LedgerInv, Stepped, ValidStep, FlowControl.Consumed;
    var k, start, batch :| 0 <= batch && batch + room <= BATCH_MAX && ConnInv(f, k, start, consumed, batch);
    var k' := StepKeepsConnInv(f, k, start, consumed, batch, s);
    StepKeepsLedgerInv(f, s);
  }

  lemma FlushClosesBatch(f: Flow, consumed: nat, room: nat)
    requires InBatch(f, consumed, room)
    ensures BetweenBatches(Flushed(f), consumed)
  {
    hide ConnInv, LedgerInv, Flushed;
    var k, start, batch :| 0 <= batch && batch + room <= BATCH_MAX && ConnInv(f, k, start, consumed, batch);
    FlushKeepsBooks(f, k, start, consumed);
  }

  lemma HandlingKeepsCredit(c: Conn, consumed: nat)
    requires ConnectionInv(c) && CreditInv(c, consumed) && NextFrame(c).Some?
    ensures CreditInv(Happened(c, HandleFrame), consumed + ConsumedNow(c, HandleFrame))
  {
    hide ConnectionInv, InBatch, Dispatch, ParseOne, StepOf, ValidStep, ValidFrame, Stepped;
    var f, used := NextFrame(c).value, ParseOne(c.kept).value.used;
    NextFrameIsValid(c);
    StepIsValid(c, f);
    DispatchSteps(c, f);
    DispatchKeepsBuffer(c, f);
    var steps := StepOf(c, f);
    if steps == [] {
      RoomShrinks(c.flow, consumed, |c.kept|, |c.kept| - used);
    } else {
      assert steps == [steps[0]];
      StepStaysInBatch(c.flow, steps[0], consumed, |c.kept|, |c.kept| - used);
    }
  }

  lemma RoomShrinks(f: Flow, consumed: nat, room: nat, less: nat)
    requires InBatch(f, consumed, room) && less <= room
    ensures InBatch(f, consumed, less)
  {
    hide ConnInv, LedgerInv;
  }

  lemma HappenedKeepsCredit(c: Conn, e: Happening, consumed: nat)
    requires ConnectionInv(c) && CreditInv(c, consumed)
    ensures CreditInv(Happened(c, e), consumed + ConsumedNow(c, e))
  {
    hide ConnectionInv, InBatch, BetweenBatches, Dispatch, Flushed, StepOf, ParseOne;
    match e {
      case Arrive(chunk) => {
        if !c.busy && |chunk| <= READ_MAX {
          ArrivalOpensBatch(c, chunk, consumed);
        }
      }
      case HandleFrame => {
        if NextFrame(c).Some? {
          HandlingKeepsCredit(c, consumed);
        }
      }
      case EndBatch => {
        if c.busy && ParseOne(c.kept) == None {
          FlushClosesBatch(c.flow, consumed, |c.kept|);
        }
      }
      case Allot => {
      }
      case EnterStream(id, contract) => {
      }
      case SendFailed(id) => {
      }
      case Unregister(id) => {
      }
      case Lost => {
      }
    }
  }

  /** Over any run, at every step, the connection's credit is in balance for what registered streams consumed. */
  lemma {:induction false} RunBalancesCredit(c: Conn, events: seq<Happening>, consumed: nat)
    requires ConnectionInv(c) && CreditInv(c, consumed) && After(c, events).nextId < 0x8000_0000
    ensures CreditInv(After(c, events), consumed + RegisteredOctets(c, events))
    decreases |events|
  {
    hide ConnectionInv, CreditInv, Happened, ConsumedNow;
    if events != [] {
      var e := events[0];
      NextIdGrowsAlways(Happened(c, e), events[1..]);
      HappenedKeepsInv(c, e);
      HappenedKeepsCredit(c, e, consumed);
      RunBalancesCredit(Happened(c, e), events[1..], consumed + ConsumedNow(c, e));
    }
  }

  /** What the books say, within a batch and between batches. */
  lemma CreditSays(c: Conn, consumed: nat)
    requires CreditInv(c, consumed)
    ensures Conserved(c.flow, consumed) && GoodIncrements(c.flow.written)
    ensures exists k :: 0 <= k <= 9 && c.flow.target == Target(k)
    ensures !c.busy ==>
              && c.flow.pendingConn < CONNECTION_WINDOW_UPDATE_THRESHOLD
              && ConnCredit(c.flow.written) + c.flow.pendingConn == consumed + c.flow.target - INITIAL_WINDOW
  {
    hide Target, LedgerInv, Conserved, GoodIncrements, ConnCredit;
    if c.busy {
      var k, start, batch :| 0 <= batch && batch + |c.kept| <= BATCH_MAX && ConnInv(c.flow, k, start, consumed, batch);
      assert c.flow.target == Target(k);
    } else {
      BooksSay(c.flow, consumed);
      var k :| 0 <= k <= 9 && ConnInv(c.flow, k, c.flow.target, consumed, 0);
      assert c.flow.target == Target(k);
    }
  }

  /**
   From the first octet on and at every step: the books balance, increments are legal and the peer's window never
   overflows; between batches little is owed, and a peer whose DATA was all consumed on registered streams has credit.
   */
  lemma ReaderKeepsPeerInCredit(table: Table, events: seq<Happening>, advertised: nat, sent: nat)
    requires After(InitialConn(table), events).nextId < 0x8000_0000
    requires advertised + CONNECTION_WINDOW_MAX < 0x8000_0000
    requires sent >= RegisteredOctets(InitialConn(table), events)
    ensures var c, n := After(InitialConn(table), events), RegisteredOctets(InitialConn(table), events);
            && Conserved(c.flow, n) && (exists k :: 0 <= k <= 9 && c.flow.target == Target(k))
            && GoodIncrements(c.flow.written)
            && PeerWindow(advertised, ConnCredit(c.flow.written), sent) < 0x8000_0000
            && (!c.busy ==>
                  && c.flow.pendingConn < CONNECTION_WINDOW_UPDATE_THRESHOLD
                  && (sent == n ==> PeerWindow(advertised, ConnCredit(c.flow.written), sent) > advertised))
  {
    hide ConnectionInv, After, RegisteredOctets, GoodIncrements, ConnCredit, CreditInv, Target;
    var c, n := After(InitialConn(table), events), RegisteredOctets(InitialConn(table), events);
    InitialInv(table);
    InitialCredit(table);
    RunBalancesCredit(InitialConn(table), events, 0);
    CreditSays(c, n);
    var k :| 0 <= k <= 9 && c.flow.target == Target(k);
    TargetRange(k);
  }

  lemma InitialCredit(table: Table)
    ensures CreditInv(InitialConn(table), 0)
  {
    hide BetweenBatches;
    InitialBooks();
  }

  // ---------------------------------------------------------------- answers

  /** The SETTINGS and PING frames among these. */
  function Acks(fs: seq<Frame>): (r: seq<Frame>) {
    if fs == [] then []
    else
      var f := fs[|fs| - 1];
      Acks(fs[..|fs| - 1]) + (if f.kind == 4 || f.kind == 6 then [f] else [])
  }

  /** An empty ACK for every SETTINGS and an echo for every PING of 8 octets, but for those that are ACKs themselves. */
  function AnswersAll(frames: seq<Frame>): (r: seq<Frame>) {
    if frames == [] then []
    else
      var f := frames[0];
      (if f.kind == 4 && f.flags % 2 == 0 then [Frame(4, 1, 0, [])]
       else if f.kind == 6 && f.flags % 2 == 0 && |f.payload| == 8 then [Frame(6, 1, 0, f.payload)]
       else [])
      + AnswersAll(frames[1..])
  }

  lemma {:induction false} AcksAppend(fs: seq<Frame>, gs: seq<Frame>)
    ensures Acks(fs + gs) == Acks(fs) + Acks(gs)
  {
    if gs == [] {
      assert fs + gs == fs;
    } else {
      assert (fs + gs)[..|fs + gs| - 1] == fs + gs[..|gs| - 1];
      AcksAppend(fs, gs[..|gs| - 1]);
    }
  }

  lemma AcksQueueOne(f: Flow, g: Frame)
    ensures Acks(AllFrames(f.(queued := f.queued + [g])))
         == Acks(AllFrames(f)) + (if g.kind == SETTINGS || g.kind == PING then [g] else [])
  {
    assert f.written + (f.queued + [g]) == AllFrames(f) + [g];
    AcksAppend(AllFrames(f), [g]);
    assert [g][..0] == [];
    assert Acks([]) == [];
  }

  lemma AcksAfterReading(f: Flow, id: nat, r: StreamReading)
    ensures Acks(AllFrames(Stepped(f, Reading(id, r)))) == Acks(AllFrames(f))
  {
    hide Replenished, Acks, BigEndian32;
    ReplenishedAddsUpdates(f, id, r);
    var f1 := Replenished(f, id, r);
    if f1.queued != f.queued {
      var n :| f1.queued == f.queued + [WindowUpdateFrame(id, n)];
      AcksQueueOne(f, WindowUpdateFrame(id, n));
      assert AllFrames(f1) == AllFrames(f.(queued := f.queued + [WindowUpdateFrame(id, n)]));
    } else {
      assert AllFrames(f1) == AllFrames(f);
    }
    AcksQueueOne(f1, CancelFrame(r.cancelStreamId));
    assert forall s: seq<Frame> :: s + [] == s;
  }

  lemma AcksAfterFlush(f: Flow)
    ensures Acks(AllFrames(Flushed(f))) == Acks(AllFrames(f))
  {
    hide Acks, BigEndian32;
    AcksQueueOne(f, WindowUpdateFrame(0, f.pendingConn));
    var due := f.flushDue && f.pendingConn > 0;
    var f' := if due then f.(queued := f.queued + [WindowUpdateFrame(0, f.pendingConn)]) else f;
    assert AllFrames(Flushed(f)) == AllFrames(f');
    assert forall s: seq<Frame> :: s + [] == s;
  }

  lemma DispatchAnswers(c: Conn, f: Frame)
    ensures Acks(AllFrames(Dispatch(c, f).flow)) == Acks(AllFrames(c.flow)) + Answers(f)
  {
    hide OnFrame, EndReading, ScratchTable, GoAwayError, FailedAll, Acks, AllFrames, Replenished;
    assert forall s: seq<Frame> :: s + [] == s;
    if StreamScoped(f.kind) {
      if f.streamId in c.streams {
        AcksAfterReading(c.flow, f.streamId,
                         EndReading(OnFrame(c.streams[f.streamId], c.table, f).slot.stream, f).reading);
      }
    } else if Answers(f) != [] {
      AcksQueueOne(c.flow, Answers(f)[0]);
      assert Answers(f) == [Answers(f)[0]];
    }
  }

  lemma {:induction false} AnswersAppend(fs: seq<Frame>, gs: seq<Frame>)
    ensures AnswersAll(fs + gs) == AnswersAll(fs) + AnswersAll(gs)
  {
    hide Answers;
    if fs == [] {
      assert fs + gs == gs;
    } else {
      assert (fs + gs)[1..] == fs[1..] + gs;
      AnswersAppend(fs[1..], gs);
    }
  }

  lemma OneAnswer(f: Frame)
    ensures AnswersAll([f]) == Answers(f)
  {
    assert [f][1..] == [];
    NothingToAnswer();
    assert Answers(f) + [] == Answers(f);
  }

  lemma HappenedAnswers(c: Conn, e: Happening)
    ensures Acks(AllFrames(Happened(c, e).flow)) == Acks(AllFrames(c.flow)) + AnswersAll(FrameOf(c, e))
  {
    hide Dispatch, ParseOne, Acks, AllFrames, Answers, Flushed, FailedAll;
    NothingToAnswer();
    assert Acks(AllFrames(c.flow)) + [] == Acks(AllFrames(c.flow));
    if e.HandleFrame? && NextFrame(c).Some? {
      var f := NextFrame(c).value;
      DispatchAnswers(c, f);
      OneAnswer(f);
    } else if e.EndBatch? {
      AcksAfterFlush(c.flow);
    }
  }

  /**
   Over any run the SETTINGS and PING frames sent are exactly one empty ACK per SETTINGS and one echo per PING of
   8 octets that was not itself an ACK, in arrival order.
   */
  lemma {:induction false} RunAnswersInOrder(c: Conn, events: seq<Happening>)
    ensures Acks(AllFrames(After(c, events).flow)) == Acks(AllFrames(c.flow)) + AnswersAll(FramesOf(c, events))
    decreases |events|
  {
    hide Happened, Acks, AllFrames, AnswersAll, FrameOf;
    if events == [] {
      NothingToAnswer();
      assert Acks(AllFrames(c.flow)) + [] == Acks(AllFrames(c.flow));
    } else {
      var e := events[0];
      HappenedAnswers(c, e);
      RunAnswersInOrder(Happened(c, e), events[1..]);
      AnswersAppend(FrameOf(c, e), FramesOf(Happened(c, e), events[1..]));
    }
  }

  lemma NothingToAnswer()
    ensures AnswersAll([]) == []
  {
  }

  // ---------------------------------------------------------------- streams that are over

  /** A stream that has ended, or is no longer registered. */
  ghost predicate Over(c: Conn, id: nat) {
    0 < id < c.nextId && id !in c.allotted && (id in c.streams ==> c.streams[id].stream.isEnded)
  }

  lemma DispatchOver(c: Conn, f: Frame, id: nat)
    requires ConnectionInv(c) && LedgerInv(c.flow.streams) && ValidFrame(f) && Over(c, id)
    ensures Over(Dispatch(c, f), id) && LedgerInv(Dispatch(c, f).flow.streams)
    ensures Updates(AllFrames(Dispatch(c, f).flow), id) == Updates(AllFrames(c.flow), id)
  {
    hide OnFrame, EndReading, ScratchTable, GoAwayError, Stepped, SinkInv, CancelsInv, LedgerInv, Updates, ValidStep;
    StepIsValid(c, f);
    if StreamScoped(f.kind) {
      if f.streamId in c.streams {
        var slot := c.streams[f.streamId];
        assert StreamInv(slot.stream);
        FrameKeepsSink(slot, c.table, f);
        var s := OnFrame(slot, c.table, f).slot.stream;
        EndReadingKeepsInv(s, f);
        var r := EndReading(s, f).reading;
        assert Reading(f.streamId, r) in StepOf(c, f);
        StepKeepsLedgerInv(c.flow, Reading(f.streamId, r));
        if f.streamId == id {
          DeadStep(c.flow, id, r);
        } else {
          OtherStep(c.flow, Reading(f.streamId, r), id);
        }
      }
    } else {
      FailedAllStaysOver(c.streams, Dispatch(c, f).connError, id);
      if Answers(f) != [] {
        assert Control(Answers(f)[0]) in StepOf(c, f);
        StepKeepsLedgerInv(c.flow, Control(Answers(f)[0]));
        OtherStep(c.flow, Control(Answers(f)[0]), id);
      }
    }
  }

  lemma FailedAllStaysOver(streams: map<nat, Slot>, connError: Error, id: nat)
    requires id in streams ==> streams[id].stream.isEnded
    ensures forall pending: bool ::
              id in streams ==> FailedAll(streams, pending, connError)[id].stream.isEnded
  {
  }

  lemma HappenedOver(c: Conn, e: Happening, id: nat)
    requires ConnectionInv(c) && LedgerInv(c.flow.streams) && Over(c, id)
    ensures Over(Happened(c, e), id) && LedgerInv(Happened(c, e).flow.streams)
    ensures Updates(AllFrames(Happened(c, e).flow), id) == Updates(AllFrames(c.flow), id)
  {
    hide Dispatch, ParseOne, Flushed, ConnectionInv, LedgerInv, Updates, AllFrames, ValidFrame;
    if e.HandleFrame? && NextFrame(c).Some? {
      var f := NextFrame(c).value;
      NextFrameIsValid(c);
      DispatchOver(c, f, id);
    } else if e.EndBatch? {
      FlushKeepsUpdates(c.flow, id);
      FlushKeepsStreams(c.flow);
    } else if e.Lost? {
      FailedAllStaysOver(c.streams, c.connError, id);
    }
  }

  /** Once a stream has ended, was reset, cancelled or unregistered, no later WINDOW_UPDATE names it. */
  lemma {:induction false} NoUpdateOnceOver(c: Conn, events: seq<Happening>, id: nat)
    requires ConnectionInv(c) && LedgerInv(c.flow.streams) && Over(c, id)
    requires After(c, events).nextId < 0x8000_0000
    ensures Updates(AllFrames(After(c, events).flow), id) == Updates(AllFrames(c.flow), id)
    decreases |events|
  {
    hide Happened, ConnectionInv, Over, LedgerInv, Updates, AllFrames;
    if events != [] {
      NextIdGrowsAlways(Happened(c, events[0]), events[1..]);
      HappenedKeepsInv(c, events[0]);
      HappenedOver(c, events[0], id);
      NoUpdateOnceOver(Happened(c, events[0]), events[1..], id);
    }
  }

  // ---------------------------------------------------------------- the octets on the wire

  ghost predicate FramesValid(f: Flow) {
    forall g :: g in AllFrames(f) ==> ValidFrame(g)
  }

  lemma QueueValid(f: Flow, g: Frame)
    requires FramesValid(f) && ValidFrame(g)
    ensures FramesValid(f.(queued := f.queued + [g]))
  {
    hide ValidFrame;
    assert f.written + (f.queued + [g]) == AllFrames(f) + [g];
  }

  lemma ControlFramesValid(id: nat, n: nat)
    ensures ValidFrame(WindowUpdateFrame(id, n)) && ValidFrame(CancelFrame(id))
  {
  }

  lemma ReadingQueuesValid(f: Flow, id: nat, r: StreamReading)
    requires FramesValid(f)
    ensures FramesValid(Stepped(f, Reading(id, r)))
  {
    hide Replenished, ValidFrame, WindowUpdateFrame, CancelFrame, AllFrames;
    ReplenishedAddsUpdates(f, id, r);
    var f1 := Replenished(f, id, r);
    if f1.queued != f.queued {
      var n :| f1.queued == f.queued + [WindowUpdateFrame(id, n)];
      ControlFramesValid(id, n);
      QueueValid(f, WindowUpdateFrame(id, n));
      SameQueue(f.(queued := f.queued + [WindowUpdateFrame(id, n)]), f1);
    } else {
      SameQueue(f, f1);
    }
    ControlFramesValid(r.cancelStreamId, 0);
    QueueValid(f1, CancelFrame(r.cancelStreamId));
  }

  lemma SameQueue(f: Flow, g: Flow)
    requires f.queued == g.queued && f.written == g.written && FramesValid(f)
    ensures FramesValid(g)
  {
  }

  lemma FlushValid(f: Flow)
    requires FramesValid(f)
    ensures FramesValid(Flushed(f))
  {
    hide ValidFrame, WindowUpdateFrame;
    ControlFramesValid(0, f.pendingConn);
    QueueValid(f, WindowUpdateFrame(0, f.pendingConn));
    var due := f.flushDue && f.pendingConn > 0;
    var f' := if due then f.(queued := f.queued + [WindowUpdateFrame(0, f.pendingConn)]) else f;
    assert AllFrames(Flushed(f)) == AllFrames(f');
  }

  lemma HappenedKeepsValid(c: Conn, e: Happening)
    requires ConnectionInv(c) && FramesValid(c.flow)
    ensures FramesValid(Happened(c, e).flow)
  {
    hide ConnectionInv, FramesValid, Dispatch, ParseOne, Flushed, StepOf, Stepped, ValidStep, FailedAll, ValidFrame;
    if e.HandleFrame? && NextFrame(c).Some? {
      var f := NextFrame(c).value;
      NextFrameIsValid(c);
      StepIsValid(c, f);
      DispatchSteps(c, f);
      if StepOf(c, f) != [] {
        var s := StepOf(c, f)[0];
        assert s in StepOf(c, f);
        if s.Reading? {
          ReadingQueuesValid(c.flow, s.streamId, s.reading);
        } else {
          ControlQueuesValid(c.flow, s.frame);
        }
      }
    } else if e.EndBatch? {
      FlushValid(c.flow);
    }
  }

  lemma ControlQueuesValid(f: Flow, g: Frame)
    requires FramesValid(f) && ValidStep(Control(g))
    ensures FramesValid(Stepped(f, Control(g)))
  {
    QueueValid(f, g);
  }

  /** Every frame a run queues or writes is well formed. */
  lemma {:induction false} RunWritesValidFrames(c: Conn, events: seq<Happening>)
    requires ConnectionInv(c) && FramesValid(c.flow) && After(c, events).nextId < 0x8000_0000
    ensures FramesValid(After(c, events).flow)
    decreases |events|
  {
    hide ConnectionInv, FramesValid, Happened;
    if events != [] {
      NextIdGrowsAlways(Happened(c, events[0]), events[1..]);
      HappenedKeepsInv(c, events[0]);
      HappenedKeepsValid(c, events[0]);
      RunWritesValidFrames(Happened(c, events[0]), events[1..]);
    }
  }

  /** The octets a run hands to the writer, with those that wait, parse back to exactly its frames, in order. */
  lemma RunParsesBack(table: Table, events: seq<Happening>)
    requires After(InitialConn(table), events).nextId < 0x8000_0000
    ensures var f := After(InitialConn(table), events).flow;
            && FramesValid(f)
            && Parse(FrameForms(f.written)) == Parsed(f.written, [])
            && Parse(FrameForms(f.written) + FrameForms(f.queued)) == Parsed(AllFrames(f), [])
  {
    hide ConnectionInv, After, ValidFrame, Parse, FrameForms;
    InitialInv(table);
    RunWritesValidFrames(InitialConn(table), events);
    var f := After(InitialConn(table), events).flow;
    assert (forall g :: g in f.written ==> g in AllFrames(f)) && forall g :: g in f.queued ==> g in AllFrames(f);
    FormsRoundTrip(f.written);
    WireIsTheQueuedFrames(f.written, f.queued);
  }
}
