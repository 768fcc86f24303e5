/** What the reader owes and grants to each single stream over whole runs, and when the ledger has room for it. */
module StreamCredit {
  import opened Octets
  import opened HpackPrimitives
  import opened DynamicTable
  import opened Frames
  import opened FlowControl
  import opened StreamLedger
  import opened ResponseSink
  import opened Connection
  import opened SinkTraces
  import opened ReaderWrites
  import opened Demultiplexing

  // ---------------------------------------------------------------- a run of the connection is one of the ledger

  ghost function LedgerEvents(c: Conn, e: Happening): (es: seq<LedgerEvent>) {
    if e.HandleFrame? && NextFrame(c).Some? then
      var steps := StepOf(c, NextFrame(c).value);
      if steps == [] then [] else [LedgerEvent.Take(steps[0])]
    else if e.EndBatch? && c.busy && ParseOne(c.kept) == None then [BatchEnd]
    else []
  }

  ghost function LedgerRun(c: Conn, events: seq<Happening>): (es: seq<LedgerEvent>)
    decreases |events|
  {
    if events == [] then [] else LedgerEvents(c, events[0]) + LedgerRun(Happened(c, events[0]), events[1..])
  }

  lemma {:induction false} AfterEventsAppend(f: Flow, es: seq<LedgerEvent>, more: seq<LedgerEvent>)
    ensures AfterEvents(f, es + more) == AfterEvents(AfterEvents(f, es), more)
    decreases |es|
  {
    hide Next;
    if es == [] {
      assert es + more == more;
    } else {
      assert (es + more)[1..] == es[1..] + more;
      AfterEventsAppend(Next(f, es[0]), es[1..], more);
    }
  }

  lemma HappenedFollowsLedger(c: Conn, e: Happening)
    requires ConnectionInv(c)
    ensures Happened(c, e).flow == AfterEvents(c.flow, LedgerEvents(c, e)) && ValidEvents(LedgerEvents(c, e))
  {
    hide ConnectionInv, Dispatch, ParseOne, StepOf, Stepped, Flushed, FailedAll, ValidStep, ValidFrame;
    if e.HandleFrame? && NextFrame(c).Some? {
      NextFrameIsValid(c);
      StepIsValid(c, NextFrame(c).value);
      DispatchSteps(c, NextFrame(c).value);
      OneEvent(c.flow, LedgerEvents(c, e));
    } else {
      OneEvent(c.flow, LedgerEvents(c, e));
    }
  }

  lemma OneEvent(f: Flow, es: seq<LedgerEvent>)
    requires |es| <= 1
    ensures AfterEvents(f, es) == if es == [] then f else Next(f, es[0])
  {
    hide Next;
    if es != [] {
      assert es[1..] == [];
    }
  }

  lemma {:induction false} RunFollowsLedger(c: Conn, events: seq<Happening>)
    requires ConnectionInv(c) && After(c, events).nextId < 0x8000_0000
    ensures After(c, events).flow == AfterEvents(c.flow, LedgerRun(c, events)) && ValidEvents(LedgerRun(c, events))
    decreases |events|
  {
    hide ConnectionInv, Happened, LedgerEvents, ValidStep;
    if events != [] {
      var e := events[0];
      NextIdGrowsAlways(Happened(c, e), events[1..]);
      HappenedKeepsInv(c, e);
      HappenedFollowsLedger(c, e);
      RunFollowsLedger(Happened(c, e), events[1..]);
      AfterEventsAppend(c.flow, LedgerEvents(c, e), LedgerRun(Happened(c, e), events[1..]));
    }
  }

  // ---------------------------------------------------------------- the readings of one stream

  /** A registered stream with a sink that the run does not remove. */
  ghost predicate Entered(c: Conn, id: nat) {
    id in c.streams && id !in c.allotted && id < c.nextId && c.streams[id].stream.sink.Some?
  }

  lemma {:induction false} ConsumedOnAppend(es: seq<LedgerEvent>, more: seq<LedgerEvent>, id: nat)
    ensures ConsumedOn(es + more, id) == ConsumedOn(es, id) + ConsumedOn(more, id)
  {
    if es == [] {
      assert es + more == more;
    } else {
      assert (es + more)[1..] == es[1..] + more;
      ConsumedOnAppend(es[1..], more, id);
    }
  }

  /** A frame for the stream: its DATA is consumed, and a reading that says it is over has ended it. */
  lemma FrameReading(c: Conn, f: Frame, id: nat)
    requires ConnectionInv(c) && Entered(c, id)
    ensures var d := Dispatch(c, f);
            && Entered(d, id) && (c.streams[id].stream.isEnded ==> d.streams[id].stream.isEnded)
            && (StreamScoped(f.kind) && f.streamId == id ==>
                  && StepOf(c, f) != [] && ReadingOf(StepOf(c, f)[0], id)
                  && StepOf(c, f)[0].reading.consumed == (if f.kind == DATA then |f.payload| else 0)
                  && (Dead(StepOf(c, f)[0].reading) ==> d.streams[id].stream.isEnded))
            && (!(StreamScoped(f.kind) && f.streamId == id) ==>
                  StepOf(c, f) == [] || !ReadingOf(StepOf(c, f)[0], id))
  {
    hide OnFrame, EndReading, Stepped, ScratchTable, GoAwayError, CancelsInv, StreamInv, SinkInv;
    DispatchKeepsBuffer(c, f);
    if StreamScoped(f.kind) && f.streamId == id {
      var slot := c.streams[id];
      OpenStreamInv(slot.stream);
      FrameKeepsSink(slot, c.table, f);
      var s := OnFrame(slot, c.table, f).slot.stream;
      EndReadingKeepsInv(s, f);
      ReadingOfFrame(slot, c.table, f);
    } else if f.kind == GOAWAY {
      FailedKeepsSink(c.streams[id], true, Dispatch(c, f).connError);
    }
  }

  lemma ReadingOfFrame(slot: Slot, table: Table, f: Frame)
    ensures var s := OnFrame(slot, table, f).slot.stream;
            && (s.sink.Some? ==> EndReading(s, f).reading.consumed == if f.kind == DATA then |f.payload| else 0)
            && (EndReading(s, f).reading.reset <==> f.kind == RST_STREAM)
            && (f.kind == RST_STREAM ==> s.isEnded)
  {
    hide HeadersFrameOn, ContinuationOn, Appended, HeadersDelivered, Completed, CancellationTaken;
  }

  lemma FailedKeepsSink(slot: Slot, onlyPending: bool, connError: Error)
    ensures var s := FailedSlot(slot, onlyPending, connError).stream;
            s.sink.Some? == slot.stream.sink.Some? && (slot.stream.isEnded ==> s.isEnded)
  {
  }

  lemma HappenedReading(c: Conn, e: Happening, id: nat)
    requires ConnectionInv(c) && Entered(c, id) && e != Unregister(id)
    ensures var d := Happened(c, e);
            && Entered(d, id) && (c.streams[id].stream.isEnded ==> d.streams[id].stream.isEnded)
            && ConsumedOn(LedgerEvents(c, e), id) == |DataFor(FrameOf(c, e), id)|
            && (!d.streams[id].stream.isEnded ==> Live(LedgerEvents(c, e), id))
  {
    hide ConnectionInv, Dispatch, ParseOne, StepOf, Flushed, FailedSlot;
    var es := LedgerEvents(c, e);
    if e.HandleFrame? && NextFrame(c).Some? {
      var f := NextFrame(c).value;
      FrameReading(c, f, id);
      assert [f][1..] == [];
      assert es != [] ==> es[1..] == [];
    } else if e.Lost? {
      FailedKeepsSink(c.streams[id], false, c.connError);
    } else if e.EndBatch? {
      assert es != [] ==> es[1..] == [];
    }
  }

  /** Over a run that does not end the stream, what the ledger counts for it is its own DATA, and it stays live. */
  lemma {:induction false} RunReadings(c: Conn, events: seq<Happening>, id: nat)
    requires ConnectionInv(c) && Entered(c, id) && Unregister(id) !in events && After(c, events).nextId < 0x8000_0000
    ensures Entered(After(c, events), id)
    ensures c.streams[id].stream.isEnded ==> After(c, events).streams[id].stream.isEnded
    ensures ConsumedOn(LedgerRun(c, events), id) == |DataFor(FramesOf(c, events), id)|
    ensures !After(c, events).streams[id].stream.isEnded ==> Live(LedgerRun(c, events), id)
    decreases |events|
  {
    hide ConnectionInv, Happened, LedgerEvents, FrameOf, ConsumedOn, DataFor;
    if events == [] {
      NothingConsumed(id);
    } else {
      var e := events[0];
      assert e in events && forall g :: g in events[1..] ==> g in events;
      NextIdGrowsAlways(Happened(c, e), events[1..]);
      HappenedKeepsInv(c, e);
      HappenedReading(c, e, id);
      RunReadings(Happened(c, e), events[1..], id);
      ConsumedOnAppend(LedgerEvents(c, e), LedgerRun(Happened(c, e), events[1..]), id);
      DataForAppend(FrameOf(c, e), FramesOf(Happened(c, e), events[1..]), id);
    }
  }

  lemma NothingConsumed(id: nat)
    ensures ConsumedOn([], id) == 0 && DataFor([], id) == []
  {
  }

  /**
   Over any run that leaves a registered stream live, its window updates plus what is held for it grow by exactly its
   own DATA if and only if the ledger had room each time it consumed, and by less otherwise.
   */
  lemma StreamOwedIff(c: Conn, events: seq<Happening>, id: nat)
    requires ConnectionInv(c) && LedgerInv(c.flow.streams) && Entered(c, id) && Unregister(id) !in events
    requires After(c, events).nextId < 0x8000_0000
    ensures id in After(c, events).streams
    ensures !After(c, events).streams[id].stream.isEnded ==>
              var f, f', n := c.flow, After(c, events).flow, |DataFor(FramesOf(c, events), id)|;
              && Granted(f', id) + Held(f', id) <= Granted(f, id) + Held(f, id) + n
              && (Granted(f', id) + Held(f', id) == Granted(f, id) + Held(f, id) + n
                  <==> AlwaysRoom(f, LedgerRun(c, events), id))
  {
    hide After, LedgerRun, Granted, Held, AlwaysRoom, Live, ConsumedOn, DataFor, FramesOf, ValidEvents, LedgerInv;
    RunFollowsLedger(c, events);
    RunReadings(c, events, id);
    IdIsInRange(c, id);
    if !After(c, events).streams[id].stream.isEnded {
      StreamCreditIff(c.flow, LedgerRun(c, events), id);
    }
  }

  lemma IdIsInRange(c: Conn, id: nat)
    requires ConnectionInv(c) && id in c.streams
    ensures 0 < id < 0x8000_0000
  {
  }

  // ---------------------------------------------------------------- from the entry on

  /** No request has entered a stream of this identifier yet. */
  ghost predicate Unentered(c: Conn, id: nat) {
    id >= c.nextId || id in c.allotted
  }

  ghost predicate OwesNothing(f: Flow, id: nat) {
    !Tracked(f, id) && Updates(AllFrames(f), id) == []
  }

  lemma HappenedBeforeEntry(c: Conn, e: Happening, id: nat)
    requires ConnectionInv(c) && LedgerInv(c.flow.streams) && 0 < id && Unentered(Happened(c, e), id)
    ensures Unentered(c, id) && LedgerInv(Happened(c, e).flow.streams)
    ensures OwesNothing(c.flow, id) ==> OwesNothing(Happened(c, e).flow, id)
  {
    hide ConnectionInv, CancelsInv, Dispatch, ParseOne, StepOf, Stepped, Flushed, FailedAll, LedgerInv, Updates;
    hide AllFrames;
    hide ValidStep, ValidFrame, Find, StreamInv;
    if e.HandleFrame? && NextFrame(c).Some? {
      var f := NextFrame(c).value;
      NextFrameIsValid(c);
      StepIsValid(c, f);
      DispatchSteps(c, f);
      DispatchKeepsBuffer(c, f);
      if StepOf(c, f) != [] {
        var s := StepOf(c, f)[0];
        assert s in StepOf(c, f);
        StepIsOfRegistered(c, f);
        UnenteredIsNotRegistered(c, id);
        StepKeepsLedgerInv(c.flow, s);
        OtherStep(c.flow, s, id);
      }
    } else if e.EndBatch? {
      FlushKeepsUpdates(c.flow, id);
      FlushKeepsStreams(c.flow);
    }
  }

  lemma UnenteredIsNotRegistered(c: Conn, id: nat)
    requires ConnectionInv(c) && Unentered(c, id)
    ensures id !in c.streams
  {
  }

  lemma {:induction false} NothingOwedBeforeEntry(c: Conn, events: seq<Happening>, id: nat)
    requires ConnectionInv(c) && LedgerInv(c.flow.streams) && After(c, events).nextId < 0x8000_0000
    requires 0 < id && Unentered(After(c, events), id)
    ensures Unentered(c, id) && LedgerInv(After(c, events).flow.streams)
    ensures OwesNothing(c.flow, id) ==> OwesNothing(After(c, events).flow, id)
    decreases |events|
  {
    hide ConnectionInv, LedgerInv, Happened, OwesNothing, Unentered;
    if events != [] {
      NextIdGrowsAlways(Happened(c, events[0]), events[1..]);
      HappenedKeepsInv(c, events[0]);
      LedgerStaysInv(c, events[0]);
      NothingOwedBeforeEntry(Happened(c, events[0]), events[1..], id);
      HappenedBeforeEntry(c, events[0], id);
    }
  }

  lemma LedgerStaysInv(c: Conn, e: Happening)
    requires LedgerInv(c.flow.streams)
    ensures LedgerInv(Happened(c, e).flow.streams)
  {
    hide Dispatch, ParseOne, StepOf, Stepped, Flushed, FailedAll, LedgerInv;
    if e.HandleFrame? && NextFrame(c).Some? {
      var f := NextFrame(c).value;
      DispatchSteps(c, f);
      if StepOf(c, f) != [] {
        StepKeepsLedgerInv(c.flow, StepOf(c, f)[0]);
      }
    } else if e.EndBatch? {
      FlushKeepsStreams(c.flow);
    }
  }

  /**
   From the first octet of a connection on: a stream that was entered and is live has been granted, or is held, exactly
   its own DATA if and only if the ledger had room each time it consumed, and less otherwise.
   */
  lemma OwedSinceEntry(table: Table, before: seq<Happening>, contract: Contract, events: seq<Happening>, id: nat)
    requires id in After(InitialConn(table), before).allotted
    requires |After(InitialConn(table), before).streams| < MAX_STREAMS
    requires var c := Happened(After(InitialConn(table), before), EnterStream(id, Some(contract)));
             After(c, events).nextId < 0x8000_0000 && Unregister(id) !in events
    ensures var c := Happened(After(InitialConn(table), before), EnterStream(id, Some(contract)));
            var d, n := After(c, events), |DataFor(FramesOf(c, events), id)|;
            && id in d.streams
            && (!d.streams[id].stream.isEnded ==>
                  && Granted(d.flow, id) + Held(d.flow, id) <= n
                  && (Granted(d.flow, id) + Held(d.flow, id) == n <==> AlwaysRoom(c.flow, LedgerRun(c, events), id)))
  {
    hide After, LedgerRun, FramesOf, DataFor, AlwaysRoom, ConnectionInv, LedgerInv, Updates, Find, Sum;
    var c0 := After(InitialConn(table), before);
    var c := Happened(c0, EnterStream(id, Some(contract)));
    NextIdGrowsAlways(c, events);
    InitialInv(table);
    assert LedgerInv(InitialFlow.streams) by { InitialFacts(InitialFlow); }
    RunKeepsSinks(InitialConn(table), before);
    AllottedIsPositive(c0, id);
    NothingOwedBeforeEntry(InitialConn(table), before, id);
    assert OwesNothing(InitialFlow, id) by { NothingInitially(id); }
    HappenedKeepsInv(c0, EnterStream(id, Some(contract)));
    OwesNoCredit(c0.flow, id);
    StreamOwedIff(c, events, id);
  }

  lemma AllottedIsPositive(c: Conn, id: nat)
    requires ConnectionInv(c) && id in c.allotted
    ensures 0 < id < c.nextId < 0x8000_0000
  {
  }

  lemma NothingInitially(id: nat)
    ensures OwesNothing(InitialFlow, id)
  {
  }

  lemma OwesNoCredit(f: Flow, id: nat)
    requires OwesNothing(f, id)
    ensures Granted(f, id) == 0 && Held(f, id) == 0
  {
    hide AllFrames, Updates;
    assert Sum([]) == 0;
  }

  // ---------------------------------------------------------------- room in the ledger

  /** Entries of streams that are not registered any more. */
  function LeftBehind(entries: seq<Credit>, registered: set<nat>): (n: nat) {
    if entries == [] then 0
    else LeftBehind(entries[..|entries| - 1], registered)
         + (if entries[|entries| - 1].streamId in registered then 0 else 1)
  }

  function Ids(entries: seq<Credit>): (ids: set<nat>) {
    set i | 0 <= i < |entries| :: entries[i].streamId
  }

  /** The ledger's identifiers, one entry at a time. */
  lemma IdsOfMore(entries: seq<Credit>)
    requires entries != []
    requires forall i, j :: 0 <= i < j < |entries| ==> entries[i].streamId != entries[j].streamId
    ensures var n := |entries| - 1;
            Ids(entries) == Ids(entries[..n]) + {entries[n].streamId} && entries[n].streamId !in Ids(entries[..n])
  {
    var n := |entries| - 1;
    var front, last := entries[..n], entries[n].streamId;
    forall id | id in Ids(entries)
      ensures id in Ids(front) + {last}
    {
      var i :| 0 <= i < |entries| && entries[i].streamId == id;
      assert i < n ==> front[i].streamId == id;
    }
    forall id | id in Ids(front)
      ensures id in Ids(entries) && id != last
    {
      var i :| 0 <= i < n && front[i].streamId == id;
      assert entries[i].streamId == id;
    }
  }

  lemma OneIdMore(ids: set<nat>, last: nat, registered: set<nat>)
    requires last !in ids
    ensures |ids + {last}| == |ids| + 1
    ensures |(ids + {last}) - registered| == |ids - registered| + (if last in registered then 0 else 1)
  {
    if last in registered {
      assert (ids + {last}) - registered == ids - registered;
    } else {
      assert (ids + {last}) - registered == (ids - registered) + {last};
    }
  }

  lemma {:induction false} LeftBehindIs(entries: seq<Credit>, registered: set<nat>)
    requires forall i, j :: 0 <= i < j < |entries| ==> entries[i].streamId != entries[j].streamId
    ensures LeftBehind(entries, registered) == |Ids(entries) - registered|
    ensures |Ids(entries)| == |entries|
  {
    if entries == [] {
      assert Ids(entries) == {};
    } else {
      hide Ids;
      var n := |entries| - 1;
      var front, last := entries[..n], entries[n].streamId;
      IdsOfMore(entries);
      LeftBehindIs(front, registered);
      OneIdMore(Ids(front), last, registered);
    }
  }

  /** While registered streams and entries left behind fit together, a registered stream finds room. */
  lemma RoomWhenFew(c: Conn, id: nat)
    requires LedgerInv(c.flow.streams) && id in c.streams
    requires |c.streams| + LeftBehind(c.flow.streams, c.streams.Keys) <= MAX_STREAMS
    ensures HasRoom(c.flow, id)
  {
    var entries, keys := c.flow.streams, c.streams.Keys;
    LeftBehindIs(entries, keys);
    var ids := Ids(entries);
    if !Tracked(c.flow, id) {
      assert id !in ids;
      assert ids == (ids - keys) + (ids * keys);
      assert ids * keys <= keys - {id};
      SubsetSize(ids * keys, keys - {id});
      assert |keys - {id}| == |keys| - 1;
      assert |keys| == |c.streams|;
    }
  }

  lemma {:induction false} SubsetSize(a: set<nat>, b: set<nat>)
    requires a <= b
    ensures |a| <= |b|
    decreases b
  {
    if a != {} {
      var x :| x in a;
      SubsetSize(a - {x}, b - {x});
    }
  }

  /** A stream removed while the ledger still holds an entry for it. */
  ghost function Leaks(c: Conn, e: Happening): (n: nat) {
    if e.Unregister? && e.id in c.streams && Tracked(c.flow, e.id) then 1 else 0
  }

  lemma CreditedIds(f: Flow, id: nat, c: nat)
    ensures Ids(Credited(f, id, c).streams) <= Ids(f.streams) + {id}
  {
    hide WindowUpdateFrame;
    var s := Credited(f, id, c).streams;
    forall x | x in Ids(s)
      ensures x in Ids(f.streams) + {id}
    {
      var i :| 0 <= i < |s| && s[i].streamId == x;
      if x != id {
        assert i < |f.streams| && f.streams[i].streamId == x;
      }
    }
  }

  lemma DiscardedIds(f: Flow, id: nat)
    ensures Ids(Discarded(f, id).streams) <= Ids(f.streams)
  {
    var s := Discarded(f, id).streams;
    forall x | x in Ids(s)
      ensures x in Ids(f.streams)
    {
      var i :| 0 <= i < |s| && s[i].streamId == x;
      assert s[i] in f.streams;
    }
  }

  lemma StepIds(f: Flow, s: Step)
    ensures Ids(Stepped(f, s).streams) <= Ids(f.streams) + (if s.Reading? then {s.streamId} else {})
  {
    hide Tuned, Credited, Discarded, Ids;
    if s.Reading? {
      var r := s.reading;
      TuneTouchesConnOnly(f.(pendingConn := U32(f.pendingConn + r.consumed)), r.consumed);
      var f1 := if r.consumed > 0 then Tuned(f.(pendingConn := U32(f.pendingConn + r.consumed)), r.consumed) else f;
      CreditedIds(f1, s.streamId, r.consumed);
      DiscardedIds(f1, s.streamId);
    }
  }

  /** Entries are left behind only by removals, one at a time. */
  lemma HappenedLeaves(c: Conn, e: Happening)
    requires LedgerInv(c.flow.streams) && ConnectionInv(c)
    ensures var d := Happened(c, e);
            && LedgerInv(d.flow.streams)
            && LeftBehind(d.flow.streams, d.streams.Keys)
               <= LeftBehind(c.flow.streams, c.streams.Keys) + Leaks(c, e)
  {
    hide ConnectionInv, Dispatch, ParseOne, Stepped, StepOf, Flushed, FailedAll, OpenSlot, LeftBehind, LedgerInv;
    var d := Happened(c, e);
    var before, after := Ids(c.flow.streams) - c.streams.Keys, Ids(d.flow.streams) - d.streams.Keys;
    HappenedIds(c, e);
    EntriesCounted(c.flow, c.streams.Keys);
    EntriesCounted(d.flow, d.streams.Keys);
    if e.Unregister? {
      if Leaks(c, e) == 0 {
        UntrackedIds(c.flow, e.id);
        assert after <= before;
        SubsetSize(after, before);
      } else {
        SubsetSize(after, before + {e.id});
        assert e.id !in before;
      }
    } else {
      SubsetSize(after, before);
    }
  }

  lemma UntrackedIds(f: Flow, id: nat)
    ensures !Tracked(f, id) ==> id !in Ids(f.streams)
  {
  }

  lemma EntriesCounted(f: Flow, keys: set<nat>)
    requires LedgerInv(f.streams)
    ensures LeftBehind(f.streams, keys) == |Ids(f.streams) - keys|
  {
    LeftBehindIs(f.streams, keys);
  }

  lemma HappenedIds(c: Conn, e: Happening)
    requires LedgerInv(c.flow.streams) && ConnectionInv(c)
    ensures var d := Happened(c, e);
            && LedgerInv(d.flow.streams)
            && (!e.Unregister? ==> Ids(d.flow.streams) - d.streams.Keys <= Ids(c.flow.streams) - c.streams.Keys)
            && (e.Unregister? ==> d.flow == c.flow && d.streams.Keys == c.streams.Keys - {e.id})
  {
    hide ConnectionInv, Dispatch, ParseOne, Stepped, StepOf, Flushed, FailedSlot, OpenSlot, LedgerInv, Ids;
    if e.HandleFrame? && NextFrame(c).Some? {
      var f := NextFrame(c).value;
      DispatchSteps(c, f);
      DispatchKeepsBuffer(c, f);
      if StepOf(c, f) != [] {
        StepIds(c.flow, StepOf(c, f)[0]);
        StepKeepsLedgerInv(c.flow, StepOf(c, f)[0]);
        StepIsOfRegistered(c, f);
      }
    } else if e.EndBatch? {
      FlushKeepsStreams(c.flow);
    }
  }

  lemma StepIsOfRegistered(c: Conn, f: Frame)
    requires StepOf(c, f) != []
    ensures StepOf(c, f)[0].Reading? ==> StepOf(c, f)[0].streamId in c.streams
  {
    hide OnFrame, EndReading;
  }

  /** At every moment of the run, the registered streams and the entries left behind so far fit the ledger. */
  ghost predicate FewLeaks(c: Conn, events: seq<Happening>, left: nat)
    decreases |events|
  {
    && |c.streams| + left <= MAX_STREAMS
    && (events != [] ==> FewLeaks(Happened(c, events[0]), events[1..], left + Leaks(c, events[0])))
  }

  lemma HappenedHasRoom(c: Conn, e: Happening, id: nat)
    requires LedgerInv(c.flow.streams)
    requires |c.streams| + LeftBehind(c.flow.streams, c.streams.Keys) <= MAX_STREAMS
    ensures AlwaysRoom(c.flow, LedgerEvents(c, e), id)
  {
    hide Dispatch, ParseOne, StepOf, HasRoom, LeftBehind, Next, LedgerInv;
    var es := LedgerEvents(c, e);
    assert es != [] ==> es[1..] == [];
    if e.HandleFrame? && NextFrame(c).Some? && es != [] {
      StepIsOfRegistered(c, NextFrame(c).value);
      if ReadingOf(es[0].step, id) {
        RoomWhenFew(c, id);
      }
    }
  }

  lemma {:induction false} AlwaysRoomAppend(f: Flow, es: seq<LedgerEvent>, more: seq<LedgerEvent>, id: nat)
    ensures AlwaysRoom(f, es + more, id) <==> AlwaysRoom(f, es, id) && AlwaysRoom(AfterEvents(f, es), more, id)
    decreases |es|
  {
    hide Next, Loses;
    if es == [] {
      assert es + more == more;
    } else {
      assert (es + more)[1..] == es[1..] + more;
      AlwaysRoomAppend(Next(f, es[0]), es[1..], more, id);
    }
  }

  /** While they fit, no stream's credit is lost: few streams removed while the ledger held an entry are enough. */
  lemma {:induction false} RoomWhileFewLeaks(c: Conn, events: seq<Happening>, left: nat, id: nat)
    requires ConnectionInv(c) && LedgerInv(c.flow.streams) && After(c, events).nextId < 0x8000_0000
    requires LeftBehind(c.flow.streams, c.streams.Keys) <= left && FewLeaks(c, events, left)
    ensures AlwaysRoom(c.flow, LedgerRun(c, events), id)
    decreases |events|
  {
    hide ConnectionInv, LedgerInv, Happened, LedgerEvents, LeftBehind, Leaks;
    if events != [] {
      var e := events[0];
      NextIdGrowsAlways(Happened(c, e), events[1..]);
      HappenedKeepsInv(c, e);
      HappenedLeaves(c, e);
      HappenedHasRoom(c, e, id);
      HappenedFollowsLedger(c, e);
      RoomWhileFewLeaks(Happened(c, e), events[1..], left + Leaks(c, e), id);
      AlwaysRoomAppend(c.flow, LedgerEvents(c, e), LedgerRun(Happened(c, e), events[1..]), id);
    }
  }

  // ---------------------------------------------------------------- credit is batched

  /** Every window update of a stream grants more than the threshold at once. */
  ghost predicate Batched(f: Flow) {
    forall g :: g in AllFrames(f) && g.kind == 8 && g.streamId != 0 ==> Increment(g) > 16384
  }

  lemma QueueBatched(f: Flow, g: Frame)
    requires Batched(f) && (g.kind == 8 && g.streamId != 0 ==> Increment(g) > 16384)
    ensures Batched(f.(queued := f.queued + [g]))
  {
    hide Increment;
    assert f.written + (f.queued + [g]) == AllFrames(f) + [g];
  }

  lemma SameFramesBatched(f: Flow, g: Flow)
    requires Batched(f) && g.queued == f.queued && g.written == f.written
    ensures Batched(g)
  {
  }

  lemma CreditedBatches(f: Flow, id: nat, c: nat)
    requires Batched(f) && LedgerInv(f.streams) && 0 < id < 0x8000_0000 && 0 < c < 0x100_0000
    ensures Batched(Credited(f, id, c))
  {
    hide Increment, WindowUpdateFrame, Batched;
    var i := Find(f.streams, id);
    if i == |f.streams| && |f.streams| >= MAX_STREAMS {
    } else {
      var held := if i == |f.streams| then 0 else f.streams[i].credit;
      assert held <= STREAM_WINDOW_UPDATE_THRESHOLD;
      var sum := held + c;
      assert U32(sum) == sum;
      IncrementOfWindowUpdate(id, sum);
      if sum > STREAM_WINDOW_UPDATE_THRESHOLD {
        QueueBatched(f, WindowUpdateFrame(id, sum));
        SameFramesBatched(f.(queued := f.queued + [WindowUpdateFrame(id, sum)]), Credited(f, id, c));
      } else {
        SameFramesBatched(f, Credited(f, id, c));
      }
    }
  }

  lemma SteppedBatches(f: Flow, s: Step)
    requires Batched(f) && LedgerInv(f.streams) && ValidStep(s)
    ensures Batched(Stepped(f, s))
  {
    hide Batched, LedgerInv, Tuned, Credited, Discarded, Increment;
    match s {
      case Control(frame) => { QueueBatched(f, frame); }
      case Reading(id, r) => {
        var f0 := f.(pendingConn := U32(f.pendingConn + r.consumed));
        TuneTouchesConnOnly(f0, r.consumed);
        var f1 := if r.consumed > 0 then Tuned(f0, r.consumed) else f;
        SameFramesBatched(f, f1);
        if !Dead(r) && r.consumed > 0 {
          CreditedBatches(f1, id, r.consumed);
        }
        DiscardTouchesStreamsOnly(f1, id);
        SameFramesBatched(f1, Discarded(f1, id));
        var f2 := if Dead(r) then Discarded(f1, id) else if r.consumed > 0 then Credited(f1, id, r.consumed) else f1;
        SameFramesBatched(f2, Replenished(f, id, r));
        QueueBatched(Replenished(f, id, r), CancelFrame(r.cancelStreamId));
      }
    }
  }

  lemma FlushedBatches(f: Flow)
    requires Batched(f)
    ensures Batched(Flushed(f))
  {
    hide Increment;
    QueueBatched(f, WindowUpdateFrame(0, f.pendingConn));
    var due := f.flushDue && f.pendingConn > 0;
    var f' := if due then f.(queued := f.queued + [WindowUpdateFrame(0, f.pendingConn)]) else f;
    assert AllFrames(Flushed(f)) == AllFrames(f');
  }

  lemma HappenedBatches(c: Conn, e: Happening)
    requires ConnectionInv(c) && LedgerInv(c.flow.streams) && Batched(c.flow)
    ensures Batched(Happened(c, e).flow)
  {
    hide ConnectionInv, Batched, Dispatch, ParseOne, Flushed, StepOf, Stepped, ValidStep, FailedAll, LedgerInv;
    hide ValidFrame;
    if e.HandleFrame? && NextFrame(c).Some? {
      var f := NextFrame(c).value;
      NextFrameIsValid(c);
      StepIsValid(c, f);
      DispatchSteps(c, f);
      if StepOf(c, f) != [] {
        assert StepOf(c, f)[0] in StepOf(c, f);
        SteppedBatches(c.flow, StepOf(c, f)[0]);
      }
    } else if e.EndBatch? {
      FlushedBatches(c.flow);
    }
  }

  /** Over every run, no window update of a stream grants 16384 octets or fewer. */
  lemma {:induction false} RunBatchesCredit(c: Conn, events: seq<Happening>)
    requires ConnectionInv(c) && LedgerInv(c.flow.streams) && After(c, events).nextId < 0x8000_0000
    requires forall g :: g in AllFrames(c.flow) && g.kind == 8 && g.streamId != 0 ==> Increment(g) > 16384
    ensures forall g :: g in AllFrames(After(c, events).flow) && g.kind == 8 && g.streamId != 0 ==> Increment(g) > 16384
    decreases |events|
  {
    hide ConnectionInv, Happened, LedgerInv, AllFrames, Increment;
    assert Batched(c.flow);
    if events != [] {
      NextIdGrowsAlways(Happened(c, events[0]), events[1..]);
      HappenedKeepsInv(c, events[0]);
      HappenedIds(c, events[0]);
      HappenedBatches(c, events[0]);
      RunBatchesCredit(Happened(c, events[0]), events[1..]);
    }
  }
}
