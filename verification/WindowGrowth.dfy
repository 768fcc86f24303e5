/** How large the connection window is: it doubles each time it has been consumed once over, up to 2^24. */
module WindowGrowth {
  import opened Octets
  import opened HpackPrimitives
  import opened DynamicTable
  import opened Frames
  import opened FlowControl
  import opened StreamLedger
  import opened ResponseSink
  import opened Connection
  import opened SinkTraces
  import opened ReaderWrites
  import opened HeaderFraming

  /** The windows outgrown by k growths, together. */
  function Outgrown(k: nat): (n: nat) {
    if k == 0 then 0 else Outgrown(k - 1) + Target(k - 1)
  }

  /** The window has grown k times, and while it may still grow every octet consumed counts towards a growth. */
  ghost predicate Grown(f: Flow, k: nat, consumed: nat) {
    && k <= 9 && f.target == Target(k) && Outgrown(k) <= consumed
    && (f.target < 16777216 ==> consumed == f.sinceGrowth + Outgrown(k))
    && f.sinceGrowth < f.target + k * 0x100_0000
  }

  /** Less than the window has been consumed since it grew last. */
  ghost predicate Settled(f: Flow) {
    f.target < 16777216 ==> f.sinceGrowth < f.target
  }

  predicate Outgrows(f: Flow, c: nat) {
    f.target < 16777216 && f.sinceGrowth + c >= f.target
  }

  /** The windows there are: 65535 doubled, the last one cut to 2^24. */
  lemma Targets(k: nat)
    requires k < 9
    ensures Target(0) == 65535 && Target(9) == 16777216 && Target(k) < 16777216
    ensures Target(k + 1) == if k < 8 then 2 * Target(k) else 16777216
    ensures Outgrown(k + 1) == Outgrown(k) + Target(k)
  {
    Pow2Values();
  }

  /**
   Consuming grows the window exactly when it brings what was consumed since the last growth to the window: the window
   doubles, the growth is owed to the peer and a flush is due.
   */
  lemma TuneGrows(f: Flow, k: nat, consumed: nat, c: nat)
    requires Grown(f, k, consumed) && 0 < c < 0x100_0000
    ensures var f' := Tuned(f, c);
            && Grown(f', if Outgrows(f, c) then k + 1 else k, consumed + c)
            && (!Outgrows(f, c) ==>
                  f' == f.(sinceGrowth := if f.target < 16777216 then f.sinceGrowth + c else f.sinceGrowth))
            && (Outgrows(f, c) ==>
                  && k < 9 && f'.sinceGrowth == f.sinceGrowth + c - f.target
                  && f'.target == (if 2 * f.target < 16777216 then 2 * f.target else 16777216)
                  && f'.flushDue && f'.pendingConn == U32(f.pendingConn + (f'.target - f.target)))
            && (Settled(f) && c <= 65535 ==> Settled(f'))
  {
    hide Target, Outgrown;
    TargetRange(k);
    assert U32(f.sinceGrowth + c) == f.sinceGrowth + c;
    if f.target < 16777216 {
      TopTarget(k);
      Targets(k);
      TargetGrows(k);
      assert U32(f.target * 2) == f.target * 2;
    }
  }

  lemma TopTarget(k: nat)
    requires k <= 9 && Target(k) < 16777216
    ensures k < 9
  {
    Pow2Values();
  }

  lemma ReplenishedGrows(f: Flow, k: nat, consumed: nat, id: nat, r: StreamReading) returns (k': nat)
    requires Grown(f, k, consumed) && r.consumed < 0x100_0000
    ensures Grown(Replenished(f, id, r), k', consumed + r.consumed)
    ensures Settled(f) && r.consumed <= 65535 ==> Settled(Replenished(f, id, r))
  {
    hide Tuned, Target, Outgrown, Credited, Discarded, U32;
    var f0 := f.(pendingConn := U32(f.pendingConn + r.consumed));
    var f1 := if r.consumed > 0 then Tuned(f0, r.consumed) else f;
    k' := if r.consumed > 0 && Outgrows(f0, r.consumed) then k + 1 else k;
    if r.consumed > 0 {
      TuneGrows(f0, k, consumed, r.consumed);
    }
    assert Grown(f1, k', consumed + r.consumed);
    LedgerLeavesWindow(f1, id, r.consumed);
  }

  lemma LedgerLeavesWindow(f: Flow, id: nat, c: nat)
    ensures Credited(f, id, c).target == f.target && Credited(f, id, c).sinceGrowth == f.sinceGrowth
    ensures Discarded(f, id).target == f.target && Discarded(f, id).sinceGrowth == f.sinceGrowth
  {
  }

  /** Some number of growths accounts for what was consumed. */
  ghost predicate GrownSome(f: Flow, consumed: nat) {
    exists k :: 0 <= k <= 9 && Grown(f, k, consumed)
  }

  ghost predicate Small(s: Step) {
    s.Reading? ==> s.reading.consumed <= 65535
  }

  lemma SteppedGrows(f: Flow, s: Step, consumed: nat)
    requires GrownSome(f, consumed) && ValidStep(s)
    ensures GrownSome(Stepped(f, s), consumed + FlowControl.Consumed([s]))
    ensures Settled(f) && Small(s) ==> Settled(Stepped(f, s))
  {
    hide Grown, Replenished;
    var k :| 0 <= k <= 9 && Grown(f, k, consumed);
    match s {
      case Reading(id, r) => {
        assert FlowControl.Consumed([s]) == r.consumed + FlowControl.Consumed([]);
        var k' := ReplenishedGrows(f, k, consumed, id, r);
        OnlyQueued(Replenished(f, id, r), Stepped(f, s), k', consumed + r.consumed);
      }
      case Control(frame) => {
        assert FlowControl.Consumed([s]) == 0;
        OnlyQueued(f, Stepped(f, s), k, consumed);
      }
    }
  }

  lemma OnlyQueued(f: Flow, g: Flow, k: nat, consumed: nat)
    requires Grown(f, k, consumed) && g.target == f.target && g.sinceGrowth == f.sinceGrowth
    ensures k <= 9 && Grown(g, k, consumed)
  {
  }

  // ---------------------------------------------------------------- over runs of the connection

  lemma DispatchGrows(c: Conn, f: Frame, consumed: nat)
    requires ConnectionInv(c) && GrownSome(c.flow, consumed) && ValidFrame(f)
    ensures GrownSome(Dispatch(c, f).flow, consumed + FlowControl.Consumed(StepOf(c, f)))
    ensures Settled(c.flow) && |f.payload| <= 65535 ==> Settled(Dispatch(c, f).flow)
  {
    hide ConnectionInv, Dispatch, Stepped, StepOf, GrownSome, Settled, ValidStep;
    DispatchSteps(c, f);
    StepIsValid(c, f);
    var steps := StepOf(c, f);
    if steps != [] {
      assert steps == [steps[0]];
      SteppedGrows(c.flow, steps[0], consumed);
      if |f.payload| <= 65535 {
        StepIsSmall(c, f);
      }
    }
  }

  lemma StepIsSmall(c: Conn, f: Frame)
    requires StepOf(c, f) != [] && |f.payload| <= 65535
    ensures Small(StepOf(c, f)[0])
  {
    hide OnFrame, Completed, CancellationTaken;
  }

  ghost predicate SmallFrames(fs: seq<Frame>) {
    forall f :: f in fs ==> |f.payload| <= 65535
  }

  lemma HappenedGrows(c: Conn, e: Happening, consumed: nat)
    requires ConnectionInv(c) && GrownSome(c.flow, consumed)
    ensures GrownSome(Happened(c, e).flow, consumed + ConsumedNow(c, e))
    ensures Settled(c.flow) && SmallFrames(FrameOf(c, e)) ==> Settled(Happened(c, e).flow)
  {
    hide ConnectionInv, Dispatch, ParseOne, StepOf, Grown, ValidFrame;
    if e.HandleFrame? && NextFrame(c).Some? {
      NextFrameIsValid(c);
      DispatchGrows(c, NextFrame(c).value, consumed);
      assert NextFrame(c).value in FrameOf(c, e);
    } else if e.EndBatch? {
      var k :| 0 <= k <= 9 && Grown(c.flow, k, consumed);
      OnlyQueued(c.flow, Flushed(c.flow), k, consumed);
    }
  }

  lemma {:induction false} RunGrows(c: Conn, events: seq<Happening>, consumed: nat)
    requires ConnectionInv(c) && GrownSome(c.flow, consumed) && After(c, events).nextId < 0x8000_0000
    ensures GrownSome(After(c, events).flow, consumed + RegisteredOctets(c, events))
    ensures Settled(c.flow) && SmallFrames(FramesOf(c, events)) ==> Settled(After(c, events).flow)
    decreases |events|
  {
    hide ConnectionInv, Happened, ConsumedNow, GrownSome, Settled, FrameOf;
    if events != [] {
      var e := events[0];
      NextIdGrowsAlways(Happened(c, e), events[1..]);
      HappenedKeepsInv(c, e);
      HappenedGrows(c, e, consumed);
      RunGrows(Happened(c, e), events[1..], consumed + ConsumedNow(c, e));
      assert forall f :: f in FramesOf(c, events) <==> f in FrameOf(c, e) || f in FramesOf(Happened(c, e), events[1..]);
    }
  }

  /**
   From the first octet on and at every step: the window has grown some k times, the windows outgrown were consumed, and
   while it may still grow, exactly they and what counts towards the next growth were.
   */
  lemma WindowGrowsByConsumption(table: Table, events: seq<Happening>)
    requires After(InitialConn(table), events).nextId < 0x8000_0000
    ensures var f, n := After(InitialConn(table), events).flow, RegisteredOctets(InitialConn(table), events);
            exists k :: 0 <= k <= 9 && f.target == Target(k) && Outgrown(k) <= n
                        && (f.target < 16777216 ==> n == f.sinceGrowth + Outgrown(k))
  {
    hide ConnectionInv, After, RegisteredOctets, Target, Outgrown;
    InitialInv(table);
    InitialWindow();
    RunGrows(InitialConn(table), events, 0);
    var f, n := After(InitialConn(table), events).flow, RegisteredOctets(InitialConn(table), events);
    var k :| 0 <= k <= 9 && Grown(f, k, n);
    assert f.target == Target(k);
  }

  lemma InitialWindow()
    ensures GrownSome(InitialFlow, 0) && Settled(InitialFlow)
  {
    hide Grown;
    InitialGrown(InitialFlow);
  }

  lemma InitialGrown(f: Flow)
    requires f == InitialFlow
    ensures Grown(f, 0, 0) && Settled(f)
  {
    hide Target;
    Targets(0);
    assert Outgrown(0) == 0;
  }

  /**
   For frames of at most 65535 octets, which is more than a client that advertises no frame size is sent: the window has
   reached its k-th size exactly when the sizes before it have been consumed.
   */
  lemma WindowReachedIff(table: Table, events: seq<Happening>, k: nat)
    requires After(InitialConn(table), events).nextId < 0x8000_0000 && k <= 9
    requires forall f :: f in FramesOf(InitialConn(table), events) ==> |f.payload| <= 65535
    ensures After(InitialConn(table), events).flow.target >= Target(k)
       <==> RegisteredOctets(InitialConn(table), events) >= Outgrown(k)
  {
    hide ConnectionInv, After, RegisteredOctets, FramesOf, Target, Outgrown;
    InitialInv(table);
    InitialWindow();
    RunGrows(InitialConn(table), events, 0);
    var f, n := After(InitialConn(table), events).flow, RegisteredOctets(InitialConn(table), events);
    var j :| 0 <= j <= 9 && Grown(f, j, n);
    if j < k {
      Targets(j);
      TargetsGrow(j + 1, k);
      TargetBelow(j, k);
    } else {
      TargetsGrow(k, j);
    }
  }

  lemma {:induction false} TargetsGrow(j: nat, k: nat)
    requires j <= k <= 9
    ensures Target(j) <= Target(k) && Outgrown(j) <= Outgrown(k)
    decreases k
  {
    hide Target;
    if j < k {
      TargetsGrow(j, k - 1);
      Targets(k - 1);
    }
  }

  lemma TargetBelow(j: nat, k: nat)
    requires j < k <= 9
    ensures Target(j) < Target(k) && Target(j) < 16777216
  {
    hide Target;
    Targets(j);
    TargetsGrow(j + 1, k);
    TargetRange(j);
  }

  /** What is consumed at a step: the payload of a DATA frame on a registered stream with a sink. */
  lemma ConsumedNowIs(c: Conn, e: Happening)
    ensures ConsumedNow(c, e)
         == if e.HandleFrame? && NextFrame(c).Some? && NextFrame(c).value.kind == 0
               && NextFrame(c).value.streamId in c.streams
               && c.streams[NextFrame(c).value.streamId].stream.sink.Some?
            then |NextFrame(c).value.payload| else 0
  {
    hide ParseOne, StepOf;
    if e.HandleFrame? && NextFrame(c).Some? {
      StepConsumes(c, NextFrame(c).value);
    }
  }

  lemma StepConsumes(c: Conn, f: Frame)
    ensures FlowControl.Consumed(StepOf(c, f))
         == if f.kind == 0 && f.streamId in c.streams && c.streams[f.streamId].stream.sink.Some? then |f.payload| else 0
  {
    hide OnFrame, EndReading;
    if StepOf(c, f) != [] {
      assert StepOf(c, f)[1..] == [];
    }
    if f.streamId in c.streams {
      SinkStays(c.streams[f.streamId], c.table, f);
      ReadingConsumes(OnFrame(c.streams[f.streamId], c.table, f).slot.stream, f);
    }
  }

  lemma ReadingConsumes(s: StreamState, f: Frame)
    ensures EndReading(s, f).reading.consumed == if f.kind == 0 && s.sink.Some? then |f.payload| else 0
  {
    hide Completed, CancellationTaken;
  }

  lemma SinkStays(slot: Slot, table: Table, f: Frame)
    ensures OnFrame(slot, table, f).slot.stream.sink.Some? == slot.stream.sink.Some?
  {
    hide OnHeadersFrame, OnContinuation, Appended, HeadersDelivered;
    AppendedKeepsLife(slot.stream, f.payload);
    HeadersKeepLife(HeadersFrameOn(slot, table, f).slot.stream);
    HeadersKeepLife(ContinuationOn(slot, table, f).slot.stream);
  }

  // ---------------------------------------------------------------- when what is owed is granted

  /** A flush is due when a stream has ended, the window has grown, or 65535 octets are owed to the connection. */
  lemma DueIff(f: Flow, id: nat, r: StreamReading)
    requires 0 < f.target <= 16777216 && f.sinceGrowth < 0x8000_0000
    requires f.pendingConn + r.consumed < 0x8000_0000
    ensures var f' := Replenished(f, id, r);
            && f'.pendingConn == f.pendingConn + r.consumed + (f'.target - f.target)
            && (f'.flushDue <==> f.flushDue || r.ended || f'.target > f.target || f'.pendingConn >= 65535)
  {
    hide Tuned, Credited, Discarded;
    var f0 := f.(pendingConn := U32(f.pendingConn + r.consumed));
    var f1 := if r.consumed > 0 then Tuned(f0, r.consumed) else f;
    TunedOwes(f0, r.consumed);
    LedgerLeavesDue(f1, id, r.consumed);
  }

  lemma TunedOwes(f: Flow, c: nat)
    requires 0 < f.target <= 16777216 && f.pendingConn < 0x8000_0000 && f.sinceGrowth < 0x8000_0000
    ensures var g := Tuned(f, c);
            && g.target >= f.target && g.pendingConn == f.pendingConn + (g.target - f.target)
            && (g.flushDue <==> f.flushDue || g.target > f.target)
  {
  }

  lemma LedgerLeavesDue(f: Flow, id: nat, c: nat)
    ensures var g := Credited(f, id, c);
            g.target == f.target && g.pendingConn == f.pendingConn && g.flushDue == f.flushDue
    ensures var g := Discarded(f, id);
            g.target == f.target && g.pendingConn == f.pendingConn && g.flushDue == f.flushDue
  {
  }

  lemma SteppedStaysDue(f: Flow, s: Step)
    ensures f.flushDue || (s.Reading? && s.reading.ended) ==> Stepped(f, s).flushDue
  {
    hide Find, WindowUpdateFrame;
  }

  lemma {:induction false} BatchStaysDue(f: Flow, steps: seq<Step>)
    requires f.flushDue || exists s :: s in steps && s.Reading? && s.reading.ended
    ensures Batch(f, steps).flushDue
    decreases |steps|
  {
    hide Stepped;
    if steps != [] {
      SteppedStaysDue(f, steps[0]);
      BatchStaysDue(Stepped(f, steps[0]), steps[1..]);
    }
  }

  /** A batch in which a stream ended, or in which the window has grown, grants all that is owed to the connection. */
  lemma EndedStreamFlushes(f: Flow, steps: seq<Step>)
    requires f.flushDue || exists s :: s in steps && s.Reading? && s.reading.ended
    ensures Flushed(Batch(f, steps)).pendingConn == 0
  {
    hide Batch;
    BatchStaysDue(f, steps);
  }
}
