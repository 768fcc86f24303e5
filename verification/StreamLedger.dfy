/** What the ledger owes and sends to each single stream, over whole runs of the reader. */
module StreamLedger {
  import opened Octets
  import opened HpackPrimitives
  import opened Frames
  import opened FlowControl

  /** The WINDOW_UPDATE frames that name a stream. */
  function Updates(fs: seq<Frame>, id: nat): (r: seq<Frame>) {
    if fs == [] then []
    else
      var f := fs[|fs| - 1];
      Updates(fs[..|fs| - 1], id) + (if f.kind == WINDOW_UPDATE && f.streamId == id then [f] else [])
  }

  function Sum(fs: seq<Frame>): (n: nat) {
    if fs == [] then 0 else Sum(fs[..|fs| - 1]) + Increment(fs[|fs| - 1])
  }

  /** Every frame queued or written so far, in order. */
  function AllFrames(f: Flow): (fs: seq<Frame>) {
    f.written + f.queued
  }

  /** Credit the peer has been granted for a stream. */
  function Granted(f: Flow, id: nat): (n: nat) {
    Sum(Updates(AllFrames(f), id))
  }

  /** Credit the ledger still holds back for a stream. */
  function Held(f: Flow, id: nat): (n: nat) {
    var i := Find(f.streams, id);
    if i < |f.streams| then f.streams[i].credit else 0
  }

  predicate Tracked(f: Flow, id: nat) {
    Find(f.streams, id) < |f.streams|
  }

  /** The ledger can take credit for the stream. */
  predicate HasRoom(f: Flow, id: nat) {
    Tracked(f, id) || |f.streams| < MAX_STREAMS
  }

  lemma {:induction false} UpdatesAppend(fs: seq<Frame>, gs: seq<Frame>, id: nat)
    ensures Updates(fs + gs, id) == Updates(fs, id) + Updates(gs, id)
  {
    if gs == [] {
      assert fs + gs == fs;
    } else {
      assert (fs + gs)[..|fs + gs| - 1] == fs + gs[..|gs| - 1];
      UpdatesAppend(fs, gs[..|gs| - 1], id);
    }
  }

  lemma UpdatesOne(f: Frame, id: nat)
    ensures Updates([f], id) == if f.kind == WINDOW_UPDATE && f.streamId == id then [f] else []
  {
    assert [f][..0] == [];
    assert Updates([], id) == [];
  }

  lemma SumOneMore(fs: seq<Frame>, f: Frame)
    ensures Sum(fs + [f]) == Sum(fs) + Increment(f)
  {
    assert (fs + [f])[..|fs|] == fs;
  }

  /** Queueing one frame adds to a stream's updates only when it is one. */
  lemma QueueOne(f: Flow, g: Frame, id: nat)
    ensures var f' := f.(queued := f.queued + [g]);
            && Updates(AllFrames(f'), id)
            == Updates(AllFrames(f), id) + (if g.kind == WINDOW_UPDATE && g.streamId == id then [g] else [])
            && Granted(f', id)
            == Granted(f, id) + (if g.kind == WINDOW_UPDATE && g.streamId == id then Increment(g) else 0)
  {
    hide Increment;
    assert f.written + (f.queued + [g]) == AllFrames(f) + [g];
    UpdatesAppend(AllFrames(f), [g], id);
    UpdatesOne(g, id);
    SumOneMore(Updates(AllFrames(f), id), g);
    assert Updates(AllFrames(f), id) + [] == Updates(AllFrames(f), id);
  }

  /** Flushing reorders nothing, and the connection's own update names no stream. */
  lemma FlushKeepsUpdates(f: Flow, id: nat)
    requires id > 0
    ensures Updates(AllFrames(Flushed(f)), id) == Updates(AllFrames(f), id)
    ensures Granted(Flushed(f), id) == Granted(f, id)
  {
    hide Increment;
    var due := f.flushDue && f.pendingConn > 0;
    var f' := if due then f.(queued := f.queued + [WindowUpdateFrame(0, f.pendingConn)]) else f;
    if due {
      QueueOne(f, WindowUpdateFrame(0, f.pendingConn), id);
    }
    assert AllFrames(Flushed(f)) == AllFrames(f');
  }

  lemma {:induction false} FindAfterUpdate(s: seq<Credit>, i: nat, c: Credit, id: nat)
    requires i < |s| && s[i].streamId == c.streamId
    ensures Find(s[i := c], id) == Find(s, id)
  {
    if i > 0 && s[0].streamId != id {
      assert s[i := c][1..] == s[1..][i - 1 := c];
      FindAfterUpdate(s[1..], i - 1, c, id);
    } else if s[0].streamId != id {
      assert s[i := c][1..] == s[1..];
    }
  }

  lemma {:induction false} FindAfterAppend(s: seq<Credit>, c: Credit, id: nat)
    ensures Find(s + [c], id)
         == if Find(s, id) < |s| then Find(s, id) else if c.streamId == id then |s| else |s| + 1
  {
    if s == [] {
      assert s + [c] == [c];
      assert [c][1..] == [];
    } else if s[0].streamId != id {
      assert (s + [c])[1..] == s[1..] + [c];
      FindAfterAppend(s[1..], c, id);
    }
  }

  /** What crediting a stream the ledger has room for does to any stream's entry, and to the queue. */
  lemma CreditedShape(f: Flow, id: nat, c: nat, other: nat)
    requires HasRoom(f, id)
    ensures var sum, f' := U32(Held(f, id) + c), Credited(f, id, c);
            && Held(f', other)
            == (if other != id then Held(f, other) else if sum <= STREAM_WINDOW_UPDATE_THRESHOLD then sum else 0)
            && Tracked(f', other) == (other == id || Tracked(f, other))
            && f'.written == f.written
            && f'.queued
            == if sum <= STREAM_WINDOW_UPDATE_THRESHOLD then f.queued else f.queued + [WindowUpdateFrame(id, sum)]
  {
    hide WindowUpdateFrame, Find;
    var i := Find(f.streams, id);
    var s := if i == |f.streams| then f.streams + [Credit(id, 0)] else f.streams;
    var sum := U32(s[i].credit + c);
    FindAfterAppend(f.streams, Credit(id, 0), id);
    FindAfterAppend(f.streams, Credit(id, 0), other);
    FindAfterUpdate(s, i, Credit(id, sum), other);
    FindAfterUpdate(s, i, Credit(id, 0), other);
  }

  /** Crediting a stream conserves what it is owed exactly when the ledger has room for it, and loses it otherwise. */
  lemma CreditBooks(f: Flow, id: nat, c: nat)
    requires LedgerInv(f.streams) && 0 < id < 0x8000_0000 && 0 < c < 0x100_0000
    ensures Granted(Credited(f, id, c), id) + Held(Credited(f, id, c), id) <= Granted(f, id) + Held(f, id) + c
    ensures Granted(Credited(f, id, c), id) + Held(Credited(f, id, c), id) == Granted(f, id) + Held(f, id) + c
       <==> HasRoom(f, id)
  {
    hide Granted, Held, Credited, LedgerInv, HasRoom;
    if HasRoom(f, id) {
      HeldBelowThreshold(f, id);
      CreditBooksWithRoom(f, id, c);
    } else {
      NoRoomNoCredit(f, id, c);
    }
  }

  lemma NoRoomNoCredit(f: Flow, id: nat, c: nat)
    requires !HasRoom(f, id)
    ensures Credited(f, id, c) == f
  {
  }

  lemma HeldBelowThreshold(f: Flow, id: nat)
    requires LedgerInv(f.streams)
    ensures Held(f, id) <= STREAM_WINDOW_UPDATE_THRESHOLD
  {
  }

  lemma CreditBooksWithRoom(f: Flow, id: nat, c: nat)
    requires HasRoom(f, id) && 0 < id < 0x8000_0000 && 0 < c < 0x100_0000
    requires Held(f, id) <= STREAM_WINDOW_UPDATE_THRESHOLD
    ensures Granted(Credited(f, id, c), id) + Held(Credited(f, id, c), id) == Granted(f, id) + Held(f, id) + c
  {
    hide Increment, Granted, Held, HasRoom, Credited, BigEndian32, AllFrames, Updates, Find;
    var sum := Held(f, id) + c;
    CreditedShape(f, id, c, id);
    QueueOne(f, WindowUpdateFrame(id, sum), id);
    IncrementOfWindowUpdate(id, sum);
    SameFrames(f, Credited(f, id, c), id);
    SameFrames(f.(queued := f.queued + [WindowUpdateFrame(id, sum)]), Credited(f, id, c), id);
  }

  lemma SameFrames(f: Flow, g: Flow, id: nat)
    ensures f.written == g.written && f.queued == g.queued ==>
              Granted(f, id) == Granted(g, id) && Updates(AllFrames(f), id) == Updates(AllFrames(g), id)
  {
  }

  /** Crediting one stream leaves every other alone. */
  lemma CreditOthers(f: Flow, id: nat, c: nat, other: nat)
    requires id != other && id < 0x8000_0000
    ensures Held(Credited(f, id, c), other) == Held(f, other)
    ensures Updates(AllFrames(Credited(f, id, c)), other) == Updates(AllFrames(f), other)
    ensures Tracked(Credited(f, id, c), other) == Tracked(f, other)
  {
    if HasRoom(f, id) {
      CreditOthersWithRoom(f, id, c, other);
    } else {
      assert Credited(f, id, c) == f;
    }
  }

  lemma CreditOthersWithRoom(f: Flow, id: nat, c: nat, other: nat)
    requires id != other && id < 0x8000_0000 && HasRoom(f, id)
    ensures Held(Credited(f, id, c), other) == Held(f, other)
    ensures Updates(AllFrames(Credited(f, id, c)), other) == Updates(AllFrames(f), other)
    ensures Tracked(Credited(f, id, c), other) == Tracked(f, other)
  {
    hide Increment, Granted, Held, HasRoom, Tracked, Credited, BigEndian32, AllFrames, Updates;
    var sum := U32(Held(f, id) + c);
    CreditedShape(f, id, c, other);
    QueueOne(f, WindowUpdateFrame(id, sum), other);
    SameFrames(f, Credited(f, id, c), other);
    SameFrames(f.(queued := f.queued + [WindowUpdateFrame(id, sum)]), Credited(f, id, c), other);
    assert Updates(AllFrames(f), other) + [] == Updates(AllFrames(f), other);
  }

  lemma FoundIs(s: seq<Credit>, i: nat, id: nat)
    requires i < |s| && s[i].streamId == id
    requires forall j, k :: 0 <= j < k < |s| ==> s[j].streamId != s[k].streamId
    ensures Find(s, id) == i
  {
    assert Find(s, id) <= i;
  }

  /** Discarding one stream leaves every other alone. */
  lemma DiscardOthers(f: Flow, id: nat, other: nat)
    requires LedgerInv(f.streams) && id != other
    ensures Held(Discarded(f, id), other) == Held(f, other)
    ensures Tracked(Discarded(f, id), other) == Tracked(f, other)
  {
    DiscardKeepsLedgerInv(f, id);
    var i, s, s' := Find(f.streams, id), f.streams, Discarded(f, id).streams;
    if i < |s| {
      var j := Find(s, other);
      if j < |s| - 1 {
        FoundIs(s', j, other);
      } else if j == |s| - 1 {
        FoundIs(s', i, other);
      } else {
        assert forall c :: c in s' ==> c in s;
      }
    }
  }

  lemma TuneKeepsStreams(f: Flow, c: nat, id: nat)
    ensures var f' := Tuned(f.(pendingConn := U32(f.pendingConn + c)), c);
            && f'.streams == f.streams
            && Updates(AllFrames(f'), id) == Updates(AllFrames(f), id)
  {
  }

  // ---------------------------------------------------------------- one step

  predicate ReadingOf(s: Step, id: nat) {
    s.Reading? && s.streamId == id
  }

  /** A step about something else changes nothing for a stream. */
  lemma OtherStep(f: Flow, s: Step, id: nat)
    requires LedgerInv(f.streams) && ValidStep(s) && !ReadingOf(s, id)
    ensures Held(Stepped(f, s), id) == Held(f, id) && Tracked(Stepped(f, s), id) == Tracked(f, id)
    ensures Updates(AllFrames(Stepped(f, s)), id) == Updates(AllFrames(f), id)
  {
    hide Tuned, Credited, Discarded, Updates, Find, LedgerInv;
    match s {
      case Reading(other, r) =>
        TuneKeepsStreams(f, r.consumed, id);
        var f1 := if r.consumed > 0 then Tuned(f.(pendingConn := U32(f.pendingConn + r.consumed)), r.consumed) else f;
        CreditOthers(f1, other, r.consumed, id);
        DiscardOthers(f1, other, id);
        DiscardTouchesStreamsOnly(f1, other);
        QueueOne(Replenished(f, other, r), CancelFrame(r.cancelStreamId), id);
      case Control(frame) =>
        QueueOne(f, frame, id);
    }
  }

  /** Data of a live stream is conserved exactly when the ledger has room for the stream, and lost otherwise. */
  lemma LiveStep(f: Flow, id: nat, r: StreamReading)
    requires LedgerInv(f.streams) && ValidStep(Reading(id, r)) && !Dead(r)
    ensures Granted(Stepped(f, Reading(id, r)), id) + Held(Stepped(f, Reading(id, r)), id)
         <= Granted(f, id) + Held(f, id) + r.consumed
    ensures Granted(Stepped(f, Reading(id, r)), id) + Held(Stepped(f, Reading(id, r)), id)
         == Granted(f, id) + Held(f, id) + r.consumed
       <==> r.consumed == 0 || HasRoom(f, id)
  {
    hide Tuned, Credited, LedgerInv, Find, Updates;
    if r.consumed > 0 {
      TuneKeepsStreams(f, r.consumed, id);
      CreditBooks(Tuned(f.(pendingConn := U32(f.pendingConn + r.consumed)), r.consumed), id, r.consumed);
    }
  }

  /** A stream seen dead leaves the ledger, and nothing is sent for it. */
  lemma DeadStep(f: Flow, id: nat, r: StreamReading)
    requires LedgerInv(f.streams) && ValidStep(Reading(id, r)) && Dead(r)
    ensures var f' := Stepped(f, Reading(id, r));
            !Tracked(f', id) && Updates(AllFrames(f'), id) == Updates(AllFrames(f), id)
  {
    hide Tuned, Discarded, LedgerInv, Updates;
    TuneKeepsStreams(f, r.consumed, id);
    var f1 := if r.consumed > 0 then Tuned(f.(pendingConn := U32(f.pendingConn + r.consumed)), r.consumed) else f;
    DiscardKeepsLedgerInv(f1, id);
    DiscardTouchesStreamsOnly(f1, id);
    QueueOne(Replenished(f, id, r), CancelFrame(r.cancelStreamId), id);
  }

  // ---------------------------------------------------------------- whole runs

  /** A run cut into its steps and the ends of its batches. */
  datatype LedgerEvent = Take(step: Step) | BatchEnd

  function Next(f: Flow, e: LedgerEvent): (f': Flow) {
    match e
    case Take(s) => Stepped(f, s)
    case BatchEnd => Flushed(f)
  }

  function AfterEvents(f: Flow, events: seq<LedgerEvent>): (f': Flow)
    decreases |events|
  {
    if events == [] then f else AfterEvents(Next(f, events[0]), events[1..])
  }

  ghost predicate ValidEvents(events: seq<LedgerEvent>) {
    forall e :: e in events && e.Take? ==> ValidStep(e.step)
  }

  function ConsumedBy(e: LedgerEvent, id: nat): (n: nat) {
    if e.Take? && ReadingOf(e.step, id) then e.step.reading.consumed else 0
  }

  function ConsumedOn(events: seq<LedgerEvent>, id: nat): (n: nat) {
    if events == [] then 0 else ConsumedBy(events[0], id) + ConsumedOn(events[1..], id)
  }

  /** No reading says that the stream is over. */
  ghost predicate Live(events: seq<LedgerEvent>, id: nat) {
    forall e :: e in events && e.Take? && ReadingOf(e.step, id) ==> !Dead(e.step.reading)
  }

  /** Credit that finds no room in the ledger. */
  predicate Loses(f: Flow, e: LedgerEvent, id: nat) {
    e.Take? && ReadingOf(e.step, id) && e.step.reading.consumed > 0 && !HasRoom(f, id)
  }

  /** The ledger has room each time the stream consumes. */
  ghost predicate AlwaysRoom(f: Flow, events: seq<LedgerEvent>, id: nat)
    decreases |events|
  {
    events != [] ==> !Loses(f, events[0], id) && AlwaysRoom(Next(f, events[0]), events[1..], id)
  }

  lemma NextKeepsLedger(f: Flow, e: LedgerEvent)
    requires LedgerInv(f.streams)
    ensures LedgerInv(Next(f, e).streams)
  {
    hide LedgerInv, Stepped;
    if e.Take? {
      StepKeepsLedgerInv(f, e.step);
    }
  }

  /** After every step of any run the ledger has distinct streams, at most 256, each owed at most 16384. */
  lemma {:induction false} LedgerStaysSmall(f: Flow, events: seq<LedgerEvent>)
    requires LedgerInv(f.streams)
    ensures LedgerInv(AfterEvents(f, events).streams)
    decreases |events|
  {
    hide LedgerInv, Next;
    if events != [] {
      NextKeepsLedger(f, events[0]);
      LedgerStaysSmall(Next(f, events[0]), events[1..]);
    }
  }

  lemma NextBooks(f: Flow, e: LedgerEvent, id: nat)
    requires LedgerInv(f.streams) && 0 < id < 0x8000_0000 && ValidEvents([e]) && Live([e], id)
    ensures Granted(Next(f, e), id) + Held(Next(f, e), id) <= Granted(f, id) + Held(f, id) + ConsumedBy(e, id)
    ensures Granted(Next(f, e), id) + Held(Next(f, e), id) == Granted(f, id) + Held(f, id) + ConsumedBy(e, id)
       <==> !Loses(f, e, id)
  {
    hide LedgerInv, Stepped, Flushed, ValidStep, HasRoom, AllFrames, Updates, Find;
    assert e in [e];
    match e {
      case Take(s) =>
        if ReadingOf(s, id) {
          LiveStep(f, id, s.reading);
        } else {
          OtherStep(f, s, id);
        }
      case BatchEnd =>
        FlushKeepsUpdates(f, id);
        FlushKeepsStreams(f);
    }
  }

  lemma FlushKeepsStreams(f: Flow)
    ensures Flushed(f).streams == f.streams
  {
  }

  /**
   Over any run in which a stream stays live, its updates plus what is held for it are what it consumed if and only if
   the ledger had room each time it consumed, and less otherwise.
   */
  lemma {:induction false} StreamCreditIff(f: Flow, events: seq<LedgerEvent>, id: nat)
    requires LedgerInv(f.streams) && 0 < id < 0x8000_0000 && ValidEvents(events) && Live(events, id)
    ensures Granted(AfterEvents(f, events), id) + Held(AfterEvents(f, events), id)
         <= Granted(f, id) + Held(f, id) + ConsumedOn(events, id)
    ensures Granted(AfterEvents(f, events), id) + Held(AfterEvents(f, events), id)
         == Granted(f, id) + Held(f, id) + ConsumedOn(events, id)
       <==> AlwaysRoom(f, events, id)
    decreases |events|
  {
    hide LedgerInv, Next, Granted, Held, ConsumedBy, Loses, ValidStep;
    if events != [] {
      assert events[0] in events;
      NextKeepsLedger(f, events[0]);
      NextBooks(f, events[0], id);
      assert forall e :: e in events[1..] ==> e in events;
      StreamCreditIff(Next(f, events[0]), events[1..], id);
    }
  }

  /** Every later reading of the stream says it is over. */
  ghost predicate StaysDead(events: seq<LedgerEvent>, id: nat) {
    forall e :: e in events && e.Take? && ReadingOf(e.step, id) ==> Dead(e.step.reading)
  }

  /** Once a stream is gone from the ledger, no WINDOW_UPDATE ever names it again. */
  lemma {:induction false} NoUpdateAfterDeath(f: Flow, events: seq<LedgerEvent>, id: nat)
    requires LedgerInv(f.streams) && 0 < id && ValidEvents(events) && StaysDead(events, id) && !Tracked(f, id)
    ensures Updates(AllFrames(AfterEvents(f, events)), id) == Updates(AllFrames(f), id)
    decreases |events|
  {
    hide LedgerInv, Stepped, Flushed, ValidStep, AllFrames, Updates, Find;
    if events != [] {
      var e := events[0];
      assert e in events;
      NextKeepsLedger(f, e);
      FlushKeepsUpdates(f, id);
      FlushKeepsStreams(f);
      if e.Take? && ReadingOf(e.step, id) {
        DeadStep(f, id, e.step.reading);
      } else if e.Take? {
        OtherStep(f, e.step, id);
      }
      assert forall e :: e in events[1..] ==> e in events;
      NoUpdateAfterDeath(Next(f, e), events[1..], id);
    }
  }
}
