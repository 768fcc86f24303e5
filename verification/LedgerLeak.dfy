/** A run in which removed streams fill the ledger for good, and the next stream's credit is lost. */
module LedgerLeak {
  import opened Octets
  import opened HpackPrimitives
  import opened DynamicTable
  import opened Frames
  import opened FlowControl
  import opened StreamLedger
  import opened ResponseSink
  import opened Connection
  import opened Demultiplexing

  /** The identifier of the k-th stream. */
  function Id(k: nat): (id: nat) {
    2 * k + 1
  }

  function OneOctet(k: nat): (f: Frame)
    requires k <= MAX_STREAMS
    ensures ValidFrame(f)
  {
    Frame(DATA, 0, Id(k), [0])
  }

  /** A request enters its stream and one octet of its response is read. */
  function Consume(k: nat, contract: Contract): (events: seq<Happening>)
    requires k <= MAX_STREAMS
  {
    [Allot, EnterStream(Id(k), Some(contract)), Arrive(FrameForm(OneOctet(k))), HandleFrame, EndBatch]
  }

  /** The same for the first k streams, each removed before its response is over. */
  function Abandoned(k: nat, contract: Contract): (events: seq<Happening>)
    requires k <= MAX_STREAMS
  {
    if k == 0 then [] else Abandoned(k - 1, contract) + (Consume(k - 1, contract) + [Unregister(Id(k - 1))])
  }

  function Entries(k: nat): (s: seq<Credit>)
    ensures |s| == k
  {
    seq(k, i requires 0 <= i => Credit(Id(i), 1))
  }

  /** The ledger once k octets of k streams were consumed. */
  function FlowAt(k: nat): (f: Flow) {
    Flow(k, false, INITIAL_WINDOW, k, Entries(k), [], [])
  }

  function Leaked(table: Table, k: nat): (c: Conn) {
    Conn(map[], Id(k), {}, table, FlowAt(k), NoError, false, [], false)
  }

  lemma NotAnEntry(k: nat, id: nat)
    requires id >= Id(k)
    ensures Find(Entries(k), id) == k
  {
    assert forall i :: 0 <= i < k ==> Entries(k)[i].streamId != id;
  }

  /** One octet more, of a stream the ledger does not know. */
  lemma OneMore(k: nat)
    requires k <= MAX_STREAMS
    ensures Stepped(FlowAt(k), Reading(Id(k), StreamReading(1, 0, false, false)))
         == if k < MAX_STREAMS then FlowAt(k + 1) else FlowAt(k).(pendingConn := k + 1, sinceGrowth := k + 1)
  {
    hide Tuned, Credited, Entries;
    var tuned := FlowAt(k).(pendingConn := k + 1, sinceGrowth := k + 1);
    assert Tuned(FlowAt(k).(pendingConn := k + 1), 1) == tuned by { SmallTune(k); }
    OneEntryMore(k, tuned);
  }

  lemma SmallTune(k: nat)
    requires k <= MAX_STREAMS
    ensures Tuned(FlowAt(k).(pendingConn := k + 1), 1) == FlowAt(k).(pendingConn := k + 1, sinceGrowth := k + 1)
  {
  }

  lemma OneEntryMore(k: nat, f: Flow)
    requires k <= MAX_STREAMS && f.streams == Entries(k)
    ensures Credited(f, Id(k), 1) == if k < MAX_STREAMS then f.(streams := Entries(k + 1)) else f
  {
    hide Find;
    NotAnEntry(k, Id(k));
    if k < MAX_STREAMS {
      assert (Entries(k) + [Credit(Id(k), 0)])[k := Credit(Id(k), 1)] == Entries(k + 1);
    }
  }

  /** A live stream whose body is collected, after some of its body. */
  ghost predicate Collecting(s: StreamState, id: nat, body: seq<byte>) {
    && s.id == id && s.payload == body && !s.isEnded && s.sink.Some?
    && s.sink.value.contract.collecting && !s.sink.value.aborted && !s.sink.value.decoding && !s.sink.value.cancelled
  }

  lemma OctetIsConsumed(slot: Slot, table: Table, k: nat)
    requires k <= MAX_STREAMS && Collecting(slot.stream, Id(k), [])
    ensures var h := OnFrame(slot, table, OneOctet(k));
            var e := EndReading(h.slot.stream, OneOctet(k));
            h.table == table && Collecting(e.stream, Id(k), [0]) && e.reading == StreamReading(1, 0, false, false)
  {
    var s := slot.stream;
    assert [[0 as byte]][1..] == [];
    assert s.(sink := Some(Fed(s.sink.value, [0]))) == s;
    var s1 := ResponseSink.Consumed(s, [0]);
    assert ConsumedAll(s1, []) == s1 && !StopsWithin(s1, []);
    assert ConsumedAll(s, [[0]]) == s1 && !StopsWithin(s, [[0]]);
  }

  /** What five events make of a connection whose streams are all gone. */
  lemma ConsumeRuns(table: Table, k: nat, contract: Contract)
    requires k <= MAX_STREAMS && contract.collecting
    ensures var c, d := Leaked(table, k), After(Leaked(table, k), Consume(k, contract));
            && Id(k) in d.streams && Collecting(d.streams[Id(k)].stream, Id(k), [0])
            && d == c.(streams := map[Id(k) := d.streams[Id(k)]], nextId := Id(k + 1),
                       flow := if k < MAX_STREAMS then FlowAt(k + 1)
                               else FlowAt(k).(pendingConn := k + 1, sinceGrowth := k + 1))
  {
    hide Stepped, FrameForm, ParseOne, OnFrame, EndReading, Collecting;
    var c, id, f := Leaked(table, k), Id(k), OneOctet(k);
    var events := Consume(k, contract);
    FiveEvents(c, events);
    var c1 := Happened(c, Allot);
    assert c1 == c.(allotted := {id}, nextId := Id(k + 1));
    var c2 := Happened(c1, EnterStream(id, Some(contract)));
    assert {id} - {id} == {};
    assert c2 == c.(streams := map[id := OpenSlot(id, Some(contract))], nextId := Id(k + 1));
    FormIsFrame(k);
    var c3 := Happened(c2, Arrive(FrameForm(f)));
    assert [] + FrameForm(f) == FrameForm(f);
    assert NextFrame(c3) == Some(f);
    OpenIsCollecting(id, contract);
    OctetIsConsumed(c3.streams[id], c3.table, k);
    OneMore(k);
    var c4 := Happened(c3, HandleFrame);
    assert c4.kept == [];
    NothingDue(k);
  }

  lemma FiveEvents(c: Conn, events: seq<Happening>)
    requires |events| == 5
    ensures After(c, events)
         == Happened(Happened(Happened(Happened(Happened(c, events[0]), events[1]), events[2]), events[3]), events[4])
  {
    hide Happened;
    var c1 := Happened(c, events[0]);
    var c2 := Happened(c1, events[1]);
    var c3 := Happened(c2, events[2]);
    var c4 := Happened(c3, events[3]);
    assert After(c, events) == After(c1, events[1..]);
    assert events[1..][1..] == events[2..] && After(c1, events[1..]) == After(c2, events[2..]);
    assert events[2..][1..] == events[3..] && After(c2, events[2..]) == After(c3, events[3..]);
    assert events[3..][1..] == events[4..] && After(c3, events[3..]) == After(c4, events[4..]);
    assert events[4..][1..] == [] && After(c4, events[4..]) == Happened(c4, events[4]);
  }

  lemma FormIsFrame(k: nat)
    requires k <= MAX_STREAMS
    ensures var f := OneOctet(k);
            ParseOne(FrameForm(f)) == Some(Read(f, |FrameForm(f)|)) && |FrameForm(f)| <= READ_MAX
    ensures ParseOne([]) == None
  {
    var f := OneOctet(k);
    FormRoundTrip(f, []);
    assert FrameForm(f) + [] == FrameForm(f);
  }

  lemma OpenIsCollecting(id: nat, contract: Contract)
    requires contract.collecting
    ensures Collecting(OpenSlot(id, Some(contract)).stream, id, [])
  {
  }

  lemma NothingDue(k: nat)
    ensures Flushed(FlowAt(k)) == FlowAt(k)
    ensures var f := FlowAt(k).(pendingConn := k + 1, sinceGrowth := k + 1); Flushed(f) == f
  {
  }

  lemma {:induction false} AfterAppend(c: Conn, events: seq<Happening>, more: seq<Happening>)
    ensures After(c, events + more) == After(After(c, events), more)
    decreases |events|
  {
    hide Happened;
    if events == [] {
      assert events + more == more;
    } else {
      assert (events + more)[1..] == events[1..] + more;
      AfterAppend(Happened(c, events[0]), events[1..], more);
    }
  }

  /** Every abandoned stream leaves its entry behind. */
  lemma {:induction false} AbandonedLeak(table: Table, k: nat, contract: Contract)
    requires k <= MAX_STREAMS && contract.collecting
    ensures After(InitialConn(table), Abandoned(k, contract)) == Leaked(table, k)
    decreases k
  {
    hide Happened, Consume;
    if k == 0 {
      assert Entries(0) == [];
    } else {
      AbandonedLeak(table, k - 1, contract);
      var round := Consume(k - 1, contract) + [Unregister(Id(k - 1))];
      AfterAppend(InitialConn(table), Abandoned(k - 1, contract), round);
      AfterAppend(Leaked(table, k - 1), Consume(k - 1, contract), [Unregister(Id(k - 1))]);
      ConsumeRuns(table, k - 1, contract);
      RemovalLeaks(After(Leaked(table, k - 1), Consume(k - 1, contract)), table, k - 1);
    }
  }

  lemma RemovalLeaks(d: Conn, table: Table, k: nat)
    requires d.streams.Keys == {Id(k)} && d == Leaked(table, k + 1).(streams := d.streams)
    ensures After(d, [Unregister(Id(k))]) == Leaked(table, k + 1)
  {
    assert [Unregister(Id(k))][1..] == [];
    assert d.streams - {Id(k)} == map[];
  }

  /**
   After as many abandoned streams as the ledger has entries, the next stream is registered and live, its body is the
   one octet read, and it has been granted nothing for it, nor is anything held.
   */
  lemma CreditIsLost(table: Table, contract: Contract)
    requires contract.collecting
    ensures var c := After(InitialConn(table), Abandoned(MAX_STREAMS, contract) + Consume(MAX_STREAMS, contract));
            var id := Id(MAX_STREAMS);
            && id in c.streams && Collecting(c.streams[id].stream, id, [0])
            && Granted(c.flow, id) == 0 && Held(c.flow, id) == 0 && !HasRoom(c.flow, id)
  {
    hide Abandoned, Consume, After;
    AfterAppend(InitialConn(table), Abandoned(MAX_STREAMS, contract), Consume(MAX_STREAMS, contract));
    AbandonedLeak(table, MAX_STREAMS, contract);
    ConsumeRuns(table, MAX_STREAMS, contract);
    NotAnEntry(MAX_STREAMS, Id(MAX_STREAMS));
    assert AllFrames(FlowAt(MAX_STREAMS)) == [];
  }
}
