/**
 The reader thread's flow-control ledger and its write queue: credit is batched per stream and per connection,
 the connection window tunes itself, and every control frame of a read batch leaves in one write.
 */
module FlowControl {
  import opened Octets
  import opened HpackPrimitives
  import opened Frames

  const STREAM_WINDOW_UPDATE_THRESHOLD: nat := 16384
  const CONNECTION_WINDOW_UPDATE_THRESHOLD: nat := 65535
  const CONNECTION_WINDOW_MAX: nat := 16777216
  const INITIAL_WINDOW: nat := 65535
  const MAX_STREAMS: nat := 256

  /** uint32_t arithmetic. */
  function U32(x: nat): (r: nat) { x % 0x1_0000_0000 }

  // ---------------------------------------------------------------- control frames

  function BigEndian32(v: nat): (s: seq<byte>) {
    [v / 256 / 256 / 256 % 256, v / 256 / 256 % 256, v / 256 % 256, v % 256]
  }

  function ReadBigEndian32(s: seq<byte>): (v: nat)
    requires |s| == 4
  {
    s[0] as int * 0x100_0000 + s[1] as int * 0x1_0000 + s[2] as int * 0x100 + s[3]
  }

  /** Identifiers and increments are 31-bit fields; the top bit is masked off. */
  function WindowUpdateFrame(streamId: nat, increment: nat): (f: Frame) {
    Frame(WINDOW_UPDATE, 0, streamId % 0x8000_0000, BigEndian32(increment % 0x8000_0000))
  }

  /** Error code 0x8: the client is no longer interested. */
  function CancelFrame(streamId: nat): (f: Frame) {
    Frame(RST_STREAM, 0, streamId % 0x8000_0000, [0, 0, 0, 8])
  }

  const SettingsAck: Frame := Frame(SETTINGS, 1, 0, [])

  function PingAck(payload: seq<byte>): (f: Frame) {
    Frame(PING, 1, 0, payload)
  }

  /** The increment a WINDOW_UPDATE carries, zero for any other frame. */
  function Increment(f: Frame): (n: nat) {
    if f.kind == WINDOW_UPDATE && |f.payload| == 4 then ReadBigEndian32(f.payload) else 0
  }

  lemma IncrementOfWindowUpdate(streamId: nat, increment: nat)
    requires increment < 0x8000_0000
    ensures Increment(WindowUpdateFrame(streamId, increment)) == increment
  {
  }

  // ---------------------------------------------------------------- the ledger as a value

  datatype Credit = Credit(streamId: nat, credit: nat)

  /** What one dispatched frame left for the reader to put on the wire. */
  datatype StreamReading = StreamReading(consumed: nat, cancelStreamId: nat, ended: bool, reset: bool)

  predicate Dead(r: StreamReading) {
    r.ended || r.reset || r.cancelStreamId != 0
  }

  datatype Flow = Flow(
    pendingConn: nat,           // connection credit owed to the peer
    flushDue: bool,
    target: nat,                // total connection window aimed at
    sinceGrowth: nat,           // octets consumed since the last growth
    streams: seq<Credit>,       // stream credit not yet returned
    queued: seq<Frame>,         // frames of this batch
    written: seq<Frame>         // frames handed to the writer so far
  )

  const InitialFlow: Flow := Flow(0, false, INITIAL_WINDOW, 0, [], [], [])

  function Tuned(f: Flow, consumed: nat): (r: Flow) {
    var since := U32(f.sinceGrowth + consumed);
    if f.target >= CONNECTION_WINDOW_MAX then f
    else if since < f.target then f.(sinceGrowth := since)
    else
      var doubled := U32(f.target * 2);
      var target := if doubled < CONNECTION_WINDOW_MAX then doubled else CONNECTION_WINDOW_MAX;
      f.(sinceGrowth := since - f.target, target := target, flushDue := true,
         pendingConn := U32(f.pendingConn + (if target > f.target then target - f.target else 0)))
  }

  /** The position of a stream's entry, or the number of entries. */
  function Find(s: seq<Credit>, id: nat): (i: nat)
    ensures i <= |s| && (i < |s| ==> s[i].streamId == id)
    ensures forall j :: 0 <= j < i ==> s[j].streamId != id
  {
    if s == [] || s[0].streamId == id then 0 else 1 + Find(s[1..], id)
  }

  function Credited(f: Flow, id: nat, credit: nat): (r: Flow) {
    var i := Find(f.streams, id);
    if i == |f.streams| && |f.streams| >= MAX_STREAMS then f
    else
      var s := if i == |f.streams| then f.streams + [Credit(id, 0)] else f.streams;
      var sum := U32(s[i].credit + credit);
      if sum <= STREAM_WINDOW_UPDATE_THRESHOLD then f.(streams := s[i := Credit(id, sum)])
      else f.(streams := s[i := Credit(id, 0)], queued := f.queued + [WindowUpdateFrame(id, sum)])
  }

  /** The last entry takes the place of the one removed. */
  function Discarded(f: Flow, id: nat): (r: Flow) {
    var i := Find(f.streams, id);
    if i == |f.streams| then f
    else f.(streams := f.streams[i := f.streams[|f.streams| - 1]][..|f.streams| - 1])
  }

  function Replenished(f: Flow, id: nat, r: StreamReading): (f': Flow) {
    var f1 := if r.consumed > 0 then Tuned(f.(pendingConn := U32(f.pendingConn + r.consumed)), r.consumed) else f;
    var f2 := if Dead(r) then Discarded(f1, id) else if r.consumed > 0 then Credited(f1, id, r.consumed) else f1;
    if r.ended || f2.pendingConn >= CONNECTION_WINDOW_UPDATE_THRESHOLD then f2.(flushDue := true) else f2
  }

  function Flushed(f: Flow): (r: Flow) {
    var due := f.flushDue && f.pendingConn > 0;
    var queued := if due then f.queued + [WindowUpdateFrame(0, f.pendingConn)] else f.queued;
    f.(flushDue := false, pendingConn := if due then 0 else f.pendingConn, queued := [], written := f.written + queued)
  }

  // ---------------------------------------------------------------- runs

  /** What the reader does to the ledger, in dispatch order. */
  datatype Step =
    | Reading(streamId: nat, reading: StreamReading)
    | Control(frame: Frame)

  function Stepped(f: Flow, s: Step): (r: Flow) {
    match s
    case Reading(id, reading) =>
      var f' := Replenished(f, id, reading);
      if reading.cancelStreamId != 0 then f'.(queued := f'.queued + [CancelFrame(reading.cancelStreamId)]) else f'
    case Control(frame) => f.(queued := f.queued + [frame])
  }

  function Batch(f: Flow, steps: seq<Step>): (r: Flow)
    decreases |steps|
  {
    if steps == [] then f else Batch(Stepped(f, steps[0]), steps[1..])
  }

  function Run(f: Flow, batches: seq<seq<Step>>): (r: Flow)
    decreases |batches|
  {
    if batches == [] then f else Run(Flushed(Batch(f, batches[0])), batches[1..])
  }

  function Consumed(steps: seq<Step>): (n: nat) {
    if steps == [] then 0
    else (if steps[0].Reading? then steps[0].reading.consumed else 0) + Consumed(steps[1..])
  }

  function ConsumedInAll(batches: seq<seq<Step>>): (n: nat) {
    if batches == [] then 0 else Consumed(batches[0]) + ConsumedInAll(batches[1..])
  }

  /** One read adds at most 16384 octets to less than one frame of at most 2^24 - 1 octets of payload. */
  const BATCH_MAX: nat := 0x100_0000 + 16391

  ghost predicate ValidStep(s: Step) {
    match s
    case Reading(id, r) => 0 < id < 0x8000_0000 && r.consumed < 0x100_0000 && r.cancelStreamId in {0, id}
    case Control(frame) => frame.kind != WINDOW_UPDATE && ValidFrame(frame)
  }

  ghost predicate ValidBatch(steps: seq<Step>) {
    (forall s :: s in steps ==> ValidStep(s)) && Consumed(steps) <= BATCH_MAX
  }

  // ---------------------------------------------------------------- the connection window

  /** The window after k growths. */
  function Target(k: nat): (n: nat) {
    if INITIAL_WINDOW * Pow2(k) < CONNECTION_WINDOW_MAX then INITIAL_WINDOW * Pow2(k) else CONNECTION_WINDOW_MAX
  }

  function ConnIncrement(f: Frame): (n: nat) {
    if f.streamId == 0 then Increment(f) else 0
  }

  function ConnCredit(fs: seq<Frame>): (n: nat) {
    if fs == [] then 0 else ConnCredit(fs[..|fs| - 1]) + ConnIncrement(fs[|fs| - 1])
  }

  lemma {:induction false} ConnCreditAppend(fs: seq<Frame>, gs: seq<Frame>)
    ensures ConnCredit(fs + gs) == ConnCredit(fs) + ConnCredit(gs)
  {
    hide ConnIncrement;
    if gs == [] {
      assert fs + gs == fs;
    } else {
      assert (fs + gs)[..|fs + gs| - 1] == fs + gs[..|gs| - 1];
      ConnCreditAppend(fs, gs[..|gs| - 1]);
    }
  }

  lemma ConnCreditOne(f: Frame)
    ensures ConnCredit([f]) == ConnIncrement(f)
  {
    assert [f][..0] == [];
    assert ConnCredit([f]) == ConnCredit([]) + ConnIncrement(f);
  }

  ghost predicate GoodIncrements(fs: seq<Frame>) {
    forall f :: f in fs && f.kind == WINDOW_UPDATE ==> 1 <= Increment(f) < 0x8000_0000
  }

  /** Everything granted to the peer and still owed to it is what was consumed plus what the window grew by. */
  ghost predicate Conserved(f: Flow, consumed: nat) {
    ConnCredit(f.written) + ConnCredit(f.queued) + f.pendingConn == consumed + f.target - INITIAL_WINDOW
  }

  /** The state of the ledger inside a batch that has consumed `batch` octets and started at `start`. */
  ghost predicate ConnInv(f: Flow, k: nat, start: nat, consumed: nat, batch: nat) {
    && k <= 9 && f.target == Target(k) && INITIAL_WINDOW <= start <= f.target
    && f.sinceGrowth < f.target + k * 0x100_0000
    && f.pendingConn < CONNECTION_WINDOW_UPDATE_THRESHOLD + batch + (f.target - start)
    && (!f.flushDue ==> f.pendingConn < CONNECTION_WINDOW_UPDATE_THRESHOLD)
    && Conserved(f, consumed)
    && GoodIncrements(f.written) && GoodIncrements(f.queued)
  }

  lemma TargetGrows(k: nat)
    requires k <= 9 && Target(k) < CONNECTION_WINDOW_MAX
    ensures k < 9
    ensures INITIAL_WINDOW <= Target(k) <= Target(k + 1) <= CONNECTION_WINDOW_MAX
    ensures Target(k + 1)
         == if Target(k) * 2 < CONNECTION_WINDOW_MAX then Target(k) * 2 else CONNECTION_WINDOW_MAX
  {
    Pow2Values();
  }

  lemma TargetRange(k: nat)
    ensures INITIAL_WINDOW <= Target(k) <= CONNECTION_WINDOW_MAX
  {
  }

  /** Consuming and tuning move the books by exactly what was consumed. */
  lemma TuneKeepsInv(f: Flow, k: nat, start: nat, consumed: nat, batch: nat, c: nat) returns (k': nat)
    requires ConnInv(f, k, start, consumed, batch) && 0 < c < 0x100_0000 && batch + c <= BATCH_MAX
    ensures var f' := Tuned(f.(pendingConn := U32(f.pendingConn + c)), c);
            && k' <= 9 && f'.target == Target(k') && f.target <= f'.target
            && f'.sinceGrowth < f'.target + k' * 0x100_0000
            && f'.pendingConn == f.pendingConn + c + (f'.target - f.target)
            && f'.pendingConn < CONNECTION_WINDOW_UPDATE_THRESHOLD + batch + c + (f'.target - start)
            && (f'.flushDue == (f.flushDue || f'.target != f.target || k' != k))
            && f'.queued == f.queued && f'.written == f.written && f'.streams == f.streams
  {
    hide Target, Conserved, GoodIncrements;
    TargetRange(k);
    k' := k;
    assert U32(f.pendingConn + c) == f.pendingConn + c;
    assert U32(f.sinceGrowth + c) == f.sinceGrowth + c;
    if f.target < CONNECTION_WINDOW_MAX && f.sinceGrowth + c >= f.target {
      TargetGrows(k);
      k' := k + 1;
      TargetRange(k');
      assert U32(f.target * 2) == f.target * 2;
    }
  }

  lemma StreamFramesAreNotConn(f: Flow, id: nat, c: nat)
    requires 0 < id < 0x8000_0000 && 0 < c < 0x100_0000 && LedgerInv(f.streams)
    ensures var f' := Credited(f, id, c);
            && ConnCredit(f'.queued) == ConnCredit(f.queued)
            && (GoodIncrements(f.queued) ==> GoodIncrements(f'.queued))
            && f'.(queued := f.queued, streams := f.streams) == f
  {
    hide Increment, ConnCredit, BigEndian32;
    var i := Find(f.streams, id);
    if !(i == |f.streams| && |f.streams| >= MAX_STREAMS) {
      var held := if i == |f.streams| then 0 else f.streams[i].credit;
      assert held <= STREAM_WINDOW_UPDATE_THRESHOLD;
      assert U32(held + c) == held + c;
      ConnCreditAppend(f.queued, [WindowUpdateFrame(id, held + c)]);
      ConnCreditOne(WindowUpdateFrame(id, held + c));
      IncrementOfWindowUpdate(id, held + c);
    }
  }

  /** Distinct streams, at most 256 of them, none owed more than the threshold. */
  ghost predicate LedgerInv(s: seq<Credit>) {
    && |s| <= MAX_STREAMS
    && (forall i, j :: 0 <= i < j < |s| ==> s[i].streamId != s[j].streamId)
    && (forall i :: 0 <= i < |s| ==> s[i].credit <= STREAM_WINDOW_UPDATE_THRESHOLD)
  }

  lemma ReplenishKeepsConnInv(f: Flow, k: nat, start: nat, consumed: nat, batch: nat, id: nat, r: StreamReading)
    returns (k': nat)
    requires ConnInv(f, k, start, consumed, batch) && LedgerInv(f.streams)
    requires ValidStep(Reading(id, r)) && batch + r.consumed <= BATCH_MAX
    ensures ConnInv(Replenished(f, id, r), k', start, consumed + r.consumed, batch + r.consumed)
  {
    hide Target, ConnCredit, GoodIncrements, LedgerInv, Credited, Discarded, Tuned;
    k' := k;
    var f1 := f;
    if r.consumed > 0 {
      k' := TuneKeepsInv(f, k, start, consumed, batch, r.consumed);
      f1 := Tuned(f.(pendingConn := U32(f.pendingConn + r.consumed)), r.consumed);
      if !Dead(r) {
        StreamFramesAreNotConn(f1, id, r.consumed);
      }
    }
    DiscardTouchesStreamsOnly(f1, id);
  }

  lemma DiscardTouchesStreamsOnly(f: Flow, id: nat)
    ensures Discarded(f, id).(streams := f.streams) == f
  {
  }

  lemma StepKeepsConnInv(f: Flow, k: nat, start: nat, consumed: nat, batch: nat, s: Step) returns (k': nat)
    requires ConnInv(f, k, start, consumed, batch) && LedgerInv(f.streams)
    requires ValidStep(s) && batch + Consumed([s]) <= BATCH_MAX
    ensures ConnInv(Stepped(f, s), k', start, consumed + Consumed([s]), batch + Consumed([s]))
  {
    hide Target, Replenished, LedgerInv, ConnCredit, ConnIncrement, Increment, ValidFrame;
    k' := k;
    match s {
      case Reading(id, r) =>
        assert Consumed([s]) == r.consumed + Consumed([]);
        k' := ReplenishKeepsConnInv(f, k, start, consumed, batch, id, r);
        QueueOther(Replenished(f, id, r).queued, CancelFrame(r.cancelStreamId));
      case Control(frame) =>
        assert Consumed([s]) == 0;
        QueueOther(f.queued, frame);
    }
  }

  lemma QueueOther(fs: seq<Frame>, f: Frame)
    requires f.kind != WINDOW_UPDATE
    ensures ConnCredit(fs + [f]) == ConnCredit(fs)
    ensures GoodIncrements(fs) ==> GoodIncrements(fs + [f])
  {
    ConnCreditAppend(fs, [f]);
    ConnCreditOne(f);
  }

  lemma ConsumedFirst(steps: seq<Step>)
    requires steps != []
    ensures Consumed(steps) == Consumed([steps[0]]) + Consumed(steps[1..])
  {
    assert [steps[0]][1..] == [];
  }

  lemma {:induction false} BatchKeepsConnInv(f: Flow, k: nat, start: nat, consumed: nat, batch: nat, steps: seq<Step>)
    returns (k': nat)
    requires ConnInv(f, k, start, consumed, batch) && LedgerInv(f.streams)
    requires (forall s :: s in steps ==> ValidStep(s)) && batch + Consumed(steps) <= BATCH_MAX
    ensures ConnInv(Batch(f, steps), k', start, consumed + Consumed(steps), batch + Consumed(steps))
    ensures LedgerInv(Batch(f, steps).streams)
    decreases |steps|
  {
    hide ConnInv, Stepped, LedgerInv, ValidStep;
    k' := k;
    if steps != [] {
      ConsumedFirst(steps);
      assert steps[0] in steps;
      k' := StepKeepsConnInv(f, k, start, consumed, batch, steps[0]);
      StepKeepsLedgerInv(f, steps[0]);
      var c := Consumed([steps[0]]);
      k' := BatchKeepsConnInv(Stepped(f, steps[0]), k', start, consumed + c, batch + c, steps[1..]);
    }
  }

  lemma CreditKeepsLedgerInv(f: Flow, id: nat, c: nat)
    requires LedgerInv(f.streams)
    ensures LedgerInv(Credited(f, id, c).streams)
  {
    hide WindowUpdateFrame;
    var i := Find(f.streams, id);
    if i == |f.streams| {
      assert forall j :: 0 <= j < i ==> f.streams[j].streamId != id;
    }
  }

  lemma DiscardKeepsLedgerInv(f: Flow, id: nat)
    requires LedgerInv(f.streams)
    ensures LedgerInv(Discarded(f, id).streams)
    ensures forall c :: c in Discarded(f, id).streams ==> c.streamId != id
  {
  }

  lemma StepKeepsLedgerInv(f: Flow, s: Step)
    requires LedgerInv(f.streams)
    ensures LedgerInv(Stepped(f, s).streams)
  {
    hide Tuned, Credited, Discarded, LedgerInv;
    if s.Reading? {
      var r := s.reading;
      TuneTouchesConnOnly(f.(pendingConn := U32(f.pendingConn + r.consumed)), r.consumed);
      var f1 := if r.consumed > 0 then Tuned(f.(pendingConn := U32(f.pendingConn + r.consumed)), r.consumed) else f;
      CreditKeepsLedgerInv(f1, s.streamId, r.consumed);
      DiscardKeepsLedgerInv(f1, s.streamId);
    }
  }

  lemma TuneTouchesConnOnly(f: Flow, c: nat)
    ensures Tuned(f, c).streams == f.streams && Tuned(f, c).queued == f.queued && Tuned(f, c).written == f.written
  {
  }

  /** The state between batches. */
  ghost predicate BetweenBatches(f: Flow, consumed: nat) {
    && (exists k :: 0 <= k <= 9 && ConnInv(f, k, f.target, consumed, 0))
    && f.pendingConn < CONNECTION_WINDOW_UPDATE_THRESHOLD && !f.flushDue && f.queued == []
    && LedgerInv(f.streams)
  }

  lemma FlushKeepsBooks(f: Flow, k: nat, start: nat, consumed: nat)
    requires exists batch :: 0 <= batch <= BATCH_MAX && ConnInv(f, k, start, consumed, batch)
    requires LedgerInv(f.streams)
    ensures BetweenBatches(Flushed(f), consumed)
  {
    hide Target, ConnCredit, LedgerInv, Increment, ConnIncrement;
    var batch :| 0 <= batch <= BATCH_MAX && ConnInv(f, k, start, consumed, batch);
    var f' := Flushed(f);
    TargetRange(k);
    var queued := if f.flushDue && f.pendingConn > 0 then f.queued + [WindowUpdateFrame(0, f.pendingConn)]
                  else f.queued;
    ConnCreditAppend(f.written, queued);
    NothingQueued();
    if f.flushDue && f.pendingConn > 0 {
      ConnCreditAppend(f.queued, [WindowUpdateFrame(0, f.pendingConn)]);
      FlushFrame(f.pendingConn);
    }
    assert Conserved(f', consumed);
    assert ConnInv(f', k, f'.target, consumed, 0);
  }

  lemma FlushFrame(n: nat)
    requires 1 <= n < 0x8000_0000
    ensures ConnCredit([WindowUpdateFrame(0, n)]) == n && Increment(WindowUpdateFrame(0, n)) == n
  {
    IncrementOfWindowUpdate(0, n);
    ConnCreditOne(WindowUpdateFrame(0, n));
  }

  lemma NothingQueued()
    ensures ConnCredit([]) == 0
  {
  }

  lemma InitialBooks()
    ensures BetweenBatches(InitialFlow, 0)
  {
    hide Target, Conserved, GoodIncrements, LedgerInv;
    InitialFacts(InitialFlow);
    assert ConnInv(InitialFlow, 0, INITIAL_WINDOW, 0, 0);
  }

  lemma InitialFacts(f: Flow)
    requires f == InitialFlow
    ensures Target(0) == f.target && Conserved(f, 0) && LedgerInv(f.streams)
    ensures GoodIncrements(f.written) && GoodIncrements(f.queued)
  {
    hide ConnIncrement, Increment, ConnCredit, GoodIncrements, LedgerInv;
    NothingQueued();
    EmptyIsGood();
  }

  lemma EmptyIsGood()
    ensures GoodIncrements([]) && LedgerInv([])
  {
  }

  /** Over any run of batches the connection's books balance after every batch. */
  lemma {:induction false} RunKeepsBooks(f: Flow, consumed: nat, batches: seq<seq<Step>>)
    requires BetweenBatches(f, consumed)
    requires forall b :: b in batches ==> ValidBatch(b)
    ensures BetweenBatches(Run(f, batches), consumed + ConsumedInAll(batches))
    decreases |batches|
  {
    hide ConnInv, Batch, Flushed, LedgerInv, ValidStep;
    if batches != [] {
      assert batches[0] in batches;
      var steps := batches[0];
      var k :| 0 <= k <= 9 && ConnInv(f, k, f.target, consumed, 0);
      var k' := BatchKeepsConnInv(f, k, f.target, consumed, 0, steps);
      FlushKeepsBooks(Batch(f, steps), k', f.target, consumed + Consumed(steps));
      RunKeepsBooks(Flushed(Batch(f, steps)), consumed + Consumed(steps), batches[1..]);
    }
  }

  // ---------------------------------------------------------------- what the books say

  /** At every step of a run: the books balance and the window is an initial window doubled k times, up to 2^24. */
  lemma CreditIsConserved(batches: seq<seq<Step>>, steps: seq<Step>)
    requires (forall b :: b in batches ==> ValidBatch(b)) && ValidBatch(steps)
    ensures Conserved(Batch(Run(InitialFlow, batches), steps), ConsumedInAll(batches) + Consumed(steps))
    ensures exists k :: 0 <= k <= 9 && Batch(Run(InitialFlow, batches), steps).target == Target(k)
  {
    hide Batch, Run, Conserved, Target, LedgerInv, ValidStep, GoodIncrements, ValidBatch, Consumed, ConsumedInAll;
    InitialBooks();
    RunKeepsBooks(InitialFlow, 0, batches);
    OpenBatch(steps);
    var f, consumed := Run(InitialFlow, batches), ConsumedInAll(batches);
    var k :| 0 <= k <= 9 && ConnInv(f, k, f.target, consumed, 0);
    var k' := BatchKeepsConnInv(f, k, f.target, consumed, 0, steps);
    assert Batch(f, steps).target == Target(k');
  }

  lemma OpenBatch(steps: seq<Step>)
    requires ValidBatch(steps)
    ensures (forall s :: s in steps ==> ValidStep(s)) && Consumed(steps) <= BATCH_MAX
  {
    hide ValidStep;
  }

  /** The peer's connection window when it has received `granted` and sent `sent` octets of DATA. */
  function PeerWindow(advertised: nat, granted: nat, sent: nat): (w: int) {
    INITIAL_WINDOW + advertised + granted - sent
  }

  lemma BooksSay(f: Flow, consumed: nat)
    requires BetweenBatches(f, consumed)
    ensures ConnCredit(f.written) + f.pendingConn == consumed + f.target - INITIAL_WINDOW
    ensures f.pendingConn < CONNECTION_WINDOW_UPDATE_THRESHOLD
    ensures INITIAL_WINDOW <= f.target <= CONNECTION_WINDOW_MAX && GoodIncrements(f.written)
  {
    hide Target, LedgerInv, Increment, ConnIncrement, ConnCredit, GoodIncrements;
    var k :| 0 <= k <= 9 && ConnInv(f, k, f.target, consumed, 0);
    TargetRange(k);
    NothingQueued();
  }

  /**
   After every batch: increments are legal, the peer's window has not overflowed, and a peer whose DATA has all
   been consumed on registered streams still has more than the advertised extra credit left.
   */
  lemma PeerNeitherStallsNorOverflows(batches: seq<seq<Step>>, advertised: nat, sent: nat)
    requires forall b :: b in batches ==> ValidBatch(b)
    requires advertised + CONNECTION_WINDOW_MAX < 0x8000_0000
    requires sent >= ConsumedInAll(batches)
    ensures var f := Run(InitialFlow, batches);
            && GoodIncrements(f.written)
            && f.pendingConn < CONNECTION_WINDOW_UPDATE_THRESHOLD
            && PeerWindow(advertised, ConnCredit(f.written), sent) < 0x8000_0000
            && (sent == ConsumedInAll(batches) ==> PeerWindow(advertised, ConnCredit(f.written), sent) > advertised)
  {
    hide Run, BetweenBatches, ValidBatch, ConnCredit, ConsumedInAll, GoodIncrements;
    InitialBooks();
    RunKeepsBooks(InitialFlow, 0, batches);
    BooksSay(Run(InitialFlow, batches), ConsumedInAll(batches));
  }
}
