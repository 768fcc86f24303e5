/**
 One HTTP/2 connection: its reader, frame by frame, and the requests that register and remove streams between frames.
 Streams are values here, indexed by their identifiers.
 */
module Connection {
  import opened Octets
  import opened HpackPrimitives
  import opened DynamicTable
  import opened HeaderBlock
  import opened Frames
  import opened HeaderFraming
  import opened FlowControl
  import opened ResponseSink

  /** A registered stream: what the sink sees, and a header block still being assembled. */
  datatype Slot = Slot(stream: StreamState, block: seq<byte>, awaiting: bool)

  datatype Conn = Conn(
    streams: map<nat, Slot>,
    nextId: nat,
    allotted: set<nat>,         // identifiers drawn by requests that have not entered their stream yet
    table: Table,
    flow: Flow,
    connError: Error,
    goingAway: bool,
    kept: seq<byte>,            // octets buffered and not dispatched
    busy: bool                  // the reader is within a batch
  )

  function InitialConn(table: Table): (c: Conn) {
    Conn(map[], 1, {}, table, InitialFlow, NoError, false, [], false)
  }

  // ---------------------------------------------------------------- frames of one stream

  predicate StreamScoped(kind: byte) {
    kind == DATA || kind == HEADERS || kind == RST_STREAM || kind == CONTINUATION
  }

  /** A slot and the shared table after its header frames. */
  datatype Headed = Headed(slot: Slot, table: Table)

  ghost function HeadersFrameOn(slot: Slot, table: Table, f: Frame): (r: Headed) {
    var s := slot.stream;
    var st := OnHeadersFrame(HeaderState(Decoding(s.headers, table, false), slot.block, slot.awaiting),
                             f.payload, f.flags, true);
    Headed(Slot(s.(headers := st.decoding.headers,
                   error := if st.decoding.failed then DecodingHeadersFrameFailed else s.error),
                st.block, st.awaiting),
           st.decoding.table)
  }

  ghost function ContinuationOn(slot: Slot, table: Table, f: Frame): (r: Headed) {
    var s := slot.stream;
    var st := OnContinuation(HeaderState(Decoding(s.headers, table, s.error != NoError), slot.block, slot.awaiting),
                             f.payload, f.flags);
    Headed(Slot(s.(headers := st.decoding.headers,
                   error := if s.error == NoError && st.decoding.failed then DecodingHeadersFrameFailed else s.error),
                st.block, st.awaiting),
           st.decoding.table)
  }

  /** An unknown stream's HEADERS are decoded into a scratch stream, for the table alone. */
  ghost function ScratchTable(table: Table, f: Frame): (t: Table) {
    if f.kind != HEADERS then table
    else OnHeadersFrame(HeaderState(Decoding([], table, false), [], false), f.payload, f.flags, false).decoding.table
  }

  predicate Http11RequiredCode(f: Frame) {
    f.kind == RST_STREAM && f.payload == [0, 0, 0, 13]
  }

  /** handleStreamFrame on a known stream */
  ghost function OnFrame(slot: Slot, table: Table, f: Frame): (r: Headed) {
    var h :=
      if f.kind == DATA then Headed(slot.(stream := Appended(slot.stream, f.payload).0), table)
      else if f.kind == HEADERS then HeadersFrameOn(slot, table, f)
      else if f.kind == CONTINUATION then ContinuationOn(slot, table, f)
      else
        var error := if Http11RequiredCode(f) then Http11Required else RstStreamError;
        Headed(slot.(stream := slot.stream.(error := error, isEnded := true)), table);
    var s1 := h.slot.stream;
    var s2 := if (f.kind == HEADERS || f.kind == CONTINUATION) && EndHeaders(f.flags) && s1.error == NoError
              then HeadersDelivered(s1) else s1;
    var s3 := if f.kind != RST_STREAM && EndStream(f.flags) then s2.(isEnded := true) else s2;
    h.(slot := h.slot.(stream := s3))
  }

  datatype Ended = Ended(stream: StreamState, reading: StreamReading)

  /** endStreamReading: ends the callbacks of a finished or stopped stream, and reports what is owed. */
  function EndReading(s: StreamState, f: Frame): (r: Ended) {
    var s1 := if s.isEnded then Completed(s) else s;
    var reading := StreamReading(0, 0, s.isEnded, f.kind == RST_STREAM);
    if s.sink == None then Ended(s1, reading)
    else
      var consuming := reading.(consumed := if f.kind == DATA then |f.payload| else 0);
      var (s2, cancelled) := CancellationTaken(s1);
      if !cancelled then Ended(s2, consuming)
      else
        var s3 := if s.isEnded then s2 else Completed(s2.(isEnded := true));
        Ended(s3, consuming.(cancelStreamId := s.id))
  }

  // ---------------------------------------------------------------- dispatch

  function FailedSlot(slot: Slot, onlyPending: bool, connError: Error): (r: Slot) {
    var s := slot.stream;
    if s.isEnded || (onlyPending && s.headers != []) then slot
    else slot.(stream := Completed(s.(error := if connError != NoError then connError else ReadingConnectionError,
                                      isEnded := true)))
  }

  /** failAllStreams */
  function FailedAll(streams: map<nat, Slot>, onlyPending: bool, connError: Error): (r: map<nat, Slot>)
    ensures r.Keys == streams.Keys
  {
    map id | id in streams :: FailedSlot(streams[id], onlyPending, connError)
  }

  /** What a connection-level frame is answered with. */
  function Answers(f: Frame): (fs: seq<Frame>) {
    if f.kind == SETTINGS && !Ack(f.flags) then [SettingsAck]
    else if f.kind == PING && !Ack(f.flags) && |f.payload| == 8 then [PingAck(f.payload)]
    else []
  }

  function GoAwayError(payload: seq<byte>): (e: Error)
    requires |payload| >= 8
  {
    if payload[4..8] == [0, 0, 0, 4] then SettingsTimeout
    else if payload[4..8] == [0, 0, 0, 13] then Http11Required
    else GoAway
  }

  /** readerDispatch */
  ghost function Dispatch(c: Conn, f: Frame): (c': Conn) {
    if StreamScoped(f.kind) then
      if f.streamId in c.streams then
        var h := OnFrame(c.streams[f.streamId], c.table, f);
        var e := EndReading(h.slot.stream, f);
        var refused := Http11RequiredCode(f);
        c.(streams := c.streams[f.streamId := h.slot.(stream := e.stream)],
           table := h.table,
           flow := Stepped(c.flow, Reading(f.streamId, e.reading)),
           connError := if refused then Http11Required else c.connError,
           goingAway := refused || c.goingAway)
      else c.(table := ScratchTable(c.table, f))
    else
      var leaving := f.kind == GOAWAY && |f.payload| >= 8;
      var connError := if leaving then GoAwayError(f.payload) else c.connError;
      var c1 := c.(connError := connError, goingAway := leaving || c.goingAway);
      var c2 := if Answers(f) == [] then c1 else c1.(flow := Stepped(c1.flow, Control(Answers(f)[0])));
      if f.kind == GOAWAY then c2.(streams := FailedAll(c2.streams, true, connError)) else c2
  }

  ghost function DispatchAll(c: Conn, frames: seq<Frame>): (c': Conn)
    decreases |frames|
  {
    if frames == [] then c else DispatchAll(Dispatch(c, frames[0]), frames[1..])
  }

  // ---------------------------------------------------------------- what can happen, one critical section at a time

  /** The reader's buffer for one SSL_read. */
  const READ_MAX: nat := 16384

  /**
   The reader takes octets in, handles one frame, or ends its batch with a flush; a request draws an identifier, enters
   its stream, ends its callbacks when it could not be sent, or removes it; the connection is lost. What is not possible
   at the moment changes nothing.
   */
  datatype Happening =
    | Arrive(chunk: seq<byte>)
    | HandleFrame
    | EndBatch
    | Allot
    | EnterStream(id: nat, sink: Option<Contract>)
    | SendFailed(id: nat)
    | Unregister(id: nat)
    | Lost

  /** The frame the reader handles next. */
  ghost function NextFrame(c: Conn): (f: Option<Frame>)
    ensures f.Some? ==> ParseOne(c.kept).Some?
  {
    if !c.busy then None
    else
      match ParseOne(c.kept)
      case None => None
      case Some(r) => Some(r.value)
  }

  function OpenSlot(id: nat, contract: Option<Contract>): (slot: Slot) {
    Slot(StreamState(id, false, NoError, [], [], if contract == None then None else Some(NewSink(contract.value))),
         [], false)
  }

  function GivenUp(slot: Slot): (r: Slot) {
    slot.(stream := Completed(slot.stream))
  }

  ghost function FrameTaken(c: Conn): (c': Conn) {
    match NextFrame(c)
    case None => c
    case Some(f) => Dispatch(c, f).(kept := c.kept[ParseOne(c.kept).value.used..])
  }

  ghost function Happened(c: Conn, e: Happening): (c': Conn) {
    match e
    case Arrive(chunk) => if c.busy || |chunk| > READ_MAX then c else c.(kept := c.kept + chunk, busy := true)
    case HandleFrame => FrameTaken(c)
    case EndBatch =>
      if !c.busy || ParseOne(c.kept).Some? then c else c.(flow := Flushed(c.flow), busy := false)
    case Allot => c.(allotted := c.allotted + {c.nextId}, nextId := c.nextId + 2)
    case EnterStream(id, contract) =>
      if id !in c.allotted then c
      else
        var c1 := c.(allotted := c.allotted - {id});
        if |c.streams| >= MAX_STREAMS then c1 else c1.(streams := c.streams[id := OpenSlot(id, contract)])
    case SendFailed(id) =>
      if id !in c.streams then c else c.(streams := c.streams[id := GivenUp(c.streams[id])])
    case Unregister(id) => c.(streams := c.streams - {id})
    case Lost => if c.busy then c else c.(streams := FailedAll(c.streams, false, c.connError), goingAway := true)
  }

  ghost function After(c: Conn, events: seq<Happening>): (c': Conn)
    decreases |events|
  {
    if events == [] then c else After(Happened(c, events[0]), events[1..])
  }

  // ---------------------------------------------------------------- the frames of a run

  /** The octets a run takes in. */
  ghost function Arrived(c: Conn, events: seq<Happening>): (s: seq<byte>)
    decreases |events|
  {
    if events == [] then []
    else
      var e := events[0];
      (if e.Arrive? && !c.busy && |e.chunk| <= READ_MAX then e.chunk else []) + Arrived(Happened(c, e), events[1..])
  }

  ghost function FrameOf(c: Conn, e: Happening): (fs: seq<Frame>) {
    if e.HandleFrame? && NextFrame(c).Some? then [NextFrame(c).value] else []
  }

  /** The frames a run handles, in order. */
  ghost function FramesOf(c: Conn, events: seq<Happening>): (fs: seq<Frame>)
    decreases |events|
  {
    if events == [] then [] else FrameOf(c, events[0]) + FramesOf(Happened(c, events[0]), events[1..])
  }

  lemma DispatchKeepsBuffer(c: Conn, f: Frame)
    ensures var d := Dispatch(c, f);
            && d.kept == c.kept && d.busy == c.busy && d.nextId == c.nextId && d.allotted == c.allotted
            && d.streams.Keys == c.streams.Keys
  {
    hide OnFrame, EndReading, Stepped, ScratchTable, GoAwayError;
  }

  /** Handling the next frame takes exactly it off the buffer. */
  lemma TakenParses(c: Conn, f: Frame, more: seq<byte>)
    requires NextFrame(c) == Some(f)
    ensures Parse(c.kept + more).frames == [f] + Parse(FrameTaken(c).kept + more).frames
    ensures Parse(c.kept + more).rest == Parse(FrameTaken(c).kept + more).rest
  {
    hide Dispatch, Parse, ParseOne;
    var r := ParseOne(c.kept).value;
    ParseOneExtends(c.kept, more);
    ParseUnfold(c.kept + more);
    assert (c.kept + more)[r.used..] == c.kept[r.used..] + more;
  }

  lemma HappenedParses(c: Conn, e: Happening, more: seq<byte>)
    ensures var now := if e.Arrive? && !c.busy && |e.chunk| <= READ_MAX then e.chunk else [];
            && Parse(c.kept + (now + more)).frames == FrameOf(c, e) + Parse(Happened(c, e).kept + more).frames
            && Parse(c.kept + (now + more)).rest == Parse(Happened(c, e).kept + more).rest
  {
    hide Dispatch, Flushed, FailedAll, Parse, NextFrame;
    if e.Arrive? {
      assert c.kept + (e.chunk + more) == (c.kept + e.chunk) + more;
    } else if e.HandleFrame? && NextFrame(c).Some? {
      hide FrameTaken;
      TakenParses(c, NextFrame(c).value, more);
    }
    assert c.kept + ([] + more) == c.kept + more;
    assert [] + Parse(Happened(c, e).kept + more).frames == Parse(Happened(c, e).kept + more).frames;
  }

  /**
   However reads cut the octets and whatever streams come and go between frames, the frames handled are the frames of
   the octets that arrived, in order, and what is kept is what is left of them.
   */
  lemma {:induction false} FramesOfRun(c: Conn, events: seq<Happening>)
    ensures var p, q := Parse(c.kept + Arrived(c, events)), Parse(After(c, events).kept);
            p.frames == FramesOf(c, events) + q.frames && p.rest == q.rest
    decreases |events|
  {
    hide Happened, Parse, FrameOf;
    if events == [] {
      assert c.kept + [] == c.kept;
    } else {
      var e := events[0];
      var c1 := Happened(c, e);
      HappenedParses(c, e, Arrived(c1, events[1..]));
      FramesOfRun(c1, events[1..]);
    }
  }
}
