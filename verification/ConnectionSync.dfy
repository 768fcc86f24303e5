/** The decoder's table over whole runs of a connection: when it is the peer's encoder's table, and when it is not. */
module ConnectionSync {
  import opened Octets
  import opened HpackPrimitives
  import opened DynamicTable
  import opened HeaderBlock
  import opened HpackSync
  import opened Frames
  import opened HeaderFraming
  import opened FlowControl
  import opened ResponseSink
  import opened Connection

  const PUSH_PROMISE: byte := 5

  datatype Opened = Opened(id: nat, block: seq<byte>)

  /** The peer's encoder: its table, the blocks it is still to send, and the block whose frames it is sending. */
  datatype Encoder = Encoder(table: Table, blocks: seq<seq<Rep>>, open: Option<Opened>)

  ghost predicate IsNextBlock(enc: Encoder, octets: seq<byte>) {
    enc.blocks != [] && octets == BlockForm(enc.blocks[0]) && ValidBlock(enc.blocks[0], enc.table)
  }

  /**
   What a peer may send next (section 4.3 of RFC 9113): a HEADERS frame when no block is open, with a whole block or
   the first fragment of one; then CONTINUATION frames on its stream. Anything else may come as well, but for
   PUSH_PROMISE, which carries a block too: every profile that sends settings turns pushing off.
   */
  ghost predicate MaySend(f: Frame, enc: Encoder) {
    if f.kind == HEADERS then
      var fragment := Fragment(f.payload, f.flags);
      enc.open == None && fragment.Some? && (EndHeaders(f.flags) ==> IsNextBlock(enc, fragment.value))
    else if f.kind == CONTINUATION then
      && enc.open.Some? && enc.open.value.id == f.streamId
      && (EndHeaders(f.flags) ==> IsNextBlock(enc, enc.open.value.block + f.payload))
    else f.kind != PUSH_PROMISE
  }

  ghost function FrameSent(f: Frame, enc: Encoder): (e: Encoder)
    requires MaySend(f, enc)
  {
    if EndsBlock(f) then Encoder(TableAfterBlock(enc.blocks[0], enc.table), enc.blocks[1..], None)
    else if f.kind == HEADERS then enc.(open := Some(Opened(f.streamId, Fragment(f.payload, f.flags).value)))
    else if f.kind == CONTINUATION then enc.(open := Some(Opened(f.streamId, enc.open.value.block + f.payload)))
    else enc
  }

  /** The frame that ends a block. */
  predicate EndsBlock(f: Frame) {
    (f.kind == HEADERS || f.kind == CONTINUATION) && EndHeaders(f.flags)
  }

  ghost predicate StepCarries(c: Conn, e: Happening, enc: Encoder) {
    e.HandleFrame? && NextFrame(c).Some? ==> MaySend(NextFrame(c).value, enc)
  }

  ghost function EncoderNext(c: Conn, e: Happening, enc: Encoder): (r: Encoder)
    requires StepCarries(c, e, enc)
  {
    if e.HandleFrame? && NextFrame(c).Some? then FrameSent(NextFrame(c).value, enc) else enc
  }

  /** The frames of the run carry the encoder's blocks. */
  ghost predicate Carries(c: Conn, events: seq<Happening>, enc: Encoder)
    decreases |events|
  {
    events != [] ==>
      StepCarries(c, events[0], enc) && Carries(Happened(c, events[0]), events[1..], EncoderNext(c, events[0], enc))
  }

  ghost function EncoderAfter(c: Conn, events: seq<Happening>, enc: Encoder): (r: Encoder)
    requires Carries(c, events, enc)
    decreases |events|
  {
    if events == [] then enc
    else EncoderAfter(Happened(c, events[0]), events[1..], EncoderNext(c, events[0], enc))
  }

  // ---------------------------------------------------------------- what of a block is decoded

  /** The stream has been registered since the block's HEADERS frame, and is not in error. */
  ghost predicate Collecting(c: Conn, id: nat) {
    id in c.streams && c.streams[id].awaiting && c.streams[id].stream.error == NoError
  }

  /**
   How much of the block ended by `f` is decoded: up to the stream's limit on a registered stream, all of it in one
   HEADERS frame for any other, and nothing of a split block whose stream is not collecting it.
   */
  ghost function DecodedReps(c: Conn, f: Frame, reps: seq<Rep>): (n: nat)
    ensures n <= |reps|
  {
    if f.kind == HEADERS && f.streamId !in c.streams then |reps|
    else if f.kind == HEADERS || Collecting(c, f.streamId) then Reached(reps, RESPONSE_HEADERS_MAX_SIZE)
    else 0
  }

  /** What is not decoded of a block leaves the encoder's table as it is. */
  ghost predicate LosesNothing(c: Conn, f: Frame, enc: Encoder)
    requires MaySend(f, enc)
  {
    EndsBlock(f) ==> RestChangesNothing(enc.blocks[0], DecodedReps(c, f, enc.blocks[0]), enc.table)
  }

  /** A stream that awaits the rest of the open block holds what was sent of it. */
  ghost predicate HoldsOpen(c: Conn, enc: Encoder) {
    enc.open.Some? && enc.open.value.id in c.streams && c.streams[enc.open.value.id].awaiting ==>
      c.streams[enc.open.value.id].block == enc.open.value.block
  }

  /** The connection's table follows the encoder's, and a stream that awaits the open block's rest holds its start. */
  ghost predicate InStep(c: Conn, enc: Encoder) {
    Follows(enc.table, c.table) && HoldsOpen(c, enc)
  }

  /** The same with equal tables, their maximum sizes included. */
  ghost predicate InSync(c: Conn, enc: Encoder) {
    c.table == enc.table && TableValid(enc.table) && HoldsOpen(c, enc)
  }

  // ---------------------------------------------------------------- one frame

  /** Decoding a block on a registered stream, on the encoder's table. */
  lemma DecodingFollowsIff(reps: seq<Rep>, octets: seq<byte>, d: Decoding)
    requires ValidBlock(reps, d.table) && octets == BlockForm(reps) && TableValid(d.table)
    ensures var r := DecodeHeaders(octets, d, true);
            && (r.table == TableAfterBlock(reps, d.table)
                <==> RestChangesNothing(reps, Reached(reps, RESPONSE_HEADERS_MAX_SIZE), d.table))
            && (reps != [] ==> r.headers == FirstHeaders(HeadersOf(reps, d.table)))
            && r.failed == d.failed
  {
    hide DecodeBlock, HeadersOf, TableSize, BlockForm, ValidBlock, LeftTable, RestChangesNothing, FirstHeaders;
    TableFollowsIff(reps, d);
    BlockFormEmpty(reps, d.table);
    BlockStopsAtLimit(reps, d.(headers := []));
    assert [] + HeadersOf(reps, d.table) == HeadersOf(reps, d.table);
  }

  lemma ScratchFollows(reps: seq<Rep>, octets: seq<byte>, t: Table)
    requires ValidBlock(reps, t) && octets == BlockForm(reps) && TableValid(t)
    ensures DecodeHeaders(octets, Decoding([], t, false), false).table == TableAfterBlock(reps, t)
  {
    hide DecodeBlock, HeadersOf, TableSize, BlockForm, ValidBlock, TableAfterBlock;
    BlockRoundTrip(reps, Decoding([], t, false), false);
    BlockFormEmpty(reps, t);
    NoRepsNoChange(reps, t);
  }

  lemma AllDecoded(reps: seq<Rep>, t: Table)
    requires ValidBlock(reps, t)
    ensures RestChangesNothing(reps, |reps|, t)
  {
    assert reps[|reps|..] == [];
    SplitBlock(reps, |reps|, t);
  }

  lemma NothingDecoded(reps: seq<Rep>, t: Table)
    requires ValidBlock(reps, t)
    ensures RestChangesNothing(reps, 0, t) <==> TableAfterBlock(reps, t) == t
  {
    assert reps[0..] == reps && reps[..0] == [];
    SplitBlock(reps, 0, t);
  }

  /** The table a frame leaves. */
  ghost function TableOn(c: Conn, f: Frame): (t: Table) {
    if f.streamId in c.streams then OnFrame(c.streams[f.streamId], c.table, f).table else ScratchTable(c.table, f)
  }

  /** From equal tables, a frame leaves equal tables if and only if what it leaves undecoded changes nothing. */
  lemma FrameFollowsIff(c: Conn, f: Frame, enc: Encoder)
    requires StreamScoped(f.kind) && InSync(c, enc) && MaySend(f, enc)
    ensures TableOn(c, f) == FrameSent(f, enc).table <==> LosesNothing(c, f, enc)
  {
    hide Appended, HeadersDelivered, DecodeHeaders, Fragment, BlockForm, ValidBlock, TableAfterBlock, TableValid;
    hide RestChangesNothing, HeadersOf, FirstHeaders;
    if EndsBlock(f) {
      var reps := enc.blocks[0];
      AllDecoded(reps, enc.table);
      NothingDecoded(reps, enc.table);
      if f.kind == HEADERS {
        var octets := Fragment(f.payload, f.flags).value;
        ScratchFollows(reps, octets, enc.table);
        if f.streamId in c.streams {
          DecodingFollowsIff(reps, octets, Decoding(c.streams[f.streamId].stream.headers, c.table, false));
        }
      } else if Collecting(c, f.streamId) {
        DecodingFollowsIff(reps, c.streams[f.streamId].block + f.payload,
                           Decoding(c.streams[f.streamId].stream.headers, c.table, false));
      }
    }
  }

  /** A stream that awaits the rest of a block holds what was sent of it, after any frame. */
  lemma FrameKeepsOpen(c: Conn, f: Frame, enc: Encoder)
    requires StreamScoped(f.kind) && HoldsOpen(c, enc) && MaySend(f, enc) && f.streamId in c.streams
    ensures var slot, e := OnFrame(c.streams[f.streamId], c.table, f).slot, FrameSent(f, enc);
            e.open.Some? && e.open.value.id == f.streamId && slot.awaiting ==> slot.block == e.open.value.block
  {
    hide Appended, HeadersDelivered, DecodeHeaders, Fragment, IsNextBlock, TableAfterBlock;
  }

  /** Sending a frame opens a block on its own stream only. */
  lemma OpenElsewhere(f: Frame, enc: Encoder)
    requires MaySend(f, enc)
    ensures var e := FrameSent(f, enc);
            && (e.open == enc.open || e.open == None || (e.open.Some? && e.open.value.id == f.streamId))
            && (!StreamScoped(f.kind) ==> e == enc)
  {
    hide Fragment, IsNextBlock, TableAfterBlock;
  }

  lemma SentStaysValid(f: Frame, enc: Encoder)
    requires MaySend(f, enc) && TableValid(enc.table)
    ensures TableValid(FrameSent(f, enc).table)
  {
    hide Fragment, BlockForm, ValidBlock, TableAfterBlock;
    if EndsBlock(f) {
      BlockKeepsBound(enc.blocks[0], enc.table);
    }
  }

  /** Handling a frame in sync leaves the connection in sync if and only if nothing the encoder relies on is lost. */
  lemma DispatchFollowsIff(c: Conn, f: Frame, enc: Encoder)
    requires InSync(c, enc) && MaySend(f, enc)
    ensures Dispatch(c, f).table == FrameSent(f, enc).table <==> LosesNothing(c, f, enc)
    ensures TableValid(FrameSent(f, enc).table) && HoldsOpen(Dispatch(c, f), FrameSent(f, enc))
  {
    hide OnFrame, EndReading, Stepped, ScratchTable, GoAwayError, TableValid, MaySend, FrameSent, RestChangesNothing;
    SentStaysValid(f, enc);
    OpenElsewhere(f, enc);
    if StreamScoped(f.kind) {
      FrameFollowsIff(c, f, enc);
      if f.streamId in c.streams {
        FrameKeepsOpen(c, f, enc);
      }
    }
  }

  /** Once the last frame of a block is handled, its stream holds the first 64 headers of the block. */
  lemma BlockReachesStream(c: Conn, f: Frame, enc: Encoder)
    requires f.streamId in c.streams && InStep(c, enc) && EndsBlock(f) && MaySend(f, enc)
    requires f.kind == CONTINUATION ==> Collecting(c, f.streamId)
    ensures f.streamId in Dispatch(c, f).streams
    ensures enc.blocks[0] != [] ==>
              Dispatch(c, f).streams[f.streamId].stream.headers == FirstHeaders(HeadersOf(enc.blocks[0], enc.table))
  {
    hide DecodeHeaders, Fragment, Follows, HeadersDelivered, EndReading, Stepped, FirstHeaders, RestIsFollowed;
    hide BlockForm, ValidBlock, HeadersOf;
    var slot := c.streams[f.streamId];
    var octets := if f.kind == HEADERS then Fragment(f.payload, f.flags).value else slot.block + f.payload;
    BlockIsFollowed(enc.blocks[0], octets, enc.table, Decoding(slot.stream.headers, c.table, false));
    HeadersStay(HeadersFrameOn(slot, c.table, f).slot.stream);
    HeadersStay(ContinuationOn(slot, c.table, f).slot.stream);
    EndReadingKeepsHeaders(OnFrame(slot, c.table, f).slot.stream, f);
  }

  /** A stream that calls back and has not told its headers yet. */
  predicate Untold(s: StreamState) {
    s.sink.Some? && !s.sink.value.contract.collecting && !s.sink.value.headersDelivered
  }

  /**
   Then its caller is told exactly these, before anything else: on a registered stream without an error, whose headers
   were not told before, the calls so far are followed by onHeaders with the first 64 headers of the block.
   */
  lemma BlockIsTold(c: Conn, f: Frame, enc: Encoder)
    requires f.streamId in c.streams && InStep(c, enc) && EndsBlock(f) && MaySend(f, enc)
    requires f.kind == CONTINUATION ==> Collecting(c, f.streamId)
    requires enc.blocks[0] != [] && c.streams[f.streamId].stream.error == NoError
    requires Untold(c.streams[f.streamId].stream)
    ensures f.streamId in Dispatch(c, f).streams && Dispatch(c, f).streams[f.streamId].stream.sink.Some?
    ensures var k, l := c.streams[f.streamId].stream.sink.value, Dispatch(c, f).streams[f.streamId].stream.sink.value;
            k.trace + [OnHeaders(FirstHeaders(HeadersOf(enc.blocks[0], enc.table)))] <= l.trace
  {
    hide DecodeHeaders, Fragment, Follows, EndReading, Stepped, FirstHeaders, RestIsFollowed;
    hide BlockForm, ValidBlock, HeadersOf, HeadersDelivered;
    var slot := c.streams[f.streamId];
    var octets := if f.kind == HEADERS then Fragment(f.payload, f.flags).value else slot.block + f.payload;
    BlockIsFollowed(enc.blocks[0], octets, enc.table, Decoding(slot.stream.headers, c.table, false));
    var marked := if f.kind == HEADERS then HeadersFrameOn(slot, c.table, f).slot.stream
                  else ContinuationOn(slot, c.table, f).slot.stream;
    assert marked.error == NoError && marked.sink == slot.stream.sink;
    HeadersAreTold(marked);
    EndReadingOnlyAppends(OnFrame(slot, c.table, f).slot.stream, f);
  }

  lemma HeadersAreTold(s: StreamState)
    requires Untold(s)
    ensures var t := HeadersDelivered(s);
            t.sink.Some? && t.sink.value.trace == s.sink.value.trace + [OnHeaders(s.headers)]
  {
  }

  lemma EndReadingOnlyAppends(s: StreamState, f: Frame)
    requires s.sink.Some?
    ensures EndReading(s, f).stream.sink.Some? && s.sink.value.trace <= EndReading(s, f).stream.sink.value.trace
  {
  }

  lemma HeadersStay(s: StreamState)
    ensures HeadersDelivered(s).headers == s.headers
  {
  }

  lemma EndReadingKeepsHeaders(s: StreamState, f: Frame)
    ensures EndReading(s, f).stream.headers == s.headers
  {
  }

  // ---------------------------------------------------------------- one frame, and a table that follows

  /** Decoding a block on a registered stream, on a table that follows the encoder's. */
  lemma BlockIsFollowed(reps: seq<Rep>, octets: seq<byte>, enc: Table, d: Decoding)
    requires ValidBlock(reps, enc) && octets == BlockForm(reps) && Follows(enc, d.table)
    ensures var r := DecodeHeaders(octets, d, true);
            && (reps != [] ==> r.headers == FirstHeaders(HeadersOf(reps, enc))) && r.failed == d.failed
            && (RestIsFollowed(reps, Reached(reps, RESPONSE_HEADERS_MAX_SIZE), enc) ==>
                  Follows(TableAfterBlock(reps, enc), r.table))
  {
    hide DecodeBlock, HeadersOf, TableSize, BlockForm, ValidBlock, LeftTable, RestIsFollowed, FirstHeaders;
    var n := Reached(reps, RESPONSE_HEADERS_MAX_SIZE);
    BlockFollows(reps, enc, d.table);
    BlockFormEmpty(reps, d.table);
    BlockStopsAtLimit(reps, d.(headers := []));
    LeftAtOnce(reps, d.table);
    assert [] + HeadersOf(reps, d.table) == HeadersOf(reps, d.table);
    if RestIsFollowed(reps, n, enc) {
      LeftFollows(reps, n, enc, d.table);
    }
  }

  lemma ScratchIsFollowed(reps: seq<Rep>, octets: seq<byte>, enc: Table, t: Table)
    requires ValidBlock(reps, enc) && octets == BlockForm(reps) && Follows(enc, t)
    ensures Follows(TableAfterBlock(reps, enc), DecodeHeaders(octets, Decoding([], t, false), false).table)
  {
    hide DecodeHeaders, TableSize, BlockForm, ValidBlock, TableAfterBlock;
    BlockFollows(reps, enc, t);
    ScratchFollows(reps, octets, t);
  }

  lemma NothingDecodedFollowed(reps: seq<Rep>, enc: Table, dec: Table)
    requires ValidBlock(reps, enc) && Follows(enc, dec) && RestIsFollowed(reps, 0, enc)
    ensures Follows(TableAfterBlock(reps, enc), dec)
  {
    hide Follows, ValidBlock, TableAfterBlock;
    LeftFollows(reps, 0, enc, dec);
    LeftAtOnce(reps, dec);
  }

  /** What is not decoded of a block leaves the encoder a table that its table without it follows. */
  ghost predicate LosesNothingNeeded(c: Conn, f: Frame, enc: Encoder)
    requires MaySend(f, enc)
  {
    EndsBlock(f) ==> RestIsFollowed(enc.blocks[0], DecodedReps(c, f, enc.blocks[0]), enc.table)
  }

  lemma FrameIsFollowed(c: Conn, f: Frame, enc: Encoder)
    requires StreamScoped(f.kind) && InStep(c, enc) && MaySend(f, enc) && LosesNothingNeeded(c, f, enc)
    ensures Follows(FrameSent(f, enc).table, TableOn(c, f))
  {
    hide Appended, HeadersDelivered, DecodeHeaders, Fragment, BlockForm, ValidBlock, TableAfterBlock, Follows;
    hide RestIsFollowed, HeadersOf, FirstHeaders;
    if EndsBlock(f) {
      var reps := enc.blocks[0];
      if f.kind == HEADERS {
        var octets := Fragment(f.payload, f.flags).value;
        ScratchIsFollowed(reps, octets, enc.table, c.table);
        if f.streamId in c.streams {
          BlockIsFollowed(reps, octets, enc.table, Decoding(c.streams[f.streamId].stream.headers, c.table, false));
        }
      } else if Collecting(c, f.streamId) {
        BlockIsFollowed(reps, c.streams[f.streamId].block + f.payload, enc.table,
                        Decoding(c.streams[f.streamId].stream.headers, c.table, false));
      } else {
        NothingDecodedFollowed(reps, enc.table, c.table);
      }
    }
  }

  lemma DispatchStaysInStep(c: Conn, f: Frame, enc: Encoder)
    requires InStep(c, enc) && MaySend(f, enc) && LosesNothingNeeded(c, f, enc)
    ensures InStep(Dispatch(c, f), FrameSent(f, enc))
  {
    hide OnFrame, EndReading, Stepped, ScratchTable, GoAwayError, Follows, MaySend, FrameSent, RestIsFollowed;
    OpenElsewhere(f, enc);
    if StreamScoped(f.kind) {
      FrameIsFollowed(c, f, enc);
      if f.streamId in c.streams {
        FrameKeepsOpen(c, f, enc);
      }
    }
  }

  // ---------------------------------------------------------------- whole runs

  ghost predicate StepLosesNothing(c: Conn, e: Happening, enc: Encoder)
    requires StepCarries(c, e, enc)
  {
    e.HandleFrame? && NextFrame(c).Some? ==> LosesNothing(c, NextFrame(c).value, enc)
  }

  /** No block of the run has a part that is not decoded and changes the encoder's table. */
  ghost predicate NothingLost(c: Conn, events: seq<Happening>, enc: Encoder)
    requires Carries(c, events, enc)
    decreases |events|
  {
    events != [] ==>
      && StepLosesNothing(c, events[0], enc)
      && NothingLost(Happened(c, events[0]), events[1..], EncoderNext(c, events[0], enc))
  }

  /** The tables are equal at the start, at the end and at every step between. */
  ghost predicate AlwaysEqual(c: Conn, events: seq<Happening>, enc: Encoder)
    requires Carries(c, events, enc)
    decreases |events|
  {
    && c.table == enc.table
    && (events != [] ==> AlwaysEqual(Happened(c, events[0]), events[1..], EncoderNext(c, events[0], enc)))
  }

  lemma HappenedFollowsIff(c: Conn, e: Happening, enc: Encoder)
    requires InSync(c, enc) && StepCarries(c, e, enc)
    ensures Happened(c, e).table == EncoderNext(c, e, enc).table <==> StepLosesNothing(c, e, enc)
    ensures TableValid(EncoderNext(c, e, enc).table) && HoldsOpen(Happened(c, e), EncoderNext(c, e, enc))
  {
    hide Dispatch, ParseOne, Flushed, MaySend, FrameSent, LosesNothing, TableValid, FailedSlot;
    if e.HandleFrame? && NextFrame(c).Some? {
      DispatchFollowsIff(c, NextFrame(c).value, enc);
    } else if e.Lost? {
      FailingKeepsBlocks(c.streams, c.connError);
    }
  }

  lemma FailingKeepsBlocks(streams: map<nat, Slot>, connError: Error)
    ensures var failed := FailedAll(streams, false, connError);
            forall id :: id in streams ==>
              failed[id].block == streams[id].block && failed[id].awaiting == streams[id].awaiting
  {
    hide Completed;
  }

  /**
   From equal tables, maximum sizes included, over every run whose frames carry an encoder's blocks, whole or split, on
   any streams, with streams coming, going and failing between frames: the connection's table is the encoder's at every
   step if and only if no part of a block that goes undecoded would have changed the encoder's table.
   */
  lemma {:induction false} AlwaysEqualIff(c: Conn, events: seq<Happening>, enc: Encoder)
    requires InSync(c, enc) && Carries(c, events, enc)
    ensures AlwaysEqual(c, events, enc) <==> NothingLost(c, events, enc)
    ensures NothingLost(c, events, enc) ==> InSync(After(c, events), EncoderAfter(c, events, enc))
    decreases |events|
  {
    hide Happened, StepCarries, EncoderNext, TableValid, StepLosesNothing, HoldsOpen;
    if events != [] {
      HappenedFollowsIff(c, events[0], enc);
      if StepLosesNothing(c, events[0], enc) {
        AlwaysEqualIff(Happened(c, events[0]), events[1..], EncoderNext(c, events[0], enc));
      }
    }
  }

  const DEFAULT_TABLE_SIZE: nat := 4096

  /** The table a connection starts with: of the size its profile advertises, or of the default size. */
  function InitialTable(advertised: nat): (t: Table) {
    Table([], if advertised > 0 then advertised else DEFAULT_TABLE_SIZE)
  }

  /** On a new connection the encoder must have started with the advertised size as well. */
  lemma AlwaysEqualFromStartIff(advertised: nat, max: nat, blocks: seq<seq<Rep>>, events: seq<Happening>)
    requires InitialTable(advertised).max <= MAX_TABLE_SIZE
    requires Carries(InitialConn(InitialTable(advertised)), events, Encoder(Table([], max), blocks, None))
    ensures var c, enc := InitialConn(InitialTable(advertised)), Encoder(Table([], max), blocks, None);
            AlwaysEqual(c, events, enc) <==> max == InitialTable(advertised).max && NothingLost(c, events, enc)
  {
    if max == InitialTable(advertised).max {
      AlwaysEqualIff(InitialConn(InitialTable(advertised)), events, Encoder(Table([], max), blocks, None));
    }
  }

  // ---------------------------------------------------------------- a condition on single blocks

  /** A split block is collected by its stream, and a block on a registered stream has at most 64 headers. */
  ghost predicate InGoodOrder(c: Conn, f: Frame, enc: Encoder)
    requires MaySend(f, enc)
  {
    EndsBlock(f) ==>
      && (f.kind == CONTINUATION ==> Collecting(c, f.streamId))
      && (f.streamId in c.streams ==> |HeadersOf(enc.blocks[0], enc.table)| <= RESPONSE_HEADERS_MAX_SIZE)
  }

  ghost predicate AllInGoodOrder(c: Conn, events: seq<Happening>, enc: Encoder)
    requires Carries(c, events, enc)
    decreases |events|
  {
    events != [] ==>
      && (events[0].HandleFrame? && NextFrame(c).Some? ==> InGoodOrder(c, NextFrame(c).value, enc))
      && AllInGoodOrder(Happened(c, events[0]), events[1..], EncoderNext(c, events[0], enc))
  }

  /** Once its last frame is handled, a registered stream holds exactly the headers of its block. */
  ghost predicate Arrives(c: Conn, f: Frame, enc: Encoder)
    requires MaySend(f, enc)
  {
    EndsBlock(f) && f.streamId in c.streams && enc.blocks[0] != [] ==>
      && f.streamId in Dispatch(c, f).streams
      && Dispatch(c, f).streams[f.streamId].stream.headers == HeadersOf(enc.blocks[0], enc.table)
  }

  /** Every block arrives, and at every step the connection's table follows the encoder's. */
  ghost predicate AllArrive(c: Conn, events: seq<Happening>, enc: Encoder)
    requires Carries(c, events, enc)
    decreases |events|
  {
    && Follows(enc.table, c.table)
    && (events != [] ==>
          && (events[0].HandleFrame? && NextFrame(c).Some? ==> Arrives(c, NextFrame(c).value, enc))
          && AllArrive(Happened(c, events[0]), events[1..], EncoderNext(c, events[0], enc)))
  }

  lemma GoodOrderLosesNothing(c: Conn, f: Frame, enc: Encoder)
    requires MaySend(f, enc) && InGoodOrder(c, f, enc) && TableValid(enc.table)
    ensures LosesNothing(c, f, enc) && LosesNothingNeeded(c, f, enc)
  {
    hide BlockForm, ValidBlock, HeadersOf, RestChangesNothing, RestIsFollowed, Fragment, TableSize;
    if EndsBlock(f) {
      AllDecoded(enc.blocks[0], enc.table);
      ReachedAllIff(enc.blocks[0], RESPONSE_HEADERS_MAX_SIZE, enc.table);
      UnchangedIsFollowed(enc.blocks[0], |enc.blocks[0]|, enc.table);
    }
  }

  lemma UnchangedIsFollowed(reps: seq<Rep>, n: nat, t: Table)
    requires n <= |reps| && ValidBlock(reps, t) && TableValid(t) && RestChangesNothing(reps, n, t)
    ensures RestIsFollowed(reps, n, t)
  {
    hide TableSize, ValidBlock, TableAfterBlock;
    SplitBlock(reps, n, t);
    BlockKeepsBound(reps[..n], t);
  }

  lemma GoodOrderArrives(c: Conn, f: Frame, enc: Encoder)
    requires InStep(c, enc) && MaySend(f, enc) && InGoodOrder(c, f, enc)
    ensures Arrives(c, f, enc)
  {
    hide Dispatch, Fragment, BlockForm, ValidBlock, Follows, HeadersOf, HoldsOpen;
    if EndsBlock(f) && f.streamId in c.streams && enc.blocks[0] != [] {
      BlockReachesStream(c, f, enc);
    }
  }

  lemma HappenedStaysInStep(c: Conn, e: Happening, enc: Encoder)
    requires InStep(c, enc) && StepCarries(c, e, enc)
    requires e.HandleFrame? && NextFrame(c).Some? ==> LosesNothingNeeded(c, NextFrame(c).value, enc)
    ensures InStep(Happened(c, e), EncoderNext(c, e, enc))
  {
    hide Dispatch, ParseOne, Flushed, MaySend, FrameSent, LosesNothingNeeded, Follows, FailedSlot;
    if e.HandleFrame? && NextFrame(c).Some? {
      DispatchStaysInStep(c, NextFrame(c).value, enc);
    } else if e.Lost? {
      FailingKeepsBlocks(c.streams, c.connError);
    }
  }

  lemma StepInGoodOrder(c: Conn, e: Happening, enc: Encoder)
    requires InStep(c, enc) && StepCarries(c, e, enc)
    requires e.HandleFrame? && NextFrame(c).Some? ==> InGoodOrder(c, NextFrame(c).value, enc)
    ensures e.HandleFrame? && NextFrame(c).Some? ==> Arrives(c, NextFrame(c).value, enc)
    ensures InStep(Happened(c, e), EncoderNext(c, e, enc)) && StepLosesNothing(c, e, enc)
  {
    hide Happened, MaySend, FrameSent, InGoodOrder, LosesNothing, LosesNothingNeeded, NextFrame, TableSize, HoldsOpen;
    if e.HandleFrame? && NextFrame(c).Some? {
      GoodOrderLosesNothing(c, NextFrame(c).value, enc);
      GoodOrderArrives(c, NextFrame(c).value, enc);
    }
    HappenedStaysInStep(c, e, enc);
  }

  /**
   Whatever smaller table the encoder keeps: over every run in which split blocks are collected and blocks on registered
   streams have at most 64 headers, every block brings its stream exactly its headers, and the encoder's entries always
   stand at the front of the connection's table.
   */
  lemma {:induction false} HeadersAlwaysArrive(c: Conn, events: seq<Happening>, enc: Encoder)
    requires InStep(c, enc) && Carries(c, events, enc) && AllInGoodOrder(c, events, enc)
    ensures AllArrive(c, events, enc) && InStep(After(c, events), EncoderAfter(c, events, enc))
    ensures NothingLost(c, events, enc)
    decreases |events|
  {
    hide Happened, EncoderNext, InGoodOrder, Arrives, Follows, HoldsOpen, NextFrame, MaySend, LosesNothing;
    if events != [] {
      StepInGoodOrder(c, events[0], enc);
      HeadersAlwaysArrive(Happened(c, events[0]), events[1..], EncoderNext(c, events[0], enc));
    }
  }

  /** So on every new connection, for an encoder that starts with any table size the profile allows. */
  lemma HeadersArriveFromStart(advertised: nat, max: nat, blocks: seq<seq<Rep>>, events: seq<Happening>)
    requires max <= InitialTable(advertised).max <= MAX_TABLE_SIZE
    requires Carries(InitialConn(InitialTable(advertised)), events, Encoder(Table([], max), blocks, None))
    requires AllInGoodOrder(InitialConn(InitialTable(advertised)), events, Encoder(Table([], max), blocks, None))
    ensures AllArrive(InitialConn(InitialTable(advertised)), events, Encoder(Table([], max), blocks, None))
  {
    hide Carries, AllInGoodOrder, AllArrive;
    HeadersAlwaysArrive(InitialConn(InitialTable(advertised)), events, Encoder(Table([], max), blocks, None));
  }

  /** And from equal tables, the tables stay equal. */
  lemma TablesNeverDiffer(c: Conn, events: seq<Happening>, enc: Encoder)
    requires InSync(c, enc) && Carries(c, events, enc) && AllInGoodOrder(c, events, enc)
    ensures AlwaysEqual(c, events, enc) && InSync(After(c, events), EncoderAfter(c, events, enc))
  {
    hide Carries, AllInGoodOrder, AllArrive, AlwaysEqual, NothingLost, HoldsOpen;
    HeadersAlwaysArrive(c, events, enc);
    AlwaysEqualIff(c, events, enc);
  }
}
