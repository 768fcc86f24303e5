/** Runs from the start of a connection after which its table is no longer the encoder's. */
module SyncLoss {
  import opened Octets
  import opened HpackPrimitives
  import opened DynamicTable
  import opened HeaderBlock
  import opened HpackSync
  import opened Frames
  import opened HeaderFraming
  import opened FlowControl
  import opened ResponseSink
  import opened Connection
  import opened ConnectionSync

  /** A header "a: b" to be inserted. */
  function Insertion(): (r: Rep) {
    Indexing(InPlace(Raw([97])), Raw([98]))
  }

  /** A block of n headers of the static table, and the insertion behind them. */
  function Fields(n: nat): (reps: seq<Rep>) {
    seq(n, _ => Indexed(2)) + [Insertion()]
  }

  function NewTable(): (t: Table) {
    Table([], 4096)
  }

  function WithEntry(): (t: Table) {
    Table([Entry([97], [98])], 4096)
  }

  ghost function NewEncoder(reps: seq<Rep>): (enc: Encoder) {
    Encoder(NewTable(), [reps], None)
  }

  // ---------------------------------------------------------------- the blocks

  lemma InsertionIs()
    ensures ValidRep(Insertion(), []) && HeaderOf(Insertion(), []) == [Entry([97], [98])]
    ensures TableAfter(Insertion(), NewTable()) == WithEntry()
    ensures RepForm(Insertion()) == [0x40, 1, 97, 1, 98]
  {
    hide Pow2;
    Pow2Values();
    assert Inserted([], Entry([97], [98]), 4096) == [Entry([97], [98])] by {
      assert TableSize([]) == 0 && Evicted([], 4062) == [];
    }
    assert IntegerForm(0, 6, 64) == [0x40] && IntegerForm(1, 7, 0) == [1];
    assert StringForm(Raw([97])) == [1, 97] && StringForm(Raw([98])) == [1, 98];
  }

  lemma IndexedIs()
    ensures ValidRep(Indexed(2), []) && |HeaderOf(Indexed(2), [])| == 1
    ensures TableAfter(Indexed(2), NewTable()) == NewTable() && RepForm(Indexed(2)) == [130]
  {
    hide Pow2, EntryAt;
    Pow2Values();
  }

  lemma {:induction false} FieldsAre(n: nat)
    ensures ValidBlock(Fields(n), NewTable()) && TableAfterBlock(Fields(n), NewTable()) == WithEntry()
    ensures |HeadersOf(Fields(n), NewTable())| == n + 1 && |BlockForm(Fields(n))| == n + 5
    decreases n
  {
    hide ValidRep, TableAfter, HeaderOf, RepForm;
    InsertionIs();
    IndexedIs();
    if n == 0 {
      assert Fields(0) == [Insertion()] && Fields(0)[1..] == [];
    } else {
      assert Fields(n)[0] == Indexed(2) && Fields(n)[1..] == Fields(n - 1);
      FieldsAre(n - 1);
    }
  }

  /** Fields of the static table change no table. */
  lemma {:induction false} StaticFieldsChangeNothing(reps: seq<Rep>)
    requires forall i :: 0 <= i < |reps| ==> reps[i] == Indexed(2)
    ensures ValidBlock(reps, NewTable()) && TableAfterBlock(reps, NewTable()) == NewTable()
    decreases |reps|
  {
    hide ValidRep, TableAfter;
    IndexedIs();
    if reps != [] {
      StaticFieldsChangeNothing(reps[1..]);
    }
  }

  lemma {:induction false} ReachedFields(n: nat, room: nat)
    ensures Reached(Fields(n), room) == if n <= room then n + 1 else room + 1
    decreases n
  {
    if n == 0 {
      assert Fields(0)[1..] == [];
    } else {
      assert Fields(n)[0] == Indexed(2) && Fields(n)[1..] == Fields(n - 1);
      if room > 0 {
        ReachedFields(n - 1, room - 1);
      }
    }
  }

  /** The insertion is decoded if and only if at most 64 headers stand before it. */
  lemma InsertionReachedIff(n: nat)
    ensures ValidBlock(Fields(n), NewTable())
    ensures RestChangesNothing(Fields(n), Reached(Fields(n), RESPONSE_HEADERS_MAX_SIZE), NewTable())
       <==> n <= RESPONSE_HEADERS_MAX_SIZE
  {
    FieldsAre(n);
    ReachedFields(n, RESPONSE_HEADERS_MAX_SIZE);
    var reps, k := Fields(n), Reached(Fields(n), RESPONSE_HEADERS_MAX_SIZE);
    SplitBlock(reps, k, NewTable());
    if n <= RESPONSE_HEADERS_MAX_SIZE {
      AllDecoded(reps, NewTable());
    } else {
      StaticFieldsChangeNothing(reps[..k]);
      assert TableAfterBlock(reps[k..], NewTable()) == WithEntry();
    }
  }

  // ---------------------------------------------------------------- runs, step by step

  lemma FirstStep(c: Conn, e: Happening, rest: seq<Happening>, enc: Encoder)
    requires StepCarries(c, e, enc) && Carries(Happened(c, e), rest, EncoderNext(c, e, enc))
    ensures Carries(c, [e] + rest, enc) && After(c, [e] + rest) == After(Happened(c, e), rest)
    ensures EncoderAfter(c, [e] + rest, enc) == EncoderAfter(Happened(c, e), rest, EncoderNext(c, e, enc))
    ensures AllInGoodOrder(c, [e] + rest, enc)
       <==> && (e.HandleFrame? && NextFrame(c).Some? ==> InGoodOrder(c, NextFrame(c).value, enc))
            && AllInGoodOrder(Happened(c, e), rest, EncoderNext(c, e, enc))
  {
    hide Happened, EncoderNext, InGoodOrder, NextFrame, MaySend;
    assert ([e] + rest)[1..] == rest;
  }

  /** The reader handles the frame at the front of its buffer. */
  lemma FrontFrame(c: Conn, f: Frame, rest: seq<byte>)
    requires ValidFrame(f) && c.busy && c.kept == FrameForm(f) + rest
    ensures NextFrame(c) == Some(f) && Happened(c, HandleFrame) == Dispatch(c, f).(kept := rest)
  {
    hide FrameForm, ParseOne, Dispatch;
    FormRoundTrip(f, rest);
  }

  /** A new connection on which stream 1 has been registered. */
  ghost function Registered(table: Table): (c: Conn) {
    InitialConn(table).(streams := map[1 := OpenSlot(1, None)], nextId := 3)
  }

  lemma RegisteredIs(table: Table)
    ensures Happened(Happened(InitialConn(table), Allot), EnterStream(1, None)) == Registered(table)
  {
    var c := Happened(InitialConn(table), Allot);
    assert c.allotted == {1} && {1} - {1} == {};
  }

  lemma MayHandle(c: Conn, f: Frame, rest: seq<byte>, enc: Encoder)
    requires ValidFrame(f) && c.busy && c.kept == FrameForm(f) + rest && MaySend(f, enc)
    ensures StepCarries(c, HandleFrame, enc) && EncoderNext(c, HandleFrame, enc) == FrameSent(f, enc)
    ensures Happened(c, HandleFrame) == Dispatch(c, f).(kept := rest)
  {
    hide FrameForm, ParseOne, Dispatch, MaySend, FrameSent, NextFrame;
    FrontFrame(c, f, rest);
  }

  // ---------------------------------------------------------------- a block in one frame

  /** A HEADERS frame with a whole block on stream 1. */
  ghost predicate IsBlockFrame(f: Frame, reps: seq<Rep>) {
    f.kind == HEADERS && f.flags == 4 && f.streamId == 1 && f.payload == BlockForm(reps) && |f.payload| <= READ_MAX - 9
  }

  /** A request enters stream 1, and its response headers arrive in one frame. */
  ghost function OneBlock(f: Frame): (events: seq<Happening>)
    requires ValidFrame(f)
  {
    [Allot, EnterStream(1, None), Arrive(FrameForm(f)), HandleFrame]
  }

  /** The connection when the frame has arrived. */
  ghost function Arrived(table: Table, f: Frame): (c: Conn)
    requires ValidFrame(f)
  {
    Registered(table).(kept := FrameForm(f), busy := true)
  }

  lemma OneBlockRuns(dec: Table, enc: Encoder, reps: seq<Rep>, f: Frame)
    requires enc == Encoder(enc.table, [reps], None) && ValidBlock(reps, enc.table) && IsBlockFrame(f, reps)
    ensures ValidFrame(f) && MaySend(f, enc) && Carries(InitialConn(dec), OneBlock(f), enc)
    ensures EncoderAfter(InitialConn(dec), OneBlock(f), enc).table == TableAfterBlock(reps, enc.table)
    ensures After(InitialConn(dec), OneBlock(f)).table == Dispatch(Arrived(dec, f), f).table
    ensures AllInGoodOrder(InitialConn(dec), OneBlock(f), enc)
       <==> |HeadersOf(reps, enc.table)| <= RESPONSE_HEADERS_MAX_SIZE
  {
    hide Dispatch, FrameForm, ParseOne, ValidBlock, TableAfterBlock, BlockForm, OpenSlot, HeadersOf;
    var c := InitialConn(dec);
    WholeFragment(f.payload);
    assert MaySend(f, enc);
    RegisteredIs(dec);
    var c2, c3 := Registered(dec), Arrived(dec, f);
    FormLength(f);
    assert Happened(c2, Arrive(FrameForm(f))) == c3 by { assert [] + FrameForm(f) == FrameForm(f); }
    assert FrameForm(f) == FrameForm(f) + [];
    FrontFrame(c3, f, []);
    MayHandle(c3, f, [], enc);
    var r3 := [HandleFrame];
    var r2 := [Arrive(FrameForm(f))] + r3;
    var r1 := [EnterStream(1, None)] + r2;
    assert InGoodOrder(c3, f, enc) <==> |HeadersOf(reps, enc.table)| <= RESPONSE_HEADERS_MAX_SIZE;
    hide InGoodOrder, Happened, MaySend, FrameSent;
    FirstStep(c3, HandleFrame, [], enc);
    FirstStep(c2, Arrive(FrameForm(f)), r3, enc);
    FirstStep(Happened(c, Allot), EnterStream(1, None), r2, enc);
    FirstStep(c, Allot, r1, enc);
    assert OneBlock(f) == [Allot] + r1;
    assert [HandleFrame] + [] == r3;
  }

  // ---------------------------------------------------------------- a block of many headers

  ghost function FieldsFrame(n: nat): (f: Frame)
    requires n < 16000
    ensures ValidFrame(f) && IsBlockFrame(f, Fields(n))
  {
    FieldsAre(n);
    Frame(HEADERS, 4, 1, BlockForm(Fields(n)))
  }

  ghost function ManyFields(n: nat): (events: seq<Happening>)
    requires n < 16000
  {
    OneBlock(FieldsFrame(n))
  }

  /** The header behind n others reaches the table if and only if n is at most 64. */
  lemma ManyFieldsIff(n: nat)
    requires n < 16000
    ensures var c, enc := InitialConn(NewTable()), NewEncoder(Fields(n));
            && Carries(c, ManyFields(n), enc)
            && EncoderAfter(c, ManyFields(n), enc).table == WithEntry()
            && (After(c, ManyFields(n)).table == WithEntry() <==> n <= 64)
  {
    hide Dispatch, FrameForm, ValidBlock, TableAfterBlock, BlockForm, Fields, OpenSlot, RestChangesNothing, After;
    hide Carries, EncoderAfter, OneBlock, HeadersOf;
    var enc, f := NewEncoder(Fields(n)), FieldsFrame(n);
    FieldsAre(n);
    OneBlockRuns(NewTable(), enc, Fields(n), f);
    SmallTable();
    DispatchFollowsIff(Arrived(NewTable(), f), f, enc);
    InsertionReachedIff(n);
  }

  lemma SmallTable()
    ensures TableValid(NewTable())
  {
  }

  lemma FormLength(f: Frame)
    requires ValidFrame(f)
    ensures |FrameForm(f)| == 9 + |f.payload|
  {
  }

  lemma WholeFragment(payload: seq<byte>)
    ensures Fragment(payload, 4) == Some(payload) && Fragment(payload, 0) == Some(payload)
    ensures EndHeaders(4) && !EndHeaders(0)
  {
    assert payload[..|payload|] == payload;
  }

  /** An instance: the last of 66 headers is not decoded, and the encoder's table has an entry the decoder's has not. */
  lemma SixtySixFields()
    ensures var c, enc := InitialConn(NewTable()), NewEncoder(Fields(65));
            && ValidBlock(Fields(65), NewTable()) && |HeadersOf(Fields(65), NewTable())| == 66
            && Carries(c, ManyFields(65), enc) && !AlwaysEqual(c, ManyFields(65), enc)
            && EncoderAfter(c, ManyFields(65), enc).table != After(c, ManyFields(65)).table
  {
    hide Carries, After, EncoderAfter, ManyFields, Fields, HeadersOf, TableValid;
    FieldsAre(65);
    ManyFieldsIff(65);
    SmallTable();
    var c, enc := InitialConn(NewTable()), NewEncoder(Fields(65));
    AlwaysEqualIff(c, ManyFields(65), enc);
  }

  // ---------------------------------------------------------------- a split block that nobody collects

  function FirstHalf(): (f: Frame) {
    Frame(HEADERS, 0, 1, [0x40, 1, 97])
  }

  function SecondHalf(): (f: Frame) {
    Frame(CONTINUATION, 4, 1, [1, 98])
  }

  ghost function BothHalves(): (s: seq<byte>) {
    FrameForm(FirstHalf()) + FrameForm(SecondHalf())
  }

  /** The insertion arrives in two frames on a stream the client does not know. */
  ghost function SplitOnUnknown(): (events: seq<Happening>) {
    [Arrive(BothHalves()), HandleFrame, HandleFrame]
  }

  /** It arrives on a stream that is removed between the two frames. */
  ghost function RemovedBetween(): (events: seq<Happening>) {
    [Allot, EnterStream(1, None), Arrive(BothHalves()), HandleFrame, Unregister(1), HandleFrame]
  }

  /** The encoder between the two frames. */
  ghost function HalfSent(): (enc: Encoder) {
    NewEncoder([Insertion()]).(open := Some(Opened(1, [0x40, 1, 97])))
  }

  lemma HalvesMayBeSent()
    ensures MaySend(FirstHalf(), NewEncoder([Insertion()]))
    ensures FrameSent(FirstHalf(), NewEncoder([Insertion()])) == HalfSent()
    ensures MaySend(SecondHalf(), HalfSent()) && FrameSent(SecondHalf(), HalfSent()).table == WithEntry()
  {
    hide TableAfter, ValidRep, RepForm, Fragment;
    WholeFragment([0x40, 1, 97]);
    InsertionIs();
    assert [Insertion()][1..] == [];
    assert BlockForm([Insertion()]) == RepForm(Insertion()) + [];
    assert [0x40, 1, 97] + [1, 98] == [0x40, 1, 97, 1, 98];
  }

  /** Both halves are read, and neither changes the table when the stream is unknown. */
  lemma UnknownLeavesTable(c: Conn)
    requires 1 !in c.streams
    ensures Dispatch(c, FirstHalf()) == c && Dispatch(c, SecondHalf()) == c
  {
    hide Fragment;
    WholeFragment([0x40, 1, 97]);
  }

  lemma OpeningLeavesTable(c: Conn)
    requires c == Registered(NewTable()).(kept := c.kept, busy := true)
    ensures var d := Dispatch(c, FirstHalf());
            d.table == c.table && d.busy && d.kept == c.kept && d.streams - {1} == map[]
  {
    hide Fragment, Stepped, EndReading;
    WholeFragment([0x40, 1, 97]);
  }

  lemma HalvesArrive(c: Conn)
    requires !c.busy && c.kept == []
    ensures Happened(c, Arrive(BothHalves())) == c.(kept := BothHalves(), busy := true)
  {
    hide FrameForm;
    FormLength(FirstHalf());
    FormLength(SecondHalf());
    assert [] + BothHalves() == BothHalves();
  }

  /** An instance: a block split over two frames on an unknown stream never reaches the table. */
  lemma SplitBlockLostOnUnknownStream()
    ensures var c, enc := InitialConn(NewTable()), NewEncoder([Insertion()]);
            && Carries(c, SplitOnUnknown(), enc) && After(c, SplitOnUnknown()).table == NewTable()
            && EncoderAfter(c, SplitOnUnknown(), enc).table == WithEntry()
  {
    hide Dispatch, FrameForm, ParseOne, MaySend, FrameSent, Happened, StepCarries, EncoderNext;
    var c, enc := InitialConn(NewTable()), NewEncoder([Insertion()]);
    HalvesMayBeSent();
    HalvesArrive(c);
    var c1 := c.(kept := BothHalves(), busy := true);
    UnknownLeavesTable(c1);
    MayHandle(c1, FirstHalf(), FrameForm(SecondHalf()), enc);
    var c2 := c1.(kept := FrameForm(SecondHalf()));
    assert FrameForm(SecondHalf()) == FrameForm(SecondHalf()) + [];
    UnknownLeavesTable(c2);
    MayHandle(c2, SecondHalf(), [], HalfSent());
    FirstStep(c2, HandleFrame, [], HalfSent());
    FirstStep(c1, HandleFrame, [HandleFrame], enc);
    NotAFrame(c, Arrive(BothHalves()), enc);
    FirstStep(c, Arrive(BothHalves()), [HandleFrame, HandleFrame], enc);
    assert SplitOnUnknown() == [Arrive(BothHalves())] + [HandleFrame, HandleFrame];
  }

  lemma NotAFrame(c: Conn, e: Happening, enc: Encoder)
    requires !e.HandleFrame?
    ensures StepCarries(c, e, enc) && EncoderNext(c, e, enc) == enc
  {
  }

  /** An instance: nor does one whose stream is removed between its frames. */
  lemma SplitBlockLostOnRemovedStream()
    ensures var c, enc := InitialConn(NewTable()), NewEncoder([Insertion()]);
            && Carries(c, RemovedBetween(), enc) && After(c, RemovedBetween()).table == NewTable()
            && EncoderAfter(c, RemovedBetween(), enc).table == WithEntry()
  {
    hide Dispatch, FrameForm, ParseOne, MaySend, FrameSent, StepCarries, EncoderNext, OpenSlot;
    var c, enc := InitialConn(NewTable()), NewEncoder([Insertion()]);
    HalvesMayBeSent();
    RegisteredIs(NewTable());
    var c1 := Happened(c, Allot);
    var c2 := Registered(NewTable());
    HalvesArrive(c2);
    var c3 := c2.(kept := BothHalves(), busy := true);
    OpeningLeavesTable(c3);
    MayHandle(c3, FirstHalf(), FrameForm(SecondHalf()), enc);
    var c4 := Happened(c3, HandleFrame);
    var c5 := Happened(c4, Unregister(1));
    assert FrameForm(SecondHalf()) == FrameForm(SecondHalf()) + [];
    UnknownLeavesTable(c5);
    MayHandle(c5, SecondHalf(), [], HalfSent());
    hide Happened;
    NotAFrame(c, Allot, enc);
    NotAFrame(c1, EnterStream(1, None), enc);
    NotAFrame(c2, Arrive(BothHalves()), enc);
    NotAFrame(c4, Unregister(1), HalfSent());
    var r5 := [HandleFrame];
    var r4 := [Unregister(1)] + r5;
    var r3 := [HandleFrame] + r4;
    var r2 := [Arrive(BothHalves())] + r3;
    var r1 := [EnterStream(1, None)] + r2;
    FirstStep(c5, HandleFrame, [], HalfSent());
    FirstStep(c4, Unregister(1), r5, HalfSent());
    FirstStep(c3, HandleFrame, r4, enc);
    FirstStep(c2, Arrive(BothHalves()), r3, enc);
    FirstStep(c1, EnterStream(1, None), r2, enc);
    FirstStep(c, Allot, r1, enc);
    assert RemovedBetween() == [Allot] + r1;
  }

  // ---------------------------------------------------------------- an encoder below the advertised size

  /** A header that fills more than half of a table of the default size. */
  function Big(c: byte): (r: Rep) {
    Indexing(InPlace(Raw([c])), Raw(seq(2100, _ => 98)))
  }

  function BigEntry(c: byte): (e: Entry) {
    Entry([c], seq(2100, _ => 98))
  }

  /** It empties a table of the default size but for itself, and a larger one keeps what it had. */
  lemma BigIs(c: byte, t: Table)
    requires c != 0 && |t.entries| <= 1 && (forall e :: e in t.entries ==> EntrySize(e) == 2133)
    requires t.max == 4096 || t.max == 65536
    ensures ValidRep(Big(c), t.entries) && HeaderOf(Big(c), t.entries) == [BigEntry(c)]
    ensures EntrySize(BigEntry(c)) == 2133
    ensures TableAfter(Big(c), t)
         == Table([BigEntry(c)] + (if t.max == 4096 then [] else t.entries), t.max)
    ensures |RepForm(Big(c))| <= 2200
  {
    hide Pow2, Continuation;
    Pow2Values();
    BigSize(t.entries);
    BigForm(c);
  }

  lemma BigSize(entries: seq<Entry>)
    requires |entries| <= 1 && (forall e :: e in entries ==> EntrySize(e) == 2133)
    ensures Evicted(entries, 4096 - 2133) == [] && Evicted(entries, 65536 - 2133) == entries
  {
    assert TableSize([]) == 0;
    if entries != [] {
      assert entries[0] in entries && entries == [entries[0]] && entries[..0] == [];
      assert TableSize(entries) == 2133;
    }
  }

  lemma BigForm(c: byte)
    ensures |RepForm(Big(c))| <= 2200
  {
    Pow2Values();
    assert |Continuation(2100 - 127)| <= 2 by { assert 1973 / 128 == 15; }
  }

  /** Two of them. */
  function TwoBig(): (reps: seq<Rep>) {
    [Big(97), Big(99)]
  }

  lemma TwoBigAre(max: nat)
    requires max == 4096 || max == 65536
    ensures ValidBlock(TwoBig(), Table([], max)) && |HeadersOf(TwoBig(), Table([], max))| == 2
    ensures TableAfterBlock(TwoBig(), Table([], max))
         == Table(if max == 4096 then [BigEntry(99)] else [BigEntry(99), BigEntry(97)], max)
    ensures |BlockForm(TwoBig())| <= READ_MAX - 9
  {
    hide ValidRep, TableAfter, HeaderOf, RepForm, Big, BigEntry;
    var reps, t := TwoBig(), Table([], max);
    BigIs(97, t);
    var u := TableAfter(Big(97), t);
    assert [BigEntry(97)] + [] == [BigEntry(97)];
    BigIs(99, u);
    assert reps[1..] == [Big(99)] && reps[1..][1..] == [];
    assert u.entries == [BigEntry(97)];
    assert [BigEntry(99)] + [BigEntry(97)] == [BigEntry(99), BigEntry(97)];
  }

  /**
   An instance: a profile that advertises 65536 octets, an encoder that keeps to the default size. Everything is decoded
   and every header arrives, and yet the tables differ: the encoder has one entry and the connection two.
   */
  lemma SmallerEncoder()
    ensures var c, enc := InitialConn(InitialTable(65536)), Encoder(InitialTable(0), [TwoBig()], None);
            exists f: Frame :: ValidFrame(f)
              && Carries(c, OneBlock(f), enc) && AllInGoodOrder(c, OneBlock(f), enc)
              && AllArrive(c, OneBlock(f), enc) && NothingLost(c, OneBlock(f), enc)
              && EncoderAfter(c, OneBlock(f), enc).table == Table([BigEntry(99)], 4096)
              && After(c, OneBlock(f)).table == Table([BigEntry(99), BigEntry(97)], 65536)
  {
    hide ValidBlock, TableAfterBlock, BlockForm, HeadersOf, TwoBig, BigEntry, Carries, After, EncoderAfter, OneBlock;
    hide AllInGoodOrder, AllArrive, NothingLost, Dispatch, OpenSlot, FrameForm;
    TwoBigAre(4096);
    TwoBigAre(65536);
    var dec, enc := InitialTable(65536), Encoder(InitialTable(0), [TwoBig()], None);
    var f := Frame(HEADERS, 4, 1, BlockForm(TwoBig()));
    OneBlockRuns(dec, enc, TwoBig(), f);
    OneBlockRuns(dec, Encoder(dec, [TwoBig()], None), TwoBig(), f);
    EmptyFollows();
    HeadersAlwaysArrive(InitialConn(dec), OneBlock(f), enc);
    TablesNeverDiffer(InitialConn(dec), OneBlock(f), Encoder(dec, [TwoBig()], None));
    EndsEqual(InitialConn(dec), OneBlock(f), Encoder(dec, [TwoBig()], None));
  }

  lemma EmptyFollows()
    ensures Follows(InitialTable(0), InitialTable(65536)) && TableValid(InitialTable(65536))
  {
  }

  lemma EndsEqual(c: Conn, events: seq<Happening>, enc: Encoder)
    requires Carries(c, events, enc) && InSync(After(c, events), EncoderAfter(c, events, enc))
    ensures After(c, events).table == EncoderAfter(c, events, enc).table
  {
  }
}
