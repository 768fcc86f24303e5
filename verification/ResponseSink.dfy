/**
 The response sink both transports feed: it decodes the body, hands it to the caller's callbacks or collects it,
 lets the consumer stop the response, and ends the callback sequence once.
 */
module ResponseSink {
  import opened Octets
  import opened HpackPrimitives
  import opened DynamicTable

  datatype Error =
    | NoError
    | AbortedByConsumer
    | InflateFailed
    | InflateUnknownError
    | DecodingHeadersFrameFailed
    | RstStreamError
    | Http11Required
    | GoAway
    | SettingsTimeout
    | ReadingConnectionError
    | ReadingHttp11Failed
    | NoContentAfterTimeout
    | PartialContentAfterTimeout
    | SendingHttp11RequestFailed

  /** One call of the caller's contract. */
  datatype Event = OnHeaders(headers: seq<Entry>) | OnData(data: seq<byte>) | OnComplete(error: Error)

  /** What feeding a decoder produces: pieces in order, then success or a decode error. */
  datatype Decoded = Decoded(pieces: seq<seq<byte>>, ok: bool)

  /** Which decoder the headers ask for, and whether it could be built. */
  datatype Choice = Identity | Decoder | DecoderUnavailable

  /**
   The caller and the decoders, as they answer: `stops` is the verdict of onData after the calls so far, `choose`
   stands for the content encoding and the requested decompression, `decode` for the decoder and what it was fed.
   */
  datatype Contract = Contract(
    collecting: bool,
    stops: (seq<Event>, seq<byte>) -> bool,
    choose: seq<Entry> -> Choice,
    decode: (seq<byte>, seq<byte>) -> Decoded
  )

  datatype SinkState = SinkState(
    contract: Contract,
    headersDelivered: bool,
    completed: bool,
    aborted: bool,
    cancelled: bool,
    cancellationTaken: bool,
    error: Error,
    decoding: bool,
    fed: seq<byte>,
    trace: seq<Event>
  )

  datatype StreamState = StreamState(
    id: nat,
    isEnded: bool,
    error: Error,
    headers: seq<Entry>,
    payload: seq<byte>,
    sink: Option<SinkState>
  )

  function NewSink(contract: Contract): (k: SinkState) {
    SinkState(contract, false, false, false, false, false, NoError, false, [], [])
  }

  // ---------------------------------------------------------------- the sink as a value

  function Failed(s: StreamState, error: Error): (s': StreamState)
    requires s.sink.Some?
  {
    s.(error := error, sink := Some(s.sink.value.(error := error, cancelled := true)))
  }

  /** Logs a callback; a collecting sink has none. */
  function Called(k: SinkState, e: Event): (k': SinkState) {
    if k.contract.collecting then k else k.(trace := k.trace + [e])
  }

  /** The sink after its headers call: the decoder they ask for is ready, or the response is given up. */
  function HeadersSink(k: SinkState, headers: seq<Entry>): (k': SinkState) {
    var choice := k.contract.choose(headers);
    Called(k.(headersDelivered := true), OnHeaders(headers)).(
      decoding := k.decoding || choice == Decoder,
      error := if choice == DecoderUnavailable then InflateUnknownError else k.error,
      cancelled := k.cancelled || choice == DecoderUnavailable)
  }

  /** deliverResponseHeaders */
  function HeadersDelivered(s: StreamState): (s': StreamState) {
    if s.sink == None || s.sink.value.headersDelivered then s
    else
      var k := s.sink.value;
      s.(sink := Some(HeadersSink(k, s.headers)),
         error := if k.contract.choose(s.headers) == DecoderUnavailable then InflateUnknownError else s.error)
  }

  /** consumeResponseBody on one piece */
  function Consumed(s: StreamState, piece: seq<byte>): (s': StreamState)
    requires s.sink.Some?
    ensures s'.sink.Some?
  {
    var k := s.sink.value;
    if k.contract.collecting then s.(payload := s.payload + piece)
    else
      var s1 := s.(sink := Some(Called(k, OnData(piece))));
      if !k.contract.stops(k.trace, piece) then s1
      else
        var s2 := Failed(s1, AbortedByConsumer);
        s2.(sink := Some(s2.sink.value.(aborted := true)))
  }

  function Stops(s: StreamState, piece: seq<byte>): (stops: bool)
    requires s.sink.Some?
  {
    !s.sink.value.contract.collecting && s.sink.value.contract.stops(s.sink.value.trace, piece)
  }

  /** Pieces are consumed in order until the consumer stops. */
  function ConsumedAll(s: StreamState, pieces: seq<seq<byte>>): (s': StreamState)
    requires s.sink.Some?
    ensures s'.sink.Some?
    decreases |pieces|
  {
    if pieces == [] then s
    else if Stops(s, pieces[0]) then Consumed(s, pieces[0])
    else ConsumedAll(Consumed(s, pieces[0]), pieces[1..])
  }

  function StopsWithin(s: StreamState, pieces: seq<seq<byte>>): (stops: bool)
    requires s.sink.Some?
    decreases |pieces|
  {
    pieces != [] && (Stops(s, pieces[0]) || StopsWithin(Consumed(s, pieces[0]), pieces[1..]))
  }

  function Produced(k: SinkState, data: seq<byte>): (d: Decoded) {
    if k.decoding then k.contract.decode(k.fed, data) else Decoded([data], true)
  }

  function Fed(k: SinkState, data: seq<byte>): (k': SinkState) {
    if k.decoding then k.(fed := k.fed + data) else k
  }

  /** appendStreamPayload; the flag says whether more body is wanted. */
  function Appended(s: StreamState, data: seq<byte>): (r: (StreamState, bool)) {
    if data == [] then (s, true)
    else if s.sink == None then (s.(payload := s.payload + data), true)
    else if s.sink.value.aborted then (s, false)
    else
      var produced := Produced(s.sink.value, data);
      var s0 := s.(sink := Some(Fed(s.sink.value, data)));
      var s1 := ConsumedAll(s0, produced.pieces);
      if StopsWithin(s0, produced.pieces) then (s1, false)
      else if produced.ok then (s1, !s1.sink.value.aborted)
      else if s1.sink.value.error == NoError then (Failed(s1, InflateFailed), false)
      else (s1, false)
  }

  /** completeResponseSink */
  function Completed(s: StreamState): (s': StreamState) {
    if s.sink == None || s.sink.value.completed then s
    else
      var k := s.sink.value;
      var error := if k.error != NoError then k.error else s.error;
      s.(sink := Some(Called(k.(completed := true, decoding := false), OnComplete(error))))
  }

  /** takeResponseCancellation: the flag is set the first time only. */
  function CancellationTaken(s: StreamState): (r: (StreamState, bool)) {
    if s.sink == None || !s.sink.value.cancelled || s.sink.value.cancellationTaken then (s, false)
    else (s.(sink := Some(s.sink.value.(cancellationTaken := true))), true)
  }

  // ---------------------------------------------------------------- traces

  function CountHeaders(trace: seq<Event>): (n: nat) {
    if trace == [] then 0 else CountHeaders(trace[..|trace| - 1]) + (if trace[|trace| - 1].OnHeaders? then 1 else 0)
  }

  function CountComplete(trace: seq<Event>): (n: nat) {
    if trace == [] then 0 else CountComplete(trace[..|trace| - 1]) + (if trace[|trace| - 1].OnComplete? then 1 else 0)
  }

  /** The consumer's verdict on the i-th call was to stop. */
  predicate StoppedAt(k: SinkState, i: nat)
    requires i < |k.trace|
  {
    k.trace[i].OnData? && k.contract.stops(k.trace[..i], k.trace[i].data)
  }

  /** What every attempt's calls look like, whatever the peer sends and the consumer answers. */
  ghost predicate TraceInv(k: SinkState) {
    && (k.contract.collecting ==> k.trace == [] && !k.aborted)
    && (!k.contract.collecting ==>
          && CountHeaders(k.trace) == (if k.headersDelivered then 1 else 0)
          && CountComplete(k.trace) == (if k.completed then 1 else 0))
    && (forall i, j :: 0 <= i < j < |k.trace| && StoppedAt(k, i) ==> !k.trace[j].OnData?)
    && (k.aborted <==> exists i :: 0 <= i < |k.trace| && StoppedAt(k, i))
    && (k.aborted || k.cancellationTaken ==> k.cancelled)
  }

  ghost predicate SinkInv(s: StreamState) {
    s.sink.Some? ==> TraceInv(s.sink.value)
  }

  lemma NewSinkInv(contract: Contract)
    ensures TraceInv(NewSink(contract))
  {
  }

  lemma CallCounts(trace: seq<Event>, e: Event)
    ensures CountHeaders(trace + [e]) == CountHeaders(trace) + (if e.OnHeaders? then 1 else 0)
    ensures CountComplete(trace + [e]) == CountComplete(trace) + (if e.OnComplete? then 1 else 0)
  {
    assert (trace + [e])[..|trace|] == trace;
  }

  /** Verdicts on earlier calls do not depend on later ones. */
  lemma CallKeepsVerdicts(k: SinkState, e: Event)
    requires !k.contract.collecting
    ensures var k' := Called(k, e);
            && (forall i :: 0 <= i < |k.trace| ==> (StoppedAt(k', i) <==> StoppedAt(k, i)))
            && (StoppedAt(k', |k.trace|) <==> e.OnData? && k.contract.stops(k.trace, e.data))
  {
    var k' := Called(k, e);
    forall i | 0 <= i < |k.trace|
      ensures StoppedAt(k', i) <==> StoppedAt(k, i)
    {
      assert k'.trace[..i] == k.trace[..i];
    }
    assert k'.trace[..|k.trace|] == k.trace;
  }

  /** Verdicts are a matter of the trace and the consumer alone. */
  lemma VerdictsOfTrace(k: SinkState, l: SinkState)
    requires k.trace == l.trace && k.contract == l.contract
    ensures forall i :: 0 <= i < |k.trace| ==> (StoppedAt(k, i) <==> StoppedAt(l, i))
  {
  }

  /** A call that is not onData, made together with raising its flag. */
  lemma NoticeKeepsInv(k: SinkState, e: Event, flagged: SinkState)
    requires TraceInv(k) && !k.contract.collecting
    requires (e.OnHeaders? && !k.headersDelivered && flagged == k.(headersDelivered := true))
          || (e.OnComplete? && !k.completed && flagged == k.(completed := true, decoding := false))
    ensures TraceInv(Called(flagged, e))
  {
    hide StoppedAt;
    CallKeepsVerdicts(k, e);
    CallCounts(k.trace, e);
    VerdictsOfTrace(Called(flagged, e), Called(k, e));
  }

  lemma FlagsKeepTraceInv(k: SinkState, l: SinkState)
    requires TraceInv(k)
    requires l == k.(decoding := l.decoding, fed := l.fed, error := l.error, cancelled := l.cancelled,
                     cancellationTaken := l.cancellationTaken)
    requires (k.cancelled ==> l.cancelled) && (l.cancellationTaken ==> l.cancelled)
    ensures TraceInv(l)
  {
    hide StoppedAt;
    VerdictsOfTrace(k, l);
  }

  lemma HeadersDeliveredKeepsInv(s: StreamState)
    requires SinkInv(s)
    ensures SinkInv(HeadersDelivered(s))
  {
    hide TraceInv;
    if s.sink.Some? && !s.sink.value.headersDelivered {
      HeadersCallKeepsInv(s.sink.value, s.headers);
      CancelledOnce(s.sink.value);
      var k := Called(s.sink.value.(headersDelivered := true), OnHeaders(s.headers));
      FlagsKeepTraceInv(k, HeadersSink(s.sink.value, s.headers));
    }
  }

  lemma CancelledOnce(k: SinkState)
    requires TraceInv(k)
    ensures k.cancellationTaken ==> k.cancelled
  {
  }

  lemma HeadersCallKeepsInv(k: SinkState, headers: seq<Entry>)
    requires TraceInv(k) && !k.headersDelivered
    ensures TraceInv(Called(k.(headersDelivered := true), OnHeaders(headers)))
  {
    hide StoppedAt;
    if !k.contract.collecting {
      NoticeKeepsInv(k, OnHeaders(headers), k.(headersDelivered := true));
    }
  }

  lemma CompletedKeepsInv(s: StreamState)
    requires SinkInv(s)
    ensures SinkInv(Completed(s))
  {
    hide StoppedAt;
    if s.sink.Some? && !s.sink.value.completed && !s.sink.value.contract.collecting {
      var k := s.sink.value;
      var e := OnComplete(if k.error != NoError then k.error else s.error);
      NoticeKeepsInv(k, e, k.(completed := true, decoding := false));
    }
  }

  lemma ConsumedKeepsInv(s: StreamState, piece: seq<byte>)
    requires SinkInv(s) && s.sink.Some? && !s.sink.value.aborted
    ensures SinkInv(Consumed(s, piece))
    ensures Consumed(s, piece).sink.value.aborted <==> Stops(s, piece)
  {
    hide StoppedAt;
    var k := s.sink.value;
    if !k.contract.collecting {
      CallKeepsVerdicts(k, OnData(piece));
      CallCounts(k.trace, OnData(piece));
      VerdictsOfTrace(Consumed(s, piece).sink.value, Called(k, OnData(piece)));
    }
  }

  lemma {:induction false} ConsumedAllKeepsInv(s: StreamState, pieces: seq<seq<byte>>)
    requires SinkInv(s) && s.sink.Some? && !s.sink.value.aborted
    ensures SinkInv(ConsumedAll(s, pieces))
    ensures ConsumedAll(s, pieces).sink.value.aborted <==> StopsWithin(s, pieces)
    decreases |pieces|
  {
    hide SinkInv, Consumed;
    if pieces != [] {
      ConsumedKeepsInv(s, pieces[0]);
      if !Stops(s, pieces[0]) {
        ConsumedAllKeepsInv(Consumed(s, pieces[0]), pieces[1..]);
      }
    }
  }

  lemma FlagsKeepInv(s: StreamState, t: StreamState)
    requires SinkInv(s) && s.sink.Some? && t.sink.Some?
    requires var k, l := s.sink.value, t.sink.value;
             && l == k.(decoding := l.decoding, fed := l.fed, error := l.error, cancelled := l.cancelled,
                        cancellationTaken := l.cancellationTaken)
             && (k.cancelled ==> l.cancelled)
             && (l.cancellationTaken ==> l.cancelled)
    ensures SinkInv(t)
  {
    FlagsKeepTraceInv(s.sink.value, t.sink.value);
  }

  lemma AppendedKeepsInv(s: StreamState, data: seq<byte>)
    requires SinkInv(s)
    ensures SinkInv(Appended(s, data).0)
  {
    hide ConsumedAll, StopsWithin, StoppedAt;
    if data != [] && s.sink.Some? && !s.sink.value.aborted {
      var produced := Produced(s.sink.value, data);
      var s0 := s.(sink := Some(Fed(s.sink.value, data)));
      FlagsKeepInv(s, s0);
      ConsumedAllKeepsInv(s0, produced.pieces);
      var s1 := ConsumedAll(s0, produced.pieces);
      FlagsKeepInv(s1, Failed(s1, InflateFailed));
    }
  }

  lemma CancellationKeepsInv(s: StreamState)
    requires SinkInv(s)
    ensures SinkInv(CancellationTaken(s).0)
  {
    if s.sink.Some? {
      hide SinkInv;
      FlagsWhenTaken(s);
    }
  }

  lemma FlagsWhenTaken(s: StreamState)
    requires SinkInv(s) && s.sink.Some?
    ensures SinkInv(CancellationTaken(s).0)
  {
    hide StoppedAt;
    FlagsKeepInv(s, CancellationTaken(s).0);
  }

  // ---------------------------------------------------------------- the body

  function DataOf(trace: seq<Event>): (body: seq<byte>) {
    if trace == [] then []
    else
      var e := trace[|trace| - 1];
      DataOf(trace[..|trace| - 1]) + (if e.OnData? then e.data else [])
  }

  /** The body delivered so far: collected, or handed to the contract. */
  function Body(s: StreamState): (body: seq<byte>) {
    if s.sink.Some? && !s.sink.value.contract.collecting then DataOf(s.sink.value.trace) else s.payload
  }

  /** A consumer that never asks to stop. */
  ghost predicate NeverStops(contract: Contract) {
    forall trace, piece :: !contract.stops(trace, piece)
  }

  /** The body is passed on as it comes, to a consumer that takes all of it. */
  ghost predicate PassesThrough(s: StreamState) {
    s.sink.Some? ==>
      && !s.sink.value.decoding && !s.sink.value.aborted && NeverStops(s.sink.value.contract)
      && forall headers :: s.sink.value.contract.choose(headers) == Identity
  }

  lemma DataOfCall(trace: seq<Event>, e: Event)
    ensures DataOf(trace + [e]) == DataOf(trace) + (if e.OnData? then e.data else [])
  {
    assert (trace + [e])[..|trace|] == trace;
  }

  /** Passing a chunk on extends the body by exactly that chunk. */
  lemma AppendExtendsBody(s: StreamState, data: seq<byte>)
    requires PassesThrough(s)
    ensures var (s', keep) := Appended(s, data);
            keep && PassesThrough(s') && Body(s') == Body(s) + data && s'.error == s.error
  {
    hide DataOf;
    if s.sink.Some? {
      DataOfCall(s.sink.value.trace, OnData(data));
      assert !s.sink.value.contract.stops(s.sink.value.trace, data);
      assert s.(sink := Some(Fed(s.sink.value, data))) == s;
      assert [data][1..] == [];
      var s1 := Consumed(s, data);
      assert ConsumedAll(s1, []) == s1 && !StopsWithin(s1, []);
      assert ConsumedAll(s, [data]) == s1 && !StopsWithin(s, [data]);
    }
    assert Body(s) + [] == Body(s);
  }

  lemma HeadersKeepBody(s: StreamState)
    requires PassesThrough(s)
    ensures var s' := HeadersDelivered(s); PassesThrough(s') && Body(s') == Body(s) && s'.error == s.error
  {
    hide DataOf;
    if s.sink.Some? {
      DataOfCall(s.sink.value.trace, OnHeaders(s.headers));
      assert DataOf(s.sink.value.trace) + [] == DataOf(s.sink.value.trace);
    }
  }

  // ---------------------------------------------------------------- a decoded body

  function Joined(pieces: seq<seq<byte>>): (body: seq<byte>) {
    if pieces == [] then [] else pieces[0] + Joined(pieces[1..])
  }

  /** What the decoder makes of chunks, in order, until it fails. */
  function Decoding(contract: Contract, fed: seq<byte>, chunks: seq<seq<byte>>): (body: seq<byte>)
    decreases |chunks|
  {
    if chunks == [] then []
    else if chunks[0] == [] then Decoding(contract, fed, chunks[1..])
    else
      var d := contract.decode(fed, chunks[0]);
      Joined(d.pieces) + (if d.ok then Decoding(contract, fed + chunks[0], chunks[1..]) else [])
  }

  function Fails(contract: Contract, fed: seq<byte>, chunks: seq<seq<byte>>): (fails: bool)
    decreases |chunks|
  {
    chunks != []
    && if chunks[0] == [] then Fails(contract, fed, chunks[1..])
       else !contract.decode(fed, chunks[0]).ok || Fails(contract, fed + chunks[0], chunks[1..])
  }

  /** The chunks appended one after the other, while more is wanted. */
  function AppendedAll(s: StreamState, chunks: seq<seq<byte>>): (r: (StreamState, bool))
    decreases |chunks|
  {
    if chunks == [] then (s, true)
    else
      var (t, keep) := Appended(s, chunks[0]);
      if keep then AppendedAll(t, chunks[1..]) else (t, false)
  }

  /** A coded body is on its way to a consumer that takes all of it. */
  ghost predicate IsDecoding(s: StreamState) {
    s.sink.Some? && s.sink.value.decoding && !s.sink.value.aborted && s.sink.value.error == NoError
    && NeverStops(s.sink.value.contract)
  }

  /** From s to t only these octets were handed on. */
  ghost predicate HandedOn(s: StreamState, t: StreamState, data: seq<byte>) {
    && s.sink.Some? && t.sink.Some? && Body(t) == Body(s) + data
    && t.sink.value == s.sink.value.(trace := t.sink.value.trace)
    && t == s.(payload := t.payload, sink := t.sink)
  }

  lemma PieceIsHandedOn(s: StreamState, piece: seq<byte>)
    requires s.sink.Some? && NeverStops(s.sink.value.contract)
    ensures HandedOn(s, Consumed(s, piece), piece) && !Stops(s, piece)
  {
    hide DataOf;
    var k := s.sink.value;
    assert !k.contract.stops(k.trace, piece);
    DataOfCall(k.trace, OnData(piece));
  }

  lemma HandedOnThrough(s: StreamState, t: StreamState, u: StreamState, data: seq<byte>, more: seq<byte>)
    requires HandedOn(s, t, data) && HandedOn(t, u, more)
    ensures HandedOn(s, u, data + more)
  {
    hide Body;
    assert Body(s) + data + more == Body(s) + (data + more);
  }

  lemma {:induction false} PiecesExtendBody(s: StreamState, pieces: seq<seq<byte>>)
    requires s.sink.Some? && NeverStops(s.sink.value.contract)
    ensures HandedOn(s, ConsumedAll(s, pieces), Joined(pieces)) && !StopsWithin(s, pieces)
    decreases |pieces|
  {
    hide Body, Consumed, Stops, NeverStops;
    if pieces == [] {
      assert Body(s) + [] == Body(s);
    } else {
      var t := Consumed(s, pieces[0]);
      PieceIsHandedOn(s, pieces[0]);
      assert t.sink.value.contract == s.sink.value.contract;
      PiecesExtendBody(t, pieces[1..]);
      HandedOnThrough(s, t, ConsumedAll(t, pieces[1..]), pieces[0], Joined(pieces[1..]));
    }
  }

  /**
   However the coded body is cut into chunks: what is handed on is what the decoder makes of them, each fed once and in
   order, and it ends with an error exactly when the decoder fails.
   */
  lemma {:induction false} DecodedBody(s: StreamState, chunks: seq<seq<byte>>)
    requires IsDecoding(s)
    ensures var k := s.sink.value; var r := AppendedAll(s, chunks);
            && Body(r.0) == Body(s) + Decoding(k.contract, k.fed, chunks)
            && (r.1 <==> !Fails(k.contract, k.fed, chunks))
            && (!r.1 ==> r.0.error == InflateFailed && r.0.sink.Some? && r.0.sink.value.cancelled)
            && (r.1 ==> r.0.error == s.error && IsDecoding(r.0))
    decreases |chunks|
  {
    hide Body, ConsumedAll, StopsWithin, NeverStops;
    if chunks == [] {
      assert Body(s) + [] == Body(s);
    } else if chunks[0] == [] {
      DecodedBody(s, chunks[1..]);
    } else {
      var k := s.sink.value;
      var d := k.contract.decode(k.fed, chunks[0]);
      var s0 := s.(sink := Some(Fed(k, chunks[0])));
      SinkFieldsKeepBody(s, s0);
      PiecesExtendBody(s0, d.pieces);
      var s1 := ConsumedAll(s0, d.pieces);
      if d.ok {
        DecodedBody(s1, chunks[1..]);
        var rest := Decoding(k.contract, k.fed + chunks[0], chunks[1..]);
        assert Body(s) + Joined(d.pieces) + rest == Body(s) + (Joined(d.pieces) + rest);
      } else {
        SinkFieldsKeepBody(s1, Failed(s1, InflateFailed));
        assert Body(s) + (Joined(d.pieces) + []) == Body(s) + Joined(d.pieces);
      }
    }
  }

  lemma SinkFieldsKeepBody(s: StreamState, t: StreamState)
    requires s.sink.Some? && t.sink.Some? && t.payload == s.payload
    requires t.sink.value.trace == s.sink.value.trace && t.sink.value.contract == s.sink.value.contract
    ensures Body(t) == Body(s)
  {
  }

  /** Telling the headers of a coded response readies the decoder; without one the response is given up. */
  lemma HeadersChooseDecoder(s: StreamState)
    requires s.sink.Some? && !s.sink.value.headersDelivered
    ensures var k, t := s.sink.value, HeadersDelivered(s);
            && t.sink.Some?
            && (k.contract.choose(s.headers) == Decoder ==> t.sink.value.decoding && t.error == s.error)
            && (k.contract.choose(s.headers) == DecoderUnavailable ==>
                  t.sink.value.cancelled && t.error == InflateUnknownError)
            && (k.contract.choose(s.headers) == Identity ==> t.sink.value.decoding == k.decoding && t.error == s.error)
  {
  }

  /** A verdict to stop is the stream's error, and asks for the stream to be reset. */
  lemma StopIsTold(s: StreamState, piece: seq<byte>)
    requires s.sink.Some? && Stops(s, piece)
    ensures var t := Consumed(s, piece);
            t.error == AbortedByConsumer && t.sink.Some? && t.sink.value.aborted && t.sink.value.cancelled
            && t.sink.value.error == AbortedByConsumer && t.sink.value.trace == s.sink.value.trace + [OnData(piece)]
  {
  }

  // ---------------------------------------------------------------- the body until the consumer stops

  /** The body is passed on as it comes. */
  ghost predicate Undecoded(s: StreamState) {
    s.sink.Some? ==>
      !s.sink.value.decoding && forall headers :: s.sink.value.contract.choose(headers) == Identity
  }

  /** By TraceInv: the consumer's verdict on some call was to stop. */
  predicate Aborted(s: StreamState) {
    s.sink.Some? && s.sink.value.aborted
  }

  /** From s to t these octets were passed on, unless the consumer had stopped; and it may have stopped now. */
  ghost predicate PassedOn(s: StreamState, t: StreamState, data: seq<byte>) {
    && Undecoded(t) && Body(t) == Body(s) + (if Aborted(s) then [] else data)
    && t.sink.Some? == s.sink.Some? && (s.sink.Some? ==> t.sink.value.contract == s.sink.value.contract)
    && (Aborted(s) ==> Aborted(t))
    && (Aborted(t) && !Aborted(s) ==> data != [] && !NeverStops(s.sink.value.contract))
  }

  lemma AppendPassesOn(s: StreamState, data: seq<byte>)
    requires Undecoded(s)
    ensures PassedOn(s, Appended(s, data).0, data)
  {
    hide DataOf;
    assert Body(s) + [] == Body(s);
    if data != [] && s.sink.Some? && !s.sink.value.aborted {
      DataOfCall(s.sink.value.trace, OnData(data));
      assert s.(sink := Some(Fed(s.sink.value, data))) == s;
      assert [data][1..] == [];
      var s1 := Consumed(s, data);
      assert ConsumedAll(s1, []) == s1 && !StopsWithin(s1, []);
      assert ConsumedAll(s, [data]) == s1;
      assert StopsWithin(s, [data]) <==> Stops(s, data);
      ConsumedPassesOn(s, data);
    }
  }

  lemma ConsumedPassesOn(s: StreamState, data: seq<byte>)
    requires Undecoded(s) && s.sink.Some? && !s.sink.value.aborted
    ensures data != [] ==> PassedOn(s, Consumed(s, data), data)
  {
    hide DataOf;
    DataOfCall(s.sink.value.trace, OnData(data));
  }

  lemma HeadersPassNothing(s: StreamState)
    requires Undecoded(s)
    ensures PassedOn(s, HeadersDelivered(s), [])
  {
    hide DataOf, NeverStops;
    assert Body(s) + [] == Body(s);
    if s.sink.Some? {
      DataOfCall(s.sink.value.trace, OnHeaders(s.headers));
      assert DataOf(s.sink.value.trace) + [] == DataOf(s.sink.value.trace);
    }
  }

  lemma CompletionPassesNothing(s: StreamState)
    requires Undecoded(s)
    ensures PassedOn(s, Completed(s), [])
  {
    hide DataOf, NeverStops;
    assert Body(s) + [] == Body(s);
    if s.sink.Some? {
      var k := s.sink.value;
      DataOfCall(k.trace, OnComplete(if k.error != NoError then k.error else s.error));
      assert DataOf(k.trace) + [] == DataOf(k.trace);
    }
  }

  /** Errors, ends, headers and cancellation flags pass nothing on. */
  lemma MarksPassNothing(s: StreamState, t: StreamState)
    requires Undecoded(s)
    requires t == s.(error := t.error, isEnded := t.isEnded, headers := t.headers, sink := t.sink)
    requires s.sink.Some? == t.sink.Some?
    requires s.sink.Some? ==> t.sink.value == s.sink.value.(cancellationTaken := t.sink.value.cancellationTaken)
    ensures PassedOn(s, t, [])
  {
    hide DataOf, NeverStops;
    assert Body(s) + [] == Body(s);
  }

  lemma PassedOnThrough(s: StreamState, t: StreamState, u: StreamState, data: seq<byte>, more: seq<byte>)
    requires PassedOn(s, t, data) && PassedOn(t, u, more) && (data == [] || more == [])
    ensures PassedOn(s, u, data + more)
  {
    hide Body, NeverStops;
    assert data + [] == data && [] + more == more;
    assert Body(s) + [] == Body(s);
    assert (Body(s) + data) + [] == Body(s) + data && Body(t) + [] == Body(t);
  }

  // ---------------------------------------------------------------- the objects behind it

  class Sink {
    const contract: Contract
    var headersDelivered: bool
    var completed: bool
    var aborted: bool
    var cancelled: bool
    var cancellationTaken: bool
    var error: Error
    var decoding: bool
    var fed: seq<byte>
    var trace: seq<Event>

    ghost function State(): (k: SinkState)
      reads this
    {
      SinkState(contract, headersDelivered, completed, aborted, cancelled, cancellationTaken, error, decoding, fed,
                trace)
    }

    constructor (contract: Contract)
      ensures State() == NewSink(contract)
    {
      this.contract := contract;
      headersDelivered, completed, aborted := false, false, false;
      cancelled, cancellationTaken, error := false, false, NoError;
      decoding, fed, trace := false, [], [];
    }

    /** A retried attempt starts the callback sequence from scratch. */
    method PrepareStreamRetry()
      modifies this
      ensures State() == NewSink(contract)
    {
      decoding, fed := false, [];
      headersDelivered, completed, aborted := false, false, false;
      cancelled, cancellationTaken, error := false, false, NoError;
      trace := [];
    }

    method Call(e: Event)
      modifies this`trace
      ensures State() == Called(old(State()), e)
    {
      if !contract.collecting {
        trace := trace + [e];
      }
    }
  }

  class Stream {
    const id: nat
    const sink: Sink?
    var isEnded: bool
    var error: Error
    var headers: seq<Entry>
    var payload: seq<byte>

    ghost function State(): (s: StreamState)
      reads this, sink
    {
      StreamState(id, isEnded, error, headers, payload, if sink == null then None else Some(sink.State()))
    }

    constructor (id: nat, sink: Sink?)
      ensures State() == StreamState(id, false, NoError, [], [], if sink == null then None else Some(sink.State()))
      ensures this.sink == sink
    {
      this.id, this.sink := id, sink;
      isEnded, error, headers, payload := false, NoError, [], [];
    }

    method DeliverResponseHeaders()
      modifies this, sink
      ensures State() == HeadersDelivered(old(State()))
    {
      if sink == null || sink.headersDelivered {
        return;
      }
      sink.headersDelivered := true;
      var choice := ChosenDecoder();
      if choice == Decoder {
        sink.decoding := true;
      } else if choice == DecoderUnavailable {
        error := InflateUnknownError;
        sink.error := error;
        sink.cancelled := true;
      }
      sink.Call(OnHeaders(headers));
    }

    function ChosenDecoder(): (c: Choice)
      requires sink != null
      reads this
    {
      sink.contract.choose(headers)
    }

    method AppendStreamPayload(data: seq<byte>) returns (keepReading: bool)
      modifies this, sink
      ensures (State(), keepReading) == Appended(old(State()), data)
    {
      hide ConsumedAll, StopsWithin;
      if data == [] {
        return true;
      }
      if sink == null {
        payload := payload + data;
        return true;
      }
      keepReading := DeliverStreamPayload(data);
    }

    method DeliverStreamPayload(data: seq<byte>) returns (keepReading: bool)
      requires sink != null && data != []
      modifies this, sink
      ensures (State(), keepReading) == Appended(old(State()), data)
    {
      hide ConsumedAll, StopsWithin;
      if sink.aborted {
        return false;
      }
      var produced := if sink.decoding then sink.contract.decode(sink.fed, data) else Decoded([data], true);
      if sink.decoding {
        sink.fed := sink.fed + data;
      }
      var stopped := FeedPieces(produced.pieces);
      if !stopped && !produced.ok && sink.error == NoError {
        sink.error := InflateFailed;
        error := sink.error;
        sink.cancelled := true;
      }
      keepReading := !stopped && produced.ok && !sink.aborted;
    }

    /** Hands decoded pieces to the sink until the consumer stops. */
    method FeedPieces(pieces: seq<seq<byte>>) returns (stopped: bool)
      requires sink != null
      modifies this, sink
      ensures State() == ConsumedAll(old(State()), pieces)
      ensures stopped == StopsWithin(old(State()), pieces)
    {
      hide Consumed, Stops;
      var i := 0;
      assert pieces[0..] == pieces;
      while i < |pieces|
        invariant i <= |pieces|
        invariant ConsumedAll(old(State()), pieces) == ConsumedAll(State(), pieces[i..])
        invariant StopsWithin(old(State()), pieces) == StopsWithin(State(), pieces[i..])
      {
        assert pieces[i..][1..] == pieces[i + 1..];
        stopped := ConsumeResponseBody(pieces[i]);
        if stopped {
          return;
        }
        i := i + 1;
      }
      stopped := false;
    }

    method ConsumeResponseBody(data: seq<byte>) returns (stopped: bool)
      requires sink != null
      modifies this, sink
      ensures State() == Consumed(old(State()), data)
      ensures stopped == Stops(old(State()), data)
    {
      if sink.contract.collecting {
        payload := payload + data;
        return false;
      }
      stopped := sink.contract.stops(sink.trace, data);
      sink.Call(OnData(data));
      if stopped {
        sink.aborted := true;
        sink.cancelled := true;
        sink.error := AbortedByConsumer;
        error := sink.error;
      }
    }

    method CompleteResponseSink()
      modifies sink
      ensures State() == Completed(old(State()))
    {
      if sink == null || sink.completed {
        return;
      }
      sink.completed := true;
      sink.decoding := false;
      sink.Call(OnComplete(if sink.error != NoError then sink.error else error));
    }

    method TakeResponseCancellation() returns (taken: bool)
      modifies sink
      ensures (State(), taken) == CancellationTaken(old(State()))
    {
      if sink == null || !sink.cancelled || sink.cancellationTaken {
        return false;
      }
      sink.cancellationTaken := true;
      taken := true;
    }
  }
}
