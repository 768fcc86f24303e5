/** The HTTP/1.1 buffered reader: a compacting buffer over a transport that delivers in arbitrary pieces. */
module Http11Reader {
  import opened Octets
  import opened HpackPrimitives
  import opened DynamicTable
  import opened Frames
  import opened ResponseSink
  import opened Http11Text

  const MAX_HEADER_SECTION: nat := 65536
  const READ_CHUNK: nat := 16384

  /** Lines this long, line end included, are always read. */
  const LINE_MAX: nat := 49152

  // ---------------------------------------------------------------- what the octets say

  datatype Line = Line(text: seq<byte>, rest: seq<byte>)

  /** The line at the front of the octets still to come, when its line feed is among the first `limit`. */
  function TakeLine(u: seq<byte>, limit: nat): (r: Option<Line>)
    ensures r.Some? ==> |r.value.rest| < |u|
  {
    var k := IndexOf(u, LF);
    if k < |u| && k < limit then Some(Line(StripCr(u[..k]), u[k + 1..])) else None
  }

  /** The octets still to come end before the line does, and are fewer than `limit`. */
  predicate EndsInLine(u: seq<byte>, limit: nat) {
    IndexOf(u, LF) == |u| < limit
  }

  // ---------------------------------------------------------------- what body reading does to a stream

  /** Only body calls were added, and an error of the sink is the stream's error too. */
  ghost predicate OnlyData(s: StreamState, t: StreamState) {
    && t.id == s.id && t.isEnded == s.isEnded && t.headers == s.headers && t.sink.Some? == s.sink.Some?
    && (s.error != NoError ==> t.error != NoError)
    && (s.sink.Some? ==>
          var k, l := s.sink.value, t.sink.value;
          && l.contract == k.contract && l.completed == k.completed && l.headersDelivered == k.headersDelivered
          && k.trace <= l.trace && (forall i :: |k.trace| <= i < |l.trace| ==> l.trace[i].OnData?))
  }

  /** A response that was given up says why, and an error of the sink is the stream's error. */
  ghost predicate SinkErrorIsStreams(s: StreamState) {
    s.sink.Some? ==>
      && (s.sink.value.error != NoError ==> s.error == s.sink.value.error)
      && (s.sink.value.cancelled ==> s.sink.value.error != NoError)
  }

  /** The calls so far are legal as well. */
  ghost predicate SinkIsSound(s: StreamState) {
    SinkErrorIsStreams(s) && SinkInv(s)
  }

  lemma OnlyDataTransitive(s: StreamState, t: StreamState, u: StreamState)
    requires OnlyData(s, t) && OnlyData(t, u)
    ensures OnlyData(s, u)
  {
  }

  lemma ConsumedOnlyData(s: StreamState, piece: seq<byte>)
    requires s.sink.Some? && SinkErrorIsStreams(s)
    ensures OnlyData(s, Consumed(s, piece)) && SinkErrorIsStreams(Consumed(s, piece))
  {
    var k, t := s.sink.value, Consumed(s, piece);
    assert t.id == s.id && t.isEnded == s.isEnded && t.headers == s.headers;
    if !k.contract.collecting {
      assert t.sink.value.trace == k.trace + [OnData(piece)];
    }
  }

  lemma {:induction false} ConsumedAllOnlyData(s: StreamState, pieces: seq<seq<byte>>)
    requires s.sink.Some? && SinkErrorIsStreams(s)
    ensures OnlyData(s, ConsumedAll(s, pieces)) && SinkErrorIsStreams(ConsumedAll(s, pieces))
    decreases |pieces|
  {
    hide OnlyData, SinkErrorIsStreams, Consumed, Stops;
    if pieces == [] {
      OnlyDataRefl(s);
    } else {
      var t := Consumed(s, pieces[0]);
      ConsumedOnlyData(s, pieces[0]);
      if !Stops(s, pieces[0]) {
        ConsumedAllOnlyData(t, pieces[1..]);
        OnlyDataTransitive(s, t, ConsumedAll(t, pieces[1..]));
      }
    }
  }

  lemma AppendedOnlyData(s: StreamState, data: seq<byte>)
    requires SinkErrorIsStreams(s)
    ensures OnlyData(s, Appended(s, data).0) && SinkErrorIsStreams(Appended(s, data).0)
  {
    hide ConsumedAll, StopsWithin;
    if data != [] && s.sink.Some? && !s.sink.value.aborted {
      var s0 := s.(sink := Some(Fed(s.sink.value, data)));
      ConsumedAllOnlyData(s0, Produced(s.sink.value, data).pieces);
      OnlyDataTransitive(s, s0, ConsumedAll(s0, Produced(s.sink.value, data).pieces));
    }
  }

  // ---------------------------------------------------------------- the reader

  /** A transport that delivers nonempty reads, then ends: 0 closed, -1 error, -2 timeout. */
  ghost predicate ValidTransport(chunks: seq<seq<byte>>, ending: int) {
    ending in {0, -1, -2} && forall c :: c in chunks ==> 0 < |c| <= READ_CHUNK
  }

  class Reader {
    var buf: array<byte>
    var len: nat
    var pos: nat
    var eof: bool
    var err: int
    var chunks: seq<seq<byte>>
    const ending: int
    ghost const source: seq<seq<byte>>    // everything the transport was to deliver

    ghost predicate Valid()
      reads this
    {
      && pos <= len <= buf.Length
      && ValidTransport(chunks, ending)
      && (eof || err != 0 ==> chunks == []) && (eof ==> ending == 0) && (err != 0 ==> err == ending)
      && err in {0, -1, -2}
      && |chunks| <= |source| && chunks == source[|source| - |chunks|..]
    }

    /** No more is buffered than the last read brought, and less when there is no slack. */
    ghost predicate Lean(slack: nat)
      requires Valid()
      reads this
    {
      |chunks| < |source| ==> len - pos < |source[|source| - |chunks| - 1]| + slack
    }

    /** A lean reader has made exactly the reads it took to get at what was taken from it. */
    lemma ReadsMade()
      requires Valid() && Lean(0)
      ensures chunks == source[ReadsFor(source, |Concat(source)| - |Unread()|)..]
    {
      hide ValidTransport;
      var r := |source| - |chunks|;
      ConcatSplit(source, r);
      if r > 0 {
        ConcatGrows(source, r);
      }
      ReadsForIs(source, |Concat(source)| - |Unread()|, r);
    }

    /** The octets not yet taken: buffered, then still on their way. */
    ghost function Unread(): (u: seq<byte>)
      requires Valid()
      reads this, buf
      ensures |u| >= len - pos && (Ended() ==> |u| == len - pos)
    {
      buf[pos..len] + Concat(chunks)
    }

    constructor (chunks: seq<seq<byte>>, ending: int)
      requires ValidTransport(chunks, ending)
      ensures Valid() && fresh(buf) && Unread() == Concat(chunks) && len == 0 && this.ending == ending
      ensures source == this.chunks == chunks && Lean(0)
    {
      buf := new byte[0];
      len, pos, eof, err := 0, 0, false, 0;
      this.chunks, this.ending, source := chunks, ending, chunks;
    }

    /** Nothing more can be read: the peer closed, or the transport failed. */
    ghost predicate Ended()
      reads this
    {
      eof || err != 0
    }

    /** Moves the unread octets to the front, then reads once behind them. */
    method Fill()
      requires Valid()
      modifies this, buf
      ensures Valid() && (buf == old(buf) || fresh(buf)) && Unread() == old(Unread())
      ensures old(Ended()) ==> len == old(len) && pos == old(pos) && eof == old(eof) && err == old(err)
      ensures !old(Ended()) && old(chunks) == [] ==> Ended()
      ensures len - pos >= old(len - pos) && (len == old(len) || len <= old(len - pos) + READ_CHUNK)
      ensures |chunks| == |old(chunks)| ==> chunks == old(chunks) && len - pos == old(len - pos)
      ensures |chunks| < |old(chunks)| ==>
                chunks == old(chunks)[1..] && len - pos == old(len - pos) + |old(chunks)[0]|
      ensures |chunks| < |old(chunks)| ==> Lean(old(len - pos) + 1)
      ensures |chunks| <= |old(chunks)| && (|chunks| < |old(chunks)| || Ended())
    {
      if eof || err != 0 {
        return;
      }
      if pos > 0 {
        Compact();
      }
      Reserve();
      if chunks != [] {
        Receive();
      } else if ending == 0 {
        eof := true;
      } else {
        err := ending;
      }
    }

    /** One read puts what arrived behind the buffered octets. */
    method Receive()
      requires Valid() && pos == 0 && chunks != [] && buf.Length >= len + READ_CHUNK
      modifies this`len, this`chunks, buf
      ensures Valid() && Unread() == old(Unread())
      ensures len == old(len) + |old(chunks)[0]| && |old(chunks)[0]| <= READ_CHUNK && chunks == old(chunks)[1..]
    {
      var read := chunks[0];
      assert read in chunks;
      ghost var before, later := buf[0..len], Concat(chunks[1..]);
      forall i | 0 <= i < |read| {
        buf[len + i] := read[i];
      }
      len := len + |read|;
      chunks := chunks[1..];
      assert buf[0..len] == before + read;
      assert (before + read) + later == before + (read + later);
    }

    method Compact()
      requires Valid()
      modifies this`len, this`pos, buf
      ensures Valid() && pos == 0 && len == old(len - pos) && Unread() == old(Unread())
    {
      forall i | 0 <= i < len - pos {
        buf[i] := buf[pos + i];
      }
      len, pos := len - pos, 0;
      assert buf[0..len] == old(buf[pos..len]);
    }

    method Reserve()
      requires Valid() && pos == 0
      modifies this`buf
      ensures Valid() && fresh(buf) && buf.Length == len + READ_CHUNK + 1 && Unread() == old(Unread())
    {
      var grown := new byte[len + READ_CHUNK + 1];
      forall i | 0 <= i < len {
        grown[i] := buf[i];
      }
      assert grown[0..len] == buf[0..len];
      buf := grown;
    }

    /** How many octets stand before the first buffered line feed, if one is buffered. */
    method FindLf() returns (found: bool, n: nat)
      requires Valid()
      ensures found ==> n < len - pos && n < |Unread()| && n == IndexOf(Unread(), LF)
      ensures !found ==> len - pos <= IndexOf(Unread(), LF)
      ensures !found && (eof || err != 0) ==> IndexOf(Unread(), LF) == |Unread()|
    {
      ghost var s := buf[pos..len];
      n := 0;
      assert s[0..] == s;
      while n < len - pos && buf[pos + n] != LF
        invariant n <= len - pos
        invariant IndexOf(s, LF) == n + IndexOf(s[n..], LF)
      {
        assert s[n..][1..] == s[n + 1..];
        n := n + 1;
      }
      LineInBuffer(s, Concat(chunks));
      found := n < len - pos;
    }

    /** The next octets of the buffer. */
    method TakeBuffered(n: nat) returns (data: seq<byte>)
      requires Valid() && n <= len - pos
      modifies this`pos
      ensures Valid() && pos == old(pos) + n && |data| == n && old(Unread()) == data + Unread()
    {
      data := buf[pos..pos + n];
      assert data + buf[pos + n..len] == buf[pos..len];
      assert (data + buf[pos + n..len]) + Concat(chunks) == data + (buf[pos + n..len] + Concat(chunks));
      pos := pos + n;
    }

    /**
     1 with the next line, 0 on EOF, -1 on error, -2 on timeout. However the transport cuts its reads, a line below
     LINE_MAX octets is found, and exactly it is taken.
     */
    method ReadLine() returns (rc: int, line: seq<byte>)
      requires Valid()
      modifies this, buf
      ensures Valid() && (buf == old(buf) || fresh(buf)) && rc in {1, 0, -1, -2}
      ensures TakeLine(old(Unread()), LINE_MAX).Some? && old(len) < MAX_HEADER_SECTION ==>
                rc == 1 && len < MAX_HEADER_SECTION
      ensures EndsInLine(old(Unread()), LINE_MAX) && old(len) < MAX_HEADER_SECTION ==> rc == ending
      ensures |chunks| <= |old(chunks)|
      ensures rc == 1 ==> TakeLine(old(Unread()), |old(Unread())|) == Some(Line(line, Unread()))
      ensures rc != 1 ==> Unread() == old(Unread())
      ensures rc == 1 && old(Lean(0)) ==> Lean(0)
      ensures rc == 0 ==> eof && err == 0 && IndexOf(old(Unread()), LF) == |old(Unread())|
      ensures rc == -2 ==> err == -2
      ensures rc == -1 ==> err == -1 || (err == 0 && !eof && len >= 65536)
      ensures old(len >= 65536 && len - pos <= IndexOf(Unread(), LF) && !eof && err == 0) ==> rc == -1
    {
      hide IndexOf, StripCr, Unread, ValidTransport;
      line := [];
      ghost var u: seq<byte>, seen: nat := Unread(), 0;
      ghost var full := len >= 65536 && len - pos <= IndexOf(u, LF) && !eof && err == 0;
      while true
        invariant Valid() && (buf == old(buf) || fresh(buf)) && Unread() == u && |chunks| <= |old(chunks)|
        invariant seen <= len - pos && seen <= IndexOf(u, LF) && (old(Lean(0)) ==> Lean(seen + 1))
        invariant full ==> len >= 65536 && len - pos <= IndexOf(u, LF) && !eof && err == 0
        invariant IndexOf(u, LF) < LINE_MAX && old(len) < MAX_HEADER_SECTION ==> len < MAX_HEADER_SECTION
        decreases |chunks|, if eof || err != 0 then 0 else 1
      {
        var found, n := FindLf();
        if found {
          line := TakeBuffered(n + 1);
          LineTaken(u, n, line, Unread());
          return 1, StripCr(line[..n]);
        }
        if eof || err != 0 {
          return if err != 0 then err else 0, [];
        }
        if len >= MAX_HEADER_SECTION {
          return -1, [];
        }
        seen := len - pos;
        Fill();
      }
    }

    /** Hands the next buffered octets to the stream. */
    method FeedBuffered(stream: Stream, n: nat) returns (keep: bool, ghost data: seq<byte>)
      requires Valid() && n <= len - pos && SinkIsSound(stream.State())
      modifies this`pos, stream, stream.sink
      ensures Valid() && pos == old(pos) + n && |data| == n && old(Unread()) == data + Unread()
      ensures OnlyData(old(stream.State()), stream.State()) && SinkIsSound(stream.State())
      ensures PassesThrough(old(stream.State())) ==>
                && keep && PassesThrough(stream.State()) && stream.State().error == old(stream.State()).error
                && Body(stream.State()) == Body(old(stream.State())) + data
    {
      hide PassesThrough, Body, Appended, SinkIsSound, OnlyData, Stream.State, Unread, Valid, Lean;
      ghost var s := stream.State();
      var taken := TakeBuffered(n);
      data := taken;
      OnlyDataRefl(s);
      BodyStep(s, s, taken);
      keep := stream.AppendStreamPayload(taken);
    }

    /** Takes n octets and feeds them to the stream as they come. */
    method ReadBody(stream: Stream, n: nat) returns (rc: int)
      requires Valid() && SinkIsSound(stream.State())
      modifies this, buf, stream, stream.sink
      ensures Valid() && (buf == old(buf) || fresh(buf)) && rc in {1, 0, -1, -2}
      ensures |chunks| <= |old(chunks)| && (len <= old(len) || len <= READ_CHUNK)
      ensures rc == 1 && old(Lean(0)) ==> Lean(0)
      ensures OnlyData(old(stream.State()), stream.State()) && SinkIsSound(stream.State())
      ensures PassesThrough(old(stream.State())) ==>
                && PassesThrough(stream.State()) && stream.State().error == old(stream.State()).error
                && (rc == 1 <==> |old(Unread())| >= n)
                && (rc != 1 ==> rc == ending && Unread() == []
                                && Body(stream.State()) == Body(old(stream.State())) + old(Unread()))
      ensures rc == 1 ==> |Unread()| + n == |old(Unread())|
      ensures PassesThrough(old(stream.State())) && rc == 1 ==>
                && n <= |old(Unread())| && Unread() == old(Unread())[n..]
                && Body(stream.State()) == Body(old(stream.State())) + old(Unread())[..n]
    {
      hide PassesThrough, Body, Appended, SinkIsSound, OnlyData, Stream.State, Unread, ValidTransport;
      ghost var s0, u := stream.State(), Unread();
      ghost var pass := PassesThrough(s0);
      var remaining := n;
      OnlyDataRefl(s0);
      assert u[..0] == [] && u[0..] == u && Body(s0) + [] == Body(s0);
      while remaining > 0
        invariant Valid() && (buf == old(buf) || fresh(buf)) && 0 <= remaining <= n
        invariant |chunks| <= |old(chunks)| && (len <= old(len) || len <= READ_CHUNK)
        invariant old(Lean(0)) ==> Lean(if remaining > 0 then 1 else 0)
        invariant OnlyData(s0, stream.State()) && SinkIsSound(stream.State())
        invariant n - remaining <= |u| && Unread() == u[n - remaining..]
        invariant pass ==> PassesThrough(stream.State()) && stream.State().error == s0.error
        invariant pass ==> Body(stream.State()) == Body(s0) + u[..n - remaining]
        decreases remaining, |chunks|, if eof || err != 0 then 0 else 1
      {
        var avail := len - pos;
        if avail > 0 {
          var take := if remaining < avail then remaining else avail;
          ghost var done, s := n - remaining, stream.State();
          var keep, data := FeedBuffered(stream, take);
          OnlyDataTransitive(s0, s, stream.State());
          Further(u, done, data, Unread(), Body(s0));
          remaining := remaining - take;
          if !keep {
            return -1;
          }
        } else {
          if eof || err != 0 {
            assert u[n - remaining..] == [] && u[..n - remaining] == u;
            return if err != 0 then err else 0;
          }
          Fill();
        }
      }
      rc := 1;
    }
  }

  /** How many of these reads it takes to have n octets. */
  function ReadsFor(chunks: seq<seq<byte>>, n: int): (r: nat)
    ensures r <= |chunks|
  {
    if n <= 0 || chunks == [] then 0 else 1 + ReadsFor(chunks[1..], n - |chunks[0]|)
  }

  lemma {:induction false} ReadsForIs(chunks: seq<seq<byte>>, n: int, r: nat)
    requires r <= |chunks| && n <= |Concat(chunks[..r])| && (r > 0 ==> |Concat(chunks[..r - 1])| < n)
    ensures ReadsFor(chunks, n) == r
    decreases r
  {
    if r > 0 {
      assert chunks[..r][1..] == chunks[1..][..r - 1] && chunks[..r][0] == chunks[0];
      if r > 1 {
        assert chunks[..r - 1][1..] == chunks[1..][..r - 2] && chunks[..r - 1][0] == chunks[0];
      }
      ReadsForIs(chunks[1..], n - |chunks[0]|, r - 1);
    }
  }

  lemma {:induction false} ConcatSplit(chunks: seq<seq<byte>>, r: nat)
    requires r <= |chunks|
    ensures Concat(chunks) == Concat(chunks[..r]) + Concat(chunks[r..])
  {
    if r == 0 {
      assert chunks[0..] == chunks;
    } else {
      assert chunks[..r][1..] == chunks[1..][..r - 1] && chunks[r..] == chunks[1..][r - 1..];
      ConcatSplit(chunks[1..], r - 1);
    }
  }

  lemma {:induction false} ConcatGrows(chunks: seq<seq<byte>>, r: nat)
    requires 0 < r <= |chunks|
    ensures Concat(chunks[..r]) == Concat(chunks[..r - 1]) + chunks[r - 1]
  {
    ConcatSplit(chunks[..r], r - 1);
    assert chunks[..r][..r - 1] == chunks[..r - 1] && chunks[..r][r - 1..] == [chunks[r - 1]];
    assert Concat([chunks[r - 1]]) == chunks[r - 1] by { assert [chunks[r - 1]][1..] == chunks[r..r]; }
  }

  /** Some read of the transport ends exactly behind the first n octets. */
  ghost predicate EndsAtRead(chunks: seq<seq<byte>>, n: nat) {
    exists k :: 0 <= k <= |chunks| && |Concat(chunks[..k])| == n
  }

  lemma {:induction false} EnoughReads(chunks: seq<seq<byte>>, n: int)
    requires n <= |Concat(chunks)|
    ensures var r := ReadsFor(chunks, n);
            n <= |Concat(chunks[..r])| && (r > 0 ==> |Concat(chunks[..r - 1])| < n)
  {
    if n > 0 {
      EnoughReads(chunks[1..], n - |chunks[0]|);
      var r := ReadsFor(chunks, n);
      assert chunks[..r][1..] == chunks[1..][..r - 1] && chunks[..r][0] == chunks[0];
      if r > 1 {
        assert chunks[..r - 1][1..] == chunks[1..][..r - 2] && chunks[..r - 1][0] == chunks[0];
      }
    }
  }

  /** What whole reads leave behind n octets is the rest exactly when some read ends there. */
  lemma LeftIsRestIff(chunks: seq<seq<byte>>, n: nat)
    requires n <= |Concat(chunks)| && forall c :: c in chunks ==> c != []
    ensures Concat(chunks[ReadsFor(chunks, n)..]) == Concat(chunks)[n..] <==> EndsAtRead(chunks, n)
  {
    var r := ReadsFor(chunks, n);
    EnoughReads(chunks, n);
    ConcatSplit(chunks, r);
    var front, back := Concat(chunks[..r]), Concat(chunks[r..]);
    if |front| == n {
      assert (front + back)[n..] == back;
    } else {
      assert |Concat(chunks)[n..]| > |back|;
      if k :| 0 <= k <= |chunks| && |Concat(chunks[..k])| == n {
        if k < r {
          ConcatLonger(chunks, k, r - 1);
        } else {
          ConcatLonger(chunks, r, k);
        }
        assert false;
      }
    }
  }

  lemma {:induction false} ConcatLonger(chunks: seq<seq<byte>>, j: nat, k: nat)
    requires j <= k <= |chunks|
    ensures |Concat(chunks[..j])| <= |Concat(chunks[..k])|
    decreases k
  {
    if j < k {
      ConcatGrows(chunks, k);
      ConcatLonger(chunks, j, k - 1);
    }
  }

  lemma LineTaken(u: seq<byte>, n: nat, taken: seq<byte>, rest: seq<byte>)
    requires u == taken + rest && |taken| == n + 1
    ensures taken[..n] == u[..n] && rest == u[n + 1..]
  {
  }

  /** Taking the next octets of what is left moves them to what is done. */
  lemma Further(u: seq<byte>, done: nat, data: seq<byte>, rest: seq<byte>, body: seq<byte>)
    requires done <= |u| && u[done..] == data + rest
    ensures done + |data| <= |u| && u[done + |data|..] == rest
    ensures body + u[..done] + data == body + u[..done + |data|]
  {
    assert u == u[..done] + u[done..];
    assert u[..done] + data == u[..done + |data|];
    assert (body + u[..done]) + data == body + (u[..done] + data);
  }

  /** One piece handed on: only a body call is added, and a stream that passes everything through goes on doing so. */
  lemma BodyStep(s0: StreamState, s: StreamState, data: seq<byte>)
    requires OnlyData(s0, s) && SinkIsSound(s)
    ensures OnlyData(s0, Appended(s, data).0) && SinkIsSound(Appended(s, data).0)
    ensures PassesThrough(s) ==>
              && Appended(s, data).1 && PassesThrough(Appended(s, data).0)
              && Body(Appended(s, data).0) == Body(s) + data && Appended(s, data).0.error == s.error
  {
    hide Appended, Body, PassesThrough, SinkErrorIsStreams, SinkInv;
    AppendedOnlyData(s, data);
    AppendedKeepsInv(s, data);
    OnlyDataTransitive(s0, s, Appended(s, data).0);
    if PassesThrough(s) {
      AppendExtendsBody(s, data);
    }
  }

  /** Whether the line feed is buffered already, it is the one of the whole. */
  lemma LineInBuffer(buffered: seq<byte>, later: seq<byte>)
    ensures IndexOf(buffered, LF) < |buffered| ==> IndexOf(buffered + later, LF) == IndexOf(buffered, LF)
    ensures IndexOf(buffered, LF) == |buffered| ==> IndexOf(buffered + later, LF) >= |buffered|
  {
    var u := buffered + later;
    if IndexOf(buffered, LF) < |buffered| {
      IndexOfIs(u, LF, IndexOf(buffered, LF));
    } else {
      assert forall i :: 0 <= i < |buffered| ==> u[i] == buffered[i];
    }
  }

  lemma OnlyDataRefl(s: StreamState)
    ensures OnlyData(s, s)
  {
  }
}
