/** The session fields only the reader thread touches: the flow-control ledger and the growable write queue. */
module ReaderSession {
  import opened Octets
  import opened HpackPrimitives
  import opened Frames
  import opened FlowControl

  class Session {
    var pendingConnWindow: nat
    var connWindowFlushDue: bool
    var connWindowTarget: nat
    var connWindowSinceGrowth: nat
    var pendingStreamWindows: array<Credit>
    var pendingStreamWindowCount: nat
    var pendingWire: array<byte>
    var pendingWireSize: nat
    var wire: seq<byte>               // what the writer was handed so far

    ghost var queued: seq<Frame>      // the frames in the queue
    ghost var written: seq<Frame>     // the frames already handed over

    ghost predicate Valid()
      reads this, pendingStreamWindows, pendingWire
    {
      && pendingStreamWindows.Length == MAX_STREAMS && pendingStreamWindowCount <= MAX_STREAMS
      && pendingWireSize <= pendingWire.Length
      && (forall f :: f in queued ==> ValidFrame(f)) && (forall f :: f in written ==> ValidFrame(f))
      && pendingWire[..pendingWireSize] == FrameForms(queued)
      && wire == FrameForms(written)
    }

    ghost function Contents(): (f: Flow)
      requires pendingStreamWindowCount <= pendingStreamWindows.Length
      reads this, pendingStreamWindows
    {
      Flow(pendingConnWindow, connWindowFlushDue, connWindowTarget, connWindowSinceGrowth,
           pendingStreamWindows[..pendingStreamWindowCount], queued, written)
    }

    constructor ()
      ensures Valid() && Contents() == InitialFlow && fresh(pendingStreamWindows) && fresh(pendingWire)
    {
      pendingConnWindow, connWindowFlushDue := 0, false;
      connWindowTarget, connWindowSinceGrowth := INITIAL_WINDOW, 0;
      pendingStreamWindows := new Credit[MAX_STREAMS](_ => Credit(0, 0));
      pendingStreamWindowCount := 0;
      pendingWire := new byte[0];
      pendingWireSize := 0;
      wire := [];
      queued, written := [], [];
    }

    // -------------------------------------------------------------- the write queue

    /** Appends a frame's octets, doubling the queue until they fit. */
    method QueueControlFrame(octets: seq<byte>, ghost f: Frame)
      requires Valid() && ValidFrame(f) && octets == FrameForm(f)
      modifies this`pendingWire, this`pendingWireSize, this`queued, pendingWire
      ensures Valid() && (pendingWire == old(pendingWire) || fresh(pendingWire))
      ensures Contents() == old(Contents()).(queued := old(queued) + [f])
    {
      hide FrameForm, FrameForms, ValidFrame;
      if pendingWireSize + |octets| > pendingWire.Length {
        Grow(pendingWireSize + |octets|);
      }
      ghost var was := pendingWire[..pendingWireSize];
      forall i | 0 <= i < |octets| {
        pendingWire[pendingWireSize + i] := octets[i];
      }
      pendingWireSize := pendingWireSize + |octets|;
      assert pendingWire[..pendingWireSize] == was + octets;
      FrameFormsAppend(queued, f);
      queued := queued + [f];
    }

    method Grow(needed: nat)
      requires pendingWireSize <= pendingWire.Length < needed
      modifies this`pendingWire
      ensures fresh(pendingWire) && pendingWire.Length >= needed
      ensures pendingWire[..pendingWireSize] == old(pendingWire[..pendingWireSize])
    {
      var capacity := if pendingWire.Length != 0 then pendingWire.Length else 256;
      while capacity < needed
        invariant capacity > 0
        decreases needed - capacity
      {
        capacity := capacity * 2;
      }
      var grown := new byte[capacity];
      forall i | 0 <= i < pendingWireSize {
        grown[i] := pendingWire[i];
      }
      pendingWire := grown;
    }

    /** A WINDOW_UPDATE frame, written octet by octet. */
    method QueueWindowUpdate(streamId: nat, increment: nat)
      requires Valid()
      modifies this`pendingWire, this`pendingWireSize, this`queued, pendingWire
      ensures Valid() && (pendingWire == old(pendingWire) || fresh(pendingWire))
      ensures Contents() == old(Contents()).(queued := old(queued) + [WindowUpdateFrame(streamId, increment)])
    {
      hide FrameForms;
      FourOctets(streamId % 0x8000_0000);
      var id, inc := streamId % 0x8000_0000, increment % 0x8000_0000;
      var octets: seq<byte> :=
        [0, 0, 4, WINDOW_UPDATE, 0, id / 256 / 256 / 256, id / 256 / 256 % 256, id / 256 % 256, id % 256]
        + BigEndian32(inc);
      QueueControlFrame(octets, WindowUpdateFrame(streamId, increment));
    }

    /** RST_STREAM with CANCEL: a consumer stopped the response. */
    method QueueRstStream(streamId: nat)
      requires Valid()
      modifies this`pendingWire, this`pendingWireSize, this`queued, pendingWire
      ensures Valid() && (pendingWire == old(pendingWire) || fresh(pendingWire))
      ensures Contents() == old(Contents()).(queued := old(queued) + [CancelFrame(streamId)])
    {
      hide FrameForms;
      FourOctets(streamId % 0x8000_0000);
      var id := streamId % 0x8000_0000;
      var octets: seq<byte> :=
        [0, 0, 4, RST_STREAM, 0, id / 256 / 256 / 256, id / 256 / 256 % 256, id / 256 % 256, id % 256] + [0, 0, 0, 8];
      QueueControlFrame(octets, CancelFrame(streamId));
    }

    /** The end of a batch: owed connection credit joins the queue, then all of it leaves in one write. */
    method FlushReaderWrites()
      requires Valid()
      modifies this, pendingWire
      ensures Valid() && (pendingWire == old(pendingWire) || fresh(pendingWire))
      ensures pendingStreamWindows == old(pendingStreamWindows)
      ensures Contents() == Flushed(old(Contents()))
    {
      hide FrameForm, FrameForms, WindowUpdateFrame, ValidFrame;
      if connWindowFlushDue {
        connWindowFlushDue := false;
        if pendingConnWindow > 0 {
          QueueWindowUpdate(0, pendingConnWindow);
          pendingConnWindow := 0;
        }
      }
      FormsEmpty(queued);
      FormsEmpty([]);
      FormsAppend(written, queued);
      if pendingWireSize == 0 {
        assert written + [] == written;
        return;
      }
      wire := wire + pendingWire[..pendingWireSize];
      pendingWireSize := 0;
      written, queued := written + queued, [];
    }

    // -------------------------------------------------------------- the ledger

    method FindPendingWindow(streamId: nat) returns (i: nat)
      requires pendingStreamWindowCount <= pendingStreamWindows.Length
      ensures i <= pendingStreamWindowCount && i == Find(Contents().streams, streamId)
    {
      i := 0;
      ghost var s := pendingStreamWindows[..pendingStreamWindowCount];
      assert s[0..] == s;
      while i < pendingStreamWindowCount
        invariant i <= pendingStreamWindowCount
        invariant Find(s, streamId) == i + Find(s[i..], streamId)
      {
        if pendingStreamWindows[i].streamId == streamId {
          return;
        }
        assert s[i..][1..] == s[i + 1..];
        i := i + 1;
      }
    }

    method AddStreamWindowCredit(streamId: nat, credit: nat)
      requires Valid()
      modifies this, pendingStreamWindows, pendingWire
      ensures Valid() && (pendingWire == old(pendingWire) || fresh(pendingWire))
      ensures pendingStreamWindows == old(pendingStreamWindows)
      ensures Contents() == Credited(old(Contents()), streamId, credit)
    {
      hide FrameForms, WindowUpdateFrame, Find, ValidFrame;
      var i := FindOrAddWindow(streamId);
      if i == pendingStreamWindowCount {
        return;
      }
      var sum := U32(pendingStreamWindows[i].credit + credit);
      SetEntry(i, Credit(streamId, sum));
      if sum <= STREAM_WINDOW_UPDATE_THRESHOLD {
        return;
      }
      QueueWindowUpdate(streamId, sum);
      SetEntry(i, Credit(streamId, 0));
    }

    /** The stream's entry, a new one when it has none, or the number of entries when there is no room for one. */
    method FindOrAddWindow(streamId: nat) returns (i: nat)
      requires Valid()
      modifies this`pendingStreamWindowCount, pendingStreamWindows
      ensures Valid() && i <= pendingStreamWindowCount && i == Find(old(Contents()).streams, streamId)
      ensures i == pendingStreamWindowCount <==> i == old(pendingStreamWindowCount) >= MAX_STREAMS
      ensures Contents() == if i == old(pendingStreamWindowCount) < MAX_STREAMS
                            then old(Contents()).(streams := old(Contents()).streams + [Credit(streamId, 0)])
                            else old(Contents())
    {
      hide FrameForms, Find, ValidFrame;
      i := FindPendingWindow(streamId);
      if i < pendingStreamWindowCount || pendingStreamWindowCount >= MAX_STREAMS {
        return;
      }
      pendingStreamWindows[pendingStreamWindowCount] := Credit(streamId, 0);
      pendingStreamWindowCount := pendingStreamWindowCount + 1;
    }

    method SetEntry(i: nat, c: Credit)
      requires Valid() && i < pendingStreamWindowCount
      modifies pendingStreamWindows
      ensures Valid() && Contents() == old(Contents()).(streams := old(Contents()).streams[i := c])
    {
      hide FrameForms, ValidFrame;
      pendingStreamWindows[i] := c;
    }

    method DiscardPendingStreamWindow(streamId: nat)
      requires Valid()
      modifies this`pendingStreamWindowCount, pendingStreamWindows
      ensures Valid() && Contents() == Discarded(old(Contents()), streamId)
    {
      hide FrameForms, Find;
      ghost var s := Contents().streams;
      var i := FindPendingWindow(streamId);
      if i == pendingStreamWindowCount {
        return;
      }
      pendingStreamWindows[i] := pendingStreamWindows[pendingStreamWindowCount - 1];
      assert pendingStreamWindows[..pendingStreamWindowCount] == s[i := s[|s| - 1]];
      pendingStreamWindowCount := pendingStreamWindowCount - 1;
      assert Contents().streams == s[i := s[|s| - 1]][..|s| - 1];
    }

    method TuneConnectionWindow(consumed: nat)
      requires Valid() && connWindowTarget <= CONNECTION_WINDOW_MAX
      modifies this`pendingConnWindow, this`connWindowFlushDue, this`connWindowTarget, this`connWindowSinceGrowth
      ensures Valid() && Contents() == Tuned(old(Contents()), consumed)
      ensures connWindowTarget <= CONNECTION_WINDOW_MAX
    {
      hide FrameForms;
      if connWindowTarget >= CONNECTION_WINDOW_MAX {
        return;
      }
      connWindowSinceGrowth := U32(connWindowSinceGrowth + consumed);
      if connWindowSinceGrowth < connWindowTarget {
        return;
      }
      connWindowSinceGrowth := connWindowSinceGrowth - connWindowTarget;
      var previousTarget := connWindowTarget;
      var doubled := U32(previousTarget * 2);
      connWindowTarget := if doubled < CONNECTION_WINDOW_MAX then doubled else CONNECTION_WINDOW_MAX;
      pendingConnWindow := U32(pendingConnWindow + connWindowTarget - previousTarget);
      connWindowFlushDue := true;
    }

    method ReplenishStreamWindow(streamId: nat, reading: StreamReading)
      requires Valid() && connWindowTarget <= CONNECTION_WINDOW_MAX
      modifies this, pendingStreamWindows, pendingWire
      ensures Valid() && (pendingWire == old(pendingWire) || fresh(pendingWire))
      ensures pendingStreamWindows == old(pendingStreamWindows) && connWindowTarget <= CONNECTION_WINDOW_MAX
      ensures Contents() == Replenished(old(Contents()), streamId, reading)
    {
      hide FrameForms, Tuned, Credited, Discarded;
      if reading.consumed > 0 {
        pendingConnWindow := U32(pendingConnWindow + reading.consumed);
        TuneConnectionWindow(reading.consumed);
      }
      ghost var tuned := Contents();
      LedgerKeepsTarget(tuned, streamId, reading.consumed);
      var streamDead := reading.ended || reading.reset || reading.cancelStreamId != 0;
      if streamDead {
        DiscardPendingStreamWindow(streamId);
      } else if reading.consumed > 0 {
        AddStreamWindowCredit(streamId, reading.consumed);
      }
      if reading.ended || pendingConnWindow >= CONNECTION_WINDOW_UPDATE_THRESHOLD {
        connWindowFlushDue := true;
      }
    }
  }

  lemma LedgerKeepsTarget(f: Flow, id: nat, c: nat)
    ensures Credited(f, id, c).target == f.target && Discarded(f, id).target == f.target
  {
  }

  lemma FormsEmpty(fs: seq<Frame>)
    requires forall f :: f in fs ==> ValidFrame(f)
    ensures FrameForms(fs) == [] <==> fs == []
  {
    if fs != [] {
      assert fs[0] in fs;
      assert |FrameForm(fs[0])| >= 9;
    }
  }

  lemma {:induction false} FormsAppend(fs: seq<Frame>, gs: seq<Frame>)
    requires (forall f :: f in fs ==> ValidFrame(f)) && (forall f :: f in gs ==> ValidFrame(f))
    ensures forall f :: f in fs + gs ==> ValidFrame(f)
    ensures FrameForms(fs + gs) == FrameForms(fs) + FrameForms(gs)
  {
    hide FrameForm, ValidFrame;
    if fs == [] {
      assert fs + gs == gs;
    } else {
      assert (fs + gs)[1..] == fs[1..] + gs;
      FormsAppend(fs[1..], gs);
    }
  }

  /**
   What was handed to the writer together with what still waits is the concatenation of every queued frame, and a
   reader of frames gets exactly those frames back.
   */
  lemma WireIsTheQueuedFrames(written: seq<Frame>, queued: seq<Frame>)
    requires (forall f :: f in written ==> ValidFrame(f)) && (forall f :: f in queued ==> ValidFrame(f))
    ensures Parse(FrameForms(written) + FrameForms(queued)) == Parsed(written + queued, [])
  {
    hide FrameForms, ValidFrame, Parse;
    FormsAppend(written, queued);
    FormsRoundTrip(written + queued);
  }
}
