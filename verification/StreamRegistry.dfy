/** The streams of a session: odd identifiers, a slot each, and a count of those in flight. */
module StreamRegistry {
  import opened ResponseSink

  const MAX_CONCURRENT_STREAMS_PER_SESSION: nat := 256
  const UINT32: nat := 0x1_0000_0000

  function Occupied(streams: seq<Stream?>): (n: nat) {
    if streams == [] then 0
    else Occupied(streams[..|streams| - 1]) + (if streams[|streams| - 1] == null then 0 else 1)
  }

  lemma {:induction false} OccupiedUpdate(streams: seq<Stream?>, i: nat, stream: Stream?)
    requires i < |streams|
    ensures Occupied(streams[i := stream]) + (if streams[i] == null then 0 else 1)
         == Occupied(streams) + (if stream == null then 0 else 1)
  {
    var n := |streams| - 1;
    if i == n {
      assert streams[i := stream][..n] == streams[..n];
    } else {
      assert streams[i := stream][..n] == streams[..n][i := stream];
      OccupiedUpdate(streams[..n], i, stream);
    }
  }

  lemma {:induction false} OccupiedSome(streams: seq<Stream?>)
    ensures Occupied(streams) > 0 <==> exists i :: 0 <= i < |streams| && streams[i] != null
  {
    if streams != [] {
      var n := |streams| - 1;
      OccupiedSome(streams[..n]);
      if i :| 0 <= i < n && streams[..n][i] != null {
        assert streams[i] != null;
      }
      if i :| 0 <= i < |streams| && streams[i] != null {
        assert i < n ==> streams[..n][i] == streams[i];
      }
    }
  }

  /** Distinct odd identifiers below the next one to be given. */
  ghost predicate IdsGiven(streams: seq<Stream?>, next: nat) {
    && (forall i :: 0 <= i < |streams| && streams[i] != null ==> streams[i].id % 2 == 1 && streams[i].id < next)
    && (forall i, j :: 0 <= i < j < |streams| && streams[i] != null && streams[j] != null ==>
          streams[i].id != streams[j].id)
  }

  class Registry {
    const streams: array<Stream?>
    var streamId: nat
    var inflightCount: nat

    ghost predicate Valid()
      reads this, streams
    {
      && streams.Length == MAX_CONCURRENT_STREAMS_PER_SESSION
      && streamId % 2 == 1 && inflightCount == Occupied(streams[..]) && IdsGiven(streams[..], streamId)
    }

    constructor ()
      ensures Valid() && fresh(streams) && streamId == 1 && inflightCount == 0
    {
      streams := new Stream?[MAX_CONCURRENT_STREAMS_PER_SESSION](_ => null);
      streamId, inflightCount := 1, 0;
      new;
      OccupiedSome(streams[..]);
    }

    /**
     A new stream with the next odd identifier in a free slot; without a free slot none, though its identifier is
     spent. Identifiers stay unique until the 32-bit counter wraps.
     */
    method RegisterStream(sink: Sink?) returns (stream: Stream?)
      requires Valid()
      modifies this, streams
      ensures streamId == (old(streamId) + 2) % UINT32
      ensures old(streamId) + 2 < UINT32 ==> Valid()
      ensures stream == null <==> old(inflightCount) == MAX_CONCURRENT_STREAMS_PER_SESSION
      ensures stream == null ==> streams[..] == old(streams[..]) && inflightCount == old(inflightCount)
      ensures stream != null ==>
                && fresh(stream) && stream.id == old(streamId) && stream.sink == sink
                && inflightCount == old(inflightCount) + 1
                && exists i :: 0 <= i < streams.Length && old(streams[i]) == null
                               && streams[..] == old(streams[..])[i := stream]
    {
      ghost var before := streams[..];
      var created := new Stream(streamId, sink);
      streamId := (streamId + 2) % UINT32;
      var slot := 0;
      while slot < streams.Length && streams[slot] != null
        invariant 0 <= slot <= streams.Length && streams[..] == before
        invariant forall j :: 0 <= j < slot ==> before[j] != null
        invariant inflightCount == old(inflightCount) && streamId == (old(streamId) + 2) % UINT32
        invariant created.id == old(streamId) && created.sink == sink
      {
        slot := slot + 1;
      }
      OccupiedAtMost(before);
      if slot == streams.Length {
        return null;
      }
      streams[slot] := created;
      inflightCount := inflightCount + 1;
      OccupiedUpdate(before, slot, created);
      assert streams[..] == before[slot := created];
      stream := created;
    }

    /** Frees the stream's slot; the count stays that of the occupied slots exactly when the stream had one. */
    method UnregisterStream(stream: Stream)
      requires Valid()
      modifies this`inflightCount, streams
      ensures Valid() <==> stream in old(streams[..]) || old(inflightCount) == 0
      ensures stream !in streams[..]
      ensures stream !in old(streams[..]) ==> streams[..] == old(streams[..])
      ensures stream in old(streams[..]) ==>
                exists i :: 0 <= i < streams.Length && old(streams[i]) == stream
                            && streams[..] == old(streams[..])[i := null]
    {
      ghost var before := streams[..];
      var slot := 0;
      while slot < streams.Length && streams[slot] != stream
        invariant 0 <= slot <= streams.Length && streams[..] == before && inflightCount == old(inflightCount)
        invariant forall j :: 0 <= j < slot ==> before[j] != stream
      {
        slot := slot + 1;
      }
      OccupiedSome(before);
      if slot < streams.Length {
        streams[slot] := null;
        OccupiedUpdate(before, slot, null);
        assert streams[..] == before[slot := null];
      }
      if inflightCount > 0 {
        inflightCount := inflightCount - 1;
      }
    }
  }

  lemma {:induction false} OccupiedAtMost(streams: seq<Stream?>)
    ensures Occupied(streams) <= |streams|
    ensures Occupied(streams) == |streams| <==> forall i :: 0 <= i < |streams| ==> streams[i] != null
  {
    if streams != [] {
      var n := |streams| - 1;
      OccupiedAtMost(streams[..n]);
      assert (forall i :: 0 <= i < |streams| ==> streams[i] != null)
          <==> streams[n] != null && forall i :: 0 <= i < n ==> streams[..n][i] != null;
    }
  }
}
