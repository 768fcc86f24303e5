/** HTTP/2 frames on the wire, and the accumulation buffer that reassembles them from arbitrary reads. */
module Frames {
  import opened Octets
  import opened HpackPrimitives

  /** A 9-octet header and a payload (section 4.1 of RFC 9113). */
  datatype Frame = Frame(kind: byte, flags: byte, streamId: nat, payload: seq<byte>)

  const DATA: byte := 0
  const HEADERS: byte := 1
  const RST_STREAM: byte := 3
  const SETTINGS: byte := 4
  const PING: byte := 6
  const GOAWAY: byte := 7
  const WINDOW_UPDATE: byte := 8
  const CONTINUATION: byte := 9

  predicate EndStream(flags: byte) { flags % 2 == 1 }

  predicate Ack(flags: byte) { flags % 2 == 1 }

  predicate EndHeaders(flags: byte) { flags / 4 % 2 == 1 }

  predicate Padded(flags: byte) { flags / 8 % 2 == 1 }

  predicate Priority(flags: byte) { flags / 32 % 2 == 1 }

  function PayloadLength(s: seq<byte>): (n: nat)
    requires |s| >= 9
  {
    s[0] as int * 0x1_0000 + s[1] as int * 0x100 + s[2]
  }

  /** The top bit of the stream identifier is reserved and ignored. */
  function StreamId(s: seq<byte>): (id: nat)
    requires |s| >= 9
  {
    s[5] as int % 128 * 0x100_0000 + s[6] as int * 0x1_0000 + s[7] as int * 0x100 + s[8]
  }

  /** The frame at the front of `s`, once all of it is there. */
  function ParseOne(s: seq<byte>): (r: Option<Read<Frame>>)
    ensures r.Some? ==> 9 <= r.value.used <= |s|
  {
    if |s| < 9 || 9 + PayloadLength(s) > |s| then None
    else Some(Read(Frame(s[3], s[4], StreamId(s), s[9..9 + PayloadLength(s)]), 9 + PayloadLength(s)))
  }

  datatype Parsed = Parsed(frames: seq<Frame>, rest: seq<byte>)

  /** All the complete frames of a byte stream, and what is left over. */
  function Parse(s: seq<byte>): (p: Parsed)
    ensures |p.rest| <= |s|
    decreases |s|
  {
    match ParseOne(s)
    case None => Parsed([], s)
    case Some(one) =>
      var more := Parse(s[one.used..]);
      Parsed([one.value] + more.frames, more.rest)
  }

  lemma ParseOneExtends(s: seq<byte>, t: seq<byte>)
    requires ParseOne(s).Some?
    ensures ParseOne(s + t) == ParseOne(s)
  {
    assert (s + t)[9..9 + PayloadLength(s)] == s[9..9 + PayloadLength(s)];
  }

  lemma ParseUnfold(s: seq<byte>)
    requires ParseOne(s).Some?
    ensures Parse(s).frames == [ParseOne(s).value.value] + Parse(s[ParseOne(s).value.used..]).frames
    ensures Parse(s).rest == Parse(s[ParseOne(s).value.used..]).rest
  {
  }

  /** More octets never change the frames already found. */
  lemma {:induction false} ParseAppend(s: seq<byte>, t: seq<byte>)
    ensures Parse(s + t).frames == Parse(s).frames + Parse(Parse(s).rest + t).frames
    ensures Parse(s + t).rest == Parse(Parse(s).rest + t).rest
    decreases |s|
  {
    hide ParseOne;
    match ParseOne(s) {
      case None =>
      case Some(one) =>
        ParseOneExtends(s, t);
        var s' := s[one.used..];
        assert (s + t)[one.used..] == s' + t;
        ParseAppend(s', t);
        ParseUnfold(s);
        ParseUnfold(s + t);
        hide Parse;
        assert [one.value] + (Parse(s').frames + Parse(Parse(s').rest + t).frames)
            == ([one.value] + Parse(s').frames) + Parse(Parse(s').rest + t).frames;
    }
  }

  lemma {:induction false} RestIsIncomplete(s: seq<byte>)
    ensures ParseOne(Parse(s).rest) == None
    decreases |s|
  {
    hide ParseOne;
    match ParseOne(s) {
      case None =>
      case Some(one) => RestIsIncomplete(s[one.used..]);
    }
  }

  /** What is kept between reads is a strict prefix of one frame: some more octets complete exactly that frame. */
  lemma KeptIsStrictPrefix(s: seq<byte>) returns (missing: seq<byte>)
    ensures missing != []
    ensures var r := ParseOne(Parse(s).rest + missing); r.Some? && r.value.used == |Parse(s).rest| + |missing|
  {
    RestIsIncomplete(s);
    var rest := Parse(s).rest;
    var header := if |rest| < 9 then rest + seq(9 - |rest|, i => 0) else rest;
    var n := 9 + PayloadLength(header) - |rest|;
    missing := if |rest| < 9 then seq(9 - |rest|, i => 0) + seq(PayloadLength(header), i => 0)
               else seq(n, i => 0);
    assert forall i :: 0 <= i < 9 ==> (rest + missing)[i] == header[i];
  }

  function Concat(chunks: seq<seq<byte>>): (s: seq<byte>) {
    if chunks == [] then [] else chunks[0] + Concat(chunks[1..])
  }

  /** What the reader dispatches and keeps when the stream arrives in these chunks. */
  function ParseChunks(kept: seq<byte>, chunks: seq<seq<byte>>): (p: Parsed)
    decreases |chunks|
  {
    if chunks == [] then Parsed([], kept)
    else
      var now := Parse(kept + chunks[0]);
      var later := ParseChunks(now.rest, chunks[1..]);
      Parsed(now.frames + later.frames, later.rest)
  }

  /** However the stream is cut into reads, the same frames are dispatched in the same order. */
  lemma {:induction false} SplitIndependence(kept: seq<byte>, chunks: seq<seq<byte>>)
    requires ParseOne(kept) == None
    ensures ParseChunks(kept, chunks) == Parse(kept + Concat(chunks))
    decreases |chunks|
  {
    hide ParseOne;
    if chunks == [] {
      assert kept + [] == kept;
    } else {
      var now := Parse(kept + chunks[0]);
      RestIsIncomplete(kept + chunks[0]);
      SplitIndependence(now.rest, chunks[1..]);
      ParseAppend(kept + chunks[0], Concat(chunks[1..]));
      assert kept + Concat(chunks) == (kept + chunks[0]) + Concat(chunks[1..]);
    }
  }

  ghost predicate ValidFrame(f: Frame) {
    |f.payload| < 0x100_0000 && f.streamId < 0x8000_0000
  }

  /** Whatever arrives, a parsed frame's length and identifier are within their fields. */
  lemma {:induction false} ParsedFramesAreValid(s: seq<byte>)
    ensures forall f :: f in Parse(s).frames ==> ValidFrame(f)
    decreases |s|
  {
    match ParseOne(s) {
      case None =>
      case Some(one) =>
        assert ValidFrame(one.value);
        ParsedFramesAreValid(s[one.used..]);
        assert forall f :: f in Parse(s).frames ==> f == one.value || f in Parse(s[one.used..]).frames;
    }
  }

  function PayloadSize(fs: seq<Frame>): (n: nat) {
    if fs == [] then 0 else |fs[0].payload| + PayloadSize(fs[1..])
  }

  /** The payloads and what is kept fit in the octets that arrived. */
  lemma {:induction false} PayloadsFit(s: seq<byte>)
    ensures PayloadSize(Parse(s).frames) + |Parse(s).rest| <= |s|
    decreases |s|
  {
    match ParseOne(s) {
      case None =>
      case Some(one) =>
        PayloadsFit(s[one.used..]);
        assert Parse(s).frames[1..] == Parse(s[one.used..]).frames;
    }
  }

  // ---------------------------------------------------------------- writing frames

  lemma ThreeOctets(n: nat)
    ensures n / 256 / 256 * 0x1_0000 + n / 256 % 256 * 0x100 + n % 256 == n
    ensures n < 0x100_0000 ==> n / 256 / 256 < 256
  {
  }

  lemma FourOctets(n: nat)
    ensures n / 256 / 256 / 256 * 0x100_0000 + n / 256 / 256 % 256 * 0x1_0000 + n / 256 % 256 * 0x100 + n % 256 == n
    ensures n < 0x8000_0000 ==> n / 256 / 256 / 256 < 128
  {
    ThreeOctets(n / 256);
  }

  function FrameForm(f: Frame): (s: seq<byte>)
    requires ValidFrame(f)
  {
    var n, id := |f.payload|, f.streamId;
    ThreeOctets(n);
    FourOctets(id);
    [n / 256 / 256, n / 256 % 256, n % 256, f.kind, f.flags,
     id / 256 / 256 / 256, id / 256 / 256 % 256, id / 256 % 256, id % 256] + f.payload
  }

  lemma FormRoundTrip(f: Frame, rest: seq<byte>)
    requires ValidFrame(f)
    ensures ParseOne(FrameForm(f) + rest) == Some(Read(f, |FrameForm(f)|))
  {
    var s := FrameForm(f) + rest;
    ThreeOctets(|f.payload|);
    FourOctets(f.streamId);
    assert PayloadLength(s) == |f.payload|;
    assert StreamId(s) == f.streamId;
    assert s[9..9 + |f.payload|] == f.payload;
  }

  function FrameForms(fs: seq<Frame>): (s: seq<byte>)
    requires forall f :: f in fs ==> ValidFrame(f)
  {
    if fs == [] then [] else FrameForm(fs[0]) + FrameForms(fs[1..])
  }

  /** Parsing written frames gives them back, with nothing left over. */
  lemma {:induction false} FormsRoundTrip(fs: seq<Frame>)
    requires forall f :: f in fs ==> ValidFrame(f)
    ensures Parse(FrameForms(fs)) == Parsed(fs, [])
  {
    hide ParseOne, FrameForm, ValidFrame;
    if fs == [] {
      NothingToParse();
    } else {
      assert fs[0] in fs;
      var rest := FrameForms(fs[1..]);
      FormRoundTrip(fs[0], rest);
      assert FrameForms(fs)[|FrameForm(fs[0])|..] == rest;
      FormsRoundTrip(fs[1..]);
    }
  }

  lemma NothingToParse()
    ensures ParseOne([]) == None
  {
  }

  lemma {:induction false} FrameFormsAppend(fs: seq<Frame>, f: Frame)
    requires (forall g :: g in fs ==> ValidFrame(g)) && ValidFrame(f)
    ensures forall g :: g in fs + [f] ==> ValidFrame(g)
    ensures FrameForms(fs + [f]) == FrameForms(fs) + FrameForm(f)
  {
    hide FrameForm, ValidFrame;
    if fs == [] {
      assert fs + [f] == [f];
    } else {
      assert (fs + [f])[1..] == fs[1..] + [f];
      FrameFormsAppend(fs[1..], f);
    }
  }

  // ---------------------------------------------------------------- the accumulation buffer

  class FrameReader {
    var acc: array<byte>
    var accSize: nat

    ghost predicate Valid()
      reads this
    {
      accSize <= acc.Length
    }

    ghost function Kept(): (s: seq<byte>)
      requires Valid()
      reads this, acc
    {
      acc[..accSize]
    }

    constructor ()
      ensures Valid() && fresh(acc) && Kept() == []
    {
      acc := new byte[0];
      accSize := 0;
    }

    /** One read: appends it, takes every complete frame in order, and moves the rest to the front. */
    method Feed(buffer: seq<byte>) returns (frames: seq<Frame>)
      requires Valid()
      modifies this, acc
      ensures Valid() && fresh(acc)
      ensures Parsed(frames, Kept()) == Parse(old(Kept()) + buffer)
    {
      hide ParseOne, Parse;
      Append(buffer);
      ghost var all := Kept();
      frames := [];
      var offset := 0;
      assert all[0..] == all && [] + Parse(all).frames == Parse(all).frames;
      while true
        invariant Valid() && fresh(acc) && Kept() == all && 0 <= offset <= |all|
        invariant Parse(all) == Parsed(frames + Parse(all[offset..]).frames, Parse(all[offset..]).rest)
        decreases |all| - offset
      {
        var frame := FrameAt(offset);
        ParseStep(all[offset..], frames);
        if frame == None {
          break; // wait for the rest of this frame
        }
        assert all[offset..][frame.value.used..] == all[offset + frame.value.used..];
        frames := frames + [frame.value.value];
        offset := offset + frame.value.used;
      }
      if offset > 0 {
        Compact(offset);
      }
    }

    /** The complete frame at an offset of the buffer, if there is one. */
    method FrameAt(offset: nat) returns (r: Option<Read<Frame>>)
      requires Valid() && offset <= accSize
      ensures r == ParseOne(Kept()[offset..])
    {
      hide PayloadLength, StreamId;
      if offset + 9 > accSize {
        return None;
      }
      var header := acc[offset..offset + 9];
      var frameLength := PayloadLength(header);
      ghost var rest := Kept()[offset..];
      HeaderIs(rest, header);
      if offset + 9 + frameLength > accSize {
        return None;
      }
      var payload := acc[offset + 9..offset + 9 + frameLength];
      assert payload == Kept()[offset + 9..offset + 9 + frameLength];
      assert payload == rest[9..9 + frameLength];
      r := Some(Read(Frame(header[3], header[4], StreamId(header), payload), 9 + frameLength));
    }

    method Append(buffer: seq<byte>)
      requires Valid()
      modifies this
      ensures Valid() && fresh(acc) && Kept() == old(Kept()) + buffer
    {
      var grown := new byte[accSize + |buffer|];
      forall i | 0 <= i < accSize {
        grown[i] := acc[i];
      }
      forall i | 0 <= i < |buffer| {
        grown[accSize + i] := buffer[i];
      }
      ghost var was := Kept();
      acc, accSize := grown, accSize + |buffer|;
      assert Kept() == was + buffer;
    }

    method Compact(offset: nat)
      requires Valid() && offset <= accSize
      modifies this`accSize, acc
      ensures Valid() && Kept() == old(Kept()[offset..])
    {
      var remaining := accSize - offset;
      forall i | 0 <= i < remaining {
        acc[i] := acc[offset + i];
      }
      accSize := remaining;
    }
  }

  lemma ParseStep(s: seq<byte>, frames: seq<Frame>)
    ensures ParseOne(s) == None ==> Parsed(frames + Parse(s).frames, Parse(s).rest) == Parsed(frames, s)
    ensures ParseOne(s).Some? ==>
              && frames + Parse(s).frames
                 == frames + [ParseOne(s).value.value] + Parse(s[ParseOne(s).value.used..]).frames
              && Parse(s).rest == Parse(s[ParseOne(s).value.used..]).rest
  {
    hide ParseOne;
    assert frames + [] == frames;
  }

  lemma HeaderIs(s: seq<byte>, header: seq<byte>)
    requires |s| >= 9 == |header| && header == s[..9]
    ensures PayloadLength(header) == PayloadLength(s) && StreamId(header) == StreamId(s)
    ensures header[3] == s[3] && header[4] == s[4]
  {
  }
}
