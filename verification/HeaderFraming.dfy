/** HEADERS and CONTINUATION frames: padding, priority and fragmentation around a header block. */
module HeaderFraming {
  import opened Octets
  import opened HuffmanTable
  import opened HpackPrimitives
  import opened DynamicTable
  import opened HeaderBlock
  import opened Frames
  import Tree = HuffmanTree

  /** What a stream and the shared table hold while header blocks arrive. */
  datatype HeaderState = HeaderState(decoding: Decoding, block: seq<byte>, awaiting: bool)

  function Drop(s: seq<byte>, n: nat): (r: Option<seq<byte>>) {
    if |s| < n then None else Some(s[n..])
  }

  /** The header block fragment of a HEADERS payload; None when the padding or priority does not fit. */
  function Fragment(payload: seq<byte>, flags: byte): (r: Option<seq<byte>>) {
    var padded := if Padded(flags) then Drop(payload, 1) else Some(payload);
    if padded == None then None
    else
      var padLength := if Padded(flags) then payload[0] else 0;
      var body := if Priority(flags) then Drop(padded.value, 5) else padded;
      if body == None || padLength > |body.value| then None
      else Some(body.value[..|body.value| - padLength])
  }

  /** `keep` is false for the scratch stream of an unknown id. */
  ghost function OnHeadersFrame(st: HeaderState, payload: seq<byte>, flags: byte, keep: bool): (r: HeaderState) {
    match Fragment(payload, flags)
    case None => st.(decoding := st.decoding.(failed := true))
    case Some(fragment) =>
      if EndHeaders(flags) then st.(decoding := DecodeHeaders(fragment, st.decoding, keep))
      else st.(block := fragment, awaiting := true)
  }

  /** A CONTINUATION on a known stream; a stream already in error drops the completed block undecoded. */
  ghost function OnContinuation(st: HeaderState, payload: seq<byte>, flags: byte): (r: HeaderState) {
    if !st.awaiting then st
    else if !EndHeaders(flags) then st.(block := st.block + payload)
    else
      var decoding := if st.decoding.failed then st.decoding
                      else DecodeHeaders(st.block + payload, st.decoding, true);
      HeaderState(decoding, [], false)
  }

  // ---------------------------------------------------------------- the handlers over the shared context

  method HandleHeadersFrame(t: CodeTable, nodes: array<Tree.Node>, ghost paths: seq<(nat, nat)>, ctx: HpackContext,
                            payload: seq<byte>, flags: byte, keep: bool,
                            headers: seq<Entry>, failed: bool, block: seq<byte>, awaiting: bool)
    returns (headers': seq<Entry>, failed': bool, block': seq<byte>, awaiting': bool)
    requires t == HuffmanCodes() && Tree.TreeOf(t, |t|, nodes[..], paths) && ctx.Valid()
    modifies ctx, ctx.dynamicTable
    ensures ctx.Valid() && (ctx.dynamicTable == old(ctx.dynamicTable) || fresh(ctx.dynamicTable))
    ensures HeaderState(Decoding(headers', ctx.Contents(), failed'), block', awaiting')
         == OnHeadersFrame(HeaderState(Decoding(headers, old(ctx.Contents()), failed), block, awaiting),
                           payload, flags, keep)
  {
    hide DecodeHeaders, Tree.TreeOf, Canonical, IsTable;
    headers', failed', block', awaiting' := headers, failed, block, awaiting;
    var start, size := 0, |payload|;

    var padLength := 0;
    if Padded(flags) {
      if size < 1 {
        failed' := true;
        return;
      }
      padLength := payload[0];
      start, size := start + 1, size - 1;
    }
    if Priority(flags) {
      if size < 5 {
        failed' := true;
        return;
      }
      start, size := start + 5, size - 5;
    }
    if padLength > 0 {
      if padLength > size {
        failed' := true;
        return;
      }
      size := size - padLength;
    }
    FragmentIs(payload, flags, start, padLength, size);
    if !EndHeaders(flags) {
      block' := payload[start..start + size];
      awaiting' := true;
      return;
    }
    headers', failed' := DecodeHeadersFrame(t, nodes, paths, ctx, payload[start..start + size], headers, failed, keep);
  }

  lemma FragmentIs(payload: seq<byte>, flags: byte, start: nat, padLength: nat, size: nat)
    requires start == (if Padded(flags) then 1 else 0) + (if Priority(flags) then 5 else 0)
    requires |payload| == start + size + padLength
    requires padLength == if Padded(flags) then payload[0] else 0
    ensures Fragment(payload, flags) == Some(payload[start..start + size])
  {
    if Padded(flags) && Priority(flags) {
      assert payload[1..][5..] == payload[6..];
    }
    assert payload[start..][..size] == payload[start..start + size];
  }

  method HandleContinuation(t: CodeTable, nodes: array<Tree.Node>, ghost paths: seq<(nat, nat)>, ctx: HpackContext,
                            payload: seq<byte>, flags: byte,
                            headers: seq<Entry>, failed: bool, block: seq<byte>, awaiting: bool)
    returns (headers': seq<Entry>, failed': bool, block': seq<byte>, awaiting': bool)
    requires t == HuffmanCodes() && Tree.TreeOf(t, |t|, nodes[..], paths) && ctx.Valid()
    modifies ctx, ctx.dynamicTable
    ensures ctx.Valid() && (ctx.dynamicTable == old(ctx.dynamicTable) || fresh(ctx.dynamicTable))
    ensures HeaderState(Decoding(headers', ctx.Contents(), failed'), block', awaiting')
         == OnContinuation(HeaderState(Decoding(headers, old(ctx.Contents()), failed), block, awaiting),
                           payload, flags)
  {
    hide DecodeHeaders, Tree.TreeOf, Canonical, IsTable;
    headers', failed', block', awaiting' := headers, failed, block, awaiting;
    if !awaiting {
      return;
    }
    block' := block + payload;
    if EndHeaders(flags) {
      awaiting' := false;
      if !failed {
        headers', failed' := DecodeHeadersFrame(t, nodes, paths, ctx, block', headers, failed, true);
      }
      block' := [];
    }
  }

  // ---------------------------------------------------------------- any legal framing of a block

  /** The optional fields of a HEADERS frame; padding may be present and empty. */
  datatype Dressing = Dressing(padding: Option<seq<byte>>, priority: Option<seq<byte>>)

  ghost predicate ValidDressing(x: Dressing) {
    && (x.padding.Some? ==> |x.padding.value| < 256)
    && (x.priority.Some? ==> |x.priority.value| == 5)
  }

  /** The payload and flags of a HEADERS frame (section 6.2 of RFC 9113). */
  function Dressed(fragment: seq<byte>, x: Dressing): (payload: seq<byte>)
    requires x.padding.Some? ==> |x.padding.value| < 256
  {
    (if x.padding.Some? then [|x.padding.value|] else [])
    + (if x.priority.Some? then x.priority.value else [])
    + fragment
    + (if x.padding.Some? then x.padding.value else [])
  }

  function DressedFlags(x: Dressing, endHeaders: bool): (flags: byte) {
    (if endHeaders then 4 else 0) + (if x.padding.Some? then 8 else 0) + (if x.priority.Some? then 32 else 0)
  }

  lemma FragmentOfDressed(fragment: seq<byte>, x: Dressing, endHeaders: bool)
    requires ValidDressing(x)
    ensures Fragment(Dressed(fragment, x), DressedFlags(x, endHeaders)) == Some(fragment)
  {
    var flags := DressedFlags(x, endHeaders);
    assert Padded(flags) <==> x.padding.Some?;
    assert Priority(flags) <==> x.priority.Some?;
    var payload := Dressed(fragment, x);
    var start := (if x.padding.Some? then 1 else 0) + (if x.priority.Some? then 5 else 0);
    assert payload[start..start + |fragment|] == fragment;
    FragmentIs(payload, flags, start, if x.padding.Some? then |x.padding.value| else 0, |fragment|);
  }

  /** The rest of a split block: CONTINUATION frames, the last of them ending it. */
  ghost function Continued(st: HeaderState, fragments: seq<seq<byte>>): (r: HeaderState)
    decreases |fragments|
  {
    if fragments == [] then st
    else Continued(OnContinuation(st, fragments[0], if |fragments| == 1 then 4 else 0), fragments[1..])
  }

  /** A whole block sent as one HEADERS frame and any number of CONTINUATION frames. */
  ghost function Received(st: HeaderState, fragments: seq<seq<byte>>, x: Dressing): (r: HeaderState)
    requires fragments != [] && ValidDressing(x)
  {
    var first := OnHeadersFrame(st, Dressed(fragments[0], x), DressedFlags(x, |fragments| == 1), true);
    Continued(first, fragments[1..])
  }

  lemma {:induction false} ContinuedDecodes(st: HeaderState, fragments: seq<seq<byte>>)
    requires st.awaiting && fragments != []
    ensures Continued(st, fragments).decoding
         == if st.decoding.failed then st.decoding
            else DecodeHeaders(st.block + Concat(fragments), st.decoding, true)
    decreases |fragments|
  {
    hide DecodeHeaders;
    var flags := if |fragments| == 1 then 4 else 0;
    assert EndHeaders(flags) <==> |fragments| == 1;
    if |fragments| == 1 {
      assert fragments == [fragments[0]];
      assert Concat(fragments) == fragments[0] + Concat([]) == fragments[0];
    } else {
      ContinuedDecodes(OnContinuation(st, fragments[0], flags), fragments[1..]);
      assert st.block + fragments[0] + Concat(fragments[1..]) == st.block + Concat(fragments);
    }
  }

  /**
   On a registered stream any padding, priority block and split gives what decoding the whole block gives,
   unless the stream is already in error: then a split block is dropped and the table does not follow it.
   */
  lemma FramingIsTransparent(st: HeaderState, fragments: seq<seq<byte>>, x: Dressing)
    requires fragments != [] && ValidDressing(x)
    ensures !st.decoding.failed || |fragments| == 1 ==>
              Received(st, fragments, x).decoding == DecodeHeaders(Concat(fragments), st.decoding, true)
    ensures st.decoding.failed && |fragments| > 1 ==> Received(st, fragments, x).decoding == st.decoding
  {
    hide DecodeHeaders, Fragment, Dressed, Continued;
    FragmentOfDressed(fragments[0], x, |fragments| == 1);
    assert EndHeaders(DressedFlags(x, |fragments| == 1)) <==> |fragments| == 1;
    if |fragments| == 1 {
      assert fragments == [fragments[0]];
      assert Concat(fragments) == fragments[0] + Concat([]) == fragments[0];
      NothingContinued(OnHeadersFrame(st, Dressed(fragments[0], x), DressedFlags(x, true), true));
    } else {
      ContinuedDecodes(st.(block := fragments[0], awaiting := true), fragments[1..]);
    }
  }

  lemma NothingContinued(st: HeaderState)
    ensures Continued(st, []) == st
  {
  }

  /** A stream in error that receives one inserted header in two fragments: the whole block would be inserted. */
  lemma SplitBlockLostOnFailedStream()
    ensures var st := HeaderState(Decoding([], Table([], 4096), true), [], false);
            var split, whole := [[0x40, 1, 97], [1, 98]], [[0x40, 1, 97, 1, 98]];
            && Received(st, split, Dressing(None, None)).decoding.table.entries == []
            && Received(st, whole, Dressing(None, None)).decoding.table.entries == [Entry([97], [98])]
  {
    hide DecodeHeaders, Received;
    var st := HeaderState(Decoding([], Table([], 4096), true), [], false);
    var split, whole: seq<seq<byte>> := [[0x40, 1, 97], [1, 98]], [[0x40, 1, 97, 1, 98]];
    FramingIsTransparent(st, split, Dressing(None, None));
    FramingIsTransparent(st, whole, Dressing(None, None));
    assert Concat(whole) == [0x40, 1, 97, 1, 98] by {
      assert whole[1..] == [];
    }
    SmallBlock(st.decoding);
  }

  lemma SmallBlock(d: Decoding)
    requires d.table == Table([], 4096) && d.headers == []
    ensures DecodeHeaders([0x40, 1, 97, 1, 98], d, true).table.entries == [Entry([97], [98])]
  {
    hide ReadField;
    var s: seq<byte> := [0x40, 1, 97, 1, 98];
    SmallField(s);
    assert s[5..] == [];
    assert d.(headers := []) == d;
    assert Apply(d.table, Insert(Entry([97], [98]))).entries == [Entry([97], [98])] by {
      assert TableSize([]) == 0;
    }
  }

  lemma SmallField(s: seq<byte>)
    requires s == [0x40, 1, 97, 1, 98]
    ensures ReadField(s, []) == Header(Entry([97], [98]), true, 5)
  {
    hide DecodeInteger, DecodeString, Lookup;
    SmallHead(s);
    SmallString(97, [1, 98]);
    SmallString(98, []);
    assert s[1..] == [1, 97] + [1, 98] && s[3..] == [1, 98] + [];
  }

  lemma SmallHead(s: seq<byte>)
    requires s != [] && s[0] == 0x40
    ensures DecodeInteger(s, 6) == Read(0, 1)
  {
    assert Low(0x40, 6) == 0 && Pow2(6) == 64;
  }

  lemma SmallString(c: byte, rest: seq<byte>)
    requires c != 0
    ensures DecodeString([1, c] + rest) == Some(Read([c], 2))
  {
    Pow2Values();
    assert IntegerForm(1, 7, 0) == [1];
    assert StringForm(Raw([c])) == [1, c];
    StringRoundTrip(Raw([c]), rest);
  }
}
