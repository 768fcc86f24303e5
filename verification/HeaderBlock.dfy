/** Decoding a header block (section 6 of RFC 7541) against the connection's dynamic table. */
module HeaderBlock {
  import opened Octets
  import opened HuffmanTable
  import opened HpackPrimitives
  import opened DynamicTable
  import opened StaticTable
  import Tree = HuffmanTree

  /** A stream keeps this many headers; decoding stops beyond it. */
  const RESPONSE_HEADERS_MAX_SIZE: nat := 64

  /** What one representation at the front of a block says. */
  datatype Field =
    | SizeUpdate(max: nat, used: nat)
    | BadIndex(used: nat)
    | Header(e: Entry, insert: bool, used: nat)
    | Broken

  /** The entry an index names: static entries first, then the dynamic table, newest first. */
  function Lookup(index: nat, table: seq<Entry>): (e: Entry) {
    if index == 0 then E("", "")
    else if index <= STATIC_ENTRIES then StaticEntry(index)
    else if index - STATIC_ENTRIES - 1 < |table| then table[index - STATIC_ENTRIES - 1]
    else E("error", "invalid index")
  }

  /** A literal field: the name by index or in place, then the value in place. */
  ghost function ReadLiteral(s: seq<byte>, table: seq<Entry>, n: nat, insert: bool): (f: Field)
    requires s != [] && 1 <= n <= 8
    ensures f.Broken? || (f.Header? && 1 <= f.used <= |s|)
  {
    var index := DecodeInteger(s, n);
    var name := if index.value > 0 then Some(Read(Lookup(index.value, table).name, 0))
                else DecodeString(s[index.used..]);
    if name == None then Broken
    else
      var used := index.used + name.value.used;
      var value := DecodeString(s[used..]);
      if value == None then Broken
      else Header(Entry(name.value.value, value.value.value), insert, used + value.value.used)
  }

  ghost function ReadField(s: seq<byte>, table: seq<Entry>): (f: Field)
    requires s != []
    ensures !f.Broken? ==> 1 <= f.used <= |s|
  {
    if 32 <= s[0] < 64 then
      var max := DecodeInteger(s, 5);
      SizeUpdate(max.value, max.used)
    else if s[0] >= 128 then
      var index := DecodeInteger(s, 7);
      if index.value == 0 || index.value > STATIC_ENTRIES + |table| then BadIndex(index.used)
      else Header(Lookup(index.value, table), false, index.used)
    else if s[0] >= 64 then ReadLiteral(s, table, 6, true)
    else ReadLiteral(s, table, 4, false)
  }

  /** The headers a stream has been given, the table, and whether the stream is in error. */
  datatype Decoding = Decoding(headers: seq<Entry>, table: Table, failed: bool)

  /** `keep` is false for the scratch stream that stands in for an unknown one. */
  ghost function DecodeBlock(s: seq<byte>, d: Decoding, keep: bool): (r: Decoding)
    decreases |s|
  {
    if s == [] then d
    else
      var f := ReadField(s, d.table.entries);
      match f
      case SizeUpdate(max, used) => DecodeBlock(s[used..], d.(table := Apply(d.table, Resize(max))), keep)
      case BadIndex(used) => DecodeBlock(s[used..], d.(failed := true), keep)
      case Broken => d.(failed := true)
      case Header(e, insert, used) =>
        var table := if insert then Apply(d.table, Insert(e)) else d.table;
        if !keep then DecodeBlock(s[used..], d.(table := table), keep)
        else if |d.headers| < RESPONSE_HEADERS_MAX_SIZE then
          DecodeBlock(s[used..], Decoding(d.headers + [e], table, d.failed), keep)
        else d.(table := table)
  }

  /** A HEADERS frame replaces the stream's headers, unless its block is empty. */
  ghost function DecodeHeaders(s: seq<byte>, d: Decoding, keep: bool): (r: Decoding) {
    if s == [] then d else DecodeBlock(s, d.(headers := []), keep)
  }

  // ---------------------------------------------------------------- the decoder over the shared context

  method LookupEntry(ctx: HpackContext, index: nat) returns (e: Entry)
    requires ctx.Valid()
    ensures e == Lookup(index, ctx.Contents().entries)
  {
    hide StaticEntry, E;
    if index == 0 {
      e := E("", "");
    } else if index <= STATIC_ENTRIES {
      e := StaticEntry(index);
    } else {
      var dynamicIndex := index - STATIC_ENTRIES - 1;
      if dynamicIndex < ctx.dynamicTableSize {
        e := ctx.dynamicTable[dynamicIndex];
      } else {
        e := E("error", "invalid index");
      }
    }
  }

  method ReadLiteralAt(t: CodeTable, nodes: array<Tree.Node>, ghost paths: seq<(nat, nat)>, ctx: HpackContext,
                       payload: seq<byte>, pos: nat, n: nat, insert: bool)
    returns (f: Field)
    requires t == HuffmanCodes() && Tree.TreeOf(t, |t|, nodes[..], paths) && ctx.Valid()
    requires pos < |payload| && 1 <= n <= 8
    ensures f == ReadLiteral(payload[pos..], ctx.Contents().entries, n, insert)
  {
    hide DecodeInteger, DecodeString, Lookup, Tree.TreeOf, Canonical;
    var index, pos' := ReadInteger(payload, pos, n);
    ghost var s := payload[pos..];
    assert s[pos' - pos..] == payload[pos'..];
    var name: Option<seq<byte>>;
    if index > 0 {
      var e := LookupEntry(ctx, index);
      name := Some(e.name);
    } else {
      name, pos' := ReadString(t, nodes, paths, payload, pos');
    }
    if name == None {
      return Broken;
    }
    assert s[pos' - pos..] == payload[pos'..];
    var value;
    value, pos' := ReadString(t, nodes, paths, payload, pos');
    if value == None {
      return Broken;
    }
    f := Header(Entry(name.value, value.value), insert, pos' - pos);
  }

  method ReadFieldAt(t: CodeTable, nodes: array<Tree.Node>, ghost paths: seq<(nat, nat)>, ctx: HpackContext,
                     payload: seq<byte>, pos: nat)
    returns (f: Field)
    requires t == HuffmanCodes() && Tree.TreeOf(t, |t|, nodes[..], paths) && ctx.Valid()
    requires pos < |payload|
    ensures f == ReadField(payload[pos..], ctx.Contents().entries)
  {
    hide DecodeInteger, ReadLiteral, Tree.TreeOf, Canonical, StaticEntry;
    var firstByte := payload[pos];
    if 32 <= firstByte < 64 {
      var maxSize, pos' := ReadInteger(payload, pos, 5);
      f := SizeUpdate(maxSize, pos' - pos);
    } else if firstByte >= 128 {
      var index, pos' := ReadInteger(payload, pos, 7);
      if index == 0 || (index > STATIC_ENTRIES && index - STATIC_ENTRIES - 1 >= ctx.dynamicTableSize) {
        f := BadIndex(pos' - pos);
      } else {
        var e := LookupEntry(ctx, index);
        f := Header(e, false, pos' - pos);
      }
    } else if firstByte >= 64 {
      f := ReadLiteralAt(t, nodes, paths, ctx, payload, pos, 6, true);
    } else {
      f := ReadLiteralAt(t, nodes, paths, ctx, payload, pos, 4, false);
    }
  }

  method DecodeHeadersFrame(t: CodeTable, nodes: array<Tree.Node>, ghost paths: seq<(nat, nat)>, ctx: HpackContext,
                            payload: seq<byte>, headers: seq<Entry>, failed: bool, keep: bool)
    returns (headers': seq<Entry>, failed': bool)
    requires t == HuffmanCodes() && Tree.TreeOf(t, |t|, nodes[..], paths) && ctx.Valid()
    modifies ctx, ctx.dynamicTable
    ensures ctx.Valid() && (ctx.dynamicTable == old(ctx.dynamicTable) || fresh(ctx.dynamicTable))
    ensures Decoding(headers', ctx.Contents(), failed')
         == DecodeHeaders(payload, Decoding(headers, old(ctx.Contents()), failed), keep)
  {
    hide ReadField, Apply, Tree.TreeOf, Canonical;
    headers', failed' := headers, failed;
    if |payload| == 0 {
      return;
    }
    headers' := [];
    var pos := 0;
    ghost var goal := DecodeBlock(payload, Decoding([], ctx.Contents(), failed), keep);
    assert payload[0..] == payload;
    while pos < |payload|
      invariant 0 <= pos <= |payload|
      invariant ctx.Valid() && (ctx.dynamicTable == old(ctx.dynamicTable) || fresh(ctx.dynamicTable))
      invariant goal == DecodeBlock(payload[pos..], Decoding(headers', ctx.Contents(), failed'), keep)
      decreases |payload| - pos
    {
      var f := ReadFieldAt(t, nodes, paths, ctx, payload, pos);
      ghost var s := payload[pos..];
      assert !f.Broken? ==> s[f.used..] == payload[pos + f.used..];
      match f {
        case SizeUpdate(max, used) =>
          ctx.UpdateMaxSize(max);
        case BadIndex(used) =>
          failed' := true;
        case Broken =>
          failed' := true;
          return;
        case Header(e, insert, used) =>
          if insert {
            ctx.Add(e.name, e.value);
          }
          if keep {
            if |headers'| < RESPONSE_HEADERS_MAX_SIZE {
              headers' := headers' + [e];
            } else {
              return;
            }
          }
      }
      pos := pos + f.used;
    }
  }
}
