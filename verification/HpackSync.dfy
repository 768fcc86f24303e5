/**
 An encoder of section 6 of RFC 7541, free in every choice it makes, and the decoder that follows it:
 headers and dynamic tables agree over a whole connection.
 */
module HpackSync {
  import opened Octets
  import opened HpackPrimitives
  import opened DynamicTable
  import opened StaticTable
  import opened HeaderBlock

  /** Table sizes are 32-bit settings. */
  const MAX_TABLE_SIZE: nat := 0xFFFF_FFFF

  datatype NameRep = ByIndex(index: nat) | InPlace(name: StringRep)

  datatype Rep =
    | Indexed(index: nat)
    | Indexing(name: NameRep, value: StringRep)
    | NotIndexing(name: NameRep, value: StringRep, never: bool)
    | UpdateSize(max: nat)

  // ---------------------------------------------------------------- the encoder

  ghost predicate ValidIndex(i: nat, table: seq<Entry>) {
    1 <= i <= STATIC_ENTRIES + |table|
  }

  ghost predicate ValidName(r: NameRep, table: seq<Entry>) {
    match r
    case ByIndex(i) => ValidIndex(i, table)
    case InPlace(s) => ValidString(s)
  }

  /** What the encoder may send when its own table is `table`. */
  ghost predicate ValidRep(r: Rep, table: seq<Entry>) {
    match r
    case Indexed(i) => ValidIndex(i, table)
    case Indexing(name, value) => ValidName(name, table) && ValidString(value)
    case NotIndexing(name, value, _) => ValidName(name, table) && ValidString(value)
    case UpdateSize(max) => max <= MAX_TABLE_SIZE
  }

  /** The entry at a valid index of the combined address space (section 2.3.3 of RFC 7541). */
  ghost function EntryAt(i: nat, table: seq<Entry>): (e: Entry)
    requires ValidIndex(i, table)
  {
    (seq(STATIC_ENTRIES, k requires 0 <= k < STATIC_ENTRIES => StaticEntry(k + 1)) + table)[i - 1]
  }

  ghost function NameOf(r: NameRep, table: seq<Entry>): (name: seq<byte>)
    requires ValidName(r, table)
  {
    match r
    case ByIndex(i) => EntryAt(i, table).name
    case InPlace(s) => s.text
  }

  /** The header a representation stands for, if any. */
  ghost function HeaderOf(r: Rep, table: seq<Entry>): (h: seq<Entry>)
    requires ValidRep(r, table)
  {
    match r
    case Indexed(i) => [EntryAt(i, table)]
    case Indexing(name, value) => [Entry(NameOf(name, table), value.text)]
    case NotIndexing(name, value, _) => [Entry(NameOf(name, table), value.text)]
    case UpdateSize(_) => []
  }

  /** What sending a representation does to the encoder's table. */
  ghost function TableAfter(r: Rep, t: Table): (t': Table)
    requires ValidRep(r, t.entries)
  {
    match r
    case Indexing(_, _) => Apply(t, Insert(HeaderOf(r, t.entries)[0]))
    case UpdateSize(max) => Apply(t, Resize(max))
    case _ => t
  }

  ghost predicate ValidBlock(reps: seq<Rep>, t: Table) {
    reps != [] ==> ValidRep(reps[0], t.entries) && ValidBlock(reps[1..], TableAfter(reps[0], t))
  }

  ghost function HeadersOf(reps: seq<Rep>, t: Table): (h: seq<Entry>)
    requires ValidBlock(reps, t)
  {
    if reps == [] then [] else HeaderOf(reps[0], t.entries) + HeadersOf(reps[1..], TableAfter(reps[0], t))
  }

  ghost function TableAfterBlock(reps: seq<Rep>, t: Table): (t': Table)
    requires ValidBlock(reps, t)
  {
    if reps == [] then t else TableAfterBlock(reps[1..], TableAfter(reps[0], t))
  }

  // ---------------------------------------------------------------- its octets

  ghost function LiteralForm(name: NameRep, value: StringRep, n: nat, prefix: byte): (s: seq<byte>)
    requires 1 <= n <= 8 && prefix + Pow2(n) <= 256
  {
    match name
    case ByIndex(i) => IntegerForm(i, n, prefix) + StringForm(value)
    case InPlace(text) => IntegerForm(0, n, prefix) + StringForm(text) + StringForm(value)
  }

  ghost function RepForm(r: Rep): (s: seq<byte>) {
    Pow2Values();
    match r
    case Indexed(i) => IntegerForm(i, 7, 128)
    case Indexing(name, value) => LiteralForm(name, value, 6, 64)
    case NotIndexing(name, value, never) => LiteralForm(name, value, 4, if never then 16 else 0)
    case UpdateSize(max) => IntegerForm(max, 5, 32)
  }

  ghost function BlockForm(reps: seq<Rep>): (s: seq<byte>) {
    if reps == [] then [] else RepForm(reps[0]) + BlockForm(reps[1..])
  }

  // ---------------------------------------------------------------- one representation

  lemma LookupIsEntryAt(i: nat, table: seq<Entry>)
    requires ValidIndex(i, table)
    ensures Lookup(i, table) == EntryAt(i, table)
  {
    hide StaticEntry, E;
  }

  /** A table within a 32-bit size has indices the decoder's integers reach. */
  lemma {:induction false} EntriesBelowSize(t: seq<Entry>)
    ensures 32 * |t| <= TableSize(t)
  {
    if t != [] {
      EntriesBelowSize(t[..|t| - 1]);
    }
  }

  lemma IndexBelowLimit(i: nat, t: Table, n: nat)
    requires ValidIndex(i, t.entries) && TableSize(t.entries) <= t.max <= MAX_TABLE_SIZE && 1 <= n <= 8
    ensures i < IntegerLimit(n)
  {
    EntriesBelowSize(t.entries);
  }

  /** Reading back the integer a representation starts with. */
  lemma HeadRoundTrip(v: nat, n: nat, prefix: byte, rest: seq<byte>)
    requires (n, prefix) in {(7, 128), (6, 64), (4, 0), (4, 16), (5, 32)}
    requires v < IntegerLimit(n)
    ensures prefix + Pow2(n) <= 256
    ensures var form := IntegerForm(v, n, prefix);
            && DecodeInteger(form + rest, n) == Read(v, |form|)
            && prefix <= (form + rest)[0] < prefix + Pow2(n)
  {
    hide IntegerForm, DecodeInteger;
    Pow2Values();
    LowOfPrefix();
    IntegerHead(v, n, prefix);
    IntegerRoundTrip(v, n, prefix, rest);
  }

  lemma LiteralRoundTrip(name: NameRep, value: StringRep, t: Table, n: nat, prefix: byte, insert: bool,
                         rest: seq<byte>)
    requires (n, prefix) in {(6, 64), (4, 0), (4, 16)}
    requires ValidName(name, t.entries) && ValidString(value)
    requires TableSize(t.entries) <= t.max <= MAX_TABLE_SIZE
    ensures prefix + Pow2(n) <= 256
    ensures var s := LiteralForm(name, value, n, prefix);
            && s != []
            && ReadLiteral(s + rest, t.entries, n, insert)
            == Header(Entry(NameOf(name, t.entries), value.text), insert, |s|)
            && prefix <= (s + rest)[0] < prefix + Pow2(n)
  {
    hide IntegerForm, DecodeInteger, StringForm, DecodeString, Lookup, EntryAt, ValidString;
    Pow2Values();
    var s := LiteralForm(name, value, n, prefix);
    StringRoundTrip(value, rest);
    match name {
      case ByIndex(i) =>
        IndexBelowLimit(i, t, n);
        LookupIsEntryAt(i, t.entries);
        HeadRoundTrip(i, n, prefix, StringForm(value) + rest);
        var head := IntegerForm(i, n, prefix);
        assert s + rest == head + (StringForm(value) + rest);
        assert (s + rest)[|head|..] == StringForm(value) + rest;
      case InPlace(text) =>
        HeadRoundTrip(0, n, prefix, StringForm(text) + (StringForm(value) + rest));
        StringRoundTrip(text, StringForm(value) + rest);
        var head := IntegerForm(0, n, prefix);
        assert s + rest == head + (StringForm(text) + (StringForm(value) + rest));
        assert (s + rest)[|head|..] == StringForm(text) + (StringForm(value) + rest);
        assert (s + rest)[|head| + |StringForm(text)|..] == StringForm(value) + rest;
    }
  }

  /** The field the decoder must find where a representation was written. */
  ghost function FieldOf(r: Rep, t: Table): (f: Field)
    requires ValidRep(r, t.entries)
  {
    match r
    case UpdateSize(max) => SizeUpdate(max, |RepForm(r)|)
    case _ => Header(HeaderOf(r, t.entries)[0], r.Indexing?, |RepForm(r)|)
  }

  lemma RepRoundTrip(r: Rep, t: Table, rest: seq<byte>)
    requires ValidRep(r, t.entries) && TableSize(t.entries) <= t.max <= MAX_TABLE_SIZE
    ensures RepForm(r) != []
    ensures ReadField(RepForm(r) + rest, t.entries) == FieldOf(r, t)
  {
    hide IntegerForm, DecodeInteger, LiteralForm, ReadLiteral, Lookup, EntryAt, ValidString;
    Pow2Values();
    match r {
      case Indexed(i) =>
        IndexBelowLimit(i, t, 7);
        LookupIsEntryAt(i, t.entries);
        HeadRoundTrip(i, 7, 128, rest);
      case Indexing(name, value) =>
        LiteralRoundTrip(name, value, t, 6, 64, true, rest);
      case NotIndexing(name, value, never) =>
        LiteralRoundTrip(name, value, t, 4, if never then 16 else 0, false, rest);
      case UpdateSize(max) =>
        HeadRoundTrip(max, 5, 32, rest);
    }
  }

  lemma TableStaysValid(r: Rep, t: Table)
    requires ValidRep(r, t.entries) && TableSize(t.entries) <= t.max <= MAX_TABLE_SIZE
    ensures TableSize(TableAfter(r, t).entries) <= TableAfter(r, t).max <= MAX_TABLE_SIZE
  {
    match r {
      case Indexing(_, _) => RunStaysWithinMaximum(t, [Insert(HeaderOf(r, t.entries)[0])]);
      case UpdateSize(max) => RunStaysWithinMaximum(t, [Resize(max)]);
      case _ =>
    }
  }

  // ---------------------------------------------------------------- an encoder with a smaller table

  ghost predicate TableValid(t: Table) {
    TableSize(t.entries) <= t.max <= MAX_TABLE_SIZE
  }

  /**
   An encoder may keep its table below the size it was allowed (section 4.2 of RFC 7541). The decoder's table follows it
   when the encoder's entries stand at its front: every index the encoder may use then names the same entry.
   */
  ghost predicate Follows(enc: Table, dec: Table) {
    enc.entries <= dec.entries && enc.max <= dec.max && TableValid(enc) && TableValid(dec)
  }

  /** A representation of the encoder is valid for the decoder, stands for the same header, and is followed. */
  lemma RepFollows(r: Rep, enc: Table, dec: Table)
    requires ValidRep(r, enc.entries) && Follows(enc, dec)
    ensures ValidRep(r, dec.entries) && HeaderOf(r, dec.entries) == HeaderOf(r, enc.entries)
    ensures Follows(TableAfter(r, enc), TableAfter(r, dec))
  {
    hide Inserted, Evicted, ValidString, StaticEntry, TableSize;
    TableStaysValid(r, enc);
    TableStaysValid(r, dec);
    match r {
      case Indexing(_, _) =>
        InsertedFollows(enc.entries, dec.entries, HeaderOf(r, enc.entries)[0], enc.max, dec.max);
      case UpdateSize(max) =>
        EvictedFollows(enc.entries, dec.entries, max, max);
      case _ =>
    }
  }

  /** So is a whole block. */
  lemma {:induction false} BlockFollows(reps: seq<Rep>, enc: Table, dec: Table)
    requires ValidBlock(reps, enc) && Follows(enc, dec)
    ensures ValidBlock(reps, dec) && HeadersOf(reps, dec) == HeadersOf(reps, enc)
    ensures Follows(TableAfterBlock(reps, enc), TableAfterBlock(reps, dec))
    decreases |reps|
  {
    hide ValidRep, HeaderOf, TableAfter, TableValid;
    if reps != [] {
      RepFollows(reps[0], enc, dec);
      BlockFollows(reps[1..], TableAfter(reps[0], enc), TableAfter(reps[0], dec));
    }
  }

  lemma FollowsThrough(a: Table, b: Table, c: Table)
    requires Follows(a, b) && Follows(b, c)
    ensures Follows(a, c)
  {
  }

  /** A size update makes the tables equal if and only if no further entry of the decoder's fits the new size. */
  lemma ResizeAlignsIff(enc: Table, dec: Table, max: nat)
    requires Follows(enc, dec) && max <= MAX_TABLE_SIZE
    ensures TableAfter(UpdateSize(max), enc) == TableAfter(UpdateSize(max), dec)
       <==> enc.entries == dec.entries || TableSize(dec.entries[..|enc.entries| + 1]) > max
  {
    hide TableSize, Evicted;
    EvictedSameIff(enc.entries, dec.entries, max);
  }

  // ---------------------------------------------------------------- a block, a connection

  /** A block decodes to the encoder's headers and leaves the encoder's table. */
  lemma {:induction false} BlockRoundTrip(reps: seq<Rep>, d: Decoding, keep: bool)
    requires ValidBlock(reps, d.table)
    requires TableSize(d.table.entries) <= d.table.max <= MAX_TABLE_SIZE
    requires keep ==> |d.headers| + |HeadersOf(reps, d.table)| <= RESPONSE_HEADERS_MAX_SIZE
    ensures DecodeBlock(BlockForm(reps), d, keep)
         == Decoding(if keep then d.headers + HeadersOf(reps, d.table) else d.headers,
                     TableAfterBlock(reps, d.table), d.failed)
    decreases |reps|
  {
    hide RepForm, ReadField, Apply, EntryAt, TableSize;
    if reps == [] {
      assert d.headers + [] == d.headers;
    } else {
      var rest := BlockForm(reps[1..]);
      RepRoundTrip(reps[0], d.table, rest);
      TableStaysValid(reps[0], d.table);
      var s := BlockForm(reps);
      assert s[|RepForm(reps[0])|..] == rest;
      var h := HeaderOf(reps[0], d.table.entries);
      var d' := Decoding(if keep then d.headers + h else d.headers, TableAfter(reps[0], d.table), d.failed);
      BlockRoundTrip(reps[1..], d', keep);
      assert d.headers + HeadersOf(reps, d.table) == (d.headers + h) + HeadersOf(reps[1..], d'.table);
      assert !reps[0].UpdateSize? ==> h == [h[0]];
      assert reps[0].UpdateSize? ==> d.headers + h == d.headers;
    }
  }

  /** One header block of a connection: sent on a known stream holding `prior` headers, or on an unknown one. */
  datatype Block = Block(reps: seq<Rep>, known: bool, prior: seq<Entry>)

  ghost predicate ValidRun(blocks: seq<Block>, t: Table) {
    blocks != [] ==> ValidBlock(blocks[0].reps, t) && ValidRun(blocks[1..], TableAfterBlock(blocks[0].reps, t))
  }

  /** No block on a known stream has more headers than a stream keeps. */
  ghost predicate RunFits(blocks: seq<Block>, t: Table)
    requires ValidRun(blocks, t)
  {
    blocks != [] ==>
      && (blocks[0].known ==> |HeadersOf(blocks[0].reps, t)| <= RESPONSE_HEADERS_MAX_SIZE)
      && RunFits(blocks[1..], TableAfterBlock(blocks[0].reps, t))
  }

  /** What the encoder meant: the headers each stream holds and its own table, after every block. */
  ghost function Meant(blocks: seq<Block>, t: Table): (r: seq<Decoding>)
    requires ValidRun(blocks, t)
  {
    if blocks == [] then []
    else
      var b, t' := blocks[0], TableAfterBlock(blocks[0].reps, t);
      var headers := if !b.known then [] else if b.reps == [] then b.prior else HeadersOf(b.reps, t);
      [Decoding(headers, t', false)] + Meant(blocks[1..], t')
  }

  /** What the decoder makes of the octets; an unknown stream is decoded into a scratch stream. */
  ghost function Understood(blocks: seq<Block>, t: Table): (r: seq<Decoding>) {
    if blocks == [] then []
    else
      var b := blocks[0];
      var d := DecodeHeaders(BlockForm(b.reps), Decoding(if b.known then b.prior else [], t, false), b.known);
      [d] + Understood(blocks[1..], d.table)
  }

  /** The same headers after every block, and the decoder's table always follows the encoder's. */
  ghost predicate Agree(u: seq<Decoding>, m: seq<Decoding>) {
    && |u| == |m|
    && (u != [] ==>
          && u[0].headers == m[0].headers && u[0].failed == m[0].failed && Follows(m[0].table, u[0].table)
          && Agree(u[1..], m[1..]))
  }

  /**
   Over any connection, from tables that follow one another, every block gives exactly the headers sent if and only
   if no block on a known stream has more headers than a stream keeps; from equal tables, the tables then stay equal.
   */
  lemma {:induction false} ConnectionStaysInSync(blocks: seq<Block>, enc: Table, dec: Table)
    requires ValidRun(blocks, enc) && Follows(enc, dec)
    ensures Agree(Understood(blocks, dec), Meant(blocks, enc)) <==> RunFits(blocks, enc)
    ensures enc == dec ==> (Understood(blocks, dec) == Meant(blocks, enc) <==> RunFits(blocks, enc))
    decreases |blocks|
  {
    hide DecodeBlock, TableSize, HeadersOf, BlockForm, TableAfterBlock, ValidBlock;
    if blocks != [] {
      var b := blocks[0];
      var t := TableAfterBlock(b.reps, enc);
      var u, m := Understood(blocks, dec), Meant(blocks, enc);
      var us, ms := Understood(blocks[1..], u[0].table), Meant(blocks[1..], t);
      assert u == [u[0]] + us && m == [m[0]] + ms;
      BlockFollows(b.reps, enc, dec);
      if b.known && |HeadersOf(b.reps, enc)| > RESPONSE_HEADERS_MAX_SIZE {
        BlockFormEmpty(b.reps, dec);
        AllHeadersIff(b.reps, Decoding(b.prior, dec, false));
        assert u[0].headers != m[0].headers;
      } else {
        BlockUnderstood(b.reps, enc, dec, b.prior, b.known);
        ConnectionStaysInSync(blocks[1..], t, u[0].table);
        assert us == u[1..] && ms == m[1..];
      }
    }
  }

  /** One block, whole, on a stream that keeps its headers or on one that keeps none. */
  lemma BlockUnderstood(reps: seq<Rep>, enc: Table, dec: Table, prior: seq<Entry>, known: bool)
    requires ValidBlock(reps, enc) && Follows(enc, dec)
    requires known ==> |HeadersOf(reps, enc)| <= RESPONSE_HEADERS_MAX_SIZE
    ensures var d := DecodeHeaders(BlockForm(reps), Decoding(if known then prior else [], dec, false), known);
            && d.headers == (if !known then [] else if reps == [] then prior else HeadersOf(reps, enc))
            && !d.failed && Follows(TableAfterBlock(reps, enc), d.table)
            && (enc == dec ==> d.table == TableAfterBlock(reps, enc))
  {
    hide DecodeBlock, TableSize, HeadersOf, BlockForm, TableAfterBlock, ValidBlock;
    BlockFollows(reps, enc, dec);
    BlockFormEmpty(reps, dec);
    NoRepsNoChange(reps, enc);
    BlockRoundTrip(reps, Decoding([], dec, false), known);
    assert [] + HeadersOf(reps, dec) == HeadersOf(reps, dec);
  }

  // ---------------------------------------------------------------- where a stream stops

  /** How many representations a stream with room for that many headers decodes: none behind the first without room. */
  function Reached(reps: seq<Rep>, room: nat): (n: nat)
    ensures n <= |reps|
  {
    if reps == [] then 0
    else if reps[0].UpdateSize? then 1 + Reached(reps[1..], room)
    else if room == 0 then 1
    else 1 + Reached(reps[1..], room - 1)
  }

  /** A block is its first n representations and then the others, on the table those leave. */
  lemma {:induction false} SplitBlock(reps: seq<Rep>, n: nat, t: Table)
    requires n <= |reps| && ValidBlock(reps, t)
    ensures ValidBlock(reps[..n], t) && ValidBlock(reps[n..], TableAfterBlock(reps[..n], t))
    ensures TableAfterBlock(reps, t) == TableAfterBlock(reps[n..], TableAfterBlock(reps[..n], t))
    decreases n
  {
    hide TableAfter, ValidRep;
    if n == 0 {
      assert reps[..0] == [] && reps[0..] == reps;
    } else {
      assert reps[..n][1..] == reps[1..][..n - 1] && reps[1..][n - 1..] == reps[n..];
      SplitBlock(reps[1..], n - 1, TableAfter(reps[0], t));
    }
  }

  /** What the stream does not decode, and the table that is left then. */
  ghost function LeftTable(reps: seq<Rep>, n: nat, t: Table): (t': Table)
    requires n <= |reps| && ValidBlock(reps, t)
  {
    SplitBlock(reps, n, t);
    TableAfterBlock(reps[..n], t)
  }

  /** The representations behind the first n leave the table as the first n left it. */
  ghost predicate RestChangesNothing(reps: seq<Rep>, n: nat, t: Table)
    requires n <= |reps| && ValidBlock(reps, t)
  {
    SplitBlock(reps, n, t);
    TableAfterBlock(reps[n..], LeftTable(reps, n, t)) == LeftTable(reps, n, t)
  }

  /** What a stream keeps of its headers. */
  function FirstHeaders(all: seq<Entry>): (r: seq<Entry>) {
    if |all| <= RESPONSE_HEADERS_MAX_SIZE then all else all[..RESPONSE_HEADERS_MAX_SIZE]
  }

  /** What decoding the first representation leaves to decode. */
  lemma FirstDecoded(reps: seq<Rep>, d: Decoding)
    requires reps != [] && ValidBlock(reps, d.table)
    requires TableSize(d.table.entries) <= d.table.max <= MAX_TABLE_SIZE
    ensures var h, t := HeaderOf(reps[0], d.table.entries), TableAfter(reps[0], d.table);
            DecodeBlock(BlockForm(reps), d, true)
            == if h != [] && |d.headers| >= RESPONSE_HEADERS_MAX_SIZE then d.(table := t)
               else DecodeBlock(BlockForm(reps[1..]), Decoding(d.headers + h, t, d.failed), true)
  {
    hide RepForm, ReadField, Apply, EntryAt, TableSize;
    var rest := BlockForm(reps[1..]);
    RepRoundTrip(reps[0], d.table, rest);
    assert BlockForm(reps)[|RepForm(reps[0])|..] == rest;
    hide BlockForm;
    var h := HeaderOf(reps[0], d.table.entries);
    assert reps[0].UpdateSize? ==> d.headers + h == d.headers;
    assert !reps[0].UpdateSize? ==> h == [h[0]];
  }

  /** The representations behind the first n leave a table that the one the first n left still follows. */
  ghost predicate RestIsFollowed(reps: seq<Rep>, n: nat, t: Table)
    requires n <= |reps| && ValidBlock(reps, t)
  {
    SplitBlock(reps, n, t);
    Follows(TableAfterBlock(reps[n..], LeftTable(reps, n, t)), LeftTable(reps, n, t))
  }

  /** Then so does a decoder's, that decoded the first n only. */
  lemma LeftFollows(reps: seq<Rep>, n: nat, enc: Table, dec: Table)
    requires n <= |reps| && ValidBlock(reps, enc) && Follows(enc, dec) && RestIsFollowed(reps, n, enc)
    ensures ValidBlock(reps, dec) && Follows(TableAfterBlock(reps, enc), LeftTable(reps, n, dec))
  {
    hide Follows, ValidBlock, TableAfterBlock;
    SplitBlock(reps, n, enc);
    BlockFollows(reps, enc, dec);
    SplitBlock(reps, n, dec);
    BlockFollows(reps[..n], enc, dec);
    FollowsThrough(TableAfterBlock(reps, enc), LeftTable(reps, n, enc), LeftTable(reps, n, dec));
  }

  /** A known stream gets the first 64 headers of a block, and the table what comes up to the next header. */
  lemma {:induction false} BlockStopsAtLimit(reps: seq<Rep>, d: Decoding)
    requires ValidBlock(reps, d.table) && |d.headers| <= RESPONSE_HEADERS_MAX_SIZE
    requires TableSize(d.table.entries) <= d.table.max <= MAX_TABLE_SIZE
    ensures var all := d.headers + HeadersOf(reps, d.table);
            DecodeBlock(BlockForm(reps), d, true)
            == Decoding(FirstHeaders(all),
                        LeftTable(reps, Reached(reps, RESPONSE_HEADERS_MAX_SIZE - |d.headers|), d.table), d.failed)
    decreases |reps|
  {
    hide BlockForm, DecodeBlock, FirstHeaders, HeadersOf, HeaderOf, LeftTable, TableAfter, TableSize, ValidRep;
    var room := RESPONSE_HEADERS_MAX_SIZE - |d.headers|;
    if reps == [] {
      NothingToDecode(d);
    } else {
      FirstDecoded(reps, d);
      FirstHeader(reps, d);
      TableStaysValid(reps[0], d.table);
      var h, t := HeaderOf(reps[0], d.table.entries), TableAfter(reps[0], d.table);
      LeftTableLater(reps, Reached(reps, room) - 1, d.table);
      if h != [] && room == 0 {
        LeftAtOnce(reps[1..], t);
      } else {
        BlockStopsAtLimit(reps[1..], Decoding(d.headers + h, t, d.failed));
      }
    }
  }

  lemma NothingToDecode(d: Decoding)
    requires |d.headers| <= RESPONSE_HEADERS_MAX_SIZE
    ensures DecodeBlock(BlockForm([]), d, true) == d && LeftTable([], 0, d.table) == d.table
    ensures FirstHeaders(d.headers + HeadersOf([], d.table)) == d.headers
  {
    assert d.headers + [] == d.headers;
  }

  lemma FirstHeader(reps: seq<Rep>, d: Decoding)
    requires reps != [] && ValidBlock(reps, d.table) && |d.headers| <= RESPONSE_HEADERS_MAX_SIZE
    ensures var h, t := HeaderOf(reps[0], d.table.entries), TableAfter(reps[0], d.table);
            && |h| == (if reps[0].UpdateSize? then 0 else 1)
            && d.headers + HeadersOf(reps, d.table) == (d.headers + h) + HeadersOf(reps[1..], t)
            && (|d.headers| == RESPONSE_HEADERS_MAX_SIZE ==>
                  FirstHeaders(d.headers + HeadersOf(reps, d.table)) == d.headers)
  {
    hide TableAfter, EntryAt, ValidRep;
  }

  lemma LeftAtOnce(reps: seq<Rep>, t: Table)
    requires ValidBlock(reps, t)
    ensures LeftTable(reps, 0, t) == t
  {
  }

  lemma LeftTableLater(reps: seq<Rep>, n: nat, t: Table)
    requires reps != [] && n < |reps| && ValidBlock(reps, t)
    ensures LeftTable(reps, n + 1, t) == LeftTable(reps[1..], n, TableAfter(reps[0], t))
  {
    hide TableAfter, ValidRep;
    SplitBlock(reps, n + 1, t);
    assert reps[..n + 1][1..] == reps[1..][..n];
  }

  /** A known stream gets all headers of a block if and only if there are at most 64. */
  lemma AllHeadersIff(reps: seq<Rep>, d: Decoding)
    requires reps != [] && ValidBlock(reps, d.table)
    requires TableSize(d.table.entries) <= d.table.max <= MAX_TABLE_SIZE
    ensures DecodeHeaders(BlockForm(reps), d, true).headers == HeadersOf(reps, d.table)
       <==> |HeadersOf(reps, d.table)| <= 64
  {
    hide DecodeBlock, HeadersOf, TableSize, ValidBlock, LeftTable;
    BlockFormEmpty(reps, d.table);
    BlockStopsAtLimit(reps, d.(headers := []));
    assert [] + HeadersOf(reps, d.table) == HeadersOf(reps, d.table);
  }

  /** The table follows a block on a known stream if and only if what the stream does not decode changes nothing. */
  lemma TableFollowsIff(reps: seq<Rep>, d: Decoding)
    requires ValidBlock(reps, d.table)
    requires TableSize(d.table.entries) <= d.table.max <= MAX_TABLE_SIZE
    ensures DecodeHeaders(BlockForm(reps), d, true).table == TableAfterBlock(reps, d.table)
       <==> RestChangesNothing(reps, Reached(reps, RESPONSE_HEADERS_MAX_SIZE), d.table)
  {
    hide DecodeBlock, HeadersOf, TableSize, BlockForm;
    BlockFormEmpty(reps, d.table);
    BlockStopsAtLimit(reps, d.(headers := []));
    SplitBlock(reps, Reached(reps, RESPONSE_HEADERS_MAX_SIZE), d.table);
  }

  /**
   A stream decodes a block to its end if and only if it has room for its headers, or lacks it only for the very last
   representation.
   */
  lemma {:induction false} ReachedAllIff(reps: seq<Rep>, room: nat, t: Table)
    requires ValidBlock(reps, t)
    ensures var n := |HeadersOf(reps, t)|;
            Reached(reps, room) == |reps| <==> n <= room || (n == room + 1 && !reps[|reps| - 1].UpdateSize?)
    decreases |reps|
  {
    hide TableAfter, ValidRep, EntryAt;
    if reps != [] {
      var rest, t' := reps[1..], TableAfter(reps[0], t);
      assert |HeaderOf(reps[0], t.entries)| == if reps[0].UpdateSize? then 0 else 1;
      assert rest != [] ==> rest[|rest| - 1] == reps[|reps| - 1];
      if reps[0].UpdateSize? {
        ReachedAllIff(rest, room, t');
      } else if room > 0 {
        ReachedAllIff(rest, room - 1, t');
      } else {
        NoHeadersIff(rest, t');
      }
    }
  }

  /** A block without headers is empty or ends with a size update. */
  lemma {:induction false} NoHeadersIff(reps: seq<Rep>, t: Table)
    requires ValidBlock(reps, t)
    ensures HeadersOf(reps, t) == [] && reps != [] ==> reps[|reps| - 1].UpdateSize?
    decreases |reps|
  {
    hide TableAfter, ValidRep, EntryAt;
    if |reps| > 1 {
      assert reps[1..][|reps| - 2] == reps[|reps| - 1];
      NoHeadersIff(reps[1..], TableAfter(reps[0], t));
    }
  }

  lemma BlockFormEmpty(reps: seq<Rep>, t: Table)
    requires ValidBlock(reps, t) && TableSize(t.entries) <= t.max <= MAX_TABLE_SIZE
    ensures BlockForm(reps) == [] <==> reps == []
    ensures reps == [] ==> HeadersOf(reps, t) == []
  {
    hide RepForm, ReadField, TableSize;
    if reps != [] {
      RepRoundTrip(reps[0], t, []);
    }
  }

  lemma {:induction false} BlockKeepsBound(reps: seq<Rep>, t: Table)
    requires ValidBlock(reps, t) && TableSize(t.entries) <= t.max <= MAX_TABLE_SIZE
    ensures var t' := TableAfterBlock(reps, t); TableSize(t'.entries) <= t'.max <= MAX_TABLE_SIZE
    decreases |reps|
  {
    hide TableSize, Apply;
    if reps != [] {
      TableStaysValid(reps[0], t);
      BlockKeepsBound(reps[1..], TableAfter(reps[0], t));
    }
  }

  lemma NoRepsNoChange(reps: seq<Rep>, t: Table)
    requires ValidBlock(reps, t)
    ensures reps == [] ==> TableAfterBlock(reps, t) == t
  {
  }
}
