/** Encoding a request's header list, and what a decoder of RFC 7541 makes of it. */
module RequestHeaders {
  import opened Octets
  import opened HuffmanTable
  import opened Huffman
  import HuffmanDomain
  import opened HpackPrimitives
  import opened DynamicTable
  import opened StaticTable
  import opened HeaderBlock
  import opened HpackSync

  datatype RequestHeader = RequestHeader(name: seq<byte>, value: seq<byte>, isPseudo: bool)

  // ---------------------------------------------------------------- names

  function LowerOctet(c: byte): (r: byte) {
    if 65 <= c <= 90 then c + 32 else c
  }

  function Lower(s: seq<byte>): (r: seq<byte>)
    ensures |r| == |s|
  {
    seq(|s|, i requires 0 <= i < |s| => LowerOctet(s[i]))
  }

  /** strcasecmp(a, b) == 0 */
  predicate SameName(a: seq<byte>, b: seq<byte>) {
    Lower(a) == Lower(b)
  }

  predicate Is(a: seq<byte>, literal: string) {
    SameName(a, Ascii(literal))
  }

  datatype NameRow = NameRow(name: seq<byte>, index: nat)

  const NAME_ROWS: nat := 47

  function R(name: string, index: nat): NameRow {
    NameRow(Ascii(name), index)
  }

  function RowsFrom0(k: int): NameRow {
    if k == 0 then R("accept", 19) else if k == 1 then R("accept-charset", 15) else
    if k == 2 then R("accept-encoding", 16) else if k == 3 then R("accept-language", 17) else
    if k == 4 then R("accept-ranges", 18) else if k == 5 then R("access-control-allow-origin", 20) else
    if k == 6 then R("age", 21) else if k == 7 then R("allow", 22) else if k == 8 then R("authorization", 23) else
    if k == 9 then R("cache-control", 24) else if k == 10 then R("content-disposition", 25) else
    if k == 11 then R("content-encoding", 26) else if k == 12 then R("content-language", 27) else
    if k == 13 then R("content-length", 28) else if k == 14 then R("content-location", 29) else
    if k == 15 then R("content-range", 30) else R("content-type", 31)
  }

  function RowsFrom17(k: int): NameRow {
    if k == 17 then R("cookie", 32) else if k == 18 then R("date", 33) else if k == 19 then R("etag", 34) else
    if k == 20 then R("expect", 35) else if k == 21 then R("expires", 36) else if k == 22 then R("from", 37) else
    if k == 23 then R("host", 38) else if k == 24 then R("if-match", 39) else
    if k == 25 then R("if-modified-since", 40) else if k == 26 then R("if-none-match", 41) else
    if k == 27 then R("if-range", 42) else if k == 28 then R("if-unmodified-since", 43) else
    if k == 29 then R("last-modified", 44) else if k == 30 then R("link", 45) else
    if k == 31 then R("location", 46) else R("max-forwards", 47)
  }

  function RowsFrom33(k: int): NameRow {
    if k == 33 then R("proxy-authenticate", 48) else if k == 34 then R("proxy-authorization", 49) else
    if k == 35 then R("range", 50) else if k == 36 then R("referer", 51) else if k == 37 then R("refresh", 52) else
    if k == 38 then R("retry-after", 53) else if k == 39 then R("server", 54) else
    if k == 40 then R("set-cookie", 55) else if k == 41 then R("strict-transport-security", 56) else
    if k == 42 then R("transfer-encoding", 57) else if k == 43 then R("user-agent", 58) else
    if k == 44 then R("vary", 59) else if k == 45 then R("via", 60) else R("www-authenticate", 61)
  }

  /** The encoder's own name table, by increasing name. */
  function RequestRow(k: int): NameRow {
    if k < 17 then RowsFrom0(k) else if k < 33 then RowsFrom17(k) else RowsFrom33(k)
  }

  /** The row a search for `name` among the first k rows finds, or None. */
  function FoundRow(name: seq<byte>, k: nat): (row: Option<NameRow>)
    ensures row.Some? ==> SameName(row.value.name, name) && exists j :: 0 <= j < k && row.value == RequestRow(j)
  {
    if k == 0 then None
    else if SameName(RequestRow(k - 1).name, name) then Some(RequestRow(k - 1))
    else FoundRow(name, k - 1)
  }

  ghost predicate RowMatches(k: nat) {
    var row := RequestRow(k);
    && 15 <= row.index <= STATIC_ENTRIES
    && StaticEntry(row.index).name == row.name
  }

  lemma RowsMatchFrom0(k: nat)
    requires 0 <= k < 9
    ensures RowMatches(k)
  {
    hide Ascii;
  }

  lemma RowsMatchFrom9(k: nat)
    requires 9 <= k < 17
    ensures RowMatches(k)
  {
    hide Ascii;
  }

  lemma RowsMatchFrom17(k: nat)
    requires 17 <= k < 25
    ensures RowMatches(k)
  {
    hide Ascii;
  }

  lemma RowsMatchFrom25(k: nat)
    requires 25 <= k < 33
    ensures RowMatches(k)
  {
    hide Ascii;
  }

  lemma RowsMatchFrom33(k: nat)
    requires 33 <= k < 40
    ensures RowMatches(k)
  {
    hide Ascii;
  }

  lemma RowsMatchFrom40(k: nat)
    requires 40 <= k < 47
    ensures RowMatches(k)
  {
    hide Ascii;
  }

  /** Both tables agree on every name the encoder may send by index. */
  lemma RowsMatchStaticTable(k: nat)
    requires k < NAME_ROWS
    ensures RowMatches(k)
  {
    hide RowMatches;
    if k < 9 {
      RowsMatchFrom0(k);
    } else if k < 17 {
      RowsMatchFrom9(k);
    } else if k < 25 {
      RowsMatchFrom17(k);
    } else if k < 33 {
      RowsMatchFrom25(k);
    } else if k < 40 {
      RowsMatchFrom33(k);
    } else {
      RowsMatchFrom40(k);
    }
  }

  // ---------------------------------------------------------------- what the encoder writes

  /** A Huffman coded string as the encoder writes it. */
  ghost predicate CodedText(t: CodeTable, text: seq<byte>, s: StringRep) {
    s.Coded? && s.text == text && s.octets == Encoded(t, text) && |s.octets| == HuffmanLength(t, text)
  }

  /** The representation chosen for one header. */
  ghost predicate Represents(t: CodeTable, h: RequestHeader, r: Rep) {
    if h.isPseudo then
      if Is(h.name, ":method") && Is(h.value, "GET") then r == Indexed(2)
      else if Is(h.name, ":method") && Is(h.value, "POST") then r == Indexed(3)
      else if Is(h.name, ":method") || Is(h.name, ":scheme") then
        r.NotIndexing? && r.name == InPlace(Raw(h.name)) && CodedText(t, h.value, r.value) && !r.never
      else if Is(h.name, ":authority") then
        r.Indexing? && r.name == ByIndex(1) && CodedText(t, h.value, r.value)
      else
        Is(h.name, ":path") && r.Indexing? && r.name == ByIndex(4) && CodedText(t, h.value, r.value)
    else
      match FoundRow(h.name, NAME_ROWS)
      case Some(row) => r.Indexing? && r.name == ByIndex(row.index) && CodedText(t, h.value, r.value)
      case None =>
        && r.NotIndexing? && !r.never && r.name.InPlace?
        && CodedText(t, h.name, r.name.name) && CodedText(t, h.value, r.value)
  }

  /** The header list that goes on the wire: everything but the connection header. */
  function Sent(headers: seq<RequestHeader>): (r: seq<RequestHeader>) {
    if headers == [] then []
    else if !headers[0].isPseudo && Is(headers[0].name, "connection") then Sent(headers[1..])
    else [headers[0]] + Sent(headers[1..])
  }

  ghost predicate RepresentsAll(t: CodeTable, headers: seq<RequestHeader>, reps: seq<Rep>) {
    |reps| == |headers| && forall i :: 0 <= i < |reps| ==> Represents(t, headers[i], reps[i])
  }

  predicate KnownPseudo(h: RequestHeader) {
    h.isPseudo ==> Is(h.name, ":method") || Is(h.name, ":scheme") || Is(h.name, ":authority") || Is(h.name, ":path")
  }

  /** The length in front of a name sent in place is written by hand, and is right except at 127 and past 254. */
  predicate NameLengthFits(t: CodeTable, h: RequestHeader) {
    var n := HuffmanLength(t, h.name);
    !h.isPseudo && FoundRow(h.name, NAME_ROWS) == None ==> n != 127 && n <= 254
  }

  /** The octets the encoder puts in front of a coded name of n octets; the second one is truncated. */
  function NameLengthOctets(n: nat): (s: seq<byte>) {
    if n < 128 then [128 + n] else [255, (n - 127) % 256]
  }

  lemma NameLengthIsInteger(n: nat)
    ensures NameLengthOctets(n) == IntegerForm(n, 7, 128) <==> n != 127 && n <= 254
  {
    Pow2Values();
    if n >= 127 {
      var m := n - 127;
      assert IntegerForm(n, 7, 128) == [255] + Continuation(m);
      assert NameLengthOctets(n) == if n == 127 then [255] else [255] + [m % 256];
      assert IntegerForm(n, 7, 128)[1..] == Continuation(m);
      if m >= 128 {
        assert |Continuation(m)| >= 2;
      }
    }
  }

  /** The octets written for a header: those of its representation, but the length of a coded name by hand. */
  ghost function Written(h: RequestHeader, r: Rep): (s: seq<byte>) {
    if !h.isPseudo && r.NotIndexing? && r.name.InPlace? && r.name.name.Coded? then
      var octets := r.name.name.octets;
      [0] + NameLengthOctets(|octets|) + octets + StringForm(r.value)
    else RepForm(r)
  }

  /** What is written for a header is its representation exactly when the length of its name fits. */
  lemma WrittenIsForm(t: CodeTable, h: RequestHeader, r: Rep)
    requires Represents(t, h, r)
    ensures Written(h, r) == RepForm(r) <==> NameLengthFits(t, h)
  {
    hide CodedText, FoundRow, Lower, NameLengthOctets, HuffmanLength, IsHuffmanForm;
    if !h.isPseudo && FoundRow(h.name, NAME_ROWS) == None {
      CodedTextLength(t, h.name, r.name.name);
      CodedTextLength(t, h.value, r.value);
      var octets := r.name.name.octets;
      NameLengthIsInteger(|octets|);
      ZeroForm();
      LengthAndOctets(NameLengthOctets(|octets|), IntegerForm(|octets|, 7, 128), octets, StringForm(r.value));
    }
  }

  lemma ZeroForm()
    ensures Pow2(4) == 16 && IntegerForm(0, 4, 0) == [0]
  {
    Pow2Values();
  }

  lemma CodedTextLength(t: CodeTable, text: seq<byte>, s: StringRep)
    requires CodedText(t, text, s)
    ensures s.Coded? && |s.octets| == HuffmanLength(t, text)
  {
  }

  /** Two strings of octets behind different lengths differ, whatever follows. */
  lemma LengthAndOctets(a: seq<byte>, b: seq<byte>, octets: seq<byte>, rest: seq<byte>)
    ensures [0] + a + octets + rest == [0] + (b + octets) + rest <==> a == b
  {
    var x, y := [0] + a + octets + rest, [0] + (b + octets) + rest;
    if x == y {
      assert |a| == |b|;
      assert a == x[1..|a| + 1] && b == y[1..|b| + 1];
    }
    assert a == b ==> x == y;
  }

  ghost function WrittenAll(headers: seq<RequestHeader>, reps: seq<Rep>): (s: seq<byte>)
    requires |headers| == |reps|
  {
    if headers == [] then []
    else
      var n := |headers| - 1;
      WrittenAll(headers[..n], reps[..n]) + Written(headers[n], reps[n])
  }

  method CodeText(t: CodeTable, text: seq<byte>) returns (octets: seq<byte>)
    ensures |octets| == HuffmanLength(t, text) && octets == Encoded(t, text)
  {
    hide CanonicalRow, HuffmanLength, IsHuffmanForm, Encoded;
    var buffer := new byte[HuffmanLength(t, text)];
    var n := HuffmanEncode(t, text, buffer);
    octets := buffer[..n];
  }

  method WriteHuffmanValue(t: CodeTable, value: seq<byte>, out: seq<byte>)
    returns (out': seq<byte>, ghost s: StringRep)
    ensures CodedText(t, value, s) && out' == out + StringForm(s)
  {
    hide CanonicalRow, Encoded, BitsOf, HuffmanBits;
    Pow2Values();
    if |value| == 0 {
      EmptyCodedText(t);
      s := Coded([], []);
      out' := out + [128];
      return;
    }
    var octets := CodeText(t, value);
    s := Coded(value, octets);
    out' := EncodeInteger(|octets|, 7, 128, out);
    out' := out' + octets;
  }

  lemma EmptyCodedText(t: CodeTable)
    ensures CodedText(t, [], Coded([], [])) && StringForm(Coded([], [])) == [128]
  {
    Pow2Values();
  }

  method EncodePseudoHeader(t: CodeTable, h: RequestHeader, out: seq<byte>)
    returns (ok: bool, out': seq<byte>, ghost r: Rep)
    requires h.isPseudo
    ensures ok <==> KnownPseudo(h)
    ensures ok ==> Represents(t, h, r) && out' == out + RepForm(r)
  {
    hide CanonicalRow, IntegerForm, CodedText, Lower;
    SmallIntegers();
    PseudoNames(h.name);
    ok, out', r := true, out, Indexed(1);
    if Is(h.name, ":method") {
      if Is(h.value, "GET") {
        r := Indexed(2);
        out' := out + [0x82];
      } else if Is(h.value, "POST") {
        r := Indexed(3);
        out' := out + [0x83];
      } else {
        out', r := EncodeInPlace(t, h, out);
      }
    } else if Is(h.name, ":scheme") {
      // the source looks for "https" and "http" in the name, where they never are
      out', r := EncodeInPlace(t, h, out);
    } else if Is(h.name, ":authority") || Is(h.name, ":path") {
      var staticIndex := if Is(h.name, ":authority") then 0x41 else 0x44;
      ghost var s;
      out', s := WriteHuffmanValue(t, h.value, out + [staticIndex]);
      r := Indexing(ByIndex(staticIndex - 0x40), s);
    } else {
      ok := false;
    }
  }

  /** The four pseudo-header names are different, and none is a scheme. */
  lemma PseudoNames(name: seq<byte>)
    ensures Is(name, ":method") ==> !Is(name, ":scheme") && !Is(name, ":authority") && !Is(name, ":path")
    ensures Is(name, ":scheme") ==> !Is(name, ":authority") && !Is(name, ":path")
    ensures Is(name, ":authority") ==> !Is(name, ":path")
    ensures Is(name, ":scheme") ==> !Is(name, "https") && !Is(name, "http")
  {
    assert Lower(Ascii(":method"))[1] == 109 && Lower(Ascii(":scheme"))[1] == 115;
  }

  lemma SmallIntegers()
    ensures Pow2(7) == 128 && Pow2(6) == 64 && Pow2(5) == 32 && Pow2(4) == 16
    ensures IntegerForm(2, 7, 128) == [0x82] && IntegerForm(3, 7, 128) == [0x83]
    ensures IntegerForm(1, 6, 64) == [0x41] && IntegerForm(4, 6, 64) == [0x44]
    ensures IntegerForm(0, 4, 0) == [0]
  {
    Pow2Values();
  }

  /** A literal without indexing whose raw name is written in place. */
  method EncodeInPlace(t: CodeTable, h: RequestHeader, out: seq<byte>) returns (out': seq<byte>, ghost r: Rep)
    ensures r.NotIndexing? && r.name == InPlace(Raw(h.name)) && CodedText(t, h.value, r.value) && !r.never
    ensures out' == out + RepForm(r)
  {
    hide CanonicalRow, IntegerForm, CodedText;
    SmallIntegers();
    out' := out + [0];
    out' := EncodeInteger(|h.name|, 7, 0, out');
    out' := out' + h.name;
    ghost var s;
    out', s := WriteHuffmanValue(t, h.value, out');
    r := NotIndexing(InPlace(Raw(h.name)), s, false);
  }

  method EncodeHeader(t: CodeTable, h: RequestHeader, out: seq<byte>) returns (out': seq<byte>, ghost r: Rep)
    requires !h.isPseudo
    ensures Represents(t, h, r)
    ensures out' == out + Written(h, r)
  {
    hide CanonicalRow, IntegerForm, CodedText, Encoded, HuffmanLength, FoundRow, RequestRow, RowMatches;
    SmallIntegers();
    var found := FoundRow(h.name, NAME_ROWS);
    ghost var name: NameRep;
    if found.Some? {
      out' := out + [(0x40 + found.value.index) % 256];
      name := ByIndex(found.value.index);
      FoundIndex(h.name);
    } else {
      var huffName := CodeText(t, h.name);
      out' := out + [0] + NameLengthOctets(|huffName|) + huffName;
      name := InPlace(Coded(h.name, huffName));
      CodedTextIs(t, h.name, huffName);
    }
    ghost var head := out';
    var huffValue := CodeText(t, h.value);
    CodedTextIs(t, h.value, huffValue);
    out' := EncodeInteger(|huffValue|, 7, 128, out');
    out' := out' + huffValue;
    ghost var value := Coded(h.value, huffValue);
    r := if found.Some? then Indexing(name, value) else NotIndexing(name, value, false);
    assert out' == head + StringForm(value);
  }

  lemma CodedTextIs(t: CodeTable, text: seq<byte>, octets: seq<byte>)
    requires |octets| == HuffmanLength(t, text) && octets == Encoded(t, text)
    ensures CodedText(t, text, Coded(text, octets))
  {
  }

  lemma FoundIndex(name: seq<byte>)
    requires FoundRow(name, NAME_ROWS).Some?
    ensures var row := FoundRow(name, NAME_ROWS).value;
            && 15 <= row.index <= STATIC_ENTRIES && StaticEntry(row.index).name == row.name
            && Pow2(6) == 64 && IntegerForm(row.index, 6, 64) == [0x40 + row.index]
            && SameName(row.name, name)
  {
    hide RequestRow, StaticEntry;
    var j :| 0 <= j < NAME_ROWS && FoundRow(name, NAME_ROWS).value == RequestRow(j);
    RowsMatchStaticTable(j);
    Pow2Values();
  }

  /** The HPACK block of a request; an unknown pseudo-header stops it with an error. */
  method BuildHeaderBlock(t: CodeTable, headers: seq<RequestHeader>)
    returns (ok: bool, out: seq<byte>, ghost reps: seq<Rep>)
    ensures ok <==> forall i :: 0 <= i < |headers| ==> KnownPseudo(headers[i])
    ensures ok ==> RepresentsAll(t, Sent(headers), reps)
    ensures ok ==> |Sent(headers)| == |reps| && out == WrittenAll(Sent(headers), reps)
    ensures ok && (forall h :: h in Sent(headers) ==> NameLengthFits(t, h)) ==> out == BlockForm(reps)
    ensures ok && t == HuffmanCodes() && Encodable(t, headers) ==> UnderstoodAs(out, ReceivedAll(Sent(headers)))
  {
    hide CanonicalRow, Represents, RepForm, KnownPseudo, NameLengthFits, Lower, Written, Encodable, UnderstoodAs;
    out, reps := [], [];
    assert headers[..0] == [];
    for i := 0 to |headers|
      invariant forall j :: 0 <= j < i ==> KnownPseudo(headers[j])
      invariant RepresentsAll(t, Sent(headers[..i]), reps)
      invariant |Sent(headers[..i])| == |reps| && out == WrittenAll(Sent(headers[..i]), reps)
    {
      var h := headers[i];
      assert headers[..i + 1] == headers[..i] + [h];
      SentAppend(headers[..i], h);
      if !h.isPseudo && Is(h.name, "connection") {
        RegularIsKnown(h);
        assert Sent(headers[..i]) + [] == Sent(headers[..i]);
        continue;
      }
      ghost var r;
      if h.isPseudo {
        ok, out, r := EncodePseudoHeader(t, h, out);
        if !ok {
          return;
        }
        PseudoIsForm(h, r);
      } else {
        RegularIsKnown(h);
        out, r := EncodeHeader(t, h, out);
      }
      WrittenAllAppend(Sent(headers[..i]), reps, h, r);
      reps := reps + [r];
    }
    assert headers[..|headers|] == headers;
    if forall h :: h in Sent(headers) ==> NameLengthFits(t, h) {
      WrittenIsBlock(t, Sent(headers), reps);
    }
    ok := true;
    if t == HuffmanCodes() && Encodable(t, headers) {
      BlockIsUnderstood(t, headers, reps);
    }
  }

  lemma RegularIsKnown(h: RequestHeader)
    requires !h.isPseudo
    ensures KnownPseudo(h)
  {
  }

  lemma PseudoIsForm(h: RequestHeader, r: Rep)
    requires h.isPseudo
    ensures Written(h, r) == RepForm(r)
  {
  }

  lemma WrittenAllAppend(headers: seq<RequestHeader>, reps: seq<Rep>, h: RequestHeader, r: Rep)
    requires |headers| == |reps|
    ensures WrittenAll(headers + [h], reps + [r]) == WrittenAll(headers, reps) + Written(h, r)
  {
    assert (headers + [h])[..|headers|] == headers && (reps + [r])[..|reps|] == reps;
  }

  /** When every name's length fits, what is written is the block of the representations. */
  lemma {:induction false} WrittenIsBlock(t: CodeTable, headers: seq<RequestHeader>, reps: seq<Rep>)
    requires RepresentsAll(t, headers, reps) && forall h :: h in headers ==> NameLengthFits(t, h)
    ensures WrittenAll(headers, reps) == BlockForm(reps)
  {
    hide Represents, Written, RepForm, NameLengthFits;
    if headers != [] {
      var n := |headers| - 1;
      assert headers[n] in headers && forall h :: h in headers[..n] ==> h in headers;
      WrittenIsBlock(t, headers[..n], reps[..n]);
      WrittenIsForm(t, headers[n], reps[n]);
      BlockFormAppend(reps[..n], reps[n]);
      assert reps[..n] + [reps[n]] == reps;
    }
  }

  lemma {:induction false} SentAppend(headers: seq<RequestHeader>, h: RequestHeader)
    ensures Sent(headers + [h])
         == Sent(headers) + (if !h.isPseudo && Is(h.name, "connection") then [] else [h])
  {
    hide Is;
    if headers == [] {
      assert headers + [h] == [h];
    } else {
      assert (headers + [h])[1..] == headers[1..] + [h];
      SentAppend(headers[1..], h);
    }
  }

  lemma {:induction false} BlockFormAppend(reps: seq<Rep>, r: Rep)
    ensures BlockForm(reps + [r]) == BlockForm(reps) + RepForm(r)
  {
    hide RepForm;
    if reps == [] {
      assert reps + [r] == [r];
    } else {
      assert (reps + [r])[1..] == reps[1..] + [r];
      BlockFormAppend(reps[1..], r);
    }
  }

  // ---------------------------------------------------------------- what the peer decodes

  /** Text that comes back as it is written, by CodedComesBackIff. */
  ghost predicate ComesBack(t: CodeTable, s: seq<byte>) {
    CarriedText(s) && NoBitLost(t, s)
  }

  /** Text short enough to delimit. */
  predicate ShortText(t: CodeTable, s: seq<byte>) {
    |s| < 0x8_0000_0000 && HuffmanLength(t, s) < 0x8_0000_0000
  }

  ghost predicate WireText(t: CodeTable, s: seq<byte>) {
    ComesBack(t, s) && ShortText(t, s)
  }

  /** Text over HTAB, SP and VCHAR is. */
  lemma TextIsWireText(t: CodeTable, s: seq<byte>)
    requires TextString(s) && ShortText(t, s)
    ensures WireText(t, s)
  {
    hide NoBitLost, HuffmanLength;
    TextLosesNoBit(t, s);
    assert forall c :: c in s ==> IsText(c);
  }

  /** A header as the peer sees it: names of the static table in lower case, GET and POST in upper case. */
  ghost function Received(h: RequestHeader): (e: Entry) {
    if h.isPseudo then
      if Is(h.name, ":method") && Is(h.value, "GET") then StaticEntry(2)
      else if Is(h.name, ":method") && Is(h.value, "POST") then StaticEntry(3)
      else if Is(h.name, ":authority") then Entry(StaticEntry(1).name, h.value)
      else if Is(h.name, ":path") then Entry(StaticEntry(4).name, h.value)
      else Entry(h.name, h.value)
    else
      match FoundRow(h.name, NAME_ROWS)
      case Some(row) => Entry(StaticEntry(if 1 <= row.index <= STATIC_ENTRIES then row.index else 1).name, h.value)
      case None => Entry(h.name, h.value)
  }

  /** Nothing but letter case changes on the way, and in the value only for the methods GET and POST. */
  lemma ReceivedIsSent(h: RequestHeader)
    requires KnownPseudo(h)
    ensures SameName(Received(h).name, h.name)
    ensures Received(h).value != h.value ==>
              h.isPseudo && Is(h.name, ":method") && SameName(Received(h).value, h.value)
  {
    hide FoundRow, RequestRow, Lower, Ascii;
    if !h.isPseudo && FoundRow(h.name, NAME_ROWS).Some? {
      FoundIndex(h.name);
    }
    PseudoEntries();
  }

  lemma PseudoEntries()
    ensures StaticEntry(1).name == Ascii(":authority") && StaticEntry(4).name == Ascii(":path")
    ensures StaticEntry(2) == Entry(Ascii(":method"), Ascii("GET"))
    ensures StaticEntry(3) == Entry(Ascii(":method"), Ascii("POST"))
  {
    hide Ascii;
  }

  lemma RepIsValid(t: CodeTable, h: RequestHeader, r: Rep, table: seq<Entry>)
    requires t == HuffmanCodes() && KnownPseudo(h) && Represents(t, h, r)
    requires WireText(t, h.name) && WireText(t, h.value)
    ensures ValidRep(r, table) && HeaderOf(r, table) == [Received(h)]
  {
    hide CanonicalRow, StaticEntry, FoundRow, RequestRow, Lower, Ascii, IsHuffmanForm, HuffmanLength, IsTable;
    hide Encoded, NoBitLost;
    NoLossIsForm(t, h.name);
    NoLossIsForm(t, h.value);
    PseudoNames(h.name);
    if !h.isPseudo && FoundRow(h.name, NAME_ROWS).Some? {
      FoundIndex(h.name);
    }
  }

  ghost function ReceivedAll(headers: seq<RequestHeader>): (r: seq<Entry>)
    ensures |r| == |headers|
  {
    seq(|headers|, i requires 0 <= i < |headers| => Received(headers[i]))
  }

  lemma {:induction false} RepsAreValid(t: CodeTable, headers: seq<RequestHeader>, reps: seq<Rep>, table: Table)
    requires t == HuffmanCodes() && RepresentsAll(t, headers, reps)
    requires forall i :: 0 <= i < |headers| ==>
               KnownPseudo(headers[i]) && WireText(t, headers[i].name) && WireText(t, headers[i].value)
    ensures ValidBlock(reps, table) && HeadersOf(reps, table) == ReceivedAll(headers)
    decreases |reps|
  {
    hide CanonicalRow, Represents, Received, KnownPseudo, WireText, ValidRep, HeaderOf, TableAfter, IsTable;
    if reps != [] {
      RepIsValid(t, headers[0], reps[0], table.entries);
      RepsAreValid(t, headers[1..], reps[1..], TableAfter(reps[0], table));
      assert ReceivedAll(headers) == [Received(headers[0])] + ReceivedAll(headers[1..]);
    }
  }

  /**
   Decoding what the request encoder emits, against any table and on a stream with room, returns the request's
   header list in order: only letter case and the connection header differ.
   */
  lemma RequestRoundTrip(t: CodeTable, headers: seq<RequestHeader>, reps: seq<Rep>, table: Table)
    requires t == HuffmanCodes() && RepresentsAll(t, Sent(headers), reps)
    requires forall h :: h in headers ==> KnownPseudo(h) && WireText(t, h.name) && WireText(t, h.value)
    requires |Sent(headers)| <= RESPONSE_HEADERS_MAX_SIZE
    requires TableSize(table.entries) <= table.max <= MAX_TABLE_SIZE
    ensures var d := DecodeBlock(BlockForm(reps), Decoding([], table, false), true);
            d.headers == ReceivedAll(Sent(headers)) && !d.failed
  {
    hide CanonicalRow, Represents, Received, KnownPseudo, WireText, DecodeBlock, IsTable;
    SentIsSubset(headers);
    RepsAreValid(t, Sent(headers), reps, table);
    BlockRoundTrip(reps, Decoding([], table, false), true);
    assert [] + HeadersOf(reps, table) == HeadersOf(reps, table);
  }

  /** Header text whose in-place names have fitting lengths, and no more headers than a stream takes. */
  ghost predicate Encodable(t: CodeTable, headers: seq<RequestHeader>) {
    && (forall h :: h in headers ==> WireText(t, h.name) && WireText(t, h.value))
    && (forall h :: h in Sent(headers) ==> NameLengthFits(t, h))
    && |Sent(headers)| <= RESPONSE_HEADERS_MAX_SIZE
  }

  /** Whatever its table, a decoder makes these headers of the octets. */
  ghost predicate UnderstoodAs(out: seq<byte>, headers: seq<Entry>) {
    forall table: Table :: TableSize(table.entries) <= table.max <= MAX_TABLE_SIZE ==>
      var d := DecodeBlock(out, Decoding([], table, false), true); d.headers == headers && !d.failed
  }

  lemma BlockIsUnderstood(t: CodeTable, headers: seq<RequestHeader>, reps: seq<Rep>)
    requires t == HuffmanCodes() && RepresentsAll(t, Sent(headers), reps) && Encodable(t, headers)
    requires forall h :: h in headers ==> KnownPseudo(h)
    ensures forall h :: h in Sent(headers) ==> NameLengthFits(t, h)
    ensures UnderstoodAs(BlockForm(reps), ReceivedAll(Sent(headers)))
  {
    hide CanonicalRow, Represents, Received, KnownPseudo, WireText, DecodeBlock, IsTable, NameLengthFits;
    forall table: Table | TableSize(table.entries) <= table.max <= MAX_TABLE_SIZE
      ensures var d := DecodeBlock(BlockForm(reps), Decoding([], table, false), true);
              d.headers == ReceivedAll(Sent(headers)) && !d.failed
    {
      RequestRoundTrip(t, headers, reps, table);
    }
  }

  lemma {:induction false} SentIsSubset(headers: seq<RequestHeader>)
    ensures forall h :: h in Sent(headers) <==>
              h in headers && !(!h.isPseudo && Is(h.name, "connection"))
  {
    hide Is;
    if headers != [] {
      SentIsSubset(headers[1..]);
      assert forall h :: h in headers <==> h == headers[0] || h in headers[1..];
    }
  }

  // ---------------------------------------------------------------- one header, exactly

  /** Where a decoder takes an in-place name to end is where it ends, exactly when its length fits. */
  lemma NameDelimitedIff(octets: seq<byte>, rest: seq<byte>)
    ensures var n := |octets|; var head := NameLengthOctets(n);
            var length := DecodeInteger(head + octets + rest, 7);
            length.used + length.value == |head| + n <==> n != 127 && n <= 254
  {
    hide Low;
    Pow2Values();
    var n := |octets|;
    var head := NameLengthOctets(n);
    var s := head + octets + rest;
    LowOfFlagged(s[0]);
    if n == 127 {
      assert s[1..] == octets + rest;
    } else if n >= 128 {
      assert s[1..] == [(n - 127) % 256] + (octets + rest);
      assert s[1..][1..] == octets + rest;
      LongNameLength(n, octets + rest);
    }
  }

  lemma LowOfFlagged(c: byte)
    ensures c >= 128 ==> Low(c, 7) == c - 128
  {
    Pow2Values();
    HuffmanDomain.ShrLowAre(c, 7);
  }

  /** A second length octet of 128 or more takes octets of the name along. */
  lemma LongNameLength(n: nat, more: seq<byte>)
    requires n >= 128 && more != []
    ensures var c := DecodeContinuation([(n - 127) % 256] + more, 0);
            1 + c.used + 127 + c.value == 2 + n <==> n <= 254
  {
    var x := (n - 127) % 256;
    var s := [x] + more;
    assert s[1..] == more;
    var m := (n - 127) / 256;
    assert n == 127 + 256 * m + x;
    var later := DecodeContinuation(more, 1);
    assert 1 <= later.used <= 4;
    assert DecodeContinuation(s, 0)
        == if x < 128 then Read(x, 1) else Read(x % 128 + 128 * later.value, 1 + later.used);
    hide DecodeContinuation;
  }

  /** A literal is read over exactly its own octets; what its strings read as is what CodedComesBackIff says of them. */
  lemma CodedReads(t: CodeTable, text: seq<byte>, s: StringRep, rest: seq<byte>) returns (read: seq<byte>)
    requires t == HuffmanCodes() && CodedText(t, text, s) && ShortText(t, text)
    ensures DecodeString(StringForm(s) + rest) == Some(Read(read, |StringForm(s)|))
    ensures read == text <==> ComesBack(t, text)
  {
    hide Decoded, Encoded, IntegerForm, DecodeString, CString, NoBitLost, HuffmanLength;
    StringBody(s.octets, 128, rest);
    read := CString(Decoded(s.octets));
    CodedComesBackIff(text, rest);
  }

  /** The name a decoder reads ends where the name ends. */
  ghost predicate NameFound(h: RequestHeader, r: Rep, rest: seq<byte>) {
    !h.isPseudo && r.NotIndexing? && r.name.InPlace? && r.name.name.Coded? ==>
      var n, s := |r.name.name.octets|, Written(h, r) + rest;
      var length := DecodeInteger(s[1..], 7);
      length.used + length.value == |NameLengthOctets(n)| + n
  }

  /** What the decoder must find: the header as received, over exactly its octets. */
  ghost predicate ReadsBack(h: RequestHeader, r: Rep, table: seq<Entry>, rest: seq<byte>) {
    var s := Written(h, r) + rest;
    s != [] && ReadField(s, table) == Header(Received(h), r.Indexing?, |Written(h, r)|)
  }

  ghost predicate StringsComeBack(t: CodeTable, h: RequestHeader) {
    if h.isPseudo && Is(h.name, ":method") && (Is(h.value, "GET") || Is(h.value, "POST")) then true
    else ComesBack(t, h.value) && (!h.isPseudo && FoundRow(h.name, NAME_ROWS) == None ==> ComesBack(t, h.name))
  }

  /** A literal whose strings read as x and y is read as the header of x and y. */
  lemma LiteralReads(name: NameRep, value: StringRep, x: seq<byte>, y: seq<byte>, table: seq<Entry>, n: nat,
                     prefix: byte, insert: bool, rest: seq<byte>)
    requires (n, prefix) in {(6, 64), (4, 0)}
    requires match name
             case ByIndex(i) => 1 <= i <= STATIC_ENTRIES && StaticEntry(i).name == x
             case InPlace(s) =>
               DecodeString(StringForm(s) + (StringForm(value) + rest)) == Some(Read(x, |StringForm(s)|))
    requires DecodeString(StringForm(value) + rest) == Some(Read(y, |StringForm(value)|))
    ensures prefix + Pow2(n) <= 256
    ensures var s := LiteralForm(name, value, n, prefix);
            && s != []
            && ReadLiteral(s + rest, table, n, insert) == Header(Entry(x, y), insert, |s|)
            && prefix <= (s + rest)[0] < prefix + Pow2(n)
  {
    hide IntegerForm, DecodeInteger, StringForm, DecodeString, StaticEntry;
    Pow2Values();
    var index := if name.ByIndex? then name.index else 0;
    var head, tail := IntegerForm(index, n, prefix), StringForm(value) + rest;
    var middle := if name.ByIndex? then [] else StringForm(name.name);
    HeadRoundTrip(index, n, prefix, middle + tail);
    assert [] + tail == tail;
    Regrouped(head, middle, StringForm(value), rest);
  }

  lemma Regrouped(head: seq<byte>, middle: seq<byte>, last: seq<byte>, rest: seq<byte>)
    ensures var s := head + middle + last;
            && s + rest == head + (middle + (last + rest)) && (s + rest)[|head|..] == middle + (last + rest)
            && (s + rest)[|head| + |middle|..] == last + rest
    ensures head + [] == head
  {
    var s := head + middle + last;
    assert s + rest == head + (middle + (last + rest));
  }

  /** The methods GET and POST are one octet. */
  lemma IndexedReads(i: nat, table: seq<Entry>, rest: seq<byte>)
    requires i == 2 || i == 3
    ensures RepForm(Indexed(i)) != []
    ensures ReadField(RepForm(Indexed(i)) + rest, table) == Header(StaticEntry(i), false, |RepForm(Indexed(i))|)
  {
    hide IntegerForm, DecodeInteger, StaticEntry;
    Pow2Values();
    HeadRoundTrip(i, 7, 128, rest);
  }

  /** A header whose name is sent by an index of the static table. */
  lemma IndexedNameReadsIff(t: CodeTable, i: nat, text: seq<byte>, value: StringRep, table: seq<Entry>, rest: seq<byte>)
    requires t == HuffmanCodes() && 1 <= i <= STATIC_ENTRIES && CodedText(t, text, value) && ShortText(t, text)
    ensures var form := RepForm(Indexing(ByIndex(i), value));
            && form != []
            && (ReadField(form + rest, table) == Header(Entry(StaticEntry(i).name, text), true, |form|)
                <==> ComesBack(t, text))
  {
    hide IntegerForm, DecodeInteger, LiteralForm, StaticEntry, CodedText, ReadLiteral, ComesBack, HuffmanLength;
    var y := CodedReads(t, text, value, rest);
    Pow2Values();
    LiteralReads(ByIndex(i), value, StaticEntry(i).name, y, table, 6, 64, true, rest);
  }

  /** A header whose name is sent in place, raw or coded. */
  lemma InPlaceReadsIff(t: CodeTable, name: seq<byte>, n: StringRep, text: seq<byte>, value: StringRep,
                        table: seq<Entry>, rest: seq<byte>)
    requires t == HuffmanCodes() && CodedText(t, text, value) && ShortText(t, text) && ShortText(t, name)
    requires if n.Coded? then CodedText(t, name, n) else n == Raw(name) && 0 !in name
    ensures var form := RepForm(NotIndexing(InPlace(n), value, false));
            && form != []
            && (ReadField(form + rest, table) == Header(Entry(name, text), false, |form|)
                <==> ComesBack(t, text) && (n.Coded? ==> ComesBack(t, name)))
  {
    hide IntegerForm, DecodeInteger, LiteralForm, CodedText, ReadLiteral, ComesBack, HuffmanLength, StringForm;
    var y := CodedReads(t, text, value, rest);
    var x := name;
    if n.Coded? {
      x := CodedReads(t, name, n, StringForm(value) + rest);
    } else {
      StringRoundTrip(n, StringForm(value) + rest);
    }
    Pow2Values();
    LiteralReads(InPlace(n), value, x, y, table, 4, 0, false, rest);
  }

  lemma PseudoNameIsText(name: seq<byte>, literal: string)
    requires Is(name, literal) && literal in {":method", ":scheme"}
    ensures |name| == 7 && 0 !in name
  {
    assert |name| == |Lower(name)| == |Ascii(literal)|;
    forall i | 0 <= i < |name|
      ensures name[i] != 0
    {
      assert Lower(name)[i] == Lower(Ascii(literal))[i] != 0;
    }
  }

  /**
   What is written for a header is delimited where it ends and read back as the header sent, up to letter case, exactly
   when the length of its in-place name fits and its strings come back.
   */
  lemma HeaderComesBackIff(t: CodeTable, h: RequestHeader, r: Rep, table: seq<Entry>, rest: seq<byte>)
    requires t == HuffmanCodes() && KnownPseudo(h) && Represents(t, h, r)
    requires ShortText(t, h.name) && ShortText(t, h.value)
    ensures NameFound(h, r, rest) && ReadsBack(h, r, table, rest)
       <==> NameLengthFits(t, h) && StringsComeBack(t, h)
  {
    hide CodedText, Lower, RepForm, ReadField, StaticEntry, RequestRow, ComesBack, HuffmanLength, FoundRow, Ascii;
    hide DecodeInteger, NameLengthOctets;
    PseudoNames(h.name);
    if h.isPseudo {
      PseudoIsForm(h, r);
      if Is(h.name, ":method") && (Is(h.value, "GET") || Is(h.value, "POST")) {
        IndexedReads(r.index, table, rest);
      } else if r.Indexing? {
        IndexedNameReadsIff(t, r.name.index, h.value, r.value, table, rest);
      } else {
        PseudoNameIsText(h.name, if Is(h.name, ":method") then ":method" else ":scheme");
        InPlaceReadsIff(t, h.name, Raw(h.name), h.value, r.value, table, rest);
      }
    } else if FoundRow(h.name, NAME_ROWS).Some? {
      FoundIndex(h.name);
      IndexedNameReadsIff(t, r.name.index, h.value, r.value, table, rest);
    } else {
      NameInPlace(t, h, r, rest);
      WrittenIsForm(t, h, r);
      InPlaceReadsIff(t, h.name, r.name.name, h.value, r.value, table, rest);
    }
  }

  lemma NameInPlace(t: CodeTable, h: RequestHeader, r: Rep, rest: seq<byte>)
    requires !h.isPseudo && FoundRow(h.name, NAME_ROWS) == None && Represents(t, h, r)
    ensures r.name.InPlace? && r.name.name.Coded?
    ensures NameFound(h, r, rest) <==> NameLengthFits(t, h)
  {
    hide FoundRow, DecodeInteger, NameLengthOctets, Encoded, HuffmanLength, StringForm;
    var octets := r.name.name.octets;
    var more := StringForm(r.value) + rest;
    NameDelimitedIff(octets, more);
    assert (Written(h, r) + rest)[1..] == NameLengthOctets(|octets|) + octets + more;
  }

  // ---------------------------------------------------------------- the octets a header starts with

  /** The pseudo-headers the encoder knows. */
  lemma KnownPseudoIff(h: RequestHeader)
    ensures KnownPseudo(h)
       <==> !h.isPseudo || exists name :: name in {":method", ":scheme", ":authority", ":path"}
                                         && SameName(h.name, Ascii(name))
  {
    hide SameName, Ascii;
  }

  /** What enters the peer's table: authority, path and every header with a name of the static table; no other. */
  lemma FirstOctets(t: CodeTable, h: RequestHeader, r: Rep)
    requires KnownPseudo(h) && Represents(t, h, r)
    ensures Written(h, r) != []
    ensures h.isPseudo && Is(h.name, ":authority") ==> Written(h, r)[0] == 0x41
    ensures h.isPseudo && Is(h.name, ":path") ==> Written(h, r)[0] == 0x44
    ensures h.isPseudo && Is(h.name, ":scheme") ==> Written(h, r)[0] == 0
    ensures h.isPseudo && Is(h.name, ":method") && Is(h.value, "GET") ==> Written(h, r) == [0x82]
    ensures h.isPseudo && Is(h.name, ":method") && !Is(h.value, "GET") && Is(h.value, "POST") ==>
              Written(h, r) == [0x83]
    ensures !h.isPseudo && FoundRow(h.name, NAME_ROWS).Some? ==>
              0x40 <= Written(h, r)[0] && Written(h, r)[0] as int - 0x40 == FoundRow(h.name, NAME_ROWS).value.index
    ensures !h.isPseudo && FoundRow(h.name, NAME_ROWS) == None ==> Written(h, r)[0] == 0
  {
    hide CodedText, Lower, Ascii, FoundRow, IntegerForm, StringForm, NameLengthOctets, StaticEntry;
    SmallIntegers();
    PseudoNames(h.name);
    GetIsNotPost(h.value);
    if !h.isPseudo && FoundRow(h.name, NAME_ROWS).Some? {
      FoundIndex(h.name);
    } else if !h.isPseudo {
      InPlaceIsCoded(t, h, r);
    }
  }

  /** Every name from the fifteenth entry of the static table on, in any letter case, is sent by an index. */
  lemma StaticNameIsFound(i: nat, name: seq<byte>)
    requires 15 <= i <= 61 && SameName(name, StaticEntry(i).name)
    ensures FoundRow(name, NAME_ROWS).Some?
  {
    hide RequestRow, StaticEntry, SameName, Ascii;
    var k := if i == 19 then 0 else if i < 19 then i - 14 else i - 15;
    RowOfIndex(i);
    RowsMatchStaticTable(k);
    SameNameTurns(name, StaticEntry(i).name);
    RowIsFound(name, k, NAME_ROWS);
  }

  lemma RowOfIndex(i: nat)
    requires 15 <= i <= 61
    ensures RequestRow(if i == 19 then 0 else if i < 19 then i - 14 else i - 15).index == i
  {
    hide Ascii;
  }

  lemma SameNameTurns(a: seq<byte>, b: seq<byte>)
    requires SameName(a, b)
    ensures SameName(b, a)
  {
    hide Lower;
  }

  lemma {:induction false} RowIsFound(name: seq<byte>, j: nat, k: nat)
    requires j < k && SameName(RequestRow(j).name, name)
    ensures FoundRow(name, k).Some?
    decreases k
  {
    hide RequestRow, SameName;
    if j < k - 1 {
      RowIsFound(name, j, k - 1);
    }
  }

  lemma InPlaceIsCoded(t: CodeTable, h: RequestHeader, r: Rep)
    requires !h.isPseudo && FoundRow(h.name, NAME_ROWS) == None && Represents(t, h, r)
    ensures r.NotIndexing? && r.name.InPlace? && r.name.name.Coded?
  {
    hide FoundRow;
  }

  lemma GetIsNotPost(value: seq<byte>)
    ensures Is(value, "GET") ==> !Is(value, "POST")
  {
    assert |Ascii("GET")| == 3 && |Ascii("POST")| == 4;
  }
}
