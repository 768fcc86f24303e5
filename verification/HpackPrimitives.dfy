/** HPACK integers and strings (sections 5.1 and 5.2 of RFC 7541), read from the rest of a header block. */
module HpackPrimitives {
  import opened Octets
  import opened HuffmanTable
  import opened Huffman
  import opened HuffmanDomain
  import Tree = HuffmanTree

  datatype Option<+T> = None | Some(value: T)

  /** What a cursor read, and the octets it took. */
  datatype Read<+T> = Read(value: T, used: nat)

  // ---------------------------------------------------------------- integers

  /** Continuation octets carry seven bits each, least significant group first. */
  function Continuation(v: nat): (s: seq<byte>)
    ensures 0 < |s|
  {
    if v < 128 then [v] else [128 + v % 128] + Continuation(v / 128)
  }

  /** The form of section 5.1 of RFC 7541; `prefix` holds the bits above the integer's `n` bits. */
  function IntegerForm(v: nat, n: nat, prefix: byte): (s: seq<byte>)
    requires 1 <= n <= 8 && prefix + Pow2(n) <= 256
    ensures 0 < |s|
  {
    if v < Pow2(n) - 1 then [prefix + v] else [prefix + (Pow2(n) - 1)] + Continuation(v - (Pow2(n) - 1))
  }

  lemma WrittenContinuation(out: seq<byte>, v: nat)
    ensures v >= 128 ==> (out + [128 + v % 128]) + Continuation(v / 128) == out + Continuation(v)
    ensures v < 128 ==> out + [v] == out + Continuation(v)
  {
  }

  lemma PrefixThen(out: seq<byte>, first: byte, v: nat)
    ensures (out + [first]) + Continuation(v) == out + ([first] + Continuation(v))
  {
  }

  method EncodeInteger(value: nat, n: nat, prefix: byte, out: seq<byte>) returns (out': seq<byte>)
    requires 1 <= n <= 8 && prefix + Pow2(n) <= 256
    ensures out' == out + IntegerForm(value, n, prefix)
  {
    hide Continuation, Pow2;
    var maxPrefix := Pow2(n) - 1;
    if value < maxPrefix {
      out' := out + [prefix + value];
    } else {
      out' := out + [prefix + maxPrefix];
      var v := value - maxPrefix;
      PrefixThen(out, prefix + maxPrefix, v);
      while v >= 128
        invariant v >= 0
        invariant out' + Continuation(v) == out + IntegerForm(value, n, prefix)
      {
        WrittenContinuation(out', v);
        out' := out' + [128 + v % 128];
        v := v / 128;
      }
      WrittenContinuation(out', v);
      out' := out' + [v];
    }
  }

  /** What follows a full prefix: at most five octets are read, whatever their top bits say. */
  function DecodeContinuation(s: seq<byte>, k: nat): (r: Read<nat>)
    requires k <= 4
    ensures r.used <= |s| && r.used <= 5 - k
    decreases 5 - k
  {
    if s == [] then Read(0, 0)
    else if k == 4 || s[0] < 128 then Read(s[0] % 128, 1)
    else
      var rest := DecodeContinuation(s[1..], k + 1);
      Read(s[0] % 128 + 128 * rest.value, 1 + rest.used)
  }

  /** The value read from the front of `s`, and the octets it took. */
  function DecodeInteger(s: seq<byte>, n: nat): (r: Read<nat>)
    requires 1 <= n <= 8
    ensures r.used <= |s| && (s != [] ==> r.used >= 1)
  {
    if s == [] then Read(0, 0)
    else
      var value := Low(s[0], n);
      if value != Pow2(n) - 1 then Read(value, 1)
      else
        var rest := DecodeContinuation(s[1..], 0);
        Read(value + rest.value, 1 + rest.used)
  }

  function Pow128(k: nat): (p: nat)
    ensures p > 0
  {
    if k == 0 then 1 else 128 * Pow128(k - 1)
  }

  /** Advances the cursor over an integer; the shift grows by seven until it passes 28. */
  method ReadInteger(buf: seq<byte>, pos: nat, n: nat) returns (value: nat, pos': nat)
    requires pos <= |buf| && 1 <= n <= 8
    ensures value == DecodeInteger(buf[pos..], n).value
    ensures pos' == pos + DecodeInteger(buf[pos..], n).used
  {
    hide DecodeContinuation, Low, Pow2;
    value, pos' := 0, pos;
    if pos' >= |buf| {
      return;
    }
    var mask := Pow2(n) - 1;
    value := Low(buf[pos'], n);
    pos' := pos' + 1;
    assert buf[pos..][1..] == buf[pos'..];
    if value == mask {
      ghost var first, k := value, 0;
      ghost var all := DecodeContinuation(buf[pos + 1..], 0);
      var weight := 1;
      while true
        invariant 0 <= k <= 4 && weight == Pow128(k) && pos < pos' <= |buf|
        invariant value + weight * DecodeContinuation(buf[pos'..], k).value == first + all.value
        invariant pos' + DecodeContinuation(buf[pos'..], k).used == pos + 1 + all.used
        decreases 4 - k
      {
        ContinuationStep(weight, buf[pos'..], k);
        if pos' >= |buf| {
          return;
        }
        var b := buf[pos'];
        assert buf[pos'..][1..] == buf[pos' + 1..];
        value := value + weight * (b % 128);
        pos' := pos' + 1;
        weight := weight * 128;
        if weight > 0x1000_0000 {
          WeightPassed(k);
          return;
        }
        WeightPassed(k);
        if b < 128 {
          return;
        }
        k := k + 1;
      }
    }
  }

  lemma WeightPassed(k: nat)
    requires k <= 4
    ensures Pow128(k + 1) > 0x1000_0000 <==> k == 4
  {
    assert Pow128(1) == 0x80 && Pow128(2) == 0x4000 && Pow128(3) == 0x20_0000;
    assert Pow128(4) == 0x1000_0000 && Pow128(5) == 0x8_0000_0000;
  }

  lemma ContinuationStep(w: nat, s: seq<byte>, k: nat)
    requires k <= 4
    ensures s == [] ==> DecodeContinuation(s, k) == Read(0, 0)
    ensures s != [] && (k == 4 || s[0] < 128) ==> DecodeContinuation(s, k) == Read(s[0] % 128, 1)
    ensures s != [] && k < 4 && s[0] >= 128 ==>
              && DecodeContinuation(s, k).used == 1 + DecodeContinuation(s[1..], k + 1).used
              && w * DecodeContinuation(s, k).value
              == w * (s[0] % 128) + w * 128 * DecodeContinuation(s[1..], k + 1).value
  {
    if s != [] && k < 4 && s[0] >= 128 {
      Distribute(w, s[0] % 128, DecodeContinuation(s[1..], k + 1).value);
    }
  }

  lemma Distribute(w: nat, a: nat, b: nat)
    ensures w * (a + 128 * b) == w * a + w * 128 * b
  {
  }

  /** Nothing larger than five continuation octets can say is ever decoded. */
  lemma {:induction false} ContinuationBound(s: seq<byte>, k: nat)
    requires k <= 4
    ensures DecodeContinuation(s, k).value < Pow128(5 - k)
    decreases 5 - k
  {
    if s != [] && k < 4 && s[0] >= 128 {
      ContinuationBound(s[1..], k + 1);
    }
  }

  lemma {:induction false} ContinuationRoundTrip(v: nat, k: nat, rest: seq<byte>)
    requires k <= 4 && v < Pow128(5 - k)
    ensures DecodeContinuation(Continuation(v) + rest, k) == Read(v, |Continuation(v)|)
    decreases 5 - k
  {
    var s := Continuation(v) + rest;
    if v >= 128 {
      assert Pow128(1) == 128;
      assert s[1..] == Continuation(v / 128) + rest;
      ContinuationRoundTrip(v / 128, k + 1, rest);
    }
  }

  lemma {:induction false} LowPart(prefix: nat, n: nat, w: nat)
    requires Low(prefix, n) == 0 && w < Pow2(n)
    ensures Low(prefix + w, n) == w
  {
    if n > 0 {
      assert (prefix + w) / 2 == prefix / 2 + w / 2;
      LowPart(prefix / 2, n - 1, w / 2);
    }
  }

  /** The integers the decoder can represent behind an `n`-bit prefix. */
  function IntegerLimit(n: nat): (limit: int)
    requires 1 <= n <= 8
  {
    Pow2(n) - 1 + 0x8_0000_0000
  }

  /** Decoding an encoded integer returns it, over exactly its own octets, just when it is below the limit. */
  lemma IntegerRoundTrip(v: nat, n: nat, prefix: byte, rest: seq<byte>)
    requires 1 <= n <= 8 && prefix + Pow2(n) <= 256 && Low(prefix, n) == 0
    ensures v < IntegerLimit(n)
       <==> DecodeInteger(IntegerForm(v, n, prefix) + rest, n) == Read(v, |IntegerForm(v, n, prefix)|)
  {
    hide Low, Pow2, Continuation, DecodeContinuation;
    var max := Pow2(n) - 1;
    var s := IntegerForm(v, n, prefix) + rest;
    assert Pow128(5) == 0x8_0000_0000;
    if v < max {
      LowPart(prefix, n, v);
    } else {
      LowPart(prefix, n, max);
      assert s[1..] == Continuation(v - max) + rest;
      ContinuationBound(s[1..], 0);
      if v < IntegerLimit(n) {
        ContinuationRoundTrip(v - max, 0, rest);
      }
    }
  }

  // ---------------------------------------------------------------- strings

  /** A C string ends at its first NUL. */
  function CString(s: seq<byte>): (r: seq<byte>)
    ensures |r| <= |s| && r == s[..|r|]
    ensures 0 !in r && (|r| < |s| ==> s[|r|] == 0)
  {
    if s == [] || s[0] == 0 then [] else [s[0]] + CString(s[1..])
  }

  lemma {:induction false} CStringWhole(s: seq<byte>)
    requires 0 !in s
    ensures CString(s) == s
  {
  }

  ghost function Decoded(coded: seq<byte>): (text: seq<byte>) {
    HuffmanDecoded(HuffmanCodes(), coded)
  }

  ghost predicate IsCoded(text: seq<byte>, coded: seq<byte>) {
    IsHuffmanForm(HuffmanCodes(), text, coded)
  }

  /** Text that survives Huffman coding and C strings. */
  predicate CarriedText(text: seq<byte>) {
    forall c :: c in text ==> c != 0 && !Misread(c)
  }

  lemma CodedRoundTrip(text: seq<byte>, coded: seq<byte>)
    requires CarriedText(text) && IsCoded(text, coded)
    ensures Decoded(coded) == text && 0 !in text
  {
    hide Misread;
    RoundTripIffNoneMisread(text, coded);
  }

  /** The string at the front of `s` and the octets it took; None when its length runs past the block. */
  ghost function DecodeString(s: seq<byte>): (r: Option<Read<seq<byte>>>)
    ensures r.Some? ==> 1 <= r.value.used <= |s|
  {
    if s == [] then None
    else
      var length := DecodeInteger(s, 7);
      var end := length.used + length.value;
      if end > |s| then None
      else
        var octets := s[length.used..end];
        Some(Read(CString(if s[0] >= 128 then Decoded(octets) else octets), end))
  }

  method ReadString(t: CodeTable, nodes: array<Tree.Node>, ghost paths: seq<(nat, nat)>, payload: seq<byte>, pos: nat)
    returns (result: Option<seq<byte>>, pos': nat)
    requires t == HuffmanCodes() && Tree.TreeOf(t, |t|, nodes[..], paths)
    requires pos <= |payload|
    ensures pos <= pos' <= |payload|
    ensures DecodeString(payload[pos..])
         == if result == None then None else Some(Read(result.value, pos' - pos))
  {
    hide HuffmanDecoded, Canonical, DecodeInteger, CString, Tree.TreeOf;
    if pos >= |payload| {
      return None, pos;
    }
    var strLen;
    strLen, pos' := ReadInteger(payload, pos, 7);
    var isHuffman := payload[pos] >= 128;
    if pos' + strLen > |payload| {
      return None, pos';
    }
    var octets := payload[pos'..pos' + strLen];
    ghost var rest := payload[pos..];
    assert octets == rest[pos' - pos..pos' - pos + strLen];
    if isHuffman {
      var text := Tree.HuffmanDecode(t, nodes, paths, octets);
      result := Some(CString(text));
    } else {
      result := Some(CString(octets));
    }
    pos' := pos' + strLen;
  }

  /** How an encoder may write a string (section 5.2 of RFC 7541). */
  datatype StringRep = Raw(text: seq<byte>) | Coded(text: seq<byte>, octets: seq<byte>)

  ghost function StringForm(r: StringRep): (s: seq<byte>) {
    match r
    case Raw(text) => IntegerForm(|text|, 7, 0) + text
    case Coded(_, octets) => IntegerForm(|octets|, 7, 128) + octets
  }

  /** The strings this decoder gives back: without NUL, a coded one without a misread octet, both below 32 GiB. */
  ghost predicate ValidString(r: StringRep) {
    match r
    case Raw(text) => 0 !in text && |text| < 0x8_0000_0000
    case Coded(text, octets) => CarriedText(text) && IsCoded(text, octets) && |octets| < 0x8_0000_0000
  }

  lemma StringRoundTrip(r: StringRep, rest: seq<byte>)
    requires ValidString(r)
    ensures DecodeString(StringForm(r) + rest) == Some(Read(r.text, |StringForm(r)|))
  {
    hide Decoded, IsCoded;
    match r {
      case Raw(text) =>
        StringBody(text, 0, rest);
        CStringWhole(text);
      case Coded(text, octets) =>
        StringBody(octets, 128, rest);
        CodedRoundTrip(text, octets);
        CStringWhole(text);
    }
  }

  /**
   A string as the encoder writes it, behind its length, is read back if and only if the accumulator loses none of its
   bits and the table and C strings carry each of its octets.
   */
  lemma CodedComesBackIff(text: seq<byte>, rest: seq<byte>)
    requires |Encoded(HuffmanCodes(), text)| < 0x8_0000_0000
    ensures var form := StringForm(Coded(text, Encoded(HuffmanCodes(), text)));
            DecodeString(form + rest) == Some(Read(text, |form|))
            <==> NoBitLost(HuffmanCodes(), text) && CarriedText(text)
  {
    hide CString, Misread, NoBitLost, Encoded, HuffmanDecoded, DecodeString, IntegerForm;
    var octets := Encoded(HuffmanCodes(), text);
    StringBody(octets, 128, rest);
    EncodedComesBackIff(text);
    if 0 !in text {
      CStringWhole(text);
    }
    assert CString(Decoded(octets)) <= Decoded(octets);
  }

  /** The length in front of a string delimits exactly its octets. */
  lemma StringBody(octets: seq<byte>, prefix: byte, rest: seq<byte>)
    requires (prefix == 0 || prefix == 128) && |octets| < 0x8_0000_0000
    ensures prefix + Pow2(7) <= 256
    ensures var s := IntegerForm(|octets|, 7, prefix) + octets;
            && DecodeString(s + rest)
            == Some(Read(CString(if prefix == 128 then Decoded(octets) else octets), |s|))
  {
    hide Decoded, IntegerForm, DecodeInteger, Pow2, Low, CString;
    assert Pow2(7) == 128 by {
      Pow2Values();
    }
    LowOfPrefix();
    var head := IntegerForm(|octets|, 7, prefix);
    var s := head + octets + rest;
    IntegerHead(|octets|, 7, prefix);
    IntegerRoundTrip(|octets|, 7, prefix, octets + rest);
    assert s == head + (octets + rest);
    assert s[|head|..|head| + |octets|] == octets;
  }

  lemma IntegerHead(v: nat, n: nat, prefix: byte)
    requires 1 <= n <= 8 && prefix + Pow2(n) <= 256
    ensures prefix <= IntegerForm(v, n, prefix)[0] < prefix + Pow2(n)
  {
  }

  /** The flag bits of every representation lie above its integer. */
  lemma LowOfPrefix()
    ensures Low(0, 7) == 0 && Low(128, 7) == 0 && Low(64, 6) == 0 && Low(32, 5) == 0
    ensures Low(0, 4) == 0 && Low(16, 4) == 0
  {
  }
}
