/** What the text routines mean, said octet by octet: every lookup of a header turns on them. */
module TextLaws {
  import opened Octets
  import opened HpackPrimitives
  import opened DynamicTable
  import opened StaticTable
  import opened RequestHeaders
  import opened Http11Text
  import opened Http11Body
  import opened Http11Response
  import opened Http11Exchange
  import opened HeaderOrder

  // ---------------------------------------------------------------- names

  /** The same octet, or the same letter in the other case. */
  predicate SameLetter(a: byte, b: byte) {
    a == b || (65 <= a <= 90 && b as int == a as int + 32) || (65 <= b <= 90 && a as int == b as int + 32)
  }

  lemma LowerIff(a: byte, b: byte)
    ensures LowerOctet(a) == LowerOctet(b) <==> SameLetter(a, b)
  {
  }

  /** Two names are the same exactly when they are as long and agree, letter case apart, at every place. */
  lemma SameNameIff(a: seq<byte>, b: seq<byte>)
    ensures SameName(a, b) <==> |a| == |b| && forall i :: 0 <= i < |a| ==> SameLetter(a[i], b[i])
  {
    hide SameLetter, LowerOctet;
    if |a| == |b| {
      forall i | 0 <= i < |a|
        ensures Lower(a)[i] == Lower(b)[i] <==> SameLetter(a[i], b[i])
      {
        LowerIff(a[i], b[i]);
      }
      if forall i :: 0 <= i < |a| ==> SameLetter(a[i], b[i]) {
        assert Lower(a) == Lower(b);
      }
    } else {
      assert |Lower(a)| != |Lower(b)|;
    }
  }

  /** Literals are their characters' codes. */
  lemma LiteralsAre()
    ensures Ascii("HTTP/1.") == [72, 84, 84, 80, 47, 49, 46] && Ascii("HEAD") == [72, 69, 65, 68]
    ensures Ascii("close") == [99, 108, 111, 115, 101] && Ascii("chunked") == [99, 104, 117, 110, 107, 101, 100]
  {
  }

  // ---------------------------------------------------------------- search

  ghost predicate FoundAt(haystack: seq<byte>, needle: seq<byte>, i: nat) {
    i + |needle| <= |haystack| && SameName(haystack[i..i + |needle|], needle)
  }

  /** A needle is contained exactly when it stands somewhere. */
  lemma {:induction false} ContainsIff(haystack: seq<byte>, needle: string)
    ensures ContainsIgnoreCase(haystack, needle)
       <==> exists i :: 0 <= i <= |haystack| && FoundAt(haystack, Ascii(needle), i)
    decreases |haystack|
  {
    hide SameName, Ascii;
    var n := Ascii(needle);
    if |haystack| >= |needle| {
      assert haystack[0..0 + |n|] == haystack[..|needle|];
      assert FoundAt(haystack, n, 0) <==> SameName(haystack[..|needle|], n);
    }
    if haystack != [] {
      var rest := haystack[1..];
      ContainsIff(rest, needle);
      forall i | 0 <= i <= |rest|
        ensures FoundAt(rest, n, i) <==> FoundAt(haystack, n, i + 1)
      {
        if i + |n| <= |rest| {
          assert rest[i..i + |n|] == haystack[i + 1..i + 1 + |n|];
        }
      }
      if i :| 0 <= i <= |haystack| && FoundAt(haystack, n, i) {
        if i > 0 {
          assert FoundAt(rest, n, i - 1);
        }
      }
    }
  }

  // ---------------------------------------------------------------- header fields

  /** The i-th field is the first of this name. */
  ghost predicate FirstNamed(headers: seq<Entry>, name: seq<byte>, i: nat) {
    i < |headers| && SameName(headers[i].name, name) && forall j :: 0 <= j < i ==> !SameName(headers[j].name, name)
  }

  lemma {:induction false} HeaderValueIs(headers: seq<Entry>, name: string, i: nat)
    ensures HeaderValue(headers, name) == None
       <==> forall j :: 0 <= j < |headers| ==> !SameName(headers[j].name, Ascii(name))
    ensures FirstNamed(headers, Ascii(name), i) ==> HeaderValue(headers, name) == Some(headers[i].value)
    decreases |headers|
  {
    hide SameName, Ascii;
    if headers != [] && !SameName(headers[0].name, Ascii(name)) {
      var rest := headers[1..];
      assert forall j :: 0 <= j < |rest| ==> rest[j] == headers[j + 1];
      HeaderValueIs(rest, name, if i > 0 then i - 1 else 0);
      assert forall j :: 0 < j < |headers| ==> headers[j] == rest[j - 1];
    }
  }

  /** A token is there exactly when the first field of the name contains it, ignoring case. */
  ghost predicate Mentions(headers: seq<Entry>, name: seq<byte>, token: seq<byte>) {
    exists i :: 0 <= i < |headers| && FirstNamed(headers, name, i) && Carries(CString(headers[i].value), token)
  }

  ghost predicate Carries(text: seq<byte>, token: seq<byte>) {
    exists k :: 0 <= k <= |text| && FoundAt(text, token, k)
  }

  lemma HasTokenIff(headers: seq<Entry>, name: string, token: string)
    ensures HasToken(HeaderValue(headers, name), token) <==> Mentions(headers, Ascii(name), Ascii(token))
  {
    hide SameName, Ascii, ContainsIgnoreCase, HeaderValue, FoundAt, CString;
    HeaderValueIs(headers, name, 0);
    if HeaderValue(headers, name).Some? {
      var i := FirstOf(headers, Ascii(name));
      HeaderValueIs(headers, name, i);
      ContainsIff(CString(headers[i].value), token);
      assert forall j :: 0 <= j < |headers| && FirstNamed(headers, Ascii(name), j) ==> j == i;
    }
  }

  lemma FirstOf(headers: seq<Entry>, name: seq<byte>) returns (i: nat)
    requires exists j :: 0 <= j < |headers| && SameName(headers[j].name, name)
    ensures FirstNamed(headers, name, i)
  {
    hide SameName;
    i := 0;
    while !SameName(headers[i].name, name)
      invariant i < |headers| && forall j :: 0 <= j < i ==> !SameName(headers[j].name, name)
      decreases |headers| - i
    {
      i := i + 1;
    }
  }

  /** The peer announced the end exactly when its first connection field carries "close". */
  lemma ClosedByPeerIff(headers: seq<Entry>)
    ensures ClosedByPeer(headers)
       <==> Mentions(headers, [99, 111, 110, 110, 101, 99, 116, 105, 111, 110], [99, 108, 111, 115, 101])
  {
    hide SameName, HasToken, HeaderValue, Mentions;
    HasTokenIff(headers, "connection", "close");
    assert Ascii("connection") == [99, 111, 110, 110, 101, 99, 116, 105, 111, 110];
    assert Ascii("close") == [99, 108, 111, 115, 101];
  }

  /** The framing is chunked exactly when the first transfer-encoding field carries "chunked". */
  lemma ChunkedIff(request: seq<byte>, status: nat, headers: seq<Entry>)
    requires FramingOf(request, status, headers) != NoBody
    ensures FramingOf(request, status, headers) == Chunked
       <==> Mentions(headers, Ascii("transfer-encoding"), [99, 104, 117, 110, 107, 101, 100])
  {
    hide SameName, HasToken, HeaderValue, Mentions, Strtol, IsBodyless, Is;
    HasTokenIff(headers, "transfer-encoding", "chunked");
    assert Ascii("chunked") == [99, 104, 117, 110, 107, 101, 100];
  }

  // ---------------------------------------------------------------- blanks

  predicate IsBlank(c: byte) {
    c == 32 || c == 9 || c == 10 || c == 11 || c == 12 || c == 13
  }

  lemma {:induction false} TrimLeftIs(s: seq<byte>)
    ensures TrimLeft(s) == s[|s| - |TrimLeft(s)|..]
    ensures forall i :: 0 <= i < |s| - |TrimLeft(s)| ==> IsBlank(s[i])
    ensures TrimLeft(s) != [] ==> !IsBlank(TrimLeft(s)[0])
  {
    if s != [] && IsSpace(s[0]) {
      TrimLeftIs(s[1..]);
      assert forall i :: 0 < i < |s| ==> s[i] == s[1..][i - 1];
    }
  }

  lemma {:induction false} TrimRightIs(s: seq<byte>)
    ensures TrimRight(s) == s[..|TrimRight(s)|]
    ensures forall i :: |TrimRight(s)| <= i < |s| ==> IsBlank(s[i])
    ensures TrimRight(s) != [] ==> !IsBlank(TrimRight(s)[|TrimRight(s)| - 1])
  {
    if s != [] && IsSpace(s[|s| - 1]) {
      TrimRightIs(s[..|s| - 1]);
    }
  }

  /** Trimming takes exactly the blanks at both ends. */
  lemma TrimIs(s: seq<byte>) returns (before: seq<byte>, after: seq<byte>)
    ensures s == before + Trim(s) + after
    ensures (forall c :: c in before ==> IsBlank(c)) && (forall c :: c in after ==> IsBlank(c))
    ensures Trim(s) != [] ==> !IsBlank(Trim(s)[0]) && !IsBlank(Trim(s)[|Trim(s)| - 1])
  {
    hide TrimLeft, TrimRight, IsBlank;
    var t := TrimLeft(s);
    TrimLeftIs(s);
    TrimRightIs(t);
    before, after := s[..|s| - |t|], t[|Trim(s)|..];
  }

  // ---------------------------------------------------------------- numbers

  /** The digits of base 16, in either case. */
  lemma DigitsAre(i: nat)
    requires i < 16
    ensures i < 10 ==> DigitValue(48 + i) == i
    ensures i >= 10 ==> DigitValue(55 + i) == i && DigitValue(87 + i) == i
  {
  }

  function Power(base: nat, n: nat): (p: nat) {
    if n == 0 then 1 else base * Power(base, n - 1)
  }

  /** The first digit counts most. */
  lemma {:induction false} ValueFromFront(c: byte, digits: seq<byte>, base: nat)
    ensures Value([c] + digits, base) == DigitValue(c) * Power(base, |digits|) + Value(digits, base)
    decreases |digits|
  {
    hide DigitValue;
    var s := [c] + digits;
    if digits == [] {
      assert s[..0] == [] && s == [c];
    } else {
      var n := |digits| - 1;
      assert s[..|s| - 1] == [c] + digits[..n] && s[|s| - 1] == digits[n];
      ValueFromFront(c, digits[..n], base);
      Shifted(DigitValue(c), Power(base, n), Value(digits[..n], base), base);
    }
  }

  lemma Shifted(d: nat, p: nat, v: nat, base: nat)
    ensures (d * p + v) * base == d * (base * p) + v * base
  {
  }

  /** A sign in front of a run of decimal digits is its sign. */
  lemma SignedDigits(digits: seq<byte>)
    requires digits != [] && (forall c :: c in digits ==> 48 <= c <= 57) && Value(digits, 10) <= LONG_MAX
    ensures Strtol([45] + digits, 10) == -(Value(digits, 10) as int) && Strtol([43] + digits, 10) == Value(digits, 10)
  {
    hide Value, DigitValue;
    DecimalDigits(digits);
    SignedIs(45, digits);
    SignedIs(43, digits);
  }

  lemma DecimalDigits(digits: seq<byte>)
    requires forall c :: c in digits ==> 48 <= c <= 57
    ensures forall c :: c in digits ==> DigitValue(c) < 10
  {
  }

  lemma SignedIs(sign: byte, digits: seq<byte>)
    requires digits != [] && (forall c :: c in digits ==> DigitValue(c) < 10 && 48 <= c <= 57)
    requires sign == 45 || sign == 43
    ensures var s := [sign] + digits;
            CString(s) == s && TrimLeft(s) == s && s[1..] == digits && Digits(digits, 10) == digits
  {
    var s := [sign] + digits;
    CStringWhole(s);
    DigitsWhole(digits, [], 10);
    assert digits + [] == digits;
  }

  /** A body that is announced, without chunks, by a negative number fails. */
  lemma NegativeLengthFails(request: seq<byte>, status: nat, headers: seq<Entry>, i: nat, digits: seq<byte>)
    requires FramingOf(request, status, headers) != NoBody && FramingOf(request, status, headers) != Chunked
    requires FirstNamed(headers, Ascii("content-length"), i) && headers[i].value == [45] + digits
    requires digits != [] && (forall c :: c in digits ==> 48 <= c <= 57) && 0 < Value(digits, 10) <= LONG_MAX
    ensures FramingOf(request, status, headers) == BadLength
  {
    hide Value, Strtol, HasToken, HeaderValue, FirstNamed, Ascii, Is, IsBodyless;
    SignedDigits(digits);
    HeaderValueIs(headers, "content-length", i);
  }

  // ---------------------------------------------------------------- the order key

  /** A regular header that is neither the order key nor connection, and no key names it. */
  lemma UnlistedIff(headers: seq<RequestHeader>, keys: seq<seq<byte>>, order: nat, i: nat)
    requires i < |headers|
    ensures Unlisted(headers, keys, order, i)
       <==> && !headers[i].isPseudo && i != order
            && !SameName(headers[i].name, [99, 111, 110, 110, 101, 99, 116, 105, 111, 110])
            && forall k :: 0 <= k < |keys| ==> !SameName(headers[i].name, keys[k])
  {
    hide SameName;
    assert Ascii("connection") == [99, 111, 110, 110, 101, 99, 116, 105, 111, 110];
  }

  /** The order key is the first regular header of this name. */
  lemma OrderIndexIs(headers: seq<RequestHeader>, i: nat)
    requires i < |headers| && !headers[i].isPseudo && SameName(headers[i].name, Ascii("X-HeaderOrderKey"))
    requires forall j :: 0 <= j < i ==> headers[j].isPseudo || !SameName(headers[j].name, Ascii("X-HeaderOrderKey"))
    ensures OrderIndex(headers) == i
  {
    hide SameName, Ascii;
    assert OrderIndex(headers) <= i;
  }

  /** An instance: " a ,, b" names a and b. */
  lemma KeysOfList()
    ensures Keys([32, 97, 32, 44, 44, 32, 98]) == [[97], [98]]
  {
    var s: seq<byte> := [32, 97, 32, 44, 44, 32, 98];
    IndexOfIs(s, 44, 3);
    assert s[..3] == [32, 97, 32] && s[4..] == [44, 32, 98];
    IndexOfIs(s[4..], 44, 0);
    assert s[4..][..0] == [] && s[4..][1..] == [32, 98];
    assert IndexOf([32, 98], 44) == 2;
    assert [32, 98][..2] == [32, 98];
    TrimmedLetter([32], 97, [32]);
    TrimmedLetter([32], 98, []);
    assert [32] + [97] + [32] == [32, 97, 32] && [32] + [98] + [] == [32, 98];
    assert Trim([]) == [];
  }

  lemma TrimmedLetter(before: seq<byte>, c: byte, after: seq<byte>)
    requires before == [32] && after in {[], [32]} && 97 <= c <= 122
    ensures Trim(before + [c] + after) == [c]
  {
    var s := before + [c] + after;
    assert s[1..] == [c] + after;
    assert TrimLeft(s) == [c] + after;
    if after == [32] {
      assert TrimRight([c] + after) == TrimRight([c]) by { assert ([c] + after)[..1] == [c]; }
    }
  }

  // ---------------------------------------------------------------- heads that are not well-formed

  /** A head and a trailer section end at a line that is empty or starts with NUL. */
  lemma TrailerEndIff(line: seq<byte>)
    ensures IsTrailerEnd(line) <==> line == [] || line[0] == 0
  {
  }

  /** A header line without a colon adds nothing, nor does any line once there are 64 headers. */
  lemma LineAddsNothing(headers: seq<Entry>, line: seq<byte>)
    requires 58 !in CString(line) || |headers| >= 64
    ensures WithLine(headers, line) == headers
  {
    hide Trim;
    assert IndexOf(CString(line), 58) < |CString(line)| ==> 58 in CString(line);
  }

  /** A status line that does not start with "HTTP/1." has no status. */
  lemma OtherVersion(line: seq<byte>)
    requires |line| < 7 || line[..7] != [72, 84, 84, 80, 47, 49, 46]
    ensures StatusDigits(line) == None
  {
    hide TrimLeft, SkipToken, Ascii;
    assert Ascii("HTTP/1.") == [72, 84, 84, 80, 47, 49, 46] by { LiteralsAre(); }
    var s := CString(line);
    assert |s| >= 7 ==> s[..7] == line[..7];
  }
}
