/** The C text routines the HTTP/1.1 reader leans on: lines, trimming, numbers and case-insensitive search. */
module Http11Text {
  import opened Octets
  import opened HpackPrimitives
  import opened StaticTable
  import opened RequestHeaders

  const LF: byte := 10
  const CR: byte := 13

  /** Where a byte first occurs, or the length. */
  function IndexOf(s: seq<byte>, c: byte): (i: nat)
    ensures i <= |s| && (i < |s| ==> s[i] == c)
    ensures forall j :: 0 <= j < i ==> s[j] != c
  {
    if s == [] || s[0] == c then 0 else 1 + IndexOf(s[1..], c)
  }

  lemma IndexOfIs(s: seq<byte>, c: byte, i: nat)
    requires i < |s| && s[i] == c && forall j :: 0 <= j < i ==> s[j] != c
    ensures IndexOf(s, c) == i
  {
    assert IndexOf(s, c) <= i;
  }

  /** One carriage return before the line feed belongs to the line end. */
  function StripCr(s: seq<byte>): (line: seq<byte>) {
    if s != [] && s[|s| - 1] == CR then s[..|s| - 1] else s
  }

  /** isspace in the C locale */
  predicate IsSpace(c: byte) {
    c == 32 || 9 <= c <= 13
  }

  function TrimLeft(s: seq<byte>): (r: seq<byte>)
    ensures |r| <= |s|
  {
    if s != [] && IsSpace(s[0]) then TrimLeft(s[1..]) else s
  }

  function TrimRight(s: seq<byte>): (r: seq<byte>)
    ensures |r| <= |s|
  {
    if s != [] && IsSpace(s[|s| - 1]) then TrimRight(s[..|s| - 1]) else s
  }

  function Trim(s: seq<byte>): (r: seq<byte>) {
    TrimRight(TrimLeft(s))
  }

  function DigitValue(c: byte): (v: nat) {
    if 48 <= c <= 57 then c - 48
    else if 65 <= c <= 70 then c - 55
    else if 97 <= c <= 102 then c - 87
    else 16
  }

  /** The longest run of digits of a base at the front. */
  function Digits(s: seq<byte>, base: nat): (r: seq<byte>)
    ensures forall c :: c in r ==> DigitValue(c) < base
  {
    if s != [] && DigitValue(s[0]) < base then [s[0]] + Digits(s[1..], base) else []
  }

  function Value(digits: seq<byte>, base: nat): (v: nat) {
    if digits == [] then 0 else Value(digits[..|digits| - 1], base) * base + DigitValue(digits[|digits| - 1])
  }

  const LONG_MAX: int := 0x7FFF_FFFF_FFFF_FFFF

  function Clamp(v: int): (r: int) {
    if v > LONG_MAX then LONG_MAX else if v < -LONG_MAX - 1 then -LONG_MAX - 1 else v
  }

  /** strtol and strtoll in base 10 or 16: space, sign, an optional 0x, digits, saturation. */
  function Strtol(s: seq<byte>, base: nat): (v: int)
    requires base in {10, 16}
  {
    var t := TrimLeft(CString(s));
    var negative := t != [] && t[0] == 45;
    var u := if t != [] && (t[0] == 45 || t[0] == 43) then t[1..] else t;
    var prefixed := base == 16 && |u| >= 3 && u[0] == 48 && (u[1] == 120 || u[1] == 88) && DigitValue(u[2]) < 16;
    var v: int := Value(Digits(if prefixed then u[2..] else u, base), base);
    Clamp(if negative then -v else v)
  }

  lemma {:induction false} DigitsWhole(digits: seq<byte>, rest: seq<byte>, base: nat)
    requires (forall c :: c in digits ==> DigitValue(c) < base)
    requires rest == [] || DigitValue(rest[0]) >= base
    ensures Digits(digits + rest, base) == digits
  {
    if digits == [] {
      assert digits + rest == rest;
    } else {
      assert (digits + rest)[1..] == digits[1..] + rest;
      DigitsWhole(digits[1..], rest, base);
    }
  }

  lemma DigitsAreNotSpace(digits: seq<byte>, base: nat)
    requires digits != [] && base <= 16 && forall c :: c in digits ==> DigitValue(c) < base
    ensures !IsSpace(digits[0]) && !IsSpace(digits[|digits| - 1])
    ensures 0 !in digits && 59 !in digits && 45 !in digits && 43 !in digits && 120 !in digits && 88 !in digits
  {
    assert digits[0] in digits && digits[|digits| - 1] in digits;
  }

  /** A plain run of digits is read as its value, up to saturation. */
  lemma StrtolOfDigits(digits: seq<byte>, base: nat)
    requires base in {10, 16} && digits != [] && forall c :: c in digits ==> DigitValue(c) < base
    ensures Strtol(digits, base) == if Value(digits, base) > LONG_MAX then LONG_MAX else Value(digits, base)
  {
    DigitsAreNotSpace(digits, base);
    CStringWhole(digits);
    assert TrimLeft(digits) == digits;
    assert digits[0] in digits;
    assert |digits| >= 3 ==> digits[1] in digits;
    DigitsWhole(digits, [], base);
    assert digits + [] == digits;
  }

  /** Whether a needle occurs in a C string, ignoring case. */
  predicate ContainsIgnoreCase(haystack: seq<byte>, needle: string) {
    |haystack| >= |needle|
    && (SameName(haystack[..|needle|], Ascii(needle))
        || (haystack != [] && ContainsIgnoreCase(haystack[1..], needle)))
  }

  // ---------------------------------------------------------------- chunk-size lines

  /** The size a chunk-size line announces: extensions are cut off, the rest trimmed and read in base 16. */
  function ChunkSize(line: seq<byte>): (v: int) {
    var s := CString(line);
    Strtol(Trim(s[..IndexOf(s, 59)]), 16)
  }

  /** An optional chunk extension: blanks and a semicolon, then anything (section 7.1.1 of RFC 9112). */
  ghost predicate IsExtension(ext: seq<byte>) {
    ext == [] || exists n :: 0 <= n < |ext| && ext[n] == 59 && forall i :: 0 <= i < n ==> ext[i] == 32 || ext[i] == 9
  }

  lemma {:induction false} TrimRightBlanks(s: seq<byte>, blanks: seq<byte>)
    requires forall c :: c in blanks ==> IsSpace(c)
    requires s != [] && !IsSpace(s[|s| - 1])
    ensures TrimRight(s + blanks) == s
    decreases |blanks|
  {
    if blanks == [] {
      assert s + blanks == s;
    } else {
      var t := s + blanks;
      assert t[|t| - 1] == blanks[|blanks| - 1] && blanks[|blanks| - 1] in blanks;
      assert t[..|t| - 1] == s + blanks[..|blanks| - 1];
      TrimRightBlanks(s, blanks[..|blanks| - 1]);
    }
  }

  /** A well-formed chunk-size line is read as its hexadecimal size, whatever its extension. */
  lemma ChunkSizeOfLine(digits: seq<byte>, ext: seq<byte>)
    requires digits != [] && (forall c :: c in digits ==> DigitValue(c) < 16)
    requires IsExtension(ext) && 0 !in ext
    ensures ChunkSize(digits + ext) == if Value(digits, 16) > LONG_MAX then LONG_MAX else Value(digits, 16)
  {
    hide Strtol, CString, Trim, Value, IndexOf, DigitValue;
    DigitsAreNotSpace(digits, 16);
    CStringWhole(digits + ext);
    var blanks := CutAtSemicolon(digits, ext);
    TrimBlanks(digits, blanks);
    StrtolOfDigits(digits, 16);
  }

  lemma CutAtSemicolon(digits: seq<byte>, ext: seq<byte>) returns (blanks: seq<byte>)
    requires 59 !in digits && IsExtension(ext)
    ensures forall c :: c in blanks ==> IsSpace(c)
    ensures (digits + ext)[..IndexOf(digits + ext, 59)] == digits + blanks
  {
    hide IndexOf;
    var s := digits + ext;
    if ext == [] {
      blanks := [];
      assert s == digits && digits + blanks == digits;
    } else {
      var n :| 0 <= n < |ext| && ext[n] == 59 && forall i :: 0 <= i < n ==> ext[i] == 32 || ext[i] == 9;
      blanks := ext[..n];
      IndexOfIs(s, 59, |digits| + n);
      assert s[..|digits| + n] == digits + blanks;
    }
  }

  lemma TrimBlanks(s: seq<byte>, blanks: seq<byte>)
    requires s != [] && !IsSpace(s[0]) && !IsSpace(s[|s| - 1]) && forall c :: c in blanks ==> IsSpace(c)
    ensures Trim(s + blanks) == s
  {
    TrimRightBlanks(s, blanks);
    assert TrimLeft(s + blanks) == s + blanks;
  }
}
