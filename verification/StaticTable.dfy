/** The static table of Appendix A of RFC 7541. */
module StaticTable {
  import opened Octets
  import opened DynamicTable

  const STATIC_ENTRIES: nat := 61

  function Ascii(s: string): (r: seq<byte>)
    ensures |r| == |s|
  {
    seq(|s|, i requires 0 <= i < |s| => s[i] as int % 256)
  }

  function E(name: string, value: string): Entry {
    Entry(Ascii(name), Ascii(value))
  }

  function StaticFrom1(i: int): Entry {
    if i == 1 then E(":authority", "") else if i == 2 then E(":method", "GET") else
    if i == 3 then E(":method", "POST") else if i == 4 then E(":path", "/") else
    if i == 5 then E(":path", "/index.html") else if i == 6 then E(":scheme", "http") else
    if i == 7 then E(":scheme", "https") else if i == 8 then E(":status", "200") else
    if i == 9 then E(":status", "204") else if i == 10 then E(":status", "206") else
    if i == 11 then E(":status", "304") else if i == 12 then E(":status", "400") else
    if i == 13 then E(":status", "404") else if i == 14 then E(":status", "500") else E("accept-charset", "")
  }

  function StaticFrom16(i: int): Entry {
    if i == 16 then E("accept-encoding", "gzip, deflate") else if i == 17 then E("accept-language", "") else
    if i == 18 then E("accept-ranges", "") else if i == 19 then E("accept", "") else
    if i == 20 then E("access-control-allow-origin", "") else if i == 21 then E("age", "") else
    if i == 22 then E("allow", "") else if i == 23 then E("authorization", "") else
    if i == 24 then E("cache-control", "") else if i == 25 then E("content-disposition", "") else
    if i == 26 then E("content-encoding", "") else if i == 27 then E("content-language", "") else
    if i == 28 then E("content-length", "") else if i == 29 then E("content-location", "") else
    if i == 30 then E("content-range", "") else E("content-type", "")
  }

  function StaticFrom32(i: int): Entry {
    if i == 32 then E("cookie", "") else if i == 33 then E("date", "") else if i == 34 then E("etag", "") else
    if i == 35 then E("expect", "") else if i == 36 then E("expires", "") else if i == 37 then E("from", "") else
    if i == 38 then E("host", "") else if i == 39 then E("if-match", "") else
    if i == 40 then E("if-modified-since", "") else if i == 41 then E("if-none-match", "") else
    if i == 42 then E("if-range", "") else if i == 43 then E("if-unmodified-since", "") else
    if i == 44 then E("last-modified", "") else if i == 45 then E("link", "") else
    if i == 46 then E("location", "") else E("max-forwards", "")
  }

  function StaticFrom48(i: int): Entry {
    if i == 48 then E("proxy-authenticate", "") else if i == 49 then E("proxy-authorization", "") else
    if i == 50 then E("range", "") else if i == 51 then E("referer", "") else if i == 52 then E("refresh", "") else
    if i == 53 then E("retry-after", "") else if i == 54 then E("server", "") else
    if i == 55 then E("set-cookie", "") else if i == 56 then E("strict-transport-security", "") else
    if i == 57 then E("transfer-encoding", "") else if i == 58 then E("user-agent", "") else
    if i == 59 then E("vary", "") else if i == 60 then E("via", "") else E("www-authenticate", "")
  }

  function StaticEntry(i: nat): Entry
    requires 1 <= i <= STATIC_ENTRIES
  {
    if i < 16 then StaticFrom1(i) else if i < 32 then StaticFrom16(i) else if i < 48 then StaticFrom32(i) else
    StaticFrom48(i)
  }
}
