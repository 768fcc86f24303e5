/** Reordering request headers by an X-HeaderOrderKey list: a stable sort by first matching key. */
module HeaderOrder {
  import opened Octets
  import opened HpackPrimitives
  import opened StaticTable
  import opened RequestHeaders
  import opened Http11Text

  datatype BasketError = NoBasketError | HeaderOrderKeyMissingHeader | EarlierError

  const COMMA: byte := 44

  /** The names of a comma-separated list, trimmed, empty ones dropped. */
  function Keys(raw: seq<byte>): (keys: seq<seq<byte>>)
    decreases |raw|
  {
    var n := IndexOf(raw, COMMA);
    Named(raw[..n]) + (if n == |raw| then [] else Keys(raw[n + 1..]))
  }

  function Named(piece: seq<byte>): (keys: seq<seq<byte>>) {
    if Trim(piece) == [] then [] else [Trim(piece)]
  }

  /** The first key that names a header, or the number of keys. */
  function FirstKey(name: seq<byte>, keys: seq<seq<byte>>): (k: nat)
    ensures k <= |keys| && (k < |keys| ==> SameName(name, keys[k]))
    ensures forall j :: 0 <= j < k ==> !SameName(name, keys[j])
  {
    if keys == [] || SameName(name, keys[0]) then 0 else 1 + FirstKey(name, keys[1..])
  }

  predicate IsOrderKey(h: RequestHeader) {
    !h.isPseudo && Is(h.name, "X-HeaderOrderKey")
  }

  /** The first order-key header, or the number of headers. */
  function OrderIndex(headers: seq<RequestHeader>): (i: nat)
    ensures i <= |headers| && (i < |headers| ==> IsOrderKey(headers[i]))
    ensures forall j :: 0 <= j < i ==> !IsOrderKey(headers[j])
  {
    if headers == [] || IsOrderKey(headers[0]) then 0 else 1 + OrderIndex(headers[1..])
  }

  predicate IsConnection(h: RequestHeader) {
    Is(h.name, "connection")
  }

  /** A header the list had to name but does not. */
  predicate Unlisted(headers: seq<RequestHeader>, keys: seq<seq<byte>>, order: nat, i: nat)
    requires i < |headers|
  {
    !headers[i].isPseudo && i != order && !IsConnection(headers[i]) && FirstKey(headers[i].name, keys) == |keys|
  }

  ghost predicate SomeUnlisted(headers: seq<RequestHeader>, keys: seq<seq<byte>>, order: nat) {
    exists i :: 0 <= i < |headers| && Unlisted(headers, keys, order, i)
  }

  /** Pseudo headers first, then by first key, then connection headers without a key; the rest has no place. */
  function Rank(headers: seq<RequestHeader>, keys: seq<seq<byte>>, order: nat, i: nat): (r: nat)
    requires i < |headers|
    ensures r <= |keys| + 2
  {
    var h := headers[i];
    var k := FirstKey(h.name, keys);
    if h.isPseudo then 0
    else if i == order then |keys| + 2
    else if k < |keys| then 1 + k
    else if IsConnection(h) then |keys| + 1
    else |keys| + 2
  }

  function Ranks(headers: seq<RequestHeader>, keys: seq<seq<byte>>, order: nat): (r: seq<nat>)
    ensures |r| == |headers|
  {
    seq(|headers|, i requires 0 <= i < |headers| => Rank(headers, keys, order, i))
  }

  predicate AllBelow(at: seq<nat>, n: nat) {
    forall a :: 0 <= a < |at| ==> at[a] < n
  }

  /** The indices below n of one rank, ascending. */
  function Bucket(ranks: seq<nat>, r: nat, n: nat): (at: seq<nat>)
    requires n <= |ranks|
    ensures AllBelow(at, n)
  {
    if n == 0 then [] else Bucket(ranks, r, n - 1) + (if ranks[n - 1] == r then [n - 1] else [])
  }

  /** The indices below n of the ranks below m, rank by rank. */
  function Buckets(ranks: seq<nat>, m: nat, n: nat): (at: seq<nat>)
    requires n <= |ranks|
    ensures AllBelow(at, n)
  {
    if m == 0 then [] else Buckets(ranks, m - 1, n) + Bucket(ranks, m - 1, n)
  }

  function Pick(headers: seq<RequestHeader>, at: seq<nat>): (r: seq<RequestHeader>)
    requires AllBelow(at, |headers|)
  {
    seq(|at|, j requires 0 <= j < |at| => headers[at[j]])
  }

  function Placing(headers: seq<RequestHeader>, keys: seq<seq<byte>>, order: nat): (at: seq<nat>)
    ensures AllBelow(at, |headers|)
  {
    Buckets(Ranks(headers, keys, order), |keys| + 2, |headers|)
  }

  function Reordered(headers: seq<RequestHeader>, keys: seq<seq<byte>>, order: nat): (r: seq<RequestHeader>) {
    Pick(headers, Placing(headers, keys, order))
  }

  // ---------------------------------------------------------------- a stable sort

  ghost predicate Ascending(at: seq<nat>) {
    forall a, b :: 0 <= a < b < |at| ==> at[a] < at[b]
  }

  ghost predicate AllOfRank(ranks: seq<nat>, at: seq<nat>, r: nat) {
    forall a :: 0 <= a < |at| ==> at[a] < |ranks| && ranks[at[a]] == r
  }

  lemma {:induction false} BucketAscends(ranks: seq<nat>, r: nat, n: nat)
    requires n <= |ranks|
    ensures AllOfRank(ranks, Bucket(ranks, r, n), r) && Ascending(Bucket(ranks, r, n))
  {
    if n != 0 {
      BucketAscends(ranks, r, n - 1);
    }
  }

  /** Ranks never fall along these indices, and indices rise within a rank. */
  ghost predicate StableAlong(ranks: seq<nat>, at: seq<nat>, m: nat) {
    && AllBelow(at, |ranks|)
    && (forall a :: 0 <= a < |at| ==> ranks[at[a]] < m)
    && (forall a, b :: 0 <= a < b < |at| ==>
          ranks[at[a]] < ranks[at[b]] || (ranks[at[a]] == ranks[at[b]] && at[a] < at[b]))
  }

  lemma {:induction false} BucketsStable(ranks: seq<nat>, m: nat, n: nat)
    requires n <= |ranks|
    ensures StableAlong(ranks, Buckets(ranks, m, n), m)
  {
    hide StableAlong, AllOfRank, Ascending, Bucket, AllBelow;
    if m == 0 {
      assert StableAlong(ranks, [], 0) by { NothingStable(ranks); }
    } else {
      BucketsStable(ranks, m - 1, n);
      BucketAscends(ranks, m - 1, n);
      StableThenNext(ranks, Buckets(ranks, m - 1, n), Bucket(ranks, m - 1, n), m - 1);
    }
  }

  lemma NothingStable(ranks: seq<nat>)
    ensures StableAlong(ranks, [], 0)
  {
  }

  lemma StableThenNext(ranks: seq<nat>, front: seq<nat>, last: seq<nat>, m: nat)
    requires StableAlong(ranks, front, m)
    requires AllOfRank(ranks, last, m) && Ascending(last)
    ensures StableAlong(ranks, front + last, m + 1)
  {
    var at := front + last;
    assert forall a :: 0 <= a < |front| ==> at[a] == front[a];
    assert forall a :: 0 <= a < |last| ==> at[|front| + a] == last[a];
    assert forall a :: |front| <= a < |at| ==> ranks[at[a]] == m;
    forall a, b | 0 <= a < b < |at|
      ensures ranks[at[a]] < ranks[at[b]] || (ranks[at[a]] == ranks[at[b]] && at[a] < at[b])
    {
      if a >= |front| {
        assert last[a - |front|] < last[b - |front|];
      }
    }
  }

  lemma PickAppend(headers: seq<RequestHeader>, a: seq<nat>, b: seq<nat>)
    requires AllBelow(a, |headers|) && AllBelow(b, |headers|)
    ensures AllBelow(a + b, |headers|) && Pick(headers, a + b) == Pick(headers, a) + Pick(headers, b)
  {
  }

  /** One header more lands in exactly the bucket of its rank. */
  lemma BucketGrows(headers: seq<RequestHeader>, ranks: seq<nat>, r: nat, n: nat)
    requires |ranks| == |headers| && n < |ranks|
    ensures multiset(Pick(headers, Bucket(ranks, r, n + 1)))
         == multiset(Pick(headers, Bucket(ranks, r, n))) + (if ranks[n] == r then multiset{headers[n]} else multiset{})
  {
    hide Pick;
    var before := Bucket(ranks, r, n);
    if ranks[n] == r {
      PickAppend(headers, before, [n]);
      assert Pick(headers, [n]) == [headers[n]] by { PickOne(headers, n); }
    } else {
      assert Bucket(ranks, r, n + 1) == before;
    }
  }

  lemma PickOne(headers: seq<RequestHeader>, i: nat)
    requires i < |headers|
    ensures Pick(headers, [i]) == [headers[i]]
  {
  }

  lemma {:induction false} BucketsGrow(headers: seq<RequestHeader>, ranks: seq<nat>, m: nat, n: nat)
    requires |ranks| == |headers| && n < |ranks|
    ensures multiset(Pick(headers, Buckets(ranks, m, n + 1)))
         == multiset(Pick(headers, Buckets(ranks, m, n))) + (if ranks[n] < m then multiset{headers[n]} else multiset{})
  {
    hide Pick, Bucket;
    if m != 0 {
      BucketsGrow(headers, ranks, m - 1, n);
      BucketGrows(headers, ranks, m - 1, n);
      PickAppend(headers, Buckets(ranks, m - 1, n + 1), Bucket(ranks, m - 1, n + 1));
      PickAppend(headers, Buckets(ranks, m - 1, n), Bucket(ranks, m - 1, n));
    }
  }

  /** The headers before n, save one. */
  function Without(headers: seq<RequestHeader>, order: nat, n: nat): (m: multiset<RequestHeader>)
    requires n <= |headers|
  {
    if n == 0 then multiset{}
    else Without(headers, order, n - 1) + (if n - 1 != order then multiset{headers[n - 1]} else multiset{})
  }

  lemma {:induction false} WithoutOne(headers: seq<RequestHeader>, order: nat, n: nat)
    requires n <= |headers|
    ensures Without(headers, order, n) + (if order < n then multiset{headers[order]} else multiset{})
         == multiset(headers[..n])
  {
    if n != 0 {
      WithoutOne(headers, order, n - 1);
      assert headers[..n] == headers[..n - 1] + [headers[n - 1]];
      assert multiset(headers[..n]) == multiset(headers[..n - 1]) + multiset{headers[n - 1]};
    }
  }

  lemma {:induction false} EveryHeaderPlaced(headers: seq<RequestHeader>, ranks: seq<nat>, m: nat, order: nat, n: nat)
    requires |ranks| == |headers| && n <= |headers|
    requires forall i :: 0 <= i < |ranks| ==> (ranks[i] < m <==> i != order)
    ensures multiset(Pick(headers, Buckets(ranks, m, n))) == Without(headers, order, n)
  {
    hide Pick, Buckets, AllBelow;
    if n == 0 {
      NoneBelowZero(ranks, m);
      PickNothing(headers);
    } else {
      EveryHeaderPlaced(headers, ranks, m, order, n - 1);
      BucketsGrow(headers, ranks, m, n - 1);
    }
  }

  lemma {:induction false} NoneBelowZero(ranks: seq<nat>, m: nat)
    ensures Buckets(ranks, m, 0) == []
  {
    if m != 0 {
      NoneBelowZero(ranks, m - 1);
    }
  }

  /** Nothing but the order-key header is lost, and nothing is added. */
  lemma ReorderedIsPermutation(headers: seq<RequestHeader>, keys: seq<seq<byte>>, order: nat)
    requires order < |headers| && !headers[order].isPseudo && !SomeUnlisted(headers, keys, order)
    ensures multiset(Reordered(headers, keys, order)) + multiset{headers[order]} == multiset(headers)
  {
    hide FirstKey, IsConnection;
    var ranks := Ranks(headers, keys, order);
    forall i | 0 <= i < |ranks|
      ensures ranks[i] < |keys| + 2 <==> i != order
    {
      assert !Unlisted(headers, keys, order, i);
    }
    EveryHeaderPlaced(headers, ranks, |keys| + 2, order, |headers|);
    WithoutOne(headers, order, |headers|);
    assert headers[..|headers|] == headers;
  }

  /** Ranks never fall along the result, and headers of one rank keep their order. */
  lemma ReorderedIsStable(headers: seq<RequestHeader>, keys: seq<seq<byte>>, order: nat, a: nat, b: nat)
    requires a < b < |Placing(headers, keys, order)|
    ensures var at := Placing(headers, keys, order);
            && at[a] < |headers| && at[b] < |headers|
            && var x, y := Rank(headers, keys, order, at[a]), Rank(headers, keys, order, at[b]);
               x < y || (x == y && at[a] < at[b])
  {
    BucketsStable(Ranks(headers, keys, order), |keys| + 2, |headers|);
  }

  // ---------------------------------------------------------------- the order, on the headers themselves

  /** The pseudo headers, in their order. */
  function PseudosOf(headers: seq<RequestHeader>): (r: seq<RequestHeader>) {
    if headers == [] then []
    else PseudosOf(headers[..|headers| - 1])
         + (if headers[|headers| - 1].isPseudo then [headers[|headers| - 1]] else [])
  }

  /** The i-th header is to come before the j-th: pseudo headers first, then by first key, then as they were. */
  ghost predicate Precedes(headers: seq<RequestHeader>, keys: seq<seq<byte>>, i: nat, j: nat)
    requires i < |headers| && j < |headers|
  {
    if headers[i].isPseudo || headers[j].isPseudo then
      headers[i].isPseudo && (headers[j].isPseudo ==> i < j)
    else
      || (exists k :: 0 <= k < |keys| && SameName(headers[i].name, keys[k])
                      && forall l :: 0 <= l <= k ==> !SameName(headers[j].name, keys[l]))
      || (i < j && forall k :: 0 <= k < |keys| ==>
            (NamedFirst(headers[i].name, keys, k) <==> NamedFirst(headers[j].name, keys, k)))
  }

  predicate NamedFirst(name: seq<byte>, keys: seq<seq<byte>>, k: nat)
    requires k < |keys|
  {
    SameName(name, keys[k]) && forall l :: 0 <= l < k ==> !SameName(name, keys[l])
  }

  /** Every header but the order key's, once, each before all that it precedes. */
  ghost predicate IsArrangement(headers: seq<RequestHeader>, keys: seq<seq<byte>>, order: nat, at: seq<nat>,
                                r: seq<RequestHeader>)
  {
    && |at| == |r| && |headers| == |r| + 1
    && (forall a :: 0 <= a < |at| ==> at[a] < |headers| && at[a] != order && r[a] == headers[at[a]])
    && (forall a, b :: 0 <= a < b < |at| ==> at[a] != at[b] && Precedes(headers, keys, at[a], at[b]))
  }

  lemma RankPrecedes(headers: seq<RequestHeader>, keys: seq<seq<byte>>, order: nat, i: nat, j: nat)
    requires i < |headers| && j < |headers| && i != order && j != order && i != j
    requires !Unlisted(headers, keys, order, i) && !Unlisted(headers, keys, order, j)
    requires var x, y := Rank(headers, keys, order, i), Rank(headers, keys, order, j); x < y || (x == y && i < j)
    ensures Precedes(headers, keys, i, j)
  {
    hide SameName, IsConnection;
    if !headers[i].isPseudo && !headers[j].isPseudo {
      var k, l := FirstKey(headers[i].name, keys), FirstKey(headers[j].name, keys);
      if k < l {
        assert SameName(headers[i].name, keys[k]);
      } else {
        assert k == l;
      }
    }
  }

  /**
   The result is an arrangement of the headers: no header is lost or doubled but for the order key's, pseudo headers
   come first, then the others by the first key that names them, headers without a key last, and ties keep their order.
   */
  lemma ReorderedIsArranged(headers: seq<RequestHeader>, keys: seq<seq<byte>>, order: nat)
    requires order < |headers| && !headers[order].isPseudo && !SomeUnlisted(headers, keys, order)
    ensures exists at: seq<nat> :: IsArrangement(headers, keys, order, at, Reordered(headers, keys, order))
  {
    hide FirstKey, IsConnection, SameName, Rank, Precedes, Unlisted;
    var at, r := Placing(headers, keys, order), Reordered(headers, keys, order);
    var ranks := Ranks(headers, keys, order);
    BucketsStable(ranks, |keys| + 2, |headers|);
    ReorderedIsPermutation(headers, keys, order);
    assert |multiset(r) + multiset{headers[order]}| == |multiset(headers)|;
    forall a | 0 <= a < |at|
      ensures at[a] < |headers| && at[a] != order
    {
      OrderHasNoPlace(headers, keys, order);
    }
    forall a, b | 0 <= a < b < |at|
      ensures at[a] != at[b] && Precedes(headers, keys, at[a], at[b])
    {
      assert !Unlisted(headers, keys, order, at[a]) && !Unlisted(headers, keys, order, at[b]);
      RankPrecedes(headers, keys, order, at[a], at[b]);
    }
    assert IsArrangement(headers, keys, order, at, r);
  }

  lemma OrderHasNoPlace(headers: seq<RequestHeader>, keys: seq<seq<byte>>, order: nat)
    requires order < |headers| && !headers[order].isPseudo
    ensures Ranks(headers, keys, order)[order] == |keys| + 2
  {
  }

  /** The result starts with the pseudo headers in their order, and has none behind them. */
  lemma PseudosComeFirst(headers: seq<RequestHeader>, keys: seq<seq<byte>>, order: nat)
    requires order < |headers|
    ensures var p, r := PseudosOf(headers), Reordered(headers, keys, order);
            p <= r && forall a :: |p| <= a < |r| ==> !r[a].isPseudo
  {
    hide FirstKey, IsConnection, SameName, Pick;
    var ranks := Ranks(headers, keys, order);
    var first := Buckets(ranks, 1, |headers|);
    assert first == Bucket(ranks, 0, |headers|) by { assert Buckets(ranks, 0, |headers|) == []; }
    FirstBucketIsPseudos(headers, keys, order, |headers|);
    assert headers[..|headers|] == headers;
    LaterAreRegular(headers, keys, order, |keys| + 2);
  }

  lemma {:induction false} FirstBucketIsPseudos(headers: seq<RequestHeader>, keys: seq<seq<byte>>, order: nat, n: nat)
    requires n <= |headers|
    ensures Pick(headers, Bucket(Ranks(headers, keys, order), 0, n)) == PseudosOf(headers[..n])
  {
    hide FirstKey, IsConnection, Pick;
    PickNothing(headers);
    if n > 0 {
      FirstBucketIsPseudos(headers, keys, order, n - 1);
      PickNext(headers, Ranks(headers, keys, order), [], 0, n - 1);
      assert headers[..n][..n - 1] == headers[..n - 1];
    }
  }

  lemma {:induction false} LaterAreRegular(headers: seq<RequestHeader>, keys: seq<seq<byte>>, order: nat, m: nat)
    requires m >= 1
    ensures var ranks := Ranks(headers, keys, order);
            var p, r := Pick(headers, Bucket(ranks, 0, |headers|)), Pick(headers, Buckets(ranks, m, |headers|));
            p <= r && forall a :: |p| <= a < |r| ==> !r[a].isPseudo
    decreases m
  {
    hide FirstKey, IsConnection, Bucket;
    var ranks := Ranks(headers, keys, order);
    if m == 1 {
      assert Buckets(ranks, 1, |headers|) == Bucket(ranks, 0, |headers|) by {
        assert Buckets(ranks, 0, |headers|) == [];
      }
    } else {
      LaterAreRegular(headers, keys, order, m - 1);
      BucketAscends(ranks, m - 1, |headers|);
      PickAppend(headers, Buckets(ranks, m - 1, |headers|), Bucket(ranks, m - 1, |headers|));
    }
  }

  // ---------------------------------------------------------------- the reordering itself

  /** Cuts the raw value at its commas. */
  method ParseKeys(raw: seq<byte>) returns (keys: seq<seq<byte>>)
    ensures keys == Keys(raw)
  {
    hide Named, Keys, Trim;
    var start, end := 0, 0;
    keys := [];
    assert raw[0..] == raw;
    while true
      invariant start <= end <= |raw|
      invariant forall j :: start <= j < end ==> raw[j] != COMMA
      invariant Keys(raw) == keys + Keys(raw[start..])
      decreases |raw| - end
    {
      if end == |raw| || raw[end] == COMMA {
        PieceEnds(raw, start, end);
        NamedIs(raw[start..end]);
        var piece := Trim(raw[start..end]);
        if piece != [] {
          keys := keys + [piece];
        }
        if end == |raw| {
          return;
        }
        start := end + 1;
      }
      end := end + 1;
    }
  }

  lemma NamedIs(piece: seq<byte>)
    ensures Named(piece) == if Trim(piece) == [] then [] else [Trim(piece)]
  {
  }

  lemma PieceEnds(raw: seq<byte>, start: nat, end: nat)
    requires start <= end <= |raw| && (end < |raw| ==> raw[end] == COMMA)
    requires forall j :: start <= j < end ==> raw[j] != COMMA
    ensures Keys(raw[start..]) == Named(raw[start..end]) + (if end == |raw| then [] else Keys(raw[end + 1..]))
  {
    hide Named, IndexOf;
    var s, n := raw[start..], end - start;
    if end < |raw| {
      IndexOfIs(s, COMMA, n);
    } else {
      NoComma(s);
    }
    assert IndexOf(s, COMMA) == n;
    SlicesOf(raw, start, end);
  }

  lemma NoComma(s: seq<byte>)
    requires forall j :: 0 <= j < |s| ==> s[j] != COMMA
    ensures IndexOf(s, COMMA) == |s|
  {
  }

  lemma SlicesOf(raw: seq<byte>, start: nat, end: nat)
    requires start <= end <= |raw|
    ensures raw[start..][..end - start] == raw[start..end]
    ensures end < |raw| ==> raw[start..][end - start + 1..] == raw[end + 1..]
  {
  }

  method IsListed(name: seq<byte>, keys: seq<seq<byte>>) returns (listed: bool)
    ensures listed <==> FirstKey(name, keys) < |keys|
  {
    var k := 0;
    while k < |keys|
      invariant 0 <= k <= |keys| && forall j :: 0 <= j < k ==> !SameName(name, keys[j])
    {
      if SameName(name, keys[k]) {
        return true;
      }
      k := k + 1;
    }
    listed := false;
  }

  class Basket {
    var headers: seq<RequestHeader>
    var error: BasketError

    constructor (headers: seq<RequestHeader>)
      ensures this.headers == headers && error == NoBasketError
    {
      this.headers, error := headers, NoBasketError;
    }

    /**
     Without an order key nothing changes. An error is raised exactly when a header had to be listed and is not, and
     an error, raised here or earlier, leaves the headers alone; otherwise they are sorted by the list.
     */
    method ReorderHeadersByOrderKey()
      modifies this
      ensures var order := OrderIndex(old(headers));
              order == |old(headers)| ==> headers == old(headers) && error == old(error)
      ensures var order := OrderIndex(old(headers));
              && (order < |old(headers)| ==>
                    var keys := Keys(CString(old(headers)[order].value));
                    && error == (if SomeUnlisted(old(headers), keys, order) then HeaderOrderKeyMissingHeader
                                 else old(error))
                    && headers == (if error == NoBasketError then Reordered(old(headers), keys, order)
                                   else old(headers))
                    && (error == NoBasketError ==>
                          exists at: seq<nat> :: IsArrangement(old(headers), keys, order, at, headers)))
    {
      hide Keys, Reordered, Unlisted, IsArrangement;
      var order := FindOrderKey();
      if order == |headers| {
        return;
      }
      var keys := ParseKeys(CString(headers[order].value));
      CheckListed(keys, order);
      if error != NoBasketError {
        return;
      }
      ReorderedIsArranged(headers, keys, order);
      Arrange(keys, order);
    }

    method FindOrderKey() returns (order: nat)
      ensures order == OrderIndex(headers)
    {
      order := 0;
      while order < |headers| && !IsOrderKey(headers[order])
        invariant order <= |headers| && forall j :: 0 <= j < order ==> !IsOrderKey(headers[j])
      {
        order := order + 1;
      }
    }

    method CheckListed(keys: seq<seq<byte>>, order: nat)
      modifies this`error
      ensures error == if SomeUnlisted(headers, keys, order) then HeaderOrderKeyMissingHeader else old(error)
    {
      hide FirstKey, IsConnection;
      var i := 0;
      while i < |headers|
        invariant 0 <= i <= |headers| && error == old(error)
        invariant forall j :: 0 <= j < i ==> !Unlisted(headers, keys, order, j)
      {
        if !headers[i].isPseudo && i != order && !IsConnection(headers[i]) {
          var listed := IsListed(headers[i].name, keys);
          if !listed {
            assert Unlisted(headers, keys, order, i);
            error := HeaderOrderKeyMissingHeader;
            return;
          }
        }
        i := i + 1;
      }
    }

    /** Pseudo headers, then key by key every header not taken yet, then connection headers left over. */
    method Arrange(keys: seq<seq<byte>>, order: nat)
      requires order == OrderIndex(headers) < |headers|
      modifies this`headers
      ensures headers == Reordered(old(headers), keys, order)
    {
      hide FirstKey, IsConnection, Buckets, Bucket, Pick, SameName, OrderIndex;
      ghost var ranks := Ranks(headers, keys, order);
      var ordered := TakePseudos(keys, order, ranks);
      var matched := new bool[|headers|](_ => false);
      for k := 0 to |keys|
        invariant headers == old(headers) && ordered == Pick(headers, Buckets(ranks, k + 1, |headers|))
        invariant forall j :: 0 <= j < |headers| ==> (matched[j] <==> 1 <= ranks[j] < k + 1)
      {
        ordered := TakeMatching(keys, order, k, ranks, matched, ordered);
      }
      headers := TakeConnections(keys, order, ranks, matched, ordered);
    }

    method TakePseudos(ghost keys: seq<seq<byte>>, ghost order: nat, ghost ranks: seq<nat>)
      returns (ordered: seq<RequestHeader>)
      requires order < |headers| && ranks == Ranks(headers, keys, order)
      ensures ordered == Pick(headers, Buckets(ranks, 1, |headers|))
    {
      hide FirstKey, IsConnection, Pick;
      ordered := [];
      PickNothing(headers);
      for i := 0 to |headers|
        invariant ordered == Pick(headers, Bucket(ranks, 0, i))
      {
        PickNext(headers, ranks, [], 0, i);
        if headers[i].isPseudo {
          ordered := ordered + [headers[i]];
        }
      }
      assert Buckets(ranks, 1, |headers|) == Bucket(ranks, 0, |headers|) by {
        assert Buckets(ranks, 0, |headers|) == [];
      }
    }

    /** One key: every header of its name that no earlier key took, in original order. */
    method TakeMatching(keys: seq<seq<byte>>, order: nat, k: nat, ghost ranks: seq<nat>, matched: array<bool>,
                        ordered: seq<RequestHeader>) returns (more: seq<RequestHeader>)
      requires k < |keys| && order < |headers| && matched.Length == |headers| && ranks == Ranks(headers, keys, order)
      requires ordered == Pick(headers, Buckets(ranks, k + 1, |headers|))
      requires forall j :: 0 <= j < |headers| ==> (matched[j] <==> 1 <= ranks[j] < k + 1)
      modifies matched
      ensures more == Pick(headers, Buckets(ranks, k + 2, |headers|))
      ensures forall j :: 0 <= j < |headers| ==> (matched[j] <==> 1 <= ranks[j] < k + 2)
    {
      hide Bucket, Buckets, Pick, SameName, FirstKey, IsConnection, Ranks;
      ghost var done := Buckets(ranks, k + 1, |headers|);
      more := ordered;
      PickNone(headers, ranks, done, k + 1);
      for i := 0 to |headers|
        invariant more == Pick(headers, done + Bucket(ranks, k + 1, i))
        invariant forall j :: 0 <= j < i ==> (matched[j] <==> 1 <= ranks[j] < k + 2)
        invariant forall j :: i <= j < |headers| ==> (matched[j] <==> 1 <= ranks[j] < k + 1)
      {
        PickNext(headers, ranks, done, k + 1, i);
        RankIsKey(headers, keys, order, i, k);
        if !headers[i].isPseudo && i != order && !matched[i] && SameName(headers[i].name, keys[k]) {
          more := more + [headers[i]];
          matched[i] := true;
        }
      }
      assert Buckets(ranks, k + 2, |headers|) == done + Bucket(ranks, k + 1, |headers|) by {
        BucketsStep(ranks, k + 2, |headers|);
      }
    }

    method TakeConnections(keys: seq<seq<byte>>, order: nat, ghost ranks: seq<nat>, matched: array<bool>,
                           ordered: seq<RequestHeader>) returns (more: seq<RequestHeader>)
      requires order < |headers| && matched.Length == |headers| && ranks == Ranks(headers, keys, order)
      requires ordered == Pick(headers, Buckets(ranks, |keys| + 1, |headers|))
      requires forall j :: 0 <= j < |headers| ==> (matched[j] <==> 1 <= ranks[j] < |keys| + 1)
      modifies matched
      ensures more == Reordered(headers, keys, order)
    {
      hide Bucket, Buckets, Pick, FirstKey, IsConnection;
      ghost var done := Buckets(ranks, |keys| + 1, |headers|);
      more := ordered;
      PickNone(headers, ranks, done, |keys| + 1);
      for i := 0 to |headers|
        invariant more == Pick(headers, done + Bucket(ranks, |keys| + 1, i))
        invariant forall j :: i <= j < |headers| ==> (matched[j] <==> 1 <= ranks[j] < |keys| + 1)
      {
        PickNext(headers, ranks, done, |keys| + 1, i);
        if !headers[i].isPseudo && i != order && !matched[i] && IsConnection(headers[i]) {
          more := more + [headers[i]];
          matched[i] := true;
        }
      }
      assert Buckets(ranks, |keys| + 2, |headers|) == done + Bucket(ranks, |keys| + 1, |headers|) by {
        BucketsStep(ranks, |keys| + 2, |headers|);
      }
    }
  }

  lemma BucketsStep(ranks: seq<nat>, m: nat, n: nat)
    requires m > 0 && n <= |ranks|
    ensures Buckets(ranks, m, n) == Buckets(ranks, m - 1, n) + Bucket(ranks, m - 1, n)
  {
  }

  lemma PickNothing(headers: seq<RequestHeader>)
    ensures AllBelow([], |headers|) && Pick(headers, []) == []
  {
  }

  lemma PickNone(headers: seq<RequestHeader>, ranks: seq<nat>, done: seq<nat>, r: nat)
    requires AllBelow(done, |headers|)
    ensures done + Bucket(ranks, r, 0) == done
  {
  }

  /** The next index joins its bucket, and its header the result, exactly when it has that rank. */
  lemma PickNext(headers: seq<RequestHeader>, ranks: seq<nat>, done: seq<nat>, r: nat, i: nat)
    requires i < |headers| == |ranks| && AllBelow(done, |headers|)
    ensures Pick(headers, done + Bucket(ranks, r, i + 1))
         == Pick(headers, done + Bucket(ranks, r, i)) + (if ranks[i] == r then [headers[i]] else [])
    ensures done == [] ==> done + Bucket(ranks, r, i) == Bucket(ranks, r, i)
    ensures done == [] ==> done + Bucket(ranks, r, i + 1) == Bucket(ranks, r, i + 1)
  {
    var before := done + Bucket(ranks, r, i);
    if ranks[i] == r {
      assert done + Bucket(ranks, r, i + 1) == before + [i];
      PickAppend(headers, before, [i]);
      assert Pick(headers, [i]) == [headers[i]];
    } else {
      assert done + Bucket(ranks, r, i + 1) == before;
    }
  }

  /** A header no earlier key took has this key's rank exactly when the key names it. */
  lemma RankIsKey(headers: seq<RequestHeader>, keys: seq<seq<byte>>, order: nat, i: nat, k: nat)
    requires i < |headers| && k < |keys|
    ensures Ranks(headers, keys, order)[i] == k + 1
       <==> !headers[i].isPseudo && i != order && SameName(headers[i].name, keys[k])
            && !(1 <= Ranks(headers, keys, order)[i] < k + 1)
  {
    hide SameName, IsConnection;
  }
}
