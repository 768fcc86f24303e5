/** The HPACK dynamic table: an array that grows, shifts and evicts, and the table of section 4 of RFC 7541. */
module DynamicTable {
  import opened Octets

  /** Names and values are C strings, so their lengths are those of their text. */
  datatype Entry = Entry(name: seq<byte>, value: seq<byte>)

  /** 32 octets of overhead per entry (section 4.1 of RFC 7541). */
  function EntrySize(e: Entry): (n: nat) {
    |e.name| + |e.value| + 32
  }

  function TableSize(t: seq<Entry>): (n: nat) {
    if t == [] then 0 else TableSize(t[..|t| - 1]) + EntrySize(t[|t| - 1])
  }

  /** Entries leave from the end until the rest fits (sections 4.3 and 4.4 of RFC 7541). */
  function Evicted(t: seq<Entry>, room: nat): (r: seq<Entry>)
    ensures |r| <= |t|
  {
    if TableSize(t) <= room then t else Evicted(t[..|t| - 1], room)
  }

  /** A new entry goes to the front; one larger than the table empties it. */
  function Inserted(t: seq<Entry>, e: Entry, max: nat): (r: seq<Entry>) {
    if EntrySize(e) > max then [] else [e] + Evicted(t, max - EntrySize(e))
  }

  // ---------------------------------------------------------------- what eviction keeps

  lemma {:induction false} TableSizeGrows(t: seq<Entry>, j: nat, k: nat)
    requires j < k <= |t|
    ensures TableSize(t[..j]) < TableSize(t[..k])
  {
    assert t[..k][..k - 1] == t[..k - 1];
    if j < k - 1 {
      TableSizeGrows(t, j, k - 1);
    }
  }

  /** Eviction keeps the longest prefix that fits. */
  lemma {:induction false} EvictedIsLongestPrefix(t: seq<Entry>, room: nat)
    ensures var r := Evicted(t, room);
            && r == t[..|r|] && TableSize(r) <= room
            && forall k :: |r| < k <= |t| ==> TableSize(t[..k]) > room
  {
    var r := Evicted(t, room);
    if TableSize(t) > room {
      var u := t[..|t| - 1];
      EvictedIsLongestPrefix(u, room);
      forall k | |r| < k <= |t|
        ensures TableSize(t[..k]) > room
      {
        if k < |t| {
          assert t[..k] == u[..k];
        } else {
          assert t[..k] == t;
        }
      }
    } else {
      assert r == t[..|r|];
    }
  }

  lemma {:induction false} TableSizeFront(e: Entry, t: seq<Entry>)
    ensures TableSize([e] + t) == EntrySize(e) + TableSize(t)
  {
    if t != [] {
      assert ([e] + t)[..|t|] == [e] + t[..|t| - 1];
      TableSizeFront(e, t[..|t| - 1]);
    } else {
      assert [e] + t == [e];
    }
  }

  /** An insertion never overfills the table, and says which of the old entries survive. */
  lemma InsertedFits(t: seq<Entry>, e: Entry, max: nat)
    ensures TableSize(Inserted(t, e, max)) <= max
    ensures EntrySize(e) > max ==> Inserted(t, e, max) == []
    ensures EntrySize(e) <= max ==>
              var r := Inserted(t, e, max);
              && 0 < |r| && r[0] == e && r[1..] == t[..|r| - 1]
              && forall k :: |r| <= k <= |t| ==> EntrySize(e) + TableSize(t[..k]) > max
  {
    if EntrySize(e) <= max {
      EvictedIsLongestPrefix(t, max - EntrySize(e));
      TableSizeFront(e, Evicted(t, max - EntrySize(e)));
    }
  }

  /** With less room, less of a shorter table stays: a prefix of what stays of the longer one. */
  lemma EvictedFollows(a: seq<Entry>, b: seq<Entry>, m: nat, n: nat)
    requires a <= b && m <= n
    ensures Evicted(a, m) <= Evicted(b, n)
  {
    EvictedIsLongestPrefix(a, m);
    EvictedIsLongestPrefix(b, n);
    var p, q := Evicted(a, m), Evicted(b, n);
    assert b[..|p|] == p;
    assert |p| <= |q|;
    assert b[..|q|][..|p|] == b[..|p|];
  }

  lemma InsertedFollows(a: seq<Entry>, b: seq<Entry>, e: Entry, m: nat, n: nat)
    requires a <= b && m <= n
    ensures Inserted(a, e, m) <= Inserted(b, e, n)
  {
    if EntrySize(e) <= m {
      EvictedFollows(a, b, m - EntrySize(e), n - EntrySize(e));
    }
  }

  /** The same room leaves the same of a table and of its prefix exactly when the next entry behind is too much. */
  lemma EvictedSameIff(a: seq<Entry>, b: seq<Entry>, room: nat)
    requires a <= b
    ensures Evicted(a, room) == Evicted(b, room) <==> a == b || TableSize(b[..|a| + 1]) > room
  {
    hide TableSize, Evicted;
    EvictedIsLongestPrefix(a, room);
    EvictedIsLongestPrefix(b, room);
    EvictedFollows(a, b, room, room);
    var p, q := Evicted(a, room), Evicted(b, room);
    if |q| <= |a| {
      assert a[..|q|] == b[..|q|] == q;
      assert |q| <= |p|;
    } else if |a| + 1 < |q| {
      assert b[..|q|] == q;
      TableSizeGrows(b, |a| + 1, |q|);
    }
  }

  datatype TableOp = Insert(e: Entry) | Resize(max: nat)

  datatype Table = Table(entries: seq<Entry>, max: nat)

  function Apply(t: Table, op: TableOp): (r: Table) {
    match op
    case Insert(e) => t.(entries := Inserted(t.entries, e, t.max))
    case Resize(max) => Table(Evicted(t.entries, max), max)
  }

  function Run(t: Table, ops: seq<TableOp>): (r: Table)
    decreases |ops|
  {
    if ops == [] then t else Run(Apply(t, ops[0]), ops[1..])
  }

  /** Whatever the peer inserts and resizes, the entries never exceed the current maximum. */
  lemma {:induction false} RunStaysWithinMaximum(t: Table, ops: seq<TableOp>)
    requires TableSize(t.entries) <= t.max
    ensures TableSize(Run(t, ops).entries) <= Run(t, ops).max
    decreases |ops|
  {
    if ops != [] {
      match ops[0] {
        case Insert(e) => InsertedFits(t.entries, e, t.max);
        case Resize(max) => EvictedIsLongestPrefix(t.entries, max);
      }
      RunStaysWithinMaximum(Apply(t, ops[0]), ops[1..]);
    }
  }

  // ---------------------------------------------------------------- the array behind it

  class HpackContext {
    var dynamicTable: array<Entry>
    var dynamicTableSize: nat
    var dynamicTableMaxSize: nat

    ghost predicate Valid()
      reads this
    {
      dynamicTableSize <= dynamicTable.Length
    }

    ghost function Contents(): (t: Table)
      requires Valid()
      reads this, dynamicTable
    {
      Table(dynamicTable[..dynamicTableSize], dynamicTableMaxSize)
    }

    constructor (maxSize: nat)
      ensures Valid() && fresh(dynamicTable) && Contents() == Table([], maxSize)
    {
      dynamicTable := new Entry[0];
      dynamicTableSize, dynamicTableMaxSize := 0, maxSize;
    }

    method UsedSize() returns (used: nat)
      requires Valid()
      ensures used == TableSize(Contents().entries)
    {
      used := 0;
      for i := 0 to dynamicTableSize
        invariant used == TableSize(dynamicTable[..i])
      {
        assert dynamicTable[..i + 1][..i] == dynamicTable[..i];
        used := used + EntrySize(dynamicTable[i]);
      }
    }

    method EvictFromTail()
      requires Valid()
      modifies this`dynamicTableSize
      ensures Valid()
      ensures dynamicTableSize == if old(dynamicTableSize) == 0 then 0 else old(dynamicTableSize) - 1
    {
      if dynamicTableSize == 0 {
        return;
      }
      dynamicTableSize := dynamicTableSize - 1;
    }

    /** A table size update: the new maximum takes effect at once. */
    method UpdateMaxSize(maxSize: nat)
      requires Valid()
      modifies this`dynamicTableSize, this`dynamicTableMaxSize
      ensures Valid() && Contents() == Apply(old(Contents()), Resize(maxSize))
    {
      dynamicTableMaxSize := maxSize;
      var used := UsedSize();
      while dynamicTableSize > 0 && used > dynamicTableMaxSize
        invariant Valid() && dynamicTableMaxSize == maxSize
        invariant used == TableSize(dynamicTable[..dynamicTableSize])
        invariant Evicted(dynamicTable[..dynamicTableSize], maxSize) == Evicted(old(Contents().entries), maxSize)
        decreases dynamicTableSize
      {
        assert dynamicTable[..dynamicTableSize][..dynamicTableSize - 1] == dynamicTable[..dynamicTableSize - 1];
        EvictFromTail();
        used := UsedSize();
      }
    }

    method Add(name: seq<byte>, value: seq<byte>)
      requires Valid()
      modifies this, dynamicTable
      ensures Valid() && (dynamicTable == old(dynamicTable) || fresh(dynamicTable))
      ensures Contents() == Apply(old(Contents()), Insert(Entry(name, value)))
    {
      var entrySize := |name| + |value| + 32;
      if entrySize > dynamicTableMaxSize {
        while dynamicTableSize > 0
          invariant Valid() && dynamicTable == old(dynamicTable) && dynamicTableMaxSize == old(dynamicTableMaxSize)
          decreases dynamicTableSize
        {
          EvictFromTail();
        }
        return;
      }
      EvictToFit(entrySize);
      PushFront(Entry(name, value));
    }

    /** Evicts the oldest entries until a new one fits. */
    method EvictToFit(entrySize: nat)
      requires Valid() && entrySize <= dynamicTableMaxSize
      modifies this`dynamicTableSize
      ensures Valid()
      ensures Contents().entries == Evicted(old(Contents().entries), dynamicTableMaxSize - entrySize)
    {
      ghost var room := dynamicTableMaxSize - entrySize;
      var used := UsedSize();
      while dynamicTableSize > 0 && used + entrySize > dynamicTableMaxSize
        invariant Valid()
        invariant used == TableSize(dynamicTable[..dynamicTableSize])
        invariant Evicted(dynamicTable[..dynamicTableSize], room) == Evicted(old(Contents().entries), room)
        decreases dynamicTableSize
      {
        assert dynamicTable[..dynamicTableSize][..dynamicTableSize - 1] == dynamicTable[..dynamicTableSize - 1];
        used := used - EntrySize(dynamicTable[dynamicTableSize - 1]);
        EvictFromTail();
      }
    }

    /** Shifts the entries back by one, growing the array first when it is full. */
    method PushFront(e: Entry)
      requires Valid()
      modifies this`dynamicTable, this`dynamicTableSize, dynamicTable
      ensures Valid() && (dynamicTable == old(dynamicTable) || fresh(dynamicTable))
      ensures Contents() == old(Contents()).(entries := [e] + old(Contents().entries))
    {
      if dynamicTableSize >= dynamicTable.Length {
        Grow();
      }
      ghost var kept := dynamicTable[..dynamicTableSize];
      forall i | 0 < i <= dynamicTableSize {
        dynamicTable[i] := dynamicTable[i - 1];
      }
      dynamicTable[0] := e;
      dynamicTableSize := dynamicTableSize + 1;
      Shifted(kept, e, dynamicTable[..dynamicTableSize]);
    }

    method Grow()
      requires Valid()
      modifies this`dynamicTable
      ensures fresh(dynamicTable) && dynamicTable.Length > old(dynamicTable.Length)
      ensures Valid() && Contents() == old(Contents())
    {
      var capacity := if dynamicTable.Length == 0 then 8 else 2 * dynamicTable.Length;
      var grown := new Entry[capacity];
      forall i | 0 <= i < dynamicTableSize {
        grown[i] := dynamicTable[i];
      }
      dynamicTable := grown;
    }
  }

  lemma Shifted(was: seq<Entry>, e: Entry, now: seq<Entry>)
    requires |now| == |was| + 1 && now[0] == e && forall i :: 0 < i <= |was| ==> now[i] == was[i - 1]
    ensures now == [e] + was
  {
  }
}
