/** The table of per-target establish locks: slots found by key, counted by their users, reclaimed by the last. */
module EstablishLocks {
  import opened HpackPrimitives
  import opened DynamicTable

  const MAX_SESSIONS: nat := 1024

  /** A lock with its key; holder is the thread inside, 0-based. */
  datatype Slot = Slot(key: string, refCount: int, inUse: bool, holder: Option<nat>)

  function FreeSlot(): (s: Slot) {
    Slot("", 0, false, None)
  }

  /** The first slot in use for a key, or the size of the table. */
  function FindKey(slots: seq<Slot>, key: string): (i: nat)
    ensures i <= |slots| && (i < |slots| ==> slots[i].inUse && slots[i].key == key)
    ensures forall j :: 0 <= j < i ==> !(slots[j].inUse && slots[j].key == key)
  {
    if slots == [] || (slots[0].inUse && slots[0].key == key) then 0 else 1 + FindKey(slots[1..], key)
  }

  /** The first slot not in use, or the size of the table. */
  function FindFree(slots: seq<Slot>): (i: nat)
    ensures i <= |slots| && (i < |slots| ==> !slots[i].inUse)
    ensures forall j :: 0 <= j < i ==> slots[j].inUse
  {
    if slots == [] || !slots[0].inUse then 0 else 1 + FindFree(slots[1..])
  }

  /** Where a thread with this key ends up: a slot, or nowhere when the table is full. */
  function SlotFor(slots: seq<Slot>, key: string): (i: nat)
    ensures i <= |slots|
  {
    if FindKey(slots, key) < |slots| then FindKey(slots, key) else FindFree(slots)
  }

  /** The registry section of acquireEstablishLock. */
  function Acquired(slots: seq<Slot>, key: string): (r: seq<Slot>)
    ensures |r| == |slots|
  {
    var i := SlotFor(slots, key);
    if i == |slots| then slots
    else if slots[i].inUse then slots[i := slots[i].(refCount := slots[i].refCount + 1)]
    else slots[i := Slot(key, 1, true, None)]
  }

  /** The registry section of releaseEstablishLock. */
  function Released(slots: seq<Slot>, i: nat): (r: seq<Slot>)
    requires i < |slots|
    ensures |r| == |slots|
  {
    var left := slots[i].refCount - 1;
    slots[i := if left == 0 then FreeSlot() else slots[i].(refCount := left)]
  }

  /** A slot for a key is found or taken exactly when the key has one or some slot is free. */
  lemma FullOnlyWithoutRoom(slots: seq<Slot>, key: string)
    ensures SlotFor(slots, key) == |slots| <==> forall j :: 0 <= j < |slots| ==> slots[j].inUse && slots[j].key != key
  {
  }

  class Registry {
    const slots: array<Slot>

    constructor ()
      ensures fresh(slots) && slots.Length == MAX_SESSIONS
      ensures forall i :: 0 <= i < slots.Length ==> slots[i] == FreeSlot()
    {
      slots := new Slot[MAX_SESSIONS](_ => FreeSlot());
    }

    /** Finds or allocates the slot of a key and counts the caller in; -1 when the table is full. */
    method Acquire(key: string) returns (index: int)
      modifies slots
      ensures slots[..] == Acquired(old(slots[..]), key)
      ensures index == if SlotFor(old(slots[..]), key) == slots.Length then -1 else SlotFor(old(slots[..]), key)
    {
      ghost var s := slots[..];
      var freeIdx, i := -1, 0;
      index := -1;
      while i < slots.Length
        invariant 0 <= i <= slots.Length && slots[..] == s && index == -1
        invariant forall j :: 0 <= j < i ==> !(s[j].inUse && s[j].key == key)
        invariant -1 <= freeIdx < i && (freeIdx >= 0 ==> !s[freeIdx].inUse)
        invariant forall j :: 0 <= j < (if freeIdx < 0 then i else freeIdx) ==> s[j].inUse
      {
        if slots[i].inUse {
          if slots[i].key == key {
            index := i;
            break;
          }
        } else if freeIdx < 0 {
          freeIdx := i;
        }
        i := i + 1;
      }
      if index == -1 && freeIdx >= 0 {
        index := freeIdx;
        slots[index] := Slot(key, 0, true, None);
      }
      if index >= 0 {
        slots[index] := slots[index].(refCount := slots[index].refCount + 1);
      }
    }

    /** Drops one reference; the last one frees the slot. */
    method Release(index: nat)
      requires index < slots.Length
      modifies slots
      ensures slots[..] == Released(old(slots[..]), index)
    {
      slots[index] := slots[index].(refCount := slots[index].refCount - 1);
      if slots[index].refCount == 0 {
        slots[index] := FreeSlot();
      }
    }
  }
}
