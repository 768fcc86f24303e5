/**
 Concurrent requests, interleaved step by step: each takes the lock of its target, finds or creates a connection, and
 leaves. One thread at a time per target is inside, and HTTP/2 connections are shared rather than duplicated.
 */
module SessionSharing {
  import opened HpackPrimitives
  import opened EstablishLocks
  import opened SessionPool

  /** Where a thread stands inside find-or-create. */
  datatype Work = Finding | Creating | Marking | Registering(http2: bool) | Finished

  datatype Phase =
    | Outside
    | Waiting(slot: nat)
    | Holding(slot: nat, work: Work)
    | Leaving(slot: nat)
    | AwaitingFallback
    | InFallback(work: Work)

  /** A thread's request, where it stands, and the connection it was given, as it was then. */
  datatype Thread = Thread(request: Request, phase: Phase, ride: Option<Session>)

  datatype State = State(slots: seq<Slot>, fallback: Option<nat>, threads: seq<Thread>, pool: Pool)

  /** What createSession brings: a connection, or a failure that may be the proxy's. */
  datatype Outcome = Connected(http2: bool) | Failed(proxyError: bool)

  datatype Step =
    | Enter(t: nat, request: Request)
    | Lock(t: nat)
    | Find(t: nat)
    | Create(t: nat, outcome: Outcome)
    | Mark(t: nat)
    | Register(t: nat, goingAway: bool, connected: bool)
    | Unlock(t: nat)
    | Leave(t: nat)
    | Worsen(i: nat, goingAway: bool, connected: bool)
    | Traffic(i: nat, inflight: nat)
    | Reap(i: nat)

  function Initially(threads: nat): (s: State) {
    State(seq(MAX_SESSIONS, _ => FreeSlot()), None,
          seq(threads, _ => Thread(Request(Target("", "", "", Proxy("", "", "", ""), false), false), Outside, None)),
          seq(MAX_SESSIONS, _ => None))
  }

  predicate Inside(p: Phase) {
    p.Holding? || p.InFallback?
  }

  function At(p: Phase, w: Work): (q: Phase)
    requires Inside(p)
  {
    match p
    case Holding(slot, _) => Holding(slot, w)
    case InFallback(_) => InFallback(w)
  }

  predicate IsPlain(scheme: string) {
    |scheme| == 4 && scheme[0] in "hH" && scheme[1] in "tT" && scheme[2] in "tT" && scheme[3] in "pP"
  }

  predicate IsThread(s: State, t: nat) {
    t < |s.threads|
  }

  predicate Works(s: State, t: nat, w: Work) {
    IsThread(s, t) && Inside(s.threads[t].phase) && s.threads[t].phase.work == w
  }

  /** A mutex is taken only while free; HTTP/2 is negotiated only over TLS and only when not ruled out. */
  predicate Enabled(s: State, step: Step) {
    match step
    case Enter(t, r) => IsThread(s, t) && s.threads[t].phase == Outside
    case Lock(t) =>
      && IsThread(s, t)
      && var p := s.threads[t].phase;
         || (p.Waiting? && p.slot < |s.slots| && s.slots[p.slot].holder == None)
         || (p.AwaitingFallback? && s.fallback == None)
    case Find(t) => Works(s, t, Finding)
    case Create(t, outcome) =>
      && Works(s, t, Creating)
      && (outcome == Connected(true) ==>
            !s.threads[t].request.forceHttp11 && !IsPlain(s.threads[t].request.target.scheme))
    case Mark(t) => Works(s, t, Marking)
    case Register(t, _, _) => IsThread(s, t) && Inside(s.threads[t].phase) && s.threads[t].phase.work.Registering?
    case Unlock(t) => Works(s, t, Finished) && (s.threads[t].phase.Holding? ==> s.threads[t].phase.slot < |s.slots|)
    case Leave(t) => IsThread(s, t) && s.threads[t].phase.Leaving? && s.threads[t].phase.slot < |s.slots|
    case Worsen(i, goingAway, connected) =>
      && i < |s.pool| && s.pool[i].Some?
      && (s.pool[i].value.goingAway ==> goingAway) && (connected ==> s.pool[i].value.connected)
    case Traffic(i, _) => i < |s.pool| && s.pool[i].Some?
    case Reap(i) => i < |s.pool|
  }

  function Moved(s: State, t: nat, phase: Phase): (s': State)
    requires IsThread(s, t)
  {
    s.(threads := s.threads[t := s.threads[t].(phase := phase)])
  }

  function Worked(s: State, t: nat, w: Work, ride: Option<Session>): (s': State)
    requires IsThread(s, t) && Inside(s.threads[t].phase)
  {
    s.(threads := s.threads[t := s.threads[t].(phase := At(s.threads[t].phase, w), ride := ride)])
  }

  function Next(s: State, step: Step): (s': State)
    requires Enabled(s, step)
  {
    match step
    case Enter(t, r) => Entered(s, t, r)
    case Lock(t) => Locked(s, t)
    case Find(t) =>
      var i := FindSession(s.pool, s.threads[t].request);
      if i < |s.pool| then Worked(s, t, Finished, s.pool[i]) else Worked(s, t, Creating, None)
    case Create(t, outcome) =>
      Worked(s, t, match outcome
                   case Connected(http2) => Registering(http2)
                   case Failed(proxyError) => if proxyError then Marking else Finished, None)
    case Mark(t) =>
      Worked(s.(pool := seq(|s.pool|, i requires 0 <= i < |s.pool| =>
                          Marked(s.pool[i], s.threads[t].request.target.proxy))), t, Finished, None)
    case Register(t, goingAway, connected) =>
      var session := Session(s.threads[t].request.target, s.threads[t].phase.work.http2, goingAway, connected, 0);
      Worked(s.(pool := Registered(s.pool, session)), t, Finished, Some(session))
    case Unlock(t) => Unlocked(s, t)
    case Leave(t) => Moved(s.(slots := Released(s.slots, s.threads[t].phase.slot)), t, Outside)
    case Worsen(i, goingAway, connected) =>
      s.(pool := s.pool[i := Some(s.pool[i].value.(goingAway := goingAway, connected := connected))])
    case Traffic(i, inflight) => s.(pool := s.pool[i := Some(s.pool[i].value.(inflight := inflight))])
    case Reap(i) => s.(pool := s.pool[i := None])
  }

  function Entered(s: State, t: nat, r: Request): (s': State)
    requires IsThread(s, t)
  {
    var i := SlotFor(s.slots, Key(r));
    s.(slots := Acquired(s.slots, Key(r)),
       threads := s.threads[t := Thread(r, if i == |s.slots| then AwaitingFallback else Waiting(i), None)])
  }

  function Locked(s: State, t: nat): (s': State)
    requires Enabled(s, Lock(t))
  {
    match s.threads[t].phase
    case Waiting(i) => Moved(s.(slots := s.slots[i := s.slots[i].(holder := Some(t))]), t, Holding(i, Finding))
    case AwaitingFallback => Moved(s.(fallback := Some(t)), t, InFallback(Finding))
  }

  function Unlocked(s: State, t: nat): (s': State)
    requires Enabled(s, Unlock(t))
  {
    match s.threads[t].phase
    case Holding(i, _) => Moved(s.(slots := s.slots[i := s.slots[i].(holder := None)]), t, Leaving(i))
    case InFallback(_) => Moved(s.(fallback := None), t, Outside)
  }

  // ---------------------------------------------------------------- users of a slot

  predicate Refers(p: Phase, i: nat) {
    (p.Waiting? || p.Holding? || p.Leaving?) && p.slot == i
  }

  function Users(threads: seq<Thread>, i: nat): (n: nat) {
    if threads == [] then 0
    else Users(threads[..|threads| - 1], i) + (if Refers(threads[|threads| - 1].phase, i) then 1 else 0)
  }

  lemma {:induction false} UsersUpdate(threads: seq<Thread>, t: nat, x: Thread, i: nat)
    requires t < |threads|
    ensures Users(threads[t := x], i) + (if Refers(threads[t].phase, i) then 1 else 0)
         == Users(threads, i) + (if Refers(x.phase, i) then 1 else 0)
  {
    var n := |threads| - 1;
    if t == n {
      assert threads[t := x][..n] == threads[..n];
    } else {
      assert threads[t := x][..n] == threads[..n][t := x];
      UsersUpdate(threads[..n], t, x, i);
    }
  }

  lemma {:induction false} UsersPositive(threads: seq<Thread>, i: nat)
    ensures Users(threads, i) > 0 <==> exists t :: 0 <= t < |threads| && Refers(threads[t].phase, i)
  {
    if threads != [] {
      var n := |threads| - 1;
      UsersPositive(threads[..n], i);
      if Users(threads, i) > 0 && !Refers(threads[n].phase, i) {
        var t :| 0 <= t < n && Refers(threads[..n][t].phase, i);
        assert Refers(threads[t].phase, i);
      }
      if t :| 0 <= t < |threads| && Refers(threads[t].phase, i) {
        assert t < n ==> threads[..n][t] == threads[t];
      }
    }
  }

  // ---------------------------------------------------------------- the lock table

  ghost predicate SlotsCounted(s: State) {
    && |s.slots| == MAX_SESSIONS
    && forall i :: 0 <= i < MAX_SESSIONS ==>
         s.slots[i].refCount == Users(s.threads, i) && (s.slots[i].inUse <==> s.slots[i].refCount > 0)
  }

  ghost predicate KeysDistinct(slots: seq<Slot>) {
    forall i, j :: 0 <= i < j < |slots| && slots[i].inUse && slots[j].inUse ==> slots[i].key != slots[j].key
  }

  ghost predicate UsersKnow(s: State) {
    forall t :: 0 <= t < |s.threads| ==>
      var p := s.threads[t].phase;
      p.Waiting? || p.Holding? || p.Leaving? ==>
        p.slot < |s.slots| && s.slots[p.slot].key == Key(s.threads[t].request)
  }

  ghost predicate HoldersInside(s: State) {
    && (forall i, t :: 0 <= i < |s.slots| && 0 <= t < |s.threads| ==>
          (s.slots[i].holder == Some(t) <==> s.threads[t].phase.Holding? && s.threads[t].phase.slot == i))
    && (forall t :: 0 <= t < |s.threads| ==> (s.fallback == Some(t) <==> s.threads[t].phase.InFallback?))
  }

  /**
   A slot's count is the number of its users, no two slots in use share a key, a slot keeps the key of its users as
   long as it has any, and its lock is held by the thread inside.
   */
  ghost predicate LockInv(s: State) {
    SlotsCounted(s) && KeysDistinct(s.slots) && UsersKnow(s) && HoldersInside(s)
  }

  lemma UserKeepsSlot(s: State, t: nat)
    requires SlotsCounted(s) && UsersKnow(s) && IsThread(s, t)
    ensures var p := s.threads[t].phase;
            p.Waiting? || p.Holding? || p.Leaving? ==> s.slots[p.slot].inUse && s.slots[p.slot].refCount > 0
  {
    var p := s.threads[t].phase;
    if p.Waiting? || p.Holding? || p.Leaving? {
      assert Refers(p, p.slot);
      UsersPositive(s.threads, p.slot);
    }
  }

  /** Two threads at the same target are never both inside under its lock. */
  lemma MutualExclusion(s: State, t: nat, u: nat)
    requires LockInv(s) && IsThread(s, t) && IsThread(s, u)
    requires s.threads[t].phase.Holding? && s.threads[u].phase.Holding?
    requires Key(s.threads[t].request) == Key(s.threads[u].request)
    ensures t == u
  {
    hide Key;
    UserKeepsSlot(s, t);
    UserKeepsSlot(s, u);
    var i := s.threads[t].phase.slot;
    assert s.slots[i].holder == Some(t);
  }

  lemma InitiallyLocked(threads: nat)
    ensures LockInv(Initially(threads))
  {
    hide Key;
    var s := Initially(threads);
    forall i | 0 <= i < MAX_SESSIONS
      ensures Users(s.threads, i) == 0
    {
      UsersPositive(s.threads, i);
    }
  }

  /** When one thread moves, the counts stay right if they move along with it. */
  lemma CountsFollow(s: State, s': State, t: nat)
    requires SlotsCounted(s) && IsThread(s, t) && |s'.slots| == MAX_SESSIONS && |s'.threads| == |s.threads|
    requires s'.threads == s.threads[t := s'.threads[t]]
    requires forall j :: 0 <= j < MAX_SESSIONS ==>
               && s'.slots[j].refCount == s.slots[j].refCount + (if Refers(s'.threads[t].phase, j) then 1 else 0)
                                          - (if Refers(s.threads[t].phase, j) then 1 else 0)
               && (s'.slots[j].inUse <==> s'.slots[j].refCount > 0)
    ensures SlotsCounted(s')
  {
    forall j | 0 <= j < MAX_SESSIONS
      ensures s'.slots[j].refCount == Users(s'.threads, j)
    {
      UsersUpdate(s.threads, t, s'.threads[t], j);
    }
  }

  lemma EnterKeepsLocks(s: State, t: nat, r: Request)
    requires LockInv(s) && Enabled(s, Enter(t, r))
    ensures LockInv(Entered(s, t, r))
  {
    hide Key, Users, SlotFor, FindKey, FindFree;
    var s', i := Entered(s, t, r), SlotFor(s.slots, Key(r));
    AcquiredSlots(s.slots, Key(r));
    if i < |s.slots| {
      LastUser(s, i);
    }
    assert HoldersInside(s');
    assert SlotsCounted(s') by { CountsFollow(s, s', t); }
    EnterKeepsKnowledge(s, t, r);
  }

  /** Taking a slot touches that slot only: a new key when it was free, one more user otherwise. */
  lemma AcquiredSlots(slots: seq<Slot>, key: string)
    requires KeysDistinct(slots)
    ensures var i, r := SlotFor(slots, key), Acquired(slots, key);
            && KeysDistinct(r) && (forall j :: 0 <= j < |slots| && j != i ==> r[j] == slots[j])
            && (i < |slots| ==> r[i].inUse && r[i].key == key)
            && (i < |slots| && slots[i].inUse ==>
                  slots[i].key == key && r[i] == slots[i].(refCount := slots[i].refCount + 1))
            && (i < |slots| && !slots[i].inUse ==> r[i] == Slot(key, 1, true, None))
  {
  }

  lemma EnterKeepsKnowledge(s: State, t: nat, r: Request)
    requires LockInv(s) && Enabled(s, Enter(t, r))
    ensures UsersKnow(Entered(s, t, r))
  {
    hide Key, Users, SlotFor, Acquired, HoldersInside;
    AcquiredSlots(s.slots, Key(r));
    var s' := Entered(s, t, r);
    forall u | 0 <= u < |s.threads| && u != t
      ensures var p := s'.threads[u].phase;
              p.Waiting? || p.Holding? || p.Leaving? ==> s'.slots[p.slot].key == Key(s'.threads[u].request)
    {
      UserKeepsSlot(s, u);
    }
  }

  lemma LockKeepsLocks(s: State, t: nat)
    requires LockInv(s) && Enabled(s, Lock(t))
    ensures LockInv(Locked(s, t))
  {
    hide Key;
    var s' := Locked(s, t);
    CountsFollow(s, s', t);
    assert HoldersInside(s');
  }

  lemma UnlockKeepsLocks(s: State, t: nat)
    requires LockInv(s) && Enabled(s, Unlock(t))
    ensures LockInv(Unlocked(s, t))
  {
    hide Key;
    var s' := Unlocked(s, t);
    CountsFollow(s, s', t);
    assert HoldersInside(s');
  }

  lemma LeaveKeepsLocks(s: State, t: nat)
    requires LockInv(s) && Enabled(s, Leave(t))
    ensures LockInv(Next(s, Leave(t)))
  {
    hide Key;
    var s', i := Next(s, Leave(t)), s.threads[t].phase.slot;
    CountsFollow(s, s', t);
    UserKeepsSlot(s, t);
    LastUser(s', i);
    assert UsersKnow(s');
    assert HoldersInside(s');
  }

  /** A slot without users is referred to by nobody. */
  lemma LastUser(s: State, i: nat)
    requires SlotsCounted(s) && i < MAX_SESSIONS
    ensures s.slots[i].refCount == 0 ==> forall u :: 0 <= u < |s.threads| ==> !Refers(s.threads[u].phase, i)
  {
    UsersPositive(s.threads, i);
  }

  /** Work inside the lock does not touch the locks. */
  lemma WorkKeepsLocks(s: State, t: nat, w: Work, ride: Option<Session>, pool: Pool)
    requires LockInv(s) && IsThread(s, t) && Inside(s.threads[t].phase)
    ensures LockInv(Worked(s.(pool := pool), t, w, ride))
  {
    hide Key, Users, HoldersInside, UsersKnow, KeysDistinct;
    var s' := Worked(s.(pool := pool), t, w, ride);
    assert SlotsCounted(s') by { CountsFollow(s, s', t); }
    WorkKeepsPlaces(s, t, w, ride, pool);
  }

  lemma WorkKeepsPlaces(s: State, t: nat, w: Work, ride: Option<Session>, pool: Pool)
    requires UsersKnow(s) && HoldersInside(s) && IsThread(s, t) && Inside(s.threads[t].phase)
    ensures var s' := Worked(s.(pool := pool), t, w, ride); UsersKnow(s') && HoldersInside(s')
  {
    hide Key;
  }

  lemma StepKeepsLocks(s: State, step: Step)
    requires LockInv(s) && Enabled(s, step)
    ensures LockInv(Next(s, step))
  {
    hide LockInv, Key, Entered, Locked, Unlocked, Released, Registered, Marked;
    match step {
      case Enter(t, r) => { EnterKeepsLocks(s, t, r); }
      case Lock(t) => { LockKeepsLocks(s, t); }
      case Find(t) => {
        var x := Next(s, step).threads[t];
        WorkKeepsLocks(s, t, x.phase.work, x.ride, s.pool);
      }
      case Create(t, outcome) => {
        WorkKeepsLocks(s, t, Next(s, step).threads[t].phase.work, None, s.pool);
      }
      case Mark(t) => { WorkKeepsLocks(s, t, Finished, None, Next(s, step).pool); }
      case Register(t, _, _) => {
        WorkKeepsLocks(s, t, Finished, Next(s, step).threads[t].ride, Next(s, step).pool);
      }
      case Unlock(t) => { UnlockKeepsLocks(s, t); }
      case Leave(t) => { LeaveKeepsLocks(s, t); }
      case Worsen(i, _, _) => { PoolApart(s, Next(s, step)); }
      case Traffic(i, _) => { PoolApart(s, Next(s, step)); }
      case Reap(i) => { PoolApart(s, Next(s, step)); }
    }
  }

  lemma PoolApart(s: State, s': State)
    requires LockInv(s) && s' == s.(pool := s'.pool)
    ensures LockInv(s')
  {
    hide Key;
  }
}
