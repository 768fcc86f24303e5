/**
 How many threads the establish locks serve: up to MAX_SESSIONS one at a time per request and no duplicate connection,
 and with one thread more the shared fallback lock lets a second one in.
 */
module FallbackRace {
  import opened HpackPrimitives
  import opened EstablishLocks
  import opened SessionPool
  import opened SessionSharing
  import opened SessionReuse

  /** Steps that can be taken one after the other. */
  ghost predicate Possible(s: State, steps: seq<Step>)
    decreases |steps|
  {
    steps != [] ==> Enabled(s, steps[0]) && Possible(Next(s, steps[0]), steps[1..])
  }

  ghost function Reached(s: State, steps: seq<Step>): (s': State)
    requires Possible(s, steps)
    decreases |steps|
  {
    if steps == [] then s else Reached(Next(s, steps[0]), steps[1..])
  }

  lemma {:induction false} ReachedAppend(s: State, steps: seq<Step>, more: seq<Step>)
    requires Possible(s, steps) && Possible(Reached(s, steps), more)
    ensures Possible(s, steps + more) && Reached(s, steps + more) == Reached(Reached(s, steps), more)
    decreases |steps|
  {
    hide Enabled, Next;
    if steps == [] {
      assert steps + more == more;
    } else {
      assert (steps + more)[1..] == steps[1..] + more;
      ReachedAppend(Next(s, steps[0]), steps[1..], more);
    }
  }

  lemma OneStep(s: State, step: Step)
    requires Enabled(s, step)
    ensures Possible(s, [step]) && Reached(s, [step]) == Next(s, step)
  {
    hide Enabled, Next;
    assert [step][1..] == [];
    assert Possible(Next(s, step), []);
  }

  lemma {:induction false} PossibleKeepsLocks(s: State, steps: seq<Step>)
    requires LockInv(s) && Possible(s, steps)
    ensures LockInv(Reached(s, steps))
    decreases |steps|
  {
    hide LockInv, Enabled, Next;
    if steps != [] {
      StepKeepsLocks(s, steps[0]);
      PossibleKeepsLocks(Next(s, steps[0]), steps[1..]);
    }
  }

  // ---------------------------------------------------------------- two threads inside

  /**
   Thread t found the table full and may take the shared lock, thread u is the last user of its slot and about to leave
   it, and no slot is in use for the request.
   */
  ghost predicate AboutToRace(s: State, t: nat, u: nat, r: Request) {
    && LockInv(s)
    && IsThread(s, t) && IsThread(s, u) && t != u
    && s.threads[t] == Thread(r, AwaitingFallback, None) && s.fallback == None
    && s.threads[u].phase.Leaving? && s.threads[u].phase.slot < MAX_SESSIONS
    && s.slots[s.threads[u].phase.slot].refCount == 1
    && FindKey(s.slots, Key(r)) == |s.slots|
  }

  /** Thread u leaves and comes back for the same request. */
  function RaceSteps(t: nat, u: nat, r: Request): (steps: seq<Step>) {
    [Lock(t), Leave(u), Enter(u, r), Lock(u)]
  }

  /** One under the shared lock, one under the target's own. */
  ghost predicate BothInside(s: State, t: nat, u: nat, r: Request, w: Work, x: Work) {
    && IsThread(s, t) && IsThread(s, u) && t != u
    && s.threads[t].request == r && s.threads[t].phase == InFallback(w)
    && s.threads[u].request == r && s.threads[u].phase.Holding? && s.threads[u].phase.work == x
  }

  lemma FourSteps(s: State, a: Step, b: Step, c: Step, d: Step)
    requires Enabled(s, a) && Enabled(Next(s, a), b) && Enabled(Next(Next(s, a), b), c)
    requires Enabled(Next(Next(Next(s, a), b), c), d)
    ensures Possible(s, [a, b, c, d]) && Reached(s, [a, b, c, d]) == Next(Next(Next(Next(s, a), b), c), d)
  {
    hide Enabled, Next;
    var s1, s2 := Next(s, a), Next(Next(s, a), b);
    OneStep(s, a);
    OneStep(s1, b);
    OneStep(s2, c);
    OneStep(Next(s2, c), d);
    ReachedAppend(s, [a], [b]);
    assert [a] + [b] == [a, b];
    ReachedAppend(s, [a, b], [c]);
    assert [a, b] + [c] == [a, b, c];
    ReachedAppend(s, [a, b, c], [d]);
    assert [a, b, c] + [d] == [a, b, c, d];
  }

  /** Four steps take two threads with one request inside find-or-create together. */
  lemma TwoThreadsInside(s: State, t: nat, u: nat, r: Request)
    requires AboutToRace(s, t, u, r)
    ensures Possible(s, RaceSteps(t, u, r))
    ensures var s' := Reached(s, RaceSteps(t, u, r));
            BothInside(s', t, u, r, Finding, Finding) && s'.pool == s.pool
  {
    hide Key, Users, FindKey, FindFree, KeysDistinct, UsersKnow, HoldersInside;
    var i := s.threads[u].phase.slot;
    var s1 := Next(s, Lock(t));
    var s2 := Next(s1, Leave(u));
    assert s2.slots == s.slots[i := FreeSlot()];
    FreedSlotIsFound(s.slots, i, Key(r));
    var s3 := Next(s2, Enter(u, r));
    var s4 := Next(s3, Lock(u));
    FourSteps(s, Lock(t), Leave(u), Enter(u, r), Lock(u));
  }

  lemma FreedSlotIsFound(slots: seq<Slot>, i: nat, key: string)
    requires i < |slots| && FindKey(slots, key) == |slots|
    ensures var freed := slots[i := FreeSlot()];
            var j := SlotFor(freed, key);
            && j < |freed| && !freed[j].inUse && Acquired(freed, key)[j] == Slot(key, 1, true, None)
            && FindKey(freed, key) == |freed|
  {
    var freed := slots[i := FreeSlot()];
    assert !freed[i].inUse;
    assert forall j :: 0 <= j < |freed| ==> !(freed[j].inUse && freed[j].key == key);
  }

  // ---------------------------------------------------------------- two connections

  /** Nothing to share with the request yet, and room for two in the pool. */
  ghost predicate RoomForTwo(pool: Pool, r: Request) {
    && FindSession(pool, r) == |pool| && !r.forceHttp11 && !IsPlain(r.target.scheme)
    && exists i, j :: 0 <= i < j < |pool| && pool[i] == None && pool[j] == None
  }

  function ConnectSteps(t: nat, u: nat): (steps: seq<Step>) {
    [Find(t), Find(u), Create(t, Connected(true)), Create(u, Connected(true))]
    + [Register(t, false, true), Register(u, false, true)]
  }

  function NewSession(r: Request): (session: Session) {
    Session(r.target, true, false, true, 0)
  }

  lemma TwoEmptyPlaces(pool: Pool, r: Request)
    requires RoomForTwo(pool, r)
    ensures var session := NewSession(r);
            var p := Registered(Registered(pool, session), session);
            exists i, j :: 0 <= i < j < |p| && p[i] == Some(session) && p[j] == Some(session)
  {
    hide FindSession;
    var session := NewSession(r);
    var i, j :| 0 <= i < j < |pool| && pool[i] == None && pool[j] == None;
    var m := FindEmpty(pool);
    var p1 := Registered(pool, session);
    assert m <= i && p1 == pool[m := Some(session)];
    assert p1[j] == None;
    var n := FindEmpty(p1);
    assert n <= j && n != m && m < n;
    var p2 := Registered(p1, session);
    assert p2[m] == Some(session) && p2[n] == Some(session);
  }

  /** Two threads inside for one request each connect, and the pool holds two reusable HTTP/2 sessions of its target. */
  lemma TwoConnections(s: State, t: nat, u: nat, r: Request)
    requires BothInside(s, t, u, r, Finding, Finding) && RoomForTwo(s.pool, r)
    ensures Possible(s, ConnectSteps(t, u))
    ensures var pool := Reached(s, ConnectSteps(t, u)).pool;
            exists i, j :: 0 <= i < j < |pool| && Shared(pool[i], r.target) && Shared(pool[j], r.target)
  {
    hide FindSession, Registered;
    var s4 := BothRegister(s, t, u, r);
    TwoEmptyPlaces(s.pool, r);
    var session := NewSession(r);
    var s5 := Next(s4, Register(t, false, true));
    assert BothInside(s5, t, u, r, Finished, Registering(true)) && s5.pool == Registered(s.pool, session);
    var s6 := Next(s5, Register(u, false, true));
    assert s6.pool == Registered(Registered(s.pool, session), session);
    OneStep(s4, Register(t, false, true));
    OneStep(s5, Register(u, false, true));
    ReachedAppend(s4, [Register(t, false, true)], [Register(u, false, true)]);
    assert [Register(t, false, true)] + [Register(u, false, true)]
        == [Register(t, false, true), Register(u, false, true)];
    ReachedAppend(s, [Find(t), Find(u), Create(t, Connected(true)), Create(u, Connected(true))],
                  [Register(t, false, true), Register(u, false, true)]);
  }

  lemma BothRegister(s: State, t: nat, u: nat, r: Request) returns (s4: State)
    requires BothInside(s, t, u, r, Finding, Finding) && RoomForTwo(s.pool, r)
    ensures var steps := [Find(t), Find(u), Create(t, Connected(true)), Create(u, Connected(true))];
            Possible(s, steps) && s4 == Reached(s, steps)
    ensures BothInside(s4, t, u, r, Registering(true), Registering(true)) && s4.pool == s.pool
  {
    hide FindSession, Registered;
    var s1 := Next(s, Find(t));
    assert BothInside(s1, t, u, r, Creating, Finding) && s1.pool == s.pool;
    var s2 := Next(s1, Find(u));
    assert BothInside(s2, t, u, r, Creating, Creating) && s2.pool == s.pool;
    var s3 := Next(s2, Create(t, Connected(true)));
    assert BothInside(s3, t, u, r, Registering(true), Creating) && s3.pool == s.pool;
    s4 := Next(s3, Create(u, Connected(true)));
    FourSteps(s, Find(t), Find(u), Create(t, Connected(true)), Create(u, Connected(true)));
  }

  // ---------------------------------------------------------------- a run that gets there

  function Host(k: nat): (host: string)
    ensures |host| == k
  {
    seq(k, _ => 'a')
  }

  /** A request of its own for every number. */
  function Req(k: nat): (r: Request) {
    Request(Target("https", Host(k), "443", Proxy("", "", "", ""), false), false)
  }

  const KEY_REST: nat := 28

  lemma KeyLength(k: nat)
    requires k <= MAX_SESSIONS
    ensures |Key(Req(k))| == k + KEY_REST
  {
    hide Host;
  }

  function Idle(): (t: Thread) {
    Thread(Request(Target("", "", "", Proxy("", "", "", ""), false), false), Outside, None)
  }

  /** The first n threads wait at slots of their own. */
  function Crowd(threads: nat, n: nat): (s: State)
    requires n <= MAX_SESSIONS < threads
  {
    State(seq(MAX_SESSIONS, i requires 0 <= i => if i < n then Slot(Key(Req(i)), 1, true, None) else FreeSlot()), None,
          seq(threads, t requires 0 <= t => if t < n then Thread(Req(t), Waiting(t), None) else Idle()),
          seq(MAX_SESSIONS, _ => None))
  }

  function CrowdSteps(n: nat): (steps: seq<Step>) {
    if n == 0 then [] else CrowdSteps(n - 1) + [Enter(n - 1, Req(n - 1))]
  }

  /** No slot is in use for a request that has not entered. */
  lemma NewcomerHasNoSlot(threads: nat, n: nat, k: nat)
    requires n <= k <= MAX_SESSIONS < threads
    ensures FindKey(Crowd(threads, n).slots, Key(Req(k))) == MAX_SESSIONS
  {
    hide Key, Req;
    var slots := Crowd(threads, n).slots;
    forall i | 0 <= i < MAX_SESSIONS
      ensures !(slots[i].inUse && slots[i].key == Key(Req(k)))
    {
      if i < n {
        KeyLength(i);
        KeyLength(k);
      }
    }
  }

  lemma FirstFreeIs(threads: nat, n: nat)
    requires n <= MAX_SESSIONS < threads
    ensures FindFree(Crowd(threads, n).slots) == n
  {
    hide Key, Req;
    var slots := Crowd(threads, n).slots;
    if n < MAX_SESSIONS {
      assert slots[n] == FreeSlot();
    }
    assert forall i :: 0 <= i < n ==> slots[i].inUse;
  }

  lemma CrowdGrows(threads: nat, n: nat)
    requires n < MAX_SESSIONS < threads
    ensures Enabled(Crowd(threads, n), Enter(n, Req(n)))
    ensures Next(Crowd(threads, n), Enter(n, Req(n))) == Crowd(threads, n + 1)
  {
    hide Key, Req, FindKey, FindFree;
    NewcomerHasNoSlot(threads, n, n);
    FirstFreeIs(threads, n);
    var s, s' := Crowd(threads, n), Entered(Crowd(threads, n), n, Req(n));
    assert s'.slots == Crowd(threads, n + 1).slots;
    assert s'.threads == Crowd(threads, n + 1).threads;
  }

  lemma {:induction false} CrowdIsReached(threads: nat, n: nat)
    requires n <= MAX_SESSIONS < threads
    ensures Possible(Crowd(threads, 0), CrowdSteps(n)) && Reached(Crowd(threads, 0), CrowdSteps(n)) == Crowd(threads, n)
    decreases n
  {
    hide Crowd, Enabled, Next;
    if n != 0 {
      CrowdIsReached(threads, n - 1);
      CrowdGrows(threads, n - 1);
      OneStep(Crowd(threads, n - 1), Enter(n - 1, Req(n - 1)));
      ReachedAppend(Crowd(threads, 0), CrowdSteps(n - 1), [Enter(n - 1, Req(n - 1))]);
    }
  }

  lemma CrowdStartsInitially(threads: nat)
    requires MAX_SESSIONS < threads
    ensures Crowd(threads, 0) == Initially(threads)
  {
    hide Key, Req;
    assert Crowd(threads, 0).slots == Initially(threads).slots;
    assert forall t :: 0 <= t < threads ==> Crowd(threads, 0).threads[t] == Idle() == Initially(threads).threads[t];
    assert Crowd(threads, 0).threads == Initially(threads).threads;
    assert Crowd(threads, 0).pool == Initially(threads).pool;
  }

  /** One more request finds the table full, and the first thread gives up and is about to leave. */
  function LateSteps(): (steps: seq<Step>) {
    [Enter(MAX_SESSIONS, Req(MAX_SESSIONS))] + [Lock(0), Find(0), Create(0, Failed(false)), Unlock(0)]
  }

  lemma NothingInEmptyPool(threads: nat, r: Request)
    requires MAX_SESSIONS < threads
    ensures FindSession(Crowd(threads, 0).pool, r) == MAX_SESSIONS
  {
    hide Key, Req;
    assert forall i :: 0 <= i < MAX_SESSIONS ==> Crowd(threads, 0).pool[i] == None;
  }

  /** The full table, with one request that found no slot. */
  function Overfull(threads: nat): (s: State)
    requires MAX_SESSIONS < threads
  {
    var s := Crowd(threads, MAX_SESSIONS);
    s.(threads := s.threads[MAX_SESSIONS := Thread(Req(MAX_SESSIONS), AwaitingFallback, None)])
  }

  lemma OverfullIsNext(threads: nat)
    requires MAX_SESSIONS < threads
    ensures var step := Enter(MAX_SESSIONS, Req(MAX_SESSIONS));
            Enabled(Crowd(threads, MAX_SESSIONS), step) && Next(Crowd(threads, MAX_SESSIONS), step) == Overfull(threads)
  {
    hide Key, Req, FindKey, FindFree;
    NewcomerHasNoSlot(threads, MAX_SESSIONS, MAX_SESSIONS);
    FirstFreeIs(threads, MAX_SESSIONS);
  }

  /** The first thread locks, fails to connect and unlocks. */
  lemma FirstGivesUp(s: State)
    requires |s.threads| > 0 && s.threads[0] == Thread(Req(0), Waiting(0), None)
    requires |s.slots| > 0 && s.slots[0].holder == None && FindSession(s.pool, Req(0)) == |s.pool|
    ensures var steps := [Lock(0), Find(0), Create(0, Failed(false)), Unlock(0)];
            && Possible(s, steps)
            && Reached(s, steps) == s.(threads := s.threads[0 := Thread(Req(0), Leaving(0), None)])
  {
    hide Key, Req, FindSession;
    var s1 := Next(s, Lock(0));
    var s2 := Next(s1, Find(0));
    var s3 := Next(s2, Create(0, Failed(false)));
    var s4 := Next(s3, Unlock(0));
    FourSteps(s, Lock(0), Find(0), Create(0, Failed(false)), Unlock(0));
    assert s4.slots == s.slots;
  }

  /** All steps up to the race. */
  function Approach(): (steps: seq<Step>) {
    CrowdSteps(MAX_SESSIONS) + LateSteps()
  }

  lemma LateStepsReach(threads: nat)
    requires MAX_SESSIONS < threads
    ensures Possible(Crowd(threads, MAX_SESSIONS), LateSteps())
    ensures Reached(Crowd(threads, MAX_SESSIONS), LateSteps())
         == Overfull(threads).(threads := Overfull(threads).threads[0 := Thread(Req(0), Leaving(0), None)])
  {
    hide Key, Req, Enabled, Next;
    var enter := Enter(MAX_SESSIONS, Req(MAX_SESSIONS));
    OverfullIsNext(threads);
    OneStep(Crowd(threads, MAX_SESSIONS), enter);
    NothingInEmptyPool(threads, Req(0));
    assert Overfull(threads).pool == Crowd(threads, 0).pool;
    FirstGivesUp(Overfull(threads));
    ReachedAppend(Crowd(threads, MAX_SESSIONS), [enter], [Lock(0), Find(0), Create(0, Failed(false)), Unlock(0)]);
  }

  /** A run from the start, with one request more in flight than the table has slots, gets to the race. */
  lemma RaceIsReached(threads: nat)
    requires MAX_SESSIONS < threads
    ensures Possible(Initially(threads), Approach())
    ensures var s := Reached(Initially(threads), Approach());
            && AboutToRace(s, MAX_SESSIONS, 0, Req(MAX_SESSIONS))
            && RoomForTwo(s.pool, Req(MAX_SESSIONS))
  {
    hide LockInv, Key, FindKey, FindSession, CrowdSteps, LateSteps, Possible, Reached, Initially;
    CrowdStartsInitially(threads);
    CrowdIsReached(threads, MAX_SESSIONS);
    LateStepsReach(threads);
    ReachedAppend(Crowd(threads, 0), CrowdSteps(MAX_SESSIONS), LateSteps());
    InitiallyLocked(threads);
    PossibleKeepsLocks(Initially(threads), Approach());
    NewcomerHasNoSlot(threads, MAX_SESSIONS, MAX_SESSIONS);
    NothingInEmptyPool(threads, Req(MAX_SESSIONS));
    var s := Reached(Initially(threads), Approach());
    assert s.pool == Crowd(threads, 0).pool;
    assert s.pool[0] == None && s.pool[1] == None;
  }

  /** Two threads inside for one request. */
  ghost predicate Crowded(s: State) {
    exists t, u :: 0 <= t < u < |s.threads| && Inside(s.threads[t].phase) && Inside(s.threads[u].phase)
                   && s.threads[t].request == s.threads[u].request
  }

  /** With more threads than slots, two can be inside for one request, and then connect to its target twice. */
  lemma FallbackLetsTwoIn(threads: nat) returns (inside: seq<Step>, connected: seq<Step>)
    requires MAX_SESSIONS < threads
    ensures Possible(Initially(threads), inside) && Crowded(Reached(Initially(threads), inside))
    ensures Possible(Initially(threads), connected)
    ensures !PoolDistinct(Reached(Initially(threads), connected).pool)
  {
    hide LockInv, Key, Req, AboutToRace, RoomForTwo, Possible, Reached, Initially, Approach, RaceSteps, ConnectSteps;
    hide Shared, PoolDistinct, Crowded;
    var r, t, u := Req(MAX_SESSIONS), MAX_SESSIONS, 0;
    RaceIsReached(threads);
    var s := Reached(Initially(threads), Approach());
    TwoThreadsInside(s, t, u, r);
    var s' := Reached(s, RaceSteps(t, u, r));
    inside := Approach() + RaceSteps(t, u, r);
    ReachedAppend(Initially(threads), Approach(), RaceSteps(t, u, r));
    BothMeansCrowded(s', t, u, r);
    TwoConnections(s', t, u, r);
    connected := inside + ConnectSteps(t, u);
    ReachedAppend(Initially(threads), inside, ConnectSteps(t, u));
    TwoAreNotDistinct(Reached(Initially(threads), connected).pool, r.target);
  }

  lemma BothMeansCrowded(s: State, t: nat, u: nat, r: Request)
    requires BothInside(s, t, u, r, Finding, Finding)
    ensures Crowded(s)
  {
    if t < u {
      assert s.threads[t].request == s.threads[u].request;
    } else {
      assert s.threads[u].request == s.threads[t].request;
    }
  }

  lemma TwoAreNotDistinct(pool: Pool, target: Target)
    requires exists i, j :: 0 <= i < j < |pool| && Shared(pool[i], target) && Shared(pool[j], target)
    ensures !PoolDistinct(pool)
  {
  }

  // ---------------------------------------------------------------- as many threads as slots, and no more

  lemma {:induction false} FewKeys(threads: seq<Thread>)
    ensures |KeysInFlight(threads)| <= |threads|
  {
    hide Key;
    if threads == [] {
      assert KeysInFlight(threads) == {};
    } else {
      var n := |threads| - 1;
      FewKeys(threads[..n]);
      var one := if threads[n].phase != Outside then {Key(threads[n].request)} else {};
      forall key | key in KeysInFlight(threads)
        ensures key in KeysInFlight(threads[..n]) + one
      {
        var t :| 0 <= t < |threads| && threads[t].phase != Outside && Key(threads[t].request) == key;
        assert t < n ==> threads[..n][t] == threads[t];
      }
      KeysSize(KeysInFlight(threads), KeysInFlight(threads[..n]) + one);
    }
  }

  lemma {:induction false} KeysSize(a: set<string>, b: set<string>)
    requires a <= b
    ensures |a| <= |b|
    decreases b
  {
    if a != {} {
      var x :| x in a;
      KeysSize(a - {x}, b - {x});
    }
  }

  lemma SameThreads(s: State, step: Step)
    requires Enabled(s, step)
    ensures |Next(s, step).threads| == |s.threads|
  {
    hide Key, SlotFor, Acquired, Released, FindSession, Registered, Marked;
  }

  /** With no more threads than slots, no more targets are ever in flight. */
  lemma {:induction false} FewThreadsFewTargets(s: State, steps: seq<Step>)
    requires |s.threads| <= MAX_SESSIONS && Possible(s, steps)
    ensures Runs(s, steps) && After(s, steps) == Reached(s, steps)
    decreases |steps|
  {
    hide Enabled, Next, KeysInFlight;
    if steps != [] {
      SameThreads(s, steps[0]);
      FewKeys(Next(s, steps[0]).threads);
      FewThreadsFewTargets(Next(s, steps[0]), steps[1..]);
    }
  }

  /** No run lets two threads inside for one request if and only if there are no more threads than slots. */
  lemma ExclusionIff(threads: nat)
    ensures (forall steps :: Possible(Initially(threads), steps) ==> !Crowded(Reached(Initially(threads), steps)))
       <==> threads <= 1024
  {
    hide Possible, Reached, Crowded, Initially;
    if threads <= MAX_SESSIONS {
      forall steps | Possible(Initially(threads), steps)
        ensures !Crowded(Reached(Initially(threads), steps))
      {
        AsManyThreads(threads);
        FewThreadsFewTargets(Initially(threads), steps);
        NeverCrowded(threads, steps);
      }
    } else {
      var inside, connected := FallbackLetsTwoIn(threads);
    }
  }

  lemma AsManyThreads(threads: nat)
    ensures |Initially(threads).threads| == threads
  {
  }

  lemma NeverCrowded(threads: nat, steps: seq<Step>)
    requires Runs(Initially(threads), steps)
    ensures !Crowded(After(Initially(threads), steps))
  {
    hide Runs, After, Initially;
    var s := After(Initially(threads), steps);
    if Crowded(s) {
      var t, u :| 0 <= t < u < |s.threads| && Inside(s.threads[t].phase) && Inside(s.threads[u].phase)
                  && s.threads[t].request == s.threads[u].request;
      OneThreadInside(threads, steps, t, u);
    }
  }

  /** No run gives a target two reusable HTTP/2 connections if and only if there are no more threads than slots. */
  lemma SharingIff(threads: nat)
    ensures (forall steps :: Possible(Initially(threads), steps) ==>
               PoolDistinct(Reached(Initially(threads), steps).pool))
       <==> threads <= 1024
  {
    hide Possible, Reached, PoolDistinct, Initially;
    if threads <= MAX_SESSIONS {
      forall steps | Possible(Initially(threads), steps)
        ensures PoolDistinct(Reached(Initially(threads), steps).pool)
      {
        AsManyThreads(threads);
        FewThreadsFewTargets(Initially(threads), steps);
        AlwaysDistinct(threads, steps);
      }
    } else {
      var inside, connected := FallbackLetsTwoIn(threads);
    }
  }

  lemma AlwaysDistinct(threads: nat, steps: seq<Step>)
    requires Runs(Initially(threads), steps)
    ensures PoolDistinct(After(Initially(threads), steps).pool)
  {
    hide Initially, LockInv;
    InitiallyInv(threads);
    RunKeepsInv(Initially(threads), steps);
  }
}
