/** What the establish locks are for: in every interleaving, one HTTP/2 connection per target, and no fallback. */
module SessionReuse {
  import opened HpackPrimitives
  import opened EstablishLocks
  import opened SessionPool
  import opened SessionSharing

  // ---------------------------------------------------------------- targets in flight

  function KeysInFlight(threads: seq<Thread>): (keys: set<string>) {
    set t | 0 <= t < |threads| && threads[t].phase != Outside :: Key(threads[t].request)
  }

  ghost predicate NoFallback(s: State) {
    forall t :: 0 <= t < |s.threads| ==> !s.threads[t].phase.AwaitingFallback? && !s.threads[t].phase.InFallback?
  }

  function KeysOf(slots: seq<Slot>): (keys: set<string>) {
    if slots == [] then {}
    else
      var last := slots[|slots| - 1];
      KeysOf(slots[..|slots| - 1]) + (if last.inUse then {last.key} else {})
  }

  lemma {:induction false} KeysOfMembers(slots: seq<Slot>, key: string)
    ensures key in KeysOf(slots) <==> exists i :: 0 <= i < |slots| && slots[i].inUse && slots[i].key == key
  {
    if slots != [] {
      var n := |slots| - 1;
      KeysOfMembers(slots[..n], key);
      if key in KeysOf(slots[..n]) {
        var i :| 0 <= i < n && slots[..n][i].inUse && slots[..n][i].key == key;
        assert slots[i].inUse;
      }
      if i :| 0 <= i < |slots| && slots[i].inUse && slots[i].key == key {
        assert i < n ==> slots[..n][i] == slots[i];
      }
    }
  }

  /** Distinct keys fill the table exactly when every slot is in use. */
  lemma {:induction false} KeysOfSize(slots: seq<Slot>)
    requires KeysDistinct(slots)
    ensures |KeysOf(slots)| <= |slots|
    ensures |KeysOf(slots)| == |slots| <==> forall i :: 0 <= i < |slots| ==> slots[i].inUse
  {
    if slots != [] {
      var n := |slots| - 1;
      var front := slots[..n];
      KeysOfSize(front);
      assert (forall i :: 0 <= i < |slots| ==> slots[i].inUse)
          <==> slots[n].inUse && forall i :: 0 <= i < n ==> front[i].inUse;
      if slots[n].inUse {
        KeysOfMembers(front, slots[n].key);
        assert slots[n].key !in KeysOf(front);
      }
    }
  }

  lemma SlotKeysInFlight(s: State)
    requires LockInv(s) && NoFallback(s)
    ensures KeysOf(s.slots) == KeysInFlight(s.threads)
  {
    hide Key;
    forall key
      ensures key in KeysOf(s.slots) <==> key in KeysInFlight(s.threads)
    {
      KeysOfMembers(s.slots, key);
      if i :| 0 <= i < |s.slots| && s.slots[i].inUse && s.slots[i].key == key {
        UsersPositive(s.threads, i);
        var t :| 0 <= t < |s.threads| && Refers(s.threads[t].phase, i);
        assert Key(s.threads[t].request) == key;
      }
      if t :| 0 <= t < |s.threads| && s.threads[t].phase != Outside && Key(s.threads[t].request) == key {
        UserKeepsSlot(s, t);
        assert s.slots[s.threads[t].phase.slot].key == key;
      }
    }
  }

  /** A request falls back on the shared lock exactly when MAX_SESSIONS other targets are in flight. */
  lemma FallbackIff(s: State, t: nat, r: Request)
    requires LockInv(s) && NoFallback(s) && Enabled(s, Enter(t, r))
    ensures Entered(s, t, r).threads[t].phase == AwaitingFallback
       <==> Key(r) !in KeysInFlight(s.threads) && |KeysInFlight(s.threads)| == MAX_SESSIONS
  {
    hide Key, KeysInFlight, UsersKnow, HoldersInside;
    SlotKeysInFlight(s);
    KeysOfMembers(s.slots, Key(r));
    KeysOfSize(s.slots);
    FullOnlyWithoutRoom(s.slots, Key(r));
  }

  /** At most as many targets in flight as the table has slots. */
  ghost predicate FewTargets(s: State) {
    |KeysInFlight(s.threads)| <= MAX_SESSIONS
  }

  lemma EnterStaysOffFallback(s: State, t: nat, r: Request)
    requires LockInv(s) && NoFallback(s) && Enabled(s, Enter(t, r)) && FewTargets(Entered(s, t, r))
    ensures NoFallback(Entered(s, t, r))
  {
    hide Key, LockInv, SlotFor, Acquired;
    FallbackIff(s, t, r);
    var before, after := KeysInFlight(s.threads), KeysInFlight(Entered(s, t, r).threads);
    EnterAddsKey(s, t, r);
    if Key(r) !in before {
      assert |after| == |before| + 1;
    }
  }

  lemma EnterAddsKey(s: State, t: nat, r: Request)
    requires Enabled(s, Enter(t, r))
    ensures KeysInFlight(Entered(s, t, r).threads) == KeysInFlight(s.threads) + {Key(r)}
  {
    hide Key, SlotFor, Acquired;
    var threads, threads' := s.threads, Entered(s, t, r).threads;
    forall key
      ensures key in KeysInFlight(threads') <==> key in KeysInFlight(threads) || key == Key(r)
    {
      assert threads'[t].phase != Outside && threads'[t].request == r;
      if u :| 0 <= u < |threads| && threads[u].phase != Outside && Key(threads[u].request) == key {
        assert threads'[u] == threads[u];
      }
      if u :| 0 <= u < |threads'| && threads'[u].phase != Outside && Key(threads'[u].request) == key {
        assert u != t ==> threads'[u] == threads[u];
      }
    }
  }

  // ---------------------------------------------------------------- the pool

  predicate Shared(entry: Option<Session>, target: Target) {
    entry.Some? && entry.value.http2 && Reusable(entry.value) && entry.value.target == target
  }

  /** No two reusable HTTP/2 connections to one target. */
  ghost predicate PoolDistinct(pool: Pool) {
    forall i, j :: 0 <= i < j < |pool| && pool[i].Some? && Shared(pool[i], pool[i].value.target) ==>
      !Shared(pool[j], pool[i].value.target)
  }

  predicate MayConnect(p: Phase) {
    Inside(p) && (p.work.Creating? || p.work.Registering?)
  }

  /** A thread about to connect found nothing to share, and still nobody else has connected to its target. */
  ghost predicate ConnectorsAlone(s: State) {
    forall t, i :: 0 <= t < |s.threads| && 0 <= i < |s.pool| ==>
      MayConnect(s.threads[t].phase) && !s.threads[t].request.forceHttp11 ==>
        !Shared(s.pool[i], s.threads[t].request.target)
  }

  /** HTTP/2 is brought only by requests that allow it. */
  ghost predicate Http2Allowed(s: State) {
    forall t :: 0 <= t < |s.threads| && Inside(s.threads[t].phase) && s.threads[t].phase.work == Registering(true) ==>
      !s.threads[t].request.forceHttp11
  }

  ghost predicate PoolInv(s: State) {
    PoolDistinct(s.pool) && ConnectorsAlone(s) && Http2Allowed(s)
  }

  /** Sessions that go away, break or leave make nothing shareable that was not. */
  lemma WorsePool(s: State, s': State)
    requires PoolInv(s) && s' == s.(pool := s'.pool) && |s'.pool| == |s.pool|
    requires forall i, target :: 0 <= i < |s.pool| && Shared(s'.pool[i], target) ==> Shared(s.pool[i], target)
    ensures PoolInv(s')
  {
    forall i, j | 0 <= i < j < |s'.pool| && s'.pool[i].Some? && Shared(s'.pool[i], s'.pool[i].value.target)
      ensures !Shared(s'.pool[j], s'.pool[i].value.target)
    {
      assert Shared(s.pool[i], s'.pool[i].value.target);
    }
  }

  /** A thread may move anywhere but towards connecting without losing the invariant. */
  lemma MovedPool(s: State, s': State, t: nat)
    requires PoolInv(s) && IsThread(s, t) && s'.pool == s.pool && |s'.threads| == |s.threads|
    requires s'.threads == s.threads[t := s'.threads[t]]
    requires MayConnect(s'.threads[t].phase) ==>
               && (!s'.threads[t].request.forceHttp11 ==>
                     forall i :: 0 <= i < |s.pool| ==> !Shared(s.pool[i], s'.threads[t].request.target))
               && (s'.threads[t].phase.work == Registering(true) ==> !s'.threads[t].request.forceHttp11)
    ensures PoolInv(s')
  {
    assert forall u :: 0 <= u < |s.threads| && u != t ==> s'.threads[u] == s.threads[u];
  }

  lemma FindKeepsPool(s: State, t: nat)
    requires PoolInv(s) && Enabled(s, Find(t))
    ensures PoolInv(Next(s, Find(t)))
  {
    hide PoolInv;
    var r := s.threads[t].request;
    if FindSession(s.pool, r) == |s.pool| && !r.forceHttp11 {
      forall i | 0 <= i < |s.pool|
        ensures !Shared(s.pool[i], r.target)
      {
        assert !(s.pool[i].Some? && Serves(s.pool[i].value, r));
      }
    }
    MovedPool(s, Next(s, Find(t)), t);
  }

  lemma ConnectorSeesNothing(s: State, t: nat)
    requires ConnectorsAlone(s) && IsThread(s, t) && MayConnect(s.threads[t].phase)
    ensures !s.threads[t].request.forceHttp11 ==>
              forall i :: 0 <= i < |s.pool| ==> !Shared(s.pool[i], s.threads[t].request.target)
  {
  }

  /** The registered session, the one place where the pool gains something to share. */
  lemma RegisterKeepsPool(s: State, t: nat, goingAway: bool, connected: bool)
    requires LockInv(s) && NoFallback(s) && PoolInv(s) && Enabled(s, Register(t, goingAway, connected))
    ensures PoolInv(Next(s, Register(t, goingAway, connected)))
  {
    hide Key, SlotsCounted, KeysDistinct, UsersKnow, HoldersInside;
    var r := s.threads[t].request;
    var session := Session(r.target, s.threads[t].phase.work.http2, goingAway, connected, 0);
    var s1 := s.(pool := Registered(s.pool, session));
    var k := FindEmpty(s.pool);
    ConnectorSeesNothing(s, t);
    assert PoolDistinct(s1.pool);
    forall u, i | 0 <= u < |s.threads| && u != t && 0 <= i < |s.pool| && MayConnect(s.threads[u].phase)
                  && !s.threads[u].request.forceHttp11
      ensures !Shared(s1.pool[i], s.threads[u].request.target)
    {
      if i == k && Shared(s1.pool[i], s.threads[u].request.target) {
        assert s.threads[u].request == r;
        MutualExclusion(s, t, u);
      }
    }
  }

  // ---------------------------------------------------------------- every run

  ghost predicate Inv(s: State) {
    LockInv(s) && NoFallback(s) && PoolInv(s)
  }

  lemma StepKeepsPool(s: State, step: Step)
    requires Inv(s) && Enabled(s, step)
    ensures PoolInv(Next(s, step))
  {
    hide LockInv, PoolInv, Key, SlotFor, Acquired, Released, FindSession, Registered, PoolDistinct, ConnectorsAlone;
    hide Http2Allowed, NoFallback;
    match step {
      case Enter(t, r) => { MovedPool(s, Next(s, step), t); }
      case Lock(t) => { MovedPool(s, Next(s, step), t); }
      case Find(t) => { FindKeepsPool(s, t); }
      case Create(t, outcome) => {
        assert ConnectorsAlone(s) by { PoolParts(s); }
        ConnectorSeesNothing(s, t);
        MovedPool(s, Next(s, step), t);
      }
      case Mark(t) => { MarkKeepsPool(s, t); }
      case Register(t, goingAway, connected) => { RegisterKeepsPool(s, t, goingAway, connected); }
      case Unlock(t) => { MovedPool(s, Next(s, step), t); }
      case Leave(t) => { MovedPool(s, Next(s, step), t); }
      case Worsen(i, _, _) => { WorsePool(s, Next(s, step)); }
      case Traffic(i, _) => { WorsePool(s, Next(s, step)); }
      case Reap(i) => { WorsePool(s, Next(s, step)); }
    }
  }

  lemma PoolParts(s: State)
    requires PoolInv(s)
    ensures ConnectorsAlone(s)
  {
  }

  lemma MarkKeepsPool(s: State, t: nat)
    requires PoolInv(s) && Enabled(s, Mark(t))
    ensures PoolInv(Next(s, Mark(t)))
  {
    hide PoolInv;
    var s1 := s.(pool := Next(s, Mark(t)).pool);
    WorsePool(s, s1);
    MovedPool(s1, Next(s, Mark(t)), t);
  }

  lemma StepKeepsInv(s: State, step: Step)
    requires Inv(s) && Enabled(s, step) && FewTargets(Next(s, step))
    ensures Inv(Next(s, step))
  {
    hide LockInv, PoolInv, NoFallback, Next, Enabled, FewTargets;
    StepKeepsPool(s, step);
    StepKeepsLocks(s, step);
    StepStaysOffFallback(s, step);
  }

  lemma StepStaysOffFallback(s: State, step: Step)
    requires LockInv(s) && NoFallback(s) && Enabled(s, step) && FewTargets(Next(s, step))
    ensures NoFallback(Next(s, step))
  {
    hide LockInv, Key, SlotFor, Acquired, Released, FindSession, Registered, FewTargets, Marked;
    if step.Enter? {
      EnterStaysOffFallback(s, step.t, step.request);
    }
  }

  /** A slot is neither reclaimed nor given another key until the thread that refers to it leaves. */
  lemma ReferredSlotStays(s: State, step: Step, t: nat, i: nat)
    requires LockInv(s) && Enabled(s, step) && IsThread(s, t) && Refers(s.threads[t].phase, i) && step != Leave(t)
    ensures IsThread(Next(s, step), t) && Refers(Next(s, step).threads[t].phase, i) && i < MAX_SESSIONS
    ensures |Next(s, step).slots| == |s.slots| == MAX_SESSIONS
    ensures Next(s, step).slots[i].inUse && Next(s, step).slots[i].key == s.slots[i].key
  {
    StepKeepsLocks(s, step);
    UserStays(s, step, t, i);
    hide Key, Next, KeysDistinct, HoldersInside, Users, Enabled;
    UserKeepsSlot(Next(s, step), t);
  }

  lemma UserStays(s: State, step: Step, t: nat, i: nat)
    requires Enabled(s, step) && IsThread(s, t) && Refers(s.threads[t].phase, i) && step != Leave(t)
    ensures IsThread(Next(s, step), t) && Refers(Next(s, step).threads[t].phase, i)
    ensures Next(s, step).threads[t].request == s.threads[t].request
  {
    hide Key, SlotFor, Acquired, Released, FindSession, Registered, Marked;
  }

  /** A run in which no more targets are in flight at once than the table has slots. */
  ghost predicate Runs(s: State, steps: seq<Step>)
    decreases |steps|
  {
    steps == [] || (Enabled(s, steps[0]) && FewTargets(Next(s, steps[0])) && Runs(Next(s, steps[0]), steps[1..]))
  }

  ghost function After(s: State, steps: seq<Step>): (s': State)
    requires Runs(s, steps)
    decreases |steps|
  {
    if steps == [] then s else After(Next(s, steps[0]), steps[1..])
  }

  lemma {:induction false} RunKeepsInv(s: State, steps: seq<Step>)
    requires Inv(s) && Runs(s, steps)
    ensures Inv(After(s, steps))
    decreases |steps|
  {
    hide Inv, Next, Enabled, FewTargets;
    if steps != [] {
      StepKeepsInv(s, steps[0]);
      RunKeepsInv(Next(s, steps[0]), steps[1..]);
    }
  }

  lemma InitiallyInv(threads: nat)
    ensures Inv(Initially(threads))
  {
    hide LockInv;
    InitiallyLocked(threads);
  }

  /**
   In every run: counts are the users of a slot, keys are distinct, no slot loses its key while used, no two threads
   are inside for one request identity, and no two reusable HTTP/2 connections lead to one target.
   */
  lemma ConnectionsAreShared(threads: nat, steps: seq<Step>, i: nat, j: nat)
    requires Runs(Initially(threads), steps)
    ensures var s := After(Initially(threads), steps);
            && LockInv(s) && NoFallback(s)
            && (i < j < |s.pool| && s.pool[i].Some? && s.pool[j].Some? && s.pool[i].value.http2 && s.pool[j].value.http2
                && Reusable(s.pool[i].value) && Reusable(s.pool[j].value) ==>
                  s.pool[i].value.target != s.pool[j].value.target)
  {
    hide LockInv, Initially, NoFallback;
    InitiallyInv(threads);
    RunKeepsInv(Initially(threads), steps);
  }

  lemma OneThreadInside(threads: nat, steps: seq<Step>, t: nat, u: nat)
    requires Runs(Initially(threads), steps)
    ensures var s := After(Initially(threads), steps);
            && (IsThread(s, t) && IsThread(s, u) && Inside(s.threads[t].phase) && Inside(s.threads[u].phase) ==>
                  s.threads[t].request == s.threads[u].request ==> t == u)
  {
    hide LockInv, Initially;
    InitiallyInv(threads);
    RunKeepsInv(Initially(threads), steps);
    var s := After(Initially(threads), steps);
    if IsThread(s, t) && IsThread(s, u) && Inside(s.threads[t].phase) && Inside(s.threads[u].phase)
       && s.threads[t].request == s.threads[u].request {
      MutualExclusion(s, t, u);
    }
  }
}
