/** Whose connection a request gets: over every run, one to its own target that its protocol allows. */
module SessionRides {
  import opened HpackPrimitives
  import opened EstablishLocks
  import opened SessionPool
  import opened SessionSharing
  import opened FallbackRace

  /** A connection a request may ride on: to its scheme, host and port, through its proxy, in its blocking mode. */
  ghost predicate LeadsThere(s: Session, r: Request) {
    && s.target.scheme == r.target.scheme && s.target.host == r.target.host && s.target.port == r.target.port
    && s.target.proxy.scheme == r.target.proxy.scheme && s.target.proxy.host == r.target.proxy.host
    && s.target.proxy.port == r.target.proxy.port && s.target.proxy.authorization == r.target.proxy.authorization
    && s.target.nonBlocking == r.target.nonBlocking
    && !(s.http2 && r.forceHttp11)
  }

  ghost predicate RidesWell(x: Thread) {
    && (x.ride.Some? ==> LeadsThere(x.ride.value, x.request))
    && (Inside(x.phase) && x.phase.work.Registering? ==> !(x.phase.work.http2 && x.request.forceHttp11))
  }

  ghost predicate AllRideWell(s: State) {
    forall t :: 0 <= t < |s.threads| ==> RidesWell(s.threads[t])
  }

  lemma OthersStay(s: State, s': State, t: nat)
    requires AllRideWell(s) && t < |s.threads| == |s'.threads| && s'.threads == s.threads[t := s'.threads[t]]
    requires RidesWell(s'.threads[t])
    ensures AllRideWell(s')
  {
    hide RidesWell;
  }

  lemma StepRidesWell(s: State, step: Step)
    requires AllRideWell(s) && Enabled(s, step)
    ensures AllRideWell(Next(s, step))
  {
    hide AllRideWell, Key, SlotFor, Acquired, Released, Registered, Marked, Reusable, IsPlain;
    match step {
      case Enter(t, r) => { OthersStay(s, Next(s, step), t); }
      case Lock(t) => { StaysWell(s, t); OthersStay(s, Next(s, step), t); }
      case Find(t) => { FindRides(s, t); OthersStay(s, Next(s, step), t); }
      case Create(t, outcome) => { StaysWell(s, t); OthersStay(s, Next(s, step), t); }
      case Mark(t) => { StaysWell(s, t); OthersStay(s, Next(s, step), t); }
      case Register(t, _, _) => { StaysWell(s, t); OthersStay(s, Next(s, step), t); }
      case Unlock(t) => { StaysWell(s, t); OthersStay(s, Next(s, step), t); }
      case Leave(t) => { StaysWell(s, t); OthersStay(s, Next(s, step), t); }
      case _ => { SameThreadsRideWell(s, Next(s, step)); }
    }
  }

  lemma StaysWell(s: State, t: nat)
    requires AllRideWell(s) && t < |s.threads|
    ensures RidesWell(s.threads[t])
  {
  }

  lemma SameThreadsRideWell(s: State, s': State)
    requires AllRideWell(s) && s'.threads == s.threads
    ensures AllRideWell(s')
  {
    hide RidesWell;
  }

  /** What a thread finds in the pool leads where its request goes, and is alive and free at that moment. */
  lemma FindRides(s: State, t: nat)
    requires Enabled(s, Find(t))
    ensures var x := Next(s, Find(t)).threads[t];
            && RidesWell(x) && x.request == s.threads[t].request
            && (x.ride.Some? ==>
                  && x.ride in s.pool && !x.ride.value.goingAway && x.ride.value.connected
                  && (x.ride.value.http2 || x.ride.value.inflight == 0))
  {
  }

  lemma {:induction false} RunRidesWell(s: State, steps: seq<Step>)
    requires AllRideWell(s) && Possible(s, steps)
    ensures AllRideWell(Reached(s, steps))
    decreases |steps|
  {
    hide AllRideWell, Enabled, Next;
    if steps != [] {
      StepRidesWell(s, steps[0]);
      RunRidesWell(Next(s, steps[0]), steps[1..]);
    }
  }

  /**
   In every run of any number of threads, whatever connects, fails or is reaped in between: the connection a thread has
   been given leads to its own request's target, and is not HTTP/2 when the request is to be HTTP/1.1.
   */
  lemma EveryRideLeadsThere(threads: nat, steps: seq<Step>, t: nat)
    requires Possible(Initially(threads), steps) && t < |Reached(Initially(threads), steps).threads|
    requires Reached(Initially(threads), steps).threads[t].ride.Some?
    ensures var x := Reached(Initially(threads), steps).threads[t]; LeadsThere(x.ride.value, x.request)
  {
    assert AllRideWell(Initially(threads));
    RunRidesWell(Initially(threads), steps);
  }

  // ---------------------------------------------------------------- and a thread is done only with one

  /** A thread that is done rides on a connection, unless none could be created. */
  lemma DoneWithoutRide(s: State, step: Step, t: nat)
    requires Enabled(s, step) && IsThread(s, t)
    requires Inside(s.threads[t].phase) && s.threads[t].phase.work != Finished
    requires Inside(Next(s, step).threads[t].phase) && Next(s, step).threads[t].phase.work == Finished
    requires Next(s, step).threads[t].ride == None
    ensures step == Mark(t) || (step.Create? && step.t == t && step.outcome == Failed(false))
  {
    hide Key, SlotFor, Acquired, Released, Registered, Marked, Serves, IsPlain;
  }

  // ---------------------------------------------------------------- keys

  function Example(): (r: Request) {
    Request(Target("https", "a", "443", Proxy("http", "p", "80", "x"), false), true)
  }

  /** An instance of the identity a lock is kept for. */
  lemma KeyIs()
    ensures Key(Example()) == "https://a:443#http://p:80@x|nb=0|h1=1"
  {
    var front := "https" + "://" + "a" + ":" + "443" + "#";
    assert front == "https://a:443#";
    var middle := front + "http" + "://" + "p" + ":" + "80" + "@" + "x";
    assert middle == "https://a:443#http://p:80@x";
    assert middle + "|nb=" + "0" + "|h1=" + "1" == "https://a:443#http://p:80@x|nb=0|h1=1";
  }
}
