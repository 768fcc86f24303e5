/** The shared pool of connections: finding one to reuse, registering a new one, giving up those of a proxy. */
module SessionPool {
  import opened HpackPrimitives
  import opened EstablishLocks

  datatype Proxy = Proxy(scheme: string, host: string, port: string, authorization: string)

  /** What two requests must agree on to share a connection. */
  datatype Target = Target(scheme: string, host: string, port: string, proxy: Proxy, nonBlocking: bool)

  datatype Request = Request(target: Target, forceHttp11: bool)

  datatype Session = Session(target: Target, http2: bool, goingAway: bool, connected: bool, inflight: nat)

  const KEY_MAX: nat := 2047

  function Flag(b: bool): (s: string) {
    if b then "1" else "0"
  }

  /** buildSessionKey: the formatted identity, cut to the buffer. */
  function Key(r: Request): (key: string) {
    var t := r.target;
    var full := t.scheme + "://" + t.host + ":" + t.port + "#" + t.proxy.scheme + "://" + t.proxy.host + ":"
                + t.proxy.port + "@" + t.proxy.authorization + "|nb=" + Flag(t.nonBlocking)
                + "|h1=" + Flag(r.forceHttp11);
    if |full| > KEY_MAX then full[..KEY_MAX] else full
  }

  predicate Reusable(s: Session) {
    !s.goingAway && s.connected
  }

  /** sessionProtocolUsable */
  predicate ProtocolUsable(s: Session, r: Request) {
    && (!r.forceHttp11 || !s.http2)
    && !(!s.http2 && s.inflight > 0)
  }

  predicate Serves(s: Session, r: Request) {
    s.target == r.target && Reusable(s) && ProtocolUsable(s, r)
  }

  type Pool = seq<Option<Session>>

  /** The first pooled session that serves a request, or the size of the pool. */
  function FindSession(pool: Pool, r: Request): (i: nat)
    ensures i <= |pool| && (i < |pool| ==> pool[i].Some? && Serves(pool[i].value, r))
    ensures forall j :: 0 <= j < i ==> !(pool[j].Some? && Serves(pool[j].value, r))
  {
    if pool == [] || (pool[0].Some? && Serves(pool[0].value, r)) then 0 else 1 + FindSession(pool[1..], r)
  }

  function FindEmpty(pool: Pool): (i: nat)
    ensures i <= |pool| && (i < |pool| ==> pool[i] == None)
    ensures forall j :: 0 <= j < i ==> pool[j].Some?
  {
    if pool == [] || pool[0] == None then 0 else 1 + FindEmpty(pool[1..])
  }

  /** registerSession: a full pool drops the newcomer. */
  function Registered(pool: Pool, s: Session): (p: Pool)
    ensures |p| == |pool|
  {
    var i := FindEmpty(pool);
    if i == |pool| then pool else pool[i := Some(s)]
  }

  /** The sessions a failing proxy takes down: those through it, or the direct ones when there is none. */
  predicate RidesProxy(s: Session, proxy: Proxy) {
    if proxy.host != "" then s.target.proxy == proxy else s.target.proxy.host == ""
  }

  function Marked(s: Option<Session>, proxy: Proxy): (r: Option<Session>) {
    if s.Some? && RidesProxy(s.value, proxy) then Some(s.value.(goingAway := true)) else s
  }

  class SharedPool {
    const sessions: array<Option<Session>>

    constructor ()
      ensures fresh(sessions) && sessions.Length == MAX_SESSIONS
      ensures forall i :: 0 <= i < sessions.Length ==> sessions[i] == None
    {
      sessions := new Option<Session>[MAX_SESSIONS](_ => None);
    }

    /**
     The pooled session a request can ride on, or -1: the first that leads where the request goes, in the same blocking
     mode and through the same proxy, that is connected and not going away, and that is not ruled out as HTTP/2 nor
     busy as HTTP/1.1; and -1 only when no pooled session is such.
     */
    method GetSessionInfo(r: Request) returns (index: int)
      ensures index == if FindSession(sessions[..], r) == sessions.Length then -1 else FindSession(sessions[..], r)
      ensures -1 <= index < sessions.Length
      ensures index >= 0 ==>
                && sessions[index].Some?
                && var s := sessions[index].value;
                   && s.target.scheme == r.target.scheme && s.target.host == r.target.host
                   && s.target.port == r.target.port && s.target.proxy.scheme == r.target.proxy.scheme
                   && s.target.proxy.host == r.target.proxy.host && s.target.proxy.port == r.target.proxy.port
                   && s.target.proxy.authorization == r.target.proxy.authorization
                   && s.target.nonBlocking == r.target.nonBlocking
                   && !s.goingAway && s.connected && !(s.http2 && r.forceHttp11) && !(!s.http2 && s.inflight > 0)
      ensures forall j :: 0 <= j < (if index < 0 then sessions.Length else index) && sessions[j].Some? ==>
                var s := sessions[j].value;
                s.target != r.target || s.goingAway || !s.connected || (s.http2 && r.forceHttp11)
                || (!s.http2 && s.inflight > 0)
    {
      index := 0;
      while index < sessions.Length
        invariant 0 <= index <= sessions.Length
        invariant forall j :: 0 <= j < index ==> !(sessions[..][j].Some? && Serves(sessions[..][j].value, r))
      {
        if sessions[index].Some? && Serves(sessions[index].value, r) {
          return;
        }
        index := index + 1;
      }
      index := -1;
    }

    method RegisterSession(s: Session)
      modifies sessions
      ensures sessions[..] == Registered(old(sessions[..]), s)
      ensures forall j :: 0 <= j < sessions.Length ==>
                sessions[j] == if old(sessions[j]) == None && (forall i :: 0 <= i < j ==> old(sessions[i]).Some?)
                               then Some(s) else old(sessions[j])
    {
      var i := 0;
      while i < sessions.Length && sessions[i].Some?
        invariant 0 <= i <= sessions.Length && sessions[..] == old(sessions[..])
        invariant forall j :: 0 <= j < i ==> sessions[..][j].Some?
      {
        i := i + 1;
      }
      if i < sessions.Length {
        sessions[i] := Some(s);
      }
    }

    /** Through a named proxy: the sessions of exactly that proxy; without one: the direct ones. */
    method MarkProxySessionsGoingAway(proxy: Proxy)
      modifies sessions
      ensures forall j :: 0 <= j < sessions.Length ==> sessions[j] == Marked(old(sessions[j]), proxy)
      ensures forall j :: 0 <= j < sessions.Length ==>
                if old(sessions[j]).Some?
                   && (if |proxy.host| > 0 then
                         && old(sessions[j]).value.target.proxy.scheme == proxy.scheme
                         && old(sessions[j]).value.target.proxy.host == proxy.host
                         && old(sessions[j]).value.target.proxy.port == proxy.port
                         && old(sessions[j]).value.target.proxy.authorization == proxy.authorization
                       else |old(sessions[j]).value.target.proxy.host| == 0)
                then sessions[j] == Some(old(sessions[j]).value.(goingAway := true))
                else sessions[j] == old(sessions[j])
    {
      for i := 0 to sessions.Length
        invariant forall j :: 0 <= j < i ==> sessions[j] == Marked(old(sessions[j]), proxy)
        invariant forall j :: i <= j < sessions.Length ==> sessions[j] == old(sessions[j])
      {
        if sessions[i].Some? && RidesProxy(sessions[i].value, proxy) {
          sessions[i] := Some(sessions[i].value.(goingAway := true));
        }
      }
    }
  }
}
