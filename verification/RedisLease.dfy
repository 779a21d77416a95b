/**
  The timed ownership token behind the backend's Redis locks. A lease is a key that holds its
  owner's token and expires; the machine keeps, for every token, the span during which the server
  held it valid. Any number of workers act, and the clock only moves forward.
*/
module RedisLease {
  import opened Common

  type Token = nat

  /** A key on the server; it is gone from `expires` (milliseconds) on. */
  datatype Entry = Entry(token: Token, expires: nat)

  /** History: when a token's lease on a key began and up to when it is valid. */
  datatype Span = Span(key: string, ttl: nat, from: nat, until: nat)

  datatype System = System(now: nat, keys: map<string, Entry>, spans: map<Token, Span>)

  /** `seconds` is the caller's time to live; a lost reply is the command with nobody told. */
  datatype Action =
    | Tick(ms: nat)
    | Acquire(key: string, token: Token, seconds: int)
    | Refresh(token: Token)
    | Release(token: Token)

  const INIT := System(0, map[], map[])

  function Live(s: System, key: string): Option<Token> {
    if key in s.keys && s.now < s.keys[key].expires then Some(s.keys[key].token) else None
  }

  function Ttl(seconds: int): nat {
    if seconds < 1 then 1 else seconds
  }

  /** SET key token NX EX ttl, with a token nobody has used. */
  function DoAcquire(s: System, key: string, token: Token, seconds: int): (System, bool) {
    if Live(s, key).Some? then (s, false) else
      var until := s.now + 1000 * Ttl(seconds);
      (s.(keys := s.keys[key := Entry(token, until)], spans := s.spans[token := Span(key, Ttl(seconds), s.now, until)]), true)
  }

  /** The refresh script, with the key and time to live of the lease. */
  function DoRefresh(s: System, token: Token): (System, bool)
    requires token in s.spans
  {
    var span := s.spans[token];
    if Live(s, span.key) != Some(token) then (s, false) else
      var until := s.now + 1000 * span.ttl;
      (s.(keys := s.keys[span.key := Entry(token, until)], spans := s.spans[token := span.(until := until)]), true)
  }

  /** The release script. */
  function DoRelease(s: System, token: Token): System
    requires token in s.spans
  {
    var span := s.spans[token];
    if Live(s, span.key) != Some(token) then s else
      s.(keys := s.keys - {span.key}, spans := s.spans[token := span.(until := s.now)])
  }

  function Apply(s: System, a: Action): System {
    match a
    case Tick(ms) => s.(now := s.now + ms)
    case Acquire(key, token, seconds) => if token in s.spans then s else DoAcquire(s, key, token, seconds).0
    case Refresh(token) => if token in s.spans then DoRefresh(s, token).0 else s
    case Release(token) => if token in s.spans then DoRelease(s, token) else s
  }

  function Run(s: System, acts: seq<Action>): System
    decreases |acts|
  {
    if acts == [] then s else Run(Apply(s, acts[0]), acts[1..])
  }

  // ----- The invariant -----

  /** A span reaches into the future exactly while the server holds its token. */
  ghost predicate SpanOk(s: System, t: Token)
    requires t in s.spans
  {
    var span := s.spans[t];
    && span.from <= s.now && span.from <= span.until <= s.now + 1000 * span.ttl && span.ttl >= 1
    && (s.now < span.until <==> Live(s, span.key) == Some(t))
    && (s.now < span.until ==> s.keys[span.key].expires == span.until)
  }

  ghost predicate KeyOk(s: System, key: string) {
    Live(s, key).Some? ==> Live(s, key).value in s.spans && s.spans[Live(s, key).value].key == key
  }

  ghost predicate Apart(a: Span, b: Span) {
    a.until <= b.from || b.until <= a.from
  }

  ghost predicate Exclusive(s: System) {
    forall t, u :: t in s.spans && u in s.spans && t != u && s.spans[t].key == s.spans[u].key ==>
      Apart(s.spans[t], s.spans[u])
  }

  ghost predicate Inv(s: System) {
    && (forall t :: t in s.spans ==> SpanOk(s, t))
    && (forall key :: KeyOk(s, key))
    && Exclusive(s)
  }

  lemma TickKeepsInv(s: System, ms: nat)
    requires Inv(s)
    ensures Inv(s.(now := s.now + ms))
  {
    var t := s.(now := s.now + ms);
    forall x | x in t.spans ensures SpanOk(t, x) {
      assert SpanOk(s, x);
    }
    forall key ensures KeyOk(t, key) {
      assert KeyOk(s, key);
    }
  }

  lemma AcquireKeepsInv(s: System, key: string, token: Token, seconds: int)
    requires Inv(s) && token !in s.spans
    ensures Inv(DoAcquire(s, key, token, seconds).0)
  {
    var t := DoAcquire(s, key, token, seconds).0;
    forall x | x in t.spans ensures SpanOk(t, x) {
      if x != token { assert SpanOk(s, x); }
    }
    forall k ensures KeyOk(t, k) {
      assert KeyOk(s, k);
    }
    forall x, y | x in t.spans && y in t.spans && x != y && t.spans[x].key == t.spans[y].key ensures Apart(t.spans[x], t.spans[y]) {
      if x in s.spans { assert SpanOk(s, x); }
      if y in s.spans { assert SpanOk(s, y); }
      if x in s.spans && y in s.spans { assert Apart(s.spans[x], s.spans[y]); }
    }
  }

  /** Refreshing and releasing move only the end of the owner's span, while it is the only one
      that reaches into the future. */
  lemma EndMovesKeepInv(s: System, token: Token, t: System)
    requires Inv(s) && token in s.spans
    requires t == DoRefresh(s, token).0 || t == DoRelease(s, token)
    ensures Inv(t)
  {
    if Live(s, s.spans[token].key) == Some(token) {
      EndMovesApart(s, token, t);
      forall x | x in t.spans ensures SpanOk(t, x) {
        assert SpanOk(s, token) && SpanOk(s, x);
      }
      forall k ensures KeyOk(t, k) {
        assert SpanOk(s, token) && KeyOk(s, k);
      }
    }
  }

  lemma EndMovesApart(s: System, token: Token, t: System)
    requires Inv(s) && token in s.spans && Live(s, s.spans[token].key) == Some(token)
    requires t == DoRefresh(s, token).0 || t == DoRelease(s, token)
    ensures forall x, y :: x in t.spans && y in t.spans && x != y && t.spans[x].key == t.spans[y].key ==> Apart(t.spans[x], t.spans[y])
  {
    assert SpanOk(s, token);
    forall x, y | x in t.spans && y in t.spans && x != y && t.spans[x].key == t.spans[y].key ensures Apart(t.spans[x], t.spans[y]) {
      assert SpanOk(s, x) && SpanOk(s, y) && Apart(s.spans[x], s.spans[y]);
    }
  }

  lemma StepKeepsInv(s: System, a: Action)
    requires Inv(s)
    ensures Inv(Apply(s, a))
  {
    match a
    case Tick(ms) => TickKeepsInv(s, ms);
    case Acquire(key, token, seconds) => if token !in s.spans { AcquireKeepsInv(s, key, token, seconds); }
    case Refresh(token) => if token in s.spans { EndMovesKeepInv(s, token, DoRefresh(s, token).0); }
    case Release(token) => if token in s.spans { EndMovesKeepInv(s, token, DoRelease(s, token)); }
  }

  lemma {:induction false} RunKeepsInv(s: System, acts: seq<Action>)
    requires Inv(s)
    ensures Inv(Run(s, acts))
    decreases |acts|
  {
    hide Inv, Apply;
    if acts != [] {
      StepKeepsInv(s, acts[0]);
      RunKeepsInv(Apply(s, acts[0]), acts[1..]);
    }
  }

  // ----- What holds over every run -----

  /** Mutual exclusion: the spans of two different tokens on one key never overlap. */
  lemma LeasesNeverOverlap(acts: seq<Action>, t: Token, u: Token, time: nat)
    requires var s := Run(INIT, acts);
      && t in s.spans && u in s.spans && s.spans[t].key == s.spans[u].key
      && s.spans[t].from <= time < s.spans[t].until && s.spans[u].from <= time < s.spans[u].until
    ensures t == u
  {
    var s := Run(INIT, acts);
    assert Inv(INIT);
    RunKeepsInv(INIT, acts);
    hide Inv, Run;
    SpansStayApart(s, t, u);
  }

  lemma SpansStayApart(s: System, t: Token, u: Token)
    ensures Inv(s) && t in s.spans && u in s.spans && t != u && s.spans[t].key == s.spans[u].key ==>
      Apart(s.spans[t], s.spans[u])
  {
  }

  function Elapsed(acts: seq<Action>): nat {
    if acts == [] then 0 else (if acts[0].Tick? then acts[0].ms else 0) + Elapsed(acts[1..])
  }

  /** Only the clock's own steps take time, and no lease is forgotten or changes its key. */
  lemma {:induction false} ClockRuns(s: System, acts: seq<Action>)
    ensures Run(s, acts).now == s.now + Elapsed(acts)
    ensures forall t :: t in s.spans ==> t in Run(s, acts).spans && Run(s, acts).spans[t].key == s.spans[t].key
    decreases |acts|
  {
    if acts != [] { ClockRuns(Apply(s, acts[0]), acts[1..]); }
  }

  ghost predicate Owns(s: System, t: Token) {
    t in s.spans && Live(s, s.spans[t].key) == Some(t)
  }

  lemma StepKeepsLost(s: System, a: Action, t: Token)
    requires Inv(s) && t in s.spans && !Owns(s, t)
    ensures t in Apply(s, a).spans && Apply(s, a).spans[t] == s.spans[t] && !Owns(Apply(s, a), t)
  {
    assert SpanOk(s, t);
  }

  /** A lease that was lost, to expiry or release, is never owned again: from then on every
      refresh fails and its span stays as it is. */
  lemma {:induction false} LostIsLostForever(s: System, acts: seq<Action>, t: Token)
    requires Inv(s) && t in s.spans && !Owns(s, t)
    ensures t in Run(s, acts).spans && !Owns(Run(s, acts), t) && Run(s, acts).spans[t] == s.spans[t]
    ensures !DoRefresh(Run(s, acts), t).1
    decreases |acts|
  {
    if acts != [] {
      StepKeepsLost(s, acts[0], t);
      StepKeepsInv(s, acts[0]);
      hide Inv, Apply;
      LostIsLostForever(Apply(s, acts[0]), acts[1..], t);
    }
  }

  /** A release that comes too late changes nothing, whoever owns the key by then; one in time
      removes only its own key. */
  lemma ReleaseIsHarmless(s: System, t: Token, u: Token)
    requires Inv(s) && t in s.spans && u in s.spans && t != u
    ensures !Owns(s, t) ==> DoRelease(s, t) == s
    ensures Owns(s, t) ==> Live(DoRelease(s, t), s.spans[t].key).None?
    ensures Owns(s, u) ==> Owns(DoRelease(s, t), u) && DoRelease(s, t).spans[u] == s.spans[u]
  {
    assert SpanOk(s, t) && SpanOk(s, u);
  }

  lemma StepDoesNotExtend(s: System, a: Action, t: Token)
    requires Inv(s) && t in s.spans && a != Refresh(t)
    ensures t in Apply(s, a).spans && Apply(s, a).spans[t].key == s.spans[t].key && Apply(s, a).spans[t].ttl == s.spans[t].ttl
    ensures Apply(s, a).spans[t].until <= s.spans[t].until
  {
    assert SpanOk(s, t);
  }

  lemma {:induction false} WithoutRefreshItEnds(s: System, acts: seq<Action>, t: Token)
    requires Inv(s) && t in s.spans && Refresh(t) !in acts
    ensures t in Run(s, acts).spans && Run(s, acts).spans[t].until <= s.spans[t].until
    ensures Run(s, acts).spans[t].key == s.spans[t].key
    decreases |acts|
  {
    if acts != [] {
      assert acts[0] in acts;
      StepDoesNotExtend(s, acts[0], t);
      StepKeepsInv(s, acts[0]);
      hide Inv, Apply;
      WithoutRefreshItEnds(Apply(s, acts[0]), acts[1..], t);
    }
  }

  /** An abandoned lease frees its key within its time to live: unless its owner refreshes it,
      after that long its key is free or somebody else's, and if free anyone can acquire it. */
  lemma AbandonedKeysAreFreed(s: System, acts: seq<Action>, t: Token, newcomer: Token, seconds: int)
    requires Inv(s) && t in s.spans && Refresh(t) !in acts
    requires Run(s, acts).now >= s.now + 1000 * s.spans[t].ttl
    ensures var z, key := Run(s, acts), s.spans[t].key;
      && Live(z, key) != Some(t)
      && (Live(z, key).None? ==>
            DoAcquire(z, key, newcomer, seconds).1 && Live(DoAcquire(z, key, newcomer, seconds).0, key) == Some(newcomer))
  {
    assert SpanOk(s, t);
    WithoutRefreshItEnds(s, acts, t);
    RunKeepsInv(s, acts);
    assert SpanOk(Run(s, acts), t);
  }

  /** A refresh while the lease is owned makes it last its whole time to live from now. */
  lemma RefreshRenews(s: System, t: Token, wait: nat)
    requires Inv(s) && Owns(s, t)
    ensures var (z, ok) := DoRefresh(s, t);
      ok && (Owns(z.(now := z.now + wait), t) <==> wait < 1000 * s.spans[t].ttl)
  {
    assert SpanOk(s, t);
  }

  // ----- The client -----

  class Client {
    var s: System

    constructor ()
      ensures s == INIT && Inv(s)
    {
      s := INIT;
      new;
      assert Inv(INIT);
    }
  }

  class Lease {
    const client: Client
    const token: Token

    constructor (client: Client, token: Token)
      ensures this.client == client && this.token == token
    {
      this.client, this.token := client, token;
    }

    /** Fails closed: `lost` exactly when the lease is no longer this worker's, and then nothing
        has changed; otherwise it is owned for its whole time to live from now. */
    method Refresh() returns (lost: bool)
      requires Inv(client.s) && token in client.s.spans
      modifies client`s
      ensures Inv(client.s) && client.s == Apply(old(client.s), Action.Refresh(token))
      ensures lost <==> !Owns(old(client.s), token)
      ensures lost ==> client.s == old(client.s)
      ensures !lost ==> Owns(client.s, token) && client.s.spans[token].until == client.s.now + 1000 * client.s.spans[token].ttl
    {
      EndMovesKeepInv(client.s, token, DoRefresh(client.s, token).0);
      var (next, refreshed) := DoRefresh(client.s, token);
      client.s := next;
      lost := !refreshed;
    }

    /** Never raises: an unreachable server leaves the key to its time to live. */
    method Release(reachable: bool)
      requires Inv(client.s) && token in client.s.spans
      modifies client`s
      ensures Inv(client.s)
      ensures client.s == if reachable then Apply(old(client.s), Action.Release(token)) else old(client.s)
      ensures reachable ==> !Owns(client.s, token)
      ensures forall u :: u != token && Owns(old(client.s), u) ==> Owns(client.s, u)
    {
      if reachable {
        EndMovesKeepInv(client.s, token, DoRelease(client.s, token));
        forall u | u != token && Owns(client.s, u) ensures Owns(DoRelease(client.s, token), u) {
          ReleaseIsHarmless(client.s, token, u);
        }
        client.s := DoRelease(client.s, token);
      }
    }
  }

  /** Acquires without blocking: a lease exactly when nobody held the key. */
  method AcquireRedisLease(client: Client, key: string, seconds: int, token: Token) returns (lease: Lease?)
    requires Inv(client.s) && token !in client.s.spans
    modifies client`s
    ensures Inv(client.s) && client.s == Apply(old(client.s), Acquire(key, token, seconds))
    ensures lease == null <==> Live(old(client.s), key).Some?
    ensures lease == null ==> client.s == old(client.s)
    ensures lease != null ==> lease.client == client && lease.token == token && Owns(client.s, token)
    ensures lease != null ==>
      var ttl := if seconds >= 1 then seconds else 1;
      client.s.spans[token] == Span(key, ttl, client.s.now, client.s.now + 1000 * ttl)
  {
    AcquireKeepsInv(client.s, key, token, seconds);
    var (next, taken) := DoAcquire(client.s, key, token, seconds);
    client.s := next;
    if !taken { return null; }
    lease := new Lease(client, token);
  }
}
