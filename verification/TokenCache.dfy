/**
  The token cache of the SSO path: a request reads the cache and checks what it found, or asks
  the identity provider, checks the answer and stores it. Time passes between any two steps and
  requests interleave freely, so the age of what a request relies on is a property of whole runs.
*/
module TokenCache {
  import opened Common

  const CLOCK_SKEW_LEEWAY_SECONDS: nat := 60

  type Token = string

  /** The claims the cache looks at; a claim that is not a number counts as missing. */
  datatype Payload = Payload(active: bool, exp: Option<int>, iat: Option<int>)

  /** A cached answer, gone from `expires` (milliseconds) on. `asked` and `stored` are history:
      when the provider gave the answer and when it was written. */
  datatype Entry = Entry(payload: Payload, expires: int, asked: nat, stored: nat)

  /** What a request rests on when it is let through: `read` and `stored` are the times of the
      cache read and write, or both the time of the answer if it was asked directly. */
  datatype Pass = Pass(request: nat, token: Token, payload: Payload, asked: nat, stored: nat, read: nat, at: nat)

  datatype Pc =
    | Arrived
    | Read(entry: Option<Entry>, read: nat)
    | Asking
    | Answered(answer: Option<Payload>, asked: nat)
    | Passing(payload: Payload, asked: nat)
    | Storing(payload: Payload, asked: nat, ttl: int)

  datatype Request = Request(token: Token, pc: Pc)

  /** `answers` and `passes` are history: what the provider said when, and what was let through. */
  datatype System = System(
    now: nat,
    cache: map<Token, Entry>,
    requests: map<nat, Request>,
    answers: set<(Token, Payload, nat)>,
    passes: seq<Pass>)

  const INIT := System(0, map[], map[], {}, [])

  datatype Action =
    | Tick(ms: nat)
    | Arrive(r: nat, token: Token)
    | Load(r: nat, reachable: bool)
    | CheckCached(r: nat)
    | Introspect(r: nat, payload: Option<Payload>)
    | CheckAnswer(r: nat)
    | ComputeTtl(r: nat)
    | Store(r: nat, reachable: bool)
    | Evict(token: Token)

  /** int(time.time()) */
  function Seconds(now: nat): nat { now / 1000 }

  predicate IsExpired(lifetime: nat, p: Payload, now: nat) {
    || (p.exp.Some? && Seconds(now) >= p.exp.value)
    || (p.iat.Some? && Seconds(now) - p.iat.value > lifetime + CLOCK_SKEW_LEEWAY_SECONDS)
  }

  function TtlFor(lifetime: nat, p: Payload, now: nat): int {
    if p.exp.Some? && p.exp.value - Seconds(now) < lifetime then p.exp.value - Seconds(now) else lifetime
  }

  predicate At(s: System, r: nat) { r in s.requests }

  function Move(s: System, r: nat, pc: Pc): System
    requires At(s, r)
  {
    s.(requests := s.requests[r := s.requests[r].(pc := pc)])
  }

  function End(s: System, r: nat): System {
    s.(requests := s.requests - {r})
  }

  function Get(s: System, token: Token): Option<Entry> {
    if token in s.cache && s.now < s.cache[token].expires then Some(s.cache[token]) else None
  }

  predicate Enabled(s: System, a: Action) {
    match a
    case Tick(_) => true
    case Evict(_) => true
    case Arrive(r, _) => !At(s, r)
    case Load(r, _) => At(s, r) && s.requests[r].pc.Arrived?
    case CheckCached(r) => At(s, r) && s.requests[r].pc.Read?
    case Introspect(r, _) => At(s, r) && s.requests[r].pc.Asking?
    case CheckAnswer(r) => At(s, r) && s.requests[r].pc.Answered?
    case ComputeTtl(r) => At(s, r) && s.requests[r].pc.Passing?
    case Store(r, _) => At(s, r) && s.requests[r].pc.Storing?
  }

  /** A cached answer that is still good lets the request through; a stale one is ignored. */
  function DoCheckCached(lifetime: nat, s: System, r: nat): System
    requires At(s, r) && s.requests[r].pc.Read?
  {
    var Request(token, pc) := s.requests[r];
    if pc.entry.None? || IsExpired(lifetime, pc.entry.value.payload, s.now) then Move(s, r, Asking) else
      var e := pc.entry.value;
      End(s, r).(passes := s.passes + [Pass(r, token, e.payload, e.asked, e.stored, pc.read, s.now)])
  }

  function DoIntrospect(s: System, r: nat, payload: Option<Payload>): System
    requires At(s, r)
  {
    Move(s, r, Answered(payload, s.now))
      .(answers := if payload.Some? then s.answers + {(s.requests[r].token, payload.value, s.now)} else s.answers)
  }

  function DoCheckAnswer(lifetime: nat, s: System, r: nat): System
    requires At(s, r) && s.requests[r].pc.Answered?
  {
    var Request(token, pc) := s.requests[r];
    if pc.answer.None? || !pc.answer.value.active || IsExpired(lifetime, pc.answer.value, s.now) then End(s, r) else
      Move(s, r, Passing(pc.answer.value, pc.asked))
        .(passes := s.passes + [Pass(r, token, pc.answer.value, pc.asked, pc.asked, pc.asked, s.now)])
  }

  function DoStore(s: System, r: nat, reachable: bool): System
    requires At(s, r) && s.requests[r].pc.Storing?
  {
    var Request(token, pc) := s.requests[r];
    if !reachable || pc.ttl <= 0 then End(s, r) else
      End(s, r).(cache := s.cache[token := Entry(pc.payload, s.now + 1000 * pc.ttl, pc.asked, s.now)])
  }

  /** One step; one that is not enabled changes nothing. */
  function Apply(lifetime: nat, s: System, a: Action): System {
    if !Enabled(s, a) then s else
    match a
    case Tick(ms) => s.(now := s.now + ms)
    case Evict(token) => s.(cache := s.cache - {token})
    case Arrive(r, token) => s.(requests := s.requests[r := Request(token, Arrived)])
    case Load(r, reachable) => Move(s, r, Read(if reachable then Get(s, s.requests[r].token) else None, s.now))
    case CheckCached(r) => DoCheckCached(lifetime, s, r)
    case Introspect(r, payload) => DoIntrospect(s, r, payload)
    case CheckAnswer(r) => DoCheckAnswer(lifetime, s, r)
    case ComputeTtl(r) =>
      var pc := s.requests[r].pc;
      Move(s, r, Storing(pc.payload, pc.asked, TtlFor(lifetime, pc.payload, s.now)))
    case Store(r, reachable) => DoStore(s, r, reachable)
  }

  function Run(lifetime: nat, s: System, acts: seq<Action>): System
    decreases |acts|
  {
    if acts == [] then s else Run(lifetime, Apply(lifetime, s, acts[0]), acts[1..])
  }

  // ----- The invariant -----

  ghost predicate Answer(s: System, token: Token, p: Payload, asked: nat) {
    p.active && (token, p, asked) in s.answers && asked <= s.now
  }

  ghost predicate EntryOk(lifetime: nat, s: System, token: Token, e: Entry) {
    && Answer(s, token, e.payload, e.asked) && e.asked <= e.stored <= s.now && e.expires <= e.stored + 1000 * lifetime
    && (e.payload.exp.Some? ==> e.expires <= 1000 * e.payload.exp.value + 999 + (e.stored - e.asked))
  }

  /** A time to live ends by `exp`, counted from the second the answer was given in. */
  predicate EndsByExp(p: Payload, asked: nat, ttl: int) {
    p.exp.Some? ==> 1000 * ttl <= 1000 * p.exp.value + 999 - asked
  }

  ghost predicate RequestOk(lifetime: nat, s: System, q: Request) {
    match q.pc
    case Read(entry, read) => read <= s.now &&
      (entry.Some? ==> EntryOk(lifetime, s, q.token, entry.value) && entry.value.stored <= read < entry.value.expires)
    case Answered(payload, asked) => asked <= s.now && (payload.Some? ==> (q.token, payload.value, asked) in s.answers)
    case Passing(payload, asked) => Answer(s, q.token, payload, asked)
    case Storing(payload, asked, ttl) => Answer(s, q.token, payload, asked) && ttl <= lifetime && EndsByExp(payload, asked, ttl)
    case _ => true
  }

  /** The time the answer spent outside the cache: before it was written and after it was read. */
  function InFlight(p: Pass): int {
    (p.stored - p.asked) + (p.at - p.read)
  }

  ghost predicate PassOk(lifetime: nat, s: System, p: Pass) {
    && Answer(s, p.token, p.payload, p.asked) && !IsExpired(lifetime, p.payload, p.at)
    && p.asked <= p.stored <= p.read <= p.at <= s.now
    && (p.read == p.stored || p.read - p.stored < 1000 * lifetime)
  }

  ghost predicate Inv(lifetime: nat, s: System) {
    && (forall t :: t in s.cache ==> EntryOk(lifetime, s, t, s.cache[t]))
    && (forall r :: r in s.requests ==> RequestOk(lifetime, s, s.requests[r]))
    && (forall p :: p in s.passes ==> PassOk(lifetime, s, p))
  }

  /** Time moves on, the provider's answers accumulate. */
  ghost predicate Later(s: System, t: System) {
    s.now <= t.now && s.answers <= t.answers
  }

  lemma Stays(lifetime: nat, s: System, t: System)
    requires Inv(lifetime, s) && Later(s, t)
    ensures forall k :: k in s.cache ==> EntryOk(lifetime, t, k, s.cache[k])
    ensures forall r :: r in s.requests ==> RequestOk(lifetime, t, s.requests[r])
    ensures forall p :: p in s.passes ==> PassOk(lifetime, t, p)
  {
    forall r | r in s.requests ensures RequestOk(lifetime, t, s.requests[r]) {
      assert RequestOk(lifetime, s, s.requests[r]);
    }
  }

  lemma StepKeepsInv(lifetime: nat, s: System, a: Action)
    requires Inv(lifetime, s)
    ensures Inv(lifetime, Apply(lifetime, s, a)) && s.now <= Apply(lifetime, s, a).now
  {
    var t := Apply(lifetime, s, a);
    Stays(lifetime, s, t);
    if Enabled(s, a) && !a.Tick? && !a.Evict? && !a.Arrive? {
      assert RequestOk(lifetime, s, s.requests[a.r]);
    }
    hide IsExpired, TtlFor;
    TtlIsBounded(lifetime, s, a);
    forall r | r in t.requests ensures RequestOk(lifetime, t, t.requests[r]) {
    }
    forall p | p in t.passes ensures PassOk(lifetime, t, p) {
    }
  }

  lemma TtlIsBounded(lifetime: nat, s: System, a: Action)
    ensures forall p :: TtlFor(lifetime, p, s.now) <= lifetime
    ensures forall p, asked: nat :: asked <= s.now ==> EndsByExp(p, asked, TtlFor(lifetime, p, s.now))
  {
    assert 1000 * Seconds(s.now) >= s.now - 999;
  }

  lemma {:induction false} RunKeepsInv(lifetime: nat, s: System, acts: seq<Action>)
    requires Inv(lifetime, s)
    ensures Inv(lifetime, Run(lifetime, s, acts)) && s.now <= Run(lifetime, s, acts).now
    decreases |acts|
  {
    hide Inv, Apply;
    if acts != [] {
      StepKeepsInv(lifetime, s, acts[0]);
      RunKeepsInv(lifetime, Apply(lifetime, s, acts[0]), acts[1..]);
    }
  }

  // ----- What holds over every run -----

  /** Every request let through rests on an answer the provider gave, active, at some earlier
      time; at the moment of the check the token is before `exp` and no older than its lifetime
      plus the leeway; and the answer was in the cache for less than the lifetime, if at all. */
  lemma PassesAreFresh(lifetime: nat, acts: seq<Action>, p: Pass)
    requires p in Run(lifetime, INIT, acts).passes
    ensures p.payload.active && (p.token, p.payload, p.asked) in Run(lifetime, INIT, acts).answers && p.asked <= p.at
    ensures p.payload.exp.Some? ==> Seconds(p.at) < p.payload.exp.value
    ensures p.payload.iat.Some? ==> Seconds(p.at) - p.payload.iat.value <= lifetime + CLOCK_SKEW_LEEWAY_SECONDS
    ensures p.asked <= p.stored <= p.read <= p.at
    ensures p.read == p.stored || p.read - p.stored < 1000 * lifetime
  {
    assert Inv(lifetime, INIT);
    RunKeepsInv(lifetime, INIT, acts);
    assert PassOk(lifetime, Run(lifetime, INIT, acts), p);
  }

  /** A cached answer was active when given, and leaves the cache within the lifetime of its
      write and, but for the second's rounding and its time in flight, by `exp`. */
  lemma EntriesDoNotOutlive(lifetime: nat, acts: seq<Action>, token: Token)
    requires token in Run(lifetime, INIT, acts).cache
    ensures var s := Run(lifetime, INIT, acts); var e := s.cache[token];
      && e.payload.active && (token, e.payload, e.asked) in s.answers && e.asked <= e.stored <= s.now
      && e.expires <= e.stored + 1000 * lifetime
      && (e.payload.exp.Some? ==> e.expires <= 1000 * e.payload.exp.value + 999 + (e.stored - e.asked))
  {
    assert Inv(lifetime, INIT);
    RunKeepsInv(lifetime, INIT, acts);
    assert EntryOk(lifetime, Run(lifetime, INIT, acts), token, Run(lifetime, INIT, acts).cache[token]);
  }

  ghost predicate AgeBoundedInFlight(lifetime: nat, d: nat) {
    forall acts, p :: p in Run(lifetime, INIT, acts).passes && InFlight(p) <= d ==> p.at - p.asked <= 1000 * lifetime
  }

  /** The answers that requests rest on are never older than the token lifetime exactly when
      answers spend at most a millisecond in flight: the cache does not count the time between
      the provider's answer and the write. */
  lemma FlightTimeIsTheExcess(lifetime: nat, d: nat)
    requires lifetime >= 1
    ensures AgeBoundedInFlight(lifetime, d) <==> d <= 1
  {
    if d <= 1 {
      forall acts, p | p in Run(lifetime, INIT, acts).passes && InFlight(p) <= d ensures p.at - p.asked <= 1000 * lifetime {
        PassesAreFresh(lifetime, acts, p);
      }
    } else {
      var acts := LatePass(lifetime, d);
    }
  }

  const TIMELESS := Payload(true, None, None)

  lemma {:induction false} RunThen(lifetime: nat, s: System, acts: seq<Action>, a: Action)
    ensures Run(lifetime, s, acts + [a]) == Apply(lifetime, Run(lifetime, s, acts), a)
    decreases |acts|
  {
    hide Apply;
    if acts == [] {
      assert acts + [a] == [a];
      assert Run(lifetime, s, [a]) == Run(lifetime, Apply(lifetime, s, a), []);
    } else {
      assert (acts + [a])[1..] == acts[1..] + [a];
      RunThen(lifetime, Apply(lifetime, s, acts[0]), acts[1..], a);
    }
  }

  /** A request that asks the provider and then waits d milliseconds before it writes. */
  lemma SlowWrite(lifetime: nat, d: nat) returns (acts: seq<Action>)
    requires lifetime >= 1
    ensures var s := Run(lifetime, INIT, acts);
      s.now == d && s.cache == map["t" := Entry(TIMELESS, d + 1000 * lifetime, 0, d)] && s.requests == map[]
  {
    hide Run;
    acts := [];
    assert Run(lifetime, INIT, acts) == INIT by { NoRun(lifetime, INIT); }
    RunThen(lifetime, INIT, acts, Arrive(0, "t"));
    acts := acts + [Arrive(0, "t")];
    RunThen(lifetime, INIT, acts, Load(0, true));
    acts := acts + [Load(0, true)];
    RunThen(lifetime, INIT, acts, CheckCached(0));
    acts := acts + [CheckCached(0)];
    assert Run(lifetime, INIT, acts).requests == map[0 := Request("t", Asking)];
    RunThen(lifetime, INIT, acts, Introspect(0, Some(TIMELESS)));
    acts := acts + [Introspect(0, Some(TIMELESS))];
    RunThen(lifetime, INIT, acts, CheckAnswer(0));
    acts := acts + [CheckAnswer(0)];
    RunThen(lifetime, INIT, acts, ComputeTtl(0));
    acts := acts + [ComputeTtl(0)];
    assert Run(lifetime, INIT, acts).requests == map[0 := Request("t", Storing(TIMELESS, 0, lifetime))];
    RunThen(lifetime, INIT, acts, Tick(d));
    acts := acts + [Tick(d)];
    RunThen(lifetime, INIT, acts, Store(0, true));
    acts := acts + [Store(0, true)];
  }

  /** Another request reads that entry at the last moment: what it rests on is d - 1 milliseconds
      older than the lifetime. */
  lemma LatePass(lifetime: nat, d: nat) returns (acts: seq<Action>)
    requires lifetime >= 1 && d >= 2
    ensures exists p :: p in Run(lifetime, INIT, acts).passes && InFlight(p) == d && p.at - p.asked == 1000 * lifetime + d - 1
  {
    acts := SlowWrite(lifetime, d);
    hide Run;
    var wait := Tick(1000 * lifetime - 1);
    RunThen(lifetime, INIT, acts, wait);
    acts := acts + [wait];
    RunThen(lifetime, INIT, acts, Arrive(0, "t"));
    acts := acts + [Arrive(0, "t")];
    RunThen(lifetime, INIT, acts, Load(0, true));
    acts := acts + [Load(0, true)];
    RunThen(lifetime, INIT, acts, CheckCached(0));
    acts := acts + [CheckCached(0)];
    var at := d + 1000 * lifetime - 1;
    assert Pass(0, "t", TIMELESS, 0, d, at, at) in Run(lifetime, INIT, acts).passes;
  }

  lemma NoRun(lifetime: nat, s: System)
    ensures Run(lifetime, s, []) == s
  {
  }

  // ----- When an answer can be too old -----

  function Earlier(a: Option<int>, b: Option<int>): Option<int> {
    if a.None? then b else if b.None? then a else if b.value < a.value then b else a
  }

  /** The last millisecond in which an answer passes the check, if there is one. */
  function LastGood(lifetime: nat, p: Payload): Option<int> {
    Earlier(if p.exp.Some? then Some(1000 * p.exp.value - 1) else None,
            if p.iat.Some? then Some(1000 * (p.iat.value + lifetime + CLOCK_SKEW_LEEWAY_SECONDS) + 999) else None)
  }

  lemma GoodUntilLastGood(lifetime: nat, p: Payload, now: nat)
    ensures !IsExpired(lifetime, p, now) <==> LastGood(lifetime, p).None? || now <= LastGood(lifetime, p).value
  {
    var s := Seconds(now);
    assert 1000 * s <= now <= 1000 * s + 999;
  }

  /** Whatever else happens, no request that rests on this answer, given then, is let through
      more than the token lifetime later. */
  ghost predicate NeverTooOld(lifetime: nat, p: Payload, asked: nat) {
    forall acts, q :: q in Run(lifetime, INIT, acts).passes && q.payload == p && q.asked == asked ==>
      q.at - q.asked <= 1000 * lifetime
  }

  /** An answer is never relied on longer than the token lifetime exactly when its own claims end
      it by then: the cache's time to live alone does not, since it starts only at the write. */
  lemma AgeIsBoundedExactly(lifetime: nat, p: Payload, asked: nat)
    requires p.active
    ensures NeverTooOld(lifetime, p, asked) <==>
      LastGood(lifetime, p).Some? && LastGood(lifetime, p).value <= asked + 1000 * lifetime
  {
    if LastGood(lifetime, p).Some? && LastGood(lifetime, p).value <= asked + 1000 * lifetime {
      forall acts, q | q in Run(lifetime, INIT, acts).passes && q.payload == p && q.asked == asked
        ensures q.at - q.asked <= 1000 * lifetime {
        assert Inv(lifetime, INIT);
        RunKeepsInv(lifetime, INIT, acts);
        assert PassOk(lifetime, Run(lifetime, INIT, acts), q);
        GoodUntilLastGood(lifetime, p, q.at);
      }
    } else {
      var acts := SlowCheck(lifetime, p, asked, 1000 * lifetime + 1);
    }
  }

  /** A request that waits between the answer and its check. */
  lemma SlowCheck(lifetime: nat, p: Payload, asked: nat, wait: nat) returns (acts: seq<Action>)
    requires p.active && (LastGood(lifetime, p).None? || asked + wait <= LastGood(lifetime, p).value)
    ensures Pass(0, "t", p, asked, asked, asked, asked + wait) in Run(lifetime, INIT, acts).passes
  {
    GoodUntilLastGood(lifetime, p, asked + wait);
    hide Run, IsExpired, LastGood;
    acts := [];
    NoRun(lifetime, INIT);
    RunThen(lifetime, INIT, acts, Tick(asked));
    acts := acts + [Tick(asked)];
    RunThen(lifetime, INIT, acts, Arrive(0, "t"));
    acts := acts + [Arrive(0, "t")];
    RunThen(lifetime, INIT, acts, Load(0, true));
    acts := acts + [Load(0, true)];
    RunThen(lifetime, INIT, acts, CheckCached(0));
    acts := acts + [CheckCached(0)];
    assert Run(lifetime, INIT, acts).requests == map[0 := Request("t", Asking)] && Run(lifetime, INIT, acts).now == asked;
    RunThen(lifetime, INIT, acts, Introspect(0, Some(p)));
    acts := acts + [Introspect(0, Some(p))];
    RunThen(lifetime, INIT, acts, Tick(wait));
    acts := acts + [Tick(wait)];
    RunThen(lifetime, INIT, acts, CheckAnswer(0));
    acts := acts + [CheckAnswer(0)];
  }

  // ----- The middleware -----

  /** A step of the clock, of an eviction or of another request. */
  predicate ByOther(r: nat, a: Action) {
    a.Tick? || a.Evict? || a.r != r
  }

  ghost predicate AllByOthers(r: nat, acts: seq<Action>) {
    forall a :: a in acts ==> ByOther(r, a)
  }

  /** The passes of one request. */
  function PassesBy(ps: seq<Pass>, r: nat): seq<Pass> {
    if ps == [] then [] else
      PassesBy(ps[..|ps| - 1], r) + if ps[|ps| - 1].request == r then [ps[|ps| - 1]] else []
  }

  function StateOf(s: System, r: nat): Option<Request> {
    if At(s, r) then Some(s.requests[r]) else None
  }

  /** What others leave alone: this request's progress and its passes. */
  ghost predicate MineStays(s: System, t: System, r: nat) {
    StateOf(s, r) == StateOf(t, r) && PassesBy(s.passes, r) == PassesBy(t.passes, r)
  }

  lemma StepOfAnother(lifetime: nat, s: System, a: Action, r: nat)
    requires ByOther(r, a)
    ensures MineStays(s, Apply(lifetime, s, a), r)
  {
    hide IsExpired, TtlFor;
    var t := Apply(lifetime, s, a);
    if t.passes != s.passes { assert t.passes[..|s.passes|] == s.passes; }
  }

  lemma {:induction false} OthersLeaveMine(lifetime: nat, s: System, acts: seq<Action>, r: nat)
    requires AllByOthers(r, acts)
    ensures MineStays(s, Run(lifetime, s, acts), r)
    decreases |acts|
  {
    hide Apply, ByOther;
    if acts != [] {
      assert acts[0] in acts;
      StepOfAnother(lifetime, s, acts[0], r);
      OthersLeaveMine(lifetime, Apply(lifetime, s, acts[0]), acts[1..], r);
    }
  }

  lemma {:induction false} RunAppend(lifetime: nat, s: System, a: seq<Action>, b: seq<Action>)
    ensures Run(lifetime, s, a + b) == Run(lifetime, Run(lifetime, s, a), b)
    decreases |a|
  {
    hide Apply;
    if a == [] {
      assert a + b == b;
    } else {
      assert (a + b)[1..] == a[1..] + b;
      RunAppend(lifetime, Apply(lifetime, s, a[0]), a[1..], b);
    }
  }

  /** The claims are good at this time: before `exp`, and no older than the lifetime plus a minute. */
  ghost predicate Good(lifetime: nat, p: Payload, now: nat) {
    && (p.exp.Some? ==> now / 1000 < p.exp.value)
    && (p.iat.Some? ==> now / 1000 - p.iat.value <= lifetime + 60)
  }

  /** The cache had an answer for this token that was not over yet. */
  ghost predicate HasAnswer(s: System, token: Token) {
    token in s.cache && s.now < s.cache[token].expires
  }

  lemma GoodIsNotExpired(lifetime: nat, p: Payload, now: nat)
    ensures Good(lifetime, p, now) <==> !IsExpired(lifetime, p, now)
  {
  }

  /** What is neither evicted nor written again stays cached, and is found until it is over. */
  lemma {:induction false} CacheServes(lifetime: nat, s: System, acts: seq<Action>, token: Token)
    requires token in s.cache
    requires forall i :: 0 <= i < |acts| ==> acts[i] != Evict(token) && !acts[i].Store?
    ensures token in Run(lifetime, s, acts).cache && Run(lifetime, s, acts).cache[token] == s.cache[token]
    ensures Get(Run(lifetime, s, acts), token) ==
      if Run(lifetime, s, acts).now < s.cache[token].expires then Some(s.cache[token]) else None
    decreases |acts|
  {
    hide IsExpired, TtlFor;
    if acts != [] {
      CacheServes(lifetime, Apply(lifetime, s, acts[0]), acts[1..], token);
    }
  }

  lemma OnePassMore(s: System, p: Pass)
    ensures PassesBy(s.passes + [p], p.request) == PassesBy(s.passes, p.request) + [p]
  {
    assert (s.passes + [p])[..|s.passes|] == s.passes;
  }

  class SsoMiddleware {
    const lifetime: nat
    var s: System

    constructor (lifetime: nat)
      ensures this.lifetime == lifetime && s == INIT && Inv(lifetime, s)
    {
      this.lifetime, s := lifetime, INIT;
      new;
      assert Inv(lifetime, INIT);
    }

    /** One step of request r after whatever others did, recorded; `mid` is where it began. */
    method Step(r: nat, a: Action, others: seq<Action>, ghost acts: seq<Action>, ghost start: System)
      returns (ghost more: seq<Action>, ghost mid: System)
      requires Inv(lifetime, s) && s == Run(lifetime, start, acts) && AllByOthers(r, others)
      modifies this`s
      ensures Inv(lifetime, s) && s == Run(lifetime, start, more)
      ensures mid == Run(lifetime, old(s), others) && MineStays(old(s), mid, r) && s == Apply(lifetime, mid, a)
      ensures old(s).now <= mid.now <= s.now
    {
      hide Inv, Run, Apply, MineStays;
      RunKeepsInv(lifetime, s, others);
      RunAppend(lifetime, start, acts, others);
      OthersLeaveMine(lifetime, s, others, r);
      s := Run(lifetime, s, others);
      mid := s;
      StepKeepsInv(lifetime, s, a);
      RunThen(lifetime, start, acts + others, a);
      s := Apply(lifetime, s, a);
      more := acts + others + [a];
    }

    /** Reads the cache and checks what it found: a good entry lets the request through. */
    method LoadCachedToken(r: nat, token: Token, cacheUp: bool, env: nat -> seq<Action>, ghost acts: seq<Action>, ghost start: System)
      returns (hit: bool, ghost more: seq<Action>, ghost read: System)
      requires Inv(lifetime, s) && s == Run(lifetime, start, acts) && !At(s, r)
      requires forall k :: AllByOthers(r, env(k))
      modifies this`s
      ensures Inv(lifetime, s) && s == Run(lifetime, start, more)
      ensures if hit then !At(s, r) && LetThrough(old(s), s, r, token)
              else StateOf(s, r) == Some(Request(token, Asking)) && PassesBy(s.passes, r) == PassesBy(old(s).passes, r)
      ensures hit <==> cacheUp && HasAnswer(read, token) && Good(lifetime, read.cache[token].payload, s.now)
      ensures old(s).now <= read.now <= s.now
    {
      hide Inv, Run, IsExpired, PassesBy, AllByOthers, Good;
      ghost var mid;
      more, mid := Step(r, Arrive(r, token), env(0), acts, start);
      more, read := Step(r, Load(r, cacheUp), env(1), more, start);
      more, mid := Step(r, CheckCached(r), env(2), more, start);
      hit := !At(s, r);
      if HasAnswer(read, token) { GoodIsNotExpired(lifetime, read.cache[token].payload, s.now); }
      if hit { OnePassMore(mid, s.passes[|mid.passes|]); }
    }

    /** Asks the provider and checks its answer. */
    method IntrospectToken(r: nat, answer: Option<Payload>, env: nat -> seq<Action>, ghost acts: seq<Action>, ghost start: System)
      returns (good: bool, ghost more: seq<Action>)
      requires Inv(lifetime, s) && s == Run(lifetime, start, acts) && At(s, r) && s.requests[r].pc.Asking?
      requires forall k :: AllByOthers(r, env(k))
      modifies this`s
      ensures Inv(lifetime, s) && s == Run(lifetime, start, more)
      ensures good ==> At(s, r) && s.requests[r].pc.Passing? && s.requests[r].token == old(s).requests[r].token
      ensures good ==> Some(s.requests[r].pc.payload) == answer
      ensures old(s).now <= s.now
      ensures good <==> answer.Some? && answer.value.active && Good(lifetime, answer.value, s.now)
      ensures if good then LetThrough(old(s), s, r, old(s).requests[r].token)
              else !At(s, r) && PassesBy(s.passes, r) == PassesBy(old(s).passes, r)
    {
      hide Inv, Run, IsExpired, PassesBy, AllByOthers;
      ghost var mid;
      more, mid := Step(r, Introspect(r, answer), env(3), acts, start);
      more, mid := Step(r, CheckAnswer(r), env(4), more, start);
      good := At(s, r);
      if answer.Some? { GoodIsNotExpired(lifetime, answer.value, s.now); }
      if good { OnePassMore(mid, s.passes[|mid.passes|]); }
    }

    /** Stores the answer for as long as the token may live from the moment `priced`, if that is
        not over: `before` is what the cache held just then. */
    method CacheToken(r: nat, cacheUp: bool, env: nat -> seq<Action>, ghost acts: seq<Action>, ghost start: System)
      returns (ghost more: seq<Action>, ghost priced: nat, ghost before: map<Token, Entry>)
      requires Inv(lifetime, s) && s == Run(lifetime, start, acts) && At(s, r) && s.requests[r].pc.Passing?
      requires forall k :: AllByOthers(r, env(k))
      modifies this`s
      ensures Inv(lifetime, s) && s == Run(lifetime, start, more) && !At(s, r)
      ensures PassesBy(s.passes, r) == PassesBy(old(s).passes, r) && old(s).now <= priced <= s.now
      ensures var Request(token, pc) := old(s).requests[r];
        var left := if pc.payload.exp.Some? then pc.payload.exp.value - priced / 1000 else lifetime;
        var ttl := if left < lifetime then left else lifetime;
        s.cache == if cacheUp && ttl > 0 then before[token := Entry(pc.payload, s.now + 1000 * ttl, pc.asked, s.now)] else before
    {
      hide Inv, Run, PassesBy, AllByOthers;
      ghost var mid;
      more, mid := Step(r, ComputeTtl(r), env(5), acts, start);
      priced := mid.now;
      more, mid := Step(r, Store(r, cacheUp), env(6), more, start);
      before := mid.cache;
    }

    /** A request through the SSO path, with others' steps between its own: it is let through,
        once, exactly if the cache held an answer that was good when checked, or else the
        provider's answer was active and good when checked. `read` is the system when the cache
        was read, `first` and `second` are the times of the checks. */
    method Authenticate(r: nat, token: Token, cacheUp: bool, answer: Option<Payload>, env: nat -> seq<Action>)
      returns (allowed: bool, ghost acts: seq<Action>, ghost read: System, ghost first: nat, ghost second: nat)
      requires Inv(lifetime, s) && !At(s, r)
      requires forall k :: AllByOthers(r, env(k))
      modifies this`s
      ensures Inv(lifetime, s) && s == Run(lifetime, old(s), acts) && !At(s, r)
      ensures if allowed then LetThrough(old(s), s, r, token) else PassesBy(s.passes, r) == PassesBy(old(s).passes, r)
      ensures old(s).now <= read.now <= first <= second <= s.now
      ensures allowed <==>
        || (cacheUp && HasAnswer(read, token) && Good(lifetime, read.cache[token].payload, first))
        || (answer.Some? && answer.value.active && Good(lifetime, answer.value, second))
    {
      hide Inv, Run, PassesBy, AllByOthers, Good;
      ghost var start := s;
      NoRun(lifetime, s);
      allowed, acts, read := LoadCachedToken(r, token, cacheUp, env, [], start);
      first, second := s.now, s.now;
      if allowed { return; }
      allowed, acts := IntrospectToken(r, answer, env, acts, start);
      second := s.now;
      if !allowed { return; }
      ghost var priced, before;
      acts, priced, before := CacheToken(r, cacheUp, env, acts, start);
    }
  }

  /** This request was let through once more, with this token. */
  ghost predicate LetThrough(before: System, after: System, r: nat, token: Token) {
    exists p: Pass :: p.request == r && p.token == token && PassesBy(after.passes, r) == PassesBy(before.passes, r) + [p]
  }
}
