/**
  The fixed-window rate limit: one atomic script counts a request and gives a new counter its
  expiry. From that, what any sliding interval admits is bounded.
*/
module RateLimiter {
  import opened Common

  datatype Config = Config(requests: nat, windowSeconds: nat, failOpen: bool)

  /** `since` is history: when the counter was created. It is gone from `expires` on. */
  datatype Counter = Counter(count: nat, since: nat, expires: Option<nat>)

  /** One counted request; `since` names its window. */
  datatype Hit = Hit(key: string, at: nat, since: nat, allowed: bool)

  /** `log` is history: every request that was counted, in order. */
  datatype System = System(now: nat, counters: map<string, Counter>, log: seq<Hit>)

  const INIT := System(0, map[], [])

  datatype Action = Tick(ms: nat) | Count(key: string)

  datatype Decision = Decision(allowed: bool, retryAfterSeconds: nat)

  function Width(c: Config): nat { 1000 * c.windowSeconds }

  predicate Live(s: System, key: string) {
    key in s.counters && (s.counters[key].expires.None? || s.now < s.counters[key].expires.value)
  }

  /** INCR, and EXPIRE if that made the counter. */
  function Script(c: Config, s: System, key: string): (map<string, Counter>, nat) {
    var counter := if Live(s, key) then s.counters[key].(count := s.counters[key].count + 1) else Counter(1, s.now, None);
    var kept := if counter.count == 1 then counter.(expires := Some(s.now + Width(c))) else counter;
    (s.counters[key := kept], counter.count)
  }

  function DoCount(c: Config, s: System, key: string): (System, Decision) {
    var (counters, count) := Script(c, s, key);
    var decision := if count <= c.requests then Decision(true, 0) else Decision(false, c.windowSeconds);
    (s.(counters := counters, log := s.log + [Hit(key, s.now, counters[key].since, decision.allowed)]), decision)
  }

  function Apply(c: Config, s: System, a: Action): System {
    match a
    case Tick(ms) => s.(now := s.now + ms)
    case Count(key) => DoCount(c, s, key).0
  }

  function Run(c: Config, s: System, acts: seq<Action>): System
    decreases |acts|
  {
    if acts == [] then s else Run(c, Apply(c, s, acts[0]), acts[1..])
  }

  // ----- Counting the log -----

  function HitsOf(log: seq<Hit>, key: string, since: nat): nat {
    if log == [] then 0 else
      var h := log[|log| - 1];
      HitsOf(log[..|log| - 1], key, since) + if h.key == key && h.since == since then 1 else 0
  }

  function AdmittedIn(log: seq<Hit>, key: string, since: nat): nat {
    if log == [] then 0 else
      var h := log[|log| - 1];
      AdmittedIn(log[..|log| - 1], key, since) + if h.key == key && h.since == since && h.allowed then 1 else 0
  }

  /** The requests of a key admitted at or after `from` and before `to`. */
  function AdmittedBetween(log: seq<Hit>, key: string, from: nat, to: nat): nat {
    if log == [] then 0 else
      var h := log[|log| - 1];
      AdmittedBetween(log[..|log| - 1], key, from, to) + if h.key == key && from <= h.at < to && h.allowed then 1 else 0
  }

  // ----- The invariant -----

  ghost predicate CounterOk(c: Config, s: System, key: string)
    requires key in s.counters
  {
    var k := s.counters[key];
    && k.since <= s.now && k.expires == Some(k.since + Width(c))
    && k.count == HitsOf(s.log, key, k.since) && k.count >= 1
  }

  ghost predicate HitOk(c: Config, s: System, h: Hit) {
    && h.key in s.counters && h.since <= h.at < h.since + Width(c) && h.at <= s.now
    && (h.since == s.counters[h.key].since || h.since + Width(c) <= s.counters[h.key].since)
  }

  ghost predicate WindowsApart(c: Config, log: seq<Hit>) {
    forall g, h :: g in log && h in log && g.key == h.key ==>
      g.since == h.since || g.since + Width(c) <= h.since || h.since + Width(c) <= g.since
  }

  ghost predicate Inv(c: Config, s: System) {
    && (forall key :: key in s.counters ==> CounterOk(c, s, key))
    && (forall h :: h in s.log ==> HitOk(c, s, h))
    && WindowsApart(c, s.log)
    && forall key, since: nat :: AdmittedIn(s.log, key, since) == Min(HitsOf(s.log, key, since), c.requests)
  }

  function Min(a: nat, b: nat): nat { if a < b then a else b }

  lemma {:induction false} NoHits(log: seq<Hit>, key: string, since: nat)
    requires forall h :: h in log ==> h.key != key || h.since != since
    ensures HitsOf(log, key, since) == 0
  {
    if log != [] { NoHits(log[..|log| - 1], key, since); }
  }

  /** A fresh counter belongs to no earlier hit; a live one has counted its own. */
  lemma NextCount(c: Config, s: System, key: string)
    requires Inv(c, s) && c.windowSeconds >= 1
    ensures var t := DoCount(c, s, key).0;
      && key in t.counters && t.counters[key].count == HitsOf(s.log, key, t.counters[key].since) + 1
      && t.counters[key].since <= s.now < t.counters[key].since + Width(c)
      && t.counters[key].expires == Some(t.counters[key].since + Width(c))
      && (Live(s, key) ==> t.counters[key].since == s.counters[key].since)
      && (!Live(s, key) ==> t.counters[key].since == s.now && (key in s.counters ==> s.counters[key].since + Width(c) <= s.now))
  {
    var since := DoCount(c, s, key).0.counters[key].since;
    if key in s.counters { assert CounterOk(c, s, key); }
    if !Live(s, key) {
      forall h | h in s.log ensures h.key != key || h.since != since {
        assert HitOk(c, s, h);
      }
      NoHits(s.log, key, since);
    }
  }

  lemma CountKeepsInv(c: Config, s: System, key: string)
    requires Inv(c, s) && c.windowSeconds >= 1
    ensures Inv(c, DoCount(c, s, key).0)
  {
    var t := DoCount(c, s, key).0;
    NextCount(c, s, key);
    var hit := Hit(key, s.now, t.counters[key].since, t.counters[key].count <= c.requests);
    assert t == s.(counters := s.counters[key := t.counters[key]], log := s.log + [hit]);
    hide DoCount, Script, Live;
    CountsKept(c, s.log, hit);
    CountersKept(c, s, t, hit);
    hide HitsOf, AdmittedIn;
    forall h | h in t.log ensures HitOk(c, t, h) {
      if h != hit { assert HitOk(c, s, h); }
    }
    WindowsStayApart(c, s, t, hit);
  }

  lemma CountersKept(c: Config, s: System, t: System, hit: Hit)
    requires forall k :: k in s.counters ==> CounterOk(c, s, k)
    requires hit.key in t.counters && t == s.(counters := s.counters[hit.key := t.counters[hit.key]], log := s.log + [hit])
    requires var k := t.counters[hit.key];
      && k.since == hit.since <= s.now && k.expires == Some(k.since + Width(c)) && k.count == HitsOf(s.log, hit.key, k.since) + 1
    ensures forall k :: k in t.counters ==> CounterOk(c, t, k)
  {
    assert t.log[..|s.log|] == s.log;
    forall k | k in t.counters ensures CounterOk(c, t, k) {
      if k != hit.key { assert CounterOk(c, s, k); }
    }
  }

  lemma CountsKept(c: Config, log: seq<Hit>, hit: Hit)
    requires forall key, since: nat :: AdmittedIn(log, key, since) == Min(HitsOf(log, key, since), c.requests)
    requires hit.allowed <==> HitsOf(log, hit.key, hit.since) + 1 <= c.requests
    ensures forall key, since: nat :: AdmittedIn(log + [hit], key, since) == Min(HitsOf(log + [hit], key, since), c.requests)
  {
  }

  lemma WindowsStayApart(c: Config, s: System, t: System, hit: Hit)
    requires Inv(c, s) && t.log == s.log + [hit] && HitOk(c, t, hit) && hit.since == t.counters[hit.key].since
    requires forall h :: h in t.log ==> HitOk(c, t, h)
    ensures WindowsApart(c, t.log)
  {
  }

  lemma TickKeepsInv(c: Config, s: System, ms: nat)
    requires Inv(c, s)
    ensures Inv(c, s.(now := s.now + ms))
  {
  }

  lemma {:induction false} RunKeepsInv(c: Config, s: System, acts: seq<Action>)
    requires Inv(c, s) && c.windowSeconds >= 1
    ensures Inv(c, Run(c, s, acts))
    decreases |acts|
  {
    hide Inv;
    if acts != [] {
      match acts[0] {
        case Tick(ms) => TickKeepsInv(c, s, ms);
        case Count(key) => CountKeepsInv(c, s, key);
      }
      RunKeepsInv(c, Apply(c, s, acts[0]), acts[1..]);
    }
  }

  lemma ReachableInv(c: Config, acts: seq<Action>)
    requires c.windowSeconds >= 1
    ensures Inv(c, Run(c, INIT, acts))
  {
    assert Inv(c, INIT);
    RunKeepsInv(c, INIT, acts);
  }

  // ----- The bounds -----

  /** Where the requests of one window are in the log. */
  ghost function PlacesOf(log: seq<Hit>, key: string, since: nat): set<nat> {
    set j | 0 <= j < |log| && log[j].key == key && log[j].since == since
  }

  lemma {:induction false} HitsAreCounted(log: seq<Hit>, key: string, since: nat)
    ensures HitsOf(log, key, since) == |PlacesOf(log, key, since)|
  {
    if log != [] {
      var n := |log| - 1;
      HitsAreCounted(log[..n], key, since);
      var before := PlacesOf(log[..n], key, since);
      assert PlacesOf(log, key, since) == if log[n].key == key && log[n].since == since then before + {n} else before;
    } else {
      assert PlacesOf(log, key, since) == {};
    }
  }

  /** A request was admitted exactly if fewer than N came before it in its window. */
  ghost predicate FirstAdmitted(c: Config, log: seq<Hit>) {
    forall i :: 0 <= i < |log| ==> (log[i].allowed <==> |PlacesOf(log[..i], log[i].key, log[i].since)| < c.requests)
  }

  lemma CountAdmitsTheFirst(c: Config, s: System, key: string)
    requires c.windowSeconds >= 1 && Inv(c, s) && FirstAdmitted(c, s.log)
    ensures FirstAdmitted(c, DoCount(c, s, key).0.log)
  {
    CountIsTheNext(c, s, key);
    HitsAreCounted(s.log, key, DoCount(c, s, key).0.counters[key].since);
    hide Inv, HitsOf, FirstAdmitted, PlacesOf;
    var (t, d) := DoCount(c, s, key);
    OneMoreAdmitted(c, s.log, Hit(key, s.now, t.counters[key].since, d.allowed));
  }

  lemma CountIsTheNext(c: Config, s: System, key: string)
    requires c.windowSeconds >= 1 && Inv(c, s)
    ensures var (t, d) := DoCount(c, s, key);
      key in t.counters && (d.allowed <==> HitsOf(s.log, key, t.counters[key].since) < c.requests)
  {
    CountKeepsInv(c, s, key);
    var (t, d) := DoCount(c, s, key);
    assert t.log == s.log + [Hit(key, s.now, t.counters[key].since, d.allowed)];
    assert t.log[..|s.log|] == s.log && CounterOk(c, t, key);
  }

  lemma OneMoreAdmitted(c: Config, log: seq<Hit>, h: Hit)
    requires FirstAdmitted(c, log) && (h.allowed <==> |PlacesOf(log, h.key, h.since)| < c.requests)
    ensures FirstAdmitted(c, log + [h])
  {
    hide PlacesOf;
    var more := log + [h];
    assert more[..|log|] == log;
    forall i | 0 <= i < |log| ensures more[..i] == log[..i] && more[i] == log[i] {
    }
  }

  lemma {:induction false} RunAdmitsTheFirst(c: Config, s: System, acts: seq<Action>)
    requires c.windowSeconds >= 1 && Inv(c, s) && FirstAdmitted(c, s.log)
    ensures FirstAdmitted(c, Run(c, s, acts).log)
    decreases |acts|
  {
    hide Inv, FirstAdmitted, DoCount;
    if acts != [] {
      match acts[0] {
        case Tick(ms) => TickKeepsInv(c, s, ms);
        case Count(key) => CountKeepsInv(c, s, key); CountAdmitsTheFirst(c, s, key);
      }
      RunAdmitsTheFirst(c, Apply(c, s, acts[0]), acts[1..]);
    }
  }

  /** A counter's own window admits exactly its first N requests: a request is admitted exactly if
      fewer than N came before it in its window. */
  lemma WindowAdmitsTheFirstN(c: Config, acts: seq<Action>, key: string, since: nat)
    requires c.windowSeconds >= 1
    ensures var log := Run(c, INIT, acts).log;
      && AdmittedIn(log, key, since) == Min(HitsOf(log, key, since), c.requests)
      && (forall i :: 0 <= i < |log| ==> (log[i].allowed <==> |PlacesOf(log[..i], log[i].key, log[i].since)| < c.requests))
  {
    ReachableInv(c, acts);
    assert Inv(c, INIT) && FirstAdmitted(c, []);
    RunAdmitsTheFirst(c, INIT, acts);
  }

  predicate InEither(log: seq<Hit>, key: string, from: nat, to: nat, a: nat, b: nat) {
    forall h :: h in log && h.key == key && from <= h.at < to ==> h.since == a || h.since == b
  }

  lemma {:induction false} CountedInEither(log: seq<Hit>, key: string, from: nat, to: nat, a: nat, b: nat)
    requires InEither(log, key, from, to, a, b)
    ensures AdmittedBetween(log, key, from, to) <= AdmittedIn(log, key, a) + AdmittedIn(log, key, b)
  {
    if log != [] {
      var init := log[..|log| - 1];
      assert forall h :: h in init ==> h in log;
      CountedInEither(init, key, from, to, a, b);
      assert log[|log| - 1] in log;
    }
  }

  /** An interval no longer than a window meets at most two windows: one that began by its start
      and one that began inside it. */
  lemma AtMostTwoWindows(c: Config, s: System, key: string, from: nat, to: nat) returns (a: nat, b: nat)
    requires Inv(c, s) && to <= from + Width(c)
    ensures InEither(s.log, key, from, to, a, b)
  {
    a, b := 0, 0;
    if g :| g in s.log && g.key == key && from <= g.at < to && g.since <= from { a := g.since; }
    if h :| h in s.log && h.key == key && from <= h.at < to && h.since > from { b := h.since; }
    forall h | h in s.log && h.key == key && from <= h.at < to ensures h.since == a || h.since == b {
      assert HitOk(c, s, h);
    }
  }

  /** Every interval of one window's length, wherever it begins, admits at most 2 N requests. */
  lemma SlidingIntervalsAdmitTwiceN(c: Config, acts: seq<Action>, key: string, from: nat, to: nat)
    requires to <= from + 1000 * c.windowSeconds
    ensures |AdmittedAt(Run(c, INIT, acts).log, key, from, to)| <= 2 * c.requests
  {
    var s := Run(c, INIT, acts);
    hide Run;
    AdmittedIsACount(s.log, key, from, to);
    if c.windowSeconds == 0 {
      EmptyInterval(s.log, key, from, to);
      return;
    }
    ReachableInv(c, acts);
    var a, b := AtMostTwoWindows(c, s, key, from, to);
    CountedInEither(s.log, key, from, to, a, b);
  }

  ghost function AdmittedAt(log: seq<Hit>, key: string, from: nat, to: nat): set<nat> {
    set i | 0 <= i < |log| && log[i].key == key && from <= log[i].at < to && log[i].allowed
  }

  lemma {:induction false} AdmittedIsACount(log: seq<Hit>, key: string, from: nat, to: nat)
    ensures AdmittedBetween(log, key, from, to) == |AdmittedAt(log, key, from, to)|
  {
    if log != [] {
      var n := |log| - 1;
      var h, before := log[n], AdmittedAt(log[..n], key, from, to);
      AdmittedIsACount(log[..n], key, from, to);
      assert AdmittedAt(log, key, from, to) == if h.key == key && from <= h.at < to && h.allowed then before + {n} else before;
    } else {
      assert AdmittedAt(log, key, from, to) == {};
    }
  }

  lemma {:induction false} EmptyInterval(log: seq<Hit>, key: string, from: nat, to: nat)
    requires to <= from
    ensures AdmittedBetween(log, key, from, to) == 0
  {
    if log != [] { EmptyInterval(log[..|log| - 1], key, from, to); }
  }

  /** A window of no length limits nothing: every counter is gone at once, so a request is refused
      only if none is ever admitted. */
  lemma NoWindowNoLimit(c: Config, acts: seq<Action>, key: string)
    requires c.windowSeconds == 0 && key in Run(c, INIT, acts).counters
    ensures !Live(Run(c, INIT, acts), key)
    ensures DoCount(c, Run(c, INIT, acts), key).1.allowed <==> c.requests >= 1
  {
    GoneAtOnce(c, INIT, acts);
  }

  lemma {:induction false} GoneAtOnce(c: Config, s: System, acts: seq<Action>)
    requires c.windowSeconds == 0 && forall k :: k in s.counters ==> !Live(s, k)
    ensures forall k :: k in Run(c, s, acts).counters ==> !Live(Run(c, s, acts), k)
    decreases |acts|
  {
    if acts != [] { GoneAtOnce(c, Apply(c, s, acts[0]), acts[1..]); }
  }

  function Elapsed(acts: seq<Action>): nat {
    if acts == [] then 0 else (if acts[0].Tick? then acts[0].ms else 0) + Elapsed(acts[1..])
  }

  /** Only the clock's own steps take time, and every counted request is logged when it came. */
  lemma {:induction false} ClockRuns(c: Config, s: System, acts: seq<Action>)
    ensures Run(c, s, acts).now == s.now + Elapsed(acts)
    ensures |Run(c, s, acts).log| >= |s.log| && Run(c, s, acts).log[..|s.log|] == s.log
    decreases |acts|
  {
    if acts != [] { ClockRuns(c, Apply(c, s, acts[0]), acts[1..]); }
  }

  /** The counter that refused a request is gone once the time it was told to wait has passed,
      whatever is sent meanwhile: a counter that lives then was made later. A client does not
      push its window out by asking again. */
  lemma RefusingCounterGoes(c: Config, acts: seq<Action>, key: string, more: seq<Action>)
    requires c.windowSeconds >= 1 && !DoCount(c, Run(c, INIT, acts), key).1.allowed
    ensures var (s, refusal) := DoCount(c, Run(c, INIT, acts), key); var t := Run(c, s, more);
      && key in s.counters && key in t.counters
      && (t.now >= s.now + 1000 * refusal.retryAfterSeconds && Live(t, key) ==> t.counters[key].since > s.counters[key].since)
  {
    ReachableInv(c, acts);
    var r := Run(c, INIT, acts);
    CountKeepsInv(c, r, key);
    var s := DoCount(c, r, key).0;
    assert CounterOk(c, s, key);
    CountersStay(c, s, more, key);
    RunKeepsInv(c, s, more);
    ClockRuns(c, s, more);
    var t := Run(c, s, more);
    hide Run;
    assert CounterOk(c, t, key);
  }

  lemma {:induction false} CountersStay(c: Config, s: System, acts: seq<Action>, key: string)
    requires key in s.counters
    ensures key in Run(c, s, acts).counters
    decreases |acts|
  {
    if acts != [] { CountersStay(c, Apply(c, s, acts[0]), acts[1..], key); }
  }

  /** If nothing was sent meanwhile, the next request is the first of a new window, and is
      admitted if any is. */
  lemma RefusedMayRetry(c: Config, acts: seq<Action>, key: string, more: seq<Action>)
    requires c.windowSeconds >= 1 && !DoCount(c, Run(c, INIT, acts), key).1.allowed
    requires var (s, refusal) := DoCount(c, Run(c, INIT, acts), key);
      Run(c, s, more).now >= s.now + 1000 * refusal.retryAfterSeconds && Count(key) !in more
    ensures var t := Run(c, DoCount(c, Run(c, INIT, acts), key).0, more);
      !Live(t, key) && (DoCount(c, t, key).1.allowed <==> c.requests >= 1)
  {
    var s := DoCount(c, Run(c, INIT, acts), key).0;
    RefusingCounterGoes(c, acts, key, more);
    CounterStays(c, s, more, key);
  }

  lemma {:induction false} CounterStays(c: Config, s: System, acts: seq<Action>, key: string)
    requires key in s.counters && Count(key) !in acts
    ensures key in Run(c, s, acts).counters && Run(c, s, acts).counters[key] == s.counters[key] && Run(c, s, acts).now >= s.now
    decreases |acts|
  {
    if acts != [] {
      assert acts[0] in acts;
      CounterStays(c, Apply(c, s, acts[0]), acts[1..], key);
    }
  }

  /** No counter lives without an expiry, so none can refuse for ever. */
  lemma CountersExpire(c: Config, acts: seq<Action>, key: string)
    requires c.windowSeconds >= 1 && key in Run(c, INIT, acts).counters
    ensures var s := Run(c, INIT, acts);
      s.counters[key].expires.Some? && s.counters[key].expires.value <= s.now + Width(c)
  {
    ReachableInv(c, acts);
    assert CounterOk(c, Run(c, INIT, acts), key);
  }

  // ----- The middleware -----

  /** The invariant; with a window of no length, that no counter outlives its request. */
  ghost predicate SystemOk(c: Config, s: System) {
    if c.windowSeconds >= 1 then Inv(c, s) else forall key :: key in s.counters ==> !Live(s, key)
  }

  class TrackingRequestProtection {
    const c: Config
    var s: System

    constructor (c: Config)
      ensures this.c == c && s == INIT && SystemOk(c, s)
    {
      this.c, s := c, INIT;
      new;
      assert SystemOk(c, INIT);
    }

    /** A whitelisted client is not counted; without Redis the configured fallback decides. */
    method AllowRequest(key: string, whitelisted: bool, reachable: bool) returns (d: Decision)
      requires SystemOk(c, s)
      modifies this`s
      ensures SystemOk(c, s)
      ensures whitelisted ==> d.allowed && s == old(s)
      ensures !whitelisted && !reachable ==> s == old(s) && d.allowed == c.failOpen
      ensures !whitelisted && reachable ==> s == Apply(c, old(s), Count(key)) && d == DoCount(c, old(s), key).1
      ensures !whitelisted && reachable ==>
        s.now == old(s).now && key in s.counters && s.log == old(s).log + [Hit(key, s.now, s.counters[key].since, d.allowed)]
      ensures d.retryAfterSeconds == if d.allowed then 0 else c.windowSeconds
    {
      if whitelisted { return Decision(true, 0); }
      if !reachable { return if c.failOpen then Decision(true, 0) else Decision(false, c.windowSeconds); }
      if c.windowSeconds >= 1 { CountKeepsInv(c, s, key); }
      hide Inv;
      var (next, decision) := DoCount(c, s, key);
      s := next;
      d := decision;
    }
  }
}
