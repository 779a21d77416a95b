/**
  The seeding generator: a number of events is cut into sessions, sessions are spread over
  profiles, and the events of each browser are cut into requests.
*/
module SeedTraffic {
  import opened Common

  datatype Config = Config(events: int, perSession: int, profiles: int, perRequest: int) {
    predicate Valid() {
      events >= 1 && perSession >= 1 && profiles >= 1 && 1 <= perRequest <= 1000
    }
  }

  /** `number` is what a seeded event id is made from. */
  datatype Event = Event(number: int, session: nat)

  datatype Session = Session(user: nat, agent: nat, events: seq<Event>)

  // ----- Sessions -----

  function Ceil(n: nat, k: nat): nat
    requires k >= 1
  {
    (n + k - 1) / k
  }

  function Number(k: nat, session: nat, event: nat): nat {
    (session + 1) * k + event
  }

  function EventsIn(k: nat, session: nat, count: nat): (es: seq<Event>)
    ensures |es| == count
    ensures forall j :: 0 <= j < count ==> es[j] == Event(Number(k, session, j), session)
  {
    seq(count, j requires 0 <= j < count => Event(Number(k, session, j), session))
  }

  /** The sessions for the remaining events, numbered from `index`; `agent` is the random choice
      of a browser. */
  function SessionsFrom(c: Config, agent: nat -> nat, index: nat, remaining: nat): seq<Session>
    requires c.Valid()
    decreases remaining
  {
    if remaining == 0 then [] else
      var count := if remaining < c.perSession then remaining else c.perSession;
      [Session(index % c.profiles, agent(index), EventsIn(c.perSession, index, count))]
      + SessionsFrom(c, agent, index + 1, remaining - count)
  }

  lemma CeilStep(n: nat, k: nat)
    requires n >= 1 && k >= 1
    ensures Ceil(n, k) == if n <= k then 1 else Ceil(n - k, k) + 1
  {
    if n <= k {
      assert n + k - 1 == 1 * k + (n - 1);
      DivisionIs(n + k - 1, k, 1, n - 1);
    } else {
      var q, r := (n - 1) / k, (n - 1) % k;
      assert n - 1 == q * k + r;
      assert n + k - 1 == (q + 1) * k + r;
      DivisionIs(n + k - 1, k, q + 1, r);
      assert n - k + k - 1 == n - 1;
    }
  }

  lemma DivisionIs(n: nat, k: nat, q: nat, r: nat)
    requires k >= 1 && r < k && n == q * k + r
    ensures n / k == q && n % k == r
  {
    QuotientIsUnique(n / k, n % k, q, r, k);
  }

  lemma QuotientIsUnique(p: nat, s: nat, q: nat, r: nat, k: nat)
    requires s < k && r < k && p * k + s == q * k + r
    ensures p == q && s == r
  {
    if p < q { Larger(p, s, q, r, k); }
    if q < p { Larger(q, r, p, s, k); }
  }

  lemma Larger(p: nat, s: nat, q: nat, r: nat, k: nat)
    requires p < q && s < k
    ensures p * k + s < q * k + r
  {
    var d := q - p;
    Distributes(p, d, k);
    AtLeastOnce(d, k);
  }

  lemma Distributes(p: nat, d: nat, k: nat)
    ensures (p + d) * k == p * k + d * k
  {
  }

  lemma AtLeastOnce(d: nat, k: nat)
    requires d >= 1
    ensures d * k >= k
  {
  }

  lemma {:induction false} SessionsAreExact(c: Config, agent: nat -> nat, index: nat, remaining: nat)
    requires c.Valid()
    ensures var ss := SessionsFrom(c, agent, index, remaining);
      |ss| == Ceil(remaining, c.perSession) && Sum(Sizes(ss)) == remaining
    decreases remaining
  {
    if remaining == 0 {
      assert Ceil(0, c.perSession) == 0 by { DivisionIs(c.perSession - 1, c.perSession, 0, c.perSession - 1); }
    } else {
      var count := if remaining < c.perSession then remaining else c.perSession;
      var rest := SessionsFrom(c, agent, index + 1, remaining - count);
      var ss := SessionsFrom(c, agent, index, remaining);
      CeilStep(remaining, c.perSession);
      hide Ceil, Number;
      assert Sizes(ss)[0] == count && Sizes(ss)[1..] == Sizes(rest);
      SessionsAreExact(c, agent, index + 1, remaining - count);
    }
  }

  /** Each session is the next profile's, and each but the last is full. */
  lemma {:induction false} SessionAt(c: Config, agent: nat -> nat, index: nat, remaining: nat, i: nat)
    requires c.Valid() && i < |SessionsFrom(c, agent, index, remaining)|
    ensures var ss := SessionsFrom(c, agent, index, remaining);
      SessionIs(c, agent, ss[i], index + i) && (i < |ss| - 1 ==> |ss[i].events| == c.perSession)
    decreases i
  {
    hide Number;
    var count := if remaining < c.perSession then remaining else c.perSession;
    var rest := SessionsFrom(c, agent, index + 1, remaining - count);
    if i > 0 {
      hide SessionIs;
      SessionAt(c, agent, index + 1, remaining - count, i - 1);
      assert index + 1 + (i - 1) == index + i;
    }
  }

  ghost predicate SessionIs(c: Config, agent: nat -> nat, s: Session, index: nat)
    requires c.Valid()
  {
    && s.user == index % c.profiles && s.agent == agent(index)
    && 1 <= |s.events| <= c.perSession && s.events == EventsIn(c.perSession, index, |s.events|)
  }

  function Sizes(ss: seq<Session>): (ns: seq<nat>)
    ensures |ns| == |ss|
    ensures forall i :: 0 <= i < |ns| ==> ns[i] == |ss[i].events|
  {
    seq(|ss|, i requires 0 <= i < |ss| => |ss[i].events|)
  }

  function Sessions(c: Config, agent: nat -> nat): seq<Session>
    requires c.Valid()
  {
    SessionsFrom(c, agent, 0, c.events)
  }

  function Users(ss: seq<Session>): set<nat> {
    set i | 0 <= i < |ss| :: ss[i].user
  }

  function Below(n: nat): (s: set<nat>)
    ensures |s| == n && forall i: nat :: i in s <==> i < n
  {
    if n == 0 then {} else Below(n - 1) + {n - 1}
  }

  /** n events in sessions of k are ceil(n / k) sessions that hold exactly n events, by exactly
      min(profiles, sessions) distinct users. */
  lemma TrafficIsCounted(c: Config, agent: nat -> nat)
    requires c.Valid()
    ensures var ss := Sessions(c, agent);
      && |ss| == Ceil(c.events, c.perSession) && Sum(Sizes(ss)) == c.events
      && |Users(ss)| == if c.profiles < |ss| then c.profiles else |ss|
  {
    var ss := Sessions(c, agent);
    SessionsAreExact(c, agent, 0, c.events);
    forall i | 0 <= i < |ss| ensures ss[i].user == i % c.profiles {
      SessionAt(c, agent, 0, c.events, i);
    }
    hide SessionsFrom, Ceil;
    var n := if c.profiles < |ss| then c.profiles else |ss|;
    forall i | 0 <= i < n ensures i in Users(ss) {
      DivisionIs(i, c.profiles, 0, i);
      assert ss[i].user == i;
    }
    forall u | u in Users(ss) ensures u in Below(n) {
      var i :| 0 <= i < |ss| && ss[i].user == u;
      if |ss| <= c.profiles { DivisionIs(i, c.profiles, 0, i); }
    }
    assert Users(ss) == Below(n);
  }

  /** The numbers that seeded event ids are made from never collide. */
  lemma NumbersNeverCollide(c: Config, agent: nat -> nat, i: nat, j: nat, x: nat, y: nat)
    requires c.Valid()
    requires var ss := Sessions(c, agent);
      i < |ss| && j < |ss| && x < |ss[i].events| && y < |ss[j].events| && ss[i].events[x].number == ss[j].events[y].number
    ensures i == j && x == y
  {
    var ss, k := Sessions(c, agent), c.perSession;
    SessionAt(c, agent, 0, c.events, i);
    SessionAt(c, agent, 0, c.events, j);
    DivisionIs(Number(k, i, x), k, i + 1, x);
    DivisionIs(Number(k, j, y), k, j + 1, y);
  }

  // ----- --min-profiles -----

  function AtLeast(c: Config, minProfiles: nat): Config {
    var profiles := if c.profiles < minProfiles then minProfiles else c.profiles;
    c.(profiles := profiles, events := if c.events < profiles * c.perSession then profiles * c.perSession else c.events)
  }

  /** `--min-profiles m` raises the counts just enough for at least m distinct users: the profiles
      to m if there are fewer, and the events to what those need if there are fewer. */
  lemma MinProfilesIsMet(c: Config, m: nat, agent: nat -> nat)
    requires c.Valid() && m >= 1
    ensures AtLeast(c, m).Valid() && AtLeast(c, m).events >= c.events
    ensures |Users(Sessions(AtLeast(c, m), agent))| == AtLeast(c, m).profiles >= m
    ensures var d := AtLeast(c, m); var needed := d.profiles * c.perSession;
      && d.profiles == (if c.profiles >= m then c.profiles else m) && d.events == (if c.events >= needed then c.events else needed)
      && d.perSession == c.perSession && d.perRequest == c.perRequest
  {
    var d := AtLeast(c, m);
    assert d.profiles * c.perSession >= 1 * 1;
    TrafficIsCounted(d, agent);
    EnoughSessions(d.events, d.perSession, d.profiles);
  }

  lemma EnoughSessions(n: nat, k: nat, p: nat)
    requires k >= 1 && n >= p * k
    ensures Ceil(n, k) >= p
  {
  }

  // ----- Requests -----

  /** The browsers in the order they first appear. */
  function Agents(ss: seq<Session>): (r: seq<nat>)
    ensures Distinct(r)
  {
    if ss == [] then [] else
      var rest, last := Agents(ss[..|ss| - 1]), ss[|ss| - 1];
      if last.agent in rest then rest else rest + [last.agent]
  }

  /** The events of one browser, in session order. */
  function EventsOf(ss: seq<Session>, agent: nat): seq<Event> {
    if ss == [] then [] else
      EventsOf(ss[..|ss| - 1], agent) + if ss[|ss| - 1].agent == agent then ss[|ss| - 1].events else []
  }

  function Slices(es: seq<Event>, size: nat): (bs: seq<seq<Event>>)
    requires size >= 1
    ensures Flatten(bs) == es
    ensures forall b :: b in bs ==> 1 <= |b| <= size
    decreases |es|
  {
    if es == [] then [] else
      var n := if |es| <= size then |es| else size;
      [es[..n]] + Slices(es[n..], size)
  }

  function Groups(ss: seq<Session>, agents: seq<nat>): (gs: seq<seq<Event>>)
    ensures |gs| == |agents|
    ensures forall i :: 0 <= i < |gs| ==> gs[i] == EventsOf(ss, agents[i])
  {
    seq(|agents|, i requires 0 <= i < |agents| => EventsOf(ss, agents[i]))
  }

  /** The requests: browser by browser, each cut into slices. */
  function Batches(ss: seq<Session>, agents: seq<nat>, size: nat): seq<seq<Event>>
    requires size >= 1
  {
    if agents == [] then [] else
      Batches(ss, agents[..|agents| - 1], size) + Slices(EventsOf(ss, agents[|agents| - 1]), size)
  }

  function AllEvents(ss: seq<Session>): seq<Event> {
    if ss == [] then [] else AllEvents(ss[..|ss| - 1]) + ss[|ss| - 1].events
  }

  lemma {:induction false} BatchesAreGroups(ss: seq<Session>, agents: seq<nat>, size: nat)
    requires size >= 1
    ensures Flatten(Batches(ss, agents, size)) == Flatten(Groups(ss, agents))
    ensures forall b :: b in Batches(ss, agents, size) ==> 1 <= |b| <= size
  {
    hide EventsOf;
    if agents != [] {
      var init, last := agents[..|agents| - 1], agents[|agents| - 1];
      BatchesAreGroups(ss, init, size);
      FlattenAppend(Batches(ss, init, size), Slices(EventsOf(ss, last), size));
      assert Groups(ss, agents) == Groups(ss, init) + [EventsOf(ss, last)];
      FlattenAppend(Groups(ss, init), [EventsOf(ss, last)]);
      FlattenOne(EventsOf(ss, last));
    }
  }

  lemma {:induction false} NoEventsYet(ss: seq<Session>, agent: nat)
    requires agent !in Agents(ss)
    ensures EventsOf(ss, agent) == []
  {
    if ss != [] { NoEventsYet(ss[..|ss| - 1], agent); }
  }

  /** What one more session does to the groups. */
  lemma OneMoreSession(ss: seq<Session>, agent: nat)
    requires ss != []
    ensures var init, last := ss[..|ss| - 1], ss[|ss| - 1];
      && Agents(ss) == (if last.agent in Agents(init) then Agents(init) else Agents(init) + [last.agent])
      && EventsOf(ss, agent) == EventsOf(init, agent) + if last.agent == agent then last.events else []
  {
  }

  lemma {:induction false} GroupsHoldAll(ss: seq<Session>)
    ensures multiset(Flatten(Groups(ss, Agents(ss)))) == multiset(AllEvents(ss))
  {
    if ss != [] {
      var init, last := ss[..|ss| - 1], ss[|ss| - 1];
      GroupsHoldAll(init);
      assert AllEvents(ss) == AllEvents(init) + last.events;
      hide AllEvents, Distinct, Flatten, Agents, EventsOf;
      var a, b := Groups(init, Agents(init)), Groups(ss, Agents(ss));
      if last.agent in Agents(init) {
        var i :| 0 <= i < |Agents(init)| && Agents(init)[i] == last.agent;
        OtherGroupsStay(ss, i);
        FlattenGrows(a, b, i, last.events);
      } else {
        NewGroup(ss);
        FlattenAppend(a, [last.events]);
        FlattenOne(last.events);
      }
    }
  }

  lemma NewGroup(ss: seq<Session>)
    requires ss != [] && ss[|ss| - 1].agent !in Agents(ss[..|ss| - 1])
    ensures var init := ss[..|ss| - 1]; Groups(ss, Agents(ss)) == Groups(init, Agents(init)) + [ss[|ss| - 1].events]
  {
    var init, last := ss[..|ss| - 1], ss[|ss| - 1];
    OneMoreSession(ss, last.agent);
    NoEventsYet(init, last.agent);
    hide *;
    GroupsUnchanged(ss, Agents(init), last.agent);
    assert [] + last.events == last.events;
    OneMoreGroup(ss, Agents(init), last.agent);
  }

  lemma OneMoreGroup(ss: seq<Session>, agents: seq<nat>, agent: nat)
    ensures Groups(ss, agents + [agent]) == Groups(ss, agents) + [EventsOf(ss, agent)]
  {
    hide EventsOf;
  }

  lemma GroupsUnchanged(ss: seq<Session>, agents: seq<nat>, agent: nat)
    requires ss != [] && ss[|ss| - 1].agent == agent && agent !in agents
    ensures Groups(ss, agents) == Groups(ss[..|ss| - 1], agents)
  {
    forall i | 0 <= i < |agents| ensures EventsOf(ss, agents[i]) == EventsOf(ss[..|ss| - 1], agents[i]) {
      assert agents[i] in agents;
      OneMoreSession(ss, agents[i]);
    }
    hide EventsOf;
  }

  lemma OtherGroupsStay(ss: seq<Session>, i: nat)
    requires ss != [] && i < |Agents(ss[..|ss| - 1])| && Agents(ss[..|ss| - 1])[i] == ss[|ss| - 1].agent
    ensures var init := ss[..|ss| - 1]; var a, b := Groups(init, Agents(init)), Groups(ss, Agents(ss));
      && |a| == |b| && b[i] == a[i] + ss[|ss| - 1].events
      && forall j :: 0 <= j < |a| && j != i ==> a[j] == b[j]
  {
  }

  /** The requests hold every event exactly once, and none more than a request may. */
  lemma RequestsPartitionTheEvents(ss: seq<Session>, size: nat)
    requires size >= 1
    ensures multiset(Flatten(Batches(ss, Agents(ss), size))) == multiset(AllEvents(ss))
    ensures forall b :: b in Batches(ss, Agents(ss), size) ==> 1 <= |b| <= size
  {
    BatchesAreGroups(ss, Agents(ss), size);
    GroupsHoldAll(ss);
  }

  /** The k-th slice of that size: full, but for the last. */
  function SliceAt(es: seq<Event>, size: nat, k: nat): seq<Event>
    requires k * size <= |es|
  {
    if k * size + size <= |es| then es[k * size..k * size + size] else es[k * size..]
  }

  ghost predicate IsSlice(b: seq<Event>, es: seq<Event>, size: nat) {
    exists k: nat :: k * size < |es| && b == SliceAt(es, size, k)
  }

  lemma NextSlice(es: seq<Event>, size: nat, k: nat)
    requires size <= |es| && k * size <= |es| - size
    ensures (k + 1) * size == k * size + size && SliceAt(es, size, k + 1) == SliceAt(es[size..], size, k)
  {
    var from := k * size;
    assert (k + 1) * size == from + size;
  }

  lemma {:induction false} SlicesAreFull(es: seq<Event>, size: nat, b: seq<Event>)
    requires size >= 1 && b in Slices(es, size)
    ensures IsSlice(b, es, size)
    decreases |es|
  {
    var n := if |es| <= size then |es| else size;
    if b == es[..n] {
      assert 0 * size == 0 && SliceAt(es, size, 0) == es[..n];
    } else {
      SlicesAreFull(es[n..], size, b);
      hide Slices, SliceAt;
      var k: nat :| k * size < |es[n..]| && b == SliceAt(es[n..], size, k);
      NextSlice(es, size, k);
    }
  }

  lemma {:induction false} EventsAreTheBrowsers(ss: seq<Session>, agent: nat, e: Event)
    ensures e in EventsOf(ss, agent) <==> exists s :: s in ss && s.agent == agent && e in s.events
    ensures agent in Agents(ss) <==> exists s :: s in ss && s.agent == agent
  {
    if ss != [] {
      EventsAreTheBrowsers(ss[..|ss| - 1], agent, e);
      assert forall s :: s in ss <==> s in ss[..|ss| - 1] || s == ss[|ss| - 1];
      hide Distinct;
    }
  }

  /** Each request is for one browser: a full slice of its events, or the last one. */
  lemma {:induction false} RequestsAreOneBrowsers(ss: seq<Session>, agents: seq<nat>, size: nat, b: seq<Event>)
    requires size >= 1 && b in Batches(ss, agents, size)
    ensures exists agent :: agent in agents && IsSlice(b, EventsOf(ss, agent), size)
  {
    hide EventsOf, IsSlice, Slices;
    var init, last := agents[..|agents| - 1], agents[|agents| - 1];
    if b in Batches(ss, init, size) {
      RequestsAreOneBrowsers(ss, init, size, b);
      var agent :| agent in init && IsSlice(b, EventsOf(ss, agent), size);
      assert agent in agents;
    } else {
      SlicesAreFull(EventsOf(ss, last), size, b);
      assert last in agents;
    }
  }

  // ----- The loops -----

  method IterSessions(c: Config, agent: nat -> nat) returns (ss: seq<Session>)
    requires c.Valid()
    ensures ss == Sessions(c, agent)
  {
    hide EventsIn, Number;
    ss := [];
    var remaining, index := c.events, 0;
    while remaining != 0
      invariant 0 <= remaining && 0 <= index
      invariant ss + SessionsFrom(c, agent, index, remaining) == Sessions(c, agent)
      decreases remaining
    {
      index := index + 1;
      var count := if remaining < c.perSession then remaining else c.perSession;
      var s := Session((index - 1) % c.profiles, agent(index - 1), EventsIn(c.perSession, index - 1, count));
      assert ss + ([s] + SessionsFrom(c, agent, index, remaining - count)) == (ss + [s]) + SessionsFrom(c, agent, index, remaining - count);
      ss := ss + [s];
      remaining := remaining - count;
    }
  }

  ghost predicate Grouped(ss: seq<Session>, agents: seq<nat>, byAgent: map<nat, seq<Event>>) {
    && agents == Agents(ss) && byAgent.Keys == Elements(agents)
    && forall a :: a in agents ==> byAgent[a] == EventsOf(ss, a)
  }

  lemma GroupedThen(ss: seq<Session>, agents: seq<nat>, byAgent: map<nat, seq<Event>>)
    requires ss != [] && Grouped(ss[..|ss| - 1], agents, byAgent)
    ensures var s := ss[|ss| - 1];
      if s.agent in byAgent then Grouped(ss, agents, byAgent[s.agent := byAgent[s.agent] + s.events])
      else Grouped(ss, agents + [s.agent], byAgent[s.agent := [] + s.events])
  {
    var init, s := ss[..|ss| - 1], ss[|ss| - 1];
    OneMoreSession(ss, s.agent);
    if s.agent !in byAgent { NoEventsYet(init, s.agent); }
    hide Agents, Distinct;
    forall a | a in agents && a != s.agent ensures EventsOf(ss, a) == byAgent[a] {
      OneMoreSession(ss, a);
      assert byAgent[a] + [] == byAgent[a];
    }
    hide EventsOf;
  }

  method GroupByAgent(ss: seq<Session>) returns (agents: seq<nat>, byAgent: map<nat, seq<Event>>)
    ensures Grouped(ss, agents, byAgent)
  {
    agents, byAgent := [], map[];
    var i := 0;
    assert ss[..0] == [] && Grouped([], agents, byAgent);
    hide Grouped;
    while i < |ss|
      invariant 0 <= i <= |ss| && Grouped(ss[..i], agents, byAgent)
    {
      assert ss[..i + 1][..i] == ss[..i];
      GroupedThen(ss[..i + 1], agents, byAgent);
      var s := ss[i];
      if s.agent !in byAgent {
        agents, byAgent := agents + [s.agent], byAgent[s.agent := []];
      }
      byAgent := byAgent[s.agent := byAgent[s.agent] + s.events];
      i := i + 1;
    }
    assert ss[..i] == ss;
  }

  method SliceEvents(es: seq<Event>, size: nat) returns (bs: seq<seq<Event>>)
    requires size >= 1
    ensures bs == Slices(es, size)
  {
    bs := [];
    var rest := es;
    hide Flatten;
    while rest != []
      invariant bs + Slices(rest, size) == Slices(es, size)
      decreases |rest|
    {
      var n := if |rest| <= size then |rest| else size;
      assert bs + ([rest[..n]] + Slices(rest[n..], size)) == (bs + [rest[..n]]) + Slices(rest[n..], size);
      bs, rest := bs + [rest[..n]], rest[n..];
    }
  }

  method BuildRequests(c: Config, ss: seq<Session>) returns (batches: seq<seq<Event>>)
    requires c.Valid()
    ensures batches == Batches(ss, Agents(ss), c.perRequest)
  {
    hide Slices, EventsOf, Agents;
    var agents, byAgent := GroupByAgent(ss);
    batches := [];
    var j := 0;
    while j < |agents|
      invariant 0 <= j <= |agents| && batches == Batches(ss, agents[..j], c.perRequest)
    {
      assert agents[..j + 1][..j] == agents[..j];
      var slices := SliceEvents(byAgent[agents[j]], c.perRequest);
      batches, j := batches + slices, j + 1;
    }
    assert agents[..j] == agents;
  }
}
