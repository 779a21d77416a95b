/**
  The publisher and worker code of the Redis Streams handoff, command by command, with the
  actions of every other publisher, worker and the clock falling between any two commands.
  Each method is proved to be a run of the machine in StreamQueue.
*/
module StreamWorker {
  import opened Common
  import opened StreamQueue

  /** What becomes of one call to the broker. */
  datatype Link = Up | Down | ReplyLost

  datatype PublishResult = Queued(id: Id) | QueueFull | Unavailable

  /** Actions of anyone but worker w. */
  predicate ByOther(w: nat, a: Action) {
    match a
    case Tick(_) => true
    case CreateGroup => true
    case PublishBatch(_, _, _) => true
    case _ => a.w != w
  }

  ghost predicate Others(w: nat, env: (nat, nat) -> seq<Action>) {
    forall n, slot, i :: 0 <= i < |env(n, slot)| ==> ByOther(w, env(n, slot)[i])
  }

  lemma {:induction false} OthersLeaveTheHand(c: Config, s: System, w: nat, acts: seq<Action>)
    requires forall i :: 0 <= i < |acts| ==> ByOther(w, acts[i])
    ensures HandOf(Run(c, s, acts), w) == HandOf(s, w)
    decreases |acts|
  {
    if acts != [] {
      assert ByOther(w, acts[0]);
      forall i | 0 <= i < |acts[1..]| ensures ByOther(w, acts[1..][i]) {
        assert ByOther(w, acts[i + 1]);
      }
      OthersLeaveTheHand(c, Apply(c, s, acts[0]), w, acts[1..]);
    }
  }

  /** The commands a worker issues for one message, the k-th it holds: store, and only if that
      did not raise, acknowledge and delete. env(k, ..) is what the others do in between. */
  function CommandsForOne(w: nat, k: nat, outcome: nat -> Outcome, env: (nat, nat) -> seq<Action>): seq<Action> {
    env(k, 0) + [PutObject(w, outcome(k))]
    + if outcome(k).Raised? then [] else env(k, 1) + [AckMessage(w)] + env(k, 2) + [DeleteMessage(w)]
  }

  /** The commands for n messages, stopping after the first one that raises. */
  function Commands(w: nat, n: nat, k: nat, outcome: nat -> Outcome, env: (nat, nat) -> seq<Action>): seq<Action>
    decreases n
  {
    if n == 0 then [] else
      CommandsForOne(w, k, outcome, env)
      + if outcome(k).Raised? then [] else Commands(w, n - 1, k + 1, outcome, env)
  }

  /** The first `count` of these ids, ascending. */
  ghost predicate AreFirst(ids: seq<Id>, all: set<Id>, count: nat) {
    && |ids| <= count && (forall x :: x in ids ==> x in all)
    && (forall i, j :: 0 <= i < j < |ids| ==> ids[i] < ids[j])
    && (forall x :: x in all && x !in ids ==> |ids| == count && forall y :: y in ids ==> y < x)
  }

  ghost function IdsOf(ms: seq<Message>): seq<Id> {
    seq(|ms|, i requires 0 <= i < |ms| => ms[i].id)
  }

  /** What a consumer holds; what anyone has held for long enough to be claimed; what nobody was
      given yet. */
  ghost function PendingOf(r: Redis, consumer: string): set<Id> {
    set i | i in r.pel && r.pel[i].consumer == consumer
  }

  ghost function Overdue(r: Redis, idle: nat): set<Id> {
    set i | i in r.pel && r.now - r.pel[i].since >= idle
  }

  ghost function Undelivered(r: Redis): set<Id> {
    set i | i in r.entries && i > Cursor(r)
  }

  lemma FirstAreFirst(r: Redis, all: set<Id>, count: nat)
    ensures AreFirst(IdsOf(Fetch(r, FirstIds(all, count))), all, count)
  {
    assert IdsOf(Fetch(r, FirstIds(all, count))) == FirstIds(all, count);
  }

  /** The first of the first are the first. */
  lemma FirstOfFirst(ids: seq<Id>, first: seq<Id>, all: set<Id>, count: nat)
    requires AreFirst(first, all, count) && AreFirst(ids, Elements(first), count)
    ensures AreFirst(ids, all, count)
  {
    if |ids| < count {
      assert Elements(first) <= Elements(ids);
      CountElements(first);
      CountElements(ids);
      SubsetCount(Elements(first), Elements(ids));
    }
  }

  lemma FirstOfFew(ids: seq<Id>, few: seq<Id>, count: nat)
    requires |few| <= count && AreFirst(ids, Elements(few), count)
    ensures Elements(ids) == Elements(few)
  {
    CountElements(few);
    CountElements(ids);
    SubsetCount(Elements(ids), Elements(few));
  }

  lemma SomeAreFirst(ids: seq<Id>, all: set<Id>, count: nat)
    requires AreFirst(ids, all, count) && count >= 1
    ensures ids == [] <==> all == {}
  {
    if ids != [] { assert ids[0] in all; }
  }

  lemma OwnAreFirst(c: Config, s: System, w: nat, consumer: string)
    requires c.Valid() && Inv(c, s) && CanRead(c, s, w)
    ensures var r, t := s.shared.redis, Apply(c, s, ReadPendingOwn(w, consumer));
      AreFirst(IdsOf(HandOf(t, w).todo), PendingOf(r, consumer), c.batchSize)
  {
    var r := s.shared.redis;
    FirstAreFirst(r, PendingOf(r, consumer), c.batchSize);
  }

  lemma AllAreThere(r: Redis, due: seq<Id>, all: set<Id>)
    requires (forall i :: i in due ==> i in all) && all <= r.entries.Keys
    ensures StillThere(r, due) == Elements(due)
  {
  }

  lemma ClaimedAreFirst(r: Redis, consumer: string, idle: nat, count: nat)
    requires r.pel.Keys <= r.entries.Keys
    ensures AreFirst(IdsOf(AutoClaim(r, consumer, idle, count).1), Overdue(r, idle), count)
  {
    assert Overdue(r, idle) == Claimable(r, idle);
    var due := FirstIds(Claimable(r, idle), count);
    var ids := FirstIds(StillThere(r, due), count);
    AllAreThere(r, due, Claimable(r, idle));
    FirstAreFirst(r, StillThere(r, due), count);
    assert AreFirst(due, Overdue(r, idle), count);
    hide AreFirst, Fetch, Overdue, Claimable, IdsOf, StillThere;
    assert AutoClaim(r, consumer, idle, count).1 == Fetch(r, ids);
    FirstOfFirst(IdsOf(Fetch(r, ids)), due, Overdue(r, idle), count);
  }

  lemma OverdueAreFirst(c: Config, s: System, w: nat, consumer: string)
    requires c.Valid() && Inv(c, s) && CanRead(c, s, w)
    ensures var r, t := s.shared.redis, Apply(c, s, ClaimIdle(w, consumer));
      AreFirst(IdsOf(HandOf(t, w).todo), Overdue(r, c.claimIdle), c.batchSize)
  {
    StreamFacts(s.shared);
    hide Inv, AreFirst, AutoClaim;
    ClaimedAreFirst(s.shared.redis, consumer, c.claimIdle, c.batchSize);
  }

  lemma NewAreFirst(c: Config, s: System, w: nat, consumer: string)
    requires c.Valid() && Inv(c, s) && CanRead(c, s, w)
    ensures var r, t := s.shared.redis, Apply(c, s, ReadUndelivered(w, consumer));
      AreFirst(IdsOf(HandOf(t, w).todo), Undelivered(r), c.batchSize)
  {
    var r := s.shared.redis;
    assert Waiting(r) == Undelivered(r);
    FirstAreFirst(r, Waiting(r), c.batchSize);
  }

  /** What was delivered is this consumer's from now on; all else pending is as it was. */
  ghost predicate NowTheirs(r: Redis, q: Redis, ids: seq<Id>, consumer: string) {
    && (forall i :: i in ids ==> i in q.pel && q.pel[i] == Pending(consumer, r.now))
    && (forall i :: i in r.pel && i !in ids ==> i in q.pel && q.pel[i] == r.pel[i])
  }

  lemma OwnStaysTheirs(r: Redis, consumer: string, count: nat)
    ensures NowTheirs(r, ReadOwn(r, consumer, count).0, IdsOf(ReadOwn(r, consumer, count).1), consumer)
  {
    var own := set i | i in r.pel && r.pel[i].consumer == consumer;
    assert IdsOf(ReadOwn(r, consumer, count).1) == FirstIds(own, count);
    assert forall i :: i in FirstIds(own, count) ==> i in own;
  }

  lemma ClaimedIsTheirs(r: Redis, consumer: string, idle: nat, count: nat)
    requires r.pel.Keys <= r.entries.Keys
    ensures NowTheirs(r, AutoClaim(r, consumer, idle, count).0, IdsOf(AutoClaim(r, consumer, idle, count).1), consumer)
  {
    var due := FirstIds(Claimable(r, idle), count);
    var ids := FirstIds(StillThere(r, due), count);
    AllAreThere(r, due, Claimable(r, idle));
    assert AreFirst(ids, Elements(due), count);
    FirstOfFew(ids, due, count);
    assert forall i :: i in due <==> i in Elements(ids);
    assert IdsOf(AutoClaim(r, consumer, idle, count).1) == ids;
    assert forall i :: i in due ==> i in Claimable(r, idle);
  }

  lemma NewIsTheirs(r: Redis, consumer: string, count: nat)
    requires r.group.Some?
    ensures NowTheirs(r, ReadNew(r, consumer, count).0, IdsOf(ReadNew(r, consumer, count).1), consumer)
  {
    assert IdsOf(ReadNew(r, consumer, count).1) == FirstIds(Waiting(r), count);
  }

  /** A read makes what it delivers this consumer's, and takes nothing from another consumer that
      has not held it for `claimIdle`. */
  lemma ReadTakesOverdueOnly(c: Config, s: System, a: Action)
    requires a.ReadPendingOwn? || a.ClaimIdle? || a.ReadUndelivered?
    requires c.Valid() && Inv(c, s) && CanRead(c, s, a.w)
    ensures var r, ids := s.shared.redis, IdsOf(HandOf(Apply(c, s, a), a.w).todo);
      && NowTheirs(r, Apply(c, s, a).shared.redis, ids, a.consumer)
      && (forall i :: i in ids && i in r.pel && r.pel[i].consumer != a.consumer ==> r.now - r.pel[i].since >= c.claimIdle)
  {
    var r := s.shared.redis;
    StreamFacts(s.shared);
    assert CanRead(c, s, a.w) && Apply(c, s, a) == ReadStep(c, s, a);
    hide Inv, NowTheirs, ReadOwn, AutoClaim, ReadNew;
    if a.ReadPendingOwn? {
      OwnAreFirst(c, s, a.w, a.consumer);
      OwnStaysTheirs(r, a.consumer, c.batchSize);
    } else if a.ClaimIdle? {
      ClaimedAreFirst(r, a.consumer, c.claimIdle, c.batchSize);
      ClaimedIsTheirs(r, a.consumer, c.claimIdle, c.batchSize);
    } else {
      NewAreFirst(c, s, a.w, a.consumer);
      NewIsTheirs(r, a.consumer, c.batchSize);
    }
  }

  class RedisStreamTrackingStorage {
    const c: Config
    const w: nat
    const consumer: string
    var sys: System

    ghost predicate Valid() reads this {
      c.Valid() && Inv(c, sys)
    }

    constructor (c: Config, w: nat, consumer: string, sys: System)
      requires c.Valid() && Inv(c, sys)
      ensures Valid() && this.c == c && this.w == w && this.consumer == consumer && this.sys == sys
    {
      this.c, this.w, this.consumer, this.sys := c, w, consumer, sys;
    }

    /** Everyone else's actions between two commands of this worker. */
    method Interference(acts: seq<Action>)
      requires Valid() && forall i :: 0 <= i < |acts| ==> ByOther(w, acts[i])
      modifies this`sys
      ensures Valid() && sys == Run(c, old(sys), acts) && HandOf(sys, w) == HandOf(old(sys), w)
      ensures Later(old(sys).shared, sys.shared)
    {
      RunKeepsInv(c, sys, acts);
      OthersLeaveTheHand(c, sys, w, acts);
      sys := Run(c, sys, acts);
    }

    /** Publishes one batch; `newId` is the id the server generates if it appends. An id is
        returned exactly when the batch is promised, and a full stream or a dead link never is. */
    method StoreTrackingLogs(b: Batch, newId: Id, link: Link) returns (r: PublishResult)
      requires Valid() && newId > sys.shared.redis.lastId
      modifies this`sys
      ensures Valid()
      ensures sys == if link.Down? then old(sys) else Apply(c, old(sys), PublishBatch(b, newId, link.Up?))
      ensures r.Queued? ==> (b.name, r.id) in sys.shared.receipts
      ensures r.QueueFull? <==> link.Up? && NoLivingKey(c, old(sys).shared.redis, b.name) && |old(sys).shared.redis.entries| >= c.maxLength
      ensures r.Queued? && !NoLivingKey(c, old(sys).shared.redis, b.name) ==> sys.shared.redis == old(sys).shared.redis
      ensures r.Queued? && NoLivingKey(c, old(sys).shared.redis, b.name) ==>
        r.id == newId && sys.shared.redis.entries == old(sys).shared.redis.entries[newId := b]
      ensures r.Unavailable? <==> !link.Up?
      ensures !r.Queued? ==> sys.shared.receipts == old(sys).shared.receipts
    {
      if link.Down? { return Unavailable; }
      PublishKeepsInv(c, sys.shared, b, newId, link.Up?);
      StepKeepsInv(c, sys, PublishBatch(b, newId, link.Up?));
      var reply := Publish(c, sys.shared.redis, b, newId).1;
      sys := sys.(shared := Published(c, sys.shared, b, newId, link.Up?));
      if link.ReplyLost? { return Unavailable; }
      match reply
      case Accepted(id) => return Queued(id);
      case StreamFull => return QueueFull;
    }

    method IssuePut(outcome: Outcome) returns (raised: bool)
      requires Valid() && AtStage(sys, w, ToStore)
      modifies this`sys
      ensures Valid() && sys == Apply(c, old(sys), PutObject(w, outcome)) && raised == outcome.Raised?
      ensures Later(old(sys).shared, sys.shared)
      ensures var h := HandOf(old(sys), w);
        && (raised ==> HandOf(sys, w) == IDLE)
        && (!raised ==> HandOf(sys, w) == h.(stage := ToAck))
    {
      var h := HandOf(sys, w);
      assert HandOk(sys.shared, h) && Held(sys.shared, h.todo[0]);
      PutKeepsInv(c, sys, w, outcome);
      sys := PutStep(sys, w, outcome);
      raised := outcome.Raised?;
    }

    method IssueAck()
      requires Valid() && AtStage(sys, w, ToAck)
      modifies this`sys
      ensures Valid() && sys == Apply(c, old(sys), AckMessage(w)) && Later(old(sys).shared, sys.shared)
      ensures HandOf(sys, w) == HandOf(old(sys), w).(stage := ToDelete)
    {
      hide Inv, Later;
      AckStepKeepsInv(c, sys, w);
      sys := AckStep(sys, w);
    }

    method IssueDelete()
      requires Valid() && AtStage(sys, w, ToDelete)
      modifies this`sys
      ensures Valid() && sys == Apply(c, old(sys), DeleteMessage(w)) && Later(old(sys).shared, sys.shared)
      ensures HandOf(sys, w) == Hand(HandOf(old(sys), w).todo[1..], ToStore)
      ensures var id := HandOf(old(sys), w).todo[0].id;
        id in sys.shared.acked && id !in sys.shared.redis.entries
    {
      var h := HandOf(sys, w);
      assert HandOk(sys.shared, h);
      DeleteStepKeepsInv(c, sys, w);
      sys := DeleteStep(sys, w);
    }

    /** One message; `done` are the ones handled before it, which stay handled. */
    method ProcessOne(m: Message, ghost done: seq<Message>, k: nat, outcome: nat -> Outcome, env: (nat, nat) -> seq<Action>)
      returns (raised: bool)
      requires Valid() && Others(w, env) && AtStage(sys, w, ToStore) && HandOf(sys, w).todo[0] == m
      requires AllHandled(sys.shared, done)
      modifies this`sys
      ensures Valid() && sys == Run(c, old(sys), CommandsForOne(w, k, outcome, env))
      ensures raised == outcome(k).Raised?
      ensures if raised then HandOf(sys, w) == IDLE
              else HandOf(sys, w) == Hand(HandOf(old(sys), w).todo[1..], ToStore)
      ensures AllHandled(sys.shared, if raised then done else done + [m])
    {
      hide Run, Apply, Inv, Later, Handled, HandOk;
      ghost var s0 := sys;
      RunKeepsInv(c, s0, CommandsForOne(w, k, outcome, env));
      Interference(env(k, 0));
      raised := IssuePut(outcome(k));
      ghost var s1 := sys;
      LastOne(c, s0, env(k, 0), PutObject(w, outcome(k)));
      if raised {
        assert CommandsForOne(w, k, outcome, env) == env(k, 0) + [PutObject(w, outcome(k))];
        HandledStays(s0.shared, sys.shared, done);
        return;
      }
      Interference(env(k, 1));
      IssueAck();
      Interference(env(k, 2));
      IssueDelete();
      AckedIsHandled(c, sys, m);
      ThreeCommands(c, s0, w, k, outcome, env);
      HandledStays(s0.shared, sys.shared, done);
    }

    /** Stores, acknowledges and deletes the messages in turn and stops at the first one that
        raises. Every message before that one ends up stored, acknowledged and gone. */
    method ProcessMessages(messages: seq<Message>, outcome: nat -> Outcome, env: (nat, nat) -> seq<Action>) returns (ok: bool)
      requires Valid() && Others(w, env) && HandOf(sys, w) == Hand(messages, ToStore)
      modifies this`sys
      ensures Valid() && HandOf(sys, w).todo == []
      ensures sys == Run(c, old(sys), Commands(w, |messages|, 0, outcome, env))
      ensures ok <==> StoredUpTo(outcome, |messages|)
      ensures forall i :: 0 <= i < |messages| && StoredUpTo(outcome, i + 1) ==> Handled(sys.shared, messages[i])
      ensures ok ==> AllHandled(sys.shared, messages)
    {
      hide Run, Commands, CommandsForOne, Inv, Later, Handled;
      var i := 0;
      while i < |messages|
        invariant 0 <= i <= |messages| && Valid()
        invariant HandOf(sys, w) == Hand(messages[i..], ToStore)
        invariant Run(c, old(sys), Commands(w, |messages|, 0, outcome, env))
               == Run(c, sys, Commands(w, |messages| - i, i, outcome, env))
        invariant StoredUpTo(outcome, i) && AllHandled(sys.shared, messages[..i])
      {
        CommandsUnfold(c, sys, w, |messages| - i, i, outcome, env);
        var raised := ProcessOne(messages[i], messages[..i], i, outcome, env);
        if raised {
          assert !StoredUpTo(outcome, i + 1);
          return false;
        }
        assert messages[..i + 1] == messages[..i] + [messages[i]];
        i := i + 1;
      }
      assert messages[..i] == messages;
      NothingLeft(c, sys, w, i, outcome, env);
      return true;
    }

    /** A read command after what others did: what it hands over becomes this worker's messages. */
    method IssueRead(read: Action, before: seq<Action>) returns (messages: seq<Message>, ghost mid: System)
      requires Valid() && HandOf(sys, w).todo == [] && sys.shared.redis.group.Some?
      requires (read.ReadPendingOwn? || read.ClaimIdle? || read.ReadUndelivered?) && read.w == w && read.consumer == consumer
      requires forall i :: 0 <= i < |before| ==> ByOther(w, before[i])
      modifies this`sys
      ensures Valid() && sys.shared.redis.group.Some?
      ensures mid == Run(c, old(sys), before) && Inv(c, mid) && CanRead(c, mid, w) && sys == Apply(c, mid, read)
      ensures HandOf(sys, w) == Hand(messages, ToStore)
    {
      ghost var s0 := sys;
      Interference(before);
      mid := sys;
      GroupStays(c, s0, before);
      ReadKeepsInv(c, sys, read);
      StreamFacts(sys.shared);
      ReadNewDelivers(sys.shared.redis, consumer, c.batchSize);
      sys := ReadStep(c, sys, read);
      messages := HandOf(sys, w).todo;
    }

    /** The worker's own pending messages or, if it has none, those it can claim: `s1` and `s2`
        are the system just before each of the two reads. */
    method ReadPending(pre: nat -> seq<Action>) returns (messages: seq<Message>, ghost s1: System, ghost s2: System)
      requires Valid() && HandOf(sys, w).todo == [] && sys.shared.redis.group.Some?
      requires forall n, i :: 0 <= i < |pre(n)| ==> ByOther(w, pre(n)[i])
      modifies this`sys
      ensures Valid() && sys.shared.redis.group.Some? && HandOf(sys, w) == Hand(messages, ToStore)
      ensures s1 == Run(c, old(sys), pre(1)) && s2 == Run(c, Apply(c, s1, ReadPendingOwn(w, consumer)), pre(2))
      ensures var r, q := s1.shared.redis, s2.shared.redis;
        if PendingOf(r, consumer) != {} then
          && sys == Apply(c, s1, ReadPendingOwn(w, consumer)) && messages != []
          && AreFirst(IdsOf(messages), PendingOf(r, consumer), c.batchSize)
        else
          && sys == Apply(c, s2, ClaimIdle(w, consumer)) && (messages != [] <==> Overdue(q, c.claimIdle) != {})
          && AreFirst(IdsOf(messages), Overdue(q, c.claimIdle), c.batchSize)
    {
      hide Run, Apply, Inv, Later, AreFirst;
      messages, s1 := IssueRead(ReadPendingOwn(w, consumer), pre(1));
      OwnAreFirst(c, s1, w, consumer);
      SomeAreFirst(IdsOf(messages), PendingOf(s1.shared.redis, consumer), c.batchSize);
      s2 := Run(c, sys, pre(2));
      if messages == [] {
        messages, s2 := IssueRead(ClaimIdle(w, consumer), pre(2));
        OverdueAreFirst(c, s2, w, consumer);
        SomeAreFirst(IdsOf(messages), Overdue(s2.shared.redis, c.claimIdle), c.batchSize);
      }
    }

    /** One turn of the worker loop, others acting before every command: own pending messages
        first, then overdue ones of others, and new ones only if there were neither, each time the
        first `batchSize` of them. The states are those just before the reads. The worker pauses
        iff a store raised. */
    method RunOnce(pre: nat -> seq<Action>, outcome: nat -> Outcome, env: (nat, nat) -> seq<Action>)
      returns (batch: seq<Message>, pauses: bool, ghost s1: System, ghost s2: System, ghost s3: System)
      requires Valid() && Others(w, env) && HandOf(sys, w).todo == []
      requires forall n, i :: 0 <= i < |pre(n)| ==> ByOther(w, pre(n)[i])
      modifies this`sys
      ensures Valid() && HandOf(sys, w).todo == []
      ensures s1 == Run(c, Apply(c, Run(c, old(sys), pre(0)), CreateGroup), pre(1))
      ensures s2 == Run(c, Apply(c, s1, ReadPendingOwn(w, consumer)), pre(2))
      ensures s3 == Run(c, Apply(c, s2, ClaimIdle(w, consumer)), pre(3))
      ensures var r, q, u := s1.shared.redis, s2.shared.redis, s3.shared.redis; var store := Commands(w, |batch|, 0, outcome, env);
        if PendingOf(r, consumer) != {} then
          && sys == Run(c, Apply(c, s1, ReadPendingOwn(w, consumer)), store)
          && AreFirst(IdsOf(batch), PendingOf(r, consumer), c.batchSize)
        else if Overdue(q, c.claimIdle) != {} then
          && sys == Run(c, Apply(c, s2, ClaimIdle(w, consumer)), store)
          && AreFirst(IdsOf(batch), Overdue(q, c.claimIdle), c.batchSize)
        else
          && sys == Run(c, Apply(c, s3, ReadUndelivered(w, consumer)), store)
          && AreFirst(IdsOf(batch), Undelivered(u), c.batchSize)
      ensures pauses <==> !StoredUpTo(outcome, |batch|)
      ensures !pauses ==> AllHandled(sys.shared, batch)
    {
      hide Run, Apply, Inv, Later, Handled, Commands, AreFirst;
      Interference(pre(0));
      EnsureConsumerGroup();
      batch, s1, s2 := ReadPending(pre);
      s3 := Run(c, Apply(c, s2, ClaimIdle(w, consumer)), pre(3));
      if batch == [] {
        batch, s3 := IssueRead(ReadUndelivered(w, consumer), pre(3));
        NewAreFirst(c, s3, w, consumer);
      }
      var ok := ProcessMessages(batch, outcome, env);
      pauses := !ok;
    }

    method EnsureConsumerGroup()
      requires Valid()
      modifies this`sys
      ensures Valid() && sys == Apply(c, old(sys), CreateGroup) && sys.shared.redis.group.Some?
      ensures HandOf(sys, w) == HandOf(old(sys), w)
    {
      QuietKeepsInv(c, sys, CreateGroup);
      sys := sys.(shared := sys.shared.(redis := GroupCreate(sys.shared.redis)));
    }
  }

  lemma {:induction false} GroupStays(c: Config, s: System, acts: seq<Action>)
    requires s.shared.redis.group.Some?
    ensures Run(c, s, acts).shared.redis.group.Some?
    decreases |acts|
  {
    if acts != [] {
      GroupStays(c, Apply(c, s, acts[0]), acts[1..]);
    }
  }

  lemma NothingLeft(c: Config, s: System, w: nat, k: nat, outcome: nat -> Outcome, env: (nat, nat) -> seq<Action>)
    ensures Run(c, s, Commands(w, 0, k, outcome, env)) == s
  {
  }

  lemma CommandsUnfold(c: Config, s: System, w: nat, n: nat, k: nat, outcome: nat -> Outcome, env: (nat, nat) -> seq<Action>)
    requires n > 0
    ensures var t := Run(c, s, CommandsForOne(w, k, outcome, env));
      Run(c, s, Commands(w, n, k, outcome, env))
        == if outcome(k).Raised? then t else Run(c, t, Commands(w, n - 1, k + 1, outcome, env))
  {
    var rest := if outcome(k).Raised? then [] else Commands(w, n - 1, k + 1, outcome, env);
    RunAppend(c, s, CommandsForOne(w, k, outcome, env), rest);
  }

  ghost predicate StoredUpTo(outcome: nat -> Outcome, n: nat) {
    forall j :: 0 <= j < n ==> outcome(j).Stored?
  }

  ghost predicate Handled(k: Shared, m: Message) {
    m.id in k.acked && m.id in k.log && m.id !in k.redis.entries && k.log[m.id].name in k.objects
  }

  ghost predicate AllHandled(k: Shared, messages: seq<Message>) {
    forall j :: 0 <= j < |messages| ==> Handled(k, messages[j])
  }

  lemma HandledStays(k: Shared, l: Shared, messages: seq<Message>)
    requires Later(k, l) && AllHandled(k, messages)
    ensures AllHandled(l, messages)
  {
    forall j | 0 <= j < |messages| ensures Handled(l, messages[j]) {
      assert Handled(k, messages[j]);
    }
  }

  lemma AckedIsHandled(c: Config, s: System, m: Message)
    requires Inv(c, s) && m.id in s.shared.acked && m.id !in s.shared.redis.entries
    ensures Handled(s.shared, m)
  {
    assert EntryOk(s.shared, m.id);
  }

  lemma OneMore(c: Config, s: System, before: seq<Action>, a: Action, rest: seq<Action>)
    ensures Run(c, s, before + [a] + rest) == Run(c, Apply(c, Run(c, s, before), a), rest)
  {
    assert before + [a] + rest == before + ([a] + rest);
    RunAppend(c, s, before, [a] + rest);
    assert ([a] + rest)[1..] == rest;
  }

  lemma LastOne(c: Config, s: System, before: seq<Action>, a: Action)
    ensures Run(c, s, before + [a]) == Apply(c, Run(c, s, before), a)
  {
    OneMore(c, s, before, a, []);
    assert before + [a] + [] == before + [a];
  }

  lemma ThreeCommands(c: Config, s: System, w: nat, k: nat, outcome: nat -> Outcome, env: (nat, nat) -> seq<Action>)
    requires outcome(k).Stored?
    ensures var put := Apply(c, Run(c, s, env(k, 0)), PutObject(w, outcome(k)));
      var ack := Apply(c, Run(c, put, env(k, 1)), AckMessage(w));
      Run(c, s, CommandsForOne(w, k, outcome, env)) == Apply(c, Run(c, ack, env(k, 2)), DeleteMessage(w))
  {
    var put := Apply(c, Run(c, s, env(k, 0)), PutObject(w, outcome(k)));
    var ack := Apply(c, Run(c, put, env(k, 1)), AckMessage(w));
    var last := env(k, 2) + [DeleteMessage(w)] + [];
    OneMore(c, s, env(k, 0), PutObject(w, outcome(k)), env(k, 1) + [AckMessage(w)] + last);
    OneMore(c, put, env(k, 1), AckMessage(w), last);
    OneMore(c, ack, env(k, 2), DeleteMessage(w), []);
    assert CommandsForOne(w, k, outcome, env)
        == env(k, 0) + [PutObject(w, outcome(k))] + (env(k, 1) + [AckMessage(w)] + last);
  }
}
