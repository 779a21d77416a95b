/**
  The Redis Streams handoff of tracking batches, as a machine whose steps are the single
  commands that publishers, workers and the clock issue. The Redis server is a value; every
  command is a function on it. A run is any sequence of actions by any number of publishers
  and workers, so a crash may fall between any two commands.
*/
module StreamQueue {
  import opened Common

  // ----- Data -----

  type Id = nat                                   // 0 stands for Redis's "0-0"
  type Bucket = b: string | '/' !in b witness ""  // "data-tracking-<uuid>"

  datatype Name = Name(bucket: Bucket, key: string)
  datatype Batch = Batch(name: Name, body: string)
  datatype Pending = Pending(consumer: string, since: nat)
  datatype Stamp = Stamp(id: Id, expires: nat)

  /** The server: one stream, one consumer group (None until it is created), the idempotency
      keys with their expiry, and the clock in milliseconds. */
  datatype Redis = Redis(
    now: nat,
    entries: map<Id, Batch>,
    lastId: Id,
    group: Option<Id>,
    pel: map<Id, Pending>,
    stamps: map<string, Stamp>)

  /** The settings of the storage object. `digest` stands for SHA-256. */
  datatype Config = Config(
    maxLength: int,
    ttl: int,
    batchSize: int,
    claimIdle: int,
    digest: string -> string)
  {
    ghost predicate Valid() {
      && maxLength >= 1 && ttl >= 1 && batchSize >= 1 && claimIdle >= 1
      && forall x, y :: digest(x) == digest(y) ==> x == y
    }
  }

  datatype Reply = Accepted(id: Id) | StreamFull

  /** A stream message as a worker sees it; the fields are absent if the entry was deleted. */
  datatype Message = Message(id: Id, fields: Option<Batch>)

  // ----- Server commands -----

  /** The n smallest elements of s, ascending: what COUNT n selects. */
  function FirstIds(s: set<Id>, n: nat): (ids: seq<Id>)
    ensures |ids| <= n
    ensures forall x :: x in ids ==> x in s
    ensures forall i, j :: 0 <= i < j < |ids| ==> ids[i] < ids[j]
    ensures forall x :: x in s && x !in ids ==> |ids| == n && forall y :: y in ids ==> y < x
  {
    if n == 0 || s == {} then [] else
      var least := Least(s);
      var rest := FirstIds(s - {least}, n - 1);
      assert forall x :: x in s && x != least ==> x in s - {least} && least < x;
      assert forall k :: 0 <= k < |rest| ==> least < rest[k] by {
        forall k | 0 <= k < |rest| ensures least < rest[k] {
          assert rest[k] in rest && rest[k] in s - {least};
        }
      }
      [least] + rest
  }

  function IdempotencyKey(c: Config, n: Name): string {
    c.digest(n.bucket + "/" + n.key)
  }

  function Get(r: Redis, key: string): Option<Id> {
    if key in r.stamps && r.now < r.stamps[key].expires then Some(r.stamps[key].id) else None
  }

  /** The publish script, atomic on the server; `newId` is the id XADD would generate. */
  function Publish(c: Config, r: Redis, b: Batch, newId: Id): (Redis, Reply) {
    var key := IdempotencyKey(c, b.name);
    var existing := Get(r, key);
    if existing.Some? then (r, Accepted(existing.value))
    else if c.maxLength > 0 && |r.entries| >= c.maxLength then (r, StreamFull)
    else
      var expires: nat := if c.ttl < 0 then r.now else r.now + 1000 * c.ttl;
      (r.(entries := r.entries[newId := b], lastId := newId,
          stamps := r.stamps[key := Stamp(newId, expires)]), Accepted(newId))
  }

  function GroupCreate(r: Redis): Redis {
    if r.group.Some? then r else r.(group := Some(0))
  }

  function Fetch(r: Redis, ids: seq<Id>): (ms: seq<Message>)
    ensures |ms| == |ids|
    ensures forall i :: 0 <= i < |ids| ==> ms[i] == Message(ids[i], if ids[i] in r.entries then Some(r.entries[ids[i]]) else None)
  {
    seq(|ids|, i requires 0 <= i < |ids| => Message(ids[i], if ids[i] in r.entries then Some(r.entries[ids[i]]) else None))
  }

  /** XREADGROUP with id 0: the consumer's own pending entries. */
  function ReadOwn(r: Redis, consumer: string, count: nat): (out: (Redis, seq<Message>))
    ensures out.0 == r.(pel := out.0.pel)
  {
    var ids := FirstIds((set i | i in r.pel && r.pel[i].consumer == consumer), count);
    (r.(pel := map i | i in r.pel :: if i in ids then Pending(consumer, r.now) else r.pel[i]), Fetch(r, ids))
  }

  function Claimable(r: Redis, idle: nat): set<Id> {
    set i | i in r.pel && r.now >= r.pel[i].since + idle
  }

  function StillThere(r: Redis, ids: seq<Id>): set<Id> {
    set i | i in ids && i in r.entries
  }

  /** XAUTOCLAIM from 0-0: entries idle long enough change owner; deleted ones leave the PEL. */
  function AutoClaim(r: Redis, consumer: string, idle: nat, count: nat): (out: (Redis, seq<Message>))
    ensures out.0 == r.(pel := out.0.pel)
  {
    var due := FirstIds(Claimable(r, idle), count);
    var ids := FirstIds(StillThere(r, due), count);
    (r.(pel := map i | i in r.pel && (i in due ==> i in r.entries) ::
          if i in due then Pending(consumer, r.now) else r.pel[i]), Fetch(r, ids))
  }

  function Cursor(r: Redis): Id {
    if r.group.Some? then r.group.value else 0
  }

  function Waiting(r: Redis): set<Id> {
    set i | i in r.entries && i > Cursor(r)
  }

  /** XREADGROUP with id ">": undelivered entries become pending and move the cursor. */
  function ReadNew(r: Redis, consumer: string, count: nat): (out: (Redis, seq<Message>))
    requires r.group.Some?
    ensures out.0 == r.(group := out.0.group, pel := out.0.pel)
  {
    var ids := FirstIds(Waiting(r), count);
    (r.(group := if ids == [] then r.group else Some(ids[|ids| - 1]),
        pel := map i | i in r.pel.Keys + Elements(ids) :: if i in ids then Pending(consumer, r.now) else r.pel[i]),
     Fetch(r, ids))
  }

  function Ack(r: Redis, id: Id): Redis { r.(pel := r.pel - {id}) }

  function Delete(r: Redis, id: Id): Redis { r.(entries := r.entries - {id}) }

  // ----- The machine -----

  datatype Stage = ToStore | ToAck | ToDelete

  /** What a worker holds: the messages it still has to process and, for the first of them,
      the command it issues next. No messages: the worker is about to read. */
  datatype Hand = Hand(todo: seq<Message>, stage: Stage)

  const IDLE := Hand([], ToStore)

  datatype Outcome = Stored | Raised(applied: bool)

  /** The shared state. `log`, `acked` and `receipts` are history: every batch ever appended,
      every id ever acknowledged, and every (name, id) a publisher was told. */
  datatype Shared = Shared(
    redis: Redis,
    objects: map<Name, string>,
    log: map<Id, Batch>,
    acked: set<Id>,
    receipts: set<(Name, Id)>)

  datatype System = System(shared: Shared, hands: map<nat, Hand>)

  datatype Action =
    | Tick(ms: nat)
    | CreateGroup
    | PublishBatch(batch: Batch, newId: Id, replied: bool)
    | ReadPendingOwn(w: nat, consumer: string)
    | ClaimIdle(w: nat, consumer: string)
    | ReadUndelivered(w: nat, consumer: string)
    | PutObject(w: nat, outcome: Outcome)
    | AckMessage(w: nat)
    | DeleteMessage(w: nat)
    | Crash(w: nat)

  const INIT := System(Shared(Redis(0, map[], 0, None, map[], map[]), map[], map[], {}, {}), map[])

  function HandOf(s: System, w: nat): Hand {
    if w in s.hands then s.hands[w] else IDLE
  }

  function Published(c: Config, k: Shared, b: Batch, newId: Id, replied: bool): Shared {
    var (r, reply) := Publish(c, k.redis, b, newId);
    k.(redis := r,
       log := if r.lastId != k.redis.lastId then k.log[newId := b] else k.log,
       receipts := if replied && reply.Accepted? then k.receipts + {(b.name, reply.id)} else k.receipts)
  }

  function Written(k: Shared, b: Batch): Shared {
    k.(objects := k.objects[b.name := b.body])
  }

  function Acked(k: Shared, id: Id): Shared {
    k.(redis := Ack(k.redis, id), acked := k.acked + {id})
  }

  function Deleted(k: Shared, id: Id): Shared {
    k.(redis := Delete(k.redis, id))
  }

  predicate CanRead(c: Config, s: System, w: nat) {
    HandOf(s, w).todo == [] && s.shared.redis.group.Some? && c.batchSize >= 0 && c.claimIdle >= 0
  }

  predicate AtStage(s: System, w: nat, stage: Stage) {
    HandOf(s, w).todo != [] && HandOf(s, w).stage == stage
  }

  function ReadStep(c: Config, s: System, a: Action): (t: System)
    requires a.ReadPendingOwn? || a.ClaimIdle? || a.ReadUndelivered?
    requires CanRead(c, s, a.w)
    ensures t.shared == s.shared.(redis := t.shared.redis)
  {
    var r := s.shared.redis;
    var (q, ms) :=
      if a.ReadPendingOwn? then ReadOwn(r, a.consumer, c.batchSize)
      else if a.ClaimIdle? then AutoClaim(r, a.consumer, c.claimIdle, c.batchSize)
      else ReadNew(r, a.consumer, c.batchSize);
    System(s.shared.(redis := q), s.hands[a.w := Hand(ms, ToStore)])
  }

  function PutStep(s: System, w: nat, outcome: Outcome): System
    requires AtStage(s, w, ToStore)
  {
    var h := HandOf(s, w);
    if h.todo[0].fields.None? then System(s.shared, s.hands[w := IDLE]) else
      System(if outcome.Stored? || outcome.applied then Written(s.shared, h.todo[0].fields.value) else s.shared,
             s.hands[w := if outcome.Stored? then h.(stage := ToAck) else IDLE])
  }

  function AckStep(s: System, w: nat): System
    requires AtStage(s, w, ToAck)
  {
    var h := HandOf(s, w);
    System(Acked(s.shared, h.todo[0].id), s.hands[w := h.(stage := ToDelete)])
  }

  function DeleteStep(s: System, w: nat): System
    requires AtStage(s, w, ToDelete)
  {
    var h := HandOf(s, w);
    System(Deleted(s.shared, h.todo[0].id), s.hands[w := Hand(h.todo[1..], ToStore)])
  }

  /** One action; an action whose guard does not hold changes nothing. A failed command and a
      lost reply are the command (or nothing) followed by Crash. */
  function Apply(c: Config, s: System, a: Action): System {
    match a
    case Tick(ms) => s.(shared := s.shared.(redis := s.shared.redis.(now := s.shared.redis.now + ms)))
    case CreateGroup => s.(shared := s.shared.(redis := GroupCreate(s.shared.redis)))
    case PublishBatch(b, newId, replied) =>
      if newId <= s.shared.redis.lastId then s else s.(shared := Published(c, s.shared, b, newId, replied))
    case PutObject(w, outcome) => if AtStage(s, w, ToStore) then PutStep(s, w, outcome) else s
    case AckMessage(w) => if AtStage(s, w, ToAck) then AckStep(s, w) else s
    case DeleteMessage(w) => if AtStage(s, w, ToDelete) then DeleteStep(s, w) else s
    case Crash(w) => s.(hands := s.hands[w := IDLE])
    case _ => if CanRead(c, s, a.w) then ReadStep(c, s, a) else s
  }

  function Run(c: Config, s: System, acts: seq<Action>): System
    decreases |acts|
  {
    if acts == [] then s else Run(c, Apply(c, s, acts[0]), acts[1..])
  }

  lemma {:induction false} RunAppend(c: Config, s: System, a: seq<Action>, b: seq<Action>)
    ensures Run(c, s, a + b) == Run(c, Run(c, s, a), b)
    decreases |a|
  {
    if a == [] {
      assert a + b == b;
    } else {
      assert (a + b)[1..] == a[1..] + b;
      RunAppend(c, Apply(c, s, a[0]), a[1..], b);
    }
  }

  // ----- The invariant -----

  /** Where a batch that was appended as entry i can be: undelivered (then it is in the stream),
      pending (then too), or acknowledged (then its object is stored, and the entry may be gone). */
  ghost predicate EntryOk(k: Shared, i: Id)
    requires i in k.log
  {
    && 0 < i <= k.redis.lastId
    && (i in k.redis.entries ==> k.redis.entries[i] == k.log[i])
    && (if i > Cursor(k.redis) then i in k.redis.entries && i !in k.redis.pel && i !in k.acked
        else if i in k.redis.pel then i in k.redis.entries && i !in k.acked
        else i in k.acked && k.log[i].name in k.objects)
  }

  ghost predicate StreamInv(k: Shared) {
    && k.redis.entries.Keys <= k.log.Keys && k.redis.pel.Keys <= k.log.Keys && k.acked <= k.log.Keys
    && Cursor(k.redis) <= k.redis.lastId
    && forall i :: i in k.log ==> EntryOk(k, i)
  }

  ghost predicate StampOk(c: Config, k: Shared, key: string)
    requires key in k.redis.stamps
  {
    && k.redis.stamps[key].id in k.log
    && IdempotencyKey(c, k.log[k.redis.stamps[key].id].name) == key
  }

  ghost predicate StampsOk(c: Config, k: Shared) {
    forall key :: key in k.redis.stamps ==> StampOk(c, k, key)
  }

  ghost predicate ReceiptsOk(k: Shared) {
    forall p :: p in k.receipts ==> p.1 in k.log && k.log[p.1].name == p.0
  }

  ghost predicate IsLogged(k: Shared, b: Batch) {
    exists i :: i in k.log && k.log[i] == b
  }

  ghost predicate ObjectsOk(k: Shared) {
    forall n :: n in k.objects ==> IsLogged(k, Batch(n, k.objects[n]))
  }

  ghost predicate SharedInv(c: Config, k: Shared) {
    StreamInv(k) && StampsOk(c, k) && ReceiptsOk(k) && ObjectsOk(k) && |k.redis.entries| <= c.maxLength
  }

  ghost predicate Held(k: Shared, m: Message) {
    m.id in k.log && m.fields == Some(k.log[m.id]) && m.id <= Cursor(k.redis)
  }

  ghost predicate HandOk(k: Shared, h: Hand) {
    && (forall i :: 0 <= i < |h.todo| ==> Held(k, h.todo[i]))
    && (h.todo != [] && h.stage != ToStore ==> k.log[h.todo[0].id].name in k.objects)
    && (h.todo != [] && h.stage == ToDelete ==> h.todo[0].id in k.acked)
  }

  ghost predicate Inv(c: Config, s: System) {
    SharedInv(c, s.shared) && forall w :: w in s.hands ==> HandOk(s.shared, s.hands[w])
  }

  /** Nothing known to be logged, acknowledged, stored or promised is ever forgotten, and an
      entry that has left the stream does not come back. */
  ghost predicate Later(k: Shared, m: Shared) {
    && k.redis.now <= m.redis.now && k.redis.lastId <= m.redis.lastId && Cursor(k.redis) <= Cursor(m.redis)
    && k.log.Keys <= m.log.Keys && (forall i :: i in k.log ==> m.log[i] == k.log[i])
    && (forall i :: i in m.log && i !in k.log ==> i > k.redis.lastId)
    && k.acked <= m.acked && k.receipts <= m.receipts && k.objects.Keys <= m.objects.Keys
    && m.redis.entries.Keys * k.log.Keys <= k.redis.entries.Keys
  }

  // ----- Every command keeps the invariant and forgets nothing -----

  lemma HandSurvives(k: Shared, m: Shared, h: Hand)
    requires HandOk(k, h) && Later(k, m)
    ensures HandOk(m, h)
  {
  }

  lemma InvByParts(c: Config, s: System, t: System, w: nat)
    requires Inv(c, s) && SharedInv(c, t.shared) && Later(s.shared, t.shared)
    requires t.hands == s.hands || exists h :: t.hands == s.hands[w := h] && HandOk(t.shared, h)
    ensures Inv(c, t)
  {
    forall v | v in t.hands ensures HandOk(t.shared, t.hands[v]) {
      if v in s.hands && t.hands[v] == s.hands[v] {
        HandSurvives(s.shared, t.shared, s.hands[v]);
      }
    }
  }

  lemma ObjectsSurvive(k: Shared, m: Shared)
    requires ObjectsOk(k) && Later(k, m)
    requires forall n :: n in m.objects ==>
      IsLogged(m, Batch(n, m.objects[n])) || (n in k.objects && m.objects[n] == k.objects[n])
    ensures ObjectsOk(m)
  {
  }

  /** The fields of Redis a delivery command may change, and how. */
  ghost predicate Delivered(r: Redis, q: Redis, ms: seq<Message>) {
    && q == r.(group := q.group, pel := q.pel)
    && q.group.Some? && Cursor(r) <= Cursor(q) <= q.lastId
    && (forall i :: i in q.pel <==> i in r.pel || (i in r.entries && Cursor(r) < i <= Cursor(q)))
    && (forall j :: 0 <= j < |ms| ==>
          ms[j].id in q.pel && ms[j].id in r.entries && ms[j].fields == Some(r.entries[ms[j].id]))
  }

  ghost predicate GroupOk(r: Redis) {
    && r.group.Some? && Cursor(r) <= r.lastId
    && (forall i :: i in r.pel ==> i in r.entries && i <= Cursor(r))
    && (forall i :: i in r.entries ==> i <= r.lastId)
  }

  lemma StreamFacts(k: Shared)
    requires StreamInv(k)
    ensures k.redis.group.Some? ==> GroupOk(k.redis)
    ensures forall i :: i in k.log ==> i <= k.redis.lastId
  {
  }

  lemma ReadOwnDelivers(r: Redis, consumer: string, count: nat)
    requires GroupOk(r)
    ensures Delivered(r, ReadOwn(r, consumer, count).0, ReadOwn(r, consumer, count).1)
  {
    var (q, ms) := ReadOwn(r, consumer, count);
    var own := set i | i in r.pel && r.pel[i].consumer == consumer;
    var ids := FirstIds(own, count);
    forall j | 0 <= j < |ms| ensures ms[j].id in r.pel {
      assert ids[j] in own;
    }
  }

  lemma AutoClaimDelivers(r: Redis, consumer: string, idle: nat, count: nat)
    requires GroupOk(r)
    ensures Delivered(r, AutoClaim(r, consumer, idle, count).0, AutoClaim(r, consumer, idle, count).1)
  {
    var (q, ms) := AutoClaim(r, consumer, idle, count);
    var due := FirstIds(Claimable(r, idle), count);
    var ids := FirstIds(StillThere(r, due), count);
    forall j | 0 <= j < |ms| ensures ms[j].id in r.pel {
      assert ids[j] in StillThere(r, due) && ids[j] in due && ids[j] in Claimable(r, idle);
    }
  }

  /** The last id selected is the greatest, and nothing up to it was passed over. */
  lemma FirstIdsReach(s: set<Id>, count: nat)
    ensures var ids := FirstIds(s, count);
      ids != [] ==>
        && ids[|ids| - 1] in s
        && (forall i :: i in ids ==> i <= ids[|ids| - 1])
        && (forall i :: i in s && i <= ids[|ids| - 1] ==> i in ids)
  {
  }

  lemma ReadNewTakesTheGap(r: Redis, consumer: string, count: nat)
    requires GroupOk(r)
    ensures var q := ReadNew(r, consumer, count).0;
      && Cursor(r) <= Cursor(q) <= q.lastId
      && forall i :: i in FirstIds(Waiting(r), count) <==> i in r.entries && Cursor(r) < i <= Cursor(q)
  {
    var q := ReadNew(r, consumer, count).0;
    var ids := FirstIds(Waiting(r), count);
    FirstIdsReach(Waiting(r), count);
    forall i ensures i in ids <==> i in r.entries && Cursor(r) < i <= Cursor(q) {
      if i in ids { assert i in Waiting(r); }
      if i in r.entries && Cursor(r) < i <= Cursor(q) { assert i in Waiting(r); }
    }
  }

  lemma ReadNewDelivers(r: Redis, consumer: string, count: nat)
    requires GroupOk(r)
    ensures Delivered(r, ReadNew(r, consumer, count).0, ReadNew(r, consumer, count).1)
  {
    var (q, ms) := ReadNew(r, consumer, count);
    ReadNewTakesTheGap(r, consumer, count);
    var ids := FirstIds(Waiting(r), count);
    forall j | 0 <= j < |ms| ensures ms[j].id in q.pel && ms[j].id in r.entries {
      assert ids[j] in ids;
    }
  }

  lemma DeliveryKeepsInv(c: Config, k: Shared, q: Redis, ms: seq<Message>)
    requires SharedInv(c, k) && Delivered(k.redis, q, ms)
    ensures SharedInv(c, k.(redis := q)) && Later(k, k.(redis := q))
    ensures HandOk(k.(redis := q), Hand(ms, ToStore))
  {
    var m := k.(redis := q);
    forall i | i in m.log ensures EntryOk(m, i) {
      assert EntryOk(k, i);
    }
    forall key | key in q.stamps ensures StampOk(c, m, key) {
      assert StampOk(c, k, key);
    }
    ObjectsSurvive(k, m);
    forall j | 0 <= j < |ms| ensures Held(m, ms[j]) {
      assert EntryOk(k, ms[j].id) && EntryOk(m, ms[j].id);
    }
  }

  lemma ReadKeepsInv(c: Config, s: System, a: Action)
    requires a.ReadPendingOwn? || a.ClaimIdle? || a.ReadUndelivered?
    requires Inv(c, s) && CanRead(c, s, a.w)
    ensures Inv(c, ReadStep(c, s, a)) && Later(s.shared, ReadStep(c, s, a).shared)
  {
    var r := s.shared.redis;
    StreamFacts(s.shared);
    ReadOwnDelivers(r, a.consumer, c.batchSize);
    AutoClaimDelivers(r, a.consumer, c.claimIdle, c.batchSize);
    ReadNewDelivers(r, a.consumer, c.batchSize);
    var t := ReadStep(c, s, a);
    var ms := t.hands[a.w].todo;
    DeliveryKeepsInv(c, s.shared, t.shared.redis, ms);
    assert t.hands == s.hands[a.w := Hand(ms, ToStore)] && HandOk(t.shared, Hand(ms, ToStore));
    InvByParts(c, s, t, a.w);
  }

  lemma SlashEndsBucket(b: Bucket, rest: string)
    ensures (b + "/" + rest)[|b|] == '/'
    ensures forall i :: 0 <= i < |b| ==> (b + "/" + rest)[i] != '/'
  {
  }

  /** Bucket names hold no slash, so the concatenation that is hashed can be taken apart. */
  lemma {:induction false} KeyIsInjective(c: Config, m: Name, n: Name)
    requires c.Valid() && IdempotencyKey(c, m) == IdempotencyKey(c, n)
    ensures m == n
  {
    var x, y := m.bucket + "/" + m.key, n.bucket + "/" + n.key;
    assert x == y;
    SlashEndsBucket(m.bucket, m.key);
    SlashEndsBucket(n.bucket, n.key);
    assert |m.bucket| == |n.bucket|;
    assert m.bucket == x[..|m.bucket|] == n.bucket;
    assert m.key == x[|m.bucket| + 1..] == n.key;
  }

  function Appended(c: Config, k: Shared, b: Batch, newId: Id, expires: nat): Shared {
    k.(redis := k.redis.(entries := k.redis.entries[newId := b], lastId := newId,
                         stamps := k.redis.stamps[IdempotencyKey(c, b.name) := Stamp(newId, expires)]),
       log := k.log[newId := b])
  }

  lemma AppendForgetsNothing(c: Config, k: Shared, b: Batch, newId: Id, expires: nat)
    requires StreamInv(k) && newId > k.redis.lastId
    ensures Later(k, Appended(c, k, b, newId, expires))
    ensures |Appended(c, k, b, newId, expires).redis.entries| == |k.redis.entries| + 1
  {
    StreamFacts(k);
    assert newId !in k.log;
    AppendGrowsByOne(k.redis.entries, newId, b);
  }

  lemma AppendGrowsByOne(entries: map<Id, Batch>, newId: Id, b: Batch)
    requires newId !in entries
    ensures |entries[newId := b]| == |entries| + 1
  {
    assert entries[newId := b].Keys == entries.Keys + {newId};
  }

  lemma AppendKeepsStream(c: Config, k: Shared, b: Batch, newId: Id, expires: nat)
    requires StreamInv(k) && newId > k.redis.lastId
    ensures StreamInv(Appended(c, k, b, newId, expires))
  {
    var m := Appended(c, k, b, newId, expires);
    StreamFacts(k);
    forall i | i in m.log ensures EntryOk(m, i) {
      if i != newId { assert EntryOk(k, i); }
    }
  }

  lemma AppendKeepsInv(c: Config, k: Shared, b: Batch, newId: Id, expires: nat)
    requires SharedInv(c, k) && newId > k.redis.lastId && |k.redis.entries| < c.maxLength
    ensures SharedInv(c, Appended(c, k, b, newId, expires))
  {
    var m := Appended(c, k, b, newId, expires);
    AppendForgetsNothing(c, k, b, newId, expires);
    AppendKeepsStream(c, k, b, newId, expires);
    forall key | key in m.redis.stamps ensures StampOk(c, m, key) {
      if key != IdempotencyKey(c, b.name) { assert StampOk(c, k, key); }
    }
    ObjectsSurvive(k, m);
  }

  lemma ReceiptKeepsInv(c: Config, k: Shared, n: Name, id: Id)
    requires SharedInv(c, k) && id in k.log && k.log[id].name == n
    ensures SharedInv(c, k.(receipts := k.receipts + {(n, id)}))
  {
  }

  lemma PublishKeepsInv(c: Config, k: Shared, b: Batch, newId: Id, replied: bool)
    requires c.Valid() && SharedInv(c, k) && newId > k.redis.lastId
    ensures SharedInv(c, Published(c, k, b, newId, replied)) && Later(k, Published(c, k, b, newId, replied))
  {
    var key := IdempotencyKey(c, b.name);
    var (r, reply) := Publish(c, k.redis, b, newId);
    var m := k;
    if Get(k.redis, key).Some? {
      assert StampOk(c, k, key);
      KeyIsInjective(c, k.log[reply.id].name, b.name);
    } else if |k.redis.entries| < c.maxLength {
      m := k.(redis := r, log := k.log[newId := b]);
      assert m == Appended(c, k, b, newId, r.stamps[key].expires);
      AppendForgetsNothing(c, k, b, newId, r.stamps[key].expires);
      AppendKeepsInv(c, k, b, newId, r.stamps[key].expires);
    }
    if replied && reply.Accepted? {
      ReceiptKeepsInv(c, m, b.name, reply.id);
    }
  }

  lemma WriteKeepsInv(c: Config, k: Shared, id: Id)
    requires SharedInv(c, k) && id in k.log
    ensures SharedInv(c, Written(k, k.log[id])) && Later(k, Written(k, k.log[id]))
  {
    var m := Written(k, k.log[id]);
    forall i | i in m.log ensures EntryOk(m, i) {
      assert EntryOk(k, i);
    }
    forall key | key in m.redis.stamps ensures StampOk(c, m, key) {
      assert StampOk(c, k, key);
    }
    assert IsLogged(m, k.log[id]);
    ObjectsSurvive(k, m);
  }

  lemma AckKeepsInv(c: Config, k: Shared, id: Id)
    requires SharedInv(c, k) && id in k.log && id <= Cursor(k.redis) && k.log[id].name in k.objects
    ensures SharedInv(c, Acked(k, id)) && Later(k, Acked(k, id))
  {
    var m := Acked(k, id);
    forall i | i in m.log ensures EntryOk(m, i) {
      assert EntryOk(k, i);
    }
    forall key | key in m.redis.stamps ensures StampOk(c, m, key) {
      assert StampOk(c, k, key);
    }
    ObjectsSurvive(k, m);
  }

  lemma DeleteShrinks(k: Shared, id: Id)
    ensures |Deleted(k, id).redis.entries| <= |k.redis.entries|
  {
  }

  lemma DeleteKeepsInv(c: Config, k: Shared, id: Id)
    requires SharedInv(c, k) && id in k.acked
    ensures SharedInv(c, Deleted(k, id)) && Later(k, Deleted(k, id))
  {
    var m := Deleted(k, id);
    forall i | i in m.log ensures EntryOk(m, i) {
      assert EntryOk(k, i);
    }
    forall key | key in m.redis.stamps ensures StampOk(c, m, key) {
      assert StampOk(c, k, key);
    }
    DeleteShrinks(k, id);
    ObjectsSurvive(k, m);
  }

  lemma QuietKeepsInv(c: Config, s: System, a: Action)
    requires Inv(c, s) && (a.Tick? || a.CreateGroup? || a.Crash?)
    ensures Inv(c, Apply(c, s, a)) && Later(s.shared, Apply(c, s, a).shared)
  {
    var t := Apply(c, s, a);
    StreamFacts(s.shared);
    forall i | i in t.shared.log ensures EntryOk(t.shared, i) {
      assert EntryOk(s.shared, i);
    }
    forall key | key in t.shared.redis.stamps ensures StampOk(c, t.shared, key) {
      assert StampOk(c, s.shared, key);
    }
    ObjectsSurvive(s.shared, t.shared);
    assert a.Crash? ==> t.hands == s.hands[a.w := IDLE] && HandOk(t.shared, IDLE);
    InvByParts(c, s, t, if a.Crash? then a.w else 0);
  }

  lemma PutKeepsInv(c: Config, s: System, w: nat, outcome: Outcome)
    requires Inv(c, s) && AtStage(s, w, ToStore)
    ensures Inv(c, PutStep(s, w, outcome)) && Later(s.shared, PutStep(s, w, outcome).shared)
  {
    var t, h := PutStep(s, w, outcome), HandOf(s, w);
    assert HandOk(s.shared, h) && Held(s.shared, h.todo[0]);
    WriteKeepsInv(c, s.shared, h.todo[0].id);
    HandSurvives(s.shared, t.shared, h);
    assert t.hands == s.hands[w := t.hands[w]] && HandOk(t.shared, t.hands[w]);
    InvByParts(c, s, t, w);
  }

  lemma AckStepKeepsInv(c: Config, s: System, w: nat)
    requires Inv(c, s) && AtStage(s, w, ToAck)
    ensures Inv(c, AckStep(s, w)) && Later(s.shared, AckStep(s, w).shared)
  {
    var t, h := AckStep(s, w), HandOf(s, w);
    assert HandOk(s.shared, h) && Held(s.shared, h.todo[0]);
    AckKeepsInv(c, s.shared, h.todo[0].id);
    HandSurvives(s.shared, t.shared, h);
    assert t.hands == s.hands[w := t.hands[w]] && HandOk(t.shared, t.hands[w]);
    InvByParts(c, s, t, w);
  }

  lemma RestOk(k: Shared, h: Hand)
    requires HandOk(k, h) && h.todo != []
    ensures HandOk(k, Hand(h.todo[1..], ToStore))
  {
    forall j | 0 <= j < |h.todo[1..]| ensures Held(k, h.todo[1..][j]) {
      assert Held(k, h.todo[j + 1]);
    }
  }

  lemma DeleteStepKeepsInv(c: Config, s: System, w: nat)
    requires Inv(c, s) && AtStage(s, w, ToDelete)
    ensures Inv(c, DeleteStep(s, w)) && Later(s.shared, DeleteStep(s, w).shared)
  {
    var t, h := DeleteStep(s, w), HandOf(s, w);
    assert HandOk(s.shared, h);
    DeleteKeepsInv(c, s.shared, h.todo[0].id);
    HandSurvives(s.shared, t.shared, h);
    RestOk(t.shared, h);
    assert t.hands == s.hands[w := Hand(h.todo[1..], ToStore)] && HandOk(t.shared, Hand(h.todo[1..], ToStore));
    InvByParts(c, s, t, w);
  }

  lemma StepKeepsInv(c: Config, s: System, a: Action)
    requires c.Valid() && Inv(c, s)
    ensures Inv(c, Apply(c, s, a)) && Later(s.shared, Apply(c, s, a).shared)
  {
    StreamFacts(s.shared);
    match a
    case Tick(_) => QuietKeepsInv(c, s, a);
    case CreateGroup => QuietKeepsInv(c, s, a);
    case Crash(_) => QuietKeepsInv(c, s, a);
    case PublishBatch(b, newId, replied) =>
      if newId > s.shared.redis.lastId {
        PublishKeepsInv(c, s.shared, b, newId, replied);
        InvByParts(c, s, Apply(c, s, a), 0);
      }
    case PutObject(w, outcome) => if AtStage(s, w, ToStore) { PutKeepsInv(c, s, w, outcome); }
    case AckMessage(w) => if AtStage(s, w, ToAck) { AckStepKeepsInv(c, s, w); }
    case DeleteMessage(w) => if AtStage(s, w, ToDelete) { DeleteStepKeepsInv(c, s, w); }
    case _ => if CanRead(c, s, a.w) { ReadKeepsInv(c, s, a); }
  }

  lemma LaterIsTransitive(k: Shared, l: Shared, m: Shared)
    requires Later(k, l) && Later(l, m)
    ensures Later(k, m)
  {
  }

  lemma {:induction false} RunKeepsInv(c: Config, s: System, acts: seq<Action>)
    requires c.Valid() && Inv(c, s)
    ensures Inv(c, Run(c, s, acts)) && Later(s.shared, Run(c, s, acts).shared)
    decreases |acts|
  {
    if acts == [] {
      StreamFacts(s.shared);
    } else {
      var t := Apply(c, s, acts[0]);
      StepKeepsInv(c, s, acts[0]);
      RunKeepsInv(c, t, acts[1..]);
      LaterIsTransitive(s.shared, t.shared, Run(c, t, acts[1..]).shared);
    }
  }

  // ----- What holds over every run -----

  lemma ReachableInv(c: Config, acts: seq<Action>)
    requires c.Valid()
    ensures Inv(c, Run(c, INIT, acts))
  {
    RunKeepsInv(c, INIT, acts);
  }

  /** No accepted batch is lost: every (name, id) a publisher was told, also one answered from
      the idempotency key, is stored, or its entry is still in the stream and either undelivered
      or pending. */
  lemma NoAcceptedBatchIsLost(c: Config, acts: seq<Action>, n: Name, id: Id)
    requires c.Valid() && (n, id) in Run(c, INIT, acts).shared.receipts
    ensures var k := Run(c, INIT, acts).shared;
      || n in k.objects
      || (id in k.redis.entries && k.redis.entries[id].name == n && (id > Cursor(k.redis) || id in k.redis.pel))
  {
    ReachableInv(c, acts);
    var k := Run(c, INIT, acts).shared;
    assert (n, id).1 in k.log && EntryOk(k, id);
  }

  /** The stream splits: an entry is undelivered, pending, or acknowledged and then stored, and
      no two of these; every pending id is in the stream; an entry that is gone was stored. */
  lemma StreamSplits(c: Config, acts: seq<Action>)
    requires c.Valid()
    ensures var k := Run(c, INIT, acts).shared; var r := k.redis;
      && (forall i :: i in r.pel ==> i in r.entries)
      && (forall i :: i in r.entries ==>
            if i > Cursor(r) then i !in r.pel && i !in k.acked
            else i in r.pel <==> i !in k.acked)
      && (forall i :: i in k.acked ==> i in k.log && k.log[i].name in k.objects && i !in r.pel)
      && (forall i :: i in k.log && i !in r.entries ==> i in k.acked)
  {
    ReachableInv(c, acts);
    var k := Run(c, INIT, acts).shared;
    forall i | i in k.log ensures EntryOk(k, i) {
    }
  }

  /** Once an id is acknowledged it is never pending again, whoever still holds the message. */
  lemma AckedNeverPendingAgain(c: Config, s: System, acts: seq<Action>, id: Id)
    requires c.Valid() && Inv(c, s) && id in s.shared.acked
    ensures id in Run(c, s, acts).shared.acked && id !in Run(c, s, acts).shared.redis.pel
  {
    RunKeepsInv(c, s, acts);
    assert EntryOk(Run(c, s, acts).shared, id);
  }

  /** Every stored object is, byte for byte, a batch some publisher appended under that name. */
  lemma StoredObjectsWerePublished(c: Config, acts: seq<Action>, n: Name)
    requires c.Valid() && n in Run(c, INIT, acts).shared.objects
    ensures IsLogged(Run(c, INIT, acts).shared, Batch(n, Run(c, INIT, acts).shared.objects[n]))
  {
    ReachableInv(c, acts);
  }

  /** The stream never outgrows its limit, and an entry leaves it only once acknowledged. */
  lemma StreamIsBoundedAndNeverTrimmed(c: Config, s: System, acts: seq<Action>, id: Id)
    requires c.Valid() && Inv(c, s) && id in s.shared.redis.entries
    ensures |Run(c, s, acts).shared.redis.entries| <= c.maxLength
    ensures id !in Run(c, s, acts).shared.redis.entries ==>
      id in Run(c, s, acts).shared.acked && s.shared.redis.entries[id].name in Run(c, s, acts).shared.objects
  {
    RunKeepsInv(c, s, acts);
    assert EntryOk(s.shared, id) && EntryOk(Run(c, s, acts).shared, id);
  }

  // ----- Publishing is idempotent while the key lives -----

  ghost predicate Live(c: Config, k: Shared, n: Name, stamp: Stamp) {
    var key := IdempotencyKey(c, n);
    key in k.redis.stamps && k.redis.stamps[key] == stamp && k.redis.now < stamp.expires
  }

  /** The name was not published before, or its key has run out. */
  ghost predicate NoLivingKey(c: Config, r: Redis, n: Name) {
    var key := IdempotencyKey(c, n);
    key !in r.stamps || r.stamps[key].expires <= r.now
  }

  /** The entries ever appended under one name. */
  function EntriesOf(k: Shared, n: Name): set<Id> {
    set i | i in k.log && k.log[i].name == n
  }

  lemma PublishKeepsStamp(c: Config, k: Shared, b: Batch, newId: Id, replied: bool, n: Name, stamp: Stamp)
    requires c.Valid() && SharedInv(c, k) && Live(c, k, n, stamp) && newId > k.redis.lastId
    ensures var m := Published(c, k, b, newId, replied);
      EntriesOf(m, n) == EntriesOf(k, n) && Live(c, m, n, stamp)
  {
    var m := Published(c, k, b, newId, replied);
    if IdempotencyKey(c, b.name) == IdempotencyKey(c, n) {
      KeyIsInjective(c, b.name, n);
    } else {
      StreamFacts(k);
      assert b.name != n;
      assert EntriesOf(m, n) == EntriesOf(k, n);
    }
  }

  lemma OnlyPublishAppends(c: Config, s: System, a: Action)
    requires !a.PublishBatch?
    ensures var k := Apply(c, s, a).shared;
      k.log == s.shared.log && k.redis.stamps == s.shared.redis.stamps
  {
  }

  lemma StepKeepsStamp(c: Config, s: System, a: Action, n: Name, stamp: Stamp)
    requires c.Valid() && Inv(c, s) && Live(c, s.shared, n, stamp)
    ensures var k := Apply(c, s, a).shared;
      EntriesOf(k, n) == EntriesOf(s.shared, n) && (k.redis.now < stamp.expires ==> Live(c, k, n, stamp))
  {
    if a.PublishBatch? {
      if a.newId > s.shared.redis.lastId {
        PublishKeepsStamp(c, s.shared, a.batch, a.newId, a.replied, n, stamp);
      }
    } else {
      OnlyPublishAppends(c, s, a);
    }
  }

  /** While the key lives, whatever else runs, no second entry of the same name is appended and
      every publish of that name answers the same id, also when the stream is full. */
  lemma {:induction false} PublishIsIdempotent(c: Config, s: System, acts: seq<Action>, b: Batch, stamp: Stamp, newId: Id)
    requires c.Valid() && Inv(c, s) && Live(c, s.shared, b.name, stamp)
    requires Run(c, s, acts).shared.redis.now < stamp.expires
    ensures var k := Run(c, s, acts).shared;
      && EntriesOf(k, b.name) == EntriesOf(s.shared, b.name)
      && Publish(c, k.redis, b, newId) == (k.redis, Accepted(stamp.id))
    decreases |acts|
  {
    if acts != [] {
      var t := Apply(c, s, acts[0]);
      StepKeepsStamp(c, s, acts[0], b.name, stamp);
      StepKeepsInv(c, s, acts[0]);
      RunKeepsInv(c, t, acts[1..]);
      PublishIsIdempotent(c, t, acts[1..], b, stamp, newId);
    }
  }

  /** The publish that opens the key's life appends exactly one entry: its own id. */
  lemma FirstPublishOpensTheKey(c: Config, s: System, b: Batch, newId: Id)
    requires c.Valid() && Inv(c, s) && newId > s.shared.redis.lastId
    requires NoLivingKey(c, s.shared.redis, b.name) && |s.shared.redis.entries| < c.maxLength
    ensures var k := Apply(c, s, PublishBatch(b, newId, true)).shared;
      && Live(c, k, b.name, Stamp(newId, s.shared.redis.now + 1000 * c.ttl))
      && EntriesOf(k, b.name) == EntriesOf(s.shared, b.name) + {newId}
      && newId !in EntriesOf(s.shared, b.name) && (b.name, newId) in k.receipts
  {
    StreamFacts(s.shared);
  }

  // ----- Whatever is still unacknowledged can be recovered -----

  ghost function Unacked(k: Shared): set<Id> {
    set i | i in k.log && i !in k.acked
  }

  /** Entries that were acknowledged and are still in the stream, as after a crash between the
      acknowledgement and the deletion. */
  ghost function Lingering(k: Shared): set<Id> {
    set i | i in k.redis.entries && i in k.acked
  }

  /** How a worker restarts: it drops what it held, makes sure the group exists and waits. */
  ghost function Restart(ms: nat): seq<Action> {
    [Crash(0), CreateGroup, Tick(ms)]
  }

  /** How a worker finishes the first message it holds, from whatever stage. */
  function FinishFirst(w: nat): seq<Action> {
    [PutObject(w, Stored), AckMessage(w), DeleteMessage(w)]
  }

  lemma RestartReadies(c: Config, s: System, ms: nat)
    requires c.Valid()
    ensures var t := Run(c, s, Restart(ms));
      && CanRead(c, t, 0)
      && t.shared == s.shared.(redis := GroupCreate(s.shared.redis).(now := s.shared.redis.now + ms))
  {
    var a, b := Apply(c, s, Crash(0)), Apply(c, Apply(c, s, Crash(0)), CreateGroup);
    assert Run(c, s, Restart(ms)) == Run(c, a, [CreateGroup, Tick(ms)]) == Run(c, b, [Tick(ms)])
        == Run(c, Apply(c, b, Tick(ms)), []);
  }

  lemma ThreeActions(c: Config, s: System, x: Action, y: Action, z: Action)
    ensures Run(c, s, [x, y, z]) == Apply(c, Apply(c, Apply(c, s, x), y), z)
  {
    hide Apply;
    assert [x, y, z][1..] == [y, z] && [y, z][1..] == [z] && [z][1..] == [];
    assert Run(c, Apply(c, s, x), [y, z]) == Run(c, Apply(c, Apply(c, s, x), y), [z]);
    assert Run(c, Apply(c, Apply(c, s, x), y), [z]) == Run(c, Apply(c, Apply(c, Apply(c, s, x), y), z), []);
  }

  lemma StoreFirst(c: Config, s: System, w: nat)
    requires w in s.hands && s.hands[w].todo != [] && s.hands[w].todo[0].fields.Some?
    ensures var t, h := Apply(c, s, PutObject(w, Stored)), s.hands[w];
      && t.hands == s.hands[w := if h.stage == ToStore then h.(stage := ToAck) else h]
      && t.shared == s.shared.(objects := t.shared.objects)
  {
  }

  lemma AckFirst(c: Config, s: System, w: nat)
    requires w in s.hands && s.hands[w].todo != [] && s.hands[w].stage != ToStore
    requires s.hands[w].stage == ToDelete ==> s.hands[w].todo[0].id in s.shared.acked
    ensures var t, h := Apply(c, s, AckMessage(w)), s.hands[w];
      && t.hands == s.hands[w := h.(stage := ToDelete)] && t.shared.log == s.shared.log
      && t.shared.redis.entries == s.shared.redis.entries && t.shared.acked == s.shared.acked + {h.todo[0].id}
  {
  }

  lemma DeleteFirst(c: Config, s: System, w: nat)
    requires w in s.hands && s.hands[w].todo != [] && s.hands[w].stage == ToDelete
    ensures var t, h := Apply(c, s, DeleteMessage(w)), s.hands[w];
      && t.hands == s.hands[w := Hand(h.todo[1..], ToStore)] && t.shared.log == s.shared.log
      && t.shared.redis.entries == s.shared.redis.entries - {h.todo[0].id} && t.shared.acked == s.shared.acked
  {
  }

  lemma FirstIsFinished(c: Config, s: System, w: nat)
    requires Inv(c, s) && w in s.hands && s.hands[w].todo != []
    ensures var t, h := Run(c, s, FinishFirst(w)), s.hands[w];
      && t.hands == s.hands[w := Hand(h.todo[1..], ToStore)] && t.shared.log == s.shared.log
      && t.shared.redis.entries == s.shared.redis.entries - {h.todo[0].id}
      && t.shared.acked == s.shared.acked + {h.todo[0].id}
  {
    var h := s.hands[w];
    assert HandOk(s.shared, h) && Held(s.shared, h.todo[0]);
    hide Inv, HandOk, Apply, Run;
    StoreFirst(c, s, w);
    var a := Apply(c, s, PutObject(w, Stored));
    AckFirst(c, a, w);
    DeleteFirst(c, Apply(c, a, AckMessage(w)), w);
    ThreeActions(c, s, PutObject(w, Stored), AckMessage(w), DeleteMessage(w));
  }

  lemma OverdueIsClaimed(c: Config, t: System, i: Id)
    requires c.Valid() && CanRead(c, t, 0) && GroupOk(t.shared.redis)
    requires i in t.shared.redis.pel && t.shared.redis.now >= t.shared.redis.pel[i].since + c.claimIdle
    ensures AtStage(Apply(c, t, ClaimIdle(0, "")), 0, ToStore)
  {
    var r := t.shared.redis;
    assert i in Claimable(r, c.claimIdle);
    var due := FirstIds(Claimable(r, c.claimIdle), c.batchSize);
    assert due[0] in Claimable(r, c.claimIdle) && due[0] in StillThere(r, due);
    var ms := AutoClaim(r, "", c.claimIdle, c.batchSize).1;
    assert |ms| == |FirstIds(StillThere(r, due), c.batchSize)|;
    assert Apply(c, t, ClaimIdle(0, "")) == ReadStep(c, t, ClaimIdle(0, ""));
    assert HandOf(ReadStep(c, t, ClaimIdle(0, "")), 0) == Hand(ms, ToStore);
  }

  lemma WaitingIsDelivered(c: Config, t: System, i: Id)
    requires c.Valid() && CanRead(c, t, 0) && i in Waiting(t.shared.redis)
    ensures AtStage(Apply(c, t, ReadUndelivered(0, "")), 0, ToStore)
  {
    var ids := FirstIds(Waiting(t.shared.redis), c.batchSize);
    assert ids != [] by {
      assert i in ids || |ids| == c.batchSize;
    }
    var ms := ReadNew(t.shared.redis, "", c.batchSize).1;
    assert |ms| == |ids|;
    assert Apply(c, t, ReadUndelivered(0, "")) == ReadStep(c, t, ReadUndelivered(0, ""));
    assert HandOf(ReadStep(c, t, ReadUndelivered(0, "")), 0) == Hand(ms, ToStore);
  }

  /** Some delivery command hands a restarted worker an entry. */
  lemma SomethingIsDelivered(c: Config, s: System) returns (ms: nat, read: Action)
    requires c.Valid() && Inv(c, s) && Unacked(s.shared) != {}
    ensures (read.ClaimIdle? || read.ReadUndelivered?) && read.w == 0
    ensures CanRead(c, Run(c, s, Restart(ms)), 0) && AtStage(Apply(c, Run(c, s, Restart(ms)), read), 0, ToStore)
  {
    var k := s.shared;
    StreamFacts(k);
    if i :| i in k.redis.pel {
      ms, read := c.claimIdle + k.redis.pel[i].since, ClaimIdle(0, "");
      RestartReadies(c, s, ms);
      OverdueIsClaimed(c, Run(c, s, Restart(ms)), i);
    } else {
      ms, read := 0, ReadUndelivered(0, "");
      RestartReadies(c, s, ms);
      var i :| i in Unacked(k);
      assert EntryOk(k, i);
      WaitingIsDelivered(c, Run(c, s, Restart(ms)), i);
    }
  }

  lemma ReadThenFinish(c: Config, r: System, read: Action)
    requires c.Valid() && Inv(c, r) && CanRead(c, r, 0)
    requires (read.ClaimIdle? || read.ReadUndelivered?) && read.w == 0
    requires AtStage(Apply(c, r, read), 0, ToStore)
    ensures var u := Run(c, r, [read] + FinishFirst(0)).shared;
      u.log == r.shared.log && Unacked(u) < Unacked(r.shared) && Lingering(u) <= Lingering(r.shared)
  {
    var t := ReadStep(c, r, read);
    var id := HandOf(t, 0).todo[0].id;
    ReadKeepsInv(c, r, read);
    FirstHeldIsUnacked(c, r, read);
    FirstIsFinished(c, t, 0);
    assert ([read] + FinishFirst(0))[1..] == FinishFirst(0);
    var u := Run(c, t, FinishFirst(0)).shared;
    assert id in Unacked(r.shared) && id !in Unacked(u);
  }

  lemma OneRound(c: Config, s: System) returns (acts: seq<Action>)
    requires c.Valid() && Inv(c, s) && Unacked(s.shared) != {}
    ensures Unacked(Run(c, s, acts).shared) < Unacked(s.shared) && Run(c, s, acts).shared.log == s.shared.log
    ensures Lingering(Run(c, s, acts).shared) <= Lingering(s.shared)
  {
    var ms, read := SomethingIsDelivered(c, s);
    RunKeepsInv(c, s, Restart(ms));
    RestartReadies(c, s, ms);
    ReadThenFinish(c, Run(c, s, Restart(ms)), read);
    acts := Restart(ms) + ([read] + FinishFirst(0));
    RunAppend(c, s, Restart(ms), [read] + FinishFirst(0));
  }

  /** From any state, some schedule of restarts with a working store acknowledges, and so
      stores, everything ever appended. */
  lemma {:induction false} EverythingIsRecoverable(c: Config, s: System) returns (acts: seq<Action>)
    requires c.Valid() && Inv(c, s)
    ensures Unacked(Run(c, s, acts).shared) == {} && Run(c, s, acts).shared.log == s.shared.log
    ensures forall i :: i in s.shared.log ==> s.shared.log[i].name in Run(c, s, acts).shared.objects
    ensures Lingering(Run(c, s, acts).shared) <= Lingering(s.shared)
    decreases |Unacked(s.shared)|
  {
    if Unacked(s.shared) == {} {
      acts := [];
      forall i | i in s.shared.log ensures s.shared.log[i].name in s.shared.objects {
        assert i !in Unacked(s.shared) && EntryOk(s.shared, i);
      }
    } else {
      var round := OneRound(c, s);
      var t := Run(c, s, round);
      RunKeepsInv(c, s, round);
      SmallerCount(Unacked(t.shared), Unacked(s.shared));
      var rest := EverythingIsRecoverable(c, t);
      acts := round + rest;
      RunAppend(c, s, round, rest);
    }
  }

  lemma SmallerCount(a: set<Id>, b: set<Id>)
    requires a < b
    ensures |a| < |b|
  {
    assert |b| == |a| + |b - a| by { assert b == a + (b - a); }
    assert b - a != {};
  }

  /** A claimed entry is pending and a newly read one undelivered, so neither was acknowledged. */
  lemma FirstHeldIsUnacked(c: Config, r: System, read: Action)
    requires c.Valid() && Inv(c, r) && CanRead(c, r, 0)
    requires (read.ClaimIdle? || read.ReadUndelivered?) && read.w == 0
    requires HandOf(ReadStep(c, r, read), 0).todo != []
    ensures HandOf(ReadStep(c, r, read), 0).todo[0].id in Unacked(r.shared)
  {
    var k := r.shared;
    StreamFacts(k);
    var ms := HandOf(ReadStep(c, r, read), 0).todo;
    if read.ClaimIdle? {
      assert ms == AutoClaim(k.redis, read.consumer, c.claimIdle, c.batchSize).1;
      ClaimedWasPending(k.redis, read.consumer, c.claimIdle, c.batchSize);
    } else {
      assert ms == ReadNew(k.redis, read.consumer, c.batchSize).1;
      assert ms[0].id in FirstIds(Waiting(k.redis), c.batchSize) && ms[0].id in Waiting(k.redis);
    }
    assert EntryOk(k, ms[0].id);
  }

  lemma ClaimedWasPending(r: Redis, consumer: string, idle: nat, count: nat)
    ensures var ms := AutoClaim(r, consumer, idle, count).1; ms != [] ==> ms[0].id in r.pel
  {
    var ms := AutoClaim(r, consumer, idle, count).1;
    var due := FirstIds(Claimable(r, idle), count);
    if ms != [] {
      assert ms[0].id in FirstIds(StillThere(r, due), count) && ms[0].id in StillThere(r, due) && ms[0].id in Claimable(r, idle);
    }
  }

  /** So every batch a publisher was told about can still be delivered to the store. */
  lemma EveryAcceptedBatchCanBeStored(c: Config, acts: seq<Action>, n: Name, id: Id)
    requires c.Valid() && (n, id) in Run(c, INIT, acts).shared.receipts
    ensures exists more :: n in Run(c, INIT, acts + more).shared.objects
  {
    ReachableInv(c, acts);
    var s := Run(c, INIT, acts);
    var more := EverythingIsRecoverable(c, s);
    assert (n, id).1 in s.shared.log;
    RunAppend(c, INIT, acts, more);
    assert n in Run(c, INIT, acts + more).shared.objects;
  }
}
