/**
  When a bounded stream can take new batches again. An entry that was acknowledged and whose
  deletion never came, as after a crash between the two commands, is nobody's any more: it counts
  against the bound for ever. Everything else can be worked off.
*/
module StreamRoom {
  import opened Common
  import opened StreamQueue

  predicate InHand(h: Hand, id: Id) {
    exists j :: 0 <= j < |h.todo| && h.todo[j].id == id
  }

  ghost predicate IsHeld(s: System, id: Id) {
    exists w :: w in s.hands && InHand(s.hands[w], id)
  }

  /** Acknowledged, still in the stream, and in no worker's hand. */
  ghost function Stuck(s: System): set<Id> {
    set i | i in Lingering(s.shared) && !IsHeld(s, i)
  }

  // ----- A stuck entry stays -----

  /** What a step can put into a worker's hand: nothing, what it held, or pending entries. */
  ghost predicate HandsComeFrom(s: System, t: System) {
    forall w, id :: w in t.hands && InHand(t.hands[w], id) ==> (w in s.hands && InHand(s.hands[w], id)) || id in t.shared.redis.pel
  }

  lemma ReadDelivers(c: Config, s: System, a: Action) returns (ms: seq<Message>)
    requires a.ReadPendingOwn? || a.ClaimIdle? || a.ReadUndelivered?
    requires c.Valid() && Inv(c, s) && CanRead(c, s, a.w)
    ensures ReadStep(c, s, a).hands == s.hands[a.w := Hand(ms, ToStore)]
    ensures Delivered(s.shared.redis, ReadStep(c, s, a).shared.redis, ms)
  {
    var r := s.shared.redis;
    StreamFacts(s.shared);
    hide Inv, ReadOwn, AutoClaim, ReadNew, Delivered;
    ms := ReadStep(c, s, a).hands[a.w].todo;
    if a.ReadPendingOwn? {
      ReadOwnDelivers(r, a.consumer, c.batchSize);
    } else if a.ClaimIdle? {
      AutoClaimDelivers(r, a.consumer, c.claimIdle, c.batchSize);
    } else {
      ReadNewDelivers(r, a.consumer, c.batchSize);
    }
  }

  lemma ReadBringsPending(c: Config, s: System, a: Action)
    requires a.ReadPendingOwn? || a.ClaimIdle? || a.ReadUndelivered?
    requires c.Valid() && Inv(c, s) && CanRead(c, s, a.w)
    ensures HandsComeFrom(s, ReadStep(c, s, a)) && ReadStep(c, s, a).shared.redis.entries == s.shared.redis.entries
  {
    var ms := ReadDelivers(c, s, a);
    hide Inv, ReadStep;
    assert forall j :: 0 <= j < |ms| ==> ms[j].id in ReadStep(c, s, a).shared.redis.pel;
  }

  lemma WorkKeepsHands(c: Config, s: System, a: Action)
    requires !a.ReadPendingOwn? && !a.ClaimIdle? && !a.ReadUndelivered?
    ensures HandsComeFrom(s, Apply(c, s, a))
    ensures forall id :: id in s.shared.redis.entries && !IsHeld(s, id) ==>
      id in Apply(c, s, a).shared.redis.entries
  {
    var t := Apply(c, s, a);
    forall w, id | w in t.hands && InHand(t.hands[w], id) ensures w in s.hands && InHand(s.hands[w], id) {
      if w !in s.hands || t.hands[w] != s.hands[w] {
        var j :| 0 <= j < |t.hands[w].todo| && t.hands[w].todo[j].id == id;
        if a.DeleteMessage? {
          assert s.hands[w].todo[j + 1].id == id;
        } else {
          assert s.hands[w].todo[j].id == id;
        }
      }
    }
    if a.DeleteMessage? && AtStage(s, a.w, ToDelete) {
      assert InHand(s.hands[a.w], HandOf(s, a.w).todo[0].id);
    }
  }

  lemma AckedIsNotPending(k: Shared)
    requires StreamInv(k)
    ensures forall i :: i in k.acked ==> i !in k.redis.pel
  {
    forall i | i in k.acked ensures i !in k.redis.pel {
      assert EntryOk(k, i);
    }
  }

  lemma StuckInNext(s: System, t: System)
    requires HandsComeFrom(s, t) && s.shared.acked <= t.shared.acked
    requires forall id :: id in s.shared.redis.entries && !IsHeld(s, id) ==> id in t.shared.redis.entries
    requires forall i :: i in t.shared.acked ==> i !in t.shared.redis.pel
    ensures Stuck(s) <= Stuck(t)
  {
  }

  lemma StepKeepsStuck(c: Config, s: System, a: Action)
    requires c.Valid() && Inv(c, s)
    ensures Stuck(s) <= Stuck(Apply(c, s, a))
  {
    StepKeepsInv(c, s, a);
    var t := Apply(c, s, a);
    AckedIsNotPending(t.shared);
    hide StreamInv, HandOk, HandsComeFrom, Stuck;
    if a.ReadPendingOwn? || a.ClaimIdle? || a.ReadUndelivered? {
      if CanRead(c, s, a.w) {
        ReadBringsPending(c, s, a);
        assert t == ReadStep(c, s, a);
      } else {
        assert t == s;
        NothingMoves(s);
      }
    } else {
      WorkKeepsHands(c, s, a);
    }
    hide Apply, Inv, ReadStep;
    StuckInNext(s, t);
  }

  lemma NothingMoves(s: System)
    ensures HandsComeFrom(s, s)
  {
  }

  lemma {:induction false} StuckStays(c: Config, s: System, acts: seq<Action>)
    requires c.Valid() && Inv(c, s)
    ensures Stuck(s) <= Stuck(Run(c, s, acts))
    decreases |acts|
  {
    hide Inv, Apply, Stuck;
    if acts != [] {
      StepKeepsStuck(c, s, acts[0]);
      StepKeepsInv(c, s, acts[0]);
      StuckStays(c, Apply(c, s, acts[0]), acts[1..]);
    }
  }

  // ----- Everything else can be worked off -----

  /** What is left to work off shrinks: no entry comes, and those held are gone. */
  ghost predicate WorkedOff(s: System, t: System, gone: set<Id>) {
    t.shared.redis.entries.Keys <= s.shared.redis.entries.Keys - gone && Lingering(t.shared) <= Lingering(s.shared) - gone
  }

  function Ids(h: Hand): set<Id> {
    set m | m in h.todo :: m.id
  }

  lemma {:induction false} HandIsEmptied(c: Config, s: System, w: nat) returns (acts: seq<Action>)
    requires c.Valid() && Inv(c, s) && w in s.hands
    ensures var t := Run(c, s, acts);
      w in t.hands && t.hands == s.hands[w := t.hands[w]] && t.hands[w].todo == [] && WorkedOff(s, t, Ids(s.hands[w]))
    decreases |s.hands[w].todo|
  {
    hide Run, Inv, WorkedOff, Ids, FinishFirst, Lingering;
    var h := s.hands[w];
    if h.todo == [] {
      acts := [];
      NothingRuns(c, s);
      NothingWorked(s, h);
    } else {
      var first := FinishFirst(w);
      FirstIsFinished(c, s, w);
      RunKeepsInv(c, s, first);
      var t := Run(c, s, first);
      var rest := HandIsEmptied(c, t, w);
      acts := first + rest;
      RunAppend(c, s, first, rest);
      FirstThenRest(s, t, Run(c, t, rest), h);
    }
  }

  lemma NothingWorked(s: System, h: Hand)
    requires h.todo == []
    ensures WorkedOff(s, s, Ids(h))
  {
  }

  lemma FirstThenRest(s: System, t: System, u: System, h: Hand)
    requires h.todo != [] && t.shared.redis.entries == s.shared.redis.entries - {h.todo[0].id}
    requires t.shared.acked <= s.shared.acked + {h.todo[0].id} && WorkedOff(t, u, Ids(Hand(h.todo[1..], ToStore)))
    ensures WorkedOff(s, u, Ids(h))
  {
    forall i | i in Ids(h) ensures i == h.todo[0].id || i in Ids(Hand(h.todo[1..], ToStore)) {
      var m :| m in h.todo && m.id == i;
      if m != h.todo[0] { assert m in h.todo[1..]; }
    }
  }

  function Busy(s: System): set<nat> {
    set w | w in s.hands && s.hands[w].todo != []
  }

  ghost function HeldIds(s: System): set<Id> {
    set w, m | w in s.hands && m in s.hands[w].todo :: m.id
  }

  lemma {:induction false} HandsAreEmptied(c: Config, s: System) returns (acts: seq<Action>)
    requires c.Valid() && Inv(c, s)
    ensures WorkedOff(s, Run(c, s, acts), HeldIds(s))
    decreases |Busy(s)|
  {
    if Busy(s) == {} {
      acts := [];
      forall w | w in s.hands ensures s.hands[w].todo == [] {
        assert s.hands[w].todo != [] ==> w in Busy(s);
      }
    } else {
      var w :| w in Busy(s);
      var first := HandIsEmptied(c, s, w);
      var t := Run(c, s, first);
      RunKeepsInv(c, s, first);
      hide Run, Inv;
      assert Busy(t) < Busy(s) by {
        assert w in Busy(s) && w !in Busy(t);
      }
      SmallerCount(Busy(t), Busy(s));
      var rest := HandsAreEmptied(c, t);
      acts := first + rest;
      RunAppend(c, s, first, rest);
      HeldElsewhere(s, t, w);
    }
  }

  lemma HeldElsewhere(s: System, t: System, w: nat)
    requires w in s.hands && w in t.hands && t.hands == s.hands[w := t.hands[w]]
    ensures HeldIds(s) <= HeldIds(t) + Ids(s.hands[w])
  {
    forall i | i in HeldIds(s) ensures i in HeldIds(t) + Ids(s.hands[w]) {
      var v, m :| v in s.hands && m in s.hands[v].todo && m.id == i;
      if v != w { assert t.hands[v] == s.hands[v]; }
    }
  }

  lemma HeldIsHeld(s: System, i: Id)
    ensures i in HeldIds(s) <==> IsHeld(s, i)
  {
    if i in HeldIds(s) {
      var w, m :| w in s.hands && m in s.hands[w].todo && m.id == i;
      var j :| 0 <= j < |s.hands[w].todo| && s.hands[w].todo[j] == m;
      assert InHand(s.hands[w], i);
    }
    if w :| w in s.hands && InHand(s.hands[w], i) {
      var j :| 0 <= j < |s.hands[w].todo| && s.hands[w].todo[j].id == i;
      assert s.hands[w].todo[j] in s.hands[w].todo;
    }
  }

  /** Some schedule leaves nothing in the stream but the stuck entries. */
  lemma OnlyStuckRemain(c: Config, s: System) returns (acts: seq<Action>)
    requires c.Valid() && Inv(c, s)
    ensures Run(c, s, acts).shared.redis.entries.Keys <= Stuck(s)
  {
    var first := HandsAreEmptied(c, s);
    var t := Run(c, s, first);
    RunKeepsInv(c, s, first);
    var rest := EverythingIsRecoverable(c, t);
    RunKeepsInv(c, t, rest);
    acts := first + rest;
    RunAppend(c, s, first, rest);
    var u := Run(c, t, rest);
    assert StreamInv(u.shared);
    hide Run, Inv;
    forall i | i in u.shared.redis.entries ensures i in Stuck(s) {
      assert i in u.shared.log && i !in Unacked(u.shared);
      assert i in Lingering(u.shared) && i in Lingering(t.shared);
      HeldIsHeld(s, i);
    }
  }

  // ----- Room -----

  /** The stream can have room again exactly when fewer entries are stuck than it may hold. */
  lemma RoomCanReturnExactly(c: Config, s: System)
    requires c.Valid() && Inv(c, s)
    ensures (exists acts :: |Run(c, s, acts).shared.redis.entries| < c.maxLength) <==> |Stuck(s)| < c.maxLength
  {
    if |Stuck(s)| < c.maxLength {
      var acts := OnlyStuckRemain(c, s);
      SubsetCount(Run(c, s, acts).shared.redis.entries.Keys, Stuck(s));
      assert |Run(c, s, acts).shared.redis.entries| == |Run(c, s, acts).shared.redis.entries.Keys|;
    }
    if acts :| |Run(c, s, acts).shared.redis.entries| < c.maxLength {
      StuckStays(c, s, acts);
      var t := Run(c, s, acts);
      assert Stuck(t) <= t.shared.redis.entries.Keys;
      SubsetCount(Stuck(s), t.shared.redis.entries.Keys);
    }
  }

  /** Otherwise every publish of a name without a living key is refused, from then on. */
  lemma FullForEver(c: Config, s: System, acts: seq<Action>, b: Batch, newId: Id)
    requires c.Valid() && Inv(c, s) && |Stuck(s)| >= c.maxLength
    requires NoLivingKey(c, Run(c, s, acts).shared.redis, b.name)
    ensures Publish(c, Run(c, s, acts).shared.redis, b, newId).1.StreamFull?
  {
    RoomCanReturnExactly(c, s);
    hide Run, Inv;
  }

  /** Entries do get stuck: a worker that crashes between its two last commands leaves one. */
  lemma CrashLeavesOneStuck(c: Config, b: Batch)
    requires c.Valid()
    ensures exists acts :: |Stuck(Run(c, INIT, acts))| == 1
  {
    var acts := CrashBeforeDelete(c, b);
    var s := Run(c, INIT, acts);
    assert Stuck(s) == {1};
  }

  lemma Then(c: Config, s: System, acts: seq<Action>, a: Action)
    ensures Run(c, s, acts + [a]) == Apply(c, Run(c, s, acts), a)
  {
    RunAppend(c, s, acts, [a]);
    hide Apply;
    assert Run(c, Run(c, s, acts), [a]) == Run(c, Apply(c, Run(c, s, acts), a), []);
  }

  lemma CrashBeforeDelete(c: Config, b: Batch) returns (acts: seq<Action>)
    requires c.Valid()
    ensures var s := Run(c, INIT, acts);
      s.hands == map[0 := IDLE] && s.shared.redis.entries.Keys == {1} && s.shared.acked == {1}
  {
    hide Run;
    acts := [];
    NothingRuns(c, INIT);
    Then(c, INIT, acts, CreateGroup);
    acts := acts + [CreateGroup];
    Then(c, INIT, acts, PublishBatch(b, 1, true));
    acts := acts + [PublishBatch(b, 1, true)];
    var s := Run(c, INIT, acts);
    FirstPublish(c, b);
    hide Published, Publish;
    OnlyOneWaits(c, s);
    Then(c, INIT, acts, ReadUndelivered(0, ""));
    acts := acts + [ReadUndelivered(0, "")];
    var t := Run(c, INIT, acts);
    hide Apply;
    CrashAfterAck(c, t, b);
    var last := [PutObject(0, Stored), AckMessage(0), Crash(0)];
    RunAppend(c, INIT, acts, last);
    acts := acts + last;
  }

  lemma FirstPublish(c: Config, b: Batch)
    requires c.Valid()
    ensures var s := Apply(c, Apply(c, INIT, CreateGroup), PublishBatch(b, 1, true));
      s.shared.redis.entries == map[1 := b] && s.shared.redis.group == Some(0) && s.hands == map[] && s.shared.acked == {}
  {
  }

  lemma CrashAfterAck(c: Config, s: System, b: Batch)
    requires s.hands == map[0 := Hand([Message(1, Some(b))], ToStore)]
    requires s.shared.redis.entries.Keys == {1} && s.shared.acked == {}
    ensures var t := Run(c, s, [PutObject(0, Stored), AckMessage(0), Crash(0)]);
      t.hands == map[0 := IDLE] && t.shared.redis.entries.Keys == {1} && t.shared.acked == {1}
  {
    ThreeActions(c, s, PutObject(0, Stored), AckMessage(0), Crash(0));
  }

  lemma NothingRuns(c: Config, s: System)
    ensures Run(c, s, []) == s
  {
  }

  lemma FirstOfOne(n: nat)
    requires n >= 1
    ensures FirstIds({1}, n) == [1]
  {
    assert {1} - {1} == {};
    assert Least({1}) == 1;
  }

  lemma OnlyOneWaits(c: Config, s: System)
    requires c.Valid() && s.hands == map[] && s.shared.redis.group == Some(0)
    requires s.shared.redis.entries.Keys == {1}
    ensures var a := ReadUndelivered(0, ""); var t := Apply(c, s, a);
      && t.shared == s.shared.(redis := t.shared.redis) && t.shared.redis.entries == s.shared.redis.entries
      && t.hands == map[0 := Hand([Message(1, Some(s.shared.redis.entries[1]))], ToStore)]
  {
    var r := s.shared.redis;
    var ids := FirstIds(Waiting(r), c.batchSize);
    assert Waiting(r) == {1};
    FirstOfOne(c.batchSize);
    assert Fetch(r, ids) == [Message(1, Some(r.entries[1]))];
  }
}
