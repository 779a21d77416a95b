/**
  The in-memory tracking queue: producers put batches on a bounded queue, one worker thread
  moves them to its own pending list and flushes them to object storage. A machine gives every
  interleaving of producers, worker and close; a class gives the code itself.
*/
module BufferedQueue {
  import opened Common

  type Item = nat

  /** Where a flush returns to: the timer test, the loop head, or the shutdown loop. */
  datatype Back = ToTimer | ToTop | ToFinal

  /** The worker's program counter. Popping: the head was written but is not yet removed. */
  datatype Pc =
    | Top | Getting | Took(item: Item) | Timer
    | Flushing(back: Back) | Popping(back: Back)
    | Draining | DrainTook(item: Item) | Final | Done

  /** `checked` are the producers that passed the closed test and have not put yet. `stored`,
      `accepted`, `late` and `gaveUp` are history: writes and puts in order, the puts after the
      drain found the queue empty, and whether the shutdown flush failed. */
  datatype RawState = State(
    queue: seq<Item>,
    pending: seq<Item>,
    closed: bool,
    stopped: bool,
    checked: set<nat>,
    pc: Pc,
    stored: seq<Item>,
    accepted: seq<Item>,
    late: seq<Item>,
    gaveUp: bool)

  datatype Config = Config(capacity: nat, batchSize: nat) {
    predicate Valid() { capacity >= 1 && batchSize >= 1 }
  }

  datatype Action =
    | Check(p: nat)
    | PutNowait(p: nat, x: Item)
    | MarkClosed
    | SetStop
    | Work(flag: bool)

  /** A popping worker has just written the head of its pending list. */
  type State = s: RawState | (s.pc.Popping? ==> s.pending != []) witness INIT

  const INIT := RawState.State([], [], false, false, {}, Top, [], [], [], false)

  predicate PastDrain(pc: Pc) {
    pc.Final? || pc.Done? || (pc.Flushing? && pc.back.ToFinal?) || (pc.Popping? && pc.back.ToFinal?)
  }

  function Return(back: Back): Pc {
    match back case ToTimer => Timer case ToTop => Top case ToFinal => Final
  }

  /** The worker's next step. The flag is what it cannot decide itself: whether the get found
      an item before its timeout, the interval has passed, or the write succeeds. */
  function WorkerStep(c: Config, s: State, flag: bool): State {
    match s.pc
    case Top => s.(pc := if s.stopped then Draining else Getting)
    case Getting =>
      if s.queue != [] then s.(pc := Took(s.queue[0]), queue := s.queue[1..])
      else if flag then s
      else s.(pc := Timer)
    case Took(x) =>
      s.(pending := s.pending + [x], pc := if |s.pending| + 1 >= c.batchSize then Flushing(ToTimer) else Timer)
    case Timer => s.(pc := if s.pending != [] && flag then Flushing(ToTop) else Top)
    case Flushing(back) =>
      if s.pending == [] then s.(pc := Return(back))
      else if flag then s.(stored := s.stored + [s.pending[0]], pc := Popping(back))
      else if back.ToFinal? then s.(pc := Done, gaveUp := true)
      else s.(pc := Return(back))
    case Popping(back) => s.(pending := s.pending[1..], pc := Flushing(back))
    case Draining =>
      if s.queue == [] then s.(pc := Final) else s.(pc := DrainTook(s.queue[0]), queue := s.queue[1..])
    case DrainTook(x) => s.(pending := s.pending + [x], pc := Draining)
    case Final => s.(pc := if s.pending == [] then Done else Flushing(ToFinal))
    case Done => s
  }

  function Apply(c: Config, s: State, a: Action): State
  {
    match a
    case Check(p) => if s.closed then s else s.(checked := s.checked + {p})
    case PutNowait(p, x) =>
      if p !in s.checked then s
      else if |s.queue| >= c.capacity then s.(checked := s.checked - {p})
      else s.(checked := s.checked - {p}, queue := s.queue + [x], accepted := s.accepted + [x],
              late := if PastDrain(s.pc) then s.late + [x] else s.late)
    case MarkClosed => s.(closed := true)
    case SetStop => if s.closed then s.(stopped := true) else s
    case Work(flag) => WorkerStep(c, s, flag)
  }

  function Run(c: Config, s: State, acts: seq<Action>): State
    decreases |acts|
  {
    if acts == [] then s else Run(c, Apply(c, s, acts[0]), acts[1..])
  }

  // ----- Conservation -----

  /** Accepted and not yet written, oldest first: pending, the item in hand, the queue. */
  function Unwritten(s: State): seq<Item>
  {
    (if s.pc.Popping? then s.pending[1..] else s.pending)
    + (if s.pc.Took? || s.pc.DrainTook? then [s.pc.item] else [])
    + s.queue
  }

  ghost predicate Inv(c: Config, s: State) {
    && s.accepted == s.stored + Unwritten(s)
    && |s.queue| <= c.capacity
    && (s.stopped ==> s.closed)
    && (PastDrain(s.pc) || s.pc.Draining? || s.pc.DrainTook? ==> s.stopped)
    && (PastDrain(s.pc) ==> s.queue == s.late)
    && (!PastDrain(s.pc) ==> s.late == [])
    && (s.gaveUp ==> s.pc.Done?)
    && (s.pc.Done? && !s.gaveUp ==> s.pending == [])
  }

  /** The one step that writes takes the oldest unwritten item. */
  predicate Writes(s: State, flag: bool) {
    s.pc.Flushing? && s.pending != [] && flag
  }

  lemma WriteTakesTheOldest(c: Config, s: State)
    requires Writes(s, true)
    ensures Unwritten(s) == [s.pending[0]] + Unwritten(WorkerStep(c, s, true))
  {
    assert s.pending == [s.pending[0]] + s.pending[1..];
  }

  lemma MovesKeepOrder(c: Config, s: State, flag: bool)
    requires !Writes(s, flag)
    ensures Unwritten(WorkerStep(c, s, flag)) == Unwritten(s)
  {
    match s.pc
    case Top =>
    case Getting => TakingKeepsOrder(s.pending, s.queue);
    case Took(x) => assert s.pending + [x] + s.queue == (s.pending + [x]) + [] + s.queue;
    case Timer =>
    case Flushing(_) =>
    case Popping(_) =>
    case Draining => TakingKeepsOrder(s.pending, s.queue);
    case DrainTook(x) => assert s.pending + [x] + s.queue == (s.pending + [x]) + [] + s.queue;
    case Final =>
    case Done =>
  }

  lemma TakingKeepsOrder(pending: seq<Item>, queue: seq<Item>)
    ensures queue != [] ==> pending + [queue[0]] + queue[1..] == pending + [] + queue
  {
  }

  lemma WorkKeepsOrder(c: Config, s: State, flag: bool)
    requires s.accepted == s.stored + Unwritten(s)
    ensures var t := WorkerStep(c, s, flag);
      t.accepted == t.stored + Unwritten(t) && t.accepted == s.accepted && s.stored <= t.stored
  {
    hide Unwritten;
    var t := WorkerStep(c, s, flag);
    if Writes(s, flag) {
      WriteTakesTheOldest(c, s);
    } else {
      MovesKeepOrder(c, s, flag);
    }
  }

  lemma WorkKeepsInv(c: Config, s: State, flag: bool)
    requires Inv(c, s)
    ensures Inv(c, WorkerStep(c, s, flag)) && s.stored <= WorkerStep(c, s, flag).stored
    ensures WorkerStep(c, s, flag).accepted == s.accepted
  {
    hide Unwritten;
    WorkKeepsOrder(c, s, flag);
  }

  lemma StepKeepsInv(c: Config, s: State, a: Action)
    requires Inv(c, s)
    ensures Inv(c, Apply(c, s, a))
    ensures s.stored <= Apply(c, s, a).stored && s.accepted <= Apply(c, s, a).accepted
  {
    if a.Work? {
      WorkKeepsInv(c, s, a.flag);
    } else if a.PutNowait? && a.p in s.checked && |s.queue| < c.capacity {
      var t := Apply(c, s, a);
      assert Unwritten(t) == Unwritten(s) + [a.x];
      assert t.stored + Unwritten(t) == s.stored + Unwritten(s) + [a.x];
    }
  }

  lemma {:induction false} RunKeepsInv(c: Config, s: State, acts: seq<Action>)
    requires Inv(c, s)
    ensures Inv(c, Run(c, s, acts))
    ensures s.stored <= Run(c, s, acts).stored && s.accepted <= Run(c, s, acts).accepted
    decreases |acts|
  {
    hide Inv, Apply;
    if acts != [] {
      StepKeepsInv(c, s, acts[0]);
      RunKeepsInv(c, Apply(c, s, acts[0]), acts[1..]);
    }
  }

  /** At every step of every run, what was accepted is, in order, what was written, then the
      pending list, the item in the worker's hand and the queue; so the writes are always a
      prefix of the acceptances, whatever flushes fail, and the queue keeps its bound. */
  lemma Conservation(c: Config, acts: seq<Action>)
    ensures var s := Run(c, INIT, acts);
      s.accepted == s.stored + Unwritten(s) && s.stored <= s.accepted && |s.queue| <= c.capacity
  {
    RunKeepsInv(c, INIT, acts);
  }

  /** The reported backlog (queue size plus pending) counts every accepted batch that is not
      written, except the one item in the worker's hand, and once more the head being popped. */
  lemma PendingCountIsExact(c: Config, acts: seq<Action>)
    ensures var s := Run(c, INIT, acts);
      |s.queue| + |s.pending| == |s.accepted| - |s.stored|
        - (if s.pc.Took? || s.pc.DrainTook? then 1 else 0) + (if s.pc.Popping? then 1 else 0)
  {
    RunKeepsInv(c, INIT, acts);
  }

  lemma {:induction false} RunAppend(c: Config, s: State, a: seq<Action>, b: seq<Action>)
    ensures Run(c, s, a + b) == Run(c, Run(c, s, a), b)
    decreases |a|
  {
    hide Apply;
    if a == [] {
      assert a + b == b;
    } else {
      assert (a + b)[1..] == a[1..] + b;
      RunAppend(c, Apply(c, s, a[0]), a[1..], b);
    }
  }

  lemma OneAction(c: Config, s: State, a: Action)
    ensures Run(c, s, [a]) == Apply(c, s, a)
  {
    assert Run(c, s, [a]) == Run(c, Apply(c, s, a), []);
  }

  lemma TwoActions(c: Config, s: State, a: Action, b: Action)
    ensures Run(c, s, [a, b]) == Apply(c, Apply(c, s, a), b)
  {
    hide Apply;
    assert [a, b][1..] == [b];
    OneAction(c, Apply(c, s, a), b);
  }

  // ----- Shutdown -----

  /** After a shutdown whose flush did not fail, everything accepted is written except the puts
      that landed after the drain last found the queue empty: all is written iff there were none.
      If the flush failed, the pending list is lost as well. */
  lemma ShutdownWritesAllButLate(c: Config, acts: seq<Action>)
    requires Run(c, INIT, acts).pc.Done?
    ensures var s := Run(c, INIT, acts);
      && s.accepted == s.stored + s.pending + s.late
      && (!s.gaveUp ==> s.accepted == s.stored + s.late)
      && (!s.gaveUp ==> (s.accepted == s.stored <==> s.late == []))
  {
    RunKeepsInv(c, INIT, acts);
    var s := Run(c, INIT, acts);
    assert s.accepted == s.stored + (s.pending + [] + s.queue);
    assert s.accepted == s.stored + s.pending + s.late;
  }

  /** Producer 0 passes the closed test, the queue is closed, the drain finds it empty, the
      worker ends, and only then does the producer put. */
  function Race(x: Item): seq<Action> {
    [Check(0), MarkClosed] + [SetStop, Work(true)] + [Work(true), Work(true)] + [PutNowait(0, x)]
  }

  lemma RaceEnds(c: Config, x: Item)
    requires c.Valid()
    ensures Run(c, INIT, Race(x)) == State([x], [], true, true, {}, Done, [], [x], [x], false)
  {
    var a, b, d := [Check(0), MarkClosed], [SetStop, Work(true)], [Work(true), Work(true)];
    hide Run;
    var s1: State := State([], [], true, false, {0}, Top, [], [], [], false);
    TwoActions(c, INIT, Check(0), MarkClosed);
    assert Run(c, INIT, a) == s1;
    var s2: State := s1.(stopped := true, pc := Draining);
    TwoActions(c, s1, SetStop, Work(true));
    assert Run(c, s1, b) == s2;
    TwoActions(c, s2, Work(true), Work(true));
    assert Run(c, s2, d) == s2.(pc := Done);
    OneAction(c, s2.(pc := Done), PutNowait(0, x));
    RunAppend(c, INIT, a, b);
    RunAppend(c, INIT, a + b, d);
    RunAppend(c, INIT, a + b + d, [PutNowait(0, x)]);
    assert {0} - {0} == {};
  }

  /** The closed test and the put are two steps: in that run the batch is accepted, and no
      continuation ever writes it. */
  lemma LatePutIsLost(c: Config, x: Item, more: seq<Action>)
    requires c.Valid()
    ensures Run(c, INIT, Race(x)).accepted == [x] && Run(c, Run(c, INIT, Race(x)), more).stored == []
  {
    hide Run, Race;
    RaceEnds(c, x);
    DoneIsFinal(c, Run(c, INIT, Race(x)), more);
  }

  lemma {:induction false} DoneIsFinal(c: Config, s: State, acts: seq<Action>)
    requires s.pc.Done?
    ensures Run(c, s, acts).pc.Done? && Run(c, s, acts).stored == s.stored
    decreases |acts|
  {
    if acts != [] {
      DoneIsFinal(c, Apply(c, s, acts[0]), acts[1..]);
    }
  }

  // ----- The shutdown terminates -----

  /** Everything that may still pass through the worker once no producer can newly enter. */
  function Load(s: State): nat {
    |s.queue| + |s.checked| + |s.pending| + if s.pc.Took? || s.pc.DrainTook? then 1 else 0
  }

  function Phase(s: State): (p: nat)
    ensures p <= 9
  {
    match s.pc
    case Getting => 9
    case Took(_) => 8
    case Timer => 6
    case Top => 4
    case Draining => 3
    case DrainTook(_) => 3
    case Final => if s.pending != [] then 2 else 0
    case Flushing(back) => (match back case ToTimer => 7 case ToTop => 5 case ToFinal => 1)
    case Popping(back) => (match back case ToTimer => 7 case ToTop => 5 case ToFinal => 1)
    case Done => 0
  }

  function Inner(s: State): nat
  {
    match s.pc
    case Draining => 2 * (|s.queue| + |s.checked|)
    case DrainTook(_) => 2 * (|s.queue| + |s.checked|) + 1
    case Flushing(_) => 2 * |s.pending| + 1
    case Popping(_) => 2 * |s.pending|
    case Final => 1
    case _ => 0
  }

  /** A bound on the worker steps left after the stop flag is set. */
  function StepsLeft(s: State): nat
  {
    Phase(s) * (2 * Load(s) + 2) + Inner(s)
  }

  lemma WorkAddsNoLoad(c: Config, s: State, flag: bool)
    ensures Load(WorkerStep(c, s, flag)) <= Load(s)
  {
    match s.pc
    case Top =>
    case Getting =>
    case Took(_) =>
    case Timer =>
    case Flushing(_) =>
    case Popping(_) =>
    case Draining =>
    case DrainTook(_) =>
    case Final =>
    case Done =>
  }

  lemma InnerIsSmall(s: State)
    ensures Inner(s) <= 2 * Load(s) + 1
  {
  }

  lemma WorkLowersTheRank(c: Config, s: State, flag: bool)
    requires c.Valid() && s.stopped && WorkerStep(c, s, flag) != s
    ensures var t := WorkerStep(c, s, flag);
      Phase(t) < Phase(s) || (Phase(t) == Phase(s) && Inner(t) < Inner(s))
  {
    match s.pc
    case Top =>
    case Getting =>
    case Took(_) =>
    case Timer =>
    case Flushing(_) =>
    case Popping(_) =>
    case Draining =>
    case DrainTook(_) =>
    case Final =>
    case Done =>
  }

  lemma OthersAddNothing(c: Config, s: State, a: Action)
    requires s.closed && !a.Work?
    ensures var t := Apply(c, s, a);
      Phase(t) == Phase(s) && Load(t) <= Load(s) && Inner(t) <= Inner(s)
  {
  }

  lemma StopStepsCountDown(c: Config, s: State, a: Action)
    requires c.Valid() && s.stopped && s.closed
    ensures StepsLeft(Apply(c, s, a)) <= StepsLeft(s) && Apply(c, s, a).stopped
    ensures a.Work? && Apply(c, s, a) != s ==> StepsLeft(Apply(c, s, a)) < StepsLeft(s)
  {
    hide WorkerStep, Load, Phase, Inner;
    var t := Apply(c, s, a);
    WorkKeepsTheStop(c, s, a);
    if !a.Work? {
      OthersAddNothing(c, s, a);
      ProductGrows(Phase(s), 2 * Load(t) + 2, 2 * Load(s) + 2);
    } else if t != s {
      WorkAddsNoLoad(c, s, a.flag);
      InnerIsSmall(t);
      WorkLowersTheRank(c, s, a.flag);
      Weigh(Phase(s), Load(s), Inner(s), Phase(t), Load(t), Inner(t));
    }
  }

  lemma ProductGrows(p: nat, a: nat, b: nat)
    requires a <= b
    ensures p * a <= p * b
  {
  }

  lemma WorkKeepsTheStop(c: Config, s: State, a: Action)
    requires s.stopped
    ensures Apply(c, s, a).stopped
  {
  }

  lemma Weigh(p: nat, l: nat, i: nat, p': nat, l': nat, i': nat)
    requires l' <= l && i' <= 2 * l' + 1 && p <= 9 && (p' < p || (p' == p && i' < i))
    ensures p' * (2 * l' + 2) + i' < p * (2 * l + 2) + i
  {
    assert p' * (2 * l' + 2) <= p' * (2 * l + 2);
    if p' < p { assert (p' + 1) * (2 * l + 2) <= p * (2 * l + 2); }
  }

  /** The number of steps in a run in which the worker gets something done. */
  function WorkerSteps(c: Config, s: State, acts: seq<Action>): nat
    decreases |acts|
  {
    if acts == [] then 0 else
      (if acts[0].Work? && Apply(c, s, acts[0]) != s then 1 else 0) + WorkerSteps(c, Apply(c, s, acts[0]), acts[1..])
  }

  /** Each step of the worker that changes anything counts once. */
  lemma {:induction false} WorkerStepsThen(c: Config, s: State, acts: seq<Action>, a: Action)
    ensures var t := Run(c, s, acts);
      WorkerSteps(c, s, acts + [a]) == WorkerSteps(c, s, acts) + if a.Work? && Apply(c, t, a) != t then 1 else 0
    decreases |acts|
  {
    hide Apply;
    if acts == [] {
      assert [] + [a] == [a] && [a][1..] == [];
    } else {
      assert (acts + [a])[1..] == acts[1..] + [a];
      WorkerStepsThen(c, Apply(c, s, acts[0]), acts[1..], a);
    }
  }

  /** Under every schedule the worker takes a bounded number of steps after close, the bound
      depending only on what is queued, pending and about to be put. */
  lemma {:induction false} ShutdownTerminates(c: Config, s: State, acts: seq<Action>)
    requires c.Valid() && Inv(c, s) && s.stopped
    ensures WorkerSteps(c, s, acts) <= StepsLeft(s)
    decreases |acts|
  {
    if acts != [] {
      StepKeepsInv(c, s, acts[0]);
      StopStepsCountDown(c, s, acts[0]);
      ShutdownTerminates(c, Apply(c, s, acts[0]), acts[1..]);
    }
  }

  /** Until it is done the worker is never stuck, but for a timed get that an item is not there
      for. */
  lemma WorkerCanMove(c: Config, s: State, flag: bool)
    requires !s.pc.Done? && !(flag && s.pc.Getting?)
    ensures Apply(c, s, Work(flag)) != s
  {
    if s.pc.Popping? { assert |s.pending[1..]| < |s.pending|; }
    if s.pc.Flushing? && s.pending == [] { assert Return(s.pc.back) != s.pc; }
  }

  // ----- When a shutdown loses nothing -----

  lemma WorkEntersNothing(c: Config, s: State, flag: bool)
    ensures var t := WorkerStep(c, s, flag);
      && t.closed == s.closed && t.stopped == s.stopped && t.checked == s.checked && t.late == s.late && t.accepted == s.accepted
      && (flag || !s.pc.Flushing? ==> t.gaveUp == s.gaveUp)
  {
  }

  lemma {:induction false} NothingEnters(c: Config, s: State, acts: seq<Action>)
    requires s.closed && s.checked == {}
    ensures var t := Run(c, s, acts); t.closed && t.checked == {} && t.late == s.late && t.accepted == s.accepted
    decreases |acts|
  {
    if acts != [] {
      if acts[0].Work? { WorkEntersNothing(c, s, acts[0].flag); }
      hide WorkerStep;
      NothingEnters(c, Apply(c, s, acts[0]), acts[1..]);
    }
  }

  /** The worker on its own, its writes all succeeding, comes to its end. */
  lemma {:induction false} WorkerCanEnd(c: Config, s: State) returns (acts: seq<Action>)
    requires c.Valid() && Inv(c, s) && s.stopped && s.closed && !s.gaveUp
    ensures var t := Run(c, s, acts); t.pc.Done? && !t.gaveUp && t.checked == s.checked && t.late == s.late
    decreases StepsLeft(s)
  {
    hide WorkerStep, StepsLeft;
    acts := [];
    if !s.pc.Done? {
      var work := Work(!s.pc.Getting?);
      var t := Apply(c, s, work);
      WorkerCanMove(c, s, work.flag);
      StepKeepsInv(c, s, work);
      StopStepsCountDown(c, s, work);
      WorkEntersNothing(c, s, work.flag);
      var rest := WorkerCanEnd(c, t);
      acts := [work] + rest;
      assert acts[1..] == rest;
    }
  }

  /** Every way on that ends without a failed write in the last flush stores all that was ever
      accepted. */
  ghost predicate LosesNothing(c: Config, s: State) {
    forall more :: Run(c, s, more).pc.Done? && !Run(c, s, more).gaveUp ==> Run(c, s, more).stored == Run(c, s, more).accepted
  }

  /** A closed queue loses nothing exactly when no producer stands between its closed test and
      its put, and none has put too late already. */
  lemma ShutdownLosesNothingExactly(c: Config, acts: seq<Action>)
    requires c.Valid() && Run(c, INIT, acts).closed && !Run(c, INIT, acts).gaveUp
    ensures LosesNothing(c, Run(c, INIT, acts)) <==> Run(c, INIT, acts).checked == {} && Run(c, INIT, acts).late == []
  {
    var s := Run(c, INIT, acts);
    RunKeepsInv(c, INIT, acts);
    if s.checked == {} && s.late == [] {
      forall more | Run(c, s, more).pc.Done? && !Run(c, s, more).gaveUp ensures Run(c, s, more).stored == Run(c, s, more).accepted {
        NothingEnters(c, s, more);
        RunKeepsInv(c, s, more);
      }
    } else {
      var more := SomethingIsLost(c, s);
    }
  }

  lemma SomethingIsLost(c: Config, s: State) returns (more: seq<Action>)
    requires c.Valid() && Inv(c, s) && s.closed && !s.gaveUp && (s.checked != {} || s.late != [])
    ensures Run(c, s, more).pc.Done? && !Run(c, s, more).gaveUp && Run(c, s, more).stored != Run(c, s, more).accepted
  {
    var t := Apply(c, s, SetStop);
    StepKeepsInv(c, s, SetStop);
    OneAction(c, s, SetStop);
    var rest := WorkerCanEnd(c, t);
    var u := Run(c, t, rest);
    RunKeepsInv(c, t, rest);
    RunAppend(c, s, [SetStop], rest);
    more := [SetStop] + rest;
    assert u.accepted == u.stored + ([] + [] + u.late) by {
      assert u.queue == u.late && u.pending == [];
    }
    if s.late == [] {
      var p :| p in s.checked;
      hide Run, WorkerStep;
      RunAppend(c, s, more, [PutNowait(p, 0)]);
      OneAction(c, u, PutNowait(p, 0));
      more := more + [PutNowait(p, 0)];
      assert |u.accepted + [0]| != |u.stored|;
    } else {
      assert |u.accepted| == |u.stored| + |u.late|;
    }
  }

  /** At the moment of close: the shutdown that follows can lose an accepted batch exactly when a
      producer has passed the closed test and not put yet. */
  lemma CloseLosesNothingExactly(c: Config, acts: seq<Action>)
    requires c.Valid() && !Run(c, INIT, acts).closed
    ensures LosesNothing(c, Apply(c, Run(c, INIT, acts), MarkClosed)) <==> Run(c, INIT, acts).checked == {}
  {
    RunKeepsInv(c, INIT, acts);
    RunAppend(c, INIT, acts, [MarkClosed]);
    OneAction(c, Run(c, INIT, acts), MarkClosed);
    hide Run, LosesNothing;
    ShutdownLosesNothingExactly(c, acts + [MarkClosed]);
  }

  // ----- The code -----

  /** The worker steps of one flush that writes n items and then stops. */
  function FlushSteps(n: nat): seq<Action> {
    if n == 0 then [Work(false)] else [Work(true), Work(true)] + FlushSteps(n - 1)
  }

  /** A producer that puts one batch undisturbed. */
  function PutSteps(x: Item): seq<Action> { [Check(0), PutNowait(0, x)] }

  /** The worker takes an item, or waits in vain. */
  function GetSteps(found: bool): seq<Action> {
    if found then [Work(true), Work(true), Work(true)] else [Work(true), Work(false)]
  }

  lemma PutIsAStore(c: Config, s: State, x: Item)
    requires !s.closed && s.checked == {} && !PastDrain(s.pc)
    ensures Run(c, s, PutSteps(x))
         == if |s.queue| >= c.capacity then s else s.(queue := s.queue + [x], accepted := s.accepted + [x])
  {
    TwoActions(c, s, Check(0), PutNowait(0, x));
    assert s.checked + {0} - {0} == {};
  }

  lemma GetIsARun(c: Config, s: State)
    requires s.pc.Top? && !s.stopped
    ensures Run(c, s, GetSteps(s.queue != []))
         == if s.queue == [] then s.(pc := Timer) else
              s.(queue := s.queue[1..], pending := s.pending + [s.queue[0]],
                 pc := if |s.pending| + 1 >= c.batchSize then Flushing(ToTimer) else Timer)
  {
    TwoActions(c, s, Work(true), Work(s.queue != []));
    var t := Apply(c, Apply(c, s, Work(true)), Work(s.queue != []));
    if s.queue != [] {
      assert [Work(true), Work(true)] + [Work(true)] == GetSteps(true);
      RunAppend(c, s, [Work(true), Work(true)], [Work(true)]);
      OneAction(c, t, Work(true));
    }
  }

  lemma CloseIsARun(c: Config, s: State)
    requires s.pc.Top?
    ensures Run(c, s, [MarkClosed, SetStop] + [Work(true)]) == s.(closed := true, stopped := true, pc := Draining)
  {
    TwoActions(c, s, MarkClosed, SetStop);
    RunAppend(c, s, [MarkClosed, SetStop], [Work(true)]);
    OneAction(c, Apply(c, Apply(c, s, MarkClosed), SetStop), Work(true));
  }

  lemma DrainIsARun(c: Config, s: State)
    requires s.pc.Draining? && s.queue != []
    ensures Run(c, s, [Work(true), Work(true)]) == s.(queue := s.queue[1..], pending := s.pending + [s.queue[0]])
  {
    TwoActions(c, s, Work(true), Work(true));
  }

  /** One pass of the worker loop: what producers put first, which writes succeed, and what the
      clock says after the flush of a full batch, at the timer's test and after the timed flush. */
  datatype Turn = Turn(
    arrivals: seq<Item>,
    batchWrites: nat -> bool,
    timedWrites: nat -> bool,
    batchFlushed: int,
    now: int,
    timedFlushed: int)

  /** n of these items are written: all of them, or those before the first write that fails. */
  predicate WrittenUpTo(n: nat, items: seq<Item>, writes: nat -> bool) {
    && n <= |items| && (forall i :: 0 <= i < n ==> writes(i))
    && (n < |items| ==> !writes(n))
  }

  /** The lists of the storage object and when it last flushed. */
  datatype Buffers = Buffers(queue: seq<Item>, pending: seq<Item>, stored: seq<Item>, lastFlush: int)

  /** One item was taken from the queue, if there is one, and if that filled a batch n items of it
      were written. */
  predicate OneTaken(c: Config, b: Buffers, d: Buffers, n: nat, writes: nat -> bool, flushed: int) {
    var taken := b.pending + (if b.queue == [] then [] else [b.queue[0]]);
    var full := b.queue != [] && |taken| >= c.batchSize;
    && n <= |taken| && (if full then WrittenUpTo(n, taken, writes) else n == 0)
    && d == Buffers(if b.queue == [] then [] else b.queue[1..], taken[n..], b.stored + taken[..n], if full then flushed else b.lastFlush)
  }

  /** If the interval has passed since the last flush, m of the pending items were written; else
      nothing was. */
  predicate FlushedIfDue(interval: int, now: int, b: Buffers, d: Buffers, m: nat, writes: nat -> bool, flushed: int) {
    var due := now - b.lastFlush >= interval;
    && m <= |b.pending| && (if due then WrittenUpTo(m, b.pending, writes) else m == 0)
    && d == Buffers(b.queue, b.pending[m..], b.stored + b.pending[..m], if due && b.pending != [] then flushed else b.lastFlush)
  }

  function Fitting(c: Config, queued: nat, arrivals: seq<Item>): seq<Item>
    requires queued <= c.capacity
  {
    if queued + |arrivals| <= c.capacity then arrivals else arrivals[..c.capacity - queued]
  }

  /** One pass of the worker loop: the arrivals that fit are queued, one item is taken and a full
      batch written, and then what is pending if it is time. */
  ghost predicate TurnDone(c: Config, interval: int, turn: Turn, b: Buffers, d: Buffers) {
    |b.queue| <= c.capacity &&
    exists mid, n, m ::
      && OneTaken(c, b.(queue := b.queue + Fitting(c, |b.queue|, turn.arrivals)), mid, n, turn.batchWrites, turn.batchFlushed)
      && FlushedIfDue(interval, turn.now, mid, d, m, turn.timedWrites, turn.timedFlushed)
  }

  /** The passes one after another: `trace` has the state before each and after the last. */
  ghost predicate TurnsDone(c: Config, interval: int, turns: seq<Turn>, trace: seq<Buffers>) {
    && |trace| == |turns| + 1
    && forall i :: 0 <= i < |turns| ==> TurnDone(c, interval, turns[i], trace[i], trace[i + 1])
  }

  /** Neither a full batch nor the interval: nothing is written. Either one with a first write that
      succeeds: something is, and a turn that is due and fails no write leaves nothing pending. */
  lemma WrittenWhenDue(c: Config, interval: int, turn: Turn, b: Buffers, mid: Buffers, d: Buffers, n: nat, m: nat)
    requires OneTaken(c, b, mid, n, turn.batchWrites, turn.batchFlushed)
    requires FlushedIfDue(interval, turn.now, mid, d, m, turn.timedWrites, turn.timedFlushed)
    ensures |b.pending| + 1 < c.batchSize && turn.now - b.lastFlush < interval ==>
      d.stored == b.stored && d.pending == b.pending + b.queue[..|b.queue| - |d.queue|] && d.lastFlush == b.lastFlush
    ensures b.queue != [] && |b.pending| + 1 >= c.batchSize && turn.batchWrites(0) ==> |d.stored| > |b.stored|
    ensures b.queue != [] && |b.pending| + 1 >= c.batchSize && (forall i :: turn.batchWrites(i)) ==> d.pending == []
    ensures turn.now - b.lastFlush >= interval && |b.pending| + 1 < c.batchSize && (forall i :: turn.timedWrites(i)) ==> d.pending == []
  {
    var taken := b.pending + (if b.queue == [] then [] else [b.queue[0]]);
    assert taken[0..] == taken && taken[..0] == [];
  }

  class BufferedTrackingStorage {
    const c: Config
    const interval: int
    var queue: seq<Item>
    var pending: seq<Item>
    var closed: bool
    var lastFlush: int
    var stored: seq<Item>
    ghost var accepted: seq<Item>

    ghost predicate Valid() reads this {
      c.Valid() && |queue| <= c.capacity && accepted == stored + pending + queue
    }

    ghost function Now(): Buffers reads this {
      Buffers(queue, pending, stored, lastFlush)
    }

    /** The state of the machine while only this thread runs. */
    ghost function View(pc: Pc, gaveUp: bool): State
      requires !pc.Popping?
      reads this
    {
      RawState.State(queue, pending, closed, closed, {}, pc, stored, accepted, [], gaveUp)
    }

    constructor (flushInterval: int, capacity: int, flushBatchSize: int, now: int)
      ensures Valid() && accepted == [] && !closed && lastFlush == now
      ensures interval == (if flushInterval < 1 then 1 else flushInterval)
      ensures c.capacity == (if capacity < 1 then 1 else capacity)
      ensures c.batchSize == (if flushBatchSize < 1 then 1 else flushBatchSize)
    {
      c := Config(if capacity < 1 then 1 else capacity, if flushBatchSize < 1 then 1 else flushBatchSize);
      interval, lastFlush := if flushInterval < 1 then 1 else flushInterval, now;
      queue, pending, closed, stored, accepted := [], [], false, [], [];
    }

    /** A batch is either accepted, at the end of the queue, or refused with nothing changed. */
    method StoreTrackingLogs(x: Item) returns (r: Result<Item>)
      requires Valid()
      modifies this`queue, this`accepted
      ensures Valid()
      ensures r.Ok? <==> !closed && |old(queue)| < c.capacity
      ensures r.Ok? ==> queue == old(queue) + [x] && accepted == old(accepted) + [x]
      ensures r.Err? ==> queue == old(queue) && accepted == old(accepted)
    {
      if closed { return Err("Tracking queue is closed"); }
      if |queue| >= c.capacity { return Err("Tracking queue is full"); }
      queue := queue + [x];
      accepted := accepted + [x];
      return Ok(x);
    }

    /** Writes pending items oldest first, n of them, up to the first write that fails, and is
        the corresponding run of the machine. */
    method FlushPendingOnce(writes: nat -> bool, ghost back: Back) returns (flushed: bool, n: nat)
      requires Valid()
      modifies this`pending, this`stored
      ensures Valid()
      ensures WrittenUpTo(n, old(pending), writes)
      ensures stored == old(stored) + old(pending)[..n] && pending == old(pending)[n..]
      ensures flushed <==> pending == []
      ensures Run(c, old(View(Flushing(back), false)), FlushSteps(n))
           == if flushed || !back.ToFinal? then View(Return(back), false) else View(Done, true)
    {
      n := 0;
      ghost var before := View(Flushing(back), false);
      while pending != []
        invariant n <= |old(pending)| && forall i :: 0 <= i < n ==> writes(i)
        invariant stored == old(stored) + old(pending)[..n] && pending == old(pending)[n..] && Valid()
        decreases |pending|
      {
        if !writes(n) {
          FlushIsARun(c, before, n);
          return false, n;
        }
        stored := stored + [pending[0]];
        pending := pending[1..];
        n := n + 1;
      }
      FlushIsARun(c, before, n);
      return true, n;
    }

    /** One pass of the worker loop. The first k arrivals that fit are accepted in order, one item
        is taken and a full batch written, and then what is pending if it is time; `mid` is the
        state in between. All of it is a run of the machine. */
    method TakeTurn(turn: Turn) returns (k: nat, n: nat, m: nat, ghost mid: Buffers, ghost acts: seq<Action>)
      requires Valid() && !closed
      modifies this`queue, this`pending, this`stored, this`accepted, this`lastFlush
      ensures Valid() && old(stored) <= stored
      ensures Run(c, old(View(Top, false)), acts) == View(Top, false)
      ensures k <= |turn.arrivals| && turn.arrivals[..k] == Fitting(c, |old(queue)|, turn.arrivals)
      ensures accepted == old(accepted) + turn.arrivals[..k]
      ensures OneTaken(c, old(Now()).(queue := old(queue) + turn.arrivals[..k]), mid, n, turn.batchWrites, turn.batchFlushed)
      ensures FlushedIfDue(interval, turn.now, mid, Now(), m, turn.timedWrites, turn.timedFlushed)
      ensures TurnDone(c, interval, turn, old(Now()), Now())
    {
      hide Run, Apply, WrittenUpTo, OneTaken, FlushedIfDue;
      ghost var start := View(Top, false);
      k, acts := Arrive(turn.arrivals);
      n, acts := TakeOne(turn.batchWrites, turn.batchFlushed, acts, start);
      mid := Now();
      m, acts := FlushIfDue(turn.now, turn.timedWrites, turn.timedFlushed, acts, start);
    }

    /** One item moves to the pending list, if there is one, and a full batch is flushed. */
    method TakeOne(writes: nat -> bool, flushed: int, ghost acts: seq<Action>, ghost start: State)
      returns (n: nat, ghost more: seq<Action>)
      requires Valid() && !closed && Run(c, start, acts) == View(Top, false)
      modifies this`queue, this`pending, this`stored, this`lastFlush
      ensures Valid() && old(stored) <= stored && Run(c, start, more) == View(Timer, false)
      ensures OneTaken(c, old(Now()), Now(), n, writes, flushed)
    {
      hide Run, Apply, FlushSteps, GetSteps, WrittenUpTo;
      GetIsARun(c, View(Top, false));
      RunAppend(c, start, acts, GetSteps(queue != []));
      n, more := 0, acts + GetSteps(queue != []);
      if queue != [] {
        assert queue == [queue[0]] + queue[1..];
        pending, queue := pending + [queue[0]], queue[1..];
        if |pending| >= c.batchSize {
          var ok;
          ok, n := FlushPendingOnce(writes, ToTimer);
          lastFlush := flushed;
          RunAppend(c, start, more, FlushSteps(n));
          more := more + FlushSteps(n);
        }
      }
    }

    /** What is pending is flushed if the interval has passed since the last flush. */
    method FlushIfDue(now: int, writes: nat -> bool, flushed: int, ghost acts: seq<Action>, ghost start: State)
      returns (m: nat, ghost more: seq<Action>)
      requires Valid() && Run(c, start, acts) == View(Timer, false)
      modifies this`pending, this`stored, this`lastFlush
      ensures Valid() && old(stored) <= stored && Run(c, start, more) == View(Top, false)
      ensures FlushedIfDue(interval, now, old(Now()), Now(), m, writes, flushed)
    {
      hide Run, Apply, FlushSteps;
      var due := now - lastFlush >= interval;
      TimerIsAStep(c, View(Timer, false), due);
      RunAppend(c, start, acts, [Work(due)]);
      m, more := 0, acts + [Work(due)];
      if pending != [] && due {
        var ok;
        ok, m := FlushPendingOnce(writes, ToTop);
        lastFlush := flushed;
        RunAppend(c, start, more, FlushSteps(m));
        more := more + FlushSteps(m);
      }
    }

    /** Producers put these batches one after another. */
    method Arrive(arrivals: seq<Item>) returns (k: nat, ghost acts: seq<Action>)
      requires Valid() && !closed
      modifies this`queue, this`accepted
      ensures Valid() && Run(c, old(View(Top, false)), acts) == View(Top, false)
      ensures k == if |old(queue)| + |arrivals| <= c.capacity then |arrivals| else c.capacity - |old(queue)|
      ensures accepted == old(accepted) + arrivals[..k] && queue == old(queue) + arrivals[..k]
    {
      hide Apply, PutSteps;
      k, acts := 0, [];
      ghost var start := View(Top, false);
      for i := 0 to |arrivals|
        invariant Valid() && pending == old(pending) && stored == old(stored)
        invariant k == if |old(queue)| + i <= c.capacity then i else c.capacity - |old(queue)|
        invariant accepted == old(accepted) + arrivals[..k] && queue == old(queue) + arrivals[..k]
        invariant Run(c, start, acts) == View(Top, false)
      {
        PutIsAStore(c, View(Top, false), arrivals[i]);
        RunAppend(c, start, acts, PutSteps(arrivals[i]));
        acts := acts + PutSteps(arrivals[i]);
        var r := StoreTrackingLogs(arrivals[i]);
        if r.Ok? {
          assert arrivals[..k + 1] == arrivals[..k] + [arrivals[i]];
          k := k + 1;
        }
      }
    }

    /** The worker from start to end: its loop, then close, the drain and the last flush; all of
        it is a run of the machine to its end. Whatever failed before, if the last flush succeeds
        then all that was accepted is written, in order; otherwise exactly the pending tail is
        not. */
    method RunWorker(turns: seq<Turn>, lastWrites: nat -> bool)
      returns (complete: bool, ghost acts: seq<Action>, ghost trace: seq<Buffers>, ghost n: nat)
      requires Valid() && !closed
      modifies this
      ensures Valid() && closed && queue == []
      ensures Run(c, old(View(Top, false)), acts) == View(Done, !complete)
      ensures old(accepted) <= accepted && old(stored) <= stored && accepted == stored + pending
      ensures complete <==> stored == accepted
      ensures TurnsDone(c, interval, turns, trace) && trace[0] == old(Now())
      ensures var last := trace[|turns|]; var left := last.pending + last.queue;
        WrittenUpTo(n, left, lastWrites) && stored == last.stored + left[..n] && pending == left[n..]
    {
      hide Run, Apply, FlushSteps, TurnDone, WrittenUpTo;
      ghost var start := View(Top, false);
      acts, trace := [], [Now()];
      NoActions(c, start);
      for i := 0 to |turns|
        invariant Valid() && !closed && old(accepted) <= accepted && old(stored) <= stored
        invariant Run(c, start, acts) == View(Top, false)
        invariant TurnsDone(c, interval, turns[..i], trace) && trace[0] == old(Now()) && trace[i] == Now()
      {
        ghost var more;
        var k, written, flushed;
        ghost var mid;
        k, written, flushed, mid, more := TakeTurn(turns[i]);
        RunAppend(c, start, acts, more);
        acts, trace := acts + more, trace + [Now()];
        assert turns[..i + 1] == turns[..i] + [turns[i]];
      }
      assert turns[..|turns|] == turns;
      CloseIsARun(c, View(Top, false));
      RunAppend(c, start, acts, [MarkClosed, SetStop] + [Work(true)]);
      acts := acts + ([MarkClosed, SetStop] + [Work(true)]);
      closed := true;
      ghost var more := Drain(acts, start);
      acts := more;
      complete, acts, n := FlushAtTheEnd(lastWrites, acts, start);
    }

    method Drain(ghost acts: seq<Action>, ghost start: State) returns (ghost more: seq<Action>)
      requires Valid() && closed && Run(c, start, acts) == View(Draining, false)
      modifies this`queue, this`pending
      ensures Valid() && queue == [] && pending == old(pending) + old(queue)
      ensures Run(c, start, more) == View(Final, false)
    {
      hide Run, Apply;
      more := acts;
      while queue != []
        invariant Valid() && pending + queue == old(pending) + old(queue) && Run(c, start, more) == View(Draining, false)
        decreases |queue|
      {
        assert queue == [queue[0]] + queue[1..];
        DrainIsARun(c, View(Draining, false));
        RunAppend(c, start, more, [Work(true), Work(true)]);
        more := more + [Work(true), Work(true)];
        pending, queue := pending + [queue[0]], queue[1..];
      }
      FinalIsAStep(c, View(Draining, false));
      RunAppend(c, start, more, [Work(true)]);
      more := more + [Work(true)];
    }

    /** The shutdown flush gives up at the first failure. */
    method FlushAtTheEnd(lastWrites: nat -> bool, ghost acts: seq<Action>, ghost start: State)
      returns (complete: bool, ghost more: seq<Action>, ghost n: nat)
      requires Valid() && closed && queue == [] && Run(c, start, acts) == View(Final, false)
      modifies this`pending, this`stored
      ensures Valid() && old(stored) <= stored && (complete <==> pending == [])
      ensures Run(c, start, more) == View(Done, !complete)
      ensures WrittenUpTo(n, old(pending), lastWrites) && stored == old(stored) + old(pending)[..n] && pending == old(pending)[n..]
    {
      hide Run, Apply, FlushSteps;
      complete, more, n := true, acts, 0;
      while complete && pending != []
        invariant Valid() && old(stored) <= stored && (!complete ==> pending != [])
        invariant n <= |old(pending)| && stored == old(stored) + old(pending)[..n] && pending == old(pending)[n..]
        invariant (n == 0 && complete) || WrittenUpTo(n, old(pending), lastWrites)
        invariant n > 0 && complete ==> pending == []
        invariant Run(c, start, more) == if complete then View(Final, false) else View(Done, true)
        decreases complete, |pending|
      {
        FinalIsAStep(c, View(Final, false));
        RunAppend(c, start, more, [Work(true)]);
        more := more + [Work(true)];
        var k;
        complete, k := FlushPendingOnce(lastWrites, ToFinal);
        n := k;
        RunAppend(c, start, more, FlushSteps(n));
        more := more + FlushSteps(n);
      }
      if complete {
        FinalIsAStep(c, View(Final, false));
        RunAppend(c, start, more, [Work(true)]);
        more := more + [Work(true)];
      }
    }
  }

  lemma NoActions(c: Config, s: State)
    ensures Run(c, s, []) == s
  {
  }

  lemma TimerIsAStep(c: Config, s: State, due: bool)
    requires s.pc.Timer?
    ensures Run(c, s, [Work(due)]) == s.(pc := if s.pending != [] && due then Flushing(ToTop) else Top)
  {
    OneAction(c, s, Work(due));
  }

  lemma FinalIsAStep(c: Config, s: State)
    requires s.pc.Final? || (s.pc.Draining? && s.queue == [])
    ensures Run(c, s, [Work(true)])
         == s.(pc := if s.pc.Draining? then Final else if s.pending == [] then Done else Flushing(ToFinal))
  {
    OneAction(c, s, Work(true));
  }

  lemma OneWrite(c: Config, s: State, rest: seq<Action>)
    requires s.pc.Flushing? && s.pending != []
    ensures Run(c, s, [Work(true), Work(true)] + rest)
         == Run(c, s.(stored := s.stored + [s.pending[0]], pending := s.pending[1..]), rest)
  {
    var acts := [Work(true), Work(true)] + rest;
    var popping := s.(stored := s.stored + [s.pending[0]], pc := Popping(s.pc.back));
    assert acts[1..] == [Work(true)] + rest && acts[1..][1..] == rest;
    assert Apply(c, s, Work(true)) == popping;
    assert Run(c, popping, acts[1..]) == Run(c, Apply(c, popping, Work(true)), rest);
  }

  lemma FlushStops(c: Config, s: State)
    requires s.pc.Flushing?
    ensures Run(c, s, [Work(false)])
        == if s.pending == [] || !s.pc.back.ToFinal? then s.(pc := Return(s.pc.back)) else s.(pc := Done, gaveUp := true)
  {
    assert Run(c, s, [Work(false)]) == Run(c, Apply(c, s, Work(false)), []);
  }

  lemma {:induction false} FlushIsARun(c: Config, s: State, n: nat)
    requires s.pc.Flushing? && n <= |s.pending|
    ensures var t := s.(stored := s.stored + s.pending[..n], pending := s.pending[n..]);
      Run(c, s, FlushSteps(n))
        == if n == |s.pending| || !s.pc.back.ToFinal? then t.(pc := Return(s.pc.back)) else t.(pc := Done, gaveUp := true)
    decreases n
  {
    hide Run;
    if n == 0 {
      assert s.stored + s.pending[..0] == s.stored && s.pending[0..] == s.pending;
      FlushStops(c, s);
    } else {
      var u := s.(stored := s.stored + [s.pending[0]], pending := s.pending[1..]);
      OneWrite(c, s, FlushSteps(n - 1));
      FlushIsARun(c, u, n - 1);
      assert s.pending[..n] == [s.pending[0]] + u.pending[..n - 1];
      assert s.stored + s.pending[..n] == u.stored + u.pending[..n - 1];
      assert s.pending[n..] == u.pending[n - 1..];
    }
  }
}
