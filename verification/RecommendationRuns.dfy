/**
  The recommendation run executor: a plan of steps is grouped by segment, every segment is run
  step by step over its profiles in batches, and a ledger row says how the run went. What the
  pipeline answers and which calls fail are given by an oracle; everything else is the code's.
*/
module RecommendationRuns {
  import opened Common

  const MAX_RANKING_PROFILES_PER_BATCH: nat := 100
  const PAGE_SIZE: nat := 500

  datatype Kind = EligibilityPolicy | Ranking | Unsupported

  datatype Step = Step(kind: Kind, tenant: string, segment: string, agent: string, candidates: seq<string>, config: int)

  datatype Item = Item(id: string, rank: nat, details: int)

  /** Rows are kept by (tenant, segment, run); within one run, by their other key columns. */
  datatype RunKey = RunKey(tenant: string, segment: string, run: string)
  datatype RowKey = RowKey(profile: string, agent: string, item: string)
  type Table = map<RowKey, Item>

  datatype Status = Running | Succeeded | Failed
  datatype RunRow = RunRow(status: Status, profiles: nat, steps: nat, processed: nat, written: nat)

  datatype Db = Db(rows: map<RunKey, Table>, runs: map<RunKey, RunRow>)

  /** A call that fails outside the steps: loading the profiles, starting the run, marking it
      failed, finishing it, or clearing the cache afterwards. */
  datatype Fault = NoFault | AtLoad | AtStart | AtMark | AtFinish | AtCache

  /** `rank` is None where the pipeline raises, `trouble` says that embedding, executing or
      inserting the batch that starts there raises, `prepared` that the step's embeddings are
      ready, and `update` counts the profiles an eligibility step changes, or raises. */
  datatype Oracle = Oracle(
    maxCandidates: nat,
    profiles: (string, string) -> seq<string>,
    rank: (Step, string) -> Option<seq<Item>>,
    trouble: (Step, nat) -> bool,
    prepared: Step -> bool,
    fault: (string, string) -> Fault,
    update: Step -> Option<nat>)

  // ----- Writing rows -----

  type Entry = (RowKey, Item)

  function Keys(es: seq<Entry>): (ks: seq<RowKey>)
    ensures |ks| == |es|
    ensures forall i :: 0 <= i < |es| ==> ks[i] == es[i].0
  {
    seq(|es|, i requires 0 <= i < |es| => es[i].0)
  }

  /** The rows one by one: a later one overwrites an earlier one of the same key. */
  function UpsertAll(t: Table, es: seq<Entry>): Table {
    if es == [] then t else
      var last := es[|es| - 1];
      UpsertAll(t, es[..|es| - 1])[last.0 := last.1]
  }

  /** Page by page; one statement cannot touch a row twice, so a key that comes twice in a page
      raises and the whole batch is rolled back. */
  function InsertPages(t: Table, es: seq<Entry>): Option<Table>
    decreases |es|
  {
    if es == [] then Some(t) else
      var n := if |es| <= PAGE_SIZE then |es| else PAGE_SIZE;
      if !Distinct(Keys(es[..n])) then None else InsertPages(UpsertAll(t, es[..n]), es[n..])
  }

  lemma {:induction false} UpsertAppend(t: Table, a: seq<Entry>, b: seq<Entry>)
    ensures UpsertAll(t, a + b) == UpsertAll(UpsertAll(t, a), b)
    decreases |b|
  {
    if b == [] {
      assert a + b == a;
    } else {
      UpsertAppend(t, a, b[..|b| - 1]);
      assert (a + b)[..|a + b| - 1] == a + b[..|b| - 1];
    }
  }

  /** The pages together write what the rows one by one would. */
  lemma {:induction false} PagesAreUpserts(t: Table, es: seq<Entry>)
    ensures InsertPages(t, es).Some? <==> PagesDistinct(Keys(es), PAGE_SIZE)
    ensures InsertPages(t, es).Some? ==> InsertPages(t, es).value == UpsertAll(t, es)
    decreases |es|
  {
    if es != [] {
      var n := if |es| <= PAGE_SIZE then |es| else PAGE_SIZE;
      PagesAreUpserts(UpsertAll(t, es[..n]), es[n..]);
      UpsertAppend(t, es[..n], es[n..]);
      assert es == es[..n] + es[n..];
      assert Keys(es)[..n] == Keys(es[..n]) && Keys(es)[n..] == Keys(es[n..]);
    }
  }

  lemma {:induction false} UpsertKeys(es: seq<Entry>)
    ensures UpsertAll(map[], es).Keys == Elements(Keys(es))
  {
    if es != [] {
      var init, last := es[..|es| - 1], es[|es| - 1];
      UpsertKeys(init);
      assert Keys(es) == Keys(init) + [last.0];
    }
  }

  /** As many rows as were written exactly when no key was written twice; never more. */
  lemma RowsAreThoseWritten(es: seq<Entry>)
    ensures |UpsertAll(map[], es)| <= |es|
    ensures |UpsertAll(map[], es)| == |es| <==> Distinct(Keys(es))
  {
    UpsertKeys(es);
    CountElements(Keys(es));
    assert |UpsertAll(map[], es)| == |UpsertAll(map[], es).Keys|;
  }

  // ----- One ranking -----

  function EntriesOf(step: Step, profile: string, items: seq<Item>): (es: seq<Entry>)
    ensures |es| == |items|
    ensures forall i :: 0 <= i < |es| ==> es[i] == (RowKey(profile, step.agent, items[i].id), items[i])
  {
    seq(|items|, i requires 0 <= i < |items| => (RowKey(profile, step.agent, items[i].id), items[i]))
  }

  function RankedEntries(o: Oracle, step: Step, profile: string): seq<Entry> {
    if o.rank(step, profile).Some? then EntriesOf(step, profile, o.rank(step, profile).value) else []
  }

  /** The rows of one step over some profiles, profile by profile. */
  function StepEntries(o: Oracle, step: Step, profiles: seq<string>): seq<Entry> {
    if profiles == [] then [] else
      StepEntries(o, step, profiles[..|profiles| - 1]) + RankedEntries(o, step, profiles[|profiles| - 1])
  }

  /** The simple pass: every step in order, every profile in order. */
  function AllEntries(o: Oracle, steps: seq<Step>, profiles: seq<string>): seq<Entry> {
    if steps == [] then [] else
      AllEntries(o, steps[..|steps| - 1], profiles) + StepEntries(o, steps[|steps| - 1], profiles)
  }

  predicate AllRanked(o: Oracle, step: Step, profiles: seq<string>) {
    forall p :: p in profiles ==> o.rank(step, p).Some?
  }

  lemma {:induction false} StepEntriesAppend(o: Oracle, step: Step, a: seq<string>, b: seq<string>)
    ensures StepEntries(o, step, a + b) == StepEntries(o, step, a) + StepEntries(o, step, b)
    decreases |b|
  {
    if b == [] {
      assert a + b == a;
    } else {
      StepEntriesAppend(o, step, a, b[..|b| - 1]);
      assert (a + b)[..|a + b| - 1] == a + b[..|b| - 1];
    }
  }

  // ----- The batched pass -----

  /** What the loops carry: the rows of this run, the two counters, whether nothing raised, and
      the (step, profile) pairs ranked so far. */
  datatype Pass = Pass(rows: Table, processed: nat, written: nat, ok: bool, ranked: seq<(Step, string)>)

  function Batch(profiles: seq<string>, start: nat): (b: seq<string>)
    requires start < |profiles|
    ensures 0 < |b| <= MAX_RANKING_PROFILES_PER_BATCH
    ensures start + |b| <= |profiles| && b == profiles[start..start + |b|]
  {
    if start + MAX_RANKING_PROFILES_PER_BATCH <= |profiles|
    then profiles[start..start + MAX_RANKING_PROFILES_PER_BATCH] else profiles[start..]
  }

  function Pairs(step: Step, profiles: seq<string>): (ps: seq<(Step, string)>)
    ensures |ps| == |profiles|
    ensures forall i :: 0 <= i < |ps| ==> ps[i] == (step, profiles[i])
  {
    seq(|profiles|, i requires 0 <= i < |profiles| => (step, profiles[i]))
  }

  function RunBatch(o: Oracle, step: Step, batch: seq<string>, start: nat, p: Pass): Pass {
    if o.trouble(step, start) || !AllRanked(o, step, batch) then p.(ok := false) else
      var es := StepEntries(o, step, batch);
      match InsertPages(p.rows, es)
      case None => p.(ok := false)
      case Some(t) => Pass(t, p.processed + |batch|, p.written + |es|, true, p.ranked + Pairs(step, batch))
  }

  function RunBatches(o: Oracle, step: Step, profiles: seq<string>, start: nat, p: Pass): Pass
    decreases |profiles| - start
  {
    if start >= |profiles| || !p.ok then p else
      var batch := Batch(profiles, start);
      RunBatches(o, step, profiles, start + |batch|, RunBatch(o, step, batch, start, p))
  }

  function RunStep(o: Oracle, step: Step, profiles: seq<string>, p: Pass): Pass {
    if !o.prepared(step) then p.(ok := false) else RunBatches(o, step, profiles, 0, p)
  }

  function RunSteps(o: Oracle, steps: seq<Step>, profiles: seq<string>, p: Pass): Pass {
    if steps == [] || !p.ok then p else RunSteps(o, steps[1..], profiles, RunStep(o, steps[0], profiles, p))
  }

  const FRESH := Pass(map[], 0, 0, true, [])

  // ----- The batched pass refines the simple one -----

  ghost predicate Covers(o: Oracle, p: Pass, q: Pass, es: seq<Entry>, pairs: seq<(Step, string)>) {
    && q.rows == UpsertAll(p.rows, es) && q.written == p.written + |es|
    && q.processed == p.processed + |pairs| && q.ranked == p.ranked + pairs
  }

  lemma CoversThen(o: Oracle, p: Pass, q: Pass, r: Pass, es: seq<Entry>, fs: seq<Entry>, a: seq<(Step, string)>, b: seq<(Step, string)>)
    requires Covers(o, p, q, es, a) && Covers(o, q, r, fs, b)
    ensures Covers(o, p, r, es + fs, a + b)
  {
    UpsertAppend(p.rows, es, fs);
    assert p.ranked + (a + b) == (p.ranked + a) + b;
  }

  lemma BatchCovers(o: Oracle, step: Step, batch: seq<string>, start: nat, p: Pass)
    requires RunBatch(o, step, batch, start, p).ok
    ensures Covers(o, p, RunBatch(o, step, batch, start, p), StepEntries(o, step, batch), Pairs(step, batch))
      && AllRanked(o, step, batch)
  {
    PagesAreUpserts(p.rows, StepEntries(o, step, batch));
  }

  lemma FailureStays(o: Oracle, step: Step, profiles: seq<string>, start: nat, p: Pass)
    ensures RunBatches(o, step, profiles, start, p).ok ==> p.ok
  {
  }

  lemma SplitBatch(o: Oracle, step: Step, profiles: seq<string>, start: nat)
    requires start < |profiles|
    ensures var batch := Batch(profiles, start); var rest := profiles[start + |batch|..];
      && profiles[start..] == batch + rest
      && StepEntries(o, step, profiles[start..]) == StepEntries(o, step, batch) + StepEntries(o, step, rest)
      && Pairs(step, profiles[start..]) == Pairs(step, batch) + Pairs(step, rest)
  {
    hide RankedEntries;
    var batch := Batch(profiles, start);
    var rest := profiles[start + |batch|..];
    assert profiles[start..] == batch + rest;
    StepEntriesAppend(o, step, batch, rest);
    assert Pairs(step, batch + rest) == Pairs(step, batch) + Pairs(step, rest);
  }

  lemma {:induction false} BatchesCover(o: Oracle, step: Step, profiles: seq<string>, start: nat, p: Pass)
    requires start <= |profiles| && p.ok && RunBatches(o, step, profiles, start, p).ok
    ensures Covers(o, p, RunBatches(o, step, profiles, start, p), StepEntries(o, step, profiles[start..]), Pairs(step, profiles[start..]))
    decreases |profiles| - start
  {
    hide RunBatch, UpsertAll, StepEntries, AllRanked;
    if start < |profiles| {
      var batch := Batch(profiles, start);
      var q := RunBatch(o, step, batch, start, p);
      var next := start + |batch|;
      FailureStays(o, step, profiles, next, q);
      BatchCovers(o, step, batch, start, p);
      BatchesCover(o, step, profiles, next, q);
      SplitBatch(o, step, profiles, start);
      hide Covers;
      CoversThen(o, p, q, RunBatches(o, step, profiles, next, q), StepEntries(o, step, batch), StepEntries(o, step, profiles[next..]),
                 Pairs(step, batch), Pairs(step, profiles[next..]));
    } else {
      assert profiles[start..] == [];
      NothingCovers(o, step, p);
    }
  }

  lemma NothingCovers(o: Oracle, step: Step, p: Pass)
    ensures Covers(o, p, p, StepEntries(o, step, []), Pairs(step, []))
  {
  }

  function AllPairs(steps: seq<Step>, profiles: seq<string>): seq<(Step, string)> {
    if steps == [] then [] else AllPairs(steps[..|steps| - 1], profiles) + Pairs(steps[|steps| - 1], profiles)
  }

  lemma {:induction false} PairsCount(steps: seq<Step>, profiles: seq<string>)
    ensures |AllPairs(steps, profiles)| == |steps| * |profiles|
  {
    if steps != [] {
      var n := |steps| - 1;
      PairsCount(steps[..n], profiles);
      assert (n + 1) * |profiles| == n * |profiles| + |profiles|;
    }
  }

  lemma {:induction false} AllAppend(o: Oracle, a: seq<Step>, b: seq<Step>, profiles: seq<string>)
    ensures AllEntries(o, a + b, profiles) == AllEntries(o, a, profiles) + AllEntries(o, b, profiles)
    ensures AllPairs(a + b, profiles) == AllPairs(a, profiles) + AllPairs(b, profiles)
    decreases |b|
  {
    hide StepEntries;
    if b == [] {
      assert a + b == a;
    } else {
      var init, last := b[..|b| - 1], b[|b| - 1];
      AllAppend(o, a, init, profiles);
      assert (a + b)[..|a + b| - 1] == a + init && (a + b)[|a + b| - 1] == last;
      Associate(AllEntries(o, a, profiles), AllEntries(o, init, profiles), StepEntries(o, last, profiles));
      Associate(AllPairs(a, profiles), AllPairs(init, profiles), Pairs(last, profiles));
    }
  }

  lemma Associate<T>(a: seq<T>, b: seq<T>, c: seq<T>)
    ensures (a + b) + c == a + (b + c)
  {
  }

  lemma StepCovers(o: Oracle, step: Step, profiles: seq<string>, p: Pass)
    requires p.ok && RunStep(o, step, profiles, p).ok
    ensures Covers(o, p, RunStep(o, step, profiles, p), AllEntries(o, [step], profiles), AllPairs([step], profiles))
  {
    BatchesCover(o, step, profiles, 0, p);
    assert profiles[0..] == profiles && [step][..0] == [];
    assert AllEntries(o, [step], profiles) == StepEntries(o, step, profiles);
    assert AllPairs([step], profiles) == Pairs(step, profiles);
  }

  lemma {:induction false} StepsCover(o: Oracle, steps: seq<Step>, profiles: seq<string>, p: Pass)
    requires p.ok && RunSteps(o, steps, profiles, p).ok
    ensures Covers(o, p, RunSteps(o, steps, profiles, p), AllEntries(o, steps, profiles), AllPairs(steps, profiles))
    decreases |steps|
  {
    if steps == [] {
      assert p.ranked + [] == p.ranked;
    } else {
      hide RunStep, UpsertAll, StepEntries;
      var q, rest := RunStep(o, steps[0], profiles, p), steps[1..];
      StepCovers(o, steps[0], profiles, p);
      StepsCover(o, rest, profiles, q);
      AllAppend(o, [steps[0]], rest, profiles);
      assert [steps[0]] + rest == steps;
      hide Covers;
      CoversThen(o, p, q, RunSteps(o, rest, profiles, q), AllEntries(o, [steps[0]], profiles), AllEntries(o, rest, profiles),
                 AllPairs([steps[0]], profiles), AllPairs(rest, profiles));
    }
  }

  /** A pass in which nothing raises has the rows and the counters of the simple pass over all
      profiles, for every number of them, and ranked each (step, profile) pair exactly once, in
      step order. */
  lemma BatchedRefinesSimple(o: Oracle, steps: seq<Step>, profiles: seq<string>)
    requires RunSteps(o, steps, profiles, FRESH).ok
    ensures var p := RunSteps(o, steps, profiles, FRESH);
      && p.rows == UpsertAll(map[], AllEntries(o, steps, profiles)) && p.written == |AllEntries(o, steps, profiles)|
      && p.processed == |steps| * |profiles| && p.ranked == AllPairs(steps, profiles)
      && |p.rows| <= p.written
      && (|p.rows| == p.written <==> Distinct(Keys(AllEntries(o, steps, profiles))))
  {
    StepsCover(o, steps, profiles, FRESH);
    RowsAreThoseWritten(AllEntries(o, steps, profiles));
    PairsCount(steps, profiles);
    var pairs := AllPairs(steps, profiles);
    assert FRESH.ranked + pairs == pairs;
  }

  // ----- Distinct keys -----

  predicate DistinctItems(o: Oracle, step: Step, profile: string) {
    o.rank(step, profile).Some? ==> Distinct(ItemIds(o.rank(step, profile).value))
  }

  function ItemIds(items: seq<Item>): (ids: seq<string>)
    ensures |ids| == |items|
    ensures forall i :: 0 <= i < |ids| ==> ids[i] == items[i].id
  {
    seq(|items|, i requires 0 <= i < |items| => items[i].id)
  }

  function Agents(steps: seq<Step>): (r: seq<string>)
    ensures |r| == |steps|
    ensures forall i :: 0 <= i < |r| ==> r[i] == steps[i].agent
  {
    seq(|steps|, i requires 0 <= i < |steps| => steps[i].agent)
  }

  /** Distinct profiles, one step per agent and distinct items per ranking. */
  predicate WellFormed(o: Oracle, steps: seq<Step>, profiles: seq<string>) {
    && Distinct(profiles) && Distinct(Agents(steps))
    && forall s, p :: s in steps && p in profiles ==> DistinctItems(o, s, p)
  }

  lemma KeysAppend(a: seq<Entry>, b: seq<Entry>)
    ensures Keys(a + b) == Keys(a) + Keys(b)
  {
  }

  lemma OneRankingDistinct(o: Oracle, step: Step, profile: string)
    requires DistinctItems(o, step, profile)
    ensures Distinct(Keys(RankedEntries(o, step, profile)))
    ensures forall k :: k in Keys(RankedEntries(o, step, profile)) ==> k.profile == profile && k.agent == step.agent
  {
  }

  lemma {:induction false} StepKeysDistinct(o: Oracle, step: Step, profiles: seq<string>)
    requires Distinct(profiles) && forall p :: p in profiles ==> DistinctItems(o, step, p)
    ensures Distinct(Keys(StepEntries(o, step, profiles)))
    ensures forall k :: k in Keys(StepEntries(o, step, profiles)) ==> k.profile in profiles && k.agent == step.agent
  {
    if profiles != [] {
      var init, last := profiles[..|profiles| - 1], profiles[|profiles| - 1];
      StepKeysDistinct(o, step, init);
      OneRankingDistinct(o, step, last);
      hide DistinctItems, RankedEntries;
      var a, b := StepEntries(o, step, init), RankedEntries(o, step, last);
      KeysAppend(a, b);
      assert last !in init;
      DistinctAppend(Keys(a), Keys(b));
    }
  }

  /** Then no key is ever written twice, whatever the batches and pages are. */
  lemma {:induction false} AllKeysDistinct(o: Oracle, steps: seq<Step>, profiles: seq<string>)
    requires WellFormed(o, steps, profiles)
    ensures Distinct(Keys(AllEntries(o, steps, profiles)))
    ensures forall k :: k in Keys(AllEntries(o, steps, profiles)) ==> k.agent in Agents(steps)
  {
    if steps != [] {
      var init, last := steps[..|steps| - 1], steps[|steps| - 1];
      assert Agents(steps) == Agents(init) + [last.agent];
      assert last.agent !in Agents(init);
      AllKeysDistinct(o, init, profiles);
      StepKeysDistinct(o, last, profiles);
      hide DistinctItems, StepEntries;
      var a, b := AllEntries(o, init, profiles), StepEntries(o, last, profiles);
      KeysAppend(a, b);
      DistinctAppend(Keys(a), Keys(b));
    }
  }

  // ----- The rows are the rankings -----

  /** How many items the pipeline ranked. */
  function ItemsFor(o: Oracle, step: Step, profiles: seq<string>): nat {
    if profiles == [] then 0 else
      var last := o.rank(step, profiles[|profiles| - 1]);
      ItemsFor(o, step, profiles[..|profiles| - 1]) + if last.Some? then |last.value| else 0
  }

  function ItemsRanked(o: Oracle, steps: seq<Step>, profiles: seq<string>): nat {
    if steps == [] then 0 else ItemsRanked(o, steps[..|steps| - 1], profiles) + ItemsFor(o, steps[|steps| - 1], profiles)
  }

  /** The pipeline ranked this item for this step and profile, and its row says so. */
  ghost predicate IsRanked(o: Oracle, s: Step, p: string, key: RowKey, item: Item) {
    o.rank(s, p).Some? && item in o.rank(s, p).value && key == RowKey(p, s.agent, item.id)
  }

  lemma {:induction false} StepEntriesAreRankings(o: Oracle, step: Step, profiles: seq<string>)
    ensures |StepEntries(o, step, profiles)| == ItemsFor(o, step, profiles)
    ensures forall key, item :: (key, item) in StepEntries(o, step, profiles) <==>
      exists p :: p in profiles && IsRanked(o, step, p, key, item)
  {
    if profiles != [] {
      var init, last := profiles[..|profiles| - 1], profiles[|profiles| - 1];
      StepEntriesAreRankings(o, step, init);
      var es := RankedEntries(o, step, last);
      assert StepEntries(o, step, profiles) == StepEntries(o, step, init) + es;
      forall key, item ensures (key, item) in es <==> IsRanked(o, step, last, key, item) {
        if IsRanked(o, step, last, key, item) {
          var i :| 0 <= i < |es| && o.rank(step, last).value[i] == item;
          assert es[i] == (key, item);
        }
      }
      assert forall p :: p in profiles <==> p in init || p == last;
    }
  }

  lemma {:induction false} EntriesAreRankings(o: Oracle, steps: seq<Step>, profiles: seq<string>)
    ensures |AllEntries(o, steps, profiles)| == ItemsRanked(o, steps, profiles)
    ensures forall key, item :: (key, item) in AllEntries(o, steps, profiles) <==>
      exists s, p :: s in steps && p in profiles && IsRanked(o, s, p, key, item)
  {
    if steps != [] {
      var init, last := steps[..|steps| - 1], steps[|steps| - 1];
      EntriesAreRankings(o, init, profiles);
      StepEntriesAreRankings(o, last, profiles);
      hide IsRanked, StepEntries;
      assert forall s :: s in steps <==> s in init || s == last;
    }
  }

  /** Each row was written, and each entry has a row. */
  lemma {:induction false} UpsertsAreEntries(es: seq<Entry>)
    ensures forall e :: e in es ==> e.0 in UpsertAll(map[], es)
    ensures forall k :: k in UpsertAll(map[], es) ==> (k, UpsertAll(map[], es)[k]) in es
  {
    if es != [] { UpsertsAreEntries(es[..|es| - 1]); }
  }

  lemma {:induction false} EntriesKeepTheirValues(es: seq<Entry>, e: Entry)
    requires Distinct(Keys(es)) && e in es
    ensures e.0 in UpsertAll(map[], es) && UpsertAll(map[], es)[e.0] == e.1
  {
    var init, last := es[..|es| - 1], es[|es| - 1];
    assert Keys(es) == Keys(init) + [last.0];
    if e in init {
      var i :| 0 <= i < |init| && init[i] == e;
      assert Keys(es)[i] == e.0 && Keys(es)[|es| - 1] == last.0;
      EntriesKeepTheirValues(init, e);
    }
  }

  /** Every item ranked has its row, and every row is an item ranked, with its values. */
  ghost predicate HasTheRankings(o: Oracle, steps: seq<Step>, profiles: seq<string>, rows: Table) {
    && (forall s, p, key, item :: s in steps && p in profiles && IsRanked(o, s, p, key, item) ==> key in rows)
    && (forall key :: key in rows ==> exists s, p :: s in steps && p in profiles && IsRanked(o, s, p, key, rows[key]))
  }

  ghost predicate HasTheValues(o: Oracle, steps: seq<Step>, profiles: seq<string>, rows: Table) {
    forall s, p, key, item :: s in steps && p in profiles && IsRanked(o, s, p, key, item) ==> key in rows && rows[key] == item
  }

  lemma TableHasTheRankings(o: Oracle, steps: seq<Step>, profiles: seq<string>)
    ensures var es := AllEntries(o, steps, profiles);
      && |es| == ItemsRanked(o, steps, profiles) && HasTheRankings(o, steps, profiles, UpsertAll(map[], es))
      && (WellFormed(o, steps, profiles) ==> HasTheValues(o, steps, profiles, UpsertAll(map[], es)))
  {
    var es := AllEntries(o, steps, profiles);
    EntriesAreRankings(o, steps, profiles);
    UpsertsAreEntries(es);
    if WellFormed(o, steps, profiles) { AllKeysDistinct(o, steps, profiles); }
    hide AllEntries, UpsertAll, Keys, WellFormed, IsRanked, Distinct;
    forall s, p, key, item | s in steps && p in profiles && IsRanked(o, s, p, key, item)
      ensures key in UpsertAll(map[], es) && (WellFormed(o, steps, profiles) ==> UpsertAll(map[], es)[key] == item)
    {
      assert (key, item) in es && (key, item).0 in UpsertAll(map[], es);
      if WellFormed(o, steps, profiles) { EntriesKeepTheirValues(es, (key, item)); }
    }
  }

  // ----- When a pass succeeds -----

  /** Nothing of this step raises: its embeddings, a batch, a ranking. */
  predicate NothingRaises(o: Oracle, step: Step, profiles: seq<string>) {
    && o.prepared(step) && (forall p :: p in profiles ==> o.rank(step, p).Some?)
    && forall b :: 0 <= b < |profiles| && b % 100 == 0 ==> !o.trouble(step, b)
  }

  lemma DistinctInserts(t: Table, es: seq<Entry>)
    requires Distinct(Keys(es))
    ensures InsertPages(t, es).Some?
  {
    DistinctHasDistinctPages(Keys(es), PAGE_SIZE);
    PagesAreUpserts(t, es);
  }

  predicate RankedFrom(o: Oracle, step: Step, profiles: seq<string>, i: nat, j: nat)
    requires j <= |profiles|
  {
    forall k :: i <= k < j ==> o.rank(step, profiles[k]).Some?
  }

  lemma BatchRanked(o: Oracle, step: Step, profiles: seq<string>, start: nat)
    requires start < |profiles|
    ensures var batch := Batch(profiles, start);
      AllRanked(o, step, batch) <==> RankedFrom(o, step, profiles, start, start + |batch|)
  {
    var batch := Batch(profiles, start);
    assert forall i :: start <= i < start + |batch| ==> profiles[i] == batch[i - start] && profiles[i] in batch;
  }

  lemma BatchSucceedsExactly(o: Oracle, step: Step, profiles: seq<string>, start: nat, p: Pass)
    requires start < |profiles| && Distinct(profiles) && forall x :: x in profiles ==> DistinctItems(o, step, x)
    ensures var batch := Batch(profiles, start);
      RunBatch(o, step, batch, start, p).ok <==> !o.trouble(step, start) && RankedFrom(o, step, profiles, start, start + |batch|)
  {
    var batch := Batch(profiles, start);
    BatchRanked(o, step, profiles, start);
    StepKeysDistinct(o, step, batch);
    DistinctInserts(p.rows, StepEntries(o, step, batch));
    hide InsertPages, StepEntries, AllRanked, RankedFrom, DistinctItems, Distinct, Keys;
  }

  predicate Quiet(o: Oracle, step: Step, i: nat, j: nat) {
    forall b :: i <= b < j && b % 100 == 0 ==> !o.trouble(step, b)
  }

  lemma QuietSplits(o: Oracle, step: Step, i: nat, j: nat, end: nat)
    requires i % 100 == 0 && i < j <= end && (j == i + 100 || (j == end && j <= i + 100))
    ensures Quiet(o, step, i, end) <==> !o.trouble(step, i) && Quiet(o, step, j, end)
    ensures j % 100 == 0 || j == end
  {
  }

  lemma RankedSplits(o: Oracle, step: Step, profiles: seq<string>, i: nat, j: nat)
    requires i <= j <= |profiles|
    ensures RankedFrom(o, step, profiles, i, |profiles|) <==>
      RankedFrom(o, step, profiles, i, j) && RankedFrom(o, step, profiles, j, |profiles|)
  {
  }

  lemma NothingAfterTheEnd(o: Oracle, step: Step, profiles: seq<string>)
    ensures Quiet(o, step, |profiles|, |profiles|) && RankedFrom(o, step, profiles, |profiles|, |profiles|)
  {
  }

  lemma {:induction false} BatchesSucceedExactly(o: Oracle, step: Step, profiles: seq<string>, start: nat, p: Pass)
    requires (start % 100 == 0 || start >= |profiles|) && p.ok
    requires Distinct(profiles) && forall x :: x in profiles ==> DistinctItems(o, step, x)
    ensures RunBatches(o, step, profiles, start, p).ok <==>
      start >= |profiles| || (RankedFrom(o, step, profiles, start, |profiles|) && Quiet(o, step, start, |profiles|))
    decreases |profiles| - start
  {
    hide DistinctItems, RunBatch, Quiet, RankedFrom, Distinct;
    if start < |profiles| {
      var next := start + |Batch(profiles, start)|;
      var q := RunBatch(o, step, Batch(profiles, start), start, p);
      BatchSucceedsExactly(o, step, profiles, start, p);
      QuietSplits(o, step, start, next, |profiles|);
      RankedSplits(o, step, profiles, start, next);
      NothingAfterTheEnd(o, step, profiles);
      assert RunBatches(o, step, profiles, start, p) == RunBatches(o, step, profiles, next, q);
      if q.ok {
        BatchesSucceedExactly(o, step, profiles, next, q);
      } else {
        FailureStays(o, step, profiles, next, q);
      }
    }
  }

  lemma {:induction false} StepsSucceedExactly(o: Oracle, steps: seq<Step>, profiles: seq<string>, p: Pass)
    requires p.ok && Distinct(profiles) && forall s, x :: s in steps && x in profiles ==> DistinctItems(o, s, x)
    ensures RunSteps(o, steps, profiles, p).ok <==> forall s :: s in steps ==> NothingRaises(o, s, profiles)
    decreases |steps|
  {
    if steps != [] {
      var q := RunStep(o, steps[0], profiles, p);
      if o.prepared(steps[0]) { BatchesSucceedExactly(o, steps[0], profiles, 0, p); }
      hide DistinctItems, RunStep, RunBatches;
      assert forall s :: s in steps <==> s == steps[0] || s in steps[1..];
      if q.ok { StepsSucceedExactly(o, steps[1..], profiles, q); }
    }
  }

  // ----- One segment -----

  function RowsAt(db: Db, k: RunKey): Table {
    if k in db.rows then db.rows[k] else map[]
  }

  /** DELETE the rows of the run and upsert its ledger row, in one transaction. */
  function Start(db: Db, k: RunKey, profiles: nat, steps: nat): Db {
    Db(db.rows[k := map[]], db.runs[k := RunRow(Running, profiles, steps, 0, 0)])
  }

  /** UPDATE the ledger row and, for a failure, DELETE the rows, in one transaction. */
  function Finish(db: Db, k: RunKey, status: Status, processed: nat, written: nat): Db {
    if k !in db.runs then db else
      Db(if status.Failed? then db.rows[k := map[]] else db.rows,
         db.runs[k := db.runs[k].(status := status, processed := processed, written := written)])
  }

  predicate CandidatesOk(o: Oracle, steps: seq<Step>) {
    forall s :: s in steps ==> 0 < |s.candidates| <= o.maxCandidates
  }

  datatype SegmentKey = SegmentKey(tenant: string, segment: string)

  datatype Outcome = Done(processed: nat, written: nat) | Raised

  function RunSegment(o: Oracle, db: Db, run: string, g: SegmentKey, steps: seq<Step>): (Db, Outcome) {
    var k, fault := RunKey(g.tenant, g.segment, run), o.fault(g.tenant, g.segment);
    if !CandidatesOk(o, steps) || fault.AtLoad? || fault.AtStart? then (db, Raised) else
      var profiles := o.profiles(g.tenant, g.segment);
      var started := Start(db, k, |profiles|, |steps|);
      var p := RunSteps(o, steps, profiles, FRESH);
      var filled := started.(rows := started.rows[k := p.rows]);
      if !p.ok then
        (if fault.AtMark? then filled else Finish(filled, k, Failed, p.processed, p.written), Raised)
      else if fault.AtFinish? then (filled, Raised)
      else (Finish(filled, k, Succeeded, p.processed, p.written), if fault.AtCache? then Raised else Done(p.processed, p.written))
  }

  predicate Same(db: Db, after: Db, x: RunKey) {
    && RowsAt(after, x) == RowsAt(db, x) && (x in after.rows <==> x in db.rows) && (x in after.runs <==> x in db.runs)
    && (x in db.runs ==> after.runs[x] == db.runs[x])
  }

  ghost predicate OthersUntouched(db: Db, after: Db, k: RunKey) {
    forall x :: x != k ==> Same(db, after, x)
  }

  /** The segment gets as far as starting its run. */
  predicate Entered(o: Oracle, g: SegmentKey, steps: seq<Step>) {
    CandidatesOk(o, steps) && !o.fault(g.tenant, g.segment).AtLoad? && !o.fault(g.tenant, g.segment).AtStart?
  }

  /** FAILED has no rows; SUCCEEDED has those of the simple pass, and counts them. */
  ghost predicate Clean(o: Oracle, db: Db, k: RunKey, steps: seq<Step>) {
    var profiles, all := o.profiles(k.tenant, k.segment), AllEntries(o, steps, o.profiles(k.tenant, k.segment));
    && k in db.runs && db.runs[k].profiles == |profiles| && db.runs[k].steps == |steps|
    && (db.runs[k].status.Failed? ==> RowsAt(db, k) == map[])
    && (db.runs[k].status.Succeeded? ==>
          && RowsAt(db, k) == UpsertAll(map[], all) && db.runs[k].written == |all|
          && db.runs[k].processed == |steps| * |profiles|
          && |RowsAt(db, k)| <= db.runs[k].written
          && (|RowsAt(db, k)| == db.runs[k].written <==> Distinct(Keys(all))))
  }

  lemma SegmentTouchesItself(o: Oracle, db: Db, run: string, g: SegmentKey, steps: seq<Step>)
    ensures OthersUntouched(db, RunSegment(o, db, run, g, steps).0, RunKey(g.tenant, g.segment, run))
    ensures !Entered(o, g, steps) ==> RunSegment(o, db, run, g, steps) == (db, Raised)
  {
    hide CandidatesOk, RunSteps;
  }

  /** What one segment leaves, whatever it found there. One that still says RUNNING afterwards
      is one that could not be marked or finished; one that raised although it says SUCCEEDED
      failed to clear the cache. */
  lemma SegmentIsClean(o: Oracle, db: Db, run: string, g: SegmentKey, steps: seq<Step>, after: Db, out: Outcome)
    requires Entered(o, g, steps) && (after, out) == RunSegment(o, db, run, g, steps)
    ensures Clean(o, after, RunKey(g.tenant, g.segment, run), steps)
    ensures var row, fault := after.runs[RunKey(g.tenant, g.segment, run)], o.fault(g.tenant, g.segment);
      && (row.status.Running? ==> out.Raised? && (fault.AtMark? || fault.AtFinish?))
      && (row.status.Failed? ==> out.Raised?)
      && (row.status.Succeeded? ==> (out.Raised? <==> fault.AtCache?))
      && (out.Done? ==> row.status.Succeeded? && row.processed == out.processed && row.written == out.written)
  {
    var profiles := o.profiles(g.tenant, g.segment);
    if RunSteps(o, steps, profiles, FRESH).ok { BatchedRefinesSimple(o, steps, profiles); }
    hide CandidatesOk, RunSteps, AllEntries, UpsertAll, Keys;
  }

  /** A SUCCEEDED run has exactly the rankings of the pipeline: each item of each step and profile
      has its row, each row is such an item, with its values, and all of them are counted. */
  lemma SucceededHasTheRankings(o: Oracle, db: Db, run: string, g: SegmentKey, steps: seq<Step>, after: Db, out: Outcome)
    requires Entered(o, g, steps) && (after, out) == RunSegment(o, db, run, g, steps)
    requires after.runs[RunKey(g.tenant, g.segment, run)].status.Succeeded?
    ensures var k, profiles := RunKey(g.tenant, g.segment, run), o.profiles(g.tenant, g.segment);
      && after.runs[k].written == ItemsRanked(o, steps, profiles) && HasTheRankings(o, steps, profiles, RowsAt(after, k))
      && (WellFormed(o, steps, profiles) ==> HasTheValues(o, steps, profiles, RowsAt(after, k)))
  {
    var profiles := o.profiles(g.tenant, g.segment);
    SegmentIsClean(o, db, run, g, steps, after, out);
    TableHasTheRankings(o, steps, profiles);
    hide RunSegment, AllEntries, UpsertAll, Keys, WellFormed, Entered, HasTheRankings, HasTheValues;
  }

  /** In good form a segment SUCCEEDS exactly if nothing in its steps raises and its end could be
      recorded, and it is FAILED exactly if something raises and that could be. */
  lemma SegmentSucceedsExactly(o: Oracle, db: Db, run: string, g: SegmentKey, steps: seq<Step>, after: Db, out: Outcome)
    requires Entered(o, g, steps) && (after, out) == RunSegment(o, db, run, g, steps)
    requires WellFormed(o, steps, o.profiles(g.tenant, g.segment))
    ensures var status, fault := after.runs[RunKey(g.tenant, g.segment, run)].status, o.fault(g.tenant, g.segment);
      var good := forall s :: s in steps ==> NothingRaises(o, s, o.profiles(g.tenant, g.segment));
      && (status.Succeeded? <==> good && !fault.AtFinish?)
      && (status.Failed? <==> !good && !fault.AtMark?)
      && (out.Done? <==> good && !fault.AtFinish? && !fault.AtCache?)
  {
    StepsSucceedExactly(o, steps, o.profiles(g.tenant, g.segment), FRESH);
    hide RunSteps, NothingRaises, WellFormed, CandidatesOk;
  }

  // ----- What a failed run counts -----

  function ItemsIn(o: Oracle, pairs: seq<(Step, string)>): nat {
    if pairs == [] then 0 else
      var rest, last := pairs[..|pairs| - 1], pairs[|pairs| - 1];
      ItemsIn(o, rest) + if o.rank(last.0, last.1).Some? then |o.rank(last.0, last.1).value| else 0
  }

  lemma {:induction false} ItemsInAppend(o: Oracle, a: seq<(Step, string)>, b: seq<(Step, string)>)
    ensures ItemsIn(o, a + b) == ItemsIn(o, a) + ItemsIn(o, b)
    decreases |b|
  {
    if b == [] {
      assert a + b == a;
    } else {
      ItemsInAppend(o, a, b[..|b| - 1]);
      assert (a + b)[..|a + b| - 1] == a + b[..|b| - 1];
    }
  }

  lemma {:induction false} ItemsInPairs(o: Oracle, step: Step, profiles: seq<string>)
    ensures ItemsIn(o, Pairs(step, profiles)) == ItemsFor(o, step, profiles)
  {
    if profiles != [] {
      ItemsInPairs(o, step, profiles[..|profiles| - 1]);
      assert Pairs(step, profiles)[..|profiles| - 1] == Pairs(step, profiles[..|profiles| - 1]);
    }
  }

  /** The counters say what was ranked so far. */
  ghost predicate Tallied(o: Oracle, p: Pass) {
    p.processed == |p.ranked| && p.written == ItemsIn(o, p.ranked)
  }

  lemma BatchTallies(o: Oracle, step: Step, batch: seq<string>, start: nat, p: Pass)
    requires Tallied(o, p)
    ensures var q := RunBatch(o, step, batch, start, p);
      Tallied(o, q) && q.ranked == if q.ok then p.ranked + Pairs(step, batch) else p.ranked
  {
    StepEntriesAreRankings(o, step, batch);
    ItemsInPairs(o, step, batch);
    ItemsInAppend(o, p.ranked, Pairs(step, batch));
    hide StepEntries, ItemsIn, ItemsFor, IsRanked;
  }

  /** b is a, and then the beginning of `all`. */
  ghost predicate Within<T>(a: seq<T>, b: seq<T>, all: seq<T>) {
    a <= b <= a + all
  }

  lemma WithinThen<T>(a: seq<T>, b: seq<T>, c: seq<T>, x: seq<T>, y: seq<T>)
    requires b == a + x && Within(b, c, y)
    ensures Within(a, c, x + y) && (c == b + y ==> c == a + (x + y))
  {
    assert (a + x) + y == a + (x + y);
  }

  lemma WithinFirst<T>(a: seq<T>, b: seq<T>, x: seq<T>, y: seq<T>)
    ensures Within(a, a, x)
    ensures Within(a, b, x) ==> Within(a, b, x + y)
  {
    assert (a + x) + y == a + (x + y);
  }

  lemma {:induction false} BatchesTally(o: Oracle, step: Step, profiles: seq<string>, start: nat, p: Pass)
    requires start <= |profiles| && Tallied(o, p)
    ensures var q := RunBatches(o, step, profiles, start, p); var all := Pairs(step, profiles[start..]);
      Tallied(o, q) && Within(p.ranked, q.ranked, all) && (p.ok && q.ok ==> q.ranked == p.ranked + all)
    decreases |profiles| - start
  {
    hide RunBatch, Tallied, Within;
    var all := Pairs(step, profiles[start..]);
    WithinFirst(p.ranked, p.ranked, all, []);
    if start < |profiles| && p.ok {
      var batch := Batch(profiles, start);
      var q, next := RunBatch(o, step, batch, start, p), start + |batch|;
      BatchTallies(o, step, batch, start, p);
      BatchesTally(o, step, profiles, next, q);
      PairsSplit(step, profiles, start, next);
      var r := RunBatches(o, step, profiles, next, q);
      assert RunBatches(o, step, profiles, start, p) == r;
      if q.ok {
        WithinThen(p.ranked, q.ranked, r.ranked, Pairs(step, batch), Pairs(step, profiles[next..]));
      } else {
        FailureStays(o, step, profiles, next, q);
      }
    } else {
      assert start == |profiles| ==> all == [];
    }
  }

  lemma PairsSplit(step: Step, profiles: seq<string>, i: nat, j: nat)
    requires i <= j <= |profiles|
    ensures Pairs(step, profiles[i..]) == Pairs(step, profiles[i..j]) + Pairs(step, profiles[j..])
  {
  }

  lemma StepTallies(o: Oracle, step: Step, profiles: seq<string>, p: Pass)
    requires Tallied(o, p)
    ensures var q := RunStep(o, step, profiles, p); var all := AllPairs([step], profiles);
      Tallied(o, q) && Within(p.ranked, q.ranked, all) && (p.ok && q.ok ==> q.ranked == p.ranked + all)
  {
    BatchesTally(o, step, profiles, 0, p);
    OneStepsPairs(step, profiles);
    TalliedAnyway(o, p);
    WithinFirst(p.ranked, p.ranked, AllPairs([step], profiles), []);
    assert profiles[0..] == profiles;
    hide Within, Tallied, RunBatches;
  }

  lemma {:induction false} StepsTally(o: Oracle, steps: seq<Step>, profiles: seq<string>, p: Pass)
    requires Tallied(o, p)
    ensures var q := RunSteps(o, steps, profiles, p);
      Tallied(o, q) && Within(p.ranked, q.ranked, AllPairs(steps, profiles))
    decreases |steps|
  {
    WithinFirst(p.ranked, p.ranked, AllPairs(steps, profiles), []);
    hide Tallied, RunStep, Within, AllPairs;
    if steps != [] && p.ok {
      var q, first, rest := RunStep(o, steps[0], profiles, p), [steps[0]], steps[1..];
      var r := RunSteps(o, rest, profiles, q);
      StepTallies(o, steps[0], profiles, p);
      StepsTally(o, rest, profiles, q);
      AllAppend(o, first, rest, profiles);
      assert first + rest == steps;
      if q.ok {
        WithinThen(p.ranked, q.ranked, r.ranked, AllPairs(first, profiles), AllPairs(rest, profiles));
      } else {
        assert r == q;
        WithinFirst(p.ranked, q.ranked, AllPairs(first, profiles), AllPairs(rest, profiles));
      }
    }
  }

  lemma TalliedAnyway(o: Oracle, p: Pass)
    ensures Tallied(o, p.(ok := false)) == Tallied(o, p)
  {
  }

  lemma OneStepsPairs(step: Step, profiles: seq<string>)
    ensures AllPairs([step], profiles) == Pairs(step, profiles)
  {
    assert [step][..0] == [];
  }

  /** A FAILED run counts what it had ranked when something raised: the first so many (step, profile)
      pairs, in order, and their items. */
  lemma FailedCountsTheDone(o: Oracle, db: Db, run: string, g: SegmentKey, steps: seq<Step>, after: Db, out: Outcome)
    requires Entered(o, g, steps) && (after, out) == RunSegment(o, db, run, g, steps)
    requires after.runs[RunKey(g.tenant, g.segment, run)].status.Failed?
    ensures var row := after.runs[RunKey(g.tenant, g.segment, run)];
      exists done :: done <= AllPairs(steps, o.profiles(g.tenant, g.segment)) && row.processed == |done| && row.written == ItemsIn(o, done)
  {
    var p := RunSteps(o, steps, o.profiles(g.tenant, g.segment), FRESH);
    StepsTally(o, steps, o.profiles(g.tenant, g.segment), FRESH);
    assert [] + AllPairs(steps, o.profiles(g.tenant, g.segment)) == AllPairs(steps, o.profiles(g.tenant, g.segment));
    hide RunSteps, CandidatesOk, ItemsIn, AllPairs;
    assert p.ranked <= AllPairs(steps, o.profiles(g.tenant, g.segment));
  }

  // ----- The whole plan -----

  function KeyOf(s: Step): SegmentKey {
    SegmentKey(s.tenant, s.segment)
  }

  /** The segments of the ranking steps, in the order they first appear. */
  function Segments(plan: seq<Step>): (gs: seq<SegmentKey>)
    ensures Distinct(gs)
    ensures forall g :: g in gs <==> exists s :: s in plan && s.kind.Ranking? && KeyOf(s) == g
  {
    if plan == [] then [] else
      var rest, last := Segments(plan[..|plan| - 1]), plan[|plan| - 1];
      assert forall s :: s in plan <==> s in plan[..|plan| - 1] || s == last;
      if last.kind.Ranking? && KeyOf(last) !in rest then rest + [KeyOf(last)] else rest
  }

  /** The ranking steps of one segment, in plan order. */
  function StepsOf(plan: seq<Step>, g: SegmentKey): seq<Step> {
    if plan == [] then [] else
      var rest, last := StepsOf(plan[..|plan| - 1], g), plan[|plan| - 1];
      if last.kind.Ranking? && KeyOf(last) == g then rest + [last] else rest
  }

  function OfKind(plan: seq<Step>, kind: Kind): seq<Step> {
    if plan == [] then [] else
      var rest, last := OfKind(plan[..|plan| - 1], kind), plan[|plan| - 1];
      if last.kind == kind then rest + [last] else rest
  }

  function Lengths(plan: seq<Step>, gs: seq<SegmentKey>): (ns: seq<nat>)
    ensures |ns| == |gs|
    ensures forall i :: 0 <= i < |ns| ==> ns[i] == |StepsOf(plan, gs[i])|
  {
    seq(|gs|, i requires 0 <= i < |gs| => |StepsOf(plan, gs[i])|)
  }

  function StepGroups(plan: seq<Step>, gs: seq<SegmentKey>): (r: seq<seq<Step>>)
    ensures |r| == |gs|
    ensures forall i :: 0 <= i < |r| ==> r[i] == StepsOf(plan, gs[i])
  {
    seq(|gs|, i requires 0 <= i < |gs| => StepsOf(plan, gs[i]))
  }

  /** Grouping loses and repeats no ranking step: the groups hold exactly the plan's. */
  lemma {:induction false} GroupsHoldTheSteps(plan: seq<Step>)
    ensures multiset(Flatten(StepGroups(plan, Segments(plan)))) == multiset(OfKind(plan, Ranking))
  {
    if plan != [] {
      var init, last := plan[..|plan| - 1], plan[|plan| - 1];
      GroupsHoldTheSteps(init);
      var a, b := StepGroups(init, Segments(init)), StepGroups(plan, Segments(plan));
      if !last.kind.Ranking? {
        assert a == b;
      } else if KeyOf(last) in Segments(init) {
        var i :| 0 <= i < |Segments(init)| && Segments(init)[i] == KeyOf(last);
        FlattenGrows(a, b, i, [last]);
      } else {
        NoStepsYet(init, KeyOf(last));
        assert b[|a|] == [] + [last] == [last];
        forall i | 0 <= i < |a| ensures b[i] == a[i] {
          assert Segments(init)[i] in Segments(init);
        }
        assert b == a + [[last]];
        FlattenAppend(a, [[last]]);
        FlattenOne([last]);
      }
    }
  }

  /** Each group has its steps in plan order: `at` gives their places in the plan. */
  lemma {:induction false} GroupsKeepOrder(plan: seq<Step>, g: SegmentKey) returns (at: seq<nat>)
    ensures |at| == |StepsOf(plan, g)|
    ensures forall i :: 0 <= i < |at| ==> at[i] < |plan| && plan[at[i]] == StepsOf(plan, g)[i]
    ensures forall s :: s in StepsOf(plan, g) ==> s.kind.Ranking? && s.tenant == g.tenant && s.segment == g.segment
    ensures forall i, j :: 0 <= i < j < |at| ==> at[i] < at[j]
    ensures forall p :: 0 <= p < |plan| && plan[p].kind.Ranking? && plan[p].tenant == g.tenant && plan[p].segment == g.segment ==> p in at
  {
    at := [];
    if plan != [] {
      var n := |plan| - 1;
      at := GroupsKeepOrder(plan[..n], g);
      if plan[n].kind.Ranking? && KeyOf(plan[n]) == g { at := at + [n]; }
    }
  }

  /** Every step of the plan is in a group, an eligibility step or unsupported, once. */
  lemma {:induction false} GroupingIsAPartition(plan: seq<Step>)
    ensures Sum(Lengths(plan, Segments(plan))) + |OfKind(plan, EligibilityPolicy)| + |OfKind(plan, Unsupported)| == |plan|
  {
    if plan != [] {
      var init, last := plan[..|plan| - 1], plan[|plan| - 1];
      GroupingIsAPartition(init);
      var gs, hs := Segments(init), Segments(plan);
      var a, b := Lengths(init, gs), Lengths(plan, hs);
      if !last.kind.Ranking? {
        assert a == b;
      } else if KeyOf(last) in gs {
        var i :| 0 <= i < |gs| && gs[i] == KeyOf(last);
        SumOneMore(a, b, i);
      } else {
        NoStepsYet(init, KeyOf(last));
        assert b == a + [1];
        SumAppend(a, [1]);
        assert Sum([1]) == 1 + Sum([1][1..]);
      }
    }
  }

  lemma {:induction false} NoStepsYet(plan: seq<Step>, g: SegmentKey)
    requires g !in Segments(plan)
    ensures StepsOf(plan, g) == []
  {
    if plan != [] { NoStepsYet(plan[..|plan| - 1], g); }
  }

  /** Segment after segment, until one raises. */
  function RunAll(o: Oracle, db: Db, run: string, plan: seq<Step>, gs: seq<SegmentKey>, processed: nat, written: nat): (Db, Outcome)
    decreases |gs|
  {
    if gs == [] then (db, Done(processed, written)) else
      var (next, out) := RunSegment(o, db, run, gs[0], StepsOf(plan, gs[0]));
      match out
      case Raised => (next, Raised)
      case Done(p, w) => RunAll(o, next, run, plan, gs[1..], processed + p, written + w)
  }

  datatype Summary = Summary(executed: nat, processed: nat, written: nat, updated: nat, unsupported: nat)

  function Updated(o: Oracle, steps: seq<Step>): Option<nat> {
    if steps == [] then Some(0) else
      var rest, last := Updated(o, steps[..|steps| - 1]), o.update(steps[|steps| - 1]);
      if rest.None? || last.None? then None else Some(rest.value + last.value)
  }

  /** The eligibility steps come first, whatever their place in the plan. */
  function Execute(o: Oracle, db: Db, run: string, plan: seq<Step>): (Db, Option<Summary>) {
    var updated := Updated(o, OfKind(plan, EligibilityPolicy));
    if updated.None? then (db, None) else
      var gs := Segments(plan);
      match RunAll(o, db, run, plan, gs, 0, 0)
      case (after, Raised) => (after, None)
      case (after, Done(p, w)) =>
        (after, Some(Summary(|OfKind(plan, EligibilityPolicy)| + Sum(Lengths(plan, gs)), p, w, updated.value, |OfKind(plan, Unsupported)|)))
  }

  // ----- What the execution leaves -----

  function Work(o: Oracle, plan: seq<Step>, gs: seq<SegmentKey>): nat {
    if gs == [] then 0 else
      |StepsOf(plan, gs[0])| * |o.profiles(gs[0].tenant, gs[0].segment)| + Work(o, plan, gs[1..])
  }

  function RunKeyOf(g: SegmentKey, run: string): RunKey {
    RunKey(g.tenant, g.segment, run)
  }

  /** The items ranked in all these segments. */
  function Ranked(o: Oracle, plan: seq<Step>, gs: seq<SegmentKey>): nat {
    if gs == [] then 0 else
      ItemsRanked(o, StepsOf(plan, gs[0]), o.profiles(gs[0].tenant, gs[0].segment)) + Ranked(o, plan, gs[1..])
  }

  lemma SegmentProcesses(o: Oracle, db: Db, run: string, g: SegmentKey, steps: seq<Step>)
    requires RunSegment(o, db, run, g, steps).1.Done?
    ensures RunSegment(o, db, run, g, steps).1.processed == |steps| * |o.profiles(g.tenant, g.segment)|
    ensures RunSegment(o, db, run, g, steps).1.written == ItemsRanked(o, steps, o.profiles(g.tenant, g.segment))
  {
    SegmentTouchesItself(o, db, run, g, steps);
    assert Entered(o, g, steps);
    var (after, out) := RunSegment(o, db, run, g, steps);
    hide RunSegment, Entered;
    SegmentIsClean(o, db, run, g, steps, after, out);
    EntriesAreRankings(o, steps, o.profiles(g.tenant, g.segment));
    hide AllEntries, UpsertAll, Keys, Distinct, IsRanked;
  }

  lemma {:induction false} RunAllCounts(o: Oracle, db: Db, run: string, plan: seq<Step>, gs: seq<SegmentKey>, processed: nat, written: nat)
    requires RunAll(o, db, run, plan, gs, processed, written).1.Done?
    ensures RunAll(o, db, run, plan, gs, processed, written).1.processed == processed + Work(o, plan, gs)
    ensures RunAll(o, db, run, plan, gs, processed, written).1.written == written + Ranked(o, plan, gs)
    decreases |gs|
  {
    hide RunSegment, StepsOf, ItemsRanked;
    if gs != [] {
      var (next, out) := RunSegment(o, db, run, gs[0], StepsOf(plan, gs[0]));
      SegmentProcesses(o, db, run, gs[0], StepsOf(plan, gs[0]));
      RunAllCounts(o, next, run, plan, gs[1..], processed + out.processed, written + out.written);
    }
  }

  /** A segment that finished in good form has exactly as many rows as it says it wrote. */
  lemma SucceededHasTheWrittenRows(o: Oracle, db: Db, run: string, g: SegmentKey, steps: seq<Step>, after: Db, out: Outcome)
    requires Entered(o, g, steps) && (after, out) == RunSegment(o, db, run, g, steps)
    requires WellFormed(o, steps, o.profiles(g.tenant, g.segment))
    ensures var k := RunKey(g.tenant, g.segment, run);
      after.runs[k].status.Succeeded? ==> |RowsAt(after, k)| == after.runs[k].written
  {
    SegmentIsClean(o, db, run, g, steps, after, out);
    AllKeysDistinct(o, steps, o.profiles(g.tenant, g.segment));
    hide RunSegment, AllEntries, WellFormed, Entered, Keys, Distinct;
  }

  /** What an eligibility step is said to change. */
  function Changes(o: Oracle, plan: seq<Step>): seq<nat> {
    if plan == [] then [] else
      var rest, last := Changes(o, plan[..|plan| - 1]), plan[|plan| - 1];
      if last.kind.EligibilityPolicy? && o.update(last).Some? then rest + [o.update(last).value] else rest
  }

  lemma {:induction false} UpdatedIsTheSum(o: Oracle, plan: seq<Step>)
    ensures Updated(o, OfKind(plan, EligibilityPolicy)).Some? <==> forall s :: s in plan && s.kind.EligibilityPolicy? ==> o.update(s).Some?
    ensures Updated(o, OfKind(plan, EligibilityPolicy)).Some? ==> Updated(o, OfKind(plan, EligibilityPolicy)).value == Sum(Changes(o, plan))
  {
    if plan != [] {
      var init, last := plan[..|plan| - 1], plan[|plan| - 1];
      UpdatedIsTheSum(o, init);
      assert forall s :: s in plan <==> s in init || s == last;
      var steps := OfKind(init, EligibilityPolicy);
      assert (steps + [last])[..|steps + [last]| - 1] == steps;
      if last.kind.EligibilityPolicy? && o.update(last).Some? {
        SumAppend(Changes(o, init), [o.update(last).value]);
        assert Sum([o.update(last).value]) == o.update(last).value + Sum([o.update(last).value][1..]);
      }
    }
  }

  /** Every step of the plan is executed or unsupported; the profile runs counted are, for each
      segment, its profiles times its steps; the recommendations are the items ranked in all of
      them, and the updates those of the eligibility steps. */
  lemma SummaryCounts(o: Oracle, db: Db, run: string, plan: seq<Step>)
    requires Execute(o, db, run, plan).1.Some?
    ensures var s := Execute(o, db, run, plan).1.value;
      && s.executed + s.unsupported == |plan| && s.processed == Work(o, plan, Segments(plan))
      && s.written == Ranked(o, plan, Segments(plan)) && s.updated == Sum(Changes(o, plan))
  {
    GroupingIsAPartition(plan);
    UpdatedIsTheSum(o, plan);
    RunAllCounts(o, db, run, plan, Segments(plan), 0, 0);
  }

  /** Nothing stops this segment: its candidates are in order and no call and no step raises; that
      it could not be marked FAILED does not matter then. */
  predicate Completes(o: Oracle, g: SegmentKey, steps: seq<Step>) {
    && (forall s :: s in steps ==> s.candidates != [] && |s.candidates| <= o.maxCandidates)
    && (o.fault(g.tenant, g.segment).NoFault? || o.fault(g.tenant, g.segment).AtMark?)
    && forall s :: s in steps ==> NothingRaises(o, s, o.profiles(g.tenant, g.segment))
  }

  lemma SegmentCompletes(o: Oracle, db: Db, run: string, g: SegmentKey, steps: seq<Step>)
    requires WellFormed(o, steps, o.profiles(g.tenant, g.segment))
    ensures RunSegment(o, db, run, g, steps).1.Done? <==> Completes(o, g, steps)
  {
    if Entered(o, g, steps) {
      var (after, out) := RunSegment(o, db, run, g, steps);
      SegmentSucceedsExactly(o, db, run, g, steps, after, out);
    }
    hide RunSteps, NothingRaises, WellFormed;
  }

  /** In good form the execution reports a summary exactly if no eligibility step raises and every
      segment completes. */
  lemma ExecutionSucceedsExactly(o: Oracle, db: Db, run: string, plan: seq<Step>)
    requires forall g :: g in Segments(plan) ==> WellFormed(o, StepsOf(plan, g), o.profiles(g.tenant, g.segment))
    ensures Execute(o, db, run, plan).1.Some? <==>
      && (forall s :: s in plan && s.kind.EligibilityPolicy? ==> o.update(s).Some?)
      && (forall g :: g in Segments(plan) ==> Completes(o, g, StepsOf(plan, g)))
  {
    UpdatedIsTheSum(o, plan);
    RunAllDoneExactly(o, db, run, plan, Segments(plan), 0, 0);
    hide RunAll, WellFormed, Completes;
  }

  lemma {:induction false} RunAllDoneExactly(o: Oracle, db: Db, run: string, plan: seq<Step>, gs: seq<SegmentKey>,
                                             processed: nat, written: nat)
    requires forall g :: g in gs ==> WellFormed(o, StepsOf(plan, g), o.profiles(g.tenant, g.segment))
    ensures RunAll(o, db, run, plan, gs, processed, written).1.Done? <==> forall g :: g in gs ==> Completes(o, g, StepsOf(plan, g))
    decreases |gs|
  {
    hide RunSegment, StepsOf, Completes, WellFormed;
    if gs != [] {
      var (next, out) := RunSegment(o, db, run, gs[0], StepsOf(plan, gs[0]));
      SegmentCompletes(o, db, run, gs[0], StepsOf(plan, gs[0]));
      assert forall g :: g in gs <==> g == gs[0] || g in gs[1..];
      if out.Done? { RunAllDoneExactly(o, next, run, plan, gs[1..], processed + out.processed, written + out.written); }
    }
  }

  ghost predicate Ran(o: Oracle, db: Db, run: string, plan: seq<Step>, g: SegmentKey) {
    Clean(o, db, RunKeyOf(g, run), StepsOf(plan, g)) && db.runs[RunKeyOf(g, run)].status.Succeeded?
  }

  lemma CleanStays(o: Oracle, db: Db, after: Db, k: RunKey, steps: seq<Step>)
    requires Same(db, after, k) && Clean(o, db, k, steps)
    ensures Clean(o, after, k, steps) && after.runs[k] == db.runs[k]
  {
    hide AllEntries, UpsertAll, Keys;
  }

  ghost predicate Untouched(db: Db, after: Db, run: string, gs: seq<SegmentKey>) {
    forall x :: (forall g :: g in gs ==> x != RunKeyOf(g, run)) ==> Same(db, after, x)
  }

  lemma UntouchedThen(db: Db, mid: Db, after: Db, run: string, gs: seq<SegmentKey>)
    requires gs != [] && OthersUntouched(db, mid, RunKeyOf(gs[0], run)) && Untouched(mid, after, run, gs[1..])
    ensures Untouched(db, after, run, gs)
  {
    forall x | forall g :: g in gs ==> x != RunKeyOf(g, run) ensures Same(db, after, x) {
      assert gs[0] in gs;
      assert Same(db, mid, x);
      assert forall g :: g in gs[1..] ==> g in gs;
      assert Same(mid, after, x);
    }
  }

  /** Where the execution stopped: a run that was started has no rows unless it could not be
      marked; one that was not started is as it was. */
  ghost predicate Stopped(o: Oracle, db: Db, after: Db, run: string, plan: seq<Step>, g: SegmentKey) {
    if Entered(o, g, StepsOf(plan, g)) then Clean(o, after, RunKeyOf(g, run), StepsOf(plan, g))
    else Same(db, after, RunKeyOf(g, run))
  }

  /** The first i segments ran, the next one stopped, and nothing else changed. */
  ghost predicate Progress(o: Oracle, db: Db, after: Db, run: string, plan: seq<Step>, gs: seq<SegmentKey>, i: nat)
    requires i <= |gs|
  {
    && (forall j :: 0 <= j < i ==> Ran(o, after, run, plan, gs[j]))
    && (forall j :: i < j < |gs| ==> Same(db, after, RunKeyOf(gs[j], run)))
    && (i < |gs| ==> Stopped(o, db, after, run, plan, gs[i]))
    && Untouched(db, after, run, gs)
  }

  lemma ProgressThen(o: Oracle, db: Db, next: Db, after: Db, run: string, plan: seq<Step>, gs: seq<SegmentKey>, n: nat)
    requires gs != [] && Distinct(gs) && n < |gs| && OthersUntouched(db, next, RunKeyOf(gs[0], run))
    requires Ran(o, next, run, plan, gs[0]) && Progress(o, next, after, run, plan, gs[1..], n)
    ensures Progress(o, db, after, run, plan, gs, n + 1)
  {
    var k, rest := RunKeyOf(gs[0], run), gs[1..];
    hide StepsOf, Clean, Entered, Same;
    forall j | 0 < j < |gs| ensures RunKeyOf(gs[j], run) != k && gs[j] == rest[j - 1] && Same(db, next, RunKeyOf(gs[j], run)) {
      assert gs[j] != gs[0];
    }
    UntouchedThen(db, next, after, run, gs);
    assert Same(next, after, k) by {
      forall g | g in rest ensures k != RunKeyOf(g, run) {
      }
    }
    CleanStays(o, next, after, k, StepsOf(plan, gs[0]));
    forall j | 0 <= j < n + 1 ensures Ran(o, after, run, plan, gs[j]) {
      if j > 0 { assert Ran(o, after, run, plan, rest[j - 1]); }
    }
    forall j | n < j < |gs| && Same(next, after, RunKeyOf(gs[j], run)) ensures Same(db, after, RunKeyOf(gs[j], run)) {
      SameThen(db, next, after, RunKeyOf(gs[j], run));
    }
    forall j | n + 1 < j < |gs| ensures Same(db, after, RunKeyOf(gs[j], run)) {
      assert Same(next, after, RunKeyOf(rest[j - 1], run));
    }
  }

  lemma NoProgress(o: Oracle, db: Db, run: string, plan: seq<Step>)
    ensures Progress(o, db, db, run, plan, [], 0)
  {
  }

  lemma StopsAtOnce(o: Oracle, db: Db, next: Db, run: string, plan: seq<Step>, gs: seq<SegmentKey>)
    requires gs != [] && Distinct(gs) && OthersUntouched(db, next, RunKeyOf(gs[0], run)) && Stopped(o, db, next, run, plan, gs[0])
    ensures Progress(o, db, next, run, plan, gs, 0)
  {
  }

  lemma SegmentRanOrStopped(o: Oracle, db: Db, next: Db, out: Outcome, run: string, plan: seq<Step>, g: SegmentKey)
    requires (next, out) == RunSegment(o, db, run, g, StepsOf(plan, g))
    ensures OthersUntouched(db, next, RunKeyOf(g, run))
    ensures if out.Done? then Ran(o, next, run, plan, g) else Stopped(o, db, next, run, plan, g)
  {
    SegmentTouchesItself(o, db, run, g, StepsOf(plan, g));
    hide RunSegment, StepsOf, Entered, Clean;
    if Entered(o, g, StepsOf(plan, g)) { SegmentIsClean(o, db, run, g, StepsOf(plan, g), next, out); }
  }

  /** Segments that finished keep their results when a later one raises; those after it are as
      they were, and no row of another run changes. */
  lemma {:induction false} FinishedSegmentsKeepResults(o: Oracle, db: Db, run: string, plan: seq<Step>, gs: seq<SegmentKey>,
      processed: nat, written: nat)
    returns (i: nat)
    requires Distinct(gs)
    ensures var (after, out) := RunAll(o, db, run, plan, gs, processed, written);
      i <= |gs| && (out.Done? <==> i == |gs|) && Progress(o, db, after, run, plan, gs, i)
    decreases |gs|
  {
    hide Progress, OthersUntouched, RunSegment, StepsOf, Ran, Stopped;
    i := 0;
    if gs == [] {
      NoProgress(o, db, run, plan);
    } else {
      var (next, out) := RunSegment(o, db, run, gs[0], StepsOf(plan, gs[0]));
      SegmentRanOrStopped(o, db, next, out, run, plan, gs[0]);
      if out.Done? {
        var n := FinishedSegmentsKeepResults(o, next, run, plan, gs[1..], processed + out.processed, written + out.written);
        var after := RunAll(o, next, run, plan, gs[1..], processed + out.processed, written + out.written).0;
        ProgressThen(o, db, next, after, run, plan, gs, n);
        i := n + 1;
      } else {
        StopsAtOnce(o, db, next, run, plan, gs);
      }
    }
  }

  lemma SameThen(a: Db, b: Db, c: Db, k: RunKey)
    requires Same(a, b, k) && Same(b, c, k)
    ensures Same(a, c, k)
  {
  }

  // ----- Running again -----

  /** What a started run leaves in its own rows and ledger row, whatever was there. */
  function Left(o: Oracle, g: SegmentKey, steps: seq<Step>): (Table, RunRow) {
    var profiles, fault := o.profiles(g.tenant, g.segment), o.fault(g.tenant, g.segment);
    var p, row := RunSteps(o, steps, profiles, FRESH), RunRow(Running, |profiles|, |steps|, 0, 0);
    if !p.ok then
      if fault.AtMark? then (p.rows, row) else (map[], row.(status := Failed, processed := p.processed, written := p.written))
    else if fault.AtFinish? then (p.rows, row)
    else (p.rows, row.(status := Succeeded, processed := p.processed, written := p.written))
  }

  lemma SegmentLeaves(o: Oracle, db: Db, run: string, g: SegmentKey, steps: seq<Step>)
    requires Entered(o, g, steps)
    ensures var k, (rows, row) := RunKeyOf(g, run), Left(o, g, steps);
      RunSegment(o, db, run, g, steps).0 == Db(db.rows[k := rows], db.runs[k := row])
  {
    hide CandidatesOk, RunSteps;
    var k := RunKeyOf(g, run);
    var (rows, row) := Left(o, g, steps);
    var after := RunSegment(o, db, run, g, steps).0;
    assert after.rows == db.rows[k := rows] && after.runs == db.runs[k := row];
  }

  lemma OutcomeIsTheOraclesOnly(o: Oracle, a: Db, b: Db, run: string, g: SegmentKey, steps: seq<Step>)
    ensures RunSegment(o, a, run, g, steps).1 == RunSegment(o, b, run, g, steps).1
  {
    hide CandidatesOk, RunSteps;
  }

  /** The segment finds exactly what it would leave. */
  ghost predicate Settled(o: Oracle, db: Db, run: string, plan: seq<Step>, g: SegmentKey) {
    RunSegment(o, db, run, g, StepsOf(plan, g)).0 == db
  }

  lemma SettledStays(o: Oracle, db: Db, after: Db, run: string, plan: seq<Step>, g: SegmentKey)
    requires Same(db, after, RunKeyOf(g, run)) && Settled(o, db, run, plan, g)
    ensures Settled(o, after, run, plan, g)
  {
    var k, steps := RunKeyOf(g, run), StepsOf(plan, g);
    if Entered(o, g, steps) {
      SegmentLeaves(o, db, run, g, steps);
      SegmentLeaves(o, after, run, g, steps);
      hide RunSegment, StepsOf, Left;
      var (rows, row) := Left(o, g, steps);
      assert k in db.rows && db.rows[k] == rows && k in db.runs && db.runs[k] == row;
      assert after.rows[k := rows] == after.rows && after.runs[k := row] == after.runs;
    } else {
      SegmentTouchesItself(o, after, run, g, steps);
    }
  }

  /** Whatever an earlier execution answered and wherever it failed, starting the run again
      leaves what a first execution would have left. */
  lemma RetriedSegmentIsFresh(o1: Oracle, o2: Oracle, db: Db, run: string, g: SegmentKey, steps: seq<Step>)
    requires Entered(o2, g, steps)
    ensures RunSegment(o2, RunSegment(o1, db, run, g, steps).0, run, g, steps) == RunSegment(o2, db, run, g, steps)
  {
    var k, before := RunKeyOf(g, run), RunSegment(o1, db, run, g, steps).0;
    SegmentLeaves(o2, db, run, g, steps);
    SegmentLeaves(o2, before, run, g, steps);
    OutcomeIsTheOraclesOnly(o2, db, before, run, g, steps);
    if Entered(o1, g, steps) { SegmentLeaves(o1, db, run, g, steps); } else { SegmentTouchesItself(o1, db, run, g, steps); }
    hide RunSegment, Left, Entered;
    var (rows, row) := Left(o2, g, steps);
    assert before.rows[k := rows] == db.rows[k := rows] && before.runs[k := row] == db.runs[k := row];
  }

  /** Running one segment twice is running it once, whether it succeeds or raises. */
  lemma SegmentTwice(o: Oracle, db: Db, run: string, plan: seq<Step>, g: SegmentKey)
    ensures Settled(o, RunSegment(o, db, run, g, StepsOf(plan, g)).0, run, plan, g)
  {
    var k, steps := RunKeyOf(g, run), StepsOf(plan, g);
    var after := RunSegment(o, db, run, g, steps).0;
    if Entered(o, g, steps) {
      SegmentLeaves(o, db, run, g, steps);
      SegmentLeaves(o, after, run, g, steps);
      hide RunSegment, Left;
      var (rows, row) := Left(o, g, steps);
      assert after.rows[k := rows] == after.rows && after.runs[k := row] == after.runs;
    } else {
      SegmentTouchesItself(o, db, run, g, steps);
      SegmentTouchesItself(o, after, run, g, steps);
    }
  }

  lemma ItsOwnKey(db: Db, after: Db, run: string, gs: seq<SegmentKey>)
    requires gs != [] && Distinct(gs) && Untouched(db, after, run, gs[1..])
    ensures Same(db, after, RunKeyOf(gs[0], run))
  {
  }

  lemma {:induction false} AllSettled(o: Oracle, db: Db, run: string, plan: seq<Step>, gs: seq<SegmentKey>, processed: nat, written: nat)
    requires Distinct(gs)
    ensures var after := RunAll(o, db, run, plan, gs, processed, written).0;
      RunAll(o, after, run, plan, gs, processed, written) == RunAll(o, db, run, plan, gs, processed, written)
    decreases |gs|
  {
    hide RunSegment, StepsOf, Same, Ran, Stopped;
    if gs != [] {
      var steps := StepsOf(plan, gs[0]);
      var (next, out) := RunSegment(o, db, run, gs[0], steps);
      SegmentTwice(o, db, run, plan, gs[0]);
      if out.Done? {
        var p, w := processed + out.processed, written + out.written;
        var n := FinishedSegmentsKeepResults(o, next, run, plan, gs[1..], p, w);
        var after := RunAll(o, next, run, plan, gs[1..], p, w).0;
        assert Untouched(next, after, run, gs[1..]);
        hide Progress, Untouched;
        ItsOwnKey(next, after, run, gs);
        SettledStays(o, next, after, run, plan, gs[0]);
        OutcomeIsTheOraclesOnly(o, db, after, run, gs[0], steps);
        AllSettled(o, next, run, plan, gs[1..], p, w);
      } else {
        OutcomeIsTheOraclesOnly(o, db, next, run, gs[0], steps);
      }
    }
  }

  /** Two tables that agree on a run still do after the same segment ran on both; on its own run
      they then agree anyway, if it was started. */
  lemma SegmentKeepsSame(o: Oracle, x: Db, y: Db, run: string, g: SegmentKey, steps: seq<Step>, k: RunKey)
    requires Same(x, y, k) || (k == RunKeyOf(g, run) && Entered(o, g, steps))
    ensures Same(RunSegment(o, x, run, g, steps).0, RunSegment(o, y, run, g, steps).0, k)
  {
    if Entered(o, g, steps) {
      SegmentLeaves(o, x, run, g, steps);
      SegmentLeaves(o, y, run, g, steps);
    } else {
      SegmentTouchesItself(o, x, run, g, steps);
      SegmentTouchesItself(o, y, run, g, steps);
    }
    hide RunSegment, Left, Entered;
  }

  lemma {:induction false} RunAllKeepsSame(o: Oracle, x: Db, y: Db, run: string, plan: seq<Step>, gs: seq<SegmentKey>,
      processed: nat, written: nat, k: RunKey)
    requires Same(x, y, k)
    ensures Same(RunAll(o, x, run, plan, gs, processed, written).0, RunAll(o, y, run, plan, gs, processed, written).0, k)
    decreases |gs|
  {
    hide RunSegment, StepsOf, Same;
    if gs != [] {
      var steps := StepsOf(plan, gs[0]);
      var (x1, out) := RunSegment(o, x, run, gs[0], steps);
      var y1 := RunSegment(o, y, run, gs[0], steps).0;
      SegmentKeepsSame(o, x, y, run, gs[0], steps, k);
      OutcomeIsTheOraclesOnly(o, x, y, run, gs[0], steps);
      if out.Done? {
        RunAllKeepsSame(o, x1, y1, run, plan, gs[1..], processed + out.processed, written + out.written, k);
      }
    }
  }

  /** The same segments run on two tables that differ only in those runs report the same, and
      agree on every run they started. */
  lemma {:induction false} RunAllForgets(o: Oracle, x: Db, y: Db, run: string, plan: seq<Step>, gs: seq<SegmentKey>,
      processed: nat, written: nat)
    returns (n: nat)
    requires Distinct(gs)
    ensures var (rx, ox), (ry, oy) := RunAll(o, x, run, plan, gs, processed, written), RunAll(o, y, run, plan, gs, processed, written);
      && ox == oy && n <= |gs| && (ox.Done? <==> n == |gs|)
      && (forall j :: 0 <= j < n ==> Same(rx, ry, RunKeyOf(gs[j], run)))
      && (n < |gs| && Entered(o, gs[n], StepsOf(plan, gs[n])) ==> Same(rx, ry, RunKeyOf(gs[n], run)))
    decreases |gs|
  {
    hide RunSegment, StepsOf, Same, Entered;
    n := 0;
    if gs != [] {
      var k, steps, rest := RunKeyOf(gs[0], run), StepsOf(plan, gs[0]), gs[1..];
      var (x1, out) := RunSegment(o, x, run, gs[0], steps);
      var y1 := RunSegment(o, y, run, gs[0], steps).0;
      OutcomeIsTheOraclesOnly(o, x, y, run, gs[0], steps);
      SegmentTouchesItself(o, x, run, gs[0], steps);
      if Entered(o, gs[0], steps) { SegmentKeepsSame(o, x, y, run, gs[0], steps, k); }
      if out.Done? {
        var p, w := processed + out.processed, written + out.written;
        RunAllKeepsSame(o, x1, y1, run, plan, rest, p, w, k);
        var m := RunAllForgets(o, x1, y1, run, plan, rest, p, w);
        n := m + 1;
        forall j | 0 <= j < n
          ensures Same(RunAll(o, x1, run, plan, rest, p, w).0, RunAll(o, y1, run, plan, rest, p, w).0, RunKeyOf(gs[j], run)) {
          if j > 0 { assert gs[j] == rest[j - 1]; }
        }
      }
    }
  }

  lemma SameEverywhere(x: Db, y: Db)
    requires forall k :: Same(x, y, k)
    ensures x == y
  {
    assert x.rows == y.rows by {
      forall k ensures k in x.rows <==> k in y.rows {
        assert Same(x, y, k);
      }
      forall k | k in x.rows ensures x.rows[k] == y.rows[k] {
        assert Same(x, y, k);
      }
    }
    assert x.runs == y.runs by {
      forall k ensures k in x.runs <==> k in y.runs {
        assert Same(x, y, k);
      }
      forall k | k in x.runs ensures x.runs[k] == y.runs[k] {
        assert Same(x, y, k);
      }
    }
  }

  /** Re-execution is safe: after an execution with any answers and any failures, executing the
      run id again reports exactly what a first execution would, and if it succeeds leaves
      exactly the tables a first execution would have left. */
  lemma RetryIsAFreshExecution(o1: Oracle, o2: Oracle, db: Db, run: string, plan: seq<Step>)
    ensures var before, again := Execute(o1, db, run, plan).0, Execute(o2, Execute(o1, db, run, plan).0, run, plan);
      && again.1 == Execute(o2, db, run, plan).1
      && (again.1.Some? ==> again == Execute(o2, db, run, plan))
  {
    var gs, before := Segments(plan), Execute(o1, db, run, plan).0;
    hide RunSegment, Segments, RunAll, Same;
    if Updated(o1, OfKind(plan, EligibilityPolicy)).Some? && Updated(o2, OfKind(plan, EligibilityPolicy)).Some? {
      var i := FinishedSegmentsKeepResults(o1, db, run, plan, gs, 0, 0);
      var n := RunAllForgets(o2, db, before, run, plan, gs, 0, 0);
      var rx, ry := RunAll(o2, db, run, plan, gs, 0, 0), RunAll(o2, before, run, plan, gs, 0, 0);
      if rx.1.Done? {
        forall k ensures Same(rx.0, ry.0, k) {
          if g :| g in gs && k == RunKeyOf(g, run) {
            var j :| 0 <= j < |gs| && gs[j] == g;
          } else {
            assert Untouched(db, before, run, gs) && Same(db, before, k);
            RunAllKeepsSame(o2, db, before, run, plan, gs, 0, 0, k);
          }
        }
        SameEverywhere(rx.0, ry.0);
      }
    }
  }

  /** Executing a run id again, with the same pipeline answers, changes nothing and reports the
      same, whether it succeeded or raised. */
  lemma ExecutingAgainChangesNothing(o: Oracle, db: Db, run: string, plan: seq<Step>)
    ensures var (after, report) := Execute(o, db, run, plan); Execute(o, after, run, plan) == (after, report)
  {
    hide RunSegment, Segments, RunAll;
    AllSettled(o, db, run, plan, Segments(plan), 0, 0);
  }
}
