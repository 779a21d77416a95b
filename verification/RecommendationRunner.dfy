/**
  The executor itself: its loops over plan, segments, steps, batches and pages, working on the
  tables in place, are proved to do what `RecommendationRuns` says.
*/
module RecommendationRunner {
  import opened Common
  import opened RecommendationRuns

  class AgentWorkflowMasterTask {
    const o: Oracle
    var db: Db

    constructor (o: Oracle, db: Db)
      ensures this.o == o && this.db == db
    {
      this.o, this.db := o, db;
    }

    /** One transaction of page statements; a page that repeats a key rolls all of it back. */
    method InsertProfileRecommendationsBatch(k: RunKey, es: seq<Entry>) returns (raised: bool)
      requires k in db.rows
      modifies this`db
      ensures raised <==> InsertPages(old(db).rows[k], es).None?
      ensures raised ==> db == old(db)
      ensures !raised ==> db == old(db).(rows := old(db).rows[k := InsertPages(old(db).rows[k], es).value])
    {
      var rollback := db;
      var rest := es;
      raised := false;
      while rest != []
        invariant k in db.rows && db == old(db).(rows := old(db).rows[k := db.rows[k]])
        invariant InsertPages(db.rows[k], rest) == InsertPages(old(db).rows[k], es)
        decreases |rest|
      {
        var n := if |rest| <= PAGE_SIZE then |rest| else PAGE_SIZE;
        var page := rest[..n];
        if !Distinct(Keys(page)) {
          db := rollback;
          return true;
        }
        db := db.(rows := db.rows[k := UpsertAll(db.rows[k], page)]);
        rest := rest[n..];
      }
      assert old(db).rows[k := old(db).rows[k]] == old(db).rows;
    }

    /** One step over all profiles, batch by batch. `p` has the counters and mirrors the rows. */
    method RunRankingStep(k: RunKey, step: Step, profiles: seq<string>, p: Pass) returns (q: Pass)
      requires k in db.rows && p.ok && p.rows == db.rows[k]
      modifies this`db
      ensures q == RunStep(o, step, profiles, p)
      ensures db == old(db).(rows := old(db).rows[k := q.rows])
    {
      hide StepEntries, InsertPages, AllRanked;
      q := p;
      assert db.rows[k := q.rows] == db.rows;
      if !o.prepared(step) { return p.(ok := false); }
      var start := 0;
      while start < |profiles|
        invariant 0 <= start && q.ok && k in db.rows && q.rows == db.rows[k]
        invariant db == old(db).(rows := old(db).rows[k := q.rows])
        invariant RunBatches(o, step, profiles, start, q) == RunBatches(o, step, profiles, 0, p)
        decreases |profiles| - start
      {
        var batch := Batch(profiles, start);
        var next := start + MAX_RANKING_PROFILES_PER_BATCH;
        BeyondTheEnd(o, step, profiles, start, RunBatch(o, step, batch, start, q));
        if o.trouble(step, start) || !AllRanked(o, step, batch) { return q.(ok := false); }
        var es := StepEntries(o, step, batch);
        var raised := InsertProfileRecommendationsBatch(k, es);
        if raised { return q.(ok := false); }
        q := Pass(db.rows[k], q.processed + |batch|, q.written + |es|, true, q.ranked + Pairs(step, batch));
        start := next;
      }
    }

    method RunRankingSteps(k: RunKey, steps: seq<Step>, profiles: seq<string>) returns (p: Pass)
      requires k in db.rows && db.rows[k] == map[]
      modifies this`db
      ensures p == RunSteps(o, steps, profiles, FRESH)
      ensures db == old(db).(rows := old(db).rows[k := p.rows])
    {
      hide RunStep;
      p := FRESH;
      assert db.rows[k := p.rows] == db.rows;
      var i := 0;
      while i < |steps| && p.ok
        invariant 0 <= i <= |steps| && k in db.rows && p.rows == db.rows[k]
        invariant db == old(db).(rows := old(db).rows[k := p.rows])
        invariant RunSteps(o, steps[i..], profiles, p) == RunSteps(o, steps, profiles, FRESH)
      {
        p := RunRankingStep(k, steps[i], profiles, p);
        assert steps[i..][1..] == steps[i + 1..] && steps[i..][0] == steps[i];
        i := i + 1;
      }
    }

    /** One segment: validate, load, start, run, finish. */
    method RunRankingSegment(g: SegmentKey, steps: seq<Step>, run: string) returns (out: Outcome)
      modifies this`db
      ensures (db, out) == RunSegment(o, old(db), run, g, steps)
    {
      hide RunSteps, Distinct;
      var k, fault := RunKey(g.tenant, g.segment, run), o.fault(g.tenant, g.segment);
      if !CandidatesOk(o, steps) || fault.AtLoad? { return Raised; }
      var profiles := o.profiles(g.tenant, g.segment);
      if fault.AtStart? { return Raised; }
      db := Start(db, k, |profiles|, |steps|);
      var p := RunRankingSteps(k, steps, profiles);
      if !p.ok {
        if !fault.AtMark? { db := Finish(db, k, Failed, p.processed, p.written); }
        return Raised;
      }
      if fault.AtFinish? { return Raised; }
      db := Finish(db, k, Succeeded, p.processed, p.written);
      return if fault.AtCache? then Raised else Done(p.processed, p.written);
    }

    /** Sorts the plan out: the dictionary keeps the segments in the order they came. */
    method GroupPlan(plan: seq<Step>)
      returns (eligibility: seq<Step>, order: seq<SegmentKey>, bySegment: map<SegmentKey, seq<Step>>, unsupported: nat)
      ensures eligibility == OfKind(plan, EligibilityPolicy) && unsupported == |OfKind(plan, Kind.Unsupported)|
      ensures order == Segments(plan) && bySegment.Keys == Elements(order)
      ensures forall g :: g in order ==> bySegment[g] == StepsOf(plan, g)
    {
      eligibility, order, bySegment, unsupported := [], [], map[], 0;
      hide Distinct;
      var i := 0;
      while i < |plan|
        invariant 0 <= i <= |plan|
        invariant eligibility == OfKind(plan[..i], EligibilityPolicy) && unsupported == |OfKind(plan[..i], Kind.Unsupported)|
        invariant order == Segments(plan[..i]) && bySegment.Keys == Elements(order)
        invariant forall g :: g in order ==> bySegment[g] == StepsOf(plan[..i], g)
      {
        var step := plan[i];
        OneMoreStep(plan, i);
        if step.kind.EligibilityPolicy? {
          eligibility := eligibility + [step];
        } else if !step.kind.Ranking? {
          unsupported := unsupported + 1;
        } else {
          var key := KeyOf(step);
          if key !in bySegment {
            NoStepsYet(plan[..i], key);
            order, bySegment := order + [key], bySegment[key := []];
          }
          bySegment := bySegment[key := bySegment[key] + [step]];
        }
        i := i + 1;
      }
      assert plan[..i] == plan;
    }

    /** The eligibility steps, each counting the profiles it changed. */
    method EvaluateEligibility(steps: seq<Step>) returns (updated: Option<nat>)
      ensures updated == Updated(o, steps)
    {
      var sum, i := 0, 0;
      while i < |steps|
        invariant 0 <= i <= |steps| && Updated(o, steps[..i]) == Some(sum)
      {
        var u := o.update(steps[i]);
        assert steps[..i + 1][..i] == steps[..i];
        if u.None? {
          OneRaises(o, steps, i);
          return None;
        }
        sum := sum + u.value;
        i := i + 1;
      }
      assert steps[..i] == steps;
      return Some(sum);
    }

    method RunSegments(plan: seq<Step>, order: seq<SegmentKey>, bySegment: map<SegmentKey, seq<Step>>, run: string)
      returns (out: Outcome, executed: nat)
      requires forall g :: g in order ==> g in bySegment && bySegment[g] == StepsOf(plan, g)
      modifies this`db
      ensures (db, out) == RunAll(o, old(db), run, plan, order, 0, 0)
      ensures out.Done? ==> executed == Sum(Lengths(plan, order))
    {
      hide RunSegment, StepsOf;
      executed := 0;
      var processed: nat, written: nat := 0, 0;
      var j := 0;
      while j < |order|
        invariant 0 <= j <= |order| && executed == Sum(Lengths(plan, order[..j]))
        invariant RunAll(o, db, run, plan, order[j..], processed, written) == RunAll(o, old(db), run, plan, order, 0, 0)
      {
        var g := order[j];
        assert order[j..][0] == g && order[j..][1..] == order[j + 1..];
        out := RunRankingSegment(g, bySegment[g], run);
        if out.Raised? { return; }
        OneMoreLength(plan, order, j);
        executed, processed, written := executed + |bySegment[g]|, processed + out.processed, written + out.written;
        j := j + 1;
      }
      assert order[..j] == order && order[j..] == [];
      out := Done(processed, written);
    }

    /** The whole run. */
    method Run(plan: seq<Step>, run: string) returns (report: Option<Summary>)
      modifies this`db
      ensures (db, report) == Execute(o, old(db), run, plan)
    {
      hide Segments, StepsOf, RunAll, Updated, OfKind;
      var eligibility, order, bySegment, unsupported := GroupPlan(plan);
      var updated := EvaluateEligibility(eligibility);
      if updated.None? { return None; }
      var out, executed := RunSegments(plan, order, bySegment, run);
      if out.Raised? { return None; }
      return Some(Summary(|eligibility| + executed, out.processed, out.written, updated.value, unsupported));
    }
  }

  /** How the groups grow with one more step of the plan. */
  lemma OneMoreStep(plan: seq<Step>, i: nat)
    requires i < |plan|
    ensures forall kind :: OfKind(plan[..i + 1], kind) == OfKind(plan[..i], kind) + if plan[i].kind == kind then [plan[i]] else []
    ensures forall g ::
      StepsOf(plan[..i + 1], g) == StepsOf(plan[..i], g) + if plan[i].kind.Ranking? && KeyOf(plan[i]) == g then [plan[i]] else []
    ensures Segments(plan[..i + 1])
      == Segments(plan[..i]) + if plan[i].kind.Ranking? && KeyOf(plan[i]) !in Segments(plan[..i]) then [KeyOf(plan[i])] else []
  {
    assert plan[..i + 1][..i] == plan[..i] && plan[..i + 1][i] == plan[i];
  }

  lemma OneMoreLength(plan: seq<Step>, order: seq<SegmentKey>, j: nat)
    requires j < |order|
    ensures Sum(Lengths(plan, order[..j + 1])) == Sum(Lengths(plan, order[..j])) + |StepsOf(plan, order[j])|
  {
    var n := |StepsOf(plan, order[j])|;
    assert Lengths(plan, order[..j + 1]) == Lengths(plan, order[..j]) + [n];
    SumAppend(Lengths(plan, order[..j]), [n]);
    assert Sum([n]) == n + Sum([n][1..]);
  }

  /** A start beyond the last profile ends the loop like the exact end does. */
  lemma BeyondTheEnd(o: Oracle, step: Step, profiles: seq<string>, start: nat, p: Pass)
    requires start < |profiles|
    ensures RunBatches(o, step, profiles, start + MAX_RANKING_PROFILES_PER_BATCH, p)
         == RunBatches(o, step, profiles, start + |Batch(profiles, start)|, p)
  {
  }

  lemma {:induction false} OneRaises(o: Oracle, steps: seq<Step>, i: nat)
    requires i < |steps| && o.update(steps[i]).None?
    ensures Updated(o, steps).None?
    decreases |steps|
  {
    if i < |steps| - 1 {
      assert steps[..|steps| - 1][i] == steps[i];
      OneRaises(o, steps[..|steps| - 1], i);
    }
  }
}
