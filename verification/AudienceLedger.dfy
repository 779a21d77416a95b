/**
  The audience-sync ledger: concurrent jobs take a session advisory lock, find or insert their
  run row, count the audience, call the provider and record the outcome. A job is a session whose
  commits are the steps of the machine; a run interleaves any number of sessions, and any of them
  may fail or lose its connection between two steps.
*/
module AudienceLedger {
  import opened Common
  import opened AudienceMembers
  import opened Text

  /** One call of the job with its arguments already read and checked. */
  datatype Job = Job(
    tenant: Uuid,
    campaign: Uuid,
    segment: Uuid,
    platform: Platform,
    name: string,
    execution: Option<Uuid>,
    dryRun: bool)

  function Suffix(execution: Option<Uuid>): string {
    if execution.Some? then ":" + execution.value else ""
  }

  function Key(j: Job): string {
    j.campaign + ":" + j.segment + ":" + Code(j.platform) + ":" + (Lower(j.name) + Suffix(j.execution))
  }

  function LockKey(j: Job): string {
    if j.platform.Leo? then "audience-sync:leo_ads:" + j.tenant
    else "audience-sync:" + j.tenant + ":" + j.campaign + ":" + Code(j.platform) + ":" + Lower(j.name)
  }

  // ----- Does the idempotency key determine the lock? -----

  lemma SameHead(a: string, b: string, x: string, y: string)
    requires |a| == |b| && a + x == b + y
    ensures a == b && x == y
  {
    assert a == (a + x)[..|a|] && b == (b + y)[..|b|];
    assert x == (a + x)[|a|..] && y == (b + y)[|b|..];
  }

  lemma SameWord(a: string, b: string, x: string, y: string)
    requires ':' !in a && ':' !in b && a + ":" + x == b + ":" + y
    ensures a == b && x == y
  {
    var s := a + ":" + x;
    assert s[|a|] == ':' && s[|b|] == ':';
    assert |a| == |b|;
    assert a + ":" + x == a + (":" + x) && b + ":" + y == b + (":" + y);
    SameHead(a, b, ":" + x, ":" + y);
    assert x == (":" + x)[1..] && y == (":" + y)[1..];
  }

  lemma Regroup(a: string, b: string, c: string, d: string)
    ensures a + ":" + b + ":" + c + ":" + d == a + ":" + (b + ":" + (c + ":" + d))
  {
  }

  lemma KeyDeterminesParts(a: Job, b: Job)
    requires Key(a) == Key(b)
    ensures a.campaign == b.campaign && a.segment == b.segment && a.platform == b.platform
    ensures Lower(a.name) + Suffix(a.execution) == Lower(b.name) + Suffix(b.execution)
  {
    var ta, tb := Lower(a.name) + Suffix(a.execution), Lower(b.name) + Suffix(b.execution);
    var pa, pb := Code(a.platform) + ":" + ta, Code(b.platform) + ":" + tb;
    var sa, sb := a.segment + ":" + pa, b.segment + ":" + pb;
    hide Code, Lower, Suffix;
    Regroup(a.campaign, a.segment, Code(a.platform), ta);
    Regroup(b.campaign, b.segment, Code(b.platform), tb);
    assert Key(a) == a.campaign + ":" + sa && Key(b) == b.campaign + ":" + sb;
    hide Key;
    SameWord(a.campaign, b.campaign, sa, sb);
    SameWord(a.segment, b.segment, pa, pb);
    SameWord(Code(a.platform), Code(b.platform), ta, tb);
    CodeIsInjective(a.platform, b.platform);
  }

  /** Jobs that wait for each other are of one tenant, and both are for LEO Ads or both for the same
      campaign, platform and name, in any case; those always do. */
  lemma LockDeterminesParts(a: Job, b: Job)
    ensures LockKey(a) == LockKey(b) <==>
      && a.tenant == b.tenant && a.platform.Leo? == b.platform.Leo?
      && (!a.platform.Leo? ==> a.campaign == b.campaign && a.platform == b.platform && Lower(a.name) == Lower(b.name))
  {
    if LockKey(a) == LockKey(b) {
      var x, y := RestOfLock(a), RestOfLock(b);
      hide LockKey, Lower;
      assert "audience-sync:" + x == "audience-sync:" + y;
      SameHead("audience-sync:", "audience-sync:", x, y);
      if a.platform.Leo? || b.platform.Leo? {
        SameRest(a, b);
      } else {
        SameWord(a.tenant, b.tenant, AfterTenant(a), AfterTenant(b));
        SameWord(a.campaign, b.campaign, Code(a.platform) + ":" + Lower(a.name), Code(b.platform) + ":" + Lower(b.name));
        SameWord(Code(a.platform), Code(b.platform), Lower(a.name), Lower(b.name));
        CodeIsInjective(a.platform, b.platform);
      }
    }
  }

  function AfterTenant(j: Job): string {
    j.campaign + ":" + (Code(j.platform) + ":" + Lower(j.name))
  }

  function RestOfLock(j: Job): (r: string)
    ensures LockKey(j) == "audience-sync:" + r
  {
    hide Lower;
    if j.platform.Leo? then
      assert LockKey(j) == "audience-sync:" + ("leo_ads:" + j.tenant);
      "leo_ads:" + j.tenant
    else
      assert LockKey(j) == "audience-sync:" + (j.tenant + ":" + AfterTenant(j));
      j.tenant + ":" + AfterTenant(j)
  }

  lemma SameRest(a: Job, b: Job)
    requires (a.platform.Leo? || b.platform.Leo?) && RestOfLock(a) == RestOfLock(b)
    ensures a.platform.Leo? && b.platform.Leo? && a.tenant == b.tenant
  {
    RestStarts(a);
    RestStarts(b);
    hide RestOfLock;
    if a.platform.Leo? && b.platform.Leo? { SameHead("leo_ads:", "leo_ads:", a.tenant, b.tenant); }
  }

  lemma RestStarts(j: Job)
    ensures |RestOfLock(j)| > 7 && (RestOfLock(j)[7] == ':' <==> j.platform.Leo?)
    ensures j.platform.Leo? ==> RestOfLock(j) == "leo_ads:" + j.tenant
  {
    hide Lower;
    if !j.platform.Leo? { assert RestOfLock(j)[7] == j.tenant[7] && j.tenant[7] in j.tenant; }
  }

  lemma CodeIsInjective(p: Platform, q: Platform)
    requires Code(p) == Code(q)
    ensures p == q
  {
    assert Code(p)[0] == Code(q)[0];
  }

  /** Two jobs of one tenant with the same idempotency key take the same lock exactly when the
      platform is LEO Ads or both or neither name an execution: otherwise one's audience name
      ends in the other's execution id, and they take different locks. */
  lemma KeyDeterminesLockExactly(a: Job, b: Job)
    requires a.tenant == b.tenant && Key(a) == Key(b)
    ensures LockKey(a) == LockKey(b) <==> a.platform.Leo? || (a.execution.Some? <==> b.execution.Some?)
    ensures LockKey(a) == LockKey(b) && !a.platform.Leo? ==> a.execution == b.execution
  {
    KeyDeterminesParts(a, b);
    if !a.platform.Leo? {
      var head := "audience-sync:" + a.tenant + ":" + a.campaign + ":" + Code(a.platform) + ":";
      var la, lb := Lower(a.name), Lower(b.name);
      assert LockKey(a) == head + la && LockKey(b) == head + lb;
      assert |Suffix(a.execution)| == (if a.execution.Some? then 37 else 0);
      assert |Suffix(b.execution)| == (if b.execution.Some? then 37 else 0);
      if a.execution.Some? <==> b.execution.Some? {
        SameHead(la, lb, Suffix(a.execution), Suffix(b.execution));
        if a.execution.Some? { SameHead(":", ":", a.execution.value, b.execution.value); }
      } else {
        assert |la + Suffix(a.execution)| == |lb + Suffix(b.execution)|;
        assert |la| != |lb| && |head + la| != |head + lb|;
      }
    }
  }

  /** A collision: the audience name "x:<id>" without an execution, and "x" in execution <id>. */
  lemma KeysCanCollide(campaign: Uuid, id: Uuid)
    ensures var a := Job(campaign, campaign, campaign, Meta, "x:" + Lower(id), None, false);
      var b := Job(campaign, campaign, campaign, Meta, "x", Some(LowerId(id)), false);
      Key(a) == Key(b) && LockKey(a) != LockKey(b)
  {
  }

  function LowerId(id: Uuid): (r: Uuid)
    ensures r == Lower(id)
  {
    Lower(id)
  }

  // ----- The tables and the sessions -----

  datatype Status = Running | Completed | Failed

  datatype Row = Row(
    tenant: Uuid,
    key: string,
    campaign: Uuid,
    platform: Platform,
    name: string,
    external: Option<string>,
    status: Status,
    dryRun: bool,
    attempts: nat,
    matched: nat,
    eligible: nat,
    uploaded: nat,
    updated: nat)

  /** Where a job is: before its lock; holding it; having found no row; with its row, and the
      audience id it will pass on; with the counts it took. */
  datatype Pc =
    | Waiting
    | Locked
    | Unseen
    | Open(row: nat, given: Option<string>)
    | Counted(row: nat, given: Option<string>, matched: nat, eligible: nat, dry: bool)

  datatype Session = Session(job: Job, pc: Pc)

  datatype Summary = Summary(row: nat, matched: nat, eligible: nat, uploaded: nat, external: Option<string>)

  /** `summaries` lists what the finished jobs returned. */
  datatype Ledger = Ledger(
    rows: seq<Row>,
    locks: map<int, nat>,
    sessions: map<nat, Session>,
    clock: nat,
    summaries: seq<Summary>)

  /** `hash` is the 64-bit hash of a lock key, which may collide; `permitted` are the jobs that
      callers ask for. */
  datatype Config = Config(hash: string -> int, permitted: Job -> bool)

  datatype Action =
    | Begin(s: nat, job: Job)
    | TakeLock(s: nat)
    | LookUp(s: nat)
    | InsertRow(s: nat, reuse: Option<nat>)
    | Count(s: nat, view: View, configured: bool)
    | Finish(s: nat, created: string)
    | Fail(s: nat, marked: bool)
    | Disconnect(s: nat)

  const INIT := Ledger([], map[], map[], 0, [])

  function LockOf(c: Config, j: Job): int {
    c.hash(LockKey(j))
  }

  predicate IsRow(rows: seq<Row>, i: nat, tenant: Uuid, key: string) {
    i < |rows| && rows[i].tenant == tenant && rows[i].key == key
  }

  function Find(rows: seq<Row>, tenant: Uuid, key: string): (r: Option<nat>)
    ensures r.Some? ==> IsRow(rows, r.value, tenant, key)
    ensures r.None? ==> forall i :: !IsRow(rows, i, tenant, key)
  {
    if rows == [] then None else
      var last := |rows| - 1;
      if IsRow(rows, last, tenant, key) then Some(last) else
        var r := Find(rows[..last], tenant, key);
        assert r.None? ==> forall i :: IsRow(rows, i, tenant, key) ==> IsRow(rows[..last], i, tenant, key);
        r
  }

  /** A row of the same campaign, platform and name that recorded an external audience. */
  predicate HasAudience(g: Ledger, i: nat, j: Job) {
    && i < |g.rows| && g.rows[i].tenant == j.tenant && g.rows[i].campaign == j.campaign
    && g.rows[i].platform == j.platform && Lower(g.rows[i].name) == Lower(j.name) && g.rows[i].external.Some?
  }

  /** What the ORDER BY updated_at DESC LIMIT 1 query may return. */
  predicate IsLatest(g: Ledger, reuse: Option<nat>, j: Job) {
    match reuse
    case None => forall i :: 0 <= i < |g.rows| ==> !HasAudience(g, i, j)
    case Some(i) => HasAudience(g, i, j) && forall k :: 0 <= k < |g.rows| && HasAudience(g, k, j) ==> g.rows[k].updated <= g.rows[i].updated
  }

  predicate At(g: Ledger, s: nat) {
    s in g.sessions
  }

  function Move(g: Ledger, s: nat, pc: Pc): (out: Ledger)
    requires At(g, s)
    ensures out == g.(sessions := out.sessions)
  {
    g.(sessions := g.sessions[s := g.sessions[s].(pc := pc)])
  }

  function Write(g: Ledger, i: nat, row: Row): (out: Ledger)
    requires i < |g.rows|
    ensures out == g.(rows := out.rows, clock := out.clock) && |out.rows| == |g.rows|
    ensures forall k :: 0 <= k < |g.rows| && k != i ==> out.rows[k] == g.rows[k]
    ensures out.rows[i] == row.(updated := g.clock)
  {
    g.(rows := g.rows[i := row.(updated := g.clock)], clock := g.clock + 1)
  }

  /** The connection closes: its lock is free again. */
  function End(g: Ledger, s: nat): Ledger {
    g.(sessions := g.sessions - {s}, locks := map h | h in g.locks && g.locks[h] != s :: g.locks[h])
  }

  function Lock(c: Config, g: Ledger, s: nat): Ledger
    requires At(g, s)
  {
    var h := LockOf(c, g.sessions[s].job);
    if h in g.locks then g else Move(g, s, Locked).(locks := g.locks[h := s])
  }

  /** SELECT ... FOR UPDATE and the UPDATE of a row that exists are one commit. */
  function Look(g: Ledger, s: nat): Ledger
    requires At(g, s)
  {
    var j := g.sessions[s].job;
    match Find(g.rows, j.tenant, Key(j))
    case None => Move(g, s, Unseen)
    case Some(i) =>
      var row := g.rows[i];
      Move(Write(g, i, row.(status := Running, dryRun := j.dryRun, attempts := row.attempts + 1)), s, Open(i, row.external))
  }

  function NewRow(j: Job, clock: nat): Row {
    Row(j.tenant, Key(j), j.campaign, j.platform, j.name, None, Running, j.dryRun, 1, 0, 0, 0, clock)
  }

  function Appended(g: Ledger, j: Job): Ledger {
    g.(rows := g.rows + [NewRow(j, g.clock)], clock := g.clock + 1)
  }

  /** Another session may have inserted the row meanwhile: then the insert violates the unique
      constraint and the job ends. A new row of an execution takes over the latest audience. */
  function Insert(g: Ledger, s: nat, reuse: Option<nat>): Ledger
    requires At(g, s) && (reuse.Some? ==> reuse.value < |g.rows|)
  {
    var j := g.sessions[s].job;
    if Find(g.rows, j.tenant, Key(j)).Some? then End(g, s) else
      var given := if j.execution.Some? && reuse.Some? then g.rows[reuse.value].external else None;
      Move(Appended(g, j), s, Open(|g.rows|, given))
  }

  predicate ViewOf(v: View, j: Job) {
    v.tenant == j.tenant && v.campaign == j.campaign
  }

  function CountAudience(g: Ledger, s: nat, view: View, configured: bool): Ledger
    requires At(g, s) && g.sessions[s].pc.Open? && g.sessions[s].pc.row < |g.rows|
  {
    var Session(j, pc) := g.sessions[s];
    var matched, eligible := MatchedCount(view, view.profiles), |MembersIn(view, j.platform)|;
    var dry := j.dryRun || (!j.platform.Leo? && !configured);
    Move(if j.platform.Leo? then g else
           Write(g, pc.row, g.rows[pc.row].(status := Running, matched := matched, eligible := eligible)),
         s, Counted(pc.row, pc.given, matched, eligible, dry))
  }

  /** Every adapter keeps an audience id it is given and creates one otherwise. */
  function ProviderAudience(given: Option<string>, created: string): string {
    if given.Some? && given.value != "" then given.value else created
  }

  function Outcome(j: Job, pc: Pc, created: string): Summary
    requires pc.Counted?
  {
    if pc.dry || (!j.platform.Leo? && pc.eligible == 0) then Summary(pc.row, pc.matched, pc.eligible, 0, None)
    else Summary(pc.row, pc.matched, pc.eligible, pc.eligible,
                 Some(if j.platform.Leo? then created else ProviderAudience(pc.given, created)))
  }

  function FinishedRow(j: Job, row: Row, pc: Pc, created: string): Row
    requires pc.Counted?
  {
    var out := Outcome(j, pc, created);
    if j.platform.Leo? then
      row.(status := Completed, dryRun := pc.dry, matched := pc.matched, eligible := pc.eligible,
           uploaded := out.uploaded, external := out.external)
    else if pc.dry then row.(status := Completed, dryRun := true)
    else if out.external.None? then row.(status := Completed)
    else row.(status := Completed, uploaded := out.uploaded, external := out.external)
  }

  function Complete(g: Ledger, s: nat, created: string): Ledger
    requires At(g, s) && g.sessions[s].pc.Counted? && g.sessions[s].pc.row < |g.rows|
  {
    var Session(j, pc) := g.sessions[s];
    End(Write(g, pc.row, FinishedRow(j, g.rows[pc.row], pc, created)), s)
      .(summaries := g.summaries + [Outcome(j, pc, created)])
  }

  function RowOf(g: Ledger, s: nat): Option<nat>
    requires At(g, s)
  {
    match g.sessions[s].pc
    case Open(i, _) => Some(i)
    case Counted(i, _, _, _, _) => Some(i)
    case Locked => Find(g.rows, g.sessions[s].job.tenant, Key(g.sessions[s].job))
    case _ => None
  }

  /** The error handler marks the row the job has seen, if it can. */
  function Abort(g: Ledger, s: nat, marked: bool): Ledger
    requires At(g, s)
  {
    var i := RowOf(g, s);
    End(if marked && i.Some? && i.value < |g.rows| then Write(g, i.value, g.rows[i.value].(status := Failed)) else g, s)
  }

  predicate Enabled(c: Config, g: Ledger, a: Action) {
    match a
    case Begin(s, j) => !At(g, s) && c.permitted(j)
    case TakeLock(s) => At(g, s) && g.sessions[s].pc.Waiting?
    case LookUp(s) => At(g, s) && g.sessions[s].pc.Locked?
    case InsertRow(s, reuse) => At(g, s) && g.sessions[s].pc.Unseen? && IsLatest(g, reuse, g.sessions[s].job)
    case Count(s, view, _) => At(g, s) && g.sessions[s].pc.Open? && g.sessions[s].pc.row < |g.rows| && ViewOf(view, g.sessions[s].job)
    case Finish(s, created) => At(g, s) && g.sessions[s].pc.Counted? && g.sessions[s].pc.row < |g.rows| && created != ""
    case Fail(s, _) => At(g, s)
    case Disconnect(s) => At(g, s)
  }

  /** One action; one that is not enabled changes nothing. */
  function Apply(c: Config, g: Ledger, a: Action): Ledger {
    if !Enabled(c, g, a) then g else
    match a
    case Begin(s, j) => g.(sessions := g.sessions[s := Session(j, Waiting)])
    case TakeLock(s) => Lock(c, g, s)
    case LookUp(s) => Look(g, s)
    case InsertRow(s, reuse) => Insert(g, s, reuse)
    case Count(s, view, configured) => CountAudience(g, s, view, configured)
    case Finish(s, created) => Complete(g, s, created)
    case Fail(s, marked) => Abort(g, s, marked)
    case Disconnect(s) => End(g, s)
  }

  function Run(c: Config, g: Ledger, acts: seq<Action>): Ledger
    decreases |acts|
  {
    if acts == [] then g else Run(c, Apply(c, g, acts[0]), acts[1..])
  }

  // ----- The invariant -----

  ghost predicate RowsUnique(rows: seq<Row>) {
    forall i, k :: 0 <= i < k < |rows| ==> !(rows[i].tenant == rows[k].tenant && rows[i].key == rows[k].key)
  }

  ghost predicate IdOk(id: Option<string>) {
    id.Some? ==> id.value != ""
  }

  ghost predicate OwnRow(g: Ledger, j: Job, i: nat) {
    IsRow(g.rows, i, j.tenant, Key(j)) && g.rows[i].platform == j.platform
  }

  /** A session past its lock is the one that holds it; its row is the one of its key. */
  ghost predicate SessionOk(c: Config, g: Ledger, s: nat)
    requires At(g, s)
  {
    var Session(j, pc) := g.sessions[s];
    && c.permitted(j)
    && (!pc.Waiting? ==> LockOf(c, j) in g.locks && g.locks[LockOf(c, j)] == s)
    && (pc.Open? || pc.Counted? ==> OwnRow(g, j, pc.row) && IdOk(pc.given))
    && (pc.Counted? ==> pc.eligible <= pc.matched && (j.dryRun ==> pc.dry))
  }

  ghost predicate SummaryOk(m: Summary) {
    m.uploaded <= m.eligible <= m.matched
  }

  /** Every row was made for a job of its key, and has its tenant, campaign, platform and name. */
  ghost predicate MadeFor(row: Row, j: Job) {
    && Key(j) == row.key && j.platform == row.platform
    && j.tenant == row.tenant && j.campaign == row.campaign && j.name == row.name
  }

  ghost predicate RowOk(row: Row) {
    IdOk(row.external) && row.attempts >= 1 && exists j :: MadeFor(row, j)
  }

  ghost predicate Inv(c: Config, g: Ledger) {
    && RowsUnique(g.rows)
    && (forall i :: 0 <= i < |g.rows| ==> RowOk(g.rows[i]))
    && (forall s :: At(g, s) ==> SessionOk(c, g, s))
    && (forall m :: m in g.summaries ==> SummaryOk(m))
  }

  /** No step removes a row or changes what identifies it. */
  ghost predicate RowsKept(g: Ledger, h: Ledger) {
    && |g.rows| <= |h.rows|
    && forall i :: 0 <= i < |g.rows| ==>
         h.rows[i].tenant == g.rows[i].tenant && h.rows[i].key == g.rows[i].key && h.rows[i].platform == g.rows[i].platform
  }

  lemma OwnRowKept(g: Ledger, h: Ledger, j: Job, i: nat)
    requires RowsKept(g, h) && OwnRow(g, j, i)
    ensures OwnRow(h, j, i)
  {
  }

  lemma SessionSurvives(c: Config, g: Ledger, h: Ledger, s: nat)
    requires At(g, s) && SessionOk(c, g, s) && RowsKept(g, h)
    requires At(h, s) && h.sessions[s] == g.sessions[s]
    requires LockOf(c, g.sessions[s].job) in g.locks && g.locks[LockOf(c, g.sessions[s].job)] == s ==>
      LockOf(c, g.sessions[s].job) in h.locks && h.locks[LockOf(c, g.sessions[s].job)] == s
    ensures SessionOk(c, h, s)
  {
  }

  lemma EndKeepsInv(c: Config, g: Ledger, s: nat)
    requires Inv(c, g)
    ensures Inv(c, End(g, s)) && RowsKept(g, End(g, s))
  {
    hide SessionOk, LockKey, Key;
    forall v | At(End(g, s), v) ensures SessionOk(c, End(g, s), v) {
      SessionSurvives(c, g, End(g, s), v);
    }
  }

  lemma SameRowOk(row: Row, later: Row)
    requires RowOk(row) && IdOk(later.external) && later.attempts >= row.attempts
    requires later.key == row.key && later.platform == row.platform
    requires later.tenant == row.tenant && later.campaign == row.campaign && later.name == row.name
    ensures RowOk(later)
  {
    hide Key;
    var j :| MadeFor(row, j);
    assert MadeFor(later, j);
  }

  lemma WriteKeepsInv(c: Config, g: Ledger, i: nat, row: Row)
    requires Inv(c, g) && i < |g.rows| && RowOk(row)
    requires row.tenant == g.rows[i].tenant && row.key == g.rows[i].key && row.platform == g.rows[i].platform
    ensures Inv(c, Write(g, i, row)) && RowsKept(g, Write(g, i, row))
  {
    var h := Write(g, i, row);
    hide SessionOk, LockKey, Key, Write;
    forall k | 0 <= k < |h.rows| ensures RowOk(h.rows[k]) {
      if k != i {
        assert h.rows[k] == g.rows[k];
      } else {
        SameRowOk(row, h.rows[i]);
      }
    }
    forall v | At(h, v) ensures SessionOk(c, h, v) {
      SessionSurvives(c, g, h, v);
    }
  }

  lemma MoveKeepsInv(c: Config, g: Ledger, s: nat, pc: Pc)
    requires Inv(c, g) && At(g, s) && SessionOk(c, Move(g, s, pc), s)
    ensures Inv(c, Move(g, s, pc)) && RowsKept(g, Move(g, s, pc))
  {
    var h := Move(g, s, pc);
    hide SessionOk, LockKey, Key;
    forall v | At(h, v) ensures SessionOk(c, h, v) {
      if v != s { SessionSurvives(c, g, h, v); }
    }
  }

  lemma LockKeepsInv(c: Config, g: Ledger, s: nat)
    requires Inv(c, g) && At(g, s) && g.sessions[s].pc.Waiting?
    ensures Inv(c, Lock(c, g, s)) && RowsKept(g, Lock(c, g, s))
  {
    var h := Lock(c, g, s);
    assert SessionOk(c, g, s);
    hide LockKey, Key;
    forall v | At(h, v) ensures SessionOk(c, h, v) {
      if v != s {
        assert SessionOk(c, g, v);
        hide SessionOk;
        SessionSurvives(c, g, h, v);
      }
    }
  }

  lemma LookKeepsInv(c: Config, g: Ledger, s: nat)
    requires Inv(c, g) && At(g, s) && g.sessions[s].pc.Locked?
    ensures Inv(c, Look(g, s)) && RowsKept(g, Look(g, s))
  {
    var j := g.sessions[s].job;
    assert SessionOk(c, g, s);
    hide LockKey, Key, RowsUnique, MadeFor;
    match Find(g.rows, j.tenant, Key(j)) {
      case None => MoveKeepsInv(c, g, s, Unseen);
      case Some(i) =>
        var row := g.rows[i].(status := Running, dryRun := j.dryRun, attempts := g.rows[i].attempts + 1);
        assert RowOk(g.rows[i]);
        SameRowOk(g.rows[i], row);
        hide RowOk, Find, Inv;
        WriteKeepsInv(c, g, i, row);
        RowIsTheJobs(c, g, s, i);
        var h := Write(g, i, row);
        SessionSurvives(c, g, h, s);
        OwnRowKept(g, h, j, i);
        hide SessionOk, OwnRow;
        OpenIsOk(c, h, s, i, g.rows[i].external);
        MoveKeepsInv(c, h, s, Open(i, g.rows[i].external));
    }
  }

  /** A row with a job's idempotency key is of the job's platform. */
  lemma RowIsTheJobs(c: Config, g: Ledger, s: nat, i: nat)
    requires Inv(c, g) && At(g, s) && IsRow(g.rows, i, g.sessions[s].job.tenant, Key(g.sessions[s].job))
    ensures OwnRow(g, g.sessions[s].job, i)
  {
    assert RowOk(g.rows[i]);
    hide Inv;
    var j :| MadeFor(g.rows[i], j);
    KeyDeterminesParts(j, g.sessions[s].job);
  }

  lemma InsertKeepsInv(c: Config, g: Ledger, s: nat, reuse: Option<nat>)
    requires Inv(c, g) && At(g, s) && g.sessions[s].pc.Unseen?
    requires IsLatest(g, reuse, g.sessions[s].job)
    ensures Inv(c, Insert(g, s, reuse)) && RowsKept(g, Insert(g, s, reuse))
  {
    var j := g.sessions[s].job;
    assert SessionOk(c, g, s);
    hide LockKey, Key, RowsUnique, MadeFor, SessionOk;
    if Find(g.rows, j.tenant, Key(j)).Some? {
      EndKeepsInv(c, g, s);
    } else {
      AppendKeepsInv(c, g, s);
      var h := Appended(g, j);
      var given := if j.execution.Some? && reuse.Some? then g.rows[reuse.value].external else None;
      assert IdOk(given) by {
        if reuse.Some? { assert RowOk(g.rows[reuse.value]); }
      }
      assert SessionOk(c, h, s) && h.sessions[s] == g.sessions[s] && At(h, s);
      OpenIsOk(c, h, s, |g.rows|, given);
      MoveKeepsInv(c, h, s, Open(|g.rows|, given));
    }
  }

  lemma OpenIsOk(c: Config, g: Ledger, s: nat, i: nat, given: Option<string>)
    requires At(g, s) && SessionOk(c, g, s) && !g.sessions[s].pc.Waiting?
    requires OwnRow(g, g.sessions[s].job, i) && IdOk(given)
    ensures SessionOk(c, Move(g, s, Open(i, given)), s)
  {
    hide LockKey, Key;
  }

  lemma AppendedUnique(rows: seq<Row>, row: Row)
    requires RowsUnique(rows) && Find(rows, row.tenant, row.key).None?
    ensures RowsUnique(rows + [row])
  {
    forall i | 0 <= i < |rows| ensures !(rows[i].tenant == row.tenant && rows[i].key == row.key) {
      assert !IsRow(rows, i, row.tenant, row.key);
    }
  }

  lemma AppendKeepsInv(c: Config, g: Ledger, s: nat)
    requires Inv(c, g) && At(g, s) && Find(g.rows, g.sessions[s].job.tenant, Key(g.sessions[s].job)).None?
    ensures var h := Appended(g, g.sessions[s].job);
      Inv(c, h) && RowsKept(g, h) && OwnRow(h, g.sessions[s].job, |g.rows|)
  {
    var j := g.sessions[s].job;
    var h := Appended(g, j);
    hide SessionOk, LockKey, Key;
    assert MadeFor(NewRow(j, g.clock), j);
    assert RowOk(NewRow(j, g.clock));
    AppendedUnique(g.rows, NewRow(j, g.clock));
    hide MadeFor, RowOk, RowsUnique, Find;
    forall k | 0 <= k < |h.rows| ensures RowOk(h.rows[k]) {
    }
    forall v | At(h, v) ensures SessionOk(c, h, v) {
      SessionSurvives(c, g, h, v);
    }
  }

  lemma CountKeepsInv(c: Config, g: Ledger, s: nat, view: View, configured: bool)
    requires Inv(c, g) && At(g, s) && g.sessions[s].pc.Open? && g.sessions[s].pc.row < |g.rows|
    ensures Inv(c, CountAudience(g, s, view, configured)) && RowsKept(g, CountAudience(g, s, view, configured))
  {
    var Session(j, pc) := g.sessions[s];
    assert SessionOk(c, g, s) && RowOk(g.rows[pc.row]);
    MembersAreTheEligible(view, j.platform, Member("", None, None));
    hide MatchedCount, MembersIn, LockKey, Key, RowsUnique, MadeFor, RowOk;
    var matched, eligible := MatchedCount(view, view.profiles), |MembersIn(view, j.platform)|;
    var row := g.rows[pc.row].(status := Running, matched := matched, eligible := eligible);
    SameRowOk(g.rows[pc.row], row);
    var h := if j.platform.Leo? then g else Write(g, pc.row, row);
    if !j.platform.Leo? { WriteKeepsInv(c, g, pc.row, row); }
    assert SessionOk(c, h, s);
    var dry := j.dryRun || (!j.platform.Leo? && !configured);
    MoveKeepsInv(c, h, s, Counted(pc.row, pc.given, matched, eligible, dry));
  }

  lemma FinishKeepsInv(c: Config, g: Ledger, s: nat, created: string)
    requires Inv(c, g) && At(g, s) && g.sessions[s].pc.Counted? && g.sessions[s].pc.row < |g.rows| && created != ""
    ensures Inv(c, Complete(g, s, created)) && RowsKept(g, Complete(g, s, created))
  {
    var Session(j, pc) := g.sessions[s];
    assert SessionOk(c, g, s) && RowOk(g.rows[pc.row]);
    hide LockKey, Key, RowsUnique, MadeFor, RowOk;
    var row := FinishedRow(j, g.rows[pc.row], pc, created);
    SameRowOk(g.rows[pc.row], row);
    WriteKeepsInv(c, g, pc.row, row);
    var h := Write(g, pc.row, row);
    EndKeepsInv(c, h, s);
    hide SessionOk;
    var k := End(h, s);
    var out := k.(summaries := k.summaries + [Outcome(j, pc, created)]);
    forall v | At(out, v) ensures SessionOk(c, out, v) {
      SessionSurvives(c, k, out, v);
    }
  }

  lemma AbortKeepsInv(c: Config, g: Ledger, s: nat, marked: bool)
    requires Inv(c, g) && At(g, s)
    ensures Inv(c, Abort(g, s, marked)) && RowsKept(g, Abort(g, s, marked))
  {
    hide LockKey, Key, RowsUnique, MadeFor, SessionOk, RowOk, Find;
    var i := RowOf(g, s);
    if marked && i.Some? && i.value < |g.rows| {
      var row := g.rows[i.value].(status := Failed);
      assert RowOk(g.rows[i.value]);
      AttemptsPositive(g.rows[i.value]);
      SameRowOk(g.rows[i.value], row);
      WriteKeepsInv(c, g, i.value, row);
      EndKeepsInv(c, Write(g, i.value, row), s);
    } else {
      EndKeepsInv(c, g, s);
    }
  }

  lemma AttemptsPositive(row: Row)
    requires RowOk(row)
    ensures row.attempts >= 1 && IdOk(row.external)
  {
  }

  lemma BeginKeepsInv(c: Config, g: Ledger, s: nat, j: Job)
    requires Inv(c, g) && !At(g, s) && c.permitted(j)
    ensures var h := g.(sessions := g.sessions[s := Session(j, Waiting)]);
      Inv(c, h) && RowsKept(g, h)
  {
    var h := g.(sessions := g.sessions[s := Session(j, Waiting)]);
    hide LockKey, Key, RowsUnique, RowOk;
    forall v | At(h, v) ensures SessionOk(c, h, v) {
      if v != s {
        assert SessionOk(c, g, v);
        hide SessionOk;
        SessionSurvives(c, g, h, v);
      }
    }
  }

  lemma StepKeepsInv(c: Config, g: Ledger, a: Action)
    requires Inv(c, g)
    ensures Inv(c, Apply(c, g, a)) && RowsKept(g, Apply(c, g, a))
  {
    hide Inv, Lock, Look, Insert, CountAudience, Complete, Abort, End, IsLatest, Key, LockKey;
    if Enabled(c, g, a) {
      match a
      case Begin(s, j) => BeginKeepsInv(c, g, s, j);
      case TakeLock(s) => LockKeepsInv(c, g, s);
      case LookUp(s) => LookKeepsInv(c, g, s);
      case InsertRow(s, reuse) => InsertKeepsInv(c, g, s, reuse);
      case Count(s, view, configured) => CountKeepsInv(c, g, s, view, configured);
      case Finish(s, created) => FinishKeepsInv(c, g, s, created);
      case Fail(s, marked) => AbortKeepsInv(c, g, s, marked);
      case Disconnect(s) => EndKeepsInv(c, g, s);
    }
  }

  lemma {:induction false} RunKeepsInv(c: Config, g: Ledger, acts: seq<Action>)
    requires Inv(c, g)
    ensures Inv(c, Run(c, g, acts)) && RowsKept(g, Run(c, g, acts))
    decreases |acts|
  {
    hide Inv, Apply;
    if acts != [] {
      StepKeepsInv(c, g, acts[0]);
      RunKeepsInv(c, Apply(c, g, acts[0]), acts[1..]);
    }
  }

  lemma ReachableInv(c: Config, acts: seq<Action>)
    ensures Inv(c, Run(c, INIT, acts))
  {
    assert Inv(c, INIT);
    RunKeepsInv(c, INIT, acts);
  }

  // ----- What holds over every run -----

  /** At most one row per tenant and idempotency key, however many jobs run at once; and each
      summary a job returned has uploaded <= eligible <= matched. */
  lemma OneRowPerKey(c: Config, acts: seq<Action>)
    ensures var g := Run(c, INIT, acts);
      && (forall i, k :: 0 <= i < k < |g.rows| ==> !(g.rows[i].tenant == g.rows[k].tenant && g.rows[i].key == g.rows[k].key))
      && (forall m :: m in g.summaries ==> m.uploaded <= m.eligible <= m.matched)
  {
    ReachableInv(c, acts);
    var g := Run(c, INIT, acts);
    forall m | m in g.summaries ensures SummaryOk(m) {
    }
  }

  /** Jobs that take the same lock never work at the same time. */
  lemma LocksExclude(c: Config, acts: seq<Action>, s: nat, v: nat)
    requires var g := Run(c, INIT, acts);
      && At(g, s) && At(g, v) && s != v && LockOf(c, g.sessions[s].job) == LockOf(c, g.sessions[v].job)
    ensures var g := Run(c, INIT, acts); g.sessions[s].pc.Waiting? || g.sessions[v].pc.Waiting?
  {
    ReachableInv(c, acts);
    hide Run, Key, LockKey;
    assert SessionOk(c, Run(c, INIT, acts), s) && SessionOk(c, Run(c, INIT, acts), v);
  }

  /** A lock that is taken is held by a job that is under way and past its wait for it. */
  ghost predicate LocksHeld(c: Config, g: Ledger) {
    forall h :: h in g.locks ==>
      var s := g.locks[h]; At(g, s) && !g.sessions[s].pc.Waiting? && LockOf(c, g.sessions[s].job) == h
  }

  lemma StepKeepsLocksHeld(c: Config, g: Ledger, a: Action)
    requires Inv(c, g) && LocksHeld(c, g)
    ensures LocksHeld(c, Apply(c, g, a))
  {
    hide Key, LockKey, MatchedCount, MembersIn, Find, IsLatest, Outcome, FinishedRow, RowOf;
  }

  /** So whoever waits for a lock waits for a job that holds it, and no finished, failed or lost
      one keeps it: with nobody else at work on the lock, a waiting job gets it. */
  lemma {:induction false} OnlyJobsHoldLocks(c: Config, g: Ledger, acts: seq<Action>)
    requires Inv(c, g) && LocksHeld(c, g)
    ensures LocksHeld(c, Run(c, g, acts))
    decreases |acts|
  {
    hide Inv, Apply, LocksHeld;
    if acts != [] {
      StepKeepsLocksHeld(c, g, acts[0]);
      StepKeepsInv(c, g, acts[0]);
      OnlyJobsHoldLocks(c, Apply(c, g, acts[0]), acts[1..]);
    }
  }

  lemma WaitingJobsGetTheirLock(c: Config, acts: seq<Action>, s: nat)
    requires var g := Run(c, INIT, acts); At(g, s) && g.sessions[s].pc.Waiting?
    ensures var g := Run(c, INIT, acts);
      (Apply(c, g, TakeLock(s)).sessions[s].pc.Locked? <==>
        forall v :: At(g, v) && LockOf(c, g.sessions[v].job) == LockOf(c, g.sessions[s].job) ==> g.sessions[v].pc.Waiting?)
  {
    assert Inv(c, INIT);
    RunKeepsInv(c, INIT, acts);
    OnlyJobsHoldLocks(c, INIT, acts);
    hide Run, Key, LockKey;
    var g := Run(c, INIT, acts);
    forall v | At(g, v) ensures SessionOk(c, g, v) {
    }
  }

  // ----- Which audience is the latest -----

  /** Every write of a row has its own time. */
  ghost predicate TimesApart(g: Ledger) {
    && (forall i :: 0 <= i < |g.rows| ==> g.rows[i].updated < g.clock)
    && forall i, k :: 0 <= i < k < |g.rows| ==> g.rows[i].updated != g.rows[k].updated
  }

  lemma StepKeepsTimesApart(c: Config, g: Ledger, a: Action)
    requires TimesApart(g)
    ensures TimesApart(Apply(c, g, a))
  {
    hide Key, LockKey, MatchedCount, MembersIn, Find, IsLatest, Outcome, RowOf;
  }

  lemma {:induction false} TimesStayApart(c: Config, g: Ledger, acts: seq<Action>)
    requires TimesApart(g)
    ensures TimesApart(Run(c, g, acts))
    decreases |acts|
  {
    hide Apply, TimesApart;
    if acts != [] {
      StepKeepsTimesApart(c, g, acts[0]);
      TimesStayApart(c, Apply(c, g, acts[0]), acts[1..]);
    }
  }

  lemma OneLatest(g: Ledger, j: Job, a: Option<nat>, b: Option<nat>)
    requires TimesApart(g) && IsLatest(g, a, j) && IsLatest(g, b, j)
    ensures a == b
  {
    hide Lower;
  }

  predicate RecordedFor(row: Row, j: Job) {
    && row.tenant == j.tenant && row.campaign == j.campaign && row.platform == j.platform
    && Lower(row.name) == Lower(j.name) && row.external.Some?
  }

  /** The audience a new execution takes over is determined: it is the one of the row written last
      among those of the same tenant, campaign, platform and name, in any case, that recorded one. */
  lemma LatestIsDetermined(c: Config, acts: seq<Action>, j: Job, a: Option<nat>, b: Option<nat>)
    requires IsLatest(Run(c, INIT, acts), a, j) && IsLatest(Run(c, INIT, acts), b, j)
    ensures a == b
    ensures var rows := Run(c, INIT, acts).rows;
      && (a.None? <==> forall i :: 0 <= i < |rows| ==> !RecordedFor(rows[i], j))
      && (a.Some? ==> a.value < |rows| && RecordedFor(rows[a.value], j))
  {
    TimesStayApart(c, INIT, acts);
    hide Run;
    var g := Run(c, INIT, acts);
    assert forall i :: 0 <= i < |g.rows| ==> (HasAudience(g, i, j) <==> RecordedFor(g.rows[i], j));
    OneLatest(g, j, a, b);
  }

  // ----- Attempts -----

  ghost predicate Opener(g: Ledger, h: Ledger, i: nat, s: nat) {
    && At(h, s) && h.sessions[s].pc.Open? && h.sessions[s].pc.row == i
    && !(At(g, s) && g.sessions[s].pc == h.sessions[s].pc)
  }

  /** In this step some session comes to hold row i. */
  ghost predicate Opens(c: Config, g: Ledger, a: Action, i: nat) {
    exists s :: Opener(g, Apply(c, g, a), i, s)
  }

  ghost function OpenCount(c: Config, g: Ledger, acts: seq<Action>, i: nat): nat
    decreases |acts|
  {
    if acts == [] then 0 else
      (if Opens(c, g, acts[0], i) then 1 else 0) + OpenCount(c, Apply(c, g, acts[0]), acts[1..], i)
  }

  ghost function AttemptsOf(g: Ledger, i: nat): nat {
    if i < |g.rows| then g.rows[i].attempts else 0
  }

  lemma StepCountsAttempts(c: Config, g: Ledger, a: Action, i: nat)
    requires Inv(c, g)
    ensures AttemptsOf(Apply(c, g, a), i) == AttemptsOf(g, i) + if Opens(c, g, a, i) then 1 else 0
  {
    hide Inv, IsLatest, Key, LockKey, MatchedCount, MembersIn, Find;
    var h := Apply(c, g, a);
    if Enabled(c, g, a) && (a.LookUp? || a.InsertRow?) {
      var j := g.sessions[a.s].job;
      var found := Find(g.rows, j.tenant, Key(j));
      if a.LookUp? && found.Some? && found.value == i {
        FindIsRow(g.rows, j.tenant, Key(j));
        assert Opener(g, h, i, a.s);
      } else if a.InsertRow? && found.None? && i == |g.rows| {
        assert Opener(g, h, i, a.s);
      }
    }
  }

  lemma FindIsRow(rows: seq<Row>, tenant: Uuid, key: string)
    ensures var r := Find(rows, tenant, key); r.Some? ==> IsRow(rows, r.value, tenant, key)
  {
  }

  /** A row's attempt count is the number of times a job came to hold it: its insertion and one
      for each retry; nothing else changes it. */
  lemma {:induction false} AttemptsAreOpens(c: Config, g: Ledger, acts: seq<Action>, i: nat)
    requires Inv(c, g)
    ensures AttemptsOf(Run(c, g, acts), i) == AttemptsOf(g, i) + OpenCount(c, g, acts, i)
    decreases |acts|
  {
    hide Inv, Apply, Opens, AttemptsOf;
    if acts != [] {
      StepKeepsInv(c, g, acts[0]);
      StepCountsAttempts(c, g, acts[0], i);
      AttemptsAreOpens(c, Apply(c, g, acts[0]), acts[1..], i);
    }
  }

  // ----- The external audience -----

  /** A job that may record an audience at an external platform. */
  predicate Writer(j: Job) {
    !j.platform.Leo? && !j.dryRun
  }

  /** Two writers of one row that do not exclude each other. */
  ghost predicate Clash(c: Config, a: Job, b: Job) {
    && c.permitted(a) && c.permitted(b) && Writer(a) && Writer(b)
    && a.tenant == b.tenant && Key(a) == Key(b) && LockOf(c, a) != LockOf(c, b)
  }

  /** Two jobs clash only if one names an execution, the other does not, and the audience name
      of the latter ends in that execution's id. */
  lemma ClashNamesAnExecution(c: Config, a: Job, b: Job)
    requires Clash(c, a, b)
    ensures (a.execution.Some? && b.execution.None? && Lower(b.name) == Lower(a.name) + ":" + a.execution.value)
      || (b.execution.Some? && a.execution.None? && Lower(a.name) == Lower(b.name) + ":" + b.execution.value)
  {
    KeyDeterminesLockExactly(a, b);
    KeyDeterminesParts(a, b);
    hide Key, LockKey, Lower;
    assert Lower(a.name) + "" == Lower(a.name) && Lower(b.name) + "" == Lower(b.name);
    if a.execution.Some? {
      assert Lower(a.name) + (":" + a.execution.value) == Lower(a.name) + ":" + a.execution.value;
    } else {
      assert Lower(b.name) + (":" + b.execution.value) == Lower(b.name) + ":" + b.execution.value;
    }
  }

  ghost predicate NoClash(c: Config) {
    forall a, b :: !Clash(c, a, b)
  }

  /** A writer works with the audience its row has, if it has one. */
  ghost predicate WriterOk(g: Ledger, s: nat)
    requires At(g, s)
  {
    var Session(j, pc) := g.sessions[s];
    Writer(j) && (pc.Open? || pc.Counted?) && pc.row < |g.rows| && g.rows[pc.row].external.Some? ==>
      pc.given == g.rows[pc.row].external
  }

  ghost predicate WritersOk(g: Ledger) {
    forall s :: At(g, s) ==> WriterOk(g, s)
  }

  /** No audience recorded for an external platform was replaced or forgotten. */
  ghost predicate AudiencesKept(g: Ledger, h: Ledger) {
    && |g.rows| <= |h.rows|
    && forall i :: 0 <= i < |g.rows| && !g.rows[i].platform.Leo? && g.rows[i].external.Some? ==>
         h.rows[i].external == g.rows[i].external
  }

  /** Only a finishing job changes what a row records of its audience. */
  lemma QuietStep(c: Config, g: Ledger, a: Action)
    requires Inv(c, g) && !a.Finish? && WritersOk(g)
    ensures WritersOk(Apply(c, g, a)) && AudiencesKept(g, Apply(c, g, a))
  {
    hide IsLatest, Key, LockKey, MatchedCount, MembersIn, Find;
    var h := Apply(c, g, a);
    forall i | 0 <= i < |g.rows| ensures i < |h.rows| && h.rows[i].external == g.rows[i].external {
    }
    forall s | At(h, s) ensures WriterOk(h, s) {
      if At(g, s) {
        assert SessionOk(c, g, s) && WriterOk(g, s);
        if s == a.s {
          match a
          case Begin(_, _) =>
          case TakeLock(_) =>
          case LookUp(_) =>
          case InsertRow(_, _) =>
          case Count(_, _, _) =>
          case Fail(_, _) =>
          case Disconnect(_) =>
        } else {
          assert h.sessions[s] == g.sessions[s];
        }
      }
    }
  }

  lemma FinishKeepsAudiences(c: Config, g: Ledger, s: nat, created: string)
    requires Inv(c, g) && NoClash(c) && WritersOk(g)
    requires At(g, s) && g.sessions[s].pc.Counted? && g.sessions[s].pc.row < |g.rows| && created != ""
    ensures WritersOk(Complete(g, s, created)) && AudiencesKept(g, Complete(g, s, created))
  {
    var Session(j, pc) := g.sessions[s];
    var h := Complete(g, s, created);
    assert SessionOk(c, g, s) && WriterOk(g, s);
    hide Key, LockKey;
    forall v | At(h, v) ensures WriterOk(h, v) {
      assert v != s && SessionOk(c, g, v) && WriterOk(g, v);
      var Session(k, pv) := g.sessions[v];
      assert !Clash(c, j, k);
    }
  }

  lemma {:induction false} AudiencesStay(c: Config, g: Ledger, acts: seq<Action>)
    requires Inv(c, g) && NoClash(c) && WritersOk(g)
    ensures WritersOk(Run(c, g, acts)) && AudiencesKept(g, Run(c, g, acts))
    decreases |acts|
  {
    if acts != [] {
      var h := Apply(c, g, acts[0]);
      assert WritersOk(h) && AudiencesKept(g, h) by {
        if acts[0].Finish? && Enabled(c, g, acts[0]) {
          FinishKeepsAudiences(c, g, acts[0].s, acts[0].created);
        } else if !acts[0].Finish? {
          QuietStep(c, g, acts[0]);
        }
      }
      StepKeepsInv(c, g, acts[0]);
      hide Inv, Apply, NoClash, WritersOk;
      AudiencesStay(c, h, acts[1..]);
    }
  }

  ghost predicate Reachable(c: Config, g: Ledger) {
    exists acts :: Run(c, INIT, acts) == g
  }

  lemma {:induction false} RunThen(c: Config, g: Ledger, acts: seq<Action>, a: Action)
    ensures Run(c, g, acts + [a]) == Apply(c, Run(c, g, acts), a)
    decreases |acts|
  {
    hide Apply;
    if acts == [] {
      assert acts + [a] == [a];
      assert Run(c, g, [a]) == Run(c, Apply(c, g, a), []);
    } else {
      assert (acts + [a])[1..] == acts[1..] + [a];
      RunThen(c, Apply(c, g, acts[0]), acts[1..], a);
    }
  }

  lemma NextIsReachable(c: Config, g: Ledger, a: Action)
    requires Reachable(c, g)
    ensures Reachable(c, Apply(c, g, a))
  {
    hide Apply, Run;
    var acts :| Run(c, INIT, acts) == g;
    RunThen(c, INIT, acts, a);
  }

  /** A profile that every platform may be sent. */
  lemma OneEligible(j: Job) returns (v: View)
    ensures ViewOf(v, j) && |MembersIn(v, j.platform)| == 1
  {
    var p := Profile("p", j.tenant, 1, {"t"}, Some("a@b.c"), None, Some(map[ConsentKey(j.platform) := True]));
    v := View(j.tenant, j.campaign, "t", [p], [], 0, None, s => s);
    AddressIsEmail();
    hide NormalizeEmail;
    assert Eligible(v, j.platform, p);
    assert [p][..0] == [];
    assert Chosen(v, j.platform, [p]) == [p];
  }

  lemma AddressIsEmail()
    ensures NormalizeEmail(Some("a@b.c")).Some?
  {
    var s := "a@b.c";
    assert Stripped(s);
    StripIsStripped(s);
    assert Lower(s) == s;
    assert 0 < 1 && 2 < 3 < |s| - 1 && s[1] == '@' && s[3] == '.';
    assert IsEmail(s);
  }

  /** Both jobs of a clash can hold the one row at once, neither with an audience. */
  ghost predicate BothOpen(g: Ledger, a: Job, b: Job) {
    && |g.rows| == 1 && At(g, 0) && At(g, 1) && g.rows[0].platform == a.platform
    && g.sessions[0] == Session(a, Open(0, None)) && g.sessions[1] == Session(b, Open(0, None))
  }

  lemma InitIsReachable(c: Config)
    ensures Reachable(c, INIT)
  {
    assert Run(c, INIT, []) == INIT;
  }

  lemma ClashOpensTwice(c: Config, a: Job, b: Job) returns (g: Ledger)
    requires Clash(c, a, b)
    ensures Reachable(c, g) && BothOpen(g, a, b)
  {
    hide Key, LockKey, Run, Reachable, IsLatest;
    InitIsReachable(c);
    var g1 := Apply(c, INIT, Begin(0, a));
    NextIsReachable(c, INIT, Begin(0, a));
    var g2 := Apply(c, g1, Begin(1, b));
    NextIsReachable(c, g1, Begin(1, b));
    assert g2 == INIT.(sessions := map[0 := Session(a, Waiting), 1 := Session(b, Waiting)]);
    var g3 := Apply(c, g2, TakeLock(0));
    NextIsReachable(c, g2, TakeLock(0));
    var g4 := Apply(c, g3, TakeLock(1));
    NextIsReachable(c, g3, TakeLock(1));
    assert g4 == INIT.(sessions := map[0 := Session(a, Locked), 1 := Session(b, Locked)],
                       locks := map[LockOf(c, a) := 0, LockOf(c, b) := 1]);
    g := ClashOpensRow(c, a, b, g4);
  }

  lemma ClashOpensRow(c: Config, a: Job, b: Job, g4: Ledger) returns (g: Ledger)
    requires Clash(c, a, b) && Reachable(c, g4)
    requires g4.rows == [] && g4.sessions == map[0 := Session(a, Locked), 1 := Session(b, Locked)]
    ensures Reachable(c, g) && BothOpen(g, a, b)
  {
    hide Key, LockKey, Run, Reachable;
    var g5 := Apply(c, g4, LookUp(0));
    NextIsReachable(c, g4, LookUp(0));
    assert g5.rows == [] && g5.sessions == map[0 := Session(a, Unseen), 1 := Session(b, Locked)];
    assert Enabled(c, g5, InsertRow(0, None));
    var g6 := Apply(c, g5, InsertRow(0, None));
    NextIsReachable(c, g5, InsertRow(0, None));
    assert g6.rows == [NewRow(a, g5.clock)];
    assert g6.sessions == map[0 := Session(a, Open(0, None)), 1 := Session(b, Locked)];
    assert IsRow(g6.rows, 0, b.tenant, Key(b));
    FindIsRow(g6.rows, b.tenant, Key(b));
    hide Find;
    g := Apply(c, g6, LookUp(1));
    NextIsReachable(c, g6, LookUp(1));
  }

  /** Then both create an audience of their own, and the second replaces the first. */
  lemma ClashReplaces(c: Config, a: Job, b: Job) returns (g: Ledger, last: Action)
    requires Clash(c, a, b)
    ensures Reachable(c, g) && !AudiencesKept(g, Apply(c, g, last))
  {
    var g0 := ClashOpensTwice(c, a, b);
    KeyDeterminesParts(a, b);
    var v := OneEligible(a);
    hide Key, LockKey, Run, Reachable, Clash, MembersIn, MatchedCount;
    var g1 := Apply(c, g0, Count(0, v, true));
    NextIsReachable(c, g0, Count(0, v, true));
    var g2 := Apply(c, g1, Count(1, v, true));
    NextIsReachable(c, g1, Count(1, v, true));
    var m := MatchedCount(v, v.profiles);
    assert g2.sessions[0] == Session(a, Counted(0, None, m, 1, false)) && g2.sessions[1] == Session(b, Counted(0, None, m, 1, false));
    g := Apply(c, g2, Finish(0, "first"));
    NextIsReachable(c, g2, Finish(0, "first"));
    assert g.rows[0].external == Some("first") && g.sessions[1] == g2.sessions[1];
    last := Finish(1, "second");
    assert Apply(c, g, last).rows[0].external == Some("second");
  }

  ghost predicate NeverReplaces(c: Config) {
    forall g, a :: Reachable(c, g) ==> AudiencesKept(g, Apply(c, g, a))
  }

  /** No run ever replaces an audience recorded for an external platform exactly when no two
      permitted jobs clash, that is, share a row but not the lock. */
  lemma AudiencesAreKeptExactly(c: Config)
    ensures NeverReplaces(c) <==> NoClash(c)
  {
    hide Apply, Inv, AudiencesKept, WritersOk, Clash;
    if NoClash(c) {
      forall g, a | Reachable(c, g) ensures AudiencesKept(g, Apply(c, g, a)) {
        var acts :| Run(c, INIT, acts) == g;
        StepKeepsAudiences(c, acts, a);
      }
    } else {
      var a, b :| Clash(c, a, b);
      var g, last := ClashReplaces(c, a, b);
    }
  }

  lemma StepKeepsAudiences(c: Config, acts: seq<Action>, a: Action)
    requires NoClash(c)
    ensures AudiencesKept(Run(c, INIT, acts), Apply(c, Run(c, INIT, acts), a))
  {
    var g := Run(c, INIT, acts);
    ReachableInv(c, acts);
    assert Inv(c, INIT) && WritersOk(INIT);
    AudiencesStay(c, INIT, acts);
    hide Inv, Run, Apply, WritersOk, NoClash, AudiencesKept;
    AudiencesStay(c, g, [a]);
    OneStep(c, g, a);
  }

  lemma OneStep(c: Config, g: Ledger, a: Action)
    ensures Run(c, g, [a]) == Apply(c, g, a)
  {
    hide Apply;
    assert Run(c, g, [a]) == Run(c, Apply(c, g, a), []);
  }
}
