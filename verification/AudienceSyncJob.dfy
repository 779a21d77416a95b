/**
  The audience-sync job: the checks that keep a caller to the approved campaign's own segment,
  and the commits of one job, which are a run of the ledger.
*/
module AudienceSyncJob {
  import opened Common
  import opened AudienceMembers
  import opened AudienceLedger
  import opened Text

  datatype Campaign = Campaign(name: string, approval: string, segment: Option<Uuid>)
  datatype Segment = Segment(tag: string, active: bool)

  datatype Catalog = Catalog(campaigns: map<(Uuid, Uuid), Campaign>, segments: map<(Uuid, Uuid), Segment>)

  datatype Request = Request(
    tenant: Uuid,
    campaign: Uuid,
    platform: Platform,
    segment: Option<Uuid>,
    audienceName: Option<string>,
    execution: Option<Uuid>,
    dryRun: bool,
    batchSize: int)

  function AudienceName(r: Request, campaign: Campaign): string {
    var full := if r.audienceName.Some? && r.audienceName.value != "" then r.audienceName.value
                else campaign.name + " - " + Code(r.platform);
    Strip(if |full| > 255 then full[..255] else full)
  }

  /** The checks before the job takes its lock; they re-read the campaign and its segment. */
  function Prepare(cat: Catalog, r: Request): Result<Job> {
    if !(1 <= r.batchSize <= 100_000) then Err("batch_size must be between 1 and 100000")
    else if (r.tenant, r.campaign) !in cat.campaigns then Err("Campaign not found for tenant") else
      var campaign := cat.campaigns[(r.tenant, r.campaign)];
      if campaign.approval != "Approved" then Err("Campaign must be Approved before audience synchronization")
      else
        var selected := if r.segment.Some? then r.segment else campaign.segment;
        if selected.None? || selected != campaign.segment then Err("The sync segment must match the campaign audience")
        else if (r.tenant, selected.value) !in cat.segments
             || !cat.segments[(r.tenant, selected.value)].active || cat.segments[(r.tenant, selected.value)].tag == "" then
          Err("Campaign segment is missing or inactive")
        else if AudienceName(r, campaign) == "" then Err("Audience name is required")
        else Ok(Job(r.tenant, r.campaign, selected.value, r.platform, AudienceName(r, campaign), r.execution, r.dryRun))
  }

  /** A caller can choose neither another tenant's campaign nor another segment: the job that is
      run is for the approved campaign's own active segment, and a request is refused exactly
      when there is none, when it asks for a different one, or when its name or batch size is not
      usable. */
  lemma CallersCannotWidenTheAudience(cat: Catalog, r: Request)
    ensures Prepare(cat, r).Ok? <==>
      && 1 <= r.batchSize <= 100_000 && (r.tenant, r.campaign) in cat.campaigns
      && var campaign := cat.campaigns[(r.tenant, r.campaign)];
        && campaign.approval == "Approved" && campaign.segment.Some?
        && (r.segment.Some? ==> r.segment == campaign.segment)
        && (r.tenant, campaign.segment.value) in cat.segments
        && cat.segments[(r.tenant, campaign.segment.value)].active && cat.segments[(r.tenant, campaign.segment.value)].tag != ""
        && AudienceName(r, campaign) != ""
    ensures Prepare(cat, r).Ok? ==> var j := Prepare(cat, r).value;
      && j.tenant == r.tenant && j.campaign == r.campaign && j.platform == r.platform
      && j.execution == r.execution && j.dryRun == r.dryRun
      && cat.campaigns[(r.tenant, r.campaign)].segment == Some(j.segment)
      && Stripped(j.name) && 0 < |j.name| <= 255
      && var given := if r.audienceName.Some? && r.audienceName.value != "" then r.audienceName.value
                      else cat.campaigns[(r.tenant, r.campaign)].name + " - " + Code(r.platform);
        j.name == Strip(if |given| <= 255 then given else given[..255])
  {
    if (r.tenant, r.campaign) in cat.campaigns {
      var campaign := cat.campaigns[(r.tenant, r.campaign)];
      var full := if r.audienceName.Some? && r.audienceName.value != "" then r.audienceName.value
                  else campaign.name + " - " + Code(r.platform);
      StripIsStripped(if |full| > 255 then full[..255] else full);
      StripShortens(if |full| > 255 then full[..255] else full);
      hide Strip;
    }
  }

  lemma JobIsAsRequested(cat: Catalog, r: Request)
    requires Prepare(cat, r).Ok?
    ensures Prepare(cat, r).value.dryRun == r.dryRun && Prepare(cat, r).value.platform == r.platform
  {
    hide AudienceName;
  }

  lemma StripShortens(s: string)
    ensures |Strip(s)| <= |s|
  {
    TrimShortens(s);
    TrimShortens(TrimLeft(s));
  }

  lemma {:induction false} TrimShortens(s: string)
    ensures |TrimLeft(s)| <= |s| && |TrimRight(s)| <= |s|
  {
    if s != [] {
      TrimShortens(s[1..]);
      TrimShortens(s[..|s| - 1]);
    }
  }

  /** What the destination answers: an audience id (which an adapter ignores if it was given
      one), or an error. */
  datatype Answer = Created(id: string) | Refused

  /** How a job ends: it may wait for its lock for ever, raise, or return its summary. */
  datatype Ending = StillWaiting | Raised(error: string) | Returned(summary: Summary)

  /** How the row was taken: not at all, refused by the unique constraint, or as row i. */
  datatype Opening = NeverFree | Duplicate | Taken(i: nat)

  const DUPLICATE := "duplicate key value violates unique constraint"
  const REFUSED := "the destination refused"

  // ----- The other sessions -----

  /** env(n) is what the other sessions do before this job's n-th commit. */
  ghost predicate Others(s: nat, env: nat -> seq<Action>) {
    forall n, i :: 0 <= i < |env(n)| ==> env(n)[i].s != s
  }

  ghost predicate Undisturbed(env: nat -> seq<Action>) {
    forall n :: env(n) == []
  }

  lemma OthersLeaveOne(c: Config, g: Ledger, a: Action, s: nat)
    requires a.s != s
    ensures At(Apply(c, g, a), s) == At(g, s) && (At(g, s) ==> Apply(c, g, a).sessions[s] == g.sessions[s])
  {
    hide Key, LockKey, MatchedCount, MembersIn, Find, IsLatest, Outcome, FinishedRow;
  }

  lemma {:induction false} OthersLeaveTheSession(c: Config, g: Ledger, acts: seq<Action>, s: nat)
    requires forall i :: 0 <= i < |acts| ==> acts[i].s != s
    ensures var h := Run(c, g, acts); At(h, s) == At(g, s) && (At(g, s) ==> h.sessions[s] == g.sessions[s])
    decreases |acts|
  {
    hide Apply;
    if acts != [] {
      OthersLeaveOne(c, g, acts[0], s);
      OthersLeaveTheSession(c, Apply(c, g, acts[0]), acts[1..], s);
    }
  }

  lemma {:induction false} RunAppend(c: Config, g: Ledger, a: seq<Action>, b: seq<Action>)
    ensures Run(c, g, a + b) == Run(c, Run(c, g, a), b)
    decreases |a|
  {
    hide Apply;
    if a == [] {
      assert a + b == b;
    } else {
      assert (a + b)[1..] == a[1..] + b;
      RunAppend(c, Apply(c, g, a[0]), a[1..], b);
    }
  }

  lemma EmptyRun(c: Config, g: Ledger)
    ensures Run(c, g, []) == g
  {
  }

  // ----- What each commit does -----

  ghost predicate SameTables(g: Ledger, h: Ledger) {
    h.rows == g.rows && h.summaries == g.summaries
  }

  ghost predicate IsDuplicate(h: Ledger, g: Ledger, s: nat, j: Job) {
    !At(g, s) && SameTables(h, g) && exists k :: IsRow(g.rows, k, j.tenant, Key(j))
  }

  /** The audience id a job passes on: the one its row had, or the latest one for a new row of an
      execution. */
  function GivenTo(h: Ledger, j: Job, i: nat, latest: seq<Row> -> Option<nat>): Option<string> {
    if i < |h.rows| then h.rows[i].external
    else if j.execution.Some? && latest(h.rows).Some? && latest(h.rows).value < |h.rows| then
      h.rows[latest(h.rows).value].external
    else None
  }

  /** What taking the run row leaves: this row, with one more attempt, held by the session. */
  ghost predicate Opened(h: Ledger, g: Ledger, s: nat, j: Job, i: nat, latest: seq<Row> -> Option<nat>) {
    && At(g, s) && g.sessions[s] == Session(j, Open(i, GivenTo(h, j, i, latest)))
    && IsRow(g.rows, i, j.tenant, Key(j)) && g.rows[i].status.Running? && g.summaries == h.summaries
    && g.rows[i].dryRun == j.dryRun
    && i <= |h.rows| && |g.rows| == (if i < |h.rows| then |h.rows| else i + 1) && g.rows[i].attempts == AttemptsOf(h, i) + 1
    && (forall k :: 0 <= k < |h.rows| && k != i ==> g.rows[k] == h.rows[k])
    && g.rows[i].external == if i < |h.rows| then h.rows[i].external else None
  }

  lemma TakenRow(h: Ledger, g: Ledger, s: nat, j: Job, i: nat, latest: seq<Row> -> Option<nat>)
    requires Opened(h, g, s, j, i, latest)
    ensures At(g, s) && g.sessions[s] == Session(j, Open(i, GivenTo(h, j, i, latest)))
    ensures |h.rows| <= |g.rows| && i < |g.rows|
  {
  }

  lemma BeginApplies(c: Config, g: Ledger, s: nat, j: Job)
    requires !At(g, s) && c.permitted(j)
    ensures var h := Apply(c, g, Begin(s, j));
      At(h, s) && h.sessions[s] == Session(j, Waiting) && h.locks == g.locks && SameTables(g, h)
  {
  }

  lemma LockApplies(c: Config, g: Ledger, s: nat, j: Job)
    requires At(g, s) && g.sessions[s] == Session(j, Waiting)
    ensures var h := Apply(c, g, TakeLock(s));
      && At(h, s) && SameTables(g, h)
      && if LockOf(c, j) in g.locks then h == g else h.sessions[s] == Session(j, Locked)
  {
    hide LockOf;
  }

  lemma LookApplies(c: Config, g: Ledger, s: nat, j: Job, latest: seq<Row> -> Option<nat>)
    requires At(g, s) && g.sessions[s] == Session(j, Locked)
    ensures var h, found := Apply(c, g, LookUp(s)), Find(g.rows, j.tenant, Key(j));
      if found.Some? then Opened(g, h, s, j, found.value, latest)
      else At(h, s) && h.sessions[s] == Session(j, Unseen) && SameTables(g, h)
  {
    hide Key, LockKey;
  }

  lemma InsertApplies(c: Config, g: Ledger, s: nat, j: Job, latest: seq<Row> -> Option<nat>)
    requires At(g, s) && g.sessions[s] == Session(j, Unseen) && IsLatest(g, latest(g.rows), j)
    ensures var h, found := Apply(c, g, InsertRow(s, latest(g.rows))), Find(g.rows, j.tenant, Key(j));
      if found.Some? then IsDuplicate(g, h, s, j) else Opened(g, h, s, j, |g.rows|, latest)
  {
    hide Key, LockKey;
  }

  function Sent(j: Job, view: View, configured: bool): bool {
    !j.dryRun && (j.platform.Leo? || (configured && |MembersIn(view, j.platform)| > 0))
  }

  function CountsOf(j: Job, i: nat, given: Option<string>, view: View, configured: bool): Pc {
    Counted(i, given, MatchedCount(view, view.profiles), |MembersIn(view, j.platform)|,
            j.dryRun || (!j.platform.Leo? && !configured))
  }

  ghost predicate OnlyCounted(g: Ledger, h: Ledger, j: Job, i: nat, view: View) {
    && i < |g.rows| == |h.rows| && h.summaries == g.summaries
    && (forall n :: 0 <= n < |h.rows| && n != i ==> h.rows[n] == g.rows[n])
    && h.rows[i].attempts == g.rows[i].attempts && h.rows[i].external == g.rows[i].external && h.rows[i].dryRun == g.rows[i].dryRun
    && (!j.platform.Leo? ==> h.rows[i].matched == MatchedCount(view, view.profiles) && h.rows[i].eligible == |MembersIn(view, j.platform)|)
  }

  lemma CountApplies(c: Config, g: Ledger, s: nat, j: Job, i: nat, given: Option<string>, view: View, configured: bool)
    requires Inv(c, g) && At(g, s) && g.sessions[s] == Session(j, Open(i, given)) && ViewOf(view, j)
    ensures var h := Apply(c, g, Count(s, view, configured));
      && At(h, s) && h.sessions[s] == Session(j, CountsOf(j, i, given, view, configured))
      && OnlyCounted(g, h, j, i, view)
  {
    assert SessionOk(c, g, s);
    hide Inv, SessionOk, MembersIn, MatchedCount, Key, LockKey;
  }

  /** What the job's last commit did: its row says what happened and nothing else changed. The
      destination was asked exactly if there was something to send. */
  ghost predicate Concluded(h: Ledger, g: Ledger, s: nat, j: Job, i: nat, given: Option<string>,
                            view: View, configured: bool, answer: Answer, e: Ending)
  {
    var sent, eligible := Sent(j, view, configured), |MembersIn(view, j.platform)|;
    && !At(g, s) && IsRow(g.rows, i, j.tenant, Key(j)) && |h.rows| == |g.rows|
    && (forall k :: 0 <= k < |h.rows| && k != i ==> g.rows[k] == h.rows[k])
    && g.rows[i].attempts == h.rows[i].attempts
    && if sent && answer.Refused? then
         e == Raised(REFUSED) && g.rows[i].status.Failed? && g.rows[i].external == h.rows[i].external && g.summaries == h.summaries
       else
         && e.Returned? && g.rows[i].status.Completed? && g.summaries == h.summaries + [e.summary]
         && e.summary == Summary(i, MatchedCount(view, view.profiles), eligible, if sent then eligible else 0, e.summary.external)
         && (if sent then
               && e.summary.external == Some(if j.platform.Leo? || given == None || given == Some("") then answer.id else given.value)
               && g.rows[i].external == e.summary.external && g.rows[i].uploaded == eligible
             else
               e.summary.external == None && (!j.platform.Leo? ==> g.rows[i].external == h.rows[i].external))
         && (j.platform.Leo? ==> g.rows[i].matched == e.summary.matched && g.rows[i].eligible == eligible)
         && (!j.platform.Leo? ==> g.rows[i].matched == h.rows[i].matched && g.rows[i].eligible == h.rows[i].eligible)
         && g.rows[i].dryRun == (if j.dryRun || (!j.platform.Leo? && !configured) then true
                                 else if j.platform.Leo? then false else h.rows[i].dryRun)
  }

  function IdIn(answer: Answer): string {
    if answer.Created? then answer.id else "unused"
  }

  /** The last commit: marking the row failed, or completed with the answer. */
  function LastCommit(s: nat, refused: bool, answer: Answer): Action {
    if refused then Fail(s, true) else Finish(s, IdIn(answer))
  }

  function EndingOf(j: Job, refused: bool, pc: Pc, answer: Answer): Ending
    requires pc.Counted?
  {
    if refused then Raised(REFUSED) else Returned(Outcome(j, pc, IdIn(answer)))
  }

  lemma FailApplies(g: Ledger, s: nat, j: Job, i: nat, given: Option<string>,
                    view: View, configured: bool, answer: Answer)
    requires At(g, s) && g.sessions[s] == Session(j, CountsOf(j, i, given, view, configured)) && IsRow(g.rows, i, j.tenant, Key(j))
    requires Sent(j, view, configured) && answer.Refused?
    ensures Concluded(g, Abort(g, s, true), s, j, i, given, view, configured, answer, Raised(REFUSED))
  {
    hide MembersIn, MatchedCount, Key;
    assert RowOf(g, s) == Some(i);
  }

  lemma FinishApplies(g: Ledger, s: nat, j: Job, i: nat, given: Option<string>, view: View, configured: bool, answer: Answer)
    requires At(g, s) && g.sessions[s] == Session(j, CountsOf(j, i, given, view, configured)) && IsRow(g.rows, i, j.tenant, Key(j))
    requires !(Sent(j, view, configured) && answer.Refused?)
    ensures Concluded(g, Complete(g, s, IdIn(answer)), s, j, i, given, view, configured, answer,
                      Returned(Outcome(j, g.sessions[s].pc, IdIn(answer))))
  {
    hide MembersIn, MatchedCount, Key;
  }

  lemma BothApply(c: Config, g: Ledger, s: nat, answer: Answer)
    requires At(g, s) && g.sessions[s].pc.Counted? && g.sessions[s].pc.row < |g.rows| && IdIn(answer) != ""
    ensures Apply(c, g, Fail(s, true)) == Abort(g, s, true)
    ensures Apply(c, g, Finish(s, IdIn(answer))) == Complete(g, s, IdIn(answer))
  {
    hide MembersIn, MatchedCount, Key, LockKey, Complete, Abort;
  }

  lemma LastApplies(c: Config, g: Ledger, s: nat, j: Job, i: nat, given: Option<string>,
                    view: View, configured: bool, answer: Answer)
    requires Inv(c, g) && At(g, s) && g.sessions[s] == Session(j, CountsOf(j, i, given, view, configured))
    requires answer.Created? ==> answer.id != ""
    ensures var refused := Sent(j, view, configured) && answer.Refused?;
      Concluded(g, Apply(c, g, LastCommit(s, refused, answer)), s, j, i, given, view, configured, answer,
                EndingOf(j, refused, g.sessions[s].pc, answer))
  {
    assert SessionOk(c, g, s);
    hide Inv, SessionOk, MembersIn, MatchedCount, Key, LockKey, Concluded, Sent, Outcome, Complete, Abort, Apply;
    BothApply(c, g, s, answer);
    if Sent(j, view, configured) && answer.Refused? {
      FailApplies(g, s, j, i, given, view, configured, answer);
    } else {
      FinishApplies(g, s, j, i, given, view, configured, answer);
    }
  }

  /** What the caller of a request learns. A dry run, or one without a provider, asks no destination
      and uploads nothing; otherwise LEO Ads is always asked and another platform if anyone is
      eligible, and all of them are uploaded. */
  ghost predicate Reported(dryRun: bool, platform: Platform, view: View, configured: bool, answer: Answer, e: Ending) {
    var eligible := |MembersIn(view, platform)|;
    var asked := !dryRun && (platform.Leo? || (configured && eligible > 0));
    && (e.Returned? ==>
          && e.summary.eligible == eligible && e.summary.matched == MatchedCount(view, view.profiles)
          && (e.summary.external.Some? <==> asked) && e.summary.uploaded == (if asked then eligible else 0)
          && (asked ==> answer.Created?) && (asked && platform.Leo? ==> e.summary.external == Some(answer.id)))
    && (!e.Returned? ==> asked && answer.Refused?)
  }

  lemma ConcludedMeans(h: Ledger, g: Ledger, s: nat, j: Job, i: nat, given: Option<string>,
                       view: View, configured: bool, answer: Answer, e: Ending)
    requires Concluded(h, g, s, j, i, given, view, configured, answer, e)
    ensures Reported(j.dryRun, j.platform, view, configured, answer, e)
  {
    hide MembersIn, MatchedCount, Key;
  }

  /** A job no other session disturbs, whose lock was free: one attempt on its own row, which keeps
      its audience unless one was uploaded to, and nothing to any other row. */
  ghost predicate Alone(g: Ledger, h: Ledger, j: Job, i: nat, latest: seq<Row> -> Option<nat>, configured: bool, e: Ending) {
    && i <= |g.rows| && IsRow(h.rows, i, j.tenant, Key(j)) && |h.rows| == (if i < |g.rows| then |g.rows| else i + 1)
    && (forall k :: 0 <= k < |g.rows| && k != i ==> h.rows[k] == g.rows[k])
    && h.rows[i].attempts == AttemptsOf(g, i) + 1
    && h.summaries == g.summaries + (if e.Returned? then [e.summary] else [])
    && (e.Returned? ==>
          && h.rows[i].matched == e.summary.matched && h.rows[i].eligible == e.summary.eligible
          && h.rows[i].dryRun == (j.dryRun || (!j.platform.Leo? && !configured)))
    && var given := GivenTo(g, j, i, latest);
      if e.Returned? && e.summary.external.Some? then
        !j.platform.Leo? && given.Some? && given.value != "" ==> e.summary.external == given == h.rows[i].external
      else
        e.Raised? || !j.platform.Leo? ==> h.rows[i].external == if i < |g.rows| then g.rows[i].external else None
  }

  lemma SettledAlone(g: Ledger, first: Ledger, begun: Ledger, last: Ledger, h: Ledger, s: nat, j: Job, i: nat,
                     latest: seq<Row> -> Option<nat>, view: View, configured: bool, answer: Answer, e: Ending)
    requires SameTables(g, first) && Opened(first, begun, s, j, i, latest) && OnlyCounted(begun, last, j, i, view)
    requires Concluded(last, h, s, j, i, GivenTo(first, j, i, latest), view, configured, answer, e)
    ensures Alone(g, h, j, i, latest, configured, e)
  {
    hide Key, MembersIn, MatchedCount;
  }

  /** How the job ended and what it did: it still waits, another session had inserted its row, or
      it took its row i after `head` and its last commit concluded it. */
  ghost predicate Ended(c: Config, start: Ledger, g: Ledger, s: nat, j: Job, acts: seq<Action>, head: seq<Action>, i: nat,
                        latest: seq<Row> -> Option<nat>, view: View, configured: bool, answer: Answer, e: Ending)
  {
    if e.StillWaiting? then At(g, s) && g.sessions[s] == Session(j, Waiting) && LockOf(c, j) in g.locks
    else
      && acts != []
      && var last, first := Run(c, start, acts[..|acts| - 1]), Run(c, start, head);
        || (e == Raised(DUPLICATE) && IsDuplicate(last, g, s, j))
        || (|head| < |acts| && Opened(first, Run(c, start, acts[..|head| + 1]), s, j, i, latest)
            && Concluded(last, g, s, j, i, GivenTo(first, j, i, latest), view, configured, answer, e))
  }

  // ----- One job -----

  class AudienceSync {
    const c: Config
    var g: Ledger

    constructor (c: Config)
      ensures this.c == c && g == INIT && Inv(c, g)
    {
      this.c, g := c, INIT;
      new;
      assert Inv(c, INIT);
    }

    /** The other sessions' actions between two commits of session s. */
    method Interference(s: nat, more: seq<Action>, ghost acts: seq<Action>, ghost start: Ledger) returns (ghost all: seq<Action>)
      requires g == Run(c, start, acts) && Inv(c, g) && forall i :: 0 <= i < |more| ==> more[i].s != s
      modifies this`g
      ensures Inv(c, g) && all == acts + more && g == Run(c, start, all) && RowsKept(old(g), g)
      ensures At(g, s) == At(old(g), s) && (At(g, s) ==> g.sessions[s] == old(g).sessions[s])
      ensures more == [] ==> g == old(g)
    {
      hide Inv, Apply, Run, RowsKept;
      RunKeepsInv(c, g, more);
      OthersLeaveTheSession(c, g, more, s);
      EmptyRun(c, g);
      RunAppend(c, start, acts, more);
      all := acts + more;
      g := Run(c, g, more);
    }

    /** One commit of session s, recorded. */
    method Commit(a: Action, ghost acts: seq<Action>, ghost start: Ledger) returns (ghost all: seq<Action>)
      requires g == Run(c, start, acts) && Inv(c, g)
      modifies this`g
      ensures g == Apply(c, old(g), a) && Inv(c, g) && all == acts + [a] && g == Run(c, start, all)
    {
      hide Inv, Apply, Run;
      StepKeepsInv(c, g, a);
      RunThen(c, start, acts, a);
      all := acts + [a];
      g := Apply(c, g, a);
    }

    /** Waits for the lock and takes the run row of the key: the existing one with one more
        attempt, or a new one, which for an execution takes over the latest audience. `head` is
        what ran before that commit. The lock may never come free, and where another session
        inserted the row meanwhile the insert violates the unique constraint. */
    method OpenRow(s: nat, j: Job, latest: seq<Row> -> Option<nat>, env: nat -> seq<Action>)
      returns (o: Opening, ghost acts: seq<Action>, ghost head: seq<Action>)
      requires Inv(c, g) && !At(g, s) && c.permitted(j) && Others(s, env) && forall h: Ledger :: IsLatest(h, latest(h.rows), j)
      modifies this`g
      ensures Inv(c, g) && g == Run(c, old(g), acts)
      ensures o.NeverFree? ==> At(g, s) && g.sessions[s] == Session(j, Waiting) && LockOf(c, j) in g.locks
      ensures head <= acts && (!o.NeverFree? ==> acts != [] && head == acts[..|acts| - 1])
      ensures o.Duplicate? ==> IsDuplicate(Run(c, old(g), head), g, s, j)
      ensures o.Taken? ==> Opened(Run(c, old(g), head), g, s, j, o.i, latest)
      ensures Undisturbed(env) && LockOf(c, j) !in old(g).locks ==> o.Taken? && SameTables(old(g), Run(c, old(g), head))
    {
      hide Inv, Apply, Run, Key, LockOf, Find, IsLatest, Opened, RowsKept;
      ghost var start := g;
      acts, head := [], [];
      EmptyRun(c, start);
      acts := Interference(s, env(0), acts, start);
      BeginApplies(c, g, s, j);
      acts := Commit(Begin(s, j), acts, start);
      acts := Interference(s, env(1), acts, start);
      LockApplies(c, g, s, j);
      acts := Commit(TakeLock(s), acts, start);
      if g.sessions[s].pc.Waiting? {
        return NeverFree, acts, head;
      }
      acts := Interference(s, env(2), acts, start);
      LookApplies(c, g, s, j, latest);
      var found := Find(g.rows, j.tenant, Key(j));
      head := acts;
      acts := Commit(LookUp(s), acts, start);
      if found.Some? {
        return Taken(found.value), acts, head;
      }
      acts := Interference(s, env(3), acts, start);
      InsertApplies(c, g, s, j, latest);
      found := Find(g.rows, j.tenant, Key(j));
      var next := |g.rows|;
      head := acts;
      acts := Commit(InsertRow(s, latest(g.rows)), acts, start);
      o := if found.Some? then Duplicate else Taken(next);
    }

    /** The whole job, with the other sessions' commits before each of its own. `head` is what ran
        before it took its row i. */
    method RunDataSynchJob(s: nat, cat: Catalog, r: Request, view: View, configured: bool, answer: Answer,
                           latest: seq<Row> -> Option<nat>, env: nat -> seq<Action>)
      returns (e: Ending, ghost acts: seq<Action>, ghost head: seq<Action>, ghost i: nat)
      requires Inv(c, g) && !At(g, s) && Others(s, env) && (answer.Created? ==> answer.id != "")
      requires Prepare(cat, r).Ok? ==> var j := Prepare(cat, r).value;
        c.permitted(j) && ViewOf(view, j) && forall h: Ledger :: IsLatest(h, latest(h.rows), j)
      modifies this`g
      ensures Inv(c, g) && g == Run(c, old(g), acts) && head <= acts
      ensures Prepare(cat, r).Err? ==> g == old(g) && e == Raised(Prepare(cat, r).error)
      ensures Prepare(cat, r).Ok? ==> var j := Prepare(cat, r).value;
        && Ended(c, old(g), g, s, j, acts, head, i, latest, view, configured, answer, e)
        && (Undisturbed(env) && LockOf(c, j) !in old(g).locks ==> Alone(old(g), g, j, i, latest, configured, e))
      ensures r.dryRun && e.Returned? ==> e.summary.uploaded == 0 && e.summary.external == None
      ensures e.Returned? || e == Raised(REFUSED) ==> Reported(r.dryRun, r.platform, view, configured, answer, e)
    {
      acts, head, i := [], [], 0;
      EmptyRun(c, g);
      var prepared := Prepare(cat, r);
      if prepared.Err? {
        return Raised(prepared.error), acts, head, i;
      }
      JobIsAsRequested(cat, r);
      hide *;
      e, acts, head, i := RunJob(s, prepared.value, view, configured, answer, latest, env);
    }

    /** The job from its lock on. */
    method RunJob(s: nat, j: Job, view: View, configured: bool, answer: Answer, latest: seq<Row> -> Option<nat>, env: nat -> seq<Action>)
      returns (e: Ending, ghost acts: seq<Action>, ghost head: seq<Action>, ghost i: nat)
      requires Inv(c, g) && !At(g, s) && Others(s, env) && (answer.Created? ==> answer.id != "")
      requires c.permitted(j) && ViewOf(view, j) && forall h: Ledger :: IsLatest(h, latest(h.rows), j)
      modifies this`g
      ensures Inv(c, g) && g == Run(c, old(g), acts) && head <= acts
      ensures Ended(c, old(g), g, s, j, acts, head, i, latest, view, configured, answer, e)
      ensures Undisturbed(env) && LockOf(c, j) !in old(g).locks ==> Alone(old(g), g, j, i, latest, configured, e)
      ensures j.dryRun && e.Returned? ==> e.summary.uploaded == 0 && e.summary.external == None
      ensures e.Returned? || e == Raised(REFUSED) ==> Reported(j.dryRun, j.platform, view, configured, answer, e)
    {
      hide Inv, Run, Apply, Key, LockOf, IsLatest, MatchedCount, MembersIn, ViewOf, Opened, RowsKept, Concluded, Reported, Alone;
      ghost var start := g;
      i := 0;
      var o;
      o, acts, head := OpenRow(s, j, latest, env);
      if !o.Taken? {
        e := if o.NeverFree? then StillWaiting else Raised(DUPLICATE);
        return;
      }
      i := o.i;
      ghost var first, begun, opening := Run(c, start, head), g, acts;
      TakenRow(first, g, s, j, i, latest);
      ghost var given := GivenTo(first, j, i, latest);
      e, acts := CountAndSend(s, j, i, given, view, configured, answer, env, acts, start);
      assert acts[..|head| + 1] == opening;
      if Undisturbed(env) && LockOf(c, j) !in start.locks {
        SettledAlone(start, first, begun, Run(c, start, acts[..|acts| - 1]), g, s, j, i, latest, view, configured, answer, e);
      }
    }

    /** The job with its row: it counts the audience, sends it and records the outcome. */
    method CountAndSend(s: nat, j: Job, ghost i: nat, ghost given: Option<string>, view: View, configured: bool, answer: Answer,
                        env: nat -> seq<Action>, ghost acts: seq<Action>, ghost start: Ledger)
      returns (e: Ending, ghost all: seq<Action>)
      requires g == Run(c, start, acts) && Inv(c, g) && Others(s, env) && ViewOf(view, j)
      requires At(g, s) && g.sessions[s] == Session(j, Open(i, given)) && (answer.Created? ==> answer.id != "")
      modifies this`g
      ensures g == Run(c, start, all) && Inv(c, g) && acts < all && !e.StillWaiting?
      ensures Reported(j.dryRun, j.platform, view, configured, answer, e)
      ensures j.dryRun && e.Returned? ==> e.summary.uploaded == 0 && e.summary.external == None
      ensures var last := Run(c, start, all[..|all| - 1]);
        && Concluded(last, g, s, j, i, given, view, configured, answer, e)
        && (Undisturbed(env) ==> OnlyCounted(old(g), last, j, i, view))
    {
      hide Inv, Run, Apply, Key, MatchedCount, MembersIn, ViewOf, RowsKept, Concluded, OnlyCounted, Sent;
      all := Interference(s, env(4), acts, start);
      CountApplies(c, g, s, j, i, given, view, configured);
      all := Commit(Count(s, view, configured), all, start);
      all := Interference(s, env(5), all, start);
      LastApplies(c, g, s, j, i, given, view, configured, answer);
      var refused := Sent(j, view, configured) && answer.Refused?;
      e := EndingOf(j, refused, g.sessions[s].pc, answer);
      ghost var last, body := g, all;
      all := Commit(LastCommit(s, refused, answer), all, start);
      assert all[..|all| - 1] == body;
      ConcludedMeans(last, g, s, j, i, given, view, configured, answer, e);
    }
  }
}
