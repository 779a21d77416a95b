/**
  What ingestion does with a validated batch: the batch's identity is written into its events,
  events without an id get a stable one, and the sessions are counted.
*/
module EventService {
  import opened Common
  import opened Text
  import opened EventSchemas

  /** The batch-level request; an empty text stands for a missing one. `identities` gives the
      identity fields their batch values. */
  datatype Batch = Batch(
    dataSource: string,
    identities: seq<(string, string)>,
    deviceType: string,
    metadata: map<string, Value>)

  /** `uuid5` and `hash` stand for the name-based UUID of a source text and for SHA-256 of an
      event's JSON with its place in the batch. */
  datatype Naming = Naming(uuid5: (string, string) -> string, hash: (Event, nat) -> string)

  ghost predicate NamingOk(n: Naming) {
    && (forall d, x :: StringValue(Str(n.uuid5(d, x))).Some?)
    && (forall d, x, y :: n.uuid5(d, x) == n.uuid5(d, y) ==> x == y)
    && (forall e, f, i, j :: n.hash(e, i) == n.hash(f, j) ==> i == j)
  }

  predicate BatchOk(b: Batch) {
    && |b.identities| == |IDENTIFIER_FIELDS|
    && forall i :: 0 <= i < |b.identities| ==> b.identities[i].0 == IDENTIFIER_FIELDS[i]
  }

  function StringValue(v: Value): Option<string> {
    if v.Str? && Strip(v.text) != "" then Some(Strip(v.text)) else None
  }

  // ----- Enrichment -----

  predicate Passive(b: Batch) {
    (forall p :: p in b.identities ==> p.1 == "") && b.deviceType == "" && b.metadata == map[]
  }

  function SetDefaults(e: Event, ids: seq<(string, string)>): Event
    decreases |ids|
  {
    if ids == [] then e
    else SetDefaults(if ids[0].1 != "" && ids[0].0 !in e then e[ids[0].0 := Str(ids[0].1)] else e, ids[1..])
  }

  function DedupKey(e: Event): Option<string> {
    if StringValue(Get(e, "event_dedup_key")).Some? then StringValue(Get(e, "event_dedup_key"))
    else if Get(e, "properties").Object? then StringValue(Get(Get(e, "properties").fields, "event_dedup_key"))
    else None
  }

  function Described(b: Batch, e: Event): Event {
    var f := SetDefaults(e, b.identities);
    var g := if b.deviceType != "" then f["device_type" := Str(b.deviceType)] else f;
    if b.metadata != map[] && "metadata" !in g then g["metadata" := Object(b.metadata)] else g
  }

  function IdSource(n: Naming, e: Event, index: nat): string {
    if DedupKey(e).Some? then DedupKey(e).value else n.hash(e, index)
  }

  function Identified(n: Naming, b: Batch, e: Event, index: nat): Event {
    if StringValue(Get(e, "event_id")).Some? then e
    else e["event_id" := Str(n.uuid5(b.dataSource, IdSource(n, e, index)))]
  }

  function EnrichOne(n: Naming, b: Batch, e: Event, index: nat): Event {
    if Passive(b) then e else Identified(n, b, Described(b, e), index)
  }

  function EnrichAll(n: Naming, b: Batch, es: seq<Event>): (fs: seq<Event>)
    ensures |fs| == |es|
    ensures forall i :: 0 <= i < |fs| ==> fs[i] == EnrichOne(n, b, es[i], i)
  {
    seq(|es|, i requires 0 <= i < |es| => EnrichOne(n, b, es[i], i))
  }

  function Fields(ids: seq<(string, string)>): (ks: seq<string>)
    ensures |ks| == |ids|
    ensures forall i :: 0 <= i < |ks| ==> ks[i] == ids[i].0
  {
    seq(|ids|, i requires 0 <= i < |ids| => ids[i].0)
  }

  lemma {:induction false} DefaultsKeep(e: Event, ids: seq<(string, string)>)
    ensures var f := SetDefaults(e, ids);
      && (forall k :: k in e ==> k in f && f[k] == e[k])
      && (forall k :: k in f && k !in e ==> k in Fields(ids))
      && (forall i :: 0 <= i < |ids| && ids[i].1 != "" ==> ids[i].0 in f)
    decreases |ids|
  {
    if ids != [] {
      var next := if ids[0].1 != "" && ids[0].0 !in e then e[ids[0].0 := Str(ids[0].1)] else e;
      DefaultsKeep(next, ids[1..]);
      assert Fields(ids) == [ids[0].0] + Fields(ids[1..]);
      var f := SetDefaults(e, ids);
      forall i | 0 <= i < |ids| && ids[i].1 != "" ensures ids[i].0 in f {
        if i == 0 {
          assert ids[0].0 in next;
        } else {
          assert ids[1..][i - 1] == ids[i];
        }
      }
    }
  }

  lemma {:induction false} DefaultsTwice(e: Event, ids: seq<(string, string)>)
    requires forall i :: 0 <= i < |ids| && ids[i].1 != "" ==> ids[i].0 in e
    ensures SetDefaults(e, ids) == e
    decreases |ids|
  {
    if ids != [] {
      assert ids[0].1 != "" ==> ids[0].0 in e;
      forall i | 0 <= i < |ids[1..]| && ids[1..][i].1 != "" ensures ids[1..][i].0 in e {
        assert ids[i + 1] == ids[1..][i];
      }
      DefaultsTwice(e, ids[1..]);
    }
  }

  lemma FieldNames()
    ensures Distinct(IDENTIFIER_FIELDS)
    ensures "device_type" !in IDENTIFIER_FIELDS && "metadata" !in IDENTIFIER_FIELDS && "event_id" !in IDENTIFIER_FIELDS
  {
  }

  /** Enrichment never overwrites what an event has, but for the device type and a blank event
      id; it fills in each identity the batch has. */
  lemma EnrichmentKeeps(n: Naming, b: Batch, e: Event, index: nat, key: string)
    requires BatchOk(b)
    ensures var f := EnrichOne(n, b, e, index);
      && (key in e && key != "device_type" && (key == "event_id" ==> StringValue(e[key]).Some?) ==> key in f && f[key] == e[key])
      && (key in IDENTIFIER_FIELDS && key in e ==> key in f && f[key] == e[key])
      && (forall i :: 0 <= i < |b.identities| && b.identities[i].1 != "" ==> b.identities[i].0 in f)
  {
    DefaultsKeep(e, b.identities);
    FieldNames();
    var d := SetDefaults(e, b.identities);
    assert Fields(b.identities) == IDENTIFIER_FIELDS;
    hide SetDefaults, StringValue, DedupKey, IdSource;
  }

  lemma {:induction false} DefaultsExactly(e: Event, ids: seq<(string, string)>, key: string)
    requires Distinct(Fields(ids))
    ensures var f := SetDefaults(e, ids);
      && (key in e ==> key in f && f[key] == e[key])
      && (key !in e && key !in Fields(ids) ==> key !in f)
      && (forall i :: 0 <= i < |ids| && ids[i].0 == key && key !in e ==>
            (key in f <==> ids[i].1 != "") && (key in f ==> f[key] == Str(ids[i].1)))
    decreases |ids|
  {
    if ids != [] {
      var rest := ids[1..];
      assert Fields(ids)[1..] == Fields(rest) && Fields(ids)[0] == ids[0].0;
      forall i, j | 0 <= i < j < |Fields(rest)| ensures Fields(rest)[i] != Fields(rest)[j] {
        assert Fields(ids)[i + 1] != Fields(ids)[j + 1];
      }
      var next := if ids[0].1 != "" && ids[0].0 !in e then e[ids[0].0 := Str(ids[0].1)] else e;
      DefaultsExactly(next, rest, key);
      forall i | 0 <= i < |ids| && ids[i].0 == key && key !in e
        ensures var f := SetDefaults(e, ids); (key in f <==> ids[i].1 != "") && (key in f ==> f[key] == Str(ids[i].1))
      {
        if i == 0 {
          forall j | 0 <= j < |rest| ensures rest[j].0 != key {
            assert Fields(ids)[0] != Fields(ids)[j + 1];
          }
        } else {
          assert rest[i - 1] == ids[i] && Fields(ids)[0] != Fields(ids)[i];
        }
      }
    }
  }

  /** The text of a field, if it has one that is not blank. */
  ghost predicate HasText(e: Event, key: string) {
    key in e && e[key].Str? && Strip(e[key].text) != ""
  }

  /** What a generated id is made from: the event's own dedup key, else that of its properties,
      else the hash of the event with its place in the batch. */
  ghost predicate MadeFrom(n: Naming, e: Event, index: nat, source: string) {
    if HasText(e, "event_dedup_key") then source == Strip(e["event_dedup_key"].text)
    else if "properties" in e && e["properties"].Object? && HasText(e["properties"].fields, "event_dedup_key") then
      source == Strip(e["properties"].fields["event_dedup_key"].text)
    else source == n.hash(e, index)
  }

  /** What the batch makes of one field, before the event gets its id. */
  ghost predicate DescribedAs(b: Batch, e: Event, d: Event, key: string) {
    && (forall i :: 0 <= i < |b.identities| && b.identities[i].0 == key ==>
          (key in d <==> key in e || b.identities[i].1 != "")
          && (key in d ==> d[key] == if key in e then e[key] else Str(b.identities[i].1)))
    && (key == "device_type" && b.deviceType != "" ==> key in d && d[key] == Str(b.deviceType))
    && (key == "metadata" && key !in e && b.metadata != map[] ==> key in d && d[key] == Object(b.metadata))
    && (key !in IDENTIFIER_FIELDS && (key == "device_type" ==> b.deviceType == "")
          && (key == "metadata" ==> key in e || b.metadata == map[]) ==>
          (key in d <==> key in e) && (key in e ==> d[key] == e[key]))
  }

  lemma DescribedExactly(b: Batch, e: Event, key: string)
    requires BatchOk(b)
    ensures DescribedAs(b, e, Described(b, e), key)
  {
    assert Fields(b.identities) == IDENTIFIER_FIELDS;
    FieldNames();
    DefaultsExactly(e, b.identities, key);
    DefaultsExactly(e, b.identities, "metadata");
    assert forall i :: 0 <= i < |b.identities| ==> b.identities[i].0 in IDENTIFIER_FIELDS;
    hide SetDefaults, Distinct;
  }

  ghost predicate Empty(b: Batch) {
    (forall i :: 0 <= i < |b.identities| ==> b.identities[i].1 == "") && b.deviceType == "" && b.metadata == map[]
  }

  lemma PassiveIsEmpty(b: Batch)
    ensures Passive(b) <==> Empty(b)
  {
    assert forall i :: 0 <= i < |b.identities| ==> b.identities[i] in b.identities;
  }

  /** Field by field. A batch without identity, device type and metadata leaves its events as they
      are. Otherwise the identities and the metadata of the batch stand in for missing ones, its
      device type replaces the event's, and an event without an id gets one; nothing else changes. */
  lemma EnrichmentExactly(n: Naming, b: Batch, e: Event, index: nat, key: string)
    requires BatchOk(b)
    ensures var f, d := EnrichOne(n, b, e, index), Described(b, e);
      if Empty(b) then f == e
      else
        && DescribedAs(b, e, d, key)
        && (key != "event_id" || HasText(e, key) ==> (key in f <==> key in d) && (key in d ==> f[key] == d[key]))
        && (key == "event_id" && !HasText(e, key) ==>
              key in f && exists source :: MadeFrom(n, d, index, source) && f[key] == Str(n.uuid5(b.dataSource, source)))
  {
    PassiveIsEmpty(b);
    DescribedExactly(b, e, key);
    DescribedExactly(b, e, "event_id");
    FieldNames();
    var d := Described(b, e);
    MadeFromSource(n, d, index);
    assert HasText(d, "event_id") <==> HasText(e, "event_id");
    assert HasText(d, "event_id") <==> StringValue(Get(d, "event_id")).Some?;
    hide Described, DescribedAs, IdSource, MadeFrom, Passive, Empty, Strip, HasText;
  }

  lemma MadeFromSource(n: Naming, e: Event, index: nat)
    ensures MadeFrom(n, e, index, IdSource(n, e, index))
  {
    hide Strip;
  }

  /** Enriching enriched events changes nothing: their identity is there and so are their ids. */
  lemma EnrichmentTwice(n: Naming, b: Batch, es: seq<Event>)
    requires NamingOk(n)
    ensures EnrichAll(n, b, EnrichAll(n, b, es)) == EnrichAll(n, b, es)
  {
    forall i | 0 <= i < |es| ensures EnrichOne(n, b, EnrichOne(n, b, es[i], i), i) == EnrichOne(n, b, es[i], i) {
      OneTwice(n, b, es[i], i);
    }
  }

  lemma OneTwice(n: Naming, b: Batch, e: Event, index: nat)
    requires NamingOk(n)
    ensures EnrichOne(n, b, EnrichOne(n, b, e, index), index) == EnrichOne(n, b, e, index)
  {
    if !Passive(b) {
      var d := Described(b, e);
      var f := Identified(n, b, d, index);
      DefaultsKeep(e, b.identities);
      assert forall i :: 0 <= i < |b.identities| && b.identities[i].1 != "" ==> b.identities[i].0 in d;
      DefaultsTwice(f, b.identities);
      hide SetDefaults, DedupKey;
      assert Described(b, f) == f by {
        if b.deviceType != "" { assert f["device_type" := Str(b.deviceType)] == f; }
      }
      assert StringValue(Get(f, "event_id")).Some?;
    }
  }

  /** Two events of a batch that bring neither an id nor a dedup key get different ids. */
  lemma GeneratedIdsDiffer(n: Naming, b: Batch, es: seq<Event>, i: nat, j: nat)
    requires NamingOk(n) && !Passive(b) && i < |es| && j < |es| && i != j
    requires forall k :: k == i || k == j ==>
      StringValue(Get(Described(b, es[k]), "event_id")).None? && DedupKey(Described(b, es[k])).None?
    ensures EnrichAll(n, b, es)[i]["event_id"] != EnrichAll(n, b, es)[j]["event_id"]
  {
  }

  /** Events without an id that bring the same dedup key get the same id, wherever they come. */
  lemma DedupKeysDecideIds(n: Naming, b: Batch, e: Event, f: Event, i: nat, j: nat)
    requires !Passive(b) && DedupKey(Described(b, e)).Some? && DedupKey(Described(b, e)) == DedupKey(Described(b, f))
    requires StringValue(Get(Described(b, e), "event_id")).None? && StringValue(Get(Described(b, f), "event_id")).None?
    ensures EnrichOne(n, b, e, i)["event_id"] == EnrichOne(n, b, f, j)["event_id"]
  {
    hide Described, StringValue, DedupKey;
  }

  method EnrichEvents(n: Naming, b: Batch, es: seq<Event>) returns (fs: seq<Event>)
    ensures fs == EnrichAll(n, b, es)
  {
    if Passive(b) { return es; }
    fs := [];
    var index := 0;
    while index < |es|
      invariant 0 <= index <= |es| && fs == EnrichAll(n, b, es)[..index]
    {
      var e, i := es[index], 0;
      while i < |b.identities|
        invariant 0 <= i <= |b.identities| && SetDefaults(e, b.identities[i..]) == SetDefaults(es[index], b.identities)
      {
        var p := b.identities[i];
        assert b.identities[i..][0] == p && b.identities[i..][1..] == b.identities[i + 1..];
        if p.1 != "" && p.0 !in e { e := e[p.0 := Str(p.1)]; }
        i := i + 1;
      }
      if b.deviceType != "" { e := e["device_type" := Str(b.deviceType)]; }
      if b.metadata != map[] && "metadata" !in e { e := e["metadata" := Object(b.metadata)]; }
      if StringValue(Get(e, "event_id")).None? {
        e := e["event_id" := Str(n.uuid5(b.dataSource, IdSource(n, e, index)))];
      }
      fs, index := fs + [e], index + 1;
    }
  }

  // ----- Sessions -----

  function Effective(e: Event, key: string, fallback: string): string {
    if StringValue(Get(e, key)).Some? then StringValue(Get(e, key)).value else fallback
  }

  function SessionOf(e: Event, session: string): string { Effective(e, "session_id", session) }

  /** The events of one session. */
  function CountOf(es: seq<Event>, session: string, id: string): nat {
    if es == [] then 0 else
      CountOf(es[..|es| - 1], session, id) + if SessionOf(es[|es| - 1], session) == id then 1 else 0
  }

  function WithSession(es: seq<Event>, session: string): nat {
    if es == [] then 0 else
      WithSession(es[..|es| - 1], session) + if SessionOf(es[|es| - 1], session) != "" then 1 else 0
  }

  function UserOf(es: seq<Event>, session: string, user: string, id: string): string {
    if es == [] then "" else
      var e := es[|es| - 1];
      if SessionOf(e, session) == id && Effective(e, "user_id", user) != "" then Effective(e, "user_id", user)
      else UserOf(es[..|es| - 1], session, user, id)
  }

  /** The session ids in the order they first appear. */
  function SessionIds(es: seq<Event>, session: string): (ids: seq<string>)
    ensures Distinct(ids) && "" !in ids
  {
    if es == [] then [] else
      var rest, id := SessionIds(es[..|es| - 1], session), SessionOf(es[|es| - 1], session);
      if id != "" && id !in rest then rest + [id] else rest
  }

  function Counts(es: seq<Event>, session: string, ids: seq<string>): (ns: seq<nat>)
    ensures |ns| == |ids|
    ensures forall i :: 0 <= i < |ns| ==> ns[i] == CountOf(es, session, ids[i])
  {
    seq(|ids|, i requires 0 <= i < |ids| => CountOf(es, session, ids[i]))
  }

  lemma {:induction false} NoEventYet(es: seq<Event>, session: string, id: string)
    requires id != "" && id !in SessionIds(es, session)
    ensures CountOf(es, session, id) == 0
  {
    if es != [] { NoEventYet(es[..|es| - 1], session, id); }
  }

  /** The session counts add up to the events that have a session. */
  lemma {:induction false} SessionCountsAddUp(es: seq<Event>, session: string)
    ensures Sum(Counts(es, session, SessionIds(es, session))) == WithSession(es, session)
  {
    if es != [] {
      var init, id := es[..|es| - 1], SessionOf(es[|es| - 1], session);
      SessionCountsAddUp(init, session);
      var ids, now := SessionIds(init, session), SessionIds(es, session);
      var a, b := Counts(init, session, ids), Counts(es, session, now);
      hide SessionOf, StringValue;
      if id == "" {
        assert a == b;
      } else if id in ids {
        var i :| 0 <= i < |ids| && ids[i] == id;
        SumOneMore(a, b, i);
      } else {
        NoEventYet(init, session, id);
        assert b == a + [1];
        SumAppend(a, [1]);
        assert Sum([1]) == 1 + Sum([1][1..]);
      }
    }
  }

  /** The event is of this session: its own, trimmed, or the batch's if it has none. */
  ghost predicate IsOfSession(e: Event, session: string, id: string) {
    id == if HasText(e, "session_id") then Strip(e["session_id"].text) else session
  }

  lemma OwnSession(e: Event, session: string, id: string)
    ensures IsOfSession(e, session, id) <==> SessionOf(e, session) == id
  {
  }

  ghost function PlacesOf(es: seq<Event>, session: string, id: string): set<nat> {
    set i | 0 <= i < |es| && IsOfSession(es[i], session, id)
  }

  /** The counts are those of the events of each session. */
  lemma {:induction false} CountsAreExact(es: seq<Event>, session: string, id: string)
    ensures CountOf(es, session, id) == |PlacesOf(es, session, id)|
  {
    hide IsOfSession, SessionOf;
    if es != [] {
      var n := |es| - 1;
      CountsAreExact(es[..n], session, id);
      OwnSession(es[n], session, id);
      var before := PlacesOf(es[..n], session, id);
      assert PlacesOf(es, session, id) == if SessionOf(es[n], session) == id then before + {n} else before;
    } else {
      assert PlacesOf(es, session, id) == {};
    }
  }

  /** And there is a session for each event that has one. */
  lemma {:induction false} SessionsAreThose(es: seq<Event>, session: string, id: string)
    ensures id in SessionIds(es, session) <==> id != "" && PlacesOf(es, session, id) != {}
  {
    CountsAreExact(es, session, id);
    if id != "" && id !in SessionIds(es, session) {
      NoEventYet(es, session, id);
    }
    if id in SessionIds(es, session) { SessionHasEvents(es, session, id); }
  }

  lemma {:induction false} SessionHasEvents(es: seq<Event>, session: string, id: string)
    requires id in SessionIds(es, session)
    ensures CountOf(es, session, id) > 0
  {
    hide SessionOf;
    if es != [] && id in SessionIds(es[..|es| - 1], session) { SessionHasEvents(es[..|es| - 1], session, id); }
  }

  /** Event i is of the session, has this user, and no later event of the session has one. */
  ghost predicate LastUserAt(es: seq<Event>, session: string, user: string, id: string, u: string, i: nat) {
    && i < |es| && SessionOf(es[i], session) == id && Effective(es[i], "user_id", user) == u
    && forall j :: i < j < |es| && SessionOf(es[j], session) == id ==> Effective(es[j], "user_id", user) == ""
  }

  ghost predicate NoUser(es: seq<Event>, session: string, user: string, id: string) {
    forall i :: 0 <= i < |es| && SessionOf(es[i], session) == id ==> Effective(es[i], "user_id", user) == ""
  }

  /** A session's user is the last non-empty one among its events. */
  lemma {:induction false} UserIsTheLast(es: seq<Event>, session: string, user: string, id: string)
    ensures var u := UserOf(es, session, user, id);
      if u == "" then NoUser(es, session, user, id) else exists i :: LastUserAt(es, session, user, id, u, i)
  {
    hide SessionOf, Effective;
    if es != [] {
      var n := |es| - 1;
      UserIsTheLast(es[..n], session, user, id);
      var u := UserOf(es, session, user, id);
      if SessionOf(es[n], session) == id && Effective(es[n], "user_id", user) != "" {
        assert LastUserAt(es, session, user, id, u, n);
      } else if u != "" {
        var i :| LastUserAt(es[..n], session, user, id, u, i);
        assert forall j :: 0 <= j < n ==> es[..n][j] == es[j];
        assert LastUserAt(es, session, user, id, u, i);
      } else {
        assert forall j :: 0 <= j < n ==> es[..n][j] == es[j];
      }
    }
  }

  datatype Activity = Activity(count: nat, user: string)

  /** What one more event adds to the counts and the users. */
  lemma OneMoreEvent(es: seq<Event>, session: string, user: string, i: nat)
    requires i < |es|
    ensures var id, u := SessionOf(es[i], session), Effective(es[i], "user_id", user);
      && SessionIds(es[..i + 1], session)
           == SessionIds(es[..i], session) + (if id != "" && id !in SessionIds(es[..i], session) then [id] else [])
      && (forall x :: CountOf(es[..i + 1], session, x) == CountOf(es[..i], session, x) + if x == id then 1 else 0)
      && (forall x :: UserOf(es[..i + 1], session, user, x) == if x == id && u != "" then u else UserOf(es[..i], session, user, x))
  {
    var more := es[..i + 1];
    assert more[..|more| - 1] == es[..i] && more[|more| - 1] == es[i];
    hide SessionOf, Effective;
    var id, u := SessionOf(es[i], session), Effective(es[i], "user_id", user);
    forall x ensures UserOf(more, session, user, x) == if x == id && u != "" then u else UserOf(es[..i], session, user, x) {
    }
  }

  method CollectSessions(es: seq<Event>, session: string, user: string) returns (ids: seq<string>, sessions: map<string, Activity>)
    ensures ids == SessionIds(es, session) && sessions.Keys == Elements(ids)
    ensures forall id :: id in ids ==> sessions[id] == Activity(CountOf(es, session, id), UserOf(es, session, user, id))
  {
    hide SessionOf, Effective, Distinct;
    ids, sessions := [], map[];
    var i := 0;
    while i < |es|
      invariant 0 <= i <= |es| && ids == SessionIds(es[..i], session) && sessions.Keys == Elements(ids)
      invariant forall id :: id in ids ==> sessions[id] == Activity(CountOf(es[..i], session, id), UserOf(es[..i], session, user, id))
    {
      OneMoreEvent(es, session, user, i);
      var id := SessionOf(es[i], session);
      if id != "" {
        var u := Effective(es[i], "user_id", user);
        if id !in sessions {
          NoEventYet(es[..i], session, id);
          NoUserYet(es[..i], session, user, id);
          ids, sessions := ids + [id], sessions[id := Activity(0, "")];
        }
        sessions := sessions[id := Activity(sessions[id].count + 1, if u != "" then u else sessions[id].user)];
      }
      i := i + 1;
    }
    assert es[..i] == es;
  }

  lemma {:induction false} NoUserYet(es: seq<Event>, session: string, user: string, id: string)
    requires id != "" && id !in SessionIds(es, session)
    ensures UserOf(es, session, user, id) == ""
  {
    if es != [] { NoUserYet(es[..|es| - 1], session, user, id); }
  }
}
