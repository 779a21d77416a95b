/**
  The LEO Ads snapshot sync: one transaction of set operations over the audience, membership
  and serving-key tables. Each SQL statement is a function on the tables; the sync runs them in
  the order of the code, and is proved to be "replace the members of audience A by M".
*/
module LeoAds {
  import opened Common

  // ----- The tables -----

  type Hash = string
  type Tenant = nat
  type SourceTenant = Uuid

  datatype Audience = Audience(
    tenant: Tenant,
    key: string,
    name: string,
    provider: string,
    source: Option<SourceTenant>,
    estimate: nat,
    version: nat)

  datatype ServingKey = ServingKey(tenant: Tenant, profileRef: string)

  datatype Member = Member(tenant: Tenant, audience: nat, hash: Hash)

  /** `mapping` takes a Customer 360 tenant to its ads tenant; `active` are the active ones. */
  datatype Tables = Tables(
    mapping: map<SourceTenant, Tenant>,
    active: set<Tenant>,
    audiences: map<nat, Audience>,
    members: set<Member>,
    keys: map<Hash, ServingKey>)

  const PROVIDER := "customer360"

  // ----- The constraints -----

  /** Member to audience and member to serving key, both within one tenant; and an audience of a
      source tenant to that tenant's mapping. */
  ghost predicate ForeignKeys(t: Tables) {
    && (forall a :: a in t.audiences && t.audiences[a].source.Some? ==>
          t.audiences[a].source.value in t.mapping && t.mapping[t.audiences[a].source.value] == t.audiences[a].tenant)
    && (forall m :: m in t.members ==> m.audience in t.audiences && t.audiences[m.audience].tenant == m.tenant)
    && (forall m :: m in t.members ==> m.hash in t.keys && t.keys[m.hash].tenant == m.tenant)
  }

  ghost predicate UniqueAudienceKeys(t: Tables) {
    forall a, b | a in t.audiences && b in t.audiences ::
      t.audiences[a].tenant == t.audiences[b].tenant && t.audiences[a].key == t.audiences[b].key ==> a == b
  }

  /** Two source tenants never share an ads tenant. */
  ghost predicate MappingIsUnique(t: Tables) {
    forall x, y :: x in t.mapping && y in t.mapping && t.mapping[x] == t.mapping[y] ==> x == y
  }

  ghost predicate Consistent(t: Tables) {
    ForeignKeys(t) && UniqueAudienceKeys(t) && MappingIsUnique(t)
  }

  // ----- One sync request -----

  /** `digest` is SHA-256; `newId` is the id the audience sequence yields if a row is inserted. */
  datatype Request = Request(
    tenant: SourceTenant,
    campaign: Uuid,
    segment: Uuid,
    name: string,
    profiles: seq<string>,
    newId: nat)

  function AudienceKey(r: Request): string {
    "customer360:" + r.tenant + ":" + r.campaign + ":" + r.segment
  }

  function HashOf(digest: string -> string, tenant: SourceTenant, profile: string): Hash {
    digest("leo_ads:" + tenant + ":" + profile)
  }

  function Hashes(digest: string -> string, tenant: SourceTenant, profiles: seq<string>): (hs: seq<Hash>)
    ensures |hs| == |profiles|
    ensures forall i :: 0 <= i < |hs| ==> hs[i] == HashOf(digest, tenant, profiles[i])
  {
    seq(|profiles|, i requires 0 <= i < |profiles| => HashOf(digest, tenant, profiles[i]))
  }

  // ----- The statements, in order -----

  function ActiveTenant(t: Tables, tenant: SourceTenant): Option<Tenant> {
    if tenant in t.mapping && t.mapping[tenant] in t.active then Some(t.mapping[tenant]) else None
  }

  predicate HasKey(t: Tables, a: nat, tenant: Tenant, key: string) {
    a in t.audiences && t.audiences[a].tenant == tenant && t.audiences[a].key == key
  }

  function FindAudience(t: Tables, tenant: Tenant, key: string): (r: Option<nat>)
    ensures r.Some? ==> HasKey(t, r.value, tenant, key)
    ensures r.None? ==> forall a :: !HasKey(t, a, tenant, key)
  {
    var found := set a | a in t.audiences && t.audiences[a].tenant == tenant && t.audiences[a].key == key;
    if found == {} then
      assert forall a :: HasKey(t, a, tenant, key) ==> a in found;
      None
    else Some(Least(found))
  }

  /** INSERT ... ON CONFLICT (tenant_id, audience_key) DO UPDATE ... WHERE this source owns it. */
  function UpsertAudience(t: Tables, tenant: Tenant, r: Request): Option<(Tables, nat)> {
    match FindAudience(t, tenant, AudienceKey(r))
    case None =>
      Some((t.(audiences := t.audiences[r.newId :=
        Audience(tenant, AudienceKey(r), r.name, PROVIDER, Some(r.tenant), 0, 1)]), r.newId))
    case Some(a) =>
      var existing := t.audiences[a];
      if existing.source != Some(r.tenant) || existing.provider != PROVIDER then None else
        Some((t.(audiences := t.audiences[a := existing.(name := r.name, estimate := 0, version := existing.version + 1)]), a))
  }

  /** The rows of the temporary member table after these profiles were inserted. */
  function Staged(digest: string -> string, tenant: SourceTenant, profiles: seq<string>): map<Hash, string> {
    if profiles == [] then map[] else
      var last := profiles[|profiles| - 1];
      Staged(digest, tenant, profiles[..|profiles| - 1])[HashOf(digest, tenant, last) := last]
  }

  function UpsertKeys(t: Tables, tenant: Tenant, staged: map<Hash, string>): Tables {
    t.(keys := map h | h in t.keys.Keys + staged.Keys ::
      if h in staged && (h in t.keys ==> t.keys[h].tenant == tenant) then ServingKey(tenant, staged[h]) else t.keys[h])
  }

  function Removed(t: Tables, tenant: Tenant, audience: nat, staged: map<Hash, string>): set<Hash> {
    set m | m in t.members && m.tenant == tenant && m.audience == audience && m.hash !in staged :: m.hash
  }

  function DeleteMembers(t: Tables, tenant: Tenant, audience: nat, staged: map<Hash, string>): Tables {
    t.(members := set m | m in t.members && !(m.tenant == tenant && m.audience == audience && m.hash !in staged))
  }

  /** The foreign key to the serving keys decides whether the insert raises. */
  predicate CanInsertMembers(t: Tables, tenant: Tenant, staged: map<Hash, string>) {
    forall h :: h in staged ==> h in t.keys && t.keys[h].tenant == tenant
  }

  function InsertMembers(t: Tables, tenant: Tenant, audience: nat, staged: map<Hash, string>): Tables {
    t.(members := t.members + (set h | h in staged :: Member(tenant, audience, h)))
  }

  predicate Referenced(t: Tables, tenant: Tenant, h: Hash) {
    exists m :: m in t.members && m.tenant == tenant && m.hash == h
  }

  function CollectKeys(t: Tables, tenant: Tenant, removed: set<Hash>): Tables {
    t.(keys := map h | h in t.keys && !(h in removed && t.keys[h].tenant == tenant && !Referenced(t, tenant, h)) :: t.keys[h])
  }

  function SetEstimate(t: Tables, audience: nat, count: nat): Tables {
    if audience !in t.audiences then t else
      t.(audiences := t.audiences[audience := t.audiences[audience].(estimate := count)])
  }

  datatype Synced = Synced(tables: Tables, audience: nat, count: nat)

  /** The part of the transaction after the member table is filled. */
  function ApplySnapshot(t: Tables, tenant: Tenant, audience: nat, staged: map<Hash, string>): Result<Tables> {
    var keyed := UpsertKeys(t, tenant, staged);
    var trimmed := DeleteMembers(keyed, tenant, audience, staged);
    if !CanInsertMembers(trimmed, tenant, staged) then Err("foreign key violation") else
      Ok(CollectKeys(InsertMembers(trimmed, tenant, audience, staged), tenant, Removed(keyed, tenant, audience, staged)))
  }

  /** The whole transaction; an error rolls it back. */
  function Sync(digest: string -> string, t: Tables, r: Request): Result<Synced> {
    match ActiveTenant(t, r.tenant)
    case None => Err("No active LEO Ads tenant mapping for Customer 360 tenant")
    case Some(tenant) =>
      match UpsertAudience(t, tenant, r)
      case None => Err("LEO Ads audience key is owned by another source")
      case Some((upserted, audience)) =>
        if !Distinct(Hashes(digest, r.tenant, r.profiles)) then Err("duplicate key value") else
        match ApplySnapshot(upserted, tenant, audience, Staged(digest, r.tenant, r.profiles))
        case Err(e) => Err(e)
        case Ok(swapped) => Ok(Synced(SetEstimate(swapped, audience, |r.profiles|), audience, |r.profiles|))
  }

  /** The tables after each statement that is executed: all six of them, or those before the one
      that raises. */
  function Trace(digest: string -> string, t: Tables, r: Request): seq<Tables> {
    match ActiveTenant(t, r.tenant)
    case None => []
    case Some(tenant) =>
      match UpsertAudience(t, tenant, r)
      case None => []
      case Some((upserted, audience)) =>
        if !Distinct(Hashes(digest, r.tenant, r.profiles)) then [upserted] else
          var staged := Staged(digest, r.tenant, r.profiles);
          var keyed := UpsertKeys(upserted, tenant, staged);
          var trimmed := DeleteMembers(keyed, tenant, audience, staged);
          if !CanInsertMembers(trimmed, tenant, staged) then [upserted, keyed, trimmed] else
            var filled := InsertMembers(trimmed, tenant, audience, staged);
            var collected := CollectKeys(filled, tenant, Removed(keyed, tenant, audience, staged));
            [upserted, keyed, trimmed, filled, collected, SetEstimate(collected, audience, |r.profiles|)]
  }

  // ----- Every statement keeps the foreign keys -----

  lemma UpsertAudienceKeepsKeys(t: Tables, tenant: Tenant, r: Request)
    requires Consistent(t) && r.newId !in t.audiences
    requires ActiveTenant(t, r.tenant) == Some(tenant) && UpsertAudience(t, tenant, r).Some?
    ensures var (u, a) := UpsertAudience(t, tenant, r).value;
      Consistent(u) && HasKey(u, a, tenant, AudienceKey(r))
  {
    var key := AudienceKey(r);
    var u := UpsertAudience(t, tenant, r).value.0;
    if FindAudience(t, tenant, key).None? {
      forall a | a in t.audiences && t.audiences[a].tenant == tenant ensures t.audiences[a].key != key {
        assert !HasKey(t, a, tenant, key);
      }
    }
    hide AudienceKey;
    assert UniqueAudienceKeys(u);
  }

  lemma UpsertKeysKeepsKeys(t: Tables, tenant: Tenant, staged: map<Hash, string>)
    requires Consistent(t)
    ensures Consistent(UpsertKeys(t, tenant, staged))
  {
  }

  lemma DeleteMembersKeepsKeys(t: Tables, tenant: Tenant, audience: nat, staged: map<Hash, string>)
    requires Consistent(t)
    ensures Consistent(DeleteMembers(t, tenant, audience, staged))
  {
  }

  lemma InsertMembersKeepsKeys(t: Tables, tenant: Tenant, audience: nat, staged: map<Hash, string>)
    requires Consistent(t) && CanInsertMembers(t, tenant, staged)
    requires audience in t.audiences && t.audiences[audience].tenant == tenant
    ensures Consistent(InsertMembers(t, tenant, audience, staged))
  {
  }

  lemma CollectKeysKeepsKeys(t: Tables, tenant: Tenant, removed: set<Hash>)
    requires Consistent(t)
    ensures Consistent(CollectKeys(t, tenant, removed))
  {
  }

  lemma SetEstimateKeepsKeys(t: Tables, audience: nat, count: nat)
    requires Consistent(t)
    ensures Consistent(SetEstimate(t, audience, count))
  {
  }

  // ----- The transaction is "replace the members of one audience" -----

  /** The key of a member that leaves this audience and is in no other of the tenant's. */
  ghost predicate Dropped(t: Tables, tenant: Tenant, audience: nat, staged: map<Hash, string>, h: Hash) {
    && Member(tenant, audience, h) in t.members && h !in staged
    && forall m :: m in t.members && m.tenant == tenant && m.hash == h ==> m.audience == audience
  }

  ghost predicate Replaced(t: Tables, u: Tables, tenant: Tenant, audience: nat, staged: map<Hash, string>) {
    && u == t.(members := u.members, keys := u.keys)
    && (forall m :: m in u.members <==>
          if m.tenant == tenant && m.audience == audience then m.hash in staged else m in t.members)
    && (forall h :: h in u.keys <==> h in staged || (h in t.keys && !Dropped(t, tenant, audience, staged, h)))
    && (forall h :: h in u.keys ==> u.keys[h] == if h in staged then ServingKey(tenant, staged[h]) else t.keys[h])
  }

  ghost predicate NoForeignKeyTaken(t: Tables, tenant: Tenant, staged: map<Hash, string>) {
    forall h :: h in staged && h in t.keys ==> t.keys[h].tenant == tenant
  }

  lemma SnapshotReplaces(t: Tables, tenant: Tenant, audience: nat, staged: map<Hash, string>)
    requires Consistent(t) && audience in t.audiences && t.audiences[audience].tenant == tenant
    ensures ApplySnapshot(t, tenant, audience, staged).Ok? <==> NoForeignKeyTaken(t, tenant, staged)
    ensures ApplySnapshot(t, tenant, audience, staged).Ok? ==>
      var u := ApplySnapshot(t, tenant, audience, staged).value;
      Consistent(u) && Replaced(t, u, tenant, audience, staged)
  {
    var keyed := UpsertKeys(t, tenant, staged);
    var trimmed := DeleteMembers(keyed, tenant, audience, staged);
    UpsertKeysKeepsKeys(t, tenant, staged);
    DeleteMembersKeepsKeys(keyed, tenant, audience, staged);
    if CanInsertMembers(trimmed, tenant, staged) {
      forall h | h in staged && h in t.keys ensures t.keys[h].tenant == tenant {
        assert trimmed.keys[h].tenant == tenant;
      }
      var filled := InsertMembers(trimmed, tenant, audience, staged);
      var removed := Removed(keyed, tenant, audience, staged);
      InsertMembersKeepsKeys(trimmed, tenant, audience, staged);
      CollectKeysKeepsKeys(filled, tenant, removed);
      MembersAreReplaced(t, tenant, audience, staged);
      KeysAreCollected(t, tenant, audience, staged);
    }
  }

  lemma MembersAreReplaced(t: Tables, tenant: Tenant, audience: nat, staged: map<Hash, string>)
    ensures var u := InsertMembers(DeleteMembers(UpsertKeys(t, tenant, staged), tenant, audience, staged), tenant, audience, staged);
      forall m :: m in u.members <==>
        if m.tenant == tenant && m.audience == audience then m.hash in staged else m in t.members
  {
  }

  lemma KeysAreCollected(t: Tables, tenant: Tenant, audience: nat, staged: map<Hash, string>)
    requires Consistent(t) && NoForeignKeyTaken(t, tenant, staged)
    requires ApplySnapshot(t, tenant, audience, staged).Ok?
    ensures var u := ApplySnapshot(t, tenant, audience, staged).value;
      && (forall h :: h in u.keys <==> h in staged || (h in t.keys && !Dropped(t, tenant, audience, staged, h)))
      && (forall h :: h in u.keys ==> u.keys[h] == if h in staged then ServingKey(tenant, staged[h]) else t.keys[h])
  {
    var keyed := UpsertKeys(t, tenant, staged);
    var filled := InsertMembers(DeleteMembers(keyed, tenant, audience, staged), tenant, audience, staged);
    var removed := Removed(keyed, tenant, audience, staged);
    MembersAreReplaced(t, tenant, audience, staged);
    forall h | h in keyed.keys
      ensures (h in removed && keyed.keys[h].tenant == tenant && !Referenced(filled, tenant, h))
          <==> Dropped(t, tenant, audience, staged, h)
    {
      RemovedMembers(keyed, tenant, audience, staged, h);
      if Dropped(t, tenant, audience, staged, h) {
        assert !Referenced(filled, tenant, h);
      } else if h in removed {
        var m :| m in t.members && m.tenant == tenant && m.hash == h && m.audience != audience;
        assert m in filled.members;
      }
    }
  }

  lemma RemovedMembers(t: Tables, tenant: Tenant, audience: nat, staged: map<Hash, string>, h: Hash)
    ensures h in Removed(t, tenant, audience, staged) <==> Member(tenant, audience, h) in t.members && h !in staged
  {
  }

  // ----- Hashes -----

  ghost predicate Injective(digest: string -> string) {
    forall x, y :: digest(x) == digest(y) ==> x == y
  }

  /** The serving hash determines the source tenant and the profile. */
  lemma {:induction false} HashIsInjective(digest: string -> string, c: SourceTenant, p: string, d: SourceTenant, q: string)
    requires Injective(digest) && HashOf(digest, c, p) == HashOf(digest, d, q)
    ensures c == d && p == q
  {
    var x, y := "leo_ads:" + c + ":" + p, "leo_ads:" + d + ":" + q;
    assert x == y && |"leo_ads:"| == 8;
    assert c == x[8..44] == d;
    assert p == x[45..] == q;
  }

  lemma {:induction false} StagedRows(digest: string -> string, tenant: SourceTenant, profiles: seq<string>)
    requires Injective(digest)
    ensures forall h :: h in Staged(digest, tenant, profiles) <==> h in Hashes(digest, tenant, profiles)
    ensures forall h :: h in Staged(digest, tenant, profiles) ==>
      Staged(digest, tenant, profiles)[h] in profiles && HashOf(digest, tenant, Staged(digest, tenant, profiles)[h]) == h
  {
    if profiles != [] {
      var n := |profiles| - 1;
      var init := profiles[..n];
      StagedRows(digest, tenant, init);
      var hs, hs0 := Hashes(digest, tenant, profiles), Hashes(digest, tenant, init);
      assert hs == hs0 + [HashOf(digest, tenant, profiles[n])];
    }
  }

  lemma DistinctHashes(digest: string -> string, tenant: SourceTenant, profiles: seq<string>)
    requires Injective(digest)
    ensures Distinct(Hashes(digest, tenant, profiles)) <==> Distinct(profiles)
  {
    var hs := Hashes(digest, tenant, profiles);
    if Distinct(hs) {
      forall i, j | 0 <= i < j < |profiles| ensures profiles[i] != profiles[j] {
        assert hs[i] != hs[j];
      }
    }
    if Distinct(profiles) {
      forall i, j | 0 <= i < j < |hs| ensures hs[i] != hs[j] {
        if hs[i] == hs[j] { HashIsInjective(digest, tenant, profiles[i], tenant, profiles[j]); }
      }
    }
  }

  // ----- The sync -----

  /** Every serving key was made for a profile of the source tenant its row belongs to. */
  ghost predicate OwnedBySource(digest: string -> string, t: Tables, h: Hash)
    requires h in t.keys
  {
    exists c: SourceTenant, p :: c in t.mapping && t.mapping[c] == t.keys[h].tenant && HashOf(digest, c, p) == h
  }

  ghost predicate KeysOwned(digest: string -> string, t: Tables) {
    forall h :: h in t.keys ==> OwnedBySource(digest, t, h)
  }

  /** No serving key without a membership of its own tenant. */
  ghost predicate NoOrphanKeys(t: Tables) {
    forall h :: h in t.keys ==> Referenced(t, t.keys[h].tenant, h)
  }

  ghost predicate OwnedElsewhere(t: Tables, tenant: Tenant, r: Request) {
    exists a :: HasKey(t, a, tenant, AudienceKey(r))
      && (t.audiences[a].source != Some(r.tenant) || t.audiences[a].provider != PROVIDER)
  }

  function MembersOf(t: Tables, tenant: Tenant, audience: nat): set<Hash> {
    set m | m in t.members && m.tenant == tenant && m.audience == audience :: m.hash
  }

  /** The sync succeeds exactly when the tenant is mapped and active, its audience key is not
      another source's, and no profile comes twice; the foreign keys never make it fail. */
  lemma SyncSucceedsExactly(digest: string -> string, t: Tables, r: Request)
    requires Injective(digest) && Consistent(t) && KeysOwned(digest, t) && r.newId !in t.audiences
    ensures Sync(digest, t, r).Ok? <==>
      && r.tenant in t.mapping && t.mapping[r.tenant] in t.active
      && !OwnedElsewhere(t, t.mapping[r.tenant], r)
      && Distinct(r.profiles)
  {
    if ActiveTenant(t, r.tenant).Some? {
      var tenant := ActiveTenant(t, r.tenant).value;
      OwnershipIsExact(t, tenant, r);
      DistinctHashes(digest, r.tenant, r.profiles);
      if UpsertAudience(t, tenant, r).Some? {
        var (u, a) := UpsertAudience(t, tenant, r).value;
        var staged := Staged(digest, r.tenant, r.profiles);
        UpsertAudienceKeepsKeys(t, tenant, r);
        SnapshotReplaces(u, tenant, a, staged);
        NoForeignKeyIsEverTaken(digest, t, tenant, r);
      }
    }
  }

  lemma OwnershipIsExact(t: Tables, tenant: Tenant, r: Request)
    requires Consistent(t)
    ensures UpsertAudience(t, tenant, r).None? <==> OwnedElsewhere(t, tenant, r)
  {
  }

  lemma NoForeignKeyIsEverTaken(digest: string -> string, t: Tables, tenant: Tenant, r: Request)
    requires Injective(digest) && MappingIsUnique(t) && KeysOwned(digest, t)
    requires r.tenant in t.mapping && t.mapping[r.tenant] == tenant
    ensures NoForeignKeyTaken(t, tenant, Staged(digest, r.tenant, r.profiles))
  {
    var staged := Staged(digest, r.tenant, r.profiles);
    StagedRows(digest, r.tenant, r.profiles);
    forall h | h in staged && h in t.keys ensures t.keys[h].tenant == tenant {
      assert OwnedBySource(digest, t, h);
      var c: SourceTenant, p :| c in t.mapping && t.mapping[c] == t.keys[h].tenant && HashOf(digest, c, p) == h;
      HashIsInjective(digest, c, p, r.tenant, staged[h]);
    }
  }

  /** The transaction as an upsert of the audience row followed by a replacement. */
  lemma SyncIsAReplacement(digest: string -> string, t: Tables, r: Request)
    requires Consistent(t) && r.newId !in t.audiences && Sync(digest, t, r).Ok?
    ensures ActiveTenant(t, r.tenant).Some? && UpsertAudience(t, t.mapping[r.tenant], r).Some?
    ensures var Synced(u, a, count) := Sync(digest, t, r).value;
      var tenant, upserted := t.mapping[r.tenant], UpsertAudience(t, t.mapping[r.tenant], r).value.0;
      var staged := Staged(digest, r.tenant, r.profiles);
      && a == UpsertAudience(t, tenant, r).value.1 && count == |r.profiles| && Consistent(u)
      && HasKey(upserted, a, tenant, AudienceKey(r)) && Distinct(Hashes(digest, r.tenant, r.profiles))
      && Replaced(upserted, u.(audiences := upserted.audiences), tenant, a, staged)
      && u.audiences == upserted.audiences[a := upserted.audiences[a].(estimate := count)]
  {
    var tenant := t.mapping[r.tenant];
    var (upserted, a) := UpsertAudience(t, tenant, r).value;
    var staged := Staged(digest, r.tenant, r.profiles);
    UpsertAudienceKeepsKeys(t, tenant, r);
    SnapshotReplaces(upserted, tenant, a, staged);
    hide ApplySnapshot, Consistent, UpsertAudience;
    SetEstimateKeepsKeys(ApplySnapshot(upserted, tenant, a, staged).value, a, |r.profiles|);
  }

  ghost predicate OthersUntouched(t: Tables, u: Tables, tenant: Tenant, a: nat) {
    && (forall b: Tenant, c: nat :: (b, c) != (tenant, a) ==> MembersOf(u, b, c) == MembersOf(t, b, c))
    && (forall c :: c in t.audiences && c != a ==> c in u.audiences && u.audiences[c] == t.audiences[c])
    && u.mapping == t.mapping && u.active == t.active
  }

  /** What the transaction does, whatever the batch size: the audience's members become exactly
      the hashes of the profiles (also when there are none), its estimate their number, every
      other audience keeps its members, and a serving key disappears exactly when its member
      was removed and no other audience of the tenant has it. */
  lemma SyncReplacesTheAudience(digest: string -> string, t: Tables, r: Request, s: Synced, tenant: Tenant)
    requires Injective(digest) && Consistent(t) && r.newId !in t.audiences
    requires Sync(digest, t, r) == Ok(s) && ActiveTenant(t, r.tenant) == Some(tenant)
    ensures var u, a, staged := s.tables, s.audience, Staged(digest, r.tenant, r.profiles);
      && Consistent(u) && OthersUntouched(t, u, tenant, a)
      && (if a in t.audiences then HasKey(t, a, tenant, AudienceKey(r)) else a == r.newId)
      && RowIs(t, u, a, tenant, r, |r.profiles|) && s.count == |r.profiles|
      && MembersOf(u, tenant, a) == Elements(Hashes(digest, r.tenant, r.profiles))
      && |MembersOf(u, tenant, a)| == |r.profiles|
      && (forall h :: h in t.keys ==> (h !in u.keys <==> Dropped(t, tenant, a, staged, h)))
      && (forall h :: h in u.keys && h !in staged ==> h in t.keys && u.keys[h] == t.keys[h])
      && (forall i :: 0 <= i < |r.profiles| ==>
            HashOf(digest, r.tenant, r.profiles[i]) in u.keys
            && u.keys[HashOf(digest, r.tenant, r.profiles[i])] == ServingKey(tenant, r.profiles[i]))
  {
    hide Sync, UpsertAudience, Consistent, AudienceKey, Staged, Replaced, Injective, Dropped, MembersOf, HashOf;
    assert tenant == t.mapping[r.tenant];
    hide ActiveTenant;
    SyncIsAReplacement(digest, t, r);
    UpsertTouchesOneAudience(t, tenant, r);
    var (upserted, a) := UpsertAudience(t, tenant, r).value;
    ProfilesHaveKeys(digest, r.tenant, r.profiles, tenant, upserted, s.tables.(audiences := upserted.audiences), a);
    ReplacementMeans(t, upserted, s.tables, tenant, a, Staged(digest, r.tenant, r.profiles), s.count);
    hide OthersUntouched;
    StagedRows(digest, r.tenant, r.profiles);
    CountElements(Hashes(digest, r.tenant, r.profiles));
  }

  lemma ProfilesHaveKeys(digest: string -> string, source: SourceTenant, profiles: seq<string>, tenant: Tenant,
                         t: Tables, u: Tables, a: nat)
    requires Injective(digest) && Replaced(t, u, tenant, a, Staged(digest, source, profiles))
    ensures forall i :: 0 <= i < |profiles| ==>
      HashOf(digest, source, profiles[i]) in u.keys
      && u.keys[HashOf(digest, source, profiles[i])] == ServingKey(tenant, profiles[i])
  {
    var hs, staged := Hashes(digest, source, profiles), Staged(digest, source, profiles);
    StagedRows(digest, source, profiles);
    forall i | 0 <= i < |profiles|
      ensures HashOf(digest, source, profiles[i]) in u.keys
        && u.keys[HashOf(digest, source, profiles[i])] == ServingKey(tenant, profiles[i])
    {
      assert hs[i] in hs && hs[i] in staged;
      HashIsInjective(digest, source, profiles[i], source, staged[hs[i]]);
    }
  }

  lemma ReplacementMeans(t: Tables, upserted: Tables, u: Tables, tenant: Tenant, a: nat, staged: map<Hash, string>, count: nat)
    requires upserted == t.(audiences := upserted.audiences) && upserted.audiences.Keys == t.audiences.Keys + {a}
    requires forall c :: c in t.audiences && c != a ==> upserted.audiences[c] == t.audiences[c]
    requires Replaced(upserted, u.(audiences := upserted.audiences), tenant, a, staged)
    requires u.audiences == upserted.audiences[a := upserted.audiences[a].(estimate := count)]
    ensures OthersUntouched(t, u, tenant, a) && MembersOf(u, tenant, a) == staged.Keys
    ensures forall h :: h in t.keys ==> (h !in u.keys <==> Dropped(t, tenant, a, staged, h))
    ensures forall h :: h in u.keys && h !in staged ==> h in t.keys && u.keys[h] == t.keys[h]
  {
    ReplacedMembers(t, u, tenant, a, staged);
    forall h | h in t.keys ensures h !in u.keys <==> Dropped(t, tenant, a, staged, h) {
      StagedIsKept(t, tenant, a, staged, h);
      assert Dropped(upserted, tenant, a, staged, h) <==> Dropped(t, tenant, a, staged, h);
    }
  }

  lemma UpsertTouchesOneAudience(t: Tables, tenant: Tenant, r: Request)
    requires UpsertAudience(t, tenant, r).Some? && r.newId !in t.audiences
    ensures var (u, a) := UpsertAudience(t, tenant, r).value;
      && u == t.(audiences := u.audiences) && u.audiences.Keys == t.audiences.Keys + {a}
      && (forall c :: c in t.audiences && c != a ==> u.audiences[c] == t.audiences[c])
      && (if a in t.audiences then HasKey(t, a, tenant, AudienceKey(r)) else a == r.newId)
      && RowIs(t, u, a, tenant, r, 0)
  {
  }

  /** The row of the request's own audience, new or updated. */
  ghost predicate RowIs(t: Tables, u: Tables, a: nat, tenant: Tenant, r: Request, estimate: nat) {
    && a in u.audiences
    && u.audiences[a] == Audience(tenant, AudienceKey(r), r.name, "customer360", Some(r.tenant), estimate,
                                  if a in t.audiences then t.audiences[a].version + 1 else 1)
  }

  lemma StagedIsKept(t: Tables, tenant: Tenant, a: nat, staged: map<Hash, string>, h: Hash)
    ensures h in staged ==> !Dropped(t, tenant, a, staged, h)
  {
  }

  lemma ReplacedMembers(t: Tables, u: Tables, tenant: Tenant, a: nat, staged: map<Hash, string>)
    requires forall m :: m in u.members <==> if m.tenant == tenant && m.audience == a then m.hash in staged else m in t.members
    ensures MembersOf(u, tenant, a) == staged.Keys
    ensures forall b: Tenant, c: nat :: (b, c) != (tenant, a) ==> MembersOf(u, b, c) == MembersOf(t, b, c)
  {
    forall h ensures h in MembersOf(u, tenant, a) <==> h in staged {
      if h in staged { assert Member(tenant, a, h) in u.members; }
    }
    forall b: Tenant, c: nat | (b, c) != (tenant, a) ensures MembersOf(u, b, c) == MembersOf(t, b, c) {
      forall h ensures h in MembersOf(u, b, c) <==> h in MembersOf(t, b, c) {
        assert Member(b, c, h) in u.members <==> Member(b, c, h) in t.members;
      }
    }
  }

  // ----- Sequences of syncs by any tenants -----

  /** One request against the database: an error leaves it as it was. A request whose `newId`
      the sequence could not have yielded is passed over. */
  function After(digest: string -> string, t: Tables, r: Request): Tables {
    if r.newId in t.audiences then t else
      match Sync(digest, t, r)
      case Ok(s) => s.tables
      case Err(_) => t
  }

  function AfterAll(digest: string -> string, t: Tables, rs: seq<Request>): Tables
    decreases |rs|
  {
    if rs == [] then t else AfterAll(digest, After(digest, t, rs[0]), rs[1..])
  }

  /** Each request meets the tables the ones before it left. */
  lemma {:induction false} AfterAllThen(digest: string -> string, t: Tables, rs: seq<Request>, r: Request)
    ensures var u := AfterAll(digest, t, rs);
      AfterAll(digest, t, rs + [r]) == if r.newId !in u.audiences && Sync(digest, u, r).Ok? then Sync(digest, u, r).value.tables else u
    decreases |rs|
  {
    hide Sync;
    if rs == [] {
      assert rs + [r] == [r] && [r][1..] == [];
    } else {
      assert (rs + [r])[1..] == rs[1..] + [r];
      AfterAllThen(digest, After(digest, t, rs[0]), rs[1..], r);
    }
  }

  lemma SyncKeepsOwnership(digest: string -> string, t: Tables, r: Request)
    requires Injective(digest) && Consistent(t) && r.newId !in t.audiences && Sync(digest, t, r).Ok?
    requires KeysOwned(digest, t)
    ensures KeysOwned(digest, Sync(digest, t, r).value.tables)
  {
    var u, tenant := Sync(digest, t, r).value.tables, t.mapping[r.tenant];
    SyncIsAReplacement(digest, t, r);
    UpsertTouchesOneAudience(t, tenant, r);
    hide Sync, UpsertAudience, Consistent;
    StagedRows(digest, r.tenant, r.profiles);
    var staged := Staged(digest, r.tenant, r.profiles);
    forall h | h in u.keys ensures OwnedBySource(digest, u, h) {
      if h in staged {
        assert u.mapping[r.tenant] == u.keys[h].tenant && HashOf(digest, r.tenant, staged[h]) == h;
      } else {
        assert OwnedBySource(digest, t, h);
      }
    }
  }

  /** A key that stays was referenced before; its reference survives, or it would be dropped. */
  lemma SyncLeavesNoOrphans(digest: string -> string, t: Tables, r: Request)
    requires Injective(digest) && Consistent(t) && r.newId !in t.audiences && Sync(digest, t, r).Ok?
    requires NoOrphanKeys(t)
    ensures NoOrphanKeys(Sync(digest, t, r).value.tables)
  {
    var u, a, tenant := Sync(digest, t, r).value.tables, Sync(digest, t, r).value.audience, t.mapping[r.tenant];
    SyncIsAReplacement(digest, t, r);
    UpsertTouchesOneAudience(t, tenant, r);
    var upserted := UpsertAudience(t, tenant, r).value.0;
    var staged := Staged(digest, r.tenant, r.profiles);
    assert ForeignKeys(t);
    hide Sync, UpsertAudience, AudienceKey, Staged;
    forall h | h in u.keys ensures Referenced(u, u.keys[h].tenant, h) {
      if h in staged {
        assert Member(tenant, a, h) in u.members;
      } else {
        assert Referenced(t, t.keys[h].tenant, h) && !Dropped(upserted, tenant, a, staged, h);
        var m :| m in t.members && m.tenant == t.keys[h].tenant && m.hash == h;
        if m.tenant == tenant && m.audience == a {
          assert m == Member(tenant, a, h);
          var n :| n in upserted.members && n.tenant == tenant && n.hash == h && n.audience != a;
          assert n in u.members;
        } else {
          assert m in u.members;
        }
      }
    }
  }

  lemma AfterKeepsAll(digest: string -> string, t: Tables, r: Request)
    requires Injective(digest) && Consistent(t) && KeysOwned(digest, t)
    ensures Consistent(After(digest, t, r)) && KeysOwned(digest, After(digest, t, r))
    ensures NoOrphanKeys(t) ==> NoOrphanKeys(After(digest, t, r))
  {
    if r.newId !in t.audiences && Sync(digest, t, r).Ok? {
      SyncIsAReplacement(digest, t, r);
      SyncKeepsOwnership(digest, t, r);
      if NoOrphanKeys(t) { SyncLeavesNoOrphans(digest, t, r); }
    }
  }

  /** Over any sequence of syncs by any tenants every constraint holds and no orphan key ever
      appears if there was none. */
  lemma {:induction false} AllSyncsKeepTheConstraints(digest: string -> string, t: Tables, rs: seq<Request>)
    requires Injective(digest) && Consistent(t) && KeysOwned(digest, t)
    ensures Consistent(AfterAll(digest, t, rs)) && KeysOwned(digest, AfterAll(digest, t, rs))
    ensures NoOrphanKeys(t) ==> NoOrphanKeys(AfterAll(digest, t, rs))
    decreases |rs|
  {
    if rs != [] {
      AfterKeepsAll(digest, t, rs[0]);
      AllSyncsKeepTheConstraints(digest, After(digest, t, rs[0]), rs[1..]);
    }
  }

  // ----- One audience for each campaign and segment -----

  ghost predicate SameAudience(r: Request, q: Request) {
    r.tenant == q.tenant && r.campaign == q.campaign && r.segment == q.segment
  }

  lemma KeyIsTheParts(r: Request, q: Request)
    ensures AudienceKey(r) == AudienceKey(q) <==> SameAudience(r, q)
  {
    var head := "customer360:";
    var x, y := AudienceKey(r), AudienceKey(q);
    assert |head| == 12;
    assert x[12..48] == r.tenant && x[49..85] == r.campaign && x[86..122] == r.segment;
    assert y[12..48] == q.tenant && y[49..85] == q.campaign && y[86..122] == q.segment;
  }

  /** A sync leaves every audience row but its own in place, with its tenant, key and members. */
  lemma AfterLeavesOthers(digest: string -> string, t: Tables, r: Request, tenant: Tenant, a: nat, q: Request)
    requires Injective(digest) && Consistent(t) && KeysOwned(digest, t)
    requires HasKey(t, a, tenant, AudienceKey(r)) && !SameAudience(r, q)
    ensures var u := After(digest, t, q);
      a in u.audiences && u.audiences[a] == t.audiences[a] && MembersOf(u, tenant, a) == MembersOf(t, tenant, a)
  {
    if q.newId !in t.audiences && Sync(digest, t, q).Ok? {
      var s, other := Sync(digest, t, q).value, t.mapping[q.tenant];
      SyncReplacesTheAudience(digest, t, q, s, other);
      KeyIsTheParts(r, q);
      hide Sync, Consistent, AudienceKey;
      assert a != s.audience;
    }
  }

  lemma {:induction false} OthersLeaveTheAudience(digest: string -> string, t: Tables, r: Request, tenant: Tenant, a: nat,
                                                  more: seq<Request>)
    requires Injective(digest) && Consistent(t) && KeysOwned(digest, t)
    requires HasKey(t, a, tenant, AudienceKey(r)) && forall i :: 0 <= i < |more| ==> !SameAudience(r, more[i])
    ensures var u := AfterAll(digest, t, more);
      a in u.audiences && u.audiences[a] == t.audiences[a] && MembersOf(u, tenant, a) == MembersOf(t, tenant, a)
    decreases |more|
  {
    if more != [] {
      AfterLeavesOthers(digest, t, r, tenant, a, more[0]);
      AfterKeepsAll(digest, t, more[0]);
      hide Consistent, After, AudienceKey;
      OthersLeaveTheAudience(digest, After(digest, t, more[0]), r, tenant, a, more[1..]);
    }
  }

  /** A campaign's audience is its own: whatever is synced afterwards by any tenant for any other
      campaign or segment leaves its row and its members as they are, and a later sync of the
      source tenant reaches the same row exactly if it is for the same campaign and segment. */
  lemma AudiencesAreByCampaignAndSegment(digest: string -> string, t: Tables, r: Request, more: seq<Request>, q: Request)
    requires Injective(digest) && Consistent(t) && KeysOwned(digest, t) && r.newId !in t.audiences
    requires Sync(digest, t, r).Ok? && forall i :: 0 <= i < |more| ==> !SameAudience(r, more[i])
    requires var v := AfterAll(digest, Sync(digest, t, r).value.tables, more); q.newId !in v.audiences && Sync(digest, v, q).Ok?
    ensures var s := Sync(digest, t, r).value; var v := AfterAll(digest, s.tables, more);
      var later := Sync(digest, v, q).value; var tenant := t.mapping[r.tenant];
      && s.audience in v.audiences && v.audiences[s.audience] == s.tables.audiences[s.audience]
      && MembersOf(v, tenant, s.audience) == MembersOf(s.tables, tenant, s.audience)
      && (later.audience == s.audience <==> q.tenant == r.tenant && q.campaign == r.campaign && q.segment == r.segment)
      && (later.audience != s.audience ==>
            && s.audience in later.tables.audiences && later.tables.audiences[s.audience] == v.audiences[s.audience]
            && MembersOf(later.tables, tenant, s.audience) == MembersOf(v, tenant, s.audience))
  {
    var s, tenant := Sync(digest, t, r).value, t.mapping[r.tenant];
    var v := AfterAll(digest, s.tables, more);
    SyncReplacesTheAudience(digest, t, r, s, tenant);
    SyncKeepsOwnership(digest, t, r);
    OthersLeaveTheAudience(digest, s.tables, r, tenant, s.audience, more);
    AllSyncsKeepTheConstraints(digest, s.tables, more);
    MappingStays(digest, s.tables, more);
    LaterReaches(digest, v, r, tenant, s.audience, q);
  }

  lemma LaterReaches(digest: string -> string, v: Tables, r: Request, tenant: Tenant, a: nat, q: Request)
    requires Injective(digest) && Consistent(v) && KeysOwned(digest, v) && q.newId !in v.audiences && Sync(digest, v, q).Ok?
    requires r.tenant in v.mapping && v.mapping[r.tenant] == tenant && HasKey(v, a, tenant, AudienceKey(r))
    ensures var s := Sync(digest, v, q).value;
      && (s.audience == a <==> SameAudience(r, q))
      && (s.audience != a ==>
            && a in s.tables.audiences && s.tables.audiences[a] == v.audiences[a]
            && MembersOf(s.tables, tenant, a) == MembersOf(v, tenant, a))
  {
    var s, other := Sync(digest, v, q).value, v.mapping[q.tenant];
    SyncReplacesTheAudience(digest, v, q, s, other);
    KeyIsTheParts(r, q);
    assert UniqueAudienceKeys(s.tables);
    hide Sync, Consistent, AudienceKey;
  }

  lemma {:induction false} MappingStays(digest: string -> string, t: Tables, more: seq<Request>)
    requires Injective(digest) && Consistent(t) && KeysOwned(digest, t)
    ensures AfterAll(digest, t, more).mapping == t.mapping
    decreases |more|
  {
    if more != [] {
      AfterKeepsAll(digest, t, more[0]);
      MappingStays(digest, After(digest, t, more[0]), more[1..]);
    }
  }

  lemma RerunSucceeds(digest: string -> string, t: Tables, r: Request, again: nat)
    requires Injective(digest) && Consistent(t) && KeysOwned(digest, t)
    requires r.newId !in t.audiences && Sync(digest, t, r).Ok?
    requires again !in Sync(digest, t, r).value.tables.audiences
    ensures ActiveTenant(t, r.tenant).Some?
    ensures var u, a, tenant := Sync(digest, t, r).value.tables, Sync(digest, t, r).value.audience, t.mapping[r.tenant];
      && u.mapping == t.mapping && Consistent(u) && Sync(digest, u, r.(newId := again)).Ok?
      && UpsertAudience(u, tenant, r.(newId := again)).Some?
      && UpsertAudience(u, tenant, r.(newId := again)).value.1 == a
  {
    var u, tenant := Sync(digest, t, r).value.tables, t.mapping[r.tenant];
    var q := r.(newId := again);
    SyncIsAReplacement(digest, t, r);
    UpsertTouchesOneAudience(t, tenant, r);
    SyncKeepsOwnership(digest, t, r);
    SameAudienceAgain(digest, t, r, again);
    DistinctHashes(digest, r.tenant, r.profiles);
    assert AudienceKey(q) == AudienceKey(r);
    hide Sync, Consistent, AudienceKey;
    SyncSucceedsExactly(digest, u, q);
    SyncIsAReplacement(digest, u, q);
  }

  /** Running the same request again, as after a crash between the commit of the destination
      and that of the ledger, succeeds and reaches the same memberships and serving keys. */
  lemma RerunReachesTheSameMembership(digest: string -> string, t: Tables, r: Request, again: nat)
    requires Injective(digest) && Consistent(t) && KeysOwned(digest, t)
    requires r.newId !in t.audiences && Sync(digest, t, r).Ok?
    requires again !in Sync(digest, t, r).value.tables.audiences
    ensures var first, second := Sync(digest, t, r).value, Sync(digest, Sync(digest, t, r).value.tables, r.(newId := again));
      && second.Ok? && second.value.audience == first.audience && second.value.count == first.count
      && second.value.tables.members == first.tables.members && second.value.tables.keys == first.tables.keys
  {
    hide Sync, Consistent, AudienceKey, UpsertAudience;
    RerunSucceeds(digest, t, r, again);
    var u, a, tenant := Sync(digest, t, r).value.tables, Sync(digest, t, r).value.audience, t.mapping[r.tenant];
    var q := r.(newId := again);
    SyncIsAReplacement(digest, t, r);
    SyncIsAReplacement(digest, u, q);
    UpsertTouchesOneAudience(u, tenant, q);
    var v := Sync(digest, u, q).value.tables;
    var staged := Staged(digest, r.tenant, r.profiles);
    TwiceIsOnce(u, v, tenant, a, staged);
  }

  /** A second replacement by the same snapshot finds nothing to do. */
  lemma TwiceIsOnce(u: Tables, v: Tables, tenant: Tenant, a: nat, staged: map<Hash, string>)
    requires forall m :: m in u.members && m.tenant == tenant && m.audience == a ==> m.hash in staged
    requires forall h :: h in staged ==> Member(tenant, a, h) in u.members
    requires forall h :: h in staged ==> h in u.keys && u.keys[h] == ServingKey(tenant, staged[h])
    requires Replaced(u, v.(audiences := u.audiences), tenant, a, staged)
    ensures v.members == u.members && v.keys == u.keys
  {
  }

  /** The row the first run left belongs to this source, so the second run finds it. */
  lemma SameAudienceAgain(digest: string -> string, t: Tables, r: Request, again: nat)
    requires Consistent(t) && r.newId !in t.audiences && Sync(digest, t, r).Ok?
    ensures var u, a, tenant := Sync(digest, t, r).value.tables, Sync(digest, t, r).value.audience, t.mapping[r.tenant];
      && !OwnedElsewhere(u, tenant, r.(newId := again))
      && FindAudience(u, tenant, AudienceKey(r)) == Some(a)
  {
    var u, a, tenant := Sync(digest, t, r).value.tables, Sync(digest, t, r).value.audience, t.mapping[r.tenant];
    SyncIsAReplacement(digest, t, r);
    var upserted := UpsertAudience(t, tenant, r).value.0;
    assert upserted.audiences[a].source == Some(r.tenant) && upserted.audiences[a].provider == PROVIDER;
    assert AudienceKey(r.(newId := again)) == AudienceKey(r);
    assert HasKey(u, a, tenant, AudienceKey(r));
    hide AudienceKey, Sync, UpsertAudience;
    forall b | HasKey(u, b, tenant, AudienceKey(r)) ensures b == a {
    }
  }

  /** A sync succeeds exactly if all six statements are executed, and ends with the last. */
  lemma TraceEndsTheSync(digest: string -> string, t: Tables, r: Request)
    ensures Sync(digest, t, r).Ok? <==> |Trace(digest, t, r)| == 6
    ensures Sync(digest, t, r).Ok? ==> ActiveTenant(t, r.tenant).Some? && UpsertAudience(t, t.mapping[r.tenant], r).Some?
    ensures Sync(digest, t, r).Ok? ==>
      Sync(digest, t, r) == Ok(Synced(Trace(digest, t, r)[5], UpsertAudience(t, t.mapping[r.tenant], r).value.1, |r.profiles|))
  {
    hide UpsertAudience, Staged, Hashes, UpsertKeys, DeleteMembers, InsertMembers, CollectKeys, SetEstimate, CanInsertMembers, Removed;
  }

  /** The constraints hold after every statement of a sync, also of one that fails later. */
  lemma StatementsKeepTheConstraints(digest: string -> string, t: Tables, r: Request)
    requires Consistent(t) && r.newId !in t.audiences
    ensures forall s :: s in Trace(digest, t, r) ==> Consistent(s)
  {
    hide Consistent, HasKey, Staged, Hashes, UpsertAudience, UpsertKeys, DeleteMembers, InsertMembers, CollectKeys;
    hide SetEstimate, AudienceKey;
    if ActiveTenant(t, r.tenant).Some? && UpsertAudience(t, t.mapping[r.tenant], r).Some? {
      var tenant := t.mapping[r.tenant];
      var (upserted, audience) := UpsertAudience(t, tenant, r).value;
      var staged := Staged(digest, r.tenant, r.profiles);
      UpsertAudienceKeepsKeys(t, tenant, r);
      var keyed := UpsertKeys(upserted, tenant, staged);
      UpsertKeysKeepsKeys(upserted, tenant, staged);
      var trimmed := DeleteMembers(keyed, tenant, audience, staged);
      DeleteMembersKeepsKeys(keyed, tenant, audience, staged);
      if CanInsertMembers(trimmed, tenant, staged) {
        AudienceStays(upserted, tenant, audience, staged, AudienceKey(r));
        InsertMembersKeepsKeys(trimmed, tenant, audience, staged);
        var filled := InsertMembers(trimmed, tenant, audience, staged);
        var removed := Removed(keyed, tenant, audience, staged);
        CollectKeysKeepsKeys(filled, tenant, removed);
        SetEstimateKeepsKeys(CollectKeys(filled, tenant, removed), audience, |r.profiles|);
      }
    }
  }

  /** Over any sequence of syncs by any tenants, after every single statement of every one of
      them. */
  lemma EveryStatementKeepsTheConstraints(digest: string -> string, t: Tables, rs: seq<Request>, i: nat)
    requires Injective(digest) && Consistent(t) && KeysOwned(digest, t) && i < |rs|
    requires rs[i].newId !in AfterAll(digest, t, rs[..i]).audiences
    ensures forall s :: s in Trace(digest, AfterAll(digest, t, rs[..i]), rs[i]) ==> Consistent(s)
  {
    AllSyncsKeepTheConstraints(digest, t, rs[..i]);
    StatementsKeepTheConstraints(digest, AfterAll(digest, t, rs[..i]), rs[i]);
  }

  // ----- The code -----

  /** The profiles of a batch, as the rows it inserts. */
  function StagedMore(digest: string -> string, tenant: SourceTenant, staged: map<Hash, string>, batch: seq<string>): map<Hash, string> {
    if batch == [] then staged else
      var last := batch[|batch| - 1];
      StagedMore(digest, tenant, staged, batch[..|batch| - 1])[HashOf(digest, tenant, last) := last]
  }

  lemma {:induction false} StagedInBatches(digest: string -> string, tenant: SourceTenant, done: seq<string>, batch: seq<string>)
    ensures StagedMore(digest, tenant, Staged(digest, tenant, done), batch) == Staged(digest, tenant, done + batch)
    decreases |batch|
  {
    if batch == [] {
      assert done + batch == done;
    } else {
      StagedInBatches(digest, tenant, done, batch[..|batch| - 1]);
      assert (done + batch)[..|done + batch| - 1] == done + batch[..|batch| - 1];
    }
  }

  class LeoAdsDatabase {
    const digest: string -> string
    var t: Tables

    constructor (digest: string -> string, t: Tables)
      ensures this.digest == digest && this.t == t
    {
      this.digest, this.t := digest, t;
    }

    /** The transaction statement by statement. It returns what `Sync` says for every batch
        size; on an error the tables are the old ones; and `after` lists the tables after each
        statement, every one of which satisfies all constraints. */
    method SyncLeoAds(r: Request, batchSize: nat) returns (result: Result<(nat, nat)>, ghost after: seq<Tables>)
      requires batchSize >= 1 && Consistent(t) && r.newId !in t.audiences
      modifies this`t
      ensures result.Ok? <==> Sync(digest, old(t), r).Ok?
      ensures result.Ok? ==> Sync(digest, old(t), r) == Ok(Synced(t, result.value.0, result.value.1))
      ensures result.Err? ==> t == old(t)
      ensures after == Trace(digest, old(t), r) && forall s :: s in after ==> Consistent(s)
      ensures result.Ok? ==> |after| == 6 && t == after[5]
    {
      hide Sync, Consistent, Staged, UpsertAudience, UpsertKeys, DeleteMembers, InsertMembers, CollectKeys, SetEstimate, Removed;
      StatementsKeepTheConstraints(digest, t, r);
      TraceEndsTheSync(digest, t, r);
      var rollback := t;
      after := [];
      var mapped := ActiveTenant(t, r.tenant);
      if mapped.None? { return Err("No active LEO Ads tenant mapping for Customer 360 tenant"), after; }
      var tenant := mapped.value;

      var upserted := UpsertAudience(t, tenant, r);
      if upserted.None? { return Err("LEO Ads audience key is owned by another source"), after; }
      var audience := upserted.value.1;
      t := upserted.value.0;
      after := after + [t];

      var staged, failed := StageMembers(r, batchSize);
      if failed {
        t := rollback;
        return Err("duplicate key value"), after;
      }
      t := UpsertKeys(t, tenant, staged);
      after := after + [t];

      var removed := Removed(t, tenant, audience, staged);
      t := DeleteMembers(t, tenant, audience, staged);
      after := after + [t];

      if !CanInsertMembers(t, tenant, staged) {
        t := rollback;
        return Err("foreign key violation"), after;
      }
      t := InsertMembers(t, tenant, audience, staged);
      after := after + [t];

      t := CollectKeys(t, tenant, removed);
      after := after + [t];

      t := SetEstimate(t, audience, |r.profiles|);
      after := after + [t];
      return Ok((audience, |r.profiles|)), after;
    }

    /** Fills the temporary member table batch by batch; a profile that comes twice, in one
        batch or in two, violates its primary key. */
    method StageMembers(r: Request, batchSize: nat) returns (staged: map<Hash, string>, failed: bool)
      requires batchSize >= 1
      ensures failed <==> !Distinct(Hashes(digest, r.tenant, r.profiles))
      ensures !failed ==> staged == Staged(digest, r.tenant, r.profiles)
    {
      staged, failed := map[], false;
      var i := 0;
      while i < |r.profiles|
        invariant 0 <= i <= |r.profiles| && staged == Staged(digest, r.tenant, r.profiles[..i])
        invariant Distinct(Hashes(digest, r.tenant, r.profiles[..i]))
      {
        var j := if i + batchSize <= |r.profiles| then i + batchSize else |r.profiles|;
        var batch := r.profiles[i..j];
        var hs := Hashes(digest, r.tenant, batch);
        assert r.profiles[..j] == r.profiles[..i] + batch;
        HashesAppend(digest, r.tenant, r.profiles[..i], batch);
        StagedKeys(digest, r.tenant, r.profiles[..i]);
        if !Distinct(hs) || exists h :: h in hs && h in staged {
          NotDistinct(Hashes(digest, r.tenant, r.profiles[..i]), hs);
          DuplicateStays(digest, r.tenant, r.profiles, j);
          return staged, true;
        }
        DistinctAppend(Hashes(digest, r.tenant, r.profiles[..i]), hs);
        StagedInBatches(digest, r.tenant, r.profiles[..i], batch);
        staged := StagedMore(digest, r.tenant, staged, batch);
        i := j;
      }
      assert r.profiles[..i] == r.profiles;
    }
  }

  lemma AudienceStays(t: Tables, tenant: Tenant, audience: nat, staged: map<Hash, string>, key: string)
    requires HasKey(t, audience, tenant, key)
    ensures var u := DeleteMembers(UpsertKeys(t, tenant, staged), tenant, audience, staged);
      audience in u.audiences && u.audiences[audience].tenant == tenant
  {
  }

  lemma HashesAppend(digest: string -> string, tenant: SourceTenant, a: seq<string>, b: seq<string>)
    ensures Hashes(digest, tenant, a + b) == Hashes(digest, tenant, a) + Hashes(digest, tenant, b)
  {
  }

  lemma {:induction false} StagedKeys(digest: string -> string, tenant: SourceTenant, profiles: seq<string>)
    ensures forall h :: h in Staged(digest, tenant, profiles) <==> h in Hashes(digest, tenant, profiles)
  {
    if profiles != [] {
      var n := |profiles| - 1;
      StagedKeys(digest, tenant, profiles[..n]);
      assert profiles == profiles[..n] + [profiles[n]];
      HashesAppend(digest, tenant, profiles[..n], [profiles[n]]);
    }
  }

  lemma NotDistinct(a: seq<Hash>, b: seq<Hash>)
    requires !Distinct(b) || exists h :: h in b && h in a
    ensures !Distinct(a + b)
  {
    if !Distinct(b) {
      var i, j :| 0 <= i < j < |b| && b[i] == b[j];
      assert (a + b)[|a| + i] == (a + b)[|a| + j];
    } else {
      var h :| h in b && h in a;
      var i, j :| 0 <= i < |a| && a[i] == h && 0 <= j < |b| && b[j] == h;
      assert (a + b)[i] == (a + b)[|a| + j];
    }
  }

  lemma DuplicateStays(digest: string -> string, tenant: SourceTenant, profiles: seq<string>, j: nat)
    requires j <= |profiles| && !Distinct(Hashes(digest, tenant, profiles[..j]))
    ensures !Distinct(Hashes(digest, tenant, profiles))
  {
  }
}
