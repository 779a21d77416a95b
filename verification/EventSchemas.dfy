/**
  Validation of ingested events: opaque identifiers are trimmed and checked, alias keys are
  folded into their canonical names, attribution ids are put into canonical form.
*/
module EventSchemas {
  import opened Common
  import opened Text

  /** A JSON value; `Other` stands for numbers, booleans and lists. */
  datatype Value =
    | Null
    | Str(text: string)
    | Object(fields: map<string, Value>)
    | Other(truthy: bool, code: int)

  type Event = map<string, Value>

  const MAX_IDENTIFIER_LENGTH: nat := 256
  const IDENTIFIER_FIELDS: seq<string> := ["session_id", "anonymous_id", "device_id", "device_fingerprint", "user_id"]
  const EVENT_UUID_FIELDS: seq<string> := ["campaign_id", "experiment_variant_id"]
  const ALIASES: seq<(string, string)> := [("leocpid", "campaign_id"), ("leoexvrid", "experiment_variant_id")]
  const TRUSTED_CONSENT_SOURCE := "verified_consent_callback"
  const RESERVED_CONSENT_EVENTS: set<string> := {"email-unsubscribed", "zalo-opt-out"}

  function Get(e: Event, key: string): Value {
    if key in e then e[key] else Null
  }

  predicate Truthy(v: Value) {
    match v
    case Null => false
    case Str(s) => s != ""
    case Object(m) => m != map[]
    case Other(t, _) => t
  }

  predicate IsControl(c: char) {
    c < ' ' || c == '\U{7f}'
  }

  function NormalizeIdentifier(v: Value): Result<Value> {
    match v
    case Null => Ok(Null)
    case Str(s) =>
      var t := Strip(s);
      if t == "" then Err("must not be blank")
      else if |t| > MAX_IDENTIFIER_LENGTH then Err("is too long")
      else if exists c :: c in t && IsControl(c) then Err("contains control characters")
      else Ok(Str(t))
    case _ => Err("must be a string")
  }

  /** `parse` is str(UUID(str(value))); it yields a canonical text, which it reads back. */
  type UuidParser = Value -> Option<string>

  ghost predicate Canonical(parse: UuidParser) {
    forall v :: parse(v).Some? ==> parse(Str(parse(v).value)) == parse(v)
  }

  function NormalizeUuid(parse: UuidParser, v: Value): Result<Value> {
    if v.Null? then Ok(Null) else
    match parse(v)
    case None => Err("must be a valid UUID")
    case Some(u) => Ok(Str(u))
  }

  /** An accepted identifier is trimmed, not blank, short and printable, and is accepted as it
      is when it comes again. */
  lemma IdentifierTwice(v: Value)
    requires NormalizeIdentifier(v).Ok?
    ensures NormalizeIdentifier(NormalizeIdentifier(v).value) == NormalizeIdentifier(v)
    ensures v.Str? ==> NormalizeIdentifier(v).value.Str?
    ensures v.Str? ==> Stripped(NormalizeIdentifier(v).value.text)
    ensures v.Str? ==> 0 < |NormalizeIdentifier(v).value.text| <= MAX_IDENTIFIER_LENGTH
  {
    if v.Str? { StripIsStripped(v.text); }
  }

  // ----- One event -----

  type Normalizer = Value -> Result<Value>

  function Uuids(parse: UuidParser): Normalizer {
    v => NormalizeUuid(parse, v)
  }

  /** Normalises the fields that are there, in order. */
  function NormalizeFields(norm: Normalizer, e: Event, fields: seq<string>): Result<Event> {
    if fields == [] then Ok(e)
    else if fields[0] !in e then NormalizeFields(norm, e, fields[1..])
    else
      match norm(e[fields[0]])
      case Err(x) => Err(x)
      case Ok(v) => NormalizeFields(norm, e[fields[0] := v], fields[1..])
  }

  function FoldAlias(parse: UuidParser, e: Event, alias: string, field: string): Result<Event> {
    if alias !in e then Ok(e) else
    match NormalizeUuid(parse, e[alias])
    case Err(x) => Err(x)
    case Ok(a) =>
      var rest := e - {alias};
      if field in rest then
        match NormalizeUuid(parse, rest[field])
        case Err(x) => Err(x)
        case Ok(v) => if !a.Null? && a != v then Err("conflicts") else Ok(rest)
      else Ok(if a.Null? then rest else rest[field := a])
  }

  function FoldAliases(parse: UuidParser, e: Event, aliases: seq<(string, string)>): Result<Event>
    decreases |aliases|
  {
    if aliases == [] then Ok(e) else
    match FoldAlias(parse, e, aliases[0].0, aliases[0].1)
    case Err(x) => Err(x)
    case Ok(f) => FoldAliases(parse, f, aliases[1..])
  }

  function EventName(e: Event): Value {
    if Truthy(Get(e, "event_name")) then Get(e, "event_name")
    else if Truthy(Get(e, "eventType")) then Get(e, "eventType")
    else Get(e, "event")
  }

  predicate IsReserved(e: Event) {
    || (EventName(e).Str? && Lower(Strip(EventName(e).text)) in RESERVED_CONSENT_EVENTS)
    || Get(e, "source_system") == Str(TRUSTED_CONSENT_SOURCE)
    || "consent_update" in e
    || (Get(e, "properties").Object? && "consent_update" in Get(e, "properties").fields)
  }

  /** Aliases first, then the attribution ids themselves. */
  function ValidateIds(parse: UuidParser, f: Event): Result<Event> {
    match FoldAliases(parse, f, ALIASES)
    case Err(x) => Err(x)
    case Ok(g) => NormalizeFields(Uuids(parse), g, EVENT_UUID_FIELDS)
  }

  function ValidateEvent(parse: UuidParser, e: Event): Result<Event> {
    if IsReserved(e) then Err("reserved for verified consent callbacks") else
    match NormalizeFields(NormalizeIdentifier, e, IDENTIFIER_FIELDS)
    case Err(x) => Err(x)
    case Ok(f) => ValidateIds(parse, f)
  }

  // ----- Validation is idempotent -----

  ghost predicate Idempotent(norm: Normalizer) {
    forall v :: norm(v).Ok? ==> norm(norm(v).value) == norm(v)
  }

  /** All the fields among these that an event has are in normal form. */
  ghost predicate Normal(norm: Normalizer, e: Event, fields: seq<string>) {
    forall k :: k in fields && k in e ==> norm(e[k]) == Ok(e[k])
  }

  ghost predicate SameElsewhere(e: Event, f: Event, keys: set<string>) {
    forall k :: k !in keys ==> (k in f <==> k in e) && (k in e ==> f[k] == e[k])
  }

  lemma {:induction false} FieldsBecomeNormal(norm: Normalizer, e: Event, fields: seq<string>)
    requires Idempotent(norm) && Distinct(fields) && NormalizeFields(norm, e, fields).Ok?
    ensures var f := NormalizeFields(norm, e, fields).value;
      f.Keys == e.Keys && Normal(norm, f, fields) && SameElsewhere(e, f, Elements(fields))
  {
    if fields != [] {
      var rest := fields[1..];
      forall i, j | 0 <= i < j < |rest| ensures rest[i] != rest[j] {
        assert fields[i + 1] != fields[j + 1];
      }
      assert fields[0] !in rest;
      var next := if fields[0] in e then e[fields[0] := norm(e[fields[0]]).value] else e;
      FieldsBecomeNormal(norm, next, rest);
      assert forall k :: k in fields <==> k == fields[0] || k in rest;
    }
  }

  lemma {:induction false} NormalFieldsStay(norm: Normalizer, e: Event, fields: seq<string>)
    requires Normal(norm, e, fields)
    ensures NormalizeFields(norm, e, fields) == Ok(e)
  {
    if fields != [] {
      assert forall k :: k in fields[1..] ==> k in fields;
      if fields[0] in e { assert e[fields[0] := e[fields[0]]] == e; }
      NormalFieldsStay(norm, e, fields[1..]);
    }
  }

  lemma IdentifiersAreIdempotent()
    ensures Idempotent(NormalizeIdentifier)
  {
    forall v | NormalizeIdentifier(v).Ok? ensures NormalizeIdentifier(NormalizeIdentifier(v).value) == NormalizeIdentifier(v) {
      IdentifierTwice(v);
    }
  }

  lemma UuidsAreIdempotent(parse: UuidParser)
    requires Canonical(parse)
    ensures Idempotent(Uuids(parse))
  {
  }

  /** The canonical field gets the alias's id, or already had the same one; the alias is gone. */
  lemma FoldedOnce(parse: UuidParser, e: Event, alias: string, field: string)
    requires alias != field && FoldAlias(parse, e, alias, field).Ok?
    ensures var f := FoldAlias(parse, e, alias, field).value;
      && alias !in f && SameElsewhere(e, f, {alias, field})
      && (field in e ==> field in f && f[field] == e[field])
  {
  }

  /** A field means an id if its value normalises to that id. */
  ghost predicate Means(parse: UuidParser, e: Event, field: string, id: string) {
    field in e && NormalizeUuid(parse, e[field]) == Ok(Str(id))
  }

  lemma FoldingMoves(parse: UuidParser, e: Event, alias: string, field: string, id: string)
    requires Canonical(parse) && alias != field && FoldAlias(parse, e, alias, field).Ok? && Means(parse, e, alias, id)
    ensures Means(parse, FoldAlias(parse, e, alias, field).value, field, id)
  {
  }

  const TOUCHED: set<string> := Elements(IDENTIFIER_FIELDS) + Elements(EVENT_UUID_FIELDS) + {"leocpid", "leoexvrid"}

  lemma FoldedAll(parse: UuidParser, e: Event)
    requires FoldAliases(parse, e, ALIASES).Ok?
    ensures var f := FoldAliases(parse, e, ALIASES).value;
      "leocpid" !in f && "leoexvrid" !in f && SameElsewhere(e, f, {"leocpid", "leoexvrid", "campaign_id", "experiment_variant_id"})
  {
    var f := FoldAlias(parse, e, "leocpid", "campaign_id").value;
    FoldedOnce(parse, e, "leocpid", "campaign_id");
    FoldedOnce(parse, f, "leoexvrid", "experiment_variant_id");
    assert ALIASES[1..] == [("leoexvrid", "experiment_variant_id")] && ALIASES[1..][1..] == [];
    assert FoldAliases(parse, e, ALIASES) == FoldAliases(parse, f, ALIASES[1..]);
  }

  ghost predicate Validated(parse: UuidParser, e: Event) {
    && !IsReserved(e) && Normal(NormalizeIdentifier, e, IDENTIFIER_FIELDS)
    && Normal(Uuids(parse), e, EVENT_UUID_FIELDS)
    && "leocpid" !in e && "leoexvrid" !in e
  }

  lemma DistinctNames()
    ensures Distinct(IDENTIFIER_FIELDS) && Distinct(EVENT_UUID_FIELDS)
    ensures "leocpid" !in IDENTIFIER_FIELDS && "leoexvrid" !in IDENTIFIER_FIELDS
    ensures "leocpid" !in EVENT_UUID_FIELDS && "leoexvrid" !in EVENT_UUID_FIELDS
    ensures forall k :: k in EVENT_UUID_FIELDS ==> k !in IDENTIFIER_FIELDS
    ensures forall k :: k in {"event_name", "eventType", "event", "source_system", "consent_update", "properties"} ==> k !in TOUCHED
  {
  }

  lemma ReservedLooksElsewhere(e: Event, f: Event)
    requires SameElsewhere(e, f, TOUCHED)
    ensures IsReserved(f) == IsReserved(e)
  {
    DistinctNames();
    forall k | k in {"event_name", "eventType", "event", "source_system", "consent_update", "properties"} ensures Get(e, k) == Get(f, k) {
    }
  }

  /** What validation accepts is in normal form, and every key it does not know stays. */
  lemma AcceptedIsNormal(parse: UuidParser, e: Event)
    requires Canonical(parse) && ValidateEvent(parse, e).Ok?
    ensures Validated(parse, ValidateEvent(parse, e).value) && SameElsewhere(e, ValidateEvent(parse, e).value, TOUCHED)
  {
    DistinctNames();
    IdentifiersAreIdempotent();
    UuidsAreIdempotent(parse);
    var norm := Uuids(parse);
    var f := NormalizeFields(NormalizeIdentifier, e, IDENTIFIER_FIELDS).value;
    FieldsBecomeNormal(NormalizeIdentifier, e, IDENTIFIER_FIELDS);
    var g := FoldAliases(parse, f, ALIASES).value;
    FoldedAll(parse, f);
    var h := NormalizeFields(norm, g, EVENT_UUID_FIELDS).value;
    FieldsBecomeNormal(norm, g, EVENT_UUID_FIELDS);
    hide NormalizeFields, FoldAliases, IsReserved, NormalizeIdentifier, Uuids, Idempotent, Distinct;
    assert ValidateEvent(parse, e) == Ok(h);
    hide ValidateEvent;
    AllSame(e, f, g, h);
    ReservedLooksElsewhere(e, h);
    forall k | k in IDENTIFIER_FIELDS && k in h ensures NormalizeIdentifier(h[k]) == Ok(h[k]) {
      assert h[k] == g[k] == f[k];
    }
  }

  lemma AllSame(e: Event, f: Event, g: Event, h: Event)
    requires SameElsewhere(e, f, Elements(IDENTIFIER_FIELDS))
    requires SameElsewhere(f, g, {"leocpid", "leoexvrid", "campaign_id", "experiment_variant_id"})
    requires SameElsewhere(g, h, Elements(EVENT_UUID_FIELDS))
    ensures SameElsewhere(e, h, TOUCHED)
  {
    assert "campaign_id" in EVENT_UUID_FIELDS && "experiment_variant_id" in EVENT_UUID_FIELDS;
  }

  /** An event in normal form is accepted as it is. */
  lemma NormalIsAccepted(parse: UuidParser, e: Event)
    requires Validated(parse, e)
    ensures ValidateEvent(parse, e) == Ok(e)
  {
    NormalFieldsStay(NormalizeIdentifier, e, IDENTIFIER_FIELDS);
    assert ALIASES[1..] == [("leoexvrid", "experiment_variant_id")] && ALIASES[1..][1..] == [];
    assert FoldAliases(parse, e, ALIASES) == FoldAliases(parse, e, ALIASES[1..]) == FoldAliases(parse, e, []);
    NormalFieldsStay(Uuids(parse), e, EVENT_UUID_FIELDS);
  }

  /** Validation is idempotent, leaves no alias keys, and changes nothing but identifiers, aliases
      and attribution ids. */
  lemma ValidationTwice(parse: UuidParser, e: Event)
    requires Canonical(parse) && ValidateEvent(parse, e).Ok?
    ensures var f := ValidateEvent(parse, e).value;
      && ValidateEvent(parse, f) == Ok(f) && "leocpid" !in f && "leoexvrid" !in f
      && (forall k :: k !in TOUCHED ==> (k in f <==> k in e) && (k in e ==> f[k] == e[k]))
  {
    AcceptedIsNormal(parse, e);
    NormalIsAccepted(parse, ValidateEvent(parse, e).value);
    hide ValidateEvent;
  }

  /** The attribution id an accepted event ends with is the one its alias gave, if it gave one. */
  lemma AliasGivesTheId(parse: UuidParser, e: Event, alias: string, field: string, id: string)
    requires Canonical(parse) && ValidateEvent(parse, e).Ok? && (alias, field) in ALIASES && Means(parse, e, alias, id)
    ensures var f := ValidateEvent(parse, e).value; field in f && f[field] == Str(id)
  {
    DistinctNames();
    IdentifiersAreIdempotent();
    UuidsAreIdempotent(parse);
    var norm := Uuids(parse);
    var f := NormalizeFields(NormalizeIdentifier, e, IDENTIFIER_FIELDS).value;
    FieldsBecomeNormal(NormalizeIdentifier, e, IDENTIFIER_FIELDS);
    assert Means(parse, f, alias, id);
    AliasesMove(parse, f, alias, field, id);
    var g := FoldAliases(parse, f, ALIASES).value;
    hide FoldAliases, IsReserved, NormalizeIdentifier, FoldAlias;
    OneField(parse, g, field, id);
  }

  lemma AliasesMove(parse: UuidParser, e: Event, alias: string, field: string, id: string)
    requires Canonical(parse) && FoldAliases(parse, e, ALIASES).Ok? && (alias, field) in ALIASES && Means(parse, e, alias, id)
    ensures Means(parse, FoldAliases(parse, e, ALIASES).value, field, id)
  {
    assert ALIASES[1..] == [("leoexvrid", "experiment_variant_id")] && ALIASES[1..][1..] == [];
    var f := FoldAlias(parse, e, "leocpid", "campaign_id").value;
    assert FoldAliases(parse, e, ALIASES) == FoldAliases(parse, f, ALIASES[1..]);
    FoldedOnce(parse, e, "leocpid", "campaign_id");
    FoldedOnce(parse, f, "leoexvrid", "experiment_variant_id");
    if alias == "leocpid" {
      FoldingMoves(parse, e, alias, field, id);
    } else {
      FoldingMoves(parse, f, alias, field, id);
    }
  }

  lemma OneField(parse: UuidParser, g: Event, field: string, id: string)
    requires field in EVENT_UUID_FIELDS && Means(parse, g, field, id)
    requires NormalizeFields(Uuids(parse), g, EVENT_UUID_FIELDS).Ok?
    ensures var h := NormalizeFields(Uuids(parse), g, EVENT_UUID_FIELDS).value; field in h && h[field] == Str(id)
  {
    var norm, variant := Uuids(parse), "experiment_variant_id";
    assert EVENT_UUID_FIELDS[1..] == [variant] && [variant][1..] == [];
    var h := if "campaign_id" in g then g["campaign_id" := norm(g["campaign_id"]).value] else g;
    assert NormalizeFields(norm, g, EVENT_UUID_FIELDS) == NormalizeFields(norm, h, [variant]);
    var k := if variant in h then h[variant := norm(h[variant]).value] else h;
    assert NormalizeFields(norm, h, [variant]) == NormalizeFields(norm, k, []) == Ok(k);
  }

  // ----- What is accepted, and what becomes of it -----

  /** An absent or empty value, as Python's `or` passes over it. */
  ghost predicate PassedOver(e: Event, key: string) {
    key !in e || e[key] == Null || e[key] == Str("") || e[key] == Object(map[]) || (e[key].Other? && !e[key].truthy)
  }

  /** No event that claims to be a verified consent callback: by its name, the first of three keys
      that has one, by its source, or by a consent update of its own or in its properties. */
  ghost predicate Unreserved(e: Event) {
    && (forall key | key in {"event_name", "eventType", "event"} ::
          key in e && e[key].Str? && Lower(Strip(e[key].text)) in {"email-unsubscribed", "zalo-opt-out"} ==>
            (key != "event_name" && !PassedOver(e, "event_name")) || (key == "event" && !PassedOver(e, "eventType")))
    && ("source_system" in e ==> e["source_system"] != Str("verified_consent_callback"))
    && "consent_update" !in e
    && ("properties" in e && e["properties"].Object? ==> "consent_update" !in e["properties"].fields)
  }

  lemma ReservedExactly(e: Event)
    ensures IsReserved(e) <==> !Unreserved(e)
  {
    NoReservedNameIsBlank();
    assert forall key :: Truthy(Get(e, key)) <==> !PassedOver(e, key);
    assert "event_name" in {"event_name", "eventType", "event"};
    hide Strip, Lower;
  }

  lemma NoReservedNameIsBlank()
    ensures Lower(Strip("")) !in RESERVED_CONSENT_EVENTS
  {
  }

  /** Null, or a text that is neither blank nor too long nor has control characters. */
  ghost predicate IdentifierOk(v: Value) {
    v == Null || (v.Str? && 0 < |Strip(v.text)| <= 256 && forall c :: c in Strip(v.text) ==> ' ' <= c && c != '\U{7f}')
  }

  lemma IdentifierExactly(v: Value)
    ensures NormalizeIdentifier(v).Ok? <==> IdentifierOk(v)
    ensures NormalizeIdentifier(v).Ok? ==> NormalizeIdentifier(v).value == if v == Null then Null else Str(Strip(v.text))
  {
    hide Strip;
  }

  lemma {:induction false} FieldsExactly(norm: Normalizer, e: Event, fields: seq<string>)
    requires Distinct(fields)
    ensures NormalizeFields(norm, e, fields).Ok? <==> forall k :: k in fields && k in e ==> norm(e[k]).Ok?
    ensures NormalizeFields(norm, e, fields).Ok? ==> var f := NormalizeFields(norm, e, fields).value;
      f.Keys == e.Keys && forall k :: k in e ==> f[k] == if k in fields then norm(e[k]).value else e[k]
  {
    if fields != [] {
      var rest := fields[1..];
      forall i, j | 0 <= i < j < |rest| ensures rest[i] != rest[j] {
        assert fields[i + 1] != fields[j + 1];
      }
      assert fields[0] !in rest && forall k :: k in fields <==> k == fields[0] || k in rest;
      if fields[0] in e {
        if norm(e[fields[0]]).Ok? { FieldsExactly(norm, e[fields[0] := norm(e[fields[0]]).value], rest); }
      } else {
        FieldsExactly(norm, e, rest);
      }
    }
  }

  /** The attribution id a value stands for; None for null and for what is no UUID. */
  ghost function IdOf(parse: UuidParser, v: Value): Option<string> {
    if v == Null then None else parse(v)
  }

  ghost predicate IdOk(parse: UuidParser, v: Value) {
    v == Null || parse(v).Some?
  }

  ghost function IdText(parse: UuidParser, v: Value): Value {
    if IdOf(parse, v).None? then Null else Str(IdOf(parse, v).value)
  }

  /** An alias and its field are both ids or null, and if both are there the alias is null or the
      same id. */
  ghost predicate AliasOk(parse: UuidParser, e: Event, alias: string, field: string) {
    && (alias in e ==> IdOk(parse, e[alias])) && (field in e ==> IdOk(parse, e[field]))
    && (alias in e && field in e && e[alias] != Null ==> IdOf(parse, e[alias]) == IdOf(parse, e[field]))
  }

  /** The id the field ends with: its own or, without one, its alias's. */
  ghost predicate Ends(parse: UuidParser, e: Event, f: Event, alias: string, field: string) {
    && (field in f <==> field in e || (alias in e && e[alias] != Null))
    && (field in f ==> f[field] == IdText(parse, e[if field in e then field else alias]))
  }

  /** The alias is gone; the field keeps its value or, without one, has the alias's id. */
  ghost predicate Folded(parse: UuidParser, e: Event, f: Event, alias: string, field: string) {
    && alias !in f && SameElsewhere(e, f, {alias, field})
    && (field in e ==> field in f && f[field] == e[field])
    && (field !in e ==> (field in f <==> alias in e && e[alias] != Null))
    && (field !in e && field in f ==> f[field] == IdText(parse, e[alias]) && IdOk(parse, f[field]) && IdText(parse, f[field]) == f[field])
  }

  lemma FoldExactly(parse: UuidParser, e: Event, alias: string, field: string)
    requires Canonical(parse) && alias != field
    ensures FoldAlias(parse, e, alias, field).Ok? && (field in e ==> IdOk(parse, e[field])) <==> AliasOk(parse, e, alias, field)
    ensures FoldAlias(parse, e, alias, field).Ok? ==> Folded(parse, e, FoldAlias(parse, e, alias, field).value, alias, field)
  {
  }

  ghost predicate IdsAreText(parse: UuidParser, g: Event, h: Event) {
    && h.Keys == g.Keys && SameElsewhere(g, h, {"campaign_id", "experiment_variant_id"})
    && (forall k :: k in {"campaign_id", "experiment_variant_id"} && k in g ==> h[k] == IdText(parse, g[k]))
  }

  lemma LastFields(parse: UuidParser, g: Event)
    ensures NormalizeFields(Uuids(parse), g, EVENT_UUID_FIELDS).Ok? <==>
      ("campaign_id" in g ==> IdOk(parse, g["campaign_id"])) && ("experiment_variant_id" in g ==> IdOk(parse, g["experiment_variant_id"]))
    ensures NormalizeFields(Uuids(parse), g, EVENT_UUID_FIELDS).Ok? ==>
      IdsAreText(parse, g, NormalizeFields(Uuids(parse), g, EVENT_UUID_FIELDS).value)
  {
    DistinctNames();
    NamesOfIdentifiers();
    FieldsExactly(Uuids(parse), g, EVENT_UUID_FIELDS);
    assert "campaign_id" in EVENT_UUID_FIELDS && "experiment_variant_id" in EVENT_UUID_FIELDS;
    hide NormalizeFields;
  }

  lemma BothEnd(parse: UuidParser, e: Event, f: Event, g: Event, h: Event)
    requires Folded(parse, e, f, "leocpid", "campaign_id") && Folded(parse, f, g, "leoexvrid", "experiment_variant_id")
    requires IdsAreText(parse, g, h)
    ensures Ends(parse, e, h, "leocpid", "campaign_id") && Ends(parse, e, h, "leoexvrid", "experiment_variant_id")
    ensures SameElsewhere(e, h, {"leocpid", "leoexvrid", "campaign_id", "experiment_variant_id"})
  {
    hide IdText, IdOk;
  }

  /** The second pair and the fields' own ids are untouched by the first fold. */
  lemma FoldedLeaves(parse: UuidParser, e: Event, f: Event)
    requires Folded(parse, e, f, "leocpid", "campaign_id")
    ensures AliasOk(parse, f, "leoexvrid", "experiment_variant_id") <==> AliasOk(parse, e, "leoexvrid", "experiment_variant_id")
    ensures ("campaign_id" in f ==> IdOk(parse, f["campaign_id"])) <==> ("campaign_id" in e ==> IdOk(parse, e["campaign_id"]))
  {
    hide IdText, IdOk;
  }

  lemma FoldedAgain(parse: UuidParser, f: Event, g: Event)
    requires Folded(parse, f, g, "leoexvrid", "experiment_variant_id")
    ensures ("campaign_id" in g <==> "campaign_id" in f) && ("campaign_id" in f ==> g["campaign_id"] == f["campaign_id"])
    ensures ("experiment_variant_id" in g ==> IdOk(parse, g["experiment_variant_id"]))
       <==> ("experiment_variant_id" in f ==> IdOk(parse, f["experiment_variant_id"]))
  {
    hide IdText, IdOk;
  }

  lemma IdentifiersExactly(e: Event)
    ensures NormalizeFields(NormalizeIdentifier, e, IDENTIFIER_FIELDS).Ok? <==> IdentifiersOk(e)
    ensures NormalizeFields(NormalizeIdentifier, e, IDENTIFIER_FIELDS).Ok? ==>
      var f := NormalizeFields(NormalizeIdentifier, e, IDENTIFIER_FIELDS).value;
      Trimmed(e, f) && SameElsewhere(e, f, Elements(IDENTIFIER_FIELDS))
  {
    DistinctNames();
    FieldsExactly(NormalizeIdentifier, e, IDENTIFIER_FIELDS);
    NamesOfIdentifiers();
    hide NormalizeFields, NormalizeIdentifier;
    forall v ensures NormalizeIdentifier(v).Ok? <==> IdentifierOk(v) {
      IdentifierExactly(v);
    }
    if NormalizeFields(NormalizeIdentifier, e, IDENTIFIER_FIELDS).Ok? {
      forall k | k in e && k in IDENTIFIER_FIELDS
        ensures NormalizeIdentifier(e[k]).value == if e[k] == Null then Null else Str(Strip(e[k].text)) {
        IdentifierExactly(e[k]);
      }
    }
  }

  ghost predicate IdentifiersOk(e: Event) {
    forall k :: k in e && k in {"session_id", "anonymous_id", "device_id", "device_fingerprint", "user_id"} ==> IdentifierOk(e[k])
  }

  ghost predicate Trimmed(e: Event, f: Event) {
    forall k :: k in e && k in {"session_id", "anonymous_id", "device_id", "device_fingerprint", "user_id"} ==>
      k in f && (e[k] == Null || e[k].Str?) && f[k] == if e[k] == Null then Null else Str(Strip(e[k].text))
  }

  lemma NamesOfIdentifiers()
    ensures Elements(IDENTIFIER_FIELDS) == {"session_id", "anonymous_id", "device_id", "device_fingerprint", "user_id"}
    ensures Elements(EVENT_UUID_FIELDS) == {"campaign_id", "experiment_variant_id"}
  {
  }

  lemma IdsExactly(parse: UuidParser, e: Event)
    requires Canonical(parse)
    ensures ValidateIds(parse, e).Ok? <==>
      AliasOk(parse, e, "leocpid", "campaign_id") && AliasOk(parse, e, "leoexvrid", "experiment_variant_id")
    ensures ValidateIds(parse, e).Ok? ==> var h := ValidateIds(parse, e).value;
      && Ends(parse, e, h, "leocpid", "campaign_id") && Ends(parse, e, h, "leoexvrid", "experiment_variant_id")
      && SameElsewhere(e, h, {"leocpid", "leoexvrid", "campaign_id", "experiment_variant_id"})
  {
    TwoFolds(parse, e);
    var first := FoldAlias(parse, e, "leocpid", "campaign_id");
    FoldExactly(parse, e, "leocpid", "campaign_id");
    hide FoldAlias, FoldAliases, NormalizeFields, IdText, IdOk, Canonical, Folded, AliasOk, Ends, IdsAreText, SameElsewhere;
    if first.Ok? {
      var second := FoldAlias(parse, first.value, "leoexvrid", "experiment_variant_id");
      FoldedLeaves(parse, e, first.value);
      FoldExactly(parse, first.value, "leoexvrid", "experiment_variant_id");
      if second.Ok? {
        FoldedAgain(parse, first.value, second.value);
        LastFields(parse, second.value);
        if ValidateIds(parse, e).Ok? { BothEnd(parse, e, first.value, second.value, ValidateIds(parse, e).value); }
      }
    }
  }

  lemma TwoFolds(parse: UuidParser, e: Event)
    ensures FoldAliases(parse, e, ALIASES) ==
      match FoldAlias(parse, e, "leocpid", "campaign_id")
      case Err(x) => Err(x)
      case Ok(f) => FoldAlias(parse, f, "leoexvrid", "experiment_variant_id")
  {
    assert ALIASES[1..] == [("leoexvrid", "experiment_variant_id")] && ALIASES[1..][1..] == [];
    var first := FoldAlias(parse, e, "leocpid", "campaign_id");
    if first.Ok? {
      assert FoldAliases(parse, e, ALIASES) == FoldAliases(parse, first.value, ALIASES[1..]);
    }
  }

  /** An event is accepted exactly if it is not reserved, its identifiers are in order, and its
      attribution ids are and agree with their aliases. It then ends with the trimmed identifiers
      and the canonical ids, and everything else as it was. */
  lemma AcceptedExactly(parse: UuidParser, e: Event)
    requires Canonical(parse)
    ensures ValidateEvent(parse, e).Ok? <==>
      && Unreserved(e) && IdentifiersOk(e)
      && AliasOk(parse, e, "leocpid", "campaign_id") && AliasOk(parse, e, "leoexvrid", "experiment_variant_id")
    ensures ValidateEvent(parse, e).Ok? ==> var f := ValidateEvent(parse, e).value;
      && Trimmed(e, f) && Ends(parse, e, f, "leocpid", "campaign_id") && Ends(parse, e, f, "leoexvrid", "experiment_variant_id")
      && SameElsewhere(e, f, TOUCHED)
  {
    ReservedExactly(e);
    IdentifiersExactly(e);
    hide NormalizeFields, ValidateIds, IsReserved, Unreserved, IdentifiersOk, Trimmed, AliasOk, Ends, SameElsewhere, Canonical;
    var first := NormalizeFields(NormalizeIdentifier, e, IDENTIFIER_FIELDS);
    if first.Ok? {
      IdsExactly(parse, first.value);
      IdsLookElsewhere(parse, e, first.value);
      var last := ValidateIds(parse, first.value);
      if last.Ok? { TrimmedThenIds(e, first.value, last.value); }
    }
  }

  lemma IdsLookElsewhere(parse: UuidParser, e: Event, f: Event)
    requires SameElsewhere(e, f, Elements(IDENTIFIER_FIELDS))
    ensures AliasOk(parse, e, "leocpid", "campaign_id") <==> AliasOk(parse, f, "leocpid", "campaign_id")
    ensures AliasOk(parse, e, "leoexvrid", "experiment_variant_id") <==> AliasOk(parse, f, "leoexvrid", "experiment_variant_id")
    ensures forall h :: Ends(parse, f, h, "leocpid", "campaign_id") ==> Ends(parse, e, h, "leocpid", "campaign_id")
    ensures forall h :: Ends(parse, f, h, "leoexvrid", "experiment_variant_id") ==> Ends(parse, e, h, "leoexvrid", "experiment_variant_id")
  {
    NamesOfIdentifiers();
    hide IdText, IdOk;
    assert forall k :: k in {"leocpid", "campaign_id", "leoexvrid", "experiment_variant_id"} ==>
      (k in f <==> k in e) && (k in e ==> f[k] == e[k]);
  }

  lemma TrimmedThenIds(e: Event, f: Event, h: Event)
    requires Trimmed(e, f) && SameElsewhere(e, f, Elements(IDENTIFIER_FIELDS))
    requires SameElsewhere(f, h, {"leocpid", "leoexvrid", "campaign_id", "experiment_variant_id"})
    ensures Trimmed(e, h) && SameElsewhere(e, h, TOUCHED)
  {
    NamesOfIdentifiers();
    hide Strip;
  }

  // ----- The validator -----

  /** Every event, or the first error. */
  function ValidateEvents(parse: UuidParser, es: seq<Event>): Result<seq<Event>> {
    if es == [] then Ok([]) else
    match ValidateEvents(parse, es[..|es| - 1])
    case Err(x) => Err(x)
    case Ok(fs) =>
      match ValidateEvent(parse, es[|es| - 1])
      case Err(x) => Err(x)
      case Ok(f) => Ok(fs + [f])
  }

  lemma {:induction false} FirstErrorWins(parse: UuidParser, es: seq<Event>, i: nat)
    requires i <= |es| && ValidateEvents(parse, es[..i]).Err?
    ensures ValidateEvents(parse, es) == ValidateEvents(parse, es[..i])
    decreases |es|
  {
    if i < |es| {
      assert es[..|es| - 1][..i] == es[..i];
      FirstErrorWins(parse, es[..|es| - 1], i);
    } else {
      assert es[..i] == es;
    }
  }

  /** The events in turn, each with its fields popped and assigned in nested loops. */
  method ValidateEventIdentifiers(parse: UuidParser, es: seq<Event>) returns (r: Result<seq<Event>>)
    ensures r == ValidateEvents(parse, es)
  {
    var normalized: seq<Event>, i := [], 0;
    while i < |es|
      invariant 0 <= i <= |es| && ValidateEvents(parse, es[..i]) == Ok(normalized)
    {
      assert es[..i + 1][..i] == es[..i];
      var v := ValidateOne(parse, es[i]);
      if v.Err? {
        FirstErrorWins(parse, es, i + 1);
        return Err(v.error);
      }
      normalized, i := normalized + [v.value], i + 1;
    }
    assert es[..i] == es;
    return Ok(normalized);
  }

  method ValidateOne(parse: UuidParser, e: Event) returns (r: Result<Event>)
    ensures r == ValidateEvent(parse, e)
  {
    if IsReserved(e) { return Err("reserved for verified consent callbacks"); }
    hide IsReserved, NormalizeIdentifier, FoldAlias, Uuids;
    var f := NormalizeInPlace(NormalizeIdentifier, e, IDENTIFIER_FIELDS);
    if f.Err? { return f; }
    var g, i := f.value, 0;
    while i < |ALIASES|
      invariant 0 <= i <= |ALIASES| && FoldAliases(parse, g, ALIASES[i..]) == FoldAliases(parse, f.value, ALIASES)
    {
      assert ALIASES[i..][1..] == ALIASES[i + 1..] && ALIASES[i..][0] == ALIASES[i];
      var folded := FoldAlias(parse, g, ALIASES[i].0, ALIASES[i].1);
      if folded.Err? { return folded; }
      g, i := folded.value, i + 1;
    }
    assert ALIASES[i..] == [];
    r := NormalizeInPlace(Uuids(parse), g, EVENT_UUID_FIELDS);
  }

  method NormalizeInPlace(norm: Normalizer, e: Event, fields: seq<string>) returns (r: Result<Event>)
    ensures r == NormalizeFields(norm, e, fields)
  {
    var f, i := e, 0;
    while i < |fields|
      invariant 0 <= i <= |fields| && NormalizeFields(norm, f, fields[i..]) == NormalizeFields(norm, e, fields)
    {
      assert fields[i..][1..] == fields[i + 1..] && fields[i..][0] == fields[i];
      if fields[i] in f {
        var v := norm(f[fields[i]]);
        if v.Err? { return Err(v.error); }
        f := f[fields[i] := v.value];
      }
      i := i + 1;
    }
    return Ok(f);
  }
}
