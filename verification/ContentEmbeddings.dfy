/**
  The embedding cache of content items: before a semantic step runs, every selected item gets an
  embedding of its current text by the current model; items that have one are left alone.
*/
module ContentEmbeddings {
  import opened Common

  const CONTENT_EMBEDDING_VERSION := "1"
  const SUPPORTED_DIMENSIONS: set<nat> := {384, 768}

  type Vector = seq<real>
  type ItemId = string

  datatype Embedding = Embedding(text: string, model: string, version: string, vector: Vector)

  /** `title`, `summary` and `tags` stand for the columns the text is made from. */
  datatype Item = Item(tenant: string, active: bool, title: string, summary: string, tags: seq<string>, embedding: Option<Embedding>)

  type Table = map<ItemId, Item>

  /** A step's request; `text` makes an item's embedding text, `embed` is the provider. */
  datatype Request = Request(
    tenant: string,
    candidates: seq<ItemId>,
    model: string,
    dimensions: nat,
    text: (string, string, seq<string>) -> string,
    embed: seq<string> -> Option<seq<Vector>>)

  function TextOf(r: Request, i: Item): string {
    r.text(i.title, i.summary, i.tags)
  }

  /** The rows the query returns, in the order it returns them. */
  function Selected(t: Table, r: Request): set<ItemId> {
    set id | id in r.candidates && id in t && t[id].tenant == r.tenant && t[id].active
  }

  predicate IsCurrent(r: Request, i: Item) {
    && i.embedding.Some? && i.embedding.value.model == r.model && i.embedding.value.version == CONTENT_EMBEDDING_VERSION
    && |i.embedding.value.vector| == r.dimensions && i.embedding.value.text == TextOf(r, i)
  }

  function Missing(t: Table, r: Request, rows: seq<ItemId>): (ms: seq<ItemId>)
    requires forall id :: id in rows ==> id in t
    ensures forall id :: id in ms <==> id in rows && !IsCurrent(r, t[id])
    ensures Distinct(rows) ==> Distinct(ms)
  {
    if rows == [] then [] else
      var rest, last := Missing(t, r, rows[..|rows| - 1]), rows[|rows| - 1];
      assert forall id :: id in rows <==> id in rows[..|rows| - 1] || id == last;
      if IsCurrent(r, t[last]) then rest else rest + [last]
  }

  function Texts(t: Table, r: Request, ids: seq<ItemId>): (xs: seq<string>)
    requires forall id :: id in ids ==> id in t
    ensures |xs| == |ids|
    ensures forall i :: 0 <= i < |ids| ==> xs[i] == TextOf(r, t[ids[i]])
  {
    seq(|ids|, i requires 0 <= i < |ids| => TextOf(r, t[ids[i]]))
  }

  function Embedded(r: Request, i: Item, v: Vector): Item {
    i.(embedding := Some(Embedding(TextOf(r, i), r.model, CONTENT_EMBEDDING_VERSION, v)))
  }

  /** The UPDATE joined with the new values. */
  function UpdateAll(t: Table, r: Request, ids: seq<ItemId>, vs: seq<Vector>): Table
    requires |ids| == |vs| && forall id :: id in ids ==> id in t
  {
    if ids == [] then t else
      var n := |ids| - 1;
      var u := UpdateAll(t, r, ids[..n], vs[..n]);
      if ids[n] in u then u[ids[n] := Embedded(r, u[ids[n]], vs[n])] else u
  }

  /** The whole step; `rows` is the order of the query's answer. */
  function Ensure(t: Table, r: Request, rows: seq<ItemId>): Result<Table>
    requires Distinct(rows) && Elements(rows) == Selected(t, r)
  {
    RowsAreInTheTable(t, r, rows);
    if |rows| != |r.candidates| then Err("One or more selected content items are missing, inactive, or outside this tenant")
    else if r.dimensions !in SUPPORTED_DIMENSIONS then Err("Recommendation embeddings must use 384 or 768 dimensions")
    else
      var missing := Missing(t, r, rows);
      if missing == [] then Ok(t) else
      match r.embed(Texts(t, r, missing))
      case None => Err("embedding failed")
      case Some(vs) =>
        if |vs| != |missing| then Err("Embedding provider did not return a vector per content item")
        else Ok(UpdateAll(t, r, missing, vs))
  }

  lemma RowsAreInTheTable(t: Table, r: Request, rows: seq<ItemId>)
    requires Elements(rows) == Selected(t, r)
    ensures forall id :: id in rows ==> id in t
  {
    forall id | id in rows ensures id in t {
      assert id in Elements(rows);
    }
  }

  /** All candidates were found exactly if none is repeated and each is an active item of the
      tenant: a candidate listed twice is refused like a missing one. */
  lemma FoundAllExactly(t: Table, r: Request, rows: seq<ItemId>)
    requires Distinct(rows) && Elements(rows) == Selected(t, r)
    ensures |rows| == |r.candidates| <==>
      Distinct(r.candidates) && forall id :: id in r.candidates ==> id in t && t[id].tenant == r.tenant && t[id].active
  {
    CountElements(rows);
    CountElements(r.candidates);
    var found, asked := Selected(t, r), Elements(r.candidates);
    assert found <= asked;
    SubsetCount(found, asked);
    hide Distinct;
    assert found == asked <==> forall id :: id in r.candidates ==> id in t && t[id].tenant == r.tenant && t[id].active by {
      if found == asked {
        forall id | id in r.candidates ensures id in found {
          assert id in asked;
        }
      }
    }
  }

  lemma {:induction false} UpdateIsExact(t: Table, r: Request, ids: seq<ItemId>, vs: seq<Vector>)
    requires |ids| == |vs| && Distinct(ids) && forall id :: id in ids ==> id in t
    ensures var u := UpdateAll(t, r, ids, vs);
      && u.Keys == t.Keys && (forall id :: id in t && id !in ids ==> u[id] == t[id])
      && forall i :: 0 <= i < |ids| ==> u[ids[i]] == Embedded(r, t[ids[i]], vs[i])
  {
    if ids != [] {
      var n := |ids| - 1;
      var init, values := ids[..n], vs[..n];
      assert ids[n] !in init;
      UpdateIsExact(t, r, init, values);
      hide Embedded, Distinct;
      var u, w := UpdateAll(t, r, ids, vs), UpdateAll(t, r, init, values);
      assert u == w[ids[n] := Embedded(r, t[ids[n]], vs[n])];
      forall i | 0 <= i < n ensures u[ids[i]] == Embedded(r, t[ids[i]], vs[i]) {
        assert init[i] == ids[i] && values[i] == vs[i] && init[i] in init;
      }
    }
  }

  /** What the provider returned for the stale items has the expected dimensions. */
  predicate RightDimensions(t: Table, r: Request, rows: seq<ItemId>)
    requires forall id :: id in rows ==> id in t
  {
    var answer := r.embed(Texts(t, r, Missing(t, r, rows)));
    answer.Some? ==> forall v :: v in answer.value ==> |v| == r.dimensions
  }

  /** The item has an embedding of its present text, by this model, of the right size. */
  ghost predicate UpToDate(r: Request, i: Item) {
    exists v: Vector :: |v| == r.dimensions && i.embedding == Some(Embedding(r.text(i.title, i.summary, i.tags), r.model, "1", v))
  }

  lemma CurrentIsUpToDate(r: Request, i: Item)
    ensures IsCurrent(r, i) <==> UpToDate(r, i)
  {
    if IsCurrent(r, i) {
      assert i.embedding == Some(Embedding(TextOf(r, i), r.model, "1", i.embedding.value.vector));
    }
  }

  lemma MissingNone(t: Table, r: Request, rows: seq<ItemId>)
    requires forall id :: id in rows ==> id in t
    ensures Missing(t, r, rows) == [] <==> forall id :: id in rows ==> UpToDate(r, t[id])
  {
    forall id | id in rows ensures IsCurrent(r, t[id]) <==> UpToDate(r, t[id]) {
      CurrentIsUpToDate(r, t[id]);
    }
    hide IsCurrent, UpToDate;
    var missing := Missing(t, r, rows);
    if missing != [] { SomeElement(missing); }
  }

  /** The step succeeds exactly if every candidate is there, once, active and of the tenant, the
      size is one of the two supported, and either all are up to date or the provider returns one
      vector for each that is not. */
  lemma EnsureSucceedsExactly(t: Table, r: Request, rows: seq<ItemId>)
    requires Distinct(rows) && Elements(rows) == Selected(t, r)
    ensures Ensure(t, r, rows).Ok? <==>
      && Distinct(r.candidates) && (forall id :: id in r.candidates ==> id in t && t[id].tenant == r.tenant && t[id].active)
      && (r.dimensions == 384 || r.dimensions == 768)
      && ((forall id :: id in r.candidates ==> UpToDate(r, t[id])) || AnswersAll(t, r, rows))
  {
    RowsAreInTheTable(t, r, rows);
    FoundAllExactly(t, r, rows);
    MissingNone(t, r, rows);
    RowsAreCandidates(t, r, rows);
    hide Distinct, UpToDate, Missing, UpdateAll, Selected, Texts;
  }

  lemma RowsAreCandidates(t: Table, r: Request, rows: seq<ItemId>)
    requires Elements(rows) == Selected(t, r)
    ensures (forall id :: id in r.candidates ==> id in t && t[id].tenant == r.tenant && t[id].active) ==>
      forall id :: id in rows <==> id in r.candidates
  {
    assert forall id :: id in rows <==> id in Elements(rows);
  }

  /** The provider has a vector for each stale item, asked for in table order. */
  ghost predicate AnswersAll(t: Table, r: Request, rows: seq<ItemId>) {
    (forall id :: id in rows ==> id in t) &&
    var answer := r.embed(Texts(t, r, Missing(t, r, rows)));
    answer.Some? && |answer.value| == |Missing(t, r, rows)|
  }

  /** Afterwards, given vectors of the right size, every selected item is current; items that
      were current, and all others, are as before. */
  lemma EnsureMakesCurrent(t: Table, r: Request, rows: seq<ItemId>)
    requires Distinct(rows) && Elements(rows) == Selected(t, r) && Ensure(t, r, rows).Ok?
    ensures forall id :: id in rows ==> id in t
    ensures var u := Ensure(t, r, rows).value;
      && u.Keys == t.Keys
      && (forall id :: id in t && (id !in rows || IsCurrent(r, t[id])) ==> u[id] == t[id])
      && (forall id :: id in t ==> u[id] == t[id].(embedding := u[id].embedding))
      && (RightDimensions(t, r, rows) ==> forall id :: id in rows ==> IsCurrent(r, u[id]))
  {
    RowsAreInTheTable(t, r, rows);
    var missing, u := Missing(t, r, rows), Ensure(t, r, rows).value;
    if missing != [] {
      var vs := r.embed(Texts(t, r, missing)).value;
      UpdateIsExact(t, r, missing, vs);
      assert u == UpdateAll(t, r, missing, vs);
      hide UpdateAll, Missing, Texts, Ensure, Selected, Distinct;
      forall id | id in rows ensures RightDimensions(t, r, rows) ==> IsCurrent(r, u[id]) {
        if id in missing {
          var i :| 0 <= i < |missing| && missing[i] == id;
          assert vs[i] in vs;
        }
      }
      forall id | id in t ensures u[id] == t[id].(embedding := u[id].embedding) {
        if id in missing { var i :| 0 <= i < |missing| && missing[i] == id; }
      }
    }
  }

  /** Each selected item then has an embedding of its present text; one that had it keeps it. */
  lemma EnsureBringsUpToDate(t: Table, r: Request, rows: seq<ItemId>)
    requires Distinct(rows) && Elements(rows) == Selected(t, r) && Ensure(t, r, rows).Ok?
    ensures forall id :: id in rows ==> id in t
    ensures var u := Ensure(t, r, rows).value;
      && u.Keys == t.Keys && (forall id :: id in t && (id !in rows || UpToDate(r, t[id])) ==> u[id] == t[id])
      && (RightDimensions(t, r, rows) ==> forall id :: id in rows ==> UpToDate(r, u[id]))
  {
    EnsureMakesCurrent(t, r, rows);
    hide Ensure, UpToDate, IsCurrent, RightDimensions;
    forall i ensures IsCurrent(r, i) <==> UpToDate(r, i) {
      CurrentIsUpToDate(r, i);
    }
  }

  /** Then the provider is not asked again: a second run changes nothing, whatever it would
      answer. */
  lemma EnsureTwice(t: Table, r: Request, rows: seq<ItemId>, other: seq<string> -> Option<seq<Vector>>)
    requires Distinct(rows) && Elements(rows) == Selected(t, r) && Ensure(t, r, rows).Ok?
    requires (forall id :: id in rows ==> id in t) && RightDimensions(t, r, rows)
    ensures var u, q := Ensure(t, r, rows).value, r.(embed := other);
      Elements(rows) == Selected(u, q) && Ensure(u, q, rows) == Ok(u)
  {
    EnsureMakesCurrent(t, r, rows);
    var u, q := Ensure(t, r, rows).value, r.(embed := other);
    hide RightDimensions, UpdateAll;
    forall id ensures id in Selected(u, q) <==> id in Selected(t, r) {
      if id in t { assert u[id] == t[id].(embedding := u[id].embedding); }
    }
    assert Elements(rows) == Selected(u, q);
    forall id | id in rows ensures IsCurrent(q, u[id]) {
      assert IsCurrent(r, u[id]);
    }
    var missing := Missing(u, q, rows);
    if missing != [] { SomeElement(missing); }
  }

  lemma SomeElement(ids: seq<ItemId>)
    requires ids != []
    ensures exists id :: id in ids
  {
    assert ids[0] in ids;
  }
}
