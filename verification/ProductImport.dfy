/**
  The product import: generated content is collected batch by batch, then products and content
  are upserted in one transaction. A product's link to its content row is set at most once.
*/
module ProductImport {
  import opened Common

  const LLM_BATCH_SIZE: nat := 20
  const PAGE_SIZE: nat := 500
  const MARKER := "generate_content_item"

  type Uuid = nat

  datatype Source = Source(sourceType: string, sourceId: string, idType: string, productId: string)
  datatype Identity = Identity(tenant: nat, source: Source)

  /** A validated row of the staged file; `details` stands for the other columns. */
  datatype Record = Record(source: Source, domain: string, attributes: map<string, string>, details: int)

  datatype Generated = Generated(title: string, summary: string)

  datatype Product = Product(link: Option<Uuid>, domain: string, attributes: map<string, string>, details: int)
  datatype Content = Content(tenant: nat, domain: string, title: string, summary: string, details: int)

  datatype Db = Db(products: map<Identity, Product>, contents: map<Uuid, Content>)

  const EMPTY := Db(map[], map[])

  function ProductKey(s: Source): string {
    s.sourceType + "\U{1f}" + s.sourceId + "\U{1f}" + s.idType + "\U{1f}" + s.productId
  }

  function ProductKeys(rs: seq<Record>): (ks: seq<string>)
    ensures |ks| == |rs|
    ensures forall i :: 0 <= i < |ks| ==> ks[i] == ProductKey(rs[i].source)
  {
    seq(|rs|, i requires 0 <= i < |rs| => ProductKey(rs[i].source))
  }

  function Sources(rs: seq<Record>): (ss: seq<Source>)
    ensures |ss| == |rs|
    ensures forall i :: 0 <= i < |ss| ==> ss[i] == rs[i].source
  {
    seq(|rs|, i requires 0 <= i < |rs| => rs[i].source)
  }

  predicate Plainly(s: Source) {
    forall part, c :: part in [s.sourceType, s.sourceId, s.idType, s.productId] && c in part ==> c != '\U{1f}'
  }

  lemma SameWord(a: string, b: string, x: string, y: string)
    requires '\U{1f}' !in a && '\U{1f}' !in b && a + "\U{1f}" + x == b + "\U{1f}" + y
    ensures a == b && x == y
  {
    var s := a + "\U{1f}" + x;
    assert s[|a|] == '\U{1f}' && s[|b|] == '\U{1f}' && s == b + "\U{1f}" + y;
    assert |a| == |b|;
    assert a == s[..|a|] == b && x == s[|a| + 1..] == y;
  }

  /** The key tells products apart whose identities hold no separator. */
  lemma KeyDeterminesSource(s: Source, t: Source)
    requires Plainly(s) && Plainly(t)
    ensures ProductKey(s) == ProductKey(t) <==> s == t
  {
    if ProductKey(s) == ProductKey(t) {
      var sep := "\U{1f}";
      var s3, t3 := s.idType + sep + s.productId, t.idType + sep + t.productId;
      var s2, t2 := s.sourceId + sep + s3, t.sourceId + sep + t3;
      assert ProductKey(s) == s.sourceType + sep + s2 && ProductKey(t) == t.sourceType + sep + t2;
      NoSeparator(s);
      NoSeparator(t);
      SameWord(s.sourceType, t.sourceType, s2, t2);
      SameWord(s.sourceId, t.sourceId, s3, t3);
      SameWord(s.idType, t.idType, s.productId, t.productId);
    }
  }

  lemma NoSeparator(s: Source)
    requires Plainly(s)
    ensures '\U{1f}' !in s.sourceType && '\U{1f}' !in s.sourceId && '\U{1f}' !in s.idType
  {
    var parts := [s.sourceType, s.sourceId, s.idType, s.productId];
    assert parts[0] in parts && parts[1] in parts && parts[2] in parts;
  }

  // ----- Products -----

  /** What one import brings: a tenant, whether content was generated, and the ids that uuid4
      yields for the product keys. */
  datatype Batch = Batch(tenant: nat, generated: Option<map<string, Generated>>, ids: string -> Uuid)

  function Attributes(b: Batch, r: Record): map<string, string> {
    if b.generated.None? then r.attributes["next_actions" := MARKER] else r.attributes
  }

  function LinkOf(products: map<Identity, Product>, id: Identity): Option<Uuid> {
    if id in products then products[id].link else None
  }

  /** COALESCE(existing link, proposed link). */
  function NewLink(products: map<Identity, Product>, b: Batch, id: Identity): Option<Uuid> {
    if LinkOf(products, id).Some? then LinkOf(products, id)
    else if b.generated.Some? then Some(b.ids(ProductKey(id.source))) else None
  }

  /** The UNIQUE (tenant_id, content_item_id) constraint. */
  predicate LinkTaken(products: map<Identity, Product>, id: Identity, link: Option<Uuid>) {
    link.Some? && exists other :: other in products && other != id && other.tenant == id.tenant && products[other].link == link
  }

  /** INSERT ... ON CONFLICT DO UPDATE of one row; None if it violates a constraint. */
  function UpsertProduct(products: map<Identity, Product>, b: Batch, r: Record): Option<map<Identity, Product>> {
    var id := Identity(b.tenant, r.source);
    var link := NewLink(products, b, id);
    if LinkTaken(products, id, link) then None else
      Some(products[id := Product(link, r.domain, Attributes(b, r), r.details)])
  }

  function UpsertProducts(products: map<Identity, Product>, b: Batch, rs: seq<Record>): Option<map<Identity, Product>> {
    if rs == [] then Some(products) else
      match UpsertProducts(products, b, rs[..|rs| - 1])
      case None => None
      case Some(ps) => UpsertProduct(ps, b, rs[|rs| - 1])
  }

  /** Page by page; a page that names an identity twice raises. */
  function UpsertPages(products: map<Identity, Product>, b: Batch, rs: seq<Record>): Option<map<Identity, Product>>
    decreases |rs|
  {
    if rs == [] then Some(products) else
      var n := if |rs| <= PAGE_SIZE then |rs| else PAGE_SIZE;
      if !Distinct(Sources(rs[..n])) then None else
      match UpsertProducts(products, b, rs[..n])
      case None => None
      case Some(ps) => UpsertPages(ps, b, rs[n..])
  }

  lemma {:induction false} UpsertProductsAppend(products: map<Identity, Product>, b: Batch, x: seq<Record>, y: seq<Record>)
    ensures UpsertProducts(products, b, x + y) ==
      match UpsertProducts(products, b, x) { case None => None case Some(ps) => UpsertProducts(ps, b, y) }
    decreases |y|
  {
    if y == [] {
      assert x + y == x;
    } else {
      UpsertProductsAppend(products, b, x, y[..|y| - 1]);
      assert (x + y)[..|x + y| - 1] == x + y[..|y| - 1];
    }
  }

  lemma {:induction false} PagesAreUpserts(products: map<Identity, Product>, b: Batch, rs: seq<Record>)
    ensures UpsertPages(products, b, rs) ==
      if PagesDistinct(Sources(rs), PAGE_SIZE) then UpsertProducts(products, b, rs) else None
    decreases |rs|
  {
    if rs != [] {
      var n := if |rs| <= PAGE_SIZE then |rs| else PAGE_SIZE;
      assert Sources(rs)[..n] == Sources(rs[..n]) && Sources(rs)[n..] == Sources(rs[n..]);
      assert rs == rs[..n] + rs[n..];
      UpsertProductsAppend(products, b, rs[..n], rs[n..]);
      if UpsertProducts(products, b, rs[..n]).Some? {
        PagesAreUpserts(UpsertProducts(products, b, rs[..n]).value, b, rs[n..]);
      }
    }
  }

  // ----- Content and the transaction -----

  predicate Linked(products: map<Identity, Product>, b: Batch, rs: seq<Record>) {
    forall r :: r in rs ==> LinkOf(products, Identity(b.tenant, r.source)).Some?
  }

  function Links(products: map<Identity, Product>, b: Batch, rs: seq<Record>): (ls: seq<Uuid>)
    requires Linked(products, b, rs)
    ensures |ls| == |rs|
    ensures forall i :: 0 <= i < |ls| ==> Some(ls[i]) == LinkOf(products, Identity(b.tenant, rs[i].source))
  {
    seq(|rs|, i requires 0 <= i < |rs| => LinkOf(products, Identity(b.tenant, rs[i].source)).value)
  }

  predicate AllGenerated(b: Batch, rs: seq<Record>) {
    b.generated.Some? && forall r :: r in rs ==> ProductKey(r.source) in b.generated.value
  }

  function ContentOf(b: Batch, r: Record): Content
    requires AllGenerated(b, [r])
  {
    assert r in [r];
    var text := b.generated.value[ProductKey(r.source)];
    Content(b.tenant, r.domain, text.title, text.summary, r.details)
  }

  /** The content upserts, row by row. */
  function UpsertContents(contents: map<Uuid, Content>, products: map<Identity, Product>, b: Batch, rs: seq<Record>): map<Uuid, Content>
    requires Linked(products, b, rs) && AllGenerated(b, rs)
  {
    if rs == [] then contents else
      var r := rs[|rs| - 1];
      UpsertContents(contents, products, b, rs[..|rs| - 1])[LinkOf(products, Identity(b.tenant, r.source)).value := ContentOf(b, r)]
  }

  predicate GeneratedMatches(b: Batch, rs: seq<Record>) {
    b.generated.Some? ==> b.generated.value.Keys == Elements(ProductKeys(rs))
  }

  predicate DomainsActive(rs: seq<Record>, active: set<string>) {
    forall r :: r in rs ==> r.domain in active
  }

  /** The whole import into the tables; an error rolls the transaction back. */
  function Persist(db: Db, b: Batch, rs: seq<Record>, active: set<string>): Result<Db> {
    if !GeneratedMatches(b, rs) then Err("Generated content does not match the supplied product rows")
    else if !DomainsActive(rs, active) then Err("Inactive or unknown product domain(s)")
    else match UpsertPages(db.products, b, rs)
      case None => Err("constraint violation")
      case Some(ps) =>
        if rs == [] then Err("Product upsert did not return linked content IDs")
        else if b.generated.None? then Ok(db.(products := ps))
        else
          ImportedLinks(db.products, b, rs);
          KeysCoverRecords(b, rs);
          if !PagesDistinct(Links(ps, b, rs), PAGE_SIZE) then Err("constraint violation")
          else Ok(Db(ps, UpsertContents(db.contents, ps, b, rs)))
  }

  lemma KeysCoverRecords(b: Batch, rs: seq<Record>)
    requires b.generated.Some? && GeneratedMatches(b, rs)
    ensures AllGenerated(b, rs)
  {
  }

  // ----- What the product upserts leave -----

  predicate Names(b: Batch, rs: seq<Record>, id: Identity) {
    id.tenant == b.tenant && exists r :: r in rs && r.source == id.source
  }

  ghost predicate WrittenFrom(products: map<Identity, Product>, p: Product, b: Batch, rs: seq<Record>, id: Identity) {
    exists r :: r in rs && r.source == id.source && p == Product(NewLink(products, b, id), r.domain, Attributes(b, r), r.details)
  }

  /** Every named product has its old link or, if it had none, the proposed one; no other
      product changes. */
  ghost predicate Imported(products: map<Identity, Product>, ps: map<Identity, Product>, b: Batch, rs: seq<Record>) {
    && (forall id :: id in ps <==> id in products || Names(b, rs, id))
    && (forall id :: id in products && !Names(b, rs, id) ==> ps[id] == products[id])
    && (forall id :: id in ps && Names(b, rs, id) ==> WrittenFrom(products, ps[id], b, rs, id))
  }

  lemma {:induction false} ProductsImported(products: map<Identity, Product>, b: Batch, rs: seq<Record>)
    requires UpsertProducts(products, b, rs).Some?
    ensures Imported(products, UpsertProducts(products, b, rs).value, b, rs)
  {
    if rs != [] {
      var init, last := rs[..|rs| - 1], rs[|rs| - 1];
      ProductsImported(products, b, init);
      ImportedThen(products, UpsertProducts(products, b, init).value, b, init, last);
      assert init + [last] == rs;
    }
  }

  /** A named product's link is what it was going to be. */
  lemma LinkIsSettled(products: map<Identity, Product>, ps: map<Identity, Product>, b: Batch, rs: seq<Record>, id: Identity)
    requires Imported(products, ps, b, rs)
    ensures NewLink(ps, b, id) == NewLink(products, b, id)
  {
    hide ProductKey, Attributes;
    if id in ps && Names(b, rs, id) { assert WrittenFrom(products, ps[id], b, rs, id); }
  }

  lemma ImportedThen(products: map<Identity, Product>, ps: map<Identity, Product>, b: Batch, init: seq<Record>, last: Record)
    requires Imported(products, ps, b, init) && UpsertProduct(ps, b, last).Some?
    ensures Imported(products, UpsertProduct(ps, b, last).value, b, init + [last])
  {
    var rs, qs, mine := init + [last], UpsertProduct(ps, b, last).value, Identity(b.tenant, last.source);
    LinkIsSettled(products, ps, b, init, mine);
    assert last in rs && WrittenFrom(products, qs[mine], b, rs, mine);
    hide LinkTaken, Attributes, NewLink, WrittenFrom;
    assert forall r :: r in rs <==> r in init || r == last;
    assert forall id :: Names(b, rs, id) <==> Names(b, init, id) || id == mine;
    hide Names;
    forall id | id in qs && Names(b, rs, id) ensures WrittenFrom(products, qs[id], b, rs, id) {
      if id != mine { WrittenStays(products, ps[id], b, init, last, id); }
    }
  }

  lemma WrittenStays(products: map<Identity, Product>, p: Product, b: Batch, init: seq<Record>, last: Record, id: Identity)
    requires WrittenFrom(products, p, b, init, id)
    ensures WrittenFrom(products, p, b, init + [last], id)
  {
    hide NewLink, Attributes;
    var r :| r in init && r.source == id.source && p == Product(NewLink(products, b, id), r.domain, Attributes(b, r), r.details);
    assert r in init + [last];
  }

  lemma ImportedLinks(products: map<Identity, Product>, b: Batch, rs: seq<Record>)
    requires b.generated.Some? && UpsertPages(products, b, rs).Some?
    ensures Linked(UpsertPages(products, b, rs).value, b, rs)
  {
    PagesAreUpserts(products, b, rs);
    ProductsImported(products, b, rs);
    var ps := UpsertPages(products, b, rs).value;
    hide UpsertPages, UpsertProducts, ProductKey;
    forall r | r in rs ensures LinkOf(ps, Identity(b.tenant, r.source)).Some? {
      assert Names(b, rs, Identity(b.tenant, r.source));
    }
  }

  // ----- The invariant -----

  ghost predicate LinksUnique(products: map<Identity, Product>) {
    forall i, j :: i in products && j in products && i != j && products[i].link.Some? ==> products[i].link != products[j].link
  }

  ghost predicate ProductOk(db: Db, id: Identity)
    requires id in db.products
  {
    var p := db.products[id];
    match p.link
    case Some(c) => c in db.contents && db.contents[c].tenant == id.tenant
    case None => "next_actions" in p.attributes && p.attributes["next_actions"] == MARKER
  }

  ghost predicate Inv(db: Db) {
    LinksUnique(db.products) && forall id :: id in db.products ==> ProductOk(db, id)
  }

  /** uuid4 yields, for different product keys, different ids that nothing uses yet. */
  ghost predicate FreshIds(db: Db, b: Batch) {
    && (forall k, m :: b.ids(k) == b.ids(m) ==> k == m)
    && (forall k :: b.ids(k) !in db.contents)
    && (forall k, id :: id in db.products ==> db.products[id].link != Some(b.ids(k)))
  }

  ghost predicate UsesFresh(products: map<Identity, Product>, ps: map<Identity, Product>, b: Batch) {
    && (forall id :: id in ps && id.tenant != b.tenant ==> id in products && ps[id] == products[id])
    && (forall id :: id in ps && id.tenant == b.tenant ==>
          ps[id].link == LinkOf(products, id) || ps[id].link == Some(b.ids(ProductKey(id.source))))
  }

  lemma {:induction false} LinksStayUnique(db: Db, b: Batch, rs: seq<Record>)
    requires LinksUnique(db.products) && FreshIds(db, b) && UpsertProducts(db.products, b, rs).Some?
    ensures LinksUnique(UpsertProducts(db.products, b, rs).value)
  {
    if rs != [] {
      var init, last := rs[..|rs| - 1], rs[|rs| - 1];
      LinksStayUnique(db, b, init);
      ProductsImported(db.products, b, init);
      var ps, qs := UpsertProducts(db.products, b, init).value, UpsertProducts(db.products, b, rs).value;
      ImportUsesFresh(db.products, ps, b, init);
      OneMoreUnique(db, b, ps, last);
    }
  }

  lemma ImportUsesFresh(products: map<Identity, Product>, ps: map<Identity, Product>, b: Batch, rs: seq<Record>)
    requires Imported(products, ps, b, rs)
    ensures UsesFresh(products, ps, b)
  {
  }

  /** Within the tenant the constraint keeps links apart; across tenants the new id is fresh. */
  lemma OneMoreUnique(db: Db, b: Batch, ps: map<Identity, Product>, r: Record)
    requires LinksUnique(db.products) && FreshIds(db, b) && UsesFresh(db.products, ps, b) && LinksUnique(ps)
    requires UpsertProduct(ps, b, r).Some?
    ensures LinksUnique(UpsertProduct(ps, b, r).value)
  {
    hide ProductKey, Attributes;
    var id, qs := Identity(b.tenant, r.source), UpsertProduct(ps, b, r).value;
    var link := NewLink(ps, b, id);
    forall other | other in ps && other != id && link.Some? ensures ps[other].link != link {
      if other.tenant == b.tenant {
        assert !LinkTaken(ps, id, link);
      }
    }
  }

  lemma {:induction false} ContentsGrow(contents: map<Uuid, Content>, products: map<Identity, Product>, b: Batch, rs: seq<Record>)
    requires Linked(products, b, rs) && AllGenerated(b, rs)
    ensures var cs := UpsertContents(contents, products, b, rs);
      && (forall c :: c in cs <==> c in contents || c in Links(products, b, rs))
      && (forall c :: c in contents && c !in Links(products, b, rs) ==> cs[c] == contents[c])
      && (forall c :: c in Links(products, b, rs) ==> c in cs && cs[c].tenant == b.tenant)
  {
    if rs != [] {
      var init, last := rs[..|rs| - 1], rs[|rs| - 1];
      ContentsGrow(contents, products, b, init);
      assert Links(products, b, rs) == Links(products, b, init) + [LinkOf(products, Identity(b.tenant, last.source)).value];
    }
  }

  lemma NamedIsLinked(ps: map<Identity, Product>, b: Batch, rs: seq<Record>, id: Identity)
    requires Linked(ps, b, rs) && Names(b, rs, id)
    ensures LinkOf(ps, id).Some? && LinkOf(ps, id).value in Links(ps, b, rs)
  {
  }

  /** Without generated content: links are as they were and every named product is marked. */
  lemma DeferredProductOk(db: Db, ps: map<Identity, Product>, b: Batch, rs: seq<Record>, id: Identity)
    requires Inv(db) && b.generated.None? && Imported(db.products, ps, b, rs) && id in ps
    ensures ProductOk(db.(products := ps), id)
  {
    hide LinksUnique;
    if Names(b, rs, id) { assert WrittenFrom(db.products, ps[id], b, rs, id); }
    if id in db.products { assert ProductOk(db, id); }
  }

  /** With it: every named product is linked, to a row this import wrote. */
  lemma GeneratedProductOk(db: Db, ps: map<Identity, Product>, cs: map<Uuid, Content>, b: Batch, rs: seq<Record>, id: Identity)
    requires Inv(db) && b.generated.Some? && Imported(db.products, ps, b, rs) && id in ps && LinksUnique(ps) && Linked(ps, b, rs)
    requires forall c :: c in db.contents && c !in Links(ps, b, rs) ==> c in cs && cs[c] == db.contents[c]
    requires forall c :: c in Links(ps, b, rs) ==> c in cs && cs[c].tenant == b.tenant
    ensures ProductOk(Db(ps, cs), id)
  {
    if Names(b, rs, id) {
      NamedIsLinked(ps, b, rs, id);
    } else {
      assert ProductOk(db, id) && ps[id] == db.products[id];
      forall i | 0 <= i < |rs| ensures ps[id].link != Some(Links(ps, b, rs)[i]) {
        assert rs[i] in rs && Names(b, rs, Identity(b.tenant, rs[i].source));
      }
    }
  }

  /** An import keeps every linked id backed by a content row, every link unique and every
      unlinked product marked. */
  lemma PersistKeepsInv(db: Db, b: Batch, rs: seq<Record>, active: set<string>)
    requires Inv(db) && FreshIds(db, b) && Persist(db, b, rs, active).Ok?
    ensures Inv(Persist(db, b, rs, active).value)
  {
    PagesAreUpserts(db.products, b, rs);
    ProductsImported(db.products, b, rs);
    LinksStayUnique(db, b, rs);
    var ps := UpsertProducts(db.products, b, rs).value;
    if b.generated.Some? {
      ImportedLinks(db.products, b, rs);
      KeysCoverRecords(b, rs);
      ContentsGrow(db.contents, ps, b, rs);
      hide UpsertPages, UpsertProducts, LinksUnique, FreshIds, ProductOk, Imported, Linked;
      var cs := UpsertContents(db.contents, ps, b, rs);
      forall id | id in ps ensures ProductOk(Db(ps, cs), id) {
        GeneratedProductOk(db, ps, cs, b, rs, id);
      }
    } else {
      hide UpsertPages, UpsertProducts, LinksUnique, FreshIds, ProductOk, Imported;
      forall id | id in ps ensures ProductOk(db.(products := ps), id) {
        DeferredProductOk(db, ps, b, rs, id);
      }
    }
  }

  // ----- Any mix of imports -----

  datatype Import = Import(batch: Batch, records: seq<Record>, active: set<string>)

  /** One import against the tables; an error leaves them as they were. An import whose ids
      uuid4 could not have yielded is passed over. */
  ghost function After(db: Db, m: Import): Db {
    if !FreshIds(db, m.batch) then db else
      match Persist(db, m.batch, m.records, m.active)
      case Ok(next) => next
      case Err(_) => db
  }

  ghost function AfterAll(db: Db, ms: seq<Import>): Db
    decreases |ms|
  {
    if ms == [] then db else AfterAll(After(db, ms[0]), ms[1..])
  }

  /** No product is removed, and a link once set stays. */
  ghost predicate LinksKept(db: Db, after: Db) {
    forall id :: id in db.products ==>
      id in after.products && (db.products[id].link.Some? ==> after.products[id].link == db.products[id].link)
  }

  lemma ImportKeepsLinks(db: Db, m: Import)
    requires Inv(db)
    ensures Inv(After(db, m)) && LinksKept(db, After(db, m))
  {
    if FreshIds(db, m.batch) && Persist(db, m.batch, m.records, m.active).Ok? {
      PersistKeepsInv(db, m.batch, m.records, m.active);
      PagesAreUpserts(db.products, m.batch, m.records);
      ProductsImported(db.products, m.batch, m.records);
      var ps := UpsertProducts(db.products, m.batch, m.records).value;
      assert After(db, m).products == ps;
      hide Persist, UpsertPages, UpsertProducts, Inv, FreshIds, Attributes, ProductKey;
      forall id | id in db.products ensures db.products[id].link.Some? ==> ps[id].link == db.products[id].link {
        if Names(m.batch, m.records, id) { assert WrittenFrom(db.products, ps[id], m.batch, m.records, id); }
      }
    }
  }

  lemma {:induction false} ImportsKeepLinks(db: Db, ms: seq<Import>)
    requires Inv(db)
    ensures Inv(AfterAll(db, ms)) && LinksKept(db, AfterAll(db, ms))
    decreases |ms|
  {
    hide Inv, After;
    if ms != [] {
      ImportKeepsLinks(db, ms[0]);
      ImportsKeepLinks(After(db, ms[0]), ms[1..]);
    }
  }

  /** From empty tables, over any imports with and without generated content: no two products
      share a link, every link has a content row of the same tenant, every product without one
      carries the marker, and what more imports do changes no link. */
  lemma LinksAreStable(ms: seq<Import>, more: seq<Import>)
    ensures var db := AfterAll(EMPTY, ms);
      && (forall i, j :: i in db.products && j in db.products && i != j && db.products[i].link.Some? ==>
            db.products[i].link != db.products[j].link)
      && (forall i :: i in db.products && db.products[i].link.Some? ==>
            db.products[i].link.value in db.contents && db.contents[db.products[i].link.value].tenant == i.tenant)
      && (forall i :: i in db.products && db.products[i].link.None? ==>
            "next_actions" in db.products[i].attributes && db.products[i].attributes["next_actions"] == MARKER)
      && LinksKept(db, AfterAll(db, more))
  {
    assert Inv(EMPTY);
    ImportsKeepLinks(EMPTY, ms);
    var db := AfterAll(EMPTY, ms);
    ImportsKeepLinks(db, more);
    forall i | i in db.products ensures ProductOk(db, i) {
    }
  }

  // ----- Exactly when an import succeeds -----

  /** Two new products whose different identities join to the same product key would get the
      same content id. */
  predicate Collide(products: map<Identity, Product>, b: Batch, x: Record, y: Record) {
    && x.source != y.source && ProductKey(x.source) == ProductKey(y.source)
    && LinkOf(products, Identity(b.tenant, x.source)).None? && LinkOf(products, Identity(b.tenant, y.source)).None?
  }

  predicate NoCollision(products: map<Identity, Product>, b: Batch, rs: seq<Record>) {
    b.generated.Some? ==> forall x, y :: x in rs && y in rs ==> !Collide(products, b, x, y)
  }

  lemma {:induction false} UpsertsSucceed(db: Db, b: Batch, rs: seq<Record>)
    requires LinksUnique(db.products) && FreshIds(db, b) && NoCollision(db.products, b, rs)
    ensures UpsertProducts(db.products, b, rs).Some?
  {
    if rs != [] {
      var init, last := rs[..|rs| - 1], rs[|rs| - 1];
      assert forall r :: r in init ==> r in rs;
      UpsertsSucceed(db, b, init);
      ProductsImported(db.products, b, init);
      var ps, id := UpsertProducts(db.products, b, init).value, Identity(b.tenant, last.source);
      ImportUsesFresh(db.products, ps, b, init);
      var link := NewLink(ps, b, id);
      hide ProductKey, Attributes, UpsertProducts;
      if id in ps && Names(b, init, id) { assert WrittenFrom(db.products, ps[id], b, init, id); }
      assert link == NewLink(db.products, b, id);
      forall other | other in ps && other != id && other.tenant == id.tenant && link.Some? ensures ps[other].link != link {
        assert last in rs;
        OtherLinkDiffers(db, ps, b, rs, init, last, other);
      }
    }
  }

  lemma OtherLinkDiffers(db: Db, ps: map<Identity, Product>, b: Batch, rs: seq<Record>, init: seq<Record>, last: Record, other: Identity)
    requires LinksUnique(db.products) && FreshIds(db, b) && NoCollision(db.products, b, rs)
    requires Imported(db.products, ps, b, init) && UsesFresh(db.products, ps, b)
    requires last in rs && forall r :: r in init ==> r in rs
    requires other in ps && other.tenant == b.tenant && other.source != last.source
    requires NewLink(db.products, b, Identity(b.tenant, last.source)).Some?
    ensures ps[other].link != NewLink(db.products, b, Identity(b.tenant, last.source))
  {
    hide ProductKey, Attributes;
    var id := Identity(b.tenant, last.source);
    if Names(b, init, other) {
      assert WrittenFrom(db.products, ps[other], b, init, other);
      var r :| r in init && r.source == other.source;
      assert !Collide(db.products, b, last, r);
    }
  }

  /** Different identities have different links, so the content statements repeat no id. */
  lemma {:induction false} LinkPagesDistinct(ps: map<Identity, Product>, b: Batch, rs: seq<Record>)
    requires LinksUnique(ps) && Linked(ps, b, rs) && PagesDistinct(Sources(rs), PAGE_SIZE)
    ensures PagesDistinct(Links(ps, b, rs), PAGE_SIZE)
    decreases |rs|
  {
    if rs != [] {
      var n := if |rs| <= PAGE_SIZE then |rs| else PAGE_SIZE;
      var ls, ss := Links(ps, b, rs), Sources(rs);
      assert Sources(rs)[n..] == Sources(rs[n..]) && Linked(ps, b, rs[n..]) && Links(ps, b, rs[n..]) == ls[n..];
      LinkPagesDistinct(ps, b, rs[n..]);
      forall i, j | 0 <= i < j < n ensures ls[..n][i] != ls[..n][j] {
        assert ss[..n][i] != ss[..n][j];
        assert LinkOf(ps, Identity(b.tenant, rs[i].source)) != LinkOf(ps, Identity(b.tenant, rs[j].source));
      }
    }
  }

  lemma CollisionFails(db: Db, b: Batch, rs: seq<Record>)
    requires LinksUnique(db.products) && FreshIds(db, b) && UpsertProducts(db.products, b, rs).Some?
    ensures NoCollision(db.products, b, rs)
  {
    ProductsImported(db.products, b, rs);
    LinksStayUnique(db, b, rs);
    var ps := UpsertProducts(db.products, b, rs).value;
    hide ProductKey, Attributes, UpsertProducts;
    forall x, y | b.generated.Some? && x in rs && y in rs ensures !Collide(db.products, b, x, y) {
      var i, j := Identity(b.tenant, x.source), Identity(b.tenant, y.source);
      assert Names(b, rs, i) && Names(b, rs, j);
      assert WrittenFrom(db.products, ps[i], b, rs, i) && WrittenFrom(db.products, ps[j], b, rs, j);
    }
  }

  /** An import is persisted exactly when it has rows, its generated content is for just those,
      their domains are active, no page repeats an identity, and no two new products collide. */
  lemma PersistSucceedsExactly(db: Db, b: Batch, rs: seq<Record>, active: set<string>)
    requires Inv(db) && FreshIds(db, b)
    ensures Persist(db, b, rs, active).Ok? <==>
      && rs != [] && GeneratedMatches(b, rs) && DomainsActive(rs, active)
      && PagesDistinct(Sources(rs), PAGE_SIZE) && NoCollision(db.products, b, rs)
  {
    PagesAreUpserts(db.products, b, rs);
    if UpsertProducts(db.products, b, rs).Some? { CollisionFails(db, b, rs); }
    if NoCollision(db.products, b, rs) {
      UpsertsSucceed(db, b, rs);
      LinksStayUnique(db, b, rs);
      if b.generated.Some? && PagesDistinct(Sources(rs), PAGE_SIZE) {
        ImportedLinks(db.products, b, rs);
        LinkPagesDistinct(UpsertProducts(db.products, b, rs).value, b, rs);
      }
    }
    hide UpsertPages, UpsertProducts, PagesDistinct, LinksUnique, FreshIds, GeneratedMatches, DomainsActive, NoCollision;
  }

  /** A staged file with distinct product keys has distinct identities and no collision. */
  lemma StagedFilesNeverCollide(db: Db, b: Batch, rs: seq<Record>)
    requires Distinct(ProductKeys(rs))
    ensures Distinct(Sources(rs)) && PagesDistinct(Sources(rs), PAGE_SIZE) && NoCollision(db.products, b, rs)
  {
    var ks, ss := ProductKeys(rs), Sources(rs);
    hide ProductKey;
    forall i, j | 0 <= i < j < |ss| ensures ss[i] != ss[j] {
      assert ks[i] != ks[j];
    }
    DistinctHasDistinctPages(ss, PAGE_SIZE);
    forall x, y | x in rs && y in rs ensures !Collide(db.products, b, x, y) {
      var i, j :| 0 <= i < |rs| && rs[i] == x && 0 <= j < |rs| && rs[j] == y;
      assert i < j ==> ks[i] != ks[j];
      assert j < i ==> ks[j] != ks[i];
    }
  }

  /** Each product's content row then has the text generated for its own key. */
  lemma {:induction false} ContentIsTheRecords(contents: map<Uuid, Content>, ps: map<Identity, Product>, b: Batch, rs: seq<Record>)
    requires LinksUnique(ps) && Linked(ps, b, rs) && AllGenerated(b, rs) && Distinct(Sources(rs))
    ensures forall i :: 0 <= i < |rs| ==> Links(ps, b, rs)[i] in UpsertContents(contents, ps, b, rs)
    ensures forall i :: 0 <= i < |rs| ==> UpsertContents(contents, ps, b, rs)[Links(ps, b, rs)[i]] == ContentOf(b, rs[i])
  {
    if rs != [] {
      var n := |rs| - 1;
      var init, last := rs[..n], rs[n];
      assert Sources(rs)[..n] == Sources(init);
      ContentIsTheRecords(contents, ps, b, init);
      hide ContentOf;
      assert Links(ps, b, rs)[..n] == Links(ps, b, init);
      forall i | 0 <= i < n ensures Links(ps, b, rs)[i] != Links(ps, b, rs)[n] {
        assert Sources(rs)[i] != Sources(rs)[n];
        assert LinkOf(ps, Identity(b.tenant, rs[i].source)) != LinkOf(ps, Identity(b.tenant, last.source));
      }
      forall i | 0 <= i < |rs|
        ensures Links(ps, b, rs)[i] in UpsertContents(contents, ps, b, rs)
          && UpsertContents(contents, ps, b, rs)[Links(ps, b, rs)[i]] == ContentOf(b, rs[i]) {
        if i < n { assert Links(ps, b, rs)[i] == Links(ps, b, init)[i]; }
      }
    }
  }

  predicate HasContent(db: Db, id: Identity, c: Content) {
    LinkOf(db.products, id).Some? && LinkOf(db.products, id).value in db.contents && db.contents[LinkOf(db.products, id).value] == c
  }

  /** The product of this record: its old link or else, with content, the id its key was given; the
      record's columns and attributes, and without content the marker. */
  ghost predicate IsProduct(products: map<Identity, Product>, p: Product, b: Batch, r: Record) {
    var id := Identity(b.tenant, r.source);
    && p.link == (if id in products && products[id].link.Some? then products[id].link
                  else if b.generated.Some? then Some(b.ids(ProductKey(r.source))) else None)
    && p.attributes == (if b.generated.None? then r.attributes["next_actions" := "generate_content_item"] else r.attributes)
    && p.domain == r.domain && p.details == r.details
  }

  lemma RecordIsImported(db: Db, b: Batch, rs: seq<Record>, active: set<string>, r: Record)
    requires Inv(db) && FreshIds(db, b) && Distinct(ProductKeys(rs)) && r in rs && Persist(db, b, rs, active).Ok?
    ensures var after, id := Persist(db, b, rs, active).value, Identity(b.tenant, r.source);
      && id in after.products && after.products[id] == Product(NewLink(db.products, b, id), r.domain, Attributes(b, r), r.details)
      && (b.generated.None? ==> after.contents == db.contents)
      && (b.generated.Some? ==> AllGenerated(b, [r]) && HasContent(after, id, ContentOf(b, r)))
  {
    var id := Identity(b.tenant, r.source);
    StagedFilesNeverCollide(db, b, rs);
    PagesAreUpserts(db.products, b, rs);
    ProductsImported(db.products, b, rs);
    LinksStayUnique(db, b, rs);
    var ps := UpsertProducts(db.products, b, rs).value;
    var i :| 0 <= i < |rs| && rs[i] == r;
    if b.generated.Some? {
      ImportedLinks(db.products, b, rs);
      KeysCoverRecords(b, rs);
      ContentIsTheRecords(db.contents, ps, b, rs);
    }
    hide UpsertPages, UpsertProducts, PagesDistinct, LinksUnique, FreshIds, GeneratedMatches, DomainsActive, NoCollision, ProductKey;
    assert Names(b, rs, id);
    assert WrittenFrom(db.products, ps[id], b, rs, id);
    OnlyRecord(rs, r);
  }

  ghost predicate OthersStay(products: map<Identity, Product>, ps: map<Identity, Product>, b: Batch, rs: seq<Record>) {
    forall other :: other in products && !Names(b, rs, other) ==> other in ps && ps[other] == products[other]
  }

  lemma OthersAreNotImported(db: Db, b: Batch, rs: seq<Record>, active: set<string>)
    requires Persist(db, b, rs, active).Ok?
    ensures var after := Persist(db, b, rs, active).value;
      OthersStay(db.products, after.products, b, rs)
  {
    PagesAreUpserts(db.products, b, rs);
    ProductsImported(db.products, b, rs);
    hide UpsertPages, UpsertProducts, UpsertContents, PagesDistinct, WrittenFrom;
  }

  /** The content made for this record: its own text and its columns. */
  ghost predicate IsContent(c: Content, b: Batch, r: Record) {
    && b.generated.Some? && ProductKey(r.source) in b.generated.value
    && c == Content(b.tenant, r.domain, b.generated.value[ProductKey(r.source)].title,
                    b.generated.value[ProductKey(r.source)].summary, r.details)
  }

  /** After a staged file is imported with content, each of its products is linked to a row that
      has its own text and keeps its own attributes; without content, each is marked, also one
      that was linked before. No other product changes. */
  lemma ImportedAsGenerated(db: Db, b: Batch, rs: seq<Record>, active: set<string>, r: Record)
    requires Inv(db) && FreshIds(db, b) && Distinct(ProductKeys(rs)) && r in rs && Persist(db, b, rs, active).Ok?
    ensures var after, id := Persist(db, b, rs, active).value, Identity(b.tenant, r.source);
      && id in after.products && IsProduct(db.products, after.products[id], b, r)
      && (b.generated.None? ==> after.contents == db.contents)
      && (b.generated.Some? ==>
            && after.products[id].link.Some? && after.products[id].link.value in after.contents
            && IsContent(after.contents[after.products[id].link.value], b, r))
      && OthersStay(db.products, after.products, b, rs)
  {
    RecordIsImported(db, b, rs, active, r);
    OthersAreNotImported(db, b, rs, active);
    hide Persist, Inv, FreshIds, Names, ProductKey;
  }

  lemma OnlyRecord(rs: seq<Record>, r: Record)
    requires Distinct(Sources(rs)) && r in rs
    ensures forall x :: x in rs && x.source == r.source ==> x == r
  {
  }

  // ----- The marker -----

  /** The record whose columns a product named by these records ends with. */
  function LastRecord(rs: seq<Record>, source: Source): (r: Record)
    requires exists x :: x in rs && x.source == source
    ensures r in rs && r.source == source
  {
    var last := rs[|rs| - 1];
    if last.source == source then last else
      assert forall x :: x in rs ==> x in rs[..|rs| - 1] || x == last;
      LastRecord(rs[..|rs| - 1], source)
  }

  lemma LinkStaysOpen(products: map<Identity, Product>, b: Batch, rs: seq<Record>, id: Identity)
    ensures UpsertProducts(products, b, rs).Some? && id.tenant == b.tenant ==>
      NewLink(UpsertProducts(products, b, rs).value, b, id) == NewLink(products, b, id)
  {
    hide ProductKey, UpsertProducts;
    if UpsertProducts(products, b, rs).Some? {
      ProductsImported(products, b, rs);
      LinkIsSettled(products, UpsertProducts(products, b, rs).value, b, rs, id);
    }
  }

  lemma {:induction false} LastRecordWins(products: map<Identity, Product>, b: Batch, rs: seq<Record>, id: Identity)
    requires UpsertProducts(products, b, rs).Some? && Names(b, rs, id)
    ensures var ps, r := UpsertProducts(products, b, rs).value, LastRecord(rs, id.source);
      id in ps && ps[id].attributes == Attributes(b, r) && IsProduct(products, ps[id], b, r)
  {
    var init, last := rs[..|rs| - 1], rs[|rs| - 1];
    LinkStaysOpen(products, b, init, id);
    hide ProductKey;
    if last.source != id.source {
      assert forall x :: x in rs ==> x in init || x == last;
      assert Names(b, init, id);
      LastRecordWins(products, b, init, id);
    }
  }

  predicate CarriesMarker(p: Product) {
    "next_actions" in p.attributes && p.attributes["next_actions"] == MARKER
  }

  /** The import succeeds on these tables and has a record of this product. */
  ghost predicate Writes(db: Db, m: Import, id: Identity) {
    FreshIds(db, m.batch) && Persist(db, m.batch, m.records, m.active).Ok? && Names(m.batch, m.records, id)
  }

  lemma {:induction false} AfterAllThen(db: Db, ms: seq<Import>, m: Import)
    ensures AfterAll(db, ms + [m]) == After(AfterAll(db, ms), m)
    decreases |ms|
  {
    hide After;
    if ms == [] {
      assert AfterAll(db, [m]) == AfterAll(After(db, m), []);
    } else {
      assert (ms + [m])[1..] == ms[1..] + [m];
      AfterAllThen(After(db, ms[0]), ms[1..], m);
    }
  }

  /** The last import that wrote a product, if any did. */
  ghost function LastWriter(db: Db, ms: seq<Import>, id: Identity): Option<Import> {
    if ms == [] then None else
      var init, m := ms[..|ms| - 1], ms[|ms| - 1];
      if Writes(AfterAll(db, init), m, id) then Some(m) else LastWriter(db, init, id)
  }

  /** Whether a product is marked after this import: content was deferred, or its record brought
      the marker itself. */
  predicate Marks(m: Import, id: Identity)
    requires Names(m.batch, m.records, id)
  {
    var r := LastRecord(m.records, id.source);
    m.batch.generated.None? || ("next_actions" in r.attributes && r.attributes["next_actions"] == MARKER)
  }

  lemma ImportMarks(db: Db, m: Import, id: Identity)
    ensures id in After(db, m).products ==> id in db.products || Writes(db, m, id)
    ensures Writes(db, m, id) ==> id in After(db, m).products && (CarriesMarker(After(db, m).products[id]) <==> Marks(m, id))
    ensures !Writes(db, m, id) && id in db.products ==> id in After(db, m).products && After(db, m).products[id] == db.products[id]
  {
    if FreshIds(db, m.batch) && Persist(db, m.batch, m.records, m.active).Ok? {
      PagesAreUpserts(db.products, m.batch, m.records);
      ProductsImported(db.products, m.batch, m.records);
      if Names(m.batch, m.records, id) { LastRecordWins(db.products, m.batch, m.records, id); }
      hide UpsertPages, UpsertProducts, FreshIds, NewLink;
    }
  }

  /** Over any imports from empty tables a product, linked or not, carries the marker exactly
      when the last import that wrote it had no content or its own record brought the marker. */
  lemma {:induction false} MarkedExactly(ms: seq<Import>, id: Identity)
    ensures id in AfterAll(EMPTY, ms).products <==> LastWriter(EMPTY, ms, id).Some?
    ensures id in AfterAll(EMPTY, ms).products ==> var m := LastWriter(EMPTY, ms, id).value;
      Names(m.batch, m.records, id) && (CarriesMarker(AfterAll(EMPTY, ms).products[id]) <==> Marks(m, id))
  {
    if ms != [] {
      var init, m := ms[..|ms| - 1], ms[|ms| - 1];
      MarkedExactly(init, id);
      AfterAllThen(EMPTY, init, m);
      assert init + [m] == ms;
      ImportMarks(AfterAll(EMPTY, init), m, id);
      hide After, Marks, CarriesMarker;
    }
  }

  /** Distinct numbers for distinct texts. */
  function Encode(s: string): nat {
    if s == "" then 0 else 1 + s[0] as nat + 0x11_0001 * Encode(s[1..])
  }

  lemma {:induction false} EncodeIsInjective(s: string, t: string)
    requires Encode(s) == Encode(t)
    ensures s == t
  {
    if s != "" && t != "" {
      assert Encode(s[1..]) == Encode(t[1..]) && s[0] == t[0];
      EncodeIsInjective(s[1..], t[1..]);
      assert s == [s[0]] + s[1..] && t == [t[0]] + t[1..];
    }
  }

  lemma OneRecordPersists(db: Db, b: Batch, r: Record, active: set<string>)
    requires Inv(db) && FreshIds(db, b) && r.domain in active
    requires b.generated.Some? ==> b.generated.value.Keys == {ProductKey(r.source)}
    ensures Persist(db, b, [r], active).Ok? && Names(b, [r], Identity(b.tenant, r.source))
  {
    assert [r][0] == r;
    assert Distinct(ProductKeys([r])) && Elements(ProductKeys([r])) == {ProductKey(r.source)} by {
      assert ProductKeys([r])[0] in ProductKeys([r]);
    }
    StagedFilesNeverCollide(db, b, [r]);
    PersistSucceedsExactly(db, b, [r], active);
  }

  lemma FirstImport(b: Batch, r: Record, active: set<string>)
    requires FreshIds(EMPTY, b) && b.generated.Some? && Persist(EMPTY, b, [r], active).Ok?
    ensures var db, only := After(EMPTY, Import(b, [r], active)), b.ids(ProductKey(r.source));
      && (forall c :: c in db.contents ==> c == only)
      && (forall i :: i in db.products ==> i == Identity(b.tenant, r.source) && db.products[i].link == Some(only))
      && Identity(b.tenant, r.source) in db.products
  {
    var ps, id := UpsertProducts(map[], b, [r]).value, Identity(b.tenant, r.source);
    PagesAreUpserts(map[], b, [r]);
    ProductsImported(map[], b, [r]);
    ImportedLinks(map[], b, [r]);
    KeysCoverRecords(b, [r]);
    ContentsGrow(map[], ps, b, [r]);
    assert [r][0] == r && Names(b, [r], id);
    hide UpsertPages, UpsertProducts, UpsertContents, ProductKey, Attributes;
    assert WrittenFrom(map[], ps[id], b, [r], id);
    assert Links(ps, b, [r]) == [b.ids(ProductKey(r.source))];
    forall i | i in ps ensures i == id {
      assert Names(b, [r], i);
    }
  }

  function Plain(source: Source): Record {
    Record(source, "retail", map[], 0)
  }

  function WithContent(source: Source): Import {
    Import(Batch(0, Some(map[ProductKey(source) := Generated("title", "summary")]), s => 2 * Encode(s)), [Plain(source)], {"retail"})
  }

  function Deferred(source: Source): Import {
    Import(Batch(0, None, s => 2 * Encode(s) + 1), [Plain(source)], {"retail"})
  }

  lemma FirstLinks(source: Source)
    ensures var db := After(EMPTY, WithContent(source));
      && Inv(db) && FreshIds(db, Deferred(source).batch)
      && Identity(0, source) in db.products && db.products[Identity(0, source)].link.Some?
  {
    var m := WithContent(source);
    forall s, t: string | Encode(s) == Encode(t) ensures s == t {
      EncodeIsInjective(s, t);
    }
    hide Encode, ProductKey;
    assert FreshIds(EMPTY, m.batch) && Inv(EMPTY);
    OneRecordPersists(EMPTY, m.batch, Plain(source), m.active);
    hide Persist, Inv;
    ImportKeepsLinks(EMPTY, m);
    FirstImport(m.batch, Plain(source), m.active);
    hide After;
    var db := After(EMPTY, m);
    assert FreshIds(db, Deferred(source).batch);
  }

  lemma SecondMarks(db: Db, source: Source)
    requires Inv(db) && FreshIds(db, Deferred(source).batch)
    requires Identity(0, source) in db.products && db.products[Identity(0, source)].link.Some?
    ensures var after, id := After(db, Deferred(source)), Identity(0, source);
      id in after.products && after.products[id].link.Some? && CarriesMarker(after.products[id])
  {
    var m := Deferred(source);
    OneRecordPersists(db, m.batch, Plain(source), m.active);
    hide Persist, Inv, FreshIds, ProductKey, Encode;
    ImportKeepsLinks(db, m);
    ImportMarks(db, m, Identity(0, source));
    hide After;
  }

  /** A product imported with content and then without is linked and marked. */
  lemma LinkedCanBeMarked(source: Source)
    ensures exists ms :: var db := AfterAll(EMPTY, ms);
      Identity(0, source) in db.products && db.products[Identity(0, source)].link.Some? && CarriesMarker(db.products[Identity(0, source)])
  {
    hide After, Inv, FreshIds, CarriesMarker, WithContent, Deferred;
    var m1, m2 := WithContent(source), Deferred(source);
    FirstLinks(source);
    SecondMarks(After(EMPTY, m1), source);
    AfterAllThen(EMPTY, [], m1);
    AfterAllThen(EMPTY, [m1], m2);
    assert [] + [m1] == [m1] && AfterAll(EMPTY, []) == EMPTY;
    assert AfterAll(EMPTY, [m1] + [m2]) == After(After(EMPTY, m1), m2);
  }

  // ----- Generation -----

  type Generator = seq<Record> -> Option<map<string, Generated>>

  /** Batches in order; a batch whose keys are not exactly those asked for raises. */
  function GenerateAll(gen: Generator, rs: seq<Record>): Result<map<string, Generated>>
    decreases |rs|
  {
    if rs == [] then Ok(map[]) else
      var n := if |rs| <= LLM_BATCH_SIZE then |rs| else LLM_BATCH_SIZE;
      match gen(rs[..n])
      case None => Err("Product content generation failed")
      case Some(m) =>
        if m.Keys != Elements(ProductKeys(rs[..n])) then Err("Product content generator must return one result per input product")
        else Extend(m, GenerateAll(gen, rs[n..]))
  }

  function Extend(m: map<string, Generated>, r: Result<map<string, Generated>>): Result<map<string, Generated>> {
    if r.Ok? then Ok(m + r.value) else r
  }

  lemma ExtendTwice(a: map<string, Generated>, b: map<string, Generated>, r: Result<map<string, Generated>>)
    ensures Extend(a, Extend(b, r)) == Extend(a + b, r)
  {
    if r.Ok? { assert a + (b + r.value) == a + b + r.value; }
  }

  /** What is generated is for exactly the records, so persisting never refuses it. */
  lemma {:induction false} GeneratedForAll(gen: Generator, rs: seq<Record>)
    requires GenerateAll(gen, rs).Ok?
    ensures GenerateAll(gen, rs).value.Keys == Elements(ProductKeys(rs))
    decreases |rs|
  {
    if rs != [] {
      var n := if |rs| <= LLM_BATCH_SIZE then |rs| else LLM_BATCH_SIZE;
      GeneratedForAll(gen, rs[n..]);
      assert ProductKeys(rs) == ProductKeys(rs[..n]) + ProductKeys(rs[n..]);
    }
  }

  /** The k-th batch that is asked for, of twenty records but for the last. */
  function BatchAt(rs: seq<Record>, k: nat): seq<Record>
    requires 20 * k <= |rs|
  {
    if 20 * k + 20 <= |rs| then rs[20 * k..20 * k + 20] else rs[20 * k..]
  }

  ghost predicate Answered(gen: Generator, batch: seq<Record>) {
    gen(batch).Some? && gen(batch).value.Keys == Elements(ProductKeys(batch))
  }

  lemma NextBatch(rs: seq<Record>, k: nat)
    requires 20 * k + 20 <= |rs|
    ensures BatchAt(rs, k + 1) == BatchAt(rs[20..], k)
  {
  }

  /** Generation succeeds exactly if every batch is answered for just its own keys. */
  lemma {:induction false} GenerationSucceedsExactly(gen: Generator, rs: seq<Record>)
    ensures GenerateAll(gen, rs).Ok? <==> forall k :: 0 <= 20 * k < |rs| ==> Answered(gen, BatchAt(rs, k))
    decreases |rs|
  {
    if rs != [] {
      var n := if |rs| <= LLM_BATCH_SIZE then |rs| else LLM_BATCH_SIZE;
      assert BatchAt(rs, 0) == rs[..n];
      assert GenerateAll(gen, rs).Ok? <==> Answered(gen, rs[..n]) && GenerateAll(gen, rs[n..]).Ok?;
      GenerationSucceedsExactly(gen, rs[n..]);
      hide GenerateAll, Answered;
      if |rs| > 20 {
        forall k: nat | 20 * k < |rs[n..]| ensures BatchAt(rs, k + 1) == BatchAt(rs[n..], k) {
          if 20 * k + 20 <= |rs| { NextBatch(rs, k); }
        }
        forall k: nat | 20 * k < |rs| ensures k == 0 || BatchAt(rs, k) == BatchAt(rs[n..], k - 1) {
          if k > 0 { NextBatch(rs, k - 1); }
        }
      }
    }
  }

  /** This key has the text that the answer to this batch gave it. */
  ghost predicate HasText(gen: Generator, rs: seq<Record>, batch: seq<Record>, key: string) {
    && GenerateAll(gen, rs).Ok? && key in GenerateAll(gen, rs).value && gen(batch).Some? && key in gen(batch).value
    && GenerateAll(gen, rs).value[key] == gen(batch).value[key]
  }

  lemma BatchOf(rs: seq<Record>, i: nat)
    requires i < |rs|
    ensures i < 20 ==> BatchAt(rs, i / 20) == if |rs| <= 20 then rs else rs[..20]
    ensures i >= 20 ==> BatchAt(rs, i / 20) == BatchAt(rs[20..], (i - 20) / 20)
  {
    if i >= 20 {
      assert i / 20 == (i - 20) / 20 + 1;
      NextBatch(rs, (i - 20) / 20);
    }
  }

  /** And then each record's text is the one its batch was answered with. */
  lemma {:induction false} TextsAreTheAnswers(gen: Generator, rs: seq<Record>, i: nat)
    requires GenerateAll(gen, rs).Ok? && Distinct(ProductKeys(rs)) && i < |rs|
    ensures HasText(gen, rs, BatchAt(rs, i / 20), ProductKey(rs[i].source))
    decreases |rs|
  {
    var ks, key := ProductKeys(rs), ProductKey(rs[i].source);
    BatchOf(rs, i);
    OneBatchMore(gen, rs);
    if i < 20 {
      FirstTexts(gen, rs, i);
    } else {
      var rest := rs[20..];
      KeysSplit(rs, 20);
      assert rest[i - 20] == rs[i];
      DistinctRest(ks, 20);
      hide GenerateAll, BatchAt, ProductKeys, Distinct;
      TextsAreTheAnswers(gen, rest, i - 20);
    }
  }

  lemma FirstTexts(gen: Generator, rs: seq<Record>, i: nat)
    requires GenerateAll(gen, rs).Ok? && Distinct(ProductKeys(rs)) && i < |rs| && i < 20
    ensures HasText(gen, rs, if |rs| <= 20 then rs else rs[..20], ProductKey(rs[i].source))
  {
    var n := if |rs| <= 20 then |rs| else 20;
    var ks, batch, rest := ProductKeys(rs), rs[..n], rs[n..];
    KeysSplit(rs, n);
    OneBatchMore(gen, rs);
    GeneratedForAll(gen, rest);
    assert batch == if |rs| <= 20 then rs else rs[..20];
    hide GenerateAll, ProductKeys, Distinct;
    InTheFirst(gen(batch).value, GenerateAll(gen, rest).value, ks, n, i);
  }

  lemma KeysSplit(rs: seq<Record>, n: nat)
    requires n <= |rs|
    ensures ProductKeys(rs[..n]) == ProductKeys(rs)[..n] && ProductKeys(rs[n..]) == ProductKeys(rs)[n..]
  {
    hide ProductKey;
  }

  lemma InTheFirst(m: map<string, Generated>, rest: map<string, Generated>, ks: seq<string>, n: nat, i: nat)
    requires i < n <= |ks| && Distinct(ks) && m.Keys == Elements(ks[..n]) && rest.Keys == Elements(ks[n..])
    ensures ks[i] in m && (m + rest)[ks[i]] == m[ks[i]]
  {
    assert ks[..n][i] == ks[i];
    assert ks[i] !in ks[n..];
  }

  lemma OneBatchMore(gen: Generator, rs: seq<Record>)
    requires GenerateAll(gen, rs).Ok? && rs != []
    ensures var n := if |rs| <= LLM_BATCH_SIZE then |rs| else LLM_BATCH_SIZE;
      && Answered(gen, rs[..n]) && GenerateAll(gen, rs[n..]).Ok?
      && GenerateAll(gen, rs).value == gen(rs[..n]).value + GenerateAll(gen, rs[n..]).value
  {
  }

  lemma DistinctRest(ks: seq<string>, n: nat)
    requires Distinct(ks) && n <= |ks|
    ensures Distinct(ks[n..])
  {
  }

  // ----- The code -----

  class ProductCatalog {
    var db: Db

    constructor ()
      ensures db == EMPTY && Inv(db)
    {
      db := EMPTY;
      new;
      assert Inv(EMPTY);
    }

    method GenerateContentForRecords(gen: Generator, rs: seq<Record>) returns (r: Result<map<string, Generated>>)
      ensures r == GenerateAll(gen, rs)
    {
      hide Elements, ProductKeys;
      var generated: map<string, Generated> := map[];
      var rest := rs;
      assert GenerateAll(gen, rs) == Extend(map[], GenerateAll(gen, rs)) by { NothingExtends(GenerateAll(gen, rs)); }
      while rest != []
        invariant GenerateAll(gen, rs) == Extend(generated, GenerateAll(gen, rest))
        decreases |rest|
      {
        var n := if |rest| <= LLM_BATCH_SIZE then |rest| else LLM_BATCH_SIZE;
        var results := gen(rest[..n]);
        if results.None? { return Err("Product content generation failed"); }
        if results.value.Keys != Elements(ProductKeys(rest[..n])) {
          return Err("Product content generator must return one result per input product");
        }
        ExtendTwice(generated, results.value, GenerateAll(gen, rest[n..]));
        generated := generated + results.value;
        rest := rest[n..];
      }
      assert rest == [] && generated + map[] == generated;
      return Ok(generated);
    }

    /** The pages of the product upsert, in place; a page that fails raises. */
    method UpsertProductPages(b: Batch, rs: seq<Record>) returns (raised: bool)
      modifies this`db
      ensures raised <==> UpsertPages(old(db).products, b, rs).None?
      ensures !raised ==> db == old(db).(products := UpsertPages(old(db).products, b, rs).value)
    {
      var rest := rs;
      while rest != []
        invariant db == old(db).(products := db.products)
        invariant UpsertPages(db.products, b, rest) == UpsertPages(old(db).products, b, rs)
        decreases |rest|
      {
        var n := if |rest| <= PAGE_SIZE then |rest| else PAGE_SIZE;
        var page := rest[..n];
        if !Distinct(Sources(page)) { return true; }
        var next := UpsertProducts(db.products, b, page);
        if next.None? { return true; }
        db := db.(products := next.value);
        rest := rest[n..];
      }
      return false;
    }

    /** The transaction: it returns how many rows were persisted, or leaves the tables alone. */
    method PersistProductRecords(b: Batch, rs: seq<Record>, active: set<string>) returns (r: Result<nat>)
      requires Inv(db) && FreshIds(db, b)
      modifies this`db
      ensures Inv(db)
      ensures r.Ok? <==> Persist(old(db), b, rs, active).Ok?
      ensures r.Ok? ==> db == Persist(old(db), b, rs, active).value && r.value == |rs|
      ensures r.Err? ==> db == old(db) && r.error == Persist(old(db), b, rs, active).error
    {
      hide Inv, FreshIds, UpsertPages, PagesDistinct;
      if !GeneratedMatches(b, rs) { return Err("Generated content does not match the supplied product rows"); }
      if !DomainsActive(rs, active) { return Err("Inactive or unknown product domain(s)"); }
      var rollback := db;
      if Persist(db, b, rs, active).Ok? { PersistKeepsInv(db, b, rs, active); }
      var raised := UpsertProductPages(b, rs);
      if raised {
        db := rollback;
        return Err("constraint violation");
      }
      if rs == [] {
        db := rollback;
        return Err("Product upsert did not return linked content IDs");
      }
      if b.generated.None? { return Ok(|rs|); }
      ImportedLinks(rollback.products, b, rs);
      KeysCoverRecords(b, rs);
      if !PagesDistinct(Links(db.products, b, rs), PAGE_SIZE) {
        db := rollback;
        return Err("constraint violation");
      }
      var i := 0;
      while i < |rs|
        invariant 0 <= i <= |rs| && Linked(db.products, b, rs[..i]) && AllGenerated(b, rs[..i])
        invariant db == Db(UpsertPages(rollback.products, b, rs).value, UpsertContents(rollback.contents, db.products, b, rs[..i]))
      {
        assert rs[..i + 1][..i] == rs[..i] && rs[..i + 1][i] == rs[i] && rs[i] in rs;
        var link := LinkOf(db.products, Identity(b.tenant, rs[i].source)).value;
        db := db.(contents := db.contents[link := ContentOf(b, rs[i])]);
        i := i + 1;
      }
      assert rs[..i] == rs;
      return Ok(|rs|);
    }

    /** The import of a staged file whose records were loaded; content is deferred when the agent
        has no model. A failed generation happens before any write. */
    method ImportProductFile(tenant: nat, rs: seq<Record>, configured: bool, gen: Generator, ids: string -> Uuid, active: set<string>)
      returns (r: Result<nat>)
      requires Inv(db) && FreshIds(db, Batch(tenant, None, ids)) && Distinct(ProductKeys(rs))
      modifies this`db
      ensures Inv(db) && LinksKept(old(db), db)
      ensures r.Err? ==> db == old(db)
      ensures r.Ok? <==> rs != [] && DomainsActive(rs, active) && (configured ==> GenerateAll(gen, rs).Ok?)
      ensures r.Ok? ==> r.value == |rs| && Persist(old(db),
        Batch(tenant, if configured then Some(GenerateAll(gen, rs).value) else None, ids), rs, active) == Ok(db)
    {
      hide Inv, Persist;
      var generated: Option<map<string, Generated>> := None;
      LinksKeptSame(db);
      if configured {
        var g := GenerateContentForRecords(gen, rs);
        if g.Err? { return Err(g.error); }
        GeneratedForAll(gen, rs);
        generated := Some(g.value);
      }
      var b := Batch(tenant, generated, ids);
      assert FreshIds(db, b);
      PersistSucceedsExactly(db, b, rs, active);
      StagedFilesNeverCollide(db, b, rs);
      hide NoCollision, PagesDistinct, DomainsActive, ProductKeys, Distinct;
      ImportKeepsLinks(db, Import(b, rs, active));
      r := PersistProductRecords(b, rs, active);
    }
  }

  lemma NothingExtends(r: Result<map<string, Generated>>)
    ensures Extend(map[], r) == r
  {
    if r.Ok? { assert map[] + r.value == r.value; }
  }

  lemma LinksKeptSame(db: Db)
    ensures LinksKept(db, db)
  {
  }
}
