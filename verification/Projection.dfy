/** What one file contributes to the tables, and what a batch of files does to them. */
module Projection {
  import opened Model
  import opened OwnedRows
  import opened IndexPages

  /** A file that was read and parsed. */
  datatype Parsed = Parsed(path: string, bytes: Bytes, page: Page)

  const EMBED_BODY_CHAR_BUDGET := 2000

  function Truncated(body: string): string
  {
    if |body| <= EMBED_BODY_CHAR_BUDGET then body else body[..EMBED_BODY_CHAR_BUDGET]
  }

  function Vector(page: Page, cfg: Config): Embedding
  {
    Embedding(Truncated(page.body), cfg.model)
  }

  function CreatedAt(pages: map<string, PageRow>, id: string): Option<int>
  {
    if id in pages then pages[id].createdAt else None
  }

  function PageRowOf(p: Parsed, created: Option<int>, now: int): PageRow
  {
    PageRow(p.path, p.page.kind, p.page.title, p.page.body, p.page, p.bytes,
            Some(if created.Some? then created.value else now), now, p.page.aliases)
  }

  // ---- projecting a batch ----

  function UpsertPages(pages: map<string, PageRow>, items: seq<Parsed>, before: map<string, PageRow>, now: int)
    : map<string, PageRow>
  {
    if items == [] then pages
    else
      var last := items[|items| - 1];
      UpsertPages(pages, items[..|items| - 1], before, now)
      [last.page.id := PageRowOf(last, CreatedAt(before, last.page.id), now)]
  }

  function UpsertEmbeddings(embeddings: map<string, Embedding>, items: seq<Parsed>, cfg: Config)
    : map<string, Embedding>
  {
    if items == [] then embeddings
    else
      var last := items[|items| - 1];
      UpsertEmbeddings(embeddings, items[..|items| - 1], cfg)[last.page.id := Vector(last.page, cfg)]
  }

  function ReplaceLinks(links: seq<Row<Link>>, items: seq<Parsed>): seq<Row<Link>>
  {
    if items == [] then links
    else
      var page := items[|items| - 1].page;
      Without(ReplaceLinks(links, items[..|items| - 1]), {page.id}) + Rows(page.id, page.linksOut)
  }

  function ReplaceClaims(claims: seq<Row<Claim>>, items: seq<Parsed>): seq<Row<Claim>>
  {
    if items == [] then claims
    else
      var page := items[|items| - 1].page;
      Without(ReplaceClaims(claims, items[..|items| - 1]), {page.id}) + Rows(page.id, page.claims)
  }

  function Project(t: Tables, items: seq<Parsed>, now: int, cfg: Config): Tables
  {
    Tables(UpsertPages(t.pages, items, t.pages, now), UpsertEmbeddings(t.embeddings, items, cfg),
           ReplaceLinks(t.links, items), ReplaceClaims(t.claims, items))
  }

  // ---- reading the tables at one id ----

  ghost predicate AgreeAt(s: Tables, t: Tables, id: string)
  {
    && (id in s.pages <==> id in t.pages) && (id in s.pages ==> s.pages[id] == t.pages[id])
    && (id in s.embeddings <==> id in t.embeddings)
    && (id in s.embeddings ==> s.embeddings[id] == t.embeddings[id])
    && OwnedBy(s.links, id) == OwnedBy(t.links, id)
    && OwnedBy(s.claims, id) == OwnedBy(t.claims, id)
  }

  ghost predicate EmptyAt(t: Tables, id: string)
  {
    id !in t.pages && id !in t.embeddings && OwnedBy(t.links, id) == [] && OwnedBy(t.claims, id) == []
  }

  /** A page row says what the file says, timestamps aside. */
  predicate RowMatches(row: PageRow, p: Parsed)
  {
    row.path == p.path && row.kind == p.page.kind && row.title == p.page.title && row.body == p.page.body &&
    row.frontmatter == p.page && row.contentHash == p.bytes && row.aliases == p.page.aliases
  }

  /** Everything the tables hold under the page's id is what the file says. */
  ghost predicate Faithful(t: Tables, p: Parsed, cfg: Config)
  {
    var id := p.page.id;
    && id in t.pages && RowMatches(t.pages[id], p)
    && id in t.embeddings && t.embeddings[id] == Vector(p.page, cfg)
    && OwnedBy(t.links, id) == p.page.linksOut
    && OwnedBy(t.claims, id) == p.page.claims
  }

  // ---- what projecting a batch does at one id ----

  predicate DistinctIds(items: seq<Parsed>)
  {
    forall i, j | 0 <= i < j < |items| :: items[i].page.id != items[j].page.id
  }

  lemma {:induction false} ProjectMiss(t: Tables, items: seq<Parsed>, now: int, cfg: Config, id: string)
    requires forall p | p in items :: p.page.id != id
    ensures AgreeAt(t, Project(t, items, now, cfg), id)
    decreases |items|
  {
    if items != [] {
      var init, last := items[..|items| - 1], items[|items| - 1];
      assert last in items;
      ProjectMiss(t, init, now, cfg, id);
      OwnedByReplace(ReplaceLinks(t.links, init), last.page.id, last.page.linksOut, id);
      OwnedByReplace(ReplaceClaims(t.claims, init), last.page.id, last.page.claims, id);
    }
  }

  /** The row a batch leaves for one of its pages: each column from the file, the time of creation from the row there
      was before, or now if it had none, and the time of update now. */
  lemma {:induction false} UpsertedRow(
    pages: map<string, PageRow>, items: seq<Parsed>, before: map<string, PageRow>, now: int, p: Parsed)
    requires DistinctIds(items) && p in items
    ensures var id, rows := p.page.id, UpsertPages(pages, items, before, now);
            var created := if id in before && before[id].createdAt.Some? then before[id].createdAt.value else now;
            && id in rows
            && rows[id] == PageRow(p.path, p.page.kind, p.page.title, p.page.body, p.page, p.bytes,
                                   Some(created), now, p.page.aliases)
    decreases |items|
  {
    var init, last := items[..|items| - 1], items[|items| - 1];
    if p != last {
      assert p in init;
      UpsertedRow(pages, init, before, now, p);
    }
  }

  /** And the vector: that of the page's body up to 2000 characters, under the configured model. */
  lemma {:induction false} UpsertedVector(
    embeddings: map<string, Embedding>, items: seq<Parsed>, cfg: Config, p: Parsed)
    requires DistinctIds(items) && p in items
    ensures var id, vectors := p.page.id, UpsertEmbeddings(embeddings, items, cfg);
            && id in vectors && vectors[id].modelVersion == cfg.model && vectors[id].text <= p.page.body
            && |vectors[id].text| == if |p.page.body| < 2000 then |p.page.body| else 2000
    decreases |items|
  {
    var init, last := items[..|items| - 1], items[|items| - 1];
    if p != last {
      assert p in init;
      UpsertedVector(embeddings, init, cfg, p);
    }
  }

  /** The row and the vector of a page, column by column. */
  predicate Built(p: Parsed, row: PageRow, vector: Embedding, before: map<string, PageRow>, now: int, cfg: Config)
  {
    && row.path == p.path && row.kind == p.page.kind && row.title == p.page.title && row.body == p.page.body
    && row.frontmatter == p.page && row.contentHash == p.bytes && row.aliases == p.page.aliases
    && row.updatedAt == now
    && row.createdAt == (if p.page.id in before && before[p.page.id].createdAt.Some? then before[p.page.id].createdAt
                         else Some(now))
    && vector.modelVersion == cfg.model && vector.text <= p.page.body
    && |vector.text| == if |p.page.body| < 2000 then |p.page.body| else 2000
  }

  /** The rows and vectors of a batch, before they are merged into the tables. */
  lemma BatchIsBuilt(items: seq<Parsed>, before: map<string, PageRow>, now: int, cfg: Config, p: Parsed)
    requires DistinctIds(items) && p in items
    ensures var rows, vectors := UpsertPages(map[], items, before, now), UpsertEmbeddings(map[], items, cfg);
            && p.page.id in rows && p.page.id in vectors
            && Built(p, rows[p.page.id], vectors[p.page.id], before, now, cfg)
  {
    UpsertedRow(map[], items, before, now, p);
    UpsertedVector(map[], items, cfg, p);
  }

  lemma {:induction false} ProjectHit(t: Tables, items: seq<Parsed>, now: int, cfg: Config, p: Parsed)
    requires DistinctIds(items) && p in items
    ensures Faithful(Project(t, items, now, cfg), p, cfg)
    ensures var row := Project(t, items, now, cfg).pages[p.page.id];
            && row.createdAt == Some(match CreatedAt(t.pages, p.page.id) case Some(at) => at case None => now)
            && row.updatedAt == now
    ensures var vector := Project(t, items, now, cfg).embeddings[p.page.id];
            && vector.modelVersion == cfg.model && vector.text <= p.page.body
            && |vector.text| == if |p.page.body| < 2000 then |p.page.body| else 2000
    decreases |items|
  {
    var init, last := items[..|items| - 1], items[|items| - 1];
    OwnedByReplace(ReplaceLinks(t.links, init), last.page.id, last.page.linksOut, p.page.id);
    OwnedByReplace(ReplaceClaims(t.claims, init), last.page.id, last.page.claims, p.page.id);
    UpsertedRow(t.pages, items, t.pages, now, p);
    UpsertedVector(t.embeddings, items, cfg, p);
    if p != last {
      assert p in init;
      ProjectHit(t, init, now, cfg, p);
    }
  }
}
