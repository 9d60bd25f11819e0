/** The disk and the tables as mutable state, changed one atomic write at a time. */
module Stores {
  import opened Model
  import opened OwnedRows

  /** Both stores at one moment, and so also what a crash at that moment leaves. */
  datatype State = State(files: Files, tables: Tables)

  datatype TableName = PagesTable | EmbeddingsTable | LinksTable | ClaimsTable

  /** The stores and the tables that do not exist: a rebuild cancelled after its drops leaves some missing. */
  datatype Site = Site(state: State, missing: set<TableName>)

  const ALL_TABLES := {PagesTable, EmbeddingsTable, LinksTable, ClaimsTable}

  function Wipe(t: Tables, dropped: set<TableName>): Tables
  {
    Tables(if PagesTable in dropped then map[] else t.pages,
           if EmbeddingsTable in dropped then map[] else t.embeddings,
           if LinksTable in dropped then [] else t.links,
           if ClaimsTable in dropped then [] else t.claims)
  }

  function LinksNotTo(links: seq<Row<Link>>, id: string): seq<Row<Link>>
  {
    if links == [] then []
    else
      var last := links[|links| - 1];
      LinksNotTo(links[..|links| - 1], id) + if last.value.target == id then [] else [last]
  }

  /** Every page row points at a file that exists. */
  ghost predicate NoPhantom(s: State)
  {
    forall id | id in s.tables.pages :: s.tables.pages[id].path in s.files
  }

  /** `after` continues `before` through states without phantom rows only. */
  ghost predicate SafeSince(before: seq<State>, after: seq<State>)
  {
    before <= after && forall k | |before| <= k < |after| :: NoPhantom(after[k])
  }

  /** Writing a file makes no row a phantom. */
  lemma WriteIsSafe(s: State, path: string, bytes: Bytes, trail: seq<State>)
    requires NoPhantom(s)
    ensures var after := State(s.files[path := bytes], s.tables);
            NoPhantom(after) && SafeSince(trail, trail + [after])
  {}

  lemma SafeChain(a: seq<State>, b: seq<State>, c: seq<State>)
    requires SafeSince(a, b) && SafeSince(b, c)
    ensures SafeSince(a, c)
  {
    forall k | |a| <= k < |c| ensures NoPhantom(c[k]) {
      if k < |b| { assert c[k] == b[k]; }
    }
  }

  /** The tables after the first `n` of the four deletions that drop a page: its page row first, its claims last. */
  function Dropped(t: Tables, id: string, n: nat): Tables
  {
    Tables(if n < 1 then t.pages else t.pages - {id},
           if n < 2 then t.embeddings else t.embeddings - {id},
           if n < 3 then t.links else Without(t.links, {id}),
           if n < 4 then t.claims else Without(t.claims, {id}))
  }

  /** The stores after each of them. */
  function Deletions(s: State, id: string): seq<State>
  {
    seq(4, i requires 0 <= i < 4 => State(s.files, Dropped(s.tables, id, i + 1)))
  }

  lemma DeletionsAreSafe(s: State, id: string, trail: seq<State>)
    requires NoPhantom(s)
    ensures SafeSince(trail, trail + Deletions(s, id))
  {
    forall i | 0 <= i < 4 ensures NoPhantom(Deletions(s, id)[i]) {
      assert Deletions(s, id)[i] == State(s.files, Dropped(s.tables, id, i + 1));
    }
  }

  /** One more of the expected states, and the trail one state longer. */
  lemma TrailGrows(expected: seq<State>, n: nat, now: State, before: seq<State>, trail: seq<State>)
    requires n < |expected| && now == expected[n] && trail == before + expected[..n] + [now]
    ensures trail == before + expected[..n + 1]
    ensures n + 1 == |expected| ==> trail == before + expected
  {
    assert expected[..n + 1] == expected[..n] + [expected[n]];
    assert n + 1 == |expected| ==> expected[..n + 1] == expected;
  }

  lemma NextDeletion(s: State, id: string, n: nat, now: State, before: seq<State>, trail: seq<State>)
    requires n < 4 && now == State(s.files, Dropped(s.tables, id, n + 1))
    requires trail == before + Deletions(s, id)[..n] + [now]
    ensures trail == before + Deletions(s, id)[..n + 1]
    ensures n == 3 ==> trail == before + Deletions(s, id)
  {
    TrailGrows(Deletions(s, id), n, now, before, trail);
  }

  /** The page directory and the LanceDB tables. Each method is one write the process can crash after;
      `trail` records every state the two stores have been in. */
  class Store {
    var files: Files
    var pages: map<string, PageRow>
    var embeddings: map<string, Embedding>
    var links: seq<Row<Link>>
    var claims: seq<Row<Claim>>
    var missing: set<TableName>
    ghost var trail: seq<State>

    function AllTables(): Tables
      reads this
    {
      Tables(pages, embeddings, links, claims)
    }

    ghost function Now(): State
      reads this
    {
      State(files, AllTables())
    }

    /** With the tables that do not exist. A missing table reads as empty here, and is empty when next created. */
    ghost function Whole(): Site
      reads this
    {
      Site(Now(), missing)
    }

    constructor (s: State)
      ensures Now() == s && trail == [s] && missing == {}
    {
      files := s.files;
      pages, embeddings, links, claims := s.tables.pages, s.tables.embeddings, s.tables.links, s.tables.claims;
      missing, trail := {}, [s];
    }

    ghost method Record()
      modifies this`trail
      ensures trail == old(trail) + [Now()]
    {
      trail := trail + [Now()];
    }

    /** Write to a sibling and rename over the target. */
    method WriteFile(path: string, bytes: Bytes)
      modifies this`files, this`trail
      ensures files == old(files)[path := bytes] && trail == old(trail) + [Now()]
    {
      files := files[path := bytes];
      Record();
    }

    method Unlink(path: string)
      modifies this`files, this`trail
      ensures files == old(files) - {path} && trail == old(trail) + [Now()]
    {
      files := files - {path};
      Record();
    }

    /** `merge_insert` by id: matched rows are replaced, the others added. */
    method MergePages(rows: map<string, PageRow>)
      modifies this`pages, this`trail
      ensures pages == old(pages) + rows && trail == old(trail) + [Now()]
    {
      pages := pages + rows;
      Record();
    }

    method MergeEmbeddings(rows: map<string, Embedding>)
      modifies this`embeddings, this`trail
      ensures embeddings == old(embeddings) + rows && trail == old(trail) + [Now()]
    {
      embeddings := embeddings + rows;
      Record();
    }

    method DeletePageRow(id: string)
      modifies this`pages, this`trail
      ensures pages == old(pages) - {id} && trail == old(trail) + [Now()]
    {
      pages := pages - {id};
      Record();
    }

    method DeleteEmbedding(id: string)
      modifies this`embeddings, this`trail
      ensures embeddings == old(embeddings) - {id} && trail == old(trail) + [Now()]
    {
      embeddings := embeddings - {id};
      Record();
    }

    method DeleteLinksFrom(id: string)
      modifies this`links, this`trail
      ensures links == Without(old(links), {id}) && trail == old(trail) + [Now()]
    {
      links := Without(links, {id});
      Record();
    }

    method DeleteClaims(id: string)
      modifies this`claims, this`trail
      ensures claims == Without(old(claims), {id}) && trail == old(trail) + [Now()]
    {
      claims := Without(claims, {id});
      Record();
    }

    method AddLinks(rows: seq<Row<Link>>)
      modifies this`links, this`trail
      ensures links == old(links) + rows && trail == old(trail) + [Now()]
    {
      links := links + rows;
      Record();
    }

    method AddClaims(rows: seq<Row<Claim>>)
      modifies this`claims, this`trail
      ensures claims == old(claims) + rows && trail == old(trail) + [Now()]
    {
      claims := claims + rows;
      Record();
    }

    method DeleteLinksTo(id: string)
      modifies this`links, this`trail
      ensures links == LinksNotTo(old(links), id) && trail == old(trail) + [Now()]
    {
      links := LinksNotTo(links, id);
      Record();
    }

    /** Drop a table; it is missing until it is created again. */
    method Drop(table: TableName)
      modifies this`pages, this`embeddings, this`links, this`claims, this`missing, this`trail
      ensures AllTables() == Wipe(old(AllTables()), {table}) && trail == old(trail) + [Now()]
      ensures missing == old(missing) + {table}
    {
      match table {
        case PagesTable => pages := map[];
        case EmbeddingsTable => embeddings := map[];
        case LinksTable => links := [];
        case ClaimsTable => claims := [];
      }
      missing := missing + {table};
      Record();
    }

    /** Create the tables that do not exist. */
    method EnsureTables()
      modifies this`missing
      ensures missing == {}
    {
      missing := {};
    }

    /** Drop a page's rows from all four tables, its page row first. */
    method DeletePage(id: string)
      modifies this`pages, this`embeddings, this`links, this`claims, this`trail
      ensures pages == old(pages) - {id} && embeddings == old(embeddings) - {id}
      ensures links == Without(old(links), {id}) && claims == Without(old(claims), {id})
      ensures trail == old(trail) + Deletions(old(Now()), id)
      ensures NoPhantom(old(Now())) ==> SafeSince(old(trail), trail)
    {
      ghost var s, before := Now(), trail;
      DeletePageRow(id);
      NextDeletion(s, id, 0, Now(), before, trail);
      DeleteEmbedding(id);
      NextDeletion(s, id, 1, Now(), before, trail);
      DeleteLinksFrom(id);
      NextDeletion(s, id, 2, Now(), before, trail);
      DeleteClaims(id);
      NextDeletion(s, id, 3, Now(), before, trail);
      if NoPhantom(s) { DeletionsAreSafe(s, id, before); }
    }

    /** Replace a page's outgoing links: one delete, then one add if there is anything to add. */
    method ReplaceLinksForPage(id: string, rows: seq<Row<Link>>)
      modifies this`links, this`trail
      ensures links == Without(old(links), {id}) + rows
      ensures trail == old(trail) + [State(files, AllTables().(links := Without(old(links), {id})))]
                       + if rows == [] then [] else [Now()]
    {
      DeleteLinksFrom(id);
      if rows != [] { AddLinks(rows); } else { assert links + rows == links; }
    }

    method ReplaceClaimsForPage(id: string, rows: seq<Row<Claim>>)
      modifies this`claims, this`trail
      ensures claims == Without(old(claims), {id}) + rows
      ensures trail == old(trail) + [State(files, AllTables().(claims := Without(old(claims), {id})))]
                       + if rows == [] then [] else [Now()]
    {
      DeleteClaims(id);
      if rows != [] { AddClaims(rows); } else { assert claims + rows == claims; }
    }
  }
}
