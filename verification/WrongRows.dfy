/** Rows that carry a file's hash and not its contents: where they come from, and that no pass repairs them. */
module WrongRows {
  import opened Model
  import opened OwnedRows
  import opened TextOrder
  import opened IndexPages
  import opened Projection
  import opened Indexing
  import opened RunLemmas
  import opened Refinement
  import opened Runs
  import opened Stores
  import opened Keeping
  import opened Honesty

  // ---- rows that are skipped ----

  lemma SkippedIsNotQueued(files: Files, t: Tables, path: string, p: string)
    requires UniqueIds(files) && Parses(files, path) && Unchanged(Hashes(t, false), PageAt(files, path), files[path])
    requires Queued(files, Sorted(files.Keys), t, false, p)
    ensures PageAt(files, p).id != PageAt(files, path).id
  {}

  /** A row that already carries the file's hash is not touched by a pass, nor is anything else under its id. */
  lemma SkippedRowStays(files: Files, t: Tables, now: int, cfg: Config, path: string)
    requires UniqueIds(files) && Parses(files, path) && !IsSlotId(PageAt(files, path).id)
    requires Unchanged(Hashes(t, false), PageAt(files, path), files[path])
    ensures AgreeAt(t, Pass(files, t, now, cfg).tables, PageAt(files, path).id)
  {
    var paths, id := Sorted(files.Keys), PageAt(files, path).id;
    SortedIsReachable(files);
    forall p | Queued(files, paths, t, false, p) ensures PageAt(files, p).id != id {
      SkippedIsNotQueued(files, t, path, p);
    }
    IndexedMiss(files, paths, t, false, now, cfg, id);
    assert path in paths && !Swept(files, paths, t, false, id);
    var mid := Indexed(files, paths, t, false, now, cfg);
    RegenerateRenders(files, mid, now, cfg);
    assert AgreeAt(mid, Project(mid, Regenerate(files, mid.pages, cfg).1, now, cfg), id);
  }

  /** Passes over whatever the disk has become each time. */
  function Passes(t: Tables, disks: seq<(Files, int)>, cfg: Config): Tables
  {
    if disks == [] then t
    else
      var last := disks[|disks| - 1];
      Pass(last.0, Passes(t, disks[..|disks| - 1], cfg), last.1, cfg).tables
  }

  /** The file is there with the same bytes each time, and no other file takes its id. */
  ghost predicate Untouched(disks: seq<(Files, int)>, p: Parsed)
  {
    forall d | d in disks :: UniqueIds(d.0) && Parses(d.0, p.path) && ParsedAt(d.0, p.path) == p
  }

  lemma AgreeFurther(a: Tables, b: Tables, c: Tables, id: string)
    requires AgreeAt(a, b, id) && AgreeAt(b, c, id)
    ensures AgreeAt(a, c, id)
  {}

  lemma {:induction false} SkippedRowsSurvive(t: Tables, disks: seq<(Files, int)>, cfg: Config, p: Parsed)
    requires Untouched(disks, p) && !IsSlotId(p.page.id) && Unchanged(Hashes(t, false), p.page, p.bytes)
    ensures AgreeAt(t, Passes(t, disks, cfg), p.page.id)
    decreases |disks|
  {
    if disks != [] {
      var init, last := disks[..|disks| - 1], disks[|disks| - 1];
      assert last in disks && forall d | d in init :: d in disks;
      SkippedRowsSurvive(t, init, cfg, p);
      var before := Passes(t, init, cfg);
      assert Unchanged(Hashes(before, false), p.page, p.bytes);
      assert PageAt(last.0, p.path) == p.page && last.0[p.path] == p.bytes;
      SkippedRowStays(last.0, before, last.1, cfg, p.path);
      AgreeFurther(t, before, Passes(t, disks, cfg), p.page.id);
    }
  }

  /** So if it says anything the file does not (another path, another model's vector, the links of a torn
      projection), every incremental pass leaves it wrong until the file itself is changed. */
  lemma SkippedRowsAreNotRepaired(t: Tables, disks: seq<(Files, int)>, cfg: Config, p: Parsed)
    requires Untouched(disks, p) && !IsSlotId(p.page.id) && Unchanged(Hashes(t, false), p.page, p.bytes)
    requires !Faithful(t, p, cfg)
    ensures AgreeAt(t, Passes(t, disks, cfg), p.page.id) && !Faithful(Passes(t, disks, cfg), p, cfg)
  {
    SkippedRowsSurvive(t, disks, cfg, p);
  }

  // ---- a projection cut short ----

  /** Where the projection of a batch stopped, once its page rows were merged: before the vectors, or at page `done`
      with none of its four writes made, its links deleted, its links added, or its claims deleted as well. */
  datatype Point = BeforeVectors | Within(done: nat, writes: nat)

  predicate AtPoint(items: seq<Parsed>, at: Point)
  {
    at.Within? ==> at.writes < 4 && (at.done < |items| || (at.done == |items| && at.writes == 0))
  }

  function LinksThere(links: seq<Row<Link>>, items: seq<Parsed>, at: Point): seq<Row<Link>>
    requires AtPoint(items, at)
  {
    if at.BeforeVectors? then links
    else if at.writes == 0 then ReplaceLinks(links, items[..at.done])
    else if at.writes == 1 then Without(ReplaceLinks(links, items[..at.done]), {items[at.done].page.id})
    else ReplaceLinks(links, items[..at.done + 1])
  }

  function ClaimsThere(claims: seq<Row<Claim>>, items: seq<Parsed>, at: Point): seq<Row<Claim>>
    requires AtPoint(items, at)
  {
    if at.BeforeVectors? then claims
    else if at.writes < 3 then ReplaceClaims(claims, items[..at.done])
    else Without(ReplaceClaims(claims, items[..at.done]), {items[at.done].page.id})
  }

  /** The tables as a crash at this point leaves them. */
  function Torn(t: Tables, items: seq<Parsed>, at: Point, now: int, cfg: Config): Tables
    requires AtPoint(items, at)
  {
    Tables(UpsertPages(t.pages, items, t.pages, now),
           if at.BeforeVectors? then t.embeddings else UpsertEmbeddings(t.embeddings, items, cfg),
           LinksThere(t.links, items, at), ClaimsThere(t.claims, items, at))
  }

  // ---- what is left under each id ----

  lemma ReplaceLinksNext(links: seq<Row<Link>>, items: seq<Parsed>, n: nat)
    requires n < |items|
    ensures var page := items[n].page;
            ReplaceLinks(links, items[..n + 1])
            == Without(ReplaceLinks(links, items[..n]), {page.id}) + Rows(page.id, page.linksOut)
  {
    assert items[..n + 1][..n] == items[..n];
  }

  lemma ReplacedLinksNext(links: seq<Row<Link>>, items: seq<Parsed>, n: nat, k: nat)
    requires DistinctIds(items) && n < |items| && k < |items|
    ensures OwnedBy(ReplaceLinks(links, items[..n + 1]), items[k].page.id)
         == if n == k then items[k].page.linksOut else OwnedBy(ReplaceLinks(links, items[..n]), items[k].page.id)
  {
    ReplaceLinksNext(links, items, n);
    OwnedByReplace(ReplaceLinks(links, items[..n]), items[n].page.id, items[n].page.linksOut, items[k].page.id);
  }

  lemma {:induction false} ReplacedLinksAt(links: seq<Row<Link>>, items: seq<Parsed>, n: nat, k: nat)
    requires DistinctIds(items) && n <= |items| && k < |items|
    ensures OwnedBy(ReplaceLinks(links, items[..n]), items[k].page.id)
         == if k < n then items[k].page.linksOut else OwnedBy(links, items[k].page.id)
    decreases n
  {
    if n == 0 {
      assert items[..0] == [];
    } else {
      ReplacedLinksAt(links, items, n - 1, k);
      ReplacedLinksNext(links, items, n - 1, k);
    }
  }

  lemma ReplaceClaimsNext(claims: seq<Row<Claim>>, items: seq<Parsed>, n: nat)
    requires n < |items|
    ensures var page := items[n].page;
            ReplaceClaims(claims, items[..n + 1])
            == Without(ReplaceClaims(claims, items[..n]), {page.id}) + Rows(page.id, page.claims)
  {
    assert items[..n + 1][..n] == items[..n];
  }

  lemma ReplacedClaimsNext(claims: seq<Row<Claim>>, items: seq<Parsed>, n: nat, k: nat)
    requires DistinctIds(items) && n < |items| && k < |items|
    ensures OwnedBy(ReplaceClaims(claims, items[..n + 1]), items[k].page.id)
         == if n == k then items[k].page.claims else OwnedBy(ReplaceClaims(claims, items[..n]), items[k].page.id)
  {
    ReplaceClaimsNext(claims, items, n);
    OwnedByReplace(ReplaceClaims(claims, items[..n]), items[n].page.id, items[n].page.claims, items[k].page.id);
  }

  lemma {:induction false} ReplacedClaimsAt(claims: seq<Row<Claim>>, items: seq<Parsed>, n: nat, k: nat)
    requires DistinctIds(items) && n <= |items| && k < |items|
    ensures OwnedBy(ReplaceClaims(claims, items[..n]), items[k].page.id)
         == if k < n then items[k].page.claims else OwnedBy(claims, items[k].page.id)
    decreases n
  {
    if n == 0 {
      assert items[..0] == [];
    } else {
      ReplacedClaimsAt(claims, items, n - 1, k);
      ReplacedClaimsNext(claims, items, n - 1, k);
    }
  }

  /** The links page `k` of the batch has at the crash: its new ones if they were written, none between
      the delete and the add, its old ones before. */
  function LinksLeft(t: Tables, items: seq<Parsed>, at: Point, k: nat): seq<Link>
    requires k < |items|
  {
    if at.BeforeVectors? || at.done < k || (at.done == k && at.writes == 0) then OwnedBy(t.links, items[k].page.id)
    else if at.done == k && at.writes == 1 then []
    else items[k].page.linksOut
  }

  function ClaimsLeft(t: Tables, items: seq<Parsed>, at: Point, k: nat): seq<Claim>
    requires k < |items|
  {
    if at.BeforeVectors? || at.done < k || (at.done == k && at.writes < 3) then OwnedBy(t.claims, items[k].page.id)
    else if at.done == k then []
    else items[k].page.claims
  }

  lemma LinksDeleted(t: Tables, items: seq<Parsed>, done: nat, k: nat)
    requires DistinctIds(items) && done < |items| && k < |items|
    ensures OwnedBy(Without(ReplaceLinks(t.links, items[..done]), {items[done].page.id}), items[k].page.id)
         == if k < done then items[k].page.linksOut else if k == done then [] else OwnedBy(t.links, items[k].page.id)
  {
    ReplacedLinksAt(t.links, items, done, k);
    OwnedByWithout(ReplaceLinks(t.links, items[..done]), {items[done].page.id}, items[k].page.id);
  }

  lemma LinksWithin(t: Tables, items: seq<Parsed>, at: Point, k: nat)
    requires DistinctIds(items) && AtPoint(items, at) && at.Within? && k < |items|
    ensures OwnedBy(LinksThere(t.links, items, at), items[k].page.id) == LinksLeft(t, items, at, k)
  {
    if at.writes == 0 {
      assert LinksThere(t.links, items, at) == ReplaceLinks(t.links, items[..at.done]);
      ReplacedLinksAt(t.links, items, at.done, k);
    } else if at.writes == 1 {
      assert LinksThere(t.links, items, at)
          == Without(ReplaceLinks(t.links, items[..at.done]), {items[at.done].page.id});
      LinksDeleted(t, items, at.done, k);
    } else {
      assert LinksThere(t.links, items, at) == ReplaceLinks(t.links, items[..at.done + 1]);
      ReplacedLinksAt(t.links, items, at.done + 1, k);
    }
  }

  lemma LinksAre(t: Tables, items: seq<Parsed>, at: Point, k: nat)
    requires DistinctIds(items) && AtPoint(items, at) && k < |items|
    ensures OwnedBy(LinksThere(t.links, items, at), items[k].page.id) == LinksLeft(t, items, at, k)
  {
    if at.Within? { LinksWithin(t, items, at, k); }
  }

  lemma ClaimsAre(t: Tables, items: seq<Parsed>, at: Point, k: nat)
    requires DistinctIds(items) && AtPoint(items, at) && k < |items|
    ensures OwnedBy(ClaimsThere(t.claims, items, at), items[k].page.id) == ClaimsLeft(t, items, at, k)
  {
    if at.Within? {
      ReplacedClaimsAt(t.claims, items, at.done, k);
      if at.writes == 3 {
        OwnedByWithout(ReplaceClaims(t.claims, items[..at.done]), {items[at.done].page.id}, items[k].page.id);
      }
    }
  }

  lemma {:induction false} ReplaceMisses(t: Tables, items: seq<Parsed>, id: string)
    requires forall p | p in items :: p.page.id != id
    ensures OwnedBy(ReplaceLinks(t.links, items), id) == OwnedBy(t.links, id)
    ensures OwnedBy(ReplaceClaims(t.claims, items), id) == OwnedBy(t.claims, id)
    decreases |items|
  {
    if items != [] {
      var init, last := items[..|items| - 1], items[|items| - 1];
      assert last in items;
      ReplaceMisses(t, init, id);
      OwnedByReplace(ReplaceLinks(t.links, init), last.page.id, last.page.linksOut, id);
      OwnedByReplace(ReplaceClaims(t.claims, init), last.page.id, last.page.claims, id);
    }
  }

  lemma TornElsewhere(t: Tables, items: seq<Parsed>, at: Point, now: int, cfg: Config, id: string)
    requires AtPoint(items, at) && forall p | p in items :: p.page.id != id
    ensures AgreeAt(t, Torn(t, items, at, now, cfg), id)
  {
    ProjectMiss(t, items, now, cfg, id);
    if at.Within? {
      ReplaceMisses(t, items[..at.done], id);
      if at.done < |items| {
        assert items[at.done] in items;
        ReplaceMisses(t, items[..at.done + 1], id);
        OwnedByWithout(ReplaceLinks(t.links, items[..at.done]), {items[at.done].page.id}, id);
        OwnedByWithout(ReplaceClaims(t.claims, items[..at.done]), {items[at.done].page.id}, id);
      }
    }
  }

  /** What the crash left of page `k` is what its file says. */
  ghost predicate LeftRight(t: Tables, items: seq<Parsed>, at: Point, k: nat, cfg: Config)
    requires k < |items|
  {
    var page := items[k].page;
    && (at.BeforeVectors? ==> page.id in t.embeddings && t.embeddings[page.id] == Vector(page, cfg))
    && LinksLeft(t, items, at, k) == page.linksOut && ClaimsLeft(t, items, at, k) == page.claims
  }

  lemma TornAtItem(t: Tables, items: seq<Parsed>, at: Point, now: int, cfg: Config, k: nat)
    requires DistinctIds(items) && AtPoint(items, at) && k < |items|
    ensures var torn, p := Torn(t, items, at, now, cfg), items[k];
            && p.page.id in torn.pages && torn.pages[p.page.id].contentHash == p.bytes
            && torn.pages[p.page.id].kind == p.page.kind
            && (Faithful(torn, p, cfg) <==> LeftRight(t, items, at, k, cfg))
  {
    assert items[k] in items;
    ProjectHit(t, items, now, cfg, items[k]);
    LinksAre(t, items, at, k);
    ClaimsAre(t, items, at, k);
  }

  // ---- when the next pass repairs it ----

  /** The batch is some of the files as they are on the disk. */
  ghost predicate BatchOf(files: Files, items: seq<Parsed>)
  {
    && DistinctIds(items)
    && forall k | 0 <= k < |items| :: Parses(files, items[k].path) && items[k] == ParsedAt(files, items[k].path)
  }

  ghost predicate InBatch(items: seq<Parsed>, id: string)
  {
    exists k :: 0 <= k < |items| && items[k].page.id == id
  }

  /** Everything outside the batch is in order: files are projected, and rows of unknown ids will be swept. */
  ghost predicate RestTrusted(files: Files, t: Tables, items: seq<Parsed>, cfg: Config)
  {
    && (forall p | Parses(files, p) && SlotSettled(files, p, cfg) && !InBatch(items, PageAt(files, p).id) ::
          Faithful(t, ParsedAt(files, p), cfg))
    && (forall id :: EmptyAt(t, id) || HasId(files, id) || IsSlotId(id) || id in t.pages)
  }

  /** The crash lost nothing that the files do not say anyway. */
  ghost predicate NothingLost(files: Files, t: Tables, items: seq<Parsed>, at: Point, cfg: Config)
  {
    forall k | 0 <= k < |items| && SlotSettled(files, items[k].path, cfg) :: LeftRight(t, items, at, k, cfg)
  }

  lemma TornSlotRows(files: Files, t: Tables, items: seq<Parsed>, at: Point, now: int, cfg: Config)
    requires Sound(files) && SlotRowsSane(t) && BatchOf(files, items) && AtPoint(items, at)
    ensures SlotRowsSane(Torn(t, items, at, now, cfg))
  {
    var torn := Torn(t, items, at, now, cfg);
    forall id | id in torn.pages && IsSlotId(id) ensures torn.pages[id].kind.Index? {
      if InBatch(items, id) {
        var k :| 0 <= k < |items| && items[k].page.id == id;
        TornAtItem(t, items, at, now, cfg, k);
      } else {
        NotInBatch(items, id);
        TornElsewhere(t, items, at, now, cfg, id);
      }
    }
  }

  lemma NotInBatch(items: seq<Parsed>, id: string)
    requires !InBatch(items, id)
    ensures forall p | p in items :: p.page.id != id
  {}

  lemma ItemCovered(
    files: Files, t: Tables, items: seq<Parsed>, at: Point, now: int, cfg: Config, k: nat)
    requires BatchOf(files, items) && AtPoint(items, at) && k < |items|
    ensures Covered(files, Sorted(files.Keys), Torn(t, items, at, now, cfg), false, items[k].path, cfg)
       <==> LeftRight(t, items, at, k, cfg)
  {
    var torn := Torn(t, items, at, now, cfg);
    TornAtItem(t, items, at, now, cfg, k);
    assert Unchanged(Hashes(torn, false), items[k].page, items[k].bytes);
    assert !Queued(files, Sorted(files.Keys), torn, false, items[k].path);
  }

  lemma OtherCovered(
    files: Files, t: Tables, items: seq<Parsed>, at: Point, now: int, cfg: Config, p: string)
    requires AtPoint(items, at) && Parses(files, p) && !InBatch(items, PageAt(files, p).id)
    requires Faithful(t, ParsedAt(files, p), cfg)
    ensures Covered(files, Sorted(files.Keys), Torn(t, items, at, now, cfg), false, p, cfg)
  {
    NotInBatch(items, PageAt(files, p).id);
    TornElsewhere(t, items, at, now, cfg, PageAt(files, p).id);
  }

  lemma NoStrangersTorn(files: Files, t: Tables, items: seq<Parsed>, at: Point, now: int, cfg: Config, id: string)
    requires BatchOf(files, items) && AtPoint(items, at)
    requires EmptyAt(t, id) || HasId(files, id) || IsSlotId(id) || id in t.pages
    ensures var torn := Torn(t, items, at, now, cfg);
            EmptyAt(torn, id) || HasId(files, id) || IsSlotId(id) || id in torn.pages
  {
    if InBatch(items, id) {
      var k :| 0 <= k < |items| && items[k].page.id == id;
    } else {
      NotInBatch(items, id);
      TornElsewhere(t, items, at, now, cfg, id);
    }
  }

  lemma ItemOf(files: Files, items: seq<Parsed>, p: string) returns (k: nat)
    requires UniqueIds(files) && BatchOf(files, items) && Parses(files, p) && InBatch(items, PageAt(files, p).id)
    ensures k < |items| && items[k] == ParsedAt(files, p)
  {
    k :| 0 <= k < |items| && items[k].page.id == PageAt(files, p).id;
    assert items[k].path == p;
  }

  lemma TornTrust(files: Files, t: Tables, items: seq<Parsed>, at: Point, now: int, cfg: Config)
    requires UniqueIds(files) && BatchOf(files, items) && AtPoint(items, at) && RestTrusted(files, t, items, cfg)
    ensures TrustedForPass(files, Torn(t, items, at, now, cfg), cfg) <==> NothingLost(files, t, items, at, cfg)
  {
    var torn := Torn(t, items, at, now, cfg);
    forall id ensures EmptyAt(torn, id) || HasId(files, id) || IsSlotId(id) || id in torn.pages {
      NoStrangersTorn(files, t, items, at, now, cfg, id);
    }
    if NothingLost(files, t, items, at, cfg) {
      forall p | Parses(files, p) && SlotSettled(files, p, cfg)
        ensures Covered(files, Sorted(files.Keys), torn, false, p, cfg)
      {
        if InBatch(items, PageAt(files, p).id) {
          var k := ItemOf(files, items, p);
          ItemCovered(files, t, items, at, now, cfg, k);
        } else {
          OtherCovered(files, t, items, at, now, cfg, p);
        }
      }
    }
    if TrustedForPass(files, torn, cfg) {
      forall k | 0 <= k < |items| && SlotSettled(files, items[k].path, cfg) ensures LeftRight(t, items, at, k, cfg) {
        ItemCovered(files, t, items, at, now, cfg, k);
      }
    }
  }

  /** After a crash at any write of a projection the next pass restores the projection exactly when the crash
      lost nothing: every page of the batch that was not finished already had the vector, links and claims
      its file calls for (an index page slot counts only if the pass will not rewrite it). */
  lemma TornIsRepairedExactlyWhen(
    files: Files, t: Tables, items: seq<Parsed>, at: Point, now: int, later: int, cfg: Config)
    requires Sound(files) && SlotRowsSane(t) && BatchOf(files, items) && AtPoint(items, at)
    requires RestTrusted(files, t, items, cfg)
    ensures var out := Pass(files, Torn(t, items, at, now, cfg), later, cfg);
            Projected(out.files, out.tables, cfg) <==> NothingLost(files, t, items, at, cfg)
  {
    SortedIsReachable(files);
    TornSlotRows(files, t, items, at, now, cfg);
    TornTrust(files, t, items, at, now, cfg);
    RunRefinesProjection(files, Sorted(files.Keys), Torn(t, items, at, now, cfg), false, later, cfg);
  }

  // ---- a rebuild stopped after its drops ----

  /** Dropping these tables and keeping the page rows loses nothing: there was nothing in them. */
  predicate LosesNothing(t: Tables, dropped: set<TableName>)
  {
    && (EmbeddingsTable in dropped ==> t.embeddings == map[])
    && (LinksTable in dropped ==> t.links == [])
    && (ClaimsTable in dropped ==> t.claims == [])
  }

  lemma WipedFaithful(t: Tables, dropped: set<TableName>, p: Parsed, cfg: Config)
    requires Faithful(t, p, cfg) && PagesTable !in dropped
    ensures Faithful(Wipe(t, dropped), p, cfg)
       <==> EmbeddingsTable !in dropped && (LinksTable in dropped ==> p.page.linksOut == [])
            && (ClaimsTable in dropped ==> p.page.claims == [])
  {}

  lemma {:induction false} SomeoneOwns<T>(rows: seq<Row<T>>) returns (id: string)
    requires rows != []
    ensures OwnedBy(rows, id) != []
  {
    id := rows[|rows| - 1].owner;
  }

  lemma OwnerIsOnDisk(files: Files, t: Tables, cfg: Config, id: string) returns (p: string)
    requires Projected(files, t, cfg) && !EmptyAt(t, id)
    ensures Parses(files, p) && PageAt(files, p).id == id && Faithful(t, ParsedAt(files, p), cfg)
  {
    p :| Parses(files, p) && PageAt(files, p).id == id;
  }

  /** Some page whose row is kept has lost something. */
  lemma LossIsSeen(files: Files, t: Tables, dropped: set<TableName>, cfg: Config) returns (p: string)
    requires Projected(files, t, cfg) && PagesTable !in dropped && !LosesNothing(t, dropped)
    ensures Parses(files, p) && Faithful(t, ParsedAt(files, p), cfg)
    ensures !Faithful(Wipe(t, dropped), ParsedAt(files, p), cfg)
  {
    var id: string;
    if EmbeddingsTable in dropped && t.embeddings != map[] {
      id :| id in t.embeddings;
    } else if LinksTable in dropped && t.links != [] {
      id := SomeoneOwns(t.links);
    } else {
      id := SomeoneOwns(t.claims);
    }
    p := OwnerIsOnDisk(files, t, cfg, id);
    WipedFaithful(t, dropped, ParsedAt(files, p), cfg);
  }

  lemma KeptRowIsNotQueued(files: Files, t: Tables, dropped: set<TableName>, cfg: Config, p: string)
    requires PagesTable !in dropped && Parses(files, p) && Faithful(t, ParsedAt(files, p), cfg)
    ensures !Queued(files, Sorted(files.Keys), Wipe(t, dropped), false, p)
  {}

  lemma WipedCovers(files: Files, t: Tables, dropped: set<TableName>, cfg: Config, p: string)
    requires Projected(files, t, cfg) && Parses(files, p) && (PagesTable in dropped || LosesNothing(t, dropped))
    ensures Covered(files, Sorted(files.Keys), Wipe(t, dropped), false, p, cfg)
  {
    assert Faithful(t, ParsedAt(files, p), cfg);
    if PagesTable !in dropped { WipedFaithful(t, dropped, ParsedAt(files, p), cfg); }
  }

  lemma LossIsNotTrusted(files: Files, t: Tables, dropped: set<TableName>, cfg: Config)
    requires Projected(files, t, cfg) && files == Settled(files, cfg)
    requires PagesTable !in dropped && !LosesNothing(t, dropped)
    ensures !TrustedForPass(files, Wipe(t, dropped), cfg)
  {
    var p := LossIsSeen(files, t, dropped, cfg);
    KeptRowIsNotQueued(files, t, dropped, cfg, p);
    SettledSlot(files, cfg, p);
    assert !Covered(files, Sorted(files.Keys), Wipe(t, dropped), false, p, cfg);
  }

  lemma SettledSlot(files: Files, cfg: Config, p: string)
    requires files == Settled(files, cfg)
    ensures SlotSettled(files, p, cfg)
  {
    SlotsDiffer();
  }

  lemma WipedTrusted(files: Files, t: Tables, dropped: set<TableName>, cfg: Config)
    requires Projected(files, t, cfg) && files == Settled(files, cfg)
    ensures TrustedForPass(files, Wipe(t, dropped), cfg) <==> PagesTable in dropped || LosesNothing(t, dropped)
  {
    if PagesTable in dropped || LosesNothing(t, dropped) {
      forall p | Parses(files, p) ensures Covered(files, Sorted(files.Keys), Wipe(t, dropped), false, p, cfg) {
        WipedCovers(files, t, dropped, cfg, p);
      }
      forall id | !HasId(files, id) ensures EmptyAt(Wipe(t, dropped), id) { assert EmptyAt(t, id); }
    } else {
      LossIsNotTrusted(files, t, dropped, cfg);
    }
  }

  /** After a rebuild that was stopped once its drops were made, and the tables were created again, an incremental
      pass restores the projection exactly when the page rows were among what was dropped, or what was dropped
      was empty: page rows that survive carry the hashes that make the pass skip their files. */
  lemma StoppedRebuildIsRepairedExactlyWhen(files: Files, t: Tables, dropped: set<TableName>, now: int, cfg: Config)
    requires Sound(files) && Projected(files, t, cfg) && files == Settled(files, cfg)
    ensures var out := Pass(files, Wipe(t, dropped), now, cfg);
            Projected(out.files, out.tables, cfg) <==> PagesTable in dropped || LosesNothing(t, dropped)
  {
    ProjectedSlotRows(files, t, cfg);
    assert SlotRowsSane(Wipe(t, dropped));
    WipedTrusted(files, t, dropped, cfg);
    SortedIsReachable(files);
    RunRefinesProjection(files, Sorted(files.Keys), Wipe(t, dropped), false, now, cfg);
  }

  // ---- a sweep cut short ----

  /** The tables when the rows of some vanished pages were swept, and of one more the first `n` of four deletions. */
  function HalfSwept(t: Tables, done: set<string>, id: string, n: nat): Tables
  {
    Dropped(Sweep(t, done), id, n)
  }

  /** Nothing is left of the page, or its page row is: then the next sweep finds it. */
  predicate NothingStranded(page: Page, n: nat)
  {
    || n == 0 || n >= 4
    || (n == 2 && page.linksOut == [] && page.claims == [])
    || (n == 3 && page.claims == [])
  }

  lemma HalfSweptElsewhere(t: Tables, done: set<string>, id: string, n: nat, x: string)
    requires x != id
    ensures x !in done ==> AgreeAt(t, HalfSwept(t, done, id, n), x)
    ensures EmptyAt(t, x) || x in done ==> EmptyAt(HalfSwept(t, done, id, n), x)
  {
    SweepAt(t, done, x);
    OwnedByWithout(Sweep(t, done).links, {id}, x);
    OwnedByWithout(Sweep(t, done).claims, {id}, x);
  }

  lemma HalfSweptAt(t: Tables, done: set<string>, p: Parsed, n: nat, cfg: Config)
    requires Faithful(t, p, cfg) && p.page.id !in done
    ensures var half := HalfSwept(t, done, p.page.id, n);
            EmptyAt(half, p.page.id) || p.page.id in half.pages <==> NothingStranded(p.page, n)
  {
    SweepAt(t, done, p.page.id);
    OwnedByWithout(Sweep(t, done).links, {p.page.id}, p.page.id);
    OwnedByWithout(Sweep(t, done).claims, {p.page.id}, p.page.id);
  }

  lemma CoveredFollows(disk: Files, t: Tables, half: Tables, cfg: Config, p: string)
    requires Parses(disk, p) && AgreeAt(t, half, PageAt(disk, p).id)
    requires Covered(disk, Sorted(disk.Keys), t, false, p, cfg)
    ensures Covered(disk, Sorted(disk.Keys), half, false, p, cfg)
  {}

  /** The pages whose rows are being swept are gone. */
  ghost predicate Vanished(disk: Files, done: set<string>, id: string)
  {
    !HasId(disk, id) && forall x | x in done :: !HasId(disk, x)
  }

  lemma OthersAreCovered(disk: Files, t: Tables, done: set<string>, id: string, n: nat, cfg: Config, p: string)
    requires Honest(t, cfg) && HashesInPlace(disk, t, cfg) && Vanished(disk, done, id)
    requires Parses(disk, p) && SlotSettled(disk, p, cfg)
    ensures Covered(disk, Sorted(disk.Keys), HalfSwept(t, done, id, n), false, p, cfg)
  {
    InPlaceIsCovered(disk, t, cfg, p);
    HalfSweptElsewhere(t, done, id, n, PageAt(disk, p).id);
    CoveredFollows(disk, t, HalfSwept(t, done, id, n), cfg, p);
  }

  lemma OthersAreNotStranded(t: Tables, done: set<string>, id: string, n: nat, cfg: Config, x: string)
    requires Honest(t, cfg) && x != id
    ensures var half := HalfSwept(t, done, id, n); EmptyAt(half, x) || x in half.pages
  {
    assert HonestAt(t, x, cfg);
    HalfSweptElsewhere(t, done, id, n, x);
  }

  lemma HalfSweptTrust(disk: Files, t: Tables, done: set<string>, id: string, n: nat, cfg: Config)
    requires Honest(t, cfg) && HashesInPlace(disk, t, cfg) && id in t.pages && RowReads(t.pages[id], id)
    requires !IsSlotId(id) && id !in done && Vanished(disk, done, id)
    ensures TrustedForPass(disk, HalfSwept(t, done, id, n), cfg) <==> NothingStranded(RowFile(t.pages[id]).page, n)
  {
    var half := HalfSwept(t, done, id, n);
    assert HonestAt(t, id, cfg);
    HalfSweptAt(t, done, RowFile(t.pages[id]), n, cfg);
    forall p | Parses(disk, p) && SlotSettled(disk, p, cfg)
      ensures Covered(disk, Sorted(disk.Keys), half, false, p, cfg)
    {
      OthersAreCovered(disk, t, done, id, n, cfg, p);
    }
    forall x | x != id ensures EmptyAt(half, x) || x in half.pages {
      OthersAreNotStranded(t, done, id, n, cfg, x);
    }
  }

  lemma HalfSweptSlotRows(t: Tables, done: set<string>, id: string, n: nat)
    requires SlotRowsPlaced(t)
    ensures SlotRowsSane(HalfSwept(t, done, id, n))
  {}

  /** After a crash inside a sweep, once the rows of some vanished pages are gone and of one more the first `n` of four
      deletions were made, the next pass restores the projection exactly when nothing of that page is stranded:
      the sweep looks for ids that have page rows, so what outlives its page row is never found again. */
  lemma HalfSweptIsRepairedExactlyWhen(
    disk: Files, t: Tables, done: set<string>, id: string, n: nat, now: int, cfg: Config)
    requires Sound(disk) && Honest(t, cfg) && SlotRowsPlaced(t) && HashesInPlace(disk, t, cfg)
    requires id in t.pages && RowReads(t.pages[id], id) && !IsSlotId(id) && id !in done && Vanished(disk, done, id)
    ensures var out := Pass(disk, HalfSwept(t, done, id, n), now, cfg);
            Projected(out.files, out.tables, cfg) <==> NothingStranded(RowFile(t.pages[id]).page, n)
  {
    HalfSweptSlotRows(t, done, id, n);
    HalfSweptTrust(disk, t, done, id, n, cfg);
    SortedIsReachable(disk);
    RunRefinesProjection(disk, Sorted(disk.Keys), HalfSwept(t, done, id, n), false, now, cfg);
  }
}
