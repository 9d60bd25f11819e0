/** What the tables and the index pages say, column by column and entry by entry, and what a run counts and stamps. */
module Contents {
  import opened Model
  import opened OwnedRows
  import opened Selections
  import opened TextOrder
  import opened IndexPages
  import opened Projection
  import opened Indexing
  import opened RunLemmas
  import opened Refinement
  import opened Steady
  import opened Stores
  import opened Keeping

  // ---- the tables ----

  /** In the projection of a disk each readable file has a page row with its path, type, title, body, aliases, whole
      frontmatter and hash; the vector of the first 2000 characters of its body, or of all of it; and its links and
      claims as rows in their order on the page. */
  lemma ProjectedSays(files: Files, t: Tables, cfg: Config, path: string)
    requires Projected(files, t, cfg) && Parses(files, path)
    ensures var page := PageAt(files, path);
            && page.id in t.pages && page.id in t.embeddings
            && (var row := t.pages[page.id];
                && row.path == path && row.kind == page.kind && row.title == page.title && row.body == page.body
                && row.aliases == page.aliases && row.frontmatter == page && row.contentHash == files[path])
            && (var vector := t.embeddings[page.id];
                && vector.modelVersion == cfg.model && vector.text <= page.body
                && |vector.text| == if |page.body| < 2000 then |page.body| else 2000)
            && Picks(t.links, (set i: nat | i < |t.links| && t.links[i].owner == page.id), Rows(page.id, page.linksOut))
            && Picks(t.claims, (set i: nat | i < |t.claims| && t.claims[i].owner == page.id),
                     Rows(page.id, page.claims))
  {
    var id := PageAt(files, path).id;
    assert Faithful(t, ParsedAt(files, path), cfg);
    OwnedPicks(t.links, id);
    OwnedPicks(t.claims, id);
  }

  lemma OwnerIsOnDisk<T>(rows: seq<Row<T>>, i: nat)
    requires i < |rows|
    ensures OwnedBy(rows, rows[i].owner) != []
  {
    CountInOwned(rows, rows[i].owner, rows[i].value);
    assert rows[i] in rows && rows[i] == Row(rows[i].owner, rows[i].value);
  }

  /** And there is nothing else in any of the four tables: every row belongs to a readable file. */
  lemma NothingElse(files: Files, t: Tables, cfg: Config)
    requires Projected(files, t, cfg)
    ensures forall id | id in t.pages || id in t.embeddings :: HasId(files, id)
    ensures forall i | 0 <= i < |t.links| :: HasId(files, t.links[i].owner)
    ensures forall i | 0 <= i < |t.claims| :: HasId(files, t.claims[i].owner)
  {
    forall i | 0 <= i < |t.links| ensures HasId(files, t.links[i].owner) {
      OwnerIsOnDisk(t.links, i);
      assert HasId(files, t.links[i].owner) || EmptyAt(t, t.links[i].owner);
    }
    forall i | 0 <= i < |t.claims| ensures HasId(files, t.claims[i].owner) {
      OwnerIsOnDisk(t.claims, i);
      assert HasId(files, t.claims[i].owner) || EmptyAt(t, t.claims[i].owner);
    }
  }

  // ---- the index pages ----

  /** The entry comes from the page at this path. */
  ghost predicate EntryFrom(files: Files, flagged: Page -> bool, e: Entry, p: string)
  {
    && Parses(files, p) && PageAt(files, p).kind == Concept && flagged(PageAt(files, p))
    && e == Entry(PageAt(files, p).id, PageAt(files, p).title, PageAt(files, p).body, PageAt(files, p).domains)
  }

  /** One entry for each concept page with this property, with its id, title, body and domains, in id order. */
  ghost predicate Listing(files: Files, flagged: Page -> bool, entries: seq<Entry>)
  {
    AscendingById(entries) && forall e :: e in entries <==> exists p :: EntryFrom(files, flagged, e, p)
  }

  lemma FlaggedEntry(files: Files, flag: Flag, p: string)
    requires UniqueIds(files) && FlaggedConcept(files, flag, p)
    ensures var page := PageAt(files, p);
            && page.id in FlaggedIds(files, flag)
            && EntryById(files, page.id) == Entry(page.id, page.title, page.body, page.domains)
  {
    assert HasId(files, PageAt(files, p).id) && PageById(files, PageAt(files, p).id) == PageAt(files, p);
  }

  lemma ListedComesFrom(files: Files, flag: Flag, flagged: Page -> bool, e: Entry)
    requires UniqueIds(files) && forall page :: flagged(page) <==> HasFlag(page, flag)
    requires e in DiskEntries(files, flag)
    ensures exists p :: EntryFrom(files, flagged, e, p)
  {
    var ids := Sorted(FlaggedIds(files, flag));
    var i :| 0 <= i < |ids| && DiskEntries(files, flag)[i] == e;
    assert ids[i] in ids;
    var p :| p in files && FlaggedConcept(files, flag, p) && PageAt(files, p).id == ids[i];
    FlaggedEntry(files, flag, p);
    assert EntryFrom(files, flagged, e, p);
  }

  lemma FlaggedIsListed(files: Files, flag: Flag, flagged: Page -> bool, e: Entry, p: string)
    requires UniqueIds(files) && (forall page :: flagged(page) <==> HasFlag(page, flag))
    requires EntryFrom(files, flagged, e, p)
    ensures e in DiskEntries(files, flag)
  {
    FlaggedEntry(files, flag, p);
    var ids := Sorted(FlaggedIds(files, flag));
    assert e.id in ids;
    var i :| 0 <= i < |ids| && ids[i] == e.id;
    assert DiskEntries(files, flag)[i] == e;
  }

  lemma DiskEntriesAscend(files: Files, flag: Flag)
    ensures AscendingById(DiskEntries(files, flag))
  {
    var ids := Sorted(FlaggedIds(files, flag));
    forall i | 0 <= i < |ids| ensures DiskEntries(files, flag)[i].id == ids[i] {}
  }

  lemma DiskEntriesCome(files: Files, flag: Flag, flagged: Page -> bool, e: Entry)
    requires UniqueIds(files) && forall page :: flagged(page) <==> HasFlag(page, flag)
    ensures e in DiskEntries(files, flag) <==> exists p :: EntryFrom(files, flagged, e, p)
  {
    if e in DiskEntries(files, flag) { ListedComesFrom(files, flag, flagged, e); }
    if p :| EntryFrom(files, flagged, e, p) { FlaggedIsListed(files, flag, flagged, e, p); }
  }

  lemma ListingIs(files: Files, flagged: Page -> bool, entries: seq<Entry>)
    requires AscendingById(entries) && forall e :: e in entries <==> exists p :: EntryFrom(files, flagged, e, p)
    ensures Listing(files, flagged, entries)
  {}

  lemma DiskEntriesAreListing(files: Files, flag: Flag, flagged: Page -> bool)
    requires UniqueIds(files) && forall page :: flagged(page) <==> HasFlag(page, flag)
    ensures Listing(files, flagged, DiskEntries(files, flag))
  {
    DiskEntriesAscend(files, flag);
    forall e ensures e in DiskEntries(files, flag) <==> exists p :: EntryFrom(files, flagged, e, p) {
      DiskEntriesCome(files, flag, flagged, e);
    }
    ListingIs(files, flagged, DiskEntries(files, flag));
  }

  /** In a healthy corpus the glossary page lists exactly the concept pages marked for the glossary, in id order,
      laid out as configured, under its own id and title and with no links, claims or marks of its own. */
  lemma GlossaryLists(s: State, cfg: Config) returns (entries: seq<Entry>)
    requires Healthy(s, cfg)
    ensures Listing(s.files, (page: Page) => page.glossary, entries) && Parses(s.files, GLOSSARY.path)
    ensures PageAt(s.files, GLOSSARY.path) == Page("idx-glossary", Index, "Glossary", cfg.layout(GLOSSARY, entries),
                                                   [], [], [], [], false, false, "glossary")
    ensures GLOSSARY.path == "pages/glossary.md"
  {
    entries := DiskEntries(s.files, Glossary);
    DiskEntriesAreListing(s.files, Glossary, (page: Page) => page.glossary);
    SettledMatches(s.files, cfg);
  }

  /** And the domains page those marked as domains. */
  lemma DomainsLists(s: State, cfg: Config) returns (entries: seq<Entry>)
    requires Healthy(s, cfg)
    ensures Listing(s.files, (page: Page) => page.isDomain, entries) && Parses(s.files, DOMAINS.path)
    ensures PageAt(s.files, DOMAINS.path) == Page("idx-domains", Index, "Domains", cfg.layout(DOMAINS, entries),
                                                  [], [], [], [], false, false, "is_domain")
    ensures DOMAINS.path == "pages/domains.md"
  {
    entries := DiskEntries(s.files, Domains);
    DiskEntriesAreListing(s.files, Domains, (page: Page) => page.isDomain);
    SettledMatches(s.files, cfg);
  }

  // ---- the counters ----

  /** What the scan makes of a file. */
  datatype Fate = Failed | New | Changed | Same

  function FateOf(bytes: Bytes, known: map<string, Bytes>): Fate
  {
    if bytes.page.None? then Failed
    else if bytes.page.value.id !in known then New
    else if known[bytes.page.value.id] == bytes then Same
    else Changed
  }

  function OfFate(files: Files, paths: seq<string>, known: map<string, Bytes>, fate: Fate): set<string>
  {
    set p | p in paths && p in files && FateOf(files[p], known) == fate
  }

  lemma OneMoreIn(before: set<string>, after: set<string>, p: string, more: bool)
    requires p !in before && forall x :: x in after <==> x in before || (x == p && more)
    ensures |after| == |before| + if more then 1 else 0
  {
    assert after == if more then before + {p} else before;
  }

  lemma OneMoreFate(files: Files, paths: seq<string>, known: map<string, Bytes>, fate: Fate)
    requires Reachable(files, paths) && paths != []
    ensures var last := paths[|paths| - 1];
            |OfFate(files, paths, known, fate)|
            == |OfFate(files, paths[..|paths| - 1], known, fate)| + if FateOf(files[last], known) == fate then 1 else 0
  {
    var init, last := paths[..|paths| - 1], paths[|paths| - 1];
    InitOrLast(paths);
    OneMoreIn(OfFate(files, init, known, fate), OfFate(files, paths, known, fate), last,
              FateOf(files[last], known) == fate);
  }

  lemma ScanByFate(s: Scan, path: string, bytes: Bytes, known: map<string, Bytes>)
    ensures var next, fate := ScanFile(s, path, bytes, known), FateOf(bytes, known);
            && next.inserted == s.inserted + (if fate == New then 1 else 0)
            && next.updated == s.updated + (if fate == Changed then 1 else 0)
            && next.skipped == s.skipped + (if fate == Same then 1 else 0)
  {}

  lemma {:induction false} ScanFates(files: Files, paths: seq<string>, known: map<string, Bytes>)
    requires Reachable(files, paths)
    ensures var s := ScanFiles(files, paths, known);
            && s.inserted == |OfFate(files, paths, known, New)| && s.updated == |OfFate(files, paths, known, Changed)|
            && s.skipped == |OfFate(files, paths, known, Same)|
    decreases |paths|
  {
    if paths == [] {
      assert forall fate :: OfFate(files, paths, known, fate) == {};
    } else {
      var init, last := paths[..|paths| - 1], paths[|paths| - 1];
      InitOrLast(paths);
      ScanFates(files, init, known);
      ScanByFate(ScanFiles(files, init, known), last, files[last], known);
      OneMoreFate(files, paths, known, New);
      OneMoreFate(files, paths, known, Changed);
      OneMoreFate(files, paths, known, Same);
    }
  }

  /** The readable files, by what the page rows say of their ids. */
  ghost predicate Sorts(files: Files, t: Tables, unseen: set<string>, changed: set<string>, same: set<string>)
  {
    && (forall p :: p in unseen <==> Parses(files, p) && PageAt(files, p).id !in t.pages)
    && (forall p :: p in changed <==>
          && Parses(files, p) && PageAt(files, p).id in t.pages
          && t.pages[PageAt(files, p).id].contentHash != files[p])
    && (forall p :: p in same <==>
          && Parses(files, p) && PageAt(files, p).id in t.pages
          && t.pages[PageAt(files, p).id].contentHash == files[p])
  }

  lemma FateSorts(files: Files, t: Tables, p: string)
    ensures var paths, known := Sorted(files.Keys), Hashes(t, false);
            && (p in OfFate(files, paths, known, New) <==> Parses(files, p) && PageAt(files, p).id !in t.pages)
            && (p in OfFate(files, paths, known, Changed) <==>
                  && Parses(files, p) && PageAt(files, p).id in t.pages
                  && t.pages[PageAt(files, p).id].contentHash != files[p])
            && (p in OfFate(files, paths, known, Same) <==>
                  && Parses(files, p) && PageAt(files, p).id in t.pages
                  && t.pages[PageAt(files, p).id].contentHash == files[p])
  {
    assert p in Sorted(files.Keys) <==> p in files;
    assert Hashes(t, false).Keys == t.pages.Keys;
  }

  lemma FatesSort(files: Files, t: Tables)
    ensures var paths, known := Sorted(files.Keys), Hashes(t, false);
            Sorts(files, t, OfFate(files, paths, known, New), OfFate(files, paths, known, Changed),
                  OfFate(files, paths, known, Same))
  {
    var paths, known := Sorted(files.Keys), Hashes(t, false);
    forall p
      ensures p in OfFate(files, paths, known, New) <==> Parses(files, p) && PageAt(files, p).id !in t.pages
      ensures p in OfFate(files, paths, known, Changed) <==>
                && Parses(files, p) && PageAt(files, p).id in t.pages
                && t.pages[PageAt(files, p).id].contentHash != files[p]
      ensures p in OfFate(files, paths, known, Same) <==>
                && Parses(files, p) && PageAt(files, p).id in t.pages
                && t.pages[PageAt(files, p).id].contentHash == files[p]
    {
      FateSorts(files, t, p);
    }
  }

  lemma GoneAreUnseen(files: Files, known: map<string, Bytes>)
    ensures forall id :: id in known.Keys - ScanFiles(files, Sorted(files.Keys), known).seen
                    <==> id in known && !HasId(files, id)
  {
    forall id ensures id in ScanFiles(files, Sorted(files.Keys), known).seen <==> HasId(files, id) {
      ScanSeen(files, Sorted(files.Keys), known, id);
    }
  }

  /** What a pass counts, each file once: inserted, the readable files whose id had no row; updated, those whose row had
      another hash; skipped, those whose row had theirs; and deleted, the rows whose id no readable file has. */
  lemma PassCounts(files: Files, t: Tables, now: int, cfg: Config)
    returns (unseen: set<string>, changed: set<string>, same: set<string>, gone: set<string>)
    requires UniqueIds(files)
    ensures Sorts(files, t, unseen, changed, same) && forall id :: id in gone <==> id in t.pages && !HasId(files, id)
    ensures var r := Pass(files, t, now, cfg).report;
            && r.scanned == |files| && r.inserted == |unseen| && r.updated == |changed| && r.skipped == |same|
            && r.deleted == |gone|
  {
    var paths, known := Sorted(files.Keys), Hashes(t, false);
    SortedIsReachable(files);
    ScanFates(files, paths, known);
    FatesSort(files, t);
    var s := ScanFiles(files, paths, known);
    unseen, changed := OfFate(files, paths, known, New), OfFate(files, paths, known, Changed);
    same, gone := OfFate(files, paths, known, Same), known.Keys - s.seen;
    GoneAreUnseen(files, known);
  }

  /** The failures a run reports are the files it considered that cannot be read, in the order it considered them. */
  lemma {:induction false} FailuresInOrder(files: Files, paths: seq<string>, known: map<string, Bytes>)
    requires forall p | p in paths :: p in files
    ensures Picks(paths, (set i: nat | i < |paths| && !Parses(files, paths[i])),
                  ScanFiles(files, paths, known).failures)
    decreases |paths|
  {
    var at := set i: nat | i < |paths| && !Parses(files, paths[i]);
    if paths == [] {
      PicksOfNone(paths, at);
    } else {
      var init, last := paths[..|paths| - 1], paths[|paths| - 1];
      InitOrLast(paths);
      FailuresInOrder(files, init, known);
      var before := ScanFiles(files, init, known).failures;
      PicksLast(paths, (set i: nat | i < |init| && !Parses(files, init[i])), at, before);
      assert before + [] == before;
    }
  }

  // ---- the timestamps ----

  lemma SeenIsNotSwept(files: Files, paths: seq<string>, t: Tables, full: bool, id: string)
    requires (forall p | p in paths :: p in files) && SeenIn(files, paths, id)
    ensures var swept := Sweep(t, Hashes(t, full).Keys - ScanFiles(files, paths, Hashes(t, full)).seen);
            CreatedAt(swept.pages, id) == CreatedAt(t.pages, id)
  {
    ScanSeen(files, paths, Hashes(t, full), id);
  }

  lemma QueuedIsBuilt(files: Files, paths: seq<string>, t: Tables, full: bool, now: int, cfg: Config, path: string)
    requires Reachable(files, paths) && UniqueIds(files) && Queued(files, paths, t, full, path)
    ensures var p, mid := ParsedAt(files, path), Indexed(files, paths, t, full, now, cfg);
            && p.page.id in mid.pages && p.page.id in mid.embeddings
            && Built(p, mid.pages[p.page.id], mid.embeddings[p.page.id], t.pages, now, cfg)
  {
    var p, known := ParsedAt(files, path), Hashes(t, full);
    var s := ScanFiles(files, paths, known);
    QueueIsDistinct(files, paths, t, full);
    ScanQueue(files, paths, t, full, p);
    SeenIsNotSwept(files, paths, t, full, p.page.id);
    ProjectHit(Sweep(t, known.Keys - s.seen), s.toIndex, now, cfg, p);
  }

  lemma RegenerationPasses(files: Files, mid: Tables, now: int, cfg: Config, id: string)
    requires !IsSlotId(id)
    ensures AgreeAt(mid, Project(mid, Regenerate(files, mid.pages, cfg).1, now, cfg), id)
  {
    RegenerateRenders(files, mid, now, cfg);
  }

  /** What a run makes of a page file it considers: a row that carries the file's hash is left as it was, unless the
      run is a full one; any other is written anew, with the time of the run as its time of update and, if there was
      no row or none with a time of creation, as that too. */
  lemma RunStamps(files: Files, paths: seq<string>, t: Tables, full: bool, now: int, cfg: Config, path: string)
    requires Reachable(files, paths) && UniqueIds(files)
    requires path in paths && Parses(files, path) && !IsSlotId(PageAt(files, path).id)
    ensures var id, after := PageAt(files, path).id, Run(files, paths, t, full, now, cfg).tables;
            && id in after.pages
            && if !full && id in t.pages && t.pages[id].contentHash == files[path] then after.pages[id] == t.pages[id]
               else && id in after.embeddings
                    && Built(ParsedAt(files, path), after.pages[id], after.embeddings[id], t.pages, now, cfg)
  {
    var id, mid := PageAt(files, path).id, Indexed(files, paths, t, full, now, cfg);
    RegenerationPasses(files, mid, now, cfg, id);
    if Queued(files, paths, t, full, path) {
      QueuedIsBuilt(files, paths, t, full, now, cfg, path);
    } else {
      forall p | Queued(files, paths, t, full, p) ensures PageAt(files, p).id != id {}
      IndexedMiss(files, paths, t, full, now, cfg, id);
      assert SeenIn(files, paths, id);
    }
  }
}
