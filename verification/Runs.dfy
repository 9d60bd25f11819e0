/** Consequences of the refinement theorem for the runs the server makes. */
module Runs {
  import opened Model
  import opened OwnedRows
  import opened TextOrder
  import opened IndexPages
  import opened Projection
  import opened Indexing
  import opened RunLemmas
  import opened Refinement
  import opened Stores

  /** Whole-corpus incremental trust. */
  ghost predicate TrustedForPass(files: Files, t: Tables, cfg: Config)
  {
    Trusted(files, Sorted(files.Keys), t, false, cfg)
  }

  // ---- incremental against rebuild ----

  ghost predicate SameRow(a: PageRow, b: PageRow)
  {
    a.(createdAt := b.createdAt, updatedAt := b.updatedAt) == b
  }

  /** Equal tables, timestamps and scan order aside. */
  ghost predicate SameTables(a: Tables, b: Tables)
  {
    && a.pages.Keys == b.pages.Keys && (forall id | id in a.pages :: SameRow(a.pages[id], b.pages[id]))
    && a.embeddings == b.embeddings
    && (forall id :: OwnedBy(a.links, id) == OwnedBy(b.links, id))
    && (forall id :: OwnedBy(a.claims, id) == OwnedBy(b.claims, id))
  }

  lemma SameTablesAreEqualBags(a: Tables, b: Tables)
    requires SameTables(a, b)
    ensures multiset(a.links) == multiset(b.links) && multiset(a.claims) == multiset(b.claims)
  {
    OwnersDetermineTheTable(a.links, b.links);
    OwnersDetermineTheTable(a.claims, b.claims);
  }

  lemma ProjectedAtId(files: Files, a: Tables, b: Tables, cfg: Config, id: string)
    requires Projected(files, a, cfg) && Projected(files, b, cfg)
    ensures (id in a.pages <==> id in b.pages) && (id in a.pages ==> SameRow(a.pages[id], b.pages[id]))
    ensures (id in a.embeddings <==> id in b.embeddings)
    ensures id in a.embeddings ==> a.embeddings[id] == b.embeddings[id]
    ensures OwnedBy(a.links, id) == OwnedBy(b.links, id) && OwnedBy(a.claims, id) == OwnedBy(b.claims, id)
  {
    if HasId(files, id) {
      var p :| Parses(files, p) && PageAt(files, p).id == id;
      assert Faithful(a, ParsedAt(files, p), cfg) && Faithful(b, ParsedAt(files, p), cfg);
    } else {
      assert EmptyAt(a, id) && EmptyAt(b, id);
    }
  }

  /** A disk has one projection. */
  lemma ProjectionIsUnique(files: Files, a: Tables, b: Tables, cfg: Config)
    requires Projected(files, a, cfg) && Projected(files, b, cfg)
    ensures SameTables(a, b)
  {
    forall id ensures (id in a.pages <==> id in b.pages) && (id in a.pages ==> SameRow(a.pages[id], b.pages[id])) {
      ProjectedAtId(files, a, b, cfg, id);
    }
    forall id ensures (id in a.embeddings <==> id in b.embeddings)
      && (id in a.embeddings ==> a.embeddings[id] == b.embeddings[id]) {
      ProjectedAtId(files, a, b, cfg, id);
    }
    forall id ensures OwnedBy(a.links, id) == OwnedBy(b.links, id) { ProjectedAtId(files, a, b, cfg, id); }
    forall id ensures OwnedBy(a.claims, id) == OwnedBy(b.claims, id) { ProjectedAtId(files, a, b, cfg, id); }
  }

  lemma SameAsProjected(files: Files, a: Tables, b: Tables, cfg: Config)
    requires Projected(files, b, cfg) && SameTables(a, b)
    ensures Projected(files, a, cfg)
  {
    forall p | Parses(files, p) ensures Faithful(a, ParsedAt(files, p), cfg) {
      assert Faithful(b, ParsedAt(files, p), cfg);
      var id := PageAt(files, p).id;
      assert OwnedBy(a.links, id) == OwnedBy(b.links, id) && OwnedBy(a.claims, id) == OwnedBy(b.claims, id);
    }
    forall id | !HasId(files, id) ensures EmptyAt(a, id) {
      assert EmptyAt(b, id);
      assert OwnedBy(a.links, id) == OwnedBy(b.links, id) && OwnedBy(a.claims, id) == OwnedBy(b.claims, id);
    }
  }

  lemma AllQueued(files: Files, t: Tables, path: string)
    requires Parses(files, path)
    ensures Queued(files, Sorted(files.Keys), t, true, path)
  {}

  ghost predicate NoStrangers(files: Files, t: Tables)
  {
    forall id :: EmptyAt(t, id) || HasId(files, id) || IsSlotId(id)
  }

  /** A full run over every file can trust tables that hold no id unknown to the disk. */
  lemma FullTrust(files: Files, t: Tables, cfg: Config)
    ensures Trusted(files, Sorted(files.Keys), t, true, cfg) <==> NoStrangers(files, t)
  {
    forall p | Parses(files, p) ensures Covered(files, Sorted(files.Keys), t, true, p, cfg) {
      AllQueued(files, t, p);
    }
  }

  lemma RebuildIsProjected(files: Files, now: int, cfg: Config)
    requires Sound(files)
    ensures var out := Rebuild(files, now, cfg);
            out.files == Settled(files, cfg) && Projected(out.files, out.tables, cfg)
  {
    SortedIsReachable(files);
    assert NoStrangers(files, NO_TABLES);
    FullTrust(files, NO_TABLES, cfg);
    RunRefinesProjection(files, Sorted(files.Keys), NO_TABLES, true, now, cfg);
  }

  /** The hash-skipping pass ends where a wipe and a full rebuild end, disk and tables alike,
      exactly when the tables it started from could be trusted. */
  lemma IncrementalRefinesRebuild(files: Files, t: Tables, now: int, later: int, cfg: Config)
    requires Sound(files) && SlotRowsSane(t)
    ensures var a, b := Pass(files, t, now, cfg), Rebuild(files, later, cfg);
            a.files == b.files && SameTables(a.tables, b.tables) <==> TrustedForPass(files, t, cfg)
  {
    var a, b := Pass(files, t, now, cfg), Rebuild(files, later, cfg);
    SortedIsReachable(files);
    RunRefinesProjection(files, Sorted(files.Keys), t, false, now, cfg);
    RebuildIsProjected(files, later, cfg);
    if TrustedForPass(files, t, cfg) {
      ProjectionIsUnique(a.files, a.tables, b.tables, cfg);
    }
    if a.files == b.files && SameTables(a.tables, b.tables) {
      SameAsProjected(a.files, a.tables, b.tables, cfg);
    }
  }

  // ---- reindex_all over tables that may not all have been dropped ----

  function ReindexAll(files: Files, t: Tables, dropped: set<TableName>, now: int, cfg: Config): Outcome
  {
    Run(files, Sorted(files.Keys), Wipe(t, dropped), true, now, cfg)
  }

  /** A failed drop is logged and ignored, and the full run sweeps nothing: the rebuild is right
      exactly when the rows left behind belong to pages that are still there. */
  lemma ReindexAllWithFailedDrops(files: Files, t: Tables, dropped: set<TableName>, now: int, cfg: Config)
    requires Sound(files) && SlotRowsSane(t)
    ensures var out := ReindexAll(files, t, dropped, now, cfg);
            Projected(out.files, out.tables, cfg)
            <==> NoStrangers(files, Wipe(t, dropped))
  {
    SortedIsReachable(files);
    var left := Wipe(t, dropped);
    FullTrust(files, left, cfg);
    RunRefinesProjection(files, Sorted(files.Keys), left, true, now, cfg);
  }

  /** From any tables whatever, a rebuild whose drops succeed ends with the projection of the disk
      and writes no file but the two index pages. */
  lemma ReindexAllRecovers(files: Files, t: Tables, now: int, cfg: Config)
    requires Sound(files)
    ensures var out := ReindexAll(files, t, ALL_TABLES, now, cfg);
            && Projected(out.files, out.tables, cfg)
            && out.files == Settled(files, cfg)
            && forall p | !IsSlotPath(p) ::
                 (p in out.files <==> p in files) && (p in files ==> out.files[p] == files[p])
  {
    assert Wipe(t, ALL_TABLES) == NO_TABLES;
    RebuildIsProjected(files, now, cfg);
  }

  /** A full run over tables that were not wiped keeps every stale row: nothing is swept. */
  lemma FullRunSweepsNothing(files: Files, t: Tables, now: int, cfg: Config, id: string)
    requires !HasId(files, id) && !IsSlotId(id)
    ensures AgreeAt(t, Run(files, Sorted(files.Keys), t, true, now, cfg).tables, id)
    ensures Run(files, Sorted(files.Keys), t, true, now, cfg).report.deleted == 0
  {
    SortedIsReachable(files);
    var indexed := Indexed(files, Sorted(files.Keys), t, true, now, cfg);
    IndexedMiss(files, Sorted(files.Keys), t, true, now, cfg, id);
    RegenerateRenders(files, indexed, now, cfg);
    assert AgreeAt(indexed, Project(indexed, Regenerate(files, indexed.pages, cfg).1, now, cfg), id);
  }

  // ---- a cancelled pass ----

  /** A cancelled pass still sweeps: every page it did not reach loses all its rows. */
  lemma CancelledPassDropsTheRest(
    files: Files, paths: seq<string>, t: Tables, now: int, cfg: Config, path: string)
    requires Reachable(files, paths) && Sound(files)
    requires Parses(files, path) && !IsSlotPath(path) && path !in paths
    requires PageAt(files, path).id in t.pages
    ensures EmptyAt(Run(files, paths, t, false, now, cfg).tables, PageAt(files, path).id)
  {
    var id := PageAt(files, path).id;
    IndexedMiss(files, paths, t, false, now, cfg, id);
    assert Swept(files, paths, t, false, id);
    var indexed := Indexed(files, paths, t, false, now, cfg);
    RegenerateRenders(files, indexed, now, cfg);
    assert AgreeAt(indexed, Project(indexed, Regenerate(files, indexed.pages, cfg).1, now, cfg), id);
  }
}
