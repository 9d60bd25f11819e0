/** Runs one after another: the one-pass fixpoint, the counters, and creation times. */
module Steady {
  import opened Model
  import opened OwnedRows
  import opened TextOrder
  import opened IndexPages
  import opened Projection
  import opened Indexing
  import opened RunLemmas
  import opened Refinement
  import opened Runs

  // ---- fixpoint ----

  /** The tables project the disk, and the disk's index pages read as its concepts call for. */
  ghost predicate Quiet(files: Files, t: Tables, cfg: Config)
  {
    Projected(files, t, cfg) && files == Settled(files, cfg)
  }

  /** `disk` differs from `files` only in the two slots, which hold their own index pages. */
  ghost predicate SlotsOverwritten(files: Files, disk: Files)
  {
    && (forall p | !IsSlotPath(p) :: (p in disk <==> p in files) && (p in files ==> disk[p] == files[p]))
    && (forall p | IsSlotPath(p) ::
          && Parses(disk, p) && PageAt(disk, p).kind.Index? && PageAt(disk, p).claims == []
          && PageAt(disk, p).id == if p == GLOSSARY.path then GLOSSARY.id else DOMAINS.id)
  }

  lemma SettledOverwrites(files: Files, cfg: Config)
    ensures SlotsOverwritten(files, Settled(files, cfg))
    ensures Matches(Settled(files, cfg), SlotParsed(GLOSSARY, DiskEntries(files, Glossary), cfg))
    ensures Matches(Settled(files, cfg), SlotParsed(DOMAINS, DiskEntries(files, Domains), cfg))
  {
    SlotsDiffer();
  }

  lemma OverwrittenPage(files: Files, disk: Files, path: string)
    requires Sound(files) && SlotsOverwritten(files, disk) && Parses(disk, path)
    ensures IsSlotPath(path) <==> IsSlotId(PageAt(disk, path).id)
    ensures !IsSlotPath(path) ==> Parses(files, path) && PageAt(files, path) == PageAt(disk, path)
  {}

  lemma OverwrittenIsSound(files: Files, disk: Files)
    requires Sound(files) && SlotsOverwritten(files, disk)
    ensures Sound(disk)
  {
    SlotsDiffer();
    forall p, q | Parses(disk, p) && Parses(disk, q) && PageAt(disk, p).id == PageAt(disk, q).id
      ensures p == q
    {
      OverwrittenPage(files, disk, p);
      OverwrittenPage(files, disk, q);
    }
    forall p | Parses(disk, p)
      ensures var page := PageAt(disk, p);
        && (IsSlotPath(p) ==> page.kind.Index?)
        && (p == GLOSSARY.path <==> page.id == GLOSSARY.id)
        && (p == DOMAINS.path <==> page.id == DOMAINS.id)
        && (page.kind.Index? ==> page.claims == [])
    {
      OverwrittenPage(files, disk, p);
    }
  }

  lemma OverwrittenKeepsFlag(files: Files, disk: Files, flag: Flag, path: string)
    requires Sound(files) && SlotsOverwritten(files, disk)
    ensures FlaggedConcept(disk, flag, path) <==> FlaggedConcept(files, flag, path)
    ensures FlaggedConcept(files, flag, path) ==> PageAt(disk, path) == PageAt(files, path)
  {}

  lemma OverwrittenKeepsIds(files: Files, disk: Files, flag: Flag, id: string)
    requires Sound(files) && SlotsOverwritten(files, disk)
    ensures id in FlaggedIds(disk, flag) <==> id in FlaggedIds(files, flag)
  {
    if id in FlaggedIds(disk, flag) {
      var p :| p in disk && FlaggedConcept(disk, flag, p) && PageAt(disk, p).id == id;
      OverwrittenKeepsFlag(files, disk, flag, p);
    }
    if id in FlaggedIds(files, flag) {
      var p :| p in files && FlaggedConcept(files, flag, p) && PageAt(files, p).id == id;
      OverwrittenKeepsFlag(files, disk, flag, p);
    }
  }

  lemma OverwrittenKeepsEntry(files: Files, disk: Files, flag: Flag, id: string)
    requires Sound(files) && SlotsOverwritten(files, disk) && id in FlaggedIds(files, flag)
    ensures EntryById(disk, id) == EntryById(files, id)
  {
    OverwrittenIsSound(files, disk);
    var p :| p in files && FlaggedConcept(files, flag, p) && PageAt(files, p).id == id;
    OverwrittenKeepsFlag(files, disk, flag, p);
    assert HasId(files, id) && PageById(files, id) == PageAt(files, p);
    assert HasId(disk, id) && PageById(disk, id) == PageAt(disk, p);
  }

  lemma OverwrittenKeepsFlaggedIds(files: Files, disk: Files, flag: Flag)
    requires Sound(files) && SlotsOverwritten(files, disk)
    ensures FlaggedIds(disk, flag) == FlaggedIds(files, flag)
  {
    forall id ensures id in FlaggedIds(disk, flag) <==> id in FlaggedIds(files, flag) {
      OverwrittenKeepsIds(files, disk, flag, id);
    }
  }

  lemma OverwrittenKeepsEntriesOf(files: Files, disk: Files, flag: Flag, ids: seq<string>)
    requires Sound(files) && SlotsOverwritten(files, disk)
    requires forall id | id in ids :: id in FlaggedIds(files, flag)
    ensures EntriesOf(disk, ids) == EntriesOf(files, ids)
  {
    forall i | 0 <= i < |ids| ensures EntryById(disk, ids[i]) == EntryById(files, ids[i]) {
      assert ids[i] in ids;
      OverwrittenKeepsEntry(files, disk, flag, ids[i]);
    }
  }

  /** Overwriting the slots changes no entry of either index page. */
  lemma OverwrittenKeepsEntries(files: Files, disk: Files, flag: Flag)
    requires Sound(files) && SlotsOverwritten(files, disk)
    ensures DiskEntries(disk, flag) == DiskEntries(files, flag)
  {
    OverwrittenKeepsFlaggedIds(files, disk, flag);
    OverwrittenKeepsEntriesOf(files, disk, flag, Sorted(FlaggedIds(files, flag)));
  }

  lemma SettledIsSound(files: Files, cfg: Config)
    requires Sound(files)
    ensures Sound(Settled(files, cfg))
  {
    SettledOverwrites(files, cfg);
    OverwrittenIsSound(files, Settled(files, cfg));
  }

  lemma SameAgain(disk: Files, p: string, a: Bytes, q: string, b: Bytes)
    requires p in disk && disk[p] == a && q in disk && disk[q] == b
    ensures disk[p := a][q := b] == disk
  {
    assert disk[p := a] == disk;
  }

  /** Settling is done once. */
  lemma SettledTwice(files: Files, cfg: Config)
    requires Sound(files)
    ensures Settled(Settled(files, cfg), cfg) == Settled(files, cfg)
  {
    var disk := Settled(files, cfg);
    SettledOverwrites(files, cfg);
    OverwrittenKeepsEntries(files, disk, Glossary);
    OverwrittenKeepsEntries(files, disk, Domains);
    SameAgain(disk, GLOSSARY.path, WantedContent(disk, GLOSSARY, cfg), DOMAINS.path, WantedContent(disk, DOMAINS, cfg));
  }

  lemma ProjectedMeansConceptsAgree(files: Files, t: Tables, cfg: Config)
    requires Projected(files, t, cfg)
    ensures ConceptsAgree(files, t.pages)
  {
    forall p | ConceptFile(files, p)
      ensures ConceptRow(t.pages, PageAt(files, p).id)
      ensures RowMatches(t.pages[PageAt(files, p).id], ParsedAt(files, p))
    {
      assert Faithful(t, ParsedAt(files, p), cfg);
    }
    forall id | ConceptRow(t.pages, id) ensures exists p :: ConceptFile(files, p) && PageAt(files, p).id == id {
      assert !EmptyAt(t, id);
      var p :| Parses(files, p) && PageAt(files, p).id == id;
      assert Faithful(t, ParsedAt(files, p), cfg);
      assert ConceptFile(files, p);
    }
  }

  lemma NothingToSweep(t: Tables)
    ensures Sweep(t, {}) == t
  {
    WithoutNone(t.links);
    WithoutNone(t.claims);
  }

  lemma FirstIsMember(items: seq<Parsed>)
    ensures items != [] ==> items[0] in items
  {}

  /** The row of a parsed file carries its hash. */
  predicate HasHash(t: Tables, p: Parsed)
  {
    p.page.id in t.pages && t.pages[p.page.id].contentHash == p.bytes
  }

  /** Every readable file has its hash in its row, and every row its file. */
  ghost predicate HashesCurrent(files: Files, t: Tables)
  {
    && (forall p | Parses(files, p) :: HasHash(t, ParsedAt(files, p)))
    && (forall id | id in t.pages :: HasId(files, id))
  }

  lemma NothingQueued(files: Files, paths: seq<string>, t: Tables)
    requires HashesCurrent(files, t) && forall p | p in paths :: p in files
    ensures ScanFiles(files, paths, Hashes(t, false)).toIndex == []
  {
    var s := ScanFiles(files, paths, Hashes(t, false));
    forall x ensures x !in s.toIndex {
      ScanQueue(files, paths, t, false, x);
      if Parses(files, x.path) { assert HasHash(t, ParsedAt(files, x.path)); }
    }
    FirstIsMember(s.toIndex);
  }

  lemma KnownIsSeen(files: Files, id: string)
    requires HasId(files, id)
    ensures SeenIn(files, Sorted(files.Keys), id)
  {
    var p :| Parses(files, p) && PageAt(files, p).id == id;
    assert p in Sorted(files.Keys);
  }

  lemma RowIsSeen(files: Files, known: map<string, Bytes>, id: string)
    requires HasId(files, id)
    ensures id in ScanFiles(files, Sorted(files.Keys), known).seen
  {
    KnownIsSeen(files, id);
    ScanSeen(files, Sorted(files.Keys), known, id);
  }

  lemma NothingMissing(files: Files, t: Tables)
    requires HashesCurrent(files, t)
    ensures Hashes(t, false).Keys - ScanFiles(files, Sorted(files.Keys), Hashes(t, false)).seen == {}
  {
    forall id | id in Hashes(t, false).Keys ensures id in ScanFiles(files, Sorted(files.Keys), Hashes(t, false)).seen {
      RowIsSeen(files, Hashes(t, false), id);
    }
  }

  lemma CurrentScan(files: Files, t: Tables)
    requires HashesCurrent(files, t)
    ensures var s := ScanFiles(files, Sorted(files.Keys), Hashes(t, false));
            s.toIndex == [] && Hashes(t, false).Keys - s.seen == {}
  {
    NothingQueued(files, Sorted(files.Keys), t);
    NothingMissing(files, t);
  }

  lemma ProjectedIsCurrent(files: Files, t: Tables, cfg: Config)
    requires Projected(files, t, cfg)
    ensures HashesCurrent(files, t)
  {
    forall p | Parses(files, p) ensures HasHash(t, ParsedAt(files, p)) {
      assert Faithful(t, ParsedAt(files, p), cfg);
    }
    forall id | id in t.pages ensures HasId(files, id) {
      assert !EmptyAt(t, id);
    }
  }

  lemma NothingStale(files: Files, g: Parsed, d: Parsed)
    requires Matches(files, g) && Matches(files, d)
    ensures files[g.path := g.bytes][d.path := d.bytes] == files && Stale(files, g) + Stale(files, d) == []
  {}

  lemma QuietEntries(files: Files, t: Tables, cfg: Config)
    requires Sound(files) && Projected(files, t, cfg)
    ensures Entries(t.pages, Glossary) == DiskEntries(files, Glossary)
    ensures Entries(t.pages, Domains) == DiskEntries(files, Domains)
  {
    ProjectedMeansConceptsAgree(files, t, cfg);
    EntriesMatch(files, t.pages, Glossary);
    EntriesMatch(files, t.pages, Domains);
  }

  lemma SettledMatches(files: Files, cfg: Config)
    requires files == Settled(files, cfg)
    ensures Matches(files, SlotParsed(GLOSSARY, DiskEntries(files, Glossary), cfg))
    ensures Matches(files, SlotParsed(DOMAINS, DiskEntries(files, Domains), cfg))
  {
    SettledOverwrites(files, cfg);
  }

  lemma QuietRegeneration(files: Files, t: Tables, cfg: Config)
    requires Sound(files) && Quiet(files, t, cfg)
    ensures Regenerate(files, t.pages, cfg) == (files, [])
  {
    QuietEntries(files, t, cfg);
    SettledMatches(files, cfg);
    NothingStale(files, SlotParsed(GLOSSARY, DiskEntries(files, Glossary), cfg),
                 SlotParsed(DOMAINS, DiskEntries(files, Domains), cfg));
    RegenerateShape(files, t.pages, cfg);
  }

  lemma IdleRun(files: Files, paths: seq<string>, t: Tables, now: int, cfg: Config)
    requires forall p | p in paths :: p in files
    requires var s := ScanFiles(files, paths, Hashes(t, false)); s.toIndex == [] && Hashes(t, false).Keys - s.seen == {}
    requires Regenerate(files, t.pages, cfg) == (files, [])
    ensures var out := Run(files, paths, t, false, now, cfg);
            && out.files == files && out.tables == t && out.rewritten == []
            && out.report.inserted == 0 && out.report.updated == 0 && out.report.deleted == 0
  {
    NothingToSweep(t);
    ScanCounts(files, paths, Hashes(t, false));
  }

  /** On a quiet corpus a pass changes nothing: no row, no file, every count zero but `skipped`. */
  lemma QuietPassIsIdle(files: Files, t: Tables, now: int, cfg: Config)
    requires Sound(files) && Quiet(files, t, cfg)
    ensures var out := Pass(files, t, now, cfg);
            && out.files == files && out.tables == t && out.rewritten == []
            && out.report.inserted == 0 && out.report.updated == 0 && out.report.deleted == 0
  {
    ProjectedIsCurrent(files, t, cfg);
    CurrentScan(files, t);
    QuietRegeneration(files, t, cfg);
    IdleRun(files, Sorted(files.Keys), t, now, cfg);
  }

  /** From tables that could be trusted a pass ends on a quiet corpus. */
  lemma TrustedPassIsQuiet(files: Files, t: Tables, now: int, cfg: Config)
    requires Sound(files) && SlotRowsSane(t) && TrustedForPass(files, t, cfg)
    ensures var out := Pass(files, t, now, cfg); Sound(out.files) && Quiet(out.files, out.tables, cfg)
  {
    SortedIsReachable(files);
    RunRefinesProjection(files, Sorted(files.Keys), t, false, now, cfg);
    SettledIsSound(files, cfg);
    SettledTwice(files, cfg);
  }

  // ---- counters ----

  lemma {:induction false} ScanCounts(files: Files, paths: seq<string>, known: map<string, Bytes>)
    requires forall p | p in paths :: p in files
    ensures var s := ScanFiles(files, paths, known);
            && s.inserted + s.updated + s.skipped + |s.failures| == |paths|
            && s.inserted + s.updated == |s.toIndex|
    decreases |paths|
  {
    if paths != [] {
      assert forall p | p in paths[..|paths| - 1] :: p in paths;
      ScanCounts(files, paths[..|paths| - 1], known);
    }
  }

  /** The failures of a run are the files it scanned that do not parse. */
  lemma {:induction false} FailuresAreUnreadable(
    files: Files, paths: seq<string>, known: map<string, Bytes>, path: string)
    requires forall p | p in paths :: p in files
    ensures path in ScanFiles(files, paths, known).failures <==> path in paths && files[path].page.None?
    decreases |paths|
  {
    if paths != [] {
      InitOrLast(paths);
      FailuresAreUnreadable(files, paths[..|paths| - 1], known, path);
    }
  }

  /** How many items have an id that is not among `ids`. */
  function Fresh(items: seq<Parsed>, ids: set<string>): nat
  {
    if items == [] then 0
    else Fresh(items[..|items| - 1], ids) + if items[|items| - 1].page.id in ids then 0 else 1
  }

  lemma {:induction false} InsertedAreFresh(files: Files, paths: seq<string>, known: map<string, Bytes>)
    requires forall p | p in paths :: p in files
    ensures var s := ScanFiles(files, paths, known); s.inserted == Fresh(s.toIndex, known.Keys)
    decreases |paths|
  {
    if paths != [] {
      var init := paths[..|paths| - 1];
      assert forall p | p in init :: p in paths;
      InsertedAreFresh(files, init, known);
      var before := ScanFiles(files, init, known).toIndex;
      forall x: Parsed ensures (before + [x])[..|before + [x]| - 1] == before {}
    }
  }

  lemma {:induction false} FreshAgrees(items: seq<Parsed>, a: set<string>, b: set<string>)
    requires forall x | x in items :: x.page.id in a <==> x.page.id in b
    ensures Fresh(items, a) == Fresh(items, b)
    decreases |items|
  {
    if items != [] {
      assert items[|items| - 1] in items;
      FreshAgrees(items[..|items| - 1], a, b);
    }
  }

  lemma {:induction false} UpsertHas(
    pages: map<string, PageRow>, items: seq<Parsed>, before: map<string, PageRow>, now: int, id: string)
    ensures id in UpsertPages(pages, items, before, now) <==> id in pages || exists x :: x in items && x.page.id == id
    decreases |items|
  {
    if items != [] {
      var init, last := items[..|items| - 1], items[|items| - 1];
      UpsertHas(pages, init, before, now, id);
      assert forall x | x in items :: x in init || x == last;
    }
  }

  lemma {:induction false} UpsertCount(
    pages: map<string, PageRow>, items: seq<Parsed>, before: map<string, PageRow>, now: int)
    requires DistinctIds(items)
    ensures |UpsertPages(pages, items, before, now)| == |pages| + Fresh(items, pages.Keys)
    decreases |items|
  {
    if items != [] {
      var init, last := items[..|items| - 1], items[|items| - 1];
      UpsertCount(pages, init, before, now);
      UpsertHas(pages, init, before, now, last.page.id);
    }
  }

  /** An uncancelled incremental run accounts for every file it scanned and every row it holds:
      the page rows grow by the inserted pages and the index pages it created, less the deleted. */
  lemma PassAccounts(files: Files, t: Tables, now: int, cfg: Config)
    requires UniqueIds(files)
    ensures var out := Pass(files, t, now, cfg);
            var r := out.report;
            && r.scanned == |files| == r.inserted + r.updated + r.skipped + |r.failures|
            && |out.tables.pages| + r.deleted
               == |t.pages| + r.inserted
                  + Fresh(out.rewritten, Indexed(files, Sorted(files.Keys), t, false, now, cfg).pages.Keys)
  {
    var paths := Sorted(files.Keys);
    SortedIsReachable(files);
    ScanCounts(files, paths, Hashes(t, false));
    IndexedCount(files, paths, t, now, cfg);
    RegenerateCount(files, Indexed(files, paths, t, false, now, cfg), now, cfg);
  }

  lemma SweptCount(t: Tables, stale: set<string>)
    requires stale <= t.pages.Keys
    ensures |Sweep(t, stale).pages| == |t.pages| - |stale|
  {
    var swept := t.pages - stale;
    assert t.pages.Keys == swept.Keys + stale && swept.Keys !! stale;
    assert |t.pages| == |t.pages.Keys| && |swept| == |swept.Keys|;
  }

  lemma IndexedCount(files: Files, paths: seq<string>, t: Tables, now: int, cfg: Config)
    requires Reachable(files, paths) && UniqueIds(files)
    ensures var s := ScanFiles(files, paths, Hashes(t, false));
            |Indexed(files, paths, t, false, now, cfg).pages| + |Hashes(t, false).Keys - s.seen|
            == |t.pages| + s.inserted
  {
    var known := Hashes(t, false);
    var s := ScanFiles(files, paths, known);
    var stale := known.Keys - s.seen;
    var swept := Sweep(t, stale);
    InsertedAreFresh(files, paths, known);
    QueueIsDistinct(files, paths, t, false);
    forall x | x in s.toIndex ensures x.page.id in known.Keys <==> x.page.id in swept.pages.Keys {
      ScanQueue(files, paths, t, false, x);
      ScanSeen(files, paths, known, x.page.id);
    }
    FreshAgrees(s.toIndex, known.Keys, swept.pages.Keys);
    UpsertCount(swept.pages, s.toIndex, swept.pages, now);
    SweptCount(t, stale);
  }

  lemma RegenerateCount(files: Files, mid: Tables, now: int, cfg: Config)
    ensures var changed := Regenerate(files, mid.pages, cfg).1;
            |Project(mid, changed, now, cfg).pages| == |mid.pages| + Fresh(changed, mid.pages.Keys)
  {
    SlotsDiffer();
    RegenerateShape(files, mid.pages, cfg);
    UpsertCount(mid.pages, Regenerate(files, mid.pages, cfg).1, mid.pages, now);
  }

  // ---- creation times ----

  lemma {:induction false} UpsertKeepsCreated(
    pages: map<string, PageRow>, items: seq<Parsed>, before: map<string, PageRow>, now: int, id: string, at: int)
    requires CreatedAt(pages, id) == Some(at) && CreatedAt(before, id) == Some(at)
    ensures CreatedAt(UpsertPages(pages, items, before, now), id) == Some(at)
    decreases |items|
  {
    if items != [] {
      UpsertKeepsCreated(pages, items[..|items| - 1], before, now, id, at);
    }
  }

  lemma RunKeepsCreated(
    files: Files, paths: seq<string>, t: Tables, full: bool, now: int, cfg: Config, id: string, at: int)
    requires forall p | p in paths :: p in files
    requires CreatedAt(t.pages, id) == Some(at) && !Swept(files, paths, t, full, id)
    ensures CreatedAt(Run(files, paths, t, full, now, cfg).tables.pages, id) == Some(at)
  {
    var known := Hashes(t, full);
    var s := ScanFiles(files, paths, known);
    var stale := known.Keys - s.seen;
    ScanSeen(files, paths, known, id);
    var swept := Sweep(t, stale).pages;
    UpsertKeepsCreated(swept, s.toIndex, swept, now, id, at);
    var mid := Indexed(files, paths, t, full, now, cfg);
    UpsertKeepsCreated(mid.pages, Regenerate(files, mid.pages, cfg).1, mid.pages, now, id, at);
  }

  /** One run: the disk as it then is, the files considered, the mode and the time. */
  datatype OneRun = OneRun(files: Files, paths: seq<string>, full: bool, now: int)

  predicate Runnable(runs: seq<OneRun>)
  {
    forall r | r in runs :: forall p | p in r.paths :: p in r.files
  }

  /** The tables after runs of any mode, over whatever the disk has become each time. */
  function AfterRuns(t: Tables, runs: seq<OneRun>, cfg: Config): Tables
    requires Runnable(runs)
  {
    if runs == [] then t
    else
      var init, last := runs[..|runs| - 1], runs[|runs| - 1];
      assert last in runs && forall r | r in init :: r in runs;
      Run(last.files, last.paths, AfterRuns(t, init, cfg), last.full, last.now, cfg).tables
  }

  /** No run deletes the row: it sweeps nothing, or some file it considers carries the id. */
  ghost predicate NeverSwept(runs: seq<OneRun>, id: string)
  {
    forall r | r in runs :: r.full || SeenIn(r.files, r.paths, id)
  }

  /** A row keeps its first creation time over any number of runs that do not delete it, whatever happens to
      its page in between. */
  lemma {:induction false} CreationTimeIsKept(t: Tables, runs: seq<OneRun>, cfg: Config, id: string, at: int)
    requires Runnable(runs) && CreatedAt(t.pages, id) == Some(at) && NeverSwept(runs, id)
    ensures CreatedAt(AfterRuns(t, runs, cfg).pages, id) == Some(at)
    decreases |runs|
  {
    if runs != [] {
      var init, last := runs[..|runs| - 1], runs[|runs| - 1];
      assert last in runs && forall r | r in init :: r in runs;
      CreationTimeIsKept(t, init, cfg, id, at);
      RunKeepsCreated(last.files, last.paths, AfterRuns(t, init, cfg), last.full, last.now, cfg, id, at);
    }
  }
}
