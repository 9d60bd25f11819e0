/** One pass reaches a fixpoint, whatever it started from. */
module Fixpoint {
  import opened Model
  import opened TextOrder
  import opened IndexPages
  import opened Projection
  import opened Indexing
  import opened RunLemmas
  import opened Refinement
  import opened Steady

  // ---- after the scan and the first projection ----

  lemma ScannedRowHasHash(files: Files, paths: seq<string>, t: Tables, mid: Tables, cfg: Config, path: string)
    requires UniqueIds(files) && ScannedInto(files, paths, t, false, mid, cfg)
    requires Parses(files, path) && path in paths
    ensures HasHash(mid, ParsedAt(files, path))
  {
    var id := PageAt(files, path).id;
    if Queued(files, paths, t, false, path) {
      assert Faithful(mid, ParsedAt(files, path), cfg);
    } else {
      assert !QueuedId(files, paths, t, false, id);
      assert !Swept(files, paths, t, false, id);
      assert AgreeAt(t, mid, id);
    }
  }

  lemma ScannedRowHasFile(files: Files, paths: seq<string>, t: Tables, mid: Tables, cfg: Config, id: string)
    requires ScannedInto(files, paths, t, false, mid, cfg) && id in mid.pages
    ensures HasId(files, id)
  {
    if !QueuedId(files, paths, t, false, id) {
      assert !EmptyAt(mid, id);
      assert AgreeAt(t, mid, id) && SeenIn(files, paths, id);
    }
  }

  // ---- after the slots are rendered ----

  lemma RenderedOverwrites(files: Files, mid: Tables, disk: Files, after: Tables, cfg: Config)
    requires RenderedInto(files, mid, disk, after, cfg)
    ensures SlotsOverwritten(files, disk)
  {
    SlotsDiffer();
  }

  lemma SlotRowHasHash(
    files: Files, paths: seq<string>, t: Tables, mid: Tables, disk: Files, after: Tables, slot: Slot, cfg: Config)
    requires UniqueIds(files) && ScannedInto(files, paths, t, false, mid, cfg)
    requires SlotRendered(files, mid, disk, after, slot, cfg) && (slot.path in files ==> slot.path in paths)
    ensures HasHash(after, SlotParsed(slot, Entries(mid.pages, slot.flag), cfg))
  {
    var wanted := SlotParsed(slot, Entries(mid.pages, slot.flag), cfg);
    if Matches(files, wanted) {
      assert ParsedAt(files, slot.path) == wanted;
      ScannedRowHasHash(files, paths, t, mid, cfg, slot.path);
      assert AgreeAt(mid, after, slot.id);
    }
  }

  lemma RenderedRowHasHash(
    files: Files, paths: seq<string>, t: Tables, mid: Tables, disk: Files, after: Tables, cfg: Config, path: string)
    requires Sound(files) && ScannedInto(files, paths, t, false, mid, cfg) && RenderedInto(files, mid, disk, after, cfg)
    requires Parses(disk, path) && forall p | p in files :: p in paths
    ensures HasHash(after, ParsedAt(disk, path))
  {
    if path == GLOSSARY.path {
      SlotRowHasHash(files, paths, t, mid, disk, after, GLOSSARY, cfg);
    } else if path == DOMAINS.path {
      SlotRowHasHash(files, paths, t, mid, disk, after, DOMAINS, cfg);
    } else {
      assert Parses(files, path) && ParsedAt(files, path) == ParsedAt(disk, path);
      ScannedRowHasHash(files, paths, t, mid, cfg, path);
      assert AgreeAt(mid, after, PageAt(files, path).id);
    }
  }

  lemma RenderedRowHasFile(
    files: Files, paths: seq<string>, t: Tables, mid: Tables, disk: Files, after: Tables, cfg: Config, id: string)
    requires Sound(files) && ScannedInto(files, paths, t, false, mid, cfg) && RenderedInto(files, mid, disk, after, cfg)
    requires id in after.pages
    ensures HasId(disk, id)
  {
    HasSameIds(files, mid, disk, after, cfg, id);
    if !IsSlotId(id) {
      assert AgreeAt(mid, after, id);
      ScannedRowHasFile(files, paths, t, mid, cfg, id);
    }
  }

  lemma RenderedIsCurrent(
    files: Files, paths: seq<string>, t: Tables, mid: Tables, disk: Files, after: Tables, cfg: Config)
    requires Sound(files) && ScannedInto(files, paths, t, false, mid, cfg) && RenderedInto(files, mid, disk, after, cfg)
    requires forall p | p in files :: p in paths
    ensures HashesCurrent(disk, after)
  {
    forall p | Parses(disk, p) ensures HasHash(after, ParsedAt(disk, p)) {
      RenderedRowHasHash(files, paths, t, mid, disk, after, cfg, p);
    }
    forall id | id in after.pages ensures HasId(disk, id) {
      RenderedRowHasFile(files, paths, t, mid, disk, after, cfg, id);
    }
  }

  // ---- the entries do not change when the slots are projected ----

  lemma SlotRowIsIndex(files: Files, mid: Tables, disk: Files, after: Tables, slot: Slot, cfg: Config)
    requires SlotRowsSane(mid) && IsSlotId(slot.id) && SlotRendered(files, mid, disk, after, slot, cfg)
    ensures slot.id in after.pages ==> after.pages[slot.id].kind.Index?
  {}

  lemma RenderedSlotRowsSane(files: Files, mid: Tables, disk: Files, after: Tables, cfg: Config)
    requires SlotRowsSane(mid) && RenderedInto(files, mid, disk, after, cfg)
    ensures SlotRowsSane(after)
  {
    SlotRowIsIndex(files, mid, disk, after, GLOSSARY, cfg);
    SlotRowIsIndex(files, mid, disk, after, DOMAINS, cfg);
  }

  ghost predicate AgreeOffSlotIds(a: map<string, PageRow>, b: map<string, PageRow>)
  {
    forall id | !IsSlotId(id) :: (id in a <==> id in b) && (id in a ==> a[id] == b[id])
  }

  lemma ListedOffSlots(a: Tables, b: Tables, flag: Flag)
    requires SlotRowsSane(a) && SlotRowsSane(b) && AgreeOffSlotIds(a.pages, b.pages)
    ensures ListedIds(a.pages, flag) == ListedIds(b.pages, flag)
    ensures forall id | id in ListedIds(a.pages, flag) :: a.pages[id] == b.pages[id]
  {
    forall id ensures Listed(a.pages, flag, id) <==> Listed(b.pages, flag, id) {}
  }

  lemma EntriesDetermined(a: map<string, PageRow>, b: map<string, PageRow>, ids: seq<string>)
    requires forall id | id in ids :: id in a && id in b && a[id] == b[id]
    ensures EntriesFor(a, ids) == EntriesFor(b, ids)
  {
    forall i | 0 <= i < |ids| ensures EntriesFor(a, ids)[i] == EntriesFor(b, ids)[i] {
      assert ids[i] in ids;
    }
  }

  lemma EntriesOffSlots(a: Tables, b: Tables, flag: Flag)
    requires SlotRowsSane(a) && SlotRowsSane(b) && AgreeOffSlotIds(a.pages, b.pages)
    ensures Entries(a.pages, flag) == Entries(b.pages, flag)
  {
    ListedOffSlots(a, b, flag);
    EntriesDetermined(a.pages, b.pages, Sorted(ListedIds(a.pages, flag)));
  }

  lemma RenderedEntriesStay(files: Files, mid: Tables, disk: Files, after: Tables, cfg: Config, flag: Flag)
    requires SlotRowsSane(mid) && RenderedInto(files, mid, disk, after, cfg)
    ensures Entries(after.pages, flag) == Entries(mid.pages, flag)
  {
    RenderedSlotRowsSane(files, mid, disk, after, cfg);
    assert forall id | !IsSlotId(id) :: AgreeAt(mid, after, id);
    EntriesOffSlots(mid, after, flag);
  }

  lemma RenderedRests(files: Files, mid: Tables, disk: Files, after: Tables, cfg: Config)
    requires SlotRowsSane(mid) && RenderedInto(files, mid, disk, after, cfg)
    ensures Regenerate(disk, after.pages, cfg) == (disk, [])
  {
    RenderedEntriesStay(files, mid, disk, after, cfg, Glossary);
    RenderedEntriesStay(files, mid, disk, after, cfg, Domains);
    NothingStale(disk, SlotParsed(GLOSSARY, Entries(mid.pages, Glossary), cfg),
                 SlotParsed(DOMAINS, Entries(mid.pages, Domains), cfg));
    RegenerateShape(disk, after.pages, cfg);
  }

  // ---- the theorems ----

  /** Rows under the slot ids stay index rows under any run, so the premise about them is kept for ever. */
  lemma RunKeepsSlotRows(files: Files, paths: seq<string>, t: Tables, full: bool, now: int, cfg: Config)
    requires Reachable(files, paths) && Sound(files) && SlotRowsSane(t)
    ensures SlotRowsSane(Run(files, paths, t, full, now, cfg).tables)
    ensures Sound(Run(files, paths, t, full, now, cfg).files)
  {
    var out := Run(files, paths, t, full, now, cfg);
    var mid := Indexed(files, paths, t, full, now, cfg);
    IndexedScans(files, paths, t, full, now, cfg);
    RegenerateRenders(files, mid, now, cfg);
    SlotRowsStaySane(files, paths, t, full, mid, cfg);
    RenderedSlotRowsSane(files, mid, out.files, out.tables, cfg);
    RenderedOverwrites(files, mid, out.files, out.tables, cfg);
    OverwrittenIsSound(files, out.files);
  }

  lemma PassSettles(files: Files, t: Tables, now: int, cfg: Config)
    requires Sound(files) && SlotRowsSane(t)
    ensures var out := Pass(files, t, now, cfg);
            HashesCurrent(out.files, out.tables) && Regenerate(out.files, out.tables.pages, cfg) == (out.files, [])
  {
    var paths := Sorted(files.Keys);
    var out := Pass(files, t, now, cfg);
    var mid := Indexed(files, paths, t, false, now, cfg);
    SortedIsReachable(files);
    IndexedScans(files, paths, t, false, now, cfg);
    RegenerateRenders(files, mid, now, cfg);
    SlotRowsStaySane(files, paths, t, false, mid, cfg);
    RenderedIsCurrent(files, paths, t, mid, out.files, out.tables, cfg);
    RenderedRests(files, mid, out.files, out.tables, cfg);
  }

  /** One pass reaches the fixpoint, although it rewrites index pages that are scanned too. The tables need not
      have been right, and need not be afterwards: rows that are wrong stay exactly as they are. */
  lemma OnePassFixpoint(files: Files, t: Tables, now: int, later: int, cfg: Config)
    requires Sound(files) && SlotRowsSane(t)
    ensures var first := Pass(files, t, now, cfg);
            var second := Pass(first.files, first.tables, later, cfg);
            && Sound(first.files) && SlotRowsSane(first.tables)
            && second.files == first.files && second.tables == first.tables && second.rewritten == []
            && second.report.inserted == 0 && second.report.updated == 0 && second.report.deleted == 0
  {
    var first := Pass(files, t, now, cfg);
    SortedIsReachable(files);
    RunKeepsSlotRows(files, Sorted(files.Keys), t, false, now, cfg);
    PassSettles(files, t, now, cfg);
    CurrentScan(first.files, first.tables);
    SortedIsReachable(first.files);
    IdleRun(first.files, Sorted(first.files.Keys), first.tables, later, cfg);
  }

  /** Any number of further passes, at any times. */
  function Again(files: Files, t: Tables, times: seq<int>, cfg: Config): (Files, Tables)
  {
    if times == [] then (files, t)
    else
      var (disk, tables) := Again(files, t, times[..|times| - 1], cfg);
      var out := Pass(disk, tables, times[|times| - 1], cfg);
      (out.files, out.tables)
  }

  /** However many passes follow the first, on a disk nobody edits they leave both stores as the first did. */
  lemma {:induction false} PassesAreIdle(files: Files, t: Tables, now: int, times: seq<int>, cfg: Config)
    requires Sound(files) && SlotRowsSane(t)
    ensures var first := Pass(files, t, now, cfg);
            Again(first.files, first.tables, times, cfg) == (first.files, first.tables)
    decreases |times|
  {
    if times != [] {
      PassesAreIdle(files, t, now, times[..|times| - 1], cfg);
      OnePassFixpoint(files, t, now, times[|times| - 1], cfg);
    }
  }
}
