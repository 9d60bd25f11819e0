/** Tables that lag behind the disk: what a crash, a batch cut short or an edit by hand leaves,
    what may still happen to such a corpus, and how one pass makes it healthy again. */
module Pending {
  import opened Model
  import opened OwnedRows
  import opened TextOrder
  import opened IndexPages
  import opened Projection
  import opened Indexing
  import opened RunLemmas
  import opened Refinement
  import opened Steady
  import opened Stores
  import opened Handlers
  import opened Keeping
  import opened Honesty
  import opened Commits
  import opened Removal
  import opened WrongRows

  /** A sound disk, and tables that are honest about files no longer on it or not yet changed: an indexed page may
      have been edited, overwritten or deleted since, but it has not moved. */
  ghost predicate Recoverable(s: State, cfg: Config)
  {
    Sound(s.files) && Honest(s.tables, cfg) && SlotRowsPlaced(s.tables) && Unmoved(s.files, s.tables)
  }

  lemma HealthyIsRecoverable(s: State, cfg: Config)
    requires Healthy(s, cfg)
    ensures Recoverable(s, cfg)
  {
    ProjectedIsHonest(s.files, s.tables, cfg);
  }

  // ---- the next pass ----

  lemma EditIsIndexed(s: State, disk: Files, now: int, cfg: Config)
    requires Recoverable(s, cfg) && Sound(disk) && HashesInPlace(disk, s.tables, cfg)
    ensures var out := Pass(disk, s.tables, now, cfg);
            out.files == Settled(disk, cfg) && Healthy(State(out.files, out.tables), cfg)
  {
    HonestTrust(disk, s.tables, cfg);
    PlacedIsSane(s.tables);
    SortedIsReachable(disk);
    RunRefinesProjection(disk, Sorted(disk.Keys), s.tables, false, now, cfg);
    SettledTwice(disk, cfg);
    SettledIsSound(disk, cfg);
  }

  /** However the tables came to lag behind, one pass makes the corpus healthy. */
  lemma PassRecovers(s: State, now: int, cfg: Config)
    requires Recoverable(s, cfg)
    ensures var out := Pass(s.files, s.tables, now, cfg);
            out.files == Settled(s.files, cfg) && Healthy(State(out.files, out.tables), cfg)
  {
    UnmovedHashesInPlace(s.files, s.tables, cfg);
    EditIsIndexed(s, s.files, now, cfg);
  }

  // ---- writes that no pass has followed yet ----

  /** A write belongs where the row of its page says, if the page has one. */
  predicate RowAgrees(tables: Tables, path: string, page: Page)
  {
    page.id in tables.pages ==> tables.pages[page.id].path == path
  }

  lemma WriteIsPending(s: State, path: string, page: Page, cfg: Config)
    requires Recoverable(s, cfg) && WriteOk(s.files, path, page) && RowAgrees(s.tables, path, page)
    ensures Recoverable(State(s.files[path := Print(page)], s.tables), cfg)
  {
    WriteKeepsSound(s.files, path, page);
  }

  lemma WriteIsIndexedNext(s: State, path: string, page: Page, now: int, cfg: Config)
    requires Recoverable(s, cfg) && WriteOk(s.files, path, page) && RowAgrees(s.tables, path, page)
    ensures var out := Pass(s.files[path := Print(page)], s.tables, now, cfg);
            Healthy(State(out.files, out.tables), cfg)
  {
    WriteIsPending(s, path, page, cfg);
    PassRecovers(State(s.files[path := Print(page)], s.tables), now, cfg);
  }

  // ---- requests ----

  lemma PendingPlanIsSafe(s: State, op: Op, cfg: Config)
    requires Recoverable(s, cfg) && Validate(op).None? && Fits(s.files, s.tables, op) && RowFits(s.tables, op)
    ensures var plan := PlanOf(s.files, s.tables, op);
            plan.Write? ==> WriteOk(s.files, plan.path, plan.page) && RowAgrees(s.tables, plan.path, plan.page)
  {
    if PlanOf(s.files, s.tables, op).Write? {
      PlanTarget(s.files, s.tables, op);
      PlanIsSafe(s.files, s.tables, op);
    }
  }

  /** A request leaves the corpus recoverable, and healthy if it writes. */
  lemma RequestRecovers(s: State, op: Op, now: int, cfg: Config)
    requires Recoverable(s, cfg) && Fits(s.files, s.tables, op) && RowFits(s.tables, op)
    ensures var (after, reply) := Exec(s, op, now, cfg);
            Recoverable(after, cfg) && (reply == Done(true) ==> Healthy(after, cfg))
  {
    if Validate(op).None? {
      ExecPlanned(s, op, now, cfg);
      PendingPlanIsSafe(s, op, cfg);
      var plan := PlanOf(s.files, s.tables, op);
      if plan.Write? {
        WriteIsIndexedNext(s, plan.path, plan.page, now, cfg);
        HealthyIsRecoverable(Exec(s, op, now, cfg).0, cfg);
      }
    }
  }

  /** The state of a request that stopped between its file and its pass. */
  function Stopped(s: State, op: Op): State
  {
    if Validate(op).Some? then s else State(Applied(s.files, PlanOf(s.files, s.tables, op)), s.tables)
  }

  lemma StoppedIsRecoverable(s: State, op: Op, cfg: Config)
    requires Recoverable(s, cfg) && Fits(s.files, s.tables, op) && RowFits(s.tables, op)
    ensures Recoverable(Stopped(s, op), cfg)
  {
    if Validate(op).None? {
      PendingPlanIsSafe(s, op, cfg);
      var plan := PlanOf(s.files, s.tables, op);
      if plan.Write? { WriteIsPending(s, plan.path, plan.page, cfg); }
    }
  }

  // ---- removals ----

  /** No edge into the page is in the table but its own. */
  ghost predicate NoEdgesInto(t: Tables, id: string)
  {
    forall r | r in t.links && r.value.target == id :: r.owner == id
  }

  lemma {:induction false} OwnedIsInTable<T>(rows: seq<Row<T>>, owner: string, value: T)
    requires value in OwnedBy(rows, owner)
    ensures Row(owner, value) in rows
    decreases |rows|
  {
    var last := rows[|rows| - 1];
    if Row(owner, value) != last { OwnedIsInTable(rows[..|rows| - 1], owner, value); }
  }

  lemma RemovedIsHonestAt(t: Tables, id: string, cfg: Config, x: string)
    requires HonestAt(t, x, cfg) && NoEdgesInto(t, id)
    ensures HonestAt(Removed(t, id), x, cfg)
  {
    RemovedAt(t, id, x);
    if x != id {
      forall l | l in OwnedBy(t.links, x) ensures l.target != id { OwnedIsInTable(t.links, x, l); }
      DropNothing(OwnedBy(t.links, x), id);
    }
  }

  /** A removal leaves the corpus recoverable if no other page has an edge to the page. */
  lemma RemovalRecovers(s: State, id: string, cfg: Config)
    requires Recoverable(s, cfg) && NoEdgesInto(s.tables, id)
    ensures Recoverable(Remove(s, id).0, cfg)
  {
    if id != "" && id in s.tables.pages {
      RemoveIs(s, id);
      FewerIsSound(s.files, s.tables.pages[id].path);
      forall x ensures HonestAt(Removed(s.tables, id), x, cfg) {
        assert HonestAt(s.tables, x, cfg);
        RemovedIsHonestAt(s.tables, id, cfg, x);
      }
    }
  }

  // ---- projecting some of the files ----

  lemma ProjectedItem(files: Files, t: Tables, items: seq<Parsed>, now: int, cfg: Config, k: nat)
    requires BatchOf(files, items) && k < |items|
    ensures HonestAt(Project(t, items, now, cfg), items[k].page.id, cfg)
    ensures items[k].page.id in Project(t, items, now, cfg).pages
    ensures Project(t, items, now, cfg).pages[items[k].page.id].path == items[k].path
    ensures Project(t, items, now, cfg).pages[items[k].page.id].kind == items[k].page.kind
  {
    assert items[k] in items && Parses(files, items[k].path);
    ProjectHit(t, items, now, cfg, items[k]);
    assert RowFile(Project(t, items, now, cfg).pages[items[k].page.id]) == items[k];
  }

  lemma UnprojectedItem(t: Tables, items: seq<Parsed>, now: int, cfg: Config, id: string)
    requires !InBatch(items, id) && HonestAt(t, id, cfg)
    ensures HonestAt(Project(t, items, now, cfg), id, cfg)
    ensures id in Project(t, items, now, cfg).pages <==> id in t.pages
    ensures id in t.pages ==> Project(t, items, now, cfg).pages[id] == t.pages[id]
  {
    NotInBatch(items, id);
    ProjectMiss(t, items, now, cfg, id);
  }

  /** What holds of the rows of one id after some of the files were projected. */
  lemma ProjectedRow(s: State, items: seq<Parsed>, now: int, cfg: Config, id: string)
    requires Recoverable(s, cfg) && BatchOf(s.files, items)
    ensures var t := Project(s.tables, items, now, cfg);
            && HonestAt(t, id, cfg)
            && (id in t.pages ==> forall q | Parses(s.files, q) && PageAt(s.files, q).id == id :: q == t.pages[id].path)
            && (id in t.pages && IsSlotId(id) ==>
                  t.pages[id].kind.Index?
                  && t.pages[id].path == if id == GLOSSARY.id then GLOSSARY.path else DOMAINS.path)
  {
    assert HonestAt(s.tables, id, cfg);
    if InBatch(items, id) {
      var k :| 0 <= k < |items| && items[k].page.id == id;
      assert Parses(s.files, items[k].path) && items[k] == ParsedAt(s.files, items[k].path);
      ProjectedItem(s.files, s.tables, items, now, cfg, k);
    } else {
      UnprojectedItem(s.tables, items, now, cfg, id);
    }
  }

  /** Projecting any of the files leaves the corpus recoverable. */
  lemma ProjectingRecovers(s: State, items: seq<Parsed>, now: int, cfg: Config)
    requires Recoverable(s, cfg) && BatchOf(s.files, items)
    ensures Recoverable(State(s.files, Project(s.tables, items, now, cfg)), cfg)
  {
    var t := Project(s.tables, items, now, cfg);
    forall id ensures HonestAt(t, id, cfg) { ProjectedRow(s, items, now, cfg, id); }
    forall id | id in t.pages && IsSlotId(id)
      ensures t.pages[id].kind.Index? && t.pages[id].path == (if id == GLOSSARY.id then GLOSSARY.path else DOMAINS.path)
    {
      ProjectedRow(s, items, now, cfg, id);
    }
    forall id, q | id in t.pages && Parses(s.files, q) && PageAt(s.files, q).id == id ensures q == t.pages[id].path {
      ProjectedRow(s, items, now, cfg, id);
    }
  }

  // ---- a targeted run ----

  lemma SlotWriteOk(files: Files, slot: Slot, entries: seq<Entry>, cfg: Config)
    requires Sound(files) && (slot == GLOSSARY || slot == DOMAINS)
    ensures WriteOk(files, slot.path, IndexPage(slot, entries, cfg))
  {
    SlotsDiffer();
  }

  lemma SlotWriteIsPending(s: State, slot: Slot, entries: seq<Entry>, cfg: Config)
    requires Recoverable(s, cfg) && (slot == GLOSSARY || slot == DOMAINS)
    ensures Recoverable(State(WriteIfChanged(s.files, SlotParsed(slot, entries, cfg)).0, s.tables), cfg)
  {
    SlotsDiffer();
    SlotWriteOk(s.files, slot, entries, cfg);
    WriteIsPending(s, slot.path, IndexPage(slot, entries, cfg), cfg);
  }

  lemma RegeneratedIsPending(s: State, cfg: Config)
    requires Recoverable(s, cfg)
    ensures Recoverable(State(Regenerate(s.files, s.tables.pages, cfg).0, s.tables), cfg)
  {
    var entries := Entries(s.tables.pages, Glossary);
    SlotWriteIsPending(s, GLOSSARY, entries, cfg);
    var middle := State(WriteIfChanged(s.files, SlotParsed(GLOSSARY, entries, cfg)).0, s.tables);
    SlotWriteIsPending(middle, DOMAINS, Entries(s.tables.pages, Domains), cfg);
  }

  lemma RegeneratedIsBatch(files: Files, pages: map<string, PageRow>, cfg: Config)
    ensures var (disk, changed) := Regenerate(files, pages, cfg); BatchOf(disk, changed)
  {
    SlotsDiffer();
  }

  lemma RenderingRecovers(s: State, now: int, cfg: Config)
    requires Recoverable(s, cfg)
    ensures var (disk, changed) := Regenerate(s.files, s.tables.pages, cfg);
            Recoverable(State(disk, Project(s.tables, changed, now, cfg)), cfg)
  {
    RegeneratedIsPending(s, cfg);
    RegeneratedIsBatch(s.files, s.tables.pages, cfg);
    var (disk, changed) := Regenerate(s.files, s.tables.pages, cfg);
    ProjectingRecovers(State(disk, s.tables), changed, now, cfg);
  }

  /** Indexing one file, readable or not, and rendering the index pages from the rows, leaves the corpus recoverable. */
  lemma TargetedRecovers(s: State, path: string, now: int, cfg: Config)
    requires Recoverable(s, cfg) && path in s.files
    ensures var out := Run(s.files, [path], s.tables, true, now, cfg); Recoverable(State(out.files, out.tables), cfg)
  {
    var items := if Parses(s.files, path) then [ParsedAt(s.files, path)] else [];
    TargetedIndexes(s.files, s.tables, path, now, cfg);
    ProjectingRecovers(s, items, now, cfg);
    RenderingRecovers(State(s.files, Project(s.tables, items, now, cfg)), now, cfg);
  }

  lemma TargetedIndexes(files: Files, t: Tables, path: string, now: int, cfg: Config)
    requires path in files
    ensures Indexed(files, [path], t, true, now, cfg)
         == Project(t, if Parses(files, path) then [ParsedAt(files, path)] else [], now, cfg)
  {
    assert [path][..0] == [];
    var known := Hashes(t, true);
    assert ScanFiles(files, [path][..0], known) == NO_SCAN;
    var s := ScanFiles(files, [path], known);
    assert s == ScanFile(NO_SCAN, path, files[path], known);
    assert s.toIndex == if Parses(files, path) then [ParsedAt(files, path)] else [];
    var none: set<string> := {};
    assert known.Keys - s.seen == none;
    WithoutNone(t.links);
    WithoutNone(t.claims);
    assert Sweep(t, none) == t;
  }

  // ---- batches ----

  lemma LandedIsPending(s: State, ops: seq<Op>, k: nat, disk: Files, cfg: Config)
    requires k <= |ops| && Recoverable(s, cfg) && AllValid(ops)
    requires WritesAgree(s.files, s.tables, ops) && RowsFit(s.tables, ops)
    requires Landed(s.files, s.tables, ops, k, disk)
    ensures Recoverable(State(disk, s.tables), cfg)
  {
    CommitTracks(s.files, s.tables, ops, k, disk);
    assert RowsFit(s.tables, ops[..k]);
    TrackedIsUnmoved(s.files, s.tables, ops[..k], disk);
  }
}
