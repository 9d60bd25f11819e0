/** What every write handler keeps: a sound disk, wherever its pages lie, whose tables are its projection. */
module Keeping {
  import opened Model
  import opened TextOrder
  import opened IndexPages
  import opened Projection
  import opened Indexing
  import opened RunLemmas
  import opened Refinement
  import opened Runs
  import opened Steady
  import opened Stores
  import opened Address
  import opened Handlers

  // ---- the invariant ----

  ghost predicate Healthy(s: State, cfg: Config)
  {
    Sound(s.files) && Quiet(s.files, s.tables, cfg)
  }

  /** Every indexed page is still at the path its row gives. */
  ghost predicate Located(files: Files, tables: Tables)
  {
    forall id | id in tables.pages ::
      Parses(files, tables.pages[id].path) && PageAt(files, tables.pages[id].path).id == id
  }

  // ---- what the caller must respect ----

  /** The page a write request puts on disk. */
  function Effective(op: Op): Page
    requires op.WritePage?
  {
    if op.mode == Create && !HasSeparator(op.page.id) then MangledPage(op.page, op.suffix) else op.page
  }

  lemma EffectiveAsGiven(op: Op)
    requires op.WritePage?
    ensures AsGiven(Effective(op), op.page, op.mode, op.suffix)
  {}

  predicate IsSlugCreate(op: Op)
  {
    op.WritePage? && op.mode == Create && !HasSeparator(op.page.id)
  }

  predicate TouchesClaims(op: Op)
  {
    op.AddClaim? || op.UpdateClaim? || op.AddClaims?
  }

  /** A write goes where its page already is, if that is on the disk at all: the target is computed from kind and
      id, not looked up. */
  ghost predicate AtHome(files: Files, op: Op)
  {
    op.WritePage? && !op.page.kind.Index? ==>
      forall p | Parses(files, p) && PageAt(files, p).id == Effective(op).id ::
        p == TargetPath(op.page.kind, Effective(op).id)
  }

  /** Claims go to pages that can hold them. */
  ghost predicate ClaimsFit(files: Files, tables: Tables, op: Op)
  {
    TouchesClaims(op) && op.pageId in tables.pages && Parses(files, tables.pages[op.pageId].path) ==>
      !PageAt(files, tables.pages[op.pageId].path).kind.Index?
  }

  ghost predicate Fits(files: Files, tables: Tables, op: Op)
  {
    AtHome(files, op) && ClaimsFit(files, tables, op)
  }

  /** The page written is no index page slot's, and its row, if it has one, gives the target too. */
  predicate RowFits(tables: Tables, op: Op)
  {
    op.WritePage? && !op.page.kind.Index? ==>
      && !IsSlotId(Effective(op).id)
      && (Effective(op).id in tables.pages ==>
            tables.pages[Effective(op).id].path == TargetPath(op.page.kind, Effective(op).id))
  }

  // ---- one page written ----

  ghost predicate SlotFits(path: string, page: Page)
  {
    && (IsSlotPath(path) ==> page.kind.Index?)
    && (path == GLOSSARY.path <==> page.id == GLOSSARY.id)
    && (path == DOMAINS.path <==> page.id == DOMAINS.id)
    && (page.kind.Index? ==> page.claims == [])
  }

  /** Writing this page here keeps ids unique and slots with their own index pages. */
  ghost predicate WriteOk(files: Files, path: string, page: Page)
  {
    (forall q | Parses(files, q) && PageAt(files, q).id == page.id :: q == path) && SlotFits(path, page)
  }

  lemma WriteKeepsSound(files: Files, path: string, page: Page)
    requires Sound(files) && WriteOk(files, path, page)
    ensures Sound(files[path := Print(page)])
  {
    var disk := files[path := Print(page)];
    assert forall p | Parses(disk, p) ::
        if p == path then PageAt(disk, p) == page else Parses(files, p) && PageAt(disk, p) == PageAt(files, p);
  }

  /** Every id of `files` is at the same path in `disk`. */
  ghost predicate NothingMoved(files: Files, disk: Files)
  {
    forall p, q | Parses(files, p) && Parses(disk, q) && PageAt(files, p).id == PageAt(disk, q).id :: p == q
  }

  // ---- the pass after edits ----

  lemma ProjectedSlotRows(files: Files, t: Tables, cfg: Config)
    requires Sound(files) && Projected(files, t, cfg)
    ensures SlotRowsSane(t)
  {
    forall id | id in t.pages && IsSlotId(id) ensures t.pages[id].kind.Index? {
      assert !EmptyAt(t, id);
      var p :| Parses(files, p) && PageAt(files, p).id == id;
      assert Faithful(t, ParsedAt(files, p), cfg);
    }
  }

  lemma UnmovedIsTrusted(files: Files, t: Tables, disk: Files, cfg: Config)
    requires Projected(files, t, cfg) && NothingMoved(files, disk)
    ensures TrustedForPass(disk, t, cfg)
  {
    var paths := Sorted(disk.Keys);
    forall q | Parses(disk, q) ensures Covered(disk, paths, t, false, q, cfg) {
      if !Queued(disk, paths, t, false, q) {
        var id := PageAt(disk, q).id;
        assert id in t.pages && !EmptyAt(t, id);
        var p :| Parses(files, p) && PageAt(files, p).id == id;
        assert Faithful(t, ParsedAt(files, p), cfg);
      }
    }
    forall id | !EmptyAt(t, id) ensures id in t.pages {
      var p :| Parses(files, p) && PageAt(files, p).id == id;
      assert Faithful(t, ParsedAt(files, p), cfg);
    }
  }

  /** No page was moved with its bytes unchanged (a slot counts only if the pass will not rewrite it). */
  ghost predicate NoneMovedUnchanged(files: Files, disk: Files, cfg: Config)
  {
    forall p, q | Parses(files, p) && Parses(disk, q) && SlotSettled(disk, q, cfg) && files[p] == disk[q] :: p == q
  }

  lemma KeptWhereItWas(files: Files, t: Tables, disk: Files, cfg: Config, q: string)
    requires Projected(files, t, cfg) && Parses(disk, q)
    requires forall p | Parses(files, p) && files[p] == disk[q] :: p == q
    ensures Covered(disk, Sorted(disk.Keys), t, false, q, cfg)
  {
    if !Queued(disk, Sorted(disk.Keys), t, false, q) {
      var id := PageAt(disk, q).id;
      assert id in t.pages && !EmptyAt(t, id);
      var p :| Parses(files, p) && PageAt(files, p).id == id;
      assert Faithful(t, ParsedAt(files, p), cfg);
    }
  }

  lemma MovedIsNotTrusted(files: Files, t: Tables, disk: Files, cfg: Config, p: string, q: string)
    requires Projected(files, t, cfg) && TrustedForPass(disk, t, cfg)
    requires Parses(files, p) && Parses(disk, q) && SlotSettled(disk, q, cfg) && files[p] == disk[q]
    ensures p == q
  {
    assert Faithful(t, ParsedAt(files, p), cfg);
    assert !Queued(disk, Sorted(disk.Keys), t, false, q) && Covered(disk, Sorted(disk.Keys), t, false, q, cfg);
    assert Faithful(t, ParsedAt(disk, q), cfg);
  }

  lemma ProjectedHasRows(files: Files, t: Tables, cfg: Config, id: string)
    requires Projected(files, t, cfg) && !EmptyAt(t, id)
    ensures id in t.pages
  {
    var p :| Parses(files, p) && PageAt(files, p).id == id;
    assert Faithful(t, ParsedAt(files, p), cfg);
  }

  lemma UnmovedIffTrusted(files: Files, t: Tables, disk: Files, cfg: Config)
    requires Projected(files, t, cfg)
    ensures TrustedForPass(disk, t, cfg) <==> NoneMovedUnchanged(files, disk, cfg)
  {
    forall id | !EmptyAt(t, id) ensures id in t.pages { ProjectedHasRows(files, t, cfg, id); }
    if NoneMovedUnchanged(files, disk, cfg) {
      forall q | Parses(disk, q) && SlotSettled(disk, q, cfg)
        ensures Covered(disk, Sorted(disk.Keys), t, false, q, cfg)
      {
        KeptWhereItWas(files, t, disk, cfg, q);
      }
    }
    if TrustedForPass(disk, t, cfg) {
      forall p, q | Parses(files, p) && Parses(disk, q) && SlotSettled(disk, q, cfg) && files[p] == disk[q]
        ensures p == q
      {
        MovedIsNotTrusted(files, t, disk, cfg, p, q);
      }
    }
  }

  /** From tables that project one disk, a pass over another ends with the projection of the other
      exactly when no page was moved with its bytes unchanged: edits, new files and deletions are all picked up. */
  lemma OutsideEditsAreIndexed(files: Files, t: Tables, disk: Files, now: int, cfg: Config)
    requires Sound(files) && Sound(disk) && Projected(files, t, cfg)
    ensures var out := Pass(disk, t, now, cfg);
            Projected(out.files, out.tables, cfg) <==> NoneMovedUnchanged(files, disk, cfg)
  {
    ProjectedSlotRows(files, t, cfg);
    SortedIsReachable(disk);
    RunRefinesProjection(disk, Sorted(disk.Keys), t, false, now, cfg);
    UnmovedIffTrusted(files, t, disk, cfg);
  }

  /** After edits that move no id, one pass restores the invariant. */
  lemma PassRestores(files: Files, t: Tables, disk: Files, now: int, cfg: Config)
    requires Sound(files) && Projected(files, t, cfg)
    requires Sound(disk) && NothingMoved(files, disk)
    ensures var out := Pass(disk, t, now, cfg);
            out.files == Settled(disk, cfg) && Healthy(State(out.files, out.tables), cfg)
  {
    ProjectedSlotRows(files, t, cfg);
    UnmovedIsTrusted(files, t, disk, cfg);
    SortedIsReachable(disk);
    RunRefinesProjection(disk, Sorted(disk.Keys), t, false, now, cfg);
    SettledTwice(disk, cfg);
    SettledIsSound(disk, cfg);
  }

  // ---- plans are safe ----

  lemma TargetIsFree(files: Files, op: Op)
    requires op.WritePage? && !op.page.kind.Index? && AtHome(files, op) && !IsSlotId(Effective(op).id)
    ensures WriteOk(files, TargetPath(op.page.kind, Effective(op).id), Effective(op))
  {
    PathIsNoSlot(op.page.kind, Effective(op).id);
  }

  lemma AmendIsSafe(files: Files, path: string, op: Op)
    requires !op.WritePage? && Sound(files) && Parses(files, path)
    requires TouchesClaims(op) ==> !PageAt(files, path).kind.Index?
    ensures var plan := PlanAmend(path, PageAt(files, path), op);
            plan.Write? ==> WriteOk(files, plan.path, plan.page)
  {
    var plan := PlanAmend(path, PageAt(files, path), op);
    if plan.Write? {
      assert plan.page.id == PageAt(files, path).id && plan.page.kind == PageAt(files, path).kind;
    }
  }

  lemma PlanIsSafe(files: Files, tables: Tables, op: Op)
    requires Sound(files) && Validate(op).None? && Fits(files, tables, op) && RowFits(tables, op)
    ensures var plan := PlanOf(files, tables, op);
            plan.Write? ==> WriteOk(files, plan.path, plan.page)
  {
    if PlanOf(files, tables, op).Write? {
      if op.WritePage? {
        TargetIsFree(files, op);
      } else {
        AmendIsSafe(files, tables.pages[op.pageId].path, op);
      }
    }
  }

  // ---- single requests ----

  lemma HealthyIsLocated(s: State, cfg: Config)
    requires Healthy(s, cfg)
    ensures Located(s.files, s.tables)
    ensures forall id :: id in s.tables.pages <==> HasId(s.files, id)
  {
    forall id ensures id in s.tables.pages <==> HasId(s.files, id) {
      if HasId(s.files, id) {
        var p :| Parses(s.files, p) && PageAt(s.files, p).id == id;
        assert Faithful(s.tables, ParsedAt(s.files, p), cfg);
      } else {
        assert EmptyAt(s.tables, id);
      }
    }
    forall id | id in s.tables.pages
      ensures Parses(s.files, s.tables.pages[id].path) && PageAt(s.files, s.tables.pages[id].path).id == id
    {
      var p :| Parses(s.files, p) && PageAt(s.files, p).id == id;
      assert Faithful(s.tables, ParsedAt(s.files, p), cfg);
    }
  }

  lemma WriteMovesNothing(files: Files, path: string, page: Page)
    requires UniqueIds(files) && WriteOk(files, path, page)
    ensures NothingMoved(files, files[path := Print(page)])
  {
    var disk := files[path := Print(page)];
    forall p, q | Parses(files, p) && Parses(disk, q) && PageAt(files, p).id == PageAt(disk, q).id
      ensures p == q
    {
      if q != path { assert Parses(files, q); }
    }
  }

  lemma WriteRestores(s: State, path: string, page: Page, now: int, cfg: Config)
    requires Healthy(s, cfg) && WriteOk(s.files, path, page)
    ensures var out := Pass(s.files[path := Print(page)], s.tables, now, cfg);
            Healthy(State(out.files, out.tables), cfg)
  {
    WriteKeepsSound(s.files, path, page);
    WriteMovesNothing(s.files, path, page);
    PassRestores(s.files, s.tables, s.files[path := Print(page)], now, cfg);
  }

  lemma HealthyHasSlots(s: State, cfg: Config)
    requires Healthy(s, cfg)
    ensures Parses(s.files, GLOSSARY.path) && PageAt(s.files, GLOSSARY.path).id == GLOSSARY.id
    ensures Parses(s.files, DOMAINS.path) && PageAt(s.files, DOMAINS.path).id == DOMAINS.id
  {
    SettledOverwrites(s.files, cfg);
  }

  /** In a healthy corpus the rows agree with the disk about where a write belongs. */
  lemma HealthyRowFits(s: State, op: Op, cfg: Config)
    requires Healthy(s, cfg) && AtHome(s.files, op)
    ensures RowFits(s.tables, op)
  {
    if op.WritePage? && !op.page.kind.Index? {
      HealthyIsLocated(s, cfg);
      HealthyHasSlots(s, cfg);
      PathIsNoSlot(op.page.kind, Effective(op).id);
    }
  }

  lemma HealthyPlanIsSafe(s: State, op: Op, cfg: Config)
    requires Healthy(s, cfg) && Validate(op).None? && Fits(s.files, s.tables, op)
    ensures var plan := PlanOf(s.files, s.tables, op);
            plan.Write? ==> WriteOk(s.files, plan.path, plan.page)
  {
    HealthyRowFits(s, op, cfg);
    PlanIsSafe(s.files, s.tables, op);
  }

  /** A request changes the state only by writing its planned page and running a pass. */
  lemma ExecCases(s: State, op: Op, now: int, cfg: Config)
    ensures var after := Exec(s, op, now, cfg).0;
            || after == s
            || (Validate(op).None? && var plan := PlanOf(s.files, s.tables, op);
                plan.Write? && var out := Pass(s.files[plan.path := Print(plan.page)], s.tables, now, cfg);
                after == State(out.files, out.tables))
  {}

  /** Every write handler keeps the corpus sound and the tables equal to its projection. */
  lemma ExecKeepsHealthy(s: State, op: Op, now: int, cfg: Config)
    requires Healthy(s, cfg) && Fits(s.files, s.tables, op)
    ensures Healthy(Exec(s, op, now, cfg).0, cfg)
  {
    ExecCases(s, op, now, cfg);
    if Exec(s, op, now, cfg).0 != s {
      var plan := PlanOf(s.files, s.tables, op);
      HealthyPlanIsSafe(s, op, cfg);
      WriteRestores(s, plan.path, plan.page, now, cfg);
    }
  }
}
