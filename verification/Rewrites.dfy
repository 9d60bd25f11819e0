/** Writing a page whose id is already on the disk: when the corpus survives it. */
module Rewrites {
  import opened Model
  import opened TextOrder
  import opened IndexPages
  import opened Indexing
  import opened RunLemmas
  import opened Stores
  import opened Address
  import opened Handlers
  import opened Keeping
  import opened Commits
  import opened Batches
  import opened BulkEdits

  lemma PassRendersSlots(files: Files, t: Tables, now: int, cfg: Config)
    ensures var disk := Pass(files, t, now, cfg).files;
            && Parses(disk, GLOSSARY.path) && PageAt(disk, GLOSSARY.path).id == GLOSSARY.id
            && Parses(disk, DOMAINS.path) && PageAt(disk, DOMAINS.path).id == DOMAINS.id
  {
    SlotsDiffer();
    RegenerateShape(files, Indexed(files, Sorted(files.Keys), t, false, now, cfg).pages, cfg);
  }

  /** A pass keeps every file where it was with its id: slots are rendered again, other files not touched. */
  lemma PassKeepsIds(disk: Files, t: Tables, now: int, cfg: Config, p: string)
    requires Parses(disk, p)
    requires (p == GLOSSARY.path ==> PageAt(disk, p).id == GLOSSARY.id)
    requires (p == DOMAINS.path ==> PageAt(disk, p).id == DOMAINS.id)
    ensures var after := Pass(disk, t, now, cfg).files; Parses(after, p) && PageAt(after, p).id == PageAt(disk, p).id
  {
    PassOffSlots(disk, t, now, cfg);
    PassRendersSlots(disk, t, now, cfg);
  }

  lemma TwoFilesStay(files: Files, t: Tables, now: int, cfg: Config, path: string, target: string, page: Page)
    requires Sound(files) && Parses(files, path) && PageAt(files, path).id == page.id
    requires path != target && !IsSlotPath(target)
    ensures !UniqueIds(Pass(files[target := Print(page)], t, now, cfg).files)
  {
    var disk := files[target := Print(page)];
    assert PageAt(disk, path) == PageAt(files, path) && PageAt(disk, target) == page;
    PassKeepsIds(disk, t, now, cfg, path);
    PassKeepsIds(disk, t, now, cfg, target);
  }

  lemma AwayDuplicates(s: State, op: Op, now: int, cfg: Config, p: string)
    requires Sound(s.files) && op.WritePage? && Validate(op).None? && PlanOf(s.files, s.tables, op).Write?
    requires Parses(s.files, p) && PageAt(s.files, p).id == Effective(op).id
    requires p != TargetPath(op.page.kind, Effective(op).id)
    ensures !UniqueIds(Exec(s, op, now, cfg).0.files)
  {
    PlanTarget(s.files, s.tables, op);
    var plan := PlanOf(s.files, s.tables, op);
    PathIsNoSlot(op.page.kind, Effective(op).id);
    TwoFilesStay(s.files, s.tables, now, cfg, p, plan.path, plan.page);
    ExecWrites(s, op, now, cfg);
  }

  /** A `write_page` that goes through keeps the corpus sound and projected exactly when the page it writes, if the
      disk has it, lies at the path computed from its kind and id. The path is not looked up, so a changed kind
      puts a second file with the id beside the first, and so does a page that was placed by hand. */
  lemma WriteKeepsHealthyExactlyWhen(s: State, op: Op, now: int, cfg: Config)
    requires Healthy(s, cfg) && op.WritePage? && Validate(op).None? && PlanOf(s.files, s.tables, op).Write?
    ensures Healthy(Exec(s, op, now, cfg).0, cfg)
       <==> forall p | Parses(s.files, p) && PageAt(s.files, p).id == Effective(op).id ::
              p == TargetPath(op.page.kind, Effective(op).id)
  {
    if AtHome(s.files, op) {
      ExecKeepsHealthy(s, op, now, cfg);
    } else {
      var p :| Parses(s.files, p) && PageAt(s.files, p).id == Effective(op).id
               && p != TargetPath(op.page.kind, Effective(op).id);
      AwayDuplicates(s, op, now, cfg, p);
    }
  }

  /** Both ways to fail happen to an update of an indexed page: its kind differs from the page's,
      or the page was placed by hand. */
  lemma UpdateFailsBothWays(s: State, page: Page, path: string, now: int, cfg: Config)
    requires Healthy(s, cfg) && Validate(WritePage(page, Update, "")).None?
    requires Parses(s.files, path) && PageAt(s.files, path).id == page.id
    requires
      || (PageAt(s.files, path).kind != page.kind && !PageAt(s.files, path).kind.Index?
          && path == TargetPath(PageAt(s.files, path).kind, page.id))
      || (PageAt(s.files, path).kind == page.kind && path != TargetPath(page.kind, page.id))
    ensures Exec(s, WritePage(page, Update, ""), now, cfg).1 == Done(true)
    ensures !Healthy(Exec(s, WritePage(page, Update, ""), now, cfg).0, cfg)
  {
    HealthyIsLocated(s, cfg);
    assert HasId(s.files, page.id);
    ExecPlanned(s, WritePage(page, Update, ""), now, cfg);
    if PageAt(s.files, path).kind != page.kind {
      PathRoundTrip(page.kind, page.id);
      PathRoundTrip(PageAt(s.files, path).kind, page.id);
    }
    WriteKeepsHealthyExactlyWhen(s, WritePage(page, Update, ""), now, cfg);
  }
}
