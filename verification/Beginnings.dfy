/** Healthy corpora: the empty one, and how pages get into it. */
module Beginnings {
  import opened Model
  import opened IndexPages
  import opened Projection
  import opened Indexing
  import opened Runs
  import opened Steady
  import opened Stores
  import opened Address
  import opened Handlers
  import opened Keeping
  import opened EditLaws
  import opened Histories
  import opened Replies
  import opened BatchCommit
  import opened Rewrites
  import opened Commits

  lemma NothingIsSound()
    ensures Sound(map[])
  {}

  lemma OnlySlots(files: Files, disk: Files, id: string)
    requires files == map[] && SlotsOverwritten(files, disk) && HasId(disk, id)
    ensures IsSlotId(id)
  {
    var p :| Parses(disk, p) && PageAt(disk, p).id == id;
    assert IsSlotPath(p);
  }

  /** Indexing an empty directory gives a healthy corpus with the two index pages and nothing else. */
  lemma EmptyCorpus(now: int, cfg: Config) returns (s: State)
    ensures Healthy(s, cfg) && forall id | HasId(s.files, id) :: IsSlotId(id)
  {
    NothingIsSound();
    RestartIsHealthy(map[], NO_TABLES, now, cfg);
    var out := ReindexAll(map[], NO_TABLES, ALL_TABLES, now, cfg);
    s := State(out.files, out.tables);
    SettledOverwrites(map[], cfg);
    forall id | HasId(s.files, id) ensures IsSlotId(id) {
      OnlySlots(map[], s.files, id);
    }
  }

  lemma NewIdFits(files: Files, tables: Tables, op: Op)
    requires op.WritePage? && !HasId(files, Effective(op).id)
    ensures Fits(files, tables, op)
  {}

  lemma CreatePlans(s: State, op: Op, cfg: Config)
    requires Healthy(s, cfg) && op.WritePage? && op.mode == Create && Validate(op).None?
    requires ValidId(Effective(op).id) && !HasId(s.files, Effective(op).id)
    ensures PlanOf(s.files, s.tables, op) == Write(TargetPath(op.page.kind, Effective(op).id), Effective(op))
  {
    HealthyFacts(s, cfg);
    assert Effective(op).id !in s.tables.pages;
  }

  lemma MangledKeepsAlias(op: Op)
    requires op.WritePage? && IsSlugCreate(op)
    ensures op.page.id in Effective(op).aliases
  {}

  lemma RowSaysAliases(s: State, id: string, path: string, page: Page, cfg: Config)
    requires Healthy(s, cfg) && At(s, id, path, page)
    ensures s.tables.pages[id].aliases == page.aliases
  {
    assert Faithful(s.tables, ParsedAt(s.files, path), cfg);
  }

  /** A create with an unused id goes through: the page is on the disk under its canonical id and path, as the caller
      gave it but for a slug's unique id and alias, its row points there, and the id the caller gave stays one of its
      indexed aliases. */
  lemma CreateSucceeds(s: State, op: Op, now: int, cfg: Config)
    requires Healthy(s, cfg) && op.WritePage? && op.mode == Create && Validate(op).None?
    requires ValidId(Effective(op).id) && !HasId(s.files, Effective(op).id)
    ensures Exec(s, op, now, cfg).1 == Done(true)
    ensures Healthy(Exec(s, op, now, cfg).0, cfg)
    ensures At(Exec(s, op, now, cfg).0, Effective(op).id, TargetPath(op.page.kind, Effective(op).id), Effective(op))
    ensures var after := Exec(s, op, now, cfg).0.files;
            AsGiven(PageAt(after, TargetPath(op.page.kind, Effective(op).id)), op.page, Create, op.suffix)
    ensures IsSlugCreate(op) ==> op.page.id in Exec(s, op, now, cfg).0.tables.pages[Effective(op).id].aliases
  {
    EffectiveAsGiven(op);
    NewIdFits(s.files, s.tables, op);
    CreatePlans(s, op, cfg);
    PathIsNoSlot(op.page.kind, Effective(op).id);
    WriteIsAt(s, op, TargetPath(op.page.kind, Effective(op).id), Effective(op), now, cfg);
    if IsSlugCreate(op) {
      MangledKeepsAlias(op);
      RowSaysAliases(Exec(s, op, now, cfg).0, Effective(op).id, TargetPath(op.page.kind, Effective(op).id),
                     Effective(op), cfg);
    }
  }

  lemma MangledIsNoSlot(id: string, suffix: string)
    requires id != "" && IsSuffix(suffix)
    ensures !IsSlotId(Mangle(id, suffix))
  {
    assert |GLOSSARY.id| < 20 && |DOMAINS.id| < 20;
  }

  /** So for every page that can be created there is a healthy corpus that holds it. */
  lemma HealthyCorpusWith(op: Op, now: int, cfg: Config) returns (s: State)
    requires op.WritePage? && IsSlugCreate(op) && Validate(op).None? && IsSuffix(op.suffix)
    requires |op.page.id| <= 231 && op.page.id[|op.page.id| - 1] != '\n'
    ensures Healthy(s, cfg)
    ensures At(s, Effective(op).id, TargetPath(op.page.kind, Effective(op).id), Effective(op))
  {
    var empty := EmptyCorpus(now, cfg);
    MangledIsValid(op.page.id, op.suffix);
    MangledIsNoSlot(op.page.id, op.suffix);
    CreateSucceeds(empty, op, now, cfg);
    s := Exec(empty, op, now, cfg).0;
  }

  // ---- corpora with a page placed anywhere ----

  lemma OnePageIsSound(path: string, page: Page)
    requires !IsSlotPath(path) && !IsSlotId(page.id) && (page.kind.Index? ==> page.claims == [])
    ensures Sound(map[path := Print(page)])
  {}

  /** And for every page, at any path at all, there is a healthy corpus that holds it there. */
  lemma HealthyCorpusAt(path: string, page: Page, now: int, cfg: Config) returns (s: State)
    requires !IsSlotPath(path) && !IsSlotId(page.id) && (page.kind.Index? ==> page.claims == [])
    ensures Healthy(s, cfg) && At(s, page.id, path, page)
  {
    var files := map[path := Print(page)];
    OnePageIsSound(path, page);
    RestartIsHealthy(files, NO_TABLES, now, cfg);
    var out := ReindexAll(files, NO_TABLES, ALL_TABLES, now, cfg);
    s := State(out.files, out.tables);
    assert s.files[path] == files[path];
    AtStays(s, page.id, path, page, cfg);
  }

  lemma DropAndUpdateAdmitted(s: State, page: Page, c: Claim)
    requires Validate(WritePage(page, Update, "")).None? && c.id != "" && HasClaim(page.claims, c.id)
    requires At(s, page.id, TargetPath(page.kind, page.id), page)
    ensures Admitted(s, [WritePage(page.(claims := []), Update, ""), UpdateClaim(page.id, c.id, c)])
  {}

  /** The half-way stop happens: for every page with a claim there is a healthy corpus on which a batch that leaves the
      claim out of the page and then updates it stops in phase 3. */
  lemma DroppedClaimHappens(page: Page, c: Claim, now: int, later: int, cfg: Config) returns (s: State)
    requires Validate(WritePage(page, Update, "")).None? && !IsSlotId(page.id)
    requires c.id != "" && HasClaim(page.claims, c.id)
    ensures Healthy(s, cfg)
    ensures Batch(s, [WritePage(page.(claims := []), Update, ""), UpdateClaim(page.id, c.id, c)], later, cfg).1.Aborted?
  {
    PathIsNoSlot(page.kind, page.id);
    s := HealthyCorpusAt(TargetPath(page.kind, page.id), page, now, cfg);
    DropAndUpdateAdmitted(s, page, c);
    DroppedClaimStopsTheBatch(s, WritePage(page.(claims := []), Update, ""), UpdateClaim(page.id, c.id, c), later, cfg);
  }

  /** So does the duplicate: for every page kept anywhere but at its own path there is a healthy corpus that an update
      of that page, with its kind unchanged, leaves with two files of one id. */
  lemma HandPlacedHappens(path: string, page: Page, now: int, later: int, cfg: Config) returns (s: State)
    requires Validate(WritePage(page, Update, "")).None? && !IsSlotPath(path) && !IsSlotId(page.id)
    requires path != TargetPath(page.kind, page.id)
    ensures Healthy(s, cfg)
    ensures Exec(s, WritePage(page, Update, ""), later, cfg).1 == Done(true)
    ensures !UniqueIds(Exec(s, WritePage(page, Update, ""), later, cfg).0.files)
  {
    s := HealthyCorpusAt(path, page, now, cfg);
    ExecPlanned(s, WritePage(page, Update, ""), later, cfg);
    AwayDuplicates(s, WritePage(page, Update, ""), later, cfg, path);
  }
}
