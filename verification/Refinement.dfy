/** When a run leaves the tables equal to the projection of the disk. */
module Refinement {
  import opened Model
  import opened TextOrder
  import opened IndexPages
  import opened Projection
  import opened Indexing
  import opened RunLemmas

  /** A slot whose file already reads as the disk's concept pages call for. */
  ghost predicate SlotSettled(files: Files, path: string, cfg: Config)
  {
    && (path == GLOSSARY.path ==> path in files && files[path] == WantedContent(files, GLOSSARY, cfg))
    && (path == DOMAINS.path ==> path in files && files[path] == WantedContent(files, DOMAINS, cfg))
  }

  /** The file is projected by the run, or kept by it with rows that already say what it says. */
  ghost predicate Covered(files: Files, paths: seq<string>, t: Tables, full: bool, path: string, cfg: Config)
    requires Parses(files, path)
  {
    || Queued(files, paths, t, full, path)
    || ((full || path in paths) && Faithful(t, ParsedAt(files, path), cfg))
  }

  /** What must hold before a run over `paths` for the tables to come out right:
      every parseable file (a slot counts only if the run will not rewrite it) is projected or
      already faithful, and every id with rows is on the disk, is a slot id, or will be swept. */
  ghost predicate Trusted(files: Files, paths: seq<string>, t: Tables, full: bool, cfg: Config)
  {
    && (forall p | Parses(files, p) && SlotSettled(files, p, cfg) :: Covered(files, paths, t, full, p, cfg))
    && (forall id :: EmptyAt(t, id) || HasId(files, id) || IsSlotId(id) || (!full && id in t.pages))
  }

  // ---- the index pages a table calls for and those the disk calls for ----

  ghost predicate ConceptRow(pages: map<string, PageRow>, id: string)
  {
    id in pages && pages[id].kind.Concept?
  }

  ghost predicate ConceptFile(files: Files, path: string)
  {
    Parses(files, path) && PageAt(files, path).kind.Concept?
  }

  /** The concept rows are the concept pages on the disk. */
  ghost predicate ConceptsAgree(files: Files, pages: map<string, PageRow>)
  {
    && (forall p | ConceptFile(files, p) ::
          var page := PageAt(files, p);
          ConceptRow(pages, page.id) && RowMatches(pages[page.id], ParsedAt(files, p)))
    && (forall id | ConceptRow(pages, id) :: exists p :: ConceptFile(files, p) && PageAt(files, p).id == id)
  }

  lemma ListedIsFlagged(files: Files, pages: map<string, PageRow>, flag: Flag, id: string)
    requires UniqueIds(files) && ConceptsAgree(files, pages)
    ensures Listed(pages, flag, id) <==> id in FlaggedIds(files, flag)
  {
    if Listed(pages, flag, id) {
      assert ConceptRow(pages, id);
      var p :| ConceptFile(files, p) && PageAt(files, p).id == id;
      assert FlaggedConcept(files, flag, p);
    }
    if id in FlaggedIds(files, flag) {
      var p :| p in files && FlaggedConcept(files, flag, p) && PageAt(files, p).id == id;
      assert ConceptFile(files, p);
    }
  }

  lemma ListedEntry(files: Files, pages: map<string, PageRow>, id: string)
    requires UniqueIds(files) && ConceptsAgree(files, pages) && ConceptRow(pages, id)
    ensures EntryOf(id, pages[id]) == EntryById(files, id)
  {
    var p :| ConceptFile(files, p) && PageAt(files, p).id == id;
    assert HasId(files, id) && PageById(files, id) == PageAt(files, p);
  }

  lemma EntriesAre(files: Files, pages: map<string, PageRow>, ids: seq<string>)
    requires forall id | id in ids :: id in pages && EntryOf(id, pages[id]) == EntryById(files, id)
    ensures EntriesFor(pages, ids) == EntriesOf(files, ids)
  {
    forall i | 0 <= i < |ids| ensures EntriesFor(pages, ids)[i] == EntriesOf(files, ids)[i] {
      assert ids[i] in ids;
    }
  }

  lemma EntriesMatch(files: Files, pages: map<string, PageRow>, flag: Flag)
    requires UniqueIds(files) && ConceptsAgree(files, pages)
    ensures Entries(pages, flag) == DiskEntries(files, flag)
  {
    forall id ensures id in ListedIds(pages, flag) <==> id in FlaggedIds(files, flag) {
      ListedIsFlagged(files, pages, flag, id);
    }
    assert ListedIds(pages, flag) == FlaggedIds(files, flag);
    var ids := Sorted(ListedIds(pages, flag));
    forall id | id in ids ensures EntryOf(id, pages[id]) == EntryById(files, id) {
      ListedEntry(files, pages, id);
    }
    EntriesAre(files, pages, ids);
  }

  // ---- what a run does, one fact for each id and each slot ----

  ghost predicate QueuedId(files: Files, paths: seq<string>, t: Tables, full: bool, id: string)
  {
    exists p :: Queued(files, paths, t, full, p) && PageAt(files, p).id == id
  }

  /** `mid` is `t` with the queued files projected, the stale ids swept and everything else kept. */
  ghost predicate ScannedInto(files: Files, paths: seq<string>, t: Tables, full: bool, mid: Tables, cfg: Config)
  {
    && (forall p | Queued(files, paths, t, full, p) :: Faithful(mid, ParsedAt(files, p), cfg))
    && (forall id | !QueuedId(files, paths, t, full, id) ::
          if Swept(files, paths, t, full, id) then EmptyAt(mid, id) else AgreeAt(t, mid, id))
  }

  /** The slot reads as the rows of `mid` call for; if it had to be rewritten it was projected again. */
  ghost predicate SlotRendered(files: Files, mid: Tables, disk: Files, after: Tables, slot: Slot, cfg: Config)
  {
    var wanted := SlotParsed(slot, Entries(mid.pages, slot.flag), cfg);
    && Matches(disk, wanted)
    && KeptOrProjected(files, mid, after, wanted, cfg)
  }

  ghost predicate RenderedInto(files: Files, mid: Tables, disk: Files, after: Tables, cfg: Config)
  {
    && SlotRendered(files, mid, disk, after, GLOSSARY, cfg)
    && SlotRendered(files, mid, disk, after, DOMAINS, cfg)
    && (forall p | !IsSlotPath(p) :: (p in disk <==> p in files) && (p in files ==> disk[p] == files[p]))
    && (forall id | !IsSlotId(id) :: AgreeAt(mid, after, id))
  }

  lemma IndexedScans(files: Files, paths: seq<string>, t: Tables, full: bool, now: int, cfg: Config)
    requires Reachable(files, paths) && UniqueIds(files)
    ensures ScannedInto(files, paths, t, full, Indexed(files, paths, t, full, now, cfg), cfg)
  {
    forall p | Queued(files, paths, t, full, p)
      ensures Faithful(Indexed(files, paths, t, full, now, cfg), ParsedAt(files, p), cfg)
    {
      IndexedHit(files, paths, t, full, now, cfg, p);
    }
    forall id | !QueuedId(files, paths, t, full, id)
      ensures if Swept(files, paths, t, full, id) then EmptyAt(Indexed(files, paths, t, full, now, cfg), id)
              else AgreeAt(t, Indexed(files, paths, t, full, now, cfg), id)
    {
      IndexedMiss(files, paths, t, full, now, cfg, id);
    }
  }

  ghost predicate KeptOrProjected(files: Files, mid: Tables, after: Tables, p: Parsed, cfg: Config)
  {
    if Matches(files, p) then AgreeAt(mid, after, p.page.id) else Faithful(after, p, cfg)
  }

  lemma StaleIsProjected(files: Files, mid: Tables, g: Parsed, d: Parsed, p: Parsed, now: int, cfg: Config)
    requires g.page.id != d.page.id && (p == g || p == d)
    ensures KeptOrProjected(files, mid, Project(mid, Stale(files, g) + Stale(files, d), now, cfg), p, cfg)
  {
    if Matches(files, p) {
      StaleMiss(mid, files, g, d, now, cfg, p.page.id);
    } else {
      StaleHit(mid, files, g, d, now, cfg, p);
    }
  }

  lemma StaleAreProjected(files: Files, mid: Tables, g: Parsed, d: Parsed, now: int, cfg: Config)
    requires g.page.id != d.page.id
    ensures var after := Project(mid, Stale(files, g) + Stale(files, d), now, cfg);
            && KeptOrProjected(files, mid, after, g, cfg)
            && KeptOrProjected(files, mid, after, d, cfg)
            && forall id | id != g.page.id && id != d.page.id :: AgreeAt(mid, after, id)
  {
    var after := Project(mid, Stale(files, g) + Stale(files, d), now, cfg);
    forall id | id != g.page.id && id != d.page.id ensures AgreeAt(mid, after, id) {
      StaleMiss(mid, files, g, d, now, cfg, id);
    }
    StaleIsProjected(files, mid, g, d, g, now, cfg);
    StaleIsProjected(files, mid, g, d, d, now, cfg);
  }

  lemma WrittenAre(files: Files, g: Parsed, d: Parsed)
    requires g.path != d.path
    ensures var disk := files[g.path := g.bytes][d.path := d.bytes];
            && Matches(disk, g) && Matches(disk, d)
            && forall p | p != g.path && p != d.path ::
                 (p in disk <==> p in files) && (p in files ==> disk[p] == files[p])
  {}

  lemma RendersBoth(files: Files, mid: Tables, disk: Files, after: Tables, g: Parsed, d: Parsed, cfg: Config)
    requires g == SlotParsed(GLOSSARY, Entries(mid.pages, Glossary), cfg)
    requires d == SlotParsed(DOMAINS, Entries(mid.pages, Domains), cfg)
    requires disk == files[g.path := g.bytes][d.path := d.bytes]
    requires KeptOrProjected(files, mid, after, g, cfg) && KeptOrProjected(files, mid, after, d, cfg)
    requires forall id | id != g.page.id && id != d.page.id :: AgreeAt(mid, after, id)
    ensures RenderedInto(files, mid, disk, after, cfg)
  {
    SlotsDiffer();
    WrittenAre(files, g, d);
  }

  lemma RegenerateRenders(files: Files, mid: Tables, now: int, cfg: Config)
    ensures var regenerated := Regenerate(files, mid.pages, cfg);
            RenderedInto(files, mid, regenerated.0, Project(mid, regenerated.1, now, cfg), cfg)
  {
    var g := SlotParsed(GLOSSARY, Entries(mid.pages, Glossary), cfg);
    var d := SlotParsed(DOMAINS, Entries(mid.pages, Domains), cfg);
    SlotsDiffer();
    StaleAreProjected(files, mid, g, d, now, cfg);
    RegenerateShape(files, mid.pages, cfg);
    var after := Project(mid, Stale(files, g) + Stale(files, d), now, cfg);
    RendersBoth(files, mid, files[g.path := g.bytes][d.path := d.bytes], after, g, d, cfg);
  }

  // ---- facts common to both directions ----

  /** Rows under a slot id stay index rows. */
  lemma SlotRowsStaySane(files: Files, paths: seq<string>, t: Tables, full: bool, mid: Tables, cfg: Config)
    requires Sound(files) && SlotRowsSane(t) && ScannedInto(files, paths, t, full, mid, cfg)
    ensures SlotRowsSane(mid)
  {
    forall id | id in mid.pages && IsSlotId(id) ensures mid.pages[id].kind.Index? {
      if QueuedId(files, paths, t, full, id) {
        var p :| Queued(files, paths, t, full, p) && PageAt(files, p).id == id;
        assert Faithful(mid, ParsedAt(files, p), cfg);
      } else {
        assert EmptyAt(mid, id) || AgreeAt(t, mid, id);
      }
    }
  }

  /** With the concept rows right, each slot is rendered as the disk calls for. */
  lemma SlotsCome(files: Files, mid: Tables, disk: Files, after: Tables, cfg: Config)
    requires UniqueIds(files) && ConceptsAgree(files, mid.pages) && RenderedInto(files, mid, disk, after, cfg)
    ensures disk == Settled(files, cfg)
    ensures forall slot | slot == GLOSSARY || slot == DOMAINS ::
              Entries(mid.pages, slot.flag) == DiskEntries(files, slot.flag)
  {
    EntriesMatch(files, mid.pages, Glossary);
    EntriesMatch(files, mid.pages, Domains);
    SlotsDiffer();
    var settled := Settled(files, cfg);
    forall p ensures (p in disk <==> p in settled) && (p in disk ==> disk[p] == settled[p]) {
      if !IsSlotPath(p) { assert p in disk <==> p in files; }
    }
  }

  // ---- sufficiency ----

  lemma CoveredIsFaithful(
    files: Files, paths: seq<string>, t: Tables, full: bool, mid: Tables, cfg: Config, path: string)
    requires UniqueIds(files) && ScannedInto(files, paths, t, full, mid, cfg)
    requires Parses(files, path) && Covered(files, paths, t, full, path, cfg)
    ensures Faithful(mid, ParsedAt(files, path), cfg)
  {
    var id := PageAt(files, path).id;
    if !Queued(files, paths, t, full, path) {
      assert !QueuedId(files, paths, t, full, id);
      assert !Swept(files, paths, t, full, id);
      assert AgreeAt(t, mid, id);
    }
  }

  lemma UnknownIsEmpty(
    files: Files, paths: seq<string>, t: Tables, full: bool, mid: Tables, cfg: Config, id: string)
    requires ScannedInto(files, paths, t, full, mid, cfg) && Trusted(files, paths, t, full, cfg)
    requires !HasId(files, id) && !IsSlotId(id)
    ensures EmptyAt(mid, id)
  {
    assert !QueuedId(files, paths, t, full, id);
    if !Swept(files, paths, t, full, id) {
      assert AgreeAt(t, mid, id);
      assert EmptyAt(t, id);
    }
  }

  lemma TrustedConcepts(files: Files, paths: seq<string>, t: Tables, full: bool, mid: Tables, cfg: Config)
    requires Sound(files) && SlotRowsSane(mid)
    requires ScannedInto(files, paths, t, full, mid, cfg) && Trusted(files, paths, t, full, cfg)
    ensures ConceptsAgree(files, mid.pages)
  {
    forall p | ConceptFile(files, p)
      ensures ConceptRow(mid.pages, PageAt(files, p).id)
      ensures RowMatches(mid.pages[PageAt(files, p).id], ParsedAt(files, p))
    {
      CoveredIsFaithful(files, paths, t, full, mid, cfg, p);
    }
    forall id | ConceptRow(mid.pages, id)
      ensures exists p :: ConceptFile(files, p) && PageAt(files, p).id == id
    {
      assert !IsSlotId(id);
      if !HasId(files, id) {
        UnknownIsEmpty(files, paths, t, full, mid, cfg, id);
      } else {
        var p :| Parses(files, p) && PageAt(files, p).id == id;
        CoveredIsFaithful(files, paths, t, full, mid, cfg, p);
        assert ConceptFile(files, p);
      }
    }
  }

  lemma TrustedFile(
    files: Files, paths: seq<string>, t: Tables, full: bool, mid: Tables, disk: Files, after: Tables, cfg: Config,
    path: string)
    requires Sound(files) && ScannedInto(files, paths, t, full, mid, cfg) && Trusted(files, paths, t, full, cfg)
    requires ConceptsAgree(files, mid.pages) && RenderedInto(files, mid, disk, after, cfg)
    requires Parses(disk, path)
    ensures Faithful(after, ParsedAt(disk, path), cfg)
  {
    SlotsCome(files, mid, disk, after, cfg);
    if !IsSlotPath(path) || SlotSettled(files, path, cfg) {
      assert Parses(files, path) && ParsedAt(files, path) == ParsedAt(disk, path);
      CoveredIsFaithful(files, paths, t, full, mid, cfg, path);
      assert AgreeAt(mid, after, PageAt(files, path).id);
    }
  }

  lemma SlotIdsAreThere(files: Files, mid: Tables, disk: Files, after: Tables, cfg: Config, id: string)
    requires RenderedInto(files, mid, disk, after, cfg) && IsSlotId(id)
    ensures HasId(disk, id)
  {
    var slot := if id == GLOSSARY.id then GLOSSARY else DOMAINS;
    assert Parses(disk, slot.path) && PageAt(disk, slot.path).id == id;
  }

  lemma OtherIdsStay(files: Files, disk: Files, id: string)
    requires Sound(files) && !IsSlotId(id)
    requires forall p | !IsSlotPath(p) :: (p in disk <==> p in files) && (p in files ==> disk[p] == files[p])
    requires forall p | IsSlotPath(p) && Parses(disk, p) :: IsSlotId(PageAt(disk, p).id)
    ensures HasId(disk, id) <==> HasId(files, id)
  {
    if HasId(disk, id) {
      var p :| Parses(disk, p) && PageAt(disk, p).id == id;
      assert Parses(files, p);
    }
    if HasId(files, id) {
      var p :| Parses(files, p) && PageAt(files, p).id == id;
      assert Parses(disk, p);
    }
  }

  lemma HasSameIds(files: Files, mid: Tables, disk: Files, after: Tables, cfg: Config, id: string)
    requires Sound(files) && RenderedInto(files, mid, disk, after, cfg)
    ensures HasId(disk, id) <==> HasId(files, id) || IsSlotId(id)
  {
    if IsSlotId(id) {
      SlotIdsAreThere(files, mid, disk, after, cfg, id);
    } else {
      OtherIdsStay(files, disk, id);
    }
  }

  lemma TrustedSuffices(
    files: Files, paths: seq<string>, t: Tables, full: bool, mid: Tables, disk: Files, after: Tables, cfg: Config)
    requires Sound(files) && ScannedInto(files, paths, t, full, mid, cfg) && Trusted(files, paths, t, full, cfg)
    requires ConceptsAgree(files, mid.pages) && RenderedInto(files, mid, disk, after, cfg)
    ensures Projected(disk, after, cfg)
  {
    forall p | Parses(disk, p) ensures Faithful(after, ParsedAt(disk, p), cfg) {
      TrustedFile(files, paths, t, full, mid, disk, after, cfg, p);
    }
    forall id | !HasId(disk, id) ensures EmptyAt(after, id) {
      HasSameIds(files, mid, disk, after, cfg, id);
      UnknownIsEmpty(files, paths, t, full, mid, cfg, id);
      assert AgreeAt(mid, after, id);
    }
  }

  // ---- necessity ----

  lemma ProjectedConceptFile(files: Files, mid: Tables, disk: Files, after: Tables, cfg: Config, p: string)
    requires Sound(files) && RenderedInto(files, mid, disk, after, cfg) && Projected(disk, after, cfg)
    requires ConceptFile(files, p)
    ensures ConceptRow(mid.pages, PageAt(files, p).id)
    ensures RowMatches(mid.pages[PageAt(files, p).id], ParsedAt(files, p))
  {
    assert Parses(disk, p) && ParsedAt(files, p) == ParsedAt(disk, p);
    assert Faithful(after, ParsedAt(disk, p), cfg);
    assert AgreeAt(mid, after, PageAt(files, p).id);
  }

  lemma RowHasFile(disk: Files, t: Tables, cfg: Config, id: string) returns (p: string)
    requires Projected(disk, t, cfg) && id in t.pages
    ensures Parses(disk, p) && PageAt(disk, p).id == id && RowMatches(t.pages[id], ParsedAt(disk, p))
  {
    assert !EmptyAt(t, id);
    p :| Parses(disk, p) && PageAt(disk, p).id == id;
    assert Faithful(t, ParsedAt(disk, p), cfg);
  }

  lemma SlotsAreIndex(files: Files, mid: Tables, disk: Files, after: Tables, cfg: Config)
    requires RenderedInto(files, mid, disk, after, cfg)
    ensures forall p | IsSlotPath(p) && Parses(disk, p) :: PageAt(disk, p).kind.Index?
  {}

  lemma ProjectedConceptRow(files: Files, mid: Tables, disk: Files, after: Tables, cfg: Config, id: string)
    requires RenderedInto(files, mid, disk, after, cfg) && Projected(disk, after, cfg)
    requires ConceptRow(mid.pages, id) && !IsSlotId(id)
    ensures exists p :: ConceptFile(files, p) && PageAt(files, p).id == id
  {
    assert AgreeAt(mid, after, id);
    var p := RowHasFile(disk, after, cfg, id);
    SlotsAreIndex(files, mid, disk, after, cfg);
    assert ConceptFile(files, p);
  }

  lemma ProjectedConcepts(files: Files, mid: Tables, disk: Files, after: Tables, cfg: Config)
    requires Sound(files) && SlotRowsSane(mid) && RenderedInto(files, mid, disk, after, cfg)
    requires Projected(disk, after, cfg)
    ensures ConceptsAgree(files, mid.pages)
  {
    forall p | ConceptFile(files, p)
      ensures ConceptRow(mid.pages, PageAt(files, p).id)
      ensures RowMatches(mid.pages[PageAt(files, p).id], ParsedAt(files, p))
    {
      ProjectedConceptFile(files, mid, disk, after, cfg, p);
    }
    forall id | ConceptRow(mid.pages, id)
      ensures exists p :: ConceptFile(files, p) && PageAt(files, p).id == id
    {
      ProjectedConceptRow(files, mid, disk, after, cfg, id);
    }
  }

  lemma UncoveredIsUnfaithful(
    files: Files, paths: seq<string>, t: Tables, full: bool, mid: Tables, cfg: Config, path: string)
    requires UniqueIds(files) && ScannedInto(files, paths, t, full, mid, cfg)
    requires Parses(files, path) && Faithful(mid, ParsedAt(files, path), cfg)
    ensures Covered(files, paths, t, full, path, cfg)
  {
    if !Queued(files, paths, t, full, path) {
      var id := PageAt(files, path).id;
      assert !QueuedId(files, paths, t, full, id);
      assert !Swept(files, paths, t, full, id);
      assert AgreeAt(t, mid, id);
    }
  }

  lemma NeededFile(
    files: Files, paths: seq<string>, t: Tables, full: bool, mid: Tables, disk: Files, after: Tables, cfg: Config,
    path: string)
    requires Sound(files) && ScannedInto(files, paths, t, full, mid, cfg)
    requires ConceptsAgree(files, mid.pages) && RenderedInto(files, mid, disk, after, cfg)
    requires Projected(disk, after, cfg)
    requires Parses(files, path) && SlotSettled(files, path, cfg)
    ensures Covered(files, paths, t, full, path, cfg)
  {
    SlotsCome(files, mid, disk, after, cfg);
    assert Parses(disk, path) && ParsedAt(disk, path) == ParsedAt(files, path);
    assert AgreeAt(mid, after, PageAt(files, path).id);
    UncoveredIsUnfaithful(files, paths, t, full, mid, cfg, path);
  }

  lemma TrustedIsNeeded(
    files: Files, paths: seq<string>, t: Tables, full: bool, mid: Tables, disk: Files, after: Tables, cfg: Config)
    requires Sound(files) && ScannedInto(files, paths, t, full, mid, cfg)
    requires ConceptsAgree(files, mid.pages) && RenderedInto(files, mid, disk, after, cfg)
    requires Projected(disk, after, cfg)
    ensures Trusted(files, paths, t, full, cfg)
  {
    forall p | Parses(files, p) && SlotSettled(files, p, cfg) ensures Covered(files, paths, t, full, p, cfg) {
      NeededFile(files, paths, t, full, mid, disk, after, cfg, p);
    }
    forall id | !HasId(files, id) && !IsSlotId(id) && (full || id !in t.pages) ensures EmptyAt(t, id) {
      assert !QueuedId(files, paths, t, full, id) && !Swept(files, paths, t, full, id);
      assert AgreeAt(t, mid, id) && AgreeAt(mid, after, id);
      HasSameIds(files, mid, disk, after, cfg, id);
    }
  }

  // ---- the theorem ----

  /** A run, whatever its mode and however far it got, leaves the tables equal to the projection
      of the resulting disk exactly when the tables it started from could be trusted. */
  lemma RunRefinesProjection(files: Files, paths: seq<string>, t: Tables, full: bool, now: int, cfg: Config)
    requires Reachable(files, paths) && Sound(files) && SlotRowsSane(t)
    ensures var out := Run(files, paths, t, full, now, cfg);
            Projected(out.files, out.tables, cfg) <==> Trusted(files, paths, t, full, cfg)
    ensures Trusted(files, paths, t, full, cfg) ==> Run(files, paths, t, full, now, cfg).files == Settled(files, cfg)
  {
    var out := Run(files, paths, t, full, now, cfg);
    var mid := Indexed(files, paths, t, full, now, cfg);
    IndexedScans(files, paths, t, full, now, cfg);
    RegenerateRenders(files, mid, now, cfg);
    RunRefinesCore(files, paths, t, full, mid, out.files, out.tables, cfg);
  }

  lemma RunRefinesCore(
    files: Files, paths: seq<string>, t: Tables, full: bool, mid: Tables, disk: Files, after: Tables, cfg: Config)
    requires Sound(files) && SlotRowsSane(t)
    requires ScannedInto(files, paths, t, full, mid, cfg) && RenderedInto(files, mid, disk, after, cfg)
    ensures Projected(disk, after, cfg) <==> Trusted(files, paths, t, full, cfg)
    ensures Trusted(files, paths, t, full, cfg) ==> disk == Settled(files, cfg)
  {
    SlotRowsStaySane(files, paths, t, full, mid, cfg);
    if Trusted(files, paths, t, full, cfg) {
      TrustedConcepts(files, paths, t, full, mid, cfg);
      SlotsCome(files, mid, disk, after, cfg);
      TrustedSuffices(files, paths, t, full, mid, disk, after, cfg);
    }
    if Projected(disk, after, cfg) {
      ProjectedConcepts(files, mid, disk, after, cfg);
      TrustedIsNeeded(files, paths, t, full, mid, disk, after, cfg);
    }
  }
}
