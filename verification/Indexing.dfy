/** One indexer run as a function of the disk and the tables. */
module Indexing {
  import opened Model
  import opened OwnedRows
  import opened TextOrder
  import opened IndexPages
  import opened Projection

  // ---- scan ----

  datatype Scan = Scan(
    seen: set<string>, toIndex: seq<Parsed>,
    inserted: nat, updated: nat, skipped: nat, failures: seq<string>)

  const NO_SCAN := Scan({}, [], 0, 0, 0, [])

  /** The hash lookup that lets a file be skipped. */
  predicate Unchanged(known: map<string, Bytes>, page: Page, bytes: Bytes)
  {
    page.id in known && known[page.id] == bytes
  }

  function ScanFile(s: Scan, path: string, bytes: Bytes, known: map<string, Bytes>): Scan
  {
    match bytes.page
    case None => s.(failures := s.failures + [path])
    case Some(page) =>
      var noted := s.(seen := s.seen + {page.id});
      if Unchanged(known, page, bytes) then noted.(skipped := s.skipped + 1)
      else
        var queued := noted.(toIndex := s.toIndex + [Parsed(path, bytes, page)]);
        if page.id in known then queued.(updated := s.updated + 1)
        else queued.(inserted := s.inserted + 1)
  }

  function ScanFiles(files: Files, paths: seq<string>, known: map<string, Bytes>): Scan
    requires forall p | p in paths :: p in files
  {
    if paths == [] then NO_SCAN
    else
      var last := paths[|paths| - 1];
      assert forall p | p in paths[..|paths| - 1] :: p in paths;
      ScanFile(ScanFiles(files, paths[..|paths| - 1], known), last, files[last], known)
  }

  // ---- sweep ----

  function Sweep(t: Tables, stale: set<string>): Tables
  {
    Tables(t.pages - stale, t.embeddings - stale, Without(t.links, stale), Without(t.claims, stale))
  }

  // ---- regeneration of the index pages ----

  function SlotParsed(slot: Slot, entries: seq<Entry>, cfg: Config): Parsed
  {
    Parsed(slot.path, Content(slot, entries, cfg), IndexPage(slot, entries, cfg))
  }

  predicate Matches(files: Files, p: Parsed)
  {
    p.path in files && files[p.path] == p.bytes
  }

  /** A file that already reads as wanted is left alone; otherwise it is written and queued. */
  function WriteIfChanged(files: Files, p: Parsed): (Files, seq<Parsed>)
  {
    if Matches(files, p) then (files, []) else (files[p.path := p.bytes], [p])
  }

  function Regenerate(files: Files, pages: map<string, PageRow>, cfg: Config): (Files, seq<Parsed>)
  {
    var (withGlossary, first) := WriteIfChanged(files, SlotParsed(GLOSSARY, Entries(pages, Glossary), cfg));
    var (withDomains, second) := WriteIfChanged(withGlossary, SlotParsed(DOMAINS, Entries(pages, Domains), cfg));
    (withDomains, first + second)
  }

  // ---- a run ----

  datatype Report = Report(
    scanned: nat, inserted: nat, updated: nat, skipped: nat, deleted: nat, failures: seq<string>)

  datatype Outcome = Outcome(files: Files, tables: Tables, report: Report, rewritten: seq<Parsed>)

  function Hashes(t: Tables, full: bool): map<string, Bytes>
  {
    if full then map[] else map id | id in t.pages :: t.pages[id].contentHash
  }

  /** The tables after the scan, the sweep and the first projection. */
  function Indexed(files: Files, paths: seq<string>, t: Tables, full: bool, now: int, cfg: Config): Tables
    requires forall p | p in paths :: p in files
  {
    var known := Hashes(t, full);
    var s := ScanFiles(files, paths, known);
    Project(Sweep(t, known.Keys - s.seen), s.toIndex, now, cfg)
  }

  /** A run over `paths`: every file for a whole-corpus pass, a prefix of them when the run is
      cancelled, one file for a targeted re-index. `full` skips the hash lookup, which also
      empties the set the sweep works from. */
  function Run(files: Files, paths: seq<string>, t: Tables, full: bool, now: int, cfg: Config): Outcome
    requires forall p | p in paths :: p in files
  {
    var known := Hashes(t, full);
    var s := ScanFiles(files, paths, known);
    var indexed := Indexed(files, paths, t, full, now, cfg);
    var (rewrittenFiles, changed) := Regenerate(files, indexed.pages, cfg);
    Outcome(rewrittenFiles, Project(indexed, changed, now, cfg),
            Report(|paths|, s.inserted, s.updated, s.skipped, |known.Keys - s.seen|, s.failures),
            changed)
  }

  /** The incremental pass every write handler triggers. */
  function Pass(files: Files, t: Tables, now: int, cfg: Config): Outcome
  {
    Run(files, Sorted(files.Keys), t, false, now, cfg)
  }

  /** `reindex_all`: drop the tables, recreate them empty, index everything. */
  function Rebuild(files: Files, now: int, cfg: Config): Outcome
  {
    Run(files, Sorted(files.Keys), NO_TABLES, true, now, cfg)
  }

  // ---- what the tables should be ----

  ghost predicate HasId(files: Files, id: string)
  {
    exists p :: Parses(files, p) && PageAt(files, p).id == id
  }

  function ParsedAt(files: Files, path: string): Parsed
    requires Parses(files, path)
  {
    Parsed(path, files[path], PageAt(files, path))
  }

  /** The tables hold the projection of the disk and nothing else, timestamps aside. */
  ghost predicate Projected(files: Files, t: Tables, cfg: Config)
  {
    && (forall p | Parses(files, p) :: Faithful(t, ParsedAt(files, p), cfg))
    && (forall id :: HasId(files, id) || EmptyAt(t, id))
  }

  ghost predicate UniqueIds(files: Files)
  {
    forall p, q | Parses(files, p) && Parses(files, q) && PageAt(files, p).id == PageAt(files, q).id :: p == q
  }

  /** What the indexer relies on: no id is used twice, the two slots hold their own index pages
      if they parse, no other file uses a slot id, and index pages carry no claims. */
  ghost predicate Sound(files: Files)
  {
    && UniqueIds(files)
    && (forall p | Parses(files, p) ::
          var page := PageAt(files, p);
          && (IsSlotPath(p) ==> page.kind.Index?)
          && (p == GLOSSARY.path <==> page.id == GLOSSARY.id)
          && (p == DOMAINS.path <==> page.id == DOMAINS.id)
          && (page.kind.Index? ==> page.claims == []))
  }

  /** Rows under the two slot ids, if any, are index rows. */
  ghost predicate SlotRowsSane(t: Tables)
  {
    forall id | id in t.pages && IsSlotId(id) :: t.pages[id].kind.Index?
  }

  // ---- the index pages a disk calls for ----

  ghost predicate FlaggedConcept(files: Files, flag: Flag, path: string)
  {
    Parses(files, path) && PageAt(files, path).kind.Concept? && HasFlag(PageAt(files, path), flag)
  }

  ghost function FlaggedIds(files: Files, flag: Flag): set<string>
  {
    set p | p in files && FlaggedConcept(files, flag, p) :: PageAt(files, p).id
  }

  ghost function PageById(files: Files, id: string): Page
    requires HasId(files, id)
  {
    var p :| Parses(files, p) && PageAt(files, p).id == id;
    PageAt(files, p)
  }

  ghost function EntryById(files: Files, id: string): Entry
  {
    if HasId(files, id) then
      var page := PageById(files, id);
      Entry(id, page.title, page.body, page.domains)
    else Entry(id, "", "", [])
  }

  ghost function EntriesOf(files: Files, ids: seq<string>): seq<Entry>
  {
    seq(|ids|, i requires 0 <= i < |ids| => EntryById(files, ids[i]))
  }

  ghost function DiskEntries(files: Files, flag: Flag): seq<Entry>
  {
    EntriesOf(files, Sorted(FlaggedIds(files, flag)))
  }

  ghost function WantedContent(files: Files, slot: Slot, cfg: Config): Bytes
  {
    Content(slot, DiskEntries(files, slot.flag), cfg)
  }

  /** The disk with both index pages as its own concept pages call for. */
  ghost function Settled(files: Files, cfg: Config): Files
  {
    files[GLOSSARY.path := WantedContent(files, GLOSSARY, cfg)][DOMAINS.path := WantedContent(files, DOMAINS, cfg)]
  }
}
