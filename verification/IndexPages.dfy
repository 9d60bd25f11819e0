/** The two index pages the indexer keeps on disk, rendered from the `pages` table. */
module IndexPages {
  import opened Model
  import opened TextOrder

  datatype Flag = Glossary | Domains

  /** A canonical index page: where it lives, its id and title, and the concept flag it lists. */
  datatype Slot = Slot(path: string, id: string, title: string, flag: Flag)

  const GLOSSARY := Slot("pages/glossary.md", "idx-glossary", "Glossary", Glossary)
  const DOMAINS := Slot("pages/domains.md", "idx-domains", "Domains", Domains)

  predicate IsSlotPath(path: string)
  {
    path == GLOSSARY.path || path == DOMAINS.path
  }

  predicate IsSlotId(id: string)
  {
    id == GLOSSARY.id || id == DOMAINS.id
  }

  function FlagName(flag: Flag): string
  {
    if flag.Glossary? then "glossary" else "is_domain"
  }

  predicate HasFlag(page: Page, flag: Flag)
  {
    match flag
    case Glossary => page.glossary
    case Domains => page.isDomain
  }

  // ---- entries ----

  datatype Entry = Entry(id: string, title: string, body: string, domains: seq<string>)

  predicate AscendingById(entries: seq<Entry>)
  {
    forall i, j | 0 <= i < j < |entries| :: entries[i].id != entries[j].id && Le(entries[i].id, entries[j].id)
  }

  predicate Listed(pages: map<string, PageRow>, flag: Flag, id: string)
  {
    id in pages && pages[id].kind.Concept? && HasFlag(pages[id].frontmatter, flag)
  }

  function EntryOf(id: string, row: PageRow): Entry
  {
    Entry(id, row.title, row.body, row.frontmatter.domains)
  }

  function ListedIds(pages: map<string, PageRow>, flag: Flag): set<string>
  {
    set id | id in pages && Listed(pages, flag, id)
  }

  /** The entries of these rows, in this order. */
  function EntriesFor(pages: map<string, PageRow>, ids: seq<string>): seq<Entry>
    requires forall id | id in ids :: id in pages
  {
    seq(|ids|, i requires 0 <= i < |ids| => assert ids[i] in ids; EntryOf(ids[i], pages[ids[i]]))
  }

  /** The bucket of a flag: one entry for each flagged concept row, in id order. */
  function Entries(pages: map<string, PageRow>, flag: Flag): seq<Entry>
  {
    EntriesFor(pages, Sorted(ListedIds(pages, flag)))
  }

  // ---- rendering ----

  /** What a server is configured with: the embedding model, and the layout of an index page's
      text, which may be any function of the slot and its entries. */
  datatype Config = Config(model: string, layout: (Slot, seq<Entry>) -> string)

  function IndexPage(slot: Slot, entries: seq<Entry>, cfg: Config): Page
  {
    Page(slot.id, Index, slot.title, cfg.layout(slot, entries), [], [], [], [], false, false, FlagName(slot.flag))
  }

  function Content(slot: Slot, entries: seq<Entry>, cfg: Config): Bytes
  {
    Print(IndexPage(slot, entries, cfg))
  }
}
