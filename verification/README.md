# smalt-mcp: a Dafny model of the corpus, its index and the tools that write them

smalt-mcp keeps a corpus of markdown pages on disk and four LanceDB tables derived from it: `pages`,
`embeddings`, `links` and `claims`. The disk is canonical. This project models both stores as one state
machine, and proves when the derived store agrees with the canonical one: after one indexer run, after any
history of requests, crashes and edits, and under any interleaving of handlers; and when one pass repairs it. It also models the algorithms
around that core: breadth-first `traverse`, reciprocal rank fusion, trigram matching, the id grammar and
path map, SQL quoting, the background task scheduler, and double-checked initialisation.

`dafny verify dfyconfig.toml` checks the whole project.

## How the modules fit together

| modules | what they hold |
|---|---|
| `TextOrder`, `Selections`, `Model`, `OwnedRows`, `IndexPages`, `Projection`, `Indexing` | the data model, what it means to keep some elements of a list, and one indexer run as a function of the disk and the tables |
| `RunLemmas`, `Refinement`, `Runs`, `Steady`, `Fixpoint`, `Honesty`, `WrongRows` | when a run ends with the projection of the disk; rebuild, recovery, counters, creation times, the fixpoint; tables that lag behind the disk, and the crashes no pass repairs |
| `Contents` | what the tables and the index pages of a projected disk say, column by column, and what a run counts and stamps |
| `Stores`, `Indexers` | the store and the indexer as objects updated step by step, with a record of every intermediate state |
| `Address` | ids, paths, unique ids |
| `Handlers`, `Keeping`, `Rewrites`, `Replies`, `EditLaws`, `Requests`, `Removal` | the write handlers as functions, and what each does to its page, answers, keeps, undoes or loses |
| `Commits`, `Batches`, `BatchCommit`, `BulkEdits` | `write_batch` and the bulk requests against sequences of single requests |
| `Pending`, `Histories`, `Sites`, `Beginnings`, `Servers` | what may happen to a corpus no pass has caught up with; all histories of requests, crashes and edits, and where they start; missing tables; the handlers as methods with loops over the store |
| `Mutexes`, `Serial` | handlers as interleaved threads under the corpus mutex |
| `Traverse`, `Fusion`, `Trigrams`, `Quoting` | reading algorithms |
| `Schedulers`, `LazyInit`, `RunStatus` | the scheduler, `db()`/`embedder()`, and the status fields |

The central notions are:

- `Indexing.Projected(files, tables, cfg)`: the tables hold exactly what the parseable files say, timestamps
  aside, and nothing else. `Runs.ProjectionIsUnique` shows that a disk has one projection.
- `Indexing.Sound(files)`: no id is used twice; the two index page slots (`pages/glossary.md`, `pages/domains.md`)
  hold index pages with their own ids if they parse, and no other file uses those ids; index pages have no claims.
  A slot file of another kind, or an index page with claims, is outside the model: the first is listed among the
  entries of the very page it is, the second makes the claim row builder raise.
- `Indexing.SlotRowsSane(tables)`: page rows under the two slot ids, if any, are index rows. It is asked of tables that
  are otherwise arbitrary. The projection of a sound disk has it, and every run keeps it: `Fixpoint.RunKeepsSlotRows`.
- `Refinement.Trusted(files, paths, tables, full, cfg)`: every file is projected by the run or already projected,
  and every id with rows is on the disk, is a slot id, or will be swept.
- `Keeping.Healthy(state, cfg)`: a sound disk, tables that are its projection, and index pages rendered from its
  concept pages. Pages may lie at any path: no theorem asks a page to be where its id says. What a write asks of the
  page it writes is `Keeping.Fits`: if the disk has that page, it is at the path computed from kind and id.
- `Honesty.Honest(tables, cfg)`: what the tables hold under an id is what some file once said, and the page row tells
  which file, at which path. `Honesty.HashesInPlace`: no file holds bytes that are indexed under another path.
- `Pending.Recoverable(state, cfg)`: a sound disk and honest tables of which no indexed page has moved, though it may
  have been changed, overwritten or deleted. A crash, a batch cut short, a removal or an edit by hand leaves the corpus
  in such a state, and one pass makes it healthy: `Pending.PassRecovers`.
- `Selections.Picks(whole, at, kept)`: `kept` are the elements of `whole` at the positions `at`, in order. What a
  deletion, an edit, a query or a search keeps is told by positions and plain conditions on them, and
  `Selections.PicksAgree` shows that positions determine the list.
- `Handlers.AsGiven(written, given, mode, suffix)`: a written page is the page as given, but for the id and the alias of
  a slug create.

The laws of `Contents` and `Requests`, and those of `Schedulers` about single events, tell what the stores, a page or a
task look like afterwards in terms of their columns and fields alone, not of the functions the model computes them with.

Types stand for what the libraries do. A file is a `Bytes` value: a tag that tells byte strings apart, and the
page it parses to, if any. The value is its own content hash, so hashing is injective. The serializer writes bytes
that parse back to the page. The embedder is a free function of text and model name, and the layout of an index page
is any function of its entries. Unique suffixes, clock readings and the rows a limited query happens to return are
inputs. Scores and similarities are `real`.

## Where the code and its documentation differ

The model follows the code in each case.

- `Indexer.run(full=True)` is documented to sweep stale rows like a default run
  (`src/smalt_mcp/storage/indexer.py:171-173`). It starts from an empty set of known hashes (line 199), so it sweeps
  nothing: `Runs.FullRunSweepsNothing`. `reindex_all` is right because it drops the tables first, and
  wrong for rows of vanished pages in a table whose drop failed: `Runs.ReindexAllWithFailedDrops`.
- The comment at `src/smalt_mcp/mutex.py:59-62` says the holder's own lock prevents `locked` being seen with no
  holder. It does not: `Mutexes.LockedWithoutHolder` says exactly when it is seen, `Mutexes.LockedWithoutHolderHappens`
  that it is.
- The scheduler documents `finished_at` as unset until terminal (`src/smalt_mcp/scheduler.py:98-99`). A work function
  that dies of an exception outside `Exception` leaves its record running, finished, and never collected:
  `Schedulers.FatalTaskIsNeverCollected`.
- `add_claims` is documented as the batch form of `add_claim`. Its seen-set drops empty ids found on the page, so the
  two differ when an empty claim id is both on the page and in the list: `BulkEdits.BulkClaimsIsSequence`,
  `BulkEdits.EmptyIdIsAddedTwice`.
- The id patterns end in `$`, which accepts one trailing newline (`src/smalt_mcp/schema.py:58,62`). Such a slug is
  valid but its mangled form is not: `Address.MangledIsValid`.
- `search` checks its limit after adding a result, so a filtered search asked for none answers with one:
  `Fusion.NoneAskedOneGiven`.

## Model

| member | source | states |
|---|---|---|
| Refinement.RunRefinesProjection | src/smalt_mcp/storage/indexer.py:158-269 | From a sound disk and sane slot rows, a run in any mode (incremental, full, targeted, or cut short to a prefix of the files) ends with the tables equal to the projection of the disk it leaves exactly when what it started from could be trusted; then the disk is the old one with both index pages rendered from its concept pages. |
| Runs.IncrementalRefinesRebuild | src/smalt_mcp/storage/indexer.py:199-269 | Over a sound disk and sane slot rows, a hash-skipping pass ends with the disk and tables of a wipe and full rebuild, timestamps aside, exactly when the tables it started from could be trusted. |
| Runs.RebuildIsProjected | src/smalt_mcp/tools.py:3000-3032 | Wipe and full run over any sound disk give its projection. |
| Runs.ReindexAllRecovers | src/smalt_mcp/tools.py:2993-3040 | From any tables at all, a rebuild whose drops succeed ends with the projection of the disk and changes no file but the two index pages. |
| Runs.ReindexAllWithFailedDrops | src/smalt_mcp/tools.py:3003-3014 | Over a sound disk and sane slot rows, with any set of drops failing, the rebuild is right exactly when the rows left behind belong to ids still on the disk. |
| Runs.ProjectionIsUnique | src/smalt_mcp/storage/indexer.py:296-334 | Two tables that project one disk are equal up to timestamps and scan order. |
| Runs.SameTablesAreEqualBags | src/smalt_mcp/storage/lance.py:247-268 | Tables equal owner by owner hold the same rows with the same multiplicities. |
| Runs.FullRunSweepsNothing | src/smalt_mcp/storage/indexer.py:199-245 | A full run over tables that were not wiped keeps every row of an id that is no longer on the disk. |
| WrongRows.SkippedRowsSurvive | src/smalt_mcp/storage/indexer.py:223-227 | Everything under an id whose page row carries the file's hash stays as it is through any number of incremental passes, over any disks that keep the file and its id. |
| WrongRows.SkippedRowsAreNotRepaired | src/smalt_mcp/storage/indexer.py:223-227 | So rows that carry the hash but not the contents of the file stay wrong through all of them. |
| WrongRows.TornIsRepairedExactlyWhen | src/smalt_mcp/storage/indexer.py:316-334 | After a crash at any write of a projection, once the hashes are published, the next pass restores the projection exactly when each page of the batch that was not finished already had the vector, links and claims its file calls for; files outside the batch are taken to be in order. |
| WrongRows.StoppedRebuildIsRepairedExactlyWhen | src/smalt_mcp/tools.py:3003-3019 | After a rebuild cancelled between its drops and its run, an incremental pass restores the projection exactly when the page rows were dropped too, or what was dropped was empty. |
| WrongRows.HalfSweptIsRepairedExactlyWhen | src/smalt_mcp/storage/indexer.py:240-245 | After a crash inside a sweep (some vanished pages done, of one more the first `n` of four deletions made) the next pass restores the projection exactly when nothing of that page outlived its page row: the sweep looks for page rows only. |
| Honesty.HonestPassExactlyWhen | src/smalt_mcp/storage/indexer.py:213-245 | From honest tables, whatever was edited, added or deleted since, a pass ends with the projection of the disk exactly when no file was moved with its bytes unchanged. |
| Runs.CancelledPassDropsTheRest | src/smalt_mcp/storage/indexer.py:205-245 | A cancelled pass removes every row of each indexed page it did not reach. |
| Fixpoint.OnePassFixpoint | src/smalt_mcp/storage/indexer.py:223-265 | From a sound disk and any tables with sane slot rows, right or wrong: after one incremental pass a second one writes no file, changes no row and reports no insertion, update or deletion, although the first rewrote pages that are scanned too. |
| Fixpoint.PassesAreIdle | src/smalt_mcp/storage/indexer.py:223-265 | So does any number of further passes: what one pass left wrong stays wrong. |
| Fixpoint.RunKeepsSlotRows | src/smalt_mcp/storage/indexer.py:379-414 | A run in any mode keeps the disk sound and the slot rows sane. |
| Steady.TrustedPassIsQuiet | src/smalt_mcp/storage/indexer.py:158-269 | From tables that can be trusted one pass ends in the settled disk with its projection. |
| Steady.QuietPassIsIdle | src/smalt_mcp/storage/indexer.py:379-414 | On a settled disk with its projection indexed a pass is the identity. |
| Steady.PassAccounts | src/smalt_mcp/storage/indexer.py:196-245 | scanned = inserted + updated + skipped + failed, and the page rows grow by the inserted and newly created index pages less the deleted. |
| Steady.CreationTimeIsKept | src/smalt_mcp/storage/indexer.py:303-316 | A row keeps its first creation time over any sequence of runs, in any mode and over any disks, that does not delete it. |
| Steady.FailuresAreUnreadable | src/smalt_mcp/storage/indexer.py:212-219 | The failures of a run are exactly the files it scanned that do not parse. |
| Keeping.OutsideEditsAreIndexed | src/smalt_mcp/storage/indexer.py:213-245 | After arbitrary edits of the disk by hand, a pass restores the projection exactly when no page was moved with its bytes unchanged. |
| Refinement.EntriesMatch | src/smalt_mcp/storage/indexer.py:416-462 | The entries read from the `pages` table are those the concept files on disk call for. |
| Indexers.BucketIsEntries | src/smalt_mcp/storage/indexer.py:416-462 | Whatever the scan order, the sorted bucket of flagged rows is the list of entries in id order. |
| Indexers.InsertById | src/smalt_mcp/storage/indexer.py:456-461 | The sort of a bucket, one entry at a time: the bucket stays in id order and gains exactly the new entry. |
| Indexers.Indexer.CollectConceptEntries | src/smalt_mcp/storage/indexer.py:416-462 | The loop over table rows returns exactly the flagged concepts in id order. |
| Indexers.Indexer.FetchCreatedAt | src/smalt_mcp/storage/lance.py:285-308 | Exactly the known ids with a creation time, each with that time. |
| Indexers.Indexer.BuildRows | src/smalt_mcp/storage/indexer.py:301-323 | The row loop builds, keyed by id, for each page of the batch the row its file calls for, stamped now and with the known creation time or now, and the vector of the first 2000 characters of its body under the configured model. |
| Indexers.Indexer.ScanAll | src/smalt_mcp/storage/indexer.py:203-238 | The scan loop computes seen ids, queue, counters and failures of the specification. |
| Indexers.Indexer.SweepStale | src/smalt_mcp/storage/indexer.py:240-246 | Deleting stale ids one by one, in any order, removes exactly their rows from all four tables; every state on the way is one of the crash points of `WrongRows.HalfSweptIsRepairedExactlyWhen`. |
| Indexers.Indexer.Project | src/smalt_mcp/storage/indexer.py:296-334 | The batch is projected; every state on the way is one of the crash points of `WrongRows.TornIsRepairedExactlyWhen`, and in none does a page row point at a missing file. |
| Indexers.Indexer.RegenerateIndexPages | src/smalt_mcp/storage/indexer.py:379-414 | Slots whose files differ are rewritten and queued, others left alone. |
| Indexers.Indexer.Run | src/smalt_mcp/storage/indexer.py:158-269 | The imperative run ends in the state and report of `Indexing.Run`; if no page row was a phantom before it, none is after any single write of it. |
| Stores.Store.DeletePage | src/smalt_mcp/storage/indexer.py:336-346 | A page's rows leave all four tables in four steps, each of which the contract names: the page row first, then vector, links and claims, with no phantom row at any of them. |
| Stores.Store.ReplaceLinksForPage | src/smalt_mcp/storage/lance.py:247-257 | One page's links are replaced and no other page's: one delete, then one add if there is anything to add. |
| OwnedRows.OwnedByReplace | src/smalt_mcp/storage/lance.py:247-268 | Deleting one owner's rows and adding new ones changes what that owner has and nothing else. |
| OwnedRows.OwnedPicks | src/smalt_mcp/storage/lance.py:247-268 | What an owner has are the rows that name it, in table order. |
| OwnedRows.WithoutPicks | src/smalt_mcp/storage/lance.py:247-268 | A deletion by owner keeps exactly the other rows, in table order. |
| Projection.ProjectHit | src/smalt_mcp/storage/indexer.py:296-334 | Projecting a batch makes everything under a page's id what its file says: the creation time is kept or else now, the update time is now, and the vector is that of the first 2000 characters of the body under the configured model. |
| Projection.ProjectMiss | src/smalt_mcp/storage/indexer.py:296-334 | Projecting a batch changes nothing under other ids. |
| Projection.UpsertedRow | src/smalt_mcp/storage/indexer.py:486-510 | The page row a batch leaves, column by column, its two timestamps among them. |
| Projection.UpsertedVector | src/smalt_mcp/storage/indexer.py:554-557 | The vector a batch leaves is of a prefix of the body, as long as the body or 2000 characters, under the configured model. |
| Contents.ProjectedSays | src/smalt_mcp/storage/indexer.py:296-334 | In the projection of a disk each readable file has a row with its path, type, title, body, aliases, frontmatter and hash; the vector of the first 2000 characters of its body; and its links and claims as rows in their order on the page. |
| Contents.NothingElse | src/smalt_mcp/storage/indexer.py:240-246 | And no row of any of the four tables belongs to an id that no readable file has. |
| Contents.GlossaryLists | src/smalt_mcp/storage/indexer.py:379-462 | In a healthy corpus the glossary page lists exactly the concept pages marked for the glossary, each with its id, title, body and domains, in id order. |
| Contents.DomainsLists | src/smalt_mcp/storage/indexer.py:379-462 | And the domains page exactly those marked as domains. |
| Contents.PassCounts | src/smalt_mcp/storage/indexer.py:196-245 | A pass counts as inserted the readable files whose id had no row, as updated those whose row had another hash, as skipped those whose row had theirs, and as deleted the rows whose id no readable file has. |
| Contents.FailuresInOrder | src/smalt_mcp/storage/indexer.py:212-219 | The failures a run reports are the considered files that cannot be read, in the order they were considered. |
| Contents.RunStamps | src/smalt_mcp/storage/indexer.py:223-323 | Over any disk with unique ids and any tables: a considered page whose row carries its file's hash keeps that row, timestamps included, unless the run is a full one; any other gets a new row and vector with the time of the run. |
| TextOrder.Lexicographic | src/smalt_mcp/storage/indexer.py:456-461 | The order of ids: a text comes before those it begins, and else by the first character in which the two differ. |
| Address.PathRoundTrip | src/smalt_mcp/tools.py:186-205 | The target path of a valid page tells its kind and id back. |
| Address.PathsAreInjective | src/smalt_mcp/tools.py:186-205 | Two pages never share a target path. |
| Address.PathStaysInside | src/smalt_mcp/schema.py:100-154 | Below its type's directory every component of a page's path starts with a letter or digit. |
| Address.PathIsNoSlot | src/smalt_mcp/tools.py:186-205 | No page, whatever its id, is written where an index page lives. |
| Address.PathOfSlug | src/smalt_mcp/tools.py:186-205 | The page of a slug is the file of that name in `pages/entities`, `concepts`, `sources` or `syntheses`, by its kind. |
| Address.PathOfSection | src/smalt_mcp/tools.py:186-205 | The page of a section lies below a directory of its source's name. |
| Address.SectionExactly | src/smalt_mcp/schema.py:100-154 | An id of at most 254 characters is a valid section id exactly when it is a valid slug, two colons and a path of valid components: that there is only one separator follows. |
| Address.SlugExactly | src/smalt_mcp/schema.py:58-97 | A valid slug is up to 254 letters, digits, underscores and hyphens, starting with a letter or digit, with or without one newline after them, that are no device's name. |
| Address.ComponentExactly | src/smalt_mcp/schema.py:127-152 | A valid component is the same with dots allowed and without the limit, whose part before the first dot is no device's name. |
| Address.DeviceNamesAreReserved | src/smalt_mcp/schema.py:87-97 | The reserved names are the 22 device names, in any case. |
| Address.SplitJoins | src/smalt_mcp/schema.py:127-127 | Splitting a path cuts at every slash and nowhere else, and loses nothing. |
| Address.MangledIsValid | src/smalt_mcp/tools.py:1730-1772 | A mangled slug is a valid id exactly when the slug has at most 231 characters and no trailing newline. |
| Address.MangleRoundTrip | src/smalt_mcp/tools.py:1730-1737 | Slug and suffix can both be read back from a mangled id, so distinct suffixes give distinct ids. |
| Address.MangledIsNoSection | src/smalt_mcp/tools.py:1730-1737 | A mangled id is never taken for a section id. |
| Keeping.ExecKeepsHealthy | src/smalt_mcp/tools.py:1779-2400 | Every write handler takes a healthy corpus, with pages lying anywhere, to a healthy corpus, if a written page that exists lies at its computed path and claims go to pages that can hold them. |
| Keeping.PassRestores | src/smalt_mcp/storage/indexer.py:158-269 | After any edits that keep the disk sound and move no id, one pass restores the invariant. |
| Rewrites.WriteKeepsHealthyExactlyWhen | src/smalt_mcp/tools.py:1889-1898 | A `write_page` that goes through keeps the corpus healthy exactly when the page it writes, if the disk has it, lies at the path computed from its kind and id. |
| Rewrites.UpdateFailsBothWays | src/smalt_mcp/tools.py:1889-1898 | So an update fails in two ways, and is answered as done in both: with another kind than the page has, and with the same kind for a page placed by hand. |
| Beginnings.HandPlacedHappens | src/smalt_mcp/tools.py:1889-1898 | For every page kept anywhere but at its own path there is a healthy corpus that an update of it, its kind unchanged, leaves with two files of one id. |
| Replies.RepliesAreRight | src/smalt_mcp/tools.py:1779-2400 | In a healthy corpus every request is answered as the pages on disk call for (unknown ids and claims, collisions, duplicates, no-ops), although the handler asks the index; a refused request changes nothing. |
| Beginnings.EmptyCorpus | src/smalt_mcp/tools.py:2993-3040 | Indexing an empty directory gives a healthy corpus with the two index pages only. |
| Beginnings.CreateSucceeds | src/smalt_mcp/tools.py:1831-1886 | A create with an unused valid id goes through and leaves the page at its canonical path in both stores: as the caller gave it, but that a slug gets a hyphen and the unique part and becomes an alias if it was none; and it is among the indexed aliases. |
| Beginnings.HealthyCorpusWith | src/smalt_mcp/tools.py:1851-1886 | For every page that can be created there is a healthy corpus that holds it. |
| Beginnings.HealthyCorpusAt | src/smalt_mcp/storage/indexer.py:203-219 | For every page and every path outside the slots there is a healthy corpus that holds the page there. |
| EditLaws.WriteIsIndexed | src/smalt_mcp/tools.py:171-205 | A request that writes puts exactly its planned page on disk, the index says what that file says, and no other page file changes. |
| Requests.WritePageDoes | src/smalt_mcp/tools.py:1831-1898 | A `write_page` that goes through, creating or updating, leaves the page as the caller gave it, but for the id and alias of a slug create, at the path of its kind and id, and every other page file as it was. |
| Requests.AddLinkDoes | src/smalt_mcp/tools.py:2072-2131 | The link is put at the end unless one with its target and label is there; its source is not compared. A duplicate changes nothing. |
| Requests.AddClaimDoes | src/smalt_mcp/tools.py:2136-2194 | The claim is put at the end unless one with its id is there. |
| Requests.UpdateClaimDoes | src/smalt_mcp/tools.py:3174-3233 | The first claim with the id is replaced where it stands; without one the request is refused and changes nothing. |
| Requests.RemoveLinkDoes | src/smalt_mcp/tools.py:3287-3338 | Exactly the links that are to another target, or have another label if one is named, stay, in order; if they all do, nothing changes. |
| Requests.RemoveClaimDoes | src/smalt_mcp/tools.py:3238-3282 | Exactly the claims with another id stay, in order; if they all do, the request is refused. |
| Requests.AddLinksDoes | src/smalt_mcp/tools.py:2265-2304 | The links put at the end are, in order, those of the list that are not on the page nor earlier in the list, told by target and label. |
| Requests.AddClaimsDoes | src/smalt_mcp/tools.py:2364-2398 | The claims put at the end are, in order, those of the list whose id is not on the page, or is empty, and not earlier in the list. |
| Requests.ArgumentsFirst | src/smalt_mcp/tools.py:1779-2400 | Which arguments a request is refused for on any corpus, and what else it can be refused for. |
| Requests.ReindexPageDoes | src/smalt_mcp/tools.py:2881-2952 | Over any disk with unique ids and any tables: the three refusals of a targeted re-indexing; otherwise the one file's row and vector are new and nothing under another id changes but the index pages'. |
| Requests.RequestIsStamped | src/smalt_mcp/tools.py:171-205 | After a request that changes something every page file's row is the one before if that had the file's hash; else it carries the time of the request, and its creation time is the old one or, if there was none, that time. |
| EditLaws.RemoveUndoesAddClaim | src/smalt_mcp/tools.py:3238-3282 | `remove_claim` after `add_claim` of a new claim gives the page back. |
| EditLaws.UpdateBackUndoesUpdate | src/smalt_mcp/tools.py:3174-3233 | `update_claim` and an update back to the first claim with that id give the page back. |
| EditLaws.RemoveUndoesAddLink | src/smalt_mcp/tools.py:3287-3338 | `remove_link` after `add_link` gives the page back, of whatever kind, exactly when no other link of the page matches the removal. |
| Removal.RemoveKeepsProjection | src/smalt_mcp/tools.py:3102-3156 | After `remove_page` the tables are the projection of the disk exactly when no other page links to the removed one. |
| Removal.PassAfterRemove | src/smalt_mcp/tools.py:3139-3156 | The next pass does not bring dropped edges back: it ends with the projection exactly when there were none. |
| Removal.CutShortIsUndone | src/smalt_mcp/tools.py:3145-3156 | If the process stops after any number of the five row deletions and before the unlink, the next pass undoes the removal completely exactly when the edges into the page were not deleted yet or no other page links to it. |
| Removal.RemovedAt | src/smalt_mcp/tools.py:3139-3151 | What the cascade leaves under each id: nothing of the page, and of every other page all but its edges to it. |
| Requests.RemovePageDoes | src/smalt_mcp/tools.py:3102-3169 | On any corpus: the two refusals of a removal; otherwise the file of the row goes, with the page's row, vector and claims and all edges from it and to it, and nothing else; the edges that stay keep their order. |
| Removal.NotToPicks | src/smalt_mcp/tools.py:3145-3151 | The deletion of edges by target keeps exactly the rows with another target, in table order. |
| Batches.BatchIsSequence | src/smalt_mcp/tools.py:2647-2827 | On a healthy corpus, a committed batch whose writes go where their pages lie and overwrite no other page, with distinct unique ids, leaves the disk, and the tables apart from timestamps and order, that its requests leave when made one by one, each with its own pass. |
| Batches.BatchAnswersAreSequence | src/smalt_mcp/tools.py:2647-2833 | Then what the batch answers for a request is what the request answers when made on its own in its turn, unless it edits an index page. |
| Batches.IndexPageAnswersDiffer | src/smalt_mcp/tools.py:2721-2745 | Of two equal links for an index page the second is a duplicate in a batch and a change one by one. |
| Requests.BatchRejectsFaults | src/smalt_mcp/tools.py:2489-2574 | Phase 1 rejects a batch, on any corpus, at the first request that is of no batch kind or has arguments it would be refused for alone. |
| Requests.BatchRejectsAsAlone | src/smalt_mcp/tools.py:2578-2645 | On a healthy corpus phase 2 rejects a batch at the first request that would be refused if it were made alone now, for the same reason, and at none else; creates are not looked at. |
| Requests.BatchIsStamped | src/smalt_mcp/tools.py:2827-2833 | The same after a batch that commits. |
| Commits.CommitTracks | src/smalt_mcp/tools.py:2647-2824 | Over any sound disk, every disk the commit reaches is sound, every page on it was there under its id or was put at its own path by a request, and no page became an index page. |
| BatchCommit.CommitsExactlyWhen | src/smalt_mcp/tools.py:2647-2824 | Over any disk and tables, a non-empty batch that passes phases 1 and 2 commits exactly when every request goes: a slug create has a valid id that is not indexed, the file an edit reads exists and parses or was written by an earlier request, and a claim to update is there because the last earlier write to its file brought it along, an earlier request added it, or it was on the page before the batch. |
| BatchCommit.NeverHalfWay | src/smalt_mcp/tools.py:2578-2824 | If every indexed file exists and parses, slugs are short with unindexed unique ids, and no write of the batch goes to the file of a page whose claims it updates, a batch that passes phases 1 and 2 commits. |
| BatchCommit.DroppedClaimStopsTheBatch | src/smalt_mcp/tools.py:2801-2811 | A page write that leaves out a claim, followed by an update of that claim, stops in phase 3 whenever the two pass both checks. |
| BatchCommit.LongSlugStopsTheBatch | src/smalt_mcp/tools.py:2674 | A create with a slug of more than 231 characters passes both checks on any corpus and stops in phase 3. |
| Beginnings.DroppedClaimHappens | src/smalt_mcp/tools.py:2801-2811 | For every page with a claim there is a healthy corpus on which a batch that leaves the claim out and then updates it stops in phase 3. |
| BatchCommit.ClaimsFollow | src/smalt_mcp/tools.py:2783-2824 | At every point of the commit, over any disk and tables, a file holds a claim exactly when the request list, the index and the disk before the batch say so. |
| Histories.BatchCases | src/smalt_mcp/tools.py:2489-2827 | A rejected batch changes nothing; one stopped in phase 3 leaves the disk of some of its requests and the old tables. |
| Histories.AbortedBatchIsRepaired | src/smalt_mcp/tools.py:2801-2827 | A batch stopped half way leaves the tables as they were, and the next pass makes the corpus healthy. |
| BulkEdits.BulkClaimsAgree | src/smalt_mcp/tools.py:2364-2378 | The bulk claim loop agrees with folding the single request exactly when an empty id is not both on the page and in the list. |
| BulkEdits.BulkLinksIsSequence | src/smalt_mcp/tools.py:2265-2304 | `add_links` leaves the state of a batch of its links, and the disk and tables of the single requests. |
| BulkEdits.BulkClaimsIsSequence | src/smalt_mcp/tools.py:2364-2398 | `add_claims` leaves the files of the single requests, and then their tables too, exactly when an empty id is not both on the page and in the list. |
| BulkEdits.EmptyIdIsAddedTwice | src/smalt_mcp/tools.py:2364-2378 | The concrete case where they differ. |
| Servers.CollectLinks | src/smalt_mcp/tools.py:2265-2279 | The seen-key loop appends exactly what folding the single request appends; added + duplicates = length of the list. |
| Servers.CollectClaims | src/smalt_mcp/tools.py:2364-2378 | The seen-id loop, with its treatment of empty ids; added + duplicates = length of the list. |
| Servers.FindLink | src/smalt_mcp/tools.py:2107-2115 | The duplicate check of a single link. |
| Servers.FindClaim | src/smalt_mcp/tools.py:2797-2800 | The position of the first claim with the id, or none. |
| Servers.KeepLinks | src/smalt_mcp/tools.py:3317-3324 | Exactly the links that do not match stay, in order. |
| Servers.KeepClaims | src/smalt_mcp/tools.py:3260-3262 | Exactly the claims with another id stay, in order. |
| Servers.Server.Amend | src/smalt_mcp/tools.py:2092-2118 | The edit of each read-modify-write request, with its loops, is the planned one. |
| Servers.Server.PlanPage | src/smalt_mcp/tools.py:1831-1898 | The branches of `write_page`: section upsert, mangled create, update; what is written is the page as given but for the id and alias of a slug create, and where is the path of its kind and id. |
| Servers.Server.Call | src/smalt_mcp/tools.py:1779-2400 | One request run against the store ends in the state and reply of `Sites.RequestAt`, that is of `Handlers.Exec` unless the `pages` table is missing, with no phantom row after any write. |
| Servers.Server.ValidateAll | src/smalt_mcp/tools.py:2489-2574 | Phase 1 finds the first invalid request. |
| Servers.Server.CheckAll | src/smalt_mcp/tools.py:2580-2645 | Phase 2 finds the first request whose page or claim is missing. |
| Servers.Server.CommitEach | src/smalt_mcp/tools.py:2647-2824 | Phase 3 writes request by request, reading the index as it was before the batch. |
| Servers.Server.WriteBatch | src/smalt_mcp/tools.py:2420-2833 | The refusal of an empty or invalid list, the exception of a missing `pages` table, and the phases end in the state and reply of `Sites.BatchAt`, with no phantom row after any write. |
| Servers.Server.RemovePage | src/smalt_mcp/tools.py:3102-3169 | The cascade ends in the state of `Handlers.Remove` by way of the five states of `Removal.Cut` in order, and the unlink last; if no other row shares the file, at none of these does a page row point at a missing file. |
| Servers.HealthyIsUnshared | src/smalt_mcp/tools.py:3145-3156 | In a healthy corpus no two rows share a file, which is what the cascade needs. |
| Servers.Server.ReindexPage | src/smalt_mcp/tools.py:2881-2952 | Lookup by row, then by walking the files, then a targeted run. |
| Servers.Server.ReindexAll | src/smalt_mcp/tools.py:2993-3031 | Dropping the tables that can be dropped, creating the missing ones and a full run, for any set of failing drops; cancelled before the drops it changes nothing, cancelled after them it leaves those tables missing. |
| Sites.NothingWithoutPages | src/smalt_mcp/tools.py:1740-1752 | While the `pages` table is missing every request, batch, removal and targeted re-indexing is refused for its arguments or raises, and changes nothing. |
| Sites.RebuildAfterCancel | src/smalt_mcp/tools.py:2999-3031 | After a rebuild cancelled at either point, whatever it dropped, the next rebuild ends with all tables there and a healthy corpus, and no page file changed. |
| Histories.FindById | src/smalt_mcp/tools.py:2856-2877 | The first file in listing order that carries the id, or none if no file does. |
| Histories.ReindexPageRepairs | src/smalt_mcp/tools.py:2939-2945 | A targeted run restores the projection exactly when every other file already was projected and no rows are left over. |
| Histories.HistoryStaysHealthy | src/smalt_mcp/tools.py:1779-3340 | After any history of requests, batches, re-indexings, rebuilds and indexed hand edits, none cut short, the tables are the projection of the disk and the next pass is idle; pages may lie anywhere. |
| Histories.HistoryRecovers | src/smalt_mcp/tools.py:1779-3340 | After any history that also has removals of pages nothing links to, wiped tables, batches cut short, crashes between a file and its pass, and hand edits, deletions among them, that no pass has seen and that move no indexed page, one pass settles the disk and makes the corpus healthy. |
| Histories.BatchRecovers | src/smalt_mcp/tools.py:2647-2827 | However a batch ends, a corpus that one pass would repair stays one; a batch that commits repairs it itself. |
| Pending.PassRecovers | src/smalt_mcp/storage/indexer.py:158-269 | From honest tables of which no indexed page has moved one pass makes the corpus healthy, whatever was changed or deleted. |
| Pending.RequestRecovers | src/smalt_mcp/tools.py:171-205 | A request over tables that lag behind the disk keeps the corpus recoverable, and makes it healthy if it writes. |
| Pending.RemovalRecovers | src/smalt_mcp/tools.py:3139-3156 | So does a removal, if no other page has an edge to the page in the index. |
| Pending.TargetedRecovers | src/smalt_mcp/tools.py:2939-2945 | So does a targeted re-indexing, whether the file is readable and still holds that page or not, although it renders the index pages from rows that lag behind. |
| Histories.HealthyHasNoPhantom | src/smalt_mcp/tools.py:3145-3156 | A healthy corpus has no page row without its file. |
| Mutexes.MutualExclusion | src/smalt_mcp/mutex.py:71-85 | In every interleaving of any number of threads at most one is between acquire and release. |
| Mutexes.Serialisable | src/smalt_mcp/mutex.py:71-85 | In every interleaving, whatever states the stores pass through while a writer is at its writes, the final stores and all answers are those of the writers run one at a time in the order they finish. |
| Mutexes.SomeoneCanStep | src/smalt_mcp/mutex.py:71-85 | No deadlock. |
| Mutexes.EveryAcquisitionCounts | src/smalt_mcp/mutex.py:76-79 | The counter ends at one for each writer that took the mutex, and lock and holder end clear. |
| Mutexes.LockedWithoutHolder | src/smalt_mcp/mutex.py:57-96 | Locked with no holder is seen exactly between taking the lock and recording, or between clearing and releasing. |
| Mutexes.LockedWithoutHolderHappens | src/smalt_mcp/mutex.py:57-96 | One thread and one step suffice. |
| Serial.AloneIsEffect | src/smalt_mcp/tools.py:1779-3169 | The thread form of each handler, left alone, does what its specification says, on missing tables too. |
| Serial.HandlersSerialise | src/smalt_mcp/tools.py:2161-2184 | For any calls, `reindex_all` and its cancellations among them, and any interleaving, disk, index, missing tables and replies are those of some order of the calls. |
| Serial.ConcurrentClaimsSurvive | src/smalt_mcp/tools.py:2161-2184 | Concurrent `add_claim` calls with distinct new ids on one page all survive, each once, after the old claims. |
| Traverse.Search | src/smalt_mcp/tools.py:781-873 | Argument errors, with at most 5 hops; every edge is a row of the table that has the label asked for, if one was, and leaves a node nearer than `hops`, and every node is within `hops` matching links; all such rows, as often as the table has them, and all such nodes are there unless truncated; truncated exactly when 1000 matching rows or more leave the nodes at some distance less than `hops`. |
| Traverse.Hops | src/smalt_mcp/tools.py:825-864 | The same of the search loop, whichever rows a limited query returns. |
| Traverse.ReachIsDistance | src/smalt_mcp/tools.py:781-800 | The node set is that of walks of at most `k` links with the label asked for, if one was. |
| Traverse.Query | src/smalt_mcp/tools.py:834-852 | A hop's rows: at most 1000, each a row of the table that leaves the frontier and has the label asked for, if one was; all of them if they are fewer than 1000. |
| Fusion.Fuse | src/smalt_mcp/tools.py:931-937 | Every id that occurs, once, with exactly the sum of 1/(60 + rank) over its occurrences, in descending order, ties by first appearance. |
| Fusion.TiesKeepAppearance | src/smalt_mcp/tools.py:931-937 | The order that ties keep: earlier lists first, and earlier places first in one list. |
| Fusion.TwoListsBeatOne | src/smalt_mcp/tools.py:931-937 | In lists without repeats an id ranked 61st or better by two of them beats every id of only one. |
| Fusion.TwoAtSixtyTwoOnlyTie | src/smalt_mcp/tools.py:931-937 | Ranked 62nd by both of its lists an id only ties with one that a single list ranks first, and ranked worse it loses. |
| Fusion.Results | src/smalt_mcp/tools.py:1184-1292 | Unfiltered, a search for some results answers with those of the first `top_k` fused candidates that have a row, in order. Filtered, with the first `top_k` (at least one) of the first max(5·max(3k, k+5), 100) candidates that have a row and pass. |
| Fusion.AnswerIsUnique | src/smalt_mcp/tools.py:1229-1292 | Fused list, rows, filters and limit determine the answer. |
| Fusion.ShortAnswerIsComplete | src/smalt_mcp/tools.py:1268-1290 | A filtered answer shorter than asked has left out no candidate within that depth that has a row and passes. |
| Fusion.NoneAskedOneGiven | src/smalt_mcp/tools.py:1268-1290 | A filtered search for zero results answers with one exactly if a candidate passes. |
| Trigrams.BlockEdit | src/smalt_mcp/tools.py:1055-1082 | Replacing a block of m characters by n keeps the similarity of a text with d trigrams at (d-m-2)/(d+n+2) or more. |
| Trigrams.Substitution | src/smalt_mcp/tools.py:1055-1082 | One mistyped character: at least (d-3)/(d+3), so 12 trigrams meet the threshold. |
| Trigrams.Deletion | src/smalt_mcp/tools.py:1055-1082 | One missing character: at least (d-3)/(d+2), so 11 do. |
| Trigrams.Insertion | src/smalt_mcp/tools.py:1055-1082 | One extra character: at least (d-2)/(d+3), so 10 do. |
| Trigrams.SubstitutionIsTight | src/smalt_mcp/tools.py:1055-1082 | For texts without repeated characters the substitution bound is attained. |
| Trigrams.ElevenAreNotEnough | src/smalt_mcp/tools.py:1021 | With 11 trigrams a substitution can miss the threshold. |
| Trigrams.TwelveJustMeetIt | src/smalt_mcp/tools.py:1021 | With 12 it just meets it. |
| Trigrams.DeletionIsTight | src/smalt_mcp/tools.py:1055-1082 | The deletion bound is attained by the same texts, so with 10 trigrams a deletion can miss the threshold. |
| Trigrams.InsertionIsTight | src/smalt_mcp/tools.py:1055-1082 | So is the insertion bound, and with 9 trigrams an insertion can miss it. |
| Trigrams.SimilarityIs | src/smalt_mcp/tools.py:1055-1082 | Similarity is between 0 and 1 and symmetric; 0 exactly if the texts have no three characters in a row in common, as texts of fewer than three never have, and 1 exactly if they have all in common and there are any. |
| Trigrams.BestAlias | src/smalt_mcp/tools.py:1134-1140 | The best score of a page's aliases and the first alias that has it. |
| Trigrams.IsMatch | src/smalt_mcp/tools.py:1134-1141 | A page is reported exactly when some alias reaches the threshold. |
| Quoting.LiteralRoundTrip | src/smalt_mcp/storage/lance.py:217-226 | Reading a quoted string gives it back with the text after it exactly when that text does not start with a quote (section 5.3 of ISO/IEC 9075-2). |
| Quoting.ListRoundTrip | src/smalt_mcp/storage/lance.py:295-302 | A non-empty id list joined into `IN (...)` is read back as that list. |
| Quoting.LiteralsDiffer | src/smalt_mcp/storage/lance.py:217-226 | Different ids have different literals. |
| Schedulers.TasksAreCoherent | src/smalt_mcp/scheduler.py:190-216 | At every step of every run: succeeded implies never asked to cancel, a result only on success, an error exactly on failure, and finished means terminal exactly for a task that no uncaught exception has killed. |
| Schedulers.EnqueuedTask | src/smalt_mcp/scheduler.py:174-188 | An enqueued task is new, pending and blank, and no other task is touched. |
| Schedulers.BegunTask | src/smalt_mcp/scheduler.py:190-195 | Only a pending task begins; it is then running since that time and otherwise as it was. |
| Schedulers.EndedTask | src/smalt_mcp/scheduler.py:196-216 | Only a running task ends: succeeded with the value exactly if its work returned it and nobody had asked it to stop, failed with the message exactly if it raised that error, cancelled if it was cancelled or returned after all, else still running; finished then in each case. |
| Schedulers.CancelledTask | src/smalt_mcp/scheduler.py:244-268 | A cancellation marks an unfinished task and ends a pending one; nothing else of it changes. |
| Schedulers.ShutDownTasks | src/smalt_mcp/scheduler.py:286-309 | A shutdown marks every unfinished task and changes no state. |
| Schedulers.CollectedTasks | src/smalt_mcp/scheduler.py:320-332 | A collection drops exactly the tasks that succeeded, failed or were cancelled longer ago than the time to live. |
| Schedulers.MarkedExactlyWhen | src/smalt_mcp/scheduler.py:244-309 | At every step of every run a task is marked exactly if a cancellation of it or a shutdown found it unfinished since it was enqueued. |
| Schedulers.SucceededExactlyWhen | src/smalt_mcp/scheduler.py:190-216 | Told by the events alone: a task has succeeded with a value exactly if its work returned that value and neither a cancellation of it nor a shutdown had found it unfinished before. |
| Schedulers.FailedExactlyWhen | src/smalt_mcp/scheduler.py:190-216 | And has failed with a message exactly if its work raised that error, asked to stop or not. |
| Schedulers.TerminalIsFinal | src/smalt_mcp/scheduler.py:244-268 | Nothing of a terminal record changes while it is registered. |
| Schedulers.CancelIsAuthoritative | src/smalt_mcp/scheduler.py:196-216 | Once cancellation was requested, success is impossible. |
| Schedulers.CancelledPendingNeverStarts | src/smalt_mcp/scheduler.py:244-268 | Cancelled while pending: cancelled at once, finished at once, never started. |
| Schedulers.ShutdownLeavesPending | src/smalt_mcp/scheduler.py:286-309 | Pending at shutdown: never starts, and stays pending unless it is cancelled by id. |
| Schedulers.OnlyStaleAreCollected | src/smalt_mcp/scheduler.py:320-332 | A record leaves the registry exactly in a collection that finds it terminal and older than the time to live. |
| Schedulers.FatalTaskIsNeverCollected | src/smalt_mcp/scheduler.py:190-216 | A work function that dies of an uncaught exception leaves a running, finished record for ever. |
| Schedulers.Task.End | src/smalt_mcp/scheduler.py:196-216 | The runner after the work function: state, result and error in each of the four ways it ends, and the time. |
| Schedulers.Task.RequestCancel | src/smalt_mcp/scheduler.py:258-268 | Terminal records are left alone, pending ones cancelled, running ones flagged. |
| Schedulers.Scheduler.Enqueue | src/smalt_mcp/scheduler.py:174-188 | A fresh pending record joins the registry. |
| Schedulers.Scheduler.Cancel | src/smalt_mcp/scheduler.py:244-268 | The registry after a cancel request, and the record or none. |
| Schedulers.Scheduler.Shutdown | src/smalt_mcp/scheduler.py:286-309 | Every unfinished record is asked to stop and no state is touched. |
| Schedulers.Scheduler.Collect | src/smalt_mcp/scheduler.py:320-332 | Exactly the stale records go, and their number is returned. |
| LazyInit.OneConstruction | src/smalt_mcp/app.py:102-143 | In every interleaving of any number of callers, with any constructions failing, at most one completes and every successful caller gets its object. |
| LazyInit.RaisedExactlyWhen | src/smalt_mcp/app.py:102-143 | A caller is answered with an exception exactly if its own construction raised. |
| LazyInit.SomeoneCanStep | src/smalt_mcp/app.py:102-143 | No caller is stuck. |
| RunStatus.SnapshotsAreWhole | src/smalt_mcp/app.py:230-235 | In every interleaving of field-by-field writers and readers each snapshot tells of the runs recorded up to some point: time, duration and counts of the last, and of each index the state the latest run that refreshed it reported. |
| RunStatus.Observability.Record | src/smalt_mcp/app.py:152-172 | The five fields stay the fold of all runs recorded. |
| RunStatus.Observability.Snapshot | src/smalt_mcp/app.py:230-235 | The snapshot tells so of all runs recorded. |

## Left out

- Runs.IncrementalRefinesRebuild: leaves creation and update times out of the comparison; `Steady.CreationTimeIsKept` is about the former.
- Refinement.RunRefinesProjection: a cancelled run is a run over a prefix of the files; its `cancelled` flag, and its `scanned` counter, which counts all files, are not modelled.
- Keeping.ExecKeepsHealthy: is stated for writes of pages that lie at their computed path; `Rewrites.WriteKeepsHealthyExactlyWhen` gives the exact condition, and claims on index pages are outside the model.
- Histories.HistoryRecovers: asks that no other page links to a page that is removed, otherwise no pass restores the edges, as `Removal.PassAfterRemove` shows; and that no indexed page was moved by hand before a pass, for which `Honesty.HonestPassExactlyWhen` has the exact condition.
- Batches.BatchIsSequence: compares timestamps no more than a real clock would allow, and takes the unique suffix of each request as given.
- Servers.Server.ReindexAll: a rebuild cancelled after its drops when the drop of `pages` failed and another succeeded leaves tables missing that a later handler meets half way; here such a handler finds them empty.
- Servers.Server.Call: error payloads are a kind of error without text, and schema validation other than of ids is one error decided by the caller.
- Serial.HandlersSerialise: what a reader that takes no lock sees between the writes of a handler is left open; the crash points of `Indexers.Indexer.Run` and of the methods of `Servers.Server` say it for each handler alone. Tables missing while `pages` exists read as empty here too.
- Mutexes.EveryAcquisitionCounts: wait times are not modelled.
- Traverse.Search: labels are compared as stored; the order of rows within a hop is left open.
- Fusion.Fuse: scores are real numbers; ties that only floating point rounding makes or breaks are not modelled.
- Quoting.LiteralRoundTrip: literals continued over a separator, which the standard also allows, are not read.
- Trigrams.BlockEdit: is about texts that are already lower-cased; Unicode case mapping is not modelled.
- Trigrams.IsMatch: the order of the reported matches is not modelled.
- Schedulers.Scheduler.Enqueue: takes an unused id; ids are random and a repeated one is not modelled.
- Schedulers.Scheduler.Cancel: is one event-loop step; calls from worker threads are outside the scheduler's own contract.
- `Scheduler.list`, progress dictionaries and the collection loop's timer: a sorted copy of the registry, free-form values the work function sets, and a clock.
- `write_pages`: is the fragment of `write_batch` whose requests are all page writes of one mode.
- The two stores of a real process can also fail between two writes of one LanceDB call; a merge, a delete and an add are one step each here.
- LanceDB's full-text and vector indexes, ranking quality, fastembed: rankings and vectors are inputs.
- YAML, frontmatter shapes, field checks and sha256: a page parses or not, and hashes are injective.
- Whitespace the serializer strips from bodies: written pages read back as given.
- The text of an index page, and the limit of 100,000 concept rows it is built from: its layout is any function of the entries.
- Directory listing order by path object, symbolic links, and files outside `pages/`: a disk is a finite map from path strings, listed in code point order.
- The `sources` table, `bootstrap`, schema migration, alias lookup, property filter syntax, `source_similarity`, permissions, HTTP and MCP wiring: they neither change the two stores in another way than the writes modelled here nor decide when those agree.
