/** The indexer as it runs: loops over files, rows and slots, writing to the store step by step. */
module Indexers {
  import opened Model
  import opened OwnedRows
  import opened TextOrder
  import opened IndexPages
  import opened Projection
  import opened Indexing
  import opened Stores
  import opened WrongRows

  // ---- a batch merged at once is the batch upserted row by row ----

  lemma {:induction false} MergeIsUpsert(
    pages: map<string, PageRow>, items: seq<Parsed>, before: map<string, PageRow>, now: int)
    ensures pages + UpsertPages(map[], items, before, now) == UpsertPages(pages, items, before, now)
    decreases |items|
  {
    if items != [] {
      MergeIsUpsert(pages, items[..|items| - 1], before, now);
    }
  }

  lemma {:induction false} MergeIsUpsertEmbeddings(
    embeddings: map<string, Embedding>, items: seq<Parsed>, cfg: Config)
    ensures embeddings + UpsertEmbeddings(map[], items, cfg) == UpsertEmbeddings(embeddings, items, cfg)
    decreases |items|
  {
    if items != [] {
      MergeIsUpsertEmbeddings(embeddings, items[..|items| - 1], cfg);
    }
  }

  lemma SweepOneMore(t: Tables, done: set<string>, id: string)
    ensures Sweep(Sweep(t, done), {id}) == Sweep(t, done + {id})
  {
    WithoutTwice(t.links, done, {id});
    WithoutTwice(t.claims, done, {id});
  }

  // ---- the buckets of flagged concepts ----

  function IdsOf(entries: seq<Entry>): seq<string>
  {
    seq(|entries|, i requires 0 <= i < |entries| => entries[i].id)
  }

  lemma IdsListed(bucket: seq<Entry>, pages: map<string, PageRow>, flag: Flag, id: string)
    requires forall e | e in bucket :: Listed(pages, flag, e.id) && e == EntryOf(e.id, pages[e.id])
    requires forall id | Listed(pages, flag, id) :: EntryOf(id, pages[id]) in bucket
    ensures id in IdsOf(bucket) <==> id in ListedIds(pages, flag)
  {
    if id in IdsOf(bucket) {
      var i :| 0 <= i < |IdsOf(bucket)| && IdsOf(bucket)[i] == id;
      assert bucket[i] in bucket;
    }
    if Listed(pages, flag, id) {
      var i :| 0 <= i < |bucket| && bucket[i] == EntryOf(id, pages[id]);
      assert IdsOf(bucket)[i] == id;
    }
  }

  lemma BucketIsFor(bucket: seq<Entry>, pages: map<string, PageRow>)
    requires forall e | e in bucket :: e.id in pages && e == EntryOf(e.id, pages[e.id])
    requires forall id | id in IdsOf(bucket) :: id in pages
    ensures bucket == EntriesFor(pages, IdsOf(bucket))
  {
    forall i | 0 <= i < |bucket| ensures bucket[i] == EntriesFor(pages, IdsOf(bucket))[i] {
      assert bucket[i] in bucket;
    }
  }

  lemma BucketIsEntries(bucket: seq<Entry>, pages: map<string, PageRow>, flag: Flag)
    requires AscendingById(bucket)
    requires forall e | e in bucket :: Listed(pages, flag, e.id) && e == EntryOf(e.id, pages[e.id])
    requires forall id | Listed(pages, flag, id) :: EntryOf(id, pages[id]) in bucket
    ensures bucket == Entries(pages, flag)
  {
    forall id ensures id in IdsOf(bucket) <==> id in ListedIds(pages, flag) {
      IdsListed(bucket, pages, flag, id);
    }
    SortedIsUnique(IdsOf(bucket), Sorted(ListedIds(pages, flag)));
    BucketIsFor(bucket, pages);
  }

  /** An entry fits between those before it and those after it. */
  lemma InsertedAscends(a: seq<Entry>, e: Entry, b: seq<Entry>)
    requires AscendingById(a + b) && forall x | x in a + b :: x.id != e.id
    requires forall i | 0 <= i < |a| :: Le(a[i].id, e.id)
    requires forall i | 0 <= i < |b| :: Le(e.id, b[i].id)
    ensures AscendingById(a + [e] + b)
  {
    var r, s := a + [e] + b, a + b;
    forall i, j | 0 <= i < j < |r| ensures r[i].id != r[j].id && Le(r[i].id, r[j].id) {
      if i != |a| && j != |a| {
        var i', j' := if i < |a| then i else i - 1, if j < |a| then j else j - 1;
        assert s[i'] == r[i] && s[j'] == r[j];
      } else if i == |a| {
        assert s[j - 1] == r[j] && s[j - 1] in s;
      } else {
        assert s[i] == r[i] && s[i] in s;
      }
    }
  }

  lemma RestIsLater(bucket: seq<Entry>, k: nat, id: string)
    requires AscendingById(bucket) && k <= |bucket| && (k < |bucket| ==> !Le(bucket[k].id, id))
    ensures forall i | 0 <= i < |bucket[k..]| :: Le(id, bucket[k..][i].id)
  {
    forall i | k <= i < |bucket| ensures Le(id, bucket[i].id) {
      Total(bucket[k].id, id);
      if k < i { Transitive(id, bucket[k].id, bucket[i].id); }
    }
  }

  /** Put an entry into a bucket kept in id order. */
  method InsertById(bucket: seq<Entry>, e: Entry) returns (r: seq<Entry>)
    requires AscendingById(bucket) && forall x | x in bucket :: x.id != e.id
    ensures AscendingById(r)
    ensures forall x :: x in r <==> x in bucket || x == e
  {
    var k := 0;
    while k < |bucket| && Le(bucket[k].id, e.id)
      invariant 0 <= k <= |bucket|
      invariant forall i | 0 <= i < k :: Le(bucket[i].id, e.id)
    {
      k := k + 1;
    }
    r := bucket[..k] + [e] + bucket[k..];
    assert bucket == bucket[..k] + bucket[k..];
    RestIsLater(bucket, k, e.id);
    InsertedAscends(bucket[..k], e, bucket[k..]);
  }

  // ---- the states a projection passes through ----

  function TornState(s: State, items: seq<Parsed>, at: Point, now: int, cfg: Config): State
    requires AtPoint(items, at)
  {
    State(s.files, Torn(s.tables, items, at, now, cfg))
  }

  ghost predicate AtSomePoint(s: State, items: seq<Parsed>, now: int, cfg: Config, x: State)
  {
    exists at :: AtPoint(items, at) && x == TornState(s, items, at, now, cfg)
  }

  /** `after` continues `before` through states a crash during the projection of `items` leaves of `s`. */
  ghost predicate OnlyTorn(
    s: State, items: seq<Parsed>, now: int, cfg: Config, before: seq<State>, after: seq<State>)
  {
    before <= after && forall k | |before| <= k < |after| :: AtSomePoint(s, items, now, cfg, after[k])
  }

  lemma TornNext(
    s: State, items: seq<Parsed>, now: int, cfg: Config, before: seq<State>, trail: seq<State>, at: Point)
    requires OnlyTorn(s, items, now, cfg, before, trail) && AtPoint(items, at)
    ensures OnlyTorn(s, items, now, cfg, before, trail + [TornState(s, items, at, now, cfg)])
  {
    assert AtSomePoint(s, items, now, cfg, TornState(s, items, at, now, cfg));
  }

  lemma TornTwice(s: State, items: seq<Parsed>, now: int, cfg: Config,
                  before: seq<State>, trail: seq<State>, after: seq<State>, first: Point, second: Point)
    requires OnlyTorn(s, items, now, cfg, before, trail) && AtPoint(items, first) && AtPoint(items, second)
    requires || after == trail + [TornState(s, items, first, now, cfg)]
             || after == trail + [TornState(s, items, first, now, cfg)] + [TornState(s, items, second, now, cfg)]
    ensures OnlyTorn(s, items, now, cfg, before, after)
  {
    TornNext(s, items, now, cfg, before, trail, first);
    TornNext(s, items, now, cfg, before, trail + [TornState(s, items, first, now, cfg)], second);
  }

  lemma TornStarts(s: State, items: seq<Parsed>, now: int, cfg: Config)
    ensures var t := s.tables;
            && TornState(s, items, BeforeVectors, now, cfg)
               == State(s.files, t.(pages := UpsertPages(t.pages, items, t.pages, now)))
            && TornState(s, items, Within(0, 0), now, cfg)
               == State(s.files, t.(pages := UpsertPages(t.pages, items, t.pages, now),
                                    embeddings := UpsertEmbeddings(t.embeddings, items, cfg)))
  {
    assert items[..0] == [];
  }

  /** The four writes for page `i`. */
  lemma TornSteps(s: State, items: seq<Parsed>, i: nat, now: int, cfg: Config)
    requires i < |items|
    ensures var page := items[i].page;
            var t0 := Torn(s.tables, items, Within(i, 0), now, cfg);
            var t1 := t0.(links := Without(t0.links, {page.id}));
            var t2 := t1.(links := t1.links + Rows(page.id, page.linksOut));
            var t3 := t2.(claims := Without(t2.claims, {page.id}));
            var t4 := t3.(claims := t3.claims + Rows(page.id, page.claims));
            && t1 == Torn(s.tables, items, Within(i, 1), now, cfg)
            && t2 == Torn(s.tables, items, Within(i, 2), now, cfg)
            && t3 == Torn(s.tables, items, Within(i, 3), now, cfg)
            && t4 == Torn(s.tables, items, Within(i + 1, 0), now, cfg)
  {
    assert items[..i + 1][..i] == items[..i];
  }

  lemma TornToTheEnd(s: State, items: seq<Parsed>, now: int, cfg: Config)
    ensures TornState(s, items, Within(|items|, 0), now, cfg)
         == State(s.files, Projection.Project(s.tables, items, now, cfg))
    ensures items == [] ==> Projection.Project(s.tables, items, now, cfg) == s.tables
  {
    assert items[..|items|] == items;
  }

  lemma {:induction false} UpsertedRowsExist(
    files: Files, pages: map<string, PageRow>, items: seq<Parsed>, before: map<string, PageRow>, now: int)
    requires forall id | id in pages :: pages[id].path in files
    requires forall p | p in items :: p.path in files
    ensures forall id | id in UpsertPages(pages, items, before, now) ::
              UpsertPages(pages, items, before, now)[id].path in files
    decreases |items|
  {
    if items != [] {
      var init, last := items[..|items| - 1], items[|items| - 1];
      assert last in items && forall p | p in init :: p in items;
      UpsertedRowsExist(files, pages, init, before, now);
    }
  }

  lemma TornIsSafe(s: State, items: seq<Parsed>, now: int, cfg: Config, before: seq<State>, after: seq<State>)
    requires NoPhantom(s) && (forall p | p in items :: p.path in s.files)
    requires OnlyTorn(s, items, now, cfg, before, after)
    ensures SafeSince(before, after) && NoPhantom(State(s.files, Projection.Project(s.tables, items, now, cfg)))
  {
    UpsertedRowsExist(s.files, s.tables.pages, items, s.tables.pages, now);
  }

  // ---- the states a sweep passes through ----

  ghost predicate AtHalfSweep(s: State, stale: set<string>, x: State)
  {
    exists done, id, n: nat ::
      done <= stale && id in stale - done && n <= 4 && x == State(s.files, HalfSwept(s.tables, done, id, n))
  }

  ghost predicate OnlyHalfSwept(s: State, stale: set<string>, before: seq<State>, after: seq<State>)
  {
    before <= after && forall k | |before| <= k < |after| :: AtHalfSweep(s, stale, after[k])
  }

  lemma SweepNothing(t: Tables)
    ensures Sweep(t, {}) == t
  {
    WithoutNone(t.links);
    WithoutNone(t.claims);
  }

  lemma SweptOneMore(s: State, stale: set<string>, done: set<string>, id: string, before: seq<State>, trail: seq<State>)
    requires OnlyHalfSwept(s, stale, before, trail) && done <= stale && id in stale - done
    ensures OnlyHalfSwept(s, stale, before, trail + Deletions(State(s.files, Sweep(s.tables, done)), id))
  {
    var states := Deletions(State(s.files, Sweep(s.tables, done)), id);
    forall i | 0 <= i < 4 ensures AtHalfSweep(s, stale, states[i]) {
      assert states[i] == State(s.files, HalfSwept(s.tables, done, id, i + 1));
    }
  }

  lemma HalfSweptIsSafe(s: State, stale: set<string>, before: seq<State>, after: seq<State>)
    requires NoPhantom(s) && OnlyHalfSwept(s, stale, before, after)
    ensures SafeSince(before, after) && NoPhantom(State(s.files, Sweep(s.tables, stale)))
  {
    forall k | |before| <= k < |after| ensures NoPhantom(after[k]) {
      assert AtHalfSweep(s, stale, after[k]);
    }
  }

  class Indexer {
    const store: Store
    const cfg: Config

    constructor (store: Store, cfg: Config)
      ensures this.store == store && this.cfg == cfg
    {
      this.store := store;
      this.cfg := cfg;
    }

    /** The flagged concept rows in id order, whatever order the table is scanned in. */
    method CollectConceptEntries(flag: Flag) returns (bucket: seq<Entry>)
      ensures bucket == Entries(store.pages, flag)
    {
      bucket := [];
      var left := store.pages.Keys;
      while left != {}
        invariant left <= store.pages.Keys
        invariant AscendingById(bucket)
        invariant forall e | e in bucket ::
                    Listed(store.pages, flag, e.id) && e == EntryOf(e.id, store.pages[e.id]) && e.id !in left
        invariant forall id | Listed(store.pages, flag, id) && id !in left :: EntryOf(id, store.pages[id]) in bucket
        decreases |left|
      {
        var id :| id in left;
        left := left - {id};
        if Listed(store.pages, flag, id) {
          bucket := InsertById(bucket, EntryOf(id, store.pages[id]));
        }
      }
      BucketIsEntries(bucket, store.pages, flag);
    }

    /** Known creation times of the given ids. */
    method FetchCreatedAt(ids: set<string>) returns (known: map<string, int>)
      ensures forall id :: id in known <==> id in ids && CreatedAt(store.pages, id).Some?
      ensures forall id | id in known :: CreatedAt(store.pages, id) == Some(known[id])
    {
      known := map id | id in ids && id in store.pages && store.pages[id].createdAt.Some?
                 :: store.pages[id].createdAt.value;
    }

    /** The page rows and vectors of a batch, keyed by id. */
    method BuildRows(items: seq<Parsed>, now: int)
      returns (rows: map<string, PageRow>, vectors: map<string, Embedding>)
      ensures rows == UpsertPages(map[], items, store.pages, now)
      ensures vectors == UpsertEmbeddings(map[], items, cfg)
      ensures DistinctIds(items) ==>
                forall p | p in items :: && p.page.id in rows && p.page.id in vectors
                                         && Built(p, rows[p.page.id], vectors[p.page.id], store.pages, now, cfg)
    {
      var created := FetchCreatedAt(set p | p in items :: p.page.id);
      rows, vectors := map[], map[];
      for i := 0 to |items|
        invariant rows == UpsertPages(map[], items[..i], store.pages, now)
        invariant vectors == UpsertEmbeddings(map[], items[..i], cfg)
      {
        assert items[..i + 1][..i] == items[..i];
        var p := items[i];
        rows := rows[p.page.id := PageRowOf(p, if p.page.id in created then Some(created[p.page.id]) else None, now)];
        vectors := vectors[p.page.id := Vector(p.page, cfg)];
      }
      assert items[..|items|] == items;
      forall p | DistinctIds(items) && p in items
        ensures p.page.id in rows && p.page.id in vectors
        ensures Built(p, rows[p.page.id], vectors[p.page.id], store.pages, now, cfg)
      {
        BatchIsBuilt(items, store.pages, now, cfg, p);
      }
    }

    /** Replace the links and claims of page `i` of a batch whose earlier pages are done. */
    method ReplaceOwnedOf(items: seq<Parsed>, i: nat, ghost s: State, ghost now: int, ghost before: seq<State>)
      requires i < |items| && store.Now() == TornState(s, items, Within(i, 0), now, cfg)
      requires OnlyTorn(s, items, now, cfg, before, store.trail)
      modifies store`links, store`claims, store`trail
      ensures store.Now() == TornState(s, items, Within(i + 1, 0), now, cfg)
      ensures OnlyTorn(s, items, now, cfg, before, store.trail)
    {
      var page := items[i].page;
      ghost var start := store.trail;
      TornSteps(s, items, i, now, cfg);
      store.ReplaceLinksForPage(page.id, Rows(page.id, page.linksOut));
      TornTwice(s, items, now, cfg, before, start, store.trail, Within(i, 1), Within(i, 2));
      ghost var linked := store.trail;
      store.ReplaceClaimsForPage(page.id, Rows(page.id, page.claims));
      TornTwice(s, items, now, cfg, before, linked, store.trail, Within(i, 3), Within(i + 1, 0));
    }

    /** Write the rows of a batch: page rows and vectors in one merge each, then links and claims page by page.
        Every state on the way is what a crash at some point of the projection leaves. */
    method Project(items: seq<Parsed>, now: int)
      modifies store`files, store`pages, store`embeddings, store`links, store`claims, store`trail
      ensures store.files == old(store.files)
      ensures store.AllTables() == Projection.Project(old(store.AllTables()), items, now, cfg)
      ensures OnlyTorn(old(store.Now()), items, now, cfg, old(store.trail), store.trail)
      ensures NoPhantom(old(store.Now())) && (forall p | p in items :: p.path in store.files)
              ==> NoPhantom(store.Now()) && SafeSince(old(store.trail), store.trail)
    {
      ghost var s, before := store.Now(), store.trail;
      if items != [] {
        MergeRows(items, now);
        for i := 0 to |items|
          invariant store.Now() == TornState(s, items, Within(i, 0), now, cfg)
          invariant OnlyTorn(s, items, now, cfg, before, store.trail)
        {
          ReplaceOwnedOf(items, i, s, now, before);
        }
      }
      TornToTheEnd(s, items, now, cfg);
      if NoPhantom(s) && forall p | p in items :: p.path in s.files {
        TornIsSafe(s, items, now, cfg, before, store.trail);
      }
    }

    /** Page rows first, which publishes the new hashes, then vectors. */
    method MergeRows(items: seq<Parsed>, now: int)
      modifies store`pages, store`embeddings, store`trail
      ensures store.Now() == TornState(old(store.Now()), items, Within(0, 0), now, cfg)
      ensures OnlyTorn(old(store.Now()), items, now, cfg, old(store.trail), store.trail)
    {
      ghost var s, before := store.Now(), store.trail;
      var rows, vectors := BuildRows(items, now);
      MergeIsUpsert(s.tables.pages, items, s.tables.pages, now);
      MergeIsUpsertEmbeddings(s.tables.embeddings, items, cfg);
      TornStarts(s, items, now, cfg);
      store.MergePages(rows);
      TornNext(s, items, now, cfg, before, before, BeforeVectors);
      store.MergeEmbeddings(vectors);
      TornNext(s, items, now, cfg, before, before + [TornState(s, items, BeforeVectors, now, cfg)], Within(0, 0));
    }

    /** Rewrite a slot if its file does not already read as wanted. */
    method WriteSlot(slot: Slot, entries: seq<Entry>) returns (changed: seq<Parsed>)
      modifies store`files, store`trail
      ensures (store.files, changed) == WriteIfChanged(old(store.files), SlotParsed(slot, entries, cfg))
      ensures NoPhantom(old(store.Now())) ==> NoPhantom(store.Now()) && SafeSince(old(store.trail), store.trail)
    {
      var p := SlotParsed(slot, entries, cfg);
      if Matches(store.files, p) {
        changed := [];
      } else {
        store.WriteFile(p.path, p.bytes);
        changed := [p];
      }
    }

    method RegenerateIndexPages() returns (changed: seq<Parsed>)
      modifies store`files, store`trail
      ensures (store.files, changed) == Regenerate(old(store.files), store.pages, cfg)
      ensures forall p | p in changed :: p.path in store.files
      ensures NoPhantom(old(store.Now())) ==> NoPhantom(store.Now()) && SafeSince(old(store.trail), store.trail)
    {
      var glossary := CollectConceptEntries(Glossary);
      var domains := CollectConceptEntries(Domains);
      ghost var safe, before := NoPhantom(store.Now()), store.trail;
      var first := WriteSlot(GLOSSARY, glossary);
      ghost var written := store.trail;
      var second := WriteSlot(DOMAINS, domains);
      if safe { SafeChain(before, written, store.trail); }
      changed := first + second;
    }

    method ScanAll(paths: seq<string>, known: map<string, Bytes>) returns (s: Scan)
      requires forall p | p in paths :: p in store.files
      ensures s == ScanFiles(store.files, paths, known)
    {
      s := NO_SCAN;
      for i := 0 to |paths|
        invariant forall p | p in paths[..i] :: p in store.files
        invariant s == ScanFiles(store.files, paths[..i], known)
      {
        assert paths[..i + 1][..i] == paths[..i];
        assert paths[i] in paths;
        s := ScanFile(s, paths[i], store.files[paths[i]], known);
      }
      assert paths[..|paths|] == paths;
    }

    /** Drop the rows of vanished pages, one after the other. Every state on the way is one a crash inside a sweep
        leaves: some of the pages are done, and of one more the first deletions. */
    method SweepStale(stale: set<string>)
      modifies store`files, store`pages, store`embeddings, store`links, store`claims, store`trail
      ensures store.files == old(store.files)
      ensures store.AllTables() == Sweep(old(store.AllTables()), stale)
      ensures OnlyHalfSwept(old(store.Now()), stale, old(store.trail), store.trail)
      ensures NoPhantom(old(store.Now())) ==> NoPhantom(store.Now()) && SafeSince(old(store.trail), store.trail)
    {
      ghost var s, before := store.Now(), store.trail;
      var left := stale;
      SweepNothing(s.tables);
      assert stale - left == {};
      while left != {}
        invariant left <= stale
        invariant store.Now() == State(s.files, Sweep(s.tables, stale - left))
        invariant OnlyHalfSwept(s, stale, before, store.trail)
        decreases |left|
      {
        var id :| id in left;
        SweepOneMore(s.tables, stale - left, id);
        assert stale - (left - {id}) == (stale - left) + {id};
        ghost var trail := store.trail;
        store.DeletePage(id);
        SweptOneMore(s, stale, stale - left, id, before, trail);
        left := left - {id};
      }
      assert stale - left == stale;
      if NoPhantom(s) { HalfSweptIsSafe(s, stale, before, store.trail); }
    }

    static lemma {:induction false} QueuedExist(files: Files, paths: seq<string>, known: map<string, Bytes>)
      requires forall p | p in paths :: p in files
      ensures forall x | x in ScanFiles(files, paths, known).toIndex :: x.path in files
      decreases |paths|
    {
      if paths != [] {
        assert forall p | p in paths[..|paths| - 1] :: p in paths;
        QueuedExist(files, paths[..|paths| - 1], known);
      }
    }

    /** Scan, sweep and project: the run up to the index pages. */
    method IndexFiles(paths: seq<string>, known: map<string, Bytes>, full: bool, now: int) returns (s: Scan)
      requires forall p | p in paths :: p in store.files
      requires known == Hashes(store.AllTables(), full)
      modifies store`files, store`pages, store`embeddings, store`links, store`claims, store`trail
      ensures s == ScanFiles(old(store.files), paths, known)
      ensures store.files == old(store.files)
      ensures store.AllTables() == Indexed(old(store.files), paths, old(store.AllTables()), full, now, cfg)
      ensures NoPhantom(old(store.Now())) ==> NoPhantom(store.Now()) && SafeSince(old(store.trail), store.trail)
    {
      ghost var safe, before := NoPhantom(store.Now()), store.trail;
      s := ScanAll(paths, known);
      SweepStale(known.Keys - s.seen);
      ghost var swept := store.trail;
      QueuedExist(store.files, paths, known);
      Project(s.toIndex, now);
      if safe { SafeChain(before, swept, store.trail); }
    }

    /** Render the index pages from the rows and project those that changed. */
    method RenderAndProject(now: int)
      modifies store`files, store`pages, store`embeddings, store`links, store`claims, store`trail
      ensures var (files, changed) := Regenerate(old(store.files), old(store.pages), cfg);
              store.Now() == State(files, Projection.Project(old(store.AllTables()), changed, now, cfg))
      ensures NoPhantom(old(store.Now())) ==> NoPhantom(store.Now()) && SafeSince(old(store.trail), store.trail)
    {
      ghost var safe, before := NoPhantom(store.Now()), store.trail;
      var changed := RegenerateIndexPages();
      ghost var rendered := store.trail;
      Project(changed, now);
      if safe { SafeChain(before, rendered, store.trail); }
    }

    /** One run. The state it ends in and its report are those of `Indexing.Run`, and if no page row
        was a phantom when it started, none is at any point in between. */
    method Run(paths: seq<string>, full: bool, now: int) returns (report: Report)
      requires forall p | p in paths :: p in store.files
      modifies store`files, store`pages, store`embeddings, store`links, store`claims, store`trail
      ensures var out := Indexing.Run(old(store.files), paths, old(store.AllTables()), full, now, cfg);
              store.Now() == State(out.files, out.tables) && report == out.report
      ensures NoPhantom(old(store.Now())) ==> NoPhantom(store.Now()) && SafeSince(old(store.trail), store.trail)
    {
      ghost var safe, before := NoPhantom(store.Now()), store.trail;
      var known: map<string, Bytes> := map[];
      if !full { known := map id | id in store.pages :: store.pages[id].contentHash; }
      assert known == Hashes(store.AllTables(), full);
      var s := IndexFiles(paths, known, full, now);
      ghost var indexed := store.trail;
      RenderAndProject(now);
      if safe { SafeChain(before, indexed, store.trail); }
      report := Report(|paths|, s.inserted, s.updated, s.skipped, |known.Keys - s.seen|, s.failures);
    }
  }
}
