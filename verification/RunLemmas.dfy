/** What one run does at each id and at each path. */
module RunLemmas {
  import opened Model
  import opened OwnedRows
  import opened TextOrder
  import opened IndexPages
  import opened Projection
  import opened Indexing

  predicate NoRepeats(paths: seq<string>)
  {
    forall i, j | 0 <= i < j < |paths| :: paths[i] != paths[j]
  }

  /** The paths a run may be given: files on the disk, none twice. */
  predicate Reachable(files: Files, paths: seq<string>)
  {
    NoRepeats(paths) && forall p | p in paths :: p in files
  }

  lemma {:induction false} SortedIsReachable(files: Files)
    ensures Reachable(files, Sorted(files.Keys))
  {}

  /** The scan queues this path for projection. */
  ghost predicate Queued(files: Files, paths: seq<string>, t: Tables, full: bool, path: string)
  {
    path in paths && Parses(files, path) && !Unchanged(Hashes(t, full), PageAt(files, path), files[path])
  }

  // ---- the scan ----

  lemma InitOrLast(paths: seq<string>)
    requires paths != []
    ensures forall p :: p in paths <==> p in paths[..|paths| - 1] || p == paths[|paths| - 1]
  {
    assert paths == paths[..|paths| - 1] + [paths[|paths| - 1]];
  }

  /** Some file among these paths carries the id. */
  ghost predicate SeenIn(files: Files, paths: seq<string>, id: string)
  {
    exists p :: p in paths && Parses(files, p) && PageAt(files, p).id == id
  }

  lemma SeenInSplits(files: Files, paths: seq<string>, id: string)
    requires paths != []
    ensures var last := paths[|paths| - 1];
            SeenIn(files, paths, id)
            <==> SeenIn(files, paths[..|paths| - 1], id) || (Parses(files, last) && PageAt(files, last).id == id)
  {
    var init, last := paths[..|paths| - 1], paths[|paths| - 1];
    InitOrLast(paths);
    if SeenIn(files, init, id) {
      var p :| p in init && Parses(files, p) && PageAt(files, p).id == id;
      assert p in paths;
    }
    assert last in paths;
  }

  lemma {:induction false} ScanSeen(files: Files, paths: seq<string>, known: map<string, Bytes>, id: string)
    requires forall p | p in paths :: p in files
    ensures id in ScanFiles(files, paths, known).seen <==> SeenIn(files, paths, id)
    decreases |paths|
  {
    if paths != [] {
      InitOrLast(paths);
      SeenInSplits(files, paths, id);
      ScanSeen(files, paths[..|paths| - 1], known, id);
    }
  }

  lemma {:induction false} ScanQueue(files: Files, paths: seq<string>, t: Tables, full: bool, x: Parsed)
    requires forall p | p in paths :: p in files
    ensures x in ScanFiles(files, paths, Hashes(t, full)).toIndex
       <==> Queued(files, paths, t, full, x.path) && x == ParsedAt(files, x.path)
    decreases |paths|
  {
    if paths != [] {
      var init, last := paths[..|paths| - 1], paths[|paths| - 1];
      InitOrLast(paths);
      ScanQueue(files, init, t, full, x);
    }
  }

  lemma {:induction false} QueueIsDistinct(files: Files, paths: seq<string>, t: Tables, full: bool)
    requires Reachable(files, paths) && UniqueIds(files)
    ensures DistinctIds(ScanFiles(files, paths, Hashes(t, full)).toIndex)
    decreases |paths|
  {
    if paths != [] {
      var init, last := paths[..|paths| - 1], paths[|paths| - 1];
      assert forall p | p in init :: p in paths;
      QueueIsDistinct(files, init, t, full);
      var before := ScanFiles(files, init, Hashes(t, full)).toIndex;
      forall i | 0 <= i < |before| && Parses(files, last)
        ensures before[i].page.id != PageAt(files, last).id
      {
        assert before[i] in before;
        ScanQueue(files, init, t, full, before[i]);
      }
    }
  }

  // ---- sweep and first projection ----

  ghost predicate Swept(files: Files, paths: seq<string>, t: Tables, full: bool, id: string)
  {
    !full && id in t.pages && !SeenIn(files, paths, id)
  }

  lemma SweepAt(t: Tables, stale: set<string>, id: string)
    ensures id in stale ==> EmptyAt(Sweep(t, stale), id)
    ensures id !in stale ==> AgreeAt(t, Sweep(t, stale), id)
  {
    OwnedByWithout(t.links, stale, id);
    OwnedByWithout(t.claims, stale, id);
  }

  lemma IndexedHit(files: Files, paths: seq<string>, t: Tables, full: bool, now: int, cfg: Config, path: string)
    requires Reachable(files, paths) && UniqueIds(files) && Queued(files, paths, t, full, path)
    ensures Faithful(Indexed(files, paths, t, full, now, cfg), ParsedAt(files, path), cfg)
  {
    var s := ScanFiles(files, paths, Hashes(t, full));
    QueueIsDistinct(files, paths, t, full);
    ScanQueue(files, paths, t, full, ParsedAt(files, path));
    ProjectHit(Sweep(t, Hashes(t, full).Keys - s.seen), s.toIndex, now, cfg, ParsedAt(files, path));
  }

  lemma IndexedMiss(files: Files, paths: seq<string>, t: Tables, full: bool, now: int, cfg: Config, id: string)
    requires Reachable(files, paths)
    requires forall p | Queued(files, paths, t, full, p) :: PageAt(files, p).id != id
    ensures var after := Indexed(files, paths, t, full, now, cfg);
            if Swept(files, paths, t, full, id) then EmptyAt(after, id) else AgreeAt(t, after, id)
  {
    var known := Hashes(t, full);
    var s := ScanFiles(files, paths, known);
    var stale := known.Keys - s.seen;
    ScanSeen(files, paths, known, id);
    SweepAt(t, stale, id);
    forall x | x in s.toIndex ensures x.page.id != id {
      ScanQueue(files, paths, t, full, x);
    }
    ProjectMiss(Sweep(t, stale), s.toIndex, now, cfg, id);
  }

  // ---- regeneration ----

  lemma SlotsDiffer()
    ensures GLOSSARY.path != DOMAINS.path && GLOSSARY.id != DOMAINS.id
  {
    assert GLOSSARY.path[6] != DOMAINS.path[6];
    assert GLOSSARY.id[4] != DOMAINS.id[4];
  }

  function Stale(files: Files, p: Parsed): seq<Parsed>
  {
    if Matches(files, p) then [] else [p]
  }

  lemma RegenerateShape(files: Files, pages: map<string, PageRow>, cfg: Config)
    ensures var g := SlotParsed(GLOSSARY, Entries(pages, Glossary), cfg);
            var d := SlotParsed(DOMAINS, Entries(pages, Domains), cfg);
            Regenerate(files, pages, cfg)
            == (files[g.path := g.bytes][d.path := d.bytes], Stale(files, g) + Stale(files, d))
  {
    SlotsDiffer();
    var g := SlotParsed(GLOSSARY, Entries(pages, Glossary), cfg);
    var d := SlotParsed(DOMAINS, Entries(pages, Domains), cfg);
    var written := files[g.path := g.bytes];
    assert Matches(files, g) ==> written == files;
    assert Matches(files, d) ==> written[d.path := d.bytes] == written;
  }

  /** The pages a regeneration rewrote: those of the two slots whose files did not match. */
  lemma StaleAre(files: Files, a: Parsed, b: Parsed)
    requires a.page.id != b.page.id
    ensures var changed := Stale(files, a) + Stale(files, b);
            && DistinctIds(changed)
            && (a in changed <==> !Matches(files, a)) && (b in changed <==> !Matches(files, b))
            && (forall p | p in changed :: p == a || p == b)
  {
    var changed := Stale(files, a) + Stale(files, b);
    assert forall p :: p in changed <==> p in Stale(files, a) || p in Stale(files, b);
  }

  lemma StaleHit(t: Tables, files: Files, a: Parsed, b: Parsed, now: int, cfg: Config, p: Parsed)
    requires a.page.id != b.page.id && (p == a || p == b) && !Matches(files, p)
    ensures Faithful(Project(t, Stale(files, a) + Stale(files, b), now, cfg), p, cfg)
  {
    StaleAre(files, a, b);
    ProjectHit(t, Stale(files, a) + Stale(files, b), now, cfg, p);
  }

  lemma StaleMiss(t: Tables, files: Files, a: Parsed, b: Parsed, now: int, cfg: Config, id: string)
    requires a.page.id != b.page.id
    requires (id == a.page.id ==> Matches(files, a)) && (id == b.page.id ==> Matches(files, b))
    ensures AgreeAt(t, Project(t, Stale(files, a) + Stale(files, b), now, cfg), id)
  {
    var changed := Stale(files, a) + Stale(files, b);
    StaleAre(files, a, b);
    forall p | p in changed ensures p.page.id != id {}
    ProjectMiss(t, changed, now, cfg, id);
  }
}
