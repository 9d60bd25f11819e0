/** Tables that are honest about files that may have changed since: what a pass makes of them. */
module Honesty {
  import opened Model
  import opened TextOrder
  import opened IndexPages
  import opened Projection
  import opened Indexing
  import opened RunLemmas
  import opened Refinement
  import opened Runs

  /** The file a page row speaks of: its path, and the bytes its hash was taken from. */
  predicate RowReads(row: PageRow, id: string)
  {
    row.contentHash.page.Some? && row.contentHash.page.value.id == id
  }

  function RowFile(row: PageRow): Parsed
    requires row.contentHash.page.Some?
  {
    Parsed(row.path, row.contentHash, row.contentHash.page.value)
  }

  /** What the tables hold under an id is what some file once said, and its page row tells which. */
  ghost predicate HonestAt(t: Tables, id: string, cfg: Config)
  {
    if id in t.pages then RowReads(t.pages[id], id) && Faithful(t, RowFile(t.pages[id]), cfg) else EmptyAt(t, id)
  }

  ghost predicate Honest(t: Tables, cfg: Config)
  {
    forall id :: HonestAt(t, id, cfg)
  }

  /** Rows under the slot ids are index rows at the slots' paths. */
  predicate SlotRowsPlaced(t: Tables)
  {
    forall id | id in t.pages && IsSlotId(id) ::
      t.pages[id].kind.Index? && t.pages[id].path == (if id == GLOSSARY.id then GLOSSARY.path else DOMAINS.path)
  }

  /** No indexed page is anywhere but where its row says. */
  ghost predicate Unmoved(files: Files, tables: Tables)
  {
    forall id, q | id in tables.pages && Parses(files, q) && PageAt(files, q).id == id :: q == tables.pages[id].path
  }

  lemma ProjectedAt(files: Files, t: Tables, cfg: Config, id: string)
    requires Projected(files, t, cfg)
    ensures HonestAt(t, id, cfg)
    ensures id in t.pages ==> Parses(files, t.pages[id].path) && PageAt(files, t.pages[id].path).id == id
                              && t.pages[id].kind == PageAt(files, t.pages[id].path).kind
  {
    if HasId(files, id) {
      var p :| Parses(files, p) && PageAt(files, p).id == id;
      assert Faithful(t, ParsedAt(files, p), cfg);
      assert id in t.pages ==> RowFile(t.pages[id]) == ParsedAt(files, p);
    } else {
      assert EmptyAt(t, id);
    }
  }

  lemma ProjectedIsHonest(files: Files, t: Tables, cfg: Config)
    requires Sound(files) && Projected(files, t, cfg)
    ensures Honest(t, cfg) && SlotRowsPlaced(t) && Unmoved(files, t)
  {
    forall id ensures HonestAt(t, id, cfg) { ProjectedAt(files, t, cfg, id); }
    forall id | id in t.pages && IsSlotId(id)
      ensures t.pages[id].kind.Index? && t.pages[id].path == (if id == GLOSSARY.id then GLOSSARY.path else DOMAINS.path)
    {
      ProjectedAt(files, t, cfg, id);
    }
    forall id, q | id in t.pages && Parses(files, q) && PageAt(files, q).id == id ensures q == t.pages[id].path {
      assert Faithful(t, ParsedAt(files, q), cfg);
    }
  }

  // ---- what a pass makes of them ----

  /** No file holds bytes that are indexed under another path: it was not moved there unchanged
      (a slot counts only if the pass will not rewrite it). */
  ghost predicate HashesInPlace(files: Files, t: Tables, cfg: Config)
  {
    forall id, q | id in t.pages && Parses(files, q) && SlotSettled(files, q, cfg)
                   && files[q] == t.pages[id].contentHash ::
      q == t.pages[id].path
  }

  lemma UnmovedHashesInPlace(files: Files, t: Tables, cfg: Config)
    requires Honest(t, cfg) && Unmoved(files, t)
    ensures HashesInPlace(files, t, cfg)
  {
    forall id, q | id in t.pages && Parses(files, q) && files[q] == t.pages[id].contentHash
      ensures q == t.pages[id].path
    {
      assert HonestAt(t, id, cfg);
    }
  }

  lemma InPlaceIsCovered(files: Files, t: Tables, cfg: Config, q: string)
    requires Honest(t, cfg) && HashesInPlace(files, t, cfg) && Parses(files, q) && SlotSettled(files, q, cfg)
    ensures Covered(files, Sorted(files.Keys), t, false, q, cfg)
  {
    if !Queued(files, Sorted(files.Keys), t, false, q) {
      assert HonestAt(t, PageAt(files, q).id, cfg);
    }
  }

  lemma MovedIsNotCovered(files: Files, t: Tables, cfg: Config, id: string, q: string)
    requires Honest(t, cfg) && id in t.pages && Parses(files, q) && files[q] == t.pages[id].contentHash
    requires Covered(files, Sorted(files.Keys), t, false, q, cfg)
    ensures q == t.pages[id].path
  {
    assert HonestAt(t, id, cfg);
    assert !Queued(files, Sorted(files.Keys), t, false, q);
  }

  lemma HonestTrust(files: Files, t: Tables, cfg: Config)
    requires Honest(t, cfg)
    ensures TrustedForPass(files, t, cfg) <==> HashesInPlace(files, t, cfg)
  {
    forall id | id !in t.pages ensures EmptyAt(t, id) { assert HonestAt(t, id, cfg); }
    if HashesInPlace(files, t, cfg) {
      forall q | Parses(files, q) && SlotSettled(files, q, cfg)
        ensures Covered(files, Sorted(files.Keys), t, false, q, cfg)
      {
        InPlaceIsCovered(files, t, cfg, q);
      }
    }
    if TrustedForPass(files, t, cfg) {
      forall id, q | id in t.pages && Parses(files, q) && SlotSettled(files, q, cfg)
                     && files[q] == t.pages[id].contentHash
        ensures q == t.pages[id].path
      {
        MovedIsNotCovered(files, t, cfg, id, q);
      }
    }
  }

  lemma PlacedIsSane(t: Tables)
    requires SlotRowsPlaced(t)
    ensures SlotRowsSane(t)
  {}

  /** From honest tables, whatever was edited, added or deleted since: a pass ends with the projection of the disk
      exactly when no file was moved with its bytes unchanged. */
  lemma HonestPassExactlyWhen(files: Files, t: Tables, now: int, cfg: Config)
    requires Sound(files) && Honest(t, cfg) && SlotRowsPlaced(t)
    ensures var out := Pass(files, t, now, cfg);
            Projected(out.files, out.tables, cfg) <==> HashesInPlace(files, t, cfg)
  {
    HonestTrust(files, t, cfg);
    PlacedIsSane(t);
    SortedIsReachable(files);
    RunRefinesProjection(files, Sorted(files.Keys), t, false, now, cfg);
  }
}
