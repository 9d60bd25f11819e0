/** `remove_page`: what it leaves, and when that is still the projection of the disk. */
module Removal {
  import opened Model
  import opened Selections
  import opened OwnedRows
  import opened TextOrder
  import opened IndexPages
  import opened Projection
  import opened Indexing
  import opened RunLemmas
  import opened Refinement
  import opened Runs
  import opened Steady
  import opened Stores
  import opened Handlers
  import opened Keeping

  // ---- deleting edges by target ----

  lemma {:induction false} DropLinksAppend(a: seq<Link>, b: seq<Link>, target: string)
    ensures DropLinks(a + b, target, None) == DropLinks(a, target, None) + DropLinks(b, target, None)
    decreases |a|
  {
    if a == [] {
      assert a + b == b;
    } else {
      assert (a + b)[1..] == a[1..] + b;
      DropLinksAppend(a[1..], b, target);
    }
  }

  lemma {:induction false} OwnedByNotTo(rows: seq<Row<Link>>, target: string, id: string)
    ensures OwnedBy(LinksNotTo(rows, target), id) == DropLinks(OwnedBy(rows, id), target, None)
    decreases |rows|
  {
    if rows != [] {
      var init, last := rows[..|rows| - 1], rows[|rows| - 1];
      OwnedByNotTo(init, target, id);
      var kept := if last.value.target == target then [] else [last];
      OwnedByAppend(LinksNotTo(init, target), kept, id);
      if kept == [last] {
        assert kept[..0] == [];
        assert OwnedBy(kept, id) == if last.owner == id then [last.value] else [];
      }
      var own := if last.owner == id then [last.value] else [];
      DropLinksAppend(OwnedBy(init, id), own, target);
    }
  }

  /** Deleting by target keeps the rows with another target, in table order. */
  lemma {:induction false} NotToPicks(links: seq<Row<Link>>, id: string)
    ensures Picks(links, (set i: nat | i < |links| && links[i].value.target != id), LinksNotTo(links, id))
    decreases |links|
  {
    var at := set i: nat | i < |links| && links[i].value.target != id;
    if links == [] {
      PicksOfNone(links, at);
    } else {
      var init := links[..|links| - 1];
      NotToPicks(init, id);
      PicksLast(links, (set i: nat | i < |init| && init[i].value.target != id), at, LinksNotTo(init, id));
    }
  }

  predicate LinksTo(page: Page, target: string)
  {
    exists l | l in page.linksOut :: l.target == target
  }

  lemma {:induction false} DropNothing(links: seq<Link>, target: string)
    ensures |DropLinks(links, target, None)| <= |links|
    ensures DropLinks(links, target, None) == links <==> forall l | l in links :: l.target != target
    decreases |links|
  {
    if links != [] {
      var rest := links[1..];
      DropNothing(rest, target);
      assert links == [links[0]] + rest;
      assert forall l :: l in links <==> l == links[0] || l in rest;
      var kept := DropLinks(rest, target, None);
      if links[0].target != target { assert ([links[0]] + kept)[1..] == kept; }
    }
  }

  // ---- the tables after a removal ----

  function Removed(t: Tables, id: string): Tables
  {
    var swept := Sweep(t, {id});
    swept.(links := LinksNotTo(swept.links, id))
  }

  /** What a removal leaves under each id: nothing of the page, and of every other page all but its edges to it. */
  lemma RemovedAt(t: Tables, id: string, x: string)
    ensures x == id ==> EmptyAt(Removed(t, id), x)
    ensures x != id ==>
              (&& (x in Removed(t, id).pages <==> x in t.pages)
               && (x in t.pages ==> Removed(t, id).pages[x] == t.pages[x])
               && (x in Removed(t, id).embeddings <==> x in t.embeddings)
               && (x in t.embeddings ==> Removed(t, id).embeddings[x] == t.embeddings[x])
               && OwnedBy(Removed(t, id).links, x) == DropLinks(OwnedBy(t.links, x), id, None)
               && OwnedBy(Removed(t, id).claims, x) == OwnedBy(t.claims, x))
  {
    SweepAt(t, {id}, x);
    OwnedByNotTo(Sweep(t, {id}).links, id, x);
  }

  lemma FaithfulAfterRemoval(t: Tables, id: string, p: Parsed, cfg: Config)
    requires p.page.id != id && Faithful(t, p, cfg)
    ensures Faithful(Removed(t, id), p, cfg) <==> !LinksTo(p.page, id)
  {
    RemovedAt(t, id, p.page.id);
    DropNothing(p.page.linksOut, id);
  }

  /** No page but the removed one links to it. */
  ghost predicate NoneLinksTo(files: Files, id: string)
  {
    forall p | Parses(files, p) && PageAt(files, p).id != id :: !LinksTo(PageAt(files, p), id)
  }

  /** The disk without the file that held the id. */
  ghost predicate WithoutPage(files: Files, disk: Files, path: string, id: string)
  {
    && Parses(files, path) && PageAt(files, path).id == id && disk == files - {path}
  }

  lemma RemovalProjects(files: Files, t: Tables, disk: Files, path: string, id: string, cfg: Config)
    requires UniqueIds(files) && Projected(files, t, cfg) && WithoutPage(files, disk, path, id)
    ensures Projected(disk, Removed(t, id), cfg) <==> NoneLinksTo(files, id)
  {
    forall p | Parses(files, p) && p != path
      ensures Faithful(Removed(t, id), ParsedAt(files, p), cfg) <==> !LinksTo(PageAt(files, p), id)
    {
      FaithfulAfterRemoval(t, id, ParsedAt(files, p), cfg);
    }
    forall x | !HasId(disk, x) ensures EmptyAt(Removed(t, id), x) {
      RemovedAt(t, id, x);
      if x != id && HasId(files, x) {
        var p :| Parses(files, p) && PageAt(files, p).id == x;
        assert Parses(disk, p);
      }
    }
    forall p | Parses(disk, p) ensures Parses(files, p) && p != path && ParsedAt(disk, p) == ParsedAt(files, p) {}
    if Projected(disk, Removed(t, id), cfg) {
      forall p | Parses(files, p) && PageAt(files, p).id != id ensures !LinksTo(PageAt(files, p), id) {
        assert Parses(disk, p) && Faithful(Removed(t, id), ParsedAt(disk, p), cfg);
      }
    }
  }

  lemma RemoveIs(s: State, id: string)
    requires id != "" && id in s.tables.pages
    ensures Remove(s, id) == (State(s.files - {s.tables.pages[id].path}, Removed(s.tables, id)), Done(true))
  {}

  lemma HealthyPage(s: State, cfg: Config, id: string)
    requires Healthy(s, cfg) && id in s.tables.pages
    ensures WithoutPage(s.files, s.files - {s.tables.pages[id].path}, s.tables.pages[id].path, id)
  {
    HealthyIsLocated(s, cfg);
  }

  /** `remove_page` drops the edges into the page from the index but not from the pages that hold them:
      the tables are the projection of the disk it leaves exactly when no other page links to the removed one. */
  lemma RemoveKeepsProjection(s: State, id: string, cfg: Config)
    requires Healthy(s, cfg) && id != "" && id in s.tables.pages
    ensures var after := Remove(s, id).0;
            Projected(after.files, after.tables, cfg) <==> NoneLinksTo(s.files, id)
  {
    HealthyPage(s, cfg, id);
    RemoveIs(s, id);
    RemovalProjects(s.files, s.tables, s.files - {s.tables.pages[id].path}, s.tables.pages[id].path, id, cfg);
  }

  // ---- the next pass does not bring the edges back ----

  lemma FewerIsSound(files: Files, path: string)
    requires Sound(files)
    ensures Sound(files - {path})
  {
    assert forall p | Parses(files - {path}, p) :: Parses(files, p) && PageAt(files - {path}, p) == PageAt(files, p);
  }

  lemma RemovedSlotRows(t: Tables, id: string)
    requires SlotRowsSane(t)
    ensures SlotRowsSane(Removed(t, id))
  {}

  lemma SlotsLinkNowhere(files: Files, cfg: Config, path: string, id: string)
    requires files == Settled(files, cfg) && IsSlotPath(path)
    ensures Parses(files, path) && !LinksTo(PageAt(files, path), id)
  {
    SettledOverwrites(files, cfg);
    SlotsDiffer();
  }

  /** A row kept by its hash but no longer faithful cannot be trusted. */
  lemma KeptWrongIsNotTrusted(disk: Files, t: Tables, q: string, cfg: Config)
    requires Parses(disk, q) && SlotSettled(disk, q, cfg)
    requires Unchanged(Hashes(t, false), PageAt(disk, q), disk[q]) && !Faithful(t, ParsedAt(disk, q), cfg)
    ensures !TrustedForPass(disk, t, cfg)
  {
    assert !Covered(disk, Sorted(disk.Keys), t, false, q, cfg);
  }

  lemma ReferrerIsNoSlot(files: Files, disk: Files, q: string, id: string, cfg: Config)
    requires files == Settled(files, cfg) && Parses(files, q) && LinksTo(PageAt(files, q), id)
    ensures SlotSettled(disk, q, cfg)
  {
    if IsSlotPath(q) { SlotsLinkNowhere(files, cfg, q, id); }
  }

  lemma ReferrerIsNotTrusted(files: Files, t: Tables, disk: Files, path: string, id: string, cfg: Config, q: string)
    requires Projected(files, t, cfg) && WithoutPage(files, disk, path, id) && files == Settled(files, cfg)
    requires Parses(files, q) && PageAt(files, q).id != id && LinksTo(PageAt(files, q), id)
    ensures !TrustedForPass(disk, Removed(t, id), cfg)
  {
    assert Faithful(t, ParsedAt(files, q), cfg);
    FaithfulAfterRemoval(t, id, ParsedAt(files, q), cfg);
    RemovedAt(t, id, PageAt(files, q).id);
    ReferrerIsNoSlot(files, disk, q, id, cfg);
    assert ParsedAt(disk, q) == ParsedAt(files, q);
    KeptWrongIsNotTrusted(disk, Removed(t, id), q, cfg);
  }

  lemma ProjectedIsTrusted(files: Files, t: Tables, cfg: Config)
    requires Projected(files, t, cfg)
    ensures TrustedForPass(files, t, cfg)
  {
    forall p | Parses(files, p) ensures Covered(files, Sorted(files.Keys), t, false, p, cfg) {
      assert Faithful(t, ParsedAt(files, p), cfg);
    }
  }

  lemma RemovalTrusted(files: Files, t: Tables, disk: Files, path: string, id: string, cfg: Config)
    requires UniqueIds(files) && Projected(files, t, cfg) && WithoutPage(files, disk, path, id)
    requires files == Settled(files, cfg)
    ensures TrustedForPass(disk, Removed(t, id), cfg) <==> NoneLinksTo(files, id)
  {
    if NoneLinksTo(files, id) {
      RemovalProjects(files, t, disk, path, id, cfg);
      ProjectedIsTrusted(disk, Removed(t, id), cfg);
    } else {
      var q :| Parses(files, q) && PageAt(files, q).id != id && LinksTo(PageAt(files, q), id);
      ReferrerIsNotTrusted(files, t, disk, path, id, cfg, q);
    }
  }

  lemma RemovedPass(files: Files, t: Tables, disk: Files, path: string, id: string, now: int, cfg: Config)
    requires Sound(files) && SlotRowsSane(t) && Projected(files, t, cfg) && WithoutPage(files, disk, path, id)
    requires files == Settled(files, cfg)
    ensures var out := Pass(disk, Removed(t, id), now, cfg);
            Projected(out.files, out.tables, cfg) <==> NoneLinksTo(files, id)
  {
    FewerIsSound(files, path);
    RemovedSlotRows(t, id);
    RemovalTrusted(files, t, disk, path, id, cfg);
    SortedIsReachable(disk);
    RunRefinesProjection(disk, Sorted(disk.Keys), Removed(t, id), false, now, cfg);
  }

  /** The pass after a removal renders the index pages again, but the edges that were dropped stay dropped:
      it ends with the projection exactly when there were none. */
  lemma PassAfterRemove(s: State, id: string, now: int, cfg: Config)
    requires Healthy(s, cfg) && id != "" && id in s.tables.pages
    ensures var after := Remove(s, id).0;
            var out := Pass(after.files, after.tables, now, cfg);
            Projected(out.files, out.tables, cfg) <==> NoneLinksTo(s.files, id)
  {
    HealthyPage(s, cfg, id);
    RemoveIs(s, id);
    ProjectedSlotRows(s.files, s.tables, cfg);
    RemovedPass(s.files, s.tables, s.files - {s.tables.pages[id].path}, s.tables.pages[id].path, id, now, cfg);
  }

  // ---- a removal cut short ----

  /** The tables after the first `n` of the cascade's five deletions. */
  function Cut(t: Tables, id: string, n: nat): Tables
  {
    var own := if n < 3 then t.links else Without(t.links, {id});
    Tables(if n < 1 then t.pages else t.pages - {id},
           if n < 2 then t.embeddings else t.embeddings - {id},
           if n < 4 then own else LinksNotTo(own, id),
           if n < 5 then t.claims else Without(t.claims, {id}))
  }

  lemma CutIsRemoved(t: Tables, id: string)
    ensures Cut(t, id, 0) == t && Cut(t, id, 5) == Removed(t, id)
  {}

  /** The stores after each of the five deletions. */
  function Cuts(s: State, id: string): seq<State>
  {
    seq(5, i requires 0 <= i < 5 => State(s.files, Cut(s.tables, id, i + 1)))
  }

  lemma CutAt(t: Tables, id: string, n: nat, x: string)
    ensures OwnedBy(Cut(t, id, n).claims, x) == if n >= 5 && x == id then [] else OwnedBy(t.claims, x)
    ensures x != id ==> OwnedBy(Cut(t, id, n).links, x)
                        == if n < 4 then OwnedBy(t.links, x) else DropLinks(OwnedBy(t.links, x), id, None)
    ensures EmptyAt(t, x) ==> EmptyAt(Cut(t, id, n), x)
  {
    OwnedByWithout(t.claims, {id}, x);
    OwnedByWithout(t.links, {id}, x);
    OwnedByNotTo(Without(t.links, {id}), id, x);
  }

  lemma FaithfulAfterCut(t: Tables, id: string, n: nat, p: Parsed, cfg: Config)
    requires p.page.id != id && Faithful(t, p, cfg)
    ensures Faithful(Cut(t, id, n), p, cfg) <==> n < 4 || !LinksTo(p.page, id)
  {
    CutAt(t, id, n, p.page.id);
    DropNothing(p.page.linksOut, id);
  }

  lemma CutRowIsQueued(files: Files, t: Tables, id: string, n: nat, p: string)
    requires Parses(files, p) && PageAt(files, p).id == id && n > 0
    ensures Queued(files, Sorted(files.Keys), Cut(t, id, n), false, p)
  {}

  lemma CutCovers(files: Files, t: Tables, id: string, n: nat, cfg: Config, p: string)
    requires Projected(files, t, cfg) && Parses(files, p)
    requires n < 4 || PageAt(files, p).id == id || !LinksTo(PageAt(files, p), id)
    ensures Covered(files, Sorted(files.Keys), Cut(t, id, n), false, p, cfg)
  {
    assert Faithful(t, ParsedAt(files, p), cfg);
    if PageAt(files, p).id != id {
      FaithfulAfterCut(t, id, n, ParsedAt(files, p), cfg);
    } else if n > 0 {
      CutRowIsQueued(files, t, id, n, p);
    } else {
      assert Cut(t, id, n) == t;
    }
  }

  lemma CutReferrerIsLost(files: Files, t: Tables, id: string, n: nat, cfg: Config, q: string)
    requires Projected(files, t, cfg) && files == Settled(files, cfg) && n >= 4
    requires Parses(files, q) && PageAt(files, q).id != id && LinksTo(PageAt(files, q), id)
    ensures !TrustedForPass(files, Cut(t, id, n), cfg)
  {
    assert Faithful(t, ParsedAt(files, q), cfg);
    FaithfulAfterCut(t, id, n, ParsedAt(files, q), cfg);
    ReferrerIsNoSlot(files, files, q, id, cfg);
    KeptWrongIsNotTrusted(files, Cut(t, id, n), q, cfg);
  }

  lemma CutTrusted(files: Files, t: Tables, id: string, n: nat, cfg: Config)
    requires Projected(files, t, cfg) && files == Settled(files, cfg)
    ensures TrustedForPass(files, Cut(t, id, n), cfg) <==> n < 4 || NoneLinksTo(files, id)
  {
    if n < 4 || NoneLinksTo(files, id) {
      forall p | Parses(files, p) ensures Covered(files, Sorted(files.Keys), Cut(t, id, n), false, p, cfg) {
        CutCovers(files, t, id, n, cfg, p);
      }
      forall x | !HasId(files, x) ensures EmptyAt(Cut(t, id, n), x) { CutAt(t, id, n, x); }
    } else {
      var q :| Parses(files, q) && PageAt(files, q).id != id && LinksTo(PageAt(files, q), id);
      CutReferrerIsLost(files, t, id, n, cfg, q);
    }
  }

  lemma CutPass(files: Files, t: Tables, id: string, n: nat, now: int, cfg: Config)
    requires Sound(files) && SlotRowsSane(t) && Projected(files, t, cfg) && files == Settled(files, cfg)
    ensures var out := Pass(files, Cut(t, id, n), now, cfg);
            Projected(out.files, out.tables, cfg) <==> n < 4 || NoneLinksTo(files, id)
  {
    assert SlotRowsSane(Cut(t, id, n));
    CutTrusted(files, t, id, n, cfg);
    SortedIsReachable(files);
    RunRefinesProjection(files, Sorted(files.Keys), Cut(t, id, n), false, now, cfg);
  }

  /** If the process stops after `n` of the five deletions and before the file is gone, the next pass indexes the
      page again. Before the edges into the page are deleted that undoes the removal whatever links to it;
      from then on it does exactly when no other page links to it. */
  lemma CutShortIsUndone(s: State, id: string, n: nat, now: int, cfg: Config)
    requires Healthy(s, cfg)
    ensures var out := Pass(s.files, Cut(s.tables, id, n), now, cfg);
            Projected(out.files, out.tables, cfg) <==> n < 4 || NoneLinksTo(s.files, id)
  {
    ProjectedSlotRows(s.files, s.tables, cfg);
    CutPass(s.files, s.tables, id, n, now, cfg);
  }
}
