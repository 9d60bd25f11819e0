/** The write handlers as they run: locate, read, edit with loops, write, index. */
module Servers {
  import opened Model
  import opened TextOrder
  import opened IndexPages
  import opened Indexing
  import opened Stores
  import opened Indexers
  import opened Address
  import opened Handlers
  import Runs
  import opened Keeping
  import opened EditLaws
  import opened Commits
  import opened Histories
  import opened Removal
  import opened Sites

  // ---- list edits, item by item ----

  /** The duplicate check of a single link. */
  method FindLink(links: seq<Link>, target: string, tag: Option<string>) returns (found: bool)
    ensures found == HasLink(links, target, tag)
  {
    for i := 0 to |links|
      invariant !HasLink(links[..i], target, tag)
    {
      if links[i].target == target && links[i].tag == tag {
        return true;
      }
      assert links[..i + 1] == links[..i] + [links[i]];
    }
    assert links[..|links|] == links;
    found := false;
  }

  /** The position of the first claim with this id, or the length. */
  method FindClaim(claims: seq<Claim>, id: string) returns (k: nat)
    ensures k <= |claims| && (k < |claims| <==> HasClaim(claims, id))
    ensures k < |claims| ==> claims[k].id == id
    ensures !HasClaim(claims[..k], id)
  {
    k := 0;
    while k < |claims| && claims[k].id != id
      invariant k <= |claims| && !HasClaim(claims[..k], id)
    {
      assert claims[..k + 1] == claims[..k] + [claims[k]];
      k := k + 1;
    }
    assert k == |claims| ==> claims[..k] == claims;
  }

  datatype Key = Key(target: string, tag: Option<string>)

  function KeyOf(link: Link): Key
  {
    Key(link.target, link.tag)
  }

  /** The bulk-link loop: a set of the keys seen so far, starting with those on the page. */
  method CollectLinks(existing: seq<Link>, more: seq<Link>)
    returns (toAppend: seq<Link>, added: nat, duplicates: nat)
    ensures existing + toAppend == WithLinks(existing, more)
    ensures added == |toAppend| && added + duplicates == |more|
  {
    var seen := set l | l in existing :: KeyOf(l);
    toAppend, added, duplicates := [], 0, 0;
    assert existing + [] == existing;
    for i := 0 to |more|
      invariant existing + toAppend == WithLinks(existing, more[..i])
      invariant seen == set l | l in existing + toAppend :: KeyOf(l)
      invariant added == |toAppend| && added + duplicates == i
    {
      assert more[..i + 1][..i] == more[..i];
      var link := more[i];
      assert KeyOf(link) in seen <==> HasLink(existing + toAppend, link.target, link.tag);
      if KeyOf(link) in seen {
        duplicates := duplicates + 1;
      } else {
        assert existing + (toAppend + [link]) == existing + toAppend + [link];
        seen := seen + {KeyOf(link)};
        toAppend := toAppend + [link];
        added := added + 1;
      }
    }
    assert more[..|more|] == more;
  }

  /** The bulk-claim loop: empty ids on the page do not enter the set of ids seen. */
  method CollectClaims(existing: seq<Claim>, more: seq<Claim>)
    returns (toAppend: seq<Claim>, added: nat, duplicates: nat)
    ensures toAppend == Appended(existing, more)
    ensures added == |toAppend| && added + duplicates == |more|
  {
    var seen := set c | c in existing && c.id != "" :: c.id;
    toAppend, added, duplicates := [], 0, 0;
    for i := 0 to |more|
      invariant toAppend == Appended(existing, more[..i])
      invariant forall id :: id in seen <==> (id != "" && HasClaim(existing, id)) || HasClaim(toAppend, id)
      invariant added == |toAppend| && added + duplicates == i
    {
      assert more[..i + 1][..i] == more[..i];
      var claim := more[i];
      if claim.id in seen {
        duplicates := duplicates + 1;
      } else {
        forall id ensures HasClaim(toAppend + [claim], id) <==> HasClaim(toAppend, id) || claim.id == id {
          assert forall c :: c in toAppend + [claim] <==> c in toAppend || c == claim;
        }
        seen := seen + {claim.id};
        toAppend := toAppend + [claim];
        added := added + 1;
      }
    }
    assert more[..|more|] == more;
  }

  method KeepLinks(links: seq<Link>, target: string, tag: Option<string>) returns (kept: seq<Link>)
    ensures kept == DropLinks(links, target, tag)
  {
    kept := [];
    for i := 0 to |links|
      invariant kept == DropLinks(links[..i], target, tag)
    {
      assert links[..i + 1] == links[..i] + [links[i]];
      DropLinksSnoc(links[..i], links[i], target, tag);
      if !LinkMatches(links[i], target, tag) { kept := kept + [links[i]]; }
    }
    assert links[..|links|] == links;
  }

  method KeepClaims(claims: seq<Claim>, id: string) returns (kept: seq<Claim>)
    ensures kept == DropClaims(claims, id)
  {
    kept := [];
    for i := 0 to |claims|
      invariant kept == DropClaims(claims[..i], id)
    {
      assert claims[..i + 1] == claims[..i] + [claims[i]];
      DropClaimsSnoc(claims[..i], claims[i], id);
      if claims[i].id != id { kept := kept + [claims[i]]; }
    }
    assert claims[..|claims|] == claims;
  }

  // ---- what a request's outcome is, case by case ----

  /** How a read-modify-write request finds its page. */
  datatype Lookup = Found(path: string, page: Page) | Missing(error: Error)

  function Look(s: State, id: string): Lookup
  {
    if id !in s.tables.pages || s.tables.pages[id].path !in s.files then Missing(NotFound)
    else if s.files[s.tables.pages[id].path].page.None? then Missing(Unreadable)
    else Found(s.tables.pages[id].path, s.files[s.tables.pages[id].path].page.value)
  }

  lemma PlanOfLook(s: State, op: Op)
    requires !op.WritePage? && Validate(op).None?
    ensures PlanOf(s.files, s.tables, op)
         == match Look(s, op.pageId)
            case Missing(error) => Fail(error)
            case Found(path, page) => PlanAmend(path, page, op)
  {}

  lemma CommitGrows(files: Files, tables: Tables, ops: seq<Op>, i: nat)
    requires i < |ops| && AllValid(ops)
    requires CommitAll(files, tables, Prefix(ops, i)).failed.None?
    ensures ops[i] in ops
    ensures var c := CommitAll(files, tables, Prefix(ops, i));
            var plan := PlanOf(c.files, tables, ops[i]);
            CommitAll(files, tables, Prefix(ops, i + 1))
            == if plan.Fail? then c.(failed := Some(plan.error))
               else Commit(Applied(c.files, plan), c.changed + [plan.Write?], None)
  {
    assert ops[..i + 1][..i] == ops[..i];
  }

  lemma {:induction false} FailedIsFinal(files: Files, tables: Tables, ops: seq<Op>, i: nat)
    requires i <= |ops| && AllValid(ops) && CommitAll(files, tables, Prefix(ops, i)).failed.Some?
    ensures CommitAll(files, tables, ops) == CommitAll(files, tables, Prefix(ops, i))
    decreases |ops| - i
  {
    if i == |ops| {
      assert Prefix(ops, i) == ops;
    } else {
      assert ops[..i + 1][..i] == ops[..i];
      FailedIsFinal(files, tables, ops, i + 1);
    }
  }

  lemma NextCut(s: State, id: string, n: nat, now: State, before: seq<State>, trail: seq<State>)
    requires n < 5 && now == State(s.files, Cut(s.tables, id, n + 1))
    requires trail == before + Cuts(s, id)[..n] + [now]
    ensures trail == before + Cuts(s, id)[..n + 1]
    ensures n == 4 ==> trail == before + Cuts(s, id)
  {
    TrailGrows(Cuts(s, id), n, now, before, trail);
  }

  lemma WipedIsSafe(s: State, dropped: set<TableName>)
    ensures NoPhantom(s) ==> NoPhantom(State(s.files, Wipe(s.tables, dropped)))
  {}

  function DroppedAt(s: Site, done: set<TableName>): Site
  {
    Site(State(s.state.files, Wipe(s.state.tables, done)), s.missing + done)
  }

  lemma DroppedNothing(s: Site)
    ensures DroppedAt(s, {}) == s
  {}

  lemma DroppedOneMore(s: Site, done: set<TableName>, table: TableName, before: seq<State>, trail: seq<State>)
    ensures Wipe(DroppedAt(s, done).state.tables, {table}) == DroppedAt(s, done + {table}).state.tables
    ensures DroppedAt(s, done).missing + {table} == DroppedAt(s, done + {table}).missing
    ensures NoPhantom(s.state) && SafeSince(before, trail)
            ==> SafeSince(before, trail + [DroppedAt(s, done + {table}).state])
  {
    WipedIsSafe(s.state, done + {table});
  }

  lemma CutsAreSafe(s: State, id: string, trail: seq<State>)
    requires NoPhantom(s)
    ensures SafeSince(trail, trail + Cuts(s, id))
  {
    forall i | 0 <= i < 5 ensures NoPhantom(Cuts(s, id)[i]) {
      assert Cuts(s, id)[i] == State(s.files, Cut(s.tables, id, i + 1));
    }
  }

  /** Once no row points at it, a file can go. */
  lemma UnlinkIsSafe(s: State, t: State, id: string, from: seq<State>, trail: seq<State>)
    requires NoPhantom(s) && UnsharedPath(s, id) && id in s.tables.pages && SafeSince(from, trail)
    requires t == State(s.files, Removed(s.tables, id))
    ensures var after := State(t.files - {s.tables.pages[id].path}, t.tables);
            NoPhantom(after) && SafeSince(from, trail + [after])
  {}

  /** No other row claims the file of this page. */
  ghost predicate UnsharedPath(s: State, id: string)
  {
    forall x | x in s.tables.pages && x != id && id in s.tables.pages ::
      s.tables.pages[x].path != s.tables.pages[id].path
  }

  lemma FindByIdStep(files: Files, paths: seq<string>, i: nat, id: string)
    requires i < |paths|
    ensures FindById(files, paths[i..], id)
         == if Parses(files, paths[i]) && PageAt(files, paths[i]).id == id then Some(paths[i])
            else FindById(files, paths[i + 1..], id)
  {
    assert paths[i..][1..] == paths[i + 1..];
  }

  /** In a healthy corpus every row has its file to itself, so a removal makes no phantom. */
  lemma HealthyIsUnshared(s: State, cfg: Config, id: string)
    requires Healthy(s, cfg)
    ensures UnsharedPath(s, id) && NoPhantom(s)
  {
    HealthyIsLocated(s, cfg);
  }

  class Server {
    const store: Store
    const indexer: Indexer

    ghost predicate Wired()
    {
      indexer.store == store
    }

    constructor (store: Store, cfg: Config)
      ensures this.store == store && indexer.cfg == cfg && Wired()
    {
      this.store := store;
      indexer := new Indexer(store, cfg);
    }

    /** The indexed path of a page, then its current contents on disk. */
    method Locate(id: string) returns (r: Lookup)
      ensures r == Look(store.Now(), id)
    {
      if id !in store.pages {
        return Missing(NotFound);
      }
      var path := store.pages[id].path;
      if path !in store.files {
        return Missing(NotFound);
      }
      if store.files[path].page.None? {
        return Missing(Unreadable);
      }
      r := Found(path, store.files[path].page.value);
    }

    /** The pass every write ends with. */
    method RunPass(now: int)
      requires Wired()
      modifies store`files, store`pages, store`embeddings, store`links, store`claims, store`trail
      ensures var out := Pass(old(store.files), old(store.AllTables()), now, indexer.cfg);
              store.Now() == State(out.files, out.tables)
      ensures NoPhantom(old(store.Now())) ==> NoPhantom(store.Now()) && SafeSince(old(store.trail), store.trail)
    {
      var _ := indexer.Run(Sorted(store.files.Keys), false, now);
    }

    method WriteAndIndex(path: string, page: Page, now: int)
      requires Wired()
      modifies store`files, store`pages, store`embeddings, store`links, store`claims, store`trail
      ensures store.Now() == WrittenAndIndexed(old(store.Now()), path, page, now, indexer.cfg)
      ensures NoPhantom(old(store.Now())) ==> NoPhantom(store.Now()) && SafeSince(old(store.trail), store.trail)
    {
      ghost var s, before := store.Now(), store.trail;
      store.WriteFile(path, Print(page));
      ghost var written := store.trail;
      if NoPhantom(s) { WriteIsSafe(s, path, Print(page), before); }
      RunPass(now);
      if NoPhantom(s) { SafeChain(before, written, store.trail); }
    }

    // ---- the read-and-edit step of each request ----

    /** The page a write puts on disk, and where; the existence checks read the index. */
    method PlanPage(page: Page, mode: Mode, suffix: string) returns (plan: Plan)
      requires !page.kind.Index?
      ensures plan == PlanWrite(store.AllTables(), page, mode, suffix)
      ensures plan.Write? ==> AsGiven(plan.page, page, mode, suffix) && plan.path == TargetPath(page.kind, plan.page.id)
    {
      if mode == Create {
        if HasSeparator(page.id) {
          return Write(TargetPath(page.kind, page.id), page);
        }
        var mangled := MangledPage(page, suffix);
        if !ValidId(mangled.id) {
          return Fail(Malformed);
        }
        if mangled.id in store.pages {
          return Fail(UuidCollision);
        }
        return Write(TargetPath(page.kind, mangled.id), mangled);
      }
      if page.id !in store.pages {
        return Fail(NotFound);
      }
      plan := Write(TargetPath(page.kind, page.id), page);
    }

    /** The edited page of a read-modify-write request. */
    method Amend(path: string, page: Page, op: Op) returns (plan: Plan)
      requires !op.WritePage?
      ensures plan == PlanAmend(path, page, op)
    {
      match op
      case AddLink(_, link) =>
        var duplicate := FindLink(page.linksOut, link.target, link.tag);
        plan := if duplicate then Nothing else Write(path, page.(linksOut := page.linksOut + [link]));
      case AddClaim(_, claim) =>
        var k := FindClaim(page.claims, claim.id);
        plan := if k < |page.claims| then Nothing else Write(path, page.(claims := page.claims + [claim]));
      case UpdateClaim(_, claimId, claim) =>
        var k := FindClaim(page.claims, claimId);
        if k < |page.claims| {
          SetClaimAt(page.claims, k, claimId, claim);
          plan := Write(path, page.(claims := page.claims[k := claim]));
        } else {
          plan := Fail(ClaimNotFound);
        }
      case AddLinks(_, links) =>
        var toAppend, _, _ := CollectLinks(page.linksOut, links);
        assert page.linksOut + [] == page.linksOut;
        assert |page.linksOut + toAppend| == |page.linksOut| + |toAppend|;
        plan := if toAppend == [] then Nothing else Write(path, page.(linksOut := page.linksOut + toAppend));
      case AddClaims(_, claims) =>
        var toAppend, _, _ := CollectClaims(page.claims, claims);
        plan := if toAppend == [] then Nothing else Write(path, page.(claims := page.claims + toAppend));
      case RemoveLink(_, target, tag) =>
        var kept := KeepLinks(page.linksOut, target, tag);
        plan := if |kept| == |page.linksOut| then Nothing else Write(path, page.(linksOut := kept));
      case RemoveClaim(_, claimId) =>
        var kept := KeepClaims(page.claims, claimId);
        plan := if |kept| == |page.claims| then Fail(ClaimNotFound) else Write(path, page.(claims := kept));
    }

    method Plan(op: Op) returns (plan: Handlers.Plan)
      requires Validate(op).None?
      ensures plan == PlanOf(store.files, store.AllTables(), op)
    {
      if op.WritePage? {
        plan := PlanPage(op.page, op.mode, op.suffix);
      } else {
        PlanOfLook(store.Now(), op);
        var r := Locate(op.pageId);
        if r.Missing? {
          return Fail(r.error);
        }
        plan := Amend(r.path, r.page, op);
      }
    }

    /** Plan a request against a `pages` table that exists, write, and index. */
    method Perform(op: Op, now: int) returns (reply: Reply)
      requires Wired() && Validate(op).None?
      modifies store`files, store`pages, store`embeddings, store`links, store`claims, store`trail
      ensures (store.Now(), reply) == Exec(old(store.Now()), op, now, indexer.cfg)
      ensures NoPhantom(old(store.Now())) ==> NoPhantom(store.Now()) && SafeSince(old(store.trail), store.trail)
    {
      ExecPlanned(store.Now(), op, now, indexer.cfg);
      var plan := Plan(op);
      match plan
      case Fail(error) => reply := Refused(error);
      case Nothing => reply := Done(false);
      case Write(path, page) =>
        WriteAndIndex(path, page, now);
        reply := Done(true);
    }

    /** One request. It ends as the specification says, and no state on the way has a phantom row. */
    method Call(op: Op, now: int) returns (reply: Reply)
      requires Wired()
      modifies store`files, store`pages, store`embeddings, store`links, store`claims, store`trail
      ensures (store.Whole(), reply) == RequestAt(old(store.Whole()), op, now, indexer.cfg)
      ensures NoPhantom(old(store.Now())) ==> NoPhantom(store.Now()) && SafeSince(old(store.trail), store.trail)
    {
      ghost var s := store.Whole();
      var refusal := Upfront(op);
      if refusal.Some? {
        RefusedRequest(s, op, now, indexer.cfg);
        return Refused(refusal.value);
      }
      if PagesTable in store.missing {
        UnindexedRequest(s, op, now, indexer.cfg);
        return Reply.NoIndex;
      }
      reply := Perform(op, now);
      IndexedRequest(s, op, now, indexer.cfg, store.Now(), reply);
    }

    // ---- write_batch ----

    /** Phase 1: the first request that is no batch request or whose arguments are refused. */
    method ValidateAll(ops: seq<Op>) returns (i: nat, error: Error)
      ensures i == FirstInvalid(ops)
      ensures i < |ops| ==> error == if Batchable(ops[i]) then Validate(ops[i]).value else UnknownKind
    {
      i, error := 0, UnknownKind;
      while i < |ops|
        invariant i <= |ops| && forall k | 0 <= k < i :: Batchable(ops[k]) && Validate(ops[k]).None?
      {
        if !Batchable(ops[i]) {
          FirstInvalidIs(ops, i);
          return i, UnknownKind;
        }
        var invalid := Validate(ops[i]);
        if invalid.Some? {
          FirstInvalidIs(ops, i);
          return i, invalid.value;
        }
        i := i + 1;
      }
      FirstInvalidIs(ops, i);
    }

    method CheckOne(op: Op) returns (unmet: Option<Error>)
      requires Batchable(op)
      ensures unmet == Check(store.Now(), op)
    {
      if op.WritePage? {
        unmet := if op.mode == Update && op.page.id !in store.pages then Some(NotFound) else None;
      } else if op.UpdateClaim? {
        var r := Locate(op.pageId);
        if r.Missing? {
          return Some(r.error);
        }
        var k := FindClaim(r.page.claims, op.claimId);
        unmet := if k < |r.page.claims| then None else Some(ClaimNotFound);
      } else {
        unmet := if op.pageId !in store.pages then Some(NotFound) else None;
      }
    }

    /** Phase 2: the first request whose page or claim is not there before the batch. */
    method CheckAll(ops: seq<Op>) returns (i: nat, error: Error)
      requires forall op | op in ops :: Batchable(op)
      ensures i == FirstUnmet(store.Now(), ops)
      ensures i < |ops| ==> Check(store.Now(), ops[i]) == Some(error)
    {
      i, error := 0, NotFound;
      while i < |ops|
        invariant i <= |ops| && forall k | 0 <= k < i :: Check(store.Now(), ops[k]).None?
      {
        assert ops[i] in ops;
        var unmet := CheckOne(ops[i]);
        if unmet.Some? {
          FirstUnmetIs(store.Now(), ops, i);
          return i, unmet.value;
        }
        i := i + 1;
      }
      FirstUnmetIs(store.Now(), ops, i);
    }

    /** Phase 3: plan and write the requests one after the other, reading the index as it was. */
    method CommitEach(ops: seq<Op>) returns (changed: seq<bool>, failed: Option<Error>)
      requires AllValid(ops)
      modifies store`files, store`trail
      ensures Commit(store.files, changed, failed) == CommitAll(old(store.files), store.AllTables(), ops)
      ensures NoPhantom(old(store.Now())) ==> NoPhantom(store.Now()) && SafeSince(old(store.trail), store.trail)
    {
      ghost var files := store.files;
      changed, failed := [], None;
      assert Prefix(ops, 0) == [];
      for i := 0 to |ops|
        invariant Commit(store.files, changed, None) == CommitAll(files, store.AllTables(), Prefix(ops, i))
        invariant NoPhantom(old(store.Now())) ==> NoPhantom(store.Now()) && SafeSince(old(store.trail), store.trail)
      {
        CommitGrows(files, store.AllTables(), ops, i);
        var plan := Plan(ops[i]);
        if plan.Fail? {
          FailedIsFinal(files, store.AllTables(), ops, i + 1);
          return changed, Some(plan.error);
        }
        if plan.Write? {
          WriteOne(plan.path, plan.page);
        }
        changed := changed + [plan.Write?];
      }
      assert Prefix(ops, |ops|) == ops;
    }

    method WriteOne(path: string, page: Page)
      modifies store`files, store`trail
      ensures store.files == old(store.files)[path := Print(page)]
      ensures forall t | NoPhantom(old(store.Now())) && SafeSince(t, old(store.trail)) ::
                NoPhantom(store.Now()) && SafeSince(t, store.trail)
    {
      ghost var s, before := store.Now(), store.trail;
      store.WriteFile(path, Print(page));
      if NoPhantom(s) { WriteIsSafe(s, path, Print(page), before); }
      forall t | NoPhantom(s) && SafeSince(t, before) ensures NoPhantom(store.Now()) && SafeSince(t, store.trail) {
        SafeChain(t, before, store.trail);
      }
    }

    /** Phases 2 and 3 of a batch that is not refused upfront, and the pass. */
    method CheckAndCommit(ops: seq<Op>, now: int) returns (reply: BatchReply)
      requires Wired() && ops != [] && FirstInvalid(ops) == |ops|
      modifies store`files, store`pages, store`embeddings, store`links, store`claims, store`trail
      ensures (store.Now(), reply) == Batch(old(store.Now()), ops, now, indexer.cfg)
      ensures NoPhantom(old(store.Now())) ==> NoPhantom(store.Now()) && SafeSince(old(store.trail), store.trail)
    {
      assert AllBatchable(ops) && AllValid(ops);
      BatchEnds(store.Now(), ops, now, indexer.cfg);
      var i, error := CheckAll(ops);
      if i < |ops| {
        return Rejected(i, error);
      }
      ghost var s, before := store.Now(), store.trail;
      var changed, failed := CommitEach(ops);
      if failed.Some? {
        return Aborted(|changed|, failed.value);
      }
      ghost var written := store.trail;
      RunPass(now);
      if NoPhantom(s) { SafeChain(before, written, store.trail); }
      reply := Committed(changed);
    }

    method WriteBatch(ops: seq<Op>, now: int) returns (reply: BatchReply)
      requires Wired()
      modifies store`files, store`pages, store`embeddings, store`links, store`claims, store`trail
      ensures (store.Whole(), reply) == BatchAt(old(store.Whole()), ops, now, indexer.cfg)
      ensures NoPhantom(old(store.Now())) ==> NoPhantom(store.Now()) && SafeSince(old(store.trail), store.trail)
    {
      ghost var s := store.Whole();
      if ops == [] {
        IndexedBatch(s, ops, now, indexer.cfg, s.state, Rejected(0, Malformed));
        return Rejected(0, Malformed);
      }
      var i, error := ValidateAll(ops);
      if i < |ops| {
        BatchRefuses(s.state, ops, i, now, indexer.cfg);
        IndexedBatch(s, ops, now, indexer.cfg, s.state, Rejected(i, error));
        return Rejected(i, error);
      }
      if PagesTable in store.missing {
        return Unindexed;
      }
      reply := CheckAndCommit(ops, now);
      IndexedBatch(s, ops, now, indexer.cfg, store.Now(), reply);
    }

    // ---- remove_page and re-indexing ----

    /** The cascade: the page row goes first and the file last, so a crash in between leaves a page that
        is not indexed and never a row without its file. */
    method RemovePage(id: string) returns (reply: Reply)
      modifies store`files, store`pages, store`embeddings, store`links, store`claims, store`trail
      ensures (store.Whole(), reply) == RemoveAt(old(store.Whole()), id)
      ensures store.trail
           == old(store.trail) + if reply.Done? then Cuts(old(store.Now()), id) + [store.Now()] else []
      ensures UnsharedPath(old(store.Now()), id) && NoPhantom(old(store.Now()))
              ==> NoPhantom(store.Now()) && SafeSince(old(store.trail), store.trail)
    {
      if id == "" {
        return Refused(Malformed);
      }
      if PagesTable in store.missing {
        return Reply.NoIndex;
      }
      if id !in store.pages {
        return Refused(NotFound);
      }
      ghost var s, before := store.Now(), store.trail;
      var path := store.pages[id].path;
      DeleteRows(id);
      ghost var t, rows := store.Now(), store.trail;
      store.Unlink(path);
      if UnsharedPath(s, id) && NoPhantom(s) {
        CutsAreSafe(s, id, before);
        UnlinkIsSafe(s, t, id, before, rows);
      }
      assert store.trail == before + (Cuts(s, id) + [store.Now()]);
      reply := Done(true);
    }

    method DeleteRows(id: string)
      modifies store`files, store`pages, store`embeddings, store`links, store`claims, store`trail
      ensures store.files == old(store.files)
      ensures store.AllTables() == Removed(old(store.AllTables()), id)
      ensures store.trail == old(store.trail) + Cuts(old(store.Now()), id)
    {
      ghost var s, before := store.Now(), store.trail;
      CutIsRemoved(s.tables, id);
      store.DeletePageRow(id);
      NextCut(s, id, 0, store.Now(), before, store.trail);
      store.DeleteEmbedding(id);
      NextCut(s, id, 1, store.Now(), before, store.trail);
      store.DeleteLinksFrom(id);
      NextCut(s, id, 2, store.Now(), before, store.trail);
      store.DeleteLinksTo(id);
      NextCut(s, id, 3, store.Now(), before, store.trail);
      store.DeleteClaims(id);
      NextCut(s, id, 4, store.Now(), before, store.trail);
    }

    method FindPageFile(id: string) returns (path: Option<string>)
      ensures path == FindById(store.files, Sorted(store.files.Keys), id)
    {
      var paths := Sorted(store.files.Keys);
      for i := 0 to |paths|
        invariant FindById(store.files, paths, id) == FindById(store.files, paths[i..], id)
      {
        FindByIdStep(store.files, paths, i, id);
        if paths[i] in store.files && store.files[paths[i]].page.Some? && store.files[paths[i]].page.value.id == id {
          return Some(paths[i]);
        }
      }
      path := None;
    }

    /** Re-index one page, given a `pages` table. */
    method Refresh(id: string, now: int) returns (reply: Reply)
      requires Wired() && id != ""
      modifies store`files, store`pages, store`embeddings, store`links, store`claims, store`trail
      ensures (store.Now(), reply) == Histories.ReindexPage(old(store.Now()), id, now, indexer.cfg)
      ensures NoPhantom(old(store.Now())) ==> NoPhantom(store.Now()) && SafeSince(old(store.trail), store.trail)
    {
      var path: Option<string> := None;
      if id in store.pages {
        path := Some(store.pages[id].path);
      } else {
        path := FindPageFile(id);
      }
      if path.None? {
        return Refused(NotFound);
      }
      if path.value !in store.files {
        return Refused(FileNotFound);
      }
      var _ := indexer.Run([path.value], true, now);
      reply := Done(true);
    }

    method ReindexPage(id: string, now: int) returns (reply: Reply)
      requires Wired()
      modifies store`files, store`pages, store`embeddings, store`links, store`claims, store`trail
      ensures (store.Whole(), reply) == ReindexPageAt(old(store.Whole()), id, now, indexer.cfg)
      ensures NoPhantom(old(store.Now())) ==> NoPhantom(store.Now()) && SafeSince(old(store.trail), store.trail)
    {
      ghost var s := store.Whole();
      if id == "" {
        IndexedRefresh(s, id, now, indexer.cfg, s.state, Refused(Malformed));
        return Refused(Malformed);
      }
      if PagesTable in store.missing {
        return Reply.NoIndex;
      }
      reply := Refresh(id, now);
      IndexedRefresh(s, id, now, indexer.cfg, store.Now(), reply);
    }

    /** Drop every table that can be dropped, create the missing ones, index everything, unless asked to stop before
        or after the drops. */
    method ReindexAll(failing: set<TableName>, stop: Stopping, now: int)
      returns (reply: RebuildReply, report: Option<Report>)
      requires Wired()
      modifies store
      ensures (store.Whole(), reply) == RebuildAt(old(store.Whole()), ALL_TABLES - failing, stop, now, indexer.cfg)
      ensures var left := ALL_TABLES - failing;
              var out := Runs.ReindexAll(old(store.files), old(store.AllTables()), left, now, indexer.cfg);
              report == if stop.Never? then Some(out.report) else None
      ensures NoPhantom(old(store.Now())) ==> NoPhantom(store.Now()) && SafeSince(old(store.trail), store.trail)
    {
      if stop.BeforeWipe? {
        return StoppedFirst, None;
      }
      ghost var s, before := store.Now(), store.trail;
      DropAll(failing);
      if stop.AfterWipe? {
        return StoppedWiped(ALL_TABLES - failing), None;
      }
      ghost var dropped := store.trail;
      var counted := IndexAnew(now);
      if NoPhantom(s) { SafeChain(before, dropped, store.trail); }
      reply, report := Rebuilt, Some(counted);
    }

    /** Create the missing tables and index every file, whatever its hash. */
    method IndexAnew(now: int) returns (report: Report)
      requires Wired()
      modifies store
      ensures var files := old(store.files);
              var out := Run(files, Sorted(files.Keys), old(store.AllTables()), true, now, indexer.cfg);
              store.Whole() == Site(State(out.files, out.tables), {}) && report == out.report
      ensures NoPhantom(old(store.Now())) ==> NoPhantom(store.Now()) && SafeSince(old(store.trail), store.trail)
    {
      store.EnsureTables();
      report := indexer.Run(Sorted(store.files.Keys), true, now);
    }

    /** Drop one more table. */
    method DropOne(table: TableName, ghost s: Site, ghost done: set<TableName>, ghost before: seq<State>)
      requires store.Whole() == DroppedAt(s, done) && (NoPhantom(s.state) ==> SafeSince(before, store.trail))
      modifies store
      ensures store.Whole() == DroppedAt(s, done + {table}) && (NoPhantom(s.state) ==> SafeSince(before, store.trail))
    {
      DroppedOneMore(s, done, table, before, store.trail);
      store.Drop(table);
    }

    method DropAll(failing: set<TableName>)
      modifies store
      ensures store.Whole() == DroppedAt(old(store.Whole()), ALL_TABLES - failing)
      ensures NoPhantom(old(store.Now())) ==> NoPhantom(store.Now()) && SafeSince(old(store.trail), store.trail)
    {
      ghost var s, before := store.Whole(), store.trail;
      var left := ALL_TABLES - failing;
      ghost var done: set<TableName> := {};
      DroppedNothing(s);
      while left != {}
        invariant left + done == ALL_TABLES - failing && store.Whole() == DroppedAt(s, done)
        invariant NoPhantom(s.state) ==> SafeSince(before, store.trail)
        decreases |left|
      {
        var table :| table in left;
        DropOne(table, s, done, before);
        left, done := left - {table}, done + {table};
      }
      WipedIsSafe(s.state, done);
    }
  }
}
