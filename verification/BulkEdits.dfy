/** `add_links` and `add_claims` against the single requests they stand for. */
module BulkEdits {
  import opened Model
  import opened IndexPages
  import opened Indexing
  import opened Runs
  import opened Steady
  import opened Stores
  import opened Handlers
  import opened Keeping
  import opened Commits
  import opened Batches

  // ---- the lists ----

  lemma {:induction false} WithLinksGrows(links: seq<Link>, more: seq<Link>)
    ensures links <= WithLinks(links, more)
    decreases |more|
  {
    if more != [] { WithLinksGrows(links, more[..|more| - 1]); }
  }

  lemma {:induction false} WithClaimsGrows(claims: seq<Claim>, more: seq<Claim>)
    ensures claims <= WithClaims(claims, more)
    decreases |more|
  {
    if more != [] { WithClaimsGrows(claims, more[..|more| - 1]); }
  }

  /** Single requests add no claim whose id the page already has. */
  lemma {:induction false} WithClaimsAddsNew(claims: seq<Claim>, more: seq<Claim>)
    ensures |claims| <= |WithClaims(claims, more)|
    ensures forall c | c in WithClaims(claims, more)[|claims|..] :: !HasClaim(claims, c.id)
    decreases |more|
  {
    WithClaimsGrows(claims, more);
    if more != [] {
      var init, last := more[..|more| - 1], more[|more| - 1];
      WithClaimsAddsNew(claims, init);
      WithClaimsGrows(claims, init);
      var before := WithClaims(claims, init);
      assert (before + [last])[|claims|..] == before[|claims|..] + [last];
      if !HasClaim(before, last.id) { assert forall c | c in claims :: c in before; }
    }
  }

  lemma HasClaimAppended(a: seq<Claim>, b: seq<Claim>, id: string)
    ensures HasClaim(a + b, id) <==> HasClaim(a, id) || HasClaim(b, id)
  {
    assert forall c :: c in a + b <==> c in a || c in b;
  }

  lemma {:induction false} AppendedTakesEmpty(claims: seq<Claim>, more: seq<Claim>)
    requires HasClaim(more, "")
    ensures HasClaim(Appended(claims, more), "")
    decreases |more|
  {
    var init, last := more[..|more| - 1], more[|more| - 1];
    assert more == init + [last];
    HasClaimAppended(init, [last], "");
    HasClaimAppended(Appended(claims, init), [last], last.id);
    HasClaimAppended(Appended(claims, init), [last], "");
    if HasClaim(init, "") {
      AppendedTakesEmpty(claims, init);
    } else {
      assert last in [last];
    }
  }

  lemma {:induction false} AppendedIsFold(claims: seq<Claim>, more: seq<Claim>)
    requires !(HasClaim(claims, "") && HasClaim(more, ""))
    ensures claims + Appended(claims, more) == WithClaims(claims, more)
    decreases |more|
  {
    if more != [] {
      var init, last := more[..|more| - 1], more[|more| - 1];
      assert more == init + [last];
      HasClaimAppended(init, [last], "");
      assert last in [last];
      AppendedIsFold(claims, init);
      HasClaimAppended(claims, Appended(claims, init), last.id);
      assert claims + (Appended(claims, init) + [last]) == claims + Appended(claims, init) + [last];
    }
  }

  /** The bulk request's seen-set leaves out empty ids found on the page, so it agrees with the single
      requests exactly when an empty claim id is not both on the page and in the list. */
  lemma BulkClaimsAgree(claims: seq<Claim>, more: seq<Claim>)
    ensures claims + Appended(claims, more) == WithClaims(claims, more)
       <==> !(HasClaim(claims, "") && HasClaim(more, ""))
  {
    if HasClaim(claims, "") && HasClaim(more, "") {
      AppendedTakesEmpty(claims, more);
      WithClaimsGrows(claims, more);
      WithClaimsAddsNew(claims, more);
      var a := Appended(claims, more);
      assert (claims + a)[|claims|..] == a;
    } else {
      AppendedIsFold(claims, more);
    }
  }

  /** One page claim and one new claim, both without an id: the bulk request adds what the single one refuses. */
  lemma EmptyIdIsAddedTwice(a: Claim, b: Claim)
    requires a.id == "" && b.id == ""
    ensures [a] + Appended([a], [b]) == [a, b] && WithClaims([a], [b]) == [a]
  {
    assert a in [a] && [b][..0] == [];
  }

  // ---- the same edits as a batch of single requests ----

  function LinkOps(id: string, links: seq<Link>): seq<Op>
  {
    seq(|links|, i requires 0 <= i < |links| => AddLink(id, links[i]))
  }

  function ClaimOps(id: string, claims: seq<Claim>): seq<Op>
  {
    seq(|claims|, i requires 0 <= i < |claims| => AddClaim(id, claims[i]))
  }

  function Linked(files: Files, path: string, more: seq<Link>): Files
    requires Parses(files, path)
  {
    var page := PageAt(files, path);
    var all := WithLinks(page.linksOut, more);
    if all == page.linksOut then files else files[path := Print(page.(linksOut := all))]
  }

  function Claimed(files: Files, path: string, more: seq<Claim>): Files
    requires Parses(files, path)
  {
    var page := PageAt(files, path);
    var all := WithClaims(page.claims, more);
    if all == page.claims then files else files[path := Print(page.(claims := all))]
  }

  /** The disk the bulk claim request plans. */
  function BulkClaimed(files: Files, path: string, claims: seq<Claim>): Files
    requires Parses(files, path)
  {
    var page := PageAt(files, path);
    var more := Appended(page.claims, claims);
    if more == [] then files else files[path := Print(page.(claims := page.claims + more))]
  }

  predicate HasTargets(links: seq<Link>)
  {
    forall l | l in links :: l.target != ""
  }

  lemma LinkOpsValid(id: string, links: seq<Link>)
    requires id != "" && HasTargets(links)
    ensures AllValid(LinkOps(id, links)) && AllBatchable(LinkOps(id, links))
  {
    var ops := LinkOps(id, links);
    forall op | op in ops ensures Validate(op).None? && Batchable(op) {
      var i :| 0 <= i < |ops| && ops[i] == op;
      assert links[i] in links;
    }
  }

  lemma ClaimOpsValid(id: string, claims: seq<Claim>)
    requires id != ""
    ensures AllValid(ClaimOps(id, claims)) && AllBatchable(ClaimOps(id, claims))
  {}

  lemma {:induction false} LinkOpsCommit(files: Files, tables: Tables, id: string, links: seq<Link>)
    requires id != "" && HasTargets(links) && AllValid(LinkOps(id, links))
    requires id in tables.pages && Parses(files, tables.pages[id].path)
    ensures var c := CommitAll(files, tables, LinkOps(id, links));
            c.failed.None? && c.files == Linked(files, tables.pages[id].path, links)
    decreases |links|
  {
    if links != [] {
      var init, last := links[..|links| - 1], links[|links| - 1];
      var ops := LinkOps(id, links);
      assert ops[..|ops| - 1] == LinkOps(id, init);
      assert forall l | l in init :: l in links;
      LinkOpsValid(id, init);
      LinkOpsCommit(files, tables, id, init);
      WithLinksGrows(PageAt(files, tables.pages[id].path).linksOut, init);
      AddedLink(files, tables, id, init, last);
    }
  }

  lemma LinkedPage(files: Files, path: string, more: seq<Link>)
    requires Parses(files, path)
    ensures var page := PageAt(files, path);
            && Parses(Linked(files, path, more), path)
            && PageAt(Linked(files, path, more), path) == page.(linksOut := WithLinks(page.linksOut, more))
  {}

  lemma LinkedOneMore(files: Files, path: string, init: seq<Link>, last: Link)
    requires Parses(files, path)
    ensures var page, sofar := PageAt(files, path), WithLinks(PageAt(files, path).linksOut, init);
            Linked(files, path, init + [last])
            == if HasLink(sofar, last.target, last.tag) then Linked(files, path, init)
               else Linked(files, path, init)[path := Print(page.(linksOut := sofar + [last]))]
  {
    var page := PageAt(files, path);
    var sofar := WithLinks(page.linksOut, init);
    WithLinksGrows(page.linksOut, init);
    assert (init + [last])[..|init + [last]| - 1] == init;
    assert |sofar + [last]| > |page.linksOut|;
  }

  lemma AddLinkPlan(files: Files, tables: Tables, id: string, link: Link)
    requires id != "" && link.target != "" && id in tables.pages && Parses(files, tables.pages[id].path)
    ensures var path := tables.pages[id].path;
            var page := PageAt(files, path);
            var plan := PlanOf(files, tables, AddLink(id, link));
            && !plan.Fail?
            && Applied(files, plan)
               == if HasLink(page.linksOut, link.target, link.tag) then files
                  else files[path := Print(page.(linksOut := page.linksOut + [link]))]
  {}

  lemma AddedLink(files: Files, tables: Tables, id: string, init: seq<Link>, last: Link)
    requires id != "" && last.target != "" && id in tables.pages && Parses(files, tables.pages[id].path)
    ensures var path := tables.pages[id].path;
            var plan := PlanOf(Linked(files, path, init), tables, AddLink(id, last));
            !plan.Fail? && Applied(Linked(files, path, init), plan) == Linked(files, path, init + [last])
  {
    var path := tables.pages[id].path;
    LinkedPage(files, path, init);
    LinkedOneMore(files, path, init, last);
    AddLinkPlan(Linked(files, path, init), tables, id, last);
  }

  lemma {:induction false} ClaimOpsCommit(files: Files, tables: Tables, id: string, claims: seq<Claim>)
    requires id != "" && AllValid(ClaimOps(id, claims))
    requires id in tables.pages && Parses(files, tables.pages[id].path)
    ensures var c := CommitAll(files, tables, ClaimOps(id, claims));
            c.failed.None? && c.files == Claimed(files, tables.pages[id].path, claims)
    decreases |claims|
  {
    if claims != [] {
      var init, last := claims[..|claims| - 1], claims[|claims| - 1];
      var ops := ClaimOps(id, claims);
      assert ops[..|ops| - 1] == ClaimOps(id, init);
      ClaimOpsValid(id, init);
      ClaimOpsCommit(files, tables, id, init);
      AddedClaim(files, tables, id, init, last);
    }
  }

  lemma ClaimedPage(files: Files, path: string, more: seq<Claim>)
    requires Parses(files, path)
    ensures var page := PageAt(files, path);
            && Parses(Claimed(files, path, more), path)
            && PageAt(Claimed(files, path, more), path) == page.(claims := WithClaims(page.claims, more))
  {}

  lemma ClaimedOneMore(files: Files, path: string, init: seq<Claim>, last: Claim)
    requires Parses(files, path)
    ensures var page, sofar := PageAt(files, path), WithClaims(PageAt(files, path).claims, init);
            Claimed(files, path, init + [last])
            == if HasClaim(sofar, last.id) then Claimed(files, path, init)
               else Claimed(files, path, init)[path := Print(page.(claims := sofar + [last]))]
  {
    var page := PageAt(files, path);
    var sofar := WithClaims(page.claims, init);
    WithClaimsGrows(page.claims, init);
    assert (init + [last])[..|init + [last]| - 1] == init;
    assert |sofar + [last]| > |page.claims|;
  }

  lemma AddClaimPlan(files: Files, tables: Tables, id: string, claim: Claim)
    requires id != "" && id in tables.pages && Parses(files, tables.pages[id].path)
    ensures var path := tables.pages[id].path;
            var page := PageAt(files, path);
            var plan := PlanOf(files, tables, AddClaim(id, claim));
            && !plan.Fail?
            && Applied(files, plan)
               == if HasClaim(page.claims, claim.id) then files
                  else files[path := Print(page.(claims := page.claims + [claim]))]
  {}

  lemma AddedClaim(files: Files, tables: Tables, id: string, init: seq<Claim>, last: Claim)
    requires id != "" && id in tables.pages && Parses(files, tables.pages[id].path)
    ensures var path := tables.pages[id].path;
            var plan := PlanOf(Claimed(files, path, init), tables, AddClaim(id, last));
            !plan.Fail? && Applied(Claimed(files, path, init), plan) == Claimed(files, path, init + [last])
  {
    var path := tables.pages[id].path;
    ClaimedPage(files, path, init);
    ClaimedOneMore(files, path, init, last);
    AddClaimPlan(Claimed(files, path, init), tables, id, last);
  }

  // ---- whole requests ----

  /** A valid batch whose commit goes through is one pass over the committed disk. */
  lemma CommittedBatch(s: State, ops: seq<Op>, now: int, cfg: Config)
    requires ops != [] && Admitted(s, ops) && AllValid(ops) && CommitAll(s.files, s.tables, ops).failed.None?
    ensures Batch(s, ops, now, cfg).1.Committed?
    ensures var out := Pass(CommitAll(s.files, s.tables, ops).files, s.tables, now, cfg);
            Batch(s, ops, now, cfg).0 == State(out.files, out.tables)
  {
    AdmittedPasses(s, ops);
    BatchEnds(s, ops, now, cfg);
  }

  lemma ExecWrites(s: State, op: Op, now: int, cfg: Config)
    requires Validate(op).None? && PlanOf(s.files, s.tables, op).Write?
    ensures var out := Pass(Applied(s.files, PlanOf(s.files, s.tables, op)), s.tables, now, cfg);
            Exec(s, op, now, cfg).0 == State(out.files, out.tables)
  {
    ExecPlanned(s, op, now, cfg);
  }

  lemma ExecIdles(s: State, op: Op, now: int, cfg: Config)
    requires Validate(op).None? && PlanOf(s.files, s.tables, op).Nothing?
    ensures Exec(s, op, now, cfg).0 == s && Applied(s.files, PlanOf(s.files, s.tables, op)) == s.files
  {}

  lemma HealthyPassIsIdle(s: State, now: int, cfg: Config)
    requires Healthy(s, cfg)
    ensures var out := Pass(s.files, s.tables, now, cfg); State(out.files, out.tables) == s
  {
    QuietPassIsIdle(s.files, s.tables, now, cfg);
  }

  /** From a healthy corpus a request that is not refused ends as a pass over its planned disk would. */
  lemma ExecIsPass(s: State, op: Op, now: int, cfg: Config)
    requires Healthy(s, cfg) && Validate(op).None? && !PlanOf(s.files, s.tables, op).Fail?
    ensures var out := Pass(Applied(s.files, PlanOf(s.files, s.tables, op)), s.tables, now, cfg);
            Exec(s, op, now, cfg).0 == State(out.files, out.tables)
  {
    if PlanOf(s.files, s.tables, op).Write? {
      ExecWrites(s, op, now, cfg);
    } else {
      ExecIdles(s, op, now, cfg);
      HealthyPassIsIdle(s, now, cfg);
    }
  }

  lemma LinksPlan(files: Files, tables: Tables, id: string, links: seq<Link>)
    requires id != "" && links != [] && id in tables.pages && Parses(files, tables.pages[id].path)
    ensures var op := AddLinks(id, links);
            && Validate(op).None? && !PlanOf(files, tables, op).Fail?
            && Applied(files, PlanOf(files, tables, op)) == Linked(files, tables.pages[id].path, links)
  {}

  lemma ClaimsPlan(files: Files, tables: Tables, id: string, claims: seq<Claim>)
    requires id != "" && claims != [] && id in tables.pages && Parses(files, tables.pages[id].path)
    ensures var op := AddClaims(id, claims);
            && Validate(op).None? && !PlanOf(files, tables, op).Fail?
            && Applied(files, PlanOf(files, tables, op)) == BulkClaimed(files, tables.pages[id].path, claims)
  {}

  /** One bulk request does what one batch of single requests does. */
  lemma SameDiskSameEnd(s: State, op: Op, ops: seq<Op>, now: int, cfg: Config)
    requires Healthy(s, cfg) && Validate(op).None? && !PlanOf(s.files, s.tables, op).Fail?
    requires ops != [] && Admitted(s, ops) && AllValid(ops) && CommitAll(s.files, s.tables, ops).failed.None?
    requires CommitAll(s.files, s.tables, ops).files == Applied(s.files, PlanOf(s.files, s.tables, op))
    ensures Batch(s, ops, now, cfg).1.Committed? && Batch(s, ops, now, cfg).0 == Exec(s, op, now, cfg).0
  {
    CommittedBatch(s, ops, now, cfg);
    ExecIsPass(s, op, now, cfg);
  }

  predicate AllAdd(ops: seq<Op>, id: string)
  {
    forall i | 0 <= i < |ops| :: (ops[i].AddLink? || ops[i].AddClaim?) && ops[i].pageId == id
  }

  lemma AddsAreAdmitted(s: State, ops: seq<Op>, id: string)
    requires AllValid(ops) && AllAdd(ops, id) && id in s.tables.pages
    ensures Admitted(s, ops) && ManglesDistinct(ops)
  {
    forall op | op in ops ensures Batchable(op) && Validate(op).None? && Check(s, op).None? {
      var i :| 0 <= i < |ops| && ops[i] == op;
    }
  }

  lemma AddsAgree(files: Files, tables: Tables, ops: seq<Op>, id: string)
    requires AllAdd(ops, id)
    requires forall i | 0 <= i < |ops| :: Fits(files, tables, ops[i])
    ensures WritesAgree(files, tables, ops) && OwnTargets(files, ops)
  {}

  lemma LinksFacts(s: State, id: string, links: seq<Link>)
    requires id in s.tables.pages && id != "" && links != [] && HasTargets(links)
    requires Parses(s.files, s.tables.pages[id].path)
    ensures var op, ops := AddLinks(id, links), LinkOps(id, links);
            && Validate(op).None? && !PlanOf(s.files, s.tables, op).Fail?
            && AllValid(ops) && Admitted(s, ops) && ManglesDistinct(ops) && WritesAgree(s.files, s.tables, ops)
            && OwnTargets(s.files, ops)
            && CommitAll(s.files, s.tables, ops).failed.None?
            && CommitAll(s.files, s.tables, ops).files == Applied(s.files, PlanOf(s.files, s.tables, op))
  {
    LinkOpsValid(id, links);
    AddsAreAdmitted(s, LinkOps(id, links), id);
    LinkOpsCommit(s.files, s.tables, id, links);
    LinksPlan(s.files, s.tables, id, links);
    AddsAgree(s.files, s.tables, LinkOps(id, links), id);
  }

  lemma IndexedParses(s: State, cfg: Config, id: string)
    requires Healthy(s, cfg) && id in s.tables.pages
    ensures Parses(s.files, s.tables.pages[id].path) && PageAt(s.files, s.tables.pages[id].path).id == id
  {
    HealthyIsLocated(s, cfg);
  }

  /** `add_links` leaves the state a `write_batch` of its links would leave, and so the state of the
      single `add_link` requests made one by one: every link of the list needs a target for those. */
  lemma BulkLinksIsSequence(
    s: State, id: string, links: seq<Link>, now: int, times: seq<int>, states: seq<State>, cfg: Config)
    requires Healthy(s, cfg) && id in s.tables.pages && id != "" && links != [] && HasTargets(links)
    requires OneByOne(states, LinkOps(id, links), times, cfg) && states[0] == s
    ensures var bulk, single := Exec(s, AddLinks(id, links), now, cfg).0, states[|links|];
            && bulk == Batch(s, LinkOps(id, links), now, cfg).0
            && bulk.files == single.files && SameTables(bulk.tables, single.tables)
  {
    IndexedParses(s, cfg, id);
    LinksFacts(s, id, links);
    SameDiskSameEnd(s, AddLinks(id, links), LinkOps(id, links), now, cfg);
    BatchIsSequence(s, LinkOps(id, links), now, times, states, cfg);
  }

  lemma ClaimOpsFit(files: Files, tables: Tables, id: string, claims: seq<Claim>)
    requires ClaimsFit(files, tables, AddClaims(id, claims))
    ensures forall i | 0 <= i < |claims| :: Fits(files, tables, ClaimOps(id, claims)[i])
  {}

  lemma ClaimsCommit(s: State, id: string, claims: seq<Claim>)
    requires id in s.tables.pages && id != "" && claims != [] && ClaimsFit(s.files, s.tables, AddClaims(id, claims))
    requires Parses(s.files, s.tables.pages[id].path)
    ensures var ops := ClaimOps(id, claims);
            && AllValid(ops) && Admitted(s, ops) && ManglesDistinct(ops) && WritesAgree(s.files, s.tables, ops)
            && OwnTargets(s.files, ops)
            && CommitAll(s.files, s.tables, ops).failed.None?
            && CommitAll(s.files, s.tables, ops).files == Claimed(s.files, s.tables.pages[id].path, claims)
  {
    ClaimOpsValid(id, claims);
    AddsAreAdmitted(s, ClaimOps(id, claims), id);
    ClaimOpsCommit(s.files, s.tables, id, claims);
    ClaimOpsFit(s.files, s.tables, id, claims);
    AddsAgree(s.files, s.tables, ClaimOps(id, claims), id);
  }

  /** The claims of the page at a path. */
  function ClaimsAt(files: Files, path: string): seq<Claim>
  {
    if Parses(files, path) then PageAt(files, path).claims else []
  }

  predicate EmptyIdTwice(files: Files, path: string, claims: seq<Claim>)
  {
    HasClaim(ClaimsAt(files, path), "") && HasClaim(claims, "")
  }

  lemma ClaimedDisks(files: Files, path: string, claims: seq<Claim>)
    requires Parses(files, path)
    ensures !EmptyIdTwice(files, path, claims) ==> BulkClaimed(files, path, claims) == Claimed(files, path, claims)
    ensures EmptyIdTwice(files, path, claims) ==>
              ClaimsAt(BulkClaimed(files, path, claims), path) != ClaimsAt(Claimed(files, path, claims), path)
  {
    var page := PageAt(files, path);
    BulkClaimsAgree(page.claims, claims);
    var more := Appended(page.claims, claims);
    assert ClaimsAt(BulkClaimed(files, path, claims), path) == page.claims + more;
    assert ClaimsAt(Claimed(files, path, claims), path) == WithClaims(page.claims, claims);
    if more != [] { assert (page.claims + more)[|page.claims|] == more[0]; }
  }

  lemma ClaimPageIsNoSlot(files: Files, tables: Tables, op: Op)
    requires Sound(files) && TouchesClaims(op) && ClaimsFit(files, tables, op) && op.pageId in tables.pages
    requires Parses(files, tables.pages[op.pageId].path)
    ensures !IsSlotPath(tables.pages[op.pageId].path)
  {}

  lemma PassKeepsClaims(disk: Files, t: Tables, now: int, cfg: Config, path: string)
    requires !IsSlotPath(path)
    ensures ClaimsAt(Pass(disk, t, now, cfg).files, path) == ClaimsAt(disk, path)
  {
    PassOffSlots(disk, t, now, cfg);
  }

  lemma BatchOfClaims(s: State, id: string, claims: seq<Claim>, now: int, cfg: Config)
    requires id in s.tables.pages && id != "" && claims != [] && ClaimsFit(s.files, s.tables, AddClaims(id, claims))
    requires Parses(s.files, s.tables.pages[id].path)
    ensures Batch(s, ClaimOps(id, claims), now, cfg).1.Committed?
    ensures Batch(s, ClaimOps(id, claims), now, cfg).0.files
         == Pass(Claimed(s.files, s.tables.pages[id].path, claims), s.tables, now, cfg).files
  {
    ClaimsCommit(s, id, claims);
    CommittedBatch(s, ClaimOps(id, claims), now, cfg);
  }

  lemma BulkOfClaims(s: State, id: string, claims: seq<Claim>, now: int, cfg: Config)
    requires Healthy(s, cfg) && id in s.tables.pages && id != "" && claims != []
    requires Parses(s.files, s.tables.pages[id].path)
    ensures Exec(s, AddClaims(id, claims), now, cfg).0.files
         == Pass(BulkClaimed(s.files, s.tables.pages[id].path, claims), s.tables, now, cfg).files
  {
    ClaimsPlan(s.files, s.tables, id, claims);
    ExecIsPass(s, AddClaims(id, claims), now, cfg);
  }

  lemma ClaimPassesAgree(s: State, path: string, claims: seq<Claim>, now: int, cfg: Config)
    requires Parses(s.files, path) && !IsSlotPath(path)
    ensures Pass(BulkClaimed(s.files, path, claims), s.tables, now, cfg).files
              == Pass(Claimed(s.files, path, claims), s.tables, now, cfg).files
       <==> !EmptyIdTwice(s.files, path, claims)
  {
    ClaimedDisks(s.files, path, claims);
    PassKeepsClaims(BulkClaimed(s.files, path, claims), s.tables, now, cfg, path);
    PassKeepsClaims(Claimed(s.files, path, claims), s.tables, now, cfg, path);
  }

  lemma SinglesOfClaims(
    s: State, id: string, claims: seq<Claim>, now: int, times: seq<int>, states: seq<State>, cfg: Config)
    requires Healthy(s, cfg) && id in s.tables.pages && id != "" && claims != []
    requires ClaimsFit(s.files, s.tables, AddClaims(id, claims)) && Parses(s.files, s.tables.pages[id].path)
    requires OneByOne(states, ClaimOps(id, claims), times, cfg) && states[0] == s
    ensures states[|claims|].files == Pass(Claimed(s.files, s.tables.pages[id].path, claims), s.tables, now, cfg).files
    ensures Healthy(states[|claims|], cfg)
  {
    ClaimsCommit(s, id, claims);
    BatchOfClaims(s, id, claims, now, cfg);
    BatchIsSequence(s, ClaimOps(id, claims), now, times, states, cfg);
  }

  lemma ClaimsGoToNoSlot(s: State, id: string, claims: seq<Claim>, cfg: Config)
    requires Healthy(s, cfg) && id in s.tables.pages && ClaimsFit(s.files, s.tables, AddClaims(id, claims))
    ensures Parses(s.files, s.tables.pages[id].path) && !IsSlotPath(s.tables.pages[id].path)
  {
    IndexedParses(s, cfg, id);
    ClaimPageIsNoSlot(s.files, s.tables, AddClaims(id, claims));
  }

  lemma SameFilesSameTables(a: State, b: State, cfg: Config)
    requires Healthy(a, cfg) && Healthy(b, cfg) && a.files == b.files
    ensures SameTables(a.tables, b.tables)
  {
    ProjectionIsUnique(a.files, a.tables, b.tables, cfg);
  }

  /** `add_claims` leaves the files the single `add_claim` requests would leave, and then their tables too,
      exactly when an empty claim id is not both on the page already and in the list. */
  lemma BulkClaimsIsSequence(
    s: State, id: string, claims: seq<Claim>, now: int, times: seq<int>, states: seq<State>, cfg: Config)
    requires Healthy(s, cfg) && id in s.tables.pages && id != "" && claims != []
    requires ClaimsFit(s.files, s.tables, AddClaims(id, claims))
    requires OneByOne(states, ClaimOps(id, claims), times, cfg) && states[0] == s
    ensures var bulk, single := Exec(s, AddClaims(id, claims), now, cfg).0, states[|claims|];
            && (bulk.files == single.files <==> !EmptyIdTwice(s.files, s.tables.pages[id].path, claims))
            && (bulk.files == single.files ==> SameTables(bulk.tables, single.tables))
  {
    ClaimsGoToNoSlot(s, id, claims, cfg);
    SinglesOfClaims(s, id, claims, now, times, states, cfg);
    BulkOfClaims(s, id, claims, now, cfg);
    ClaimPassesAgree(s, s.tables.pages[id].path, claims, now, cfg);
    ExecKeepsHealthy(s, AddClaims(id, claims), now, cfg);
    var bulk := Exec(s, AddClaims(id, claims), now, cfg).0;
    if bulk.files == states[|claims|].files { SameFilesSameTables(bulk, states[|claims|], cfg); }
  }
}
