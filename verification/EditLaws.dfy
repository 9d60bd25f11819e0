/** What a single request does to the page it addresses, and which requests undo which. */
module EditLaws {
  import opened Model
  import opened IndexPages
  import opened Projection
  import opened Indexing
  import opened Stores
  import opened Handlers
  import opened Keeping
  import opened Batches

  // ---- lists ----

  lemma {:induction false} DropFreshClaim(claims: seq<Claim>, c: Claim)
    requires !HasClaim(claims, c.id)
    ensures DropClaims(claims + [c], c.id) == claims
    decreases |claims|
  {
    if claims == [] {
      assert claims + [c] == [c] && [c][1..] == [];
    } else {
      var rest := claims[1..];
      assert claims[0] in claims && (claims + [c])[1..] == rest + [c];
      forall x | x in rest ensures x in claims {}
      DropFreshClaim(rest, c);
      assert claims == [claims[0]] + rest;
    }
  }

  lemma {:induction false} DropUnmatched(links: seq<Link>, target: string, tag: Option<string>)
    ensures |DropLinks(links, target, tag)| <= |links|
    ensures DropLinks(links, target, tag) == links <==> forall l | l in links :: !LinkMatches(l, target, tag)
    decreases |links|
  {
    if links != [] {
      var rest := links[1..];
      DropUnmatched(rest, target, tag);
      assert links == [links[0]] + rest;
      assert forall l :: l in links <==> l == links[0] || l in rest;
      var kept := DropLinks(rest, target, tag);
      if !LinkMatches(links[0], target, tag) { assert ([links[0]] + kept)[1..] == kept; }
    }
  }

  lemma {:induction false} DropAddedLink(links: seq<Link>, link: Link, tag: Option<string>)
    requires LinkMatches(link, link.target, tag)
    ensures DropLinks(links + [link], link.target, tag) == DropLinks(links, link.target, tag)
    decreases |links|
  {
    if links == [] {
      assert links + [link] == [link] && [link][1..] == [];
    } else {
      assert (links + [link])[1..] == links[1..] + [link];
      DropAddedLink(links[1..], link, tag);
    }
  }

  /** The first claim with this id. */
  function FirstClaim(claims: seq<Claim>, id: string): (c: Claim)
    requires HasClaim(claims, id)
    ensures c in claims && c.id == id
  {
    if claims[0].id == id then claims[0]
    else
      assert claims == [claims[0]] + claims[1..];
      FirstClaim(claims[1..], id)
  }

  lemma {:induction false} SetBack(claims: seq<Claim>, id: string, c: Claim)
    requires HasClaim(claims, id) && c.id == id
    ensures SetClaim(SetClaim(claims, id, c), id, FirstClaim(claims, id)) == claims
    decreases |claims|
  {
    var rest := claims[1..];
    assert claims == [claims[0]] + rest;
    if claims[0].id == id {
      assert ([c] + rest)[1..] == rest;
    } else {
      SetBack(rest, id, c);
      assert ([claims[0]] + SetClaim(rest, id, c))[1..] == SetClaim(rest, id, c);
    }
  }

  lemma {:induction false} HasAfterSet(claims: seq<Claim>, id: string, c: Claim)
    requires HasClaim(claims, id) && c.id == id
    ensures HasClaim(SetClaim(claims, id, c), id)
    decreases |claims|
  {
    assert claims == [claims[0]] + claims[1..];
    if claims[0].id == id {
      assert c in [c] + claims[1..];
    } else {
      HasAfterSet(claims[1..], id, c);
      assert forall x | x in SetClaim(claims[1..], id, c) :: x in [claims[0]] + SetClaim(claims[1..], id, c);
    }
  }

  lemma {:induction false} SetClaimAt(claims: seq<Claim>, k: nat, id: string, claim: Claim)
    requires k < |claims| && claims[k].id == id && !HasClaim(claims[..k], id)
    ensures SetClaim(claims, id, claim) == claims[k := claim]
    decreases k
  {
    if k > 0 {
      assert claims[0] in claims[..k];
      assert claims[1..][..k - 1] == claims[..k][1..];
      forall c | c in claims[1..][..k - 1] ensures c in claims[..k] {}
      SetClaimAt(claims[1..], k - 1, id, claim);
    }
  }

  lemma {:induction false} DropLinksSnoc(links: seq<Link>, last: Link, target: string, tag: Option<string>)
    ensures DropLinks(links + [last], target, tag)
         == DropLinks(links, target, tag) + if LinkMatches(last, target, tag) then [] else [last]
    decreases |links|
  {
    if links != [] {
      assert (links + [last])[1..] == links[1..] + [last];
      DropLinksSnoc(links[1..], last, target, tag);
    }
  }

  lemma {:induction false} DropClaimsSnoc(claims: seq<Claim>, last: Claim, id: string)
    ensures DropClaims(claims + [last], id) == DropClaims(claims, id) + if last.id == id then [] else [last]
    decreases |claims|
  {
    if claims != [] {
      assert (claims + [last])[1..] == claims[1..] + [last];
      DropClaimsSnoc(claims[1..], last, id);
    }
  }

  // ---- one request ----

  /** The page is at this path in both stores, and it is no index page slot. */
  ghost predicate At(s: State, id: string, path: string, page: Page)
  {
    && id in s.tables.pages && s.tables.pages[id].path == path && !IsSlotPath(path)
    && Parses(s.files, path) && PageAt(s.files, path) == page && page.id == id
  }

  /** No other page file changed; the slots are rendered from the pages anyway. */
  ghost predicate OnlyChanged(a: Files, b: Files, path: string)
  {
    forall p | !IsSlotPath(p) && p != path :: (p in a <==> p in b) && (p in a ==> a[p] == b[p])
  }

  lemma AtStays(s: State, id: string, path: string, page: Page, cfg: Config)
    requires Healthy(s, cfg) && Parses(s.files, path) && !IsSlotPath(path)
    requires PageAt(s.files, path) == page && page.id == id
    ensures At(s, id, path, page)
  {
    HealthyIsLocated(s, cfg);
    assert HasId(s.files, id);
  }

  lemma PassOverWrite(files: Files, t: Tables, path: string, page: Page, now: int, cfg: Config)
    requires !IsSlotPath(path)
    ensures var after := Pass(files[path := Print(page)], t, now, cfg).files;
            && Parses(after, path) && PageAt(after, path) == page
            && OnlyChanged(files, after, path)
  {
    PassOffSlots(files[path := Print(page)], t, now, cfg);
  }

  /** A request whose plan is to write puts exactly that page on the disk, has the index say what it says,
      and leaves every other page file as it was. */
  lemma WriteIsIndexed(s: State, op: Op, now: int, cfg: Config)
    requires Healthy(s, cfg) && Fits(s.files, s.tables, op) && Validate(op).None?
    requires var plan := PlanOf(s.files, s.tables, op); plan.Write? && !IsSlotPath(plan.path)
    ensures var plan, after := PlanOf(s.files, s.tables, op), Exec(s, op, now, cfg).0;
            && Exec(s, op, now, cfg).1 == Done(true)
            && Healthy(after, cfg)
            && Parses(after.files, plan.path) && PageAt(after.files, plan.path) == plan.page
            && Faithful(after.tables, ParsedAt(after.files, plan.path), cfg)
            && OnlyChanged(s.files, after.files, plan.path)
  {
    var plan := PlanOf(s.files, s.tables, op);
    ExecPlanned(s, op, now, cfg);
    PassOverWrite(s.files, s.tables, plan.path, plan.page, now, cfg);
    ExecKeepsHealthy(s, op, now, cfg);
  }

  lemma WriteIsAt(s: State, op: Op, path: string, page: Page, now: int, cfg: Config)
    requires Healthy(s, cfg) && Fits(s.files, s.tables, op) && Validate(op).None?
    requires PlanOf(s.files, s.tables, op) == Write(path, page) && !IsSlotPath(path)
    ensures Exec(s, op, now, cfg).1 == Done(true)
    ensures Healthy(Exec(s, op, now, cfg).0, cfg) && At(Exec(s, op, now, cfg).0, page.id, path, page)
  {
    WriteIsIndexed(s, op, now, cfg);
    AtStays(Exec(s, op, now, cfg).0, page.id, path, page, cfg);
  }

  /** The same for a read-modify-write request on a page that is where its row says. */
  lemma AmendIsIndexed(s: State, op: Op, path: string, page: Page, next: Page, now: int, cfg: Config)
    requires Healthy(s, cfg) && Fits(s.files, s.tables, op) && Validate(op).None? && !op.WritePage?
    requires At(s, op.pageId, path, page) && PlanAmend(path, page, op) == Write(path, next) && next.id == page.id
    ensures Exec(s, op, now, cfg).1 == Done(true)
    ensures Healthy(Exec(s, op, now, cfg).0, cfg) && At(Exec(s, op, now, cfg).0, op.pageId, path, next)
    ensures OnlyChanged(s.files, Exec(s, op, now, cfg).0.files, path)
  {
    PlanOfLocated(s.files, s.tables, op);
    WriteIsIndexed(s, op, now, cfg);
    AtStays(Exec(s, op, now, cfg).0, op.pageId, path, next, cfg);
  }

  // ---- what undoes what ----

  lemma ClaimsMayGo(s: State, id: string, path: string, page: Page, op: Op, cfg: Config)
    requires Healthy(s, cfg) && At(s, id, path, page) && (TouchesClaims(op) ==> !page.kind.Index?)
    requires !op.WritePage? && op.pageId == id
    ensures Fits(s.files, s.tables, op)
  {}

  /** An edit of a read-modify-write request that rewrites the page it finds. */
  ghost predicate Edits(path: string, page: Page, op: Op, next: Page)
  {
    && !op.WritePage? && op.pageId == page.id && Validate(op).None?
    && PlanAmend(path, page, op) == Write(path, next) && next.id == page.id && next.kind == page.kind
  }

  lemma EditGoes(s: State, op: Op, path: string, page: Page, next: Page, now: int, cfg: Config)
    requires Healthy(s, cfg) && At(s, page.id, path, page) && Edits(path, page, op, next)
    requires TouchesClaims(op) ==> !page.kind.Index?
    ensures Healthy(Exec(s, op, now, cfg).0, cfg) && At(Exec(s, op, now, cfg).0, page.id, path, next)
    ensures OnlyChanged(s.files, Exec(s, op, now, cfg).0.files, path)
  {
    ClaimsMayGo(s, page.id, path, page, op, cfg);
    AmendIsIndexed(s, op, path, page, next, now, cfg);
  }

  lemma OnlyChangedFurther(a: Files, b: Files, c: Files, path: string)
    requires OnlyChanged(a, b, path) && OnlyChanged(b, c, path)
    ensures OnlyChanged(a, c, path)
  {}

  /** Two edits of one page, one after the other. */
  lemma TwoEdits(
    s: State, op: Op, op': Op, path: string, page: Page, mid: Page, end: Page, now: int, later: int, cfg: Config)
    requires Healthy(s, cfg) && At(s, page.id, path, page)
    requires TouchesClaims(op) || TouchesClaims(op') ==> !page.kind.Index?
    requires Edits(path, page, op, mid) && Edits(path, mid, op', end)
    ensures var after := Exec(Exec(s, op, now, cfg).0, op', later, cfg).0;
            At(after, page.id, path, end) && OnlyChanged(s.files, after.files, path)
  {
    var between := Exec(s, op, now, cfg).0;
    EditGoes(s, op, path, page, mid, now, cfg);
    EditGoes(between, op', path, mid, end, later, cfg);
    OnlyChangedFurther(s.files, between.files, Exec(between, op', later, cfg).0.files, path);
  }

  lemma ClaimEdits(path: string, page: Page, c: Claim)
    requires page.id != "" && c.id != "" && !HasClaim(page.claims, c.id)
    ensures var added := page.(claims := page.claims + [c]);
            Edits(path, page, AddClaim(page.id, c), added) && Edits(path, added, RemoveClaim(page.id, c.id), page)
  {
    DropFreshClaim(page.claims, c);
  }

  lemma UpdateEdits(path: string, page: Page, c: Claim)
    requires page.id != "" && c.id != "" && HasClaim(page.claims, c.id)
    ensures var updated := page.(claims := SetClaim(page.claims, c.id, c));
            && Edits(path, page, UpdateClaim(page.id, c.id, c), updated)
            && Edits(path, updated, UpdateClaim(page.id, c.id, FirstClaim(page.claims, c.id)), page)
  {
    HasAfterSet(page.claims, c.id, c);
    SetBack(page.claims, c.id, c);
  }

  lemma LinkEdits(path: string, page: Page, link: Link)
    requires page.id != "" && link.target != "" && !HasLink(page.linksOut, link.target, link.tag)
    ensures var added := page.(linksOut := page.linksOut + [link]);
            var kept := page.(linksOut := DropLinks(page.linksOut, link.target, link.tag));
            && Edits(path, page, AddLink(page.id, link), added)
            && Edits(path, added, RemoveLink(page.id, link.target, link.tag), kept)
            && (kept == page <==> forall l | l in page.linksOut :: !LinkMatches(l, link.target, link.tag))
  {
    DropAddedLink(page.linksOut, link, link.tag);
    DropUnmatched(page.linksOut, link.target, link.tag);
  }

  /** Removing a claim that was just added leaves the page as it was. */
  lemma RemoveUndoesAddClaim(s: State, path: string, page: Page, c: Claim, now: int, later: int, cfg: Config)
    requires Healthy(s, cfg) && At(s, page.id, path, page) && !page.kind.Index?
    requires page.id != "" && c.id != "" && !HasClaim(page.claims, c.id)
    ensures var mid := Exec(s, AddClaim(page.id, c), now, cfg).0;
            var end := Exec(mid, RemoveClaim(page.id, c.id), later, cfg).0;
            At(end, page.id, path, page) && OnlyChanged(s.files, end.files, path)
  {
    var added := page.(claims := page.claims + [c]);
    ClaimEdits(path, page, c);
    TwoEdits(s, AddClaim(page.id, c), RemoveClaim(page.id, c.id), path, page, added, page, now, later, cfg);
  }

  /** Updating a claim and then updating it back leaves the page as it was. */
  lemma UpdateBackUndoesUpdate(s: State, path: string, page: Page, c: Claim, now: int, later: int, cfg: Config)
    requires Healthy(s, cfg) && At(s, page.id, path, page) && !page.kind.Index?
    requires page.id != "" && c.id != "" && HasClaim(page.claims, c.id)
    ensures var first := FirstClaim(page.claims, c.id);
            var mid := Exec(s, UpdateClaim(page.id, c.id, c), now, cfg).0;
            var end := Exec(mid, UpdateClaim(page.id, c.id, first), later, cfg).0;
            At(end, page.id, path, page) && OnlyChanged(s.files, end.files, path)
  {
    var first := FirstClaim(page.claims, c.id);
    var updated := page.(claims := SetClaim(page.claims, c.id, c));
    UpdateEdits(path, page, c);
    TwoEdits(s, UpdateClaim(page.id, c.id, c), UpdateClaim(page.id, c.id, first), path, page, updated, page,
             now, later, cfg);
  }

  /** Removing a link by target and label after adding it leaves the page as it was exactly when the page
      had no other link that the removal matches: without a label, none to that target at all. */
  lemma RemoveUndoesAddLink(s: State, path: string, page: Page, link: Link, now: int, later: int, cfg: Config)
    requires Healthy(s, cfg) && At(s, page.id, path, page)
    requires page.id != "" && link.target != "" && !HasLink(page.linksOut, link.target, link.tag)
    ensures var mid := Exec(s, AddLink(page.id, link), now, cfg).0;
            var end := Exec(mid, RemoveLink(page.id, link.target, link.tag), later, cfg).0;
            && OnlyChanged(s.files, end.files, path)
            && (At(end, page.id, path, page)
                <==> forall l | l in page.linksOut :: !LinkMatches(l, link.target, link.tag))
  {
    var added := page.(linksOut := page.linksOut + [link]);
    var kept := page.(linksOut := DropLinks(page.linksOut, link.target, link.tag));
    LinkEdits(path, page, link);
    TwoEdits(s, AddLink(page.id, link), RemoveLink(page.id, link.target, link.tag), path, page, added, kept,
             now, later, cfg);
  }
}
