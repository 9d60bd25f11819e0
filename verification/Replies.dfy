/** What each request answers, read off the disk alone. */
module Replies {
  import opened Model
  import opened IndexPages
  import opened Indexing
  import opened Stores
  import opened Address
  import opened Handlers
  import opened Keeping
  import opened Batches
  import opened BulkEdits

  // ---- the answers a caller should get ----

  ghost function ExpectedWrite(files: Files, page: Page, mode: Mode, suffix: string): Reply
  {
    if mode == Create && HasSeparator(page.id) then Done(true)
    else if mode == Create then
      if !ValidId(Mangle(page.id, suffix)) then Refused(Malformed)
      else if HasId(files, Mangle(page.id, suffix)) then Refused(UuidCollision)
      else Done(true)
    else if HasId(files, page.id) then Done(true)
    else Refused(NotFound)
  }

  /** A request answers with a change exactly if there is something of its kind to change on the page. */
  ghost function ExpectedAmend(page: Page, op: Op): Reply
    requires !op.WritePage?
  {
    match op
    case AddLink(_, link) => Done(!HasLink(page.linksOut, link.target, link.tag))
    case AddClaim(_, claim) => Done(!HasClaim(page.claims, claim.id))
    case UpdateClaim(_, claimId, _) => if HasClaim(page.claims, claimId) then Done(true) else Refused(ClaimNotFound)
    case AddLinks(_, links) => Done(exists l | l in links :: !HasLink(page.linksOut, l.target, l.tag))
    case AddClaims(_, claims) => Done(exists c | c in claims :: c.id == "" || !HasClaim(page.claims, c.id))
    case RemoveLink(_, target, tag) => Done(exists l | l in page.linksOut :: LinkMatches(l, target, tag))
    case RemoveClaim(_, claimId) => if HasClaim(page.claims, claimId) then Done(true) else Refused(ClaimNotFound)
  }

  ghost function Expected(files: Files, op: Op): Reply
  {
    if Validate(op).Some? then Refused(Validate(op).value)
    else
      match op
      case WritePage(page, mode, suffix) => ExpectedWrite(files, page, mode, suffix)
      case _ => if HasId(files, op.pageId) then ExpectedAmend(PageById(files, op.pageId), op) else Refused(NotFound)
  }

  // ---- lists ----

  lemma {:induction false} SomeLinkIsNew(links: seq<Link>, more: seq<Link>)
    ensures WithLinks(links, more) == links <==> forall l | l in more :: HasLink(links, l.target, l.tag)
    decreases |more|
  {
    if more != [] {
      var init, last := more[..|more| - 1], more[|more| - 1];
      SomeLinkIsNew(links, init);
      WithLinksGrows(links, init);
      assert more == init + [last];
      assert forall l :: l in more <==> l in init || l == last;
      assert |WithLinks(links, init) + [last]| > |links|;
    }
  }

  lemma {:induction false} SomeClaimIsNew(claims: seq<Claim>, more: seq<Claim>)
    ensures Appended(claims, more) == [] <==> forall c | c in more :: c.id != "" && HasClaim(claims, c.id)
    decreases |more|
  {
    if more != [] {
      var init, last := more[..|more| - 1], more[|more| - 1];
      SomeClaimIsNew(claims, init);
      assert more == init + [last];
      assert forall c :: c in more <==> c in init || c == last;
    }
  }

  lemma {:induction false} DropsSomeClaim(claims: seq<Claim>, id: string)
    ensures |DropClaims(claims, id)| <= |claims|
    ensures |DropClaims(claims, id)| == |claims| <==> !HasClaim(claims, id)
    decreases |claims|
  {
    if claims != [] {
      DropsSomeClaim(claims[1..], id);
      assert claims == [claims[0]] + claims[1..];
      assert forall c :: c in claims <==> c == claims[0] || c in claims[1..];
    }
  }

  lemma {:induction false} DropsSomeLink(links: seq<Link>, target: string, tag: Option<string>)
    ensures |DropLinks(links, target, tag)| <= |links|
    ensures |DropLinks(links, target, tag)| == |links| <==> forall l | l in links :: !LinkMatches(l, target, tag)
    decreases |links|
  {
    if links != [] {
      DropsSomeLink(links[1..], target, tag);
      assert links == [links[0]] + links[1..];
      assert forall l :: l in links <==> l == links[0] || l in links[1..];
    }
  }

  // ---- plans ----

  function ReplyTo(plan: Plan): Reply
  {
    match plan
    case Fail(error) => Refused(error)
    case Nothing => Done(false)
    case Write(_, _) => Done(true)
  }

  lemma AmendReply(path: string, page: Page, op: Op)
    requires !op.WritePage? && Validate(op).None?
    ensures ReplyTo(PlanAmend(path, page, op)) == ExpectedAmend(page, op)
  {
    match op
    case AddLinks(_, links) => SomeLinkIsNew(page.linksOut, links);
    case AddClaims(_, claims) => SomeClaimIsNew(page.claims, claims);
    case RemoveLink(_, target, tag) => DropsSomeLink(page.linksOut, target, tag);
    case RemoveClaim(_, claimId) => DropsSomeClaim(page.claims, claimId);
    case _ =>
  }

  /** The rows name exactly the ids on the disk. */
  ghost predicate IdsIndexed(files: Files, tables: Tables)
  {
    forall id :: id in tables.pages <==> HasId(files, id)
  }

  lemma WriteReply(files: Files, tables: Tables, op: Op)
    requires IdsIndexed(files, tables) && op.WritePage? && Validate(op).None?
    ensures ReplyTo(PlanOf(files, tables, op)) == ExpectedWrite(files, op.page, op.mode, op.suffix)
  {
    assert Mangle(op.page.id, op.suffix) in tables.pages <==> HasId(files, Mangle(op.page.id, op.suffix));
    assert op.page.id in tables.pages <==> HasId(files, op.page.id);
  }

  lemma LocatedIsById(files: Files, path: string, id: string)
    requires UniqueIds(files) && Parses(files, path) && PageAt(files, path).id == id
    ensures HasId(files, id) && PageById(files, id) == PageAt(files, path)
  {}

  lemma PlanReply(files: Files, tables: Tables, op: Op)
    requires UniqueIds(files) && IdsIndexed(files, tables) && Located(files, tables) && Validate(op).None?
    ensures ReplyTo(PlanOf(files, tables, op)) == Expected(files, op)
  {
    if op.WritePage? {
      WriteReply(files, tables, op);
    } else {
      assert op.pageId in tables.pages <==> HasId(files, op.pageId);
      if op.pageId in tables.pages {
        var path := tables.pages[op.pageId].path;
        PlanOfLocated(files, tables, op);
        AmendReply(path, PageAt(files, path), op);
        LocatedIsById(files, path, op.pageId);
      }
    }
  }

  lemma HealthyFacts(s: State, cfg: Config)
    requires Healthy(s, cfg)
    ensures UniqueIds(s.files) && IdsIndexed(s.files, s.tables) && Located(s.files, s.tables)
  {
    HealthyIsLocated(s, cfg);
  }

  lemma ExecReply(s: State, op: Op, now: int, cfg: Config)
    ensures Exec(s, op, now, cfg).1
         == if Validate(op).Some? then Refused(Validate(op).value) else ReplyTo(PlanOf(s.files, s.tables, op))
    ensures Exec(s, op, now, cfg).1.Refused? ==> Exec(s, op, now, cfg).0 == s
  {
    if Validate(op).None? { ExecPlanned(s, op, now, cfg); }
  }

  /** In a healthy corpus every request is answered as the pages on the disk call for, although the handler
      asks the index: unknown ids and claims, duplicates and no-ops are reported exactly when they are
      so on the disk. A refused request changes nothing. */
  lemma RepliesAreRight(s: State, op: Op, now: int, cfg: Config)
    requires Healthy(s, cfg)
    ensures Exec(s, op, now, cfg).1 == Expected(s.files, op)
    ensures Exec(s, op, now, cfg).1.Refused? ==> Exec(s, op, now, cfg).0 == s
  {
    HealthyFacts(s, cfg);
    ExecReply(s, op, now, cfg);
    if Validate(op).None? { PlanReply(s.files, s.tables, op); }
  }
}
