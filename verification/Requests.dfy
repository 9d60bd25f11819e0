/** What each request does, told without the functions the handlers are made of: which page it leaves, and when it
    changes nothing. */
module Requests {
  import opened Model
  import opened OwnedRows
  import opened Selections
  import opened TextOrder
  import opened IndexPages
  import opened Projection
  import opened Indexing
  import opened RunLemmas
  import opened Stores
  import opened Address
  import opened Handlers
  import opened Keeping
  import opened Commits
  import opened Batches
  import opened BulkEdits
  import opened EditLaws
  import opened WrongRows
  import opened Contents
  import opened Pending
  import opened Histories
  import opened Replies

  // ---- write_page ----

  lemma PlannedTarget(files: Files, tables: Tables, op: Op)
    requires op.WritePage? && Validate(op).None? && PlanOf(files, tables, op).Write?
    ensures PlanOf(files, tables, op) == Write(TargetPath(op.page.kind, Effective(op).id), Effective(op))
  {}

  lemma DoneWasPlanned(s: State, op: Op, now: int, cfg: Config)
    requires Exec(s, op, now, cfg).1 == Done(true)
    ensures Validate(op).None? && PlanOf(s.files, s.tables, op).Write?
  {}

  /** A `write_page` that goes through, creating or updating, leaves the page as the caller gave it at the path of its
      kind and id, and every other page file as it was. */
  lemma WritePageDoes(s: State, op: Op, now: int, cfg: Config) returns (page: Page, path: string)
    requires Healthy(s, cfg) && op.WritePage? && AtHome(s.files, op) && Exec(s, op, now, cfg).1 == Done(true)
    ensures AsGiven(page, op.page, op.mode, op.suffix)
    ensures !page.kind.Index? && ValidId(op.page.id) && path == TargetPath(page.kind, page.id)
    ensures var after := Exec(s, op, now, cfg).0;
            Healthy(after, cfg) && At(after, page.id, path, page) && OnlyChanged(s.files, after.files, path)
  {
    page, path := Effective(op), TargetPath(op.page.kind, Effective(op).id);
    DoneWasPlanned(s, op, now, cfg);
    PlannedTarget(s.files, s.tables, op);
    EffectiveAsGiven(op);
    PathIsNoSlot(op.page.kind, Effective(op).id);
    WriteIsIndexed(s, op, now, cfg);
    WriteIsAt(s, op, path, page, now, cfg);
  }

  // ---- the edits of one page ----

  /** The request was answered as a change; this page is now at the path, and no other page file changed. */
  ghost predicate Becomes(s: State, after: State, reply: Reply, path: string, next: Page, cfg: Config)
  {
    && reply == Done(true)
    && Healthy(after, cfg) && At(after, next.id, path, next) && OnlyChanged(s.files, after.files, path)
  }

  /** The page is indexed at this path of a healthy corpus, and can hold what the request brings. */
  ghost predicate Ready(s: State, path: string, page: Page, op: Op, cfg: Config)
  {
    && Healthy(s, cfg) && At(s, page.id, path, page)
    && !op.WritePage? && op.pageId == page.id && Validate(op).None? && (TouchesClaims(op) ==> !page.kind.Index?)
  }

  lemma AmendStays(path: string, page: Page, op: Op)
    requires !op.WritePage?
    ensures var plan := PlanAmend(path, page, op); plan.Write? ==> plan.path == path && plan.page.id == page.id
  {}

  lemma EditPlanned(s: State, path: string, page: Page, op: Op, cfg: Config)
    requires Ready(s, path, page, op, cfg)
    ensures Fits(s.files, s.tables, op) && PlanOf(s.files, s.tables, op) == PlanAmend(path, page, op)
  {
    ClaimsMayGo(s, page.id, path, page, op, cfg);
    HealthyIsLocated(s, cfg);
    PlanOfLocated(s.files, s.tables, op);
  }

  lemma EditWrites(s: State, path: string, page: Page, op: Op, next: Page, now: int, cfg: Config)
    requires Ready(s, path, page, op, cfg) && PlanAmend(path, page, op) == Write(path, next) && next.id == page.id
    ensures Becomes(s, Exec(s, op, now, cfg).0, Exec(s, op, now, cfg).1, path, next, cfg)
  {
    EditPlanned(s, path, page, op, cfg);
    AmendIsIndexed(s, op, path, page, next, now, cfg);
  }

  lemma EditDoes(s: State, path: string, page: Page, op: Op, now: int, cfg: Config)
    requires Ready(s, path, page, op, cfg)
    ensures var (after, reply) := Exec(s, op, now, cfg);
            match PlanAmend(path, page, op)
            case Fail(error) => after == s && reply == Refused(error)
            case Nothing => after == s && reply == Done(false)
            case Write(_, next) => Becomes(s, after, reply, path, next, cfg)
  {
    AmendStays(path, page, op);
    var plan := PlanAmend(path, page, op);
    if plan.Write? {
      EditWrites(s, path, page, op, plan.page, now, cfg);
    } else {
      EditPlanned(s, path, page, op, cfg);
      ExecPlanned(s, op, now, cfg);
    }
  }

  /** `add_link` puts the link at the end, unless one with this target and this label is there; its source is
      not compared. */
  lemma AddLinkDoes(s: State, path: string, page: Page, link: Link, now: int, cfg: Config)
    requires Ready(s, path, page, AddLink(page.id, link), cfg)
    ensures var (after, reply) := Exec(s, AddLink(page.id, link), now, cfg);
            if exists l :: l in page.linksOut && l.target == link.target && l.tag == link.tag
            then after == s && reply == Done(false)
            else Becomes(s, after, reply, path, page.(linksOut := page.linksOut + [link]), cfg)
  {
    EditDoes(s, path, page, AddLink(page.id, link), now, cfg);
  }

  lemma AddClaimPlans(path: string, page: Page, claim: Claim)
    ensures PlanAmend(path, page, AddClaim(page.id, claim))
         == if exists c :: c in page.claims && c.id == claim.id then Nothing
            else Write(path, page.(claims := page.claims + [claim]))
  {}

  /** `add_claim` puts the claim at the end, unless one with this id is there. */
  lemma AddClaimDoes(s: State, path: string, page: Page, claim: Claim, now: int, cfg: Config)
    requires Ready(s, path, page, AddClaim(page.id, claim), cfg)
    ensures var (after, reply) := Exec(s, AddClaim(page.id, claim), now, cfg);
            if exists c :: c in page.claims && c.id == claim.id
            then after == s && reply == Done(false)
            else Becomes(s, after, reply, path, page.(claims := page.claims + [claim]), cfg)
  {
    AddClaimPlans(path, page, claim);
    EditDoes(s, path, page, AddClaim(page.id, claim), now, cfg);
  }

  /** Claim `k` is the first with this id. */
  predicate FirstWith(claims: seq<Claim>, id: string, k: nat)
  {
    k < |claims| && claims[k].id == id && forall j | 0 <= j < k :: claims[j].id != id
  }

  /** `update_claim` replaces the first claim with the id where it stands, and is refused if there is none. */
  lemma UpdateClaimDoes(s: State, path: string, page: Page, claim: Claim, k: nat, now: int, cfg: Config)
    requires Ready(s, path, page, UpdateClaim(page.id, claim.id, claim), cfg)
    ensures var (after, reply) := Exec(s, UpdateClaim(page.id, claim.id, claim), now, cfg);
            && (FirstWith(page.claims, claim.id, k) ==>
                  Becomes(s, after, reply, path, page.(claims := page.claims[k := claim]), cfg))
            && ((forall c | c in page.claims :: c.id != claim.id) ==> after == s && reply == Refused(ClaimNotFound))
  {
    EditDoes(s, path, page, UpdateClaim(page.id, claim.id, claim), now, cfg);
    if FirstWith(page.claims, claim.id, k) {
      assert page.claims[k] in page.claims;
      SetClaimAt(page.claims, k, claim.id, claim);
    }
  }

  /** The places of the links that are not to the target, or have another label than the one named. */
  function Unmatched(links: seq<Link>, target: string, tag: Option<string>): set<nat>
  {
    set i: nat | i < |links| && (links[i].target != target || (tag.Some? && links[i].tag != tag))
  }

  lemma {:induction false} DropLinksPicks(links: seq<Link>, target: string, tag: Option<string>)
    ensures Picks(links, Unmatched(links, target, tag), DropLinks(links, target, tag))
    decreases |links|
  {
    if links == [] {
      PicksOfNone(links, Unmatched(links, target, tag));
    } else {
      var init, last := links[..|links| - 1], links[|links| - 1];
      assert links == init + [last];
      DropLinksPicks(init, target, tag);
      DropLinksSnoc(init, last, target, tag);
      PicksLast(links, Unmatched(init, target, tag), Unmatched(links, target, tag), DropLinks(init, target, tag));
    }
  }

  /** `remove_link` keeps, in order, exactly the links that are not to the target, or that have another label if one is
      named; if these are all there is nothing to do. */
  lemma RemoveLinkDoes(
    s: State, path: string, page: Page, target: string, tag: Option<string>, now: int, cfg: Config)
    returns (kept: seq<Link>)
    requires Ready(s, path, page, RemoveLink(page.id, target, tag), cfg)
    ensures Picks(page.linksOut,
                  (set i: nat | i < |page.linksOut| && (|| page.linksOut[i].target != target
                                                        || (tag.Some? && page.linksOut[i].tag != tag))),
                  kept)
    ensures var (after, reply) := Exec(s, RemoveLink(page.id, target, tag), now, cfg);
            if kept == page.linksOut then after == s && reply == Done(false)
            else Becomes(s, after, reply, path, page.(linksOut := kept), cfg)
  {
    kept := DropLinks(page.linksOut, target, tag);
    EditDoes(s, path, page, RemoveLink(page.id, target, tag), now, cfg);
    DropLinksPicks(page.linksOut, target, tag);
    DropUnmatched(page.linksOut, target, tag);
    DropsSomeLink(page.linksOut, target, tag);
  }

  function OtherClaims(claims: seq<Claim>, id: string): set<nat>
  {
    set i: nat | i < |claims| && claims[i].id != id
  }

  lemma {:induction false} DropClaimsPicks(claims: seq<Claim>, id: string)
    ensures Picks(claims, OtherClaims(claims, id), DropClaims(claims, id))
    decreases |claims|
  {
    if claims == [] {
      PicksOfNone(claims, OtherClaims(claims, id));
    } else {
      var init, last := claims[..|claims| - 1], claims[|claims| - 1];
      assert claims == init + [last];
      DropClaimsPicks(init, id);
      DropClaimsSnoc(init, last, id);
      PicksLast(claims, OtherClaims(init, id), OtherClaims(claims, id), DropClaims(init, id));
    }
  }

  /** `remove_claim` keeps, in order, exactly the claims with another id, and is refused if these are all. */
  lemma RemoveClaimDoes(s: State, path: string, page: Page, claimId: string, now: int, cfg: Config)
    returns (kept: seq<Claim>)
    requires Ready(s, path, page, RemoveClaim(page.id, claimId), cfg)
    ensures Picks(page.claims, (set i: nat | i < |page.claims| && page.claims[i].id != claimId), kept)
    ensures var (after, reply) := Exec(s, RemoveClaim(page.id, claimId), now, cfg);
            if exists c :: c in page.claims && c.id == claimId
            then Becomes(s, after, reply, path, page.(claims := kept), cfg)
            else after == s && reply == Refused(ClaimNotFound)
  {
    kept := DropClaims(page.claims, claimId);
    EditDoes(s, path, page, RemoveClaim(page.id, claimId), now, cfg);
    DropClaimsPicks(page.claims, claimId);
    DropsSomeClaim(page.claims, claimId);
  }

  // ---- bulk edits ----

  /** The places in the list of links that neither the page nor the list before them has with that target and label. */
  function NewLinks(links: seq<Link>, more: seq<Link>): set<nat>
  {
    set i: nat | i < |more| && (forall l | l in links :: l.target != more[i].target || l.tag != more[i].tag)
                            && forall j | 0 <= j < i :: more[j].target != more[i].target || more[j].tag != more[i].tag
  }

  lemma {:induction false} WithLinksHas(links: seq<Link>, more: seq<Link>, target: string, tag: Option<string>)
    ensures HasLink(WithLinks(links, more), target, tag) <==>
              || HasLink(links, target, tag)
              || exists j :: 0 <= j < |more| && more[j].target == target && more[j].tag == tag
    decreases |more|
  {
    if more != [] {
      var init, last := more[..|more| - 1], more[|more| - 1];
      var before := WithLinks(links, init);
      WithLinksHas(links, init, target, tag);
      HasLinkNext(before, last, target, tag);
      assert more[|more| - 1] == last && forall j | 0 <= j < |init| :: more[j] == init[j];
      if last.target == target && last.tag == tag {
        assert HasLink(WithLink(before, last), target, tag);
      }
    }
  }

  lemma HasLinkNext(links: seq<Link>, link: Link, target: string, tag: Option<string>)
    ensures HasLink(links + [link], target, tag)
       <==> HasLink(links, target, tag) || (link.target == target && link.tag == tag)
  {
    assert forall l :: l in links + [link] <==> l in links || l == link;
  }

  lemma NewLinksBefore(links: seq<Link>, more: seq<Link>, k: nat)
    requires k + 1 < |more|
    ensures k in NewLinks(links, more[..|more| - 1]) <==> k in NewLinks(links, more)
  {
    var init := more[..|more| - 1];
    assert forall j | 0 <= j <= k :: more[j] == init[j];
  }

  lemma LastLinkIsNew(links: seq<Link>, init: seq<Link>, last: Link)
    ensures |init| in NewLinks(links, init + [last]) <==> !HasLink(WithLinks(links, init), last.target, last.tag)
  {
    WithLinksHas(links, init, last.target, last.tag);
    assert forall j | 0 <= j < |init| :: (init + [last])[j] == init[j];
  }

  lemma {:induction false} WithLinksPicks(links: seq<Link>, more: seq<Link>) returns (added: seq<Link>)
    ensures WithLinks(links, more) == links + added && Picks(more, NewLinks(links, more), added)
    decreases |more|
  {
    if more == [] {
      added := [];
      PicksOfNone(more, NewLinks(links, more));
    } else {
      var init, last := more[..|more| - 1], more[|more| - 1];
      assert more == init + [last];
      var before := WithLinksPicks(links, init);
      LastLinkIsNew(links, init, last);
      forall k: nat ensures k in NewLinks(links, init) <==> k in NewLinks(links, more) && k < |init| {
        if k + 1 < |more| { NewLinksBefore(links, more, k); }
      }
      PicksLast(more, NewLinks(links, init), NewLinks(links, more), before);
      added := before + if |init| in NewLinks(links, more) then [last] else [];
    }
  }

  lemma AddLinksPlans(path: string, page: Page, links: seq<Link>, added: seq<Link>)
    requires WithLinks(page.linksOut, links) == page.linksOut + added
    ensures PlanAmend(path, page, AddLinks(page.id, links))
         == if added == [] then Nothing else Write(path, page.(linksOut := page.linksOut + added))
  {
    assert page.linksOut + [] == page.linksOut;
    assert |page.linksOut + added| == |page.linksOut| + |added|;
  }

  /** `add_links` puts at the end, in order, the links of the list that are not on the page and not earlier in the list,
      each told by target and label. */
  lemma AddLinksDoes(s: State, path: string, page: Page, links: seq<Link>, now: int, cfg: Config)
    returns (added: seq<Link>)
    requires Ready(s, path, page, AddLinks(page.id, links), cfg)
    ensures Picks(links, NewLinks(page.linksOut, links), added)
    ensures var (after, reply) := Exec(s, AddLinks(page.id, links), now, cfg);
            if added == [] then after == s && reply == Done(false)
            else Becomes(s, after, reply, path, page.(linksOut := page.linksOut + added), cfg)
  {
    added := WithLinksPicks(page.linksOut, links);
    AddLinksPlans(path, page, links, added);
    EditDoes(s, path, page, AddLinks(page.id, links), now, cfg);
  }

  /** The places in the list of claims whose id the list does not have before, nor the page unless it is empty. */
  function NewClaims(claims: seq<Claim>, more: seq<Claim>): set<nat>
  {
    set i: nat | i < |more| && (more[i].id == "" || forall c | c in claims :: c.id != more[i].id)
                            && forall j | 0 <= j < i :: more[j].id != more[i].id
  }

  lemma {:induction false} AppendedHas(claims: seq<Claim>, more: seq<Claim>, id: string)
    ensures HasClaim(Appended(claims, more), id) <==>
              (id == "" || !HasClaim(claims, id)) && exists j :: 0 <= j < |more| && more[j].id == id
    decreases |more|
  {
    if more != [] {
      var init, last := more[..|more| - 1], more[|more| - 1];
      AppendedHas(claims, init, id);
      AppendedHas(claims, init, last.id);
      assert more[|more| - 1] == last && forall j | 0 <= j < |init| :: more[j] == init[j];
      HasClaimAppended(Appended(claims, init), [last], id);
      assert HasClaim([last], id) <==> last.id == id by { assert last in [last]; }
    }
  }

  lemma NewClaimsBefore(claims: seq<Claim>, more: seq<Claim>, k: nat)
    requires k + 1 < |more|
    ensures k in NewClaims(claims, more[..|more| - 1]) <==> k in NewClaims(claims, more)
  {
    var init := more[..|more| - 1];
    assert forall j | 0 <= j <= k :: more[j] == init[j];
  }

  lemma LastIsNew(claims: seq<Claim>, init: seq<Claim>, last: Claim)
    ensures |init| in NewClaims(claims, init + [last])
       <==> !((last.id != "" && HasClaim(claims, last.id)) || HasClaim(Appended(claims, init), last.id))
  {
    AppendedHas(claims, init, last.id);
    assert forall j | 0 <= j < |init| :: (init + [last])[j] == init[j];
  }

  lemma {:induction false} AppendedPicks(claims: seq<Claim>, more: seq<Claim>)
    ensures Picks(more, NewClaims(claims, more), Appended(claims, more))
    decreases |more|
  {
    if more == [] {
      PicksOfNone(more, NewClaims(claims, more));
    } else {
      var init, last := more[..|more| - 1], more[|more| - 1];
      assert more == init + [last];
      AppendedPicks(claims, init);
      LastIsNew(claims, init, last);
      forall k: nat ensures k in NewClaims(claims, init) <==> k in NewClaims(claims, more) && k < |init| {
        if k + 1 < |more| { NewClaimsBefore(claims, more, k); }
      }
      PicksLast(more, NewClaims(claims, init), NewClaims(claims, more), Appended(claims, init));
    }
  }

  /** `add_claims` puts at the end, in order, the claims of the list whose id is not on the page, or is empty, and not
      earlier in the list. */
  lemma AddClaimsDoes(s: State, path: string, page: Page, claims: seq<Claim>, now: int, cfg: Config)
    returns (added: seq<Claim>)
    requires Ready(s, path, page, AddClaims(page.id, claims), cfg)
    ensures Picks(claims, NewClaims(page.claims, claims), added)
    ensures var (after, reply) := Exec(s, AddClaims(page.id, claims), now, cfg);
            if added == [] then after == s && reply == Done(false)
            else Becomes(s, after, reply, path, page.(claims := page.claims + added), cfg)
  {
    added := Appended(page.claims, claims);
    EditDoes(s, path, page, AddClaims(page.id, claims), now, cfg);
    AppendedPicks(page.claims, claims);
  }

  // ---- arguments ----

  /** What a request's arguments are refused for, before anything is looked up. */
  function Fault(op: Op): Option<Error>
  {
    if op.WritePage? then
      if !ValidId(op.page.id) then Some(Malformed)
      else if op.page.kind == Index then Some(ForbiddenPageType)
      else None
    else if op.pageId == "" then Some(Malformed)
    else if || (op.AddLink? && op.link.target == "") || (op.RemoveLink? && op.target == "")
            || ((op.UpdateClaim? || op.RemoveClaim?) && op.claimId == "")
            || (op.AddLinks? && op.links == []) || (op.AddClaims? && op.claims == []) then Some(Malformed)
    else if op.UpdateClaim? && op.claim.id != op.claimId then Some(InvalidArgument)
    else None
  }

  lemma FaultIsRefused(op: Op)
    ensures Validate(op) == Fault(op)
  {}

  /** A request with such a fault is refused for it on any corpus. Any other is refused only because its page, its file
      or its claim is not there, its file cannot be read, its unique id is taken, or its slug too long for one. */
  lemma ArgumentsFirst(s: State, op: Op, now: int, cfg: Config)
    ensures Fault(op).Some? ==> Exec(s, op, now, cfg) == (s, Refused(Fault(op).value))
    ensures Fault(op).None? && Exec(s, op, now, cfg).1.Refused? ==>
              var error := Exec(s, op, now, cfg).1.error;
              if op.WritePage? && op.mode == Update then error == NotFound
              else if op.WritePage? then
                && !HasSeparator(op.page.id)
                && (error == UuidCollision || (error == Malformed && !ValidId(op.page.id + "-" + op.suffix)))
              else
                || error == NotFound || error == Unreadable
                || (error == ClaimNotFound && (op.UpdateClaim? || op.RemoveClaim?))
  {
    FaultIsRefused(op);
    if Fault(op).None? { ExecPlanned(s, op, now, cfg); }
  }

  // ---- the first two phases of a batch ----

  /** The four kinds of request a batch may hold. */
  predicate OfBatchKind(op: Op)
  {
    op.WritePage? || op.AddLink? || op.AddClaim? || op.UpdateClaim?
  }

  /** What the request alone would be refused for, were it made now; slug creates are not looked at. */
  function RefusedAlone(s: State, op: Op, now: int, cfg: Config): Option<Error>
  {
    if op.WritePage? && op.mode == Create then None
    else match Exec(s, op, now, cfg).1 case Refused(error) => Some(error) case _ => None
  }

  lemma CheckOfPlan(s: State, op: Op)
    requires Located(s.files, s.tables) && Batchable(op) && Validate(op).None?
    ensures var plan := PlanOf(s.files, s.tables, op);
            Check(s, op)
            == if plan.Fail? && !(op.WritePage? && op.mode == Create) then Some(plan.error) else None
  {}

  lemma CheckIsAlone(s: State, op: Op, now: int, cfg: Config)
    requires Healthy(s, cfg) && Batchable(op) && Validate(op).None?
    ensures Check(s, op) == RefusedAlone(s, op, now, cfg)
  {
    HealthyFacts(s, cfg);
    CheckOfPlan(s, op);
    ExecReply(s, op, now, cfg);
  }

  /** An empty batch is refused. The first phase rejects another at the first request that is of no batch kind, or has
      faulty arguments for which it would be refused alone. */
  lemma BatchRejectsFaults(s: State, ops: seq<Op>, k: nat, now: int, cfg: Config)
    requires k < |ops| && forall j | 0 <= j < k :: OfBatchKind(ops[j]) && Fault(ops[j]).None?
    requires !OfBatchKind(ops[k]) || Fault(ops[k]).Some?
    ensures Batch(s, [], now, cfg) == (s, Rejected(0, Malformed))
    ensures Batch(s, ops, now, cfg)
         == (s, Rejected(k, if OfBatchKind(ops[k]) then Fault(ops[k]).value else UnknownKind))
  {
    forall j | 0 <= j <= k ensures Validate(ops[j]) == Fault(ops[j]) { FaultIsRefused(ops[j]); }
    FirstInvalidIs(ops, k);
    BatchRefuses(s, ops, k, now, cfg);
  }

  lemma AllFaultless(ops: seq<Op>)
    requires forall op | op in ops :: OfBatchKind(op) && Fault(op).None?
    ensures AllBatchable(ops) && AllValid(ops) && FirstInvalid(ops) == |ops|
  {
    forall op | op in ops ensures Batchable(op) && Validate(op).None? { FaultIsRefused(op); }
    forall j | 0 <= j < |ops| ensures Batchable(ops[j]) && Validate(ops[j]).None? { assert ops[j] in ops; }
    FirstInvalidIs(ops, |ops|);
  }

  /** On a healthy corpus the second phase rejects a batch of faultless requests at the first that alone would be
      refused, for the same reason; a create is not looked at. If there is none, it rejects nothing. */
  lemma BatchRejectsAsAlone(s: State, ops: seq<Op>, k: nat, now: int, cfg: Config)
    requires Healthy(s, cfg) && ops != [] && forall op | op in ops :: OfBatchKind(op) && Fault(op).None?
    requires k <= |ops| && forall j | 0 <= j < k :: RefusedAlone(s, ops[j], now, cfg).None?
    requires k < |ops| ==> RefusedAlone(s, ops[k], now, cfg).Some?
    ensures k < |ops| ==> Batch(s, ops, now, cfg) == (s, Rejected(k, RefusedAlone(s, ops[k], now, cfg).value))
    ensures k == |ops| ==> !Batch(s, ops, now, cfg).1.Rejected?
  {
    AllFaultless(ops);
    forall j | 0 <= j < |ops| ensures ops[j] in ops && Check(s, ops[j]) == RefusedAlone(s, ops[j], now, cfg) {
      assert ops[j] in ops;
      CheckIsAlone(s, ops[j], now, cfg);
    }
    FirstUnmetIs(s, ops, k);
    BatchEnds(s, ops, now, cfg);
  }

  // ---- reindex_page ----

  /** Where a targeted re-indexing looks: at the path of the page's row, or else at a file that carries the id. */
  ghost predicate LooksAt(s: State, id: string, path: string)
  {
    if id in s.tables.pages then path == s.tables.pages[id].path
    else Parses(s.files, path) && PageAt(s.files, path).id == id
  }

  /** One file was indexed: if it can be read, its page's row and vector are new; all rows under other ids, those of the
      index pages aside, are as they were, and so are all files but the index pages. */
  ghost predicate OneIndexed(s: State, after: State, path: string, now: int, cfg: Config)
  {
    && (forall p | !IsSlotPath(p) ::
          (p in after.files <==> p in s.files) && (p in s.files ==> after.files[p] == s.files[p]))
    && (forall x | !IsSlotId(x) && !(Parses(s.files, path) && PageAt(s.files, path).id == x) ::
          AgreeAt(s.tables, after.tables, x))
    && (Parses(s.files, path) && !IsSlotId(PageAt(s.files, path).id) ==>
          var x := PageAt(s.files, path).id;
          && x in after.tables.pages && x in after.tables.embeddings
          && Built(ParsedAt(s.files, path), after.tables.pages[x], after.tables.embeddings[x], s.tables.pages, now, cfg)
          && Faithful(after.tables, ParsedAt(s.files, path), cfg))
  }

  lemma OneFileDisk(files: Files, paths: seq<string>, t: Tables, full: bool, now: int, cfg: Config, p: string)
    requires (forall q | q in paths :: q in files) && !IsSlotPath(p)
    ensures var after := Run(files, paths, t, full, now, cfg).files;
            (p in after <==> p in files) && (p in files ==> after[p] == files[p])
  {
    RegenerateShape(files, Indexed(files, paths, t, full, now, cfg).pages, cfg);
  }

  lemma RunIsIndexedAt(files: Files, paths: seq<string>, t: Tables, full: bool, now: int, cfg: Config, x: string)
    requires (forall q | q in paths :: q in files) && !IsSlotId(x)
    ensures AgreeAt(Indexed(files, paths, t, full, now, cfg), Run(files, paths, t, full, now, cfg).tables, x)
  {
    RegenerationPasses(files, Indexed(files, paths, t, full, now, cfg), now, cfg, x);
  }

  lemma OneFileOthers(files: Files, path: string, t: Tables, now: int, cfg: Config, x: string)
    requires path in files && !IsSlotId(x) && !(Parses(files, path) && PageAt(files, path).id == x)
    ensures AgreeAt(t, Run(files, [path], t, true, now, cfg).tables, x)
  {
    IndexedMiss(files, [path], t, true, now, cfg, x);
    RunIsIndexedAt(files, [path], t, true, now, cfg, x);
    AgreeFurther(t, Indexed(files, [path], t, true, now, cfg), Run(files, [path], t, true, now, cfg).tables, x);
  }

  lemma FaithfulAgrees(a: Tables, b: Tables, p: Parsed, cfg: Config)
    requires Faithful(a, p, cfg) && AgreeAt(a, b, p.page.id)
    ensures Faithful(b, p, cfg)
  {}

  lemma OneFileRow(files: Files, path: string, t: Tables, now: int, cfg: Config)
    requires UniqueIds(files) && Parses(files, path) && !IsSlotId(PageAt(files, path).id)
    ensures var p, after := ParsedAt(files, path), Run(files, [path], t, true, now, cfg).tables;
            && p.page.id in after.pages && p.page.id in after.embeddings
            && Built(p, after.pages[p.page.id], after.embeddings[p.page.id], t.pages, now, cfg)
            && Faithful(after, p, cfg)
  {
    RunStamps(files, [path], t, true, now, cfg, path);
    assert Queued(files, [path], t, true, path);
    IndexedHit(files, [path], t, true, now, cfg, path);
    RunIsIndexedAt(files, [path], t, true, now, cfg, PageAt(files, path).id);
    FaithfulAgrees(Indexed(files, [path], t, true, now, cfg), Run(files, [path], t, true, now, cfg).tables,
                   ParsedAt(files, path), cfg);
  }

  lemma OneFileRun(s: State, path: string, now: int, cfg: Config)
    requires UniqueIds(s.files) && path in s.files
    ensures var out := Run(s.files, [path], s.tables, true, now, cfg);
            OneIndexed(s, State(out.files, out.tables), path, now, cfg)
  {
    var out := Run(s.files, [path], s.tables, true, now, cfg);
    forall p | !IsSlotPath(p)
      ensures (p in out.files <==> p in s.files) && (p in s.files ==> out.files[p] == s.files[p])
    {
      OneFileDisk(s.files, [path], s.tables, true, now, cfg, p);
    }
    forall x | !IsSlotId(x) && !(Parses(s.files, path) && PageAt(s.files, path).id == x)
      ensures AgreeAt(s.tables, out.tables, x)
    {
      OneFileOthers(s.files, path, s.tables, now, cfg, x);
    }
    if Parses(s.files, path) && !IsSlotId(PageAt(s.files, path).id) {
      OneFileRow(s.files, path, s.tables, now, cfg);
    }
  }

  lemma LookedAt(s: State, id: string, path: string)
    requires UniqueIds(s.files) && LooksAt(s, id, path) && path in s.files
    ensures ReindexPath(s, id) == Some(path)
  {}

  /** `reindex_page` is refused for an empty id, for one that has neither a row nor a file, and if the file of its row
      is gone. Otherwise it indexes one file: the row and the vector of the page in it are written anew, with the time
      of the run, and nothing under another id changes but the index pages'. */
  lemma ReindexPageDoes(s: State, id: string, now: int, cfg: Config)
    requires UniqueIds(s.files)
    ensures var (after, reply) := ReindexPage(s, id, now, cfg);
            && (id == "" ==> after == s && reply == Refused(Malformed))
            && (id != "" && id !in s.tables.pages && !HasId(s.files, id) ==> after == s && reply == Refused(NotFound))
            && (id != "" && id in s.tables.pages && s.tables.pages[id].path !in s.files ==>
                  after == s && reply == Refused(FileNotFound))
            && forall path | id != "" && LooksAt(s, id, path) && path in s.files ::
                 reply == Done(true) && OneIndexed(s, after, path, now, cfg)
  {
    forall path | id != "" && LooksAt(s, id, path) && path in s.files
      ensures var (after, reply) := ReindexPage(s, id, now, cfg);
              reply == Done(true) && OneIndexed(s, after, path, now, cfg)
    {
      LookedAt(s, id, path);
      OneFileRun(s, path, now, cfg);
    }
  }

  // ---- remove_page ----

  /** The places of the edges that neither leave the page nor lead to it. */
  function ElsewhereEdges(links: seq<Row<Link>>, id: string): set<nat>
  {
    set i: nat | i < |links| && links[i].owner != id && links[i].value.target != id
  }

  lemma {:induction false} CutEdgesPicks(links: seq<Row<Link>>, id: string)
    ensures Picks(links, ElsewhereEdges(links, id), LinksNotTo(Without(links, {id}), id))
    decreases |links|
  {
    if links == [] {
      PicksOfNone(links, ElsewhereEdges(links, id));
    } else {
      var init, last := links[..|links| - 1], links[|links| - 1];
      CutEdgesPicks(init, id);
      var kept := Without(init, {id});
      assert kept + [] == kept && (kept + [last])[..|kept|] == kept;
      var cut := LinksNotTo(kept, id);
      assert cut + [] == cut;
      PicksLast(links, ElsewhereEdges(init, id), ElsewhereEdges(links, id), cut);
    }
  }

  /** `remove_page` is refused for an empty id and for one without a row. Otherwise the file of the row goes, with the
      page's row, vector and claims and all edges from it and to it, and nothing else; the edges that stay keep
      their order. */
  lemma RemovePageDoes(s: State, id: string)
    ensures var (after, reply) := Remove(s, id);
            if id == "" then after == s && reply == Refused(Malformed)
            else if id !in s.tables.pages then after == s && reply == Refused(NotFound)
            else
              && reply == Done(true) && after.files == s.files - {s.tables.pages[id].path}
              && after.tables.pages == s.tables.pages - {id} && after.tables.embeddings == s.tables.embeddings - {id}
              && Picks(s.tables.links, ElsewhereEdges(s.tables.links, id), after.tables.links)
              && Picks(s.tables.claims, (set i: nat | i < |s.tables.claims| && s.tables.claims[i].owner !in {id}),
                       after.tables.claims)
  {
    CutEdgesPicks(s.tables.links, id);
    WithoutPicks(s.tables.claims, {id});
  }

  // ---- the time of a request ----

  /** The row of a page file is the one before if that had its hash; else it carries this time, and its time of creation
      is that of the row before or, if there was none, this time too. */
  predicate Stamped(before: Tables, after: Tables, p: Parsed, now: int)
  {
    var id := p.page.id;
    && id in after.pages
    && if id in before.pages && before.pages[id].contentHash == p.bytes then after.pages[id] == before.pages[id]
       else && after.pages[id].updatedAt == now
            && after.pages[id].createdAt
               == if id in before.pages && before.pages[id].createdAt.Some? then before.pages[id].createdAt
                  else Some(now)
  }

  /** A readable page file, and no index page's. */
  ghost predicate PageFile(files: Files, path: string)
  {
    Parses(files, path) && !IsSlotPath(path) && !IsSlotId(PageAt(files, path).id)
  }

  lemma PassIsStamped(disk: Files, t: Tables, now: int, cfg: Config, path: string)
    requires UniqueIds(disk) && PageFile(Pass(disk, t, now, cfg).files, path)
    ensures Stamped(t, Pass(disk, t, now, cfg).tables, ParsedAt(Pass(disk, t, now, cfg).files, path), now)
  {
    SortedIsReachable(disk);
    OneFileDisk(disk, Sorted(disk.Keys), t, false, now, cfg, path);
    RunStamps(disk, Sorted(disk.Keys), t, false, now, cfg, path);
  }

  /** After a request that changes something every page file is stamped so, with the time of the request. */
  lemma RequestIsStamped(s: State, op: Op, now: int, cfg: Config, path: string)
    requires Healthy(s, cfg) && Fits(s.files, s.tables, op) && Exec(s, op, now, cfg).1 == Done(true)
    requires PageFile(Exec(s, op, now, cfg).0.files, path)
    ensures var after := Exec(s, op, now, cfg).0;
            Stamped(s.tables, after.tables, ParsedAt(after.files, path), now)
  {
    DoneWasPlanned(s, op, now, cfg);
    ExecPlanned(s, op, now, cfg);
    var plan := PlanOf(s.files, s.tables, op);
    HealthyPlanIsSafe(s, op, cfg);
    WriteKeepsSound(s.files, plan.path, plan.page);
    PassIsStamped(s.files[plan.path := Print(plan.page)], s.tables, now, cfg, path);
  }

  /** And after a batch that commits, with the time of the batch. */
  lemma BatchIsStamped(s: State, ops: seq<Op>, now: int, cfg: Config, path: string)
    requires Healthy(s, cfg) && WritesAgree(s.files, s.tables, ops) && Batch(s, ops, now, cfg).1.Committed?
    requires PageFile(Batch(s, ops, now, cfg).0.files, path)
    ensures var after := Batch(s, ops, now, cfg).0;
            Stamped(s.tables, after.tables, ParsedAt(after.files, path), now)
  {
    var disk := CommittedLands(s, ops, now, cfg);
    HealthyIsRecoverable(s, cfg);
    HealthyRowsFit(s, ops, cfg);
    LandedIsPending(s, ops, |ops|, disk, cfg);
    PassIsStamped(disk, s.tables, now, cfg, path);
  }
}
