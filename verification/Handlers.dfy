/** The write handlers: what each one reads, what it writes, and the pass it triggers. */
module Handlers {
  import opened Model
  import opened IndexPages
  import opened Indexing
  import opened Stores
  import opened Address

  /** `Malformed` is the answer to a missing or invalid argument; `Unreadable` stands for the
      exception a file that no longer parses raises. */
  datatype Error =
    | Malformed | UnknownKind | ForbiddenPageType | InvalidArgument | NotFound | FileNotFound | ClaimNotFound
    | UuidCollision | Unreadable

  datatype Mode = Create | Update

  /** A write request. `suffix` is the unique part a slug create is given. */
  datatype Op =
    | WritePage(page: Page, mode: Mode, suffix: string)
    | AddLink(pageId: string, link: Link)
    | AddClaim(pageId: string, claim: Claim)
    | UpdateClaim(pageId: string, claimId: string, claim: Claim)
    | AddLinks(pageId: string, links: seq<Link>)
    | AddClaims(pageId: string, claims: seq<Claim>)
    | RemoveLink(pageId: string, target: string, tag: Option<string>)
    | RemoveClaim(pageId: string, claimId: string)

  // ---- list edits ----

  predicate HasLink(links: seq<Link>, target: string, tag: Option<string>)
  {
    exists l | l in links :: l.target == target && l.tag == tag
  }

  predicate HasClaim(claims: seq<Claim>, id: string)
  {
    exists c | c in claims :: c.id == id
  }

  /** The list with the link at its end, unless an equal target and label are already there. */
  function WithLink(links: seq<Link>, link: Link): seq<Link>
  {
    if HasLink(links, link.target, link.tag) then links else links + [link]
  }

  function WithClaim(claims: seq<Claim>, claim: Claim): seq<Claim>
  {
    if HasClaim(claims, claim.id) then claims else claims + [claim]
  }

  /** The single-link request folded over a list. */
  function WithLinks(links: seq<Link>, more: seq<Link>): seq<Link>
  {
    if more == [] then links
    else WithLink(WithLinks(links, more[..|more| - 1]), more[|more| - 1])
  }

  /** The single-claim request folded over a list. */
  function WithClaims(claims: seq<Claim>, more: seq<Claim>): seq<Claim>
  {
    if more == [] then claims
    else WithClaim(WithClaims(claims, more[..|more| - 1]), more[|more| - 1])
  }

  /** What the bulk-claim request appends: its seen-set leaves out empty ids found on the page. */
  function Appended(claims: seq<Claim>, more: seq<Claim>): seq<Claim>
  {
    if more == [] then []
    else
      var sofar, c := Appended(claims, more[..|more| - 1]), more[|more| - 1];
      if (c.id != "" && HasClaim(claims, c.id)) || HasClaim(sofar, c.id) then sofar else sofar + [c]
  }

  /** The first claim with this id replaced. */
  function SetClaim(claims: seq<Claim>, id: string, claim: Claim): seq<Claim>
  {
    if claims == [] then []
    else if claims[0].id == id then [claim] + claims[1..]
    else [claims[0]] + SetClaim(claims[1..], id, claim)
  }

  function DropClaims(claims: seq<Claim>, id: string): seq<Claim>
  {
    if claims == [] then []
    else (if claims[0].id == id then [] else [claims[0]]) + DropClaims(claims[1..], id)
  }

  /** Without a label every edge to the target goes. */
  predicate LinkMatches(l: Link, target: string, tag: Option<string>)
  {
    l.target == target && (tag.None? || l.tag == tag)
  }

  function DropLinks(links: seq<Link>, target: string, tag: Option<string>): seq<Link>
  {
    if links == [] then []
    else (if LinkMatches(links[0], target, tag) then [] else [links[0]]) + DropLinks(links[1..], target, tag)
  }

  // ---- what a request would write ----

  datatype Plan = Nothing | Write(path: string, page: Page) | Fail(error: Error)

  /** The page under the mangled id, with the caller's id kept as an alias. */
  function MangledPage(page: Page, suffix: string): Page
  {
    page.(id := Mangle(page.id, suffix),
          aliases := if page.id in page.aliases then page.aliases else page.aliases + [page.id])
  }

  /** A page as the caller gave it, every other key and the body among them: only a slug create changes anything, the
      id, which gets a hyphen and the unique part, and the aliases, which get the caller's id if it is not there. */
  predicate AsGiven(written: Page, given: Page, mode: Mode, suffix: string)
  {
    var slug := mode == Create && !HasSeparator(given.id);
    && written.id == (if slug then given.id + "-" + suffix else given.id)
    && written.aliases == (if slug && given.id !in given.aliases then given.aliases + [given.id] else given.aliases)
    && written.(id := given.id, aliases := given.aliases) == given
  }

  /** Argument checks, made before anything is read. */
  function Validate(op: Op): Option<Error>
  {
    match op
    case WritePage(page, _, _) =>
      if !ValidId(page.id) then Some(Malformed)
      else if page.kind.Index? then Some(ForbiddenPageType)
      else None
    case AddLink(id, link) => if id == "" || link.target == "" then Some(Malformed) else None
    case AddClaim(id, _) => if id == "" then Some(Malformed) else None
    case UpdateClaim(id, claimId, claim) =>
      if id == "" || claimId == "" then Some(Malformed)
      else if claim.id != claimId then Some(InvalidArgument)
      else None
    case AddLinks(id, links) => if id == "" || links == [] then Some(Malformed) else None
    case AddClaims(id, claims) => if id == "" || claims == [] then Some(Malformed) else None
    case RemoveLink(id, target, _) => if id == "" || target == "" then Some(Malformed) else None
    case RemoveClaim(id, claimId) => if id == "" || claimId == "" then Some(Malformed) else None
  }

  function PlanWrite(tables: Tables, page: Page, mode: Mode, suffix: string): Plan
    requires !page.kind.Index?
  {
    if mode == Create && HasSeparator(page.id) then Write(TargetPath(page.kind, page.id), page)
    else if mode == Create then
      var mangled := MangledPage(page, suffix);
      if !ValidId(mangled.id) then Fail(Malformed)
      else if mangled.id in tables.pages then Fail(UuidCollision)
      else Write(TargetPath(page.kind, mangled.id), mangled)
    else if page.id !in tables.pages then Fail(NotFound)
    else Write(TargetPath(page.kind, page.id), page)
  }

  /** The edit a read-modify-write request makes to the page it addresses. */
  function PlanAmend(path: string, page: Page, op: Op): Plan
    requires !op.WritePage?
  {
    match op
    case AddLink(_, link) =>
      if HasLink(page.linksOut, link.target, link.tag) then Nothing
      else Write(path, page.(linksOut := page.linksOut + [link]))
    case AddClaim(_, claim) =>
      if HasClaim(page.claims, claim.id) then Nothing
      else Write(path, page.(claims := page.claims + [claim]))
    case UpdateClaim(_, claimId, claim) =>
      if !HasClaim(page.claims, claimId) then Fail(ClaimNotFound)
      else Write(path, page.(claims := SetClaim(page.claims, claimId, claim)))
    case AddLinks(_, links) =>
      var linksOut := WithLinks(page.linksOut, links);
      if linksOut == page.linksOut then Nothing else Write(path, page.(linksOut := linksOut))
    case AddClaims(_, claims) =>
      var more := Appended(page.claims, claims);
      if more == [] then Nothing else Write(path, page.(claims := page.claims + more))
    case RemoveLink(_, target, tag) =>
      var kept := DropLinks(page.linksOut, target, tag);
      if |kept| == |page.linksOut| then Nothing else Write(path, page.(linksOut := kept))
    case RemoveClaim(_, claimId) =>
      var kept := DropClaims(page.claims, claimId);
      if |kept| == |page.claims| then Fail(ClaimNotFound) else Write(path, page.(claims := kept))
  }

  /** The plan of a validated request, reading the index for the path and the disk for the page. */
  function PlanOf(files: Files, tables: Tables, op: Op): Plan
    requires Validate(op).None?
  {
    match op
    case WritePage(page, mode, suffix) => PlanWrite(tables, page, mode, suffix)
    case _ =>
      if op.pageId !in tables.pages then Fail(NotFound)
      else
        var path := tables.pages[op.pageId].path;
        if path !in files then Fail(NotFound)
        else if files[path].page.None? then Fail(Unreadable)
        else PlanAmend(path, files[path].page.value, op)
  }

  function Applied(files: Files, plan: Plan): Files
  {
    if plan.Write? then files[plan.path := Print(plan.page)] else files
  }

  // ---- one request ----

  /** `Done(true)`: the page was written and indexed. `Done(false)`: a no-op, without a pass.
      `NoIndex`: the exception a missing `pages` table raises. */
  datatype Reply = Refused(error: Error) | Done(changed: bool) | NoIndex

  function Exec(s: State, op: Op, now: int, cfg: Config): (State, Reply)
  {
    if Validate(op).Some? then (s, Refused(Validate(op).value))
    else
      var plan := PlanOf(s.files, s.tables, op);
      match plan
      case Fail(error) => (s, Refused(error))
      case Nothing => (s, Done(false))
      case Write(_, _) =>
        var out := Pass(Applied(s.files, plan), s.tables, now, cfg);
        (State(out.files, out.tables), Done(true))
  }

  /** The state a write of this page and the pass after it lead to. */
  ghost function WrittenAndIndexed(s: State, path: string, page: Page, now: int, cfg: Config): State
  {
    var out := Pass(s.files[path := Print(page)], s.tables, now, cfg); State(out.files, out.tables)
  }

  lemma ExecPlanned(s: State, op: Op, now: int, cfg: Config)
    requires Validate(op).None?
    ensures match PlanOf(s.files, s.tables, op)
            case Fail(error) => Exec(s, op, now, cfg) == (s, Refused(error))
            case Nothing => Exec(s, op, now, cfg) == (s, Done(false))
            case Write(path, page) => Exec(s, op, now, cfg) == (WrittenAndIndexed(s, path, page, now, cfg), Done(true))
  {}

  // ---- write_batch ----

  datatype BatchReply =
    | Rejected(index: nat, error: Error)   // no request at all, or phase 1 or 2: nothing was written
    | Aborted(index: nat, error: Error)    // phase 3: earlier requests were already written
    | Committed(changed: seq<bool>)
    | Unindexed                            // the `pages` table is missing: nothing was written

  predicate Batchable(op: Op)
  {
    op.WritePage? || op.AddLink? || op.AddClaim? || op.UpdateClaim?
  }

  /** The index of the first request that fails phase 1, or the length. */
  function FirstInvalid(ops: seq<Op>): (i: nat)
    ensures i <= |ops|
    ensures i < |ops| ==> !Batchable(ops[i]) || Validate(ops[i]).Some?
    ensures forall k | 0 <= k < i :: Batchable(ops[k]) && Validate(ops[k]).None?
  {
    if ops == [] || !Batchable(ops[0]) || Validate(ops[0]).Some? then 0 else 1 + FirstInvalid(ops[1..])
  }

  /** Phase 2 looks at the state before the batch. */
  function Check(s: State, op: Op): Option<Error>
    requires Batchable(op)
  {
    match op
    case WritePage(page, mode, _) =>
      if mode == Update && page.id !in s.tables.pages then Some(NotFound) else None
    case UpdateClaim(id, claimId, _) =>
      if id !in s.tables.pages || s.tables.pages[id].path !in s.files then Some(NotFound)
      else if s.files[s.tables.pages[id].path].page.None? then Some(Unreadable)
      else if !HasClaim(s.files[s.tables.pages[id].path].page.value.claims, claimId) then Some(ClaimNotFound)
      else None
    case _ => if op.pageId !in s.tables.pages then Some(NotFound) else None
  }

  function FirstUnmet(s: State, ops: seq<Op>): (i: nat)
    requires forall op | op in ops :: Batchable(op)
    ensures i <= |ops|
    ensures i < |ops| ==> Check(s, ops[i]).Some?
    ensures forall k | 0 <= k < i :: Check(s, ops[k]).None?
  {
    if ops == [] || Check(s, ops[0]).Some? then 0 else 1 + FirstUnmet(s, ops[1..])
  }

  /** Phase 3: the files after the requests so far, or the first that failed. The index is not refreshed. */
  datatype Commit = Commit(files: Files, changed: seq<bool>, failed: Option<Error>)

  function CommitAll(files: Files, tables: Tables, ops: seq<Op>): Commit
    requires forall op | op in ops :: Validate(op).None?
  {
    if ops == [] then Commit(files, [], None)
    else
      var last := ops[|ops| - 1];
      assert forall op | op in ops[..|ops| - 1] :: op in ops;
      var c := CommitAll(files, tables, ops[..|ops| - 1]);
      if c.failed.Some? then c
      else
        var plan := PlanOf(c.files, tables, last);
        if plan.Fail? then c.(failed := Some(plan.error))
        else Commit(Applied(c.files, plan), c.changed + [plan.Write?], None)
  }

  function Batch(s: State, ops: seq<Op>, now: int, cfg: Config): (State, BatchReply)
  {
    var invalid := FirstInvalid(ops);
    if ops == [] then (s, Rejected(0, Malformed))
    else if invalid < |ops| then
      (s, Rejected(invalid, if Batchable(ops[invalid]) then Validate(ops[invalid]).value else UnknownKind))
    else
      assert forall op | op in ops :: Batchable(op) && Validate(op).None?;
      var unmet := FirstUnmet(s, ops);
      if unmet < |ops| then (s, Rejected(unmet, Check(s, ops[unmet]).value))
      else
        var c := CommitAll(s.files, s.tables, ops);
        if c.failed.Some? then (State(c.files, s.tables), Aborted(|c.changed|, c.failed.value))
        else
          var out := Pass(c.files, s.tables, now, cfg);
          (State(out.files, out.tables), Committed(c.changed))
  }

  // ---- reindex_all ----

  /** When the rebuild notices that it was asked to stop; it looks twice. */
  datatype Stopping = Never | BeforeWipe | AfterWipe

  /** A rebuild stopped after its drops leaves tables that do not exist until they are next created, empty. */
  datatype RebuildReply = Rebuilt | StoppedFirst | StoppedWiped(missing: set<TableName>)

  // ---- remove_page ----

  /** The page's own rows, every edge into it, and its file; no pass follows. */
  function Remove(s: State, id: string): (State, Reply)
  {
    if id == "" then (s, Refused(Malformed))
    else if id !in s.tables.pages then (s, Refused(NotFound))
    else
      var swept := Sweep(s.tables, {id});
      (State(s.files - {s.tables.pages[id].path}, swept.(links := LinksNotTo(swept.links, id))), Done(true))
  }
}
