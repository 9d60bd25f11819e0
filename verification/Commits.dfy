/** Phase 3 of `write_batch`: what every disk it reaches keeps, request by request. */
module Commits {
  import opened Model
  import opened IndexPages
  import opened Indexing
  import opened Stores
  import opened Address
  import opened Handlers
  import opened Keeping
  import opened Honesty

  // ---- what the caller must respect, read off the request list ----

  /** Each request fits the disk and the index, and writes of one id agree on its kind, and so on where it lives. */
  ghost predicate WritesAgree(files: Files, tables: Tables, ops: seq<Op>)
  {
    && (forall i | 0 <= i < |ops| :: Fits(files, tables, ops[i]))
    && (forall i, j | 0 <= i < |ops| && 0 <= j < |ops| && ops[i].WritePage? && ops[j].WritePage? &&
                      Effective(ops[i]).id == Effective(ops[j]).id :: ops[i].page.kind == ops[j].page.kind)
  }

  predicate RowsFit(tables: Tables, ops: seq<Op>)
  {
    forall i | 0 <= i < |ops| :: RowFits(tables, ops[i])
  }

  /** What lies where a write goes is the page written, and no other. */
  predicate OwnTarget(files: Files, op: Op)
  {
    op.WritePage? && !op.page.kind.Index? && Parses(files, TargetPath(op.page.kind, Effective(op).id)) ==>
      PageAt(files, TargetPath(op.page.kind, Effective(op).id)).id == Effective(op).id
  }

  predicate OwnTargets(files: Files, ops: seq<Op>)
  {
    forall i | 0 <= i < |ops| :: OwnTarget(files, ops[i])
  }

  /** Slug creates are given well-formed suffixes, and no two of them the same unique id. */
  ghost predicate ManglesDistinct(ops: seq<Op>)
  {
    && (forall i | 0 <= i < |ops| && IsSlugCreate(ops[i]) :: IsSuffix(ops[i].suffix))
    && (forall i, j | 0 <= i < j < |ops| && IsSlugCreate(ops[i]) && IsSlugCreate(ops[j]) ::
          Effective(ops[i]).id != Effective(ops[j]).id)
  }

  /** Phases 1 and 2 found nothing wrong. */
  ghost predicate Admitted(s: State, ops: seq<Op>)
  {
    forall op | op in ops :: Batchable(op) && Validate(op).None? && Check(s, op).None?
  }

  // ---- the disk after some of the requests ----

  /** One of the requests put a page with this id here. */
  ghost predicate PutBy(ops: seq<Op>, path: string, id: string)
  {
    exists j :: 0 <= j < |ops| && Puts(ops[j], path, id)
  }

  predicate Puts(op: Op, path: string, id: string)
  {
    && op.WritePage? && !op.page.kind.Index?
    && ValidId(id) && Effective(op).id == id && path == TargetPath(op.page.kind, id)
  }

  /** Every page was where it is, under its id, or one of the requests put it there. */
  ghost predicate AccountedFor(files: Files, ops: seq<Op>, disk: Files)
  {
    forall p | Parses(disk, p) ::
      (Parses(files, p) && PageAt(files, p).id == PageAt(disk, p).id) || PutBy(ops, p, PageAt(disk, p).id)
  }

  /** No page became an index page. */
  ghost predicate IndexStays(files: Files, disk: Files)
  {
    forall p | Parses(disk, p) && PageAt(disk, p).kind.Index? :: Parses(files, p) && PageAt(files, p).kind.Index?
  }

  ghost predicate Tracked(files: Files, ops: seq<Op>, disk: Files)
  {
    Sound(disk) && AccountedFor(files, ops, disk) && IndexStays(files, disk)
  }

  lemma NextIsAtHome(files: Files, tables: Tables, ops: seq<Op>, k: nat, disk: Files)
    requires k < |ops| && WritesAgree(files, tables, ops) && Tracked(files, ops[..k], disk)
    ensures AtHome(disk, ops[k])
  {
    var op := ops[k];
    assert Fits(files, tables, op);
    forall p | Parses(disk, p) && op.WritePage? && !op.page.kind.Index? && PageAt(disk, p).id == Effective(op).id
      ensures p == TargetPath(op.page.kind, Effective(op).id)
    {
      if !(Parses(files, p) && PageAt(files, p).id == Effective(op).id) {
        var j :| 0 <= j < k && Puts(ops[..k][j], p, Effective(op).id);
        assert ops[..k][j] == ops[j];
      }
    }
  }

  lemma NextFits(files: Files, tables: Tables, ops: seq<Op>, k: nat, disk: Files)
    requires k < |ops| && WritesAgree(files, tables, ops) && Tracked(files, ops[..k], disk)
    ensures Fits(disk, tables, ops[k])
  {
    NextIsAtHome(files, tables, ops, k, disk);
    assert Fits(files, tables, ops[k]);
  }

  lemma TrackedIsUnmoved(files: Files, tables: Tables, ops: seq<Op>, disk: Files)
    requires Unmoved(files, tables) && RowsFit(tables, ops) && Tracked(files, ops, disk)
    ensures Unmoved(disk, tables)
  {
    forall id, q | id in tables.pages && Parses(disk, q) && PageAt(disk, q).id == id
      ensures q == tables.pages[id].path
    {
      if !(Parses(files, q) && PageAt(files, q).id == id) {
        var j :| 0 <= j < |ops| && Puts(ops[j], q, id);
        assert RowFits(tables, ops[j]);
      }
    }
  }

  // ---- one request at a time ----

  lemma PutByMore(ops: seq<Op>, k: nat, path: string, id: string)
    requires k < |ops|
    ensures PutBy(ops[..k], path, id) ==> PutBy(ops[..k + 1], path, id)
    ensures Puts(ops[k], path, id) ==> PutBy(ops[..k + 1], path, id)
  {
    if PutBy(ops[..k], path, id) {
      var j :| 0 <= j < k && Puts(ops[..k][j], path, id);
      assert ops[..k + 1][j] == ops[..k][j];
    }
    assert ops[..k + 1][k] == ops[k];
  }

  /** Request `k` puts a page where it should be, or rewrites one without touching its id or kind. */
  ghost predicate PutsOrKeeps(op: Op, disk: Files, path: string, page: Page)
  {
    || (Puts(op, path, page.id) && !page.kind.Index?)
    || (Parses(disk, path) && PageAt(disk, path).id == page.id && PageAt(disk, path).kind == page.kind)
  }

  lemma WriteAccounts(files: Files, ops: seq<Op>, k: nat, disk: Files, path: string, page: Page)
    requires k < |ops| && AccountedFor(files, ops[..k], disk) && PutsOrKeeps(ops[k], disk, path, page)
    ensures AccountedFor(files, ops[..k + 1], disk[path := Print(page)])
  {
    var next := disk[path := Print(page)];
    forall p | Parses(next, p)
      ensures (Parses(files, p) && PageAt(files, p).id == PageAt(next, p).id)
              || PutBy(ops[..k + 1], p, PageAt(next, p).id)
    {
      PutByMore(ops, k, p, PageAt(next, p).id);
      if Parses(disk, p) { assert AccountedFor(files, ops[..k], disk); }
    }
  }

  lemma WriteTracks(files: Files, ops: seq<Op>, k: nat, disk: Files, path: string, page: Page)
    requires k < |ops| && Tracked(files, ops[..k], disk)
    requires WriteOk(disk, path, page) && PutsOrKeeps(ops[k], disk, path, page)
    ensures Tracked(files, ops[..k + 1], disk[path := Print(page)])
  {
    WriteKeepsSound(disk, path, page);
    WriteAccounts(files, ops, k, disk, path, page);
  }

  lemma IdleTracks(files: Files, ops: seq<Op>, k: nat, disk: Files)
    requires k < |ops| && Tracked(files, ops[..k], disk)
    ensures Tracked(files, ops[..k + 1], disk)
  {
    forall p | Parses(disk, p)
      ensures (Parses(files, p) && PageAt(files, p).id == PageAt(disk, p).id)
              || PutBy(ops[..k + 1], p, PageAt(disk, p).id)
    {
      PutByMore(ops, k, p, PageAt(disk, p).id);
    }
  }

  /** What the plan of a request writes to. */
  lemma PlanTarget(disk: Files, tables: Tables, op: Op)
    requires Validate(op).None? && PlanOf(disk, tables, op).Write?
    ensures var plan := PlanOf(disk, tables, op);
            if op.WritePage? then
              plan.page == Effective(op) && plan.path == TargetPath(op.page.kind, Effective(op).id)
              && (IsSlugCreate(op) ==> Effective(op).id !in tables.pages)
            else
              Parses(disk, plan.path) && plan.page.id == PageAt(disk, plan.path).id
              && plan.page.kind == PageAt(disk, plan.path).kind
  {}

  lemma PlannedPuts(disk: Files, tables: Tables, op: Op)
    requires Validate(op).None? && PlanOf(disk, tables, op).Write?
    ensures var plan := PlanOf(disk, tables, op); PutsOrKeeps(op, disk, plan.path, plan.page)
  {
    PlanTarget(disk, tables, op);
    if op.WritePage? { PlannedIdIsValid(disk, tables, op); }
  }

  lemma PlannedIdIsValid(files: Files, tables: Tables, op: Op)
    requires op.WritePage? && Validate(op).None? && PlanOf(files, tables, op).Write?
    ensures ValidId(Effective(op).id) && !op.page.kind.Index? && Effective(op).kind == op.page.kind
  {}


  // ---- the commit, request by request ----

  ghost predicate AllValid(ops: seq<Op>)
  {
    forall op | op in ops :: Validate(op).None?
  }

  ghost predicate AllBatchable(ops: seq<Op>)
  {
    forall op | op in ops :: Batchable(op)
  }

  /** How a batch that is not empty and passes phase 1 goes on. */
  lemma BatchEnds(s: State, ops: seq<Op>, now: int, cfg: Config)
    requires ops != [] && AllBatchable(ops) && AllValid(ops) && FirstInvalid(ops) == |ops|
    ensures if FirstUnmet(s, ops) < |ops| then
              Batch(s, ops, now, cfg) == (s, Rejected(FirstUnmet(s, ops), Check(s, ops[FirstUnmet(s, ops)]).value))
            else
              var c := CommitAll(s.files, s.tables, ops);
              if c.failed.Some? then
                Batch(s, ops, now, cfg) == (State(c.files, s.tables), Aborted(|c.changed|, c.failed.value))
              else
                var out := Pass(c.files, s.tables, now, cfg);
                Batch(s, ops, now, cfg) == (State(out.files, out.tables), Committed(c.changed))
  {}

  lemma FirstInvalidIs(ops: seq<Op>, i: nat)
    requires i <= |ops| && forall k | 0 <= k < i :: Batchable(ops[k]) && Validate(ops[k]).None?
    requires i < |ops| ==> !Batchable(ops[i]) || Validate(ops[i]).Some?
    ensures FirstInvalid(ops) == i
  {}

  lemma FirstUnmetIs(s: State, ops: seq<Op>, i: nat)
    requires forall op | op in ops :: Batchable(op)
    requires i <= |ops| && forall k | 0 <= k < i :: Check(s, ops[k]).None?
    requires i < |ops| ==> Check(s, ops[i]).Some?
    ensures FirstUnmet(s, ops) == i
  {}

  lemma BatchRefuses(s: State, ops: seq<Op>, i: nat, now: int, cfg: Config)
    requires i == FirstInvalid(ops) && i < |ops|
    ensures Batch(s, ops, now, cfg).0 == s
    ensures Batch(s, ops, now, cfg).1
         == Rejected(i, if Batchable(ops[i]) then Validate(ops[i]).value else UnknownKind)
  {}

  lemma AdmittedPasses(s: State, ops: seq<Op>)
    requires Admitted(s, ops)
    ensures AllValid(ops) && AllBatchable(ops) && FirstInvalid(ops) == |ops| && FirstUnmet(s, ops) == |ops|
  {
    assert forall i | 0 <= i < |ops| :: ops[i] in ops;
  }

  function Prefix(ops: seq<Op>, k: nat): (r: seq<Op>)
    requires k <= |ops|
    ensures forall op | op in r :: op in ops
  {
    ops[..k]
  }

  /** The commit of the first `k` requests went through and left this disk. */
  ghost predicate Landed(files: Files, tables: Tables, ops: seq<Op>, k: nat, disk: Files)
    requires k <= |ops| && AllValid(ops)
  {
    var c := CommitAll(files, tables, Prefix(ops, k));
    c.failed.None? && c.files == disk && |c.changed| == k
  }

  lemma LandedBefore(files: Files, tables: Tables, ops: seq<Op>, k: nat, disk: Files) returns (before: Files)
    requires 0 < k <= |ops| && AllValid(ops) && Landed(files, tables, ops, k, disk)
    ensures Landed(files, tables, ops, k - 1, before)
    ensures ops[k - 1] in ops && !PlanOf(before, tables, ops[k - 1]).Fail?
    ensures disk == Applied(before, PlanOf(before, tables, ops[k - 1]))
  {
    assert ops[..k][..k - 1] == ops[..k - 1];
    before := CommitAll(files, tables, Prefix(ops, k - 1)).files;
  }

  /** The commit keeps the disk sound and accounts for every page on it. */
  lemma {:induction false} CommitTracks(files: Files, tables: Tables, ops: seq<Op>, k: nat, disk: Files)
    requires k <= |ops| && AllValid(ops) && WritesAgree(files, tables, ops) && RowsFit(tables, ops)
    requires Sound(files) && Landed(files, tables, ops, k, disk)
    ensures Tracked(files, ops[..k], disk)
    decreases k
  {
    if k > 0 {
      var before := LandedBefore(files, tables, ops, k, disk);
      CommitTracks(files, tables, ops, k - 1, before);
      PlanTracks(files, tables, ops, k - 1, before);
    }
  }

  lemma PlanTracks(files: Files, tables: Tables, ops: seq<Op>, k: nat, disk: Files)
    requires k < |ops| && Validate(ops[k]).None? && WritesAgree(files, tables, ops) && RowsFit(tables, ops)
    requires Tracked(files, ops[..k], disk)
    ensures Tracked(files, ops[..k + 1], Applied(disk, PlanOf(disk, tables, ops[k])))
    ensures var plan := PlanOf(disk, tables, ops[k]); plan.Write? ==> WriteOk(disk, plan.path, plan.page)
  {
    var plan := PlanOf(disk, tables, ops[k]);
    NextFits(files, tables, ops, k, disk);
    assert RowFits(tables, ops[k]);
    PlanIsSafe(disk, tables, ops[k]);
    if plan.Write? {
      PlannedPuts(disk, tables, ops[k]);
      WriteTracks(files, ops, k, disk, plan.path, plan.page);
    } else {
      IdleTracks(files, ops, k, disk);
    }
  }

  // ---- if no request overwrites another page, every page also stays where it was ----

  /** Every page of `files` is where it was, whatever it says now. */
  ghost predicate KeptInPlace(files: Files, disk: Files)
  {
    forall p | Parses(files, p) :: Parses(disk, p) && PageAt(disk, p).id == PageAt(files, p).id
  }

  ghost predicate InPlace(files: Files, tables: Tables, ops: seq<Op>, disk: Files)
  {
    Tracked(files, ops, disk) && KeptInPlace(files, disk) && Located(disk, tables)
  }

  lemma NextOwnsTarget(files: Files, ops: seq<Op>, k: nat, disk: Files)
    requires k < |ops| && OwnTargets(files, ops) && AccountedFor(files, ops[..k], disk)
    requires ops[k].WritePage? ==> ValidId(Effective(ops[k]).id)
    ensures OwnTarget(disk, ops[k])
  {
    var op := ops[k];
    assert OwnTarget(files, op);
    if op.WritePage? && !op.page.kind.Index? && Parses(disk, TargetPath(op.page.kind, Effective(op).id)) {
      var target := TargetPath(op.page.kind, Effective(op).id);
      var id := PageAt(disk, target).id;
      if !(Parses(files, target) && PageAt(files, target).id == id) {
        var j :| 0 <= j < k && Puts(ops[..k][j], target, id);
        PathsAreInjective(op.page.kind, Effective(op).id, ops[j].page.kind, id);
      }
    }
  }

  /** A plan rewrites the page that is where it writes, if one is. */
  lemma PlanKeepsPage(disk: Files, tables: Tables, op: Op)
    requires Validate(op).None? && PlanOf(disk, tables, op).Write? && OwnTarget(disk, op)
    ensures var plan := PlanOf(disk, tables, op);
            Parses(disk, plan.path) ==> PageAt(disk, plan.path).id == plan.page.id
  {
    PlanTarget(disk, tables, op);
    if op.WritePage? { PlannedIdIsValid(disk, tables, op); }
  }

  lemma WriteStaysInPlace(files: Files, tables: Tables, disk: Files, path: string, page: Page)
    requires KeptInPlace(files, disk) && Located(disk, tables)
    requires Parses(disk, path) ==> PageAt(disk, path).id == page.id
    ensures KeptInPlace(files, disk[path := Print(page)]) && Located(disk[path := Print(page)], tables)
  {}

  lemma PlanStaysInPlace(files: Files, tables: Tables, ops: seq<Op>, k: nat, disk: Files)
    requires k < |ops| && Validate(ops[k]).None? && WritesAgree(files, tables, ops) && RowsFit(tables, ops)
    requires OwnTargets(files, ops) && InPlace(files, tables, ops[..k], disk)
    ensures InPlace(files, tables, ops[..k + 1], Applied(disk, PlanOf(disk, tables, ops[k])))
  {
    var plan := PlanOf(disk, tables, ops[k]);
    PlanTracks(files, tables, ops, k, disk);
    if plan.Write? {
      if ops[k].WritePage? { PlannedIdIsValid(disk, tables, ops[k]); }
      NextOwnsTarget(files, ops, k, disk);
      PlanKeepsPage(disk, tables, ops[k]);
      WriteStaysInPlace(files, tables, disk, plan.path, plan.page);
    }
  }

  lemma {:induction false} CommitStaysInPlace(files: Files, tables: Tables, ops: seq<Op>, k: nat, disk: Files)
    requires k <= |ops| && AllValid(ops) && WritesAgree(files, tables, ops) && RowsFit(tables, ops)
    requires OwnTargets(files, ops) && Sound(files) && Located(files, tables) && Landed(files, tables, ops, k, disk)
    ensures InPlace(files, tables, ops[..k], disk)
    decreases k
  {
    if k > 0 {
      var before := LandedBefore(files, tables, ops, k, disk);
      CommitStaysInPlace(files, tables, ops, k - 1, before);
      PlanStaysInPlace(files, tables, ops, k - 1, before);
    }
  }

  // ---- unique ids really are new ----

  /** Unique ids the index does not know are not on the disk either, and the targets of updates are indexed. */
  ghost predicate Indexes(files: Files, tables: Tables, ops: seq<Op>)
  {
    && (forall i | 0 <= i < |ops| && IsSlugCreate(ops[i]) && Effective(ops[i]).id !in tables.pages ::
          !HasId(files, Effective(ops[i]).id))
    && (forall i | 0 <= i < |ops| && ops[i].WritePage? ::
          Validate(ops[i]).None? && (ops[i].mode == Update ==> ops[i].page.id in tables.pages))
  }

  lemma AdmittedUpdates(s: State, ops: seq<Op>, i: nat)
    requires Admitted(s, ops) && i < |ops| && ops[i].WritePage?
    ensures Validate(ops[i]).None? && (ops[i].mode == Update ==> ops[i].page.id in s.tables.pages)
  {
    assert ops[i] in ops;
  }

  lemma AdmittedIndexes(s: State, ops: seq<Op>, cfg: Config)
    requires Healthy(s, cfg) && Admitted(s, ops)
    ensures Indexes(s.files, s.tables, ops)
  {
    HealthyIsLocated(s, cfg);
    forall i | 0 <= i < |ops| && ops[i].WritePage?
      ensures Validate(ops[i]).None? && (ops[i].mode == Update ==> ops[i].page.id in s.tables.pages)
    {
      AdmittedUpdates(s, ops, i);
    }
  }

  ghost predicate MangleFresh(files: Files, op: Op)
  {
    IsSlugCreate(op) ==> !HasId(files, Effective(op).id)
  }

  lemma EarlierIsAnother(tables: Tables, earlier: Op, op: Op)
    requires earlier.WritePage? && IsSlugCreate(op) && IsSuffix(op.suffix)
    requires Validate(earlier).None? && (earlier.mode == Update ==> earlier.page.id in tables.pages)
    requires Validate(op).None? && Effective(op).id !in tables.pages
    requires IsSlugCreate(earlier) ==> Effective(earlier).id != Effective(op).id
    ensures Effective(earlier).id != Effective(op).id
  {
    MangledIsNoSection(op.page.id, op.suffix);
  }

  lemma NextIsFresh(files: Files, tables: Tables, ops: seq<Op>, k: nat, disk: Files)
    requires k < |ops| && Indexes(files, tables, ops) && ManglesDistinct(ops)
    requires AccountedFor(files, ops[..k], disk)
    requires IsSlugCreate(ops[k]) ==> Effective(ops[k]).id !in tables.pages
    ensures MangleFresh(disk, ops[k])
  {
    if IsSlugCreate(ops[k]) && HasId(disk, Effective(ops[k]).id) {
      var p :| Parses(disk, p) && PageAt(disk, p).id == Effective(ops[k]).id;
      if !(Parses(files, p) && PageAt(files, p).id == Effective(ops[k]).id) {
        var j :| 0 <= j < k && Puts(ops[..k][j], p, Effective(ops[k]).id);
        EarlierIsAnother(tables, ops[j], ops[k]);
      }
    }
  }

  // ---- a batch on a healthy corpus ----

  /** What `write_batch` is given on a healthy corpus when it is to do what its requests do one by one. */
  ghost predicate Requests(files: Files, tables: Tables, ops: seq<Op>)
  {
    && AllValid(ops) && AllBatchable(ops) && WritesAgree(files, tables, ops) && RowsFit(tables, ops)
    && OwnTargets(files, ops) && Indexes(files, tables, ops) && ManglesDistinct(ops)
  }

  lemma HealthyRowsFit(s: State, ops: seq<Op>, cfg: Config)
    requires Healthy(s, cfg) && WritesAgree(s.files, s.tables, ops)
    ensures RowsFit(s.tables, ops)
  {
    forall i | 0 <= i < |ops| ensures RowFits(s.tables, ops[i]) {
      assert Fits(s.files, s.tables, ops[i]);
      HealthyRowFits(s, ops[i], cfg);
    }
  }

  lemma AdmittedRequests(s: State, ops: seq<Op>, cfg: Config)
    requires Healthy(s, cfg) && Admitted(s, ops) && WritesAgree(s.files, s.tables, ops)
    requires OwnTargets(s.files, ops) && ManglesDistinct(ops)
    ensures Requests(s.files, s.tables, ops)
  {
    AdmittedIndexes(s, ops, cfg);
    HealthyRowsFit(s, ops, cfg);
  }
}
