/** `write_batch` does what its requests do one by one. */
module Batches {
  import opened Model
  import opened TextOrder
  import opened IndexPages
  import opened Indexing
  import opened RunLemmas
  import opened Refinement
  import opened Runs
  import opened Steady
  import opened Stores
  import opened Handlers
  import opened Keeping
  import opened Commits

  // ---- the same requests one by one ----

  predicate Stepped(states: seq<State>, ops: seq<Op>, times: seq<int>, cfg: Config, i: nat)
    requires |states| == |ops| + 1 == |times| + 1 && i < |ops|
  {
    states[i + 1] == Exec(states[i], ops[i], times[i], cfg).0
  }

  /** The states passed through when the requests are made in turn, each followed by its own pass. */
  ghost predicate OneByOne(states: seq<State>, ops: seq<Op>, times: seq<int>, cfg: Config)
  {
    && |states| == |ops| + 1 == |times| + 1
    && forall i | 0 <= i < |ops| :: Stepped(states, ops, times, cfg, i)
  }

  /** The disks differ in the index pages at most. */
  ghost predicate AgreeOffSlots(a: Files, b: Files)
  {
    forall p | !IsSlotPath(p) :: (p in a <==> p in b) && (p in a ==> a[p] == b[p])
  }

  /** A sound disk that has both index pages. */
  ghost predicate Corpus(files: Files)
  {
    Sound(files) && Parses(files, GLOSSARY.path) && Parses(files, DOMAINS.path)
  }

  lemma HealthyIsCorpus(s: State, cfg: Config)
    requires Healthy(s, cfg)
    ensures Corpus(s.files)
  {
    HealthyHasSlots(s, cfg);
  }

  lemma SameIdsOffSlots(a: Files, b: Files, id: string)
    requires Corpus(a) && Corpus(b) && AgreeOffSlots(a, b) && HasId(a, id)
    ensures HasId(b, id)
  {
    var p :| Parses(a, p) && PageAt(a, p).id == id;
    assert Parses(b, p) && PageAt(b, p).id == id;
  }

  lemma SamePathOffSlots(disk: Files, tables: Tables, s: State, cfg: Config, id: string)
    requires Corpus(disk) && Located(disk, tables) && Healthy(s, cfg) && AgreeOffSlots(disk, s.files)
    requires id in tables.pages
    ensures id in s.tables.pages && s.tables.pages[id].path == tables.pages[id].path
    ensures Parses(s.files, tables.pages[id].path) && PageAt(s.files, tables.pages[id].path).id == id
    ensures !IsSlotPath(tables.pages[id].path) ==> s.files[tables.pages[id].path] == disk[tables.pages[id].path]
  {
    var path := tables.pages[id].path;
    HealthyIsCorpus(s, cfg);
    HealthyIsLocated(s, cfg);
    assert Parses(disk, path) && PageAt(disk, path).id == id;
    assert Parses(s.files, path) && PageAt(s.files, path).id == id;
    assert HasId(s.files, id);
  }

  lemma SamePlanForWrite(disk: Files, tables: Tables, s: State, cfg: Config, op: Op)
    requires Corpus(disk) && Located(disk, tables) && Healthy(s, cfg) && AgreeOffSlots(disk, s.files)
    requires op.WritePage? && Validate(op).None? && MangleFresh(disk, op)
    requires PlanOf(disk, tables, op).Write?
    ensures PlanOf(s.files, s.tables, op) == PlanOf(disk, tables, op)
  {
    if IsSlugCreate(op) {
      HealthyIsCorpus(s, cfg);
      HealthyIsLocated(s, cfg);
      if HasId(s.files, Effective(op).id) { SameIdsOffSlots(s.files, disk, Effective(op).id); }
    } else if op.mode == Update {
      SamePathOffSlots(disk, tables, s, cfg, op.page.id);
    }
  }

  lemma PlanOfLocated(files: Files, tables: Tables, op: Op)
    requires !op.WritePage? && Validate(op).None? && op.pageId in tables.pages
    requires Parses(files, tables.pages[op.pageId].path)
    ensures var path := tables.pages[op.pageId].path;
            PlanOf(files, tables, op) == PlanAmend(path, PageAt(files, path), op)
  {}

  lemma AmendOnSlot(path: string, page: Page, op: Op)
    requires op.AddLink?
    ensures var plan := PlanAmend(path, page, op); !plan.Fail? && (plan.Write? ==> plan.path == path)
  {}

  /** The request edits an index page: what it adds there the next pass drops. */
  predicate OnSlot(tables: Tables, op: Op)
  {
    !op.WritePage? && op.pageId in tables.pages && IsSlotPath(tables.pages[op.pageId].path)
  }

  /** The plans are equal, or both go through and only rewrite an index page. */
  predicate SamePlans(tables: Tables, op: Op, a: Plan, b: Plan)
  {
    || a == b
    || (OnSlot(tables, op) && !b.Fail? && (a.Write? ==> IsSlotPath(a.path)) && (b.Write? ==> IsSlotPath(b.path)))
  }

  lemma SamePlanForAmend(disk: Files, tables: Tables, s: State, cfg: Config, op: Op)
    requires Corpus(disk) && Located(disk, tables) && Healthy(s, cfg) && AgreeOffSlots(disk, s.files)
    requires !op.WritePage? && Batchable(op) && Validate(op).None? && ClaimsFit(disk, tables, op)
    requires op.pageId in tables.pages && !PlanOf(disk, tables, op).Fail?
    ensures SamePlans(tables, op, PlanOf(disk, tables, op), PlanOf(s.files, s.tables, op))
  {
    SamePathOffSlots(disk, tables, s, cfg, op.pageId);
    var path := tables.pages[op.pageId].path;
    assert Parses(disk, path) && PageAt(disk, path).id == op.pageId;
    PlanOfLocated(disk, tables, op);
    PlanOfLocated(s.files, s.tables, op);
    if IsSlotPath(path) {
      assert PageAt(disk, path).kind.Index?;
      AmendOnSlot(path, PageAt(disk, path), op);
      AmendOnSlot(path, PageAt(s.files, path), op);
    }
  }

  lemma PlannedIsIndexed(files: Files, tables: Tables, op: Op)
    requires !op.WritePage? && Validate(op).None? && !PlanOf(files, tables, op).Fail?
    ensures op.pageId in tables.pages
  {}

  lemma WritesAlways(files: Files, tables: Tables, op: Op)
    requires op.WritePage? && Validate(op).None? && !PlanOf(files, tables, op).Fail?
    ensures PlanOf(files, tables, op).Write?
  {}

  /** A request plans the same thing against the batch's disk and stale tables as against the
      state its predecessors left, but for what it would add to an index page. */
  lemma SamePlan(disk: Files, tables: Tables, s: State, cfg: Config, op: Op)
    requires Corpus(disk) && Located(disk, tables) && Healthy(s, cfg) && AgreeOffSlots(disk, s.files)
    requires Batchable(op) && Validate(op).None? && ClaimsFit(disk, tables, op)
    requires PlanOf(disk, tables, op).Write? ==> MangleFresh(disk, op)
    requires !PlanOf(disk, tables, op).Fail?
    ensures SamePlans(tables, op, PlanOf(disk, tables, op), PlanOf(s.files, s.tables, op))
  {
    if op.WritePage? {
      WritesAlways(disk, tables, op);
      SamePlanForWrite(disk, tables, s, cfg, op);
    } else {
      PlannedIsIndexed(disk, tables, op);
      SamePlanForAmend(disk, tables, s, cfg, op);
    }
  }

  lemma PassOffSlots(files: Files, t: Tables, now: int, cfg: Config)
    ensures AgreeOffSlots(files, Pass(files, t, now, cfg).files)
  {
    SortedIsReachable(files);
    RegenerateRenders(files, Indexed(files, Sorted(files.Keys), t, false, now, cfg), now, cfg);
  }

  lemma ExecOfPlan(s: State, op: Op, now: int, cfg: Config)
    requires Validate(op).None? && !PlanOf(s.files, s.tables, op).Fail?
    ensures var plan := PlanOf(s.files, s.tables, op);
            && Exec(s, op, now, cfg).1 == Done(plan.Write?)
            && Exec(s, op, now, cfg).0.files
               == if plan.Write? then Pass(Applied(s.files, plan), s.tables, now, cfg).files else s.files
  {}

  lemma AppliedOffSlots(disk: Files, files: Files, a: Plan, b: Plan)
    requires AgreeOffSlots(disk, files)
    requires a == b || ((a.Write? ==> IsSlotPath(a.path)) && (b.Write? ==> IsSlotPath(b.path)))
    ensures AgreeOffSlots(Applied(disk, a), Applied(files, b))
  {}

  lemma ExecFollows(disk: Files, tables: Tables, s: State, cfg: Config, op: Op, now: int)
    requires Corpus(disk) && Located(disk, tables) && Healthy(s, cfg) && AgreeOffSlots(disk, s.files)
    requires Batchable(op) && Validate(op).None? && ClaimsFit(disk, tables, op)
    requires PlanOf(disk, tables, op).Write? ==> MangleFresh(disk, op)
    requires !PlanOf(disk, tables, op).Fail?
    ensures AgreeOffSlots(Applied(disk, PlanOf(disk, tables, op)), Exec(s, op, now, cfg).0.files)
    ensures Exec(s, op, now, cfg).1.Done?
    ensures !OnSlot(tables, op) ==> Exec(s, op, now, cfg).1 == Done(PlanOf(disk, tables, op).Write?)
  {
    SamePlan(disk, tables, s, cfg, op);
    var a, b := PlanOf(disk, tables, op), PlanOf(s.files, s.tables, op);
    ExecOfPlan(s, op, now, cfg);
    AppliedOffSlots(disk, s.files, a, b);
    PassOffSlots(Applied(s.files, b), s.tables, now, cfg);
  }

  /** What fits the batch's disk and the tables it reads fits the state its predecessors left one by one. */
  lemma SameFits(disk: Files, tables: Tables, s: State, cfg: Config, op: Op)
    requires Corpus(disk) && Located(disk, tables) && Healthy(s, cfg) && AgreeOffSlots(disk, s.files)
    requires Fits(disk, tables, op) && (!op.WritePage? ==> op.pageId in tables.pages)
    ensures Fits(s.files, s.tables, op)
  {
    HealthyIsCorpus(s, cfg);
    forall p | Parses(s.files, p)
      ensures Parses(disk, p)
      ensures PageAt(disk, p).id == PageAt(s.files, p).id
      ensures PageAt(disk, p).kind.Index? <==> PageAt(s.files, p).kind.Index?
    {
      if IsSlotPath(p) { assert Parses(disk, p); }
    }
    if !op.WritePage? { SamePathOffSlots(disk, tables, s, cfg, op.pageId); }
  }

  lemma InPlaceIsCorpus(files: Files, tables: Tables, ops: seq<Op>, disk: Files)
    requires Corpus(files) && InPlace(files, tables, ops, disk)
    ensures Corpus(disk) && NothingMoved(files, disk)
  {}

  /** From a healthy corpus every disk the commit reaches is sound and has every page where it was. */
  lemma CommitStays(s: State, ops: seq<Op>, k: nat, disk: Files, cfg: Config)
    requires k <= |ops| && Healthy(s, cfg) && Requests(s.files, s.tables, ops)
    requires Landed(s.files, s.tables, ops, k, disk)
    ensures InPlace(s.files, s.tables, ops[..k], disk) && Corpus(disk) && NothingMoved(s.files, disk)
  {
    HealthyIsLocated(s, cfg);
    HealthyIsCorpus(s, cfg);
    CommitStaysInPlace(s.files, s.tables, ops, k, disk);
    InPlaceIsCorpus(s.files, s.tables, ops[..k], disk);
  }

  /** What the next request does and answers, made on its own on the state its predecessors left. */
  ghost predicate Matched(q: State, op: Op, before: Files, tables: Tables, now: int, cfg: Config)
    requires Validate(op).None?
  {
    var (next, reply) := Exec(q, op, now, cfg);
    && Healthy(next, cfg) && AgreeOffSlots(Applied(before, PlanOf(before, tables, op)), next.files)
    && reply.Done? && (!OnSlot(tables, op) ==> reply == Done(PlanOf(before, tables, op).Write?))
  }

  lemma ExecKeepsPace(
    files: Files, tables: Tables, ops: seq<Op>, k: nat, before: Files, q: State, now: int, cfg: Config)
    requires k < |ops| && ops[k] in ops && Requests(files, tables, ops)
    requires InPlace(files, tables, ops[..k], before) && Corpus(before) && !PlanOf(before, tables, ops[k]).Fail?
    requires Healthy(q, cfg) && AgreeOffSlots(before, q.files)
    ensures Matched(q, ops[k], before, tables, now, cfg)
  {
    var op := ops[k];
    NextFits(files, tables, ops, k, before);
    if PlanOf(before, tables, op).Write? { PlanTarget(before, tables, op); }
    NextIsFreshIfPlanned(files, tables, ops, k, before);
    ExecFollows(before, tables, q, cfg, op, now);
    if !op.WritePage? { PlannedIsIndexed(before, tables, op); }
    SameFits(before, tables, q, cfg, op);
    ExecKeepsHealthy(q, op, now, cfg);
  }

  lemma NextIsFreshIfPlanned(files: Files, tables: Tables, ops: seq<Op>, k: nat, disk: Files)
    requires k < |ops| && ops[k] in ops && Requests(files, tables, ops) && AccountedFor(files, ops[..k], disk)
    ensures PlanOf(disk, tables, ops[k]).Write? ==> MangleFresh(disk, ops[k])
  {
    if PlanOf(disk, tables, ops[k]).Write? {
      PlanTarget(disk, tables, ops[k]);
      NextIsFresh(files, tables, ops, k, disk);
    }
  }

  lemma SequenceStep(
    s: State, ops: seq<Op>, k: nat, before: Files, states: seq<State>, times: seq<int>, cfg: Config)
    requires k < |ops| && ops[k] in ops && Requests(s.files, s.tables, ops) && Healthy(s, cfg)
    requires Landed(s.files, s.tables, ops, k, before) && !PlanOf(before, s.tables, ops[k]).Fail?
    requires OneByOne(states, ops, times, cfg)
    requires Healthy(states[k], cfg) && AgreeOffSlots(before, states[k].files)
    ensures Matched(states[k], ops[k], before, s.tables, times[k], cfg)
    ensures Healthy(states[k + 1], cfg)
    ensures AgreeOffSlots(Applied(before, PlanOf(before, s.tables, ops[k])), states[k + 1].files)
  {
    assert Stepped(states, ops, times, cfg, k);
    CommitStays(s, ops, k, before, cfg);
    ExecKeepsPace(s.files, s.tables, ops, k, before, states[k], times[k], cfg);
  }

  /** The one-by-one state after `k` requests is healthy and its disk is this one, index pages aside. */
  ghost predicate Follows(states: seq<State>, k: nat, disk: Files, cfg: Config)
    requires k < |states|
  {
    Healthy(states[k], cfg) && AgreeOffSlots(disk, states[k].files)
  }

  /** Each request keeps the two side by side. */
  ghost predicate KeepsPace(s: State, ops: seq<Op>, states: seq<State>, cfg: Config)
    requires |states| == |ops| + 1 && AllValid(ops)
  {
    forall k, before | 0 <= k < |ops| && Landed(s.files, s.tables, ops, k, before) ::
      ops[k] in ops && (Follows(states, k, before, cfg) && !PlanOf(before, s.tables, ops[k]).Fail?
                        ==> Follows(states, k + 1, Applied(before, PlanOf(before, s.tables, ops[k])), cfg))
  }

  lemma PaceIsKept(s: State, ops: seq<Op>, times: seq<int>, states: seq<State>, cfg: Config)
    requires Requests(s.files, s.tables, ops) && OneByOne(states, ops, times, cfg) && Healthy(s, cfg)
    ensures KeepsPace(s, ops, states, cfg)
  {
    forall k, before | 0 <= k < |ops| && Landed(s.files, s.tables, ops, k, before)
      ensures ops[k] in ops && (Follows(states, k, before, cfg) && !PlanOf(before, s.tables, ops[k]).Fail?
                                ==> Follows(states, k + 1, Applied(before, PlanOf(before, s.tables, ops[k])), cfg))
    {
      assert ops[k] in ops;
      if Follows(states, k, before, cfg) && !PlanOf(before, s.tables, ops[k]).Fail? {
        SequenceStep(s, ops, k, before, states, times, cfg);
      }
    }
  }

  lemma {:induction false} SequenceFollows(
    s: State, ops: seq<Op>, states: seq<State>, k: nat, disk: Files, cfg: Config)
    requires k <= |ops| && AllValid(ops) && |states| == |ops| + 1 && KeepsPace(s, ops, states, cfg)
    requires Follows(states, 0, s.files, cfg) && Landed(s.files, s.tables, ops, k, disk)
    ensures Follows(states, k, disk, cfg)
    decreases k
  {
    if k > 0 {
      var before := LandedBefore(s.files, s.tables, ops, k, disk);
      SequenceFollows(s, ops, states, k - 1, before, cfg);
    }
  }

  lemma CorpusOverwrites(a: Files, b: Files)
    requires Corpus(b) && AgreeOffSlots(a, b)
    ensures SlotsOverwritten(a, b)
  {
    assert forall p | IsSlotPath(p) :: Parses(b, p);
  }

  lemma SettledAgree(a: Files, b: Files, cfg: Config)
    requires Corpus(a) && Corpus(b) && AgreeOffSlots(a, b)
    ensures Settled(a, cfg) == Settled(b, cfg)
  {
    CorpusOverwrites(a, b);
    OverwrittenKeepsEntries(a, b, Glossary);
    OverwrittenKeepsEntries(a, b, Domains);
    SameOffSlots(a, b, WantedContent(a, GLOSSARY, cfg), WantedContent(a, DOMAINS, cfg));
  }

  lemma SameOffSlots(a: Files, b: Files, glossary: Bytes, domains: Bytes)
    requires AgreeOffSlots(a, b)
    ensures a[GLOSSARY.path := glossary][DOMAINS.path := domains]
         == b[GLOSSARY.path := glossary][DOMAINS.path := domains]
  {
    var x := a[GLOSSARY.path := glossary][DOMAINS.path := domains];
    var y := b[GLOSSARY.path := glossary][DOMAINS.path := domains];
    forall p ensures (p in x <==> p in y) && (p in x ==> x[p] == y[p]) {
      if !IsSlotPath(p) { assert p in a <==> p in b; }
    }
  }

  lemma CommittedLands(s: State, ops: seq<Op>, now: int, cfg: Config) returns (disk: Files)
    requires Batch(s, ops, now, cfg).1.Committed?
    ensures Admitted(s, ops) && AllValid(ops)
    ensures Landed(s.files, s.tables, ops, |ops|, disk)
    ensures var out := Pass(disk, s.tables, now, cfg); Batch(s, ops, now, cfg).0 == State(out.files, out.tables)
  {
    assert Prefix(ops, |ops|) == ops;
    disk := CommitAll(s.files, s.tables, ops).files;
    CommitLength(s.files, s.tables, ops);
  }

  lemma {:induction false} CommitLength(files: Files, tables: Tables, ops: seq<Op>)
    requires AllValid(ops)
    ensures var c := CommitAll(files, tables, ops);
            |c.changed| <= |ops| && (c.failed.None? <==> |c.changed| == |ops|)
    decreases |ops|
  {
    if ops != [] {
      assert forall op | op in ops[..|ops| - 1] :: op in ops;
      CommitLength(files, tables, ops[..|ops| - 1]);
    }
  }

  lemma LandedFollows(
    s: State, ops: seq<Op>, k: nat, times: seq<int>, states: seq<State>, disk: Files, cfg: Config)
    requires k <= |ops| && Healthy(s, cfg) && Requests(s.files, s.tables, ops)
    requires OneByOne(states, ops, times, cfg) && states[0] == s
    requires Landed(s.files, s.tables, ops, k, disk)
    ensures Follows(states, k, disk, cfg)
  {
    PaceIsKept(s, ops, times, states, cfg);
    SequenceFollows(s, ops, states, k, disk, cfg);
  }

  lemma CommittedDisk(s: State, ops: seq<Op>, now: int, times: seq<int>, states: seq<State>, cfg: Config)
    returns (disk: Files)
    requires Healthy(s, cfg) && WritesAgree(s.files, s.tables, ops) && OwnTargets(s.files, ops) && ManglesDistinct(ops)
    requires OneByOne(states, ops, times, cfg) && states[0] == s
    requires Batch(s, ops, now, cfg).1.Committed?
    ensures Corpus(disk) && NothingMoved(s.files, disk)
    ensures Healthy(states[|ops|], cfg) && AgreeOffSlots(disk, states[|ops|].files)
    ensures var out := Pass(disk, s.tables, now, cfg); Batch(s, ops, now, cfg).0 == State(out.files, out.tables)
  {
    disk := CommittedLands(s, ops, now, cfg);
    AdmittedRequests(s, ops, cfg);
    CommitStays(s, ops, |ops|, disk, cfg);
    LandedFollows(s, ops, |ops|, times, states, disk, cfg);
  }

  /** A batch that commits leaves the disk, and the tables apart from timestamps and scan order, as its requests do
      when made one by one, each with its own pass. Pages the requests do not touch may lie anywhere. */
  lemma BatchIsSequence(s: State, ops: seq<Op>, now: int, times: seq<int>, states: seq<State>, cfg: Config)
    requires Healthy(s, cfg) && WritesAgree(s.files, s.tables, ops) && OwnTargets(s.files, ops) && ManglesDistinct(ops)
    requires OneByOne(states, ops, times, cfg) && states[0] == s
    requires Batch(s, ops, now, cfg).1.Committed?
    ensures var b, q := Batch(s, ops, now, cfg).0, states[|ops|];
            && Healthy(b, cfg) && Healthy(q, cfg)
            && b.files == q.files && SameTables(b.tables, q.tables)
  {
    var q := states[|ops|];
    var disk := CommittedDisk(s, ops, now, times, states, cfg);
    var out := Pass(disk, s.tables, now, cfg);
    PassRestores(s.files, s.tables, disk, now, cfg);
    HealthyIsCorpus(q, cfg);
    SettledAgree(disk, q.files, cfg);
    assert out.files == q.files;
    ProjectionIsUnique(out.files, out.tables, q.tables, cfg);
  }

  // ---- the answers ----

  lemma {:induction false} AnswerOf(files: Files, tables: Tables, ops: seq<Op>, n: nat, k: nat, disk: Files)
    returns (before: Files)
    requires k < n <= |ops| && AllValid(ops) && Landed(files, tables, ops, n, disk)
    ensures Landed(files, tables, ops, k, before)
    ensures ops[k] in ops && !PlanOf(before, tables, ops[k]).Fail?
    ensures CommitAll(files, tables, Prefix(ops, n)).changed[k] == PlanOf(before, tables, ops[k]).Write?
    decreases n
  {
    assert ops[..n][..n - 1] == ops[..n - 1];
    before := LandedBefore(files, tables, ops, n, disk);
    if k < n - 1 { before := AnswerOf(files, tables, ops, n - 1, k, before); }
  }

  lemma CommittedAnswers(s: State, ops: seq<Op>, now: int, cfg: Config)
    requires Batch(s, ops, now, cfg).1.Committed?
    ensures AllValid(ops) && Prefix(ops, |ops|) == ops
    ensures Batch(s, ops, now, cfg).1.changed == CommitAll(s.files, s.tables, ops).changed
    ensures |Batch(s, ops, now, cfg).1.changed| == |ops|
  {
    var _ := CommittedLands(s, ops, now, cfg);
    AdmittedPasses(s, ops);
    BatchEnds(s, ops, now, cfg);
    CommitLength(s.files, s.tables, ops);
    assert ops[..|ops|] == ops;
  }

  /** What a batch that commits answers for a request is what the request answers when made on its own in its turn,
      unless it edits an index page: there a second equal link is a duplicate in the batch, and one by one it is
      not, because the pass in between dropped the first. */
  lemma BatchAnswersAreSequence(
    s: State, ops: seq<Op>, now: int, times: seq<int>, states: seq<State>, cfg: Config, k: nat)
    requires Healthy(s, cfg) && WritesAgree(s.files, s.tables, ops) && OwnTargets(s.files, ops) && ManglesDistinct(ops)
    requires OneByOne(states, ops, times, cfg) && states[0] == s && k < |ops|
    requires Batch(s, ops, now, cfg).1.Committed?
    ensures |Batch(s, ops, now, cfg).1.changed| == |ops| && Exec(states[k], ops[k], times[k], cfg).1.Done?
    ensures !OnSlot(s.tables, ops[k]) ==>
              Exec(states[k], ops[k], times[k], cfg).1 == Done(Batch(s, ops, now, cfg).1.changed[k])
  {
    var disk := CommittedLands(s, ops, now, cfg);
    CommittedAnswers(s, ops, now, cfg);
    AdmittedRequests(s, ops, cfg);
    var before := AnswerOf(s.files, s.tables, ops, |ops|, k, disk);
    LandedFollows(s, ops, k, times, states, before, cfg);
    SequenceStep(s, ops, k, before, states, times, cfg);
  }

  lemma AddToIndexPage(s: State, slot: Slot, link: Link, now: int, cfg: Config)
    requires Healthy(s, cfg) && (slot == GLOSSARY || slot == DOMAINS) && link.target != ""
    ensures slot.id in s.tables.pages && s.tables.pages[slot.id].path == slot.path
    ensures Parses(s.files, slot.path) && PageAt(s.files, slot.path).linksOut == []
    ensures Exec(s, AddLink(slot.id, link), now, cfg).1 == Done(true)
  {
    HealthyHasSlots(s, cfg);
    HealthyIsLocated(s, cfg);
    SettledOverwrites(s.files, cfg);
    SlotsDiffer();
    PlanOfLocated(s.files, s.tables, AddLink(slot.id, link));
    ExecPlanned(s, AddLink(slot.id, link), now, cfg);
  }

  lemma CommitNext(files: Files, tables: Tables, ops: seq<Op>, op: Op, c: Commit)
    requires AllValid(ops) && AllValid(ops + [op]) && Validate(op).None?
    requires CommitAll(files, tables, ops) == c && c.failed.None?
    ensures var plan := PlanOf(c.files, tables, op);
            CommitAll(files, tables, ops + [op])
            == if plan.Fail? then c.(failed := Some(plan.error))
               else Commit(Applied(c.files, plan), c.changed + [plan.Write?], None)
  {
    assert (ops + [op])[..|ops|] == ops;
  }

  lemma CommitTwo(files: Files, tables: Tables, a: Op, b: Op, path: string, mid: Page)
    requires Validate(a).None? && Validate(b).None?
    requires PlanOf(files, tables, a) == Write(path, mid)
    requires PlanOf(files[path := Print(mid)], tables, b) == Nothing
    ensures AllValid([a, b])
    ensures CommitAll(files, tables, [a, b]) == Commit(files[path := Print(mid)], [true, false], None)
  {
    var none: seq<Op> := [];
    assert none + [a] == [a] && [a] + [b] == [a, b];
    CommitNext(files, tables, none, a, Commit(files, [], None));
    CommitNext(files, tables, [a], b, Commit(files[path := Print(mid)], [true], None));
  }

  lemma BatchOfTwo(s: State, a: Op, b: Op, path: string, mid: Page, now: int, cfg: Config)
    requires Admitted(s, [a, b]) && Validate(a).None? && Validate(b).None?
    requires PlanOf(s.files, s.tables, a) == Write(path, mid)
    requires PlanOf(s.files[path := Print(mid)], s.tables, b) == Nothing
    ensures Batch(s, [a, b], now, cfg).1 == Committed([true, false])
  {
    AdmittedPasses(s, [a, b]);
    CommitTwo(s.files, s.tables, a, b, path, mid);
    BatchEnds(s, [a, b], now, cfg);
  }

  /** Two equal edges for a page that has none like them: the first is a change, the second a duplicate. */
  lemma SamePlanTwice(files: Files, tables: Tables, id: string, path: string, link: Link)
    requires id in tables.pages && tables.pages[id].path == path && Parses(files, path)
    requires PageAt(files, path).linksOut == [] && id != "" && link.target != ""
    ensures var page := PageAt(files, path);
            var mid := page.(linksOut := [link]);
            && PlanOf(files, tables, AddLink(id, link)) == Write(path, mid)
            && PlanOf(files[path := Print(mid)], tables, AddLink(id, link)) == Nothing
  {
    var page := PageAt(files, path);
    var mid := page.(linksOut := [link]);
    PlanOfLocated(files, tables, AddLink(id, link));
    assert page.linksOut + [link] == [link];
    assert mid.linksOut[0] == link && HasLink(mid.linksOut, link.target, link.tag);
    PlanOfLocated(files[path := Print(mid)], tables, AddLink(id, link));
  }

  lemma BatchOfEqualLinks(s: State, id: string, path: string, link: Link, now: int, cfg: Config)
    requires id in s.tables.pages && s.tables.pages[id].path == path && Parses(s.files, path)
    requires PageAt(s.files, path).linksOut == [] && id != "" && link.target != ""
    ensures Batch(s, [AddLink(id, link), AddLink(id, link)], now, cfg).1 == Committed([true, false])
  {
    var op := AddLink(id, link);
    SamePlanTwice(s.files, s.tables, id, path, link);
    assert Admitted(s, [op, op]);
    BatchOfTwo(s, op, op, path, PageAt(s.files, path).(linksOut := [link]), now, cfg);
  }

  lemma AddToIndexPageAgain(s: State, slot: Slot, link: Link, now: int, later: int, cfg: Config)
    requires Healthy(s, cfg) && (slot == GLOSSARY || slot == DOMAINS) && link.target != ""
    ensures Exec(Exec(s, AddLink(slot.id, link), now, cfg).0, AddLink(slot.id, link), later, cfg).1 == Done(true)
  {
    ExecKeepsHealthy(s, AddLink(slot.id, link), now, cfg);
    AddToIndexPage(Exec(s, AddLink(slot.id, link), now, cfg).0, slot, link, later, cfg);
  }

  /** That happens: two equal links for an index page are answered with a change and a duplicate in a batch,
      and with two changes one by one. */
  lemma IndexPageAnswersDiffer(s: State, slot: Slot, link: Link, now: int, later: int, cfg: Config)
    requires Healthy(s, cfg) && (slot == GLOSSARY || slot == DOMAINS) && link.target != ""
    ensures Batch(s, [AddLink(slot.id, link), AddLink(slot.id, link)], now, cfg).1 == Committed([true, false])
    ensures Exec(s, AddLink(slot.id, link), now, cfg).1 == Done(true)
    ensures Exec(Exec(s, AddLink(slot.id, link), now, cfg).0, AddLink(slot.id, link), later, cfg).1 == Done(true)
  {
    AddToIndexPage(s, slot, link, now, cfg);
    BatchOfEqualLinks(s, slot.id, slot.path, link, now, cfg);
    AddToIndexPageAgain(s, slot, link, now, later, cfg);
  }
}
