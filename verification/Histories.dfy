/** Whole histories of requests: what holds between any two of them. */
module Histories {
  import opened Model
  import opened TextOrder
  import opened IndexPages
  import opened Projection
  import opened Indexing
  import opened Refinement
  import opened Runs
  import opened Steady
  import opened Stores
  import opened Handlers
  import opened Keeping
  import opened Honesty
  import opened Commits
  import opened Batches
  import opened Pending

  // ---- reindex_page ----

  /** The first file, in listing order, whose page has this id. */
  function FindById(files: Files, paths: seq<string>, id: string): (r: Option<string>)
    ensures r.Some? ==> Parses(files, r.value) && PageAt(files, r.value).id == id
    ensures r.None? ==> forall p | p in paths && Parses(files, p) :: PageAt(files, p).id != id
  {
    if paths == [] then None
    else if Parses(files, paths[0]) && PageAt(files, paths[0]).id == id then Some(paths[0])
    else FindById(files, paths[1..], id)
  }

  /** The row gives the path; a page not yet indexed is looked for on the disk. */
  function ReindexPath(s: State, id: string): Option<string>
  {
    if id in s.tables.pages then Some(s.tables.pages[id].path)
    else FindById(s.files, Sorted(s.files.Keys), id)
  }

  /** A targeted run over one file: no hash is compared and nothing is swept. */
  function ReindexPage(s: State, id: string, now: int, cfg: Config): (State, Reply)
  {
    if id == "" then (s, Refused(Malformed))
    else
      match ReindexPath(s, id)
      case None => (s, Refused(NotFound))
      case Some(path) =>
        if path !in s.files then (s, Refused(FileNotFound))
        else
          var out := Run(s.files, [path], s.tables, true, now, cfg);
          (State(out.files, out.tables), Done(true))
  }

  /** Every file but this one is already projected (a slot counts only if the run will not rewrite it). */
  ghost predicate OthersFaithful(files: Files, t: Tables, path: string, cfg: Config)
  {
    forall p | p != path && Parses(files, p) && SlotSettled(files, p, cfg) :: Faithful(t, ParsedAt(files, p), cfg)
  }

  lemma TargetedCovers(files: Files, t: Tables, path: string, p: string, cfg: Config)
    requires Parses(files, path) && Parses(files, p)
    ensures Covered(files, [path], t, true, p, cfg) <==> p == path || Faithful(t, ParsedAt(files, p), cfg)
  {}

  lemma TargetedTrust(files: Files, t: Tables, path: string, cfg: Config)
    requires Parses(files, path)
    ensures Trusted(files, [path], t, true, cfg) <==> OthersFaithful(files, t, path, cfg) && NoStrangers(files, t)
  {
    forall p | Parses(files, p)
      ensures Covered(files, [path], t, true, p, cfg) <==> p == path || Faithful(t, ParsedAt(files, p), cfg)
    {
      TargetedCovers(files, t, path, p, cfg);
    }
  }

  /** Re-indexing one readable file makes the tables the projection of the disk exactly when every other
      file already was projected and no rows belong to an id the disk does not have. */
  lemma ReindexPageRepairs(files: Files, t: Tables, path: string, now: int, cfg: Config)
    requires Sound(files) && SlotRowsSane(t) && Parses(files, path)
    ensures var out := Run(files, [path], t, true, now, cfg);
            Projected(out.files, out.tables, cfg) <==> OthersFaithful(files, t, path, cfg) && NoStrangers(files, t)
  {
    TargetedTrust(files, t, path, cfg);
    RunRefinesProjection(files, [path], t, true, now, cfg);
  }

  lemma ProjectedIsTrustedTargeted(files: Files, t: Tables, path: string, cfg: Config)
    requires Projected(files, t, cfg) && Parses(files, path)
    ensures Trusted(files, [path], t, true, cfg)
  {
    TargetedTrust(files, t, path, cfg);
  }

  lemma TargetedRunRests(files: Files, t: Tables, path: string, now: int, cfg: Config)
    requires Healthy(State(files, t), cfg) && Parses(files, path)
    ensures var out := Run(files, [path], t, true, now, cfg); Healthy(State(out.files, out.tables), cfg)
  {
    ProjectedSlotRows(files, t, cfg);
    ProjectedIsTrustedTargeted(files, t, path, cfg);
    RunRefinesProjection(files, [path], t, true, now, cfg);
  }

  lemma FoundParses(s: State, cfg: Config, id: string)
    requires Healthy(s, cfg) && ReindexPath(s, id).Some?
    ensures Parses(s.files, ReindexPath(s, id).value)
  {
    HealthyIsLocated(s, cfg);
  }

  /** A targeted re-indexing refuses and changes nothing, or runs over the one file it found. */
  lemma ReindexPageCases(s: State, id: string, now: int, cfg: Config)
    ensures var after := ReindexPage(s, id, now, cfg).0;
            || after == s
            || (ReindexPath(s, id).Some? && ReindexPath(s, id).value in s.files
                && var out := Run(s.files, [ReindexPath(s, id).value], s.tables, true, now, cfg);
                   after == State(out.files, out.tables))
  {}

  lemma ReindexPageKeepsHealthy(s: State, id: string, now: int, cfg: Config)
    requires Healthy(s, cfg)
    ensures Healthy(ReindexPage(s, id, now, cfg).0, cfg)
  {
    ReindexPageCases(s, id, now, cfg);
    if ReindexPath(s, id).Some? {
      FoundParses(s, cfg, id);
      TargetedRunRests(s.files, s.tables, ReindexPath(s, id).value, now, cfg);
    }
  }

  // ---- batches ----

  lemma {:induction false} CommitLandsSomewhere(files: Files, tables: Tables, ops: seq<Op>, k: nat)
    returns (done: nat)
    requires k <= |ops| && AllValid(ops)
    ensures done <= k && Landed(files, tables, ops, done, CommitAll(files, tables, Prefix(ops, k)).files)
    decreases k
  {
    if k == 0 {
      done := 0;
    } else {
      assert ops[..k][..k - 1] == ops[..k - 1];
      done := CommitLandsSomewhere(files, tables, ops, k - 1);
      CommitOneMore(files, tables, ops, k - 1);
      if CommitAll(files, tables, Prefix(ops, k)).failed.None? { done := k; }
    }
  }

  lemma CommitOneMore(files: Files, tables: Tables, ops: seq<Op>, k: nat)
    requires k < |ops| && AllValid(ops)
    ensures var before, c := CommitAll(files, tables, Prefix(ops, k)), CommitAll(files, tables, Prefix(ops, k + 1));
            if c.failed.Some? then c.files == before.files else Landed(files, tables, ops, k + 1, c.files)
  {
    assert ops[..k + 1][..k] == ops[..k];
    CommitLength(files, tables, Prefix(ops, k + 1));
  }

  /** What a batch leaves: the state it found, or the disk of some of its requests with the old tables,
      or that disk and a pass over it. */
  lemma BatchCases(s: State, ops: seq<Op>, now: int, cfg: Config) returns (done: nat)
    ensures var (after, reply) := Batch(s, ops, now, cfg);
            && (reply.Rejected? ==> after == s)
            && (!reply.Rejected? ==> AllValid(ops) && Admitted(s, ops) && done <= |ops|)
            && (reply.Aborted? ==> after.tables == s.tables && Landed(s.files, s.tables, ops, done, after.files))
  {
    done := 0;
    if Batch(s, ops, now, cfg).1.Aborted? {
      assert forall op | op in ops :: Batchable(op) && Validate(op).None?;
      done := CommitLandsSomewhere(s.files, s.tables, ops, |ops|);
      assert Prefix(ops, |ops|) == ops;
    }
  }

  // ---- any corpus that a pass would repair ----

  lemma CommittedRecovers(s: State, ops: seq<Op>, now: int, cfg: Config)
    requires Recoverable(s, cfg) && WritesAgree(s.files, s.tables, ops) && RowsFit(s.tables, ops)
    requires Batch(s, ops, now, cfg).1.Committed?
    ensures Recoverable(Batch(s, ops, now, cfg).0, cfg) && Healthy(Batch(s, ops, now, cfg).0, cfg)
  {
    var disk := CommittedLands(s, ops, now, cfg);
    LandedIsPending(s, ops, |ops|, disk, cfg);
    PassRecovers(State(disk, s.tables), now, cfg);
    HealthyIsRecoverable(Batch(s, ops, now, cfg).0, cfg);
  }

  /** A batch leaves a recoverable corpus recoverable however it ends, and healthy if it commits. */
  lemma BatchRecovers(s: State, ops: seq<Op>, now: int, cfg: Config)
    requires Recoverable(s, cfg) && WritesAgree(s.files, s.tables, ops) && RowsFit(s.tables, ops)
    ensures var (after, reply) := Batch(s, ops, now, cfg);
            Recoverable(after, cfg) && (reply.Committed? ==> Healthy(after, cfg))
  {
    if Batch(s, ops, now, cfg).1.Committed? {
      CommittedRecovers(s, ops, now, cfg);
    } else {
      var done := BatchCases(s, ops, now, cfg);
      if Batch(s, ops, now, cfg).1.Aborted? {
        LandedIsPending(s, ops, done, Batch(s, ops, now, cfg).0.files, cfg);
      }
    }
  }

  /** A batch that stops half way has written some of its pages and indexed none: the next pass repairs that. */
  lemma AbortedBatchIsRepaired(s: State, ops: seq<Op>, now: int, later: int, cfg: Config)
    requires Healthy(s, cfg) && WritesAgree(s.files, s.tables, ops)
    requires Batch(s, ops, now, cfg).1.Aborted?
    ensures var after := Batch(s, ops, now, cfg).0;
            var out := Pass(after.files, after.tables, later, cfg);
            after.tables == s.tables && Healthy(State(out.files, out.tables), cfg)
  {
    var _ := BatchCases(s, ops, now, cfg);
    HealthyIsRecoverable(s, cfg);
    HealthyRowsFit(s, ops, cfg);
    BatchRecovers(s, ops, now, cfg);
    PassRecovers(Batch(s, ops, now, cfg).0, later, cfg);
  }

  lemma BatchKeepsHealthy(s: State, ops: seq<Op>, now: int, cfg: Config)
    requires Healthy(s, cfg) && WritesAgree(s.files, s.tables, ops)
    requires !Batch(s, ops, now, cfg).1.Aborted?
    ensures Healthy(Batch(s, ops, now, cfg).0, cfg)
  {
    if Batch(s, ops, now, cfg).1.Rejected? {
      var _ := BatchCases(s, ops, now, cfg);
    } else {
      HealthyIsRecoverable(s, cfg);
      HealthyRowsFit(s, ops, cfg);
      BatchRecovers(s, ops, now, cfg);
    }
  }

  lemma RefreshRecovers(s: State, id: string, now: int, cfg: Config)
    requires Recoverable(s, cfg)
    ensures Recoverable(ReindexPage(s, id, now, cfg).0, cfg)
  {
    ReindexPageCases(s, id, now, cfg);
    if ReindexPath(s, id).Some? && ReindexPath(s, id).value in s.files {
      TargetedRecovers(s, ReindexPath(s, id).value, now, cfg);
    }
  }

  // ---- histories ----

  /** What can happen to a corpus. */
  datatype Event =
    | Request(op: Op)
    | Several(ops: seq<Op>)
    | Deletion(id: string)
    | Refresh(id: string)
    | Restart
    | Wiped                   // all tables were dropped, and created again empty
    | Edited(disk: Files)     // the disk was changed by hand, and then a pass ran
    | Touched(disk: Files)    // the disk was changed by hand, and no pass has run
    | Interrupted(op: Op)     // the process stopped between a request's file and its pass

  function After(s: State, e: Event, now: int, cfg: Config): State
  {
    match e
    case Request(op) => Exec(s, op, now, cfg).0
    case Several(ops) => Batch(s, ops, now, cfg).0
    case Deletion(id) => Remove(s, id).0
    case Refresh(id) => ReindexPage(s, id, now, cfg).0
    case Restart =>
      var out := ReindexAll(s.files, s.tables, ALL_TABLES, now, cfg); State(out.files, out.tables)
    case Wiped => State(s.files, NO_TABLES)
    case Edited(disk) =>
      var out := Pass(disk, s.tables, now, cfg); State(out.files, out.tables)
    case Touched(disk) => State(disk, s.tables)
    case Interrupted(op) => Stopped(s, op)
  }

  /** What callers and editors must respect: a write goes where its page lies, claims go to pages that can hold
      them, no other page has edges to a page that is removed, and an edit by hand keeps the disk sound and moves no
      indexed page (if a pass follows at once: moves none with its bytes unchanged). */
  ghost predicate Fair(s: State, e: Event, cfg: Config)
  {
    match e
    case Request(op) => Fits(s.files, s.tables, op)
    case Several(ops) => WritesAgree(s.files, s.tables, ops)
    case Deletion(id) => NoEdgesInto(s.tables, id)
    case Refresh(_) => true
    case Restart => true
    case Wiped => true
    case Edited(disk) => Sound(disk) && HashesInPlace(disk, s.tables, cfg)
    case Touched(disk) => Sound(disk) && Unmoved(disk, s.tables)
    case Interrupted(op) => Fits(s.files, s.tables, op)
  }

  /** The rows agree with the disk about where a write goes; in a healthy corpus they always do. */
  predicate RowsAgree(s: State, e: Event)
  {
    match e
    case Request(op) => RowFits(s.tables, op)
    case Several(ops) => RowsFit(s.tables, ops)
    case Interrupted(op) => RowFits(s.tables, op)
    case _ => true
  }

  /** Nothing was left to a later pass. */
  predicate Finishes(s: State, e: Event, now: int, cfg: Config)
  {
    match e
    case Several(ops) => !Batch(s, ops, now, cfg).1.Aborted?
    case Deletion(_) => false
    case Wiped => false
    case Touched(_) => false
    case Interrupted(_) => false
    case _ => true
  }

  lemma RestartIsHealthy(files: Files, t: Tables, now: int, cfg: Config)
    requires Sound(files)
    ensures var out := ReindexAll(files, t, ALL_TABLES, now, cfg);
            out.files == Settled(files, cfg) && Healthy(State(out.files, out.tables), cfg)
  {
    ReindexAllRecovers(files, t, now, cfg);
    SettledIsSound(files, cfg);
    SettledTwice(files, cfg);
  }

  lemma EditKeepsHealthy(s: State, disk: Files, now: int, cfg: Config)
    requires Healthy(s, cfg) && Sound(disk) && HashesInPlace(disk, s.tables, cfg)
    ensures var out := Pass(disk, s.tables, now, cfg); Healthy(State(out.files, out.tables), cfg)
  {
    HealthyIsRecoverable(s, cfg);
    EditIsIndexed(s, disk, now, cfg);
  }

  lemma EventKeepsHealthy(s: State, e: Event, now: int, cfg: Config)
    requires Healthy(s, cfg) && Fair(s, e, cfg) && Finishes(s, e, now, cfg)
    ensures Healthy(After(s, e, now, cfg), cfg)
  {
    match e
    case Request(op) => ExecKeepsHealthy(s, op, now, cfg);
    case Several(ops) => BatchKeepsHealthy(s, ops, now, cfg);
    case Refresh(id) => ReindexPageKeepsHealthy(s, id, now, cfg);
    case Restart => RestartIsHealthy(s.files, s.tables, now, cfg);
    case Edited(disk) => EditKeepsHealthy(s, disk, now, cfg);
    case _ =>
  }

  lemma RestartRecovers(s: State, now: int, cfg: Config)
    requires Recoverable(s, cfg)
    ensures var out := ReindexAll(s.files, s.tables, ALL_TABLES, now, cfg);
            Recoverable(State(out.files, out.tables), cfg)
  {
    RestartIsHealthy(s.files, s.tables, now, cfg);
    var out := ReindexAll(s.files, s.tables, ALL_TABLES, now, cfg);
    HealthyIsRecoverable(State(out.files, out.tables), cfg);
  }

  lemma EditRecovers(s: State, disk: Files, now: int, cfg: Config)
    requires Recoverable(s, cfg) && Sound(disk) && HashesInPlace(disk, s.tables, cfg)
    ensures var out := Pass(disk, s.tables, now, cfg); Recoverable(State(out.files, out.tables), cfg)
  {
    EditIsIndexed(s, disk, now, cfg);
    var out := Pass(disk, s.tables, now, cfg);
    HealthyIsRecoverable(State(out.files, out.tables), cfg);
  }

  lemma EmptyIsRecoverable(files: Files, cfg: Config)
    requires Sound(files)
    ensures Recoverable(State(files, NO_TABLES), cfg)
  {
    forall id ensures HonestAt(NO_TABLES, id, cfg) {}
  }

  lemma EventKeepsRecoverable(s: State, e: Event, now: int, cfg: Config)
    requires Recoverable(s, cfg) && Fair(s, e, cfg) && RowsAgree(s, e)
    ensures Recoverable(After(s, e, now, cfg), cfg)
  {
    match e
    case Request(op) => RequestRecovers(s, op, now, cfg);
    case Several(ops) => BatchRecovers(s, ops, now, cfg);
    case Deletion(id) => RemovalRecovers(s, id, cfg);
    case Refresh(id) => RefreshRecovers(s, id, now, cfg);
    case Restart => RestartRecovers(s, now, cfg);
    case Wiped => EmptyIsRecoverable(s.files, cfg);
    case Edited(disk) => EditRecovers(s, disk, now, cfg);
    case Touched(disk) =>
    case Interrupted(op) => StoppedIsRecoverable(s, op, cfg);
  }

  /** One state for each event, and the one it started from. */
  ghost predicate History(states: seq<State>, events: seq<Event>, times: seq<int>, cfg: Config)
  {
    && |states| == |events| + 1 == |times| + 1
    && forall i | 0 <= i < |events| :: Happens(states, events, times, cfg, i)
  }

  ghost predicate Happens(states: seq<State>, events: seq<Event>, times: seq<int>, cfg: Config, i: nat)
    requires i < |events| && |states| == |events| + 1 == |times| + 1
  {
    Fair(states[i], events[i], cfg) && states[i + 1] == After(states[i], events[i], times[i], cfg)
  }

  ghost predicate AllFinish(states: seq<State>, events: seq<Event>, times: seq<int>, cfg: Config)
    requires |states| == |events| + 1 == |times| + 1
  {
    forall i | 0 <= i < |events| :: Finishes(states[i], events[i], times[i], cfg)
  }

  predicate AllRowsAgree(states: seq<State>, events: seq<Event>)
    requires |states| == |events| + 1
  {
    forall i | 0 <= i < |events| :: RowsAgree(states[i], events[i])
  }

  /** What every event keeps holds throughout, if it held at the start. */
  ghost predicate Kept(holds: State -> bool, states: seq<State>)
  {
    forall i | 0 < i < |states| :: holds(states[i - 1]) ==> holds(states[i])
  }

  lemma {:induction false} KeptThroughout(holds: State -> bool, states: seq<State>, k: nat)
    requires k < |states| && holds(states[0]) && Kept(holds, states)
    ensures holds(states[k])
    decreases k
  {
    if k > 0 { KeptThroughout(holds, states, k - 1); }
  }

  /** From a healthy corpus, after any number of requests, batches, re-indexings, rebuilds and hand edits that
      were all finished, the tables are the projection of the disk and the next pass would change neither. */
  lemma HistoryStaysHealthy(states: seq<State>, events: seq<Event>, times: seq<int>, cfg: Config, k: nat)
    requires History(states, events, times, cfg) && AllFinish(states, events, times, cfg)
    requires k < |states| && Healthy(states[0], cfg)
    ensures Healthy(states[k], cfg)
  {
    forall i | 0 < i < |states| && Healthy(states[i - 1], cfg) ensures Healthy(states[i], cfg) {
      assert Happens(states, events, times, cfg, i - 1);
      EventKeepsHealthy(states[i - 1], events[i - 1], times[i - 1], cfg);
    }
    KeptThroughout(s => Healthy(s, cfg), states, k);
  }

  /** From a healthy corpus, after any number of events at all, among them removals, batches cut short, crashes
      between a file and its pass and edits no pass has seen, one pass makes the corpus healthy:
      it settles the disk and ends with its projection. */
  lemma HistoryRecovers(
    states: seq<State>, events: seq<Event>, times: seq<int>, now: int, cfg: Config, k: nat)
    requires History(states, events, times, cfg) && AllRowsAgree(states, events)
    requires k < |states| && Healthy(states[0], cfg)
    ensures var out := Pass(states[k].files, states[k].tables, now, cfg);
            out.files == Settled(states[k].files, cfg) && Healthy(State(out.files, out.tables), cfg)
  {
    HealthyIsRecoverable(states[0], cfg);
    forall i | 0 < i < |states| && Recoverable(states[i - 1], cfg) ensures Recoverable(states[i], cfg) {
      assert Happens(states, events, times, cfg, i - 1);
      EventKeepsRecoverable(states[i - 1], events[i - 1], times[i - 1], cfg);
    }
    KeptThroughout(s => Recoverable(s, cfg), states, k);
    PassRecovers(states[k], now, cfg);
  }

  /** In particular no page row ever points at a file that is not there. */
  lemma HealthyHasNoPhantom(s: State, cfg: Config)
    requires Healthy(s, cfg)
    ensures NoPhantom(s)
  {
    HealthyIsLocated(s, cfg);
  }
}
