/** The handlers on a site whose tables may be missing, as a rebuild that was cancelled after its drops leaves them. */
module Sites {
  import opened Model
  import opened IndexPages
  import opened Indexing
  import opened Runs
  import opened Stores
  import opened Address
  import opened Handlers
  import opened Keeping
  import opened Histories

  /** Every handler but the rebuild asks the `pages` table before it changes anything. */
  predicate NoPages(s: Site)
  {
    PagesTable in s.missing
  }

  /** Arguments are refused, and unique ids made and checked, before anything is asked. */
  function Upfront(op: Op): Option<Error>
  {
    if Validate(op).Some? then Validate(op)
    else if IsSlugCreate(op) && !ValidId(Effective(op).id) then Some(Malformed)
    else None
  }

  /** An empty list or an invalid request is refused upfront. */
  predicate Refusable(ops: seq<Op>)
  {
    ops == [] || FirstInvalid(ops) < |ops|
  }

  function RequestAt(s: Site, op: Op, now: int, cfg: Config): (Site, Reply)
  {
    if Upfront(op).None? && NoPages(s) then (s, NoIndex)
    else var (after, reply) := Exec(s.state, op, now, cfg); (s.(state := after), reply)
  }

  function BatchAt(s: Site, ops: seq<Op>, now: int, cfg: Config): (Site, BatchReply)
  {
    if !Refusable(ops) && NoPages(s) then (s, Unindexed)
    else var (after, reply) := Batch(s.state, ops, now, cfg); (s.(state := after), reply)
  }

  function RemoveAt(s: Site, id: string): (Site, Reply)
  {
    if id != "" && NoPages(s) then (s, NoIndex)
    else var (after, reply) := Remove(s.state, id); (s.(state := after), reply)
  }

  function ReindexPageAt(s: Site, id: string, now: int, cfg: Config): (Site, Reply)
  {
    if id != "" && NoPages(s) then (s, NoIndex)
    else var (after, reply) := ReindexPage(s.state, id, now, cfg); (s.(state := after), reply)
  }

  /** The rebuild, and what it leaves when it is asked to stop; some drops may fail. */
  function RebuildAt(s: Site, dropped: set<TableName>, stop: Stopping, now: int, cfg: Config): (Site, RebuildReply)
  {
    match stop
    case BeforeWipe => (s, StoppedFirst)
    case AfterWipe =>
      (Site(State(s.state.files, Wipe(s.state.tables, dropped)), s.missing + dropped), StoppedWiped(dropped))
    case Never =>
      var out := ReindexAll(s.state.files, s.state.tables, dropped, now, cfg);
      (Site(State(out.files, out.tables), {}), Rebuilt)
  }

  // ---- from a cancelled rebuild to the next ----

  lemma RefusedRequest(s: Site, op: Op, now: int, cfg: Config)
    requires Upfront(op).Some?
    ensures RequestAt(s, op, now, cfg) == (s, Refused(Upfront(op).value))
  {}

  lemma UnindexedRequest(s: Site, op: Op, now: int, cfg: Config)
    requires Upfront(op).None? && NoPages(s)
    ensures RequestAt(s, op, now, cfg) == (s, NoIndex)
  {}

  lemma IndexedRequest(s: Site, op: Op, now: int, cfg: Config, after: State, reply: Reply)
    requires !NoPages(s) && (after, reply) == Exec(s.state, op, now, cfg)
    ensures RequestAt(s, op, now, cfg) == (Site(after, s.missing), reply)
  {}

  lemma IndexedBatch(s: Site, ops: seq<Op>, now: int, cfg: Config, after: State, reply: BatchReply)
    requires Refusable(ops) || !NoPages(s)
    requires (after, reply) == Batch(s.state, ops, now, cfg)
    ensures BatchAt(s, ops, now, cfg) == (Site(after, s.missing), reply)
  {}

  lemma IndexedRefresh(s: Site, id: string, now: int, cfg: Config, after: State, reply: Reply)
    requires id == "" || !NoPages(s)
    requires (after, reply) == ReindexPage(s.state, id, now, cfg)
    ensures ReindexPageAt(s, id, now, cfg) == (Site(after, s.missing), reply)
  {}

  /** Without a `pages` table a request is refused upfront or raises, and changes nothing. */
  lemma NothingWithoutPages(s: Site, op: Op, ops: seq<Op>, id: string, now: int, cfg: Config)
    requires NoPages(s)
    ensures RequestAt(s, op, now, cfg)
         == (s, match Upfront(op) case Some(error) => Refused(error) case None => Reply.NoIndex)
    ensures BatchAt(s, ops, now, cfg).0 == s
    ensures BatchAt(s, ops, now, cfg).1.Unindexed? <==> !Refusable(ops)
    ensures RemoveAt(s, id) == (s, if id == "" then Refused(Malformed) else NoIndex)
    ensures ReindexPageAt(s, id, now, cfg) == (s, if id == "" then Refused(Malformed) else NoIndex)
  {
    if Refusable(ops) && ops != [] { RefusedBatch(s.state, ops, now, cfg); }
  }

  lemma RefusedBatch(s: State, ops: seq<Op>, now: int, cfg: Config)
    requires Refusable(ops)
    ensures Batch(s, ops, now, cfg).0 == s && Batch(s, ops, now, cfg).1.Rejected?
  {}

  /** A rebuild whose drops succeed ends with a healthy corpus, all tables there, and every page file as it was. */
  lemma RebuildHeals(s: Site, now: int, cfg: Config)
    requires Sound(s.state.files)
    ensures var (after, reply) := RebuildAt(s, ALL_TABLES, Never, now, cfg);
            && reply == Rebuilt && after.missing == {} && Healthy(after.state, cfg)
            && after.state.files == Settled(s.state.files, cfg)
  {
    RestartIsHealthy(s.state.files, s.state.tables, now, cfg);
  }

  lemma CancelKeepsFiles(s: Site, dropped: set<TableName>, stop: Stopping, now: int, cfg: Config)
    requires !stop.Never?
    ensures RebuildAt(s, dropped, stop, now, cfg).0.state.files == s.state.files
  {}

  /** So it does after a rebuild that was cancelled, whatever that had dropped and whichever drops had failed. */
  lemma RebuildAfterCancel(s: Site, dropped: set<TableName>, stop: Stopping, now: int, later: int, cfg: Config)
    requires Sound(s.state.files) && !stop.Never?
    ensures var (after, reply) := RebuildAt(RebuildAt(s, dropped, stop, now, cfg).0, ALL_TABLES, Never, later, cfg);
            && reply == Rebuilt && after.missing == {} && Healthy(after.state, cfg)
            && after.state.files == Settled(s.state.files, cfg)
  {
    CancelKeepsFiles(s, dropped, stop, now, cfg);
    RebuildHeals(RebuildAt(s, dropped, stop, now, cfg).0, later, cfg);
  }
}
