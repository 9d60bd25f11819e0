/** The write handlers as threads: concurrent requests amount to some sequence of requests. */
module Serial {
  import opened Model
  import opened TextOrder
  import opened IndexPages
  import opened Indexing
  import opened Stores
  import opened Handlers
  import opened Keeping
  import opened Commits
  import opened Batches
  import opened BulkEdits
  import H = Histories
  import opened Mutexes
  import opened Sites

  // ---- handlers as writers ----

  /** One call of a write handler, at the time its pass takes place. */
  datatype Call =
    | Single(op: Op, now: int)
    | Several(ops: seq<Op>, now: int)
    | RemovePage(id: string)
    | ReindexPage(id: string, now: int)
    | ReindexAll(dropped: set<TableName>, stop: Stopping, now: int)

  /** What the call does to a site it has to itself. */
  function Effect(call: Call, s: Site, cfg: Config): (Site, Answer)
  {
    match call
    case Single(op, now) => var (after, reply) := RequestAt(s, op, now, cfg); (after, One(reply))
    case Several(ops, now) => var (after, reply) := BatchAt(s, ops, now, cfg); (after, Many(reply))
    case RemovePage(id) => var (after, reply) := RemoveAt(s, id); (after, One(reply))
    case ReindexPage(id, now) => var (after, reply) := ReindexPageAt(s, id, now, cfg); (after, One(reply))
    case ReindexAll(dropped, stop, now) =>
      var (after, reply) := RebuildAt(s, dropped, stop, now, cfg); (after, Whole(reply))
  }

  function PassOver(s: Site, now: int, cfg: Config): Site
  {
    var out := Pass(s.state.files, s.state.tables, now, cfg); s.(state := State(out.files, out.tables))
  }

  function FullRun(s: Site, now: int, cfg: Config): Site
  {
    var out := Run(s.state.files, Sorted(s.state.files.Keys), s.state.tables, true, now, cfg);
    s.(state := State(out.files, out.tables))
  }

  function IntendOne(op: Op, files: Files, tables: Tables, missing: set<TableName>): Intent
  {
    if Validate(op).Some? then Stop(One(Refused(Validate(op).value)))
    else if PagesTable in missing then Stop(One(NoIndex))
    else
      match PlanOf(files, tables, op)
      case Fail(error) => Stop(One(Refused(error)))
      case Nothing => Stop(One(Done(false)))
      case Write(path, page) =>
        Change(Site(State(files[path := Print(page)], tables), missing), One(Done(true)), true)
  }

  function IntendMany(ops: seq<Op>, files: Files, tables: Tables, missing: set<TableName>): Intent
  {
    var s := State(files, tables);
    var invalid := FirstInvalid(ops);
    if ops == [] then Stop(Many(Rejected(0, Malformed)))
    else if invalid < |ops| then
      Stop(Many(Rejected(invalid, if Batchable(ops[invalid]) then Validate(ops[invalid]).value else UnknownKind)))
    else if PagesTable in missing then Stop(Many(Unindexed))
    else
      assert forall op | op in ops :: Batchable(op) && Validate(op).None?;
      var unmet := FirstUnmet(s, ops);
      if unmet < |ops| then Stop(Many(Rejected(unmet, Check(s, ops[unmet]).value)))
      else
        var c := CommitAll(files, tables, ops);
        var after := Site(State(c.files, tables), missing);
        if c.failed.Some? then Change(after, Many(Aborted(|c.changed|, c.failed.value)), false)
        else Change(after, Many(Committed(c.changed)), true)
  }

  function IntendRemoval(id: string, files: Files, tables: Tables, missing: set<TableName>): Intent
  {
    if id == "" then Stop(One(Refused(Malformed)))
    else if PagesTable in missing then Stop(One(NoIndex))
    else
      var (after, reply) := Remove(State(files, tables), id);
      if reply.Done? then Change(Site(after, missing), One(reply), false) else Stop(One(reply))
  }

  function IntendReindex(id: string, files: Files, tables: Tables, missing: set<TableName>): Intent
  {
    if id == "" then Stop(One(Refused(Malformed)))
    else if PagesTable in missing then Stop(One(NoIndex))
    else
      match H.ReindexPath(State(files, tables), id)
      case None => Stop(One(Refused(NotFound)))
      case Some(path) =>
        if path !in files then Stop(One(Refused(FileNotFound)))
        else Change(Site(State(files, tables), missing), One(Done(true)), true)
  }

  function IntendRebuild(
    dropped: set<TableName>, stop: Stopping, files: Files, tables: Tables, missing: set<TableName>): Intent
  {
    var wiped := State(files, Wipe(tables, dropped));
    match stop
    case BeforeWipe => Stop(Whole(StoppedFirst))
    case AfterWipe => Change(Site(wiped, missing + dropped), Whole(StoppedWiped(dropped)), false)
    case Never => Change(Site(wiped, {}), Whole(Rebuilt), true)
  }

  /** An up-front refusal of a batch. */
  function RefusalOf(ops: seq<Op>): Answer
    requires Refusable(ops)
  {
    IntendMany(ops, map[], NO_TABLES, {}).answer
  }

  function WriterOf(call: Call, cfg: Config): Writer
  {
    match call
    case Single(op, now) =>
      Writer(if Upfront(op).Some? then Some(One(Refused(Upfront(op).value))) else None,
             (files, tables, missing) => IntendOne(op, files, tables, missing), s => PassOver(s, now, cfg))
    case Several(ops, now) =>
      Writer(if Refusable(ops) then Some(RefusalOf(ops)) else None,
             (files, tables, missing) => IntendMany(ops, files, tables, missing), s => PassOver(s, now, cfg))
    case RemovePage(id) =>
      Writer(if id == "" then Some(One(Refused(Malformed))) else None,
             (files, tables, missing) => IntendRemoval(id, files, tables, missing), s => s)
    case ReindexPage(id, now) =>
      Writer(if id == "" then Some(One(Refused(Malformed))) else None,
             (files, tables, missing) => IntendReindex(id, files, tables, missing),
             s => ReindexPageAt(s, id, now, cfg).0)
    case ReindexAll(dropped, stop, now) =>
      Writer(None, (files, tables, missing) => IntendRebuild(dropped, stop, files, tables, missing),
             s => FullRun(s, now, cfg))
  }

  /** What a writer that runs alone does, from what it intends. */
  lemma AloneIs(w: Writer, s: Site, intent: Intent)
    requires w.refusal.None? && w.intend(s.state.files, s.state.tables, s.missing) == intent
    ensures Alone(w, s)
         == match intent
            case Stop(answer) => (s, answer)
            case Change(stores, answer, indexed) => (if indexed then w.pass(stores) else stores, answer)
  {}

  /** What a single request intends is what it plans. */
  lemma IntentOfPlan(op: Op, s: Site)
    requires Validate(op).None? && !NoPages(s)
    ensures IntendOne(op, s.state.files, s.state.tables, s.missing)
         == match PlanOf(s.state.files, s.state.tables, op)
            case Fail(error) => Stop(One(Refused(error)))
            case Nothing => Stop(One(Done(false)))
            case Write(path, page) =>
              Change(Site(State(s.state.files[path := Print(page)], s.state.tables), s.missing), One(Done(true)), true)
  {}

  lemma RefusedUpfront(op: Op, s: State, now: int, cfg: Config)
    requires Upfront(op).Some?
    ensures Exec(s, op, now, cfg) == (s, Refused(Upfront(op).value))
  {}

  lemma SingleAlone(op: Op, now: int, s: Site, cfg: Config)
    ensures Alone(WriterOf(Single(op, now), cfg), s) == Effect(Single(op, now), s, cfg)
  {
    if Upfront(op).Some? {
      RefusedUpfront(op, s.state, now, cfg);
    } else {
      AloneIs(WriterOf(Single(op, now), cfg), s, IntendOne(op, s.state.files, s.state.tables, s.missing));
      if !NoPages(s) {
        IntentOfPlan(op, s);
        ExecPlanned(s.state, op, now, cfg);
      }
    }
  }

  lemma RefusedAlone(ops: seq<Op>, now: int, s: Site, cfg: Config)
    requires Refusable(ops)
    ensures BatchAt(s, ops, now, cfg).0 == s && Many(BatchAt(s, ops, now, cfg).1) == RefusalOf(ops)
  {}

  lemma ManyIntent(ops: seq<Op>, now: int, s: Site, cfg: Config)
    requires !Refusable(ops) && !NoPages(s)
    ensures var (after, reply) := Batch(s.state, ops, now, cfg);
            match IntendMany(ops, s.state.files, s.state.tables, s.missing)
            case Stop(answer) => after == s.state && answer == Many(reply)
            case Change(stores, answer, indexed) =>
              answer == Many(reply) && s.(state := after) == if indexed then PassOver(stores, now, cfg) else stores
  {
    assert AllBatchable(ops) && AllValid(ops);
    BatchEnds(s.state, ops, now, cfg);
  }

  lemma SeveralAlone(ops: seq<Op>, now: int, s: Site, cfg: Config)
    ensures Alone(WriterOf(Several(ops, now), cfg), s) == Effect(Several(ops, now), s, cfg)
  {
    if Refusable(ops) {
      RefusedAlone(ops, now, s, cfg);
    } else {
      AloneIs(WriterOf(Several(ops, now), cfg), s, IntendMany(ops, s.state.files, s.state.tables, s.missing));
      if !NoPages(s) { ManyIntent(ops, now, s, cfg); }
    }
  }

  lemma RemoveAlone(id: string, s: Site, cfg: Config)
    ensures Alone(WriterOf(RemovePage(id), cfg), s) == Effect(RemovePage(id), s, cfg)
  {
    if id != "" {
      AloneIs(WriterOf(RemovePage(id), cfg), s, IntendRemoval(id, s.state.files, s.state.tables, s.missing));
    }
  }

  lemma ReindexIntent(id: string, s: Site, now: int, cfg: Config)
    requires id != ""
    ensures var (after, reply) := ReindexPageAt(s, id, now, cfg);
            && (reply != Done(true) ==> after == s)
            && IntendReindex(id, s.state.files, s.state.tables, s.missing)
               == if reply == Done(true) then Change(s, One(reply), true) else Stop(One(reply))
  {}

  lemma ReindexAlone(id: string, now: int, s: Site, cfg: Config)
    ensures Alone(WriterOf(ReindexPage(id, now), cfg), s) == Effect(ReindexPage(id, now), s, cfg)
  {
    if id != "" {
      ReindexIntent(id, s, now, cfg);
      AloneIs(WriterOf(ReindexPage(id, now), cfg), s, IntendReindex(id, s.state.files, s.state.tables, s.missing));
    }
  }

  lemma RebuildAlone(dropped: set<TableName>, stop: Stopping, now: int, s: Site, cfg: Config)
    ensures Alone(WriterOf(ReindexAll(dropped, stop, now), cfg), s) == Effect(ReindexAll(dropped, stop, now), s, cfg)
  {
    AloneIs(WriterOf(ReindexAll(dropped, stop, now), cfg), s,
            IntendRebuild(dropped, stop, s.state.files, s.state.tables, s.missing));
  }

  /** A handler that runs undisturbed does what its specification says. */
  lemma AloneIsEffect(call: Call, s: Site, cfg: Config)
    ensures Alone(WriterOf(call, cfg), s) == Effect(call, s, cfg)
    ensures var (after, answer) := Alone(WriterOf(call, cfg), s);
            match call
            case Single(op, now) => answer.One? && (after, answer.reply) == RequestAt(s, op, now, cfg)
            case Several(ops, now) => answer.Many? && (after, answer.batch) == BatchAt(s, ops, now, cfg)
            case RemovePage(id) => answer.One? && (after, answer.reply) == RemoveAt(s, id)
            case ReindexPage(id, now) => answer.One? && (after, answer.reply) == ReindexPageAt(s, id, now, cfg)
            case ReindexAll(dropped, stop, now) =>
              answer.Whole? && (after, answer.rebuild) == RebuildAt(s, dropped, stop, now, cfg)
  {
    match call
    case Single(op, now) => SingleAlone(op, now, s, cfg);
    case Several(ops, now) => SeveralAlone(ops, now, s, cfg);
    case RemovePage(id) => RemoveAlone(id, s, cfg);
    case ReindexPage(id, now) => ReindexAlone(id, now, s, cfg);
    case ReindexAll(dropped, stop, now) => RebuildAlone(dropped, stop, now, s, cfg);
  }

  // ---- concurrent calls are some sequence of calls ----

  function Writers(calls: seq<Call>, cfg: Config): seq<Writer>
  {
    seq(|calls|, i requires 0 <= i < |calls| => WriterOf(calls[i], cfg))
  }

  /** The calls in an order given by position. */
  function Ordered(calls: seq<Call>, order: seq<nat>): seq<Call>
    requires Names(order, |calls|)
  {
    seq(|order|, k requires 0 <= k < |order| => calls[order[k]])
  }

  /** The stores after the calls, one after the other. */
  function Effects(calls: seq<Call>, s: Site, cfg: Config): Site
  {
    if calls == [] then s
    else Effect(calls[|calls| - 1], Effects(calls[..|calls| - 1], s, cfg), cfg).0
  }

  lemma EffectsNext(calls: seq<Call>, call: Call, s: Site, cfg: Config)
    ensures Effects(calls + [call], s, cfg) == Effect(call, Effects(calls, s, cfg), cfg).0
  {
    assert (calls + [call])[..|calls|] == calls;
  }

  lemma OrderedNext(calls: seq<Call>, order: seq<nat>)
    requires Names(order, |calls|) && order != []
    ensures Names(order[..|order| - 1], |calls|)
    ensures Ordered(calls, order) == Ordered(calls, order[..|order| - 1]) + [calls[order[|order| - 1]]]
  {}

  lemma InOrderNext(ws: seq<Writer>, s: Site, order: seq<nat>)
    requires Names(order, |ws|) && order != []
    ensures Names(order[..|order| - 1], |ws|)
    ensures InOrder(ws, s, order) == Alone(ws[order[|order| - 1]], InOrder(ws, s, order[..|order| - 1])).0
  {}

  lemma {:induction false} InOrderIsEffects(calls: seq<Call>, s: Site, order: seq<nat>, cfg: Config)
    requires Names(order, |calls|)
    ensures InOrder(Writers(calls, cfg), s, order) == Effects(Ordered(calls, order), s, cfg)
    decreases |order|
  {
    if order != [] {
      var init, last := order[..|order| - 1], order[|order| - 1];
      OrderedNext(calls, order);
      InOrderIsEffects(calls, s, init, cfg);
      InOrderNext(Writers(calls, cfg), s, order);
      EffectsNext(Ordered(calls, init), calls[last], s, cfg);
      AloneIsEffect(calls[last], Effects(Ordered(calls, init), s, cfg), cfg);
    }
  }

  lemma AnswersAreEffects(calls: seq<Call>, s: Site, order: seq<nat>, k: nat, cfg: Config)
    requires Names(order, |calls|) && k < |order|
    ensures AnswerInOrder(Writers(calls, cfg), s, order, k)
         == Effect(calls[order[k]], Effects(Ordered(calls, order)[..k], s, cfg), cfg).1
  {
    InOrderIsEffects(calls, s, order[..k], cfg);
    assert Ordered(calls, order[..k]) == Ordered(calls, order)[..k];
    AloneIsEffect(calls[order[k]], Effects(Ordered(calls, order)[..k], s, cfg), cfg);
  }

  /** Whatever the interleaving, when all handlers have returned, the disk, the index and every reply are
      those of the same calls made one at a time, in the order the handlers finished. */
  lemma HandlersSerialise(calls: seq<Call>, run: seq<Machine>, s: Site, cfg: Config) returns (order: seq<nat>)
    requires Interleaved(Writers(calls, cfg), run, s) && AllFinished(run[|run| - 1])
    ensures Permutation(order, |calls|)
    ensures run[|run| - 1].shared == Effects(Ordered(calls, order), s, cfg)
    ensures |run[|run| - 1].pcs| == |calls|
    ensures forall k | 0 <= k < |order| ::
              run[|run| - 1].pcs[order[k]]
              == Finished(Effect(calls[order[k]], Effects(Ordered(calls, order)[..k], s, cfg), cfg).1)
  {
    order := Serialisable(Writers(calls, cfg), run, s);
    InOrderIsEffects(calls, s, order, cfg);
    forall k | 0 <= k < |order|
      ensures AnswerInOrder(Writers(calls, cfg), s, order, k)
           == Effect(calls[order[k]], Effects(Ordered(calls, order)[..k], s, cfg), cfg).1
    {
      AnswersAreEffects(calls, s, order, k, cfg);
    }
  }

  // ---- concurrent claims ----

  function ClaimCalls(id: string, claims: seq<Claim>, times: seq<int>): seq<Call>
    requires |claims| == |times|
  {
    seq(|claims|, i requires 0 <= i < |claims| => Single(AddClaim(id, claims[i]), times[i]))
  }

  function Picked<T>(xs: seq<T>, order: seq<nat>): seq<T>
    requires Names(order, |xs|)
  {
    seq(|order|, k requires 0 <= k < |order| => xs[order[k]])
  }

  ghost predicate DistinctFresh(claims: seq<Claim>, on: seq<Claim>)
  {
    && (forall i, j | 0 <= i < j < |claims| :: claims[i].id != claims[j].id)
    && (forall i | 0 <= i < |claims| :: !HasClaim(on, claims[i].id))
  }

  lemma {:induction false} FreshAllAppended(on: seq<Claim>, claims: seq<Claim>)
    requires DistinctFresh(claims, on)
    ensures WithClaims(on, claims) == on + claims
    decreases |claims|
  {
    if claims != [] {
      var init, last := claims[..|claims| - 1], claims[|claims| - 1];
      FreshAllAppended(on, init);
      HasClaimAppended(on, init, last.id);
      assert on + claims == on + init + [last];
    }
  }

  lemma {:induction false} ClaimsKeepTables(id: string, claims: seq<Claim>, times: seq<int>, s: State, cfg: Config)
    requires |claims| == |times|
    ensures Effects(ClaimCalls(id, claims, times), Site(s, {}), cfg).missing == {}
    decreases |claims|
  {
    if claims != [] {
      var n := |claims| - 1;
      assert ClaimCalls(id, claims, times)[..n] == ClaimCalls(id, claims[..n], times[..n]);
      ClaimsKeepTables(id, claims[..n], times[..n], s, cfg);
    }
  }

  lemma EffectsAreStates(id: string, claims: seq<Claim>, times: seq<int>, s: State, cfg: Config)
    returns (states: seq<State>)
    requires |claims| == |times|
    ensures OneByOne(states, ClaimOps(id, claims), times, cfg) && states[0] == s
    ensures states[|claims|] == Effects(ClaimCalls(id, claims, times), Site(s, {}), cfg).state
  {
    var calls := ClaimCalls(id, claims, times);
    states := seq(|claims| + 1, k requires 0 <= k <= |claims| => Effects(calls[..k], Site(s, {}), cfg).state);
    forall i | 0 <= i < |claims| ensures Stepped(states, ClaimOps(id, claims), times, cfg, i) {
      assert calls[..i + 1][..i] == calls[..i];
      assert calls[..i] == ClaimCalls(id, claims[..i], times[..i]);
      ClaimsKeepTables(id, claims[..i], times[..i], s, cfg);
    }
    assert calls[..|calls|] == calls;
  }

  lemma ClaimsAfterPass(files: Files, t: Tables, path: string, claims: seq<Claim>, now: int, cfg: Config)
    requires Parses(files, path) && !IsSlotPath(path) && DistinctFresh(claims, ClaimsAt(files, path))
    ensures ClaimsAt(Pass(Claimed(files, path, claims), t, now, cfg).files, path) == ClaimsAt(files, path) + claims
  {
    FreshAllAppended(ClaimsAt(files, path), claims);
    PassKeepsClaims(Claimed(files, path, claims), t, now, cfg, path);
  }

  lemma SequentialClaims(s: State, id: string, claims: seq<Claim>, times: seq<int>, cfg: Config)
    requires Healthy(s, cfg) && id in s.tables.pages && id != "" && |claims| == |times|
    requires ClaimsFit(s.files, s.tables, AddClaims(id, claims))
    requires DistinctFresh(claims, ClaimsAt(s.files, s.tables.pages[id].path))
    ensures ClaimsAt(Effects(ClaimCalls(id, claims, times), Site(s, {}), cfg).state.files, s.tables.pages[id].path)
         == ClaimsAt(s.files, s.tables.pages[id].path) + claims
  {
    if claims != [] {
      var states := EffectsAreStates(id, claims, times, s, cfg);
      ClaimsGoToNoSlot(s, id, claims, cfg);
      SinglesOfClaims(s, id, claims, times[0], times, states, cfg);
      ClaimsAfterPass(s.files, s.tables, s.tables.pages[id].path, claims, times[0], cfg);
    }
  }

  lemma PickedAreFresh(claims: seq<Claim>, on: seq<Claim>, order: seq<nat>)
    requires DistinctFresh(claims, on) && Permutation(order, |claims|)
    ensures DistinctFresh(Picked(claims, order), on)
  {
    var picked := Picked(claims, order);
    forall i, j | 0 <= i < j < |picked| ensures picked[i].id != picked[j].id {
      assert order[i] < order[j] || order[j] < order[i];
    }
  }

  lemma OrderedClaimCalls(id: string, claims: seq<Claim>, times: seq<int>, order: seq<nat>)
    requires |claims| == |times| && Names(order, |claims|)
    ensures Ordered(ClaimCalls(id, claims, times), order) == ClaimCalls(id, Picked(claims, order), Picked(times, order))
  {}

  lemma FitsForAny(files: Files, tables: Tables, id: string, claims: seq<Claim>, others: seq<Claim>)
    requires ClaimsFit(files, tables, AddClaims(id, claims))
    ensures ClaimsFit(files, tables, AddClaims(id, others))
  {}

  lemma ClaimsInOrder(
    s: State, id: string, claims: seq<Claim>, times: seq<int>, order: seq<nat>, cfg: Config)
    requires Healthy(s, cfg) && id in s.tables.pages && id != "" && |claims| == |times|
    requires ClaimsFit(s.files, s.tables, AddClaims(id, claims)) && Permutation(order, |claims|)
    requires DistinctFresh(claims, ClaimsAt(s.files, s.tables.pages[id].path))
    ensures var calls := Ordered(ClaimCalls(id, claims, times), order);
            ClaimsAt(Effects(calls, Site(s, {}), cfg).state.files, s.tables.pages[id].path)
            == ClaimsAt(s.files, s.tables.pages[id].path) + Picked(claims, order)
  {
    OrderedClaimCalls(id, claims, times, order);
    PickedAreFresh(claims, ClaimsAt(s.files, s.tables.pages[id].path), order);
    FitsForAny(s.files, s.tables, id, claims, Picked(claims, order));
    SequentialClaims(s, id, Picked(claims, order), Picked(times, order), cfg);
  }

  /** Concurrent `add_claim` calls with distinct new ids on one page all survive: afterwards the page has its
      old claims and then every new one exactly once, in the order the calls finished. */
  lemma ConcurrentClaimsSurvive(
    s: State, id: string, claims: seq<Claim>, times: seq<int>, run: seq<Machine>, cfg: Config) returns (order: seq<nat>)
    requires Healthy(s, cfg) && id in s.tables.pages && id != "" && |claims| == |times|
    requires ClaimsFit(s.files, s.tables, AddClaims(id, claims))
    requires DistinctFresh(claims, ClaimsAt(s.files, s.tables.pages[id].path))
    requires Interleaved(Writers(ClaimCalls(id, claims, times), cfg), run, Site(s, {})) && AllFinished(run[|run| - 1])
    ensures Permutation(order, |claims|)
    ensures ClaimsAt(run[|run| - 1].shared.state.files, s.tables.pages[id].path)
         == ClaimsAt(s.files, s.tables.pages[id].path) + Picked(claims, order)
  {
    order := HandlersSerialise(ClaimCalls(id, claims, times), run, Site(s, {}), cfg);
    ClaimsInOrder(s, id, claims, times, order, cfg);
  }
}
