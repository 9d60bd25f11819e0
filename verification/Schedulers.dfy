/** The scheduler of background tasks: what one event-loop step does to the registry, and what every run keeps. */
module Schedulers {
  import opened Model

  datatype TaskState = Pending | Running | Succeeded | Failed | Cancelled

  predicate Terminal(s: TaskState)
  {
    s.Succeeded? || s.Failed? || s.Cancelled?
  }

  /** The asyncio task behind a task: waiting for its first step, cancelled before it, in the work function, or over. */
  datatype Loop = Armed | Doomed | Active | Over

  /** How a work function ends. `Fatal` is an exception that is neither a cancellation nor an `Exception`. */
  datatype Outcome = Returned(value: string) | RaisedCancel | RaisedError(message: string) | Fatal

  /** A task's fields at one moment. */
  datatype Record = Record(
    kind: string, state: TaskState, createdAt: int, startedAt: Option<int>, finishedAt: Option<int>,
    result: Option<string>, error: Option<string>, cancelRequested: bool, loop: Loop)

  // ---- one task ----

  function Fresh(kind: string, now: int): Record
  {
    Record(kind, Pending, now, None, None, None, None, false, Armed)
  }

  function Begun(r: Record, now: int): Record
  {
    r.(state := Running, startedAt := Some(now), loop := Active)
  }

  function Ended(r: Record, outcome: Outcome, now: int): Record
  {
    var over := r.(finishedAt := Some(now), loop := Over);
    match outcome
    case Returned(value) =>
      if r.cancelRequested then over.(state := Cancelled) else over.(state := Succeeded, result := Some(value))
    case RaisedCancel => over.(state := Cancelled)
    case RaisedError(message) => over.(state := Failed, error := Some(message))
    case Fatal => over
  }

  /** `asyncio.Task.cancel`: a task that has not started never will; one at work may see it or not. */
  function LoopCancelled(loop: Loop): Loop
  {
    if loop.Armed? then Doomed else loop
  }

  function CancelRequested(r: Record, now: int): Record
  {
    if Terminal(r.state) then r
    else
      var asked := r.(cancelRequested := true, loop := LoopCancelled(r.loop));
      if r.state.Pending? then asked.(state := Cancelled, finishedAt := Some(now)) else asked
  }

  /** `shutdown` asks every unfinished task to stop but does not touch its state. */
  function ShutDown(r: Record): Record
  {
    if Terminal(r.state) then r else r.(cancelRequested := true, loop := LoopCancelled(r.loop))
  }

  predicate Stale(r: Record, now: int, ttl: int)
  {
    Terminal(r.state) && r.finishedAt.Some? && now - r.finishedAt.value > ttl
  }

  // ---- the registry ----

  type Registry = map<string, Record>

  /** What can happen in one event-loop step. `Discard`: the loop drops a task that was cancelled before it started. */
  datatype Event =
    | Enqueue(id: string, kind: string, now: int)
    | Begin(id: string, now: int)
    | End(id: string, outcome: Outcome, now: int)
    | Cancel(id: string, now: int)
    | Discard(id: string)
    | Shutdown
    | Collect(now: int)

  /** New ids are unused, and the loop starts and ends what it has. */
  predicate Possible(tasks: Registry, e: Event)
  {
    match e
    case Enqueue(id, _, _) => id !in tasks
    case Begin(id, _) => id in tasks && tasks[id].loop.Armed?
    case End(id, _, _) => id in tasks && tasks[id].loop.Active?
    case Cancel(_, _) => true
    case Discard(id) => id in tasks && tasks[id].loop.Doomed?
    case Shutdown => true
    case Collect(_) => true
  }

  function Next(tasks: Registry, e: Event, ttl: int): Registry
  {
    match e
    case Enqueue(id, kind, now) => tasks[id := Fresh(kind, now)]
    case Begin(id, now) => if id in tasks then tasks[id := Begun(tasks[id], now)] else tasks
    case End(id, outcome, now) => if id in tasks then tasks[id := Ended(tasks[id], outcome, now)] else tasks
    case Cancel(id, now) => if id in tasks then tasks[id := CancelRequested(tasks[id], now)] else tasks
    case Discard(id) => if id in tasks then tasks[id := tasks[id].(loop := Over)] else tasks
    case Shutdown => map id | id in tasks :: ShutDown(tasks[id])
    case Collect(now) => map id | id in tasks && !Stale(tasks[id], now, ttl) :: tasks[id]
  }

  /** The registry when all tasks but those left were asked to stop. */
  function PartlyShutDown(tasks: Registry, left: set<string>): Registry
  {
    map id | id in tasks :: if id in left then tasks[id] else ShutDown(tasks[id])
  }

  lemma OneMoreShutDown(tasks: Registry, left: set<string>, id: string)
    requires id in tasks && id in left
    ensures PartlyShutDown(tasks, left)[id] == tasks[id]
    ensures PartlyShutDown(tasks, left - {id}) == PartlyShutDown(tasks, left)[id := ShutDown(tasks[id])]
  {}

  lemma AllShutDown(tasks: Registry, ttl: int)
    ensures PartlyShutDown(tasks, {}) == Next(tasks, Event.Shutdown, ttl)
  {}

  // ---- what holds of every task at every step ----

  /** The asyncio task will not take another step. */
  predicate Stopped(loop: Loop)
  {
    loop.Doomed? || loop.Over?
  }

  predicate Coherent(r: Record)
  {
    && (r.state.Pending? ==> r.startedAt.None? && (r.loop.Armed? || (r.cancelRequested && Stopped(r.loop))))
    && (r.state.Running? ==> r.startedAt.Some? && (r.loop.Active? || r.loop.Over?))
    && (r.state.Succeeded? ==> r.startedAt.Some? && r.loop.Over? && !r.cancelRequested)
    && (r.state.Failed? ==> r.startedAt.Some? && r.loop.Over?)
    && (r.state.Cancelled? ==> if r.startedAt.Some? then r.loop.Over? else r.cancelRequested && Stopped(r.loop))
    && (r.result.Some? ==> r.state.Succeeded?)
    && (r.error.Some? <==> r.state.Failed?)
    && (r.finishedAt.Some? <==> Terminal(r.state) || (r.state.Running? && r.loop.Over?))
  }

  ghost predicate AllCoherent(tasks: Registry)
  {
    forall id | id in tasks :: Coherent(tasks[id])
  }

  lemma FieldsStayCoherent(r: Record, now: int, outcome: Outcome)
    requires Coherent(r)
    ensures Coherent(CancelRequested(r, now)) && Coherent(ShutDown(r))
    ensures r.loop.Armed? ==> Coherent(Begun(r, now))
    ensures r.loop.Active? ==> Coherent(Ended(r, outcome, now))
    ensures r.loop.Doomed? ==> Coherent(r.(loop := Over))
  {}

  /** What one step makes of one task. */
  lemma StepOfTask(tasks: Registry, e: Event, ttl: int, id: string)
    requires Possible(tasks, e) && id in Next(tasks, e, ttl)
    ensures var later := Next(tasks, e, ttl)[id];
            if id !in tasks then later.state.Pending? && later == Fresh(later.kind, later.createdAt)
            else
              var r := tasks[id];
              || later == r || later == ShutDown(r)
              || (e.Begin? && r.loop.Armed? && later == Begun(r, e.now))
              || (e.End? && r.loop.Active? && later == Ended(r, e.outcome, e.now))
              || (e.Cancel? && later == CancelRequested(r, e.now))
              || (r.loop.Doomed? && later == r.(loop := Over))
  {}

  lemma StepKeepsCoherent(tasks: Registry, e: Event, ttl: int)
    requires AllCoherent(tasks) && Possible(tasks, e)
    ensures AllCoherent(Next(tasks, e, ttl))
  {
    forall id | id in Next(tasks, e, ttl) ensures Coherent(Next(tasks, e, ttl)[id]) {
      StepOfTask(tasks, e, ttl, id);
      if id in tasks {
        FieldsStayCoherent(tasks[id], if e.Begin? || e.End? || e.Cancel? then e.now else 0,
                           if e.End? then e.outcome else Fatal);
      }
    }
  }

  /** A later state of a task that was in `r`. */
  predicate Continues(r: Record, later: Record)
  {
    && later.kind == r.kind && later.createdAt == r.createdAt
    && (r.cancelRequested ==> later.cancelRequested)
    && (Terminal(r.state) ==> later.(loop := r.loop) == r)
    && (r.startedAt.Some? ==> later.startedAt == r.startedAt)
    && (r.finishedAt.Some? ==> later.finishedAt == r.finishedAt)
    && (r.state.Running? ==> !later.state.Pending?)
    && (Stopped(r.loop) ==> later.startedAt == r.startedAt && Stopped(later.loop))
    && (r.loop.Over? ==> later.loop.Over?)
    && (r.cancelRequested && !r.state.Succeeded? ==> !later.state.Succeeded?)
  }

  lemma FieldsContinue(r: Record, now: int, outcome: Outcome)
    requires Coherent(r)
    ensures Continues(r, r) && Continues(r, CancelRequested(r, now)) && Continues(r, ShutDown(r))
    ensures r.loop.Armed? ==> Continues(r, Begun(r, now))
    ensures r.loop.Active? ==> Continues(r, Ended(r, outcome, now))
    ensures r.loop.Doomed? ==> Continues(r, r.(loop := Over))
  {}

  lemma StepContinues(tasks: Registry, e: Event, ttl: int, id: string)
    requires AllCoherent(tasks) && Possible(tasks, e)
    requires id in tasks && id in Next(tasks, e, ttl)
    ensures Continues(tasks[id], Next(tasks, e, ttl)[id])
  {
    assert Coherent(tasks[id]);
    StepOfTask(tasks, e, ttl, id);
    FieldsContinue(tasks[id], if e.Begin? || e.End? || e.Cancel? then e.now else 0,
                   if e.End? then e.outcome else Fatal);
  }

  lemma ContinuesFurther(a: Record, b: Record, c: Record)
    requires Continues(a, b) && Continues(b, c)
    ensures Continues(a, c)
  {}

  // ---- runs ----

  ghost predicate Run(run: seq<Registry>, events: seq<Event>, ttl: int)
  {
    && |run| == |events| + 1 && run[0] == map[]
    && forall i | 0 <= i < |events| :: Possible(run[i], events[i]) && run[i + 1] == Next(run[i], events[i], ttl)
  }

  lemma {:induction false} RunIsCoherent(run: seq<Registry>, events: seq<Event>, ttl: int, k: nat)
    requires Run(run, events, ttl) && k < |run|
    ensures AllCoherent(run[k])
    decreases k
  {
    if k > 0 {
      RunIsCoherent(run, events, ttl, k - 1);
      StepKeepsCoherent(run[k - 1], events[k - 1], ttl);
    }
  }

  lemma {:induction false} DeadStaysDead(
    run: seq<Registry>, events: seq<Event>, ttl: int, i: nat, j: nat, id: string, now: int)
    requires Run(run, events, ttl) && i <= j < |run| && id in run[i]
    requires run[i][id].state.Running? && run[i][id].loop.Over? && run[i][id].finishedAt == Some(now)
    ensures id in run[j] && run[j][id].state.Running? && run[j][id].loop.Over? && run[j][id].finishedAt == Some(now)
    decreases j
  {
    if i < j {
      DeadStaysDead(run, events, ttl, i, j - 1, id, now);
    }
  }

  /** The work function of this task dies of an exception the runner does not catch. */
  predicate Kills(e: Event, id: string)
  {
    e.End? && e.id == id && e.outcome.Fatal?
  }

  ghost predicate Killed(events: seq<Event>, k: nat, id: string)
    requires k <= |events|
  {
    exists i :: 0 <= i < k && Kills(events[i], id)
  }

  predicate Dead(r: Record)
  {
    r.state.Running? && r.loop.Over?
  }

  lemma OnlyKillingKills(tasks: Registry, e: Event, ttl: int, id: string)
    requires AllCoherent(tasks) && Possible(tasks, e) && id in Next(tasks, e, ttl)
    ensures Dead(Next(tasks, e, ttl)[id]) <==> Kills(e, id) || (id in tasks && Dead(tasks[id]))
  {
    StepOfTask(tasks, e, ttl, id);
    if id in tasks { assert Coherent(tasks[id]); }
  }

  /** A work function that dies of an uncaught exception leaves its task running for ever: it is finished,
      but no collection removes it. */
  lemma FatalTaskIsNeverCollected(
    run: seq<Registry>, events: seq<Event>, ttl: int, i: nat, j: nat, id: string, now: int)
    requires Run(run, events, ttl) && i < j < |run| && events[i] == End(id, Fatal, now)
    ensures id in run[j] && run[j][id].state.Running? && run[j][id].finishedAt == Some(now) && Dead(run[j][id])
  {
    assert Possible(run[i], events[i]) && run[i + 1] == Next(run[i], events[i], ttl);
    RunIsCoherent(run, events, ttl, i);
    assert Coherent(run[i][id]);
    DeadStaysDead(run, events, ttl, i + 1, j, id, now);
  }

  lemma {:induction false} DeadIsKilled(run: seq<Registry>, events: seq<Event>, ttl: int, k: nat, id: string)
    requires Run(run, events, ttl) && k < |run| && id in run[k] && Dead(run[k][id])
    ensures Killed(events, k, id)
    decreases k
  {
    assert Possible(run[k - 1], events[k - 1]) && run[k - 1 + 1] == Next(run[k - 1], events[k - 1], ttl);
    RunIsCoherent(run, events, ttl, k - 1);
    OnlyKillingKills(run[k - 1], events[k - 1], ttl, id);
    if !Kills(events[k - 1], id) { DeadIsKilled(run, events, ttl, k - 1, id); }
  }

  /** At every step of every run: a task succeeded only if its cancellation was never requested, has a result
      only if it succeeded and an error exactly if it failed; and being finished is being terminal
      exactly for a task that no uncaught exception has killed. */
  lemma TasksAreCoherent(run: seq<Registry>, events: seq<Event>, ttl: int, k: nat, id: string)
    requires Run(run, events, ttl) && k < |run| && id in run[k]
    ensures var r := run[k][id];
            && (r.state.Succeeded? ==> !r.cancelRequested)
            && (r.result.Some? ==> r.state.Succeeded?)
            && (r.error.Some? <==> r.state.Failed?)
            && ((r.finishedAt.Some? <==> Terminal(r.state)) <==> !Killed(events, k, id))
  {
    RunIsCoherent(run, events, ttl, k);
    assert Coherent(run[k][id]);
    if Killed(events, k, id) {
      var i :| 0 <= i < k && Kills(events[i], id);
      FatalTaskIsNeverCollected(run, events, ttl, i, k, id, events[i].now);
    }
    if Dead(run[k][id]) { DeadIsKilled(run, events, ttl, k, id); }
  }

  predicate Present(run: seq<Registry>, i: nat, j: nat, id: string)
    requires i <= j < |run|
  {
    forall k | i <= k <= j :: id in run[k]
  }

  lemma StepOfRun(run: seq<Registry>, events: seq<Event>, ttl: int, k: nat, id: string)
    requires Run(run, events, ttl) && k + 1 < |run| && id in run[k] && id in run[k + 1]
    ensures Continues(run[k][id], run[k + 1][id])
  {
    RunIsCoherent(run, events, ttl, k);
    StepContinues(run[k], events[k], ttl, id);
  }

  /** Each record continues the one before. */
  predicate Steadily(run: seq<Registry>, i: nat, j: nat, id: string)
    requires i <= j < |run| && Present(run, i, j, id)
  {
    forall k | i < k <= j :: Continues(run[k - 1][id], run[k][id])
  }

  lemma {:induction false} SteadilyContinues(run: seq<Registry>, i: nat, j: nat, id: string)
    requires i <= j < |run| && Present(run, i, j, id) && Steadily(run, i, j, id)
    requires Continues(run[i][id], run[i][id])
    ensures Continues(run[i][id], run[j][id])
    decreases j
  {
    if i < j {
      SteadilyContinues(run, i, j - 1, id);
      ContinuesFurther(run[i][id], run[j - 1][id], run[j][id]);
    }
  }

  lemma RunContinues(run: seq<Registry>, events: seq<Event>, ttl: int, i: nat, j: nat, id: string)
    requires Run(run, events, ttl) && i <= j < |run| && Present(run, i, j, id)
    ensures Continues(run[i][id], run[j][id])
  {
    forall k | i < k <= j ensures Continues(run[k - 1][id], run[k][id]) {
      StepOfRun(run, events, ttl, k - 1, id);
    }
    RunIsCoherent(run, events, ttl, i);
    FieldsContinue(run[i][id], 0, Fatal);
    SteadilyContinues(run, i, j, id);
  }

  /** While a task is registered, a terminal state is its last: nothing of it changes any more. */
  lemma TerminalIsFinal(run: seq<Registry>, events: seq<Event>, ttl: int, i: nat, j: nat, id: string)
    requires Run(run, events, ttl) && i <= j < |run| && Present(run, i, j, id)
    requires Terminal(run[i][id].state)
    ensures run[j][id].(loop := run[i][id].loop) == run[i][id]
  {
    RunContinues(run, events, ttl, i, j, id);
  }

  /** A cancellation counts: once it was requested of one that has not succeeded, it never will. */
  lemma CancelIsAuthoritative(run: seq<Registry>, events: seq<Event>, ttl: int, i: nat, j: nat, id: string)
    requires Run(run, events, ttl) && i <= j < |run| && Present(run, i, j, id)
    requires run[i][id].cancelRequested
    ensures !run[j][id].state.Succeeded?
  {
    RunIsCoherent(run, events, ttl, i);
    assert Coherent(run[i][id]);
    RunContinues(run, events, ttl, i, j, id);
  }

  /** A task cancelled while pending is cancelled at once and never starts. */
  lemma CancelledPendingNeverStarts(
    run: seq<Registry>, events: seq<Event>, ttl: int, i: nat, j: nat, id: string, now: int)
    requires Run(run, events, ttl) && i < j < |run| && Present(run, i, j, id)
    requires events[i] == Cancel(id, now) && run[i][id].state.Pending?
    ensures run[i + 1][id].state.Cancelled? && run[j][id].state.Cancelled?
    ensures run[j][id].startedAt.None? && run[j][id].finishedAt == Some(now)
  {
    RunIsCoherent(run, events, ttl, i);
    assert Coherent(run[i][id]);
    assert Present(run, i + 1, j, id);
    RunContinues(run, events, ttl, i + 1, j, id);
  }

  /** A task that was pending at shutdown never starts either, but stays pending until someone cancels it. */
  lemma ShutdownLeavesPending(run: seq<Registry>, events: seq<Event>, ttl: int, i: nat, j: nat, id: string)
    requires Run(run, events, ttl) && i < j < |run| && Present(run, i, j, id)
    requires events[i] == Shutdown && run[i][id].state.Pending?
    ensures run[i + 1][id].state.Pending? && run[i + 1][id].finishedAt.None?
    ensures run[j][id].startedAt.None?
    ensures (forall k | i < k < j :: !(events[k].Cancel? && events[k].id == id)) ==> run[j][id].state.Pending?
  {
    RunIsCoherent(run, events, ttl, i);
    assert Coherent(run[i][id]);
    assert Present(run, i + 1, j, id);
    RunContinues(run, events, ttl, i + 1, j, id);
    if forall k | i < k < j :: !(events[k].Cancel? && events[k].id == id) {
      StaysPending(run, events, ttl, i + 1, j, id);
    }
  }

  lemma {:induction false} StaysPending(run: seq<Registry>, events: seq<Event>, ttl: int, i: nat, j: nat, id: string)
    requires Run(run, events, ttl) && i <= j < |run| && Present(run, i, j, id)
    requires run[i][id].state.Pending? && Stopped(run[i][id].loop)
    requires forall k | i <= k < j :: !(events[k].Cancel? && events[k].id == id)
    ensures run[j][id].state.Pending? && Stopped(run[j][id].loop)
    decreases j
  {
    if i < j {
      StaysPending(run, events, ttl, i, j - 1, id);
    }
  }

  /** A task leaves the registry in a collection only, and then exactly if it is terminal and finished
      longer ago than the time to live. */
  lemma OnlyStaleAreCollected(run: seq<Registry>, events: seq<Event>, ttl: int, i: nat, id: string)
    requires Run(run, events, ttl) && i < |events| && id in run[i]
    ensures id !in run[i + 1] <==> events[i].Collect? && Stale(run[i][id], events[i].now, ttl)
  {}

  // ---- a run, event by event ----

  /** No other task is touched. */
  ghost predicate OnlyTask(before: Registry, after: Registry, id: string)
  {
    forall x | x != id :: (x in after <==> x in before) && (x in before ==> after[x] == before[x])
  }

  /** A new task is pending, with nothing but its kind and its time of creation. */
  lemma EnqueuedTask(
    run: seq<Registry>, events: seq<Event>, ttl: int, i: nat, id: string, kind: string, now: int)
    requires Run(run, events, ttl) && i < |events| && events[i] == Enqueue(id, kind, now)
    ensures id !in run[i] && id in run[i + 1] && OnlyTask(run[i], run[i + 1], id)
    ensures run[i + 1][id] == Record(kind, Pending, now, None, None, None, None, false, Armed)
  {}

  /** Only a pending task begins; it is then running since that time, and otherwise as it was. */
  lemma BegunTask(run: seq<Registry>, events: seq<Event>, ttl: int, i: nat, id: string, now: int)
    requires Run(run, events, ttl) && i < |events| && events[i] == Begin(id, now)
    ensures id in run[i] && id in run[i + 1] && OnlyTask(run[i], run[i + 1], id)
    ensures run[i][id].state == Pending && run[i][id].startedAt == None
    ensures run[i + 1][id] == run[i][id].(state := Running, startedAt := Some(now), loop := Active)
  {
    assert Possible(run[i], events[i]) && run[i + 1] == Next(run[i], events[i], ttl);
    RunIsCoherent(run, events, ttl, i);
    assert Coherent(run[i][id]);
  }

  /** Only a running task ends. It has succeeded, with the value as its result, exactly if its work returned one and
      nobody had asked it to stop; it has failed, with the message as its error, exactly if the work raised one; it
      is cancelled if the work was cancelled or returned after all; and after any other exception it keeps
      running. In each case it is finished at that time, and what the ending says nothing about is as it was. */
  lemma EndedTask(
    run: seq<Registry>, events: seq<Event>, ttl: int, i: nat, id: string, outcome: Outcome, now: int)
    requires Run(run, events, ttl) && i < |events| && events[i] == End(id, outcome, now)
    ensures id in run[i] && id in run[i + 1] && OnlyTask(run[i], run[i + 1], id)
    ensures run[i][id].state == Running && run[i][id].result == None && run[i][id].error == None
    ensures var before, after := run[i][id], run[i + 1][id];
            && (after.state == Succeeded <==> outcome.Returned? && !before.cancelRequested)
            && (after.state == Failed <==> outcome.RaisedError?)
            && (after.state == Cancelled <==> outcome.RaisedCancel? || (outcome.Returned? && before.cancelRequested))
            && (after.state == Running <==> outcome.Fatal?)
            && after.result == (if after.state == Succeeded then Some(outcome.value) else None)
            && after.error == (if after.state == Failed then Some(outcome.message) else None)
            && after.finishedAt == Some(now) && after.loop == Over
            && after.kind == before.kind && after.createdAt == before.createdAt
            && after.startedAt == before.startedAt && after.cancelRequested == before.cancelRequested
  {
    assert Possible(run[i], events[i]) && run[i + 1] == Next(run[i], events[i], ttl);
    RunIsCoherent(run, events, ttl, i);
    assert Coherent(run[i][id]);
  }

  /** A cancellation marks a pending or running task, and ends a pending one; nothing else of it changes. */
  lemma CancelledTask(run: seq<Registry>, events: seq<Event>, ttl: int, i: nat, id: string, now: int)
    requires Run(run, events, ttl) && i < |events| && events[i] == Cancel(id, now)
    ensures (id in run[i + 1] <==> id in run[i]) && OnlyTask(run[i], run[i + 1], id)
    ensures id in run[i] ==>
              var before, after := run[i][id], run[i + 1][id];
              && (before.state == Pending ==>
                    && after.state == Cancelled && after.cancelRequested && after.finishedAt == Some(now)
                    && after.(state := Pending, cancelRequested := before.cancelRequested,
                              finishedAt := before.finishedAt, loop := before.loop) == before)
              && (before.state == Running ==> after == before.(cancelRequested := true))
              && (before.state != Pending && before.state != Running ==> after == before)
  {
    RunIsCoherent(run, events, ttl, i);
    if id in run[i] { assert Coherent(run[i][id]); }
  }

  /** A shutdown marks every pending or running task and changes neither its state nor any other task. */
  lemma ShutDownTasks(run: seq<Registry>, events: seq<Event>, ttl: int, i: nat, id: string)
    requires Run(run, events, ttl) && i < |events| && events[i] == Shutdown
    ensures id in run[i + 1] <==> id in run[i]
    ensures id in run[i] ==>
              var before, after := run[i][id], run[i + 1][id];
              if before.state == Pending || before.state == Running then
                && after.cancelRequested
                && after.(cancelRequested := before.cancelRequested, loop := before.loop) == before
              else after == before
  {}

  /** A collection drops exactly the tasks that succeeded, failed or were cancelled longer ago than the time to live. */
  lemma CollectedTasks(run: seq<Registry>, events: seq<Event>, ttl: int, i: nat, now: int, id: string)
    requires Run(run, events, ttl) && i < |events| && events[i] == Collect(now)
    ensures id in run[i + 1] <==>
              && id in run[i]
              && !((run[i][id].state == Succeeded || run[i][id].state == Failed || run[i][id].state == Cancelled)
                   && run[i][id].finishedAt.Some? && now > run[i][id].finishedAt.value + ttl)
    ensures id in run[i + 1] ==> run[i + 1][id] == run[i][id]
  {}

  // ---- what a task came to, told by the events ----

  /** The work of this one ended at event `j`, and it has been registered ever since. */
  ghost predicate EndedBy(run: seq<Registry>, events: seq<Event>, j: nat, k: nat, id: string)
    requires k < |run| == |events| + 1
  {
    j < k && events[j].End? && events[j].id == id && Present(run, j, k, id)
  }

  /** A cancellation of this task or a shutdown, at event `j`, found it unfinished, and it has been registered
      ever since. */
  ghost predicate AskedBy(run: seq<Registry>, events: seq<Event>, j: nat, k: nat, id: string)
    requires k < |run| == |events| + 1
  {
    && j < k && (events[j].Shutdown? || (events[j].Cancel? && events[j].id == id)) && Present(run, j, k, id)
    && (run[j][id].state == Pending || run[j][id].state == Running)
  }

  lemma AskedIsMarked(run: seq<Registry>, events: seq<Event>, ttl: int, j: nat, k: nat, id: string)
    requires Run(run, events, ttl) && k < |run| && AskedBy(run, events, j, k, id)
    ensures run[k][id].cancelRequested
  {
    if events[j].Cancel? {
      CancelledTask(run, events, ttl, j, id, events[j].now);
    } else {
      ShutDownTasks(run, events, ttl, j, id);
    }
    assert Present(run, j + 1, k, id);
    RunContinues(run, events, ttl, j + 1, k, id);
  }

  lemma {:induction false} MarkedWasAsked(run: seq<Registry>, events: seq<Event>, ttl: int, k: nat, id: string)
    requires Run(run, events, ttl) && k < |run| && id in run[k] && run[k][id].cancelRequested
    ensures exists j: nat :: AskedBy(run, events, j, k, id)
    decreases k
  {
    assert Possible(run[k - 1], events[k - 1]) && run[k - 1 + 1] == Next(run[k - 1], events[k - 1], ttl);
    StepOfTask(run[k - 1], events[k - 1], ttl, id);
    if run[k - 1][id].cancelRequested {
      MarkedWasAsked(run, events, ttl, k - 1, id);
      var j: nat :| AskedBy(run, events, j, k - 1, id);
      assert AskedBy(run, events, j, k, id);
    } else {
      assert AskedBy(run, events, k - 1, k, id);
    }
  }

  /** A task is marked exactly if a cancellation of it or a shutdown found it unfinished. */
  lemma MarkedExactlyWhen(run: seq<Registry>, events: seq<Event>, ttl: int, k: nat, id: string)
    requires Run(run, events, ttl) && k < |run| && id in run[k]
    ensures run[k][id].cancelRequested <==> exists j: nat :: AskedBy(run, events, j, k, id)
  {
    if run[k][id].cancelRequested { MarkedWasAsked(run, events, ttl, k, id); }
    if j: nat :| AskedBy(run, events, j, k, id) { AskedIsMarked(run, events, ttl, j, k, id); }
  }

  /** What its work came to stays with a task: every field but the loop's is that of the moment it ended. */
  lemma EndingLasts(run: seq<Registry>, events: seq<Event>, ttl: int, j: nat, k: nat, id: string)
    requires Run(run, events, ttl) && k < |run| && EndedBy(run, events, j, k, id) && !events[j].outcome.Fatal?
    ensures run[k][id].(loop := Over) == run[j + 1][id]
  {
    EndedTask(run, events, ttl, j, id, events[j].outcome, events[j].now);
    assert Present(run, j + 1, k, id);
    TerminalIsFinal(run, events, ttl, j + 1, k, id);
  }

  lemma {:induction false} DoneWasEnded(run: seq<Registry>, events: seq<Event>, ttl: int, k: nat, id: string)
    requires Run(run, events, ttl) && k < |run| && id in run[k]
    requires run[k][id].state == Succeeded || run[k][id].state == Failed
    ensures exists j: nat :: EndedBy(run, events, j, k, id) && !events[j].outcome.Fatal?
    decreases k
  {
    assert Possible(run[k - 1], events[k - 1]) && run[k - 1 + 1] == Next(run[k - 1], events[k - 1], ttl);
    StepOfTask(run[k - 1], events[k - 1], ttl, id);
    if run[k - 1][id].state == Succeeded || run[k - 1][id].state == Failed {
      DoneWasEnded(run, events, ttl, k - 1, id);
      var j: nat :| EndedBy(run, events, j, k - 1, id) && !events[j].outcome.Fatal?;
      assert EndedBy(run, events, j, k, id);
    } else {
      assert EndedBy(run, events, k - 1, k, id);
    }
  }

  /** The work of this one returned the value at event `j`, unless it was asked to stop before. */
  ghost predicate Delivered(run: seq<Registry>, events: seq<Event>, j: nat, k: nat, id: string, value: string)
    requires k < |run| == |events| + 1
  {
    && EndedBy(run, events, j, k, id) && events[j].outcome == Returned(value)
    && !exists a: nat :: AskedBy(run, events, a, j, id)
  }

  /** Told by the events alone: a task has succeeded with a value exactly if its work returned that value and
      no cancellation of it and no shutdown had found it unfinished. */
  lemma SucceededExactlyWhen(run: seq<Registry>, events: seq<Event>, ttl: int, k: nat, id: string, value: string)
    requires Run(run, events, ttl) && k < |run| && id in run[k]
    ensures run[k][id].state == Succeeded && run[k][id].result == Some(value)
       <==> exists j: nat :: Delivered(run, events, j, k, id, value)
  {
    if run[k][id].state == Succeeded && run[k][id].result == Some(value) {
      DoneWasEnded(run, events, ttl, k, id);
      var j: nat :| EndedBy(run, events, j, k, id) && !events[j].outcome.Fatal?;
      EndingLasts(run, events, ttl, j, k, id);
      EndedTask(run, events, ttl, j, id, events[j].outcome, events[j].now);
      MarkedExactlyWhen(run, events, ttl, j, id);
      assert Delivered(run, events, j, k, id, value);
    }
    if j: nat :| Delivered(run, events, j, k, id, value) {
      EndingLasts(run, events, ttl, j, k, id);
      EndedTask(run, events, ttl, j, id, events[j].outcome, events[j].now);
      MarkedExactlyWhen(run, events, ttl, j, id);
    }
  }

  /** And it has failed with a message exactly if its work raised that error, asked to stop or not. */
  lemma FailedExactlyWhen(run: seq<Registry>, events: seq<Event>, ttl: int, k: nat, id: string, message: string)
    requires Run(run, events, ttl) && k < |run| && id in run[k]
    ensures run[k][id].state == Failed && run[k][id].error == Some(message)
       <==> exists j: nat :: EndedBy(run, events, j, k, id) && events[j].outcome == RaisedError(message)
  {
    if run[k][id].state == Failed && run[k][id].error == Some(message) {
      DoneWasEnded(run, events, ttl, k, id);
      var j: nat :| EndedBy(run, events, j, k, id) && !events[j].outcome.Fatal?;
      EndingLasts(run, events, ttl, j, k, id);
      EndedTask(run, events, ttl, j, id, events[j].outcome, events[j].now);
    }
    if j: nat :| EndedBy(run, events, j, k, id) && events[j].outcome == RaisedError(message) {
      EndingLasts(run, events, ttl, j, k, id);
      EndedTask(run, events, ttl, j, id, events[j].outcome, events[j].now);
    }
  }

  // ---- the objects ----

  class Task {
    const kind: string
    const createdAt: int
    var state: TaskState
    var startedAt: Option<int>
    var finishedAt: Option<int>
    var result: Option<string>
    var error: Option<string>
    var cancelRequested: bool
    var loop: Loop

    constructor (kind: string, now: int)
      ensures View() == Fresh(kind, now)
    {
      this.kind, createdAt, state, startedAt, finishedAt := kind, now, Pending, None, None;
      result, error, cancelRequested, loop := None, None, false, Armed;
    }

    function View(): Record
      reads this
    {
      Record(kind, state, createdAt, startedAt, finishedAt, result, error, cancelRequested, loop)
    }

    /** The runner up to its call of the work function. */
    method Begin(now: int)
      modifies this
      ensures View() == Begun(old(View()), now)
      ensures state == Running && startedAt == Some(now) && finishedAt == old(finishedAt)
    {
      state := Running;
      startedAt := Some(now);
      loop := Active;
    }

    /** The runner from the end of the work function on. */
    method End(outcome: Outcome, now: int)
      modifies this
      ensures View() == Ended(old(View()), outcome, now)
      ensures state == match outcome
                       case Returned(_) => if old(cancelRequested) then Cancelled else Succeeded
                       case RaisedCancel => Cancelled
                       case RaisedError(_) => Failed
                       case Fatal => old(state)
      ensures result == if outcome.Returned? && !old(cancelRequested) then Some(outcome.value) else old(result)
      ensures error == if outcome.RaisedError? then Some(outcome.message) else old(error)
      ensures finishedAt == Some(now) && startedAt == old(startedAt) && cancelRequested == old(cancelRequested)
    {
      match outcome {
        case Returned(value) =>
          if cancelRequested {
            state := Cancelled;
          } else {
            state := Succeeded;
            result := Some(value);
          }
        case RaisedCancel =>
          state := Cancelled;
        case RaisedError(message) =>
          state := Failed;
          error := Some(message);
        case Fatal =>
      }
      finishedAt := Some(now);
      loop := Over;
    }

    method RequestCancel(now: int)
      modifies this
      ensures View() == CancelRequested(old(View()), now)
      ensures old(state) == Pending ==> state == Cancelled && cancelRequested && finishedAt == Some(now)
      ensures old(state) == Running ==> state == Running && cancelRequested && finishedAt == old(finishedAt)
    {
      if Terminal(state) {
        return;
      }
      cancelRequested := true;
      if state == Pending {
        state := Cancelled;
        finishedAt := Some(now);
      }
      loop := LoopCancelled(loop);
    }

    method Stop()
      modifies this
      ensures View() == ShutDown(old(View()))
    {
      if Terminal(state) {
        return;
      }
      cancelRequested := true;
      loop := LoopCancelled(loop);
    }
  }

  class Scheduler {
    var tasks: map<string, Task>
    const ttl: int

    ghost predicate Valid()
      reads this
    {
      forall i, j | i in tasks && j in tasks && i != j :: tasks[i] != tasks[j]
    }

    ghost function View(): Registry
      reads this, tasks.Values
    {
      map id | id in tasks :: tasks[id].View()
    }

    constructor (ttl: int)
      ensures Valid() && View() == map[] && this.ttl == ttl
    {
      this.ttl := ttl;
      tasks := map[];
    }

    method Enqueue(id: string, kind: string, now: int) returns (task: Task)
      requires Valid() && id !in tasks
      modifies this
      ensures Valid() && fresh(task) && id in tasks && tasks[id] == task
      ensures View() == Next(old(View()), Event.Enqueue(id, kind, now), ttl)
    {
      task := new Task(kind, now);
      tasks := tasks[id := task];
    }

    method Begin(id: string, now: int)
      requires Valid() && id in tasks
      modifies tasks[id]
      ensures Valid() && View() == Next(old(View()), Event.Begin(id, now), ttl)
    {
      tasks[id].Begin(now);
    }

    method End(id: string, outcome: Outcome, now: int)
      requires Valid() && id in tasks
      modifies tasks[id]
      ensures Valid() && View() == Next(old(View()), Event.End(id, outcome, now), ttl)
    {
      tasks[id].End(outcome, now);
    }

    /** Request cancellation; an unknown id is answered with none. */
    method Cancel(id: string, now: int) returns (task: Task?)
      requires Valid()
      modifies tasks.Values
      ensures Valid() && View() == Next(old(View()), Event.Cancel(id, now), ttl)
      ensures task == if id in tasks then tasks[id] else null
    {
      if id !in tasks {
        return null;
      }
      task := tasks[id];
      task.RequestCancel(now);
    }

    /** Ask one more task to stop. */
    method StopOne(id: string, ghost before: Registry, ghost left: set<string>)
      requires Valid() && id in tasks && id in before && id in left && View() == PartlyShutDown(before, left)
      modifies tasks[id]
      ensures Valid() && View() == PartlyShutDown(before, left - {id})
    {
      OneMoreShutDown(before, left, id);
      ghost var was := View();
      assert tasks[id].View() == was[id];
      tasks[id].Stop();
      assert View() == was[id := ShutDown(was[id])];
    }

    /** Ask every unfinished task to stop, one after the other. */
    method Shutdown()
      requires Valid()
      modifies tasks.Values
      ensures Valid() && View() == Next(old(View()), Event.Shutdown, ttl)
    {
      ghost var before := View();
      var left := tasks.Keys;
      while left != {}
        invariant left <= tasks.Keys && View() == PartlyShutDown(before, left)
        decreases |left|
      {
        var id :| id in left;
        StopOne(id, before, left);
        left := left - {id};
      }
      AllShutDown(before, ttl);
    }

    /** Drop terminal tasks that finished longer ago than the time to live, and say how many. */
    method Collect(now: int) returns (count: nat)
      requires Valid()
      modifies this
      ensures Valid() && View() == Next(old(View()), Event.Collect(now), ttl)
      ensures count == |set id | id in old(tasks) && Stale(old(tasks[id].View()), now, ttl)|
    {
      var stale := set id | id in tasks && Stale(tasks[id].View(), now, ttl);
      tasks := tasks - stale;
      count := |stale|;
    }
  }
}
