/** Any number of writers interleaved under the corpus mutex. */
module Mutexes {
  import opened Model
  import opened Stores
  import opened Handlers

  // ---- the machine ----

  datatype Answer = One(reply: Reply) | Many(batch: BatchReply) | Whole(rebuild: RebuildReply)

  /** What a writer decides once it has read the tables and the files: to stop, or to change the stores
      and answer, after a pass if `indexed`. */
  datatype Intent = Stop(answer: Answer) | Change(stores: Site, answer: Answer, indexed: bool)

  /** What one writer does: its answer if it is refused before it takes the mutex, what it intends given the
      stores it reads, and the pass that follows its writes, from the stores the pass reads. */
  datatype Writer = Writer(
    refusal: Option<Answer>, intend: (Files, Tables, set<TableName>) -> Intent, pass: Site -> Site)

  /** Where a writer's thread is. From `Locked` to `Leaving` it holds the lock: it records itself as holder,
      opens the tables, reads the file and plans, makes its writes, reads both stores for the pass, makes the
      writes of the pass, clears the holder, releases. */
  datatype Pc =
    | Start
    | Locked
    | Entered
    | Located(tables: Tables, missing: set<TableName>)
    | Planned(intent: Intent)
    | Written(answer: Answer)
    | Scanned(stores: Site, answer: Answer)
    | Ending(answer: Answer)
    | Leaving(answer: Answer)
    | Finished(answer: Answer)

  predicate InCritical(pc: Pc)
  {
    !pc.Start? && !pc.Finished?
  }

  /** The mutex's lock, and the holder and the counter it keeps under a second lock. */
  datatype Machine = Machine(shared: Site, lock: Option<nat>, holder: Option<nat>, acquired: nat, pcs: seq<Pc>)

  /** The next step of thread `t`, or none if it is blocked or finished. */
  function Step(ws: seq<Writer>, m: Machine, t: nat): Option<Machine>
    requires t < |m.pcs| == |ws|
  {
    var w := ws[t];
    match m.pcs[t]
    case Start =>
      if w.refusal.Some? then Some(m.(pcs := m.pcs[t := Finished(w.refusal.value)]))
      else if m.lock.Some? then None
      else Some(m.(lock := Some(t), pcs := m.pcs[t := Locked]))
    case Locked =>
      Some(m.(holder := Some(t), acquired := m.acquired + 1, pcs := m.pcs[t := Entered]))
    case Entered =>
      Some(m.(pcs := m.pcs[t := Located(m.shared.state.tables, m.shared.missing)]))
    case Located(tables, missing) =>
      var intent := w.intend(m.shared.state.files, tables, missing);
      Some(m.(pcs := m.pcs[t := if intent.Stop? then Ending(intent.answer) else Planned(intent)]))
    case Planned(intent) =>
      if intent.Stop? then None
      else
        Some(m.(shared := intent.stores,
                pcs := m.pcs[t := if intent.indexed then Written(intent.answer) else Ending(intent.answer)]))
    case Written(answer) =>
      Some(m.(pcs := m.pcs[t := Scanned(m.shared, answer)]))
    case Scanned(stores, answer) =>
      Some(m.(shared := w.pass(stores), pcs := m.pcs[t := Ending(answer)]))
    case Ending(answer) =>
      Some(m.(holder := None, pcs := m.pcs[t := Leaving(answer)]))
    case Leaving(answer) =>
      Some(m.(lock := None, pcs := m.pcs[t := Finished(answer)]))
    case Finished(_) => None
  }

  /** The thread is making the writes it intends, or those of its pass. */
  predicate Writes(pc: Pc)
  {
    pc.Planned? || pc.Scanned?
  }

  /** One of several writes: until the last one is made, the stores may be in any state whatever. */
  predicate WritesPart(m: Machine, t: nat, next: Machine)
    requires t < |m.pcs|
  {
    Writes(m.pcs[t]) && next == m.(shared := next.shared)
  }

  function Initial(s: Site, n: nat): Machine
  {
    Machine(s, None, None, 0, seq(n, _ => Start))
  }

  ghost predicate Steps(ws: seq<Writer>, m: Machine, next: Machine)
  {
    |m.pcs| == |ws| && exists t :: 0 <= t < |ws| && (Step(ws, m, t) == Some(next) || WritesPart(m, t, next))
  }

  /** A run: at each point some thread takes its next step, or makes one of the writes of a step. */
  ghost predicate Interleaved(ws: seq<Writer>, run: seq<Machine>, s: Site)
  {
    && 0 < |run| && run[0] == Initial(s, |ws|)
    && forall i | 0 <= i < |run| - 1 :: Steps(ws, run[i], run[i + 1])
  }

  // ---- the same writers one after the other ----

  /** A writer that has both stores to itself. */
  function Alone(w: Writer, s: Site): (Site, Answer)
  {
    if w.refusal.Some? then (s, w.refusal.value)
    else
      match w.intend(s.state.files, s.state.tables, s.missing)
      case Stop(answer) => (s, answer)
      case Change(stores, answer, indexed) => (if indexed then w.pass(stores) else stores, answer)
  }

  predicate Names(order: seq<nat>, n: nat)
  {
    forall i | 0 <= i < |order| :: order[i] < n
  }

  /** The stores after these writers, one at a time in this order. */
  function InOrder(ws: seq<Writer>, s: Site, order: seq<nat>): Site
    requires Names(order, |ws|)
  {
    if order == [] then s
    else Alone(ws[order[|order| - 1]], InOrder(ws, s, order[..|order| - 1])).0
  }

  function AnswerInOrder(ws: seq<Writer>, s: Site, order: seq<nat>, k: nat): Answer
    requires Names(order, |ws|) && k < |order|
  {
    Alone(ws[order[k]], InOrder(ws, s, order[..k])).1
  }

  // ---- the invariant ----

  ghost predicate HasWritten(base: Site, shared: Site, w: Writer, answer: Answer)
  {
    w.intend(base.state.files, base.state.tables, base.missing) == Change(shared, answer, true)
  }

  /** How far the thread in the critical section has got from the state `base` it found. */
  ghost predicate Doing(base: Site, shared: Site, w: Writer, pc: Pc)
  {
    && w.refusal.None?
    && match pc
       case Start => false
       case Locked => shared == base
       case Entered => shared == base
       case Located(tables, missing) => shared == base && tables == base.state.tables && missing == base.missing
       case Planned(intent) =>
         intent.Change? && intent == w.intend(base.state.files, base.state.tables, base.missing)
       case Written(answer) => HasWritten(base, shared, w, answer)
       case Scanned(stores, answer) => HasWritten(base, stores, w, answer)
       case Ending(answer) => (shared, answer) == Alone(w, base)
       case Leaving(answer) => (shared, answer) == Alone(w, base)
       case Finished(_) => false
  }

  function Answers(ws: seq<Writer>, s: Site, order: seq<nat>): seq<Answer>
    requires Names(order, |ws|)
  {
    seq(|order|, k requires 0 <= k < |order| => AnswerInOrder(ws, s, order, k))
  }

  /** The finished threads in the order they finished, each with its answer. */
  ghost predicate FinishedIn(pcs: seq<Pc>, order: seq<nat>, answers: seq<Answer>)
  {
    && Names(order, |pcs|) && |answers| == |order|
    && (forall i, j | 0 <= i < j < |order| :: order[i] != order[j])
    && (forall t: nat | t < |pcs| :: pcs[t].Finished? <==> t in order)
    && (forall k | 0 <= k < |order| :: pcs[order[k]] == Finished(answers[k]))
  }

  ghost predicate Exclusive(m: Machine)
  {
    && (forall t: nat | t < |m.pcs| :: InCritical(m.pcs[t]) <==> m.lock == Some(t))
    && (m.lock.Some? ==> m.lock.value < |m.pcs|)
  }

  ghost predicate InStep(ws: seq<Writer>, m: Machine, base: Site)
    requires |m.pcs| == |ws| && Exclusive(m)
  {
    if m.lock.None? then m.shared == base
    else Doing(base, m.shared, ws[m.lock.value], m.pcs[m.lock.value])
  }

  ghost predicate Inv(ws: seq<Writer>, m: Machine, s: Site, order: seq<nat>)
  {
    && |m.pcs| == |ws| && Names(order, |ws|)
    && FinishedIn(m.pcs, order, Answers(ws, s, order)) && Exclusive(m) && InStep(ws, m, InOrder(ws, s, order))
  }

  // ---- every step keeps it ----

  lemma StepInside(ws: seq<Writer>, m: Machine, t: nat, base: Site, next: Machine)
    requires t < |m.pcs| == |ws| && Doing(base, m.shared, ws[t], m.pcs[t])
    requires Step(ws, m, t) == Some(next) && !m.pcs[t].Leaving?
    ensures Doing(base, next.shared, ws[t], next.pcs[t]) && InCritical(next.pcs[t])
    ensures next.lock == m.lock && next.pcs == m.pcs[t := next.pcs[t]]
  {}

  lemma OrderGrows(ws: seq<Writer>, s: Site, order: seq<nat>, t: nat)
    requires t < |ws| && Names(order, |ws|)
    ensures Names(order + [t], |ws|)
    ensures InOrder(ws, s, order + [t]) == Alone(ws[t], InOrder(ws, s, order)).0
    ensures Answers(ws, s, order + [t]) == Answers(ws, s, order) + [Alone(ws[t], InOrder(ws, s, order)).1]
  {
    assert (order + [t])[..|order|] == order;
    forall k | 0 <= k < |order| ensures AnswerInOrder(ws, s, order + [t], k) == AnswerInOrder(ws, s, order, k) {
      assert (order + [t])[..k] == order[..k];
    }
  }

  lemma AppendedOrder(order: seq<nat>, t: nat)
    ensures forall x: nat :: x in order + [t] <==> x in order || x == t
    ensures forall k | 0 <= k < |order| :: order[k] in order && (order + [t])[k] == order[k]
  {}

  /** A thread that finishes joins the order at its end. */
  lemma FinishJoins(pcs: seq<Pc>, order: seq<nat>, answers: seq<Answer>, t: nat, answer: Answer)
    requires t < |pcs| && FinishedIn(pcs, order, answers) && !pcs[t].Finished?
    ensures FinishedIn(pcs[t := Finished(answer)], order + [t], answers + [answer])
  {
    AppendedOrder(order, t);
  }

  lemma OthersStay(pcs: seq<Pc>, order: seq<nat>, answers: seq<Answer>, t: nat, pc: Pc)
    requires t < |pcs| && FinishedIn(pcs, order, answers) && !pcs[t].Finished? && !pc.Finished?
    ensures FinishedIn(pcs[t := pc], order, answers)
  {
    AppendedOrder(order, t);
  }

  lemma JoinKeepsInv(
    ws: seq<Writer>, m: Machine, s: Site, order: seq<nat>, t: nat, next: Machine, after: Site, answer: Answer)
    requires Inv(ws, m, s, order) && t < |ws| && !m.pcs[t].Finished?
    requires (after, answer) == Alone(ws[t], InOrder(ws, s, order)) && next.pcs == m.pcs[t := Finished(answer)]
    requires Exclusive(next) && InStep(ws, next, after)
    ensures Inv(ws, next, s, order + [t])
  {
    OrderGrows(ws, s, order, t);
    FinishJoins(m.pcs, order, Answers(ws, s, order), t, answer);
  }

  lemma RefusingStep(ws: seq<Writer>, m: Machine, s: Site, order: seq<nat>, t: nat, next: Machine)
    requires Inv(ws, m, s, order) && t < |ws| && Step(ws, m, t) == Some(next)
    requires m.pcs[t].Start? && ws[t].refusal.Some?
    ensures Inv(ws, next, s, order + [t])
  {
    JoinKeepsInv(ws, m, s, order, t, next, InOrder(ws, s, order), ws[t].refusal.value);
  }

  lemma ReleasingStep(ws: seq<Writer>, m: Machine, s: Site, order: seq<nat>, t: nat, next: Machine)
    requires Inv(ws, m, s, order) && t < |ws| && Step(ws, m, t) == Some(next)
    requires m.pcs[t].Leaving?
    ensures Inv(ws, next, s, order + [t])
  {
    assert InCritical(m.pcs[t]) && m.lock == Some(t);
    JoinKeepsInv(ws, m, s, order, t, next, m.shared, m.pcs[t].answer);
  }

  lemma AcquiringStep(ws: seq<Writer>, m: Machine, s: Site, order: seq<nat>, t: nat, next: Machine)
    requires Inv(ws, m, s, order) && t < |ws| && Step(ws, m, t) == Some(next)
    requires m.pcs[t].Start? && ws[t].refusal.None?
    ensures Inv(ws, next, s, order)
  {
    OthersStay(m.pcs, order, Answers(ws, s, order), t, Locked);
  }

  lemma InnerStep(ws: seq<Writer>, m: Machine, s: Site, order: seq<nat>, t: nat, next: Machine)
    requires Inv(ws, m, s, order) && t < |ws| && Step(ws, m, t) == Some(next)
    requires InCritical(m.pcs[t]) && !m.pcs[t].Leaving?
    ensures Inv(ws, next, s, order)
  {
    assert m.lock == Some(t);
    StepInside(ws, m, t, InOrder(ws, s, order), next);
    OthersStay(m.pcs, order, Answers(ws, s, order), t, next.pcs[t]);
  }

  lemma StepKeepsInv(ws: seq<Writer>, m: Machine, s: Site, order: seq<nat>, t: nat, next: Machine)
    returns (after: seq<nat>)
    requires Inv(ws, m, s, order) && t < |ws| && Step(ws, m, t) == Some(next)
    ensures Inv(ws, next, s, after)
  {
    after := order;
    if m.pcs[t].Leaving? {
      ReleasingStep(ws, m, s, order, t, next);
      after := order + [t];
    } else if m.pcs[t].Start? && ws[t].refusal.Some? {
      RefusingStep(ws, m, s, order, t, next);
      after := order + [t];
    } else if m.pcs[t].Start? {
      AcquiringStep(ws, m, s, order, t, next);
    } else {
      InnerStep(ws, m, s, order, t, next);
    }
  }

  lemma PartKeepsInv(ws: seq<Writer>, m: Machine, s: Site, order: seq<nat>, t: nat, next: Machine)
    requires Inv(ws, m, s, order) && t < |ws| && WritesPart(m, t, next)
    ensures Inv(ws, next, s, order)
  {
    assert InCritical(m.pcs[t]) && m.lock == Some(t);
  }

  lemma AnyStepKeepsInv(ws: seq<Writer>, m: Machine, s: Site, order: seq<nat>, next: Machine)
    returns (after: seq<nat>)
    requires Inv(ws, m, s, order) && Steps(ws, m, next)
    ensures Inv(ws, next, s, after)
  {
    var t :| 0 <= t < |ws| && (Step(ws, m, t) == Some(next) || WritesPart(m, t, next));
    after := order;
    if WritesPart(m, t, next) {
      PartKeepsInv(ws, m, s, order, t, next);
    } else {
      after := StepKeepsInv(ws, m, s, order, t, next);
    }
  }

  lemma {:induction false} RunKeepsInv(ws: seq<Writer>, run: seq<Machine>, s: Site, k: nat) returns (order: seq<nat>)
    requires Interleaved(ws, run, s) && k < |run|
    ensures Inv(ws, run[k], s, order)
    decreases k
  {
    order := [];
    if k > 0 {
      var before := RunKeepsInv(ws, run, s, k - 1);
      assert Steps(ws, run[k - 1], run[k - 1 + 1]);
      order := AnyStepKeepsInv(ws, run[k - 1], s, before, run[k]);
    }
  }

  // ---- what follows for every run ----

  /** At any moment at most one thread is between acquiring and releasing the mutex. */
  lemma MutualExclusion(ws: seq<Writer>, run: seq<Machine>, s: Site, k: nat, t: nat, u: nat)
    requires Interleaved(ws, run, s) && k < |run| && t < |run[k].pcs| && u < |run[k].pcs|
    requires InCritical(run[k].pcs[t]) && InCritical(run[k].pcs[u])
    ensures t == u
  {
    var _ := RunKeepsInv(ws, run, s, k);
  }

  ghost predicate AllFinished(m: Machine)
  {
    forall t: nat | t < |m.pcs| :: m.pcs[t].Finished?
  }

  /** Each of `n` threads once. */
  ghost predicate Permutation(order: seq<nat>, n: nat)
  {
    && Names(order, n)
    && (forall i, j | 0 <= i < j < |order| :: order[i] != order[j])
    && (forall t: nat | t < n :: t in order)
  }

  /** However the writers interleave, once all have finished, the stores and every answer are those of the
      same writers run one at a time, in the order they finished. */
  lemma Serialisable(ws: seq<Writer>, run: seq<Machine>, s: Site) returns (order: seq<nat>)
    requires Interleaved(ws, run, s) && AllFinished(run[|run| - 1])
    ensures Permutation(order, |ws|)
    ensures run[|run| - 1].shared == InOrder(ws, s, order)
    ensures |run[|run| - 1].pcs| == |ws|
    ensures forall k | 0 <= k < |order| ::
              run[|run| - 1].pcs[order[k]] == Finished(AnswerInOrder(ws, s, order, k))
  {
    order := RunKeepsInv(ws, run, s, |run| - 1);
  }

  /** No deadlock: while some thread is not finished, some thread can take its next step. */
  lemma SomeoneCanStep(ws: seq<Writer>, run: seq<Machine>, s: Site, k: nat)
    requires Interleaved(ws, run, s) && k < |run| && !AllFinished(run[k])
    ensures |run[k].pcs| == |ws| && exists t :: 0 <= t < |ws| && Step(ws, run[k], t).Some?
  {
    var order := RunKeepsInv(ws, run, s, k);
    var m := run[k];
    var t: nat :| t < |m.pcs| && !m.pcs[t].Finished?;
    if m.lock.Some? {
      t := m.lock.value;
      assert InCritical(m.pcs[t]);
    }
    assert Step(ws, m, t).Some?;
  }

  // ---- the holder and the counter ----

  /** The holder is recorded after the lock is taken and cleared before it is released. */
  predicate Recorded(pc: Pc)
  {
    InCritical(pc) && !pc.Locked? && !pc.Leaving?
  }

  /** The threads that have recorded an acquisition. */
  function Counted(ws: seq<Writer>, pcs: seq<Pc>): set<nat>
    requires |pcs| == |ws|
  {
    set t: nat | t < |pcs| && ws[t].refusal.None? && !pcs[t].Start? && !pcs[t].Locked?
  }

  ghost predicate Metrics(ws: seq<Writer>, m: Machine)
  {
    && |m.pcs| == |ws| && Exclusive(m)
    && (forall t: nat | t < |m.pcs| :: m.holder == Some(t) <==> Recorded(m.pcs[t]))
    && (m.holder.Some? ==> m.holder.value < |m.pcs|)
    && (forall t: nat | t < |m.pcs| && InCritical(m.pcs[t]) :: ws[t].refusal.None?)
    && m.acquired == |Counted(ws, m.pcs)|
  }

  /** What a step of thread `t` does to lock, holder and counter, by where it starts. */
  lemma StepMetrics(ws: seq<Writer>, m: Machine, t: nat, next: Machine)
    requires t < |ws| == |m.pcs| && Step(ws, m, t) == Some(next)
    ensures |next.pcs| == |ws| && next.pcs == m.pcs[t := next.pcs[t]]
    ensures next.lock == (if m.pcs[t].Start? && ws[t].refusal.None? then Some(t)
                          else if m.pcs[t].Leaving? then None else m.lock)
    ensures next.holder == (if m.pcs[t].Locked? then Some(t) else if m.pcs[t].Ending? then None else m.holder)
    ensures next.acquired == m.acquired + (if m.pcs[t].Locked? then 1 else 0)
    ensures InCritical(next.pcs[t])
       <==> !m.pcs[t].Leaving? && !(m.pcs[t].Start? && ws[t].refusal.Some?)
    ensures Recorded(next.pcs[t]) <==> m.pcs[t].Locked? || (Recorded(m.pcs[t]) && !m.pcs[t].Ending?)
    ensures m.pcs[t].Start? && ws[t].refusal.None? ==> m.lock.None? && next.pcs[t].Locked?
    ensures !m.pcs[t].Start? ==> !next.pcs[t].Start? && !next.pcs[t].Locked?
  {}

  lemma CountedAt(ws: seq<Writer>, pcs: seq<Pc>, t: nat, pc: Pc, u: nat)
    requires t < |pcs| == |ws|
    ensures u in Counted(ws, pcs[t := pc])
       <==> if u == t then ws[t].refusal.None? && !pc.Start? && !pc.Locked? else u in Counted(ws, pcs)
  {}

  lemma CountedMove(ws: seq<Writer>, pcs: seq<Pc>, t: nat, pc: Pc)
    requires t < |pcs| == |ws| && ws[t].refusal.None? && pcs[t].Locked? && !pc.Start? && !pc.Locked?
    ensures |Counted(ws, pcs[t := pc])| == |Counted(ws, pcs)| + 1
  {
    var before, after := Counted(ws, pcs), Counted(ws, pcs[t := pc]);
    forall u: nat ensures u in after <==> u == t || u in before { CountedAt(ws, pcs, t, pc, u); }
    assert after == before + {t};
    CountedAt(ws, pcs, t, pcs[t], t);
  }

  lemma CountedStays(ws: seq<Writer>, pcs: seq<Pc>, t: nat, pc: Pc)
    requires t < |pcs| == |ws|
    requires ws[t].refusal.None? ==> ((pcs[t].Start? || pcs[t].Locked?) <==> (pc.Start? || pc.Locked?))
    ensures Counted(ws, pcs[t := pc]) == Counted(ws, pcs)
  {}

  lemma StepKeepsCount(ws: seq<Writer>, m: Machine, t: nat, next: Machine)
    requires Metrics(ws, m) && t < |ws| && Step(ws, m, t) == Some(next)
    ensures |next.pcs| == |ws| && next.acquired == |Counted(ws, next.pcs)|
  {
    StepMetrics(ws, m, t, next);
    if m.pcs[t].Locked? {
      assert InCritical(m.pcs[t]);
      CountedMove(ws, m.pcs, t, next.pcs[t]);
    } else {
      CountedStays(ws, m.pcs, t, next.pcs[t]);
    }
  }

  lemma StepKeepsMetrics(ws: seq<Writer>, m: Machine, t: nat, next: Machine)
    requires Metrics(ws, m) && t < |ws| && Step(ws, m, t) == Some(next)
    ensures Metrics(ws, next)
  {
    StepMetrics(ws, m, t, next);
    StepKeepsCount(ws, m, t, next);
    assert InCritical(m.pcs[t]) ==> m.lock == Some(t);
  }

  lemma AnyStepKeepsMetrics(ws: seq<Writer>, m: Machine, next: Machine)
    requires Metrics(ws, m) && Steps(ws, m, next)
    ensures Metrics(ws, next)
  {
    var t :| 0 <= t < |ws| && (Step(ws, m, t) == Some(next) || WritesPart(m, t, next));
    if !WritesPart(m, t, next) { StepKeepsMetrics(ws, m, t, next); }
  }

  lemma {:induction false} RunKeepsMetrics(ws: seq<Writer>, run: seq<Machine>, s: Site, k: nat)
    requires Interleaved(ws, run, s) && k < |run|
    ensures Metrics(ws, run[k])
    decreases k
  {
    if k > 0 {
      RunKeepsMetrics(ws, run, s, k - 1);
      assert Steps(ws, run[k - 1], run[k - 1 + 1]);
      AnyStepKeepsMetrics(ws, run[k - 1], run[k]);
    } else {
      assert Counted(ws, run[0].pcs) == {};
    }
  }

  /** The mutex is seen locked with no holder exactly while a thread is between taking the lock and recording
      itself, or between clearing the holder and releasing: the second lock does not rule this out. */
  lemma LockedWithoutHolder(ws: seq<Writer>, run: seq<Machine>, s: Site, k: nat)
    requires Interleaved(ws, run, s) && k < |run|
    ensures run[k].lock.Some? && run[k].holder.None?
       <==> exists t: nat :: t < |run[k].pcs| && (run[k].pcs[t].Locked? || run[k].pcs[t].Leaving?)
    ensures run[k].holder.Some? ==> run[k].lock == run[k].holder
  {
    RunKeepsMetrics(ws, run, s, k);
    var m := run[k];
    if m.lock.Some? && m.holder.None? {
      assert InCritical(m.pcs[m.lock.value]) && !Recorded(m.pcs[m.lock.value]);
    }
    if t: nat :| t < |m.pcs| && (m.pcs[t].Locked? || m.pcs[t].Leaving?) {
      assert InCritical(m.pcs[t]) && m.lock == Some(t) && !Recorded(m.pcs[t]);
    }
  }

  /** One thread and one step suffice to see it. */
  lemma LockedWithoutHolderHappens(w: Writer, s: Site)
    requires w.refusal.None?
    ensures exists run: seq<Machine> ::
              Interleaved([w], run, s) && |run| > 1 && run[1].lock.Some? && run[1].holder.None?
  {
    var start := Initial(s, 1);
    var next := Step([w], start, 0).value;
    assert Steps([w], start, next);
    assert Interleaved([w], [start, next], s);
  }

  /** Once all have finished, the mutex has counted one acquisition for each writer that was not refused up front. */
  lemma EveryAcquisitionCounts(ws: seq<Writer>, run: seq<Machine>, s: Site)
    requires Interleaved(ws, run, s) && AllFinished(run[|run| - 1])
    ensures run[|run| - 1].acquired == |set t: nat | t < |ws| && ws[t].refusal.None?|
    ensures run[|run| - 1].lock.None? && run[|run| - 1].holder.None?
  {
    RunKeepsMetrics(ws, run, s, |run| - 1);
    assert Counted(ws, run[|run| - 1].pcs) == set t: nat | t < |ws| && ws[t].refusal.None?;
  }
}
