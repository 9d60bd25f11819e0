/** Double-checked initialisation, as `db()` and `embedder()` do it, by any number of threads. */
module LazyInit {
  import opened Model

  /** An object is named by how many were completed before it. */
  type Object = nat

  /** What a caller gets. */
  datatype Got = Obtained(o: Object) | Raised

  /** Where a caller is: before the unlocked check; past it, with the field set or not; holding the lock before
      the second check; constructing; with the new object in hand; about to release; about to read the field. */
  datatype Pc =
    | Start
    | Waiting
    | Holding
    | Building
    | Built(o: Object)
    | Releasing(failed: bool)
    | Reading
    | Returned(got: Got)

  predicate InLock(pc: Pc)
  {
    pc.Holding? || pc.Building? || pc.Built? || pc.Releasing?
  }

  datatype Machine = Machine(field: Option<Object>, lock: Option<nat>, completed: nat, pcs: seq<Pc>)

  /** The next step of caller `t`; `fails` says whether a construction that ends now raises. */
  function Step(m: Machine, t: nat, fails: bool): Option<Machine>
    requires t < |m.pcs|
  {
    match m.pcs[t]
    case Start => Some(m.(pcs := m.pcs[t := if m.field.Some? then Reading else Waiting]))
    case Waiting => if m.lock.Some? then None else Some(m.(lock := Some(t), pcs := m.pcs[t := Holding]))
    case Holding => Some(m.(pcs := m.pcs[t := if m.field.Some? then Releasing(false) else Building]))
    case Building =>
      if fails then Some(m.(pcs := m.pcs[t := Releasing(true)]))
      else Some(m.(completed := m.completed + 1, pcs := m.pcs[t := Built(m.completed)]))
    case Built(o) => Some(m.(field := Some(o), pcs := m.pcs[t := Releasing(false)]))
    case Releasing(failed) => Some(m.(lock := None, pcs := m.pcs[t := if failed then Returned(Raised) else Reading]))
    case Reading => if m.field.None? then None else Some(m.(pcs := m.pcs[t := Returned(Obtained(m.field.value))]))
    case Returned(_) => None
  }

  ghost predicate Steps(m: Machine, next: Machine)
  {
    exists t: nat, fails :: t < |m.pcs| && Step(m, t, fails) == Some(next)
  }

  ghost predicate Interleaved(run: seq<Machine>, n: nat)
  {
    && 0 < |run| && run[0] == Machine(None, None, 0, seq(n, _ => Start))
    && forall i | 0 <= i < |run| - 1 :: Steps(run[i], run[i + 1])
  }

  /** What one caller's place says about the shared state. */
  predicate Fits(m: Machine, pc: Pc)
  {
    match pc
    case Start => true
    case Waiting => true
    case Holding => true
    case Building => m.field.None? && m.completed == 0
    case Built(o) => m.field.None? && m.completed == 1 && o == 0
    case Releasing(failed) => failed || m.field.Some?
    case Reading => m.field.Some?
    case Returned(got) => got.Obtained? ==> m.field == Some(got.o)
  }

  ghost predicate Inv(m: Machine)
  {
    && (forall t: nat | t < |m.pcs| :: InLock(m.pcs[t]) <==> m.lock == Some(t))
    && (forall t: nat | t < |m.pcs| :: Fits(m, m.pcs[t]))
    && (m.field.Some? ==> m.field == Some(0) && m.completed == 1)
    && (m.field.None? ==> m.completed == 0 || exists t: nat :: t < |m.pcs| && m.pcs[t].Built?)
  }

  lemma StepKeepsInv(m: Machine, t: nat, fails: bool, next: Machine)
    requires Inv(m) && t < |m.pcs| && Step(m, t, fails) == Some(next)
    ensures Inv(next)
  {
    if m.pcs[t].Building? && !fails { assert next.pcs[t].Built?; }
    if next.field.None? && next.completed != 0 && !m.pcs[t].Building? {
      var u: nat :| u < |m.pcs| && m.pcs[u].Built?;
      assert InLock(m.pcs[u]) && next.pcs[u] == m.pcs[u];
    }
  }

  lemma {:induction false} RunKeepsInv(run: seq<Machine>, n: nat, k: nat)
    requires Interleaved(run, n) && k < |run|
    ensures Inv(run[k])
    decreases k
  {
    if k > 0 {
      RunKeepsInv(run, n, k - 1);
      assert Steps(run[k - 1], run[k - 1 + 1]);
      var t: nat, fails :| t < |run[k - 1].pcs| && Step(run[k - 1], t, fails) == Some(run[k]);
      StepKeepsInv(run[k - 1], t, fails, run[k]);
    }
  }

  /** However many threads race, and however often construction fails first, at most one construction
      completes, and every caller that is not answered with an exception gets the object it made. */
  lemma OneConstruction(run: seq<Machine>, n: nat, k: nat)
    requires Interleaved(run, n) && k < |run|
    ensures run[k].completed <= 1
    ensures forall t, u | 0 <= t < |run[k].pcs| && 0 <= u < |run[k].pcs| &&
                          run[k].pcs[t].Returned? && run[k].pcs[t].got.Obtained? &&
                          run[k].pcs[u].Returned? && run[k].pcs[u].got.Obtained? ::
              run[k].pcs[t].got == run[k].pcs[u].got && run[k].completed == 1
  {
    RunKeepsInv(run, n, k);
    var m := run[k];
    forall t, u | 0 <= t < |m.pcs| && 0 <= u < |m.pcs| && m.pcs[t].Returned? && m.pcs[t].got.Obtained? &&
                  m.pcs[u].Returned? && m.pcs[u].got.Obtained?
      ensures m.pcs[t].got == m.pcs[u].got && m.completed == 1
    {
      assert Fits(m, m.pcs[t]) && Fits(m, m.pcs[u]);
    }
    if t: nat :| t < |m.pcs| && m.pcs[t].Built? { assert Fits(m, m.pcs[t]); }
  }

  /** The construction of this caller raised in the step from `i`. */
  predicate FailedAt(run: seq<Machine>, i: nat, t: nat)
  {
    && i + 1 < |run| && t < |run[i].pcs| && t < |run[i + 1].pcs|
    && run[i].pcs[t].Building? && run[i + 1].pcs[t] == Releasing(true)
  }

  predicate Failing(pc: Pc)
  {
    pc == Releasing(true) || pc == Returned(Raised)
  }

  lemma {:induction false} FailingHasFailed(run: seq<Machine>, n: nat, k: nat, t: nat)
    requires Interleaved(run, n) && k < |run| && t < |run[k].pcs|
    ensures Failing(run[k].pcs[t]) <==> exists i: nat :: i < k && FailedAt(run, i, t)
    decreases k
  {
    if k > 0 {
      assert Steps(run[k - 1], run[k - 1 + 1]);
      FailingHasFailed(run, n, k - 1, t);
      if Failing(run[k].pcs[t]) && !Failing(run[k - 1].pcs[t]) { assert FailedAt(run, k - 1, t); }
    }
  }

  /** A caller is answered with an exception exactly if its own construction raised; else, once it has returned, with
      the one object there is. */
  lemma RaisedExactlyWhen(run: seq<Machine>, n: nat, k: nat, t: nat)
    requires Interleaved(run, n) && k < |run| && t < |run[k].pcs| && run[k].pcs[t].Returned?
    ensures if exists i: nat :: i < k && FailedAt(run, i, t) then run[k].pcs[t].got == Raised
            else run[k].pcs[t].got.Obtained? && run[k].completed == 1 && run[k].field == Some(run[k].pcs[t].got.o)
  {
    FailingHasFailed(run, n, k, t);
    RunKeepsInv(run, n, k);
    assert Fits(run[k], run[k].pcs[t]);
  }

  /** No caller is stuck: while one has not returned, some caller can take a step. */
  lemma SomeoneCanStep(run: seq<Machine>, n: nat, k: nat, t: nat)
    requires Interleaved(run, n) && k < |run| && t < |run[k].pcs| && !run[k].pcs[t].Returned?
    ensures exists next :: Steps(run[k], next)
  {
    RunKeepsInv(run, n, k);
    RunKeepsLock(run, n, k);
    var m := run[k];
    var u := if m.pcs[t].Waiting? && m.lock.Some? then m.lock.value else t;
    assert Fits(m, m.pcs[u]) && (u != t ==> InLock(m.pcs[u]));
    assert Step(m, u, false).Some?;
    assert Steps(m, Step(m, u, false).value);
  }

  lemma {:induction false} RunKeepsLock(run: seq<Machine>, n: nat, k: nat)
    requires Interleaved(run, n) && k < |run|
    ensures run[k].lock.Some? ==> run[k].lock.value < |run[k].pcs|
    decreases k
  {
    if k > 0 {
      RunKeepsLock(run, n, k - 1);
      assert Steps(run[k - 1], run[k - 1 + 1]);
    }
  }
}
