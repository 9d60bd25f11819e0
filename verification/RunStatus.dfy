/** The status fields an indexer run leaves, written and read field by field under the observability lock. */
module RunStatus {
  import opened Model

  /** What a run reports; the index states are absent when the run refreshed no index. */
  datatype RunResult = RunResult(at: int, duration: int, counts: string, fts: Option<string>, vector: Option<string>)

  /** The five fields `status` reads. */
  datatype Status = Status(
    at: Option<int>, duration: Option<int>, counts: Option<string>, fts: Option<string>, vector: Option<string>)

  const NO_STATUS := Status(None, None, None, None, None)

  /** The fields after one run: a run that refreshed no index leaves the last index state standing. */
  function Recorded(s: Status, r: RunResult): Status
  {
    Status(Some(r.at), Some(r.duration), Some(r.counts),
           if r.fts.Some? then r.fts else s.fts, if r.vector.Some? then r.vector else s.vector)
  }

  /** The fields after these runs, from the start. */
  function Fold(runs: seq<RunResult>): Status
  {
    if runs == [] then NO_STATUS else Recorded(Fold(runs[..|runs| - 1]), runs[|runs| - 1])
  }

  const FIELDS := 5

  /** The k-th assignment of a recording. */
  function Assign(s: Status, r: RunResult, k: nat): Status
    requires k < FIELDS
  {
    if k == 0 then s.(at := Some(r.at))
    else if k == 1 then s.(duration := Some(r.duration))
    else if k == 2 then s.(counts := Some(r.counts))
    else if k == 3 then if r.fts.Some? then s.(fts := r.fts) else s
    else if r.vector.Some? then s.(vector := r.vector) else s
  }

  /** The k-th read of a snapshot. */
  function Copy(into: Status, s: Status, k: nat): Status
    requires k < FIELDS
  {
    if k == 0 then into.(at := s.at)
    else if k == 1 then into.(duration := s.duration)
    else if k == 2 then into.(counts := s.counts)
    else if k == 3 then into.(fts := s.fts)
    else into.(vector := s.vector)
  }

  datatype Pc =
    | ToRecord(r: RunResult)
    | Recording(r: RunResult, k: nat)
    | RecordingDone
    | ToRead
    | Reading(copy: Status, k: nat)
    | ReadingDone(snapshot: Status)

  /** `runs` lists the recordings completed so far, in order. */
  datatype Machine = Machine(status: Status, lock: Option<nat>, runs: seq<RunResult>, pcs: seq<Pc>)

  function Step(m: Machine, t: nat): Option<Machine>
    requires t < |m.pcs|
  {
    match m.pcs[t]
    case ToRecord(r) => if m.lock.Some? then None else Some(m.(lock := Some(t), pcs := m.pcs[t := Recording(r, 0)]))
    case Recording(r, k) =>
      if k < FIELDS then Some(m.(status := Assign(m.status, r, k), pcs := m.pcs[t := Recording(r, k + 1)]))
      else Some(m.(lock := None, runs := m.runs + [r], pcs := m.pcs[t := RecordingDone]))
    case RecordingDone => None
    case ToRead => if m.lock.Some? then None else Some(m.(lock := Some(t), pcs := m.pcs[t := Reading(NO_STATUS, 0)]))
    case Reading(copy, k) =>
      if k < FIELDS then Some(m.(pcs := m.pcs[t := Reading(Copy(copy, m.status, k), k + 1)]))
      else Some(m.(lock := None, pcs := m.pcs[t := ReadingDone(copy)]))
    case ReadingDone(_) => None
  }

  ghost predicate Steps(m: Machine, next: Machine)
  {
    exists t: nat :: t < |m.pcs| && Step(m, t) == Some(next)
  }

  /** Any threads, each about to record or to read. */
  ghost predicate Interleaved(run: seq<Machine>)
  {
    && 0 < |run| && run[0] == Machine(NO_STATUS, None, [], run[0].pcs)
    && (forall t: nat | t < |run[0].pcs| :: run[0].pcs[t].ToRecord? || run[0].pcs[t].ToRead?)
    && forall i | 0 <= i < |run| - 1 :: Steps(run[i], run[i + 1])
  }

  predicate InLock(pc: Pc)
  {
    pc.Recording? || pc.Reading?
  }

  /** The first `k` fields are those of the recording, the others still those before it. */
  predicate PartlyRecorded(base: Status, s: Status, r: RunResult, k: nat)
  {
    var whole := Recorded(base, r);
    && k <= FIELDS
    && s.at == (if k > 0 then whole.at else base.at)
    && s.duration == (if k > 1 then whole.duration else base.duration)
    && s.counts == (if k > 2 then whole.counts else base.counts)
    && s.fts == (if k > 3 then whole.fts else base.fts)
    && s.vector == (if k > 4 then whole.vector else base.vector)
  }

  predicate PartlyRead(copy: Status, s: Status, k: nat)
  {
    && k <= FIELDS
    && (k > 0 ==> copy.at == s.at) && (k > 1 ==> copy.duration == s.duration) && (k > 2 ==> copy.counts == s.counts)
    && (k > 3 ==> copy.fts == s.fts) && (k > 4 ==> copy.vector == s.vector)
  }

  ghost predicate OfPrefix(runs: seq<RunResult>, s: Status)
  {
    exists n: nat :: n <= |runs| && s == Fold(runs[..n])
  }

  ghost predicate Inv(m: Machine)
  {
    && (forall t: nat | t < |m.pcs| :: InLock(m.pcs[t]) <==> m.lock == Some(t))
    && (m.lock.Some? ==> m.lock.value < |m.pcs|)
    && (if m.lock.Some? && m.pcs[m.lock.value].Recording?
        then PartlyRecorded(Fold(m.runs), m.status, m.pcs[m.lock.value].r, m.pcs[m.lock.value].k)
        else m.status == Fold(m.runs))
    && (forall t: nat | t < |m.pcs| && m.pcs[t].Reading? :: PartlyRead(m.pcs[t].copy, Fold(m.runs), m.pcs[t].k))
    && (forall t: nat | t < |m.pcs| && m.pcs[t].ReadingDone? :: OfPrefix(m.runs, m.pcs[t].snapshot))
  }

  lemma PrefixStays(runs: seq<RunResult>, r: RunResult, s: Status)
    requires OfPrefix(runs, s)
    ensures OfPrefix(runs + [r], s)
  {
    var n: nat :| n <= |runs| && s == Fold(runs[..n]);
    assert (runs + [r])[..n] == runs[..n];
  }

  lemma WholeIsPrefix(runs: seq<RunResult>)
    ensures OfPrefix(runs, Fold(runs))
  {
    assert runs[..|runs|] == runs;
  }

  lemma PrefixesStay(m: Machine, r: RunResult, u: nat)
    requires Inv(m) && u < |m.pcs| && m.pcs[u].ReadingDone?
    ensures OfPrefix(m.runs + [r], m.pcs[u].snapshot)
  {
    PrefixStays(m.runs, r, m.pcs[u].snapshot);
  }

  lemma FoldNext(runs: seq<RunResult>, r: RunResult)
    ensures Fold(runs + [r]) == Recorded(Fold(runs), r)
  {
    assert (runs + [r])[..|runs|] == runs;
  }

  lemma RecordingKeepsInv(m: Machine, t: nat, next: Machine)
    requires Inv(m) && t < |m.pcs| && Step(m, t) == Some(next) && m.pcs[t].Recording?
    ensures Inv(next)
  {
    if m.pcs[t].k == FIELDS {
      FoldNext(m.runs, m.pcs[t].r);
      forall u: nat | u < |m.pcs| && m.pcs[u].ReadingDone? ensures OfPrefix(next.runs, m.pcs[u].snapshot) {
        PrefixesStay(m, m.pcs[t].r, u);
      }
    }
  }

  lemma ReadingKeepsInv(m: Machine, t: nat, next: Machine)
    requires Inv(m) && t < |m.pcs| && Step(m, t) == Some(next) && m.pcs[t].Reading?
    ensures Inv(next)
  {
    WholeIsPrefix(m.runs);
  }

  lemma TakingKeepsInv(m: Machine, t: nat, next: Machine)
    requires Inv(m) && t < |m.pcs| && Step(m, t) == Some(next) && (m.pcs[t].ToRecord? || m.pcs[t].ToRead?)
    ensures Inv(next)
  {}

  lemma StepKeepsInv(m: Machine, t: nat, next: Machine)
    requires Inv(m) && t < |m.pcs| && Step(m, t) == Some(next)
    ensures Inv(next)
  {
    if m.pcs[t].Recording? {
      RecordingKeepsInv(m, t, next);
    } else if m.pcs[t].Reading? {
      ReadingKeepsInv(m, t, next);
    } else {
      TakingKeepsInv(m, t, next);
    }
  }

  lemma {:induction false} RunKeepsInv(run: seq<Machine>, k: nat)
    requires Interleaved(run) && k < |run|
    ensures Inv(run[k])
    decreases k
  {
    if k > 0 {
      RunKeepsInv(run, k - 1);
      assert Steps(run[k - 1], run[k - 1 + 1]);
      var t: nat :| t < |run[k - 1].pcs| && Step(run[k - 1], t) == Some(run[k]);
      StepKeepsInv(run[k - 1], t, run[k]);
    }
  }

  /** The state of the index that the latest of these runs to refresh it reported, if any did. */
  ghost predicate Latest(runs: seq<RunResult>, reported: RunResult -> Option<string>, s: Option<string>)
  {
    if s.None? then forall k | 0 <= k < |runs| :: reported(runs[k]).None?
    else exists k :: 0 <= k < |runs| && reported(runs[k]) == s && forall j | k < j < |runs| :: reported(runs[j]).None?
  }

  lemma LatestNext(runs: seq<RunResult>, r: RunResult, reported: RunResult -> Option<string>, s: Option<string>)
    requires Latest(runs, reported, s)
    ensures Latest(runs + [r], reported, if reported(r).Some? then reported(r) else s)
  {
    if reported(r).Some? {
      assert (runs + [r])[|runs|] == r;
    } else if s.Some? {
      var k :| 0 <= k < |runs| && reported(runs[k]) == s && forall j | k < j < |runs| :: reported(runs[j]).None?;
      assert (runs + [r])[k] == runs[k];
    }
  }

  lemma {:induction false} FoldLatest(runs: seq<RunResult>)
    ensures Latest(runs, (r: RunResult) => r.fts, Fold(runs).fts)
    ensures Latest(runs, (r: RunResult) => r.vector, Fold(runs).vector)
    decreases |runs|
  {
    if runs != [] {
      var init, last := runs[..|runs| - 1], runs[|runs| - 1];
      assert runs == init + [last];
      FoldLatest(init);
      LatestNext(init, last, (r: RunResult) => r.fts, Fold(init).fts);
      LatestNext(init, last, (r: RunResult) => r.vector, Fold(init).vector);
    }
  }

  /** What a snapshot says: time, duration and counts of the last of some first recorded runs, and of each index the
      state reported by the latest of these that refreshed it. */
  ghost predicate Tells(runs: seq<RunResult>, s: Status)
  {
    && s.at == (if runs == [] then None else Some(runs[|runs| - 1].at))
    && s.duration == (if runs == [] then None else Some(runs[|runs| - 1].duration))
    && s.counts == (if runs == [] then None else Some(runs[|runs| - 1].counts))
    && Latest(runs, (r: RunResult) => r.fts, s.fts)
    && Latest(runs, (r: RunResult) => r.vector, s.vector)
  }

  lemma FoldTells(runs: seq<RunResult>)
    ensures Tells(runs, Fold(runs))
  {
    FoldLatest(runs);
  }

  /** No snapshot is torn: in every interleaving each one tells of the runs recorded up to some point. */
  lemma SnapshotsAreWhole(run: seq<Machine>, k: nat, t: nat)
    requires Interleaved(run) && k < |run| && t < |run[k].pcs| && run[k].pcs[t].ReadingDone?
    ensures exists n: nat :: n <= |run[k].runs| && Tells(run[k].runs[..n], run[k].pcs[t].snapshot)
  {
    RunKeepsInv(run, k);
    var n: nat :| n <= |run[k].runs| && run[k].pcs[t].snapshot == Fold(run[k].runs[..n]);
    FoldTells(run[k].runs[..n]);
  }

  /** The fields as the application object holds them; both methods run with the observability lock held. */
  class Observability {
    var at: Option<int>
    var duration: Option<int>
    var counts: Option<string>
    var fts: Option<string>
    var vector: Option<string>
    ghost var runs: seq<RunResult>

    ghost predicate Valid()
      reads this
    {
      Status(at, duration, counts, fts, vector) == Fold(runs)
    }

    constructor ()
      ensures Valid() && runs == []
    {
      at, duration, counts, fts, vector, runs := None, None, None, None, None, [];
    }

    /** The fields stay the fold of all runs recorded so far. */
    method Record(r: RunResult)
      requires Valid()
      modifies this
      ensures Valid() && runs == old(runs) + [r]
    {
      at := Some(r.at);
      duration := Some(r.duration);
      counts := Some(r.counts);
      if r.fts.Some? {
        fts := r.fts;
      }
      if r.vector.Some? {
        vector := r.vector;
      }
      runs := runs + [r];
      assert runs[..|runs| - 1] == old(runs);
    }

    method Snapshot() returns (s: Status)
      requires Valid()
      ensures s == Fold(runs) && Tells(runs, s)
    {
      FoldTells(runs);
      s := Status(at, duration, counts, fts, vector);
    }
  }
}
