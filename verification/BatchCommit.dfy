/** Exactly when phase 3 of `write_batch` runs to the end. */
module BatchCommit {
  import opened Model
  import opened IndexPages
  import opened Stores
  import opened Address
  import opened Handlers
  import opened Keeping
  import opened Commits

  // ---- what the request list says of a path ----

  /** The path a page write goes to, computed from the kind and the id it ends up with. */
  function WritePathOf(op: Op): string
    requires op.WritePage? && Validate(op).None?
  {
    TargetPath(op.page.kind, Effective(op).id)
  }

  /** The file at this path can be read after these requests: it could be before, or one of them wrote it. */
  ghost predicate ReadableAfter(files: Files, ops: seq<Op>, path: string)
    requires AllValid(ops)
  {
    if ops == [] then Parses(files, path)
    else
      var init, last := ops[..|ops| - 1], ops[|ops| - 1];
      assert last in ops && forall op | op in init :: op in ops;
      (last.WritePage? && WritePathOf(last) == path) || ReadableAfter(files, init, path)
  }

  /** The page at this path has this claim after these requests: the last of them to overwrite the file brought it
      along, or a later one added it; before any of them it was there on the disk. */
  ghost predicate HoldsAfter(files: Files, tables: Tables, ops: seq<Op>, path: string, claimId: string)
    requires AllValid(ops)
  {
    if ops == [] then Holds(files, path, claimId)
    else
      var init, last := ops[..|ops| - 1], ops[|ops| - 1];
      assert last in ops && forall op | op in init :: op in ops;
      if last.WritePage? && WritePathOf(last) == path then HasClaim(last.page.claims, claimId)
      else if AddsClaim(tables, last, path, claimId) then true
      else HoldsAfter(files, tables, init, path, claimId)
  }

  predicate Holds(files: Files, path: string, claimId: string)
  {
    Parses(files, path) && HasClaim(PageAt(files, path).claims, claimId)
  }

  predicate AddsClaim(tables: Tables, op: Op, path: string, claimId: string)
  {
    op.AddClaim? && op.pageId in tables.pages && tables.pages[op.pageId].path == path && op.claim.id == claimId
  }

  /** Request `k` goes through once those before it have, read off the request list, the index and the disk
      as they are before the batch. */
  ghost predicate Goes(s: State, ops: seq<Op>, k: nat)
    requires k < |ops| && AllValid(ops)
  {
    var op := ops[k];
    if op.WritePage? then IsSlugCreate(op) ==> ValidId(Effective(op).id) && Effective(op).id !in s.tables.pages
    else
      && op.pageId in s.tables.pages
      && ReadableAfter(s.files, Prefix(ops, k), s.tables.pages[op.pageId].path)
      && (op.UpdateClaim? ==>
            HoldsAfter(s.files, s.tables, Prefix(ops, k), s.tables.pages[op.pageId].path, op.claimId))
  }

  ghost predicate AllGo(s: State, ops: seq<Op>, k: nat)
    requires k <= |ops| && AllValid(ops)
  {
    forall i | 0 <= i < k :: Goes(s, ops, i)
  }

  // ---- claims of one page across one request ----

  lemma {:induction false} SetClaimKeepsIds(claims: seq<Claim>, id: string, claim: Claim, x: string)
    requires claim.id == id
    ensures HasClaim(SetClaim(claims, id, claim), x) <==> HasClaim(claims, x)
    decreases |claims|
  {
    if claims != [] {
      var rest := claims[1..];
      assert claims == [claims[0]] + rest;
      SetClaimKeepsIds(rest, id, claim, x);
      if claims[0].id == id {
        assert forall c | c in [claim] + rest :: c == claim || c in rest;
        assert forall c | c in claims :: c == claims[0] || c in rest;
        assert ([claim] + rest)[0] == claim && claim in [claim] + rest;
        assert forall c | c in rest :: c in [claim] + rest;
      } else {
        var tail := SetClaim(rest, id, claim);
        assert forall c :: c in [claims[0]] + tail <==> c == claims[0] || c in tail;
        assert forall c :: c in claims <==> c == claims[0] || c in rest;
      }
    }
  }

  lemma AmendedClaims(path: string, page: Page, op: Op, claimId: string)
    requires Batchable(op) && !op.WritePage? && Validate(op).None?
    ensures var plan := PlanAmend(path, page, op);
            plan.Write? ==>
              (plan.path == path &&
               (HasClaim(plan.page.claims, claimId)
                <==> HasClaim(page.claims, claimId) || (op.AddClaim? && op.claim.id == claimId)))
    ensures PlanAmend(path, page, op).Nothing? && op.AddClaim? && op.claim.id == claimId
            ==> HasClaim(page.claims, claimId)
  {
    if op.UpdateClaim? { SetClaimKeepsIds(page.claims, op.claimId, op.claim, claimId); }
    if op.AddClaim? {
      assert forall c :: c in page.claims + [op.claim] <==> c in page.claims || c == op.claim;
    }
  }

  // ---- one path across one request ----

  lemma WriteLands(disk: Files, tables: Tables, op: Op)
    requires op.WritePage? && Validate(op).None? && !PlanOf(disk, tables, op).Fail?
    ensures PlanOf(disk, tables, op) == Write(WritePathOf(op), Effective(op))
    ensures Effective(op).claims == op.page.claims
  {}

  lemma AmendLands(disk: Files, tables: Tables, op: Op)
    requires !op.WritePage? && Validate(op).None? && !PlanOf(disk, tables, op).Fail?
    ensures op.pageId in tables.pages && Parses(disk, tables.pages[op.pageId].path)
    ensures PlanOf(disk, tables, op)
         == PlanAmend(tables.pages[op.pageId].path, PageAt(disk, tables.pages[op.pageId].path), op)
  {}

  lemma ReadableStep(disk: Files, tables: Tables, op: Op, path: string)
    requires Batchable(op) && Validate(op).None? && !PlanOf(disk, tables, op).Fail?
    ensures Parses(Applied(disk, PlanOf(disk, tables, op)), path)
       <==> (op.WritePage? && WritePathOf(op) == path) || Parses(disk, path)
  {
    if op.WritePage? {
      WriteLands(disk, tables, op);
    } else {
      AmendLands(disk, tables, op);
      var target := tables.pages[op.pageId].path;
      AmendedClaims(target, PageAt(disk, target), op, "");
    }
  }

  lemma HoldsStep(disk: Files, tables: Tables, op: Op, path: string, claimId: string)
    requires Batchable(op) && Validate(op).None? && !PlanOf(disk, tables, op).Fail?
    ensures Holds(Applied(disk, PlanOf(disk, tables, op)), path, claimId)
       <==> if op.WritePage? && WritePathOf(op) == path then HasClaim(op.page.claims, claimId)
            else AddsClaim(tables, op, path, claimId) || Holds(disk, path, claimId)
  {
    if op.WritePage? {
      WriteLands(disk, tables, op);
    } else {
      AmendLands(disk, tables, op);
      var target := tables.pages[op.pageId].path;
      AmendedClaims(target, PageAt(disk, target), op, claimId);
    }
  }

  // ---- the disks the commit passes through ----

  lemma PrefixGrows(ops: seq<Op>, k: nat)
    requires k < |ops|
    ensures Prefix(ops, k + 1)[..k] == Prefix(ops, k) && Prefix(ops, k + 1)[k] == ops[k]
  {}

  lemma {:induction false} ReadableFollows(
    files: Files, tables: Tables, ops: seq<Op>, k: nat, disk: Files, path: string)
    requires k <= |ops| && AllValid(ops) && AllBatchable(ops) && Landed(files, tables, ops, k, disk)
    ensures Parses(disk, path) <==> ReadableAfter(files, Prefix(ops, k), path)
    decreases k
  {
    if k > 0 {
      var before := LandedBefore(files, tables, ops, k, disk);
      ReadableFollows(files, tables, ops, k - 1, before, path);
      ReadableStep(before, tables, ops[k - 1], path);
      PrefixGrows(ops, k - 1);
    }
  }

  /** At every point of the commit the request list tells which claims a page has. */
  lemma {:induction false} ClaimsFollow(
    files: Files, tables: Tables, ops: seq<Op>, k: nat, disk: Files, path: string, claimId: string)
    requires k <= |ops| && AllValid(ops) && AllBatchable(ops) && Landed(files, tables, ops, k, disk)
    ensures Holds(disk, path, claimId) <==> HoldsAfter(files, tables, Prefix(ops, k), path, claimId)
    decreases k
  {
    if k > 0 {
      var before := LandedBefore(files, tables, ops, k, disk);
      ClaimsFollow(files, tables, ops, k - 1, before, path, claimId);
      HoldsStep(before, tables, ops[k - 1], path, claimId);
      PrefixGrows(ops, k - 1);
    }
  }

  // ---- one request fails exactly when the list says so ----

  lemma WriteGoes(s: State, ops: seq<Op>, k: nat, before: Files)
    requires k < |ops| && AllValid(ops) && ops[k] in ops && ops[k].WritePage?
    requires ops[k].mode == Update ==> ops[k].page.id in s.tables.pages
    ensures PlanOf(before, s.tables, ops[k]).Fail? <==> !Goes(s, ops, k)
  {}

  lemma AmendFails(tables: Tables, op: Op, disk: Files)
    requires Batchable(op) && !op.WritePage? && Validate(op).None? && op.pageId in tables.pages
    ensures var path := tables.pages[op.pageId].path;
            PlanOf(disk, tables, op).Fail?
            <==> !Parses(disk, path) || (op.UpdateClaim? && !Holds(disk, path, op.claimId))
  {}

  lemma AmendGoes(s: State, ops: seq<Op>, k: nat, before: Files)
    requires k < |ops| && AllValid(ops) && AllBatchable(ops) && Landed(s.files, s.tables, ops, k, before)
    requires ops[k] in ops && !ops[k].WritePage? && ops[k].pageId in s.tables.pages
    ensures PlanOf(before, s.tables, ops[k]).Fail? <==> !Goes(s, ops, k)
  {
    var op := ops[k];
    var path := s.tables.pages[op.pageId].path;
    AmendFails(s.tables, op, before);
    ReadableFollows(s.files, s.tables, ops, k, before, path);
    if op.UpdateClaim? { ClaimsFollow(s.files, s.tables, ops, k, before, path, op.claimId); }
  }

  lemma CheckedIsIndexed(s: State, op: Op)
    requires Batchable(op) && Check(s, op).None?
    ensures op.WritePage? && op.mode == Update ==> op.page.id in s.tables.pages
    ensures !op.WritePage? ==> op.pageId in s.tables.pages
  {}

  /** `goes` says of each request whether it goes through. */
  ghost predicate Forecast(s: State, ops: seq<Op>, goes: seq<bool>)
    requires AllValid(ops)
  {
    |goes| == |ops| && forall i | 0 <= i < |ops| :: goes[i] == Goes(s, ops, i)
  }

  /** The next request of the commit goes through exactly when `goes` says so. */
  ghost predicate Told(files: Files, tables: Tables, ops: seq<Op>, goes: seq<bool>, k: nat, disk: Files)
    requires k < |ops| == |goes| && AllValid(ops)
  {
    Landed(files, tables, ops, k, disk) && ops[k] in ops ==> (PlanOf(disk, tables, ops[k]).Fail? <==> !goes[k])
  }

  lemma AdmittedIsTold(s: State, ops: seq<Op>, goes: seq<bool>, k: nat, disk: Files)
    requires Admitted(s, ops) && AllValid(ops) && AllBatchable(ops)
    requires Forecast(s, ops, goes) && k < |ops|
    ensures Told(s.files, s.tables, ops, goes, k, disk)
  {
    if Landed(s.files, s.tables, ops, k, disk) {
      assert ops[k] in ops;
      CheckedIsIndexed(s, ops[k]);
      if ops[k].WritePage? {
        WriteGoes(s, ops, k, disk);
      } else {
        AmendGoes(s, ops, k, disk);
      }
    }
  }

  /** How the commit of the first `k` requests ended. */
  ghost predicate Stopped(files: Files, tables: Tables, ops: seq<Op>, k: nat)
    requires k <= |ops| && AllValid(ops)
  {
    CommitAll(files, tables, Prefix(ops, k)).failed.Some?
  }

  lemma LandsOneMore(files: Files, tables: Tables, ops: seq<Op>, goes: seq<bool>, k: nat, before: Files)
    returns (disk: Files)
    requires k < |ops| == |goes| && AllValid(ops) && Landed(files, tables, ops, k, before)
    requires Told(files, tables, ops, goes, k, before)
    ensures if goes[k] then Landed(files, tables, ops, k + 1, disk) else Stopped(files, tables, ops, k + 1)
  {
    assert ops[..k + 1][..k] == ops[..k];
    assert ops[k] in ops;
    disk := Applied(before, PlanOf(before, tables, ops[k]));
  }

  lemma StaysStopped(files: Files, tables: Tables, ops: seq<Op>, k: nat)
    requires k < |ops| && AllValid(ops) && Stopped(files, tables, ops, k)
    ensures Stopped(files, tables, ops, k + 1)
  {
    assert ops[..k + 1][..k] == ops[..k];
  }

  lemma LandsAtFirst(files: Files, tables: Tables, ops: seq<Op>)
    requires AllValid(ops)
    ensures Landed(files, tables, ops, 0, files)
  {}

  lemma LandedIsNotStopped(files: Files, tables: Tables, ops: seq<Op>, k: nat, disk: Files)
    requires k <= |ops| && AllValid(ops) && Landed(files, tables, ops, k, disk)
    ensures !Stopped(files, tables, ops, k)
  {}

  lemma CommitsOneMore(s: State, ops: seq<Op>, goes: seq<bool>, k: nat, before: Files) returns (disk: Files)
    requires Admitted(s, ops) && AllValid(ops) && AllBatchable(ops)
    requires Forecast(s, ops, goes) && k < |ops| && Landed(s.files, s.tables, ops, k, before)
    ensures if goes[k] then Landed(s.files, s.tables, ops, k + 1, disk) else Stopped(s.files, s.tables, ops, k + 1)
  {
    AdmittedIsTold(s, ops, goes, k, before);
    disk := LandsOneMore(s.files, s.tables, ops, goes, k, before);
  }

  lemma NoneFalse(goes: seq<bool>, k: nat)
    requires k < |goes|
    ensures false in goes[..k + 1] <==> false in goes[..k] || !goes[k]
  {
    assert goes[..k + 1] == goes[..k] + [goes[k]];
  }

  lemma {:induction false} LandsWhileGoing(s: State, ops: seq<Op>, goes: seq<bool>, k: nat) returns (disk: Files)
    requires Admitted(s, ops) && AllValid(ops) && AllBatchable(ops)
    requires Forecast(s, ops, goes) && k <= |ops|
    ensures if false !in goes[..k] then Landed(s.files, s.tables, ops, k, disk) else Stopped(s.files, s.tables, ops, k)
    decreases k
  {
    disk := s.files;
    if k == 0 {
      LandsAtFirst(s.files, s.tables, ops);
    } else {
      var before := LandsWhileGoing(s, ops, goes, k - 1);
      NoneFalse(goes, k - 1);
      if false in goes[..k - 1] {
        StaysStopped(s.files, s.tables, ops, k - 1);
      } else {
        disk := CommitsOneMore(s, ops, goes, k - 1, before);
      }
    }
  }

  // ---- the theorems ----

  /** What a batch that passed phases 1 and 2 answers. */
  lemma AdmittedReply(s: State, ops: seq<Op>, now: int, cfg: Config)
    requires ops != [] && Admitted(s, ops) && AllValid(ops)
    ensures Batch(s, ops, now, cfg).1.Committed? <==> CommitAll(s.files, s.tables, ops).failed.None?
    ensures !Batch(s, ops, now, cfg).1.Rejected?
  {
    AdmittedPasses(s, ops);
    BatchEnds(s, ops, now, cfg);
  }

  lemma AdmittedIsValid(s: State, ops: seq<Op>)
    requires Admitted(s, ops)
    ensures AllValid(ops) && AllBatchable(ops)
  {}

  /** A batch that passes phases 1 and 2 commits exactly when every slug create gets a valid id not yet indexed,
      every page to be edited can still be read, and every claim to be updated is still on its page. Nothing
      is asked of the corpus: stale rows, moved files and overwrites that change a kind are all covered. */
  lemma CommitsExactlyWhen(s: State, ops: seq<Op>, now: int, cfg: Config)
    requires ops != [] && Admitted(s, ops)
    ensures AllValid(ops) && (Batch(s, ops, now, cfg).1.Committed? <==> AllGo(s, ops, |ops|))
  {
    AdmittedIsValid(s, ops);
    var goes := seq(|ops|, i requires 0 <= i < |ops| => Goes(s, ops, i));
    var disk := LandsWhileGoing(s, ops, goes, |ops|);
    assert goes[..|ops|] == goes;
    assert false !in goes <==> AllGo(s, ops, |ops|);
    if false !in goes { LandedIsNotStopped(s.files, s.tables, ops, |ops|, disk); }
    assert Prefix(ops, |ops|) == ops;
    AdmittedReply(s, ops, now, cfg);
  }

  /** If it does not commit it stops in phase 3, with some of its writes made. */
  lemma StopsUnlessAllGo(s: State, ops: seq<Op>, now: int, cfg: Config)
    requires ops != [] && Admitted(s, ops) && AllValid(ops) && !AllGo(s, ops, |ops|)
    ensures Batch(s, ops, now, cfg).1.Aborted?
  {
    CommitsExactlyWhen(s, ops, now, cfg);
    AdmittedReply(s, ops, now, cfg);
  }

  // ---- all or nothing ----

  /** Every indexed file exists and parses. */
  ghost predicate RowsReadable(s: State)
  {
    forall id | id in s.tables.pages :: Parses(s.files, s.tables.pages[id].path)
  }

  /** Slugs leave room for their suffix, do not end in a newline, and their unique ids are well formed and unused. */
  predicate ShortFreshSlugs(tables: Tables, ops: seq<Op>)
  {
    forall op | op in ops && IsSlugCreate(op) && op.page.id != "" ::
      |op.page.id| <= 231 && op.page.id[|op.page.id| - 1] != '\n' && IsSuffix(op.suffix)
      && Effective(op).id !in tables.pages
  }

  /** No request of the batch overwrites the file of a page whose claims another one updates. */
  predicate NoUpdateAfterOverwrite(tables: Tables, ops: seq<Op>)
    requires forall op | op in ops :: Validate(op).None?
  {
    forall w, u | w in ops && u in ops && w.WritePage? && u.UpdateClaim? && u.pageId in tables.pages ::
      WritePathOf(w) != tables.pages[u.pageId].path
  }

  lemma {:induction false} StaysReadable(files: Files, ops: seq<Op>, path: string)
    requires AllValid(ops) && Parses(files, path)
    ensures ReadableAfter(files, ops, path)
    decreases |ops|
  {
    if ops != [] {
      assert forall op | op in ops[..|ops| - 1] :: op in ops;
      StaysReadable(files, ops[..|ops| - 1], path);
    }
  }

  lemma {:induction false} UntouchedClaimStands(
    files: Files, tables: Tables, ops: seq<Op>, path: string, claimId: string)
    requires AllValid(ops) && Holds(files, path, claimId)
    requires forall op | op in ops && op.WritePage? :: WritePathOf(op) != path
    ensures HoldsAfter(files, tables, ops, path, claimId)
    decreases |ops|
  {
    if ops != [] {
      assert ops[|ops| - 1] in ops && forall op | op in ops[..|ops| - 1] :: op in ops;
      UntouchedClaimStands(files, tables, ops[..|ops| - 1], path, claimId);
    }
  }

  lemma ShortSlugGoes(s: State, ops: seq<Op>, k: nat)
    requires k < |ops| && AllValid(ops) && ops[k] in ops && ops[k].WritePage? && ShortFreshSlugs(s.tables, ops)
    ensures Goes(s, ops, k)
  {
    if IsSlugCreate(ops[k]) { MangledIsValid(ops[k].page.id, ops[k].suffix); }
  }

  lemma CheckedClaimHolds(s: State, op: Op)
    requires op.UpdateClaim? && Check(s, op).None?
    ensures op.pageId in s.tables.pages && Holds(s.files, s.tables.pages[op.pageId].path, op.claimId)
  {}

  lemma EditGoes(s: State, ops: seq<Op>, k: nat)
    requires k < |ops| && Admitted(s, ops) && AllValid(ops) && ops[k] in ops && !ops[k].WritePage?
    requires RowsReadable(s) && NoUpdateAfterOverwrite(s.tables, ops)
    ensures Goes(s, ops, k)
  {
    var op := ops[k];
    CheckedIsIndexed(s, op);
    var path := s.tables.pages[op.pageId].path;
    StaysReadable(s.files, Prefix(ops, k), path);
    if op.UpdateClaim? {
      CheckedClaimHolds(s, op);
      UntouchedClaimStands(s.files, s.tables, Prefix(ops, k), path, op.claimId);
    }
  }

  /** All or nothing: if every indexed file exists and parses, slugs are short, their unique ids unused, and no
      request overwrites the file of a page whose claims the batch updates, phase 3 never stops half way. */
  lemma NeverHalfWay(s: State, ops: seq<Op>, now: int, cfg: Config)
    requires ops != [] && Admitted(s, ops) && AllValid(ops)
    requires RowsReadable(s) && ShortFreshSlugs(s.tables, ops) && NoUpdateAfterOverwrite(s.tables, ops)
    ensures Batch(s, ops, now, cfg).1.Committed?
  {
    forall k | 0 <= k < |ops| ensures Goes(s, ops, k) {
      assert ops[k] in ops;
      if ops[k].WritePage? {
        ShortSlugGoes(s, ops, k);
      } else {
        EditGoes(s, ops, k);
      }
    }
    CommitsExactlyWhen(s, ops, now, cfg);
  }

  // ---- two ways to stop ----

  lemma DroppedClaimDoesNotGo(s: State, w: Op, u: Op)
    requires AllValid([w, u]) && w in [w, u] && w.WritePage? && u.UpdateClaim? && u.pageId in s.tables.pages
    requires WritePathOf(w) == s.tables.pages[u.pageId].path && !HasClaim(w.page.claims, u.claimId)
    ensures !Goes(s, [w, u], 1)
  {
    var ops := [w, u];
    assert Prefix(ops, 1) == [w];
    assert !HoldsAfter(s.files, s.tables, [w], WritePathOf(w), u.claimId);
  }

  /** A page write that leaves out a claim, followed by an update of that claim, passes phases 1 and 2
      and stops in phase 3. */
  lemma DroppedClaimStopsTheBatch(s: State, w: Op, u: Op, now: int, cfg: Config)
    requires Admitted(s, [w, u]) && w.WritePage? && Validate(w).None? && u.UpdateClaim? && u.pageId in s.tables.pages
    requires WritePathOf(w) == s.tables.pages[u.pageId].path && !HasClaim(w.page.claims, u.claimId)
    ensures Batch(s, [w, u], now, cfg).1.Aborted?
  {
    AdmittedIsValid(s, [w, u]);
    assert [w, u][0] == w && w in [w, u];
    DroppedClaimDoesNotGo(s, w, u);
    StopsUnlessAllGo(s, [w, u], now, cfg);
  }

  lemma LongSlugDoesNotGo(s: State, w: Op)
    requires AllValid([w]) && IsSlugCreate(w) && Validate(w).None? && IsSuffix(w.suffix) && |w.page.id| > 231
    ensures !Goes(s, [w], 0)
  {
    MangledIsValid(w.page.id, w.suffix);
  }

  lemma CreateIsAdmitted(s: State, w: Op)
    requires w.WritePage? && w.mode == Create && Validate(w).None?
    ensures Admitted(s, [w])
  {}

  /** A create with a slug too long for its unique suffix passes phases 1 and 2 on any corpus and stops in phase 3. */
  lemma LongSlugStopsTheBatch(s: State, w: Op, now: int, cfg: Config)
    requires IsSlugCreate(w) && Validate(w).None? && IsSuffix(w.suffix) && |w.page.id| > 231
    ensures Batch(s, [w], now, cfg).1.Aborted?
  {
    CreateIsAdmitted(s, w);
    AdmittedIsValid(s, [w]);
    LongSlugDoesNotGo(s, w);
    StopsUnlessAllGo(s, [w], now, cfg);
  }
}
