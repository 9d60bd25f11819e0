/** Reciprocal rank fusion and the walk over the fused list that `search` answers with. */
module Fusion {
  import opened Model
  import opened Selections

  const K := 60

  // ---- scores ----

  /** What a rank is worth; ranks count from one. */
  function Worth(rank: nat): (w: real)
    requires rank > 0
    ensures w > 0.0
  {
    1.0 / (K + rank) as real
  }

  /** The sum of an id's occurrences in one list. */
  function Share(ranks: seq<string>, id: string): real
  {
    if ranks == [] then 0.0
    else Share(ranks[..|ranks| - 1], id) + if ranks[|ranks| - 1] == id then Worth(|ranks|) else 0.0
  }

  /** The sum of an id's occurrences in all lists. */
  function Score(rankings: seq<seq<string>>, id: string): real
  {
    if rankings == [] then 0.0 else Score(rankings[..|rankings| - 1], id) + Share(rankings[|rankings| - 1], id)
  }

  predicate Occurs(rankings: seq<seq<string>>, id: string)
  {
    exists l :: 0 <= l < |rankings| && id in rankings[l]
  }

  predicate NoRepeats(ids: seq<string>)
  {
    forall i, j | 0 <= i < j < |ids| :: ids[i] != ids[j]
  }

  // ---- fusing ----

  /** The tally after these lists and this part of the next: ids in order of first appearance, each with its
      score so far; an id not met yet has no score. */
  ghost predicate Totals(order: seq<string>, scores: map<string, real>, lists: seq<seq<string>>, part: seq<string>)
  {
    && NoRepeats(order) && (forall id :: id in order <==> id in scores)
    && (forall id :: id in scores <==> Occurs(lists, id) || id in part)
    && (forall id | id in scores :: scores[id] == Score(lists, id) + Share(part, id))
    && (forall id | id !in scores :: Score(lists, id) + Share(part, id) == 0.0)
  }

  lemma TotalsNext(order: seq<string>, scores: map<string, real>, lists: seq<seq<string>>, part: seq<string>)
    requires Totals(order, scores, lists, part)
    ensures Totals(order, scores, lists + [part], [])
  {
    var next := lists + [part];
    assert next[..|lists|] == lists;
    forall id ensures Occurs(next, id) <==> Occurs(lists, id) || id in part {
      OccursNext(lists, part, id);
    }
  }

  /** One more occurrence. */
  method AddOne(order: seq<string>, scores: map<string, real>,
                ghost lists: seq<seq<string>>, ghost part: seq<string>, id: string, rank: nat)
    returns (order': seq<string>, scores': map<string, real>)
    requires Totals(order, scores, lists, part) && rank == |part| + 1
    ensures Totals(order', scores', lists, part + [id])
    ensures order' == if id in order then order else order + [id]
  {
    assert (part + [id])[..|part|] == part;
    if id in scores {
      order', scores' := order, scores[id := scores[id] + Worth(rank)];
    } else {
      order', scores' := order + [id], scores[id := Worth(rank)];
    }
  }

  /** The ids met in a list after those met before it, each where it first appears. */
  function Extended(order: seq<string>, ranks: seq<string>): seq<string>
  {
    if ranks == [] then order
    else
      var sofar, last := Extended(order, ranks[..|ranks| - 1]), ranks[|ranks| - 1];
      if last in sofar then sofar else sofar + [last]
  }

  /** All ids in order of first appearance, list by list. */
  function Appearance(rankings: seq<seq<string>>): seq<string>
  {
    if rankings == [] then []
    else Extended(Appearance(rankings[..|rankings| - 1]), rankings[|rankings| - 1])
  }

  lemma ExtendedNext(order: seq<string>, ranks: seq<string>, i: nat)
    requires i < |ranks|
    ensures ranks[..i + 1] == ranks[..i] + [ranks[i]]
    ensures var sofar := Extended(order, ranks[..i]);
            Extended(order, ranks[..i + 1]) == if ranks[i] in sofar then sofar else sofar + [ranks[i]]
  {
    assert ranks[..i + 1][..i] == ranks[..i];
  }

  method TallyOne(order: seq<string>, scores: map<string, real>, ghost lists: seq<seq<string>>, ranks: seq<string>)
    returns (order': seq<string>, scores': map<string, real>)
    requires Totals(order, scores, lists, [])
    ensures Totals(order', scores', lists + [ranks], []) && order' == Extended(order, ranks)
  {
    order', scores' := order, scores;
    for i := 0 to |ranks|
      invariant Totals(order', scores', lists, ranks[..i]) && order' == Extended(order, ranks[..i])
    {
      order', scores' := AddOne(order', scores', lists, ranks[..i], ranks[i], i + 1);
      ExtendedNext(order, ranks, i);
    }
    assert ranks[..|ranks|] == ranks;
    TotalsNext(order', scores', lists, ranks);
  }

  /** The tally of all lists. */
  lemma TotalsAll(order: seq<string>, scores: map<string, real>, rankings: seq<seq<string>>)
    requires Totals(order, scores, rankings, [])
    ensures NoRepeats(order) && forall id :: id in order <==> Occurs(rankings, id)
    ensures forall id :: id in scores <==> id in order
    ensures forall id | id in scores :: scores[id] == Score(rankings, id)
  {
    forall id | id in scores ensures scores[id] == Score(rankings, id) {
      assert scores[id] == Score(rankings, id) + Share([], id);
    }
  }

  lemma AppearanceNext(rankings: seq<seq<string>>, l: nat)
    requires l < |rankings|
    ensures rankings[..l + 1] == rankings[..l] + [rankings[l]]
    ensures Appearance(rankings[..l + 1]) == Extended(Appearance(rankings[..l]), rankings[l])
  {
    assert rankings[..l + 1][..l] == rankings[..l];
  }

  /** The score table: every id that occurs, with exactly the sum of its occurrences. */
  method Tally(rankings: seq<seq<string>>) returns (order: seq<string>, scores: map<string, real>)
    ensures NoRepeats(order) && forall id :: id in order <==> Occurs(rankings, id)
    ensures forall id :: id in scores <==> id in order
    ensures forall id | id in scores :: scores[id] == Score(rankings, id)
    ensures order == Appearance(rankings)
  {
    order, scores := [], map[];
    for l := 0 to |rankings|
      invariant Totals(order, scores, rankings[..l], []) && order == Appearance(rankings[..l])
    {
      order, scores := TallyOne(order, scores, rankings[..l], rankings[l]);
      AppearanceNext(rankings, l);
    }
    assert rankings[..|rankings|] == rankings;
    TotalsAll(order, scores, rankings);
  }

  lemma OccursNext(rankings: seq<seq<string>>, ranks: seq<string>, id: string)
    ensures Occurs(rankings + [ranks], id) <==> Occurs(rankings, id) || id in ranks
  {
    var next := rankings + [ranks];
    if Occurs(rankings, id) {
      var l :| 0 <= l < |rankings| && id in rankings[l];
      assert next[l] == rankings[l];
    }
    if id in ranks { assert next[|rankings|] == ranks; }
  }

  // ---- ordering ----

  /** A better score, or an equal one and an earlier first appearance. */
  predicate Ahead(x: string, y: string, order: seq<string>, scores: map<string, real>)
    requires x in scores && y in scores && x in order && y in order
  {
    scores[x] > scores[y] || (scores[x] == scores[y] && Position(order, x) < Position(order, y))
  }

  predicate Known(ids: seq<string>, order: seq<string>, scores: map<string, real>)
  {
    forall i | 0 <= i < |ids| :: ids[i] in scores && ids[i] in order
  }

  /** Ids from the best score down; equal scores keep the order of first appearance. */
  ghost predicate Ranked(ids: seq<string>, order: seq<string>, scores: map<string, real>)
    requires Known(ids, order, scores)
  {
    forall i, j | 0 <= i < j < |ids| :: Ahead(ids[i], ids[j], order, scores)
  }

  function Position(order: seq<string>, id: string): (p: nat)
    requires id in order
    ensures p < |order| && order[p] == id
  {
    if order[0] == id then 0 else 1 + Position(order[1..], id)
  }

  lemma {:induction false} PositionOf(order: seq<string>, p: nat)
    requires NoRepeats(order) && p < |order|
    ensures Position(order, order[p]) == p
  {
    var q := Position(order, order[p]);
    assert order[q] == order[p];
  }

  /** An id fits between those ahead of it and those behind it. */
  lemma InsertedIsRanked(a: seq<string>, id: string, b: seq<string>, order: seq<string>, scores: map<string, real>)
    requires Known(a + b, order, scores) && id in order && id in scores && Ranked(a + b, order, scores)
    requires forall i | 0 <= i < |a| :: a[i] in scores && a[i] in order && Ahead(a[i], id, order, scores)
    requires forall i | 0 <= i < |b| :: b[i] in scores && b[i] in order && Ahead(id, b[i], order, scores)
    ensures Known(a + [id] + b, order, scores) && Ranked(a + [id] + b, order, scores)
  {
    var r, s := a + [id] + b, a + b;
    forall i, j | 0 <= i < j < |r|
      ensures r[i] in scores && r[i] in order && r[j] in scores && r[j] in order && Ahead(r[i], r[j], order, scores)
    {
      if i != |a| && j != |a| {
        var i', j' := if i < |a| then i else i - 1, if j < |a| then j else j - 1;
        assert s[i'] == r[i] && s[j'] == r[j] && Ahead(s[i'], s[j'], order, scores);
      }
    }
  }

  lemma RestIsBehind(ids: seq<string>, k: nat, id: string, order: seq<string>, scores: map<string, real>)
    requires Known(ids, order, scores) && id in order && id in scores && Ranked(ids, order, scores)
    requires k <= |ids| && (k < |ids| ==> scores[ids[k]] < scores[id])
    ensures forall i | 0 <= i < |ids[k..]| ::
              ids[k..][i] in scores && ids[k..][i] in order && Ahead(id, ids[k..][i], order, scores)
  {
    forall i | k <= i < |ids| ensures scores[ids[i]] < scores[id] {
      if k < i { assert Ahead(ids[k], ids[i], order, scores); }
    }
  }

  /** Put the next id where a stable sort would: after every id that scores at least as much. */
  method Insert(ids: seq<string>, id: string, order: seq<string>, scores: map<string, real>) returns (r: seq<string>)
    requires Known(ids, order, scores) && id in order && id in scores && Ranked(ids, order, scores)
    requires forall i | 0 <= i < |ids| :: Position(order, ids[i]) < Position(order, id)
    ensures forall x :: x in r <==> x in ids || x == id
    ensures Known(r, order, scores) && Ranked(r, order, scores)
  {
    var k := 0;
    while k < |ids| && scores[ids[k]] >= scores[id]
      invariant k <= |ids| && forall i | 0 <= i < k :: scores[ids[i]] >= scores[id]
    {
      k := k + 1;
    }
    r := ids[..k] + [id] + ids[k..];
    assert ids == ids[..k] + ids[k..];
    RestIsBehind(ids, k, id, order, scores);
    InsertedIsRanked(ids[..k], id, ids[k..], order, scores);
  }

  lemma RankedHasNoRepeats(ids: seq<string>, order: seq<string>, scores: map<string, real>)
    requires Known(ids, order, scores) && Ranked(ids, order, scores)
    ensures NoRepeats(ids)
  {
    forall i, j | 0 <= i < j < |ids| ensures ids[i] != ids[j] {
      assert Ahead(ids[i], ids[j], order, scores);
    }
  }

  /** Every id that occurs, once, with exactly the sum of 1/(60 + rank) over its occurrences,
      best first, ties in order of first appearance. */
  method Fuse(rankings: seq<seq<string>>) returns (ids: seq<string>, scores: map<string, real>)
    ensures NoRepeats(ids) && forall id :: id in ids <==> Occurs(rankings, id)
    ensures forall id :: id in scores <==> id in ids
    ensures forall id | id in scores :: scores[id] == Score(rankings, id)
    ensures Known(ids, Appearance(rankings), scores) && Ranked(ids, Appearance(rankings), scores)
  {
    var order;
    order, scores := Tally(rankings);
    ids := [];
    for p := 0 to |order|
      invariant forall x :: x in ids <==> x in order[..p]
      invariant Known(ids, order, scores) && Ranked(ids, order, scores)
      invariant forall i | 0 <= i < |ids| :: Position(order, ids[i]) < p
    {
      PositionOf(order, p);
      assert order[..p + 1] == order[..p] + [order[p]];
      var next := Insert(ids, order[p], order, scores);
      forall i | 0 <= i < |next| ensures Position(order, next[i]) < p + 1 {
        assert next[i] in next;
        assert next[i] == order[p] || next[i] in ids;
      }
      ids := next;
    }
    assert order[..|order|] == order;
    RankedHasNoRepeats(ids, order, scores);
  }

  // ---- first appearance ----

  /** The ids met before place `i` of list `l`. */
  function Met(rankings: seq<seq<string>>, l: nat, i: nat): seq<string>
    requires l < |rankings| && i <= |rankings[l]|
  {
    Extended(Appearance(rankings[..l]), rankings[l][..i])
  }

  lemma {:induction false} ExtendedGrows(order: seq<string>, ranks: seq<string>, i: nat)
    requires i <= |ranks|
    ensures Extended(order, ranks[..i]) <= Extended(order, ranks)
    decreases |ranks| - i
  {
    if i == |ranks| {
      assert ranks[..i] == ranks;
    } else {
      ExtendedNext(order, ranks, i);
      ExtendedGrows(order, ranks, i + 1);
    }
  }

  lemma {:induction false} ExtendedHas(order: seq<string>, ranks: seq<string>, id: string)
    ensures id in Extended(order, ranks) <==> id in order || id in ranks
    decreases |ranks|
  {
    if ranks != [] {
      ExtendedHas(order, ranks[..|ranks| - 1], id);
      assert ranks == ranks[..|ranks| - 1] + [ranks[|ranks| - 1]];
    }
  }

  lemma {:induction false} AppearanceHas(rankings: seq<seq<string>>, id: string)
    ensures id in Appearance(rankings) <==> Occurs(rankings, id)
    decreases |rankings|
  {
    if rankings != [] {
      var init, last := rankings[..|rankings| - 1], rankings[|rankings| - 1];
      AppearanceHas(init, id);
      ExtendedHas(Appearance(init), last, id);
      assert rankings == init + [last];
      OccursNext(init, last, id);
    }
  }

  lemma {:induction false} AppearanceGrows(rankings: seq<seq<string>>, l: nat)
    requires l <= |rankings|
    ensures Appearance(rankings[..l]) <= Appearance(rankings)
    decreases |rankings| - l
  {
    if l == |rankings| {
      assert rankings[..l] == rankings;
    } else {
      AppearanceNext(rankings, l);
      assert rankings[l][..0] == [];
      ExtendedGrows(Appearance(rankings[..l]), rankings[l], 0);
      AppearanceGrows(rankings, l + 1);
    }
  }

  /** What is met by the end of a later place begins with what was met before. */
  lemma MetGrows(rankings: seq<seq<string>>, l: nat, i: nat, m: nat, j: nat)
    requires l < |rankings| && i < |rankings[l]| && m < |rankings| && j <= |rankings[m]|
    requires l < m || (l == m && i < j)
    ensures Met(rankings, l, i + 1) <= Met(rankings, m, j)
  {
    if l == m {
      assert rankings[l][..j][..i + 1] == rankings[l][..i + 1];
      ExtendedGrows(Appearance(rankings[..l]), rankings[l][..j], i + 1);
    } else {
      ExtendedGrows(Appearance(rankings[..l]), rankings[l], i + 1);
      AppearanceNext(rankings, l);
      assert rankings[..m][..l + 1] == rankings[..l + 1];
      AppearanceGrows(rankings[..m], l + 1);
      assert rankings[m][..j][..0] == [];
      ExtendedGrows(Appearance(rankings[..m]), rankings[m][..j], 0);
    }
  }

  /** Place `i` of list `l` is where the id is met first. */
  predicate FirstAt(rankings: seq<seq<string>>, id: string, l: nat, i: nat)
  {
    && l < |rankings| && i < |rankings[l]| && rankings[l][i] == id
    && id !in rankings[l][..i] && forall k | 0 <= k < l :: id !in rankings[k]
  }

  lemma {:induction false} PositionAfter(before: seq<string>, id: string, order: seq<string>)
    requires id !in before && before + [id] <= order
    ensures id in order && Position(order, id) == |before|
    decreases |before|
  {
    assert order[|before|] == id;
    if before != [] {
      assert order[0] == before[0] && before[0] in before;
      assert before[1..] + [id] <= order[1..];
      PositionAfter(before[1..], id, order[1..]);
    }
  }

  lemma FirstIsPosition(rankings: seq<seq<string>>, id: string, l: nat, i: nat)
    requires FirstAt(rankings, id, l, i)
    ensures id in Appearance(rankings) && Position(Appearance(rankings), id) == |Met(rankings, l, i)|
    ensures Met(rankings, l, i + 1) == Met(rankings, l, i) + [id]
  {
    AppearanceHas(rankings[..l], id);
    ExtendedHas(Appearance(rankings[..l]), rankings[l][..i], id);
    ExtendedNext(Appearance(rankings[..l]), rankings[l], i);
    ExtendedGrows(Appearance(rankings[..l]), rankings[l], i + 1);
    AppearanceNext(rankings, l);
    AppearanceGrows(rankings, l + 1);
    PositionAfter(Met(rankings, l, i), id, Appearance(rankings));
  }

  /** The order ties are kept in is that of the lists: earlier lists first, and earlier places first in one list. */
  lemma TiesKeepAppearance(rankings: seq<seq<string>>, x: string, l: nat, i: nat, y: string, m: nat, j: nat)
    requires FirstAt(rankings, x, l, i) && FirstAt(rankings, y, m, j) && x != y
    ensures x in Appearance(rankings) && y in Appearance(rankings)
    ensures Position(Appearance(rankings), x) < Position(Appearance(rankings), y) <==> l < m || (l == m && i < j)
  {
    FirstIsPosition(rankings, x, l, i);
    FirstIsPosition(rankings, y, m, j);
    if l < m || (l == m && i < j) {
      MetGrows(rankings, l, i, m, j);
    } else {
      MetGrows(rankings, m, j, l, i);
    }
  }

  // ---- two lists beat one ----

  lemma {:induction false} ShareOfAbsent(ranks: seq<string>, id: string)
    requires id !in ranks
    ensures Share(ranks, id) == 0.0
    decreases |ranks|
  {
    if ranks != [] {
      assert ranks == ranks[..|ranks| - 1] + [ranks[|ranks| - 1]];
      ShareOfAbsent(ranks[..|ranks| - 1], id);
    }
  }

  /** In a list without repeats an id is worth its one rank. */
  lemma {:induction false} ShareOfOne(ranks: seq<string>, i: nat)
    requires NoRepeats(ranks) && i < |ranks|
    ensures Share(ranks, ranks[i]) == Worth(i + 1) == 1.0 / (61 + i) as real
    decreases |ranks|
  {
    var init := ranks[..|ranks| - 1];
    if i < |ranks| - 1 {
      ShareOfOne(init, i);
    } else {
      ShareOfAbsent(init, ranks[i]);
    }
  }

  lemma {:induction false} ShareIsNotNegative(ranks: seq<string>, id: string)
    ensures Share(ranks, id) >= 0.0
    decreases |ranks|
  {
    if ranks != [] { ShareIsNotNegative(ranks[..|ranks| - 1], id); }
  }

  /** A score is at least what two of the lists give. */
  lemma {:induction false} ScoreHasBoth(rankings: seq<seq<string>>, id: string, l: nat, m: nat)
    requires l < m < |rankings|
    ensures Score(rankings, id) >= Share(rankings[l], id) + Share(rankings[m], id)
    decreases |rankings|
  {
    var init := rankings[..|rankings| - 1];
    ShareIsNotNegative(rankings[|rankings| - 1], id);
    if m < |rankings| - 1 {
      ScoreHasBoth(init, id, l, m);
    } else {
      ScoreHasOne(init, id, l);
    }
  }

  lemma {:induction false} ScoreHasOne(rankings: seq<seq<string>>, id: string, l: nat)
    requires l < |rankings|
    ensures Score(rankings, id) >= Share(rankings[l], id)
    decreases |rankings|
  {
    var init := rankings[..|rankings| - 1];
    ShareIsNotNegative(rankings[|rankings| - 1], id);
    if l < |rankings| - 1 {
      ScoreHasOne(init, id, l);
    } else {
      ScoreIsNotNegative(init, id);
    }
  }

  lemma {:induction false} ScoreIsNotNegative(rankings: seq<seq<string>>, id: string)
    ensures Score(rankings, id) >= 0.0
    decreases |rankings|
  {
    if rankings != [] {
      ScoreIsNotNegative(rankings[..|rankings| - 1], id);
      ShareIsNotNegative(rankings[|rankings| - 1], id);
    }
  }

  /** An id that only one list has scores what that list gives. */
  lemma {:induction false} ScoreOfOnlyOne(rankings: seq<seq<string>>, id: string, l: nat)
    requires l < |rankings| && forall m | 0 <= m < |rankings| && m != l :: id !in rankings[m]
    ensures Score(rankings, id) == Share(rankings[l], id)
    decreases |rankings|
  {
    var init, last := rankings[..|rankings| - 1], rankings[|rankings| - 1];
    if l < |init| {
      ScoreOfOnlyOne(init, id, l);
      ShareOfAbsent(last, id);
    } else {
      ScoreOfNone(init, id);
    }
  }

  lemma {:induction false} ScoreOfNone(rankings: seq<seq<string>>, id: string)
    requires forall m | 0 <= m < |rankings| :: id !in rankings[m]
    ensures Score(rankings, id) == 0.0
    decreases |rankings|
  {
    if rankings != [] {
      ScoreOfNone(rankings[..|rankings| - 1], id);
      ShareOfAbsent(rankings[|rankings| - 1], id);
    }
  }

  lemma WorthFalls(i: nat, j: nat)
    requires 0 < i <= j
    ensures Worth(i) >= Worth(j)
  {}

  /** In lists without repeats, an id that two of them rank 61st or better scores more than any id
      that only one of them has. */
  lemma TwoListsBeatOne(
    rankings: seq<seq<string>>, a: string, l: nat, i: nat, m: nat, j: nat, b: string, n: nat, k: nat)
    requires forall x | 0 <= x < |rankings| :: NoRepeats(rankings[x])
    requires l < m < |rankings| && i < |rankings[l]| && j < |rankings[m]| && i < 61 && j < 61
    requires rankings[l][i] == a && rankings[m][j] == a
    requires n < |rankings| && k < |rankings[n]| && rankings[n][k] == b
    requires forall x | 0 <= x < |rankings| && x != n :: b !in rankings[x]
    ensures Score(rankings, a) > Score(rankings, b)
  {
    ScoreHasBoth(rankings, a, l, m);
    ShareOfOne(rankings[l], i);
    ShareOfOne(rankings[m], j);
    ScoreOfOnlyOne(rankings, b, n);
    ShareOfOne(rankings[n], k);
    WorthFalls(i + 1, 61);
    WorthFalls(j + 1, 61);
    WorthFalls(1, k + 1);
  }

  /** An id that only two lists have scores what those two give. */
  lemma {:induction false} ScoreOfOnlyTwo(rankings: seq<seq<string>>, id: string, l: nat, m: nat)
    requires l < m < |rankings| && forall x | 0 <= x < |rankings| && x != l && x != m :: id !in rankings[x]
    ensures Score(rankings, id) == Share(rankings[l], id) + Share(rankings[m], id)
    decreases |rankings|
  {
    var init, last := rankings[..|rankings| - 1], rankings[|rankings| - 1];
    if m < |init| {
      ScoreOfOnlyTwo(init, id, l, m);
      ShareOfAbsent(last, id);
    } else {
      ScoreOfOnlyOne(init, id, l);
    }
  }

  lemma WorthPastSixtyOne(i: nat)
    requires i >= 62
    ensures Worth(62) == Worth(1) / 2.0
    ensures Worth(i) <= Worth(62) && (Worth(i) == Worth(62) <==> i == 62)
  {}

  /** The bound is tight: an id that its two lists rank 62nd only ties with an id that one list ranks first,
      and one that they rank 62nd or worse, not both 62nd, loses to it. */
  lemma TwoAtSixtyTwoOnlyTie(
    rankings: seq<seq<string>>, a: string, l: nat, i: nat, m: nat, j: nat, b: string, n: nat)
    requires forall x | 0 <= x < |rankings| :: NoRepeats(rankings[x])
    requires l < m < |rankings| && 61 <= i < |rankings[l]| && 61 <= j < |rankings[m]|
    requires rankings[l][i] == a && rankings[m][j] == a
    requires forall x | 0 <= x < |rankings| && x != l && x != m :: a !in rankings[x]
    requires n < |rankings| && 0 < |rankings[n]| && rankings[n][0] == b
    requires forall x | 0 <= x < |rankings| && x != n :: b !in rankings[x]
    ensures Score(rankings, a) <= Score(rankings, b)
    ensures Score(rankings, a) == Score(rankings, b) <==> i == j == 61
  {
    ScoreOfOnlyTwo(rankings, a, l, m);
    ShareOfOne(rankings[l], i);
    ShareOfOne(rankings[m], j);
    ScoreOfOnlyOne(rankings, b, n);
    ShareOfOne(rankings[n], 0);
    WorthPastSixtyOne(i + 1);
    WorthPastSixtyOne(j + 1);
  }

  // ---- the answer of a search ----

  /** Python's `s[:k]`, which counts a negative `k` from the end. */
  function Head<T>(s: seq<T>, k: int): (r: seq<T>)
    ensures |r| == if k >= |s| then |s| else if k >= 0 then k else if |s| + k >= 0 then |s| + k else 0
    ensures r <= s
  {
    if k >= |s| then s
    else if k >= 0 then s[..k]
    else if |s| + k >= 0 then s[..|s| + k]
    else []
  }

  function Max(a: int, b: int): (m: int)
    ensures m >= a && m >= b && (m == a || m == b)
  {
    if a >= b then a else b
  }

  function FetchK(topK: int, filtered: bool): int
  {
    var k := Max(topK * 3, topK + 5);
    if filtered then Max(k * 5, 100) else k
  }

  /** The places among the first `n` of candidates that have a row and, if the search is filtered, pass. */
  function Hits(fused: seq<string>, n: nat, rows: map<string, Page>, passes: Page -> bool, filtered: bool): set<nat>
  {
    set k: nat | k < n && k < |fused| && fused[k] in rows && (filtered ==> passes(rows[fused[k]]))
  }

  /** How far down the fused list a search may look. */
  function Depth(fused: seq<string>, topK: int, filtered: bool): int
  {
    if filtered then Max(5 * Max(3 * topK, topK + 5), 100)
    else if topK >= 0 then topK
    else |fused| + topK
  }

  /** The results are the hits down to some place, in fused order: the place where they become enough, or else
      the depth of the search. One is enough if none was asked for. */
  ghost predicate Answers(
    fused: seq<string>, rows: map<string, Page>, passes: Page -> bool, topK: int, filtered: bool, results: seq<string>)
  {
    exists n: nat ::
      && n <= |fused| && (n <= Depth(fused, topK, filtered) || n == 0)
      && Picks(fused, Hits(fused, n, rows, passes, filtered), results)
      && |results| <= Max(topK, 1)
      && (|results| == Max(topK, 1) || n == |fused| || n >= Depth(fused, topK, filtered))
  }

  /** The hits among the first `n` candidates, of which there are not too many. */
  ghost predicate Walking(
    fused: seq<string>, n: nat, rows: map<string, Page>, passes: Page -> bool, topK: int, filtered: bool,
    results: seq<string>)
  {
    && n <= |fused| && (n <= Depth(fused, topK, filtered) || n == 0)
    && Picks(fused, Hits(fused, n, rows, passes, filtered), results) && |results| <= Max(topK, 1)
  }

  lemma WalkStarts(fused: seq<string>, rows: map<string, Page>, passes: Page -> bool, topK: int, filtered: bool)
    ensures Walking(fused, 0, rows, passes, topK, filtered, [])
  {
    PicksNone(fused);
    assert Hits(fused, 0, rows, passes, filtered) == {};
  }

  lemma WalkGoesOn(
    fused: seq<string>, n: nat, rows: map<string, Page>, passes: Page -> bool, topK: int, filtered: bool,
    results: seq<string>)
    requires Walking(fused, n, rows, passes, topK, filtered, results)
    requires n < |fused| && n < Depth(fused, topK, filtered) && |results| < Max(topK, 1)
    ensures var hit := fused[n] in rows && (filtered ==> passes(rows[fused[n]]));
            Walking(fused, n + 1, rows, passes, topK, filtered, if hit then results + [fused[n]] else results)
  {
    var before, after := Hits(fused, n, rows, passes, filtered), Hits(fused, n + 1, rows, passes, filtered);
    var hit := fused[n] in rows && (filtered ==> passes(rows[fused[n]]));
    PicksFurther(fused, before, results, n, hit);
    assert after == if hit then before + {n} else before;
    assert results + [] == results;
  }

  lemma SubsetIsSmaller(a: set<nat>, b: set<nat>)
    requires a <= b
    ensures |a| <= |b| && (|a| == |b| ==> a == b)
  {
    assert b == a + (b - a);
    assert |b| == |a| + |b - a|;
  }

  lemma {:induction false} HitsAreFew(
    fused: seq<string>, n: nat, rows: map<string, Page>, passes: Page -> bool, filtered: bool)
    ensures |Hits(fused, n, rows, passes, filtered)| <= n
    decreases n
  {
    if n > 0 {
      HitsAreFew(fused, n - 1, rows, passes, filtered);
      assert Hits(fused, n, rows, passes, filtered) <= Hits(fused, n - 1, rows, passes, filtered) + {n - 1};
      SubsetIsSmaller(Hits(fused, n, rows, passes, filtered), Hits(fused, n - 1, rows, passes, filtered) + {n - 1});
    } else {
      assert Hits(fused, n, rows, passes, filtered) == {};
    }
  }

  lemma WalkEnds(
    fused: seq<string>, n: nat, rows: map<string, Page>, passes: Page -> bool, topK: int, filtered: bool,
    results: seq<string>)
    requires Walking(fused, n, rows, passes, topK, filtered, results)
    requires |results| == Max(topK, 1) || n == |fused| || n >= Depth(fused, topK, filtered)
    ensures Answers(fused, rows, passes, topK, filtered, results)
    ensures !filtered && topK > 0 ==>
              Picks(fused, (set k: nat | k < topK && k < |fused| && fused[k] in rows), results)
  {
    if !filtered && topK > 0 {
      PicksSize(fused, Hits(fused, n, rows, passes, filtered), results);
      HitsAreFew(fused, n, rows, passes, filtered);
      assert Hits(fused, n, rows, passes, filtered)
          == set k: nat | k < topK && k < |fused| && fused[k] in rows;
    }
  }

  /** What the server looks up is the list down to the depth of the search. */
  lemma PoolIsDeep(fused: seq<string>, topK: int, filtered: bool)
    ensures var pool := if filtered then Head(fused, FetchK(topK, true)) else Head(fused, topK);
            && pool <= fused && (|pool| == |fused| || |pool| >= Depth(fused, topK, filtered))
            && (|pool| <= Depth(fused, topK, filtered) || |pool| == 0)
  {}

  /** The walk down the pool: hits are added until there are enough of them; the limit is looked at after a hit is
      added. An unfiltered search for some results answers with those of the first `top_k` candidates that
      have a row. */
  method Results(fused: seq<string>, rows: map<string, Page>, passes: Page -> bool, topK: int, filtered: bool)
    returns (results: seq<string>)
    ensures Answers(fused, rows, passes, topK, filtered, results)
    ensures !filtered && topK > 0 ==>
              Picks(fused, (set k: nat | k < topK && k < |fused| && fused[k] in rows), results)
  {
    PoolIsDeep(fused, topK, filtered);
    WalkStarts(fused, rows, passes, topK, filtered);
    var pool := if filtered then Head(fused, FetchK(topK, true)) else Head(fused, topK);
    results := [];
    for i := 0 to |pool|
      invariant Walking(fused, i, rows, passes, topK, filtered, results) && |results| < Max(topK, 1)
    {
      WalkGoesOn(fused, i, rows, passes, topK, filtered, results);
      if pool[i] in rows && (!filtered || passes(rows[pool[i]])) {
        results := results + [pool[i]];
        if |results| >= topK {
          WalkEnds(fused, i + 1, rows, passes, topK, filtered, results);
          return;
        }
      }
    }
    WalkEnds(fused, |pool|, rows, passes, topK, filtered, results);
  }

  /** How far down the list the walk of an answer went. */
  lemma Walked(
    fused: seq<string>, rows: map<string, Page>, passes: Page -> bool, topK: int, filtered: bool, results: seq<string>)
    returns (n: nat)
    requires Answers(fused, rows, passes, topK, filtered, results)
    ensures n <= |fused| && (n <= Depth(fused, topK, filtered) || n == 0)
    ensures Picks(fused, Hits(fused, n, rows, passes, filtered), results)
    ensures |results| == |Hits(fused, n, rows, passes, filtered)| <= Max(topK, 1)
    ensures |results| == Max(topK, 1) || n == |fused| || n >= Depth(fused, topK, filtered)
    ensures forall id ::
              id in results <==> exists k: nat :: k in Hits(fused, n, rows, passes, filtered) && fused[k] == id
  {
    n :| n <= |fused| && (n <= Depth(fused, topK, filtered) || n == 0)
         && Picks(fused, Hits(fused, n, rows, passes, filtered), results) && |results| <= Max(topK, 1)
         && (|results| == Max(topK, 1) || n == |fused| || n >= Depth(fused, topK, filtered));
    PicksSize(fused, Hits(fused, n, rows, passes, filtered), results);
  }

  /** The lists, rows, filters and limit determine the answer. */
  lemma AnswerIsUnique(
    fused: seq<string>, rows: map<string, Page>, passes: Page -> bool, topK: int, filtered: bool,
    a: seq<string>, b: seq<string>)
    requires Answers(fused, rows, passes, topK, filtered, a) && Answers(fused, rows, passes, topK, filtered, b)
    ensures a == b
  {
    var m := Walked(fused, rows, passes, topK, filtered, a);
    var n := Walked(fused, rows, passes, topK, filtered, b);
    var upToM, upToN := Hits(fused, m, rows, passes, filtered), Hits(fused, n, rows, passes, filtered);
    if m <= n { SubsetIsSmaller(upToM, upToN); } else { SubsetIsSmaller(upToN, upToM); }
    PicksAgree(fused, upToM, a, b);
  }

  /** A filtered answer shorter than `top_k` has left out no passing candidate that was fetched. */
  lemma ShortAnswerIsComplete(
    fused: seq<string>, rows: map<string, Page>, passes: Page -> bool, topK: int, results: seq<string>, id: string)
    requires Answers(fused, rows, passes, topK, true, results) && |results| < topK
    ensures id in results <==>
              && id in rows && passes(rows[id])
              && exists k: nat :: k < |fused| && (k < 100 || k < 15 * topK || k < 5 * topK + 25) && fused[k] == id
  {
    var n := Walked(fused, rows, passes, topK, true, results);
    if k: nat :| k < |fused| && (k < 100 || k < 15 * topK || k < 5 * topK + 25) && fused[k] == id {
      assert id in rows && passes(rows[id]) ==> k in Hits(fused, n, rows, passes, true);
    }
  }

  /** Asked for no results at all, a filtered search still answers with one if any candidate passes. */
  lemma NoneAskedOneGiven(fused: seq<string>, rows: map<string, Page>, passes: Page -> bool, results: seq<string>)
    requires Answers(fused, rows, passes, 0, true, results)
    ensures |results| <= 1
    ensures |results| == 1 <==> exists k: nat :: k < |fused| && k < 100 && fused[k] in rows && passes(rows[fused[k]])
  {
    var n := Walked(fused, rows, passes, 0, true, results);
    if results != [] { assert results[0] in results; }
    if k: nat :| k < |fused| && k < 100 && fused[k] in rows && passes(rows[fused[k]]) {
      assert k < n ==> k in Hits(fused, n, rows, passes, true);
    }
  }
}
