/** `traverse`: breadth-first search over the links table, with a row limit on each hop. */
module Traverse {
  import opened Model
  import opened Selections

  const MAX_HOPS := 5
  const HOP_LIMIT := 1000

  // ---- what can be reached ----

  /** No label, or an empty one, means every edge. */
  predicate Follows(row: Row<Link>, tag: Option<string>)
  {
    tag.None? || tag == Some("") || row.value.tag == tag
  }

  /** The rows of matching edges that leave these nodes, in table order. */
  function Leaving(links: seq<Row<Link>>, tag: Option<string>, nodes: set<string>): seq<Row<Link>>
  {
    if links == [] then []
    else
      var last := links[|links| - 1];
      Leaving(links[..|links| - 1], tag, nodes) + if last.owner in nodes && Follows(last, tag) then [last] else []
  }

  function Targets(rows: seq<Row<Link>>): set<string>
  {
    set r | r in rows :: r.value.target
  }

  function NodesOf(nodes: seq<string>): set<string>
  {
    set n | n in nodes
  }

  /** The nodes at distance at most `k`, growing one hop at a time. */
  function Reach(links: seq<Row<Link>>, tag: Option<string>, from: string, k: nat): set<string>
  {
    if k == 0 then {from}
    else
      var near := Reach(links, tag, from, k - 1);
      near + Targets(Leaving(links, tag, near))
  }

  /** The nodes at distance less than `k`. */
  function Inside(links: seq<Row<Link>>, tag: Option<string>, from: string, k: nat): set<string>
  {
    if k == 0 then {} else Reach(links, tag, from, k - 1)
  }

  /** The nodes at distance exactly `k`. */
  function Ring(links: seq<Row<Link>>, tag: Option<string>, from: string, k: nat): set<string>
  {
    Reach(links, tag, from, k) - Inside(links, tag, from, k)
  }

  /** The edges leaving these nodes are as many as one query returns, or more. */
  predicate Full(links: seq<Row<Link>>, tag: Option<string>, nodes: set<string>)
  {
    |Leaving(links, tag, nodes)| >= HOP_LIMIT
  }

  predicate RingFull(links: seq<Row<Link>>, tag: Option<string>, from: string, k: nat)
  {
    Full(links, tag, Ring(links, tag, from, k))
  }

  /** Some ring nearer than `hops` is full. */
  ghost predicate FullWithin(links: seq<Row<Link>>, tag: Option<string>, from: string, hops: nat)
  {
    exists k: nat :: k < hops && RingFull(links, tag, from, k)
  }

  // ---- the same, by walks ----

  /** A path of matching link rows, each starting where the one before ends. */
  predicate Walk(links: seq<Row<Link>>, tag: Option<string>, from: string, path: seq<Row<Link>>, to: string)
  {
    if path == [] then from == to
    else
      var last := path[|path| - 1];
      last in links && (tag.None? || tag == Some("") || last.value.tag == tag) && last.value.target == to
      && Walk(links, tag, from, path[..|path| - 1], last.owner)
  }

  lemma {:induction false} LeavingIn(links: seq<Row<Link>>, tag: Option<string>, nodes: set<string>, r: Row<Link>)
    ensures r in Leaving(links, tag, nodes) <==> r in links && r.owner in nodes && Follows(r, tag)
    decreases |links|
  {
    if links != [] {
      LeavingIn(links[..|links| - 1], tag, nodes, r);
      assert links == links[..|links| - 1] + [links[|links| - 1]];
    }
  }

  /** Each matching row that leaves these nodes is there as often as in the table. */
  lemma {:induction false} LeavingCount(links: seq<Row<Link>>, tag: Option<string>, nodes: set<string>, r: Row<Link>)
    ensures multiset(Leaving(links, tag, nodes))[r]
         == if r.owner in nodes && Follows(r, tag) then multiset(links)[r] else 0
    decreases |links|
  {
    if links != [] {
      var init, last := links[..|links| - 1], links[|links| - 1];
      LeavingCount(init, tag, nodes, r);
      assert links == init + [last];
    }
  }

  /** The places in the table of the matching rows that leave these nodes. */
  function Places(links: seq<Row<Link>>, tag: Option<string>, nodes: set<string>): set<nat>
  {
    set i: nat | i < |links| && links[i].owner in nodes && Follows(links[i], tag)
  }

  lemma {:induction false} LeavingPicks(links: seq<Row<Link>>, tag: Option<string>, nodes: set<string>)
    ensures Picks(links, Places(links, tag, nodes), Leaving(links, tag, nodes))
    decreases |links|
  {
    if links == [] {
      PicksOfNone(links, Places(links, tag, nodes));
    } else {
      var init := links[..|links| - 1];
      LeavingPicks(init, tag, nodes);
      PicksLast(links, Places(init, tag, nodes), Places(links, tag, nodes), Leaving(init, tag, nodes));
    }
  }

  lemma {:induction false} WalkReaches(
    links: seq<Row<Link>>, tag: Option<string>, from: string, path: seq<Row<Link>>, to: string, k: nat)
    requires Walk(links, tag, from, path, to) && |path| <= k
    ensures to in Reach(links, tag, from, k)
    decreases k
  {
    if path == [] {
      if k > 0 { WalkReaches(links, tag, from, path, to, k - 1); }
    } else {
      var last := path[|path| - 1];
      WalkReaches(links, tag, from, path[..|path| - 1], last.owner, k - 1);
      LeavingIn(links, tag, Reach(links, tag, from, k - 1), last);
    }
  }

  /** A walk of at most `k` links leads there. */
  ghost predicate Near(links: seq<Row<Link>>, tag: Option<string>, from: string, to: string, k: nat)
  {
    exists path :: Walk(links, tag, from, path, to) && |path| <= k
  }

  lemma NearAtOnce(links: seq<Row<Link>>, tag: Option<string>, from: string, k: nat)
    ensures Near(links, tag, from, from, k)
  {
    assert Walk(links, tag, from, [], from);
  }

  lemma NearGrows(links: seq<Row<Link>>, tag: Option<string>, from: string, to: string, k: nat)
    requires Near(links, tag, from, to, k)
    ensures Near(links, tag, from, to, k + 1)
  {
    var path :| Walk(links, tag, from, path, to) && |path| <= k;
  }

  lemma WalkOn(links: seq<Row<Link>>, tag: Option<string>, from: string, path: seq<Row<Link>>, r: Row<Link>)
    requires Walk(links, tag, from, path, r.owner) && r in links && Follows(r, tag)
    ensures Walk(links, tag, from, path + [r], r.value.target)
  {
    assert (path + [r])[..|path|] == path;
  }

  lemma NearOn(links: seq<Row<Link>>, tag: Option<string>, from: string, r: Row<Link>, k: nat)
    requires Near(links, tag, from, r.owner, k) && r in links && Follows(r, tag)
    ensures Near(links, tag, from, r.value.target, k + 1)
  {
    var path :| Walk(links, tag, from, path, r.owner) && |path| <= k;
    WalkOn(links, tag, from, path, r);
  }

  ghost predicate AllNear(links: seq<Row<Link>>, tag: Option<string>, from: string, nodes: set<string>, k: nat)
  {
    forall to | to in nodes :: Near(links, tag, from, to, k)
  }

  /** One hop from near nodes leads to nodes one link further off at most. */
  lemma HopIsNear(
    links: seq<Row<Link>>, tag: Option<string>, from: string, nodes: set<string>, k: nat, to: string)
    requires AllNear(links, tag, from, nodes, k) && to in nodes + Targets(Leaving(links, tag, nodes))
    ensures Near(links, tag, from, to, k + 1)
  {
    if to in nodes {
      NearGrows(links, tag, from, to, k);
    } else {
      var r :| r in Leaving(links, tag, nodes) && r.value.target == to;
      LeavingIn(links, tag, nodes, r);
      NearOn(links, tag, from, r, k);
    }
  }

  lemma HopsAreNear(links: seq<Row<Link>>, tag: Option<string>, from: string, nodes: set<string>, k: nat)
    requires AllNear(links, tag, from, nodes, k)
    ensures AllNear(links, tag, from, nodes + Targets(Leaving(links, tag, nodes)), k + 1)
  {
    forall to | to in nodes + Targets(Leaving(links, tag, nodes)) ensures Near(links, tag, from, to, k + 1) {
      HopIsNear(links, tag, from, nodes, k, to);
    }
  }

  lemma {:induction false} ReachedAreNear(links: seq<Row<Link>>, tag: Option<string>, from: string, k: nat)
    ensures AllNear(links, tag, from, Reach(links, tag, from, k), k)
    decreases k
  {
    if k == 0 {
      NearAtOnce(links, tag, from, k);
    } else {
      ReachedAreNear(links, tag, from, k - 1);
      HopsAreNear(links, tag, from, Reach(links, tag, from, k - 1), k - 1);
    }
  }

  /** `Reach(k)` is what walks of at most `k` matching links lead to. */
  lemma ReachIsDistance(links: seq<Row<Link>>, tag: Option<string>, from: string, to: string, k: nat)
    ensures to in Reach(links, tag, from, k) <==> exists path :: Walk(links, tag, from, path, to) && |path| <= k
  {
    if to in Reach(links, tag, from, k) {
      ReachedAreNear(links, tag, from, k);
    }
    if path :| Walk(links, tag, from, path, to) && |path| <= k {
      WalkReaches(links, tag, from, path, to, k);
    }
  }

  // ---- facts for the loop ----

  lemma {:induction false} LeavingNone(links: seq<Row<Link>>, tag: Option<string>)
    ensures Leaving(links, tag, {}) == []
    decreases |links|
  {
    if links != [] { LeavingNone(links[..|links| - 1], tag); }
  }

  lemma {:induction false} LeavingSplits(links: seq<Row<Link>>, tag: Option<string>, a: set<string>, b: set<string>)
    requires a !! b
    ensures multiset(Leaving(links, tag, a + b)) == multiset(Leaving(links, tag, a)) + multiset(Leaving(links, tag, b))
    decreases |links|
  {
    if links != [] {
      LeavingSplits(links[..|links| - 1], tag, a, b);
    }
  }

  lemma {:induction false} LeavingGrows(links: seq<Row<Link>>, tag: Option<string>, a: set<string>, b: set<string>)
    requires a <= b
    ensures multiset(Leaving(links, tag, a)) <= multiset(Leaving(links, tag, b))
    decreases |links|
  {
    if links != [] {
      LeavingGrows(links[..|links| - 1], tag, a, b);
    }
  }

  lemma LeavingTargetsGrow(links: seq<Row<Link>>, tag: Option<string>, a: set<string>, b: set<string>)
    requires a <= b
    ensures Targets(Leaving(links, tag, a)) <= Targets(Leaving(links, tag, b))
  {
    forall r | r in Leaving(links, tag, a) ensures r in Leaving(links, tag, b) {
      LeavingIn(links, tag, a, r);
      LeavingIn(links, tag, b, r);
    }
  }

  lemma ReachStep(links: seq<Row<Link>>, tag: Option<string>, from: string, k: nat)
    ensures Reach(links, tag, from, k) <= Reach(links, tag, from, k + 1)
  {}

  lemma {:induction false} ChainGrows(chain: nat -> set<string>, j: nat, k: nat)
    requires j <= k && forall i: nat :: chain(i) <= chain(i + 1)
    ensures chain(j) <= chain(k)
    decreases k
  {
    if j < k {
      ChainGrows(chain, j, k - 1);
      assert chain(k - 1) <= chain(k - 1 + 1);
    }
  }

  lemma ReachGrows(links: seq<Row<Link>>, tag: Option<string>, from: string, j: nat, k: nat)
    requires j <= k
    ensures Reach(links, tag, from, j) <= Reach(links, tag, from, k)
  {
    var chain := (i: nat) => Reach(links, tag, from, i);
    forall i: nat ensures chain(i) <= chain(i + 1) { ReachStep(links, tag, from, i); }
    ChainGrows(chain, j, k);
    assert chain(j) == Reach(links, tag, from, j) && chain(k) == Reach(links, tag, from, k);
  }

  lemma InsideGrows(links: seq<Row<Link>>, tag: Option<string>, from: string, j: nat, k: nat)
    requires j <= k
    ensures Inside(links, tag, from, j) <= Inside(links, tag, from, k)
  {
    if j == 0 {
      assert Inside(links, tag, from, j) == {};
    } else {
      ReachGrows(links, tag, from, j - 1, k - 1);
      assert Inside(links, tag, from, j) == Reach(links, tag, from, j - 1);
      assert Inside(links, tag, from, k) == Reach(links, tag, from, k - 1);
    }
  }

  lemma {:induction false} ReachSettles(links: seq<Row<Link>>, tag: Option<string>, from: string, j: nat, k: nat)
    requires 0 < j <= k && Inside(links, tag, from, j) == Reach(links, tag, from, j)
    ensures Reach(links, tag, from, k) == Reach(links, tag, from, j)
    ensures Inside(links, tag, from, k) == Reach(links, tag, from, j)
    decreases k
  {
    if j < k { ReachSettles(links, tag, from, j, k - 1); }
  }

  // ---- the search ----

  datatype Answer =
    | MissingFrom
    | BadHops
    | Found(edges: seq<Row<Link>>, visited: set<string>, truncated: bool)

  /** What a query for the edges of these nodes may return. */
  predicate Returns(links: seq<Row<Link>>, tag: Option<string>, nodes: set<string>, rows: seq<Row<Link>>)
  {
    var all := Leaving(links, tag, nodes);
    multiset(rows) <= multiset(all) && |rows| == if |all| <= HOP_LIMIT then |all| else HOP_LIMIT
  }

  /** A thousand rows at most, each a row of the table that has the label asked for, if one was, and leaves a node of
      the frontier; and all of these if they are fewer. */
  ghost predicate Fetched(
    links: seq<Row<Link>>, tag: Option<string>, frontier: seq<string>, rows: seq<Row<Link>>)
  {
    && |rows| <= 1000
    && forall r: Row<Link> ::
         if r.owner in frontier && (tag.None? || tag == Some("") || r.value.tag == tag)
         then multiset(rows)[r] <= multiset(links)[r] && (|rows| < 1000 ==> multiset(rows)[r] == multiset(links)[r])
         else r !in rows
  }

  lemma ReturnsFetched(links: seq<Row<Link>>, tag: Option<string>, frontier: seq<string>, rows: seq<Row<Link>>)
    requires Returns(links, tag, NodesOf(frontier), rows)
    ensures Fetched(links, tag, frontier, rows)
  {
    var all := Leaving(links, tag, NodesOf(frontier));
    if |rows| < 1000 { FullQuery(rows, all); }
    forall r: Row<Link>
      ensures if r.owner in frontier && (tag.None? || tag == Some("") || r.value.tag == tag)
              then multiset(rows)[r] <= multiset(links)[r] &&
                   (|rows| < 1000 ==> multiset(rows)[r] == multiset(links)[r])
              else r !in rows
    {
      LeavingCount(links, tag, NodesOf(frontier), r);
      assert r in rows <==> multiset(rows)[r] > 0;
    }
  }

  /** One hop's query: at most the limit of the matching rows, whichever the table returns first. */
  method Query(links: seq<Row<Link>>, tag: Option<string>, frontier: seq<string>) returns (rows: seq<Row<Link>>)
    ensures Returns(links, tag, NodesOf(frontier), rows)
    ensures Fetched(links, tag, frontier, rows)
  {
    var all := Leaving(links, tag, NodesOf(frontier));
    if |all| <= HOP_LIMIT {
      rows := all;
    } else {
      rows := all[..HOP_LIMIT];
      assert all == rows + all[HOP_LIMIT..];
    }
    ReturnsFetched(links, tag, frontier, rows);
  }

  /** Note the new targets of a hop. */
  method Expand(rows: seq<Row<Link>>, visited: set<string>) returns (seen: set<string>, next: seq<string>)
    ensures seen == visited + Targets(rows)
    ensures NodesOf(next) == seen - visited
  {
    seen, next := visited, [];
    for i := 0 to |rows|
      invariant seen == visited + Targets(rows[..i])
      invariant NodesOf(next) == seen - visited
    {
      assert rows[..i + 1] == rows[..i] + [rows[i]];
      var t := rows[i].value.target;
      assert Targets(rows[..i + 1]) == Targets(rows[..i]) + {t};
      if t !in seen {
        assert NodesOf(next + [t]) == NodesOf(next) + {t};
        seen := seen + {t};
        next := next + [t];
      }
    }
    assert rows[..|rows|] == rows;
  }

  /** After `h` hops: nodes whose edges were fetched, nodes seen, edges collected. */
  ghost predicate Sound(
    links: seq<Row<Link>>, tag: Option<string>, from: string, h: nat,
    expanded: set<string>, visited: set<string>, edges: seq<Row<Link>>)
  {
    && expanded <= Inside(links, tag, from, h) && visited <= Reach(links, tag, from, h)
    && multiset(edges) <= multiset(Leaving(links, tag, expanded))
  }

  ghost predicate Exact(
    links: seq<Row<Link>>, tag: Option<string>, from: string, h: nat,
    expanded: set<string>, visited: set<string>, edges: seq<Row<Link>>)
  {
    && expanded == Inside(links, tag, from, h) && visited == Reach(links, tag, from, h)
    && multiset(edges) == multiset(Leaving(links, tag, expanded))
  }

  /** The state of the search after `h` hops. */
  ghost predicate Searched(
    links: seq<Row<Link>>, tag: Option<string>, from: string, h: nat,
    expanded: set<string>, frontier: set<string>, visited: set<string>, edges: seq<Row<Link>>, truncated: bool)
  {
    && expanded !! frontier && expanded + frontier == visited
    && Sound(links, tag, from, h, expanded, visited, edges)
    && (truncated <==> FullWithin(links, tag, from, h))
    && (!truncated ==> Exact(links, tag, from, h, expanded, visited, edges))
  }

  lemma HopIsSound(
    links: seq<Row<Link>>, tag: Option<string>, from: string, h: nat,
    expanded: set<string>, visited: set<string>, edges: seq<Row<Link>>, frontier: set<string>, rows: seq<Row<Link>>)
    requires Sound(links, tag, from, h, expanded, visited, edges)
    requires expanded !! frontier && expanded + frontier == visited
    requires multiset(rows) <= multiset(Leaving(links, tag, frontier))
    ensures Sound(links, tag, from, h + 1, visited, visited + Targets(rows), edges + rows)
  {
    LeavingSplits(links, tag, expanded, frontier);
    forall r | r in rows ensures r in Leaving(links, tag, frontier) {
      assert multiset(rows)[r] > 0;
    }
    LeavingTargetsGrow(links, tag, frontier, Reach(links, tag, from, h));
  }

  lemma HopIsExact(
    links: seq<Row<Link>>, tag: Option<string>, from: string, h: nat,
    expanded: set<string>, visited: set<string>, edges: seq<Row<Link>>, frontier: set<string>, rows: seq<Row<Link>>)
    requires Exact(links, tag, from, h, expanded, visited, edges)
    requires expanded !! frontier && expanded + frontier == visited
    requires multiset(rows) == multiset(Leaving(links, tag, frontier))
    ensures Exact(links, tag, from, h + 1, visited, visited + Targets(rows), edges + rows)
  {
    LeavingSplits(links, tag, expanded, frontier);
    forall t ensures t in visited + Targets(rows) <==> t in Reach(links, tag, from, h + 1) {
      if t in Targets(Leaving(links, tag, visited)) {
        var r :| r in Leaving(links, tag, visited) && r.value.target == t;
        LeavingIn(links, tag, visited, r);
        if r.owner in frontier {
          LeavingIn(links, tag, frontier, r);
          assert multiset(rows)[r] > 0;
        } else {
          assert 0 < h;
          LeavingIn(links, tag, expanded, r);
        }
      }
      if t in Targets(rows) {
        var r :| r in rows && r.value.target == t;
        assert multiset(rows)[r] > 0;
        LeavingIn(links, tag, frontier, r);
        LeavingIn(links, tag, visited, r);
      }
    }
  }

  lemma FullQuery(rows: seq<Row<Link>>, all: seq<Row<Link>>)
    requires multiset(rows) <= multiset(all) && |rows| == |all|
    ensures multiset(rows) == multiset(all)
  {
    var rest := multiset(all) - multiset(rows);
    assert multiset(all) == multiset(rows) + rest;
    assert |rest| == 0;
  }

  lemma SearchStarts(links: seq<Row<Link>>, tag: Option<string>, from: string)
    ensures Searched(links, tag, from, 0, {}, NodesOf([from]), {from}, [], false)
  {
    LeavingNone(links, tag);
  }

  lemma FrontierIsRing(
    links: seq<Row<Link>>, tag: Option<string>, from: string, h: nat,
    expanded: set<string>, frontier: set<string>, visited: set<string>)
    requires expanded !! frontier && expanded + frontier == visited
    requires expanded == Inside(links, tag, from, h) && visited == Reach(links, tag, from, h)
    ensures frontier == Ring(links, tag, from, h)
  {}

  lemma SearchGoesOn(
    links: seq<Row<Link>>, tag: Option<string>, from: string, h: nat,
    expanded: set<string>, frontier: set<string>, visited: set<string>, edges: seq<Row<Link>>,
    rows: seq<Row<Link>>, full: bool, truncated: bool)
    requires Searched(links, tag, from, h, expanded, frontier, visited, edges, truncated)
    requires multiset(rows) <= multiset(Leaving(links, tag, frontier))
    requires !full ==> |rows| == |Leaving(links, tag, frontier)|
    requires full <==> Full(links, tag, frontier)
    ensures var seen := visited + Targets(rows);
            Searched(links, tag, from, h + 1, visited, seen - visited, seen, edges + rows, truncated || full)
  {
    HopIsSound(links, tag, from, h, expanded, visited, edges, frontier, rows);
    FullNext(links, tag, from, h);
    if !truncated { FrontierIsRing(links, tag, from, h, expanded, frontier, visited); }
    if !truncated && !full {
      FullQuery(rows, Leaving(links, tag, frontier));
      HopIsExact(links, tag, from, h, expanded, visited, edges, frontier, rows);
    }
  }

  lemma NothingIsNotFull(links: seq<Row<Link>>, tag: Option<string>)
    ensures !Full(links, tag, {})
  {
    LeavingNone(links, tag);
  }

  lemma SettledRing(links: seq<Row<Link>>, tag: Option<string>, from: string, h: nat, k: nat)
    requires 0 < h <= k && Inside(links, tag, from, h) == Reach(links, tag, from, h)
    ensures Ring(links, tag, from, k) == {}
  {
    ReachSettles(links, tag, from, h, k);
  }

  lemma SettledIsNotFull(links: seq<Row<Link>>, tag: Option<string>, from: string, h: nat, k: nat)
    requires 0 < h <= k && Inside(links, tag, from, h) == Reach(links, tag, from, h)
    ensures !RingFull(links, tag, from, k)
  {
    SettledRing(links, tag, from, h, k);
    NothingIsNotFull(links, tag);
  }

  /** Once a hop finds nothing new, no later ring is full. */
  lemma NothingFurther(links: seq<Row<Link>>, tag: Option<string>, from: string, h: nat, hops: nat)
    requires 0 < h <= hops && Inside(links, tag, from, h) == Reach(links, tag, from, h)
    requires !FullWithin(links, tag, from, h)
    ensures !FullWithin(links, tag, from, hops)
  {
    forall k: nat | k < hops ensures !RingFull(links, tag, from, k) {
      if h <= k { SettledIsNotFull(links, tag, from, h, k); }
    }
  }

  lemma FullGrows(links: seq<Row<Link>>, tag: Option<string>, from: string, h: nat, hops: nat)
    requires h <= hops && FullWithin(links, tag, from, h)
    ensures FullWithin(links, tag, from, hops)
  {
    var k: nat :| k < h && RingFull(links, tag, from, k);
    assert k < hops;
  }

  lemma FullNext(links: seq<Row<Link>>, tag: Option<string>, from: string, h: nat)
    ensures FullWithin(links, tag, from, h + 1) <==> FullWithin(links, tag, from, h) || RingFull(links, tag, from, h)
  {
    if RingFull(links, tag, from, h) { assert h < h + 1; }
  }

  /** The search's answer is right for this many hops: sound in any case, exact unless truncated, and truncated
      exactly when some ring within reach has more edges than one query returns. */
  ghost predicate Right(
    links: seq<Row<Link>>, tag: Option<string>, from: string, hops: nat,
    visited: set<string>, edges: seq<Row<Link>>, truncated: bool)
  {
    && visited <= Reach(links, tag, from, hops)
    && multiset(edges) <= multiset(Leaving(links, tag, Inside(links, tag, from, hops)))
    && (truncated <==> FullWithin(links, tag, from, hops))
    && (!truncated ==>
          && visited == Reach(links, tag, from, hops)
          && multiset(edges) == multiset(Leaving(links, tag, Inside(links, tag, from, hops))))
  }

  lemma SoundToTheEnd(
    links: seq<Row<Link>>, tag: Option<string>, from: string, h: nat, hops: nat,
    expanded: set<string>, visited: set<string>, edges: seq<Row<Link>>)
    requires h <= hops && Sound(links, tag, from, h, expanded, visited, edges)
    ensures visited <= Reach(links, tag, from, hops)
    ensures multiset(edges) <= multiset(Leaving(links, tag, Inside(links, tag, from, hops)))
  {
    ReachGrows(links, tag, from, h, hops);
    InsideGrows(links, tag, from, h, hops);
    LeavingGrows(links, tag, expanded, Inside(links, tag, from, hops));
  }

  /** The search may stop early once a hop finds no new node. */
  lemma ExactToTheEnd(
    links: seq<Row<Link>>, tag: Option<string>, from: string, h: nat, hops: nat,
    expanded: set<string>, visited: set<string>, edges: seq<Row<Link>>)
    requires h <= hops && Exact(links, tag, from, h, expanded, visited, edges)
    requires h < hops ==> expanded == visited
    requires !FullWithin(links, tag, from, h)
    ensures visited == Reach(links, tag, from, hops) && !FullWithin(links, tag, from, hops)
    ensures multiset(edges) == multiset(Leaving(links, tag, Inside(links, tag, from, hops)))
  {
    if h < hops {
      assert h > 0;
      ReachSettles(links, tag, from, h, hops);
      NothingFurther(links, tag, from, h, hops);
    }
  }

  lemma SearchEnds(
    links: seq<Row<Link>>, tag: Option<string>, from: string, h: nat, hops: nat,
    expanded: set<string>, frontier: set<string>, visited: set<string>, edges: seq<Row<Link>>, truncated: bool)
    requires Searched(links, tag, from, h, expanded, frontier, visited, edges, truncated)
    requires h <= hops && (h < hops ==> frontier == {})
    ensures Right(links, tag, from, hops, visited, edges, truncated)
  {
    SoundToTheEnd(links, tag, from, h, hops, expanded, visited, edges);
    if truncated {
      FullGrows(links, tag, from, h, hops);
    } else {
      ExactToTheEnd(links, tag, from, h, hops, expanded, visited, edges);
    }
  }

  /** The variables of the search; `expanded` are the nodes whose edges were fetched. */
  datatype Progress = Progress(
    expanded: set<string>, frontier: set<string>, visited: set<string>, edges: seq<Row<Link>>, truncated: bool)

  function AtStart(from: string): Progress
  {
    Progress({}, {from}, {from}, [], false)
  }

  function AfterHop(p: Progress, rows: seq<Row<Link>>): Progress
  {
    var seen := p.visited + Targets(rows);
    Progress(p.visited, seen - p.visited, seen, p.edges + rows, p.truncated || |rows| >= HOP_LIMIT)
  }

  /** `inv` holds at the start, and every hop keeps it, whatever rows the table returns. */
  ghost predicate HopsKeep(
    links: seq<Row<Link>>, tag: Option<string>, from: string, inv: (nat, Progress) -> bool)
  {
    && inv(0, AtStart(from))
    && forall h: nat, p, rows | inv(h, p) && Returns(links, tag, p.frontier, rows) :: inv(h + 1, AfterHop(p, rows))
  }

  /** The loop: hop until there are no hops left or a hop found nothing new. It keeps whatever a hop keeps. */
  method Explore(links: seq<Row<Link>>, from: string, tag: Option<string>, hops: nat,
                 ghost inv: (nat, Progress) -> bool)
    returns (ghost h: nat, ghost expanded: set<string>, frontier: seq<string>,
             visited: set<string>, edges: seq<Row<Link>>, truncated: bool)
    requires HopsKeep(links, tag, from, inv)
    ensures inv(h, Progress(expanded, NodesOf(frontier), visited, edges, truncated))
    ensures h <= hops && (h < hops ==> frontier == [])
  {
    frontier, visited, edges, truncated := [from], {from}, [], false;
    h, expanded := 0, {};
    assert NodesOf([from]) == {from};
    var done := 0;
    while done < hops && frontier != []
      invariant h == done <= hops
      invariant inv(h, Progress(expanded, NodesOf(frontier), visited, edges, truncated))
      decreases hops - done
    {
      ghost var p := Progress(expanded, NodesOf(frontier), visited, edges, truncated);
      var rows := Query(links, tag, frontier);
      assert inv(h + 1, AfterHop(p, rows));
      if |rows| >= HOP_LIMIT {
        truncated := true;
      }
      expanded := visited;
      edges := edges + rows;
      visited, frontier := Expand(rows, visited);
      done := done + 1;
      h := h + 1;
    }
  }

  ghost predicate SearchedIs(links: seq<Row<Link>>, tag: Option<string>, from: string, h: nat, p: Progress)
  {
    Searched(links, tag, from, h, p.expanded, p.frontier, p.visited, p.edges, p.truncated)
  }

  lemma HopKeepsSearched(
    links: seq<Row<Link>>, tag: Option<string>, from: string, h: nat, p: Progress, rows: seq<Row<Link>>)
    requires SearchedIs(links, tag, from, h, p) && Returns(links, tag, p.frontier, rows)
    ensures SearchedIs(links, tag, from, h + 1, AfterHop(p, rows))
  {
    SearchGoesOn(links, tag, from, h, p.expanded, p.frontier, p.visited, p.edges, rows,
                 |rows| >= HOP_LIMIT, p.truncated);
  }

  lemma HopsKeepSearched(links: seq<Row<Link>>, tag: Option<string>, from: string)
    ensures HopsKeep(links, tag, from, (h: nat, p) => SearchedIs(links, tag, from, h, p))
  {
    SearchStarts(links, tag, from);
    assert NodesOf([from]) == {from};
    forall h: nat, p, rows | SearchedIs(links, tag, from, h, p) && Returns(links, tag, p.frontier, rows)
      ensures SearchedIs(links, tag, from, h + 1, AfterHop(p, rows))
    {
      HopKeepsSearched(links, tag, from, h, p, rows);
    }
  }

  // ---- the answer, by walks ----

  /** As many links as this lead there, and no fewer. */
  ghost predicate AtDistance(links: seq<Row<Link>>, tag: Option<string>, from: string, to: string, k: nat)
  {
    Near(links, tag, from, to, k) && (k > 0 ==> !Near(links, tag, from, to, k - 1))
  }

  /** A thousand matching rows or more leave the nodes at this distance. */
  ghost predicate Crowded(links: seq<Row<Link>>, tag: Option<string>, from: string, k: nat)
  {
    |set i: nat | i < |links| && AtDistance(links, tag, from, links[i].owner, k) &&
                  (tag.None? || tag == Some("") || links[i].value.tag == tag)| >= 1000
  }

  lemma ReachIsNear(links: seq<Row<Link>>, tag: Option<string>, from: string, to: string, k: nat)
    ensures to in Reach(links, tag, from, k) <==> Near(links, tag, from, to, k)
  {
    ReachIsDistance(links, tag, from, to, k);
  }

  lemma RingIsDistance(links: seq<Row<Link>>, tag: Option<string>, from: string, to: string, k: nat)
    ensures to in Ring(links, tag, from, k) <==> AtDistance(links, tag, from, to, k)
  {
    ReachIsNear(links, tag, from, to, k);
    if k > 0 { ReachIsNear(links, tag, from, to, k - 1); }
  }

  lemma FullIsCrowded(links: seq<Row<Link>>, tag: Option<string>, from: string, k: nat)
    ensures RingFull(links, tag, from, k) <==> Crowded(links, tag, from, k)
  {
    var ring := Ring(links, tag, from, k);
    LeavingPicks(links, tag, ring);
    PicksSize(links, Places(links, tag, ring), Leaving(links, tag, ring));
    forall i: nat | i < |links|
      ensures links[i].owner in ring <==> AtDistance(links, tag, from, links[i].owner, k)
    {
      RingIsDistance(links, tag, from, links[i].owner, k);
    }
    assert Places(links, tag, ring)
        == set i: nat | i < |links| && AtDistance(links, tag, from, links[i].owner, k) &&
                        (tag.None? || tag == Some("") || links[i].value.tag == tag);
  }

  /** Every returned edge is a row of the table that has the label asked for, if one was, and leaves a node that is
      near enough; it is returned no more often than the table has it, and just as often if nothing was cut off. */
  ghost predicate EdgesAre(
    links: seq<Row<Link>>, tag: Option<string>, near: string -> bool, edges: seq<Row<Link>>, truncated: bool)
  {
    forall r: Row<Link> ::
      if near(r.owner) && (tag.None? || tag == Some("") || r.value.tag == tag)
      then multiset(edges)[r] <= multiset(links)[r] && (!truncated ==> multiset(edges)[r] == multiset(links)[r])
      else r !in edges
  }

  lemma EdgesOf(links: seq<Row<Link>>, tag: Option<string>, nodes: set<string>, near: string -> bool,
                edges: seq<Row<Link>>, truncated: bool)
    requires multiset(edges) <= multiset(Leaving(links, tag, nodes))
    requires !truncated ==> multiset(edges) == multiset(Leaving(links, tag, nodes))
    requires forall n :: near(n) <==> n in nodes
    ensures EdgesAre(links, tag, near, edges, truncated)
  {
    forall r: Row<Link>
      ensures if near(r.owner) && (tag.None? || tag == Some("") || r.value.tag == tag)
              then multiset(edges)[r] <= multiset(links)[r] &&
                   (!truncated ==> multiset(edges)[r] == multiset(links)[r])
              else r !in edges
    {
      LeavingCount(links, tag, nodes, r);
      assert r in edges <==> multiset(edges)[r] > 0;
    }
  }

  ghost function NearerThan(links: seq<Row<Link>>, tag: Option<string>, from: string, k: nat): string -> bool
  {
    n => k > 0 && Near(links, tag, from, n, k - 1)
  }

  lemma RightNode(
    links: seq<Row<Link>>, tag: Option<string>, from: string, hops: nat,
    visited: set<string>, edges: seq<Row<Link>>, truncated: bool, n: string)
    requires Right(links, tag, from, hops, visited, edges, truncated)
    ensures n in visited ==> Near(links, tag, from, n, hops)
    ensures !truncated && Near(links, tag, from, n, hops) ==> n in visited
  {
    ReachIsNear(links, tag, from, n, hops);
  }

  lemma RightSays(
    links: seq<Row<Link>>, tag: Option<string>, from: string, hops: nat,
    visited: set<string>, edges: seq<Row<Link>>, truncated: bool)
    requires Right(links, tag, from, hops, visited, edges, truncated)
    ensures EdgesAre(links, tag, NearerThan(links, tag, from, hops), edges, truncated)
    ensures forall n | n in visited :: Near(links, tag, from, n, hops)
    ensures !truncated ==> forall n | Near(links, tag, from, n, hops) :: n in visited
    ensures truncated <==> exists k: nat :: k < hops && Crowded(links, tag, from, k)
  {
    forall n ensures NearerThan(links, tag, from, hops)(n) <==> n in Inside(links, tag, from, hops) {
      if hops > 0 { ReachIsNear(links, tag, from, n, hops - 1); }
    }
    EdgesOf(links, tag, Inside(links, tag, from, hops), NearerThan(links, tag, from, hops), edges, truncated);
    forall n
      ensures n in visited ==> Near(links, tag, from, n, hops)
      ensures !truncated && Near(links, tag, from, n, hops) ==> n in visited
    {
      RightNode(links, tag, from, hops, visited, edges, truncated, n);
    }
    forall k: nat ensures RingFull(links, tag, from, k) <==> Crowded(links, tag, from, k) {
      FullIsCrowded(links, tag, from, k);
    }
  }

  method Hops(links: seq<Row<Link>>, from: string, tag: Option<string>, hops: nat)
    returns (visited: set<string>, edges: seq<Row<Link>>, truncated: bool)
    ensures Right(links, tag, from, hops, visited, edges, truncated)
    ensures EdgesAre(links, tag, NearerThan(links, tag, from, hops), edges, truncated)
    ensures forall n | n in visited :: Near(links, tag, from, n, hops)
    ensures !truncated ==> forall n | Near(links, tag, from, n, hops) :: n in visited
    ensures truncated <==> exists k: nat :: k < hops && Crowded(links, tag, from, k)
  {
    ghost var h, expanded;
    var frontier;
    HopsKeepSearched(links, tag, from);
    h, expanded, frontier, visited, edges, truncated :=
      Explore(links, from, tag, hops, (h: nat, p) => SearchedIs(links, tag, from, h, p));
    SearchEnds(links, tag, from, h, hops, expanded, NodesOf(frontier), visited, edges, truncated);
    RightSays(links, tag, from, hops, visited, edges, truncated);
  }

  /** Unless a thousand matching rows or more leave the nodes at some distance less than `hops`, the nodes are exactly
      those within `hops` matching links, and the edges exactly the matching rows leaving nodes nearer than `hops`,
      each once. If they do, the answer says so, and both are subsets of that. A row matches if its label is the one
      asked for, if one was. */
  method Search(links: seq<Row<Link>>, from: string, tag: Option<string>, hops: int) returns (answer: Answer)
    ensures from == "" <==> answer.MissingFrom?
    ensures from != "" ==> (answer.BadHops? <==> hops < 1 || hops > 5)
    ensures answer.Found? ==> Right(links, tag, from, hops, answer.visited, answer.edges, answer.truncated)
    ensures answer.Found? ==>
              EdgesAre(links, tag, NearerThan(links, tag, from, hops), answer.edges, answer.truncated)
    ensures answer.Found? && tag.Some? && tag.value != "" ==> forall r | r in answer.edges :: r.value.tag == tag
    ensures answer.Found? ==> forall n | n in answer.visited :: Near(links, tag, from, n, hops)
    ensures answer.Found? && !answer.truncated ==> forall n | Near(links, tag, from, n, hops) :: n in answer.visited
    ensures answer.Found? ==> (answer.truncated <==> exists k: nat :: k < hops && Crowded(links, tag, from, k))
  {
    if from == "" {
      return MissingFrom;
    }
    if hops < 1 || hops > MAX_HOPS {
      return BadHops;
    }
    var visited, edges, truncated := Hops(links, from, tag, hops);
    answer := Found(edges, visited, truncated);
  }
}
