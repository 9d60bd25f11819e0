/** What it means that a list keeps some elements of another: which positions, in which order. */
module Selections {

  /** These positions, each once, in ascending order. */
  ghost predicate Enumerates(order: seq<nat>, at: set<nat>)
  {
    && (forall i, j | 0 <= i < j < |order| :: order[i] < order[j])
    && (forall k :: k in order <==> k in at)
  }

  ghost predicate Reads<T>(whole: seq<T>, order: seq<nat>, kept: seq<T>)
  {
    |kept| == |order| && forall i | 0 <= i < |order| :: order[i] < |whole| && kept[i] == whole[order[i]]
  }

  /** `kept` are the elements of `whole` at these positions, in the order they have there. */
  ghost predicate Picks<T>(whole: seq<T>, at: set<nat>, kept: seq<T>)
  {
    exists order: seq<nat> :: Enumerates(order, at) && Reads(whole, order, kept)
  }

  lemma PicksNone<T>(whole: seq<T>)
    ensures Picks(whole, {}, [])
  {
    assert Enumerates([], {}) && Reads(whole, [], []);
  }

  lemma PicksOfNone<T>(whole: seq<T>, at: set<nat>)
    requires whole == [] && forall k | k in at :: k < |whole|
    ensures Picks(whole, at, [])
  {
    PicksNone(whole);
    assert at == {};
  }

  lemma EnumeratesNext(order: seq<nat>, at: set<nat>, k: nat)
    requires Enumerates(order, at) && forall i | i in at :: i < k
    ensures Enumerates(order + [k], at + {k})
  {
    forall i | 0 <= i < |order| ensures order[i] < k { assert order[i] in order; }
    assert forall x :: x in order + [k] <==> x in order || x == k;
  }

  /** One more element, kept or not. */
  lemma PicksNext<T>(whole: seq<T>, at: set<nat>, kept: seq<T>, x: T, takes: bool)
    requires Picks(whole, at, kept) && forall k | k in at :: k < |whole|
    ensures Picks(whole + [x], if takes then at + {|whole|} else at, kept + if takes then [x] else [])
  {
    var order: seq<nat> :| Enumerates(order, at) && Reads(whole, order, kept);
    if takes {
      EnumeratesNext(order, at, |whole|);
      assert Reads(whole + [x], order + [|whole|], kept + [x]);
    } else {
      assert Reads(whole + [x], order, kept) && kept + [] == kept;
    }
  }

  /** One more position of the same list, beyond those kept. */
  lemma PicksFurther<T>(whole: seq<T>, at: set<nat>, kept: seq<T>, k: nat, takes: bool)
    requires Picks(whole, at, kept) && k < |whole| && forall i | i in at :: i < k
    ensures Picks(whole, if takes then at + {k} else at, kept + if takes then [whole[k]] else [])
  {
    var order: seq<nat> :| Enumerates(order, at) && Reads(whole, order, kept);
    if takes {
      EnumeratesNext(order, at, k);
      assert Reads(whole, order + [k], kept + [whole[k]]);
    } else {
      assert kept + [] == kept;
    }
  }

  /** The same, looking at the last element of a list. */
  lemma PicksLast<T>(whole: seq<T>, before: set<nat>, at: set<nat>, kept: seq<T>)
    requires whole != [] && Picks(whole[..|whole| - 1], before, kept)
    requires forall k :: k in before <==> k in at && k < |whole| - 1
    requires forall k | k in at :: k < |whole|
    ensures Picks(whole, at, kept + if |whole| - 1 in at then [whole[|whole| - 1]] else [])
  {
    var n := |whole| - 1;
    assert whole == whole[..n] + [whole[n]];
    PicksNext(whole[..n], before, kept, whole[n], n in at);
    assert at == if n in at then before + {n} else before;
  }

  /** The last position is the greatest. */
  lemma LastIsMost(order: seq<nat>, at: set<nat>)
    requires Enumerates(order, at) && order != []
    ensures order[|order| - 1] in at && forall k | k in at :: k <= order[|order| - 1]
  {
    var last := order[|order| - 1];
    assert last in order;
    forall k | k in at ensures k <= last {
      assert k in order;
      var i :| 0 <= i < |order| && order[i] == k;
    }
  }

  lemma NoneIsEmpty(order: seq<nat>, at: set<nat>)
    requires Enumerates(order, at)
    ensures order == [] <==> at == {}
  {
    if order != [] { assert order[0] in order; }
    if k: nat :| k in at { assert k in order; }
  }

  lemma {:induction false} EnumerationsAgree(a: seq<nat>, b: seq<nat>, at: set<nat>)
    requires Enumerates(a, at) && Enumerates(b, at)
    ensures a == b
    decreases |a|
  {
    NoneIsEmpty(a, at);
    NoneIsEmpty(b, at);
    if a != [] {
      var m, n := |a| - 1, |b| - 1;
      LastIsMost(a, at);
      LastIsMost(b, at);
      EnumeratesPrevious(a, at);
      EnumeratesPrevious(b, at);
      EnumerationsAgree(a[..m], b[..n], at - {a[m]});
      assert a == a[..m] + [a[m]] && b == b[..n] + [b[n]];
    }
  }

  lemma EnumeratesPrevious(order: seq<nat>, at: set<nat>)
    requires Enumerates(order, at) && order != []
    ensures Enumerates(order[..|order| - 1], at - {order[|order| - 1]})
  {
    var init, last := order[..|order| - 1], order[|order| - 1];
    assert order == init + [last];
    forall k ensures k in init <==> k in at - {last} {
      assert k in order <==> k in init || k == last;
    }
  }

  /** Positions determine what is kept. */
  lemma PicksAgree<T>(whole: seq<T>, at: set<nat>, a: seq<T>, b: seq<T>)
    requires Picks(whole, at, a) && Picks(whole, at, b)
    ensures a == b
  {
    var x: seq<nat> :| Enumerates(x, at) && Reads(whole, x, a);
    var y: seq<nat> :| Enumerates(y, at) && Reads(whole, y, b);
    EnumerationsAgree(x, y, at);
  }

  /** How many are kept, and whether a value is among them. */
  lemma PicksSize<T>(whole: seq<T>, at: set<nat>, kept: seq<T>)
    requires Picks(whole, at, kept)
    ensures |kept| == |at| && forall x :: x in kept <==> exists k :: k in at && k < |whole| && whole[k] == x
  {
    var order: seq<nat> :| Enumerates(order, at) && Reads(whole, order, kept);
    EnumerationSize(order, at);
    forall x ensures x in kept <==> exists k :: k in at && k < |whole| && whole[k] == x {
      if x in kept {
        var i :| 0 <= i < |kept| && kept[i] == x;
        assert order[i] in order;
      }
      if k :| k in at && k < |whole| && whole[k] == x {
        assert k in order;
        var i :| 0 <= i < |order| && order[i] == k;
        assert kept[i] == x;
      }
    }
  }

  lemma {:induction false} EnumerationSize(order: seq<nat>, at: set<nat>)
    requires Enumerates(order, at)
    ensures |order| == |at|
    decreases |order|
  {
    if order == [] {
      assert forall k :: k !in at;
      assert at == {};
    } else {
      EnumeratesPrevious(order, at);
      EnumerationSize(order[..|order| - 1], at - {order[|order| - 1]});
      assert order[|order| - 1] in order;
    }
  }
}
