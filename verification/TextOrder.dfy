/** Code-point order on strings, and the sorted listing of a finite set of strings. */
module TextOrder {

  /** Lexicographic order by code point, the order Python gives `str`. */
  predicate Le(a: string, b: string)
  {
    if a == "" then true
    else if b == "" then false
    else a[0] < b[0] || (a[0] == b[0] && Le(a[1..], b[1..]))
  }

  lemma {:induction false} Total(a: string, b: string)
    ensures Le(a, b) || Le(b, a)
    decreases |a|
  {
    if a != "" && b != "" && a[0] == b[0] {
      Total(a[1..], b[1..]);
    }
  }

  lemma {:induction false} Antisymmetric(a: string, b: string)
    requires Le(a, b) && Le(b, a)
    ensures a == b
    decreases |a|
  {
    if a != "" && b != "" {
      Antisymmetric(a[1..], b[1..]);
      assert a == [a[0]] + a[1..] && b == [b[0]] + b[1..];
    }
  }

  lemma {:induction false} Transitive(a: string, b: string, c: string)
    requires Le(a, b) && Le(b, c)
    ensures Le(a, c)
    decreases |a|
  {
    if a != "" && a[0] == b[0] == c[0] {
      Transitive(a[1..], b[1..], c[1..]);
    }
  }

  /** Where two texts first differ. */
  predicate DifferAt(a: string, b: string, k: nat)
  {
    k < |a| && k < |b| && a[..k] == b[..k] && a[k] != b[k]
  }

  lemma DifferFurther(a: string, b: string, k: nat)
    requires a != "" && b != "" && a[0] == b[0]
    ensures DifferAt(a[1..], b[1..], k) <==> DifferAt(a, b, k + 1)
    ensures !DifferAt(a, b, 0)
  {
    if k + 1 < |a| && k + 1 < |b| {
      assert a[..k + 1] == [a[0]] + a[1..][..k] && b[..k + 1] == [b[0]] + b[1..][..k];
      assert a[1..][..k] == a[..k + 1][1..] && b[1..][..k] == b[..k + 1][1..];
    }
  }

  lemma BeforeTheyAgree(a: string, b: string, k: nat)
    requires a != "" && b != ""
    ensures DifferAt(a, b, k) && k > 0 ==> a[0] == b[0]
  {
    if DifferAt(a, b, k) && k > 0 { assert a[..k][0] == b[..k][0]; }
  }

  /** A text comes before those it begins, and else by the first character in which the two differ. */
  lemma {:induction false} Lexicographic(a: string, b: string)
    ensures Le(a, b) <==> a <= b || exists k: nat :: DifferAt(a, b, k) && a[k] < b[k]
    decreases |a|
  {
    if a != "" && b != "" {
      if a[0] == b[0] {
        var x, y := a[1..], b[1..];
        Lexicographic(x, y);
        assert a == [a[0]] + x && b == [b[0]] + y;
        if k: nat :| DifferAt(x, y, k) && x[k] < y[k] { DifferFurther(a, b, k); }
        if k: nat :| DifferAt(a, b, k) && a[k] < b[k] { DifferFurther(a, b, if k > 0 then k - 1 else 0); }
      } else {
        assert DifferAt(a, b, 0);
        forall k: nat ensures DifferAt(a, b, k) ==> k == 0 { BeforeTheyAgree(a, b, k); }
      }
    }
  }

  predicate Least(x: string, s: set<string>)
  {
    x in s && forall y | y in s :: Le(x, y)
  }

  lemma {:induction false} LeastExists(s: set<string>)
    requires s != {}
    ensures exists x :: Least(x, s)
    decreases |s|
  {
    var e :| e in s;
    if s == {e} {
      Total(e, e);
      assert Least(e, s);
    } else {
      var rest := s - {e};
      assert rest != {};
      LeastExists(rest);
      var m :| Least(m, rest);
      Total(e, e);
      Total(m, e);
      if Le(m, e) {
        assert Least(m, s);
      } else {
        forall y | y in s ensures Le(e, y) {
          if y != e { Transitive(e, m, y); }
        }
        assert Least(e, s);
      }
    }
  }

  function Min(s: set<string>): (x: string)
    requires s != {}
    ensures Least(x, s)
  {
    LeastExists(s);
    assert forall x, y | Least(x, s) && Least(y, s) :: x == y by {
      forall x, y | Least(x, s) && Least(y, s) ensures x == y { Antisymmetric(x, y); }
    }
    var x :| x in s && Least(x, s);
    x
  }

  predicate Ascending(s: seq<string>)
  {
    forall i, j | 0 <= i < j < |s| :: s[i] != s[j] && Le(s[i], s[j])
  }

  /** The elements of a set in order, each once. */
  function Sorted(s: set<string>): (r: seq<string>)
    ensures Ascending(r)
    ensures forall x :: x in r <==> x in s
    ensures |r| == |s|
    decreases |s|
  {
    if s == {} then []
    else
      var m := Min(s);
      var rest := Sorted(s - {m});
      assert forall j | 0 <= j < |rest| :: rest[j] in rest && rest[j] in s - {m};
      [m] + rest
  }

  lemma HeadIsMember(s: seq<string>)
    ensures s != [] ==> s[0] in s
  {}

  /** A sorted listing is determined by what it lists. */
  lemma {:induction false} SortedIsUnique(a: seq<string>, b: seq<string>)
    requires Ascending(a) && Ascending(b)
    requires forall x :: x in a <==> x in b
    ensures a == b
    decreases |a|
  {
    if |a| == 0 || |b| == 0 {
      HeadIsMember(a);
      HeadIsMember(b);
    } else {
      assert a[0] in b && b[0] in a;
      var i :| 0 <= i < |b| && b[i] == a[0];
      var j :| 0 <= j < |a| && a[j] == b[0];
      Total(a[0], a[0]);
      assert Le(b[0], a[0]) && Le(a[0], b[0]);
      Antisymmetric(a[0], b[0]);
      var c, d := a[1..], b[1..];
      forall x ensures x in c <==> x in d {
        if x in c {
          var k :| 0 <= k < |c| && c[k] == x;
          assert x == a[k + 1] && x != a[0] && x in b;
          var l :| 0 <= l < |b| && b[l] == x;
          assert x == d[l - 1];
        }
        if x in d {
          var k :| 0 <= k < |d| && d[k] == x;
          assert x == b[k + 1] && x != b[0] && x in a;
          var l :| 0 <= l < |a| && a[l] == x;
          assert x == c[l - 1];
        }
      }
      SortedIsUnique(c, d);
      assert a == [a[0]] + c && b == [b[0]] + d;
    }
  }
}
