/** Fuzzy alias matching: Jaccard similarity of trigram sets. Texts here are already lower-cased. */
module Trigrams {

  // ---- trigrams ----

  function Gram(s: string, i: nat): string
    requires i + 3 <= |s|
  {
    s[i..i + 3]
  }

  /** The trigrams that start at positions `lo` to `hi - 1`. */
  function Windows(s: string, lo: nat, hi: nat): set<string>
    requires lo <= hi && hi + 2 <= |s|
  {
    if lo == hi then {} else Windows(s, lo, hi - 1) + {Gram(s, hi - 1)}
  }

  /** Texts shorter than three characters have no trigram. */
  function Grams(s: string): set<string>
  {
    if |s| < 3 then {} else Windows(s, 0, |s| - 2)
  }

  function Jaccard(a: string, b: string): real
  {
    var x, y := Grams(a), Grams(b);
    if x == {} || y == {} then 0.0 else |x * y| as real / |x + y| as real
  }

  lemma {:induction false} WindowsCount(s: string, lo: nat, hi: nat)
    requires lo <= hi && hi + 2 <= |s|
    ensures |Windows(s, lo, hi)| <= hi - lo
    decreases hi
  {
    if lo < hi {
      WindowsCount(s, lo, hi - 1);
      var rest, last := Windows(s, lo, hi - 1), {Gram(s, hi - 1)};
      assert |rest + last| == |rest| + |last| - |rest * last|;
    }
  }

  lemma {:induction false} WindowsSplit(s: string, lo: nat, mid: nat, hi: nat)
    requires lo <= mid <= hi && hi + 2 <= |s|
    ensures Windows(s, lo, hi) == Windows(s, lo, mid) + Windows(s, mid, hi)
    decreases hi
  {
    if mid < hi { WindowsSplit(s, lo, mid, hi - 1); }
  }

  /** Equal stretches of text have equal trigrams. */
  lemma {:induction false} WindowsOfPart(s: string, at: nat, part: string, n: nat)
    requires at + |part| <= |s| && s[at..at + |part|] == part && n + 2 <= |part|
    ensures Windows(s, at, at + n) == Windows(part, 0, n)
    decreases n
  {
    if n > 0 {
      WindowsOfPart(s, at, part, n - 1);
      assert forall k | 0 <= k < |part| :: part[k] == s[at + k];
      assert part[n - 1..n + 2] == s[at + n - 1..at + n + 2];
    }
  }

  /** The trigrams that end inside the first part. */
  lemma GramsOfHead(p: string, rest: string)
    requires |p + rest| >= 3
    ensures Windows(p + rest, 0, if |p| >= 2 then |p| - 2 else 0) == Grams(p)
  {
    if |p| >= 3 {
      assert (p + rest)[0..0 + |p|] == p;
      WindowsOfPart(p + rest, 0, p, |p| - 2);
    }
  }

  /** The trigrams that start inside the last part. */
  lemma GramsOfTail(rest: string, q: string)
    requires |rest + q| >= 3
    ensures Windows(rest + q, if |q| >= 2 then |rest| else |rest + q| - 2, |rest + q| - 2) == Grams(q)
  {
    if |q| >= 3 {
      assert (rest + q)[|rest|..|rest| + |q|] == q;
      WindowsOfPart(rest + q, |rest|, q, |q| - 2);
    }
  }

  lemma WindowsInThree(s: string, lo: nat, hi: nat)
    requires lo <= hi && hi + 2 <= |s|
    ensures Windows(s, 0, |s| - 2) == Windows(s, 0, lo) + Windows(s, hi, |s| - 2) + Windows(s, lo, hi)
  {
    WindowsSplit(s, 0, lo, |s| - 2);
    WindowsSplit(s, lo, hi, |s| - 2);
  }

  /** Where the trigrams that touch a block of `x` start and end. */
  function Lo(p: string): nat
  {
    if |p| >= 2 then |p| - 2 else 0
  }

  function Hi(p: string, x: string, q: string): nat
    requires |p| + |x| + |q| >= 3
  {
    if |q| >= 2 then |p| + |x| else |p| + |x| + |q| - 2
  }

  lemma HeadAndTail(p: string, x: string, q: string)
    requires |p| + |x| + |q| >= 3
    ensures var s := p + x + q;
            && Lo(p) <= Hi(p, x, q) <= |s| - 2 && Hi(p, x, q) - Lo(p) <= |x| + 2
            && Windows(s, 0, Lo(p)) == Grams(p) && Windows(s, Hi(p, x, q), |s| - 2) == Grams(q)
  {
    GramsOfTail(p + x, q);
    assert p + x + q == p + (x + q);
    GramsOfHead(p, x + q);
  }

  /** The trigrams of a text when those up to `lo` and those from `hi` are known. */
  lemma GramsBetween(s: string, lo: nat, hi: nat, head: set<string>, tail: set<string>)
    requires lo <= hi <= |s| - 2 && head == Windows(s, 0, lo) && tail == Windows(s, hi, |s| - 2)
    ensures Grams(s) == head + tail + Windows(s, lo, hi) && |Windows(s, lo, hi)| <= hi - lo
  {
    WindowsCount(s, lo, hi);
    WindowsInThree(s, lo, hi);
    assert Grams(s) == Windows(s, 0, |s| - 2) by { if |s| == 2 { assert Windows(s, 0, 0) == {}; } }
  }

  lemma ShortGrams(p: string, x: string, q: string)
    requires |p| + |x| + |q| < 3
    ensures Grams(p + x + q) == {} && Grams(p) == {} && Grams(q) == {}
  {}

  /** The trigrams of a text are those of what comes before a block, those of what comes after it,
      and at most two more than the block is long. */
  lemma GramsAround(p: string, x: string, q: string) returns (middle: set<string>)
    ensures Grams(p + x + q) == Grams(p) + Grams(q) + middle
    ensures |middle| <= |x| + 2
  {
    if |p| + |x| + |q| < 3 {
      middle := {};
      ShortGrams(p, x, q);
    } else {
      var s := p + x + q;
      HeadAndTail(p, x, q);
      GramsBetween(s, Lo(p), Hi(p, x, q), Grams(p), Grams(q));
      middle := Windows(s, Lo(p), Hi(p, x, q));
    }
  }

  lemma SmallerOverSame(c: int, a: int, d: nat)
    requires d > 0 && c <= a
    ensures c as real / d as real <= a as real / d as real
  {}

  lemma SameOverLarger(a: nat, b: nat, d: nat)
    requires 0 < b <= d
    ensures a as real / d as real <= a as real / b as real
  {
    var x, y := a as real / d as real, a as real / b as real;
    assert x * d as real == a as real && y * b as real == a as real;
    assert x >= 0.0;
    assert x * b as real <= x * d as real;
    assert (y - x) * b as real >= 0.0;
  }

  lemma QuotientGrows(a: nat, b: nat, c: int, d: nat)
    requires 0 < b <= d && c <= a
    ensures a as real / b as real >= c as real / d as real
  {
    SmallerOverSame(c, a, d);
    SameOverLarger(a, b, d);
  }

  lemma SetSizes<T>(a: set<T>, b: set<T>)
    ensures |a + b| == |a| + |b| - |a * b|
    ensures a <= b ==> |a| <= |b|
  {
    if a <= b {
      assert b == a + (b - a) && a !! (b - a);
      assert |a + (b - a)| == |a| + |b - a|;
    }
  }

  /** Two sets that share all but `m` and `n` of their members. */
  lemma SharedMost(
    x: set<string>, y: set<string>, shared: set<string>, mx: set<string>, my: set<string>, m: nat, n: nat)
    requires x == shared + mx && y == shared + my && |mx| <= m && |my| <= n
    ensures |x * y| >= |x| - m && |x + y| <= |x| + n
  {
    SetSizes(shared, mx);
    SetSizes(shared, x * y);
    assert x + y == x + my;
    SetSizes(x, my);
  }

  /** Replacing a block of `|x|` characters by another of `|y|` keeps the similarity of a text with `d` distinct
      trigrams at (d - |x| - 2) / (d + |y| + 2) or more. */
  lemma BlockEdit(p: string, x: string, y: string, q: string)
    ensures var d := |Grams(p + x + q)|;
            Jaccard(p + x + q, p + y + q) >= (d - |x| - 2) as real / (d + |y| + 2) as real
  {
    var a, b := Grams(p + x + q), Grams(p + y + q);
    var mx := GramsAround(p, x, q);
    var my := GramsAround(p, y, q);
    SharedMost(a, b, Grams(p) + Grams(q), mx, my, |x| + 2, |y| + 2);
    if a != {} && b != {} {
      SetSizes(a * b, a + b);
      assert |a + b| > 0 by { SetSizes(a, a + b); }
      QuotientGrows(|a * b|, |a + b|, |a| - |x| - 2, |a| + |y| + 2);
    } else {
      assert |a * b| == 0 by { assert a * b == {}; }
      NotPositive(|a| - |x| - 2, |a| + |y| + 2);
    }
  }

  lemma NotPositive(c: int, d: nat)
    requires c <= 0 && d > 0
    ensures c as real / d as real <= 0.0
  {}

  // ---- one typing error ----

  const THRESHOLD := 0.6

  lemma Cancel(r: real, t: real, d: real)
    requires d > 0.0 && r * d >= t * d
    ensures r >= t
  {}

  lemma AtLeastShare(x: real, y: real, t: real)
    requires y > 0.0 && x >= t * y
    ensures x / y >= t
  {
    assert x / y * y == x;
    Cancel(x / y, t, y);
  }

  lemma AtLeastThreshold(c: nat, d: nat)
    requires d > 0 && 5 * c >= 3 * d
    ensures c as real / d as real >= THRESHOLD
  {
    assert c as real >= THRESHOLD * d as real;
    AtLeastShare(c as real, d as real, THRESHOLD);
  }

  /** One character typed for another: (d - 3) / (d + 3), so 12 distinct trigrams are enough. */
  lemma Substitution(p: string, c: char, e: char, q: string)
    ensures var d := |Grams(p + [c] + q)|;
            && Jaccard(p + [c] + q, p + [e] + q) >= (d - 3) as real / (d + 3) as real
            && (d >= 12 ==> Jaccard(p + [c] + q, p + [e] + q) >= THRESHOLD)
  {
    BlockEdit(p, [c], [e], q);
    var d := |Grams(p + [c] + q)|;
    if d >= 12 { AtLeastThreshold(d - 3, d + 3); }
  }

  /** One character left out: (d - 3) / (d + 2), so 11 are enough. */
  lemma Deletion(p: string, c: char, q: string)
    ensures var d := |Grams(p + [c] + q)|;
            && Jaccard(p + [c] + q, p + [] + q) >= (d - 3) as real / (d + 2) as real
            && (d >= 11 ==> Jaccard(p + [c] + q, p + [] + q) >= THRESHOLD)
  {
    BlockEdit(p, [c], [], q);
    var d := |Grams(p + [c] + q)|;
    if d >= 11 { AtLeastThreshold(d - 3, d + 2); }
  }

  /** One character too many: (d - 2) / (d + 3), so 10 are enough. */
  lemma Insertion(p: string, e: char, q: string)
    ensures var d := |Grams(p + [] + q)|;
            && Jaccard(p + [] + q, p + [e] + q) >= (d - 2) as real / (d + 3) as real
            && (d >= 10 ==> Jaccard(p + [] + q, p + [e] + q) >= THRESHOLD)
  {
    BlockEdit(p, [], [e], q);
    var d := |Grams(p + [] + q)|;
    if d >= 10 { AtLeastThreshold(d - 2, d + 3); }
  }

  // ---- the bounds are tight ----

  predicate AllDifferent(s: string)
  {
    forall i, j | 0 <= i < j < |s| :: s[i] != s[j]
  }

  lemma {:induction false} WindowsIn(s: string, lo: nat, hi: nat, w: string)
    requires lo <= hi && hi + 2 <= |s|
    ensures w in Windows(s, lo, hi) <==> exists i :: lo <= i < hi && w == Gram(s, i)
    decreases hi
  {
    if lo < hi {
      WindowsIn(s, lo, hi - 1, w);
    }
  }

  lemma LaterGramIsNew(s: string, lo: nat, hi: nat)
    requires AllDifferent(s) && lo <= hi && hi + 3 <= |s|
    ensures Gram(s, hi) !in Windows(s, lo, hi)
  {
    WindowsIn(s, lo, hi, Gram(s, hi));
    forall i | lo <= i < hi ensures Gram(s, i) != Gram(s, hi) {
      assert Gram(s, i)[0] == s[i] && Gram(s, hi)[0] == s[hi];
    }
  }

  lemma {:induction false} WindowsOfDifferent(s: string, lo: nat, hi: nat)
    requires AllDifferent(s) && lo <= hi && hi + 2 <= |s|
    ensures |Windows(s, lo, hi)| == hi - lo
    decreases hi
  {
    if lo < hi {
      WindowsOfDifferent(s, lo, hi - 1);
      LaterGramIsNew(s, lo, hi - 1);
    }
  }

  lemma GramsIn(s: string, w: string)
    ensures w in Grams(s) <==> exists i: nat :: i + 3 <= |s| && w == Gram(s, i)
  {
    if |s| >= 3 { WindowsIn(s, 0, |s| - 2, w); }
  }

  lemma GramsOfDifferent(s: string)
    requires AllDifferent(s) && |s| >= 2
    ensures |Grams(s)| == |s| - 2
  {
    if |s| >= 3 { WindowsOfDifferent(s, 0, |s| - 2); }
  }

  lemma GramAcross(p: string, c: char, q: string, i: nat)
    requires i <= |p| < i + 3 <= |p + [c] + q|
    ensures c in Gram(p + [c] + q, i)
  {
    assert Gram(p + [c] + q, i)[|p| - i] == c;
  }

  /** A trigram of a text that misses one position lies before it or after it. */
  lemma GramBesides(p: string, c: char, q: string, w: string)
    requires w in Grams(p + [c] + q) && c !in w
    ensures w in Grams(p) || w in Grams(q)
  {
    var s := p + [c] + q;
    GramsIn(s, w);
    var i: nat :| i + 3 <= |s| && w == Gram(s, i);
    if i + 3 <= |p| {
      assert w == Gram(p, i);
      GramsIn(p, w);
    } else if i > |p| {
      var k := i - |p| - 1;
      assert w == Gram(q, k);
      GramsIn(q, w);
    } else {
      GramAcross(p, c, q, i);
    }
  }

  lemma GramsHold(s: string, w: string)
    requires w in Grams(s)
    ensures |w| == 3 && forall k | 0 <= k < 3 :: w[k] in s
  {
    GramsIn(s, w);
  }

  lemma NoSharedChar(p: string, c: char, q: string, x: char)
    requires AllDifferent(p + [c] + q) && x in p
    ensures x !in q && x != c
  {
    var a := p + [c] + q;
    var i :| 0 <= i < |p| && p[i] == x;
    assert a[i] == x && a[|p|] == c;
    forall j | 0 <= j < |q| ensures q[j] != x {
      assert a[|p| + 1 + j] == q[j];
    }
  }

  lemma NoCharNoGram(s: string, w: string)
    requires |w| == 3 && w[0] !in s
    ensures w !in Grams(s)
  {
    if w in Grams(s) { GramsHold(s, w); }
  }

  lemma ReplacedIsGone(p: string, c: char, e: char, q: string)
    requires AllDifferent(p + [c] + q) && e !in p + [c] + q
    ensures c !in p + [e] + q
  {
    var a, b := p + [c] + q, p + [e] + q;
    assert a[|p|] == c && c in a;
    forall k | 0 <= k < |b| ensures b[k] != c {
      assert if k == |p| then b[k] == e else b[k] == a[k];
    }
  }

  /** Two texts that differ in a block one of whose characters the other text does not have share the trigrams
      before the block and those after it. */
  lemma SharedGrams(p: string, c: char, y: string, q: string)
    requires AllDifferent(p + [c] + q) && c !in p + y + q
    ensures Grams(p + [c] + q) * Grams(p + y + q) == Grams(p) + Grams(q)
    ensures Grams(p) !! Grams(q)
  {
    var a, b := p + [c] + q, p + y + q;
    var _ := GramsAround(p, [c], q);
    var _ := GramsAround(p, y, q);
    forall w | w in Grams(a) && w in Grams(b) ensures w in Grams(p) || w in Grams(q) {
      GramsHold(b, w);
      GramBesides(p, c, q, w);
    }
    forall w | w in Grams(p) ensures w !in Grams(q) {
      GramsHold(p, w);
      NoSharedChar(p, c, q, w[0]);
      NoCharNoGram(q, w);
    }
  }

  lemma StillDifferent(p: string, c: char, e: char, q: string)
    requires AllDifferent(p + [c] + q) && e !in p + [c] + q
    ensures AllDifferent(p + [e] + q) && AllDifferent(p) && AllDifferent(q)
  {
    var a, b := p + [c] + q, p + [e] + q;
    assert forall k | 0 <= k < |a| && k != |p| :: b[k] == a[k] && a[k] in a;
    assert b[|p|] == e;
    assert forall k | 0 <= k < |p| :: a[k] == p[k];
    assert forall k | 0 <= k < |q| :: a[|p| + 1 + k] == q[k];
  }

  /** In a text without repeated characters, mistyping a character that has two others on each side
      costs as much as the bound allows. */
  lemma SubstitutionIsTight(p: string, c: char, e: char, q: string)
    requires AllDifferent(p + [c] + q) && e !in p + [c] + q && |p| >= 2 && |q| >= 2
    ensures var d := |Grams(p + [c] + q)|;
            && d == |p| + |q| - 1
            && Jaccard(p + [c] + q, p + [e] + q) == (d - 3) as real / (d + 3) as real
  {
    var a, b := p + [c] + q, p + [e] + q;
    StillDifferent(p, c, e, q);
    GramsOfDifferent(a);
    GramsOfDifferent(b);
    GramsOfDifferent(p);
    GramsOfDifferent(q);
    ReplacedIsGone(p, c, e, q);
    SharedGrams(p, c, [e], q);
    SetSizes(Grams(p), Grams(q));
    SetSizes(Grams(a), Grams(b));
    assert |Grams(p) * Grams(q)| == 0;
  }

  /** With 11 distinct trigrams one mistyped character can miss the threshold. */
  lemma ElevenAreNotEnough(p: string, c: char, e: char, q: string)
    requires AllDifferent(p + [c] + q) && e !in p + [c] + q && |p| >= 2 && |q| >= 2 && |p| + |q| == 12
    ensures |Grams(p + [c] + q)| == 11 && Jaccard(p + [c] + q, p + [e] + q) < THRESHOLD
  {
    SubstitutionIsTight(p, c, e, q);
  }

  /** With 12 it just meets it. */
  lemma TwelveJustMeetIt(p: string, c: char, e: char, q: string)
    requires AllDifferent(p + [c] + q) && e !in p + [c] + q && |p| >= 2 && |q| >= 2 && |p| + |q| == 13
    ensures |Grams(p + [c] + q)| == 12 && Jaccard(p + [c] + q, p + [e] + q) == THRESHOLD
  {
    SubstitutionIsTight(p, c, e, q);
  }

  lemma WithoutOne(p: string, c: char, q: string)
    requires AllDifferent(p + [c] + q)
    ensures AllDifferent(p + [] + q) && AllDifferent(p) && AllDifferent(q) && c !in p + [] + q
  {
    var a, b := p + [c] + q, p + [] + q;
    assert a[|p|] == c;
    assert forall k | 0 <= k < |b| :: b[k] == a[if k < |p| then k else k + 1];
    assert forall k | 0 <= k < |p| :: a[k] == p[k];
    assert forall k | 0 <= k < |q| :: a[|p| + 1 + k] == q[k];
  }

  /** How many trigrams a text without repeated characters has with and without one of its characters,
      and how many the two share. */
  lemma WithAndWithout(p: string, c: char, q: string)
    requires AllDifferent(p + [c] + q) && |p| >= 2 && |q| >= 2
    ensures var a, b := Grams(p + [c] + q), Grams(p + [] + q);
            && |a| == |p| + |q| - 1 && |b| == |p| + |q| - 2
            && |a * b| == |p| + |q| - 4 && |a + b| == |p| + |q| + 1
  {
    var a, b := p + [c] + q, p + [] + q;
    WithoutOne(p, c, q);
    GramsOfDifferent(a);
    GramsOfDifferent(b);
    GramsOfDifferent(p);
    GramsOfDifferent(q);
    SharedGrams(p, c, [], q);
    SetSizes(Grams(p), Grams(q));
    SetSizes(Grams(a), Grams(b));
    assert |Grams(p) * Grams(q)| == 0;
  }

  lemma JaccardIs(a: string, b: string, common: nat, all: nat)
    requires |Grams(a)| > 0 && |Grams(b)| > 0
    requires |Grams(a) * Grams(b)| == common && |Grams(a) + Grams(b)| == all
    ensures all > 0 && Jaccard(a, b) == common as real / all as real
  {
    SetSizes(Grams(a), Grams(a) + Grams(b));
  }

  /** Leaving such a character out costs as much as the bound allows as well; so with 10 distinct trigrams
      it can miss the threshold. */
  lemma DeletionIsTight(p: string, c: char, q: string)
    requires AllDifferent(p + [c] + q) && |p| >= 2 && |q| >= 2
    ensures var d := |Grams(p + [c] + q)|;
            && d == |p| + |q| - 1
            && Jaccard(p + [c] + q, p + [] + q) == (d - 3) as real / (d + 2) as real
            && (d == 10 ==> Jaccard(p + [c] + q, p + [] + q) < THRESHOLD)
  {
    WithAndWithout(p, c, q);
    JaccardIs(p + [c] + q, p + [] + q, |p| + |q| - 4, |p| + |q| + 1);
  }

  /** And so does putting one in; with 9 distinct trigrams it can miss the threshold. */
  lemma InsertionIsTight(p: string, e: char, q: string)
    requires AllDifferent(p + [e] + q) && |p| >= 2 && |q| >= 2
    ensures var d := |Grams(p + [] + q)|;
            && d == |p| + |q| - 2
            && Jaccard(p + [] + q, p + [e] + q) == (d - 2) as real / (d + 3) as real
            && (d == 9 ==> Jaccard(p + [] + q, p + [e] + q) < THRESHOLD)
  {
    WithAndWithout(p, e, q);
    var a, b := Grams(p + [] + q), Grams(p + [e] + q);
    assert a * b == b * a && a + b == b + a;
    JaccardIs(p + [] + q, p + [e] + q, |p| + |q| - 4, |p| + |q| + 1);
  }

  // ---- similarity ----

  lemma NoGrams(s: string)
    ensures Grams(s) == {} <==> |s| < 3
  {
    GramsIn(s, if |s| >= 3 then s[0..3] else "");
    if |s| >= 3 { assert s[0..3] == Gram(s, 0); }
  }

  lemma Ratio(c: nat, d: nat)
    requires c <= d && d > 0
    ensures 0.0 <= c as real / d as real <= 1.0
    ensures c as real / d as real == 1.0 <==> c == d
    ensures c as real / d as real == 0.0 <==> c == 0
  {
    var r := c as real / d as real;
    assert r * d as real == c as real;
  }

  /** Three characters of the text in a row. */
  predicate Contains(s: string, w: string)
  {
    |w| == 3 && exists i: nat :: i + 3 <= |s| && s[i] == w[0] && s[i + 1] == w[1] && s[i + 2] == w[2]
  }

  lemma GramsAreContained(s: string, w: string)
    ensures w in Grams(s) <==> Contains(s, w)
  {
    GramsIn(s, w);
    if w in Grams(s) {
      var i: nat :| i + 3 <= |s| && w == Gram(s, i);
      assert s[i] == w[0] && s[i + 1] == w[1] && s[i + 2] == w[2];
    }
    if Contains(s, w) {
      var i: nat :| i + 3 <= |s| && s[i] == w[0] && s[i + 1] == w[1] && s[i + 2] == w[2];
      assert w == Gram(s, i);
    }
  }

  lemma SharedContents(a: string, b: string)
    ensures Grams(a) !! Grams(b) <==> forall w :: !(Contains(a, w) && Contains(b, w))
    ensures Grams(a) == Grams(b) <==> forall w :: Contains(a, w) <==> Contains(b, w)
  {
    forall w ensures (w in Grams(a) <==> Contains(a, w)) && (w in Grams(b) <==> Contains(b, w)) {
      GramsAreContained(a, w);
      GramsAreContained(b, w);
    }
  }

  lemma AllShared(x: set<string>, y: set<string>)
    requires |x * y| == |x + y|
    ensures x == y
  {
    var rest := x + y - x * y;
    assert x + y == x * y + rest && |x * y + rest| == |x * y| + |rest|;
    assert rest == {};
    forall w ensures w in x <==> w in y { assert w !in rest; }
  }

  lemma SharedOfAll(x: set<string>, y: set<string>)
    requires x != {}
    ensures 0.0 <= |x * y| as real / |x + y| as real <= 1.0
    ensures |x * y| as real / |x + y| as real == 1.0 <==> x == y
    ensures |x * y| as real / |x + y| as real == 0.0 <==> x !! y
  {
    SetSizes(x * y, x + y);
    SetSizes(x, x + y);
    Ratio(|x * y|, |x + y|);
    if x == y { assert x * y == x && x + y == x; }
    if |x * y| == |x + y| { AllShared(x, y); }
  }

  lemma SimilarityOfSets(a: string, b: string)
    ensures 0.0 <= Jaccard(a, b) <= 1.0 && Jaccard(a, b) == Jaccard(b, a)
    ensures Jaccard(a, b) == 0.0 <==> Grams(a) !! Grams(b)
    ensures Jaccard(a, b) == 1.0 <==> Grams(a) == Grams(b) != {}
  {
    var x, y := Grams(a), Grams(b);
    assert x * y == y * x && x + y == y + x;
    if x != {} && y != {} { SharedOfAll(x, y); }
  }

  /** Similarity lies between 0 and 1 and does not depend on the order of the two texts. It is 0 exactly if they have
      no three characters in a row in common, as texts of fewer than three characters never have, and 1 exactly if
      they have all in common and there are any: the same text twice, if it has three characters. */
  lemma SimilarityIs(a: string, b: string)
    ensures 0.0 <= Jaccard(a, b) <= 1.0 && Jaccard(a, b) == Jaccard(b, a)
    ensures Jaccard(a, b) == 0.0 <==> forall w :: !(Contains(a, w) && Contains(b, w))
    ensures Jaccard(a, b) == 1.0 <==> |a| >= 3 && forall w :: Contains(a, w) <==> Contains(b, w)
    ensures |a| < 3 || |b| < 3 ==> Jaccard(a, b) == 0.0
  {
    SimilarityOfSets(a, b);
    SharedContents(a, b);
    NoGrams(a);
    NoGrams(b);
  }

  // ---- the lookup ----

  /** The best score over a page's aliases, and the position of the first alias that has it,
      or the length if none scores at all. */
  method BestAlias(query: string, aliases: seq<string>) returns (best: real, at: nat)
    ensures best >= 0.0 && forall i | 0 <= i < |aliases| :: Jaccard(query, aliases[i]) <= best
    ensures at <= |aliases| && (at < |aliases| <==> best > 0.0)
    ensures at < |aliases| ==> Jaccard(query, aliases[at]) == best
    ensures forall i | 0 <= i < at :: Jaccard(query, aliases[i]) < best || best == 0.0
  {
    best, at := 0.0, |aliases|;
    for k := 0 to |aliases|
      invariant best >= 0.0 && forall i | 0 <= i < k :: Jaccard(query, aliases[i]) <= best
      invariant at < k || (at == |aliases| && best == 0.0)
      invariant at < k ==> best > 0.0 && Jaccard(query, aliases[at]) == best
      invariant at < k ==> forall i | 0 <= i < at :: Jaccard(query, aliases[i]) < best
    {
      var score := Jaccard(query, aliases[k]);
      if score > best {
        best, at := score, k;
      }
    }
  }

  /** A page is a match exactly when some alias of it reaches the threshold. */
  method IsMatch(query: string, aliases: seq<string>, threshold: real) returns (found: bool)
    requires 0.0 < threshold <= 1.0
    ensures found <==> exists i :: 0 <= i < |aliases| && Jaccard(query, aliases[i]) >= threshold
  {
    var best, at := BestAlias(query, aliases);
    found := best >= threshold && at < |aliases|;
  }
}
