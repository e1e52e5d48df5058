/** `itertools.permutations(xs, r)` on a sequence of letters, each tuple
    joined into a string: the r-length selections of positions of `xs`
    without repetition, in lexicographic order of the positions. */
module Permutations {

  /** No letter occurs twice. */
  predicate Distinct(xs: seq<char>) {
    forall i, j :: 0 <= i < j < |xs| ==> xs[i] != xs[j]
  }

  /** `xs` with position `i` removed. */
  function Without(xs: seq<char>, i: nat): (r: seq<char>)
    requires i < |xs|
    ensures |r| == |xs| - 1
    ensures forall c :: c in r ==> c in xs
    ensures Distinct(xs) ==> Distinct(r) && xs[i] !in r
    ensures Distinct(xs) ==> forall c :: c in xs && c != xs[i] ==> c in r
  {
    var r := xs[..i] + xs[i + 1..];
    assert forall k :: 0 <= k < |r| ==> r[k] == if k < i then xs[k] else xs[k + 1];
    assert forall c :: c in xs && c != xs[i] ==> c in r by {
      forall c | c in xs && c != xs[i] ensures c in r {
        var k :| 0 <= k < |xs| && xs[k] == c;
        if k < i { assert r[k] == c; } else { assert r[k - 1] == c; }
      }
    }
    r
  }

  /** Every string of `ts` with `c` in front. */
  function Prefix(c: char, ts: seq<string>): (r: seq<string>)
    ensures |r| == |ts|
    ensures forall k :: 0 <= k < |ts| ==> r[k] == [c] + ts[k]
  {
    seq(|ts|, k requires 0 <= k < |ts| => [c] + ts[k])
  }

  function Arrangements(xs: seq<char>, r: nat): seq<string>
    decreases r, |xs| + 1
  {
    if r == 0 then [""] else ArrangementsFrom(xs, 0, r)
  }

  /** The arrangements whose first letter is taken from position `i` or
      later. */
  function ArrangementsFrom(xs: seq<char>, i: nat, r: nat): seq<string>
    requires 0 < r && i <= |xs|
    decreases r, |xs| - i
  {
    if i == |xs| then []
    else Prefix(xs[i], Arrangements(Without(xs, i), r - 1)) + ArrangementsFrom(xs, i + 1, r)
  }

  /** n · (n-1) · … · (n-r+1). */
  function Falling(n: nat, r: nat): nat {
    if r == 0 then 1 else if n == 0 then 0 else n * Falling(n - 1, r - 1)
  }

  /** There are n!/(n-r)! arrangements of n letters. */
  lemma {:induction false} ArrangementsCount(xs: seq<char>, r: nat)
    ensures |Arrangements(xs, r)| == Falling(|xs|, r)
    decreases r, |xs| + 1
  {
    if r > 0 {
      ArrangementsFromCount(xs, 0, r);
    }
  }

  lemma {:induction false} ArrangementsFromCount(xs: seq<char>, i: nat, r: nat)
    requires 0 < r && i <= |xs|
    ensures |xs| > 0 ==> |ArrangementsFrom(xs, i, r)| == (|xs| - i) * Falling(|xs| - 1, r - 1)
    ensures |xs| == 0 ==> ArrangementsFrom(xs, i, r) == []
    decreases r, |xs| - i
  {
    if i < |xs| {
      var ys := Without(xs, i);
      var f := Falling(|xs| - 1, r - 1);
      ArrangementsCount(ys, r - 1);
      ArrangementsFromCount(xs, i + 1, r);
      assert |Prefix(xs[i], Arrangements(ys, r - 1))| == f;
      assert |ArrangementsFrom(xs, i + 1, r)| == (|xs| - i - 1) * f;
      OneMore(|xs| - i - 1, f);
    }
  }

  lemma OneMore(a: nat, f: nat)
    ensures f + a * f == (a + 1) * f
  {
  }

  /** Every arrangement has length r and is made of letters of `xs`, with
      no letter twice when `xs` has none twice. */
  lemma {:induction false} ArrangementShape(xs: seq<char>, r: nat, t: string)
    requires t in Arrangements(xs, r)
    ensures |t| == r
    ensures forall c :: c in t ==> c in xs
    ensures Distinct(xs) ==> Distinct(t)
    decreases r, |xs| + 1
  {
    if r > 0 {
      ArrangementFromShape(xs, 0, r, t);
    }
  }

  lemma {:induction false} ArrangementFromShape(xs: seq<char>, i: nat, r: nat, t: string)
    requires 0 < r && i <= |xs| && t in ArrangementsFrom(xs, i, r)
    ensures |t| == r
    ensures forall c :: c in t ==> c in xs
    ensures t[0] in xs[i..]
    ensures Distinct(xs) ==> Distinct(t)
    decreases r, |xs| - i
  {
    var here := Prefix(xs[i], Arrangements(Without(xs, i), r - 1));
    if t in here {
      var k :| 0 <= k < |here| && here[k] == t;
      var rest := Arrangements(Without(xs, i), r - 1)[k];
      assert t == [xs[i]] + rest;
      ArrangementShape(Without(xs, i), r - 1, rest);
      assert xs[i..][0] == xs[i];
      if Distinct(xs) {
        forall a, b | 0 <= a < b < |t| ensures t[a] != t[b] {
          if a == 0 {
            assert t[b] == rest[b - 1] && rest[b - 1] in rest;
          } else {
            assert t[a] == rest[a - 1] && t[b] == rest[b - 1];
          }
        }
      }
    } else {
      ArrangementFromShape(xs, i + 1, r, t);
      assert xs[i + 1..] == xs[i..][1..];
    }
  }

  /** Conversely, every string of r distinct letters of `xs` is an
      arrangement (for `xs` without repeated letters). */
  lemma {:induction false} ArrangementComplete(xs: seq<char>, r: nat, t: string)
    requires Distinct(xs) && Distinct(t) && |t| == r
    requires forall c :: c in t ==> c in xs
    ensures t in Arrangements(xs, r)
    decreases r, |xs| + 1
  {
    if r > 0 {
      assert t[0] in t;
      var i :| 0 <= i < |xs| && xs[i] == t[0];
      ArrangementFromComplete(xs, 0, i, r, t);
    }
  }

  lemma {:induction false} ArrangementFromComplete(xs: seq<char>, from: nat, i: nat, r: nat, t: string)
    requires Distinct(xs) && Distinct(t) && |t| == r > 0
    requires forall c :: c in t ==> c in xs
    requires from <= i < |xs| && xs[i] == t[0]
    ensures t in ArrangementsFrom(xs, from, r)
    decreases r, i - from
  {
    if from < i {
      ArrangementFromComplete(xs, from + 1, i, r, t);
    } else {
      var ys := Without(xs, i);
      var rest := t[1..];
      TailInWithout(xs, i, t);
      ArrangementComplete(ys, r - 1, rest);
      PrefixMember(xs[i], Arrangements(ys, r - 1), rest);
      assert [xs[i]] + rest == t;
    }
  }

  /** Once its first letter, at position `i`, is taken out of `xs`, the rest
      of a string of distinct letters of `xs` is drawn from what remains. */
  lemma TailInWithout(xs: seq<char>, i: nat, t: string)
    requires Distinct(xs) && Distinct(t) && |t| > 0
    requires forall c :: c in t ==> c in xs
    requires i < |xs| && xs[i] == t[0]
    ensures Distinct(t[1..]) && forall c :: c in t[1..] ==> c in Without(xs, i)
  {
    var rest := t[1..];
    forall c | c in rest ensures c in Without(xs, i) {
      var k :| 0 <= k < |rest| && rest[k] == c;
      assert t[k + 1] == c && t[0] != t[k + 1];
    }
    forall a, b | 0 <= a < b < |rest| ensures rest[a] != rest[b] {
      assert rest[a] == t[a + 1] && rest[b] == t[b + 1];
    }
  }

  lemma PrefixMember(c: char, ts: seq<string>, t: string)
    requires t in ts
    ensures [c] + t in Prefix(c, ts)
  {
    var k :| 0 <= k < |ts| && ts[k] == t;
    assert Prefix(c, ts)[k] == [c] + t;
  }

  /** The first arrangement takes the first r letters in order. */
  lemma {:induction false} FirstArrangement(xs: seq<char>, r: nat)
    requires r <= |xs|
    ensures |Arrangements(xs, r)| > 0 && Arrangements(xs, r)[0] == xs[..r]
    decreases r
  {
    if r > 0 {
      var ys := Without(xs, 0);
      assert ys == xs[1..];
      FirstArrangement(ys, r - 1);
      var tails := Arrangements(ys, r - 1);
      var here := Prefix(xs[0], tails);
      assert Arrangements(xs, r) == here + ArrangementsFrom(xs, 1, r);
      assert here[0] == [xs[0]] + tails[0];
      HeadThenPrefix(xs, r);
    }
  }

  lemma HeadThenPrefix(xs: seq<char>, r: nat)
    requires 0 < r <= |xs|
    ensures [xs[0]] + xs[1..][..r - 1] == xs[..r]
  {
  }
}
