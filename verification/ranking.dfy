/** How main.py turns yes/no answers into RIASEC counts and ranks the six
    letters: which answers count, the per-letter tallies, the two sort orders
    (page 6 breaks ties reverse-alphabetically, `submit_survey`
    alphabetically), the groups of equal count that feed `generate_code`,
    and the top three letters of `submit_survey`. */
module Ranking {
  import opened Common
  import opened JsValues
  import opened Permutations
  import opened HollandCode

  /** A question of the pool: its text and its `category` string. */
  datatype PoolQuestion = PoolQuestion(text: string, category: string)

  /** The keys of `category_counts` on page 6, in dict order. */
  const PageSixLetters: seq<char> := "RASCIE"
  /** The keys of `category_counts` in `submit_survey`, in dict order. */
  const SubmitLetters: seq<char> := "RIASEC"

  predicate IsCategoryLetter(c: char) {
    c in "RIASEC"
  }

  /** `category in category_counts`: the category is a one-letter RIASEC
      string, and this is its letter. */
  function LetterOf(category: string): (r: Option<char>)
    ensures r.Some? <==> |category| == 1 && IsCategoryLetter(category[0])
    ensures r.Some? ==> category == [r.value]
  {
    if |category| == 1 && IsCategoryLetter(category[0]) then Some(category[0]) else None
  }

  /** `str(answer).lower() == "yes"`; a number never prints as "yes", and
      the empty string is falsy and is not "yes" either. */
  predicate IsYes(v: JsValue) {
    v.Str? && Lower(v.s) == "yes"
  }

  /** How many answers say yes. */
  function YesCount(answers: seq<JsValue>): nat {
    if answers == [] then 0
    else YesCount(answers[..|answers| - 1]) + (if IsYes(answers[|answers| - 1]) then 1 else 0)
  }

  /** The positions of the yes answers, in increasing order. */
  function YesPositions(answers: seq<JsValue>): (r: seq<nat>)
    ensures |r| == YesCount(answers)
    ensures forall k :: 0 <= k < |r| ==> r[k] < |answers| && IsYes(answers[r[k]])
    ensures forall i :: 0 <= i < |answers| && IsYes(answers[i]) ==> i in r
    ensures forall a, b :: 0 <= a < b < |r| ==> r[a] < r[b]
    decreases |answers|
  {
    if answers == [] then []
    else
      var n := |answers| - 1;
      assert forall i :: 0 <= i < n ==> answers[..n][i] == answers[i];
      YesPositions(answers[..n]) + (if IsYes(answers[n]) then [n] else [])
  }

  // ---------------------------------------------------------------------------
  // Counting
  // ---------------------------------------------------------------------------

  /** Whether answer `i` of page 6's loop raises: it says yes and either the
      pool is empty (`i % 0`) or the category at `i % len(pool)` is not a
      key of `category_counts`. */
  predicate RaisesAt(answers: seq<JsValue>, pool: seq<PoolQuestion>, i: nat)
    requires i < |answers|
  {
    IsYes(answers[i]) && (pool == [] || LetterOf(pool[i % |pool|].category).None?)
  }

  /** The page-6 loop: the letter of every yes answer, reading the category
      at position `i % len(pool)`; `None` when the loop raises. */
  function PageSixHits(answers: seq<JsValue>, pool: seq<PoolQuestion>): (r: Option<seq<char>>)
    ensures r.None? <==> exists i :: 0 <= i < |answers| && RaisesAt(answers, pool, i)
    ensures r.Some? ==> |r.value| == YesCount(answers)
    ensures r.Some? ==> forall k :: 0 <= k < |r.value| ==> IsCategoryLetter(r.value[k])
    // hit k is the letter of the question at the k-th yes position, modulo the pool
    ensures r.Some? && r.value != [] ==> pool != []
    ensures r.Some? ==> forall k :: 0 <= k < |r.value| ==>
      pool != [] && pool[YesPositions(answers)[k] % |pool|].category == [r.value[k]]
    decreases |answers|
  {
    if answers == [] then Some([])
    else
      var n := |answers| - 1;
      var earlier := PageSixHits(answers[..n], pool);
      RaisesSplit(answers, pool);
      if earlier.None? || !IsYes(answers[n]) then earlier
      else if pool == [] then None
      else match LetterOf(pool[n % |pool|].category)
        case None => None
        case Some(c) => Some(earlier.value + [c])
  }

  /** Some answer raises exactly when an earlier one does or the last one
      does. */
  lemma RaisesSplit(answers: seq<JsValue>, pool: seq<PoolQuestion>)
    requires answers != []
    ensures var n := |answers| - 1;
      (exists i :: 0 <= i < |answers| && RaisesAt(answers, pool, i))
      <==> (exists i :: 0 <= i < n && RaisesAt(answers[..n], pool, i)) || RaisesAt(answers, pool, n)
  {
    var n := |answers| - 1;
    assert forall i :: 0 <= i < n ==> answers[..n][i] == answers[i];
    if exists i :: 0 <= i < |answers| && RaisesAt(answers, pool, i) {
      var i :| 0 <= i < |answers| && RaisesAt(answers, pool, i);
      if i < n {
        assert RaisesAt(answers[..n], pool, i);
      }
    }
    if exists i :: 0 <= i < n && RaisesAt(answers[..n], pool, i) {
      var i :| 0 <= i < n && RaisesAt(answers[..n], pool, i);
      assert RaisesAt(answers, pool, i);
    }
  }

  /** The answers page 6 files under letter `c`: the yes answers whose
      question, at their position modulo the pool, has category `c`. */
  function PageSixVoters(answers: seq<JsValue>, pool: seq<PoolQuestion>, c: char): set<nat> {
    set i: nat | i < |answers| && IsYes(answers[i]) && pool != [] && pool[i % |pool|].category == [c]
  }

  /** When the page-6 loop completes, letter `c` gets exactly one hit per
      answer filed under it. */
  lemma {:induction false} PageSixHitsCount(answers: seq<JsValue>, pool: seq<PoolQuestion>, c: char)
    requires PageSixHits(answers, pool).Some?
    ensures multiset(PageSixHits(answers, pool).value)[c] == |PageSixVoters(answers, pool, c)|
    decreases |answers|
  {
    if answers == [] {
      assert PageSixVoters(answers, pool, c) == {};
    } else {
      var n := |answers| - 1;
      RaisesSplit(answers, pool);
      PageSixHitsCount(answers[..n], pool, c);
      PageSixVotersStep(answers, pool, c);
      var h := PageSixHits(answers, pool).value;
      var earlier := PageSixHits(answers[..n], pool).value;
      if IsYes(answers[n]) {
        var last := LetterOf(pool[n % |pool|].category).value;
        assert h == earlier + [last];
        assert multiset(h) == multiset(earlier) + multiset{last};
        assert pool[n % |pool|].category == [c] <==> last == c;
      } else {
        assert h == earlier;
      }
    }
  }

  /** One more answer adds its position to the voters of `c` exactly when it
      is filed under `c`. */
  lemma PageSixVotersStep(answers: seq<JsValue>, pool: seq<PoolQuestion>, c: char)
    requires answers != []
    ensures var n := |answers| - 1;
      |PageSixVoters(answers, pool, c)| == |PageSixVoters(answers[..n], pool, c)|
        + (if IsYes(answers[n]) && pool != [] && pool[n % |pool|].category == [c] then 1 else 0)
  {
    var n := |answers| - 1;
    var before := PageSixVoters(answers[..n], pool, c);
    var filed := IsYes(answers[n]) && pool != [] && pool[n % |pool|].category == [c];
    assert forall i :: 0 <= i < n ==> answers[..n][i] == answers[i];
    assert PageSixVoters(answers, pool, c) == before + (if filed then {n} else {});
  }

  /** `submit_survey`'s loop over `answers[6:]`: a yes answer counts when its
      position has a pool question whose category is a RIASEC key; every
      other answer is skipped. */
  function SubmitHits(answers: seq<JsValue>, pool: seq<PoolQuestion>): (r: seq<char>)
    ensures |r| <= YesCount(answers)
    ensures forall k :: 0 <= k < |r| ==> IsCategoryLetter(r[k])
    ensures (forall i :: 0 <= i < |pool| ==> LetterOf(pool[i].category).Some?) && |answers| <= |pool| ==>
      |r| == YesCount(answers)
    // hit k is the letter of the question at the k-th counted position
    ensures |r| == |CountedPositions(answers, pool)|
    ensures forall k :: 0 <= k < |r| ==> pool[CountedPositions(answers, pool)[k]].category == [r[k]]
    decreases |answers|
  {
    if answers == [] then []
    else
      var n := |answers| - 1;
      var earlier := SubmitHits(answers[..n], pool);
      if IsYes(answers[n]) && n < |pool| && LetterOf(pool[n].category).Some? then
        earlier + [LetterOf(pool[n].category).value]
      else earlier
  }

  /** Whether `submit_survey` counts answer `i`: it says yes and the pool
      question at the same offset has a RIASEC category. */
  predicate CountedAt(answers: seq<JsValue>, pool: seq<PoolQuestion>, i: nat)
    requires i < |answers|
  {
    IsYes(answers[i]) && i < |pool| && LetterOf(pool[i].category).Some?
  }

  /** The positions `submit_survey` counts, in increasing order. */
  function CountedPositions(answers: seq<JsValue>, pool: seq<PoolQuestion>): (r: seq<nat>)
    ensures forall k :: 0 <= k < |r| ==> r[k] < |answers| && CountedAt(answers, pool, r[k])
    ensures forall i :: 0 <= i < |answers| && CountedAt(answers, pool, i) ==> i in r
    ensures forall a, b :: 0 <= a < b < |r| ==> r[a] < r[b]
    decreases |answers|
  {
    if answers == [] then []
    else
      var n := |answers| - 1;
      assert forall i :: 0 <= i < n ==> answers[..n][i] == answers[i];
      CountedPositions(answers[..n], pool) + (if CountedAt(answers, pool, n) then [n] else [])
  }

  /** The answers `submit_survey` files under letter `c`. */
  function SubmitVoters(answers: seq<JsValue>, pool: seq<PoolQuestion>, c: char): set<nat> {
    set i: nat | i < |answers| && i < |pool| && IsYes(answers[i]) && pool[i].category == [c]
  }

  /** A RIASEC letter gets exactly one hit per answer filed under it. */
  lemma {:induction false} SubmitHitsCount(answers: seq<JsValue>, pool: seq<PoolQuestion>, c: char)
    requires IsCategoryLetter(c)
    ensures multiset(SubmitHits(answers, pool))[c] == |SubmitVoters(answers, pool, c)|
    decreases |answers|
  {
    if answers == [] {
      assert SubmitVoters(answers, pool, c) == {};
    } else {
      var n := |answers| - 1;
      SubmitHitsCount(answers[..n], pool, c);
      SubmitVotersStep(answers, pool, c);
      var h := SubmitHits(answers, pool);
      var earlier := SubmitHits(answers[..n], pool);
      if CountedAt(answers, pool, n) {
        assert h == earlier + [h[|h| - 1]];
        assert multiset(h) == multiset(earlier) + multiset{h[|h| - 1]};
      }
    }
  }

  lemma SubmitVotersStep(answers: seq<JsValue>, pool: seq<PoolQuestion>, c: char)
    requires answers != []
    ensures var n := |answers| - 1;
      |SubmitVoters(answers, pool, c)| == |SubmitVoters(answers[..n], pool, c)|
        + (if IsYes(answers[n]) && n < |pool| && pool[n].category == [c] then 1 else 0)
  {
    var n := |answers| - 1;
    var before := SubmitVoters(answers[..n], pool, c);
    var filed := IsYes(answers[n]) && n < |pool| && pool[n].category == [c];
    assert forall i :: 0 <= i < n ==> answers[..n][i] == answers[i];
    assert SubmitVoters(answers, pool, c) == before + (if filed then {n} else {});
  }

  datatype Tally = Tally(letter: char, count: int)

  /** `category_counts.items()`: each key with the number of hits for it. */
  function Tallies(letters: seq<char>, hits: seq<char>): (r: seq<Tally>)
    ensures |r| == |letters|
    ensures forall k :: 0 <= k < |letters| ==> r[k] == Tally(letters[k], multiset(hits)[letters[k]])
  {
    seq(|letters|, k requires 0 <= k < |letters| => Tally(letters[k], multiset(hits)[letters[k]]))
  }

  function TotalCount(ts: seq<Tally>): int {
    if ts == [] then 0 else ts[0].count + TotalCount(ts[1..])
  }

  /** With no hits every count is zero. */
  lemma {:induction false} NoHitsNoCount(letters: seq<char>)
    ensures TotalCount(Tallies(letters, [])) == 0
    decreases |letters|
  {
    if letters != [] {
      NoHitsNoCount(letters[1..]);
      assert Tallies(letters, [])[1..] == Tallies(letters[1..], []);
    }
  }

  /** Every hit is counted exactly once: the counts add up to the number of
      hits. */
  lemma {:induction false} TalliesAddUp(letters: seq<char>, hits: seq<char>)
    requires Distinct(letters)
    requires forall k :: 0 <= k < |hits| ==> hits[k] in letters
    ensures TotalCount(Tallies(letters, hits)) == |hits|
    decreases |hits|
  {
    if hits == [] {
      NoHitsNoCount(letters);
    } else {
      var n := |hits| - 1;
      assert hits == hits[..n] + [hits[n]];
      assert hits[n] in letters;
      TalliesAddUp(letters, hits[..n]);
      assert TotalCount(Tallies(letters, hits[..n])) == n;
      OneMoreHit(letters, hits[..n], hits[n]);
      assert TotalCount(Tallies(letters, hits[..n] + [hits[n]])) == n + 1;
      assert Tallies(letters, hits) == Tallies(letters, hits[..n] + [hits[n]]);
    }
  }

  lemma {:induction false} OneMoreHit(letters: seq<char>, hits: seq<char>, h: char)
    requires Distinct(letters)
    ensures TotalCount(Tallies(letters, hits + [h])) == TotalCount(Tallies(letters, hits)) + (if h in letters then 1 else 0)
    decreases |letters|
  {
    if letters != [] {
      var rest := letters[1..];
      assert Distinct(rest) by {
        forall i, j | 0 <= i < j < |rest| ensures rest[i] != rest[j] {
          assert rest[i] == letters[i + 1] && rest[j] == letters[j + 1];
        }
      }
      OneMoreHit(rest, hits, h);
      assert Tallies(letters, hits + [h])[1..] == Tallies(rest, hits + [h]);
      assert Tallies(letters, hits)[1..] == Tallies(rest, hits);
      assert multiset(hits + [h]) == multiset(hits) + multiset{h};
      assert h == letters[0] ==> h !in rest;
      assert h in letters <==> h == letters[0] || h in rest;
    }
  }

  // ---------------------------------------------------------------------------
  // Sorting
  // ---------------------------------------------------------------------------

  /** How ties between equal counts are broken: `reverse=True` on
      `(count, letter)` (page 6) or ascending `(-count, letter)`
      (`submit_survey`). Both put higher counts first. */
  datatype TieBreak = ReverseAlphabetical | Alphabetical

  /** `a` comes strictly before `b`. */
  predicate Ahead(tie: TieBreak, a: Tally, b: Tally) {
    a.count > b.count
    || (a.count == b.count && (if tie == ReverseAlphabetical then a.letter > b.letter else a.letter < b.letter))
  }

  predicate SortedBy(tie: TieBreak, s: seq<Tally>) {
    forall i, j :: 0 <= i < j < |s| ==> !Ahead(tie, s[j], s[i])
  }

  function Insert(tie: TieBreak, t: Tally, s: seq<Tally>): (r: seq<Tally>)
    requires SortedBy(tie, s)
    ensures SortedBy(tie, r)
    ensures multiset(r) == multiset(s) + multiset{t}
    ensures forall x :: x in r <==> x == t || x in s
  {
    if s == [] then [t]
    else if !Ahead(tie, s[0], t) then
      var r := [t] + s;
      forall i, j | 0 <= i < j < |r| ensures !Ahead(tie, r[j], r[i]) {
        if i == 0 {
          NotAheadTransitive(tie, s[j - 1], s[0], t);
        }
      }
      r
    else
      var rest := Insert(tie, t, s[1..]);
      assert s == [s[0]] + s[1..];
      var r := [s[0]] + rest;
      forall i, j | 0 <= i < j < |r| ensures !Ahead(tie, r[j], r[i]) {
        if i == 0 {
          assert r[j] in rest;
          if r[j] != t {
            var k :| 0 <= k < |s[1..]| && s[1..][k] == r[j];
            assert s[k + 1] == r[j];
          }
        }
      }
      r
  }

  /** Not being ahead is transitive: both orders compare (count, letter)
      lexicographically. */
  lemma NotAheadTransitive(tie: TieBreak, a: Tally, b: Tally, c: Tally)
    requires !Ahead(tie, a, b) && !Ahead(tie, b, c)
    ensures !Ahead(tie, a, c)
  {
  }

  /** Insertion sort: a sorted permutation. */
  function Sort(tie: TieBreak, s: seq<Tally>): (r: seq<Tally>)
    ensures SortedBy(tie, r)
    ensures multiset(r) == multiset(s)
  {
    if s == [] then []
    else
      assert s == [s[0]] + s[1..];
      Insert(tie, s[0], Sort(tie, s[1..]))
  }

  predicate DistinctLetters(s: seq<Tally>) {
    forall i, j :: 0 <= i < j < |s| ==> s[i].letter != s[j].letter
  }

  /** Every two different tallies compare one way or the other, so there is
      only one sorted arrangement: any correct sort, Python's included, gives
      the same sequence as `Sort`. */
  lemma {:induction false} SortedUnique(tie: TieBreak, a: seq<Tally>, b: seq<Tally>)
    requires SortedBy(tie, a) && SortedBy(tie, b) && multiset(a) == multiset(b)
    ensures a == b
    decreases |a|
  {
    assert |a| == |multiset(a)| == |b|;
    if a != [] {
      SortedHead(tie, a, b);
      TailMultiset(a);
      TailMultiset(b);
      SortedUnique(tie, a[1..], b[1..]);
      assert a == [a[0]] + a[1..] && b == [b[0]] + b[1..];
    }
  }

  lemma SortedHead(tie: TieBreak, a: seq<Tally>, b: seq<Tally>)
    requires SortedBy(tie, a) && SortedBy(tie, b) && multiset(a) == multiset(b) && a != []
    ensures b != [] && a[0] == b[0]
  {
    assert a[0] in multiset(b);
    var i :| 0 <= i < |b| && b[i] == a[0];
    assert b[0] in multiset(a);
    var j :| 0 <= j < |a| && a[j] == b[0];
    assert !Ahead(tie, a[j], a[0]);
    assert !Ahead(tie, b[i], b[0]);
  }

  lemma TailMultiset(s: seq<Tally>)
    requires s != []
    ensures multiset(s[1..]) == multiset(s) - multiset{s[0]}
  {
    assert s == [s[0]] + s[1..];
  }

  /** Letters of the tallies, in order. */
  function LettersOf(s: seq<Tally>): (r: seq<char>)
    ensures |r| == |s| && forall k :: 0 <= k < |s| ==> r[k] == s[k].letter
  {
    seq(|s|, k requires 0 <= k < |s| => s[k].letter)
  }

  // ---------------------------------------------------------------------------
  // Page 6: groups of equal count and the code
  // ---------------------------------------------------------------------------

  /** `[cat for cat, count in sorted_categories if count == c]`. */
  function Group(sorted: seq<Tally>, c: int): (r: seq<char>)
    ensures forall x :: x in r <==> exists k :: 0 <= k < |sorted| && sorted[k].count == c && sorted[k].letter == x
    ensures |r| <= |sorted|
  {
    if sorted == [] then []
    else
      var rest := Group(sorted[1..], c);
      assert forall k :: 1 <= k < |sorted| ==> sorted[k] == sorted[1..][k - 1];
      (if sorted[0].count == c then [sorted[0].letter] else []) + rest
  }

  /** In the page-6 order equal counts are ordered by letter, highest
      first, so a group of distinct letters runs reverse-alphabetically:
      this order decides which letter `generate_code` takes first. */
  lemma {:induction false} GroupDescending(sorted: seq<Tally>, c: int)
    requires SortedBy(ReverseAlphabetical, sorted) && DistinctLetters(sorted)
    ensures forall a, b :: 0 <= a < b < |Group(sorted, c)| ==> Group(sorted, c)[a] > Group(sorted, c)[b]
    decreases |sorted|
  {
    if sorted != [] {
      var rest := sorted[1..];
      TailKeepsOrder(sorted);
      GroupDescending(rest, c);
      if sorted[0].count == c {
        GroupBelowHead(sorted, c);
        GroupCons(sorted, c);
        ConsDescending(sorted[0].letter, Group(rest, c));
      } else {
        assert Group(sorted, c) == Group(rest, c);
      }
    }
  }

  lemma TailKeepsOrder(sorted: seq<Tally>)
    requires sorted != [] && SortedBy(ReverseAlphabetical, sorted) && DistinctLetters(sorted)
    ensures SortedBy(ReverseAlphabetical, sorted[1..]) && DistinctLetters(sorted[1..])
  {
    assert forall k :: 0 <= k < |sorted[1..]| ==> sorted[1..][k] == sorted[k + 1];
  }

  /** After the head of a run of count `c`, the rest of the group has
      smaller letters. */
  lemma GroupBelowHead(sorted: seq<Tally>, c: int)
    requires sorted != [] && sorted[0].count == c
    requires SortedBy(ReverseAlphabetical, sorted) && DistinctLetters(sorted)
    ensures forall x :: x in Group(sorted[1..], c) ==> x < sorted[0].letter
  {
    forall x | x in Group(sorted[1..], c) ensures x < sorted[0].letter {
      var k :| 0 <= k < |sorted[1..]| && sorted[1..][k].count == c && sorted[1..][k].letter == x;
      assert sorted[1..][k] == sorted[k + 1];
      assert !Ahead(ReverseAlphabetical, sorted[k + 1], sorted[0]);
    }
  }

  lemma ConsDescending(h: char, tail: seq<char>)
    requires forall x :: x in tail ==> x < h
    requires forall a, b :: 0 <= a < b < |tail| ==> tail[a] > tail[b]
    ensures forall a, b :: 0 <= a < b < |[h] + tail| ==> ([h] + tail)[a] > ([h] + tail)[b]
  {
    var g := [h] + tail;
    forall a, b | 0 <= a < b < |g| ensures g[a] > g[b] {
      assert g[b] == tail[b - 1];
      if a > 0 {
        assert g[a] == tail[a - 1];
      } else {
        assert g[b] in tail;
      }
    }
  }

  /** The three groups page 6 hands to `generate_code`. */
  datatype Groups = Groups(top: seq<char>, second: seq<char>, third: seq<char>)

  function PageSixGroups(tallies: seq<Tally>): (g: Groups)
    requires |tallies| >= 3
    ensures CodeInputsIndexable(g.top, g.second, g.third)
  {
    var sorted := Sort(ReverseAlphabetical, tallies);
    assert |sorted| == |multiset(sorted)| == |tallies|;
    var g := Groups(Group(sorted, sorted[0].count), Group(sorted, sorted[1].count), Group(sorted, sorted[2].count));
    assert sorted[0].letter in g.top && sorted[1].letter in g.second && sorted[2].letter in g.third;
    g
  }

  /** The top group holds exactly the letters of highest count. */
  lemma TopGroupIsMaximal(tallies: seq<Tally>, x: char)
    requires |tallies| >= 3
    ensures x in PageSixGroups(tallies).top <==>
      exists k :: 0 <= k < |tallies| && tallies[k].letter == x
        && forall m :: 0 <= m < |tallies| ==> tallies[m].count <= tallies[k].count
  {
    var sorted := Sort(ReverseAlphabetical, tallies);
    assert |sorted| == |multiset(sorted)| == |tallies|;
    forall m | 0 <= m < |tallies| ensures tallies[m].count <= sorted[0].count {
      assert tallies[m] in multiset(sorted);
      var p :| 0 <= p < |sorted| && sorted[p] == tallies[m];
      assert p == 0 || !Ahead(ReverseAlphabetical, sorted[p], sorted[0]);
    }
    if x in PageSixGroups(tallies).top {
      var p :| 0 <= p < |sorted| && sorted[p].count == sorted[0].count && sorted[p].letter == x;
      assert sorted[p] in multiset(tallies);
      var k :| 0 <= k < |tallies| && tallies[k] == sorted[p];
    }
    if exists k :: 0 <= k < |tallies| && tallies[k].letter == x
        && forall m :: 0 <= m < |tallies| ==> tallies[m].count <= tallies[k].count {
      var k :| 0 <= k < |tallies| && tallies[k].letter == x
        && forall m :: 0 <= m < |tallies| ==> tallies[m].count <= tallies[k].count;
      assert tallies[k] in multiset(sorted);
      var p :| 0 <= p < |sorted| && sorted[p] == tallies[k];
      assert sorted[0] in multiset(tallies);
    }
  }

  /** Each of the three groups lists its letters reverse-alphabetically. */
  lemma PageSixGroupsDescending(tallies: seq<Tally>)
    requires |tallies| >= 3 && DistinctLetters(tallies)
    ensures var g := PageSixGroups(tallies);
      && (forall a, b :: 0 <= a < b < |g.top| ==> g.top[a] > g.top[b])
      && (forall a, b :: 0 <= a < b < |g.second| ==> g.second[a] > g.second[b])
      && (forall a, b :: 0 <= a < b < |g.third| ==> g.third[a] > g.third[b])
  {
    var sorted := Sort(ReverseAlphabetical, tallies);
    assert |sorted| == |multiset(sorted)| == |tallies|;
    SortKeepsDistinct(tallies, sorted);
    GroupDescending(sorted, sorted[0].count);
    GroupDescending(sorted, sorted[1].count);
    GroupDescending(sorted, sorted[2].count);
  }

  /** The page-6 code. */
  function PageSixCode(tallies: seq<Tally>): string
    requires |tallies| >= 3
  {
    var g := PageSixGroups(tallies);
    GenerateCode(g.top, g.second, g.third)
  }

  /** Letters of a group of the sorted tallies are tally letters, so none
      is a space when no tally letter is. */
  lemma GroupHasNoSpace(tallies: seq<Tally>, c: int)
    requires forall k :: 0 <= k < |tallies| ==> tallies[k].letter != ' '
    ensures ' ' !in Group(Sort(ReverseAlphabetical, tallies), c)
  {
    var sorted := Sort(ReverseAlphabetical, tallies);
    forall x | x in Group(sorted, c) ensures x != ' ' {
      var k :| 0 <= k < |sorted| && sorted[k].count == c && sorted[k].letter == x;
      assert sorted[k] in multiset(tallies);
      var m :| 0 <= m < |tallies| && tallies[m] == sorted[k];
    }
  }

  /** The page-6 code string splits back into its codes, and the stored
      primary code is the first of them, three letters long. */
  lemma PageSixCodeSplits(tallies: seq<Tally>)
    requires |tallies| >= 3
    requires forall k :: 0 <= k < |tallies| ==> tallies[k].letter != ' '
    ensures var g := PageSixGroups(tallies);
      && Split(PageSixCode(tallies), CodeSeparator) == GenerateCodes(g.top, g.second, g.third)
      && PrimaryCode(PageSixCode(tallies)) == GenerateCodes(g.top, g.second, g.third)[0]
      && |PrimaryCode(PageSixCode(tallies))| == 3
  {
    var g := PageSixGroups(tallies);
    var sorted := Sort(ReverseAlphabetical, tallies);
    assert |sorted| == |multiset(sorted)| == |tallies|;
    GroupHasNoSpace(tallies, sorted[0].count);
    GroupHasNoSpace(tallies, sorted[1].count);
    GroupHasNoSpace(tallies, sorted[2].count);
    CodesRoundTrip(g.top, g.second, g.third);
  }

  /** Two letters tied for the highest count, the rest lower: the second
      group is the top group again, and both codes repeat the
      alphabetically later letter, which comes first. */
  lemma TwoTiedAtTop(tallies: seq<Tally>)
    requires |tallies| >= 3 && DistinctLetters(tallies)
    requires |PageSixGroups(tallies).top| == 2
    ensures var g := PageSixGroups(tallies);
      && g.second == g.top
      && g.top[0] > g.top[1]
      && GenerateCodes(g.top, g.second, g.third) == [[g.top[0], g.top[1], g.top[0]], [g.top[1], g.top[0], g.top[0]]]
  {
    var sorted := Sort(ReverseAlphabetical, tallies);
    assert |sorted| == |multiset(sorted)| == |tallies|;
    var g := PageSixGroups(tallies);
    SortKeepsDistinct(tallies, sorted);
    // the top group is a prefix of the sorted sequence
    assert sorted[1].count == sorted[0].count by {
      if sorted[1].count != sorted[0].count {
        assert sorted[1].count < sorted[0].count;
        forall p | 1 <= p < |sorted| ensures sorted[p].count < sorted[0].count {
          assert !Ahead(ReverseAlphabetical, sorted[p], sorted[1]);
        }
        GroupOfPrefix(sorted, 1);
      }
    }
    GroupOfTwo(sorted);
    assert g.top == [sorted[0].letter, sorted[1].letter];
    assert g.second == g.top;
    assert sorted[0].letter != sorted[1].letter;
  }

  /** The sorted tallies keep distinct letters. */
  lemma SortKeepsDistinct(tallies: seq<Tally>, sorted: seq<Tally>)
    requires DistinctLetters(tallies) && multiset(sorted) == multiset(tallies)
    ensures DistinctLetters(sorted)
  {
    forall i, j | 0 <= i < j < |sorted| ensures sorted[i].letter != sorted[j].letter {
      assert sorted[i] in multiset(tallies) && sorted[j] in multiset(tallies);
      var p :| 0 <= p < |tallies| && tallies[p] == sorted[i];
      var q :| 0 <= q < |tallies| && tallies[q] == sorted[j];
      if p == q {
        TwiceInSeq(sorted, i, j);
        DistinctLettersOnce(tallies, p);
        assert false;
      }
    }
  }

  /** An element at two positions occurs at least twice. */
  lemma TwiceInSeq(s: seq<Tally>, i: nat, j: nat)
    requires i < j < |s| && s[i] == s[j]
    ensures multiset(s)[s[i]] >= 2
  {
    assert s == s[..j] + s[j..];
    assert multiset(s) == multiset(s[..j]) + multiset(s[j..]);
    assert s[i] in s[..j] && s[j] in s[j..];
  }

  lemma {:induction false} DistinctLettersOnce(s: seq<Tally>, p: nat)
    requires DistinctLetters(s) && p < |s|
    ensures multiset(s)[s[p]] == 1
    decreases |s|
  {
    var n := |s| - 1;
    assert s == s[..n] + [s[n]];
    assert DistinctLetters(s[..n]);
    if p < n {
      DistinctLettersOnce(s[..n], p);
      assert s[n] != s[p];
    } else {
      assert s[p] !in s[..n];
    }
  }

  /** When only the first `m` tallies share the highest count, the top
      group is their letters. */
  lemma GroupOfPrefix(sorted: seq<Tally>, m: nat)
    requires 1 <= m <= |sorted|
    requires forall p :: 0 <= p < m ==> sorted[p].count == sorted[0].count
    requires forall p :: m <= p < |sorted| ==> sorted[p].count < sorted[0].count
    ensures Group(sorted, sorted[0].count) == LettersOf(sorted[..m])
  {
    GroupOfRun(sorted, m, sorted[0].count);
  }

  /** A run of `m` tallies with count `c`, followed only by lower counts,
      has exactly the run's letters as its group for `c`. */
  lemma {:induction false} GroupOfRun(s: seq<Tally>, m: nat, c: int)
    requires m <= |s|
    requires forall p :: 0 <= p < m ==> s[p].count == c
    requires forall p :: m <= p < |s| ==> s[p].count < c
    ensures Group(s, c) == LettersOf(s[..m])
    decreases |s|
  {
    if m == 0 {
      GroupNone(s, c);
      assert LettersOf(s[..0]) == [];
    } else {
      assert forall p :: 0 <= p < m - 1 ==> s[1..][p].count == c by {
        assert forall p :: 0 <= p < m - 1 ==> s[1..][p] == s[p + 1];
      }
      assert forall p :: m - 1 <= p < |s[1..]| ==> s[1..][p].count < c by {
        assert forall p :: m - 1 <= p < |s[1..]| ==> s[1..][p] == s[p + 1];
      }
      GroupOfRun(s[1..], m - 1, c);
      GroupCons(s, c);
      LettersCons(s, m);
    }
  }

  lemma GroupCons(s: seq<Tally>, c: int)
    requires s != [] && s[0].count == c
    ensures Group(s, c) == [s[0].letter] + Group(s[1..], c)
  {
  }

  lemma LettersCons(s: seq<Tally>, m: nat)
    requires 0 < m <= |s|
    ensures LettersOf(s[..m]) == [s[0].letter] + LettersOf(s[1..][..m - 1])
  {
    assert forall k :: 0 < k < m ==> s[..m][k] == s[1..][..m - 1][k - 1];
  }

  lemma {:induction false} GroupNone(s: seq<Tally>, c: int)
    requires forall p :: 0 <= p < |s| ==> s[p].count < c
    ensures Group(s, c) == []
    decreases |s|
  {
    if s != [] {
      assert forall p :: 0 <= p < |s[1..]| ==> s[1..][p] == s[p + 1];
      GroupNone(s[1..], c);
    }
  }

  /** A sorted sequence whose top group has two letters starts with the
      two tied tallies. */
  lemma GroupOfTwo(sorted: seq<Tally>)
    requires |sorted| >= 3 && SortedBy(ReverseAlphabetical, sorted)
    requires |Group(sorted, sorted[0].count)| == 2
    requires sorted[1].count == sorted[0].count
    ensures Group(sorted, sorted[0].count) == [sorted[0].letter, sorted[1].letter]
  {
    var c := sorted[0].count;
    if sorted[2].count == c {
      GroupAtLeastThree(sorted);
      assert false;
    }
    forall p | 2 <= p < |sorted| ensures sorted[p].count < c {
      assert !Ahead(ReverseAlphabetical, sorted[p], sorted[2]);
    }
    GroupOfPrefix(sorted, 2);
  }

  lemma GroupAtLeastThree(sorted: seq<Tally>)
    requires |sorted| >= 3
    requires sorted[0].count == sorted[1].count == sorted[2].count
    ensures |Group(sorted, sorted[0].count)| >= 3
  {
    var c := sorted[0].count;
    assert Group(sorted, c) == [sorted[0].letter] + Group(sorted[1..], c);
    assert Group(sorted[1..], c) == [sorted[1].letter] + Group(sorted[2..], c);
    assert Group(sorted[2..], c) == [sorted[2].letter] + Group(sorted[3..], c);
  }

  // ---------------------------------------------------------------------------
  // submit_survey: the top three letters
  // ---------------------------------------------------------------------------

  /** `''.join(cat for cat, _ in sorted_categories[:3])`. */
  function TopThree(tallies: seq<Tally>): (code: string)
    requires |tallies| >= 3
    ensures |code| == 3
  {
    var sorted := Sort(Alphabetical, tallies);
    assert |sorted| == |multiset(sorted)| == |tallies|;
    LettersOf(sorted[..3])
  }

  /** Any sorted arrangement of the tallies starts with the three letters:
      the code does not depend on how the sort is carried out. */
  lemma TopThreeOfAnySort(tallies: seq<Tally>, s: seq<Tally>)
    requires |tallies| >= 3 && |s| == |tallies|
    requires SortedBy(Alphabetical, s) && multiset(s) == multiset(tallies)
    ensures TopThree(tallies) == LettersOf(s[..3])
  {
    SortedUnique(Alphabetical, s, Sort(Alphabetical, tallies));
  }

  /** The count the tallies give letter `c`: that of the first tally for
      `c`, or 0 when there is none. */
  function CountOf(tallies: seq<Tally>, c: char): int {
    if tallies == [] then 0
    else if tallies[0].letter == c then tallies[0].count
    else CountOf(tallies[1..], c)
  }

  /** With distinct letters, a letter's count is that of its own tally. */
  lemma {:induction false} CountOfAt(tallies: seq<Tally>, m: nat)
    requires DistinctLetters(tallies) && m < |tallies|
    ensures CountOf(tallies, tallies[m].letter) == tallies[m].count
    decreases |tallies|
  {
    if m > 0 {
      var rest := tallies[1..];
      assert forall k :: 0 <= k < |rest| ==> rest[k] == tallies[k + 1];
      assert DistinctLetters(rest);
      CountOfAt(rest, m - 1);
    }
  }

  /** Letter `a` ranks above letter `b` in `submit_survey`'s order: a higher
      count, or the same count and earlier in the alphabet. */
  predicate RanksAbove(tallies: seq<Tally>, a: char, b: char) {
    Ahead(Alphabetical, Tally(a, CountOf(tallies, a)), Tally(b, CountOf(tallies, b)))
  }

  /** The three letters are distinct tally letters, in ranking order, and
      each ranks at least as high (count first, then alphabetically) as
      every letter left out. */
  lemma TopThreeRanked(tallies: seq<Tally>)
    requires |tallies| >= 3 && DistinctLetters(tallies)
    ensures Distinct(TopThree(tallies))
    ensures forall j, k :: 0 <= j < k < 3 ==> RanksAbove(tallies, TopThree(tallies)[j], TopThree(tallies)[k])
    ensures forall k :: 0 <= k < 3 ==> exists m :: 0 <= m < |tallies| && tallies[m].letter == TopThree(tallies)[k]
    ensures forall m, k :: 0 <= m < |tallies| && 0 <= k < 3 && tallies[m].letter !in TopThree(tallies) ==>
      exists p :: 0 <= p < |tallies| && tallies[p].letter == TopThree(tallies)[k] && Ahead(Alphabetical, tallies[p], tallies[m])
  {
    var sorted := Sort(Alphabetical, tallies);
    assert |sorted| == |multiset(sorted)| == |tallies|;
    SortKeepsDistinct(tallies, sorted);
    var code := TopThree(tallies);
    assert code == LettersOf(sorted[..3]);
    forall k | 0 <= k < 3 ensures exists m :: 0 <= m < |tallies| && tallies[m].letter == code[k] {
      SortedFromTallies(tallies, sorted, k);
    }
    forall k | 0 <= k < 3 ensures CountOf(tallies, code[k]) == sorted[k].count {
      SortedCount(tallies, sorted, k);
    }
    forall j, k | 0 <= j < k < 3 ensures RanksAbove(tallies, code[j], code[k]) {
      assert !Ahead(Alphabetical, sorted[k], sorted[j]);
      assert sorted[j].letter != sorted[k].letter;
    }
    forall m, k | 0 <= m < |tallies| && 0 <= k < 3 && tallies[m].letter !in code
      ensures exists p :: 0 <= p < |tallies| && tallies[p].letter == code[k] && Ahead(Alphabetical, tallies[p], tallies[m])
    {
      LeftOutBehind(tallies, sorted, m, k);
    }
  }

  /** Every sorted tally is one of the input's. */
  lemma SortedFromTallies(tallies: seq<Tally>, sorted: seq<Tally>, k: nat)
    requires multiset(sorted) == multiset(tallies) && k < |sorted|
    ensures exists m :: 0 <= m < |tallies| && tallies[m] == sorted[k]
  {
    assert sorted[k] in multiset(tallies);
  }

  /** A sorted tally's count is the count of its letter. */
  lemma SortedCount(tallies: seq<Tally>, sorted: seq<Tally>, k: nat)
    requires multiset(sorted) == multiset(tallies) && DistinctLetters(tallies) && k < |sorted|
    ensures CountOf(tallies, sorted[k].letter) == sorted[k].count
  {
    assert sorted[k] in multiset(tallies);
    var m :| 0 <= m < |tallies| && tallies[m] == sorted[k];
    CountOfAt(tallies, m);
  }

  /** A tally whose letter is not among the first three sorted letters ranks
      below each of the first three. */
  lemma LeftOutBehind(tallies: seq<Tally>, sorted: seq<Tally>, m: nat, k: nat)
    requires multiset(sorted) == multiset(tallies) && SortedBy(Alphabetical, sorted)
    requires DistinctLetters(sorted) && k < 3 <= |sorted| && m < |tallies|
    requires tallies[m].letter !in LettersOf(sorted[..3])
    ensures exists p :: 0 <= p < |tallies| && tallies[p].letter == sorted[k].letter && Ahead(Alphabetical, tallies[p], tallies[m])
  {
    assert tallies[m] in multiset(sorted);
    var q :| 0 <= q < |sorted| && sorted[q] == tallies[m];
    assert forall j :: 0 <= j < 3 ==> LettersOf(sorted[..3])[j] == sorted[j].letter;
    assert !Ahead(Alphabetical, sorted[q], sorted[k]);
    assert sorted[k].letter != sorted[q].letter;
    SortedFromTallies(tallies, sorted, k);
  }
}
