/** `generate_code` (main.py): the three-letter Holland codes built from the
    letter groups with the highest, second and third highest counts, joined
    with " / ", and the primary code read back from that string. */
module HollandCode {
  import opened Common
  import opened Permutations

  const CodeSeparator: string := " / "

  /** What `generate_code` indexes without raising: a non-empty top group,
      a second group when the top group has fewer than three letters, and a
      third group when the last branch reads it. */
  predicate CodeInputsIndexable(top: seq<char>, second: seq<char>, third: seq<char>) {
    && |top| >= 1
    && (|top| <= 2 ==> |second| >= 1)
    && (|top| == 1 && |second| < 2 ==> |third| >= 1)
  }

  /** The codes, in the order `generate_code` joins them. */
  function GenerateCodes(top: seq<char>, second: seq<char>, third: seq<char>): (codes: seq<string>)
    requires CodeInputsIndexable(top, second, third)
    ensures |codes| > 0
    ensures forall k :: 0 <= k < |codes| ==> |codes[k]| == 3 && codes[k][0] in top
    ensures forall k, c :: 0 <= k < |codes| && c in codes[k] ==> c in top || c in second || c in third
    ensures |top| == 1 ==> forall k :: 0 <= k < |codes| ==> codes[k][0] == top[0] && codes[k][1] in second
    ensures |top| == 2 ==> forall k :: 0 <= k < |codes| ==> codes[k][2] == second[0]
  {
    if |top| == 2 then
      [[top[0], top[1], second[0]], [top[1], top[0], second[0]]]
    else if |top| >= 3 then
      var codes := Arrangements(top, 3);
      FirstArrangement(top, 3);
      forall k | 0 <= k < |codes| ensures |codes[k]| == 3 && forall c :: c in codes[k] ==> c in top {
        ArrangementShape(top, 3, codes[k]);
      }
      codes
    else if |second| >= 2 then
      var pairs := Arrangements(second, 2);
      FirstArrangement(second, 2);
      forall k | 0 <= k < |pairs| ensures |pairs[k]| == 2 && forall c :: c in pairs[k] ==> c in second {
        ArrangementShape(second, 2, pairs[k]);
      }
      Prefix(top[0], pairs)
    else if |second| == 1 && |third| >= 2 then
      var singles := Arrangements(third, 1);
      FirstArrangement(third, 1);
      forall k | 0 <= k < |singles| ensures |singles[k]| == 1 && forall c :: c in singles[k] ==> c in third {
        ArrangementShape(third, 1, singles[k]);
      }
      Prefix(top[0], Prefix(second[0], singles))
    else
      [[top[0], second[0], third[0]]]
  }

  /** `generate_code`: the codes joined with " / ". */
  function GenerateCode(top: seq<char>, second: seq<char>, third: seq<char>): string
    requires CodeInputsIndexable(top, second, third)
  {
    Join(GenerateCodes(top, second, third), CodeSeparator)
  }

  /** `holland_code.split(' / ')[0]`. */
  function PrimaryCode(code: string): string {
    Split(code, CodeSeparator)[0]
  }

  /** No letter of the groups is a space. */
  predicate SpaceFree(top: seq<char>, second: seq<char>, third: seq<char>) {
    ' ' !in top && ' ' !in second && ' ' !in third
  }

  /** Splitting the joined string gives back every code, and the primary
      code is the first of them. */
  lemma CodesRoundTrip(top: seq<char>, second: seq<char>, third: seq<char>)
    requires CodeInputsIndexable(top, second, third) && SpaceFree(top, second, third)
    ensures Split(GenerateCode(top, second, third), CodeSeparator) == GenerateCodes(top, second, third)
    ensures PrimaryCode(GenerateCode(top, second, third)) == GenerateCodes(top, second, third)[0]
    ensures |PrimaryCode(GenerateCode(top, second, third))| == 3
  {
    var codes := GenerateCodes(top, second, third);
    assert forall k :: 0 <= k < |codes| ==> CodeSeparator[0] !in codes[k];
    SplitJoin(codes, CodeSeparator);
  }

  /** With three or more tied top letters, the codes are exactly the
      ordered triples of distinct top letters, n·(n-1)·(n-2) of them. */
  lemma AllTriplesWhenThreeTied(top: seq<char>, second: seq<char>, third: seq<char>, t: string)
    requires |top| >= 3 && Distinct(top)
    ensures |GenerateCodes(top, second, third)| == |top| * (|top| - 1) * (|top| - 2)
    ensures t in GenerateCodes(top, second, third) <==>
      |t| == 3 && Distinct(t) && forall c :: c in t ==> c in top
  {
    ArrangementsCount(top, 3);
    FallingThree(|top|);
    if t in GenerateCodes(top, second, third) {
      ArrangementShape(top, 3, t);
    }
    if |t| == 3 && Distinct(t) && forall c :: c in t ==> c in top {
      ArrangementComplete(top, 3, t);
    }
  }

  lemma FallingThree(n: nat)
    requires n >= 3
    ensures Falling(n, 3) == n * (n - 1) * (n - 2)
  {
    assert Falling(n - 2, 1) == n - 2;
    assert Falling(n - 1, 2) == (n - 1) * (n - 2);
  }

  /** Exactly two tied top letters a, b give "a b a / b a a": the second
      group is then the top group again, so every code repeats a letter. */
  lemma TwoTiedRepeatLetter(a: char, b: char)
    ensures GenerateCodes([a, b], [a, b], []) == [[a, b, a], [b, a, a]]
    ensures forall k :: 0 <= k < 2 ==> !Distinct(GenerateCodes([a, b], [a, b], [])[k])
  {
    var codes := GenerateCodes([a, b], [a, b], []);
    assert !Distinct(codes[0]) by { assert codes[0][0] == codes[0][2]; }
    assert !Distinct(codes[1]) by { assert codes[1][1] == codes[1][2]; }
  }
}
