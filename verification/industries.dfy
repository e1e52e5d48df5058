/** Industry matching in main.py. `INDUSTRY_MAPPING` is a list of entries,
    each with an optional `holland_codes` list and an optional `industry`
    name. Page 6 collects, as a set, the industry of every entry whose code
    list holds one of the generated codes; `submit_survey` looks up the
    single letters of its three-letter code, falls back to the first letter,
    and then to "General". */
module Industries {
  import opened Common

  datatype IndustryEntry = IndustryEntry(codes: Option<seq<string>>, industry: Option<string>)

  /** Entry `e` has both keys and lists `code`. */
  predicate Lists(e: IndustryEntry, code: string) {
    e.codes.Some? && e.industry.Some? && code in e.codes.value
  }

  // ---------------------------------------------------------------------------
  // Page 6
  // ---------------------------------------------------------------------------

  /** The industries the loop over `mapping` adds for one code. */
  function IndustriesForCode(code: string, mapping: seq<IndustryEntry>): (r: set<string>)
    ensures forall x :: x in r <==> exists k :: 0 <= k < |mapping| && Lists(mapping[k], code) && mapping[k].industry.value == x
  {
    if mapping == [] then {}
    else
      var rest := IndustriesForCode(code, mapping[1..]);
      assert forall k :: 1 <= k < |mapping| ==> mapping[k] == mapping[1..][k - 1];
      (if Lists(mapping[0], code) then {mapping[0].industry.value} else {}) + rest
  }

  /** `matching_industries` on page 6, before it becomes a list: every
      industry of an entry listing one of the codes. */
  function PageSixIndustries(codes: seq<string>, mapping: seq<IndustryEntry>): (r: set<string>)
    ensures forall x :: x in r <==>
      exists c, k :: 0 <= c < |codes| && 0 <= k < |mapping| && Lists(mapping[k], codes[c]) && mapping[k].industry.value == x
  {
    if codes == [] then {}
    else
      var rest := PageSixIndustries(codes[1..], mapping);
      assert forall c :: 1 <= c < |codes| ==> codes[c] == codes[1..][c - 1];
      IndustriesForCode(codes[0], mapping) + rest
  }

  /** `list(matching_industries)`: some order of the set, each industry
      once. Python's set iteration order is not specified, so any order is
      allowed. */
  method ListOf(s: set<string>) returns (r: seq<string>)
    ensures |r| == |s|
    ensures forall x :: x in r <==> x in s
    ensures forall i, j :: 0 <= i < j < |r| ==> r[i] != r[j]
  {
    r := [];
    var left := s;
    while left != {}
      invariant left <= s
      invariant forall x :: x in r <==> x in s && x !in left
      invariant |r| + |left| == |s|
      invariant forall i, j :: 0 <= i < j < |r| ==> r[i] != r[j]
      decreases |left|
    {
      var x :| x in left;
      r := r + [x];
      left := left - {x};
    }
  }

  // ---------------------------------------------------------------------------
  // submit_survey
  // ---------------------------------------------------------------------------

  /** Entry `e` lists one of the letters of `code`, each as a one-letter
      string. */
  predicate ListsAnyLetter(e: IndustryEntry, code: string) {
    exists i :: 0 <= i < |code| && Lists(e, [code[i]])
  }

  /** The first pass: industries, in mapping order, of entries listing any
      letter of the code. */
  function AnyLetterPass(code: string, mapping: seq<IndustryEntry>): (r: seq<string>)
    ensures forall x :: x in r <==> exists k :: 0 <= k < |mapping| && ListsAnyLetter(mapping[k], code) && mapping[k].industry.value == x
    ensures |r| <= |mapping|
  {
    if mapping == [] then []
    else
      var rest := AnyLetterPass(code, mapping[1..]);
      assert forall k :: 1 <= k < |mapping| ==> mapping[k] == mapping[1..][k - 1];
      (if ListsAnyLetter(mapping[0], code) then [mapping[0].industry.value] else []) + rest
  }

  /** The fallback pass: entries listing the first letter. */
  function FirstLetterPass(code: string, mapping: seq<IndustryEntry>): (r: seq<string>)
    requires |code| > 0
    ensures forall x :: x in r ==> exists k :: 0 <= k < |mapping| && Lists(mapping[k], [code[0]]) && mapping[k].industry.value == x
  {
    if mapping == [] then []
    else
      var rest := FirstLetterPass(code, mapping[1..]);
      assert forall k :: 1 <= k < |mapping| ==> mapping[k] == mapping[1..][k - 1];
      (if Lists(mapping[0], [code[0]]) then [mapping[0].industry.value] else []) + rest
  }

  const GeneralIndustry: string := "General"

  /** `matching_industries` in `submit_survey`. */
  function SubmitIndustries(code: string, mapping: seq<IndustryEntry>): (r: seq<string>)
    requires |code| > 0
    ensures r != []
    ensures AnyLetterPass(code, mapping) != [] ==> r == AnyLetterPass(code, mapping)
    ensures AnyLetterPass(code, mapping) == [] ==> r == [GeneralIndustry]
  {
    var first := AnyLetterPass(code, mapping);
    if first != [] then first
    else
      FallbackAddsNothing(code, mapping);
      var fallback := FirstLetterPass(code, mapping);
      if fallback != [] then fallback else [GeneralIndustry]
  }

  /** The fallback can only find what the first pass already found: an
      entry that lists the first letter lists a letter of the code. */
  lemma FallbackAddsNothing(code: string, mapping: seq<IndustryEntry>)
    requires |code| > 0
    ensures forall x :: x in FirstLetterPass(code, mapping) ==> x in AnyLetterPass(code, mapping)
    ensures AnyLetterPass(code, mapping) == [] ==> FirstLetterPass(code, mapping) == []
  {
    forall x | x in FirstLetterPass(code, mapping) ensures x in AnyLetterPass(code, mapping) {
      var k :| 0 <= k < |mapping| && Lists(mapping[k], [code[0]]) && mapping[k].industry.value == x;
      assert ListsAnyLetter(mapping[k], code);
    }
    if FirstLetterPass(code, mapping) != [] {
      assert FirstLetterPass(code, mapping)[0] in FirstLetterPass(code, mapping);
    }
  }
}
