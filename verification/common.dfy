/** Shared vocabulary of the model: optional and fallible values, the two
    whitespace notions (JavaScript `trim` and Python `str.strip`), ASCII case
    folding, decimal rendering of naturals, and Python's `str.split` /
    `str.join` / `str.replace` / `in` on strings, with the lemmas that relate
    them. */
module Common {

  datatype Option<T> = None | Some(value: T)

  datatype Result<T, E> = Ok(value: T) | Err(error: E)

  // ---------------------------------------------------------------------------
  // Whitespace and trimming
  // ---------------------------------------------------------------------------

  /** Which runtime's notion of whitespace a trim uses. */
  datatype Runtime = Js | Py

  /** The space separators shared by both runtimes (Unicode category Zs). */
  predicate IsUnicodeSpaceSeparator(c: char) {
    c == ' ' || c == '\U{00A0}' || c == '\U{1680}' || ('\U{2000}' <= c <= '\U{200A}')
    || c == '\U{202F}' || c == '\U{205F}' || c == '\U{3000}'
  }

  /** JavaScript's WhiteSpace and LineTerminator, which `String.prototype.trim`
      removes; Python's `str.isspace`, which `str.strip()` removes. */
  predicate IsSpace(rt: Runtime, c: char) {
    || IsUnicodeSpaceSeparator(c)
    || c == '\t' || c == '\n' || c == '\U{000B}' || c == '\U{000C}' || c == '\r'
    || c == '\U{2028}' || c == '\U{2029}'
    || (rt == Js && c == '\U{FEFF}')
    || (rt == Py && (('\U{001C}' <= c <= '\U{001F}') || c == '\U{0085}'))
  }

  function TrimStart(rt: Runtime, s: string): (r: string)
    ensures |r| <= |s| && r == s[|s| - |r|..]
    ensures forall k :: 0 <= k < |s| - |r| ==> IsSpace(rt, s[k])
    ensures r == [] || !IsSpace(rt, r[0])
  {
    if |s| > 0 && IsSpace(rt, s[0]) then TrimStart(rt, s[1..]) else s
  }

  function TrimEnd(rt: Runtime, s: string): (r: string)
    ensures |r| <= |s| && r == s[..|r|]
    ensures forall k :: |r| <= k < |s| ==> IsSpace(rt, s[k])
    ensures r == [] || !IsSpace(rt, r[|r| - 1])
  {
    if |s| > 0 && IsSpace(rt, s[|s| - 1]) then TrimEnd(rt, s[..|s| - 1]) else s
  }

  /** `s.trim()` in JavaScript, `s.strip()` in Python: the infix of `s` left
      after removing leading and trailing whitespace. */
  function Trim(rt: Runtime, s: string): (r: string)
    ensures LeadingSpaces(rt, s) + |r| <= |s|
    ensures r == s[LeadingSpaces(rt, s)..LeadingSpaces(rt, s) + |r|]
    ensures r == [] || (!IsSpace(rt, r[0]) && !IsSpace(rt, r[|r| - 1]))
    // what is removed, at either end, is whitespace
    ensures forall k :: 0 <= k < LeadingSpaces(rt, s) ==> IsSpace(rt, s[k])
    ensures forall k :: LeadingSpaces(rt, s) + |r| <= k < |s| ==> IsSpace(rt, s[k])
  {
    var t := TrimStart(rt, s);
    var r := TrimEnd(rt, t);
    SpacesShift(rt, s, t, r);
    r
  }

  /** Cutting whitespace off the end of a suffix `t` of `s` leaves an infix
      of `s` followed only by whitespace. */
  lemma SpacesShift(rt: Runtime, s: string, t: string, r: string)
    requires |t| <= |s| && t == s[|s| - |t|..]
    requires |r| <= |t| && r == t[..|r|]
    requires forall k :: |r| <= k < |t| ==> IsSpace(rt, t[k])
    ensures r == s[|s| - |t|..|s| - |t| + |r|]
    ensures forall k :: |s| - |t| + |r| <= k < |s| ==> IsSpace(rt, s[k])
  {
    var lead := |s| - |t|;
    forall k | lead + |r| <= k < |s| ensures IsSpace(rt, s[k]) {
      assert s[k] == t[k - lead];
    }
  }

  /** How many whitespace characters `Trim` removes at the front. */
  function LeadingSpaces(rt: Runtime, s: string): nat {
    |s| - |TrimStart(rt, s)|
  }

  /** A trimmed string is empty exactly when every character is whitespace. */
  lemma TrimEmptyIffAllSpace(rt: Runtime, s: string)
    ensures Trim(rt, s) == [] <==> forall k :: 0 <= k < |s| ==> IsSpace(rt, s[k])
  {
    if Trim(rt, s) != [] {
      var r := Trim(rt, s);
      assert s[LeadingSpaces(rt, s)] == r[0];
    }
  }

  /** Trimming leaves a string that starts and ends with non-whitespace as it is. */
  lemma TrimClean(rt: Runtime, s: string)
    requires s == [] || (!IsSpace(rt, s[0]) && !IsSpace(rt, s[|s| - 1]))
    ensures Trim(rt, s) == s
  {
  }

  /** A string is blank when it trims to nothing. */
  predicate IsBlank(rt: Runtime, s: string) {
    Trim(rt, s) == []
  }

  // ---------------------------------------------------------------------------
  // Case folding
  // ---------------------------------------------------------------------------

  function LowerChar(c: char): char {
    if 'A' <= c <= 'Z' then (c as int - 'A' as int + 'a' as int) as char else c
  }

  /** ASCII lower-casing (`toLowerCase()` / `str.lower()` on ASCII text). */
  function Lower(s: string): (r: string)
    ensures |r| == |s|
    ensures forall k :: 0 <= k < |s| ==> r[k] == LowerChar(s[k])
  {
    if s == [] then [] else [LowerChar(s[0])] + Lower(s[1..])
  }

  // ---------------------------------------------------------------------------
  // Decimal rendering of naturals
  // ---------------------------------------------------------------------------

  predicate IsDigit(c: char) {
    '0' <= c <= '9'
  }

  function DigitChar(d: nat): char
    requires d < 10
  {
    ('0' as int + d) as char
  }

  function DigitValue(c: char): nat
    requires IsDigit(c)
  {
    c as int - '0' as int
  }

  /** `String(n)` / `str(n)` for a natural number, e.g. the page number and
      question index in error messages. */
  function NatToDecimal(n: nat): (r: string)
    ensures |r| > 0
    ensures forall k :: 0 <= k < |r| ==> IsDigit(r[k])
    ensures r[0] == '0' ==> n == 0
  {
    if n < 10 then [DigitChar(n)] else NatToDecimal(n / 10) + [DigitChar(n % 10)]
  }

  /** The value of a string of decimal digits. */
  function DecimalValue(s: string): nat
    requires forall k :: 0 <= k < |s| ==> IsDigit(s[k])
  {
    if s == [] then 0 else 10 * DecimalValue(s[..|s| - 1]) + DigitValue(s[|s| - 1])
  }

  lemma {:induction false} DecimalRoundTrip(n: nat)
    ensures DecimalValue(NatToDecimal(n)) == n
  {
    if n >= 10 {
      var r := NatToDecimal(n);
      assert r[..|r| - 1] == NatToDecimal(n / 10);
      DecimalRoundTrip(n / 10);
    }
  }

  /** Different numbers render differently, so messages that embed an index
      are distinct. */
  lemma NatToDecimalInjective(m: nat, n: nat)
    requires NatToDecimal(m) == NatToDecimal(n)
    ensures m == n
  {
    DecimalRoundTrip(m);
    DecimalRoundTrip(n);
  }

  // ---------------------------------------------------------------------------
  // Substrings, split, join, replace
  // ---------------------------------------------------------------------------

  predicate StartsWith(s: string, t: string) {
    |t| <= |s| && s[..|t|] == t
  }

  /** Python's `t in s` and JavaScript's `s.includes(t)` on strings. */
  predicate Contains(s: string, t: string)
    decreases |s|
  {
    StartsWith(s, t) || (|s| > 0 && Contains(s[1..], t))
  }

  /** A string cannot contain a pattern holding a character it lacks. */
  lemma {:induction false} NotContainsMissingChar(s: string, t: string, c: char)
    requires c in t && c !in s
    ensures !Contains(s, t)
    decreases |s|
  {
    if |s| > 0 {
      NotContainsMissingChar(s[1..], t, c);
    }
  }

  /** Python's `s.split(sep)` for a non-empty separator: the parts between
      the leftmost non-overlapping occurrences of `sep`. */
  function Split(s: string, sep: string): (parts: seq<string>)
    requires |sep| > 0
    ensures |parts| > 0
    decreases |s|
  {
    if |s| < |sep| then [s]
    else if s[..|sep|] == sep then [""] + Split(s[|sep|..], sep)
    else
      var rest := Split(s[1..], sep);
      [[s[0]] + rest[0]] + rest[1..]
  }

  /** Python's `sep.join(parts)`. */
  function Join(parts: seq<string>, sep: string): (r: string)
    ensures |parts| == 1 ==> r == parts[0]
  {
    if parts == [] then ""
    else if |parts| == 1 then parts[0]
    else parts[0] + sep + Join(parts[1..], sep)
  }

  /** Python's `s.replace(pat, with)`: every occurrence is replaced. */
  function Replace(s: string, pat: string, with: string): string
    requires |pat| > 0
  {
    Join(Split(s, pat), with)
  }

  /** A string holding no occurrence of the separator splits into itself. */
  lemma {:induction false} SplitAbsent(s: string, sep: string)
    requires |sep| > 0 && !Contains(s, sep)
    ensures Split(s, sep) == [s]
    decreases |s|
  {
    if |s| >= |sep| {
      assert !StartsWith(s, sep);
      SplitAbsent(s[1..], sep);
      assert [s[0]] + s[1..] == s;
    }
  }

  /** A leading part that lacks the separator's first character is cut off
      at the separator that follows it. */
  lemma {:induction false} SplitLead(p: string, sep: string, rest: string)
    requires |sep| > 0 && sep[0] !in p
    ensures Split(p + sep + rest, sep) == [p] + Split(rest, sep)
    decreases |p|
  {
    var s := p + sep + rest;
    if p == [] {
      assert s == sep + rest;
      assert s[..|sep|] == sep;
      assert s[|sep|..] == rest;
    } else {
      assert s[0] == p[0] != sep[0];
      assert s[..|sep|] != sep;
      assert s[1..] == p[1..] + sep + rest;
      SplitLead(p[1..], sep, rest);
      assert [p[0]] + p[1..] == p;
    }
  }

  /** Splitting undoes joining when no part holds the separator's first
      character. */
  lemma {:induction false} SplitJoin(parts: seq<string>, sep: string)
    requires |sep| > 0 && |parts| > 0
    requires forall k :: 0 <= k < |parts| ==> sep[0] !in parts[k]
    ensures Split(Join(parts, sep), sep) == parts
  {
    if |parts| == 1 {
      NotContainsMissingChar(parts[0], sep, sep[0]);
      SplitAbsent(parts[0], sep);
    } else {
      SplitLead(parts[0], sep, Join(parts[1..], sep));
      SplitJoin(parts[1..], sep);
    }
  }

  /** Replacing a pattern that occurs only as a prefix removes that prefix. */
  lemma ReplaceLeadingOnly(pat: string, rest: string, c: char)
    requires |pat| > 0 && c in pat && c !in rest
    ensures Replace(pat + rest, pat, "") == rest
  {
    var s := pat + rest;
    assert s[..|pat|] == pat;
    assert s[|pat|..] == rest;
    NotContainsMissingChar(rest, pat, c);
    SplitAbsent(rest, pat);
    assert Split(s, pat) == [""] + [rest];
  }
}
