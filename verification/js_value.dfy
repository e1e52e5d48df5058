/** The JavaScript values the two survey wizards keep in their answer slots:
    strings and numbers. Numbers are IEEE doubles in the browser; here they
    are exact reals plus the three special values, which is all the
    comparisons against the score bounds 1 and 7 need. */
module JsValues {
  import opened Common

  datatype JsNumber = NaN | PosInf | NegInf | Finite(value: real)

  /** A slot value: `string | number` in the TypeScript declarations. */
  datatype JsValue = Str(s: string) | Num(n: JsNumber)

  // ---------------------------------------------------------------------------
  // Relational comparisons against a finite bound. Every comparison that
  // involves NaN is false.
  // ---------------------------------------------------------------------------

  predicate AtLeast(x: JsNumber, bound: real) {
    match x
    case NaN => false
    case PosInf => true
    case NegInf => false
    case Finite(v) => v >= bound
  }

  predicate AtMost(x: JsNumber, bound: real) {
    match x
    case NaN => false
    case PosInf => false
    case NegInf => true
    case Finite(v) => v <= bound
  }

  predicate Below(x: JsNumber, bound: real) {
    match x
    case NaN => false
    case PosInf => false
    case NegInf => true
    case Finite(v) => v < bound
  }

  predicate Above(x: JsNumber, bound: real) {
    match x
    case NaN => false
    case PosInf => true
    case NegInf => false
    case Finite(v) => v > bound
  }

  // ---------------------------------------------------------------------------
  // Number(string): the StringNumericLiteral grammar
  // ---------------------------------------------------------------------------

  function Pow10(n: nat): (r: real)
    ensures r >= 1.0
  {
    if n == 0 then 1.0 else 10.0 * Pow10(n - 1)
  }

  predicate AllDigits(s: string) {
    forall k :: 0 <= k < |s| ==> IsDigit(s[k])
  }

  function FirstIndexOf(s: string, c: char): (r: Option<nat>)
    ensures r.Some? ==> r.value < |s| && s[r.value] == c && c !in s[..r.value]
    ensures r.None? ==> c !in s
  {
    if s == [] then None
    else if s[0] == c then Some(0)
    else match FirstIndexOf(s[1..], c)
      case None => None
      case Some(k) => assert s[..k + 1] == [s[0]] + s[1..][..k]; Some(k + 1)
  }

  /** The value of a digit in base 2, 8 or 16, if `c` is one. */
  function RadixDigit(c: char, radix: nat): Option<nat> {
    var d :=
      if '0' <= c <= '9' then Some(c as int - '0' as int)
      else if 'a' <= c <= 'f' then Some(c as int - 'a' as int + 10)
      else if 'A' <= c <= 'F' then Some(c as int - 'A' as int + 10)
      else None;
    if d.Some? && d.value < radix then Some(d.value as nat) else None
  }

  /** The value of a non-empty digit string in the given base. */
  function RadixValue(s: string, radix: nat): Option<nat>
    decreases |s|
  {
    if s == [] then None
    else
      var last := RadixDigit(s[|s| - 1], radix);
      if last.None? then None
      else if |s| == 1 then last
      else match RadixValue(s[..|s| - 1], radix)
        case None => None
        case Some(v) => Some(v * radix + last.value)
  }

  /** StrUnsignedDecimalLiteral: digits with an optional fraction and an
      optional exponent, at least one digit before the exponent. The input is
      already lower-cased. */
  function UnsignedDecimal(t: string): Option<real> {
    var (mantissa, exponent) :=
      match FirstIndexOf(t, 'e')
      case None => (t, Some(0))
      case Some(k) => (t[..k], SignedInteger(t[k + 1..]));
    var (whole, fraction) :=
      match FirstIndexOf(mantissa, '.')
      case None => (mantissa, "")
      case Some(k) => (mantissa[..k], mantissa[k + 1..]);
    if exponent.None? || !AllDigits(whole) || !AllDigits(fraction) || whole + fraction == [] then None
    else
      var m := DecimalValue(whole) as real + DecimalValue(fraction) as real / Pow10(|fraction|);
      var e := exponent.value;
      Some(if e >= 0 then m * Pow10(e) else m / Pow10(-e))
  }

  /** An exponent: an optional sign and at least one digit. */
  function SignedInteger(t: string): Option<int> {
    var (negative, digits) :=
      if |t| > 0 && (t[0] == '+' || t[0] == '-') then (t[0] == '-', t[1..]) else (false, t);
    if digits == [] || !AllDigits(digits) then None
    else
      var magnitude: int := DecimalValue(digits);
      Some(if negative then -magnitude else magnitude)
  }

  /** `Number(s)` for a string: surrounding whitespace is ignored, the empty
      string is 0, and anything outside the numeric-literal grammar is NaN. */
  function StringToNumber(s: string): JsNumber {
    var t := Trim(Js, s);
    if t == [] then Finite(0.0)
    else if t == "Infinity" || t == "+Infinity" then PosInf
    else if t == "-Infinity" then NegInf
    else if |t| >= 2 && t[0] == '0' && t[1] in "xXoObB" then
      var radix := if t[1] in "xX" then 16 else if t[1] in "oO" then 8 else 2;
      match RadixValue(t[2..], radix)
      case None => NaN
      case Some(v) => Finite(v as real)
    else
      var negative := t[0] == '-';
      var body := if t[0] == '-' || t[0] == '+' then t[1..] else t;
      match UnsignedDecimal(Lower(body))
      case None => NaN
      case Some(v) => Finite(if negative then -v else v)
  }

  /** A bare digit string is an unsigned decimal literal with its own value. */
  lemma UnsignedDecimalDigits(t: string)
    requires t != [] && AllDigits(t)
    ensures UnsignedDecimal(t) == Some(DecimalValue(t) as real)
  {
    assert 'e' !in t && '.' !in t by {
      forall k | 0 <= k < |t| ensures t[k] != 'e' && t[k] != '.' {
        assert IsDigit(t[k]);
      }
    }
    assert FirstIndexOf(t, 'e') == None;
    assert FirstIndexOf(t, '.') == None;
  }

  lemma LowerDigits(t: string)
    requires AllDigits(t)
    ensures Lower(t) == t
  {
  }

  /** A digit string is read as its decimal value. */
  lemma DigitStringToNumber(t: string)
    requires t != [] && AllDigits(t)
    ensures StringToNumber(t) == Finite(DecimalValue(t) as real)
  {
    assert IsDigit(t[0]);
    TrimClean(Js, t);
    assert Trim(Js, t) == t;
    assert t != "Infinity" && t != "+Infinity" && t != "-Infinity" by {
      assert t[0] != 'I' && t[0] != '+' && t[0] != '-';
    }
    if |t| >= 2 {
      assert IsDigit(t[1]);
      assert t[1] !in "xXoObB";
    }
    assert t[0] != '-' && t[0] != '+';
    LowerDigits(t);
    UnsignedDecimalDigits(t);
  }

  /** A plain decimal rendering reads back as the number it renders. */
  lemma DecimalStringToNumber(n: nat)
    ensures StringToNumber(NatToDecimal(n)) == Finite(n as real)
  {
    DigitStringToNumber(NatToDecimal(n));
    DecimalRoundTrip(n);
  }

  // ---------------------------------------------------------------------------
  // Conversions used by the wizards
  // ---------------------------------------------------------------------------

  /** `Number(v)`. */
  function ToNumber(v: JsValue): JsNumber {
    match v
    case Num(n) => n
    case Str(s) => StringToNumber(s)
  }

  function IntToDecimal(i: int): string {
    if i < 0 then "-" + NatToDecimal(-i) else NatToDecimal(i)
  }

  /** Up to `places` decimal digits of a fraction in [0, 1). */
  function FractionDigits(f: real, places: nat): string
    requires 0.0 <= f < 1.0
    decreases places
  {
    if places == 0 || f == 0.0 then ""
    else
      var d := (f * 10.0).Floor;
      assert 0 <= d < 10;
      [DigitChar(d)] + FractionDigits(f * 10.0 - d as real, places - 1)
  }

  /** `n.toString()`: exact for NaN, the infinities and integral values. */
  function NumberToString(n: JsNumber): string {
    match n
    case NaN => "NaN"
    case PosInf => "Infinity"
    case NegInf => "-Infinity"
    case Finite(v) =>
      if v == v.Floor as real then IntToDecimal(v.Floor)
      else
        var magnitude := if v < 0.0 then -v else v;
        var whole := magnitude.Floor;
        (if v < 0.0 then "-" else "") + NatToDecimal(whole) + "."
          + FractionDigits(magnitude - whole as real, 20)
  }

  /** `v.toString()`. */
  function ToText(v: JsValue): string {
    match v
    case Str(s) => s
    case Num(n) => NumberToString(n)
  }

  /** `v.toString().toLowerCase()`, the normal form the first wizard keeps
      for yes/no answers. */
  function LowerText(v: JsValue): string {
    Lower(ToText(v))
  }

  function LowerAll(vs: seq<JsValue>): (r: seq<string>)
    ensures |r| == |vs|
    ensures forall k :: 0 <= k < |vs| ==> r[k] == LowerText(vs[k])
  {
    if vs == [] then [] else [LowerText(vs[0])] + LowerAll(vs[1..])
  }

  function Strs(ss: seq<string>): (r: seq<JsValue>)
    ensures |r| == |ss|
    ensures forall k :: 0 <= k < |ss| ==> r[k] == Str(ss[k])
  {
    if ss == [] then [] else [Str(ss[0])] + Strs(ss[1..])
  }

  lemma StrsAppend(a: seq<string>, b: seq<string>)
    ensures Strs(a + b) == Strs(a) + Strs(b)
  {
  }
}
