/**
  The problem bank's lookup and the verifier that decides whether an
  extracted answer equals a ground-truth answer: numerically when both
  strings are decimal numbers, otherwise as lower-cased, stripped strings.
 */
module Verification {
  import opened Wrappers
  import opened Text

  /** A reference problem: its id, its statement and its known answer */
  datatype Problem = Problem(id: string, statement: string, groundTruth: string)

  /** `ProblemBank.get_problem`: the first problem in the bank with the given id */
  function GetProblem(bank: seq<Problem>, id: string): (r: Option<Problem>)
    ensures r.None? <==> forall k :: 0 <= k < |bank| ==> bank[k].id != id
    ensures r.Some? ==> r.value.id == id && r.value in bank
    ensures r.Some? ==> exists k :: 0 <= k < |bank| && bank[k] == r.value && FirstWithId(bank, id, k)
    decreases |bank|
  {
    if |bank| == 0 then None
    else if bank[0].id == id then
      assert FirstWithId(bank, id, 0);
      Some(bank[0])
    else
      var r := GetProblem(bank[1..], id);
      if r.Some? then
        var k :| 0 <= k < |bank[1..]| && bank[1..][k] == r.value && FirstWithId(bank[1..], id, k);
        assert bank[k + 1] == r.value && FirstWithId(bank, id, k + 1);
        r
      else
        r
  }

  /** Entry `k` is the first one whose id is `id` */
  predicate FirstWithId(bank: seq<Problem>, id: string, k: nat) {
    k < |bank| && bank[k].id == id && forall j :: 0 <= j < k ==> bank[j].id != id
  }

  /** The number `mantissa / 10^scale`, exactly */
  datatype Decimal = Decimal(mantissa: int, scale: nat)

  function Pow10(n: nat): (r: nat)
    ensures r >= 1
  {
    if n == 0 then 1 else 10 * Pow10(n - 1)
  }

  function DigitValue(c: char): nat
    requires IsDigit(c)
  {
    c as int - '0' as int
  }

  predicate AllDigits(s: string) {
    forall k :: 0 <= k < |s| ==> IsDigit(s[k])
  }

  /** The value of a string of decimal digits, most significant first */
  function DigitsValue(s: string): nat
    requires AllDigits(s)
    decreases |s|
  {
    if |s| == 0 then 0 else 10 * DigitsValue(s[..|s| - 1]) + DigitValue(s[|s| - 1])
  }

  /**
    Python's `float(s)` on the decimal forms it accepts: surrounding white
    space as `float()` strips it (`FloatStrip`), an optional sign, then
    digits with an optional period (`12`, `12.`, `12.5`, `.5`) and at least
    one digit. The value is kept exact.
   */
  function ParseNumber(s: string): (r: Option<Decimal>)
    ensures FloatStrip(s) == "" ==> r.None?
    ensures |FloatStrip(s)| > 0 && !(IsDigit(FloatStrip(s)[0]) || FloatStrip(s)[0] in "+-.") ==> r.None?
    ensures |FloatStrip(s)| > 0 && AllDigits(FloatStrip(s)) ==> r == Some(Decimal(DigitsValue(FloatStrip(s)), 0))
    ensures r.Some? ==> exists k :: 0 <= k < |FloatStrip(s)| && IsDigit(FloatStrip(s)[k])
  {
    var t := FloatStrip(s);
    if |t| > 0 && (t[0] == '+' || t[0] == '-') then
      var sign := if t[0] == '-' then -1 else 1;
      match ParseUnsigned(t[1..])
      case None => None
      case Some(d) =>
        var k :| 0 <= k < |t[1..]| && IsDigit(t[1..][k]);
        assert IsDigit(t[k + 1]);
        Some(Decimal(sign * d.mantissa, d.scale))
    else
      ParseUnsigned(t)
  }

  /** The part of `float` after the sign: digits with at most one period and at least one digit */
  function ParseUnsigned(body: string): (r: Option<Decimal>)
    ensures |body| > 0 && !(IsDigit(body[0]) || body[0] == '.') ==> r.None?
    ensures |body| > 0 && AllDigits(body) ==> r == Some(Decimal(DigitsValue(body), 0))
    ensures r.Some? ==> exists k :: 0 <= k < |body| && IsDigit(body[k])
  {
    AllDigitsSkip(body);
    var i := SkipWhile(body, 0, Digit);
    if i == |body| then
      if i == 0 then None
      else
        assert IsDigit(body[0]);
        Some(Decimal(DigitsValue(body), 0))
    else if body[i] != '.' then None
    else
      var f := SkipWhile(body, i + 1, Digit);
      if f < |body| || (i == 0 && f == i + 1) then None
      else
        var digits := body[..i] + body[i + 1..];
        DigitsAroundPoint(body, i, f);
        assert if i > 0 then IsDigit(body[0]) else IsDigit(body[i + 1]);
        Some(Decimal(DigitsValue(digits), f - i - 1))
  }

  /** Every character is white space that `float()` strips */
  predicate AllFloatSpaces(s: string) {
    forall k :: 0 <= k < |s| ==> IsFloatSpace(s[k])
  }

  /**
    The stripping `float()` does before it reads a number: like `strip()`,
    except that the separators U+001C to U+001F stay.
   */
  function FloatStrip(s: string): (r: string)
    ensures |r| == 0 || (!IsFloatSpace(r[0]) && !IsFloatSpace(r[|r| - 1]))
    ensures exists a, b :: 0 <= a <= b <= |s| && r == s[a..b] && AllFloatSpaces(s[..a]) && AllFloatSpaces(s[b..])
  {
    var a := SkipWhile(s, 0, FloatSpace);
    var b := TrimEnd(s, a, |s|, FloatSpace);
    assert AllFloatSpaces(s[..a]) && AllFloatSpaces(s[b..]);
    s[a..b]
  }

  /** A string without white space at either end is what `float()` reads */
  lemma FloatStripTrimmed(s: string)
    requires Trimmed(s)
    ensures FloatStrip(s) == s
  {
    if |s| > 0 {
      assert SkipWhile(s, 0, FloatSpace) == 0;
      assert TrimEnd(s, 0, |s|, FloatSpace) == |s|;
    }
  }

  /** Without the separators U+001C to U+001F, `float()` strips what `strip()` strips */
  lemma FloatStripIsStrip(s: string)
    requires forall k :: 0 <= k < |s| ==> !('\U{1c}' <= s[k] <= '\U{1f}')
    ensures FloatStrip(s) == Strip(s)
  {
    var r := FloatStrip(s);
    var a, b :| 0 <= a <= b <= |s| && r == s[a..b] && AllFloatSpaces(s[..a]) && AllFloatSpaces(s[b..]);
    assert forall k :: 0 <= k < |r| ==> r[k] == s[a + k];
    StripUnique(s, a, b);
  }

  /**
    A separator in front of a number is not stripped, so the string is not
    a number and the verdict falls back to text: "1.0" does not verify
    against U+001C followed by "1".
   */
  lemma SeparatorBlocksNumber(a: string, g: string)
    requires a == "1.0" && g == "\U{1c}1"
    ensures ParseNumber(g) == None
    ensures !Verify(Some(a), g)
  {
    assert SkipWhile(g, 0, FloatSpace) == 0;
    assert TrimEnd(g, 0, |g|, FloatSpace) == |g|;
    assert SkipWhile(g, 0, Digit) == 0;
    assert Lower(a) == a;
    StripTrimmed(a);
    assert |Strip(Lower(g))| <= 2;
  }

  lemma AllDigitsSkip(t: string)
    ensures AllDigits(t) ==> SkipWhile(t, 0, Digit) == |t|
  {
    if AllDigits(t) {
      SkipWhileTo(t, 0, |t|, Digit);
    }
  }

  /** The digits on both sides of the decimal point, the point removed, are all digits */
  lemma DigitsAroundPoint(body: string, i: nat, f: nat)
    requires i == SkipWhile(body, 0, Digit) && i < |body| && body[i] == '.'
    requires f == SkipWhile(body, i + 1, Digit) && f == |body|
    ensures AllDigits(body[..i] + body[i + 1..])
  {
    var digits := body[..i] + body[i + 1..];
    forall k | 0 <= k < |digits|
      ensures IsDigit(digits[k])
    {
      if k >= i {
        assert digits[k] == body[k + 1];
        assert InClass(body[k + 1], Digit);
      }
    }
  }

  /** `b` is digits, a period at `p`, then digits, with at least one digit in all */
  predicate PointedAt(b: string, p: nat) {
    p < |b| && b[p] == '.' && |b| > 1 && AllDigits(b[..p]) && AllDigits(b[p + 1..])
  }

  /** The unsigned forms `float` reads here: `digits`, `digits.digits`, `digits.` and `.digits` */
  predicate UnsignedLiteral(b: string) {
    (|b| > 0 && AllDigits(b)) || exists p :: 0 <= p < |b| && PointedAt(b, p)
  }

  /** An unsigned form, optionally after one sign */
  predicate NumberLiteral(t: string) {
    UnsignedLiteral(t) || (|t| > 0 && (t[0] == '+' || t[0] == '-') && UnsignedLiteral(t[1..]))
  }

  /** A literal without its sign */
  function Magnitude(t: string): (b: string)
    ensures |b| <= |t| && b == t[|t| - |b|..]
  {
    if |t| > 0 && (t[0] == '+' || t[0] == '-') then t[1..] else t
  }

  /** -1 for a literal with a minus sign, otherwise 1 */
  function SignOf(t: string): int {
    if |t| > 0 && t[0] == '-' then -1 else 1
  }

  /** The value of `digits.digits`: every digit, the period left out, scaled by the digits after it */
  function PointedValue(b: string, p: nat): (d: Decimal)
    requires PointedAt(b, p)
    ensures d.scale == |b| - p - 1
  {
    AllDigitsJoin(b[..p], b[p + 1..]);
    Decimal(DigitsValue(b[..p] + b[p + 1..]), |b| - p - 1)
  }

  lemma AllDigitsJoin(x: string, y: string)
    requires AllDigits(x) && AllDigits(y)
    ensures AllDigits(x + y)
  {
  }

  /**
    Which strings are numbers, and what they are worth: `ParseNumber`
    succeeds exactly on a string that, with the white space `float()`
    ignores stripped, is an optional sign then
    digits with at most one period and at least one digit. Its value is
    the digits read as an integer, negated after a minus sign, with one
    decimal place per digit after the period.
   */
  lemma ParseNumberSpec(s: string)
    ensures ParseNumber(s).Some? <==> NumberLiteral(FloatStrip(s))
    ensures var t := FloatStrip(s); var b := Magnitude(t);
      |b| > 0 && AllDigits(b) ==> ParseNumber(s) == Some(Decimal(SignOf(t) * DigitsValue(b), 0))
    ensures var t := FloatStrip(s); var b := Magnitude(t);
      forall p :: PointedAt(b, p) ==>
        ParseNumber(s) == Some(Decimal(SignOf(t) * PointedValue(b, p).mantissa, PointedValue(b, p).scale))
  {
    var t := FloatStrip(s);
    var b := Magnitude(t);
    ParseUnsignedSpec(b);
    if |t| > 0 && (t[0] == '+' || t[0] == '-') {
      SignedNotUnsigned(t);
    }
  }

  /** A string that starts with a sign is not an unsigned literal */
  lemma SignedNotUnsigned(t: string)
    requires |t| > 0 && (t[0] == '+' || t[0] == '-')
    ensures !UnsignedLiteral(t)
  {
  }

  /** `ParseUnsigned` accepts exactly the unsigned literals, with their values */
  lemma ParseUnsignedSpec(b: string)
    ensures ParseUnsigned(b).Some? <==> UnsignedLiteral(b)
    ensures |b| > 0 && AllDigits(b) ==> ParseUnsigned(b) == Some(Decimal(DigitsValue(b), 0))
    ensures forall p :: PointedAt(b, p) ==> ParseUnsigned(b) == Some(PointedValue(b, p))
  {
    forall p | PointedAt(b, p)
      ensures ParseUnsigned(b) == Some(PointedValue(b, p))
    {
      UnsignedPointedAt(b, p);
    }
    if ParseUnsigned(b).Some? {
      UnsignedAccepted(b);
    }
  }

  /** What `ParseUnsigned` accepts is an unsigned literal */
  lemma UnsignedAccepted(b: string)
    requires ParseUnsigned(b).Some?
    ensures UnsignedLiteral(b)
  {
    var i := SkipWhile(b, 0, Digit);
    assert AllDigits(b[..i]);
    if i < |b| {
      var f := SkipWhile(b, i + 1, Digit);
      assert AllDigits(b[i + 1..]);
      assert PointedAt(b, i);
    }
  }

  /** A `digits.digits` string with its period at `p` reads as its pointed value */
  lemma UnsignedPointedAt(b: string, p: nat)
    requires PointedAt(b, p)
    ensures ParseUnsigned(b) == Some(PointedValue(b, p))
  {
    assert forall k :: 0 <= k < p ==> b[..p][k] == b[k];
    SkipWhileTo(b, 0, p, Digit);
    assert forall k :: p + 1 <= k < |b| ==> b[p + 1..][k - p - 1] == b[k];
    SkipWhileTo(b, p + 1, |b|, Digit);
  }

  /** Equal as numbers: `float(a) == float(b)` with exact arithmetic */
  predicate SameValue(x: Decimal, y: Decimal) {
    x.mantissa * Pow10(y.scale) == y.mantissa * Pow10(x.scale)
  }

  /** The exact rational value of a decimal */
  function ValueOf(x: Decimal): real {
    x.mantissa as real / Pow10(x.scale) as real
  }

  /** Cross-multiplying compares the rational values */
  lemma SameValueIsEqualValue(x: Decimal, y: Decimal)
    ensures SameValue(x, y) <==> ValueOf(x) == ValueOf(y)
  {
    var px, py := Pow10(x.scale), Pow10(y.scale);
    CrossMultiply(x.mantissa as real, px as real, y.mantissa as real, py as real);
    assert (x.mantissa * py) as real == x.mantissa as real * py as real;
    assert (y.mantissa * px) as real == y.mantissa as real * px as real;
  }

  lemma CrossMultiply(a: real, p: real, b: real, q: real)
    requires p > 0.0 && q > 0.0
    ensures (a * q == b * p) <==> (a / p == b / q)
  {
    assert a == (a / p) * p;
    assert b == (b / q) * q;
    if a / p == b / q {
      assert a * q == (a / p) * p * q;
    }
    if a * q == b * p {
      assert (a / p) * (p * q) == b * p;
      assert (b / q) * (p * q) == b * p;
    }
  }

  /** Numeric equality is an equivalence relation */
  lemma SameValueTransitive(x: Decimal, y: Decimal, z: Decimal)
    requires SameValue(x, y) && SameValue(y, z)
    ensures SameValue(x, z)
  {
    SameValueIsEqualValue(x, y);
    SameValueIsEqualValue(y, z);
    SameValueIsEqualValue(x, z);
  }

  /** The case-insensitive, stripped comparison of the fallback branch */
  predicate SameText(a: string, b: string) {
    Strip(Lower(a)) == Strip(Lower(b))
  }

  /** Text that differs only in letter case and surrounding white space is the same text */
  lemma SameTextSurrounded(a: string, b: string, w1: string, w2: string)
    requires Lower(a) == Lower(b) && AllSpaces(w1) && AllSpaces(w2)
    ensures SameText(w1 + a + w2, b)
  {
    var l := Lower(w1 + a + w2);
    assert l == Lower(w1) + Lower(a) + Lower(w2);
    StripSurrounded(Lower(w1), Lower(a), Lower(w2));
  }

  /**
    `Verifier.verify`: a missing or empty answer never verifies; two numbers
    compare by value; anything else compares as lower-cased, stripped text.
   */
  function Verify(extracted: Option<string>, groundTruth: string): (r: bool)
    ensures extracted.None? || extracted == Some("") ==> !r
    ensures extracted.Some? && extracted.value != "" && ParseNumber(extracted.value).Some? && ParseNumber(groundTruth).Some? ==>
      (r <==> ValueOf(ParseNumber(extracted.value).value) == ValueOf(ParseNumber(groundTruth).value))
    ensures extracted.Some? && extracted.value != "" && (ParseNumber(extracted.value).None? || ParseNumber(groundTruth).None?) ==>
      (r <==> SameText(extracted.value, groundTruth))
  {
    if extracted.None? || extracted.value == "" then false
    else
      match (ParseNumber(extracted.value), ParseNumber(groundTruth))
      case (Some(x), Some(y)) =>
        SameValueIsEqualValue(x, y);
        SameValue(x, y)
      case _ => SameText(extracted.value, groundTruth)
  }

  /** Both branches compare symmetrically; only the emptiness guard looks at one side */
  lemma VerifySymmetric(a: string, b: string)
    requires a != "" && b != ""
    ensures Verify(Some(a), b) == Verify(Some(b), a)
  {
  }

  /** Every non-empty answer verifies against itself */
  lemma VerifyReflexive(a: string)
    requires a != ""
    ensures Verify(Some(a), a)
  {
  }

  /** An integer answer matches the same number written with a decimal part */
  lemma VerifyNumericExample(a: string, g: string)
    requires a == "70" && g == "70.0"
    ensures Verify(Some(a), g)
  {
    ParseSeventy(a);
    ParseSeventyPointZero(g);
    assert SameValue(Decimal(70, 0), Decimal(700, 1));
  }

  lemma ParseSeventy(s: string)
    requires s == "70"
    ensures ParseNumber(s) == Some(Decimal(70, 0))
  {
    FloatStripTrimmed(s);
    assert SkipWhile(s, 2, Digit) == 2;
    assert SkipWhile(s, 1, Digit) == 2;
    assert SkipWhile(s, 0, Digit) == 2;
    assert DigitsValue(s[..1]) == 7;
  }

  lemma ParseSixtyFive(s: string)
    requires s == "65"
    ensures ParseNumber(s) == Some(Decimal(65, 0))
  {
    FloatStripTrimmed(s);
    assert SkipWhile(s, 2, Digit) == 2;
    assert SkipWhile(s, 1, Digit) == 2;
    assert SkipWhile(s, 0, Digit) == 2;
    assert DigitsValue(s[..1]) == 6;
  }

  /** Against a ground truth of 70, an answer of 70 verifies and one of 65 does not */
  lemma VerifySeventyExample(a: string, b: string, g: string)
    requires a == "70" && b == "65" && g == "70"
    ensures Verify(Some(a), g)
    ensures !Verify(Some(b), g)
  {
    ParseSeventy(a);
    ParseSixtyFive(b);
  }

  lemma ParseSeventyPointZero(s: string)
    requires s == "70.0"
    ensures ParseNumber(s) == Some(Decimal(700, 1))
  {
    assert SkipWhile(s, 2, Digit) == 2;
    assert SkipWhile(s, 1, Digit) == 2;
    assert SkipWhile(s, 0, Digit) == 2;
    assert SkipWhile(s, 4, Digit) == 4;
    assert SkipWhile(s, 3, Digit) == 4;
    ParsePointed(s, 2);
    var digits := s[..2] + s[3..];
    assert digits == "700";
    assert DigitsValue(digits[..1]) == 7;
    assert DigitsValue(digits[..2]) == 70;
  }

  /** A trimmed, unsigned `digits.digits` reads as its digits scaled by the number of decimals */
  lemma ParsePointed(s: string, i: nat)
    requires Trimmed(s) && 0 < i && i + 1 < |s| && s[i] == '.'
    requires SkipWhile(s, 0, Digit) == i && SkipWhile(s, i + 1, Digit) == |s|
    ensures AllDigits(s[..i] + s[i + 1..])
    ensures ParseNumber(s) == Some(Decimal(DigitsValue(s[..i] + s[i + 1..]), |s| - i - 1))
  {
    FloatStripTrimmed(s);
    assert IsDigit(s[0]);
    UnsignedPointed(s, i);
  }

  lemma UnsignedPointed(body: string, i: nat)
    requires 0 < i && i + 1 < |body| && body[i] == '.'
    requires SkipWhile(body, 0, Digit) == i && SkipWhile(body, i + 1, Digit) == |body|
    ensures AllDigits(body[..i] + body[i + 1..])
    ensures ParseUnsigned(body) == Some(Decimal(DigitsValue(body[..i] + body[i + 1..]), |body| - i - 1))
  {
    DigitsAroundPoint(body, i, |body|);
  }

  /** Trailing letters, a second period or an inner space make a string a non-number */
  lemma ParseRejectsExamples(a: string, b: string, c: string)
    requires a == "70abc" && b == "1.2.3" && c == "7 0"
    ensures ParseNumber(a) == None && ParseNumber(b) == None && ParseNumber(c) == None
  {
    NotLiteral(a, 2);
    assert !IsDigit(b[3]);
    NotLiteral(b, 1);
    NotLiteral(c, 1);
  }

  /**
    A trimmed string that has a non-digit at `k`, and no period or a second
    non-digit elsewhere, is not a number
   */
  lemma NotLiteral(s: string, k: nat)
    requires Trimmed(s) && 0 < k < |s| - 1 && IsDigit(s[0]) && !IsDigit(s[k])
    requires s[k] == '.' ==> exists j :: k < j < |s| && !IsDigit(s[j])
    requires s[k] != '.' ==> forall j :: 0 <= j < |s| ==> s[j] != '.'
    ensures ParseNumber(s) == None
  {
    forall p | 0 <= p < |s|
      ensures !PointedAt(s, p)
    {
      NotPointedAt(s, k, p);
    }
    assert !AllDigits(s);
    assert !NumberLiteral(s);
    FloatStripTrimmed(s);
    ParseNumberSpec(s);
  }

  lemma NotPointedAt(s: string, k: nat, p: nat)
    requires 0 < k < |s| - 1 && p < |s| && !IsDigit(s[k])
    requires s[k] == '.' ==> exists j :: k < j < |s| && !IsDigit(s[j])
    requires s[k] != '.' ==> forall j :: 0 <= j < |s| ==> s[j] != '.'
    ensures !PointedAt(s, p)
  {
    if s[p] == '.' {
      if p == k {
        var j :| k < j < |s| && !IsDigit(s[j]);
        assert s[p + 1..][j - p - 1] == s[j];
      } else if p < k {
        assert s[p + 1..][k - p - 1] == s[k];
      } else {
        assert s[..p][k] == s[k];
      }
    }
  }

  /** A trimmed string that starts with a letter is not a number */
  lemma ParseWord(s: string)
    requires |s| > 0 && Trimmed(s) && ('a' <= s[0] <= 'z' || 'A' <= s[0] <= 'Z')
    ensures ParseNumber(s) == None
  {
    FloatStripTrimmed(s);
    assert SkipWhile(s, 0, Digit) == 0;
  }

  /** Text answers compare without regard to case */
  lemma VerifyTextExample(a: string, g: string)
    requires a == "Six" && g == "six"
    ensures Verify(Some(a), g)
  {
    ParseWord(a);
    ParseWord(g);
    assert SameText(a, g) by {
      assert Lower(a) == g && Lower(g) == g;
      StripTrimmed(g);
    }
  }

  /** A number against a spelled-out ground truth falls to the text comparison and fails */
  lemma VerifyMixedExample(a: string, g: string)
    requires a == "70" && g == "seventy"
    ensures !Verify(Some(a), g)
  {
    ParseWord(g);
    assert Lower(a) == a;
    assert Lower(g) == g;
    StripTrimmed(a);
    StripTrimmed(g);
  }

  /** The bank's two ids: each finds its own entry, and an unknown id finds nothing */
  lemma GetProblemExample(bank: seq<Problem>, first: string, second: string)
    requires bank == [Problem("math_001", first, "70"), Problem("math_002", second, "360")]
    ensures GetProblem(bank, "math_001") == Some(bank[0])
    ensures GetProblem(bank, "math_001").value.groundTruth == "70"
    ensures GetProblem(bank, "math_002") == Some(bank[1])
    ensures GetProblem(bank, "math_003") == None
  {
    assert bank[0].id != "math_002" && bank[1].id != "math_003" && bank[0].id != "math_003";
  }

  /** With a duplicated id the earlier entry is the one found */
  lemma GetProblemFirstMatch(p: Problem, q: Problem)
    requires p.id == q.id
    ensures GetProblem([p, q], p.id) == Some(p)
  {
  }
}
