/**
  The answer parser: pulls a final answer out of a free-text completion by
  trying three regular expressions in priority order and cleaning the first
  group of the first one that matches.

  The three expressions are
    1. `The final answer is\s*:*\s*(.+)`, case-insensitive,
    2. `The answer is\s*:*\s*(.+)`, case-insensitive,
    3. `(\b\d+(?:\.\d+)?\b)\s*\w*\.?\s*$`,
  each searched for leftmost-first. Here each one is a hand-written matcher:
  `MatchAt` decides what the expression matches when the regex engine starts
  at position `i`, and `TryRule` is the engine's leftmost scan.
 */
module Parser {
  import opened Wrappers
  import opened Text

  const FinalAnswerPhrase: string := "the final answer is"
  const AnswerPhrase: string := "the answer is"

  /** One extraction rule: a marker phrase with the line its separator runs into, or a trailing number */
  datatype Rule = Phrase(phrase: string) | TrailingNumber

  /** The rules in the order the parser tries them */
  const Rules: seq<Rule> := [Phrase(FinalAnswerPhrase), Phrase(AnswerPhrase), TrailingNumber]

  /** `phrase` (written in lower case) occurs at `i`, ignoring ASCII case */
  predicate PhraseAt(t: string, i: nat, phrase: string) {
    i + |phrase| <= |t| && PhraseFrom(t, i, phrase, 0)
  }

  /** The characters of `phrase` from index `k` on match `t` from `i + k` on, ignoring ASCII case */
  predicate PhraseFrom(t: string, i: nat, phrase: string, k: nat)
    requires i + |phrase| <= |t| && k <= |phrase|
    decreases |phrase| - k
  {
    k == |phrase| || (LowerChar(t[i + k]) == phrase[k] && PhraseFrom(t, i, phrase, k + 1))
  }

  /** The end of the `\s*:*\s*` that follows a marker phrase ending at `p` */
  function SeparatorEnd(t: string, p: nat): (q: nat)
    requires p <= |t|
    ensures p <= q <= |t|
    ensures forall k :: p <= k < q ==> IsSpace(t[k]) || t[k] == ':'
  {
    SkipWhile(t, SkipWhile(t, SkipWhile(t, p, Space), Colon), Space)
  }

  /**
    The last position in `[lo, hi]` that holds a character other than a
    newline. Greedy `\s*:*\s*` followed by `(.+)` backtracks one character
    at a time from the end of the separator, so the group starts at the
    largest position that `.` can match.
   */
  function LastLineChar(t: string, lo: nat, hi: nat): (r: Option<nat>)
    requires lo <= hi <= |t|
    ensures r.Some? ==> lo <= r.value <= hi && r.value < |t| && t[r.value] != '\n'
    ensures r.Some? ==> forall k :: r.value < k <= hi && k < |t| ==> t[k] == '\n'
    ensures r.None? ==> forall k :: lo <= k <= hi && k < |t| ==> t[k] == '\n'
    decreases hi - lo
  {
    if hi < |t| && t[hi] != '\n' then Some(hi)
    else if hi == lo then None
    else LastLineChar(t, lo, hi - 1)
  }

  /** Where the group `(.+)` starts when the marker phrase ends at `p`, if it can match at all */
  function CaptureStart(t: string, p: nat): Option<nat>
    requires p <= |t|
  {
    LastLineChar(t, p, SeparatorEnd(t, p))
  }

  /** The end of the line that contains position `s`: what `.+` reaches */
  function LineEnd(t: string, s: nat): nat
    requires s <= |t|
  {
    SkipWhile(t, s, LineChar)
  }

  /** `\d+(\.\d+)?`: digits, optionally followed by a period and more digits */
  predicate IsNumeral(g: string) {
    var j := SkipWhile(g, 0, Digit);
    0 < j && (j == |g| || (j + 1 < |g| && g[j] == '.' && SkipWhile(g, j + 1, Digit) == |g|))
  }

  /** `\s*\w*\.?\s*$` matches from `e` to the end of the text */
  predicate TailAtEnd(t: string, e: nat)
    requires e <= |t|
  {
    var b := SkipWhile(t, SkipWhile(t, e, Space), Word);
    var c := if b < |t| && t[b] == '.' then b + 1 else b;
    SkipWhile(t, c, Space) == |t|
  }

  /** `\b` at position `k` just before or just after a word character */
  predicate NoWordBefore(t: string, k: nat)
    requires k <= |t|
  {
    k == 0 || !IsWordChar(t[k - 1])
  }

  predicate NoWordAfter(t: string, k: nat)
    requires k <= |t|
  {
    k == |t| || !IsWordChar(t[k])
  }

  /**
    The end of the group when the fallback expression is tried at `i`. Only
    one group is possible at each start: giving back a digit leaves a digit
    after the group and breaks `\b`, and dropping the decimal part leaves
    `.digit` that the tail cannot consume.
   */
  function NumberEnd(t: string, i: nat): (r: Option<nat>)
    requires i <= |t|
    ensures r.Some? ==> i < r.value <= |t|
  {
    if i < |t| && IsDigit(t[i]) && NoWordBefore(t, i) then
      var j := SkipWhile(t, i, Digit);
      var e := if j + 1 < |t| && t[j] == '.' && IsDigit(t[j + 1]) then SkipWhile(t, j + 1, Digit) else j;
      if NoWordAfter(t, e) && TailAtEnd(t, e) then Some(e) else None
    else None
  }

  /** The fallback group is a word-bounded numeral followed by at most one word and a period */
  lemma NumberEndShape(t: string, i: nat)
    requires i <= |t| && NumberEnd(t, i).Some?
    ensures IsNumeral(t[i..NumberEnd(t, i).value])
    ensures NoWordBefore(t, i) && NoWordAfter(t, NumberEnd(t, i).value)
    ensures TailAtEnd(t, NumberEnd(t, i).value)
  {
    var j := SkipWhile(t, i, Digit);
    var e := NumberEnd(t, i).value;
    NumeralSlice(t, i, j, e);
  }

  /** Conversely, every word-bounded numeral followed by such a tail is the fallback group at its start */
  lemma NumberEndComplete(t: string, i: nat, e: nat)
    requires i < e <= |t| && IsNumeral(t[i..e])
    requires NoWordBefore(t, i) && NoWordAfter(t, e) && TailAtEnd(t, e)
    ensures NumberEnd(t, i) == Some(e)
  {
    var g := t[i..e];
    var jg := SkipWhile(g, 0, Digit);
    var j := i + jg;
    assert forall k :: i <= k < j ==> g[k - i] == t[k];
    SkipWhileTo(t, i, j, Digit);
    if jg == |g| {
      NumberEndAt(t, i, j, e);
    } else {
      assert forall k :: j + 1 <= k < e ==> g[k - i] == t[k];
      SkipWhileTo(t, j + 1, e, Digit);
      NumberEndAt(t, i, j, e);
    }
  }

  /** The tail cannot start at a period followed by a digit */
  lemma TailRefusesDecimal(t: string, e: nat)
    requires e + 1 < |t| && t[e] == '.' && IsDigit(t[e + 1])
    ensures !TailAtEnd(t, e)
  {
    assert SkipWhile(t, e, Space) == e && SkipWhile(t, e, Word) == e;
    assert SkipWhile(t, e + 1, Space) == e + 1;
  }

  lemma NumberEndAt(t: string, i: nat, j: nat, e: nat)
    requires i < j <= e <= |t| && SkipWhile(t, i, Digit) == j
    requires NoWordBefore(t, i) && NoWordAfter(t, e) && TailAtEnd(t, e)
    requires e == j || (j + 1 < |t| && t[j] == '.' && IsDigit(t[j + 1]) && SkipWhile(t, j + 1, Digit) == e)
    ensures NumberEnd(t, i) == Some(e)
  {
    var e2 := if j + 1 < |t| && t[j] == '.' && IsDigit(t[j + 1]) then SkipWhile(t, j + 1, Digit) else j;
    assert e2 == e by {
      if e == j && j + 1 < |t| && t[j] == '.' && IsDigit(t[j + 1]) {
        TailRefusesDecimal(t, e);
      }
    }
    assert IsDigit(t[i]);
  }

  lemma NumeralSlice(t: string, i: nat, j: nat, e: nat)
    requires i < |t| && IsDigit(t[i]) && j == SkipWhile(t, i, Digit)
    requires e == j || (j + 1 < |t| && t[j] == '.' && IsDigit(t[j + 1]) && e == SkipWhile(t, j + 1, Digit))
    ensures i < e <= |t| && IsNumeral(t[i..e])
  {
    var g := t[i..e];
    SkipWhileShift(t, i, e, Digit, i);
    if e != j {
      SkipWhileShift(t, i, e, Digit, j + 1);
    }
  }

  /** Scanning a slice is scanning the text, shifted */
  lemma {:induction false} SkipWhileShift(t: string, lo: nat, hi: nat, cls: CharClass, k: nat)
    requires lo <= k <= hi <= |t|
    requires SkipWhile(t, k, cls) <= hi
    ensures SkipWhile(t[lo..hi], k - lo, cls) == SkipWhile(t, k, cls) - lo
    decreases hi - k
  {
    if k < hi && InClass(t[k], cls) {
      SkipWhileShift(t, lo, hi, cls, k + 1);
    }
  }

  /** The rest of the line from a position holding a non-newline character */
  function LineFrom(t: string, s: nat): (g: string)
    requires s < |t| && t[s] != '\n'
    ensures |g| > 0 && '\n' !in g
  {
    var e := LineEnd(t, s);
    assert forall k :: 0 <= k < e - s ==> t[s..e][k] == t[s + k];
    t[s..e]
  }

  /** What `<phrase>\s*:*\s*(.+)` captures when the engine starts at `i` */
  function PhraseMatch(t: string, ph: string, i: nat): (r: Option<string>)
    requires i <= |t|
    ensures r.Some? ==> |r.value| > 0 && '\n' !in r.value
  {
    if PhraseAt(t, i, ph) then
      match CaptureStart(t, i + |ph|)
      case Some(s) => Some(LineFrom(t, s))
      case None => None
    else None
  }

  /** What the fallback expression captures when the engine starts at `i` */
  function NumberMatch(t: string, i: nat): (r: Option<string>)
    requires i <= |t|
    ensures r.Some? ==> IsNumeral(r.value) && NoWordBefore(t, i) && i + |r.value| <= |t| && t[i..i + |r.value|] == r.value
  {
    match NumberEnd(t, i)
    case Some(e) => NumberEndShape(t, i); Some(t[i..e])
    case None => None
  }

  /** What the rule's expression captures when the engine starts at `i` */
  function MatchAt(t: string, rule: Rule, i: nat): Option<string>
    requires i <= |t|
  {
    match rule
    case Phrase(ph) => PhraseMatch(t, ph, i)
    case TrailingNumber => NumberMatch(t, i)
  }

  /** What the engine finds when it tries each start `0, 1, ..., |t|` in turn */
  function Matches(t: string, rule: Rule): (ms: seq<Option<string>>)
    ensures |ms| == |t| + 1
    ensures forall k :: 0 <= k <= |t| ==> ms[k] == MatchAt(t, rule, k)
  {
    seq(|t| + 1, k requires 0 <= k <= |t| => MatchAt(t, rule, k))
  }

  /** Every group a rule captures is a non-empty piece of one line; the fallback's is a numeral */
  lemma MatchAtShape(t: string, rule: Rule, i: nat)
    requires i <= |t| && MatchAt(t, rule, i).Some?
    ensures |MatchAt(t, rule, i).value| > 0 && '\n' !in MatchAt(t, rule, i).value
    ensures rule.TrailingNumber? ==> IsNumeral(MatchAt(t, rule, i).value)
  {
    if rule.TrailingNumber? {
      NumberEndShape(t, i);
      NumeralHasNoNewline(MatchAt(t, rule, i).value);
    }
  }

  lemma NumeralHasNoNewline(g: string)
    requires IsNumeral(g)
    ensures |g| > 0 && '\n' !in g
  {
    var j := SkipWhile(g, 0, Digit);
    if j < |g| {
      forall k | 0 <= k < |g|
        ensures g[k] != '\n'
      {
        if k > j {
          assert InClass(g[k], Digit);
        }
      }
    }
  }

  /** The first index at or after `from` that holds a value */
  function FirstSome<T>(ms: seq<Option<T>>, from: nat): (r: Option<nat>)
    requires from <= |ms|
    ensures r.Some? ==> from <= r.value < |ms| && ms[r.value].Some?
    ensures r.Some? ==> forall k :: from <= k < r.value ==> ms[k].None?
    ensures r.None? ==> forall k :: from <= k < |ms| ==> ms[k].None?
    decreases |ms| - from
  {
    if from == |ms| then None
    else if ms[from].Some? then Some(from)
    else FirstSome(ms, from + 1)
  }

  /**
    A phrase of two or more letters occurs nowhere in `[lo, hi)` when no
    position there starts with its first two letters, ignoring case.
   */
  lemma PhraseAbsent(t: string, ph: string, lo: nat, hi: nat)
    requires |ph| >= 2
    requires forall k :: lo <= k < hi && k + 1 < |t| ==> LowerChar(t[k]) != ph[0] || LowerChar(t[k + 1]) != ph[1]
    ensures forall k :: lo <= k < hi ==> !PhraseAt(t, k, ph)
  {
    forall k | lo <= k < hi && k + |ph| <= |t|
      ensures !PhraseFrom(t, k, ph, 0)
    {
      if LowerChar(t[k]) == ph[0] {
        assert !PhraseFrom(t, k, ph, 1);
      }
    }
  }

  /** The rule matches when the engine starts at `i`, and at no earlier start */
  ghost predicate LeftmostAt(t: string, rule: Rule, i: nat) {
    i <= |t| && MatchAt(t, rule, i).Some? && forall k :: 0 <= k < i ==> MatchAt(t, rule, k).None?
  }

  /** The rule matches at no start at all */
  ghost predicate NoMatch(t: string, rule: Rule) {
    forall k :: 0 <= k <= |t| ==> MatchAt(t, rule, k).None?
  }

  /** `pattern.search(text)` followed by `match.group(1)`: the group of the leftmost match */
  function TryRule(rule: Rule, t: string): (r: Option<string>)
    ensures r.Some? ==> |r.value| > 0 && '\n' !in r.value
  {
    var ms := Matches(t, rule);
    match FirstSome(ms, 0)
    case Some(i) => MatchAtShape(t, rule, i); ms[i]
    case None => None
  }

  /** The search finds nothing exactly when no start matches, and otherwise returns the leftmost match */
  lemma TryRuleSearch(rule: Rule, t: string)
    ensures TryRule(rule, t).None? <==> NoMatch(t, rule)
    ensures TryRule(rule, t).Some? ==> exists i :: LeftmostAt(t, rule, i) && TryRule(rule, t) == MatchAt(t, rule, i)
  {
    var ms := Matches(t, rule);
    var f := FirstSome(ms, 0);
    if f.Some? {
      assert ms[f.value] == MatchAt(t, rule, f.value);
      assert LeftmostAt(t, rule, f.value);
    }
  }

  /** The group of the first rule in `rules` that matches */
  function FirstMatch(rules: seq<Rule>, t: string): (r: Option<string>)
    ensures r.Some? ==> '\n' !in r.value
    decreases |rules|
  {
    if |rules| == 0 then None
    else match TryRule(rules[0], t)
      case Some(g) => Some(g)
      case None => FirstMatch(rules[1..], t)
  }

  predicate EndsWithPeriod(s: string) {
    |s| > 0 && s[|s| - 1] == '.'
  }

  /** `\s*\.?\s*` matches all of `w` */
  predicate PeriodTail(w: string) {
    AllSpaces(w) || exists k :: 0 <= k < |w| && w[k] == '.' && AllSpaces(w[..k]) && AllSpaces(w[k + 1..])
  }

  /**
    `r` is `g[a..b]`, with only white space in front of it and only
    `\s*\.?\s*` behind it, and a closing period is left behind only
    when a period was dropped.
   */
  ghost predicate CleanedAt(g: string, r: string, a: nat, b: nat) {
    && a <= b <= |g| && r == g[a..b]
    && AllSpaces(g[..a]) && PeriodTail(g[b..])
    && (AllSpaces(g[b..]) ==> !EndsWithPeriod(r))
  }

  /**
    Trim, drop one trailing period, trim again. What is removed is white
    space in front and `\s*\.?\s*` behind, and the period goes whenever
    the trimmed group ends with one.
   */
  function Clean(g: string): (r: string)
    ensures Trimmed(r)
    ensures exists a, b :: CleanedAt(g, r, a, b)
  {
    var a := Strip(g);
    if EndsWithPeriod(a) then
      var r := Strip(a[..|a| - 1]);
      CleanPeriod(g, a, r);
      r
    else
      CleanNoPeriod(g, a);
      a
  }

  lemma CleanNoPeriod(g: string, a: string)
    requires a == Strip(g) && !EndsWithPeriod(a)
    ensures Strip(a) == a
    ensures exists x, y :: CleanedAt(g, a, x, y)
  {
    var p, q :| 0 <= p <= q <= |g| && a == g[p..q] && AllSpaces(g[..p]) && AllSpaces(g[q..]);
    StripTrimmed(a);
    assert PeriodTail(g[q..]);
    assert CleanedAt(g, a, p, q);
  }

  lemma CleanPeriod(g: string, a: string, r: string)
    requires a == Strip(g) && EndsWithPeriod(a) && r == Strip(a[..|a| - 1])
    ensures exists x, y :: CleanedAt(g, r, x, y)
  {
    var p, q :| 0 <= p <= q <= |g| && a == g[p..q] && AllSpaces(g[..p]) && AllSpaces(g[q..]);
    var b := a[..|a| - 1];
    var p2, q2 :| 0 <= p2 <= q2 <= |b| && r == b[p2..q2] && AllSpaces(b[..p2]) && AllSpaces(b[q2..]);
    CleanedAround(g, p, q, a, b, p2, q2, r);
  }

  /** Where the cleaned group sits in `g` once a period has been dropped */
  lemma CleanedAround(g: string, p: nat, q: nat, a: string, b: string, p2: nat, q2: nat, r: string)
    requires p <= q <= |g| && a == g[p..q] && EndsWithPeriod(a) && b == a[..|a| - 1]
    requires AllSpaces(g[..p]) && AllSpaces(g[q..])
    requires p2 <= q2 <= |b| && r == b[p2..q2] && AllSpaces(b[..p2]) && AllSpaces(b[q2..])
    ensures CleanedAt(g, r, p + p2, p + q2)
  {
    SliceOfSlice(g, p, q, a, b, p2, q2);
    SpacesAppend(g[..p], b[..p2]);
    PeriodBetween(b[q2..], g[q..]);
  }

  /** The pieces of `g` around a sub-slice of `g[p..q]` minus its closing period */
  lemma SliceOfSlice(g: string, p: nat, q: nat, a: string, b: string, p2: nat, q2: nat)
    requires p <= q <= |g| && a == g[p..q] && EndsWithPeriod(a) && b == a[..|a| - 1]
    requires p2 <= q2 <= |b|
    ensures b[p2..q2] == g[p + p2..p + q2]
    ensures g[..p + p2] == g[..p] + b[..p2]
    ensures g[p + q2..] == b[q2..] + ['.'] + g[q..]
  {
    assert |a| == q - p;
    assert forall k :: 0 <= k < |b| ==> b[k] == g[p + k];
    assert g[..p + p2] == g[..p] + b[..p2] by {
      assert forall k :: 0 <= k < p2 ==> b[..p2][k] == g[..p + p2][p + k];
    }
    assert g[p + q2..] == b[q2..] + ['.'] + g[q..] by {
      assert g[q - 1] == '.';
      assert forall k :: p + q2 <= k < q - 1 ==> g[k] == b[k - p];
    }
  }

  /** White space, a period and white space make a tail that is not all white space */
  lemma PeriodBetween(u: string, v: string)
    requires AllSpaces(u) && AllSpaces(v)
    ensures PeriodTail(u + ['.'] + v) && !AllSpaces(u + ['.'] + v)
  {
    var w := u + ['.'] + v;
    assert w[|u|] == '.' && w[..|u|] == u && w[|u| + 1..] == v;
  }

  /** `AnswerParser.extract_answer` */
  function Extract(text: string): (r: Option<string>)
    ensures r.Some? ==> Trimmed(r.value) && '\n' !in r.value
  {
    match FirstMatch(Rules, Strip(text))
    case Some(g) => Some(Clean(g))
    case None => None
  }

  /** Surrounding white space never changes the answer: the text is stripped before matching */
  lemma ExtractIgnoresSurroundingSpace(text: string)
    ensures Extract(text) == Extract(Strip(text))
  {
    StripIdempotent(text);
  }

  /** White space added on either side of a reply does not change its answer */
  lemma ExtractSurroundedBySpace(w1: string, text: string, w2: string)
    requires AllSpaces(w1) && AllSpaces(w2)
    ensures Extract(w1 + text + w2) == Extract(text)
  {
    StripSurrounded(w1, text, w2);
    ExtractIgnoresSurroundingSpace(w1 + text + w2);
    ExtractIgnoresSurroundingSpace(text);
  }

  /** A rule's result is the group of its leftmost match */
  lemma TryRuleLeftmost(t: string, rule: Rule, i: nat)
    requires LeftmostAt(t, rule, i)
    ensures TryRule(rule, t) == MatchAt(t, rule, i)
  {
    var ms := Matches(t, rule);
    assert ms[i] == MatchAt(t, rule, i);
    var f := FirstSome(ms, 0);
    assert ms[f.value] == MatchAt(t, rule, f.value);
    assert f.value == i;
  }

  /** The first rule of `rules` that matches decides the result */
  lemma {:induction false} FirstMatchPicks(rules: seq<Rule>, t: string, n: nat)
    requires n < |rules|
    requires forall m :: 0 <= m < n ==> NoMatch(t, rules[m])
    requires !NoMatch(t, rules[n])
    ensures FirstMatch(rules, t) == TryRule(rules[n], t)
    decreases n
  {
    if n > 0 {
      assert NoMatch(t, rules[0]);
      TryRuleSearch(rules[0], t);
      FirstMatchPicks(rules[1..], t, n - 1);
    }
  }

  /** No rule of `rules` matching is the only way to get nothing */
  lemma {:induction false} FirstMatchNone(rules: seq<Rule>, t: string)
    ensures FirstMatch(rules, t).None? <==> forall m :: 0 <= m < |rules| ==> NoMatch(t, rules[m])
    decreases |rules|
  {
    if |rules| > 0 {
      TryRuleSearch(rules[0], t);
      FirstMatchNone(rules[1..], t);
      assert forall m :: 1 <= m < |rules| ==> rules[m] == rules[1..][m - 1];
    }
  }

  /**
    Rule priority: when the rules before rule `n` match nowhere in the
    stripped text and rule `n` first matches at `i`, the answer is the
    cleaned group of that match.
   */
  lemma ExtractUsesFirstMatchingRule(text: string, n: nat, i: nat)
    requires n < |Rules|
    requires forall m :: 0 <= m < n ==> NoMatch(Strip(text), Rules[m])
    requires LeftmostAt(Strip(text), Rules[n], i)
    ensures Extract(text) == Some(Clean(MatchAt(Strip(text), Rules[n], i).value))
  {
    var t := Strip(text);
    FirstMatchPicks(Rules, t, n);
    TryRuleLeftmost(t, Rules[n], i);
  }

  /** The parser answers `None` exactly when none of the three rules matches */
  lemma ExtractNoneIff(text: string)
    ensures Extract(text).None? <==> forall m :: 0 <= m < |Rules| ==> NoMatch(Strip(text), Rules[m])
  {
    FirstMatchNone(Rules, Strip(text));
  }

  /**
    On stripped text a marker phrase captures something exactly when it does
    not end the text: the last character is never white space, so `(.+)` can
    always start at or before it.
   */
  lemma CaptureOnTrimmed(t: string, p: nat)
    requires Trimmed(t) && p <= |t|
    ensures CaptureStart(t, p).Some? <==> p < |t|
  {
    if p < |t| {
      var q := SeparatorEnd(t, p);
      var w := if q < |t| then q else |t| - 1;
      assert p <= w <= q && t[w] != '\n';
    }
  }

  /** A phrase rule matches at `i` of stripped text exactly when the phrase sits at `i` and does not end the text */
  lemma PhraseMatchOnTrimmed(t: string, ph: string, i: nat)
    requires Trimmed(t) && i <= |t|
    ensures PhraseMatch(t, ph, i).Some? <==> PhraseAt(t, i, ph) && i + |ph| < |t|
  {
    if PhraseAt(t, i, ph) {
      CaptureOnTrimmed(t, i + |ph|);
    }
  }

  /**
    The final-answer rule wins whatever comes before it: if the first
    occurrence of "the final answer is", in any case, is not at the very end
    of the stripped text, the answer is the cleaned rest of the line on
    which the phrase's `\s*:*\s*` separator ends; the separator may run
    over line breaks.
   */
  lemma FinalAnswerWins(text: string, i: nat)
    requires PhraseAt(Strip(text), i, FinalAnswerPhrase)
    requires i + |FinalAnswerPhrase| < |Strip(text)|
    requires forall k :: 0 <= k < i ==> !PhraseAt(Strip(text), k, FinalAnswerPhrase)
    ensures CaptureStart(Strip(text), i + |FinalAnswerPhrase|).Some?
    ensures Extract(text) ==
      Some(Clean(LineFrom(Strip(text), CaptureStart(Strip(text), i + |FinalAnswerPhrase|).value)))
  {
    var t := Strip(text);
    assert Rules[0] == Phrase(FinalAnswerPhrase);
    PhraseLeftmost(t, FinalAnswerPhrase, i);
    ExtractUsesFirstMatchingRule(text, 0, i);
  }

  /**
    The answer-phrase rule applies only when the final-answer rule matches
    nowhere; then its first occurrence decides the answer the same way.
   */
  lemma AnswerPhraseWins(text: string, i: nat)
    requires NoMatch(Strip(text), Rules[0])
    requires PhraseAt(Strip(text), i, AnswerPhrase)
    requires i + |AnswerPhrase| < |Strip(text)|
    requires forall k :: 0 <= k < i ==> !PhraseAt(Strip(text), k, AnswerPhrase)
    ensures CaptureStart(Strip(text), i + |AnswerPhrase|).Some?
    ensures Extract(text) ==
      Some(Clean(LineFrom(Strip(text), CaptureStart(Strip(text), i + |AnswerPhrase|).value)))
  {
    var t := Strip(text);
    assert Rules[1] == Phrase(AnswerPhrase);
    PhraseLeftmost(t, AnswerPhrase, i);
    assert MatchAt(t, Rules[1], i).value == LineFrom(t, CaptureStart(t, i + |AnswerPhrase|).value);
    forall m | 0 <= m < 1
      ensures NoMatch(t, Rules[m])
    {
      assert m == 0;
    }
    ExtractUsesFirstMatchingRule(text, 1, i);
  }

  /** On stripped text a phrase rule first matches where its phrase first occurs, unless that ends the text */
  lemma PhraseLeftmost(t: string, ph: string, i: nat)
    requires Trimmed(t)
    requires PhraseAt(t, i, ph) && i + |ph| < |t|
    requires forall k :: 0 <= k < i ==> !PhraseAt(t, k, ph)
    ensures CaptureStart(t, i + |ph|).Some?
    ensures LeftmostAt(t, Phrase(ph), i)
    ensures MatchAt(t, Phrase(ph), i) == Some(LineFrom(t, CaptureStart(t, i + |ph|).value))
  {
    CaptureOnTrimmed(t, i + |ph|);
    forall k | 0 <= k < i
      ensures MatchAt(t, Phrase(ph), k).None?
    {
    }
  }

  /**
    The final-answer rule on text that is already stripped, with the start
    of the group and the cleaned answer named.
   */
  lemma FinalAnswerIs(text: string, i: nat, s: nat, a: string)
    requires Strip(text) == text
    requires PhraseAt(text, i, FinalAnswerPhrase)
    requires forall k :: 0 <= k < i ==> !PhraseAt(text, k, FinalAnswerPhrase)
    requires CaptureStart(text, i + |FinalAnswerPhrase|) == Some(s)
    requires s < |text| && text[s] != '\n' && Clean(LineFrom(text, s)) == a
    ensures Extract(text) == Some(a)
  {
    FinalAnswerWins(text, i);
  }

  /** The answer-phrase rule on text that is already stripped, in the same form */
  lemma AnswerIs(text: string, i: nat, s: nat, a: string)
    requires Strip(text) == text
    requires NoMatch(text, Rules[0])
    requires PhraseAt(text, i, AnswerPhrase)
    requires forall k :: 0 <= k < i ==> !PhraseAt(text, k, AnswerPhrase)
    requires CaptureStart(text, i + |AnswerPhrase|) == Some(s)
    requires s < |text| && text[s] != '\n' && Clean(LineFrom(text, s)) == a
    ensures Extract(text) == Some(a)
  {
    AnswerPhraseWins(text, i);
  }

  /**
    Cleaning a group that has no surrounding white space removes one
    closing period, and only when what is left has none either; without a
    closing period the group is kept as it is.
   */
  lemma CleanTrimmed(g: string)
    requires Trimmed(g)
    ensures |g| > 0 && g[|g| - 1] == '.' && Trimmed(g[..|g| - 1]) ==> Clean(g) == g[..|g| - 1]
    ensures |g| == 0 || g[|g| - 1] != '.' ==> Clean(g) == g
  {
    StripTrimmed(g);
    if |g| > 0 && g[|g| - 1] == '.' && Trimmed(g[..|g| - 1]) {
      StripTrimmed(g[..|g| - 1]);
    }
  }

  /** Cleaning leaves a numeral as it is */
  lemma CleanNumeral(g: string)
    requires IsNumeral(g)
    ensures Clean(g) == g
  {
    var j := SkipWhile(g, 0, Digit);
    assert IsDigit(g[0]);
    assert IsDigit(g[|g| - 1]) by {
      if j < |g| {
        assert InClass(g[|g| - 1], Digit);
      }
    }
    StripTrimmed(g);
  }

  /**
    The fallback rule: when neither marker phrase matches, the answer is the
    leftmost word-bounded numeral that only a word, a period and white space
    follow, returned verbatim.
   */
  lemma TrailingNumberWins(text: string, i: nat)
    requires NoMatch(Strip(text), Rules[0]) && NoMatch(Strip(text), Rules[1])
    requires i <= |Strip(text)| && NumberEnd(Strip(text), i).Some?
    requires forall k :: 0 <= k < i ==> NumberEnd(Strip(text), k).None?
    ensures Extract(text) == Some(Strip(text)[i..NumberEnd(Strip(text), i).value])
    ensures IsNumeral(Extract(text).value)
  {
    var t := Strip(text);
    var e := NumberEnd(t, i).value;
    TrailingNumberGroup(text, i);
    NumberEndShape(t, i);
    CleanNumeral(t[i..e]);
  }

  /** The fallback rule's group, before cleaning, when neither phrase matches */
  lemma TrailingNumberGroup(text: string, i: nat)
    requires NoMatch(Strip(text), Rules[0]) && NoMatch(Strip(text), Rules[1])
    requires i <= |Strip(text)| && NumberEnd(Strip(text), i).Some?
    requires forall k :: 0 <= k < i ==> NumberEnd(Strip(text), k).None?
    ensures Extract(text) == Some(Clean(Strip(text)[i..NumberEnd(Strip(text), i).value]))
  {
    var t := Strip(text);
    assert Rules[2] == TrailingNumber;
    NumberLeftmost(t, i);
    forall m | 0 <= m < 2
      ensures NoMatch(t, Rules[m])
    {
      if m == 1 {
      } else {
        assert m == 0;
      }
    }
    ExtractUsesFirstMatchingRule(text, 2, i);
  }

  /** The fallback rule first matches at the first start from which a numeral reaches the tail */
  lemma NumberLeftmost(t: string, i: nat)
    requires i <= |t| && NumberEnd(t, i).Some?
    requires forall k :: 0 <= k < i ==> NumberEnd(t, k).None?
    ensures LeftmostAt(t, TrailingNumber, i)
    ensures MatchAt(t, TrailingNumber, i) == Some(t[i..NumberEnd(t, i).value])
  {
    forall k | 0 <= k < i
      ensures MatchAt(t, TrailingNumber, k).None?
    {
    }
  }

  /** The fallback rule on text that is already stripped, with the end of the numeral named */
  lemma NumberAnswer(text: string, i: nat, e: nat)
    requires Strip(text) == text
    requires NoMatch(text, Rules[0]) && NoMatch(text, Rules[1])
    requires i <= |text| && NumberEnd(text, i) == Some(e)
    requires forall k :: 0 <= k < i ==> NumberEnd(text, k).None?
    ensures Extract(text) == Some(text[i..e])
  {
    TrailingNumberWins(text, i);
  }

  /** No rule matching the stripped text gives no answer */
  lemma NoAnswer(text: string)
    requires Strip(text) == text
    requires NoMatch(text, Rules[0]) && NoMatch(text, Rules[1]) && NoMatch(text, Rules[2])
    ensures Extract(text) == None
  {
    ExtractNoneIff(text);
  }
}
