/**
  Character classes and the string helpers the parser and the verifier share:
  Python's `str.strip()`, `str.lower()` restricted to ASCII, and the regular
  expression classes `\s`, `\d`, `\w` and `.`.
 */
module Text {

  /** Python's `str.isspace()`, which is also what `\s` matches in a `str` pattern. */
  predicate IsSpace(c: char) {
    || c == ' '
    || ('\t' <= c <= '\r')
    || ('\U{1c}' <= c <= '\U{1f}')
    || c == '\U{85}' || c == '\U{a0}' || c == '\U{1680}'
    || ('\U{2000}' <= c <= '\U{200a}')
    || c == '\U{2028}' || c == '\U{2029}' || c == '\U{202f}' || c == '\U{205f}' || c == '\U{3000}'
  }

  /** `\d`, ASCII digits only */
  predicate IsDigit(c: char) {
    '0' <= c <= '9'
  }

  /** `\w`, ASCII letters, digits and underscore */
  predicate IsWordChar(c: char) {
    ('a' <= c <= 'z') || ('A' <= c <= 'Z') || IsDigit(c) || c == '_'
  }

  /**
    White space as `float()` sees it: every `str.isspace` character except
    the separators U+001C to U+001F. Below U+007F `float()` strips only the
    C library's white space, and every wider white space character is read
    as a plain space first.
   */
  predicate IsFloatSpace(c: char) {
    IsSpace(c) && !('\U{1c}' <= c <= '\U{1f}')
  }

  /**
    The classes a scanner can skip over. `LineChar` is what `.` matches:
    anything but a newline.
   */
  datatype CharClass = Space | FloatSpace | Colon | Digit | Word | LineChar

  predicate InClass(c: char, cls: CharClass) {
    match cls
    case Space => IsSpace(c)
    case FloatSpace => IsFloatSpace(c)
    case Colon => c == ':'
    case Digit => IsDigit(c)
    case Word => IsWordChar(c)
    case LineChar => c != '\n'
  }

  /** The end of the longest run of `cls` characters starting at `i` (a greedy `[cls]*`). */
  function SkipWhile(t: string, i: nat, cls: CharClass): (j: nat)
    requires i <= |t|
    ensures i <= j <= |t|
    ensures forall k :: i <= k < j ==> InClass(t[k], cls)
    ensures j == |t| || !InClass(t[j], cls)
    decreases |t| - i
  {
    if i < |t| && InClass(t[i], cls) then SkipWhile(t, i + 1, cls) else i
  }

  /** A run of `cls` characters that stops at `e` is what the scan from `i` skips */
  lemma {:induction false} SkipWhileTo(t: string, i: nat, e: nat, cls: CharClass)
    requires i <= e <= |t|
    requires forall k :: i <= k < e ==> InClass(t[k], cls)
    requires e == |t| || !InClass(t[e], cls)
    ensures SkipWhile(t, i, cls) == e
    decreases e - i
  {
    if i < e {
      SkipWhileTo(t, i + 1, e, cls);
    }
  }

  predicate AllSpaces(s: string) {
    forall k :: 0 <= k < |s| ==> IsSpace(s[k])
  }

  /** A string `strip()` leaves unchanged: no white space at either end */
  predicate Trimmed(s: string) {
    |s| == 0 || (!IsSpace(s[0]) && !IsSpace(s[|s| - 1]))
  }

  /** The end of `s[lo..hi]` once a trailing run of `cls` characters is dropped */
  function TrimEnd(s: string, lo: nat, hi: nat, cls: CharClass): (j: nat)
    requires lo <= hi <= |s|
    ensures lo <= j <= hi
    ensures forall k :: j <= k < hi ==> InClass(s[k], cls)
    ensures j == lo || !InClass(s[j - 1], cls)
    decreases hi - lo
  {
    if lo < hi && InClass(s[hi - 1], cls) then TrimEnd(s, lo, hi - 1, cls) else hi
  }

  /** Python's `str.strip()` with no argument */
  function Strip(s: string): (r: string)
    ensures Trimmed(r)
    ensures exists a, b :: 0 <= a <= b <= |s| && r == s[a..b] && AllSpaces(s[..a]) && AllSpaces(s[b..])
  {
    var a := SkipWhile(s, 0, Space);
    var b := TrimEnd(s, a, |s|, Space);
    assert AllSpaces(s[..a]) && AllSpaces(s[b..]);
    s[a..b]
  }

  /**
    The characterisation that makes `Strip` unique: removing an all-space
    prefix and suffix so that what is left is trimmed is stripping.
   */
  lemma StripUnique(s: string, a: nat, b: nat)
    requires a <= b <= |s| && AllSpaces(s[..a]) && AllSpaces(s[b..]) && Trimmed(s[a..b])
    ensures Strip(s) == s[a..b]
  {
    if a < b {
      SkipSpaces(s, 0, a);
      TrimSpaces(s, a, b, |s|);
    } else {
      assert AllSpaces(s) by {
        forall k | 0 <= k < |s|
          ensures IsSpace(s[k])
        {
          if k < a {
            assert s[..a][k] == s[k];
          } else {
            assert s[b..][k - b] == s[k];
          }
        }
      }
      SkipSpaces(s, 0, |s|);
    }
  }

  lemma {:induction false} SkipSpaces(s: string, i: nat, a: nat)
    requires i <= a <= |s| && (a == |s| || !IsSpace(s[a]))
    requires forall k :: i <= k < a ==> IsSpace(s[k])
    ensures SkipWhile(s, i, Space) == a
    decreases a - i
  {
    if i < a {
      SkipSpaces(s, i + 1, a);
    }
  }

  lemma {:induction false} TrimSpaces(s: string, lo: nat, b: nat, hi: nat)
    requires lo < b <= hi <= |s| && !IsSpace(s[b - 1])
    requires forall k :: b <= k < hi ==> IsSpace(s[k])
    ensures TrimEnd(s, lo, hi, Space) == b
    decreases hi - b
  {
    if b < hi {
      TrimSpaces(s, lo, b, hi - 1);
    }
  }

  /** `strip()` leaves a string without surrounding white space as it is */
  lemma StripTrimmed(s: string)
    requires Trimmed(s)
    ensures Strip(s) == s
  {
    if |s| > 0 {
      assert SkipWhile(s, 0, Space) == 0;
      assert TrimEnd(s, 0, |s|, Space) == |s|;
    }
  }

  lemma StripIdempotent(s: string)
    ensures Strip(Strip(s)) == Strip(s)
  {
    StripTrimmed(Strip(s));
  }

  /** White space added around a string is exactly what `strip()` takes away */
  lemma StripSurrounded(w1: string, s: string, w2: string)
    requires AllSpaces(w1) && AllSpaces(w2)
    ensures Strip(w1 + s + w2) == Strip(s)
  {
    var r := Strip(s);
    var a, b :| 0 <= a <= b <= |s| && r == s[a..b] && AllSpaces(s[..a]) && AllSpaces(s[b..]);
    StripSurroundedAt(w1, s, w2, a, b);
  }

  lemma StripSurroundedAt(w1: string, s: string, w2: string, a: nat, b: nat)
    requires a <= b <= |s| && Trimmed(s[a..b])
    requires AllSpaces(w1) && AllSpaces(s[..a]) && AllSpaces(s[b..]) && AllSpaces(w2)
    ensures Strip(w1 + s + w2) == s[a..b]
  {
    SurroundedSlices(w1, s, w2, a, b);
    SpacesAppend(w1, s[..a]);
    SpacesAppend(s[b..], w2);
    StripUnique(w1 + s + w2, |w1| + a, |w1| + b);
  }

  /** The slices of `w1 + s + w2` that line up with slices of `s` */
  lemma SurroundedSlices(w1: string, s: string, w2: string, a: nat, b: nat)
    requires a <= b <= |s|
    ensures (w1 + s + w2)[|w1| + a..|w1| + b] == s[a..b]
    ensures (w1 + s + w2)[..|w1| + a] == w1 + s[..a]
    ensures (w1 + s + w2)[|w1| + b..] == s[b..] + w2
  {
    var t := w1 + s + w2;
    assert forall k :: 0 <= k < b - a ==> s[a..b][k] == t[|w1| + a + k];
  }

  lemma SpacesAppend(u: string, v: string)
    requires AllSpaces(u) && AllSpaces(v)
    ensures AllSpaces(u + v)
  {
  }

  /** `str.lower()` on one character, ASCII letters only */
  function LowerChar(c: char): (r: char)
    ensures 'A' <= c <= 'Z' ==> 'a' <= r <= 'z' && r as int - c as int == 'a' as int - 'A' as int
    ensures !('A' <= c <= 'Z') ==> r == c
  {
    if 'A' <= c <= 'Z' then (c as int - 'A' as int + 'a' as int) as char else c
  }

  /** `str.lower()`, ASCII letters only */
  function Lower(s: string): (r: string)
    ensures |r| == |s|
    ensures forall k :: 0 <= k < |s| ==> r[k] == LowerChar(s[k])
  {
    seq(|s|, k requires 0 <= k < |s| => LowerChar(s[k]))
  }
}
