/** Character classes and string predicates shared by the title cleaners, the URL
    rules and the season parser. Strings are sequences of Unicode scalar values,
    as Python's `str` is. */
module Text {

  /** The CJK Unified Ideographs block U+4E00..U+9FFF, written CJK in the comments below. */
  predicate IsCjk(c: char) {
    '\U{4E00}' <= c <= '\U{9FFF}'
  }

  /** The class `[a-zA-Z0-9]`. */
  predicate IsAsciiAlnum(c: char) {
    ('a' <= c <= 'z') || ('A' <= c <= 'Z') || ('0' <= c <= '9')
  }

  /** Python's `\s` on `str` patterns: the characters for which `str.isspace()` holds. */
  predicate IsSpace(c: char) {
    ('\t' <= c <= '\r')                       // \t \n \v \f \r
    || ('\U{1C}' <= c <= '\U{1F}')           // file, group, record and unit separators
    || c == ' ' || c == '\U{85}' || c == '\U{A0}' || c == '\U{1680}'
    || ('\U{2000}' <= c <= '\U{200A}')
    || c == '\U{2028}' || c == '\U{2029}' || c == '\U{202F}' || c == '\U{205F}'
    || c == '\U{3000}'
  }

  predicate IsDigit(c: char) {
    '0' <= c <= '9'
  }

  /** `s` holds no CJK character. */
  predicate NoCjk(s: string) {
    forall k :: 0 <= k < |s| ==> !IsCjk(s[k])
  }

  /** A non-empty run of `[a-zA-Z0-9]`. */
  predicate IsAlnumWord(w: string) {
    |w| > 0 && forall k :: 0 <= k < |w| ==> IsAsciiAlnum(w[k])
  }

  /** The set of characters occurring in `s`. */
  function Chars(s: string): set<char> {
    set c | c in s
  }

  lemma CharsConcat(a: string, b: string)
    ensures Chars(a + b) == Chars(a) + Chars(b)
  {
  }

  /** The characters of a slice are characters of any enclosing slice. */
  lemma CharsWithin(s: string, i: nat, a: nat, b: nat, j: nat)
    requires i <= a <= b <= j <= |s|
    ensures Chars(s[a..b]) <= Chars(s[i..j])
  {
    forall c | c in Chars(s[a..b]) ensures c in Chars(s[i..j]) {
      var k :| 0 <= k < b - a && s[a..b][k] == c;
      assert s[i..j][a - i + k] == c;
    }
  }

  /** Regrouping a slice that is prepended one character at a time. */
  lemma PrependSlice(s: string, i: nat, j: nat, rest: string)
    requires i < j <= |s|
    ensures [s[i]] + (s[i + 1..j] + rest) == s[i..j] + rest
  {
    assert s[i..j] == [s[i]] + s[i + 1..j];
  }

  /** `pat` occurs in `s` starting at index `i`. */
  predicate StartsAt(s: string, pat: string, i: nat) {
    i + |pat| <= |s| && s[i..i + |pat|] == pat
  }

  /** Python's `pat in s`. */
  predicate Occurs(s: string, pat: string) {
    exists i: nat :: i <= |s| && StartsAt(s, pat, i)
  }

  /** Python's `s.endswith(suffix)`. */
  predicate EndsWith(s: string, suffix: string) {
    |suffix| <= |s| && s[|s| - |suffix|..] == suffix
  }

  lemma {:induction false} EndsWithAppend(prefix: string, suffix: string)
    ensures EndsWith(prefix + suffix, suffix)
  {
    assert (prefix + suffix)[|prefix|..] == suffix;
  }

  /** A pattern whose first character is missing from `s` occurs nowhere in `s`. */
  lemma {:induction false} NoOccurrenceWithoutFirstChar(s: string, pat: string)
    requires |pat| > 0 && pat[0] !in s
    ensures !Occurs(s, pat)
  {
    forall i: nat | i <= |s|
      ensures !StartsAt(s, pat, i)
    {
      if i + |pat| <= |s| {
        assert s[i..i + |pat|][0] == s[i];
      }
    }
  }
}
