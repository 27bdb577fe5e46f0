/**
  The string operations of Python's `str` that the message classifier relies on:
  `str.lower()`, `str.strip()`, the `in` substring test and the `\d` digit class.
  Digits are the ASCII digits; lower-casing covers ASCII and the Cyrillic block
  U+0400..U+042F; whitespace is the set of characters `str.isspace()` accepts.
*/
module Text {

  // ---------------------------------------------------------------- digits

  predicate IsDigit(c: char) {
    '0' <= c <= '9'
  }

  function DigitValue(c: char): (d: nat)
    requires IsDigit(c)
    ensures d <= 9
  {
    c as int - '0' as int
  }

  predicate AllDigits(t: string) {
    forall k :: 0 <= k < |t| ==> IsDigit(t[k])
  }

  // ---------------------------------------------------------------- lower()

  /** Lower-case mapping of one character (ASCII letters and the Cyrillic capitals). */
  function LowerChar(c: char): char {
    if 'A' <= c <= 'Z' then (c as int + 0x20) as char
    else if '\U{0410}' <= c <= '\U{042F}' then (c as int + 0x20) as char
    else if '\U{0400}' <= c <= '\U{040F}' then (c as int + 0x50) as char
    else c
  }

  /** `s.lower()`: maps every character on its own and keeps the length. */
  function Lower(s: string): (r: string)
    ensures |r| == |s|
    ensures forall k :: 0 <= k < |s| ==> r[k] == LowerChar(s[k])
  {
    seq(|s|, k requires 0 <= k < |s| => LowerChar(s[k]))
  }

  // ---------------------------------------------------------------- strip()

  /** The characters `str.isspace()` accepts. */
  predicate IsSpace(c: char) {
    var n := c as int;
    || 0x09 <= n <= 0x0D
    || 0x1C <= n <= 0x20
    || n == 0x85 || n == 0xA0 || n == 0x1680
    || 0x2000 <= n <= 0x200A
    || n == 0x2028 || n == 0x2029 || n == 0x202F || n == 0x205F || n == 0x3000
  }

  /** Number of whitespace characters at the start of `s`. */
  function LeadingSpaces(s: string): (n: nat)
    ensures n <= |s|
    ensures forall k :: 0 <= k < n ==> IsSpace(s[k])
    ensures n < |s| ==> !IsSpace(s[n])
  {
    if s == [] || !IsSpace(s[0]) then 0 else 1 + LeadingSpaces(s[1..])
  }

  /** Number of whitespace characters at the end of `s`. */
  function TrailingSpaces(s: string): (n: nat)
    ensures n <= |s|
    ensures forall k :: |s| - n <= k < |s| ==> IsSpace(s[k])
    ensures n < |s| ==> !IsSpace(s[|s| - 1 - n])
  {
    if s == [] || !IsSpace(s[|s| - 1]) then 0 else 1 + TrailingSpaces(s[..|s| - 1])
  }

  /** `r` is `s` with the whitespace prefix of length `i` and a whitespace suffix cut off. */
  ghost predicate StrippedAt(s: string, r: string, i: int) {
    && 0 <= i && i + |r| <= |s|
    && s[i..i + |r|] == r
    && (forall k :: 0 <= k < i ==> IsSpace(s[k]))
    && (forall k :: i + |r| <= k < |s| ==> IsSpace(s[k]))
  }

  /** `s.strip()`. */
  function Strip(s: string): (r: string)
    ensures exists i :: StrippedAt(s, r, i)
    ensures r != [] ==> !IsSpace(r[0]) && !IsSpace(r[|r| - 1])
    ensures r == [] <==> forall k :: 0 <= k < |s| ==> IsSpace(s[k])
  {
    var a := LeadingSpaces(s);
    if a == |s| then
      assert StrippedAt(s, [], 0);
      []
    else
      var b := TrailingSpaces(s);
      var r := s[a..|s| - b];
      assert StrippedAt(s, r, a);
      r
  }

  /** The postconditions of `Strip` leave no choice: whatever meets them is `Strip(s)`. */
  lemma StripUnique(s: string, r: string, i: int)
    requires StrippedAt(s, r, i)
    requires r != [] ==> !IsSpace(r[0]) && !IsSpace(r[|r| - 1])
    ensures r == Strip(s)
  {
    var t := Strip(s);
    var j :| StrippedAt(s, t, j);
    if r != [] && t != [] {
      // both start at the first non-space and end after the last non-space
      assert s[i] == r[0] && s[j] == t[0];
      assert s[i + |r| - 1] == r[|r| - 1] && s[j + |t| - 1] == t[|t| - 1];
    }
  }

  /** Stripping twice strips nothing more. */
  lemma StripIdempotent(s: string)
    ensures Strip(Strip(s)) == Strip(s)
  {
    var r := Strip(s);
    assert StrippedAt(r, r, 0);
    StripUnique(r, r, 0);
  }

  // ---------------------------------------------------------------- `kw in text`

  /** `kw` occurs in `text` starting at position `i`. */
  ghost predicate OccursAt(text: string, kw: string, i: int) {
    0 <= i && i + |kw| <= |text| && text[i..i + |kw|] == kw
  }

  /** `text[i + j ..]` starts with `kw[j..]`, compared character by character. */
  predicate MatchesFrom(text: string, kw: string, i: nat, j: nat)
    requires i + |kw| <= |text| && j <= |kw|
    decreases |kw| - j
  {
    j == |kw| || (text[i + j] == kw[j] && MatchesFrom(text, kw, i, j + 1))
  }

  lemma {:induction false} MatchesFromSlices(text: string, kw: string, i: nat, j: nat)
    requires i + |kw| <= |text| && j <= |kw|
    ensures MatchesFrom(text, kw, i, j) <==> text[i + j..i + |kw|] == kw[j..]
    decreases |kw| - j
  {
    if j < |kw| {
      MatchesFromSlices(text, kw, i, j + 1);
      assert text[i + j..i + |kw|] == [text[i + j]] + text[i + j + 1..i + |kw|];
      assert kw[j..] == [kw[j]] + kw[j + 1..];
    }
  }

  /** Scans the start positions `i, i+1, ...` for an occurrence of `kw`. */
  predicate ContainsFrom(text: string, kw: string, i: nat)
    decreases |text| - i
  {
    i + |kw| <= |text| && (MatchesFrom(text, kw, i, 0) || ContainsFrom(text, kw, i + 1))
  }

  lemma {:induction false} ContainsFromSpec(text: string, kw: string, i: nat)
    ensures ContainsFrom(text, kw, i) <==> exists p :: i <= p && OccursAt(text, kw, p)
    decreases |text| - i
  {
    if i + |kw| <= |text| {
      MatchesFromSlices(text, kw, i, 0);
      ContainsFromSpec(text, kw, i + 1);
      assert kw[0..] == kw;
      if MatchesFrom(text, kw, i, 0) {
        assert OccursAt(text, kw, i);
      }
      if p :| i <= p && OccursAt(text, kw, p) {
        if p > i {
          assert i + 1 <= p && OccursAt(text, kw, p);
        }
      }
    }
  }

  /** Python's `kw in text` on strings. */
  predicate Contains(text: string, kw: string) {
    ContainsFrom(text, kw, 0)
  }

  lemma ContainsIffOccurs(text: string, kw: string)
    ensures Contains(text, kw) <==> exists p :: OccursAt(text, kw, p)
  {
    ContainsFromSpec(text, kw, 0);
  }

  lemma ContainsAt(text: string, kw: string, p: int)
    requires OccursAt(text, kw, p)
    ensures Contains(text, kw)
  {
    ContainsIffOccurs(text, kw);
  }

  /** A keyword with a character the text lacks does not occur in it. */
  lemma MissingCharacter(text: string, kw: string, c: char)
    requires c in kw && c !in text
    ensures !Contains(text, kw)
  {
    ContainsIffOccurs(text, kw);
  }

  /** An occurrence in `a + " " + b` that covers the blank has the blank inside the keyword. */
  lemma BlankInsideOccurrence(a: string, b: string, kw: string, p: int)
    requires OccursAt(a + " " + b, kw, p) && p <= |a| < p + |kw|
    ensures ' ' in kw
  {
    assert kw[|a| - p] == (a + " " + b)[|a|];
  }

  /** An occurrence in `a + " " + b` of a keyword without a blank lies inside `a` or inside `b`. */
  lemma OccurrenceAcrossBlank(a: string, b: string, kw: string, p: int)
    requires ' ' !in kw && OccursAt(a + " " + b, kw, p)
    ensures OccursAt(a, kw, p) || OccursAt(b, kw, p - |a| - 1)
  {
    var s := a + " " + b;
    if p + |kw| <= |a| {
      assert a[p..p + |kw|] == s[p..p + |kw|];
    } else if |a| < p {
      assert s[|a| + 1..] == b;
      var q := p - |a| - 1;
      assert b[q..q + |kw|] == s[p..p + |kw|];
      assert OccursAt(b, kw, q);
    } else {
      BlankInsideOccurrence(a, b, kw, p);
    }
  }

  /**
    A keyword without a blank that is not inside `b` occurs in `a + " " + b`
    exactly when it occurs in `a`.
  */
  lemma ContainsAcrossBlank(a: string, b: string, kw: string)
    requires ' ' !in kw && !Contains(b, kw)
    ensures Contains(a + " " + b, kw) <==> Contains(a, kw)
  {
    var s := a + " " + b;
    ContainsIffOccurs(s, kw);
    ContainsIffOccurs(a, kw);
    ContainsIffOccurs(b, kw);
    if p :| OccursAt(a, kw, p) {
      assert s[p..p + |kw|] == a[p..p + |kw|];
      assert OccursAt(s, kw, p);
    }
    if p :| OccursAt(s, kw, p) {
      OccurrenceAcrossBlank(a, b, kw, p);
    }
  }
}
