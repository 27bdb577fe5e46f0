/**
  The free-text classifier of `MessageParser.parse_message`: a message such as
  "500 продукты" or "1000+ зарплата" becomes an amount, a direction
  ("income" or "expense"), a category from a fixed ordered table and a
  description. Amounts are exact counts of hundredths: the pattern admits at
  most two fractional digits, so no value is lost.
*/
module MessageParser {
  import opened Wrappers
  import opened Text
  import opened Transactions

  /** The result of a successful parse (`ParsedTransaction`). */
  datatype ParsedTransaction = ParsedTransaction(
    amount: nat,          // hundredths of the currency unit
    kind: string,         // "income" or "expense"
    category: string,
    description: string)

  /** `INCOME_KEYWORDS`: a set, so only membership matters. */
  const IncomeKeywords: set<string> := {"доход", "зарплата", "прибыль", "+"}

  /** `EXPENSE_KEYWORDS`: declared by the parser but never consulted by it. */
  const ExpenseKeywords: set<string> := {"расход", "трата", "покупка", "-"}

  /** `DEFAULT_CATEGORIES`: searched in this order, the first match wins. */
  const Categories: seq<(string, seq<string>)> := [
    ("продукты", ["еда", "продукты", "магазин"]),
    ("транспорт", ["транспорт", "такси", "метро", "автобус"]),
    ("развлечения", ["развлечения", "кино", "театр", "ресторан"]),
    ("коммунальные", ["коммунальные", "квартира", "дом"]),
    ("здоровье", ["здоровье", "медицина", "аптека"]),
    ("образование", ["образование", "курсы", "учеба"]),
    ("другое", ["другое", "прочее"])
  ]

  /** The category assigned when no keyword matches. */
  const DefaultCategory: string := "другое"

  predicate IsCategoryName(c: string) {
    exists m | 0 <= m < |Categories| :: Categories[m].0 == c
  }

  // ---------------------------------------------------------------- the amount

  /** The language of the pattern `\d+(\.\d{1,2})?`. */
  ghost predicate IsAmountToken(t: string) {
    || (|t| > 0 && AllDigits(t))
    || exists n | 1 <= n < |t| :: AllDigits(t[..n]) && t[n] == '.' && 2 <= |t| - n <= 3 && AllDigits(t[n + 1..])
  }

  /**
    `s[i..j]` is the match `re.search` reports: no match starts further left,
    and among the matches starting at `i` it is the one the greedy pattern
    takes, which for this pattern is the longest one.
  */
  ghost predicate IsFirstMatch(s: string, i: int, j: int) {
    && 0 <= i <= j <= |s|
    && IsAmountToken(s[i..j])
    && (forall i', j' :: 0 <= i' < i && i' <= j' <= |s| ==> !IsAmountToken(s[i'..j']))
    && (forall j' :: j < j' <= |s| ==> !IsAmountToken(s[i..j']))
  }

  predicate HasDigit(s: string) {
    exists k | 0 <= k < |s| :: IsDigit(s[k])
  }

  /** Index of the first digit at or after `from`, or `|s|` when there is none. */
  function FirstDigit(s: string, from: nat): (i: nat)
    requires from <= |s|
    ensures from <= i <= |s|
    ensures forall k :: from <= k < i ==> !IsDigit(s[k])
    ensures i < |s| ==> IsDigit(s[i])
    decreases |s| - from
  {
    if from == |s| || IsDigit(s[from]) then from else FirstDigit(s, from + 1)
  }

  /** End of the maximal run of digits that starts at `i`. */
  function DigitRunEnd(s: string, i: nat): (j: nat)
    requires i <= |s|
    ensures i <= j <= |s|
    ensures AllDigits(s[i..j])
    ensures j < |s| ==> !IsDigit(s[j])
    decreases |s| - i
  {
    if i == |s| || !IsDigit(s[i]) then i
    else
      var j := DigitRunEnd(s, i + 1);
      assert s[i..j] == [s[i]] + s[i + 1..j];
      j
  }

  /** End of the pattern match that starts at the digit `s[i]`. */
  function MatchEnd(s: string, i: nat): nat
    requires i < |s| && IsDigit(s[i])
  {
    var e := DigitRunEnd(s, i);
    if e + 1 < |s| && s[e] == '.' && IsDigit(s[e + 1]) then
      if e + 2 < |s| && IsDigit(s[e + 2]) then e + 3 else e + 2
    else e
  }

  /** Every match starts with a digit. */
  lemma TokenStartsWithDigit(t: string)
    requires IsAmountToken(t)
    ensures |t| > 0 && IsDigit(t[0])
  {
    if !(|t| > 0 && AllDigits(t)) {
      var n :| 1 <= n < |t| && AllDigits(t[..n]) && t[n] == '.' && 2 <= |t| - n <= 3 && AllDigits(t[n + 1..]);
      assert t[..n][0] == t[0];
    }
  }

  /** A digit run starting at `from` and stopped by a non-digit ends where `DigitRunEnd` says. */
  lemma {:induction false} DigitRunEndAt(s: string, from: nat, m: nat)
    requires from <= m <= |s| && AllDigits(s[from..m])
    requires m < |s| ==> !IsDigit(s[m])
    ensures DigitRunEnd(s, from) == m
    decreases m - from
  {
    if from < m {
      assert s[from..m][0] == s[from];
      assert s[from + 1..m] == s[from..m][1..];
      DigitRunEndAt(s, from + 1, m);
    }
  }

  /** No run of digits starting at `from` extends past `DigitRunEnd(s, from)`. */
  lemma {:induction false} DigitRunBound(s: string, from: nat, k: nat)
    requires from <= k <= |s| && AllDigits(s[from..k])
    ensures k <= DigitRunEnd(s, from)
    decreases k - from
  {
    if from < k {
      assert s[from..k][0] == s[from];
      assert s[from + 1..k] == s[from..k][1..];
      DigitRunBound(s, from + 1, k);
    }
  }

  /** A match `s[i..j]` with a fractional part `.d` or `.dd` after `n` integer digits ends by `MatchEnd(s, i)`. */
  lemma FractionEndBound(s: string, i: nat, j: nat, n: nat)
    requires i < |s| && IsDigit(s[i]) && i <= j <= |s|
    requires 1 <= n < j - i && 2 <= j - i - n <= 3
    requires AllDigits(s[i..i + n]) && s[i + n] == '.' && AllDigits(s[i + n + 1..j])
    ensures j <= MatchEnd(s, i)
  {
    DigitRunEndAt(s, i, i + n);
    var e := i + n;
    assert IsDigit(s[i + n + 1..j][0]);
    if j == e + 3 { assert IsDigit(s[i + n + 1..j][1]); }
  }

  /** Every match that starts at the digit `s[i]` ends at or before `MatchEnd(s, i)`. */
  lemma MatchEndBound(s: string, i: nat, j: nat)
    requires i < |s| && IsDigit(s[i])
    requires i <= j <= |s| && IsAmountToken(s[i..j])
    ensures j <= MatchEnd(s, i)
  {
    var t := s[i..j];
    if |t| > 0 && AllDigits(t) {
      DigitRunBound(s, i, j);
    } else {
      var n :| 1 <= n < |t| && AllDigits(t[..n]) && t[n] == '.' && 2 <= |t| - n <= 3 && AllDigits(t[n + 1..]);
      assert t[..n] == s[i..i + n];
      assert t[n + 1..] == s[i + n + 1..j];
      FractionEndBound(s, i, j, n);
    }
  }

  /** `s[i..MatchEnd(s, i)]` is a match. */
  lemma MatchEndIsToken(s: string, i: nat)
    requires i < |s| && IsDigit(s[i])
    ensures IsAmountToken(s[i..MatchEnd(s, i)])
  {
    var e := DigitRunEnd(s, i);
    var j := MatchEnd(s, i);
    var t := s[i..j];
    if j == e {
      assert t[0] == s[i];
      assert AllDigits(t) && |t| > 0;
    } else {
      assert t[..e - i] == s[i..e];
      assert t[e - i] == '.';
      assert t[e - i + 1..] == s[e + 1..j];
    }
  }

  /** `MatchEnd` ends a match, and no longer match starts at `i`. */
  lemma MatchEndIsLongest(s: string, i: nat)
    requires i < |s| && IsDigit(s[i])
    ensures IsAmountToken(s[i..MatchEnd(s, i)])
    ensures forall j' :: MatchEnd(s, i) < j' <= |s| ==> !IsAmountToken(s[i..j'])
  {
    MatchEndIsToken(s, i);
    var j := MatchEnd(s, i);
    forall j' | j < j' <= |s| && IsAmountToken(s[i..j'])
      ensures false
    {
      MatchEndBound(s, i, j');
    }
  }

  /**
    The span `re.search(r'(\d+(?:\.\d{1,2})?)', s)` matches: `None` exactly
    when the text has no digit, otherwise the leftmost-longest match.
  */
  function FindAmount(s: string): (r: Option<(nat, nat)>)
    ensures r.None? <==> !HasDigit(s)
    ensures r.Some? ==> IsFirstMatch(s, r.value.0, r.value.1)
  {
    var i := FirstDigit(s, 0);
    if i == |s| then None
    else
      var j := MatchEnd(s, i);
      MatchEndIsLongest(s, i);
      forall i', j' | 0 <= i' < i && i' <= j' <= |s|
        ensures !IsAmountToken(s[i'..j'])
      {
        if IsAmountToken(s[i'..j']) { TokenStartsWithDigit(s[i'..j']); }
      }
      Some((i, j))
  }

  /** Value of a string of decimal digits. */
  function DigitsValue(d: string): nat
    requires AllDigits(d)
  {
    if d == [] then 0 else DigitsValue(d[..|d| - 1]) * 10 + DigitValue(d[|d| - 1])
  }

  /** `float(t)` for a match `t`, in hundredths. */
  function TokenValue(t: string): nat
    requires IsAmountToken(t)
  {
    var n := DigitRunEnd(t, 0);
    assert t[0..n] == t[..n];
    if n == |t| then DigitsValue(t) * 100
    else
      TokenFraction(t);
      DigitsValue(t[..n]) * 100 + FractionValue(t[n + 1..])
  }

  /** A match that is not all digits continues its digit run with '.' and one or two digits. */
  lemma TokenFraction(t: string)
    requires IsAmountToken(t) && DigitRunEnd(t, 0) < |t|
    ensures var n := DigitRunEnd(t, 0); t[n] == '.' && 2 <= |t| - n <= 3 && AllDigits(t[n + 1..])
  {
    var m :| 1 <= m < |t| && AllDigits(t[..m]) && t[m] == '.' && 2 <= |t| - m <= 3 && AllDigits(t[m + 1..]);
    assert t[0..m] == t[..m];
    DigitRunEndAt(t, 0, m);
  }

  /** Hundredths denoted by the one or two digits after the point. */
  function FractionValue(f: string): (v: nat)
    requires 1 <= |f| <= 2 && AllDigits(f)
    ensures v < 100
  {
    if |f| == 1 then DigitValue(f[0]) * 10 else DigitValue(f[0]) * 10 + DigitValue(f[1])
  }

  /** The amount of a message, in hundredths; `None` when the text holds no number. */
  function ParseAmount(s: string): (r: Option<nat>)
    ensures r.None? <==> !HasDigit(s)
    ensures r.Some? ==> exists i, j :: IsFirstMatch(s, i, j) && r.value == TokenValue(s[i..j])
  {
    match FindAmount(s)
    case None => None
    case Some((i, j)) => Some(TokenValue(s[i..j]))
  }

  // ---------------------------------------------------------------- direction

  /** "income" when the lower-cased text contains an income keyword, else "expense". */
  function TransactionType(text: string): (r: string)
    ensures r == Income || r == Expense
    ensures r == Income <==> exists kw :: kw in IncomeKeywords && Contains(Lower(text), kw)
    ensures r == Income <==> exists kw, p :: kw in IncomeKeywords && OccursAt(Lower(text), kw, p)
  {
    var l := Lower(text);
    ContainsIffOccurs(l, "доход");
    ContainsIffOccurs(l, "зарплата");
    ContainsIffOccurs(l, "прибыль");
    ContainsIffOccurs(l, "+");
    if exists kw | kw in IncomeKeywords :: Contains(l, kw) then Income else Expense
  }

  // ---------------------------------------------------------------- category

  /** Some keyword of the list occurs in the lower-cased text. */
  predicate MatchesAny(lowered: string, keywords: seq<string>) {
    exists kw | kw in keywords :: Contains(lowered, kw)
  }

  /** First table position at or after `from` whose keywords match. */
  function FirstMatchingEntry(lowered: string, from: nat): (r: Option<nat>)
    requires from <= |Categories|
    ensures r.Some? ==> from <= r.value < |Categories| && MatchesAny(lowered, Categories[r.value].1)
    ensures r.Some? ==> forall m :: from <= m < r.value ==> !MatchesAny(lowered, Categories[m].1)
    ensures r.None? ==> forall m :: from <= m < |Categories| ==> !MatchesAny(lowered, Categories[m].1)
    decreases |Categories| - from
  {
    if from == |Categories| then None
    else if MatchesAny(lowered, Categories[from].1) then Some(from)
    else FirstMatchingEntry(lowered, from + 1)
  }

  /** The category chosen by the first-match loop over `DEFAULT_CATEGORIES`. */
  function Category(text: string): (c: string)
    ensures IsCategoryName(c)
    ensures (exists m :: 0 <= m < |Categories| && c == Categories[m].0
                && MatchesAny(Lower(text), Categories[m].1)
                && forall m' :: 0 <= m' < m ==> !MatchesAny(Lower(text), Categories[m'].1))
         || (c == DefaultCategory && forall m :: 0 <= m < |Categories| ==> !MatchesAny(Lower(text), Categories[m].1))
  {
    match FirstMatchingEntry(Lower(text), 0)
    case Some(m) => Categories[m].0
    case None => assert Categories[6].0 == DefaultCategory; DefaultCategory
  }

  // ---------------------------------------------------------------- parse_message

  /** `MessageParser.parse_message`. */
  function ParseMessage(text: string): (r: Option<ParsedTransaction>)
    ensures r.None? <==> !HasDigit(text)
    ensures r.Some? ==> ParseAmount(text) == Some(r.value.amount)
    ensures r.Some? ==> r.value.kind == TransactionType(text)
    ensures r.Some? ==> r.value.category == Category(text)
    ensures r.Some? ==> r.value.description == Strip(text)
  {
    match ParseAmount(text)
    case None => None
    case Some(amount) => Some(ParsedTransaction(amount, TransactionType(text), Category(text), Strip(text)))
  }

  // ---------------------------------------------------------------- properties

  /** Position of the first digit, characterised. */
  lemma {:induction false} FirstDigitAt(s: string, from: nat, i: nat)
    requires from <= i < |s| && IsDigit(s[i])
    requires forall k :: from <= k < i ==> !IsDigit(s[k])
    ensures FirstDigit(s, from) == i
    decreases i - from
  {
    if from < i {
      FirstDigitAt(s, from + 1, i);
    }
  }

  /** Hundredths contributed by what follows the integer digits ending at `e`. */
  function FractionAfter(s: string, e: nat): (v: nat)
    ensures v < 100
  {
    if e + 1 < |s| && s[e] == '.' && IsDigit(s[e + 1]) then
      DigitValue(s[e + 1]) * 10 + (if e + 2 < |s| && IsDigit(s[e + 2]) then DigitValue(s[e + 2]) else 0)
    else 0
  }

  /** A match of digits only is worth its digits, in whole units. */
  lemma TokenValueWhole(t: string)
    requires IsAmountToken(t) && DigitRunEnd(t, 0) == |t|
    ensures TokenValue(t) == DigitsValue(t) * 100
  {
  }

  /** A match with a point is worth its integer digits plus its fraction. */
  lemma TokenValueFraction(t: string, n: nat)
    requires IsAmountToken(t) && DigitRunEnd(t, 0) == n < |t|
    requires 2 <= |t| - n <= 3 && AllDigits(t[n + 1..])
    ensures TokenValue(t) == DigitsValue(t[..n]) * 100 + FractionValue(t[n + 1..])
  {
  }

  /** The fraction of the match `s[i..j]` whose integer digits end at `e`, read off `s` directly. */
  lemma FractionOfMatch(s: string, i: nat, e: nat, j: nat)
    requires i < |s| && IsDigit(s[i]) && DigitRunEnd(s, i) == e && j == MatchEnd(s, i)
    ensures j == e ==> FractionAfter(s, e) == 0
    ensures j > e ==> 2 <= j - e <= 3 && AllDigits(s[e + 1..j]) && FractionValue(s[e + 1..j]) == FractionAfter(s, e)
  {
    if e + 1 < |s| && s[e] == '.' && IsDigit(s[e + 1]) {
      var d := s[e + 1..j];
      if e + 2 < |s| && IsDigit(s[e + 2]) {
        assert j == e + 3 && d == [s[e + 1], s[e + 2]];
      } else {
        assert j == e + 2 && d == [s[e + 1]];
      }
    } else {
      assert j == e;
    }
  }

  /** The value of the match that starts with the digit run `s[i..i + n]`. */
  lemma MatchValue(s: string, i: nat, n: nat)
    requires 1 <= n && i + n <= |s| && AllDigits(s[i..i + n])
    requires i + n < |s| ==> !IsDigit(s[i + n])
    ensures IsDigit(s[i])
    ensures IsAmountToken(s[i..MatchEnd(s, i)])
    ensures TokenValue(s[i..MatchEnd(s, i)]) == DigitsValue(s[i..i + n]) * 100 + FractionAfter(s, i + n)
  {
    var e := i + n;
    assert IsDigit(s[i..e][0]);
    DigitRunEndAt(s, i, e);
    var j := MatchEnd(s, i);
    MatchEndIsToken(s, i);
    var t := s[i..j];
    assert t[0..n] == s[i..e];
    DigitRunEndAt(t, 0, n);
    assert t[..n] == s[i..e];
    FractionOfMatch(s, i, e, j);
    if j > e {
      assert t[n + 1..] == s[e + 1..j];
      TokenValueFraction(t, n);
    } else {
      assert t == s[i..e];
      TokenValueWhole(t);
    }
  }

  /** The match starts at the first digit, so its value is the amount. */
  lemma ParseAmountAt(s: string, i: nat, v: nat)
    requires i < |s| && IsDigit(s[i])
    requires forall k :: 0 <= k < i ==> !IsDigit(s[k])
    requires i <= MatchEnd(s, i) <= |s| && IsAmountToken(s[i..MatchEnd(s, i)])
    requires TokenValue(s[i..MatchEnd(s, i)]) == v
    ensures ParseAmount(s) == Some(v)
  {
    FirstDigitAt(s, 0, i);
    assert FindAmount(s) == Some((i, MatchEnd(s, i)));
  }

  /**
    The amount, stated without the pattern: the first maximal run of digits
    `s[i..i + n]`, plus one or two fractional digits when a '.' and a digit
    follow it; in hundredths. A '-' before the run is ignored, later numbers
    too.
  */
  lemma AmountIsFirstDigitRun(s: string, i: nat, n: nat)
    requires 1 <= n && i + n <= |s| && AllDigits(s[i..i + n])
    requires forall k :: 0 <= k < i ==> !IsDigit(s[k])
    requires i + n < |s| ==> !IsDigit(s[i + n])
    ensures ParseAmount(s).Some?
    ensures ParseAmount(s).value == DigitsValue(s[i..i + n]) * 100 + FractionAfter(s, i + n)
  {
    var v := DigitsValue(s[i..i + n]) * 100 + FractionAfter(s, i + n);
    assert ParseAmount(s) == Some(v) by {
      MatchValue(s, i, n);
      ParseAmountAt(s, i, v);
    }
  }

  /** The leftmost-longest match is unique. */
  lemma FirstMatchUnique(s: string, i: int, j: int, i': int, j': int)
    requires IsFirstMatch(s, i, j) && IsFirstMatch(s, i', j')
    ensures i == i' && j == j'
  {
  }

  /** A match consists of digits and at most one '.'. */
  lemma TokenCharacters(t: string)
    requires IsAmountToken(t)
    ensures forall k :: 0 <= k < |t| ==> IsDigit(t[k]) || t[k] == '.'
  {
    if !(|t| > 0 && AllDigits(t)) {
      var n :| 1 <= n < |t| && AllDigits(t[..n]) && t[n] == '.' && 2 <= |t| - n <= 3 && AllDigits(t[n + 1..]);
      forall k | 0 <= k < |t| ensures IsDigit(t[k]) || t[k] == '.' {
        if k < n { assert t[..n][k] == t[k]; }
        if n < k { assert t[n + 1..][k - n - 1] == t[k]; }
      }
    }
  }

  /** No match contains whitespace. */
  lemma BlankEndsToken(t: string, k: int)
    requires 0 <= k < |t| && IsSpace(t[k])
    ensures !IsAmountToken(t)
  {
    if IsAmountToken(t) {
      TokenCharacters(t);
    }
  }

  /**
    Only the first number counts: once a text that holds a number ends in
    whitespace, whatever is appended to it leaves the amount unchanged.
  */
  lemma LaterNumbersIgnored(s: string, u: string)
    requires HasDigit(s) && IsSpace(s[|s| - 1])
    ensures ParseAmount(s + u) == ParseAmount(s)
  {
    var su := s + u;
    var (i, j) := FindAmount(s).value;
    assert su[i..j] == s[i..j];
    forall i', j' | 0 <= i' < i && i' <= j' <= |su|
      ensures !IsAmountToken(su[i'..j'])
    {
      assert !IsAmountToken(s[i'..i' + 1]);
      if IsAmountToken(su[i'..j']) {
        TokenStartsWithDigit(su[i'..j']);
      }
    }
    forall j' | j < j' <= |su|
      ensures !IsAmountToken(su[i..j'])
    {
      if j' <= |s| {
        assert su[i..j'] == s[i..j'];
      } else {
        assert su[i..j'][|s| - 1 - i] == s[|s| - 1];
        BlankEndsToken(su[i..j'], |s| - 1 - i);
      }
    }
    assert IsFirstMatch(su, i, j);
    TokenStartsWithDigit(s[i..j]);
    assert IsDigit(su[i]) by { assert su[i] == s[i..j][0]; }
    var (i', j') := FindAmount(su).value;
    FirstMatchUnique(su, i, j, i', j');
  }

  /**
    Direction and category are decided independently: appending a word that
    holds no category keyword keeps the category.
  */
  lemma CategoryIgnoresAppendedWord(text: string, w: string)
    requires forall m, kw :: 0 <= m < |Categories| && kw in Categories[m].1 ==> !Contains(Lower(w), kw)
    ensures Category(text + " " + w) == Category(text)
  {
    var l := Lower(text);
    var l' := Lower(text + " " + w);
    assert l' == l + " " + Lower(w);
    forall m | 0 <= m < |Categories|
      ensures MatchesAny(l', Categories[m].1) == MatchesAny(l, Categories[m].1)
    {
      forall kw | kw in Categories[m].1
        ensures Contains(l', kw) == Contains(l, kw)
      {
        KeywordsHaveNoBlank(m, kw);
        ContainsAcrossBlank(l, Lower(w), kw);
      }
    }
    FirstMatchingEntryByMatches(l, l', 0);
  }

  lemma KeywordsHaveNoBlank(m: int, kw: string)
    requires 0 <= m < |Categories| && kw in Categories[m].1
    ensures ' ' !in kw
  {
  }

  /** The first-match search only looks at which entries match. */
  lemma {:induction false} FirstMatchingEntryByMatches(l: string, l': string, from: nat)
    requires from <= |Categories|
    requires forall m :: from <= m < |Categories| ==> MatchesAny(l', Categories[m].1) == MatchesAny(l, Categories[m].1)
    ensures FirstMatchingEntry(l', from) == FirstMatchingEntry(l, from)
    decreases |Categories| - from
  {
    if from < |Categories| {
      FirstMatchingEntryByMatches(l, l', from + 1);
    }
  }

  /** No income keyword holds a category keyword. */
  lemma IncomeKeywordsHoldNoCategoryKeyword(w: string)
    requires w in IncomeKeywords
    ensures forall m, kw :: 0 <= m < |Categories| && kw in Categories[m].1 ==> !Contains(Lower(w), kw)
  {
    assert Lower(w) == w;
    if w == "доход" {
      NoCategoryKeywordInIncomeWord();
    } else if w == "зарплата" {
      NoCategoryKeywordInSalaryWordFirst();
      NoCategoryKeywordInSalaryWordLast();
    } else if w == "прибыль" {
      NoCategoryKeywordInProfitWordFirst();
      NoCategoryKeywordInProfitWordLast();
    }
  }

  // The two longer keywords are checked against the table in two halves, one lemma each,
  // so that each proof evaluates only a few keyword scans.

  /** "доход" ("income") matches no category. */
  lemma NoCategoryKeywordInIncomeWord()
    ensures forall m :: 0 <= m < |Categories| ==> !MatchesAny("доход", Categories[m].1)
  {
    assert !MatchesAny("доход", Categories[0].1) && !MatchesAny("доход", Categories[1].1);
    assert !MatchesAny("доход", Categories[2].1) && !MatchesAny("доход", Categories[3].1);
    assert !MatchesAny("доход", Categories[4].1) && !MatchesAny("доход", Categories[5].1);
    assert !MatchesAny("доход", Categories[6].1);
  }

  /** "зарплата" ("salary") matches none of the first four categories. */
  lemma NoCategoryKeywordInSalaryWordFirst()
    ensures forall m :: 0 <= m < 4 ==> !MatchesAny("зарплата", Categories[m].1)
  {
    assert !MatchesAny("зарплата", Categories[0].1) && !MatchesAny("зарплата", Categories[1].1);
    assert !MatchesAny("зарплата", Categories[2].1) && !MatchesAny("зарплата", Categories[3].1);
  }

  /** "зарплата" ("salary") matches none of the last three categories. */
  lemma NoCategoryKeywordInSalaryWordLast()
    ensures forall m :: 4 <= m < |Categories| ==> !MatchesAny("зарплата", Categories[m].1)
  {
    assert !MatchesAny("зарплата", Categories[4].1) && !MatchesAny("зарплата", Categories[5].1);
    assert !MatchesAny("зарплата", Categories[6].1);
  }

  /** "прибыль" ("profit") matches none of the first four categories. */
  lemma NoCategoryKeywordInProfitWordFirst()
    ensures forall m :: 0 <= m < 4 ==> !MatchesAny("прибыль", Categories[m].1)
  {
    assert !MatchesAny("прибыль", Categories[0].1) && !MatchesAny("прибыль", Categories[1].1);
    assert !MatchesAny("прибыль", Categories[2].1) && !MatchesAny("прибыль", Categories[3].1);
  }

  /** "прибыль" ("profit") matches none of the last three categories. */
  lemma NoCategoryKeywordInProfitWordLast()
    ensures forall m :: 4 <= m < |Categories| ==> !MatchesAny("прибыль", Categories[m].1)
  {
    assert !MatchesAny("прибыль", Categories[4].1) && !MatchesAny("прибыль", Categories[5].1);
    assert !MatchesAny("прибыль", Categories[6].1);
  }

  /** Appending an income keyword makes the message income and keeps its category. */
  lemma IncomeKeywordKeepsCategory(text: string, w: string)
    requires w in IncomeKeywords
    ensures TransactionType(text + " " + w) == Income
    ensures Category(text + " " + w) == Category(text)
  {
    IncomeKeywordsHoldNoCategoryKeyword(w);
    CategoryIgnoresAppendedWord(text, w);
    IncomeKeywordAnywhereIsIncome(text + " ", w, "");
    assert text + " " + w + "" == text + " " + w;
  }

  /** A text holding an income keyword anywhere, even inside a word, is income. */
  lemma IncomeKeywordAnywhereIsIncome(a: string, w: string, b: string)
    requires w in IncomeKeywords
    ensures TransactionType(a + w + b) == Income
  {
    var l := Lower(a + w + b);
    assert l == Lower(a) + Lower(w) + Lower(b);
    assert Lower(w) == w;
    assert l[|a|..|a| + |w|] == w;
    ContainsAt(l, w, |a|);
  }

  // ---------------------------------------------------------------- examples

  // A message of several words is passed in as its words (`a + " " + b`), so
  // that the lemmas about a text followed by a blank and a word apply to it
  // and the solver never has to take a long literal apart.

  /** "10.999" reads as 10.99: at most two fractional digits are taken. */
  lemma ExampleThreeDecimals(s: string)
    requires s == "10.999"
    ensures ParseAmount(s) == Some(1099)
  {
    assert s[0..2] == "10";
    assert DigitsValue("10") == 10 by { assert "10"[..1] == "1" && "1"[..0] == ""; }
    assert FractionAfter(s, 2) == 99;
    AmountIsFirstDigitRun(s, 0, 2);
  }

  /** "1.2.3" reads as 1.2: the match stops before the second point. */
  lemma ExampleTwoPoints(s: string)
    requires s == "1.2.3"
    ensures ParseAmount(s) == Some(120)
  {
    assert s[0..1] == "1";
    assert DigitsValue("1") == 1 by { assert "1"[..0] == ""; }
    assert FractionAfter(s, 1) == 20;
    AmountIsFirstDigitRun(s, 0, 1);
  }

  /** "12." reads as 12: a point without a digit after it is not taken. */
  lemma ExampleTrailingPoint(s: string)
    requires s == "12."
    ensures ParseAmount(s) == Some(1200)
  {
    assert s[0..2] == "12";
    assert DigitsValue("12") == 12 by { assert "12"[..1] == "1" && "1"[..0] == ""; }
    assert FractionAfter(s, 2) == 0;
    AmountIsFirstDigitRun(s, 0, 2);
  }

  /** "-5" reads as 5: a minus sign never negates. */
  lemma ExampleMinusSign(s: string)
    requires s == "-5"
    ensures ParseAmount(s) == Some(500)
  {
    assert s[1..2] == "5";
    assert DigitsValue("5") == 5 by { assert "5"[..0] == ""; }
    assert FractionAfter(s, 2) == 0;
    AmountIsFirstDigitRun(s, 1, 1);
  }

  /** "0 " reads as 0. */
  lemma ZeroPrefixAmount(a: string)
    requires a == "0"
    ensures ParseAmount(a + " ") == Some(0)
  {
    var p := a + " ";
    assert p[0..1] == a;
    AmountIsFirstDigitRun(p, 0, 1);
    assert "0"[..0] == "";
  }

  /** "0 продукты" is accepted with amount zero. */
  lemma ExampleZero(a: string, b: string)
    requires a == "0" && b == "продукты"
    ensures ParseAmount(a + " " + b) == Some(0)
  {
    ZeroPrefixAmount(a);
    LaterNumbersIgnored(a + " ", b);
  }

  /** A text without digits is rejected. */
  lemma ExampleNoNumber(s: string)
    requires s == "no numbers here"
    ensures ParseMessage(s) == None
  {
    assert forall k | 0 <= k < |s| :: !IsDigit(s[k]);
  }

  /** "ресторан дом" matches two entries; the earlier one wins. */
  lemma ExampleFirstMatchWins(a: string, b: string)
    requires a == "ресторан" && b == "дом"
    ensures Category(a + " " + b) == "развлечения"
  {
    var s := a + " " + b;
    assert Lower(s) == s;
    forall m, kw | 0 <= m < 2 && kw in Categories[m].1
      ensures !Contains(s, kw)
    {
      KeywordsHaveNoBlank(m, kw);
      ContainsAcrossBlank(a, b, kw);
    }
    assert !MatchesAny(s, Categories[0].1) && !MatchesAny(s, Categories[1].1);
    ContainsAt(s, "ресторан", 0);
    assert MatchesAny(s, Categories[2].1);
  }

  /** "500 " reads as 500. */
  lemma GroceriesPrefixAmount(a: string)
    requires a == "500"
    ensures ParseAmount(a + " ") == Some(50000)
  {
    var p := a + " ";
    assert p[0..3] == a;
    AmountIsFirstDigitRun(p, 0, 3);
    assert "500"[..2] == "50" && "50"[..1] == "5" && "5"[..0] == "";
  }

  /** The three decisions for "500 продукты", one question each. */
  lemma GroceriesAmount(a: string, b: string)
    requires a == "500" && b == "продукты"
    ensures ParseAmount(a + " " + b) == Some(50000)
  {
    GroceriesPrefixAmount(a);
    LaterNumbersIgnored(a + " ", b);
  }

  lemma GroceriesType(a: string, b: string)
    requires a == "500" && b == "продукты"
    ensures TransactionType(a + " " + b) == Expense
  {
    var s := a + " " + b;
    assert Lower(s) == s;
    MissingCharacter(s, "доход", 'х');
    MissingCharacter(s, "зарплата", 'з');
    MissingCharacter(s, "прибыль", 'и');
    MissingCharacter(s, "+", '+');
  }

  lemma GroceriesCategory(a: string, b: string)
    requires a == "500" && b == "продукты"
    ensures Category(a + " " + b) == "продукты"
  {
    var s := a + " " + b;
    assert Lower(s) == s;
    assert s[4..12] == b;
    ContainsAt(s, "продукты", 4);
    assert MatchesAny(s, Categories[0].1);
  }

  /** "500 продукты" is a grocery expense of 500. */
  lemma ExampleGroceries(a: string, b: string)
    requires a == "500" && b == "продукты"
    ensures ParseMessage(a + " " + b) == Some(ParsedTransaction(50000, Expense, "продукты", a + " " + b))
  {
    GroceriesAmount(a, b);
    GroceriesType(a, b);
    GroceriesCategory(a, b);
    StripUnique(a + " " + b, a + " " + b, 0);
  }

  /** "1000+ " reads as 1000: the plus sign ends the number. */
  lemma SalaryPrefixAmount(a: string)
    requires a == "1000+"
    ensures ParseAmount(a + " ") == Some(100000)
  {
    var p := a + " ";
    assert p[0..4] == "1000";
    AmountIsFirstDigitRun(p, 0, 4);
    assert "1000"[..3] == "100" && "100"[..2] == "10" && "10"[..1] == "1" && "1"[..0] == "";
  }

  /** The decisions for "1000+ зарплата". */
  lemma SalaryAmount(a: string, b: string)
    requires a == "1000+" && b == "зарплата"
    ensures ParseAmount(a + " " + b) == Some(100000)
  {
    SalaryPrefixAmount(a);
    LaterNumbersIgnored(a + " ", b);
  }

  lemma SalaryTypeAndCategory(a: string, b: string)
    requires a == "1000+" && b == "зарплата"
    ensures TransactionType(a + " " + b) == Income && Category(a + " " + b) == DefaultCategory
  {
    assert Lower("1000+") == "1000+";
    assert forall m :: 0 <= m < |Categories| ==> !MatchesAny("1000+", Categories[m].1);
    IncomeKeywordKeepsCategory(a, b);
  }

  /** "1000+ зарплата" is an income of 1000 in the default category. */
  lemma ExampleSalary(a: string, b: string)
    requires a == "1000+" && b == "зарплата"
    ensures ParseMessage(a + " " + b) == Some(ParsedTransaction(100000, Income, DefaultCategory, a + " " + b))
  {
    SalaryAmount(a, b);
    SalaryTypeAndCategory(a, b);
    StripUnique(a + " " + b, a + " " + b, 0);
  }
}
