/**
  The reductions of `Database.get_transactions` and `Database.get_statistics`
  in `src/utils/database.py`, over the store as an in-memory sequence of
  records in insertion order. Python dictionaries keep insertion order, and
  that order is visible to the bot's top-five list, so every dictionary is an
  association list: a sequence of (key, value) pairs.
*/
module Database {
  import opened Wrappers
  import opened Transactions

  // ---------------------------------------------------------------- the query

  /** The filters of the query: one chat, and inclusive bounds when given. */
  predicate InWindow(t: Transaction, chatId: int, start: Option<int>, end: Option<int>) {
    && t.chatId == chatId
    && (start.Some? ==> start.value <= t.timestamp)
    && (end.Some? ==> t.timestamp <= end.value)
  }

  /** `get_transactions`: the stored records in the window, in the store's order. */
  function GetTransactions(store: seq<Transaction>, chatId: int, start: Option<int>, end: Option<int>)
    : (r: seq<Transaction>)
    ensures |r| <= |store|
    ensures forall i | 0 <= i < |r| :: InWindow(r[i], chatId, start, end)
  {
    if store == [] then []
    else
      var rest := GetTransactions(store[..|store| - 1], chatId, start, end);
      var last := store[|store| - 1];
      if InWindow(last, chatId, start, end) then rest + [last] else rest
  }

  /**
    The query keeps exactly the stored records in the window, each as often as
    it is stored; an absent bound does not filter.
  */
  lemma {:induction false} GetTransactionsExact(store: seq<Transaction>, chatId: int, start: Option<int>, end: Option<int>)
    ensures forall t :: multiset(GetTransactions(store, chatId, start, end))[t]
                     == if InWindow(t, chatId, start, end) then multiset(store)[t] else 0
    ensures forall t :: t in GetTransactions(store, chatId, start, end) <==> t in store && InWindow(t, chatId, start, end)
    decreases |store|
  {
    var r := GetTransactions(store, chatId, start, end);
    if store != [] {
      var init := store[..|store| - 1];
      var last := store[|store| - 1];
      assert store == init + [last];
      GetTransactionsExact(init, chatId, start, end);
      assert multiset(store) == multiset(init) + multiset{last};
    }
    forall t ensures t in r <==> t in store && InWindow(t, chatId, start, end) {
      assert t in r <==> multiset(r)[t] > 0;
      assert t in store <==> multiset(store)[t] > 0;
    }
  }

  lemma GetTransactionsSnoc(ts: seq<Transaction>, t: Transaction, chatId: int, start: Option<int>, end: Option<int>)
    ensures GetTransactions(ts + [t], chatId, start, end)
         == GetTransactions(ts, chatId, start, end) + (if InWindow(t, chatId, start, end) then [t] else [])
  {
    assert (ts + [t])[..|ts|] == ts;
  }

  /** The query distributes over the store: records stay in insertion order. */
  lemma {:induction false} GetTransactionsAppend(a: seq<Transaction>, b: seq<Transaction>,
                                                 chatId: int, start: Option<int>, end: Option<int>)
    ensures GetTransactions(a + b, chatId, start, end)
         == GetTransactions(a, chatId, start, end) + GetTransactions(b, chatId, start, end)
    decreases |b|
  {
    if b == [] {
      assert a + b == a;
    } else {
      var init := b[..|b| - 1];
      var last := b[|b| - 1];
      var tail := if InWindow(last, chatId, start, end) then [last] else [];
      assert b == init + [last];
      calc {
        GetTransactions(a + b, chatId, start, end);
        { assert a + b == (a + init) + [last]; }
        GetTransactions((a + init) + [last], chatId, start, end);
        { GetTransactionsSnoc(a + init, last, chatId, start, end); }
        GetTransactions(a + init, chatId, start, end) + tail;
        { GetTransactionsAppend(a, init, chatId, start, end); }
        GetTransactions(a, chatId, start, end) + GetTransactions(init, chatId, start, end) + tail;
        { GetTransactionsSnoc(init, last, chatId, start, end); }
        GetTransactions(a, chatId, start, end) + GetTransactions(b, chatId, start, end);
      }
    }
  }

  // ---------------------------------------------------------------- sums

  /** What one record adds to the sum over `kind` and, when given, `category`. */
  function Share(t: Transaction, kind: string, category: Option<string>): int {
    if t.kind == kind && (category.None? || t.category == category.value) then t.amount else 0
  }

  /**
    The sum of the amounts of the records of `kind` (and `category`): for
    `None` the `sum(t.amount for t in transactions if t.type == kind)` of
    the totals, for `Some(c)` the value the category map should hold.
  */
  function SumOf(ts: seq<Transaction>, kind: string, category: Option<string>): int {
    if ts == [] then 0
    else SumOf(ts[..|ts| - 1], kind, category) + Share(ts[|ts| - 1], kind, category)
  }

  lemma SumOfSnoc(ts: seq<Transaction>, t: Transaction, kind: string, category: Option<string>)
    ensures SumOf(ts + [t], kind, category) == SumOf(ts, kind, category) + Share(t, kind, category)
  {
    assert (ts + [t])[..|ts|] == ts;
  }

  /** Sums split over concatenation. */
  lemma {:induction false} SumOfAppend(a: seq<Transaction>, b: seq<Transaction>, kind: string, category: Option<string>)
    ensures SumOf(a + b, kind, category) == SumOf(a, kind, category) + SumOf(b, kind, category)
    decreases |b|
  {
    if b == [] {
      assert a + b == a;
    } else {
      var init := b[..|b| - 1];
      assert a + b == (a + init) + [b[|b| - 1]];
      SumOfSnoc(a + init, b[|b| - 1], kind, category);
      SumOfAppend(a, init, kind, category);
    }
  }

  /** Taking one record out of the middle takes its share out of the sum. */
  lemma SumOfRemove(b: seq<Transaction>, j: nat, kind: string, category: Option<string>)
    requires j < |b|
    ensures SumOf(b, kind, category) == SumOf(b[..j] + b[j + 1..], kind, category) + Share(b[j], kind, category)
  {
    assert b == (b[..j] + [b[j]]) + b[j + 1..];
    SumOfAppend(b[..j] + [b[j]], b[j + 1..], kind, category);
    SumOfAppend(b[..j], b[j + 1..], kind, category);
    SumOfSnoc(b[..j], b[j], kind, category);
  }

  lemma MultisetRemove<T>(a: seq<T>, b: seq<T>, j: nat)
    requires |a| > 0 && j < |b| && multiset(a) == multiset(b) && b[j] == a[|a| - 1]
    ensures multiset(a[..|a| - 1]) == multiset(b[..j] + b[j + 1..])
  {
    var x := b[j];
    assert a == a[..|a| - 1] + [x];
    assert b == b[..j] + [x] + b[j + 1..];
    calc {
      multiset(a[..|a| - 1]);
      multiset(a) - multiset{x};
      multiset(b) - multiset{x};
      { assert multiset(b) == multiset(b[..j]) + multiset{x} + multiset(b[j + 1..]); }
      multiset(b[..j] + b[j + 1..]);
    }
  }

  /** Sums do not depend on the order of the records. */
  lemma {:induction false} SumOfPermutation(a: seq<Transaction>, b: seq<Transaction>, kind: string, category: Option<string>)
    requires multiset(a) == multiset(b)
    ensures SumOf(a, kind, category) == SumOf(b, kind, category)
    decreases |a|
  {
    if a == [] {
      assert |b| == |multiset(b)| == 0;
    } else {
      var x := a[|a| - 1];
      assert x in multiset(b);
      var j :| 0 <= j < |b| && b[j] == x;
      MultisetRemove(a, b, j);
      SumOfPermutation(a[..|a| - 1], b[..j] + b[j + 1..], kind, category);
      SumOfRemove(b, j, kind, category);
    }
  }

  // ---------------------------------------------------------------- dictionaries

  /** An insertion-ordered dictionary with string keys. */
  type Dict<V> = seq<(string, V)>

  function Keys<V>(d: Dict<V>): (ks: seq<string>)
    ensures |ks| == |d| && forall i | 0 <= i < |d| :: ks[i] == d[i].0
  {
    seq(|d|, i requires 0 <= i < |d| => d[i].0)
  }

  lemma KeysCons<V>(x: (string, V), d: Dict<V>)
    ensures Keys([x] + d) == [x.0] + Keys(d)
  {
  }

  /** `d.get(k)`: the value stored under `k`, if any. */
  function Get<V>(d: Dict<V>, k: string): (r: Option<V>)
    ensures r.None? <==> k !in Keys(d)
  {
    if d == [] then None
    else if d[0].0 == k then Some(d[0].1)
    else
      KeysCons(d[0], d[1..]);
      assert d == [d[0]] + d[1..];
      Get(d[1..], k)
  }

  /**
    `d[k] = v`: an existing key keeps its place, a new key goes last; no other
    key's value changes.
  */
  function Put<V>(d: Dict<V>, k: string, v: V): (r: Dict<V>)
    ensures Keys(r) == if k in Keys(d) then Keys(d) else Keys(d) + [k]
    ensures Get(r, k) == Some(v)
    ensures forall k' :: k' != k ==> Get(r, k') == Get(d, k')
  {
    if d == [] then [(k, v)]
    else if d[0].0 == k then
      var r := [(k, v)] + d[1..];
      KeysCons((k, v), d[1..]);
      KeysCons(d[0], d[1..]);
      assert d == [d[0]] + d[1..];
      assert r[1..] == d[1..];
      r
    else
      var rest := Put(d[1..], k, v);
      var r := [d[0]] + rest;
      KeysCons(d[0], d[1..]);
      KeysCons(d[0], rest);
      assert d == [d[0]] + d[1..];
      assert r[1..] == rest;
      r
  }

  /** Reading a dictionary that gained a last entry. */
  lemma {:induction false} GetSnoc<V>(d: Dict<V>, x: (string, V), k: string)
    ensures Get(d + [x], k) == if k in Keys(d) then Get(d, k) else if x.0 == k then Some(x.1) else None
  {
    if d != [] {
      assert (d + [x])[1..] == d[1..] + [x];
      KeysCons(d[0], d[1..]);
      assert d == [d[0]] + d[1..];
      GetSnoc(d[1..], x, k);
    }
  }

  predicate Distinct(s: seq<string>) {
    forall i, j | 0 <= i < j < |s| :: s[i] != s[j]
  }

  /** The keys of `s` in the order in which each first occurs. */
  function FirstOccurrences(s: seq<string>): (r: seq<string>)
    ensures forall x :: x in r <==> x in s
    ensures Distinct(r)
  {
    if s == [] then []
    else
      var p := FirstOccurrences(s[..|s| - 1]);
      assert s == s[..|s| - 1] + [s[|s| - 1]];
      if s[|s| - 1] in p then p else p + [s[|s| - 1]]
  }

  lemma FirstOccurrencesSnoc(s: seq<string>, x: string)
    ensures FirstOccurrences(s + [x]) == if x in s then FirstOccurrences(s) else FirstOccurrences(s) + [x]
  {
    assert (s + [x])[..|s|] == s;
  }

  /** Later records never reorder the keys already present; new keys go last. */
  lemma {:induction false} FirstOccurrencesPrefix(s: seq<string>, u: seq<string>)
    ensures FirstOccurrences(s) <= FirstOccurrences(s + u)
    decreases |u|
  {
    if u != [] {
      var init := u[..|u| - 1];
      assert s + u == (s + init) + [u[|u| - 1]];
      FirstOccurrencesSnoc(s + init, u[|u| - 1]);
      FirstOccurrencesPrefix(s, init);
      var f0, f1, f2 := FirstOccurrences(s), FirstOccurrences(s + init), FirstOccurrences(s + u);
      assert |f0| <= |f1| <= |f2|;
      assert forall n | 0 <= n < |f0| :: f0[n] == f1[n] == f2[n];
      assert f0 == f2[..|f0|];
    } else {
      assert s + u == s;
    }
  }

  // ---------------------------------------------------------------- the category map

  /** `categories[type]`: category to sum. */
  type Breakdown = Dict<int>
  /** `categories`: type to breakdown. */
  type CategoryMap = Dict<Breakdown>

  /** The `type` of each record, in order. */
  function Kinds(ts: seq<Transaction>): (r: seq<string>)
    ensures forall x :: x in r <==> exists i | 0 <= i < |ts| :: ts[i].kind == x
  {
    if ts == [] then []
    else
      assert ts == ts[..|ts| - 1] + [ts[|ts| - 1]];
      Kinds(ts[..|ts| - 1]) + [ts[|ts| - 1].kind]
  }

  /** The category of each record of `kind`, in order. */
  function CategoryNames(ts: seq<Transaction>, kind: string): (r: seq<string>)
    ensures forall c :: c in r <==> exists i | 0 <= i < |ts| :: ts[i].kind == kind && ts[i].category == c
  {
    if ts == [] then []
    else
      var t := ts[|ts| - 1];
      assert ts == ts[..|ts| - 1] + [t];
      CategoryNames(ts[..|ts| - 1], kind) + (if t.kind == kind then [t.category] else [])
  }

  lemma KindsSnoc(ts: seq<Transaction>, t: Transaction, kind: string)
    ensures Kinds(ts + [t]) == Kinds(ts) + [t.kind]
    ensures CategoryNames(ts + [t], kind) == CategoryNames(ts, kind) + (if t.kind == kind then [t.category] else [])
  {
    assert (ts + [t])[..|ts|] == ts;
  }

  /** The breakdown of `kind`: categories in first-occurrence order, each with its sum. */
  predicate IsBreakdown(ts: seq<Transaction>, kind: string, b: Breakdown) {
    && Keys(b) == FirstOccurrences(CategoryNames(ts, kind))
    && forall c | c in Keys(b) :: Get(b, c).value == SumOf(ts, kind, Some(c))
  }

  /** The category map of `ts`: types in first-occurrence order, each with its breakdown. */
  predicate IsCategoryMap(ts: seq<Transaction>, m: CategoryMap) {
    && Keys(m) == FirstOccurrences(Kinds(ts))
    && forall k | k in Keys(m) :: IsBreakdown(ts, k, Get(m, k).value)
  }

  /** A category absent from `ts` sums to zero. */
  lemma {:induction false} SumOfAbsent(ts: seq<Transaction>, kind: string, c: string)
    requires c !in CategoryNames(ts, kind)
    ensures SumOf(ts, kind, Some(c)) == 0
    decreases |ts|
  {
    if ts != [] {
      var init := ts[..|ts| - 1];
      KindsSnoc(init, ts[|ts| - 1], kind);
      assert ts == init + [ts[|ts| - 1]];
      SumOfAbsent(init, kind, c);
    }
  }

  /** A record of another type leaves a breakdown as it is. */
  lemma BreakdownOtherKind(p: seq<Transaction>, t: Transaction, kind: string, b: Breakdown)
    requires IsBreakdown(p, kind, b) && t.kind != kind
    ensures IsBreakdown(p + [t], kind, b)
  {
    KindsSnoc(p, t, kind);
    assert CategoryNames(p + [t], kind) == CategoryNames(p, kind) + [] == CategoryNames(p, kind);
    forall c | c in Keys(b) ensures Get(b, c).value == SumOf(p + [t], kind, Some(c)) {
      SumOfSnoc(p, t, kind, Some(c));
    }
  }

  /**
    The inner step of the `categories` loop of `get_statistics`: the category
    entry created when missing, then the addition.
  */
  lemma BreakdownStep(p: seq<Transaction>, t: Transaction, b0: Breakdown, b1: Breakdown, x: int, b2: Breakdown)
    requires IsBreakdown(p, t.kind, b0)
    requires b1 == if t.category in Keys(b0) then b0 else Put(b0, t.category, 0)
    requires t.category in Keys(b1) && x == Get(b1, t.category).value + t.amount
    requires b2 == Put(b1, t.category, x)
    ensures IsBreakdown(p + [t], t.kind, b2)
  {
    BreakdownStepKeys(p, t, b0, b1, x, b2);
    BreakdownStepValues(p, t, b0, b1, x, b2);
  }

  lemma BreakdownStepKeys(p: seq<Transaction>, t: Transaction, b0: Breakdown, b1: Breakdown, x: int, b2: Breakdown)
    requires IsBreakdown(p, t.kind, b0)
    requires b1 == if t.category in Keys(b0) then b0 else Put(b0, t.category, 0)
    requires t.category in Keys(b1) && x == Get(b1, t.category).value + t.amount
    requires b2 == Put(b1, t.category, x)
    ensures Keys(b2) == FirstOccurrences(CategoryNames(p + [t], t.kind))
  {
    KindsSnoc(p, t, t.kind);
    FirstOccurrencesSnoc(CategoryNames(p, t.kind), t.category);
  }

  lemma BreakdownStepValues(p: seq<Transaction>, t: Transaction, b0: Breakdown, b1: Breakdown, x: int, b2: Breakdown)
    requires IsBreakdown(p, t.kind, b0)
    requires b1 == if t.category in Keys(b0) then b0 else Put(b0, t.category, 0)
    requires t.category in Keys(b1) && x == Get(b1, t.category).value + t.amount
    requires b2 == Put(b1, t.category, x)
    ensures forall c | c in Keys(b2) :: Get(b2, c).value == SumOf(p + [t], t.kind, Some(c))
  {
    BreakdownAddedValue(p, t, b0, b1, x, b2);
    BreakdownOtherValues(p, t, b0, b1, x, b2);
  }

  lemma BreakdownAddedValue(p: seq<Transaction>, t: Transaction, b0: Breakdown, b1: Breakdown, x: int, b2: Breakdown)
    requires IsBreakdown(p, t.kind, b0)
    requires b1 == if t.category in Keys(b0) then b0 else Put(b0, t.category, 0)
    requires t.category in Keys(b1) && x == Get(b1, t.category).value + t.amount
    requires b2 == Put(b1, t.category, x)
    ensures Get(b2, t.category).value == SumOf(p + [t], t.kind, Some(t.category))
  {
    SumOfSnoc(p, t, t.kind, Some(t.category));
    if t.category !in Keys(b0) {
      KindsSnoc(p, t, t.kind);
      SumOfAbsent(p, t.kind, t.category);
    }
  }

  lemma BreakdownOtherValues(p: seq<Transaction>, t: Transaction, b0: Breakdown, b1: Breakdown, x: int, b2: Breakdown)
    requires IsBreakdown(p, t.kind, b0)
    requires b1 == if t.category in Keys(b0) then b0 else Put(b0, t.category, 0)
    requires t.category in Keys(b1) && x == Get(b1, t.category).value + t.amount
    requires b2 == Put(b1, t.category, x)
    ensures forall c | c in Keys(b2) && c != t.category :: Get(b2, c).value == SumOf(p + [t], t.kind, Some(c))
  {
    forall c | c in Keys(b2) && c != t.category ensures Get(b2, c).value == SumOf(p + [t], t.kind, Some(c)) {
      SumOfSnoc(p, t, t.kind, Some(c));
      assert Get(b2, c) == Get(b1, c) == Get(b0, c);
    }
  }

  /** A type that has no record has no categories either. */
  lemma AbsentKind(p: seq<Transaction>, kind: string)
    requires kind !in Kinds(p)
    ensures IsBreakdown(p, kind, [])
  {
    assert CategoryNames(p, kind) == [];
  }

  lemma PrefixSnoc<T>(s: seq<T>, i: nat)
    requires i < |s|
    ensures s[..i] + [s[i]] == s[..i + 1]
  {
  }

  /**
    One pass of the `categories` loop of `get_statistics`: the type entry
    created when missing, then one record added to the map.
  */
  lemma CategoryMapSnoc(p: seq<Transaction>, t: Transaction, m0: CategoryMap, m1: CategoryMap,
                        b0: Breakdown, b1: Breakdown, x: int, b2: Breakdown, m2: CategoryMap)
    requires IsCategoryMap(p, m0)
    requires m1 == if t.kind in Keys(m0) then m0 else Put(m0, t.kind, [])
    requires Get(m1, t.kind) == Some(b0)
    requires b1 == if t.category in Keys(b0) then b0 else Put(b0, t.category, 0)
    requires t.category in Keys(b1) && x == Get(b1, t.category).value + t.amount
    requires b2 == Put(b1, t.category, x)
    requires m2 == Put(m1, t.kind, b2)
    ensures IsCategoryMap(p + [t], m2)
  {
    KindsSnoc(p, t, t.kind);
    FirstOccurrencesSnoc(Kinds(p), t.kind);
    if t.kind !in Keys(m0) {
      AbsentKind(p, t.kind);
    }
    assert IsBreakdown(p, t.kind, b0);
    BreakdownStep(p, t, b0, b1, x, b2);
    forall k | k in Keys(m2) && k != t.kind
      ensures IsBreakdown(p + [t], k, Get(m2, k).value)
    {
      assert Get(m2, k) == Get(m0, k);
      BreakdownOtherKind(p, t, k, Get(m0, k).value);
    }
  }

  /**
    The `categories` loop of `get_statistics`, which fills the map record by record,
    creating each nested dictionary and each category entry when it is first
    needed.
  */
  method BuildCategories(ts: seq<Transaction>) returns (categories: CategoryMap)
    ensures IsCategoryMap(ts, categories)
  {
    categories := [];
    var i := 0;
    while i < |ts|
      invariant 0 <= i <= |ts|
      invariant IsCategoryMap(ts[..i], categories)
    {
      var t := ts[i];
      var m0 := categories;
      if t.kind !in Keys(categories) {
        categories := Put(categories, t.kind, []);
      }
      var m1 := categories;
      var b0 := Get(categories, t.kind).value;
      var b1 := b0;
      if t.category !in Keys(b1) {
        b1 := Put(b1, t.category, 0);
      }
      var x := Get(b1, t.category).value + t.amount;
      var b2 := Put(b1, t.category, x);
      categories := Put(categories, t.kind, b2);
      CategoryMapSnoc(ts[..i], t, m0, m1, b0, b1, x, b2, categories);
      PrefixSnoc(ts, i);
      i := i + 1;
    }
    assert ts[..|ts|] == ts;
  }

  // ---------------------------------------------------------------- what the map holds

  /** `categories.get(kind, {}).get(category)`. */
  function Lookup(m: CategoryMap, kind: string, category: string): Option<int> {
    match Get(m, kind)
    case None => None
    case Some(b) => Get(b, category)
  }

  /** Some record of `ts` has this type and category. */
  predicate Recorded(ts: seq<Transaction>, kind: string, category: string) {
    exists i | 0 <= i < |ts| :: ts[i].kind == kind && ts[i].category == category
  }

  /**
    An entry exists exactly when a record of that type and category exists,
    and it holds their sum: there are no zero placeholders.
  */
  lemma CategoryEntry(ts: seq<Transaction>, m: CategoryMap, kind: string, category: string)
    requires IsCategoryMap(ts, m)
    ensures Lookup(m, kind, category)
         == if Recorded(ts, kind, category) then Some(SumOf(ts, kind, Some(category))) else None
  {
    if kind in Keys(m) {
      assert IsBreakdown(ts, kind, Get(m, kind).value);
    } else {
      assert kind !in Kinds(ts);
    }
  }

  /** With distinct keys, each entry is what `Get` finds under its key. */
  lemma {:induction false} GetAt<V>(d: Dict<V>, i: nat)
    requires Distinct(Keys(d)) && i < |d|
    ensures Get(d, d[i].0) == Some(d[i].1)
    decreases i
  {
    if i > 0 {
      KeysCons(d[0], d[1..]);
      assert d == [d[0]] + d[1..];
      assert d[1..][i - 1] == d[i];
      assert d[0].0 != d[i].0 by { assert Keys(d)[0] != Keys(d)[i]; }
      assert Distinct(Keys(d[1..]));
      GetAt(d[1..], i - 1);
    }
  }

  /** A dictionary is determined by its keys, in order, and its values. */
  lemma DictExtensional<V>(d: Dict<V>, e: Dict<V>)
    requires Keys(d) == Keys(e) && Distinct(Keys(d))
    requires forall k | k in Keys(d) :: Get(d, k) == Get(e, k)
    ensures d == e
  {
    forall i | 0 <= i < |d| ensures d[i] == e[i] {
      GetAt(d, i);
      GetAt(e, i);
      assert Keys(d)[i] == d[i].0 && Keys(e)[i] == e[i].0;
    }
  }

  /** There is one category map of a sequence of records: the loop's result is determined. */
  lemma CategoryMapUnique(ts: seq<Transaction>, m1: CategoryMap, m2: CategoryMap)
    requires IsCategoryMap(ts, m1) && IsCategoryMap(ts, m2)
    ensures m1 == m2
  {
    forall k | k in Keys(m1) ensures Get(m1, k) == Get(m2, k) {
      var b1, b2 := Get(m1, k).value, Get(m2, k).value;
      assert IsBreakdown(ts, k, b1) && IsBreakdown(ts, k, b2);
      DictExtensional(b1, b2);
    }
    DictExtensional(m1, m2);
  }

  // ---------------------------------------------------------------- values against totals

  /** The sum of the values of a breakdown. */
  function ValueTotal(b: Breakdown): int {
    if b == [] then 0 else ValueTotal(b[..|b| - 1]) + b[|b| - 1].1
  }

  /** The sum, over the categories `cs`, of the sums of `kind` records in each. */
  function CategoryTotal(ts: seq<Transaction>, kind: string, cs: seq<string>): int {
    if cs == [] then 0
    else CategoryTotal(ts, kind, cs[..|cs| - 1]) + SumOf(ts, kind, Some(cs[|cs| - 1]))
  }

  lemma {:induction false} ValueTotalByKeys(ts: seq<Transaction>, kind: string, b: Breakdown)
    requires Distinct(Keys(b))
    requires forall c | c in Keys(b) :: Get(b, c).value == SumOf(ts, kind, Some(c))
    ensures ValueTotal(b) == CategoryTotal(ts, kind, Keys(b))
    decreases |b|
  {
    if b != [] {
      var init, last := b[..|b| - 1], b[|b| - 1];
      assert b == init + [last];
      assert Keys(b)[..|b| - 1] == Keys(init);
      assert Keys(b)[|b| - 1] == last.0;
      assert last.0 !in Keys(init);
      forall c | c in Keys(init) ensures Get(init, c).value == SumOf(ts, kind, Some(c)) {
        GetSnoc(init, last, c);
      }
      GetSnoc(init, last, last.0);
      ValueTotalByKeys(ts, kind, init);
    }
  }

  lemma {:induction false} CategoryTotalSnoc(p: seq<Transaction>, t: Transaction, kind: string, cs: seq<string>)
    requires Distinct(cs)
    ensures CategoryTotal(p + [t], kind, cs)
         == CategoryTotal(p, kind, cs) + (if t.kind == kind && t.category in cs then t.amount else 0)
    decreases |cs|
  {
    if cs != [] {
      var init, c := cs[..|cs| - 1], cs[|cs| - 1];
      assert cs == init + [c];
      assert c !in init;
      CategoryTotalSnoc(p, t, kind, init);
      SumOfSnoc(p, t, kind, Some(c));
    }
  }

  lemma CategoryTotalNewName(ts: seq<Transaction>, kind: string, cs: seq<string>, c: string)
    ensures CategoryTotal(ts, kind, cs + [c]) == CategoryTotal(ts, kind, cs) + SumOf(ts, kind, Some(c))
  {
    assert (cs + [c])[..|cs|] == cs;
  }

  /** Summed over the categories in the map, the category sums give the type's sum. */
  lemma {:induction false} CategorySumsAddUp(ts: seq<Transaction>, kind: string)
    ensures CategoryTotal(ts, kind, FirstOccurrences(CategoryNames(ts, kind))) == SumOf(ts, kind, None)
    decreases |ts|
  {
    if ts != [] {
      var p, t := ts[..|ts| - 1], ts[|ts| - 1];
      assert ts == p + [t];
      var names := FirstOccurrences(CategoryNames(p, kind));
      KindsSnoc(p, t, kind);
      SumOfSnoc(p, t, kind, None);
      CategoryTotalSnoc(p, t, kind, names);
      CategorySumsAddUp(p, kind);
      if t.kind != kind {
        assert CategoryNames(ts, kind) == CategoryNames(p, kind) + [] == CategoryNames(p, kind);
      } else {
        FirstOccurrencesSnoc(CategoryNames(p, kind), t.category);
        if t.category !in names {
          CategoryTotalNewName(ts, kind, names, t.category);
          SumOfSnoc(p, t, kind, Some(t.category));
          SumOfAbsent(p, kind, t.category);
        }
      }
    }
  }

  /** The values of a breakdown add up to the sum of its type. */
  lemma BreakdownAddsUp(ts: seq<Transaction>, kind: string, b: Breakdown)
    requires IsBreakdown(ts, kind, b)
    ensures ValueTotal(b) == SumOf(ts, kind, None)
  {
    ValueTotalByKeys(ts, kind, b);
    CategorySumsAddUp(ts, kind);
  }

  // ---------------------------------------------------------------- get_statistics

  /** The dictionary `get_statistics` returns. */
  datatype Statistics = Statistics(totalIncome: int, totalExpense: int, balance: int, categories: CategoryMap)

  /** What the statistics of the records `ts` are. */
  predicate IsStatistics(ts: seq<Transaction>, s: Statistics) {
    && s.totalIncome == SumOf(ts, Income, None)
    && s.totalExpense == SumOf(ts, Expense, None)
    && s.balance == s.totalIncome - s.totalExpense
    && IsCategoryMap(ts, s.categories)
  }

  /** `get_statistics`: the same query as `get_transactions`, then the reductions. */
  method GetStatistics(store: seq<Transaction>, chatId: int, start: Option<int>, end: Option<int>)
    returns (s: Statistics)
    ensures IsStatistics(GetTransactions(store, chatId, start, end), s)
  {
    var transactions := GetTransactions(store, chatId, start, end);
    var totalIncome := SumOf(transactions, Income, None);
    var totalExpense := SumOf(transactions, Expense, None);
    var categories := BuildCategories(transactions);
    s := Statistics(totalIncome, totalExpense, totalIncome - totalExpense, categories);
  }

  /** The statistics of a sequence of records are determined. */
  lemma StatisticsUnique(ts: seq<Transaction>, s1: Statistics, s2: Statistics)
    requires IsStatistics(ts, s1) && IsStatistics(ts, s2)
    ensures s1 == s2
  {
    CategoryMapUnique(ts, s1.categories, s2.categories);
  }

  /** No records: zero totals, zero balance, no categories. */
  lemma EmptyStatistics(s: Statistics)
    ensures IsStatistics([], s) <==> s == Statistics(0, 0, 0, [])
  {
    if s == Statistics(0, 0, 0, []) {
      assert IsCategoryMap([], []);
    }
  }

  /**
    For "income" and "expense", the values under the type add up to its
    total; a type without records has no entry and a zero total.
  */
  lemma CategoriesAddUpToTotals(ts: seq<Transaction>, s: Statistics)
    requires IsStatistics(ts, s)
    ensures match Get(s.categories, Income)
            case Some(b) => ValueTotal(b) == s.totalIncome
            case None => s.totalIncome == 0
    ensures match Get(s.categories, Expense)
            case Some(b) => ValueTotal(b) == s.totalExpense
            case None => s.totalExpense == 0
  {
    TypeAddsUp(ts, s.categories, Income);
    TypeAddsUp(ts, s.categories, Expense);
  }

  lemma TypeAddsUp(ts: seq<Transaction>, m: CategoryMap, kind: string)
    requires IsCategoryMap(ts, m)
    ensures match Get(m, kind)
            case Some(b) => ValueTotal(b) == SumOf(ts, kind, None)
            case None => SumOf(ts, kind, None) == 0
  {
    if kind in Keys(m) {
      BreakdownAddsUp(ts, kind, Get(m, kind).value);
    } else {
      assert kind !in Kinds(ts);
      AbsentKind(ts, kind);
      BreakdownAddsUp(ts, kind, []);
    }
  }

  /** A record of any other type is listed under its type but counts in neither total. */
  lemma OtherTypesInNoTotal(ts: seq<Transaction>, t: Transaction, s: Statistics)
    requires t.kind != Income && t.kind != Expense
    requires IsStatistics(ts + [t], s)
    ensures s.totalIncome == SumOf(ts, Income, None) && s.totalExpense == SumOf(ts, Expense, None)
    ensures Lookup(s.categories, t.kind, t.category).Some?
  {
    SumOfSnoc(ts, t, Income, None);
    SumOfSnoc(ts, t, Expense, None);
    CategoryEntry(ts + [t], s.categories, t.kind, t.category);
    assert (ts + [t])[|ts|] == t;
  }

  /** Totals, balance and every category sum are independent of the records' order. */
  lemma StatisticsIgnoreOrder(a: seq<Transaction>, b: seq<Transaction>, sa: Statistics, sb: Statistics)
    requires multiset(a) == multiset(b)
    requires IsStatistics(a, sa) && IsStatistics(b, sb)
    ensures sa.totalIncome == sb.totalIncome && sa.totalExpense == sb.totalExpense && sa.balance == sb.balance
    ensures forall kind, category :: Lookup(sa.categories, kind, category) == Lookup(sb.categories, kind, category)
  {
    SumOfPermutation(a, b, Income, None);
    SumOfPermutation(a, b, Expense, None);
    forall kind, category ensures Lookup(sa.categories, kind, category) == Lookup(sb.categories, kind, category) {
      CategoryEntry(a, sa.categories, kind, category);
      CategoryEntry(b, sb.categories, kind, category);
      SumOfPermutation(a, b, kind, Some(category));
      RecordedPermutation(a, b, kind, category);
    }
  }

  lemma RecordedPermutation(a: seq<Transaction>, b: seq<Transaction>, kind: string, category: string)
    requires multiset(a) == multiset(b)
    ensures Recorded(a, kind, category) <==> Recorded(b, kind, category)
  {
    if Recorded(a, kind, category) {
      RecordedIn(a, b, kind, category);
    }
    if Recorded(b, kind, category) {
      RecordedIn(b, a, kind, category);
    }
  }

  lemma RecordedIn(a: seq<Transaction>, b: seq<Transaction>, kind: string, category: string)
    requires multiset(a) == multiset(b) && Recorded(a, kind, category)
    ensures Recorded(b, kind, category)
  {
    var i :| 0 <= i < |a| && a[i].kind == kind && a[i].category == category;
    assert a[i] in multiset(b);
    var j :| 0 <= j < |b| && b[j] == a[i];
  }

  /** A record made by a factory adds its amount to its own total and nothing to the other. */
  lemma FactoryRecordsCount(ts: seq<Transaction>, amount: int, category: string, description: string,
                            userId: int, chatId: int, now: int)
    ensures var e := CreateExpense(amount, category, description, userId, chatId, now);
            && SumOf(ts + [e], Expense, None) == SumOf(ts, Expense, None) + amount
            && SumOf(ts + [e], Income, None) == SumOf(ts, Income, None)
    ensures var i := CreateIncome(amount, category, description, userId, chatId, now);
            && SumOf(ts + [i], Income, None) == SumOf(ts, Income, None) + amount
            && SumOf(ts + [i], Expense, None) == SumOf(ts, Expense, None)
  {
    var e := CreateExpense(amount, category, description, userId, chatId, now);
    var i := CreateIncome(amount, category, description, userId, chatId, now);
    SumOfSnoc(ts, e, Expense, None);
    SumOfSnoc(ts, e, Income, None);
    SumOfSnoc(ts, i, Income, None);
    SumOfSnoc(ts, i, Expense, None);
  }
}
