/**
  The two pieces of decision logic in the bot's handlers (`src/main.py`):
  the top-five expense categories listed by `/stats`, and the record that
  `handle_message` stores for a text message. Telegram I/O and the reply
  texts are not modelled.
*/
module Bot {
  import opened Wrappers
  import opened Transactions
  import opened MessageParser
  import opened Database

  // ---------------------------------------------------------------- /stats: top five expense categories

  /** An item of `categories['expense'].items()`: a category and its sum. */
  type Item = (string, int)

  /** How many categories `/stats` lists at most. */
  const TopCount: nat := 5

  predicate NonIncreasing(s: seq<Item>) {
    forall i, j | 0 <= i < j < |s| :: s[i].1 >= s[j].1
  }

  /** The items of `s` with amount `v`, in their order in `s`. */
  function WithAmount(s: seq<Item>, v: int): seq<Item> {
    if s == [] then []
    else (if s[0].1 == v then [s[0]] else []) + WithAmount(s[1..], v)
  }

  /** Places `x` after every item whose amount is at least `x`'s. */
  function Insert(s: seq<Item>, x: Item): seq<Item> {
    if s == [] then [x]
    else if s[0].1 < x.1 then [x] + s
    else [s[0]] + Insert(s[1..], x)
  }

  /** Inserting adds `x` and loses nothing. */
  lemma {:induction false} InsertPermutes(s: seq<Item>, x: Item)
    ensures multiset(Insert(s, x)) == multiset(s) + multiset{x}
    decreases |s|
  {
    if s != [] && s[0].1 >= x.1 {
      InsertPermutes(s[1..], x);
      assert s == [s[0]] + s[1..];
    }
  }

  lemma {:induction false} InsertNonIncreasing(s: seq<Item>, x: Item)
    requires NonIncreasing(s)
    ensures NonIncreasing(Insert(s, x))
    decreases |s|
  {
    if s != [] && s[0].1 >= x.1 {
      var rest := Insert(s[1..], x);
      InsertNonIncreasing(s[1..], x);
      InsertPermutes(s[1..], x);
      forall j | 0 <= j < |rest| ensures rest[j].1 <= s[0].1 {
        assert rest[j] in multiset(rest);
        if rest[j] != x {
          assert rest[j] in multiset(s[1..]);
          var k :| 0 <= k < |s[1..]| && s[1..][k] == rest[j];
          assert s[k + 1] == rest[j];
        }
      }
      assert Insert(s, x) == [s[0]] + rest;
    }
  }

  /**
    `sorted(items, key=lambda x: x[1], reverse=True)`: the items by amount,
    largest first. Python's sort is stable even when reversed, so items with
    equal amounts keep their order; each item is inserted after its equals.
  */
  function SortByAmountDescending(s: seq<Item>): (r: seq<Item>)
    ensures NonIncreasing(r)
    ensures multiset(r) == multiset(s)
  {
    if s == [] then []
    else
      assert s == s[..|s| - 1] + [s[|s| - 1]];
      InsertNonIncreasing(SortByAmountDescending(s[..|s| - 1]), s[|s| - 1]);
      InsertPermutes(SortByAmountDescending(s[..|s| - 1]), s[|s| - 1]);
      Insert(SortByAmountDescending(s[..|s| - 1]), s[|s| - 1])
  }

  lemma {:induction false} WithAmountNone(s: seq<Item>, v: int)
    requires forall i | 0 <= i < |s| :: s[i].1 != v
    ensures WithAmount(s, v) == []
    decreases |s|
  {
    if s != [] {
      WithAmountNone(s[1..], v);
    }
  }

  lemma {:induction false} WithAmountAppend(s: seq<Item>, u: seq<Item>, v: int)
    ensures WithAmount(s + u, v) == WithAmount(s, v) + WithAmount(u, v)
    decreases |s|
  {
    if s == [] {
      assert s + u == u;
    } else {
      var h := if s[0].1 == v then [s[0]] else [];
      assert (s + u)[0] == s[0] && (s + u)[1..] == s[1..] + u;
      assert WithAmount(s + u, v) == h + WithAmount(s[1..] + u, v);
      WithAmountAppend(s[1..], u, v);
      assert WithAmount(s, v) == h + WithAmount(s[1..], v);
    }
  }

  lemma NonIncreasingTail(s: seq<Item>)
    requires NonIncreasing(s) && s != []
    ensures NonIncreasing(s[1..])
  {
    forall i, j | 0 <= i < j < |s| - 1 ensures s[1..][i].1 >= s[1..][j].1 {
      assert s[1..][i] == s[i + 1] && s[1..][j] == s[j + 1];
    }
  }

  /** An item placed before smaller amounts comes last among the items of its amount. */
  lemma InsertAtFront(s: seq<Item>, x: Item, v: int)
    requires NonIncreasing(s) && s != [] && s[0].1 < x.1
    ensures WithAmount([x] + s, v) == WithAmount(s, v) + WithAmount([x], v)
  {
    var hx := if x.1 == v then [x] else [];
    assert ([x] + s)[0] == x && ([x] + s)[1..] == s;
    assert WithAmount([x] + s, v) == hx + WithAmount(s, v);
    assert [x][1..] == [];
    assert WithAmount([x], v) == hx + [];
    if x.1 == v {
      forall i | 0 <= i < |s| ensures s[i].1 != v {
        if i > 0 { assert s[0].1 >= s[i].1; }
      }
      WithAmountNone(s, v);
      assert hx + [] == [] + hx;
    } else {
      assert hx + WithAmount(s, v) == WithAmount(s, v) + [];
    }
  }

  lemma WithAmountCons(y: Item, t: seq<Item>, v: int)
    ensures WithAmount([y] + t, v) == (if y.1 == v then [y] else []) + WithAmount(t, v)
  {
    assert ([y] + t)[0] == y && ([y] + t)[1..] == t;
  }

  /** Putting the same item `y` in front of `u` and of `t` keeps `x` behind the items of `t`. */
  lemma ConsKeepsLast(y: Item, t: seq<Item>, u: seq<Item>, x: Item, v: int)
    requires WithAmount(u, v) == WithAmount(t, v) + WithAmount([x], v)
    ensures WithAmount([y] + u, v) == WithAmount([y] + t, v) + WithAmount([x], v)
  {
    var h := if y.1 == v then [y] else [];
    var a, c := WithAmount(t, v), WithAmount([x], v);
    WithAmountCons(y, u, v);
    WithAmountCons(y, t, v);
    assert h + (a + c) == (h + a) + c;
  }

  /** An item inserted behind `s[0]` keeps the place the tail gives it. */
  lemma InsertBehind(s: seq<Item>, x: Item, v: int)
    requires s != [] && x.1 <= s[0].1
    requires WithAmount(Insert(s[1..], x), v) == WithAmount(s[1..], v) + WithAmount([x], v)
    ensures WithAmount(Insert(s, x), v) == WithAmount(s, v) + WithAmount([x], v)
  {
    assert Insert(s, x) == [s[0]] + Insert(s[1..], x);
    assert s == [s[0]] + s[1..];
    ConsKeepsLast(s[0], s[1..], Insert(s[1..], x), x, v);
  }

  /** Inserting keeps the items of each amount in order, the new one last. */
  lemma {:induction false} InsertStable(s: seq<Item>, x: Item, v: int)
    requires NonIncreasing(s)
    ensures WithAmount(Insert(s, x), v) == WithAmount(s, v) + WithAmount([x], v)
    decreases |s|
  {
    if s == [] {
      assert Insert(s, x) == [x] && s + [x] == [x];
    } else if s[0].1 < x.1 {
      assert Insert(s, x) == [x] + s;
      InsertAtFront(s, x, v);
    } else {
      NonIncreasingTail(s);
      InsertStable(s[1..], x, v);
      InsertBehind(s, x, v);
    }
  }

  /** The sort is stable: for every amount, the items with it keep their order. */
  lemma {:induction false} SortStable(s: seq<Item>, v: int)
    ensures WithAmount(SortByAmountDescending(s), v) == WithAmount(s, v)
    decreases |s|
  {
    if s != [] {
      var init, x := s[..|s| - 1], s[|s| - 1];
      assert s == init + [x];
      SortStable(init, v);
      InsertStable(SortByAmountDescending(init), x, v);
      WithAmountAppend(init, [x], v);
    }
  }

  /**
    A non-increasing sequence is determined by its items of each amount: so
    the sort's result is the only stable descending order of its input.
  */
  lemma {:induction false} NonIncreasingUnique(r: seq<Item>, q: seq<Item>)
    requires NonIncreasing(r) && NonIncreasing(q)
    requires forall v :: WithAmount(r, v) == WithAmount(q, v)
    ensures r == q
    decreases |r| + |q|
  {
    if r == [] && q == [] {
    } else if r == [] {
      NotEmpty(q, r);
    } else if q == [] {
      NotEmpty(r, q);
    } else {
      var v, w := r[0].1, q[0].1;
      if v > w {
        Above(q, v);
        assert false;
      } else if w > v {
        Above(r, w);
        assert false;
      }
      assert WithAmount(r, v) == [r[0]] + WithAmount(r[1..], v);
      assert WithAmount(q, v) == [q[0]] + WithAmount(q[1..], v);
      assert r[0] == WithAmount(r, v)[0] == WithAmount(q, v)[0] == q[0];
      forall u ensures WithAmount(r[1..], u) == WithAmount(q[1..], u) {
        var head := if r[0].1 == u then [r[0]] else [];
        assert WithAmount(r, u) == head + WithAmount(r[1..], u);
        assert WithAmount(q, u) == head + WithAmount(q[1..], u);
        assert WithAmount(r[1..], u) == WithAmount(r, u)[|head|..];
        assert WithAmount(q[1..], u) == WithAmount(q, u)[|head|..];
      }
      NonIncreasingUnique(r[1..], q[1..]);
      assert r == [r[0]] + r[1..] && q == [q[0]] + q[1..];
    }
  }

  /** The sort's result is the one stable descending order of its input. */
  lemma SortIsTheStableOrder(s: seq<Item>, q: seq<Item>)
    requires NonIncreasing(q)
    requires forall v :: WithAmount(q, v) == WithAmount(s, v)
    ensures q == SortByAmountDescending(s)
  {
    forall v ensures WithAmount(SortByAmountDescending(s), v) == WithAmount(q, v) {
      SortStable(s, v);
    }
    NonIncreasingUnique(SortByAmountDescending(s), q);
  }

  lemma NotEmpty(r: seq<Item>, q: seq<Item>)
    requires r != [] && q == []
    ensures exists v :: WithAmount(r, v) != WithAmount(q, v)
  {
    assert WithAmount(r, r[0].1) == [r[0]] + WithAmount(r[1..], r[0].1);
  }

  /** No item of a non-increasing sequence exceeds its first. */
  lemma Above(s: seq<Item>, v: int)
    requires NonIncreasing(s) && s != [] && v > s[0].1
    ensures WithAmount(s, v) == []
  {
    WithAmountNone(s, v);
  }

  /** The selected items are the longest prefix of the sorted items, up to five. */
  function TakeTop(sorted: seq<Item>): (r: seq<Item>)
    ensures |r| == if |sorted| < TopCount then |sorted| else TopCount
    ensures r <= sorted
  {
    if |sorted| < TopCount then sorted else sorted[..TopCount]
  }

  /**
    The top-expenses section of the `stats` handler: the expense categories
    it lists, or `None` when the section is left out because
    `categories.get('expense')` is missing or empty.
  */
  function TopExpenseCategories(categories: CategoryMap): (r: Option<seq<Item>>)
    ensures r.None? <==> Get(categories, Expense) in {None, Some([])}
    ensures r.Some? ==> 0 < |r.value| <= TopCount
    ensures r.Some? ==> NonIncreasing(r.value)
    ensures r.Some? ==> forall x | x in r.value :: x in Get(categories, Expense).value
  {
    match Get(categories, Expense)
    case None => None
    case Some(items) =>
      if items == [] then None
      else
        var sorted := SortByAmountDescending(items);
        assert items[0] in multiset(sorted);
        var top := TakeTop(sorted);
        assert forall x | x in top :: x in multiset(items);
        Some(top)
  }

  /**
    The listed categories are the largest: any expense category left out has
    an amount no greater than each listed one, and fewer than five are listed
    only when there are fewer than five.
  */
  lemma TopAreLargest(categories: CategoryMap)
    requires TopExpenseCategories(categories).Some?
    ensures var items := Get(categories, Expense).value;
            var top := TopExpenseCategories(categories).value;
            && |top| == (if |items| < TopCount then |items| else TopCount)
            && forall e, x | e in items && e !in top && x in top :: x.1 >= e.1
  {
    var items := Get(categories, Expense).value;
    var sorted := SortByAmountDescending(items);
    var top := TopExpenseCategories(categories).value;
    assert |sorted| == |multiset(items)| == |items|;
    forall e, x | e in items && e !in top && x in top ensures x.1 >= e.1 {
      assert e in multiset(sorted);
      PrefixDominates(sorted, |top|, e, x);
    }
  }

  /** In a non-increasing sequence, every item of a prefix is at least every item after it. */
  lemma PrefixDominates(sorted: seq<Item>, n: nat, e: Item, x: Item)
    requires NonIncreasing(sorted) && n <= |sorted|
    requires e in sorted && e !in sorted[..n] && x in sorted[..n]
    ensures x.1 >= e.1
  {
    var j :| 0 <= j < |sorted| && sorted[j] == e;
    var i :| 0 <= i < n && sorted[..n][i] == x;
    assert forall k | 0 <= k < n :: sorted[..n][k] == sorted[k];
    assert n <= j;
  }

  /** For one amount, the first items of the sort are the first items of `items` with it. */
  lemma TakeTopKeepsTies(items: seq<Item>, v: int)
    ensures WithAmount(TakeTop(SortByAmountDescending(items)), v) <= WithAmount(items, v)
  {
    var sorted := SortByAmountDescending(items);
    var top := TakeTop(sorted);
    var rest := sorted[|top|..];
    assert sorted == top + rest;
    SortStable(items, v);
    WithAmountAppend(top, rest, v);
    var a, b := WithAmount(top, v), WithAmount(rest, v);
    assert a <= a + b;
  }

  /**
    Ties keep the order of `categories['expense']`: for each amount, the
    listed items with it are a prefix of the expense items with it, in order.
  */
  lemma TopTiesInMapOrder(categories: CategoryMap, v: int)
    requires TopExpenseCategories(categories).Some?
    ensures WithAmount(TopExpenseCategories(categories).value, v) <= WithAmount(Get(categories, Expense).value, v)
  {
    var items := Get(categories, Expense).value;
    assert TopExpenseCategories(categories).value == TakeTop(SortByAmountDescending(items));
    TakeTopKeepsTies(items, v);
  }

  /**
    Over the statistics of some records: the section is left out exactly when
    no expense was recorded, and each listed category is an expense category
    shown with the sum of its records.
  */
  lemma TopOfStatistics(ts: seq<Transaction>, s: Statistics)
    requires IsStatistics(ts, s)
    ensures TopExpenseCategories(s.categories).None? <==> forall i | 0 <= i < |ts| :: ts[i].kind != Expense
    ensures TopExpenseCategories(s.categories).Some? ==>
              forall x | x in TopExpenseCategories(s.categories).value ::
                Recorded(ts, Expense, x.0) && x.1 == SumOf(ts, Expense, Some(x.0))
  {
    var m := s.categories;
    if Expense in Keys(m) {
      var b := Get(m, Expense).value;
      assert IsBreakdown(ts, Expense, b);
      var i :| 0 <= i < |ts| && ts[i].kind == Expense;
      assert ts[i].category in CategoryNames(ts, Expense);
      assert b != [];
      forall x | x in b ensures Recorded(ts, Expense, x.0) && x.1 == SumOf(ts, Expense, Some(x.0)) {
        var j :| 0 <= j < |b| && b[j] == x;
        assert Keys(b)[j] == x.0;
        assert Distinct(Keys(b));
        GetAt(b, j);
        assert x.0 in CategoryNames(ts, Expense);
      }
    } else {
      assert Expense !in Kinds(ts);
    }
  }

  // ---------------------------------------------------------------- handle_message

  /**
    The record `handle_message` stores for a message, or `None` when nothing is
    stored. `text` is `None` when the update carries no message or no text.
  */
  function HandleMessage(text: Option<string>, userId: int, chatId: int, now: int): (r: Option<Transaction>)
    ensures r.None? <==> text.None? || text.value == [] || !HasDigit(text.value)
    ensures r.Some? ==> (r.value.id == None && r.value.userId == userId && r.value.chatId == chatId
                         && r.value.timestamp == now)
    ensures r.Some? ==> var p := ParseMessage(text.value).value;
                        && r.value.amount == p.amount && r.value.kind == p.kind
                        && r.value.category == p.category && r.value.description == p.description
  {
    if text.None? || text.value == [] then None
    else
      match ParseMessage(text.value)
      case None => None
      case Some(p) => Some(Transaction(None, p.amount, p.kind, p.category, p.description, userId, chatId, now))
  }

  /** `db.add_transaction`: the store gains the record last. */
  function Record(store: seq<Transaction>, r: Option<Transaction>): seq<Transaction> {
    match r
    case None => store
    case Some(t) => store + [t]
  }

  /** The stored record is the one the matching factory builds from the parse. */
  lemma HandledIsFactoryRecord(text: string, userId: int, chatId: int, now: int)
    requires HandleMessage(Some(text), userId, chatId, now).Some?
    ensures var p := ParseMessage(text).value;
            HandleMessage(Some(text), userId, chatId, now).value
              == if p.kind == Income then CreateIncome(p.amount, p.category, p.description, userId, chatId, now)
                 else CreateExpense(p.amount, p.category, p.description, userId, chatId, now)
  {
  }

  /**
    A handled message adds its amount to its own total in any window that
    contains it and changes the other total not at all; a message stored as
    nothing changes nothing.
  */
  lemma HandledMessageCounts(store: seq<Transaction>, text: Option<string>, userId: int, chatId: int, now: int,
                             start: Option<int>, end: Option<int>)
    ensures var r := HandleMessage(text, userId, chatId, now);
            var before := GetTransactions(store, chatId, start, end);
            var after := GetTransactions(Record(store, r), chatId, start, end);
            && (r.None? ==> after == before)
            && (r.Some? && InWindow(r.value, chatId, start, end) ==>
                  && SumOf(after, r.value.kind, None) == SumOf(before, r.value.kind, None) + r.value.amount
                  && SumOf(after, OtherKind(r.value.kind), None) == SumOf(before, OtherKind(r.value.kind), None))
  {
    var r := HandleMessage(text, userId, chatId, now);
    if r.Some? {
      var t := r.value;
      var before := GetTransactions(store, chatId, start, end);
      GetTransactionsSnoc(store, t, chatId, start, end);
      SumOfSnoc(before, t, t.kind, None);
      SumOfSnoc(before, t, OtherKind(t.kind), None);
    }
  }

  /** The direction a message was not classified as. */
  function OtherKind(kind: string): (k: string)
    requires kind == Income || kind == Expense
    ensures k != kind && (k == Income || k == Expense)
  {
    if kind == Income then Expense else Income
  }

  /**
    "500 продукты" from a user is stored as a grocery expense of 500. The
    message is passed as its two words so that the lemmas about a text
    followed by a blank and a word apply to it.
  */
  lemma HandleGroceries(a: string, b: string, userId: int, chatId: int, now: int)
    requires a == "500" && b == "продукты"
    ensures HandleMessage(Some(a + " " + b), userId, chatId, now)
         == Some(CreateExpense(50000, "продукты", a + " " + b, userId, chatId, now))
  {
    ExampleGroceries(a, b);
  }
}
