# Family budget bot: classifier and statistics, in Dafny

This project models the decision logic of a Telegram bot that keeps a
household's income and expense records. It proves properties of that model.

- **Message classifier.** `MessageParser.parse_message` turns a free-text
  message such as "500 продукты" or "1000+ зарплата" into four parts:
  - an amount: the first decimal number in the text;
  - a direction: "income" when an income keyword occurs, otherwise "expense";
  - a category: the first entry of an ordered keyword table that matches;
  - a description: the stripped text.
- **Record and factories.** The `Transaction` record, with its factories
  `create_expense` and `create_income`.
- **Statistics.** `Database.get_transactions` and `Database.get_statistics`:
  - the query keeps one chat's records within optional inclusive time bounds;
  - the statistics give the income and expense totals, the balance, and a
    nested map from type to category to sum, filled by a loop.
- **Bot handlers.** Two pieces of `src/main.py`:
  - the top-five expense list of `/stats`: sorted by amount descending,
    stably, then cut to five;
  - the record that `handle_message` builds from a parsed message.

Conventions:

- **Amounts** are exact integers counting hundredths. The amount pattern
  admits at most two fractional digits, so no value is lost.
- **Dictionaries** are association lists that keep insertion order, as
  Python dictionaries do. That order decides ties in the top-five list.
- **The store** is a sequence of records in insertion order.
- **Files:**
  - `text.dfy`: the string builtins the parser relies on (`lower`, `strip`,
    `in`);
  - `message_parser.dfy`: the classifier;
  - `transaction.dfy`: the record and its factories;
  - `database.dfy`: the query and the statistics;
  - `bot.dfy`: the two handler fragments;
  - `wrappers.dfy`: `Option`.

## Behaviour worth noting

- **Zero amounts.** "0 продукты" is accepted, with amount 0
  (`MessageParser.ExampleZero`). Nothing rejects a zero amount.
- **The minus sign.** `EXPENSE_KEYWORDS` is never read. A text is an expense
  exactly when no income keyword occurs in it. A `-` neither negates the
  amount nor changes the direction (`MessageParser.ExampleMinusSign`,
  `MessageParser.TransactionType`).
- **Ties in the top-five list.** Ties follow the key order of
  `categories['expense']`. That order is the order in which each category
  first occurs among the queried records (`Bot.TopTiesInMapOrder`).

## Model

| member | source | states |
|---|---|---|
| Text.Strip | src/utils/message_parser.py:52 | the result is a slice of the input with no leading or trailing whitespace; it is empty iff the input is all whitespace |
| Text.StripUnique | src/utils/message_parser.py:52 | any slice with those properties is the stripped text, so `Strip`'s contract determines it |
| Text.StripIdempotent | src/utils/message_parser.py:52 | stripping twice is stripping once |
| Text.ContainsIffOccurs | src/utils/message_parser.py:40 | the scanning `kw in text` holds iff `kw` occurs at some position of `text` |
| Text.ContainsAcrossBlank | src/utils/message_parser.py:47 | a keyword without a blank occurs in `a + " " + b` iff it occurs in `a`, when it does not occur in `b` |
| MessageParser.FindAmount | src/utils/message_parser.py:32-34 | no match iff the text has no digit; otherwise the span is the leftmost-longest match of `\d+(\.\d{1,2})?` |
| MessageParser.MatchEndIsLongest | src/utils/message_parser.py:32 | the scanner's end is the longest match starting at the first digit |
| MessageParser.FirstMatchUnique | src/utils/message_parser.py:32 | there is one leftmost-longest match |
| MessageParser.ParseAmount | src/utils/message_parser.py:32-36 | `None` iff no digit; otherwise the value, in hundredths, of the leftmost-longest match |
| MessageParser.AmountIsFirstDigitRun | src/utils/message_parser.py:32-36 | the amount is the first maximal digit run, plus one or two fraction digits when a '.' and a digit follow; a '-' before it is ignored |
| MessageParser.LaterNumbersIgnored | src/utils/message_parser.py:32 | text appended after a blank that follows the first number does not change the amount |
| MessageParser.TransactionType | src/utils/message_parser.py:39-41 | "income" iff one of 'доход', 'зарплата', 'прибыль', '+' occurs in the lower-cased text, else "expense" |
| MessageParser.FirstMatchingEntry | src/utils/message_parser.py:46-49 | the first table position whose keywords match, every earlier one failing; `None` iff none matches |
| MessageParser.Category | src/utils/message_parser.py:44-49 | always one of the seven table keys: the first matching entry, or 'другое' when none matches |
| MessageParser.ParseMessage | src/utils/message_parser.py:28-59 | `None` iff the text has no digit; otherwise the amount, direction, category and stripped description above |
| MessageParser.CategoryIgnoresAppendedWord | src/utils/message_parser.py:44-49 | appending a word that holds no category keyword leaves the category unchanged |
| MessageParser.IncomeKeywordsHoldNoCategoryKeyword | src/utils/message_parser.py:14-26 | no income keyword contains a category keyword |
| MessageParser.IncomeKeywordKeepsCategory | src/utils/message_parser.py:39-49 | appending a blank and an income keyword makes the text income and leaves its category unchanged |
| MessageParser.IncomeKeywordAnywhereIsIncome | src/utils/message_parser.py:39-41 | a text holding an income keyword anywhere, even inside a word as in "abc+" or "сдоход", is income |
| MessageParser.ExampleThreeDecimals | src/utils/message_parser.py:32-36 | "10.999" reads as 10.99 |
| MessageParser.ExampleTwoPoints | src/utils/message_parser.py:32-36 | "1.2.3" reads as 1.2 |
| MessageParser.ExampleTrailingPoint | src/utils/message_parser.py:32-36 | "12." reads as 12 |
| MessageParser.ExampleMinusSign | src/utils/message_parser.py:32-36 | "-5" reads as 5 |
| MessageParser.ExampleZero | src/utils/message_parser.py:32-36 | "0 продукты" is accepted with amount 0 |
| MessageParser.ExampleNoNumber | src/utils/message_parser.py:32-34 | a text without digits is rejected |
| MessageParser.ExampleFirstMatchWins | src/utils/message_parser.py:46-49 | "ресторан дом" is 'развлечения', not 'коммунальные' |
| MessageParser.ExampleGroceries | src/utils/message_parser.py:28-59 | "500 продукты" is a grocery expense of 500 described as itself |
| MessageParser.ExampleSalary | src/utils/message_parser.py:28-59 | "1000+ зарплата" is an income of 1000 in 'другое' |
| Transactions.CreateExpense | src/models/transaction.py:16-27 | type "expense", no id, the given time; the other fields copied unchanged; no argument rejected |
| Transactions.CreateIncome | src/models/transaction.py:29-40 | type "income", no id, the given time; the other fields copied unchanged; no argument rejected |
| Transactions.FactoriesDifferOnlyInKind | src/models/transaction.py:16-40 | the two factories build the same record up to the type, and never the same record |
| Database.GetTransactions | src/utils/database.py:29-41 | every returned record is in the window; no more records than stored |
| Database.GetTransactionsExact | src/utils/database.py:32-37 | each record in the window is returned as often as it is stored, others never; an absent bound does not filter |
| Database.GetTransactionsAppend | src/utils/database.py:32-39 | the query distributes over concatenation of the store, so store order is kept |
| Database.SumOfAppend | src/utils/database.py:55-56 | totals are additive over concatenation |
| Database.SumOfPermutation | src/utils/database.py:55-56 | totals do not depend on the records' order |
| Database.Get | src/utils/database.py:60-64 | a dictionary lookup finds nothing iff the key is absent |
| Database.Put | src/utils/database.py:61-64 | assignment keeps an existing key's place and puts a new key last; the assigned key reads back; no other key changes |
| Database.FirstOccurrencesPrefix | src/utils/database.py:58-64 | later records never reorder the keys present; new keys go last |
| Database.BuildCategories | src/utils/database.py:58-64 | the loop's map has the types in first-occurrence order, and for each type the categories in first-occurrence order, each with the sum of its records |
| Database.CategoryEntry | src/utils/database.py:58-64 | `categories[type][category]` exists iff such a record exists, and then holds their sum (no zero placeholders) |
| Database.CategoryMapUnique | src/utils/database.py:58-64 | exactly one map satisfies the loop's postcondition |
| Database.BreakdownAddsUp | src/utils/database.py:55-64 | the values under a type add up to that type's sum |
| Database.GetStatistics | src/utils/database.py:43-71 | over the records `get_transactions` returns: the income and expense totals, balance = income − expense, and the category map |
| Database.StatisticsUnique | src/utils/database.py:43-71 | the statistics of given records are determined |
| Database.EmptyStatistics | src/utils/database.py:53-71 | no records gives 0, 0, 0 and an empty map |
| Database.CategoriesAddUpToTotals | src/utils/database.py:55-64 | the values under "income" and "expense" add up to the totals; an absent type has total 0 |
| Database.OtherTypesInNoTotal | src/utils/database.py:55-64 | a record of any other type counts in neither total but is listed in the map |
| Database.StatisticsIgnoreOrder | src/utils/database.py:55-64 | reordering the records changes no total, no balance and no category sum |
| Database.FactoryRecordsCount | src/utils/database.py:55-56 | a factory-made record adds its amount to its own total and nothing to the other |
| Bot.SortByAmountDescending | src/main.py:75-78 | the sorted items are a permutation of the input, in non-increasing order of amount |
| Bot.InsertPermutes | src/main.py:75-78 | one insertion step of the sort adds exactly the inserted item and loses none |
| Bot.InsertStable | src/main.py:75-78 | an insertion step keeps the items of each amount in order and places the new item after its equals |
| Bot.SortStable | src/main.py:75-78 | items with equal amounts keep their order |
| Bot.SortIsTheStableOrder | src/main.py:75-78 | any non-increasing order that keeps equal amounts in order is the sort's result |
| Bot.TakeTop | src/main.py:79 | `[:5]`: the first min(5, n) items |
| Bot.TopExpenseCategories | src/main.py:73-80 | the list is left out iff the expense map is missing or empty; otherwise 1 to 5 items, non-increasing, each from the expense map |
| Bot.TopAreLargest | src/main.py:75-79 | min(5, n) items are listed, and no unlisted category exceeds a listed one |
| Bot.TakeTopKeepsTies | src/main.py:75-79 | for each amount, the top items holding it form a prefix, in order, of the input items holding it |
| Bot.TopTiesInMapOrder | src/main.py:75-79 | for each amount, the listed items with it are a prefix of the map's items with it, in map order |
| Bot.TopOfStatistics | src/main.py:73-80 | over computed statistics, the list is left out iff no expense is recorded; each listed category was recorded and carries its sum |
| Bot.HandleMessage | src/main.py:116-134 | no record iff there is no text, the text is empty, or it has no digit; otherwise id None, the sender's user and chat, the given time, and the parser's fields unchanged |
| Bot.HandledIsFactoryRecord | src/main.py:125-134 | the stored record is the one the matching factory builds |
| Bot.HandledMessageCounts | src/main.py:116-137 | storing a handled message adds its amount to its own total in any window holding it and nothing to the other; a rejected one changes nothing |
| Bot.HandleGroceries | src/main.py:116-134 | "500 продукты" is stored as `create_expense(500, 'продукты', …)` |

## Left out

- **Telegram transport:** the handlers' `async` I/O, `reply_text`/`reply_photo`, the command handlers `start`, `help_command` and `report`, application setup and polling, the token and environment, and logging. These are I/O only.
- **Reply formatting:** the `:.2f` text and emoji in `stats` and `handle_message` replies are presentation only. The model stops at the selected items and the stored record.
- **Persistence:** the SQLAlchemy engine, sessions, commit and close (`src/utils/database.py:9-27`) are replaced by a sequence. `Bot.Record` appends a record. The store's id assignment is not modelled, so records stay with `id == None`.
- **ORM mapping:** `src/utils/database.py:6` imports `Base` from a module that defines only a plain dataclass. The ORM mapping is not modelled.
- **Query order:** the query has no `ORDER BY`. The model returns records in insertion order, which fixes the key order of the category map.
- **Charts:** `src/utils/visualization.py` is not part of this model (chart rendering only).
- **Clock:** `datetime.now()` becomes a parameter `now`, and the 30-day window start of `stats` becomes the `start` bound. Timestamps are integers.
- **Floats:** `float()` parsing and float summation are not modelled. Amounts and sums are exact hundredths, so rounding in the source's float sums is not captured.
- **Unicode:** the model is narrower than Python in three places:
  - `\d` accepts only ASCII digits;
  - `lower()` maps only ASCII and the basic Cyrillic capitals U+0400–U+042F;
  - `strip()` uses the fixed whitespace set of `str.isspace`.
- **Expense keywords:** `EXPENSE_KEYWORDS` is declared (`MessageParser.ExpenseKeywords`) but, as in the source, never consulted.
