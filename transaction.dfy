/**
  The stored record of `src/models/transaction.py` and its two factories.
  Amounts are exact hundredths; a timestamp is an abstract instant, ordered
  like the integers, and the factories take the current instant as a
  parameter instead of reading the clock.
*/
module Transactions {
  import opened Wrappers

  /** The two values of the `type` field that the program itself writes. */
  const Income: string := "income"
  const Expense: string := "expense"

  /**
    One record. `kind` is the source's `type` field; it is a plain string,
    so a store may hold values other than `Income` and `Expense`.
  */
  datatype Transaction = Transaction(
    id: Option<int>,      // assigned by the store; `None` until then
    amount: int,          // hundredths, any sign
    kind: string,
    category: string,
    description: string,
    userId: int,
    chatId: int,
    timestamp: int)

  /** `create_expense`: an unsaved expense record; nothing is validated. */
  function CreateExpense(amount: int, category: string, description: string,
                         userId: int, chatId: int, now: int): (t: Transaction)
    ensures t.id == None && t.kind == Expense && t.timestamp == now
    ensures t.amount == amount && t.category == category && t.description == description
    ensures t.userId == userId && t.chatId == chatId
  {
    Transaction(None, amount, Expense, category, description, userId, chatId, now)
  }

  /** `create_income`: an unsaved income record; nothing is validated. */
  function CreateIncome(amount: int, category: string, description: string,
                        userId: int, chatId: int, now: int): (t: Transaction)
    ensures t.id == None && t.kind == Income && t.timestamp == now
    ensures t.amount == amount && t.category == category && t.description == description
    ensures t.userId == userId && t.chatId == chatId
  {
    Transaction(None, amount, Income, category, description, userId, chatId, now)
  }

  /**
    The two factories build the same record up to its direction, and the
    direction always tells them apart.
  */
  lemma FactoriesDifferOnlyInKind(amount: int, category: string, description: string,
                                  userId: int, chatId: int, now: int)
    ensures CreateIncome(amount, category, description, userId, chatId, now)
         == CreateExpense(amount, category, description, userId, chatId, now).(kind := Income)
    ensures CreateIncome(amount, category, description, userId, chatId, now)
         != CreateExpense(amount, category, description, userId, chatId, now)
  {
  }
}
