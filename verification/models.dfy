/**
 The persisted entities of PairShare: users, expense lists with their per-sharer
 summaries, and single expenses. Nullable Kotlin fields become `Option`; money is
 an exact `real` instead of a `Double`; timestamps are abstract integers.
 */
module Models {

  /** A value that may be absent (a Kotlin `T?`). */
  datatype Option<+T> = None | Some(value: T)

  /** Count and sum of the expenses one sharer added to a list; both default to zero. */
  datatype ExpenseSummary = ExpenseSummary(numExpenses: int, sumExpenses: real)

  /** The summary every sharer starts with. */
  const ZeroSummary: ExpenseSummary := ExpenseSummary(0, 0.0)

  /**
   A list shared between users. `sharers` repeats the key set of `sharerInfo`
   because the database cannot query map keys.
   */
  datatype ExpenseList = ExpenseList(
    listName: string,
    sharers: seq<string>,
    sharerInfo: map<string, ExpenseSummary>,
    created: int,
    modified: int)

  /** One expense of a list; the image paths are set together or not at all. */
  datatype Expense = Expense(
    userID: string,
    userName: string,
    amount: real,
    comment: string,
    timeOfExpense: int,
    imagePath: Option<string>,
    thumbnailPath: Option<string>,
    created: int)

  /** A user document, keyed by the authentication user id. */
  datatype User = User(
    mail: string,
    username: string,
    fcmToken: Option<string>,
    created: int,
    modified: int)

  /** The identity the authentication platform reports for the signed-in user. */
  datatype AuthUser = AuthUser(uid: string, displayName: Option<string>, email: Option<string>)

  /** The set of elements of a sequence. */
  function Elems<T>(xs: seq<T>): set<T>
  {
    set x | x in xs
  }

  /** No element occurs twice. */
  predicate Distinct<T(==)>(xs: seq<T>)
  {
    forall i, j :: 0 <= i < j < |xs| ==> xs[i] != xs[j]
  }
}
