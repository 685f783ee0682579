/**
 The balance of one user in an expense list and the colour it is shown in.
 `getExpenseDifferenceFor` walks the `sharerInfo` map in the map's own iteration
 order; that order is an input here (`order`, an enumeration of the map's keys).
 */
module ExpenseListUtils {
  import opened Models

  /** Reference sum of `sumExpenses` over a set of keys, independent of any order. */
  ghost function SumOf(info: map<string, ExpenseSummary>, keys: set<string>): real
    requires keys <= info.Keys
    decreases keys
  {
    if keys == {} then 0.0
    else
      var k :| k in keys;
      info[k].sumExpenses + SumOf(info, keys - {k})
  }

  /** Any key can be split off the reference sum, not only the one it happens to pick. */
  lemma {:induction false} SumOfRemove(info: map<string, ExpenseSummary>, keys: set<string>, k: string)
    requires keys <= info.Keys
    requires k in keys
    ensures SumOf(info, keys) == info[k].sumExpenses + SumOf(info, keys - {k})
    decreases keys
  {
    var j :| j in keys && SumOf(info, keys) == info[j].sumExpenses + SumOf(info, keys - {j});
    if j != k {
      SumOfRemove(info, keys - {j}, k);
      SumOfRemove(info, keys - {k}, j);
      assert keys - {j} - {k} == keys - {k} - {j};
    }
  }

  /** What the keys in `keys` contribute for `userId` counted positively. */
  ghost function OwnSum(userId: string, info: map<string, ExpenseSummary>, keys: set<string>): real
    requires keys <= info.Keys
  {
    if userId in keys then info[userId].sumExpenses else 0.0
  }

  /**
   The loop of `getExpenseDifferenceFor` over the first |order| entries: the target user's sum
   is added and every other key's sum is subtracted.
   */
  function DifferenceAlong(userId: string, info: map<string, ExpenseSummary>, order: seq<string>): (d: real)
    requires Distinct(order)
    requires Elems(order) <= info.Keys
    ensures d == OwnSum(userId, info, Elems(order)) - SumOf(info, Elems(order) - {userId})
    decreases |order|
  {
    if order == [] then 0.0
    else
      var rest := order[..|order| - 1];
      var key := order[|order| - 1];
      assert Elems(order) == Elems(rest) + {key} by {
        assert order == rest + [key];
      }
      assert key !in Elems(rest) by {
        forall i | 0 <= i < |rest| ensures rest[i] != key {
          assert rest[i] == order[i];
        }
      }
      assert Distinct(rest) by {
        forall i, j | 0 <= i < j < |rest| ensures rest[i] != rest[j] {
          assert rest[i] == order[i] && rest[j] == order[j];
        }
      }
      var before := DifferenceAlong(userId, info, rest);
      if key == userId then
        assert Elems(order) - {userId} == Elems(rest) - {userId};
        before + info[key].sumExpenses
      else
        assert (Elems(order) - {userId}) - {key} == Elems(rest) - {userId};
        SumOfRemove(info, Elems(order) - {userId}, key);
        before - info[key].sumExpenses
  }

  /** `order` lists every key of `info` exactly once (one possible iteration order of the map). */
  predicate IsIterationOrder(order: seq<string>, info: map<string, ExpenseSummary>)
  {
    Distinct(order) && Elems(order) == info.Keys
  }

  /**
   The balance of `userId` in `list`: that user's sum minus the sums of every other
   sharer. Positive means `userId` paid more than the others.
   */
  function GetExpenseDifferenceFor(userId: string, list: ExpenseList, order: seq<string>): (d: real)
    requires IsIterationOrder(order, list.sharerInfo)
    ensures d == OwnSum(userId, list.sharerInfo, list.sharerInfo.Keys)
                 - SumOf(list.sharerInfo, list.sharerInfo.Keys - {userId})
  {
    DifferenceAlong(userId, list.sharerInfo, order)
  }

  /** With exact arithmetic, the balance does not depend on the map's iteration order. */
  lemma BalanceIndependentOfOrder(userId: string, list: ExpenseList, order1: seq<string>, order2: seq<string>)
    requires IsIterationOrder(order1, list.sharerInfo)
    requires IsIterationOrder(order2, list.sharerInfo)
    ensures GetExpenseDifferenceFor(userId, list, order1) == GetExpenseDifferenceFor(userId, list, order2)
  {
  }

  /** A user who is not a key of the map gets the negated total of all sums. */
  lemma BalanceOfNonSharer(userId: string, list: ExpenseList, order: seq<string>)
    requires IsIterationOrder(order, list.sharerInfo)
    requires userId !in list.sharerInfo
    ensures GetExpenseDifferenceFor(userId, list, order) == -SumOf(list.sharerInfo, list.sharerInfo.Keys)
  {
    assert list.sharerInfo.Keys - {userId} == list.sharerInfo.Keys;
  }

  /**
   With exactly two sharers the two balances are opposite, and a positive balance
   means that user's sum is the larger one.
   */
  lemma TwoSharerBalances(list: ExpenseList, u: string, v: string, order1: seq<string>, order2: seq<string>)
    requires u != v
    requires list.sharerInfo.Keys == {u, v}
    requires IsIterationOrder(order1, list.sharerInfo)
    requires IsIterationOrder(order2, list.sharerInfo)
    ensures GetExpenseDifferenceFor(u, list, order1)
            == list.sharerInfo[u].sumExpenses - list.sharerInfo[v].sumExpenses
    ensures GetExpenseDifferenceFor(u, list, order1) == -GetExpenseDifferenceFor(v, list, order2)
    ensures GetExpenseDifferenceFor(u, list, order1) > 0.0
            <==> list.sharerInfo[u].sumExpenses > list.sharerInfo[v].sumExpenses
  {
    var info := list.sharerInfo;
    assert info.Keys - {u} == {v};
    assert info.Keys - {v} == {u};
    SumOfRemove(info, {v}, v);
    assert {v} - {v} == {};
    SumOfRemove(info, {u}, u);
    assert {u} - {u} == {};
  }

  /** Two sharers who paid 30 and 10: the first is 20 ahead, the second 20 behind. */
  lemma TwoSharerExample()
    ensures var list := ExpenseList("trip", ["A", "B"],
                                    map["A" := ExpenseSummary(1, 30.0), "B" := ExpenseSummary(1, 10.0)], 0, 0);
            && GetExpenseDifferenceFor("A", list, ["A", "B"]) == 20.0
            && GetExpenseDifferenceFor("B", list, ["B", "A"]) == -20.0
  {
    var list := ExpenseList("trip", ["A", "B"],
                            map["A" := ExpenseSummary(1, 30.0), "B" := ExpenseSummary(1, 10.0)], 0, 0);
    assert Elems(["A", "B"]) == {"A", "B"} == Elems(["B", "A"]);
    TwoSharerBalances(list, "A", "B", ["A", "B"], ["B", "A"]);
  }

  /** The colours of the balance; `Black` is the neutral colour for exactly zero. */
  datatype BalanceColor = BalancePositive | BalanceSlightPositive | BalanceSlightNegative | BalanceNegative | Black

  /** The colour a balance is shown in: green shades for positive, red shades for negative. */
  function GetExpenseDifferenceColor(difference: real): (c: BalanceColor)
    ensures c == BalancePositive <==> difference >= 100.0
    ensures c == BalanceSlightPositive <==> 0.0 < difference < 100.0
    ensures c == BalanceSlightNegative <==> -100.0 < difference < 0.0
    ensures c == BalanceNegative <==> difference <= -100.0
    ensures c == Black <==> difference == 0.0
  {
    if difference >= 100.0 then BalancePositive
    else if difference > 0.0 then BalanceSlightPositive
    else if difference < 0.0 && difference > -100.0 then BalanceSlightNegative
    else if difference <= -100.0 then BalanceNegative
    else Black
  }

  /** The colour of the opposite balance: positive and negative swap, strength is kept. */
  function Mirror(c: BalanceColor): BalanceColor
  {
    match c
    case BalancePositive => BalanceNegative
    case BalanceSlightPositive => BalanceSlightNegative
    case BalanceSlightNegative => BalanceSlightPositive
    case BalanceNegative => BalancePositive
    case Black => Black
  }

  /** Position of a colour on the line from most negative (0) to most positive (4). */
  function Rank(c: BalanceColor): int
  {
    match c
    case BalanceNegative => 0
    case BalanceSlightNegative => 1
    case Black => 2
    case BalanceSlightPositive => 3
    case BalancePositive => 4
  }

  /** Bucketing is sign-symmetric. */
  lemma ColorIsSignSymmetric(d: real)
    ensures GetExpenseDifferenceColor(-d) == Mirror(GetExpenseDifferenceColor(d))
    ensures Rank(GetExpenseDifferenceColor(-d)) == 4 - Rank(GetExpenseDifferenceColor(d))
  {
  }

  /** A larger difference never lands in a more negative bucket. */
  lemma ColorIsMonotone(d1: real, d2: real)
    requires d1 <= d2
    ensures Rank(GetExpenseDifferenceColor(d1)) <= Rank(GetExpenseDifferenceColor(d2))
  {
  }

  /** With two sharers the two users see mirrored colours. */
  lemma TwoSharerColorsMirror(list: ExpenseList, u: string, v: string, order1: seq<string>, order2: seq<string>)
    requires u != v
    requires list.sharerInfo.Keys == {u, v}
    requires IsIterationOrder(order1, list.sharerInfo)
    requires IsIterationOrder(order2, list.sharerInfo)
    ensures GetExpenseDifferenceColor(GetExpenseDifferenceFor(v, list, order2))
            == Mirror(GetExpenseDifferenceColor(GetExpenseDifferenceFor(u, list, order1)))
  {
    TwoSharerBalances(list, u, v, order1, order2);
    ColorIsSignSymmetric(GetExpenseDifferenceFor(u, list, order1));
  }
}
