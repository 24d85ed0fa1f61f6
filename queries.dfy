/**
 * The ledger's read-only queries, as functions over the contents of the
 * tables: the login lookup, the per-user listing, the monthly and yearly
 * income/expense reports, and the budget check.
 *
 * `strftime('%Y-%m', date)` and `strftime('%Y', date)` on a stored
 * "YYYY-MM-DD HH:MM:SS" timestamp give its first 7 and first 4 characters;
 * `Period(date, 7)` and `Period(date, 4)` are those keys.
 */
module Queries {
  import opened Schema
  import opened TextOrder

  datatype Option<T> = None | Some(value: T)

  /** The two `type` values the aggregations look at; any other adds to neither. */
  const Income: string := "income"
  const Expense: string := "expense"

  // ---------------------------------------------------------------- login

  /**
   * SELECT id FROM users WHERE username = ? AND password = hash(password),
   * first row: the id of a user whose name and stored hash both match, or
   * None when there is none. A wrong password and an unknown name look alike.
   */
  function Authenticate(users: seq<User>, username: string, password: string,
                        hash: string -> string): (r: Option<int>)
    ensures r.None? <==>
      forall i :: 0 <= i < |users| ==> !(users[i].username == username && users[i].password == hash(password))
    ensures r.Some? ==>
      exists i :: 0 <= i < |users| && users[i].username == username &&
        users[i].password == hash(password) && users[i].id == r.value
  {
    if users == [] then None
    else if users[0].username == username && users[0].password == hash(password) then Some(users[0].id)
    else
      var r := Authenticate(users[1..], username, password, hash);
      assert forall i :: 0 <= i < |users[1..]| ==> users[1..][i] == users[i + 1];
      r
  }

  /**
   * With usernames unique, the outcome depends only on the one row with
   * that name: its id when the stored hash matches, None otherwise.
   */
  lemma AuthenticateByUsername(users: seq<User>, username: string, password: string,
                               hash: string -> string, k: int)
    requires DistinctUsernames(users)
    requires 0 <= k < |users| && users[k].username == username
    ensures Authenticate(users, username, password, hash) ==
      if users[k].password == hash(password) then Some(users[k].id) else None
  {
    var r := Authenticate(users, username, password, hash);
    if r.Some? {
      var i :| 0 <= i < |users| && users[i].username == username &&
        users[i].password == hash(password) && users[i].id == r.value;
      assert i == k;
    }
  }

  /** Registering a fresh name and then logging in with its password gives the new id. */
  lemma AuthenticateAfterRegister(users: seq<User>, username: string, password: string,
                                  hash: string -> string, id: int)
    requires DistinctUsernames(users) && !UsernameTaken(users, username)
    ensures Authenticate(users + [User(id, username, hash(password))], username, password, hash) == Some(id)
  {
    var users' := users + [User(id, username, hash(password))];
    assert DistinctUsernames(users') by {
      forall i, j | 0 <= i < j < |users'| ensures users'[i].username != users'[j].username {
        if j == |users| { assert users[i].username != username; }
      }
    }
    AuthenticateByUsername(users', username, password, hash, |users|);
  }

  // -------------------------------------------------------------- listing

  /**
   * SELECT * FROM transactions WHERE user_id = ?: the user's rows, in the
   * order they are stored in.
   */
  function ViewTransactions(txs: seq<Transaction>, userId: int): (r: seq<Transaction>)
    ensures forall t :: t in r <==> t in txs && t.userId == userId
    ensures |r| <= |txs|
  {
    if txs == [] then []
    else
      var rest := ViewTransactions(txs[1..], userId);
      assert txs == [txs[0]] + txs[1..];
      if txs[0].userId == userId then [txs[0]] + rest else rest
  }

  /**
   * Listing after an append: the new row comes last when it is the user's,
   * and is absent otherwise; the listing before it is unchanged.
   */
  lemma {:induction false} ViewAfterAppend(txs: seq<Transaction>, t: Transaction, userId: int)
    ensures ViewTransactions(txs + [t], userId) ==
      ViewTransactions(txs, userId) + (if t.userId == userId then [t] else [])
  {
    if txs == [] {
      assert txs + [t] == [t];
    } else {
      assert (txs + [t])[1..] == txs[1..] + [t];
      ViewAfterAppend(txs[1..], t, userId);
    }
  }

  // ---------------------------------------------------------- aggregation

  /**
   * The grouping key: the first `width` characters of the date, or the
   * whole date when it is shorter.
   */
  function Period(date: string, width: nat): (p: string)
    ensures |p| == if |date| < width then |date| else width
    ensures p == date[..|p|]
  {
    if |date| <= width then date else date[..width]
  }

  /** On a stored timestamp, the year key is the first four characters of the month key. */
  lemma PeriodOfTimestamp(date: string)
    requires IsTimestamp(date)
    ensures Period(date, 7) == date[..7] && Period(date, 4) == date[..4]
    ensures Period(date, 4) == Period(date, 7)[..4] && |Period(date, 7)| == 7
  {
  }

  /** SUM(amount) over the rows `keep` selects; 0 when it selects none. */
  function SumWhere(txs: seq<Transaction>, keep: Transaction -> bool): (r: real)
    ensures (forall i :: 0 <= i < |txs| ==> !keep(txs[i])) ==> r == 0.0
  {
    if txs == [] then 0.0
    else
      assert forall i :: 0 <= i < |txs[1..]| ==> txs[1..][i] == txs[i + 1];
      (if keep(txs[0]) then txs[0].amount else 0.0) + SumWhere(txs[1..], keep)
  }

  /** Appending a row adds its amount to a sum that selects it, and nothing otherwise. */
  lemma {:induction false} SumWhereAppend(txs: seq<Transaction>, t: Transaction, keep: Transaction -> bool)
    ensures SumWhere(txs + [t], keep) == SumWhere(txs, keep) + (if keep(t) then t.amount else 0.0)
  {
    if txs == [] {
      assert txs + [t] == [t];
    } else {
      assert (txs + [t])[1..] == txs[1..] + [t];
      SumWhereAppend(txs[1..], t, keep);
    }
  }

  /** A row of the user's group `key` whose type is `kind`. */
  predicate InGroup(t: Transaction, userId: int, width: nat, key: string, kind: string)
  {
    t.userId == userId && Period(t.date, width) == key && t.kind == kind
  }

  /**
   * SUM(CASE WHEN type = `kind` THEN amount ELSE 0 END) over the user's
   * group `key`: 0 when that group holds no row of that type.
   */
  function GroupTotal(txs: seq<Transaction>, userId: int, width: nat, key: string, kind: string): (r: real)
    ensures (forall i :: 0 <= i < |txs| ==> !InGroup(txs[i], userId, width, key, kind)) ==> r == 0.0
  {
    SumWhere(txs, t => InGroup(t, userId, width, key, kind))
  }

  /** A row whose type is neither 'income' nor 'expense' changes neither total. */
  lemma OtherKindAddsNothing(txs: seq<Transaction>, t: Transaction, userId: int, width: nat, key: string)
    requires t.kind != Income && t.kind != Expense
    ensures GroupTotal(txs + [t], userId, width, key, Income) == GroupTotal(txs, userId, width, key, Income)
    ensures GroupTotal(txs + [t], userId, width, key, Expense) == GroupTotal(txs, userId, width, key, Expense)
  {
    SumWhereAppend(txs, t, u => InGroup(u, userId, width, key, Income));
    SumWhereAppend(txs, t, u => InGroup(u, userId, width, key, Expense));
  }

  /** The user has a transaction whose date falls in `key`. */
  ghost predicate UserHasPeriod(txs: seq<Transaction>, userId: int, width: nat, key: string)
  {
    exists i :: 0 <= i < |txs| && txs[i].userId == userId && Period(txs[i].date, width) == key
  }

  /** The distinct keys of the user's transactions (GROUP BY), strictly descending (ORDER BY DESC). */
  function PeriodKeys(txs: seq<Transaction>, userId: int, width: nat): (keys: seq<string>)
    ensures Descending(keys)
    ensures forall k :: k in keys <==> UserHasPeriod(txs, userId, width, k)
  {
    if txs == [] then []
    else
      var rest := PeriodKeys(txs[1..], userId, width);
      assert forall i :: 0 <= i < |txs[1..]| ==> txs[1..][i] == txs[i + 1];
      assert forall k :: UserHasPeriod(txs, userId, width, k) <==>
        (txs[0].userId == userId && Period(txs[0].date, width) == k) || UserHasPeriod(txs[1..], userId, width, k)
      by {
        forall k | UserHasPeriod(txs, userId, width, k)
          ensures (txs[0].userId == userId && Period(txs[0].date, width) == k) ||
                  UserHasPeriod(txs[1..], userId, width, k)
        {
          var i :| 0 <= i < |txs| && txs[i].userId == userId && Period(txs[i].date, width) == k;
          if i > 0 { assert txs[1..][i - 1] == txs[i]; }
        }
      }
      if txs[0].userId == userId then InsertDescending(Period(txs[0].date, width), rest) else rest
  }

  /** One line of a report: the period, its two totals and income minus expense. */
  datatype ReportRow = ReportRow(period: string, income: real, expense: real, savings: real)

  /**
   * What a report is: its rows in strictly descending period order, one row
   * for each period the user has a transaction in and no other, each with
   * the period's income and expense totals and savings = income - expense.
   */
  ghost predicate IsReport(txs: seq<Transaction>, userId: int, width: nat, rows: seq<ReportRow>)
  {
    (forall i, j :: 0 <= i < j < |rows| ==> Less(rows[j].period, rows[i].period)) &&
    (forall k :: (exists i :: 0 <= i < |rows| && rows[i].period == k) <==> UserHasPeriod(txs, userId, width, k)) &&
    (forall i :: 0 <= i < |rows| ==>
       rows[i].income == GroupTotal(txs, userId, width, rows[i].period, Income) &&
       rows[i].expense == GroupTotal(txs, userId, width, rows[i].period, Expense) &&
       rows[i].savings == rows[i].income - rows[i].expense)
  }

  function ReportRowFor(txs: seq<Transaction>, userId: int, width: nat, key: string): ReportRow
  {
    var income := GroupTotal(txs, userId, width, key, Income);
    var expense := GroupTotal(txs, userId, width, key, Expense);
    ReportRow(key, income, expense, income - expense)
  }

  /** The report grouped by the first `width` characters of the date. */
  function Report(txs: seq<Transaction>, userId: int, width: nat): (rows: seq<ReportRow>)
    ensures IsReport(txs, userId, width, rows)
  {
    var keys := PeriodKeys(txs, userId, width);
    var rows := seq(|keys|, i requires 0 <= i < |keys| => ReportRowFor(txs, userId, width, keys[i]));
    assert forall k :: (exists i :: 0 <= i < |rows| && rows[i].period == k) <==> k in keys by {
      forall k | k in keys ensures exists i :: 0 <= i < |rows| && rows[i].period == k {
        var i :| 0 <= i < |keys| && keys[i] == k;
        assert rows[i].period == k;
      }
    }
    rows
  }

  /** GROUP BY strftime('%Y-%m', date) ORDER BY month DESC. */
  function MonthlyReport(txs: seq<Transaction>, userId: int): (rows: seq<ReportRow>)
    ensures IsReport(txs, userId, 7, rows)
  {
    Report(txs, userId, 7)
  }

  /** GROUP BY strftime('%Y', date) ORDER BY year DESC. */
  function YearlyReport(txs: seq<Transaction>, userId: int): (rows: seq<ReportRow>)
    ensures IsReport(txs, userId, 4, rows)
  {
    Report(txs, userId, 4)
  }

  function Periods(rows: seq<ReportRow>): (ps: seq<string>)
    ensures |ps| == |rows| && forall i :: 0 <= i < |rows| ==> ps[i] == rows[i].period
  {
    seq(|rows|, i requires 0 <= i < |rows| => rows[i].period)
  }

  lemma PeriodsMembers(rows: seq<ReportRow>, x: string)
    ensures x in Periods(rows) <==> exists i :: 0 <= i < |rows| && rows[i].period == x
  {
    var ps := Periods(rows);
    if x in ps {
      var i :| 0 <= i < |ps| && ps[i] == x;
      assert rows[i].period == x;
    }
  }

  /** IsReport pins the report down: two sequences of rows that both meet it are equal. */
  lemma ReportDetermined(txs: seq<Transaction>, userId: int, width: nat, a: seq<ReportRow>, b: seq<ReportRow>)
    requires IsReport(txs, userId, width, a) && IsReport(txs, userId, width, b)
    ensures a == b
  {
    var pa, pb := Periods(a), Periods(b);
    forall x ensures x in pa <==> x in pb {
      PeriodsMembers(a, x);
      PeriodsMembers(b, x);
      assert x in pa <==> UserHasPeriod(txs, userId, width, x);
    }
    assert Descending(pa) && Descending(pb);
    DescendingDeterminedByElements(pa, pb);
    forall i | 0 <= i < |a| ensures a[i] == b[i] {
      assert pa[i] == pb[i];
    }
  }

  // --------------------------------------------------------------- budget

  predicate BudgetFor(b: Budget, userId: int, category: string, month: string)
  {
    b.userId == userId && b.category == category && b.month == month
  }

  /**
   * SELECT amount FROM budgets WHERE user_id, category, month; fetchone():
   * the amount of a matching row, None when no row matches. The order of
   * the rows is not fixed by the query; the body takes the first in scan
   * order, and the contract promises only some matching row.
   */
  function FindBudget(budgets: seq<Budget>, userId: int, category: string, month: string): (r: Option<real>)
    ensures r.None? <==> forall i :: 0 <= i < |budgets| ==> !BudgetFor(budgets[i], userId, category, month)
    ensures r.Some? ==>
      exists i :: 0 <= i < |budgets| && BudgetFor(budgets[i], userId, category, month) && budgets[i].amount == r.value
  {
    if budgets == [] then None
    else if BudgetFor(budgets[0], userId, category, month) then Some(budgets[0].amount)
    else
      assert forall i :: 0 <= i < |budgets[1..]| ==> budgets[1..][i] == budgets[i + 1];
      FindBudget(budgets[1..], userId, category, month)
  }

  /**
   * With rows taken in scan order, an appended budget row is found only
   * when no earlier row matches: setting a budget again for the same user,
   * category and month leaves the checked amount as it was.
   */
  lemma {:induction false} FindBudgetAfterAppend(budgets: seq<Budget>, b: Budget, userId: int,
                                                 category: string, month: string)
    ensures FindBudget(budgets + [b], userId, category, month) ==
      match FindBudget(budgets, userId, category, month)
      case Some(a) => Some(a)
      case None => if BudgetFor(b, userId, category, month) then Some(b.amount) else None
  {
    if budgets == [] {
      assert budgets + [b] == [b];
    } else {
      assert (budgets + [b])[1..] == budgets[1..] + [b];
      FindBudgetAfterAppend(budgets[1..], b, userId, category, month);
    }
  }

  /** An 'expense' row of the user in `category` whose month key is `month`. */
  predicate Spending(t: Transaction, userId: int, category: string, month: string)
  {
    t.userId == userId && t.category == category && Period(t.date, 7) == month && t.kind == Expense
  }

  /** SUM(amount) of the matching expense rows, `or 0`: 0 when there are none. */
  function Spent(txs: seq<Transaction>, userId: int, category: string, month: string): (r: real)
    ensures (forall i :: 0 <= i < |txs| ==> !Spending(txs[i], userId, category, month)) ==> r == 0.0
  {
    SumWhere(txs, t => Spending(t, userId, category, month))
  }

  datatype BudgetReport = NoBudget | BudgetStatus(budget: real, spent: real, remaining: real)

  /**
   * check_budget: "no budget" when no budget row matches; otherwise the
   * budget of a matching row, the month's spending in the category, and
   * remaining = budget - spent, which is negative when over budget.
   */
  function CheckBudget(budgets: seq<Budget>, txs: seq<Transaction>, userId: int,
                       category: string, month: string): (r: BudgetReport)
    ensures r.NoBudget? <==> forall i :: 0 <= i < |budgets| ==> !BudgetFor(budgets[i], userId, category, month)
    ensures r.BudgetStatus? ==>
      (exists i :: 0 <= i < |budgets| && BudgetFor(budgets[i], userId, category, month) &&
                   budgets[i].amount == r.budget) &&
      r.spent == Spent(txs, userId, category, month) && r.remaining == r.budget - r.spent
  {
    match FindBudget(budgets, userId, category, month)
    case None => NoBudget
    case Some(amount) =>
      var spent := Spent(txs, userId, category, month);
      BudgetStatus(amount, spent, amount - spent)
  }

  /**
   * When every matching budget row carries the same amount (in particular
   * when only one matches), the check does not depend on which row the
   * store returns.
   */
  lemma CheckBudgetAgreeing(budgets: seq<Budget>, txs: seq<Transaction>, userId: int,
                            category: string, month: string, k: int)
    requires 0 <= k < |budgets| && BudgetFor(budgets[k], userId, category, month)
    requires forall i :: 0 <= i < |budgets| && BudgetFor(budgets[i], userId, category, month) ==>
               budgets[i].amount == budgets[k].amount
    ensures CheckBudget(budgets, txs, userId, category, month) ==
      var spent := Spent(txs, userId, category, month);
      BudgetStatus(budgets[k].amount, spent, budgets[k].amount - spent)
  {
  }
}
