# Finance ledger: a verified model of its tables and queries

The finance app is a single-user personal ledger. It keeps its data in a
SQLite file with three tables:

- `users(id, username UNIQUE, password)`;
- `transactions(id, user_id, amount, date, type, category)`;
- `budgets(id, user_id, category, amount, month)`.

On top of these tables it registers and logs in users. It adds, updates,
deletes and lists transactions. It prints monthly and yearly
income/expense/savings reports, and it checks a month's spending in a
category against a budget.

This project models that table logic in memory and proves what each SQL
statement does:

- `textorder.dfy` (module `TextOrder`): the order SQLite sorts text in (the
  BINARY collation). It proves this is a strict total order, and builds the
  strictly descending key lists that `ORDER BY ... DESC` yields.
- `schema.dfy` (module `Schema`): the row types, and how an
  `INTEGER PRIMARY KEY` gets its value (largest id + 1, or 1 when the table
  is empty). It also says which texts are stored timestamps, and gives
  `UPDATE`/`DELETE ... WHERE id = ?` on the transactions table as functions
  on the row sequence.
- `queries.dfy` (module `Queries`): the read-only SELECTs as functions over
  table contents. These are `authenticate`, `view_transactions`,
  `monthly_report`, `yearly_report` and `check_budget`.
- `database.dfy` (module `Ledger`): class `Database`, whose three fields are
  the tables. Its methods `RegisterUser`, `AddTransaction`,
  `UpdateTransaction`, `DeleteTransaction` and `SetBudget` change them in
  place. Each method states the new table and that the other two tables are
  unchanged. The invariant `Valid()` is kept throughout: ids positive and
  increasing, usernames unique, every date a timestamp.
- `scenarios.dfy` (module `Scenarios`): short sessions against a fresh
  store. They show what a caller can conclude from the methods' contracts
  and the definitions of the queries.

Modelling choices:

- Each table is a sequence of rows in rowid order, the order a table scan
  visits them in. A SELECT without ORDER BY is modelled as returning rows in
  that order (`view_transactions`, and the `fetchone()` of `authenticate`).
- The password hash is a parameter `hash: string -> string` standing for
  `hashlib.sha256(...).hexdigest()`. The clock is a parameter `now`, the
  already formatted `"%Y-%m-%d %H:%M:%S"` time. `AddTransaction` and
  `UpdateTransaction` require it to be such a timestamp (`IsTimestamp`):
  that layout, with a month, a day, an hour, a minute and a second that
  exist in the Gregorian calendar and on the clock.
- On such a timestamp, `strftime('%Y-%m', date)` and `strftime('%Y', date)`
  are its first 7 and first 4 characters. `Period(date, 7)` and
  `Period(date, 4)` are those keys.
- Amounts are Dafny `real`, so sums are exact.

`set_budget` is not an upsert: the `budgets` table has no uniqueness other
than `id` (finance_app.py:41-51), so `INSERT OR REPLACE` never replaces a
row and every call adds one. `SetBudget` appends.
`FindBudgetAfterAppend` and `Scenarios.SetBudgetTwice` show the effect when
the store returns matching rows in scan order: setting a budget again does
not change the amount `check_budget` reports.

## Model

| member | source | states |
|---|---|---|
| TextOrder.Less | finance_app.py:125 | `a` sorts before `b` exactly when it is a proper prefix of `b` or has the smaller character where the two first differ |
| TextOrder.LessIrreflexive | finance_app.py:125 | no key sorts before itself under the text order used by ORDER BY |
| TextOrder.LessAsymmetric | finance_app.py:125 | two keys are never each before the other |
| TextOrder.LessTrichotomous | finance_app.py:125 | any two keys are equal or one sorts first: the order is total |
| TextOrder.LessTransitive | finance_app.py:125 | the text order is transitive |
| TextOrder.LessAtFirstDifference | finance_app.py:125 | strings agreeing up to a position are ordered by the first differing character |
| TextOrder.InsertDescending | finance_app.py:124-125 | adding a key to a strictly descending key list keeps it strictly descending, holding exactly the old keys plus the new one (equal keys merge) |
| TextOrder.DescendingDeterminedByElements | finance_app.py:124-125 | two strictly descending key lists with the same keys are equal |
| Schema.MaxId | finance_app.py:20 | the result is at least every id in the table and is one of them, or 0 when no id is positive (so 0 for an empty table) |
| Schema.NextId | finance_app.py:30 | a new row's id is larger than every existing id and at least 1; with increasing ids it is the last id + 1 |
| Schema.IsTimestamp | finance_app.py:81 | (a predicate, no contract) holds of exactly the texts "%Y-%m-%d %H:%M:%S" makes of a point in time: the layout, a year from 1 on, a month and a day that exist in the Gregorian calendar, a valid hour, minute and second |
| Schema.NextIdKeepsRowIds | finance_app.py:44 | appending the next id keeps a table's ids positive and strictly increasing |
| Schema.UpdateRows | finance_app.py:92-96 | same length; ids and user ids kept; rows with another id unchanged; the matching row gets the new amount, type, category and date; an absent id changes nothing |
| Schema.UpdateRowsKeepsIds | finance_app.py:92-96 | the id column is the same after the update |
| Schema.NotTimestamps | finance_app.py:81 | texts with the right layout but a day or month that does not exist (31 February, 29 February 2023, 31 April, month 13) are not timestamps |
| Schema.LeapDayTimestamp | finance_app.py:81 | the last second of 29 February 2024 is a timestamp |
| Schema.DeleteRows | finance_app.py:102 | the rows kept are exactly the rows whose id differs from the deleted one, and there are no more of them than before |
| Schema.DeleteRowsAbsent | finance_app.py:102 | deleting an id no row has leaves the table unchanged |
| Schema.DeleteRowsAppend | finance_app.py:102 | deleting from a concatenation deletes from each part |
| Schema.DeleteRowsAt | finance_app.py:102 | when row k's id is unique, deleting it removes row k alone and keeps the other rows in order |
| Schema.RemoveKeepsRowIds | finance_app.py:102 | removing one id keeps an id column positive and strictly increasing |
| Schema.DeleteRowsKeepsRowIds | finance_app.py:102 | deleting keeps the transactions' ids positive and strictly increasing |
| Queries.Authenticate | finance_app.py:68-77 | None exactly when no user has both the name and the hash of the password; otherwise the id of such a user |
| Queries.AuthenticateByUsername | finance_app.py:68-77 | with unique usernames, login gives that user's id when the stored hash matches and None otherwise |
| Queries.AuthenticateAfterRegister | finance_app.py:58-77 | logging in with the name and password just registered gives the new row's id |
| Queries.ViewTransactions | finance_app.py:107-109 | the listing holds exactly the transactions of the given user, and no more rows than the table |
| Queries.ViewAfterAppend | finance_app.py:107-109 | after a row is appended, the listing is the old listing plus that row when it belongs to the user, and the old listing otherwise |
| Queries.Period | finance_app.py:119 | the key is the longest prefix of the date of at most `width` characters: its length is the smaller of the two, and it is the date's prefix of that length |
| Queries.PeriodOfTimestamp | finance_app.py:81 | on a stored timestamp the month key is its first 7 characters, the year key its first 4, and the year key is a prefix of the month key |
| Queries.SumWhere | finance_app.py:120-121 | a sum over rows that selects none is 0 |
| Queries.SumWhereAppend | finance_app.py:120-121 | appending a row adds its amount when it is selected and nothing otherwise |
| Queries.GroupTotal | finance_app.py:120-121 | a period with no row of the given type totals 0 for that type |
| Queries.OtherKindAddsNothing | finance_app.py:120-121 | a row whose type is neither 'income' nor 'expense' changes neither total |
| Queries.PeriodKeys | finance_app.py:119-125 | the keys are strictly descending and are exactly the periods of the user's transactions |
| Queries.Report | finance_app.py:117-130 | rows strictly descending by period, one per period of the user's transactions and none other, with income and expense totals and savings = income - expense |
| Queries.MonthlyReport | finance_app.py:117-130 | the same, grouped by the 7-character month key |
| Queries.YearlyReport | finance_app.py:133-146 | the same, grouped by the 4-character year key |
| Queries.PeriodsMembers | finance_app.py:117-130 | a key is among a report's periods exactly when some row carries it |
| Queries.ReportDetermined | finance_app.py:117-146 | the report's specification fixes it: two row sequences meeting it are equal |
| Queries.FindBudget | finance_app.py:159-162 | None exactly when no budget row matches user, category and month; otherwise the amount of a matching row |
| Queries.FindBudgetAfterAppend | finance_app.py:149-162 | taking rows in scan order, an appended budget is found only when no earlier row matches |
| Queries.Spent | finance_app.py:169-174 | with no expense row of the user in that category and month, the total spent is 0 |
| Queries.CheckBudget | finance_app.py:158-177 | "no budget" exactly when no budget row matches; otherwise a matching row's amount, the month's expense total in the category, and remaining = budget - spent |
| Queries.CheckBudgetAgreeing | finance_app.py:158-168 | when all matching budget rows carry the same amount, the check is determined whichever row the store returns |
| Ledger.Database.constructor | finance_app.py:8-15 | a new store has three empty tables and meets the invariant |
| Ledger.Database.RegisterUser | finance_app.py:58-65 | succeeds exactly when the name is not taken: then one user row with the next id and the hashed password is appended; otherwise nothing changes |
| Ledger.Database.AddTransaction | finance_app.py:80-87 | appends exactly one row with the next id, the given fields and the timestamp; other tables unchanged |
| Ledger.Database.UpdateTransaction | finance_app.py:90-98 | the transactions table becomes UpdateRows of the old one, stamped now; other tables unchanged |
| Ledger.Database.DeleteTransaction | finance_app.py:101-104 | the transactions table becomes DeleteRows of the old one; other tables unchanged |
| Ledger.Database.SetBudget | finance_app.py:149-155 | appends one budget row with the next id and removes none; other tables unchanged |
| Scenarios.RegisterTwice | finance_app.py:58-65 | registering one name twice succeeds, then is refused, leaving one user row |
| Scenarios.LoginAfterRegister | finance_app.py:68-77 | after registering, the right password logs in with id 1 and a password with a different hash fails |
| Scenarios.BudgetCheckAfterSpending | finance_app.py:158-177 | budget 200 and two expenses of 30 and 20 in that month and category give spent 50, remaining 150 |
| Scenarios.SetBudgetTwice | finance_app.py:149-162 | setting a budget twice keeps both rows, and the check still reports the first amount |
| Scenarios.MonthlyReportTwoMonths | finance_app.py:117-130 | an expense in January and an income in February give a February row, then a January row, each with 0 for the missing type |
| Scenarios.TwoMonthsReport | finance_app.py:117-130 | the monthly report of those three rows is exactly the two expected lines |
| Scenarios.TwoMonthsIsReport | finance_app.py:117-130 | those two lines meet the report's specification |
| Scenarios.TwoMonthsOrdered | finance_app.py:125 | the February line sorts before the January line in descending order |
| Scenarios.TwoMonthsKeys | finance_app.py:119-124 | the two lines carry exactly the user's month keys |
| Scenarios.TwoMonthsTotals | finance_app.py:120-121 | each line carries the income and expense totals of its month and their difference |
| Scenarios.TwoMonthsPeriods | finance_app.py:117-130 | that user's periods are exactly 2024-02 and 2024-01 |
| Scenarios.SumOfThree | finance_app.py:120-121 | a sum over three rows is the sum of the three selected amounts |

## Left out

- The SQLite connection, cursor, `commit` and `close`, and the `CREATE TABLE` statements: the tables are fields, and the constructor gives a new, empty store. Reopening a file that already holds rows is not modelled.
- `hashlib.sha256` is not modelled: `RegisterUser` and `Authenticate` take the hash function as a parameter.
- `datetime.now()` is not modelled: the formatted time is a parameter.
- Floating-point rounding of `REAL` amounts: sums are exact `real` sums.
- Amounts are finite reals. NaN and the infinities, which `float(input(...))` accepts (finance_app.py:212, 225, 249), are not modelled. SQLite stores a NaN as NULL. A NULL budget amount makes `check_budget` raise a TypeError at finance_app.py:176. A NULL income or expense total makes either report raise one at finance_app.py:129 or 145.
- `strftime` on a date that is not a real calendar timestamp is not modelled. SQLite would give NULL for such a date, or normalise it to another month. Every stored date comes from `datetime.now()`, so it is a real calendar timestamp (`IsTimestamp`, kept by `Valid()`), and on such a date `Period` is the prefix.
- Integer width of ids is not modelled; the model's ids are unbounded. Rowids past the signed 64-bit maximum are not modelled (SQLite would then pick a random unused id).
- UpdateTransaction and DeleteTransaction do not model the overflow error. An id typed at the update or delete prompt (finance_app.py:224, 234) may lie outside the signed 64-bit range. sqlite3 then cannot bind it to the UPDATE at finance_app.py:96 or the DELETE at finance_app.py:102 and raises `OverflowError`, which `main` does not catch (it catches only `ValueError`), so the program stops. `UpdateTransaction` and `DeleteTransaction` treat such an id as one no row has and leave the table unchanged.
- Foreign keys: SQLite does not enforce them unless asked, and neither does the model.
- FindBudget: the query has no ORDER BY, so the store may return any matching budget row. The body takes the first in scan order, and its contract promises only some matching row. FindBudgetAfterAppend and Scenarios.SetBudgetTwice rely on the scan-order choice.
- All of `main`: the menu loop, the prompts, `float()`/`int()` parsing and its `ValueError` handling, the login guard on menu choices, and every `print`.
