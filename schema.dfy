/**
 * The three tables of the ledger's store, as rows held in memory, with the
 * row-level rules the store applies to them: how a new row's id is chosen,
 * what a stored timestamp looks like, and what the transactions table's
 * UPDATE ... WHERE id = ? and DELETE ... WHERE id = ? statements do to it.
 *
 * Each table is a sequence of rows in rowid order, the order a full table
 * scan visits them in.
 */
module Schema {

  /** A row of `users`: `username` is UNIQUE, `password` holds the hash. */
  datatype User = User(id: int, username: string, password: string)

  /** A row of `transactions`; `kind` is the `type` column. */
  datatype Transaction = Transaction(
    id: int, userId: int, amount: real, date: string, kind: string, category: string)

  /** A row of `budgets`; nothing but `id` is unique. */
  datatype Budget = Budget(id: int, userId: int, category: string, amount: real, month: string)

  /** The UNIQUE constraint on `users.username`. */
  ghost predicate DistinctUsernames(users: seq<User>)
  {
    forall i, j :: 0 <= i < j < |users| ==> users[i].username != users[j].username
  }

  predicate UsernameTaken(users: seq<User>, username: string)
  {
    exists i :: 0 <= i < |users| && users[i].username == username
  }

  function UserId(u: User): int { u.id }
  function TransactionId(t: Transaction): int { t.id }
  function BudgetId(b: Budget): int { b.id }

  /** The id column of a table, in scan order. */
  function Ids<R>(rows: seq<R>, id: R -> int): (ids: seq<int>)
    ensures |ids| == |rows| && forall i :: 0 <= i < |rows| ==> ids[i] == id(rows[i])
  {
    seq(|rows|, i requires 0 <= i < |rows| => id(rows[i]))
  }

  /** Ids as the store hands them out: positive, and increasing in scan order. */
  ghost predicate RowIds(ids: seq<int>)
  {
    (forall i :: 0 <= i < |ids| ==> 1 <= ids[i]) &&
    (forall i, j :: 0 <= i < j < |ids| ==> ids[i] < ids[j])
  }

  /** The largest id in the table, or 0 for an empty table. */
  function MaxId(ids: seq<int>): (m: int)
    ensures 0 <= m
    ensures forall i :: 0 <= i < |ids| ==> ids[i] <= m
    ensures m == 0 || exists i :: 0 <= i < |ids| && ids[i] == m
  {
    if ids == [] then 0
    else
      var rest := MaxId(ids[1..]);
      assert forall i :: 0 <= i < |ids[1..]| ==> ids[1..][i] == ids[i + 1];
      if ids[0] >= rest then ids[0] else rest
  }

  /**
   * The id an `INTEGER PRIMARY KEY` column gets when an INSERT leaves it
   * out: one more than the largest id in the table, or 1 when the table is
   * empty (ids are at least 1, so both are MaxId + 1).
   */
  function NextId(ids: seq<int>): (n: int)
    ensures 1 <= n
    ensures forall i :: 0 <= i < |ids| ==> ids[i] < n
    ensures RowIds(ids) && ids != [] ==> n == ids[|ids| - 1] + 1
  {
    MaxId(ids) + 1
  }

  /** Appending a row with the next id keeps the ids positive and increasing. */
  lemma NextIdKeepsRowIds(ids: seq<int>)
    requires RowIds(ids)
    ensures RowIds(ids + [NextId(ids)])
  {
  }

  predicate IsDigit(c: char)
  {
    '0' <= c <= '9'
  }

  /** The value of the two-digit field `s[i..i + 2]`. */
  function TwoDigits(s: string, i: nat): int
    requires i + 1 < |s| && IsDigit(s[i]) && IsDigit(s[i + 1])
  {
    10 * (s[i] as int - '0' as int) + (s[i + 1] as int - '0' as int)
  }

  predicate IsLeapYear(y: int)
  {
    y % 4 == 0 && (y % 100 != 0 || y % 400 == 0)
  }

  /** The number of days of month `m` in year `y` of the Gregorian calendar. */
  function DaysInMonth(y: int, m: int): int
    requires 1 <= m <= 12
  {
    if m == 2 then (if IsLeapYear(y) then 29 else 28)
    else if m == 4 || m == 6 || m == 9 || m == 11 then 30
    else 31
  }

  /**
   * "YYYY-MM-DD HH:MM:SS", nineteen characters, laid out as the format
   * "%Y-%m-%d %H:%M:%S" lays out a point in time.
   */
  predicate IsTimestampShape(s: string)
  {
    |s| == 19 &&
    IsDigit(s[0]) && IsDigit(s[1]) && IsDigit(s[2]) && IsDigit(s[3]) && s[4] == '-' &&
    IsDigit(s[5]) && IsDigit(s[6]) && s[7] == '-' &&
    IsDigit(s[8]) && IsDigit(s[9]) && s[10] == ' ' &&
    IsDigit(s[11]) && IsDigit(s[12]) && s[13] == ':' &&
    IsDigit(s[14]) && IsDigit(s[15]) && s[16] == ':' &&
    IsDigit(s[17]) && IsDigit(s[18])
  }

  /**
   * A timestamp as "%Y-%m-%d %H:%M:%S" formats the current time: the
   * layout above, with a year from 1 on, a month and a day that exist in
   * the Gregorian calendar, an hour below 24 and minutes and seconds
   * below 60.
   */
  predicate IsTimestamp(s: string)
  {
    IsTimestampShape(s) &&
    1 <= 100 * TwoDigits(s, 0) + TwoDigits(s, 2) &&
    1 <= TwoDigits(s, 5) <= 12 &&
    1 <= TwoDigits(s, 8) <= DaysInMonth(100 * TwoDigits(s, 0) + TwoDigits(s, 2), TwoDigits(s, 5)) &&
    TwoDigits(s, 11) < 24 && TwoDigits(s, 14) < 60 && TwoDigits(s, 17) < 60
  }

  /**
   * A shape-correct text naming a day that does not exist, or a month
   * beyond December, is not a timestamp.
   */
  lemma NotTimestamps()
    ensures !IsTimestamp("2024-02-31 00:00:00") && !IsTimestamp("2023-02-29 12:00:00")
    ensures !IsTimestamp("2024-13-01 00:00:00") && !IsTimestamp("2024-04-31 00:00:00")
  {
  }

  /** The last second of a leap day is a timestamp. */
  lemma LeapDayTimestamp()
    ensures IsTimestamp("2024-02-29 23:59:59")
  {
  }

  /**
   * UPDATE transactions SET amount, type, category, date WHERE id = `id`:
   * the rows whose id matches get the four new values, every other row and
   * every other column is kept.
   */
  function UpdateRows(txs: seq<Transaction>, id: int, amount: real, kind: string, category: string,
                      date: string): (r: seq<Transaction>)
    ensures |r| == |txs|
    ensures forall i :: 0 <= i < |txs| ==> r[i].id == txs[i].id && r[i].userId == txs[i].userId
    ensures forall i :: 0 <= i < |txs| && txs[i].id != id ==> r[i] == txs[i]
    ensures forall i :: 0 <= i < |txs| && txs[i].id == id ==>
              r[i].amount == amount && r[i].kind == kind && r[i].category == category && r[i].date == date
    ensures (forall i :: 0 <= i < |txs| ==> txs[i].id != id) ==> r == txs
  {
    if txs == [] then []
    else
      var head := if txs[0].id == id
        then txs[0].(amount := amount, kind := kind, category := category, date := date)
        else txs[0];
      [head] + UpdateRows(txs[1..], id, amount, kind, category, date)
  }

  /**
   * DELETE FROM transactions WHERE id = `id`: exactly the rows with that id
   * go, the others stay in their order.
   */
  function DeleteRows(txs: seq<Transaction>, id: int): (r: seq<Transaction>)
    ensures |r| <= |txs|
    ensures forall t :: t in r <==> t in txs && t.id != id
  {
    if txs == [] then []
    else
      assert txs == [txs[0]] + txs[1..];
      if txs[0].id == id then DeleteRows(txs[1..], id)
      else [txs[0]] + DeleteRows(txs[1..], id)
  }

  /** Deleting an id no row has changes nothing. */
  lemma {:induction false} DeleteRowsAbsent(txs: seq<Transaction>, id: int)
    requires forall i :: 0 <= i < |txs| ==> txs[i].id != id
    ensures DeleteRows(txs, id) == txs
  {
    if txs != [] {
      assert forall i :: 0 <= i < |txs[1..]| ==> txs[1..][i] == txs[i + 1];
      DeleteRowsAbsent(txs[1..], id);
    }
  }

  /** Deleting distributes over concatenation. */
  lemma {:induction false} DeleteRowsAppend(a: seq<Transaction>, b: seq<Transaction>, id: int)
    ensures DeleteRows(a + b, id) == DeleteRows(a, id) + DeleteRows(b, id)
  {
    if a != [] {
      assert (a + b)[1..] == a[1..] + b;
      DeleteRowsAppend(a[1..], b, id);
    } else {
      assert a + b == b;
    }
  }

  /**
   * When no other row shares the id of row `k`, deleting that id removes
   * row `k` and no other, and keeps the rest in order.
   */
  lemma {:induction false} DeleteRowsAt(txs: seq<Transaction>, k: int)
    requires 0 <= k < |txs|
    requires forall i :: 0 <= i < |txs| && i != k ==> txs[i].id != txs[k].id
    ensures DeleteRows(txs, txs[k].id) == txs[..k] + txs[k + 1..]
  {
    var id := txs[k].id;
    var before, rest := txs[..k], txs[k..];
    DeleteRowsAbsentPart(txs, 0, k, id);
    DeleteRowsDropsFirst(rest, id);
    assert txs == before + rest;
    DeleteRowsAppend(before, rest, id);
    assert rest[1..] == txs[k + 1..];
  }

  /** The rows `txs[lo..hi]` do not carry `id`, so deleting it keeps them all. */
  lemma DeleteRowsAbsentPart(txs: seq<Transaction>, lo: int, hi: int, id: int)
    requires 0 <= lo <= hi <= |txs|
    requires forall i :: lo <= i < hi ==> txs[i].id != id
    ensures DeleteRows(txs[lo..hi], id) == txs[lo..hi]
  {
    var part := txs[lo..hi];
    assert forall i :: 0 <= i < |part| ==> part[i] == txs[lo + i];
    DeleteRowsAbsent(part, id);
  }

  /** When only the first row carries `id`, deleting it removes just that row. */
  lemma DeleteRowsDropsFirst(rows: seq<Transaction>, id: int)
    requires rows != [] && rows[0].id == id
    requires forall i :: 0 < i < |rows| ==> rows[i].id != id
    ensures DeleteRows(rows, id) == rows[1..]
  {
    DeleteRowsAbsentPart(rows, 1, |rows|, id);
    assert rows[1..|rows|] == rows[1..];
  }

  /** Removing one id keeps a column of ids positive and increasing. */
  lemma RemoveKeepsRowIds(ids: seq<int>, k: int)
    requires RowIds(ids) && 0 <= k < |ids|
    ensures RowIds(ids[..k] + ids[k + 1..])
  {
    var r := ids[..k] + ids[k + 1..];
    assert forall i :: 0 <= i < |r| ==> r[i] == if i < k then ids[i] else ids[i + 1];
  }

  /** Deleting keeps the table's ids positive and increasing. */
  lemma DeleteRowsKeepsRowIds(txs: seq<Transaction>, id: int)
    requires RowIds(Ids(txs, TransactionId))
    ensures RowIds(Ids(DeleteRows(txs, id), TransactionId))
  {
    var ids := Ids(txs, TransactionId);
    if k :| 0 <= k < |txs| && txs[k].id == id {
      assert forall i :: 0 <= i < |txs| && i != k ==> txs[i].id != txs[k].id by {
        forall i | 0 <= i < |txs| && i != k ensures txs[i].id != txs[k].id {
          assert ids[i] != ids[k];
        }
      }
      DeleteRowsAt(txs, k);
      assert Ids(txs[..k] + txs[k + 1..], TransactionId) == ids[..k] + ids[k + 1..];
      RemoveKeepsRowIds(ids, k);
    } else {
      DeleteRowsAbsent(txs, id);
    }
  }

  /** Updating keeps every id in place, so the ids stay positive and increasing. */
  lemma UpdateRowsKeepsIds(txs: seq<Transaction>, id: int, amount: real, kind: string,
                           category: string, date: string)
    ensures Ids(UpdateRows(txs, id, amount, kind, category, date), TransactionId) == Ids(txs, TransactionId)
  {
  }
}
