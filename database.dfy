/**
 * The store object: the three tables as fields, and the statements that
 * change them, each a method that says what its table becomes and that
 * the other tables stay as they were.
 *
 * The password hash and the clock are not modelled: `RegisterUser` takes
 * the hash function as a parameter, and the two methods that stamp a row
 * take the formatted current time `now`.
 */
module Ledger {
  import opened Schema

  class Database {
    var users: seq<User>
    var transactions: seq<Transaction>
    var budgets: seq<Budget>

    /**
     * The store's constraints: ids as the store hands them out in every
     * table, unique usernames, and every transaction stamped with a
     * "YYYY-MM-DD HH:MM:SS" timestamp.
     */
    ghost predicate Valid()
      reads this
    {
      RowIds(Ids(users, UserId)) && DistinctUsernames(users) &&
      RowIds(Ids(transactions, TransactionId)) &&
      (forall i :: 0 <= i < |transactions| ==> IsTimestamp(transactions[i].date)) &&
      RowIds(Ids(budgets, BudgetId))
    }

    /** A freshly created store: the three CREATE TABLE statements on a new file. */
    constructor ()
      ensures Valid()
      ensures users == [] && transactions == [] && budgets == []
    {
      users, transactions, budgets := [], [], [];
    }

    /**
     * INSERT INTO users (username, hash(password)); a duplicate username
     * fails the UNIQUE constraint and the table is left as it was.
     */
    method RegisterUser(username: string, password: string, hash: string -> string)
      returns (registered: bool)
      requires Valid()
      modifies this
      ensures Valid()
      ensures registered <==> !UsernameTaken(old(users), username)
      ensures users == if registered
        then old(users) + [User(NextId(Ids(old(users), UserId)), username, hash(password))]
        else old(users)
      ensures transactions == old(transactions) && budgets == old(budgets)
    {
      registered := !UsernameTaken(users, username);
      if registered {
        var id := NextId(Ids(users, UserId));
        NextIdKeepsRowIds(Ids(users, UserId));
        assert Ids(users + [User(id, username, hash(password))], UserId) == Ids(users, UserId) + [id];
        users := users + [User(id, username, hash(password))];
      }
    }

    /** INSERT INTO transactions: one new row, stamped `now`, with a fresh id. */
    method AddTransaction(userId: int, amount: real, kind: string, category: string, now: string)
      requires Valid() && IsTimestamp(now)
      modifies this
      ensures Valid()
      ensures transactions ==
        old(transactions) + [Transaction(NextId(Ids(old(transactions), TransactionId)), userId, amount, now, kind, category)]
      ensures users == old(users) && budgets == old(budgets)
    {
      var id := NextId(Ids(transactions, TransactionId));
      var t := Transaction(id, userId, amount, now, kind, category);
      NextIdKeepsRowIds(Ids(transactions, TransactionId));
      assert Ids(transactions + [t], TransactionId) == Ids(transactions, TransactionId) + [id];
      transactions := transactions + [t];
    }

    /**
     * UPDATE transactions SET amount, type, category, date = `now` WHERE
     * id = `id`; no check that the row belongs to the caller.
     */
    method UpdateTransaction(id: int, amount: real, kind: string, category: string, now: string)
      requires Valid() && IsTimestamp(now)
      modifies this
      ensures Valid()
      ensures transactions == UpdateRows(old(transactions), id, amount, kind, category, now)
      ensures users == old(users) && budgets == old(budgets)
    {
      UpdateRowsKeepsIds(transactions, id, amount, kind, category, now);
      transactions := UpdateRows(transactions, id, amount, kind, category, now);
    }

    /** DELETE FROM transactions WHERE id = `id`; no ownership check either. */
    method DeleteTransaction(id: int)
      requires Valid()
      modifies this
      ensures Valid()
      ensures transactions == DeleteRows(old(transactions), id)
      ensures users == old(users) && budgets == old(budgets)
    {
      DeleteRowsKeepsRowIds(transactions, id);
      transactions := DeleteRows(transactions, id);
      assert forall i :: 0 <= i < |transactions| ==> transactions[i] in old(transactions);
    }

    /**
     * INSERT OR REPLACE INTO budgets: nothing but `id` is unique in that
     * table, so no row is ever replaced and every call adds one row.
     */
    method SetBudget(userId: int, amount: real, category: string, month: string)
      requires Valid()
      modifies this
      ensures Valid()
      ensures budgets == old(budgets) + [Budget(NextId(Ids(old(budgets), BudgetId)), userId, category, amount, month)]
      ensures users == old(users) && transactions == old(transactions)
    {
      var id := NextId(Ids(budgets, BudgetId));
      var b := Budget(id, userId, category, amount, month);
      NextIdKeepsRowIds(Ids(budgets, BudgetId));
      assert Ids(budgets + [b], BudgetId) == Ids(budgets, BudgetId) + [id];
      budgets := budgets + [b];
    }
  }
}
