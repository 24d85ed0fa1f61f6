/**
 * Short sessions against a fresh store, each checking what a caller can
 * conclude from the contracts of the store's methods and the definitions
 * of the queries.
 */
module Scenarios {
  import opened Schema
  import opened Queries
  import opened Ledger
  import opened TextOrder

  /** The same username registered twice: the first succeeds, the second is refused. */
  method RegisterTwice(hash: string -> string) returns (first: bool, second: bool, users: seq<User>)
    ensures first && !second
    ensures |users| == 1 && users[0] == User(1, "alice", hash("secret"))
  {
    var db := new Database();
    first := db.RegisterUser("alice", "secret", hash);
    second := db.RegisterUser("alice", "other", hash);
    assert UsernameTaken(db.users, "alice") by { assert db.users[0].username == "alice"; }
    users := db.users;
  }

  /** A wrong password after registering is refused, the right one gives the new id. */
  method LoginAfterRegister(hash: string -> string) returns (good: Option<int>, bad: Option<int>)
    requires hash("secret") != hash("guess")
    ensures good == Some(1) && bad == None
  {
    var db := new Database();
    var ok := db.RegisterUser("alice", "secret", hash);
    good := Authenticate(db.users, "alice", "secret", hash);
    bad := Authenticate(db.users, "alice", "guess", hash);
  }

  /**
   * A budget of 200 for "food" in 2024-01 and two food expenses of that
   * month, stamped at the two times given, totalling 50: the check reports
   * budget 200, spent 50, remaining 150.
   */
  method BudgetCheckAfterSpending(now1: string, now2: string) returns (r: BudgetReport)
    requires IsTimestamp(now1) && now1[..7] == "2024-01"
    requires IsTimestamp(now2) && now2[..7] == "2024-01"
    ensures r == BudgetStatus(200.0, 50.0, 150.0)
  {
    var db := new Database();
    db.SetBudget(1, 200.0, "food", "2024-01");
    db.AddTransaction(1, 30.0, "expense", "food", now1);
    db.AddTransaction(1, 20.0, "expense", "food", now2);
    var txs := db.transactions;
    assert Spent(txs, 1, "food", "2024-01") == 50.0 by {
      var keep := t => Spending(t, 1, "food", "2024-01");
      assert keep(txs[0]) && keep(txs[1]);
      SumWhereAppend([], txs[0], keep);
      assert [] + [txs[0]] == [txs[0]] && [txs[0]] + [txs[1]] == txs;
      SumWhereAppend([txs[0]], txs[1], keep);
    }
    r := CheckBudget(db.budgets, txs, 1, "food", "2024-01");
  }

  /**
   * Setting the budget of the same user, category and month twice keeps
   * both rows, and the check still reports the first amount.
   */
  method SetBudgetTwice() returns (rows: seq<Budget>, r: BudgetReport)
    ensures |rows| == 2 && rows[0].amount == 200.0 && rows[1].amount == 300.0
    ensures r == BudgetStatus(200.0, 0.0, 200.0)
  {
    var db := new Database();
    db.SetBudget(1, 200.0, "food", "2024-01");
    db.SetBudget(1, 300.0, "food", "2024-01");
    rows := db.budgets;
    FindBudgetAfterAppend(rows[..1], rows[1], 1, "food", "2024-01");
    assert rows == rows[..1] + [rows[1]];
    r := CheckBudget(rows, db.transactions, 1, "food", "2024-01");
  }

  /**
   * An expense in January and an income in February, with another user's
   * row beside them: the monthly report has February first, then January,
   * each with 0 for the type it lacks.
   */
  method MonthlyReportTwoMonths(jan: string, feb: string) returns (rows: seq<ReportRow>)
    requires IsTimestamp(jan) && jan[..7] == "2024-01"
    requires IsTimestamp(feb) && feb[..7] == "2024-02"
    ensures rows == [ReportRow("2024-02", 100.0, 0.0, 100.0), ReportRow("2024-01", 0.0, 40.0, -40.0)]
  {
    var db := new Database();
    db.AddTransaction(1, 40.0, "expense", "rent", jan);
    db.AddTransaction(1, 100.0, "income", "salary", feb);
    db.AddTransaction(2, 7.0, "income", "gift", feb);
    TwoMonthsReport(db.transactions, jan, feb);
    rows := MonthlyReport(db.transactions, 1);
  }

  lemma {:induction false} TwoMonthsReport(txs: seq<Transaction>, jan: string, feb: string)
    requires |jan| == 19 && jan[..7] == "2024-01" && |feb| == 19 && feb[..7] == "2024-02"
    requires |txs| == 3
    requires txs[0].userId == 1 && txs[0].amount == 40.0 && txs[0].date == jan && txs[0].kind == Expense
    requires txs[1].userId == 1 && txs[1].amount == 100.0 && txs[1].date == feb && txs[1].kind == Income
    requires txs[2].userId == 2
    ensures MonthlyReport(txs, 1) ==
      [ReportRow("2024-02", 100.0, 0.0, 100.0), ReportRow("2024-01", 0.0, 40.0, -40.0)]
  {
    var expected := [ReportRow("2024-02", 100.0, 0.0, 100.0), ReportRow("2024-01", 0.0, 40.0, -40.0)];
    TwoMonthsIsReport(txs, jan, feb, expected);
    ReportDetermined(txs, 1, 7, MonthlyReport(txs, 1), expected);
  }

  lemma {:induction false} TwoMonthsIsReport(txs: seq<Transaction>, jan: string, feb: string,
                                             expected: seq<ReportRow>)
    requires |jan| == 19 && jan[..7] == "2024-01" && |feb| == 19 && feb[..7] == "2024-02"
    requires |txs| == 3
    requires txs[0].userId == 1 && txs[0].amount == 40.0 && txs[0].date == jan && txs[0].kind == Expense
    requires txs[1].userId == 1 && txs[1].amount == 100.0 && txs[1].date == feb && txs[1].kind == Income
    requires txs[2].userId == 2
    requires expected == [ReportRow("2024-02", 100.0, 0.0, 100.0), ReportRow("2024-01", 0.0, 40.0, -40.0)]
    ensures IsReport(txs, 1, 7, expected)
  {
    TwoMonthsOrdered(expected);
    TwoMonthsKeys(txs, jan, feb, expected);
    TwoMonthsTotals(txs, jan, feb, expected);
  }

  lemma TwoMonthsOrdered(expected: seq<ReportRow>)
    requires |expected| == 2 && expected[0].period == "2024-02" && expected[1].period == "2024-01"
    ensures forall i, j :: 0 <= i < j < |expected| ==> Less(expected[j].period, expected[i].period)
  {
    assert "2024-01"[..6] == "2024-02"[..6];
    LessAtFirstDifference("2024-01", "2024-02", 6);
  }

  lemma TwoMonthsKeys(txs: seq<Transaction>, jan: string, feb: string, expected: seq<ReportRow>)
    requires |jan| == 19 && jan[..7] == "2024-01" && |feb| == 19 && feb[..7] == "2024-02"
    requires |txs| == 3
    requires txs[0].userId == 1 && txs[0].amount == 40.0 && txs[0].date == jan && txs[0].kind == Expense
    requires txs[1].userId == 1 && txs[1].amount == 100.0 && txs[1].date == feb && txs[1].kind == Income
    requires txs[2].userId == 2
    requires expected == [ReportRow("2024-02", 100.0, 0.0, 100.0), ReportRow("2024-01", 0.0, 40.0, -40.0)]
    ensures forall k :: (exists i :: 0 <= i < |expected| && expected[i].period == k) <==> UserHasPeriod(txs, 1, 7, k)
  {
    assert Period(jan, 7) == "2024-01" && Period(feb, 7) == "2024-02";
    forall k ensures (exists i :: 0 <= i < |expected| && expected[i].period == k) <==> UserHasPeriod(txs, 1, 7, k) {
      TwoMonthsPeriods(txs, jan, feb, k);
      assert expected[0].period == "2024-02" && expected[1].period == "2024-01";
    }
  }

  lemma {:induction false} TwoMonthsTotals(txs: seq<Transaction>, jan: string, feb: string, expected: seq<ReportRow>)
    requires |jan| == 19 && jan[..7] == "2024-01" && |feb| == 19 && feb[..7] == "2024-02"
    requires |txs| == 3
    requires txs[0].userId == 1 && txs[0].amount == 40.0 && txs[0].date == jan && txs[0].kind == Expense
    requires txs[1].userId == 1 && txs[1].amount == 100.0 && txs[1].date == feb && txs[1].kind == Income
    requires txs[2].userId == 2
    requires expected == [ReportRow("2024-02", 100.0, 0.0, 100.0), ReportRow("2024-01", 0.0, 40.0, -40.0)]
    ensures forall i :: 0 <= i < |expected| ==>
      expected[i].income == GroupTotal(txs, 1, 7, expected[i].period, Income) &&
      expected[i].expense == GroupTotal(txs, 1, 7, expected[i].period, Expense) &&
      expected[i].savings == expected[i].income - expected[i].expense
  {
    assert Period(jan, 7) == "2024-01" && Period(feb, 7) == "2024-02";
    assert GroupTotal(txs, 1, 7, "2024-02", Income) == 100.0 by {
      SumOfThree(txs, t => InGroup(t, 1, 7, "2024-02", Income));
    }
    assert GroupTotal(txs, 1, 7, "2024-02", Expense) == 0.0 by {
      SumOfThree(txs, t => InGroup(t, 1, 7, "2024-02", Expense));
    }
    assert GroupTotal(txs, 1, 7, "2024-01", Income) == 0.0 by {
      SumOfThree(txs, t => InGroup(t, 1, 7, "2024-01", Income));
    }
    assert GroupTotal(txs, 1, 7, "2024-01", Expense) == 40.0 by {
      SumOfThree(txs, t => InGroup(t, 1, 7, "2024-01", Expense));
    }
  }

  lemma TwoMonthsPeriods(txs: seq<Transaction>, jan: string, feb: string, k: string)
    requires Period(jan, 7) == "2024-01" && Period(feb, 7) == "2024-02"
    requires |txs| == 3 && txs[0].userId == 1 && txs[0].date == jan
    requires txs[1].userId == 1 && txs[1].date == feb && txs[2].userId == 2
    ensures UserHasPeriod(txs, 1, 7, k) <==> k == "2024-02" || k == "2024-01"
  {
    if UserHasPeriod(txs, 1, 7, k) {
      var i :| 0 <= i < |txs| && txs[i].userId == 1 && Period(txs[i].date, 7) == k;
      assert i < 2;
    }
    assert Period(txs[0].date, 7) == "2024-01" && Period(txs[1].date, 7) == "2024-02";
  }

  lemma {:induction false} SumOfThree(txs: seq<Transaction>, keep: Transaction -> bool)
    requires |txs| == 3
    ensures SumWhere(txs, keep) ==
      (if keep(txs[0]) then txs[0].amount else 0.0) +
      (if keep(txs[1]) then txs[1].amount else 0.0) +
      (if keep(txs[2]) then txs[2].amount else 0.0)
  {
    var t1, t2 := txs[1..], txs[2..];
    assert t1[1..] == t2 && t2[1..] == [] && t1[0] == txs[1] && t2[0] == txs[2];
    assert SumWhere(t2, keep) == (if keep(txs[2]) then txs[2].amount else 0.0) + SumWhere([], keep);
    assert SumWhere(t1, keep) == (if keep(txs[1]) then txs[1].amount else 0.0) + SumWhere(t2, keep);
  }
}
