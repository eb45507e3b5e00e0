/**
  `GET /accountlog/summary` (server/server.js, duplicated in server/Routes.js):
  the caller's account logs and trips dated on or after the start of the
  current month or year, their totals, the signed profit or loss, and the
  tagged rows sorted newest first.

  The store queries become filters over the full record lists (both the
  owner test and the `$gte` date test), kept in store order; "now" is a
  parameter.
*/
module Summary {
  import opened Wrappers
  import opened Models
  import opened Entries
  import Calendar
  import Sequences
  import NumberParsing

  datatype Period = Monthly | Yearly

  const InvalidPeriod: string := "Invalid period. Use \"monthly\" or \"yearly\""

  /** The `period` query parameter: absent means monthly; only the two exact names are known. */
  function ParsePeriod(query: Option<string>): (r: Result<Period>)
    ensures r.Ok? <==> query.None? || query.value == "monthly" || query.value == "yearly"
    ensures r.Ok? ==> (r.value == Yearly <==> query == Some("yearly"))
    ensures r.Err? ==> r.message == InvalidPeriod
  {
    match query
    case None => Ok(Monthly)
    case Some(p) =>
      if p == "monthly" then Ok(Monthly)
      else if p == "yearly" then Ok(Yearly)
      else Err(InvalidPeriod)
  }

  /** The first instant of the window: local midnight of day 1 of this month, or of January 1 of this year. */
  function StartDate(period: Period, now: Calendar.CivilTime): (start: int)
    requires now.Valid()
    ensures start <= Calendar.Timestamp(now)
    ensures period == Monthly ==> start == Calendar.Timestamp(Calendar.CivilTime(now.year, now.month, 1, 0))
    ensures period == Yearly ==> start == Calendar.Timestamp(Calendar.CivilTime(now.year, 1, 1, 0))
  {
    Calendar.WindowsNested(now);
    match period
    case Monthly => Calendar.MonthStart(now)
    case Yearly => Calendar.YearStart(now)
  }

  /**
    `AccountLog.find({user, date: {$gte: start}})`: every selected log, as
    often as it is stored.
  */
  function LogsInWindow(user: UserId, logs: seq<AccountLog>, start: int): (r: seq<AccountLog>)
    ensures |r| <= |logs|
    ensures forall x :: x in r <==> x in logs && x.user == user && x.date >= start
  {
    if |logs| == 0 then []
    else
      var rest := LogsInWindow(user, logs[1..], start);
      assert logs == [logs[0]] + logs[1..];
      if logs[0].user == user && logs[0].date >= start then [logs[0]] + rest else rest
  }
  /** Each selected record appears as often as it is stored, and no other record appears. */
  lemma {:induction false} LogsInWindowCounts(user: UserId, logs: seq<AccountLog>, start: int)
    ensures forall x :: multiset(LogsInWindow(user, logs, start))[x] == if x.user == user && x.date >= start then multiset(logs)[x] else 0
  {
    if |logs| > 0 {
      LogsInWindowCounts(user, logs[1..], start);
      assert logs == [logs[0]] + logs[1..];
    }
  }


  /** The selected logs keep their store order. */
  lemma {:induction false} LogsInStoreOrder(user: UserId, logs: seq<AccountLog>, start: int)
    ensures Sequences.IsSubsequence(LogsInWindow(user, logs, start), logs)
  {
    if |logs| > 0 {
      LogsInStoreOrder(user, logs[1..], start);
      var rest := LogsInWindow(user, logs[1..], start);
      if logs[0].user == user && logs[0].date >= start {
        assert ([logs[0]] + rest)[1..] == rest;
      }
    }
  }

  /**
    `Trip.find({user, time: {$gte: start}})`: every selected trip, as often
    as it is stored.
  */
  function TripsInWindow(user: UserId, trips: seq<Trip>, start: int): (r: seq<Trip>)
    ensures |r| <= |trips|
    ensures forall x :: x in r <==> x in trips && x.user == user && x.time >= start
  {
    if |trips| == 0 then []
    else
      var rest := TripsInWindow(user, trips[1..], start);
      assert trips == [trips[0]] + trips[1..];
      if trips[0].user == user && trips[0].time >= start then [trips[0]] + rest else rest
  }
  /** Each selected record appears as often as it is stored, and no other record appears. */
  lemma {:induction false} TripsInWindowCounts(user: UserId, trips: seq<Trip>, start: int)
    ensures forall x :: multiset(TripsInWindow(user, trips, start))[x] == if x.user == user && x.time >= start then multiset(trips)[x] else 0
  {
    if |trips| > 0 {
      TripsInWindowCounts(user, trips[1..], start);
      assert trips == [trips[0]] + trips[1..];
    }
  }


  /** The selected trips keep their store order. */
  lemma {:induction false} TripsInStoreOrder(user: UserId, trips: seq<Trip>, start: int)
    ensures Sequences.IsSubsequence(TripsInWindow(user, trips, start), trips)
  {
    if |trips| > 0 {
      TripsInStoreOrder(user, trips[1..], start);
      var rest := TripsInWindow(user, trips[1..], start);
      if trips[0].user == user && trips[0].time >= start {
        assert ([trips[0]] + rest)[1..] == rest;
      }
    }
  }

  /** `expenses.reduce((sum, log) => sum + log.cost, 0)`: 0 for no logs, never negative when no cost is. */
  function TotalCost(logs: seq<AccountLog>): (r: real)
    ensures |logs| == 0 ==> r == 0.0
    ensures (forall x :: x in logs ==> x.cost >= 0.0) ==> r >= 0.0
  {
    if |logs| == 0 then 0.0
    else
      assert logs[0] in logs;
      logs[0].cost + TotalCost(logs[1..])
  }

  /** `trips.reduce((sum, trip) => sum + trip.totalCharges, 0)`: 0 for no trips, never negative when no charge is. */
  function TotalCharges(trips: seq<Trip>): (r: real)
    ensures |trips| == 0 ==> r == 0.0
    ensures (forall x :: x in trips ==> x.totalCharges >= 0.0) ==> r >= 0.0
  {
    if |trips| == 0 then 0.0
    else
      assert trips[0] in trips;
      trips[0].totalCharges + TotalCharges(trips[1..])
  }

  const ExpenseKind: string := "Expense"
  const IncomeKind: string := "Income"
  const CostLabel: string := "Cost: ₹"
  const IncomeLabel: string := "Trip Income: ₹"

  /** The row of an expense: dated by the log, its details open with the label and the cost, which reads back rounded to hundredths. */
  function ExpenseRow(log: AccountLog, fmt: Format): (r: Entry)
    ensures r.date == log.date && r.kind == ExpenseKind
    ensures |r.details| > |CostLabel| && r.details[..|CostLabel|] == CostLabel
    ensures NumberParsing.ParseFloat(r.details[|CostLabel|..]) == Some(NumberParsing.RoundTo2(log.cost))
  {
    var rest := " on " + fmt.localeDate(log.date);
    var d := CostLabel + (NumberParsing.ToFixed2(log.cost) + rest);
    assert d[|CostLabel|..] == NumberParsing.ToFixed2(log.cost) + rest;
    NumberParsing.ParseToFixed2Then(log.cost, rest);
    Entry(log.date, ExpenseKind, d)
  }

  /** The row of a trip: dated by its `time`, its details open with the label and the charge, which reads back rounded to hundredths. */
  function IncomeRow(trip: Trip, fmt: Format): (r: Entry)
    ensures r.date == trip.time && r.kind == IncomeKind
    ensures |r.details| > |IncomeLabel| && r.details[..|IncomeLabel|] == IncomeLabel
    ensures NumberParsing.ParseFloat(r.details[|IncomeLabel|..]) == Some(NumberParsing.RoundTo2(trip.totalCharges))
  {
    var rest := " on " + fmt.localeDate(trip.time);
    var d := IncomeLabel + (NumberParsing.ToFixed2(trip.totalCharges) + rest);
    assert d[|IncomeLabel|..] == NumberParsing.ToFixed2(trip.totalCharges) + rest;
    NumberParsing.ParseToFixed2Then(trip.totalCharges, rest);
    Entry(trip.time, IncomeKind, d)
  }

  function ExpenseRows(logs: seq<AccountLog>, fmt: Format): (r: seq<Entry>)
    ensures |r| == |logs|
    ensures forall i :: 0 <= i < |logs| ==> r[i] == ExpenseRow(logs[i], fmt)
  {
    seq(|logs|, i requires 0 <= i < |logs| => ExpenseRow(logs[i], fmt))
  }

  function IncomeRows(trips: seq<Trip>, fmt: Format): (r: seq<Entry>)
    ensures |r| == |trips|
    ensures forall i :: 0 <= i < |trips| ==> r[i] == IncomeRow(trips[i], fmt)
  {
    seq(|trips|, i requires 0 <= i < |trips| => IncomeRow(trips[i], fmt))
  }

  datatype Totals = Totals(totalExpense: real, totalIncome: real, profitLoss: real)

  datatype SummaryView = SummaryView(logs: seq<Entry>, summary: Totals)

  /** The body of the handler once the period is known. */
  function SummarizeFrom(user: UserId, start: int, logs: seq<AccountLog>, trips: seq<Trip>, fmt: Format): SummaryView {
    var expenses := LogsInWindow(user, logs, start);
    var income := TripsInWindow(user, trips, start);
    var totalExpense := TotalCost(expenses);
    var totalIncome := TotalCharges(income);
    SummaryView(
      SortNewestFirst(ExpenseRows(expenses, fmt) + IncomeRows(income, fmt)),
      Totals(totalExpense, totalIncome, totalIncome - totalExpense))
  }

  /** `GET /accountlog/summary?period=…` for the signed-in `user`, at local time `now`. */
  function Summarize(
    user: UserId, period: Option<string>, now: Calendar.CivilTime,
    logs: seq<AccountLog>, trips: seq<Trip>, fmt: Format): (r: Result<SummaryView>)
    requires now.Valid()
    ensures r.Ok? <==> period.None? || period.value == "monthly" || period.value == "yearly"
    ensures r.Err? ==> r.message == InvalidPeriod
    ensures r.Ok? ==>
      var start := StartDate(ParsePeriod(period).value, now);
      var expenses := LogsInWindow(user, logs, start);
      var income := TripsInWindow(user, trips, start);
      && r.value.summary.totalExpense == TotalCost(expenses)
      && r.value.summary.totalIncome == TotalCharges(income)
      && r.value.summary.profitLoss == r.value.summary.totalIncome - r.value.summary.totalExpense
      && |r.value.logs| == |expenses| + |income|
      && NewestFirst(r.value.logs)
      && multiset(r.value.logs) == multiset(ExpenseRows(expenses, fmt) + IncomeRows(income, fmt))
  {
    match ParsePeriod(period)
    case Err(msg) => Err(msg)
    case Ok(p) => Ok(SummarizeFrom(user, StartDate(p, now), logs, trips, fmt))
  }

  // ---------------------------------------------------------------------------
  // Properties of the summary

  /** A request without `period` is answered as a monthly one. */
  lemma DefaultIsMonthly(user: UserId, now: Calendar.CivilTime, logs: seq<AccountLog>, trips: seq<Trip>, fmt: Format)
    requires now.Valid()
    ensures Summarize(user, None, now, logs, trips, fmt) == Summarize(user, Some("monthly"), now, logs, trips, fmt)
  {
  }

  lemma {:induction false} TotalCostConcat(a: seq<AccountLog>, b: seq<AccountLog>)
    ensures TotalCost(a + b) == TotalCost(a) + TotalCost(b)
  {
    if |a| == 0 {
      assert a + b == b;
    } else {
      assert (a + b)[1..] == a[1..] + b;
      TotalCostConcat(a[1..], b);
    }
  }

  lemma {:induction false} TotalChargesConcat(a: seq<Trip>, b: seq<Trip>)
    ensures TotalCharges(a + b) == TotalCharges(a) + TotalCharges(b)
  {
    if |a| == 0 {
      assert a + b == b;
    } else {
      assert (a + b)[1..] == a[1..] + b;
      TotalChargesConcat(a[1..], b);
    }
  }

  lemma {:induction false} LogsInWindowConcat(user: UserId, a: seq<AccountLog>, b: seq<AccountLog>, start: int)
    ensures LogsInWindow(user, a + b, start) == LogsInWindow(user, a, start) + LogsInWindow(user, b, start)
  {
    if |a| == 0 {
      assert a + b == b;
    } else {
      assert (a + b)[1..] == a[1..] + b;
      LogsInWindowConcat(user, a[1..], b, start);
    }
  }

  lemma {:induction false} TripsInWindowConcat(user: UserId, a: seq<Trip>, b: seq<Trip>, start: int)
    ensures TripsInWindow(user, a + b, start) == TripsInWindow(user, a, start) + TripsInWindow(user, b, start)
  {
    if |a| == 0 {
      assert a + b == b;
    } else {
      assert (a + b)[1..] == a[1..] + b;
      TripsInWindowConcat(user, a[1..], b, start);
    }
  }

  /** The expense total is additive over any split of the stored logs. */
  lemma ExpenseAdditive(user: UserId, a: seq<AccountLog>, b: seq<AccountLog>, start: int)
    ensures TotalCost(LogsInWindow(user, a + b, start))
         == TotalCost(LogsInWindow(user, a, start)) + TotalCost(LogsInWindow(user, b, start))
  {
    LogsInWindowConcat(user, a, b, start);
    TotalCostConcat(LogsInWindow(user, a, start), LogsInWindow(user, b, start));
  }

  /** The income total is additive over any split of the stored trips. */
  lemma IncomeAdditive(user: UserId, a: seq<Trip>, b: seq<Trip>, start: int)
    ensures TotalCharges(TripsInWindow(user, a + b, start))
         == TotalCharges(TripsInWindow(user, a, start)) + TotalCharges(TripsInWindow(user, b, start))
  {
    TripsInWindowConcat(user, a, b, start);
    TotalChargesConcat(TripsInWindow(user, a, start), TripsInWindow(user, b, start));
  }

  /** Inserting a log the query does not select leaves the query's answer unchanged. */
  lemma LogsInWindowSkip(user: UserId, start: int, logs: seq<AccountLog>, i: nat, extra: AccountLog)
    requires i <= |logs|
    requires extra.date < start || extra.user != user
    ensures LogsInWindow(user, logs[..i] + [extra] + logs[i..], start) == LogsInWindow(user, logs, start)
  {
    var a, b := logs[..i], logs[i..];
    assert logs == a + b;
    assert LogsInWindow(user, [extra], start) == [];
    LogsInWindowConcat(user, a, [extra], start);
    assert LogsInWindow(user, a + [extra], start) == LogsInWindow(user, a, start);
    LogsInWindowConcat(user, a + [extra], b, start);
    LogsInWindowConcat(user, a, b, start);
  }

  /** Inserting a trip the query does not select leaves the query's answer unchanged. */
  lemma TripsInWindowSkip(user: UserId, start: int, trips: seq<Trip>, i: nat, extra: Trip)
    requires i <= |trips|
    requires extra.time < start || extra.user != user
    ensures TripsInWindow(user, trips[..i] + [extra] + trips[i..], start) == TripsInWindow(user, trips, start)
  {
    var a, b := trips[..i], trips[i..];
    assert trips == a + b;
    assert TripsInWindow(user, [extra], start) == [];
    TripsInWindowConcat(user, a, [extra], start);
    assert TripsInWindow(user, a + [extra], start) == TripsInWindow(user, a, start);
    TripsInWindowConcat(user, a + [extra], b, start);
    TripsInWindowConcat(user, a, b, start);
  }

  /** An account log dated before the window, or owned by someone else, changes nothing, wherever it is stored. */
  lemma OutsideLogIgnored(
    user: UserId, start: int, logs: seq<AccountLog>, i: nat, extra: AccountLog, trips: seq<Trip>, fmt: Format)
    requires i <= |logs|
    requires extra.date < start || extra.user != user
    ensures SummarizeFrom(user, start, logs[..i] + [extra] + logs[i..], trips, fmt)
         == SummarizeFrom(user, start, logs, trips, fmt)
  {
    LogsInWindowSkip(user, start, logs, i, extra);
  }

  /** A trip dated before the window, or owned by someone else, changes nothing, wherever it is stored. */
  lemma OutsideTripIgnored(
    user: UserId, start: int, logs: seq<AccountLog>, trips: seq<Trip>, i: nat, extra: Trip, fmt: Format)
    requires i <= |trips|
    requires extra.time < start || extra.user != user
    ensures SummarizeFrom(user, start, logs, trips[..i] + [extra] + trips[i..], fmt)
         == SummarizeFrom(user, start, logs, trips, fmt)
  {
    TripsInWindowSkip(user, start, trips, i, extra);
  }

  /** An account log in the window raises the expense total by its cost and lowers the profit by the same amount. */
  lemma InsideLogCounted(
    user: UserId, start: int, logs: seq<AccountLog>, i: nat, extra: AccountLog, trips: seq<Trip>, fmt: Format)
    requires i <= |logs|
    requires extra.date >= start && extra.user == user
    ensures var before := SummarizeFrom(user, start, logs, trips, fmt).summary;
            var after := SummarizeFrom(user, start, logs[..i] + [extra] + logs[i..], trips, fmt).summary;
            && after.totalExpense == before.totalExpense + extra.cost
            && after.totalIncome == before.totalIncome
            && after.profitLoss == before.profitLoss - extra.cost
  {
    assert logs[..i] + logs[i..] == logs by {
      SplitAt(logs, i);
    }
    var more := logs[..i] + [extra] + logs[i..];
    SummaryTotals(user, start, logs, trips, fmt);
    SummaryTotals(user, start, more, trips, fmt);
    ExpenseAdditive(user, logs[..i] + [extra], logs[i..], start);
    ExpenseAdditive(user, logs[..i], [extra], start);
    ExpenseAdditive(user, logs[..i], logs[i..], start);
    assert LogsInWindow(user, [extra], start) == [extra];
    assert TotalCost([extra]) == extra.cost + TotalCost([]);
  }

  lemma SplitAt(logs: seq<AccountLog>, i: nat)
    requires i <= |logs|
    ensures logs[..i] + logs[i..] == logs
  {
  }

  /** The totals of a summary are the window's cost and charge sums and their difference. */
  lemma SummaryTotals(user: UserId, start: int, logs: seq<AccountLog>, trips: seq<Trip>, fmt: Format)
    ensures var s := SummarizeFrom(user, start, logs, trips, fmt).summary;
            && s.totalExpense == TotalCost(LogsInWindow(user, logs, start))
            && s.totalIncome == TotalCharges(TripsInWindow(user, trips, start))
            && s.profitLoss == s.totalIncome - s.totalExpense
  {
  }

  /** With nothing in the window the summary is all zeros and lists nothing. */
  lemma EmptyWindow(user: UserId, start: int, logs: seq<AccountLog>, trips: seq<Trip>, fmt: Format)
    requires forall x :: x in logs ==> x.user != user || x.date < start
    requires forall x :: x in trips ==> x.user != user || x.time < start
    ensures SummarizeFrom(user, start, logs, trips, fmt) == SummaryView([], Totals(0.0, 0.0, 0.0))
  {
    NoLogsInWindow(user, logs, start);
    NoTripsInWindow(user, trips, start);
  }

  lemma {:induction false} NoLogsInWindow(user: UserId, logs: seq<AccountLog>, start: int)
    requires forall x :: x in logs ==> x.user != user || x.date < start
    ensures LogsInWindow(user, logs, start) == []
  {
    if |logs| > 0 {
      assert logs[0] in logs;
      assert forall x :: x in logs[1..] ==> x in logs;
      NoLogsInWindow(user, logs[1..], start);
    }
  }

  lemma {:induction false} NoTripsInWindow(user: UserId, trips: seq<Trip>, start: int)
    requires forall x :: x in trips ==> x.user != user || x.time < start
    ensures TripsInWindow(user, trips, start) == []
  {
    if |trips| > 0 {
      assert trips[0] in trips;
      assert forall x :: x in trips[1..] ==> x in trips;
      NoTripsInWindow(user, trips[1..], start);
    }
  }

  /** Moving the window start earlier can only add logs, so with non-negative costs the total cannot fall. */
  lemma {:induction false} EarlierStartCostsMore(user: UserId, logs: seq<AccountLog>, early: int, late: int)
    requires early <= late
    requires forall x :: x in logs ==> x.cost >= 0.0
    ensures TotalCost(LogsInWindow(user, logs, late)) <= TotalCost(LogsInWindow(user, logs, early))
  {
    if |logs| > 0 {
      assert logs[0] in logs;
      assert forall x :: x in logs[1..] ==> x in logs;
      EarlierStartCostsMore(user, logs[1..], early, late);
    }
  }

  /** Every stored cost is positive (the accountlog handler's guarantee), so the yearly expense total bounds the monthly one. */
  lemma YearlyCoversMonthly(user: UserId, now: Calendar.CivilTime, logs: seq<AccountLog>, trips: seq<Trip>, fmt: Format)
    requires now.Valid()
    requires forall x :: x in logs ==> x.cost > 0.0
    ensures Summarize(user, Some("monthly"), now, logs, trips, fmt).value.summary.totalExpense
         <= Summarize(user, Some("yearly"), now, logs, trips, fmt).value.summary.totalExpense
  {
    Calendar.WindowsNested(now);
    EarlierStartCostsMore(user, logs, StartDate(Yearly, now), StartDate(Monthly, now));
  }

  /** On a shared date the expense rows come before the income rows, each group in store order. */
  lemma TiesKeepExpensesFirst(user: UserId, start: int, logs: seq<AccountLog>, trips: seq<Trip>, fmt: Format, d: int)
    ensures DatedOn(SummarizeFrom(user, start, logs, trips, fmt).logs, d)
         == DatedOn(ExpenseRows(LogsInWindow(user, logs, start), fmt), d)
          + DatedOn(IncomeRows(TripsInWindow(user, trips, start), fmt), d)
  {
    SortTies(ExpenseRows(LogsInWindow(user, logs, start), fmt), IncomeRows(TripsInWindow(user, trips, start), fmt), d);
  }

  /** A log stamped at local time `t` counts in the monthly summary exactly when `t` falls in the month of `now` or later. */
  lemma MonthlyWindowIsCurrentMonth(user: UserId, now: Calendar.CivilTime, log: AccountLog, t: Calendar.CivilTime)
    requires now.Valid() && t.Valid()
    requires log.date == Calendar.Timestamp(t) && log.user == user
    ensures log in LogsInWindow(user, [log], StartDate(Monthly, now))
        <==> (t.year > now.year || (t.year == now.year && t.month >= now.month))
  {
    Calendar.MonthWindowExact(t, now);
  }

  /** A log stamped at local time `t` counts in the yearly summary exactly when `t` falls in the year of `now` or later. */
  lemma YearlyWindowIsCurrentYear(user: UserId, now: Calendar.CivilTime, log: AccountLog, t: Calendar.CivilTime)
    requires now.Valid() && t.Valid()
    requires log.date == Calendar.Timestamp(t) && log.user == user
    ensures log in LogsInWindow(user, [log], StartDate(Yearly, now)) <==> t.year >= now.year
  {
    Calendar.YearWindowExact(t, now);
  }
}
