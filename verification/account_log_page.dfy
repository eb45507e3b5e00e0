/**
  The Account Log page (client/src/pages/AccountLog.js): adding an expense,
  choosing the summary period, and showing the profit or loss.
*/
module AccountLogPage {
  import opened Wrappers
  import opened JsValues
  import NumberParsing
  import Requests
  import Models
  import Summary
  import opened ClientSession

  datatype ExpenseForm = ExpenseForm(vehicleNo: string, reason: string, cost: string)

  const Blank: ExpenseForm := ExpenseForm("", "", "")

  const FieldsRequired: string := "All fields are required"
  const CostNotPositive: string := "Cost must be a positive number"
  const AddFailedPrefix: string := "Error adding expense: "

  /** `handleAddExpense`'s request body: the two texts and the parsed cost. */
  function HandleAddExpense(hasToken: bool, form: ExpenseForm): (r: Result<Requests.AccountLogBody>)
    ensures !hasToken ==> r == Err(NoSession)
    ensures hasToken && (form.vehicleNo == "" || form.reason == "" || form.cost == "") ==> r == Err(FieldsRequired)
    ensures r.Ok? <==>
      && hasToken && form.vehicleNo != "" && form.reason != "" && form.cost != ""
      && NumberParsing.ParseFloat(form.cost).Some? && NumberParsing.ParseFloat(form.cost).value > 0.0
    ensures r.Ok? ==>
      && r.value.vehicleNo == form.vehicleNo && r.value.reason == form.reason
      && r.value.cost == Num(NumberParsing.ParseFloat(form.cost).value)
  {
    if !hasToken then Err(NoSession)
    else if form.vehicleNo == "" || form.reason == "" || form.cost == "" then Err(FieldsRequired)
    else match NumberParsing.ParseFloat(form.cost)
      case None => Err(CostNotPositive)
      case Some(c) =>
        if c <= 0.0 then Err(CostNotPositive)
        else Ok(Requests.AccountLogBody(form.vehicleNo, form.reason, Num(c)))
  }

  /** The form once the post settles: emptied after a stored expense, otherwise as it was. */
  function AfterAdd(form: ExpenseForm, reply: Requests.Reply<Models.AccountLog>): (r: ExpenseForm)
    ensures Settle(reply, AddFailedPrefix).Cleared? ==> r == Blank
    ensures !reply.Saved? ==> r == form
  {
    if Settle(reply, AddFailedPrefix).Cleared? then Blank else form
  }

  /** The period selector's two options; monthly is preselected. */
  datatype PeriodChoice = MonthlyChoice | YearlyChoice

  const DefaultPeriod: PeriodChoice := MonthlyChoice

  /** The `period` query parameter the page sends for a choice. */
  function PeriodParam(c: PeriodChoice): string {
    match c
    case MonthlyChoice => "monthly"
    case YearlyChoice => "yearly"
  }

  /** Every choice is a period the server knows, and each one names its own window. */
  lemma PeriodChoicesUnderstood(c: PeriodChoice)
    ensures Summary.ParsePeriod(Some(PeriodParam(c))).Ok?
    ensures Summary.ParsePeriod(Some(PeriodParam(c))).value == (if c == MonthlyChoice then Summary.Monthly else Summary.Yearly)
    ensures Summary.ParsePeriod(Some(PeriodParam(DefaultPeriod))) == Summary.ParsePeriod(None)
  {
  }

  /** The profit/loss line: which word is shown and the amount shown after it. */
  datatype Standing = Profit(amount: real) | Loss(amount: real)

  /** The signed figure a standing line stands for. */
  function StandingValue(s: Standing): real {
    match s
    case Profit(a) => a
    case Loss(a) => -a
  }

  /** "Profit" with the figure when it is not negative, otherwise "Loss" with its absolute value. */
  function ShowProfitLoss(profitLoss: real): (s: Standing)
    ensures s.amount >= 0.0
    ensures s.Profit? <==> profitLoss >= 0.0
    ensures StandingValue(s) == profitLoss
  {
    if profitLoss >= 0.0 then Profit(profitLoss) else Loss(-profitLoss)
  }

  /** A zero balance is shown as a profit, and the shown figure is the distance from break-even. */
  lemma StandingOfTotals(t: Summary.Totals)
    requires t.profitLoss == t.totalIncome - t.totalExpense
    ensures ShowProfitLoss(t.profitLoss).Profit? <==> t.totalIncome >= t.totalExpense
    ensures ShowProfitLoss(t.profitLoss).amount == if t.totalIncome >= t.totalExpense then t.totalIncome - t.totalExpense else t.totalExpense - t.totalIncome
  {
  }

  /**
    The server sends `profitLoss.toFixed(2)` and the page tests that text
    parsed back: a loss of less than half a cent is shown as a profit, and
    the shown standing is the balance rounded to hundredths.
  */
  lemma ShownStanding(profitLoss: real)
    ensures var parsed := NumberParsing.ParseFloat(NumberParsing.ToFixed2(profitLoss));
            && parsed.Some?
            && (ShowProfitLoss(parsed.value).Profit? <==> profitLoss > -0.005)
            && StandingValue(ShowProfitLoss(parsed.value)) == NumberParsing.RoundTo2(profitLoss)
  {
    NumberParsing.ParseToFixed2(profitLoss);
  }
}
