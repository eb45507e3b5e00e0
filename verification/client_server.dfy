/**
  The client pages against the running router (server/server.js): what the
  server does with the body each page posts right after it computed it.
*/
module ClientServer {
  import opened Wrappers
  import opened JsValues
  import NumberParsing
  import Models
  import Entries
  import Text
  import Calendar
  import Requests
  import Summary
  import History
  import HistoryPage
  import TripBook
  import MileageCalculator
  import AccountLogPage

  /** Every expense the page lets through is stored, with the cost the page parsed. */
  lemma ExpenseAccepted(form: AccountLogPage.ExpenseForm, user: Models.UserId, now: int)
    requires AccountLogPage.HandleAddExpense(true, form).Ok?
    ensures var r := Requests.PostAccountLog(user, AccountLogPage.HandleAddExpense(true, form).value, now);
            && r.Saved?
            && r.record == Models.AccountLog(user, form.vehicleNo, form.reason, NumberParsing.ParseFloat(form.cost).value, now)
  {
    Requests.AccountLogAcceptSet(user, AccountLogPage.HandleAddExpense(true, form).value, now);
  }

  /**
    A trip calculated by the page is stored exactly when the server can read
    the time, the start reading is not 0, and neither the distance nor the
    charge rounds to 0.00.
  */
  lemma TripAcceptedIff(form: TripBook.TripForm, now: string, timeParsed: Option<int>, user: Models.UserId)
    requires TripBook.HandleCalculate(form, now).Ok? && now != ""
    ensures TripBook.HandleSave(true, TripBook.HandleCalculate(form, now).value, timeParsed).Ok?
    ensures var c := TripBook.Calculate(form).value;
            var body := TripBook.HandleSave(true, TripBook.HandleCalculate(form, now).value, timeParsed).value;
            Requests.PostTrip(user, body).Saved? <==>
              && timeParsed.Some?
              && TripBook.Typed(form.initialKm) != 0.0
              && c.kmDriven >= 0.005 && c.totalCharges >= 0.005
  {
    TripBook.CalculateThenSave(form, now, timeParsed);
    var body := TripBook.HandleSave(true, TripBook.HandleCalculate(form, now).value, timeParsed).value;
    Requests.TripAcceptSet(user, body);
  }

  /**
    A reading calculated by the page is stored by the running router exactly
    when its km per litre does not round to 0.00; in particular equal
    odometer readings, which the page accepts, are refused.
  */
  lemma MileageAcceptedIff(form: MileageCalculator.MileageForm, nowText: string, now: int, user: Models.UserId)
    requires MileageCalculator.HandleCalculate(form).1 == "" && nowText != ""
    requires NumberParsing.ParseFloat(form.initialKm).Some? && NumberParsing.ParseFloat(form.finalKm).Some?
    requires NumberParsing.ParseFloat(form.fuelUsed).Some?
    ensures MileageCalculator.HandleSave(true, MileageCalculator.HandleCalculate(form).0, nowText, now).Ok?
    ensures var body := MileageCalculator.HandleSave(true, MileageCalculator.HandleCalculate(form).0, nowText, now).value;
            var r := Requests.PostMileage(user, body);
            && (r.Saved? <==> MileageCalculator.Efficiency(form).value >= 0.005)
            && (!r.Saved? ==> r == Requests.BadRequest(Requests.MileageOutOfRange))
  {
    MileageCalculator.SaveAfterCalculate(form, nowText, now);
    var body := MileageCalculator.HandleSave(true, MileageCalculator.HandleCalculate(form).0, nowText, now).value;
    Requests.MileageReadingStored(user, body);
  }

  /** Equal start and end readings give a mileage of 0, which the running router refuses. */
  lemma EqualReadingsRefused(form: MileageCalculator.MileageForm, nowText: string, now: int, user: Models.UserId)
    requires MileageCalculator.HandleCalculate(form).1 == "" && nowText != ""
    requires NumberParsing.ParseFloat(form.initialKm).Some? && NumberParsing.ParseFloat(form.finalKm).Some?
    requires NumberParsing.ParseFloat(form.fuelUsed).Some?
    requires NumberParsing.ParseFloat(form.initialKm) == NumberParsing.ParseFloat(form.finalKm)
    ensures var body := MileageCalculator.HandleSave(true, MileageCalculator.HandleCalculate(form).0, nowText, now).value;
            Requests.PostMileage(user, body) == Requests.BadRequest(Requests.MileageOutOfRange)
  {
    MileageAcceptedIff(form, nowText, now, user);
  }

  /** Both period choices of the page get a summary. */
  lemma ChoicesAlwaysSummarized(
    c: AccountLogPage.PeriodChoice, user: Models.UserId, now: Calendar.CivilTime,
    logs: seq<Models.AccountLog>, trips: seq<Models.Trip>, fmt: Entries.Format)
    requires now.Valid()
    ensures Summary.Summarize(user, Some(AccountLogPage.PeriodParam(c)), now, logs, trips, fmt).Ok?
  {
    AccountLogPage.PeriodChoicesUnderstood(c);
  }

  /**
    The History page shows, newest first, exactly the signed-in user's rows
    of the chosen type whose details mention the query: every row shown is
    such a row, and every owned reading or trip of the queried vehicle (in
    any letter case) and of that type is shown.
  */
  lemma ViewedHistory(
    user: Models.UserId, mileage: seq<Models.Mileage>, trips: seq<Models.Trip>, fmt: Entries.Format,
    vehicleNo: string, t: HistoryPage.HistoryType)
    requires vehicleNo != ""
    ensures var r := HistoryPage.HandleView(true, vehicleNo, t, History.BuildHistory(user, mileage, trips, fmt));
            && r.Ok?
            && Entries.NewestFirst(r.value)
            && (forall e :: e in r.value ==>
                  && e in History.BuildHistory(user, mileage, trips, fmt)
                  && e.kind == HistoryPage.TypeTag(t)
                  && Text.Contains(Text.Lower(e.details), Text.Lower(vehicleNo)))
            && (t == HistoryPage.MileageHistory ==>
                  forall m :: m in mileage && m.user == user && Text.Lower(m.vehicleNo) == Text.Lower(vehicleNo)
                    ==> History.MileageRow(m, fmt) in r.value)
            && (t == HistoryPage.TripHistory ==>
                  forall tr :: tr in trips && tr.user == user && Text.Lower(tr.vehicleNo) == Text.Lower(vehicleNo)
                    ==> History.TripRow(tr, fmt) in r.value)
  {
    var h := History.BuildHistory(user, mileage, trips, fmt);
    HistoryPage.FilterKeepsOrder(h, vehicleNo, t);
    ViewedMileage(user, mileage, trips, fmt, vehicleNo);
    ViewedTrips(user, mileage, trips, fmt, vehicleNo);
  }

  lemma ViewedMileage(
    user: Models.UserId, mileage: seq<Models.Mileage>, trips: seq<Models.Trip>, fmt: Entries.Format, vehicleNo: string)
    ensures forall m :: m in mileage && m.user == user && Text.Lower(m.vehicleNo) == Text.Lower(vehicleNo)
              ==> History.MileageRow(m, fmt)
                  in HistoryPage.FilterHistory(History.BuildHistory(user, mileage, trips, fmt), vehicleNo, HistoryPage.MileageHistory)
  {
    var h := History.BuildHistory(user, mileage, trips, fmt);
    forall m | m in mileage && m.user == user && Text.Lower(m.vehicleNo) == Text.Lower(vehicleNo)
      ensures History.MileageRow(m, fmt) in HistoryPage.FilterHistory(h, vehicleNo, HistoryPage.MileageHistory)
    {
      History.MileageInHistory(user, mileage, trips, fmt, m);
      assert History.MileageRow(m, fmt) in multiset(h);
      HistoryPage.OwnMileageKept(h, vehicleNo, m, fmt);
    }
  }

  lemma ViewedTrips(
    user: Models.UserId, mileage: seq<Models.Mileage>, trips: seq<Models.Trip>, fmt: Entries.Format, vehicleNo: string)
    ensures forall tr :: tr in trips && tr.user == user && Text.Lower(tr.vehicleNo) == Text.Lower(vehicleNo)
              ==> History.TripRow(tr, fmt)
                  in HistoryPage.FilterHistory(History.BuildHistory(user, mileage, trips, fmt), vehicleNo, HistoryPage.TripHistory)
  {
    var h := History.BuildHistory(user, mileage, trips, fmt);
    forall tr | tr in trips && tr.user == user && Text.Lower(tr.vehicleNo) == Text.Lower(vehicleNo)
      ensures History.TripRow(tr, fmt) in HistoryPage.FilterHistory(h, vehicleNo, HistoryPage.TripHistory)
    {
      History.TripInHistory(user, mileage, trips, fmt, tr);
      assert History.TripRow(tr, fmt) in multiset(h);
      HistoryPage.OwnTripKept(h, vehicleNo, tr, fmt);
    }
  }
}
