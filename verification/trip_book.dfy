/**
  The Trip Book page (client/src/pages/TripBook.js): four typed-in fields,
  a calculation that fills in the distance, the charge and the time, and a
  save that posts all seven to `/trip`.
*/
module TripBook {
  import opened Wrappers
  import opened JsValues
  import NumberParsing
  import Requests
  import Models
  import opened ClientSession

  /** The page's seven text fields; every one starts empty. */
  datatype TripForm = TripForm(
    vehicleNo: string, initialKm: string, finalKm: string, pricePerKm: string,
    kmDriven: string, totalCharges: string, time: string)

  const Blank: TripForm := TripForm("", "", "", "", "", "", "")

  const InputsRequired: string := "All input fields are required"
  const OutOfRange: string := "Numeric fields must be positive (pricePerKm must be greater than 0)"
  const FinalNotAbove: string := "Final KM must be greater than Initial KM"
  const CalculateFirst: string := "Please calculate first"
  const SaveFailedPrefix: string := "Error saving trip data: "

  /** The exact distance and charge of a calculation, before they are rounded for display. */
  datatype Charge = Charge(kmDriven: real, totalCharges: real)

  predicate InputsGiven(form: TripForm) {
    form.vehicleNo != "" && form.initialKm != "" && form.finalKm != "" && form.pricePerKm != ""
  }

  /** The three typed-in numbers parse, the readings are not negative and the price is positive. */
  predicate InRange(i: Option<real>, f: Option<real>, p: Option<real>) {
    i.Some? && i.value >= 0.0 && f.Some? && f.value >= 0.0 && p.Some? && p.value > 0.0
  }

  predicate InputsInRange(form: TripForm) {
    InRange(NumberParsing.ParseFloat(form.initialKm), NumberParsing.ParseFloat(form.finalKm), NumberParsing.ParseFloat(form.pricePerKm))
  }

  /** The value typed into `text`, or 0 when it does not parse. */
  function Typed(text: string): real {
    OrZero(NumberParsing.ParseFloat(text))
  }

  /** The checks on the parsed readings and price, and the arithmetic. */
  function ChargeFor(i: Option<real>, f: Option<real>, p: Option<real>): (r: Result<Charge>)
    ensures r.Ok? <==> InRange(i, f, p) && f.value > i.value
    ensures r == Err(FinalNotAbove) <==> InRange(i, f, p) && f.value <= i.value
    ensures r.Ok? ==> r.value.kmDriven > 0.0 && i.value + r.value.kmDriven == f.value
    ensures r.Ok? ==> r.value.totalCharges == r.value.kmDriven * p.value && r.value.totalCharges > 0.0
  {
    if !InRange(i, f, p) then Err(OutOfRange)
    else if f.value <= i.value then Err(FinalNotAbove)
    else
      PositiveProduct(f.value - i.value, p.value);
      Ok(Charge(f.value - i.value, (f.value - i.value) * p.value))
  }

  /** `handleCalculate`'s checks and arithmetic. */
  function Calculate(form: TripForm): (r: Result<Charge>)
    ensures r.Ok? <==> InputsGiven(form) && InputsInRange(form) && Typed(form.finalKm) > Typed(form.initialKm)
    ensures r == Err(InputsRequired) <==> !InputsGiven(form)
    ensures r == Err(FinalNotAbove) <==> InputsGiven(form) && InputsInRange(form) && Typed(form.finalKm) <= Typed(form.initialKm)
    ensures r.Ok? ==> r.value.kmDriven > 0.0 && Typed(form.initialKm) + r.value.kmDriven == Typed(form.finalKm)
    ensures r.Ok? ==> r.value.totalCharges > 0.0
  {
    if !InputsGiven(form) then Err(InputsRequired)
    else
      ChargeFor(NumberParsing.ParseFloat(form.initialKm), NumberParsing.ParseFloat(form.finalKm), NumberParsing.ParseFloat(form.pricePerKm))
  }

  /** The charge is positive, and dividing it by the price gives back the distance. */
  lemma ChargeRecoversDistance(i: Option<real>, f: Option<real>, p: Option<real>)
    requires ChargeFor(i, f, p).Ok?
    ensures var c := ChargeFor(i, f, p).value;
            c.totalCharges > 0.0 && c.totalCharges / p.value == c.kmDriven
  {
    var c := ChargeFor(i, f, p).value;
    PositiveProduct(c.kmDriven, p.value);
  }

  lemma PositiveProduct(a: real, b: real)
    requires a > 0.0 && b > 0.0
    ensures a * b > 0.0 && a * b / b == a
  {
  }

  /**
    The form after a calculation at the moment written `now`: the distance
    and charge as two-decimal text, the time set, the inputs untouched.
  */
  function HandleCalculate(form: TripForm, now: string): (r: Result<TripForm>)
    ensures r.Err? <==> Calculate(form).Err?
    ensures r.Err? ==> r.message == Calculate(form).message
    ensures r.Ok? ==>
      && r.value.vehicleNo == form.vehicleNo && r.value.initialKm == form.initialKm
      && r.value.finalKm == form.finalKm && r.value.pricePerKm == form.pricePerKm && r.value.time == now
    ensures r.Ok? ==>
      && NumberParsing.ParseFloat(r.value.kmDriven) == Some(NumberParsing.RoundTo2(Calculate(form).value.kmDriven))
      && NumberParsing.ParseFloat(r.value.totalCharges) == Some(NumberParsing.RoundTo2(Calculate(form).value.totalCharges))
  {
    match Calculate(form)
    case Err(m) => Err(m)
    case Ok(c) =>
      NumberParsing.ParseToFixed2(c.kmDriven);
      NumberParsing.ParseToFixed2(c.totalCharges);
      Ok(form.(kmDriven := NumberParsing.ToFixed2(c.kmDriven), totalCharges := NumberParsing.ToFixed2(c.totalCharges), time := now))
  }

  predicate AllFilled(form: TripForm) {
    InputsGiven(form) && form.kmDriven != "" && form.totalCharges != "" && form.time != ""
  }

  /** A text field as JSON: its parsed number, or `null` for NaN. */
  function Numeric(text: string): Value {
    FromParsed(NumberParsing.ParseFloat(text))
  }

  /**
    `handleSave`'s request body. `timeParsed` is what the server's date
    parser makes of the time field.
  */
  function HandleSave(hasToken: bool, form: TripForm, timeParsed: Option<int>): (r: Result<Requests.TripBody>)
    ensures r.Ok? <==> hasToken && AllFilled(form)
    ensures !hasToken ==> r == Err(NoSession)
    ensures hasToken && !AllFilled(form) ==> r == Err(CalculateFirst)
    ensures r.Ok? ==> r.value.vehicleNo == form.vehicleNo && r.value.time == DateText(form.time, timeParsed)
    ensures r.Ok? ==>
      && JsValues.ParseFloat(r.value.initialKm) == NumberParsing.ParseFloat(form.initialKm)
      && JsValues.ParseFloat(r.value.finalKm) == NumberParsing.ParseFloat(form.finalKm)
      && JsValues.ParseFloat(r.value.pricePerKm) == NumberParsing.ParseFloat(form.pricePerKm)
      && JsValues.ParseFloat(r.value.kmDriven) == NumberParsing.ParseFloat(form.kmDriven)
      && JsValues.ParseFloat(r.value.totalCharges) == NumberParsing.ParseFloat(form.totalCharges)
  {
    if !hasToken then Err(NoSession)
    else if !AllFilled(form) then Err(CalculateFirst)
    else Ok(Requests.TripBody(
      form.vehicleNo, Numeric(form.initialKm), Numeric(form.finalKm), Numeric(form.pricePerKm),
      Numeric(form.kmDriven), Numeric(form.totalCharges), DateText(form.time, timeParsed)))
  }

  /** The form once the post settles: emptied after a stored trip, otherwise as it was. */
  function AfterSave(form: TripForm, reply: Requests.Reply<Models.Trip>): (r: TripForm)
    ensures Settle(reply, SaveFailedPrefix).Cleared? ==> r == Blank
    ensures !reply.Saved? ==> r == form
  {
    if Settle(reply, SaveFailedPrefix).Cleared? then Blank else form
  }

  /**
    Right after a successful calculation (at a non-empty moment) the save
    goes ahead and posts the typed readings and price and the rounded
    distance and charge.
  */
  lemma CalculateThenSave(form: TripForm, now: string, timeParsed: Option<int>)
    requires HandleCalculate(form, now).Ok? && now != ""
    ensures var c := Calculate(form).value;
            var r := HandleSave(true, HandleCalculate(form, now).value, timeParsed);
            && r.Ok?
            && r.value.initialKm == Num(Typed(form.initialKm)) && r.value.finalKm == Num(Typed(form.finalKm))
            && r.value.pricePerKm == Num(Typed(form.pricePerKm))
            && r.value.kmDriven == Num(NumberParsing.RoundTo2(c.kmDriven))
            && r.value.totalCharges == Num(NumberParsing.RoundTo2(c.totalCharges))
  {
    var c := Calculate(form).value;
    NumberParsing.ToFixed2NonEmpty(c.kmDriven);
    NumberParsing.ToFixed2NonEmpty(c.totalCharges);
  }
}
