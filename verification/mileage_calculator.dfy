/**
  The Mileage Calculator page (client/src/pages/MileageCalculator.js): km
  per litre from two odometer readings and the fuel used, and a save that
  posts the readings to `/mileage`.
*/
module MileageCalculator {
  import opened Wrappers
  import opened JsValues
  import NumberParsing
  import Requests
  import Models
  import opened ClientSession

  datatype MileageForm = MileageForm(vehicleNo: string, initialKm: string, finalKm: string, fuelUsed: string, mileage: string)

  const Blank: MileageForm := MileageForm("", "", "", "", "")

  const VehicleRequired: string := "Vehicle number is required"
  const OutOfRange: string := "Initial KM, Final KM must be non-negative, and Fuel Used must be positive"
  const FinalBelow: string := "Final KM must be greater than or equal to Initial KM"
  const CalculateFirst: string := "Please calculate mileage before saving"
  const InvalidValues: string := "All fields must be filled with valid values"
  const SaveFailedPrefix: string := "Error saving mileage: "

  /** `parseFloat(text) || 0`: a blank or unreadable field counts as 0. */
  function Typed(text: string): real {
    OrZero(NumberParsing.ParseFloat(text))
  }

  /** The checks on the three readings, and the distance per litre. */
  function KmPerLitre(initial: real, final: real, fuel: real): (r: Result<real>)
    ensures r.Ok? <==> 0.0 <= initial <= final && fuel > 0.0
    ensures r == Err(FinalBelow) <==> initial >= 0.0 && final >= 0.0 && fuel > 0.0 && final < initial
    ensures r.Ok? ==> r.value >= 0.0
    ensures r.Ok? ==> (r.value == 0.0 <==> final == initial)
  {
    if initial < 0.0 || final < 0.0 || fuel <= 0.0 then Err(OutOfRange)
    else if final < initial then Err(FinalBelow)
    else
      QuotientTimesDivisor(final - initial, fuel);
      Ok((final - initial) / fuel)
  }

  /** The figure times the fuel used gives back the distance driven. */
  lemma KmPerLitreTimesFuel(initial: real, final: real, fuel: real)
    requires KmPerLitre(initial, final, fuel).Ok?
    ensures KmPerLitre(initial, final, fuel).value * fuel == final - initial
  {
    QuotientTimesDivisor(final - initial, fuel);
  }

  lemma QuotientTimesDivisor(a: real, b: real)
    requires a >= 0.0 && b > 0.0
    ensures a / b >= 0.0 && a / b * b == a && (a / b == 0.0 <==> a == 0.0)
  {
  }

  /** `calculateMileage` without the vehicle test: the figure from the typed fields. */
  function Efficiency(form: MileageForm): Result<real> {
    if form.vehicleNo == "" then Err(VehicleRequired)
    else KmPerLitre(Typed(form.initialKm), Typed(form.finalKm), Typed(form.fuelUsed))
  }

  /**
    `calculateMileage`: the form with the mileage as two-decimal text and
    no error, or with the mileage emptied and an error.
  */
  function HandleCalculate(form: MileageForm): (r: (MileageForm, string))
    ensures r.0.vehicleNo == form.vehicleNo && r.0.initialKm == form.initialKm
         && r.0.finalKm == form.finalKm && r.0.fuelUsed == form.fuelUsed
    ensures r.1 == "" <==> form.vehicleNo != "" && KmPerLitre(Typed(form.initialKm), Typed(form.finalKm), Typed(form.fuelUsed)).Ok?
    ensures r.1 == VehicleRequired <==> form.vehicleNo == ""
    ensures r.1 != "" ==> r.0.mileage == ""
    ensures r.1 == "" ==>
      && r.0.mileage != ""
      && NumberParsing.ParseFloat(r.0.mileage) == Some(NumberParsing.RoundTo2(Efficiency(form).value))
  {
    match Efficiency(form)
    case Err(m) => (form.(mileage := ""), m)
    case Ok(v) =>
      NumberParsing.ParseToFixed2(v);
      NumberParsing.ToFixed2NonEmpty(v);
      (form.(mileage := NumberParsing.ToFixed2(v)), "")
  }

  /**
    `handleSave`'s request body at the moment written `nowText` (instant
    `now`): the readings are parsed again and the distance is their difference.
  */
  function HandleSave(hasToken: bool, form: MileageForm, nowText: string, now: int): (r: Result<Requests.MileageBody>)
    ensures !hasToken ==> r == Err(NoSession)
    ensures hasToken && form.mileage == "" ==> r == Err(CalculateFirst)
    ensures r.Ok? <==>
      && hasToken && form.mileage != "" && form.vehicleNo != ""
      && NumberParsing.ParseFloat(form.initialKm).Some? && NumberParsing.ParseFloat(form.finalKm).Some?
      && NumberParsing.ParseFloat(form.fuelUsed).Some?
    ensures r.Ok? ==>
      && r.value.vehicleNo == form.vehicleNo && r.value.date == DateText(nowText, Some(now))
      && r.value.initialKm == Num(Typed(form.initialKm)) && r.value.finalKm == Num(Typed(form.finalKm))
      && r.value.fuelUsed == Num(Typed(form.fuelUsed))
      && r.value.distance.Num? && r.value.initialKm.n + r.value.distance.n == r.value.finalKm.n
      && JsValues.ParseFloat(r.value.mileage) == NumberParsing.ParseFloat(form.mileage)
  {
    if !hasToken then Err(NoSession)
    else if form.mileage == "" then Err(CalculateFirst)
    else
      var i, f, u := NumberParsing.ParseFloat(form.initialKm), NumberParsing.ParseFloat(form.finalKm), NumberParsing.ParseFloat(form.fuelUsed);
      if form.vehicleNo == "" || i.None? || f.None? || u.None? then Err(InvalidValues)
      else Ok(Requests.MileageBody(
        form.vehicleNo, Num(i.value), Num(f.value), Num(f.value - i.value), Num(u.value),
        FromParsed(NumberParsing.ParseFloat(form.mileage)), DateText(nowText, Some(now))))
  }

  /** The form once the post settles: emptied after a stored reading, otherwise as it was. */
  function AfterSave(form: MileageForm, reply: Requests.Reply<Models.Mileage>): (r: MileageForm)
    ensures Settle(reply, SaveFailedPrefix).Cleared? ==> r == Blank
    ensures !reply.Saved? ==> r == form
  {
    if Settle(reply, SaveFailedPrefix).Cleared? then Blank else form
  }

  /**
    Saving right after a successful calculation, with all three readings
    readable, posts the typed readings, their difference and the rounded figure.
  */
  lemma SaveAfterCalculate(form: MileageForm, nowText: string, now: int)
    requires HandleCalculate(form).1 == ""
    requires NumberParsing.ParseFloat(form.initialKm).Some? && NumberParsing.ParseFloat(form.finalKm).Some?
    requires NumberParsing.ParseFloat(form.fuelUsed).Some?
    ensures var i, f, u := Typed(form.initialKm), Typed(form.finalKm), Typed(form.fuelUsed);
            var r := HandleSave(true, HandleCalculate(form).0, nowText, now);
            && r.Ok? && r.value.vehicleNo == form.vehicleNo && r.value.date == DateText(nowText, Some(now))
            && r.value.initialKm == Num(i) && r.value.finalKm == Num(f) && r.value.distance == Num(f - i)
            && r.value.fuelUsed == Num(u) && 0.0 <= i <= f && u > 0.0
            && Efficiency(form).Ok? && r.value.mileage == Num(NumberParsing.RoundTo2(Efficiency(form).value))
  {
    var v := Efficiency(form).value;
    var c := HandleCalculate(form).0;
    assert c.mileage == NumberParsing.ToFixed2(v);
    NumberParsing.ParseToFixed2(v);
    assert FromParsed(NumberParsing.ParseFloat(c.mileage)) == Num(NumberParsing.RoundTo2(v));
    assert HandleSave(true, c, nowText, now).value.mileage == Num(NumberParsing.RoundTo2(v));
  }

  /** A blank reading is accepted by the calculation as 0 but refused by the save. */
  lemma BlankReadingCalculatesButNeverSaves(form: MileageForm, nowText: string, now: int)
    requires form.initialKm == ""
    ensures Typed(form.initialKm) == 0.0
    ensures HandleSave(true, form, nowText, now).Err?
  {
    NumberParsing.BlankIsNaN(form.initialKm);
  }
}
