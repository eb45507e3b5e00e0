/**
  The Fuel Estimator page (client/src/pages/FuelEstimator.js): the fuel a
  planned distance needs at a given km per litre, and its cost when a fuel
  price is given. Nothing is posted.
*/
module FuelEstimator {
  import opened Wrappers
  import NumberParsing
  import MileageCalculator

  const KmsNotPositive: string := "Estimated KMs must be a positive number"
  const MileageNotPositive: string := "Mileage must be a positive number"

  /** The exact fuel and, when priced, the exact cost. */
  datatype Estimate = Estimate(fuel: real, cost: Option<real>)

  /** The checks and arithmetic of `calculateFuel` on the three numbers. */
  function EstimateFor(kms: real, kmPerLitre: real, price: real): (r: Result<Estimate>)
    ensures r == Err(KmsNotPositive) <==> kms <= 0.0
    ensures r == Err(MileageNotPositive) <==> kms > 0.0 && kmPerLitre <= 0.0
    ensures r.Ok? <==> kms > 0.0 && kmPerLitre > 0.0
    ensures r.Ok? ==> r.value.fuel > 0.0 && r.value.fuel * kmPerLitre == kms
    ensures r.Ok? ==> (r.value.cost.Some? <==> price > 0.0)
    ensures r.Ok? && r.value.cost.Some? ==> r.value.cost.value > 0.0 && r.value.cost.value / price == r.value.fuel
  {
    if kms <= 0.0 then Err(KmsNotPositive)
    else if kmPerLitre <= 0.0 then Err(MileageNotPositive)
    else
      var fuel := kms / kmPerLitre;
      FuelRecoversDistance(kms, kmPerLitre);
      if price > 0.0 then
        CostRecoversFuel(fuel, price);
        Ok(Estimate(fuel, Some(fuel * price)))
      else Ok(Estimate(fuel, None))
  }

  lemma FuelRecoversDistance(kms: real, kmPerLitre: real)
    requires kms > 0.0 && kmPerLitre > 0.0
    ensures kms / kmPerLitre > 0.0 && kms / kmPerLitre * kmPerLitre == kms
  {
  }

  lemma CostRecoversFuel(fuel: real, price: real)
    requires fuel > 0.0 && price > 0.0
    ensures fuel * price > 0.0 && fuel * price / price == fuel
  {
  }

  /** The three outputs the page shows. */
  datatype Display = Display(requiredFuel: string, estimatedCost: string, error: string)

  /**
    `calculateFuel` on the typed fields (`parseFloat(text) || 0`): on an
    error both outputs are emptied; otherwise the fuel, and the cost only
    when priced, as two-decimal text.
  */
  function CalculateFuel(estimatedKms: string, mileage: string, fuelPrice: string): (r: Display)
    ensures var e := EstimateFor(MileageCalculator.Typed(estimatedKms), MileageCalculator.Typed(mileage), MileageCalculator.Typed(fuelPrice));
      && (r.error == "" <==> e.Ok?)
      && (e.Err? ==> r == Display("", "", e.message))
      && (e.Ok? ==> NumberParsing.ParseFloat(r.requiredFuel) == Some(NumberParsing.RoundTo2(e.value.fuel)))
      && (e.Ok? ==> (r.estimatedCost == "" <==> e.value.cost.None?))
      && (e.Ok? && e.value.cost.Some? ==> NumberParsing.ParseFloat(r.estimatedCost) == Some(NumberParsing.RoundTo2(e.value.cost.value)))
  {
    match EstimateFor(MileageCalculator.Typed(estimatedKms), MileageCalculator.Typed(mileage), MileageCalculator.Typed(fuelPrice))
    case Err(m) => Display("", "", m)
    case Ok(est) =>
      NumberParsing.ParseToFixed2(est.fuel);
      match est.cost
      case None => Display(NumberParsing.ToFixed2(est.fuel), "", "")
      case Some(c) =>
        NumberParsing.ParseToFixed2(c);
        NumberParsing.ToFixed2NonEmpty(c);
        Display(NumberParsing.ToFixed2(est.fuel), NumberParsing.ToFixed2(c), "")
  }

  /**
    The estimator inverts the mileage calculator: planning the distance of a
    measured run at its measured km per litre needs exactly the fuel that run used.
  */
  lemma EstimateInvertsMileage(initial: real, final: real, fuel: real, price: real)
    requires 0.0 <= initial < final && fuel > 0.0
    ensures var m := MileageCalculator.KmPerLitre(initial, final, fuel);
            m.Ok? && EstimateFor(final - initial, m.value, price).Ok?
            && EstimateFor(final - initial, m.value, price).value.fuel == fuel
  {
    var m := MileageCalculator.KmPerLitre(initial, final, fuel).value;
    MileageCalculator.KmPerLitreTimesFuel(initial, final, fuel);
    assert m > 0.0;
    var e := EstimateFor(final - initial, m, price).value;
    assert e.fuel * m == final - initial;
    UniqueQuotient(final - initial, m, e.fuel, fuel);
  }

  lemma UniqueQuotient(a: real, m: real, x: real, y: real)
    requires m > 0.0 && x * m == a && y * m == a
    ensures x == y
  {
    assert (x - y) * m == 0.0;
  }
}
