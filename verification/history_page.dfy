/**
  The History page (client/src/pages/History.js): it asks for a vehicle
  number and a record type, fetches the whole history, and keeps the rows
  of that type whose details mention the vehicle number, ignoring case.
*/
module HistoryPage {
  import opened Wrappers
  import opened Entries
  import Text
  import Sequences
  import History
  import Models
  import opened ClientSession

  /** The two options of the type selector; Trip is preselected. */
  datatype HistoryType = TripHistory | MileageHistory

  const DefaultType: HistoryType := TripHistory

  function TypeTag(t: HistoryType): string {
    match t
    case TripHistory => History.TripKind
    case MileageHistory => History.MileageKind
  }

  const VehicleRequired: string := "Vehicle number is required"

  /** The filter's test for one row. */
  predicate Keep(e: Entry, vehicleNo: string, t: HistoryType) {
    Text.Contains(Text.Lower(e.details), Text.Lower(vehicleNo)) && e.kind == TypeTag(t)
  }

  /** `history.filter(entry => …)`: every kept row, as often as it was fetched. */
  function FilterHistory(h: seq<Entry>, vehicleNo: string, t: HistoryType): (r: seq<Entry>)
    ensures |r| <= |h|
    ensures forall e :: e in r <==> e in h && Keep(e, vehicleNo, t)
  {
    if |h| == 0 then []
    else
      assert h == [h[0]] + h[1..];
      var rest := FilterHistory(h[1..], vehicleNo, t);
      if Keep(h[0], vehicleNo, t) then [h[0]] + rest else rest
  }

  /** Each kept row appears as often as it was fetched. */
  lemma {:induction false} FilterCounts(h: seq<Entry>, vehicleNo: string, t: HistoryType)
    ensures forall e | Keep(e, vehicleNo, t) :: multiset(FilterHistory(h, vehicleNo, t))[e] == multiset(h)[e]
  {
    if |h| > 0 {
      FilterCounts(h[1..], vehicleNo, t);
      assert h == [h[0]] + h[1..];
    }
  }

  /** The kept rows keep their fetched order. */
  lemma {:induction false} FilterIsSubsequence(h: seq<Entry>, vehicleNo: string, t: HistoryType)
    ensures Sequences.IsSubsequence(FilterHistory(h, vehicleNo, t), h)
  {
    if |h| > 0 {
      FilterIsSubsequence(h[1..], vehicleNo, t);
      var rest := FilterHistory(h[1..], vehicleNo, t);
      if Keep(h[0], vehicleNo, t) {
        assert ([h[0]] + rest)[1..] == rest;
      }
    }
  }

  /**
    `handleView`: without a session or a vehicle number nothing is fetched
    and an error is shown; otherwise the server's history `fetched` is filtered.
  */
  function HandleView(hasToken: bool, vehicleNo: string, t: HistoryType, fetched: seq<Entry>): (r: Result<seq<Entry>>)
    ensures r.Err? <==> !hasToken || vehicleNo == ""
    ensures !hasToken ==> r == Err(NoSession)
    ensures hasToken && vehicleNo == "" ==> r == Err(VehicleRequired)
    ensures r.Ok? ==> forall e :: e in r.value <==> e in fetched && Keep(e, vehicleNo, t)
  {
    if !hasToken then Err(NoSession)
    else if vehicleNo == "" then Err(VehicleRequired)
    else Ok(FilterHistory(fetched, vehicleNo, t))
  }

  /** The filtered rows of a newest-first history are still newest first. */
  lemma {:induction false} FilterKeepsOrder(h: seq<Entry>, vehicleNo: string, t: HistoryType)
    requires NewestFirst(h)
    ensures NewestFirst(FilterHistory(h, vehicleNo, t))
  {
    if |h| > 0 {
      FilterKeepsOrder(h[1..], vehicleNo, t);
      var rest := FilterHistory(h[1..], vehicleNo, t);
      if Keep(h[0], vehicleNo, t) {
        var r := [h[0]] + rest;
        forall i, j | 0 <= i < j < |r| ensures r[i].date >= r[j].date {
          if i == 0 {
            assert r[j] in h[1..];
            var k :| 0 <= k < |h[1..]| && h[1..][k] == r[j];
            assert h[k + 1] == r[j];
          } else {
            assert r[i] == rest[i - 1] && r[j] == rest[j - 1];
          }
        }
      }
    }
  }

  /** Filtering mileage rows by a reading's own vehicle number, in any letter case, keeps every copy of its row. */
  lemma OwnMileageKept(h: seq<Entry>, query: string, m: Models.Mileage, fmt: Format)
    requires Text.Lower(query) == Text.Lower(m.vehicleNo)
    ensures multiset(FilterHistory(h, query, MileageHistory))[History.MileageRow(m, fmt)]
         == multiset(h)[History.MileageRow(m, fmt)]
  {
    History.MileageRowMentionsVehicle(m, fmt);
    FilterCounts(h, query, MileageHistory);
  }

  /** Filtering trip rows by a trip's own vehicle number, in any letter case, keeps every copy of its row. */
  lemma OwnTripKept(h: seq<Entry>, query: string, tr: Models.Trip, fmt: Format)
    requires Text.Lower(query) == Text.Lower(tr.vehicleNo)
    ensures multiset(FilterHistory(h, query, TripHistory))[History.TripRow(tr, fmt)]
         == multiset(h)[History.TripRow(tr, fmt)]
  {
    History.TripRowMentionsVehicle(tr, fmt);
    FilterCounts(h, query, TripHistory);
  }

  /** The query "vehicle" (any case) matches every row of the chosen type: the test is a substring match, not an equality. */
  lemma LabelMatchesEverything(user: Models.UserId, mileage: seq<Models.Mileage>, trips: seq<Models.Trip>, fmt: Format, t: HistoryType)
    ensures var h := History.BuildHistory(user, mileage, trips, fmt);
            forall e :: e in FilterHistory(h, "Vehicle", t) <==> e in h && e.kind == TypeTag(t)
  {
    var h := History.BuildHistory(user, mileage, trips, fmt);
    forall e | e in h
      ensures Keep(e, "Vehicle", t) <==> e.kind == TypeTag(t)
    {
      HistoryRowLabelled(user, mileage, trips, fmt, e);
      LabelKept(e, t);
    }
  }

  lemma LabelKept(e: Entry, t: HistoryType)
    requires Text.Contains(Text.Lower(e.details), "vehicle")
    ensures Keep(e, "Vehicle", t) <==> e.kind == TypeTag(t)
  {
    assert Text.Lower("Vehicle") == "vehicle";
  }

  lemma HistoryRowLabelled(user: Models.UserId, mileage: seq<Models.Mileage>, trips: seq<Models.Trip>, fmt: Format, e: Entry)
    requires e in History.BuildHistory(user, mileage, trips, fmt)
    ensures Text.Contains(Text.Lower(e.details), "vehicle")
  {
    History.HistoryRowsTagged(user, mileage, trips, fmt, e);
    if e.kind == History.MileageKind {
      var m :| m in mileage && m.user == user && e == History.MileageRow(m, fmt);
      History.MileageRowLabelled(m, fmt);
    } else {
      var tr :| tr in trips && tr.user == user && e == History.TripRow(tr, fmt);
      History.TripRowLabelled(tr, fmt);
    }
  }
}
