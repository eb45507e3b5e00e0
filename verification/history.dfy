/**
  `GET /history` (server/server.js, duplicated in server/Routes.js): the
  caller's mileage readings and trips as `{date, type, details}` rows,
  mileage rows first, then sorted newest first.
*/
module History {
  import opened Models
  import opened Entries
  import Text
  import Sequences

  const MileageKind: string := "Mileage"
  const TripKind: string := "Trip"

  const VehicleLabel: string := "Vehicle: "

  /** The row for a mileage reading, dated by the reading; its details open with "Vehicle: " and the vehicle number. */
  function MileageRow(m: Mileage, fmt: Format): (r: Entry)
    ensures r.date == m.date && r.kind == MileageKind
    ensures |r.details| > |VehicleLabel + m.vehicleNo| && r.details[..|VehicleLabel + m.vehicleNo|] == VehicleLabel + m.vehicleNo
  {
    Entry(m.date, MileageKind, VehicleLabel + m.vehicleNo + MileageFigures(m, fmt))
  }

  /** What follows the vehicle number in a mileage row. */
  function MileageFigures(m: Mileage, fmt: Format): string {
    ", Distance: " + fmt.number(m.distance) + " km, Fuel: "
    + fmt.number(m.fuelUsed) + " L, Mileage: " + fmt.number(m.mileage) + " km/L"
  }

  /** The row for a trip, dated by the trip's `time`; its details open with "Vehicle: " and the vehicle number. */
  function TripRow(t: Trip, fmt: Format): (r: Entry)
    ensures r.date == t.time && r.kind == TripKind
    ensures |r.details| > |VehicleLabel + t.vehicleNo| && r.details[..|VehicleLabel + t.vehicleNo|] == VehicleLabel + t.vehicleNo
  {
    Entry(t.time, TripKind, VehicleLabel + t.vehicleNo + TripFigures(t, fmt))
  }

  /** What follows the vehicle number in a trip row. */
  function TripFigures(t: Trip, fmt: Format): string {
    ", Initial KM: " + fmt.number(t.initialKm) + ", Final KM: "
    + fmt.number(t.finalKm) + ", Distance: " + fmt.number(t.kmDriven) + " km, Total Amount: ₹"
    + fmt.number(t.totalCharges)
  }

  /** `Mileage.find({user})`: every owned record, as often as it is stored. */
  function OwnedMileage(user: UserId, ms: seq<Mileage>): (r: seq<Mileage>)
    ensures forall x :: x in r <==> x in ms && x.user == user
  {
    if |ms| == 0 then []
    else
      var rest := OwnedMileage(user, ms[1..]);
      assert ms == [ms[0]] + ms[1..];
      if ms[0].user == user then [ms[0]] + rest else rest
  }

  /** Each owned record appears as often as it is stored, and no other record appears. */
  lemma {:induction false} OwnedMileageCounts(user: UserId, ms: seq<Mileage>)
    ensures forall x :: multiset(OwnedMileage(user, ms))[x] == if x.user == user then multiset(ms)[x] else 0
  {
    if |ms| > 0 {
      OwnedMileageCounts(user, ms[1..]);
      assert ms == [ms[0]] + ms[1..];
    }
  }

  /** The owned readings keep their store order. */
  lemma {:induction false} OwnedMileageInStoreOrder(user: UserId, ms: seq<Mileage>)
    ensures Sequences.IsSubsequence(OwnedMileage(user, ms), ms)
  {
    if |ms| > 0 {
      OwnedMileageInStoreOrder(user, ms[1..]);
      var rest := OwnedMileage(user, ms[1..]);
      if ms[0].user == user {
        assert ([ms[0]] + rest)[1..] == rest;
      }
    }
  }

  /** `Trip.find({user})`: every owned record, as often as it is stored. */
  function OwnedTrips(user: UserId, ts: seq<Trip>): (r: seq<Trip>)
    ensures forall x :: x in r <==> x in ts && x.user == user
  {
    if |ts| == 0 then []
    else
      var rest := OwnedTrips(user, ts[1..]);
      assert ts == [ts[0]] + ts[1..];
      if ts[0].user == user then [ts[0]] + rest else rest
  }

  /** Each owned record appears as often as it is stored, and no other record appears. */
  lemma {:induction false} OwnedTripsCounts(user: UserId, ts: seq<Trip>)
    ensures forall x :: multiset(OwnedTrips(user, ts))[x] == if x.user == user then multiset(ts)[x] else 0
  {
    if |ts| > 0 {
      OwnedTripsCounts(user, ts[1..]);
      assert ts == [ts[0]] + ts[1..];
    }
  }

  /** The owned trips keep their store order. */
  lemma {:induction false} OwnedTripsInStoreOrder(user: UserId, ts: seq<Trip>)
    ensures Sequences.IsSubsequence(OwnedTrips(user, ts), ts)
  {
    if |ts| > 0 {
      OwnedTripsInStoreOrder(user, ts[1..]);
      var rest := OwnedTrips(user, ts[1..]);
      if ts[0].user == user {
        assert ([ts[0]] + rest)[1..] == rest;
      }
    }
  }

  function MileageRows(ms: seq<Mileage>, fmt: Format): (r: seq<Entry>)
    ensures |r| == |ms|
    ensures forall i :: 0 <= i < |ms| ==> r[i] == MileageRow(ms[i], fmt)
  {
    seq(|ms|, i requires 0 <= i < |ms| => MileageRow(ms[i], fmt))
  }

  function TripRows(ts: seq<Trip>, fmt: Format): (r: seq<Entry>)
    ensures |r| == |ts|
    ensures forall i :: 0 <= i < |ts| ==> r[i] == TripRow(ts[i], fmt)
  {
    seq(|ts|, i requires 0 <= i < |ts| => TripRow(ts[i], fmt))
  }

  /** The history of `user`: mileage rows then trip rows, stably sorted newest first. */
  function BuildHistory(user: UserId, mileage: seq<Mileage>, trips: seq<Trip>, fmt: Format): (r: seq<Entry>)
    ensures |r| == |OwnedMileage(user, mileage)| + |OwnedTrips(user, trips)|
    ensures NewestFirst(r)
    ensures multiset(r) == multiset(MileageRows(OwnedMileage(user, mileage), fmt) + TripRows(OwnedTrips(user, trips), fmt))
  {
    SortNewestFirst(MileageRows(OwnedMileage(user, mileage), fmt) + TripRows(OwnedTrips(user, trips), fmt))
  }

  /** Every row is tagged by where it came from: a Mileage row is some owned reading's row, a Trip row some owned trip's. */
  lemma HistoryRowsTagged(user: UserId, mileage: seq<Mileage>, trips: seq<Trip>, fmt: Format, e: Entry)
    requires e in BuildHistory(user, mileage, trips, fmt)
    ensures e.kind == MileageKind || e.kind == TripKind
    ensures e.kind == MileageKind ==> exists m :: m in mileage && m.user == user && e == MileageRow(m, fmt)
    ensures e.kind == TripKind ==> exists t :: t in trips && t.user == user && e == TripRow(t, fmt) && e.date == t.time
  {
    var om, ot := OwnedMileage(user, mileage), OwnedTrips(user, trips);
    var ms, ts := MileageRows(om, fmt), TripRows(ot, fmt);
    assert e in multiset(ms + ts);
    assert e in ms + ts;
    if e in ms {
      var m := MileageRowSource(om, fmt, e);
      assert m in mileage && m.user == user;
    } else {
      var t := TripRowSource(ot, fmt, e);
      assert t in trips && t.user == user;
    }
  }

  /** The reading a mileage row was made from. */
  lemma MileageRowSource(ms: seq<Mileage>, fmt: Format, e: Entry) returns (m: Mileage)
    requires e in MileageRows(ms, fmt)
    ensures m in ms && e == MileageRow(m, fmt)
  {
    var i :| 0 <= i < |ms| && MileageRows(ms, fmt)[i] == e;
    m := ms[i];
  }

  /** The trip a trip row was made from. */
  lemma TripRowSource(ts: seq<Trip>, fmt: Format, e: Entry) returns (t: Trip)
    requires e in TripRows(ts, fmt)
    ensures t in ts && e == TripRow(t, fmt)
  {
    var i :| 0 <= i < |ts| && TripRows(ts, fmt)[i] == e;
    t := ts[i];
  }

  /** Every owned reading and every owned trip appears in the history. */
  lemma HistoryComplete(user: UserId, mileage: seq<Mileage>, trips: seq<Trip>, fmt: Format)
    ensures forall m :: m in mileage && m.user == user ==> MileageRow(m, fmt) in BuildHistory(user, mileage, trips, fmt)
    ensures forall t :: t in trips && t.user == user ==> TripRow(t, fmt) in BuildHistory(user, mileage, trips, fmt)
  {
    forall m | m in mileage && m.user == user
      ensures MileageRow(m, fmt) in BuildHistory(user, mileage, trips, fmt)
    {
      MileageInHistory(user, mileage, trips, fmt, m);
    }
    forall t | t in trips && t.user == user
      ensures TripRow(t, fmt) in BuildHistory(user, mileage, trips, fmt)
    {
      TripInHistory(user, mileage, trips, fmt, t);
    }
  }

  lemma MileageInHistory(user: UserId, mileage: seq<Mileage>, trips: seq<Trip>, fmt: Format, m: Mileage)
    requires m in mileage && m.user == user
    ensures MileageRow(m, fmt) in BuildHistory(user, mileage, trips, fmt)
  {
    var om := OwnedMileage(user, mileage);
    var rows := MileageRows(om, fmt) + TripRows(OwnedTrips(user, trips), fmt);
    var i :| 0 <= i < |om| && om[i] == m;
    assert rows[i] == MileageRow(m, fmt);
    assert MileageRow(m, fmt) in multiset(rows);
  }

  lemma TripInHistory(user: UserId, mileage: seq<Mileage>, trips: seq<Trip>, fmt: Format, t: Trip)
    requires t in trips && t.user == user
    ensures TripRow(t, fmt) in BuildHistory(user, mileage, trips, fmt)
  {
    var om, ot := OwnedMileage(user, mileage), OwnedTrips(user, trips);
    var rows := MileageRows(om, fmt) + TripRows(ot, fmt);
    var i :| 0 <= i < |ot| && ot[i] == t;
    assert rows[|om| + i] == TripRow(t, fmt);
    assert TripRow(t, fmt) in multiset(rows);
  }

  /** On a shared date the mileage rows come before the trip rows, each group in store order. */
  lemma HistoryTiesKeepMileageFirst(user: UserId, mileage: seq<Mileage>, trips: seq<Trip>, fmt: Format, d: int)
    ensures DatedOn(BuildHistory(user, mileage, trips, fmt), d)
         == DatedOn(MileageRows(OwnedMileage(user, mileage), fmt), d) + DatedOn(TripRows(OwnedTrips(user, trips), fmt), d)
  {
    SortTies(MileageRows(OwnedMileage(user, mileage), fmt), TripRows(OwnedTrips(user, trips), fmt), d);
  }

  /** Another user's reading, stored anywhere among the readings, never reaches the history. */
  lemma OtherMileageInvisible(
    user: UserId, mileage: seq<Mileage>, i: nat, m: Mileage, trips: seq<Trip>, fmt: Format)
    requires i <= |mileage| && m.user != user
    ensures BuildHistory(user, mileage[..i] + [m] + mileage[i..], trips, fmt) == BuildHistory(user, mileage, trips, fmt)
  {
    OwnedMileageSkip(user, mileage, i, m);
  }

  /** Another user's trip, stored anywhere among the trips, never reaches the history. */
  lemma OtherTripInvisible(
    user: UserId, mileage: seq<Mileage>, trips: seq<Trip>, i: nat, t: Trip, fmt: Format)
    requires i <= |trips| && t.user != user
    ensures BuildHistory(user, mileage, trips[..i] + [t] + trips[i..], fmt) == BuildHistory(user, mileage, trips, fmt)
  {
    OwnedTripsSkip(user, trips, i, t);
  }

  /** Inserting a reading the query does not select leaves the query's answer unchanged. */
  lemma OwnedMileageSkip(user: UserId, ms: seq<Mileage>, i: nat, m: Mileage)
    requires i <= |ms| && m.user != user
    ensures OwnedMileage(user, ms[..i] + [m] + ms[i..]) == OwnedMileage(user, ms)
  {
    var a, b := ms[..i], ms[i..];
    assert ms == a + b;
    assert OwnedMileage(user, [m]) == [];
    OwnedMileageConcat(user, a, [m]);
    assert OwnedMileage(user, a + [m]) == OwnedMileage(user, a);
    OwnedMileageConcat(user, a + [m], b);
    OwnedMileageConcat(user, a, b);
  }

  /** Inserting a trip the query does not select leaves the query's answer unchanged. */
  lemma OwnedTripsSkip(user: UserId, ts: seq<Trip>, i: nat, t: Trip)
    requires i <= |ts| && t.user != user
    ensures OwnedTrips(user, ts[..i] + [t] + ts[i..]) == OwnedTrips(user, ts)
  {
    var a, b := ts[..i], ts[i..];
    assert ts == a + b;
    assert OwnedTrips(user, [t]) == [];
    OwnedTripsConcat(user, a, [t]);
    assert OwnedTrips(user, a + [t]) == OwnedTrips(user, a);
    OwnedTripsConcat(user, a + [t], b);
    OwnedTripsConcat(user, a, b);
  }

  /** The owner query distributes over any split of the stored readings. */
  lemma {:induction false} OwnedMileageConcat(user: UserId, a: seq<Mileage>, b: seq<Mileage>)
    ensures OwnedMileage(user, a + b) == OwnedMileage(user, a) + OwnedMileage(user, b)
  {
    if |a| == 0 {
      assert a + b == b;
    } else {
      assert (a + b)[1..] == a[1..] + b;
      OwnedMileageConcat(user, a[1..], b);
    }
  }

  /** The owner query distributes over any split of the stored trips. */
  lemma {:induction false} OwnedTripsConcat(user: UserId, a: seq<Trip>, b: seq<Trip>)
    ensures OwnedTrips(user, a + b) == OwnedTrips(user, a) + OwnedTrips(user, b)
  {
    if |a| == 0 {
      assert a + b == b;
    } else {
      assert (a + b)[1..] == a[1..] + b;
      OwnedTripsConcat(user, a[1..], b);
    }
  }

  /** The lower-cased details of a mileage row contain its lower-cased vehicle number. */
  lemma MileageRowMentionsVehicle(m: Mileage, fmt: Format)
    ensures Text.Contains(Text.Lower(MileageRow(m, fmt).details), Text.Lower(m.vehicleNo))
  {
    LabelledMentions(m.vehicleNo, MileageFigures(m, fmt));
  }

  /** The lower-cased details of a trip row contain its lower-cased vehicle number. */
  lemma TripRowMentionsVehicle(t: Trip, fmt: Format)
    ensures Text.Contains(Text.Lower(TripRow(t, fmt).details), Text.Lower(t.vehicleNo))
  {
    LabelledMentions(t.vehicleNo, TripFigures(t, fmt));
  }

  /** A row's details, lower-cased, contain the lower-cased vehicle number that follows the label. */
  lemma LabelledMentions(vehicleNo: string, rest: string)
    ensures Text.Contains(Text.Lower(VehicleLabel + vehicleNo + rest), Text.Lower(vehicleNo))
  {
    Text.LowerConcat(VehicleLabel + vehicleNo, rest);
    Text.LowerConcat(VehicleLabel, vehicleNo);
    Text.ContainsInfix(Text.Lower(VehicleLabel), Text.Lower(vehicleNo), Text.Lower(rest));
  }

  /** A text that starts with "Vehicle" contains "vehicle" once lower-cased. */
  lemma LabelledVehicle(d: string)
    requires |d| >= 7 && d[..7] == "Vehicle"
    ensures Text.Contains(Text.Lower(d), "vehicle")
  {
    var l := Text.Lower(d);
    assert l[..7] == "vehicle";
    assert Text.OccursAt(l, "vehicle", 0);
  }

  /** A mileage row's lower-cased details contain the word "vehicle". */
  lemma MileageRowLabelled(m: Mileage, fmt: Format)
    ensures Text.Contains(Text.Lower(MileageRow(m, fmt).details), "vehicle")
  {
    var d := MileageRow(m, fmt).details;
    assert d[..7] == "Vehicle";
    LabelledVehicle(d);
  }

  /** A trip row's lower-cased details contain the word "vehicle". */
  lemma TripRowLabelled(t: Trip, fmt: Format)
    ensures Text.Contains(Text.Lower(TripRow(t, fmt).details), "vehicle")
  {
    var d := TripRow(t, fmt).details;
    assert d[..7] == "Vehicle";
    LabelledVehicle(d);
  }
}
