/**
  The write handlers of the running router (server/server.js) and their
  duplicates in server/Routes.js: `POST /signup`, `/accountlog`, `/trip`
  and `/mileage`. Each decides from the body alone whether to store a record;
  the store's own work is reduced to its outcome.
*/
module Requests {
  import opened Wrappers
  import opened JsValues
  import opened Models
  import Text

  /** What a write handler does with a request. */
  datatype Reply<T> =
    | Saved(record: T)            // the record is stored and a confirmation is sent
    | BadRequest(message: string) // 400 with a message
    | ServerError(message: string) // 500: the store refused the document
    | NoReply                     // the handler returns without sending anything
    | Thrown(error: string)       // the handler throws before replying

  const AllRequired: string := "All fields are required"

  // ---------------------------------------------------------------------------
  // POST /signup

  /** The signup form's fields; a missing field is the empty string. */
  datatype SignupBody = SignupBody(email: string, username: string, userType: string, password: string)

  const SignupMissing: string := "Email, username, user type, and password are required"
  const EmailExists: string := "Email already exists"
  const UsernameExists: string := "Username already exists"
  const ValidationFailed: string := "Validation error"

  /** `userType.toLowerCase()`, with "owner" renamed "admin"; every other value passes through. */
  function MapUserType(userType: string): (r: string)
    ensures Text.Lower(userType) != "owner" ==> r == Text.Lower(userType)
  {
    var lowered := Text.Lower(userType);
    if lowered == "owner" then "admin" else lowered
  }

  /**
    Signup against the stored `users`: `id` is the new document's id and
    `passwordHash` what the hashing library made of the password.
  */
  function Signup(users: seq<User>, body: SignupBody, id: UserId, passwordHash: string): (r: Reply<User>)
    ensures r.Saved? || r.BadRequest?
    ensures r.BadRequest? && r.message == SignupMissing
        <==> body.email == "" || body.username == "" || body.userType == "" || body.password == ""
    ensures r.Saved? ==> r.record.email == body.email && r.record.username == body.username && r.record.id == id
    ensures r.Saved? ==> UserTypeName(r.record.userType) == MapUserType(body.userType)
  {
    if body.email == "" || body.username == "" || body.userType == "" || body.password == "" then
      BadRequest(SignupMissing)
    else if EmailTaken(users, body.email) then BadRequest(EmailExists)
    else if UsernameTaken(users, body.username) then BadRequest(UsernameExists)
    else match ValidateUser(id, body.email, body.username, MapUserType(body.userType), passwordHash)
      case Err(_) => BadRequest(ValidationFailed)
      case Ok(u) => Saved(u)
  }

  /** "owner" in any letter case becomes an admin; "admin" and "driver" in any letter case keep their meaning. */
  lemma UserTypeMapping(userType: string)
    ensures MapUserType(userType) == "admin" <==> Text.Lower(userType) == "owner" || Text.Lower(userType) == "admin"
    ensures MapUserType(userType) == "driver" <==> Text.Lower(userType) == "driver"
  {
  }

  /** The signup accept set: all four fields given, email and username free, a known user type, a hash produced. */
  lemma SignupAcceptSet(users: seq<User>, body: SignupBody, id: UserId, passwordHash: string)
    ensures Signup(users, body, id, passwordHash).Saved? <==>
      && body.email != "" && body.username != "" && body.userType != "" && body.password != ""
      && !EmailTaken(users, body.email) && !UsernameTaken(users, body.username)
      && (Text.Lower(body.userType) in {"owner", "admin", "driver"})
      && passwordHash != ""
  {
    UserTypeMapping(body.userType);
  }

  /** Accepting a signup keeps emails and usernames unique across the stored users. */
  lemma SignupKeepsAccountsUnique(users: seq<User>, body: SignupBody, id: UserId, passwordHash: string)
    requires UniqueAccounts(users)
    requires Signup(users, body, id, passwordHash).Saved?
    ensures UniqueAccounts(users + [Signup(users, body, id, passwordHash).record])
  {
    var u := Signup(users, body, id, passwordHash).record;
    var all := users + [u];
    forall i, j | 0 <= i < j < |all|
      ensures all[i].email != all[j].email && all[i].username != all[j].username
    {
      if j == |users| {
        assert all[i] == users[i];
        assert !EmailTaken(users, u.email);
        assert !UsernameTaken(users, u.username);
      }
    }
  }

  // ---------------------------------------------------------------------------
  // POST /accountlog

  datatype AccountLogBody = AccountLogBody(vehicleNo: string, reason: string, cost: Value)

  const AccountLogMissing: string := "Vehicle number, reason, and cost are required"
  const CostNotPositive: string := "Cost must be a positive number"

  /** The accountlog handler for `user` at instant `now`: the stored date is always the server's clock. */
  function PostAccountLog(user: UserId, body: AccountLogBody, now: int): (r: Reply<AccountLog>)
    ensures r.Saved? || r.BadRequest?
    ensures r.BadRequest? ==>
      (r.message == AccountLogMissing <==> body.vehicleNo == "" || body.reason == "" || !Truthy(body.cost))
    ensures r.Saved? ==> r.record.user == user && r.record.date == now && r.record.Valid()
    ensures r.Saved? ==> r.record.vehicleNo == body.vehicleNo && r.record.reason == body.reason
    ensures r.Saved? ==> Some(r.record.cost) == ParseFloat(body.cost) && r.record.cost > 0.0
  {
    if body.vehicleNo == "" || body.reason == "" || !Truthy(body.cost) then BadRequest(AccountLogMissing)
    else match ParseFloat(body.cost)
      case None => BadRequest(CostNotPositive)
      case Some(cost) =>
        if cost <= 0.0 then BadRequest(CostNotPositive)
        else Saved(AccountLog(user, body.vehicleNo, body.reason, cost, now))
  }

  /** The accountlog accept set: the truthiness test on `cost` is subsumed by the positive-number test. */
  lemma AccountLogAcceptSet(user: UserId, body: AccountLogBody, now: int)
    ensures PostAccountLog(user, body, now).Saved? <==>
      body.vehicleNo != "" && body.reason != "" && ParseFloat(body.cost).Some? && ParseFloat(body.cost).value > 0.0
  {
  }

  // ---------------------------------------------------------------------------
  // POST /trip

  datatype TripBody = TripBody(
    vehicleNo: string,
    initialKm: Value, finalKm: Value, pricePerKm: Value, kmDriven: Value, totalCharges: Value,
    time: DateInput)

  const TripOutOfRange: string := "Numeric fields must be positive (pricePerKm must be greater than 0)"
  const TripSaveFailed: string := "Server error while saving trip data"

  /** The first test: `!field` for each of the seven fields, so a numeric 0 counts as missing. */
  predicate TripFieldsPresent(b: TripBody) {
    b.vehicleNo != "" && Truthy(b.initialKm) && Truthy(b.finalKm) && Truthy(b.pricePerKm)
    && Truthy(b.kmDriven) && Truthy(b.totalCharges) && DateGiven(b.time)
  }

  predicate NonNegativeNumber(v: Value) {
    IsNumber(v) && v.n >= 0.0
  }

  predicate PositiveNumber(v: Value) {
    IsNumber(v) && v.n > 0.0
  }

  /** The second test: numbers, none negative, and a positive price. */
  predicate TripNumbersInRange(b: TripBody) {
    NonNegativeNumber(b.initialKm) && NonNegativeNumber(b.finalKm) && PositiveNumber(b.pricePerKm)
    && NonNegativeNumber(b.kmDriven) && NonNegativeNumber(b.totalCharges)
  }

  function PostTrip(user: UserId, b: TripBody): (r: Reply<Trip>)
    ensures r.Saved? || r.BadRequest? || r.ServerError?
    ensures r.BadRequest? && r.message == AllRequired <==> !TripFieldsPresent(b)
    ensures r.ServerError? ==> b.time.parsed.None?
    ensures r.Saved? ==>
      && r.record.user == user && r.record.vehicleNo == b.vehicleNo && r.record.Valid()
      && Num(r.record.initialKm) == b.initialKm && Num(r.record.finalKm) == b.finalKm
      && Num(r.record.pricePerKm) == b.pricePerKm && Num(r.record.kmDriven) == b.kmDriven
      && Num(r.record.totalCharges) == b.totalCharges && Some(r.record.time) == b.time.parsed
    ensures r.Saved? ==>
      r.record.initialKm > 0.0 && r.record.finalKm > 0.0 && r.record.pricePerKm > 0.0
      && r.record.kmDriven > 0.0 && r.record.totalCharges > 0.0
  {
    if !TripFieldsPresent(b) then BadRequest(AllRequired)
    else if !TripNumbersInRange(b) then BadRequest(TripOutOfRange)
    else match b.time.parsed
      case None => ServerError(TripSaveFailed)
      case Some(t) =>
        Saved(Trip(user, b.vehicleNo, b.initialKm.n, b.finalKm.n, b.pricePerKm.n, b.kmDriven.n, b.totalCharges.n, t))
  }

  /** The trip accept set: every numeric field a positive number, the vehicle and a parseable time given. */
  lemma TripAcceptSet(user: UserId, b: TripBody)
    ensures PostTrip(user, b).Saved? <==>
      && b.vehicleNo != ""
      && PositiveNumber(b.initialKm) && PositiveNumber(b.finalKm) && PositiveNumber(b.pricePerKm)
      && PositiveNumber(b.kmDriven) && PositiveNumber(b.totalCharges)
      && DateGiven(b.time) && b.time.parsed.Some?
  {
    if b.initialKm.Str? || b.finalKm.Str? || b.kmDriven.Str? || b.totalCharges.Str? {
      assert !TripNumbersInRange(b);
    }
  }

  /** Neither the odometer order nor the derived distance and charge is checked: this inconsistent trip is stored. */
  lemma TripConsistencyUnchecked()
    ensures var b := TripBody("TN01", Num(100.0), Num(50.0), Num(5.0), Num(7.0), Num(1.0), DateText("2024-05-01T10:00", Some(0)));
            PostTrip(1, b).Saved?
  {
  }

  // ---------------------------------------------------------------------------
  // POST /mileage

  datatype MileageBody = MileageBody(
    vehicleNo: string,
    initialKm: Value, finalKm: Value, distance: Value, fuelUsed: Value, mileage: Value,
    date: DateInput)

  const NotNumbers: string := "Numeric fields must be numbers"
  const MileageOutOfRange: string := "Numeric fields must be positive (fuelUsed and mileage must be greater than 0)"
  const MileageSaveFailed: string := "Server error while saving mileage data"
  const UndefinedIdentifier: string := "ReferenceError: _signupinitialKm is not defined"

  /** The first test: numeric fields only need to be non-null, so 0 is present. */
  predicate MileageFieldsPresent(b: MileageBody) {
    b.vehicleNo != "" && DateGiven(b.date)
    && !IsNullish(b.initialKm) && !IsNullish(b.finalKm) && !IsNullish(b.distance)
    && !IsNullish(b.fuelUsed) && !IsNullish(b.mileage)
  }

  predicate MileageNumbers(b: MileageBody) {
    IsNumber(b.initialKm) && IsNumber(b.finalKm) && IsNumber(b.distance) && IsNumber(b.fuelUsed) && IsNumber(b.mileage)
  }

  predicate MileageInRange(b: MileageBody)
    requires MileageNumbers(b)
  {
    b.initialKm.n >= 0.0 && b.finalKm.n >= 0.0 && b.distance.n >= 0.0 && b.fuelUsed.n > 0.0 && b.mileage.n > 0.0
  }

  /** The checks after the presence test, common to every version of the handler. */
  function MileageAfterPresence(user: UserId, b: MileageBody): (r: Reply<Mileage>)
    requires MileageFieldsPresent(b)
    ensures r.Saved? || r.BadRequest? || r.ServerError?
  {
    if !MileageNumbers(b) then BadRequest(NotNumbers)
    else if !MileageInRange(b) then BadRequest(MileageOutOfRange)
    else match b.date.parsed
      case None => ServerError(MileageSaveFailed)
      case Some(d) =>
        Saved(Mileage(user, b.vehicleNo, b.initialKm.n, b.finalKm.n, b.distance.n, b.fuelUsed.n, b.mileage.n, d))
  }

  /**
    The running router's handler as written: on a missing field it executes
    a bare `return` (the line break after it ends the statement), so the
    request gets no reply at all.
  */
  function PostMileage(user: UserId, b: MileageBody): (r: Reply<Mileage>)
    ensures r.NoReply? <==> !MileageFieldsPresent(b)
    ensures !r.Thrown?
  {
    if !MileageFieldsPresent(b) then NoReply
    else MileageAfterPresence(user, b)
  }

  /**
    The Routes.js duplicate: a missing field gets an explicit 400, but the
    range test reads the undefined identifier `_signupinitialKm`, so every
    request that reaches it throws.
  */
  function PostMileageRoutes(user: UserId, b: MileageBody): (r: Reply<Mileage>)
    ensures !r.Saved? && !r.NoReply?
    ensures r.Thrown? <==> MileageFieldsPresent(b) && MileageNumbers(b)
  {
    if !MileageFieldsPresent(b) then BadRequest(AllRequired)
    else if !MileageNumbers(b) then BadRequest(NotNumbers)
    else Thrown(UndefinedIdentifier)
  }

  /** The handler both copies evidently intend: a 400 for a missing field, then the type and range tests. */
  function PostMileageIntended(user: UserId, b: MileageBody): (r: Reply<Mileage>)
    ensures r.Saved? || r.BadRequest? || r.ServerError?
    ensures r.BadRequest? && r.message == AllRequired <==> !MileageFieldsPresent(b)
    ensures r.Saved? ==>
      && r.record.user == user && r.record.vehicleNo == b.vehicleNo && r.record.Valid()
      && Num(r.record.initialKm) == b.initialKm && Num(r.record.finalKm) == b.finalKm
      && Num(r.record.distance) == b.distance && Num(r.record.fuelUsed) == b.fuelUsed
      && Num(r.record.mileage) == b.mileage && Some(r.record.date) == b.date.parsed
    ensures r.Saved? ==>
      r.record.initialKm >= 0.0 && r.record.finalKm >= 0.0 && r.record.distance >= 0.0
      && r.record.fuelUsed > 0.0 && r.record.mileage > 0.0
  {
    if !MileageFieldsPresent(b) then BadRequest(AllRequired)
    else MileageAfterPresence(user, b)
  }

  /** The intended handler answers every request, and agrees with the running one wherever that one answers. */
  lemma MileageIntendedAgrees(user: UserId, b: MileageBody)
    ensures !PostMileageIntended(user, b).NoReply? && !PostMileageIntended(user, b).Thrown?
    ensures !PostMileage(user, b).NoReply? ==> PostMileageIntended(user, b) == PostMileage(user, b)
    ensures !MileageFieldsPresent(b) ==> PostMileageIntended(user, b) == PostMileageRoutes(user, b)
  {
  }

  /** A well-formed reading is stored by the running handler exactly when its mileage is positive. */
  lemma MileageReadingStored(user: UserId, b: MileageBody)
    requires b.vehicleNo != "" && DateGiven(b.date) && b.date.parsed.Some?
    requires IsNumber(b.initialKm) && IsNumber(b.finalKm) && IsNumber(b.fuelUsed) && IsNumber(b.mileage)
    requires 0.0 <= b.initialKm.n <= b.finalKm.n && b.distance == Num(b.finalKm.n - b.initialKm.n)
    requires b.fuelUsed.n > 0.0 && b.mileage.n >= 0.0
    ensures PostMileage(user, b).Saved? <==> b.mileage.n > 0.0
    ensures !PostMileage(user, b).Saved? ==> PostMileage(user, b) == BadRequest(MileageOutOfRange)
  {
  }

  /** Nor does the mileage handler check the odometer order or the derived figures: this inconsistent reading is stored. */
  lemma MileageConsistencyUnchecked()
    ensures var b := MileageBody("TN01", Num(100.0), Num(50.0), Num(3.0), Num(4.0), Num(9.0), DateText("2024-05-01T10:00:00Z", Some(0)));
            PostMileage(1, b).Saved?
  {
  }

  /** The intended mileage accept set; zero odometer readings and zero distance are allowed. */
  lemma MileageAcceptSet(user: UserId, b: MileageBody)
    ensures PostMileageIntended(user, b).Saved? <==>
      && b.vehicleNo != "" && DateGiven(b.date) && b.date.parsed.Some?
      && NonNegativeNumber(b.initialKm) && NonNegativeNumber(b.finalKm) && NonNegativeNumber(b.distance)
      && PositiveNumber(b.fuelUsed) && PositiveNumber(b.mileage)
  {
  }

  /** With every field present the running handler never fails to answer, and a reading starting at 0 km is stored. */
  lemma MileageZeroStartStored(user: UserId, b: MileageBody)
    requires MileageFieldsPresent(b) && MileageNumbers(b) && MileageInRange(b) && b.date.parsed.Some?
    requires b.initialKm == Num(0.0)
    ensures PostMileage(user, b).Saved? && PostMileage(user, b).record.initialKm == 0.0
  {
  }

  /** A trip starting at 0 km is refused as "missing", although 0 passes the trip's own range test. */
  lemma TripZeroStartRefused(user: UserId, b: TripBody)
    requires b.initialKm == Num(0.0)
    ensures PostTrip(user, b) == BadRequest(AllRequired)
  {
  }

  /** The trip handler evidently intended: presence checked with `== null`, as the mileage handler does. */
  predicate TripFieldsGiven(b: TripBody) {
    b.vehicleNo != "" && !IsNullish(b.initialKm) && !IsNullish(b.finalKm) && !IsNullish(b.pricePerKm)
    && !IsNullish(b.kmDriven) && !IsNullish(b.totalCharges) && DateGiven(b.time)
  }

  function PostTripIntended(user: UserId, b: TripBody): (r: Reply<Trip>)
    ensures r.Saved? <==>
      && b.vehicleNo != "" && DateGiven(b.time) && b.time.parsed.Some?
      && NonNegativeNumber(b.initialKm) && NonNegativeNumber(b.finalKm) && PositiveNumber(b.pricePerKm)
      && NonNegativeNumber(b.kmDriven) && NonNegativeNumber(b.totalCharges)
    ensures r.Saved? ==>
      && r.record.user == user && r.record.vehicleNo == b.vehicleNo && r.record.Valid()
      && Num(r.record.initialKm) == b.initialKm && Num(r.record.finalKm) == b.finalKm
      && Num(r.record.pricePerKm) == b.pricePerKm && Num(r.record.kmDriven) == b.kmDriven
      && Num(r.record.totalCharges) == b.totalCharges && Some(r.record.time) == b.time.parsed
  {
    if !TripFieldsGiven(b) then BadRequest(AllRequired)
    else if !TripNumbersInRange(b) then BadRequest(TripOutOfRange)
    else match b.time.parsed
      case None => ServerError(TripSaveFailed)
      case Some(t) =>
        Saved(Trip(user, b.vehicleNo, b.initialKm.n, b.finalKm.n, b.pricePerKm.n, b.kmDriven.n, b.totalCharges.n, t))
  }

  /** The intended trip handler stores everything the running one stores, and more only where a field is 0. */
  lemma TripIntendedExtends(user: UserId, b: TripBody)
    ensures PostTrip(user, b).Saved? ==> PostTripIntended(user, b) == PostTrip(user, b)
    ensures PostTripIntended(user, b).Saved? && !PostTrip(user, b).Saved? ==>
      b.initialKm == Num(0.0) || b.finalKm == Num(0.0) || b.kmDriven == Num(0.0) || b.totalCharges == Num(0.0)
  {
  }
}
