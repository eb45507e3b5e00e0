/**
  The stored records of server/Models.js: users and their per-user
  account logs, mileage readings and trips, plus the unowned Expense shape.
  Amounts are exact reals; instants are milliseconds on the local timeline.
*/
module Models {
  import opened Wrappers

  /** A MongoDB ObjectId, abstracted to a number. */
  type UserId = nat

  /** The `userType` enum of the User schema. */
  datatype UserType = Admin | Driver

  function UserTypeName(t: UserType): string {
    match t
    case Admin => "admin"
    case Driver => "driver"
  }

  /** The enum validator: only the two listed names are accepted. */
  function ParseUserType(s: string): (r: Option<UserType>)
    ensures r.Some? <==> (s == "admin" || s == "driver")
    ensures r.Some? ==> UserTypeName(r.value) == s
  {
    if s == "admin" then Some(Admin)
    else if s == "driver" then Some(Driver)
    else None
  }

  /** The enum's names and its values are in one-to-one correspondence. */
  lemma UserTypeRoundTrip(t: UserType)
    ensures ParseUserType(UserTypeName(t)) == Some(t)
  {
  }

  datatype User = User(id: UserId, email: string, username: string, userType: UserType, passwordHash: string)

  /** `user.validate()`: every field is required (non-empty) and `userType` must name an enum value. */
  function ValidateUser(id: UserId, email: string, username: string, userType: string, passwordHash: string): (r: Result<User>)
    ensures r.Ok? <==> |email| > 0 && |username| > 0 && |passwordHash| > 0 && (userType == "admin" || userType == "driver")
    ensures r.Ok? ==> r.value.email == email && r.value.username == username && r.value.id == id
    ensures r.Ok? ==> UserTypeName(r.value.userType) == userType && r.value.passwordHash == passwordHash
  {
    if |email| == 0 || |username| == 0 || |passwordHash| == 0 then Err("Validation error")
    else match ParseUserType(userType)
      case None => Err("Validation error")
      case Some(t) => Ok(User(id, email, username, t, passwordHash))
  }

  /** The schema's two `unique` indexes: no two stored users share an email or a username. */
  predicate UniqueAccounts(users: seq<User>) {
    forall i, j :: 0 <= i < j < |users| ==>
      users[i].email != users[j].email && users[i].username != users[j].username
  }

  predicate EmailTaken(users: seq<User>, email: string) {
    exists i :: 0 <= i < |users| && users[i].email == email
  }

  predicate UsernameTaken(users: seq<User>, username: string) {
    exists i :: 0 <= i < |users| && users[i].username == username
  }

  /** An expense that `user` logged against a vehicle. */
  datatype AccountLog = AccountLog(user: UserId, vehicleNo: string, reason: string, cost: real, date: int) {
    /** The `required` string fields are non-empty. */
    predicate Valid() {
      |vehicleNo| > 0 && |reason| > 0
    }
  }

  datatype Mileage = Mileage(
    user: UserId, vehicleNo: string,
    initialKm: real, finalKm: real, distance: real, fuelUsed: real, mileage: real,
    date: int)
  {
    predicate Valid() {
      |vehicleNo| > 0
    }
  }

  datatype Trip = Trip(
    user: UserId, vehicleNo: string,
    initialKm: real, finalKm: real, pricePerKm: real, kmDriven: real, totalCharges: real,
    time: int)
  {
    predicate Valid() {
      |vehicleNo| > 0
    }
  }

  /** The Expense schema: no owner, and a date that defaults to the moment of creation. */
  datatype Expense = Expense(vehicleNo: string, reason: string, cost: real, date: int)

  /** Creating an Expense document: required strings must be non-empty, and a missing date becomes `now`. */
  function NewExpense(vehicleNo: string, reason: string, cost: real, date: Option<int>, now: int): (r: Result<Expense>)
    ensures r.Ok? <==> |vehicleNo| > 0 && |reason| > 0
    ensures r.Ok? ==> r.value.vehicleNo == vehicleNo && r.value.reason == reason && r.value.cost == cost
    ensures r.Ok? ==> r.value.date == (if date.Some? then date.value else now)
  {
    if |vehicleNo| == 0 || |reason| == 0 then Err("Validation error")
    else Ok(Expense(vehicleNo, reason, cost, date.GetOr(now)))
  }
}
