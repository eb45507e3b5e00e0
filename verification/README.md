# Vehicle log: a Dafny model

This project models the logic of a small vehicle-management web application. It has two halves: an Express backend that stores each user's account logs, trips and mileage readings, and a React client whose pages compute the derived figures before they post them.

**Server (`server/server.js`, duplicated in `server/Routes.js`)**
- `GET /accountlog/summary`:
  - chooses the window of the current month or year;
  - keeps the caller's account logs and trips dated on or after its start;
  - sums their costs and charges, and takes income minus expense as the profit or loss;
  - returns the tagged rows (`Expense` / `Income`) sorted newest first.
- `GET /history`: merges the caller's mileage readings and trips into `Mileage` / `Trip` rows, sorted newest first.
- The write handlers `POST /signup`, `/accountlog`, `/trip` and `/mileage`: each decides from the request body alone whether a record is stored.
- `server/Models.js`: the record shapes and their required, enum and unique constraints.

**Client pages**
- Trip Book: distance and charge.
- Mileage Calculator: km per litre.
- Fuel Estimator: fuel and cost for a planned distance.
- History: filter by vehicle and type.
- Account Log: add an expense, choose the period, show profit or loss.

Each page is modelled together with the request body it posts and what it does once the post settles. The module `ClientServer` composes both halves. It states, for each page, which of the bodies the page produces the running server actually stores.

**How the model represents the program**
- Amounts are exact `real`s. Instants are `int` milliseconds on the local wall-clock timeline, and "now" is a parameter.
- Store queries become filters over sequences kept in store order.
- JavaScript's `parseFloat` is a decimal parser of our own (`NumberParsing`). NaN appears as `None`.
- `toFixed(2)` is modelled on exact reals: the nearest hundredth, ties away from zero (`NumberParsing.Cents`). Its text read back through the parser gives the value rounded to hundredths.
- JSON body fields are `JsValues.Value`, so truthiness, `== null` and `typeof` tests are exact.
- The sort with comparator `(a, b) => new Date(b.date) - new Date(a.date)` is a stable insertion sort. It is characterised by three facts:
  - it is non-increasing by date;
  - it is a permutation of its input;
  - on every date, the rows keep their input order.

  `Entries.StableSortUnique` proves that these three facts fix the result.

**Two facts of the code the model keeps**
- Neither the trip handler nor the mileage handler checks that the odometer readings are ordered or that the derived figures agree with them (`Requests.TripConsistencyUnchecked`, `Requests.MileageConsistencyUnchecked`).
- For a missing field the mileage handler in server/server.js:347-349 sends nothing, while its duplicate in server/Routes.js:248-249 answers 400 (see Findings).

## Model

| member | source | states |
|---|---|---|
| Summary.ParsePeriod | server/server.js:241-251 | an absent period means monthly; only the exact names "monthly" and "yearly" are accepted, anything else is the 400 message |
| Summary.DefaultIsMonthly | server/server.js:241 | a summary request without `period` is answered exactly as a monthly one |
| Summary.StartDate | server/server.js:245-249 | the window starts at local midnight of day 1 of the current month (monthly) or of January 1 (yearly), never after now |
| Calendar.WindowsNested | server/server.js:245-249 | start of year <= start of month <= now |
| Calendar.MonthWindowExact | server/server.js:246 | an instant is on or after the month start exactly when its calendar month is the current one or later |
| Calendar.YearWindowExact | server/server.js:248 | an instant is on or after the year start exactly when its year is the current one or later |
| Summary.LogsInWindow | server/server.js:255-258 | a log is selected exactly when it belongs to the user and its date is >= the start (inclusive) |
| Summary.LogsInWindowCounts | server/server.js:255-258 | each selected log appears as often as it is stored, every other log not at all |
| Summary.LogsInStoreOrder | server/server.js:255-258 | the selected logs are a subsequence of the store |
| Summary.TripsInWindow | server/server.js:262-265 | a trip is selected exactly when it belongs to the user and its `time` is >= the start |
| Summary.TripsInWindowCounts | server/server.js:262-265 | each selected trip appears as often as it is stored, every other trip not at all |
| Summary.TripsInStoreOrder | server/server.js:262-265 | the selected trips are a subsequence of the store |
| Summary.TotalCost | server/server.js:259 | the reduce starts at 0, so no logs give 0, and non-negative costs give a non-negative total |
| Summary.TotalCharges | server/server.js:266 | the reduce starts at 0, so no trips give 0, and non-negative charges give a non-negative total |
| Summary.ExpenseRow | server/server.js:273-277 | an `Expense` row dated by the log, whose details open with "Cost: ₹" and a number that reads back as the cost rounded to hundredths |
| Summary.IncomeRow | server/server.js:278-282 | an `Income` row dated by the trip's `time`, whose details open with "Trip Income: ₹" and a number that reads back as the charge rounded to hundredths |
| Summary.Summarize | server/server.js:239-297 | 400 exactly for an unknown period; otherwise the totals are the cost and charge sums over the window, profit = income - expense, and there is one row per expense and per trip, newest first, and are a permutation of the tagged rows |
| Summary.ExpenseAdditive | server/server.js:255-259 | the expense total over a split store is the sum of the totals of the parts |
| Summary.IncomeAdditive | server/server.js:262-266 | the income total over a split store is the sum of the totals of the parts |
| Summary.OutsideLogIgnored | server/server.js:255-259 | inserting, anywhere, a log dated before the start or owned by another user leaves the whole summary unchanged |
| Summary.OutsideTripIgnored | server/server.js:262-266 | inserting, anywhere, a trip dated before the start or owned by another user leaves the whole summary unchanged |
| Summary.InsideLogCounted | server/server.js:255-269 | inserting a log inside the window raises the expense total by its cost, keeps income, and lowers profit by that cost |
| Summary.EmptyWindow | server/server.js:259 | with nothing in the window the totals are 0 and no rows are listed |
| Summary.EarlierStartCostsMore | server/server.js:255-259 | with non-negative costs, an earlier start never gives a smaller expense total |
| Summary.YearlyCoversMonthly | server/server.js:245-259 | with positive costs the yearly expense total is at least the monthly one |
| Summary.TiesKeepExpensesFirst | server/server.js:272-283 | on any one date the rows are the expense rows, then the income rows, each in store order |
| Summary.MonthlyWindowIsCurrentMonth | server/server.js:245-258 | a log stamped at local time t counts monthly exactly when t's month is the current month or later |
| Summary.YearlyWindowIsCurrentYear | server/server.js:247-258 | a log stamped at local time t counts yearly exactly when t's year is the current year or later |
| Summary.TotalCostConcat | server/server.js:259 | the reduce-sum of costs distributes over concatenation |
| Summary.LogsInWindowConcat | server/server.js:255-258 | the window query distributes over concatenation of the store |
| Entries.Insert | server/server.js:283 | inserting into a newest-first list keeps it newest first and adds exactly one row |
| Entries.SortNewestFirst | server/server.js:283 | the result is newest first and a permutation of the input |
| Entries.SortStable | server/server.js:283 | the sort is stable: the rows of each date keep their input order |
| Entries.SortTies | server/server.js:283 | on a shared date, rows from the first part of a concatenation stay ahead of the second's |
| Entries.StableSortUnique | server/server.js:401 | any newest-first list keeping each date's input order is exactly the sort's result |
| History.OwnedMileage | server/server.js:385 | a reading is selected exactly when it belongs to the user |
| History.OwnedMileageCounts | server/server.js:385 | each owned reading appears as often as it is stored, every other reading not at all |
| History.OwnedMileageInStoreOrder | server/server.js:385 | the owned readings are a subsequence of the store |
| History.OwnedTrips | server/server.js:386 | a trip is selected exactly when it belongs to the user |
| History.OwnedTripsCounts | server/server.js:386 | each owned trip appears as often as it is stored, every other trip not at all |
| History.OwnedTripsInStoreOrder | server/server.js:386 | the owned trips are a subsequence of the store |
| History.MileageRow | server/server.js:389-393 | a `Mileage` row dated by the reading, whose details open with "Vehicle: " and the vehicle number |
| History.TripRow | server/server.js:394-398 | a `Trip` row dated by the trip's `time`, whose details open with "Vehicle: " and the vehicle number |
| History.BuildHistory | server/server.js:388-401 | the history has one row per owned reading and per owned trip, newest first, a permutation of the mileage rows followed by the trip rows |
| History.HistoryRowsTagged | server/server.js:388-398 | each row is a Mileage row of an owned reading or a Trip row of an owned trip dated by its `time` |
| History.HistoryComplete | server/server.js:388-399 | every owned reading and trip appears in the history |
| History.HistoryTiesKeepMileageFirst | server/server.js:388-401 | on a shared date the mileage rows precede the trip rows, each in store order |
| History.OtherMileageInvisible | server/server.js:385 | another user's reading, inserted at any position of the stored readings, leaves the history unchanged |
| History.OtherTripInvisible | server/server.js:386 | another user's trip, inserted at any position of the stored trips, leaves the history unchanged |
| History.OwnedMileageSkip | server/server.js:385 | inserting another user's reading anywhere leaves the owner query's answer unchanged |
| History.OwnedTripsSkip | server/server.js:386 | inserting another user's trip anywhere leaves the owner query's answer unchanged |
| History.OwnedMileageConcat | server/server.js:385 | the owner query distributes over any split of the stored readings |
| History.OwnedTripsConcat | server/server.js:386 | the owner query distributes over any split of the stored trips |
| History.MileageRowMentionsVehicle | server/server.js:392 | a mileage row's lower-cased details contain its lower-cased vehicle number |
| History.TripRowMentionsVehicle | server/server.js:397 | a trip row's lower-cased details contain its lower-cased vehicle number |
| History.MileageRowLabelled | server/server.js:392 | a mileage row's lower-cased details contain the word "vehicle" |
| History.TripRowLabelled | server/server.js:397 | a trip row's lower-cased details contain the word "vehicle" |
| Models.ParseUserType | server/Models.js:7 | only "admin" and "driver" name a user type, and the name read back is the one given |
| Models.UserTypeRoundTrip | server/Models.js:7 | the enum's names and values correspond one to one |
| Models.ValidateUser | server/Models.js:4-9 | a user validates exactly when email, username and password are non-empty and the type is in the enum; the fields are kept |
| Models.NewExpense | server/Models.js:45-50 | an Expense needs non-empty vehicle and reason; a missing date becomes the creation time |
| Requests.MapUserType | server/server.js:127-129 | the type is lower-cased; any value other than "owner" passes through unchanged |
| Requests.UserTypeMapping | server/Routes.js:28-30 | the mapped type is "admin" exactly for "owner"/"admin" in any case, "driver" exactly for "driver" in any case |
| Requests.Signup | server/server.js:108-148 | the missing-field message exactly when a field is empty; a stored user keeps the email, username and id, with the mapped type |
| Requests.SignupAcceptSet | server/server.js:112-139 | a signup is stored exactly when all four fields are given, email and username are free, the lower-cased type is owner/admin/driver and a hash exists |
| Requests.SignupKeepsAccountsUnique | server/server.js:117-125 | accepting a signup keeps emails and usernames unique across users |
| Requests.PostAccountLog | server/server.js:199-220 | the missing-field 400 exactly for an empty vehicle, empty reason or falsy cost; a stored log has the caller, the server's clock, the given texts and the parsed positive cost |
| Requests.AccountLogAcceptSet | server/server.js:201-208 | a log is stored exactly when vehicle and reason are non-empty and the cost parses to a positive number |
| Requests.PostTrip | server/server.js:304-337 | the missing-field 400 exactly when a field is falsy; a stored trip carries the body's numbers and the parsed time, all of them positive |
| Requests.TripAcceptSet | server/server.js:306-318 | a trip is stored exactly when every numeric field is a positive number, the vehicle is given and the time parses |
| Requests.TripZeroStartRefused | server/server.js:306-308 | a trip with `initialKm` 0 is refused as missing |
| Requests.TripConsistencyUnchecked | server/server.js:310-318 | a trip whose readings run backwards and whose figures disagree is stored |
| Requests.PostTripIntended | server/server.js:306-318 | with presence checked by `== null`, a trip is stored exactly when the readings and derived figures are non-negative numbers and the price is positive |
| Requests.TripIntendedExtends | server/server.js:306-318 | the intended handler stores all the running one stores, and more only where a numeric field is 0 |
| Requests.PostMileage | server/server.js:347-351 | as written: no reply at all exactly when a field is missing, and never a throw |
| Requests.PostMileageRoutes | server/Routes.js:248-257 | the duplicate never stores; it throws exactly when all fields are present and numbers |
| Requests.PostMileageIntended | server/Routes.js:248-258 | a 400 for a missing field exactly when one is missing; a stored reading carries the body's numbers, in range |
| Requests.MileageIntendedAgrees | server/server.js:347-358 | the intended handler always answers and agrees with the running one wherever that one answers |
| Requests.MileageReadingStored | server/server.js:353-359 | a well-formed reading with ordered readings is stored exactly when its mileage is positive, otherwise refused as out of range |
| Requests.MileageAcceptSet | server/server.js:347-359 | the intended accept set: vehicle and parseable date given, readings and distance non-negative numbers, fuel and mileage positive |
| Requests.MileageZeroStartStored | server/server.js:347-359 | a complete reading starting at 0 km is stored |
| Requests.MileageConsistencyUnchecked | server/server.js:353-359 | a reading whose odometer runs backwards and whose figures disagree is stored |
| NumberParsing.ParseFloatAcceptSet | client/src/pages/TripBook.js:18-20 | `parseFloat` gives a number exactly when, after leading white space and an optional sign, a digit or a point and a digit follow |
| NumberParsing.ParseShowNat | client/src/pages/TripBook.js:18-20 | `parseFloat` of the digits of n is n |
| NumberParsing.ParseNegativeShowNat | client/src/pages/TripBook.js:18-20 | `parseFloat` of "-" and the digits of n is -n |
| NumberParsing.BlankIsNaN | client/src/pages/MileageCalculator.js:55-60 | an empty or blank field parses to NaN |
| NumberParsing.Cents | client/src/pages/TripBook.js:41 | toFixed(2) counts the nearest whole number of hundredths, ties upward |
| NumberParsing.RoundTo2 | client/src/pages/TripBook.js:41-42 | the value shown is within half a hundredth of the exact one, is 0 exactly for inputs under half a hundredth in size, and keeps the sign |
| NumberParsing.ToFixed2 | client/src/pages/TripBook.js:41 | the text ends in a point and two digits, starts with a digit after an optional minus, and has the minus exactly for negative values |
| NumberParsing.ParseToFixed2 | client/src/pages/TripBook.js:41-42 | parsing `x.toFixed(2)` back gives x rounded to hundredths |
| NumberParsing.ParseToFixed2Then | server/server.js:276 | `x.toFixed(2)` followed by text that cannot continue the literal (" on …") still reads back as x rounded to hundredths |
| NumberParsing.ToFixed2NonEmpty | client/src/pages/TripBook.js:55 | `toFixed(2)` never produces an empty field |
| JsValues.ParseFloat | server/server.js:205 | `parseFloat` of a body value: a number is itself; a string gives a number exactly when a literal starts after white space and sign |
| JsValues.FromParsed | client/src/pages/TripBook.js:63-67 | the sent value is a number exactly when the parse succeeded, null exactly for NaN, and parsing it again gives the same result |
| JsValues.OrZero | client/src/pages/MileageCalculator.js:16-18 | `parseFloat(x) or 0` is 0 exactly for NaN or a parsed 0, and otherwise the parsed number |
| TripBook.ChargeFor | client/src/pages/TripBook.js:27-38 | success exactly for parseable non-negative readings, positive price and final > initial; then the distance is positive and adds to initial to give final, and the charge is distance times price |
| TripBook.Calculate | client/src/pages/TripBook.js:17-38 | "All input fields are required" exactly when an input is empty; success exactly when inputs are in range and final > initial, with positive distance and charge |
| TripBook.ChargeRecoversDistance | client/src/pages/TripBook.js:37-38 | the charge divided by the price gives back the distance |
| TripBook.HandleCalculate | client/src/pages/TripBook.js:17-45 | on success the inputs are untouched, the time is set, and distance and charge read back as their values rounded to hundredths |
| TripBook.HandleSave | client/src/pages/TripBook.js:47-71 | the body is sent exactly with a token and all seven fields filled; it carries the fields parsed |
| TripBook.AfterSave | client/src/pages/TripBook.js:72-85 | a stored trip empties the form; any other outcome leaves it as it was |
| TripBook.CalculateThenSave | client/src/pages/TripBook.js:37-68 | saving right after a calculation sends the typed numbers and the rounded distance and charge |
| MileageCalculator.KmPerLitre | client/src/pages/MileageCalculator.js:25-37 | success exactly for 0 <= initial <= final and fuel > 0; the figure is non-negative and 0 exactly for equal readings |
| MileageCalculator.KmPerLitreTimesFuel | client/src/pages/MileageCalculator.js:36-37 | the figure times the fuel gives back the distance |
| MileageCalculator.HandleCalculate | client/src/pages/MileageCalculator.js:15-40 | no error exactly when the vehicle is given and the readings are in range; an error clears the mileage; success shows the figure rounded to hundredths |
| MileageCalculator.HandleSave | client/src/pages/MileageCalculator.js:42-73 | the body is sent exactly with a token, a mileage, a vehicle and three parseable readings; its distance is final minus initial |
| MileageCalculator.AfterSave | client/src/pages/MileageCalculator.js:79-89 | a stored reading empties the form; any other outcome leaves it as it was |
| MileageCalculator.SaveAfterCalculate | client/src/pages/MileageCalculator.js:55-73 | saving right after a calculation sends the typed readings, their difference and the rounded figure |
| MileageCalculator.BlankReadingCalculatesButNeverSaves | client/src/pages/MileageCalculator.js:55-62 | a blank reading counts as 0 in the calculation but blocks the save |
| FuelEstimator.EstimateFor | client/src/pages/FuelEstimator.js:16-35 | the two errors exactly for kms <= 0 and for mileage <= 0; the fuel is positive and times the mileage gives the kms; a cost exactly when the price is positive, and cost / price = fuel |
| FuelEstimator.CalculateFuel | client/src/pages/FuelEstimator.js:11-37 | on an error both outputs are empty; otherwise the fuel, and the cost exactly when priced, read back as their values rounded to hundredths |
| FuelEstimator.EstimateInvertsMileage | client/src/pages/FuelEstimator.js:29 | planning a measured run's distance at its measured km per litre needs exactly the fuel it used |
| Text.Lower | client/src/pages/History.js:31 | same length, no upper-case ASCII letter left, every other character kept |
| Text.LowerIdempotent | client/src/pages/History.js:31 | lower-casing twice is lower-casing once |
| Text.Contains | client/src/pages/History.js:31 | `includes`: the empty text and the text itself are contained, and nothing longer than the text is |
| Text.ContainsInfix | client/src/pages/History.js:31 | a text contains whatever stands inside it |
| HistoryPage.FilterHistory | client/src/pages/History.js:30-32 | a row is kept exactly when its lower-cased details contain the lower-cased vehicle and its type is the selected one |
| HistoryPage.FilterCounts | client/src/pages/History.js:30-32 | each kept row appears as often as it was fetched |
| HistoryPage.HandleView | client/src/pages/History.js:12-34 | an error, and no fetch, exactly without a token or a vehicle number; otherwise the kept rows |
| HistoryPage.FilterIsSubsequence | client/src/pages/History.js:30-34 | the kept rows are a subsequence of the fetched ones |
| HistoryPage.FilterKeepsOrder | client/src/pages/History.js:30-34 | filtering a newest-first history leaves it newest first |
| HistoryPage.OwnMileageKept | client/src/pages/History.js:31 | filtering mileage rows by a reading's vehicle number, in any letter case, keeps every copy of its row |
| HistoryPage.OwnTripKept | client/src/pages/History.js:31 | filtering trip rows by a trip's vehicle number, in any letter case, keeps every copy of its row |
| HistoryPage.LabelMatchesEverything | client/src/pages/History.js:31 | the query "Vehicle" keeps every row of the chosen type, since the test is a substring test |
| AccountLogPage.HandleAddExpense | client/src/pages/AccountLog.js:16-38 | the body is sent exactly with a token, three non-empty fields and a cost that parses positive; it carries the parsed cost |
| AccountLogPage.AfterAdd | client/src/pages/AccountLog.js:39-48 | a stored expense empties the form; any other outcome leaves it as it was |
| AccountLogPage.PeriodChoicesUnderstood | client/src/pages/AccountLog.js:124-125 | both choices are periods the server accepts, and the preselected one is the server's default |
| AccountLogPage.ShowProfitLoss | client/src/pages/AccountLog.js:155-159 | "Profit" exactly for a non-negative balance; the shown amount is non-negative and signed back gives the balance |
| AccountLogPage.StandingOfTotals | client/src/pages/AccountLog.js:155-159 | profit exactly when income >= expense, shown as the distance from break-even |
| AccountLogPage.ShownStanding | client/src/pages/AccountLog.js:155 | on the server's two-decimal text, a loss of under half a hundredth is shown as a profit, and the standing is the balance rounded |
| ClientSession.Settle | client/src/pages/TripBook.js:82-85 | a form is cleared exactly on a stored record; a 400 or 500 shows exactly the prefix followed by the server's message; no reply or a throw leaves the page waiting |
| ClientServer.ExpenseAccepted | client/src/pages/AccountLog.js:36 | every expense the page sends is stored with the cost it parsed and the server's clock |
| ClientServer.TripAcceptedIff | client/src/pages/TripBook.js:61-68 | a calculated trip is stored exactly when its time parses, its start reading is not 0, and distance and charge do not round to 0.00 |
| ClientServer.MileageAcceptedIff | client/src/pages/MileageCalculator.js:65-76 | a calculated reading is stored exactly when its km per litre does not round to 0.00, otherwise refused as out of range |
| ClientServer.EqualReadingsRefused | client/src/pages/MileageCalculator.js:30-38 | equal readings, which the page accepts, are refused by the server |
| ClientServer.ChoicesAlwaysSummarized | client/src/pages/AccountLog.js:124-125 | either period choice gets a summary |
| ClientServer.ViewedHistory | client/src/pages/History.js:26-34 | the page shows, newest first, only the user's history rows of the chosen type that mention the vehicle, and every row of a record of that vehicle, in any letter case |
| ClientServer.ViewedMileage | client/src/pages/History.js:30-32 | every owned reading of the queried vehicle, in any letter case, is among the mileage rows shown |
| ClientServer.ViewedTrips | client/src/pages/History.js:30-32 | every owned trip of the queried vehicle, in any letter case, is among the trip rows shown |

## Left out

- Token issuance and checking (`jwt`) and password hashing (`bcrypt`) are library calls. The model has a `hasToken` flag on the client and a `passwordHash` parameter on the server.
- The sign-in, profile and `GET /accountlog` routes are not modelled: they only read the store and call those libraries.
- The store is not modelled. Query results and the email/username lookups are sequences passed in, and "now" is a parameter.
- A failed save is a `ServerError` only where the body's date cannot be read; other store failures are not modelled.
- Time zones and daylight-saving shifts are left out. Every instant lies on the local wall-clock timeline.
- Parsing date strings (`new Date(text)`) is left out. Its result is carried next to the text in `JsValues.DateInput`.
- `toLocaleDateString` and the number-to-text conversion in history rows are `Entries.Format` parameters.
- Summary.Summarize: the three totals are exact reals. The server sends them as `toFixed(2)` text; `AccountLogPage.ShownStanding` composes that step.
- Numbers are exact reals, not IEEE doubles. The model has no overflow, no binary rounding, no `Infinity` and no exponent notation in `toFixed` for values of 1e21 or more.
- `parseFloat` does not read "Infinity", and `toLowerCase` folds only ASCII letters. The white space `parseFloat` skips is the ECMAScript WhiteSpace and LineTerminator set (`NumberParsing.IsSpace`).
- Request fields that are arrays or objects are left out. Text fields of a body are strings, and an absent one is the empty string.
- Rendering, navigation, timeouts, success banners and endpoint URLs are left out.
- The trip and mileage posts omit the `/api` prefix the server mounts its router under. The model assumes they reach the handlers.
- ClientSession.Settle: a thrown handler is taken to send nothing, so the page keeps waiting. That is Express 4 with a Node release that only warns about an unhandled rejection. On Node 15 or later the process exits and the client sees a network error; Express 5 answers 500. Neither is modelled.
- Requests.MapUserType: its contract states only that non-"owner" values pass through. The "owner" and case-insensitive cases are stated in `Requests.UserTypeMapping`.

## Findings

| source | as written | input that shows it | evidently intended | confidence | as-written member | corrected member |
|---|---|---|---|---|---|---|
| server/server.js:347-351 | a bare `return` followed by a line break ends the statement, so a request with a missing field gets no reply and the client waits forever | a mileage body without `date` | reply 400 "All fields are required", as server/Routes.js:248-249 does | high; not executed | Requests.PostMileage | Requests.MileageIntendedAgrees |
| server/Routes.js:256 | the range test reads the undefined name `_signupinitialKm`, so every complete, numeric mileage request throws | any mileage body with all fields present and numeric | test `initialKm < 0` | high; not executed | Requests.PostMileageRoutes | Requests.PostMileageIntended |
| server/server.js:306 | presence is checked by truthiness, so a numeric 0 counts as missing and a trip starting at 0 km is refused, though the range test allows 0 | `initialKm = 0` with every other field valid | check presence with `== null`, as the mileage handler does | medium; not executed | Requests.TripZeroStartRefused | Requests.TripIntendedExtends |
