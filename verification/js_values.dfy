/**
  The JSON values a request body field can hold, and the JavaScript tests
  the handlers apply to them: truthiness (`!x`), loose null equality
  (`x == null`), `typeof x === 'number'` and `parseFloat(x)`.
*/
module JsValues {
  import opened Wrappers
  import NumberParsing

  /** A body field: absent (`undefined`), `null`, or a JSON scalar. JSON cannot carry NaN or Infinity. */
  datatype Value = Missing | Null | Bool(b: bool) | Num(n: real) | Str(s: string)

  /** `!!v`: false for `undefined`, `null`, `false`, `0` and `""`. */
  predicate Truthy(v: Value) {
    match v
    case Missing => false
    case Null => false
    case Bool(b) => b
    case Num(n) => n != 0.0
    case Str(s) => |s| > 0
  }

  /** `v == null`, which also holds of `undefined`. */
  predicate IsNullish(v: Value) {
    v.Missing? || v.Null?
  }

  /** `typeof v === 'number'`. */
  predicate IsNumber(v: Value) {
    v.Num?
  }

  /** `parseFloat(v)`: numbers are themselves, strings are parsed, the rest print as words and give NaN. */
  function ParseFloat(v: Value): (r: Option<real>)
    ensures v.Num? ==> r == Some(v.n)
    ensures r.Some? <==> v.Num? || (v.Str? && NumberParsing.StartsLiteral(NumberParsing.Unsigned(NumberParsing.TrimStart(v.s))))
  {
    match v
    case Num(n) => Some(n)
    case Str(s) =>
      NumberParsing.ParseFloatAcceptSet(s);
      NumberParsing.ParseFloat(s)
    case _ => None
  }

  /** `parseFloat(x) || 0`: NaN and zero both become zero, any other number is kept. */
  function OrZero(parsed: Option<real>): (r: real)
    ensures r == 0.0 <==> parsed.None? || parsed == Some(0.0)
    ensures r != 0.0 ==> parsed == Some(r)
  {
    match parsed
    case Some(x) => x
    case None => 0.0
  }

  /**
    How `JSON.stringify` sends a parsed number: NaN travels as `null`. The
    server's `typeof` test passes exactly for a number, its `== null` test
    exactly for NaN, and parsing the sent value gives back what was parsed.
  */
  function FromParsed(parsed: Option<real>): (v: Value)
    ensures IsNumber(v) <==> parsed.Some?
    ensures IsNullish(v) <==> parsed.None?
    ensures ParseFloat(v) == parsed
  {
    match parsed
    case Some(x) => Num(x)
    case None => Null
  }

  /**
    A date field of a request: absent, or a text together with what
    `new Date(text)` makes of it (`None` for an Invalid Date). Date-string
    parsing belongs to the runtime and is not modelled.
  */
  datatype DateInput = Absent | DateText(text: string, parsed: Option<int>)

  /** `!!date`: an absent or empty date field is falsy. */
  predicate DateGiven(d: DateInput) {
    d.DateText? && |d.text| > 0
  }
}
