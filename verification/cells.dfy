/**
 * What the preprocessors and augmentors do to a single cell: the functions
 * `Series.apply` runs (lamd/mdlist.py lines 27-121), one value at a time.
 */
module Cells {
  import opened Values
  import opened PyText

  /** The strings `pd.to_datetime` reads as NaT. */
  const NatStrings: set<string> := {"", "NaT", "nat", "NAT", "nan", "NaN", "NAN"}

  /** The days a nanosecond `pd.Timestamp` can hold at midnight (1677-09-22 to 2262-04-11). */
  predicate InTimestampRange(d: Day) {
    DayLe(Day(1677, 9, 22), d) && DayLe(d, Day(2262, 4, 11))
  }

  /**
   * `pd.to_datetime` on one cell: dates and midnight datetimes inside the
   * Timestamp range become timestamps, `YYYY-MM-DD` strings are parsed,
   * the NaT strings and missing cells stay missing; everything else raises.
   */
  function ToDatetime(v: Value): (r: Result<Value>)
    ensures v.Missing? ==> r == Ok(Missing)
    ensures v.Date? || v.Stamp? ==> r == (if InTimestampRange(v.date) then Ok(Stamp(v.date)) else Err(ValueError))
    ensures v.Bool? || v.List? || v.Dict? ==> r == Err(TypeError)
    ensures r.Ok? ==> r.value.Missing? || (r.value.Stamp? && InTimestampRange(r.value.date))
  {
    match v
    case Missing => Ok(Missing)
    case Date(d) => if InTimestampRange(d) then Ok(Stamp(d)) else Err(ValueError)
    case Stamp(d) => if InTimestampRange(d) then Ok(Stamp(d)) else Err(ValueError)
    case Str(s) =>
      if s in NatStrings then Ok(Missing)
      else (
        match ParseIso(s)
        case Some(d) => if InTimestampRange(d) then Ok(Stamp(d)) else Err(ValueError)
        case None => Err(ValueError))
    case Int(_) => Err(ValueError)
    case _ => Err(TypeError)
  }

  /** Converting a converted cell again changes nothing. */
  lemma ToDatetimeIdempotent(v: Value)
    requires ToDatetime(v).Ok?
    ensures ToDatetime(ToDatetime(v).value) == ToDatetime(v)
  {
  }

  /** A date written as `YYYY-MM-DD` is read back as the same day. */
  lemma ToDatetimeOfIso(d: CalendarDay)
    requires InTimestampRange(d)
    ensures ToDatetime(Str(FormatIso(d))) == Ok(Stamp(d))
  {
    IsoRoundTrip(d);
    var s := FormatIso(d);
    assert |s| == 10 && s[4] == '-';
    assert s !in NatStrings;
  }

  /**
   * The per-cell effect of `convert_int`: pandas' numeric conversion, then
   * Python's integer conversion and the nullable integer type: integers stay, booleans count as 0 and 1, integer strings are
   * parsed, missing stays missing.
   */
  function ToInt(v: Value): (r: Result<Value>)
    ensures v.Missing? ==> r == Ok(Missing)
    ensures v.Int? ==> r == Ok(v)
    ensures v.Bool? ==> r == Ok(Int(BoolAsInt(v.b)))
    ensures v.Str? && ParseInt(v.s).Some? ==> r == Ok(Int(ParseInt(v.s).value))
    ensures v.Str? && ParseInt(v.s).None? ==> r == Err(ValueError)
    ensures v.Date? || v.Stamp? || v.List? || v.Dict? ==> r == Err(TypeError)
    ensures r.Ok? ==> r.value.Missing? || r.value.Int?
  {
    match v
    case Missing => Ok(Missing)
    case Int(i) => Ok(v)
    case Bool(b) => Ok(Int(BoolAsInt(b)))
    case Str(s) =>
      (match ParseInt(s)
       case Some(i) => Ok(Int(i))
       case None => Err(ValueError))
    case _ => Err(TypeError)
  }

  /**
   * Python's `str(x)` of a cell. The text Python gives a list or a dict
   * (its repr) is the parameter `repr`.
   */
  function PyStr(v: Value, repr: Value -> string): string {
    match v
    case Int(i) => ShowInt(i)
    case Str(s) => s
    case Bool(b) => if b then "True" else "False"
    case Date(d) => FormatIso(d)
    case Stamp(d) => FormatIso(d) + " 00:00:00"
    case _ => repr(v)
  }

  /** The per-cell function of `convert_string`: a missing cell stays missing, any other becomes its Python text. */
  function ToStr(v: Value, repr: Value -> string): (r: Result<Value>)
    ensures v.Missing? ==> r == Ok(Missing)
    ensures v.Str? ==> r == Ok(v)
    ensures v.Int? ==> r == Ok(Str(ShowInt(v.i)))
    ensures r.Ok? ==> r.value.Missing? || r.value.Str?
    ensures !v.List? ==> r.Ok?
  {
    var na :- NaTruth(v);
    if na then Ok(Missing) else Ok(Str(PyStr(v, repr)))
  }

  /** Stringifying an integer and converting it back to an integer restores it. */
  lemma {:induction false} ToIntAfterToStr(i: int, repr: Value -> string)
    ensures ToInt(ToStr(Int(i), repr).value) == Ok(Int(i))
  {
    ParseShowInt(i);
  }

  /** The per-cell function of `convert_new_year_day`: a missing cell stays missing, any other becomes its Python text followed by the first of January. */
  function NewYearDay(v: Value, repr: Value -> string): (r: Result<Value>)
    ensures v.Missing? ==> r == Ok(Missing)
    ensures v.Int? ==> r == Ok(Str(ShowInt(v.i) + "-01-01"))
    ensures r.Ok? && !r.value.Missing? ==> r.value.Str? && |r.value.s| >= 6
    ensures r.Ok? && !r.value.Missing? ==> r.value.s[|r.value.s| - 6..] == "-01-01"
    ensures !v.List? ==> r.Ok?
  {
    var na :- NaTruth(v);
    if na then Ok(Missing) else Ok(Str(PyStr(v, repr) + "-01-01"))
  }

  lemma {:induction false} ShowNatFourDigits(y: nat)
    requires 1000 <= y <= 9999
    ensures ZeroPad(y, 4) == ShowNat(y) && |ShowNat(y)| == 4
  {
    ShowNatLength(y, 4);
    ShowNatLengthAtLeast(y, 3);
  }

  /**
   * A bare year passed through the new-year-day preprocessor and then the
   * datetime converter becomes 1 January of that year, for every year a
   * Timestamp can hold.
   */
  lemma {:induction false} NewYearDayThenDatetime(y: int, repr: Value -> string)
    requires 1678 <= y <= 2262
    ensures ToDatetime(NewYearDay(Int(y), repr).value) == Ok(Stamp(Day(y, 1, 1)))
  {
    var d: CalendarDay := Day(y, 1, 1);
    ShowNatFourDigits(y);
    assert ZeroPad(1, 2) == "01";
    assert FormatIso(d) == ShowInt(y) + "-01-01";
    ToDatetimeOfIso(d);
  }

  /** A C `int`, the range `datetime.datetime` reads its arguments into. */
  predicate IsCInt(n: int) {
    -2147483648 <= n <= 2147483647
  }

  /**
   * Python's datetime constructor on year y, month m and day d: OverflowError for an
   * argument outside a C int, ValueError for a day the calendar lacks.
   */
  function PyDate(y: int, m: int, d: int): (r: Result<CalendarDay>)
    ensures r.Ok? <==> ValidDay(Day(y, m, d))
    ensures r.Ok? ==> r.value == Day(y, m, d)
    ensures r.Err? ==> r.error == (if IsCInt(y) && IsCInt(m) && IsCInt(d) then ValueError else OverflowError)
  {
    if !(IsCInt(y) && IsCInt(m) && IsCInt(d)) then Err(OverflowError)
    else if ValidDay(Day(y, m, d)) then Ok(Day(y, m, d))
    else Err(ValueError)
  }

  /** The timestamp cell Python's datetime constructor makes from a year, month and day. */
  function YearStamp(y: int, month: int, day: int): (r: Result<Value>)
    ensures r.Ok? <==> ValidDay(Day(y, month, day))
    ensures r.Ok? ==> r.value == Stamp(Day(y, month, day))
    ensures r.Err? ==> r.error == (if IsCInt(y) && IsCInt(month) && IsCInt(day) then ValueError else OverflowError)
  {
    var d :- PyDate(y, month, day);
    Ok(Stamp(d))
  }

  /**
   * `year_to_iso` inside `convert_year_iso`: an `int` year or a string
   * `int()` accepts becomes that year's `month`/`day`; a `datetime.date`
   * (that exact type) is returned unchanged; any other cell, missing ones
   * included, raises TypeError. A string `int()` rejects raises the
   * ValueError from `int()`: the `except TypeError` retry with
   * `strptime` is never reached.
   */
  function YearToIso(v: Value, month: int, day: int): (r: Result<Value>)
    ensures v.Int? ==> r == YearStamp(v.i, month, day)
    ensures v.Str? && PyInt(v.s).None? ==> r == Err(ValueError)
    ensures v.Str? && PyInt(v.s).Some? ==> r == YearStamp(PyInt(v.s).value, month, day)
    ensures v.Date? ==> r == Ok(v)
    ensures !(v.Int? || v.Str? || v.Date?) ==> r == Err(TypeError)
    ensures r.Ok? ==> (r.value.Stamp? && r.value.date.month == month && r.value.date.day == day) || r == Ok(v)
  {
    match v
    case Int(y) => YearStamp(y, month, day)
    case Str(s) =>
      (match PyInt(s)
       case None => Err(ValueError)
       case Some(y) => YearStamp(y, month, day))
    case Date(_) => Ok(v)
    case _ => Err(TypeError)
  }

  /** A year written as a decimal string converts exactly like the integer year. */
  lemma {:induction false} YearToIsoOfText(y: int, month: int, day: int)
    ensures YearToIso(Str(ShowInt(y)), month, day) == YearToIso(Int(y), month, day)
  {
    ParseShowInt(y);
    PyIntAgrees(ShowInt(y));
  }

  /** A full ISO date string is rejected rather than parsed. */
  lemma FullDateStringRejected(month: int, day: int)
    ensures YearToIso(Str("2021-03-04"), month, day) == Err(ValueError)
  {
    var text := "2021-03-04";
    PyIntUntrimmed(text);
    assert !IsDigit(text[4]) && text[4] != '_';
    assert !Underscored(text);
    assert PyInt(text) == None;
  }

  const MonthNames: seq<string> := ["January", "February", "March", "April", "May", "June",
    "July", "August", "September", "October", "November", "December"]

  /**
   * The per-cell function of `addmonth` and `augmentmonth`, on the cells
   * of a converted date column: a timestamp gives its English month name, a
   * missing cell stays missing, and anything without `month_name`
   * (a `datetime.date` included) raises AttributeError.
   */
  function MonthNameOf(v: Value): (r: Result<Value>)
    ensures v.Missing? ==> r == Ok(Missing)
    ensures v.Stamp? ==> r == Ok(Str(MonthNames[v.date.month - 1]))
    ensures !(v.Missing? || v.Stamp?) ==> r == Err(AttributeError)
  {
    match v
    case Missing => Ok(Missing)
    case Stamp(d) => Ok(Str(MonthNames[d.month - 1]))
    case _ => Err(AttributeError)
  }

  /** The per-cell function of `addyear` and `augmentyear`: the year of a date or a timestamp, and missing for a missing cell. */
  function YearOf(v: Value): (r: Result<Value>)
    ensures v.Missing? ==> r == Ok(Missing)
    ensures v.Stamp? || v.Date? ==> r == Ok(Int(v.date.year))
    ensures !(v.Missing? || v.Stamp? || v.Date?) ==> r == Err(AttributeError)
  {
    match v
    case Missing => Ok(Missing)
    case Stamp(d) => Ok(Int(d.year))
    case Date(d) => Ok(Int(d.year))
    case _ => Err(AttributeError)
  }
}
