/**
 * Cells of a record table, the errors the list builder can raise, and the
 * three-valued entries of a pandas boolean mask.
 */
module Values {

  /** A year, month and day, not necessarily a real calendar day. */
  datatype Day = Day(year: int, month: int, day: int)

  predicate IsLeap(y: int) {
    y % 4 == 0 && (y % 100 != 0 || y % 400 == 0)
  }

  function DaysInMonth(y: int, m: int): (n: int)
    ensures 28 <= n <= 31
  {
    if m == 2 then (if IsLeap(y) then 29 else 28)
    else if m == 4 || m == 6 || m == 9 || m == 11 then 30
    else 31
  }

  /** A day `datetime.date` accepts: years 1 to 9999 of the Gregorian calendar. */
  predicate ValidDay(d: Day) {
    1 <= d.year <= 9999 && 1 <= d.month <= 12 && 1 <= d.day <= DaysInMonth(d.year, d.month)
  }

  type CalendarDay = d: Day | ValidDay(d) witness Day(1970, 1, 1)

  /** Chronological order of days. */
  predicate DayLe(a: Day, b: Day) {
    a.year < b.year || (a.year == b.year && (a.month < b.month || (a.month == b.month && a.day <= b.day)))
  }

  predicate DayLt(a: Day, b: Day) {
    !DayLe(b, a)
  }

  /**
   * One cell. `Missing` stands for every value pandas reports as missing
   * (None, NaN, pd.NA, NaT). `Date` is a `datetime.date`; `Stamp` is a
   * `datetime.datetime` or pandas `Timestamp`, always at midnight here.
   * `List` and `Dict` are the Python lists and dicts the record loader yields.
   */
  datatype Value =
    | Missing
    | Int(i: int)
    | Str(s: string)
    | Bool(b: bool)
    | Date(date: CalendarDay)
    | Stamp(date: CalendarDay)
    | List(items: seq<Value>)
    | Dict(entries: map<string, Value>)

  /** The Python exceptions a pipeline step can raise. */
  datatype Error =
    | KeyError(key: string)
    | TypeError
    | ValueError
    | OverflowError
    | AttributeError

  datatype Option<+T> = None | Some(value: T)

  datatype Result<+T> = Ok(value: T) | Err(error: Error) {
    predicate IsFailure() {
      Err?
    }

    function PropagateFailure<U>(): Result<U>
      requires Err?
    {
      Err(error)
    }

    function Extract(): T
      requires Ok?
    {
      value
    }
  }

  /** Whether an in-place step finished or raised. */
  datatype Outcome = Pass | Fail(error: Error)

  /** A step argument that is either one item or a list (`columns="date"` or `columns=["start", "end"]`). */
  datatype OneOrMany<T> = One(item: T) | Many(items: seq<T>) {
    /** The items as a list: a single item becomes a list of one. */
    function Items(): (s: seq<T>)
      ensures One? ==> s == [item]
      ensures Many? ==> s == items
    {
      match this
      case One(x) => [x]
      case Many(xs) => xs
    }
  }

  /** An entry of a pandas boolean mask; `Unknown` is the nullable-boolean `<NA>`. */
  datatype Truth = Yes | No | Unknown

  /** Kleene conjunction, as pandas computes `mask1 & mask2` when either may hold `<NA>`. */
  function And(a: Truth, b: Truth): (r: Truth)
    ensures r == Yes <==> a == Yes && b == Yes
    ensures r == No <==> a == No || b == No
  {
    if a == No || b == No then No
    else if a == Yes && b == Yes then Yes
    else Unknown
  }

  function FromBool(b: bool): Truth {
    if b then Yes else No
  }

  /**
   * The truth of `pd.isna(v)` when Python tests it with `if`, `and` or
   * `not`. On a list pandas returns an array, whose truth is defined only
   * when it holds exactly one element; nested one-element lists reduce to
   * their element.
   */
  function NaTruth(v: Value): (r: Result<bool>)
    ensures !v.List? ==> r == Ok(v.Missing?)
    ensures v.List? && |v.items| != 1 ==> r == Err(ValueError)
  {
    match v
    case List(xs) => if |xs| == 1 then NaTruth(xs[0]) else Err(ValueError)
    case _ => Ok(v.Missing?)
  }

  /** Python truthiness, as `astype(bool)` applies it to an object column. */
  predicate Truthy(v: Value) {
    match v
    case Missing => false
    case Int(i) => i != 0
    case Str(s) => s != ""
    case Bool(b) => b
    case Date(_) => true
    case Stamp(_) => true
    case List(xs) => xs != []
    case Dict(m) => m != map[]
  }

  function BoolAsInt(b: bool): int {
    if b then 1 else 0
  }

  /**
   * Python `==` between a cell and a value, as pandas evaluates
   * `series == value` element by element: booleans equal the integers 0
   * and 1, a missing cell equals nothing, and values of different kinds
   * are unequal.
   */
  predicate PyEq(a: Value, b: Value)
    ensures PyEq(a, b) ==> !a.Missing? && !b.Missing?
    ensures a.Bool? && b.Int? ==> (PyEq(a, b) <==> b.i == BoolAsInt(a.b))
    ensures a.Int? && b.Bool? ==> (PyEq(a, b) <==> a.i == BoolAsInt(b.b))
    ensures a == b && !a.Missing? && !a.List? && !a.Dict? ==> PyEq(a, b)
    ensures a.Str? != b.Str? ==> !PyEq(a, b)
    decreases a
  {
    match (a, b)
    case (Int(x), Int(y)) => x == y
    case (Int(x), Bool(y)) => x == BoolAsInt(y)
    case (Bool(x), Int(y)) => BoolAsInt(x) == y
    case (Bool(x), Bool(y)) => x == y
    case (Str(x), Str(y)) => x == y
    case (Date(x), Date(y)) => x == y
    case (Stamp(x), Stamp(y)) => x == y
    case (List(xs), List(ys)) =>
      |xs| == |ys| && forall i :: 0 <= i < |xs| ==> PyEq(xs[i], ys[i])
    case (Dict(m), Dict(n)) =>
      m.Keys == n.Keys && forall k :: k in m ==> k in n && PyEq(m[k], n[k])
    case _ => false
  }
}
