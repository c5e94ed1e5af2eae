/**
 * The filters (lamd/mdlist.py lines 133-158): each reads the frame and
 * returns a boolean mask with one entry per row, or raises.
 */
module Filters {
  import opened Values
  import opened Tables

  /**
   * The module constant `SINCE_YEAR` that `recent` reads. `main` computes a
   * since-year from `--since-year` or the clock, but assigns it to a local
   * of the same name, so `recent` always compares with this value.
   */
  const SinceYear := 2020

  /** Kleene disjunction, as pandas computes `mask1 | mask2`. */
  function Or(a: Truth, b: Truth): (r: Truth)
    ensures r == Yes <==> a == Yes || b == Yes
    ensures r == No <==> a == No && b == No
  {
    if a == Yes || b == Yes then Yes
    else if a == No && b == No then No
    else Unknown
  }

  /** Whether a cell is at least the since-year: a missing cell compares as unknown, a boolean as 0 or 1, anything else but a number raises. */
  function SinceCell(v: Value): Result<Truth> {
    match v
    case Missing => Ok(Unknown)
    case Int(i) => Ok(FromBool(i >= SinceYear))
    case Bool(b) => Ok(FromBool(BoolAsInt(b) >= SinceYear))
    case _ => Err(TypeError)
  }

  /**
   * `recent(df, column)`: the rows whose year is 2020 or later, whatever
   * since-year the command line asked for.
   */
  function Recent(t: Table, column: string): (r: Result<seq<Truth>>)
    ensures r.Ok? <==> column in t.columns && forall i :: 0 <= i < |t.rows| ==>
      Cell(t.rows[i], column).Int? || Cell(t.rows[i], column).Missing? || Cell(t.rows[i], column).Bool?
    ensures r.Err? ==> r.error == (if column in t.columns then TypeError else KeyError(column))
    ensures r.Ok? ==> |r.value| == |t.rows|
    ensures r.Ok? ==> forall i :: 0 <= i < |t.rows| ==>
      (r.value[i] == Yes <==> Cell(t.rows[i], column).Int? && Cell(t.rows[i], column).i >= 2020)
    ensures r.Ok? ==> forall i :: 0 <= i < |t.rows| ==>
      (r.value[i] == Unknown <==> Cell(t.rows[i], column).Missing?)
  {
    var cells :- Column(t, column);
    MapCells(cells, SinceCell)
  }

  /** Whether a start cell is on or before day `now`: missing compares false, only timestamps compare. */
  function StartedBy(v: Value, now: CalendarDay): Result<bool> {
    match v
    case Missing => Ok(false)
    case Stamp(d) => Ok(DayLe(d, now))
    case _ => Err(TypeError)
  }

  /** Whether an end cell is missing or on or after day `now`. */
  function NotEndedBy(v: Value, now: CalendarDay): Result<bool> {
    match v
    case Missing => Ok(true)
    case Stamp(d) => Ok(DayLe(now, d))
    case _ => Err(TypeError)
  }

  /** Whether an end cell is before day `now`: missing compares false, only timestamps compare. */
  function EndedBefore(v: Value, now: CalendarDay): Result<bool> {
    match v
    case Missing => Ok(false)
    case Stamp(d) => Ok(DayLt(d, now))
    case _ => Err(TypeError)
  }

  /** A row is under way on day `now`: started by then and not yet ended. */
  predicate Within(r: Row, start: string, end: string, now: CalendarDay) {
    (Cell(r, start).Stamp? && DayLe(Cell(r, start).date, now))
    && (Cell(r, end).Missing? || (Cell(r, end).Stamp? && DayLe(now, Cell(r, end).date)))
  }

  /** The mask `current` builds of rows under way on day `now`: started by then, and with no end or one not yet passed. */
  function WithinMask(t: Table, start: string, end: string, now: CalendarDay): (r: Result<seq<bool>>)
    ensures r.Ok? <==> (start in t.columns && end in t.columns
      && (forall i :: 0 <= i < |t.rows| ==> Cell(t.rows[i], start).Missing? || Cell(t.rows[i], start).Stamp?)
      && (forall i :: 0 <= i < |t.rows| ==> Cell(t.rows[i], end).Missing? || Cell(t.rows[i], end).Stamp?))
    ensures start !in t.columns ==> r == Err(KeyError(start))
    ensures start in t.columns && end !in t.columns ==>
      r == Err(if forall i :: 0 <= i < |t.rows| ==> Cell(t.rows[i], start).Missing? || Cell(t.rows[i], start).Stamp?
               then KeyError(end) else TypeError)
    ensures r.Ok? ==> |r.value| == |t.rows|
    ensures r.Ok? ==> forall i :: 0 <= i < |t.rows| ==> (r.value[i] <==> Within(t.rows[i], start, end, now))
  {
    var starts :- Column(t, start);
    var started :- MapCells(starts, v => StartedBy(v, now));
    var ends :- Column(t, end);
    var open :- MapCells(ends, v => NotEndedBy(v, now));
    Ok(seq(|t.rows|, i requires 0 <= i < |t.rows| => started[i] && open[i]))
  }

  /**
   * `current(df, start, end, current)`: the rows under way on day `now`,
   * and, when a flag column is named, also every row whose flag is set
   * (present and truthy).
   */
  function Current(t: Table, start: string, end: string, flag: Option<string>, now: CalendarDay): (r: Result<seq<Truth>>)
    ensures r.Ok? <==> (start in t.columns && end in t.columns && (flag.Some? ==> flag.value in t.columns)
      && (forall i :: 0 <= i < |t.rows| ==> Cell(t.rows[i], start).Missing? || Cell(t.rows[i], start).Stamp?)
      && (forall i :: 0 <= i < |t.rows| ==> Cell(t.rows[i], end).Missing? || Cell(t.rows[i], end).Stamp?))
    ensures start !in t.columns ==> r == Err(KeyError(start))
    ensures start in t.columns && end !in t.columns ==>
      r == Err(if forall i :: 0 <= i < |t.rows| ==> Cell(t.rows[i], start).Missing? || Cell(t.rows[i], start).Stamp?
               then KeyError(end) else TypeError)
    ensures r.Ok? ==> |r.value| == |t.rows|
    ensures r.Ok? ==> forall i :: 0 <= i < |t.rows| ==> r.value[i] != Unknown
    ensures r.Ok? ==> forall i :: 0 <= i < |t.rows| ==>
      (r.value[i] == Yes <==> Within(t.rows[i], start, end, now) || (flag.Some? && Truthy(Cell(t.rows[i], flag.value))))
  {
    var within :- WithinMask(t, start, end, now);
    match flag
    case None => Ok(seq(|t.rows|, i requires 0 <= i < |t.rows| => FromBool(within[i])))
    case Some(f) =>
      var flags :- Column(t, f);
      Ok(seq(|t.rows|, i requires 0 <= i < |t.rows| => FromBool(within[i] || Truthy(flags[i]))))
  }

  /** `former(df, end)`: the rows that ended before day `now`. */
  function Former(t: Table, end: string, now: CalendarDay): (r: Result<seq<Truth>>)
    ensures r.Ok? <==> end in t.columns && forall i :: 0 <= i < |t.rows| ==>
      Cell(t.rows[i], end).Missing? || Cell(t.rows[i], end).Stamp?
    ensures r.Err? ==> r.error == (if end in t.columns then TypeError else KeyError(end))
    ensures r.Ok? ==> |r.value| == |t.rows|
    ensures r.Ok? ==> forall i :: 0 <= i < |t.rows| ==>
      (r.value[i] == Yes <==> Cell(t.rows[i], end).Stamp? && DayLt(Cell(t.rows[i], end).date, now))
    ensures r.Ok? ==> forall i :: 0 <= i < |t.rows| ==> r.value[i] != Unknown
  {
    var ends :- Column(t, end);
    var ended :- MapCells(ends, v => EndedBefore(v, now));
    Ok(seq(|ended|, i requires 0 <= i < |ended| => FromBool(ended[i])))
  }

  /** `columnis(df, column, value)`: the rows whose cell equals `value`. */
  function ColumnIs(t: Table, column: string, value: Value): (r: Result<seq<Truth>>)
    ensures r.Ok? <==> column in t.columns
    ensures r.Err? ==> r.error == KeyError(column)
    ensures r.Ok? ==> |r.value| == |t.rows|
    ensures r.Ok? ==> forall i :: 0 <= i < |t.rows| ==>
      r.value[i] == FromBool(PyEq(Cell(t.rows[i], column), value))
  {
    var cells :- Column(t, column);
    Ok(seq(|cells|, i requires 0 <= i < |cells| => FromBool(PyEq(cells[i], value))))
  }

  /**
   * The per-cell function `columncontains` applies. For every cell the
   * records can hold, comparing it with the value gives a plain Python bool
   * (a list compared with a string is simply unequal), so the function
   * returns that comparison and its test for any matching element is never
   * reached.
   */
  function ContainsCell(x: Value, value: Value): bool {
    PyEq(x, value)
  }

  /** `columncontains(df, column, value)`: `columnis` or'ed with the per-cell lambda. */
  function ColumnContains(t: Table, column: string, value: Value): (r: Result<seq<Truth>>)
    ensures r.Ok? <==> column in t.columns
    ensures r.Ok? ==> |r.value| == |t.rows|
  {
    var colis :- ColumnIs(t, column, value);
    var cells := Column(t, column).value;
    Ok(seq(|cells|, i requires 0 <= i < |cells| => Or(colis[i], FromBool(ContainsCell(cells[i], value)))))
  }

  /**
   * `columncontains` never looks inside a list: it selects exactly the
   * rows `columnis` selects.
   */
  lemma ColumnContainsIsColumnIs(t: Table, column: string, value: Value)
    ensures ColumnContains(t, column, value) == ColumnIs(t, column, value)
  {
    if column in t.columns {
      var colis := ColumnIs(t, column, value).value;
      var contains := ColumnContains(t, column, value).value;
      assert |contains| == |colis|;
      var cells := Column(t, column).value;
      forall i | 0 <= i < |colis| ensures contains[i] == colis[i] {
        assert colis[i] == FromBool(PyEq(Cell(t.rows[i], column), value));
        assert contains[i] == Or(colis[i], FromBool(ContainsCell(cells[i], value)));
      }
      assert contains == colis;
    }
  }

  /** A row whose supervisor list holds the searched name is not selected. */
  lemma ListCellNotMatched()
    ensures ColumnContains(Table({"supervisor"}, [map["supervisor" := List([Str("ndl21")])]]), "supervisor", Str("ndl21"))
      == Ok([No])
  {
    var t := Table({"supervisor"}, [map["supervisor" := List([Str("ndl21")])]]);
    ColumnContainsIsColumnIs(t, "supervisor", Str("ndl21"));
    var colis := ColumnIs(t, "supervisor", Str("ndl21")).value;
    assert |colis| == 1 && colis[0] == No;
    assert colis == [No];
  }

  /**
   * What the `columncontains` lambda evidently means to test: the cell
   * equals the value, or the cell is a list one of whose elements does.
   */
  predicate HasMember(x: Value, value: Value) {
    PyEq(x, value) || (x.List? && exists k :: 0 <= k < |x.items| && PyEq(x.items[k], value))
  }

  /** `columncontains` with the membership test on list cells that its lambda aims at. */
  function ColumnContainsMembers(t: Table, column: string, value: Value): (r: Result<seq<Truth>>)
    ensures r.Ok? <==> column in t.columns
    ensures r.Err? ==> r.error == KeyError(column)
    ensures r.Ok? ==> |r.value| == |t.rows|
    ensures r.Ok? ==> forall i :: 0 <= i < |t.rows| ==> r.value[i] != Unknown
    ensures r.Ok? ==> forall i :: 0 <= i < |t.rows| ==>
      (r.value[i] == Yes <==> HasMember(Cell(t.rows[i], column), value))
  {
    var cells :- Column(t, column);
    Ok(seq(|cells|, i requires 0 <= i < |cells| => FromBool(HasMember(cells[i], value))))
  }

  /**
   * The corrected filter selects every row `columnis` selects, and also
   * every row whose list cell holds the value; a list cell that neither
   * equals the value nor holds it is dropped.
   */
  lemma ColumnContainsMembersSelects(t: Table, column: string, value: Value)
    requires column in t.columns
    ensures forall i :: 0 <= i < |t.rows| && ColumnIs(t, column, value).value[i] == Yes ==>
      ColumnContainsMembers(t, column, value).value[i] == Yes
    ensures forall i, k ::
      (0 <= i < |t.rows| && Cell(t.rows[i], column).List?
       && 0 <= k < |Cell(t.rows[i], column).items| && PyEq(Cell(t.rows[i], column).items[k], value)) ==>
      ColumnContainsMembers(t, column, value).value[i] == Yes
    ensures forall i :: 0 <= i < |t.rows| && !Cell(t.rows[i], column).List? ==>
      ColumnContainsMembers(t, column, value).value[i] == ColumnIs(t, column, value).value[i]
    ensures forall i :: (0 <= i < |t.rows| && Cell(t.rows[i], column).List?
      && ColumnIs(t, column, value).value[i] != Yes
      && (forall k :: 0 <= k < |Cell(t.rows[i], column).items| ==> !PyEq(Cell(t.rows[i], column).items[k], value))) ==>
      ColumnContainsMembers(t, column, value).value[i] == No
  {
    var cells := Column(t, column).value;
    var r := ColumnContainsMembers(t, column, value).value;
    assert forall i :: 0 <= i < |t.rows| ==> r[i] == FromBool(HasMember(cells[i], value));
  }

  /** With the membership test, the supervisor list holding the name is selected. */
  lemma ListCellMatchedWhenCorrected()
    ensures ColumnContainsMembers(Table({"supervisor"}, [map["supervisor" := List([Str("ndl21")])]]), "supervisor", Str("ndl21"))
      == Ok([Yes])
  {
    var t := Table({"supervisor"}, [map["supervisor" := List([Str("ndl21")])]]);
    ColumnContainsMembersSelects(t, "supervisor", Str("ndl21"));
    var r := ColumnContainsMembers(t, "supervisor", Str("ndl21")).value;
    assert Cell(t.rows[0], "supervisor").items[0] == Str("ndl21");
    assert |r| == 1 && r[0] == Yes;
    assert r == [Yes];
  }

  /** Without a flag column no row is both current and former. */
  lemma CurrentFormerDisjoint(t: Table, start: string, end: string, now: CalendarDay)
    requires Current(t, start, end, None, now).Ok? && Former(t, end, now).Ok?
    ensures forall i :: 0 <= i < |t.rows| ==>
      !(Current(t, start, end, None, now).value[i] == Yes && Former(t, end, now).value[i] == Yes)
  {
  }

  /** A row with a set flag can be both current and former. */
  lemma FlaggedRowBothCurrentAndFormer()
    ensures
      var t := Table({"start", "end", "current"},
        [map["start" := Stamp(Day(2019, 1, 1)), "end" := Stamp(Day(2022, 12, 31)), "current" := Bool(true)]]);
      var now: CalendarDay := Day(2024, 1, 1);
      Current(t, "start", "end", Some("current"), now) == Ok([Yes]) && Former(t, "end", now) == Ok([Yes])
  {
    var t := Table({"start", "end", "current"},
      [map["start" := Stamp(Day(2019, 1, 1)), "end" := Stamp(Day(2022, 12, 31)), "current" := Bool(true)]]);
    FlaggedRowCurrent(t);
    FlaggedRowFormer(t);
  }

  lemma FlaggedRowCurrent(t: Table)
    requires |t.rows| == 1 && t.columns == {"start", "end", "current"}
    requires Cell(t.rows[0], "start").Stamp? && Cell(t.rows[0], "end").Stamp?
    requires Cell(t.rows[0], "current") == Bool(true)
    ensures Current(t, "start", "end", Some("current"), Day(2024, 1, 1)) == Ok([Yes])
  {
    var c := Current(t, "start", "end", Some("current"), Day(2024, 1, 1));
    assert Truthy(Cell(t.rows[0], "current"));
    assert c.Ok? && |c.value| == 1 && c.value[0] == Yes;
    assert c.value == [Yes];
  }

  lemma FlaggedRowFormer(t: Table)
    requires |t.rows| == 1 && "end" in t.columns
    requires Cell(t.rows[0], "end") == Stamp(Day(2022, 12, 31))
    ensures Former(t, "end", Day(2024, 1, 1)) == Ok([Yes])
  {
    var f := Former(t, "end", Day(2024, 1, 1));
    assert f.Ok? && |f.value| == 1 && f.value[0] == Yes;
    assert f.value == [Yes];
  }

  /** Current and former are not complements: a row that has not started yet is in neither. */
  lemma NotYetStartedInNeither()
    ensures
      var t := Table({"start", "end"}, [map["start" := Stamp(Day(2030, 1, 1)), "end" := Missing]]);
      var now: CalendarDay := Day(2024, 1, 1);
      Current(t, "start", "end", None, now) == Ok([No]) && Former(t, "end", now) == Ok([No])
  {
    var t := Table({"start", "end"}, [map["start" := Stamp(Day(2030, 1, 1)), "end" := Missing]]);
    var now: CalendarDay := Day(2024, 1, 1);
    var c := Current(t, "start", "end", None, now);
    assert !Within(t.rows[0], "start", "end", now);
    assert c.Ok? && |c.value| == 1 && c.value[0] == No;
    assert c.value == [No];
    var f := Former(t, "end", now);
    assert f.Ok? && |f.value| == 1 && f.value[0] == No;
    assert f.value == [No];
  }
}
