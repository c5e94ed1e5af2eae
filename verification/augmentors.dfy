/**
 * The augmentors (lamd/mdlist.py lines 93-121) and `addcolumns` (lines
 * 533-539): steps that derive or fill a column of the frame in place.
 */
module Augmentors {
  import opened Values
  import opened Tables
  import opened Cells

  /**
   * `addmonth` and `addyear`: the target column is overwritten (or added)
   * with f of the source column, in every row.
   */
  function DeriveEffect(t: Table, source: string, target: string, f: Value -> Result<Value>): (e: Effect)
    ensures source !in t.columns ==> e == Effect(t, Fail(KeyError(source)))
    ensures source in t.columns ==>
      (e.outcome == Pass <==> forall i :: 0 <= i < |t.rows| ==> f(Cell(t.rows[i], source)).Ok?)
    ensures source in t.columns && e.outcome.Fail? ==> exists i :: (0 <= i < |t.rows| &&
      f(Cell(t.rows[i], source)) == Err(e.outcome.error) &&
      forall j :: 0 <= j < i ==> f(Cell(t.rows[j], source)).Ok?)
    ensures e.outcome == Pass ==> e.table.columns == t.columns + {target} && |e.table.rows| == |t.rows|
    ensures e.outcome == Pass ==> forall i :: 0 <= i < |t.rows| ==>
      f(Cell(t.rows[i], source)) == Ok(Cell(e.table.rows[i], target))
    ensures e.outcome == Pass ==> forall i, k :: 0 <= i < |t.rows| && k != target ==>
      Cell(e.table.rows[i], k) == Cell(t.rows[i], k)
    ensures e.outcome.Fail? ==> e.table == t
  {
    if source !in t.columns then Effect(t, Fail(KeyError(source)))
    else
      match MapCells(Column(t, source).value, f)
      case Err(err) => Effect(t, Fail(err))
      case Ok(derived) => Effect(WithColumn(t, target, derived), Pass)
  }

  method Derive(df: Frame, source: string, target: string, f: Value -> Result<Value>) returns (outcome: Outcome)
    modifies df
    ensures Effect(df.Snapshot(), outcome) == DeriveEffect(old(df.Snapshot()), source, target, f)
  {
    if source !in df.columns {
      return Fail(KeyError(source));
    }
    var derived := MapCells(Column(df.Snapshot(), source).value, f);
    if derived.Err? {
      return Fail(derived.error);
    }
    var u := WithColumn(df.Snapshot(), target, derived.value);
    df.columns, df.rows := u.columns, u.rows;
    return Pass;
  }

  /** `addmonth(df, source, month_column)` */
  method AddMonth(df: Frame, source: string, monthColumn: string) returns (outcome: Outcome)
    modifies df
    ensures Effect(df.Snapshot(), outcome) == DeriveEffect(old(df.Snapshot()), source, monthColumn, MonthNameOf)
  {
    outcome := Derive(df, source, monthColumn, MonthNameOf);
  }

  /** `addyear(df, source, year_column)` */
  method AddYear(df: Frame, source: string, yearColumn: string) returns (outcome: Outcome)
    modifies df
    ensures Effect(df.Snapshot(), outcome) == DeriveEffect(old(df.Snapshot()), source, yearColumn, YearOf)
  {
    outcome := Derive(df, source, yearColumn, YearOf);
  }

  /**
   * One row of `augmentmonth`/`augmentyear`: the value to write into the
   * target cell, or None to leave the row alone. The source is read only
   * when the target is missing (Python's `and` stops early), so a frame
   * without the source column raises only at a row whose target is missing.
   */
  function AugmentCell(columns: set<string>, row: Row, source: string, target: string, f: Value -> Result<Value>): (r: Result<Option<Value>>)
    ensures target !in columns ==> r == Err(KeyError(target))
    ensures target in columns && NaTruth(Cell(row, target)) == Ok(false) ==> r == Ok(None)
    ensures target in columns && NaTruth(Cell(row, target)) == Ok(true) && source !in columns ==>
      r == Err(KeyError(source))
    ensures r.Ok? && r.value.Some? ==>
      NaTruth(Cell(row, target)) == Ok(true) && source in columns &&
      NaTruth(Cell(row, source)) == Ok(false) && f(Cell(row, source)) == Ok(r.value.value)
  {
    if target !in columns then Err(KeyError(target))
    else
      var targetMissing :- NaTruth(Cell(row, target));
      if !targetMissing then Ok(None)
      else if source !in columns then Err(KeyError(source))
      else
        var sourceMissing :- NaTruth(Cell(row, source));
        if sourceMissing then Ok(None)
        else
          var v :- f(Cell(row, source));
          Ok(Some(v))
  }

  /** The new row `AugmentCell` asks for. */
  function Augmented(r: Row, target: string, write: Option<Value>): Row {
    if write.Some? then r[target := write.value] else r
  }

  /** The row-by-row loop of `augmentmonth` and `augmentyear`, from row i on. */
  function AugmentFrom(t: Table, i: nat, source: string, target: string, f: Value -> Result<Value>): (e: Effect)
    ensures e.table.columns == t.columns && |e.table.rows| == |t.rows|
    ensures i >= |t.rows| ==> e == Effect(t, Pass)
    decreases |t.rows| - i
  {
    if i >= |t.rows| then Effect(t, Pass)
    else
      match AugmentCell(t.columns, t.rows[i], source, target, f)
      case Err(e) => Effect(t, Fail(e))
      case Ok(write) =>
        AugmentFrom(Table(t.columns, t.rows[i := Augmented(t.rows[i], target, write)]), i + 1, source, target, f)
  }

  /**
   * A successful pass decides each row on its own old value alone: rows
   * before i are untouched and every later row becomes what `AugmentCell`
   * asked for.
   */
  lemma {:induction false} AugmentFromRowwise(t: Table, i: nat, source: string, target: string, f: Value -> Result<Value>)
    requires i <= |t.rows|
    requires AugmentFrom(t, i, source, target, f).outcome == Pass
    ensures AugmentFrom(t, i, source, target, f).table.columns == t.columns
    ensures |AugmentFrom(t, i, source, target, f).table.rows| == |t.rows|
    ensures forall j :: 0 <= j < i ==> AugmentFrom(t, i, source, target, f).table.rows[j] == t.rows[j]
    ensures forall j :: i <= j < |t.rows| ==> AugmentCell(t.columns, t.rows[j], source, target, f).Ok?
    ensures forall j :: i <= j < |t.rows| ==>
      AugmentFrom(t, i, source, target, f).table.rows[j]
      == Augmented(t.rows[j], target, AugmentCell(t.columns, t.rows[j], source, target, f).value)
    decreases |t.rows| - i
  {
    if i < |t.rows| {
      var write := AugmentCell(t.columns, t.rows[i], source, target, f).value;
      var u := Table(t.columns, t.rows[i := Augmented(t.rows[i], target, write)]);
      assert AugmentFrom(t, i, source, target, f) == AugmentFrom(u, i + 1, source, target, f);
      AugmentFromRowwise(u, i + 1, source, target, f);
      forall j | i < j < |t.rows|
        ensures u.rows[j] == t.rows[j]
      {
      }
    }
  }

  /** The loop from row i on passes exactly when `AugmentCell` succeeds on every row from i on. */
  lemma {:induction false} AugmentFromPasses(t: Table, i: nat, source: string, target: string, f: Value -> Result<Value>)
    requires i <= |t.rows|
    ensures AugmentFrom(t, i, source, target, f).outcome == Pass <==>
      forall j :: i <= j < |t.rows| ==> AugmentCell(t.columns, t.rows[j], source, target, f).Ok?
    decreases |t.rows| - i
  {
    if i < |t.rows| {
      var write := AugmentCell(t.columns, t.rows[i], source, target, f);
      if write.Ok? {
        var u := Table(t.columns, t.rows[i := Augmented(t.rows[i], target, write.value)]);
        assert AugmentFrom(t, i, source, target, f) == AugmentFrom(u, i + 1, source, target, f);
        AugmentFromPasses(u, i + 1, source, target, f);
        assert forall j :: i < j < |t.rows| ==> u.rows[j] == t.rows[j];
      }
    }
  }

  /**
   * A failing loop reports the error of the first row from i on whose
   * `AugmentCell` fails; every row between i and that one succeeded.
   */
  lemma {:induction false} AugmentFromFirstError(t: Table, i: nat, source: string, target: string, f: Value -> Result<Value>)
    requires i <= |t.rows|
    requires AugmentFrom(t, i, source, target, f).outcome.Fail?
    ensures exists j :: (i <= j < |t.rows| &&
      AugmentCell(t.columns, t.rows[j], source, target, f) == Err(AugmentFrom(t, i, source, target, f).outcome.error) &&
      forall k :: i <= k < j ==> AugmentCell(t.columns, t.rows[k], source, target, f).Ok?)
    decreases |t.rows| - i
  {
    var write := AugmentCell(t.columns, t.rows[i], source, target, f);
    if write.Ok? {
      var u := Table(t.columns, t.rows[i := Augmented(t.rows[i], target, write.value)]);
      assert AugmentFrom(t, i, source, target, f) == AugmentFrom(u, i + 1, source, target, f);
      AugmentFromFirstError(u, i + 1, source, target, f);
      var j :| i + 1 <= j < |u.rows| &&
        AugmentCell(u.columns, u.rows[j], source, target, f) == Err(AugmentFrom(u, i + 1, source, target, f).outcome.error) &&
        forall k :: i + 1 <= k < j ==> AugmentCell(u.columns, u.rows[k], source, target, f).Ok?;
      assert u.rows[j] == t.rows[j];
      assert forall k :: i < k < j ==> u.rows[k] == t.rows[k];
    }
  }

  /**
   * `augmentmonth` and `augmentyear` write the target cell exactly in the
   * rows whose target is missing and whose source is present, with f of the
   * source; every other row is left as it was. Rows are neither added,
   * removed nor reordered.
   */
  lemma AugmentFillsOnlyMissing(t: Table, source: string, target: string, f: Value -> Result<Value>)
    requires AugmentFrom(t, 0, source, target, f).outcome == Pass
    ensures AugmentFrom(t, 0, source, target, f).table.columns == t.columns
    ensures |AugmentFrom(t, 0, source, target, f).table.rows| == |t.rows|
    ensures forall i :: 0 <= i < |t.rows| ==>
      var before, after := t.rows[i], AugmentFrom(t, 0, source, target, f).table.rows[i];
      if NaTruth(Cell(before, target)) == Ok(true) && NaTruth(Cell(before, source)) == Ok(false)
      then f(Cell(before, source)).Ok? && after == before[target := f(Cell(before, source)).value]
      else after == before
  {
    AugmentFromRowwise(t, 0, source, target, f);
  }

  method Augment(df: Frame, source: string, target: string, f: Value -> Result<Value>) returns (outcome: Outcome)
    modifies df
    ensures Effect(df.Snapshot(), outcome) == AugmentFrom(old(df.Snapshot()), 0, source, target, f)
  {
    var i := 0;
    while i < |df.rows|
      invariant 0 <= i <= |df.rows|
      invariant AugmentFrom(df.Snapshot(), i, source, target, f) == AugmentFrom(old(df.Snapshot()), 0, source, target, f)
    {
      var write := AugmentCell(df.columns, df.rows[i], source, target, f);
      if write.Err? {
        return Fail(write.error);
      }
      df.rows := df.rows[i := Augmented(df.rows[i], target, write.value)];
      i := i + 1;
    }
    return Pass;
  }

  /** `augmentmonth(df, source, month_column)` */
  method AugmentMonth(df: Frame, source: string, monthColumn: string) returns (outcome: Outcome)
    modifies df
    ensures Effect(df.Snapshot(), outcome) == AugmentFrom(old(df.Snapshot()), 0, source, monthColumn, MonthNameOf)
  {
    outcome := Augment(df, source, monthColumn, MonthNameOf);
  }

  /** `augmentyear(df, source, year_column)` */
  method AugmentYear(df: Frame, source: string, yearColumn: string) returns (outcome: Outcome)
    modifies df
    ensures Effect(df.Snapshot(), outcome) == AugmentFrom(old(df.Snapshot()), 0, source, yearColumn, YearOf)
  {
    outcome := Augment(df, source, yearColumn, YearOf);
  }

  /** Filling one cell: a missing cell becomes the supervisor's name. */
  function FillCell(v: Value, supervisor: string): Value {
    if v.Missing? then Str(supervisor) else v
  }

  /**
   * `addsupervisor(df, column, supervisor)`: missing cells of the column
   * become the constant, every other cell keeps its value.
   */
  function FillEffect(t: Table, column: string, supervisor: string): (e: Effect)
    ensures e.outcome == Pass <==> column in t.columns
    ensures e.outcome.Fail? ==> e == Effect(t, Fail(KeyError(column)))
    ensures e.outcome == Pass ==> e.table.columns == t.columns && |e.table.rows| == |t.rows|
    ensures e.outcome == Pass ==> forall i :: 0 <= i < |t.rows| ==>
      Cell(e.table.rows[i], column) == (if Cell(t.rows[i], column).Missing? then Str(supervisor) else Cell(t.rows[i], column))
    ensures e.outcome == Pass ==> forall i, k :: 0 <= i < |t.rows| && k != column ==>
      Cell(e.table.rows[i], k) == Cell(t.rows[i], k)
  {
    if column !in t.columns then Effect(t, Fail(KeyError(column)))
    else
      var cells := Column(t, column).value;
      Effect(WithColumn(t, column, seq(|cells|, i requires 0 <= i < |cells| => FillCell(cells[i], supervisor))), Pass)
  }

  method AddSupervisor(df: Frame, column: string, supervisor: string) returns (outcome: Outcome)
    modifies df
    ensures Effect(df.Snapshot(), outcome) == FillEffect(old(df.Snapshot()), column, supervisor)
  {
    if column !in df.columns {
      return Fail(KeyError(column));
    }
    var cells := Column(df.Snapshot(), column).value;
    df.rows := WithColumn(df.Snapshot(), column, seq(|cells|, i requires 0 <= i < |cells| => FillCell(cells[i], supervisor))).rows;
    return Pass;
  }

  /** `addcolumns(df, columns)`: every listed column the frame lacks is added, all missing. */
  function AddColumnsFrom(t: Table, names: seq<string>): Table
    decreases |names|
  {
    if names == [] then t
    else if names[0] in t.columns then AddColumnsFrom(t, names[1..])
    else AddColumnsFrom(WithColumn(t, names[0], seq(|t.rows|, _ => Missing)), names[1..])
  }

  lemma {:induction false} AddColumnsShape(t: Table, names: seq<string>)
    ensures AddColumnsFrom(t, names).columns == t.columns + set k | k in names
    ensures |AddColumnsFrom(t, names).rows| == |t.rows|
    ensures t.WellFormed() ==> AddColumnsFrom(t, names).WellFormed()
    decreases |names|
  {
    if names != [] {
      var u := if names[0] in t.columns then t else WithColumn(t, names[0], seq(|t.rows|, _ => Missing));
      AddColumnsShape(u, names[1..]);
      assert (set k | k in names) == {names[0]} + set k | k in names[1..];
    }
  }

  lemma {:induction false} AddColumnsKeepsCells(t: Table, names: seq<string>)
    ensures |AddColumnsFrom(t, names).rows| == |t.rows|
    ensures forall i, k :: 0 <= i < |t.rows| && k in t.columns ==>
      Cell(AddColumnsFrom(t, names).rows[i], k) == Cell(t.rows[i], k)
    decreases |names|
  {
    if names != [] {
      var u := if names[0] in t.columns then t else WithColumn(t, names[0], seq(|t.rows|, _ => Missing));
      AddColumnsKeepsCells(u, names[1..]);
    }
  }

  lemma {:induction false} AddColumnsFillsMissing(t: Table, names: seq<string>)
    ensures |AddColumnsFrom(t, names).rows| == |t.rows|
    ensures forall i, k :: 0 <= i < |t.rows| && k in names && k !in t.columns ==>
      Cell(AddColumnsFrom(t, names).rows[i], k) == Missing
    decreases |names|
  {
    if names != [] {
      var u := if names[0] in t.columns then t else WithColumn(t, names[0], seq(|t.rows|, _ => Missing));
      AddColumnsFillsMissing(u, names[1..]);
      if names[0] !in t.columns {
        AddColumnsKeepsCells(u, names[1..]);
      }
    }
  }

  /**
   * After `addcolumns` the frame has every listed column; columns it had
   * keep their cells, the added ones are missing in every row, and the rows
   * stay the same in number and order.
   */
  lemma AddColumnsAdds(t: Table, names: seq<string>)
    ensures AddColumnsFrom(t, names).columns == t.columns + set k | k in names
    ensures |AddColumnsFrom(t, names).rows| == |t.rows|
    ensures forall i, k :: 0 <= i < |t.rows| && k in t.columns ==>
      Cell(AddColumnsFrom(t, names).rows[i], k) == Cell(t.rows[i], k)
    ensures forall i, k :: 0 <= i < |t.rows| && k in names && k !in t.columns ==>
      Cell(AddColumnsFrom(t, names).rows[i], k) == Missing
    ensures t.WellFormed() ==> AddColumnsFrom(t, names).WellFormed()
  {
    AddColumnsShape(t, names);
    AddColumnsKeepsCells(t, names);
    AddColumnsFillsMissing(t, names);
  }

  method AddColumns(df: Frame, names: seq<string>)
    modifies df
    ensures df.Snapshot() == AddColumnsFrom(old(df.Snapshot()), names)
  {
    var i := 0;
    while i < |names|
      invariant 0 <= i <= |names|
      invariant AddColumnsFrom(df.Snapshot(), names[i..]) == AddColumnsFrom(old(df.Snapshot()), names)
    {
      assert names[i..][1..] == names[i + 1..];
      if names[i] !in df.columns {
        var u := WithColumn(df.Snapshot(), names[i], seq(|df.rows|, _ => Missing));
        df.columns, df.rows := u.columns, u.rows;
      }
      i := i + 1;
    }
  }
}
