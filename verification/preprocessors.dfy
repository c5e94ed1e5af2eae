/**
 * The preprocessors (lamd/mdlist.py lines 27-88): each reassigns whole
 * columns of the frame it is given, in the order the columns are listed.
 */
module Preprocessors {
  import opened Values
  import opened Tables
  import opened Cells

  /** A column the frame has, replaced by f of each of its cells. */
  function ConvertColumn(t: Table, c: string, f: Value -> Result<Value>): (r: Result<Table>)
    requires c in t.columns
    ensures r.Ok? <==> forall i :: 0 <= i < |t.rows| ==> f(Cell(t.rows[i], c)).Ok?
    ensures r.Ok? ==> r.value.columns == t.columns && |r.value.rows| == |t.rows|
    ensures r.Ok? ==> forall i :: 0 <= i < |t.rows| ==>
      f(Cell(t.rows[i], c)) == Ok(Cell(r.value.rows[i], c))
    ensures r.Ok? ==> forall i, k :: 0 <= i < |t.rows| && k != c ==>
      Cell(r.value.rows[i], k) == Cell(t.rows[i], k)
    ensures r.Err? ==> exists i :: (0 <= i < |t.rows| && f(Cell(t.rows[i], c)) == Err(r.error) &&
      forall j :: 0 <= j < i ==> f(Cell(t.rows[j], c)).Ok?)
  {
    var cells := Column(t, c).value;
    var converted :- MapCells(cells, f);
    Ok(WithColumn(t, c, converted))
  }

  /**
   * The loop of every `convert_*` that takes a list of columns: each listed
   * column the frame has is converted in turn, absent ones are skipped, and
   * the first failure stops the loop with the columns before it already
   * converted.
   */
  function ConvertEach(t: Table, names: seq<string>, f: Value -> Result<Value>): (e: Effect)
    ensures e.table.columns == t.columns && |e.table.rows| == |t.rows|
    ensures e.outcome == Pass <== forall k :: k in names ==> k !in t.columns
    decreases |names|
  {
    if names == [] then Effect(t, Pass)
    else if names[0] !in t.columns then ConvertEach(t, names[1..], f)
    else
      match ConvertColumn(t, names[0], f)
      case Err(e) => Effect(t, Fail(e))
      case Ok(u) => ConvertEach(u, names[1..], f)
  }

  /**
   * Converting never changes the set of columns or the number and order of
   * rows, and leaves every column it was not asked to convert as it was.
   */
  lemma {:induction false} ConvertEachKeepsOthers(t: Table, names: seq<string>, f: Value -> Result<Value>)
    ensures ConvertEach(t, names, f).table.columns == t.columns
    ensures |ConvertEach(t, names, f).table.rows| == |t.rows|
    ensures forall i, k :: 0 <= i < |t.rows| && k !in names ==>
      Cell(ConvertEach(t, names, f).table.rows[i], k) == Cell(t.rows[i], k)
    decreases |names|
  {
    if names != [] && names[0] in t.columns {
      var r := ConvertColumn(t, names[0], f);
      if r.Ok? {
        var u := r.value;
        ConvertEachKeepsOthers(u, names[1..], f);
        forall i, k | 0 <= i < |t.rows| && k !in names
          ensures Cell(ConvertEach(t, names, f).table.rows[i], k) == Cell(t.rows[i], k)
        {
          assert k !in names[1..];
          assert u.rows[i] == t.rows[i][names[0] := MapCells(Column(t, names[0]).value, f).value[i]];
        }
      }
    } else if names != [] {
      ConvertEachKeepsOthers(t, names[1..], f);
      assert forall k :: k !in names ==> k !in names[1..];
    }
  }

  /** The listed columns of `names` are distinct. */
  predicate Distinct(names: seq<string>) {
    forall a, b :: 0 <= a < b < |names| ==> names[a] != names[b]
  }

  lemma DistinctTail(names: seq<string>)
    requires names != [] && Distinct(names)
    ensures Distinct(names[1..]) && names[0] !in names[1..]
  {
    var rest := names[1..];
    forall a, b | 0 <= a < b < |rest| ensures rest[a] != rest[b] {
      assert rest[a] == names[a + 1] && rest[b] == names[b + 1];
    }
    forall j | 0 <= j < |rest| ensures rest[j] != names[0] {
      assert rest[j] == names[j + 1];
    }
  }

  /**
   * With distinct column names the loop passes exactly when every cell of
   * every listed column the frame has converts.
   */
  lemma {:induction false} ConvertEachPasses(t: Table, names: seq<string>, f: Value -> Result<Value>)
    requires Distinct(names)
    ensures ConvertEach(t, names, f).outcome == Pass <==>
      forall i, k :: 0 <= i < |t.rows| && k in names && k in t.columns ==> f(Cell(t.rows[i], k)).Ok?
    decreases |names|
  {
    if names != [] {
      var c := names[0];
      var rest := names[1..];
      DistinctTail(names);
      assert forall k :: k in names <==> k == c || k in rest;
      if c !in t.columns {
        ConvertEachPasses(t, rest, f);
      } else {
        var r := ConvertColumn(t, c, f);
        if r.Ok? {
          var u := r.value;
          ConvertEachPasses(u, rest, f);
          assert forall i, k :: 0 <= i < |t.rows| && k in rest ==> Cell(u.rows[i], k) == Cell(t.rows[i], k);
        }
      }
    }
  }

  /** Every cell of column k converts. */
  predicate ConvertsInFull(t: Table, k: string, f: Value -> Result<Value>) {
    forall j :: 0 <= j < |t.rows| ==> f(Cell(t.rows[j], k)).Ok?
  }

  /** Cell i of column k is the first of that column that fails, with err. */
  predicate FirstFailureAt(t: Table, k: string, i: int, f: Value -> Result<Value>, err: Error) {
    0 <= i < |t.rows| && f(Cell(t.rows[i], k)) == Err(err) &&
    forall j :: 0 <= j < i ==> f(Cell(t.rows[j], k)).Ok?
  }

  /** Converting column c leaves what the two predicates above say about any other column as it was. */
  lemma ConvertColumnKeepsOther(t: Table, c: string, f: Value -> Result<Value>, k: string, i: int, err: Error)
    requires c in t.columns && ConvertColumn(t, c, f).Ok? && k != c
    ensures ConvertsInFull(ConvertColumn(t, c, f).value, k, f) == ConvertsInFull(t, k, f)
    ensures FirstFailureAt(ConvertColumn(t, c, f).value, k, i, f, err) == FirstFailureAt(t, k, i, f, err)
  {
    var u := ConvertColumn(t, c, f).value;
    assert forall j :: 0 <= j < |t.rows| ==> Cell(u.rows[j], k) == Cell(t.rows[j], k);
  }

  /**
   * Listed column a fails first with err, at its cell i: every listed column
   * the frame has before it converts in full.
   */
  predicate FailsFirstIn(t: Table, names: seq<string>, f: Value -> Result<Value>, err: Error, a: int, i: int) {
    0 <= a < |names| && names[a] in t.columns && FirstFailureAt(t, names[a], i, f, err) &&
    forall b :: 0 <= b < a && names[b] in t.columns ==> ConvertsInFull(t, names[b], f)
  }

  /** A witness for the rest of the list, one column further on, is a witness for the list. */
  lemma FailsFirstInShift(t: Table, names: seq<string>, f: Value -> Result<Value>, err: Error, a: int, i: int)
    requires names != [] && FailsFirstIn(t, names[1..], f, err, a, i)
    requires names[0] in t.columns ==> ConvertsInFull(t, names[0], f)
    ensures FailsFirstIn(t, names, f, err, a + 1, i)
  {
    assert names[a + 1] == names[1..][a];
    forall b | 0 <= b < a + 1 && names[b] in t.columns ensures ConvertsInFull(t, names[b], f) {
      if b > 0 {
        assert names[b] == names[1..][b - 1];
      }
    }
  }

  /** The same witness, for the frame before column c was converted. */
  lemma FailsFirstInBack(t: Table, c: string, names: seq<string>, f: Value -> Result<Value>, err: Error, a: int, i: int)
    requires c in t.columns && ConvertColumn(t, c, f).Ok? && c !in names
    requires FailsFirstIn(ConvertColumn(t, c, f).value, names, f, err, a, i)
    ensures FailsFirstIn(t, names, f, err, a, i)
  {
    ConvertColumnKeepsOther(t, c, f, names[a], i, err);
    forall b | 0 <= b < a && names[b] in t.columns ensures ConvertsInFull(t, names[b], f) {
      ConvertColumnKeepsOther(t, c, f, names[b], i, err);
    }
  }

  /**
   * With distinct column names a failing loop reports the error of the
   * first failing cell of the first listed column that has one: every
   * listed column before it converts in full, and so do the earlier cells
   * of its own column.
   */
  lemma {:induction false} ConvertEachFirstError(t: Table, names: seq<string>, f: Value -> Result<Value>)
    requires Distinct(names)
    requires ConvertEach(t, names, f).outcome.Fail?
    ensures exists a, i :: FailsFirstIn(t, names, f, ConvertEach(t, names, f).outcome.error, a, i)
    decreases |names|
  {
    var c := names[0];
    var rest := names[1..];
    var err := ConvertEach(t, names, f).outcome.error;
    DistinctTail(names);
    if c !in t.columns {
      assert ConvertEach(t, names, f) == ConvertEach(t, rest, f);
      ConvertEachFirstError(t, rest, f);
      var a, i :| FailsFirstIn(t, rest, f, err, a, i);
      FailsFirstInShift(t, names, f, err, a, i);
    } else {
      var r := ConvertColumn(t, c, f);
      if r.Err? {
        var i :| 0 <= i < |t.rows| && f(Cell(t.rows[i], c)) == Err(r.error) &&
          forall j :: 0 <= j < i ==> f(Cell(t.rows[j], c)).Ok?;
        assert FirstFailureAt(t, c, i, f, r.error);
        assert FailsFirstIn(t, names, f, err, 0, i);
      } else {
        var u := r.value;
        assert ConvertEach(t, names, f) == ConvertEach(u, rest, f);
        ConvertEachFirstError(u, rest, f);
        var a, i :| FailsFirstIn(u, rest, f, err, a, i);
        FailsFirstInBack(t, c, rest, f, err, a, i);
        FailsFirstInShift(t, names, f, err, a, i);
      }
    }
  }

  /** Columns the frame lacks are skipped: listing only absent columns changes nothing. */
  lemma {:induction false} ConvertEachSkipsAbsent(t: Table, names: seq<string>, f: Value -> Result<Value>)
    requires forall k :: k in names ==> k !in t.columns
    ensures ConvertEach(t, names, f) == Effect(t, Pass)
    decreases |names|
  {
    if names != [] {
      ConvertEachSkipsAbsent(t, names[1..], f);
    }
  }

  /**
   * When f keeps missing cells missing, so does the whole conversion: a cell
   * that was missing before is missing afterwards, whatever the outcome.
   */
  lemma {:induction false} ConvertEachKeepsMissing(t: Table, names: seq<string>, f: Value -> Result<Value>)
    requires f(Missing) == Ok(Missing)
    ensures forall i, k :: 0 <= i < |t.rows| && Cell(t.rows[i], k) == Missing ==>
      |ConvertEach(t, names, f).table.rows| == |t.rows| && Cell(ConvertEach(t, names, f).table.rows[i], k) == Missing
    decreases |names|
  {
    ConvertEachKeepsOthers(t, names, f);
    if names != [] && names[0] in t.columns {
      var r := ConvertColumn(t, names[0], f);
      if r.Ok? {
        var u := r.value;
        var c := names[0];
        var cells := Column(t, c).value;
        forall i, k | 0 <= i < |t.rows| && Cell(t.rows[i], k) == Missing
          ensures Cell(u.rows[i], k) == Missing
        {
          assert cells[i] == Cell(t.rows[i], c);
          if k == c {
            assert f(cells[i]) == Ok(MapCells(cells, f).value[i]);
          }
        }
        ConvertEachKeepsMissing(u, names[1..], f);
      }
    } else if names != [] {
      ConvertEachKeepsMissing(t, names[1..], f);
    }
  }

  /**
   * When the listed columns are distinct and the conversion succeeds, every
   * listed column the frame has holds f of its old cell, row by row.
   */
  lemma {:induction false} ConvertEachConverts(t: Table, names: seq<string>, f: Value -> Result<Value>)
    requires Distinct(names)
    requires ConvertEach(t, names, f).outcome == Pass
    ensures forall i, k :: 0 <= i < |t.rows| && k in names && k in t.columns ==>
      |ConvertEach(t, names, f).table.rows| == |t.rows|
      && f(Cell(t.rows[i], k)) == Ok(Cell(ConvertEach(t, names, f).table.rows[i], k))
    decreases |names|
  {
    ConvertEachKeepsOthers(t, names, f);
    if names != [] {
      var c := names[0];
      var rest := names[1..];
      DistinctTail(names);
      if c in t.columns {
        var u := ConvertColumn(t, c, f).value;
        var cells := Column(t, c).value;
        var converted := MapCells(cells, f).value;
        ConvertEachConverts(u, rest, f);
        ConvertEachKeepsOthers(u, rest, f);
        forall i, k | 0 <= i < |t.rows| && k in names && k in t.columns
          ensures f(Cell(t.rows[i], k)) == Ok(Cell(ConvertEach(t, names, f).table.rows[i], k))
        {
          assert u.rows[i] == t.rows[i][c := converted[i]];
          if k == c {
            assert cells[i] == Cell(t.rows[i], c);
          } else {
            assert k in rest;
          }
        }
      } else {
        ConvertEachConverts(t, rest, f);
      }
    }
  }

  /** The shared loop of `convert_datetime`, `convert_int`, `convert_string` and `convert_new_year_day`. */
  method ConvertColumns(df: Frame, columns: OneOrMany<string>, f: Value -> Result<Value>) returns (outcome: Outcome)
    modifies df
    ensures Effect(df.Snapshot(), outcome) == ConvertEach(old(df.Snapshot()), columns.Items(), f)
  {
    var names := columns.Items();
    var i := 0;
    while i < |names|
      invariant 0 <= i <= |names|
      invariant ConvertEach(df.Snapshot(), names[i..], f) == ConvertEach(old(df.Snapshot()), names, f)
    {
      assert names[i..][1..] == names[i + 1..];
      var c := names[i];
      if c in df.columns {
        var converted := ConvertColumn(df.Snapshot(), c, f);
        if converted.Err? {
          return Fail(converted.error);
        }
        df.rows := converted.value.rows;
      }
      i := i + 1;
    }
    return Pass;
  }

  /** `convert_datetime(df, columns)` */
  method ConvertDatetime(df: Frame, columns: OneOrMany<string>) returns (outcome: Outcome)
    modifies df
    ensures Effect(df.Snapshot(), outcome) == ConvertEach(old(df.Snapshot()), columns.Items(), ToDatetime)
  {
    outcome := ConvertColumns(df, columns, ToDatetime);
  }

  /** `convert_int(df, columns)` */
  method ConvertInt(df: Frame, columns: OneOrMany<string>) returns (outcome: Outcome)
    modifies df
    ensures Effect(df.Snapshot(), outcome) == ConvertEach(old(df.Snapshot()), columns.Items(), ToInt)
  {
    outcome := ConvertColumns(df, columns, ToInt);
  }

  /** The per-cell function `convert_string` applies. */
  function StringCell(repr: Value -> string): Value -> Result<Value> {
    v => ToStr(v, repr)
  }

  /** The per-cell function `convert_new_year_day` applies. */
  function NewYearDayCell(repr: Value -> string): Value -> Result<Value> {
    v => NewYearDay(v, repr)
  }

  /** `convert_string(df, columns)` */
  method ConvertString(df: Frame, columns: OneOrMany<string>, repr: Value -> string) returns (outcome: Outcome)
    modifies df
    ensures Effect(df.Snapshot(), outcome) == ConvertEach(old(df.Snapshot()), columns.Items(), StringCell(repr))
  {
    outcome := ConvertColumns(df, columns, StringCell(repr));
  }

  /** `convert_new_year_day(df, columns)` */
  method ConvertNewYearDay(df: Frame, columns: OneOrMany<string>, repr: Value -> string) returns (outcome: Outcome)
    modifies df
    ensures Effect(df.Snapshot(), outcome) == ConvertEach(old(df.Snapshot()), columns.Items(), NewYearDayCell(repr))
  {
    outcome := ConvertColumns(df, columns, NewYearDayCell(repr));
  }

  /** The per-cell function `convert_year_iso` applies. */
  function YearIsoCell(month: int, day: int): Value -> Result<Value> {
    v => YearToIso(v, month, day)
  }

  /**
   * `convert_year_iso(df, column, month, day)`: unlike the other
   * preprocessors it reads the column without checking for it, so an
   * absent column raises KeyError.
   */
  function YearIsoEffect(t: Table, column: string, month: int, day: int): (e: Effect)
    ensures column !in t.columns ==> e == Effect(t, Fail(KeyError(column)))
    ensures column in t.columns ==>
      (e.outcome == Pass <==> forall i :: 0 <= i < |t.rows| ==> YearToIso(Cell(t.rows[i], column), month, day).Ok?)
    ensures column in t.columns && e.outcome.Fail? ==> exists i :: (0 <= i < |t.rows| &&
      YearToIso(Cell(t.rows[i], column), month, day) == Err(e.outcome.error) &&
      forall j :: 0 <= j < i ==> YearToIso(Cell(t.rows[j], column), month, day).Ok?)
    ensures e.outcome.Fail? ==> e.table == t
    ensures e.outcome == Pass ==> e.table.columns == t.columns && |e.table.rows| == |t.rows|
    ensures e.outcome == Pass ==> forall i :: 0 <= i < |t.rows| ==>
      YearToIso(Cell(t.rows[i], column), month, day) == Ok(Cell(e.table.rows[i], column))
    ensures e.outcome == Pass ==> forall i, k :: 0 <= i < |t.rows| && k != column ==>
      Cell(e.table.rows[i], k) == Cell(t.rows[i], k)
  {
    if column !in t.columns then Effect(t, Fail(KeyError(column)))
    else
      var cells := Column(t, column).value;
      match MapCells(cells, YearIsoCell(month, day))
      case Err(e) => Effect(t, Fail(e))
      case Ok(converted) => Effect(WithColumn(t, column, converted), Pass)
  }

  method ConvertYearIso(df: Frame, column: string, month: int, day: int) returns (outcome: Outcome)
    modifies df
    ensures Effect(df.Snapshot(), outcome) == YearIsoEffect(old(df.Snapshot()), column, month, day)
  {
    if column !in df.columns {
      return Fail(KeyError(column));
    }
    var cells := Column(df.Snapshot(), column).value;
    var converted := MapCells(cells, YearIsoCell(month, day));
    if converted.Err? {
      return Fail(converted.error);
    }
    df.rows := WithColumn(df.Snapshot(), column, converted.value).rows;
    return Pass;
  }
}
