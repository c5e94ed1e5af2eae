/**
 * A pandas DataFrame of records: a set of column names and a sequence of
 * rows in index order. `Frame` is the object the pipeline steps update in
 * place; `Table` is its value.
 */
module Tables {
  import opened Values

  /** One record: column name to cell. */
  type Row = map<string, Value>

  datatype Table = Table(columns: set<string>, rows: seq<Row>) {
    /** Every row holds exactly the frame's columns. */
    ghost predicate WellFormed() {
      forall i :: 0 <= i < |rows| ==> rows[i].Keys == columns
    }
  }

  /** The new value of a frame after an in-place step, and whether the step raised. */
  datatype Effect = Effect(table: Table, outcome: Outcome)

  /** A cell of a row; a column the row lacks reads as missing. */
  function Cell(r: Row, c: string): Value {
    if c in r then r[c] else Missing
  }

  /** The union of the records' keys: the columns of `pd.DataFrame(records)`. */
  function KeysOf(records: seq<Row>): (keys: set<string>)
    ensures forall i, c :: 0 <= i < |records| && c in records[i] ==> c in keys
    ensures forall c :: c in keys ==> exists i :: 0 <= i < |records| && c in records[i]
  {
    if records == [] then {}
    else
      var rest := KeysOf(records[1..]);
      assert forall i, c :: 1 <= i < |records| && c in records[i] ==> c in rest by {
        forall i, c | 1 <= i < |records| && c in records[i] ensures c in rest {
          assert records[1..][i - 1] == records[i];
        }
      }
      records[0].Keys + rest
  }

  /**
   * `pd.DataFrame(records)`: the columns are every key any record has, and
   * a key a record lacks becomes a missing cell, so after loading an absent
   * key and a missing value can no longer be told apart.
   */
  function FromRecords(records: seq<Row>): (t: Table)
    ensures t.WellFormed() && |t.rows| == |records|
    ensures forall c :: c in t.columns <==> exists i :: 0 <= i < |records| && c in records[i]
    ensures forall i, c :: 0 <= i < |records| && c in t.columns ==> t.rows[i][c] == Cell(records[i], c)
  {
    var keys := KeysOf(records);
    Table(keys, seq(|records|, i requires 0 <= i < |records| => map c | c in keys :: Cell(records[i], c)))
  }

  /** Reading column c as a list of cells; KeyError when the frame has no such column. */
  function Column(t: Table, c: string): (r: Result<seq<Value>>)
    ensures r.Err? <==> c !in t.columns
    ensures r.Err? ==> r.error == KeyError(c)
    ensures r.Ok? ==> |r.value| == |t.rows|
    ensures r.Ok? ==> forall i :: 0 <= i < |t.rows| ==> r.value[i] == Cell(t.rows[i], c)
  {
    if c in t.columns then Ok(seq(|t.rows|, i requires 0 <= i < |t.rows| => Cell(t.rows[i], c)))
    else Err(KeyError(c))
  }

  /**
   * `Series.apply(f)`: f on every cell in index order; the first cell f
   * raises on aborts the whole call with that error.
   */
  function MapCells<R>(cells: seq<Value>, f: Value -> Result<R>): (r: Result<seq<R>>)
    ensures r.Ok? <==> forall i :: 0 <= i < |cells| ==> f(cells[i]).Ok?
    ensures r.Ok? ==> |r.value| == |cells|
    ensures r.Ok? ==> forall i :: 0 <= i < |cells| ==> f(cells[i]) == Ok(r.value[i])
    ensures r.Err? ==> exists i :: (0 <= i < |cells| && f(cells[i]) == Err(r.error) &&
      forall j :: 0 <= j < i ==> f(cells[j]).Ok?)
  {
    if cells == [] then Ok([])
    else
      match f(cells[0])
      case Err(e) => Err(e)
      case Ok(v) =>
        match MapCells(cells[1..], f)
        case Err(e) =>
          assert forall j :: 1 <= j < |cells| ==> cells[1..][j - 1] == cells[j];
          ghost var i0 :| 0 <= i0 < |cells| - 1 && f(cells[1..][i0]) == Err(e) &&
            forall j :: 0 <= j < i0 ==> f(cells[1..][j]).Ok?;
          assert f(cells[i0 + 1]) == Err(e);
          assert forall j :: 0 <= j < i0 + 1 ==> f(cells[j]).Ok? by {
            forall j | 0 <= j < i0 + 1 ensures f(cells[j]).Ok? {
              if j > 0 { assert cells[j] == cells[1..][j - 1]; }
            }
          }
          Err(e)
        case Ok(vs) =>
          assert forall j :: 1 <= j < |cells| ==> cells[1..][j - 1] == cells[j];
          Ok([v] + vs)
  }

  /** Assigning a whole column: sets (or adds) column c, row by row. */
  function WithColumn(t: Table, c: string, values: seq<Value>): (u: Table)
    requires |values| == |t.rows|
    ensures u.columns == t.columns + {c} && |u.rows| == |t.rows|
    ensures forall i :: 0 <= i < |t.rows| ==> u.rows[i] == t.rows[i][c := values[i]]
    ensures t.WellFormed() ==> u.WellFormed()
  {
    Table(t.columns + {c}, seq(|t.rows|, i requires 0 <= i < |t.rows| => t.rows[i][c := values[i]]))
  }

  /** The DataFrame object that preprocessors and augmentors update in place. */
  class Frame {
    var columns: set<string>
    var rows: seq<Row>

    constructor (t: Table)
      ensures Snapshot() == t
    {
      columns := t.columns;
      rows := t.rows;
    }

    /** The frame's current value. */
    function Snapshot(): Table
      reads this
    {
      Table(columns, rows)
    }
  }
}
