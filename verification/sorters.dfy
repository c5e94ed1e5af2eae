/**
 * The sorters `ascending` and `descending` (lamd/mdlist.py lines 124-130):
 * pandas' `sort_values` on the key columns, which returns a new, reordered
 * frame. Missing keys go last in both directions, pandas' default.
 */
module Sorters {
  import opened Values
  import opened Tables

  /** Python's `<=` on strings: lexicographic by code point. */
  predicate StrLe(s: string, t: string)
    decreases |s|
  {
    if s == [] then true
    else if t == [] then false
    else if s[0] != t[0] then s[0] < t[0]
    else StrLe(s[1..], t[1..])
  }

  lemma {:induction false} StrLeTotal(s: string, t: string)
    ensures StrLe(s, t) || StrLe(t, s)
    decreases |s|
  {
    if s != [] && t != [] && s[0] == t[0] {
      StrLeTotal(s[1..], t[1..]);
    }
  }

  lemma {:induction false} StrLeTrans(s: string, t: string, u: string)
    requires StrLe(s, t) && StrLe(t, u)
    ensures StrLe(s, u)
    decreases |s|
  {
    if s != [] && t != [] && u != [] && s[0] == t[0] && t[0] == u[0] {
      StrLeTrans(s[1..], t[1..], u[1..]);
    }
  }

  /**
   * The kinds of cell in the order the model sorts them when a column mixes
   * kinds: numbers (booleans count as 0 and 1), strings, dates, timestamps,
   * lists, dicts.
   */
  function Rank(v: Value): int {
    match v
    case Missing => 0
    case Int(_) => 1
    case Bool(_) => 1
    case Str(_) => 2
    case Date(_) => 3
    case Stamp(_) => 4
    case List(_) => 5
    case Dict(_) => 6
  }

  function Number(v: Value): int
    requires v.Int? || v.Bool?
  {
    if v.Int? then v.i else BoolAsInt(v.b)
  }

  /** The natural order of two present cells. */
  predicate CellLe(a: Value, b: Value) {
    if Rank(a) != Rank(b) then Rank(a) < Rank(b)
    else if Rank(a) == 1 then Number(a) <= Number(b)
    else if a.Str? then StrLe(a.s, b.s)
    else if a.Date? || a.Stamp? then DayLe(a.date, b.date)
    else true
  }

  /** Sort-key order for one column: the natural order or its reverse, missing last either way. */
  predicate KeyLe(a: Value, b: Value, ascending: bool) {
    if b.Missing? then true
    else if a.Missing? then false
    else if ascending then CellLe(a, b)
    else CellLe(b, a)
  }

  lemma KeyLeTotal(a: Value, b: Value, ascending: bool)
    ensures KeyLe(a, b, ascending) || KeyLe(b, a, ascending)
  {
    if a.Str? && b.Str? {
      StrLeTotal(a.s, b.s);
    }
  }

  lemma KeyLeTrans(a: Value, b: Value, c: Value, ascending: bool)
    requires KeyLe(a, b, ascending) && KeyLe(b, c, ascending)
    ensures KeyLe(a, c, ascending)
  {
    if a.Str? && b.Str? && c.Str? {
      if ascending {
        StrLeTrans(a.s, b.s, c.s);
      } else {
        StrLeTrans(c.s, b.s, a.s);
      }
    }
  }

  /** Row order for `sort_values(by=keys)`: lexicographic over the key columns. */
  predicate RowLe(x: Row, y: Row, keys: seq<string>, ascending: bool)
    decreases |keys|
  {
    if keys == [] then true
    else
      var a, b := Cell(x, keys[0]), Cell(y, keys[0]);
      if KeyLe(a, b, ascending) && KeyLe(b, a, ascending) then RowLe(x, y, keys[1..], ascending)
      else KeyLe(a, b, ascending)
  }

  lemma {:induction false} RowLeTotal(x: Row, y: Row, keys: seq<string>, ascending: bool)
    ensures RowLe(x, y, keys, ascending) || RowLe(y, x, keys, ascending)
    decreases |keys|
  {
    if keys != [] {
      KeyLeTotal(Cell(x, keys[0]), Cell(y, keys[0]), ascending);
      RowLeTotal(x, y, keys[1..], ascending);
    }
  }

  lemma {:induction false} RowLeTrans(x: Row, y: Row, z: Row, keys: seq<string>, ascending: bool)
    requires RowLe(x, y, keys, ascending) && RowLe(y, z, keys, ascending)
    ensures RowLe(x, z, keys, ascending)
    decreases |keys|
  {
    if keys != [] {
      var a, b, c := Cell(x, keys[0]), Cell(y, keys[0]), Cell(z, keys[0]);
      assert KeyLe(a, b, ascending) && KeyLe(b, c, ascending);
      KeyLeTrans(a, b, c, ascending);
      if KeyLe(c, a, ascending) {
        KeyLeTrans(c, a, b, ascending);
        KeyLeTrans(b, c, a, ascending);
        RowLeTrans(x, y, z, keys[1..], ascending);
      }
    }
  }

  predicate Sorted(rows: seq<Row>, keys: seq<string>, ascending: bool) {
    forall i, j :: 0 <= i < j < |rows| ==> RowLe(rows[i], rows[j], keys, ascending)
  }

  function Insert(r: Row, rows: seq<Row>, keys: seq<string>, ascending: bool): seq<Row> {
    if rows == [] then [r]
    else if RowLe(r, rows[0], keys, ascending) then [r] + rows
    else [rows[0]] + Insert(r, rows[1..], keys, ascending)
  }

  /** The row order of the sorted frame: an insertion sort that keeps rows with equal keys in their input order (`SortStable`). */
  function SortRows(rows: seq<Row>, keys: seq<string>, ascending: bool): seq<Row> {
    if rows == [] then [] else Insert(rows[0], SortRows(rows[1..], keys, ascending), keys, ascending)
  }

  lemma {:induction false} InsertPermutes(r: Row, rows: seq<Row>, keys: seq<string>, ascending: bool)
    ensures multiset(Insert(r, rows, keys, ascending)) == multiset(rows) + multiset{r}
  {
    if rows != [] && !RowLe(r, rows[0], keys, ascending) {
      InsertPermutes(r, rows[1..], keys, ascending);
      assert rows == [rows[0]] + rows[1..];
    }
  }

  lemma {:induction false} InsertSorted(r: Row, rows: seq<Row>, keys: seq<string>, ascending: bool)
    requires Sorted(rows, keys, ascending)
    ensures Sorted(Insert(r, rows, keys, ascending), keys, ascending)
  {
    if rows == [] {
    } else if RowLe(r, rows[0], keys, ascending) {
      var s := [r] + rows;
      forall i, j | 0 <= i < j < |s| ensures RowLe(s[i], s[j], keys, ascending) {
        if i == 0 && j > 1 {
          RowLeTrans(r, rows[0], rows[j - 1], keys, ascending);
        }
      }
    } else {
      RowLeTotal(r, rows[0], keys, ascending);
      var tail := Insert(r, rows[1..], keys, ascending);
      InsertSorted(r, rows[1..], keys, ascending);
      InsertPermutes(r, rows[1..], keys, ascending);
      var s := [rows[0]] + tail;
      forall i, j | 0 <= i < j < |s| ensures RowLe(s[i], s[j], keys, ascending) {
        if i == 0 {
          assert s[j] in multiset(tail);
          assert s[j] == r || s[j] in multiset(rows[1..]);
          if s[j] != r {
            var k :| 0 <= k < |rows[1..]| && rows[1..][k] == s[j];
            assert rows[k + 1] == s[j];
          }
        }
      }
    }
  }

  /** Sorting only reorders: the result holds the same rows, each as often. */
  lemma {:induction false} SortPermutes(rows: seq<Row>, keys: seq<string>, ascending: bool)
    ensures multiset(SortRows(rows, keys, ascending)) == multiset(rows)
  {
    if rows != [] {
      SortPermutes(rows[1..], keys, ascending);
      InsertPermutes(rows[0], SortRows(rows[1..], keys, ascending), keys, ascending);
      assert rows == [rows[0]] + rows[1..];
    }
  }

  /** Every pair of rows of the result is in key order. */
  lemma {:induction false} SortSorts(rows: seq<Row>, keys: seq<string>, ascending: bool)
    ensures Sorted(SortRows(rows, keys, ascending), keys, ascending)
  {
    if rows != [] {
      SortSorts(rows[1..], keys, ascending);
      InsertSorted(rows[0], SortRows(rows[1..], keys, ascending), keys, ascending);
    }
  }

  /** Rows with the same values in every key column. */
  predicate Tie(x: Row, y: Row, keys: seq<string>, ascending: bool) {
    RowLe(x, y, keys, ascending) && RowLe(y, x, keys, ascending)
  }

  /** The rows of `rows` tied with `x`, in their order there. */
  function TiedWith(rows: seq<Row>, x: Row, keys: seq<string>, ascending: bool): (r: seq<Row>)
    ensures |r| <= |rows|
  {
    if rows == [] then []
    else TiedHead(rows[0], x, keys, ascending) + TiedWith(rows[1..], x, keys, ascending)
  }

  lemma {:induction false} TiedWithMembers(rows: seq<Row>, x: Row, keys: seq<string>, ascending: bool)
    ensures forall y :: y in TiedWith(rows, x, keys, ascending) ==> y in rows && Tie(y, x, keys, ascending)
  {
    if rows != [] {
      TiedWithMembers(rows[1..], x, keys, ascending);
    }
  }

  /** Two rows tied with the same row are tied with each other, so neither sorts strictly first. */
  lemma TiedTogether(r: Row, y: Row, x: Row, keys: seq<string>, ascending: bool)
    requires Tie(r, x, keys, ascending) && Tie(y, x, keys, ascending)
    ensures RowLe(r, y, keys, ascending)
  {
    RowLeTrans(r, x, y, keys, ascending);
  }

  /** The one-row contribution to `TiedWith`. */
  function TiedHead(y: Row, x: Row, keys: seq<string>, ascending: bool): seq<Row> {
    if Tie(y, x, keys, ascending) then [y] else []
  }

  lemma TiedWithCons(y: Row, rows: seq<Row>, x: Row, keys: seq<string>, ascending: bool)
    ensures TiedWith([y] + rows, x, keys, ascending) == TiedHead(y, x, keys, ascending) + TiedWith(rows, x, keys, ascending)
  {
    assert ([y] + rows)[0] == y && ([y] + rows)[1..] == rows;
  }

  /** Two prefixes commute when one of them is empty. */
  lemma SwapEmpty<T>(a: seq<T>, b: seq<T>, tail: seq<T>)
    requires a == [] || b == []
    ensures a + (b + tail) == b + (a + tail)
  {
    if a == [] {
      assert a + (b + tail) == b + tail && a + tail == tail;
    } else {
      assert b + (a + tail) == a + tail && b + tail == tail;
    }
  }

  /** Inserting a row puts it in front of every row it is tied with. */
  lemma {:induction false} InsertTied(r: Row, rows: seq<Row>, x: Row, keys: seq<string>, ascending: bool)
    ensures TiedWith(Insert(r, rows, keys, ascending), x, keys, ascending)
      == TiedHead(r, x, keys, ascending) + TiedWith(rows, x, keys, ascending)
  {
    if rows == [] {
      TiedWithCons(r, [], x, keys, ascending);
    } else if RowLe(r, rows[0], keys, ascending) {
      TiedWithCons(r, rows, x, keys, ascending);
    } else {
      var rest := Insert(r, rows[1..], keys, ascending);
      assert Insert(r, rows, keys, ascending) == [rows[0]] + rest;
      var hr, h0 := TiedHead(r, x, keys, ascending), TiedHead(rows[0], x, keys, ascending);
      var tail := TiedWith(rows[1..], x, keys, ascending);
      InsertTied(r, rows[1..], x, keys, ascending);
      TiedWithCons(rows[0], rest, x, keys, ascending);
      assert TiedWith([rows[0]] + rest, x, keys, ascending) == h0 + (hr + tail);
      TiedWithCons(rows[0], rows[1..], x, keys, ascending);
      assert [rows[0]] + rows[1..] == rows;
      assert TiedWith(rows, x, keys, ascending) == h0 + tail;
      if hr != [] && h0 != [] {
        TiedTogether(r, rows[0], x, keys, ascending);
      }
      SwapEmpty(h0, hr, tail);
    }
  }

  /** The sort is stable: rows with equal keys come out in their input order. */
  lemma {:induction false} SortStable(rows: seq<Row>, x: Row, keys: seq<string>, ascending: bool)
    ensures TiedWith(SortRows(rows, keys, ascending), x, keys, ascending) == TiedWith(rows, x, keys, ascending)
  {
    if rows != [] {
      SortStable(rows[1..], x, keys, ascending);
      InsertTied(rows[0], SortRows(rows[1..], keys, ascending), x, keys, ascending);
    }
  }

  /** The first column of `keys` that the frame lacks, if any. */
  function FirstAbsent(columns: set<string>, keys: seq<string>): (r: Option<string>)
    ensures r.None? <==> forall k :: k in keys ==> k in columns
    ensures r.Some? ==> r.value in keys && r.value !in columns
    ensures r.Some? ==> exists j :: (0 <= j < |keys| && keys[j] == r.value &&
      forall k :: 0 <= k < j ==> keys[k] in columns)
  {
    if keys == [] then None
    else if keys[0] !in columns then Some(keys[0])
    else
      var r := FirstAbsent(columns, keys[1..]);
      if r.Some? then
        ghost var j :| 0 <= j < |keys| - 1 && keys[1..][j] == r.value &&
          forall k :: 0 <= k < j ==> keys[1..][k] in columns;
        assert keys[j + 1] == r.value;
        assert forall k :: 0 <= k < j + 1 ==> keys[k] in columns by {
          forall k | 0 <= k < j + 1 ensures keys[k] in columns {
            if k > 0 { assert keys[k] == keys[1..][k - 1]; }
          }
        }
        r
      else r
  }

  /**
   * pandas' `sort_values` on the key columns: KeyError for the first key
   * column the frame lacks; otherwise the same columns and rows, reordered
   * so that every pair of rows is in key order.
   */
  function SortValues(t: Table, keys: OneOrMany<string>, ascending: bool): (r: Result<Table>)
    ensures r.Err? <==> exists k :: k in keys.Items() && k !in t.columns
    ensures r.Err? ==> r.error == KeyError(FirstAbsent(t.columns, keys.Items()).value)
    ensures r.Ok? ==> r.value.columns == t.columns
    ensures r.Ok? ==> multiset(r.value.rows) == multiset(t.rows)
    ensures r.Ok? ==> Sorted(r.value.rows, keys.Items(), ascending)
  {
    var names := keys.Items();
    match FirstAbsent(t.columns, names)
    case Some(k) => Err(KeyError(k))
    case None =>
      SortPermutes(t.rows, names, ascending);
      SortSorts(t.rows, names, ascending);
      Ok(Table(t.columns, SortRows(t.rows, names, ascending)))
  }

  /** `ascending(df, by)` */
  function Ascending(t: Table, keys: OneOrMany<string>): (r: Result<Table>)
    ensures r.Ok? ==> forall i, j :: 0 <= i < j < |r.value.rows| ==> RowLe(r.value.rows[i], r.value.rows[j], keys.Items(), true)
  {
    SortValues(t, keys, true)
  }

  /** `descending(df, by)` */
  function Descending(t: Table, keys: OneOrMany<string>): (r: Result<Table>)
    ensures r.Ok? ==> forall i, j :: 0 <= i < j < |r.value.rows| ==> RowLe(r.value.rows[i], r.value.rows[j], keys.Items(), false)
  {
    SortValues(t, keys, false)
  }

  /**
   * In a sorted frame the rows whose first key is missing come last, in
   * either direction, and the present first keys run in the requested
   * direction.
   */
  lemma FirstKeyOrder(rows: seq<Row>, keys: seq<string>, ascending: bool, i: int, j: int)
    requires Sorted(rows, keys, ascending) && keys != []
    requires 0 <= i < j < |rows|
    ensures Cell(rows[i], keys[0]).Missing? ==> Cell(rows[j], keys[0]).Missing?
    ensures !Cell(rows[i], keys[0]).Missing? && !Cell(rows[j], keys[0]).Missing? ==>
      if ascending then CellLe(Cell(rows[i], keys[0]), Cell(rows[j], keys[0]))
      else CellLe(Cell(rows[j], keys[0]), Cell(rows[i], keys[0]))
  {
    assert RowLe(rows[i], rows[j], keys, ascending);
  }

  /** Descending keys one column of years puts later years first. */
  lemma DescendingYears(t: Table, column: string, i: int, j: int)
    requires Descending(t, One(column)).Ok?
    requires 0 <= i < j < |Descending(t, One(column)).value.rows|
    requires Cell(Descending(t, One(column)).value.rows[i], column).Int?
    requires Cell(Descending(t, One(column)).value.rows[j], column).Int?
    ensures Cell(Descending(t, One(column)).value.rows[i], column).i >= Cell(Descending(t, One(column)).value.rows[j], column).i
  {
    var rows := Descending(t, One(column)).value.rows;
    FirstKeyOrder(rows, [column], false, i, j);
  }
}
