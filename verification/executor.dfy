/**
 * The list builder's executor (lamd/mdlist.py lines 467-489): it runs a
 * category's steps on the loaded frame, combines its filters into one
 * mask and renders every selected row with the category's template.
 */
module Executor {
  import opened Values
  import opened Tables
  import opened Registry
  import Cells
  import Preprocessors
  import Augmentors
  import Sorters
  import Filters
  import Cleaning

  /** A sorter's new frame as a step effect: on KeyError the frame is left as it was. */
  function SortEffect(t: Table, sorted: Result<Table>): Effect {
    match sorted
    case Ok(u) => Effect(u, Pass)
    case Err(e) => Effect(t, Fail(e))
  }

  /** What one registry step does to the frame. */
  function StepEffect(t: Table, step: Step, repr: Value -> string): (e: Effect)
    ensures step.AddMonth? && e.outcome == Pass ==> e.table.columns == t.columns + {step.monthColumn}
    ensures step.AddYear? && e.outcome == Pass ==> e.table.columns == t.columns + {step.yearColumn}
    ensures !step.AddMonth? && !step.AddYear? ==> e.table.columns == t.columns
    ensures step.Ascending? || step.Descending? ==>
      (e.outcome == Pass <==> forall k :: k in step.keys.Items() ==> k in t.columns)
  {
    match step
    case ConvertDatetime(cs) => Preprocessors.ConvertEach(t, cs.Items(), Cells.ToDatetime)
    case ConvertInt(cs) => Preprocessors.ConvertEach(t, cs.Items(), Cells.ToInt)
    case ConvertString(cs) => Preprocessors.ConvertEach(t, cs.Items(), Preprocessors.StringCell(repr))
    case ConvertNewYearDay(cs) => Preprocessors.ConvertEach(t, cs.Items(), Preprocessors.NewYearDayCell(repr))
    case ConvertYearIso(c, m, d) => Preprocessors.YearIsoEffect(t, c, m, d)
    case AddMonth(s, c) => Augmentors.DeriveEffect(t, s, c, Cells.MonthNameOf)
    case AddYear(s, c) => Augmentors.DeriveEffect(t, s, c, Cells.YearOf)
    case AugmentMonth(s, c) => Augmentors.AugmentFrom(t, 0, s, c, Cells.MonthNameOf)
    case AugmentYear(s, c) => Augmentors.AugmentFrom(t, 0, s, c, Cells.YearOf)
    case AddSupervisor(c, s) => Augmentors.FillEffect(t, c, s)
    case Ascending(keys) => SortEffect(t, Sorters.Ascending(t, keys))
    case Descending(keys) => SortEffect(t, Sorters.Descending(t, keys))
  }

  /** One step of a stage, run on the frame in place. */
  method Apply(df: Frame, step: Step, repr: Value -> string) returns (outcome: Outcome)
    modifies df
    ensures Effect(df.Snapshot(), outcome) == StepEffect(old(df.Snapshot()), step, repr)
  {
    match step
    case ConvertDatetime(cs) => outcome := Preprocessors.ConvertDatetime(df, cs);
    case ConvertInt(cs) => outcome := Preprocessors.ConvertInt(df, cs);
    case ConvertString(cs) => outcome := Preprocessors.ConvertString(df, cs, repr);
    case ConvertNewYearDay(cs) => outcome := Preprocessors.ConvertNewYearDay(df, cs, repr);
    case ConvertYearIso(c, m, d) => outcome := Preprocessors.ConvertYearIso(df, c, m, d);
    case AddMonth(s, c) => outcome := Augmentors.AddMonth(df, s, c);
    case AddYear(s, c) => outcome := Augmentors.AddYear(df, s, c);
    case AugmentMonth(s, c) => outcome := Augmentors.AugmentMonth(df, s, c);
    case AugmentYear(s, c) => outcome := Augmentors.AugmentYear(df, s, c);
    case AddSupervisor(c, s) => outcome := Augmentors.AddSupervisor(df, c, s);
    case Ascending(keys) =>
      var sorted := Sorters.Ascending(df.Snapshot(), keys);
      if sorted.Err? {
        return Fail(sorted.error);
      }
      df.rows := sorted.value.rows;
      outcome := Pass;
    case Descending(keys) =>
      var sorted := Sorters.Descending(df.Snapshot(), keys);
      if sorted.Err? {
        return Fail(sorted.error);
      }
      df.rows := sorted.value.rows;
      outcome := Pass;
  }

  /** The steps run in order; the first that raises ends the run. */
  function RunSteps(t: Table, steps: seq<Step>, repr: Value -> string): Effect
    decreases |steps|
  {
    if steps == [] then Effect(t, Pass)
    else
      var e := StepEffect(t, steps[0], repr);
      if e.outcome.Fail? then e else RunSteps(e.table, steps[1..], repr)
  }

  /** A run that passes ends with the effect of its last step on what the earlier steps left. */
  lemma {:induction false} RunStepsLast(t: Table, steps: seq<Step>, last: Step, repr: Value -> string)
    requires RunSteps(t, steps + [last], repr).outcome == Pass
    ensures RunSteps(t, steps, repr).outcome == Pass
    ensures RunSteps(t, steps + [last], repr) == StepEffect(RunSteps(t, steps, repr).table, last, repr)
    decreases |steps|
  {
    if steps != [] {
      assert (steps + [last])[1..] == steps[1..] + [last];
      var e := StepEffect(t, steps[0], repr);
      RunStepsLast(e.table, steps[1..], last, repr);
    }
  }

  /** No step adds, drops or duplicates rows. */
  lemma StepKeepsRowCount(t: Table, step: Step, repr: Value -> string)
    requires StepEffect(t, step, repr).outcome == Pass
    ensures |StepEffect(t, step, repr).table.rows| == |t.rows|
  {
    match step
    case ConvertDatetime(cs) => Preprocessors.ConvertEachKeepsOthers(t, cs.Items(), Cells.ToDatetime);
    case ConvertInt(cs) => Preprocessors.ConvertEachKeepsOthers(t, cs.Items(), Cells.ToInt);
    case ConvertString(cs) => Preprocessors.ConvertEachKeepsOthers(t, cs.Items(), Preprocessors.StringCell(repr));
    case ConvertNewYearDay(cs) => Preprocessors.ConvertEachKeepsOthers(t, cs.Items(), Preprocessors.NewYearDayCell(repr));
    case ConvertYearIso(c, m, d) =>
    case AddMonth(s, c) =>
    case AddYear(s, c) =>
    case AugmentMonth(s, c) => Augmentors.AugmentFillsOnlyMissing(t, s, c, Cells.MonthNameOf);
    case AugmentYear(s, c) => Augmentors.AugmentFillsOnlyMissing(t, s, c, Cells.YearOf);
    case AddSupervisor(c, s) =>
    case Ascending(keys) =>
      assert |multiset(StepEffect(t, step, repr).table.rows)| == |multiset(t.rows)|;
    case Descending(keys) =>
      assert |multiset(StepEffect(t, step, repr).table.rows)| == |multiset(t.rows)|;
  }

  lemma {:induction false} RunStepsKeepsRowCount(t: Table, steps: seq<Step>, repr: Value -> string)
    requires RunSteps(t, steps, repr).outcome == Pass
    ensures |RunSteps(t, steps, repr).table.rows| == |t.rows|
    decreases |steps|
  {
    if steps != [] {
      var e := StepEffect(t, steps[0], repr);
      StepKeepsRowCount(t, steps[0], repr);
      RunStepsKeepsRowCount(e.table, steps[1..], repr);
    }
  }

  /** The mask one registry filter computes. */
  function FilterMask(t: Table, f: Filter, now: CalendarDay): (r: Result<seq<Truth>>)
    ensures r.Ok? ==> |r.value| == |t.rows|
  {
    match f
    case Recent(c) => Filters.Recent(t, c)
    case Current(s, e, flag) => Filters.Current(t, s, e, flag, now)
    case Former(e) => Filters.Former(t, e, now)
    case ColumnIs(c, v) => Filters.ColumnIs(t, c, v)
    case ColumnContains(c, v) => Filters.ColumnContains(t, c, v)
  }

  /** The running mask and'ed with one filter's mask, entry by entry. */
  function AndMasks(m: seq<Truth>, n: seq<Truth>): (r: seq<Truth>)
    requires |m| == |n|
    ensures |r| == |m|
    ensures forall i :: 0 <= i < |m| ==> r[i] == And(m[i], n[i])
  {
    seq(|m|, i requires 0 <= i < |m| => And(m[i], n[i]))
  }

  /** The combined mask: all true to begin with, then and'ed with each filter's mask in order. */
  function CombinedMask(t: Table, fs: seq<Filter>, now: CalendarDay): (r: Result<seq<Truth>>)
    ensures r.Ok? ==> |r.value| == |t.rows|
    decreases |fs|
  {
    if fs == [] then Ok(seq(|t.rows|, _ => Yes))
    else
      var m :- CombinedMask(t, fs[..|fs| - 1], now);
      var n :- FilterMask(t, fs[|fs| - 1], now);
      Ok(AndMasks(m, n))
  }

  /** The masks the filters compute, in filter order. */
  function Masks(t: Table, fs: seq<Filter>, now: CalendarDay): (ms: seq<Result<seq<Truth>>>)
    ensures |ms| == |fs|
    ensures forall j :: 0 <= j < |ms| && ms[j].Ok? ==> |ms[j].value| == |t.rows|
  {
    seq(|fs|, j requires 0 <= j < |fs| => FilterMask(t, fs[j], now))
  }

  /** And'ing a list of masks, any of which may be an error, onto an all-true mask of `n` entries. */
  function Conjoin(n: nat, ms: seq<Result<seq<Truth>>>): (r: Result<seq<Truth>>)
    requires forall j :: 0 <= j < |ms| && ms[j].Ok? ==> |ms[j].value| == n
    ensures r.Ok? ==> |r.value| == n
    decreases |ms|
  {
    if ms == [] then Ok(seq(n, _ => Yes))
    else
      var m :- Conjoin(n, ms[..|ms| - 1]);
      var x :- ms[|ms| - 1];
      Ok(AndMasks(m, x))
  }

  lemma {:induction false} ConjoinOk(n: nat, ms: seq<Result<seq<Truth>>>)
    requires forall j :: 0 <= j < |ms| && ms[j].Ok? ==> |ms[j].value| == n
    ensures Conjoin(n, ms).Ok? <==> forall j :: 0 <= j < |ms| ==> ms[j].Ok?
    decreases |ms|
  {
    if ms != [] {
      ConjoinOk(n, ms[..|ms| - 1]);
    }
  }

  lemma {:induction false} ConjoinYes(n: nat, ms: seq<Result<seq<Truth>>>)
    requires forall j :: 0 <= j < |ms| ==> ms[j].Ok? && |ms[j].value| == n
    requires Conjoin(n, ms).Ok?
    ensures forall i :: 0 <= i < n ==>
      (Conjoin(n, ms).value[i] == Yes <==> forall j :: 0 <= j < |ms| ==> ms[j].value[i] == Yes)
    decreases |ms|
  {
    if ms != [] {
      var init := ms[..|ms| - 1];
      ConjoinOk(n, init);
      ConjoinYes(n, init);
      var c := Conjoin(n, init).value;
      var x := ms[|ms| - 1].value;
      forall i | 0 <= i < n
        ensures AndMasks(c, x)[i] == Yes <==> forall j :: 0 <= j < |ms| ==> ms[j].value[i] == Yes
      {
        assert AndMasks(c, x)[i] == And(c[i], x[i]);
      }
    }
  }

  /** The filter loop is the fold over the filters' masks. */
  lemma {:induction false} CombinedMaskIsConjoin(t: Table, fs: seq<Filter>, now: CalendarDay)
    ensures CombinedMask(t, fs, now) == Conjoin(|t.rows|, Masks(t, fs, now))
    decreases |fs|
  {
    if fs != [] {
      var init := fs[..|fs| - 1];
      CombinedMaskIsConjoin(t, init, now);
      assert Masks(t, init, now) == Masks(t, fs, now)[..|fs| - 1];
    }
  }

  /**
   * The mask starts all true and is the conjunction of the filters: it
   * exists exactly when no filter raises, and then an entry is true
   * exactly when every filter's mask is true there.
   */
  lemma CombinedMaskIsConjunction(t: Table, fs: seq<Filter>, now: CalendarDay)
    ensures CombinedMask(t, [], now) == Ok(seq(|t.rows|, _ => Yes))
    ensures CombinedMask(t, fs, now).Ok? <==> forall j :: 0 <= j < |fs| ==> Masks(t, fs, now)[j].Ok?
    ensures CombinedMask(t, fs, now).Ok? ==> forall i :: 0 <= i < |t.rows| ==>
      (CombinedMask(t, fs, now).value[i] == Yes
       <==> forall j :: 0 <= j < |fs| ==> Masks(t, fs, now)[j].value[i] == Yes)
  {
    var ms := Masks(t, fs, now);
    CombinedMaskIsConjoin(t, fs, now);
    ConjoinOk(|t.rows|, ms);
    if CombinedMask(t, fs, now).Ok? {
      ConjoinYes(|t.rows|, ms);
    }
  }

  lemma {:induction false} ConjoinFirstError(n: nat, ms: seq<Result<seq<Truth>>>)
    requires forall j :: 0 <= j < |ms| && ms[j].Ok? ==> |ms[j].value| == n
    requires Conjoin(n, ms).Err?
    ensures exists j :: (0 <= j < |ms| && ms[j] == Err(Conjoin(n, ms).error)
      && forall k :: 0 <= k < j ==> ms[k].Ok?)
    decreases |ms|
  {
    var init := ms[..|ms| - 1];
    assert forall k :: 0 <= k < |init| ==> ms[k] == init[k];
    if Conjoin(n, init).Err? {
      ConjoinFirstError(n, init);
      var j :| 0 <= j < |init| && init[j] == Err(Conjoin(n, init).error) && forall k :: 0 <= k < j ==> init[k].Ok?;
      assert ms[j] == init[j];
    } else {
      ConjoinOk(n, init);
      assert ms[|ms| - 1] == Err(Conjoin(n, ms).error);
    }
  }

  /** When the filters raise, the error is that of the first filter that raises. */
  lemma CombinedMaskFirstError(t: Table, fs: seq<Filter>, now: CalendarDay)
    requires CombinedMask(t, fs, now).Err?
    ensures exists j :: (0 <= j < |fs| && Masks(t, fs, now)[j] == Err(CombinedMask(t, fs, now).error)
      && forall k :: 0 <= k < j ==> Masks(t, fs, now)[k].Ok?)
  {
    CombinedMaskIsConjoin(t, fs, now);
    ConjoinFirstError(|t.rows|, Masks(t, fs, now));
  }

  /** A filter that raises makes every longer filter list raise with the same error. */
  lemma {:induction false} CombinedMaskFailsOnward(t: Table, fs: seq<Filter>, j: nat, now: CalendarDay)
    requires j <= |fs|
    requires CombinedMask(t, fs[..j], now).Err?
    ensures CombinedMask(t, fs, now) == CombinedMask(t, fs[..j], now)
    decreases |fs| - j
  {
    if j < |fs| {
      assert fs[..j + 1][..j] == fs[..j];
      CombinedMaskFailsOnward(t, fs, j + 1, now);
    } else {
      assert fs[..j] == fs;
    }
  }

  /** The positions where the mask is true, in increasing order. */
  function YesIndices(mask: seq<Truth>): (idx: seq<nat>)
    ensures |idx| <= |mask|
    ensures forall k :: 0 <= k < |idx| ==> idx[k] < |mask| && mask[idx[k]] == Yes
    ensures forall a, b :: 0 <= a < b < |idx| ==> idx[a] < idx[b]
    decreases |mask|
  {
    if mask == [] then []
    else
      var n := |mask| - 1;
      var prefix := YesIndices(mask[..n]);
      assert forall k :: 0 <= k < |prefix| ==> mask[prefix[k]] == mask[..n][prefix[k]];
      if mask[n] == Yes then prefix + [n] else prefix
  }

  /** Every position where the mask is true is among them. */
  lemma {:induction false} YesIndicesComplete(mask: seq<Truth>)
    ensures forall i :: 0 <= i < |mask| && mask[i] == Yes ==> i in YesIndices(mask)
    decreases |mask|
  {
    if mask != [] {
      var n := |mask| - 1;
      YesIndicesComplete(mask[..n]);
      assert forall i :: 0 <= i < n ==> mask[i] == mask[..n][i];
    }
  }

  /** The rows whose mask entry is true, in frame order. */
  function Selected(rows: seq<Row>, mask: seq<Truth>): (s: seq<Row>)
    requires |mask| == |rows|
    ensures |s| == |YesIndices(mask)|
    ensures forall k :: 0 <= k < |s| ==> s[k] == rows[YesIndices(mask)[k]]
    ensures |s| <= |rows|
    ensures forall r :: r in s ==> exists i :: 0 <= i < |rows| && rows[i] == r && mask[i] == Yes
    ensures forall i :: 0 <= i < |rows| && mask[i] == Yes ==> rows[i] in s
    decreases |rows|
  {
    if rows == [] then []
    else
      var n := |rows| - 1;
      var prefix := Selected(rows[..n], mask[..n]);
      var s := if mask[n] == Yes then prefix + [rows[n]] else prefix;
      ExtendYesRows(rows, mask, prefix);
      PicksYesRows(rows, mask, s);
      s
  }

  /** Appending the last row when its mask entry is true extends the rows at the true positions of the prefix. */
  lemma ExtendYesRows(rows: seq<Row>, mask: seq<Truth>, prefix: seq<Row>)
    requires |mask| == |rows| > 0
    requires |prefix| == |YesIndices(mask[..|mask| - 1])|
    requires forall k :: 0 <= k < |prefix| ==> prefix[k] == rows[..|rows| - 1][YesIndices(mask[..|mask| - 1])[k]]
    ensures var s := if mask[|mask| - 1] == Yes then prefix + [rows[|rows| - 1]] else prefix;
      |s| == |YesIndices(mask)| && forall k :: 0 <= k < |s| ==> s[k] == rows[YesIndices(mask)[k]]
  {
    var n := |rows| - 1;
    var before := YesIndices(mask[..n]);
    assert YesIndices(mask) == before + (if mask[n] == Yes then [n] else []);
    forall k | 0 <= k < |prefix| ensures prefix[k] == rows[YesIndices(mask)[k]] {
      assert before[k] < n;
      assert YesIndices(mask)[k] == before[k];
    }
  }

  /** A sequence holding the rows at the true positions of the mask, in order, holds exactly the rows marked true. */
  lemma PicksYesRows(rows: seq<Row>, mask: seq<Truth>, s: seq<Row>)
    requires |mask| == |rows|
    requires |s| == |YesIndices(mask)|
    requires forall k :: 0 <= k < |s| ==> s[k] == rows[YesIndices(mask)[k]]
    ensures forall r :: r in s ==> exists i :: 0 <= i < |rows| && rows[i] == r && mask[i] == Yes
    ensures forall i :: 0 <= i < |rows| && mask[i] == Yes ==> rows[i] in s
  {
    var idx := YesIndices(mask);
    YesIndicesComplete(mask);
    forall r | r in s ensures exists i :: 0 <= i < |rows| && rows[i] == r && mask[i] == Yes {
      var k :| 0 <= k < |s| && s[k] == r;
      assert rows[idx[k]] == r;
    }
    forall i | 0 <= i < |rows| && mask[i] == Yes ensures rows[i] in s {
      var k :| 0 <= k < |idx| && idx[k] == i;
      assert s[k] == rows[i];
    }
  }

  /** Selecting rows keeps their order: a sorted frame yields a sorted selection. */
  lemma SelectedKeepsOrder(rows: seq<Row>, mask: seq<Truth>, keys: seq<string>, ascending: bool)
    requires |mask| == |rows|
    requires Sorters.Sorted(rows, keys, ascending)
    ensures Sorters.Sorted(Selected(rows, mask), keys, ascending)
  {
    var s := Selected(rows, mask);
    var idx := YesIndices(mask);
    forall a, b | 0 <= a < b < |s| ensures Sorters.RowLe(s[a], s[b], keys, ascending) {
      assert s[a] == rows[idx[a]] && s[b] == rows[idx[b]] && idx[a] < idx[b];
    }
  }

  /** The text one selected row contributes: its template rendered on the row without missing entries, then a newline. */
  function Fragment(r: Row, template: string, render: (string, map<string, Value>) -> string): string {
    render(template, Cleaning.Cleaned(r)) + "\n"
  }

  /** The fragments of the given rows, in order. */
  function Join(rows: seq<Row>, template: string, render: (string, map<string, Value>) -> string): string
    decreases |rows|
  {
    if rows == [] then "" else Join(rows[..|rows| - 1], template, render) + Fragment(rows[|rows| - 1], template, render)
  }

  /**
   * Every listed row adds at least its newline, and the text ends with one:
   * the output is empty exactly when no row is listed.
   */
  lemma {:induction false} JoinNewlines(rows: seq<Row>, template: string, render: (string, map<string, Value>) -> string)
    ensures |Join(rows, template, render)| >= |rows|
    ensures Join(rows, template, render) == "" <==> rows == []
    ensures rows != [] ==> Join(rows, template, render)[|Join(rows, template, render)| - 1] == '\n'
    decreases |rows|
  {
    if rows != [] {
      JoinNewlines(rows[..|rows| - 1], template, render);
    }
  }

  /** The frame after a category's steps, from the loaded records. */
  function Prepared(p: Pipeline, records: seq<Row>, repr: Value -> string): Effect {
    RunSteps(FromRecords(records), Steps(p), repr)
  }

  /** The rows a category lists, in output order, or the error that stops `main`. */
  function Listed(p: Pipeline, records: seq<Row>, now: CalendarDay, repr: Value -> string): (r: Result<seq<Row>>)
    ensures Prepared(p, records, repr).outcome.Fail? ==> r == Err(Prepared(p, records, repr).outcome.error)
    ensures Prepared(p, records, repr).outcome == Pass ==>
      var mask := CombinedMask(Prepared(p, records, repr).table, StageItems(p.filter), now);
      (mask.Err? ==> r == Err(mask.error)) &&
      (mask.Ok? ==> (r.Ok? && |r.value| == |YesIndices(mask.value)| &&
        (forall k :: 0 <= k < |r.value| ==> r.value[k] == Prepared(p, records, repr).table.rows[YesIndices(mask.value)[k]]) &&
        forall row :: row in r.value <==>
          exists i :: 0 <= i < |mask.value| && Prepared(p, records, repr).table.rows[i] == row && mask.value[i] == Yes))
  {
    var e := Prepared(p, records, repr);
    if e.outcome.Fail? then Err(e.outcome.error)
    else
      var mask :- CombinedMask(e.table, StageItems(p.filter), now);
      Ok(Selected(e.table.rows, mask))
  }

  /**
   * The text `main` writes for a category: nothing for a category without
   * a registry entry, otherwise one fragment per listed row; an exception
   * in a step or filter ends the program without output.
   */
  function Execute(listtype: string, records: seq<Row>, now: CalendarDay,
                   render: (string, map<string, Value>) -> string, repr: Value -> string): (r: Result<string>)
    ensures listtype !in CvLists ==> r == Ok("")
    ensures r.Err? ==> listtype in CvLists && Listed(CvLists[listtype], records, now, repr).Err?
    ensures listtype in CvLists && Listed(CvLists[listtype], records, now, repr).Err? ==>
      r == Err(Listed(CvLists[listtype], records, now, repr).error)
    ensures listtype in CvLists && Listed(CvLists[listtype], records, now, repr).Ok? ==>
      r == Ok(Join(Listed(CvLists[listtype], records, now, repr).value, CvLists[listtype].listtemplate + ".md", render))
  {
    if listtype !in CvLists then Ok("")
    else
      var p := CvLists[listtype];
      var rows :- Listed(p, records, now, repr);
      Ok(Join(rows, p.listtemplate + ".md", render))
  }

  /** The stage loops of `main`: every step in order, on the frame in place. */
  method RunAll(df: Frame, steps: seq<Step>, repr: Value -> string) returns (outcome: Outcome)
    modifies df
    ensures Effect(df.Snapshot(), outcome) == RunSteps(old(df.Snapshot()), steps, repr)
  {
    var i := 0;
    while i < |steps|
      invariant 0 <= i <= |steps|
      invariant RunSteps(df.Snapshot(), steps[i..], repr) == RunSteps(old(df.Snapshot()), steps, repr)
    {
      assert steps[i..][1..] == steps[i + 1..];
      outcome := Apply(df, steps[i], repr);
      if outcome.Fail? {
        return;
      }
      i := i + 1;
    }
    return Pass;
  }

  /** The filter loop of `main`: the running mask and'ed with each filter's mask in turn. */
  method Mask(t: Table, filters: seq<Filter>, now: CalendarDay) returns (mask: Result<seq<Truth>>)
    ensures mask == CombinedMask(t, filters, now)
  {
    var m := seq(|t.rows|, _ => Yes);
    var j := 0;
    while j < |filters|
      invariant 0 <= j <= |filters|
      invariant CombinedMask(t, filters[..j], now) == Ok(m)
    {
      assert filters[..j + 1][..j] == filters[..j];
      var n := FilterMask(t, filters[j], now);
      if n.Err? {
        CombinedMaskFailsOnward(t, filters, j + 1, now);
        return Err(n.error);
      }
      m := AndMasks(m, n.value);
      j := j + 1;
    }
    assert filters[..j] == filters;
    return Ok(m);
  }

  /** Selecting from one more row appends that row exactly when its mask entry is true. */
  lemma SelectedStep(rows: seq<Row>, mask: seq<Truth>, k: nat)
    requires |mask| == |rows| && k < |rows|
    ensures Selected(rows[..k + 1], mask[..k + 1])
      == Selected(rows[..k], mask[..k]) + (if mask[k] == Yes then [rows[k]] else [])
  {
    assert rows[..k + 1][..k] == rows[..k] && mask[..k + 1][..k] == mask[..k];
  }

  /** The text of the selection from one more row gains that row's fragment exactly when its mask entry is true. */
  lemma JoinSelectedStep(rows: seq<Row>, mask: seq<Truth>, k: nat, template: string, render: (string, map<string, Value>) -> string)
    requires |mask| == |rows| && k < |rows|
    ensures Join(Selected(rows[..k + 1], mask[..k + 1]), template, render)
      == Join(Selected(rows[..k], mask[..k]), template, render) + (if mask[k] == Yes then Fragment(rows[k], template, render) else "")
  {
    SelectedStep(rows, mask, k);
    if mask[k] == Yes {
      JoinAppend(Selected(rows[..k], mask[..k]), rows[k], template, render);
    } else {
      assert Selected(rows[..k], mask[..k]) + [] == Selected(rows[..k], mask[..k]);
    }
  }

  lemma JoinAppend(rows: seq<Row>, r: Row, template: string, render: (string, map<string, Value>) -> string)
    ensures Join(rows + [r], template, render) == Join(rows, template, render) + Fragment(r, template, render)
  {
    assert (rows + [r])[..|rows|] == rows;
  }

  /** The output loop of `main`: each row whose mask entry is true is cleaned, rendered and followed by a newline. */
  method Render(rows: seq<Row>, mask: seq<Truth>, template: string, render: (string, map<string, Value>) -> string)
    returns (out: string)
    requires |mask| == |rows|
    ensures out == Join(Selected(rows, mask), template, render)
  {
    out := "";
    var k := 0;
    while k < |rows|
      invariant 0 <= k <= |rows|
      invariant out == Join(Selected(rows[..k], mask[..k]), template, render)
    {
      JoinSelectedStep(rows, mask, k, template, render);
      if mask[k] == Yes {
        var kwargs := Cleaning.RemoveNan(rows[k]);
        out := out + (render(template, kwargs) + "\n");
      }
      k := k + 1;
    }
    assert rows[..k] == rows && mask[..k] == mask;
  }

  /** `main` from loading the records to the finished text. */
  method Run(listtype: string, records: seq<Row>, now: CalendarDay,
             render: (string, map<string, Value>) -> string, repr: Value -> string) returns (text: Result<string>)
    ensures text == Execute(listtype, records, now, render, repr)
  {
    if listtype !in CvLists {
      return Ok("");
    }
    var p := CvLists[listtype];
    var df := new Frame(FromRecords(records));
    var outcome := RunAll(df, Steps(p), repr);
    if outcome.Fail? {
      return Err(outcome.error);
    }
    var mask := Mask(df.Snapshot(), StageItems(p.filter), now);
    if mask.Err? {
      return Err(mask.error);
    }
    var out := Render(df.rows, mask.value, p.listtemplate + ".md", render);
    return Ok(out);
  }

  /**
   * Sorting comes before filtering: when a pipeline's last step is a
   * `descending` sort, the rows it lists come out in that sort's order.
   */
  lemma SortedThenSelected(p: Pipeline, records: seq<Row>, now: CalendarDay, repr: Value -> string, keys: OneOrMany<string>)
    requires p.sorter == Some(One(Descending(keys)))
    requires Listed(p, records, now, repr).Ok?
    ensures Sorters.Sorted(Listed(p, records, now, repr).value, keys.Items(), false)
  {
    var e := Prepared(p, records, repr);
    assert e.outcome == Pass;
    PreparedIsSorted(p, records, repr, keys);
    var mask := CombinedMask(e.table, StageItems(p.filter), now).value;
    assert Listed(p, records, now, repr).value == Selected(e.table.rows, mask);
    SelectedKeepsOrder(e.table.rows, mask, keys.Items(), false);
  }

  /** A pipeline whose last step is a `descending` sort leaves the frame in that sort's order. */
  lemma PreparedIsSorted(p: Pipeline, records: seq<Row>, repr: Value -> string, keys: OneOrMany<string>)
    requires p.sorter == Some(One(Descending(keys)))
    requires Prepared(p, records, repr).outcome == Pass
    ensures Sorters.Sorted(Prepared(p, records, repr).table.rows, keys.Items(), false)
  {
    var steps := Steps(p);
    var init := steps[..|steps| - 1];
    assert StageItems(p.sorter) == [Descending(keys)];
    assert steps == init + [Descending(keys)];
    var t := FromRecords(records);
    RunStepsLast(t, init, Descending(keys), repr);
    var before := RunSteps(t, init, repr).table;
    var sorted := Sorters.Descending(before, keys);
    DescendingStep(before, keys, repr);
    assert sorted.Ok?;
  }

  lemma DescendingStep(t: Table, keys: OneOrMany<string>, repr: Value -> string)
    ensures StepEffect(t, Descending(keys), repr) == SortEffect(t, Sorters.Descending(t, keys))
  {
  }

  /** Every registry category lists its rows in the order of its `descending` sort. */
  lemma ListedInSortedOrder(listtype: string, records: seq<Row>, now: CalendarDay, repr: Value -> string)
    requires listtype in CvLists
    requires Listed(CvLists[listtype], records, now, repr).Ok?
    ensures Sorters.Sorted(Listed(CvLists[listtype], records, now, repr).value, SortKeys(CvLists[listtype]), false)
  {
    var p := CvLists[listtype];
    EveryListSortsLast(listtype);
    SortedThenSelected(p, records, now, repr, p.sorter.value.item.keys);
  }

  /**
   * Every row the executor renders is a row of the frame that every filter
   * of the category selects, and no more rows are rendered than the frame has.
   */
  lemma SelectedPassEveryFilter(t: Table, fs: seq<Filter>, now: CalendarDay)
    requires CombinedMask(t, fs, now).Ok?
    ensures |Selected(t.rows, CombinedMask(t, fs, now).value)| <= |t.rows|
    ensures forall r :: r in Selected(t.rows, CombinedMask(t, fs, now).value) ==>
      exists i :: (0 <= i < |t.rows| && t.rows[i] == r
        && forall j :: 0 <= j < |fs| ==> Masks(t, fs, now)[j].Ok? && Masks(t, fs, now)[j].value[i] == Yes)
  {
    var mask := CombinedMask(t, fs, now).value;
    forall r | r in Selected(t.rows, mask)
      ensures exists i :: (0 <= i < |t.rows| && t.rows[i] == r
        && forall j :: 0 <= j < |fs| ==> Masks(t, fs, now)[j].Ok? && Masks(t, fs, now)[j].value[i] == Yes)
    {
      var i :| 0 <= i < |t.rows| && t.rows[i] == r && mask[i] == Yes;
      YesInEveryMask(t, fs, now, i);
    }
  }

  /** A row the combined mask marks true is marked true by every filter. */
  lemma YesInEveryMask(t: Table, fs: seq<Filter>, now: CalendarDay, i: int)
    requires CombinedMask(t, fs, now).Ok? && 0 <= i < |t.rows| && CombinedMask(t, fs, now).value[i] == Yes
    ensures forall j :: 0 <= j < |fs| ==> Masks(t, fs, now)[j].Ok? && Masks(t, fs, now)[j].value[i] == Yes
  {
    CombinedMaskIsConjunction(t, fs, now);
  }

  /** A category never lists more rows than there are records. */
  lemma ListedAtMostRecords(p: Pipeline, records: seq<Row>, now: CalendarDay, repr: Value -> string)
    requires Listed(p, records, now, repr).Ok?
    ensures |Listed(p, records, now, repr).value| <= |records|
  {
    var e := Prepared(p, records, repr);
    RunStepsKeepsRowCount(FromRecords(records), Steps(p), repr);
    var mask := CombinedMask(e.table, StageItems(p.filter), now).value;
    assert Listed(p, records, now, repr).value == Selected(e.table.rows, mask);
  }
}
