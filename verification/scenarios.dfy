/**
 * Whole runs of the list builder on small record sets: what `main` lists
 * for a category, or the exception that stops it.
 */
module Scenarios {
  import opened Values
  import opened Tables
  import opened Registry
  import opened Executor
  import Preprocessors
  import Sorters
  import Filters

  /** A grant recorded with bare years, as the grants file writes them. */
  const FinishedGrant: Row := map["start" := Int(2021), "end" := Int(2023)]

  const FirstDay: CalendarDay := Day(2021, 1, 1)
  const LastDay: CalendarDay := Day(2023, 12, 31)

  /** The same grant once its years have become the first and the last day of the grant. */
  const FinishedGrantDated: Row := map["start" := Stamp(FirstDay), "end" := Stamp(LastDay)]

  const NewYear2024: CalendarDay := Day(2024, 1, 1)

  const GrantColumns: set<string> := {"start", "end"}

  lemma GrantLoaded()
    ensures FromRecords([FinishedGrant]) == Table(GrantColumns, [FinishedGrant])
  {
    var t := FromRecords([FinishedGrant]);
    assert t.columns == GrantColumns;
    assert t.rows[0] == FinishedGrant;
  }

  lemma GrantStartYear()
    ensures Preprocessors.YearIsoEffect(Table(GrantColumns, [FinishedGrant]), "start", 1, 1)
      == Effect(Table(GrantColumns, [HalfDated]), Pass)
  {
    var t := Table(GrantColumns, [FinishedGrant]);
    var col := Column(t, "start").value;
    assert |col| == 1 && col[0] == Int(2021);
    assert col == [Int(2021)];
    assert Preprocessors.YearIsoCell(1, 1)(Int(2021)) == Ok(Stamp(FirstDay));
    var m := MapCells([Int(2021)], Preprocessors.YearIsoCell(1, 1));
    assert m.Ok? && |m.value| == 1 && m.value[0] == Stamp(FirstDay);
    assert m.value == [Stamp(FirstDay)];
    assert WithColumn(t, "start", [Stamp(FirstDay)]).rows[0] == HalfDated;
  }

  lemma GrantEndYear()
    ensures Preprocessors.YearIsoEffect(Table(GrantColumns, [HalfDated]), "end", 12, 31)
      == Effect(Table(GrantColumns, [FinishedGrantDated]), Pass)
  {
    var t := Table(GrantColumns, [HalfDated]);
    var col := Column(t, "end").value;
    assert |col| == 1 && col[0] == Int(2023);
    assert col == [Int(2023)];
    assert Preprocessors.YearIsoCell(12, 31)(Int(2023)) == Ok(Stamp(LastDay));
    var m := MapCells([Int(2023)], Preprocessors.YearIsoCell(12, 31));
    assert m.Ok? && |m.value| == 1 && m.value[0] == Stamp(LastDay);
    assert m.value == [Stamp(LastDay)];
    assert WithColumn(t, "end", [Stamp(LastDay)]).rows[0] == FinishedGrantDated;
  }

  /** Converting a column of missing cells and in-range timestamps to datetimes changes nothing. */
  lemma DatetimeColumnUnchanged(t: Table, c: string)
    requires c in t.columns
    requires forall i :: 0 <= i < |t.rows| ==> (c in t.rows[i]
      && (t.rows[i][c].Missing? || (t.rows[i][c].Stamp? && Cells.InTimestampRange(t.rows[i][c].date))))
    ensures Preprocessors.ConvertColumn(t, c, Cells.ToDatetime) == Ok(t)
  {
    var cells := Column(t, c).value;
    var converted := MapCells(cells, Cells.ToDatetime).value;
    assert converted == cells;
    var u := WithColumn(t, c, converted);
    forall i | 0 <= i < |t.rows| ensures u.rows[i] == t.rows[i] {
      assert u.rows[i] == t.rows[i][c := t.rows[i][c]];
    }
    assert u.rows == t.rows;
  }

  lemma GrantDatetimes()
    ensures Preprocessors.ConvertEach(Table(GrantColumns, [FinishedGrantDated]), ["start", "end"], Cells.ToDatetime)
      == Effect(Table(GrantColumns, [FinishedGrantDated]), Pass)
  {
    var t := Table(GrantColumns, [FinishedGrantDated]);
    DatetimeColumnUnchanged(t, "start");
    DatetimeColumnUnchanged(t, "end");
    assert ["start", "end"][1..] == ["end"];
    assert Preprocessors.ConvertEach(t, ["end"], Cells.ToDatetime) == Effect(t, Pass);
  }

  lemma GrantSorted()
    ensures Sorters.Descending(Table(GrantColumns, [FinishedGrantDated]), Many(["start", "end"]))
      == Ok(Table(GrantColumns, [FinishedGrantDated]))
  {
  }

  /** The steps `grants` and `exgrants` share. */
  const GrantSteps: seq<Step> := [
    ConvertYearIso("start", 1, 1),
    ConvertYearIso("end", 12, 31),
    ConvertDatetime(Many(["start", "end"])),
    ConvertInt(One("amount")),
    Descending(Many(["start", "end"]))]

  lemma GrantStepsListed()
    ensures Steps(Grants) == GrantSteps && Steps(ExGrants) == GrantSteps
  {
  }

  const HalfDated: Row := map["start" := Stamp(FirstDay), "end" := Int(2023)]

  lemma GrantStartStep(repr: Value -> string)
    ensures StepEffect(Table(GrantColumns, [FinishedGrant]), ConvertYearIso("start", 1, 1), repr)
      == Effect(Table(GrantColumns, [HalfDated]), Pass)
  {
    GrantStartYear();
  }

  lemma GrantEndStep(repr: Value -> string)
    ensures StepEffect(Table(GrantColumns, [HalfDated]), ConvertYearIso("end", 12, 31), repr)
      == Effect(Table(GrantColumns, [FinishedGrantDated]), Pass)
  {
    GrantEndYear();
  }

  lemma GrantDatetimeStep(repr: Value -> string)
    ensures StepEffect(Table(GrantColumns, [FinishedGrantDated]), ConvertDatetime(Many(["start", "end"])), repr)
      == Effect(Table(GrantColumns, [FinishedGrantDated]), Pass)
  {
    GrantDatetimes();
  }

  lemma GrantAmountStep(repr: Value -> string)
    ensures StepEffect(Table(GrantColumns, [FinishedGrantDated]), ConvertInt(One("amount")), repr)
      == Effect(Table(GrantColumns, [FinishedGrantDated]), Pass)
  {
    Preprocessors.ConvertEachSkipsAbsent(Table(GrantColumns, [FinishedGrantDated]), ["amount"], Cells.ToInt);
  }

  lemma GrantSortStep(repr: Value -> string)
    ensures StepEffect(Table(GrantColumns, [FinishedGrantDated]), Descending(Many(["start", "end"])), repr)
      == Effect(Table(GrantColumns, [FinishedGrantDated]), Pass)
  {
    GrantSorted();
  }

  /** The last three grant steps leave the dated grant as it is. */
  lemma GrantLaterSteps(repr: Value -> string)
    ensures RunSteps(Table(GrantColumns, [FinishedGrantDated]), GrantSteps[2..], repr)
      == Effect(Table(GrantColumns, [FinishedGrantDated]), Pass)
  {
    var t2 := Table(GrantColumns, [FinishedGrantDated]);
    var steps := GrantSteps;
    GrantDatetimeStep(repr);
    GrantAmountStep(repr);
    GrantSortStep(repr);
    assert steps[4..][1..] == [];
    assert RunSteps(t2, steps[4..], repr) == Effect(t2, Pass);
    assert steps[3..][1..] == steps[4..];
    assert RunSteps(t2, steps[3..], repr) == Effect(t2, Pass);
    assert steps[2..][1..] == steps[3..];
  }

  lemma GrantStepsRun(repr: Value -> string)
    ensures RunSteps(Table(GrantColumns, [FinishedGrant]), GrantSteps, repr)
      == Effect(Table(GrantColumns, [FinishedGrantDated]), Pass)
  {
    var steps := GrantSteps;
    GrantStartStep(repr);
    GrantEndStep(repr);
    GrantLaterSteps(repr);
    assert steps[1..][1..] == steps[2..];
    assert RunSteps(Table(GrantColumns, [HalfDated]), steps[1..], repr)
      == Effect(Table(GrantColumns, [FinishedGrantDated]), Pass);
  }

  /** The grants frame after its steps: the years are now the grant's first and last days. */
  lemma GrantPrepared(p: Pipeline, repr: Value -> string)
    requires p == Grants || p == ExGrants
    ensures Prepared(p, [FinishedGrant], repr) == Effect(Table(GrantColumns, [FinishedGrantDated]), Pass)
  {
    GrantLoaded();
    GrantStepsListed();
    GrantStepsRun(repr);
  }

  /** The mask of a single filter is that filter's own mask. */
  lemma SingleFilterMask(t: Table, f: Filter, now: CalendarDay)
    requires FilterMask(t, f, now).Ok?
    ensures CombinedMask(t, [f], now) == FilterMask(t, f, now)
  {
    var fs := [f];
    assert fs[..|fs| - 1] == [];
    var base := CombinedMask(t, [], now).value;
    var m := FilterMask(t, f, now).value;
    var both := AndMasks(base, m);
    assert both == m;
  }

  lemma GrantMasks()
    ensures CombinedMask(Table(GrantColumns, [FinishedGrantDated]), [Registry.Current("start", "end", None)], NewYear2024) == Ok([No])
    ensures CombinedMask(Table(GrantColumns, [FinishedGrantDated]), [Registry.Former("end")], NewYear2024) == Ok([Yes])
  {
    var t := Table(GrantColumns, [FinishedGrantDated]);
    var current := Filters.Current(t, "start", "end", None, NewYear2024);
    assert current.Ok? && |current.value| == 1 && current.value[0] == No;
    assert current.value == [No];
    SingleFilterMask(t, Registry.Current("start", "end", None), NewYear2024);
    var former := Filters.Former(t, "end", NewYear2024);
    assert former.Ok? && |former.value| == 1 && former.value[0] == Yes;
    assert former.value == [Yes];
    SingleFilterMask(t, Registry.Former("end"), NewYear2024);
  }

  lemma GrantFilters()
    ensures StageItems(Grants.filter) == [Registry.Current("start", "end", None)]
    ensures StageItems(ExGrants.filter) == [Registry.Former("end")]
  {
  }

  /** A one-row frame lists its row when the mask is true and nothing when it is false. */
  lemma SelectedOne(r: Row)
    ensures Selected([r], [Yes]) == [r]
    ensures Selected([r], [No]) == []
  {
    var rows: seq<Row> := [r];
    var none: seq<Row> := [];
    assert rows[..0] == none;
    assert [Yes][..0] == [] && [No][..0] == [];
    assert Selected(rows[..0], [Yes][..0]) == Selected(none, []) == none;
    assert Selected(rows[..0], [No][..0]) == none;
  }

  lemma GrantsListsNothing(repr: Value -> string)
    ensures Listed(Grants, [FinishedGrant], NewYear2024, repr) == Ok([])
  {
    GrantPrepared(Grants, repr);
    GrantMasks();
    GrantFilters();
    SelectedOne(FinishedGrantDated);
  }

  lemma ExGrantsListsGrant(repr: Value -> string)
    ensures Listed(ExGrants, [FinishedGrant], NewYear2024, repr) == Ok([FinishedGrantDated])
  {
    GrantPrepared(ExGrants, repr);
    GrantMasks();
    GrantFilters();
    SelectedOne(FinishedGrantDated);
  }

  /**
   * A grant that ended on the last day of 2023 is no longer listed by
   * `grants` on 1 January 2024, and `exgrants` lists it.
   */
  lemma FinishedGrantMovesToExGrants(repr: Value -> string)
    ensures Listed(Grants, [FinishedGrant], NewYear2024, repr) == Ok([])
    ensures Listed(ExGrants, [FinishedGrant], NewYear2024, repr) == Ok([FinishedGrantDated])
  {
    GrantsListsNothing(repr);
    ExGrantsListsGrant(repr);
  }

  /** A meeting recorded without dates or year. */
  const UndatedMeeting: Row := map["start" := Missing, "end" := Missing, "semester" := Str("Spring")]

  const MeetingColumns: set<string> := {"start", "end", "semester"}

  const MeetingSteps: seq<Step> := [ConvertDatetime(Many(["start", "end"])), Descending(Many(["start", "end", "semester"]))]

  lemma MeetingLoaded()
    ensures FromRecords([UndatedMeeting]) == Table(MeetingColumns, [UndatedMeeting])
  {
    var t := FromRecords([UndatedMeeting]);
    assert t.columns == MeetingColumns;
    assert t.rows[0] == UndatedMeeting;
  }

  lemma MeetingStepsListed()
    ensures Steps(Meetings) == MeetingSteps
  {
  }

  lemma MeetingDatetimeStep(repr: Value -> string)
    ensures StepEffect(Table(MeetingColumns, [UndatedMeeting]), ConvertDatetime(Many(["start", "end"])), repr)
      == Effect(Table(MeetingColumns, [UndatedMeeting]), Pass)
  {
    var t := Table(MeetingColumns, [UndatedMeeting]);
    DatetimeColumnUnchanged(t, "start");
    DatetimeColumnUnchanged(t, "end");
    assert ["start", "end"][1..] == ["end"];
  }

  lemma MeetingSortStep(repr: Value -> string)
    ensures StepEffect(Table(MeetingColumns, [UndatedMeeting]), Descending(Many(["start", "end", "semester"])), repr)
      == Effect(Table(MeetingColumns, [UndatedMeeting]), Pass)
  {
  }

  lemma MeetingStepsRun(repr: Value -> string)
    ensures RunSteps(Table(MeetingColumns, [UndatedMeeting]), MeetingSteps, repr) == Effect(Table(MeetingColumns, [UndatedMeeting]), Pass)
  {
    var t := Table(MeetingColumns, [UndatedMeeting]);
    MeetingDatetimeStep(repr);
    MeetingSortStep(repr);
    assert MeetingSteps[1..][1..] == [];
    assert RunSteps(t, MeetingSteps[1..], repr) == Effect(t, Pass);
  }

  lemma MeetingPrepared(repr: Value -> string)
    ensures Prepared(Meetings, [UndatedMeeting], repr) == Effect(Table(MeetingColumns, [UndatedMeeting]), Pass)
  {
    MeetingLoaded();
    MeetingStepsListed();
    MeetingStepsRun(repr);
  }

  lemma MeetingMask()
    ensures CombinedMask(Table(MeetingColumns, [UndatedMeeting]), [Registry.Recent("year")], NewYear2024)
      == Err(KeyError("year"))
  {
    var t := Table(MeetingColumns, [UndatedMeeting]);
    assert FilterMask(t, Registry.Recent("year"), NewYear2024) == Err(KeyError("year"));
    assert [Registry.Recent("year")][..0] == [];
  }

  lemma MeetingsListedNeedYear(repr: Value -> string)
    ensures Listed(Meetings, [UndatedMeeting], NewYear2024, repr) == Err(KeyError("year"))
  {
    MeetingPrepared(repr);
    MeetingMask();
    assert StageItems(Meetings.filter) == [Registry.Recent("year")];
  }

  /**
   * `meetings` filters with `recent` on a `year` column that none of its
   * steps creates: records without a year make it raise KeyError.
   */
  lemma MeetingsNeedYear(render: (string, map<string, Value>) -> string, repr: Value -> string)
    ensures Execute("meetings", [UndatedMeeting], NewYear2024, render, repr) == Err(KeyError("year"))
  {
    MeetingsListedNeedYear(repr);
  }

  /** A category the command line accepts but the registry lacks prints nothing, whatever the records. */
  lemma UnlistedCategoryPrintsNothing(listtype: string, records: seq<Row>, now: CalendarDay,
                                      render: (string, map<string, Value>) -> string, repr: Value -> string)
    requires listtype in Choices && listtype !in CvLists
    ensures Execute(listtype, records, now, render, repr) == Ok("")
  {
  }
}
