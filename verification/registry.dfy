/**
 * The `cvlists` registry (lamd/mdlist.py lines 161-428): for each list
 * category, the steps that prepare the frame, the filters that pick its
 * rows and the template that renders each picked row.
 */
module Registry {
  import opened Values

  /** A preprocessor, augmentor or sorter entry: the function and its arguments. */
  datatype Step =
    | ConvertDatetime(columns: OneOrMany<string>)
    | ConvertInt(columns: OneOrMany<string>)
    | ConvertString(columns: OneOrMany<string>)
    | ConvertNewYearDay(columns: OneOrMany<string>)
    | ConvertYearIso(column: string, month: int, day: int)
    | AddMonth(source: string, monthColumn: string)
    | AddYear(source: string, yearColumn: string)
    | AugmentMonth(source: string, monthColumn: string)
    | AugmentYear(source: string, yearColumn: string)
    | AddSupervisor(column: string, supervisor: string)
    | Ascending(keys: OneOrMany<string>)
    | Descending(keys: OneOrMany<string>)

  /** A filter entry: the predicate and its arguments; a `current` filter called without its optional flag column has `flag == None`. */
  datatype Filter =
    | Recent(column: string)
    | Current(start: string, end: string, flag: Option<string>)
    | Former(end: string)
    | ColumnIs(column: string, value: Value)
    | ColumnContains(column: string, value: Value)

  /**
   * One registry entry. Each stage is absent, a single entry or a list of
   * entries, as the dictionary literal writes it.
   */
  datatype Pipeline = Pipeline(
    preprocessor: Option<OneOrMany<Step>>,
    augmentor: Option<OneOrMany<Step>>,
    sorter: Option<OneOrMany<Step>>,
    filter: Option<OneOrMany<Filter>>,
    listtemplate: string)

  const Talks := Pipeline(
    Some(Many([ConvertDatetime(One("date"))])),
    Some(Many([AddMonth("date", "month"), AddYear("date", "year")])),
    Some(One(Descending(One("date")))),
    Some(One(Recent("year"))),
    "listtalk")

  const Publications := Pipeline(
    Some(Many([ConvertDatetime(Many(["date", "published"])), ConvertInt(One("year"))])),
    Some(Many([AugmentMonth("published", "month"), AugmentYear("published", "year")])),
    Some(One(Descending(Many(["year", "published"])))),
    Some(One(Recent("year"))),
    "listpaper")

  const Grants := Pipeline(
    Some(Many([
      ConvertYearIso("start", 1, 1),
      ConvertYearIso("end", 12, 31),
      ConvertDatetime(Many(["start", "end"])),
      ConvertInt(One("amount"))])),
    None,
    Some(One(Descending(Many(["start", "end"])))),
    Some(One(Current("start", "end", None))),
    "listgrant")

  const Teaching := Pipeline(
    Some(Many([ConvertDatetime(Many(["start", "end"]))])),
    None,
    Some(One(Descending(Many(["start", "end", "semester"])))),
    Some(One(Current("start", "end", None))),
    "listteaching")

  const Meetings := Pipeline(
    Some(Many([ConvertDatetime(Many(["start", "end"]))])),
    None,
    Some(One(Descending(Many(["start", "end", "semester"])))),
    Some(One(Recent("year"))),
    "listmeeting")

  const Students := Pipeline(
    Some(Many([ConvertDatetime(Many(["start", "end"]))])),
    Some(One(AddSupervisor("supervisor", "ndl21"))),
    Some(One(Descending(Many(["start"])))),
    Some(Many([
      Current("start", "end", Some("current")),
      ColumnIs("position", Str("PhD Student")),
      ColumnContains("supervisor", Str("ndl21"))])),
    "liststudent")

  /** `cvlists["exgrants"]`: a copy of the grants entry whose filter is `former`. */
  const ExGrants := Grants.(filter := Some(One(Former("end"))))

  /** `cvlists["exteaching"]`: a copy of the teaching entry whose filter is `former`. */
  const ExTeaching := Teaching.(filter := Some(One(Former("end"))))

  /** `cvlists["pdras"]`: a copy of the students entry with its own template and filters. */
  const Pdras := Students.(
    listtemplate := "listpdra",
    filter := Some(Many([
      Current("start", "end", Some("current")),
      ColumnIs("position", Str("Research Associate")),
      ColumnContains("supervisor", Str("ndl21"))])))

  const CvLists: map<string, Pipeline> := map[
    "talks" := Talks,
    "publications" := Publications,
    "grants" := Grants,
    "teaching" := Teaching,
    "meetings" := Meetings,
    "students" := Students,
    "exgrants" := ExGrants,
    "exteaching" := ExTeaching,
    "pdras" := Pdras]

  /** The categories the command line accepts. */
  const Choices: set<string> := {
    "talks", "grants", "meetings", "extalks", "teaching", "exteaching", "students",
    "exstudents", "pdras", "expdras", "exgrants", "publications", "journal", "book", "conference"}

  /** The steps of a stage that may be absent, may be a single step or may be a list of steps, as a list. */
  function StageItems<T>(stage: Option<OneOrMany<T>>): (s: seq<T>)
    ensures stage.None? ==> s == []
    ensures stage.Some? ==> s == stage.value.Items()
  {
    match stage
    case None => []
    case Some(calls) => calls.Items()
  }

  /** The steps `main` runs, in its fixed stage order: preprocessor, augmentor, sorter. */
  function Steps(p: Pipeline): (s: seq<Step>)
    ensures |s| == |StageItems(p.preprocessor)| + |StageItems(p.augmentor)| + |StageItems(p.sorter)|
    ensures StageItems(p.sorter) == s[|s| - |StageItems(p.sorter)|..]
  {
    StageItems(p.preprocessor) + StageItems(p.augmentor) + StageItems(p.sorter)
  }

  /** The keys of a pipeline's single sorter, or none when it has another shape. */
  function SortKeys(p: Pipeline): (keys: seq<string>)
    ensures p.sorter.Some? && p.sorter.value.One? && p.sorter.value.item.Descending? ==>
      keys == p.sorter.value.item.keys.Items()
  {
    if p.sorter.Some? && p.sorter.value.One? && (p.sorter.value.item.Ascending? || p.sorter.value.item.Descending?)
    then p.sorter.value.item.keys.Items()
    else []
  }

  /**
   * Six accepted categories have no registry entry (their old branches
   * are commented out): `extalks`, `exstudents`, `expdras`, `journal`,
   * `book` and `conference`.
   */
  lemma UnlistedChoices()
    ensures CvLists.Keys <= Choices
    ensures Choices - CvLists.Keys == {"extalks", "exstudents", "expdras", "journal", "book", "conference"}
  {
  }

  /**
   * The three derived entries are copies of another entry: `exgrants` and
   * `exteaching` differ from `grants` and `teaching` only in their filter,
   * and `pdras` shares every step of `students` but has its own template
   * and filters.
   */
  lemma DerivedEntries()
    ensures CvLists["exgrants"] == CvLists["grants"].(filter := Some(One(Former("end"))))
    ensures CvLists["exteaching"] == CvLists["teaching"].(filter := Some(One(Former("end"))))
    ensures CvLists["pdras"].(listtemplate := CvLists["students"].listtemplate, filter := CvLists["students"].filter)
      == CvLists["students"]
    ensures CvLists["pdras"].listtemplate == "listpdra"
  {
  }

  /**
   * Every entry ends its steps with one `descending` sort, so the sort is
   * the last thing done to the frame before the filters read it.
   */
  lemma EveryListSortsLast(listtype: string)
    requires listtype in CvLists
    ensures CvLists[listtype].sorter.Some? && CvLists[listtype].sorter.value.One?
    ensures CvLists[listtype].sorter.value.item.Descending?
    ensures Steps(CvLists[listtype])[|Steps(CvLists[listtype])| - 1] == CvLists[listtype].sorter.value.item
  {
    var p := CvLists[listtype];
    assert StageItems(p.sorter) == [p.sorter.value.item];
  }
}
