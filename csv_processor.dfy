/**
 * The record pipeline of `CSVProcessor`: header validation, the
 * "upcoming" filter, cleaning, the derived columns and the category
 * filters. The CSV has already been split into a header list and rows of
 * text cells; pandas' column-at-a-time operations are done row by row.
 */
module CsvProcessor {
  import opened Wrappers
  import opened Text
  import opened Seqs
  import Calendar

  /** The columns `process_csv` insists on, in the order it reports them. */
  const RequiredColumns: seq<string> :=
    ["Name", "Status", "Start Date", "Time", "Type", "Day", "Classes", "Active Participants"]

  /** The columns `_add_derived_columns` assigns, in assignment order. */
  const DerivedColumns: seq<string> :=
    ["Venue", "Skill Level", "Limited Spots", "Formatted Start Date", "Duration Text"]

  /** One row as read from the file: the cells of the required columns. */
  datatype RawRow = RawRow(
    name: string, status: string, startDate: string, time: string,
    rowType: string, day: string, classes: string, activeParticipants: string)

  /** A row after `_clean_data`: four text cells trimmed, two counts coerced. */
  datatype Row = Row(
    name: string, status: string, startDate: string, time: string,
    rowType: string, day: string, classes: int, activeParticipants: int)

  /** A course record: a cleaned row with its five derived columns. */
  datatype Course = Course(
    name: string, status: string, startDate: string, time: string,
    courseType: string, day: string, classes: int, activeParticipants: int,
    venue: string, skillLevel: string, limitedSpots: bool,
    formattedStartDate: string, durationText: string)

  datatype CleanTable = CleanTable(columns: seq<string>, rows: seq<Row>)

  datatype Table = Table(columns: seq<string>, rows: seq<Course>)

  datatype LoadError = MissingColumns(missing: seq<string>) | NoUpcomingPrograms

  // ---------------------------------------------------------------------
  // process_csv

  function AbsentFrom(headers: seq<string>): string -> bool {
    c => c !in headers
  }

  /** The required columns the header list lacks, in required-column order. */
  function Missing(headers: seq<string>): seq<string> {
    Filter(RequiredColumns, AbsentFrom(headers))
  }

  /** `df['Status'].str.lower() == 'upcoming'`, on the cell as read. */
  predicate IsUpcoming(r: RawRow) {
    Lower(r.status) == "upcoming"
  }

  /** What `process_csv` returns for a header list and rows, or the error it raises. */
  function Load(headers: seq<string>, rows: seq<RawRow>): Result<Table, LoadError> {
    var missing := Missing(headers);
    if missing != [] then Failure(MissingColumns(missing))
    else
      var kept := Filter(rows, IsUpcoming);
      if kept == [] then Failure(NoUpcomingPrograms)
      else Success(WithDerivedColumns(CleanedTable(headers, kept)))
  }

  method ProcessCsv(headers: seq<string>, rows: seq<RawRow>) returns (r: Result<Table, LoadError>)
    ensures r == Load(headers, rows)
  {
    var missing := MissingColumnsOf(headers);
    if missing != [] {
      return Failure(MissingColumns(missing));
    }
    var kept := UpcomingRows(rows);
    if kept == [] {
      return Failure(NoUpcomingPrograms);
    }
    var cleaned := CleanData(headers, kept);
    var table := AddDerivedColumns(cleaned);
    return Success(table);
  }

  /** `[col for col in self.required_columns if col not in df.columns]` */
  method MissingColumnsOf(headers: seq<string>) returns (missing: seq<string>)
    ensures missing == Missing(headers)
  {
    missing := [];
    for i := 0 to |RequiredColumns|
      invariant missing == Filter(RequiredColumns[..i], AbsentFrom(headers))
    {
      FilterStep(RequiredColumns, AbsentFrom(headers), i);
      if RequiredColumns[i] !in headers {
        missing := missing + [RequiredColumns[i]];
      }
    }
    assert RequiredColumns[..|RequiredColumns|] == RequiredColumns;
  }

  /** `df[df['Status'].str.lower() == 'upcoming']` */
  method UpcomingRows(rows: seq<RawRow>) returns (kept: seq<RawRow>)
    ensures kept == Filter(rows, IsUpcoming)
  {
    kept := [];
    for i := 0 to |rows|
      invariant kept == Filter(rows[..i], IsUpcoming)
    {
      FilterStep(rows, IsUpcoming, i);
      if Lower(rows[i].status) == "upcoming" {
        kept := kept + [rows[i]];
      }
    }
    assert rows[..|rows|] == rows;
  }

  // ---------------------------------------------------------------------
  // _clean_data

  /** `pd.to_numeric(..., errors='coerce').fillna(0)` on one cell. */
  function CoerceCount(cell: string): (n: int)
    ensures ParseInt(cell) == None ==> n == 0
    ensures ParseInt(cell).Some? ==> n == ParseInt(cell).value
  {
    match ParseInt(cell)
    case Some(n) => n
    case None => 0
  }

  function CleanRow(r: RawRow): Row {
    Row(Strip(r.name), Strip(r.status), r.startDate, r.time,
        Strip(r.rowType), Strip(r.day), CoerceCount(r.classes), CoerceCount(r.activeParticipants))
  }

  function CleanedTable(headers: seq<string>, rows: seq<RawRow>): CleanTable {
    CleanTable(Map(headers, Strip), Map(rows, CleanRow))
  }

  method CleanData(headers: seq<string>, rows: seq<RawRow>) returns (t: CleanTable)
    ensures t == CleanedTable(headers, rows)
  {
    var columns: seq<string> := [];
    for i := 0 to |headers|
      invariant columns == Map(headers[..i], Strip)
    {
      assert headers[..i + 1][..i] == headers[..i];
      columns := columns + [Strip(headers[i])];
    }
    assert headers[..|headers|] == headers;
    var cleaned: seq<Row> := [];
    for i := 0 to |rows|
      invariant cleaned == Map(rows[..i], CleanRow)
    {
      assert rows[..i + 1][..i] == rows[..i];
      var r := rows[i];
      cleaned := cleaned + [Row(Strip(r.name), Strip(r.status), r.startDate, r.time,
                                Strip(r.rowType), Strip(r.day),
                                CoerceCount(r.classes), CoerceCount(r.activeParticipants))];
    }
    assert rows[..|rows|] == rows;
    t := CleanTable(columns, cleaned);
  }

  // ---------------------------------------------------------------------
  // _add_derived_columns

  /** `_extract_venue` */
  function VenueOf(name: string): (v: string)
    ensures v == "Belair Park" <==> Contains(Lower(name), "belair")
    ensures v == "Dulwich Park" <==> !Contains(Lower(name), "belair") && Contains(Lower(name), "dulwich")
    ensures v == "Unknown Venue" <==> !Contains(Lower(name), "belair") && !Contains(Lower(name), "dulwich")
  {
    var n := Lower(name);
    if Contains(n, "belair") then "Belair Park"
    else if Contains(n, "dulwich") then "Dulwich Park"
    else "Unknown Venue"
  }

  /** `_extract_skill_level`: the first level word the lower-cased name
      contains, in the order beginner, improver, intermediate, advanced. */
  function SkillLevelOf(name: string): (s: string)
    ensures s in ["Beginner", "Improver", "Intermediate", "Advanced", "Unknown"]
    ensures s == "Beginner" <==> Contains(Lower(name), "beginner")
    ensures s == "Improver" <==> !Contains(Lower(name), "beginner") && Contains(Lower(name), "improver")
    ensures s == "Intermediate" <==>
              !Contains(Lower(name), "beginner") && !Contains(Lower(name), "improver")
              && Contains(Lower(name), "intermediate")
    ensures s == "Advanced" <==>
              !Contains(Lower(name), "beginner") && !Contains(Lower(name), "improver")
              && !Contains(Lower(name), "intermediate") && Contains(Lower(name), "advanced")
    ensures s == "Unknown" <==>
              !Contains(Lower(name), "beginner") && !Contains(Lower(name), "improver")
              && !Contains(Lower(name), "intermediate") && !Contains(Lower(name), "advanced")
  {
    var n := Lower(name);
    if Contains(n, "beginner") then "Beginner"
    else if Contains(n, "improver") then "Improver"
    else if Contains(n, "intermediate") then "Intermediate"
    else if Contains(n, "advanced") then "Advanced"
    else "Unknown"
  }

  /** `_format_date`: the long form of a date that parses, else the text unchanged. */
  function FormatDate(s: string): (r: string)
    ensures Calendar.ParseDate(s) == None ==> r == s
    ensures Calendar.ParseDate(s).Some? ==> r == Calendar.LongDate(Calendar.ParseDate(s).value)
  {
    match Calendar.ParseDate(s)
    case Some(d) => Calendar.LongDate(d)
    case None => s
  }

  /** The 'Duration Text' lambda. */
  function DurationText(classes: int): string {
    if classes > 1 then IntToString(classes) + " weeks" else IntToString(classes) + " week"
  }

  function DeriveCourse(r: Row): Course {
    Course(r.name, r.status, r.startDate, r.time, r.rowType, r.day, r.classes, r.activeParticipants,
           VenueOf(r.name), SkillLevelOf(r.name), r.activeParticipants > 8,
           FormatDate(r.startDate), DurationText(r.classes))
  }

  /** Assigning a column adds it at the end unless a column of that name exists. */
  function AssignColumn(columns: seq<string>, name: string): seq<string> {
    if name in columns then columns else columns + [name]
  }

  function AssignColumns(columns: seq<string>, names: seq<string>): seq<string> {
    if names == [] then columns
    else AssignColumn(AssignColumns(columns, names[..|names| - 1]), names[|names| - 1])
  }

  function WithDerivedColumns(t: CleanTable): Table {
    Table(AssignColumns(t.columns, DerivedColumns), Map(t.rows, DeriveCourse))
  }

  method AddDerivedColumns(t: CleanTable) returns (r: Table)
    ensures r == WithDerivedColumns(t)
  {
    var columns := t.columns;
    for k := 0 to |DerivedColumns|
      invariant columns == AssignColumns(t.columns, DerivedColumns[..k])
    {
      assert DerivedColumns[..k + 1][..k] == DerivedColumns[..k];
      if DerivedColumns[k] !in columns {
        columns := columns + [DerivedColumns[k]];
      }
    }
    assert DerivedColumns[..|DerivedColumns|] == DerivedColumns;
    var courses: seq<Course> := [];
    for i := 0 to |t.rows|
      invariant courses == Map(t.rows[..i], DeriveCourse)
    {
      assert t.rows[..i + 1][..i] == t.rows[..i];
      courses := courses + [DeriveCourse(t.rows[i])];
    }
    assert t.rows[..|t.rows|] == t.rows;
    r := Table(columns, courses);
  }

  // ---------------------------------------------------------------------
  // Category predicates: get_content_types and get_courses_by_type

  predicate IsAdult(c: Course) {
    Lower(c.courseType) == "adult"
  }

  predicate IsJunior(c: Course) {
    Lower(c.courseType) == "junior"
  }

  /** `Type` matching `event|session|drop`, or a single class. */
  predicate IsEventLike(c: Course) {
    var t := Lower(c.courseType);
    Contains(t, "event") || Contains(t, "session") || Contains(t, "drop") || c.classes == 1
  }

  /** `get_courses_by_type`: exactly the rows the content type selects, in
      their order and as often as they occur. */
  function CoursesByType(rows: seq<Course>, contentType: string): (r: seq<Course>)
    ensures |r| <= |rows|
    ensures forall c :: c in r <==> c in rows && Selects(contentType, c)
    ensures IsSubsequence(r, rows)
    ensures forall c :: multiset(r)[c] == if Selects(contentType, c) then multiset(rows)[c] else 0
  {
    if contentType == "adults" then
      FilterExact(rows, IsAdult); FilterIsSubsequence(rows, IsAdult); FilterCounts(rows, IsAdult);
      Filter(rows, IsAdult)
    else if contentType == "juniors" then
      FilterExact(rows, IsJunior); FilterIsSubsequence(rows, IsJunior); FilterCounts(rows, IsJunior);
      Filter(rows, IsJunior)
    else if contentType == "events" then
      FilterExact(rows, IsEventLike); FilterIsSubsequence(rows, IsEventLike); FilterCounts(rows, IsEventLike);
      Filter(rows, IsEventLike)
    else []
  }

  /** The rows a content type names; 'drop_ins' and any other type name none. */
  predicate Selects(contentType: string, c: Course) {
    (contentType == "adults" && IsAdult(c))
    || (contentType == "juniors" && IsJunior(c))
    || (contentType == "events" && IsEventLike(c))
  }

  function SkillOf(c: Course): string {
    c.skillLevel
  }

  /** One entry of the dictionary `get_content_types` returns. */
  datatype Category = Category(available: bool, count: nat, levels: seq<string>)

  datatype ContentTypes = ContentTypes(adults: Category, juniors: Category, events: Category, dropIns: Category)

  /** `get_content_types`: starts from "nothing available" and fills in
      each category that has rows; 'drop_ins' is never filled in. */
  method GetContentTypes(rows: seq<Course>) returns (ct: ContentTypes)
    ensures ct.adults.available <==> exists c :: c in rows && IsAdult(c)
    ensures ct.adults.count == |Filter(rows, IsAdult)|
    ensures ct.adults.levels == Unique(Map(Filter(rows, IsAdult), SkillOf))
    ensures ct.juniors.available <==> exists c :: c in rows && IsJunior(c)
    ensures ct.juniors.count == |Filter(rows, IsJunior)| && ct.juniors.levels == []
    ensures ct.events.available <==> exists c :: c in rows && IsEventLike(c)
    ensures ct.events.count == |Filter(rows, IsEventLike)| && ct.events.levels == []
    ensures ct.dropIns == Category(false, 0, [])
  {
    var none := Category(false, 0, []);
    ct := ContentTypes(none, none, none, none);
    FilterEmpty(rows, IsAdult);
    FilterEmpty(rows, IsJunior);
    FilterEmpty(rows, IsEventLike);
    var adults := Filter(rows, IsAdult);
    if adults != [] {
      ct := ct.(adults := Category(true, |adults|, Unique(Map(adults, SkillOf))));
    }
    var juniors := Filter(rows, IsJunior);
    if juniors != [] {
      ct := ct.(juniors := Category(true, |juniors|, []));
    }
    var events := Filter(rows, IsEventLike);
    if events != [] {
      ct := ct.(events := Category(true, |events|, []));
    }
  }

  // ---------------------------------------------------------------------
  // Properties of loading

  /** The missing list names exactly the required columns absent from the
      raw header list, in required-column order. */
  lemma MissingExact(headers: seq<string>)
    ensures forall c :: c in Missing(headers) <==> c in RequiredColumns && c !in headers
    ensures IsSubsequence(Missing(headers), RequiredColumns)
  {
    FilterIsSubsequence(RequiredColumns, AbsentFrom(headers));
    forall c | c in RequiredColumns && c !in headers ensures c in Missing(headers) {
      FilterKeeps(RequiredColumns, AbsentFrom(headers), c);
    }
  }

  /** Loading fails with the missing-columns error exactly when a required
      column is absent, whatever the rows hold. */
  lemma LoadMissingColumns(headers: seq<string>, rows: seq<RawRow>)
    ensures (exists c :: c in RequiredColumns && c !in headers)
            <==> Load(headers, rows) == Failure(MissingColumns(Missing(headers)))
  {
    MissingExact(headers);
    if exists c :: c in RequiredColumns && c !in headers {
      var c :| c in RequiredColumns && c !in headers;
      assert c in Missing(headers);
    } else {
      NoneMissing(headers);
    }
  }

  lemma NoneMissing(headers: seq<string>)
    requires forall c :: c in RequiredColumns ==> c in headers
    ensures Missing(headers) == []
  {
    MissingExact(headers);
    var m := Missing(headers);
    assert forall i :: 0 <= i < |m| ==> m[i] in m;
  }

  /** Headers are compared before they are trimmed: a padded " Name" does
      not stand in for "Name". */
  lemma HeadersCheckedBeforeTrimming(rows: seq<RawRow>)
    ensures Load([" Name"] + RequiredColumns[1..], rows) == Failure(MissingColumns(["Name"]))
  {
    PaddedNameMissing([" Name"] + RequiredColumns[1..]);
  }

  lemma PaddedNameMissing(h: seq<string>)
    requires h == [" Name"] + RequiredColumns[1..]
    ensures Missing(h) == ["Name"]
  {
    var p := AbsentFrom(h);
    var rest := RequiredColumns[1..];
    assert RequiredColumns == ["Name"] + rest;
    FilterAppend(["Name"], rest, p);
    FilterNone(rest, h);
    NameNotPresent(h);
    assert Filter(["Name"], p) == ["Name"] by {
      assert ["Name"][..0] == [];
    }
  }

  lemma NameNotPresent(h: seq<string>)
    requires h == [" Name"] + RequiredColumns[1..]
    ensures "Name" !in h
  {
    assert " Name" != "Name";
    forall i | 1 <= i < |RequiredColumns| ensures RequiredColumns[i] != "Name" {
      assert RequiredColumns[i][0] != 'N';
    }
  }

  lemma FilterNone(rest: seq<string>, h: seq<string>)
    requires forall x :: x in rest ==> x in h
    ensures Filter(rest, AbsentFrom(h)) == []
  {
    FilterEmpty(rest, AbsentFrom(h));
  }

  /** With every required column present, loading fails exactly when no row
      is upcoming, and otherwise keeps one course per upcoming row. */
  lemma LoadUpcoming(headers: seq<string>, rows: seq<RawRow>)
    requires forall c :: c in RequiredColumns ==> c in headers
    ensures Load(headers, rows) == Failure(NoUpcomingPrograms)
            <==> forall r :: r in rows ==> !IsUpcoming(r)
    ensures Load(headers, rows).Success? ==>
              |Load(headers, rows).value.rows| == |Filter(rows, IsUpcoming)|
  {
    NoneMissing(headers);
    FilterEmpty(rows, IsUpcoming);
  }

  /** A status that lower-cases to "upcoming" has no whitespace to trim. */
  lemma UpcomingStatusUnpadded(s: string)
    requires Lower(s) == "upcoming"
    ensures Strip(s) == s
  {
    forall i | 0 <= i < |s| ensures !IsSpace(s[i]) {
      assert LowerChar(s[i]) == "upcoming"[i];
    }
    StripNoSpace(s);
  }

  /** Every loaded course comes from an upcoming row: its status still
      lower-cases to "upcoming", and its name, type and day are trimmed. */
  lemma LoadedCoursesClean(headers: seq<string>, rows: seq<RawRow>)
    requires Load(headers, rows).Success?
    ensures forall c :: c in Load(headers, rows).value.rows ==>
              Lower(c.status) == "upcoming" && IsStripped(c.name)
              && IsStripped(c.courseType) && IsStripped(c.day)
  {
    var kept := Filter(rows, IsUpcoming);
    assert Load(headers, rows).value.rows == Map(Map(kept, CleanRow), DeriveCourse);
    CoursesFromUpcoming(kept);
  }

  lemma CoursesFromUpcoming(kept: seq<RawRow>)
    requires forall r :: r in kept ==> IsUpcoming(r)
    ensures forall c :: c in Map(Map(kept, CleanRow), DeriveCourse) ==>
              Lower(c.status) == "upcoming" && IsStripped(c.name)
              && IsStripped(c.courseType) && IsStripped(c.day)
  {
    var cleaned := Map(kept, CleanRow);
    var courses := Map(cleaned, DeriveCourse);
    forall c | c in courses
      ensures Lower(c.status) == "upcoming" && IsStripped(c.name)
              && IsStripped(c.courseType) && IsStripped(c.day)
    {
      var i :| 0 <= i < |courses| && courses[i] == c;
      assert kept[i] in kept;
      assert c == DeriveCourse(cleaned[i]) && cleaned[i] == CleanRow(kept[i]);
      CourseFromUpcoming(kept[i]);
    }
  }

  lemma CourseFromUpcoming(r: RawRow)
    requires IsUpcoming(r)
    ensures var c := DeriveCourse(CleanRow(r));
            Lower(c.status) == "upcoming" && IsStripped(c.name)
            && IsStripped(c.courseType) && IsStripped(c.day)
  {
    UpcomingStatusUnpadded(r.status);
    CleanRowStripped(r);
  }

  lemma CleanRowStripped(r: RawRow)
    ensures IsStripped(CleanRow(r).name) && IsStripped(CleanRow(r).rowType) && IsStripped(CleanRow(r).day)
  {
  }

  /** Cells that are not integers count as 0; printed integers read back. */
  lemma CoerceCountCases(cell: string, n: int)
    ensures ParseInt(cell) == None ==> CoerceCount(cell) == 0
    ensures CoerceCount(IntToString(n)) == n
  {
    ParseIntString(n);
  }

  /** "{n} weeks" exactly when n > 1, so one class and zero classes both say "week". */
  lemma DurationPlural(n: int)
    ensures EndsWith(DurationText(n), "weeks") <==> n > 1
    ensures StartsWith(DurationText(n), IntToString(n) + " week")
    ensures DurationText(0) == "0 week" && DurationText(1) == "1 week"
  {
    var w := IntToString(n);
    var s := DurationText(n);
    if n > 1 {
      assert s == w + " weeks";
      EndsWithAppend(w, " weeks", "weeks");
      assert s[..|w| + 5] == w + " week";
    } else {
      assert s == w + " week";
      EndsWithAt(s, "weeks", 0);
      assert s[..|w| + 5] == w + " week";
    }
    SmallDurations();
  }

  lemma SmallDurations()
    ensures DurationText(0) == "0 week" && DurationText(1) == "1 week"
  {
    assert IntToString(0) == "0" && IntToString(1) == "1";
  }

  /** The level words `_extract_skill_level` looks for, in its order,
      and the labels they give. */
  const LevelWords: seq<string> := ["beginner", "improver", "intermediate", "advanced"]
  const LevelLabels: seq<string> := ["Beginner", "Improver", "Intermediate", "Advanced"]

  /** A name mentioning several levels takes the first in the order
      beginner, improver, intermediate, advanced: the label is the i-th
      exactly when the i-th word occurs and no earlier one does. */
  lemma SkillLevelFirstMatch(name: string)
    ensures forall i :: 0 <= i < 4 ==>
              (SkillLevelOf(name) == LevelLabels[i]
               <==> Contains(Lower(name), LevelWords[i])
                    && forall j :: 0 <= j < i ==> !Contains(Lower(name), LevelWords[j]))
  {
    var low := Lower(name);
    forall i | 0 <= i < 4
      ensures SkillLevelOf(name) == LevelLabels[i]
              <==> Contains(low, LevelWords[i]) && forall j :: 0 <= j < i ==> !Contains(low, LevelWords[j])
    {
      var w := LevelWords;
      assert w[0] == "beginner" && w[1] == "improver" && w[2] == "intermediate" && w[3] == "advanced";
      if i == 1 {
        assert (forall j :: 0 <= j < 1 ==> !Contains(low, w[j])) <==> !Contains(low, w[0]);
      } else if i == 2 {
        assert (forall j :: 0 <= j < 2 ==> !Contains(low, w[j])) <==> !Contains(low, w[0]) && !Contains(low, w[1]);
      } else if i == 3 {
        assert (forall j :: 0 <= j < 3 ==> !Contains(low, w[j]))
               <==> !Contains(low, w[0]) && !Contains(low, w[1]) && !Contains(low, w[2]);
      }
    }
  }

  // ---------------------------------------------------------------------
  // Properties of the category filters

  /** The events filter is a union: it takes every single-class row and
      every row whose type mentions event, session or drop. */
  lemma EventsIsUnion(rows: seq<Course>, c: Course)
    requires c in rows
    ensures c.classes == 1 ==> c in CoursesByType(rows, "events")
    ensures Contains(Lower(c.courseType), "drop") ==> c in CoursesByType(rows, "events")
    ensures c in CoursesByType(rows, "events") <==> IsEventLike(c)
  {
    if IsEventLike(c) {
      FilterKeeps(rows, IsEventLike, c);
    }
  }

  /** The categories overlap: a one-class adult course is both an adult
      course and an event. */
  lemma CategoriesOverlap(c: Course)
    requires Lower(c.courseType) == "adult" && c.classes == 1
    ensures c in CoursesByType([c], "adults") && c in CoursesByType([c], "events")
  {
    FilterKeeps([c], IsAdult, c);
    FilterKeeps([c], IsEventLike, c);
  }

  /** Any other content type, 'drop_ins' included, selects nothing. */
  lemma UnknownTypeSelectsNothing(rows: seq<Course>, contentType: string)
    requires contentType !in ["adults", "juniors", "events"]
    ensures CoursesByType(rows, contentType) == []
  {
  }

  /** A typical row: an adult beginner course at Belair Park with nine
      participants out of six weekly classes. */
  lemma ExampleRow()
    ensures var c := DeriveCourse(CleanRow(RawRow("Belair Park Adult Beginner", "Upcoming", "04/08/2025",
                                                  "18:00", "Adult", "Monday", "6", "9")));
            c.venue == "Belair Park" && c.skillLevel == "Beginner" && c.limitedSpots
            && c.durationText == "6 weeks" && c.formattedStartDate == "04 August 2025"
  {
    ExampleName("Belair Park Adult Beginner");
    ExampleCounts();
    ExampleDate("04/08/2025");
  }

  lemma ExampleName(n: string)
    requires n == "Belair Park Adult Beginner"
    ensures VenueOf(Strip(n)) == "Belair Park"
    ensures SkillLevelOf(Strip(n)) == "Beginner"
  {
    assert IsStripped(n);
    StripStripped(n);
    ExampleVenue(n);
    ExampleSkill(n);
  }

  lemma ExampleVenue(n: string)
    requires n == "Belair Park Adult Beginner"
    ensures VenueOf(n) == "Belair Park"
  {
    LowerOccurs(n, "belair", 0);
  }

  lemma ExampleSkill(n: string)
    requires n == "Belair Park Adult Beginner"
    ensures SkillLevelOf(n) == "Beginner"
  {
    LowerOccurs(n, "beginner", 18);
  }

  lemma LowerOccurs(s: string, sub: string, i: nat)
    requires i + |sub| <= |s|
    requires forall k :: 0 <= k < |sub| ==> LowerChar(s[i + k]) == sub[k]
    ensures Contains(Lower(s), sub)
  {
    assert OccursAt(Lower(s), sub, i);
  }

  lemma ExampleCounts()
    ensures CoerceCount("6") == 6 && CoerceCount("9") == 9 && DurationText(6) == "6 weeks"
  {
    ParseIntString(6);
    ParseIntString(9);
    assert IntToString(6) == "6" && IntToString(9) == "9";
  }

  lemma ExampleDate(s: string)
    requires s == "04/08/2025"
    ensures FormatDate(s) == "04 August 2025"
  {
    var d := Calendar.Date(2025, 8, 4);
    ExamplePadding();
    assert Calendar.DayMonthYearText(d) == s;
    Calendar.ParseDayMonthYearText(d);
    ExampleLongDate(d);
  }

  lemma ExampleLongDate(d: Calendar.Date)
    requires d == Calendar.Date(2025, 8, 4)
    ensures Calendar.ValidDate(d) && Calendar.LongDate(d) == "04 August 2025"
  {
    ExamplePadding();
    assert Calendar.MonthName(8) == "August";
  }

  lemma ExamplePadding()
    ensures PadNat(4, 2) == "04" && PadNat(8, 2) == "08" && PadNat(2025, 4) == "2025"
  {
    assert NatToString(4) == "4" && NatToString(8) == "8" && NatToString(2025) == "2025";
    assert Zeros(1) == "0";
  }
}
