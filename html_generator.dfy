/**
 * `HTMLGenerator`: the list items, grouped course lists, booking buttons,
 * the junior legend, the course and events blocks, and the final
 * newsletter wrapper. Every method builds its `html_parts` list by
 * appending, as the generator does, and is proved equal to a function
 * that states the parts outright; the properties are proved about those
 * functions.
 *
 * The generator's only state is the optional `LLMHelper` it was built
 * with, which is never reassigned; it is passed in as `llm`.
 */
module HtmlGenerator {
  import opened Wrappers
  import opened Text
  import opened Seqs
  import StrOrder
  import Calendar
  import opened CsvProcessor
  import opened LlmHelper

  // ---------------------------------------------------------------------
  // Class constants

  /** `SKILL_LEVELS`: the booking site's level ids, not in level order. */
  const SkillLevelIds: map<string, int> :=
    map["Beginner" := 1, "Improver" := 4, "Intermediate" := 2, "Advanced" := 3]

  /** The values of `JUNIOR_COLORS`, in insertion order. */
  const JuniorColors: seq<string> := [
    "\U{1F535} Blue (4\U{2013}6) \U{2013} New to tennis",
    "\U{1F534} Red (6\U{2013}8) \U{2013} Rallying, volleying, serving",
    "\U{1F7E0} Orange (8\U{2013}11) - Hitting from mid-court and learning tactics. Great for beginners and improvers.",
    "\U{1F7E2} Green (11\U{2013}14) - Playing on full-size courts with standard balls. All levels welcome, with drills matched to ability."
  ]

  const SkillLevelOrder: seq<string> := ["Beginner", "Improver", "Intermediate", "Advanced"]

  const AdultBookingUrl: string := "https://clubspark.lta.org.uk/VamosTennis/Coaching/Adult"

  const JuniorBookingUrl: string := "https://clubspark.lta.org.uk/VamosTennis/Coaching/Junior"

  /** The `group_by` setting: 'Skill Level', 'Venue' or none. */
  datatype GroupBy = BySkillLevel | ByVenue | NoGrouping

  datatype BlockConfig = BlockConfig(title: string, groupBy: GroupBy, includeVenue: bool)

  /** `BLOCK_CONFIGS`; the junior `extra_content` is computed per block. */
  const BlockConfigs: map<string, BlockConfig> := map[
    "adults" := BlockConfig("Adult Courses", BySkillLevel, true),
    "juniors" := BlockConfig("Term Time Junior Courses", ByVenue, false)
  ]

  const WrapperOpen: string :=
    "<div style=\"font-family: Arial, sans-serif; max-width: 600px; margin: 0 auto; width: 100%; box-sizing: border-box; text-align: left;\">"

  /** The date `_extract_earliest_date` falls back on. */
  const FallbackBookingDate: string := "2025-08-03T00:00:00.000Z"

  // ---------------------------------------------------------------------
  // _format_time

  /** The label for an hour read from the text. */
  function HourLabel(h: int): (r: string)
    ensures h >= 12 ==> EndsWith(r, "pm")
    ensures h < 12 ==> EndsWith(r, "am")
  {
    if h > 12 then IntToString(h - 12) + "pm"
    else if h == 12 then "12pm"
    else if h == 0 then "12am"
    else IntToString(h) + "am"
  }

  /** `_format_time`: text without a colon, with more than one colon (the
      two-name unpacking raises) or with an hour `int` refuses comes back
      unchanged. */
  function FormatTime(t: string): (r: string)
    ensures r == t || EndsWith(r, "am") || EndsWith(r, "pm")
    ensures ':' !in t || |Split(t, ':')| != 2 || ParseInt(Split(t, ':')[0]).None? ==> r == t
    ensures ':' in t && |Split(t, ':')| == 2 && ParseInt(Split(t, ':')[0]).Some? ==>
              r == HourLabel(ParseInt(Split(t, ':')[0]).value)
  {
    if ':' !in t then t
    else
      var fields := Split(t, ':');
      if |fields| != 2 then t
      else
        match ParseInt(fields[0])
        case None => t
        case Some(h) => HourLabel(h)
  }

  /** The hour on a 12-hour clock face. */
  function ClockHour(h: int): int
    requires 0 <= h < 24
  {
    if h % 12 == 0 then 12 else h % 12
  }

  function Meridiem(h: int): string
    requires 0 <= h < 24
  {
    if h < 12 then "am" else "pm"
  }

  lemma ParsePadded(n: nat, w: nat)
    ensures ParseInt(PadNat(n, w)) == Some(n)
  {
    ParseDigits(PadNat(n, w));
  }

  /** The label reads the hour on the 12-hour clock, with its half of the day. */
  lemma HourLabelClock(h: int)
    requires 0 <= h < 24
    ensures HourLabel(h) == IntToString(ClockHour(h)) + Meridiem(h)
  {
    if h > 12 {
      assert h % 12 == h - 12;
    } else if h == 12 || h == 0 {
      assert h % 12 == 0;
    } else {
      assert h % 12 == h;
    }
  }

  /** Every time of day written `HH:MM` on the 24-hour clock gets its hour
      on the 12-hour clock and the right half of the day. */
  lemma TwentyFourHourTime(h: nat, minute: string)
    requires h < 24 && ':' !in minute
    ensures FormatTime(PadNat(h, 2) + ":" + minute) == IntToString(ClockHour(h)) + Meridiem(h)
  {
    var hh := PadNat(h, 2);
    assert ':' !in hh by {
      forall i | 0 <= i < |hh| ensures hh[i] != ':' {
        assert IsDigit(hh[i]);
      }
    }
    var t := hh + ":" + minute;
    assert t == hh + [':'] + minute;
    assert ':' in t by { assert t[|hh|] == ':'; }
    SplitPrefix(hh, minute, ':');
    SplitNoSep(minute, ':');
    assert Split(t, ':') == [hh, minute];
    ParsePadded(h, 2);
    assert FormatTime(t) == HourLabel(h);
    HourLabelClock(h);
  }

  // ---------------------------------------------------------------------
  // _format_course_item

  /** The badge texts, and how a badge closes an item. */
  const FullText: string := "(Full!)"
  const LimitedText: string := "(Limited spots!)"
  const BadgeClose: string := "</strong></li>"

  function LimitedBadge(spots: int): (b: string)
    ensures b != "" <==> 7 <= spots < 10
  {
    if spots >= 7 && spots < 10 then " <strong>" + LimitedText + "</strong>" else ""
  }

  function FullBadge(spots: int): (b: string)
    ensures b != "" <==> spots >= 10
  {
    if spots >= 10 then " <strong>" + FullText + "</strong>" else ""
  }

  /** `_format_course_item` on a course with its derived columns: the
      text up to the duration, then the badges. */
  function FormatCourseItem(c: Course, includeVenue: bool): (r: string)
    ensures StartsWith(r, "<li>") && EndsWith(r, "</li>")
    ensures includeVenue ==>
              StartsWith(r, "<li><strong>" + c.venue + "</strong> - starting " + c.formattedStartDate + " at " + FormatTime(c.time))
    ensures !includeVenue ==> StartsWith(r, "<li>" + c.formattedStartDate + " at " + FormatTime(c.time))
    ensures EndsWith(r, " (" + c.durationText + ")" + ItemEnd(c.activeParticipants))
  {
    var open, at, paren, end := ItemOpen(c, includeVenue), ItemAt(c), ItemDuration(c), ItemEnd(c.activeParticipants);
    ItemPieces(open, at, paren, end);
    Regroup4("<li>", c.formattedStartDate, " at ", FormatTime(c.time));
    Regroup6("<li><strong>", c.venue, "</strong> - starting ", c.formattedStartDate, " at ", FormatTime(c.time));
    StartsWithAppend(open, at + paren, "<li>");
    StartsWithAppend(open + (at + paren), end, "<li>");
    EndsWithAppend(open + (at + paren), end, "</li>");
    ItemText(c, includeVenue) + end
  }

  /** An item is its opening, the start date and time, the duration in
      parentheses, then the end: it begins with the opening and the date
      and time, and ends with the duration and the end. */
  lemma ItemPieces(open: string, at: string, paren: string, end: string)
    ensures StartsWith((open + (at + paren)) + end, open)
    ensures StartsWith((open + (at + paren)) + end, open + at)
    ensures EndsWith((open + (at + paren)) + end, paren + end)
  {
    var r := (open + (at + paren)) + end;
    assert r == (open + at) + (paren + end);
    assert r[..|open + at|] == open + at;
    assert r[..|open|] == open;
  }

  lemma Regroup4(a: string, b: string, c: string, d: string)
    ensures a + b + c + d == a + (b + c + d)
  {
  }

  lemma Regroup6(a: string, b: string, c: string, d: string, e: string, f: string)
    ensures a + b + c + d + e + f == (a + b + c) + (d + e + f)
  {
  }

  function ItemText(c: Course, includeVenue: bool): string {
    ItemOpen(c, includeVenue) + (ItemAt(c) + ItemDuration(c))
  }

  /** The item's opening tag, with the venue in bold when it is shown. */
  function ItemOpen(c: Course, includeVenue: bool): (r: string)
    ensures StartsWith(r, "<li>")
  {
    if includeVenue then "<li><strong>" + c.venue + "</strong> - starting " else "<li>"
  }

  /** The start date and the 12-hour time. */
  function ItemAt(c: Course): string {
    c.formattedStartDate + " at " + FormatTime(c.time)
  }

  /** The duration in parentheses. */
  function ItemDuration(c: Course): string {
    " (" + c.durationText + ")"
  }

  /** What follows the closing parenthesis of an item. */
  function ItemEnd(spots: int): (r: string)
    ensures EndsWith(r, "</li>")
  {
    LimitedBadge(spots) + FullBadge(spots) + "</li>"
  }

  /** The end of an item tells how full the course is: the "Full!" badge
      exactly from ten participants, the "Limited spots!" badge exactly
      from seven to nine, and no badge below seven; never both. */
  lemma ItemBadges(c: Course, includeVenue: bool)
    ensures EndsWith(FormatCourseItem(c, includeVenue), FullText + BadgeClose) <==> c.activeParticipants >= 10
    ensures EndsWith(FormatCourseItem(c, includeVenue), LimitedText + BadgeClose) <==> 7 <= c.activeParticipants < 10
    ensures EndsWith(FormatCourseItem(c, includeVenue), ")</li>") <==> c.activeParticipants < 7
  {
    var body := ItemText(c, includeVenue);
    assert body[|body| - 1] == ')';
    SuffixCases(body, c.activeParticipants);
  }

  lemma SuffixCases(body: string, n: int)
    requires |body| >= 1 && body[|body| - 1] == ')'
    ensures EndsWith(body + ItemEnd(n), FullText + BadgeClose) <==> n >= 10
    ensures EndsWith(body + ItemEnd(n), LimitedText + BadgeClose) <==> 7 <= n < 10
    ensures EndsWith(body + ItemEnd(n), ")</li>") <==> n < 7
  {
    if n >= 10 {
      FullCase(body, n);
    } else if n >= 7 {
      LimitedCase(body, n);
    } else {
      PlainCase(body, n);
    }
  }

  lemma FullCase(body: string, n: int)
    requires n >= 10
    ensures EndsWith(body + ItemEnd(n), FullText + BadgeClose)
    ensures !EndsWith(body + ItemEnd(n), LimitedText + BadgeClose)
    ensures !EndsWith(body + ItemEnd(n), ")</li>")
  {
    FullEnd(n);
    ConcatAssoc(body, " <strong>", FullText + BadgeClose);
    BadgeEnd(body + " <strong>", FullText + BadgeClose, LimitedText + BadgeClose);
  }

  lemma FullEnd(n: int)
    requires n >= 10
    ensures ItemEnd(n) == " <strong>" + (FullText + BadgeClose)
  {
  }

  lemma LimitedEnd(n: int)
    requires 7 <= n < 10
    ensures ItemEnd(n) == " <strong>" + (LimitedText + BadgeClose)
  {
  }

  lemma ConcatAssoc(a: string, b: string, c: string)
    ensures a + (b + c) == (a + b) + c
  {
  }

  lemma LimitedCase(body: string, n: int)
    requires 7 <= n < 10
    ensures !EndsWith(body + ItemEnd(n), FullText + BadgeClose)
    ensures EndsWith(body + ItemEnd(n), LimitedText + BadgeClose)
    ensures !EndsWith(body + ItemEnd(n), ")</li>")
  {
    LimitedEnd(n);
    ConcatAssoc(body, " <strong>", LimitedText + BadgeClose);
    BadgeEnd(body + " <strong>", LimitedText + BadgeClose, FullText + BadgeClose);
  }

  lemma PlainCase(body: string, n: int)
    requires |body| >= 1 && body[|body| - 1] == ')'
    requires n < 7
    ensures !EndsWith(body + ItemEnd(n), FullText + BadgeClose)
    ensures !EndsWith(body + ItemEnd(n), LimitedText + BadgeClose)
    ensures EndsWith(body + ItemEnd(n), ")</li>")
  {
    var li := body + ItemEnd(n);
    assert li == body[..|body| - 1] + ")</li>";
    EndsWithAppend(body[..|body| - 1], ")</li>", ")</li>");
    Differ(li, ")</li>", FullText + BadgeClose, 5);
    Differ(li, ")</li>", LimitedText + BadgeClose, 5);
  }

  lemma BadgeEnd(prefix: string, mark: string, other: string)
    requires mark == FullText + BadgeClose || mark == LimitedText + BadgeClose
    requires other == FullText + BadgeClose || other == LimitedText + BadgeClose
    requires mark != other
    ensures EndsWith(prefix + mark, mark)
    ensures !EndsWith(prefix + mark, other) && !EndsWith(prefix + mark, ")</li>")
  {
    EndsWithAppend(prefix, mark, mark);
    Differ(prefix + mark, mark, other, 16);
    Differ(prefix + mark, mark, ")</li>", 5);
  }

  /** A text cannot end in two suffixes that differ `k` places from the end. */
  lemma Differ(s: string, t: string, u: string, k: nat)
    requires EndsWith(s, t) && k < |t| && k < |u| && t[|t| - 1 - k] != u[|u| - 1 - k]
    ensures !EndsWith(s, u)
  {
    EndsWithAt(s, t, k);
    EndsWithAt(s, u, k);
  }

  /** The two "limited" thresholds differ: the `Limited Spots` column
      (more than eight participants) and the item badge (seven to nine)
      disagree at seven, at eight and from ten up. */
  lemma ThresholdsDiffer(r: Row)
    ensures var c := DeriveCourse(r);
            (c.limitedSpots != (LimitedBadge(c.activeParticipants) != ""))
            <==> (r.activeParticipants == 7 || r.activeParticipants == 8 || r.activeParticipants >= 10)
  {
  }

  // ---------------------------------------------------------------------
  // _generate_course_list

  /** The column a grouping reads. */
  function Key(grouping: GroupBy, c: Course): string {
    if grouping == BySkillLevel then c.skillLevel else c.venue
  }

  function KeyOf(grouping: GroupBy): Course -> string {
    c => Key(grouping, c)
  }

  /** The rows of one group, in input order. */
  function InGroup(grouping: GroupBy, g: string): Course -> bool {
    c => Key(grouping, c) == g
  }

  predicate Named(g: string) {
    g != "Unknown"
  }

  /** The sort key of `sorted_groups`: a level's place in
      `SKILL_LEVEL_ORDER`, or 999 for any other name. */
  function Rank(name: string): (k: int)
    ensures name in SkillLevelOrder ==> 0 <= k < 4 && SkillLevelOrder[k] == name
    ensures name !in SkillLevelOrder ==> k == 999
  {
    if name == "Beginner" then 0
    else if name == "Improver" then 1
    else if name == "Intermediate" then 2
    else if name == "Advanced" then 3
    else 999
  }

  function IsIn(groups: seq<string>): string -> bool {
    g => g in groups
  }

  predicate NotLevel(g: string) {
    g !in SkillLevelOrder
  }

  /** What the stable `sort` by `Rank` leaves: the levels present, in
      level order, then every other name in its existing order. */
  function ByRank(groups: seq<string>): seq<string> {
    Filter(SkillLevelOrder, IsIn(groups)) + Filter(groups, NotLevel)
  }

  /** The groups a grouping visits: the keys `groupby` walks in sorted
      order, without "Unknown", and in level order for skill levels. */
  function GroupNames(rows: seq<Course>, grouping: GroupBy): seq<string> {
    var named := Filter(StrOrder.SortedDistinct(Map(rows, KeyOf(grouping))), Named);
    if grouping == BySkillLevel then ByRank(named) else named
  }

  function ItemOf(includeVenue: bool): Course -> string {
    c => FormatCourseItem(c, includeVenue)
  }

  function ListItems(rows: seq<Course>, includeVenue: bool): seq<string> {
    Map(rows, ItemOf(includeVenue))
  }

  /** The level paragraph: only with a helper, and only when it says something. */
  function LevelDescription(llm: Option<Helper>, g: string): seq<string> {
    if llm.None? then []
    else
      var d := GenerateLevelDescription(llm.value, g);
      if d != "" then ["<p>" + d + "</p>"] else []
  }

  /** The parts one group contributes. A skill-level group also gets the
      level paragraph and a booking button whose date comes from all the
      rows of the block, not from the group. */
  function Section(llm: Option<Helper>, rows: seq<Course>, grouping: GroupBy, g: string, includeVenue: bool): seq<string> {
    SectionHead(llm, grouping, g) + ListItems(Filter(rows, InGroup(grouping, g)), includeVenue)
    + ["</ul>"] + (if grouping == BySkillLevel then [BookingButton(g, rows)] else [])
  }

  /** The heading, the level paragraph of a skill group, and the list opening. */
  function SectionHead(llm: Option<Helper>, grouping: GroupBy, g: string): seq<string> {
    ["<h3>" + g + "</h3>"] + (if grouping == BySkillLevel then LevelDescription(llm, g) else []) + ["<ul>"]
  }

  function Sections(llm: Option<Helper>, rows: seq<Course>, grouping: GroupBy, groups: seq<string>, includeVenue: bool): seq<string> {
    if groups == [] then []
    else Sections(llm, rows, grouping, groups[..|groups| - 1], includeVenue)
         + Section(llm, rows, grouping, groups[|groups| - 1], includeVenue)
  }

  /** The parts `_generate_course_list` returns. */
  function CourseList(llm: Option<Helper>, rows: seq<Course>, grouping: GroupBy, includeVenue: bool): seq<string> {
    if grouping == NoGrouping then ["<ul>"] + ListItems(rows, includeVenue) + ["</ul>"]
    else Sections(llm, rows, grouping, GroupNames(rows, grouping), includeVenue)
  }

  /** The `iterrows` loop: one list item per course, in order. */
  method AppendItems(parts: seq<string>, rows: seq<Course>, includeVenue: bool) returns (r: seq<string>)
    ensures r == parts + ListItems(rows, includeVenue)
  {
    r := parts;
    for k := 0 to |rows|
      invariant r == parts + ListItems(rows[..k], includeVenue)
    {
      MapStep(rows, ItemOf(includeVenue), k);
      AppendAssoc(parts, ListItems(rows[..k], includeVenue), FormatCourseItem(rows[k], includeVenue));
      r := r + [FormatCourseItem(rows[k], includeVenue)];
    }
    assert rows[..|rows|] == rows;
  }

  /** `_generate_course_list` */
  method GenerateCourseList(llm: Option<Helper>, rows: seq<Course>, grouping: GroupBy, includeVenue: bool)
    returns (parts: seq<string>)
    ensures parts == CourseList(llm, rows, grouping, includeVenue)
  {
    if grouping == NoGrouping {
      parts := AppendItems(["<ul>"], rows, includeVenue);
      parts := parts + ["</ul>"];
      return;
    }
    var keys := StrOrder.SortedDistinct(Map(rows, KeyOf(grouping)));
    var groups := NamedKeys(keys);
    if grouping == BySkillLevel {
      groups := ByRank(groups);
    }
    assert groups == GroupNames(rows, grouping);
    parts := AppendSections(llm, rows, grouping, groups, includeVenue);
  }

  /** The loop over the groups. */
  method AppendSections(llm: Option<Helper>, rows: seq<Course>, grouping: GroupBy, groups: seq<string>,
                        includeVenue: bool) returns (parts: seq<string>)
    requires grouping != NoGrouping
    ensures parts == Sections(llm, rows, grouping, groups, includeVenue)
  {
    parts := [];
    for i := 0 to |groups|
      invariant parts == Sections(llm, rows, grouping, groups[..i], includeVenue)
    {
      SectionsSnoc(llm, rows, grouping, groups, i, includeVenue);
      parts := AppendSection(parts, llm, rows, grouping, groups[i], includeVenue);
    }
    assert groups[..|groups|] == groups;
  }

  lemma SectionsSnoc(llm: Option<Helper>, rows: seq<Course>, grouping: GroupBy, groups: seq<string>, i: nat,
                     includeVenue: bool)
    requires i < |groups|
    ensures Sections(llm, rows, grouping, groups[..i + 1], includeVenue)
            == Sections(llm, rows, grouping, groups[..i], includeVenue) + Section(llm, rows, grouping, groups[i], includeVenue)
  {
    assert groups[..i + 1][..i] == groups[..i];
  }

  /** The loop that drops the "Unknown" group. */
  method NamedKeys(keys: seq<string>) returns (groups: seq<string>)
    ensures groups == Filter(keys, Named)
  {
    groups := [];
    for k := 0 to |keys|
      invariant groups == Filter(keys[..k], Named)
    {
      FilterStep(keys, Named, k);
      if keys[k] != "Unknown" {
        groups := groups + [keys[k]];
      }
    }
    assert keys[..|keys|] == keys;
  }

  /** The body of the loop over groups. */
  method AppendSection(parts: seq<string>, llm: Option<Helper>, rows: seq<Course>, grouping: GroupBy,
                       g: string, includeVenue: bool) returns (r: seq<string>)
    requires grouping != NoGrouping
    ensures r == parts + Section(llm, rows, grouping, g, includeVenue)
  {
    var section := ["<h3>" + g + "</h3>"];
    if grouping == BySkillLevel && llm.Some? {
      var d := GenerateLevelDescription(llm.value, g);
      if d != "" {
        section := section + ["<p>" + d + "</p>"];
      }
    }
    assert section == ["<h3>" + g + "</h3>"] + (if grouping == BySkillLevel then LevelDescription(llm, g) else []);
    section := section + ["<ul>"];
    section := AppendItems(section, Filter(rows, InGroup(grouping, g)), includeVenue);
    section := section + ["</ul>"];
    if grouping == BySkillLevel {
      section := section + [BookingButton(g, rows)];
    } else {
      assert section + [] == section;
    }
    r := parts + section;
  }

  predicate RankBefore(a: string, b: string) {
    Rank(a) < Rank(b) || (Rank(a) == Rank(b) && StrOrder.Less(a, b))
  }

  /** The stable sort by rank of a strictly sorted list: the same names,
      ordered by rank and then as strings. */
  lemma ByRankOrder(groups: seq<string>)
    requires StrOrder.StrictlySorted(groups)
    ensures forall g :: g in ByRank(groups) <==> g in groups
    ensures forall i, j :: 0 <= i < j < |ByRank(groups)| ==> RankBefore(ByRank(groups)[i], ByRank(groups)[j])
  {
    ByRankMembers(groups);
    LevelsByRank(groups);
    OthersSorted(groups);
    ConcatRankBefore(Filter(SkillLevelOrder, IsIn(groups)), Filter(groups, NotLevel));
  }

  lemma OthersSorted(groups: seq<string>)
    requires StrOrder.StrictlySorted(groups)
    ensures StrOrder.StrictlySorted(Filter(groups, NotLevel))
  {
    FilterChain(groups, NotLevel, (a, b) => StrOrder.Less(a, b));
  }

  lemma ByRankMembers(groups: seq<string>)
    ensures forall g :: g in ByRank(groups) <==> g in groups
  {
    forall g | g in groups ensures g in ByRank(groups) {
      if g in SkillLevelOrder {
        FilterKeeps(SkillLevelOrder, IsIn(groups), g);
      } else {
        FilterKeeps(groups, NotLevel, g);
      }
    }
  }

  predicate RankIncreasing(s: seq<string>) {
    forall i, j :: 0 <= i < j < |s| ==> Rank(s[i]) < Rank(s[j])
  }

  lemma LevelsByRank(groups: seq<string>)
    ensures RankIncreasing(Filter(SkillLevelOrder, IsIn(groups)))
  {
    assert Rank(SkillLevelOrder[0]) == 0 && Rank(SkillLevelOrder[1]) == 1;
    assert Rank(SkillLevelOrder[2]) == 2 && Rank(SkillLevelOrder[3]) == 3;
    FilterChain(SkillLevelOrder, IsIn(groups), (a, b) => Rank(a) < Rank(b));
  }

  lemma ConcatRankBefore(first: seq<string>, rest: seq<string>)
    requires forall x :: x in first ==> x in SkillLevelOrder
    requires forall x :: x in rest ==> NotLevel(x)
    requires RankIncreasing(first)
    requires StrOrder.StrictlySorted(rest)
    ensures forall i, j :: 0 <= i < j < |first + rest| ==> RankBefore((first + rest)[i], (first + rest)[j])
  {
    var r := first + rest;
    forall i, j | 0 <= i < j < |r| ensures RankBefore(r[i], r[j]) {
      if j < |first| {
        assert r[i] == first[i] && r[j] == first[j];
      } else if i >= |first| {
        var a, b := rest[i - |first|], rest[j - |first|];
        assert r[i] == a && r[j] == b;
        assert a in rest && b in rest;
        assert Rank(a) == 999 && Rank(b) == 999;
      } else {
        var a, b := first[i], rest[j - |first|];
        assert r[i] == a && r[j] == b;
        assert a in first && b in rest;
        assert Rank(a) < 4 && Rank(b) == 999;
      }
    }
  }

  /** Skill grouping shows every level some row has, except "Unknown",
      with the four known levels first in SKILL_LEVEL_ORDER and any other
      name after them in string order; each group's rows keep their order. */
  lemma SkillGroupOrder(rows: seq<Course>)
    ensures forall g :: g in GroupNames(rows, BySkillLevel)
                        <==> g != "Unknown" && exists c :: c in rows && c.skillLevel == g
    ensures var gs := GroupNames(rows, BySkillLevel);
            forall i, j :: 0 <= i < j < |gs| ==> RankBefore(gs[i], gs[j])
  {
    var keys := StrOrder.SortedDistinct(Map(rows, KeyOf(BySkillLevel)));
    var named := Filter(keys, Named);
    FilterChain(keys, Named, (a, b) => StrOrder.Less(a, b));
    ByRankOrder(named);
    forall g ensures g in named <==> g != "Unknown" && exists c :: c in rows && c.skillLevel == g {
      MapIn(rows, KeyOf(BySkillLevel), g);
      if g in keys && g != "Unknown" {
        FilterKeeps(keys, Named, g);
      }
    }
  }

  /** Venue grouping shows every venue some row has, except "Unknown", in
      string order. */
  lemma VenueGroupOrder(rows: seq<Course>)
    ensures forall g :: g in GroupNames(rows, ByVenue)
                        <==> g != "Unknown" && exists c :: c in rows && c.venue == g
    ensures StrOrder.StrictlySorted(GroupNames(rows, ByVenue))
  {
    var keys := StrOrder.SortedDistinct(Map(rows, KeyOf(ByVenue)));
    FilterChain(keys, Named, (a, b) => StrOrder.Less(a, b));
    forall g ensures g in GroupNames(rows, ByVenue) <==> g != "Unknown" && exists c :: c in rows && c.venue == g {
      MapIn(rows, KeyOf(ByVenue), g);
      if g in keys && g != "Unknown" {
        FilterKeeps(keys, Named, g);
      }
    }
  }

  // ---------------------------------------------------------------------
  // _extract_earliest_date and the booking buttons

  function StartDateOf(c: Course): string {
    c.startDate
  }

  /** `_extract_earliest_date`: the least raw start date as a string,
      read day first when it has a `/`, printed as midnight UTC; no rows
      or a date that does not parse give the fixed fallback. */
  function ExtractEarliestDate(rows: seq<Course>): (r: string)
    ensures rows == [] ==> r == FallbackBookingDate
  {
    if rows == [] then FallbackBookingDate
    else
      match Calendar.ParseDate(StrOrder.Min(Map(rows, StartDateOf)))
      case Some(d) => Calendar.IsoInstant(d)
      case None => FallbackBookingDate
  }

  /** The earliest day among the rows whose start date parses. */
  function EarliestParsed(rows: seq<Course>): (r: Option<Calendar.Date>)
    ensures r.Some? ==> Calendar.ValidDate(r.value)
  {
    if rows == [] then None
    else
      var prev := EarliestParsed(rows[..|rows| - 1]);
      match Calendar.ParseDate(rows[|rows| - 1].startDate)
      case None => prev
      case Some(d) => if prev.None? || Calendar.Before(d, prev.value) then Some(d) else prev
  }

  /** The booking date `_extract_earliest_date` evidently means: the
      earliest start date compared as a date, printed as midnight UTC, or
      the fixed fallback when no start date parses. */
  function EarliestBookingDate(rows: seq<Course>): string {
    match EarliestParsed(rows)
    case None => FallbackBookingDate
    case Some(d) => Calendar.IsoInstant(d)
  }

  /** The button markup both booking buttons share. */
  function Button(url: string, text: string): string {
    "\n        <p style=\"text-align: center;\">\n            <a href=\"" + url + "\" class=\"cta-button\">"
    + text + "</a>\n        </p>\n        "
  }

  /** The query of a level's booking link, as the generator writes it. */
  function BookingQuery(id: int, date: string): string {
    "skill-level" + "%5B%5D" + "=" + IntToString(id) + "&date-range[]=" + "%22" + date + "%22"
  }

  /** A known level's button for a given link date. */
  function LevelButton(level: string, date: string): string
    requires level in SkillLevelIds
  {
    Button(AdultBookingUrl + "?" + BookingQuery(SkillLevelIds[level], date), "Book " + level)
  }

  /** `generate_booking_button`: a known level links to its id and the
      block's `_extract_earliest_date`, a date that holds no `%` and so
      passes through the query's decoding; anything else gets the plain
      adult page, whatever the rows. */
  function BookingButton(level: string, rows: seq<Course>): (r: string)
    ensures level !in SkillLevelIds ==> r == Button(AdultBookingUrl, "Book Your Place")
    ensures level in SkillLevelIds ==> r == LevelButton(level, ExtractEarliestDate(rows))
                                       && '%' !in ExtractEarliestDate(rows)
  {
    if level in SkillLevelIds then
      ExtractedDateUnescaped(rows);
      LevelButton(level, ExtractEarliestDate(rows))
    else
      Button(AdultBookingUrl, "Book Your Place")
  }

  /** The booking button with the corrected date `EarliestBookingDate`.
      A known level's corrected button differs from the one the program
      writes exactly when the two dates differ. */
  function BookingButtonIntended(level: string, rows: seq<Course>): (r: string)
    ensures level !in SkillLevelIds ==> r == BookingButton(level, rows)
    ensures level in SkillLevelIds ==>
              (r == BookingButton(level, rows) <==> EarliestBookingDate(rows) == ExtractEarliestDate(rows))
  {
    if level in SkillLevelIds then
      LevelButtonInjective(level, EarliestBookingDate(rows), ExtractEarliestDate(rows));
      LevelButton(level, EarliestBookingDate(rows))
    else
      Button(AdultBookingUrl, "Book Your Place")
  }

  /** `generate_junior_booking_button`: one fixed button to the junior
      coaching page, whatever the rows. */
  function JuniorBookingButton(): (r: string)
    ensures r == Button(JuniorBookingUrl, "Book Junior Courses")
  {
    Button(JuniorBookingUrl, "Book Junior Courses")
  }

  // Percent-encoding, section 2.1 of RFC 3986

  predicate IsHexDigit(c: char) {
    '0' <= c <= '9' || 'A' <= c <= 'F' || 'a' <= c <= 'f'
  }

  function HexValue(c: char): (v: nat)
    requires IsHexDigit(c)
    ensures v < 16
  {
    if c <= '9' then c as int - '0' as int
    else if c <= 'F' then c as int - 'A' as int + 10
    else c as int - 'a' as int + 10
  }

  /** The upper-case hexadecimal digit section 2.1 asks producers to use. */
  function HexDigit(v: nat): (c: char)
    requires v < 16
    ensures IsHexDigit(c) && HexValue(c) == v
  {
    if v < 10 then ('0' as int + v) as char else ('A' as int + v - 10) as char
  }

  /** The percent-encoding of one octet. */
  function PercentEncode(c: char): string
    requires c as int < 256
  {
    ['%', HexDigit(c as int / 16), HexDigit(c as int % 16)]
  }

  /** Replaces every `%` followed by two hexadecimal digits with the octet
      they name. */
  function PercentDecode(s: string): string {
    if |s| >= 3 && s[0] == '%' && IsHexDigit(s[1]) && IsHexDigit(s[2]) then
      [(16 * HexValue(s[1]) + HexValue(s[2])) as char] + PercentDecode(s[3..])
    else if s == [] then ""
    else [s[0]] + PercentDecode(s[1..])
  }

  lemma DecodeEncoded(c: char, t: string)
    requires c as int < 256
    ensures PercentDecode(PercentEncode(c) + t) == [c] + PercentDecode(t)
  {
    var e := PercentEncode(c) + t;
    assert e[3..] == t;
  }

  lemma {:induction false} DecodePlain(a: string, t: string)
    requires '%' !in a
    ensures PercentDecode(a + t) == a + PercentDecode(t)
  {
    if a == [] {
      assert a + t == t;
    } else {
      assert (a + t)[0] == a[0] && (a + t)[1..] == a[1..] + t;
      assert PercentDecode(a + t) == [a[0]] + PercentDecode(a[1..] + t);
      DecodePlain(a[1..], t);
      assert [a[0]] + (a[1..] + PercentDecode(t)) == ([a[0]] + a[1..]) + PercentDecode(t);
      assert [a[0]] + a[1..] == a;
    }
  }

  /** The escapes in the booking query are the encodings of `[`, `]` and `"`. */
  lemma BookingEscapes()
    ensures PercentEncode('[') == "%5B" && PercentEncode(']') == "%5D" && PercentEncode('"') == "%22"
  {
  }

  lemma DecodeUnescaped(a: string)
    requires '%' !in a
    ensures PercentDecode(a) == a
  {
    DecodePlain(a, "");
    assert a + "" == a;
  }

  /** No escape can start in the last two characters. */
  predicate CleanEnd(a: string) {
    forall k :: 0 <= k < |a| && |a| - 2 <= k ==> a[k] != '%'
  }

  lemma CleanEndAppend(a: string, b: string)
    requires (|b| >= 2 && CleanEnd(b)) || (CleanEnd(a) && '%' !in b)
    ensures CleanEnd(a + b)
  {
    forall k | 0 <= k < |a + b| && |a + b| - 2 <= k ensures (a + b)[k] != '%' {
      if k >= |a| {
        assert (a + b)[k] == b[k - |a|];
      } else {
        assert (a + b)[k] == a[k];
      }
    }
  }

  /** A text whose escapes all end inside it decodes on its own. */
  lemma {:induction false} DecodeSplit(a: string, b: string)
    requires CleanEnd(a)
    ensures PercentDecode(a + b) == PercentDecode(a) + PercentDecode(b)
    decreases |a|
  {
    if a == [] {
      assert a + b == b;
    } else {
      var n, h := DecodeHead(a, b);
      CleanEndDrop(a, n);
      DecodeSplit(a[n..], b);
      calc {
        PercentDecode(a + b);
        h + PercentDecode(a[n..] + b);
        h + (PercentDecode(a[n..]) + PercentDecode(b));
        (h + PercentDecode(a[n..])) + PercentDecode(b);
        PercentDecode(a) + PercentDecode(b);
      }
    }
  }

  /** The first step of decoding `a` is the same with or without `b` after it. */
  lemma DecodeHead(a: string, b: string) returns (n: nat, h: string)
    requires a != [] && CleanEnd(a)
    ensures 1 <= n <= |a|
    ensures PercentDecode(a) == h + PercentDecode(a[n..])
    ensures PercentDecode(a + b) == h + PercentDecode(a[n..] + b)
  {
    assert a[0] == '%' ==> |a| >= 3;
    if |a| >= 3 && a[0] == '%' && IsHexDigit(a[1]) && IsHexDigit(a[2]) {
      n, h := 3, [(16 * HexValue(a[1]) + HexValue(a[2])) as char];
      assert (a + b)[..3] == a[..3];
      assert (a + b)[3..] == a[3..] + b;
    } else {
      n, h := 1, [a[0]];
      assert (a + b)[0] == a[0];
      assert a[0] == '%' ==> (a + b)[1] == a[1] && (a + b)[2] == a[2];
      assert (a + b)[1..] == a[1..] + b;
    }
  }

  lemma CleanEndDrop(a: string, n: nat)
    requires CleanEnd(a) && n <= |a|
    ensures CleanEnd(a[n..])
  {
    forall k | 0 <= k < |a[n..]| && |a[n..]| - 2 <= k ensures a[n..][k] != '%' {
      assert a[n..][k] == a[k + n];
    }
  }

  /** Decoding the booking query gives the level id and the quoted date
      under their parameter names; the brackets of the second name were
      never encoded. */
  lemma BookingQueryDecodes(id: nat, date: string)
    requires '%' !in date
    ensures PercentDecode(BookingQuery(id, date))
            == "skill-level" + "[]" + "=" + IntToString(id) + "&date-range[]=" + "\"" + date + "\""
  {
    var n := IntToString(id);
    DigitsUnescaped(n);
    QueryHead(n);
    QueryTail("skill-level" + "%5B%5D" + "=" + n, date);
  }

  /** The fixed pieces of the booking query. */
  lemma QueryPieces()
    ensures '%' !in "skill-level" && '%' !in "=" && '%' !in "&date-range[]="
    ensures CleanEnd("skill-level") && CleanEnd("%5B%5D") && CleanEnd("%22")
    ensures PercentDecode("%5B%5D") == "[]" && PercentDecode("%22") == "\""
  {
    BookingEscapes();
    DecodeEncoded(']', "");
    DecodeEncoded('[', "%5D");
    assert "%5B%5D" == PercentEncode('[') + "%5D";
    assert PercentEncode(']') + "" == "%5D";
    DecodeEncoded('"', "");
    assert PercentEncode('"') + "" == "%22";
  }

  lemma QueryHead(n: string)
    requires '%' !in n
    ensures CleanEnd("skill-level" + "%5B%5D" + "=" + n)
    ensures PercentDecode("skill-level" + "%5B%5D" + "=" + n) == "skill-level" + "[]" + "=" + n
  {
    QueryPieces();
    var p1 := "skill-level";
    var p2 := p1 + "%5B%5D";
    var p3 := p2 + "=";
    CleanEndAppend(p1, "%5B%5D");
    CleanEndAppend(p2, "=");
    CleanEndAppend(p3, n);
    DecodeSplit(p1, "%5B%5D");
    DecodeSplit(p2, "=");
    DecodeSplit(p3, n);
    DecodeUnescaped(p1);
    DecodeUnescaped("=");
    DecodeUnescaped(n);
  }

  lemma QueryTail(p: string, date: string)
    requires CleanEnd(p) && '%' !in date
    ensures PercentDecode(p + "&date-range[]=" + "%22" + date + "%22")
            == PercentDecode(p) + "&date-range[]=" + "\"" + date + "\""
  {
    QueryPieces();
    var p5 := p + "&date-range[]=";
    var p6 := p5 + "%22";
    var p7 := p6 + date;
    CleanEndAppend(p, "&date-range[]=");
    CleanEndAppend(p5, "%22");
    CleanEndAppend(p6, date);
    DecodeSplit(p, "&date-range[]=");
    DecodeSplit(p5, "%22");
    DecodeSplit(p6, date);
    DecodeSplit(p7, "%22");
    DecodeUnescaped("&date-range[]=");
    DecodeUnescaped(date);
  }

  /** The date put in a booking link never holds a `%`. */
  lemma EarliestDateUnescaped(rows: seq<Course>)
    ensures '%' !in ExtractEarliestDate(rows)
    ensures '%' !in EarliestBookingDate(rows)
  {
    ExtractedDateUnescaped(rows);
    match EarliestParsed(rows)
    case Some(d) =>
      IsoInstantUnescaped(d);
    case None =>
      FallbackUnescaped();
  }

  lemma ExtractedDateUnescaped(rows: seq<Course>)
    ensures '%' !in ExtractEarliestDate(rows)
  {
    FallbackUnescaped();
    if rows != [] {
      match Calendar.ParseDate(StrOrder.Min(Map(rows, StartDateOf)))
      case Some(d) =>
        IsoInstantUnescaped(d);
      case None =>
    }
  }

  lemma FallbackUnescaped()
    ensures '%' !in FallbackBookingDate
  {
    var f := FallbackBookingDate;
    forall k | 0 <= k < |f| ensures f[k] != '%' {
    }
  }

  lemma IsoInstantUnescaped(d: Calendar.Date)
    requires Calendar.ValidDate(d)
    ensures '%' !in Calendar.IsoInstant(d)
  {
    var y, m, dd := PadNat(d.year, 4), PadNat(d.month, 2), PadNat(d.day, 2);
    DigitsUnescaped(y);
    DigitsUnescaped(m);
    DigitsUnescaped(dd);
    var time := "T00:00:00.000Z";
    MidnightUnescaped();
    UnescapedConcat(y, "-");
    UnescapedConcat(y + "-", m);
    UnescapedConcat(y + "-" + m, "-");
    UnescapedConcat(y + "-" + m + "-", dd);
    UnescapedConcat(y + "-" + m + "-" + dd, time);
  }

  lemma MidnightUnescaped()
    ensures '%' !in "T00:00:00.000Z" && '%' !in "-"
  {
    var time := "T00:00:00.000Z";
    forall k | 0 <= k < |time| ensures time[k] != '%' {
    }
  }

  lemma UnescapedConcat(a: string, b: string)
    requires '%' !in a && '%' !in b
    ensures '%' !in a + b
  {
  }

  lemma DigitsUnescaped(s: string)
    requires AllDigits(s)
    ensures '%' !in s
  {
    forall i | 0 <= i < |s| ensures s[i] != '%' {
      assert IsDigit(s[i]);
    }
  }

  /** A level's booking link is the adult page with a query that decodes
      to the level's id and the block's earliest date. */
  lemma BookingLink(level: string, rows: seq<Course>)
    requires level in SkillLevelIds
    ensures SkillLevelIds[level] in {1, 2, 3, 4}
    ensures BookingButton(level, rows)
            == Button(AdultBookingUrl + "?" + BookingQuery(SkillLevelIds[level], ExtractEarliestDate(rows)), "Book " + level)
    ensures PercentDecode(BookingQuery(SkillLevelIds[level], ExtractEarliestDate(rows)))
            == "skill-level" + "[]" + "=" + IntToString(SkillLevelIds[level]) + "&date-range[]="
               + "\"" + ExtractEarliestDate(rows) + "\""
  {
    LevelIds(level);
    var date := ExtractEarliestDate(rows);
    assert BookingButton(level, rows) == LevelButton(level, date);
    BookingQueryDecodes(SkillLevelIds[level], date);
  }

  lemma LevelIds(level: string)
    requires level in SkillLevelIds
    ensures SkillLevelIds[level] in {1, 2, 3, 4}
  {
  }

  /** A known level's button determines its link date. */
  lemma LevelButtonInjective(level: string, d1: string, d2: string)
    requires level in SkillLevelIds
    ensures LevelButton(level, d1) == LevelButton(level, d2) <==> d1 == d2
  {
    var id := SkillLevelIds[level];
    var head := "skill-level" + "%5B%5D" + "=" + IntToString(id) + "&date-range[]=" + "%22";
    var url := AdultBookingUrl + "?";
    var text := "Book " + level;
    var open := "\n        <p style=\"text-align: center;\">\n            <a href=\"";
    var close := "</a>\n        </p>\n        ";
    var mid := "\" class=\"cta-button\">";
    assert LevelButton(level, d1) == (((open + (url + ((head + d1) + "%22"))) + mid) + text) + close;
    assert LevelButton(level, d2) == (((open + (url + ((head + d2) + "%22"))) + mid) + text) + close;
    Regroup(open, url, head, d1, "%22", mid, text, close);
    Regroup(open, url, head, d2, "%22", mid, text, close);
    if LevelButton(level, d1) == LevelButton(level, d2) {
      CancelEnds(open + url + head, d1, d2, "%22" + mid + text + close);
    }
  }

  lemma Regroup(p: string, u: string, h: string, d: string, g: string, m: string, t: string, e: string)
    ensures (((p + (u + ((h + d) + g))) + m) + t) + e == (p + u + h) + d + (g + m + t + e)
  {
  }

  /** Different days print as different instants. */
  lemma IsoInstantInjective(d1: Calendar.Date, d2: Calendar.Date)
    requires Calendar.ValidDate(d1) && Calendar.ValidDate(d2)
    ensures Calendar.IsoInstant(d1) == Calendar.IsoInstant(d2) <==> d1 == d2
  {
    var t1, t2 := Calendar.YearMonthDayText(d1), Calendar.YearMonthDayText(d2);
    var midnight := "T00:00:00.000Z";
    assert Calendar.IsoInstant(d1) == [] + t1 + midnight;
    assert Calendar.IsoInstant(d2) == [] + t2 + midnight;
    if Calendar.IsoInstant(d1) == Calendar.IsoInstant(d2) {
      CancelEnds([], t1, t2, midnight);
      Calendar.ParseYearMonthDayText(d1);
      Calendar.ParseYearMonthDayText(d2);
    }
  }

  /** On the sample start dates the program's booking button and the
      corrected one differ, for every known level. */
  lemma BookingButtonFinding(level: string, c1: Course, c2: Course, d1: Calendar.Date, d2: Calendar.Date)
    requires level in SkillLevelIds
    requires d1 == Calendar.Date(2025, 9, 1) && d2 == Calendar.Date(2025, 8, 4)
    requires c1.startDate == Calendar.DayMonthYearText(d1)
    requires c2.startDate == Calendar.DayMonthYearText(d2)
    ensures BookingButton(level, [c1, c2]) != BookingButtonIntended(level, [c1, c2])
  {
    assert Calendar.ValidDate(d1) && Calendar.ValidDate(d2);
    EarliestDateFinding(c1, c2, d1, d2);
    IsoInstantInjective(d1, d2);
  }

  /** With a single row the program's date and the corrected one agree. */
  lemma SingleRowAgrees(c: Course)
    ensures ExtractEarliestDate([c]) == EarliestBookingDate([c])
  {
    assert Map([c], StartDateOf) == [c.startDate];
    assert StrOrder.Min([c.startDate]) == c.startDate;
    assert [c][..0] == [];
    assert EarliestParsed([c][..0]) == None;
  }

  /** The earliest date is the least start date as a string, parsed and
      printed, or the fallback when that string is not a date. */
  lemma EarliestDateIsLeast(rows: seq<Course>)
    requires rows != []
    ensures exists c :: (c in rows && (forall o :: o in rows ==> StrOrder.LessEq(c.startDate, o.startDate))
                         && ExtractEarliestDate(rows)
                            == (match Calendar.ParseDate(c.startDate)
                                case Some(d) => Calendar.IsoInstant(d)
                                case None => FallbackBookingDate))
  {
    var starts := Map(rows, StartDateOf);
    var m := StrOrder.Min(starts);
    var i :| 0 <= i < |starts| && starts[i] == m;
    var c := rows[i];
    forall o | o in rows ensures StrOrder.LessEq(c.startDate, o.startDate) {
      var k :| 0 <= k < |rows| && rows[k] == o;
      assert starts[k] == o.startDate;
    }
  }

  /** Strings whose first two characters already differ compare by them. */
  lemma TwoCharLess(s: string, t: string)
    requires |s| >= 2 && |t| >= 2
    requires s[0] < t[0] || (s[0] == t[0] && s[1] < t[1])
    ensures StrOrder.Less(s, t)
  {
    if s[0] == t[0] {
      assert s[1..][0] == s[1] && t[1..][0] == t[1];
    }
  }

  /** Two-digit fields compare as strings the way their numbers compare. */
  lemma TwoDigitLess(a: nat, b: nat)
    requires a < b < 100
    ensures var p, q := PadNat(a, 2), PadNat(b, 2);
            |p| == 2 && |q| == 2 && (p[0] < q[0] || (p[0] == q[0] && p[1] < q[1]))
  {
    TwoDigitValue(PadNat(a, 2));
    TwoDigitValue(PadNat(b, 2));
  }

  /** The value of two digits. */
  lemma TwoDigitValue(p: string)
    requires |p| == 2 && AllDigits(p)
    ensures DigitsValue(p) == 10 * DigitValue(p[0]) + DigitValue(p[1])
  {
    assert p[..1][..0] == [];
    assert p[..|p| - 1] == p[..1];
  }

  /** The least start date is taken as text, not as a date: with day-first
      dates the row with the smaller day of the month wins whatever the
      months and years, so 01/12/2025 is taken before 02/01/2025. */
  lemma EarliestByDayOfMonth(c1: Course, c2: Course, d1: Calendar.Date, d2: Calendar.Date)
    requires Calendar.ValidDate(d1) && Calendar.ValidDate(d2) && d1.day < d2.day
    requires c1.startDate == Calendar.DayMonthYearText(d1)
    requires c2.startDate == Calendar.DayMonthYearText(d2)
    ensures ExtractEarliestDate([c1, c2]) == Calendar.IsoInstant(d1)
  {
    var s1, s2 := c1.startDate, c2.startDate;
    DayFirstLess(d1, d2);
    var starts := Map([c1, c2], StartDateOf);
    assert starts == [s1, s2];
    StrOrder.MinUnique(starts, s1);
    Calendar.ParseDayMonthYearText(d1);
  }

  lemma DayFirstLess(d1: Calendar.Date, d2: Calendar.Date)
    requires Calendar.ValidDate(d1) && Calendar.ValidDate(d2) && d1.day < d2.day
    ensures StrOrder.Less(Calendar.DayMonthYearText(d1), Calendar.DayMonthYearText(d2))
  {
    var p, q := PadNat(d1.day, 2), PadNat(d2.day, 2);
    TwoDigitLess(d1.day, d2.day);
    var s, t := Calendar.DayMonthYearText(d1), Calendar.DayMonthYearText(d2);
    assert s[0] == p[0] && s[1] == p[1];
    assert t[0] == q[0] && t[1] == q[1];
    TwoCharLess(s, t);
  }

  /** The corrected date comes from a row whose start date parses, and no
      parsed start date is earlier. */
  lemma {:induction false} EarliestParsedIsLeast(rows: seq<Course>) returns (i: nat)
    requires EarliestParsed(rows).Some?
    ensures i < |rows| && Calendar.ParseDate(rows[i].startDate) == EarliestParsed(rows)
    ensures forall o :: o in rows && Calendar.ParseDate(o.startDate).Some? ==>
              !Calendar.Before(Calendar.ParseDate(o.startDate).value, EarliestParsed(rows).value)
    decreases |rows|
  {
    var n := |rows| - 1;
    var init, last := rows[..n], rows[n];
    assert rows == init + [last];
    var prev := EarliestParsed(init);
    var least := EarliestParsed(rows).value;
    if prev.Some? {
      var j := EarliestParsedIsLeast(init);
      if least == prev.value {
        i := j;
      } else {
        i := n;
      }
    } else {
      i := n;
      assert forall o :: o in init ==> Calendar.ParseDate(o.startDate).None? by {
        EarliestParsedNone(init);
      }
    }
  }

  /** The fallback is used exactly when no start date parses. */
  lemma {:induction false} EarliestParsedNone(rows: seq<Course>)
    ensures EarliestParsed(rows).None? <==> forall o :: o in rows ==> Calendar.ParseDate(o.startDate).None?
    decreases |rows|
  {
    if rows != [] {
      var n := |rows| - 1;
      assert rows == rows[..n] + [rows[n]];
      EarliestParsedNone(rows[..n]);
    }
  }

  /** Start dates 01/09/2025 and 04/08/2025: the string minimum takes the
      first of September, the earliest date is the fourth of August. */
  lemma EarliestDateFinding(c1: Course, c2: Course, d1: Calendar.Date, d2: Calendar.Date)
    requires d1 == Calendar.Date(2025, 9, 1) && d2 == Calendar.Date(2025, 8, 4)
    requires c1.startDate == Calendar.DayMonthYearText(d1)
    requires c2.startDate == Calendar.DayMonthYearText(d2)
    ensures Calendar.Before(d2, d1)
    ensures ExtractEarliestDate([c1, c2]) == Calendar.IsoInstant(d1)
    ensures EarliestBookingDate([c1, c2]) == Calendar.IsoInstant(d2)
  {
    assert Calendar.ValidDate(d1) && Calendar.ValidDate(d2) && d1.day < d2.day;
    EarliestByDayOfMonth(c1, c2, d1, d2);
    assert EarliestParsed([c1, c2]) == Some(d2) by {
      Calendar.ParseDayMonthYearText(d1);
      Calendar.ParseDayMonthYearText(d2);
      EarliestOfTwo(c1, c2, d1, d2);
    }
  }

  lemma EarliestOfTwo(c1: Course, c2: Course, d1: Calendar.Date, d2: Calendar.Date)
    requires Calendar.ParseDate(c1.startDate) == Some(d1) && Calendar.ParseDate(c2.startDate) == Some(d2)
    requires Calendar.Before(d2, d1)
    ensures EarliestParsed([c1, c2]) == Some(d2)
  {
    assert [c1, c2][..1] == [c1];
    assert EarliestParsed([c1]) == Some(d1) by {
      assert [c1][..0] == [];
    }
  }

  // ---------------------------------------------------------------------
  // _generate_junior_explanation

  const AgeGroupsHeading: string := "<p><strong>Age Groups:</strong></p>"
  const AvailableHeading: string := "<p><strong>Available Courses:</strong></p>"

  function ListItem(s: string): string {
    "<li>" + s + "</li>"
  }

  /** The age-group legend: one item per `JUNIOR_COLORS` entry, in order. */
  function Legend(): seq<string> {
    [AgeGroupsHeading, "<ul>"] + Map(JuniorColors, ListItem) + ["</ul>"]
  }

  function NameOf(c: Course): string {
    c.name
  }

  predicate NonEmpty(s: string) {
    s != ""
  }

  /** The course names the explanation lists: the non-empty ones, in row order. */
  function JuniorNames(rows: seq<Course>): seq<string> {
    Filter(Map(rows, NameOf), NonEmpty)
  }

  /** The parts `_generate_junior_explanation` returns. */
  function JuniorExplanation(rows: seq<Course>): seq<string> {
    var names := JuniorNames(rows);
    if names == [] then Legend()
    else Legend() + [AvailableHeading, "<ul>"] + Map(names, ListItem) + ["</ul>"]
  }

  /** `_generate_junior_explanation` */
  method GenerateJuniorExplanation(rows: seq<Course>) returns (parts: seq<string>)
    ensures parts == JuniorExplanation(rows)
  {
    var names := CollectJuniorNames(rows);
    parts := Legend();
    if names != [] {
      parts := parts + [AvailableHeading, "<ul>"] + Map(names, ListItem) + ["</ul>"];
    }
  }

  /** The loop of `_generate_junior_explanation` that gathers the names. */
  method CollectJuniorNames(rows: seq<Course>) returns (names: seq<string>)
    ensures names == JuniorNames(rows)
  {
    names := [];
    for k := 0 to |rows|
      invariant names == JuniorNames(rows[..k])
    {
      NamesSnoc(rows[..k + 1]);
      assert rows[..k + 1][..k] == rows[..k];
      if rows[k].name != "" {
        names := names + [rows[k].name];
      }
    }
    assert rows[..|rows|] == rows;
  }

  lemma NamesSnoc(rows: seq<Course>)
    requires rows != []
    ensures JuniorNames(rows) == JuniorNames(rows[..|rows| - 1])
              + (if rows[|rows| - 1].name != "" then [rows[|rows| - 1].name] else [])
  {
    var m := Map(rows, NameOf);
    assert m[..|m| - 1] == Map(rows[..|rows| - 1], NameOf);
  }

  lemma LegendShape()
    ensures |Legend()| == 7 && Legend()[0] == AgeGroupsHeading && Legend()[1] == "<ul>" && Legend()[6] == "</ul>"
    ensures forall i :: 0 <= i < 4 ==> Legend()[2 + i] == ListItem(JuniorColors[i])
  {
    var m := Map(JuniorColors, ListItem);
    assert |JuniorColors| == 4;
    forall i | 0 <= i < 4 ensures Legend()[2 + i] == ListItem(JuniorColors[i]) {
      assert Legend()[2 + i] == m[i];
    }
  }

  /** The listed names are exactly the non-empty course names, in row order. */
  lemma JuniorNamesListed(rows: seq<Course>)
    ensures forall n :: n in JuniorNames(rows) <==> n != "" && exists c :: c in rows && c.name == n
    ensures IsSubsequence(JuniorNames(rows), Map(rows, NameOf))
  {
    FilterIsSubsequence(Map(rows, NameOf), NonEmpty);
    forall n ensures n in JuniorNames(rows) <==> n != "" && exists c :: c in rows && c.name == n {
      MapIn(rows, NameOf, n);
      if n != "" && n in Map(rows, NameOf) {
        FilterKeeps(Map(rows, NameOf), NonEmpty, n);
      }
    }
  }

  /** The explanation always opens with the four-colour legend in
      Blue, Red, Orange, Green order; the course list follows exactly when
      some row has a name, with one item per listed name. */
  lemma JuniorExplanationShape(rows: seq<Course>)
    ensures var e := JuniorExplanation(rows);
            |e| >= 7 && e[..7] == Legend()
            && (forall i :: 0 <= i < 4 ==> e[2 + i] == ListItem(JuniorColors[i]))
            && (|e| == 7 <==> forall c :: c in rows ==> c.name == "")
            && (|e| > 7 ==> |e| == 10 + |JuniorNames(rows)|
                            && forall i :: 0 <= i < |JuniorNames(rows)| ==> e[9 + i] == ListItem(JuniorNames(rows)[i]))
  {
    var names := JuniorNames(rows);
    JuniorNamesListed(rows);
    ExplanationOfNames(names);
    if names == [] {
      forall c | c in rows ensures c.name == "" {
        NameListed(rows, c);
      }
    } else {
      assert names[0] in names;
      var c :| c in rows && c.name == names[0];
      assert c.name != "";
    }
  }

  lemma NameListed(rows: seq<Course>, c: Course)
    requires c in rows
    ensures c.name != "" ==> c.name in JuniorNames(rows)
  {
    JuniorNamesListed(rows);
  }

  /** The explanation for a given list of names, whatever rows they came from. */
  lemma ExplanationOfNames(names: seq<string>)
    ensures var e := if names == [] then Legend()
                     else Legend() + [AvailableHeading, "<ul>"] + Map(names, ListItem) + ["</ul>"];
            |e| >= 7 && e[..7] == Legend()
            && (forall i :: 0 <= i < 4 ==> e[2 + i] == ListItem(JuniorColors[i]))
            && (|e| == 7 <==> names == [])
            && (|e| > 7 ==> |e| == 10 + |names|
                            && forall i :: 0 <= i < |names| ==> e[9 + i] == ListItem(names[i]))
  {
    LegendShape();
    if names != [] {
      var items := Map(names, ListItem);
      var tail := [AvailableHeading, "<ul>"] + items + ["</ul>"];
      var e := Legend() + tail;
      assert e[..7] == Legend();
      forall i | 0 <= i < |names| ensures e[9 + i] == ListItem(names[i]) {
        assert e[9 + i] == tail[2 + i] == items[i];
      }
    }
  }

  // ---------------------------------------------------------------------
  // generate_course_block and generate_events_block

  /** `BLOCK_CONFIGS.get(block_type, BLOCK_CONFIGS['adults'])` */
  function BlockConfigFor(blockType: string): (config: BlockConfig)
    ensures blockType !in {"adults", "juniors"} ==> config == BlockConfig("Adult Courses", BySkillLevel, true)
  {
    if blockType in BlockConfigs then BlockConfigs[blockType] else BlockConfigs["adults"]
  }

  /** The parts of a non-empty course block. */
  function CourseBlockParts(llm: Option<Helper>, rows: seq<Course>, blockType: string): seq<string> {
    var config := BlockConfigFor(blockType);
    if blockType == "juniors" then
      ["<h2>" + config.title + "</h2>"] + JuniorExplanation(rows) + [JuniorBookingButton()]
    else
      ["<h2>" + config.title + "</h2>"] + CourseList(llm, rows, config.groupBy, config.includeVenue)
  }

  function CourseBlock(llm: Option<Helper>, rows: seq<Course>, blockType: string): string {
    if rows == [] then "" else Join(CourseBlockParts(llm, rows, blockType), "\n")
  }

  /** `generate_course_block` */
  method GenerateCourseBlock(llm: Option<Helper>, rows: seq<Course>, blockType: string) returns (html: string)
    ensures html == CourseBlock(llm, rows, blockType)
  {
    if rows == [] {
      return "";
    }
    var config := BlockConfigFor(blockType);
    var extra: seq<string> := [];
    if blockType == "juniors" {
      extra := GenerateJuniorExplanation(rows);
    }
    var parts := ["<h2>" + config.title + "</h2>"];
    if extra != [] {
      parts := parts + extra;
    }
    if blockType != "juniors" {
      var list := GenerateCourseList(llm, rows, config.groupBy, config.includeVenue);
      parts := parts + list;
    }
    if blockType == "juniors" {
      parts := parts + [JuniorBookingButton()];
    }
    html := Join(parts, "\n");
  }

  /** An empty block renders as nothing; any other block opens with its
      `<h2>` title, and a type with no configuration of its own is shown
      as adult courses grouped by skill level. */
  lemma CourseBlockTitle(llm: Option<Helper>, rows: seq<Course>, blockType: string)
    ensures rows == [] <==> CourseBlock(llm, rows, blockType) == ""
    ensures rows != [] ==> StartsWith(CourseBlock(llm, rows, blockType), "<h2>" + BlockConfigFor(blockType).title + "</h2>")
    ensures blockType !in {"adults", "juniors"} ==>
              CourseBlock(llm, rows, blockType) == CourseBlock(llm, rows, "adults")
  {
    if rows != [] {
      BlockOpensWithTitle(llm, rows, blockType);
    }
    if blockType !in {"adults", "juniors"} {
      DefaultBlockParts(llm, rows, blockType);
    }
  }

  lemma BlockOpensWithTitle(llm: Option<Helper>, rows: seq<Course>, blockType: string)
    requires rows != []
    ensures StartsWith(CourseBlock(llm, rows, blockType), "<h2>" + BlockConfigFor(blockType).title + "</h2>")
  {
    var parts := CourseBlockParts(llm, rows, blockType);
    assert parts[0] == "<h2>" + BlockConfigFor(blockType).title + "</h2>";
    JoinStartsWith(parts, "\n");
  }

  lemma DefaultBlockParts(llm: Option<Helper>, rows: seq<Course>, blockType: string)
    requires blockType !in {"adults", "juniors"}
    ensures CourseBlockParts(llm, rows, blockType) == CourseBlockParts(llm, rows, "adults")
  {
    assert BlockConfigFor("adults") == BlockConfigFor(blockType);
  }

  /** `"\n".join(parts)` starts with the first part. */
  lemma JoinStartsWith(parts: seq<string>, sep: string)
    requires parts != []
    ensures StartsWith(Join(parts, sep), parts[0])
  {
    if |parts| > 1 {
      assert Join(parts, sep) == parts[0] + (sep + Join(parts[1..], sep));
    }
  }

  /** A junior block shows the legend, the names and the junior booking
      button, and nothing about dates, times, venues or levels: two blocks
      whose rows carry the same names render the same. */
  lemma JuniorBlockIgnoresDetails(llm: Option<Helper>, llm2: Option<Helper>, rows: seq<Course>, rows2: seq<Course>)
    requires |rows| == |rows2| && rows != []
    requires forall i :: 0 <= i < |rows| ==> rows[i].name == rows2[i].name
    ensures CourseBlock(llm, rows, "juniors") == CourseBlock(llm2, rows2, "juniors")
  {
    assert Map(rows, NameOf) == Map(rows2, NameOf);
    assert JuniorExplanation(rows) == JuniorExplanation(rows2);
  }

  /** The parts of a non-empty events block. */
  function EventsBlockParts(llm: Option<Helper>, rows: seq<Course>): seq<string> {
    (if llm.Some? then ["<p>" + GenerateBlockDescription(llm.value, "events") + "</p>"] else [])
    + CourseList(llm, rows, NoGrouping, true)
  }

  function EventsBlock(llm: Option<Helper>, rows: seq<Course>): string {
    if rows == [] then "" else Join(EventsBlockParts(llm, rows), "\n")
  }

  /** `generate_events_block` */
  method GenerateEventsBlock(llm: Option<Helper>, rows: seq<Course>) returns (html: string)
    ensures html == EventsBlock(llm, rows)
  {
    if rows == [] {
      return "";
    }
    var parts: seq<string> := [];
    if llm.Some? {
      var description := GenerateBlockDescription(llm.value, "events");
      parts := parts + ["<p>" + description + "</p>"];
    }
    var list := GenerateCourseList(llm, rows, NoGrouping, true);
    parts := parts + list;
    html := Join(parts, "\n");
  }

  /** An events block is one flat list with the venue on every item, one
      item per row in row order, after the intro paragraph a helper gives. */
  lemma EventsBlockShape(llm: Option<Helper>, rows: seq<Course>)
    requires rows != []
    ensures var parts := EventsBlockParts(llm, rows);
            var k := if llm.Some? then 1 else 0;
            |parts| == k + |rows| + 2 && parts[k] == "<ul>" && parts[|parts| - 1] == "</ul>"
            && (forall i :: 0 <= i < |rows| ==> parts[k + 1 + i] == FormatCourseItem(rows[i], true))
            && (llm.Some? ==> parts[0] == "<p>" + GenerateBlockDescription(llm.value, "events") + "</p>")
  {
    var list := CourseList(llm, rows, NoGrouping, true);
    FlatList(llm, rows, true);
    if llm.Some? {
      var intro := ["<p>" + GenerateBlockDescription(llm.value, "events") + "</p>"];
      IntroThenList(intro, list, rows);
      assert EventsBlockParts(llm, rows) == intro + list;
    } else {
      IntroThenList([], list, rows);
      assert EventsBlockParts(llm, rows) == [] + list;
    }
  }

  lemma IntroThenList(intro: seq<string>, list: seq<string>, rows: seq<Course>)
    requires |intro| <= 1
    requires |list| == |rows| + 2 && list[0] == "<ul>" && list[|list| - 1] == "</ul>"
    requires forall i :: 0 <= i < |rows| ==> list[1 + i] == FormatCourseItem(rows[i], true)
    ensures var parts := intro + list;
            var k := |intro|;
            |parts| == k + |rows| + 2 && parts[k] == "<ul>" && parts[|parts| - 1] == "</ul>"
            && (forall i :: 0 <= i < |rows| ==> parts[k + 1 + i] == FormatCourseItem(rows[i], true))
            && (k == 1 ==> parts[0] == intro[0])
  {
    var parts := intro + list;
    forall i | 0 <= i < |rows| ensures parts[|intro| + 1 + i] == FormatCourseItem(rows[i], true) {
      assert parts[|intro| + 1 + i] == list[1 + i];
    }
  }

  /** Without a key the events intro is the fixed events description. */
  lemma EventsFallback(h: Helper)
    requires !h.hasKey
    ensures GenerateBlockDescription(h, "events") == FallbackDescriptions["events"]
  {
    NoKeyFallbacks(h, "", "events", "", "", "");
  }

  /** The ungrouped list: one item per row, in row order, inside `<ul>`. */
  lemma FlatList(llm: Option<Helper>, rows: seq<Course>, includeVenue: bool)
    ensures var l := CourseList(llm, rows, NoGrouping, includeVenue);
            |l| == |rows| + 2 && l[0] == "<ul>" && l[|l| - 1] == "</ul>"
            && forall i :: 0 <= i < |rows| ==> l[1 + i] == FormatCourseItem(rows[i], includeVenue)
  {
    var items := ListItems(rows, includeVenue);
    assert CourseList(llm, rows, NoGrouping, includeVenue) == ["<ul>"] + items + ["</ul>"];
    Bracketed("<ul>", items, "</ul>");
  }

  lemma Bracketed(open: string, items: seq<string>, close: string)
    ensures var l := [open] + items + [close];
            |l| == |items| + 2 && l[0] == open && l[|l| - 1] == close
            && forall i :: 0 <= i < |items| ==> l[1 + i] == items[i]
  {
  }

  // ---------------------------------------------------------------------
  // generate_newsletter_html

  /** Python truthiness of an optional string. */
  predicate Truthy(s: Option<string>) {
    s.Some? && s.value != ""
  }

  /** `block.strip()` is truthy. */
  predicate NonBlank(block: string) {
    Strip(block) != ""
  }

  function SummaryHtml(summary: string): string {
    "\n        <div style=\"margin: 40px 0;\">\n          <p>" + summary + "</p>\n        </div>\n        "
  }

  /** The parts joined into the newsletter: the wrapper, then the title and
      the summary when there is a summary, then the blocks that are not
      blank, then the closing tag. */
  function NewsletterParts(blocks: seq<string>, subject: Option<string>, summary: Option<string>): seq<string> {
    var head :=
      if Truthy(summary) then
        [WrapperOpen] + (if Truthy(subject) then ["<h1>" + subject.value + "</h1>"] else []) + [SummaryHtml(summary.value)]
      else [WrapperOpen];
    head + Filter(blocks, NonBlank) + ["</div>"]
  }

  /** The blocks that are not blank, in order. */
  method AppendBlocks(parts: seq<string>, blocks: seq<string>) returns (r: seq<string>)
    ensures r == parts + Filter(blocks, NonBlank)
  {
    r := parts;
    ghost var kept: seq<string> := [];
    for k := 0 to |blocks|
      invariant kept == Filter(blocks[..k], NonBlank)
      invariant r == parts + kept
    {
      FilterStep(blocks, NonBlank, k);
      if NonBlank(blocks[k]) {
        AppendAssoc(parts, kept, blocks[k]);
        r := r + [blocks[k]];
        kept := kept + [blocks[k]];
      }
    }
    assert blocks[..|blocks|] == blocks;
  }

  /** `generate_newsletter_html`. The helper branch asks the helper for
      `generate_newsletter_summary_from_html`, which `LLMHelper` does not
      define; the `AttributeError` is caught, so a helper never adds a
      summary and only a custom summary does. */
  method GenerateNewsletterHtml(blocks: seq<string>, subject: Option<string>, llm: Option<Helper>,
                                customSummary: Option<string>) returns (html: string)
    ensures html == Join(NewsletterParts(blocks, subject, customSummary), "\n")
  {
    var parts := AppendBlocks([WrapperOpen], blocks);
    parts := parts + ["</div>"];
    html := Join(parts, "\n");
    if Truthy(customSummary) {
      var summaryHtml := SummaryHtml(customSummary.value);
      parts := [WrapperOpen];
      if Truthy(subject) {
        parts := parts + ["<h1>" + subject.value + "</h1>"];
      } else {
        assert parts == [WrapperOpen] + [];
      }
      parts := parts + [summaryHtml];
      ghost var head := parts;
      parts := AppendBlocks(parts, blocks);
      parts := parts + ["</div>"];
      assert parts == head + Filter(blocks, NonBlank) + ["</div>"];
      html := Join(parts, "\n");
    } else {
      assert parts == NewsletterParts(blocks, subject, customSummary);
    }
  }

  /** The title shows only together with a summary, the summary comes
      before every block, and the blocks follow in order. */
  lemma NewsletterOrder(blocks: seq<string>, subject: Option<string>, summary: Option<string>)
    ensures var parts := NewsletterParts(blocks, subject, summary);
            var k := if !Truthy(summary) then 1 else if Truthy(subject) then 3 else 2;
            |parts| == k + |Filter(blocks, NonBlank)| + 1
            && parts[0] == WrapperOpen && parts[|parts| - 1] == "</div>"
            && parts[k..|parts| - 1] == Filter(blocks, NonBlank)
            && (Truthy(summary) ==> parts[k - 1] == SummaryHtml(summary.value))
            && (Truthy(summary) && Truthy(subject) ==> parts[1] == "<h1>" + subject.value + "</h1>")
  {
    var kept := Filter(blocks, NonBlank);
    var head :=
      if Truthy(summary) then
        [WrapperOpen] + (if Truthy(subject) then ["<h1>" + subject.value + "</h1>"] else []) + [SummaryHtml(summary.value)]
      else [WrapperOpen];
    var parts := head + kept + ["</div>"];
    assert NewsletterParts(blocks, subject, summary) == parts;
    assert parts[|head|..|parts| - 1] == kept;
  }

  /** Blank blocks are dropped and the others keep their order. */
  lemma KeptBlocks(blocks: seq<string>)
    ensures forall b :: b in Filter(blocks, NonBlank) <==> b in blocks && NonBlank(b)
    ensures IsSubsequence(Filter(blocks, NonBlank), blocks)
  {
    FilterIsSubsequence(blocks, NonBlank);
    forall b | b in blocks && NonBlank(b) ensures b in Filter(blocks, NonBlank) {
      FilterKeeps(blocks, NonBlank, b);
    }
  }

  /** Without a summary the subject changes nothing: the page is the
      wrapper around the non-blank blocks. */
  lemma NoSummaryNoTitle(blocks: seq<string>, subject: Option<string>, summary: Option<string>)
    requires !Truthy(summary)
    ensures NewsletterParts(blocks, subject, summary) == [WrapperOpen] + Filter(blocks, NonBlank) + ["</div>"]
    ensures NewsletterParts(blocks, subject, summary) == NewsletterParts(blocks, None, None)
  {
  }

  // The summary the helper branch evidently means to add, from
  // `generate_newsletter_summary` on the page built so far.

  /** The summary shown: a custom one, else the helper's, if it says anything. */
  function IntendedSummary(blocks: seq<string>, llm: Option<Helper>, customSummary: Option<string>): (s: Option<string>)
    ensures Truthy(customSummary) ==> s == customSummary
    ensures !Truthy(customSummary) && llm.None? ==> s == None
  {
    if Truthy(customSummary) then customSummary
    else if llm.None? then None
    else GenerateNewsletterSummary(llm.value, Join(NewsletterParts(blocks, None, None), "\n"))
  }

  function NewsletterHtmlIntended(blocks: seq<string>, subject: Option<string>, llm: Option<Helper>,
                                  customSummary: Option<string>): string {
    Join(NewsletterParts(blocks, subject, IntendedSummary(blocks, llm, customSummary)), "\n")
  }

  /** The draft and the final page pass no helper, and without one the
      corrected page is the page as written. */
  lemma IntendedWithoutHelper(blocks: seq<string>, subject: Option<string>, customSummary: Option<string>)
    ensures NewsletterHtmlIntended(blocks, subject, None, customSummary)
            == Join(NewsletterParts(blocks, subject, customSummary), "\n")
  {
    if !Truthy(customSummary) {
      NoSummaryNoTitle(blocks, subject, customSummary);
    }
  }

  /** As written, a helper without a key adds nothing; as intended, it
      adds the fixed fallback summary under the title. */
  lemma HelperSummaryDropped(h: Helper, blocks: seq<string>, subject: string)
    requires !h.hasKey && subject != ""
    ensures NewsletterParts(blocks, Some(subject), None)
            == [WrapperOpen] + Filter(blocks, NonBlank) + ["</div>"]
    ensures NewsletterParts(blocks, Some(subject), IntendedSummary(blocks, Some(h), None))
            == [WrapperOpen, "<h1>" + subject + "</h1>", SummaryHtml(FallbackNewsletterSummary)]
               + Filter(blocks, NonBlank) + ["</div>"]
  {
    assert FallbackNewsletterSummary != "";
    assert IntendedSummary(blocks, Some(h), None) == Some(FallbackNewsletterSummary);
  }
}
