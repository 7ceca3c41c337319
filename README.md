# Vamos Tennis newsletter generator — verified model

This project models the deterministic core of the Vamos Tennis newsletter
generator, a Streamlit tool. The tool turns a ClubSpark coaching export
(CSV) plus up to three hand-entered events into newsletter HTML. The
model covers four parts:

- **Record pipeline** (`csv_processor.dfy`, module `CsvProcessor`, with
  `calendar.dfy` for the `strptime`/`strftime` subset it uses):
  - the header check against the eight required columns;
  - the "upcoming" status filter;
  - trimming and count coercion;
  - the derived columns (venue, skill level, limited spots, long start
    date, duration text);
  - the category filters and the content-type summary.
- **Block composer and assembler** (`html_generator.dfy`, module
  `HtmlGenerator`):
  - 12-hour time labels and list items with their two spot badges;
  - grouping by skill level or venue;
  - booking links, with percent-encoding as in section 2.1 of RFC 3986
    and dates printed in the form of section 5.6 of RFC 3339;
  - the junior legend;
  - course and event blocks;
  - the outer wrapper with its coupled title and summary.
- **Text utilities of the model helper** (`llm_helper.dfy`, module
  `LlmHelper`):
  - response cleaning (quotes, list numbering, dash prefixes, and the
    exception a blank line raises);
  - tag stripping and whitespace collapsing;
  - the fixed fallbacks used without an API key.

  The language model itself is an oracle: a function from prompt to
  optional reply.
- **Page flow** (`app.dfy`, module `App`, and `draft.dfy`, module `Draft`):
  - events built from the three input slots;
  - the content order kept in the session: its first value, its
    reconciliation on every rerun, and the Move Up / Move Down buttons;
  - dispatch of each order key to a block;
  - the HTML of a single event;
  - the draft page.

Helper modules:
- `wrappers.dfy`: `Option`, `Result`.
- `text.dfy`: the Python `str` operations used, over ASCII.
- `strorder.dfy`: code-point order, minimum, sorted distinct keys.
- `seqs.dfy`: filter, map, subsequence.

Stateful or looping source code is modelled as methods proved against
specification functions:
- `process_csv`, `_clean_data` and `_add_derived_columns`;
- the `html_parts` loops;
- `_clean_llm_response`;
- the event loop, the order loops and the session class.

The specification functions then carry the lemmas.

Where the code and the behaviour one might expect differ, the model
follows the code:
- Reconciliation keeps the course keys the session already holds. It
  never adds a newly available course type and never drops one that has
  gone (app.py:167).
- The booking date of a skill-level section comes from all the rows of
  the block, not from the section's group (html_generator.py:98).
- In the code as written, one unparseable minimum start date gives the
  fallback date, even when other rows hold valid dates.

The booking buttons the pipeline builds use the date as written. The
corrected booking date (see Findings) keeps the block-wide rows and
ignores the rows whose start date does not parse; the button built from
it is `HtmlGenerator.BookingButtonIntended`, and no page uses it.

## Model

| member | source | states |
|---|---|---|
| CsvProcessor.ProcessCsv | csv_processor.py:22-45 | the result is the specification `Load`: a missing-columns failure, else a no-upcoming failure, else the cleaned table with derived columns |
| CsvProcessor.MissingColumnsOf | csv_processor.py:29 | the comprehension's loop yields exactly the required columns absent from the raw headers, in required order |
| CsvProcessor.MissingExact | csv_processor.py:29-31 | a name is reported missing iff it is required and not among the headers; the report is a subsequence of the required list |
| CsvProcessor.LoadMissingColumns | csv_processor.py:29-31 | loading fails with the missing list iff some required column is absent |
| CsvProcessor.HeadersCheckedBeforeTrimming | csv_processor.py:29-53 | a header " Name" does not satisfy the check, because trimming only happens later in `_clean_data` |
| CsvProcessor.NoneMissing | csv_processor.py:29-31 | with every required column present nothing is reported |
| CsvProcessor.UpcomingRows | csv_processor.py:34 | the filter loop keeps exactly the rows whose status lower-cases to "upcoming", in order |
| CsvProcessor.LoadUpcoming | csv_processor.py:34-37 | with all columns present, loading fails with "no upcoming programs" iff no row is upcoming; on success there is one course per upcoming row |
| CsvProcessor.UpcomingStatusUnpadded | csv_processor.py:34 | a status that passes the untrimmed comparison has no surrounding whitespace |
| CsvProcessor.CleanData | csv_processor.py:50-67 | the loops trim the headers and every string column and coerce both count columns of every row |
| CsvProcessor.CleanRowStripped | csv_processor.py:56-59 | after cleaning, Name, Type and Day have no surrounding whitespace |
| CsvProcessor.CoerceCountCases | csv_processor.py:62-65 | a non-integer cell counts as 0 and a printed integer reads back as itself |
| CsvProcessor.CoerceCount | csv_processor.py:62-65 | a cell that reads as an integer gives that integer; any other cell gives 0 |
| CsvProcessor.LoadedCoursesClean | csv_processor.py:34-59 | every loaded course is upcoming and has trimmed name, type and day |
| CsvProcessor.AddDerivedColumns | csv_processor.py:69-86 | the loop adds the five derived columns once each and derives every course from its row |
| CsvProcessor.VenueOf | csv_processor.py:88-97 | "Belair Park" iff the lower-cased name contains "belair"; "Dulwich Park" iff it contains "dulwich" and not "belair"; else "Unknown Venue" |
| CsvProcessor.SkillLevelOf | csv_processor.py:99-112 | the label is one of the four levels or "Unknown"; each label holds iff its word occurs in the lower-cased name and none of the earlier level words does ("Unknown" iff none of the four occurs) |
| CsvProcessor.SkillLevelFirstMatch | csv_processor.py:99-112 | for the i-th level of beginner, improver, intermediate, advanced: the label is that level iff its word occurs and none of the words before it does |
| CsvProcessor.FormatDate | csv_processor.py:114-125 | a text that parses prints as `DD Month YYYY`; any other text comes back unchanged |
| CsvProcessor.ExampleDate | csv_processor.py:114-123 | "04/08/2025" prints as "04 August 2025" |
| CsvProcessor.DurationPlural | csv_processor.py:84 | the text ends in "weeks" iff the count exceeds 1; 0 and 1 both say "week" |
| CsvProcessor.ExampleRow | csv_processor.py:69-86 | a sample Belair beginner row with 9 participants is Belair Park, Beginner, limited, "6 weeks", "04 August 2025" |
| CsvProcessor.GetContentTypes | csv_processor.py:127-172 | each category is available iff one of its rows exists, counts its rows, and adults list their distinct levels in first-seen order; drop-ins stay unavailable |
| Seqs.UniqueFirstSeen | csv_processor.py:155 | the distinct values come in the order of their first appearance in the input |
| CsvProcessor.EventsIsUnion | csv_processor.py:174-186 | a row is an event iff its type mentions event, session or drop or it has exactly one class |
| CsvProcessor.CoursesByType | csv_processor.py:174-186 | the selected rows are a subsequence of the input (input order kept), and each row occurs in it as often as in the input when the content type selects it and not at all otherwise: "adults" the adult rows, "juniors" the junior rows, "events" the event-like rows, any other type none |
| CsvProcessor.CategoriesOverlap | csv_processor.py:150-170 | a one-class adult row is both an adult course and an event |
| CsvProcessor.UnknownTypeSelectsNothing | csv_processor.py:185-186 | any other content type, `drop_ins` included, selects no rows |
| Calendar.ParseDate | csv_processor.py:118-121 | whatever parses is a date `datetime` accepts (month 1-12, day within its month, year 1-9999) |
| Calendar.ParseDayMonthYearText | csv_processor.py:118-119 | every valid date is read back from its zero-padded `DD/MM/YYYY` text |
| Calendar.ParseYearMonthDayText | csv_processor.py:120-121 | every valid date is read back from its zero-padded `YYYY-MM-DD` text |
| Calendar.LeapDay | csv_processor.py:119 | 29/02 of a year parses iff the year is a leap year |
| Calendar.LongDateFields | csv_processor.py:123 | the long form reads back: its first two characters read as a `%d` field give the day, its last four read as a `%Y` field give the year, and the month name stands between them |
| HtmlGenerator.HourLabelClock | html_generator.py:267-274 | the label of an hour 0-23 is its 12-hour clock value followed by am or pm |
| HtmlGenerator.TwentyFourHourTime | html_generator.py:261-277 | "HH:MM" becomes the 12-hour label of HH |
| HtmlGenerator.FormatTime | html_generator.py:261-277 | the text comes back unchanged or as a label ending in "am" or "pm"; unchanged when it has no colon, more than one colon, or an hour that does not read as an integer; otherwise the label of that hour |
| HtmlGenerator.LimitedBadge | html_generator.py:56 | the limited badge is present iff 7 <= spots < 10 |
| HtmlGenerator.FullBadge | html_generator.py:57 | the full badge is present iff spots >= 10 |
| HtmlGenerator.ItemBadges | html_generator.py:54-62 | an item ends in "(Full!)" iff spots >= 10, in "(Limited spots!)" iff 7 <= spots < 10, and with no badge iff spots < 7 |
| HtmlGenerator.FormatCourseItem | html_generator.py:48-62 | an item is one list element: with the venue shown it opens with the venue in bold, " - starting ", the start date, " at " and the 12-hour time; without it, it opens with `<li>` directly followed by the start date, " at " and the 12-hour time; it ends with the duration in parentheses, the spot badges and `</li>` |
| HtmlGenerator.ThresholdsDiffer | html_generator.py:56-57 | the derived limited-spots column and the limited badge disagree exactly at 7, 8 and 10 or more participants |
| HtmlGenerator.Rank | html_generator.py:78 | a known level ranks by its place in the level order; any other name ranks 999 |
| HtmlGenerator.GenerateCourseList | html_generator.py:64-117 | the parts are the grouped sections, or one flat `<ul>` list when no grouping is asked |
| HtmlGenerator.AppendSections | html_generator.py:80-99 | the loop over groups appends each group's section in turn |
| HtmlGenerator.AppendSection | html_generator.py:81-99 | one section: heading, level paragraph for skill groups, the group's items, `</ul>`, then the booking button for skill groups |
| HtmlGenerator.AppendItems | html_generator.py:93-94 | the loop appends one formatted item per row, in row order |
| HtmlGenerator.NamedKeys | html_generator.py:73-75 | the loop drops exactly the "Unknown" group |
| HtmlGenerator.ByRankOrder | html_generator.py:78 | the stable sort keeps the same groups and orders them by rank, then by name |
| HtmlGenerator.SkillGroupOrder | html_generator.py:71-78 | the skill groups are exactly the levels present except "Unknown", in rank-then-name order |
| HtmlGenerator.VenueGroupOrder | html_generator.py:102-105 | the venue groups are exactly the venues present except "Unknown", strictly sorted |
| HtmlGenerator.FlatList | html_generator.py:111-115 | the ungrouped list is `<ul>`, one item per row in order, `</ul>` |
| HtmlGenerator.ExtractEarliestDate | html_generator.py:217-235 | no rows give the fallback date |
| HtmlGenerator.EarliestDateIsLeast | html_generator.py:224-233 | the date is that of a row whose raw start text is the string minimum, or the fallback when that text does not parse |
| HtmlGenerator.EarliestByDayOfMonth | html_generator.py:224-228 | with day-first dates, the row with the smaller day of the month wins whatever the months and years |
| HtmlGenerator.EarliestDateFinding | html_generator.py:224-233 | start dates 01/09/2025 and 04/08/2025 give 2025-09-01 as written and 2025-08-04 when corrected |
| HtmlGenerator.EarliestParsedIsLeast | html_generator.py:217-235 | the corrected booking date is parsed from some row, and no parsed start date is earlier |
| HtmlGenerator.EarliestParsedNone | html_generator.py:234-235 | the corrected date falls back exactly when no start date parses |
| HtmlGenerator.BookingLink | html_generator.py:237-251 | a known level's button links to the adult page with a query that decodes to its id (one of 1-4) and the date `_extract_earliest_date` gives for the block |
| HtmlGenerator.BookingButton | html_generator.py:237-251 | an unknown level gets the plain "Book Your Place" button to the adult page; a known level gets its level button for the date `_extract_earliest_date` gives, which holds no `%` |
| HtmlGenerator.BookingButtonIntended | html_generator.py:237-251 | the button with the corrected date equals the program's button for an unknown level, and for a known level iff the two dates agree |
| HtmlGenerator.BookingButtonFinding | html_generator.py:224-251 | on start dates 01/09/2025 and 04/08/2025 the program's button and the corrected one differ, for every known level |
| HtmlGenerator.SingleRowAgrees | html_generator.py:217-235 | with a single row the program's date and the corrected one are the same |
| HtmlGenerator.LevelButtonInjective | html_generator.py:237-251 | a known level's button determines its link date |
| HtmlGenerator.IsoInstantInjective | html_generator.py:233 | different valid days print as different instants |
| HtmlGenerator.JuniorBookingButton | html_generator.py:253-259 | one fixed "Book Junior Courses" button linking to the junior coaching page, the same for every block |
| HtmlGenerator.BookingEscapes | html_generator.py:241 | `%5B`, `%5D` and `%22` are the encodings of `[`, `]` and `"` |
| HtmlGenerator.BookingQueryDecodes | html_generator.py:241 | the query decodes to `skill-level[]=<id>&date-range[]="<date>"` |
| HtmlGenerator.EarliestDateUnescaped | html_generator.py:241 | neither the program's booking date nor the corrected one holds a `%`, so each passes through decoding unchanged |
| HtmlGenerator.LegendShape | html_generator.py:17-22 | the legend is the heading, `<ul>`, the four colour entries in Blue, Red, Orange, Green order, then `</ul>` |
| HtmlGenerator.GenerateJuniorExplanation | html_generator.py:159-196 | the parts are the legend alone, or the legend then the available-courses list |
| HtmlGenerator.CollectJuniorNames | html_generator.py:171-175 | the loop collects the non-empty course names in row order |
| HtmlGenerator.JuniorNamesListed | html_generator.py:171-175 | a name is listed iff it is non-empty and some row has it; the list is a subsequence of the names |
| HtmlGenerator.JuniorExplanationShape | html_generator.py:177-196 | the legend always comes first; the names list is present iff some row has a name, and then holds one item per name in order |
| HtmlGenerator.BlockConfigFor | html_generator.py:125 | an unknown block type gets the adults config |
| HtmlGenerator.GenerateCourseBlock | html_generator.py:119-157 | the block is "" for no rows, else the title, then the junior explanation and junior button or the configured course list |
| HtmlGenerator.CourseBlockTitle | html_generator.py:121-131 | the block is empty iff there are no rows, opens with its configured `<h2>` title, and an unknown type renders as adults |
| HtmlGenerator.JuniorBlockIgnoresDetails | html_generator.py:128-155 | a junior block depends only on the course names, not on dates, times, counts or the helper |
| HtmlGenerator.GenerateEventsBlock | html_generator.py:198-215 | the block is "" for no rows, else the optional helper paragraph then the flat list with venues |
| HtmlGenerator.EventsBlockShape | html_generator.py:198-215 | the optional description comes first, then `<ul>`, one item per row in order, `</ul>` |
| HtmlGenerator.EventsFallback | html_generator.py:206-209 | without a key the events intro is the fixed events description |
| HtmlGenerator.AppendBlocks | html_generator.py:283-285 | the loop appends exactly the blocks that are not blank after stripping, in order |
| HtmlGenerator.GenerateNewsletterHtml | html_generator.py:279-336 | the page is the wrapper, the title and summary when a custom summary is given, the kept blocks and `</div>`; a helper adds nothing |
| HtmlGenerator.NewsletterOrder | html_generator.py:293-310 | the title appears only with a summary, the summary precedes every block, and the kept blocks follow in order |
| HtmlGenerator.KeptBlocks | html_generator.py:283-285 | a block is kept iff it is not blank; kept blocks keep their order |
| HtmlGenerator.NoSummaryNoTitle | html_generator.py:281-290 | without a summary the subject changes nothing |
| HtmlGenerator.HelperSummaryDropped | html_generator.py:311-334 | as written, a helper without a key adds nothing; as intended, it adds the fallback summary under the title |
| HtmlGenerator.IntendedSummary | html_generator.py:292-314 | a custom summary wins; without one and without a helper there is none |
| HtmlGenerator.IntendedWithoutHelper | html_generator.py:292-312 | without a helper the corrected page equals the page as written |
| LlmHelper.CleanLine | llm_helper.py:57-69 | a line raises iff it is blank once stripped |
| LlmHelper.CleanLlmResponse | llm_helper.py:41-71 | the loop over lines computes the specification `CleanResponse`, including the raise |
| LlmHelper.RaisesPropagate | llm_helper.py:56-69 | once a line raises, the whole loop raises |
| LlmHelper.CleanLinesRaises | llm_helper.py:56-69 | the loop raises iff some line is blank once stripped |
| LlmHelper.CleanResponseRaises | llm_helper.py:43-71 | cleaning raises iff the reply is non-empty and some line of the unquoted text is blank |
| LlmHelper.BlankReplyRaises | llm_helper.py:43-59 | a non-empty all-whitespace reply raises |
| LlmHelper.CleanLineCases | llm_helper.py:59-67 | a plain line is kept, and a digit-marker prefix, a "- " prefix, or both are removed |
| LlmHelper.DigitLineKept | llm_helper.py:59-69 | a line starting with a digit but no marker is kept whole |
| LlmHelper.PlainReplyRoundTrip | llm_helper.py:46-71 | a plain one-line reply comes back as itself, bare or in either kind of quotes |
| LlmHelper.NumberedListReply | llm_helper.py:53-71 | "1. a" and "2) b" on two lines become "a b" |
| LlmHelper.CleanResponseShape | llm_helper.py:54-71 | a cleaned reply is trimmed and has no newline |
| LlmHelper.StripTagsNoTag | llm_helper.py:81 | no `<[^>]+>` match is left after stripping |
| LlmHelper.StripTagsKeeps | llm_helper.py:81 | text without a tag passes through unchanged |
| LlmHelper.StripTagsFixpoint | llm_helper.py:81 | stripping twice is stripping once; a text is fixed iff it has no tag |
| LlmHelper.StripTagsExamples | llm_helper.py:81 | "<>" and an unclosed "<" survive, "<p>Hi</p>" becomes "Hi" |
| LlmHelper.CollapseSingleSpaced | llm_helper.py:84 | after collapsing, whitespace occurs only as single spaces |
| LlmHelper.CollapseKeeps | llm_helper.py:84 | single-spaced text passes through unchanged |
| LlmHelper.CollapseFixpoint | llm_helper.py:84 | collapsing twice is collapsing once; a text is fixed iff single-spaced |
| LlmHelper.ExtractText | llm_helper.py:73-87 | empty HTML gives ""; the text is trimmed and whitespace in it occurs only as single spaces |
| LlmHelper.NoKeyFallbacks | llm_helper.py:135-301 | without a key every call gives "", each generator gives its fixed fallback (unknown keys give the defaults), and the event description raises |
| LlmHelper.MakeLlmCall | llm_helper.py:133-156 | the result is trimmed and on one line; "" without a key or without a reply; otherwise the cleaned reply, or "" when cleaning raises |
| LlmHelper.GenerateSubjectLine | llm_helper.py:158-186 | without a key the fixed subject line; with one the model's answer about the newsletter's extracted text; trimmed and on one line |
| LlmHelper.GeneratePreviewText | llm_helper.py:188-215 | without a key the fixed preview text; with one the model's answer about the extracted text; trimmed and on one line |
| LlmHelper.GenerateBlockDescription | llm_helper.py:217-239 | without a key the block's fallback or the default, never empty; with one the model's answer for the block, trimmed and on one line |
| LlmHelper.GenerateLevelDescription | llm_helper.py:241-264 | without a key the level's fallback or the default, never empty; with one the model's answer for the level, trimmed and on one line |
| LlmHelper.GenerateEventDescription | llm_helper.py:266-296 | raises exactly when there is no key; otherwise the model's answer for the event, trimmed and on one line |
| LlmHelper.GenerateNewsletterSummary | llm_helper.py:298-323 | the fixed summary without a key; raises exactly when there is a key and no HTML; otherwise the model's answer about the extracted text, trimmed and on one line |
| App.EventTitle | app.py:135 | the title is the stripped title when not blank, else "Event {i+1}"; never empty |
| App.BuildEvents | app.py:95-142 | the loop builds the event of each slot with a description, in slot order |
| App.EventIdInjective | app.py:137 | two slots have the same id iff they are the same slot |
| App.SlotEventsComplete | app.py:133-142 | every slot with a description gives its event |
| App.SlotEventsSound | app.py:133-142 | every event comes from a slot with a description |
| App.SlotEventIdNamed | app.py:136-137 | every event id is an "event_" key naming its slot |
| App.SlotEventIds | app.py:133-142 | event ids are "event_" keys and pairwise distinct |
| App.Session.constructor | app.py:152 | a new session holds no content order |
| App.Session.UpdateOrder | app.py:152-175 | the first pass stores the initial order, later passes the reconciled one |
| App.DefaultOrder | app.py:153-163 | the loops build "adults", the other available types, then the event ids |
| App.InitialOrderHead | app.py:154-157 | "adults" comes first and appears nowhere else among the course keys |
| App.ReconcileOrder | app.py:165-175 | the loops keep the course keys in order and append each event id not yet present |
| App.AppendNewDisjoint | app.py:170-173 | distinct new ids are all appended, in order |
| App.ReconciledShape | app.py:164-175 | the reconciled order is the kept course keys then all current event ids; events form the suffix, each once |
| App.ReconciledFixpoint | app.py:164-175 | a reconciled order is unchanged by reconciling again with the same events |
| App.ReconcileIdempotent | app.py:164-175 | reconciling twice is reconciling once |
| App.InitialOrderStable | app.py:152-175 | the first rerun keeps the initial order |
| App.Session.MoveUp | app.py:203-207 | Move Up swaps rows i-1 and i, and does nothing at the top |
| App.Session.MoveDown | app.py:209-213 | Move Down swaps rows i and i+1, and does nothing at the bottom |
| App.SwapUpParts | app.py:203-207 | Move Up exchanges exactly the pair at i-1, i and keeps the rest |
| App.SwapsPermute | app.py:203-213 | both buttons only reorder: no key is lost or repeated |
| App.SwapDownIsSwapUp | app.py:203-213 | Move Down on a row is Move Up on the row below |
| App.MoveUpThenDown | app.py:203-213 | Move Up then Move Down on the row above restores the order |
| App.EventMoveUndone | app.py:164-207 | a move that involves an event key is undone by the next rerun's reconciliation |
| App.CourseMoveKept | app.py:164-207 | a move of two course keys survives reconciliation as the same swap |
| Draft.EventDescription | app.py:426-435 | without a key the description is "", since the raise is caught |
| Draft.NoKeyNoDescription | app.py:430-439 | without a key no description paragraph is shown, and the raw description is not used instead |
| Draft.GenerateSingleEventHtml | app.py:416-450 | the method builds the specification `SingleEventHtml` |
| Draft.SingleEventShape | app.py:416-450 | div, `<h2>` title, image iff set, paragraph iff the description is non-empty, button iff a url is set, closing div, in that order |
| Draft.SingleEventNonEmpty | app.py:238-240 | an event's HTML is never empty, so a found event always gives a block |
| Draft.FindEvent | app.py:236 | the first event with the key: it is at a position with no earlier event carrying the key; none iff no event has it |
| Draft.GenerateBlocks | app.py:233-255 | the loop emits the blocks of the keys in order |
| Draft.AppendEventBlock | app.py:234-244 | an event key appends its event's HTML when the event exists |
| Draft.AppendCourseBlock | app.py:245-255 | a course key appends the course block of its rows when any exist |
| Draft.EventKeyBlock | app.py:234-244 | an event key gives its event's block iff the event exists |
| Draft.CourseKeyBlock | app.py:245-255 | a course key gives a block iff some row's lower-cased type equals the key without trailing 's' |
| Draft.EventsKeyAsAdults | app.py:247-249 | the "events" key selects type "event" rows and renders them with the adults config |
| Draft.BlocksAtMostOnePerKey | app.py:233-255 | there are never more blocks than keys: each key gives at most one |
| Draft.GenerateDraft | app.py:226-263 | the draft is the wrapper around the non-blank blocks, with no title or summary |

## Left out

- Reading the CSV (`pd.read_csv`, UTF-8 decoding, pandas type inference). The input is an already split header list and rows of text cells.
- CsvProcessor.CoerceCount: counts are integers. The floats pandas can produce (which would print "6.0 weeks") are not modelled.
- Python string semantics beyond ASCII. `isspace`, `isdigit`, `lower`, `strip` and regex `\s` are modelled on their ASCII parts, and `%B` is fixed to English month names.
- The OpenAI call, its prompts, its parameters and the exceptions the client raises. The reply is an abstract oracle (`Helper.reply`), possibly absent.
- The Streamlit page: widgets, messages, spinners, `st.rerun`, previews, step 4's subject/preview/summary screen and step 5's JSON output. Only the list operations and the session's content order are modelled.
- The order rows' display labels (app.py:183-200): UI only.
- `auth.py` (the password gate) is not part of this model: UI and secrets only.
- `url_generator.py` is not part of this model: it reads the clock.
- `debug_extract_text` and `test_html_extraction` (llm_helper.py:89-131): print-only debugging.
- `generate_events_html` (app.py:452-470): never called, and it reads a 'date' key that events never have.
- `test_app.py` and `tests/`: launcher and print-driven scripts. Their sample rows appear only in the example lemmas.
- App.SlotEvents: the page offers exactly three slots; the model builds events from any number of slots.
- HtmlGenerator.CourseList: the venue grouping is modelled, but no block type uses it, because the juniors block never calls the course list.
- CsvProcessor.GetContentTypes: the Python dictionary has no 'levels' entry for events and drop-ins; the model gives them an empty list.
- Text.ParseInt: digits with an optional sign and surrounding whitespace only; the underscores Python's `int()` accepts between digits are refused, so "1_0:00" stays unchanged in `HtmlGenerator.FormatTime`, where the program gives "10am".
- Calendar.IsoInstant: the year is always padded to four digits, as it is in `Calendar.LongDate`; `strftime('%Y')` for years below 1000 depends on the platform.
- The exact `%d` and `%m` behaviour of `strptime` on inputs like " 4" is modelled from CPython's directive patterns; locale and time-zone effects are not.

## Findings

| source | as written | input that shows it | evidently intended | confidence | as-written member | corrected member |
|---|---|---|---|---|---|---|
| html_generator.py:224-233 | `courses_df['Start Date'].min()` compares raw texts as strings, so with `DD/MM/YYYY` dates the smallest day of the month wins, whatever the month | start dates 04/08/2025 and 01/09/2025 (both in the sample rows of tests/test_components.py:40) give the link date 2025-09-01T00:00:00.000Z | the earliest start date, 2025-08-04T00:00:00.000Z, compared as dates; the fallback only when no start date parses | high; not executed | HtmlGenerator.EarliestDateFinding | HtmlGenerator.EarliestParsedIsLeast |
| html_generator.py:312-314 | the helper branch calls `generate_newsletter_summary_from_html`, which `LLMHelper` does not define; the `AttributeError` is caught, so a helper never adds a summary | any call with a helper and no custom summary, e.g. a helper without an API key | the helper's `generate_newsletter_summary` on the page built so far, shown under the title (the fixed fallback summary without a key) | high; not executed | HtmlGenerator.HelperSummaryDropped | HtmlGenerator.IntendedSummary |

The booking buttons the pipeline builds keep the date as written (`HtmlGenerator.BookingButton`); on the sample dates they differ from the buttons with the corrected date (`HtmlGenerator.BookingButtonFinding`). The pipeline never passes a helper to the page assembler, so the corrected summary does not change any page it builds (`HtmlGenerator.IntendedWithoutHelper`).
