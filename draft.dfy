/**
 * Step 3 of the Streamlit flow in `app.py`: the dispatch of each content
 * order key to an HTML block, the HTML of a single user-authored event,
 * and the draft newsletter that wraps the blocks.
 */
module Draft {
  import opened Wrappers
  import opened Text
  import opened Seqs
  import opened CsvProcessor
  import opened LlmHelper
  import opened App
  import HtmlGenerator

  // ---------------------------------------------------------------------
  // Single-event HTML

  const EventOpen: string := "<div style=\"margin: 40px 0;\">"

  /** What the helper writes for an event. Only the description is passed,
      so the prompt's title is always the default "Event"; the
      `AttributeError` raised without a key is caught and leaves "". */
  function EventDescription(h: Helper, e: Event): (d: string)
    ensures !h.hasKey ==> d == ""
  {
    match GenerateEventDescription(h, e.description, "Event")
    case None => ""
    case Some(d) => d
  }

  function ImageTag(e: Event): string {
    "<img src=\"" + e.image + "\" alt=\"" + e.title
    + "\" style=\"width: 100%; max-width: 600px; margin: 10px auto; display: block;\" />"
  }

  function EventButton(e: Event): string {
    "\n        <p style=\"text-align: center;\">\n            <a href=\"" + e.url
    + "\" class=\"cta-button\">Book Your Spot</a>\n        </p>\n        "
  }

  function Heading(e: Event): string {
    "<h2>" + e.title + "</h2>"
  }

  function Paragraph(d: string): string {
    "<p>" + d + "</p>"
  }

  /** A part that is present only when `keep` holds. */
  function Optional(keep: bool, part: string): (r: seq<string>)
    ensures |r| <= 1 && (keep <==> r == [part])
  {
    if keep then [part] else []
  }

  /** The parts of `generate_single_event_html` once the description `d`
      has been written. */
  function SingleEventParts(e: Event, d: string): seq<string> {
    [EventOpen] + [Heading(e)]
    + Optional(e.image != "", ImageTag(e))
    + Optional(d != "", Paragraph(d))
    + Optional(e.url != "", EventButton(e))
    + ["</div>"]
  }

  function SingleEventHtml(h: Helper, e: Event): string {
    Join(SingleEventParts(e, EventDescription(h, e)), "\n")
  }

  /** `generate_single_event_html` */
  method GenerateSingleEventHtml(h: Helper, e: Event) returns (html: string)
    ensures html == SingleEventHtml(h, e)
  {
    var parts := [EventOpen];
    parts := parts + [Heading(e)];
    parts := AppendIf(parts, e.image != "", ImageTag(e));
    var description := EventDescription(h, e);
    parts := AppendIf(parts, description != "", Paragraph(description));
    parts := AppendIf(parts, e.url != "", EventButton(e));
    parts := parts + ["</div>"];
    html := Join(parts, "\n");
  }

  /** `if keep: html_parts.append(part)` */
  method AppendIf(parts: seq<string>, keep: bool, part: string) returns (r: seq<string>)
    ensures r == parts + Optional(keep, part)
  {
    r := parts;
    if keep {
      r := r + [part];
    }
  }

  /** Three optional parts between two fixed ones and a closing one. */
  lemma OptionalPartsShape(first: string, second: string, a: seq<string>, b: seq<string>, c: seq<string>, last: string)
    requires |a| <= 1 && |b| <= 1 && |c| <= 1
    ensures var parts := [first] + [second] + a + b + c + [last];
            |parts| == 3 + |a| + |b| + |c|
            && parts[0] == first && parts[1] == second && parts[|parts| - 1] == last
            && (|a| == 1 ==> parts[2] == a[0])
            && (|b| == 1 ==> parts[2 + |a|] == b[0])
            && (|c| == 1 ==> parts[2 + |a| + |b|] == c[0])
  {
  }

  /** The event block is the div, the title, then an image exactly when one
      is set, a paragraph exactly when the helper wrote something, a
      button exactly when a link is set, and the closing div. */
  lemma SingleEventShape(e: Event, d: string)
    ensures var parts := SingleEventParts(e, d);
            var img := if e.image != "" then 1 else 0;
            var par := if d != "" then 1 else 0;
            var cta := if e.url != "" then 1 else 0;
            |parts| == 3 + img + par + cta
            && parts[0] == EventOpen && parts[1] == Heading(e) && parts[|parts| - 1] == "</div>"
            && (img == 1 ==> parts[2] == ImageTag(e))
            && (par == 1 ==> parts[2 + img] == Paragraph(d))
            && (cta == 1 ==> parts[2 + img + par] == EventButton(e))
  {
    OptionalPartsShape(EventOpen, Heading(e), Optional(e.image != "", ImageTag(e)),
      Optional(d != "", Paragraph(d)), Optional(e.url != "", EventButton(e)), "</div>");
  }

  /** Without a key the typed description never reaches the newsletter:
      the block has no paragraph at all. */
  lemma NoKeyNoDescription(h: Helper, e: Event)
    requires !h.hasKey
    ensures SingleEventHtml(h, e) == Join(WithoutParagraph(e), "\n")
  {
    assert EventDescription(h, e) == "";
    NoParagraph(e);
  }

  /** The parts of an event block with no description. */
  function WithoutParagraph(e: Event): seq<string> {
    [EventOpen] + [Heading(e)] + Optional(e.image != "", ImageTag(e)) + Optional(e.url != "", EventButton(e)) + ["</div>"]
  }

  lemma NoParagraph(e: Event)
    ensures SingleEventParts(e, "") == WithoutParagraph(e)
  {
    assert Optional(false, Paragraph("")) == [];
  }

  lemma JoinNonEmpty(parts: seq<string>, sep: string)
    requires parts != [] && parts[0] != ""
    ensures Join(parts, sep) != ""
  {
    HtmlGenerator.JoinStartsWith(parts, sep);
  }

  // ---------------------------------------------------------------------
  // Block dispatch

  /** `next((e for e in events if e['id'] == key), None)` */
  function FindEvent(events: seq<Event>, key: string): (r: Option<Event>)
    ensures r.Some? ==> r.value in events && r.value.id == key
    ensures r.None? <==> forall e :: e in events ==> e.id != key
    ensures r.Some? ==> exists i | 0 <= i < |events| :: events[i] == r.value && forall j | 0 <= j < i :: events[j].id != key
  {
    if events == [] then None
    else if events[0].id == key then Some(events[0])
    else
      var r := FindEvent(events[1..], key);
      assert forall e :: e in events ==> e == events[0] || e in events[1..];
      if r.Some? then
        var i :| 0 <= i < |events[1..]| && events[1..][i] == r.value && forall j | 0 <= j < i :: events[1..][j].id != key;
        assert forall j | 0 <= j < i + 1 :: events[j].id != key by {
          forall j | 0 <= j < i + 1 ensures events[j].id != key {
            if j > 0 { assert events[j] == events[1..][j - 1]; }
          }
        }
        assert events[i + 1] == r.value;
        r
      else r
  }

  function OfType(t: string): Course -> bool {
    (c: Course) => Lower(c.courseType) == t
  }

  /** The rows a course key selects: lower-cased type equal to the key
      with its trailing 's' characters stripped. */
  function KeyRows(rows: seq<Course>, key: string): seq<Course> {
    Filter(rows, OfType(RStrip(key, 's')))
  }

  /** The block one order key contributes, if any. */
  function BlockFor(h: Helper, events: seq<Event>, rows: seq<Course>, key: string): seq<string> {
    if IsEventKey(key) then EventBlockFor(h, events, key) else CourseBlockFor(h, rows, key)
  }

  /** The block of an event key: its event's HTML, if an event has that id. */
  function EventBlockFor(h: Helper, events: seq<Event>, key: string): seq<string> {
    match FindEvent(events, key)
    case None => []
    case Some(e) => if SingleEventHtml(h, e) != "" then [SingleEventHtml(h, e)] else []
  }

  /** The block of a course key: the course block of the rows it selects,
      if it selects any. */
  function CourseBlockFor(h: Helper, rows: seq<Course>, key: string): seq<string> {
    var courses := KeyRows(rows, key);
    if courses == [] then []
    else
      var b := HtmlGenerator.CourseBlock(Some(h), courses, key);
      if b != "" then [b] else []
  }

  /** The blocks of the newsletter, key by key in content order. */
  function Blocks(h: Helper, events: seq<Event>, rows: seq<Course>, order: seq<string>): seq<string> {
    if order == [] then []
    else Blocks(h, events, rows, order[..|order| - 1]) + BlockFor(h, events, rows, order[|order| - 1])
  }

  /** The loop of step 3 that fills `html_blocks`. */
  method GenerateBlocks(h: Helper, events: seq<Event>, rows: seq<Course>, order: seq<string>)
    returns (blocks: seq<string>)
    ensures blocks == Blocks(h, events, rows, order)
  {
    blocks := [];
    for k := 0 to |order|
      invariant blocks == Blocks(h, events, rows, order[..k])
    {
      assert order[..k + 1][..k] == order[..k];
      blocks := AppendBlock(h, events, rows, blocks, order[k]);
    }
    assert order[..|order|] == order;
  }

  /** One pass of that loop: the block of one key, if any. */
  method AppendBlock(h: Helper, events: seq<Event>, rows: seq<Course>, blocks: seq<string>, key: string)
    returns (r: seq<string>)
    ensures r == blocks + BlockFor(h, events, rows, key)
  {
    if StartsWith(key, "event_") {
      r := AppendEventBlock(h, events, blocks, key);
    } else {
      r := AppendCourseBlock(h, rows, blocks, key);
    }
  }

  method AppendEventBlock(h: Helper, events: seq<Event>, blocks: seq<string>, key: string)
    returns (r: seq<string>)
    ensures r == blocks + EventBlockFor(h, events, key)
  {
    r := blocks;
    var found := FindEvent(events, key);
    if found.Some? {
      var html := GenerateSingleEventHtml(h, found.value);
      if html != "" {
        r := r + [html];
      }
    }
  }

  method AppendCourseBlock(h: Helper, rows: seq<Course>, blocks: seq<string>, key: string)
    returns (r: seq<string>)
    ensures r == blocks + CourseBlockFor(h, rows, key)
  {
    r := blocks;
    var courses := Filter(rows, OfType(RStrip(key, 's')));
    if courses != [] {
      var html := HtmlGenerator.GenerateCourseBlock(Some(h), courses, key);
      if html != "" {
        r := r + [html];
      }
    }
  }

  /** Step 3: the blocks in content order, in the wrapper, with no title
      and no summary yet. */
  method GenerateDraft(h: Helper, events: seq<Event>, rows: seq<Course>, order: seq<string>)
    returns (html: string)
    ensures html == Join([HtmlGenerator.WrapperOpen] + Filter(Blocks(h, events, rows, order), HtmlGenerator.NonBlank) + ["</div>"], "\n")
  {
    var blocks := GenerateBlocks(h, events, rows, order);
    html := HtmlGenerator.GenerateNewsletterHtml(blocks, None, None, None);
  }

  /** An event key renders its event when one has that id, and nothing
      otherwise. */
  lemma EventKeyBlock(h: Helper, events: seq<Event>, rows: seq<Course>, key: string)
    requires IsEventKey(key)
    ensures (exists e :: e in events && e.id == key) ==>
              BlockFor(h, events, rows, key) == [SingleEventHtml(h, FindEvent(events, key).value)]
    ensures (forall e :: e in events ==> e.id != key) ==> BlockFor(h, events, rows, key) == []
  {
    EventBlockFound(h, events, key);
    assert BlockFor(h, events, rows, key) == EventBlockFor(h, events, key);
  }

  lemma EventBlockFound(h: Helper, events: seq<Event>, key: string)
    ensures FindEvent(events, key).Some? ==> EventBlockFor(h, events, key) == [SingleEventHtml(h, FindEvent(events, key).value)]
    ensures FindEvent(events, key).None? ==> EventBlockFor(h, events, key) == []
  {
    if FindEvent(events, key).Some? {
      SingleEventNonEmpty(FindEvent(events, key).value, EventDescription(h, FindEvent(events, key).value));
    }
  }

  /** The HTML of an event is never empty: it opens with its div. */
  lemma SingleEventNonEmpty(e: Event, d: string)
    ensures Join(SingleEventParts(e, d), "\n") != ""
  {
    var parts := SingleEventParts(e, d);
    assert parts[0] == EventOpen;
    JoinNonEmpty(parts, "\n");
  }

  /** A course key gives a block exactly when some row's lower-cased type
      is the key without its trailing 's', and that block is the course
      block for those rows under that key. */
  lemma CourseKeyBlock(h: Helper, events: seq<Event>, rows: seq<Course>, key: string)
    requires IsCourseKey(key)
    ensures BlockFor(h, events, rows, key) != [] <==> exists c :: c in rows && Lower(c.courseType) == RStrip(key, 's')
    ensures BlockFor(h, events, rows, key) != [] ==>
              BlockFor(h, events, rows, key) == [HtmlGenerator.CourseBlock(Some(h), KeyRows(rows, key), key)]
  {
    CourseBlockFound(h, rows, key);
    assert BlockFor(h, events, rows, key) == CourseBlockFor(h, rows, key);
  }

  lemma CourseBlockFound(h: Helper, rows: seq<Course>, key: string)
    ensures CourseBlockFor(h, rows, key) != [] <==> exists c :: c in rows && Lower(c.courseType) == RStrip(key, 's')
    ensures CourseBlockFor(h, rows, key) != [] ==>
              CourseBlockFor(h, rows, key) == [HtmlGenerator.CourseBlock(Some(h), KeyRows(rows, key), key)]
  {
    FilterEmpty(rows, OfType(RStrip(key, 's')));
    HtmlGenerator.CourseBlockTitle(Some(h), KeyRows(rows, key), key);
  }

  /** The 'events' key selects the rows typed exactly "event" (not the
      event-like rows of the classifier) and, having no configuration of
      its own, renders them as adult courses grouped by skill level. */
  lemma EventsKeyAsAdults(h: Helper, events: seq<Event>, rows: seq<Course>)
    ensures KeyRows(rows, "events") == Filter(rows, OfType("event"))
    ensures KeyRows(rows, "events") != [] ==>
              BlockFor(h, events, rows, "events") == [HtmlGenerator.CourseBlock(Some(h), KeyRows(rows, "events"), "adults")]
  {
    assert RStrip("events", 's') == "event" by {
      assert "events"[..5] == "event";
    }
    assert !IsEventKey("events");
    HtmlGenerator.CourseBlockTitle(Some(h), KeyRows(rows, "events"), "events");
  }

  /** Every key gives at most one block. */
  lemma {:induction false} BlocksAtMostOnePerKey(h: Helper, events: seq<Event>, rows: seq<Course>, order: seq<string>)
    ensures |Blocks(h, events, rows, order)| <= |order|
  {
    if order != [] {
      BlocksAtMostOnePerKey(h, events, rows, order[..|order| - 1]);
      BlockForAtMostOne(h, events, rows, order[|order| - 1]);
    }
  }

  lemma BlockForAtMostOne(h: Helper, events: seq<Event>, rows: seq<Course>, key: string)
    ensures |BlockFor(h, events, rows, key)| <= 1
  {
  }
}
